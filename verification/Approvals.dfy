/** What a series of "approve if the allowance is short" calls does to the allowances. */
module Approvals {
  import opened FeltDecoder
  import opened Intents
  import opened Integers
  import opened Wrappers

  /** ERC20 approve replaces the allowance; the amount is packed as a uint256. */
  function Approve<K>(allowance: map<K, nat>, key: K, amount: nat): (r: map<K, nat>)
    ensures r.Keys == allowance.Keys
  {
    if key in allowance && allowance[key] < amount
    then allowance[key := amount % 0x1_00000000_00000000_00000000_00000000_00000000_00000000_00000000_00000000]
    else allowance
  }

  /** All of them, in order. */
  function ApproveAll<K>(allowance: map<K, nat>, items: seq<(K, nat)>): (r: map<K, nat>)
    ensures r.Keys == allowance.Keys
  {
    if |items| == 0 then allowance
    else
      var (key, amount) := items[|items| - 1];
      Approve(ApproveAll(allowance, items[..|items| - 1]), key, amount)
  }

  /** The largest amount listed for a key, zero if there is none. */
  function Largest<K(==)>(items: seq<(K, nat)>, key: K): nat {
    if |items| == 0 then 0
    else
      var rest, last := Largest(items[..|items| - 1], key), items[|items| - 1];
      if last.0 == key && last.1 > rest then last.1 else rest
  }

  lemma {:induction false} LargestIsLargest<K>(items: seq<(K, nat)>, key: K)
    ensures forall i :: 0 <= i < |items| && items[i].0 == key ==> items[i].1 <= Largest(items, key)
    ensures Largest(items, key) > 0 ==> (key, Largest(items, key)) in items
  {
    if |items| > 0 {
      LargestIsLargest(items[..|items| - 1], key);
    }
  }

  /** With amounts that fit uint256, every allowance ends as the larger of what it was and the largest
      amount listed for it. */
  lemma {:induction false} AllowanceIsMax<K>(allowance: map<K, nat>, items: seq<(K, nat)>, key: K)
    requires forall i :: 0 <= i < |items| ==> items[i].1 < TWO256
    requires key in allowance
    ensures ApproveAll(allowance, items)[key]
         == if allowance[key] >= Largest(items, key) then allowance[key] else Largest(items, key)
  {
    if |items| > 0 {
      AllowanceIsMax(allowance, items[..|items| - 1], key);
    }
  }

  lemma ApproveAllSnoc<K>(allowance: map<K, nat>, items: seq<(K, nat)>, key: K, amount: nat)
    ensures ApproveAll(allowance, items + [(key, amount)]) == Approve(ApproveAll(allowance, items), key, amount)
  {
    assert (items + [(key, amount)])[..|items|] == items;
  }

  lemma LargestSnoc<K>(items: seq<(K, nat)>, k: K, amount: nat, key: K)
    ensures Largest(items + [(k, amount)], key)
         == if k == key && amount > Largest(items, key) then amount else Largest(items, key)
  {
    assert (items + [(k, amount)])[..|items|] == items;
  }

  // ------------------------------------------------------------- approvals that may come to nothing

  /** The same when only some of the approve transactions take effect: the j-th if took(j). */
  function ApproveTaken<K>(allowance: map<K, nat>, items: seq<(K, nat)>, took: nat -> bool): (r: map<K, nat>)
    ensures r.Keys == allowance.Keys
  {
    if |items| == 0 then allowance
    else
      var before, (key, amount) := ApproveTaken(allowance, items[..|items| - 1], took), items[|items| - 1];
      if took(|items| - 1) then Approve(before, key, amount) else before
  }

  lemma ApproveTakenSnoc<K>(allowance: map<K, nat>, items: seq<(K, nat)>, took: nat -> bool, key: K, amount: nat)
    ensures ApproveTaken(allowance, items + [(key, amount)], took)
         == if took(|items|) then Approve(ApproveTaken(allowance, items, took), key, amount)
            else ApproveTaken(allowance, items, took)
  {
    assert (items + [(key, amount)])[..|items|] == items;
  }

  /** The largest amount listed for a key among the items that took effect. */
  function LargestTaken<K(==)>(items: seq<(K, nat)>, took: nat -> bool, key: K): nat {
    if |items| == 0 then 0
    else
      var rest, last := LargestTaken(items[..|items| - 1], took, key), items[|items| - 1];
      if took(|items| - 1) && last.0 == key && last.1 > rest then last.1 else rest
  }

  lemma {:induction false} TakenIsMax<K>(allowance: map<K, nat>, items: seq<(K, nat)>, took: nat -> bool, key: K)
    requires forall i :: 0 <= i < |items| ==> items[i].1 < TWO256
    requires key in allowance
    ensures var taken := LargestTaken(items, took, key);
            ApproveTaken(allowance, items, took)[key] == if allowance[key] >= taken then allowance[key] else taken
    ensures LargestTaken(items, took, key) <= Largest(items, key)
  {
    if |items| > 0 {
      TakenIsMax(allowance, items[..|items| - 1], took, key);
    }
  }

  lemma {:induction false} LargestTakenIsListed<K>(items: seq<(K, nat)>, took: nat -> bool, key: K)
    ensures forall j :: 0 <= j < |items| && took(j) && items[j].0 == key ==>
              items[j].1 <= LargestTaken(items, took, key)
    ensures LargestTaken(items, took, key) > 0 ==>
              exists j :: 0 <= j < |items| && took(j) && items[j] == (key, LargestTaken(items, took, key))
  {
    if |items| > 0 {
      var rest := items[..|items| - 1];
      LargestTakenIsListed(rest, took, key);
      assert forall j :: 0 <= j < |rest| ==> rest[j] == items[j];
    }
  }

  /** A token ends with enough allowance exactly if it had enough before, or one of the approvals of its
      largest amount took effect. */
  lemma AllowanceSufficesIff<K>(allowance: map<K, nat>, items: seq<(K, nat)>, took: nat -> bool, key: K)
    requires forall i :: 0 <= i < |items| ==> items[i].1 < TWO256
    requires key in allowance
    ensures ApproveTaken(allowance, items, took)[key] >= Largest(items, key) <==>
            || allowance[key] >= Largest(items, key)
            || exists j :: 0 <= j < |items| && took(j) && items[j] == (key, Largest(items, key))
  {
    TakenIsMax(allowance, items, took, key);
    LargestTakenIsListed(items, took, key);
  }

  // ------------------------------------------------------------- the approvals an order asks for

  /** An address or a felt as a number. */
  type Account = nat

  type Approval = ((Account, Account), nat)

  /** By token and spender; a token that does not exist on the chain is absent. */
  type Allowances = map<(Account, Account), nat>

  /** Tokens of another chain and the native token need no approval here. */
  predicate IsRelevant(o: Output, destination: int) {
    o.token != "" && Uint64(o.chainID) == Uint64(destination)
  }

  lemma RelevantIff(o: Output, destination: int)
    requires 0 <= o.chainID < TWO64 && 0 <= destination < TWO64
    ensures IsRelevant(o, destination) <==> |o.token| > 0 && o.chainID == destination
  {
  }

  type AddressOf = string -> Option<Account>

  /** The approvals a list of outputs asks for; None if a token to approve is not an address. */
  function Requested(addressOf: AddressOf, outputs: seq<Output>, destination: int, spender: Account)
    : Option<seq<Approval>>
  {
    if |outputs| == 0 then Some([])
    else
      var o := outputs[|outputs| - 1];
      var before :- Requested(addressOf, outputs[..|outputs| - 1], destination, spender);
      if !IsRelevant(o, destination) then Some(before)
      else
        var token :- addressOf(o.token);
        Some(before + [((token, spender), o.amount)])
  }

  lemma RequestedStep(addressOf: AddressOf, outputs: seq<Output>, i: nat, destination: int, spender: Account)
    requires i < |outputs| && Requested(addressOf, outputs[..i], destination, spender).Some?
    ensures var before := Requested(addressOf, outputs[..i], destination, spender).value;
            Requested(addressOf, outputs[..i + 1], destination, spender)
            == if !IsRelevant(outputs[i], destination) then Some(before)
               else if addressOf(outputs[i].token).None? then None
               else Some(before + [((addressOf(outputs[i].token).value, spender), outputs[i].amount)])
  {
    assert outputs[..i + 1][..i] == outputs[..i];
  }

  lemma {:induction false} NothingRequested(addressOf: AddressOf, outputs: seq<Output>, destination: int,
                                            spender: Account, i: nat)
    requires i < |outputs| && IsRelevant(outputs[i], destination) && addressOf(outputs[i].token).None?
    ensures Requested(addressOf, outputs, destination, spender).None?
  {
    if i < |outputs| - 1 {
      NothingRequested(addressOf, outputs[..|outputs| - 1], destination, spender, i);
    }
  }

  /** They can all be asked for exactly if every token to approve is an address. */
  lemma {:induction false} RequestedIff(addressOf: AddressOf, outputs: seq<Output>, destination: int, spender: Account)
    ensures Requested(addressOf, outputs, destination, spender).Some? <==>
              forall o <- outputs :: |o.token| > 0 && Uint64(o.chainID) == Uint64(destination) ==>
                addressOf(o.token).Some?
  {
    if |outputs| > 0 {
      var rest, last := outputs[..|outputs| - 1], outputs[|outputs| - 1];
      RequestedIff(addressOf, rest, destination, spender);
      assert forall o <- outputs :: o in rest || o == last;
    }
  }

  /** The allowances once the first n outputs' approvals are made. */
  ghost predicate ApprovedUpTo(addressOf: AddressOf, outputs: seq<Output>, destination: int, spender: Account, n: nat,
                               before: Allowances, after: Allowances)
    requires n <= |outputs|
  {
    var requested := Requested(addressOf, outputs[..n], destination, spender);
    requested.Some? && after == ApproveAll(before, requested.value)
  }

  lemma ApprovedOneMore(addressOf: AddressOf, outputs: seq<Output>, destination: int, spender: Account, i: nat,
                        before: Allowances, after: Allowances)
    requires i < |outputs| && ApprovedUpTo(addressOf, outputs, destination, spender, i, before, after)
    ensures !IsRelevant(outputs[i], destination) ==>
              ApprovedUpTo(addressOf, outputs, destination, spender, i + 1, before, after)
    ensures IsRelevant(outputs[i], destination) && addressOf(outputs[i].token).Some? ==>
              var key := (addressOf(outputs[i].token).value, spender);
              ApprovedUpTo(addressOf, outputs, destination, spender, i + 1, before,
                           Approve(after, key, outputs[i].amount))
  {
    RequestedStep(addressOf, outputs, i, destination, spender);
    if IsRelevant(outputs[i], destination) && addressOf(outputs[i].token).Some? {
      var key := (addressOf(outputs[i].token).value, spender);
      ApproveAllSnoc(before, Requested(addressOf, outputs[..i], destination, spender).value, key, outputs[i].amount);
    }
  }

  /** The allowances once the first n outputs' approvals are sent, if those for which took holds take
      effect. */
  ghost predicate TakenUpTo(addressOf: AddressOf, outputs: seq<Output>, destination: int, spender: Account, n: nat,
                            took: nat -> bool, before: Allowances, after: Allowances)
    requires n <= |outputs|
  {
    var requested := Requested(addressOf, outputs[..n], destination, spender);
    requested.Some? && after == ApproveTaken(before, requested.value, took)
  }

  /** How many approvals the first n outputs ask for. */
  function CountUpTo(addressOf: AddressOf, outputs: seq<Output>, destination: int, spender: Account, n: nat): nat
    requires n <= |outputs|
  {
    var requested := Requested(addressOf, outputs[..n], destination, spender);
    if requested.Some? then |requested.value| else 0
  }

  lemma TakenOneMore(addressOf: AddressOf, outputs: seq<Output>, destination: int, spender: Account, i: nat,
                     took: nat -> bool, before: Allowances, after: Allowances)
    requires i < |outputs| && TakenUpTo(addressOf, outputs, destination, spender, i, took, before, after)
    ensures var count := CountUpTo(addressOf, outputs, destination, spender, i);
            if !IsRelevant(outputs[i], destination) then
              && TakenUpTo(addressOf, outputs, destination, spender, i + 1, took, before, after)
              && CountUpTo(addressOf, outputs, destination, spender, i + 1) == count
            else addressOf(outputs[i].token).Some? ==>
              var key := (addressOf(outputs[i].token).value, spender);
              && TakenUpTo(addressOf, outputs, destination, spender, i + 1, took, before,
                           if took(count) then Approve(after, key, outputs[i].amount) else after)
              && CountUpTo(addressOf, outputs, destination, spender, i + 1) == count + 1
  {
    RequestedStep(addressOf, outputs, i, destination, spender);
    if IsRelevant(outputs[i], destination) && addressOf(outputs[i].token).Some? {
      var key := (addressOf(outputs[i].token).value, spender);
      ApproveTakenSnoc(before, Requested(addressOf, outputs[..i], destination, spender).value, took, key,
                       outputs[i].amount);
    }
  }

  /** The largest amount an order may spend of a token on the destination chain, zero if none. */
  function LargestSpent(addressOf: AddressOf, outputs: seq<Output>, destination: int, token: Account): nat {
    if |outputs| == 0 then 0
    else
      var o, rest := outputs[|outputs| - 1], LargestSpent(addressOf, outputs[..|outputs| - 1], destination, token);
      if IsRelevant(o, destination) && addressOf(o.token) == Some(token) && o.amount > rest then o.amount else rest
  }

  /** The largest amount requested for a token and a spender: nothing for any other spender. */
  lemma {:induction false} RequestedAmounts(addressOf: AddressOf, outputs: seq<Output>, destination: int,
                                            spender: Account, key: (Account, Account))
    requires forall i :: 0 <= i < |outputs| ==> outputs[i].amount < TWO256
    requires Requested(addressOf, outputs, destination, spender).Some?
    ensures var requested := Requested(addressOf, outputs, destination, spender).value;
            && (forall i :: 0 <= i < |requested| ==> requested[i].1 < TWO256)
            && Largest(requested, key)
            == if key.1 == spender then LargestSpent(addressOf, outputs, destination, key.0) else 0
  {
    if |outputs| > 0 {
      var o, rest := outputs[|outputs| - 1], outputs[..|outputs| - 1];
      RequestedAmounts(addressOf, rest, destination, spender, key);
      if IsRelevant(o, destination) {
        var before := Requested(addressOf, rest, destination, spender).value;
        LargestSnoc(before, (addressOf(o.token).value, spender), o.amount, key);
      }
    }
  }

  /** After a successful setupApprovals every token that exists on the chain has as allowance the larger
      of what it had and the largest amount the order may spend of it there; a token the order only
      lists for other chains keeps its allowance, and so does every other spender. */
  lemma ApprovalsReachTheLargest(addressOf: AddressOf, outputs: seq<Output>, destination: int, spender: Account,
                                 before: Allowances, after: Allowances,
                                 key: (Account, Account))
    requires forall i :: 0 <= i < |outputs| ==> outputs[i].amount < TWO256
    requires ApprovedUpTo(addressOf, outputs, destination, spender, |outputs|, before, after)
    ensures after.Keys == before.Keys
    ensures key in before ==>
              var spent := if key.1 == spender then LargestSpent(addressOf, outputs, destination, key.0) else 0;
              after[key] == if before[key] >= spent then before[key] else spent
  {
    assert outputs[..|outputs|] == outputs;
    RequestedAmounts(addressOf, outputs, destination, spender, key);
    if key in before {
      AllowanceIsMax(before, Requested(addressOf, outputs, destination, spender).value, key);
    }
  }

  lemma {:induction false} LargestSpentIs(addressOf: AddressOf, outputs: seq<Output>, destination: int, token: Account)
    ensures forall o <- outputs ::
              |o.token| > 0 && Uint64(o.chainID) == Uint64(destination) && addressOf(o.token) == Some(token) ==>
                o.amount <= LargestSpent(addressOf, outputs, destination, token)
    ensures LargestSpent(addressOf, outputs, destination, token) > 0 ==>
              exists o :: o in outputs && |o.token| > 0 && Uint64(o.chainID) == Uint64(destination)
                          && addressOf(o.token) == Some(token)
                          && o.amount == LargestSpent(addressOf, outputs, destination, token)
  {
    if |outputs| > 0 {
      var rest, last := outputs[..|outputs| - 1], outputs[|outputs| - 1];
      LargestSpentIs(addressOf, rest, destination, token);
      assert forall o <- outputs :: o in rest || o == last;
    }
  }

  /** After a successful setupApprovals the settler may spend every amount of the order on its chain. */
  lemma ApprovalsCover(addressOf: AddressOf, outputs: seq<Output>, destination: int, spender: Account,
                       before: Allowances, after: Allowances, o: Output, token: Account)
    requires forall i :: 0 <= i < |outputs| ==> outputs[i].amount < TWO256
    requires ApprovedUpTo(addressOf, outputs, destination, spender, |outputs|, before, after)
    requires o in outputs && |o.token| > 0 && Uint64(o.chainID) == Uint64(destination)
    requires addressOf(o.token) == Some(token) && (token, spender) in before
    ensures after[(token, spender)] >= o.amount
  {
    ApprovalsReachTheLargest(addressOf, outputs, destination, spender, before, after, (token, spender));
    LargestSpentIs(addressOf, outputs, destination, token);
  }

  /** Where approvals may come to nothing, that holds if all of them take effect. */
  lemma TakenCover(addressOf: AddressOf, outputs: seq<Output>, destination: int, spender: Account, took: nat -> bool,
                   before: Allowances, after: Allowances, o: Output, token: Account)
    requires forall i :: 0 <= i < |outputs| ==> outputs[i].amount < TWO256
    requires TakenUpTo(addressOf, outputs, destination, spender, |outputs|, took, before, after)
    requires forall j :: took(j)
    requires o in outputs && |o.token| > 0 && Uint64(o.chainID) == Uint64(destination)
    requires addressOf(o.token) == Some(token) && (token, spender) in before
    ensures after.Keys == before.Keys && after[(token, spender)] >= o.amount
  {
    AllTaken(before, Requested(addressOf, outputs[..|outputs|], destination, spender).value, took);
    ApprovalsCover(addressOf, outputs, destination, spender, before, after, o, token);
  }

  lemma {:induction false} AllTaken<K>(allowance: map<K, nat>, items: seq<(K, nat)>, took: nat -> bool)
    requires forall j :: took(j)
    ensures ApproveTaken(allowance, items, took) == ApproveAll(allowance, items)
  {
    if |items| > 0 {
      AllTaken(allowance, items[..|items| - 1], took);
    }
  }

  /** The same where approvals may come to nothing: the fill can spend all it needs of a token exactly if
      the allowance sufficed before, or an approval of the largest amount took effect. */
  lemma ApprovalsSufficeIff(addressOf: AddressOf, outputs: seq<Output>, destination: int, spender: Account,
                            took: nat -> bool, before: Allowances, after: Allowances, token: Account)
    requires forall i :: 0 <= i < |outputs| ==> outputs[i].amount < TWO256
    requires TakenUpTo(addressOf, outputs, destination, spender, |outputs|, took, before, after)
    requires (token, spender) in before
    ensures var requested := Requested(addressOf, outputs[..|outputs|], destination, spender).value;
            var spent, key := LargestSpent(addressOf, outputs, destination, token), (token, spender);
            after[key] >= spent <==>
              before[key] >= spent || exists j :: 0 <= j < |requested| && took(j) && requested[j] == (key, spent)
  {
    assert outputs[..|outputs|] == outputs;
    RequestedAmounts(addressOf, outputs, destination, spender, (token, spender));
    AllowanceSufficesIff(before, Requested(addressOf, outputs, destination, spender).value, took, (token, spender));
  }
}
