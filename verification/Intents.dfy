/** An order as the solver receives it, and the allow and block lists (types.go, solver.go). */
module Intents {
  import opened FeltDecoder

  datatype Recipient = Recipient(destinationChainName: string, recipientAddress: string)

  datatype ParsedArgs = ParsedArgs(
    orderID: string,
    senderAddress: string,
    recipients: seq<Recipient>,
    resolvedOrder: ResolvedOrder
  )

  datatype AllowBlockListItem = AllowBlockListItem(
    senderAddress: string,
    destinationDomain: string,
    recipientAddress: string
  )

  datatype AllowBlockLists = AllowBlockLists(allowList: seq<AllowBlockListItem>, blockList: seq<AllowBlockListItem>)

  /** matchesPattern. */
  predicate MatchesPattern(pattern: string, value: string) {
    pattern == "*" || pattern == value
  }

  /** What an item stands for: some recipient of an order by that sender fits it. */
  predicate Covers(item: AllowBlockListItem, args: ParsedArgs) {
    exists i :: 0 <= i < |args.recipients|
                && MatchesPattern(item.senderAddress, args.senderAddress)
                && MatchesPattern(item.destinationDomain, args.recipients[i].destinationChainName)
                && MatchesPattern(item.recipientAddress, args.recipients[i].recipientAddress)
  }

  /** "*" fits everything, and anything else itself. */
  lemma CoversIff(item: AllowBlockListItem, args: ParsedArgs)
    ensures Covers(item, args) <==>
              && (item.senderAddress == "*" || item.senderAddress == args.senderAddress)
              && exists r :: r in args.recipients
                             && (item.destinationDomain == "*" || item.destinationDomain == r.destinationChainName)
                             && (item.recipientAddress == "*" || item.recipientAddress == r.recipientAddress)
  {
  }

  /** matchesAllowBlockItem. */
  method MatchesAllowBlockItem(item: AllowBlockListItem, args: ParsedArgs) returns (matches: bool)
    ensures matches <==> Covers(item, args)
    ensures matches <==>
              && (item.senderAddress == "*" || item.senderAddress == args.senderAddress)
              && exists r :: r in args.recipients
                             && (item.destinationDomain == "*" || item.destinationDomain == r.destinationChainName)
                             && (item.recipientAddress == "*" || item.recipientAddress == r.recipientAddress)
  {
    CoversIff(item, args);
    if item.senderAddress != "*" && item.senderAddress != args.senderAddress {
      return false;
    }
    for i := 0 to |args.recipients|
      invariant forall k :: 0 <= k < i ==>
                  !(MatchesPattern(item.destinationDomain, args.recipients[k].destinationChainName)
                    && MatchesPattern(item.recipientAddress, args.recipients[k].recipientAddress))
    {
      var recipient := args.recipients[i];
      if item.destinationDomain != "*" && item.destinationDomain != recipient.destinationChainName {
        continue;
      }
      if item.recipientAddress != "*" && item.recipientAddress != recipient.recipientAddress {
        continue;
      }
      return true;
    }
    matches := false;
  }

  /** No block item covers the order, and the allow list is empty or has an item that does. */
  predicate Allows(lists: AllowBlockLists, args: ParsedArgs) {
    && (forall i :: 0 <= i < |lists.blockList| ==> !Covers(lists.blockList[i], args))
    && (lists.allowList == [] || exists i :: 0 <= i < |lists.allowList| && Covers(lists.allowList[i], args))
  }

  /** A covering block item stops an order whatever the allow list says. */
  lemma AllowsIff(lists: AllowBlockLists, args: ParsedArgs)
    ensures (exists item :: item in lists.blockList && Covers(item, args)) ==> !Allows(lists, args)
    ensures (forall item :: item in lists.blockList ==> !Covers(item, args)) ==>
              (Allows(lists, args) <==>
                 |lists.allowList| == 0 || exists item :: item in lists.allowList && Covers(item, args))
  {
  }

  /** isAllowedIntent. */
  method IsAllowedIntent(lists: AllowBlockLists, args: ParsedArgs) returns (allowed: bool)
    ensures allowed <==> Allows(lists, args)
    ensures (exists item :: item in lists.blockList && Covers(item, args)) ==> !allowed
    ensures (forall item :: item in lists.blockList ==> !Covers(item, args)) ==>
              (allowed <==> |lists.allowList| == 0 || exists item :: item in lists.allowList && Covers(item, args))
  {
    AllowsIff(lists, args);
    for i := 0 to |lists.blockList|
      invariant forall k :: 0 <= k < i ==> !Covers(lists.blockList[k], args)
    {
      var matches := MatchesAllowBlockItem(lists.blockList[i], args);
      if matches {
        return false;
      }
    }
    if |lists.allowList| == 0 {
      return true;
    }
    for i := 0 to |lists.allowList|
      invariant forall k :: 0 <= k < i ==> !Covers(lists.allowList[k], args)
    {
      var matches := MatchesAllowBlockItem(lists.allowList[i], args);
      if matches {
        return true;
      }
    }
    allowed := false;
  }

  /** The listeners give every order one recipient, named by the listener's own chain and with "*" for
      the address. So an item that names a recipient address covers none of their orders, and an item
      that names a chain covers the orders that chain's listener delivers. */
  lemma ListenerOrdersAreCoveredIff(item: AllowBlockListItem, args: ParsedArgs, chainName: string)
    requires args.recipients == [Recipient(chainName, "*")]
    ensures Covers(item, args) <==>
              && item.recipientAddress == "*"
              && MatchesPattern(item.senderAddress, args.senderAddress)
              && MatchesPattern(item.destinationDomain, chainName)
  {
    var r := args.recipients[0];
    assert MatchesPattern(item.recipientAddress, r.recipientAddress) <==> item.recipientAddress == "*";
  }

  /** An order without recipients is covered by nothing: no block item stops it, and no non-empty allow
      list lets it through. */
  lemma NoRecipients(lists: AllowBlockLists, args: ParsedArgs)
    requires args.recipients == []
    ensures Allows(lists, args) <==> lists.allowList == []
  {
  }

  lemma Uint64Is(n: int)
    ensures 0 <= Uint64(n) < 0x1_0000_0000_0000_0000
    ensures n >= 0 ==> (n - Uint64(n)) % 0x1_0000_0000_0000_0000 == 0
    ensures Uint64(0 - n) == Uint64(n)
  {
  }

  /** big.Int.Uint64: the low 64 bits of the absolute value. */
  function Uint64(n: int): nat {
    (if n < 0 then 0 - n else n) % 0x1_00000000_00000000
  }
}
