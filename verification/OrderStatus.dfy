/** Reading an order's status and waiting for it, the same in both handlers, on a client of the
    destination chain. */
module OrderStatus {
  import opened Approvals
  import opened DestinationChain
  import opened Handlers
  import opened Journal
  import opened StarknetUtil
  import opened Wrappers

  /** Everything sent to or read from any chain, in order. */
  class Log {
    var events: seq<Event>

    constructor ()
      ensures events == []
    {
      events := [];
    }
  }

  function Pow2(n: nat): (p: nat)
    ensures p > 0
  {
    if n == 0 then 1 else 2 * Pow2(n - 1)
  }

  /** The k-th pause, and all pauses before it: each is twice the one before. */
  function Pause(initialDelay: nat, k: nat): nat {
    if k == 0 then initialDelay else 2 * Pause(initialDelay, k - 1)
  }

  function Paused(initialDelay: nat, k: nat): nat {
    if k == 0 then 0 else Paused(initialDelay, k - 1) + Pause(initialDelay, k - 1)
  }

  /** How many pauses come before an attempt, when there are n attempts: none follows the last one. */
  function Pauses(attempt: nat, n: nat): nat
    requires attempt > 0
  {
    if attempt > n > 0 then n - 1 else attempt - 1
  }

  lemma NextPause(initialDelay: nat, attempt: nat, n: nat)
    requires 0 < attempt <= n
    ensures var k, l := Pauses(attempt, n), Pauses(attempt + 1, n);
            if attempt == n then k == l
            else Pause(initialDelay, l) == 2 * Pause(initialDelay, k)
                 && Paused(initialDelay, l) == Paused(initialDelay, k) + Pause(initialDelay, k)
  {
  }

  lemma {:induction false} PausedClosedForm(initialDelay: nat, k: nat)
    ensures Pause(initialDelay, k) == initialDelay * Pow2(k)
    ensures Paused(initialDelay, k) == initialDelay * (Pow2(k) - 1)
  {
    if k > 0 {
      PausedClosedForm(initialDelay, k - 1);
    }
  }

  lemma {:induction false} PausedGrows(initialDelay: nat, a: nat, b: nat)
    requires a <= b
    ensures Paused(initialDelay, a) <= Paused(initialDelay, b)
  {
    if a < b {
      PausedGrows(initialDelay, a, b - 1);
    }
  }

  datatype Wait = Got(status: Status) | Cancelled | ReadFailed

  /** What GetOrderStatus makes of an answer about that order. On Starknet an order id that is not a
      number is an error. */
  function StatusFor(kind: Kind, order: string, reply: Reply): Option<Status> {
    if kind.Starknet? && OrderIdFelts(order).None? then None else StatusIn(kind, reply)
  }

  /** An answer counts the same for every order, but that Starknet refuses an id that is not a number. */
  lemma StatusForIs(kind: Kind, order: string, reply: Reply)
    ensures kind.Evm? ==> StatusFor(kind, order, reply) == StatusIn(Evm, reply)
    ensures kind.Starknet? && OrderIdFelts(order).Some? ==> StatusFor(kind, order, reply) == StatusIn(Starknet, reply)
    ensures kind.Starknet? && OrderIdFelts(order).None? ==> StatusFor(kind, order, reply) == None
  {
  }

  class Client {
    const kind: Kind
    const chain: nat
    const statusIn: (string, Reply) -> Option<Status>
    const reply: nat -> Reply
    const log: Log
    var now: nat                 // calls made so far
    var allowance: Allowances

    constructor (kind: Kind, chain: nat, reply: nat -> Reply, log: Log, allowance: Allowances)
      ensures this.kind == kind && this.chain == chain
      ensures this.reply == reply && this.log == log && now == 0 && this.allowance == allowance
      ensures forall order, k :: StatusAt(order, k) == StatusFor(kind, order, reply(k))
    {
      this.kind, this.chain, this.reply, this.log, now, this.allowance := kind, chain, reply, log, 0, allowance;
      statusIn := (order, answer) => StatusFor(kind, order, answer);
    }

    /** What the k-th call answers if it asks for the order's status. */
    function StatusAt(order: string, k: nat): Option<Status> {
      statusIn(order, reply(k))
    }

    /** Every call from from to to - 1 that could fail succeeds. */
    ghost predicate AllWell(from: nat, to: nat) {
      forall k :: from <= k < to ==> !reply(k).fails && reply(k).tx.Mined?
    }

    /** For each call from the given one on: whether an approval made with it takes effect. */
    function Took(from: nat): nat -> bool {
      (j: nat) => !reply(from + j).tx.Reverted?
    }

    lemma AllWellIff(from: nat, to: nat)
      ensures AllWell(from, to) <==>
                !exists k :: from <= k < to && (reply(k).fails || !reply(k).tx.Mined?)
    {
    }

    lemma TookIff(from: nat, j: nat)
      ensures !Took(from)(j) <==> reply(from + j).tx == Reverted
    {
    }

    /** GetOrderStatus, of the order at a settler. */
    method GetOrderStatus(order: string, settler: Account) returns (status: Option<Status>)
      modifies this`now, log
      ensures now == old(now) + 1 && status == StatusAt(order, old(now))
      ensures log.events == old(log.events) + [StatusRead(order, Site(chain, settler), status)]
    {
      status := StatusAt(order, now);
      now := now + 1;
      log.events := log.events + [StatusRead(order, Site(chain, settler), status)];
    }

    /** The events of reading the status with the calls from to to - 1. */
    function Reads(order: string, settler: Account, from: nat, to: nat): seq<Event> {
      if to <= from then []
      else Reads(order, settler, from, to - 1) + [StatusRead(order, Site(chain, settler), StatusAt(order, to - 1))]
    }

    lemma {:induction false} ReadsAre(order: string, settler: Account, from: nat, to: nat)
      requires from <= to
      ensures var es := Reads(order, settler, from, to);
              && |es| == to - from
              && forall k :: 0 <= k < |es| ==>
                  es[k] == StatusRead(order, Site(chain, settler), StatusAt(order, from + k))
      decreases (to)
    {
      if from < to {
        ReadsAre(order, settler, from, to - 1);
      }
    }

    lemma ReadsSnoc(events: seq<Event>, order: string, settler: Account, from: nat, to: nat)
      requires from <= to
      ensures events + Reads(order, settler, from, to + 1)
           == (events + Reads(order, settler, from, to))
              + [StatusRead(order, Site(chain, settler), StatusAt(order, to))]
    {
    }

    /** How many of the next n attempts pass before one gives the expected status or, with another
        attempt to come, finds the context done. */
    function Misses(order: string, expected: Status, from: nat, n: nat): (m: nat)
      ensures m <= n
      decreases n
    {
      if n == 0 || StatusAt(order, from) == Some(expected) || (n > 1 && reply(from).cancelled) then 0
      else 1 + Misses(order, expected, from + 1, n - 1)
    }

    lemma {:induction false} MissesMeans(order: string, expected: Status, from: nat, n: nat)
      ensures var m := Misses(order, expected, from, n);
              && (forall k :: from <= k < from + m ==> StatusAt(order, k) != Some(expected))
              && (forall k :: from <= k < from + m && k < from + n - 1 ==> !reply(k).cancelled)
              && (m < n ==> StatusAt(order, from + m) == Some(expected) || (m < n - 1 && reply(from + m).cancelled))
      decreases n
    {
      if n > 0 && Misses(order, expected, from, n) > 0 {
        MissesMeans(order, expected, from + 1, n - 1);
      }
    }

    /** What one attempt, the last or not, ends the loop with, if it does. */
    function AttemptResult(order: string, expected: Status, k: nat, isLast: bool): Option<Wait> {
      if StatusAt(order, k) == Some(expected) then Some(Got(expected))
      else if !isLast && reply(k).cancelled then Some(Cancelled)
      else None
    }

    /** The first m of n attempts from the given call on do not end the loop. */
    predicate Passed(order: string, expected: Status, from: nat, n: nat, m: nat) {
      m == 0 || (Passed(order, expected, from, n, m - 1) && AttemptResult(order, expected, from + m - 1, m == n).None?)
    }

    /** That many attempts are missed if the next one ends the loop, or there is none. */
    lemma {:induction false} MissesAre(order: string, expected: Status, from: nat, n: nat, m: nat)
      requires m <= n && Passed(order, expected, from, n, m)
      requires m == n || AttemptResult(order, expected, from + m, m == n - 1).Some?
      ensures Misses(order, expected, from, n) == m
      decreases n
    {
      if m > 0 {
        PassedTail(order, expected, from, n, m);
        MissesAre(order, expected, from + 1, n - 1, m - 1);
      }
    }

    lemma {:induction false} PassedTail(order: string, expected: Status, from: nat, n: nat, m: nat)
      requires 0 < m <= n && Passed(order, expected, from, n, m)
      ensures AttemptResult(order, expected, from, n == 1).None? && Passed(order, expected, from + 1, n - 1, m - 1)
      decreases m
    {
      if m > 1 {
        PassedTail(order, expected, from, n, m - 1);
      }
    }

    lemma WaitEnds(order: string, expected: Status, from: nat, n: nat, m: nat, r: Wait)
      requires m <= n && Passed(order, expected, from, n, m)
      requires m < n ==> AttemptResult(order, expected, from + m, m == n - 1) == Some(r)
      requires m == n ==> r == FinalResult(order, from + n)
      ensures Misses(order, expected, from, n) == m && WaitResult(order, expected, from, n) == r
    {
      MissesAre(order, expected, from, n, m);
    }

    /** What the read after the loop gives. */
    function FinalResult(order: string, k: nat): Wait {
      match StatusAt(order, k)
      case None => ReadFailed
      case Some(s) => Got(s)
    }

    /** What the wait gives if n attempts, of which m do not end it, start with the given call. */
    function WaitResult(order: string, expected: Status, from: nat, n: nat): Wait {
      var m := Misses(order, expected, from, n);
      if m < n && AttemptResult(order, expected, from + m, m == n - 1).Some? then
        AttemptResult(order, expected, from + m, m == n - 1).value
      else FinalResult(order, from + m)
    }

    /** How the wait ends, m attempts having failed: with the expected status, cancelled, or with what the read after
        the last attempt gives. */
    lemma WaitResultIs(order: string, expected: Status, from: nat, n: nat)
      ensures var m, r := Misses(order, expected, from, n), WaitResult(order, expected, from, n);
              && (m < n && StatusAt(order, from + m) == Some(expected) ==> r == Got(expected))
              && (m < n && StatusAt(order, from + m) != Some(expected) ==> r == Cancelled)
              && (m == n && StatusAt(order, from + n).None? ==> r == ReadFailed)
              && (m == n && StatusAt(order, from + n).Some? ==> r == Got(StatusAt(order, from + n).value))
    {
      MissesMeans(order, expected, from, n);
    }

    /** The status read of one attempt, and the select behind it. */
    method Attempt(order: string, settler: Account, expected: Status, isLast: bool) returns (r: Option<Wait>)
      modifies this`now, log
      ensures now == old(now) + 1 && r == AttemptResult(order, expected, old(now), isLast)
      ensures log.events == old(log.events) + [StatusRead(order, Site(chain, settler), StatusAt(order, old(now)))]
    {
      var status := GetOrderStatus(order, settler);
      if status == Some(expected) {
        return Some(Got(expected));
      }
      if !isLast {
        if reply(now - 1).cancelled {
          return Some(Cancelled);
        }
      }
      r := None;
    }

    /** The loop of waitForOrderStatus; m is the number of attempts that did not end it. */
    method Retry(order: string, settler: Account, expected: Status, maxRetries: int, initialDelay: nat)
      returns (ended: Option<Wait>, waited: nat, ghost m: nat)
      modifies this`now, log
      ensures log.events == old(log.events) + Reads(order, settler, old(now), now)
      ensures var n := if maxRetries > 0 then maxRetries else 0;
              && m <= n && Passed(order, expected, old(now), n, m)
              && waited == Paused(initialDelay, Pauses(m + 1, n))
              && (if m == n then ended.None? && now == old(now) + n
                  else
                    && now == old(now) + m + 1 && ended.Some?
                    && ended == AttemptResult(order, expected, old(now) + m, m == n - 1))
    {
      var delay := initialDelay;
      var attempt := 1;
      waited, m := 0, 0;
      ghost var n := if maxRetries > 0 then maxRetries else 0;
      while attempt <= maxRetries
        invariant attempt == m + 1 <= n + 1 && now == old(now) + m
        invariant Passed(order, expected, old(now), n, m)
        invariant delay == Pause(initialDelay, Pauses(attempt, n)) && waited == Paused(initialDelay, Pauses(attempt, n))
        invariant log.events == old(log.events) + Reads(order, settler, old(now), now)
      {
        ReadsSnoc(old(log.events), order, settler, old(now), now);
        ended := Attempt(order, settler, expected, attempt == maxRetries);
        if ended.Some? {
          return;
        }
        NextPause(initialDelay, attempt, n);
        if attempt < maxRetries {
          waited := waited + delay;
          delay := delay * 2;
        }
        attempt, m := attempt + 1, m + 1;
      }
      ended := None;
    }

    /** waitForOrderStatus: up to maxRetries reads with doubling pauses between them, then one more.
        The first read that gives the expected status ends it, and so does the end of the context. */
    method WaitForOrderStatus(order: string, settler: Account, expected: Status, maxRetries: int, initialDelay: nat)
      returns (r: Wait, waited: nat)
      modifies this`now, log
      ensures log.events == old(log.events) + Reads(order, settler, old(now), now)
      ensures var n := if maxRetries > 0 then maxRetries else 0;
              && now == old(now) + Misses(order, expected, old(now), n) + 1
              && waited == Paused(initialDelay, Pauses(now - old(now), n))
              && r == WaitResult(order, expected, old(now), n)
    {
      ghost var n := if maxRetries > 0 then maxRetries else 0;
      var ended: Option<Wait>;
      ghost var m;
      ended, waited, m := Retry(order, settler, expected, maxRetries, initialDelay);
      if ended.Some? {
        WaitEnds(order, expected, old(now), n, m, ended.value);
        return ended.value, waited;
      }
      ReadsSnoc(old(log.events), order, settler, old(now), now);
      var finalStatus := GetOrderStatus(order, settler);
      r := if finalStatus.None? then ReadFailed else Got(finalStatus.value);
      WaitEnds(order, expected, old(now), n, n, r);
    }

    /** With n attempts there are at most n + 1 reads and the pauses add up to at most
        initialDelay * (2^(n-1) - 1); and if the context lives on, the wait gives the expected status
        exactly if one of the n + 1 reads does. */
    lemma WaitIsBoundedAndFinds(order: string, expected: Status, from: nat, n: nat, initialDelay: nat)
      requires n > 0
      ensures var m := Misses(order, expected, from, n);
              && m + 1 <= n + 1
              && Paused(initialDelay, Pauses(m + 1, n)) <= initialDelay * (Pow2(n - 1) - 1)
              && ((forall k :: from <= k < from + n ==> !reply(k).cancelled) ==>
                    (StatusAt(order, from + m) == Some(expected)
                     <==> exists k :: from <= k <= from + n && StatusAt(order, k) == Some(expected)))
    {
      var m := Misses(order, expected, from, n);
      MissesMeans(order, expected, from, n);
      PausedGrows(initialDelay, Pauses(m + 1, n), n - 1);
      PausedClosedForm(initialDelay, n - 1);
    }

    /** Status reads are always allowed in a cleared call, and the last one counts. */
    lemma ReadsKeepCleared(events: seq<Event>, order: string, settler: Account, from: nat, to: nat)
      requires from < to && IsCleared(events, order)
      ensures Monitor(events + Reads(order, settler, from, to))
           == Some(Cleared(order, Read(Site(chain, settler), StatusAt(order, to - 1))))
    {
      ReadsAre(order, settler, from, to);
      ReadsKeepGates(events, Reads(order, settler, from, to), order, Site(chain, settler));
    }

    /** The call that ends a wait for FILLED begun with the given call. */
    function LastRead(order: string, from: nat): nat {
      from + Misses(order, FILLED, from, MAX_RETRY_ATTEMPTS)
    }

    /** The wait gives the expected status exactly if its last read did. */
    lemma GotIff(order: string, expected: Status, from: nat, n: nat)
      ensures WaitResult(order, expected, from, n) == Got(expected)
         <==> StatusAt(order, from + Misses(order, expected, from, n)) == Some(expected)
    {
    }

    /** How a settle begins in both handlers: the status wait and its two checks. */
    method AwaitFilled(order: string, settler: Account) returns (filled: bool)
      modifies this`now, log
      ensures now == LastRead(order, old(now)) + 1
      ensures filled <==> StatusAt(order, now - 1) == Some(FILLED)
      ensures EndsRightly(order, old(now), now - 1, MAX_RETRY_ATTEMPTS)
      ensures log.events == old(log.events) + Reads(order, settler, old(now), now)
      ensures old(IsCleared(log.events, order)) ==>
                Monitor(log.events) == Some(Cleared(order, Read(Site(chain, settler), StatusAt(order, now - 1))))
    {
      filled := AwaitFilledFor(order, settler, MAX_RETRY_ATTEMPTS);
      if old(IsCleared(log.events, order)) {
        ReadsKeepCleared(old(log.events), order, settler, old(now), now);
      }
    }

    /** The read is the first of FILLED, or the one before a cancellation, or follows all attempts. */
    ghost predicate EndsRightly(order: string, from: nat, last: nat, maxRetries: nat) {
      && from <= last <= from + maxRetries
      && (forall k :: from <= k < last ==> StatusAt(order, k) != Some(FILLED))
      && (forall k :: from <= k < last && k + 1 < from + maxRetries ==> !reply(k).cancelled)
      && (|| StatusAt(order, last) == Some(FILLED)
          || last == from + maxRetries
          || (last + 1 < from + maxRetries && reply(last).cancelled))
    }

    method AwaitFilledFor(order: string, settler: Account, maxRetries: nat) returns (filled: bool)
      modifies this`now, log
      ensures now == old(now) + Misses(order, FILLED, old(now), maxRetries) + 1
      ensures filled <==> StatusAt(order, now - 1) == Some(FILLED)
      ensures EndsRightly(order, old(now), now - 1, maxRetries)
      ensures log.events == old(log.events) + Reads(order, settler, old(now), now)
    {
      var status, waited := WaitForOrderStatus(order, settler, FILLED, maxRetries, 2);
      GotIff(order, FILLED, old(now), maxRetries);
      MissesMeans(order, FILLED, old(now), maxRetries);
      if !status.Got? {
        return false;
      }
      if status.status != FILLED {
        return false;
      }
      filled := true;
    }
  }

  const MAX_RETRY_ATTEMPTS: nat := 5
}
