/** The profitability rule (rules.go), in the wrapping arithmetic of uint256. */
module Rules {
  import opened Integers

  /** uint256.FromBig keeps the low 256 bits, two's complement for negative numbers. */
  function FromBig(n: int): (u: uint256)
    ensures 0 <= n < TWO256 ==> u == n
  {
    n % 0x1_00000000_00000000_00000000_00000000_00000000_00000000_00000000_00000000
  }

  function Add(a: uint256, b: uint256): uint256 {
    FromBig(a + b)
  }

  function Sub(a: uint256, b: uint256): uint256 {
    FromBig(a - b)
  }

  /** Division by zero gives zero. */
  function Div(a: uint256, b: uint256): uint256 {
    if b == 0 then 0 else a / b
  }

  function Sum(amounts: seq<int>): int {
    if |amounts| == 0 then 0 else Sum(amounts[..|amounts| - 1]) + amounts[|amounts| - 1]
  }

  lemma {:induction false} SumOfNonNegative(amounts: seq<int>)
    requires forall i :: 0 <= i < |amounts| ==> amounts[i] >= 0
    ensures Sum(amounts) >= 0
  {
    if |amounts| > 0 {
      SumOfNonNegative(amounts[..|amounts| - 1]);
    }
  }

  /** Sum is the one function that adds up lists and gives a single amount back. */
  lemma {:induction false} SumConcat(a: seq<int>, b: seq<int>)
    ensures Sum(a + b) == Sum(a) + Sum(b)
  {
    if |b| == 0 {
      assert a + b == a;
    } else {
      SumConcat(a, b[..|b| - 1]);
      assert (a + b)[..|a + b| - 1] == a + b[..|b| - 1];
    }
  }

  lemma SumOfOne(amount: int)
    ensures Sum([amount]) == amount
  {
    assert [amount][..0] == [];
  }

  lemma AddWraps(total: int, amount: int)
    ensures Add(FromBig(total), FromBig(amount)) == FromBig(total + amount)
  {
  }

  /** One accumulation loop: the exact sum, reduced modulo 2^256. */
  method Total(amounts: seq<int>) returns (total: uint256)
    ensures total == FromBig(Sum(amounts))
  {
    total := 0;
    var i := 0;
    while i < |amounts|
      invariant 0 <= i <= |amounts|
      invariant total == FromBig(Sum(amounts[..i]))
    {
      var amountU256 := FromBig(amounts[i]);
      AddWraps(Sum(amounts[..i]), amounts[i]);
      assert amounts[..i + 1][..i] == amounts[..i];
      total := Add(total, amountU256);
      i := i + 1;
    }
    assert amounts[..i] == amounts;
  }

  datatype Verdict =
    | MissingData
    | NotProfitable(received: uint256, spent: uint256)
    | BelowThreshold
    | Passed(netProfit: uint256, grossProfit: uint256, marginPercent: uint256)

  /** ProfitabilityRule.Evaluate on the amounts of the two output lists. */
  method EvaluateProfitability(maxSpent: seq<int>, minReceived: seq<int>) returns (v: Verdict)
    ensures v.MissingData? <==> maxSpent == [] || minReceived == []
    ensures v.Passed? <==>
              maxSpent != [] && minReceived != [] && FromBig(Sum(minReceived)) > FromBig(Sum(maxSpent))
    ensures v.Passed? ==>
              v.netProfit == v.grossProfit == FromBig(Sum(minReceived)) - FromBig(Sum(maxSpent)) > 0
    ensures !v.BelowThreshold?
  {
    if |maxSpent| == 0 || |minReceived| == 0 {
      return MissingData;
    }
    var expectedFees: uint256 := 0;
    var minProfitThreshold: uint256 := 0;
    var totalMaxSpent := Total(maxSpent);
    var totalMinReceived := Total(minReceived);
    var totalCosts := Add(totalMaxSpent, expectedFees);
    if totalMinReceived <= totalCosts {
      return NotProfitable(totalMinReceived, totalMaxSpent);
    }
    var grossProfit := Sub(totalMinReceived, totalMaxSpent);
    var netProfit := Sub(totalMinReceived, totalCosts);
    if netProfit < minProfitThreshold {
      return BelowThreshold;
    }
    var profitMargin := Div(FromBig(grossProfit as int * 100), totalMaxSpent);
    v := Passed(netProfit, grossProfit, profitMargin);
  }

  /** What the rule decides. */
  predicate Passes(maxSpent: seq<int>, minReceived: seq<int>) {
    maxSpent != [] && minReceived != [] && FromBig(Sum(minReceived)) > FromBig(Sum(maxSpent))
  }

  predicate Profitable(maxSpent: seq<int>, minReceived: seq<int>) {
    maxSpent != [] && minReceived != [] && Sum(minReceived) > Sum(maxSpent)
  }

  /** How often a sum of amounts goes round 2^256. */
  function Wraps(amounts: seq<int>): int {
    Sum(amounts) / TWO256
  }

  /** The decision is the profit test of the true sums as long as both sums wrap equally often, in
      particular when neither reaches 2^256. If they wrap differently, the list that wraps more is
      the larger one, and the rule decides by the remainders alone. */
  lemma PassesIffProfitable(maxSpent: seq<int>, minReceived: seq<int>)
    ensures Wraps(maxSpent) == Wraps(minReceived) ==>
              (Passes(maxSpent, minReceived) <==> Profitable(maxSpent, minReceived))
    ensures 0 <= Sum(maxSpent) < TWO256 && 0 <= Sum(minReceived) < TWO256 ==> Wraps(maxSpent) == Wraps(minReceived)
    ensures Wraps(minReceived) > Wraps(maxSpent) ==> Sum(minReceived) > Sum(maxSpent)
    ensures Wraps(minReceived) < Wraps(maxSpent) ==> Sum(minReceived) < Sum(maxSpent)
  {
    assert Sum(maxSpent) == Wraps(maxSpent) * TWO256 + FromBig(Sum(maxSpent));
    assert Sum(minReceived) == Wraps(minReceived) * TWO256 + FromBig(Sum(minReceived));
  }

  /** Exactly when the decision is the profit test: the sums wrap equally often, or the remainders happen to
      compare as the numbers of wraps do. It errs in two ways: a losing order passes if what is spent wraps
      more often and leaves less, and a profitable one is refused if what is received wraps more often and
      does not leave more. */
  lemma DecidesRightIff(maxSpent: seq<int>, minReceived: seq<int>)
    requires maxSpent != [] && minReceived != []
    ensures var leavesMore := FromBig(Sum(minReceived)) > FromBig(Sum(maxSpent));
            && ((Passes(maxSpent, minReceived) <==> Profitable(maxSpent, minReceived)) <==>
                  Wraps(maxSpent) == Wraps(minReceived) || (leavesMore <==> Wraps(minReceived) > Wraps(maxSpent)))
            && (Passes(maxSpent, minReceived) && !Profitable(maxSpent, minReceived) <==>
                  Wraps(maxSpent) > Wraps(minReceived) && leavesMore)
            && (!Passes(maxSpent, minReceived) && Profitable(maxSpent, minReceived) <==>
                  Wraps(minReceived) > Wraps(maxSpent) && !leavesMore)
  {
    PassesIffProfitable(maxSpent, minReceived);
  }

  /** Two amounts of a fitting size can make a losing order pass. */
  lemma LosingOrderCanPass()
    ensures exists spent, received :: Passes(spent, received) && !Profitable(spent, received)
              && forall i :: 0 <= i < |spent| ==> 0 <= spent[i] < TWO256
  {
    var spent, received := [TWO256 - 1, 1], [1];
    assert spent[..1] == [TWO256 - 1] && spent[..1][..0] == [] && received[..0] == [];
    assert Sum(spent[..1]) == TWO256 - 1;
    assert Sum(spent) == TWO256 && Sum(received) == 1;
    assert Passes(spent, received) && !Profitable(spent, received);
  }
}
