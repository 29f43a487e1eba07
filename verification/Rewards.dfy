/** The progressive annual reward of a stake. Rates are whole percentages, so amounts are
    kept exactly, in hundredths of a token. */
module Rewards {
  import opened Arith

  const MIN_STAKE := 100

  // Tokens from minStake up to, not including, maxStake; maxStake 0 means no upper end.
  datatype Bracket = Bracket(minStake: nat, maxStake: nat, percent: nat)

  const BRACKET_COUNT := 5

  function BracketAt(i: nat): (b: Bracket)
    requires i < BRACKET_COUNT
  {
    match i
    case 0 => Bracket(1, 1_001, 15)
    case 1 => Bracket(1_001, 10_001, 8)
    case 2 => Bracket(10_001, 100_001, 4)
    case 3 => Bracket(100_001, 1_000_001, 2)
    case _ => Bracket(1_000_001, 0, 1)
  }

  // The percentage earned by the token that is added to a stake of k tokens.
  function RateOfToken(k: nat): (percent: nat) {
    if k < 1_001 then 15 else
    if k < 10_001 then 8 else
    if k < 100_001 then 4 else
    if k < 1_000_001 then 2 else 1
  }

  // What all tokens of a stake earn, each at its own rate.
  function Earned(stake: nat): (hundredths: nat) {
    if stake == 0 then 0 else Earned(stake - 1) + RateOfToken(stake - 1)
  }

  // The tokens of a stake that fall into a bracket of the given size above `from`.
  function Part(stake: nat, from: nat, size: nat): (n: nat) {
    if stake <= from then 0 else if stake - from <= size then stake - from else size
  }

  // 15% on the first 1,001 tokens, 8% on the next 9,000, 4% on the next 90,000, 2% on the next
  // 900,000 and 1% above.
  lemma {:induction false} ClosedForm(stake: nat)
    ensures Earned(stake)
         == 15 * Part(stake, 0, 1_001) + 8 * Part(stake, 1_001, 9_000) + 4 * Part(stake, 10_001, 90_000)
          + 2 * Part(stake, 100_001, 900_000) + Part(stake, 1_000_001, stake)
  {
    if stake > 0 {
      ClosedForm(stake - 1);
    }
  }

  // The annual reward in whole tokens.
  function Reward(stake: nat): (tokens: nat) {
    if stake < MIN_STAKE then 0 else Earned(stake) / 100
  }

  // The tokens below bracket i. The first bracket starts one below its nominal lower bound.
  function LowerEnd(i: nat): (n: nat)
    requires i < BRACKET_COUNT
  {
    if i == 0 then 0 else BracketAt(i).minStake
  }

  lemma BracketsAdjoin(i: nat)
    requires i < BRACKET_COUNT
    ensures BracketAt(i).maxStake == 0 <==> i == BRACKET_COUNT - 1
    ensures i < BRACKET_COUNT - 1 ==> LowerEnd(i) < BracketAt(i).maxStake == LowerEnd(i + 1)
  {
  }

  lemma RateInBracket(i: nat, k: nat)
    requires i < BRACKET_COUNT && LowerEnd(i) <= k
    requires BracketAt(i).maxStake != 0 ==> k < BracketAt(i).maxStake
    ensures RateOfToken(k) == BracketAt(i).percent
  {
  }

  lemma {:induction false} WithinBracket(i: nat, low: nat, n: nat)
    requires i < BRACKET_COUNT && LowerEnd(i) <= low
    requires BracketAt(i).maxStake != 0 ==> low + n <= BracketAt(i).maxStake
    ensures Earned(low + n) == Earned(low) + n * BracketAt(i).percent
  {
    if n > 0 {
      WithinBracket(i, low, n - 1);
      RateInBracket(i, low + n - 1);
      assert n * BracketAt(i).percent == (n - 1) * BracketAt(i).percent + BracketAt(i).percent;
    }
  }

  method CalculateReward(stake: nat) returns (reward: nat)
    ensures reward == Reward(stake)
  {
    if stake < MIN_STAKE {
      return 0;
    }
    var annual, remaining, lowerBound := 0, stake, 0;
    var i := 0;
    while i < BRACKET_COUNT
      invariant 0 <= i <= BRACKET_COUNT
      invariant 0 <= remaining <= stake
      invariant i < BRACKET_COUNT ==> lowerBound == LowerEnd(i)
      invariant remaining > 0 ==> i < BRACKET_COUNT && stake - remaining == lowerBound
      invariant annual == Earned(stake - remaining)
    {
      if remaining <= 0 {
        break;
      }
      BracketsAdjoin(i);
      var upperBound := BracketAt(i).maxStake;
      var tokens := remaining;
      if upperBound != 0 {
        var bracketSize := upperBound - lowerBound;
        if bracketSize < tokens {
          tokens := bracketSize;
        }
      }
      WithinBracket(i, lowerBound, tokens);
      annual := annual + tokens * BracketAt(i).percent;
      remaining := remaining - tokens;
      lowerBound := upperBound;
      i := i + 1;
    }
    reward := annual / 100;
  }

  lemma RewardMonotone(a: nat, b: nat)
    requires a <= b
    ensures Reward(a) <= Reward(b)
  {
    ClosedForm(a);
    ClosedForm(b);
  }

  // The average rate never rises with the stake: Earned(a) / a >= Earned(b) / b.
  lemma AverageRateFalls(a: nat, b: nat)
    requires a <= b
    ensures Earned(a) * b >= Earned(b) * a
  {
    var c, r := Tangent(a);
    BelowChord(a, b, c, r, Earned(b));
  }

  lemma BelowChord(a: int, b: int, c: int, r: int, fb: int)
    requires 0 <= a <= b && 0 <= c && fb <= c + r * b
    ensures (c + r * a) * b >= fb * a
  {
    MulMonotone(a, fb, c + r * b);
    MulMonotone(c, a, b);
    var ab := a * b;
    assert a * (c + r * b) == c * a + r * ab;
    assert (c + r * a) * b == c * b + r * ab;
  }

  // The reward curve lies below a line that touches it at a.
  lemma Tangent(a: nat) returns (c: nat, r: nat)
    ensures Earned(a) == c + r * a
    ensures forall s: nat :: Earned(s) <= c + r * s
  {
    r := RateOfToken(a);
    c := match r case 15 => 0 case 8 => 7_007 case 4 => 47_011 case 2 => 247_013 case _ => 1_247_014;
    ClosedForm(a);
    forall s: nat ensures Earned(s) <= c + r * s {
      ClosedForm(s);
    }
  }

  // Two eligible stakes gain at most one token a year by being merged: rounding.
  lemma MergingGainsNothing(a: nat, b: nat)
    requires MIN_STAKE <= a && MIN_STAKE <= b
    ensures Reward(a + b) <= Reward(a) + Reward(b) + 1
  {
    AverageRateFalls(a, a + b);
    AverageRateFalls(b, a + b);
    SumOfParts(a, b, Earned(a + b), Earned(a), Earned(b));
  }

  // No stake earns more than 15% of itself.
  lemma RewardBound(stake: nat)
    ensures 100 * Reward(stake) <= 15 * stake
    ensures Reward(stake) > 0 <==> 100 <= stake
  {
    ClosedForm(stake);
  }
}
