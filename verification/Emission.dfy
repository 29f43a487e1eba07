/** Validator emission: a fractional accrual paid out in whole tokens, split by progressive
    reward, under a per-epoch cap. */
module Emission {
  import opened Arith
  import opened Bytes
  import opened Ledger
  import opened Rewards

  type Id = nat

  const TOTAL_SUPPLY := 100_000_000
  const SECONDS_PER_YEAR := 31_536_000.0

  // ---------- Policy ----------

  const DEFAULT_PCT := 7.0
  const MIN_PCT := 3.0
  const MAX_PCT := 9.0

  function Clamped(pct: real): (r: real)
    ensures MIN_PCT <= r <= MAX_PCT
  {
    if pct < MIN_PCT then MIN_PCT else if pct > MAX_PCT then MAX_PCT else pct
  }

  datatype Policy = Policy(inflationPct: real, blockTime: real, epochLength: nat) {
    // Governance keeps the rate between 3% and 9%; the constructor keeps the block time positive.
    predicate Valid() {
      MIN_PCT <= inflationPct <= MAX_PCT && 0.0 < blockTime
    }

    function AnnualEmission(): (n: nat)
      requires Valid()
      ensures 3_000_000 <= n <= 9_000_000
    {
      (TOTAL_SUPPLY as real * inflationPct / 100.0).Floor
    }

    function BlocksPerYear(): (n: real)
      requires Valid()
      ensures 0.0 < n
    {
      PositiveQuotient(SECONDS_PER_YEAR, blockTime);
      SECONDS_PER_YEAR / blockTime
    }

    function PerBlock(): (x: real)
      requires Valid()
      ensures 0.0 < x
    {
      PositiveQuotient(AnnualEmission() as real, BlocksPerYear());
      AnnualEmission() as real / BlocksPerYear()
    }

    function EpochCap(): (n: nat)
      requires Valid()
    {
      if epochLength == 0 then AnnualEmission() else
        PositiveQuotient(BlocksPerYear(), epochLength as real);
        var epochsPerYear := BlocksPerYear() / epochLength as real;
        PositiveQuotient(AnnualEmission() as real, epochsPerYear);
        (AnnualEmission() as real / epochsPerYear).Floor
    }
  }

  lemma PositiveQuotient(a: real, b: real)
    requires 0.0 < a && 0.0 < b
    ensures 0.0 < a / b
  {
    var q := a / b;
    assert q * b == a;
  }

  // The annual emission is the whole part of the rate in per cent of a hundred million tokens.
  lemma AnnualEmissionMeans(p: Policy)
    requires p.Valid()
    ensures p.AnnualEmission() as real <= 1_000_000.0 * p.inflationPct < p.AnnualEmission() as real + 1.0
  {
    assert TOTAL_SUPPLY as real * p.inflationPct / 100.0 == 1_000_000.0 * p.inflationPct;
  }

  // The blocks of a year, 31,536,000 seconds, accrue the annual emission between them.
  lemma PerBlockMeans(p: Policy)
    requires p.Valid()
    ensures p.PerBlock() * 31_536_000.0 == p.AnnualEmission() as real * p.blockTime
  {
    QuotientTimes(31_536_000.0, p.blockTime);
    QuotientTimes(p.AnnualEmission() as real, p.BlocksPerYear());
    var x, n := p.PerBlock(), p.BlocksPerYear();
    assert x * (n * p.blockTime) == (x * n) * p.blockTime;
  }

  // The cap of an epoch is the whole part of what its blocks accrue, or a year's emission if the epoch
  // has no length.
  lemma EpochCapMeans(p: Policy)
    requires p.Valid()
    ensures p.epochLength == 0 ==> p.EpochCap() == p.AnnualEmission()
    ensures p.epochLength > 0 ==>
              p.EpochCap() as real <= p.PerBlock() * p.epochLength as real < p.EpochCap() as real + 1.0
  {
    if p.epochLength > 0 {
      var annual, n, length := p.AnnualEmission() as real, p.BlocksPerYear(), p.epochLength as real;
      PositiveQuotient(n, length);
      QuotientTimes(n, length);
      QuotientTimes(annual, n / length);
      QuotientTimes(annual, n);
      SameProduct(annual / (n / length), annual / n, n / length, length);
    }
  }

  lemma QuotientTimes(a: real, b: real)
    requires b != 0.0
    ensures a / b * b == a
  {
  }

  lemma SameProduct(x: real, y: real, q: real, e: real)
    requires 0.0 < q && x * q == y * (q * e)
    ensures x == y * e
  {
    assert y * (q * e) == (y * e) * q;
    assert (x - y * e) * q == 0.0;
  }

  // ---------- State ----------

  datatype Record = Record(staked: u64, accumulated: nat)

  datatype Staking = Staking(records: map<Id, Record>, totalStaked: u64, accrued: real, epochMinted: nat)

  function Stakes(records: map<Id, Record>): (m: map<Id, int>) {
    map id | id in records :: records[id].staked
  }

  function Unclaimed(records: map<Id, Record>): (m: map<Id, int>) {
    map id | id in records :: records[id].accumulated
  }

  function Annuals(records: map<Id, Record>): (m: map<Id, int>) {
    map id | id in records :: Reward(records[id].staked)
  }

  function StakeOf(s: Staking, id: Id): (n: int) {
    if id in s.records then s.records[id].staked else 0
  }

  function UnclaimedOf(s: Staking, id: Id): (n: nat) {
    if id in s.records then s.records[id].accumulated else 0
  }

  // ---------- Distribution ----------

  // The whole tokens a block may hand out.
  function Available(s: Staking, perBlock: real, cap: nat): (n: nat)
    requires 0.0 <= s.accrued && 0.0 <= perBlock
  {
    var whole := (s.accrued + perBlock).Floor;
    if cap > 0 && s.epochMinted >= cap then 0 else
    if cap > 0 && s.epochMinted + whole > cap then cap - s.epochMinted else whole
  }

  predicate CapBinds(s: Staking, perBlock: real, cap: nat) {
    cap > 0 && s.epochMinted + (s.accrued + perBlock).Floor > cap
  }

  function Share(available: nat, annual: nat, total: nat): (n: nat)
    requires 0 < total
  {
    QuotientAtLeast(Wrap64(available * annual), total, 0);
    Wrap64(available * annual) / total
  }

  function Shares(annuals: map<Id, int>, available: nat, total: nat): (m: map<Id, int>)
    requires 0 < total && forall id :: id in annuals ==> 0 <= annuals[id]
  {
    map id | id in annuals :: Share(available, annuals[id], total)
  }

  ghost function TotalAnnual(records: map<Id, Record>): (n: u64) {
    Wrap64(Total(Annuals(records)))
  }

  function Credit(records: map<Id, Record>, shares: map<Id, int>): (r: map<Id, Record>)
    requires shares.Keys == records.Keys && forall id :: id in shares ==> 0 <= shares[id]
  {
    map id | id in records :: records[id].(accumulated := records[id].accumulated + shares[id])
  }

  ghost function Paid(s: Staking, perBlock: real, cap: nat): (m: map<Id, int>)
    requires 0.0 <= s.accrued && 0.0 <= perBlock && 0 < TotalAnnual(s.records)
  {
    Shares(Annuals(s.records), Available(s, perBlock, cap), TotalAnnual(s.records))
  }

  // Rounding down never hands out more than there is, even if the product wraps around.
  lemma SharesBound(m: map<Id, int>, available: nat, total: nat)
    requires 0 < total && forall id :: id in m ==> 0 <= m[id]
    ensures 0 <= Total(Shares(m, available, total))
    ensures AtMost(total, Total(Shares(m, available, total)), available, Total(m))
  {
    var shares := Shares(m, available, total);
    forall id | id in shares ensures AtMost(total, shares[id], available, m[id]) {
      Quotient(Wrap64(available * m[id]), total);
      WrapBelow(available, m[id]);
    }
    TotalNonNegative(shares);
    TotalAtMost(total, shares, available, m);
  }

  lemma WrapBelow(a: nat, b: nat)
    ensures Wrap64(a * b) <= a * b
    ensures a * b < TWO_64 ==> Wrap64(a * b) == a * b
  {
    assert 0 <= a * b;
    Quotient(a * b, TWO_64);
    QuotientAtLeast(a * b, TWO_64, 0);
  }

  // One for every validator with a nonzero annual reward.
  function Earners(m: map<Id, int>): (r: map<Id, int>) {
    map id | id in m :: if m[id] > 0 then 1 else 0
  }

  // What m units of demand are due of the available tokens exceeds the s tokens they get
  // by less than one token for each of e earners.
  ghost predicate Covered(available: int, total: int, m: int, s: int, e: int) {
    available * m + e <= total * (s + e)
  }

  lemma {:induction false} TotalCovered(available: int, total: int, m: map<Id, int>, s: map<Id, int>, e: map<Id, int>)
    requires m.Keys == s.Keys == e.Keys
    requires forall id :: id in m ==> Covered(available, total, m[id], s[id], e[id])
    ensures Covered(available, total, Total(m), Total(s), Total(e))
    decreases |m|
  {
    if m == map[] {
      assert s == map[] && e == map[];
    } else {
      var id :| id in m;
      TotalCovered(available, total, m - {id}, s - {id}, e - {id});
      TotalWithout(m, id);
      TotalWithout(s, id);
      TotalWithout(e, id);
      AddCovers(available, total, m[id], s[id], e[id], Total(m - {id}), Total(s - {id}), Total(e - {id}));
    }
  }

  lemma AddCovers(available: int, total: int, m: int, s: int, e: int, m': int, s': int, e': int)
    requires Covered(available, total, m, s, e) && Covered(available, total, m', s', e')
    ensures Covered(available, total, m + m', s + s', e + e')
  {
    Distribute(total, s + e, s' + e');
    Distribute(available, m, m');
  }

  lemma ShareCovers(available: nat, annual: nat, total: nat)
    requires 0 < total && available * annual < TWO_64
    ensures Covered(available, total, annual, Share(available, annual, total), if annual > 0 then 1 else 0)
  {
    WrapBelow(available, annual);
    Quotient(available * annual, total);
    Distribute(total, Share(available, annual, total), 1);
    if annual == 0 {
      QuotientAtLeast(0, total, 1);
    }
  }

  // Rounding down withholds less than one token per earner, if no product wraps around.
  lemma SharesCover(m: map<Id, int>, available: nat, total: nat)
    requires 0 < total && forall id :: id in m ==> 0 <= m[id] && available * m[id] < TWO_64
    ensures Covered(available, total, Total(m), Total(Shares(m, available, total)), Total(Earners(m)))
  {
    forall id | id in m
      ensures Covered(available, total, m[id], Shares(m, available, total)[id], Earners(m)[id])
    {
      ShareCovers(available, m[id], total);
    }
    TotalCovered(available, total, m, Shares(m, available, total), Earners(m));
  }

  lemma TotalsBound(records: map<Id, Record>)
    ensures 0 <= Total(Annuals(records)) && 0 <= Total(Earners(Annuals(records)))
    ensures 100 * Total(Annuals(records)) <= 15 * Total(Stakes(records))
    ensures 100 * Total(Earners(Annuals(records))) <= Total(Stakes(records))
    ensures Total(Earners(Annuals(records))) <= Total(Annuals(records))
    ensures forall id :: id in records ==> 0 <= 100 * Annuals(records)[id] <= 15 * Total(Stakes(records))
  {
    var annuals, stakes := Annuals(records), Stakes(records);
    forall id | id in records
      ensures AtMost(100, annuals[id], 15, stakes[id]) && AtMost(100, Earners(annuals)[id], 1, stakes[id])
    {
      RewardBound(records[id].staked);
    }
    TotalNonNegative(annuals);
    TotalNonNegative(Earners(annuals));
    TotalNonNegative(stakes);
    TotalAtMost(100, annuals, 15, stakes);
    TotalAtMost(100, Earners(annuals), 1, stakes);
    TotalAtMost(1, Earners(annuals), 1, annuals);
  }

  lemma NoMoreThanAvailable(records: map<Id, Record>, available: nat)
    requires Total(Stakes(records)) < TWO_64 && 0 < TotalAnnual(records)
    ensures 0 <= Total(Shares(Annuals(records), available, TotalAnnual(records))) <= available
  {
    TotalsBound(records);
    var m, total := Annuals(records), TotalAnnual(records);
    assert total == Total(m);
    SharesBound(m, available, total);
    AtMostMeans(total, Total(Shares(m, available, total)), available);
  }

  lemma AtMostMeans(total: nat, paid: int, available: int)
    requires 0 < total && AtMost(total, paid, available, total)
    ensures paid <= available
  {
    Cancel(total, paid, available);
  }

  // All but less than one token per earner is handed out, if no product wraps around.
  lemma NearlyAllAvailable(records: map<Id, Record>, available: nat)
    requires Total(Stakes(records)) < TWO_64 && 0 < TotalAnnual(records)
    requires forall id :: id in records ==> available * Annuals(records)[id] < TWO_64
    ensures available
          < Total(Shares(Annuals(records), available, TotalAnnual(records))) + Total(Earners(Annuals(records)))
  {
    TotalsBound(records);
    var m, total := Annuals(records), TotalAnnual(records);
    assert total == Total(m);
    SharesCover(m, available, total);
    PositiveTotalHasEarner(m);
    CoveredMeans(available, total, Total(Shares(m, available, total)), Total(Earners(m)));
  }

  lemma CoveredMeans(available: nat, total: nat, paid: int, earners: int)
    requires 0 < earners && Covered(available, total, total, paid, earners)
    ensures available < paid + earners
  {
    if paid + earners <= available {
      MulMonotone(total, paid + earners, available);
    }
  }

  lemma {:induction false} PositiveTotalHasEarner(m: map<Id, int>)
    requires 0 < Total(m)
    ensures 0 < Total(Earners(m))
    decreases |m|
  {
    var id :| id in m;
    TotalWithout(m, id);
    TotalWithout(Earners(m), id);
    assert Earners(m) - {id} == Earners(m - {id});
    TotalNonNegative(Earners(m - {id}));
    if m[id] <= 0 {
      PositiveTotalHasEarner(m - {id});
    }
  }

  // A block pays whole tokens that have accrued, and no payment lifts the epoch above its cap.
  lemma PaymentWithinBounds(s: Staking, perBlock: real, cap: nat)
    requires 0.0 <= s.accrued && 0.0 <= perBlock && Total(Stakes(s.records)) < TWO_64
    requires 0 < TotalAnnual(s.records)
    ensures 0 <= Total(Paid(s, perBlock, cap)) <= Available(s, perBlock, cap) <= (s.accrued + perBlock).Floor
    ensures cap > 0 && Total(Paid(s, perBlock, cap)) > 0 ==> s.epochMinted + Total(Paid(s, perBlock, cap)) <= cap
  {
    NoMoreThanAvailable(s.records, Available(s, perBlock, cap));
  }

  ghost predicate StakesFit(s: Staking) {
    Total(Stakes(s.records)) < TWO_64
  }

  // The state after one block. Nothing accrues while no validator earns.
  ghost function Distributed(s: Staking, perBlock: real, cap: nat): (r: Staking)
    requires 0.0 <= s.accrued && 0.0 <= perBlock && StakesFit(s)
    ensures 0.0 <= r.accrued
  {
    if TotalAnnual(s.records) == 0 then s else
      PaymentWithinBounds(s, perBlock, cap);
      var shares := Paid(s, perBlock, cap);
      Staking(Credit(s.records, shares), s.totalStaked,
              s.accrued + perBlock - Total(shares) as real, s.epochMinted + Total(shares))
  }

  // No product of the tokens available to a block and an annual reward wraps around.
  ghost predicate ProductsFit(s: Staking, perBlock: real, cap: nat)
    requires 0.0 <= s.accrued && 0.0 <= perBlock
  {
    forall id :: id in s.records ==> Available(s, perBlock, cap) * Annuals(s.records)[id] < TWO_64
  }

  // When the cap does not bind, what is carried over is less than one token per earner and one more.
  lemma CarryBound(s: Staking, perBlock: real, cap: nat)
    requires 0.0 <= s.accrued && 0.0 <= perBlock && StakesFit(s)
    requires !CapBinds(s, perBlock, cap) && 0 < TotalAnnual(s.records) && ProductsFit(s, perBlock, cap)
    ensures Distributed(s, perBlock, cap).accrued < Total(Earners(Annuals(s.records))) as real + 1.0
  {
    NearlyAllAvailable(s.records, Available(s, perBlock, cap));
    assert Available(s, perBlock, cap) == (s.accrued + perBlock).Floor;
  }

  // ---------- Runs ----------

  datatype Event =
    | Register(id: Id, amount: u64)
    | Remove(id: Id)
    | Claim(id: Id)
    | Block(policy: Policy)
    | Rollover

  type State = s: Staking | 0.0 <= s.accrued witness Staking(map[], 0, 0.0, 0)

  function Restaked(s: State, id: Id, amount: u64): (r: State) {
    s.(records := s.records[id := Record(amount, UnclaimedOf(s, id))],
       totalStaked := Wrap64(s.totalStaked + (amount - StakeOf(s, id))))
  }

  ghost function After(s: State, e: Event): (r: State)
    requires e.Block? ==> e.policy.Valid() && StakesFit(s)
  {
    match e
    case Register(id, amount) => Restaked(s, id, amount)
    case Remove(id) =>
      s.(records := s.records - {id}, totalStaked := Wrap64(s.totalStaked + -StakeOf(s, id)))
    case Claim(id) =>
      if id in s.records then s.(records := s.records[id := s.records[id].(accumulated := 0)]) else s
    case Block(p) => Distributed(s, p.PerBlock(), p.EpochCap())
    case Rollover => s.(epochMinted := 0)
  }

  // What has been accrued, minted, minted since the last rollover, claimed, and lost with removed
  // records so far.
  datatype Books = Books(accruedEver: real, minted: int, sinceRollover: int, claimed: int, forfeited: int)

  ghost function BooksAfter(s: State, h: Books, e: Event): (r: Books)
    requires e.Block? ==> e.policy.Valid() && StakesFit(s)
  {
    match e
    case Register(_, _) => h
    case Remove(id) => h.(forfeited := h.forfeited + UnclaimedOf(s, id))
    case Claim(id) => h.(claimed := h.claimed + UnclaimedOf(s, id))
    case Block(p) =>
      if TotalAnnual(s.records) == 0 then h else
        h.(accruedEver := h.accruedEver + p.PerBlock(),
           minted := h.minted + Total(Paid(s, p.PerBlock(), p.EpochCap())),
           sinceRollover := h.sinceRollover + Total(Paid(s, p.PerBlock(), p.EpochCap())))
    case Rollover => h.(sinceRollover := 0)
  }

  // Every run in which the policy stays in bounds and the summed stakes stay below 2^64.
  ghost predicate Admissible(s: State, es: seq<Event>)
    decreases |es|
  {
    StakesFit(s) && (es == [] || ((es[0].Block? ==> es[0].policy.Valid()) && Admissible(After(s, es[0]), es[1..])))
  }

  ghost function Final(s: State, es: seq<Event>): (r: State)
    requires Admissible(s, es)
    decreases |es|
  {
    if es == [] then s else Final(After(s, es[0]), es[1..])
  }

  ghost function FinalBooks(s: State, h: Books, es: seq<Event>): (r: Books)
    requires Admissible(s, es)
    decreases |es|
  {
    if es == [] then h else FinalBooks(After(s, es[0]), BooksAfter(s, h, es[0]), es[1..])
  }

  // Nothing is created or lost: what accrued is carried or minted; what was minted is unclaimed,
  // claimed or forfeited; what was minted since the last rollover counts against the epoch; and the
  // running stake counter is the sum of stakes.
  ghost predicate Balanced(s: State, h: Books) {
    && s.accrued + h.minted as real == h.accruedEver
    && Total(Unclaimed(s.records)) + h.claimed + h.forfeited == h.minted
    && s.epochMinted == h.sinceRollover
    && s.totalStaked == Wrap64(Total(Stakes(s.records)))
  }

  lemma RestakeBalances(s: State, h: Books, id: Id, amount: u64)
    requires Balanced(s, h)
    ensures Balanced(Restaked(s, id, amount), h)
  {
    var r := Restaked(s, id, amount);
    WrapThenAdd(Total(Stakes(s.records)), amount - StakeOf(s, id));
    TotalUpdate(Stakes(s.records), id, amount);
    TotalUpdate(Unclaimed(s.records), id, UnclaimedOf(s, id));
    assert Stakes(r.records) == Stakes(s.records)[id := amount];
    assert Unclaimed(r.records) == Unclaimed(s.records)[id := UnclaimedOf(s, id)];
  }

  lemma RemoveBalances(s: State, h: Books, id: Id)
    requires Balanced(s, h)
    ensures Balanced(After(s, Remove(id)), BooksAfter(s, h, Remove(id)))
  {
    var r := After(s, Remove(id));
    WrapThenAdd(Total(Stakes(s.records)), -StakeOf(s, id));
    assert Stakes(r.records) == Stakes(s.records) - {id};
    assert Unclaimed(r.records) == Unclaimed(s.records) - {id};
    if id in s.records {
      TotalWithout(Stakes(s.records), id);
      TotalWithout(Unclaimed(s.records), id);
    } else {
      assert s.records - {id} == s.records;
    }
  }

  lemma ClaimBalances(s: State, h: Books, id: Id)
    requires Balanced(s, h)
    ensures Balanced(After(s, Claim(id)), BooksAfter(s, h, Claim(id)))
  {
    if id in s.records {
      var r := After(s, Claim(id));
      TotalUpdate(Unclaimed(s.records), id, 0);
      assert Unclaimed(r.records) == Unclaimed(s.records)[id := 0];
      assert Stakes(r.records) == Stakes(s.records);
    }
  }

  lemma BlockBalances(s: State, h: Books, p: Policy)
    requires Balanced(s, h) && p.Valid() && StakesFit(s)
    ensures Balanced(After(s, Block(p)), BooksAfter(s, h, Block(p)))
  {
    if TotalAnnual(s.records) != 0 {
      var r := After(s, Block(p));
      TotalPlus(Unclaimed(s.records), Paid(s, p.PerBlock(), p.EpochCap()), Unclaimed(r.records));
      assert Stakes(r.records) == Stakes(s.records);
    }
  }

  // Conservation over every run of registrations, removals, claims, blocks and epoch rollovers.
  lemma {:induction false} RunConserves(s: State, h: Books, es: seq<Event>)
    requires Admissible(s, es) && Balanced(s, h)
    ensures Balanced(Final(s, es), FinalBooks(s, h, es))
    decreases |es|
  {
    if es != [] {
      var e := es[0];
      match e {
        case Register(id, amount) => RestakeBalances(s, h, id, amount);
        case Remove(id) => RemoveBalances(s, h, id);
        case Claim(id) => ClaimBalances(s, h, id);
        case Block(p) => BlockBalances(s, h, p);
        case Rollover =>
      }
      RunConserves(After(s, e), BooksAfter(s, h, e), es[1..]);
    }
  }

  // ---------- What each validator has ----------

  // The stake a run leaves a validator with: the last one registered, or none after a removal.
  function LastStake(stake: int, es: seq<Event>, id: Id): (n: int)
    decreases |es|
  {
    if es == [] then stake else
      LastStake(match es[0]
                case Register(i, amount) => if i == id then amount else stake
                case Remove(i) => if i == id then 0 else stake
                case _ => stake, es[1..], id)
  }

  // What a call adds to the unclaimed reward of a validator.
  ghost function UnclaimedMove(s: State, e: Event, id: Id): (n: int)
    requires e.Block? ==> e.policy.Valid() && StakesFit(s)
  {
    match e
    case Block(p) =>
      if TotalAnnual(s.records) != 0 && id in s.records then Paid(s, p.PerBlock(), p.EpochCap())[id] else 0
    case Claim(i) => if i == id then -(UnclaimedOf(s, id) as int) else 0
    case Remove(i) => if i == id then -(UnclaimedOf(s, id) as int) else 0
    case _ => 0
  }

  ghost function UnclaimedMoves(s: State, es: seq<Event>, id: Id): (n: int)
    requires Admissible(s, es)
    decreases |es|
  {
    if es == [] then 0 else UnclaimedMove(s, es[0], id) + UnclaimedMoves(After(s, es[0]), es[1..], id)
  }

  lemma StepAccount(s: State, e: Event, id: Id)
    requires e.Block? ==> e.policy.Valid() && StakesFit(s)
    ensures StakeOf(After(s, e), id) == LastStake(StakeOf(s, id), [e], id)
    ensures UnclaimedOf(After(s, e), id) == UnclaimedOf(s, id) + UnclaimedMove(s, e, id)
  {
    assert LastStake(StakeOf(After(s, e), id), [], id) == StakeOf(After(s, e), id);
  }

  // Over every run a validator's stake is the last one it registered, and its unclaimed reward has moved
  // by its own shares, claims and removals alone.
  lemma {:induction false} RunAccount(s: State, es: seq<Event>, id: Id)
    requires Admissible(s, es)
    ensures StakeOf(Final(s, es), id) == LastStake(StakeOf(s, id), es, id)
    ensures UnclaimedOf(Final(s, es), id) == UnclaimedOf(s, id) + UnclaimedMoves(s, es, id)
    decreases |es|
  {
    if es != [] {
      StepAccount(s, es[0], id);
      RunAccount(After(s, es[0]), es[1..], id);
    }
  }

  lemma PaidIsShare(s: State, p: Policy, id: Id)
    requires p.Valid() && id in s.records && TotalAnnual(s.records) != 0
    ensures Paid(s, p.PerBlock(), p.EpochCap())[id]
         == Share(Available(s, p.PerBlock(), p.EpochCap()), Reward(s.records[id].staked), TotalAnnual(s.records))
  {
  }

  // The whole part of due / total.
  ghost predicate WholePart(total: int, got: int, due: int) {
    total * got <= due < total * (got + 1)
  }

  // A share is the validator's part of the tokens available, by its annual reward, rounded down.
  lemma FairShare(s: State, p: Policy, id: Id)
    requires p.Valid() && StakesFit(s) && id in s.records && TotalAnnual(s.records) != 0
    requires ProductsFit(s, p.PerBlock(), p.EpochCap())
    ensures var got := UnclaimedOf(After(s, Block(p)), id) - UnclaimedOf(s, id);
            var total := Total(Annuals(s.records));
            var due := Available(s, p.PerBlock(), p.EpochCap()) * Reward(s.records[id].staked);
            WholePart(total, got, due)
  {
    TotalsBound(s.records);
    var available, total := Available(s, p.PerBlock(), p.EpochCap()), TotalAnnual(s.records);
    assert total == Total(Annuals(s.records));
    StepAccount(s, Block(p), id);
    PaidIsShare(s, p, id);
    assert available * Annuals(s.records)[id] < TWO_64;
    ShareMeans(available, Reward(s.records[id].staked), total);
  }

  lemma ShareMeans(available: nat, annual: nat, total: nat)
    requires 0 < total && available * annual < TWO_64
    ensures WholePart(total, Share(available, annual, total), available * annual)
  {
    WrapBelow(available, annual);
    Quotient(available * annual, total);
    Distribute(total, Share(available, annual, total), 1);
  }

  // ---------- The cap over a run ----------

  ghost function PaidBy(s: State, e: Event): (n: int)
    requires e.Block? ==> e.policy.Valid() && StakesFit(s)
  {
    if e.Block? && TotalAnnual(s.records) != 0
    then Total(Paid(s, e.policy.PerBlock(), e.policy.EpochCap())) else 0
  }

  // What the blocks of a run pay in all.
  ghost function PaidIn(s: State, es: seq<Event>): (n: int)
    requires Admissible(s, es)
    decreases |es|
  {
    if es == [] then 0 else PaidBy(s, es[0]) + PaidIn(After(s, es[0]), es[1..])
  }

  function Rollovers(es: seq<Event>): (n: nat) {
    if es == [] then 0 else (if es[0].Rollover? then 1 else 0) + Rollovers(es[1..])
  }

  ghost predicate CappedAt(p: Policy, most: nat) {
    p.Valid() && 0 < p.EpochCap() <= most
  }

  lemma StepWithinCap(s: State, e: Event, most: nat)
    requires s.epochMinted <= most && (e.Block? ==> CappedAt(e.policy, most) && StakesFit(s))
    ensures After(s, e).epochMinted == if e.Rollover? then 0 else s.epochMinted + PaidBy(s, e)
    ensures s.epochMinted + PaidBy(s, e) <= most
  {
    if PaidBy(s, e) != 0 {
      PaymentWithinBounds(s, e.policy.PerBlock(), e.policy.EpochCap());
    }
  }

  // While every block has a positive cap, a run pays no more than the largest of them in each epoch,
  // counting what the first epoch had paid before. An epoch whose cap rounds down to zero has none.
  lemma {:induction false} RunWithinCaps(s: State, es: seq<Event>, most: nat)
    requires Admissible(s, es) && s.epochMinted <= most
    requires forall e :: e in es && e.Block? ==> CappedAt(e.policy, most)
    ensures s.epochMinted + PaidIn(s, es) <= most * (1 + Rollovers(es))
    decreases |es|
  {
    if es != [] {
      var e := es[0];
      assert e in es;
      StepWithinCap(s, e, most);
      RunWithinCaps(After(s, e), es[1..], most);
      Distribute(most, 1, 1 + Rollovers(es[1..]));
    }
  }

  // Between two rollovers no run pays more than the largest cap of its blocks.
  lemma EpochWithinCap(s: State, es: seq<Event>, most: nat)
    requires Admissible(After(s, Rollover), es) && forall e :: e in es ==> !e.Rollover?
    requires forall e :: e in es && e.Block? ==> e.policy.Valid() && 0 < e.policy.EpochCap() <= most
    ensures PaidIn(After(s, Rollover), es) <= most
  {
    NoRollovers(es);
    RunWithinCaps(After(s, Rollover), es, most);
  }

  lemma {:induction false} NoRollovers(es: seq<Event>)
    requires forall e :: e in es ==> !e.Rollover?
    ensures Rollovers(es) == 0
  {
    if es != [] {
      assert es[0] in es;
      NoRollovers(es[1..]);
    }
  }

  // A block that meets the cap uses it up to less than one token per earner, if no product wraps around.
  lemma CapNearlyReached(s: State, p: Policy)
    requires p.Valid() && StakesFit(s) && TotalAnnual(s.records) != 0
    requires CapBinds(s, p.PerBlock(), p.EpochCap()) && s.epochMinted < p.EpochCap()
    requires ProductsFit(s, p.PerBlock(), p.EpochCap())
    ensures p.EpochCap() < After(s, Block(p)).epochMinted + Total(Earners(Annuals(s.records)))
  {
    NearlyAllAvailable(s.records, Available(s, p.PerBlock(), p.EpochCap()));
  }

  // ---------- No product overflows ----------

  // What a single validator earns with the whole supply at stake.
  const TOP_REWARD := 1_012_470

  lemma TopReward()
    ensures Reward(TOTAL_SUPPLY) == TOP_REWARD
  {
    ClosedForm(TOTAL_SUPPLY);
  }

  ghost predicate WithinSupply(s: Staking) {
    Total(Stakes(s.records)) <= TOTAL_SUPPLY
  }

  lemma AnnualAtMost(records: map<Id, Record>, id: Id)
    requires Total(Stakes(records)) <= TOTAL_SUPPLY && id in records
    ensures 0 <= Annuals(records)[id] <= TOP_REWARD
  {
    TotalNonNegative(Stakes(records));
    assert Stakes(records)[id] <= TOTAL_SUPPLY;
    RewardMonotone(records[id].staked, TOTAL_SUPPLY);
    TopReward();
  }

  lemma AvailableFits(s: Staking, perBlock: real, cap: nat, most: nat)
    requires 0.0 <= s.accrued && 0.0 <= perBlock && WithinSupply(s)
    requires Available(s, perBlock, cap) <= most && most * TOP_REWARD < TWO_64
    ensures ProductsFit(s, perBlock, cap)
  {
    var available := Available(s, perBlock, cap);
    forall id | id in s.records ensures available * Annuals(s.records)[id] < TWO_64 {
      AnnualAtMost(s.records, id);
      MulMonotone(available, Annuals(s.records)[id], TOP_REWARD);
    }
  }

  // Whatever the stakes within the supply, and whatever has accrued, the products of a block fit.
  ghost predicate CapIsSafe(cap: nat) {
    forall s: State, perBlock: real :: 0.0 <= perBlock && WithinSupply(s) ==> ProductsFit(s, perBlock, cap)
  }

  // The safe caps are exactly those whose product with the top reward fits 64 bits.
  lemma SafeCaps(cap: nat)
    requires 0 < cap
    ensures CapIsSafe(cap) <==> cap * TOP_REWARD < TWO_64
  {
    if cap * TOP_REWARD < TWO_64 {
      forall s: State, perBlock: real | 0.0 <= perBlock && WithinSupply(s) ensures ProductsFit(s, perBlock, cap) {
        AvailableFits(s, perBlock, cap, cap);
      }
    } else {
      var all := map[0 := Record(TOTAL_SUPPLY, 0)];
      var s: State := Staking(all, TOTAL_SUPPLY, cap as real, 0);
      assert Stakes(all) == map[][0 := TOTAL_SUPPLY];
      TotalUpdate(map[], 0, TOTAL_SUPPLY);
      TopReward();
      assert Annuals(all)[0] == TOP_REWARD && Available(s, 0.0, cap) == cap;
      assert Total(Stakes(s.records)) == TOTAL_SUPPLY;
      assert WithinSupply(s) && 0 in s.records && !ProductsFit(s, 0.0, cap);
    }
  }

  // Stakes stay within the token supply.
  ghost predicate AllWithinSupply(s: State, es: seq<Event>)
    requires Admissible(s, es)
    decreases |es|
  {
    WithinSupply(s) && (es == [] || AllWithinSupply(After(s, es[0]), es[1..]))
  }

  ghost predicate AllProductsFit(s: State, es: seq<Event>)
    requires Admissible(s, es)
    decreases |es|
  {
    es == [] ||
    ((es[0].Block? ==> ProductsFit(s, es[0].policy.PerBlock(), es[0].policy.EpochCap()))
     && AllProductsFit(After(s, es[0]), es[1..]))
  }

  // A safe cap is in force, and governance may change it from block to block.
  predicate Capped(p: Policy) {
    p.Valid() && 0 < p.EpochCap() && p.EpochCap() * TOP_REWARD < TWO_64
  }

  // However the policy changes from block to block, no product of available tokens and an annual
  // reward wraps around while a safe cap is in force.
  lemma {:induction false} ProductsNeverOverflow(s: State, es: seq<Event>)
    requires Admissible(s, es) && AllWithinSupply(s, es)
    requires forall e :: e in es && e.Block? ==> Capped(e.policy)
    ensures AllProductsFit(s, es)
    decreases |es|
  {
    if es != [] {
      assert es[0] in es;
      if es[0].Block? {
        var p := es[0].policy;
        AvailableFits(s, p.PerBlock(), p.EpochCap(), p.EpochCap());
      }
      ProductsNeverOverflow(After(s, es[0]), es[1..]);
    }
  }

  // The cap of an epoch that emits less than one token rounds down to zero, which stands for no cap.
  predicate Uncapped(p: Policy) {
    p.Valid() && p.EpochCap() == 0
  }

  // The carry of an uncapped run: one token for each earner that the supply has room for, and one.
  const CARRY_LIMIT := 1_000_001.0

  lemma UncappedEmission(p: Policy)
    requires Uncapped(p)
    ensures p.PerBlock() < 1.0
  {
    PositiveQuotient(p.BlocksPerYear(), p.epochLength as real);
    LessThanOne(p.AnnualEmission() as real, p.BlocksPerYear(), p.epochLength as real);
  }

  // What is less than one for a whole epoch is less than one for a block of it.
  lemma LessThanOne(x: real, n: real, e: real)
    requires 0.0 < x && 0.0 < n && 1.0 <= e && 0.0 < n / e && x / (n / e) < 1.0
    ensures x / n < 1.0
  {
    var q := n / e;
    assert q * e == n;
    assert q * (e - 1.0) >= 0.0;
    Compared(x, q);
    Compared(x, n);
  }

  lemma Compared(x: real, y: real)
    requires 0.0 < x && 0.0 < y
    ensures x / y < 1.0 <==> x < y
  {
    var q := x / y;
    assert q * y == x;
    Scaled(q, x, y);
    assert q < 1.0 <==> x < y;
  }

  lemma Scaled(q: real, x: real, y: real)
    requires 0.0 < y && q * y == x
    ensures q < 1.0 <==> x < y
  {
    if q < 1.0 {
      assert (1.0 - q) * y > 0.0;
    } else {
      assert (q - 1.0) * y >= 0.0;
    }
  }

  lemma UncappedStep(s: State, p: Policy)
    requires Uncapped(p) && StakesFit(s) && WithinSupply(s) && s.accrued < CARRY_LIMIT
    ensures ProductsFit(s, p.PerBlock(), 0) && After(s, Block(p)).accrued < CARRY_LIMIT
  {
    UncappedEmission(p);
    AvailableFits(s, p.PerBlock(), 0, 1_000_002);
    TotalsBound(s.records);
    if TotalAnnual(s.records) != 0 {
      CarryBound(s, p.PerBlock(), 0);
    }
  }

  // Without a cap the carry stays small, and so do the products.
  lemma {:induction false} UncappedNeverOverflow(s: State, es: seq<Event>)
    requires Admissible(s, es) && AllWithinSupply(s, es) && s.accrued < CARRY_LIMIT
    requires forall e :: e in es && e.Block? ==> Uncapped(e.policy)
    ensures AllProductsFit(s, es) && Final(s, es).accrued < CARRY_LIMIT
    decreases |es|
  {
    if es != [] {
      assert es[0] in es;
      if es[0].Block? {
        UncappedStep(s, es[0].policy);
      }
      UncappedNeverOverflow(After(s, es[0]), es[1..]);
    }
  }

  // What the blocks of a run can accrue.
  ghost function Accruals(s: State, es: seq<Event>): (x: real)
    requires Admissible(s, es)
    ensures 0.0 <= x
    decreases |es|
  {
    if es == [] then 0.0 else
      (if es[0].Block? then es[0].policy.PerBlock() else 0.0) + Accruals(After(s, es[0]), es[1..])
  }

  lemma BlockAccrual(s: State, p: Policy, limit: real)
    requires p.Valid() && StakesFit(s) && WithinSupply(s)
    requires s.accrued + p.PerBlock() <= limit && limit.Floor * TOP_REWARD < TWO_64
    ensures ProductsFit(s, p.PerBlock(), p.EpochCap()) && After(s, Block(p)).accrued <= s.accrued + p.PerBlock()
  {
    AvailableFits(s, p.PerBlock(), p.EpochCap(), limit.Floor);
    TotalsBound(s.records);
    if TotalAnnual(s.records) != 0 {
      PaymentWithinBounds(s, p.PerBlock(), p.EpochCap());
    }
  }

  // Whatever the caps, and however capped and uncapped blocks alternate, no product wraps around while
  // the carry and all that the run can accrue stay under the largest safe cap.
  lemma {:induction false} AnyPolicyFits(s: State, es: seq<Event>, limit: real)
    requires Admissible(s, es) && AllWithinSupply(s, es)
    requires s.accrued + Accruals(s, es) <= limit && limit.Floor * TOP_REWARD < TWO_64
    ensures AllProductsFit(s, es) && Final(s, es).accrued <= s.accrued + Accruals(s, es)
    decreases |es|
  {
    if es != [] {
      if es[0].Block? {
        BlockAccrual(s, es[0].policy, limit);
      }
      AnyPolicyFits(After(s, es[0]), es[1..], limit);
    }
  }

  // ---------- The reward manager ----------

  class ProgressiveStaking {
    var records: map<Id, Record>
    var totalStaked: u64
    var accrued: real
    var epochMinted: nat
    var inflationPct: real
    const blockTime: real
    const epochLength: nat

    // Rates that are not positive stand for seven percent, and block times that are not positive for
    // three seconds.
    constructor (annualInflationPct: real, blockTime: real, epochLength: nat)
      ensures Current() == Staking(map[], 0, 0.0, 0) && CurrentPolicy().Valid()
      ensures inflationPct == Clamped(if annualInflationPct <= 0.0 then DEFAULT_PCT else annualInflationPct)
      ensures annualInflationPct <= 0.0 ==> inflationPct == 7.0
      ensures this.blockTime == (if blockTime <= 0.0 then 3.0 else blockTime) && this.epochLength == epochLength
    {
      records, totalStaked, accrued, epochMinted := map[], 0, 0.0, 0;
      inflationPct := Clamped(if annualInflationPct <= 0.0 then DEFAULT_PCT else annualInflationPct);
      this.blockTime := if blockTime <= 0.0 then 3.0 else blockTime;
      this.epochLength := epochLength;
    }

    function CurrentPolicy(): (p: Policy)
      reads this
    {
      Policy(inflationPct, blockTime, epochLength)
    }

    // Governance may move the rate between its bounds.
    method SetInflationPct(pct: real) returns (applied: real)
      modifies this`inflationPct
      ensures applied == inflationPct && MIN_PCT <= applied <= MAX_PCT
      ensures MIN_PCT <= pct <= MAX_PCT ==> applied == pct
      ensures pct < MIN_PCT ==> applied == MIN_PCT
      ensures MAX_PCT < pct ==> applied == MAX_PCT
    {
      applied := pct;
      if applied < MIN_PCT {
        applied := MIN_PCT;
      }
      if applied > MAX_PCT {
        applied := MAX_PCT;
      }
      inflationPct := applied;
    }

    ghost function Current(): (s: Staking)
      reads this
    {
      Staking(records, totalStaked, accrued, epochMinted)
    }

    method RegisterStake(id: Id, amount: u64)
      requires 0.0 <= accrued
      modifies this`records, this`totalStaked, this`accrued, this`epochMinted
      ensures Current() == After(old(Current()), Register(id, amount))
    {
      WrapThenAdd(totalStaked - StakeOf(Current(), id), amount);
      if id in records {
        totalStaked := Wrap64(totalStaked - records[id].staked);
        records := records[id := records[id].(staked := amount)];
      } else {
        records := records[id := Record(amount, 0)];
      }
      totalStaked := Wrap64(totalStaked + amount);
    }

    method RemoveStake(id: Id)
      requires 0.0 <= accrued
      modifies this`records, this`totalStaked, this`accrued, this`epochMinted
      ensures Current() == After(old(Current()), Remove(id))
    {
      if id in records {
        totalStaked := Wrap64(totalStaked - records[id].staked);
        records := records - {id};
      } else {
        assert records - {id} == records;
      }
    }

    method ClaimReward(id: Id) returns (amount: nat)
      requires 0.0 <= accrued
      modifies this`records, this`totalStaked, this`accrued, this`epochMinted
      ensures amount == UnclaimedOf(old(Current()), id)
      ensures Current() == After(old(Current()), Claim(id))
    {
      if id !in records {
        return 0;
      }
      amount := records[id].accumulated;
      records := records[id := records[id].(accumulated := 0)];
    }

    method RolloverEpoch()
      requires 0.0 <= accrued
      modifies this`records, this`totalStaked, this`accrued, this`epochMinted
      ensures Current() == After(old(Current()), Rollover)
    {
      epochMinted := 0;
    }

    // The annual reward of every validator, and their sum in 64 bits.
    method AnnualRewards() returns (annuals: map<Id, int>, total: u64)
      ensures annuals == Annuals(records) && total == TotalAnnual(records)
    {
      annuals, total := map[], 0;
      var ids := records.Keys;
      assert Annuals(records) - ids == map[];
      while ids != {}
        invariant ids <= records.Keys
        invariant annuals == Annuals(records) - ids
        invariant total == Wrap64(Total(annuals))
        decreases ids
      {
        var id :| id in ids;
        var reward := CalculateReward(records[id].staked);
        TotalUpdate(annuals, id, reward);
        WrapThenAdd(Total(annuals), reward);
        annuals := annuals[id := reward];
        total := Wrap64(total + reward);
        ids := ids - {id};
      }
      assert annuals == Annuals(records);
    }

    // Credits one validator with its share.
    method PayOne(id: Id, available: nat, annual: nat, total: nat) returns (blockReward: nat)
      requires 0 < total && id in records
      modifies this`records
      ensures blockReward == Share(available, annual, total)
      ensures var r := old(records)[id];
              records == old(records)[id := r.(accumulated := r.accumulated + blockReward)]
    {
      var numerator := Wrap64(available * annual);
      QuotientAtLeast(numerator, total, 0);
      blockReward := numerator / total;
      if blockReward == 0 {
        assert records == records[id := records[id]];
        return;
      }
      records := records[id := records[id].(accumulated := records[id].accumulated + blockReward)];
    }

    // Hands out `available` tokens in proportion to the annual rewards and returns what was paid.
    method PayOut(annuals: map<Id, int>, available: nat, total: nat) returns (distribution: map<Id, int>, paid: nat)
      requires annuals == Annuals(records) && 0 < total
      modifies this`records
      ensures records == Credit(old(records), Shares(annuals, available, total))
      ensures paid == Total(Shares(annuals, available, total))
      ensures distribution == Positive(Shares(annuals, available, total))
    {
      distribution, paid := PayShares(annuals, available, total, Shares(annuals, available, total));
    }

    // Pays one of the validators that have not been paid.
    method PayNext(annuals: map<Id, int>, available: nat, total: nat, ghost shares: map<Id, int>,
                   ghost before: map<Id, Record>, ghost ids: set<Id>, id: Id, soFar: map<Id, int>, paidSoFar: nat)
      returns (distribution: map<Id, int>, paid: nat)
      requires id in annuals && id in shares && 0 < total && 0 <= shares[id] && 0 <= annuals[id]
      requires shares[id] == Share(available, annuals[id], total)
      requires AllPaidBut(before, shares, ids, records, paidSoFar, soFar) && ids <= before.Keys && id in ids
      modifies this`records
      ensures AllPaidBut(before, shares, ids - {id}, records, paid, distribution)
    {
      PayStep(before, shares, ids, id, records, paidSoFar, soFar);
      var share := PayOne(id, available, annuals[id], total);
      distribution, paid := soFar, paidSoFar + share;
      if share > 0 {
        distribution := distribution[id := share];
      }
    }

    method PayShares(annuals: map<Id, int>, available: nat, total: nat, ghost shares: map<Id, int>)
      returns (distribution: map<Id, int>, paid: nat)
      requires annuals.Keys == shares.Keys == records.Keys && 0 < total
      requires forall id :: id in shares ==> 0 <= shares[id] && 0 <= annuals[id]
      requires forall id :: id in shares ==> shares[id] == Share(available, annuals[id], total)
      modifies this`records
      ensures records == Credit(old(records), shares)
      ensures paid == Total(shares) && distribution == Positive(shares)
    {
      distribution, paid := map[], 0;
      ghost var before := records;
      var ids := annuals.Keys;
      assert shares - ids == map[];
      while ids != {}
        invariant ids <= annuals.Keys && AllPaidBut(before, shares, ids, records, paid, distribution)
        decreases ids
      {
        var id := AnyOf(ids);
        distribution, paid := PayNext(annuals, available, total, shares, before, ids, id, distribution, paid);
        ids := ids - {id};
      }
      assert shares - ids == shares;
    }

    // Pays the validators for one block.
    method Emit(perBlock: real, cap: nat) returns (distribution: map<Id, int>)
      requires 0.0 <= accrued && 0.0 <= perBlock && StakesFit(Current())
      modifies this`records, this`totalStaked, this`accrued, this`epochMinted
      ensures Current() == Distributed(old(Current()), perBlock, cap)
      ensures distribution == PayoutsOf(old(Current()), perBlock, cap)
    {
      var annuals, totalAnnual := AnnualRewards();
      if totalAnnual == 0 {
        return map[];
      }
      accrued := accrued + perBlock;
      if cap > 0 && epochMinted >= cap {
        NothingPaid(old(Current()), perBlock, cap);
        return map[];
      }
      var available := accrued.Floor;
      if available == 0 {
        NothingPaid(old(Current()), perBlock, cap);
        return map[];
      }
      if cap > 0 && epochMinted + available > cap {
        available := cap - epochMinted;
      }
      assert available == Available(old(Current()), perBlock, cap);
      ghost var shares := Paid(old(Current()), perBlock, cap);
      assert shares == Shares(annuals, available, totalAnnual);
      var paid;
      distribution, paid := PayOut(annuals, available, totalAnnual);
      accrued := accrued - paid as real;
      epochMinted := epochMinted + paid;
    }

    method DistributeBlockReward() returns (distribution: map<Id, int>)
      requires CurrentPolicy().Valid() && 0.0 <= accrued && StakesFit(Current())
      modifies this`records, this`totalStaked, this`accrued, this`epochMinted
      ensures var p := CurrentPolicy();
              && Current() == After(old(Current()), Block(p))
              && distribution == PayoutsOf(old(Current()), p.PerBlock(), p.EpochCap())
    {
      var policy := CurrentPolicy();
      distribution := Emit(policy.PerBlock(), policy.EpochCap());
    }
  }

  function Positive(m: map<Id, int>): (r: map<Id, int>) {
    map id | id in m && m[id] > 0 :: m[id]
  }

  // Where the payout stands when all but the given validators have been paid.
  ghost predicate AllPaidBut(before: map<Id, Record>, shares: map<Id, int>, ids: set<Id>,
                             records: map<Id, Record>, paid: int, distribution: map<Id, int>)
  {
    && shares.Keys == before.Keys && (forall id :: id in shares ==> 0 <= shares[id])
    && records == PartlyCredited(before, shares, ids)
    && paid == Total(shares - ids) && distribution == Positive(shares - ids)
  }

  lemma PayStep(before: map<Id, Record>, shares: map<Id, int>, ids: set<Id>, id: Id,
                records: map<Id, Record>, paid: int, distribution: map<Id, int>)
    requires AllPaidBut(before, shares, ids, records, paid, distribution) && ids <= before.Keys && id in ids
    ensures id in records && records[id] == before[id]
    ensures var r := before[id];
            AllPaidBut(before, shares, ids - {id}, records[id := r.(accumulated := r.accumulated + shares[id])],
                       paid + shares[id], if shares[id] > 0 then distribution[id := shares[id]] else distribution)
  {
    OneMore(shares, ids, id);
    OneCredited(before, shares, ids, id);
  }

  // The records when all but the given ones have been credited.
  ghost function PartlyCredited(records: map<Id, Record>, shares: map<Id, int>, ids: set<Id>): (r: map<Id, Record>)
    requires shares.Keys == records.Keys && forall id :: id in shares ==> 0 <= shares[id]
    ensures ids == records.Keys ==> r == records
    ensures ids == {} ==> r == Credit(records, shares)
  {
    map id | id in records :: if id in ids then records[id] else Credit(records, shares)[id]
  }

  lemma OneCredited(records: map<Id, Record>, shares: map<Id, int>, ids: set<Id>, id: Id)
    requires shares.Keys == records.Keys && (forall id :: id in shares ==> 0 <= shares[id])
    requires ids <= records.Keys && id in ids
    ensures var r := records[id];
            && PartlyCredited(records, shares, ids)[id] == r
            && PartlyCredited(records, shares, ids - {id})
               == PartlyCredited(records, shares, ids)[id := r.(accumulated := r.accumulated + shares[id])]
  {
  }

  lemma OneMore(shares: map<Id, int>, ids: set<Id>, id: Id)
    requires id in ids && id in shares
    ensures Total(shares - (ids - {id})) == Total(shares - ids) + shares[id]
    ensures Positive(shares - (ids - {id}))
         == if shares[id] > 0 then Positive(shares - ids)[id := shares[id]] else Positive(shares - ids)
  {
    TotalUpdate(shares - ids, id, shares[id]);
    assert (shares - ids)[id := shares[id]] == shares - (ids - {id});
  }

  // What the caller is told to pay: the nonzero shares.
  ghost function PayoutsOf(s: State, perBlock: real, cap: nat): (m: map<Id, int>)
    requires 0.0 <= perBlock
  {
    if TotalAnnual(s.records) == 0 then map[] else Positive(Paid(s, perBlock, cap))
  }

  // The caller is told exactly which validators have been credited, and with how much.
  lemma PayoutsAreCredits(s: State, p: Policy, id: Id)
    requires p.Valid() && StakesFit(s)
    ensures var told := PayoutsOf(s, p.PerBlock(), p.EpochCap());
            var got := UnclaimedOf(After(s, Block(p)), id) - UnclaimedOf(s, id);
            && (id in told <==> 0 < got) && (id in told ==> told[id] == got)
  {
    StepAccount(s, Block(p), id);
  }

  lemma NothingPaid(s: State, perBlock: real, cap: nat)
    requires 0.0 <= perBlock && StakesFit(s) && TotalAnnual(s.records) != 0
    requires Available(s, perBlock, cap) == 0
    ensures Distributed(s, perBlock, cap) == s.(accrued := s.accrued + perBlock)
    ensures PayoutsOf(s, perBlock, cap) == map[]
  {
    var shares := Paid(s, perBlock, cap);
    NoMoreThanAvailable(s.records, 0);
    TotalNonNegative(shares);
    assert forall id :: id in shares ==> shares[id] == 0;
    assert Credit(s.records, shares) == s.records;
  }
}
