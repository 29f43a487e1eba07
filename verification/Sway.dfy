/** The SWAY rewards token: supply, allocation buckets and balances. Storage slots are ledger
    entries; writing a number to a slot drops its sign. */
module Sway {
  import opened Arith
  import opened Bytes
  import opened Ledger

  type Address = string

  const INITIAL_SUPPLY := 1_000_000_000
  const HARD_CEILING := 5_000_000_000
  const BURN_BPS := 2_000

  // Shares of the initial supply, in percent.
  const FUTURE_TASKS := "futureTasks"
  const DEX_LP := "dexLP"
  const ECOSYSTEM := "ecosystem"
  const ALLOCATION: seq<(string, int)> := [(FUTURE_TASKS, 45), (DEX_LP, 20), (ECOSYSTEM, 35)]

  // What may ever be minted to balances: the task and liquidity shares.
  const MINTABLE := 650_000_000

  // The precompile accounts that may mint.
  const VAULT: Address := "0000000000000000000000000000000000000018"
  const POOL: Address := "0000000000000000000000000000000000000019"
  const TASKS: Address := "0000000000000000000000000000000000000023"
  const DEX: Address := "0000000000000000000000000000000000000025"

  datatype Token = Token(total: int, initialised: bool, buckets: map<string, int>, balances: map<Address, int>)

  const EMPTY: Token := Token(0, false, map[], map[])

  datatype Reply = Done | NotPositive | BucketExhausted | CeilingExceeded | Insufficient | Unauthorized

  // The comparison with the ceiling sees the low 64 bits only.
  function Low64(x: int): (r: nat) {
    Abs(x) % TWO_64
  }

  // ---------- The four operations ----------

  function Allocated(buckets: map<string, int>, parts: seq<(string, int)>): (r: map<string, int>) {
    if parts == [] then buckets else
      var last := parts[|parts| - 1];
      Allocated(buckets, parts[..|parts| - 1])[last.0 := Abs(INITIAL_SUPPLY * last.1 / 100)]
  }

  function Seeded(t: Token): (r: Token) {
    if t.initialised then t else Token(INITIAL_SUPPLY, true, Allocated(t.buckets, ALLOCATION), t.balances)
  }

  function Minted(t: Token, to: Address, amount: int, bucket: string): (r: (Token, Reply)) {
    if amount <= 0 then (t, NotPositive) else
    if bucket != "" && Get(t.buckets, bucket) < amount then (t, BucketExhausted) else
    if Low64(t.total + amount) > HARD_CEILING then (t, CeilingExceeded) else
      (t.(total := Abs(t.total + amount),
          balances := t.balances[to := Abs(Get(t.balances, to) + amount)],
          buckets := if bucket == "" then t.buckets else t.buckets[bucket := Abs(Get(t.buckets, bucket) - amount)]),
       Done)
  }

  function Burned(t: Token, from: Address, amount: int): (r: (Token, Reply)) {
    if amount <= 0 then (t, NotPositive) else
    if Get(t.balances, from) < amount then (t, Insufficient) else
      (t.(balances := t.balances[from := Abs(Get(t.balances, from) - amount)], total := Abs(t.total - amount)), Done)
  }

  // A fifth of the fee, or what is left in the reserve.
  function FeeBurn(t: Token, fee: int): (burn: int) {
    var wanted := fee * BURN_BPS / 10_000;
    if wanted == 0 then 0 else
    if Get(t.buckets, ECOSYSTEM) < wanted then Get(t.buckets, ECOSYSTEM) else wanted
  }

  function FeeBurned(t: Token, fee: int): (r: Token) {
    var burn := FeeBurn(t, fee);
    if burn == 0 then t else
      t.(buckets := t.buckets[ECOSYSTEM := Abs(Get(t.buckets, ECOSYSTEM) - burn)], total := Abs(t.total - burn))
  }

  // ---------- Calls and runs ----------

  datatype Call =
    | Init
    | Mint(caller: Address, to: Address, amount: int)
    | MintToCaller(caller: Address, amount: int)
    | Burn(from: Address, amount: int)
    | BurnFromFees(fee: int)
    | LiquidityReward(provider: Address)
    | SwapReward(trader: Address, amountIn: int)

  datatype MintRequest = Nothing | Request(to: Address, amount: int, bucket: string)

  // The mint a call asks for, if its caller is allowed one.
  function RequestOf(c: Call): (q: MintRequest)
    ensures q.Request? ==> q.bucket == DEX_LP || q.bucket == FUTURE_TASKS
  {
    match c
    case Mint(caller, to, amount) =>
      if caller == DEX || caller == POOL then Request(to, amount, DEX_LP) else Nothing
    case MintToCaller(caller, amount) =>
      if caller == VAULT then Request(caller, amount, DEX_LP) else
      if caller == TASKS then Request(caller, amount, FUTURE_TASKS) else Nothing
    case LiquidityReward(provider) => Request(provider, 100, DEX_LP)
    case SwapReward(trader, amountIn) => Request(trader, amountIn * 3 / 1000, DEX_LP)
    case _ => Nothing
  }

  function Result(t: Token, c: Call): (r: (Token, Reply)) {
    match c
    case Init => (Seeded(t), Done)
    case Burn(from, amount) => Burned(t, from, amount)
    case BurnFromFees(fee) => (FeeBurned(t, fee), Done)
    case _ =>
      match RequestOf(c)
      case Nothing => (t, Unauthorized)
      case Request(to, amount, bucket) => Minted(t, to, amount, bucket)
  }

  function Final(t: Token, calls: seq<Call>): (r: Token) {
    if calls == [] then t else Result(Final(t, calls[..|calls| - 1]), calls[|calls| - 1]).0
  }

  // What the call minted and what it burned from a balance.
  function MintedBy(t: Token, c: Call): (n: int) {
    if RequestOf(c).Request? && Result(t, c).1 == Done then RequestOf(c).amount else 0
  }

  function BurnedBy(t: Token, c: Call): (n: int) {
    if c.Burn? && Result(t, c).1 == Done then c.amount else 0
  }

  function TotalMinted(t: Token, calls: seq<Call>): (n: int) {
    if calls == [] then 0 else
      TotalMinted(t, calls[..|calls| - 1]) + MintedBy(Final(t, calls[..|calls| - 1]), calls[|calls| - 1])
  }

  function TotalBurned(t: Token, calls: seq<Call>): (n: int) {
    if calls == [] then 0 else
      TotalBurned(t, calls[..|calls| - 1]) + BurnedBy(Final(t, calls[..|calls| - 1]), calls[|calls| - 1])
  }

  // ---------- The closed form ----------

  // The state of the books once `minted` has been minted and `burned` burned from balances.
  ghost predicate Accounts(t: Token, minted: int, burned: int) {
    var dex, tasks, eco := Get(t.buckets, DEX_LP), Get(t.buckets, FUTURE_TASKS), Get(t.buckets, ECOSYSTEM);
    && 0 <= dex && 0 <= tasks && 0 <= eco && 0 <= minted && 0 <= burned
    && (forall a :: a in t.balances ==> 0 <= t.balances[a])
    && Total(t.balances) == minted - burned
    && if t.initialised
       then dex + tasks == MINTABLE - minted && t.total == Total(t.balances) + MINTABLE + eco
       else dex == 0 && tasks == 0 && minted == 0 && burned == 0
  }

  lemma SeedAccounts(t: Token)
    requires Accounts(t, 0, 0)
    ensures Accounts(Seeded(t), 0, 0)
  {
    if !t.initialised {
      assert ALLOCATION[..2] == [(FUTURE_TASKS, 45), (DEX_LP, 20)];
      assert ALLOCATION[..2][..1] == [(FUTURE_TASKS, 45)];
      assert Allocated(t.buckets, ALLOCATION)
          == Allocated(t.buckets, ALLOCATION[..2])[ECOSYSTEM := 350_000_000];
      assert Allocated(t.buckets, ALLOCATION[..2])
          == Allocated(t.buckets, ALLOCATION[..2][..1])[DEX_LP := 200_000_000];
      assert Allocated(t.buckets, ALLOCATION[..2][..1]) == t.buckets[FUTURE_TASKS := 450_000_000];
      BucketsDiffer();
    }
  }

  lemma BucketsDiffer()
    ensures FUTURE_TASKS != DEX_LP && DEX_LP != ECOSYSTEM && FUTURE_TASKS != ECOSYSTEM
    ensures FUTURE_TASKS != "" && DEX_LP != ""
  {
    assert |FUTURE_TASKS| == 11 && |DEX_LP| == 5 && |ECOSYSTEM| == 9;
  }

  lemma MintAccounts(t: Token, to: Address, amount: int, bucket: string, minted: int, burned: int)
    requires Accounts(t, minted, burned) && (bucket == DEX_LP || bucket == FUTURE_TASKS)
    ensures var r := Minted(t, to, amount, bucket);
            Accounts(r.0, minted + if r.1 == Done then amount else 0, burned)
  {
    BucketsDiffer();
    TotalUpdate(t.balances, to, Get(t.balances, to) + amount);
    TotalNonNegative(t.balances);
  }

  lemma BurnAccounts(t: Token, from: Address, amount: int, minted: int, burned: int)
    requires Accounts(t, minted, burned)
    ensures var r := Burned(t, from, amount);
            Accounts(r.0, minted, burned + if r.1 == Done then amount else 0)
  {
    TotalUpdate(t.balances, from, Get(t.balances, from) - amount);
    TotalNonNegative(t.balances);
  }

  lemma FeeAccounts(t: Token, fee: int, minted: int, burned: int)
    requires Accounts(t, minted, burned)
    ensures Accounts(FeeBurned(t, fee), minted, burned)
  {
    BucketsDiffer();
    TotalNonNegative(t.balances);
  }

  lemma RequestAccounts(t: Token, c: Call, minted: int, burned: int)
    requires Accounts(t, minted, burned) && RequestOf(c).Request?
    ensures Accounts(Result(t, c).0, minted + MintedBy(t, c), burned)
  {
    var q := RequestOf(c);
    MintAccounts(t, q.to, q.amount, q.bucket, minted, burned);
  }

  lemma StepAccounts(t: Token, c: Call, minted: int, burned: int)
    requires Accounts(t, minted, burned)
    ensures Accounts(Result(t, c).0, minted + MintedBy(t, c), burned + BurnedBy(t, c))
  {
    match c {
      case Init => if !t.initialised { SeedAccounts(t); }
      case Burn(from, amount) => BurnAccounts(t, from, amount, minted, burned);
      case BurnFromFees(fee) => FeeAccounts(t, fee, minted, burned);
      case _ =>
        if RequestOf(c).Request? {
          RequestAccounts(t, c, minted, burned);
        }
    }
  }

  // After any calls, in any order: balances are what was minted less what was burned, the two
  // mintable buckets have given out exactly what was minted, and once seeded the supply is the
  // balances, the mintable 650 million and the ecosystem reserve.
  lemma {:induction false} RunAccounts(calls: seq<Call>)
    ensures Accounts(Final(EMPTY, calls), TotalMinted(EMPTY, calls), TotalBurned(EMPTY, calls))
  {
    if calls != [] {
      var before := calls[..|calls| - 1];
      RunAccounts(before);
      StepAccounts(Final(EMPTY, before), calls[|calls| - 1], TotalMinted(EMPTY, before), TotalBurned(EMPTY, before));
    }
  }

  // ---------- Who gets what from where ----------

  // What a call adds to a balance, if it succeeds.
  function BalanceMove(t: Token, c: Call, a: Address): (n: int) {
    if Result(t, c).1 != Done then 0 else
      match c
      case Mint(_, to, amount) => if to == a then amount else 0
      case MintToCaller(caller, amount) => if caller == a then amount else 0
      case Burn(from, amount) => if from == a then -amount else 0
      case LiquidityReward(provider) => if provider == a then 100 else 0
      case SwapReward(trader, amountIn) => if trader == a then amountIn * 3 / 1000 else 0
      case _ => 0
  }

  // What a call takes out of the bucket for liquidity, and out of that for tasks, if it succeeds.
  function LiquidityMove(t: Token, c: Call): (n: int) {
    if Result(t, c).1 != Done then 0 else
      match c
      case Mint(_, _, amount) => amount
      case MintToCaller(caller, amount) => if caller == VAULT then amount else 0
      case LiquidityReward(_) => 100
      case SwapReward(_, amountIn) => amountIn * 3 / 1000
      case _ => 0
  }

  function TaskMove(t: Token, c: Call): (n: int) {
    if c.MintToCaller? && Result(t, c).1 == Done && c.caller == TASKS then c.amount else 0
  }

  function ReserveMove(t: Token, c: Call): (n: int) {
    if c.BurnFromFees? then FeeBurn(t, c.fee) else 0
  }

  // Every call that may mint is refused to all but its own callers.
  lemma WhoMayMint(t: Token, c: Call)
    ensures Result(t, c).1 == Unauthorized <==>
              || (c.Mint? && c.caller != DEX && c.caller != POOL)
              || (c.MintToCaller? && c.caller != VAULT && c.caller != TASKS)
  {
  }

  // A fee burns its fifth, rounded down, or all that is left of the reserve.
  lemma FeeBurnMeans(t: Token, fee: nat)
    requires 0 <= Get(t.buckets, ECOSYSTEM)
    ensures var burn, reserve := FeeBurn(t, fee), Get(t.buckets, ECOSYSTEM);
            0 <= burn <= reserve && 5 * burn <= fee && (fee < 5 * (burn + 1) || burn == reserve)
  {
  }

  // The buckets once the given amounts have left them.
  ghost predicate BucketsAfter(t: Token, liquidity: int, tasks: int, reserve: int) {
    && 0 <= Get(t.buckets, DEX_LP) && 0 <= Get(t.buckets, FUTURE_TASKS) && 0 <= Get(t.buckets, ECOSYSTEM)
    && (forall a :: a in t.balances ==> 0 <= t.balances[a])
    && Get(t.buckets, DEX_LP) == (if t.initialised then 200_000_000 else 0) - liquidity
    && Get(t.buckets, FUTURE_TASKS) == (if t.initialised then 450_000_000 else 0) - tasks
    && Get(t.buckets, ECOSYSTEM) == (if t.initialised then 350_000_000 else 0) - reserve
    && (!t.initialised ==> liquidity == 0 && tasks == 0 && reserve == 0)
  }

  lemma SeedBuckets(t: Token)
    requires !t.initialised && BucketsAfter(t, 0, 0, 0)
    ensures BucketsAfter(Seeded(t), 0, 0, 0)
  {
    assert ALLOCATION[..2] == [(FUTURE_TASKS, 45), (DEX_LP, 20)];
    assert ALLOCATION[..2][..1] == [(FUTURE_TASKS, 45)];
    assert Allocated(t.buckets, ALLOCATION) == Allocated(t.buckets, ALLOCATION[..2])[ECOSYSTEM := 350_000_000];
    assert Allocated(t.buckets, ALLOCATION[..2])
        == Allocated(t.buckets, ALLOCATION[..2][..1])[DEX_LP := 200_000_000];
    assert Allocated(t.buckets, ALLOCATION[..2][..1]) == t.buckets[FUTURE_TASKS := 450_000_000];
    BucketsDiffer();
  }

  lemma MintTakes(t: Token, to: Address, amount: int, bucket: string, liquidity: int, tasks: int, reserve: int)
    requires BucketsAfter(t, liquidity, tasks, reserve) && (bucket == DEX_LP || bucket == FUTURE_TASKS)
    ensures var r := Minted(t, to, amount, bucket);
            BucketsAfter(r.0, liquidity + (if r.1 == Done && bucket == DEX_LP then amount else 0),
                         tasks + (if r.1 == Done && bucket == FUTURE_TASKS then amount else 0), reserve)
  {
    BucketsDiffer();
  }

  lemma MintBuckets(t: Token, c: Call, liquidity: int, tasks: int, reserve: int)
    requires BucketsAfter(t, liquidity, tasks, reserve) && RequestOf(c).Request?
    ensures BucketsAfter(Result(t, c).0, liquidity + LiquidityMove(t, c), tasks + TaskMove(t, c), reserve)
  {
    BucketsDiffer();
    assert |VAULT| == |TASKS| == 40 && VAULT[38] != TASKS[38];
    var q := RequestOf(c);
    MintTakes(t, q.to, q.amount, q.bucket, liquidity, tasks, reserve);
  }

  lemma StepBuckets(t: Token, c: Call, liquidity: int, tasks: int, reserve: int)
    requires BucketsAfter(t, liquidity, tasks, reserve) && (c.BurnFromFees? ==> 0 <= c.fee)
    ensures BucketsAfter(Result(t, c).0, liquidity + LiquidityMove(t, c), tasks + TaskMove(t, c),
                         reserve + ReserveMove(t, c))
  {
    BucketsDiffer();
    match c {
      case Init => if !t.initialised { SeedBuckets(t); }
      case Burn(_, _) =>
      case BurnFromFees(fee) => FeeBurnMeans(t, fee);
      case _ => if RequestOf(c).Request? { MintBuckets(t, c, liquidity, tasks, reserve); }
    }
  }

  // What the calls of a run add together.
  ghost function Moved(t: Token, calls: seq<Call>, move: (Token, Call) -> int): (n: int) {
    if calls == [] then 0 else
      Moved(t, calls[..|calls| - 1], move) + move(Final(t, calls[..|calls| - 1]), calls[|calls| - 1])
  }

  // After any calls whose fees are not negative, each bucket holds its share of the first billion, once
  // it is seeded, less what its own calls have taken.
  lemma {:induction false} RunBuckets(calls: seq<Call>)
    requires FeesNonNegative(calls)
    ensures BucketsAfter(Final(EMPTY, calls), Moved(EMPTY, calls, LiquidityMove), Moved(EMPTY, calls, TaskMove),
                         Moved(EMPTY, calls, ReserveMove))
  {
    if calls != [] {
      var before := calls[..|calls| - 1];
      RunBuckets(before);
      StepBuckets(Final(EMPTY, before), calls[|calls| - 1], Moved(EMPTY, before, LiquidityMove),
                  Moved(EMPTY, before, TaskMove), Moved(EMPTY, before, ReserveMove));
    }
  }

  lemma StepBalance(t: Token, c: Call, a: Address)
    requires forall x :: x in t.balances ==> 0 <= t.balances[x]
    ensures Get(Result(t, c).0.balances, a) == Get(t.balances, a) + BalanceMove(t, c, a)
  {
  }

  // After any calls each account holds what was minted to it less what was burned from it.
  lemma {:induction false} RunBalances(calls: seq<Call>, a: Address)
    ensures Get(Final(EMPTY, calls).balances, a) == Moved(EMPTY, calls, (t, c) => BalanceMove(t, c, a))
  {
    if calls != [] {
      var before := calls[..|calls| - 1];
      RunBalances(before, a);
      RunAccounts(before);
      StepBalance(Final(EMPTY, before), calls[|calls| - 1], a);
    }
  }

  // Which amount a call asks for, and the bucket it has to come from.
  function Asked(c: Call): (n: int) {
    match c
    case Mint(_, _, amount) => amount
    case MintToCaller(_, amount) => amount
    case LiquidityReward(_) => 100
    case SwapReward(_, amountIn) => amountIn * 3 / 1000
    case _ => 0
  }

  // In every reachable state a permitted mint succeeds exactly when its amount is positive and its
  // bucket still holds it: the ceiling never matters.
  lemma MintsExactly(calls: seq<Call>, c: Call)
    requires FeesNonNegative(calls) && Result(Final(EMPTY, calls), c).1 != Unauthorized
    requires c.Mint? || c.MintToCaller? || c.LiquidityReward? || c.SwapReward?
    ensures var t := Final(EMPTY, calls);
            var bucket := if c.MintToCaller? && c.caller == TASKS then FUTURE_TASKS else DEX_LP;
            (Result(t, c).1 == Done <==> 0 < Asked(c) <= Get(t.buckets, bucket))
  {
    CeilingNeverRefuses(calls, c);
    BucketsDiffer();
    assert |VAULT| == |TASKS| == 40 && VAULT[38] != TASKS[38];
  }

  // The supply counter counts a minted token twice: it exceeds all balances and buckets together
  // by exactly what has been minted.
  lemma SupplyOverstates(calls: seq<Call>)
    requires Final(EMPTY, calls).initialised
    ensures var t := Final(EMPTY, calls);
            var held := Get(t.buckets, DEX_LP) + Get(t.buckets, FUTURE_TASKS) + Get(t.buckets, ECOSYSTEM);
            t.total - (Total(t.balances) + held) == TotalMinted(EMPTY, calls)
  {
    RunAccounts(calls);
  }

  // Burning from the recipient what was minted restores every balance and the supply.
  lemma BurnUndoesMint(t: Token, to: Address, amount: int, bucket: string, minted: int, burned: int)
    requires Accounts(t, minted, burned) && t.initialised && Minted(t, to, amount, bucket).1 == Done
    ensures var r := Burned(Minted(t, to, amount, bucket).0, to, amount);
            && r.1 == Done && r.0.total == t.total
            && forall a :: Get(r.0.balances, a) == Get(t.balances, a)
  {
    TotalNonNegative(t.balances);
  }

  // ---------- The ceiling ----------

  predicate FeesNonNegative(calls: seq<Call>) {
    forall i :: 0 <= i < |calls| && calls[i].BurnFromFees? ==> 0 <= calls[i].fee
  }

  // A burn from fees lowers the supply, or leaves it, exactly when the fee is not negative.
  lemma FeeBurnShrinks(t: Token, fee: int)
    requires 0 <= t.total && 0 <= Get(t.buckets, ECOSYSTEM) <= t.total
    ensures FeeBurned(t, fee).total <= t.total <==> 0 <= fee
  {
    QuotientAtLeast(fee * BURN_BPS, 10_000, 0);
  }

  ghost predicate Bounded(t: Token) {
    && Get(t.buckets, ECOSYSTEM) <= 350_000_000
    && 0 <= t.total <= 1_650_000_000
  }

  lemma StepBounded(t: Token, c: Call, minted: int, burned: int)
    requires Accounts(t, minted, burned) && Bounded(t) && (c.BurnFromFees? ==> 0 <= c.fee)
    requires !t.initialised ==> t.total == 0 && Get(t.buckets, ECOSYSTEM) == 0
    ensures Bounded(Result(t, c).0)
    ensures !Result(t, c).0.initialised ==> Result(t, c).0.total == 0 && Get(Result(t, c).0.buckets, ECOSYSTEM) == 0
  {
    StepAccounts(t, c, minted, burned);
    TotalNonNegative(Result(t, c).0.balances);
    BucketsDiffer();
    if c.BurnFromFees? {
      QuotientAtLeast(c.fee * BURN_BPS, 10_000, 0);
    }
    if c.Init? && !t.initialised {
      assert ALLOCATION[..2] == [(FUTURE_TASKS, 45), (DEX_LP, 20)];
      assert Allocated(t.buckets, ALLOCATION)
          == Allocated(t.buckets, ALLOCATION[..2])[ECOSYSTEM := 350_000_000];
    }
  }

  lemma {:induction false} RunBounded(calls: seq<Call>)
    requires FeesNonNegative(calls)
    ensures Bounded(Final(EMPTY, calls))
    ensures var t := Final(EMPTY, calls); !t.initialised ==> t.total == 0 && Get(t.buckets, ECOSYSTEM) == 0
  {
    if calls != [] {
      var before := calls[..|calls| - 1];
      RunBounded(before);
      RunAccounts(before);
      StepBounded(Final(EMPTY, before), calls[|calls| - 1], TotalMinted(EMPTY, before), TotalBurned(EMPTY, before));
    }
  }

  lemma MintUnderCeiling(t: Token, to: Address, amount: int, bucket: string, minted: int, burned: int)
    requires Accounts(t, minted, burned) && Bounded(t) && (bucket == DEX_LP || bucket == FUTURE_TASKS)
    ensures Minted(t, to, amount, bucket).1 != CeilingExceeded
  {
    BucketsDiffer();
    TotalNonNegative(t.balances);
    if 0 < amount <= Get(t.buckets, bucket) {
      assert Low64(t.total + amount) == t.total + amount <= 1_650_000_000 + MINTABLE;
    }
  }

  // The supply stays below 1.65 billion, so no permitted call is ever refused for the ceiling.
  lemma CeilingNeverRefuses(calls: seq<Call>, c: Call)
    requires FeesNonNegative(calls)
    ensures Final(EMPTY, calls).total <= 1_650_000_000
    ensures Result(Final(EMPTY, calls), c).1 != CeilingExceeded
  {
    RunBounded(calls);
    RunAccounts(calls);
    var t, q := Final(EMPTY, calls), RequestOf(c);
    if q.Request? {
      MintUnderCeiling(t, q.to, q.amount, q.bucket, TotalMinted(EMPTY, calls), TotalBurned(EMPTY, calls));
    }
  }

  // In general the truncated comparison agrees with the real one exactly when the new supply fits
  // 64 bits, or its low 64 bits are above the ceiling by themselves.
  lemma CeilingTest(supply: nat)
    ensures (Low64(supply) > HARD_CEILING <==> supply > HARD_CEILING)
       <==> supply < TWO_64 || Low64(supply) > HARD_CEILING
  {
  }

  // A mint is refused for the ceiling exactly when nothing else refuses it and the low 64 bits of the
  // new supply are above five billion.
  lemma CeilingExactly(t: Token, to: Address, amount: int, bucket: string)
    requires 0 <= t.total
    ensures Minted(t, to, amount, bucket).1 == CeilingExceeded
       <==> 0 < amount && (bucket == "" || amount <= Get(t.buckets, bucket))
            && 5_000_000_000 < (t.total + amount) % 0x1_0000_0000_0000_0000
  {
  }

  // Without a bucket, which no caller uses, a mint of 2^64 passes.
  lemma UnnamedBucketPasses(to: Address)
    ensures Minted(Seeded(EMPTY), to, TWO_64, "").1 == Done
  {
  }

  // ---------- The precompile as an object ----------

  class SwayToken {
    var totalSupply: int
    var initialised: bool
    var buckets: map<string, int>
    var balances: map<Address, int>

    function Current(): (t: Token)
      reads this
    {
      Token(totalSupply, initialised, buckets, balances)
    }

    constructor ()
      ensures Current() == EMPTY
    {
      totalSupply, initialised, buckets, balances := 0, false, map[], map[];
    }

    method SwayInit()
      modifies this
      ensures Current() == Seeded(old(Current()))
    {
      if initialised {
        return;
      }
      totalSupply := INITIAL_SUPPLY;
      initialised := true;
      for i := 0 to |ALLOCATION|
        invariant totalSupply == INITIAL_SUPPLY && initialised && balances == old(balances)
        invariant buckets == Allocated(old(buckets), ALLOCATION[..i])
      {
        var amt := totalSupply * ALLOCATION[i].1 / 100;
        buckets := buckets[ALLOCATION[i].0 := Abs(amt)];
        assert ALLOCATION[..i + 1][..i] == ALLOCATION[..i];
      }
      assert ALLOCATION[..|ALLOCATION|] == ALLOCATION;
    }

    method SwayMintInternal(to: Address, amount: int, bucket: string) returns (r: Reply)
      modifies this
      ensures (Current(), r) == Minted(old(Current()), to, amount, bucket)
    {
      if amount <= 0 {
        return NotPositive;
      }
      if bucket != "" {
        var remaining := Get(buckets, bucket);
        if remaining < amount {
          return BucketExhausted;
        }
      }
      var newTotal := totalSupply + amount;
      if Low64(newTotal) > HARD_CEILING {
        return CeilingExceeded;
      }
      balances := balances[to := Abs(Get(balances, to) + amount)];
      totalSupply := Abs(newTotal);
      if bucket != "" {
        buckets := buckets[bucket := Abs(Get(buckets, bucket) - amount)];
      }
      return Done;
    }

    method SwayBurnInternal(from: Address, amount: int) returns (r: Reply)
      modifies this
      ensures (Current(), r) == Burned(old(Current()), from, amount)
    {
      if amount <= 0 {
        return NotPositive;
      }
      var cur := Get(balances, from);
      if cur < amount {
        return Insufficient;
      }
      balances := balances[from := Abs(cur - amount)];
      totalSupply := Abs(totalSupply - amount);
      return Done;
    }

    method SwayBurnFromFees(fee: int) returns (burned: int)
      modifies this
      ensures Current() == FeeBurned(old(Current()), fee)
      ensures burned == FeeBurn(old(Current()), fee)
    {
      var burn := fee * BURN_BPS / 10_000;
      if burn == 0 {
        return 0;
      }
      var eco := Get(buckets, ECOSYSTEM);
      if eco < burn {
        burn := eco;
      }
      if burn == 0 {
        return 0;
      }
      buckets := buckets[ECOSYSTEM := Abs(eco - burn)];
      totalSupply := Abs(totalSupply - burn);
      return burn;
    }

    method SwayPrecompile(c: Call) returns (r: Reply)
      requires c.Init? || c.Mint? || c.MintToCaller? || c.Burn?
      modifies this
      ensures (Current(), r) == Result(old(Current()), c)
    {
      match c {
        case Init =>
          SwayInit();
          return Done;
        case Mint(caller, to, amount) =>
          if caller != DEX && caller != POOL {
            return Unauthorized;
          }
          r := SwayMintInternal(to, amount, DEX_LP);
        case MintToCaller(caller, amount) =>
          if caller == VAULT {
            r := SwayMintInternal(caller, amount, DEX_LP);
          } else if caller == TASKS {
            r := SwayMintInternal(caller, amount, FUTURE_TASKS);
          } else {
            return Unauthorized;
          }
        case Burn(from, amount) =>
          r := SwayBurnInternal(from, amount);
      }
    }
  }
}
