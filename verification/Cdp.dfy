/** The 2WAY vault and its stability pool: two precompiles that share storage. Storage slots
    are ledger entries; an absent entry is zero. A call that is refused keeps what it wrote
    before it was refused. */
module Cdp {
  import opened Arith
  import opened Bytes
  import opened Ledger

  type Address = seq<byte>
  type Name = seq<byte>
  type VaultId = v: seq<byte> | |v| == 32 witness seq(32, _ => 0)

  // Configuration that the calls read: accepted collateral names, raw fees and prices.
  datatype Params = Params(accepted: set<Name>, fees: map<Name, int>, prices: map<Name, int>)

  datatype Ledgers = Ledgers(
    collateral: map<seq<byte>, map<Name, int>>,  // first 20 bytes of the vault id -> name -> amount
    debt: map<seq<byte>, int>,                   // first 31 bytes of the vault id -> debt
    totalDebt: int,
    deposits: map<Address, int>, minted: map<Address, int>,
    lpFees: map<Address, int>, pending: map<Address, int>,
    totalDeposits: int, twoWayBalance: int,
    wayRewards: int, swayRewards: int, totalRewards: int)

  const EMPTY: Ledgers := Ledgers(map[], map[], 0, map[], map[], map[], map[], 0, 0, 0, 0, 0)

  datatype Reply =
    | Ok | NotAccepted | HasDebt | ProvidesLiquidity | NoCollateral | BelowMinRatio | ExceedsDeposit
    | NotLiquidatable | NotPositive | NothingToClaim | NoDebt | PoolTooSmall | Claimed(amount: int)

  // ---------- Reading ----------

  function TrimZeros(s: seq<byte>): (r: seq<byte>) {
    if s != [] && s[|s| - 1] == 0 then TrimZeros(s[..|s| - 1]) else s
  }

  // A slot key has room for eleven bytes of the name.
  function SlotName(id: Name): (n: Name) {
    TrimZeros(if |id| <= 11 then id else id[..11])
  }

  lemma {:induction false} TrimmedEnd(s: seq<byte>)
    ensures |TrimZeros(s)| <= |s| && TrimZeros(TrimZeros(s)) == TrimZeros(s)
  {
    if s != [] && s[|s| - 1] == 0 {
      TrimmedEnd(s[..|s| - 1]);
    }
  }

  lemma SlotNameTwice(id: Name)
    ensures SlotName(SlotName(id)) == SlotName(id)
  {
    TrimmedEnd(if |id| <= 11 then id else id[..11]);
  }

  // A name of up to eleven bytes that does not end in zero is its own slot; zeros at the end and bytes
  // after the eleventh are lost.
  lemma {:induction false} SlotOf(id: Name)
    ensures |id| <= 11 && (id == [] || id[|id| - 1] != 0) ==> SlotName(id) == id
    ensures |id| > 11 ==> SlotName(id) == SlotName(id[..11])
    ensures SlotName(id + [0]) == SlotName(id)
  {
    if |id| < 11 {
      assert (id + [0])[..|id|] == id;
    } else {
      assert (id + [0])[..11] == id[..11];
    }
  }

  function CollateralsOf(l: Ledgers, v: VaultId): (m: map<Name, int>) {
    if v[..20] in l.collateral then l.collateral[v[..20]] else map[]
  }

  function DebtOf(l: Ledgers, v: VaultId): (n: int) {
    Get(l.debt, v[..31])
  }

  // The slot of an empty name is never read back, so it is not kept.
  function WithCollateral(l: Ledgers, v: VaultId, name: Name, amount: int): (r: Ledgers) {
    if name == [] then l else
      l.(collateral := l.collateral[v[..20] := CollateralsOf(l, v)[name := amount]])
  }

  function FeeOf(p: Params, name: Name): (bps: nat) {
    var raw := Wrap64(Get(p.fees, name));
    if raw == 0 then 150 else raw % 0x1_0000
  }

  // The mint fee is that of whichever collateral the map iteration yields first.
  predicate FeePossible(p: Params, collaterals: map<Name, int>, bps: nat) {
    || (exists name :: name in collaterals && FeeOf(p, name) > 0 && bps == FeeOf(p, name))
    || (bps == 150 && forall name :: name in collaterals ==> FeeOf(p, name) == 0)
  }

  function PriceOf(p: Params, name: Name): (x: int) {
    if Get(p.prices, name) == 0 then 100_000_000 else Get(p.prices, name)
  }

  function Worth(p: Params, collaterals: map<Name, int>): (m: map<Name, int>) {
    map name | name in collaterals ::
      if collaterals[name] <= 0 then 0 else collaterals[name] * PriceOf(p, name) / 100_000_000
  }

  // At least 130% collateral.
  predicate Covers(collateral: int, debt: int) {
    13 * debt <= 10 * collateral
  }

  // ---------- Vault calls ----------

  function Deposited(l: Ledgers, p: Params, v: VaultId, id: Name, amount: nat): (r: (Ledgers, Reply)) {
    if id !in p.accepted then (l, NotAccepted) else (WithCollateral(l, v, SlotName(id), amount), Ok)
  }

  function WithRewards(l: Ledgers, reward: nat): (r: Ledgers) {
    l.(wayRewards := l.wayRewards + reward / 2, swayRewards := l.swayRewards + (reward - reward / 2),
       totalRewards := l.totalRewards + reward)
  }

  function WithMintFee(l: Ledgers, caller: Address, fee: nat): (r: Ledgers)
    ensures r.collateral == l.collateral && r.debt == l.debt && r.totalDebt == l.totalDebt
    ensures r.minted == l.minted && r.deposits == l.deposits
  {
    if fee == 0 then l else
      WithRewards(l, fee).(lpFees := l.lpFees[caller := Get(l.lpFees, caller) + fee])
  }

  function MintFee(amount: nat, bps: nat): (fee: nat)
    ensures 10_000 * fee <= amount * bps < 10_000 * (fee + 1)
  {
    QuotientAtLeast(amount * bps, 10_000, 0);
    amount * bps / 10_000
  }

  // A tenth of the absorbed debt.
  function Penalty(debt: nat): (reward: nat)
    ensures 10 * reward <= debt < 10 * (reward + 1)
  {
    debt * 1000 / 10_000
  }

  function WithMint(l: Ledgers, v: VaultId, caller: Address, newDebt: int, amount: nat): (r: Ledgers) {
    l.(debt := l.debt[v[..31] := newDebt], totalDebt := l.totalDebt + amount,
       minted := l.minted[caller := Get(l.minted, caller) + amount])
  }

  ghost function Minted(l: Ledgers, v: VaultId, caller: Address, amount: nat, bps: nat): (r: (Ledgers, Reply)) {
    if Get(l.minted, caller) > 0 then (l, HasDebt) else
    if Get(l.deposits, caller) > 0 then (l, ProvidesLiquidity) else
    if Total(CollateralsOf(l, v)) == 0 then (l, NoCollateral) else
      var paid := WithMintFee(l, caller, MintFee(amount, bps));
      if !Covers(Total(CollateralsOf(l, v)), DebtOf(l, v) + amount) then (paid, BelowMinRatio) else
        (WithMint(paid, v, caller, DebtOf(l, v) + amount, amount), Ok)
  }

  ghost function Withdrawn(l: Ledgers, v: VaultId, id: Name, amount: nat): (r: (Ledgers, Reply)) {
    var c := CollateralsOf(l, v);
    if id !in c || c[id] < amount then (l, ExceedsDeposit) else
    if !Covers(Total(c) - amount, DebtOf(l, v)) then (l, BelowMinRatio) else
      (WithCollateral(l, v, SlotName(id), c[id] - amount), Ok)
  }

  function Burned(l: Ledgers, v: VaultId, caller: Address, amount: nat): (r: Ledgers) {
    l.(debt := l.debt[v[..31] := Max0(DebtOf(l, v) - amount)],
       minted := l.minted[caller := Max0(Get(l.minted, caller) - amount)],
       totalDebt := Max0(l.totalDebt - amount))
  }

  ghost function Liquidated(l: Ledgers, p: Params, v: VaultId): (r: (Ledgers, Reply)) {
    var worth, debt := Total(Worth(p, CollateralsOf(l, v))), DebtOf(l, v);
    if debt == 0 || 14_001 * debt <= 10_000 * worth then (l, NotLiquidatable) else
      (l.(debt := l.debt[v[..31] := 0], totalDebt := Max0(l.totalDebt - debt)), Ok)
  }

  // ---------- Pool calls ----------

  function PoolDeposited(l: Ledgers, caller: Address, amount: nat): (r: (Ledgers, Reply)) {
    if amount == 0 then (l, NotPositive) else
    if Get(l.minted, caller) > 0 then (l, HasDebt) else
      (l.(deposits := l.deposits[caller := Get(l.deposits, caller) + amount],
          totalDeposits := l.totalDeposits + amount, twoWayBalance := l.twoWayBalance + amount), Ok)
  }

  function PoolWithdrawn(l: Ledgers, caller: Address, amount: nat): (r: (Ledgers, Reply)) {
    if amount == 0 then (l, NotPositive) else
    if Get(l.deposits, caller) < amount then (l, ExceedsDeposit) else
      (l.(deposits := l.deposits[caller := Get(l.deposits, caller) - amount],
          totalDeposits := Abs(l.totalDeposits - amount), twoWayBalance := Abs(l.twoWayBalance - amount)), Ok)
  }

  // A claim by anyone empties the protocol's reward buckets.
  function RewardsClaimed(l: Ledgers, caller: Address): (r: (Ledgers, Reply)) {
    var due := Get(l.pending, caller) + Get(l.lpFees, caller);
    if due <= 0 then (l, NothingToClaim) else
      (l.(pending := l.pending[caller := 0], lpFees := l.lpFees[caller := 0],
          wayRewards := 0, swayRewards := 0, totalRewards := 0), Claimed(due))
  }

  // The vault keeps its debt: the pool only gives up balance and books a tenth as reward.
  function Absorbed(l: Ledgers, v: VaultId): (r: (Ledgers, Reply)) {
    var debt := DebtOf(l, v);
    if debt <= 0 then (l, NoDebt) else
    if l.twoWayBalance < debt then (l, PoolTooSmall) else
      var taken := l.(twoWayBalance := l.twoWayBalance - debt);
      (if l.totalDeposits > 0 then WithRewards(taken, Penalty(debt)) else taken, Ok)
  }

  // ---------- Runs ----------

  datatype Event =
    | Deposit(p: Params, v: VaultId, id: Name, amount: nat)
    | Mint(v: VaultId, caller: Address, amount: nat, bps: nat)
    | Withdraw(v: VaultId, id: Name, amount: nat)
    | Burn(v: VaultId, caller: Address, amount: nat)
    | Liquidate(p: Params, v: VaultId)
    | PoolDeposit(caller: Address, amount: nat)
    | PoolWithdraw(caller: Address, amount: nat)
    | Claim(caller: Address)
    | Absorb(v: VaultId)

  ghost function Result(l: Ledgers, e: Event): (r: (Ledgers, Reply)) {
    match e
    case Deposit(p, v, id, amount) => Deposited(l, p, v, id, amount)
    case Mint(v, caller, amount, bps) => Minted(l, v, caller, amount, bps)
    case Withdraw(v, id, amount) => Withdrawn(l, v, id, amount)
    case Burn(v, caller, amount) => (Burned(l, v, caller, amount), Ok)
    case Liquidate(p, v) => Liquidated(l, p, v)
    case PoolDeposit(caller, amount) => PoolDeposited(l, caller, amount)
    case PoolWithdraw(caller, amount) => PoolWithdrawn(l, caller, amount)
    case Claim(caller) => RewardsClaimed(l, caller)
    case Absorb(v) => Absorbed(l, v)
  }

  ghost function After(l: Ledgers, e: Event): (r: Ledgers) {
    Result(l, e).0
  }

  ghost function Final(l: Ledgers, es: seq<Event>): (r: Ledgers) {
    if es == [] then l else After(Final(l, es[..|es| - 1]), es[|es| - 1])
  }

  // ---------- Cached totals and exclusivity ----------

  ghost predicate NonNegative<K(!new)>(m: map<K, int>) {
    forall k :: k in m ==> 0 <= m[k]
  }

  // Names are as slot keys hold them, and no amount is negative.
  ghost predicate WellFormed(l: Ledgers) {
    && (forall x, n :: x in l.collateral && n in l.collateral[x] ==> SlotName(n) == n)
    && NonNegative(l.debt) && NonNegative(l.deposits) && NonNegative(l.minted)
    && (forall x :: x in l.collateral ==> NonNegative(l.collateral[x]))
    && 0 <= l.totalDebt && 0 <= l.totalDeposits && 0 <= l.twoWayBalance
    && 0 <= l.wayRewards && 0 <= l.swayRewards
  }

  // Nobody both owes minted 2WAY and provides liquidity.
  ghost predicate Exclusive(l: Ledgers) {
    forall a :: Get(l.minted, a) == 0 || Get(l.deposits, a) == 0
  }

  ghost predicate TotalsAgree(l: Ledgers) {
    && l.totalDeposits == Total(l.deposits)
    && l.wayRewards <= l.swayRewards && l.wayRewards + l.swayRewards == l.totalRewards
    && l.totalDebt <= Total(l.debt)
  }

  ghost predicate Consistent(l: Ledgers) {
    WellFormed(l) && Exclusive(l) && TotalsAgree(l)
  }

  lemma DepositConsistent(l: Ledgers, p: Params, v: VaultId, id: Name, amount: nat)
    requires Consistent(l)
    ensures Consistent(Deposited(l, p, v, id, amount).0)
  {
    SlotNameTwice(id);
  }

  lemma RewardsConsistent(l: Ledgers, reward: nat)
    requires Consistent(l)
    ensures Consistent(WithRewards(l, reward))
  {
  }

  lemma MintFeeConsistent(l: Ledgers, caller: Address, fee: nat)
    requires Consistent(l)
    ensures Consistent(WithMintFee(l, caller, fee))
  {
    RewardsConsistent(l, fee);
  }

  lemma RecordConsistent(l: Ledgers, v: VaultId, caller: Address, newDebt: nat, amount: nat)
    requires Consistent(l) && Get(l.deposits, caller) == 0 && newDebt == DebtOf(l, v) + amount
    ensures Consistent(WithMint(l, v, caller, newDebt, amount))
  {
    TotalUpdate(l.debt, v[..31], newDebt);
  }

  lemma MintConsistent(l: Ledgers, v: VaultId, caller: Address, amount: nat, bps: nat)
    requires Consistent(l)
    ensures Consistent(Minted(l, v, caller, amount, bps).0)
  {
    MintFeeConsistent(l, caller, MintFee(amount, bps));
    if Minted(l, v, caller, amount, bps).1 == Ok {
      RecordConsistent(WithMintFee(l, caller, MintFee(amount, bps)), v, caller, DebtOf(l, v) + amount, amount);
    }
  }

  lemma WithdrawConsistent(l: Ledgers, v: VaultId, id: Name, amount: nat)
    requires Consistent(l)
    ensures Consistent(Withdrawn(l, v, id, amount).0)
  {
  }

  lemma BurnConsistent(l: Ledgers, v: VaultId, caller: Address, amount: nat)
    requires Consistent(l)
    ensures Consistent(Burned(l, v, caller, amount))
  {
    TotalUpdate(l.debt, v[..31], Max0(DebtOf(l, v) - amount));
    TotalNonNegative(Burned(l, v, caller, amount).debt);
  }

  lemma LiquidateConsistent(l: Ledgers, p: Params, v: VaultId)
    requires Consistent(l)
    ensures Consistent(Liquidated(l, p, v).0)
  {
    TotalUpdate(l.debt, v[..31], 0);
    TotalNonNegative(l.debt[v[..31] := 0]);
  }

  lemma PoolDepositConsistent(l: Ledgers, caller: Address, amount: nat)
    requires Consistent(l)
    ensures Consistent(PoolDeposited(l, caller, amount).0)
  {
    TotalUpdate(l.deposits, caller, Get(l.deposits, caller) + amount);
  }

  lemma PoolWithdrawConsistent(l: Ledgers, caller: Address, amount: nat)
    requires Consistent(l)
    ensures Consistent(PoolWithdrawn(l, caller, amount).0)
  {
    TotalUpdate(l.deposits, caller, Get(l.deposits, caller) - amount);
    TotalNonNegative(l.deposits);
  }

  lemma ClaimConsistent(l: Ledgers, caller: Address)
    requires Consistent(l)
    ensures Consistent(RewardsClaimed(l, caller).0)
  {
  }

  lemma TakenConsistent(l: Ledgers, debt: nat)
    requires Consistent(l) && debt <= l.twoWayBalance
    ensures Consistent(l.(twoWayBalance := l.twoWayBalance - debt))
  {
  }

  lemma AbsorbConsistent(l: Ledgers, v: VaultId)
    requires Consistent(l)
    ensures Consistent(Absorbed(l, v).0)
  {
    if Absorbed(l, v).1 == Ok {
      TakenConsistent(l, DebtOf(l, v));
      RewardsConsistent(l.(twoWayBalance := l.twoWayBalance - DebtOf(l, v)), Penalty(DebtOf(l, v)));
    }
  }

  lemma StepConsistent(l: Ledgers, e: Event)
    requires Consistent(l)
    ensures Consistent(After(l, e))
  {
    match e {
      case Deposit(p, v, id, amount) => DepositConsistent(l, p, v, id, amount);
      case Mint(v, caller, amount, bps) => MintConsistent(l, v, caller, amount, bps);
      case Withdraw(v, id, amount) => WithdrawConsistent(l, v, id, amount);
      case Burn(v, caller, amount) => BurnConsistent(l, v, caller, amount);
      case Liquidate(p, v) => LiquidateConsistent(l, p, v);
      case PoolDeposit(caller, amount) => PoolDepositConsistent(l, caller, amount);
      case PoolWithdraw(caller, amount) => PoolWithdrawConsistent(l, caller, amount);
      case Claim(caller) => ClaimConsistent(l, caller);
      case Absorb(v) => AbsorbConsistent(l, v);
    }
  }

  // In every reachable state the cached pool and reward totals are the sums they stand for, odd
  // units of reward have gone to SWAY, the cached debt never exceeds the sum of debts, and nobody both
  // mints and provides liquidity.
  lemma {:induction false} RunConsistent(l: Ledgers, es: seq<Event>)
    requires Consistent(l)
    ensures Consistent(Final(l, es))
  {
    if es != [] {
      RunConsistent(l, es[..|es| - 1]);
      StepConsistent(Final(l, es[..|es| - 1]), es[|es| - 1]);
    }
  }

  // ---------- Exact debt total ----------

  // A burn keeps an exact debt total exact precisely when it does not exceed the debt of its vault,
  // or that vault holds all the debt there is.
  lemma BurnKeepsExactTotal(l: Ledgers, v: VaultId, caller: Address, amount: nat)
    requires Consistent(l) && l.totalDebt == Total(l.debt)
    ensures Burned(l, v, caller, amount).totalDebt == Total(Burned(l, v, caller, amount).debt)
       <==> amount <= DebtOf(l, v) || DebtOf(l, v) == Total(l.debt)
  {
    TotalUpdate(l.debt, v[..31], Max0(DebtOf(l, v) - amount));
    TotalNonNegative(l.debt);
  }

  // No burn of the run exceeds the debt of its vault.
  ghost predicate BurnsWithinDebt(l: Ledgers, es: seq<Event>) {
    es == [] ||
    var before, e := es[..|es| - 1], es[|es| - 1];
    BurnsWithinDebt(l, before) && (e.Burn? ==> e.amount <= DebtOf(Final(l, before), e.v))
  }

  lemma MintDebtTotal(l: Ledgers, v: VaultId, caller: Address, amount: nat, bps: nat)
    ensures var r := Minted(l, v, caller, amount, bps).0;
            r.totalDebt - Total(r.debt) == l.totalDebt - Total(l.debt)
  {
    TotalUpdate(l.debt, v[..31], DebtOf(l, v) + amount);
  }

  lemma LiquidateDebtTotal(l: Ledgers, p: Params, v: VaultId)
    requires NonNegative(l.debt) && l.totalDebt == Total(l.debt)
    ensures var r := Liquidated(l, p, v).0; r.totalDebt == Total(r.debt)
  {
    TotalUpdate(l.debt, v[..31], 0);
    TotalNonNegative(l.debt);
  }

  ghost predicate TouchesDebt(e: Event) {
    e.Mint? || e.Burn? || e.Liquidate?
  }

  lemma DebtUntouched(l: Ledgers, e: Event)
    requires !TouchesDebt(e)
    ensures After(l, e).debt == l.debt && After(l, e).totalDebt == l.totalDebt
  {
  }

  ghost predicate DebtExact(l: Ledgers) {
    l.totalDebt == Total(l.debt)
  }

  // The call is not a burn of more than its vault owes, unless that vault owes all there is.
  ghost predicate BurnFits(l: Ledgers, e: Event) {
    e.Burn? ==> e.amount <= DebtOf(l, e.v) || DebtOf(l, e.v) == Total(l.debt)
  }

  lemma DebtTotalStep(l: Ledgers, e: Event)
    requires Consistent(l) && DebtExact(l)
    ensures DebtExact(After(l, e)) <==> BurnFits(l, e)
  {
    match e {
      case Mint(v, caller, amount, bps) => MintDebtTotal(l, v, caller, amount, bps);
      case Burn(v, caller, amount) => BurnKeepsExactTotal(l, v, caller, amount);
      case Liquidate(p, v) => LiquidateDebtTotal(l, p, v);
      case _ => DebtUntouched(l, e);
    }
  }

  ghost predicate AlwaysDebtExact(l: Ledgers, es: seq<Event>) {
    DebtExact(Final(l, es)) && (es == [] || AlwaysDebtExact(l, es[..|es| - 1]))
  }

  ghost predicate BurnsFit(l: Ledgers, es: seq<Event>) {
    es == [] || (BurnsFit(l, es[..|es| - 1]) && BurnFits(Final(l, es[..|es| - 1]), es[|es| - 1]))
  }

  // The cached debt is exact in every state of a run exactly when every burn of the run fits.
  lemma {:induction false} RunDebtExact(l: Ledgers, es: seq<Event>)
    requires Consistent(l) && DebtExact(l)
    ensures AlwaysDebtExact(l, es) <==> BurnsFit(l, es)
  {
    if es != [] {
      var before := es[..|es| - 1];
      RunDebtExact(l, before);
      RunConsistent(l, before);
      if AlwaysDebtExact(l, before) {
        DebtTotalStep(Final(l, before), es[|es| - 1]);
      }
    }
  }

  lemma {:induction false} DebtTotalExact(l: Ledgers, es: seq<Event>)
    requires Consistent(l) && l.totalDebt == Total(l.debt) && BurnsWithinDebt(l, es)
    ensures Final(l, es).totalDebt == Total(Final(l, es).debt)
  {
    if es != [] {
      var before := es[..|es| - 1];
      DebtTotalExact(l, before);
      RunConsistent(l, before);
      DebtTotalStep(Final(l, before), es[|es| - 1]);
    }
  }

  // ---------- Locks ----------

  // The locks together are at least the debts.
  ghost predicate Locked(l: Ledgers) {
    Total(l.debt) <= Total(l.minted)
  }

  function Min(x: int, y: int): (r: int) {
    if x < y then x else y
  }

  lemma MintWrites(l: Ledgers, v: VaultId, caller: Address, amount: nat, bps: nat)
    ensures var r := Minted(l, v, caller, amount, bps);
            && r.0.debt == (if r.1 == Ok then l.debt[v[..31] := DebtOf(l, v) + amount] else l.debt)
            && r.0.minted == (if r.1 == Ok then l.minted[caller := Get(l.minted, caller) + amount] else l.minted)
  {
  }

  lemma MintLocks(l: Ledgers, v: VaultId, caller: Address, amount: nat, bps: nat)
    ensures var r := Minted(l, v, caller, amount, bps).0;
            Total(r.debt) - Total(l.debt) == Total(r.minted) - Total(l.minted)
  {
    MintWrites(l, v, caller, amount, bps);
    TotalUpdate(l.debt, v[..31], DebtOf(l, v) + amount);
    TotalUpdate(l.minted, caller, Get(l.minted, caller) + amount);
  }

  lemma BurnUnlocks(l: Ledgers, v: VaultId, caller: Address, amount: nat)
    requires Consistent(l)
    ensures var r := Burned(l, v, caller, amount);
            && Total(r.debt) == Total(l.debt) - Min(amount, DebtOf(l, v))
            && Total(r.minted) == Total(l.minted) - Min(amount, Get(l.minted, caller))
  {
    TotalUpdate(l.debt, v[..31], Max0(DebtOf(l, v) - amount));
    TotalUpdate(l.minted, caller, Max0(Get(l.minted, caller) - amount));
  }

  // A liquidation takes the whole debt off its vault and nothing else.
  lemma LiquidationClears(l: Ledgers, p: Params, v: VaultId)
    requires Consistent(l) && Liquidated(l, p, v).1 == Ok
    ensures var r := Liquidated(l, p, v).0;
            && DebtOf(r, v) == 0 && Total(r.debt) == Total(l.debt) - DebtOf(l, v)
            && r == l.(debt := r.debt, totalDebt := r.totalDebt)
  {
    TotalUpdate(l.debt, v[..31], 0);
  }

  lemma LocksUntouched(l: Ledgers, e: Event)
    requires !TouchesDebt(e)
    ensures After(l, e).minted == l.minted
  {
  }

  // The call is not a burn that frees more lock than the debt it repays and the surplus of locks.
  ghost predicate BurnLocked(l: Ledgers, e: Event) {
    e.Burn? ==>
      Min(e.amount, Get(l.minted, e.caller)) <= Min(e.amount, DebtOf(l, e.v)) + (Total(l.minted) - Total(l.debt))
  }

  lemma LockStep(l: Ledgers, e: Event)
    requires Consistent(l) && Locked(l)
    ensures Locked(After(l, e)) <==> BurnLocked(l, e)
  {
    match e {
      case Mint(v, caller, amount, bps) => MintLocks(l, v, caller, amount, bps);
      case Burn(v, caller, amount) => BurnUnlocks(l, v, caller, amount);
      case Liquidate(p, v) => if Liquidated(l, p, v).1 == Ok { LiquidationClears(l, p, v); }
      case _ =>
        DebtUntouched(l, e);
        LocksUntouched(l, e);
    }
  }

  ghost predicate AlwaysLocked(l: Ledgers, es: seq<Event>) {
    Locked(Final(l, es)) && (es == [] || AlwaysLocked(l, es[..|es| - 1]))
  }

  ghost predicate BurnsLocked(l: Ledgers, es: seq<Event>) {
    es == [] || (BurnsLocked(l, es[..|es| - 1]) && BurnLocked(Final(l, es[..|es| - 1]), es[|es| - 1]))
  }

  // The locks are at least the debts in every state of a run exactly when no burn of the run frees more
  // lock than the debt it repays and the surplus there was.
  lemma {:induction false} RunLocked(l: Ledgers, es: seq<Event>)
    requires Consistent(l) && Locked(l)
    ensures AlwaysLocked(l, es) <==> BurnsLocked(l, es)
  {
    if es != [] {
      var before := es[..|es| - 1];
      RunLocked(l, before);
      RunConsistent(l, before);
      if AlwaysLocked(l, before) {
        LockStep(Final(l, before), es[|es| - 1]);
      }
    }
  }

  // While no burn exceeds the debt of its vault, every unit of debt keeps somebody from providing
  // liquidity.
  lemma {:induction false} DebtIsLocked(l: Ledgers, es: seq<Event>)
    requires Consistent(l) && Locked(l) && BurnsWithinDebt(l, es)
    ensures Locked(Final(l, es))
  {
    if es != [] {
      var before := es[..|es| - 1];
      DebtIsLocked(l, before);
      RunConsistent(l, before);
      LockStep(Final(l, before), es[|es| - 1]);
    }
  }

  // ---------- Fees ----------

  // What a call books for its caller, and what it pays out.
  ghost function FeeOn(l: Ledgers, e: Event): (n: int) {
    if e.Mint? && (Result(l, e).1 == Ok || Result(l, e).1 == BelowMinRatio) then MintFee(e.amount, e.bps) else 0
  }

  ghost function PaidOn(l: Ledgers, e: Event): (n: int) {
    if e.Claim? && Result(l, e).1.Claimed? then Result(l, e).1.amount else 0
  }

  ghost function TotalFees(l: Ledgers, es: seq<Event>): (n: int) {
    if es == [] then 0 else TotalFees(l, es[..|es| - 1]) + FeeOn(Final(l, es[..|es| - 1]), es[|es| - 1])
  }

  ghost function TotalPaid(l: Ledgers, es: seq<Event>): (n: int) {
    if es == [] then 0 else TotalPaid(l, es[..|es| - 1]) + PaidOn(Final(l, es[..|es| - 1]), es[|es| - 1])
  }

  // What callers may still claim.
  ghost function Claimable(l: Ledgers): (n: int) {
    Total(l.lpFees) + Total(l.pending)
  }

  lemma FeeBooked(l: Ledgers, caller: Address, fee: nat)
    ensures Claimable(WithMintFee(l, caller, fee)) == Claimable(l) + fee
  {
    TotalUpdate(l.lpFees, caller, Get(l.lpFees, caller) + fee);
  }

  lemma MintBooksFee(l: Ledgers, v: VaultId, caller: Address, amount: nat, bps: nat)
    ensures Claimable(Minted(l, v, caller, amount, bps).0) == Claimable(l) + FeeOn(l, Mint(v, caller, amount, bps))
  {
    FeeBooked(l, caller, MintFee(amount, bps));
    var paid := WithMintFee(l, caller, MintFee(amount, bps));
    var r := Minted(l, v, caller, amount, bps);
    if r.1 == Ok {
      assert r.0.lpFees == paid.lpFees && r.0.pending == paid.pending;
    }
  }

  lemma ClaimPays(l: Ledgers, caller: Address)
    ensures Claimable(RewardsClaimed(l, caller).0) == Claimable(l) - PaidOn(l, Claim(caller))
  {
    TotalUpdate(l.lpFees, caller, 0);
    TotalUpdate(l.pending, caller, 0);
  }

  lemma ClaimsUntouched(l: Ledgers, e: Event)
    requires !e.Mint? && !e.Claim?
    ensures Claimable(After(l, e)) == Claimable(l)
  {
  }

  // Over every run, what was claimed and what is still claimable is what mints have paid in fees:
  // no fee is lost and none is paid out twice.
  lemma {:induction false} FeesConserved(l: Ledgers, es: seq<Event>)
    ensures Claimable(Final(l, es)) + TotalPaid(l, es) == Claimable(l) + TotalFees(l, es)
  {
    if es != [] {
      var state := Final(l, es[..|es| - 1]);
      FeesConserved(l, es[..|es| - 1]);
      match es[|es| - 1] {
        case Mint(v, caller, amount, bps) => MintBooksFee(state, v, caller, amount, bps);
        case Claim(caller) => ClaimPays(state, caller);
        case e => ClaimsUntouched(state, e);
      }
    }
  }

  // ---------- Reward buckets ----------

  // The reward buckets hold what callers may still claim.
  ghost predicate BucketsCover(l: Ledgers) {
    Claimable(l) <= l.totalRewards
  }

  ghost predicate ClaimsNonNegative(l: Ledgers) {
    NonNegative(l.lpFees) && NonNegative(l.pending)
  }

  lemma StepClaims(l: Ledgers, e: Event)
    requires ClaimsNonNegative(l)
    ensures ClaimsNonNegative(After(l, e))
  {
  }

  lemma {:induction false} RunClaims(l: Ledgers, es: seq<Event>)
    requires ClaimsNonNegative(l)
    ensures ClaimsNonNegative(Final(l, es))
  {
    if es != [] {
      RunClaims(l, es[..|es| - 1]);
      StepClaims(Final(l, es[..|es| - 1]), es[|es| - 1]);
    }
  }

  // A claim empties the buckets of all: they still hold what the others may claim exactly when there is
  // nothing left for others.
  lemma ClaimCovers(l: Ledgers, caller: Address)
    requires ClaimsNonNegative(l) && RewardsClaimed(l, caller).1.Claimed?
    ensures BucketsCover(RewardsClaimed(l, caller).0) <==> RewardsClaimed(l, caller).1.amount == Claimable(l)
  {
    ClaimPays(l, caller);
    var r := RewardsClaimed(l, caller).0;
    TotalNonNegative(r.lpFees);
    TotalNonNegative(r.pending);
  }

  lemma MintCovers(l: Ledgers, v: VaultId, caller: Address, amount: nat, bps: nat)
    requires BucketsCover(l)
    ensures BucketsCover(Minted(l, v, caller, amount, bps).0)
  {
    MintBooksFee(l, v, caller, amount, bps);
  }

  lemma OthersCover(l: Ledgers, e: Event)
    requires BucketsCover(l) && !e.Mint? && !e.Claim?
    ensures BucketsCover(After(l, e))
  {
    ClaimsUntouched(l, e);
  }

  // The call is not a claim that leaves something for others.
  ghost predicate TakesAll(l: Ledgers, e: Event) {
    e.Claim? && Result(l, e).1.Claimed? ==> Result(l, e).1.amount == Claimable(l)
  }

  lemma CoverStep(l: Ledgers, e: Event)
    requires ClaimsNonNegative(l) && BucketsCover(l)
    ensures BucketsCover(After(l, e)) <==> TakesAll(l, e)
  {
    match e {
      case Mint(v, caller, amount, bps) => MintCovers(l, v, caller, amount, bps);
      case Claim(caller) => if RewardsClaimed(l, caller).1.Claimed? { ClaimCovers(l, caller); }
      case _ => OthersCover(l, e);
    }
  }

  ghost predicate AlwaysCovered(l: Ledgers, es: seq<Event>) {
    BucketsCover(Final(l, es)) && (es == [] || AlwaysCovered(l, es[..|es| - 1]))
  }

  ghost predicate ClaimsTakeAll(l: Ledgers, es: seq<Event>) {
    es == [] ||
    (ClaimsTakeAll(l, es[..|es| - 1]) && TakesAll(Final(l, es[..|es| - 1]), es[|es| - 1]))
  }

  // The buckets hold what is claimable in every state of a run exactly when each claim of the run took
  // all there was to claim.
  lemma {:induction false} RunCovered(l: Ledgers, es: seq<Event>)
    requires ClaimsNonNegative(l) && BucketsCover(l)
    ensures AlwaysCovered(l, es) <==> ClaimsTakeAll(l, es)
  {
    if es != [] {
      var before := es[..|es| - 1];
      RunCovered(l, before);
      RunClaims(l, before);
      if AlwaysCovered(l, before) {
        CoverStep(Final(l, before), es[|es| - 1]);
      }
    }
  }

  // ---------- Absorbing again ----------

  ghost function AfterAbsorbs(l: Ledgers, v: VaultId, n: nat): (r: Ledgers) {
    if n == 0 then l else Absorbed(AfterAbsorbs(l, v, n - 1), v).0
  }

  lemma AbsorbTakes(l: Ledgers, v: VaultId, debt: int)
    requires 0 < debt == DebtOf(l, v)
    ensures var r := Absorbed(l, v).0;
            && DebtOf(r, v) == debt
            && r.twoWayBalance == l.twoWayBalance - (if l.twoWayBalance < debt then 0 else debt)
  {
  }

  lemma {:induction false} AbsorbsTake(l: Ledgers, v: VaultId, debt: int, n: nat)
    requires 0 < debt == DebtOf(l, v)
    ensures var r := AfterAbsorbs(l, v, n);
            && DebtOf(r, v) == debt
            && if debt * n <= l.twoWayBalance || n == 0
               then r.twoWayBalance == l.twoWayBalance - debt * n else r.twoWayBalance < debt
  {
    if n > 0 {
      AbsorbsTake(l, v, debt, n - 1);
      AbsorbTakes(AfterAbsorbs(l, v, n - 1), v, debt);
      Distribute(debt, n - 1, 1);
    }
  }

  // The vault keeps its debt, so it can be absorbed again: the next absorption after n succeeds exactly
  // when the pool held n + 1 times the debt.
  lemma AbsorbedAgain(l: Ledgers, v: VaultId, n: nat)
    requires 0 < DebtOf(l, v)
    ensures Absorbed(AfterAbsorbs(l, v, n), v).1 == Ok <==> (n + 1) * DebtOf(l, v) <= l.twoWayBalance
  {
    AbsorbsTake(l, v, DebtOf(l, v), n);
    Distribute(DebtOf(l, v), n, 1);
    MulMonotone(DebtOf(l, v), 0, n);
  }

  // ---------- Pool balance ----------

  // What a call takes out of the pool to absorb debt.
  ghost function AbsorbedBy(l: Ledgers, e: Event): (n: int) {
    if e.Absorb? && Result(l, e).1 == Ok then DebtOf(l, e.v) else 0
  }

  ghost function TotalAbsorbed(l: Ledgers, es: seq<Event>): (n: int) {
    if es == [] then 0 else
      TotalAbsorbed(l, es[..|es| - 1]) + AbsorbedBy(Final(l, es[..|es| - 1]), es[|es| - 1])
  }

  // A withdrawal the pool cannot cover does not fail: the balance flips its sign. The sum of balance
  // and absorbed debt keeps step with deposits exactly when the pool covers the withdrawal.
  lemma WithdrawalKeepsStep(l: Ledgers, caller: Address, amount: nat, absorbed: int)
    requires Consistent(l) && l.twoWayBalance + absorbed == l.totalDeposits
    requires PoolWithdrawn(l, caller, amount).1 == Ok
    ensures var r := PoolWithdrawn(l, caller, amount).0;
            r.twoWayBalance + absorbed == r.totalDeposits <==> amount <= l.twoWayBalance
  {
    TotalNonNegative(l.deposits);
  }

  ghost predicate WithdrawalsCovered(l: Ledgers, es: seq<Event>) {
    es == [] ||
    var before, e := es[..|es| - 1], es[|es| - 1];
    WithdrawalsCovered(l, before) && (e.PoolWithdraw? ==> e.amount <= Final(l, before).twoWayBalance)
  }

  lemma PoolUntouched(l: Ledgers, e: Event)
    requires !e.PoolDeposit? && !e.PoolWithdraw? && !e.Absorb?
    ensures After(l, e).twoWayBalance == l.twoWayBalance && After(l, e).totalDeposits == l.totalDeposits
  {
  }

  // The call is not a withdrawal that the pool cannot cover.
  ghost predicate WithdrawalCovered(l: Ledgers, e: Event) {
    e.PoolWithdraw? && Result(l, e).1 == Ok ==> e.amount <= l.twoWayBalance
  }

  lemma PoolBalanceStep(l: Ledgers, e: Event, absorbed: int)
    requires Consistent(l) && l.twoWayBalance + absorbed == l.totalDeposits
    ensures After(l, e).twoWayBalance + absorbed + AbsorbedBy(l, e) == After(l, e).totalDeposits
       <==> WithdrawalCovered(l, e)
  {
    match e {
      case PoolDeposit(_, _) =>
      case PoolWithdraw(caller, amount) =>
        if Result(l, e).1 == Ok {
          WithdrawalKeepsStep(l, caller, amount, absorbed);
        }
      case Absorb(_) =>
      case _ => PoolUntouched(l, e);
    }
  }

  ghost predicate InStep(l: Ledgers, es: seq<Event>) {
    Final(l, es).twoWayBalance + TotalAbsorbed(l, es) == Final(l, es).totalDeposits
  }

  ghost predicate AlwaysInStep(l: Ledgers, es: seq<Event>) {
    InStep(l, es) && (es == [] || AlwaysInStep(l, es[..|es| - 1]))
  }

  ghost predicate AllCovered(l: Ledgers, es: seq<Event>) {
    es == [] || (AllCovered(l, es[..|es| - 1]) && WithdrawalCovered(Final(l, es[..|es| - 1]), es[|es| - 1]))
  }

  // Balance and absorbed debt make up the deposits in every state of a run exactly when the pool covered
  // every withdrawal that succeeded.
  lemma {:induction false} RunPoolExact(l: Ledgers, es: seq<Event>)
    requires Consistent(l) && l.twoWayBalance == l.totalDeposits
    ensures AlwaysInStep(l, es) <==> AllCovered(l, es)
  {
    if es != [] {
      var before := es[..|es| - 1];
      RunPoolExact(l, before);
      RunConsistent(l, before);
      if AlwaysInStep(l, before) {
        PoolBalanceStep(Final(l, before), es[|es| - 1], TotalAbsorbed(l, before));
      }
    }
  }

  // While the pool covers every withdrawal, its balance and the absorbed debt make up the deposits.
  lemma {:induction false} PoolBalanceExact(l: Ledgers, es: seq<Event>)
    requires Consistent(l) && l.twoWayBalance == l.totalDeposits && WithdrawalsCovered(l, es)
    ensures InStep(l, es)
  {
    if es != [] {
      var before := es[..|es| - 1];
      PoolBalanceExact(l, before);
      RunConsistent(l, before);
      PoolBalanceStep(Final(l, before), es[|es| - 1], TotalAbsorbed(l, before));
    }
  }

  // ---------- Collateralisation ----------

  ghost predicate Safe(l: Ledgers, v: VaultId) {
    Covers(Total(CollateralsOf(l, v)), DebtOf(l, v))
  }

  // The code's ratio test, with its rounded division, is exact.
  lemma RatioTest(collateral: nat, debt: nat)
    requires 0 < debt
    ensures 13_000 <= collateral * 10_000 / debt <==> Covers(collateral, debt)
    ensures 14_000 < collateral * 10_000 / debt <==> 14_001 * debt <= 10_000 * collateral
  {
    QuotientAtLeast(collateral * 10_000, debt, 13_000);
    QuotientAtLeast(collateral * 10_000, debt, 14_001);
  }

  // A deposit overwrites. It keeps every safe vault with the same stored amount safe exactly when it
  // does not name less than what is stored.
  lemma DepositSafety(v: VaultId, p: Params, id: Name, stored: nat, amount: nat)
    requires id in p.accepted && SlotName(id) != []
    ensures (forall l: Ledgers :: WellFormed(l) && Get(CollateralsOf(l, v), SlotName(id)) == stored && Safe(l, v) ==>
               Safe(Deposited(l, p, v, id, amount).0, v))
       <==> stored <= amount
  {
    var name := SlotName(id);
    forall l: Ledgers
      ensures Total(CollateralsOf(Deposited(l, p, v, id, amount).0, v))
           == Total(CollateralsOf(l, v)) - Get(CollateralsOf(l, v), name) + amount
    {
      TotalUpdate(CollateralsOf(l, v), name, amount);
    }
    if amount < stored {
      var other: Name := if name == [1] then [2] else [1];
      var c := map[other := 12 * stored];
      TotalUpdate(map[], other, 12 * stored);
      TotalUpdate(c, name, stored);
      var tight := EMPTY.(collateral := map[v[..20] := c[name := stored]], debt := map[v[..31] := 10 * stored]);
      assert CollateralsOf(tight, v) == c[name := stored];
      SlotNameTwice(id);
      assert SlotName([1]) == [1] && SlotName([2]) == [2];
      assert Total(c[name := stored]) == 13 * stored;
      assert WellFormed(tight) && Safe(tight, v) && Get(CollateralsOf(tight, v), name) == stored;
      assert !Safe(Deposited(tight, p, v, id, amount).0, v);
    }
  }

  // Vaults whose ids differ in the 31 bytes that key their debt differ in the 20 bytes that key their
  // collateral.
  ghost predicate Distinct(vs: set<VaultId>) {
    forall v, w :: v in vs && w in vs && v[..31] != w[..31] ==> v[..20] != w[..20]
  }

  ghost predicate AllSafe(l: Ledgers, vs: set<VaultId>) {
    forall v :: v in vs ==> Safe(l, v)
  }

  // The call is about one of the vaults, and if it is a deposit, it does not name less than is stored.
  ghost predicate Proper(l: Ledgers, vs: set<VaultId>, e: Event) {
    match e
    case Deposit(_, v, id, amount) => v in vs && Get(CollateralsOf(l, v), SlotName(id)) <= amount
    case Mint(v, _, _, _) => v in vs
    case Withdraw(v, _, _) => v in vs
    case Burn(v, _, _) => v in vs
    case Liquidate(_, v) => v in vs
    case _ => true
  }

  ghost predicate ProperRun(l: Ledgers, vs: set<VaultId>, es: seq<Event>) {
    es == [] ||
    var before, e := es[..|es| - 1], es[|es| - 1];
    ProperRun(l, vs, before) && Proper(Final(l, before), vs, e)
  }

  lemma DepositSafe(l: Ledgers, p: Params, v: VaultId, id: Name, amount: nat)
    requires Safe(l, v) && Get(CollateralsOf(l, v), SlotName(id)) <= amount
    ensures Safe(Deposited(l, p, v, id, amount).0, v)
  {
    TotalUpdate(CollateralsOf(l, v), SlotName(id), amount);
  }

  lemma WithdrawSafe(l: Ledgers, v: VaultId, id: Name, amount: nat)
    requires WellFormed(l) && Safe(l, v)
    ensures Safe(Withdrawn(l, v, id, amount).0, v)
  {
    var c := CollateralsOf(l, v);
    if id in c {
      assert SlotName(id) == id;
      TotalUpdate(c, id, c[id] - amount);
    }
  }

  // The vault a call is about, if any.
  function Subject(e: Event): (vs: set<VaultId>) {
    match e
    case Deposit(_, v, _, _) => {v}
    case Mint(v, _, _, _) => {v}
    case Withdraw(v, _, _) => {v}
    case Burn(v, _, _) => {v}
    case Liquidate(_, v) => {v}
    case _ => {}
  }

  lemma MintSafe(l: Ledgers, v: VaultId, caller: Address, amount: nat, bps: nat)
    requires Safe(l, v)
    ensures Safe(Minted(l, v, caller, amount, bps).0, v)
  {
  }

  lemma RepaymentSafe(l: Ledgers, p: Params, v: VaultId, caller: Address, amount: nat)
    requires WellFormed(l) && Safe(l, v)
    ensures Safe(Burned(l, v, caller, amount), v) && Safe(Liquidated(l, p, v).0, v)
  {
    TotalNonNegative(CollateralsOf(l, v));
  }

  lemma SubjectSafe(l: Ledgers, vs: set<VaultId>, e: Event, v: VaultId)
    requires Consistent(l) && Safe(l, v) && Proper(l, vs, e) && v in Subject(e)
    ensures Safe(After(l, e), v)
  {
    match e {
      case Deposit(p, _, id, amount) => DepositSafe(l, p, v, id, amount);
      case Mint(_, caller, amount, bps) => MintSafe(l, v, caller, amount, bps);
      case Withdraw(_, id, amount) => WithdrawSafe(l, v, id, amount);
      case Burn(_, caller, amount) => RepaymentSafe(l, Params({}, map[], map[]), v, caller, amount);
      case Liquidate(p, _) => RepaymentSafe(l, p, v, [], 0);
    }
  }

  ghost predicate SameVault(l: Ledgers, r: Ledgers, v: VaultId) {
    CollateralsOf(r, v) == CollateralsOf(l, v) && DebtOf(r, v) == DebtOf(l, v)
  }

  lemma OtherCollateral(l: Ledgers, w: VaultId, name: Name, amount: int, v: VaultId)
    requires w[..20] != v[..20]
    ensures SameVault(l, WithCollateral(l, w, name, amount), v)
  {
  }

  // At most the debt slot k has been written.
  ghost predicate OnlyDebtAt(l: Ledgers, r: Ledgers, k: seq<byte>) {
    r.collateral == l.collateral && (r.debt == l.debt || (k in r.debt && r.debt == l.debt[k := r.debt[k]]))
  }

  lemma OtherDebt(l: Ledgers, r: Ledgers, w: VaultId, v: VaultId)
    requires w[..20] != v[..20] && OnlyDebtAt(l, r, w[..31])
    ensures SameVault(l, r, v)
  {
    assert w[..20] == w[..31][..20] && v[..20] == v[..31][..20];
  }

  lemma MintOnlyDebt(l: Ledgers, w: VaultId, caller: Address, amount: nat, bps: nat)
    ensures OnlyDebtAt(l, Minted(l, w, caller, amount, bps).0, w[..31])
  {
  }

  lemma RepaymentOnlyDebt(l: Ledgers, p: Params, w: VaultId, caller: Address, amount: nat)
    ensures OnlyDebtAt(l, Burned(l, w, caller, amount), w[..31]) && OnlyDebtAt(l, Liquidated(l, p, w).0, w[..31])
  {
  }

  lemma PoolLeavesVaults(l: Ledgers, e: Event, v: VaultId)
    requires Subject(e) == {}
    ensures SameVault(l, After(l, e), v)
  {
  }

  lemma OthersUntouched(l: Ledgers, e: Event, v: VaultId)
    requires forall w :: w in Subject(e) ==> w[..20] != v[..20]
    ensures SameVault(l, After(l, e), v)
  {
    match e {
      case Deposit(_, w, id, amount) => OtherCollateral(l, w, SlotName(id), amount, v);
      case Withdraw(w, id, amount) =>
        OtherCollateral(l, w, SlotName(id), Get(CollateralsOf(l, w), id) - amount, v);
      case Mint(w, caller, amount, bps) =>
        MintOnlyDebt(l, w, caller, amount, bps);
        OtherDebt(l, After(l, e), w, v);
      case Burn(w, caller, amount) =>
        RepaymentOnlyDebt(l, Params({}, map[], map[]), w, caller, amount);
        OtherDebt(l, After(l, e), w, v);
      case Liquidate(p, w) =>
        RepaymentOnlyDebt(l, p, w, [], 0);
        OtherDebt(l, After(l, e), w, v);
      case _ => PoolLeavesVaults(l, e, v);
    }
  }

  // Ids that agree on both keys are one vault.
  lemma OneVault(l: Ledgers, v: VaultId, w: VaultId)
    requires v[..20] == w[..20] && v[..31] == w[..31]
    ensures Safe(l, v) <==> Safe(l, w)
  {
  }

  lemma StepSafe(l: Ledgers, vs: set<VaultId>, e: Event)
    requires Consistent(l) && Distinct(vs) && AllSafe(l, vs) && Proper(l, vs, e)
    ensures AllSafe(After(l, e), vs)
  {
    forall v | v in vs ensures Safe(After(l, e), v) {
      if w :| w in Subject(e) && w[..20] == v[..20] {
        assert w in vs;
        SubjectSafe(l, vs, e, w);
        OneVault(After(l, e), v, w);
      } else {
        OthersUntouched(l, e, v);
      }
    }
  }

  // On every proper run over distinct vaults, each vault stays collateralised at 130% in every
  // reachable state.
  lemma {:induction false} RunSafe(l: Ledgers, vs: set<VaultId>, es: seq<Event>)
    requires Consistent(l) && Distinct(vs) && AllSafe(l, vs) && ProperRun(l, vs, es)
    ensures AllSafe(Final(l, es), vs)
  {
    if es != [] {
      var before := es[..|es| - 1];
      RunSafe(l, vs, before);
      RunConsistent(l, before);
      StepSafe(Final(l, before), vs, es[|es| - 1]);
    }
  }

  // No proper run over the vaults, from any consistent ledgers that cover them, uncovers one.
  ghost predicate AlwaysSafe(vs: set<VaultId>) {
    forall l: Ledgers, es: seq<Event> ::
      Consistent(l) && AllSafe(l, vs) && ProperRun(l, vs, es) ==> AllSafe(Final(l, es), vs)
  }

  // Ledgers in which a vault with debt 100 holds 130 of one collateral.
  function Tight(v: VaultId, name: Name): (l: Ledgers) {
    EMPTY.(collateral := map[v[..20] := map[name := 130]], debt := map[v[..31] := 100])
  }

  // Two vaults that share the first 20 bytes share their collateral: withdrawing it through the
  // one without debt succeeds and leaves the other uncovered.
  lemma SharedPrefixBreaks(v: VaultId, w: VaultId, name: Name)
    requires v[..20] == w[..20] && v[..31] != w[..31] && name != [] && SlotName(name) == name
    ensures var l := Tight(v, name);
            && Safe(l, v) && Safe(l, w)
            && Result(l, Withdraw(w, name, 130)).1 == Ok && !Safe(After(l, Withdraw(w, name, 130)), v)
  {
    var l := Tight(v, name);
    TotalUpdate(map[], name, 130);
    TotalUpdate(map[], name, 0);
    assert CollateralsOf(l, v) == CollateralsOf(l, w) == map[][name := 130];
    assert CollateralsOf(After(l, Withdraw(w, name, 130)), v) == map[][name := 0];
  }

  lemma TightConsistent(v: VaultId, name: Name)
    requires SlotName(name) == name
    ensures Consistent(Tight(v, name))
  {
    TotalUpdate(map[], v[..31], 100);
    assert map[][v[..31] := 100] == map[v[..31] := 100];
  }

  lemma TightSafe(v: VaultId, name: Name, u: VaultId)
    requires u[..31] == v[..31] ==> u[..20] == v[..20]
    ensures Safe(Tight(v, name), u)
  {
    TotalUpdate(map[], name, 130);
    assert CollateralsOf(Tight(v, name), u) == if u[..20] == v[..20] then map[][name := 130] else map[];
  }

  lemma TightAllSafe(vs: set<VaultId>, v: VaultId, name: Name)
    ensures AllSafe(Tight(v, name), vs)
  {
    forall u | u in vs ensures Safe(Tight(v, name), u) {
      assert u[..20] == u[..31][..20] && v[..20] == v[..31][..20];
      TightSafe(v, name, u);
    }
  }

  lemma OneCall(l: Ledgers, vs: set<VaultId>, e: Event)
    requires Proper(l, vs, e)
    ensures Final(l, [e]) == After(l, e) && ProperRun(l, vs, [e])
  {
    assert [e][..0] == [];
    assert ProperRun(l, vs, []) && Final(l, []) == l;
  }

  lemma SharedPrefixRun(vs: set<VaultId>, v: VaultId, w: VaultId)
    requires v in vs && w in vs && v[..20] == w[..20] && v[..31] != w[..31]
    ensures !AlwaysSafe(vs)
  {
    var name: Name := [1];
    assert SlotName(name) == name;
    var l, e := Tight(v, name), Withdraw(w, name, 130);
    TightConsistent(v, name);
    TightAllSafe(vs, v, name);
    SharedPrefixBreaks(v, w, name);
    OneCall(l, vs, e);
    Uncovered(vs, l, e, v);
  }

  lemma Uncovered(vs: set<VaultId>, l: Ledgers, e: Event, v: VaultId)
    requires Consistent(l) && AllSafe(l, vs) && ProperRun(l, vs, [e]) && v in vs && !Safe(Final(l, [e]), v)
    ensures !AlwaysSafe(vs)
  {
    assert !AllSafe(Final(l, [e]), vs);
  }

  // A set of vaults is safe in every proper run from any safe state exactly when the vaults are distinct.
  lemma SafetyExact(vs: set<VaultId>)
    ensures AlwaysSafe(vs) <==> Distinct(vs)
  {
    if Distinct(vs) {
      forall l: Ledgers, es: seq<Event> | Consistent(l) && AllSafe(l, vs) && ProperRun(l, vs, es)
        ensures AllSafe(Final(l, es), vs)
      {
        RunSafe(l, vs, es);
      }
    } else {
      var v, w :| v in vs && w in vs && v[..31] != w[..31] && v[..20] == w[..20];
      SharedPrefixRun(vs, v, w);
    }
  }

  // ---------- What one call undoes ----------

  // Two ledgers with the same amounts everywhere, whichever zero entries they hold.
  ghost predicate SameAmounts<K(!new)>(x: map<K, int>, y: map<K, int>) {
    forall k :: Get(x, k) == Get(y, k)
  }

  // Burning what was just minted gives back every debt and the caller's freedom to provide
  // liquidity; only the fee stays paid.
  lemma BurnUndoesMint(l: Ledgers, v: VaultId, caller: Address, amount: nat, bps: nat)
    requires Consistent(l) && Minted(l, v, caller, amount, bps).1 == Ok
    ensures var paid := WithMintFee(l, caller, MintFee(amount, bps));
            var r := Burned(Minted(l, v, caller, amount, bps).0, v, caller, amount);
            && SameAmounts(r.debt, l.debt) && SameAmounts(r.minted, l.minted) && r.totalDebt == l.totalDebt
            && r == paid.(debt := r.debt, minted := r.minted)
  {
  }

  // Withdrawing what a deposit has added to a safe vault succeeds and restores the ledgers.
  lemma WithdrawUndoesTopUp(l: Ledgers, p: Params, v: VaultId, id: Name, more: nat)
    requires Consistent(l) && Safe(l, v) && id in p.accepted && id != [] && id in CollateralsOf(l, v)
    ensures var up := Deposited(l, p, v, id, CollateralsOf(l, v)[id] + more).0;
            Withdrawn(up, v, id, more) == (l, Ok)
  {
    var c := CollateralsOf(l, v);
    assert SlotName(id) == id;
    var up := WithCollateral(l, v, id, c[id] + more);
    assert CollateralsOf(up, v) == c[id := c[id] + more];
    TotalUpdate(c, id, c[id] + more);
    assert c[id := c[id] + more][id := c[id]] == c;
    assert up.collateral[v[..20] := c] == l.collateral;
  }

  lemma WithdrawUndoesPoolDeposit(l: Ledgers, caller: Address, amount: nat)
    requires Consistent(l) && PoolDeposited(l, caller, amount).1 == Ok
    ensures var r := PoolWithdrawn(PoolDeposited(l, caller, amount).0, caller, amount);
            r.1 == Ok && SameAmounts(r.0.deposits, l.deposits) && r.0 == l.(deposits := r.0.deposits)
  {
  }

  // ---------- What is accepted, and what it moves ----------

  ghost predicate Accepted(l: Ledgers, e: Event) {
    Result(l, e).1.Ok? || Result(l, e).1.Claimed?
  }

  // Exactly when each call succeeds.
  lemma AcceptedExactly(l: Ledgers, e: Event)
    ensures Accepted(l, e) <==>
      match e
      case Deposit(p, _, id, _) => id in p.accepted
      case Mint(v, caller, amount, _) =>
        && Get(l.minted, caller) <= 0 && Get(l.deposits, caller) <= 0
        && Total(CollateralsOf(l, v)) != 0 && 13 * (DebtOf(l, v) + amount) <= 10 * Total(CollateralsOf(l, v))
      case Withdraw(v, id, amount) =>
        && id in CollateralsOf(l, v) && amount <= CollateralsOf(l, v)[id]
        && 13 * DebtOf(l, v) <= 10 * (Total(CollateralsOf(l, v)) - amount)
      case Burn(_, _, _) => true
      case Liquidate(p, v) =>
        DebtOf(l, v) != 0 && 10_000 * Total(Worth(p, CollateralsOf(l, v))) < 14_001 * DebtOf(l, v)
      case PoolDeposit(caller, amount) => 0 < amount && Get(l.minted, caller) <= 0
      case PoolWithdraw(caller, amount) => 0 < amount <= Get(l.deposits, caller)
      case Claim(caller) => 0 < Get(l.pending, caller) + Get(l.lpFees, caller)
      case Absorb(v) => 0 < DebtOf(l, v) <= l.twoWayBalance
  {
  }

  // A refused call changes nothing, except that a mint refused for its ratio has paid its fee.
  lemma RefusedKeeps(l: Ledgers, e: Event)
    requires !Accepted(l, e)
    ensures After(l, e) == if e.Mint? && Result(l, e).1 == BelowMinRatio
                           then WithMintFee(l, e.caller, MintFee(e.amount, e.bps)) else l
  {
  }

  // A fee or reward goes half to WAY and half to SWAY, an odd unit to SWAY.
  lemma RewardsSplit(l: Ledgers, reward: nat)
    ensures var r := WithRewards(l, reward);
            && r.totalRewards == l.totalRewards + reward
            && (r.wayRewards - l.wayRewards) + (r.swayRewards - l.swayRewards) == reward
            && 0 <= (r.swayRewards - l.swayRewards) - (r.wayRewards - l.wayRewards) <= 1
            && r == l.(wayRewards := r.wayRewards, swayRewards := r.swayRewards, totalRewards := r.totalRewards)
  {
  }

  // An absorption books a tenth of the debt for the depositors, if there are any, and leaves every vault,
  // deposit and lock as it was.
  lemma AbsorptionRewards(l: Ledgers, v: VaultId)
    requires Absorbed(l, v).1 == Ok
    ensures var r := Absorbed(l, v).0;
            && r.twoWayBalance == l.twoWayBalance - DebtOf(l, v)
            && (l.totalDeposits <= 0 ==> r.totalRewards == l.totalRewards)
            && (l.totalDeposits > 0 ==>
                  10 * (r.totalRewards - l.totalRewards) <= DebtOf(l, v) < 10 * (r.totalRewards - l.totalRewards + 1))
            && r == l.(twoWayBalance := r.twoWayBalance, wayRewards := r.wayRewards,
                       swayRewards := r.swayRewards, totalRewards := r.totalRewards)
  {
  }

  // A withdrawal lowers the pool's balance by its amount; one beyond the balance leaves what is missing,
  // without its sign.
  lemma WithdrawalFlips(l: Ledgers, caller: Address, amount: nat)
    requires PoolWithdrawn(l, caller, amount).1 == Ok
    ensures PoolWithdrawn(l, caller, amount).0.twoWayBalance
         == if amount <= l.twoWayBalance then l.twoWayBalance - amount else amount - l.twoWayBalance
  {
  }

  // What a call adds to the debt slot of a vault, to the lock and the deposit of an account, and to one
  // entry of a vault's collateral.
  ghost function DebtMove(l: Ledgers, e: Event, v: VaultId): (n: int) {
    match e
    case Mint(w, _, amount, _) => if w[..31] == v[..31] && Accepted(l, e) then amount else 0
    case Burn(w, _, amount) => if w[..31] == v[..31] then -Min(amount, DebtOf(l, v)) else 0
    case Liquidate(_, w) => if w[..31] == v[..31] && Accepted(l, e) then -DebtOf(l, v) else 0
    case _ => 0
  }

  ghost function LockMove(l: Ledgers, e: Event, a: Address): (n: int) {
    match e
    case Mint(_, caller, amount, _) => if caller == a && Accepted(l, e) then amount else 0
    case Burn(_, caller, amount) => if caller == a then -Min(amount, Get(l.minted, a)) else 0
    case _ => 0
  }

  ghost function DepositMove(l: Ledgers, e: Event, a: Address): (n: int) {
    match e
    case PoolDeposit(caller, amount) => if caller == a && Accepted(l, e) then amount else 0
    case PoolWithdraw(caller, amount) => if caller == a && Accepted(l, e) then -(amount as int) else 0
    case _ => 0
  }

  ghost function CollateralMove(l: Ledgers, e: Event, v: VaultId, name: Name): (n: int) {
    match e
    case Deposit(_, w, id, amount) =>
      if w[..20] == v[..20] && SlotName(id) == name && Accepted(l, e)
      then amount - Get(CollateralsOf(l, v), name) else 0
    case Withdraw(w, id, amount) => if w[..20] == v[..20] && id == name && Accepted(l, e) then -(amount as int) else 0
    case _ => 0
  }

  lemma MintMoves(l: Ledgers, e: Event, v: VaultId, a: Address)
    requires e.Mint?
    ensures DebtOf(After(l, e), v) == DebtOf(l, v) + DebtMove(l, e, v)
    ensures Get(After(l, e).minted, a) == Get(l.minted, a) + LockMove(l, e, a)
  {
  }

  lemma DebtAndLockMove(l: Ledgers, e: Event, v: VaultId, a: Address)
    requires Consistent(l)
    ensures DebtOf(After(l, e), v) == DebtOf(l, v) + DebtMove(l, e, v)
    ensures Get(After(l, e).minted, a) == Get(l.minted, a) + LockMove(l, e, a)
  {
    match e {
      case Mint(_, _, _, _) => MintMoves(l, e, v, a);
      case Burn(_, _, _) =>
      case Liquidate(_, _) =>
      case _ =>
        DebtUntouched(l, e);
        LocksUntouched(l, e);
    }
  }

  lemma DepositsUntouched(l: Ledgers, e: Event)
    requires !e.PoolDeposit? && !e.PoolWithdraw?
    ensures After(l, e).deposits == l.deposits
  {
  }

  lemma DepositMoves(l: Ledgers, e: Event, a: Address)
    ensures Get(After(l, e).deposits, a) == Get(l.deposits, a) + DepositMove(l, e, a)
  {
    if !e.PoolDeposit? && !e.PoolWithdraw? {
      DepositsUntouched(l, e);
    }
  }

  lemma CollateralUntouched(l: Ledgers, e: Event)
    requires !e.Deposit? && !e.Withdraw?
    ensures After(l, e).collateral == l.collateral
  {
  }

  lemma EntryWritten(l: Ledgers, w: VaultId, slot: Name, amount: int, v: VaultId, name: Name)
    requires name != []
    ensures Get(CollateralsOf(WithCollateral(l, w, slot, amount), v), name)
         == if w[..20] == v[..20] && slot == name then amount else Get(CollateralsOf(l, v), name)
  {
  }

  lemma WithdrawalMoves(l: Ledgers, e: Event, v: VaultId, name: Name)
    requires Consistent(l) && name != [] && e.Withdraw?
    ensures Get(CollateralsOf(After(l, e), v), name) == Get(CollateralsOf(l, v), name) + CollateralMove(l, e, v, name)
  {
    if Withdrawn(l, e.v, e.id, e.amount).1 == Ok {
      assert SlotName(e.id) == e.id;
      EntryWritten(l, e.v, e.id, CollateralsOf(l, e.v)[e.id] - e.amount, v, name);
    }
  }

  lemma CollateralMoves(l: Ledgers, e: Event, v: VaultId, name: Name)
    requires Consistent(l) && name != []
    ensures Get(CollateralsOf(After(l, e), v), name) == Get(CollateralsOf(l, v), name) + CollateralMove(l, e, v, name)
  {
    match e {
      case Deposit(_, w, id, amount) => EntryWritten(l, w, SlotName(id), amount, v, name);
      case Withdraw(_, _, _) => WithdrawalMoves(l, e, v, name);
      case _ => CollateralUntouched(l, e);
    }
  }

  // What the calls of a run add together.
  ghost function Moved(l: Ledgers, es: seq<Event>, move: (Ledgers, Event) -> int): (n: int) {
    if es == [] then 0 else
      Moved(l, es[..|es| - 1], move) + move(Final(l, es[..|es| - 1]), es[|es| - 1])
  }

  // Over every run each debt, lock, deposit and collateral entry has moved by exactly what the calls on
  // it that succeeded have named, where a burn takes no more than there is.
  lemma {:induction false} RunMoves(l: Ledgers, es: seq<Event>, v: VaultId, a: Address, name: Name)
    requires Consistent(l) && name != []
    ensures var r := Final(l, es);
            && DebtOf(r, v) == DebtOf(l, v) + Moved(l, es, (s, e) => DebtMove(s, e, v))
            && Get(r.minted, a) == Get(l.minted, a) + Moved(l, es, (s, e) => LockMove(s, e, a))
            && Get(r.deposits, a) == Get(l.deposits, a) + Moved(l, es, (s, e) => DepositMove(s, e, a))
            && Get(CollateralsOf(r, v), name)
               == Get(CollateralsOf(l, v), name) + Moved(l, es, (s, e) => CollateralMove(s, e, v, name))
  {
    if es != [] {
      var before, e := es[..|es| - 1], es[|es| - 1];
      var state := Final(l, before);
      RunMoves(l, before, v, a, name);
      RunConsistent(l, before);
      DebtAndLockMove(state, e, v, a);
      DepositMoves(state, e, a);
      CollateralMoves(state, e, v, name);
    }
  }

  // What an account may claim, and what a call adds to that.
  function Due(l: Ledgers, a: Address): (n: int) {
    Get(l.pending, a) + Get(l.lpFees, a)
  }

  ghost function DueMove(l: Ledgers, e: Event, a: Address): (n: int) {
    match e
    case Mint(_, caller, amount, bps) =>
      if caller == a && (Accepted(l, e) || Result(l, e).1 == BelowMinRatio) then amount * bps / 10_000 else 0
    case Claim(caller) => if caller == a && Accepted(l, e) then -Result(l, e).1.amount else 0
    case _ => 0
  }

  lemma MintedFees(l: Ledgers, v: VaultId, caller: Address, amount: nat, bps: nat)
    ensures var r := Minted(l, v, caller, amount, bps);
            && r.0.pending == l.pending
            && r.0.lpFees == if r.1 == Ok || r.1 == BelowMinRatio
                             then WithMintFee(l, caller, MintFee(amount, bps)).lpFees else l.lpFees
  {
  }

  lemma MintMovesDue(l: Ledgers, v: VaultId, caller: Address, amount: nat, bps: nat, a: Address)
    ensures var e := Mint(v, caller, amount, bps); Due(After(l, e), a) == Due(l, a) + DueMove(l, e, a)
  {
    MintedFees(l, v, caller, amount, bps);
    assert MintFee(amount, bps) == amount * bps / 10_000;
  }

  lemma DueUntouched(l: Ledgers, e: Event)
    requires !e.Mint? && !e.Claim?
    ensures After(l, e).lpFees == l.lpFees && After(l, e).pending == l.pending
  {
  }

  lemma OthersKeepDue(l: Ledgers, e: Event, a: Address)
    requires !e.Mint?
    ensures Due(After(l, e), a) == Due(l, a) + DueMove(l, e, a)
    ensures e.Claim? && Accepted(l, e) && e.caller == a ==> Due(After(l, e), a) == 0
  {
    if !e.Claim? {
      DueUntouched(l, e);
    }
  }

  // Over every run what an account may claim has grown by the fees of its own mints and fallen by what
  // it has claimed itself.
  lemma {:induction false} RunDue(l: Ledgers, es: seq<Event>, a: Address)
    ensures Due(Final(l, es), a) == Due(l, a) + Moved(l, es, (s, e) => DueMove(s, e, a))
  {
    if es != [] {
      var before := es[..|es| - 1];
      var state := Final(l, before);
      RunDue(l, before, a);
      match es[|es| - 1] {
        case Mint(v, caller, amount, bps) => MintMovesDue(state, v, caller, amount, bps, a);
        case e => OthersKeepDue(state, e, a);
      }
    }
  }

  // The fee of a vault with one collateral: its fee slot in 16 bits, or 150 basis points where that is zero.
  lemma SoleFee(p: Params, name: Name, amount: int, bps: nat)
    ensures FeePossible(p, map[name := amount], bps)
       <==> bps == if Wrap64(Get(p.fees, name)) % 65_536 == 0 then 150 else Wrap64(Get(p.fees, name)) % 65_536
  {
    assert name in map[name := amount];
  }

  // ---------- Safe is not beyond reach of liquidation ----------

  // An entry is worth its amount times its price in hundred-millionths, rounded down; a price slot that
  // is absent or zero means par, and an amount that is not positive is worth nothing.
  lemma WorthOfEntry(p: Params, c: map<Name, int>, name: Name)
    requires name in c
    ensures Worth(p, c).Keys == c.Keys
    ensures c[name] <= 0 ==> Worth(p, c)[name] == 0
    ensures var price := if name in p.prices && p.prices[name] != 0 then p.prices[name] else 100_000_000;
            var w := Worth(p, c)[name];
            c[name] > 0 ==> 100_000_000 * w <= c[name] * price < 100_000_000 * (w + 1)
  {
    Quotient(c[name] * PriceOf(p, name), 100_000_000);
  }

  // A vault of one collateral can be liquidated exactly while what that is worth at its price is short of
  // 140.01% of the debt.
  lemma SoleLiquidation(l: Ledgers, p: Params, v: VaultId, name: Name, amount: nat, price: nat)
    requires CollateralsOf(l, v) == map[name := amount] && 0 < price == Get(p.prices, name)
    ensures Liquidated(l, p, v).1 == Ok
       <==> DebtOf(l, v) != 0 && 10_000 * (amount * price / 100_000_000) < 14_001 * DebtOf(l, v)
  {
    var worth := Worth(p, map[name := amount]);
    TotalWithout(worth, name);
    assert worth - {name} == map[];
  }

  // What can be liquidated at some prices can be liquidated at any lower positive prices.
  lemma LowerPrices(l: Ledgers, p: Params, q: Params, v: VaultId)
    requires forall name :: name in CollateralsOf(l, v) ==> 0 < PriceOf(q, name) <= PriceOf(p, name)
    requires Liquidated(l, p, v).1 == Ok
    ensures Liquidated(l, q, v).1 == Ok
  {
    var c := CollateralsOf(l, v);
    forall name | name in c ensures AtMost(1, Worth(q, c)[name], 1, Worth(p, c)[name]) {
      LowerPrice(c[name], PriceOf(q, name), PriceOf(p, name));
    }
    TotalAtMost(1, Worth(q, c), 1, Worth(p, c));
  }

  lemma LowerPrice(amount: int, low: int, high: int)
    requires low <= high
    ensures amount > 0 ==> amount * low / 100_000_000 <= amount * high / 100_000_000
  {
    if amount > 0 {
      MulMonotone(amount, low, high);
    }
  }

  lemma ParWorth(p: Params, c: map<Name, int>)
    requires NonNegative(c) && forall name :: name in c ==> PriceOf(p, name) == 100_000_000
    ensures Worth(p, c) == c
  {
    forall name | name in c ensures Worth(p, c)[name] == c[name] {
      var x := c[name];
      assert x * 100_000_000 / 100_000_000 == x;
    }
  }

  // At par a vault can be liquidated exactly while its collateral is short of 140.01% of its debt.
  // A mint may stop at 130%, so what a mint accepts can be liquidated at once.
  lemma ParLiquidation(l: Ledgers, p: Params, v: VaultId)
    requires WellFormed(l)
    requires forall name :: name in CollateralsOf(l, v) ==> PriceOf(p, name) == 100_000_000
    ensures Liquidated(l, p, v).1 == Ok
       <==> DebtOf(l, v) > 0 && 10_000 * Total(CollateralsOf(l, v)) < 14_001 * DebtOf(l, v)
  {
    ParWorth(p, CollateralsOf(l, v));
  }

  lemma MintableYetLiquidatable(v: VaultId, p: Params, caller: Address, name: Name, bps: nat)
    requires name != [] && SlotName(name) == name && PriceOf(p, name) == 100_000_000
    ensures var l := EMPTY.(collateral := map[v[..20] := map[name := 130]]);
            var r := Minted(l, v, caller, 100, bps);
            r.1 == Ok && Liquidated(r.0, p, v).1 == Ok
  {
    var l := EMPTY.(collateral := map[v[..20] := map[name := 130]]);
    var r := Minted(l, v, caller, 100, bps);
    assert CollateralsOf(l, v) == map[][name := 130];
    TotalUpdate(map[], name, 130);
    assert r.0.collateral == l.collateral;
    assert CollateralsOf(r.0, v) == map[name := 130] == Worth(p, CollateralsOf(r.0, v)) by {
      ParWorth(p, map[name := 130]);
    }
  }

  // ---------- The precompiles as an object ----------

  class Protocol {
    var collateral: map<seq<byte>, map<Name, int>>
    var debt: map<seq<byte>, int>
    var totalDebt: int
    var deposits: map<Address, int>
    var minted: map<Address, int>
    var lpFees: map<Address, int>
    var pending: map<Address, int>
    var totalDeposits: int
    var twoWayBalance: int
    var wayRewards: int
    var swayRewards: int
    var totalRewards: int

    function Current(): (l: Ledgers)
      reads this
    {
      Ledgers(collateral, debt, totalDebt, deposits, minted, lpFees, pending,
              totalDeposits, twoWayBalance, wayRewards, swayRewards, totalRewards)
    }

    constructor ()
      ensures Current() == EMPTY && Consistent(Current())
    {
      collateral, debt, totalDebt := map[], map[], 0;
      deposits, minted, lpFees, pending := map[], map[], map[], map[];
      totalDeposits, twoWayBalance, wayRewards, swayRewards, totalRewards := 0, 0, 0, 0, 0;
    }

    method TwoWayDeposit(p: Params, v: VaultId, id: Name, amount: nat) returns (r: Reply)
      requires Consistent(Current())
      modifies this
      ensures (Current(), r) == Deposited(old(Current()), p, v, id, amount) && Consistent(Current())
    {
      DepositConsistent(Current(), p, v, id, amount);
      if id !in p.accepted {
        return NotAccepted;
      }
      var name := SlotName(id);
      if name != [] {
        collateral := collateral[v[..20] := CollateralsOf(Current(), v)[name := amount]];
      }
      return Ok;
    }

    method RouteMintFee(caller: Address, protocolFee: nat)
      modifies this`wayRewards, this`swayRewards, this`totalRewards, this`lpFees
      ensures Current() == WithMintFee(old(Current()), caller, protocolFee)
    {
      if protocolFee > 0 {
        var wayReward := protocolFee / 2;
        wayRewards := wayRewards + wayReward;
        swayRewards := swayRewards + (protocolFee - wayReward);
        totalRewards := totalRewards + protocolFee;
        lpFees := lpFees[caller := Get(lpFees, caller) + protocolFee];
      }
    }

    method RecordMint(v: VaultId, caller: Address, newDebt: nat, amount: nat)
      modifies this`debt, this`totalDebt, this`minted
      ensures Current() == WithMint(old(Current()), v, caller, newDebt, amount)
    {
      debt := debt[v[..31] := newDebt];
      totalDebt := totalDebt + amount;
      minted := minted[caller := Get(minted, caller) + amount];
    }

    method TwoWayMint(p: Params, v: VaultId, caller: Address, amount: nat) returns (r: Reply, ghost bps: nat)
      requires Consistent(Current())
      modifies this
      ensures FeePossible(p, CollateralsOf(old(Current()), v), bps)
      ensures (Current(), r) == Minted(old(Current()), v, caller, amount, bps)
      ensures Consistent(Current())
    {
      var collaterals := CollateralsOf(Current(), v);
      var feeBps := MintFeeBps(p, collaterals);
      bps := feeBps;
      MintConsistent(Current(), v, caller, amount, feeBps);
      r := MintAt(v, caller, amount, feeBps);
    }

    method MintAt(v: VaultId, caller: Address, amount: nat, feeBps: nat) returns (r: Reply)
      requires NonNegative(CollateralsOf(Current(), v)) && 0 <= DebtOf(Current(), v)
      modifies this
      ensures (Current(), r) == Minted(old(Current()), v, caller, amount, feeBps)
    {
      if Get(minted, caller) > 0 {
        return HasDebt;
      }
      if Get(deposits, caller) > 0 {
        return ProvidesLiquidity;
      }
      var collaterals := CollateralsOf(Current(), v);
      var newDebt := DebtOf(Current(), v) + amount;
      var total := SumOf(collaterals);
      if total == 0 {
        return NoCollateral;
      }
      RouteMintFee(caller, MintFee(amount, feeBps));
      var enough := AboveMinRatio(collaterals, newDebt);
      if !enough {
        return BelowMinRatio;
      }
      RecordMint(v, caller, newDebt, amount);
      return Ok;
    }

    method TwoWayWithdraw(v: VaultId, id: Name, amount: nat) returns (r: Reply)
      requires Consistent(Current())
      modifies this
      ensures (Current(), r) == Withdrawn(old(Current()), v, id, amount) && Consistent(Current())
    {
      WithdrawConsistent(Current(), v, id, amount);
      var collaterals := CollateralsOf(Current(), v);
      if id !in collaterals || collaterals[id] < amount {
        return ExceedsDeposit;
      }
      var left := collaterals[id] - amount;
      TotalUpdate(collaterals, id, left);
      var enough := AboveMinRatio(collaterals[id := left], DebtOf(Current(), v));
      if !enough {
        return BelowMinRatio;
      }
      var name := SlotName(id);
      if name != [] {
        collateral := collateral[v[..20] := collaterals[name := left]];
      }
      return Ok;
    }

    method TwoWayBurn(v: VaultId, caller: Address, amount: nat)
      requires Consistent(Current())
      modifies this
      ensures Current() == Burned(old(Current()), v, caller, amount)
      ensures Consistent(Current())
    {
      BurnConsistent(Current(), v, caller, amount);
      BurnAt(v, caller, amount);
    }

    method BurnAt(v: VaultId, caller: Address, amount: nat)
      modifies this
      ensures Current() == Burned(old(Current()), v, caller, amount)
    {
      var newDebt := DebtOf(Current(), v) - amount;
      if newDebt < 0 {
        newDebt := 0;
      }
      debt := debt[v[..31] := newDebt];
      ReduceMintedDebt(caller, amount);
      ReduceTotalDebt(amount);
    }

    method ReduceMintedDebt(caller: Address, amount: nat)
      modifies this`minted
      ensures minted == old(minted)[caller := Max0(Get(old(minted), caller) - amount)]
    {
      var lock := Get(minted, caller) - amount;
      if lock < 0 {
        lock := 0;
      }
      minted := minted[caller := lock];
    }

    method TwoWayLiquidate(p: Params, v: VaultId) returns (r: Reply)
      requires Consistent(Current()) && forall name :: name in p.prices ==> 0 <= p.prices[name]
      modifies this
      ensures (Current(), r) == Liquidated(old(Current()), p, v) && Consistent(Current())
    {
      LiquidateConsistent(Current(), p, v);
      var vaultDebt := DebtOf(Current(), v);
      var above := AboveLiquidationRatio(p, CollateralsOf(Current(), v), vaultDebt);
      if above {
        return NotLiquidatable;
      }
      debt := debt[v[..31] := 0];
      ReduceTotalDebt(vaultDebt);
      return Ok;
    }

    method ReduceTotalDebt(amount: int)
      modifies this`totalDebt
      ensures totalDebt == Max0(old(totalDebt) - amount)
    {
      totalDebt := totalDebt - amount;
      if totalDebt < 0 {
        totalDebt := 0;
      }
    }

    method StabilityDeposit(caller: Address, amount: nat) returns (r: Reply)
      requires Consistent(Current())
      modifies this
      ensures (Current(), r) == PoolDeposited(old(Current()), caller, amount) && Consistent(Current())
    {
      PoolDepositConsistent(Current(), caller, amount);
      if amount <= 0 {
        return NotPositive;
      }
      if Get(minted, caller) > 0 {
        return HasDebt;
      }
      deposits := deposits[caller := Get(deposits, caller) + amount];
      totalDeposits := totalDeposits + amount;
      twoWayBalance := twoWayBalance + amount;
      return Ok;
    }

    method StabilityWithdraw(caller: Address, amount: nat) returns (r: Reply)
      requires Consistent(Current())
      modifies this
      ensures (Current(), r) == PoolWithdrawn(old(Current()), caller, amount) && Consistent(Current())
    {
      PoolWithdrawConsistent(Current(), caller, amount);
      if amount <= 0 {
        return NotPositive;
      }
      if Get(deposits, caller) < amount {
        return ExceedsDeposit;
      }
      deposits := deposits[caller := Get(deposits, caller) - amount];
      totalDeposits := Abs(totalDeposits - amount);
      twoWayBalance := Abs(twoWayBalance - amount);
      return Ok;
    }

    method StabilityClaimRewards(caller: Address) returns (r: Reply)
      requires Consistent(Current())
      modifies this
      ensures (Current(), r) == RewardsClaimed(old(Current()), caller) && Consistent(Current())
    {
      ClaimConsistent(Current(), caller);
      var due := Get(pending, caller) + Get(lpFees, caller);
      if due <= 0 {
        return NothingToClaim;
      }
      pending := pending[caller := 0];
      lpFees := lpFees[caller := 0];
      totalRewards, wayRewards, swayRewards := 0, 0, 0;
      return Claimed(due);
    }

    method StabilityAbsorb(v: VaultId) returns (r: Reply)
      requires Consistent(Current())
      modifies this
      ensures (Current(), r) == Absorbed(old(Current()), v) && Consistent(Current())
    {
      AbsorbConsistent(Current(), v);
      var vaultDebt := DebtOf(Current(), v);
      if vaultDebt <= 0 {
        return NoDebt;
      }
      if twoWayBalance < vaultDebt {
        return PoolTooSmall;
      }
      twoWayBalance := twoWayBalance - vaultDebt;
      if totalDeposits > 0 {
        var reward := vaultDebt * 1000 / 10_000;
        if reward > 0 {
          var wayReward := reward / 2;
          wayRewards := wayRewards + wayReward;
          swayRewards := swayRewards + (reward - wayReward);
          totalRewards := totalRewards + reward;
        }
      }
      return Ok;
    }
  }

  method SumOf(c: map<Name, int>) returns (t: int)
    ensures t == Total(c)
  {
    t := 0;
    var names := c.Keys;
    assert c - names == map[];
    while names != {}
      invariant names <= c.Keys && t == Total(c - names)
      decreases names
    {
      var name :| name in names;
      TotalUpdate(c - names, name, c[name]);
      assert (c - names)[name := c[name]] == c - (names - {name});
      t := t + c[name];
      names := names - {name};
    }
    assert c - names == c;
  }

  // The first nonzero fee the iteration meets, or 150 basis points.
  method MintFeeBps(p: Params, c: map<Name, int>) returns (bps: nat)
    ensures FeePossible(p, c, bps)
  {
    var names := c.Keys;
    while names != {}
      invariant names <= c.Keys
      invariant forall name :: name in c && name !in names ==> FeeOf(p, name) == 0
      decreases names
    {
      var name :| name in names;
      if FeeOf(p, name) > 0 {
        return FeeOf(p, name);
      }
      names := names - {name};
    }
    return 150;
  }

  method AboveMinRatio(c: map<Name, int>, debt: nat) returns (b: bool)
    requires NonNegative(c)
    ensures b == Covers(Total(c), debt)
  {
    var total := SumOf(c);
    TotalNonNegative(c);
    if debt == 0 {
      return true;
    }
    RatioTest(total, debt);
    return total * 10_000 / debt >= 13_000;
  }

  method AboveLiquidationRatio(p: Params, c: map<Name, int>, debt: nat) returns (b: bool)
    requires forall name :: name in p.prices ==> 0 <= p.prices[name]
    ensures b == (debt == 0 || 14_001 * debt <= 10_000 * Total(Worth(p, c)))
  {
    var worth := SumOf(Worth(p, c));
    WorthNonNegative(p, c);
    if debt == 0 {
      return true;
    }
    RatioTest(worth, debt);
    return worth * 10_000 / debt > 14_000;
  }

  lemma WorthNonNegative(p: Params, c: map<Name, int>)
    requires forall name :: name in p.prices ==> 0 <= p.prices[name]
    ensures 0 <= Total(Worth(p, c))
  {
    forall name | name in c ensures 0 <= Worth(p, c)[name] {
      if c[name] > 0 {
        MulMonotone(c[name], 0, PriceOf(p, name));
        QuotientAtLeast(c[name] * PriceOf(p, name), 100_000_000, 0);
      }
    }
    TotalNonNegative(Worth(p, c));
  }
}
