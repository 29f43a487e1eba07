/** The task registry: quest payouts under a cap that follows the supply, and community tasks
    paid from escrow. Storage slots are ledger entries. */
module Quests {
  import opened Arith
  import opened Bytes
  import opened Ledger

  type Address = string
  type TaskId = t: seq<byte> | |t| == 32 witness seq(32, _ => 0)
  type Slot = s: seq<byte> | |s| == 32 witness seq(32, _ => 0)

  type Word = x: nat | x < Pow256(32)

  const TREASURY: Address := "0000000000000000000000000000000000000003"
  const HOLDER: Address := "0000000000000000000000000000000000000023"
  const SUPPLY_PCT := 5
  const CLAIMED: byte := 1
  const VERIFIED: byte := 2

  // What the calls look up elsewhere: badge levels, the autopilot, the tasks it may verify, and
  // the reward table.
  datatype Config = Config(levels: map<Address, int>, autopilot: Address -> bool,
                           eligible: TaskId -> bool, rewards: TaskId -> nat)

  datatype Registry = Registry(
    balances: map<Address, int>, supply: int, paid: int, claims: map<Address, Slot>,
    records: map<TaskId, Slot>, escrow: map<TaskId, int>)

  datatype Reply = Done | Unauthorized | NotEligible | CapReached | NotPositive | Insufficient | UnknownTask

  // ---------- Balances ----------

  function Moved(balances: map<Address, int>, from: Address, to: Address, amount: int): (r: map<Address, int>) {
    var debited := balances[from := Get(balances, from) - amount];
    debited[to := Get(debited, to) + amount]
  }

  lemma MovedTotal(balances: map<Address, int>, from: Address, to: Address, amount: int)
    ensures Total(Moved(balances, from, to, amount)) == Total(balances)
  {
    var debited := balances[from := Get(balances, from) - amount];
    TotalUpdate(balances, from, Get(balances, from) - amount);
    TotalUpdate(debited, to, Get(debited, to) + amount);
  }

  // Through a third account the same is moved as directly.
  lemma MovedThrough(balances: map<Address, int>, from: Address, via: Address, to: Address, amount: int)
    ensures forall a :: Get(Moved(Moved(balances, from, via, amount), via, to, amount), a)
                     == Get(Moved(balances, from, to, amount), a)
  {
  }

  function Credited(balances: map<Address, int>, to: Address, amount: int): (r: map<Address, int>) {
    balances[to := Get(balances, to) + amount]
  }

  // ---------- Task records ----------

  // The reward is right-aligned in the slot, behind the level and the mode; a reward of more than
  // thirty bytes is written over them.
  function Packed(minLevel: byte, mode: byte, reward: Word): (rec: Slot)
  {
    var digits := Minimal(reward);
    MinimalLength(reward, 32);
    ([minLevel, mode] + Zeros(30))[..32 - |digits|] + digits
  }

  function RewardOf(rec: Slot): (reward: nat) {
    Value(rec[2..])
  }

  function Zeros(n: nat): (s: seq<byte>)
    ensures |s| == n
  {
    if n == 0 then [] else Zeros(n - 1) + [0]
  }

  lemma {:induction false} ZerosPrefix(n: nat, k: nat)
    requires k <= n
    ensures Zeros(n)[..k] == Zeros(k)
  {
    if k < n {
      ZerosPrefix(n - 1, k);
      assert Zeros(n)[..k] == Zeros(n - 1)[..k];
    }
  }

  lemma {:induction false} ValueOfPadded(n: nat, s: seq<byte>)
    ensures Value(Zeros(n) + s) == Value(s)
  {
    var padded := Zeros(n) + s;
    if s != [] {
      ValueOfPadded(n, s[..|s| - 1]);
      assert padded[..|padded| - 1] == Zeros(n) + s[..|s| - 1];
    } else if n > 0 {
      ValueOfPadded(n - 1, s);
      assert padded[..|padded| - 1] == Zeros(n - 1) + s;
    }
  }

  lemma PackedText(minLevel: byte, mode: byte, reward: Word)
    requires reward < Pow256(30)
    ensures |Minimal(reward)| <= 30
    ensures Packed(minLevel, mode, reward) == [minLevel, mode] + (Zeros(30 - |Minimal(reward)|) + Minimal(reward))
  {
    MinimalLength(reward, 30);
    var k := 30 - |Minimal(reward)|;
    ZerosPrefix(30, k);
    assert ([minLevel, mode] + Zeros(30))[..2 + k] == [minLevel, mode] + Zeros(30)[..k];
  }

  lemma PackedFits(minLevel: byte, mode: byte, reward: Word)
    requires reward < Pow256(30)
    ensures var rec := Packed(minLevel, mode, reward);
            rec[0] == minLevel && rec[1] == mode && RewardOf(rec) == reward
  {
    PackedText(minLevel, mode, reward);
    var rec, digits := Packed(minLevel, mode, reward), Minimal(reward);
    assert rec[2..] == Zeros(30 - |digits|) + digits;
    ValueOfPadded(30 - |digits|, digits);
    ValueOfMinimal(reward);
  }

  // A record gives back what was packed into it exactly when the reward fits thirty bytes.
  lemma RecordRoundTrip(minLevel: byte, mode: byte, reward: Word)
    ensures var rec := Packed(minLevel, mode, reward);
            (rec[0] == minLevel && rec[1] == mode && RewardOf(rec) == reward <==> reward < Pow256(30))
  {
    if reward < Pow256(30) {
      PackedFits(minLevel, mode, reward);
    } else {
      BigEndianOfValue(Packed(minLevel, mode, reward)[2..]);
    }
  }

  // A reward of 32 bytes is all that its record holds.
  lemma LongReward(minLevel: byte, mode: byte, reward: Word)
    requires Pow256(31) <= reward
    ensures Value(Packed(minLevel, mode, reward)) == reward
  {
    MinimalLength(reward, 31);
    MinimalLength(reward, 32);
    ValueOfMinimal(reward);
    assert Packed(minLevel, mode, reward) == Minimal(reward);
  }

  // ---------- Calls ----------

  function ClaimSlot(task: TaskId, state: byte): (slot: Slot) {
    task[..31] + [state]
  }

  function Cap(supply: int): (cap: int) {
    supply * SUPPLY_PCT / 100
  }

  function SupplyAdded(r: Registry, amount: int): (r': Registry) {
    if amount <= 0 then r else r.(supply := r.supply + amount)
  }

  function Funded(r: Registry, amount: nat): (r': Registry) {
    r.(balances := Credited(r.balances, TREASURY, amount))
  }

  function Claimed(r: Registry, caller: Address, task: TaskId): (r': Registry) {
    r.(claims := r.claims[caller := ClaimSlot(task, CLAIMED)])
  }

  // Counts the reward as paid even when the treasury cannot pay it.
  function Paid(r: Registry, reward: nat, task: TaskId, claimant: Address): (res: (Registry, Reply)) {
    if r.paid + reward > Cap(r.supply) then (r, CapReached) else
      (r.(claims := r.claims[claimant := ClaimSlot(task, VERIFIED)], paid := r.paid + reward,
          balances := if Get(r.balances, TREASURY) >= reward then Moved(r.balances, TREASURY, claimant, reward)
                      else r.balances), Done)
  }

  function Level(cfg: Config, caller: Address): (level: int) {
    Get(cfg.levels, caller)
  }

  function Verified(r: Registry, cfg: Config, caller: Address, task: TaskId, claimant: Address)
    : (res: (Registry, Reply))
  {
    if Level(cfg, caller) < 2 then (r, Unauthorized) else Paid(r, cfg.rewards(task), task, claimant)
  }

  function AutoVerified(r: Registry, cfg: Config, caller: Address, task: TaskId, claimant: Address)
    : (res: (Registry, Reply))
  {
    if !cfg.autopilot(caller) then (r, Unauthorized) else
    if !cfg.eligible(task) then (r, NotEligible) else Paid(r, cfg.rewards(task), task, claimant)
  }

  function Created(r: Registry, task: TaskId, reward: Word, minLevel: byte, mode: byte): (res: (Registry, Reply))
  {
    if reward == 0 then (r, NotPositive) else (r.(records := r.records[task := Packed(minLevel, mode, reward)]), Done)
  }

  function Escrowed(r: Registry, caller: Address, task: TaskId, amount: nat): (res: (Registry, Reply)) {
    if Get(r.balances, caller) < amount then (r, Insufficient) else
      (r.(escrow := r.escrow[task := Get(r.escrow, task) + amount],
          balances := Moved(r.balances, caller, HOLDER, amount)), Done)
  }

  function RecordOf(r: Registry, task: TaskId): (rec: Slot) {
    if task in r.records then r.records[task] else Zeros(32)
  }

  predicate MaySettle(cfg: Config, mode: byte, caller: Address) {
    if mode == 0 then cfg.autopilot(caller) else Level(cfg, caller) >= 2
  }

  // A funded task is paid by the escrow holder, another by the treasury.
  function Payer(r: Registry, task: TaskId): (payer: Address) {
    if Get(r.escrow, task) > 0 then HOLDER else TREASURY
  }

  // The claimant is credited whether or not the payer could be debited.
  function Settled(r: Registry, cfg: Config, caller: Address, task: TaskId, claimant: Address)
    : (res: (Registry, Reply))
  {
    var rec := RecordOf(r, task);
    if rec[0] == 0 && rec[1] == 0 then (r, UnknownTask) else
    if !MaySettle(cfg, rec[1], caller) then (r, Unauthorized) else
      var reward, esc, payer := RewardOf(rec), Get(r.escrow, task), Payer(r, task);
      (r.(claims := r.claims[claimant := ClaimSlot(task, VERIFIED)],
          escrow := if esc > 0 then r.escrow[task := Max0(esc - reward)] else r.escrow,
          balances := if Get(r.balances, payer) >= reward then Moved(r.balances, payer, claimant, reward)
                      else Credited(r.balances, claimant, reward)), Done)
  }

  // An objective task without a level is stored like a task that does not exist.
  lemma CreatedUnknown(r: Registry, cfg: Config, caller: Address, task: TaskId, claimant: Address,
                       reward: Word, minLevel: byte, mode: byte)
    requires 0 < reward < Pow256(30)
    ensures Settled(Created(r, task, reward, minLevel, mode).0, cfg, caller, task, claimant).1 == UnknownTask
       <==> minLevel == 0 && mode == 0
  {
    RecordRoundTrip(minLevel, mode, reward);
  }

  // ---------- Runs ----------

  datatype Event =
    | AddSupply(minted: int)
    | Fund(amount: nat)
    | Claim(caller: Address, task: TaskId)
    | Verify(cfg: Config, caller: Address, task: TaskId, claimant: Address)
    | AutoVerify(cfg: Config, caller: Address, task: TaskId, claimant: Address)
    | Create(task: TaskId, reward: Word, minLevel: byte, mode: byte)
    | Escrow(caller: Address, task: TaskId, amount: nat)
    | Settle(cfg: Config, caller: Address, task: TaskId, claimant: Address)

  ghost function Result(r: Registry, e: Event): (res: (Registry, Reply))
  {
    match e
    case AddSupply(amount) => (SupplyAdded(r, amount), Done)
    case Fund(amount) => (Funded(r, amount), Done)
    case Claim(caller, task) => (Claimed(r, caller, task), Done)
    case Verify(cfg, caller, task, claimant) => Verified(r, cfg, caller, task, claimant)
    case AutoVerify(cfg, caller, task, claimant) => AutoVerified(r, cfg, caller, task, claimant)
    case Create(task, reward, minLevel, mode) => Created(r, task, reward, minLevel, mode)
    case Escrow(caller, task, amount) => Escrowed(r, caller, task, amount)
    case Settle(cfg, caller, task, claimant) => Settled(r, cfg, caller, task, claimant)
  }

  ghost function Final(r: Registry, es: seq<Event>): (r': Registry)
  {
    if es == [] then r else Result(Final(r, es[..|es| - 1]), es[|es| - 1]).0
  }

  // ---------- The quest cap ----------

  ghost predicate WithinCap(r: Registry) {
    0 <= r.supply && 0 <= r.paid <= Cap(r.supply)
  }

  // Five percent of the supply, rounded down.
  lemma CapMeans(supply: int)
    ensures 100 * Cap(supply) <= 5 * supply < 100 * (Cap(supply) + 1)
  {
  }

  lemma CapGrows(supply: int, more: int)
    requires supply <= more
    ensures Cap(supply) <= Cap(more)
  {
    QuotientAtLeast(more * SUPPLY_PCT, 100, Cap(supply));
    Quotient(supply * SUPPLY_PCT, 100);
  }

  lemma StepWithinCap(r: Registry, e: Event)
    requires WithinCap(r)
    ensures WithinCap(Result(r, e).0)
  {
    match e {
      case AddSupply(minted) => if minted > 0 { CapGrows(r.supply, r.supply + minted); }
      case _ =>
    }
  }

  // Whatever the order of payouts, supply growth and everything else, cumulative payouts stay
  // within five percent of the supply, so the remaining pool never has to be clamped.
  lemma {:induction false} RunWithinCap(r: Registry, es: seq<Event>)
    requires WithinCap(r)
    ensures WithinCap(Final(r, es))
    ensures 0 <= 100 * Final(r, es).paid <= 5 * Final(r, es).supply
    ensures PoolRemaining(Final(r, es)) == Cap(Final(r, es).supply) - Final(r, es).paid
  {
    if es != [] {
      RunWithinCap(r, es[..|es| - 1]);
      StepWithinCap(Final(r, es[..|es| - 1]), es[|es| - 1]);
    }
  }

  function PoolRemaining(r: Registry): (n: nat) {
    Max0(Cap(r.supply) - r.paid)
  }

  // ---------- Who may do what, and what it moves ----------

  // A task that pays at the given mode may be settled by the autopilot, if the mode is zero, and
  // otherwise by anyone with a badge of level two or more.
  ghost predicate Judge(cfg: Config, mode: byte, caller: Address) {
    if mode == 0 then cfg.autopilot(caller) else caller in cfg.levels && 2 <= cfg.levels[caller]
  }

  // Exactly when each call succeeds.
  lemma AcceptedExactly(r: Registry, e: Event)
    ensures Result(r, e).1 == Done <==>
      match e
      case Verify(cfg, caller, task, _) =>
        caller in cfg.levels && 2 <= cfg.levels[caller] && 100 * (r.paid + cfg.rewards(task)) <= 5 * r.supply
      case AutoVerify(cfg, caller, task, _) =>
        cfg.autopilot(caller) && cfg.eligible(task) && 100 * (r.paid + cfg.rewards(task)) <= 5 * r.supply
      case Create(_, reward, _, _) => 0 < reward
      case Escrow(caller, _, amount) => amount <= Get(r.balances, caller)
      case Settle(cfg, caller, task, _) =>
        var rec := RecordOf(r, task);
        (rec[0] != 0 || rec[1] != 0) && Judge(cfg, rec[1], caller)
      case _ => true
  {
  }

  lemma RefusedKeeps(r: Registry, e: Event)
    requires Result(r, e).1 != Done
    ensures Result(r, e).0 == r
  {
  }

  // The slot that tells what became of an account's claims: the first 31 bytes of the last task it
  // claimed or was verified for, and a one if it has claimed it, a two if it was verified.
  function Mark(slot: Slot, task: TaskId, state: byte): (s: Slot) {
    seq(32, i requires 0 <= i < 32 => if i == 31 then state else task[i])
  }

  ghost function SlotAfter(r: Registry, e: Event, a: Address): (s: Slot) {
    match e
    case Claim(caller, task) => if caller == a then Mark(SlotOf(r, a), task, 1) else SlotOf(r, a)
    case Verify(_, _, task, claimant) =>
      if claimant == a && Result(r, e).1 == Done then Mark(SlotOf(r, a), task, 2) else SlotOf(r, a)
    case AutoVerify(_, _, task, claimant) =>
      if claimant == a && Result(r, e).1 == Done then Mark(SlotOf(r, a), task, 2) else SlotOf(r, a)
    case Settle(_, _, task, claimant) =>
      if claimant == a && Result(r, e).1 == Done then Mark(SlotOf(r, a), task, 2) else SlotOf(r, a)
    case _ => SlotOf(r, a)
  }

  function SlotOf(r: Registry, a: Address): (s: Slot) {
    if a in r.claims then r.claims[a] else Zeros(32)
  }

  lemma SlotWritten(slot: Slot, task: TaskId, state: byte)
    ensures ClaimSlot(task, state) == Mark(slot, task, state)
  {
  }

  // Each call marks its own account for its own task, and no other account.
  lemma ClaimsMarked(r: Registry, e: Event, a: Address)
    ensures SlotOf(Result(r, e).0, a) == SlotAfter(r, e, a)
  {
    if e.Claim? {
      SlotWritten(SlotOf(r, a), e.task, 1);
    } else if e.Verify? || e.AutoVerify? || e.Settle? {
      SlotWritten(SlotOf(r, a), e.task, 2);
    }
  }

  // There is one slot for each account: a claim for any task erases what it has been verified for.
  lemma ClaimErases(r: Registry, cfg: Config, verifier: Address, task: TaskId, other: TaskId, a: Address)
    ensures SlotOf(Claimed(Verified(r, cfg, verifier, task, a).0, a, other), a) == other[..31] + [1]
  {
  }

  // What a call adds to a balance, to the escrow of a task, to what has been paid, and to the supply.
  ghost function BalanceMove(r: Registry, e: Event, a: Address): (n: int) {
    if Result(r, e).1 != Done then 0 else
      match e
      case Fund(amount) => if a == TREASURY then amount else 0
      case Verify(cfg, _, task, claimant) => Transferred(r, TREASURY, claimant, cfg.rewards(task), a)
      case AutoVerify(cfg, _, task, claimant) => Transferred(r, TREASURY, claimant, cfg.rewards(task), a)
      case Escrow(caller, _, amount) => (if a == HOLDER then amount else 0) - (if a == caller then amount else 0)
      case Settle(_, _, task, claimant) =>
        var reward := RewardOf(RecordOf(r, task));
        var payer := if Get(r.escrow, task) > 0 then HOLDER else TREASURY;
        (if a == claimant then reward else 0) - (if a == payer && reward <= Get(r.balances, payer) then reward else 0)
      case _ => 0
  }

  // What a transfer that needs funds does to one balance.
  function Transferred(r: Registry, from: Address, to: Address, amount: nat, a: Address): (n: int) {
    if Get(r.balances, from) < amount then 0 else
      (if a == to then amount else 0) - (if a == from then amount else 0)
  }

  ghost function EscrowMove(r: Registry, e: Event, task: TaskId): (n: int) {
    if Result(r, e).1 != Done then 0 else
      match e
      case Escrow(_, t, amount) => if t == task then amount else 0
      case Settle(_, _, t, _) =>
        var reward, esc := RewardOf(RecordOf(r, task)), Get(r.escrow, task);
        if t == task && 0 < esc then (if esc < reward then -esc else -(reward as int)) else 0
      case _ => 0
  }

  ghost function PaidMove(r: Registry, e: Event): (n: int) {
    if (e.Verify? || e.AutoVerify?) && Result(r, e).1 == Done then e.cfg.rewards(e.task) else 0
  }

  ghost function SupplyMove(e: Event): (n: int) {
    if e.AddSupply? && 0 < e.minted then e.minted else 0
  }

  lemma PayoutMoves(r: Registry, reward: nat, task: TaskId, claimant: Address, a: Address)
    ensures var res := Paid(r, reward, task, claimant);
            Get(res.0.balances, a)
            == Get(r.balances, a) + if res.1 == Done then Transferred(r, TREASURY, claimant, reward, a) else 0
  {
  }

  lemma SettlementMoves(r: Registry, e: Event, a: Address)
    requires e.Settle?
    ensures Get(Result(r, e).0.balances, a) == Get(r.balances, a) + BalanceMove(r, e, a)
  {
  }

  lemma StepBalance(r: Registry, e: Event, a: Address)
    ensures Get(Result(r, e).0.balances, a) == Get(r.balances, a) + BalanceMove(r, e, a)
  {
    match e {
      case Verify(cfg, _, task, claimant) => PayoutMoves(r, cfg.rewards(task), task, claimant, a);
      case AutoVerify(cfg, _, task, claimant) => PayoutMoves(r, cfg.rewards(task), task, claimant, a);
      case Settle(_, _, _, _) => SettlementMoves(r, e, a);
      case _ =>
    }
  }

  lemma StepCounters(r: Registry, e: Event, task: TaskId)
    ensures Get(Result(r, e).0.escrow, task) == Get(r.escrow, task) + EscrowMove(r, e, task)
    ensures Result(r, e).0.paid == r.paid + PaidMove(r, e)
    ensures Result(r, e).0.supply == r.supply + SupplyMove(e)
  {
  }

  // What the calls of a run add together.
  ghost function MovedBy(r: Registry, es: seq<Event>, move: (Registry, Event) -> int): (n: int) {
    if es == [] then 0 else
      MovedBy(r, es[..|es| - 1], move) + move(Final(r, es[..|es| - 1]), es[|es| - 1])
  }

  // Over every run each balance, each escrow, the sum of payouts and the supply have moved by exactly
  // what the successful calls have named.
  lemma {:induction false} RunMoves(r: Registry, es: seq<Event>, a: Address, task: TaskId)
    ensures var r' := Final(r, es);
            && Get(r'.balances, a) == Get(r.balances, a) + MovedBy(r, es, (s, e) => BalanceMove(s, e, a))
            && Get(r'.escrow, task) == Get(r.escrow, task) + MovedBy(r, es, (s, e) => EscrowMove(s, e, task))
            && r'.paid == r.paid + MovedBy(r, es, PaidMove)
            && r'.supply == r.supply + MovedBy(r, es, (s, e) => SupplyMove(e))
  {
    if es != [] {
      var before := es[..|es| - 1];
      RunMoves(r, before, a, task);
      StepBalance(Final(r, before), es[|es| - 1], a);
      StepCounters(Final(r, before), es[|es| - 1], task);
    }
  }

  // Only a creation changes a record, and it changes only its own.
  lemma RecordsKept(r: Registry, e: Event, task: TaskId)
    ensures RecordOf(Result(r, e).0, task)
         == if e.Create? && e.task == task && 0 < e.reward then Packed(e.minLevel, e.mode, e.reward)
            else RecordOf(r, task)
  {
  }

  // ---------- Conservation ----------

  // What a call brings in from outside, and what it credits without debiting anyone.
  ghost function Inflow(r: Registry, e: Event): (n: int)
  {
    if e.Fund? then e.amount else
    if e.Settle? && Result(r, e).1 == Done && Get(r.balances, Payer(r, e.task)) < RewardOf(RecordOf(r, e.task))
    then RewardOf(RecordOf(r, e.task)) else 0
  }

  ghost function TotalInflow(r: Registry, es: seq<Event>): (n: int)
  {
    if es == [] then 0 else
      TotalInflow(r, es[..|es| - 1]) + Inflow(Final(r, es[..|es| - 1]), es[|es| - 1])
  }

  // A payout moves the reward or nothing: the sum of balances stays.
  lemma PayoutConserves(r: Registry, reward: nat, task: TaskId, claimant: Address)
    ensures Total(Paid(r, reward, task, claimant).0.balances) == Total(r.balances)
  {
    MovedTotal(r.balances, TREASURY, claimant, reward);
  }

  lemma SettlementInflow(r: Registry, cfg: Config, caller: Address, task: TaskId, claimant: Address)
    ensures Total(Settled(r, cfg, caller, task, claimant).0.balances)
         == Total(r.balances) + Inflow(r, Settle(cfg, caller, task, claimant))
  {
    var reward, payer := RewardOf(RecordOf(r, task)), Payer(r, task);
    if Get(r.balances, payer) >= reward {
      MovedTotal(r.balances, payer, claimant, reward);
    } else {
      TotalUpdate(r.balances, claimant, Get(r.balances, claimant) + reward);
    }
  }

  lemma StepConserves(r: Registry, e: Event)
    ensures Total(Result(r, e).0.balances) == Total(r.balances) + Inflow(r, e)
  {
    match e {
      case AddSupply(_) =>
      case Fund(amount) => TotalUpdate(r.balances, TREASURY, Get(r.balances, TREASURY) + amount);
      case Claim(_, _) =>
      case Verify(cfg, _, task, claimant) => PayoutConserves(r, cfg.rewards(task), task, claimant);
      case AutoVerify(cfg, _, task, claimant) => PayoutConserves(r, cfg.rewards(task), task, claimant);
      case Create(_, _, _, _) =>
      case Escrow(caller, _, amount) => MovedTotal(r.balances, caller, HOLDER, amount);
      case Settle(cfg, caller, task, claimant) => SettlementInflow(r, cfg, caller, task, claimant);
    }
  }

  // Over any run the sum of balances grows by exactly what was funded and what settlements credited
  // although the payer could not be debited.
  lemma {:induction false} RunConserves(r: Registry, es: seq<Event>)
    ensures Total(Final(r, es).balances) == Total(r.balances) + TotalInflow(r, es)
  {
    if es != [] {
      RunConserves(r, es[..|es| - 1]);
      StepConserves(Final(r, es[..|es| - 1]), es[|es| - 1]);
    }
  }

  // A settlement conserves the sum of balances exactly when its payer can pay, or nothing is due.
  lemma SettlementConserves(r: Registry, cfg: Config, caller: Address, task: TaskId, claimant: Address)
    requires Settled(r, cfg, caller, task, claimant).1 == Done
    ensures var reward := RewardOf(RecordOf(r, task));
            (Total(Settled(r, cfg, caller, task, claimant).0.balances) == Total(r.balances)
             <==> Get(r.balances, Payer(r, task)) >= reward || reward == 0)
  {
    SettlementInflow(r, cfg, caller, task, claimant);
  }

  // What two payouts of a reward come to for a treasury that holds `funds`.
  function TwicePaid(funds: int, reward: nat): (n: nat) {
    if funds < reward then 0 else if funds - reward < reward then reward else 2 * reward
  }

  // A task is paid once per verification, not once per account: a second verification of the same
  // task for the same account succeeds exactly while the cap has room for it, and is paid again
  // while the treasury can.
  lemma VerifiedTwice(r: Registry, cfg: Config, caller: Address, task: TaskId, claimant: Address)
    requires Verified(r, cfg, caller, task, claimant).1 == Done
    ensures var reward := cfg.rewards(task);
            var twice := Verified(Verified(r, cfg, caller, task, claimant).0, cfg, caller, task, claimant);
            && (twice.1 == Done <==> r.paid + 2 * reward <= Cap(r.supply))
            && (twice.1 == Done ==>
                  Get(twice.0.balances, claimant) == Get(r.balances, claimant)
                    + if claimant == TREASURY then 0 else TwicePaid(Get(r.balances, TREASURY), reward))
  {
  }

  // ---------- Escrow ----------

  ghost predicate Backed(r: Registry) {
    && (forall t :: t in r.escrow ==> 0 <= r.escrow[t])
    && Total(r.escrow) <= Get(r.balances, HOLDER)
  }

  // Nobody escrows in the holder's own name, and no settlement exceeds the escrow it draws on.
  ghost predicate Proper(r: Registry, e: Event) {
    && (e.Escrow? ==> e.caller != HOLDER)
    && (e.Settle? && Get(r.escrow, e.task) > 0 ==> RewardOf(RecordOf(r, e.task)) <= Get(r.escrow, e.task))
  }

  ghost predicate ProperRun(r: Registry, es: seq<Event>)
  {
    es == [] ||
    (ProperRun(r, es[..|es| - 1]) && Proper(Final(r, es[..|es| - 1]), es[|es| - 1]))
  }

  // An escrow keeps the backing exactly when its poster is not the holder itself, or the holder's
  // balance covers it on top of all others.
  lemma EscrowKeepsBacking(r: Registry, caller: Address, task: TaskId, amount: nat)
    requires Backed(r) && Escrowed(r, caller, task, amount).1 == Done
    ensures Backed(Escrowed(r, caller, task, amount).0)
       <==> caller != HOLDER || Total(r.escrow) + amount <= Get(r.balances, HOLDER)
  {
    TotalUpdate(r.escrow, task, Get(r.escrow, task) + amount);
  }

  // What a settlement does to the escrow and to the holder.
  lemma SettledEscrow(r: Registry, cfg: Config, caller: Address, task: TaskId, claimant: Address)
    requires Settled(r, cfg, caller, task, claimant).1 == Done && 0 <= Get(r.escrow, task)
    ensures var r', esc := Settled(r, cfg, caller, task, claimant).0, Get(r.escrow, task);
            var reward, balance := RewardOf(RecordOf(r, task)), Get(r.balances, HOLDER);
            && Total(r'.escrow) == Total(r.escrow) - (if esc < reward then esc else reward)
            && Get(r'.balances, HOLDER)
               == balance - (if esc > 0 && reward <= balance then reward else 0)
                  + (if claimant == HOLDER then reward else 0)
  {
    TotalUpdate(r.escrow, task, Max0(Get(r.escrow, task) - RewardOf(RecordOf(r, task))));
  }

  lemma SettledNonNegative(r: Registry, cfg: Config, caller: Address, task: TaskId, claimant: Address)
    requires Backed(r)
    ensures var e := Settled(r, cfg, caller, task, claimant).0.escrow; forall t :: t in e ==> 0 <= e[t]
  {
  }

  // A settlement keeps the escrow backed exactly when the treasury pays it, the holder is paid, what
  // it takes beyond its own escrow fits the holder's surplus, or the holder could not pay it at all.
  lemma SettleKeepsBacking(r: Registry, cfg: Config, caller: Address, task: TaskId, claimant: Address)
    requires Backed(r) && Settled(r, cfg, caller, task, claimant).1 == Done
    ensures var reward, balance := RewardOf(RecordOf(r, task)), Get(r.balances, HOLDER);
            (Backed(Settled(r, cfg, caller, task, claimant).0)
             <==> (Get(r.escrow, task) == 0 || claimant == HOLDER || balance < reward
                   || reward - Get(r.escrow, task) <= balance - Total(r.escrow)))
  {
    TotalNonNegative(r.escrow);
    SettledEscrow(r, cfg, caller, task, claimant);
    SettledNonNegative(r, cfg, caller, task, claimant);
  }

  lemma SettleBacked(r: Registry, cfg: Config, caller: Address, task: TaskId, claimant: Address)
    requires Backed(r) && Proper(r, Settle(cfg, caller, task, claimant))
    ensures Backed(Settled(r, cfg, caller, task, claimant).0)
  {
    if Settled(r, cfg, caller, task, claimant).1 == Done {
      SettleKeepsBacking(r, cfg, caller, task, claimant);
    }
  }

  lemma PayoutBacked(r: Registry, reward: nat, task: TaskId, claimant: Address)
    requires Backed(r)
    ensures Backed(Paid(r, reward, task, claimant).0)
  {
  }

  lemma StepBacked(r: Registry, e: Event)
    requires Backed(r) && Proper(r, e)
    ensures Backed(Result(r, e).0)
  {
    match e {
      case Verify(cfg, _, task, claimant) => PayoutBacked(r, cfg.rewards(task), task, claimant);
      case AutoVerify(cfg, _, task, claimant) => PayoutBacked(r, cfg.rewards(task), task, claimant);
      case Escrow(caller, task, amount) =>
        if Escrowed(r, caller, task, amount).1 == Done { EscrowKeepsBacking(r, caller, task, amount); }
      case Settle(cfg, caller, task, claimant) => SettleBacked(r, cfg, caller, task, claimant);
      case _ =>
    }
  }

  // On every proper run the escrow slots together never exceed the holder's balance.
  lemma {:induction false} RunBacked(r: Registry, es: seq<Event>)
    requires Backed(r) && ProperRun(r, es)
    ensures Backed(Final(r, es))
  {
    if es != [] {
      RunBacked(r, es[..|es| - 1]);
      StepBacked(Final(r, es[..|es| - 1]), es[|es| - 1]);
    }
  }

  // The exact conditions of an escrow and of a settlement, as guards a caller could check.
  ghost predicate KeepsBacking(r: Registry, e: Event) {
    Result(r, e).1 == Done ==>
      match e
      case Escrow(caller, task, amount) => caller != HOLDER || Total(r.escrow) + amount <= Get(r.balances, HOLDER)
      case Settle(_, _, task, claimant) =>
        var reward, balance := RewardOf(RecordOf(r, task)), Get(r.balances, HOLDER);
        || Get(r.escrow, task) == 0 || claimant == HOLDER || balance < reward
        || reward - Get(r.escrow, task) <= balance - Total(r.escrow)
      case _ => true
  }

  lemma StepKeepsBacking(r: Registry, e: Event)
    requires Backed(r)
    ensures Backed(Result(r, e).0) <==> KeepsBacking(r, e)
  {
    match e {
      case Escrow(caller, task, amount) =>
        if Escrowed(r, caller, task, amount).1 == Done { EscrowKeepsBacking(r, caller, task, amount); }
      case Settle(cfg, caller, task, claimant) =>
        if Settled(r, cfg, caller, task, claimant).1 == Done { SettleKeepsBacking(r, cfg, caller, task, claimant); }
      case _ => StepBacked(r, e);
    }
  }

  ghost predicate AlwaysBacked(r: Registry, es: seq<Event>) {
    Backed(Final(r, es)) && (es == [] || AlwaysBacked(r, es[..|es| - 1]))
  }

  ghost predicate AllKeepBacking(r: Registry, es: seq<Event>) {
    es == [] || (AllKeepBacking(r, es[..|es| - 1]) && KeepsBacking(Final(r, es[..|es| - 1]), es[|es| - 1]))
  }

  // The escrow is backed in every state of a run exactly when each escrow and settlement of the run meets
  // its condition.
  lemma {:induction false} RunBackedExact(r: Registry, es: seq<Event>)
    requires Backed(r)
    ensures AlwaysBacked(r, es) <==> AllKeepBacking(r, es)
  {
    if es != [] {
      RunBackedExact(r, es[..|es| - 1]);
      if AlwaysBacked(r, es[..|es| - 1]) {
        StepKeepsBacking(Final(r, es[..|es| - 1]), es[|es| - 1]);
      }
    }
  }

  // A task escrowed for exactly its reward pays it from its poster to the claimant, through the
  // holder, and leaves nothing behind.
  lemma EscrowPaysOut(r: Registry, cfg: Config, poster: Address, caller: Address, task: TaskId, claimant: Address)
    requires Backed(r) && Get(r.escrow, task) == 0 && poster != HOLDER && claimant != HOLDER
    requires RewardOf(RecordOf(r, task)) > 0
    requires Escrowed(r, poster, task, RewardOf(RecordOf(r, task))).1 == Done
    requires Settled(r, cfg, caller, task, claimant).1 == Done
    ensures var reward := RewardOf(RecordOf(r, task));
            var s := Settled(Escrowed(r, poster, task, reward).0, cfg, caller, task, claimant);
            && s.1 == Done && Get(s.0.escrow, task) == 0
            && forall a :: Get(s.0.balances, a) == Get(Moved(r.balances, poster, claimant, reward), a)
  {
    var reward := RewardOf(RecordOf(r, task));
    TotalNonNegative(r.escrow);
    var held := Escrowed(r, poster, task, reward).0;
    assert RecordOf(held, task) == RecordOf(r, task);
    assert Get(held.escrow, task) == reward && Payer(held, task) == HOLDER;
    assert Get(held.balances, HOLDER) == Get(r.balances, HOLDER) + reward;
    MovedThrough(r.balances, poster, HOLDER, claimant, reward);
    var s := Settled(held, cfg, caller, task, claimant).0;
    assert s.escrow == held.escrow[task := 0];
    assert s.balances == Moved(held.balances, HOLDER, claimant, reward);
  }

  // ---------- The precompile as an object ----------

  class TaskRegistry {
    var balances: map<Address, int>
    var supply: int
    var paid: int
    var claims: map<Address, Slot>
    var records: map<TaskId, Slot>
    var escrow: map<TaskId, int>

    function Current(): (r: Registry)
      reads this
    {
      Registry(balances, supply, paid, claims, records, escrow)
    }

    constructor (balances: map<Address, int>)
      ensures Current() == Registry(balances, 0, 0, map[], map[], map[]) && WithinCap(Current())
    {
      this.balances := balances;
      supply, paid, claims, records, escrow := 0, 0, map[], map[], map[];
    }

    method QuestAddSupply(amount: int)
      modifies this`supply
      ensures Current() == SupplyAdded(old(Current()), amount)
    {
      if amount <= 0 {
        return;
      }
      supply := supply + amount;
    }

    method QuestFund(amount: nat)
      modifies this`balances
      ensures Current() == Funded(old(Current()), amount)
    {
      balances := balances[TREASURY := Get(balances, TREASURY) + amount];
    }

    method TaskClaim(caller: Address, task: TaskId)
      modifies this`claims
      ensures Current() == Claimed(old(Current()), caller, task)
    {
      claims := claims[caller := ClaimSlot(task, CLAIMED)];
    }

    method Transfer(from: Address, to: Address, amount: int)
      modifies this`balances
      ensures balances == Moved(old(balances), from, to, amount)
    {
      balances := balances[from := Get(balances, from) - amount];
      balances := balances[to := Get(balances, to) + amount];
    }

    method VerifyAndPay(reward: nat, task: TaskId, claimant: Address) returns (res: Reply)
      requires WithinCap(Current())
      modifies this
      ensures (Current(), res) == Paid(old(Current()), reward, task, claimant) && WithinCap(Current())
    {
      var newPaid := paid + reward;
      if newPaid > Cap(supply) {
        return CapReached;
      }
      claims := claims[claimant := ClaimSlot(task, VERIFIED)];
      if Get(balances, TREASURY) >= reward {
        Transfer(TREASURY, claimant, reward);
        paid := paid + reward;
      } else {
        paid := paid + reward;
      }
      return Done;
    }

    method TaskVerify(cfg: Config, caller: Address, task: TaskId, claimant: Address) returns (res: Reply)
      requires WithinCap(Current())
      modifies this
      ensures (Current(), res) == Verified(old(Current()), cfg, caller, task, claimant) && WithinCap(Current())
    {
      if Level(cfg, caller) < 2 {
        return Unauthorized;
      }
      res := VerifyAndPay(cfg.rewards(task), task, claimant);
    }

    method TaskAutoVerify(cfg: Config, caller: Address, task: TaskId, claimant: Address) returns (res: Reply)
      requires WithinCap(Current())
      modifies this
      ensures (Current(), res) == AutoVerified(old(Current()), cfg, caller, task, claimant) && WithinCap(Current())
    {
      if !cfg.autopilot(caller) {
        return Unauthorized;
      }
      if !cfg.eligible(task) {
        return NotEligible;
      }
      res := VerifyAndPay(cfg.rewards(task), task, claimant);
    }

    method CreateTask(task: TaskId, reward: Word, minLevel: byte, mode: byte) returns (res: Reply)
      modifies this`records
      ensures (Current(), res) == Created(old(Current()), task, reward, minLevel, mode)
    {
      if reward <= 0 {
        return NotPositive;
      }
      records := records[task := Packed(minLevel, mode, reward)];
      return Done;
    }

    method EscrowTask(caller: Address, task: TaskId, amount: nat) returns (res: Reply)
      modifies this
      ensures (Current(), res) == Escrowed(old(Current()), caller, task, amount)
    {
      if Get(balances, caller) < amount {
        return Insufficient;
      }
      var esc := Get(escrow, task) + amount;
      ghost var before := balances;
      balances := balances[HOLDER := Get(balances, HOLDER) + amount];
      escrow := escrow[task := esc];
      balances := balances[caller := Get(balances, caller) - amount];
      assert balances == Moved(before, caller, HOLDER, amount);
      return Done;
    }

    method VerifyCommunity(cfg: Config, caller: Address, task: TaskId, claimant: Address) returns (res: Reply)
      modifies this
      ensures (Current(), res) == Settled(old(Current()), cfg, caller, task, claimant)
    {
      var rec := RecordOf(Current(), task);
      if rec[0] == 0 && rec[1] == 0 {
        return UnknownTask;
      }
      if !MaySettle(cfg, rec[1], caller) {
        return Unauthorized;
      }
      PaySettlement(RewardOf(rec), task, claimant);
      return Done;
    }

    method PaySettlement(reward: nat, task: TaskId, claimant: Address)
      modifies this`claims, this`escrow, this`balances
      ensures claims == old(claims)[claimant := ClaimSlot(task, VERIFIED)]
      ensures var esc := Get(old(escrow), task);
              escrow == if esc > 0 then old(escrow)[task := Max0(esc - reward)] else old(escrow)
      ensures var payer := Payer(old(Current()), task);
              balances == if Get(old(balances), payer) >= reward then Moved(old(balances), payer, claimant, reward)
                          else Credited(old(balances), claimant, reward)
    {
      var esc := Get(escrow, task);
      var src := TREASURY;
      if esc > 0 {
        src := HOLDER;
      }
      claims := claims[claimant := ClaimSlot(task, VERIFIED)];
      if esc > 0 {
        var newEsc := esc - reward;
        if newEsc < 0 {
          newEsc := 0;
        }
        escrow := escrow[task := newEsc];
      }
      if Get(balances, src) >= reward {
        balances := balances[src := Get(balances, src) - reward];
      }
      balances := balances[claimant := Get(balances, claimant) + reward];
    }
  }
}
