/** The transaction loop of block production: admission checks, plain transfers, gas charges
    and nonces. What execution does outside a plain transfer is a parameter. */
module Blocks {
  import opened Arith
  import opened Bytes
  import opened Ledger
  import opened Text
  import opened Transactions
  import opened Wrappers

  type Address = seq<byte>

  datatype Account = Account(nonce: u64, balance: int, code: seq<byte>, level: nat)

  type Accounts = map<Address, Account>

  const NEW_ACCOUNT: Account := Account(0, 0, [], 0)
  const TRANSFER_GAS: u64 := 21_000

  datatype Outcome = Outcome(accounts: Accounts, gasUsed: u64, failed: bool)

  // Signature checks, and execution of anything but a plain transfer: precompile calls,
  // contract creation and contract calls.
  datatype Machine = Machine(signatureOk: Tx -> bool, other: (Accounts, Tx) -> Outcome)

  // ---------- Addresses ----------

  function HexDigitValue(c: byte): (d: Option<nat>)
    ensures d.Some? ==> d.value < 16
  {
    if 48 <= c <= 57 then Some(c - 48) else
    if 97 <= c <= 102 then Some(c - 87) else
    if 65 <= c <= 70 then Some(c - 55) else None
  }

  function HexDecode(s: seq<byte>): (r: Option<seq<byte>>) {
    if s == [] then Some([]) else
    if |s| == 1 then None else
      match (HexDigitValue(s[0]), HexDigitValue(s[1]), HexDecode(s[2..]))
      case (Some(h), Some(l), Some(rest)) => Some([(16 * h + l) as byte] + rest)
      case _ => None
  }

  function Lower(s: seq<byte>): (r: seq<byte>)
    ensures |r| == |s|
  {
    seq(|s|, i requires 0 <= i < |s| => LowerChar(s[i]))
  }

  function LowerChar(c: byte): (r: byte) {
    if 65 <= c <= 90 then c + 32 else c
  }

  // Drops a leading "0x".
  function WithoutPrefix(s: seq<byte>): (r: seq<byte>) {
    if |s| >= 2 && s[0] == 48 && s[1] == 120 then s[2..] else s
  }

  // The precompile a hexadecimal text names: all bytes zero but the last.
  function PrecompileNamed(digits: seq<byte>): (p: Option<byte>) {
    match HexDecode(digits)
    case None => None
    case Some(bytes) =>
      if |bytes| >= 1 && (forall i :: 0 <= i < |bytes| - 1 ==> bytes[i] == 0) && 0x0C <= bytes[|bytes| - 1] <= 0x27
      then Some(bytes[|bytes| - 1]) else None
  }

  function PrecompileGas(p: byte): (gas: u64) {
    match p
    case 0x0D => 3000 case 0x0E => 1500 case 0x0F => 10000 case 0x10 => 15000 case 0x11 => 8000
    case 0x12 => 2000 case 0x18 => 10000 case 0x19 => 8000 case 0x1B => 3000 case 0x1C => 10000
    case 0x1E => 3000 case 0x20 => 8000 case 0x21 => 1000 case 0x22 => 8000 case 0x25 => 6000
    case 0x27 => 0
    case _ => if 0x0C <= p <= 0x27 then 5000 else 0
  }

  // Execution lowers the address before it looks for a precompile; the balance check does not.
  function ExecutedPrecompile(to: Address): (p: Option<byte>) {
    PrecompileNamed(WithoutPrefix(Lower(to)))
  }

  function ExpectedGas(tx: Tx): (gas: u64) {
    match CheckedPrecompile(tx.to)
    case Some(p) => if PrecompileGas(p) < tx.gasLimit then PrecompileGas(p) else tx.gasLimit
    case None => tx.gasLimit
  }

  // The gas limit is checked, or the fixed gas of the precompile if that is less.
  lemma CheckedGas(tx: Tx)
    ensures ExpectedGas(tx) <= tx.gasLimit
    ensures var p := CheckedPrecompile(tx.to);
            p.Some? ==>
              && ExpectedGas(tx) <= PrecompileGas(p.value)
              && (ExpectedGas(tx) == tx.gasLimit || ExpectedGas(tx) == PrecompileGas(p.value))
    ensures CheckedPrecompile(tx.to) == None ==> ExpectedGas(tx) == tx.gasLimit
  {
  }

  // The faucet alone is free among the precompiles.
  lemma PrecompileGasRange(p: byte)
    requires 12 <= p <= 39
    ensures if p == 39 then PrecompileGas(p) == 0 else 1000 <= PrecompileGas(p) <= 15_000
  {
  }

  // Case does not matter to decoding.
  lemma {:induction false} DecodeLower(s: seq<byte>)
    ensures HexDecode(Lower(s)) == HexDecode(s)
  {
    if |s| >= 2 {
      DecodeLower(s[2..]);
      assert Lower(s)[2..] == Lower(s[2..]);
      assert HexDigitValue(LowerChar(s[0])) == HexDigitValue(s[0]);
      assert HexDigitValue(LowerChar(s[1])) == HexDigitValue(s[1]);
    } else {
      assert Lower(s) == [] || |Lower(s)| == 1;
    }
  }

  function CheckedPrecompile(to: Address): (p: Option<byte>) {
    PrecompileNamed(WithoutPrefix(to))
  }

  // A hexadecimal digit is one of 0-9, a-f and A-F, and stands for its usual value.
  lemma DigitValues(d: nat)
    requires d < 16
    ensures HexDigitValue(HexDigit(d)) == Some(d)
    ensures forall c: byte :: HexDigitValue(c) == Some(d) ==> LowerChar(c) == HexDigit(d)
  {
  }

  // Decoding reads back the hexadecimal form of any bytes.
  lemma {:induction false} DecodeOfHex(s: seq<byte>)
    ensures HexDecode(Hex(s)) == Some(s)
  {
    if s != [] {
      var rest := Hex(s[1..]);
      DecodeOfHex(s[1..]);
      DigitValues(s[0] / 16);
      DigitValues(s[0] % 16);
      assert Hex(s) == [HexDigit(s[0] / 16), HexDigit(s[0] % 16)] + rest;
      assert Hex(s)[2..] == rest;
      assert s == [s[0]] + s[1..];
    }
  }

  lemma NamedByBytes(digits: seq<byte>, s: seq<byte>)
    requires HexDecode(digits) == Some(s)
    ensures PrecompileNamed(digits)
         == if s != [] && (forall i :: 0 <= i < |s| - 1 ==> s[i] == 0) && 12 <= s[|s| - 1] <= 39
            then Some(s[|s| - 1]) else None
  {
  }

  // Bytes name a precompile exactly when all but the last are zero and the last is from 0x0C to 0x27,
  // whichever case the digits are written in.
  lemma PrecompileOfBytes(s: seq<byte>, digits: seq<byte>)
    requires Lower(digits) == Hex(s)
    ensures PrecompileNamed(digits)
         == if s != [] && (forall i :: 0 <= i < |s| - 1 ==> s[i] == 0) && 12 <= s[|s| - 1] <= 39
            then Some(s[|s| - 1]) else None
  {
    DecodeOfHex(s);
    DecodeLower(digits);
    NamedByBytes(digits, s);
  }

  // The address is that of a precompile behind an upper-case 0X.
  predicate UpperPrefixed(to: Address) {
    |to| >= 2 && to[0] == 48 && to[1] == 88 && PrecompileNamed(to[2..]).Some?
  }

  // Lowering turns both prefixes into one, and no other text into a prefix.
  lemma LowerPrefix(to: Address)
    ensures WithoutPrefix(Lower(to))
         == if |to| >= 2 && to[0] == 48 && (to[1] == 120 || to[1] == 88) then Lower(to[2..]) else Lower(to)
  {
    if |to| >= 2 {
      assert Lower(to)[0] == LowerChar(to[0]) && Lower(to)[1] == LowerChar(to[1]);
      assert Lower(to)[2..] == Lower(to[2..]);
    }
  }

  lemma DetectLower(digits: seq<byte>)
    ensures PrecompileNamed(Lower(digits)) == PrecompileNamed(digits)
  {
    DecodeLower(digits);
  }

  lemma UpperPrefix(to: Address)
    requires |to| >= 2 && to[0] == 48 && to[1] == 88
    ensures CheckedPrecompile(to) == None && ExecutedPrecompile(to) == PrecompileNamed(to[2..])
  {
    assert HexDigitValue(to[1]) == None;
    LowerPrefix(to);
    DetectLower(to[2..]);
  }

  lemma OtherPrefix(to: Address)
    requires !(|to| >= 2 && to[0] == 48 && to[1] == 88)
    ensures CheckedPrecompile(to) == ExecutedPrecompile(to)
  {
    LowerPrefix(to);
    DetectLower(WithoutPrefix(to));
  }

  // The balance check recognises the precompile that execution runs exactly unless its address stands
  // behind an upper-case 0X.
  lemma SameDetection(to: Address)
    ensures CheckedPrecompile(to) == ExecutedPrecompile(to) <==> !UpperPrefixed(to)
  {
    if |to| >= 2 && to[0] == 48 && to[1] == 88 {
      UpperPrefix(to);
    } else {
      OtherPrefix(to);
    }
  }

  // Written 0X27, the faucet, which costs no gas, is checked against the full gas limit.
  lemma FaucetMissed(tx: Tx)
    requires tx.to == [48, 88, 50, 55]
    ensures ExecutedPrecompile(tx.to) == Some(0x27) && PrecompileGas(0x27) == 0 && ExpectedGas(tx) == tx.gasLimit
  {
    var digits: seq<byte> := [50, 55];
    assert tx.to[2..] == digits && digits[2..] == [];
    assert HexDecode(digits) == Some([0x27] + []);
    assert [0x27] + [] == [0x27];
    UpperPrefix(tx.to);
  }

  // Where execution sees no precompile, the balance check is against the full gas limit.
  lemma NoPrecompileNoDiscount(tx: Tx)
    requires ExecutedPrecompile(tx.to) == None
    ensures ExpectedGas(tx) == tx.gasLimit
  {
    SameDetection(tx.to);
  }

  // ---------- One transaction ----------

  function Lookup(accounts: Accounts, a: Address): (r: Account) {
    if a in accounts then accounts[a] else NEW_ACCOUNT
  }

  function Touch(accounts: Accounts, a: Address): (r: Accounts) {
    accounts[a := Lookup(accounts, a)]
  }

  function Price(tx: Tx): (p: u64) {
    if tx.gasPrice == 0 then 1 else tx.gasPrice
  }

  // A transfer to an address without code, with no call data.
  predicate IsPlain(accounts: Accounts, tx: Tx) {
    tx.to != [] && tx.data == [] && ExecutedPrecompile(tx.to) == None && Lookup(accounts, tx.to).code == []
  }

  function Transferred(accounts: Accounts, tx: Tx): (r: Accounts) {
    var touched := Touch(accounts, tx.to);
    if tx.from != tx.to && tx.value > 0
    then touched[tx.to := touched[tx.to].(balance := touched[tx.to].balance + tx.value)]
    else touched
  }

  function Run(m: Machine, accounts: Accounts, tx: Tx): (r: Outcome) {
    if IsPlain(accounts, tx) then Outcome(Transferred(accounts, tx), TRANSFER_GAS, false) else m.other(accounts, tx)
  }

  predicate Admitted(m: Machine, accounts: Accounts, tx: Tx) {
    && (tx.signature != [] ==> m.signatureOk(tx))
    && tx.nonce == Lookup(accounts, tx.from).nonce
    && (tx.to == [] ==> 2 <= Lookup(accounts, tx.from).level)
    && Wrap64(ExpectedGas(tx) * Price(tx)) + tx.value <= Lookup(accounts, tx.from).balance
  }

  function Charged(accounts: Accounts, tx: Tx, gasUsed: u64): (r: Accounts) {
    var sender := Lookup(accounts, tx.from);
    accounts[tx.from := sender.(
      balance := sender.balance - (Wrap64(gasUsed * Price(tx)) + tx.value), nonce := Wrap64(sender.nonce + 1))]
  }

  // The accounts after one transaction has been looked at.
  function Applied(m: Machine, accounts: Accounts, tx: Tx): (r: Accounts) {
    var touched := Touch(accounts, tx.from);
    if Admitted(m, accounts, tx) then
      var out := Run(m, touched, tx);
      Charged(out.accounts, tx, out.gasUsed)
    else touched
  }

  function Balances(accounts: Accounts): (m: map<Address, int>) {
    map a | a in accounts :: accounts[a].balance
  }

  predicate Solvent(accounts: Accounts) {
    forall a :: a in accounts ==> 0 <= accounts[a].balance
  }

  // ---------- The balance check ----------

  // Passing the balance check leaves the sender of a plain transfer solvent, whatever its balance,
  // exactly when the gas charged costs no more than the gas checked, in 64-bit arithmetic.
  lemma CheckCoversCharge(m: Machine, tx: Tx)
    requires tx.to != [] && tx.data == [] && ExecutedPrecompile(tx.to) == None
    requires tx.signature != [] ==> m.signatureOk(tx)
    ensures (forall accounts :: IsPlain(accounts, tx) && Admitted(m, accounts, tx) ==>
               0 <= Lookup(Applied(m, accounts, tx), tx.from).balance)
       <==> Wrap64(TRANSFER_GAS * Price(tx)) <= Wrap64(tx.gasLimit * Price(tx))
  {
    NoPrecompileNoDiscount(tx);
    var charged, checked := Wrap64(TRANSFER_GAS * Price(tx)), Wrap64(tx.gasLimit * Price(tx));
    forall accounts | IsPlain(accounts, tx) && Admitted(m, accounts, tx)
      ensures Lookup(Applied(m, accounts, tx), tx.from).balance
           == Lookup(accounts, tx.from).balance - (charged + tx.value)
    {
      PlainSender(m, accounts, tx);
    }
    if checked < charged {
      var poor := map[tx.from := Account(tx.nonce, checked + tx.value, [], 2)];
      assert IsPlain(poor, tx) && Admitted(m, poor, tx);
    }
  }

  lemma PlainSender(m: Machine, accounts: Accounts, tx: Tx)
    requires IsPlain(accounts, tx) && Admitted(m, accounts, tx)
    ensures Lookup(Applied(m, accounts, tx), tx.from).balance
         == Lookup(accounts, tx.from).balance - (Wrap64(TRANSFER_GAS * Price(tx)) + tx.value)
  {
    TouchKeepsPlain(accounts, tx);
  }

  lemma TouchKeepsPlain(accounts: Accounts, tx: Tx)
    ensures IsPlain(Touch(accounts, tx.from), tx) == IsPlain(accounts, tx)
    ensures Lookup(Touch(accounts, tx.from), tx.from) == Lookup(accounts, tx.from)
  {
  }

  // A transfer whose gas limit is zero passes the check and overdraws its sender.
  lemma ZeroGasLimitOverdraws(m: Machine)
    ensures var tx := Tx(0, [1], [2], 5, 0, 1, 0, [], [], []);
            var accounts := map[[1] := Account(0, 5, [], 0)];
            && IsPlain(accounts, tx) && Admitted(m, accounts, tx)
            && Lookup(Applied(m, accounts, tx), [1]).balance == -21_000
  {
    var tx := Tx(0, [1], [2], 5, 0, 1, 0, [], [], []);
    var accounts: Accounts := map[[1] := Account(0, 5, [], 0)];
    assert WithoutPrefix(tx.to) == [2];
    NoPrecompileNoDiscount(tx);
    PlainSender(m, accounts, tx);
  }

  // ---------- A block of plain transfers ----------

  // A plain transfer whose gas limit covers it and whose products fit 64 bits.
  predicate Sound(tx: Tx) {
    && tx.to != [] && tx.data == [] && ExecutedPrecompile(tx.to) == None
    && 0 <= tx.value && TRANSFER_GAS <= tx.gasLimit && tx.gasLimit * Price(tx) < TWO_64
    && tx.nonce + 1 < TWO_64
  }

  // No recipient holds code. Other accounts may.
  predicate ToCodeFree(accounts: Accounts, txs: seq<Tx>) {
    forall tx :: tx in txs ==> Lookup(accounts, tx.to).code == []
  }

  ghost predicate SameCode(before: Accounts, after: Accounts) {
    forall a :: Lookup(after, a).code == Lookup(before, a).code
  }

  // What an executed transfer takes out of circulation: its fee, and its value if sent to oneself.
  function Burnt(tx: Tx): (n: int) {
    TRANSFER_GAS * Price(tx) + if tx.from == tx.to then tx.value else 0
  }

  function Process(m: Machine, accounts: Accounts, txs: seq<Tx>): (r: Accounts) {
    if txs == [] then accounts else
      Applied(m, Process(m, accounts, txs[..|txs| - 1]), txs[|txs| - 1])
  }

  // The transactions that pass every check, in order.
  function Executed(m: Machine, accounts: Accounts, txs: seq<Tx>): (r: seq<Tx>) {
    if txs == [] then [] else
      var before, tx := txs[..|txs| - 1], txs[|txs| - 1];
      Executed(m, accounts, before) + (if Admitted(m, Process(m, accounts, before), tx) then [tx] else [])
  }

  function TotalBurnt(txs: seq<Tx>): (n: int) {
    if txs == [] then 0 else TotalBurnt(txs[..|txs| - 1]) + Burnt(txs[|txs| - 1])
  }

  function SentBy(txs: seq<Tx>, a: Address): (n: nat) {
    if txs == [] then 0 else SentBy(txs[..|txs| - 1], a) + if txs[|txs| - 1].from == a then 1 else 0
  }

  lemma BalancesUpdate(accounts: Accounts, a: Address, acc: Account)
    ensures Total(Balances(accounts[a := acc])) == Total(Balances(accounts)) - Lookup(accounts, a).balance + acc.balance
  {
    assert Balances(accounts[a := acc]) == Balances(accounts)[a := acc.balance];
    TotalUpdate(Balances(accounts), a, acc.balance);
  }

  lemma SoundProducts(tx: Tx)
    requires Sound(tx)
    ensures ExpectedGas(tx) == tx.gasLimit
    ensures Wrap64(tx.gasLimit * Price(tx)) == tx.gasLimit * Price(tx)
    ensures 0 <= Wrap64(TRANSFER_GAS * Price(tx)) == TRANSFER_GAS * Price(tx) <= tx.gasLimit * Price(tx)
  {
    NoPrecompileNoDiscount(tx);
    MulMonotone(Price(tx), TRANSFER_GAS, tx.gasLimit);
  }

  lemma TouchStep(accounts: Accounts, a: Address)
    ensures Total(Balances(Touch(accounts, a))) == Total(Balances(accounts))
    ensures forall x :: Lookup(Touch(accounts, a), x) == Lookup(accounts, x)
    ensures Solvent(accounts) ==> Solvent(Touch(accounts, a))
  {
    BalancesUpdate(accounts, a, Lookup(accounts, a));
  }

  lemma TransferStep(accounts: Accounts, tx: Tx)
    requires 0 <= tx.value && Solvent(accounts)
    ensures Solvent(Transferred(accounts, tx)) && SameCode(accounts, Transferred(accounts, tx))
    ensures Total(Balances(Transferred(accounts, tx)))
         == Total(Balances(accounts)) + if tx.from == tx.to then 0 else tx.value
    ensures Lookup(Transferred(accounts, tx), tx.from) == Lookup(accounts, tx.from)
    ensures forall a :: Lookup(Transferred(accounts, tx), a).nonce == Lookup(accounts, a).nonce
  {
    TouchStep(accounts, tx.to);
    CreditStep(Touch(accounts, tx.to), tx.to, tx.value);
  }

  lemma CreditStep(accounts: Accounts, a: Address, amount: nat)
    requires a in accounts && Solvent(accounts)
    ensures var r := accounts[a := accounts[a].(balance := accounts[a].balance + amount)];
            && Solvent(r) && SameCode(accounts, r) && Total(Balances(r)) == Total(Balances(accounts)) + amount
            && forall x :: Lookup(r, x).nonce == Lookup(accounts, x).nonce
  {
    BalancesUpdate(accounts, a, accounts[a].(balance := accounts[a].balance + amount));
  }

  lemma ChargeStep(accounts: Accounts, tx: Tx)
    requires Sound(tx) && Solvent(accounts)
    requires tx.nonce == Lookup(accounts, tx.from).nonce
    requires tx.gasLimit * Price(tx) + tx.value <= Lookup(accounts, tx.from).balance
    ensures var r := Charged(accounts, tx, TRANSFER_GAS);
            && Solvent(r) && SameCode(accounts, r)
            && Total(Balances(r)) == Total(Balances(accounts)) - TRANSFER_GAS * Price(tx) - tx.value
            && forall a :: Lookup(r, a).nonce == Lookup(accounts, a).nonce + if a == tx.from then 1 else 0
  {
    SoundProducts(tx);
    var sender := Lookup(accounts, tx.from);
    BalancesUpdate(accounts, tx.from, Charged(accounts, tx, TRANSFER_GAS)[tx.from]);
    assert Wrap64(sender.nonce + 1) == sender.nonce + 1;
  }

  // The change that one transaction accounts for, if it ran.
  ghost predicate Stepped(before: Accounts, after: Accounts, tx: Tx, ran: bool) {
    && Solvent(after) && SameCode(before, after)
    && Total(Balances(after)) == Total(Balances(before)) - (if ran then Burnt(tx) else 0)
    && forall a :: Lookup(after, a).nonce == Lookup(before, a).nonce + if ran && a == tx.from then 1 else 0
  }

  lemma SoundStep(m: Machine, accounts: Accounts, tx: Tx)
    requires Sound(tx) && Solvent(accounts) && Lookup(accounts, tx.to).code == []
    ensures Stepped(accounts, Applied(m, accounts, tx), tx, Admitted(m, accounts, tx))
  {
    var touched := Touch(accounts, tx.from);
    TouchStep(accounts, tx.from);
    if Admitted(m, accounts, tx) {
      SoundProducts(tx);
      assert IsPlain(touched, tx);
      TransferStep(touched, tx);
      ChargeStep(Transferred(touched, tx), tx);
    }
  }

  // The change that the executed transactions account for.
  ghost predicate Accounted(before: Accounts, after: Accounts, ran: seq<Tx>) {
    && Solvent(after) && SameCode(before, after)
    && Total(Balances(after)) == Total(Balances(before)) - TotalBurnt(ran)
    && forall a :: Lookup(after, a).nonce == Lookup(before, a).nonce + SentBy(ran, a)
  }

  lemma AccountedStep(before: Accounts, state: Accounts, after: Accounts, ran: seq<Tx>, tx: Tx, admitted: bool)
    requires Accounted(before, state, ran) && Stepped(state, after, tx, admitted)
    ensures Accounted(before, after, if admitted then ran + [tx] else ran)
  {
    BurntStep(ran, tx);
  }

  lemma BurntStep(ran: seq<Tx>, tx: Tx)
    ensures TotalBurnt(ran + [tx]) == TotalBurnt(ran) + Burnt(tx)
    ensures forall a :: SentBy(ran + [tx], a) == SentBy(ran, a) + if tx.from == a then 1 else 0
  {
    assert (ran + [tx])[..|ran|] == ran;
  }

  // Any list of transfers to accounts without code, with sufficient gas limits, keeps every balance
  // non-negative, takes exactly the fees (and self-sent values) of the executed ones out of circulation, and raises
  // the nonce of each account by the number of its executed transactions.
  lemma {:induction false} TransfersAccount(m: Machine, accounts: Accounts, txs: seq<Tx>)
    requires Solvent(accounts) && ToCodeFree(accounts, txs) && forall tx :: tx in txs ==> Sound(tx)
    ensures Accounted(accounts, Process(m, accounts, txs), Executed(m, accounts, txs))
  {
    if txs != [] {
      var before, tx := txs[..|txs| - 1], txs[|txs| - 1];
      TransfersAccount(m, accounts, before);
      var state := Process(m, accounts, before);
      assert tx in txs && Lookup(state, tx.to).code == Lookup(accounts, tx.to).code;
      SoundStep(m, state, tx);
      AccountedStep(accounts, state, Applied(m, state, tx), Executed(m, accounts, before), tx, Admitted(m, state, tx));
      assert Executed(m, accounts, before) + [] == Executed(m, accounts, before);
    }
  }

  // What an executed transfer does to the balance of an account.
  function Net(tx: Tx, a: Address): (n: int) {
    (if a == tx.to && tx.from != tx.to then tx.value else 0)
    - (if a == tx.from then TRANSFER_GAS * Price(tx) + tx.value else 0)
  }

  function TotalNet(txs: seq<Tx>, a: Address): (n: int) {
    if txs == [] then 0 else TotalNet(txs[..|txs| - 1], a) + Net(txs[|txs| - 1], a)
  }

  lemma NetStep(m: Machine, accounts: Accounts, tx: Tx, a: Address)
    requires Sound(tx) && Lookup(accounts, tx.to).code == []
    ensures Lookup(Applied(m, accounts, tx), a).balance
         == Lookup(accounts, a).balance + if Admitted(m, accounts, tx) then Net(tx, a) else 0
  {
    TouchStep(accounts, tx.from);
    if Admitted(m, accounts, tx) {
      SoundProducts(tx);
      assert IsPlain(Touch(accounts, tx.from), tx);
    }
  }

  // Each account ends with its balance, plus what was sent to it, less what it sent and its fees.
  lemma {:induction false} BalancesExact(m: Machine, accounts: Accounts, txs: seq<Tx>, a: Address)
    requires Solvent(accounts) && ToCodeFree(accounts, txs) && forall tx :: tx in txs ==> Sound(tx)
    ensures Lookup(Process(m, accounts, txs), a).balance
         == Lookup(accounts, a).balance + TotalNet(Executed(m, accounts, txs), a)
  {
    if txs != [] {
      var before, tx := txs[..|txs| - 1], txs[|txs| - 1];
      var ran := Executed(m, accounts, before);
      BalancesExact(m, accounts, before, a);
      TransfersAccount(m, accounts, before);
      NetStep(m, Process(m, accounts, before), tx, a);
      assert (ran + [tx])[..|ran|] == ran && ran + [] == ran;
    }
  }

  // ---------- Refusals ----------

  // A reason for which a transaction is skipped.
  predicate Refused(m: Machine, accounts: Accounts, tx: Tx) {
    var sender := Lookup(accounts, tx.from);
    || (tx.signature != [] && !m.signatureOk(tx))
    || tx.nonce != sender.nonce
    || (tx.to == [] && sender.level < 2)
    || sender.balance < Wrap64(ExpectedGas(tx) * (if tx.gasPrice == 0 then 1 else tx.gasPrice)) + tx.value
  }

  lemma AdmittedUnlessRefused(m: Machine, accounts: Accounts, tx: Tx)
    ensures Admitted(m, accounts, tx) <==> !Refused(m, accounts, tx)
  {
  }

  ghost predicate SameAccounts(before: Accounts, after: Accounts) {
    forall a :: Lookup(after, a) == Lookup(before, a)
  }

  lemma RefusedStep(m: Machine, before: Accounts, state: Accounts, tx: Tx)
    requires SameAccounts(before, state) && Refused(m, before, tx)
    ensures !Admitted(m, state, tx) && SameAccounts(before, Applied(m, state, tx))
  {
    assert Lookup(state, tx.from) == Lookup(before, tx.from);
  }

  // A list in which every transaction has a reason to be refused leaves every account as it was and
  // executes and includes nothing. Forged signatures, and contract creations below level two, are such
  // reasons.
  lemma {:induction false} AllRefused(m: Machine, accounts: Accounts, txs: seq<Tx>)
    requires forall tx :: tx in txs ==> Refused(m, accounts, tx)
    ensures SameAccounts(accounts, Process(m, accounts, txs))
    ensures Executed(m, accounts, txs) == [] && Included(m, accounts, txs) == []
  {
    if txs != [] {
      var before, tx := txs[..|txs| - 1], txs[|txs| - 1];
      assert tx in txs;
      AllRefused(m, accounts, before);
      RefusedStep(m, accounts, Process(m, accounts, before), tx);
    }
  }

  // Whatever a list holds and does, no transaction with a bad signature is executed or included.
  lemma {:induction false} NoForgery(m: Machine, accounts: Accounts, txs: seq<Tx>)
    ensures forall tx :: tx in Executed(m, accounts, txs) && tx.signature != [] ==> m.signatureOk(tx)
    ensures forall tx :: tx in Included(m, accounts, txs) ==> tx in Executed(m, accounts, txs)
  {
    if txs != [] {
      NoForgery(m, accounts, txs[..|txs| - 1]);
    }
  }

  // What an executed transaction costs its sender: the gas used at its price, or at one, in 64 bits,
  // and the value. Its nonce goes up by one; all else is as execution left it.
  lemma SenderPays(m: Machine, accounts: Accounts, tx: Tx)
    requires Admitted(m, accounts, tx)
    ensures var out := Run(m, Touch(accounts, tx.from), tx);
            var ran, after := Lookup(out.accounts, tx.from), Lookup(Applied(m, accounts, tx), tx.from);
            && after.balance
               == ran.balance - Wrap64(out.gasUsed * (if tx.gasPrice == 0 then 1 else tx.gasPrice)) - tx.value
            && after.nonce == (if ran.nonce == TWO_64 - 1 then 0 else ran.nonce + 1)
            && after.code == ran.code && after.level == ran.level
            && forall a :: a != tx.from ==> Lookup(Applied(m, accounts, tx), a) == Lookup(out.accounts, a)
  {
  }

  // What is not a transfer without call data to an address without code is left to the machine.
  lemma OtherExecutes(m: Machine, accounts: Accounts, tx: Tx)
    requires tx.to == [] || tx.data != [] || ExecutedPrecompile(tx.to).Some? || Lookup(accounts, tx.to).code != []
    ensures Run(m, Touch(accounts, tx.from), tx) == m.other(Touch(accounts, tx.from), tx)
  {
    TouchKeepsPlain(accounts, tx);
  }

  // The i-th transaction is not refused by the accounts it meets, and its execution does not fail.
  predicate Succeeds(m: Machine, accounts: Accounts, txs: seq<Tx>, i: nat)
    requires i < |txs|
  {
    var state := Process(m, accounts, txs[..i]);
    !Refused(m, state, txs[i]) && !Run(m, Touch(state, txs[i].from), txs[i]).failed
  }

  // How many of the first n transactions succeed.
  function Successes(m: Machine, accounts: Accounts, txs: seq<Tx>, n: nat): (k: nat)
    requires n <= |txs|
  {
    if n == 0 then 0 else Successes(m, accounts, txs, n - 1) + if Succeeds(m, accounts, txs, n - 1) then 1 else 0
  }

  lemma IncludedStep(m: Machine, accounts: Accounts, txs: seq<Tx>, i: nat)
    requires i < |txs|
    ensures Included(m, accounts, txs[..i + 1])
         == Included(m, accounts, txs[..i]) + if Succeeds(m, accounts, txs, i) then [txs[i]] else []
  {
    NextIncluded(m, accounts, txs, i);
    AdmittedUnlessRefused(m, Process(m, accounts, txs[..i]), txs[i]);
  }

  // The block holds exactly the transactions that succeed, each where its predecessors in the list
  // have left room for it.
  lemma {:induction false} IncludedExactly(m: Machine, accounts: Accounts, txs: seq<Tx>, n: nat)
    requires n <= |txs|
    ensures |Included(m, accounts, txs[..n])| == Successes(m, accounts, txs, n)
    ensures forall i :: 0 <= i < n && Succeeds(m, accounts, txs, i) ==>
              Successes(m, accounts, txs, i) < Successes(m, accounts, txs, n)
              && Included(m, accounts, txs[..n])[Successes(m, accounts, txs, i)] == txs[i]
  {
    if n > 0 {
      IncludedExactly(m, accounts, txs, n - 1);
      IncludedStep(m, accounts, txs, n - 1);
    }
  }

  // ---------- No replay ----------

  // A transaction is looked at, or the accounts change otherwise, as between two blocks.
  datatype Event = Apply(tx: Tx) | Outside(accounts: Accounts)

  ghost predicate NoncesKept(before: Accounts, after: Accounts) {
    forall a :: Lookup(before, a).nonce <= Lookup(after, a).nonce
  }

  // Execution never lowers a nonce.
  ghost predicate Monotone(m: Machine) {
    forall accounts, tx :: NoncesKept(accounts, m.other(accounts, tx).accounts)
  }

  function Final(m: Machine, accounts: Accounts, es: seq<Event>): (r: Accounts) {
    if es == [] then accounts else
      match es[|es| - 1]
      case Apply(tx) => Applied(m, Final(m, accounts, es[..|es| - 1]), tx)
      case Outside(after) => after
  }

  // The nonce that is about to be incremented is not the last 64-bit number.
  predicate RoomForNonce(m: Machine, accounts: Accounts, tx: Tx) {
    Lookup(Run(m, Touch(accounts, tx.from), tx).accounts, tx.from).nonce + 1 < TWO_64
  }

  ghost predicate KeepsNonces(m: Machine, accounts: Accounts, es: seq<Event>) {
    es == [] ||
    var before := es[..|es| - 1];
    KeepsNonces(m, accounts, before) &&
    match es[|es| - 1]
    case Apply(tx) => RoomForNonce(m, Final(m, accounts, before), tx)
    case Outside(after) => NoncesKept(Final(m, accounts, before), after)
  }

  // The (sender, nonce) pairs that were executed, whether or not execution succeeded.
  function Consumed(m: Machine, accounts: Accounts, es: seq<Event>): (r: seq<(Address, nat)>) {
    if es == [] then [] else
      var before, e := es[..|es| - 1], es[|es| - 1];
      Consumed(m, accounts, before)
      + if e.Apply? && Admitted(m, Final(m, accounts, before), e.tx) then [(e.tx.from, e.tx.nonce)] else []
  }

  lemma AppliedNonces(m: Machine, accounts: Accounts, tx: Tx)
    requires Monotone(m) && RoomForNonce(m, accounts, tx)
    ensures NoncesKept(accounts, Applied(m, accounts, tx))
    ensures Admitted(m, accounts, tx) ==> tx.nonce < Lookup(Applied(m, accounts, tx), tx.from).nonce
  {
    var touched := Touch(accounts, tx.from);
    var out := Run(m, touched, tx);
    RunKeepsNonces(m, touched, tx);
    assert Wrap64(Lookup(out.accounts, tx.from).nonce + 1) == Lookup(out.accounts, tx.from).nonce + 1;
    forall a ensures Lookup(accounts, a).nonce <= Lookup(Applied(m, accounts, tx), a).nonce {
      assert Lookup(touched, a) == Lookup(accounts, a);
      assert Lookup(touched, a).nonce <= Lookup(out.accounts, a).nonce;
    }
    if Admitted(m, accounts, tx) {
      assert Lookup(touched, tx.from).nonce <= Lookup(out.accounts, tx.from).nonce;
    }
  }

  lemma RunKeepsNonces(m: Machine, accounts: Accounts, tx: Tx)
    requires Monotone(m)
    ensures NoncesKept(accounts, Run(m, accounts, tx).accounts)
  {
    if !IsPlain(accounts, tx) {
      assert NoncesKept(accounts, m.other(accounts, tx).accounts);
    }
  }

  // All used pairs are distinct, and below the nonces of their senders.
  ghost predicate UsedUp(used: seq<(Address, nat)>, accounts: Accounts) {
    && (forall i :: 0 <= i < |used| ==> used[i].1 < Lookup(accounts, used[i].0).nonce)
    && (forall i, j :: 0 <= i < j < |used| ==> used[i] != used[j])
  }

  lemma UseOne(used: seq<(Address, nat)>, before: Accounts, after: Accounts, a: Address, n: nat)
    requires UsedUp(used, before) && NoncesKept(before, after)
    requires n == Lookup(before, a).nonce < Lookup(after, a).nonce
    ensures UsedUp(used + [(a, n)], after)
  {
    forall i | 0 <= i < |used| ensures used[i] != (a, n) && used[i].1 < Lookup(after, used[i].0).nonce {
      assert Lookup(before, used[i].0).nonce <= Lookup(after, used[i].0).nonce;
    }
  }

  lemma UseNone(used: seq<(Address, nat)>, before: Accounts, after: Accounts)
    requires UsedUp(used, before) && NoncesKept(before, after)
    ensures UsedUp(used + [], after)
  {
    forall i | 0 <= i < |used| ensures used[i].1 < Lookup(after, used[i].0).nonce {
      assert Lookup(before, used[i].0).nonce <= Lookup(after, used[i].0).nonce;
    }
    assert used + [] == used;
  }

  // No (sender, nonce) pair is ever executed twice, over any sequence of blocks and whatever happens
  // to the accounts in between, as long as nonces are never lowered.
  lemma {:induction false} NoReplay(m: Machine, accounts: Accounts, es: seq<Event>)
    requires Monotone(m) && KeepsNonces(m, accounts, es)
    ensures UsedUp(Consumed(m, accounts, es), Final(m, accounts, es))
  {
    if es != [] {
      var before := es[..|es| - 1];
      NoReplay(m, accounts, before);
      var used, state := Consumed(m, accounts, before), Final(m, accounts, before);
      match es[|es| - 1] {
        case Apply(tx) =>
          AppliedNonces(m, state, tx);
          if Admitted(m, state, tx) {
            UseOne(used, state, Applied(m, state, tx), tx.from, tx.nonce);
          } else {
            UseNone(used, state, Applied(m, state, tx));
          }
        case Outside(after) => UseNone(used, state, after);
      }
    }
  }

  // The transactions that a run executed, each with the accounts it met.
  function Ran(m: Machine, accounts: Accounts, es: seq<Event>): (r: seq<(Accounts, Tx)>) {
    if es == [] then [] else
      var before, e := es[..|es| - 1], es[|es| - 1];
      Ran(m, accounts, before)
      + if e.Apply? && Admitted(m, Final(m, accounts, before), e.tx) then [(Final(m, accounts, before), e.tx)] else []
  }

  // Over every run, whatever happens to the accounts in between, each executed transaction had a good
  // signature or none, the nonce of its sender, a sender of level two or more if it created a contract,
  // and the funds for its expected gas and its value.
  lemma {:induction false} RunAdmits(m: Machine, accounts: Accounts, es: seq<Event>)
    ensures forall i :: 0 <= i < |Ran(m, accounts, es)| ==>
              var (state, tx) := Ran(m, accounts, es)[i];
              var sender := Lookup(state, tx.from);
              && (tx.signature == [] || m.signatureOk(tx))
              && tx.nonce == sender.nonce
              && (tx.to == [] ==> 2 <= sender.level)
              && Wrap64(ExpectedGas(tx) * (if tx.gasPrice == 0 then 1 else tx.gasPrice)) + tx.value <= sender.balance
  {
    if es != [] {
      RunAdmits(m, accounts, es[..|es| - 1]);
    }
  }

  // ---------- The pool and the chain ----------

  const ORACLE_LANE := 1
  const PRIVATE_LANE := 2

  class TxPool {
    var consensus: seq<Tx>
    var oracle: seq<Tx>
    var private_: seq<Tx>

    constructor ()
      ensures consensus == [] && oracle == [] && private_ == []
    {
      consensus, oracle, private_ := [], [], [];
    }

    // Unknown lanes count as the consensus lane.
    method Add(tx: Tx)
      modifies this
      ensures consensus == old(consensus) + if tx.lane == 1 || tx.lane == 2 then [] else [tx]
      ensures oracle == old(oracle) + if tx.lane == 1 then [tx] else []
      ensures private_ == old(private_) + if tx.lane == 2 then [tx] else []
    {
      if tx.lane == PRIVATE_LANE {
        private_ := private_ + [tx];
      } else if tx.lane == ORACLE_LANE {
        oracle := oracle + [tx];
      } else {
        consensus := consensus + [tx];
      }
    }

    // The oldest transactions leave first; none is lost.
    method PopConsensus(count: nat) returns (txs: seq<Tx>)
      modifies this`consensus
      ensures txs + consensus == old(consensus)
      ensures |txs| == if count < |old(consensus)| then count else |old(consensus)|
    {
      var n := count;
      if n > |consensus| {
        n := |consensus|;
      }
      txs := consensus[..n];
      consensus := consensus[n..];
    }
  }

  const BLOCK_SIZE := 10

  class Chain {
    var accounts: Accounts
    var height: u64
    const pool: TxPool

    constructor (accounts: Accounts, pool: TxPool)
      ensures this.accounts == accounts && this.pool == pool && height == 0
    {
      this.accounts, this.pool, height := accounts, pool, 0;
    }

    // Looks at one transaction.
    method Execute(m: Machine, tx: Tx) returns (included: bool)
      modifies this`accounts
      ensures accounts == Applied(m, old(accounts), tx)
      ensures included <==> Admitted(m, old(accounts), tx) && !Run(m, Touch(old(accounts), tx.from), tx).failed
    {
      accounts := Touch(accounts, tx.from);
      assert forall a :: Lookup(accounts, a) == Lookup(old(accounts), a);
      var sender := accounts[tx.from];
      if tx.signature != [] && !m.signatureOk(tx) {
        return false;
      }
      if tx.nonce != sender.nonce {
        return false;
      }
      if tx.to == [] && sender.level < 2 {
        return false;
      }
      var gasPrice := tx.gasPrice;
      if gasPrice == 0 {
        gasPrice := 1;
      }
      var txCost := Wrap64(ExpectedGas(tx) * gasPrice) + tx.value;
      if sender.balance < txCost {
        return false;
      }
      var result := Run(m, accounts, tx);
      sender := Lookup(result.accounts, tx.from);
      var cost := Wrap64(result.gasUsed * gasPrice) + tx.value;
      sender := sender.(balance := sender.balance - cost, nonce := Wrap64(sender.nonce + 1));
      accounts := result.accounts[tx.from := sender];
      return !result.failed;
    }

    // The transaction part of one block: at most ten transactions from the pool, in order.
    method ProduceBlock(m: Machine) returns (popped: seq<Tx>, included: seq<Tx>)
      modifies this, pool
      ensures popped + pool.consensus == old(pool.consensus) && |popped| <= 10
      ensures pool.consensus != [] ==> |popped| == 10
      ensures accounts == Process(m, old(accounts), popped) && height == Wrap64(old(height) + 1)
      ensures included == Included(m, old(accounts), popped)
    {
      height := Wrap64(height + 1);
      popped := pool.PopConsensus(BLOCK_SIZE);
      included := ExecuteAll(m, popped);
    }

    method ExecuteAll(m: Machine, txs: seq<Tx>) returns (included: seq<Tx>)
      modifies this`accounts
      ensures accounts == Process(m, old(accounts), txs) && included == Included(m, old(accounts), txs)
    {
      included := [];
      for i := 0 to |txs|
        invariant accounts == Process(m, old(accounts), txs[..i])
        invariant included == Included(m, old(accounts), txs[..i])
      {
        NextIncluded(m, old(accounts), txs, i);
        var ok := Execute(m, txs[i]);
        if ok {
          included := included + [txs[i]];
        }
      }
      assert txs[..|txs|] == txs;
    }
  }

  // The transactions that end up in the block: admitted, and executed without an error.
  function Included(m: Machine, accounts: Accounts, txs: seq<Tx>): (r: seq<Tx>) {
    if txs == [] then [] else
      var before, tx := txs[..|txs| - 1], txs[|txs| - 1];
      var state := Process(m, accounts, before);
      Included(m, accounts, before)
      + if Admitted(m, state, tx) && !Run(m, Touch(state, tx.from), tx).failed then [tx] else []
  }

  lemma NextIncluded(m: Machine, accounts: Accounts, txs: seq<Tx>, i: nat)
    requires i < |txs|
    ensures var state := Process(m, accounts, txs[..i]);
            && Process(m, accounts, txs[..i + 1]) == Applied(m, state, txs[i])
            && Included(m, accounts, txs[..i + 1]) == Included(m, accounts, txs[..i])
               + if Admitted(m, state, txs[i]) && !Run(m, Touch(state, txs[i].from), txs[i]).failed
                 then [txs[i]] else []
  {
    assert txs[..i + 1][..i] == txs[..i];
  }
}
