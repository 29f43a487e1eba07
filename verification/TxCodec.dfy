/** The binary transaction format: a sequence of fixed-width fields and fields preceded
    by their length. */
module TxCodec {
  import opened Bytes
  import opened Transactions
  import opened Wrappers

  // ---------- Layouts: printing and parsing a list of fields ----------

  // A field of exactly n bytes, or one preceded by its length in n big-endian bytes.
  datatype Field = Fixed(n: nat) | Prefixed(n: nat)

  type Chunks = seq<seq<byte>>

  // Which field ran short, and whether it was its length prefix that did.
  datatype ShortRead = ShortRead(field: nat, inLength: bool)

  // The chunk fits its field: its width, or the range of its length prefix.
  predicate FitsField(f: Field, c: seq<byte>) {
    match f
    case Fixed(n) => |c| == n
    case Prefixed(n) => |c| < Pow256(n)
  }

  predicate Fits(fs: seq<Field>, cs: Chunks) {
    |cs| == |fs| && forall i :: 0 <= i < |fs| ==> FitsField(fs[i], cs[i])
  }

  function PrintField(f: Field, c: seq<byte>): (s: seq<byte>) {
    match f
    case Fixed(_) => c
    case Prefixed(n) => BigEndian(|c|, n) + c
  }

  // The text of the fields from number i on.
  function Print(fs: seq<Field>, cs: Chunks, i: nat): (s: seq<byte>)
    requires |cs| == |fs|
    decreases |fs| - i
  {
    if i >= |fs| then [] else PrintField(fs[i], cs[i]) + Print(fs, cs, i + 1)
  }

  // The chunk of one field read at offset off, with the offset behind it.
  function ParseField(fs: seq<Field>, i: nat, data: seq<byte>, off: nat): (r: Result<(seq<byte>, nat), ShortRead>)
    requires i < |fs| && off <= |data|
    ensures r.Ok? ==> off <= r.value.1 <= |data|
  {
    match fs[i]
    case Fixed(n) =>
      if off + n > |data| then Err(ShortRead(i, false)) else Ok((data[off..off + n], off + n))
    case Prefixed(n) =>
      if off + n > |data| then Err(ShortRead(i, true)) else
        var len := Value(data[off..off + n]);
        if off + n + len > |data| then Err(ShortRead(i, false))
        else Ok((data[off + n..off + n + len], off + n + len))
  }

  // All chunks, of which `done` have been read and the others start at offset off,
  // with the offset behind them.
  function Parse(fs: seq<Field>, done: Chunks, data: seq<byte>, off: nat): (r: Result<(Chunks, nat), ShortRead>)
    requires |done| <= |fs| && off <= |data|
    ensures r.Ok? ==> |r.value.0| == |fs| && off <= r.value.1 <= |data|
    decreases |fs| - |done|
  {
    if |done| == |fs| then Ok((done, off)) else
      match ParseField(fs, |done|, data, off)
      case Err(e) => Err(e)
      case Ok(p) => Parse(fs, done + [p.0], data, p.1)
  }

  // data[off..end] is the text of the fields from number i on.
  predicate PrintedAt(fs: seq<Field>, cs: Chunks, i: nat, data: seq<byte>, off: nat, end: nat)
    requires |cs| == |fs|
  {
    off <= end <= |data| && data[off..end] == Print(fs, cs, i)
  }

  lemma FieldAt(fs: seq<Field>, i: nat, c: seq<byte>, data: seq<byte>, off: nat, mid: nat)
    requires i < |fs| && FitsField(fs[i], c)
    requires off <= mid <= |data| && data[off..mid] == PrintField(fs[i], c)
    ensures ParseField(fs, i, data, off) == Ok((c, mid))
  {
    if fs[i].Prefixed? {
      var n := fs[i].n;
      ValueOfBigEndian(|c|, n);
      assert data[off..off + n] == data[off..mid][..n] == BigEndian(|c|, n);
      assert data[off + n..mid] == data[off..mid][n..] == c;
    }
  }

  // One step through a printed text.
  lemma NextField(fs: seq<Field>, cs: Chunks, i: nat, data: seq<byte>, off: nat, end: nat) returns (mid: nat)
    requires i < |fs| == |cs| && FitsField(fs[i], cs[i])
    requires PrintedAt(fs, cs, i, data, off, end)
    ensures off <= mid <= end && ParseField(fs, i, data, off) == Ok((cs[i], mid))
    ensures PrintedAt(fs, cs, i + 1, data, mid, end)
  {
    var here := PrintField(fs[i], cs[i]);
    mid := off + |here|;
    assert data[off..mid] == data[off..end][..|here|] == here;
    assert data[mid..end] == data[off..end][|here|..] == Print(fs, cs, i + 1);
    FieldAt(fs, i, cs[i], data, off, mid);
  }

  lemma ParseStep(fs: seq<Field>, cs: Chunks, i: nat, data: seq<byte>, off: nat, mid: nat)
    requires i < |fs| == |cs| && off <= |data|
    requires ParseField(fs, i, data, off) == Ok((cs[i], mid))
    ensures Parse(fs, cs[..i], data, off) == Parse(fs, cs[..i + 1], data, mid)
  {
    assert cs[..i] + [cs[i]] == cs[..i + 1];
  }

  lemma {:induction false} ParseOfPrint(fs: seq<Field>, cs: Chunks, i: nat, data: seq<byte>, off: nat, end: nat)
    requires Fits(fs, cs) && i <= |fs|
    requires PrintedAt(fs, cs, i, data, off, end)
    ensures Parse(fs, cs[..i], data, off) == Ok((cs, end))
    decreases |fs| - i
  {
    if i < |fs| {
      var mid := NextField(fs, cs, i, data, off, end);
      ParseOfPrint(fs, cs, i + 1, data, mid, end);
      ParseStep(fs, cs, i, data, off, mid);
    } else {
      assert cs[..i] == cs;
    }
  }

  lemma WholeRoundTrip(fs: seq<Field>, cs: Chunks, after: seq<byte>)
    requires Fits(fs, cs)
    ensures Parse(fs, [], Print(fs, cs, 0) + after, 0) == Ok((cs, |Print(fs, cs, 0)|))
  {
    var text := Print(fs, cs, 0);
    ParseOfPrint(fs, cs, 0, text + after, 0, |text|);
    assert cs[..0] == [];
  }

  // Chunks that fit are recovered from their text.
  lemma PrintInjective(fs: seq<Field>, cs: Chunks, cs': Chunks)
    requires Fits(fs, cs) && Fits(fs, cs')
    requires Print(fs, cs, 0) == Print(fs, cs', 0)
    ensures cs == cs'
  {
    WholeRoundTrip(fs, cs, []);
    WholeRoundTrip(fs, cs', []);
  }

  lemma FieldTextOfParse(fs: seq<Field>, i: nat, data: seq<byte>, off: nat)
    requires i < |fs| && off <= |data| && ParseField(fs, i, data, off).Ok?
    ensures var (c, mid) := ParseField(fs, i, data, off).value;
            FitsField(fs[i], c) && data[off..mid] == PrintField(fs[i], c)
  {
    if fs[i].Prefixed? {
      var (c, mid) := ParseField(fs, i, data, off).value;
      var start := off + fs[i].n;
      BigEndianOfValue(data[off..start]);
      assert c == data[start..mid];
      assert data[off..mid] == data[off..start] + data[start..mid];
    }
  }

  lemma Adjoin(data: seq<byte>, i: nat, j: nat, k: nat)
    requires i <= j <= k <= |data|
    ensures data[i..k] == data[i..j] + data[j..k]
  {
  }

  lemma {:induction false} PrintOfParse(fs: seq<Field>, done: Chunks, data: seq<byte>, off: nat)
    requires |done| <= |fs| && off <= |data| && Parse(fs, done, data, off).Ok?
    ensures var (cs, end) := Parse(fs, done, data, off).value;
            && done <= cs
            && (forall k :: |done| <= k < |fs| ==> FitsField(fs[k], cs[k]))
            && data[off..end] == Print(fs, cs, |done|)
    decreases |fs| - |done|
  {
    if |done| < |fs| {
      var i := |done|;
      var (c, mid) := ParseField(fs, i, data, off).value;
      var (cs, end) := Parse(fs, done, data, off).value;
      PrintOfParse(fs, done + [c], data, mid);
      assert cs[i] == (done + [c])[i] == c;
      FieldTextOfParse(fs, i, data, off);
      Adjoin(data, off, mid, end);
    }
  }

  // ---------- Transactions ----------

  const LAYOUT: seq<Field> := [
    Fixed(8), Prefixed(2), Prefixed(2), Prefixed(2), Fixed(8), Fixed(8), Fixed(1),
    Prefixed(4), Prefixed(4), Prefixed(2)]

  // big.Int.Bytes drops the sign of the value.
  function ChunksOf(tx: Tx): (cs: Chunks) {
    [BigEndian(tx.nonce, 8), tx.from, tx.to, Minimal(Abs(tx.value)),
     BigEndian(tx.gasLimit, 8), BigEndian(tx.gasPrice, 8), [tx.lane],
     tx.encryptedData, tx.data, tx.signature]
  }

  function TxOf(cs: Chunks): (tx: Tx)
    requires Fits(LAYOUT, cs)
  {
    BigEndianOfValue(cs[0]); BigEndianOfValue(cs[4]); BigEndianOfValue(cs[5]);
    assert Pow256(8) == TWO_64;
    assert FitsField(LAYOUT[0], cs[0]) && FitsField(LAYOUT[4], cs[4])
        && FitsField(LAYOUT[5], cs[5]) && FitsField(LAYOUT[6], cs[6]);
    Tx(Value(cs[0]), cs[1], cs[2], Value(cs[3]), Value(cs[4]), Value(cs[5]),
       cs[6][0], cs[7], cs[8], cs[9])
  }

  // The wire text of a transaction.
  function Wire(tx: Tx): (s: seq<byte>) {
    Print(LAYOUT, ChunksOf(tx), 0)
  }

  // The transaction at the front of data, with the number of bytes it takes.
  function ReadTx(data: seq<byte>): (r: Result<(Tx, nat), ShortRead>) {
    match Parse(LAYOUT, [], data, 0)
    case Err(e) => Err(e)
    case Ok(p) =>
      ParsedFits(data);
      Ok((TxOf(p.0), p.1))
  }

  lemma ParsedFits(data: seq<byte>)
    requires Parse(LAYOUT, [], data, 0).Ok?
    ensures Fits(LAYOUT, Parse(LAYOUT, [], data, 0).value.0)
  {
    PrintOfParse(LAYOUT, [], data, 0);
  }

  // What the format can carry: a sign-less value, and lengths in range of their prefixes.
  predicate Encodable(tx: Tx) {
    && 0 <= tx.value && |Minimal(tx.value)| < 0x1_0000
    && |tx.from| < 0x1_0000 && |tx.to| < 0x1_0000 && |tx.signature| < 0x1_0000
    && |tx.encryptedData| < 0x1_0000_0000 && |tx.data| < 0x1_0000_0000
  }

  lemma Widths()
    ensures Pow256(1) == 0x100 && Pow256(2) == 0x1_0000 && Pow256(4) == 0x1_0000_0000
    ensures Pow256(8) == TWO_64
  {
    assert Pow256(3) == 256 * Pow256(2);
    assert Pow256(5) == 256 * Pow256(4);
    assert Pow256(6) == 256 * Pow256(5);
    assert Pow256(7) == 256 * Pow256(6);
  }

  lemma ChunksOfFit(tx: Tx)
    requires 0 <= tx.value
    ensures Fits(LAYOUT, ChunksOf(tx)) <==> Encodable(tx)
  {
    Widths();
    var cs := ChunksOf(tx);
    assert forall i :: 0 <= i < |LAYOUT| && i != 3 && LAYOUT[i].Fixed? ==> FitsField(LAYOUT[i], cs[i]);
    assert FitsField(LAYOUT[1], cs[1]) <==> |tx.from| < 0x1_0000;
    assert FitsField(LAYOUT[2], cs[2]) <==> |tx.to| < 0x1_0000;
    assert FitsField(LAYOUT[3], cs[3]) <==> |Minimal(tx.value)| < 0x1_0000;
    assert FitsField(LAYOUT[7], cs[7]) <==> |tx.encryptedData| < 0x1_0000_0000;
    assert FitsField(LAYOUT[8], cs[8]) <==> |tx.data| < 0x1_0000_0000;
    assert FitsField(LAYOUT[9], cs[9]) <==> |tx.signature| < 0x1_0000;
  }

  lemma TxOfChunksOf(tx: Tx)
    requires Encodable(tx)
    ensures Fits(LAYOUT, ChunksOf(tx)) && TxOf(ChunksOf(tx)) == tx
  {
    ChunksOfFit(tx);
    Widths();
    ValueOfBigEndian(tx.nonce, 8);
    ValueOfBigEndian(tx.gasLimit, 8);
    ValueOfBigEndian(tx.gasPrice, 8);
    ValueOfMinimal(tx.value);
  }

  // Whatever is read can be carried: sizes are bounded by their prefixes and values have no sign.
  lemma ReadIsEncodable(data: seq<byte>)
    requires ReadTx(data).Ok?
    ensures Encodable(ReadTx(data).value.0)
  {
    ParsedFits(data);
    Widths();
    var cs := Parse(LAYOUT, [], data, 0).value.0;
    BigEndianOfValue(cs[3]);
    MinimalLength(Value(cs[3]), |cs[3]|);
    assert forall i :: 0 <= i < |LAYOUT| ==> FitsField(LAYOUT[i], cs[i]);
    assert FitsField(LAYOUT[1], cs[1]) && FitsField(LAYOUT[2], cs[2]) && FitsField(LAYOUT[3], cs[3])
        && FitsField(LAYOUT[7], cs[7]) && FitsField(LAYOUT[8], cs[8]) && FitsField(LAYOUT[9], cs[9]);
  }

  // Round trip: a transaction survives the wire, whatever bytes follow it, exactly when its value
  // is not negative and its fields are in range of their length prefixes.
  lemma RoundTrip(tx: Tx, suffix: seq<byte>)
    ensures ReadTx(Wire(tx) + suffix) == Ok((tx, |Wire(tx)|)) <==> Encodable(tx)
  {
    var data := Wire(tx) + suffix;
    if Encodable(tx) {
      TxOfChunksOf(tx);
      WholeRoundTrip(LAYOUT, ChunksOf(tx), suffix);
    } else if ReadTx(data).Ok? {
      ReadIsEncodable(data);
    }
  }

  // The wire text is self-delimiting: no encoding is the start of another one.
  lemma PrefixFree(a: Tx, b: Tx)
    requires Encodable(a) && Encodable(b)
    requires Wire(a) <= Wire(b)
    ensures a == b
  {
    var s, t := Wire(a), Wire(b);
    RoundTrip(a, t[|s|..]);
    RoundTrip(b, []);
    assert t == s + t[|s|..];
    assert t + [] == t;
  }

  // The bytes of the value field of an accepted text.
  function ValueField(data: seq<byte>): (s: seq<byte>)
    requires ReadTx(data).Ok?
  {
    Parse(LAYOUT, [], data, 0).value.0[3]
  }

  // Re-serializing what was read reproduces every chunk but the value's.
  lemma ChunksOfRead(data: seq<byte>)
    requires ReadTx(data).Ok?
    ensures var cs := Parse(LAYOUT, [], data, 0).value.0;
            Fits(LAYOUT, cs) && ChunksOf(ReadTx(data).value.0) == cs[3 := Minimal(Value(cs[3]))]
  {
    var tx := ReadTx(data).value.0;
    var cs := Parse(LAYOUT, [], data, 0).value.0;
    ParsedFits(data);
    assert FitsField(LAYOUT[0], cs[0]) && FitsField(LAYOUT[4], cs[4])
        && FitsField(LAYOUT[5], cs[5]) && FitsField(LAYOUT[6], cs[6]);
    BigEndianOfValue(cs[0]);
    BigEndianOfValue(cs[4]);
    BigEndianOfValue(cs[5]);
    assert [tx.lane] == cs[6];
  }

  // Canonicity: an accepted text is the one the serializer writes for the transaction it denotes
  // exactly when its value field has no leading zero byte.
  lemma Canonicity(data: seq<byte>)
    requires ReadTx(data).Ok?
    ensures var (tx, n) := ReadTx(data).value;
            Wire(tx) == data[..n] <==> NoLeadingZero(ValueField(data))
  {
    var tx := ReadTx(data).value.0;
    var cs := Parse(LAYOUT, [], data, 0).value.0;
    PrintOfParse(LAYOUT, [], data, 0);
    ChunksOfRead(data);
    MinimalOfValue(cs[3]);
    if Print(LAYOUT, cs, 0) == Print(LAYOUT, ChunksOf(tx), 0) {
      ReadIsEncodable(data);
      ChunksOfFit(tx);
      PrintInjective(LAYOUT, cs, ChunksOf(tx));
    }
  }

  lemma PrintNext(fs: seq<Field>, cs: Chunks, i: nat)
    requires |cs| == |fs| && i < |fs|
    ensures Print(fs, cs, i)
         == (if fs[i].Fixed? then cs[i] else BigEndian(|cs[i]|, fs[i].n) + cs[i]) + Print(fs, cs, i + 1)
  {
  }

  // The length of a chunk in n big-endian bytes, and the chunk.
  function Counted(c: seq<byte>, n: nat): (s: seq<byte>) {
    BigEndian(|c|, n) + c
  }

  // The text from the gas price on.
  lemma WireEnd(tx: Tx)
    ensures Print(LAYOUT, ChunksOf(tx), 5)
         == BigEndian(tx.gasPrice, 8) + ([tx.lane]
          + (Counted(tx.encryptedData, 4) + (Counted(tx.data, 4) + Counted(tx.signature, 2))))
  {
    var cs := ChunksOf(tx);
    PrintNext(LAYOUT, cs, 5);
    PrintNext(LAYOUT, cs, 6);
    PrintNext(LAYOUT, cs, 7);
    PrintNext(LAYOUT, cs, 8);
    PrintNext(LAYOUT, cs, 9);
    assert Print(LAYOUT, cs, 10) == [];
    assert Counted(tx.signature, 2) + [] == Counted(tx.signature, 2);
  }

  lemma WireStart(tx: Tx, end: seq<byte>)
    requires end == Print(LAYOUT, ChunksOf(tx), 5)
    ensures Wire(tx)
         == BigEndian(tx.nonce, 8) + (Counted(tx.from, 2) + (Counted(tx.to, 2)
          + (Counted(Minimal(Abs(tx.value)), 2) + (BigEndian(tx.gasLimit, 8) + end))))
  {
    var cs := ChunksOf(tx);
    PrintNext(LAYOUT, cs, 0);
    PrintNext(LAYOUT, cs, 1);
    PrintNext(LAYOUT, cs, 2);
    PrintNext(LAYOUT, cs, 3);
    PrintNext(LAYOUT, cs, 4);
  }

  // The wire text, field by field: numbers in eight big-endian bytes, addresses, value and signature
  // after two bytes of length, the lane in one byte, and both data fields after four bytes of length.
  lemma WireText(tx: Tx)
    ensures Wire(tx)
         == BigEndian(tx.nonce, 8) + (Counted(tx.from, 2) + (Counted(tx.to, 2)
          + (Counted(Minimal(Abs(tx.value)), 2) + (BigEndian(tx.gasLimit, 8) + (BigEndian(tx.gasPrice, 8) + ([tx.lane]
          + (Counted(tx.encryptedData, 4) + (Counted(tx.data, 4) + Counted(tx.signature, 2)))))))))
  {
    WireEnd(tx);
    WireStart(tx, Print(LAYOUT, ChunksOf(tx), 5));
  }

  // ---------- The code that writes and reads the format ----------

  // The text of the first i fields.
  ghost function Written(fs: seq<Field>, cs: Chunks, i: nat): (s: seq<byte>)
    requires i <= |fs| == |cs|
  {
    if i == 0 then [] else Written(fs, cs, i - 1) + PrintField(fs[i - 1], cs[i - 1])
  }

  lemma Regroup(r: seq<byte>, s: seq<byte>, t: seq<byte>)
    ensures r + s + t == r + (s + t)
  {
  }

  lemma {:induction false} WrittenThenPrinted(fs: seq<Field>, cs: Chunks, i: nat)
    requires i <= |fs| == |cs|
    ensures Written(fs, cs, i) + Print(fs, cs, i) == Print(fs, cs, 0)
  {
    if i > 0 {
      WrittenThenPrinted(fs, cs, i - 1);
      Regroup(Written(fs, cs, i - 1), PrintField(fs[i - 1], cs[i - 1]), Print(fs, cs, i));
    }
  }

  // Appends one field: its length, if it is preceded by one, and its bytes.
  method AppendField(buf: seq<byte>, f: Field, c: seq<byte>, ghost fs: seq<Field>, ghost cs: Chunks, ghost i: nat)
    returns (r: seq<byte>)
    requires i < |fs| == |cs| && fs[i] == f && cs[i] == c
    requires buf == Written(fs, cs, i)
    ensures r == Written(fs, cs, i + 1)
  {
    r := buf;
    if f.Prefixed? {
      r := r + BigEndian(|c|, f.n);
    }
    r := r + c;
    assert r == buf + PrintField(f, c);
  }

  method SerializeTx(tx: Tx) returns (buf: seq<byte>)
    ensures buf == Wire(tx)
  {
    var valBytes := Minimal(Abs(tx.value));
    ghost var cs := ChunksOf(tx);
    buf := [];
    buf := AppendField(buf, Fixed(8), BigEndian(tx.nonce, 8), LAYOUT, cs, 0);
    buf := AppendField(buf, Prefixed(2), tx.from, LAYOUT, cs, 1);
    buf := AppendField(buf, Prefixed(2), tx.to, LAYOUT, cs, 2);
    buf := AppendField(buf, Prefixed(2), valBytes, LAYOUT, cs, 3);
    buf := AppendField(buf, Fixed(8), BigEndian(tx.gasLimit, 8), LAYOUT, cs, 4);
    buf := AppendField(buf, Fixed(8), BigEndian(tx.gasPrice, 8), LAYOUT, cs, 5);
    buf := AppendField(buf, Fixed(1), [tx.lane], LAYOUT, cs, 6);
    buf := AppendField(buf, Prefixed(4), tx.encryptedData, LAYOUT, cs, 7);
    buf := AppendField(buf, Prefixed(4), tx.data, LAYOUT, cs, 8);
    buf := AppendField(buf, Prefixed(2), tx.signature, LAYOUT, cs, 9);
    WrittenThenPrinted(LAYOUT, cs, 10);
  }

  class Reader {
    const data: seq<byte>
    var off: nat
    var buf: seq<byte>

    ghost predicate Valid()
      reads this
    {
      off <= |data|
    }

    constructor (data: seq<byte>)
      ensures Valid() && this.data == data && off == 0
    {
      this.data, off, buf := data, 0, [];
    }

    // Takes the next n bytes into buf, or leaves everything as it is when fewer are left.
    method Read(n: nat) returns (ok: bool)
      requires Valid()
      modifies this
      ensures Valid()
      ensures ok <==> old(off) + n <= |data|
      ensures ok ==> off == old(off) + n && buf == data[old(off)..off]
      ensures !ok ==> off == old(off) && buf == old(buf)
    {
      if off + n > |data| {
        return false;
      }
      buf := data[off..off + n];
      off := off + n;
      return true;
    }

    // Takes field number i of the layout. The ghost arguments are the chunks taken before and
    // what the whole input parses to.
    method Take(i: nat, ghost done: Chunks, ghost whole: Result<(Chunks, nat), ShortRead>)
      returns (r: Result<seq<byte>, ShortRead>)
      requires Valid() && i == |done| < |LAYOUT|
      requires whole == Parse(LAYOUT, done, data, off)
      modifies this
      ensures Valid()
      ensures r.Ok? ==> whole == Parse(LAYOUT, done + [r.value], data, off)
      ensures r.Err? ==> whole == Err(r.error)
    {
      var len := LAYOUT[i].n;
      if LAYOUT[i].Prefixed? {
        var ok := Read(len);
        if !ok {
          return Err(ShortRead(i, true));
        }
        len := Value(buf);
      }
      var ok := Read(len);
      return if ok then Ok(buf) else Err(ShortRead(i, false));
    }
  }

  method ReadChunks(data: seq<byte>) returns (r: Result<Chunks, ShortRead>)
    ensures match Parse(LAYOUT, [], data, 0)
            case Ok(p) => r == Ok(p.0)
            case Err(e) => r == Err(e)
  {
    var reader := new Reader(data);
    ghost var whole := Parse(LAYOUT, [], data, 0);
    var cs: Chunks := [];
    var nonce :- reader.Take(0, cs, whole);
    cs := cs + [nonce];
    var from :- reader.Take(1, cs, whole);
    cs := cs + [from];
    var to :- reader.Take(2, cs, whole);
    cs := cs + [to];
    var value :- reader.Take(3, cs, whole);
    cs := cs + [value];
    var gasLimit :- reader.Take(4, cs, whole);
    cs := cs + [gasLimit];
    var gasPrice :- reader.Take(5, cs, whole);
    cs := cs + [gasPrice];
    var lane :- reader.Take(6, cs, whole);
    cs := cs + [lane];
    var encryptedData :- reader.Take(7, cs, whole);
    cs := cs + [encryptedData];
    var payload :- reader.Take(8, cs, whole);
    cs := cs + [payload];
    var signature :- reader.Take(9, cs, whole);
    cs := cs + [signature];
    return Ok(cs);
  }

  // Reads the transaction at the front of data, with the text its hash is taken of.
  method DeserializeTx(data: seq<byte>) returns (r: Result<(Tx, seq<byte>), ShortRead>)
    ensures r.Ok? <==> ReadTx(data).Ok?
    ensures r.Ok? ==> r.value == (ReadTx(data).value.0, Preimage(r.value.0))
    ensures r.Err? ==> r.error == ReadTx(data).error
  {
    var cs :- ReadChunks(data);
    ParsedFits(data);
    var tx := TxOf(cs);
    return Ok((tx, Preimage(tx)));
  }
}
