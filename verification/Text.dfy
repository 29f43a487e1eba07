/** Text as the node's format strings produce it: decimal and hexadecimal numbers joined
    with colons. Characters are their byte codes. */
module Text {
  import opened Bytes

  const COLON: byte := 58
  const MINUS: byte := 45

  // %d of a non-negative number.
  function Decimal(n: nat): (s: seq<byte>) {
    if n < 10 then [48 + n] else Decimal(n / 10) + [48 + n % 10]
  }

  // big.Int.String.
  function Signed(z: int): (s: seq<byte>) {
    if z < 0 then [MINUS] + Decimal(-z) else Decimal(z)
  }

  function HexDigit(d: nat): (c: byte)
    requires d < 16
  {
    if d < 10 then 48 + d else 87 + d
  }

  // %x of a byte string.
  function Hex(s: seq<byte>): (t: seq<byte>) {
    if s == [] then [] else [HexDigit(s[0] / 16), HexDigit(s[0] % 16)] + Hex(s[1..])
  }

  predicate ColonFree(s: seq<byte>) {
    COLON !in s
  }

  function Join(parts: seq<seq<byte>>): (s: seq<byte>) {
    if parts == [] then [] else
    if |parts| == 1 then parts[0] else parts[0] + [COLON] + Join(parts[1..])
  }

  // ---------- Numbers ----------

  function DecimalValue(s: seq<byte>): (v: int) {
    if s == [] then 0 else 10 * DecimalValue(s[..|s| - 1]) + s[|s| - 1] - 48
  }

  lemma {:induction false} DecimalInverse(n: nat)
    ensures DecimalValue(Decimal(n)) == n
    ensures Decimal(n) != [] && forall i :: 0 <= i < |Decimal(n)| ==> 48 <= Decimal(n)[i] < 58
  {
    var s := Decimal(n);
    if n >= 10 {
      DecimalInverse(n / 10);
      assert s[..|s| - 1] == Decimal(n / 10);
    } else {
      assert s[..|s| - 1] == [];
    }
  }

  lemma SignedInjective(x: int, y: int)
    ensures ColonFree(Signed(x))
    ensures Signed(x) == Signed(y) ==> x == y
  {
    DecimalInverse(if x < 0 then -x else x);
    DecimalInverse(if y < 0 then -y else y);
    if x < 0 {
      assert Signed(x)[0] == MINUS && Signed(x)[1..] == Decimal(-x);
    }
    if y < 0 {
      assert Signed(y)[0] == MINUS && Signed(y)[1..] == Decimal(-y);
    }
  }

  function HexValue(c: byte): (d: int) {
    if c < 58 then c - 48 else c - 87
  }

  function Unhex(t: seq<byte>): (s: seq<int>) {
    if |t| < 2 then [] else [16 * HexValue(t[0]) + HexValue(t[1])] + Unhex(t[2..])
  }

  lemma {:induction false} HexInverse(s: seq<byte>)
    ensures Unhex(Hex(s)) == s
    ensures ColonFree(Hex(s))
  {
    if s != [] {
      HexInverse(s[1..]);
      var pair, t := [HexDigit(s[0] / 16), HexDigit(s[0] % 16)], Hex(s[1..]);
      assert (pair + t)[2..] == t;
      assert Unhex(pair + t) == [s[0]] + s[1..];
    }
  }

  lemma HexInjective(s: seq<byte>, t: seq<byte>)
    ensures ColonFree(Hex(s))
    ensures Hex(s) == Hex(t) ==> s == t
  {
    HexInverse(s);
    HexInverse(t);
  }

  // Decimal digits have no leading zero.
  lemma {:induction false} DecimalIsShort(n: nat)
    ensures |Decimal(n)| > 1 ==> Decimal(n)[0] != 48
  {
    if n >= 10 {
      DecimalIsShort(n / 10);
      DecimalInverse(n / 10);
    }
  }

  // Hexadecimal digits are 0-9 and lower-case a-f, two for each byte.
  lemma {:induction false} HexDigits(s: seq<byte>)
    ensures |Hex(s)| == 2 * |s|
    ensures forall i :: 0 <= i < |Hex(s)| ==> 48 <= Hex(s)[i] <= 57 || 97 <= Hex(s)[i] <= 102
  {
    if s != [] {
      HexDigits(s[1..]);
    }
  }

  // ---------- Splitting at colons ----------

  function Colons(s: seq<byte>): (n: nat)
    ensures n == 0 <==> ColonFree(s)
  {
    if s == [] then 0 else (if s[0] == COLON then 1 else 0) + Colons(s[1..])
  }

  lemma {:induction false} ColonsConcat(s: seq<byte>, t: seq<byte>)
    ensures Colons(s + t) == Colons(s) + Colons(t)
  {
    if s == [] {
      assert s + t == t;
    } else {
      ColonsConcat(s[1..], t);
      assert (s + t)[1..] == s[1..] + t;
    }
  }

  function AllColons(parts: seq<seq<byte>>): (n: nat)
    ensures n == 0 <==> forall p :: p in parts ==> ColonFree(p)
  {
    if parts == [] then 0 else Colons(parts[0]) + AllColons(parts[1..])
  }

  lemma {:induction false} ColonsOfJoin(parts: seq<seq<byte>>)
    requires parts != []
    ensures Colons(Join(parts)) == |parts| - 1 + AllColons(parts)
  {
    if |parts| > 1 {
      ColonsOfJoin(parts[1..]);
      ColonsConcat(parts[0] + [COLON], Join(parts[1..]));
      ColonsConcat(parts[0], [COLON]);
    }
  }

  lemma FirstColon(a: seq<byte>, r: seq<byte>, b: seq<byte>, t: seq<byte>)
    requires ColonFree(a) && ColonFree(b)
    requires a + [COLON] + r == b + [COLON] + t
    ensures a == b && r == t
  {
    var s := a + [COLON] + r;
    assert s[|a|] == COLON && s[|b|] == COLON;
    assert forall i :: 0 <= i < |a| ==> s[i] == a[i] != COLON;
    assert forall i :: 0 <= i < |b| ==> s[i] == b[i] != COLON;
    assert s[..|a|] == a && s[..|b|] == b;
    assert s[|a| + 1..] == r && s[|b| + 1..] == t;
  }

  lemma {:induction false} JoinInjective(ps: seq<seq<byte>>, qs: seq<seq<byte>>)
    requires |ps| == |qs| && AllColons(ps) == AllColons(qs) == 0
    requires Join(ps) == Join(qs)
    ensures ps == qs
  {
    if |ps| > 1 {
      FirstColon(ps[0], Join(ps[1..]), qs[0], Join(qs[1..]));
      JoinInjective(ps[1..], qs[1..]);
      assert ps == [ps[0]] + ps[1..] && qs == [qs[0]] + qs[1..];
    }
  }

  lemma LastColon(r: seq<byte>, a: seq<byte>, t: seq<byte>, b: seq<byte>)
    requires ColonFree(a) && ColonFree(b)
    requires r + [COLON] + a == t + [COLON] + b
    ensures r == t && a == b
  {
    var s := r + [COLON] + a;
    assert s[|r|] == COLON && s[|t|] == COLON;
    assert forall i :: |r| < i < |s| ==> s[i] == a[i - |r| - 1] != COLON;
    assert forall i :: |t| < i < |s| ==> s[i] == b[i - |t| - 1] != COLON;
    assert s[..|r|] == r && s[..|t|] == t;
    assert s[|r| + 1..] == a && s[|t| + 1..] == b;
  }
}
