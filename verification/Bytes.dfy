/** Bytes, fixed-width unsigned integers, and the big-endian number formats that
    the wire codec and the storage slots share. */
module Bytes {
  type byte = x: int | 0 <= x < 256
  type u64 = x: int | 0 <= x < TWO_64

  const TWO_64: int := 0x1_0000_0000_0000_0000

  // uint64 arithmetic drops everything above bit 63.
  function Wrap64(x: int): (r: u64) {
    x % TWO_64
  }

  // Wrapping early or late makes no difference.
  lemma WrapThenAdd(x: int, y: int)
    ensures Wrap64(Wrap64(x) + y) == Wrap64(x + y)
  {
  }

  // Writing a number to bytes drops its sign (big.Int.Bytes).
  function Abs(x: int): (a: nat) {
    if x < 0 then -x else x
  }

  function Pow256(n: nat): (p: nat)
    ensures 0 < p
  {
    if n == 0 then 1 else 256 * Pow256(n - 1)
  }

  // The n low-order bytes of v, most significant first. Higher bytes are lost, as in
  // the conversion that precedes PutUint16, PutUint32 and PutUint64.
  function BigEndian(v: nat, n: nat): (s: seq<byte>)
    ensures |s| == n
  {
    if n == 0 then [] else BigEndian(v / 256, n - 1) + [v % 256]
  }

  // The number a big-endian byte string denotes (big.Int.SetBytes).
  function Value(s: seq<byte>): (v: nat) {
    if s == [] then 0 else 256 * Value(s[..|s| - 1]) + s[|s| - 1]
  }

  // The shortest big-endian byte string for v (big.Int.Bytes of a non-negative number).
  function Minimal(v: nat): (s: seq<byte>) {
    if v == 0 then [] else Minimal(v / 256) + [v % 256]
  }

  predicate NoLeadingZero(s: seq<byte>) {
    s != [] ==> s[0] != 0
  }

  lemma {:induction false} ValueOfBigEndian(v: nat, n: nat)
    requires v < Pow256(n)
    ensures Value(BigEndian(v, n)) == v
  {
    if n > 0 {
      ValueOfBigEndian(v / 256, n - 1);
      var s := BigEndian(v, n);
      assert s[..|s| - 1] == BigEndian(v / 256, n - 1);
    }
  }

  lemma {:induction false} BigEndianOfValue(s: seq<byte>)
    ensures Value(s) < Pow256(|s|)
    ensures BigEndian(Value(s), |s|) == s
  {
    if s != [] {
      var t := s[..|s| - 1];
      BigEndianOfValue(t);
      assert Value(s) / 256 == Value(t) && Value(s) % 256 == s[|s| - 1];
      assert s == t + [s[|s| - 1]];
    }
  }

  lemma {:induction false} ValueOfMinimal(v: nat)
    ensures Value(Minimal(v)) == v
    ensures NoLeadingZero(Minimal(v))
  {
    if v != 0 {
      ValueOfMinimal(v / 256);
      var s := Minimal(v);
      assert s[..|s| - 1] == Minimal(v / 256);
      if v / 256 != 0 {
        assert Minimal(v / 256) != [];
      }
    }
  }

  // The last byte is the least significant one.
  lemma LastByte(h: nat, l: byte, n: nat, s: seq<byte>)
    ensures BigEndian(256 * h + l, n + 1) == BigEndian(h, n) + [l]
    ensures Value(s + [l]) == 256 * Value(s) + l
  {
    assert (s + [l])[..|s|] == s;
  }

  // A byte string is the shortest form of its own number exactly when it has no leading zero.
  lemma {:induction false} MinimalOfValue(s: seq<byte>)
    ensures Minimal(Value(s)) == s <==> NoLeadingZero(s)
  {
    if s != [] {
      var t, b := s[..|s| - 1], s[|s| - 1];
      MinimalOfValue(t);
      assert s == t + [b];
      assert Value(s) / 256 == Value(t) && Value(s) % 256 == b;
      if Value(s) != 0 {
        var m := Minimal(Value(s));
        assert m[..|m| - 1] == Minimal(Value(t));
        assert s[..|s| - 1] == t;
      } else {
        ZeroValue(s);
      }
    }
  }

  lemma {:induction false} ZeroValue(s: seq<byte>)
    requires Value(s) == 0
    ensures s != [] ==> s[0] == 0
  {
    if |s| > 1 {
      ZeroValue(s[..|s| - 1]);
    }
  }

  lemma {:induction false} MinimalLength(v: nat, n: nat)
    ensures |Minimal(v)| <= n <==> v < Pow256(n)
  {
    if v != 0 && n > 0 {
      MinimalLength(v / 256, n - 1);
    }
  }
}
