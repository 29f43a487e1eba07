/** The oracle aggregator: a record loop over signed reports and the median of the
    reports that verify. */
module Oracle {
  import opened Arith
  import opened Bytes
  import opened Sorting
  import opened Wrappers

  // ---------- Counting ----------

  function Count(s: seq<int>, p: int -> bool): (n: nat)
    ensures n <= |s|
  {
    if s == [] then 0 else (if p(s[0]) then 1 else 0) + Count(s[1..], p)
  }

  function Below(s: seq<int>, m: int): (n: nat) {
    Count(s, x => x < m)
  }

  function Above(s: seq<int>, m: int): (n: nat) {
    Count(s, x => x > m)
  }

  function Within(s: seq<int>, lo: int, hi: int): (n: nat) {
    Count(s, x => lo <= x <= hi)
  }

  lemma {:induction false} CountConcat(s: seq<int>, t: seq<int>, p: int -> bool)
    ensures Count(s + t, p) == Count(s, p) + Count(t, p)
  {
    if s == [] {
      assert s + t == t;
    } else {
      CountConcat(s[1..], t, p);
      assert (s + t)[1..] == s[1..] + t;
    }
  }

  lemma {:induction false} CountImplies(s: seq<int>, p: int -> bool, q: int -> bool)
    requires forall x :: p(x) ==> q(x)
    ensures Count(s, p) <= Count(s, q)
  {
    if s != [] {
      CountImplies(s[1..], p, q);
    }
  }

  lemma {:induction false} CountSplit(s: seq<int>, p: int -> bool)
    ensures Count(s, p) + Count(s, x => !p(x)) == |s|
  {
    if s != [] {
      CountSplit(s[1..], p);
    }
  }

  lemma {:induction false} CountNone(s: seq<int>, p: int -> bool)
    requires forall i :: 0 <= i < |s| ==> !p(s[i])
    ensures Count(s, p) == 0
  {
    if s != [] {
      CountNone(s[1..], p);
    }
  }

  lemma CountBefore(s: seq<int>, h: nat, p: int -> bool)
    requires h <= |s| && forall i :: h <= i < |s| ==> !p(s[i])
    ensures Count(s, p) <= h
  {
    assert s == s[..h] + s[h..];
    CountConcat(s[..h], s[h..], p);
    CountNone(s[h..], p);
  }

  lemma CountFrom(s: seq<int>, h: nat, p: int -> bool)
    requires h <= |s| && forall i :: 0 <= i < h ==> !p(s[i])
    ensures Count(s, p) <= |s| - h
  {
    assert s == s[..h] + s[h..];
    CountConcat(s[..h], s[h..], p);
    CountNone(s[..h], p);
  }

  lemma CountWithout(s: seq<int>, k: nat, p: int -> bool)
    requires k < |s|
    ensures Count(s, p) == Count(s[..k] + s[k + 1..], p) + (if p(s[k]) then 1 else 0)
  {
    CountConcat(s[..k], s[k + 1..], p);
    CountConcat(s[..k], s[k..], p);
    assert s == s[..k] + s[k..];
  }

  lemma ElementsWithout(s: seq<int>, k: nat)
    requires k < |s|
    ensures multiset(s[..k] + s[k + 1..]) == multiset(s) - multiset{s[k]}
  {
    assert s == s[..k] + [s[k]] + s[k + 1..];
  }

  // Some element of t can be taken out so that t loses what s loses with its first element.
  lemma MatchFirst(s: seq<int>, t: seq<int>) returns (k: nat)
    requires multiset(s) == multiset(t) && s != []
    ensures k < |t| && t[k] == s[0] && multiset(s[1..]) == multiset(t[..k] + t[k + 1..])
  {
    assert s[0] in multiset(t);
    k :| 0 <= k < |t| && t[k] == s[0];
    ElementsWithout(s, 0);
    ElementsWithout(t, k);
    assert s[..0] + s[1..] == s[1..];
  }

  // Counts do not depend on the order of the elements.
  lemma {:induction false} CountOfPermutation(s: seq<int>, t: seq<int>, p: int -> bool)
    requires multiset(s) == multiset(t)
    ensures |s| == |t| && Count(s, p) == Count(t, p)
  {
    assert |s| == |multiset(s)| == |multiset(t)| == |t|;
    if s != [] {
      var k := MatchFirst(s, t);
      CountWithout(t, k, p);
      CountOfPermutation(s[1..], t[..k] + t[k + 1..], p);
    }
  }

  // ---------- Median ----------

  // One of the values such that at most half of them are smaller and less than half are larger.
  predicate IsMedian(vals: seq<int>, m: int) {
    m in vals && 2 * Below(vals, m) <= |vals| && 2 * Above(vals, m) < |vals|
  }

  lemma MiddleIsMedian(vals: seq<int>, s: seq<int>)
    requires vals != [] && Sorted(s) && multiset(s) == multiset(vals)
    ensures |s| == |vals| && IsMedian(vals, s[|s| / 2])
  {
    CountOfPermutation(s, vals, x => true);
    var h := |s| / 2;
    var m := s[h];
    assert m in multiset(vals);
    CountOfPermutation(s, vals, x => x < m);
    CountOfPermutation(s, vals, x => x > m);
    CountBefore(s, h, x => x < m);
    CountFrom(s, h + 1, x => x > m);
  }

  // Values in any order have the same, single median.
  lemma MedianIsUnique(vals: seq<int>, vals': seq<int>, m: int, m': int)
    requires multiset(vals) == multiset(vals') && IsMedian(vals, m) && IsMedian(vals', m')
    ensures m == m'
  {
    CountOfPermutation(vals, vals', x => x < m);
    CountOfPermutation(vals, vals', x => x > m);
    NoSmallerMedian(vals', m, m');
    NoSmallerMedian(vals', m', m);
  }

  lemma NoSmallerMedian(vals: seq<int>, a: int, b: int)
    requires 2 * Above(vals, a) < |vals| && 2 * Below(vals, b) <= |vals|
    ensures b <= a
  {
    if a < b {
      CountSplit(vals, x => x < b);
      CountImplies(vals, x => !(x => x < b)(x), x => x > a);
    }
  }

  // If strictly more than half of the values lie in [lo, hi], so does the median.
  lemma MedianIsRobust(vals: seq<int>, m: int, lo: int, hi: int)
    requires IsMedian(vals, m) && 2 * Within(vals, lo, hi) > |vals|
    ensures lo <= m <= hi
  {
    if m < lo {
      CountImplies(vals, x => lo <= x <= hi, x => x > m);
    } else if hi < m {
      CountImplies(vals, x => lo <= x <= hi, x => x < m);
    }
  }

  function Copies(v: int, n: nat): (s: seq<int>)
    ensures |s| == n && forall i :: 0 <= i < n ==> s[i] == v
  {
    if n == 0 then [] else [v] + Copies(v, n - 1)
  }

  lemma {:induction false} CountCopies(v: int, n: nat, p: int -> bool)
    ensures Count(Copies(v, n), p) == if p(v) then n else 0
  {
    if n > 0 {
      CountCopies(v, n - 1, p);
      assert Copies(v, n)[1..] == Copies(v, n - 1);
    }
  }

  // k of n values in [lo, hi] bound every median, whatever the others are.
  ghost predicate Forces(n: nat, k: nat, lo: int, hi: int) {
    forall vals: seq<int>, m: int ::
      |vals| == n && k <= Within(vals, lo, hi) && IsMedian(vals, m) ==> lo <= m <= hi
  }

  // With at most half of the values inside, the others can put the median just above.
  lemma HalfIsNotEnough(n: nat, k: nat, lo: int, hi: int)
    requires 0 < n && k <= n && lo <= hi && 2 * k <= n
    ensures !Forces(n, k, lo, hi)
  {
    var inside, outside, m := Copies(lo, k), Copies(hi + 1, n - k), hi + 1;
    var vals := inside + outside;
    CountConcat(inside, outside, x => lo <= x <= hi);
    CountCopies(lo, k, x => lo <= x <= hi);
    CountCopies(hi + 1, n - k, x => lo <= x <= hi);
    CountConcat(inside, outside, x => x < m);
    CountCopies(lo, k, x => x < m);
    CountCopies(hi + 1, n - k, x => x < m);
    CountConcat(inside, outside, x => x > m);
    CountCopies(lo, k, x => x > m);
    CountCopies(hi + 1, n - k, x => x > m);
    assert vals[k] == m;
    assert IsMedian(vals, m) && |vals| == n && k <= Within(vals, lo, hi);
  }

  // k of n values in an interval force the median into it, whatever the others are, exactly when they
  // are more than half.
  lemma MajorityExact(n: nat, k: nat, lo: int, hi: int)
    requires 0 < n && k <= n && lo <= hi
    ensures Forces(n, k, lo, hi) <==> 2 * k > n
  {
    if 2 * k > n {
      forall vals: seq<int>, m: int | |vals| == n && k <= Within(vals, lo, hi) && IsMedian(vals, m)
        ensures lo <= m <= hi
      {
        MedianIsRobust(vals, m, lo, hi);
      }
    } else {
      HalfIsNotEnough(n, k, lo, hi);
    }
  }

  method Median(vals: seq<nat>) returns (m: nat)
    ensures if vals == [] then m == 0 else IsMedian(vals, m)
  {
    if |vals| == 0 {
      return 0;
    }
    var sorted := SortedCopy(vals);
    MiddleIsMedian(vals, sorted);
    m := sorted[|sorted| / 2];
  }

  // ---------- Aggregation ----------

  const RECORD := 160  // public key 32, value 32, data hash 32, signature 64
  const MAX_ORACLES := 10

  datatype Rejection = EmptyInput | NoOracle | InputTooShort

  function Reports(input: seq<byte>): (n: nat)
    requires input != []
  {
    if input[0] > MAX_ORACLES then MAX_ORACLES else input[0]
  }

  function Record(input: seq<byte>, i: nat): (r: seq<byte>)
    requires 1 + (i + 1) * RECORD <= |input|
    ensures |r| == RECORD
  {
    input[1 + i * RECORD..1 + (i + 1) * RECORD]
  }

  // The values of the accepted records among the first n. A record is accepted when its key
  // belongs to an account with a high enough badge and its signature verifies.
  function Accepted(input: seq<byte>, n: nat, accepts: seq<byte> -> bool): (vals: seq<nat>)
    requires 1 + n * RECORD <= |input|
    ensures |vals| <= n
  {
    if n == 0 then [] else
      var r := Record(input, n - 1);
      Accepted(input, n - 1, accepts) + (if accepts(r) then [Value(r[32..64])] else [])
  }

  lemma {:induction false} AcceptedInRange(input: seq<byte>, n: nat, accepts: seq<byte> -> bool)
    requires 1 + n * RECORD <= |input|
    ensures forall v :: v in Accepted(input, n, accepts) ==> v < Pow256(32)
  {
    if n > 0 {
      AcceptedInRange(input, n - 1, accepts);
      BigEndianOfValue(Record(input, n - 1)[32..64]);
    }
  }

  // The first byte is the number of records, and each record is the next 160 bytes.
  lemma RecordAt(input: seq<byte>, i: nat)
    requires 1 + (i + 1) * 160 <= |input|
    ensures Record(input, i) == input[1 + i * 160..][..160]
  {
  }

  // The accepted ones of the first n records.
  ghost function AcceptedAt(input: seq<byte>, n: nat, accepts: seq<byte> -> bool): (at: set<nat>)
    requires 1 + n * RECORD <= |input|
  {
    set i: nat | i < n && accepts(Record(input, i))
  }

  lemma AcceptedStep(input: seq<byte>, n: nat, accepts: seq<byte> -> bool)
    requires 0 < n && 1 + n * RECORD <= |input|
    ensures AcceptedAt(input, n, accepts)
         == AcceptedAt(input, n - 1, accepts) + if accepts(Record(input, n - 1)) then {n - 1} else {}
  {
  }

  // There is a value for each accepted record.
  lemma {:induction false} AcceptedCount(input: seq<byte>, n: nat, accepts: seq<byte> -> bool)
    requires 1 + n * RECORD <= |input|
    ensures |Accepted(input, n, accepts)| == |AcceptedAt(input, n, accepts)|
  {
    if n == 0 {
      assert AcceptedAt(input, 0, accepts) == {};
    } else {
      AcceptedCount(input, n - 1, accepts);
      AcceptedStep(input, n, accepts);
    }
  }

  // Each accepted record gives the number in its second 32 bytes.
  lemma {:induction false} AcceptedValue(input: seq<byte>, n: nat, accepts: seq<byte> -> bool, i: nat)
    requires 1 + n * RECORD <= |input| && i < n && accepts(Record(input, i))
    ensures Value(Record(input, i)[32..64]) in Accepted(input, n, accepts)
  {
    if i < n - 1 {
      AcceptedValue(input, n - 1, accepts, i);
    }
  }

  // Every value is that of an accepted record.
  lemma {:induction false} ValueAccepted(input: seq<byte>, n: nat, accepts: seq<byte> -> bool, v: nat) returns (i: nat)
    requires 1 + n * RECORD <= |input| && v in Accepted(input, n, accepts)
    ensures i < n && accepts(Record(input, i)) && v == Value(Record(input, i)[32..64])
  {
    if v in Accepted(input, n - 1, accepts) {
      i := ValueAccepted(input, n - 1, accepts, v);
    } else {
      i := n - 1;
    }
  }

  function Packed(confidence: byte, m: nat): (out: seq<byte>)
    requires m < Pow256(32)
    ensures |out| == 33 && out[0] == confidence && Value(out[1..]) == m
  {
    var digits := BigEndian(m, 32);
    ValueOfBigEndian(m, 32);
    assert ([confidence] + digits)[1..] == digits;
    [confidence] + digits
  }

  // The record loop. It reads no byte beyond the length checked by its caller.
  method VerifiedValues(input: seq<byte>, count: nat, accepts: seq<byte> -> bool)
    returns (verified: nat, values: seq<nat>)
    requires 1 + count * RECORD <= |input|
    ensures values == Accepted(input, count, accepts) && verified == |values|
  {
    verified, values := 0, [];
    var off := 1;
    for i := 0 to count
      invariant off == 1 + i * RECORD
      invariant values == Accepted(input, i, accepts)
      invariant verified == |values|
    {
      var record := input[off..off + RECORD];
      off := off + RECORD;
      if !accepts(record) {
        continue;
      }
      verified := verified + 1;
      values := values + [Value(record[32..64])];
    }
  }

  lemma ConfidenceInRange(verified: nat, count: nat)
    requires verified <= count && 0 < count
    ensures 0 <= verified * 100 / count <= 100
  {
    QuotientAtLeast(verified * 100, count, 101);
    QuotientAtLeast(verified * 100, count, 0);
  }

  // How many of the first n records are accepted and come from a trusted key.
  function Trusted(input: seq<byte>, n: nat, accepts: seq<byte> -> bool, trusts: seq<byte> -> bool): (k: nat)
    requires 1 + n * RECORD <= |input|
  {
    if n == 0 then 0 else
      var r := Record(input, n - 1);
      Trusted(input, n - 1, accepts, trusts) + if accepts(r) && trusts(r[..32]) then 1 else 0
  }

  // Every accepted record of a trusted key reports a value in [lo, hi].
  predicate TrustedWithin(input: seq<byte>, n: nat, accepts: seq<byte> -> bool, trusts: seq<byte> -> bool,
                          lo: int, hi: int)
    requires 1 + n * RECORD <= |input|
  {
    forall i :: 0 <= i < n ==>
      var r := Record(input, i); accepts(r) && trusts(r[..32]) ==> lo <= Value(r[32..64]) <= hi
  }

  lemma {:induction false} TrustedCounted(input: seq<byte>, n: nat, accepts: seq<byte> -> bool,
                                          trusts: seq<byte> -> bool, lo: int, hi: int)
    requires 1 + n * RECORD <= |input| && TrustedWithin(input, n, accepts, trusts, lo, hi)
    ensures Trusted(input, n, accepts, trusts) <= Within(Accepted(input, n, accepts), lo, hi)
  {
    if n > 0 {
      var r := Record(input, n - 1);
      TrustedCounted(input, n - 1, accepts, trusts, lo, hi);
      var vals := Accepted(input, n - 1, accepts);
      CountConcat(vals, if accepts(r) then [Value(r[32..64])] else [], x => lo <= x <= hi);
    }
  }

  // If more than half of the accepted records come from trusted keys, whose values lie in [lo, hi], so
  // does every median of the accepted values. What counts is the share of records, not of keys.
  lemma TrustedMajority(input: seq<byte>, n: nat, accepts: seq<byte> -> bool, trusts: seq<byte> -> bool,
                        lo: int, hi: int, m: int)
    requires 1 + n * RECORD <= |input| && TrustedWithin(input, n, accepts, trusts, lo, hi)
    requires 2 * Trusted(input, n, accepts, trusts) > |Accepted(input, n, accepts)|
    requires IsMedian(Accepted(input, n, accepts), m)
    ensures lo <= m <= hi
  {
    TrustedCounted(input, n, accepts, trusts, lo, hi);
    MedianIsRobust(Accepted(input, n, accepts), m, lo, hi);
  }

  // One key suffices: whatever the other records hold, if more than half of the accepted ones carry the
  // same key and value, that value is the median.
  lemma OneKeyDecides(input: seq<byte>, n: nat, accepts: seq<byte> -> bool, key: seq<byte>, v: int, m: int)
    requires 1 + n * RECORD <= |input|
    requires TrustedWithin(input, n, accepts, k => k == key, v, v)
    requires 2 * Trusted(input, n, accepts, k => k == key) > |Accepted(input, n, accepts)|
    requires IsMedian(Accepted(input, n, accepts), m)
    ensures m == v
  {
    TrustedMajority(input, n, accepts, k => k == key, v, v, m);
  }

  // ---------- One key among several ----------

  type Report = r: seq<byte> | |r| == RECORD witness seq(RECORD, _ => 0)

  function Joined(rs: seq<Report>): (s: seq<byte>)
    ensures |s| == |rs| * RECORD
  {
    if rs == [] then [] else Joined(rs[..|rs| - 1]) + rs[|rs| - 1]
  }

  lemma {:induction false} JoinedAt(rs: seq<Report>, i: nat)
    requires i < |rs|
    ensures Joined(rs)[i * RECORD..(i + 1) * RECORD] == rs[i]
  {
    if i < |rs| - 1 {
      JoinedAt(rs[..|rs| - 1], i);
      assert Joined(rs)[i * RECORD..(i + 1) * RECORD] == Joined(rs[..|rs| - 1])[i * RECORD..(i + 1) * RECORD];
    }
  }

  // The input that carries the given records.
  function Packet(rs: seq<Report>): (input: seq<byte>)
    requires 0 < |rs| <= MAX_ORACLES
    ensures |input| == 1 + |rs| * RECORD && Reports(input) == |rs|
  {
    [|rs|] + Joined(rs)
  }

  lemma PacketAt(rs: seq<Report>, i: nat)
    requires i < |rs| <= MAX_ORACLES
    ensures 1 + (i + 1) * RECORD <= |Packet(rs)| && Record(Packet(rs), i) == rs[i]
  {
    var input := Packet(rs);
    JoinedAt(rs, i);
    assert input[1..] == Joined(rs);
    assert input[1 + i * RECORD..1 + (i + 1) * RECORD] == input[1..][i * RECORD..(i + 1) * RECORD];
  }

  lemma {:induction false} TrustedAtLeast(input: seq<byte>, n: nat, accepts: seq<byte> -> bool,
                                          trusts: seq<byte> -> bool, k: nat)
    requires k <= n && 1 + n * RECORD <= |input|
    requires forall i :: 0 <= i < k ==> accepts(Record(input, i)) && trusts(Record(input, i)[..32])
    ensures k <= Trusted(input, n, accepts, trusts)
  {
    if n > 0 {
      TrustedAtLeast(input, n - 1, accepts, trusts, if k < n then k else n - 1);
    }
  }

  lemma OwnWithin(own: Report, rs: seq<Report>, accepts: seq<byte> -> bool)
    requires 0 < |rs| <= MAX_ORACLES
    requires forall i :: 0 <= i < |rs| ==> rs[i] == own || rs[i][..32] != own[..32]
    ensures TrustedWithin(Packet(rs), |rs|, accepts, k => k == own[..32], Value(own[32..64]), Value(own[32..64]))
  {
    forall i | 0 <= i < |rs| ensures Record(Packet(rs), i) == rs[i] {
      PacketAt(rs, i);
    }
  }

  // Keys are not counted once: one key that sends its own record more often than all others send
  // theirs decides the result. Five of at most nine records are enough against four other keys.
  lemma OneAmongOthers(own: Report, k: nat, rs: seq<Report>, accepts: seq<byte> -> bool, m: int)
    requires k <= |rs| <= MAX_ORACLES && |rs| < 2 * k && accepts(own)
    requires forall i :: 0 <= i < k ==> rs[i] == own
    requires forall i :: k <= i < |rs| ==> rs[i][..32] != own[..32]
    requires IsMedian(Accepted(Packet(rs), |rs|, accepts), m)
    ensures m == Value(own[32..64])
  {
    forall i | 0 <= i < k ensures Record(Packet(rs), i) == own {
      PacketAt(rs, i);
    }
    OwnWithin(own, rs, accepts);
    TrustedAtLeast(Packet(rs), |rs|, accepts, key => key == own[..32], k);
    OneKeyDecides(Packet(rs), |rs|, accepts, own[..32], Value(own[32..64]), m);
  }

  method Aggregate(input: seq<byte>, accepts: seq<byte> -> bool) returns (r: Result<seq<byte>, Rejection>)
    ensures r == Err(EmptyInput) <==> input == []
    ensures r == Err(NoOracle) <==> input != [] && input[0] == 0
    ensures r == Err(InputTooShort) <==>
            input != [] && input[0] != 0 && |input| < 1 + 160 * (if input[0] > 10 then 10 else input[0] as int)
    ensures r.Ok? ==>
            var vals := Accepted(input, Reports(input), accepts);
            && |r.value| == 33
            && r.value[0] == |vals| * 100 / (if input[0] > 10 then 10 else input[0] as int) <= 100
            && (if vals == [] then Value(r.value[1..]) == 0 else IsMedian(vals, Value(r.value[1..])))
  {
    if |input| < 1 {
      return Err(EmptyInput);
    }
    var count: int := input[0];
    if count < 1 {
      return Err(NoOracle);
    }
    if count > MAX_ORACLES {
      count := MAX_ORACLES;
    }
    if |input| < 1 + count * RECORD {
      return Err(InputTooShort);
    }
    var verified, values := VerifiedValues(input, count, accepts);
    ConfidenceInRange(verified, count);
    var m := Median(values);
    AcceptedInRange(input, count, accepts);
    assert values != [] ==> m in values;
    return Ok(Packed(verified * 100 / count, m));
  }
}
