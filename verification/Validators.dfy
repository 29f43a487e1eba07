/** The validator set and its square-root lottery. An id stands for the number its twenty bytes
    denote, so that the order of ids is the order of their bytes. */
module Validators {
  import opened Bytes
  import opened Sorting

  const MAX_VALIDATORS := 200
  const MIN_STAKE := 100
  const JAIL_THRESHOLD := 50

  datatype Registry = Registry(ids: seq<int>, stakes: map<int, u64>, missed: map<int, int>, jailed: seq<int>)

  const EMPTY: Registry := Registry([], map[], map[], [])

  datatype Reply = Added | AlreadyRegistered | StakeTooSmall | SetFull

  // ---------- Ordered ids ----------

  predicate Ascending(ids: seq<int>) {
    forall i, j :: 0 <= i < j < |ids| ==> ids[i] < ids[j]
  }

  function Inserted(ids: seq<int>, id: int): (r: seq<int>) {
    if ids == [] || ids[|ids| - 1] <= id then ids + [id]
    else Inserted(ids[..|ids| - 1], id) + [ids[|ids| - 1]]
  }

  function First(ids: seq<int>, id: int): (k: nat)
    ensures k <= |ids| && (k < |ids| ==> ids[k] == id) && forall i :: 0 <= i < k ==> ids[i] != id
  {
    if ids == [] || ids[0] == id then 0 else 1 + First(ids[1..], id)
  }

  function Without(ids: seq<int>, id: int): (r: seq<int>) {
    var k := First(ids, id);
    if k < |ids| then ids[..k] + ids[k + 1..] else ids
  }

  lemma {:induction false} InsertedContents(ids: seq<int>, id: int)
    requires Ascending(ids) && id !in ids
    ensures Ascending(Inserted(ids, id)) && |Inserted(ids, id)| == |ids| + 1
    ensures forall x :: x in Inserted(ids, id) <==> x in ids || x == id
  {
    if ids != [] && ids[|ids| - 1] > id {
      var front := ids[..|ids| - 1];
      assert ids == front + [ids[|ids| - 1]];
      InsertedContents(front, id);
      var more := Inserted(front, id);
      assert Inserted(ids, id) == more + [ids[|ids| - 1]];
      forall i | 0 <= i < |more| ensures more[i] < ids[|ids| - 1] {
        assert more[i] in more;
      }
    }
  }

  lemma FrontContents(ids: seq<int>, front: seq<int>, last: int, x: int)
    requires Ascending(ids) && ids == front + [last] && x in ids
    ensures x <= last && Ascending(front)
    ensures forall z :: z in front <==> z in ids && z != last
  {
    assert forall i :: 0 <= i < |front| ==> front[i] == ids[i] < ids[|ids| - 1];
  }

  ghost predicate SameIds(s: seq<int>, t: seq<int>) {
    forall x :: x in s <==> x in t
  }

  lemma SameFronts(s: seq<int>, front: seq<int>, last: int, t: seq<int>, front': seq<int>, last': int)
    requires Ascending(s) && s == front + [last] && Ascending(t) && t == front' + [last'] && SameIds(s, t)
    ensures last == last' && Ascending(front) && Ascending(front') && SameIds(front, front')
  {
    assert last in s && last' in t;
    FrontContents(s, front, last, last');
    FrontContents(t, front', last', last);
  }

  lemma SameEmpty(s: seq<int>, t: seq<int>)
    requires SameIds(s, t)
    ensures s == [] <==> t == []
  {
    if s != [] {
      var x := s[0];
      assert x in s;
    }
    if t != [] {
      var x := t[0];
      assert x in t;
    }
  }

  // Ascending ids are determined by which they are.
  lemma {:induction false} AscendingIsUnique(s: seq<int>, t: seq<int>)
    requires Ascending(s) && Ascending(t) && SameIds(s, t)
    ensures s == t
  {
    SameEmpty(s, t);
    if s != [] {
      SameFronts(s, s[..|s| - 1], s[|s| - 1], t, t[..|t| - 1], t[|t| - 1]);
      AscendingIsUnique(s[..|s| - 1], t[..|t| - 1]);
      assert s == s[..|s| - 1] + [s[|s| - 1]];
    }
  }

  lemma WithoutContents(ids: seq<int>, id: int)
    requires Ascending(ids)
    ensures Ascending(Without(ids, id)) && |Without(ids, id)| == |ids| - (if id in ids then 1 else 0)
    ensures forall x :: x in Without(ids, id) <==> x in ids && x != id
  {
    var k := First(ids, id);
    if k < |ids| {
      forall x ensures x in Without(ids, id) <==> x in ids && x != id {
        assert x in ids <==> x in ids[..k] || x == id || x in ids[k + 1..] by {
          assert ids == ids[..k] + [id] + ids[k + 1..];
        }
      }
    }
  }

  // Sorting distinct ids leaves them distinct.
  lemma SortedDistinct(s: seq<int>, ids: seq<int>, id: int)
    requires Ascending(ids) && id !in ids && Sorted(s) && multiset(s) == multiset(ids + [id])
    ensures s == Inserted(ids, id)
  {
    InsertedContents(ids, id);
    forall i, j | 0 <= i < j < |s| ensures s[i] < s[j] {
      if s[i] == s[j] {
        assert s == s[..j] + [s[j]] + s[j + 1..];
        assert s[i] in s[..j];
        assert multiset(s)[s[j]] >= 2;
        AtMostOnce(ids, s[j]);
      }
    }
    forall x ensures x in s <==> x in Inserted(ids, id) {
      assert x in s <==> x in multiset(s);
      assert x in multiset(ids + [id]) <==> x in ids + [id];
    }
    AscendingIsUnique(s, Inserted(ids, id));
  }

  lemma AtMostOnce(ids: seq<int>, x: int)
    requires Ascending(ids)
    ensures multiset(ids)[x] <= 1
    ensures x !in ids ==> multiset(ids)[x] == 0
  {
    var k := First(ids, x);
    if k < |ids| {
      assert ids == ids[..k] + [x] + ids[k + 1..];
      assert x !in ids[..k] && x !in ids[k + 1..];
    }
  }

  // ---------- Operations ----------

  function AddedTo(s: Registry, id: int, stake: u64): (r: (Registry, Reply)) {
    if id in s.stakes then (s, AlreadyRegistered) else
    if stake < MIN_STAKE then (s, StakeTooSmall) else
    if |s.ids| >= MAX_VALIDATORS then (s, SetFull) else
      (Registry(Inserted(s.ids, id), s.stakes[id := stake], s.missed[id := 0], s.jailed), Added)
  }

  function RemovedFrom(s: Registry, id: int): (r: Registry) {
    Registry(Without(s.ids, id), s.stakes - {id}, s.missed - {id}, s.jailed)
  }

  function JailedIn(s: Registry, id: int): (r: Registry) {
    RemovedFrom(s, id).(jailed := s.jailed + [id])
  }

  function Misses(s: Registry, id: int): (n: int) {
    if id in s.missed then s.missed[id] else 0
  }

  // Counting starts for any id, registered or not.
  function Marked(s: Registry, id: int): (r: (Registry, bool)) {
    var counted := s.(missed := s.missed[id := Misses(s, id) + 1]);
    if counted.missed[id] >= JAIL_THRESHOLD then (JailedIn(counted, id), true) else (counted, false)
  }

  // ---------- Runs ----------

  datatype Event = Add(id: int, stake: u64) | Remove(id: int) | Jail(id: int) | Miss(id: int)

  function After(s: Registry, e: Event): (r: Registry) {
    match e
    case Add(id, stake) => AddedTo(s, id, stake).0
    case Remove(id) => RemovedFrom(s, id)
    case Jail(id) => JailedIn(s, id)
    case Miss(id) => Marked(s, id).0
  }

  function Final(s: Registry, es: seq<Event>): (r: Registry) {
    if es == [] then s else After(Final(s, es[..|es| - 1]), es[|es| - 1])
  }

  ghost predicate Well(s: Registry) {
    && Ascending(s.ids) && |s.ids| <= MAX_VALIDATORS
    && (forall id :: id in s.ids <==> id in s.stakes)
    && (forall id :: id in s.stakes ==> MIN_STAKE <= s.stakes[id] && id in s.missed)
    && (forall id :: id in s.missed ==> 0 <= s.missed[id] < JAIL_THRESHOLD)
  }

  // All is well but for the counter of one id that is about to leave.
  ghost predicate WellBut(s: Registry, id: int) {
    && Ascending(s.ids) && |s.ids| <= MAX_VALIDATORS
    && (forall x :: x in s.ids <==> x in s.stakes)
    && (forall x :: x in s.stakes ==> MIN_STAKE <= s.stakes[x] && x in s.missed)
    && (forall x :: x in s.missed && x != id ==> 0 <= s.missed[x] < JAIL_THRESHOLD)
  }

  lemma RemoveWell(s: Registry, id: int)
    requires WellBut(s, id)
    ensures Well(RemovedFrom(s, id)) && Well(JailedIn(s, id))
  {
    WithoutContents(s.ids, id);
  }

  lemma AddWell(s: Registry, id: int, stake: u64)
    requires Well(s)
    ensures Well(AddedTo(s, id, stake).0)
  {
    if id !in s.stakes {
      InsertedContents(s.ids, id);
    }
  }

  lemma MissWell(s: Registry, id: int)
    requires Well(s)
    ensures Well(Marked(s, id).0)
  {
    var counted := s.(missed := s.missed[id := Misses(s, id) + 1]);
    RemoveWell(counted, id);
  }

  // Over any run the ids are strictly sorted, at most 200, and exactly those with a stake; every
  // stake is at least the minimum, and every counter is below the jail threshold.
  lemma {:induction false} RunWell(s: Registry, es: seq<Event>)
    requires Well(s)
    ensures Well(Final(s, es))
  {
    if es != [] {
      var before := es[..|es| - 1];
      RunWell(s, before);
      match es[|es| - 1] {
        case Add(id, stake) => AddWell(Final(s, before), id, stake);
        case Remove(id) => RemoveWell(Final(s, before), id);
        case Jail(id) => RemoveWell(Final(s, before), id);
        case Miss(id) => MissWell(Final(s, before), id);
      }
    }
  }

  // An id is added exactly if it is not listed, stakes at least a hundred and finds fewer than two hundred
  // others; then it is listed with its stake and no miss, and nothing else changes.
  lemma AddedExactly(s: Registry, id: int, stake: u64)
    requires Well(s)
    ensures var r := AddedTo(s, id, stake);
            && (r.1 == Added <==> id !in s.ids && 100 <= stake && |s.ids| < 200)
            && (r.1 != Added ==> r.0 == s)
            && (r.1 == Added ==>
                  && (forall x :: x in r.0.ids <==> x in s.ids || x == id)
                  && id in r.0.stakes && r.0.stakes[id] == stake && id in r.0.missed && r.0.missed[id] == 0
                  && (forall x :: x in s.stakes ==> x in r.0.stakes && r.0.stakes[x] == s.stakes[x])
                  && (forall x :: x != id ==> Misses(r.0, x) == Misses(s, x)) && r.0.jailed == s.jailed)
  {
    if id !in s.stakes {
      InsertedContents(s.ids, id);
    }
  }

  // Whoever is jailed, by hand or for the fiftieth miss, leaves the list with its stake and counter and is
  // noted as jailed; a removal does the same without the note. Others stay.
  lemma LeavesExactly(s: Registry, id: int, jailed: bool)
    requires Well(s)
    ensures var r := if jailed then JailedIn(s, id) else RemovedFrom(s, id);
            && (forall x :: x in r.ids <==> x in s.ids && x != id)
            && (forall x :: x in r.stakes <==> x in s.stakes && x != id)
            && (forall x :: x in r.stakes ==> r.stakes[x] == s.stakes[x])
            && (forall x :: Misses(r, x) == if x == id then 0 else Misses(s, x))
            && r.jailed == if jailed then s.jailed + [id] else s.jailed
  {
    WithoutContents(s.ids, id);
  }

  lemma AddThenRemoveKey(m: map<int, int>, id: int, v: int)
    ensures m[id := v] - {id} == m - {id}
    ensures id !in m ==> m - {id} == m
  {
  }

  // Removing what was just added restores the set.
  lemma RemoveUndoesAdd(s: Registry, id: int, stake: u64)
    requires Well(s) && AddedTo(s, id, stake).1 == Added
    ensures RemovedFrom(AddedTo(s, id, stake).0, id) == s.(missed := s.missed - {id})
  {
    InsertedContents(s.ids, id);
    WithoutContents(Inserted(s.ids, id), id);
    AscendingIsUnique(Without(Inserted(s.ids, id), id), s.ids);
    AddThenRemoveKey(s.stakes, id, stake);
    AddThenRemoveKey(s.missed, id, 0);
  }

  // Jail is no bar: whoever was active and is jailed can register again at once.
  lemma JailedMayReturn(s: Registry, id: int, stake: u64)
    requires Well(s) && id in s.stakes && MIN_STAKE <= stake
    ensures AddedTo(JailedIn(s, id), id, stake).1 == Added
  {
    WithoutContents(s.ids, id);
  }

  // ---------- How often an id is jailed ----------

  function Occurrences(xs: seq<int>, x: int): (n: nat) {
    if xs == [] then 0 else Occurrences(xs[..|xs| - 1], x) + if xs[|xs| - 1] == x then 1 else 0
  }

  function MissesOf(es: seq<Event>, id: int): (n: nat) {
    if es == [] then 0 else MissesOf(es[..|es| - 1], id) + if es[|es| - 1] == Miss(id) then 1 else 0
  }

  // The fiftieth miss jails an id and starts its counter anew.
  lemma MissStep(s: Registry, e: Event, id: int)
    requires Well(s) && (e.id == id ==> e.Miss?)
    ensures var n := Misses(s, id) + if e == Miss(id) then 1 else 0;
            && Misses(After(s, e), id) == (if n == 50 then 0 else n)
            && Occurrences(After(s, e).jailed, id) == Occurrences(s.jailed, id) + if n == 50 then 1 else 0
  {
    OccurrencesAppend(s.jailed, e.id, id);
  }

  lemma OneMoreOfFifty(n: nat)
    ensures (n + 1) % 50 == if n % 50 == 49 then 0 else n % 50 + 1
    ensures (n + 1) / 50 == n / 50 + if n % 50 == 49 then 1 else 0
  {
  }

  // Of so many misses, each fiftieth has jailed the id, `jailings` times so far.
  ghost predicate Tallied(s: Registry, id: int, total: nat, jailings: nat) {
    Misses(s, id) == total % 50 && Occurrences(s.jailed, id) == jailings + total / 50
  }

  lemma TalliedMeans(s: Registry, id: int, total: nat, jailings: nat)
    requires Tallied(s, id, total, jailings)
    ensures Misses(s, id) == total % 50 && Occurrences(s.jailed, id) == jailings + total / 50
  {
  }

  lemma TallyStep(s: Registry, e: Event, id: int, total: nat, jailings: nat)
    requires Well(s) && Tallied(s, id, total, jailings) && (e.id == id ==> e.Miss?)
    ensures Tallied(After(s, e), id, if e == Miss(id) then total + 1 else total, jailings)
  {
    MissStep(s, e, id);
    OneMoreOfFifty(total);
  }

  ghost predicate OnlyMisses(es: seq<Event>, id: int) {
    forall i :: 0 <= i < |es| && es[i].id == id ==> es[i].Miss?
  }

  lemma {:induction false} RunTallied(s: Registry, es: seq<Event>, id: int)
    requires Well(s) && OnlyMisses(es, id)
    ensures 0 <= Misses(s, id)
    ensures Tallied(Final(s, es), id, Misses(s, id) + MissesOf(es, id), Occurrences(s.jailed, id))
  {
    if es != [] {
      var before, e := es[..|es| - 1], es[|es| - 1];
      assert OnlyMisses(before, id);
      RunTallied(s, before, id);
      RunWell(s, before);
      TallyStep(Final(s, before), e, id, Misses(s, id) + MissesOf(before, id), Occurrences(s.jailed, id));
    }
  }

  // In a run that neither adds nor removes nor jails an id by hand, it is jailed once for every
  // fifty blocks it missed, and the counter holds the rest.
  lemma {:induction false} JailedEveryFifty(s: Registry, es: seq<Event>, id: int)
    requires Well(s) && OnlyMisses(es, id)
    ensures var total := Misses(s, id) + MissesOf(es, id);
            && Misses(Final(s, es), id) == total % 50
            && Occurrences(Final(s, es).jailed, id) == Occurrences(s.jailed, id) + total / 50
  {
    RunTallied(s, es, id);
    TalliedMeans(Final(s, es), id, Misses(s, id) + MissesOf(es, id), Occurrences(s.jailed, id));
  }

  lemma OccurrencesAppend(xs: seq<int>, x: int, id: int)
    ensures Occurrences(xs + [x], id) == Occurrences(xs, id) + if x == id then 1 else 0
  {
    assert (xs + [x])[..|xs|] == xs;
  }

  // ---------- The lottery ----------

  // A weight for each listed id: the positive square root of its stake.
  predicate Roots(s: Registry, w: map<int, real>) {
    forall id :: id in s.stakes ==> id in w && 0.0 < w[id] && w[id] * w[id] == s.stakes[id] as real
  }

  predicate Weighted(ids: seq<int>, w: map<int, real>) {
    forall i :: 0 <= i < |ids| ==> ids[i] in w
  }

  predicate PositiveWeights(ids: seq<int>, w: map<int, real>) {
    forall i :: 0 <= i < |ids| ==> ids[i] in w && 0.0 < w[ids[i]]
  }

  function Cumulative(ids: seq<int>, w: map<int, real>): (t: real)
    requires Weighted(ids, w)
  {
    if ids == [] then 0.0 else Cumulative(ids[..|ids| - 1], w) + w[ids[|ids| - 1]]
  }

  // The picks that the i-th id wins: above everything before it, up to its own end. The first
  // also wins zero.
  predicate Wins(ids: seq<int>, w: map<int, real>, i: nat, pick: real)
    requires i < |ids| && Weighted(ids, w)
  {
    (Cumulative(ids[..i], w) < pick || (i == 0 && pick == 0.0)) && pick <= Cumulative(ids[..i + 1], w)
  }

  lemma {:induction false} CumulativeGrows(ids: seq<int>, w: map<int, real>, i: nat, j: nat)
    requires i <= j <= |ids| && PositiveWeights(ids, w)
    ensures Cumulative(ids[..i], w) <= Cumulative(ids[..j], w)
    ensures i < j ==> Cumulative(ids[..i + 1], w) == Cumulative(ids[..i], w) + w[ids[i]] <= Cumulative(ids[..j], w)
  {
    if i < j {
      assert ids[..i + 1][..i] == ids[..i];
      if i + 1 < j {
        CumulativeGrows(ids, w, i, j - 1);
        assert ids[..j][..j - 1] == ids[..j - 1];
      }
    }
  }

  // No pick has two winners.
  lemma OneWinner(ids: seq<int>, w: map<int, real>, i: nat, j: nat, pick: real)
    requires i < |ids| && j < |ids| && PositiveWeights(ids, w)
    requires Wins(ids, w, i, pick) && Wins(ids, w, j, pick)
    ensures i == j
  {
    if i < j {
      CumulativeGrows(ids, w, i, j);
    } else if j < i {
      CumulativeGrows(ids, w, j, i);
    }
  }

  // The first position whose cumulative weight reaches the pick.
  function FirstReaching(ids: seq<int>, w: map<int, real>, pick: real): (i: nat)
    requires Weighted(ids, w)
    ensures i <= |ids|
  {
    if ids == [] then 0 else
      var k := FirstReaching(ids[..|ids| - 1], w, pick);
      if k == |ids| - 1 && Cumulative(ids, w) < pick then |ids| else k
  }

  // The proposer for a pick: the first id if there is no weight, the last if none reaches the pick.
  function Selected(ids: seq<int>, w: map<int, real>, pick: real): (id: int)
    requires ids != [] && Weighted(ids, w)
  {
    var k := FirstReaching(ids, w, pick);
    if Cumulative(ids, w) <= 0.0 then ids[0] else if k < |ids| then ids[k] else ids[|ids| - 1]
  }

  lemma {:induction false} FirstReachingWins(ids: seq<int>, w: map<int, real>, pick: real)
    requires ids != [] && PositiveWeights(ids, w) && 0.0 <= pick <= Cumulative(ids, w)
    ensures FirstReaching(ids, w, pick) < |ids| && Wins(ids, w, FirstReaching(ids, w, pick), pick)
  {
    var front := ids[..|ids| - 1];
    assert ids[..|ids|] == ids;
    if front == [] {
      assert FirstReaching(ids, w, pick) == 0 && ids[..0] == [];
    } else if pick <= Cumulative(front, w) {
      FirstReachingWins(front, w, pick);
      var i := FirstReaching(front, w, pick);
      assert front[..i] == ids[..i] && front[..i + 1] == ids[..i + 1];
    } else {
      NoneReaches(front, w, pick);
    }
  }

  lemma {:induction false} NoneReaches(ids: seq<int>, w: map<int, real>, pick: real)
    requires PositiveWeights(ids, w) && Cumulative(ids, w) < pick
    ensures FirstReaching(ids, w, pick) == |ids|
  {
    if ids != [] {
      NoneReaches(ids[..|ids| - 1], w, pick);
    }
  }

  lemma PickInRange(u: real, total: real)
    requires 0.0 <= u < 1.0 && 0.0 < total
    ensures 0.0 <= u * total <= total
  {
    ProductSign(-u, total);
    ProductSign(u - 1.0, total);
    assert -u * total == -(u * total) && (u - 1.0) * total == u * total - total;
  }

  lemma WinnerReaches(ids: seq<int>, w: map<int, real>, pick: real, i: nat)
    requires PositiveWeights(ids, w) && 0.0 <= pick <= Cumulative(ids, w) && i < |ids|
    ensures FirstReaching(ids, w, pick) < |ids|
    ensures FirstReaching(ids, w, pick) == i <==> Wins(ids, w, i, pick)
  {
    FirstReachingWins(ids, w, pick);
    if Wins(ids, w, i, pick) {
      OneWinner(ids, w, i, FirstReaching(ids, w, pick), pick);
    }
  }

  // A well-kept set with square-root weights draws fairly: for any pick from zero to the total, a
  // validator is selected exactly when the pick lies in its own interval, and neither special case
  // is ever taken.
  lemma DrawIsFair(s: Registry, w: map<int, real>, pick: real, i: nat)
    requires Well(s) && Roots(s, w) && i < |s.ids|
    ensures PositiveWeights(s.ids, w) && 0.0 < Cumulative(s.ids, w)
    ensures 0.0 <= pick <= Cumulative(s.ids, w) ==>
              && FirstReaching(s.ids, w, pick) < |s.ids|
              && (Selected(s.ids, w, pick) == s.ids[i] <==> Wins(s.ids, w, i, pick))
  {
    var ids := s.ids;
    assert forall j :: 0 <= j < |ids| ==> ids[j] in ids;
    assert ids[..|ids|] == ids && ids[..0] == [];
    CumulativeGrows(ids, w, 0, |ids|);
    if 0.0 <= pick <= Cumulative(ids, w) {
      WinnerReaches(ids, w, pick, i);
    }
  }

  // Outside of that range the draw falls back on the first id, or the last.
  lemma SelectedOutside(ids: seq<int>, w: map<int, real>, pick: real)
    requires ids != [] && PositiveWeights(ids, w) && (Cumulative(ids, w) < pick || Cumulative(ids, w) <= 0.0)
    ensures Selected(ids, w, pick) == if Cumulative(ids, w) <= 0.0 then ids[0] else ids[|ids| - 1]
  {
    if Cumulative(ids, w) < pick {
      NoneReaches(ids, w, pick);
    }
  }

  lemma WeightAtLeastTen(s: Registry, w: map<int, real>, id: int)
    requires Well(s) && Roots(s, w) && id in s.stakes
    ensures 10.0 <= w[id]
  {
    RootsKeepOrder(10.0, w[id]);
  }

  lemma {:induction false} CumulativeAtLeast(ids: seq<int>, w: map<int, real>, x: real)
    requires forall i :: 0 <= i < |ids| ==> ids[i] in w && x <= w[ids[i]]
    ensures x * |ids| as real <= Cumulative(ids, w)
  {
    if ids != [] {
      CumulativeAtLeast(ids[..|ids| - 1], w, x);
      assert |ids| as real == (|ids| - 1) as real + 1.0;
    }
  }

  // With the minimum stake every weight is at least ten, so the total is at least ten for each id.
  lemma TotalAtLeastTens(s: Registry, w: map<int, real>)
    requires Well(s) && Roots(s, w)
    ensures Weighted(s.ids, w) && 10.0 * |s.ids| as real <= Cumulative(s.ids, w)
  {
    forall i | 0 <= i < |s.ids| ensures s.ids[i] in w && 10.0 <= w[s.ids[i]] {
      var id := s.ids[i];
      assert id in s.ids;
      WeightAtLeastTen(s, w, id);
    }
    CumulativeAtLeast(s.ids, w, 10.0);
  }

  lemma RootsKeepOrder(x: real, y: real)
    requires 0.0 < x && 0.0 < y
    ensures x * x <= y * y <==> x <= y
  {
    assert (x - y) * (x + y) == x * x - y * y;
    ProductSign(x - y, x + y);
  }

  lemma ProductSign(x: real, y: real)
    requires 0.0 < y
    ensures x * y <= 0.0 <==> x <= 0.0
  {
  }

  // The square root dampens: a stake split over two ids weighs more than it does on one.
  lemma SplitWeighsMore(whole: real, x: real, y: real)
    requires 0.0 < x && 0.0 < y && 0.0 < whole && whole * whole == x * x + y * y
    ensures whole < x + y
  {
    ProductSign(x, y);
    assert (x + y) * (x + y) == x * x + 2.0 * (x * y) + y * y;
    RootsKeepOrder(x + y, whole);
  }

  // ---------- The set as an object ----------

  class ValidatorSet {
    var ids: seq<int>
    var stakes: map<int, u64>
    var missed: map<int, int>
    var jailed: seq<int>

    function Current(): (s: Registry)
      reads this
    {
      Registry(ids, stakes, missed, jailed)
    }

    constructor ()
      ensures Current() == EMPTY && Well(Current())
    {
      ids, stakes, missed, jailed := [], map[], map[], [];
    }

    method Add(id: int, stake: u64) returns (r: Reply)
      requires Well(Current())
      modifies this
      ensures (Current(), r) == AddedTo(old(Current()), id, stake) && Well(Current())
    {
      AddWell(Current(), id, stake);
      if id in stakes {
        return AlreadyRegistered;
      }
      if stake < MIN_STAKE {
        return StakeTooSmall;
      }
      if |ids| >= MAX_VALIDATORS {
        return SetFull;
      }
      stakes := stakes[id := stake];
      missed := missed[id := 0];
      var sorted := SortedCopy(ids + [id]);
      SortedDistinct(sorted, ids, id);
      ids := sorted;
      return Added;
    }

    method Remove(id: int)
      modifies this
      ensures Current() == RemovedFrom(old(Current()), id)
    {
      var all := ids;
      for i := 0 to |all|
        invariant ids == all && forall k :: 0 <= k < i ==> all[k] != id
      {
        if all[i] == id {
          assert First(all, id) == i;
          ids := all[..i] + all[i + 1..];
          break;
        }
      }
      stakes := stakes - {id};
      missed := missed - {id};
    }

    method Jail(id: int)
      modifies this
      ensures Current() == JailedIn(old(Current()), id)
    {
      Remove(id);
      jailed := jailed + [id];
    }

    method MarkMissed(id: int) returns (r: bool)
      requires Well(Current())
      modifies this
      ensures (Current(), r) == Marked(old(Current()), id) && Well(Current())
    {
      MissWell(Current(), id);
      missed := missed[id := (if id in missed then missed[id] else 0) + 1];
      if missed[id] >= JAIL_THRESHOLD {
        Jail(id);
        return true;
      }
      return false;
    }

    method SelectProposer(w: map<int, real>, u: real) returns (id: int, pick: real)
      requires ids != [] && Weighted(ids, w)
      ensures pick == u * Cumulative(ids, w) && id == Selected(ids, w, pick)
    {
      var totalWeight := TotalSqrtWeight(w);
      pick := u * totalWeight;
      id := SelectAt(w, totalWeight, pick);
    }

    // The first id whose cumulative weight reaches the pick.
    method SelectAt(w: map<int, real>, totalWeight: real, pick: real) returns (id: int)
      requires ids != [] && Weighted(ids, w) && totalWeight == Cumulative(ids, w)
      ensures id == Selected(ids, w, pick)
    {
      if totalWeight <= 0.0 {
        return ids[0];
      }
      var cumulative := 0.0;
      for i := 0 to |ids|
        invariant cumulative == Cumulative(ids[..i], w) && FirstReaching(ids[..i], w, pick) == i
      {
        NextReaching(ids, w, pick, i);
        cumulative := cumulative + w[ids[i]];
        if cumulative >= pick {
          ReachedStays(ids, w, pick, i);
          return ids[i];
        }
      }
      assert ids[..|ids|] == ids;
      return ids[|ids| - 1];
    }

    method TotalSqrtWeight(w: map<int, real>) returns (total: real)
      requires Weighted(ids, w)
      ensures total == Cumulative(ids, w)
    {
      total := 0.0;
      for i := 0 to |ids|
        invariant total == Cumulative(ids[..i], w)
      {
        assert ids[..i + 1][..i] == ids[..i];
        total := total + w[ids[i]];
      }
      assert ids[..|ids|] == ids;
    }
  }

  lemma NextReaching(ids: seq<int>, w: map<int, real>, pick: real, i: nat)
    requires i < |ids| && Weighted(ids, w) && FirstReaching(ids[..i], w, pick) == i
    ensures Cumulative(ids[..i + 1], w) == Cumulative(ids[..i], w) + w[ids[i]]
    ensures FirstReaching(ids[..i + 1], w, pick) == if Cumulative(ids[..i + 1], w) < pick then i + 1 else i
  {
    assert ids[..i + 1][..i] == ids[..i];
  }

  lemma {:induction false} ReachedStays(ids: seq<int>, w: map<int, real>, pick: real, i: nat)
    requires i < |ids| && Weighted(ids, w) && FirstReaching(ids[..i + 1], w, pick) == i
    ensures FirstReaching(ids, w, pick) == i
  {
    if i + 1 < |ids| {
      assert ids[..|ids| - 1][..i + 1] == ids[..i + 1];
      ReachedStays(ids[..|ids| - 1], w, pick, i);
    } else {
      assert ids[..i + 1] == ids;
    }
  }
}
