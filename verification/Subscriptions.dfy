/** The two-way index of WebSocket subscriptions. An id stands for its counter value, and
    `closed` records each closing of a subscription's done channel. */
module Subscriptions {
  import opened Bytes
  import opened Ledger

  datatype Kind = NewHeads | NewPendingTransactions | Logs

  datatype Subscription = Subscription(kind: Kind, conn: int)

  datatype Index = Index(subs: map<int, Subscription>, connSubs: map<int, set<int>>, nextId: u64, closed: multiset<int>)

  const EMPTY: Index := Index(map[], map[], 0, multiset{})

  // ---------- Operations ----------

  function IdsOf(s: Index, conn: int): (ids: set<int>) {
    if conn in s.connSubs then s.connSubs[conn] else {}
  }

  function Subscribed(s: Index, kind: Kind, conn: int): (r: Index) {
    var id := Wrap64(s.nextId + 1);
    Index(s.subs[id := Subscription(kind, conn)], s.connSubs[conn := IdsOf(s, conn) + {id}], id, s.closed)
  }

  function Unlinked(connSubs: map<int, set<int>>, conn: int, id: int): (r: map<int, set<int>>) {
    if conn !in connSubs then connSubs else
    if connSubs[conn] - {id} == {} then connSubs - {conn} else connSubs[conn := connSubs[conn] - {id}]
  }

  function Unsubscribed(s: Index, id: int): (r: (Index, bool)) {
    if id !in s.subs then (s, false) else
      (Index(s.subs - {id}, Unlinked(s.connSubs, s.subs[id].conn, id), s.nextId, s.closed + multiset{id}), true)
  }

  function Cleaned(s: Index, conn: int): (r: Index) {
    if conn !in s.connSubs then s else
      Index(s.subs - s.connSubs[conn], s.connSubs - {conn}, s.nextId,
            s.closed + multiset(s.connSubs[conn] * s.subs.Keys))
  }

  // ---------- Runs ----------

  datatype Event = Subscribe(kind: Kind, conn: int) | Unsubscribe(id: int) | Cleanup(conn: int)

  function After(s: Index, e: Event): (r: Index) {
    match e
    case Subscribe(kind, conn) => Subscribed(s, kind, conn)
    case Unsubscribe(id) => Unsubscribed(s, id).0
    case Cleanup(conn) => Cleaned(s, conn)
  }

  function Final(s: Index, es: seq<Event>): (r: Index) {
    if es == [] then s else After(Final(s, es[..|es| - 1]), es[|es| - 1])
  }

  // Each map is the inverse of the other, and no connection keeps an empty set.
  ghost predicate Inverse(subs: map<int, Subscription>, connSubs: map<int, set<int>>) {
    && (forall id :: id in subs ==> subs[id].conn in connSubs && id in connSubs[subs[id].conn])
    && (forall c, id :: c in connSubs && id in connSubs[c] ==> id in subs && subs[id].conn == c)
    && (forall c :: c in connSubs ==> connSubs[c] != {})
  }

  // Every id handed out so far is either live or closed, and closed once.
  ghost predicate ClosedOnce(s: Index) {
    forall id :: s.closed[id] == if 1 <= id <= s.nextId && id !in s.subs then 1 else 0
  }

  ghost predicate Well(s: Index) {
    && Inverse(s.subs, s.connSubs) && ClosedOnce(s)
    && forall id :: id in s.subs ==> 1 <= id <= s.nextId
  }

  lemma LinkInverse(subs: map<int, Subscription>, connSubs: map<int, set<int>>, id: int, sub: Subscription)
    requires Inverse(subs, connSubs) && id !in subs
    ensures var ids := if sub.conn in connSubs then connSubs[sub.conn] else {};
            Inverse(subs[id := sub], connSubs[sub.conn := ids + {id}])
  {
    var ids := if sub.conn in connSubs then connSubs[sub.conn] else {};
    var more, links := subs[id := sub], connSubs[sub.conn := ids + {id}];
    forall c, x | c in links && x in links[c] ensures x in more && more[x].conn == c {
      if c == sub.conn && x == id {
      } else {
        assert c in connSubs && x in connSubs[c];
      }
    }
    forall c | c in links ensures links[c] != {} {
      if c == sub.conn {
        assert id in links[c];
      }
    }
  }

  lemma SubscribeWell(s: Index, kind: Kind, conn: int)
    requires Well(s) && s.nextId + 1 < TWO_64
    ensures Well(Subscribed(s, kind, conn))
  {
    LinkInverse(s.subs, s.connSubs, s.nextId + 1, Subscription(kind, conn));
  }

  lemma UnlinkInverse(subs: map<int, Subscription>, connSubs: map<int, set<int>>, id: int)
    requires Inverse(subs, connSubs) && id in subs
    ensures Inverse(subs - {id}, Unlinked(connSubs, subs[id].conn, id))
  {
    var conn := subs[id].conn;
    assert forall x :: x in connSubs[conn] - {id} ==> x in subs && subs[x].conn == conn;
  }

  lemma UnsubscribeWell(s: Index, id: int)
    requires Well(s)
    ensures Well(Unsubscribed(s, id).0)
  {
    if id in s.subs {
      UnlinkInverse(s.subs, s.connSubs, id);
    }
  }

  lemma CleanWell(s: Index, conn: int)
    requires Well(s)
    ensures Well(Cleaned(s, conn))
    ensures forall id :: id in Cleaned(s, conn).subs <==> id in s.subs && s.subs[id].conn != conn
  {
    if conn in s.connSubs {
      var ids := s.connSubs[conn];
      assert forall id :: id in ids ==> id in s.subs && s.subs[id].conn == conn;
      assert ids * s.subs.Keys == ids;
    }
  }

  lemma StepWell(s: Index, e: Event)
    requires Well(s) && s.nextId + 1 < TWO_64
    ensures Well(After(s, e)) && After(s, e).nextId <= s.nextId + 1
  {
    match e {
      case Subscribe(kind, conn) => SubscribeWell(s, kind, conn);
      case Unsubscribe(id) => UnsubscribeWell(s, id);
      case Cleanup(conn) => CleanWell(s, conn);
    }
  }

  // While the 64-bit counter has not wrapped, the two maps are inverses of each other without empty
  // sets, and each subscription's channel is closed exactly once, when the subscription goes.
  lemma {:induction false} RunWell(s: Index, es: seq<Event>)
    requires Well(s) && s.nextId + |es| < TWO_64
    ensures Well(Final(s, es)) && Final(s, es).nextId <= s.nextId + |es|
  {
    if es != [] {
      var before := es[..|es| - 1];
      RunWell(s, before);
      StepWell(Final(s, before), es[|es| - 1]);
    }
  }

  // A new subscription is stored under the next number, with its kind and connection, and nothing else
  // changes.
  lemma SubscribedIsStored(s: Index, kind: Kind, conn: int)
    requires Well(s) && s.nextId + 1 < TWO_64
    ensures var r, id := Subscribed(s, kind, conn), s.nextId + 1;
            && id !in s.subs && r.subs.Keys == s.subs.Keys + {id}
            && r.subs[id].kind == kind && r.subs[id].conn == conn
            && (forall x :: x in s.subs ==> r.subs[x] == s.subs[x])
            && (forall c :: IdsOf(r, c) == IdsOf(s, c) + if c == conn then {id} else {})
            && r.nextId == id && r.closed == s.closed
  {
  }

  lemma StepLives(s: Index, e: Event, id: int, sub: Subscription)
    requires Well(s) && s.nextId + 1 < TWO_64 && id <= s.nextId && (id in s.subs ==> s.subs[id] == sub)
    ensures id in After(s, e).subs <==> id in s.subs && e != Unsubscribe(id) && e != Cleanup(sub.conn)
    ensures id in After(s, e).subs ==> After(s, e).subs[id] == sub
    ensures id <= After(s, e).nextId
  {
    match e {
      case Subscribe(_, _) =>
      case Unsubscribe(_) =>
      case Cleanup(conn) => CleanWell(s, conn);
    }
  }

  // A live subscription stays what it is until it is unsubscribed or its connection is cleaned up, and
  // never comes back after that.
  lemma {:induction false} LivesUntilClosed(s: Index, es: seq<Event>, id: int)
    requires Well(s) && s.nextId + |es| < TWO_64 && id in s.subs
    ensures id in Final(s, es).subs <==> Unsubscribe(id) !in es && Cleanup(s.subs[id].conn) !in es
    ensures id in Final(s, es).subs ==> Final(s, es).subs[id] == s.subs[id]
    ensures id <= Final(s, es).nextId
  {
    if es != [] {
      var before, e := es[..|es| - 1], es[|es| - 1];
      assert es == before + [e];
      LivesUntilClosed(s, before, id);
      RunWell(s, before);
      StepLives(Final(s, before), e, id, s.subs[id]);
    }
  }

  // From the call on, over any run: the subscription with its kind, on its connection, exactly until it
  // is unsubscribed or the connection goes.
  lemma SubscriptionLasts(s: Index, kind: Kind, conn: int, es: seq<Event>)
    requires Well(s) && s.nextId + 1 + |es| < TWO_64
    ensures var r, id := Final(Subscribed(s, kind, conn), es), s.nextId + 1;
            if Unsubscribe(id) !in es && Cleanup(conn) !in es
            then id in r.subs && r.subs[id].kind == kind && r.subs[id].conn == conn
            else id !in r.subs
  {
    SubscribeWell(s, kind, conn);
    LivesUntilClosed(Subscribed(s, kind, conn), es, s.nextId + 1);
  }

  // Unsubscribing what was just subscribed leaves the index as it was, but for the counter and the
  // closed channel.
  lemma UnsubscribeUndoesSubscribe(s: Index, kind: Kind, conn: int)
    requires Well(s) && s.nextId + 1 < TWO_64
    ensures var id := s.nextId + 1;
            Unsubscribed(Subscribed(s, kind, conn), id).0 == s.(nextId := id, closed := s.closed + multiset{id})
  {
    var id := s.nextId + 1;
    var t := Subscribed(s, kind, conn);
    assert id !in s.subs && id !in IdsOf(s, conn);
    assert IdsOf(t, conn) - {id} == IdsOf(s, conn);
    assert t.subs - {id} == s.subs;
    assert Unlinked(t.connSubs, conn, id) == s.connSubs;
  }

  // ---------- Broadcasts ----------

  // One write of a broadcast: to which connection, for which subscription, and whether it worked.
  datatype Send = Send(conn: int, id: int, ok: bool)

  // Subscriptions are served until a write to their connection fails.
  ghost predicate NothingAfterFailure(sent: seq<Send>) {
    forall i, j :: 0 <= i < j < |sent| && sent[i].conn == sent[j].conn ==> sent[i].ok
  }

  ghost predicate Failed(sent: seq<Send>, conn: int) {
    exists i :: 0 <= i < |sent| && sent[i].conn == conn && !sent[i].ok
  }

  // Exactly the subscriptions of failed connections are gone.
  ghost predicate FailedRemoved(before: map<int, Subscription>, after: map<int, Subscription>, sent: seq<Send>) {
    && (forall id :: id in after <==> id in before && !Failed(sent, before[id].conn))
    && (forall id :: id in after ==> after[id] == before[id])
  }

  ghost predicate Sent(sent: seq<Send>, id: int) {
    exists i :: 0 <= i < |sent| && sent[i].id == id
  }

  // The k-th write has outcome writes(k) and goes to a subscription of the kind, on its connection.
  ghost predicate Faithful(sent: seq<Send>, before: map<int, Subscription>, kind: Kind, writes: nat -> bool) {
    forall i :: 0 <= i < |sent| ==>
      && sent[i].ok == writes(i)
      && sent[i].id in before && before[sent[i].id] == Subscription(kind, sent[i].conn)
  }

  ghost predicate NoneTwice(sent: seq<Send>) {
    forall i, j :: 0 <= i < j < |sent| ==> sent[i].id != sent[j].id
  }

  // A subscription has been written to, or its connection has failed.
  ghost predicate Served(sent: seq<Send>, before: map<int, Subscription>, id: int) {
    Sent(sent, id) || (id in before && Failed(sent, before[id].conn))
  }

  lemma SendAppended(sent: seq<Send>, last: Send, conn: int, id: int)
    ensures Failed(sent + [last], conn) <==> Failed(sent, conn) || (last.conn == conn && !last.ok)
    ensures Sent(sent + [last], id) <==> Sent(sent, id) || last.id == id
  {
    var more := sent + [last];
    assert more[|sent|] == last;
    assert forall i :: 0 <= i < |sent| ==> more[i] == sent[i];
  }

  lemma SendStep(before: map<int, Subscription>, subs: map<int, Subscription>, after: map<int, Subscription>,
                 sent: seq<Send>, last: Send)
    requires FailedRemoved(before, subs, sent) && NothingAfterFailure(sent)
    requires last.id in subs && subs[last.id].conn == last.conn
    requires forall id :: id in after <==> id in subs && (last.ok || subs[id].conn != last.conn)
    requires forall id :: id in after ==> after[id] == subs[id]
    ensures FailedRemoved(before, after, sent + [last]) && NothingAfterFailure(sent + [last])
  {
    forall id | id in before
      ensures Failed(sent + [last], before[id].conn) <==>
              Failed(sent, before[id].conn) || (last.conn == before[id].conn && !last.ok)
    {
      SendAppended(sent, last, before[id].conn, id);
    }
    assert !Failed(sent, before[last.id].conn);
  }

  // The state of a broadcast that has been through the subscriptions in `list`.
  ghost predicate Progress(before: map<int, Subscription>, subs: map<int, Subscription>, sent: seq<Send>,
                           list: seq<int>, kind: Kind, writes: nat -> bool) {
    && FailedRemoved(before, subs, sent) && NothingAfterFailure(sent)
    && Faithful(sent, before, kind, writes) && NoneTwice(sent)
    && (forall i :: 0 <= i < |sent| ==> sent[i].id in list)
    && (forall i :: 0 <= i < |list| ==> Served(sent, before, list[i]))
  }

  lemma ProgressSent(before: map<int, Subscription>, subs: map<int, Subscription>, after: map<int, Subscription>,
                     sent: seq<Send>, list: seq<int>, kind: Kind, writes: nat -> bool, last: Send)
    requires Progress(before, subs, sent, list, kind, writes) && last.id !in list
    requires last.ok == writes(|sent|) && last.id in subs && subs[last.id] == Subscription(kind, last.conn)
    requires forall id :: id in after <==> id in subs && (last.ok || subs[id].conn != last.conn)
    requires forall id :: id in after ==> after[id] == subs[id]
    ensures Progress(before, after, sent + [last], list + [last.id], kind, writes)
  {
    SendStep(before, subs, after, sent, last);
    forall i | 0 <= i < |list| + 1 ensures Served(sent + [last], before, (list + [last.id])[i]) {
      var id := (list + [last.id])[i];
      SendAppended(sent, last, if id in before then before[id].conn else 0, id);
    }
  }

  lemma CloseOne(ids: set<int>, todo: set<int>, id: int, subs: map<int, Subscription>)
    requires todo <= ids && id in todo
    ensures subs - (ids - (todo - {id})) == subs - (ids - todo) - {id}
    ensures id in subs - (ids - todo) <==> id in subs
    ensures multiset((ids - (todo - {id})) * subs.Keys)
         == multiset((ids - todo) * subs.Keys) + if id in subs then multiset{id} else multiset{}
  {
    var done := ids - todo;
    assert ids - (todo - {id}) == done + {id};
    if id in subs {
      assert (done + {id}) * subs.Keys == done * subs.Keys + {id};
      assert multiset(done * subs.Keys + {id}) == multiset(done * subs.Keys) + multiset{id};
    } else {
      assert (done + {id}) * subs.Keys == done * subs.Keys;
    }
  }

  class SubscriptionManager {
    var subs: map<int, Subscription>
    var connSubs: map<int, set<int>>
    var nextId: u64
    ghost var closed: multiset<int>

    ghost function Current(): (s: Index)
      reads this
    {
      Index(subs, connSubs, nextId, closed)
    }

    constructor ()
      ensures Current() == EMPTY && Well(Current())
    {
      subs, connSubs, nextId, closed := map[], map[], 0, multiset{};
    }

    method Subscribe(kind: Kind, conn: int) returns (id: int)
      requires Well(Current())
      modifies this
      ensures Current() == Subscribed(old(Current()), kind, conn) && id == nextId
      ensures old(nextId) + 1 < TWO_64 ==> Well(Current()) && id !in old(subs)
    {
      if nextId + 1 < TWO_64 {
        SubscribeWell(Current(), kind, conn);
      }
      nextId := Wrap64(nextId + 1);
      id := nextId;
      subs := subs[id := Subscription(kind, conn)];
      if conn !in connSubs {
        connSubs := connSubs[conn := {}];
      }
      connSubs := connSubs[conn := connSubs[conn] + {id}];
    }

    method Unsubscribe(id: int) returns (found: bool)
      requires Well(Current())
      modifies this
      ensures (Current(), found) == Unsubscribed(old(Current()), id) && Well(Current())
    {
      UnsubscribeWell(Current(), id);
      if id !in subs {
        return false;
      }
      var conn := subs[id].conn;
      if conn in connSubs {
        var left := connSubs[conn] - {id};
        if |left| == 0 {
          connSubs := connSubs - {conn};
        } else {
          connSubs := connSubs[conn := left];
        }
      }
      closed := closed + multiset{id};
      subs := subs - {id};
      return true;
    }

    method CleanupConn(conn: int)
      requires Well(Current())
      modifies this
      ensures Current() == Cleaned(old(Current()), conn) && Well(Current())
    {
      CleanWell(Current(), conn);
      if conn !in connSubs {
        return;
      }
      CloseAll(connSubs[conn]);
      connSubs := connSubs - {conn};
    }

    method CloseAll(ids: set<int>)
      modifies this`subs, this`closed
      ensures subs == old(subs) - ids && closed == old(closed) + multiset(ids * old(subs).Keys)
    {
      var todo := ids;
      assert ids - todo == {};
      while todo != {}
        invariant todo <= ids
        invariant subs == old(subs) - (ids - todo)
        invariant closed == old(closed) + multiset((ids - todo) * old(subs).Keys)
        decreases todo
      {
        var id := AnyOf(todo);
        CloseOne(ids, todo, id, old(subs));
        if id in subs {
          closed := closed + multiset{id};
        }
        subs := subs - {id};
        todo := todo - {id};
      }
      assert ids - todo == ids;
    }

    // The subscriptions of one kind, as a list in no particular order.
    method Subscribers(kind: Kind) returns (list: seq<int>)
      ensures forall i, j :: 0 <= i < j < |list| ==> list[i] != list[j]
      ensures forall id :: id in list <==> id in subs && subs[id].kind == kind
    {
      list := [];
      var todo := subs.Keys;
      while todo != {}
        invariant todo <= subs.Keys
        invariant forall i, j :: 0 <= i < j < |list| ==> list[i] != list[j]
        invariant forall id :: id in list <==> id in subs && id !in todo && subs[id].kind == kind
        decreases todo
      {
        var id := AnyOf(todo);
        if subs[id].kind == kind {
          list := list + [id];
        }
        todo := todo - {id};
      }
    }

    // Sends to the subscriptions listed before the first write. The outcome of the k-th write is
    // writes(k); a failed write removes the connection's subscriptions, and a subscription whose
    // channel has been closed is skipped.
    method Broadcast(kind: Kind, writes: nat -> bool) returns (sent: seq<Send>)
      requires Well(Current())
      modifies this
      ensures Well(Current()) && FailedRemoved(old(subs), subs, sent) && NothingAfterFailure(sent)
      ensures Faithful(sent, old(subs), kind, writes) && NoneTwice(sent)
      ensures forall id :: id in old(subs) && old(subs)[id].kind == kind ==> Served(sent, old(subs), id)
    {
      var list := Subscribers(kind);
      sent := [];
      for k := 0 to |list|
        invariant Well(Current()) && Progress(old(subs), subs, sent, list[..k], kind, writes)
      {
        var id := list[k];
        assert id in list;
        assert list[..k + 1] == list[..k] + [id];
        if id in subs {
          var send := Send(subs[id].conn, id, writes(|sent|));
          ghost var before := subs;
          SendNotification(send);
          ProgressSent(old(subs), before, subs, sent, list[..k], kind, writes, send);
          sent := sent + [send];
        }
      }
      assert list[..|list|] == list;
    }

    method SendNotification(send: Send)
      requires Well(Current())
      modifies this
      ensures Well(Current())
      ensures forall id :: id in subs <==> id in old(subs) && (send.ok || old(subs)[id].conn != send.conn)
      ensures forall id :: id in subs ==> subs[id] == old(subs)[id]
    {
      if !send.ok {
        CleanWell(Current(), send.conn);
        CleanupConn(send.conn);
      }
    }
  }
}
