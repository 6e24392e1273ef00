/** What the streams of the RTDS server receive, in every interleaving. */
module RtdsDelivery {
  import opened Options
  import opened RtdsProtocol

  // ---------------------------------------------------------------- one connection

  ghost predicate Received(l: Link, layer: Layer, values: Values, origin: Option<nat>) {
    exists i | 0 <= i < |l.inbox| ::
      l.inbox[i].layer == layer && l.inbox[i].values == values && l.inbox[i].origin == origin
  }

  /** Update `u` captured connection `c`. */
  ghost predicate Captured(updates: seq<Update>, c: nat, u: nat) {
    u < |updates| && c in updates[u].targets
  }

  /** Every capturing update is still to be sent, has been lost, or was received. */
  ghost predicate PushesAccounted(updates: seq<Update>, c: nat, l: Link) {
    forall u | 0 <= u < |updates| && Captured(updates, c, u) ::
      u in l.pending || l.failed || Received(l, updates[u].layer, updates[u].values, Some(u))
  }

  /** Every layer of the snapshot is still to be replayed, has been lost, or was received. */
  ghost predicate ReplayAccounted(conn: Conn, l: Link) {
    forall layer | layer in conn.snapshot ::
      || layer in l.todo || (l.draft.Some? && l.draft.value.layer == layer) || l.failed
      || Received(l, layer, conn.snapshot[layer], None)
  }

  /** The message comes from an update that captured the connection, or from its snapshot. */
  ghost predicate Genuine(updates: seq<Update>, conn: Conn, c: nat, m: Message) {
    match m.origin
    case None => m.layer in conn.snapshot && m.values == conn.snapshot[m.layer]
    case Some(u) => Captured(updates, c, u) && m.layer == updates[u].layer && m.values == updates[u].values
  }

  /** Two messages that are not the same delivery. */
  ghost predicate Differ(m: Message, n: Message) {
    m.origin != n.origin || (m.origin.None? && m.layer != n.layer)
  }

  /** The message has not been announced for later: it is neither pending nor still to be replayed. */
  ghost predicate Done(l: Link, m: Message) {
    && (m.origin.Some? ==> m.origin.value !in l.pending)
    && (m.origin.None? ==> m.layer !in l.todo && (l.draft.Some? ==> l.draft.value.layer != m.layer))
  }

  ghost predicate InboxOk(updates: seq<Update>, conn: Conn, c: nat, l: Link) {
    && (forall i | 0 <= i < |l.inbox| :: Genuine(updates, conn, c, l.inbox[i]) && Done(l, l.inbox[i]))
    && (forall i, j | 0 <= i < j < |l.inbox| :: Differ(l.inbox[i], l.inbox[j]))
  }

  ghost predicate InFlightOk(updates: seq<Update>, conn: Conn, c: nat, l: Link) {
    && l.todo <= conn.snapshot.Keys
    && (l.draft.Some? ==>
          && l.draft.value.origin.None? && Genuine(updates, conn, c, l.draft.value) && l.draft.value.layer !in l.todo)
    && (forall u | u in l.pending :: Captured(updates, c, u))
  }

  ghost predicate LinkInv(updates: seq<Update>, conn: Conn, c: nat, l: Link) {
    && PushesAccounted(updates, c, l) && ReplayAccounted(conn, l)
    && InboxOk(updates, conn, c, l) && InFlightOk(updates, conn, c, l)
  }

  lemma ReceiveOne(l: Link, l': Link, m: Message)
    requires l'.inbox == l.inbox + [m]
    ensures Received(l', m.layer, m.values, m.origin)
    ensures forall layer, values, origin :: Received(l, layer, values, origin) ==> Received(l', layer, values, origin)
  {
    assert l'.inbox[|l.inbox|] == m;
    forall layer, values, origin | Received(l, layer, values, origin)
      ensures Received(l', layer, values, origin)
    {
      var i :| 0 <= i < |l.inbox| && l.inbox[i].layer == layer && l.inbox[i].values == values
               && l.inbox[i].origin == origin;
      assert l'.inbox[i] == l.inbox[i];
    }
  }

  lemma NewLinkInv(s: Core, node: Node, c: nat)
    requires forall u | 0 <= u < |s.updates| :: c !in s.updates[u].targets
    ensures LinkInv(s.updates, Conn(node, |s.updates|, s.current), c, NewLink(s))
  {
  }

  lemma BuildReplayInv(updates: seq<Update>, conn: Conn, c: nat, l: Link, layer: Layer, version: nat)
    requires LinkInv(updates, conn, c, l) && l.draft.None? && layer in l.todo && layer in conn.snapshot
    ensures LinkInv(updates, conn, c, BuildReplay(l, conn.snapshot, layer, version))
  {
    var l' := BuildReplay(l, conn.snapshot, layer, version);
    assert forall y, values, origin :: Received(l, y, values, origin) ==> Received(l', y, values, origin);
    assert forall i | 0 <= i < |l.inbox| :: Done(l, l.inbox[i]) ==> Done(l', l.inbox[i]);
  }

  lemma SendReplayInv(updates: seq<Update>, conn: Conn, c: nat, l: Link, ok: bool)
    requires LinkInv(updates, conn, c, l) && l.draft.Some?
    ensures LinkInv(updates, conn, c, SendReplay(l, ok))
  {
    var l', m := SendReplay(l, ok), l.draft.value;
    if ok && l.open {
      ReceiveOne(l, l', m);
      hide Received, Captured;
      assert forall i | 0 <= i < |l.inbox| :: l'.inbox[i] == l.inbox[i] && Done(l, l.inbox[i]) && Differ(l.inbox[i], m);
    }
  }

  lemma SendPushInv(updates: seq<Update>, conn: Conn, c: nat, l: Link, u: nat, version: nat, ok: bool)
    requires LinkInv(updates, conn, c, l) && u in l.pending && u < |updates|
    ensures LinkInv(updates, conn, c, SendPush(l, PushMessage(updates[u], version, u), u, ok))
  {
    var m := PushMessage(updates[u], version, u);
    var l' := SendPush(l, m, u, ok);
    if ok && l.open {
      ReceiveOne(l, l', m);
      hide Received;
      assert forall i | 0 <= i < |l.inbox| :: l'.inbox[i] == l.inbox[i] && Done(l, l.inbox[i]) && Differ(l.inbox[i], m);
    }
  }

  lemma CaptureInv(updates: seq<Update>, conn: Conn, c: nat, l: Link, update: Update)
    requires LinkInv(updates, conn, c, l)
    ensures LinkInv(updates + [update], conn, c, Capture(l, c in update.targets, |updates|))
  {
    var all, l' := updates + [update], Capture(l, c in update.targets, |updates|);
    assert forall u | 0 <= u < |updates| :: all[u] == updates[u];
    assert forall y, values, origin :: Received(l, y, values, origin) ==> Received(l', y, values, origin);
    assert forall i | 0 <= i < |l.inbox| :: Genuine(updates, conn, c, l.inbox[i]) && Done(l, l.inbox[i]);
  }

  // ---------------------------------------------------------------- all connections

  ghost predicate AllLinks(s: Sys) {
    |s.links| == |s.core.conns|
    && forall c | 0 <= c < |s.links| :: LinkInv(s.core.updates, s.core.conns[c], c, s.links[c])
  }

  lemma StepKeepsLinks(s: Sys, a: Action)
    requires |s.links| == |s.core.conns| && |s.stamps| == |s.core.updates|
    requires CoreInv(s.core) && AllLinks(s)
    ensures AllLinks(Step(s, a))
  {
    if Enabled(s, a) {
      hide LinkInv;
      match a
      case Register(node) =>
        assert LinkInv(s.core.updates, Conn(node, |s.core.updates|, s.core.current), |s.links|, NewLink(s.core)) by {
          forall u | 0 <= u < |s.core.updates|
            ensures |s.links| !in s.core.updates[u].targets
          {
            assert TargetsInv(s.core, u);
          }
          NewLinkInv(s.core, node, |s.links|);
        }
      case ReplayBuild(c, layer) =>
        BuildReplayInv(s.core.updates, s.core.conns[c], c, s.links[c], layer, s.core.version);
      case ReplaySend(c, ok) => SendReplayInv(s.core.updates, s.core.conns[c], c, s.links[c], ok);
      case Begin(layer, values) =>
        forall c | 0 <= c < |s.links|
          ensures LinkInv(Step(s, a).core.updates, s.core.conns[c], c, Step(s, a).links[c])
        {
          CaptureInv(s.core.updates, s.core.conns[c], c, s.links[c], Update(layer, values, s.core.streams.Values));
        }
      case Stamp(u) =>
      case Deliver(u, c, ok) =>
        SendPushInv(s.core.updates, s.core.conns[c], c, s.links[c], u, s.stamps[u].value, ok);
      case Close(c) =>
        assert LinkInv(s.core.updates, s.core.conns[c], c, s.links[c].(open := false)) by {
          CloseInv(s.core.updates, s.core.conns[c], c, s.links[c]);
        }
    }
  }

  lemma CloseInv(updates: seq<Update>, conn: Conn, c: nat, l: Link)
    requires LinkInv(updates, conn, c, l)
    ensures LinkInv(updates, conn, c, l.(open := false))
  {
    var l' := l.(open := false);
    assert forall y, values, origin :: Received(l, y, values, origin) ==> Received(l', y, values, origin);
    assert forall i | 0 <= i < |l.inbox| :: Done(l, l.inbox[i]) ==> Done(l', l.inbox[i]);
  }

  lemma {:induction false} LinksHold(actions: seq<Action>)
    ensures AllLinks(Exec(actions))
  {
    if actions != [] {
      hide CoreInv, AllLinks;
      var before := actions[..|actions| - 1];
      LinksHold(before);
      CoreInvHolds(before);
      StepKeepsLinks(Exec(before), actions[|actions| - 1]);
    } else {
      assert AllLinks(Sys(EMPTY_CORE, [], []));
    }
  }

  // ---------------------------------------------------------------- what a quiet stream has

  /** Nothing is in flight to the connection. */
  ghost predicate Quiet(l: Link) {
    l.pending == {} && l.todo == {} && l.draft.None?
  }

  /** Once nothing is in flight to a registered stream that lost no send, it has
      received the current values of every layer, whatever the interleaving was. */
  lemma QuietStreamHasEveryCurrentValue(actions: seq<Action>, node: Node, layer: Layer)
    requires node in Exec(actions).core.streams && layer in Exec(actions).core.current
    ensures var s := Exec(actions);
            var c := s.core.streams[node];
            && c < |s.links|
            && (Quiet(s.links[c]) && !s.links[c].failed ==>
                  exists i | 0 <= i < |s.links[c].inbox| ::
                    s.links[c].inbox[i].layer == layer && s.links[c].inbox[i].values == s.core.current[layer])
  {
    CoreInvHolds(actions);
    LinksHold(actions);
    var s := Exec(actions);
    var c := s.core.streams[node];
    assert Covered(s.core, c) && ConnInv(s.core, c);
    if Quiet(s.links[c]) && !s.links[c].failed {
      LatestWasReceived(s.core, c, s.links[c], layer);
    }
  }

  /** The latest update of a layer is the same before and after others. */
  lemma {:induction false} LatestInPrefix(updates: seq<Update>, layer: Layer, k: nat, n: nat)
    requires k <= n <= |updates|
    ensures var u := Latest(updates, layer, n); u.None? || u.value < k ==> Latest(updates, layer, k) == u
    decreases n
  {
    if k < n {
      LatestInPrefix(updates, layer, k, n - 1);
    }
  }

  lemma LatestIsAccounted(updates: seq<Update>, conn: Conn, c: nat, l: Link, layer: Layer)
    requires conn.since <= |updates| && conn.snapshot == CurrentAt(updates, conn.since)
    requires forall u | conn.since <= u < |updates| :: c in updates[u].targets
    requires PushesAccounted(updates, c, l) && ReplayAccounted(conn, l) && Quiet(l) && !l.failed
    requires layer in CurrentAt(updates, |updates|)
    ensures var u := Latest(updates, layer, |updates|);
            && u.Some? && updates[u.value].values == CurrentAt(updates, |updates|)[layer]
            && Received(l, layer, updates[u.value].values, if conn.since <= u.value then u else None)
  {
    LatestIsCurrent(updates, layer, |updates|);
    var u := Latest(updates, layer, |updates|);
    assert u.Some? && updates[u.value].layer == layer;
    if conn.since <= u.value {
      hide CurrentAt, Latest, Received, ReplayAccounted;
      assert Captured(updates, c, u.value);
    } else {
      LatestInPrefix(updates, layer, conn.since, |updates|);
      LatestIsCurrent(updates, layer, conn.since);
      hide CurrentAt, Latest, Received, PushesAccounted, Captured;
    }
  }

  lemma LatestWasReceived(s: Core, c: nat, l: Link, layer: Layer)
    requires CoreInv(s) && c < |s.conns| && Covered(s, c) && LinkInv(s.updates, s.conns[c], c, l)
    requires Quiet(l) && !l.failed && layer in s.current
    ensures var u := Latest(s.updates, layer, |s.updates|);
            && u.Some? && s.updates[u.value].values == s.current[layer]
            && Received(l, layer, s.current[layer], if s.conns[c].since <= u.value then u else None)
  {
    hide CurrentAt, Latest, Received, InboxOk, InFlightOk, TargetsInv, PushesAccounted, ReplayAccounted, Quiet;
    assert ConnInv(s, c);
    LatestIsAccounted(s.updates, s.conns[c], c, l, layer);
  }

  /** Every update reaches a stream at most once, and a replay sends every layer at most once. */
  lemma NothingIsReceivedTwice(actions: seq<Action>, c: nat, i: nat, j: nat)
    requires c < |Exec(actions).links| && i < j < |Exec(actions).links[c].inbox|
    ensures Differ(Exec(actions).links[c].inbox[i], Exec(actions).links[c].inbox[j])
  {
    LinksHold(actions);
    hide PushesAccounted, ReplayAccounted, InFlightOk;
    assert LinkInv(Exec(actions).core.updates, Exec(actions).core.conns[c], c, Exec(actions).links[c]);
  }

  // ---------------------------------------------------------------- order

  /** The position of a message's update; the replay comes before all of them. */
  ghost function Rank(m: Message): int {
    if m.origin.Some? then m.origin.value else -1
  }

  /** The stream received the updates in the order in which they were made. */
  ghost predicate InOrder(inbox: seq<Message>) {
    forall i, j | 0 <= i < j < |inbox| :: Rank(inbox[i]) <= Rank(inbox[j])
  }

  /** What the proxy holds: for each layer the last values received. */
  ghost function View(inbox: seq<Message>): map<Layer, Values> {
    if inbox == [] then map[]
    else View(inbox[..|inbox| - 1])[inbox[|inbox| - 1].layer := inbox[|inbox| - 1].values]
  }

  lemma {:induction false} ViewIsLast(inbox: seq<Message>, layer: Layer) returns (k: int)
    ensures -1 <= k < |inbox|
    ensures k == -1 <==> layer !in View(inbox)
    ensures k >= 0 ==> inbox[k].layer == layer && View(inbox)[layer] == inbox[k].values
    ensures forall i | k < i < |inbox| :: inbox[i].layer != layer
  {
    if inbox == [] {
      k := -1;
    } else if inbox[|inbox| - 1].layer == layer {
      k := |inbox| - 1;
    } else {
      k := ViewIsLast(inbox[..|inbox| - 1], layer);
    }
  }

  /** What a genuine message says about its layer. */
  lemma GenuineIsOld(s: Core, c: nat, m: Message)
    requires CoreInv(s) && c < |s.conns| && Genuine(s.updates, s.conns[c], c, m)
    ensures var u := Latest(s.updates, m.layer, |s.updates|);
            && u.Some? && m.layer in s.current && Rank(m) <= u.value
            && (Rank(m) == u.value || u.value < s.conns[c].since ==> m.values == s.current[m.layer])
  {
    assert ConnInv(s, c);
    LatestIsCurrent(s.updates, m.layer, |s.updates|);
    LatestIsCurrent(s.updates, m.layer, s.conns[c].since);
    hide CurrentAt, Latest;
    if m.origin.Some? {
      assert TargetsInv(s, m.origin.value);
    }
  }

  lemma OrderedLayerIsCurrent(s: Core, c: nat, l: Link, layer: Layer)
    requires CoreInv(s) && c < |s.conns| && Covered(s, c) && LinkInv(s.updates, s.conns[c], c, l)
    requires Quiet(l) && !l.failed && InOrder(l.inbox)
    ensures layer in View(l.inbox) <==> layer in s.current
    ensures layer in s.current ==> View(l.inbox)[layer] == s.current[layer]
  {
    var k := ViewIsLast(l.inbox, layer);
    hide View, CoreInv, Covered, Quiet;
    if k >= 0 {
      GenuineIsOld(s, c, l.inbox[k]);
    }
    if layer in s.current {
      LatestWasReceived(s, c, l, layer);
    }
  }

  /** A quiet stream that received the updates in order holds exactly the current values. */
  lemma OrderedViewIsCurrent(actions: seq<Action>, node: Node)
    requires node in Exec(actions).core.streams
    ensures var s := Exec(actions);
            var c := s.core.streams[node];
            && c < |s.links|
            && (Quiet(s.links[c]) && !s.links[c].failed && InOrder(s.links[c].inbox) ==>
                  View(s.links[c].inbox) == s.core.current)
  {
    CoreInvHolds(actions);
    LinksHold(actions);
    var s := Exec(actions);
    var c := s.core.streams[node];
    assert Covered(s.core, c) && LinkInv(s.core.updates, s.core.conns[c], c, s.links[c]);
    hide LinkInv, CoreInv, Covered, View, InOrder, Quiet;
    if Quiet(s.links[c]) && !s.links[c].failed && InOrder(s.links[c].inbox) {
      forall layer: Layer
        ensures layer in View(s.links[c].inbox) <==> layer in s.core.current
        ensures layer in s.core.current ==> View(s.links[c].inbox)[layer] == s.core.current[layer]
      {
        OrderedLayerIsCurrent(s.core, c, s.links[c], layer);
      }
    }
  }

  // ---------------------------------------------------------------- failed replays

  /** The replayed responses of an inbox. */
  ghost function ReplayedPart(inbox: seq<Message>): seq<Message> {
    if inbox == [] then []
    else
      var n := |inbox| - 1;
      ReplayedPart(inbox[..n]) + if inbox[n].origin.None? then [inbox[n]] else []
  }

  /** Nothing is left of the connection's replay. */
  ghost predicate ReplayIsOver(s: Sys, c: nat) {
    c < |s.links| && s.links[c].todo == {} && s.links[c].draft.None?
  }

  lemma OverStaysOver(s: Sys, a: Action, c: nat)
    requires |s.links| == |s.core.conns| && |s.stamps| == |s.core.updates| && ReplayIsOver(s, c)
    ensures ReplayIsOver(Step(s, a), c)
    ensures ReplayedPart(Step(s, a).links[c].inbox) == ReplayedPart(s.links[c].inbox)
  {
    if Enabled(s, a) && a.Deliver? && a.conn == c {
      var m := PushMessage(s.core.updates[a.update], s.stamps[a.update].value, a.update);
      assert (s.links[c].inbox + [m])[..|s.links[c].inbox|] == s.links[c].inbox;
    }
  }

  /** A failed send ends the replay: whatever happens afterwards, the connection receives none
      of the layers that were still to be replayed, except by pushes. */
  lemma {:induction false} FailedReplayStops(actions: seq<Action>, more: seq<Action>, c: nat)
    requires Enabled(Exec(actions), ReplaySend(c, false))
    ensures var before, s := Exec(actions), Exec(actions + [ReplaySend(c, false)] + more);
            && c < |before.links| && ReplayIsOver(s, c)
            && ReplayedPart(s.links[c].inbox) == ReplayedPart(before.links[c].inbox)
  {
    var failed := actions + [ReplaySend(c, false)];
    if more == [] {
      assert failed[..|actions|] == actions && failed + more == failed;
    } else {
      var rest := more[..|more| - 1];
      FailedReplayStops(actions, rest, c);
      assert (failed + more)[..|failed + more| - 1] == failed + rest;
      hide Step, Enabled, ReplayIsOver, ReplayedPart;
      OverStaysOver(Exec(failed + rest), more[|more| - 1], c);
    }
  }
}
