/** Serialised runs of the RTDS server: connects and pushes complete one at a time. */
module RtdsSerial {
  import opened RtdsProtocol
  import opened RtdsDelivery

  // ---------------------------------------------------------------- serialised runs

  /** Nothing is in flight to any connection. */
  ghost predicate Settled(s: Sys) {
    forall c | 0 <= c < |s.links| :: Quiet(s.links[c])
  }

  /** Connects and pushes start only when the previous one has completed. */
  ghost predicate Serialised(actions: seq<Action>) {
    forall k | 0 <= k < |actions| && (actions[k].Register? || actions[k].Begin?) :: Settled(Exec(actions[..k]))
  }

  /** A message carries the number of pushes made by the time it was built. */
  ghost predicate VersionOk(conn: Conn, m: Message) {
    m.version == match m.origin case None => conn.since case Some(u) => u + 1
  }

  ghost predicate SerialLink(updates: seq<Update>, conn: Conn, l: Link) {
    && (forall u | u in l.pending :: u + 1 == |updates|)
    && (l.todo != {} || l.draft.Some? ==> conn.since == |updates|)
    && InOrder(l.inbox)
    && (forall i | 0 <= i < |l.inbox| :: VersionOk(conn, l.inbox[i]))
    && (l.draft.Some? ==> VersionOk(conn, l.draft.value))
  }

  ghost predicate SerialInv(s: Sys) {
    && |s.links| == |s.core.conns|
    && (forall c | 0 <= c < |s.links| :: SerialLink(s.core.updates, s.core.conns[c], s.links[c]))
    && StampsOk(s)
  }

  /** A push is stamped with its own number, and only the last one can be unstamped
      while streams wait for it. */
  ghost predicate StampsOk(s: Sys) {
    && |s.stamps| == |s.core.updates|
    && (forall u | 0 <= u < |s.stamps| && s.stamps[u].Some? :: s.stamps[u].value == u + 1)
    && (forall u | 0 <= u < |s.stamps| - 1 && s.stamps[u].None? :: s.core.updates[u].targets == {})
    && (forall u | 0 <= u < |s.stamps| && s.stamps[u].None? :: AllWait(s, u))
  }

  /** Every stream that the update captured still waits for it. */
  ghost predicate AllWait(s: Sys, u: nat)
    requires u < |s.core.updates|
  {
    forall c | c in s.core.updates[u].targets :: c < |s.links| && u in s.links[c].pending
  }

  lemma AppendInOrder(inbox: seq<Message>, m: Message)
    requires InOrder(inbox) && forall i | 0 <= i < |inbox| :: Rank(inbox[i]) <= Rank(m)
    ensures InOrder(inbox + [m])
  {
  }

  /** A connection that is still being replayed has received no push. */
  lemma ReplayComesFirst(s: Core, c: nat, l: Link, i: nat)
    requires CoreInv(s) && c < |s.conns| && LinkInv(s.updates, s.conns[c], c, l)
    requires s.conns[c].since == |s.updates| && i < |l.inbox|
    ensures l.inbox[i].origin.None?
  {
    hide PushesAccounted, ReplayAccounted, InFlightOk, CurrentAt;
    forall u | 0 <= u < |s.updates|
      ensures !Captured(s.updates, c, u)
    {
      assert TargetsInv(s, u);
    }
    assert Genuine(s.updates, s.conns[c], c, l.inbox[i]);
  }

  lemma SerialReplay(s: Core, c: nat, l: Link, ok: bool)
    requires CoreInv(s) && c < |s.conns| && LinkInv(s.updates, s.conns[c], c, l)
    requires SerialLink(s.updates, s.conns[c], l) && l.draft.Some?
    ensures SerialLink(s.updates, s.conns[c], SendReplay(l, ok))
  {
    if ok && l.open {
      var m := l.draft.value;
      assert m.origin.None?;
      hide LinkInv, CoreInv;
      forall i | 0 <= i < |l.inbox|
        ensures Rank(l.inbox[i]) <= Rank(m)
      {
        ReplayComesFirst(s, c, l, i);
      }
      AppendInOrder(l.inbox, m);
    }
  }

  lemma SerialPush(s: Core, c: nat, l: Link, u: nat, ok: bool)
    requires CoreInv(s) && c < |s.conns| && LinkInv(s.updates, s.conns[c], c, l)
    requires SerialLink(s.updates, s.conns[c], l) && u in l.pending && u < |s.updates|
    ensures SerialLink(s.updates, s.conns[c], SendPush(l, PushMessage(s.updates[u], u + 1, u), u, ok))
  {
    if ok && l.open {
      var m := PushMessage(s.updates[u], u + 1, u);
      forall i | 0 <= i < |l.inbox|
        ensures Rank(l.inbox[i]) <= Rank(m)
      {
        assert Genuine(s.updates, s.conns[c], c, l.inbox[i]);
      }
      AppendInOrder(l.inbox, m);
    }
  }

  lemma SerialRegister(s: Sys, node: Node)
    requires |s.links| == |s.core.conns| && |s.stamps| == |s.core.updates| && SerialInv(s)
    ensures SerialInv(Step(s, Register(node)))
  {
    hide InOrder;
    var t := Step(s, Register(node));
    forall c | 0 <= c < |t.links|
      ensures SerialLink(t.core.updates, t.core.conns[c], t.links[c])
    {
      if c < |s.links| {
        assert SerialLink(s.core.updates, s.core.conns[c], s.links[c]);
      } else {
        EmptyInOrder();
      }
    }
    hide SerialLink;
    forall u | 0 <= u < |t.stamps| && t.stamps[u].None?
      ensures AllWait(t, u)
    {
      assert AllWait(s, u);
    }
  }

  lemma EmptyInOrder()
    ensures InOrder([])
  {
  }

  lemma SerialBegin(s: Sys, layer: Layer, values: Values)
    requires |s.links| == |s.core.conns| && |s.stamps| == |s.core.updates|
    requires CoreInv(s.core) && SerialInv(s) && Settled(s)
    ensures SerialInv(Step(s, Begin(layer, values)))
  {
    hide InOrder, CurrentAt;
    var t := Step(s, Begin(layer, values));
    forall c | 0 <= c < |t.links|
      ensures SerialLink(t.core.updates, t.core.conns[c], t.links[c])
    {
      assert SerialLink(s.core.updates, s.core.conns[c], s.links[c]) && Quiet(s.links[c]);
    }
    forall u | 0 <= u < |t.stamps| && t.stamps[u].None?
      ensures AllWait(t, u)
    {
      if u < |s.stamps| {
        assert AllWait(s, u);
      } else {
        assert forall n | n in s.core.streams :: s.core.streams[n] < |s.links|;
      }
    }
    forall u | 0 <= u < |t.stamps| - 1 && t.stamps[u].None?
      ensures t.core.updates[u].targets == {}
    {
      assert u < |s.stamps| && s.stamps[u].None? && AllWait(s, u);
      assert forall c | 0 <= c < |s.links| :: Quiet(s.links[c]);
    }
  }

  /** A response is stamped while its push is the last one. */
  lemma SerialStamp(s: Sys, u: nat)
    requires |s.links| == |s.core.conns| && |s.stamps| == |s.core.updates| && SerialInv(s)
    requires CoreInv(s.core) && Enabled(s, Stamp(u))
    ensures SerialInv(Step(s, Stamp(u)))
  {
    hide SerialLink, CurrentAt;
    var t := Step(s, Stamp(u));
    assert s.core.version == |s.core.updates| == u + 1;
    forall v | 0 <= v < |t.stamps| && t.stamps[v].None?
      ensures AllWait(t, v)
    {
      assert s.stamps[v].None? && AllWait(s, v);
    }
  }

  /** A step that changes one link, and no pending update without a stamp. */
  lemma SerialOneLink(s: Sys, c: nat, l: Link)
    requires |s.links| == |s.core.conns| && SerialInv(s) && c < |s.links|
    requires SerialLink(s.core.updates, s.core.conns[c], l)
    requires forall u | 0 <= u < |s.stamps| && s.stamps[u].None? && u in s.links[c].pending :: u in l.pending
    ensures SerialInv(s.(links := s.links[c := l]))
  {
    hide SerialLink;
    var t := s.(links := s.links[c := l]);
    forall u | 0 <= u < |t.stamps| && t.stamps[u].None?
      ensures AllWait(t, u)
    {
      assert AllWait(s, u);
    }
  }

  /** One step of a serialised run. */
  lemma SerialStep(s: Sys, a: Action)
    requires |s.links| == |s.core.conns| && |s.stamps| == |s.core.updates|
    requires CoreInv(s.core) && AllLinks(s) && SerialInv(s)
    requires a.Register? || a.Begin? ==> Settled(s)
    ensures SerialInv(Step(s, a))
  {
    if Enabled(s, a) {
      hide LinkInv, CoreInv, StampsOk, InOrder, Settled, Quiet, SerialLink;
      match a
      case Register(node) => SerialRegister(s, node);
      case Begin(layer, values) => SerialBegin(s, layer, values);
      case Stamp(u) => SerialStamp(s, u);
      case ReplayBuild(c, layer) =>
        assert SerialLink(s.core.updates, s.core.conns[c], s.links[c]);
        BuildIsVersioned(s, c, layer);
        SerialOneLink(s, c, BuildReplay(s.links[c], s.core.conns[c].snapshot, layer, s.core.version));
      case ReplaySend(c, ok) =>
        SerialReplay(s.core, c, s.links[c], ok);
        SerialOneLink(s, c, SendReplay(s.links[c], ok));
      case Deliver(u, c, ok) =>
        assert s.stamps[u].value == u + 1 by {
          StampIsNumber(s, u);
        }
        SerialPush(s.core, c, s.links[c], u, ok);
        SerialOneLink(s, c, SendPush(s.links[c], PushMessage(s.core.updates[u], u + 1, u), u, ok));
      case Close(c) =>
        assert SerialLink(s.core.updates, s.core.conns[c], s.links[c].(open := false)) by {
          CloseIsSerial(s.core.updates, s.core.conns[c], s.links[c]);
        }
        SerialOneLink(s, c, s.links[c].(open := false));
        SerialClose(s.(links := s.links[c := s.links[c].(open := false)]), s.core.conns[c].node);
    }
  }

  lemma SerialClose(s: Sys, node: Node)
    requires SerialInv(s)
    ensures SerialInv(s.(core := CoreClose(s.core, node)))
  {
    hide SerialLink;
    var t := s.(core := CoreClose(s.core, node));
    forall u | 0 <= u < |t.stamps| && t.stamps[u].None?
      ensures AllWait(t, u)
    {
      assert AllWait(s, u);
    }
  }

  lemma CloseIsSerial(updates: seq<Update>, conn: Conn, l: Link)
    requires SerialLink(updates, conn, l)
    ensures SerialLink(updates, conn, l.(open := false))
  {
  }

  lemma StampIsNumber(s: Sys, u: nat)
    requires StampsOk(s) && u < |s.stamps| && s.stamps[u].Some?
    ensures s.stamps[u].value == u + 1
  {
  }

  lemma BuildIsVersioned(s: Sys, c: nat, layer: Layer)
    requires |s.links| == |s.core.conns| && CoreInv(s.core) && c < |s.links|
    requires SerialLink(s.core.updates, s.core.conns[c], s.links[c])
    requires layer in s.links[c].todo && layer in s.core.conns[c].snapshot
    ensures SerialLink(s.core.updates, s.core.conns[c],
                       BuildReplay(s.links[c], s.core.conns[c].snapshot, layer, s.core.version))
  {
    hide InOrder, CurrentAt;
  }

  lemma {:induction false} SerialInvHolds(actions: seq<Action>)
    requires Serialised(actions)
    ensures SerialInv(Exec(actions))
  {
    if actions == [] {
    } else {
      hide CoreInv, AllLinks, SerialInv, Settled;
      var before, a := actions[..|actions| - 1], actions[|actions| - 1];
      assert Serialised(before) by {
        assert forall k | 0 <= k < |before| :: actions[..k] == before[..k];
      }
      SerialInvHolds(before);
      LinksHold(before);
      CoreInvHolds(before);
      SerialStep(Exec(before), a);
    }
  }

  /** In a serialised run every registered stream that lost no send holds exactly the
      current values whenever nothing is in flight, so a late joiner agrees with a
      stream that was connected from the start. */
  lemma SerialisedViewIsCurrent(actions: seq<Action>, node: Node)
    requires Serialised(actions) && Settled(Exec(actions)) && node in Exec(actions).core.streams
    ensures var s := Exec(actions);
            var c := s.core.streams[node];
            c < |s.links| && (!s.links[c].failed ==> View(s.links[c].inbox) == s.core.current)
  {
    SerialInvHolds(actions);
    OrderedViewIsCurrent(actions, node);
    var s := Exec(actions);
    var c := s.core.streams[node];
    hide Serialised, View;
    assert SerialLink(s.core.updates, s.core.conns[c], s.links[c]) && Quiet(s.links[c]);
  }

  /** In a serialised run every response carries the number of pushes made so far:
      a push its own number, a replay the number of pushes before the registration. */
  lemma SerialisedVersionsCountPushes(actions: seq<Action>, c: nat, i: nat)
    requires Serialised(actions) && c < |Exec(actions).links| && i < |Exec(actions).links[c].inbox|
    ensures VersionOk(Exec(actions).core.conns[c], Exec(actions).links[c].inbox[i])
  {
    SerialInvHolds(actions);
    hide Serialised, InOrder;
    assert SerialLink(Exec(actions).core.updates, Exec(actions).core.conns[c], Exec(actions).links[c]);
  }
}
