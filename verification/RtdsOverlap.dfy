/** Reconnects that reuse a node id, and pushes whose sends overlap. */
module RtdsOverlap {
  import opened Options
  import opened RtdsProtocol
  import opened RtdsDelivery

  // ---------------------------------------------------------------- reused node ids

  /** Every open connection is the one registered under its node id. */
  ghost predicate OpenIsRegistered(s: Sys)
    requires |s.links| == |s.core.conns|
  {
    forall c | 0 <= c < |s.links| && s.links[c].open :: ConnIsRegistered(s, c)
  }

  ghost predicate ConnIsRegistered(s: Sys, c: nat)
    requires c < |s.core.conns|
  {
    s.core.conns[c].node in s.core.streams && s.core.streams[s.core.conns[c].node] == c
  }

  /** The action is not the registration of a node id that an open connection holds. */
  ghost predicate FreshId(s: Sys, a: Action)
    requires |s.links| == |s.core.conns|
  {
    a.Register? ==> forall c | 0 <= c < |s.links| && s.links[c].open :: s.core.conns[c].node != a.node
  }

  ghost predicate NeverReusesId(actions: seq<Action>) {
    forall k | 0 <= k < |actions| :: FreshId(Exec(actions[..k]), actions[k])
  }

  ghost predicate AlwaysRegistered(actions: seq<Action>) {
    forall k | 0 <= k <= |actions| :: OpenIsRegistered(Exec(actions[..k]))
  }

  lemma FreshStep(s: Sys, a: Action)
    requires |s.links| == |s.core.conns| && |s.stamps| == |s.core.updates|
    requires OpenIsRegistered(s) && FreshId(s, a)
    ensures OpenIsRegistered(Step(s, a))
  {
    var t := Step(s, a);
    forall c | 0 <= c < |t.links| && t.links[c].open
      ensures ConnIsRegistered(t, c)
    {
      assert c < |s.links| ==> s.links[c].open && ConnIsRegistered(s, c);
    }
  }

  lemma ReusedStep(s: Sys, a: Action)
    requires |s.links| == |s.core.conns| && |s.stamps| == |s.core.updates|
    requires !FreshId(s, a)
    ensures !OpenIsRegistered(Step(s, a))
  {
    var t := Step(s, a);
    var c :| 0 <= c < |s.links| && s.links[c].open && s.core.conns[c].node == a.node;
    assert t.links[c] == s.links[c] && t.core.conns[c] == s.core.conns[c];
    assert t.core.streams[a.node] == |s.links| != c;
    assert !ConnIsRegistered(t, c);
  }

  lemma ExecStep(actions: seq<Action>, k: nat)
    requires k < |actions|
    ensures Exec(actions[..k + 1]) == Step(Exec(actions[..k]), actions[k])
  {
    assert actions[..k + 1][..k] == actions[..k];
  }

  lemma {:induction false} FreshPrefix(actions: seq<Action>, k: nat)
    requires NeverReusesId(actions) && k <= |actions|
    ensures OpenIsRegistered(Exec(actions[..k]))
  {
    if k == 0 {
    } else {
      FreshPrefix(actions, k - 1);
      ExecStep(actions, k - 1);
      FreshStep(Exec(actions[..k - 1]), actions[k - 1]);
    }
  }

  /** Throughout a run every open connection is registered, and so gets every update,
      exactly when no connection registers a node id that another one still holds. */
  lemma OpenStreamsStayRegisteredIffIdsAreFresh(actions: seq<Action>)
    ensures AlwaysRegistered(actions) <==> NeverReusesId(actions)
  {
    if NeverReusesId(actions) {
      forall k | 0 <= k <= |actions|
        ensures OpenIsRegistered(Exec(actions[..k]))
      {
        FreshPrefix(actions, k);
      }
    } else {
      var k :| 0 <= k < |actions| && !FreshId(Exec(actions[..k]), actions[k]);
      ReusedStep(Exec(actions[..k]), actions[k]);
      ExecStep(actions, k);
    }
  }

  lemma RegisterOn(s: Core, node: Node, links: seq<Link>, stamps: seq<Option<nat>>)
    requires |links| == |s.conns| && |stamps| == |s.updates|
    ensures Step(Sys(s, links, stamps), Register(node))
         == Sys(CoreRegister(s, node), links + [NewLink(s)], stamps)
  {
  }

  lemma CloseFirst(s: Core, l0: Link, l1: Link)
    requires |s.conns| == 2 && s.updates == [] && l0.open && l0.todo == {} && l0.draft.None?
    ensures Step(Sys(s, [l0, l1], []), Close(0))
         == Sys(CoreClose(s, s.conns[0].node), [l0.(open := false), l1], [])
  {
  }

  lemma BeginUnheard(s: Core, l0: Link, l1: Link, layer: Layer, values: Values)
    requires |s.conns| == 2 && s.updates == [] && s.streams == map[]
    ensures Step(Sys(s, [l0, l1], []), Begin(layer, values))
         == Sys(CoreBegin(s, layer, values), [l0, l1], [None])
    ensures CoreBegin(s, layer, values).updates == [Update(layer, values, {})]
  {
    assert s.streams.Values == {};
  }

  /** A proxy that reconnects before its old connection is closed is dropped by that
      close: it stays open, yet no later push captures it. */
  lemma QuickReconnectIsLost(node: Node, layer: Layer, values: Values)
    ensures var s := Exec([Register(node)] + [Register(node)] + [Close(0)] + [Begin(layer, values)]);
            |s.links| == 2 && s.links[1].open && node !in s.core.streams
            && s.core.updates == [Update(layer, values, {})] && s.links[1].pending == {}
  {
    hide Step;
    var a1 := [Register(node)];
    var a2 := a1 + [Register(node)];
    var a3 := a2 + [Close(0)];
    ExecAppend([], Register(node));
    assert [] + [Register(node)] == a1;
    ExecAppend(a1, Register(node));
    ExecAppend(a2, Close(0));
    ExecAppend(a3, Begin(layer, values));
    var c1 := CoreRegister(EMPTY_CORE, node);
    var c2 := CoreRegister(c1, node);
    var c3 := CoreClose(c2, node);
    var link, closed := NewLink(EMPTY_CORE), NewLink(EMPTY_CORE).(open := false);
    hide CoreRegister, CoreClose, CoreBegin;
    ReconnectCores(node);
    RegisterOn(EMPTY_CORE, node, [], []);
    assert [] + [link] == [link] && [link] + [link] == [link, link];
    RegisterOn(c1, node, [link], []);
    CloseFirst(c2, link, link);
    BeginUnheard(c3, closed, link, layer, values);
    assert CoreBegin(c3, layer, values).streams == map[] by {
      BeginKeepsStreams(c3, layer, values);
    }
  }

  lemma BeginKeepsStreams(s: Core, layer: Layer, values: Values)
    ensures CoreBegin(s, layer, values).streams == s.streams
  {
  }

  lemma ReconnectCores(node: Node)
    ensures var c1 := CoreRegister(EMPTY_CORE, node);
            var c2 := CoreRegister(c1, node);
            var c3 := CoreClose(c2, node);
            && |c1.conns| == 1 && c1.updates == [] && NewLink(c1) == NewLink(EMPTY_CORE)
            && |c2.conns| == 2 && c2.updates == [] && c2.conns[0].node == node
            && |c3.conns| == 2 && c3.updates == [] && c3.streams == map[]
  {
  }

  // ---------------------------------------------------------------- overlapping pushes

  lemma {:induction false} ExecAppend(actions: seq<Action>, a: Action)
    ensures Exec(actions + [a]) == Step(Exec(actions), a)
  {
    assert (actions + [a])[..|actions|] == actions;
  }

  /** `k` is the last message of the layer, and `i` is an earlier one of the newest
      update received for the layer, with other values. */
  ghost predicate OvertakenAt(inbox: seq<Message>, layer: Layer, i: nat, k: nat) {
    && i < k < |inbox| && inbox[i].layer == layer && inbox[k].layer == layer
    && (forall j | k < j < |inbox| :: inbox[j].layer != layer)
    && (forall j | 0 <= j < |inbox| && inbox[j].layer == layer :: Rank(inbox[j]) <= Rank(inbox[i]))
    && inbox[i].values != inbox[k].values
  }

  ghost predicate Overtaken(inbox: seq<Message>, layer: Layer) {
    exists i: nat, k: nat :: OvertakenAt(inbox, layer, i, k)
  }

  lemma StaleIsOvertaken(s: Core, c: nat, l: Link, layer: Layer, k: nat)
    requires CoreInv(s) && c < |s.conns| && Covered(s, c) && LinkInv(s.updates, s.conns[c], c, l)
    requires Quiet(l) && !l.failed && layer in s.current
    requires k < |l.inbox| && l.inbox[k].layer == layer && l.inbox[k].values != s.current[layer]
    requires forall j | k < j < |l.inbox| :: l.inbox[j].layer != layer
    ensures Overtaken(l.inbox, layer)
  {
    LatestWasReceived(s, c, l, layer);
    var u := Latest(s.updates, layer, |s.updates|);
    forall j | 0 <= j < |l.inbox| && l.inbox[j].layer == layer
      ensures Rank(l.inbox[j]) <= u.value && (u.value < s.conns[c].since ==> l.inbox[j].values == s.current[layer])
    {
      GenuineIsOld(s, c, l.inbox[j]);
    }
    hide CoreInv, Covered, LinkInv, Quiet, Latest;
    var i :| 0 <= i < |l.inbox| && l.inbox[i].layer == layer && l.inbox[i].values == s.current[layer]
             && l.inbox[i].origin == if s.conns[c].since <= u.value then u else None;
    assert OvertakenAt(l.inbox, layer, i, k);
  }

  lemma OvertakenIsStale(s: Core, c: nat, l: Link, layer: Layer, i: nat, k: nat)
    requires CoreInv(s) && c < |s.conns| && Covered(s, c) && LinkInv(s.updates, s.conns[c], c, l)
    requires Quiet(l) && !l.failed && OvertakenAt(l.inbox, layer, i, k)
    ensures layer in s.current && l.inbox[k].values != s.current[layer]
  {
    GenuineIsOld(s, c, l.inbox[i]);
    LatestWasReceived(s, c, l, layer);
    var u := Latest(s.updates, layer, |s.updates|);
    hide CoreInv, Covered, LinkInv, Quiet, Latest;
    var j :| 0 <= j < |l.inbox| && l.inbox[j].layer == layer && l.inbox[j].values == s.current[layer]
             && l.inbox[j].origin == if s.conns[c].since <= u.value then u else None;
    assert Rank(l.inbox[j]) <= Rank(l.inbox[i]) <= u.value;
  }

  lemma LayerIsCurrentIffNotOvertaken(s: Core, c: nat, l: Link, layer: Layer)
    requires CoreInv(s) && c < |s.conns| && Covered(s, c) && LinkInv(s.updates, s.conns[c], c, l)
    requires Quiet(l) && !l.failed
    ensures layer in View(l.inbox) <==> layer in s.current
    ensures layer in s.current ==> (View(l.inbox)[layer] == s.current[layer] <==> !Overtaken(l.inbox, layer))
    ensures layer !in s.current ==> !Overtaken(l.inbox, layer)
  {
    var k := ViewIsLast(l.inbox, layer);
    if k >= 0 {
      GenuineIsOld(s, c, l.inbox[k]);
    }
    if layer in s.current {
      LatestWasReceived(s, c, l, layer);
    }
    hide View, CoreInv, Covered, LinkInv, Quiet, OvertakenAt;
    if layer in s.current && View(l.inbox)[layer] != s.current[layer] {
      StaleIsOvertaken(s, c, l, layer, k);
    }
    if Overtaken(l.inbox, layer) {
      var i: nat, last: nat :| OvertakenAt(l.inbox, layer, i, last);
      OvertakenIsStale(s, c, l, layer, i, last);
      LastIsUnique(l.inbox, layer, i, last, k);
    }
  }

  lemma LastIsUnique(inbox: seq<Message>, layer: Layer, i: nat, last: nat, k: int)
    requires OvertakenAt(inbox, layer, i, last)
    requires -1 <= k < |inbox| && (k >= 0 ==> inbox[k].layer == layer)
    requires forall j | k < j < |inbox| :: inbox[j].layer != layer
    ensures k == last
  {
  }

  /** Whatever the interleaving, a quiet registered stream that lost no send holds
      exactly the current values if and only if in no layer the newest response was
      followed by an older one with other values. */
  lemma ViewIsCurrentIffNotOvertaken(actions: seq<Action>, node: Node)
    requires node in Exec(actions).core.streams
    ensures var s := Exec(actions);
            var c := s.core.streams[node];
            && c < |s.links|
            && (Quiet(s.links[c]) && !s.links[c].failed ==>
                  (View(s.links[c].inbox) == s.core.current
                   <==> forall layer :: !Overtaken(s.links[c].inbox, layer)))
  {
    CoreInvHolds(actions);
    LinksHold(actions);
    var s := Exec(actions);
    var c := s.core.streams[node];
    assert Covered(s.core, c) && LinkInv(s.core.updates, s.core.conns[c], c, s.links[c]);
    hide LinkInv, CoreInv, Covered, View, Overtaken, Quiet;
    if Quiet(s.links[c]) && !s.links[c].failed {
      forall layer: Layer
        ensures layer in View(s.links[c].inbox) <==> layer in s.core.current
        ensures layer in s.core.current ==>
                  (View(s.links[c].inbox)[layer] == s.core.current[layer] <==> !Overtaken(s.links[c].inbox, layer))
        ensures layer !in s.core.current ==> !Overtaken(s.links[c].inbox, layer)
      {
        LayerIsCurrentIffNotOvertaken(s.core, c, s.links[c], layer);
      }
    }
  }

  /** Two pushes of a layer to the one connected stream, with responses of version 2. */
  ghost function FirstPush(layer: Layer, v1: Values): Update {
    Update(layer, v1, {0})
  }

  ghost function OneStream(node: Node, current: map<Layer, Values>, updates: seq<Update>): Core {
    Core(map[node := 0], current, |updates|, [Conn(node, 0, map[])], updates)
  }

  ghost function OneLink(pending: set<nat>, inbox: seq<Message>): Link {
    Link({}, None, pending, inbox, true, false)
  }

  lemma OverlapRegister(node: Node)
    ensures Step(Sys(EMPTY_CORE, [], []), Register(node))
         == Sys(OneStream(node, map[], []), [OneLink({}, [])], [])
  {
    assert EMPTY_CORE.streams[node := 0] == map[node := 0];
    assert EMPTY_CORE.current.Keys == {};
  }

  lemma OverlapBegin(node: Node, current: map<Layer, Values>, updates: seq<Update>, pending: set<nat>,
                     stamps: seq<Option<nat>>, layer: Layer, values: Values)
    requires |stamps| == |updates|
    ensures Step(Sys(OneStream(node, current, updates), [OneLink(pending, [])], stamps), Begin(layer, values))
         == Sys(OneStream(node, current[layer := values], updates + [FirstPush(layer, values)]),
                [OneLink(pending + {|updates|}, [])], stamps + [None])
  {
    var m := map[node := 0];
    assert m[node] == 0 && 0 in m.Values;
    assert m.Values == {0};
  }

  lemma OverlapStamp(s: Core, links: seq<Link>, stamps: seq<Option<nat>>, u: nat)
    requires |links| == |s.conns| && |stamps| == |s.updates|
    requires u < |stamps| && stamps[u].None? && s.updates[u].targets == {0}
    ensures Step(Sys(s, links, stamps), Stamp(u)) == Sys(s, links, stamps[u := Some(s.version)])
  {
    assert 0 in s.updates[u].targets;
  }

  lemma OverlapDeliver(s: Core, pending: set<nat>, inbox: seq<Message>, stamps: seq<Option<nat>>, u: nat)
    requires |s.conns| == 1 && |stamps| == |s.updates|
    requires u < |stamps| && stamps[u].Some? && u in pending
    ensures Step(Sys(s, [OneLink(pending, inbox)], stamps), Deliver(u, 0, true))
         == Sys(s, [OneLink(pending - {u}, inbox + [PushMessage(s.updates[u], stamps[u].value, u)])], stamps)
  {
  }

  /** The run in which two pushes of a layer overlap and the later one is sent first. */
  ghost function Overtaking(node: Node, layer: Layer, v1: Values, v2: Values): seq<Action> {
    [Register(node)] + [Begin(layer, v1)] + [Begin(layer, v2)] + [Stamp(0)] + [Stamp(1)]
    + [Deliver(1, 0, true)] + [Deliver(0, 0, true)]
  }

  /** Where that run stands before the sends. */
  ghost function Stamped(node: Node, layer: Layer, v1: Values, v2: Values): Sys {
    Sys(OneStream(node, map[layer := v2], [FirstPush(layer, v1), FirstPush(layer, v2)]),
        [OneLink({0, 1}, [])], [Some(2), Some(2)])
  }

  lemma OvertakingBegins(node: Node, layer: Layer, v1: Values, v2: Values)
    ensures Exec([Register(node)] + [Begin(layer, v1)] + [Begin(layer, v2)])
         == Sys(OneStream(node, map[layer := v2], [FirstPush(layer, v1), FirstPush(layer, v2)]),
                [OneLink({0, 1}, [])], [None, None])
  {
    hide Step, OneStream, OneLink, FirstPush;
    var a1 := [Register(node)];
    ExecAppend([], Register(node));
    assert [] + [Register(node)] == a1;
    ExecAppend(a1, Begin(layer, v1));
    ExecAppend(a1 + [Begin(layer, v1)], Begin(layer, v2));
    OverlapRegister(node);
    var u1, u2 := FirstPush(layer, v1), FirstPush(layer, v2);
    OverlapBegin(node, map[], [], {}, [], layer, v1);
    assert [] + [u1] == [u1] && {} + {0} == {0} && map[][layer := v1] == map[layer := v1];
    var none: Option<nat> := None;
    assert [] + [none] == [none] && [none] + [none] == [none, none];
    OverlapBegin(node, map[layer := v1], [u1], {0}, [None], layer, v2);
    assert [u1] + [u2] == [u1, u2] && {0} + {1} == {0, 1};
    assert map[layer := v1][layer := v2] == map[layer := v2];
  }

  lemma OvertakingStamps(node: Node, layer: Layer, v1: Values, v2: Values)
    ensures Exec([Register(node)] + [Begin(layer, v1)] + [Begin(layer, v2)] + [Stamp(0)] + [Stamp(1)])
         == Stamped(node, layer, v1, v2)
  {
    OvertakingBegins(node, layer, v1, v2);
    var a3 := [Register(node)] + [Begin(layer, v1)] + [Begin(layer, v2)];
    ExecAppend(a3, Stamp(0));
    ExecAppend(a3 + [Stamp(0)], Stamp(1));
    hide Step, Exec;
    var s := Stamped(node, layer, v1, v2);
    OverlapStamp(s.core, s.links, [None, None], 0);
    OverlapStamp(s.core, s.links, [Some(2), None], 1);
    var none: Option<nat> := None;
    assert [none, none][0 := Some(2)] == [Some(2), none];
    assert [Some(2), None][1 := Some(2)] == [Some(2), Some(2)];
  }

  lemma OvertakingRun(node: Node, layer: Layer, v1: Values, v2: Values)
    ensures Exec(Overtaking(node, layer, v1, v2))
         == Sys(Stamped(node, layer, v1, v2).core,
                [OneLink({}, [Message(layer, v2, 2, Some(1)), Message(layer, v1, 2, Some(0))])], [Some(2), Some(2)])
  {
    OvertakingStamps(node, layer, v1, v2);
    var a5 := [Register(node)] + [Begin(layer, v1)] + [Begin(layer, v2)] + [Stamp(0)] + [Stamp(1)];
    ExecAppend(a5, Deliver(1, 0, true));
    ExecAppend(a5 + [Deliver(1, 0, true)], Deliver(0, 0, true));
    hide Step, Exec;
    var s := Stamped(node, layer, v1, v2);
    var m1, m2 := Message(layer, v1, 2, Some(0)), Message(layer, v2, 2, Some(1));
    OverlapDeliver(s.core, {0, 1}, [], s.stamps, 1);
    assert {0, 1} - {1} == {0} && [] + [m2] == [m2];
    OverlapDeliver(s.core, {0}, [m2], s.stamps, 0);
    assert {0} - {0} == {} && [m2] + [m1] == [m2, m1];
  }

  lemma ViewOfTwo(m: Message, n: Message)
    requires m.layer == n.layer
    ensures View([m, n]) == map[n.layer := n.values]
  {
    assert [m, n][..1] == [m] && [m][..0] == [];
    assert View([m]) == map[m.layer := m.values];
  }

  /** After overlapping pushes a healthy, quiet stream can be left with the older
      values; both responses even carry the same version. */
  lemma OvertakenPushLeavesStaleView(node: Node, layer: Layer, v1: Values, v2: Values)
    ensures var s := Exec(Overtaking(node, layer, v1, v2));
            && s.core.streams == map[node := 0] && s.core.current == map[layer := v2]
            && |s.links| == 1 && Quiet(s.links[0]) && !s.links[0].failed
            && s.links[0].inbox == [Message(layer, v2, 2, Some(1)), Message(layer, v1, 2, Some(0))]
            && View(s.links[0].inbox) == map[layer := v1]
  {
    OvertakingRun(node, layer, v1, v2);
    hide Exec, View;
    ViewOfTwo(Message(layer, v2, 2, Some(1)), Message(layer, v1, 2, Some(0)));
  }
}
