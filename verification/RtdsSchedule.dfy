/** Which schedules of pushes keep the streams current. A push of a layer is harmless when
    every response of that layer that is still in flight to a registered stream carries the
    same values; for example when there is none. This can be checked before the push. */
module RtdsSchedule {
  import opened Options
  import opened RtdsProtocol
  import opened RtdsDelivery
  import opened RtdsOverlap
  import opened RtdsSerial

  // ---------------------------------------------------------------- responses in flight

  ghost predicate PushesCarry(updates: seq<Update>, pending: set<nat>, layer: Layer, values: Values) {
    forall u | u in pending && u < |updates| && updates[u].layer == layer :: updates[u].values == values
  }

  ghost predicate PushInFlight(updates: seq<Update>, pending: set<nat>, layer: Layer) {
    exists u :: u in pending && u < |updates| && updates[u].layer == layer
  }

  /** Every response of the layer in flight to the connection carries these values. */
  ghost predicate AllCarry(updates: seq<Update>, conn: Conn, l: Link, layer: Layer, values: Values) {
    && PushesCarry(updates, l.pending, layer, values)
    && (layer in l.todo && layer in conn.snapshot ==> conn.snapshot[layer] == values)
    && (l.draft.Some? && l.draft.value.layer == layer ==> l.draft.value.values == values)
  }

  /** A response of the layer is in flight to the connection. */
  ghost predicate InFlight(updates: seq<Update>, l: Link, layer: Layer) {
    || PushInFlight(updates, l.pending, layer)
    || layer in l.todo
    || (l.draft.Some? && l.draft.value.layer == layer)
  }

  /** The connection has these values of the layer, or gets nothing else and at least that. */
  ghost predicate FreshAt(updates: seq<Update>, conn: Conn, l: Link, layer: Layer, values: Values) {
    && AllCarry(updates, conn, l, layer, values)
    && (InFlight(updates, l, layer) || (layer in View(l.inbox) && View(l.inbox)[layer] == values))
  }

  ghost predicate Fresh(updates: seq<Update>, current: map<Layer, Values>, conn: Conn, l: Link) {
    forall layer | layer in current :: FreshAt(updates, conn, l, layer, current[layer])
  }

  ghost predicate WellShaped(s: Sys) {
    |s.links| == |s.core.conns| && |s.stamps| == |s.core.updates|
  }

  ghost predicate FreshOrFailed(s: Sys, c: nat)
    requires WellShaped(s)
  {
    c < |s.links| && (s.links[c].failed || Fresh(s.core.updates, s.core.current, s.core.conns[c], s.links[c]))
  }

  /** Every registered stream without a lost send is fresh. */
  ghost predicate AllFresh(s: Sys)
    requires WellShaped(s)
  {
    forall n | n in s.core.streams :: FreshOrFailed(s, s.core.streams[n])
  }

  /** The push, if the action is one, overlaps no response of its layer with other values
      that is in flight to a registered stream without a lost send. */
  ghost predicate Harmless(s: Sys, a: Action)
    requires WellShaped(s)
  {
    a.Begin? ==> forall n | n in s.core.streams :: HarmlessFor(s, s.core.streams[n], a.layer, a.values)
  }

  ghost predicate HarmlessFor(s: Sys, c: nat, layer: Layer, values: Values)
    requires WellShaped(s)
  {
    c < |s.links| && (s.links[c].failed || AllCarry(s.core.updates, s.core.conns[c], s.links[c], layer, values))
  }

  ghost predicate IsSend(a: Action) {
    a.Stamp? || a.Deliver? || a.ReplayBuild? || a.ReplaySend?
  }

  ghost predicate AllSends(more: seq<Action>) {
    forall k | 0 <= k < |more| :: IsSend(more[k])
  }

  /** However the responses in flight are sent, once all have arrived at the connection it
      holds exactly the current values. */
  ghost predicate Recovers(actions: seq<Action>, c: nat) {
    forall more | AllSends(more) :: EndsCurrent(Exec(actions + more), c)
  }

  ghost predicate EndsCurrent(s: Sys, c: nat) {
    c < |s.links| && (Quiet(s.links[c]) && !s.links[c].failed ==> View(s.links[c].inbox) == s.core.current)
  }

  // ---------------------------------------------------------------- sends keep a stream fresh

  lemma ViewOfOne(inbox: seq<Message>, m: Message)
    ensures View(inbox + [m]) == View(inbox)[m.layer := m.values]
  {
    assert (inbox + [m])[..|inbox|] == inbox;
  }

  lemma BuildKeepsFreshAt(
    updates: seq<Update>, conn: Conn, l: Link, built: Layer, version: nat, layer: Layer, values: Values)
    requires l.draft.None? && built in l.todo && built in conn.snapshot && FreshAt(updates, conn, l, layer, values)
    ensures FreshAt(updates, conn, BuildReplay(l, conn.snapshot, built, version), layer, values)
  {
    hide View, PushesCarry, PushInFlight;
  }

  lemma ReplayKeepsFreshAt(updates: seq<Update>, conn: Conn, l: Link, layer: Layer, values: Values)
    requires l.draft.Some? && l.open && FreshAt(updates, conn, l, layer, values)
    ensures FreshAt(updates, conn, SendReplay(l, true), layer, values)
  {
    var m := l.draft.value;
    ViewOfOne(l.inbox, m);
    hide View, PushesCarry, PushInFlight;
    if m.layer == layer {
      assert View(l.inbox)[m.layer := m.values][layer] == values;
    } else {
      assert layer in View(l.inbox) ==> View(l.inbox)[m.layer := m.values][layer] == View(l.inbox)[layer];
    }
  }

  /** One pending push less. */
  lemma PushesWithout(updates: seq<Update>, pending: set<nat>, u: nat, layer: Layer, values: Values)
    requires u in pending && u < |updates| && PushesCarry(updates, pending, layer, values)
    ensures PushesCarry(updates, pending - {u}, layer, values)
    ensures updates[u].layer != layer ==>
              (PushInFlight(updates, pending - {u}, layer) <==> PushInFlight(updates, pending, layer))
    ensures updates[u].layer == layer ==> updates[u].values == values
  {
    if v :| v in pending && v < |updates| && updates[v].layer == layer && updates[u].layer != layer {
      assert v in pending - {u};
    }
  }

  lemma PushKeepsFreshAt(
    updates: seq<Update>, conn: Conn, l: Link, u: nat, version: nat, layer: Layer, values: Values)
    requires u in l.pending && u < |updates| && l.open && FreshAt(updates, conn, l, layer, values)
    ensures FreshAt(updates, conn, SendPush(l, PushMessage(updates[u], version, u), u, true), layer, values)
  {
    var m := PushMessage(updates[u], version, u);
    ViewOfOne(l.inbox, m);
    PushesWithout(updates, l.pending, u, layer, values);
    hide View, PushesCarry, PushInFlight;
    if m.layer == layer {
      assert View(l.inbox)[m.layer := m.values][layer] == values;
    } else {
      assert layer in View(l.inbox) ==> View(l.inbox)[m.layer := m.values][layer] == View(l.inbox)[layer];
    }
  }

  /** One send to the connection, or elsewhere. */
  lemma SendKeepsFresh(s: Sys, a: Action, c: nat)
    requires WellShaped(s) && IsSend(a) && FreshOrFailed(s, c)
    ensures Step(s, a).core == s.core && FreshOrFailed(Step(s, a), c)
  {
    var t := Step(s, a);
    if Enabled(s, a) && !t.links[c].failed {
      var conn, l := s.core.conns[c], s.links[c];
      hide AllCarry, InFlight, View;
      forall layer | layer in s.core.current
        ensures FreshAt(s.core.updates, conn, t.links[c], layer, s.core.current[layer])
      {
        assert !l.failed;
        match a
        case ReplayBuild(d, built) =>
          if d == c {
            hide FreshAt;
            BuildKeepsFreshAt(s.core.updates, conn, l, built, s.core.version, layer, s.core.current[layer]);
          }
        case ReplaySend(d, ok) =>
          if d == c {
            hide FreshAt;
            ReplayKeepsFreshAt(s.core.updates, conn, l, layer, s.core.current[layer]);
          }
        case Deliver(u, d, ok) =>
          if d == c {
            hide FreshAt;
            PushKeepsFreshAt(s.core.updates, conn, l, u, s.stamps[u].value, layer, s.core.current[layer]);
          }
        case Stamp(_) =>
      }
    }
  }

  lemma {:induction false} SendsKeepFresh(actions: seq<Action>, more: seq<Action>, c: nat)
    requires AllSends(more) && FreshOrFailed(Exec(actions), c)
    ensures Exec(actions + more).core == Exec(actions).core && FreshOrFailed(Exec(actions + more), c)
  {
    hide Step, FreshOrFailed, IsSend;
    if more == [] {
      assert actions + more == actions;
    } else {
      var n := |more| - 1;
      assert actions + more == actions + more[..n] + [more[n]];
      SendsKeepFresh(actions, more[..n], c);
      ExecAppend(actions + more[..n], more[n]);
      SendKeepsFresh(Exec(actions + more[..n]), more[n], c);
    }
  }

  // ---------------------------------------------------------------- a fresh stream recovers

  ghost predicate IsRegistered(s: Core, c: nat) {
    exists n | n in s.streams :: s.streams[n] == c
  }

  lemma RegisteredInv(actions: seq<Action>, c: nat)
    requires IsRegistered(Exec(actions).core, c)
    ensures var s := Exec(actions);
            && CoreInv(s.core) && c < |s.links| && Covered(s.core, c)
            && LinkInv(s.core.updates, s.core.conns[c], c, s.links[c])
  {
    CoreInvHolds(actions);
    LinksHold(actions);
    hide LinkInv, Exec;
    var n :| n in Exec(actions).core.streams && Exec(actions).core.streams[n] == c;
    assert Covered(Exec(actions).core, Exec(actions).core.streams[n]);
  }

  lemma QuietHasNothingInFlight(updates: seq<Update>, l: Link, layer: Layer)
    requires Quiet(l)
    ensures !InFlight(updates, l, layer)
  {
  }

  lemma FreshEndsCurrent(actions: seq<Action>, c: nat)
    requires IsRegistered(Exec(actions).core, c) && FreshOrFailed(Exec(actions), c)
    ensures EndsCurrent(Exec(actions), c)
  {
    RegisteredInv(actions, c);
    var s := Exec(actions);
    var l := s.links[c];
    hide Exec, CoreInv, Covered, LinkInv, View, InFlight, AllCarry;
    if Quiet(l) && !l.failed {
      forall layer: Layer
        ensures layer in View(l.inbox) <==> layer in s.core.current
        ensures layer in s.core.current ==> View(l.inbox)[layer] == s.core.current[layer]
      {
        LayerIsCurrentIffNotOvertaken(s.core, c, l, layer);
        QuietHasNothingInFlight(s.core.updates, l, layer);
        assert layer in s.core.current ==>
            FreshAt(s.core.updates, s.core.conns[c], l, layer, s.core.current[layer]);
      }
    }
  }

  lemma FreshRecovers(actions: seq<Action>, c: nat)
    requires IsRegistered(Exec(actions).core, c) && FreshOrFailed(Exec(actions), c)
    ensures Recovers(actions, c)
  {
    hide Exec, FreshOrFailed, EndsCurrent;
    forall more | AllSends(more)
      ensures EndsCurrent(Exec(actions + more), c)
    {
      SendsKeepFresh(actions, more, c);
      FreshEndsCurrent(actions + more, c);
    }
  }

  // ---------------------------------------------------------------- what is old can come last

  ghost predicate RegisteredAreOpen(s: Sys) {
    forall n | n in s.core.streams :: s.core.streams[n] < |s.links| && s.links[s.core.streams[n]].open
  }

  lemma StepKeepsOpen(s: Sys, a: Action)
    requires WellShaped(s) && CoreInv(s.core) && RegisteredAreOpen(s)
    ensures RegisteredAreOpen(Step(s, a))
  {
    var t := Step(s, a);
    assert forall n | n in s.core.streams :: s.core.conns[s.core.streams[n]].node == n;
    hide CoreInv, Enabled;
    if a.Close? && t != s {
      forall n | n in t.core.streams
        ensures t.core.streams[n] < |t.links| && t.links[t.core.streams[n]].open
      {
        assert n in s.core.streams && t.core.streams[n] == s.core.streams[n];
      }
    }
  }

  /** A registered connection is open. */
  lemma {:induction false} RegisteredIsOpen(actions: seq<Action>)
    ensures RegisteredAreOpen(Exec(actions))
  {
    if actions == [] {
    } else {
      var before := actions[..|actions| - 1];
      RegisteredIsOpen(before);
      CoreInvHolds(before);
      hide RegisteredAreOpen, CoreInv, Step;
      StepKeepsOpen(Exec(before), actions[|actions| - 1]);
    }
  }

  /** The same values of the layer, or none in both. */
  ghost predicate SameAt(v: map<Layer, Values>, w: map<Layer, Values>, layer: Layer) {
    (layer in v <==> layer in w) && (layer in v ==> v[layer] == w[layer])
  }

  /** The run went on from `s` to `t` with sends to connection `c` only. */
  ghost predicate Continues(s: Sys, t: Sys, c: nat)
    requires WellShaped(s) && WellShaped(t)
  {
    && t.core == s.core && c < |s.links|
    && t.links[c].open == s.links[c].open && t.links[c].failed == s.links[c].failed
  }

  lemma NoSends()
    ensures AllSends([])
  {
  }

  /** Two continuations, one after the other. */
  lemma Chain(actions: seq<Action>, first: seq<Action>, rest: seq<Action>, c: nat)
    requires AllSends(first) && AllSends(rest)
    requires Continues(Exec(actions), Exec(actions + first), c)
    requires Continues(Exec(actions + first), Exec(actions + first + rest), c)
    ensures AllSends(first + rest) && actions + (first + rest) == actions + first + rest
    ensures Continues(Exec(actions), Exec(actions + (first + rest)), c)
  {
    hide Exec, IsSend;
    assert actions + (first + rest) == actions + first + rest;
  }

  lemma StampKeeps(s: Sys, u: nat, c: nat)
    requires WellShaped(s) && c < |s.links| && u < |s.stamps| && s.core.updates[u].targets != {}
    ensures var t := Step(s, Stamp(u));
            t.core == s.core && t.links == s.links && t.stamps[u].Some?
  {
  }

  lemma DeliverSends(s: Sys, u: nat, c: nat)
    requires WellShaped(s) && c < |s.links| && u < |s.stamps| && s.stamps[u].Some?
    requires u in s.links[c].pending && s.links[c].open
    ensures var t := Step(s, Deliver(u, c, true));
            && Continues(s, t, c) && |t.links| == |s.links|
            && var m := PushMessage(s.core.updates[u], s.stamps[u].value, u);
            && t.links[c] == s.links[c].(pending := s.links[c].pending - {u}, inbox := s.links[c].inbox + [m])
  {
  }

  /** The link after update `u` was pushed. */
  ghost predicate Pushed(l: Link, t: Link, u: nat, layer: Layer, values: Values) {
    && t.pending == l.pending - {u} && t.todo == l.todo && t.draft == l.draft
    && View(t.inbox) == View(l.inbox)[layer := values]
  }

  /** Pushes update `u` to the connection. */
  lemma DeliverOne(actions: seq<Action>, c: nat, u: nat) returns (more: seq<Action>)
    requires c < |Exec(actions).links| && u in Exec(actions).links[c].pending && Exec(actions).links[c].open
    ensures AllSends(more)
    ensures var s, t := Exec(actions), Exec(actions + more);
            && Continues(s, t, c) && u < |s.core.updates|
            && Pushed(s.links[c], t.links[c], u, s.core.updates[u].layer, s.core.updates[u].values)
  {
    LinksHold(actions);
    more := [Stamp(u)] + [Deliver(u, c, true)];
    ExecAppend(actions, Stamp(u));
    ExecAppend(actions + [Stamp(u)], Deliver(u, c, true));
    assert actions + more == actions + [Stamp(u)] + [Deliver(u, c, true)];
    var s := Exec(actions);
    assert LinkInv(s.core.updates, s.core.conns[c], c, s.links[c]);
    assert Captured(s.core.updates, c, u);
    hide Exec, Step, View, LinkInv;
    StampKeeps(s, u, c);
    var m := Step(s, Stamp(u));
    DeliverSends(m, u, c);
    ViewOfOne(s.links[c].inbox, PushMessage(s.core.updates[u], m.stamps[u].value, u));
  }

  /** The link after all pending updates but `keep` were pushed. */
  ghost predicate Drained(updates: seq<Update>, l: Link, t: Link, keep: set<nat>, layer: Layer) {
    && t.pending == l.pending * keep && t.todo == l.todo && t.draft == l.draft
    && (!PushInFlight(updates, l.pending - keep, layer) ==> SameAt(View(l.inbox), View(t.inbox), layer))
  }

  lemma DrainedOneMore(updates: seq<Update>, l: Link, m: Link, t: Link, u: nat, keep: set<nat>, layer: Layer)
    requires u in l.pending - keep && u < |updates|
    requires Pushed(l, m, u, updates[u].layer, updates[u].values) && Drained(updates, m, t, keep, layer)
    ensures Drained(updates, l, t, keep, layer)
  {
    hide View;
    assert m.pending * keep == l.pending * keep;
    if !PushInFlight(updates, l.pending - keep, layer) {
      assert updates[u].layer != layer;
      assert forall v | v in m.pending - keep :: v in l.pending - keep;
      assert !PushInFlight(updates, m.pending - keep, layer);
    }
  }

  lemma NothingDrained(updates: seq<Update>, l: Link, keep: set<nat>, layer: Layer)
    requires l.pending - keep == {}
    ensures Drained(updates, l, l, keep, layer)
  {
    assert forall u | u in l.pending :: u in keep || u in l.pending - keep;
  }

  /** Pushes everything that is pending to the connection, except for `keep`. */
  lemma {:induction false} DrainPushes(actions: seq<Action>, c: nat, keep: set<nat>, layer: Layer)
    returns (more: seq<Action>)
    requires c < |Exec(actions).links| && Exec(actions).links[c].open
    ensures AllSends(more)
    ensures var s, t := Exec(actions), Exec(actions + more);
            Continues(s, t, c) && Drained(s.core.updates, s.links[c], t.links[c], keep, layer)
    decreases |Exec(actions).links[c].pending - keep|
  {
    var s := Exec(actions);
    hide Exec, Drained, AllSends;
    if s.links[c].pending - keep == {} {
      more := [];
      NoSends();
      assert actions + more == actions;
      NothingDrained(s.core.updates, s.links[c], keep, layer);
    } else {
      var u :| u in s.links[c].pending - keep;
      var first := DeliverOne(actions, c, u);
      var m := Exec(actions + first);
      assert m.links[c].pending - keep == s.links[c].pending - keep - {u};
      hide Pushed;
      var rest := DrainPushes(actions + first, c, keep, layer);
      more := first + rest;
      Chain(actions, first, rest, c);
      DrainedOneMore(s.core.updates, s.links[c], m.links[c], Exec(actions + more).links[c], u, keep, layer);
    }
  }

  lemma BuildStep(s: Sys, c: nat, layer: Layer)
    requires WellShaped(s) && c < |s.links| && s.links[c].draft.None?
    requires layer in s.links[c].todo && layer in s.core.conns[c].snapshot
    ensures var t := Step(s, ReplayBuild(c, layer));
            && Continues(s, t, c) && |t.links| == |s.links|
            && t.links[c] == BuildReplay(s.links[c], s.core.conns[c].snapshot, layer, s.core.version)
  {
  }

  lemma ReplayStep(s: Sys, c: nat)
    requires WellShaped(s) && c < |s.links| && s.links[c].draft.Some? && s.links[c].open
    ensures var t := Step(s, ReplaySend(c, true));
            && Continues(s, t, c) && |t.links| == |s.links|
            && t.links[c] == s.links[c].(draft := None, inbox := s.links[c].inbox + [s.links[c].draft.value])
  {
  }

  /** The replay of a layer is still to come. */
  ghost predicate ReplayInFlight(l: Link, layer: Layer) {
    layer in l.todo || (l.draft.Some? && l.draft.value.layer == layer)
  }

  /** The link after its replay was completed. */
  ghost predicate Replayed(conn: Conn, l: Link, t: Link, layer: Layer) {
    && t.pending == l.pending && t.todo == {} && t.draft.None?
    && (if ReplayInFlight(l, layer)
        then layer in conn.snapshot && layer in View(t.inbox) && View(t.inbox)[layer] == conn.snapshot[layer]
        else SameAt(View(l.inbox), View(t.inbox), layer))
  }

  /** What `InFlightOk` says about a replay. */
  ghost predicate ReplayOk(conn: Conn, l: Link) {
    && l.todo <= conn.snapshot.Keys
    && (l.draft.Some? ==>
          && l.draft.value.layer in conn.snapshot && l.draft.value.layer !in l.todo
          && l.draft.value.values == conn.snapshot[l.draft.value.layer])
  }

  lemma ReplayIsOk(actions: seq<Action>, c: nat)
    requires c < |Exec(actions).links|
    ensures ReplayOk(Exec(actions).core.conns[c], Exec(actions).links[c])
  {
    LinksHold(actions);
    hide Exec, PushesAccounted, ReplayAccounted, InboxOk;
    assert LinkInv(Exec(actions).core.updates, Exec(actions).core.conns[c], c, Exec(actions).links[c]);
  }

  lemma ReplayDraft(actions: seq<Action>, c: nat) returns (more: seq<Action>)
    requires c < |Exec(actions).links| && Exec(actions).links[c].open && Exec(actions).links[c].draft.Some?
    ensures AllSends(more)
    ensures var s, t := Exec(actions), Exec(actions + more);
            var m := s.links[c].draft.value;
            && Continues(s, t, c)
            && t.links[c].pending == s.links[c].pending && t.links[c].todo == s.links[c].todo && t.links[c].draft.None?
            && View(t.links[c].inbox) == View(s.links[c].inbox)[m.layer := m.values]
  {
    more := [ReplaySend(c, true)];
    ExecAppend(actions, ReplaySend(c, true));
    var s := Exec(actions);
    hide Exec, View, Step;
    ReplayStep(s, c);
    ViewOfOne(s.links[c].inbox, s.links[c].draft.value);
  }

  /** The link after the replay of one more layer. */
  ghost predicate ReplayedLayer(conn: Conn, l: Link, t: Link, built: Layer) {
    && t.pending == l.pending && t.todo == l.todo - {built} && t.draft.None?
    && built in conn.snapshot && View(t.inbox) == View(l.inbox)[built := conn.snapshot[built]]
  }

  /** Builds and sends the replay of one layer. */
  lemma ReplayOne(actions: seq<Action>, c: nat, built: Layer) returns (more: seq<Action>)
    requires c < |Exec(actions).links| && Exec(actions).links[c].open && Exec(actions).links[c].draft.None?
    requires built in Exec(actions).links[c].todo
    ensures AllSends(more)
    ensures var s, t := Exec(actions), Exec(actions + more);
            Continues(s, t, c) && ReplayedLayer(s.core.conns[c], s.links[c], t.links[c], built)
  {
    ReplayIsOk(actions, c);
    var first := [ReplayBuild(c, built)];
    ExecAppend(actions, ReplayBuild(c, built));
    var s := Exec(actions);
    hide Exec, Step, View;
    BuildStep(s, c, built);
    var second := ReplayDraft(actions + first, c);
    more := first + second;
    Chain(actions, first, second, c);
  }

  /** What replaying the layers in `todo` does to the view. */
  ghost predicate Completed(conn: Conn, l: Link, t: Link, layer: Layer) {
    && t.pending == l.pending && t.todo == {} && t.draft.None?
    && (if layer in l.todo
        then layer in conn.snapshot && layer in View(t.inbox) && View(t.inbox)[layer] == conn.snapshot[layer]
        else SameAt(View(l.inbox), View(t.inbox), layer))
  }

  lemma CompletedOneMore(conn: Conn, l: Link, m: Link, t: Link, built: Layer, layer: Layer)
    requires built in l.todo && ReplayedLayer(conn, l, m, built) && Completed(conn, m, t, layer)
    ensures Completed(conn, l, t, layer)
  {
    hide View;
  }

  lemma NothingToComplete(conn: Conn, l: Link, layer: Layer)
    requires l.todo == {} && l.draft.None?
    ensures Completed(conn, l, l, layer)
  {
    hide View;
  }

  /** Replays all layers in `todo`. */
  lemma {:induction false} DrainTodo(actions: seq<Action>, c: nat, layer: Layer) returns (more: seq<Action>)
    requires c < |Exec(actions).links| && Exec(actions).links[c].open && Exec(actions).links[c].draft.None?
    ensures AllSends(more)
    ensures var s, t := Exec(actions), Exec(actions + more);
            Continues(s, t, c) && Completed(s.core.conns[c], s.links[c], t.links[c], layer)
    decreases |Exec(actions).links[c].todo|
  {
    var s := Exec(actions);
    var l := s.links[c];
    hide Exec, Completed, AllSends;
    if l.todo == {} {
      more := [];
      NoSends();
      assert actions + more == actions;
      NothingToComplete(s.core.conns[c], l, layer);
    } else {
      var built :| built in l.todo;
      var first := ReplayOne(actions, c, built);
      var m := Exec(actions + first);
      assert m.links[c].todo == l.todo - {built} && m.links[c].draft.None?;
      hide ReplayedLayer;
      var rest := DrainTodo(actions + first, c, layer);
      more := first + rest;
      Chain(actions, first, rest, c);
      CompletedOneMore(s.core.conns[c], l, m.links[c], Exec(actions + more).links[c], built, layer);
    }
  }

  lemma DraftThenTodo(conn: Conn, l: Link, m: Link, t: Link, layer: Layer)
    requires ReplayOk(conn, l) && Completed(conn, m, t, layer)
    requires if l.draft.None? then m == l else
               && m.pending == l.pending && m.todo == l.todo
               && View(m.inbox) == View(l.inbox)[l.draft.value.layer := l.draft.value.values]
    ensures Replayed(conn, l, t, layer)
  {
    hide View;
  }

  /** Completes the connection's replay. */
  lemma DrainReplay(actions: seq<Action>, c: nat, layer: Layer) returns (more: seq<Action>)
    requires c < |Exec(actions).links| && Exec(actions).links[c].open
    ensures AllSends(more)
    ensures var s, t := Exec(actions), Exec(actions + more);
            Continues(s, t, c) && Replayed(s.core.conns[c], s.links[c], t.links[c], layer)
  {
    var s := Exec(actions);
    ReplayIsOk(actions, c);
    hide Exec, View, Replayed, ReplayOk, Completed, AllSends;
    if s.links[c].draft.Some? {
      var first := ReplayDraft(actions, c);
      var rest := DrainTodo(actions + first, c, layer);
      more := first + rest;
      Chain(actions, first, rest, c);
      DraftThenTodo(s.core.conns[c], s.links[c], Exec(actions + first).links[c], Exec(actions + more).links[c], layer);
    } else {
      more := DrainTodo(actions, c, layer);
      DraftThenTodo(s.core.conns[c], s.links[c], s.links[c], Exec(actions + more).links[c], layer);
    }
  }

  /** Some continuation delivers a pending update last. */
  lemma EndWithPush(actions: seq<Action>, c: nat, u: nat) returns (more: seq<Action>)
    requires c < |Exec(actions).links| && Exec(actions).links[c].open && u in Exec(actions).links[c].pending
    ensures AllSends(more)
    ensures var s, t := Exec(actions), Exec(actions + more);
            && Continues(s, t, c) && Quiet(t.links[c]) && u < |s.core.updates|
            && s.core.updates[u].layer in View(t.links[c].inbox)
            && View(t.links[c].inbox)[s.core.updates[u].layer] == s.core.updates[u].values
  {
    hide Exec, View, AllSends;
    var s := Exec(actions);
    var first := DrainPushes(actions, c, {u}, "");
    assert s.links[c].pending * {u} == {u};
    var second := DrainReplay(actions + first, c, "");
    Chain(actions, first, second, c);
    var third := DeliverOne(actions + (first + second), c, u);
    Chain(actions, first + second, third, c);
    more := first + second + third;
    assert {u} - {u} == {};
  }

  /** Some continuation delivers the replay last. */
  lemma EndWithReplay(actions: seq<Action>, c: nat, layer: Layer) returns (more: seq<Action>)
    requires c < |Exec(actions).links| && Exec(actions).links[c].open
    ensures AllSends(more)
    ensures var s, t := Exec(actions), Exec(actions + more);
            && Continues(s, t, c) && Quiet(t.links[c])
            && var conn, l, v := s.core.conns[c], s.links[c], View(t.links[c].inbox);
            && (ReplayInFlight(l, layer) ==> layer in conn.snapshot && layer in v && v[layer] == conn.snapshot[layer])
            && (!InFlight(s.core.updates, l, layer) ==> SameAt(View(l.inbox), v, layer))
  {
    hide Exec, View, AllSends, PushInFlight;
    var s := Exec(actions);
    var first := DrainPushes(actions, c, {}, layer);
    assert s.links[c].pending - {} == s.links[c].pending && s.links[c].pending * {} == {};
    var second := DrainReplay(actions + first, c, layer);
    Chain(actions, first, second, c);
    more := first + second;
  }

  /** A registered stream that is not fresh can be left without the current values. */
  lemma StaleEnding(actions: seq<Action>, c: nat, layer: Layer) returns (more: seq<Action>)
    requires IsRegistered(Exec(actions).core, c)
    requires var s := Exec(actions);
             && c < |s.links| && !s.links[c].failed && layer in s.core.current
             && !FreshAt(s.core.updates, s.core.conns[c], s.links[c], layer, s.core.current[layer])
    ensures AllSends(more) && !EndsCurrent(Exec(actions + more), c)
  {
    var s := Exec(actions);
    var n :| n in s.core.streams && s.core.streams[n] == c;
    RegisteredIsOpen(actions);
    ReplayIsOk(actions, c);
    hide Exec, View, Quiet, AllSends, IsRegistered;
    var updates, l, values := s.core.updates, s.links[c], s.core.current[layer];
    if !PushesCarry(updates, l.pending, layer, values) {
      var u :| u in l.pending && u < |updates| && updates[u].layer == layer && updates[u].values != values;
      more := EndWithPush(actions, c, u);
    } else {
      hide PushesCarry, PushInFlight;
      more := EndWithReplay(actions, c, layer);
    }
  }

  /** In any reachable state, a registered stream without a lost send recovers, however the
      responses in flight are sent, if and only if it is fresh. */
  lemma RecoversIffFresh(actions: seq<Action>, c: nat)
    requires IsRegistered(Exec(actions).core, c) && c < |Exec(actions).links| && !Exec(actions).links[c].failed
    ensures var s := Exec(actions);
            Recovers(actions, c) <==> Fresh(s.core.updates, s.core.current, s.core.conns[c], s.links[c])
  {
    var s := Exec(actions);
    hide Exec, FreshAt, EndsCurrent, AllSends, IsRegistered;
    if Fresh(s.core.updates, s.core.current, s.core.conns[c], s.links[c]) {
      FreshRecovers(actions, c);
    } else {
      var layer :| layer in s.core.current
                   && !FreshAt(s.core.updates, s.core.conns[c], s.links[c], layer, s.core.current[layer]);
      var more := StaleEnding(actions, c, layer);
      assert !Recovers(actions, c);
    }
  }

  // ---------------------------------------------------------------- schedules

  lemma PushesCarryWith(updates: seq<Update>, update: Update, pending: set<nat>, layer: Layer, values: Values)
    requires forall u | u in pending :: u < |updates|
    ensures var all := updates + [update];
            && (PushesCarry(all, pending + {|updates|}, layer, values)
                <==> && PushesCarry(updates, pending, layer, values)
                     && (update.layer == layer ==> update.values == values))
            && (PushInFlight(all, pending + {|updates|}, layer)
                <==> PushInFlight(updates, pending, layer) || update.layer == layer)
  {
    var all := updates + [update];
    assert all[|updates|] == update && |updates| in pending + {|updates|};
    forall u | u in pending
      ensures u in pending + {|updates|} && u < |updates| && all[u] == updates[u]
    {
    }
  }

  /** A push keeps a captured stream fresh exactly if it is harmless for it. */
  lemma BeginKeepsFreshIff(updates: seq<Update>, current: map<Layer, Values>, conn: Conn, l: Link, update: Update)
    requires Fresh(updates, current, conn, l) && forall u | u in l.pending :: u < |updates|
    ensures var l', next := l.(pending := l.pending + {|updates|}), current[update.layer := update.values];
            Fresh(updates + [update], next, conn, l') <==> AllCarry(updates, conn, l, update.layer, update.values)
  {
    var all, next := updates + [update], current[update.layer := update.values];
    var l' := l.(pending := l.pending + {|updates|});
    PushesCarryWith(updates, update, l.pending, update.layer, update.values);
    forall layer | layer in current && layer != update.layer
      ensures FreshAt(all, conn, l', layer, next[layer])
    {
      assert FreshAt(updates, conn, l, layer, current[layer]);
      PushesCarryWith(updates, update, l.pending, layer, current[layer]);
      hide View, PushesCarry, PushInFlight;
    }
    hide View, PushesCarry, PushInFlight;
    assert FreshAt(all, conn, l', update.layer, update.values)
      <==> AllCarry(updates, conn, l, update.layer, update.values);
    assert update.layer in next && next[update.layer] == update.values;
  }

  lemma NewStreamIsFresh(s: Core, node: Node)
    ensures Fresh(s.updates, s.current, Conn(node, |s.updates|, s.current), NewLink(s))
  {
  }

  /** A step of a run keeps all registered streams fresh exactly if it is harmless. */
  lemma StepKeepsFreshIff(actions: seq<Action>, a: Action)
    requires AllFresh(Exec(actions))
    ensures AllFresh(Exec(actions + [a])) <==> Harmless(Exec(actions), a)
  {
    ExecAppend(actions, a);
    CoreInvHolds(actions);
    LinksHold(actions);
    var s := Exec(actions);
    hide Exec, Fresh, AllCarry;
    match a
    case Register(node) => RegisterKeepsFresh(s, node);
    case Begin(layer, values) => BeginStepIff(s, layer, values);
    case Close(c) => CloseKeepsFresh(s, c);
    case _ =>
      forall n | n in s.core.streams
        ensures FreshOrFailed(Step(s, a), s.core.streams[n])
      {
        SendKeepsFresh(s, a, s.core.streams[n]);
      }
      SendKeepsCore(s, a);
  }

  lemma SendKeepsCore(s: Sys, a: Action)
    requires WellShaped(s) && IsSend(a)
    ensures Step(s, a).core == s.core
  {
  }

  lemma RegisterKeepsFresh(s: Sys, node: Node)
    requires WellShaped(s) && AllFresh(s)
    ensures AllFresh(Step(s, Register(node)))
  {
    var t := Step(s, Register(node));
    NewStreamIsFresh(s.core, node);
    hide Fresh;
    forall n | n in t.core.streams
      ensures FreshOrFailed(t, t.core.streams[n])
    {
      assert n != node ==> FreshOrFailed(s, s.core.streams[n]);
    }
  }

  lemma CloseKeepsFresh(s: Sys, c: nat)
    requires WellShaped(s) && CoreInv(s.core) && AllFresh(s)
    ensures AllFresh(Step(s, Close(c)))
  {
    var t := Step(s, Close(c));
    hide Fresh;
    if Enabled(s, Close(c)) {
      forall n | n in t.core.streams
        ensures FreshOrFailed(t, t.core.streams[n])
      {
        assert s.core.conns[s.core.streams[n]].node == n;
        assert FreshOrFailed(s, s.core.streams[n]);
      }
    }
  }

  lemma BeginStepIff(s: Sys, layer: Layer, values: Values)
    requires WellShaped(s) && CoreInv(s.core) && AllLinks(s) && AllFresh(s)
    ensures AllFresh(Step(s, Begin(layer, values))) <==> Harmless(s, Begin(layer, values))
  {
    var t := Step(s, Begin(layer, values));
    forall n | n in s.core.streams
      ensures FreshOrFailed(t, t.core.streams[n]) <==> HarmlessFor(s, s.core.streams[n], layer, values)
    {
      BeginOneIff(s, layer, values, n);
    }
    assert t.core.streams == s.core.streams;
    hide Step, FreshOrFailed, HarmlessFor;
  }

  lemma BeginOneIff(s: Sys, layer: Layer, values: Values, n: Node)
    requires WellShaped(s) && AllLinks(s) && AllFresh(s) && n in s.core.streams
    ensures var t := Step(s, Begin(layer, values));
            t.core.streams == s.core.streams
            && (FreshOrFailed(t, s.core.streams[n]) <==> HarmlessFor(s, s.core.streams[n], layer, values))
  {
    var t, c := Step(s, Begin(layer, values)), s.core.streams[n];
    var update := Update(layer, values, s.core.streams.Values);
    assert FreshOrFailed(s, c);
    assert LinkInv(s.core.updates, s.core.conns[c], c, s.links[c]);
    assert InFlightOk(s.core.updates, s.core.conns[c], c, s.links[c]);
    assert forall u | u in s.links[c].pending :: Captured(s.core.updates, c, u);
    assert c in s.core.streams.Values;
    assert t.links[c] == s.links[c].(pending := s.links[c].pending + {|s.core.updates|});
    hide LinkInv, Fresh, AllCarry;
    if !s.links[c].failed {
      BeginKeepsFreshIff(s.core.updates, s.core.current, s.core.conns[c], s.links[c], update);
    }
  }

  /** At every point of the run, every registered stream without a lost send recovers. */
  ghost predicate AlwaysRecovers(actions: seq<Action>) {
    forall k | 0 <= k <= |actions| :: AllRecover(actions[..k])
  }

  ghost predicate AllRecover(actions: seq<Action>) {
    forall n | n in Exec(actions).core.streams :: RecoversOrFailed(actions, Exec(actions).core.streams[n])
  }

  ghost predicate RecoversOrFailed(actions: seq<Action>, c: nat) {
    c < |Exec(actions).links| && (Exec(actions).links[c].failed || Recovers(actions, c))
  }

  /** Every push of the run is harmless when it starts. */
  ghost predicate AllHarmless(actions: seq<Action>) {
    forall k | 0 <= k < |actions| :: Harmless(Exec(actions[..k]), actions[k])
  }

  lemma AllRecoverIffAllFresh(actions: seq<Action>)
    ensures AllRecover(actions) <==> AllFresh(Exec(actions))
  {
    CoreInvHolds(actions);
    var s := Exec(actions);
    forall n | n in s.core.streams
      ensures RecoversOrFailed(actions, s.core.streams[n]) <==> FreshOrFailed(s, s.core.streams[n])
    {
      var c := s.core.streams[n];
      assert IsRegistered(s.core, c);
      hide Exec, Recovers, Fresh, IsRegistered;
      if !s.links[c].failed {
        RecoversIffFresh(actions, c);
      }
    }
    hide Exec, RecoversOrFailed, FreshOrFailed;
  }

  lemma {:induction false} HarmlessPrefixIsFresh(actions: seq<Action>, k: nat)
    requires AllHarmless(actions) && k <= |actions|
    ensures AllFresh(Exec(actions[..k]))
  {
    if k == 0 {
      assert actions[..0] == [];
    } else {
      HarmlessPrefixIsFresh(actions, k - 1);
      assert actions[..k] == actions[..k - 1] + [actions[k - 1]];
      hide AllFresh, Harmless, Exec;
      StepKeepsFreshIff(actions[..k - 1], actions[k - 1]);
    }
  }

  /** Throughout a run every registered stream without a lost send ends up with exactly the
      current values, however the sends in flight then are ordered, if and only if no push
      starts while a response of its layer with other values is in flight to such a stream.
      Pushes of different layers, and pushes to different streams, may overlap freely. */
  lemma StreamsRecoverIffPushesAreHarmless(actions: seq<Action>)
    ensures AlwaysRecovers(actions) <==> AllHarmless(actions)
  {
    hide Exec, Harmless, AllRecover, AllFresh;
    if AllHarmless(actions) {
      forall k | 0 <= k <= |actions|
        ensures AllRecover(actions[..k])
      {
        HarmlessPrefixIsFresh(actions, k);
        AllRecoverIffAllFresh(actions[..k]);
      }
    }
    if AlwaysRecovers(actions) {
      forall k | 0 <= k < |actions|
        ensures Harmless(Exec(actions[..k]), actions[k])
      {
        assert AllRecover(actions[..k]) && AllRecover(actions[..k + 1]);
        AllRecoverIffAllFresh(actions[..k]);
        AllRecoverIffAllFresh(actions[..k + 1]);
        assert actions[..k + 1] == actions[..k] + [actions[k]];
        StepKeepsFreshIff(actions[..k], actions[k]);
      }
    }
  }

  /** A run whose pushes are harmless leaves every quiet registered stream that lost no send
      with exactly the current values. */
  lemma HarmlessRunsAreCurrent(actions: seq<Action>, n: Node)
    requires AllHarmless(actions) && n in Exec(actions).core.streams
    ensures EndsCurrent(Exec(actions), Exec(actions).core.streams[n])
  {
    HarmlessPrefixIsFresh(actions, |actions|);
    assert actions[..|actions|] == actions;
    var c := Exec(actions).core.streams[n];
    assert IsRegistered(Exec(actions).core, c) && FreshOrFailed(Exec(actions), c);
    FreshEndsCurrent(actions, c);
  }

  /** From any reachable state, a push that overlaps a response of its layer with other
      values, in flight to a registered stream without a lost send, can leave that stream
      quiet, without a lost send, and with other values than the current ones. */
  lemma HarmfulPushCanLeaveStaleStream(actions: seq<Action>, n: Node, layer: Layer, values: Values)
    returns (more: seq<Action>)
    requires n in Exec(actions).core.streams
    requires !HarmlessFor(Exec(actions), Exec(actions).core.streams[n], layer, values)
    ensures AllSends(more)
    ensures var t := Exec(actions + [Begin(layer, values)] + more);
            && n in t.core.streams && t.core.streams[n] == Exec(actions).core.streams[n] < |t.links|
            && Quiet(t.links[t.core.streams[n]]) && !t.links[t.core.streams[n]].failed
            && View(t.links[t.core.streams[n]].inbox) != t.core.current
  {
    var s, begun := Exec(actions), actions + [Begin(layer, values)];
    var c := s.core.streams[n];
    CoreInvHolds(actions);
    LinksHold(actions);
    ExecAppend(actions, Begin(layer, values));
    var t := Exec(begun);
    hide Exec;
    assert s.core.streams[n] < |s.links| && LinkInv(s.core.updates, s.core.conns[c], c, s.links[c]);
    hide CoreInv, AllLinks, LinkInv, FreshAt, HarmlessFor, View, Quiet;
    BegunIsNotFresh(s, c, n, layer, values);
    assert IsRegistered(t.core, c);
    hide Step, IsRegistered, AllSends;
    more := StaleEnding(begun, c, layer);
    StaleKeepsCore(begun, more, c);
  }

  lemma BegunIsNotFresh(s: Sys, c: nat, n: Node, layer: Layer, values: Values)
    requires WellShaped(s) && n in s.core.streams && s.core.streams[n] == c < |s.links|
    requires LinkInv(s.core.updates, s.core.conns[c], c, s.links[c]) && !HarmlessFor(s, c, layer, values)
    ensures var t := Step(s, Begin(layer, values));
            && t.core.streams == s.core.streams && !t.links[c].failed && t.core.current[layer] == values
            && !FreshAt(t.core.updates, t.core.conns[c], t.links[c], layer, values)
  {
    var update := Update(layer, values, s.core.streams.Values);
    assert InFlightOk(s.core.updates, s.core.conns[c], c, s.links[c]);
    assert forall u | u in s.links[c].pending :: Captured(s.core.updates, c, u);
    assert c in s.core.streams.Values;
    PushesCarryWith(s.core.updates, update, s.links[c].pending, layer, values);
    hide LinkInv, InFlightOk, View, PushesCarry, PushInFlight, InFlight;
  }

  lemma {:induction false} StaleKeepsCore(actions: seq<Action>, more: seq<Action>, c: nat)
    requires AllSends(more)
    ensures Exec(actions + more).core == Exec(actions).core
  {
    hide Step, IsSend, Exec;
    if more == [] {
      assert actions + more == actions;
    } else {
      var k := |more| - 1;
      assert actions + more == actions + more[..k] + [more[k]];
      StaleKeepsCore(actions, more[..k], c);
      ExecAppend(actions + more[..k], more[k]);
      SendKeepsCore(Exec(actions + more[..k]), more[k]);
    }
  }

  /** Runs in which connects and pushes complete one at a time are harmless. */
  lemma SerialisedIsHarmless(actions: seq<Action>)
    requires Serialised(actions)
    ensures AllHarmless(actions)
  {
    forall k | 0 <= k < |actions|
      ensures Harmless(Exec(actions[..k]), actions[k])
    {
      CoreInvHolds(actions[..k]);
      var s := Exec(actions[..k]);
      hide Exec;
      if actions[k].Begin? {
        assert Settled(s);
        forall n | n in s.core.streams
          ensures HarmlessFor(s, s.core.streams[n], actions[k].layer, actions[k].values)
        {
          assert Quiet(s.links[s.core.streams[n]]);
        }
      }
    }
  }
}
