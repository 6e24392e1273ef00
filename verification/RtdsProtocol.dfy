/** The RTDS server as a transition system (internal/rtds/client.go:181-376). The
    steps are the regions that run under the server's lock, the building of
    responses (which locks again to read the version) and the individual sends,
    in every interleaving. */
module RtdsProtocol {
  import opened Options

  type Layer = string
  type Values = map<string, string>
  type Node = string

  /** One call of PushLayer: the value it stored and the streams it captured. */
  datatype Update = Update(layer: Layer, values: Values, targets: set<nat>)

  /** One connection: its node id, how many updates preceded its registration, and
      the snapshot that the registration took. */
  datatype Conn = Conn(node: Node, since: nat, snapshot: map<Layer, Values>)

  /** The state guarded by the lock, with a log of all connections and updates. */
  datatype Core = Core(
    streams: map<Node, nat>, current: map<Layer, Values>, version: nat, conns: seq<Conn>, updates: seq<Update>)

  /** A response and, as bookkeeping, the update it came from (None: the replay). */
  datatype Message = Message(layer: Layer, values: Values, version: nat, origin: Option<nat>)

  /** The unguarded part of a connection: the layers its replay has yet to build, the
      replay response being sent, the updates that captured it and have yet to be
      sent to it, and what it received. `failed` records a lost send. */
  datatype Link = Link(
    todo: set<Layer>, draft: Option<Message>, pending: set<nat>, inbox: seq<Message>, open: bool, failed: bool)

  /** `stamps[u]` is the version in the response of update `u` once that is built. */
  datatype Sys = Sys(core: Core, links: seq<Link>, stamps: seq<Option<nat>>)

  datatype Action =
    | Register(node: Node)
    | ReplayBuild(conn: nat, layer: Layer)
    | ReplaySend(conn: nat, ok: bool)
    | Begin(layer: Layer, values: Values)
    | Stamp(update: nat)
    | Deliver(update: nat, conn: nat, ok: bool)
    | Close(conn: nat)

  // ---------------------------------------------------------------- the locked regions

  const EMPTY_CORE := Core(map[], map[], 0, [], [])

  function CoreRegister(s: Core, node: Node): Core {
    s.(streams := s.streams[node := |s.conns|], conns := s.conns + [Conn(node, |s.updates|, s.current)])
  }

  function CoreBegin(s: Core, layer: Layer, values: Values): Core {
    s.(current := s.current[layer := values], version := s.version + 1,
       updates := s.updates + [Update(layer, values, s.streams.Values)])
  }

  function CoreClose(s: Core, node: Node): Core {
    s.(streams := s.streams - {node})
  }

  // ---------------------------------------------------------------- steps

  function NewLink(s: Core): Link {
    Link(s.current.Keys, None, {}, [], true, false)
  }

  function BuildReplay(l: Link, snapshot: map<Layer, Values>, layer: Layer, version: nat): Link
    requires layer in snapshot
  {
    l.(todo := l.todo - {layer}, draft := Some(Message(layer, snapshot[layer], version, None)))
  }

  /** A failed send ends the replay. */
  function SendReplay(l: Link, ok: bool): Link
    requires l.draft.Some?
  {
    if ok && l.open then l.(draft := None, inbox := l.inbox + [l.draft.value])
    else l.(todo := {}, draft := None, failed := true)
  }

  function Capture(l: Link, captured: bool, u: nat): Link {
    if captured then l.(pending := l.pending + {u}) else l
  }

  function SendPush(l: Link, m: Message, u: nat, ok: bool): Link {
    if ok && l.open then l.(pending := l.pending - {u}, inbox := l.inbox + [m])
    else l.(pending := l.pending - {u}, failed := true)
  }

  function PushMessage(u: Update, version: nat, i: nat): Message {
    Message(u.layer, u.values, version, Some(i))
  }

  /** The action can happen in this state. */
  ghost predicate Enabled(s: Sys, a: Action)
    requires |s.links| == |s.core.conns| && |s.stamps| == |s.core.updates|
  {
    match a
    case Register(_) => true
    case ReplayBuild(c, layer) =>
      c < |s.links| && s.links[c].draft.None? && layer in s.links[c].todo && layer in s.core.conns[c].snapshot
    case ReplaySend(c, _) => c < |s.links| && s.links[c].draft.Some?
    case Begin(_, _) => true
    case Stamp(u) => u < |s.stamps| && s.stamps[u].None? && s.core.updates[u].targets != {}
    case Deliver(u, c, _) => u < |s.stamps| && s.stamps[u].Some? && c < |s.links| && u in s.links[c].pending
    case Close(c) => c < |s.links| && s.links[c].open && s.links[c].todo == {} && s.links[c].draft.None?
  }

  /** One atomic step. An action that cannot happen changes nothing. */
  ghost function Step(s: Sys, a: Action): (t: Sys)
    requires |s.links| == |s.core.conns| && |s.stamps| == |s.core.updates|
    ensures |t.links| == |t.core.conns| && |t.stamps| == |t.core.updates|
  {
    if !Enabled(s, a) then s
    else
      match a
      case Register(node) => s.(core := CoreRegister(s.core, node), links := s.links + [NewLink(s.core)])
      case ReplayBuild(c, layer) =>
        s.(links := s.links[c := BuildReplay(s.links[c], s.core.conns[c].snapshot, layer, s.core.version)])
      case ReplaySend(c, ok) => s.(links := s.links[c := SendReplay(s.links[c], ok)])
      case Begin(layer, values) =>
        s.(core := CoreBegin(s.core, layer, values), stamps := s.stamps + [None],
           links := seq(|s.links|, c requires 0 <= c < |s.links| =>
                          Capture(s.links[c], c in s.core.streams.Values, |s.core.updates|)))
      case Stamp(u) => s.(stamps := s.stamps[u := Some(s.core.version)])
      case Deliver(u, c, ok) =>
        s.(links := s.links[c := SendPush(s.links[c], PushMessage(s.core.updates[u], s.stamps[u].value, u), u, ok)])
      case Close(c) =>
        s.(core := CoreClose(s.core, s.core.conns[c].node), links := s.links[c := s.links[c].(open := false)])
  }

  ghost function Exec(actions: seq<Action>): (s: Sys)
    ensures |s.links| == |s.core.conns| && |s.stamps| == |s.core.updates|
  {
    if actions == [] then Sys(EMPTY_CORE, [], [])
    else Step(Exec(actions[..|actions| - 1]), actions[|actions| - 1])
  }

  // ---------------------------------------------------------------- no lost update

  /** The current values after the first `k` updates. */
  ghost function CurrentAt(updates: seq<Update>, k: nat): map<Layer, Values>
    requires k <= |updates|
  {
    if k == 0 then map[] else CurrentAt(updates, k - 1)[updates[k - 1].layer := updates[k - 1].values]
  }

  /** The last of the first `k` updates that concerns this layer. */
  ghost function Latest(updates: seq<Update>, layer: Layer, k: nat): (u: Option<nat>)
    requires k <= |updates|
    ensures u.Some? ==> u.value < k && updates[u.value].layer == layer
  {
    if k == 0 then None
    else if updates[k - 1].layer == layer then Some(k - 1)
    else Latest(updates, layer, k - 1)
  }

  ghost predicate CoreInv(s: Core) {
    && s.version == |s.updates|
    && s.current == CurrentAt(s.updates, |s.updates|)
    && (forall n | n in s.streams :: s.streams[n] < |s.conns| && s.conns[s.streams[n]].node == n)
    && (forall c | 0 <= c < |s.conns| :: ConnInv(s, c))
    && (forall u | 0 <= u < |s.updates| :: TargetsInv(s, u))
    && (forall n | n in s.streams :: Covered(s, s.streams[n]))
  }

  ghost predicate ConnInv(s: Core, c: nat)
    requires c < |s.conns|
  {
    s.conns[c].since <= |s.updates| && s.conns[c].snapshot == CurrentAt(s.updates, s.conns[c].since)
  }

  ghost predicate TargetsInv(s: Core, u: nat)
    requires u < |s.updates|
  {
    forall c | c in s.updates[u].targets :: c < |s.conns| && s.conns[c].since <= u
  }

  /** Every update since the registration of `c` captured it. */
  ghost predicate Covered(s: Core, c: nat) {
    c < |s.conns| && forall u | s.conns[c].since <= u < |s.updates| :: c in s.updates[u].targets
  }

  lemma {:induction false} CurrentAtPrefix(updates: seq<Update>, u: Update, k: nat)
    requires k <= |updates|
    ensures CurrentAt(updates + [u], k) == CurrentAt(updates, k)
  {
    if k == 0 {
    } else {
      CurrentAtPrefix(updates, u, k - 1);
    }
  }

  lemma RegisterKeepsCore(s: Core, node: Node)
    requires CoreInv(s)
    ensures CoreInv(CoreRegister(s, node))
  {
    var t := CoreRegister(s, node);
    hide CurrentAt;
    forall c | 0 <= c < |t.conns|
      ensures ConnInv(t, c)
    {
      assert c < |s.conns| ==> ConnInv(s, c);
    }
    forall u | 0 <= u < |t.updates|
      ensures TargetsInv(t, u)
    {
      assert TargetsInv(s, u);
    }
    forall n | n in t.streams
      ensures Covered(t, t.streams[n])
    {
      assert n != node ==> Covered(s, s.streams[n]);
    }
  }

  lemma BeginKeepsCore(s: Core, layer: Layer, values: Values)
    requires CoreInv(s)
    ensures CoreInv(CoreBegin(s, layer, values))
  {
    var t := CoreBegin(s, layer, values);
    var last := t.updates[|s.updates|];
    CurrentAtPrefix(s.updates, last, |s.updates|);
    assert t.current == CurrentAt(t.updates, |t.updates|);
    hide CurrentAt;
    forall c | 0 <= c < |t.conns|
      ensures ConnInv(t, c)
    {
      assert ConnInv(s, c);
      CurrentAtPrefix(s.updates, last, s.conns[c].since);
    }
    forall u | 0 <= u < |t.updates|
      ensures TargetsInv(t, u)
    {
      if u < |s.updates| {
        assert TargetsInv(s, u);
      } else {
        assert forall n | n in s.streams :: ConnInv(s, s.streams[n]);
      }
    }
    forall n | n in t.streams
      ensures Covered(t, t.streams[n])
    {
      assert Covered(s, s.streams[n]);
    }
  }

  lemma CloseKeepsCore(s: Core, node: Node)
    requires CoreInv(s)
    ensures CoreInv(CoreClose(s, node))
  {
    var t := CoreClose(s, node);
    hide CurrentAt;
    assert forall c | 0 <= c < |t.conns| :: ConnInv(s, c) ==> ConnInv(t, c);
    assert forall u | 0 <= u < |t.updates| :: TargetsInv(s, u) ==> TargetsInv(t, u);
    assert forall n | n in t.streams :: Covered(s, s.streams[n]) ==> Covered(t, t.streams[n]);
  }

  lemma {:induction false} CoreInvHolds(actions: seq<Action>)
    ensures CoreInv(Exec(actions).core)
  {
    if actions == [] {
    } else {
      var s, a := Exec(actions[..|actions| - 1]), actions[|actions| - 1];
      CoreInvHolds(actions[..|actions| - 1]);
      hide CoreInv;
      if Enabled(s, a) {
        match a
        case Register(node) => RegisterKeepsCore(s.core, node);
        case Begin(layer, values) => BeginKeepsCore(s.core, layer, values);
        case Close(c) => CloseKeepsCore(s.core, s.core.conns[c].node);
        case _ =>
      }
    }
  }

  /** The current values of a layer are those of its latest update. */
  lemma {:induction false} LatestIsCurrent(updates: seq<Update>, layer: Layer, k: nat)
    requires k <= |updates|
    ensures layer in CurrentAt(updates, k) <==> Latest(updates, layer, k).Some?
    ensures Latest(updates, layer, k).Some? ==>
              var u := Latest(updates, layer, k).value;
              CurrentAt(updates, k)[layer] == updates[u].values
    ensures forall u | 0 <= u < k && updates[u].layer == layer ::
              Latest(updates, layer, k).Some? && u <= Latest(updates, layer, k).value
  {
    if k == 0 {
    } else {
      LatestIsCurrent(updates, layer, k - 1);
    }
  }

  /** No update is lost, in any interleaving: for a registered stream an update either
      captured the stream, or preceded its registration, and then the registration's
      snapshot holds the layer with the value of that update or of a later one. */
  lemma NoLostUpdate(actions: seq<Action>, node: Node, u: nat)
    requires node in Exec(actions).core.streams && u < |Exec(actions).core.updates|
    ensures var s := Exec(actions).core;
            var c, layer := s.streams[node], s.updates[u].layer;
            && c < |s.conns|
            && (|| c in s.updates[u].targets
                || (layer in s.conns[c].snapshot
                    && exists v | u <= v < |s.updates| && v < s.conns[c].since ::
                         s.updates[v].layer == layer && s.conns[c].snapshot[layer] == s.updates[v].values))
  {
    CoreInvHolds(actions);
    var s := Exec(actions).core;
    var c := s.streams[node];
    assert Covered(s, c) && ConnInv(s, c);
    if u < s.conns[c].since {
      LatestIsCurrent(s.updates, s.updates[u].layer, s.conns[c].since);
    }
  }
}
