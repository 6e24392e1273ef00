/** The RTDS server as an object (internal/rtds/client.go:181-393), for calls that
    complete one at a time. Its locked regions are the ones of the transition system:
    every method says which of them it performs on the log. */
module RtdsServer {
  import opened RtdsProtocol
  import opened RtdsDelivery
  import opened Options

  /** A connected proxy. Sends can fail at any time; `closed` is a finished context. */
  class Stream {
    const nodeID: Node
    var closed: bool
    var inbox: seq<Message>
    /** Some response was not delivered. */
    ghost var lost: bool
    /** How many sends failed. */
    ghost var failures: nat

    constructor (nodeID: Node)
      ensures this.nodeID == nodeID && !closed && inbox == [] && !lost && failures == 0
    {
      this.nodeID := nodeID;
      closed, inbox, lost, failures := false, [], false, 0;
    }

    method Send(m: Message) returns (ok: bool)
      modifies this
      ensures closed == old(closed)
      ensures inbox == if ok then old(inbox) + [m] else old(inbox)
      ensures lost == (old(lost) || !ok) && failures == old(failures) + if ok then 0 else 1
    {
      ok := *;
      if ok {
        inbox := inbox + [m];
      } else {
        lost, failures := true, failures + 1;
      }
    }
  }

  /** What one push did to one captured stream. */
  ghost predicate Pushed(inbox: seq<Message>, lost: bool, before: seq<Message>, wasLost: bool,
                         closed: bool, reported: bool, m: Message) {
    if closed then inbox == before && lost && !reported
    else if reported then inbox == before && lost
    else inbox == before + [m] && lost == wasLost
  }

  /** Streams registered under different node ids are different streams. */
  ghost predicate Distinct(sts: seq<Stream>) {
    forall i, j | 0 <= i < j < |sts| :: sts[i].nodeID != sts[j].nodeID
  }

  /** The fan-out of one response; it reports the streams whose send failed. */
  method Broadcast(sts: seq<Stream>, m: Message) returns (failed: seq<Node>)
    requires Distinct(sts)
    modifies sts
    ensures forall st | st in sts ::
              && st.closed == old(st.closed)
              && Pushed(st.inbox, st.lost, old(st.inbox), old(st.lost), st.closed, st.nodeID in failed, m)
    ensures forall id | id in failed :: exists st | st in sts :: st.nodeID == id
  {
    failed := [];
    var i := 0;
    while i < |sts|
      invariant 0 <= i <= |sts|
      invariant forall j | 0 <= j < |sts| :: sts[j].closed == old(sts[j].closed)
      invariant forall j | 0 <= j < i ::
          Pushed(sts[j].inbox, sts[j].lost, old(sts[j].inbox), old(sts[j].lost), sts[j].closed,
                 sts[j].nodeID in failed, m)
      invariant forall j | i <= j < |sts| ::
          sts[j].inbox == old(sts[j].inbox) && sts[j].lost == old(sts[j].lost) && sts[j].nodeID !in failed
      invariant forall id | id in failed :: exists st | st in sts :: st.nodeID == id
    {
      var st := sts[i];
      if st.closed {
        st.lost := true;
      } else {
        var ok := st.Send(m);
        if !ok {
          failed := failed + [st.nodeID];
        }
      }
      i := i + 1;
    }
  }

  /** The log knows exactly the registered streams: connection `log.streams[n]` is stream `streams[n]`. */
  ghost predicate Mirrors(log: Core, conns: seq<Stream>, streams: map<Node, Stream>) {
    && |conns| == |log.conns| && log.streams.Keys == streams.Keys
    && forall n | n in streams :: MirrorsAt(log, conns, streams, n)
  }

  ghost predicate MirrorsAt(log: Core, conns: seq<Stream>, streams: map<Node, Stream>, n: Node) {
    && n in streams && n in log.streams && streams[n].nodeID == n
    && log.streams[n] < |conns| && conns[log.streams[n]] == streams[n]
  }

  lemma RegisterMirrors(log: Core, conns: seq<Stream>, streams: map<Node, Stream>, st: Stream)
    requires Mirrors(log, conns, streams)
    ensures Mirrors(CoreRegister(log, st.nodeID), conns + [st], streams[st.nodeID := st])
  {
    var after := streams[st.nodeID := st];
    forall n | n in after
      ensures MirrorsAt(CoreRegister(log, st.nodeID), conns + [st], after, n)
    {
      assert n != st.nodeID ==> MirrorsAt(log, conns, streams, n);
    }
  }

  lemma CloseMirrors(log: Core, conns: seq<Stream>, streams: map<Node, Stream>, node: Node)
    requires Mirrors(log, conns, streams)
    ensures Mirrors(CoreClose(log, node), conns, streams - {node})
  {
    var after := streams - {node};
    forall n | n in after
      ensures MirrorsAt(CoreClose(log, node), conns, after, n)
    {
      assert MirrorsAt(log, conns, streams, n);
    }
  }

  lemma BeginMirrors(log: Core, conns: seq<Stream>, streams: map<Node, Stream>, layer: Layer, values: Values)
    requires Mirrors(log, conns, streams)
    ensures Mirrors(CoreBegin(log, layer, values), conns, streams)
  {
    forall n | n in streams
      ensures MirrorsAt(CoreBegin(log, layer, values), conns, streams, n)
    {
      assert MirrorsAt(log, conns, streams, n);
    }
  }

  /** The proxy behind the stream holds exactly the current values, unless a send to it failed. */
  ghost predicate UpToDate(st: Stream, current: map<Layer, Values>)
    reads st
  {
    st.lost || View(st.inbox) == current
  }

  ghost predicate AllUpToDate(streams: map<Node, Stream>, current: map<Layer, Values>)
    reads streams.Values
  {
    forall n | n in streams :: streams[n] in streams.Values && UpToDate(streams[n], current)
  }

  /** The inbox is part of one replay of the snapshot: no layer twice, each with its values. */
  ghost predicate Replayed(inbox: seq<Message>, snapshot: map<Layer, Values>, version: nat, layers: set<Layer>) {
    && (forall i | 0 <= i < |inbox| :: ReplayedAt(inbox[i], snapshot, version) && inbox[i].layer !in layers)
    && (forall i, j | 0 <= i < j < |inbox| :: inbox[i].layer != inbox[j].layer)
  }

  ghost predicate ReplayedAt(m: Message, snapshot: map<Layer, Values>, version: nat) {
    m.layer in snapshot && m == Message(m.layer, snapshot[m.layer], version, None)
  }

  lemma ReplayOne(inbox: seq<Message>, snapshot: map<Layer, Values>, version: nat, layers: set<Layer>, layer: Layer)
    requires Replayed(inbox, snapshot, version, layers) && layer in layers && layer in snapshot
    ensures var m := Message(layer, snapshot[layer], version, None);
            && Replayed(inbox + [m], snapshot, version, layers - {layer})
            && (View(inbox) == snapshot - layers ==> View(inbox + [m]) == snapshot - (layers - {layer}))
  {
    ViewOfPush(inbox, Message(layer, snapshot[layer], version, None));
    hide View;
    assert (snapshot - layers)[layer := snapshot[layer]] == snapshot - (layers - {layer});
  }

  class Server {
    var streams: map<Node, Stream>
    var current: map<Layer, Values>
    var version: nat
    /** The locked state of the transition system, and the streams of its connections. */
    ghost var log: Core
    ghost var conns: seq<Stream>

    ghost predicate Valid()
      reads this
    {
      CoreInv(log) && log.current == current && log.version == version && Mirrors(log, conns, streams)
    }

    ghost predicate InSync()
      reads this, streams.Values
    {
      AllUpToDate(streams, current)
    }

    constructor ()
      ensures Valid() && InSync() && streams == map[] && log == EMPTY_CORE
    {
      streams, current, version := map[], map[], 0;
      log, conns := EMPTY_CORE, [];
    }

    /** A copy of the current values, made layer by layer and key by key. */
    method CurrentSnapshot() returns (snapshot: map<Layer, Values>)
      ensures snapshot == current
    {
      snapshot := map[];
      var layers := current.Keys;
      while layers != {}
        invariant layers <= current.Keys
        invariant snapshot == current - layers
      {
        var layer :| layer in layers;
        var copy: Values := map[];
        var keys := current[layer].Keys;
        while keys != {}
          invariant keys <= current[layer].Keys
          invariant copy == current[layer] - keys
        {
          var k :| k in keys;
          copy := copy[k := current[layer][k]];
          keys := keys - {k};
        }
        assert copy == current[layer];
        snapshot := snapshot[layer := copy];
        layers := layers - {layer};
        assert (current - (layers + {layer}))[layer := current[layer]] == current - layers;
      }
    }

    method BuildResponse(layer: Layer, values: Values, origin: Option<nat>) returns (m: Message)
      ensures m == Message(layer, values, version, origin)
    {
      var fields: Values := map[];
      var keys := values.Keys;
      while keys != {}
        invariant keys <= values.Keys
        invariant fields == values - keys
      {
        var k :| k in keys;
        fields := fields[k := values[k]];
        keys := keys - {k};
      }
      m := Message(layer, fields, version, origin);
    }

    /** The locked region of a new connection. */
    method Register(st: Stream) returns (snapshot: map<Layer, Values>)
      requires Valid()
      modifies this
      ensures Valid() && log == CoreRegister(old(log), st.nodeID) && conns == old(conns) + [st]
      ensures streams == old(streams)[st.nodeID := st] && current == old(current)
      ensures snapshot == current
    {
      hide CoreInv, Mirrors;
      RegisterKeepsCore(log, st.nodeID);
      RegisterMirrors(log, conns, streams, st);
      streams := streams[st.nodeID := st];
      snapshot := CurrentSnapshot();
      log, conns := CoreRegister(log, st.nodeID), conns + [st];
    }

    /** The replay to a new stream, in any order of the layers; it stops at the first failure. */
    method Replay(st: Stream, snapshot: map<Layer, Values>)
      requires st.inbox == []
      modifies st
      ensures !old(st.lost) && !st.lost ==> View(st.inbox) == snapshot
      ensures Replayed(st.inbox, snapshot, version, {})
      ensures st.failures <= old(st.failures) + 1
    {
      ViewOfNothing();
      var layers := snapshot.Keys;
      assert snapshot - layers == map[] && Replayed([], snapshot, version, layers);
      hide View, Replayed;
      while layers != {}
        invariant layers <= snapshot.Keys
        invariant !old(st.lost) && !st.lost ==> View(st.inbox) == snapshot - layers
        invariant Replayed(st.inbox, snapshot, version, layers) && st.failures == old(st.failures)
      {
        var layer :| layer in layers;
        var m := BuildResponse(layer, snapshot[layer], None);
        ghost var before := st.inbox;
        var ok := st.Send(m);
        if !ok {
          return;
        }
        ReplayOne(before, snapshot, version, layers, layer);
        layers := layers - {layer};
      }
    }

    /** A new connection: the new stream is registered and, unless a send failed, up to date. */
    method Connect(node: Node) returns (st: Stream)
      requires Valid() && InSync()
      modifies this
      ensures fresh(st) && Valid() && InSync()
      ensures log == CoreRegister(old(log), node)
      ensures streams == old(streams)[node := st] && current == old(current) && version == old(version)
      ensures Replayed(st.inbox, current, version, {})
    {
      hide CoreInv, Mirrors, View;
      st := new Stream(node);
      ViewOfNothing();
      var snapshot := Register(st);
      if |snapshot| > 0 {
        Replay(st, snapshot);
      }
      assert forall n | n in old(streams) ::
          old(streams)[n] in old(streams).Values && old(UpToDate(streams[n], current));
    }

    method Disconnect(node: Node)
      requires Valid() && InSync()
      modifies this
      ensures Valid() && InSync()
      ensures log == CoreClose(old(log), node)
      ensures streams == old(streams) - {node} && current == old(current) && version == old(version)
    {
      hide CoreInv, Mirrors, UpToDate;
      CloseKeepsCore(log, node);
      CloseMirrors(log, conns, streams, node);
      streams, log := streams - {node}, CoreClose(log, node);
      assert forall n | n in streams :: streams[n] in streams.Values && old(UpToDate(streams[n], current));
    }

    /** The locked region of a push: it captures exactly the registered streams. */
    method BeginPush(layer: Layer, values: Values) returns (sts: seq<Stream>)
      requires Valid()
      modifies this
      ensures Valid() && log == CoreBegin(old(log), layer, values)
      ensures streams == old(streams) && current == old(current)[layer := values] && version == old(version) + 1
      ensures Distinct(sts) && (forall st :: st in sts <==> st in streams.Values)
    {
      hide CoreInv, Mirrors;
      BeginKeepsCore(log, layer, values);
      BeginMirrors(log, conns, streams, layer, values);
      NodesOf(log, conns, streams);
      current := current[layer := values];
      sts := [];
      var nodes := streams.Keys;
      while nodes != {}
        invariant nodes <= streams.Keys
        invariant forall st | st in sts :: st.nodeID in streams && st.nodeID !in nodes && streams[st.nodeID] == st
        invariant forall n | n in streams && n !in nodes :: streams[n] in sts
        invariant Distinct(sts)
      {
        var n :| n in nodes;
        sts := sts + [streams[n]];
        nodes := nodes - {n};
      }
      version := version + 1;
      log := CoreBegin(log, layer, values);
    }

    /** A push: every registered stream whose context is live gets exactly one new
        response, which carries the values and the new version, or is reported. */
    method PushLayer(layer: Layer, values: Values) returns (failed: seq<Node>)
      requires Valid() && InSync()
      modifies this, streams.Values
      ensures Valid() && InSync()
      ensures log == CoreBegin(old(log), layer, values)
      ensures streams == old(streams) && current == old(current)[layer := values] && version == old(version) + 1
      ensures forall n | n in streams ::
                var st := streams[n];
                && st in old(streams.Values) && st.closed == old(st.closed)
                && Pushed(st.inbox, st.lost, old(st.inbox), old(st.lost), st.closed, n in failed,
                          Message(layer, values, version, Some(old(version))))
      ensures forall id | id in failed :: id in streams
    {
      hide CoreInv, Mirrors, View;
      var sts := BeginPush(layer, values);
      if |sts| == 0 {
        failed := [];
        NobodyConnected(streams, sts);
        return;
      }
      var m := BuildResponse(layer, values, Some(version - 1));
      failed := Broadcast(sts, m);
      NodesOf(log, conns, streams);
      forall n | n in streams
        ensures streams[n] in streams.Values && streams[n] in sts
        ensures UpToDate(streams[n], current)
      {
        assert old(UpToDate(streams[n], current));
        ViewOfPush(old(streams[n].inbox), m);
      }
    }
  }

  lemma NodesOf(log: Core, conns: seq<Stream>, streams: map<Node, Stream>)
    requires Mirrors(log, conns, streams)
    ensures forall n | n in streams :: streams[n].nodeID == n
  {
    assert forall n | n in streams :: MirrorsAt(log, conns, streams, n);
  }

  lemma NobodyConnected(streams: map<Node, Stream>, sts: seq<Stream>)
    requires |sts| == 0 && forall st | st in streams.Values :: st in sts
    ensures streams == map[]
  {
    assert forall n | n in streams :: streams[n] in streams.Values;
  }

  lemma ViewOfNothing()
    ensures View([]) == map[]
  {
  }

  lemma ViewOfPush(inbox: seq<Message>, m: Message)
    ensures View(inbox + [m]) == View(inbox)[m.layer := m.values]
  {
    assert (inbox + [m])[..|inbox|] == inbox;
  }
}
