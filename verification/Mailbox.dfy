/** The poller's output channel shared with the reconciler
    (internal/signal/poller.go:246-260): a single producer sends in up to three
    non-blocking stages while a consumer may receive between any two of them. */
module Mailbox {
  import opened Options

  /** Where the producer is inside sendNonBlocking. */
  datatype Producer<V> = Idle | Draining(latest: V) | Resending(latest: V)

  /** `buffer` is the channel of capacity 1. `emitted`, `received` and `dropped` record the run. */
  datatype State<V> = State(
    producer: Producer<V>, buffer: Option<V>, emitted: seq<V>, received: seq<V>, dropped: seq<V>)

  /** Send(v) is the first stage of sending `v`; Drain and Resend are the other two. */
  datatype Action<V> = Send(v: V) | Drain | Resend | Receive

  ghost function Start<V>(): State<V> {
    State(Idle, None, [], [], [])
  }

  /** One atomic step. An action that is not possible changes nothing. */
  ghost function Step<V>(s: State<V>, a: Action<V>): State<V> {
    match a
    case Send(v) =>
      if !s.producer.Idle? then s
      else if s.buffer.None? then s.(buffer := Some(v), emitted := s.emitted + [v])
      else s.(producer := Draining(v), emitted := s.emitted + [v])
    case Drain =>
      if !s.producer.Draining? then s
      else s.(buffer := None, producer := Resending(s.producer.latest))
    case Resend =>
      if !s.producer.Resending? then s
      else if s.buffer.None? then s.(buffer := Some(s.producer.latest), producer := Idle)
      else s.(dropped := s.dropped + [s.producer.latest], producer := Idle)
    case Receive =>
      if s.buffer.None? then s else s.(received := s.received + [s.buffer.value], buffer := None)
  }

  ghost function Exec<V>(actions: seq<Action<V>>): State<V> {
    if actions == [] then Start() else Step(Exec(actions[..|actions| - 1]), actions[|actions| - 1])
  }

  /** `xs` is an in-order subsequence of `ys`. */
  ghost predicate Subsequence<V>(xs: seq<V>, ys: seq<V>) {
    xs == [] ||
    (ys != [] &&
     var (xs', ys') := (xs[..|xs| - 1], ys[..|ys| - 1]);
     Subsequence(xs, ys') || (xs[|xs| - 1] == ys[|ys| - 1] && Subsequence(xs', ys')))
  }

  /** What the consumer has and can still get. */
  ghost function Delivered<V>(s: State<V>): seq<V> {
    s.received + if s.buffer.Some? then [s.buffer.value] else []
  }

  /** What the producer has committed: all emissions but the one being sent. */
  ghost function Settled<V>(s: State<V>): seq<V>
    requires s.producer.Idle? || s.emitted != []
  {
    if s.producer.Idle? then s.emitted else s.emitted[..|s.emitted| - 1]
  }

  ghost predicate EndsAlike<V>(xs: seq<V>, ys: seq<V>) {
    ys == [] || (xs != [] && xs[|xs| - 1] == ys[|ys| - 1])
  }

  ghost predicate Inv<V>(s: State<V>) {
    && s.dropped == []
    && (!s.producer.Idle? ==> s.emitted != [] && s.emitted[|s.emitted| - 1] == s.producer.latest)
    && (s.producer.Resending? ==> s.buffer.None?)
    && Subsequence(Delivered(s), Settled(s))
    && (!s.producer.Resending? ==> EndsAlike(Delivered(s), Settled(s)))
  }

  lemma {:induction false} SubsequenceExtend<V>(xs: seq<V>, ys: seq<V>, v: V)
    requires Subsequence(xs, ys)
    ensures Subsequence(xs, ys + [v])
    ensures Subsequence(xs + [v], ys + [v])
  {
    assert (ys + [v])[..|ys|] == ys && (xs + [v])[..|xs|] == xs;
  }

  lemma {:induction false} SubsequenceShrink<V>(xs: seq<V>, v: V, ys: seq<V>)
    requires Subsequence(xs + [v], ys)
    ensures Subsequence(xs, ys)
    decreases |ys|
  {
    var ys' := ys[..|ys| - 1];
    assert (xs + [v])[..|xs|] == xs && ys == ys' + [ys[|ys| - 1]];
    if Subsequence(xs + [v], ys') {
      SubsequenceShrink(xs, v, ys');
    }
    SubsequenceExtend(xs, ys', ys[|ys| - 1]);
  }

  lemma InvStep<V>(s: State<V>, a: Action<V>)
    requires Inv(s)
    ensures Inv(Step(s, a))
  {
    var t := Step(s, a);
    match a
    case Send(v) =>
      if s.producer.Idle? && s.buffer.None? {
        SubsequenceExtend(Delivered(s), s.emitted, v);
        assert Delivered(s) + [] == Delivered(s) == s.received && Delivered(t) == Delivered(s) + [v];
      } else if s.producer.Idle? {
        assert t.emitted[..|s.emitted|] == s.emitted && Settled(t) == Settled(s) && Delivered(t) == Delivered(s);
      }
    case Drain =>
      if s.producer.Draining? && s.buffer.Some? {
        assert Delivered(t) == s.received;
        SubsequenceShrink(s.received, s.buffer.value, Settled(s));
      }
    case Resend =>
      if s.producer.Resending? {
        SubsequenceExtend(Delivered(s), Settled(s), s.producer.latest);
        assert Settled(t) == Settled(s) + [s.producer.latest];
        assert Delivered(s) == s.received && Delivered(t) == Delivered(s) + [s.producer.latest];
      }
    case Receive =>
      assert Delivered(t) == Delivered(s);
  }

  lemma {:induction false} InvHolds<V>(actions: seq<Action<V>>)
    ensures Inv(Exec(actions))
  {
    if actions == [] {
    } else {
      InvHolds(actions[..|actions| - 1]);
      InvStep(Exec(actions[..|actions| - 1]), actions[|actions| - 1]);
    }
  }

  /** In every interleaving the received values followed by the buffered one form an
      in-order subsequence of the emitted values. */
  lemma DeliveredInOrder<V>(actions: seq<Action<V>>)
    ensures Subsequence(Delivered(Exec(actions)), Exec(actions).emitted)
  {
    var s := Exec(actions);
    InvHolds(actions);
    if !s.producer.Idle? {
      SubsequenceExtend(Delivered(s), Settled(s), s.producer.latest);
      assert s.emitted == Settled(s) + [s.producer.latest];
    }
  }

  /** Whenever no send is in progress, the last delivered value is the last emitted
      one: the consumer never ends up with a stale value. */
  lemma LatestValueWins<V>(actions: seq<Action<V>>)
    requires Exec(actions).producer.Idle?
    ensures EndsAlike(Delivered(Exec(actions)), Exec(actions).emitted)
  {
    InvHolds(actions);
  }

  /** The final `default` of sendNonBlocking is unreachable: no value is ever dropped by it. */
  lemma FreshValueIsNeverDropped<V>(actions: seq<Action<V>>)
    ensures Exec(actions).dropped == []
    ensures Exec(actions).producer.Resending? ==> Exec(actions).buffer.None?
  {
    InvHolds(actions);
  }
}
