/** The registry of running pollers
    (internal/controller/adaptivepolicy_controller.go:102-116, 596-621). */
module Registry {
  import opened Api
  import opened Options
  import Poller

  /** What a poller takes from its policy: triggers, detection settings, and the pods to scrape. */
  datatype Source = Source(triggers: seq<Trigger>, config: Poller.PollerConfig, selector: map<string, string>)

  /** A poller goroutine with the context that its cancel function ends. */
  class Task {
    const key: string
    const generation: int
    const selector: map<string, string>
    const poller: Poller.Poller
    var cancelled: bool

    constructor (key: string, generation: int, selector: map<string, string>, poller: Poller.Poller)
      ensures this.key == key && this.generation == generation && this.selector == selector
      ensures this.poller == poller && !cancelled
    {
      this.key, this.generation, this.selector, this.poller := key, generation, selector, poller;
      cancelled := false;
    }

    method Cancel()
      modifies this
      ensures cancelled
    {
      cancelled := true;
    }
  }

  /** The poller is as its constructor leaves it: no debounce counts, nothing to receive. */
  ghost predicate IsNew(p: Poller.Poller)
    reads p
  {
    p.state == Poller.QUIET && p.output == None
  }

  /** The goroutine polls what this policy asks for. */
  ghost predicate BuiltFrom(t: Task, source: Source) {
    t.poller.triggers == source.triggers && t.poller.cfg.Defaults(source.config) && t.selector == source.selector
  }

  datatype Op = Ensure(key: string, generation: int, source: Source) | Delete(key: string)

  /** The call that started the poller now registered under the key. */
  ghost function Current(log: seq<Op>, key: string): (i: Option<nat>)
    ensures i.Some? ==> i.value < |log| && log[i.value].Ensure? && log[i.value].key == key
  {
    if log == [] then None
    else
      var n := |log| - 1;
      var before := Current(log[..n], key);
      if log[n].key != key then before
      else if log[n].Delete? then None
      else if before.Some? && log[before.value].generation == log[n].generation then before
      else Some(n)
  }

  /** The task registered under a key is the one that the log says. */
  ghost predicate Registered(log: seq<Op>, pollers: map<string, Task>, key: string) {
    if key !in pollers then Current(log, key).None?
    else
      var i := Current(log, key);
      && i.Some? && pollers[key].key == key && pollers[key].generation == log[i.value].generation
      && BuiltFrom(pollers[key], log[i.value].source)
  }

  ghost predicate Tabulates(log: seq<Op>, pollers: map<string, Task>) {
    forall key :: Registered(log, pollers, key)
  }

  /** The goroutine is running exactly if it is the registered one of its key. */
  ghost predicate RunsIffRegistered(t: Task, pollers: map<string, Task>)
    reads t
  {
    !t.cancelled <==> t.key in pollers && pollers[t.key] == t
  }

  ghost predicate OnlyRegisteredRun(started: set<Task>, pollers: map<string, Task>)
    reads started
  {
    && (forall key | key in pollers :: pollers[key] in started)
    && (forall t | t in started :: RunsIffRegistered(t, pollers))
  }

  /** The key's goroutines are all cancelled; the others run exactly if they are registered. */
  ghost predicate CancelledBut(started: set<Task>, pollers: map<string, Task>, key: string)
    reads started
  {
    && (forall k | k in pollers :: pollers[k] in started)
    && (forall t | t in started :: if t.key == key then t.cancelled else RunsIffRegistered(t, pollers))
  }

  lemma StartedRuns(started: set<Task>, pollers: map<string, Task>, t: Task)
    requires CancelledBut(started, pollers, t.key) && !t.cancelled && t !in started
    ensures OnlyRegisteredRun(started + {t}, pollers[t.key := t])
  {
    assert forall s | s in started :: RunsIffRegistered(s, pollers[t.key := t]);
  }

  lemma DeletedRuns(started: set<Task>, pollers: map<string, Task>, key: string)
    requires CancelledBut(started, pollers, key)
    ensures OnlyRegisteredRun(started, pollers - {key})
  {
    assert forall s | s in started :: RunsIffRegistered(s, pollers - {key});
  }

  lemma OtherKeysStay(log: seq<Op>, pollers: map<string, Task>, op: Op, after: map<string, Task>)
    requires Tabulates(log, pollers) && after - {op.key} == pollers - {op.key}
    requires Registered(log + [op], after, op.key)
    ensures Tabulates(log + [op], after)
  {
    var all := log + [op];
    assert all[..|log|] == log;
    forall key
      ensures Registered(all, after, key)
    {
      if key != op.key {
        assert Registered(log, pollers, key);
        assert key in after <==> key in after - {op.key};
        assert key in pollers <==> key in pollers - {op.key};
        assert key in after ==> after[key] == (after - {op.key})[key] == (pollers - {op.key})[key];
        assert Current(all, key) == Current(log, key);
      }
    }
  }

  method NewTask(key: string, generation: int, source: Source) returns (t: Task)
    ensures fresh(t) && fresh(t.poller) && IsNew(t.poller) && !t.cancelled
    ensures t.key == key && t.generation == generation && BuiltFrom(t, source)
  {
    var p := new Poller.Poller(source.triggers, source.config);
    t := new Task(key, generation, source.selector, p);
  }

  lemma AppendOne(log: seq<Op>, op: Op)
    ensures Current(log + [op], op.key) ==
            if op.Delete? then None
            else if Current(log, op.key).Some? && log[Current(log, op.key).value].generation == op.generation
            then Current(log, op.key)
            else Some(|log|)
  {
    assert (log + [op])[..|log|] == log;
  }

  class Pollers {
    var pollers: map<string, Task>
    var cancels: map<string, Task>
    var generations: map<string, int>
    ghost var log: seq<Op>
    ghost var started: set<Task>

    ghost predicate Valid()
      reads this, started
    {
      && cancels == pollers
      && (forall key | key in pollers :: key in generations && generations[key] == pollers[key].generation)
      && Tabulates(log, pollers)
      && OnlyRegisteredRun(started, pollers)
    }

    constructor ()
      ensures Valid() && log == [] && started == {}
    {
      pollers, cancels, generations := map[], map[], map[];
      log, started := [], {};
    }

    /** Ends the key's running goroutine, if there is one. */
    method Cancel(key: string)
      requires Valid()
      modifies started
      ensures CancelledBut(started, pollers, key)
      ensures forall s | s in started :: s.cancelled == (old(s.cancelled) || s.key == key)
    {
      hide Tabulates, Registered, Current;
      assert forall s | s in started :: RunsIffRegistered(s, pollers);
      if key in cancels {
        assert Registered(log, pollers, key) by {
          RegisteredKey(log, pollers, key);
        }
        RegisteredHasKey(log, pollers, key);
        cancels[key].Cancel();
      }
    }

    /** Cancels the key's old goroutine, if any, and starts a new one. */
    method StartPoller(key: string, generation: int, source: Source)
      returns (t: Task)
      requires Valid() && (key in pollers ==> pollers[key].generation != generation)
      modifies this, started
      ensures Valid() && log == old(log) + [Ensure(key, generation, source)]
      ensures pollers == old(pollers)[key := t] && fresh(t) && started == old(started) + {t}
      ensures t.key == key && t.generation == generation && !t.cancelled
      ensures IsNew(t.poller) && BuiltFrom(t, source) && fresh(t.poller)
      ensures forall s | s in old(started) && s.key != key :: s.cancelled == old(s.cancelled)
    {
      hide Tabulates, Registered, Current, OnlyRegisteredRun, CancelledBut, RunsIffRegistered, IsNew;
      Cancel(key);
      t := NewTask(key, generation, source);
      StartedInLog(log, pollers, Ensure(key, generation, source), t);
      StartedRuns(started, pollers, t);
      pollers := pollers[key := t];
      cancels := cancels[key := t];
      generations := generations[key := generation];
      log, started := log + [Ensure(key, generation, source)], started + {t};
    }

    /** Returns the running poller of the key if it has this generation; otherwise the
        old one is cancelled and a new one, with new debounce counters, is started. */
    method EnsurePoller(key: string, generation: int, source: Source)
      returns (t: Task)
      requires Valid()
      modifies this, started
      ensures Valid() && log == old(log) + [Ensure(key, generation, source)]
      ensures pollers == old(pollers)[key := t]
      ensures t.key == key && t.generation == generation && !t.cancelled
      ensures if key in old(pollers) && old(pollers)[key].generation == generation
              then t == old(pollers)[key] && started == old(started)
              else fresh(t) && fresh(t.poller) && started == old(started) + {t}
                   && IsNew(t.poller) && BuiltFrom(t, source)
                   && t.poller.state == Poller.Debounce(0, 0, false) && t.poller.output.None?
                   && t.poller.triggers == source.triggers && t.selector == source.selector
                   && t.poller.cfg.Defaults(source.config)
      ensures forall s | s in old(started) && s.key != key :: s.cancelled == old(s.cancelled)
    {
      hide Tabulates, Registered, Current;
      if key in pollers {
        t := pollers[key];
        if key in generations && generations[key] == generation {
          assert RunsIffRegistered(t, pollers);
          KeptInLog(log, pollers, Ensure(key, generation, source));
          RegisteredKey(log, pollers, key);
          RegisteredHasKey(log, pollers, key);
          log := log + [Ensure(key, generation, source)];
          return;
        }
      }
      t := StartPoller(key, generation, source);
    }

    /** The policy is gone: its poller is cancelled and forgotten. */
    method DeletePoller(key: string)
      requires Valid()
      modifies this, started
      ensures Valid() && log == old(log) + [Delete(key)]
      ensures pollers == old(pollers) - {key} && started == old(started)
      ensures forall s | s in started :: s.cancelled == (old(s.cancelled) || s.key == key)
    {
      hide Tabulates, Registered, Current, OnlyRegisteredRun;
      DeletedInLog(log, pollers, Delete(key));
      Cancel(key);
      DeletedRuns(started, pollers, key);
      if key in cancels {
        cancels := cancels - {key};
        pollers := pollers - {key};
      }
      assert pollers == old(pollers) - {key};
      log := log + [Delete(key)];
    }
  }

  lemma RegisteredKey(log: seq<Op>, pollers: map<string, Task>, key: string)
    requires Tabulates(log, pollers)
    ensures Registered(log, pollers, key)
  {
  }

  lemma RegisteredHasKey(log: seq<Op>, pollers: map<string, Task>, key: string)
    requires Registered(log, pollers, key) && key in pollers
    ensures pollers[key].key == key
  {
  }

  lemma KeptInLog(log: seq<Op>, pollers: map<string, Task>, op: Op)
    requires Tabulates(log, pollers) && op.Ensure? && op.key in pollers && pollers[op.key].generation == op.generation
    ensures Tabulates(log + [op], pollers)
  {
    AppendOne(log, op);
    assert Registered(log, pollers, op.key);
    hide Current, Tabulates;
    OtherKeysStay(log, pollers, op, pollers);
  }

  ghost predicate IsFor(t: Task, op: Op)
    requires op.Ensure?
  {
    t.key == op.key && t.generation == op.generation && BuiltFrom(t, op.source)
  }

  lemma StartedInLog(log: seq<Op>, pollers: map<string, Task>, op: Op, t: Task)
    requires Tabulates(log, pollers) && op.Ensure? && IsFor(t, op)
    requires op.key in pollers ==> pollers[op.key].generation != op.generation
    ensures Tabulates(log + [op], pollers[op.key := t])
  {
    AppendOne(log, op);
    assert Registered(log, pollers, op.key);
    hide Current, Tabulates;
    var after := pollers[op.key := t];
    assert (log + [op])[|log|] == op;
    OtherKeysStay(log, pollers, op, after);
  }

  lemma DeletedInLog(log: seq<Op>, pollers: map<string, Task>, op: Op)
    requires Tabulates(log, pollers) && op.Delete?
    ensures Tabulates(log + [op], pollers - {op.key})
  {
    AppendOne(log, op);
    hide Current, Tabulates;
    OtherKeysStay(log, pollers, op, pollers - {op.key});
  }

  // ---------------------------------------------------------------- whose poller is returned

  /** The previous call about the same key. */
  ghost function Previous(log: seq<Op>, key: string, k: nat): (j: Option<nat>)
    requires k <= |log|
    ensures j.Some? ==> j.value < k && log[j.value].key == key
  {
    if k == 0 then None
    else if log[k - 1].key == key then Some(k - 1)
    else Previous(log, key, k - 1)
  }

  /** The call asks for the generation of the previous call about the key, which was not a deletion. */
  ghost predicate Repeats(log: seq<Op>, k: nat)
    requires k < |log| && log[k].Ensure?
  {
    var j := Previous(log, log[k].key, k);
    j.Some? && log[j.value].Ensure? && log[j.value].generation == log[k].generation
  }

  /** The poller returned by call `k` was built from that call's policy. */
  ghost predicate ServesCaller(log: seq<Op>, k: nat)
    requires k < |log| && log[k].Ensure?
  {
    var i := Current(log[..k + 1], log[k].key);
    i.Some? && log[i.value].source == log[k].source
  }

  /** A repeated generation comes with the same settings. */
  ghost predicate KeepsSource(log: seq<Op>, k: nat)
    requires k < |log| && log[k].Ensure?
  {
    Repeats(log, k) ==> log[k].source == log[Previous(log, log[k].key, k).value].source
  }

  lemma {:induction false} CurrentAfterPrevious(log: seq<Op>, key: string, k: nat)
    requires k <= |log|
    ensures var j := Previous(log, key, k);
            Current(log[..k], key) == if j.None? then None else Current(log[..j.value + 1], key)
  {
    if k == 0 {
    } else {
      assert log[..k][..k - 1] == log[..k - 1];
      CurrentAfterPrevious(log, key, k - 1);
    }
  }

  /** The registered poller has the generation of the latest call, unless that deleted it. */
  lemma {:induction false} CurrentHasLatestGeneration(log: seq<Op>, k: nat)
    requires k < |log|
    ensures var i := Current(log[..k + 1], log[k].key);
            if log[k].Delete? then i.None?
            else i.Some? && log[i.value].generation == log[k].generation
                 && (if Repeats(log, k) then i == Current(log[..Previous(log, log[k].key, k).value + 1], log[k].key)
                     else i.value == k)
  {
    assert log[..k + 1] == log[..k] + [log[k]];
    AppendOne(log[..k], log[k]);
    CurrentAfterPrevious(log, log[k].key, k);
    var j := Previous(log, log[k].key, k);
    if j.Some? {
      CurrentHasLatestGeneration(log, j.value);
    }
  }

  lemma ServesIffKeeps(log: seq<Op>, k: nat)
    requires k < |log| && log[k].Ensure?
    requires forall j | 0 <= j < k && log[j].Ensure? :: ServesCaller(log, j)
    ensures ServesCaller(log, k) <==> KeepsSource(log, k)
  {
    hide *;
    if Repeats(log, k) {
      ServedAgain(log, k);
    } else {
      ServedNew(log, k);
      NewKeeps(log, k);
    }
  }

  lemma NewKeeps(log: seq<Op>, k: nat)
    requires k < |log| && log[k].Ensure? && !Repeats(log, k)
    ensures KeepsSource(log, k)
  {
    hide Repeats;
  }

  lemma ServedAgain(log: seq<Op>, k: nat)
    requires k < |log| && log[k].Ensure? && Repeats(log, k)
    requires forall j | 0 <= j < k && log[j].Ensure? :: ServesCaller(log, j)
    ensures ServesCaller(log, k) <==> KeepsSource(log, k)
  {
    hide Current, Previous, ServesCaller;
    var j := Previous(log, log[k].key, k);
    assert ServesCaller(log, j.value);
    CurrentHasLatestGeneration(log, k);
    ServedSame(log, j.value, k);
  }

  lemma ServedSame(log: seq<Op>, j: nat, k: nat)
    requires j < k < |log| && log[j].Ensure? && log[k].Ensure? && log[j].key == log[k].key && ServesCaller(log, j)
    requires Current(log[..k + 1], log[k].key) == Current(log[..j + 1], log[k].key)
    ensures ServesCaller(log, k) <==> log[k].source == log[j].source
  {
    hide Current;
  }

  lemma ServedNew(log: seq<Op>, k: nat)
    requires k < |log| && log[k].Ensure? && !Repeats(log, k)
    ensures ServesCaller(log, k)
  {
    CurrentHasLatestGeneration(log, k);
    hide Current, Repeats;
  }

  /** Every call gets a poller built from its own policy's settings if and only if, between two
      deletions of a policy, a generation never comes with different settings. (A policy
      that is deleted and created again before the deletion is seen breaks that: its
      generation starts over, and the old policy's poller is returned.) */
  lemma PollersServeTheirCallersIffGenerationsIdentifySettings(log: seq<Op>)
    ensures (forall k | 0 <= k < |log| && log[k].Ensure? :: ServesCaller(log, k))
       <==> (forall k | 0 <= k < |log| && log[k].Ensure? :: KeepsSource(log, k))
  {
    hide ServesCaller, KeepsSource;
    if forall k | 0 <= k < |log| && log[k].Ensure? :: KeepsSource(log, k) {
      KeepingServes(log, |log|);
    }
    if forall k | 0 <= k < |log| && log[k].Ensure? :: ServesCaller(log, k) {
      forall k | 0 <= k < |log| && log[k].Ensure?
        ensures KeepsSource(log, k)
      {
        ServesIffKeeps(log, k);
      }
    }
  }

  lemma {:induction false} KeepingServes(log: seq<Op>, n: nat)
    requires n <= |log| && forall k | 0 <= k < |log| && log[k].Ensure? :: KeepsSource(log, k)
    ensures forall k | 0 <= k < n && log[k].Ensure? :: ServesCaller(log, k)
  {
    hide ServesCaller, KeepsSource;
    if n == 0 {
    } else {
      KeepingServes(log, n - 1);
      if log[n - 1].Ensure? {
        ServesIffKeeps(log, n - 1);
      }
    }
  }

  /** A policy that is deleted and created again unseen, with the same generation and other
      settings: the second call gets the first policy's poller. */
  lemma ReusedGenerationGetsOldPoller(key: string, generation: int, source: Source, other: Source)
    requires source != other
    ensures var log := [Ensure(key, generation, source), Ensure(key, generation, other)];
            Current(log, key) == Some(0) && !ServesCaller(log, 1)
  {
    var first, second := Ensure(key, generation, source), Ensure(key, generation, other);
    AppendOne([], first);
    assert [] + [first] == [first];
    AppendOne([first], second);
    assert [first] + [second] == [first, second] == [first, second][..2];
    hide Current;
  }
}
