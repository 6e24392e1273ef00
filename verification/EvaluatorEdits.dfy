/** Evaluation over the life of a policy whose triggers are edited between calls. The
    controller keeps one state per policy, by trigger name, across all its edits
    (internal/controller/adaptivepolicy_controller.go:147-156). */
module EvaluatorEdits {
  import opened Options
  import opened Api
  import opened Evaluator
  import opened EvaluatorHistory

  /** One call with the triggers that the policy has then. */
  datatype Round = Round(triggers: seq<Trigger>, call: Call)

  /** A firing: the trigger's name, its cooldown at the time, and the stored fire time. */
  datatype Firing = Firing(name: string, cooldown: int, at: int)

  ghost predicate IsHistory(rounds: seq<Round>) {
    forall k | 0 <= k < |rounds| ::
      |rounds[k].call.clock| == 2 * |rounds[k].triggers| && ClockAdvances(rounds[k].call)
  }

  ghost function MemoryAfter(rounds: seq<Round>): (m: Memory)
    requires IsHistory(rounds)
    ensures Bounded(m)
  {
    if rounds == [] then Memory(map[], map[])
    else
      var last := rounds[|rounds| - 1];
      Evaluated(last.triggers, last.call, MemoryAfter(rounds[..|rounds| - 1])).memory
  }

  ghost function FiredIn(r: Round, m: Memory): seq<Firing>
    requires |r.call.clock| == 2 * |r.triggers| && Bounded(m)
  {
    var i := Evaluated(r.triggers, r.call, m).fired;
    if i.None? then []
    else
      var t := r.triggers[i.value];
      [Firing(t.name, Cooldown(t), r.call.clock[2 * i.value + 1])]
  }

  /** All firings, in order. */
  ghost function Firings(rounds: seq<Round>): seq<Firing>
    requires IsHistory(rounds)
  {
    if rounds == [] then []
    else
      var before := rounds[..|rounds| - 1];
      Firings(before) + FiredIn(rounds[|rounds| - 1], MemoryAfter(before))
  }

  /** The last fire time of a name. */
  ghost function LastAt(fs: seq<Firing>, name: string): Option<int> {
    if fs == [] then None
    else if fs[|fs| - 1].name == name then Some(fs[|fs| - 1].at)
    else LastAt(fs[..|fs| - 1], name)
  }

  /** Every firing comes at least its own cooldown after the previous one of its name. */
  ghost predicate SpacedByName(fs: seq<Firing>) {
    forall j | 0 <= j < |fs| :: SpacedAt(fs, j)
  }

  ghost predicate SpacedAt(fs: seq<Firing>, j: nat)
    requires j < |fs|
  {
    var last := LastAt(fs[..j], fs[j].name);
    last.Some? ==> last.value + fs[j].cooldown <= fs[j].at
  }

  ghost predicate RemembersLast(m: Memory, fs: seq<Firing>) {
    forall name :: Lookup(m.fired, name) == LastAt(fs, name)
  }

  lemma LastAppended(fs: seq<Firing>, f: Firing, name: string)
    ensures LastAt(fs + [f], name) == if f.name == name then Some(f.at) else LastAt(fs, name)
  {
    assert (fs + [f])[..|fs|] == fs;
  }

  /** A firing respects the stored fire time of its name, repeated names included. */
  lemma {:induction false} FiringIsSpaced(
    ts: seq<Trigger>, call: Call, i: nat, m: Memory, closest: Option<Decision>, fired: map<string, int>)
    requires i <= |ts| && |call.clock| == 2 * |ts| && ClockAdvances(call) && Bounded(m) && m.fired == fired
    requires closest.Some? ==> !closest.value.shouldSwitch
    ensures var r := Scan(ts, call, i, m, closest);
            if r.fired.None? then r.memory.fired == fired
            else
              var t, at := ts[r.fired.value], call.clock[2 * r.fired.value + 1];
              && r.memory.fired == fired[t.name := at]
              && (t.name in fired ==> fired[t.name] + Cooldown(t) <= at)
    decreases |ts| - i
  {
    if i < |ts| {
      var next := Remembered(ts, call, i, m);
      assert call.clock[2 * i] <= call.clock[2 * i + 1];
      hide Advanced, ConditionHolds, ClockAdvances, Bounded, RequiredSamples;
      if Skips(ts, call, i, m) {
        FiringIsSpaced(ts, call, i + 1, next, closest, fired);
      } else if !Fires(ts, call, i, m) {
        FiringIsSpaced(ts, call, i + 1, next, Closer(closest, ts[i].name, Advanced(ts[i], call, m)), fired);
      }
    }
  }

  lemma RoundKeepsSpacing(r: Round, m: Memory, fs: seq<Firing>)
    requires |r.call.clock| == 2 * |r.triggers| && ClockAdvances(r.call) && Bounded(m)
    requires RemembersLast(m, fs) && SpacedByName(fs)
    ensures RemembersLast(Evaluated(r.triggers, r.call, m).memory, fs + FiredIn(r, m))
    ensures SpacedByName(fs + FiredIn(r, m))
  {
    FiringIsSpaced(r.triggers, r.call, 0, m, None, m.fired);
    var e, all := Evaluated(r.triggers, r.call, m), fs + FiredIn(r, m);
    hide Scan, ClockAdvances, Bounded, LastAt;
    if FiredIn(r, m) == [] {
      assert all == fs;
    } else {
      var f := FiredIn(r, m)[0];
      assert all == fs + [f];
      forall name
        ensures Lookup(e.memory.fired, name) == LastAt(all, name)
      {
        LastAppended(fs, f, name);
      }
      forall j | 0 <= j < |all|
        ensures SpacedAt(all, j)
      {
        assert all[..j] == if j < |fs| then fs[..j] else fs;
        assert j < |fs| ==> SpacedAt(fs, j);
        assert j == |fs| ==> Lookup(m.fired, f.name) == LastAt(fs, f.name);
      }
    }
  }

  lemma {:induction false} FiringsAreSpacedByName(rounds: seq<Round>)
    requires IsHistory(rounds)
    ensures RemembersLast(MemoryAfter(rounds), Firings(rounds)) && SpacedByName(Firings(rounds))
  {
    if rounds == [] {
    } else {
      var before, r := rounds[..|rounds| - 1], rounds[|rounds| - 1];
      FiringsAreSpacedByName(before);
      hide RemembersLast, SpacedByName, Evaluated, FiredIn, ClockAdvances;
      RoundKeepsSpacing(r, MemoryAfter(before), Firings(before));
    }
  }

  /** Through all edits of the triggers, also with repeated names, a firing comes no
      earlier than the firing trigger's cooldown after the previous firing of its name. */
  lemma EditedFiringsRespectCooldown(rounds: seq<Round>, j: nat)
    requires IsHistory(rounds) && j < |Firings(rounds)|
    ensures var fs := Firings(rounds);
            var last := LastAt(fs[..j], fs[j].name);
            last.Some? ==> last.value + fs[j].cooldown <= fs[j].at
  {
    FiringsAreSpacedByName(rounds);
    assert SpacedAt(Firings(rounds), j);
  }

  ghost function Unedited(ts: seq<Trigger>, calls: seq<Call>): (rounds: seq<Round>)
    ensures |rounds| == |calls| && forall k | 0 <= k < |calls| :: rounds[k] == Round(ts, calls[k])
  {
    seq(|calls|, k requires 0 <= k < |calls| => Round(ts, calls[k]))
  }

  /** Without edits and with distinct names, what the state holds is what the history
      machine of the log says. */
  lemma {:induction false} MemoryIsHistory(ts: seq<Trigger>, calls: seq<Call>)
    requires UniqueNames(ts) && IsRun(ts, calls)
    ensures IsHistory(Unedited(ts, calls))
    ensures SeenIn(ts, MemoryAfter(Unedited(ts, calls))) == Iterate(ts, calls) == SeenInLog(|ts|, Log(ts, calls))
  {
    StateIsHistory(ts, calls);
    hide SeenInLog, Log;
    var rounds := Unedited(ts, calls);
    if calls == [] {
    } else {
      var n := |calls| - 1;
      assert rounds[..n] == Unedited(ts, calls[..n]);
      MemoryIsHistory(ts, calls[..n]);
      EvaluatedRefines(ts, calls[n], MemoryAfter(rounds[..n]));
    }
  }
}
