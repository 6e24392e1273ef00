/** What restarts do to a policy's debounce: the registry starts a new poller whenever the
    policy comes with another generation (internal/controller/adaptivepolicy_controller.go:604-620),
    and every automatic switch advances the generation. The new poller starts without counts
    and not firing. */
module Restarts {
  import opened Options
  import opened Registry
  import Poller

  /** What happens to one policy over time: calls to the registry, and polls by whatever
      poller is registered for it. */
  datatype Moment = Called(op: Op) | Polled(poll: Poller.Poll)

  ghost function Ops(ms: seq<Moment>): seq<Op> {
    if ms == [] then []
    else
      var m := ms[|ms| - 1];
      if m.Called? then Ops(ms[..|ms| - 1]) + [m.op] else Ops(ms[..|ms| - 1])
  }

  /** The call that started the poller that is registered now. */
  ghost function Now(ms: seq<Moment>, key: string): (i: Option<nat>)
    ensures i.Some? ==> i.value < |Ops(ms)| && Ops(ms)[i.value].Ensure?
  {
    Current(Ops(ms), key)
  }

  /** How many breaching and clean scrapes the registered poller needs. */
  ghost function Settings(ms: seq<Moment>, key: string): (c: Poller.PollerConfig)
    ensures c.InRange()
  {
    var i := Now(ms, key);
    if i.Some? then Ops(ms)[i.value].source.config.Defaulted() else Poller.PollerConfig(0, 0, 0).Defaulted()
  }

  /** The polls that the registered poller has made in its life. */
  ghost function Life(ms: seq<Moment>, key: string): seq<Poller.Poll> {
    if ms == [] then []
    else
      var n := |ms| - 1;
      match ms[n]
      case Called(_) => if Now(ms, key) == Now(ms[..n], key) then Life(ms[..n], key) else []
      case Polled(poll) => if Now(ms, key).Some? then Life(ms[..n], key) + [poll] else []
  }

  /** Moment `k` is a poll at which the registered poller emits a recovery. */
  ghost predicate RecoversAt(ms: seq<Moment>, key: string, k: nat)
    requires k < |ms|
  {
    var c, polls := Settings(ms[..k + 1], key), Life(ms[..k + 1], key);
    ms[k].Polled? && polls != []
    && Poller.Run(polls, c.consecutiveBreaches, c.consecutiveRecoveries).1[|polls| - 1] == Poller.Recovery
  }

  ghost predicate NeverRecovers(ms: seq<Moment>, key: string) {
    forall k | 0 <= k < |ms| :: !RecoversAt(ms, key, k)
  }

  // ---------------------------------------------------------------- when pollers are replaced

  /** The call replaces the registered poller, if there is one: it deletes the policy, or
      comes with another generation. */
  ghost predicate Replaces(ms: seq<Moment>, key: string, k: nat)
    requires k < |ms|
  {
    && ms[k].Called? && ms[k].op.key == key && Now(ms[..k], key).Some?
    && (ms[k].op.Delete? || ms[k].op.generation != Ops(ms[..k])[Now(ms[..k], key).value].generation)
  }

  /** Between these moments the key keeps the same poller. */
  ghost predicate SameLife(ms: seq<Moment>, key: string, i: nat, j: nat) {
    i <= j <= |ms| && Now(ms[..i], key).Some? && forall k | i <= k < j :: !Replaces(ms, key, k)
  }

  /** At moment `i` the last B successful scrapes of the registered poller all breach. */
  ghost predicate ConfirmedAt(ms: seq<Moment>, key: string, i: nat)
    requires i <= |ms|
  {
    Poller.LastAll(Poller.Successes(Life(ms[..i], key)), Settings(ms[..i], key).consecutiveBreaches, true)
  }

  /** At moment `j` the last R successful scrapes of the registered poller are all clean. */
  ghost predicate ClearedAt(ms: seq<Moment>, key: string, j: nat)
    requires j <= |ms|
  {
    Poller.LastAll(Poller.Successes(Life(ms[..j], key)), Settings(ms[..j], key).consecutiveRecoveries, false)
  }

  /** After every confirmed breach the poller is replaced before R clean scrapes in a row, or
      these never come. */
  ghost predicate ReplacedInTime(ms: seq<Moment>, key: string) {
    forall i: nat, j: nat | i < j <= |ms| && ConfirmedAt(ms, key, i) && SameLife(ms, key, i, j) ::
      !ClearedAt(ms, key, j)
  }

  // ---------------------------------------------------------------- one moment

  lemma OneMoment(ms: seq<Moment>, key: string, k: nat)
    requires k < |ms|
    ensures ms[..k + 1] == ms[..k] + [ms[k]] && ms[..k + 1][..k] == ms[..k]
    ensures Ops(ms[..k + 1]) == if ms[k].Called? then Ops(ms[..k]) + [ms[k].op] else Ops(ms[..k])
    ensures Now(ms[..k], key).Some? && !Replaces(ms, key, k) ==>
              Now(ms[..k + 1], key) == Now(ms[..k], key) && Settings(ms[..k + 1], key) == Settings(ms[..k], key)
    ensures Now(ms[..k], key).Some? && Replaces(ms, key, k) ==> Life(ms[..k + 1], key) == []
  {
    assert ms[..k + 1][..k] == ms[..k];
    if ms[k].Called? {
      AppendOne(Ops(ms[..k]), ms[k].op);
      if ms[k].op.key != key {
        OtherKey(Ops(ms[..k]), ms[k].op, key);
      }
    }
  }

  lemma OtherKey(log: seq<Op>, op: Op, key: string)
    requires op.key != key
    ensures Current(log + [op], key) == Current(log, key)
  {
    assert (log + [op])[..|log|] == log;
  }

  /** In one life the polls only grow, and the settings stay. */
  lemma {:induction false} LifeGrows(ms: seq<Moment>, key: string, i: nat, j: nat)
    requires SameLife(ms, key, i, j)
    ensures Now(ms[..j], key) == Now(ms[..i], key) && Settings(ms[..j], key) == Settings(ms[..i], key)
    ensures var a, b := Life(ms[..i], key), Life(ms[..j], key);
            |a| <= |b| && b[..|a|] == a
    decreases j - i
  {
    if i == j {
    } else {
      LifeGrows(ms, key, i, j - 1);
      OneMoment(ms, key, j - 1);
    }
  }

  /** The last moment of a key with a poller: it added a poll to the life, changed nothing,
      or started the life. */
  lemma LifeBefore(ms: seq<Moment>, key: string, k: nat)
    requires 0 < k <= |ms| && Now(ms[..k], key).Some? && Life(ms[..k], key) != []
    ensures Now(ms[..k - 1], key).Some? && !Replaces(ms, key, k - 1)
    ensures Life(ms[..k], key) == Life(ms[..k - 1], key) + if ms[k - 1].Polled? then [ms[k - 1].poll] else []
  {
    OneMoment(ms, key, k - 1);
    CurrentHasLatestGeneration(Ops(ms[..k]) + [Delete(key)], |Ops(ms[..k])|);
    hide Current;
  }

  /** Every prefix of a life was the life at some earlier moment. */
  lemma {:induction false} FindMoment(ms: seq<Moment>, key: string, k: nat, n: nat) returns (m: nat)
    requires k <= |ms| && Now(ms[..k], key).Some? && n <= |Life(ms[..k], key)|
    ensures m <= k && SameLife(ms, key, m, k) && Life(ms[..m], key) == Life(ms[..k], key)[..n]
    decreases k
  {
    var life := Life(ms[..k], key);
    if n == |life| {
      m := k;
      assert life[..n] == life;
    } else {
      assert k > 0 by {
        assert ms[..0] == [];
      }
      LifeBefore(ms, key, k);
      hide Now, Life, Replaces;
      m := FindMoment(ms, key, k - 1, n);
    }
  }

  /** Every poll of a life was made at some moment. */
  lemma {:induction false} FindPoll(ms: seq<Moment>, key: string, j: nat, n: nat) returns (k: nat)
    requires j <= |ms| && Now(ms[..j], key).Some? && n < |Life(ms[..j], key)|
    ensures k < j && ms[k].Polled? && SameLife(ms, key, k + 1, j)
    ensures Life(ms[..k + 1], key) == Life(ms[..j], key)[..n + 1]
    decreases j
  {
    assert j > 0 by {
      assert ms[..0] == [];
    }
    var life := Life(ms[..j], key);
    LifeBefore(ms, key, j);
    hide Now, Life, Replaces;
    if ms[j - 1].Polled? && n == |life| - 1 {
      k := j - 1;
      assert life[..n + 1] == life;
    } else {
      k := FindPoll(ms, key, j - 1, n);
    }
  }

  // ---------------------------------------------------------------- never a recovery

  lemma RecoveryWasNotInTime(ms: seq<Moment>, key: string, k: nat)
    requires k < |ms| && RecoversAt(ms, key, k)
    ensures !ReplacedInTime(ms, key)
  {
    var c, polls := Settings(ms[..k + 1], key), Life(ms[..k + 1], key);
    var b, r := c.consecutiveBreaches, c.consecutiveRecoveries;
    LifeHasPoller(ms[..k + 1], key);
    hide Now, Life, Settings;
    Poller.RecoversIffClearedAfterConfirmed(polls, b, r);
    hide Poller.Run;
    var i, j :| i < j && Poller.Confirmed(polls, i, b) && Poller.Cleared(polls, j, r);
    var p := FindMoment(ms, key, k + 1, i);
    var q := FindMoment(ms, key, k + 1, j);
    LifeGrows(ms, key, p, k + 1);
    LifeGrows(ms, key, q, k + 1);
    if q <= p {
      LifeGrows(ms, key, q, p);
    }
    assert SameLife(ms, key, p, q);
    hide Poller.LastAll, Poller.Successes;
    assert ConfirmedAt(ms, key, p) && ClearedAt(ms, key, q);
  }

  lemma LifeHasPoller(ms: seq<Moment>, key: string)
    requires Life(ms, key) != []
    ensures Now(ms, key).Some?
  {
    hide Current;
    if ms[|ms| - 1].Called? {
      LifeHasPoller(ms[..|ms| - 1], key);
    }
  }

  lemma NotInTimeRecovers(ms: seq<Moment>, key: string, i: nat, j: nat)
    requires i < j <= |ms| && ConfirmedAt(ms, key, i) && SameLife(ms, key, i, j) && ClearedAt(ms, key, j)
    ensures !NeverRecovers(ms, key)
  {
    LifeGrows(ms, key, i, j);
    var c, a, polls := Settings(ms[..j], key), Life(ms[..i], key), Life(ms[..j], key);
    var b, r := c.consecutiveBreaches, c.consecutiveRecoveries;
    hide Now, Life, Settings;
    assert polls[..|polls|] == polls;
    NotBoth(Poller.Successes(polls), b, r);
    assert a != polls;
    assert Poller.Confirmed(polls, |a|, b) && Poller.Cleared(polls, |polls|, r);
    Poller.RecoversIffClearedAfterConfirmed(polls, b, r);
    hide Poller.Run, Poller.LastAll, Poller.Successes;
    var es := Poller.Run(polls, b, r).1;
    var n :| 0 <= n < |es| && es[n] == Poller.Recovery;
    var k := FindPoll(ms, key, j, n);
    LifeGrows(ms, key, k + 1, j);
    Poller.EmissionOfPrefix(polls, n, b, r);
    assert RecoversAt(ms, key, k);
  }

  lemma NotBoth(obs: seq<bool>, b: nat, r: nat)
    requires b >= 1 && r >= 1
    ensures !(Poller.LastAll(obs, b, true) && Poller.LastAll(obs, r, false))
  {
    if Poller.LastAll(obs, b, true) {
      assert obs[|obs| - 1];
    }
  }

  /** A policy's pollers never emit a recovery if and only if after every confirmed breach
      the poller is replaced, by a call with another generation or a deletion, before R clean
      scrapes in a row, or these never come. So none is ever emitted when every confirmed
      breach leads to a switch that is reconciled before the service has recovered. */
  lemma NeverRecoversIffReplacedInTime(ms: seq<Moment>, key: string)
    ensures NeverRecovers(ms, key) <==> ReplacedInTime(ms, key)
  {
    hide RecoversAt, ConfirmedAt, ClearedAt, SameLife;
    if k: nat :| k < |ms| && RecoversAt(ms, key, k) {
      RecoveryWasNotInTime(ms, key, k);
    }
    if i: nat, j: nat :| i < j <= |ms| && ConfirmedAt(ms, key, i) && SameLife(ms, key, i, j) && ClearedAt(ms, key, j) {
      NotInTimeRecovers(ms, key, i, j);
    }
  }
}
