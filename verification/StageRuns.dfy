// base/stage.go, engine/op_union.go: what holds of every interleaving of a stage's actors and consumer.
module StageRuns {
  import opened Stage

  // The steps lead from s to t.
  ghost predicate Runs<V, E>(c: Config<V, E>, s: State<V, E>, steps: seq<Step>, t: State<V, E>)
    decreases |steps|
  {
    if steps == [] then s == t else Enabled(c, s, steps[0]) && Runs(c, Apply(c, s, steps[0]), steps[1..], t)
  }

  ghost predicate Reachable<V, E>(c: Config<V, E>, t: State<V, E>)
  {
    exists steps :: Runs(c, Init(c), steps, t)
  }

  lemma {:induction false} InitOk<V, E>(c: Config<V, E>)
    ensures Inv(c, Init(c))
  {
    var s := Init(c);
    forall i: nat | i < |s.actors| ensures RowsOk(c, s, i) {
      assert Sent(s, i) == [];
    }
  }

  lemma {:induction false} RunKeepsInv<V, E>(c: Config<V, E>, s: State<V, E>, steps: seq<Step>, t: State<V, E>)
    requires Inv(c, s) && Runs(c, s, steps, t)
    ensures Inv(c, t)
    decreases |steps|
  {
    if steps != [] {
      StepKeepsInv(c, s, steps[0]);
      RunKeepsInv(c, Apply(c, s, steps[0]), steps[1..], t);
    }
  }

  lemma {:induction false} ReachableOk<V, E>(c: Config<V, E>, t: State<V, E>)
    requires Reachable(c, t)
    ensures Inv(c, t)
  {
    var steps :| Runs(c, Init(c), steps, t);
    InitOk(c);
    RunKeepsInv(c, Init(c), steps, t);
  }

  // ---------------------------------------------------------------- safety

  // StopCh is closed at most once, exactly when there was an error; the consumer finishes only after every
  // actor's nil, with nothing left in the channel.
  lemma {:induction false} FinishIsLast<V, E>(c: Config<V, E>, t: State<V, E>)
    requires Reachable(c, t)
    ensures t.closes <= 1 && (t.closes == 1 <==> t.err.Some?)
    ensures t.finished ==> t.ch == [] && |t.actors| == |c.scripts| && forall i: nat :: i < |c.scripts| ==> t.actors[i].phase.Gone? && i in t.ended
  {
    ReachableOk(c, t);
    if t.finished {
      AllOfThem(t.ended, |c.scripts|);
      forall i: nat | i < |c.scripts| ensures t.actors[i].phase.Gone? && i in t.ended && NotFrom(t.ch, i) {
        assert EndOk(t, i);
      }
      FromNobody(t.ch, |c.scripts|);
    }
  }

  ghost predicate NotFrom<V>(ch: seq<Msg<V>>, i: nat)
  {
    forall k :: 0 <= k < |ch| ==> ch[k].actor != i
  }

  lemma FromNobody<V>(ch: seq<Msg<V>>, n: nat)
    requires forall k :: 0 <= k < |ch| ==> ch[k].actor < n
    requires forall i: nat :: i < n ==> NotFrom(ch, i)
    ensures ch == []
  {
    var first := if ch == [] then 0 else ch[0].actor;
    assert ch != [] ==> NotFrom(ch, first);
  }

  // A script that ends with yieldErr, as every operator's does.
  ghost predicate Closed<V, E>(script: seq<Op<V, E>>)
  {
    |script| > 0 && !script[|script| - 1].Yield?
  }

  // At the end without an error the consumer got every actor's rows, complete and in order; with one, a
  // prefix of them.
  lemma {:induction false} FinishedRows<V, E>(c: Config<V, E>, t: State<V, E>, i: nat)
    requires Reachable(c, t) && t.finished && i < |c.scripts|
    ensures Prefix(From(t.got, i, |t.got|), Rows(c.scripts[i], |c.scripts[i]|))
    ensures t.err.None? && Closed(c.scripts[i]) ==> From(t.got, i, |t.got|) == Rows(c.scripts[i], |c.scripts[i]|)
  {
    ReachableOk(c, t);
    FinishIsLast(c, t);
    assert RowsOk(c, t, i) && ErrOk(c, t, i);
    assert Sent(t, i) == From(t.got, i, |t.got|);
  }

  // In any state what the consumer has of an actor is a prefix of its rows.
  lemma {:induction false} AlwaysPrefix<V, E>(c: Config<V, E>, t: State<V, E>, i: nat)
    requires Reachable(c, t) && i < |c.scripts|
    ensures Prefix(From(t.got, i, |t.got|), Rows(c.scripts[i], |c.scripts[i]|))
  {
    ReachableOk(c, t);
    assert RowsOk(c, t, i);
    RowsPrefix(c.scripts[i], t.actors[i].pc, |c.scripts[i]|);
    var got, sent, all := From(t.got, i, |t.got|), Sent(t, i), Rows(c.scripts[i], |c.scripts[i]|);
    PrefixOfSent(got, InChannel(t.ch, i), t.actors[i].batch, Rows(c.scripts[i], t.actors[i].pc), all, t.actors[i].err.None?);
  }

  lemma {:induction false} PrefixOfSent<V>(got: seq<V>, inCh: seq<V>, batch: seq<V>, done: seq<V>, all: seq<V>, ok: bool)
    requires Prefix(done, all) && if ok then (got + inCh) + batch == done else Prefix(got + inCh, all)
    ensures Prefix(got, all)
  {
    if ok {
      assert got == ((got + inCh) + batch)[..|got|];
    } else {
      assert got == (got + inCh)[..|got|];
    }
  }

  // The first error is kept.
  lemma {:induction false} FirstErrorStays<V, E>(c: Config<V, E>, s: State<V, E>, steps: seq<Step>, t: State<V, E>)
    requires Runs(c, s, steps, t) && s.err.Some?
    ensures t.err == s.err && t.closes == s.closes
    decreases |steps|
  {
    if steps != [] {
      FirstErrorStays(c, Apply(c, s, steps[0]), steps[1..], t);
    }
  }

  // One of the calls so far reported this error.
  ghost predicate Reported<V, E>(c: Config<V, E>, s: State<V, E>, e: E)
  {
    exists i: nat, k: nat :: ReportedBy(c, s, e, i, k)
  }

  ghost predicate ReportedBy<V, E>(c: Config<V, E>, s: State<V, E>, e: E, i: nat, k: nat)
  {
    i < |s.actors| == |c.scripts| && k < s.actors[i].pc <= |c.scripts[i]| && c.scripts[i][k] == Fail(e)
  }

  lemma {:induction false} StepAdvances<V, E>(c: Config<V, E>, s: State<V, E>, step: Step, i: nat)
    requires Inv(c, s) && Enabled(c, s, step) && i < |s.actors|
    ensures var t := Apply(c, s, step);
            |t.actors| == |s.actors| == |c.scripts| && s.actors[i].pc <= t.actors[i].pc <= |c.scripts[i]|
  {
    assert RowsOk(c, s, i) && ErrOk(c, s, i);
  }

  // A step that sets the error executes a Fail with it.
  lemma {:induction false} ErrorIsReported<V, E>(c: Config<V, E>, s: State<V, E>, step: Step)
    requires Inv(c, s) && Enabled(c, s, step) && s.err.None? && Apply(c, s, step).err.Some?
    ensures Reported(c, Apply(c, s, step), Apply(c, s, step).err.value)
  {
    var t := Apply(c, s, step);
    StepAdvances(c, s, step, step.i);
    assert ReportedBy(c, t, t.err.value, step.i, s.actors[step.i].pc);
  }

  lemma {:induction false} StepKeepsReported<V, E>(c: Config<V, E>, s: State<V, E>, step: Step)
    requires Inv(c, s) && Enabled(c, s, step) && (s.err.Some? ==> Reported(c, s, s.err.value))
    ensures var t := Apply(c, s, step); t.err.Some? ==> Reported(c, t, t.err.value)
  {
    var t := Apply(c, s, step);
    if s.err.Some? {
      var i: nat, k: nat :| ReportedBy(c, s, s.err.value, i, k);
      StepAdvances(c, s, step, i);
      assert ReportedBy(c, t, s.err.value, i, k);
    } else if t.err.Some? {
      ErrorIsReported(c, s, step);
    }
  }

  lemma {:induction false} RunKeepsReported<V, E>(c: Config<V, E>, s: State<V, E>, steps: seq<Step>, t: State<V, E>)
    requires Inv(c, s) && Runs(c, s, steps, t) && (s.err.Some? ==> Reported(c, s, s.err.value))
    ensures t.err.Some? ==> Reported(c, t, t.err.value)
    decreases |steps|
  {
    if steps != [] {
      StepKeepsInv(c, s, steps[0]);
      StepKeepsReported(c, s, steps[0]);
      RunKeepsReported(c, Apply(c, s, steps[0]), steps[1..], t);
    }
  }

  // A finished stage has an error exactly when some actor reported one, and it is one of those.
  lemma {:induction false} FinishedError<V, E>(c: Config<V, E>, t: State<V, E>)
    requires Reachable(c, t) && t.finished
    ensures t.err.None? <==> forall i, k :: 0 <= i < |c.scripts| && 0 <= k < |c.scripts[i]| ==> !c.scripts[i][k].Fail?
    ensures t.err.Some? ==> exists i, k :: 0 <= i < |c.scripts| && 0 <= k < |c.scripts[i]| && c.scripts[i][k] == Fail(t.err.value)
  {
    ReachableOk(c, t);
    FinishIsLast(c, t);
    var steps :| Runs(c, Init(c), steps, t);
    InitOk(c);
    RunKeepsReported(c, Init(c), steps, t);
    forall i: nat | i < |c.scripts| ensures t.actors[i].pc == |c.scripts[i]| && ErrOk(c, t, i) {
      assert RowsOk(c, t, i) && ErrOk(c, t, i);
    }
    if t.err.Some? {
      var i: nat, k: nat :| ReportedBy(c, t, t.err.value, i, k);
      assert c.scripts[i][k] == Fail(t.err.value);
    }
  }

  // ---------------------------------------------------------------- progress

  // While the consumer has not finished, something can happen.
  lemma {:induction false} NoDeadlock<V, E>(c: Config<V, E>, t: State<V, E>) returns (step: Step)
    requires Reachable(c, t) && !t.finished
    ensures Enabled(c, t, step)
  {
    ReachableOk(c, t);
    Smaller(t.ready, Below(|t.actors|));
    Smaller(t.ended, Below(|t.actors|));
    if t.numReady < |c.scripts| {
      var i := Absent(t.ready, |c.scripts|);
      assert EndOk(t, i);
      return Ready(i);
    }
    if t.numDone == |c.scripts| {
      return Finish;
    }
    if t.ch != [] {
      return Receive;
    }
    AllOfThem(t.ready, |c.scripts|);
    var i := Absent(t.ended, |c.scripts|);
    assert EndOk(t, i) && RowsOk(c, t, i);
    if t.actors[i].phase.Sending? {
      return Send(i);
    }
    step := if t.actors[i].pc < |c.scripts[i]| then Call(i) else SendEnd(i);
  }

  lemma {:induction false} Absent(a: set<nat>, n: nat) returns (i: nat)
    requires |a| < n && forall i :: i in a ==> i < n
    ensures i < n && i !in a
  {
    if forall i: nat :: i < n ==> i in a {
      assert Below(n) <= a;
      Smaller(Below(n), a);
    }
    i :| i < n && i !in a;
  }

  function Weight<V, E>(script: seq<Op<V, E>>, a: Actor<V, E>): nat
  {
    var left := if a.pc <= |script| then |script| - a.pc else 0;
    4 * left + match a.phase case Waiting => 3 case Running => 2 case Sending => 4 case Gone => 0
  }

  function Weights<V, E>(c: Config<V, E>, actors: seq<Actor<V, E>>, n: nat): nat
    requires n <= |actors| == |c.scripts|
  {
    if n == 0 then 0 else Weights(c, actors, n - 1) + Weight(c.scripts[n - 1], actors[n - 1])
  }

  // How many steps are left at most.
  function Measure<V, E>(c: Config<V, E>, s: State<V, E>): nat
    requires |s.actors| == |c.scripts|
  {
    Weights(c, s.actors, |s.actors|) + |s.ch| + (if s.finished then 0 else 1)
  }

  lemma {:induction false} WeightsMove<V, E>(c: Config<V, E>, actors: seq<Actor<V, E>>, i: nat, a: Actor<V, E>, n: nat)
    requires n <= |actors| == |c.scripts| && i < |actors|
    ensures Weights(c, actors[i := a], n) ==
            Weights(c, actors, n) + (if i < n then Weight(c.scripts[i], a) - Weight(c.scripts[i], actors[i]) else 0)
    decreases n
  {
    if n > 0 {
      WeightsMove(c, actors, i, a, n - 1);
    }
  }

  // A step replaces at most one actor, by a lighter one.
  lemma {:induction false} LighterActor<V, E>(c: Config<V, E>, s: State<V, E>, t: State<V, E>, i: nat, a: Actor<V, E>)
    requires |s.actors| == |c.scripts| && i < |s.actors| && t.actors == s.actors[i := a] && t.finished == s.finished
    requires Weight(c.scripts[i], a) + |t.ch| < Weight(c.scripts[i], s.actors[i]) + |s.ch|
    ensures Measure(c, t) < Measure(c, s)
  {
    WeightsMove(c, s.actors, i, a, |s.actors|);
  }

  lemma {:induction false} StepLightens<V, E>(c: Config<V, E>, s: State<V, E>, step: Step)
    requires Inv(c, s) && Enabled(c, s, step) && !step.Receive? && !step.Finish?
    ensures var t, i := Apply(c, s, step), step.i;
            && i < |s.actors| == |t.actors| == |c.scripts| && t.actors == s.actors[i := t.actors[i]] && t.finished == s.finished
            && Weight(c.scripts[i], t.actors[i]) + |t.ch| < Weight(c.scripts[i], s.actors[i]) + |s.ch|
  {
    assert RowsOk(c, s, step.i);
  }

  lemma {:induction false} StepCounts<V, E>(c: Config<V, E>, s: State<V, E>, step: Step)
    requires Inv(c, s) && Enabled(c, s, step)
    ensures |Apply(c, s, step).actors| == |c.scripts| && Measure(c, Apply(c, s, step)) < Measure(c, s)
  {
    var t := Apply(c, s, step);
    if step.Receive? || step.Finish? {
      assert t.actors == s.actors;
    } else {
      StepLightens(c, s, step);
      LighterActor(c, s, t, step.i, t.actors[step.i]);
    }
  }

  // No interleaving goes on for ever: together with NoDeadlock, every one ends with the consumer finished.
  lemma {:induction false} RunsAreBounded<V, E>(c: Config<V, E>, s: State<V, E>, steps: seq<Step>, t: State<V, E>)
    requires Inv(c, s) && Runs(c, s, steps, t)
    ensures |steps| <= Measure(c, s)
    decreases |steps|
  {
    if steps != [] {
      StepKeepsInv(c, s, steps[0]);
      StepCounts(c, s, steps[0]);
      RunsAreBounded(c, Apply(c, s, steps[0]), steps[1..], t);
    }
  }
}
