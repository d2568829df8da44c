// base/stage_cursor.go: one producer's ordered stream, pulled in batches, as a transition system.
module StageCursor {
  import opened Stage

  // The producer runs its actor's calls, may block in a flush, then flushes what is left and exits.
  datatype Producer = Producing | Flushing | LastFlush | Exited

  datatype Cursor<V, E> = Cursor(
    phase: Producer, pc: nat, batch: seq<V>, stop: bool,
    ch: seq<seq<V>>, done: bool, err: Opt<E>, pulled: seq<V>)

  // The consumer's NextBatch and Stop come in any order, at any time.
  datatype Move = Work | Offer | GiveUp | Leave | NextBatch | Stop

  datatype Source<V, E> = Source(cap: nat, batchSize: int, script: seq<Op<V, E>>)

  function Init<V, E>(): Cursor<V, E>
  {
    Cursor(Producing, 0, [], false, [], false, None, [])
  }

  function BatchSize<V, E>(c: Source<V, E>): int
  {
    if c.batchSize < 1 then 1 else c.batchSize
  }

  predicate Blocked<V, E>(s: Cursor<V, E>)
  {
    s.phase.Flushing? || (s.phase.LastFlush? && s.batch != [])
  }

  predicate Enabled<V, E>(c: Source<V, E>, s: Cursor<V, E>, step: Move)
  {
    match step
    case Work => s.phase.Producing?
    // A full buffer blocks; an unbuffered channel hands over to a NextBatch that waits.
    case Offer => Blocked(s) && (c.cap == 0 || |s.ch| < c.cap)
    case GiveUp => Blocked(s) && s.done
    case Leave => s.phase.LastFlush? && s.batch == []
    case NextBatch => s.ch != []
    case Stop => true
  }

  function Called<V, E>(c: Source<V, E>, s: Cursor<V, E>): Cursor<V, E>
  {
    if s.pc >= |c.script| then s.(phase := LastFlush)
    else
      var s' := s.(pc := s.pc + 1);
      match c.script[s.pc]
      case Yield(row) =>
        if s.stop then s'
        else
          var b := s'.(batch := s.batch + [row]);
          if |b.batch| >= BatchSize(c) then b.(phase := Flushing) else b
      case Flush => s'
      case Fail(e) => s'.(err := if s.err.None? then Some(e) else s.err, stop := true)
  }

  function Apply<V, E>(c: Source<V, E>, s: Cursor<V, E>, step: Move): Cursor<V, E>
    requires Enabled(c, s, step)
  {
    match step
    case Work => Called(c, s)
    case Offer =>
      var s' := s.(batch := [], phase := if s.phase.Flushing? then Producing else LastFlush);
      if c.cap == 0 then s'.(pulled := s.pulled + s.batch) else s'.(ch := s.ch + [s.batch])
    // The batch stays; after the last flush nobody looks at it again.
    case GiveUp => s.(stop := true, phase := if s.phase.Flushing? then Producing else Exited)
    case Leave => s.(phase := Exited)
    case NextBatch => s.(ch := s.ch[1..], pulled := s.pulled + s.ch[0])
    case Stop => s.(done := true)
  }

  function Concat<V>(ch: seq<seq<V>>): seq<V>
  {
    if ch == [] then [] else ch[0] + Concat(ch[1..])
  }

  lemma {:induction false} ConcatAppends<V>(ch: seq<seq<V>>, b: seq<V>)
    ensures Concat(ch + [b]) == Concat(ch) + b
    decreases |ch|
  {
    if ch == [] {
      assert ch + [b] == [b] && [b][1..] == [];
      assert Concat([b]) == b + Concat([]);
    } else {
      assert (ch + [b])[1..] == ch[1..] + [b];
      ConcatAppends(ch[1..], b);
    }
  }

  // The first of the first n calls that reports an error, or n.
  function FailAt<V, E>(script: seq<Op<V, E>>, n: nat): (f: nat)
    requires n <= |script|
    ensures f <= n && (f < n ==> script[f].Fail?) && forall k :: 0 <= k < f ==> !script[k].Fail?
  {
    if n == 0 then 0
    else if FailAt(script, n - 1) < n - 1 || script[n - 1].Fail? then FailAt(script, n - 1)
    else n
  }

  // Pulled, in the channel, or in the batch.
  function Produced<V, E>(s: Cursor<V, E>): seq<V>
  {
    s.pulled + Concat(s.ch) + s.batch
  }

  ghost predicate Inv<V, E>(c: Source<V, E>, s: Cursor<V, E>)
  {
    && s.pc <= |c.script| && |s.ch| <= c.cap
    && Prefix(Produced(s), Rows(c.script, FailAt(c.script, s.pc)))
    && s.err == (if FailAt(c.script, s.pc) < s.pc then Some(c.script[FailAt(c.script, s.pc)].e) else None)
    && (s.err.Some? ==> s.stop)
    && (!s.stop ==> Produced(s) == Rows(c.script, s.pc))
    && (s.phase.LastFlush? || s.phase.Exited? ==> s.pc == |c.script|)
    && (s.phase.Flushing? ==> s.batch != [] && !s.stop)
    && (s.stop ==> s.done || s.err.Some?)
    && (s.phase.Exited? ==> s.batch == [] || s.done)
  }

  lemma {:induction false} CallKeepsInv<V, E>(c: Source<V, E>, s: Cursor<V, E>)
    requires Inv(c, s) && s.phase.Producing?
    ensures Inv(c, Called(c, s))
  {
    if s.pc < |c.script| {
      RowsPrefix(c.script, FailAt(c.script, s.pc), FailAt(c.script, s.pc + 1));
      if c.script[s.pc].Yield? && !s.stop {
        assert s.pulled + Concat(s.ch) + (s.batch + [c.script[s.pc].row]) == Produced(s) + [c.script[s.pc].row];
      }
    }
  }

  lemma {:induction false} StepKeepsInv<V, E>(c: Source<V, E>, s: Cursor<V, E>, step: Move)
    requires Inv(c, s) && Enabled(c, s, step)
    ensures Inv(c, Apply(c, s, step))
  {
    match step
    case Work => CallKeepsInv(c, s);
    case Offer =>
      if c.cap == 0 {
        assert (s.pulled + s.batch) + Concat([]) + [] == Produced(s);
      } else {
        ConcatAppends(s.ch, s.batch);
        assert s.pulled + Concat(s.ch + [s.batch]) + [] == Produced(s);
      }
    case NextBatch =>
      assert (s.pulled + s.ch[0]) + Concat(s.ch[1..]) + s.batch == Produced(s);
    case _ =>
      assert Produced(Apply(c, s, step)) == Produced(s);
  }

  ghost predicate Runs<V, E>(c: Source<V, E>, s: Cursor<V, E>, steps: seq<Move>, t: Cursor<V, E>)
    decreases |steps|
  {
    if steps == [] then s == t else Enabled(c, s, steps[0]) && Runs(c, Apply(c, s, steps[0]), steps[1..], t)
  }

  lemma {:induction false} RunKeepsInv<V, E>(c: Source<V, E>, s: Cursor<V, E>, steps: seq<Move>, t: Cursor<V, E>)
    requires Inv(c, s) && Runs(c, s, steps, t)
    ensures Inv(c, t)
    decreases |steps|
  {
    if steps != [] {
      StepKeepsInv(c, s, steps[0]);
      RunKeepsInv(c, Apply(c, s, steps[0]), steps[1..], t);
    }
  }

  // Whatever the interleaving, what the consumer pulled is a prefix of the producer's rows in order; all of
  // them once the stream has ended without a Stop or an error.
  lemma {:induction false} PullsInOrder<V, E>(c: Source<V, E>, steps: seq<Move>, t: Cursor<V, E>)
    requires Runs(c, Init(), steps, t)
    ensures Prefix(t.pulled, Rows(c.script, |c.script|))
    ensures t.phase.Exited? && t.ch == [] && !t.done && t.err.None? ==> t.pulled == Rows(c.script, |c.script|)
  {
    assert Produced(Init<V, E>()) == [];
    RunKeepsInv(c, Init(), steps, t);
    RowsPrefix(c.script, FailAt(c.script, t.pc), |c.script|);
    assert t.pulled == Produced(t)[..|t.pulled|];
  }

  // What Wait returns once the producer has exited: the first error that its actor reported, or none. No row
  // that was yielded after it is pulled.
  lemma {:induction false} WaitReturnsFirstError<V, E>(c: Source<V, E>, steps: seq<Move>, t: Cursor<V, E>)
    requires Runs(c, Init(), steps, t) && t.phase.Exited?
    ensures t.err.None? <==> forall k :: 0 <= k < |c.script| ==> !c.script[k].Fail?
    ensures t.err.Some? ==> exists f :: 0 <= f < |c.script| && c.script[f] == Fail(t.err.value) &&
                              (forall k :: 0 <= k < f ==> !c.script[k].Fail?) && Prefix(t.pulled, Rows(c.script, f))
  {
    assert Produced(Init<V, E>()) == [];
    RunKeepsInv(c, Init(), steps, t);
    assert t.pulled == Produced(t)[..|t.pulled|];
    var f := FailAt(c.script, |c.script|);
    if f < |c.script| {
      assert c.script[f] == Fail(c.script[f].e);
    }
  }

  // Once told to stop, the producer needs nobody to get to its exit: it can always go on, and has only so
  // many steps left, so Wait returns.
  function Left<V, E>(c: Source<V, E>, s: Cursor<V, E>): nat
  {
    var calls := if s.pc <= |c.script| then |c.script| - s.pc else 0;
    match s.phase
    case Producing => 3 * calls + 4
    case Flushing => 3 * calls + 5
    case LastFlush => if s.batch == [] then 1 else 2
    case Exited => 0
  }

  lemma {:induction false} StoppedProducerExits<V, E>(c: Source<V, E>, steps: seq<Move>, t: Cursor<V, E>) returns (step: Move)
    requires Runs(c, Init(), steps, t) && t.done && !t.phase.Exited?
    ensures Enabled(c, t, step) && !step.NextBatch? && !step.Stop? && Left(c, Apply(c, t, step)) < Left(c, t)
    ensures forall other :: Enabled(c, t, other) && !other.NextBatch? && !other.Stop? ==> Left(c, Apply(c, t, other)) < Left(c, t)
  {
    assert Produced(Init<V, E>()) == [];
    RunKeepsInv(c, Init(), steps, t);
    step := match t.phase
      case Producing => Work
      case Flushing => GiveUp
      case LastFlush => if t.batch == [] then Leave else GiveUp
      case Exited => Stop;
  }
}
