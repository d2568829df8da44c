// base/stage.go: actors feeding one channel, the stop signal, the nil end tokens and the consumer, as a
// transition system over their atomic steps.
module Stage {
  datatype Opt<T> = None | Some(value: T)

  // What an actor's function does, in order: yieldVals(row), yieldErr(nil), yieldErr(err).
  datatype Op<V, E> = Yield(row: V) | Flush | Fail(e: E)

  // The channel's capacity in batches, the batch size (unbounded if not positive), and each actor's calls.
  datatype Config<V, E> = Config(cap: nat, batchSize: int, scripts: seq<seq<Op<V, E>>>)

  // Waiting to signal readiness; running its function; blocked in batchSend's select; gone past its nil.
  datatype Phase = Waiting | Running | Sending | Gone

  datatype Actor<V, E> = Actor(phase: Phase, pc: nat, batch: seq<V>, err: Opt<E>)

  // A batch, or nil; with the sending actor.
  datatype Msg<V> = Batch(actor: nat, rows: seq<V>) | End(actor: nat)

  datatype Got<V> = Got(actor: nat, row: V)

  datatype State<V, E> = State(
    actors: seq<Actor<V, E>>, ch: seq<Msg<V>>,
    err: Opt<E>, stopped: bool, closes: nat,
    ready: set<nat>, numReady: nat, ended: set<nat>, numDone: nat, got: seq<Got<V>>, finished: bool)

  datatype Step = Ready(i: nat) | Call(i: nat) | Send(i: nat) | Cancel(i: nat) | SendEnd(i: nat) | Receive | Finish

  function Init<V, E>(c: Config<V, E>): State<V, E>
  {
    State(seq(|c.scripts|, i => Actor(Waiting, 0, [], None)), [], None, false, 0, {}, 0, {}, 0, [], false)
  }

  // The consumer is blocked in its receive.
  predicate Receiving<V, E>(c: Config<V, E>, s: State<V, E>)
  {
    s.numReady == |c.scripts| && s.numDone < |c.scripts|
  }

  // A send can happen: there is room, or, on an unbuffered channel, the consumer is there to take it.
  predicate CanSend<V, E>(c: Config<V, E>, s: State<V, E>)
  {
    |s.ch| < c.cap || (c.cap == 0 && Receiving(c, s))
  }

  predicate Enabled<V, E>(c: Config<V, E>, s: State<V, E>, step: Step)
  {
    match step
    case Ready(i) => i < |s.actors| && s.actors[i].phase.Waiting? && s.numReady < |c.scripts|
    case Call(i) => i < |s.actors| == |c.scripts| && s.actors[i].phase.Running? && s.actors[i].pc < |c.scripts[i]|
    case Send(i) => i < |s.actors| && s.actors[i].phase.Sending? && CanSend(c, s)
    case Cancel(i) => i < |s.actors| && s.actors[i].phase.Sending? && s.stopped
    case SendEnd(i) => i < |s.actors| == |c.scripts| && s.actors[i].phase.Running? && s.actors[i].pc == |c.scripts[i]| && CanSend(c, s)
    case Receive => Receiving(c, s) && s.ch != []
    case Finish => s.numReady == |c.scripts| && s.numDone == |c.scripts| && !s.finished
  }

  function Tag<V>(i: nat, rows: seq<V>): (r: seq<Got<V>>)
    ensures |r| == |rows| && forall k :: 0 <= k < |rows| ==> r[k] == Got(i, rows[k])
  {
    seq(|rows|, k requires 0 <= k < |rows| => Got(i, rows[k]))
  }

  // The consumer takes a message: it yields a batch's rows, and counts a nil.
  function Take<V, E>(s: State<V, E>, m: Msg<V>): State<V, E>
  {
    match m
    case Batch(i, rows) => s.(got := s.got + Tag(i, rows))
    case End(i) => s.(ended := s.ended + {i}, numDone := s.numDone + 1)
  }

  function Put<V, E>(c: Config<V, E>, s: State<V, E>, m: Msg<V>): State<V, E>
  {
    if c.cap == 0 then Take(s, m) else s.(ch := s.ch + [m])
  }

  // One call of an actor's function: yieldVals collects, and a full batch or yieldErr(nil) is sent. An
  // actor that has an error ignores further rows.
  function CalledActor<V, E>(batchSize: int, a: Actor<V, E>, op: Op<V, E>): Actor<V, E>
  {
    match op
    case Yield(row) =>
      if a.err.Some? then a.(pc := a.pc + 1)
      else
        var b := a.(pc := a.pc + 1, batch := a.batch + [row]);
        if 0 < batchSize <= |b.batch| then b.(phase := Sending) else b
    case Flush => a.(pc := a.pc + 1, phase := if a.err.None? && a.batch != [] then Sending else a.phase)
    case Fail(e) => a.(pc := a.pc + 1, err := Some(e))
  }

  // The first error of all is kept and closes StopCh.
  function Called<V, E>(c: Config<V, E>, s: State<V, E>, i: nat, op: Op<V, E>): State<V, E>
    requires i < |s.actors|
  {
    var s' := s.(actors := s.actors[i := CalledActor(c.batchSize, s.actors[i], op)]);
    if !op.Fail? || s.err.Some? then s'
    else if s.stopped then s'.(err := Some(op.e))
    else s'.(err := Some(op.e), stopped := true, closes := s.closes + 1)
  }

  function Apply<V, E>(c: Config<V, E>, s: State<V, E>, step: Step): State<V, E>
    requires Enabled(c, s, step)
  {
    match step
    case Ready(i) => s.(actors := s.actors[i := s.actors[i].(phase := Running)], ready := s.ready + {i}, numReady := s.numReady + 1)
    case Call(i) => Called(c, s, i, c.scripts[i][s.actors[i].pc])
    case Send(i) =>
      Put(c, s.(actors := s.actors[i := s.actors[i].(phase := Running, batch := [])]), Batch(i, s.actors[i].batch))
    case Cancel(i) =>
      var a := s.actors[i];
      s.(actors := s.actors[i := a.(phase := Running, batch := [], err := if a.err.None? then s.err else a.err)])
    case SendEnd(i) =>
      Put(c, s.(actors := s.actors[i := s.actors[i].(phase := Gone)]), End(i))
    case Receive => Take(s.(ch := s.ch[1..]), s.ch[0])
    case Finish => s.(finished := true)
  }

  // ---------------------------------------------------------------- what an actor has delivered

  // The rows that a run of calls yields.
  function Rows<V, E>(script: seq<Op<V, E>>, n: nat): seq<V>
    requires n <= |script|
  {
    if n == 0 then [] else Rows(script, n - 1) + (if script[n - 1].Yield? then [script[n - 1].row] else [])
  }

  function From<V>(got: seq<Got<V>>, i: nat, n: nat): seq<V>
    requires n <= |got|
  {
    if n == 0 then [] else From(got, i, n - 1) + (if got[n - 1].actor == i then [got[n - 1].row] else [])
  }

  function InChannel<V>(ch: seq<Msg<V>>, i: nat): seq<V>
  {
    if ch == [] then [] else RowsIn(ch[0], i) + InChannel(ch[1..], i)
  }

  // What actor i has sent: received already, or still in the channel.
  function Sent<V, E>(s: State<V, E>, i: nat): seq<V>
  {
    From(s.got, i, |s.got|) + InChannel(s.ch, i)
  }

  ghost predicate Prefix<T>(a: seq<T>, b: seq<T>)
  {
    |a| <= |b| && a == b[..|a|]
  }

  lemma {:induction false} FromGrows<V>(got: seq<Got<V>>, more: seq<Got<V>>, i: nat, n: nat)
    requires n <= |got|
    ensures From(got + more, i, n) == From(got, i, n)
    decreases n
  {
    if n > 0 {
      FromGrows(got, more, i, n - 1);
    }
  }

  lemma {:induction false} FromTagged<V>(got: seq<Got<V>>, i: nat, f: nat, rows: seq<V>, k: nat)
    requires k <= |rows|
    ensures From(got + Tag(f, rows), i, |got| + k) == From(got, i, |got|) + (if f == i then rows[..k] else [])
    decreases k
  {
    if k == 0 {
      FromGrows(got, Tag(f, rows), i, |got|);
    } else {
      FromTagged(got, i, f, rows, k - 1);
      assert (got + Tag(f, rows))[|got| + k - 1] == Got(f, rows[k - 1]);
      assert rows[..k] == rows[..k - 1] + [rows[k - 1]];
    }
  }

  lemma Assoc<T>(a: seq<T>, b: seq<T>, c: seq<T>)
    ensures (a + b) + c == a + (b + c)
  {
  }

  function RowsIn<V>(m: Msg<V>, i: nat): seq<V>
  {
    if m.Batch? && m.actor == i then m.rows else []
  }

  lemma {:induction false} InChannelAppends<V>(ch: seq<Msg<V>>, m: Msg<V>, i: nat)
    ensures InChannel(ch + [m], i) == InChannel(ch, i) + RowsIn(m, i)
    decreases |ch|
  {
    if ch == [] {
      assert ch + [m] == [m] && [m][1..] == [];
      assert InChannel([m], i) == RowsIn(m, i) + InChannel([], i);
    } else {
      var longer, rest := ch + [m], ch[1..];
      assert longer[0] == ch[0] && longer[1..] == rest + [m];
      InChannelAppends(rest, m, i);
      Assoc(RowsIn(ch[0], i), InChannel(rest, i), RowsIn(m, i));
    }
  }

  // Receiving moves rows from the channel to the consumer and keeps what was sent.
  lemma {:induction false} TakeKeepsSent<V, E>(s: State<V, E>, i: nat)
    requires s.ch != []
    ensures Sent(Take(s.(ch := s.ch[1..]), s.ch[0]), i) == Sent(s, i)
  {
    var m := s.ch[0];
    if m.Batch? {
      FromTagged(s.got, i, m.actor, m.rows, |m.rows|);
      assert m.rows[..|m.rows|] == m.rows;
    }
  }

  lemma {:induction false} PutSends<V, E>(c: Config<V, E>, s: State<V, E>, m: Msg<V>, i: nat)
    requires c.cap == 0 ==> s.ch == []
    ensures Sent(Put(c, s, m), i) == Sent(s, i) + (if m.Batch? && m.actor == i then m.rows else [])
  {
    if c.cap == 0 {
      if m.Batch? {
        FromTagged(s.got, i, m.actor, m.rows, |m.rows|);
        assert m.rows[..|m.rows|] == m.rows;
      }
    } else {
      InChannelAppends(s.ch, m, i);
    }
  }

  // ---------------------------------------------------------------- the invariant

  // Every row that an actor yielded before an error of its own or a sibling's was sent or is in its batch.
  ghost predicate ActorOk<V, E>(script: seq<Op<V, E>>, a: Actor<V, E>, sent: seq<V>)
  {
    && a.pc <= |script|
    && (a.err.None? ==> sent + a.batch == Rows(script, a.pc))
    && (a.err.Some? ==> Prefix(sent, Rows(script, |script|)))
    && (a.phase.Sending? ==> a.batch != [] && a.err.None?)
    && (a.phase.Gone? ==> a.pc == |script|)
    && (a.err.None? && a.pc > 0 && script[a.pc - 1].Flush? && !a.phase.Sending? ==> a.batch == [])
  }

  ghost predicate RowsOk<V, E>(c: Config<V, E>, s: State<V, E>, i: nat)
  {
    i < |s.actors| == |c.scripts| && ActorOk(c.scripts[i], s.actors[i], Sent(s, i))
  }

  // Without an error on the stage, nobody failed and nobody was told to stop.
  ghost predicate ErrOk<V, E>(c: Config<V, E>, s: State<V, E>, i: nat)
  {
    i < |s.actors| == |c.scripts| && s.actors[i].pc <= |c.scripts[i]|
    && (s.err.None? ==> s.actors[i].err.None? && forall k :: 0 <= k < s.actors[i].pc ==> !c.scripts[i][k].Fail?)
  }

  // An actor is gone once its nil was sent; nothing of it comes after the nil.
  ghost predicate EndInChannel<V>(ch: seq<Msg<V>>, ended: set<nat>, gone: bool, i: nat)
  {
    && (gone <==> i in ended || End(i) in ch)
    && (i in ended ==> forall k :: 0 <= k < |ch| ==> ch[k].actor != i)
    && (forall k, l :: 0 <= k < l < |ch| && ch[k] == End(i) ==> ch[l].actor != i)
  }

  ghost predicate EndOk<V, E>(s: State<V, E>, i: nat)
  {
    i < |s.actors|
    && (i in s.ready <==> !s.actors[i].phase.Waiting?)
    && EndInChannel(s.ch, s.ended, s.actors[i].phase.Gone?, i)
  }

  ghost predicate Counts<V, E>(c: Config<V, E>, s: State<V, E>)
  {
    && |s.actors| == |c.scripts|
    && s.numReady == |s.ready| && (forall i :: i in s.ready ==> i < |s.actors|)
    && s.numDone == |s.ended| && (forall i :: i in s.ended ==> i < |s.actors|)
    && (forall k :: 0 <= k < |s.ch| ==> s.ch[k].actor < |s.actors|)
    && |s.ch| <= c.cap
    && (s.stopped <==> s.err.Some?) && s.closes == (if s.stopped then 1 else 0)
    && (s.finished ==> s.numDone == |c.scripts|)
  }

  ghost predicate Inv<V, E>(c: Config<V, E>, s: State<V, E>)
  {
    && Counts(c, s)
    && (forall i: nat :: i < |s.actors| ==> RowsOk(c, s, i))
    && (forall i: nat :: i < |s.actors| ==> ErrOk(c, s, i))
    && (forall i: nat :: i < |s.actors| ==> EndOk(s, i))
  }

  lemma {:induction false} RowsPrefix<V, E>(script: seq<Op<V, E>>, m: nat, n: nat)
    requires m <= n <= |script|
    ensures Prefix(Rows(script, m), Rows(script, n))
    decreases n
  {
    if m < n {
      RowsPrefix(script, m, n - 1);
    }
  }

  // ---------------------------------------------------------------- every step keeps it

  lemma {:induction false} CallKeepsActor<V, E>(batchSize: int, script: seq<Op<V, E>>, a: Actor<V, E>, sent: seq<V>)
    requires ActorOk(script, a, sent) && a.phase.Running? && a.pc < |script|
    ensures ActorOk(script, CalledActor(batchSize, a, script[a.pc]), sent)
  {
    RowsPrefix(script, a.pc, |script|);
    if script[a.pc].Yield? {
      assert sent + (a.batch + [script[a.pc].row]) == (sent + a.batch) + [script[a.pc].row];
    }
  }

  lemma {:induction false} CallKeepsRows<V, E>(c: Config<V, E>, s: State<V, E>, j: nat, i: nat)
    requires Inv(c, s) && Enabled(c, s, Call(j)) && i < |s.actors|
    ensures RowsOk(c, Apply(c, s, Call(j)), i)
  {
    assert RowsOk(c, s, i);
    assert Sent(Apply(c, s, Call(j)), i) == Sent(s, i);
    if i == j {
      CallKeepsActor(c.batchSize, c.scripts[i], s.actors[i], Sent(s, i));
    }
  }

  lemma {:induction false} SentKeepsActor<V, E>(script: seq<Op<V, E>>, a: Actor<V, E>, sent: seq<V>)
    requires ActorOk(script, a, sent) && a.phase.Sending?
    ensures ActorOk(script, a.(phase := Running, batch := []), sent + a.batch)
  {
    assert (sent + a.batch) + [] == sent + a.batch;
  }

  lemma {:induction false} SendKeepsRows<V, E>(c: Config<V, E>, s: State<V, E>, j: nat, i: nat)
    requires Inv(c, s) && Enabled(c, s, Send(j)) && i < |s.actors|
    ensures RowsOk(c, Apply(c, s, Send(j)), i)
  {
    assert RowsOk(c, s, i) && RowsOk(c, s, j);
    var t := s.(actors := s.actors[j := s.actors[j].(phase := Running, batch := [])]);
    PutSends(c, t, Batch(j, s.actors[j].batch), i);
    assert Sent(t, i) == Sent(s, i);
    if i == j {
      SentKeepsActor(c.scripts[i], s.actors[i], Sent(s, i));
    }
  }

  lemma {:induction false} CancelKeepsRows<V, E>(c: Config<V, E>, s: State<V, E>, j: nat, i: nat)
    requires Inv(c, s) && Enabled(c, s, Cancel(j)) && i < |s.actors|
    ensures RowsOk(c, Apply(c, s, Cancel(j)), i)
  {
    assert RowsOk(c, s, i) && RowsOk(c, s, j);
    var s' := Apply(c, s, Cancel(j));
    assert Sent(s', i) == Sent(s, i);
    if i == j {
      RowsPrefix(c.scripts[i], s.actors[i].pc, |c.scripts[i]|);
    }
  }

  lemma {:induction false} EndKeepsRows<V, E>(c: Config<V, E>, s: State<V, E>, j: nat, i: nat)
    requires Inv(c, s) && Enabled(c, s, SendEnd(j)) && i < |s.actors|
    ensures RowsOk(c, Apply(c, s, SendEnd(j)), i)
  {
    assert RowsOk(c, s, i) && RowsOk(c, s, j);
    var t := s.(actors := s.actors[j := s.actors[j].(phase := Gone)]);
    PutSends(c, t, End(j), i);
    assert Sent(t, i) == Sent(s, i);
  }

  lemma {:induction false} StepKeepsRows<V, E>(c: Config<V, E>, s: State<V, E>, step: Step, i: nat)
    requires Inv(c, s) && Enabled(c, s, step) && i < |s.actors|
    ensures RowsOk(c, Apply(c, s, step), i)
  {
    assert RowsOk(c, s, i);
    match step
    case Call(j) => CallKeepsRows(c, s, j, i);
    case Send(j) => SendKeepsRows(c, s, j, i);
    case Cancel(j) => CancelKeepsRows(c, s, j, i);
    case SendEnd(j) => EndKeepsRows(c, s, j, i);
    case Receive => TakeKeepsSent(s, i);
    case Ready(j) => assert Sent(Apply(c, s, step), i) == Sent(s, i);
    case Finish => assert Sent(Apply(c, s, step), i) == Sent(s, i);
  }

  lemma {:induction false} StepKeepsErr<V, E>(c: Config<V, E>, s: State<V, E>, step: Step, i: nat)
    requires Inv(c, s) && Enabled(c, s, step) && i < |s.actors|
    ensures ErrOk(c, Apply(c, s, step), i)
  {
    assert ErrOk(c, s, i) && RowsOk(c, s, i);
  }

  lemma {:induction false} BatchAfter<V>(ch: seq<Msg<V>>, ended: set<nat>, gone: bool, i: nat, m: Msg<V>)
    requires EndInChannel(ch, ended, gone, i) && m.Batch? && (m.actor == i ==> !gone)
    ensures EndInChannel(ch + [m], ended, gone, i)
  {
    assert End(i) in ch + [m] ==> End(i) in ch;
    assert forall k :: 0 <= k < |ch| && ch[k] == End(i) ==> End(i) in ch;
  }

  lemma {:induction false} EndAfter<V>(ch: seq<Msg<V>>, ended: set<nat>, gone: bool, i: nat, j: nat)
    requires EndInChannel(ch, ended, gone, i) && (i == j ==> !gone)
    ensures EndInChannel(ch + [End(j)], ended, gone || i == j, i)
  {
    var ch' := ch + [End(j)];
    assert ch'[|ch|] == End(j);
    assert End(i) in ch ==> End(i) in ch';
    assert i != j && End(i) in ch' ==> End(i) in ch;
    assert forall k :: 0 <= k < |ch| && ch[k] == End(i) ==> End(i) in ch;
  }

  lemma {:induction false} HeadTaken<V>(ch: seq<Msg<V>>, ended: set<nat>, gone: bool, i: nat)
    requires ch != [] && EndInChannel(ch, ended, gone, i)
    ensures EndInChannel(ch[1..], if ch[0].End? then ended + {ch[0].actor} else ended, gone, i)
  {
    var rest := ch[1..];
    assert forall k :: 0 <= k < |rest| ==> rest[k] == ch[k + 1];
    if End(i) in ch && ch[0] != End(i) {
      var k :| 0 <= k < |ch| && ch[k] == End(i);
      assert rest[k - 1] == End(i);
    }
  }

  lemma {:induction false} SendKeepsEnd<V, E>(c: Config<V, E>, s: State<V, E>, j: nat, i: nat)
    requires Inv(c, s) && Enabled(c, s, Send(j)) && i < |s.actors|
    ensures EndOk(Apply(c, s, Send(j)), i)
  {
    assert EndOk(s, i);
    if c.cap > 0 {
      BatchAfter(s.ch, s.ended, s.actors[i].phase.Gone?, i, Batch(j, s.actors[j].batch));
    }
  }

  lemma {:induction false} SendEndKeepsEnd<V, E>(c: Config<V, E>, s: State<V, E>, j: nat, i: nat)
    requires Inv(c, s) && Enabled(c, s, SendEnd(j)) && i < |s.actors|
    ensures EndOk(Apply(c, s, SendEnd(j)), i)
  {
    assert EndOk(s, i);
    if c.cap > 0 {
      EndAfter(s.ch, s.ended, s.actors[i].phase.Gone?, i, j);
    }
  }

  lemma {:induction false} ReceiveKeepsEnd<V, E>(c: Config<V, E>, s: State<V, E>, i: nat)
    requires Inv(c, s) && Enabled(c, s, Receive) && i < |s.actors|
    ensures EndOk(Apply(c, s, Receive), i)
  {
    assert EndOk(s, i);
    HeadTaken(s.ch, s.ended, s.actors[i].phase.Gone?, i);
  }

  lemma {:induction false} OtherKeepsEnd<V, E>(c: Config<V, E>, s: State<V, E>, step: Step, i: nat)
    requires EndOk(s, i) && Enabled(c, s, step) && !step.Send? && !step.SendEnd? && !step.Receive?
    ensures EndOk(Apply(c, s, step), i)
  {
    SameChannel(s, Apply(c, s, step), i);
  }

  lemma SameChannel<V, E>(s: State<V, E>, t: State<V, E>, i: nat)
    requires EndOk(s, i) && t.ch == s.ch && t.ended == s.ended && i < |t.actors|
    requires t.actors[i].phase.Gone? == s.actors[i].phase.Gone? && (i in t.ready <==> !t.actors[i].phase.Waiting?)
    ensures EndOk(t, i)
  {
  }

  lemma {:induction false} StepKeepsEnd<V, E>(c: Config<V, E>, s: State<V, E>, step: Step, i: nat)
    requires Inv(c, s) && Enabled(c, s, step) && i < |s.actors|
    ensures EndOk(Apply(c, s, step), i)
  {
    assert EndOk(s, i);
    match step
    case Send(j) => SendKeepsEnd(c, s, j, i);
    case SendEnd(j) => SendEndKeepsEnd(c, s, j, i);
    case Receive => ReceiveKeepsEnd(c, s, i);
    case _ => OtherKeepsEnd(c, s, step, i);
  }

  lemma {:induction false} NotEndedYet<V, E>(c: Config<V, E>, s: State<V, E>, i: nat)
    requires Inv(c, s) && i < |s.actors| && (!s.actors[i].phase.Gone? || (s.ch != [] && s.ch[0] == End(i)))
    ensures i !in s.ended
  {
    assert EndOk(s, i);
  }

  lemma {:induction false} PutKeepsCounts<V, E>(c: Config<V, E>, s: State<V, E>, m: Msg<V>)
    requires Counts(c, s) && CanSend(c, s) && m.actor < |s.actors| && (m.End? ==> m.actor !in s.ended) && !s.finished
    ensures Counts(c, Put(c, s, m))
  {
  }

  lemma {:induction false} StepKeepsCounts<V, E>(c: Config<V, E>, s: State<V, E>, step: Step)
    requires Inv(c, s) && Enabled(c, s, step)
    ensures Counts(c, Apply(c, s, step))
  {
    match step
    case Ready(i) => assert EndOk(s, i);
    case Send(i) =>
      NotEndedYet(c, s, i);
      NotFinishedYet(c, s, i);
      PutKeepsCounts(c, s.(actors := s.actors[i := s.actors[i].(phase := Running, batch := [])]), Batch(i, s.actors[i].batch));
    case SendEnd(i) =>
      NotEndedYet(c, s, i);
      NotFinishedYet(c, s, i);
      PutKeepsCounts(c, s.(actors := s.actors[i := s.actors[i].(phase := Gone)]), End(i));
    case Receive =>
      if s.ch[0].End? {
        NotEndedYet(c, s, s.ch[0].actor);
      }
    case _ =>
  }

  // As many distinct actors as there are actors are all of them.
  lemma {:induction false} AllOfThem(a: set<nat>, n: nat)
    requires |a| == n && forall i :: i in a ==> i < n
    ensures forall i: nat :: i < n ==> i in a
  {
    var all := Below(n);
    assert a <= all;
    if i: nat :| i < n && i !in a {
      assert a <= all - {i};
      Smaller(a, all - {i});
    }
  }

  function Below(n: nat): (s: set<nat>)
    ensures |s| == n && forall i: nat :: i in s <==> i < n
  {
    if n == 0 then {} else Below(n - 1) + {n - 1}
  }

  lemma {:induction false} Smaller<T>(a: set<T>, b: set<T>)
    requires a <= b
    ensures |a| <= |b|
    decreases |a|
  {
    if x :| x in a {
      Smaller(a - {x}, b - {x});
    }
  }

  // The consumer finishes only after every actor's nil.
  lemma {:induction false} NotFinishedYet<V, E>(c: Config<V, E>, s: State<V, E>, i: nat)
    requires Inv(c, s) && i < |s.actors| && i !in s.ended
    ensures s.numDone < |c.scripts| && !s.finished
  {
    Smaller(s.ended, Below(|s.actors|));
    if s.numDone == |c.scripts| {
      AllOfThem(s.ended, |c.scripts|);
    }
  }

  lemma {:induction false} StepKeepsInv<V, E>(c: Config<V, E>, s: State<V, E>, step: Step)
    requires Inv(c, s) && Enabled(c, s, step)
    ensures Inv(c, Apply(c, s, step))
  {
    var s' := Apply(c, s, step);
    StepKeepsCounts(c, s, step);
    forall i: nat | i < |s'.actors| ensures RowsOk(c, s', i) {
      StepKeepsRows(c, s, step, i);
    }
    forall i: nat | i < |s'.actors| ensures ErrOk(c, s', i) {
      StepKeepsErr(c, s, step, i);
    }
    forall i: nat | i < |s'.actors| ensures EndOk(s', i) {
      StepKeepsEnd(c, s, step, i);
    }
  }
}
