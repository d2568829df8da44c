// engine/op_union.go: UNION ALL, one actor per child, over the stage.
module Union {
  import opened Expr
  import opened Stage
  import opened StageRuns

  // A child's row in the union's label positions.
  function Remap(unionLabels: seq<string>, childLabels: seq<string>, vals: seq<Value>): (out: seq<Value>)
    requires |childLabels| <= |vals|
    ensures |out| == |unionLabels|
    ensures forall u :: 0 <= u < |unionLabels| ==>
              out[u] == if unionLabels[u] in childLabels then vals[IndexOf(childLabels, unionLabels[u])] else Missing
  {
    seq(|unionLabels|, u requires 0 <= u < |unionLabels| =>
      if unionLabels[u] in childLabels then vals[IndexOf(childLabels, unionLabels[u])] else Missing)
  }

  lemma {:induction false} FirstIndex(labels: seq<string>, l: string, k: nat)
    requires k < |labels| && labels[k] == l && l !in labels[..k]
    ensures IndexOf(labels, l) == k
  {
    assert IndexOf(labels, l) >= 0;
  }

  // The child's yieldVals overwrites one buffer, slot by slot, with the first label that matches.
  method RemapInto(unionLabels: seq<string>, childLabels: seq<string>, vals: seq<Value>, valsUnion: array<Value>)
    requires valsUnion.Length == |unionLabels| && |childLabels| <= |vals|
    modifies valsUnion
    ensures valsUnion[..] == Remap(unionLabels, childLabels, vals)
  {
    for unionIdx := 0 to |unionLabels|
      invariant valsUnion[..unionIdx] == Remap(unionLabels, childLabels, vals)[..unionIdx]
    {
      var found := false;
      for childIdx: nat := 0 to |childLabels|
        invariant !found && unionLabels[unionIdx] !in childLabels[..childIdx]
        invariant valsUnion[..unionIdx] == Remap(unionLabels, childLabels, vals)[..unionIdx]
      {
        if childLabels[childIdx] == unionLabels[unionIdx] {
          FirstIndex(childLabels, unionLabels[unionIdx], childIdx);
          valsUnion[unionIdx] := vals[childIdx];
          found := true;
          break;
        }
      }
      if !found {
        assert childLabels[..|childLabels|] == childLabels;
        valsUnion[unionIdx] := Missing;
      }
    }
  }

  // ---------------------------------------------------------------- the union as a bag

  datatype Child = Child(labels: seq<string>, rows: seq<seq<Value>>)

  function RemapAll(unionLabels: seq<string>, child: Child): (r: seq<seq<Value>>)
    requires forall k :: 0 <= k < |child.rows| ==> |child.labels| <= |child.rows[k]|
    ensures |r| == |child.rows|
    ensures forall k :: 0 <= k < |child.rows| ==> r[k] == Remap(unionLabels, child.labels, child.rows[k])
  {
    seq(|child.rows|, k requires 0 <= k < |child.rows| => Remap(unionLabels, child.labels, child.rows[k]))
  }

  // What a child's actor does: yield its rows, then yieldErr(nil).
  function ScriptOf<E>(rows: seq<seq<Value>>): (script: seq<Op<seq<Value>, E>>)
    ensures |script| == |rows| + 1 && script[|rows|] == Flush
    ensures forall k :: 0 <= k < |rows| ==> script[k] == Yield(rows[k])
  {
    seq(|rows| + 1, k requires 0 <= k < |rows| + 1 => if k < |rows| then Yield(rows[k]) else Flush)
  }

  lemma {:induction false} RowsOfScript<E>(rows: seq<seq<Value>>, n: nat)
    requires n <= |rows|
    ensures Rows(ScriptOf<E>(rows), n) == rows[..n]
    decreases n
  {
    if n > 0 {
      RowsOfScript<E>(rows, n - 1);
      assert rows[..n] == rows[..n - 1] + [rows[n - 1]];
    }
  }

  // No child fails: no error, in any interleaving.
  lemma {:induction false} NoFailNoErr<V, E>(c: Config<V, E>, s: State<V, E>, steps: seq<Step>, t: State<V, E>)
    requires Runs(c, s, steps, t) && s.err.None? && !s.stopped
    requires forall i, k :: 0 <= i < |c.scripts| && 0 <= k < |c.scripts[i]| ==> !c.scripts[i][k].Fail?
    ensures t.err.None?
    decreases |steps|
  {
    if steps != [] {
      NoFailNoErr(c, Apply(c, s, steps[0]), steps[1..], t);
    }
  }

  // The bag of the first n rows that the consumer got.
  ghost function BagGot<V>(got: seq<Got<V>>, n: nat): multiset<V>
    requires n <= |got|
  {
    if n == 0 then multiset{} else BagGot(got, n - 1) + multiset{got[n - 1].row}
  }

  // The bag of what the first k actors delivered.
  ghost function BagFrom<V>(got: seq<Got<V>>, n: nat, k: nat): multiset<V>
    requires n <= |got|
  {
    if k == 0 then multiset{} else BagFrom(got, n, k - 1) + multiset(From(got, k - 1, n))
  }

  lemma {:induction false} BagFromNext<V>(got: seq<Got<V>>, n: nat, k: nat)
    requires 0 < n <= |got|
    ensures BagFrom(got, n, k) == BagFrom(got, n - 1, k) + (if got[n - 1].actor < k then multiset{got[n - 1].row} else multiset{})
    decreases k
  {
    if k > 0 {
      BagFromNext(got, n, k - 1);
    }
  }

  lemma {:induction false} BagFromNothing<V>(got: seq<Got<V>>, k: nat)
    ensures BagFrom(got, 0, k) == multiset{}
    decreases k
  {
    if k > 0 {
      BagFromNothing(got, k - 1);
    }
  }

  lemma {:induction false} GotIsBag<V>(got: seq<Got<V>>, n: nat, k: nat)
    requires n <= |got| && forall j :: 0 <= j < n ==> got[j].actor < k
    ensures BagGot(got, n) == BagFrom(got, n, k)
    decreases n
  {
    if n == 0 {
      BagFromNothing(got, k);
    } else {
      GotIsBag(got, n - 1, k);
      BagFromNext(got, n, k);
    }
  }

  ghost function SumBags<V>(parts: seq<seq<V>>, n: nat): multiset<V>
    requires n <= |parts|
  {
    if n == 0 then multiset{} else SumBags(parts, n - 1) + multiset(parts[n - 1])
  }

  lemma {:induction false} BagsAgree<V>(got: seq<Got<V>>, parts: seq<seq<V>>, n: nat)
    requires n <= |parts| && forall i: nat :: i < n ==> From(got, i, |got|) == parts[i]
    ensures BagFrom(got, |got|, n) == SumBags(parts, n)
    decreases n
  {
    if n > 0 {
      BagsAgree(got, parts, n - 1);
    }
  }

  // Each child's rows, remapped.
  ghost function Remapped(unionLabels: seq<string>, children: seq<Child>): (parts: seq<seq<seq<Value>>>)
    requires WideRows(children)
    ensures |parts| == |children| && forall i :: 0 <= i < |children| ==> parts[i] == RemapAll(unionLabels, children[i])
  {
    seq(|children|, i requires 0 <= i < |children| => RemapAll(unionLabels, children[i]))
  }

  ghost predicate WideRows(children: seq<Child>)
  {
    forall i, k :: 0 <= i < |children| && 0 <= k < |children[i].rows| ==> |children[i].labels| <= |children[i].rows[k]|
  }

  function UnionConfig<E>(unionLabels: seq<string>, children: seq<Child>, cap: nat, batchSize: int): (c: Config<seq<Value>, E>)
    requires WideRows(children)
    ensures |c.scripts| == |children| && forall i :: 0 <= i < |children| ==> c.scripts[i] == ScriptOf<E>(RemapAll(unionLabels, children[i]))
  {
    Config(cap, batchSize, seq(|children|, i requires 0 <= i < |children| => ScriptOf<E>(RemapAll(unionLabels, children[i]))))
  }

  lemma {:induction false} ActorsInRange<V, E>(c: Config<V, E>, s: State<V, E>, steps: seq<Step>, t: State<V, E>)
    requires Inv(c, s) && Runs(c, s, steps, t) && forall j :: 0 <= j < |s.got| ==> s.got[j].actor < |c.scripts|
    ensures forall j :: 0 <= j < |t.got| ==> t.got[j].actor < |c.scripts|
    decreases |steps|
  {
    if steps != [] {
      StepKeepsInv(c, s, steps[0]);
      ActorsInRange(c, Apply(c, s, steps[0]), steps[1..], t);
    }
  }

  // In every interleaving UNION ALL ends without an error and with the bag union of its remapped children.
  lemma {:induction false} UnionAll<E>(unionLabels: seq<string>, children: seq<Child>, cap: nat, batchSize: int, t: State<seq<Value>, E>)
    requires WideRows(children)
    requires Reachable(UnionConfig<E>(unionLabels, children, cap, batchSize), t) && t.finished
    ensures t.err.None? && BagGot(t.got, |t.got|) == SumBags(Remapped(unionLabels, children), |children|)
  {
    var c := UnionConfig<E>(unionLabels, children, cap, batchSize);
    var steps :| Runs(c, Init(c), steps, t);
    NoFailNoErr(c, Init(c), steps, t);
    InitOk(c);
    ActorsInRange(c, Init(c), steps, t);
    GotIsBag(t.got, |t.got|, |children|);
    forall i: nat | i < |children| ensures From(t.got, i, |t.got|) == Remapped(unionLabels, children)[i] {
      ChildDelivers(unionLabels, children, cap, batchSize, t, i);
    }
    BagsAgree(t.got, Remapped(unionLabels, children), |children|);
  }

  // Every child's rows arrive, remapped, complete and in order.
  lemma {:induction false} ChildDelivers<E>(unionLabels: seq<string>, children: seq<Child>, cap: nat, batchSize: int, t: State<seq<Value>, E>, i: nat)
    requires WideRows(children) && i < |children|
    requires Reachable(UnionConfig<E>(unionLabels, children, cap, batchSize), t) && t.finished && t.err.None?
    ensures From(t.got, i, |t.got|) == RemapAll(unionLabels, children[i])
  {
    var c, rows := UnionConfig<E>(unionLabels, children, cap, batchSize), RemapAll(unionLabels, children[i]);
    FinishedRows(c, t, i);
    RowsOfClosedScript<E>(rows);
  }

  lemma {:induction false} RowsOfClosedScript<E>(rows: seq<seq<Value>>)
    ensures Rows(ScriptOf<E>(rows), |rows| + 1) == rows
  {
    RowsOfScript<E>(rows, |rows|);
    assert rows[..|rows|] == rows;
    assert Rows(ScriptOf<E>(rows), |rows| + 1) == Rows(ScriptOf<E>(rows), |rows|) + [];
  }
}
