// engine/op_broadcast.go and engine/op_broadcast_indexed.go: one scan fanned out to many queries.
module Broadcast {
  import opened Bytes
  import opened Expr
  import opened Prefilter
  import opened Automaton
  import opened Matcher
  import opened Selection

  datatype Query = Query(tag: string, pred: Node, proj: seq<Node>)

  datatype LabelResult = LabelResult(tag: string, evidence: seq<Value>)

  // What one query makes of one row.
  function Answer(env: Env, labels: seq<string>, q: Query, row: seq<Value>): seq<LabelResult>
  {
    if Truthy(Eval(env, labels, row, q.pred)) then [LabelResult(q.tag, Project(env, labels, row, q.proj))] else []
  }

  function Answers(env: Env, labels: seq<string>, queries: seq<Query>, row: seq<Value>): (answers: seq<seq<LabelResult>>)
    ensures |answers| == |queries|
    ensures forall i :: 0 <= i < |queries| ==> answers[i] == Answer(env, labels, queries[i], row)
  {
    seq(|queries|, i requires 0 <= i < |queries| => Answer(env, labels, queries[i], row))
  }

  // The plain fan-out: every query's answer, row by row.
  function RowResults(env: Env, labels: seq<string>, queries: seq<Query>, rows: seq<seq<Value>>): (results: seq<seq<LabelResult>>)
    ensures |results| == |rows|
    ensures forall r :: 0 <= r < |rows| ==> results[r] == Concat(Answers(env, labels, queries, rows[r]), |queries|)
  {
    seq(|rows|, r requires 0 <= r < |rows| => Concat(Answers(env, labels, queries, rows[r]), |queries|))
  }

  function Fanout(env: Env, labels: seq<string>, queries: seq<Query>, rows: seq<seq<Value>>): seq<LabelResult>
  {
    Concat(RowResults(env, labels, queries, rows), |rows|)
  }

  // ---------------------------------------------------------------- who answers what

  datatype Hit = Hit(row: nat, query: nat)

  // Row by row, and query by query on a row.
  ghost predicate Earlier(a: Hit, b: Hit)
  {
    a.row < b.row || (a.row == b.row && a.query < b.query)
  }

  // Query h.query's predicate is truthy on row h.row.
  ghost predicate Hits(env: Env, labels: seq<string>, queries: seq<Query>, rows: seq<seq<Value>>, h: Hit)
  {
    h.row < |rows| && h.query < |queries| && !Falsy(Eval(env, labels, rows[h.row], queries[h.query].pred))
  }

  // Before end, exactly the hits are listed, in order.
  ghost predicate Lists(env: Env, labels: seq<string>, queries: seq<Query>, rows: seq<seq<Value>>, end: Hit, hits: seq<Hit>)
  {
    && (forall k, l :: 0 <= k < l < |hits| ==> Earlier(hits[k], hits[l]))
    && forall h :: h in hits <==> Earlier(h, end) && Hits(env, labels, queries, rows, h)
  }

  // The query's tag and its projections' values on the row.
  ghost predicate ShowsHit(env: Env, labels: seq<string>, q: Query, row: seq<Value>, result: LabelResult)
  {
    && result.tag == q.tag && |result.evidence| == |q.proj|
    && forall m :: 0 <= m < |q.proj| ==> result.evidence[m] == Eval(env, labels, row, q.proj[m])
  }

  ghost predicate Shows(env: Env, labels: seq<string>, queries: seq<Query>, rows: seq<seq<Value>>, hits: seq<Hit>, out: seq<LabelResult>)
  {
    && |out| == |hits|
    && forall k :: 0 <= k < |hits| ==>
         hits[k].row < |rows| && hits[k].query < |queries| && ShowsHit(env, labels, queries[hits[k].query], rows[hits[k].row], out[k])
  }

  ghost predicate AnswersUpTo(env: Env, labels: seq<string>, queries: seq<Query>, rows: seq<seq<Value>>, end: Hit, out: seq<LabelResult>)
  {
    exists hits: seq<Hit> :: Lists(env, labels, queries, rows, end, hits) && Shows(env, labels, queries, rows, hits, out)
  }

  lemma {:induction false} ListsOneMore(env: Env, labels: seq<string>, queries: seq<Query>, rows: seq<seq<Value>>, h: Hit, hits: seq<Hit>)
    requires Lists(env, labels, queries, rows, h, hits)
    ensures var end := Hit(h.row, h.query + 1);
            Lists(env, labels, queries, rows, end, if Hits(env, labels, queries, rows, h) then hits + [h] else hits)
  {
    var hits', end := if Hits(env, labels, queries, rows, h) then hits + [h] else hits, Hit(h.row, h.query + 1);
    forall g ensures g in hits' <==> Earlier(g, end) && Hits(env, labels, queries, rows, g) {
      assert Earlier(g, end) <==> Earlier(g, h) || g == h;
    }
  }

  lemma {:induction false} ShowsOneMore(env: Env, labels: seq<string>, queries: seq<Query>, rows: seq<seq<Value>>, h: Hit, hits: seq<Hit>, out: seq<LabelResult>)
    requires h.row < |rows| && h.query < |queries| && Shows(env, labels, queries, rows, hits, out)
    ensures Shows(env, labels, queries, rows, if Hits(env, labels, queries, rows, h) then hits + [h] else hits,
                  out + Answer(env, labels, queries[h.query], rows[h.row]))
  {
    var q, row := queries[h.query], rows[h.row];
    TruthyUnlessFalsy(Eval(env, labels, row, q.pred));
    if Hits(env, labels, queries, rows, h) {
      var result := LabelResult(q.tag, Project(env, labels, row, q.proj));
      assert Answer(env, labels, q, row) == [result] && ShowsHit(env, labels, q, row, result);
    } else {
      assert out + Answer(env, labels, q, row) == out;
    }
  }

  lemma {:induction false} AnswersOneMore(env: Env, labels: seq<string>, queries: seq<Query>, rows: seq<seq<Value>>, h: Hit, out: seq<LabelResult>)
    requires h.row < |rows| && h.query < |queries| && AnswersUpTo(env, labels, queries, rows, h, out)
    ensures AnswersUpTo(env, labels, queries, rows, Hit(h.row, h.query + 1), out + Answer(env, labels, queries[h.query], rows[h.row]))
  {
    var hits :| Lists(env, labels, queries, rows, h, hits) && Shows(env, labels, queries, rows, hits, out);
    ListsOneMore(env, labels, queries, rows, h, hits);
    ShowsOneMore(env, labels, queries, rows, h, hits, out);
  }

  lemma {:induction false} NextRow(env: Env, labels: seq<string>, queries: seq<Query>, rows: seq<seq<Value>>, r: nat, out: seq<LabelResult>)
    requires AnswersUpTo(env, labels, queries, rows, Hit(r, |queries|), out)
    ensures AnswersUpTo(env, labels, queries, rows, Hit(r + 1, 0), out)
  {
    var hits :| Lists(env, labels, queries, rows, Hit(r, |queries|), hits) && Shows(env, labels, queries, rows, hits, out);
    assert forall h :: Hits(env, labels, queries, rows, h) ==> (Earlier(h, Hit(r, |queries|)) <==> Earlier(h, Hit(r + 1, 0)));
    assert Lists(env, labels, queries, rows, Hit(r + 1, 0), hits);
  }

  // Evaluate one query on one row.
  method Ask(env: Env, labels: seq<string>, q: Query, row: seq<Value>) returns (out: seq<LabelResult>)
    ensures out == Answer(env, labels, q, row)
  {
    out := [];
    var predVal := Eval(env, labels, row, q.pred);
    if Truthy(predVal) {
      out := [LabelResult(q.tag, Project(env, labels, row, q.proj))];
    }
  }

  method BroadcastRow(env: Env, labels: seq<string>, queries: seq<Query>, row: seq<Value>, ghost rows: seq<seq<Value>>, ghost r: nat, ghost before: seq<LabelResult>)
    returns (out: seq<LabelResult>)
    requires r < |rows| && row == rows[r] && AnswersUpTo(env, labels, queries, rows, Hit(r, 0), before)
    ensures out == Concat(Answers(env, labels, queries, row), |queries|)
    ensures AnswersUpTo(env, labels, queries, rows, Hit(r + 1, 0), before + out)
  {
    out := [];
    assert before + out == before;
    for i := 0 to |queries|
      invariant out == Concat(Answers(env, labels, queries, row), i)
      invariant AnswersUpTo(env, labels, queries, rows, Hit(r, i), before + out)
    {
      AnswersOneMore(env, labels, queries, rows, Hit(r, i), before + out);
      var answer := Ask(env, labels, queries[i], row);
      assert before + (out + answer) == (before + out) + answer;
      out := out + answer;
    }
    NextRow(env, labels, queries, rows, r, before + out);
  }

  method BroadcastExec(env: Env, labels: seq<string>, queries: seq<Query>, rows: seq<seq<Value>>)
    returns (out: seq<LabelResult>)
    ensures out == Fanout(env, labels, queries, rows)
    ensures AnswersUpTo(env, labels, queries, rows, Hit(|rows|, 0), out)
  {
    out := [];
    assert Lists(env, labels, queries, rows, Hit(0, 0), []);
    for r := 0 to |rows|
      invariant out == Concat(RowResults(env, labels, queries, rows), r)
      invariant AnswersUpTo(env, labels, queries, rows, Hit(r, 0), out)
    {
      var results := BroadcastRow(env, labels, queries, rows[r], rows, r, out);
      out := out + results;
    }
  }

  // ---------------------------------------------------------------- the sparse fan-out, declaratively

  // A query is evaluated on a row when it has no literal, or its literal occurs in the row's bytes.
  ghost predicate Woken(q: Query, row: seq<Value>)
  {
    PrefilterLiteral(q.pred).None? || (row != [] && Occurs(PrefilterLiteral(q.pred).s, RowBytes(row)))
  }

  ghost function Awake(queries: seq<Query>, row: seq<Value>): set<nat>
  {
    set i | 0 <= i < |queries| && Woken(queries[i], row)
  }

  ghost function WokenRow(env: Env, labels: seq<string>, queries: seq<Query>, row: seq<Value>): multiset<LabelResult>
  {
    Chosen(Answers(env, labels, queries, row), Awake(queries, row), |queries|)
  }

  ghost function WokenRows(env: Env, labels: seq<string>, queries: seq<Query>, rows: seq<seq<Value>>): (bags: seq<multiset<LabelResult>>)
    ensures |bags| == |rows|
    ensures forall r :: 0 <= r < |rows| ==> bags[r] == WokenRow(env, labels, queries, rows[r])
  {
    seq(|rows|, r requires 0 <= r < |rows| => WokenRow(env, labels, queries, rows[r]))
  }

  ghost function WokenFanout(env: Env, labels: seq<string>, queries: seq<Query>, rows: seq<seq<Value>>): multiset<LabelResult>
  {
    Total(WokenRows(env, labels, queries, rows), |rows|)
  }

  // ---------------------------------------------------------------- sparse equals plain

  ghost predicate Indexable(queries: seq<Query>)
  {
    forall i :: 0 <= i < |queries| ==> FromEvaluated(queries[i].pred)
  }

  lemma {:induction false} AsleepMeansSilent(env: Env, labels: seq<string>, q: Query, row: seq<Value>)
    requires StandardOps(env) && StandardNav(env) && FromEvaluated(q.pred) && !Woken(q, row)
    ensures Answer(env, labels, q, row) == []
  {
    LiteralIsNecessary(env, labels, row, q.pred);
  }

  // No query that the index leaves asleep would have answered.
  lemma {:induction false} WokenRowIsPlain(env: Env, labels: seq<string>, queries: seq<Query>, row: seq<Value>)
    requires StandardOps(env) && StandardNav(env) && Indexable(queries)
    ensures WokenRow(env, labels, queries, row) == multiset(Concat(Answers(env, labels, queries, row), |queries|))
  {
    forall i | 0 <= i < |queries| && i !in Awake(queries, row) ensures Answer(env, labels, queries[i], row) == [] {
      AsleepMeansSilent(env, labels, queries[i], row);
    }
    ChosenIsAll(Answers(env, labels, queries, row), Awake(queries, row), |queries|);
  }

  lemma {:induction false} WokenIsPlain(env: Env, labels: seq<string>, queries: seq<Query>, rows: seq<seq<Value>>)
    requires StandardOps(env) && StandardNav(env) && Indexable(queries)
    ensures WokenFanout(env, labels, queries, rows) == multiset(Fanout(env, labels, queries, rows))
  {
    var bags, results := WokenRows(env, labels, queries, rows), RowResults(env, labels, queries, rows);
    forall r | 0 <= r < |rows| ensures bags[r] == multiset(results[r]) {
      WokenRowIsPlain(env, labels, queries, rows[r]);
    }
    TotalIsConcat(bags, results, |rows|);
  }

  ghost predicate Sound(env: Env, queries: seq<Query>)
  {
    StandardOps(env) && StandardNav(env) && Indexable(queries)
  }

  lemma {:induction false} SparseIsPlain(env: Env, labels: seq<string>, queries: seq<Query>, rows: seq<seq<Value>>)
    ensures Sound(env, queries) ==> WokenFanout(env, labels, queries, rows) == multiset(Fanout(env, labels, queries, rows))
  {
    if Sound(env, queries) {
      WokenIsPlain(env, labels, queries, rows);
    }
  }

  // ---------------------------------------------------------------- BroadcastIndexedExec

  // litIDs, literals, litQueries and alwaysWake after the first k queries.
  ghost predicate Keyed(queries: seq<Query>, k: nat, litIDs: map<Str, nat>, literals: seq<Str>,
                        litQueries: seq<seq<nat>>, alwaysWake: seq<nat>)
    requires k <= |queries|
  {
    && |litQueries| == |literals|
    && (forall lit :: lit in litIDs ==> litIDs[lit] < |literals| && literals[litIDs[lit]] == lit)
    && (forall id :: 0 <= id < |literals| ==> literals[id] in litIDs && litIDs[literals[id]] == id)
    && (forall id :: 0 <= id < |literals| ==> Once(litQueries[id]) && KeyedTo(queries, k, literals[id], litQueries[id]))
    && Once(alwaysWake) && Unkeyed(queries, k, alwaysWake)
    && (forall i :: 0 <= i < k && PrefilterLiteral(queries[i].pred).Some? ==> PrefilterLiteral(queries[i].pred).s in litIDs)
  }

  ghost predicate KeyedTo(queries: seq<Query>, k: nat, lit: Str, members: seq<nat>)
    requires k <= |queries|
  {
    forall i: nat :: i in members <==>
      i < k && PrefilterLiteral(queries[i].pred).Some? && PrefilterLiteral(queries[i].pred).s == lit
  }

  ghost predicate Unkeyed(queries: seq<Query>, k: nat, members: seq<nat>)
    requires k <= |queries|
  {
    forall i: nat :: i in members <==> i < k && PrefilterLiteral(queries[i].pred).None?
  }

  method KeyQueries(queries: seq<Query>) returns (literals: seq<Str>, litQueries: seq<seq<nat>>, alwaysWake: seq<nat>, ghost litIDs: map<Str, nat>)
    ensures Keyed(queries, |queries|, litIDs, literals, litQueries, alwaysWake)
  {
    var ids: map<Str, nat> := map[];
    literals, litQueries, alwaysWake := [], [], [];
    for i := 0 to |queries|
      invariant Keyed(queries, i, ids, literals, litQueries, alwaysWake)
    {
      var lit := PrefilterLiteral(queries[i].pred);
      if lit.None? {
        alwaysWake := alwaysWake + [i];
      } else {
        if lit.s !in ids {
          ids := ids[lit.s := |literals|];
          literals := literals + [lit.s];
          litQueries := litQueries + [[]];
        }
        var id := ids[lit.s];
        litQueries := litQueries[id := litQueries[id] + [i]];
      }
    }
    litIDs := ids;
  }

  // The queries the matched literals wake, in the order the sparse fan-out visits them.
  ghost function Flat(litQueries: seq<seq<nat>>, ids: seq<nat>): seq<nat>
  {
    if ids == [] then [] else PartAt(litQueries, ids[0]) + Flat(litQueries, ids[1..])
  }

  lemma {:induction false} FlatMembers(litQueries: seq<seq<nat>>, ids: seq<nat>, i: nat)
    ensures i in Flat(litQueries, ids) <==> exists id :: id in ids && i in PartAt(litQueries, id)
  {
    if ids != [] {
      FlatMembers(litQueries, ids[1..], i);
      assert forall id :: id in ids <==> id == ids[0] || id in ids[1..];
    }
  }

  lemma OnceAppend(a: seq<nat>, b: seq<nat>)
    requires Once(a) && Once(b) && Members(a) !! Members(b)
    ensures Once(a + b) && Members(a + b) == Members(a) + Members(b)
  {
    assert forall k :: 0 <= k < |a| ==> a[k] in Members(a);
    assert forall k :: 0 <= k < |b| ==> b[k] in Members(b);
  }

  // No query is keyed to two literals.
  ghost predicate Disjoint(litQueries: seq<seq<nat>>)
  {
    && (forall id: nat :: Once(PartAt(litQueries, id)))
    && (forall a: nat, b: nat, i :: i in PartAt(litQueries, a) && i in PartAt(litQueries, b) ==> a == b)
  }

  lemma {:induction false} FlatOnce(litQueries: seq<seq<nat>>, ids: seq<nat>)
    requires Once(ids) && Disjoint(litQueries)
    ensures Once(Flat(litQueries, ids))
  {
    if ids != [] {
      FlatOnce(litQueries, ids[1..]);
      forall i | i in PartAt(litQueries, ids[0]) ensures i !in Flat(litQueries, ids[1..]) {
        FlatMembers(litQueries, ids[1..], i);
      }
      OnceAppend(PartAt(litQueries, ids[0]), Flat(litQueries, ids[1..]));
    }
  }

  ghost predicate Matched(literals: seq<Str>, row: seq<Value>, ids: seq<nat>)
  {
    Once(ids) && Members(ids) == if row == [] then {} else Present(literals, RowBytes(row))
  }

  lemma {:induction false} FlatMemberIsWoken(queries: seq<Query>, litIDs: map<Str, nat>, literals: seq<Str>,
                                             litQueries: seq<seq<nat>>, alwaysWake: seq<nat>, row: seq<Value>, ids: seq<nat>, i: nat)
    requires Keyed(queries, |queries|, litIDs, literals, litQueries, alwaysWake) && Matched(literals, row, ids)
    ensures i in Flat(litQueries, ids) <==>
            i < |queries| && PrefilterLiteral(queries[i].pred).Some? && Woken(queries[i], row)
  {
    FlatMembers(litQueries, ids, i);
    if i in Flat(litQueries, ids) {
      var id: nat :| id in ids && i in PartAt(litQueries, id);
      assert id in Members(ids) && KeyedTo(queries, |queries|, literals[id], litQueries[id]);
    }
    if i < |queries| && PrefilterLiteral(queries[i].pred).Some? && Woken(queries[i], row) {
      var id := litIDs[PrefilterLiteral(queries[i].pred).s];
      assert id in Members(ids) && KeyedTo(queries, |queries|, literals[id], litQueries[id]);
    }
  }

  lemma {:induction false} KeyedIsDisjoint(queries: seq<Query>, litIDs: map<Str, nat>, literals: seq<Str>,
                                           litQueries: seq<seq<nat>>, alwaysWake: seq<nat>)
    requires Keyed(queries, |queries|, litIDs, literals, litQueries, alwaysWake)
    ensures Disjoint(litQueries)
  {
    forall a: nat, b: nat, i: nat | i in PartAt(litQueries, a) && i in PartAt(litQueries, b) ensures a == b {
      assert KeyedTo(queries, |queries|, literals[a], litQueries[a]);
      assert KeyedTo(queries, |queries|, literals[b], litQueries[b]);
      assert literals[a] == literals[b];
    }
  }

  // The visited queries are the woken ones, each once.
  lemma {:induction false} VisitsTheAwake(queries: seq<Query>, litIDs: map<Str, nat>, literals: seq<Str>,
                                          litQueries: seq<seq<nat>>, alwaysWake: seq<nat>, row: seq<Value>, ids: seq<nat>)
    requires Keyed(queries, |queries|, litIDs, literals, litQueries, alwaysWake) && Matched(literals, row, ids)
    ensures Once(Flat(litQueries, ids) + alwaysWake)
    ensures Members(Flat(litQueries, ids) + alwaysWake) == Selection.Below(Awake(queries, row), |queries|)
  {
    KeyedIsDisjoint(queries, litIDs, literals, litQueries, alwaysWake);
    FlatOnce(litQueries, ids);
    var flat := Flat(litQueries, ids);
    forall i: nat
      ensures i in flat <==> i < |queries| && PrefilterLiteral(queries[i].pred).Some? && Woken(queries[i], row)
    {
      FlatMemberIsWoken(queries, litIDs, literals, litQueries, alwaysWake, row, ids, i);
    }
    OnceAppend(flat, alwaysWake);
  }

  // What a row's slots up to i show, with slot i's own literals added.
  lemma {:induction false} SlotScanned(patterns: seq<Str>, row: seq<Value>, i: nat, had: set<nat>)
    requires i < |row|
    requires if i == 0 then had == {} else had == Present(patterns, RowBytes(row[..i]))
    ensures RowBytes(row[..i + 1]) == RowBytes(row[..i]) + SlotBytes(row[i])
    ensures had - Empties(patterns) == Found(patterns, RowBytes(row[..i]))
    ensures i > 0 ==> had + Found(patterns, RowBytes(row[..i + 1])) == Present(patterns, RowBytes(row[..i + 1]))
  {
    var t, b := RowBytes(row[..i]), SlotBytes(row[i]);
    assert row[..i + 1][..i] == row[..i];
    PresentSplits(patterns, t);
    PresentSplits(patterns, t + b);
    FoundMonotone(patterns, t, b);
    FoundNothingYet(patterns);
    assert Empties(patterns) !! Found(patterns, t);
  }

  // One automaton pass over all byte slots of a row.
  method ScanRow(ac: AhoCorasick, row: seq<Value>, ms: AhoCorasickMatches)
    requires ac.Valid() && ms.Valid() && ms.seen.Length == |ac.patterns|
    modifies ms, ms.seen
    ensures ms.Valid() && ms.seen == old(ms.seen) && Matched(ac.patterns, row, ms.ids)
  {
    ms.Reset();
    var acState: nat := 0;
    assert row[..0] == [];
    for i := 0 to |row|
      invariant ac.Valid() && ms.Valid() && ms.seen == old(ms.seen)
      invariant LongestSuffix(ac.spell, RowBytes(row[..i]), acState)
      invariant i == 0 ==> acState == 0 && ms.Contents() == {}
      invariant i > 0 ==> ms.Contents() == Present(ac.patterns, RowBytes(row[..i]))
    {
      ghost var t, had := RowBytes(row[..i]), ms.Contents();
      SlotScanned(ac.patterns, row, i, had);
      acState := ac.Advance(acState, SlotBytes(row[i]), ms, t);
    }
    assert row[..|row|] == row;
    assert Once(ms.ids);
  }

  // The answers of the listed queries.
  method AskEach(env: Env, labels: seq<string>, queries: seq<Query>, members: seq<nat>, row: seq<Value>)
    returns (out: seq<LabelResult>)
    requires forall k :: 0 <= k < |members| ==> members[k] < |queries|
    ensures multiset(out) == Visited(Answers(env, labels, queries, row), members)
  {
    out := [];
    ghost var answers := Answers(env, labels, queries, row);
    for k := 0 to |members|
      invariant Visited(answers, members) == multiset(out) + Visited(answers, members[k..])
    {
      var answer := Ask(env, labels, queries[members[k]], row);
      out := out + answer;
      assert members[k..][1..] == members[k + 1..];
    }
    assert members[|members|..] == [];
  }

  // The queries keyed to the present literals, literal by literal.
  method AskWoken(env: Env, labels: seq<string>, queries: seq<Query>, litQueries: seq<seq<nat>>, ids: seq<nat>, row: seq<Value>)
    returns (out: seq<LabelResult>)
    requires forall k :: 0 <= k < |ids| ==> ids[k] < |litQueries|
    requires forall id, k :: 0 <= id < |litQueries| && 0 <= k < |litQueries[id]| ==> litQueries[id][k] < |queries|
    ensures multiset(out) == Visited(Answers(env, labels, queries, row), Flat(litQueries, ids))
  {
    ghost var answers := Answers(env, labels, queries, row);
    out := [];
    assert ids[0..] == ids;
    for k := 0 to |ids|
      invariant Visited(answers, Flat(litQueries, ids)) == multiset(out) + Visited(answers, Flat(litQueries, ids[k..]))
    {
      var part := AskEach(env, labels, queries, litQueries[ids[k]], row);
      FlatSplits(answers, litQueries, ids, k);
      out := out + part;
    }
    assert ids[|ids|..] == [];
  }

  lemma FlatSplits(answers: seq<seq<LabelResult>>, litQueries: seq<seq<nat>>, ids: seq<nat>, k: nat)
    requires k < |ids| && ids[k] < |litQueries|
    ensures Visited(answers, Flat(litQueries, ids[k..])) ==
            Visited(answers, litQueries[ids[k]]) + Visited(answers, Flat(litQueries, ids[k + 1..]))
  {
    assert ids[k..][1..] == ids[k + 1..];
    VisitedAppend(answers, litQueries[ids[k]], Flat(litQueries, ids[k + 1..]));
  }

  // Every listed query is there.
  ghost predicate InRange(n: nat, litQueries: seq<seq<nat>>, alwaysWake: seq<nat>)
  {
    && (forall id, k :: 0 <= id < |litQueries| && 0 <= k < |litQueries[id]| ==> litQueries[id][k] < n)
    && (forall k :: 0 <= k < |alwaysWake| ==> alwaysWake[k] < n)
  }

  lemma {:induction false} KeyedInRange(queries: seq<Query>, litIDs: map<Str, nat>, literals: seq<Str>,
                                        litQueries: seq<seq<nat>>, alwaysWake: seq<nat>)
    requires Keyed(queries, |queries|, litIDs, literals, litQueries, alwaysWake)
    ensures |litQueries| == |literals| && InRange(|queries|, litQueries, alwaysWake)
  {
    forall id, k | 0 <= id < |litQueries| && 0 <= k < |litQueries[id]| ensures litQueries[id][k] < |queries| {
      assert KeyedTo(queries, |queries|, literals[id], litQueries[id]) && litQueries[id][k] in litQueries[id];
    }
    forall k | 0 <= k < |alwaysWake| ensures alwaysWake[k] < |queries| {
      assert alwaysWake[k] in alwaysWake;
    }
  }

  lemma {:induction false} MatchedInRange(literals: seq<Str>, row: seq<Value>, ids: seq<nat>)
    requires Matched(literals, row, ids)
    ensures forall k :: 0 <= k < |ids| ==> ids[k] < |literals|
  {
    forall k | 0 <= k < |ids| ensures ids[k] < |literals| {
      assert ids[k] in Members(ids);
    }
  }

  // The results of the queries visited for a row on which the given literals were found.
  ghost function VisitBag(env: Env, labels: seq<string>, queries: seq<Query>, litQueries: seq<seq<nat>>, alwaysWake: seq<nat>,
                          row: seq<Value>, ids: seq<nat>): multiset<LabelResult>
  {
    Visited(Answers(env, labels, queries, row), Flat(litQueries, ids)) + Visited(Answers(env, labels, queries, row), alwaysWake)
  }

  // One row: one pass over its bytes, then only the queries that it wakes.
  method BroadcastIndexedRow(env: Env, labels: seq<string>, queries: seq<Query>, litQueries: seq<seq<nat>>, alwaysWake: seq<nat>,
                             ac: AhoCorasick, matched: AhoCorasickMatches, row: seq<Value>)
    returns (out: seq<LabelResult>, ghost ids: seq<nat>)
    requires InRange(|queries|, litQueries, alwaysWake)
    requires ac.Valid() && |ac.patterns| == |litQueries| && matched.Valid() && matched.seen.Length == |ac.patterns|
    modifies matched, matched.seen
    ensures matched.Valid() && matched.seen == old(matched.seen)
    ensures Matched(ac.patterns, row, ids) && multiset(out) == VisitBag(env, labels, queries, litQueries, alwaysWake, row, ids)
  {
    ScanRow(ac, row, matched);
    ids := matched.ids;
    MatchedInRange(ac.patterns, row, ids);
    var woken := AskWoken(env, labels, queries, litQueries, matched.ids, row);
    var rest := AskEach(env, labels, queries, alwaysWake, row);
    out := woken + rest;
  }

  ghost function VisitBags(env: Env, labels: seq<string>, queries: seq<Query>, litQueries: seq<seq<nat>>, alwaysWake: seq<nat>,
                           rows: seq<seq<Value>>, found: seq<seq<nat>>): (bags: seq<multiset<LabelResult>>)
    requires |found| == |rows|
    ensures |bags| == |rows|
    ensures forall r :: 0 <= r < |rows| ==> bags[r] == VisitBag(env, labels, queries, litQueries, alwaysWake, rows[r], found[r])
  {
    seq(|rows|, r requires 0 <= r < |rows| => VisitBag(env, labels, queries, litQueries, alwaysWake, rows[r], found[r]))
  }

  // The literals found in each row so far.
  ghost predicate AllMatched(literals: seq<Str>, rows: seq<seq<Value>>, found: seq<seq<nat>>)
  {
    |found| <= |rows| && forall r :: 0 <= r < |found| ==> Matched(literals, rows[r], found[r])
  }

  // The bag of what the rows so far yielded.
  ghost function VisitedTotal(env: Env, labels: seq<string>, queries: seq<Query>, litQueries: seq<seq<nat>>, alwaysWake: seq<nat>,
                              rows: seq<seq<Value>>, found: seq<seq<nat>>): multiset<LabelResult>
    requires |found| <= |rows|
  {
    Total(VisitBags(env, labels, queries, litQueries, alwaysWake, rows[..|found|], found), |found|)
  }

  lemma {:induction false} VisitsMore(env: Env, labels: seq<string>, queries: seq<Query>, litQueries: seq<seq<nat>>, alwaysWake: seq<nat>,
                                      rows: seq<seq<Value>>, found: seq<seq<nat>>, ids: seq<nat>)
    requires |found| < |rows|
    ensures VisitedTotal(env, labels, queries, litQueries, alwaysWake, rows, found + [ids]) ==
            VisitedTotal(env, labels, queries, litQueries, alwaysWake, rows, found) + VisitBag(env, labels, queries, litQueries, alwaysWake, rows[|found|], ids)
  {
    var r := |found|;
    var bag := VisitBag(env, labels, queries, litQueries, alwaysWake, rows[r], ids);
    BagsExtend(env, labels, queries, litQueries, alwaysWake, rows, found, ids);
    TotalOfMore(VisitBags(env, labels, queries, litQueries, alwaysWake, rows[..r], found), bag, r);
  }

  lemma {:induction false} BagsExtend(env: Env, labels: seq<string>, queries: seq<Query>, litQueries: seq<seq<nat>>, alwaysWake: seq<nat>,
                                      rows: seq<seq<Value>>, found: seq<seq<nat>>, ids: seq<nat>)
    requires |found| < |rows|
    ensures VisitBags(env, labels, queries, litQueries, alwaysWake, rows[..|found + [ids]|], found + [ids]) ==
            VisitBags(env, labels, queries, litQueries, alwaysWake, rows[..|found|], found)
              + [VisitBag(env, labels, queries, litQueries, alwaysWake, rows[|found|], ids)]
  {
  }

  lemma {:induction false} MatchesExtend(literals: seq<Str>, rows: seq<seq<Value>>, found: seq<seq<nat>>, ids: seq<nat>)
    requires |found| < |rows| && Matched(literals, rows[|found|], ids)
    requires AllMatched(literals, rows, found)
    ensures AllMatched(literals, rows, found + [ids])
  {
  }

  method BroadcastIndexedRows(env: Env, labels: seq<string>, queries: seq<Query>, litQueries: seq<seq<nat>>, alwaysWake: seq<nat>,
                              ac: AhoCorasick, matched: AhoCorasickMatches, rows: seq<seq<Value>>)
    returns (out: seq<LabelResult>, ghost found: seq<seq<nat>>)
    requires InRange(|queries|, litQueries, alwaysWake)
    requires ac.Valid() && |ac.patterns| == |litQueries| && matched.Valid() && matched.seen.Length == |ac.patterns|
    modifies matched, matched.seen
    ensures |found| == |rows| && AllMatched(ac.patterns, rows, found)
    ensures multiset(out) == VisitedTotal(env, labels, queries, litQueries, alwaysWake, rows, found)
  {
    out, found := [], [];
    for r := 0 to |rows|
      invariant matched.Valid() && matched.seen == old(matched.seen)
      invariant |found| == r && AllMatched(ac.patterns, rows, found)
      invariant multiset(out) == VisitedTotal(env, labels, queries, litQueries, alwaysWake, rows, found)
    {
      var results;
      ghost var ids;
      results, ids := BroadcastIndexedRow(env, labels, queries, litQueries, alwaysWake, ac, matched, rows[r]);
      VisitsMore(env, labels, queries, litQueries, alwaysWake, rows, found, ids);
      MatchesExtend(ac.patterns, rows, found, ids);
      out, found := out + results, found + [ids];
    }
  }

  lemma {:induction false} TotalOfMore<T>(bags: seq<multiset<T>>, bag: multiset<T>, n: nat)
    requires n <= |bags|
    ensures Total(bags + [bag], n) == Total(bags, n)
    decreases n
  {
    if n > 0 {
      TotalOfMore(bags, bag, n - 1);
    }
  }

  // The visits of an indexed corpus are those of the woken queries.
  lemma {:induction false} VisitsGiveWokenRow(env: Env, labels: seq<string>, queries: seq<Query>, litIDs: map<Str, nat>, literals: seq<Str>,
                                              litQueries: seq<seq<nat>>, alwaysWake: seq<nat>, row: seq<Value>, ids: seq<nat>)
    requires Keyed(queries, |queries|, litIDs, literals, litQueries, alwaysWake) && Matched(literals, row, ids)
    ensures VisitBag(env, labels, queries, litQueries, alwaysWake, row, ids) == WokenRow(env, labels, queries, row)
  {
    var answers, flat := Answers(env, labels, queries, row), Flat(litQueries, ids);
    VisitedAppend(answers, flat, alwaysWake);
    VisitsTheAwake(queries, litIDs, literals, litQueries, alwaysWake, row, ids);
    VisitedIsChosen(answers, Awake(queries, row), |queries|, flat + alwaysWake);
  }

  lemma {:induction false} VisitsGiveWokenFanout(env: Env, labels: seq<string>, queries: seq<Query>, litIDs: map<Str, nat>, literals: seq<Str>,
                                                 litQueries: seq<seq<nat>>, alwaysWake: seq<nat>, rows: seq<seq<Value>>, found: seq<seq<nat>>)
    requires Keyed(queries, |queries|, litIDs, literals, litQueries, alwaysWake)
    requires |found| == |rows| && AllMatched(literals, rows, found)
    ensures VisitedTotal(env, labels, queries, litQueries, alwaysWake, rows, found) == WokenFanout(env, labels, queries, rows)
  {
    assert rows[..|rows|] == rows;
    var bags := VisitBags(env, labels, queries, litQueries, alwaysWake, rows, found);
    forall r | 0 <= r < |rows| ensures bags[r] == WokenRow(env, labels, queries, rows[r]) {
      VisitsGiveWokenRow(env, labels, queries, litIDs, literals, litQueries, alwaysWake, rows[r], found[r]);
    }
    assert bags == WokenRows(env, labels, queries, rows);
  }

  // The sparse fan-out answers for exactly the woken queries; when every predicate's literal comes
  // from an operand that is evaluated, that is the plain fan-out's bag of results.
  method BroadcastIndexedExec(env: Env, labels: seq<string>, queries: seq<Query>, rows: seq<seq<Value>>)
    returns (out: seq<LabelResult>)
    ensures multiset(out) == WokenFanout(env, labels, queries, rows)
    ensures Sound(env, queries) ==> multiset(out) == multiset(Fanout(env, labels, queries, rows))
  {
    var literals, litQueries, alwaysWake;
    ghost var litIDs;
    literals, litQueries, alwaysWake, litIDs := KeyQueries(queries);
    KeyedInRange(queries, litIDs, literals, litQueries, alwaysWake);
    var ac := new AhoCorasick(literals);
    var matched := ac.NewMatchSet();
    ghost var found;
    out, found := BroadcastIndexedRows(env, labels, queries, litQueries, alwaysWake, ac, matched, rows);
    VisitsGiveWokenFanout(env, labels, queries, litIDs, literals, litQueries, alwaysWake, rows, found);
    SparseIsPlain(env, labels, queries, rows);
  }
}
