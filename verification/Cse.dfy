// engine/op_broadcast_cse.go: shared sub-expressions computed once per row, below the broadcast.
module Cse {
  import opened Expr
  import opened Broadcast
  import opened Selection
  import Json

  // ---------------------------------------------------------------- counting

  // How many sub-expression trees of n are the tree k. Canonical serialization is injective on trees,
  // so a tree stands for its own key.
  function Occurrences(n: Node, k: Node): (c: nat)
    decreases n, 1
  {
    if n.List? then (if IsTree(n) && n == k then 1 else 0) + OccurrencesIn(n.items, k) else 0
  }

  function OccurrencesIn(items: seq<Node>, k: Node): (c: nat)
    decreases items, 0
  {
    if items == [] then 0 else Occurrences(items[0], k) + OccurrencesIn(items[1..], k)
  }

  function CountAt(counts: map<Node, nat>, k: Node): nat
  {
    if k in counts then counts[k] else 0
  }

  // cseCount: the tally grows by every tree in n, at any depth.
  method CseCount(n: Node, counts: map<Node, nat>) returns (counts': map<Node, nat>)
    ensures forall k :: CountAt(counts', k) == CountAt(counts, k) + Occurrences(n, k)
    ensures forall k :: k in counts' ==> k in counts || (IsTree(k) && CountAt(counts', k) > 0)
    decreases n, 1
  {
    counts' := counts;
    if !n.List? {
      return;
    }
    if IsTree(n) {
      counts' := counts'[n := CountAt(counts', n) + 1];
    }
    counts' := CseCountIn(n.items, counts');
  }

  method CseCountIn(items: seq<Node>, counts: map<Node, nat>) returns (counts': map<Node, nat>)
    ensures forall k :: CountAt(counts', k) == CountAt(counts, k) + OccurrencesIn(items, k)
    ensures forall k :: k in counts' ==> k in counts || (IsTree(k) && CountAt(counts', k) > 0)
    decreases items, 0
  {
    counts' := counts;
    if items != [] {
      counts' := CseCount(items[0], counts');
      counts' := CseCountIn(items[1..], counts');
    }
  }

  // ---------------------------------------------------------------- what is counted

  // Following path, an index per level, leads from n to k.
  ghost predicate LeadsTo(n: Node, path: seq<nat>, k: Node)
    decreases |path|
  {
    if path == [] then n == k else n.List? && path[0] < |n.items| && LeadsTo(n.items[path[0]], path[1..], k)
  }

  ghost predicate AllDifferent(paths: seq<seq<nat>>)
  {
    forall i, j :: 0 <= i < j < |paths| ==> paths[i] != paths[j]
  }

  // The paths below the items from index i on.
  ghost predicate LeadsFrom(items: seq<Node>, i: nat, path: seq<nat>, k: Node)
  {
    path != [] && i <= path[0] < |items| && LeadsTo(items[path[0]], path[1..], k)
  }

  function Under(i: nat, paths: seq<seq<nat>>): (r: seq<seq<nat>>)
    ensures |r| == |paths| && forall p :: 0 <= p < |paths| ==> r[p] == [i] + paths[p]
  {
    seq(|paths|, p requires 0 <= p < |paths| => [i] + paths[p])
  }

  lemma {:induction false} UnderIs(i: nat, paths: seq<seq<nat>>)
    requires AllDifferent(paths)
    ensures AllDifferent(Under(i, paths))
    ensures forall path :: path in Under(i, paths) <==> path != [] && path[0] == i && path[1..] in paths
  {
    var under := Under(i, paths);
    forall p, q | 0 <= p < q < |under| ensures under[p] != under[q] {
      assert under[p][1..] == paths[p] && under[q][1..] == paths[q];
    }
    forall path ensures path in under <==> path != [] && path[0] == i && path[1..] in paths {
      if path in under {
        var p :| 0 <= p < |under| && under[p] == path;
        assert path[1..] == paths[p];
      }
      if path != [] && path[0] == i && path[1..] in paths {
        var p :| 0 <= p < |paths| && paths[p] == path[1..];
        assert path == [i] + path[1..] == under[p];
      }
    }
  }

  // A tree occurs as often as there are ways down to it.
  lemma {:induction false} OccurrencesArePaths(n: Node, k: Node) returns (paths: seq<seq<nat>>)
    requires IsTree(k)
    ensures |paths| == Occurrences(n, k) && AllDifferent(paths) && forall path :: path in paths <==> LeadsTo(n, path, k)
    decreases n, 1
  {
    paths := [];
    if n.List? {
      var below := OccurrencesBelow(n, n.items, 0, k);
      forall q | 0 <= q < |below| ensures below[q] != [] {
        assert below[q] in below;
      }
      paths := if n == k then [[]] + below else below;
      forall path ensures path in paths <==> LeadsTo(n, path, k) {
        assert path != [] ==> (LeadsTo(n, path, k) <==> LeadsFrom(n.items, 0, path, k));
      }
    }
  }

  lemma {:induction false} OccurrencesBelow(n: Node, items: seq<Node>, i: nat, k: Node) returns (paths: seq<seq<nat>>)
    requires IsTree(k) && n.List? && i <= |n.items| && items == n.items[i..]
    ensures |paths| == OccurrencesIn(items, k) && AllDifferent(paths) && forall path :: path in paths <==> LeadsFrom(n.items, i, path, k)
    decreases n, 0, items
  {
    paths := [];
    if items != [] {
      var first := OccurrencesArePaths(items[0], k);
      var rest := OccurrencesBelow(n, items[1..], i + 1, k);
      UnderIs(i, first);
      paths := Under(i, first) + rest;
      BelowSplits(n, i, k, Under(i, first), rest);
    }
  }

  lemma {:induction false} BelowSplits(n: Node, i: nat, k: Node, first: seq<seq<nat>>, rest: seq<seq<nat>>)
    requires n.List? && i < |n.items| && AllDifferent(first) && AllDifferent(rest)
    requires forall path :: path in first <==> path != [] && path[0] == i && LeadsTo(n.items[i], path[1..], k)
    requires forall path :: path in rest <==> LeadsFrom(n.items, i + 1, path, k)
    ensures AllDifferent(first + rest) && forall path :: path in first + rest <==> LeadsFrom(n.items, i, path, k)
  {
    forall p, q | 0 <= p < q < |first + rest| ensures (first + rest)[p] != (first + rest)[q] {
      if p < |first| <= q {
        assert (first + rest)[p] in first && (first + rest)[q] in rest;
      }
    }
  }

  // ---------------------------------------------------------------- rewriting

  // cseTrivial
  predicate Trivial(t: Node)
  {
    HasHead(t, "json") || HasHead(t, "labelPath") || HasHead(t, "labelUint64")
  }

  function Digits(n: nat): (s: string)
    ensures |s| > 0
  {
    if n < 10 then ['0' + (n as char)] else Digits(n / 10) + ['0' + ((n % 10) as char)]
  }

  // The synthetic label of the i-th candidate.
  function CseLabel(i: nat): string
  {
    "^cse" + Digits(i)
  }

  // cseRewrite: a candidate is replaced whole before anything inside it is looked at.
  function Rewrite(cands: seq<Node>, n: Node): (r: Node)
    ensures IsTree(r) <==> IsTree(n)
    ensures n.Word? || n.Const? ==> r == n
    ensures n.List? ==> r.List?
    decreases n, 1
  {
    if !n.List? then n
    else if IsTree(n) && n in cands then List([Word("labelPath"), Word(CseLabel(Position(cands, n)))])
    else
      var items := RewriteItems(cands, n.items);
      assert n.items != [] ==> items[0].Word? == n.items[0].Word?;
      List(items)
  }

  function RewriteItems(cands: seq<Node>, items: seq<Node>): (r: seq<Node>)
    ensures |r| == |items|
    ensures forall i :: 0 <= i < |items| ==> r[i] == Rewrite(cands, items[i])
    decreases items, 0
  {
    if items == [] then [] else [Rewrite(cands, items[0])] + RewriteItems(cands, items[1..])
  }

  function Position(cands: seq<Node>, n: Node): (i: nat)
    requires n in cands
    ensures i < |cands| && cands[i] == n
  {
    if cands[0] == n then 0 else 1 + Position(cands[1..], n)
  }

  // ---------------------------------------------------------------- the precomputed row

  const ReadRow: Node := List([Word("labelPath"), Word(".")])

  function CseLabels(n: nat): (labels: seq<string>)
    ensures |labels| == n
    ensures forall i :: 0 <= i < n ==> labels[i] == CseLabel(i)
  {
    seq(n, i requires 0 <= i < n => CseLabel(i))
  }

  function RowLabels(cands: seq<Node>): seq<string>
  {
    ["."] + CseLabels(|cands|)
  }

  function Precomputed(env: Env, labels: seq<string>, row: seq<Value>, cands: seq<Node>): seq<Value>
  {
    Project(env, labels, row, [ReadRow] + cands)
  }

  lemma {:induction false} DigitsAreDistinct(m: nat, n: nat)
    requires Digits(m) == Digits(n)
    ensures m == n
    decreases m
  {
    if m >= 10 && n >= 10 {
      var a, b := Digits(m / 10), Digits(n / 10);
      assert Digits(m)[..|Digits(m)| - 1] == a && Digits(n)[..|Digits(n)| - 1] == b;
      assert Digits(m)[|a|] == '0' + ((m % 10) as char) && Digits(n)[|b|] == '0' + ((n % 10) as char);
      DigitsAreDistinct(m / 10, n / 10);
    } else if m < 10 && n < 10 {
      assert Digits(m)[0] == '0' + (m as char);
    }
  }

  lemma CseLabelsAreDistinct(m: nat, n: nat)
    requires CseLabel(m) == CseLabel(n)
    ensures m == n
  {
    assert CseLabel(m)[4..] == Digits(m) && CseLabel(n)[4..] == Digits(n);
    DigitsAreDistinct(m, n);
  }

  lemma {:induction false} IndexOfCse(cands: seq<Node>, i: nat)
    requires i < |cands|
    ensures IndexOf(RowLabels(cands), CseLabel(i)) == i + 1
  {
    var labels := RowLabels(cands);
    var idx := IndexOf(labels, CseLabel(i));
    assert labels[i + 1] == CseLabel(i);
    assert CseLabel(i)[0] == '^' && labels[0] != CseLabel(i);
    if idx > 0 {
      CseLabelsAreDistinct(idx - 1, i);
    }
  }

  // ---------------------------------------------------------------- meaning is preserved

  // A read of label l gives the same before and after: it is the row itself, or never there.
  predicate LabelKept(labels: seq<string>, n: nat, l: string)
  {
    l == "." || (l !in labels && l !in CseLabels(n))
  }

  ghost predicate Inert(n: Node)
    decreases n
  {
    n.List? ==> !IsTree(n) && forall i :: 0 <= i < |n.items| ==> Inert(n.items[i])
  }

  // Operators that look past their arguments, at the row's slots or labels, a bound variable or the window's
  // own variables.
  predicate SeesRow(head: string)
  {
    head in ["labelUint64", "valsEncode", "valsEncodeCanonical", "self", "exprStr", "exprTree",
             "any", "every", "first", "array", "object",
             "window-partition-row-number", "window-frame-count", "window-frame-step-value"]
  }

  // Every operator looks at its arguments only, each item under it is a tree or has none inside, and label
  // reads are of kept labels.
  ghost predicate Plain(labels: seq<string>, cands: nat, n: Node)
    decreases n
  {
    IsTree(n) ==>
      && !SeesRow(n.items[0].w)
      && (HasHead(n, "labelPath") && |n.items| >= 2 && n.items[1].Word? ==> LabelKept(labels, cands, n.items[1].w))
      && (!Trivial(n) ==> forall i :: 1 <= i < |n.items| ==> if IsTree(n.items[i]) then Plain(labels, cands, n.items[i]) else Inert(n.items[i]))
  }

  lemma {:induction false} InertStays(cands: seq<Node>, n: Node)
    requires Inert(n)
    ensures Rewrite(cands, n) == n
    decreases n
  {
    if n.List? {
      forall i | 0 <= i < |n.items| ensures Rewrite(cands, n.items[i]) == n.items[i] {
        InertStays(cands, n.items[i]);
      }
      assert RewriteItems(cands, n.items) == n.items;
    }
  }

  lemma {:induction false} StepsStay(cands: seq<Node>, items: seq<Node>)
    ensures Steps(RewriteItems(cands, items)) == Steps(items)
    decreases items
  {
    if items != [] {
      StepsStay(cands, items[1..]);
      assert RewriteItems(cands, items)[1..] == RewriteItems(cands, items[1..]);
    }
  }

  // A kept label reads the same from the precomputed row.
  lemma {:induction false} ReadStays(env: Env, labels: seq<string>, row: seq<Value>, cands: seq<Node>, items: seq<Node>)
    requires |items| >= 2 && items[1].Word? ==> LabelKept(labels, |cands|, items[1].w)
    ensures ReadLabel(env, RowLabels(cands), Precomputed(env, labels, row, cands), items) == ReadLabel(env, labels, row, items)
  {
    if |items| >= 2 && items[1].Word? {
      var l := items[1].w;
      if l == "." {
        var got := Eval(env, labels, row, ReadRow);
        assert Precomputed(env, labels, row, cands)[0] == got;
        assert got == ReadLabel(env, labels, row, ReadRow.items);
        assert IndexOf(RowLabels(cands), ".") == 0;
      } else {
        assert l !in RowLabels(cands);
      }
    }
  }

  lemma {:induction false} RewrittenRead(env: Env, labels: seq<string>, row: seq<Value>, cands: seq<Node>, items: seq<Node>)
    requires |items| >= 2 && items[1].Word? ==> LabelKept(labels, |cands|, items[1].w)
    ensures ReadLabel(env, RowLabels(cands), Precomputed(env, labels, row, cands), RewriteItems(cands, items)) == ReadLabel(env, labels, row, items)
  {
    var items' := RewriteItems(cands, items);
    if |items| >= 2 {
      assert items'[2..] == RewriteItems(cands, items[2..]);
      StepsStay(cands, items[2..]);
    }
    ReadStays(env, labels, row, cands, items);
    SameRead(env, RowLabels(cands), Precomputed(env, labels, row, cands), items, items');
  }

  lemma SameRead(env: Env, labels: seq<string>, row: seq<Value>, a: seq<Node>, b: seq<Node>)
    requires |a| == |b|
    requires |a| >= 2 ==> a[1].Word? == b[1].Word? && (a[1].Word? ==> a[1] == b[1]) && Steps(a[2..]) == Steps(b[2..])
    ensures ReadLabel(env, labels, row, a) == ReadLabel(env, labels, row, b)
  {
  }

  // A candidate's slot holds its value.
  lemma {:induction false} SlotHolds(env: Env, labels: seq<string>, row: seq<Value>, cands: seq<Node>, n: Node)
    requires IsTree(n) && n in cands
    ensures Eval(env, RowLabels(cands), Precomputed(env, labels, row, cands), Rewrite(cands, n)) == Eval(env, labels, row, n)
  {
    var i := Position(cands, n);
    IndexOfCse(cands, i);
    assert ([ReadRow] + cands)[i + 1] == n;
    assert Rewrite(cands, n).items == [Word("labelPath"), Word(CseLabel(i))];
    assert Precomputed(env, labels, row, cands)[i + 1] == Eval(env, labels, row, n);
  }

  // Evaluating the rewritten tree on the precomputed row is evaluating the tree on the row.
  lemma {:induction false} RewriteKeepsMeaning(env: Env, labels: seq<string>, row: seq<Value>, cands: seq<Node>, n: Node)
    requires Plain(labels, |cands|, n)
    ensures Eval(env, RowLabels(cands), Precomputed(env, labels, row, cands), Rewrite(cands, n)) == Eval(env, labels, row, n)
    decreases n
  {
    if IsTree(n) {
      if n in cands {
        SlotHolds(env, labels, row, cands, n);
      } else if HasHead(n, "labelPath") {
        RewrittenRead(env, labels, row, cands, n.items);
      } else if !HasHead(n, "json") {
        var labels', row' := RowLabels(cands), Precomputed(env, labels, row, cands);
        var items, items' := n.items[1..], RewriteItems(cands, n.items)[1..];
        forall i | 0 <= i < |items| ensures EvalArgs(env, labels', row', items')[i] == EvalArgs(env, labels, row, items)[i] {
          assert items[i] == n.items[i + 1] && items'[i] == Rewrite(cands, n.items[i + 1]);
          if IsTree(items[i]) {
            RewriteKeepsMeaning(env, labels, row, cands, items[i]);
          } else {
            InertStays(cands, items[i]);
          }
        }
        assert EvalArgs(env, labels', row', items') == EvalArgs(env, labels, row, items);
      }
    }
  }

  // ---------------------------------------------------------------- the plan

  function RewriteQuery(cands: seq<Node>, q: Query): Query
  {
    Query(q.tag, Rewrite(cands, q.pred), RewriteItems(cands, q.proj))
  }

  function RewriteQueries(cands: seq<Node>, queries: seq<Query>): (r: seq<Query>)
    ensures |r| == |queries|
    ensures forall i :: 0 <= i < |queries| ==> r[i] == RewriteQuery(cands, queries[i])
  {
    seq(|queries|, i requires 0 <= i < |queries| => RewriteQuery(cands, queries[i]))
  }

  function PrecomputedRows(env: Env, labels: seq<string>, rows: seq<seq<Value>>, cands: seq<Node>): (r: seq<seq<Value>>)
    ensures |r| == |rows|
    ensures forall i :: 0 <= i < |rows| ==> r[i] == Precomputed(env, labels, rows[i], cands)
  {
    seq(|rows|, i requires 0 <= i < |rows| => Precomputed(env, labels, rows[i], cands))
  }

  ghost predicate PlainQuery(labels: seq<string>, cands: nat, q: Query)
  {
    Plain(labels, cands, q.pred) && forall i :: 0 <= i < |q.proj| ==> Plain(labels, cands, q.proj[i])
  }

  lemma {:induction false} AnswerStays(env: Env, labels: seq<string>, row: seq<Value>, cands: seq<Node>, q: Query)
    requires PlainQuery(labels, |cands|, q)
    ensures Answer(env, RowLabels(cands), RewriteQuery(cands, q), Precomputed(env, labels, row, cands)) == Answer(env, labels, q, row)
  {
    var labels', row', q' := RowLabels(cands), Precomputed(env, labels, row, cands), RewriteQuery(cands, q);
    RewriteKeepsMeaning(env, labels, row, cands, q.pred);
    forall i | 0 <= i < |q.proj| ensures Eval(env, labels', row', q'.proj[i]) == Eval(env, labels, row, q.proj[i]) {
      RewriteKeepsMeaning(env, labels, row, cands, q.proj[i]);
    }
    assert Project(env, labels', row', q'.proj) == Project(env, labels, row, q.proj);
  }

  // The rewritten broadcast over the precomputed rows is the broadcast over the rows, result for result,
  // whatever is chosen to be shared.
  lemma {:induction false} CseKeepsResults(env: Env, labels: seq<string>, rows: seq<seq<Value>>, cands: seq<Node>, queries: seq<Query>)
    requires forall i :: 0 <= i < |queries| ==> PlainQuery(labels, |cands|, queries[i])
    ensures Fanout(env, RowLabels(cands), RewriteQueries(cands, queries), PrecomputedRows(env, labels, rows, cands)) == Fanout(env, labels, queries, rows)
  {
    var labels', rows', queries' := RowLabels(cands), PrecomputedRows(env, labels, rows, cands), RewriteQueries(cands, queries);
    forall r | 0 <= r < |rows| ensures RowResults(env, labels', queries', rows')[r] == RowResults(env, labels, queries, rows)[r] {
      forall i | 0 <= i < |queries| ensures Answers(env, labels', queries', rows'[r])[i] == Answers(env, labels, queries, rows[r])[i] {
        AnswerStays(env, labels, rows[r], cands, queries[i]);
      }
      assert Answers(env, labels', queries', rows'[r]) == Answers(env, labels, queries, rows[r]);
    }
    assert RowResults(env, labels', queries', rows') == RowResults(env, labels, queries, rows);
  }

  function CorpusOccurrences(queries: seq<Query>, n: nat, k: Node): nat
    requires n <= |queries|
  {
    if n == 0 then 0
    else CorpusOccurrences(queries, n - 1, k) + Occurrences(queries[n - 1].pred, k) + Occurrences(List(queries[n - 1].proj), k)
  }

  ghost predicate Shared(queries: seq<Query>, k: Node)
  {
    IsTree(k) && !Trivial(k) && CorpusOccurrences(queries, |queries|, k) >= 2
  }

  // What is handed to the engine: the labels and expressions of the projection below the broadcast, if
  // anything is shared, and the queries.
  datatype Plan = Plan(labels: seq<string>, precompute: seq<Node>, queries: seq<Query>)

  // Exactly the shared terms are candidates, each once.
  ghost predicate Candidates(queries: seq<Query>, cands: seq<Node>)
  {
    (forall k :: k in cands <==> Shared(queries, k)) && NoRepeats(cands)
  }

  ghost predicate NoRepeats(cands: seq<Node>)
  {
    forall i, j :: 0 <= i < j < |cands| ==> cands[i] != cands[j]
  }

  method CountCorpus(queries: seq<Query>) returns (counts: map<Node, nat>)
    ensures forall k :: CountAt(counts, k) == CorpusOccurrences(queries, |queries|, k)
    ensures forall k :: k in counts ==> IsTree(k)
  {
    counts := map[];
    for i: nat := 0 to |queries|
      invariant forall k :: CountAt(counts, k) == CorpusOccurrences(queries, i, k)
      invariant forall k :: k in counts ==> IsTree(k)
    {
      counts := CseCount(queries[i].pred, counts);
      counts := CseCount(List(queries[i].proj), counts);
    }
  }

  // Occurs at least twice and is not a leaf. The source sorts these by key; any order will do.
  method SelectCandidates(counts: map<Node, nat>) returns (cands: seq<Node>)
    ensures forall k :: k in cands <==> k in counts && counts[k] >= 2 && !Trivial(k)
    ensures NoRepeats(cands)
  {
    cands := [];
    var todo := counts.Keys;
    while todo != {}
      invariant todo <= counts.Keys
      invariant forall k :: k in cands <==> k in counts && k !in todo && counts[k] >= 2 && !Trivial(k)
      invariant NoRepeats(cands)
      decreases |todo|
    {
      var k :| k in todo;
      if counts[k] >= 2 && !Trivial(k) {
        cands := cands + [k];
      }
      todo := todo - {k};
    }
  }

  // The plan that shares these candidates: without any, the plain broadcast.
  function PlanOf(labels: seq<string>, queries: seq<Query>, cands: seq<Node>): Plan
  {
    if cands == [] then Plan(labels, [], queries)
    else Plan(RowLabels(cands), [ReadRow] + cands, RewriteQueries(cands, queries))
  }

  // A plan's run: the projection below the broadcast, if there is one, then the broadcast.
  function RunPlan(env: Env, labels: seq<string>, plan: Plan, rows: seq<seq<Value>>): seq<LabelResult>
  {
    Fanout(env, plan.labels, plan.queries,
           if plan.precompute == [] then rows
           else seq(|rows|, i requires 0 <= i < |rows| => Project(env, labels, rows[i], plan.precompute)))
  }

  lemma {:induction false} PlanKeepsResults(env: Env, labels: seq<string>, queries: seq<Query>, cands: seq<Node>, rows: seq<seq<Value>>)
    requires forall i :: 0 <= i < |queries| ==> PlainQuery(labels, |cands|, queries[i])
    ensures RunPlan(env, labels, PlanOf(labels, queries, cands), rows) == Fanout(env, labels, queries, rows)
  {
    if cands != [] {
      var exprs := [ReadRow] + cands;
      assert seq(|rows|, i requires 0 <= i < |rows| => Project(env, labels, rows[i], exprs)) == PrecomputedRows(env, labels, rows, cands);
      CseKeepsResults(env, labels, rows, cands, queries);
    }
  }

  method BroadcastCSE(labels: seq<string>, queries: seq<Query>) returns (plan: Plan)
    ensures exists cands :: Candidates(queries, cands) && plan == PlanOf(labels, queries, cands)
  {
    var counts := CountCorpus(queries);
    var keys := SelectCandidates(counts);
    forall k ensures k in keys <==> Shared(queries, k) {
      assert CountAt(counts, k) == CorpusOccurrences(queries, |queries|, k);
    }
    if keys == [] {
      plan := Plan(labels, [], queries);
      assert Candidates(queries, keys) && plan == PlanOf(labels, queries, keys);
      return;
    }
    var projLabels, projExprs := ["."], [ReadRow];
    for i: nat := 0 to |keys|
      invariant projLabels == ["."] + CseLabels(i)
      invariant projExprs == [ReadRow] + keys[..i]
    {
      projLabels := projLabels + [CseLabel(i)];
      projExprs := projExprs + [keys[i]];
    }
    assert keys[..|keys|] == keys;
    var rewritten: seq<Query> := [];
    for i := 0 to |queries|
      invariant rewritten == RewriteQueries(keys, queries)[..i]
    {
      rewritten := rewritten + [RewriteQuery(keys, queries[i])];
    }
    plan := Plan(projLabels, projExprs, rewritten);
    assert Candidates(queries, keys) && plan == PlanOf(labels, queries, keys);
  }

  // ---------------------------------------------------------------- nothing shared is left

  predicate CseRead(m: nat, n: Node)
  {
    HasHead(n, "labelPath") && |n.items| >= 2 && n.items[1].Word? && n.items[1].w in CseLabels(m)
  }

  // Somewhere in n a synthetic slot is read.
  predicate ReadsCse(m: nat, n: Node)
    decreases n, 1
  {
    n.List? && (CseRead(m, n) || ReadsCseIn(m, n.items))
  }

  predicate ReadsCseIn(m: nat, items: seq<Node>)
    decreases items, 0
  {
    items != [] && (ReadsCse(m, items[0]) || ReadsCseIn(m, items[1..]))
  }

  // Rewriting leaves a tree alone or leaves a synthetic read in it.
  lemma {:induction false} RewriteShows(cands: seq<Node>, n: Node)
    ensures Rewrite(cands, n) == n || ReadsCse(|cands|, Rewrite(cands, n))
    decreases n, 1
  {
    if n.List? {
      if IsTree(n) && n in cands {
        var i := Position(cands, n);
        assert CseLabels(|cands|)[i] == CseLabel(i);
      } else {
        RewriteItemsShows(cands, n.items);
      }
    }
  }

  lemma {:induction false} RewriteItemsShows(cands: seq<Node>, items: seq<Node>)
    ensures RewriteItems(cands, items) == items || ReadsCseIn(|cands|, RewriteItems(cands, items))
    decreases items, 0
  {
    if items != [] {
      RewriteShows(cands, items[0]);
      RewriteItemsShows(cands, items[1..]);
      assert RewriteItems(cands, items)[1..] == RewriteItems(cands, items[1..]);
    }
  }

  // In a rewritten tree no candidate is left to be computed again.
  lemma {:induction false} SharedIsGone(cands: seq<Node>, n: Node, c: Node)
    requires c in cands && IsTree(c) && !Trivial(c) && !ReadsCse(|cands|, c)
    ensures Occurrences(Rewrite(cands, n), c) == 0
    decreases n, 1
  {
    if n.List? {
      if IsTree(n) && n in cands {
        var lbl := Word(CseLabel(Position(cands, n)));
        assert Rewrite(cands, n) == List([Word("labelPath"), lbl]);
        assert OccurrencesIn([Word("labelPath"), lbl], c) == Occurrences(Word("labelPath"), c) + OccurrencesIn([lbl], c);
        assert [Word("labelPath"), lbl][1..] == [lbl];
      } else {
        SharedIsGoneIn(cands, n.items, c);
        RewriteShows(cands, n);
      }
    }
  }

  lemma {:induction false} SharedIsGoneIn(cands: seq<Node>, items: seq<Node>, c: Node)
    requires c in cands && IsTree(c) && !Trivial(c) && !ReadsCse(|cands|, c)
    ensures OccurrencesIn(RewriteItems(cands, items), c) == 0
    decreases items, 0
  {
    if items != [] {
      SharedIsGone(cands, items[0], c);
      SharedIsGoneIn(cands, items[1..], c);
      assert RewriteItems(cands, items)[1..] == RewriteItems(cands, items[1..]);
    }
  }

  // ---------------------------------------------------------------- the labels that are lost

  // The precomputed row passes only label "." on. Any other label that the scan has is read as MISSING
  // from then on: reading label l means the same, on every row, exactly when l is "." or not the scan's.
  lemma {:induction false} KeptLabels(env: Env, labels: seq<string>, cands: seq<Node>, l: string)
    requires l !in CseLabels(|cands|)
    ensures (forall row: seq<Value> ::
              Eval(env, RowLabels(cands), Precomputed(env, labels, row, cands), List([Word("labelPath"), Word(l)])) == Eval(env, labels, row, List([Word("labelPath"), Word(l)])))
            <==> LabelKept(labels, |cands|, l)
  {
    var n := List([Word("labelPath"), Word(l)]);
    if LabelKept(labels, |cands|, l) {
      forall row: seq<Value> ensures Eval(env, RowLabels(cands), Precomputed(env, labels, row, cands), n) == Eval(env, labels, row, n) {
        ReadStays(env, labels, row, cands, n.items);
      }
    } else {
      var row := seq(|labels|, i => Val(Json.Null));
      assert l !in RowLabels(cands);
      assert Eval(env, RowLabels(cands), Precomputed(env, labels, row, cands), n) == Missing;
      assert Eval(env, labels, row, n) == row[IndexOf(labels, l)];
    }
  }
}
