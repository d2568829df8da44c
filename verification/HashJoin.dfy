// engine/op_join_hash.go: the hash join's output, and INTERSECT and EXCEPT by the same probe map.
module HashJoin {
  import opened Bytes
  import opened HashProbe
  import opened Selection

  datatype Pair<L, R> = Pair(left: L, right: Opt<R>)

  // ---------------------------------------------------------------- what the joins owe

  // The nested loop: equal keys join, NULL keys never do.
  ghost function JoinedTo<L, R>(lefts: seq<Keyed<L>>, m: nat, right: Keyed<R>): multiset<Pair<L, R>>
    requires m <= |lefts|
  {
    if m == 0 then multiset{}
    else JoinedTo(lefts, m - 1, right) +
         (if ValuedKey(lefts[m - 1].key) && ValuedKey(right.key) && lefts[m - 1].key == right.key then multiset{Pair(lefts[m - 1].row, Some(right.row))} else multiset{})
  }

  ghost function JoinBags<L, R>(lefts: seq<Keyed<L>>, rights: seq<Keyed<R>>): (bags: seq<multiset<Pair<L, R>>>)
    ensures |bags| == |rights| && forall j :: 0 <= j < |rights| ==> bags[j] == JoinedTo(lefts, |lefts|, rights[j])
  {
    seq(|rights|, j requires 0 <= j < |rights| => JoinedTo(lefts, |lefts|, rights[j]))
  }

  ghost function NestedLoop<L, R>(lefts: seq<Keyed<L>>, rights: seq<Keyed<R>>, n: nat): multiset<Pair<L, R>>
    requires n <= |rights|
  {
    Total(JoinBags(lefts, rights), n)
  }

  // A left row that no right row joins.
  ghost predicate Alone<R>(rights: seq<Keyed<R>>, key: Str)
  {
    !ValuedKey(key) || Count(rights, |rights|, key) == 0
  }

  // Those of the first m left rows, with a key in the given set, each once.
  ghost function AloneRows<L, R>(lefts: seq<Keyed<L>>, m: nat, rights: seq<Keyed<R>>, keys: set<Str>): multiset<Pair<L, R>>
    requires m <= |lefts|
  {
    if m == 0 then multiset{}
    else AloneRows(lefts, m - 1, rights, keys) + AloneRow(lefts[m - 1], rights, keys)
  }

  ghost function AllKeys<L>(lefts: seq<Keyed<L>>, m: nat): set<Str>
    requires m <= |lefts|
  {
    if m == 0 then {} else AllKeys(lefts, m - 1) + {lefts[m - 1].key}
  }

  function Beside<L, R>(rows: seq<L>, right: Opt<R>): (pairs: seq<Pair<L, R>>)
    ensures |pairs| == |rows| && forall i :: 0 <= i < |rows| ==> pairs[i] == Pair(rows[i], right)
  {
    seq(|rows|, i requires 0 <= i < |rows| => Pair(rows[i], right))
  }

  ghost function BagBeside<L, R>(rows: seq<L>, right: Opt<R>): multiset<Pair<L, R>>
  {
    if rows == [] then multiset{} else multiset{Pair(rows[0], right)} + BagBeside(rows[1..], right)
  }

  lemma {:induction false} BesideIsBag<L, R>(rows: seq<L>, right: Opt<R>)
    ensures multiset(Beside(rows, right)) == BagBeside(rows, right)
    decreases |rows|
  {
    if rows != [] {
      assert Beside(rows, right) == [Pair(rows[0], right)] + Beside(rows[1..], right);
      BesideIsBag(rows[1..], right);
    }
  }

  // The chain of a key holds what the nested loop would join.
  lemma {:induction false} ChainIsJoined<L, R>(lefts: seq<Keyed<L>>, m: nat, right: Keyed<R>)
    requires m <= |lefts| && ValuedKey(right.key)
    ensures BagBeside(Matching(lefts, m, right.key), Some(right.row)) == JoinedTo(lefts, m, right)
    decreases m
  {
    if m > 0 {
      ChainIsJoined(lefts, m - 1, right);
      MatchingMoves(lefts, m, right.key, Some(right.row));
    }
  }

  lemma {:induction false} MatchingMoves<L, R>(lefts: seq<Keyed<L>>, m: nat, key: Str, right: Opt<R>)
    requires 0 < m <= |lefts|
    ensures BagBeside(Matching(lefts, m, key), right) ==
            (if lefts[m - 1].key == key then multiset{Pair(lefts[m - 1].row, right)} else multiset{}) + BagBeside(Matching(lefts, m - 1, key), right)
  {
    var rest := Matching(lefts, m - 1, key);
    if lefts[m - 1].key == key {
      assert ([lefts[m - 1].row] + rest)[1..] == rest;
    } else {
      assert [] + rest == rest;
    }
  }

  lemma {:induction false} NullJoinsNothing<L, R>(lefts: seq<Keyed<L>>, m: nat, right: Keyed<R>)
    requires m <= |lefts| && (!ValuedKey(right.key) || Count(lefts, m, right.key) == 0)
    ensures JoinedTo(lefts, m, right) == multiset{}
    decreases m
  {
    if m > 0 {
      NullJoinsNothing(lefts, m - 1, right);
    }
  }

  lemma Regroup<T>(a: multiset<T>, b: multiset<T>, x: multiset<T>, y: multiset<T>)
    ensures (a + b) + (x + y) == (a + x) + (y + b)
  {
  }

  ghost function AloneRow<L, R>(left: Keyed<L>, rights: seq<Keyed<R>>, keys: set<Str>): multiset<Pair<L, R>>
  {
    if left.key in keys && Alone(rights, left.key) then multiset{Pair(left.row, None)} else multiset{}
  }

  // One more key visited adds its chain, if nothing joined it.
  lemma {:induction false} VisitOne<L, R>(lefts: seq<Keyed<L>>, m: nat, rights: seq<Keyed<R>>, keys: set<Str>, key: Str)
    requires m <= |lefts| && key !in keys
    ensures AloneRows(lefts, m, rights, keys + {key}) ==
            AloneRows(lefts, m, rights, keys) + ChainRows<L, R>(lefts, m, rights, key)
    decreases m
  {
    if m > 0 {
      VisitOne(lefts, m - 1, rights, keys, key);
      AloneRowMoves<L, R>(lefts[m - 1], rights, keys, key);
      ChainMoves<L, R>(lefts, m, rights, key);
      Regroup(AloneRows(lefts, m - 1, rights, keys), ChainRows<L, R>(lefts, m - 1, rights, key),
              AloneRow(lefts[m - 1], rights, keys), AloneOf(lefts[m - 1], rights, key));
    }
  }

  // The chain of a key that nothing joins.
  ghost function ChainRows<L, R>(lefts: seq<Keyed<L>>, m: nat, rights: seq<Keyed<R>>, key: Str): multiset<Pair<L, R>>
    requires m <= |lefts|
  {
    if Alone(rights, key) then BagBeside(Matching(lefts, m, key), None) else multiset{}
  }

  ghost function AloneOf<L, R>(left: Keyed<L>, rights: seq<Keyed<R>>, key: Str): multiset<Pair<L, R>>
  {
    if left.key == key && Alone(rights, key) then multiset{Pair(left.row, None)} else multiset{}
  }

  lemma {:induction false} AloneRowMoves<L, R>(left: Keyed<L>, rights: seq<Keyed<R>>, keys: set<Str>, key: Str)
    requires key !in keys
    ensures AloneRow<L, R>(left, rights, keys + {key}) == AloneRow(left, rights, keys) + AloneOf(left, rights, key)
  {
  }

  lemma {:induction false} ChainMoves<L, R>(lefts: seq<Keyed<L>>, m: nat, rights: seq<Keyed<R>>, key: Str)
    requires 0 < m <= |lefts|
    ensures ChainRows<L, R>(lefts, m, rights, key) == AloneOf(lefts[m - 1], rights, key) + ChainRows(lefts, m - 1, rights, key)
  {
    MatchingMoves<L, R>(lefts, m, key, None);
  }

  lemma {:induction false} NoKeys<L, R>(lefts: seq<Keyed<L>>, m: nat, rights: seq<Keyed<R>>)
    requires m <= |lefts|
    ensures AloneRows(lefts, m, rights, {}) == multiset{}
    decreases m
  {
    if m > 0 {
      NoKeys(lefts, m - 1, rights);
    }
  }

  lemma {:induction false} KeysAreCounted<L>(lefts: seq<Keyed<L>>, m: nat, key: Str)
    requires m <= |lefts|
    ensures key in AllKeys(lefts, m) <==> Count(lefts, m, key) > 0
    decreases m
  {
    if m > 0 {
      KeysAreCounted(lefts, m - 1, key);
    }
  }

  // ---------------------------------------------------------------- the joins

  // joinHash-inner and joinHash-leftOuter, while the right side is visited.
  method ProbeJoin<L, R>(kind: Kind, lefts: seq<Keyed<L>>, rights: seq<Keyed<R>>, filled: map<Str, Probe>, chunks: seq<Link<L>>)
    returns (out: seq<Pair<L, R>>, probes: map<Str, Probe>)
    requires LeftKept(kind) && MapOk(kind, lefts, |lefts|, rights, 0, filled, chunks)
    ensures MapOk(kind, lefts, |lefts|, rights, |rights|, probes, chunks)
    ensures multiset(out) == NestedLoop(lefts, rights, |rights|)
  {
    out, probes := [], filled;
    for n: nat := 0 to |rights|
      invariant MapOk(kind, lefts, |lefts|, rights, n, probes, chunks)
      invariant multiset(out) == NestedLoop(lefts, rights, n)
    {
      var more;
      more, probes := ProbeJoinRow(kind, lefts, rights, n, probes, chunks);
      out := out + more;
    }
  }

  method ProbeJoinRow<L, R>(kind: Kind, ghost lefts: seq<Keyed<L>>, rights: seq<Keyed<R>>, n: nat, probes: map<Str, Probe>, chunks: seq<Link<L>>)
    returns (out: seq<Pair<L, R>>, probes': map<Str, Probe>)
    requires n < |rights| && LeftKept(kind) && MapOk(kind, lefts, |lefts|, rights, n, probes, chunks)
    ensures MapOk(kind, lefts, |lefts|, rights, n + 1, probes', chunks)
    ensures multiset(out) == JoinedTo(lefts, |lefts|, rights[n])
  {
    var right := rights[n];
    out, probes' := [], probes;
    assert EntryOk(kind, lefts, |lefts|, rights, n, probes, chunks, right.key);
    if ValuedKey(right.key) && right.key in probes {
      var p := probes[right.key];
      probes' := probes[right.key := Counted(kind, p)];
      var rows := YieldChained(chunks, p.ref);
      out := Beside(rows, Some(right.row));
      ChainIsJoined(lefts, |lefts|, right);
      BesideIsBag(rows, Some(right.row));
    } else {
      NullJoinsNothing(lefts, |lefts|, right);
    }
    ProbeKeepsMap(kind, lefts, rights, n, probes, chunks, probes');
  }

  // joinHash-leftOuter's visitor: the chains that nothing joined, beside MISSINGs.
  method VisitUnjoined<L, R>(ghost lefts: seq<Keyed<L>>, ghost rights: seq<Keyed<R>>, probes: map<Str, Probe>, chunks: seq<Link<L>>)
    returns (out: seq<Pair<L, R>>)
    requires MapOk(LeftOuter, lefts, |lefts|, rights, |rights|, probes, chunks)
    ensures multiset(out) == AloneRows(lefts, |lefts|, rights, AllKeys(lefts, |lefts|))
  {
    out := [];
    var todo := probes.Keys;
    ghost var seen: set<Str> := {};
    NoKeys<L, R>(lefts, |lefts|, rights);
    while todo != {}
      invariant todo + seen == probes.Keys && todo !! seen
      invariant multiset(out) == AloneRows(lefts, |lefts|, rights, seen)
      decreases |todo|
    {
      var key :| key in todo;
      var more := VisitKey(lefts, rights, probes, chunks, key, seen);
      out := out + more;
      todo, seen := todo - {key}, seen + {key};
    }
    EveryKeySeen(lefts, rights, probes, chunks);
  }

  method VisitKey<L, R>(ghost lefts: seq<Keyed<L>>, ghost rights: seq<Keyed<R>>, probes: map<Str, Probe>, chunks: seq<Link<L>>, key: Str, ghost seen: set<Str>)
    returns (out: seq<Pair<L, R>>)
    requires MapOk(LeftOuter, lefts, |lefts|, rights, |rights|, probes, chunks) && key in probes && key !in seen
    ensures AloneRows(lefts, |lefts|, rights, seen + {key}) == AloneRows(lefts, |lefts|, rights, seen) + multiset(out)
  {
    assert EntryOk(LeftOuter, lefts, |lefts|, rights, |rights|, probes, chunks, key);
    VisitOne<L, R>(lefts, |lefts|, rights, seen, key);
    out := [];
    if probes[key].joinCount == 0 {
      var rows := YieldChained(chunks, probes[key].ref);
      BesideIsBag<L, R>(rows, None);
      out := Beside(rows, None);
    }
  }

  lemma {:induction false} EveryKeySeen<L, R>(lefts: seq<Keyed<L>>, rights: seq<Keyed<R>>, probes: map<Str, Probe>, chunks: seq<Link<L>>)
    requires MapOk(LeftOuter, lefts, |lefts|, rights, |rights|, probes, chunks)
    ensures probes.Keys == AllKeys(lefts, |lefts|)
  {
    forall key ensures key in probes <==> key in AllKeys(lefts, |lefts|) {
      assert EntryOk(LeftOuter, lefts, |lefts|, rights, |rights|, probes, chunks, key);
      KeysAreCounted(lefts, |lefts|, key);
    }
  }

  // ---------------------------------------------------------------- where each joined row comes from

  function KeysOf<R>(rows: seq<Keyed<R>>): (keys: seq<Str>)
    ensures |keys| == |rows| && forall i :: 0 <= i < |rows| ==> keys[i] == rows[i].key
  {
    seq(|rows|, i requires 0 <= i < |rows| => rows[i].key)
  }

  lemma {:induction false} CountIs<R>(rows: seq<Keyed<R>>, n: nat, key: Str)
    requires n <= |rows|
    ensures Count(rows, n, key) == multiset(KeysOf(rows)[..n])[key]
    decreases n
  {
    if n > 0 {
      CountIs(rows, n - 1, key);
      assert KeysOf(rows)[..n] == KeysOf(rows)[..n - 1] + [rows[n - 1].key];
    }
  }

  // A left row, and the right row beside it if any.
  datatype Source = Source(l: nat, r: Opt<nat>)

  // The join condition: equal keys, and not NULL's.
  ghost predicate Matches<L, R>(lefts: seq<Keyed<L>>, rights: seq<Keyed<R>>, i: nat, j: nat)
  {
    i < |lefts| && j < |rights| && lefts[i].key == rights[j].key && ValuedKey(lefts[i].key)
  }

  ghost predicate MatchesNone<L, R>(lefts: seq<Keyed<L>>, rights: seq<Keyed<R>>, i: nat)
  {
    forall j: nat :: !Matches(lefts, rights, i, j)
  }

  ghost predicate Within<L, R>(lefts: seq<Keyed<L>>, rights: seq<Keyed<R>>, s: Source)
  {
    s.l < |lefts| && (s.r.Some? ==> s.r.value < |rights|)
  }

  ghost predicate AllWithin<L, R>(lefts: seq<Keyed<L>>, rights: seq<Keyed<R>>, sources: seq<Source>)
  {
    forall k :: 0 <= k < |sources| ==> Within(lefts, rights, sources[k])
  }

  ghost predicate ShowsSource<L, R>(lefts: seq<Keyed<L>>, rights: seq<Keyed<R>>, s: Source, row: Pair<L, R>)
  {
    && Within(lefts, rights, s) && row.left == lefts[s.l].row
    && row.right == if s.r.None? then None else Some(rights[s.r.value].row)
  }

  ghost function RowsFrom<L, R>(lefts: seq<Keyed<L>>, rights: seq<Keyed<R>>, sources: seq<Source>): (rows: seq<Pair<L, R>>)
    requires AllWithin(lefts, rights, sources)
    ensures |rows| == |sources|
    ensures forall k :: 0 <= k < |sources| ==> ShowsSource(lefts, rights, sources[k], rows[k])
  {
    seq(|sources|, k requires 0 <= k < |sources| =>
      Pair(lefts[sources[k].l].row, if sources[k].r.None? then None else Some(rights[sources[k].r.value].row)))
  }

  // Right row j beside one of the first m left rows.
  ghost predicate FromRow<L, R>(lefts: seq<Keyed<L>>, m: nat, rights: seq<Keyed<R>>, j: nat, s: Source)
  {
    s.l < m && s.r == Some(j) && Matches(lefts, rights, s.l, j)
  }

  // One of the first n right rows beside a left row.
  ghost predicate FromLoop<L, R>(lefts: seq<Keyed<L>>, rights: seq<Keyed<R>>, n: nat, s: Source)
  {
    s.r.Some? && s.r.value < n && Matches(lefts, rights, s.l, s.r.value)
  }

  // One of the first m left rows that matches nothing.
  ghost predicate FromAlone<L, R>(lefts: seq<Keyed<L>>, m: nat, rights: seq<Keyed<R>>, s: Source)
  {
    s.l < m && s.l < |lefts| && s.r.None? && MatchesNone(lefts, rights, s.l)
  }

  ghost predicate Distinct(sources: seq<Source>)
  {
    forall k, l :: 0 <= k < l < |sources| ==> sources[k] != sources[l]
  }

  // Every matching pair once and, outer, every left row that matches nothing once.
  ghost predicate JoinAnswer<L, R>(lefts: seq<Keyed<L>>, rights: seq<Keyed<R>>, outer: bool, sources: seq<Source>)
  {
    && Distinct(sources) && AllWithin(lefts, rights, sources)
    && forall s :: s in sources <==> FromLoop(lefts, rights, |rights|, s) || (outer && FromAlone(lefts, |lefts|, rights, s))
  }

  ghost predicate Good<L, R>(lefts: seq<Keyed<L>>, rights: seq<Keyed<R>>, sources: seq<Source>)
  {
    Distinct(sources) && AllWithin(lefts, rights, sources)
  }

  lemma {:induction false} DistinctBoth(a: seq<Source>, b: seq<Source>)
    requires Distinct(a) && Distinct(b) && forall s :: s in a ==> s !in b
    ensures Distinct(a + b)
  {
    forall k, l | 0 <= k < l < |a + b| ensures (a + b)[k] != (a + b)[l] {
      if k < |a| <= l {
        assert (a + b)[k] in a && (a + b)[l] in b;
      }
    }
  }

  lemma {:induction false} RowsFromBoth<L, R>(lefts: seq<Keyed<L>>, rights: seq<Keyed<R>>, a: seq<Source>, b: seq<Source>)
    requires Good(lefts, rights, a) && Good(lefts, rights, b) && forall s :: s in a ==> s !in b
    ensures Good(lefts, rights, a + b)
    ensures multiset(RowsFrom(lefts, rights, a + b)) == multiset(RowsFrom(lefts, rights, a)) + multiset(RowsFrom(lefts, rights, b))
  {
    DistinctBoth(a, b);
    assert RowsFrom(lefts, rights, a + b) == RowsFrom(lefts, rights, a) + RowsFrom(lefts, rights, b);
  }

  lemma {:induction false} OneRow<L, R>(lefts: seq<Keyed<L>>, rights: seq<Keyed<R>>, one: seq<Source>)
    requires |one| == 1 && Within(lefts, rights, one[0])
    ensures Good(lefts, rights, one) && |RowsFrom(lefts, rights, one)| == 1
    ensures multiset(RowsFrom(lefts, rights, one)) == multiset{RowsFrom(lefts, rights, one)[0]}
  {
    assert RowsFrom(lefts, rights, one) == [RowsFrom(lefts, rights, one)[0]];
  }

  lemma {:induction false} RowSources<L, R>(lefts: seq<Keyed<L>>, m: nat, rights: seq<Keyed<R>>, j: nat) returns (sources: seq<Source>)
    requires m <= |lefts| && j < |rights|
    ensures Good(lefts, rights, sources) && forall s :: s in sources <==> FromRow(lefts, m, rights, j, s)
    ensures multiset(RowsFrom(lefts, rights, sources)) == JoinedTo(lefts, m, rights[j])
    decreases m
  {
    sources := [];
    if m > 0 {
      var one := [Source(m - 1, Some(j))];
      var before := RowSources(lefts, m - 1, rights, j);
      OneRow(lefts, rights, one);
      assert forall s :: s in one <==> s == one[0];
      RowsFromBoth(lefts, rights, before, one);
      sources := if Matches(lefts, rights, m - 1, j) then before + one else before;
    }
  }

  lemma {:induction false} NestedLoopNext<L, R>(lefts: seq<Keyed<L>>, rights: seq<Keyed<R>>, n: nat)
    requires n < |rights|
    ensures NestedLoop(lefts, rights, n + 1) == NestedLoop(lefts, rights, n) + JoinedTo(lefts, |lefts|, rights[n])
  {
  }

  lemma {:induction false} FromLoopNext<L, R>(lefts: seq<Keyed<L>>, rights: seq<Keyed<R>>, n: nat, s: Source)
    ensures FromLoop(lefts, rights, n + 1, s) <==> FromLoop(lefts, rights, n, s) || FromRow(lefts, |lefts|, rights, n, s)
    ensures !(FromLoop(lefts, rights, n, s) && FromRow(lefts, |lefts|, rights, n, s))
  {
  }

  lemma {:induction false} LoopSources<L, R>(lefts: seq<Keyed<L>>, rights: seq<Keyed<R>>, n: nat) returns (sources: seq<Source>)
    requires n <= |rights|
    ensures Good(lefts, rights, sources) && forall s :: s in sources <==> FromLoop(lefts, rights, n, s)
    ensures multiset(RowsFrom(lefts, rights, sources)) == NestedLoop(lefts, rights, n)
    decreases n
  {
    sources := [];
    if n > 0 {
      var before := LoopSources(lefts, rights, n - 1);
      var more := RowSources(lefts, |lefts|, rights, n - 1);
      LoopAndRow(lefts, rights, n - 1, before, more);
      RowsFromBoth(lefts, rights, before, more);
      NestedLoopNext(lefts, rights, n - 1);
      sources := before + more;
    }
  }

  lemma {:induction false} LoopAndRow<L, R>(lefts: seq<Keyed<L>>, rights: seq<Keyed<R>>, n: nat, before: seq<Source>, more: seq<Source>)
    requires forall s :: s in before <==> FromLoop(lefts, rights, n, s)
    requires forall s :: s in more <==> FromRow(lefts, |lefts|, rights, n, s)
    ensures forall s :: s in before ==> s !in more
    ensures forall s :: s in before + more <==> FromLoop(lefts, rights, n + 1, s)
  {
    forall s ensures (s in before + more <==> FromLoop(lefts, rights, n + 1, s)) && (s in before ==> s !in more) {
      FromLoopNext(lefts, rights, n, s);
    }
  }

  lemma {:induction false} AloneMeans<L, R>(lefts: seq<Keyed<L>>, rights: seq<Keyed<R>>, i: nat)
    requires i < |lefts|
    ensures Alone(rights, lefts[i].key) <==> MatchesNone(lefts, rights, i)
  {
    var keys, key := KeysOf(rights), lefts[i].key;
    CountIs(rights, |rights|, key);
    assert keys[..|rights|] == keys;
    assert multiset(keys)[key] > 0 <==> key in keys;
    if !Alone(rights, key) {
      var j: nat :| j < |keys| && keys[j] == key;
      assert Matches(lefts, rights, i, j);
    }
  }

  lemma {:induction false} AloneSources<L, R>(lefts: seq<Keyed<L>>, m: nat, rights: seq<Keyed<R>>) returns (sources: seq<Source>)
    requires m <= |lefts|
    ensures Good(lefts, rights, sources) && forall s :: s in sources <==> FromAlone(lefts, m, rights, s)
    ensures multiset(RowsFrom(lefts, rights, sources)) == AloneRows(lefts, m, rights, AllKeys(lefts, |lefts|))
    decreases m
  {
    sources := [];
    if m > 0 {
      var one := [Source(m - 1, None)];
      var before := AloneSources(lefts, m - 1, rights);
      OneRow(lefts, rights, one);
      sources := if Alone(rights, lefts[m - 1].key) then before + one else before;
      AloneAndOne(lefts, m - 1, rights, before, one, sources);
      RowsFromBoth(lefts, rights, before, one);
      AloneRowsNext(lefts, m - 1, rights);
    }
  }

  lemma {:induction false} AloneAndOne<L, R>(lefts: seq<Keyed<L>>, m: nat, rights: seq<Keyed<R>>, before: seq<Source>, one: seq<Source>, after: seq<Source>)
    requires m < |lefts| && one == [Source(m, None)] && after == if Alone(rights, lefts[m].key) then before + one else before
    requires forall s :: s in before <==> FromAlone(lefts, m, rights, s)
    ensures forall s :: s in before ==> s !in one
    ensures forall s :: s in after <==> FromAlone(lefts, m + 1, rights, s)
  {
    AloneMeans(lefts, rights, m);
    forall s ensures s in one <==> s == Source(m, None) {
      assert s in one <==> s == one[0];
    }
  }

  lemma {:induction false} AloneRowsNext<L, R>(lefts: seq<Keyed<L>>, m: nat, rights: seq<Keyed<R>>)
    requires m < |lefts|
    ensures AloneRows<L, R>(lefts, m + 1, rights, AllKeys(lefts, |lefts|)) == AloneRows(lefts, m, rights, AllKeys(lefts, |lefts|)) +
              (if Alone(rights, lefts[m].key) then multiset{Pair(lefts[m].row, None)} else multiset{})
  {
    KeyIsThere(lefts, |lefts|, m);
  }

  lemma {:induction false} KeyIsThere<L>(lefts: seq<Keyed<L>>, m: nat, i: nat)
    requires i < m <= |lefts|
    ensures lefts[i].key in AllKeys(lefts, m)
    decreases m
  {
    if i < m - 1 {
      KeyIsThere(lefts, m - 1, i);
    }
  }

  lemma {:induction false} JoinSources<L, R>(lefts: seq<Keyed<L>>, rights: seq<Keyed<R>>, outer: bool) returns (sources: seq<Source>)
    ensures JoinAnswer(lefts, rights, outer, sources)
    ensures multiset(RowsFrom(lefts, rights, sources)) == NestedLoop(lefts, rights, |rights|) +
              (if outer then AloneRows(lefts, |lefts|, rights, AllKeys(lefts, |lefts|)) else multiset{})
  {
    sources := LoopSources(lefts, rights, |rights|);
    if outer {
      var more := AloneSources(lefts, |lefts|, rights);
      RowsFromBoth(lefts, rights, sources, more);
      sources := sources + more;
    }
  }

  // The inner join is the nested loop's bag of pairs; the left outer one adds each left row that nothing
  // joined, once, with its NULL keys.
  method Join<L, R>(kind: Kind, lefts: seq<Keyed<L>>, rights: seq<Keyed<R>>) returns (out: seq<Pair<L, R>>)
    requires LeftKept(kind)
    ensures multiset(out) == NestedLoop(lefts, rights, |rights|) +
                             (if kind.LeftOuter? then AloneRows(lefts, |lefts|, rights, AllKeys(lefts, |lefts|)) else multiset{})
    ensures exists sources :: JoinAnswer(lefts, rights, kind.LeftOuter?, sources) && multiset(out) == multiset(RowsFrom(lefts, rights, sources))
  {
    ghost var sources := JoinSources(lefts, rights, kind.LeftOuter?);
    var probes, chunks := Fill(kind, lefts, rights);
    out, probes := ProbeJoin(kind, lefts, rights, probes, chunks);
    if kind.LeftOuter? {
      var more := VisitUnjoined(lefts, rights, probes, chunks);
      out := out + more;
    }
  }

  // ---------------------------------------------------------------- INTERSECT and EXCEPT

  // How often a row that is m times on the left and n times on the right is in the result.
  function Copies(kind: Kind, m: nat, n: nat): nat
  {
    match kind
    case IntersectAll => if m < n then m else n
    case IntersectDistinct => if m > 0 && n > 0 then 1 else 0
    case ExceptAll => if m > n then m - n else 0
    case ExceptDistinct => if m > 0 && n == 0 then 1 else 0
    case _ => 0
  }

  function Owed<L, R>(kind: Kind, lefts: seq<Keyed<L>>, rights: seq<Keyed<R>>, n: nat, key: Str): nat
    requires n <= |rights|
  {
    if ValuedKey(key) then Copies(kind, Count(lefts, |lefts|, key), Count(rights, n, key)) else 0
  }

  // The keys yielded so far, each as often as it is owed after n right rows.
  ghost predicate KeysOk<L, R>(kind: Kind, lefts: seq<Keyed<L>>, rights: seq<Keyed<R>>, n: nat, keys: seq<Str>)
    requires n <= |rights|
  {
    forall key {:trigger multiset(keys)[key]} :: multiset(keys)[key] == Owed(kind, lefts, rights, n, key)
  }

  lemma {:induction false} OneMoreKey(keys: seq<Str>, key: Str, k: Str)
    ensures multiset(keys + [key])[k] == multiset(keys)[k] + (if k == key then 1 else 0)
  {
  }

  // INTERSECT yields as the right rows come.
  lemma {:induction false} KeysNext<L, R>(kind: Kind, lefts: seq<Keyed<L>>, rights: seq<Keyed<R>>, n: nat, keys: seq<Str>, hit: bool)
    requires n < |rights| && Intersects(kind) && KeysOk(kind, lefts, rights, n, keys)
    requires var k, m, c := rights[n].key, Count(lefts, |lefts|, rights[n].key), Count(rights, n, rights[n].key);
             hit <==> ValuedKey(k) && m > 0 && (if kind.IntersectAll? then m >= c + 1 else c == 0)
    ensures KeysOk(kind, lefts, rights, n + 1, if hit then keys + [rights[n].key] else keys)
  {
    var n': nat, keys' := n + 1, if hit then keys + [rights[n].key] else keys;
    forall key ensures multiset(keys')[key] == Owed(kind, lefts, rights, n', key) {
      OneMoreKey(keys, rights[n].key, key);
      assert multiset(keys)[key] == Owed(kind, lefts, rights, n, key);
      OwedNext(kind, lefts, rights, n, key);
    }
  }

  // One more right row changes what is owed of its own key only.
  lemma {:induction false} OwedNext<L, R>(kind: Kind, lefts: seq<Keyed<L>>, rights: seq<Keyed<R>>, n: nat, key: Str)
    requires n < |rights| && Intersects(kind)
    ensures var k, m, c := rights[n].key, Count(lefts, |lefts|, rights[n].key), Count(rights, n, rights[n].key);
            Owed(kind, lefts, rights, n + 1, key) == Owed(kind, lefts, rights, n, key) +
              (if key == k && ValuedKey(k) && m > 0 && (if kind.IntersectAll? then m >= c + 1 else c == 0) then 1 else 0)
  {
  }

  // What is owed, as operations on the bags of left and right keys.
  ghost predicate OwedBagwise(kind: Kind, ls: seq<Str>, rs: seq<Str>, keys: seq<Str>, key: Str)
  {
    && (key in keys ==> ValuedKey(key) && key in ls && (Intersects(kind) ==> key in rs))
    && (ValuedKey(key) && kind.IntersectAll? ==> multiset(keys)[key] == (multiset(ls) * multiset(rs))[key])
    && (ValuedKey(key) && kind.IntersectDistinct? ==> multiset(keys)[key] == if key in ls && key in rs then 1 else 0)
    && (ValuedKey(key) && kind.ExceptAll? ==> multiset(keys)[key] == (multiset(ls) - multiset(rs))[key])
    && (ValuedKey(key) && kind.ExceptDistinct? ==> multiset(keys)[key] == if key in ls && key !in rs then 1 else 0)
  }

  lemma {:induction false} OwedIsBagwise<L, R>(kind: Kind, lefts: seq<Keyed<L>>, rights: seq<Keyed<R>>, keys: seq<Str>, key: Str)
    requires KeysOk(kind, lefts, rights, |rights|, keys)
    ensures OwedBagwise(kind, KeysOf(lefts), KeysOf(rights), keys, key)
  {
    CountIs(lefts, |lefts|, key);
    CountIs(rights, |rights|, key);
    assert KeysOf(lefts)[..|lefts|] == KeysOf(lefts) && KeysOf(rights)[..|rights|] == KeysOf(rights);
    assert multiset(keys)[key] == Owed(kind, lefts, rights, |rights|, key);
    assert key in keys <==> multiset(keys)[key] > 0;
    assert key in KeysOf(lefts) <==> multiset(KeysOf(lefts))[key] > 0;
    assert key in KeysOf(rights) <==> multiset(KeysOf(rights))[key] > 0;
  }

  method IntersectRow<L, R>(kind: Kind, ghost lefts: seq<Keyed<L>>, rights: seq<Keyed<R>>, n: nat, probes: map<Str, Probe>, ghost chunks: seq<Link<L>>, keys: seq<Str>)
    returns (keys': seq<Str>, probes': map<Str, Probe>)
    requires n < |rights| && Intersects(kind) && MapOk(kind, lefts, |lefts|, rights, n, probes, chunks) && KeysOk(kind, lefts, rights, n, keys)
    ensures MapOk(kind, lefts, |lefts|, rights, n + 1, probes', chunks) && KeysOk(kind, lefts, rights, n + 1, keys')
  {
    var key := rights[n].key;
    var hit := false;
    probes' := probes;
    assert EntryOk(kind, lefts, |lefts|, rights, n, probes, chunks, key);
    if ValuedKey(key) && key in probes {
      var p := Counted(kind, probes[key]);
      probes' := probes[key := p];
      hit := if LeftCounted(kind) then p.leftCount >= p.joinCount else p.joinCount == 1;
    }
    keys' := if hit then keys + [key] else keys;
    KeysNext(kind, lefts, rights, n, keys, hit);
    ProbeKeepsMap(kind, lefts, rights, n, probes, chunks, probes');
  }

  method Intersect<L, R>(kind: Kind, lefts: seq<Keyed<L>>, rights: seq<Keyed<R>>) returns (keys: seq<Str>)
    requires Intersects(kind)
    ensures KeysOk(kind, lefts, rights, |rights|, keys)
    ensures forall key :: OwedBagwise(kind, KeysOf(lefts), KeysOf(rights), keys, key)
  {
    var probes, chunks := Fill(kind, lefts, rights);
    keys := [];
    for n: nat := 0 to |rights|
      invariant MapOk(kind, lefts, |lefts|, rights, n, probes, chunks) && KeysOk(kind, lefts, rights, n, keys)
    {
      keys, probes := IntersectRow(kind, lefts, rights, n, probes, chunks, keys);
    }
    forall key ensures OwedBagwise(kind, KeysOf(lefts), KeysOf(rights), keys, key) {
      OwedIsBagwise(kind, lefts, rights, keys, key);
    }
  }

  // EXCEPT only counts the right rows, and its visitor yields what is left of each key.
  method Except<L, R>(kind: Kind, lefts: seq<Keyed<L>>, rights: seq<Keyed<R>>) returns (keys: seq<Str>)
    requires kind.ExceptAll? || kind.ExceptDistinct?
    ensures KeysOk(kind, lefts, rights, |rights|, keys)
    ensures forall key :: OwedBagwise(kind, KeysOf(lefts), KeysOf(rights), keys, key)
  {
    var probes, chunks := Fill(kind, lefts, rights);
    for n: nat := 0 to |rights|
      invariant MapOk(kind, lefts, |lefts|, rights, n, probes, chunks)
    {
      var key := rights[n].key;
      ghost var was := probes;
      assert EntryOk(kind, lefts, |lefts|, rights, n, probes, chunks, key);
      if ValuedKey(key) && key in probes {
        probes := probes[key := Counted(kind, probes[key])];
      }
      ProbeKeepsMap(kind, lefts, rights, n, was, chunks, probes);
    }
    keys := VisitLeft(kind, lefts, rights, probes, chunks);
    forall key ensures OwedBagwise(kind, KeysOf(lefts), KeysOf(rights), keys, key) {
      OwedIsBagwise(kind, lefts, rights, keys, key);
    }
  }

  // The visited keys' copies so far.
  ghost predicate SeenOk<L, R>(kind: Kind, lefts: seq<Keyed<L>>, rights: seq<Keyed<R>>, seen: set<Str>, keys: seq<Str>)
  {
    forall key {:trigger multiset(keys)[key]} :: multiset(keys)[key] == if key in seen then Owed(kind, lefts, rights, |rights|, key) else 0
  }

  function Repeated(key: Str, n: nat): (r: seq<Str>)
    ensures |r| == n
    ensures forall k {:trigger multiset(r)[k]} :: multiset(r)[k] == if k == key then n else 0
  {
    if n == 0 then [] else [key] + Repeated(key, n - 1)
  }

  lemma {:induction false} SeenNext<L, R>(kind: Kind, lefts: seq<Keyed<L>>, rights: seq<Keyed<R>>, seen: set<Str>, keys: seq<Str>, key: Str, more: seq<Str>)
    requires SeenOk(kind, lefts, rights, seen, keys) && key !in seen
    requires more == Repeated(key, Owed(kind, lefts, rights, |rights|, key))
    ensures SeenOk(kind, lefts, rights, seen + {key}, keys + more)
  {
    forall k ensures multiset(keys + more)[k] == if k in seen + {key} then Owed(kind, lefts, rights, |rights|, k) else 0 {
      assert multiset(keys + more)[k] == multiset(keys)[k] + multiset(more)[k];
    }
  }

  method VisitLeft<L, R>(kind: Kind, ghost lefts: seq<Keyed<L>>, ghost rights: seq<Keyed<R>>, probes: map<Str, Probe>, ghost chunks: seq<Link<L>>) returns (keys: seq<Str>)
    requires kind.ExceptAll? || kind.ExceptDistinct?
    requires MapOk(kind, lefts, |lefts|, rights, |rights|, probes, chunks)
    ensures KeysOk(kind, lefts, rights, |rights|, keys)
  {
    keys := [];
    var todo := probes.Keys;
    ghost var seen: set<Str> := {};
    while todo != {}
      invariant todo + seen == probes.Keys && todo !! seen && SeenOk(kind, lefts, rights, seen, keys)
      decreases |todo|
    {
      var key :| key in todo;
      var more := LeftOver(kind, lefts, rights, probes, chunks, key);
      SeenNext(kind, lefts, rights, seen, keys, key, more);
      keys := keys + more;
      todo, seen := todo - {key}, seen + {key};
    }
    SeenIsAll(kind, lefts, rights, probes, chunks, keys);
  }

  // What an entry of the map still owes once every right row was counted.
  method LeftOver<L, R>(kind: Kind, ghost lefts: seq<Keyed<L>>, ghost rights: seq<Keyed<R>>, probes: map<Str, Probe>, ghost chunks: seq<Link<L>>, key: Str) returns (more: seq<Str>)
    requires (kind.ExceptAll? || kind.ExceptDistinct?) && key in probes
    requires MapOk(kind, lefts, |lefts|, rights, |rights|, probes, chunks)
    ensures more == Repeated(key, Owed(kind, lefts, rights, |rights|, key))
  {
    assert EntryOk(kind, lefts, |lefts|, rights, |rights|, probes, chunks, key);
    var p := probes[key];
    more := [];
    if LeftCounted(kind) {
      if p.leftCount > p.joinCount {
        more := Repeated(key, p.leftCount - p.joinCount);
      }
    } else if p.joinCount == 0 {
      more := Repeated(key, 1);
    }
  }

  lemma {:induction false} SeenIsAll<L, R>(kind: Kind, lefts: seq<Keyed<L>>, rights: seq<Keyed<R>>, probes: map<Str, Probe>, chunks: seq<Link<L>>, keys: seq<Str>)
    requires kind.ExceptAll? || kind.ExceptDistinct?
    requires MapOk(kind, lefts, |lefts|, rights, |rights|, probes, chunks) && SeenOk(kind, lefts, rights, probes.Keys, keys)
    ensures KeysOk(kind, lefts, rights, |rights|, keys)
  {
    forall key ensures multiset(keys)[key] == Owed(kind, lefts, rights, |rights|, key) {
      assert EntryOk(kind, lefts, |lefts|, rights, |rights|, probes, chunks, key);
    }
  }
}
