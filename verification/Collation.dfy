// base/compare.go and base/canonical.go: the order on JSON values and their canonical text.
module Collation {
  import opened Bytes
  import opened Json

  // ---------------------------------------------------------------- bytes.Compare

  function Lex(a: Str, b: Str): (r: int)
    ensures r == -1 || r == 0 || r == 1
    ensures r == 0 <==> a == b
  {
    if a == [] then (if b == [] then 0 else -1)
    else if b == [] then 1
    else if a[0] < b[0] then -1
    else if a[0] > b[0] then 1
    else assert a == [a[0]] + a[1..] && b == [b[0]] + b[1..]; Lex(a[1..], b[1..])
  }

  lemma {:induction false} LexReverses(a: Str, b: Str)
    ensures Lex(b, a) == -Lex(a, b)
  {
    if a != [] && b != [] && a[0] == b[0] {
      LexReverses(a[1..], b[1..]);
    }
  }

  lemma {:induction false} LexTransitive(a: Str, b: Str, c: Str)
    requires Lex(a, b) <= 0 && Lex(b, c) <= 0
    ensures Lex(a, c) <= 0 && (Lex(a, b) < 0 || Lex(b, c) < 0 ==> Lex(a, c) < 0)
  {
    if a != [] && b != [] && c != [] && a[0] == b[0] == c[0] {
      LexTransitive(a[1..], b[1..], c[1..]);
    }
  }

  // ---------------------------------------------------------------- KeyVals

  datatype KeyVal = KeyVal(key: Plain, val: Json, pos: int)

  // KeyVals.Less: by key, and for equal keys the larger pos first.
  predicate Less(x: KeyVal, y: KeyVal)
  {
    var cmp := Lex(x.key, y.key);
    if cmp < 0 then true else if cmp > 0 then false else x.pos > y.pos
  }

  lemma LessTransitive(x: KeyVal, y: KeyVal, z: KeyVal)
    requires Less(x, y) && Less(y, z)
    ensures Less(x, z)
  {
    LexTransitive(x.key, y.key, z.key);
  }

  lemma LessConnects(x: KeyVal, y: KeyVal)
    ensures Less(x, y) || Less(y, x) || (x.key == y.key && x.pos == y.pos)
    ensures !(Less(x, y) && Less(y, x))
  {
    LexReverses(x.key, y.key);
  }

  ghost predicate Sorted(kvs: seq<KeyVal>)
  {
    forall i, j :: 0 <= i < j < |kvs| ==> Less(kvs[i], kvs[j])
  }

  // No two entries agree on key and side: what unique field names give the sort.
  ghost predicate Distinct(kvs: seq<KeyVal>)
  {
    forall i, j :: 0 <= i < j < |kvs| ==> kvs[i].key != kvs[j].key || kvs[i].pos != kvs[j].pos
  }

  function Insert(x: KeyVal, kvs: seq<KeyVal>): (r: seq<KeyVal>)
    ensures multiset(r) == multiset(kvs) + multiset{x}
    ensures |r| == |kvs| + 1
  {
    if kvs == [] then [x]
    else if Less(x, kvs[0]) then [x] + kvs
    else assert kvs == [kvs[0]] + kvs[1..]; [kvs[0]] + Insert(x, kvs[1..])
  }

  // sort.Sort(kvs): with distinct entries every sort returns this.
  function Sort(kvs: seq<KeyVal>): (r: seq<KeyVal>)
    ensures multiset(r) == multiset(kvs)
    ensures |r| == |kvs|
  {
    if kvs == [] then []
    else assert kvs == [kvs[0]] + kvs[1..]; Insert(kvs[0], Sort(kvs[1..]))
  }

  lemma InMultiset<T>(a: seq<T>, b: seq<T>)
    requires multiset(a) == multiset(b)
    ensures forall x :: x in a <==> x in b
  {
    forall x ensures x in a <==> x in b {
      assert x in a <==> x in multiset(a);
      assert x in b <==> x in multiset(b);
    }
  }

  lemma {:induction false} InsertSorts(x: KeyVal, kvs: seq<KeyVal>)
    requires Sorted(kvs) && forall y :: y in kvs ==> y.key != x.key || y.pos != x.pos
    ensures Sorted(Insert(x, kvs))
  {
    if kvs == [] {
    } else if Less(x, kvs[0]) {
      forall i | 0 < i < |kvs| ensures Less(x, kvs[i]) {
        LessTransitive(x, kvs[0], kvs[i]);
      }
    } else {
      LessConnects(x, kvs[0]);
      assert kvs[0] in kvs;
      InsertSorts(x, kvs[1..]);
      var r := Insert(x, kvs[1..]);
      forall i | 0 <= i < |r| ensures Less(kvs[0], r[i]) {
        assert r[i] in multiset(r);
        assert r[i] == x || r[i] in kvs[1..];
      }
    }
  }

  lemma {:induction false} SortSorts(kvs: seq<KeyVal>)
    requires Distinct(kvs)
    ensures Sorted(Sort(kvs))
  {
    if kvs != [] {
      SortSorts(kvs[1..]);
      InMultiset(Sort(kvs[1..]), kvs[1..]);
      InsertSorts(kvs[0], Sort(kvs[1..]));
    }
  }

  lemma {:induction false} SameHead(a: seq<KeyVal>, b: seq<KeyVal>)
    requires Sorted(a) && Sorted(b) && multiset(a) == multiset(b) && a != [] && b != []
    ensures a[0] == b[0]
  {
    InMultiset(a, b);
    assert a[0] in a && b[0] in b;
    if a[0] != b[0] {
      assert b[0] in a && a[0] in b;
      LessConnects(a[0], b[0]);
      assert false;
    }
  }

  // A multiset has one sorted arrangement.
  lemma {:induction false} SortedIsUnique(a: seq<KeyVal>, b: seq<KeyVal>)
    requires Sorted(a) && Sorted(b) && multiset(a) == multiset(b)
    ensures a == b
  {
    assert |a| == |multiset(a)| && |b| == |multiset(b)|;
    if a != [] {
      SameHead(a, b);
      assert a == [a[0]] + a[1..] && b == [b[0]] + b[1..];
      assert multiset(a[1..]) == multiset(a) - multiset{a[0]};
      assert multiset(b[1..]) == multiset(b) - multiset{b[0]};
      SortedIsUnique(a[1..], b[1..]);
    }
  }

  // ---------------------------------------------------------------- CompareWithType

  // ParseTypeToValType
  function TypeRank(j: Json): int
  {
    match j
    case Null => 1
    case Bool(_) => 2
    case Number(_, _) => 3
    case String(_) => 4
    case Array(_) => 5
    case Object(_) => 6
  }

  function KeyVals(fields: seq<Field>, pos: int): (r: seq<KeyVal>)
    ensures |r| == |fields|
    ensures forall i :: 0 <= i < |fields| ==> r[i] == KeyVal(fields[i].name, fields[i].val, pos)
  {
    seq(|fields|, i requires 0 <= i < |fields| => KeyVal(fields[i].name, fields[i].val, pos))
  }

  function KeyValsHeight(kvs: seq<KeyVal>): (h: nat)
    ensures forall i :: 0 <= i < |kvs| ==> Height(kvs[i].val) <= h
    ensures kvs == [] ==> h == 0
    ensures kvs != [] ==> exists i :: 0 <= i < |kvs| && h == Height(kvs[i].val)
  {
    if kvs == [] then 0
    else
      var h := KeyValsHeight(kvs[1..]);
      assert forall i :: 0 <= i < |kvs| - 1 ==> kvs[i + 1] == kvs[1..][i];
      Max(Height(kvs[0].val), h)
  }

  function Compare(a: Json, b: Json): int
    decreases Max(Height(a), Height(b)), 0, 0
  {
    match (a, b)
    case (Null, Null) => 0
    case (Bool(x), Bool(y)) => (Text(a)[0] as int) - (Text(b)[0] as int)
    case (Number(x, _), Number(y, _)) => if x == y then 0 else if x < y then -1 else 1
    case (String(x), String(y)) => Lex(x, y)
    case (Array(xs), Array(ys)) => CompareItems(xs, ys)
    case (Object(xs), Object(ys)) =>
      if |xs| != |ys| then |xs| - |ys|
      else
        var kvs := Sort(KeyVals(xs, 1) + KeyVals(ys, -1));
        InMultiset(kvs, KeyVals(xs, 1) + KeyVals(ys, -1));
        assert forall kv :: kv in kvs ==> Height(kv.val) < Max(Height(a), Height(b));
        ComparePairs(kvs)
    case _ => TypeRank(a) - TypeRank(b)
  }

  function CompareItems(xs: seq<Json>, ys: seq<Json>): int
    decreases Max(ItemsHeight(xs), ItemsHeight(ys)), 1, |xs|
  {
    if xs == [] then (if ys == [] then 0 else -1)
    else if ys == [] then 1
    else
      var cmp := Compare(xs[0], ys[0]);
      if cmp != 0 then cmp else CompareItems(xs[1..], ys[1..])
  }

  // The sorted KeyVals of two objects, read two at a time, looking for a pair that does not match.
  function ComparePairs(kvs: seq<KeyVal>): int
    decreases KeyValsHeight(kvs), 1, |kvs|
  {
    if kvs == [] then 0
    else if |kvs| == 1 then kvs[0].pos
    else
      var x, y := kvs[0], kvs[1];
      if x.pos == y.pos then x.pos
      else if x.key != y.key then x.pos
      else
        var cmp := Compare(x.val, y.val);
        assert kvs[2..] == [] || forall i :: 0 <= i < |kvs| - 2 ==> kvs[2..][i] == kvs[i + 2];
        if cmp != 0 then cmp else ComparePairs(kvs[2..])
  }

  // ---------------------------------------------------------------- objects, field by field

  // The fields of an object in name order.
  function Ordered(fields: seq<Field>): seq<KeyVal>
  {
    Sort(KeyVals(fields, 0))
  }

  // At equal length, the first difference decides: the object that has the smaller name there is
  // the greater one; under one name the values decide.
  function CompareOrdered(xs: seq<KeyVal>, ys: seq<KeyVal>): int
    requires |xs| == |ys|
  {
    if xs == [] then 0
    else if xs[0].key != ys[0].key then -Lex(xs[0].key, ys[0].key)
    else
      var cmp := Compare(xs[0].val, ys[0].val);
      if cmp != 0 then cmp else CompareOrdered(xs[1..], ys[1..])
  }

  ghost predicate UniqueNames(j: Json)
    decreases j
  {
    match j
    case Array(items) => forall i :: 0 <= i < |items| ==> UniqueNames(items[i])
    case Object(fields) =>
      && (forall i, k :: 0 <= i < k < |fields| ==> fields[i].name != fields[k].name)
      && (forall i :: 0 <= i < |fields| ==> UniqueNames(fields[i].val))
    case _ => true
  }

  ghost predicate Side(kvs: seq<KeyVal>, pos: int)
  {
    forall i :: 0 <= i < |kvs| ==> kvs[i].pos == pos
  }

  function WithPos(kvs: seq<KeyVal>, pos: int): (r: seq<KeyVal>)
    ensures |r| == |kvs|
    ensures forall i :: 0 <= i < |kvs| ==> r[i] == kvs[i].(pos := pos)
  {
    if kvs == [] then [] else [kvs[0].(pos := pos)] + WithPos(kvs[1..], pos)
  }

  lemma {:induction false} WithPosInsert(x: KeyVal, kvs: seq<KeyVal>, p: int, q: int)
    requires x.pos == p && Side(kvs, p)
    ensures WithPos(Insert(x, kvs), q) == Insert(x.(pos := q), WithPos(kvs, q))
  {
    if kvs == [] {
    } else if Less(x, kvs[0]) {
      assert ([x] + kvs)[1..] == kvs;
    } else {
      WithPosInsert(x, kvs[1..], p, q);
      assert ([kvs[0]] + Insert(x, kvs[1..]))[1..] == Insert(x, kvs[1..]);
      assert WithPos(kvs, q)[1..] == WithPos(kvs[1..], q);
    }
  }

  // Sorting one side's fields does not depend on which side it is.
  lemma {:induction false} WithPosSort(kvs: seq<KeyVal>, p: int, q: int)
    requires Side(kvs, p)
    ensures WithPos(Sort(kvs), q) == Sort(WithPos(kvs, q))
  {
    if kvs != [] {
      var rest := kvs[1..];
      WithPosSort(rest, p, q);
      SortedSide(rest, p);
      WithPosInsert(kvs[0], Sort(rest), p, q);
      assert WithPos(kvs, q)[1..] == WithPos(rest, q);
    }
  }

  function Merge(a: seq<KeyVal>, b: seq<KeyVal>): seq<KeyVal>
  {
    if a == [] then b
    else if b == [] then a
    else if Less(a[0], b[0]) then [a[0]] + Merge(a[1..], b)
    else [b[0]] + Merge(a, b[1..])
  }

  lemma {:induction false} MergeKeepsAll(a: seq<KeyVal>, b: seq<KeyVal>)
    ensures multiset(Merge(a, b)) == multiset(a) + multiset(b)
  {
    if a != [] && b != [] {
      if Less(a[0], b[0]) {
        assert a == [a[0]] + a[1..];
        MergeKeepsAll(a[1..], b);
      } else {
        assert b == [b[0]] + b[1..];
        MergeKeepsAll(a, b[1..]);
      }
    }
  }

  lemma {:induction false} MergeSorts(a: seq<KeyVal>, b: seq<KeyVal>)
    requires Sorted(a) && Sorted(b) && Side(a, 1) && Side(b, -1)
    ensures Sorted(Merge(a, b))
  {
    if a != [] && b != [] {
      LessConnects(a[0], b[0]);
      var x, a', b' := if Less(a[0], b[0]) then a[0] else b[0],
        if Less(a[0], b[0]) then a[1..] else a, if Less(a[0], b[0]) then b else b[1..];
      MergeSorts(a', b');
      MergeKeepsAll(a', b');
      var r := Merge(a', b');
      forall i | 0 <= i < |r| ensures Less(x, r[i]) {
        assert r[i] in multiset(r);
        assert r[i] in a' || r[i] in b';
        HeadIsLeast(a, b, r[i]);
      }
    }
  }

  lemma {:induction false} HeadIsLeast(a: seq<KeyVal>, b: seq<KeyVal>, y: KeyVal)
    requires Sorted(a) && Sorted(b) && a != [] && b != []
    requires Less(a[0], b[0]) ==> y in a[1..] || y in b
    requires !Less(a[0], b[0]) ==> Less(b[0], a[0]) && (y in a || y in b[1..])
    ensures Less(if Less(a[0], b[0]) then a[0] else b[0], y)
  {
    if Less(a[0], b[0]) && y in b && y != b[0] {
      LessTransitive(a[0], b[0], y);
    }
    if !Less(a[0], b[0]) && y in a && y != a[0] {
      LessTransitive(b[0], a[0], y);
    }
  }

  // Reading the merged list in pairs is comparing the two ordered lists position by position.
  lemma {:induction false} PairsOfMerge(a: seq<KeyVal>, b: seq<KeyVal>)
    requires Sorted(a) && Sorted(b) && Side(a, 1) && Side(b, -1) && |a| == |b|
    ensures ComparePairs(Merge(a, b)) == CompareOrdered(a, b)
  {
    if a != [] {
      LexReverses(a[0].key, b[0].key);
      if a[0].key == b[0].key {
        PairIsNext(a, b[0]);
        MergeTakesPair(a, b);
        PairsOfMerge(a[1..], b[1..]);
      } else {
        MergeTakesSmaller(a, b);
      }
    }
  }

  lemma {:induction false} PairIsNext(a: seq<KeyVal>, y: KeyVal)
    requires Sorted(a) && Side(a, 1) && y.pos == -1 && a != [] && a[0].key == y.key
    ensures Less(a[0], y) && (|a| > 1 ==> !Less(a[1], y))
  {
    if |a| > 1 {
      assert Less(a[0], a[1]);
      LexReverses(a[0].key, a[1].key);
    }
  }

  lemma {:induction false} MergeTakesPair(a: seq<KeyVal>, b: seq<KeyVal>)
    requires a != [] && b != [] && Less(a[0], b[0]) && (|a| > 1 ==> !Less(a[1], b[0]))
    ensures Merge(a, b) == [a[0], b[0]] + Merge(a[1..], b[1..])
  {
    var rest := a[1..];
    if rest == [] {
      assert b == [b[0]] + b[1..];
    } else {
      assert rest[0] == a[1];
      assert Merge(rest, b) == [b[0]] + Merge(rest, b[1..]);
    }
  }

  lemma {:induction false} MergeTakesSmaller(a: seq<KeyVal>, b: seq<KeyVal>)
    requires Side(a, 1) && Side(b, -1) && a != [] && b != [] && a[0].key != b[0].key
    ensures |Merge(a, b)| >= 2
    ensures Merge(a, b)[0] == (if Lex(a[0].key, b[0].key) < 0 then a[0] else b[0])
    ensures Merge(a, b)[1].pos == Merge(a, b)[0].pos || Merge(a, b)[1].key != Merge(a, b)[0].key
  {
    LexReverses(a[0].key, b[0].key);
  }

  lemma NamesMakeDistinct(fields: seq<Field>, pos: int)
    requires UniqueNames(Object(fields))
    ensures Distinct(KeyVals(fields, pos)) && Sorted(Sort(KeyVals(fields, pos)))
  {
    SortSorts(KeyVals(fields, pos));
  }

  lemma {:induction false} SidesAreDistinct(kx: seq<KeyVal>, ky: seq<KeyVal>)
    requires Distinct(kx) && Distinct(ky) && Side(kx, 1) && Side(ky, -1)
    ensures Distinct(kx + ky)
  {
    forall i, j | 0 <= i < j < |kx + ky|
      ensures (kx + ky)[i].key != (kx + ky)[j].key || (kx + ky)[i].pos != (kx + ky)[j].pos
    {
      if i < |kx| <= j { assert (kx + ky)[j] == ky[j - |kx|]; }
    }
  }

  // Both objects' entries sorted together are their two ordered lists merged.
  lemma {:induction false} SortIsMerge(xs: seq<Field>, ys: seq<Field>)
    requires UniqueNames(Object(xs)) && UniqueNames(Object(ys))
    ensures Sorted(Sort(KeyVals(xs, 1))) && Sorted(Sort(KeyVals(ys, -1)))
    ensures Side(Sort(KeyVals(xs, 1)), 1) && Side(Sort(KeyVals(ys, -1)), -1)
    ensures Sort(KeyVals(xs, 1) + KeyVals(ys, -1)) == Merge(Sort(KeyVals(xs, 1)), Sort(KeyVals(ys, -1)))
  {
    var kx, ky := KeyVals(xs, 1), KeyVals(ys, -1);
    NamesMakeDistinct(xs, 1);
    NamesMakeDistinct(ys, -1);
    SortedSide(kx, 1);
    SortedSide(ky, -1);
    SidesAreDistinct(kx, ky);
    SortSorts(kx + ky);
    MergeSorts(Sort(kx), Sort(ky));
    MergeKeepsAll(Sort(kx), Sort(ky));
    SortedIsUnique(Sort(kx + ky), Merge(Sort(kx), Sort(ky)));
  }

  lemma {:induction false} OrderedSide(xs: seq<Field>, pos: int)
    ensures Sort(KeyVals(xs, pos)) == WithPos(Ordered(xs), pos)
  {
    var kvs, kvs' := KeyVals(xs, 0), KeyVals(xs, pos);
    assert kvs' == WithPos(kvs, pos) by {
      assert forall i :: 0 <= i < |xs| ==> kvs'[i] == kvs[i].(pos := pos);
    }
    WithPosSort(kvs, 0, pos);
  }

  // The code's sort-and-pair comparison of two objects of equal length, said field by field.
  lemma {:induction false} CompareObjects(xs: seq<Field>, ys: seq<Field>)
    requires UniqueNames(Object(xs)) && UniqueNames(Object(ys)) && |xs| == |ys|
    ensures Compare(Object(xs), Object(ys)) == CompareOrdered(Ordered(xs), Ordered(ys))
  {
    SortIsMerge(xs, ys);
    PairsOfMerge(Sort(KeyVals(xs, 1)), Sort(KeyVals(ys, -1)));
    OrderedSide(xs, 1);
    OrderedSide(ys, -1);
    PosIsIgnored(Ordered(xs), Ordered(ys), 1, -1);
  }

  lemma SortedSide(kvs: seq<KeyVal>, pos: int)
    requires Side(kvs, pos)
    ensures Side(Sort(kvs), pos)
  {
    InMultiset(Sort(kvs), kvs);
    forall i | 0 <= i < |Sort(kvs)| ensures Sort(kvs)[i].pos == pos {
      assert Sort(kvs)[i] in kvs;
    }
  }

  lemma {:induction false} PosIsIgnored(xs: seq<KeyVal>, ys: seq<KeyVal>, p: int, q: int)
    requires |xs| == |ys|
    ensures CompareOrdered(WithPos(xs, p), WithPos(ys, q)) == CompareOrdered(xs, ys)
  {
    if xs != [] {
      PosIsIgnored(xs[1..], ys[1..], p, q);
      assert WithPos(xs, p)[1..] == WithPos(xs[1..], p) && WithPos(ys, q)[1..] == WithPos(ys[1..], q);
    }
  }

  lemma {:induction false} OrderedFacts(fields: seq<Field>)
    ensures |Ordered(fields)| == |fields|
    ensures forall i :: 0 <= i < |fields| ==> Height(Ordered(fields)[i].val) < Height(Object(fields))
    ensures UniqueNames(Object(fields)) ==> forall i :: 0 <= i < |fields| ==> UniqueNames(Ordered(fields)[i].val)
  {
    var kvs := KeyVals(fields, 0);
    InMultiset(Ordered(fields), kvs);
    forall i | 0 <= i < |fields| ensures exists k :: 0 <= k < |fields| && Ordered(fields)[i].val == fields[k].val {
      assert Ordered(fields)[i] in kvs;
      var k :| 0 <= k < |kvs| && kvs[k] == Ordered(fields)[i];
    }
  }

  // ---------------------------------------------------------------- a total preorder

  // Swapping the operands negates the result.
  lemma {:induction false} CompareReverses(a: Json, b: Json)
    requires UniqueNames(a) && UniqueNames(b)
    ensures Compare(b, a) == -Compare(a, b)
    decreases Max(Height(a), Height(b)), 0, 0
  {
    match (a, b)
    case (String(x), String(y)) => LexReverses(x, y);
    case (Array(xs), Array(ys)) => CompareItemsReverses(xs, ys);
    case (Object(xs), Object(ys)) =>
      if |xs| == |ys| {
        CompareObjects(xs, ys);
        CompareObjects(ys, xs);
        OrderedFacts(xs);
        OrderedFacts(ys);
        CompareOrderedReverses(Ordered(xs), Ordered(ys), Max(Height(a), Height(b)));
      }
    case _ =>
  }

  lemma {:induction false} CompareItemsReverses(xs: seq<Json>, ys: seq<Json>)
    requires forall i :: 0 <= i < |xs| ==> UniqueNames(xs[i])
    requires forall i :: 0 <= i < |ys| ==> UniqueNames(ys[i])
    ensures CompareItems(ys, xs) == -CompareItems(xs, ys)
    decreases Max(ItemsHeight(xs), ItemsHeight(ys)), 1, |xs|
  {
    if xs != [] && ys != [] {
      CompareReverses(xs[0], ys[0]);
      CompareItemsReverses(xs[1..], ys[1..]);
    }
  }

  lemma {:induction false} CompareOrderedReverses(xs: seq<KeyVal>, ys: seq<KeyVal>, h: nat)
    requires |xs| == |ys|
    requires forall i :: 0 <= i < |xs| ==> UniqueNames(xs[i].val) && Height(xs[i].val) < h
    requires forall i :: 0 <= i < |ys| ==> UniqueNames(ys[i].val) && Height(ys[i].val) < h
    ensures CompareOrdered(ys, xs) == -CompareOrdered(xs, ys)
    decreases h, 0, 0, |xs|
  {
    if xs != [] {
      LexReverses(xs[0].key, ys[0].key);
      CompareReverses(xs[0].val, ys[0].val);
      CompareOrderedReverses(xs[1..], ys[1..], h);
    }
  }

  // A chain of two comparisons decides the third.
  ghost predicate Chains(ab: int, bc: int, ac: int)
  {
    ab <= 0 && bc <= 0 ==> ac <= 0 && (ab < 0 || bc < 0 ==> ac < 0)
  }

  lemma {:induction false} CompareTransitive(a: Json, b: Json, c: Json)
    requires UniqueNames(a) && UniqueNames(b) && UniqueNames(c)
    ensures Chains(Compare(a, b), Compare(b, c), Compare(a, c))
    decreases Max(Height(a), Max(Height(b), Height(c))), 0, 0
  {
    if a.String? && b.String? && c.String? {
      if Lex(a.s, b.s) <= 0 && Lex(b.s, c.s) <= 0 { LexTransitive(a.s, b.s, c.s); }
    } else if a.Array? && b.Array? && c.Array? {
      CompareItemsTransitive(a.items, b.items, c.items);
    } else if a.Object? && b.Object? && c.Object? {
      var xs, ys, zs := a.fields, b.fields, c.fields;
      if |xs| == |ys| == |zs| {
        CompareObjects(xs, ys);
        CompareObjects(ys, zs);
        CompareObjects(xs, zs);
        OrderedFacts(xs);
        OrderedFacts(ys);
        OrderedFacts(zs);
        CompareOrderedTransitive(Ordered(xs), Ordered(ys), Ordered(zs), Max(Height(a), Max(Height(b), Height(c))));
      }
    }
  }

  lemma {:induction false} CompareItemsTransitive(xs: seq<Json>, ys: seq<Json>, zs: seq<Json>)
    requires forall i :: 0 <= i < |xs| ==> UniqueNames(xs[i])
    requires forall i :: 0 <= i < |ys| ==> UniqueNames(ys[i])
    requires forall i :: 0 <= i < |zs| ==> UniqueNames(zs[i])
    ensures Chains(CompareItems(xs, ys), CompareItems(ys, zs), CompareItems(xs, zs))
    decreases Max(ItemsHeight(xs), Max(ItemsHeight(ys), ItemsHeight(zs))), 1, |xs|
  {
    if xs != [] && ys != [] && zs != [] {
      CompareTransitive(xs[0], ys[0], zs[0]);
      CompareReverses(xs[0], ys[0]);
      CompareReverses(ys[0], zs[0]);
      CompareReverses(xs[0], zs[0]);
      CompareTransitive(zs[0], ys[0], xs[0]);
      CompareItemsTransitive(xs[1..], ys[1..], zs[1..]);
    }
  }

  lemma {:induction false} CompareOrderedTransitive(xs: seq<KeyVal>, ys: seq<KeyVal>, zs: seq<KeyVal>, h: nat)
    requires |xs| == |ys| == |zs|
    requires forall i :: 0 <= i < |xs| ==> UniqueNames(xs[i].val) && Height(xs[i].val) < h
    requires forall i :: 0 <= i < |ys| ==> UniqueNames(ys[i].val) && Height(ys[i].val) < h
    requires forall i :: 0 <= i < |zs| ==> UniqueNames(zs[i].val) && Height(zs[i].val) < h
    ensures Chains(CompareOrdered(xs, ys), CompareOrdered(ys, zs), CompareOrdered(xs, zs))
    decreases h, 0, 0, |xs|
  {
    if xs != [] {
      var x, y, z := xs[0], ys[0], zs[0];
      LexReverses(x.key, y.key);
      LexReverses(y.key, z.key);
      LexReverses(x.key, z.key);
      if Lex(z.key, y.key) <= 0 && Lex(y.key, x.key) <= 0 {
        LexTransitive(z.key, y.key, x.key);
      }
      CompareTransitive(x.val, y.val, z.val);
      CompareReverses(x.val, y.val);
      CompareReverses(y.val, z.val);
      CompareReverses(x.val, z.val);
      CompareTransitive(z.val, y.val, x.val);
      CompareOrderedTransitive(xs[1..], ys[1..], zs[1..], h);
    }
  }

  // ---------------------------------------------------------------- CanonicalJSONWithType

  // What strconv.AppendFloat(out, v, 'f', -1, 64) promises of the numbers a float64 holds: one text for
  // each, over digits, '-' and '.'.
  ghost predicate FormatOk(fmt: real -> Str, nums: iset<real>)
  {
    && (forall v :: v in nums ==> fmt(v) != [] && forall i :: 0 <= i < |fmt(v)| ==> NumberByte(fmt(v)[i]))
    && (forall v, w :: v in nums && w in nums && fmt(v) == fmt(w) ==> v == w)
  }

  // Names are unique, and every number is one of nums.
  ghost predicate Wellformed(nums: iset<real>, j: Json)
    decreases j
  {
    match j
    case Number(v, _) => v in nums
    case Array(items) => forall i :: 0 <= i < |items| ==> Wellformed(nums, items[i])
    case Object(fields) =>
      && (forall i, k :: 0 <= i < k < |fields| ==> fields[i].name != fields[k].name)
      && (forall i :: 0 <= i < |fields| ==> Wellformed(nums, fields[i].val))
    case _ => true
  }

  lemma {:induction false} WellformedIsUnique(nums: iset<real>, j: Json)
    requires Wellformed(nums, j)
    ensures UniqueNames(j)
    decreases j
  {
    match j
    case Array(items) =>
      forall i | 0 <= i < |items| ensures UniqueNames(items[i]) {
        WellformedIsUnique(nums, items[i]);
      }
    case Object(fields) =>
      forall i | 0 <= i < |fields| ensures UniqueNames(fields[i].val) {
        WellformedIsUnique(nums, fields[i].val);
      }
    case _ =>
  }

  lemma {:induction false} OrderedWellformed(nums: iset<real>, fields: seq<Field>)
    requires Wellformed(nums, Object(fields))
    ensures |Ordered(fields)| == |fields| && forall i :: 0 <= i < |fields| ==> Wellformed(nums, Ordered(fields)[i].val)
  {
    var kvs := KeyVals(fields, 0);
    InMultiset(Ordered(fields), kvs);
    OrderedFacts(fields);
    forall i | 0 <= i < |fields| ensures Wellformed(nums, Ordered(fields)[i].val) {
      assert Ordered(fields)[i] in kvs;
      var k :| 0 <= k < |kvs| && kvs[k] == Ordered(fields)[i];
    }
  }

  predicate NumberByte(b: Byte)
  {
    0x30 <= b <= 0x39 || b == 0x2D || b == 0x2E
  }

  function Canonical(fmt: real -> Str, j: Json): Str
    decreases Height(j), 0
  {
    match j
    case Null => NULL
    case Bool(b) => if b then TRUE else FALSE
    case Number(v, _) => fmt(v)
    case String(s) => Quoted(s)
    case Array(items) => [LBRACKET] + CanonicalItems(fmt, items) + [RBRACKET]
    case Object(fields) =>
      OrderedFacts(fields);
      [LBRACE] + CanonicalPairs(fmt, Ordered(fields), FieldsHeight(fields)) + [RBRACE]
  }

  function CanonicalItems(fmt: real -> Str, items: seq<Json>): Str
    decreases ItemsHeight(items), 1, |items|
  {
    if items == [] then []
    else if |items| == 1 then Canonical(fmt, items[0])
    else Canonical(fmt, items[0]) + [COMMA] + CanonicalItems(fmt, items[1..])
  }

  function CanonicalPairs(fmt: real -> Str, kvs: seq<KeyVal>, h: nat): Str
    requires forall i :: 0 <= i < |kvs| ==> Height(kvs[i].val) <= h
    decreases h, 1, |kvs|
  {
    if kvs == [] then []
    else
      var head := Quoted(kvs[0].key) + [COLON] + Canonical(fmt, kvs[0].val);
      if |kvs| == 1 then head else head + [COMMA] + CanonicalPairs(fmt, kvs[1..], h)
  }

  // ---------------------------------------------------------------- equal values, equal text

  lemma {:induction false} EqualGivesSameText(fmt: real -> Str, a: Json, b: Json)
    requires UniqueNames(a) && UniqueNames(b) && Compare(a, b) == 0
    ensures Canonical(fmt, a) == Canonical(fmt, b)
    decreases Max(Height(a), Height(b)), 0, 0
  {
    match (a, b)
    case (Array(xs), Array(ys)) => EqualItemsGiveSameText(fmt, xs, ys);
    case (Object(xs), Object(ys)) =>
      CompareObjects(xs, ys);
      OrderedFacts(xs);
      OrderedFacts(ys);
      EqualPairsGiveSameText(fmt, Ordered(xs), Ordered(ys), FieldsHeight(xs), FieldsHeight(ys));
    case _ =>
  }

  lemma {:induction false} EqualItemsGiveSameText(fmt: real -> Str, xs: seq<Json>, ys: seq<Json>)
    requires forall i :: 0 <= i < |xs| ==> UniqueNames(xs[i])
    requires forall i :: 0 <= i < |ys| ==> UniqueNames(ys[i])
    requires CompareItems(xs, ys) == 0
    ensures CanonicalItems(fmt, xs) == CanonicalItems(fmt, ys) && |xs| == |ys|
    decreases Max(ItemsHeight(xs), ItemsHeight(ys)), 1, |xs|
  {
    if xs != [] && ys != [] {
      EqualGivesSameText(fmt, xs[0], ys[0]);
      EqualItemsGiveSameText(fmt, xs[1..], ys[1..]);
    }
  }

  lemma {:induction false} EqualPairsGiveSameText(fmt: real -> Str, xs: seq<KeyVal>, ys: seq<KeyVal>, g: nat, h: nat)
    requires |xs| == |ys| && CompareOrdered(xs, ys) == 0
    requires forall i :: 0 <= i < |xs| ==> UniqueNames(xs[i].val) && Height(xs[i].val) <= g
    requires forall i :: 0 <= i < |ys| ==> UniqueNames(ys[i].val) && Height(ys[i].val) <= h
    ensures CanonicalPairs(fmt, xs, g) == CanonicalPairs(fmt, ys, h)
    decreases Max(g, h), 1, |xs|
  {
    if xs != [] {
      EqualGivesSameText(fmt, xs[0].val, ys[0].val);
      EqualPairsGiveSameText(fmt, xs[1..], ys[1..], g, h);
    }
  }

  // ---------------------------------------------------------------- same text, equal values

  // What can follow a value inside a canonical text.
  ghost predicate Ends(x: Str)
  {
    x == [] || x[0] == COMMA || x[0] == RBRACKET || x[0] == RBRACE
  }

  lemma {:induction false} NumbersEnd(u: Str, x: Str, v: Str, y: Str)
    requires forall i :: 0 <= i < |u| ==> NumberByte(u[i])
    requires forall i :: 0 <= i < |v| ==> NumberByte(v[i])
    requires Ends(x) && Ends(y) && u + x == v + y
    ensures u == v && x == y
  {
    var t := u + x;
    assert t == v + y;
    assert forall i :: 0 <= i < |u| ==> t[i] == u[i];
    assert forall i :: 0 <= i < |v| ==> t[i] == v[i];
    assert |u| < |t| ==> t[|u|] == x[0];
    assert |v| < |t| ==> t[|v|] == y[0];
    assert u == t[..|u|] && v == t[..|v|];
    assert x == t[|u|..] && y == t[|v|..];
  }

  lemma {:induction false} QuotesEnd(s: Plain, x: Str, t: Plain, y: Str)
    requires Quoted(s) + x == Quoted(t) + y
    ensures s == t && x == y
  {
    var l, r := Quoted(s) + x, Quoted(t) + y;
    assert l == r && l[1 + |s|] == QUOTE && r[1 + |t|] == QUOTE;
    assert forall i :: 0 <= i < |s| ==> l[1 + i] == s[i];
    assert forall i :: 0 <= i < |t| ==> r[1 + i] == t[i];
    assert l[1..1 + |s|] == s && r[1..1 + |t|] == t;
    assert l[|s| + 2..] == x && r[|t| + 2..] == y;
  }

  // The first byte tells the type, and that more text follows.
  lemma FirstByte(fmt: real -> Str, nums: iset<real>, j: Json)
    requires FormatOk(fmt, nums) && Wellformed(nums, j)
    ensures |Canonical(fmt, j)| > 0
    ensures var c := Canonical(fmt, j)[0];
            match j
            case Null => c == 0x6E
            case Bool(b) => c == (if b then 0x74 else 0x66)
            case Number(_, _) => NumberByte(c)
            case String(_) => c == QUOTE
            case Array(_) => c == LBRACKET
            case Object(_) => c == LBRACE
  {
    if j.Number? {
      assert NumberByte(fmt(j.v)[0]);
    }
  }

  // Same first byte, same rest.
  lemma Uncons(c: Byte, u: Str, v: Str)
    requires [c] + u == [c] + v
    ensures u == v
  {
    assert u == ([c] + u)[1..] && v == ([c] + v)[1..];
  }

  lemma {:induction false} Unwrap(c: Byte, u: Str, d: Byte, x: Str, v: Str, y: Str)
    requires [c] + u + [d] + x == [c] + v + [d] + y
    ensures u + ([d] + x) == v + ([d] + y)
  {
    assert [c] + u + [d] + x == [c] + (u + ([d] + x));
    assert [c] + v + [d] + y == [c] + (v + ([d] + y));
    Uncons(c, u + ([d] + x), v + ([d] + y));
  }

  // Whenever a value's text starts a text, its first byte does.
  lemma {:induction false} StartsWith(fmt: real -> Str, nums: iset<real>, j: Json, x: Str)
    requires FormatOk(fmt, nums) && Wellformed(nums, j)
    ensures |Canonical(fmt, j)| > 0 && (Canonical(fmt, j) + x)[0] == Canonical(fmt, j)[0]
  {
    FirstByte(fmt, nums, j);
  }

  lemma {:induction false} TextIsUnambiguous(fmt: real -> Str, nums: iset<real>, a: Json, x: Str, b: Json, y: Str)
    requires FormatOk(fmt, nums) && Wellformed(nums, a) && Wellformed(nums, b) && Ends(x) && Ends(y)
    requires Canonical(fmt, a) + x == Canonical(fmt, b) + y
    ensures Compare(a, b) == 0 && x == y
    decreases Max(Height(a), Height(b)), 0, 0
  {
    FirstByte(fmt, nums, a);
    FirstByte(fmt, nums, b);
    StartsWith(fmt, nums, a, x);
    StartsWith(fmt, nums, b, y);
    if a.Null? && b.Null? {
      assert x == (NULL + x)[4..] && y == (NULL + y)[4..];
    } else if a.Bool? && b.Bool? {
      var t := if a.b then TRUE else FALSE;
      assert x == (t + x)[|t|..] && y == (t + y)[|t|..];
    } else if a.Number? && b.Number? {
      NumbersEnd(fmt(a.v), x, fmt(b.v), y);
    } else if a.String? && b.String? {
      QuotesEnd(a.s, x, b.s, y);
    } else if a.Array? && b.Array? {
      Unwrap(LBRACKET, CanonicalItems(fmt, a.items), RBRACKET, x, CanonicalItems(fmt, b.items), y);
      ItemsAreUnambiguous(fmt, nums, a.items, x, b.items, y);
    } else if a.Object? && b.Object? {
      OrderedFacts(a.fields);
      OrderedFacts(b.fields);
      OrderedWellformed(nums, a.fields);
      OrderedWellformed(nums, b.fields);
      WellformedIsUnique(nums, a);
      WellformedIsUnique(nums, b);
      var g, h := FieldsHeight(a.fields), FieldsHeight(b.fields);
      var xs, ys := Ordered(a.fields), Ordered(b.fields);
      Unwrap(LBRACE, CanonicalPairs(fmt, xs, g), RBRACE, x, CanonicalPairs(fmt, ys, h), y);
      PairsAreUnambiguous(fmt, nums, xs, x, g, ys, y, h);
      CompareObjects(a.fields, b.fields);
    }
  }

  // The elements from here to the closing bracket, and what follows it.
  function ItemsBody(fmt: real -> Str, items: seq<Json>, x: Str): Str
  {
    CanonicalItems(fmt, items) + ([RBRACKET] + x)
  }

  function ItemsTail(fmt: real -> Str, items: seq<Json>, x: Str): (t: Str)
    ensures Ends(t)
  {
    if items == [] then [RBRACKET] + x else [COMMA] + ItemsBody(fmt, items, x)
  }

  lemma {:induction false} ItemsBodySplits(fmt: real -> Str, items: seq<Json>, x: Str)
    requires items != []
    ensures ItemsBody(fmt, items, x) == Canonical(fmt, items[0]) + ItemsTail(fmt, items[1..], x)
  {
  }

  lemma {:induction false} ItemsAreUnambiguous(fmt: real -> Str, nums: iset<real>, xs: seq<Json>, x: Str, ys: seq<Json>, y: Str)
    requires FormatOk(fmt, nums)
    requires forall i :: 0 <= i < |xs| ==> Wellformed(nums, xs[i])
    requires forall i :: 0 <= i < |ys| ==> Wellformed(nums, ys[i])
    requires ItemsBody(fmt, xs, x) == ItemsBody(fmt, ys, y)
    ensures CompareItems(xs, ys) == 0 && x == y
    decreases Max(ItemsHeight(xs), ItemsHeight(ys)), 1, 2 * |xs|
  {
    if xs != [] {
      ItemsBodySplits(fmt, xs, x);
      FirstByte(fmt, nums, xs[0]);
      StartsWith(fmt, nums, xs[0], ItemsTail(fmt, xs[1..], x));
    }
    if ys != [] {
      ItemsBodySplits(fmt, ys, y);
      FirstByte(fmt, nums, ys[0]);
      StartsWith(fmt, nums, ys[0], ItemsTail(fmt, ys[1..], y));
    }
    assert xs == [] ==> ItemsBody(fmt, xs, x) == [RBRACKET] + x;
    assert ys == [] ==> ItemsBody(fmt, ys, y) == [RBRACKET] + y;
    if xs == [] {
      Uncons(RBRACKET, x, y);
    } else {
      var tx, ty := ItemsTail(fmt, xs[1..], x), ItemsTail(fmt, ys[1..], y);
      TextIsUnambiguous(fmt, nums, xs[0], tx, ys[0], ty);
      ItemsTailsAreUnambiguous(fmt, nums, xs[1..], x, ys[1..], y);
    }
  }

  lemma {:induction false} ItemsTailsAreUnambiguous(fmt: real -> Str, nums: iset<real>, xs: seq<Json>, x: Str, ys: seq<Json>, y: Str)
    requires FormatOk(fmt, nums)
    requires forall i :: 0 <= i < |xs| ==> Wellformed(nums, xs[i])
    requires forall i :: 0 <= i < |ys| ==> Wellformed(nums, ys[i])
    requires ItemsTail(fmt, xs, x) == ItemsTail(fmt, ys, y)
    ensures CompareItems(xs, ys) == 0 && x == y
    decreases Max(ItemsHeight(xs), ItemsHeight(ys)), 1, 2 * |xs| + 1
  {
    assert ItemsTail(fmt, xs, x)[0] == ItemsTail(fmt, ys, y)[0];
    if xs == [] {
      Uncons(RBRACKET, x, y);
    } else {
      Uncons(COMMA, ItemsBody(fmt, xs, x), ItemsBody(fmt, ys, y));
      ItemsAreUnambiguous(fmt, nums, xs, x, ys, y);
    }
  }

  function PairsBody(fmt: real -> Str, kvs: seq<KeyVal>, h: nat, x: Str): Str
    requires forall i :: 0 <= i < |kvs| ==> Height(kvs[i].val) <= h
  {
    CanonicalPairs(fmt, kvs, h) + ([RBRACE] + x)
  }

  function PairsTail(fmt: real -> Str, kvs: seq<KeyVal>, h: nat, x: Str): (t: Str)
    requires forall i :: 0 <= i < |kvs| ==> Height(kvs[i].val) <= h
    ensures Ends(t)
  {
    if kvs == [] then [RBRACE] + x else [COMMA] + PairsBody(fmt, kvs, h, x)
  }

  lemma {:induction false} PairsBodySplits(fmt: real -> Str, kvs: seq<KeyVal>, h: nat, x: Str)
    requires kvs != [] && forall i :: 0 <= i < |kvs| ==> Height(kvs[i].val) <= h
    ensures PairsBody(fmt, kvs, h, x) ==
            Quoted(kvs[0].key) + ([COLON] + (Canonical(fmt, kvs[0].val) + PairsTail(fmt, kvs[1..], h, x)))
  {
    var q, v, t := Quoted(kvs[0].key), Canonical(fmt, kvs[0].val), PairsTail(fmt, kvs[1..], h, x);
    if |kvs| == 1 {
      assert PairsBody(fmt, kvs, h, x) == (q + [COLON] + v) + t;
    } else {
      var rest := CanonicalPairs(fmt, kvs[1..], h);
      assert t == [COMMA] + (rest + ([RBRACE] + x));
      Regroup(q + [COLON] + v, [COMMA], rest, [RBRACE] + x);
    }
    Regroup(q, [COLON], v, t);
  }

  lemma Regroup(a: Str, b: Str, c: Str, d: Str)
    ensures (a + b + c) + d == a + (b + (c + d))
  {
  }

  lemma {:induction false} PairsAreUnambiguous(fmt: real -> Str, nums: iset<real>, xs: seq<KeyVal>, x: Str, g: nat,
                                               ys: seq<KeyVal>, y: Str, h: nat)
    requires FormatOk(fmt, nums)
    requires forall i :: 0 <= i < |xs| ==> Wellformed(nums, xs[i].val) && Height(xs[i].val) <= g
    requires forall i :: 0 <= i < |ys| ==> Wellformed(nums, ys[i].val) && Height(ys[i].val) <= h
    requires PairsBody(fmt, xs, g, x) == PairsBody(fmt, ys, h, y)
    ensures |xs| == |ys| && CompareOrdered(xs, ys) == 0 && x == y
    decreases Max(g, h), 1, 2 * |xs|
  {
    if xs != [] { PairsBodySplits(fmt, xs, g, x); }
    if ys != [] { PairsBodySplits(fmt, ys, h, y); }
    assert xs != [] ==> PairsBody(fmt, xs, g, x)[0] == QUOTE;
    assert ys != [] ==> PairsBody(fmt, ys, h, y)[0] == QUOTE;
    assert xs == [] ==> PairsBody(fmt, xs, g, x) == [RBRACE] + x;
    assert ys == [] ==> PairsBody(fmt, ys, h, y) == [RBRACE] + y;
    if xs == [] {
      Uncons(RBRACE, x, y);
    } else {
      var tx, ty := PairsTail(fmt, xs[1..], g, x), PairsTail(fmt, ys[1..], h, y);
      var vx, vy := Canonical(fmt, xs[0].val) + tx, Canonical(fmt, ys[0].val) + ty;
      QuotesEnd(xs[0].key, [COLON] + vx, ys[0].key, [COLON] + vy);
      Uncons(COLON, vx, vy);
      TextIsUnambiguous(fmt, nums, xs[0].val, tx, ys[0].val, ty);
      PairsTailsAreUnambiguous(fmt, nums, xs[1..], x, g, ys[1..], y, h);
    }
  }

  lemma {:induction false} PairsTailsAreUnambiguous(fmt: real -> Str, nums: iset<real>, xs: seq<KeyVal>, x: Str, g: nat,
                                                    ys: seq<KeyVal>, y: Str, h: nat)
    requires FormatOk(fmt, nums)
    requires forall i :: 0 <= i < |xs| ==> Wellformed(nums, xs[i].val) && Height(xs[i].val) <= g
    requires forall i :: 0 <= i < |ys| ==> Wellformed(nums, ys[i].val) && Height(ys[i].val) <= h
    requires PairsTail(fmt, xs, g, x) == PairsTail(fmt, ys, h, y)
    ensures |xs| == |ys| && CompareOrdered(xs, ys) == 0 && x == y
    decreases Max(g, h), 1, 2 * |xs| + 1
  {
    assert PairsTail(fmt, xs, g, x)[0] == PairsTail(fmt, ys, h, y)[0];
    if xs == [] {
      Uncons(RBRACE, x, y);
    } else {
      Uncons(COMMA, PairsBody(fmt, xs, g, x), PairsBody(fmt, ys, h, y));
      PairsAreUnambiguous(fmt, nums, xs, x, g, ys, y, h);
    }
  }

  // Two values compare equal exactly when their canonical texts are equal.
  lemma {:induction false} CanonicalIffEqual(fmt: real -> Str, nums: iset<real>, a: Json, b: Json)
    requires FormatOk(fmt, nums) && Wellformed(nums, a) && Wellformed(nums, b)
    ensures Compare(a, b) == 0 <==> Canonical(fmt, a) == Canonical(fmt, b)
  {
    WellformedIsUnique(nums, a);
    WellformedIsUnique(nums, b);
    if Compare(a, b) == 0 {
      EqualGivesSameText(fmt, a, b);
    }
    if Canonical(fmt, a) == Canonical(fmt, b) {
      assert Canonical(fmt, a) + [] == Canonical(fmt, b) + [];
      TextIsUnambiguous(fmt, nums, a, [], b, []);
    }
  }
}
