// The rows that engine/op_merge_scan.go merges: keyed rows, ascending streams, permutations.
module MergeRows {
  import opened MergeHeaps
  import opened Seqs

  // A child's row; it is keyless when mergeParseKey finds no int64 in its key column.
  datatype Row<V> = Keyless(v: V) | Keyed(rec: Rec<V>)

  datatype MergeErr = Ok | OutOfOrder(child: int, key: Key, lastKey: Key) | BoundViolation(child: int, key: Key, lastKey: Key)

  // The rows a cursor is filled with: keyless rows are skipped.
  function KeyedRows<V>(child: seq<Row<V>>, n: nat): seq<Rec<V>>
    requires n <= |child|
  {
    if n == 0 then []
    else KeyedRows(child, n - 1) + (if child[n - 1].Keyed? then [child[n - 1].rec] else [])
  }

  ghost predicate Prefix<T>(a: seq<T>, b: seq<T>)
  {
    |a| <= |b| && a == b[..|a|]
  }

  lemma {:induction false} KeyedRowsPrefix<V>(child: seq<Row<V>>, j: nat, n: nat)
    requires j <= n <= |child|
    ensures Prefix(KeyedRows(child, j), KeyedRows(child, n))
    decreases n
  {
    if j < n {
      KeyedRowsPrefix(child, j, n - 1);
    }
  }

  // Row i adds its record to the prefix that the rows before it gave, if it has a key.
  lemma {:induction false} KeyedNext<V>(child: seq<Row<V>>, i: nat)
    requires i < |child|
    ensures var all, done := KeyedRows(child, |child|), KeyedRows(child, i);
            && Prefix(done, all)
            && (child[i].Keyed? ==> |done| < |all| && all[|done|] == child[i].rec && KeyedRows(child, i + 1) == all[..|done| + 1])
            && (child[i].Keyless? ==> KeyedRows(child, i + 1) == done)
  {
    KeyedRowsPrefix(child, i, |child|);
    KeyedRowsPrefix(child, i + 1, |child|);
  }

  ghost predicate Ascending<V>(s: seq<Rec<V>>)
  {
    forall i, j :: 0 <= i < j < |s| ==> s[i].key <= s[j].key
  }

  ghost predicate AllAscending<V>(keyed: seq<seq<Rec<V>>>)
  {
    forall c :: 0 <= c < |keyed| ==> Ascending(keyed[c])
  }

  ghost predicate AllBelow<V>(s: seq<Rec<V>>, k: Key)
  {
    forall i :: 0 <= i < |s| ==> s[i].key <= k
  }

  ghost predicate AllAbove<V>(s: multiset<Rec<V>>, k: Key)
  {
    forall r :: r in s ==> k <= r.key
  }

  lemma AscendingLast<V>(s: seq<Rec<V>>)
    requires Ascending(s) && |s| > 0
    ensures AllBelow(s, s[|s| - 1].key)
  {
  }

  lemma AscendingExtends<V>(s: seq<Rec<V>>, r: Rec<V>)
    requires Ascending(s) && AllBelow(s, r.key)
    ensures Ascending(s + [r])
  {
  }

  function Keys<V>(s: seq<Rec<V>>): (r: seq<Key>)
    ensures |r| == |s|
    ensures forall i :: 0 <= i < |s| ==> r[i] == s[i].key
  {
    seq(|s|, i requires 0 <= i < |s| => s[i].key)
  }

  lemma KeysWithout<V>(s: seq<Rec<V>>, i: nat)
    requires i < |s|
    ensures Keys(Without(s, i)) == Without(Keys(s), i)
  {
  }

  lemma {:induction false} KeysOfSame<V>(a: seq<Rec<V>>, b: seq<Rec<V>>)
    requires multiset(a) == multiset(b)
    ensures multiset(Keys(a)) == multiset(Keys(b))
    decreases |a|
  {
    assert |multiset(a)| == |a| && |multiset(b)| == |b|;
    if |a| > 0 {
      assert a[0] in multiset(b);
      var i :| 0 <= i < |b| && b[i] == a[0];
      WithoutOne(a, 0);
      WithoutOne(b, i);
      Cancel(multiset(Without(a, 0)), multiset(Without(b, i)), multiset{a[0]});
      KeysOfSame(Without(a, 0), Without(b, i));
      KeysWithout(a, 0);
      KeysWithout(b, i);
      WithoutOne(Keys(a), 0);
      WithoutOne(Keys(b), i);
    }
  }

  lemma Cancel<T>(a: multiset<T>, b: multiset<T>, c: multiset<T>)
    requires a + c == b + c
    ensures a == b
  {
    assert a + c - c == a && b + c - c == b;
  }

  ghost predicate AscendingKeys(s: seq<Key>)
  {
    forall i, j :: 0 <= i < j < |s| ==> s[i] <= s[j]
  }

  lemma FirstIsLeast(a: seq<Key>, b: seq<Key>)
    requires AscendingKeys(a) && |a| > 0 && |b| > 0 && multiset(a) == multiset(b)
    ensures a[0] <= b[0]
  {
    assert b[0] in multiset(b);
    assert b[0] in multiset(a);
  }

  lemma SameTails(a: seq<Key>, b: seq<Key>)
    requires |a| > 0 && |b| > 0 && a[0] == b[0] && multiset(a) == multiset(b)
    ensures multiset(a[1..]) == multiset(b[1..])
  {
    assert Without(a, 0) == a[1..] && Without(b, 0) == b[1..];
    WithoutOne(a, 0);
    WithoutOne(b, 0);
    Cancel(multiset(a[1..]), multiset(b[1..]), multiset{a[0]});
  }

  lemma {:induction false} AscendingIsUnique(a: seq<Key>, b: seq<Key>)
    requires AscendingKeys(a) && AscendingKeys(b) && multiset(a) == multiset(b)
    ensures a == b
    decreases |a|
  {
    SameLength(a, b);
    if |a| > 0 {
      FirstIsLeast(a, b);
      FirstIsLeast(b, a);
      SameTails(a, b);
      AscendingIsUnique(a[1..], b[1..]);
      assert a == [a[0]] + a[1..];
      assert b == [b[0]] + b[1..];
    }
  }

  // Sorting the same rows twice gives the same key sequence.
  lemma SortedPermutationsAgree<V>(a: seq<Rec<V>>, b: seq<Rec<V>>)
    requires Ascending(a) && Ascending(b) && multiset(a) == multiset(b)
    ensures Keys(a) == Keys(b)
  {
    KeysOfSame(a, b);
    AscendingIsUnique(Keys(a), Keys(b));
  }
}
