// The hand-rolled binary min-heaps of engine/op_merge_scan.go: MergeHeap holds cursor indices under
// their head keys, MergeReorderBuffer holds rows under their sort keys. Both sift the same way.
module MergeHeaps {
  const MIN_INT64: int := -0x8000_0000_0000_0000
  const MAX_INT64: int := 0x7FFF_FFFF_FFFF_FFFF

  // An int64 sort key.
  type Key = k: int | MIN_INT64 <= k <= MAX_INT64

  // The int64 that a mathematical result wraps around to.
  function Wrap(x: int): Key
  {
    (x - MIN_INT64) % 0x1_0000_0000_0000_0000 + MIN_INT64
  }

  datatype Rec<V> = Rec(key: Key, vals: V)

  function Zip<V>(keys: seq<Key>, vals: seq<V>): (r: seq<Rec<V>>)
    requires |keys| == |vals|
    ensures |r| == |keys|
    ensures forall i :: 0 <= i < |keys| ==> r[i] == Rec(keys[i], vals[i])
  {
    seq(|keys|, i requires 0 <= i < |keys| => Rec(keys[i], vals[i]))
  }

  function Swapped<T>(s: seq<T>, i: nat, j: nat): (r: seq<T>)
    requires i < |s| && j < |s|
    ensures |r| == |s|
    ensures forall k :: 0 <= k < |s| ==> r[k] == if k == i then s[j] else if k == j then s[i] else s[k]
  {
    s[i := s[j]][j := s[i]]
  }

  lemma SwappedKeepsAll<T>(s: seq<T>, i: nat, j: nat)
    requires i < |s| && j < |s|
    ensures multiset(Swapped(s, i, j)) == multiset(s)
  {
  }

  lemma SwappedZip<V>(keys: seq<Key>, vals: seq<V>, i: nat, j: nat)
    requires |keys| == |vals| && i < |keys| && j < |keys|
    ensures multiset(Zip(Swapped(keys, i, j), Swapped(vals, i, j))) == multiset(Zip(keys, vals))
  {
    assert Zip(Swapped(keys, i, j), Swapped(vals, i, j)) == Swapped(Zip(keys, vals), i, j);
    SwappedKeepsAll(Zip(keys, vals), i, j);
  }

  // ---------------------------------------------------------------- heap order

  function Parent(i: nat): nat
    requires i > 0
    ensures Parent(i) < i
  {
    (i - 1) / 2
  }

  // Every node but those excepted is not below its parent.
  ghost predicate Ordered(keys: seq<Key>, i: nat)
  {
    0 < i < |keys| ==> keys[Parent(i)] <= keys[i]
  }

  ghost predicate HeapOrder(keys: seq<Key>)
  {
    forall i: nat :: Ordered(keys, i)
  }

  // Sifting up at i: only i may be below its parent, and i's children are not below that parent.
  ghost predicate SiftingUp(keys: seq<Key>, i: nat)
  {
    && (forall j: nat :: j != i ==> Ordered(keys, j))
    && (forall j: nat :: 0 < j < |keys| && Parent(j) == i && i > 0 ==> keys[Parent(i)] <= keys[j])
  }

  // Sifting down at i: only i's children may be below it, and they are not below i's parent.
  ghost predicate SiftingDown(keys: seq<Key>, i: nat)
  {
    && (forall j: nat :: 0 < j && Parent(j) != i ==> Ordered(keys, j))
    && (forall j: nat :: 0 < j < |keys| && Parent(j) == i && i > 0 ==> keys[Parent(i)] <= keys[j])
  }

  lemma {:induction false} RootIsLeast(keys: seq<Key>, i: nat)
    requires HeapOrder(keys) && i < |keys|
    ensures keys[0] <= keys[i]
    decreases i
  {
    if i > 0 {
      assert Ordered(keys, i);
      RootIsLeast(keys, Parent(i));
    }
  }

  lemma UpStep(keys: seq<Key>, i: nat)
    requires 0 < i < |keys| && SiftingUp(keys, i) && keys[Parent(i)] > keys[i]
    ensures SiftingUp(Swapped(keys, i, Parent(i)), Parent(i))
  {
    var p := Parent(i);
    var keys' := Swapped(keys, i, p);
    forall j: nat | j != p ensures Ordered(keys', j) {
      if 0 < j < |keys| {
        assert j != i ==> Ordered(keys, j);
      }
    }
    forall j: nat | 0 < j < |keys| && Parent(j) == p && p > 0 ensures keys'[Parent(p)] <= keys'[j] {
      assert Ordered(keys, p);
      assert j != i ==> Ordered(keys, j);
    }
  }

  lemma UpDone(keys: seq<Key>, i: nat)
    requires i < |keys| && SiftingUp(keys, i) && (i > 0 ==> keys[Parent(i)] <= keys[i])
    ensures HeapOrder(keys)
  {
    forall j: nat ensures Ordered(keys, j) {
      assert j != i ==> Ordered(keys, j);
    }
  }

  lemma DownStep(keys: seq<Key>, i: nat, child: nat)
    requires i < |keys| && SiftingDown(keys, i) && 0 < child < |keys| && Parent(child) == i
    requires forall j: nat :: 0 < j < |keys| && Parent(j) == i ==> keys[child] <= keys[j]
    requires keys[child] < keys[i]
    ensures SiftingDown(Swapped(keys, i, child), child)
  {
    var keys' := Swapped(keys, i, child);
    forall j: nat | 0 < j && Parent(j) != child ensures Ordered(keys', j) {
      if j < |keys| {
        assert Parent(j) != i ==> Ordered(keys, j);
      }
    }
    forall j: nat | 0 < j < |keys| && Parent(j) == child ensures keys'[Parent(child)] <= keys'[j] {
      assert Ordered(keys, j);
    }
  }

  lemma DownDone(keys: seq<Key>, i: nat)
    requires SiftingDown(keys, i)
    requires forall j: nat :: 0 < j < |keys| && Parent(j) == i ==> keys[i] <= keys[j]
    ensures HeapOrder(keys)
  {
    forall j: nat ensures Ordered(keys, j) {
      assert 0 < j && Parent(j) != i ==> Ordered(keys, j);
    }
  }

  // The child to sift towards: the right one only when it is smaller than the left.
  function SmallerChild(keys: seq<Key>, i: nat): (child: nat)
    requires 2 * i + 1 < |keys|
    ensures 0 < child < |keys| && Parent(child) == i
    ensures forall j: nat :: 0 < j < |keys| && Parent(j) == i ==> keys[child] <= keys[j]
  {
    assert forall j: nat :: 0 < j && Parent(j) == i ==> j == 2 * i + 1 || j == 2 * i + 2;
    var left := 2 * i + 1;
    if left + 1 < |keys| && keys[left + 1] < keys[left] then left + 1 else left
  }

  // ---------------------------------------------------------------- the heap

  class MergeHeap<V> {
    var keys: seq<Key>
    var vals: seq<V>

    ghost predicate Valid()
      reads this
    {
      |keys| == |vals| && HeapOrder(keys)
    }

    ghost function Contents(): multiset<Rec<V>>
      reads this
      requires |keys| == |vals|
    {
      multiset(Zip(keys, vals))
    }

    constructor ()
      ensures Valid() && Contents() == multiset{} && keys == []
    {
      keys, vals := [], [];
    }

    method Push(key: Key, val: V)
      requires Valid()
      modifies this
      ensures Valid() && Contents() == old(Contents()) + multiset{Rec(key, val)}
    {
      assert Zip(keys + [key], vals + [val]) == Zip(keys, vals) + [Rec(key, val)];
      forall j: nat | j < |keys| ensures Ordered(keys + [key], j) {
        assert Ordered(keys, j);
      }
      keys := keys + [key];
      vals := vals + [val];
      var i: nat := |keys| - 1;
      while i > 0 && keys[Parent(i)] > keys[i]
        invariant i < |keys| == |vals| && SiftingUp(keys, i)
        invariant multiset(Zip(keys, vals)) == old(Contents()) + multiset{Rec(key, val)}
      {
        UpStep(keys, i);
        SwappedZip(keys, vals, i, Parent(i));
        keys, vals, i := Swapped(keys, i, Parent(i)), Swapped(vals, i, Parent(i)), Parent(i);
      }
      UpDone(keys, i);
    }

    // The smallest key's entry leaves.
    method PopMin() returns (key: Key, val: V)
      requires Valid() && |keys| > 0
      modifies this
      ensures Valid() && old(Contents()) == Contents() + multiset{Rec(key, val)}
      ensures forall r :: r in old(Contents()) ==> key <= r.key
    {
      MinIsLeast();
      key, val := keys[0], vals[0];
      var n: nat := |keys| - 1;
      SwappedZip(keys, vals, 0, n);
      var k', v' := Swapped(keys, 0, n), Swapped(vals, 0, n);
      keys, vals := k'[..n], v'[..n];
      assert Zip(k', v') == Zip(keys, vals) + [Rec(key, val)];
      forall j: nat | 0 < j && Parent(j) != 0 ensures Ordered(keys, j) {
        assert old(Ordered(keys, j));
      }
      Down();
    }

    method Down()
      requires |keys| == |vals| && SiftingDown(keys, 0)
      modifies this
      ensures Valid() && Contents() == old(Contents())
    {
      var i: nat := 0;
      while 2 * i + 1 < |keys|
        invariant |keys| == |vals| && SiftingDown(keys, i)
        invariant multiset(Zip(keys, vals)) == old(Contents())
        decreases |keys| - i
      {
        var child := SmallerChild(keys, i);
        if keys[i] <= keys[child] {
          break;
        }
        DownStep(keys, i, child);
        SwappedZip(keys, vals, i, child);
        keys, vals, i := Swapped(keys, i, child), Swapped(vals, i, child), child;
      }
      DownDone(keys, i);
    }

    lemma MinIsLeast()
      requires Valid()
      ensures forall r :: r in Contents() ==> |keys| > 0 && keys[0] <= r.key
    {
      forall r | r in Contents() ensures |keys| > 0 && keys[0] <= r.key {
        var i :| 0 <= i < |keys| && Zip(keys, vals)[i] == r;
        RootIsLeast(keys, i);
      }
    }
  }
}
