// engine/op_window.go: OpWindowPartition, which yields a partition's rows once it is complete.
module WindowPartition {
  // A row with the canonical encodings of its PARTITION BY and ORDER BY values; without such expressions
  // both are empty, and an encoding never is.
  datatype In<R> = In(row: R, part: string, order: string)

  // A row as it is yielded: its ranks, and the partition that the downstream operator sees meanwhile.
  datatype Out<R> = Out(row: R, rank: nat, denseRank: nat, partition: seq<R>)

  // The first row of row i's partition: as long as the key stays the same.
  function PartBeg<R>(input: seq<In<R>>, i: nat): (b: nat)
    requires i < |input|
    ensures b <= i
  {
    if i == 0 || input[i - 1].part != input[i].part then i else PartBeg(input, i - 1)
  }

  function PartEnd<R>(input: seq<In<R>>, i: nat): (e: nat)
    requires i < |input|
    ensures i < e <= |input|
    decreases |input| - i
  {
    if i + 1 == |input| || input[i + 1].part != input[i].part then i + 1 else PartEnd(input, i + 1)
  }

  // The first of row i's peers in its partition, and how many peer groups the partition has up to it.
  function PeerBeg<R>(input: seq<In<R>>, i: nat): (b: nat)
    requires i < |input|
    ensures PartBeg(input, i) <= b <= i
  {
    if i == PartBeg(input, i) || input[i - 1].order != input[i].order then i else PeerBeg(input, i - 1)
  }

  function PeerGroups<R>(input: seq<In<R>>, i: nat): (n: nat)
    requires i < |input|
  {
    if i == PartBeg(input, i) then 1 else PeerGroups(input, i - 1) + (if input[i - 1].order != input[i].order then 1 else 0)
  }

  function RowsOf<R>(input: seq<In<R>>, b: nat, e: nat): (r: seq<R>)
    requires b <= e <= |input|
    ensures |r| == e - b && forall k :: 0 <= k < |r| ==> r[k] == input[b + k].row
  {
    seq(e - b, k requires 0 <= k < e - b => input[b + k].row)
  }

  // Without expressions no row is ranked.
  function RankOf<R>(input: seq<In<R>>, i: nat): nat
    requires i < |input|
  {
    if input[i].order == "" then 0 else PeerBeg(input, i) - PartBeg(input, i) + 1
  }

  function DenseRankOf<R>(input: seq<In<R>>, i: nat): nat
    requires i < |input|
  {
    if input[i].order == "" then 0 else PeerGroups(input, i)
  }

  ghost predicate Encoded<R>(input: seq<In<R>>)
  {
    (forall i :: 0 <= i < |input| ==> input[i].order != "") || (forall i :: 0 <= i < |input| ==> input[i].part == input[i].order == "")
  }

  // What row i must come out as: SQL's RANK and DENSE_RANK, and its whole partition.
  function Owed<R>(input: seq<In<R>>, i: nat): Out<R>
    requires i < |input|
  {
    Out(input[i].row, RankOf(input, i), DenseRankOf(input, i), RowsOf(input, PartBeg(input, i), PartEnd(input, i)))
  }

  // ---------------------------------------------------------------- what a partition and its ranks are

  // Rows i to j have one partition key.
  ghost predicate SameKey<R>(input: seq<In<R>>, i: nat, j: nat)
  {
    j < |input| && forall k :: i <= k <= j ==> input[k].part == input[j].part
  }

  lemma {:induction false} PartStarts<R>(input: seq<In<R>>, i: nat)
    requires i < |input|
    ensures var b := PartBeg(input, i); SameKey(input, b, i) && (b > 0 ==> input[b - 1].part != input[i].part)
    decreases i
  {
    if 0 < i && input[i - 1].part == input[i].part {
      PartStarts(input, i - 1);
    }
  }

  lemma {:induction false} PartStops<R>(input: seq<In<R>>, i: nat)
    requires i < |input|
    ensures var e := PartEnd(input, i); SameKey(input, i, e - 1) && (e < |input| ==> input[e].part != input[i].part)
    decreases |input| - i
  {
    if i + 1 < |input| && input[i + 1].part == input[i].part {
      PartStops(input, i + 1);
    }
  }

  // Row i's partition is every row from which to row i the key stays the same.
  lemma {:induction false} PartitionIs<R>(input: seq<In<R>>, i: nat, j: nat)
    requires i < |input| && j < |input|
    ensures PartBeg(input, i) <= j < PartEnd(input, i) <==> if j <= i then SameKey(input, j, i) else SameKey(input, i, j)
  {
    PartStarts(input, i);
    PartStops(input, i);
  }

  // Equal ORDER BY values stand together in row i's partition, as they do once it is sorted.
  ghost predicate PeersTogether<R>(input: seq<In<R>>, i: nat)
    requires i < |input|
  {
    forall a, b, c :: PartBeg(input, i) <= a <= b <= c <= i ==> Together(input, a, b, c)
  }

  ghost predicate Together<R>(input: seq<In<R>>, a: nat, b: nat, c: nat)
    requires a <= b <= c < |input|
  {
    input[a].order == input[c].order ==> input[b].order == input[c].order
  }

  lemma {:induction false} PeersStart<R>(input: seq<In<R>>, i: nat)
    requires i < |input|
    ensures var b := PeerBeg(input, i);
            (forall k :: b <= k <= i ==> input[k].order == input[i].order) && (b > PartBeg(input, i) ==> input[b - 1].order != input[i].order)
    decreases i
  {
    if i != PartBeg(input, i) && input[i - 1].order == input[i].order {
      PeersStart(input, i - 1);
    }
  }

  // Which of the rows [p, j) have another ORDER BY value, and which values the rows [p, i] have.
  ghost function Others<R>(input: seq<In<R>>, p: nat, j: nat, order: string): set<nat>
  {
    set k: nat | p <= k < j && k < |input| && input[k].order != order
  }

  ghost function Orders<R>(input: seq<In<R>>, p: nat, i: nat): set<string>
  {
    set k: nat | p <= k <= i && k < |input| :: input[k].order
  }

  lemma {:induction false} OthersAre<R>(input: seq<In<R>>, p: nat, b: nat, j: nat, order: string)
    requires p <= b && p <= j <= |input| && forall k :: p <= k < j ==> (k < b <==> input[k].order != order)
    ensures |Others(input, p, j, order)| == if j < b then j - p else b - p
    decreases j
  {
    if p < j {
      OthersAre(input, p, b, j - 1, order);
      var before, all := Others(input, p, j - 1, order), Others(input, p, j, order);
      assert all == if j - 1 < b then before + {j - 1} else before;
    } else {
      assert Others(input, p, j, order) == {};
    }
  }

  // RANK is one more than the number of the partition's rows that come before with another ORDER BY value.
  lemma {:induction false} RankIs<R>(input: seq<In<R>>, i: nat)
    requires i < |input| && input[i].order != "" && PeersTogether(input, i)
    ensures RankOf(input, i) == 1 + |Others(input, PartBeg(input, i), i, input[i].order)|
  {
    var p, b := PartBeg(input, i), PeerBeg(input, i);
    PeersStart(input, i);
    forall k: nat | p <= k < i ensures k < b <==> input[k].order != input[i].order {
      if k < b {
        assert Together(input, k, b - 1, i);
      }
    }
    OthersAre(input, p, b, i, input[i].order);
  }

  // DENSE_RANK is the number of different ORDER BY values that the partition has up to the row.
  lemma {:induction false} DenseRankIs<R>(input: seq<In<R>>, i: nat)
    requires i < |input| && input[i].order != "" && PeersTogether(input, i)
    ensures DenseRankOf(input, i) == |Orders(input, PartBeg(input, i), i)|
  {
    PeerGroupsAre(input, i);
  }

  lemma {:induction false} OrdersNext<R>(input: seq<In<R>>, p: nat, i: nat)
    requires p < i < |input|
    ensures Orders(input, p, i) == Orders(input, p, i - 1) + {input[i].order}
  {
  }

  lemma {:induction false} NewOrder<R>(input: seq<In<R>>, i: nat)
    requires i < |input| && PartBeg(input, i) < i && PeersTogether(input, i)
    ensures input[i].order in Orders(input, PartBeg(input, i), i - 1) <==> input[i - 1].order == input[i].order
  {
    var p := PartBeg(input, i);
    assert input[i - 1].order in Orders(input, p, i - 1);
    if k: nat :| p <= k <= i - 1 && input[k].order == input[i].order {
      assert Together(input, k, i - 1, i);
    }
  }

  lemma OneMore(s: set<string>, x: string)
    ensures |s + {x}| == if x in s then |s| else |s| + 1
  {
    if x in s {
      assert s + {x} == s;
    }
  }

  lemma {:induction false} OrdersGrow<R>(input: seq<In<R>>, i: nat)
    requires i < |input| && PartBeg(input, i) < i && PeersTogether(input, i)
    ensures var p := PartBeg(input, i);
            |Orders(input, p, i)| == |Orders(input, p, i - 1)| + (if input[i - 1].order != input[i].order then 1 else 0)
  {
    OrdersNext(input, PartBeg(input, i), i);
    NewOrder(input, i);
    OneMore(Orders(input, PartBeg(input, i), i - 1), input[i].order);
  }

  lemma {:induction false} TogetherBefore<R>(input: seq<In<R>>, i: nat)
    requires i < |input| && PartBeg(input, i) < i && PeersTogether(input, i)
    ensures PartBeg(input, i - 1) == PartBeg(input, i) && PeersTogether(input, i - 1)
  {
  }

  lemma {:induction false} PeerGroupsAre<R>(input: seq<In<R>>, i: nat)
    requires i < |input| && PeersTogether(input, i)
    ensures PeerGroups(input, i) == |Orders(input, PartBeg(input, i), i)|
    decreases i
  {
    var p := PartBeg(input, i);
    if i == p {
      assert Orders(input, p, i) == {input[i].order};
    } else {
      TogetherBefore(input, i);
      PeerGroupsAre(input, i - 1);
      OrdersGrow(input, i);
    }
  }

  // A stored row.
  datatype Entry<R> = Entry(row: R, rank: nat, denseRank: nat)

  function EntryOf<R>(input: seq<In<R>>, i: nat): Entry<R>
    requires i < |input|
  {
    Entry(input[i].row, RankOf(input, i), DenseRankOf(input, i))
  }

  lemma {:induction false} PartHolds<R>(input: seq<In<R>>, b: nat, i: nat, e: nat)
    requires b <= i < e <= |input| && PartBeg(input, b) == b && (forall k :: b <= k < e ==> input[k].part == input[b].part)
    requires e == |input| || input[e].part != input[b].part
    ensures PartBeg(input, i) == b && PartEnd(input, i) == e
  {
    PartBack(input, b, i);
    PartOn(input, i, e);
  }

  lemma {:induction false} PartBack<R>(input: seq<In<R>>, b: nat, i: nat)
    requires b <= i < |input| && PartBeg(input, b) == b && (forall k :: b <= k <= i ==> input[k].part == input[b].part)
    ensures PartBeg(input, i) == b
    decreases i
  {
    if b < i {
      PartBack(input, b, i - 1);
    }
  }

  lemma {:induction false} PartOn<R>(input: seq<In<R>>, i: nat, e: nat)
    requires i < e <= |input| && (forall k :: i <= k < e ==> input[k].part == input[i].part) && (e == |input| || input[e].part != input[i].part)
    ensures PartEnd(input, i) == e
    decreases e - i
  {
    if i + 1 < e {
      PartOn(input, i + 1, e);
    }
  }

  // Rows [b, n) are in the heap, ranked; the rows before b were yielded.
  ghost predicate Partitioning<R>(input: seq<In<R>>, b: nat, n: nat, entries: seq<Entry<R>>, part: string, order: string, rank: nat, denseRank: nat)
  {
    && b <= n <= |input| && |entries| == n - b
    && (n > 0 ==> b < n && PartBeg(input, b) == b && part == input[n - 1].part && order == input[n - 1].order)
    && (forall k :: b <= k < n ==> input[k].part == part && PartBeg(input, k) == b)
    && (forall k :: 0 <= k < n - b ==> entries[k] == EntryOf(input, b + k))
    && (n > b ==> rank == RankOf(input, n - 1) && denseRank == DenseRankOf(input, n - 1))
    && (n == 0 ==> part == "" && order == "" && rank == 0 && denseRank == 0)
  }

  ghost predicate Yielded<R>(input: seq<In<R>>, b: nat, out: seq<Out<R>>)
  {
    b <= |input| && |out| == b && forall i :: 0 <= i < b ==> out[i] == Owed(input, i)
  }

  // Yield every stored row, the whole partition still in place.
  method Drain<R>(ghost input: seq<In<R>>, ghost b: nat, ghost n: nat, entries: seq<Entry<R>>, rows: seq<R>, out: seq<Out<R>>) returns (out': seq<Out<R>>)
    requires b <= n <= |input| && |entries| == n - b && rows == RowsOf(input, b, n) && Yielded(input, b, out)
    requires forall k :: 0 <= k < n - b ==> entries[k] == EntryOf(input, b + k)
    requires forall k :: b <= k < n ==> PartBeg(input, k) == b && PartEnd(input, k) == n
    ensures Yielded(input, n, out')
  {
    out' := out;
    for i := 0 to |entries|
      invariant Yielded(input, b + i, out')
    {
      assert entries[i] == EntryOf(input, b + i);
      out' := out' + [Out(entries[i].row, entries[i].rank, entries[i].denseRank, rows)];
    }
  }

  function Stored<R>(entries: seq<Entry<R>>): (rows: seq<R>)
    ensures |rows| == |entries| && forall k :: 0 <= k < |rows| ==> rows[k] == entries[k].row
  {
    seq(|entries|, k requires 0 <= k < |entries| => entries[k].row)
  }

  // The ranks of a row that continues its partition, from those of the row before it.
  lemma {:induction false} RankMoves<R>(input: seq<In<R>>, b: nat, n: nat)
    requires Encoded(input) && 0 < n < |input| && PartBeg(input, n - 1) == b && input[n - 1].part == input[n].part
    ensures PartBeg(input, n) == b
    ensures RankOf(input, n) == if input[n - 1].order != input[n].order then n - b + 1 else RankOf(input, n - 1)
    ensures DenseRankOf(input, n) == DenseRankOf(input, n - 1) + if input[n - 1].order != input[n].order then 1 else 0
  {
  }

  // The incoming row continues the partition, or begins the next one.
  lemma {:induction false} RowContinues<R>(input: seq<In<R>>, b: nat, n: nat, entries: seq<Entry<R>>, part: string, order: string, rank: nat, denseRank: nat, rank': nat, denseRank': nat)
    requires Encoded(input) && 0 < n < |input| && Partitioning(input, b, n, entries, part, order, rank, denseRank) && part == input[n].part
    requires if order != input[n].order then rank' == |entries| + 1 && denseRank' == denseRank + 1 else rank' == rank && denseRank' == denseRank
    ensures Partitioning(input, b, n + 1, entries + [Entry(input[n].row, rank', denseRank')], input[n].part, input[n].order, rank', denseRank')
  {
    RankMoves(input, b, n);
    assert Entry(input[n].row, rank', denseRank') == EntryOf(input, n);
  }

  lemma {:induction false} RowBegins<R>(input: seq<In<R>>, n: nat)
    requires n < |input| && (n > 0 ==> input[n - 1].part != input[n].part)
    ensures var r := if input[n].order == "" then 0 else 1;
            Partitioning(input, n, n + 1, [Entry(input[n].row, r, r)], input[n].part, input[n].order, r, r)
  {
    var r := if input[n].order == "" then 0 else 1;
    assert Entry(input[n].row, r, r) == EntryOf(input, n);
  }

  lemma {:induction false} RowEnters<R>(input: seq<In<R>>, b: nat, n: nat, entries: seq<Entry<R>>, part: string, order: string, rank: nat, denseRank: nat,
                                        b': nat, kept: seq<Entry<R>>, rank': nat, denseRank': nat)
    requires n < |input| && Encoded(input) && Partitioning(input, b, n, entries, part, order, rank, denseRank)
    requires if part != input[n].part then b' == n && kept == [] && rank' == 1 && denseRank' == 1
             else b' == b && kept == entries && (if order != input[n].order then rank' == |entries| + 1 && denseRank' == denseRank + 1 else rank' == rank && denseRank' == denseRank)
    ensures Partitioning(input, b', n + 1, kept + [Entry(input[n].row, rank', denseRank')], input[n].part, input[n].order, rank', denseRank')
  {
    if part == input[n].part && n > 0 {
      RowContinues(input, b, n, entries, part, order, rank, denseRank, rank', denseRank');
    } else {
      RowBegins(input, n);
      assert kept == [] && [] + [Entry(input[n].row, rank', denseRank')] == [Entry(input[n].row, rank', denseRank')];
    }
  }

  // Every row comes out once, in order, ranked within its partition, when that partition is complete.
  method OpWindowPartition<R>(input: seq<In<R>>) returns (out: seq<Out<R>>)
    requires Encoded(input)
    ensures |out| == |input| && forall i :: 0 <= i < |input| ==> out[i] == Owed(input, i)
  {
    out := [];
    var entries: seq<Entry<R>> := [];
    var part, order, rank: nat, denseRank: nat := "", "", 0, 0;
    ghost var b: nat := 0;
    for n: nat := 0 to |input|
      invariant Partitioning(input, b, n, entries, part, order, rank, denseRank)
      invariant Yielded(input, b, out)
    {
      out, entries, rank, denseRank, b := TakeRow(input, n, out, entries, part, order, rank, denseRank, b);
      part, order := input[n].part, input[n].order;
    }
    DrainsWhole(input, b, |input|, entries, part, order, rank, denseRank);
    out := Drain(input, b, |input|, entries, Stored(entries), out);
  }

  method TakeRow<R>(input: seq<In<R>>, n: nat, out: seq<Out<R>>, entries: seq<Entry<R>>, part: string, order: string, rank: nat, denseRank: nat, ghost b: nat)
    returns (out': seq<Out<R>>, entries': seq<Entry<R>>, rank': nat, denseRank': nat, ghost b': nat)
    requires n < |input| && Encoded(input)
    requires Partitioning(input, b, n, entries, part, order, rank, denseRank) && Yielded(input, b, out)
    ensures Partitioning(input, b', n + 1, entries', input[n].part, input[n].order, rank', denseRank') && Yielded(input, b', out')
  {
    out', entries', rank', denseRank', b' := out, entries, rank, denseRank, b;
    var orderCurr := order;
    if part != input[n].part {
      DrainsWhole(input, b, n, entries, part, order, rank, denseRank);
      out' := Drain(input, b, n, entries, Stored(entries), out);
      entries', orderCurr, rank', denseRank', b' := [], "", 0, 0, n;
    }
    if orderCurr != input[n].order {
      rank', denseRank' := |entries'| + 1, denseRank' + 1;
    }
    RowEnters(input, b, n, entries, part, order, rank, denseRank, b', entries', rank', denseRank');
    entries' := entries' + [Entry(input[n].row, rank', denseRank')];
  }

  lemma {:induction false} DrainsWhole<R>(input: seq<In<R>>, b: nat, n: nat, entries: seq<Entry<R>>, part: string, order: string, rank: nat, denseRank: nat)
    requires Partitioning(input, b, n, entries, part, order, rank, denseRank) && (n == |input| || part != input[n].part)
    ensures Stored(entries) == RowsOf(input, b, n) && forall k :: b <= k < n ==> PartBeg(input, k) == b && PartEnd(input, k) == n
  {
    forall k | b <= k < n ensures PartBeg(input, k) == b && PartEnd(input, k) == n {
      PartHolds(input, b, k, n);
    }
  }
}
