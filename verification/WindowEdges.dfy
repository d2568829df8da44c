// base/agg_window.go: what the edges of a RANGE or GROUPS frame are, by outward scanning.
module WindowEdges {
  datatype Kind = Rows | Range | Groups

  // The ORDER BY value of a partition row: its bytes, and its number if ParseFloat64 finds one. Equal
  // bytes parse equally, so comparing cells compares bytes.
  datatype Cell = Number(text: string, value: real) | Other(text: string)

  // FindGroupEdge's test of a neighbour: a peer, or within the numeric range that starts at cur.
  predicate InEdge(kind: Kind, cur: Cell, dir: int, offset: real, c: Cell)
  {
    if kind == Groups || (kind == Range && cur.Other?) then c == cur
    else
      var edge := if kind == Range then cur.value + offset else 0.0;
      c.Number? && if dir < 0 then c.value >= edge else c.value <= edge
  }

  // The outward scan from i.
  function Scan(kind: Kind, col: seq<Cell>, cur: Cell, i: int, dir: int, offset: real): (e: int)
    requires 0 <= i < |col| && (dir == -1 || dir == 1)
    ensures 0 <= e < |col| && if dir < 0 then e <= i else i <= e
    decreases if dir < 0 then i else |col| - i
  {
    var next := i + dir;
    if next < 0 || next >= |col| || !InEdge(kind, cur, dir, offset, col[next]) then i
    else Scan(kind, col, cur, next, dir, offset)
  }

  function Edge(kind: Kind, col: seq<Cell>, i: int, dir: int, offset: real): (e: int)
    requires 0 <= i < |col| && (dir == -1 || dir == 1)
    ensures 0 <= e < |col| && if dir < 0 then e <= i else i <= e
  {
    Scan(kind, col, col[i], i, dir, offset)
  }

  // Every row from i to e passes and the next one does not.
  ghost predicate UpTo(kind: Kind, col: seq<Cell>, cur: Cell, i: int, e: int, offset: real)
  {
    && 0 <= i <= e < |col|
    && (forall j :: i < j <= e ==> InEdge(kind, cur, 1, offset, col[j]))
    && (e + 1 < |col| ==> !InEdge(kind, cur, 1, offset, col[e + 1]))
  }

  ghost predicate DownTo(kind: Kind, col: seq<Cell>, cur: Cell, i: int, e: int, offset: real)
  {
    && 0 <= e <= i < |col|
    && (forall j :: e <= j < i ==> InEdge(kind, cur, -1, offset, col[j]))
    && (0 < e ==> !InEdge(kind, cur, -1, offset, col[e - 1]))
  }

  lemma {:induction false} ScanUp(kind: Kind, col: seq<Cell>, cur: Cell, i: int, e: int, offset: real)
    requires 0 <= i < |col|
    ensures UpTo(kind, col, cur, i, e, offset) <==> e == Scan(kind, col, cur, i, 1, offset)
    decreases |col| - i
  {
    if i + 1 < |col| && InEdge(kind, cur, 1, offset, col[i + 1]) {
      ScanUp(kind, col, cur, i + 1, e, offset);
    }
  }

  lemma {:induction false} ScanDown(kind: Kind, col: seq<Cell>, cur: Cell, i: int, e: int, offset: real)
    requires 0 <= i < |col|
    ensures DownTo(kind, col, cur, i, e, offset) <==> e == Scan(kind, col, cur, i, -1, offset)
    decreases i
  {
    if 0 < i && InEdge(kind, cur, -1, offset, col[i - 1]) {
      ScanDown(kind, col, cur, i - 1, e, offset);
    }
  }

  // ---------------------------------------------------------------- a sorted partition

  // Ascending under the collation: the numbers stand together in order, and so does each other value.
  ghost predicate SortedColumn(col: seq<Cell>)
  {
    forall i, j, k {:trigger InOrder(col, i, j, k)} :: 0 <= i <= j <= k < |col| ==> InOrder(col, i, j, k)
  }

  ghost predicate InOrder(col: seq<Cell>, i: int, j: int, k: int)
    requires 0 <= i <= j <= k < |col|
  {
    && (col[i].Number? && col[k].Number? ==> col[j].Number?)
    && (col[i].Number? && col[j].Number? ==> col[i].value <= col[j].value)
    && (col[i].Other? && col[i] == col[k] ==> col[j] == col[i])
  }

  // Rows inside the previous row's upper edge are inside this row's.
  lemma {:induction false} UpperEdgeGrows(col: seq<Cell>, p: int, offset: real)
    requires SortedColumn(col) && 0 < p < |col|
    ensures forall j :: p < j <= Edge(Range, col, p - 1, 1, offset) ==> InEdge(Range, col[p], 1, offset, col[j])
  {
    ScanUp(Range, col, col[p - 1], p - 1, Edge(Range, col, p - 1, 1, offset), offset);
    assert InOrder(col, p - 1, p, p);
  }

  // The row before the previous row's lower edge is outside this row's.
  lemma {:induction false} LowerEdgeGrows(col: seq<Cell>, p: int, offset: real)
    requires SortedColumn(col) && 0 < p < |col|
    ensures var b := Edge(Range, col, p - 1, -1, offset);
            0 < b ==> !InEdge(Range, col[p], -1, offset, col[b - 1])
  {
    var b := Edge(Range, col, p - 1, -1, offset);
    ScanDown(Range, col, col[p - 1], p - 1, b, offset);
    assert InOrder(col, p - 1, p, p);
    assert 0 < b ==> InOrder(col, b - 1, p - 1, p);
  }

  // Below a row, what is inside its lower edge reaches up to it.
  lemma {:induction false} LowerEdgeIsUpwardClosed(col: seq<Cell>, p: int, offset: real, i: int)
    requires SortedColumn(col) && 0 <= i < p < |col| && InEdge(Range, col[p], -1, offset, col[i])
    ensures forall j :: i <= j < p ==> InEdge(Range, col[p], -1, offset, col[j])
  {
    forall j | i <= j < p ensures InEdge(Range, col[p], -1, offset, col[j]) {
      assert InOrder(col, i, j, p);
    }
  }

  // ---------------------------------------------------------------- peer groups

  ghost predicate SamePeers(col: seq<Cell>, b: int, e: int)
  {
    && 0 <= b <= e < |col|
    && (forall j :: b <= j <= e ==> col[j] == col[b])
    && (0 < b ==> col[b - 1] != col[b])
    && (e + 1 < |col| ==> col[e + 1] != col[b])
  }

  // A peer group is the edge pair of each of its rows.
  lemma {:induction false} PeersAreEdges(col: seq<Cell>, b: int, e: int, p: int, begOffset: real, endOffset: real)
    requires 0 <= p < |col|
    ensures SamePeers(col, b, e) && b <= p <= e <==>
            b == Edge(Groups, col, p, -1, begOffset) && e == Edge(Groups, col, p, 1, endOffset)
  {
    ScanUp(Groups, col, col[p], p, e, endOffset);
    ScanDown(Groups, col, col[p], p, b, begOffset);
  }
}
