// base/agg_window.go: where a frame begins and ends, and that it only slides forward.
module WindowBounds {
  import opened WindowEdges

  // "unbounded", or a number of rows, groups (n) or units of the ORDER BY value (f).
  datatype Bound = Unbounded | Num(n: int, f: real)

  // The group a row is in, counting from the partition's start.
  function GroupNo(col: seq<Cell>, i: int): (g: int)
    requires 0 <= i < |col|
    ensures g >= 0
  {
    if i == 0 then 0 else GroupNo(col, i - 1) + (if col[i] == col[i - 1] then 0 else 1)
  }

  predicate FirstOfGroup(col: seq<Cell>, i: int)
    requires 0 <= i < |col|
  {
    i == 0 || col[i - 1] != col[i]
  }

  predicate LastOfGroup(col: seq<Cell>, i: int)
    requires 0 <= i < |col|
  {
    i + 1 == |col| || col[i + 1] != col[i]
  }

  // StepGroups' loop: n groups away from the edge curr, and whether all n were there.
  function StepFrom(col: seq<Cell>, curr: int, dir: int, n: nat): (r: (int, bool))
    requires 0 <= curr < |col| && (dir == -1 || dir == 1)
    ensures 0 <= r.0 < |col|
    decreases n
  {
    if n == 0 then (curr, true)
    else if curr + dir < 0 || curr + dir >= |col| then (curr, false)
    else StepFrom(col, Edge(Groups, col, curr + dir, dir, 0.0), dir, n - 1)
  }

  function GroupStep(col: seq<Cell>, pos: int, n: int): (r: (int, bool))
    requires 0 <= pos < |col|
    ensures 0 <= r.0 < |col|
  {
    var dir := if n < 0 then -1 else 1;
    StepFrom(col, Edge(Groups, col, pos, dir, 0.0), dir, if n < 0 then -n else n)
  }

  function BegOf(kind: Kind, col: seq<Cell>, pos: int, bound: Bound): (beg: int)
    requires 0 <= pos < |col|
    ensures beg >= 0
  {
    if bound.Unbounded? then 0
    else
      var raw :=
        match kind
        case Rows => pos + bound.n
        case Groups => var (r, all) := GroupStep(col, pos, bound.n); if !all && bound.n > 0 then |col| else r
        case Range => Edge(Range, col, pos, -1, bound.f);
      if raw < 0 then 0 else raw
  }

  function EndOf(kind: Kind, col: seq<Cell>, pos: int, bound: Bound): (end: int)
    requires 0 <= pos < |col|
    ensures end <= |col|
  {
    if bound.Unbounded? then |col|
    else
      var raw :=
        match kind
        case Rows => pos + bound.n
        case Groups => var (r, all) := GroupStep(col, pos, bound.n); if !all && bound.n < 0 then -1 else r
        case Range => Edge(Range, col, pos, 1, bound.f);
      if raw + 1 > |col| then |col| else raw + 1
  }

  // ---------------------------------------------------------------- groups

  lemma {:induction false} GroupNoGrows(col: seq<Cell>, i: int, j: int)
    requires 0 <= i <= j < |col|
    ensures GroupNo(col, i) <= GroupNo(col, j)
    ensures GroupNo(col, i) == GroupNo(col, j) ==> col[i] == col[j]
    decreases j
  {
    if i < j {
      GroupNoGrows(col, i, j - 1);
    }
  }

  // Two rows are in one group exactly when no row between them differs from the first.
  lemma {:induction false} SameGroupIff(col: seq<Cell>, i: int, j: int)
    requires 0 <= i <= j < |col|
    ensures GroupNo(col, i) == GroupNo(col, j) <==> forall k :: i <= k <= j ==> col[k] == col[i]
    decreases j
  {
    if i < j {
      GroupNoGrows(col, i, j - 1);
      SameGroupIff(col, i, j - 1);
    }
  }

  lemma {:induction false} OneGroup(col: seq<Cell>, b: int, e: int, j: int)
    requires SamePeers(col, b, e) && b <= j <= e
    ensures GroupNo(col, j) == GroupNo(col, b)
    decreases j
  {
    if b < j {
      OneGroup(col, b, e, j - 1);
    }
  }

  // The edge of a peer group is its first or last row.
  lemma {:induction false} EdgeOfGroup(col: seq<Cell>, p: int, dir: int)
    requires 0 <= p < |col| && (dir == -1 || dir == 1)
    ensures var e := Edge(Groups, col, p, dir, 0.0);
            GroupNo(col, e) == GroupNo(col, p) && if dir < 0 then FirstOfGroup(col, e) else LastOfGroup(col, e)
  {
    var b, e := Edge(Groups, col, p, -1, 0.0), Edge(Groups, col, p, 1, 0.0);
    PeersAreEdges(col, b, e, p, 0.0, 0.0);
    OneGroup(col, b, e, p);
    OneGroup(col, b, e, e);
  }

  // Stepping back from a first row: n groups less, or the partition's start.
  lemma {:induction false} StepBack(col: seq<Cell>, curr: int, n: nat)
    requires 0 <= curr < |col| && FirstOfGroup(col, curr)
    ensures var (r, all) := StepFrom(col, curr, -1, n);
            && FirstOfGroup(col, r) && (all <==> GroupNo(col, curr) >= n)
            && (if all then GroupNo(col, r) == GroupNo(col, curr) - n else r == 0)
    decreases n
  {
    if n > 0 && curr > 0 {
      EdgeOfGroup(col, curr - 1, -1);
      StepBack(col, Edge(Groups, col, curr - 1, -1, 0.0), n - 1);
    }
  }

  // Stepping on from a last row: n groups more, or the partition's end.
  lemma {:induction false} StepOn(col: seq<Cell>, curr: int, n: nat)
    requires 0 <= curr < |col| && LastOfGroup(col, curr)
    ensures var (r, all) := StepFrom(col, curr, 1, n);
            && LastOfGroup(col, r) && (all <==> GroupNo(col, curr) + n <= GroupNo(col, |col| - 1))
            && (if all then GroupNo(col, r) == GroupNo(col, curr) + n else r == |col| - 1)
    decreases n
  {
    if n > 0 && curr + 1 < |col| {
      EdgeOfGroup(col, curr + 1, 1);
      StepOn(col, Edge(Groups, col, curr + 1, 1, 0.0), n - 1);
    }
    if curr + 1 < |col| {
      GroupNoGrows(col, curr + 1, |col| - 1);
    }
  }

  // The far row of the group that is n groups away.
  lemma {:induction false} GroupStepIs(col: seq<Cell>, pos: int, n: int)
    requires 0 <= pos < |col|
    ensures var (r, all) := GroupStep(col, pos, n);
            && (all <==> 0 <= GroupNo(col, pos) + n <= GroupNo(col, |col| - 1))
            && (all ==> GroupNo(col, r) == GroupNo(col, pos) + n)
            && (if n < 0 then FirstOfGroup(col, r) else LastOfGroup(col, r))
            && (!all ==> r == if n < 0 then 0 else |col| - 1)
  {
    GroupNoGrows(col, pos, |col| - 1);
    if n < 0 {
      EdgeOfGroup(col, pos, -1);
      StepBack(col, Edge(Groups, col, pos, -1, 0.0), -n);
    } else {
      EdgeOfGroup(col, pos, 1);
      StepOn(col, Edge(Groups, col, pos, 1, 0.0), n);
    }
  }

  // Rows from b on are the groups from g on.
  ghost predicate FromGroup(col: seq<Cell>, b: int, g: int)
  {
    forall j :: 0 <= j < |col| ==> (b <= j <==> g <= GroupNo(col, j))
  }

  // Rows before e are the groups up to g.
  ghost predicate UpToGroup(col: seq<Cell>, e: int, g: int)
  {
    forall j :: 0 <= j < |col| ==> (j < e <==> GroupNo(col, j) <= g)
  }

  lemma {:induction false} FirstRowStartsGroup(col: seq<Cell>, b: int)
    requires 0 <= b < |col|
    ensures FromGroup(col, b, GroupNo(col, b)) <==> FirstOfGroup(col, b)
  {
    forall j | 0 <= j < |col| && FirstOfGroup(col, b) ensures b <= j <==> GroupNo(col, b) <= GroupNo(col, j) {
      if b <= j {
        GroupNoGrows(col, b, j);
      } else {
        GroupNoGrows(col, j, b - 1);
      }
    }
    if FromGroup(col, b, GroupNo(col, b)) && b > 0 {
      assert !(GroupNo(col, b) <= GroupNo(col, b - 1));
    }
  }

  lemma {:induction false} LastRowEndsGroup(col: seq<Cell>, e: int)
    requires 0 <= e < |col|
    ensures UpToGroup(col, e + 1, GroupNo(col, e)) <==> LastOfGroup(col, e)
  {
    forall j | 0 <= j < |col| && LastOfGroup(col, e) ensures j < e + 1 <==> GroupNo(col, j) <= GroupNo(col, e) {
      if j <= e {
        GroupNoGrows(col, j, e);
      } else {
        GroupNoGrows(col, e + 1, j);
      }
    }
    if UpToGroup(col, e + 1, GroupNo(col, e)) && e + 1 < |col| {
      assert !(GroupNo(col, e + 1) <= GroupNo(col, e));
    }
  }

  ghost predicate AtMostOneRow(col: seq<Cell>, g: int)
  {
    forall i, j {:trigger GroupNo(col, i), GroupNo(col, j)} ::
      0 <= i < |col| && 0 <= j < |col| && GroupNo(col, i) == g && GroupNo(col, j) == g ==> i == j
  }

  lemma {:induction false} AloneInGroup(col: seq<Cell>, r: int)
    requires 0 <= r < |col|
    ensures AtMostOneRow(col, GroupNo(col, r)) <==> FirstOfGroup(col, r) && LastOfGroup(col, r)
  {
    FirstRowStartsGroup(col, r);
    LastRowEndsGroup(col, r);
    if AtMostOneRow(col, GroupNo(col, r)) {
      assert r > 0 ==> GroupNo(col, r - 1) != GroupNo(col, r);
      assert r + 1 < |col| ==> GroupNo(col, r + 1) != GroupNo(col, r);
    }
  }

  // A GROUPS frame that begins n groups away begins with that group's first row when n is negative.
  // Otherwise (n FOLLOWING, and CURRENT ROW) it begins with the group's LAST row: it is right exactly when
  // that group has one row, or there is no such group.
  lemma {:induction false} GroupsBegin(col: seq<Cell>, pos: int, bound: Bound)
    requires 0 <= pos < |col| && bound.Num?
    ensures var g := GroupNo(col, pos) + bound.n;
            FromGroup(col, BegOf(Groups, col, pos, bound), g) <==> bound.n < 0 || AtMostOneRow(col, g)
  {
    var beg, g := BegOf(Groups, col, pos, bound), GroupNo(col, pos) + bound.n;
    GroupStepIs(col, pos, bound.n);
    forall j | 0 <= j < |col| ensures GroupNo(col, j) <= GroupNo(col, |col| - 1) {
      GroupNoGrows(col, j, |col| - 1);
    }
    if beg < |col| {
      FirstRowStartsGroup(col, beg);
      AloneInGroup(col, beg);
    }
  }

  // Likewise at the other end: n PRECEDING ends with the group's FIRST row.
  lemma {:induction false} GroupsEnd(col: seq<Cell>, pos: int, bound: Bound)
    requires 0 <= pos < |col| && bound.Num?
    ensures var g := GroupNo(col, pos) + bound.n;
            UpToGroup(col, EndOf(Groups, col, pos, bound), g) <==> bound.n >= 0 || AtMostOneRow(col, g)
  {
    var end, g := EndOf(Groups, col, pos, bound), GroupNo(col, pos) + bound.n;
    GroupStepIs(col, pos, bound.n);
    forall j | 0 <= j < |col| ensures GroupNo(col, j) <= GroupNo(col, |col| - 1) {
      GroupNoGrows(col, j, |col| - 1);
    }
    if end > 0 {
      LastRowEndsGroup(col, end - 1);
      AloneInGroup(col, end - 1);
    }
  }

  // ---------------------------------------------------------------- sliding

  lemma {:induction false} GroupStepSlides(col: seq<Cell>, p: int, n: int)
    requires 0 < p < |col|
    ensures GroupStep(col, p - 1, n).0 <= GroupStep(col, p, n).0
    ensures n < 0 ==> (GroupStep(col, p - 1, n).1 ==> GroupStep(col, p, n).1)
    ensures n >= 0 ==> (GroupStep(col, p, n).1 ==> GroupStep(col, p - 1, n).1)
  {
    var r, r' := GroupStep(col, p - 1, n).0, GroupStep(col, p, n).0;
    GroupNoGrows(col, p - 1, p);
    GroupNoGrows(col, p, |col| - 1);
    GroupStepIs(col, p - 1, n);
    GroupStepIs(col, p, n);
    if r' < r {
      GroupNoGrows(col, r', r);
      if n < 0 {
        GroupNoGrows(col, r', r - 1);
      } else {
        GroupNoGrows(col, r' + 1, r);
      }
    }
  }

  // From one row to the next neither end of the frame moves back.
  lemma {:induction false} FramesSlide(kind: Kind, col: seq<Cell>, p: int, beg: Bound, end: Bound)
    requires 0 < p < |col| && (kind == Range ==> SortedColumn(col))
    ensures BegOf(kind, col, p - 1, beg) <= BegOf(kind, col, p, beg)
    ensures EndOf(kind, col, p - 1, end) <= EndOf(kind, col, p, end)
  {
    match kind
    case Rows =>
    case Groups =>
      if beg.Num? {
        GroupStepSlides(col, p, beg.n);
      }
      if end.Num? {
        GroupStepSlides(col, p, end.n);
      }
    case Range =>
      if beg.Num? {
        RangeBegSlides(col, p, beg.f);
      }
      if end.Num? {
        RangeEndSlides(col, p, end.f);
      }
  }

  lemma {:induction false} RangeBegSlides(col: seq<Cell>, p: int, f: real)
    requires 0 < p < |col| && SortedColumn(col)
    ensures Edge(Range, col, p - 1, -1, f) <= Edge(Range, col, p, -1, f)
  {
    LowerEdgeGrows(col, p, f);
    ScanDown(Range, col, col[p], p, Edge(Range, col, p, -1, f), f);
  }

  lemma {:induction false} RangeEndSlides(col: seq<Cell>, p: int, f: real)
    requires 0 < p < |col| && SortedColumn(col)
    ensures Edge(Range, col, p - 1, 1, f) <= Edge(Range, col, p, 1, f)
  {
    UpperEdgeGrows(col, p, f);
    ScanUp(Range, col, col[p], p, Edge(Range, col, p, 1, f), f);
  }

  ghost predicate InRange(c: Cell, lo: real, hi: real)
  {
    c.Number? && lo <= c.value <= hi
  }

  // A numeric RANGE frame holds exactly the rows whose value is in range when its start does not follow
  // and its end does not precede the current row; otherwise it wrongly keeps the current row.
  lemma {:induction false} RangeFrameIs(col: seq<Cell>, pos: int, beg: Bound, end: Bound)
    requires 0 <= pos < |col| && SortedColumn(col) && col[pos].Number? && beg.Num? && end.Num?
    ensures (forall j :: 0 <= j < |col| ==>
              (BegOf(Range, col, pos, beg) <= j < EndOf(Range, col, pos, end) <==> InRange(col[j], col[pos].value + beg.f, col[pos].value + end.f)))
            <==> beg.f <= 0.0 <= end.f
  {
    var b, e := BegOf(Range, col, pos, beg), EndOf(Range, col, pos, end);
    ScanDown(Range, col, col[pos], pos, b, beg.f);
    ScanUp(Range, col, col[pos], pos, e - 1, end.f);
    if beg.f <= 0.0 <= end.f {
      forall j | 0 <= j < |col| ensures b <= j < e <==> InRange(col[j], col[pos].value + beg.f, col[pos].value + end.f) {
        RangeRow(col, pos, beg.f, end.f, b, e, j);
      }
    } else {
      assert b <= pos < e && !InRange(col[pos], col[pos].value + beg.f, col[pos].value + end.f);
    }
  }

  lemma {:induction false} RangeRow(col: seq<Cell>, pos: int, begF: real, endF: real, b: int, e: int, j: int)
    requires 0 <= pos < |col| && SortedColumn(col) && col[pos].Number? && begF <= 0.0 <= endF && 0 <= j < |col|
    requires DownTo(Range, col, col[pos], pos, b, begF) && UpTo(Range, col, col[pos], pos, e - 1, endF)
    ensures b <= j < e <==> InRange(col[j], col[pos].value + begF, col[pos].value + endF)
  {
    if j < b {
      assert InOrder(col, j, b - 1, pos);
    } else if j >= e {
      assert InOrder(col, pos, e, j) && InOrder(col, e, j, j);
    } else if j <= pos {
      assert InOrder(col, j, pos, pos);
    } else {
      assert InOrder(col, pos, j, j);
    }
  }

  // A ROWS frame holds the rows from beg.n to end.n rows away, an unbounded end all of them.
  lemma {:induction false} RowsFrameIs(col: seq<Cell>, pos: int, beg: Bound, end: Bound, j: int)
    requires 0 <= pos < |col| && 0 <= j < |col|
    ensures BegOf(Rows, col, pos, beg) <= j < EndOf(Rows, col, pos, end) <==>
            (beg.Unbounded? || pos + beg.n <= j) && (end.Unbounded? || j <= pos + end.n)
  {
  }

  // An unbounded end reaches to the partition's, in every mode.
  lemma UnboundedIs(kind: Kind, col: seq<Cell>, pos: int, j: int)
    requires 0 <= pos < |col| && 0 <= j < |col|
    ensures BegOf(kind, col, pos, Unbounded) <= j < EndOf(kind, col, pos, Unbounded)
  {
  }

  // A RANGE frame of a row without a numeric ORDER BY value is its peer group, whatever the offsets.
  lemma {:induction false} RangeOfOthers(col: seq<Cell>, pos: int, beg: Bound, end: Bound, j: int)
    requires 0 <= pos < |col| && 0 <= j < |col| && col[pos].Other? && beg.Num? && end.Num?
    ensures BegOf(Range, col, pos, beg) <= j < EndOf(Range, col, pos, end) <==> GroupNo(col, j) == GroupNo(col, pos)
  {
    var b, e := BegOf(Range, col, pos, beg), EndOf(Range, col, pos, end) - 1;
    ScanDown(Range, col, col[pos], pos, b, beg.f);
    ScanUp(Range, col, col[pos], pos, e, end.f);
    SamePeersAre(col, b, e, pos);
    if j <= pos {
      SameGroupIff(col, j, pos);
    } else {
      SameGroupIff(col, pos, j);
    }
  }

  lemma {:induction false} SamePeersAre(col: seq<Cell>, b: int, e: int, pos: int)
    requires 0 <= b <= pos <= e < |col| && col[pos].Other?
    requires exists f :: DownTo(Range, col, col[pos], pos, b, f)
    requires exists f :: UpTo(Range, col, col[pos], pos, e, f)
    ensures (forall k :: b <= k <= e ==> col[k] == col[pos]) && (b > 0 ==> col[b - 1] != col[pos]) && (e + 1 < |col| ==> col[e + 1] != col[pos])
  {
  }

  // A ROWS frame lies within the partition exactly when it neither starts past the partition's end nor
  // ends before its own start.
  lemma RowsFrameFits(col: seq<Cell>, pos: int, beg: Bound, end: Bound)
    requires 0 <= pos < |col| && beg.Num? && end.Num?
    ensures 0 <= BegOf(Rows, col, pos, beg) <= EndOf(Rows, col, pos, end) <= |col| <==>
            pos + beg.n <= |col| && beg.n <= end.n + 1 && 0 <= pos + end.n + 1
  {
  }
}
