// base/agg_window.go: WindowFrame, whose forward cursors replace outward scans.
module WindowFrames {
  import opened WindowEdges
  import opened WindowBounds

  datatype Exclude = NoOthers | CurrentRow | Group | Ties

  // [beg, end) of positions.
  datatype Span = Span(beg: int, end: int)

  ghost predicate InSpan(x: Span, i: int)
  {
    x.beg <= i < x.end
  }

  ghost predicate Excluded(excludes: seq<Span>, i: int)
  {
    exists k :: 0 <= k < |excludes| && InSpan(excludes[k], i)
  }

  // Each span before the next.
  ghost predicate SpansOrdered(excludes: seq<Span>)
  {
    && (forall k :: 0 <= k < |excludes| ==> excludes[k].beg <= excludes[k].end)
    && (forall k, l :: 0 <= k < l < |excludes| ==> excludes[k].end <= excludes[l].beg)
  }

  class WindowFrame {
    const kind: Kind
    const beg: Bound
    const end: Bound
    const exclude: Exclude
    // The ORDER BY column of the current partition.
    var col: seq<Cell>
    var pos: int
    var frame: Span
    var excludes: seq<Span>
    // The cached peer group, inclusive, and the cursors at the edges of a RANGE frame.
    var pgBeg: int
    var pgEnd: int
    var pgValid: bool
    var reBeg: int
    var reEnd: int
    var reBegValid: bool
    var reEndValid: bool
    // Neighbours examined since the partition began.
    ghost var pgSteps: int
    ghost var begSteps: int
    ghost var endSteps: int

    constructor (kind: Kind, beg: Bound, end: Bound, exclude: Exclude)
      ensures this.kind == kind && this.beg == beg && this.end == end && this.exclude == exclude && pos == -1
    {
      this.kind, this.beg, this.end, this.exclude := kind, beg, end, exclude;
      col, pos, frame, excludes := [], -1, Span(0, 0), [];
      pgBeg, pgEnd, pgValid, reBeg, reEnd, reBegValid, reEndValid := 0, 0, false, 0, 0, false, false;
    }

    function BegF(): real
    {
      if beg.Num? then beg.f else 0.0
    }

    function EndF(): real
    {
      if end.Num? then end.f else 0.0
    }

    predicate NeedsPeers()
    {
      exclude == Group || exclude == Ties || (kind == Groups && (beg.Num? || end.Num?))
    }

    ghost predicate PeersFor(next: int)
      reads this
    {
      NeedsPeers() ==> PeerCacheOk(col, next, pgValid, pgBeg, pgEnd, pgSteps)
    }

    // The cached group is pos's own.
    ghost predicate PeersCover()
      reads this
    {
      pgValid && pgBeg <= pos <= pgEnd && PeerCacheOk(col, pos, pgValid, pgBeg, pgEnd, pgSteps)
    }

    // The caches in use are right for moving to row next.
    ghost predicate CachesFor(next: int)
      reads this
    {
      PeersFor(next) && CursorsFor(next)
    }

    ghost predicate CursorsFor(next: int)
      reads this
    {
      && (kind == Range && beg.Num? ==> BegCursorOk(col, next, BegF(), reBegValid, reBeg, begSteps))
      && (kind == Range && end.Num? ==> EndCursorOk(col, next, EndF(), reEndValid, reEnd, endSteps))
    }

    // FindGroupEdge
    method FindGroupEdge(i: int, dir: int) returns (e: int, ghost steps: int)
      requires 0 <= i < |col| && (dir == -1 || dir == 1)
      ensures e == Edge(kind, col, i, dir, if dir < 0 then BegF() else EndF())
      ensures steps == (if dir < 0 then i - e else e - i) + 1
    {
      ghost var offset := if dir < 0 then BegF() else EndF();
      var valCurr := col[i];
      var rangeNumeric, edge := false, 0.0;
      if kind == Range && valCurr.Number? {
        rangeNumeric := true;
        edge := valCurr.value + (if dir < 0 then BegF() else EndF());
      }
      e, steps := i, 1;
      while 0 <= e + dir < |col|
        invariant 0 <= e < |col| && (if dir < 0 then e <= i else i <= e)
        invariant Edge(kind, col, i, dir, offset) == Scan(kind, col, valCurr, e, dir, offset)
        invariant steps == (if dir < 0 then i - e else e - i) + 1
        decreases if dir < 0 then e else |col| - e
      {
        var valNext := col[e + dir];
        if kind == Groups || (kind == Range && !rangeNumeric) {
          if valCurr != valNext {
            return;
          }
        } else if valNext.Other? || (dir < 0 && valNext.value < edge) || (dir > 0 && valNext.value > edge) {
          return;
        }
        e, steps := e + dir, steps + 1;
      }
    }

    // currentPeerGroup of a GROUPS frame, cached until pos leaves the group.
    method CurrentPeerGroup() returns (b: int, e: int)
      requires kind == Groups && 0 <= pos < |col| && PeerCacheOk(col, pos, pgValid, pgBeg, pgEnd, pgSteps)
      modifies this`pgBeg, this`pgEnd, this`pgValid, this`pgSteps
      ensures b == Edge(Groups, col, pos, -1, BegF()) && e == Edge(Groups, col, pos, 1, EndF())
      ensures PeersCover() && pgBeg == b && pgEnd == e
    {
      if pgValid && pgBeg <= pos <= pgEnd {
        PeersAreEdges(col, pgBeg, pgEnd, pos, BegF(), EndF());
        return pgBeg, pgEnd;
      }
      ghost var s, t;
      b, s := FindGroupEdge(pos, -1);
      e, t := FindGroupEdge(pos, 1);
      PeersAreEdges(col, b, e, pos, BegF(), EndF());
      pgBeg, pgEnd, pgValid := b, e, true;
      pgSteps := pgSteps + s + t;
    }

    // StepGroups: the far edge of the group n steps away.
    method StepGroups(n: int) returns (curr: int, steppedAll: bool)
      requires kind == Groups && 0 <= pos < |col| && PeerCacheOk(col, pos, pgValid, pgBeg, pgEnd, pgSteps)
      modifies this`pgBeg, this`pgEnd, this`pgValid, this`pgSteps
      ensures (curr, steppedAll) == GroupStep(col, pos, n)
      ensures PeersCover()
    {
      var left: nat := if n < 0 then -n else n;
      var dir := if n < 0 then -1 else 1;
      var b, e := CurrentPeerGroup();
      curr := if dir < 0 then b else e;
      OffsetsDoNotMatter(col, pos, dir, if dir < 0 then BegF() else EndF());
      while left > 0
        invariant 0 <= curr < |col| && StepFrom(col, curr, dir, left) == GroupStep(col, pos, n)
        invariant PeersCover()
      {
        var next := curr + dir;
        if next < 0 || next >= |col| {
          break;
        }
        OffsetsDoNotMatter(col, next, dir, if dir < 0 then BegF() else EndF());
        ghost var steps;
        curr, steps := FindGroupEdge(next, dir);
        left := left - 1;
      }
      steppedAll := left == 0;
    }

    // CurrentUpdate: step to row currentPos, the next one or the first of a new partition.
    method CurrentUpdate(currentPos: nat)
      requires currentPos < |col| && (currentPos == 0 || CachesFor(currentPos))
      requires (kind == Range ==> SortedColumn(col)) && (exclude == Group || exclude == Ties ==> kind == Groups)
      modifies this
      ensures pos == currentPos && col == old(col)
      ensures frame == FrameAt(kind, col, pos, beg, end)
      ensures excludes == ExcludesOf(exclude, col, pos) && Excludes(exclude, col, pos, excludes)
      ensures CachesFor(pos + 1)
    {
      MoveTo(currentPos);
      frame := FrameHere();
      excludes := ExcludeSpans();
      ExclusionsAre(exclude, col, pos);
    }

    // Both ends of the frame at pos.
    method FrameHere() returns (span: Span)
      requires 0 <= pos < |col| && CachesFor(pos) && (kind == Range ==> SortedColumn(col))
      modifies this`pgBeg, this`pgEnd, this`pgValid, this`pgSteps
      modifies this`reBeg, this`reBegValid, this`begSteps, this`reEnd, this`reEndValid, this`endSteps
      ensures span == FrameAt(kind, col, pos, beg, end)
      ensures PeersFor(pos) && (kind == Groups && (beg.Num? || end.Num?) ==> PeersCover())
      ensures CursorsFor(pos + 1)
    {
      var b := FrameBeg();
      var e := FrameEnd();
      span := Span(b, e);
    }

    // Over a whole partition every frame is right.
    method WalkPartition(partition: seq<Cell>) returns (frames: seq<Span>, exclusions: seq<seq<Span>>)
      requires (kind == Range ==> SortedColumn(partition)) && (exclude == Group || exclude == Ties ==> kind == Groups)
      modifies this
      ensures col == partition && (|partition| > 0 ==> CachesFor(|partition|))
      ensures frames == AllFrames(kind, partition, beg, end)
      ensures |exclusions| == |partition| && forall p :: 0 <= p < |partition| ==> Excludes(exclude, partition, p, exclusions[p])
    {
      ghost var all := AllFrames(kind, partition, beg, end);
      col, pos, frames, exclusions := partition, -1, [], [];
      for p: nat := 0 to |partition|
        invariant col == partition && pos == p - 1 && (p > 0 ==> CachesFor(pos + 1)) && frames == all[..p]
        invariant |exclusions| == p && forall q :: 0 <= q < p ==> Excludes(exclude, partition, q, exclusions[q])
      {
        CurrentUpdate(p);
        assert frame == all[p];
        frames, exclusions := frames + [frame], exclusions + [excludes];
      }
    }

    // However far the walk is, each kind of edge has examined at most two neighbours per row.
    lemma StepsAreLinear(next: int)
      requires CachesFor(next) && 0 < next <= |col|
      ensures kind == Range && beg.Num? ==> begSteps <= 2 * next
      ensures kind == Range && end.Num? ==> endSteps <= |col| + next
      ensures NeedsPeers() ==> pgSteps <= 2 * |col|
    {
    }

    method ExcludeSpans() returns (spans: seq<Span>)
      requires 0 <= pos < |col| && (exclude == Group || exclude == Ties ==> kind == Groups)
      requires PeersFor(pos) && (kind == Groups && (beg.Num? || end.Num?) ==> PeersCover())
      requires CursorsFor(pos + 1)
      modifies this`pgBeg, this`pgEnd, this`pgValid, this`pgSteps
      ensures spans == ExcludesOf(exclude, col, pos)
      ensures CachesFor(pos + 1)
    {
      spans := [];
      if exclude == CurrentRow {
        spans := [Span(pos, pos + 1)];
      } else if exclude == Group || exclude == Ties {
        var eBeg, eEnd := CurrentPeerGroup();
        OffsetsDoNotMatter(col, pos, -1, BegF());
        OffsetsDoNotMatter(col, pos, 1, EndF());
        spans := if exclude == Group then [Span(eBeg, eEnd + 1)] else [Span(eBeg, pos), Span(pos + 1, eEnd + 1)];
      }
    }

    method MoveTo(currentPos: nat)
      requires currentPos < |col| && (currentPos == 0 || CachesFor(currentPos))
      modifies this`pos, this`pgValid, this`reBegValid, this`reEndValid, this`pgSteps, this`begSteps, this`endSteps
      ensures pos == currentPos && CachesFor(pos)
    {
      pos := currentPos;
      if currentPos == 0 {
        pgValid, reBegValid, reEndValid := false, false, false;
        pgSteps, begSteps, endSteps := 0, 0, 0;
      }
    }

    // Unbounded preceding, or beg away from the current row.
    method FrameBeg() returns (b: int)
      requires 0 <= pos < |col| && CachesFor(pos) && (kind == Range ==> SortedColumn(col))
      modifies this`pgBeg, this`pgEnd, this`pgValid, this`pgSteps, this`reBeg, this`reBegValid, this`begSteps
      ensures b == BegOf(kind, col, pos, beg)
      ensures PeersFor(pos) && (kind == Groups && beg.Num? ==> PeersCover())
      ensures kind == Range && beg.Num? ==> BegCursorOk(col, pos + 1, BegF(), reBegValid, reBeg, begSteps)
    {
      b := 0;
      if beg.Num? {
        if kind == Rows {
          b := pos + beg.n;
        } else if kind == Groups {
          var steppedAll;
          b, steppedAll := StepGroups(beg.n);
          if !steppedAll && beg.n > 0 {
            b := |col|;
          }
        } else {
          b := EdgeBeg();
        }
        if b < 0 {
          b := 0;
        }
      }
    }

    // Unbounded following, or the row after the one that is end away from the current row.
    method FrameEnd() returns (e: int)
      requires 0 <= pos < |col| && PeersFor(pos) && (kind == Range ==> SortedColumn(col))
      requires kind == Range && end.Num? ==> EndCursorOk(col, pos, EndF(), reEndValid, reEnd, endSteps)
      modifies this`pgBeg, this`pgEnd, this`pgValid, this`pgSteps, this`reEnd, this`reEndValid, this`endSteps
      ensures e == EndOf(kind, col, pos, end)
      ensures PeersFor(pos) && ((kind == Groups && end.Num?) || old(PeersCover()) ==> PeersCover())
      ensures kind == Range && end.Num? ==> EndCursorOk(col, pos + 1, EndF(), reEndValid, reEnd, endSteps)
    {
      e := |col|;
      if end.Num? {
        if kind == Rows {
          e := pos + end.n;
        } else if kind == Groups {
          var steppedAll;
          e, steppedAll := StepGroups(end.n);
          if !steppedAll && end.n < 0 {
            e := -1;
          }
        } else {
          e := EdgeEnd();
        }
        e := e + 1;
        if e > |col| {
          e := |col|;
        }
      }
    }

    // The inclusive upper edge of a RANGE frame, resumed from the previous row's.
    method EdgeEnd() returns (i: int)
      requires kind == Range && 0 <= pos < |col| && SortedColumn(col) && EndCursorOk(col, pos, EndF(), reEndValid, reEnd, endSteps)
      modifies this`reEnd, this`reEndValid, this`endSteps
      ensures i == Edge(Range, col, pos, 1, EndF())
      ensures EndCursorOk(col, pos + 1, EndF(), reEndValid, reEnd, endSteps)
    {
      var from := pos;
      if reEndValid && reEnd > from {
        from := reEnd;
      }
      ghost var steps;
      i, steps := ScanOn(from);
      UpperEdgeFound(col, pos, EndF(), reEndValid, reEnd, endSteps, from, i);
      reEnd, reEndValid := i, true;
      endSteps := endSteps + steps;
    }

    // From row from on, the last one before the first that is outside pos's upper edge.
    method ScanOn(from: int) returns (i: int, ghost steps: int)
      requires kind == Range && 0 <= pos <= from < |col|
      ensures from <= i < |col| && steps == i - from + 1
      ensures forall j :: from < j <= i ==> InEdge(Range, col[pos], 1, EndF(), col[j])
      ensures i + 1 < |col| ==> !InEdge(Range, col[pos], 1, EndF(), col[i + 1])
    {
      var valCurr := col[pos];
      var rangeNumeric, edge := false, 0.0;
      if valCurr.Number? {
        rangeNumeric := true;
        edge := valCurr.value + EndF();
      }
      i, steps := from, 1;
      while i + 1 < |col|
        invariant from <= i < |col| && steps == i - from + 1
        invariant forall j :: from < j <= i ==> InEdge(Range, valCurr, 1, EndF(), col[j])
      {
        var valNext := col[i + 1];
        if rangeNumeric {
          if valNext.Other? || valNext.value > edge {
            break;
          }
        } else if valCurr != valNext {
          break;
        }
        i, steps := i + 1, steps + 1;
      }
    }

    // The inclusive lower edge of a RANGE frame: rows that dropped out are skipped for good.
    method EdgeBeg() returns (i: int)
      requires kind == Range && 0 <= pos < |col| && SortedColumn(col) && BegCursorOk(col, pos, BegF(), reBegValid, reBeg, begSteps)
      modifies this`reBeg, this`reBegValid, this`begSteps
      ensures i == Edge(Range, col, pos, -1, BegF())
      ensures BegCursorOk(col, pos + 1, BegF(), reBegValid, reBeg, begSteps)
    {
      var from := 0;
      if reBegValid && reBeg > 0 {
        from := reBeg;
      }
      ghost var steps;
      i, steps := SkipOn(from);
      LowerEdgeFound(col, pos, BegF(), reBegValid, reBeg, begSteps, from, i);
      reBeg, reBegValid := i, true;
      begSteps := begSteps + steps;
    }

    // From row from on, the first that is inside pos's lower edge, or pos.
    method SkipOn(from: int) returns (i: int, ghost steps: int)
      requires kind == Range && 0 <= from <= pos < |col|
      ensures from <= i <= pos && steps == i - from + 1
      ensures i < pos ==> InEdge(Range, col[pos], -1, BegF(), col[i])
      ensures from < i ==> !InEdge(Range, col[pos], -1, BegF(), col[i - 1])
    {
      var valCurr := col[pos];
      var rangeNumeric, edge := false, 0.0;
      if valCurr.Number? {
        rangeNumeric := true;
        edge := valCurr.value + BegF();
      }
      i, steps := from, 1;
      while i < pos
        invariant from <= i <= pos && steps == i - from + 1
        invariant from < i ==> !InEdge(Range, valCurr, -1, BegF(), col[i - 1])
      {
        var valI := col[i];
        var inEdge := false;
        if rangeNumeric {
          if valI.Number? && valI.value >= edge {
            inEdge := true;
          }
        } else {
          inEdge := valCurr == valI;
        }
        if inEdge {
          break;
        }
        i, steps := i + 1, steps + 1;
      }
    }
  }

  // Scanning on from the previous edge finds the edge.
  lemma {:induction false} UpperEdgeFound(col: seq<Cell>, pos: int, f: real, valid: bool, edge: int, steps: int, from: int, i: int)
    requires 0 <= pos <= from <= i < |col| && SortedColumn(col) && EndCursorOk(col, pos, f, valid, edge, steps)
    requires from == if valid && edge > pos then edge else pos
    requires forall j :: from < j <= i ==> InEdge(Range, col[pos], 1, f, col[j])
    requires i + 1 < |col| ==> !InEdge(Range, col[pos], 1, f, col[i + 1])
    ensures i == Edge(Range, col, pos, 1, f) && EndCursorOk(col, pos + 1, f, true, i, steps + i - from + 1)
  {
    if valid {
      UpperEdgeGrows(col, pos, f);
    }
    ScanUp(Range, col, col[pos], pos, i, f);
  }

  lemma {:induction false} LowerEdgeFound(col: seq<Cell>, pos: int, f: real, valid: bool, edge: int, steps: int, from: int, i: int)
    requires 0 <= from <= i <= pos < |col| && SortedColumn(col) && BegCursorOk(col, pos, f, valid, edge, steps)
    requires from == if valid && edge > 0 then edge else 0
    requires i < pos ==> InEdge(Range, col[pos], -1, f, col[i])
    requires from < i ==> !InEdge(Range, col[pos], -1, f, col[i - 1])
    ensures i == Edge(Range, col, pos, -1, f) && BegCursorOk(col, pos + 1, f, true, i, steps + i - from + 1)
  {
    if valid {
      LowerEdgeGrows(col, pos, f);
    }
    if i < pos {
      LowerEdgeIsUpwardClosed(col, pos, f, i);
    }
    ScanDown(Range, col, col[pos], pos, i, f);
  }

  function FrameAt(kind: Kind, col: seq<Cell>, pos: int, beg: Bound, end: Bound): Span
    requires 0 <= pos < |col|
  {
    Span(BegOf(kind, col, pos, beg), EndOf(kind, col, pos, end))
  }

  // The frames of a partition's rows.
  function AllFrames(kind: Kind, col: seq<Cell>, beg: Bound, end: Bound): (frames: seq<Span>)
    ensures |frames| == |col| && forall p :: 0 <= p < |col| ==> frames[p] == FrameAt(kind, col, p, beg, end)
  {
    seq(|col|, p requires 0 <= p < |col| => FrameAt(kind, col, p, beg, end))
  }

  // The positions that the frame leaves out, ascending.
  function ExcludesOf(exclude: Exclude, col: seq<Cell>, pos: int): seq<Span>
    requires 0 <= pos < |col|
  {
    var b, e := Edge(Groups, col, pos, -1, 0.0), Edge(Groups, col, pos, 1, 0.0);
    match exclude
    case NoOthers => []
    case CurrentRow => [Span(pos, pos + 1)]
    case Group => [Span(b, e + 1)]
    case Ties => [Span(b, pos), Span(pos + 1, e + 1)]
  }

  // Ordered spans that leave out, of the partition, the current row, its peer group, its peers but not
  // itself, or nothing.
  ghost predicate Excludes(exclude: Exclude, col: seq<Cell>, pos: int, spans: seq<Span>)
    requires 0 <= pos < |col|
  {
    && SpansOrdered(spans)
    && forall i :: 0 <= i < |col| ==>
         (Excluded(spans, i) <==>
            match exclude
            case NoOthers => false
            case CurrentRow => i == pos
            case Group => GroupNo(col, i) == GroupNo(col, pos)
            case Ties => GroupNo(col, i) == GroupNo(col, pos) && i != pos)
  }

  lemma {:induction false} ExclusionsAre(exclude: Exclude, col: seq<Cell>, pos: int)
    requires 0 <= pos < |col|
    ensures Excludes(exclude, col, pos, ExcludesOf(exclude, col, pos))
  {
    var spans := ExcludesOf(exclude, col, pos);
    var b, e := Edge(Groups, col, pos, -1, 0.0), Edge(Groups, col, pos, 1, 0.0);
    forall i | 0 <= i < |col| ensures b <= i <= e <==> GroupNo(col, i) == GroupNo(col, pos) {
      PeersAreGroup(col, pos, i);
    }
    match exclude
    case NoOthers =>
    case CurrentRow => OneSpan(spans[0]);
    case Group => OneSpan(spans[0]);
    case Ties => TwoSpans(spans[0], spans[1]);
  }

  lemma OneSpan(x: Span)
    requires x.beg <= x.end
    ensures SpansOrdered([x]) && forall i :: Excluded([x], i) <==> x.beg <= i < x.end
  {
    forall i ensures Excluded([x], i) <==> x.beg <= i < x.end {
      assert InSpan([x][0], i) <==> x.beg <= i < x.end;
    }
  }

  lemma TwoSpans(x: Span, y: Span)
    requires x.beg <= x.end <= y.beg <= y.end
    ensures SpansOrdered([x, y]) && forall i :: Excluded([x, y], i) <==> x.beg <= i < x.end || y.beg <= i < y.end
  {
    forall i ensures Excluded([x, y], i) <==> x.beg <= i < x.end || y.beg <= i < y.end {
      assert InSpan([x, y][0], i) <==> x.beg <= i < x.end;
      assert InSpan([x, y][1], i) <==> y.beg <= i < y.end;
    }
  }

  // A row's outward scans reach exactly the rows of its group.
  lemma {:induction false} PeersAreGroup(col: seq<Cell>, pos: int, i: int)
    requires 0 <= pos < |col| && 0 <= i < |col|
    ensures Edge(Groups, col, pos, -1, 0.0) <= i <= Edge(Groups, col, pos, 1, 0.0) <==> GroupNo(col, i) == GroupNo(col, pos)
  {
    var b, e := Edge(Groups, col, pos, -1, 0.0), Edge(Groups, col, pos, 1, 0.0);
    EdgeOfGroup(col, pos, -1);
    EdgeOfGroup(col, pos, 1);
    if i < b {
      GroupNoGrows(col, i, b - 1);
    } else if i <= e {
      GroupNoGrows(col, b, i);
      GroupNoGrows(col, i, e);
    } else {
      GroupNoGrows(col, e + 1, i);
    }
  }

  lemma {:induction false} OffsetsDoNotMatter(col: seq<Cell>, p: int, dir: int, f: real)
    requires 0 <= p < |col| && (dir == -1 || dir == 1)
    ensures Edge(Groups, col, p, dir, f) == Edge(Groups, col, p, dir, 0.0)
  {
    if dir < 0 {
      ScanDown(Groups, col, col[p], p, Edge(Groups, col, p, dir, f), f);
      ScanDown(Groups, col, col[p], p, Edge(Groups, col, p, dir, f), 0.0);
    } else {
      ScanUp(Groups, col, col[p], p, Edge(Groups, col, p, dir, f), f);
      ScanUp(Groups, col, col[p], p, Edge(Groups, col, p, dir, f), 0.0);
    }
  }

  // The cached group is a whole peer group that pos is in or just after, found in linear total time.
  ghost predicate PeerCacheOk(col: seq<Cell>, pos: int, valid: bool, b: int, e: int, steps: int)
  {
    if valid then SamePeers(col, b, e) && b <= pos <= e + 1 && steps <= 2 * (e + 1)
    else steps == 0 && pos == 0
  }

  // The cursor is at the previous row's edge, found in linear total time.
  ghost predicate EndCursorOk(col: seq<Cell>, pos: int, f: real, valid: bool, edge: int, steps: int)
  {
    if valid then 0 < pos <= |col| && edge == Edge(Range, col, pos - 1, 1, f) && steps <= edge + 1 + pos
    else pos == 0 && steps == 0
  }

  ghost predicate BegCursorOk(col: seq<Cell>, pos: int, f: real, valid: bool, edge: int, steps: int)
  {
    if valid then 0 < pos <= |col| && edge == Edge(Range, col, pos - 1, -1, f) && steps <= edge + pos
    else pos == 0 && steps == 0
  }
}
