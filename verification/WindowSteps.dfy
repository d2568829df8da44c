// base/agg_window.go: stepping through a frame's rows, past the excluded spans.
module WindowSteps {
  import opened WindowEdges
  import opened WindowFrames

  ghost predicate InFrame(frame: Span, excludes: seq<Span>, i: int)
  {
    InSpan(frame, i) && !Excluded(excludes, i)
  }

  // WindowFrameCurr.Next: the least row of the frame after i.
  method Next(frame: Span, excludes: seq<Span>, i: int) returns (next: int, ok: bool)
    requires SpansOrdered(excludes)
    ensures ok ==> InFrame(frame, excludes, next) && i < next
    ensures forall j :: i < j && InFrame(frame, excludes, j) ==> ok && next <= j
  {
    next := if i < frame.beg then frame.beg else i + 1;
    ghost var from := next;
    for k := 0 to |excludes|
      invariant from <= next
      invariant forall l :: 0 <= l < k ==> !InSpan(excludes[l], next)
      invariant forall j :: from <= j < next ==> Excluded(excludes, j)
    {
      if excludes[k].beg <= next < excludes[k].end {
        forall j | next <= j < excludes[k].end ensures Excluded(excludes, j) {
          assert InSpan(excludes[k], j);
        }
        next := excludes[k].end;
      }
    }
    ok := next < frame.end;
  }

  // WindowFrameCurr.Prev: the greatest row of the frame before i.
  method Prev(frame: Span, excludes: seq<Span>, i: int) returns (prev: int, ok: bool)
    requires SpansOrdered(excludes)
    ensures ok ==> InFrame(frame, excludes, prev) && prev < i
    ensures forall j :: j < i && InFrame(frame, excludes, j) ==> ok && j <= prev
  {
    prev := if i >= frame.end then frame.end - 1 else i - 1;
    ghost var from := prev;
    for k := |excludes| downto 0
      invariant prev <= from
      invariant forall l :: k <= l < |excludes| ==> !InSpan(excludes[l], prev)
      invariant forall j :: prev < j <= from ==> Excluded(excludes, j)
    {
      if excludes[k].beg <= prev < excludes[k].end {
        forall j | excludes[k].beg <= j <= prev ensures Excluded(excludes, j) {
          assert InSpan(excludes[k], j);
        }
        prev := excludes[k].beg - 1;
      }
    }
    ok := prev >= frame.beg;
  }

  // ---------------------------------------------------------------- the frame's rows in order

  // The frame's rows before hi, ascending.
  ghost function Rows(frame: Span, excludes: seq<Span>, hi: int): seq<int>
    decreases if hi <= frame.beg then 0 else hi - frame.beg
  {
    if hi <= frame.beg then []
    else Rows(frame, excludes, hi - 1) + (if InFrame(frame, excludes, hi - 1) then [hi - 1] else [])
  }

  ghost function FrameRows(frame: Span, excludes: seq<Span>): seq<int>
  {
    Rows(frame, excludes, frame.end)
  }

  // They ascend, and are exactly the frame's rows that are not excluded.
  lemma {:induction false} FrameRowsAre(frame: Span, excludes: seq<Span>, hi: int)
    requires hi <= frame.end
    ensures var rows := Rows(frame, excludes, hi);
            && (forall k, l :: 0 <= k < l < |rows| ==> rows[k] < rows[l])
            && forall i :: i in rows <==> frame.beg <= i < hi && !Excluded(excludes, i)
    decreases if hi <= frame.beg then 0 else hi - frame.beg
  {
    if frame.beg < hi {
      FrameRowsAre(frame, excludes, hi - 1);
      var rest := Rows(frame, excludes, hi - 1);
      forall k | 0 <= k < |rest| ensures rest[k] < hi - 1 {
        assert rest[k] in rest;
      }
    }
  }

  lemma {:induction false} RowsStep(frame: Span, excludes: seq<Span>, hi: int, j: int)
    requires hi <= j && forall r :: hi <= r < j ==> !InFrame(frame, excludes, r)
    ensures Rows(frame, excludes, j) == Rows(frame, excludes, hi)
    decreases j - hi
  {
    if hi < j {
      RowsStep(frame, excludes, hi, j - 1);
      assert !InFrame(frame, excludes, j - 1);
    }
  }

  lemma {:induction false} RowsPrefix(frame: Span, excludes: seq<Span>, lo: int, hi: int)
    requires lo <= hi
    ensures var a, b := Rows(frame, excludes, lo), Rows(frame, excludes, hi); |a| <= |b| && a == b[..|a|]
    decreases hi - lo
  {
    if lo < hi {
      RowsPrefix(frame, excludes, lo, hi - 1);
    }
  }

  // How many of the frame's rows are before i.
  ghost function Rank(frame: Span, excludes: seq<Span>, i: int): nat
  {
    |Rows(frame, excludes, i)|
  }

  // Nothing is left out and nothing is in twice.
  lemma {:induction false} RankOfRow(frame: Span, excludes: seq<Span>, r: int)
    requires InFrame(frame, excludes, r)
    ensures Rank(frame, excludes, r + 1) == Rank(frame, excludes, r) + 1 <= |FrameRows(frame, excludes)|
    ensures FrameRows(frame, excludes)[Rank(frame, excludes, r)] == r
  {
    RowsPrefix(frame, excludes, r + 1, frame.end);
    assert Rows(frame, excludes, r + 1)[Rank(frame, excludes, r)] == r;
  }

  lemma {:induction false} RowsBeyond(frame: Span, excludes: seq<Span>, hi: int)
    requires frame.end <= hi
    ensures Rows(frame, excludes, hi) == FrameRows(frame, excludes)
  {
    RowsStep(frame, excludes, frame.end, hi);
  }

  lemma {:induction false} NextByRank(frame: Span, excludes: seq<Span>, i: int, next: int, ok: bool)
    requires ok ==> InFrame(frame, excludes, next) && i < next
    requires forall j :: i < j && InFrame(frame, excludes, j) ==> ok && next <= j
    ensures var k, rows := Rank(frame, excludes, i + 1), FrameRows(frame, excludes);
            && (ok <==> k < |rows|)
            && (ok ==> rows[k] == next && Rank(frame, excludes, next + 1) == k + 1)
  {
    if ok {
      RowsStep(frame, excludes, i + 1, next);
      RankOfRow(frame, excludes, next);
    } else if i + 1 <= frame.end {
      RowsStep(frame, excludes, i + 1, frame.end);
    } else {
      RowsBeyond(frame, excludes, i + 1);
    }
  }

  lemma {:induction false} PrevByRank(frame: Span, excludes: seq<Span>, i: int, prev: int, ok: bool)
    requires ok ==> InFrame(frame, excludes, prev) && prev < i
    requires forall j :: j < i && InFrame(frame, excludes, j) ==> ok && j <= prev
    ensures var k, rows := Rank(frame, excludes, i), FrameRows(frame, excludes);
            && (ok <==> k > 0)
            && (ok ==> k <= |rows| && rows[k - 1] == prev && Rank(frame, excludes, prev) == k - 1)
  {
    if ok {
      RowsStep(frame, excludes, prev + 1, i);
      RankOfRow(frame, excludes, prev);
    } else if frame.beg <= i {
      RowsStep(frame, excludes, frame.beg, i);
    }
  }

  // The frame's rows from lo up to hi.
  ghost function Between(frame: Span, excludes: seq<Span>, lo: int, hi: int): set<int>
  {
    set j | lo <= j < hi && frame.beg <= j < frame.end && InFrame(frame, excludes, j)
  }

  lemma {:induction false} BetweenIsRanks(frame: Span, excludes: seq<Span>, lo: int, hi: int)
    requires lo <= hi
    ensures |Between(frame, excludes, lo, hi)| == Rank(frame, excludes, hi) - Rank(frame, excludes, lo)
    decreases hi - lo
  {
    if lo < hi {
      BetweenIsRanks(frame, excludes, lo, hi - 1);
      RowsPrefix(frame, excludes, hi - 1, hi);
      var before, all := Between(frame, excludes, lo, hi - 1), Between(frame, excludes, lo, hi);
      if InFrame(frame, excludes, hi - 1) {
        RankOfRow(frame, excludes, hi - 1);
        assert all == before + {hi - 1};
      } else {
        RowsStep(frame, excludes, hi - 1, hi);
        assert all == before;
      }
    } else {
      assert Between(frame, excludes, lo, hi) == {};
    }
  }

  lemma {:induction false} RankGrows(frame: Span, excludes: seq<Span>, lo: int, hi: int)
    ensures Rank(frame, excludes, lo) < Rank(frame, excludes, hi) ==> lo < hi
  {
    if hi <= lo {
      RowsPrefix(frame, excludes, hi, lo);
    }
  }

  // What a step of num rows finds, counting the rows themselves: forwards, the frame's row with exactly num
  // of them after start and up to it; backwards likewise; nothing when there are fewer.
  lemma {:induction false} OffsetIs(frame: Span, excludes: seq<Span>, start: int, asc: bool, num: nat, pos: int, ok: bool)
    requires num > 0
    requires var rows, t := FrameRows(frame, excludes), Target(frame, excludes, start, asc, num);
             if ok then 0 <= t < |rows| && pos == rows[t] else if asc then t >= |rows| else t < 0
    ensures ok && asc ==> start < pos && InFrame(frame, excludes, pos) && |Between(frame, excludes, start + 1, pos + 1)| == num
    ensures ok && !asc ==> pos < start && InFrame(frame, excludes, pos) && |Between(frame, excludes, pos, start)| == num
    ensures !ok && asc ==> |Between(frame, excludes, start + 1, if start < frame.end then frame.end else start + 1)| < num
    ensures !ok && !asc ==> |Between(frame, excludes, if frame.beg <= start then frame.beg else start, start)| < num
  {
    var rows, t := FrameRows(frame, excludes), Target(frame, excludes, start, asc, num);
    if ok {
      FrameRowsAre(frame, excludes, frame.end);
      assert rows[t] in rows;
      RankOfRow(frame, excludes, pos);
      assert t == Rank(frame, excludes, pos);
      if asc {
        RankGrows(frame, excludes, start + 1, pos + 1);
        BetweenIsRanks(frame, excludes, start + 1, pos + 1);
      } else {
        RankGrows(frame, excludes, pos, start);
        BetweenIsRanks(frame, excludes, pos, start);
      }
    } else if asc {
      RowsBeyond(frame, excludes, if start < frame.end then frame.end else start + 1);
      BetweenIsRanks(frame, excludes, start + 1, if start < frame.end then frame.end else start + 1);
    } else {
      BetweenIsRanks(frame, excludes, if frame.beg <= start then frame.beg else start, start);
    }
  }

  // Where StepToOffset lands: num rows on from initial's start among the frame's rows.
  ghost function Target(frame: Span, excludes: seq<Span>, start: int, asc: bool, num: nat): int
  {
    if asc then Rank(frame, excludes, start + 1) + num - 1 else Rank(frame, excludes, start) - num
  }

  // WindowFrame.StepToOffset, for FIRST_VALUE, LAST_VALUE, NTH_VALUE, LAG and LEAD: the row that is num
  // rows of the frame away, if the frame has it.
  method StepToOffset(frame: Span, excludes: seq<Span>, start: int, asc: bool, num: nat) returns (pos: int, ok: bool)
    requires SpansOrdered(excludes) && num > 0
    ensures var rows, t := FrameRows(frame, excludes), Target(frame, excludes, start, asc, num);
            (asc && ok ==> 0 <= t < |rows| && pos == rows[t]) && (asc && !ok ==> t >= |rows|)
    ensures ok ==> InFrame(frame, excludes, pos)
    ensures ok && asc ==> start < pos && |Between(frame, excludes, start + 1, pos + 1)| == num
    ensures ok && !asc ==> pos < start && |Between(frame, excludes, pos, start)| == num
    ensures !ok && asc ==> |Between(frame, excludes, start + 1, if start < frame.end then frame.end else start + 1)| < num
    ensures !ok && !asc ==> |Between(frame, excludes, if frame.beg <= start then frame.beg else start, start)| < num
    ensures var rows, t := FrameRows(frame, excludes), Target(frame, excludes, start, asc, num);
            (!asc && ok ==> 0 <= t < |rows| && pos == rows[t]) && (!asc && !ok ==> t < 0)
  {
    pos, ok := start, true;
    var i: nat := 0;
    while i < num && ok
      invariant i <= num && (i == 0 ==> pos == start && ok)
      invariant ok && asc ==> Rank(frame, excludes, pos + 1) == Rank(frame, excludes, start + 1) + i
      invariant ok && !asc ==> Rank(frame, excludes, pos) == Rank(frame, excludes, start) - i
      invariant ok && i > 0 ==> var t := Target(frame, excludes, start, asc, i); 0 <= t < |FrameRows(frame, excludes)| && pos == FrameRows(frame, excludes)[t]
      invariant !ok && asc ==> Target(frame, excludes, start, asc, i) >= |FrameRows(frame, excludes)|
      invariant !ok && !asc ==> Target(frame, excludes, start, asc, i) < 0
    {
      ghost var was := pos;
      if asc {
        pos, ok := Next(frame, excludes, pos);
        NextByRank(frame, excludes, was, pos, ok);
      } else {
        pos, ok := Prev(frame, excludes, pos);
        PrevByRank(frame, excludes, was, pos, ok);
      }
      i := i + 1;
    }    OffsetIs(frame, excludes, start, asc, num, pos, ok);
  }

  // Starting before the frame FIRST_VALUE and NTH_VALUE count from its first row; starting past its end
  // LAST_VALUE counts from its last one.
  lemma {:induction false} OffsetsFromTheEnds(frame: Span, excludes: seq<Span>, start: int, num: nat)
    requires num > 0
    ensures start < frame.beg ==> Target(frame, excludes, start, true, num) == num - 1
    ensures frame.end <= start ==> Target(frame, excludes, start, false, num) == |FrameRows(frame, excludes)| - num
  {
    if frame.end <= start {
      RowsBeyond(frame, excludes, start);
    }
  }

  // ---------------------------------------------------------------- counting

  predicate RangesOverlap(x: Span, y: Span)
  {
    !(x.end <= y.beg || y.end <= x.beg)
  }

  function Max(a: int, b: int): int
  {
    if a > b then a else b
  }

  function Min(a: int, b: int): int
  {
    if a < b then a else b
  }

  // What one more span takes from the rows before hi.
  lemma {:induction false} OneMoreSpan(frame: Span, excludes: seq<Span>, x: Span, hi: int)
    requires SpansOrdered(excludes + [x]) && frame.beg <= hi <= frame.end
    ensures Rank(frame, excludes + [x], hi) == Rank(frame, excludes, hi) - Max(0, Min(x.end, hi) - Max(x.beg, frame.beg))
    decreases hi - frame.beg
  {
    if frame.beg < hi {
      var r := hi - 1;
      OneMoreSpan(frame, excludes, x, r);
      ExcludedByOneMore(excludes, x, r);
    }
  }

  lemma {:induction false} ExcludedByOneMore(excludes: seq<Span>, x: Span, r: int)
    requires SpansOrdered(excludes + [x])
    ensures Excluded(excludes + [x], r) <==> Excluded(excludes, r) || InSpan(x, r)
    ensures InSpan(x, r) ==> !Excluded(excludes, r)
  {
    var all := excludes + [x];
    if InSpan(x, r) {
      assert InSpan(all[|excludes|], r);
      forall k | 0 <= k < |excludes| ensures !InSpan(excludes[k], r) {
        assert all[k].end <= all[|excludes|].beg;
      }
    }
    if Excluded(excludes, r) {
      var k :| 0 <= k < |excludes| && InSpan(excludes[k], r);
      assert InSpan(all[k], r);
    }
  }

  lemma {:induction false} NoSpans(frame: Span, hi: int)
    requires frame.beg <= hi <= frame.end
    ensures Rank(frame, [], hi) == hi - frame.beg
    decreases hi - frame.beg
  {
    if frame.beg < hi {
      NoSpans(frame, hi - 1);
    }
  }

  // An excluded span reaches over the gap of a frame that ends before it begins.
  ghost predicate Straddled(frame: Span, excludes: seq<Span>)
  {
    exists k :: 0 <= k < |excludes| && excludes[k].beg < frame.end && frame.beg < excludes[k].end
  }

  // What is left of such a frame's negative length: an ordered list has one span over the gap at most.
  lemma {:induction false} StraddledByOneMore(frame: Span, excludes: seq<Span>, x: Span)
    requires frame.end < frame.beg && SpansOrdered(excludes + [x])
    ensures Straddled(frame, excludes + [x]) <==> Straddled(frame, excludes) || (x.beg < frame.end && frame.beg < x.end)
    ensures Straddled(frame, excludes) ==> !(x.beg < frame.end && frame.beg < x.end)
  {
    var all := excludes + [x];
    if x.beg < frame.end && frame.beg < x.end {
      assert all[|excludes|] == x;
      forall k | 0 <= k < |excludes| ensures excludes[k].end <= x.beg {
        assert all[k].end <= all[|excludes|].beg;
      }
    }
    if Straddled(frame, excludes) {
      var k :| 0 <= k < |excludes| && excludes[k].beg < frame.end && frame.beg < excludes[k].end;
      assert all[k] == excludes[k];
    }
  }

  // WindowFrameCurr.Count: right exactly when the frame does not end before it begins, or an excluded span
  // covers the gap; otherwise it is negative.
  method Count(frame: Span, excludes: seq<Span>) returns (s: int)
    requires SpansOrdered(excludes)
    ensures s == |FrameRows(frame, excludes)| <==> frame.beg <= frame.end || Straddled(frame, excludes)
    ensures s < 0 <==> frame.end < frame.beg && !Straddled(frame, excludes)
  {
    s := frame.end - frame.beg;
    if frame.beg <= frame.end {
      NoSpans(frame, frame.end);
    }
    for k := 0 to |excludes|
      invariant frame.beg <= frame.end ==> s == Rank(frame, excludes[..k], frame.end)
      invariant frame.end < frame.beg ==> s == if Straddled(frame, excludes[..k]) then 0 else frame.end - frame.beg
    {
      var e := excludes[k];
      assert excludes[..k + 1] == excludes[..k] + [e];
      if frame.beg <= frame.end {
        OneMoreSpan(frame, excludes[..k], e, frame.end);
      } else {
        StraddledByOneMore(frame, excludes[..k], e);
      }
      if RangesOverlap(e, frame) {
        s := s - (Min(e.end, frame.end) - Max(e.beg, frame.beg));
      }
    }
    assert excludes[..|excludes|] == excludes;
  }
}
