// engine/op_broadcast_context.go: the context windows of a sequence of matches, and the grep -A/-B state
// that follows them in one pass.
module ContextWindows {
  import opened Bytes

  // Where the partition of row i begins: rows are one partition while their keys stay the same.
  function RunStart(parts: seq<Str>, i: nat): (s: nat)
    requires i < |parts|
    ensures s <= i
  {
    if i == 0 || parts[i - 1] != parts[i] then i else RunStart(parts, i - 1)
  }

  // Two rows are in one partition exactly when the keys between them are equal.
  lemma {:induction false} SamePartitionIff(parts: seq<Str>, m: nat, i: nat)
    requires m <= i < |parts|
    ensures RunStart(parts, m) == RunStart(parts, i) <==> forall k :: m <= k <= i ==> parts[k] == parts[i]
    decreases i
  {
    RunHolds(parts, i);
    if RunStart(parts, m) == RunStart(parts, i) {
      assert forall k :: m <= k <= i ==> parts[k] == parts[i];
    } else if m < i && parts[i - 1] == parts[i] {
      SamePartitionIff(parts, m, i - 1);
    }
  }

  lemma {:induction false} RunHolds(parts: seq<Str>, i: nat)
    requires i < |parts|
    ensures forall k :: RunStart(parts, i) <= k <= i ==> parts[k] == parts[i]
    decreases i
  {
    if i > 0 && parts[i - 1] == parts[i] {
      RunHolds(parts, i - 1);
    }
  }

  // The matches and partition keys of the rows, and how far a match reaches back and on.
  datatype Stream = Stream(hits: seq<bool>, parts: seq<Str>, before: nat, after: nat)
  {
    ghost predicate Reaches(m: nat, i: nat)
    {
      && m < |hits| && i < |hits| && |hits| == |parts| && hits[m]
      && RunStart(parts, m) == RunStart(parts, i) && m - before <= i <= m + after
    }

    // Row i is in the window of one of the first n rows.
    ghost predicate InWindow(n: nat, i: nat)
    {
      exists m: nat :: m < n && Reaches(m, i)
    }

    // The first k rows that are, ascending.
    ghost function Windows(n: nat, k: nat): (rows: seq<nat>)
      ensures forall j :: 0 <= j < |rows| ==> rows[j] < k
    {
      if k == 0 then [] else Windows(n, k - 1) + (if InWindow(n, k - 1) then [k - 1] else [])
    }

    // n rows were seen; rows [b, n) are buffered, and owed rows more belong to the last match's window.
    ghost predicate Extracting(n: nat, s: nat, b: nat, owed: nat)
    {
      && n <= |hits| == |parts| && s <= b <= n && n - b <= before
      && (forall i :: s <= i < n ==> RunStart(parts, i) == s)
      && (forall i: nat :: b <= i < n ==> !InWindow(n, i))
      && (forall i: nat :: s <= i < b ==> InWindow(n, i) || i < n - before)
      && (owed > 0 ==> b == n && exists m: nat :: s <= m < n && hits[m] && m + after == n - 1 + owed)
      && (forall m: nat :: s <= m < n && hits[m] ==> m + after < n + owed)
    }
  }

  function Span(b: nat, n: nat): (r: seq<nat>)
    requires b <= n
    ensures |r| == n - b && forall j :: 0 <= j < |r| ==> r[j] == b + j
  {
    seq(n - b, j requires 0 <= j < n - b => b + j)
  }

  lemma {:induction false} WindowsSame(st: Stream, n: nat, k: nat)
    requires forall i: nat :: i < k ==> (st.InWindow(n, i) <==> st.InWindow(n + 1, i))
    ensures st.Windows(n, k) == st.Windows(n + 1, k)
    decreases k
  {
    if k > 0 {
      WindowsSame(st, n, k - 1);
    }
  }

  lemma {:induction false} WindowsNone(st: Stream, n: nat, b: nat, k: nat)
    requires b <= k && forall i: nat :: b <= i < k ==> !st.InWindow(n, i)
    ensures st.Windows(n, k) == st.Windows(n, b)
    decreases k
  {
    if b < k {
      WindowsNone(st, n, b, k - 1);
    }
  }

  lemma {:induction false} WindowsAll(st: Stream, n: nat, b: nat, k: nat)
    requires b <= k && forall i: nat :: b <= i < k ==> st.InWindow(n, i)
    ensures st.Windows(n, k) == st.Windows(n, b) + Span(b, k)
    decreases k
  {
    if b < k {
      WindowsAll(st, n, b, k - 1);
      assert Span(b, k) == Span(b, k - 1) + [k - 1];
    }
  }

  lemma {:induction false} OneMoreRow(st: Stream, n: nat, i: nat)
    ensures st.InWindow(n + 1, i) <==> st.InWindow(n, i) || st.Reaches(n, i)
  {
  }

  // A new partition starts afresh.
  lemma {:induction false} PartitionStarts(st: Stream, n: nat)
    requires n < |st.hits| == |st.parts| && RunStart(st.parts, n) == n
    ensures st.Extracting(n, n, n, 0)
  {
  }

  // A row out of the rows' partition is in no window of theirs.
  lemma {:induction false} NotReachedBefore(st: Stream, n: nat, s: nat, i: nat)
    requires n < |st.hits| == |st.parts| && RunStart(st.parts, n) == s && s <= n
    requires i < s
    ensures !st.Reaches(n, i)
  {
  }

  lemma {:induction false} RunsHold(st: Stream, n: nat, s: nat, b: nat, owed: nat)
    requires st.Extracting(n, s, b, owed) && n < |st.hits| && RunStart(st.parts, n) == s
    ensures forall i :: s <= i < n + 1 ==> RunStart(st.parts, i) == s
  {
  }

  // A match: the buffered rows and the row itself enter the windows.
  lemma {:induction false} RowMatches(st: Stream, n: nat, s: nat, b: nat, owed: nat)
    requires st.Extracting(n, s, b, owed) && n < |st.hits| && RunStart(st.parts, n) == s && st.hits[n]
    ensures st.Extracting(n + 1, s, n + 1, st.after)
    ensures st.Windows(n + 1, n + 1) == st.Windows(n, n) + Span(b, n) + [n]
  {
    RunsHold(st, n, s, b, owed);
    forall i: nat | i < b ensures st.InWindow(n, i) <==> st.InWindow(n + 1, i) {
      OneMoreRow(st, n, i);
      if i < s {
        NotReachedBefore(st, n, s, i);
      }
    }
    var n': nat := n + 1;
    forall i: nat | b <= i < n' ensures st.InWindow(n', i) {
      assert st.Reaches(n, i);
    }
    WindowsNone(st, n, b, n);
    WindowsSame(st, n, b);
    WindowsAll(st, n + 1, b, n + 1);
    assert Span(b, n + 1) == Span(b, n) + [n];
    MatchOwes(st, n, s, b, owed);
  }

  lemma {:induction false} MatchOwes(st: Stream, n: nat, s: nat, b: nat, owed: nat)
    requires st.Extracting(n, s, b, owed) && n < |st.hits| && RunStart(st.parts, n) == s && st.hits[n]
    ensures st.Extracting(n + 1, s, n + 1, st.after)
  {
    RunsHold(st, n, s, b, owed);
    var n': nat := n + 1;
    forall i: nat | s <= i < n' ensures st.InWindow(n', i) || i < n' - st.before {
      if n - st.before <= i {
        assert st.Reaches(n, i);
      }
    }
    assert st.after > 0 ==> s <= n < n + 1 && st.hits[n] && n + st.after == n + 1 - 1 + st.after;
  }

  lemma {:induction false} NoMatchAddsNothing(st: Stream, n: nat, i: nat)
    requires n < |st.hits| && !st.hits[n]
    ensures st.InWindow(n + 1, i) <==> st.InWindow(n, i)
  {
    OneMoreRow(st, n, i);
  }

  lemma {:induction false} NoMatchKeepsWindows(st: Stream, n: nat, k: nat)
    requires n < |st.hits| && !st.hits[n]
    ensures st.Windows(n + 1, k) == st.Windows(n, k)
  {
    forall i: nat | i < k ensures st.InWindow(n, i) <==> st.InWindow(n + 1, i) {
      NoMatchAddsNothing(st, n, i);
    }
    WindowsSame(st, n, k);
  }

  // An owed row is in the last match's window.
  lemma {:induction false} RowIsOwed(st: Stream, n: nat, s: nat, b: nat, owed: nat)
    requires st.Extracting(n, s, b, owed) && n < |st.hits| && RunStart(st.parts, n) == s && !st.hits[n] && owed > 0
    ensures st.Extracting(n + 1, s, n + 1, owed - 1)
    ensures st.Windows(n + 1, n + 1) == st.Windows(n, n) + [n]
  {
    RunsHold(st, n, s, b, owed);
    NoMatchKeepsWindows(st, n, n);
    var m: nat :| s <= m < n && st.hits[m] && m + st.after == n - 1 + owed;
    assert st.Reaches(m, n);
    assert st.InWindow(n + 1, n);
    var n': nat := n + 1;
    forall i: nat | s <= i < n' ensures st.InWindow(n', i) || i < n' - st.before {
      if i < n {
        NoMatchAddsNothing(st, n, i);
      }
    }
  }

  // Neither: the row waits in the buffer, which forgets what no later match can reach.
  lemma {:induction false} RowWaits(st: Stream, n: nat, s: nat, b: nat, b': nat)
    requires st.Extracting(n, s, b, 0) && n < |st.hits| && RunStart(st.parts, n) == s && !st.hits[n]
    requires b' == if n + 1 - b > st.before then b + 1 else b
    ensures st.Extracting(n + 1, s, b', 0)
    ensures st.Windows(n + 1, n + 1) == st.Windows(n, n)
  {
    RunsHold(st, n, s, b, 0);
    NoMatchKeepsWindows(st, n, n);
    var n': nat := n + 1;
    NotYetReached(st, n, s, b);
    forall i: nat | b <= i < n' ensures !st.InWindow(n', i) {
      NoMatchAddsNothing(st, n, i);
    }
    forall i: nat | s <= i < b' ensures st.InWindow(n', i) || i < n' - st.before {
      NoMatchAddsNothing(st, n, i);
    }
    assert st.Extracting(n', s, b', 0);
  }

  lemma {:induction false} NotYetReached(st: Stream, n: nat, s: nat, b: nat)
    requires st.Extracting(n, s, b, 0) && n < |st.hits| && RunStart(st.parts, n) == s
    ensures !st.InWindow(n, n)
  {
  }

  // The windows' rows are listed in order, none twice and none missed.
  lemma {:induction false} WindowsList(st: Stream, n: nat, k: nat)
    ensures forall i, j :: 0 <= i < j < |st.Windows(n, k)| ==> st.Windows(n, k)[i] < st.Windows(n, k)[j]
    ensures forall i: nat :: i in st.Windows(n, k) <==> i < k && st.InWindow(n, i)
    decreases k
  {
    if k > 0 {
      WindowsList(st, n, k - 1);
    }
  }
}
