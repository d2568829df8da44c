// engine/op_join_hash.go, base/chain.go: the probe map, and the chains of left rows behind its entries.
module HashProbe {
  import opened Bytes

  datatype Opt<T> = None | Some(value: T)

  // A row beside its probe key: its join value in canonical form, or the whole row's canonical encoding.
  datatype Keyed<R> = Keyed(key: Str, row: R)

  datatype Kind = Inner | LeftOuter | IntersectAll | IntersectDistinct | ExceptAll | ExceptDistinct

  predicate JoinCounted(kind: Kind) { !kind.Inner? }
  predicate LeftCounted(kind: Kind) { kind.IntersectAll? || kind.ExceptAll? }
  predicate LeftKept(kind: Kind) { kind.Inner? || kind.LeftOuter? }
  predicate Intersects(kind: Kind) { kind.IntersectAll? || kind.IntersectDistinct? }

  // ValHasValue of a probe key: NULL's canonical form is the one that begins with an n.
  predicate ValuedKey(key: Str)
  {
    key != [] && key[0] != 0x6E
  }

  // A left row enters the map when its key is valued; a left outer join keeps the others too.
  predicate Enters(kind: Kind, key: Str)
  {
    ValuedKey(key) || kind.LeftOuter?
  }

  // How many of the first n rows have the key, and which, newest first.
  function Count<R>(rows: seq<Keyed<R>>, n: nat, key: Str): nat
    requires n <= |rows|
  {
    if n == 0 then 0 else Count(rows, n - 1, key) + (if rows[n - 1].key == key then 1 else 0)
  }

  function Matching<R>(rows: seq<Keyed<R>>, n: nat, key: Str): seq<R>
    requires n <= |rows|
  {
    if n == 0 then [] else (if rows[n - 1].key == key then [rows[n - 1].row] else []) + Matching(rows, n - 1, key)
  }

  lemma {:induction false} CountGrows<R>(rows: seq<Keyed<R>>, m: nat, n: nat, key: Str)
    requires m <= n <= |rows|
    ensures Count(rows, m, key) <= Count(rows, n, key)
    decreases n
  {
    if m < n {
      CountGrows(rows, m, n - 1, key);
    }
  }

  // ---------------------------------------------------------------- chains

  // An appended chunk: the offset of the chain's previous one, and a row. Offsets start above 0, which ends
  // a chain; the chunk at offset o is the o-th appended.
  datatype Link<L> = Link(prev: nat, row: L)

  ghost predicate Linked<L>(chunks: seq<Link<L>>)
  {
    forall i :: 0 <= i < |chunks| ==> chunks[i].prev <= i
  }

  ghost function Chain<L>(chunks: seq<Link<L>>, offset: nat): seq<L>
    requires Linked(chunks) && offset <= |chunks|
    decreases offset
  {
    if offset == 0 then [] else [chunks[offset - 1].row] + Chain(chunks, chunks[offset - 1].prev)
  }

  // Appending chunks does not disturb a chain.
  lemma {:induction false} ChainStays<L>(chunks: seq<Link<L>>, link: Link<L>, offset: nat)
    requires Linked(chunks) && offset <= |chunks| && link.prev <= |chunks|
    ensures Linked(chunks + [link]) && Chain(chunks + [link], offset) == Chain(chunks, offset)
    decreases offset
  {
    if offset > 0 {
      ChainStays(chunks, link, chunks[offset - 1].prev);
    }
  }

  // YieldChainedVals: chase the offsets to the chain's end.
  method YieldChained<L>(chunks: seq<Link<L>>, ref: nat) returns (rows: seq<L>)
    requires Linked(chunks) && ref <= |chunks|
    ensures rows == Chain(chunks, ref)
  {
    rows := [];
    var offset: nat := ref;
    while offset > 0
      invariant offset <= |chunks| && rows + Chain(chunks, offset) == Chain(chunks, ref)
      decreases offset
    {
      var link := chunks[offset - 1];
      rows := rows + [link.row];
      offset := link.prev;
    }
    assert rows + [] == rows;
  }

  // ---------------------------------------------------------------- the probe map

  datatype Probe = Probe(joinCount: nat, leftCount: nat, ref: nat)

  // A probe value after m left and n right rows.
  ghost predicate ProbeOk<L, R>(kind: Kind, lefts: seq<Keyed<L>>, m: nat, rights: seq<Keyed<R>>, n: nat, chunks: seq<Link<L>>, key: Str, p: Probe)
    requires m <= |lefts| && n <= |rights|
  {
    && (JoinCounted(kind) ==> p.joinCount == if ValuedKey(key) then Count(rights, n, key) else 0)
    && (LeftCounted(kind) ==> p.leftCount == Count(lefts, m, key))
    && (LeftKept(kind) ==> Linked(chunks) && p.ref <= |chunks| && Chain(chunks, p.ref) == Matching(lefts, m, key))
  }

  ghost predicate EntryOk<L, R>(kind: Kind, lefts: seq<Keyed<L>>, m: nat, rights: seq<Keyed<R>>, n: nat, probes: map<Str, Probe>, chunks: seq<Link<L>>, key: Str)
    requires m <= |lefts| && n <= |rights|
  {
    && (key in probes <==> Enters(kind, key) && Count(lefts, m, key) > 0)
    && (key in probes ==> ProbeOk(kind, lefts, m, rights, n, chunks, key, probes[key]))
  }

  ghost predicate MapOk<L, R>(kind: Kind, lefts: seq<Keyed<L>>, m: nat, rights: seq<Keyed<R>>, n: nat, probes: map<Str, Probe>, chunks: seq<Link<L>>)
    requires m <= |lefts| && n <= |rights|
  {
    Linked(chunks) && forall key {:trigger key in probes} {:trigger EntryOk(kind, lefts, m, rights, n, probes, chunks, key)} :: EntryOk(kind, lefts, m, rights, n, probes, chunks, key)
  }

  // What a left row makes of its key's probe value: new, or with one more row and an extended chain.
  function FillProbe(kind: Kind, probes: map<Str, Probe>, key: Str, offset: nat): Probe
  {
    Probe(0, if !LeftCounted(kind) then 0 else if key in probes then probes[key].leftCount + 1 else 1, if LeftKept(kind) then offset else 0)
  }

  function PrevRef(kind: Kind, probes: map<Str, Probe>, key: Str): nat
  {
    if LeftKept(kind) && key in probes then probes[key].ref else 0
  }

  lemma {:induction false} NoneMatch<R>(rows: seq<Keyed<R>>, n: nat, key: Str)
    requires n <= |rows| && Count(rows, n, key) == 0
    ensures Matching(rows, n, key) == []
    decreases n
  {
    if n > 0 {
      NoneMatch(rows, n - 1, key);
    }
  }

  lemma {:induction false} FillKeepsEntry<L, R>(kind: Kind, lefts: seq<Keyed<L>>, m: nat, rights: seq<Keyed<R>>, probes: map<Str, Probe>, chunks: seq<Link<L>>,
                                                probes': map<Str, Probe>, chunks': seq<Link<L>>, key: Str)
    requires m < |lefts| && MapOk(kind, lefts, m, rights, 0, probes, chunks) && Enters(kind, lefts[m].key)
    requires chunks' == if LeftKept(kind) then chunks + [Link(PrevRef(kind, probes, lefts[m].key), lefts[m].row)] else chunks
    requires probes' == probes[lefts[m].key := FillProbe(kind, probes, lefts[m].key, |chunks'|)]
    ensures EntryOk(kind, lefts, m + 1, rights, 0, probes', chunks', key)
  {
    assert EntryOk(kind, lefts, m, rights, 0, probes, chunks, key);
    var k := lefts[m].key;
    assert EntryOk(kind, lefts, m, rights, 0, probes, chunks, k);
    if LeftKept(kind) {
      var link := Link(PrevRef(kind, probes, k), lefts[m].row);
      ChainStays(chunks, link, link.prev);
      if k !in probes {
        NoneMatch(lefts, m, k);
      }
      if key in probes {
        ChainStays(chunks, link, probes[key].ref);
      }
      assert Matching(lefts, m + 1, k) == [lefts[m].row] + Matching(lefts, m, k);
      assert key != k ==> Matching(lefts, m + 1, key) == Matching(lefts, m, key);
    }
  }

  lemma {:induction false} FillKeepsLinked<L, R>(kind: Kind, lefts: seq<Keyed<L>>, m: nat, rights: seq<Keyed<R>>, probes: map<Str, Probe>, chunks: seq<Link<L>>)
    requires m < |lefts| && MapOk(kind, lefts, m, rights, 0, probes, chunks)
    ensures PrevRef(kind, probes, lefts[m].key) <= |chunks|
    ensures Linked(chunks + [Link(PrevRef(kind, probes, lefts[m].key), lefts[m].row)])
  {
    assert EntryOk(kind, lefts, m, rights, 0, probes, chunks, lefts[m].key);
  }

  lemma {:induction false} SkipKeepsEntry<L, R>(kind: Kind, lefts: seq<Keyed<L>>, m: nat, rights: seq<Keyed<R>>, probes: map<Str, Probe>, chunks: seq<Link<L>>, key: Str)
    requires m < |lefts| && MapOk(kind, lefts, m, rights, 0, probes, chunks) && !Enters(kind, lefts[m].key)
    ensures EntryOk(kind, lefts, m + 1, rights, 0, probes, chunks, key)
  {
    assert EntryOk(kind, lefts, m, rights, 0, probes, chunks, key);
  }

  // The left side's callback: fill the map, overwriting an existing value in place.
  method FillRow<L, R>(kind: Kind, left: Keyed<L>, ghost lefts: seq<Keyed<L>>, ghost m: nat, ghost rights: seq<Keyed<R>>, probes: map<Str, Probe>, chunks: seq<Link<L>>)
    returns (probes': map<Str, Probe>, chunks': seq<Link<L>>)
    requires m < |lefts| && left == lefts[m] && MapOk(kind, lefts, m, rights, 0, probes, chunks)
    ensures MapOk(kind, lefts, m + 1, rights, 0, probes', chunks')
  {
    probes', chunks' := probes, chunks;
    ghost var m': nat := m + 1;
    if Enters(kind, left.key) {
      FillKeepsLinked(kind, lefts, m, rights, probes, chunks);
      if LeftKept(kind) {
        chunks' := chunks + [Link(PrevRef(kind, probes, left.key), left.row)];
      }
      probes' := probes[left.key := FillProbe(kind, probes, left.key, |chunks'|)];
      forall key ensures EntryOk(kind, lefts, m', rights, 0, probes', chunks', key) {
        FillKeepsEntry(kind, lefts, m, rights, probes, chunks, probes', chunks', key);
      }
    } else {
      forall key ensures EntryOk(kind, lefts, m', rights, 0, probes, chunks, key) {
        SkipKeepsEntry(kind, lefts, m, rights, probes, chunks, key);
      }
    }
  }

  method Fill<L, R>(kind: Kind, lefts: seq<Keyed<L>>, ghost rights: seq<Keyed<R>>) returns (probes: map<Str, Probe>, chunks: seq<Link<L>>)
    ensures MapOk(kind, lefts, |lefts|, rights, 0, probes, chunks)
  {
    probes, chunks := map[], [];
    for m: nat := 0 to |lefts|
      invariant MapOk(kind, lefts, m, rights, 0, probes, chunks)
    {
      probes, chunks := FillRow(kind, lefts[m], lefts, m, rights, probes, chunks);
    }
  }

  // The right side's callback counts a match in place.
  function Counted(kind: Kind, p: Probe): Probe
  {
    if JoinCounted(kind) then p.(joinCount := p.joinCount + 1) else p
  }

  lemma {:induction false} ProbeKeepsEntry<L, R>(kind: Kind, lefts: seq<Keyed<L>>, rights: seq<Keyed<R>>, n: nat, probes: map<Str, Probe>, chunks: seq<Link<L>>, probes': map<Str, Probe>, key: Str)
    requires n < |rights| && MapOk(kind, lefts, |lefts|, rights, n, probes, chunks)
    requires var k := rights[n].key; probes' == if ValuedKey(k) && k in probes then probes[k := Counted(kind, probes[k])] else probes
    ensures EntryOk(kind, lefts, |lefts|, rights, n + 1, probes', chunks, key)
  {
    assert EntryOk(kind, lefts, |lefts|, rights, n, probes, chunks, key);
  }

  lemma {:induction false} ProbeKeepsMap<L, R>(kind: Kind, lefts: seq<Keyed<L>>, rights: seq<Keyed<R>>, n: nat, probes: map<Str, Probe>, chunks: seq<Link<L>>, probes': map<Str, Probe>)
    requires n < |rights| && MapOk(kind, lefts, |lefts|, rights, n, probes, chunks)
    requires var k := rights[n].key; probes' == if ValuedKey(k) && k in probes then probes[k := Counted(kind, probes[k])] else probes
    ensures MapOk(kind, lefts, |lefts|, rights, n + 1, probes', chunks)
  {
    var n': nat := n + 1;
    forall key ensures EntryOk(kind, lefts, |lefts|, rights, n', probes', chunks, key) {
      ProbeKeepsEntry(kind, lefts, rights, n, probes, chunks, probes', key);
    }
  }
}
