// base/base.go: a row's values as one byte string, length by length.
module ValsCodec {
  import opened Bytes

  const TWO64: nat := 0x1_0000_0000_0000_0000

  // The n low-order bytes of v, least significant first.
  function LittleEndian(v: nat, n: nat): (b: Str)
    ensures |b| == n
  {
    if n == 0 then [] else [(v % 256) as Byte] + LittleEndian(v / 256, n - 1)
  }

  function FromLittleEndian(b: Str): nat
  {
    if b == [] then 0 else b[0] as nat + 256 * FromLittleEndian(b[1..])
  }

  function Power256(n: nat): nat
  {
    if n == 0 then 1 else 256 * Power256(n - 1)
  }

  lemma {:induction false} LittleEndianRoundTrip(v: nat, n: nat)
    requires v < Power256(n)
    ensures FromLittleEndian(LittleEndian(v, n)) == v
    decreases n
  {
    if n > 0 {
      LittleEndianRoundTrip(v / 256, n - 1);
      assert LittleEndian(v, n)[1..] == LittleEndian(v / 256, n - 1);
    }
  }

  // BinaryAppendUint64
  function Uint64(v: nat): (b: Str)
    ensures |b| == 8
  {
    LittleEndian(v, 8)
  }

  lemma Uint64RoundTrip(v: nat, rest: Str)
    requires v < TWO64
    ensures (Uint64(v) + rest)[..8] == Uint64(v) && (Uint64(v) + rest)[8..] == rest
    ensures FromLittleEndian((Uint64(v) + rest)[..8]) == v
  {
    assert Power256(8) == TWO64 by {
      assert Power256(4) == 0x1_0000_0000;
    }
    LittleEndianRoundTrip(v, 8);
  }

  function EncodeEach(vals: seq<Str>): Str
  {
    if vals == [] then [] else Uint64(|vals[0]|) + vals[0] + EncodeEach(vals[1..])
  }

  // ValsEncode
  function Encode(vals: seq<Str>): (b: Str)
    ensures |b| >= 8
  {
    Uint64(|vals|) + EncodeEach(vals)
  }

  // The lengths fit their eight bytes.
  ghost predicate Encodable(vals: seq<Str>)
  {
    |vals| < TWO64 && forall i :: 0 <= i < |vals| ==> |vals[i]| < TWO64
  }

  // ValsDecode, which stops where the source's slices would be out of range.
  function DecodeEach(b: Str, n: nat): seq<Str>
    decreases n
  {
    if n == 0 || |b| < 8 then []
    else
      var vLen := FromLittleEndian(b[..8]);
      if vLen > |b| - 8 then [] else [b[8..8 + vLen]] + DecodeEach(b[8 + vLen..], n - 1)
  }

  function Decode(b: Str): seq<Str>
  {
    if |b| < 8 then [] else DecodeEach(b[8..], FromLittleEndian(b[..8]))
  }

  lemma {:induction false} DecodeEachInverts(vals: seq<Str>)
    requires Encodable(vals)
    ensures DecodeEach(EncodeEach(vals), |vals|) == vals
    decreases |vals|
  {
    if vals != [] {
      var v, rest := vals[0], EncodeEach(vals[1..]);
      var b := EncodeEach(vals);
      assert b == Uint64(|v|) + (v + rest);
      Uint64RoundTrip(|v|, v + rest);
      assert b[8..8 + |v|] == v && b[8 + |v|..] == rest;
      DecodeEachInverts(vals[1..]);
    }
  }

  // Decoding what was encoded gives the row back, so distinct rows have distinct encodings.
  lemma {:induction false} DecodeInverts(vals: seq<Str>)
    requires Encodable(vals)
    ensures Decode(Encode(vals)) == vals
  {
    Uint64RoundTrip(|vals|, EncodeEach(vals));
    DecodeEachInverts(vals);
  }

  // The first byte of an encoding is the low byte of the row's width.
  lemma FirstByteIsWidth(vals: seq<Str>)
    ensures Encode(vals)[0] as nat == |vals| % 256
  {
    assert LittleEndian(|vals|, 8)[0] == (|vals| % 256) as Byte;
  }

  // ---------------------------------------------------------------- the loops

  // ValsEncode appends to what is there.
  method ValsEncode(vals: seq<Str>, out: Str) returns (rv: Str)
    ensures rv == out + Encode(vals)
  {
    rv := out + Uint64(|vals|);
    assert vals[0..] == vals;
    for i: nat := 0 to |vals|
      invariant rv + EncodeEach(vals[i..]) == out + Encode(vals)
    {
      var v := vals[i];
      assert vals[i..][1..] == vals[i + 1..];
      assert rv + EncodeEach(vals[i..]) == (rv + Uint64(|v|) + v) + EncodeEach(vals[i + 1..]);
      rv := rv + Uint64(|v|) + v;
    }
    assert vals[|vals|..] == [] && rv + [] == rv;
  }

  // ValsDecode appends each value it finds.
  method ValsDecode(b: Str, valsOut: seq<Str>) returns (rv: seq<Str>)
    ensures rv == valsOut + Decode(b)
  {
    rv := valsOut;
    if |b| < 8 {
      return;
    }
    var n, rest := FromLittleEndian(b[..8]), b[8..];
    for i: nat := 0 to n
      invariant rv + DecodeEach(rest, n - i) == valsOut + Decode(b)
    {
      if |rest| < 8 || FromLittleEndian(rest[..8]) > |rest| - 8 {
        break;
      }
      var vLen := FromLittleEndian(rest[..8]);
      assert rv + DecodeEach(rest, n - i) == (rv + [rest[8..8 + vLen]]) + DecodeEach(rest[8 + vLen..], n - i - 1);
      rv := rv + [rest[8..8 + vLen]];
      rest := rest[8 + vLen..];
    }
    assert rv + [] == rv;
  }
}
