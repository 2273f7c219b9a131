/**
 The RIFF chunk layer of webpanim.go: a printer of chunks, the loop that walks them
 (shared by webpChunks and framePayloadChunks, which differ only in where they start),
 and the proof that each undoes the other.
 */
module Riff {
  import opened Common

  const CHUNK_HEADER_SIZE := 8

  datatype Chunk = Chunk(fourCC: seq<byte>, payload: seq<byte>)

  /** Little-endian decoding: binary.LittleEndian.Uint32, and the three-byte dimensions of WebP. */
  function Decode(b: seq<byte>): nat {
    if b == [] then 0 else b[0] as nat + 0x100 * Decode(b[1..])
  }

  /** The k low bytes of n, little end first: PutUint32(uint32(n)) at k = 4 and putUint24 at k = 3. */
  function Encode(n: nat, k: nat): (b: seq<byte>)
    ensures |b| == k
  {
    if k == 0 then [] else [n % 0x100] + Encode(n / 0x100, k - 1)
  }

  function Range(k: nat): nat {
    if k == 0 then 1 else 0x100 * Range(k - 1)
  }

  lemma {:induction false} DecodeEncode(n: nat, k: nat)
    requires n < Range(k)
    ensures Decode(Encode(n, k)) == n
  {
    if k > 0 {
      DecodeEncode(n / 0x100, k - 1);
      assert Encode(n, k)[1..] == Encode(n / 0x100, k - 1);
    }
  }

  lemma {:induction false} EncodeDecode(b: seq<byte>)
    ensures Decode(b) < Range(|b|)
    ensures Encode(Decode(b), |b|) == b
  {
    if b != [] {
      EncodeDecode(b[1..]);
      assert Decode(b) / 0x100 == Decode(b[1..]) && Decode(b) % 0x100 == b[0];
    }
  }

  function Uint32At(data: seq<byte>, off: nat): nat
    requires off + 4 <= |data|
  {
    Decode(data[off..off + 4])
  }

  // --- printing ---------------------------------------------------------------------

  predicate WellFormed(c: Chunk) {
    |c.fourCC| == 4 && |c.payload| < Range(4)
  }

  function PaddedSize(c: Chunk): nat {
    CHUNK_HEADER_SIZE + |c.payload| + |c.payload| % 2
  }

  /** The bytes rawChunk emits: name, length, payload, and a zero after an odd payload. */
  function Print(c: Chunk): seq<byte> {
    c.fourCC + Encode(|c.payload|, 4) + c.payload + (if |c.payload| % 2 == 1 then [0] else [])
  }

  function PrintAll(cs: seq<Chunk>): seq<byte> {
    if cs == [] then [] else Print(cs[0]) + PrintAll(cs[1..])
  }

  /** rawChunk: the same bytes, appended piece by piece. */
  method RawChunk(c: Chunk) returns (out: seq<byte>)
    ensures out == Print(c)
  {
    out := [];
    out := out + c.fourCC;
    out := out + Encode(|c.payload|, 4);
    out := out + c.payload;
    if |c.payload| % 2 == 1 {
      out := out + [0];
    }
  }

  // --- walking ----------------------------------------------------------------------

  /** The test a walk makes before it accepts a chunk at off. */
  predicate HasChunk(data: seq<byte>, off: nat) {
    && off + CHUNK_HEADER_SIZE <= |data|
    && off + CHUNK_HEADER_SIZE + Uint32At(data, off + 4) <= |data|
  }

  function ChunkAt(data: seq<byte>, off: nat): Chunk
    requires HasChunk(data, off)
  {
    var start := off + CHUNK_HEADER_SIZE;
    Chunk(data[off..off + 4], data[start..start + Uint32At(data, off + 4)])
  }

  function Parse(data: seq<byte>, off: nat): seq<Chunk>
    decreases |data| - off
  {
    if HasChunk(data, off)
    then [ChunkAt(data, off)] + Parse(data, off + PaddedSize(ChunkAt(data, off)))
    else []
  }

  /** Where the walk stops. It may be one past the end, when an odd last payload has no pad byte. */
  function StopOffset(data: seq<byte>, off: nat): nat
    decreases |data| - off
  {
    if HasChunk(data, off) then StopOffset(data, off + PaddedSize(ChunkAt(data, off))) else off
  }

  lemma WalkOn(data: seq<byte>, off: nat, out: seq<Chunk>)
    requires HasChunk(data, off)
    ensures var c := ChunkAt(data, off); out + Parse(data, off) == (out + [c]) + Parse(data, off + PaddedSize(c))
  {
  }

  /** webpChunks (start = 12) and framePayloadChunks (start = 0). */
  method WalkChunks(data: seq<byte>, start: nat) returns (out: seq<Chunk>)
    ensures out == Parse(data, start)
    ensures Tiles(data, start, out)
  {
    out := [];
    var off := start;
    while off + CHUNK_HEADER_SIZE <= |data|
      invariant Parse(data, start) == out + Parse(data, off)
      decreases |data| - off
    {
      var fourCC := data[off..off + 4];
      var size := Uint32At(data, off + 4);
      var begin := off + CHUNK_HEADER_SIZE;
      if begin + size > |data| {
        break;
      }
      var c := Chunk(fourCC, data[begin..begin + size]);
      WalkOn(data, off, out);
      out := out + [c];
      off := begin + size;
      if size % 2 == 1 {
        off := off + 1;
      }
    }
    ParseIffTiles(data, start, out);
  }

  // --- what a walk means --------------------------------------------------------------

  /** Offset of the k-th of the chunks laid end to end from off. */
  function StartOf(cs: seq<Chunk>, off: nat, k: nat): nat
    requires k <= |cs|
  {
    if k == 0 then off else StartOf(cs, off, k - 1) + PaddedSize(cs[k - 1])
  }

  /** Chunk c is spelled out, header and payload, at off. */
  predicate SpelledAt(data: seq<byte>, off: nat, c: Chunk) {
    && WellFormed(c)
    && off + CHUNK_HEADER_SIZE + |c.payload| <= |data|
    && data[off..off + CHUNK_HEADER_SIZE + |c.payload|] == c.fourCC + Encode(|c.payload|, 4) + c.payload
  }

  /** The chunks lie end to end in data from off, inside its bounds, and no further chunk follows. */
  ghost predicate Tiles(data: seq<byte>, off: nat, cs: seq<Chunk>) {
    && (forall k :: 0 <= k < |cs| ==> SpelledAt(data, StartOf(cs, off, k), cs[k]))
    && !HasChunk(data, StartOf(cs, off, |cs|))
  }

  lemma Slice(data: seq<byte>, off: nat, n: nat, i: nat, j: nat)
    requires off + n <= |data| && i <= j <= n
    ensures data[off..off + n][i..j] == data[off + i..off + j]
  {
    var whole, part := data[off..off + n], data[off + i..off + j];
    forall k | 0 <= k < j - i ensures whole[i..j][k] == part[k] {
      assert whole[i..j][k] == whole[i + k] == data[off + (i + k)];
    }
  }

  lemma SpelledParts(data: seq<byte>, off: nat, c: Chunk)
    requires SpelledAt(data, off, c)
    ensures data[off..off + 4] == c.fourCC && data[off + 4..off + 8] == Encode(|c.payload|, 4)
    ensures data[off + 8..off + 8 + |c.payload|] == c.payload
  {
    var n := CHUNK_HEADER_SIZE + |c.payload|;
    Slice(data, off, n, 0, 4);
    Slice(data, off, n, 4, 8);
    Slice(data, off, n, 8, n);
    var whole := c.fourCC + Encode(|c.payload|, 4) + c.payload;
    assert whole[..4] == c.fourCC && whole[4..8] == Encode(|c.payload|, 4) && whole[8..] == c.payload;
  }

  lemma ChunkIsSpelled(data: seq<byte>, off: nat, c: Chunk)
    requires HasChunk(data, off) && ChunkAt(data, off) == c
    ensures SpelledAt(data, off, c)
  {
    var size := data[off + 4..off + 8];
    EncodeDecode(size);
    assert data[off..off + CHUNK_HEADER_SIZE + |c.payload|]
        == data[off..off + 4] + size + data[off + 8..off + 8 + |c.payload|];
  }

  lemma SpelledIsChunkAt(data: seq<byte>, off: nat, c: Chunk)
    ensures SpelledAt(data, off, c) <==> HasChunk(data, off) && ChunkAt(data, off) == c
  {
    if SpelledAt(data, off, c) {
      SpelledParts(data, off, c);
      DecodeEncode(|c.payload|, 4);
    }
    if HasChunk(data, off) && ChunkAt(data, off) == c {
      ChunkIsSpelled(data, off, c);
    }
  }

  lemma {:induction false} StartOfTail(cs: seq<Chunk>, off: nat, k: nat)
    requires 0 < k <= |cs|
    ensures StartOf(cs, off, k) == StartOf(cs[1..], off + PaddedSize(cs[0]), k - 1)
  {
    if k > 1 {
      StartOfTail(cs, off, k - 1);
    }
  }

  lemma TilesStep(data: seq<byte>, off: nat, cs: seq<Chunk>)
    requires cs != []
    ensures Tiles(data, off, cs) <==> SpelledAt(data, off, cs[0]) && Tiles(data, off + PaddedSize(cs[0]), cs[1..])
  {
    var next, rest := off + PaddedSize(cs[0]), cs[1..];
    forall k | 0 < k <= |cs| ensures StartOf(cs, off, k) == StartOf(rest, next, k - 1) {
      StartOfTail(cs, off, k);
    }
    if Tiles(data, off, cs) {
      assert SpelledAt(data, StartOf(cs, off, 0), cs[0]);
      forall k | 0 <= k < |rest| ensures SpelledAt(data, StartOf(rest, next, k), rest[k]) {
        assert SpelledAt(data, StartOf(cs, off, k + 1), cs[k + 1]);
      }
    }
    if SpelledAt(data, off, cs[0]) && Tiles(data, next, rest) {
      forall k | 0 <= k < |cs| ensures SpelledAt(data, StartOf(cs, off, k), cs[k]) {
        if k > 0 {
          assert SpelledAt(data, StartOf(rest, next, k - 1), rest[k - 1]);
        }
      }
    }
  }

  lemma ParseStep(data: seq<byte>, off: nat, cs: seq<Chunk>)
    requires cs != []
    ensures cs == Parse(data, off) <==>
            SpelledAt(data, off, cs[0]) && cs[1..] == Parse(data, off + PaddedSize(cs[0]))
  {
    SpelledIsChunkAt(data, off, cs[0]);
    assert cs == [cs[0]] + cs[1..];
  }

  lemma NoneIffTiles(data: seq<byte>, off: nat)
    ensures [] == Parse(data, off) <==> Tiles(data, off, [])
  {
    assert StartOf([], off, 0) == off;
  }

  /** A list of chunks is what the walk returns exactly when it tiles the data. */
  lemma {:induction false} ParseIffTiles(data: seq<byte>, off: nat, cs: seq<Chunk>)
    ensures cs == Parse(data, off) <==> Tiles(data, off, cs)
    decreases |cs|
  {
    if cs == [] {
      NoneIffTiles(data, off);
    } else {
      ParseStep(data, off, cs);
      TilesStep(data, off, cs);
      ParseIffTiles(data, off + PaddedSize(cs[0]), cs[1..]);
    }
  }

  lemma PrintedIsSpelled(header: seq<byte>, c: Chunk, rest: seq<byte>)
    requires WellFormed(c)
    ensures SpelledAt(header + Print(c) + rest, |header|, c)
  {
    var data, n := header + Print(c) + rest, CHUNK_HEADER_SIZE + |c.payload|;
    assert data[|header|..|header| + n] == Print(c)[..n];
    assert Print(c)[..n] == c.fourCC + Encode(|c.payload|, 4) + c.payload;
  }

  lemma WalksPast(data: seq<byte>, off: nat, c: Chunk, next: nat)
    requires SpelledAt(data, off, c) && next == off + PaddedSize(c)
    ensures Parse(data, off) == [c] + Parse(data, next) && StopOffset(data, off) == StopOffset(data, next)
  {
    SpelledIsChunkAt(data, off, c);
  }

  /** Parsing undoes printing, after any header, and nothing is left over. */
  lemma {:induction false} ParsePrintAll(header: seq<byte>, cs: seq<Chunk>)
    requires forall c :: c in cs ==> WellFormed(c)
    ensures Parse(header + PrintAll(cs), |header|) == cs
    ensures StopOffset(header + PrintAll(cs), |header|) == |header + PrintAll(cs)|
    decreases |cs|
  {
    if cs != [] {
      var c, longer, rest := cs[0], header + Print(cs[0]), PrintAll(cs[1..]);
      assert c in cs;
      assert header + PrintAll(cs) == longer + rest;
      PrintedIsSpelled(header, c, rest);
      WalksPast(longer + rest, |header|, c, |longer|);
      ParsePrintAll(longer, cs[1..]);
      assert cs == [c] + cs[1..];
    } else {
      assert header + PrintAll(cs) == header;
    }
  }

  /** The chunks a walk returns come from their own stretches of the data, so two of them fit in it together. */
  lemma {:induction false} PairFits(data: seq<byte>, off: nat, i: nat, j: nat)
    requires off <= |data|
    requires i < |Parse(data, off)| && j < |Parse(data, off)|
    ensures off + PaddedSize(Parse(data, off)[i]) <= |data| + 1
    ensures i != j ==> off + PaddedSize(Parse(data, off)[i]) + PaddedSize(Parse(data, off)[j]) <= |data| + 1
    decreases |data| - off
  {
    var c := ChunkAt(data, off);
    var next := off + PaddedSize(c);
    if next <= |data| {
      if i > 0 && j > 0 {
        PairFits(data, next, i - 1, j - 1);
      } else if i > 0 {
        PairFits(data, next, i - 1, i - 1);
      } else if j > 0 {
        PairFits(data, next, j - 1, j - 1);
      }
    }
  }
}
