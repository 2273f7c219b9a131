/**
 webpanim.go: the first frame of an animated WebP, rebuilt as a still one. The container
 is that of RFC 9649, sections 2.3 (RIFF header) and 2.7 (extended format).
 */
module WebpAnim {
  import opened Common
  import opened Riff

  const RIFF_HEADER_SIZE := 12
  const VP8X_PAYLOAD_SIZE := 10
  const ANMF_HEADER_SIZE := 16

  // Names as bytes: "RIFF", "WEBP", "VP8X", "ANMF", "ALPH", "VP8 ", "VP8L".
  const RIFF: seq<byte> := [0x52, 0x49, 0x46, 0x46]
  const WEBP: seq<byte> := [0x57, 0x45, 0x42, 0x50]
  const VP8X: seq<byte> := [0x56, 0x50, 0x38, 0x58]
  const ANMF: seq<byte> := [0x41, 0x4E, 0x4D, 0x46]
  const ALPH: seq<byte> := [0x41, 0x4C, 0x50, 0x48]
  const VP8: seq<byte> := [0x56, 0x50, 0x38, 0x20]
  const VP8L: seq<byte> := [0x56, 0x50, 0x38, 0x4C]

  // --- recognising an animation -------------------------------------------------------

  predicate IsWebP(data: seq<byte>) {
    |data| >= RIFF_HEADER_SIZE && data[0..4] == RIFF && data[8..12] == WEBP
  }

  function Chunks(data: seq<byte>): seq<Chunk> {
    Parse(data, RIFF_HEADER_SIZE)
  }

  predicate IsFeatureHeader(c: Chunk) {
    c.fourCC == VP8X && |c.payload| == VP8X_PAYLOAD_SIZE
  }

  /** Bit 1 of the flags, vp8xAnimBit. */
  predicate AnimationBit(flags: byte) {
    flags / 2 % 2 == 1
  }

  /** The first feature header among the chunks decides. */
  predicate IsAnimated(data: seq<byte>) {
    IsWebP(data) && FirstIsAnimated(Chunks(data))
  }

  predicate FirstIsAnimated(cs: seq<Chunk>) {
    exists k :: 0 <= k < |cs| && IsFeatureHeader(cs[k]) && AnimationBit(cs[k].payload[0])
                && forall j :: 0 <= j < k ==> !IsFeatureHeader(cs[j])
  }

  /** No other feature header can be the first. */
  lemma FirstDecides(cs: seq<Chunk>, i: nat)
    requires i < |cs| && IsFeatureHeader(cs[i]) && forall j :: 0 <= j < i ==> !IsFeatureHeader(cs[j])
    ensures FirstIsAnimated(cs) <==> AnimationBit(cs[i].payload[0])
  {
  }

  method IsAnimatedWebP(data: seq<byte>) returns (animated: bool)
    ensures animated == IsAnimated(data)
  {
    if !IsWebP(data) {
      return false;
    }
    var cs := WalkChunks(data, RIFF_HEADER_SIZE);
    animated := FindFeatureHeader(cs);
  }

  /** The loop of isAnimatedWebP over the chunks. */
  method FindFeatureHeader(cs: seq<Chunk>) returns (animated: bool)
    ensures animated == FirstIsAnimated(cs)
  {
    for i := 0 to |cs|
      invariant forall j :: 0 <= j < i ==> !IsFeatureHeader(cs[j])
    {
      if IsFeatureHeader(cs[i]) {
        FirstDecides(cs, i);
        return AnimationBit(cs[i].payload[0]);
      }
    }
    return false;
  }

  // --- choosing the frame ---------------------------------------------------------------

  predicate IsImage(c: Chunk) {
    c.fourCC == VP8 || c.fourCC == VP8L
  }

  predicate IsAlpha(c: Chunk) {
    c.fourCC == ALPH
  }

  /** The chunks inside an ANMF payload, after its own sixteen header bytes. */
  function SubChunks(frame: Chunk): seq<Chunk>
    requires |frame.payload| > ANMF_HEADER_SIZE
  {
    Parse(frame.payload[ANMF_HEADER_SIZE..], 0)
  }

  /** A frame that can be turned into a still: long enough, and holding image data. */
  predicate Usable(c: Chunk) {
    && c.fourCC == ANMF && |c.payload| > ANMF_HEADER_SIZE
    && exists i :: 0 <= i < |SubChunks(c)| && IsImage(SubChunks(c)[i])
  }

  /** i is the last index of cs whose chunk satisfies p. */
  predicate IsLast(cs: seq<Chunk>, p: Chunk -> bool, i: nat) {
    i < |cs| && p(cs[i]) && forall j :: i < j < |cs| ==> !p(cs[j])
  }

  /** The still's image is the last image sub-chunk and its alpha the last ALPH, if there is one. */
  ghost predicate Chosen(frame: Chunk, alpha: Option<Chunk>, image: Chunk)
    requires |frame.payload| > ANMF_HEADER_SIZE
  {
    var subs := SubChunks(frame);
    && (exists i: nat :: IsLast(subs, IsImage, i) && subs[i] == image)
    && match alpha
       case None => forall j :: 0 <= j < |subs| ==> !IsAlpha(subs[j])
       case Some(a) => exists i: nat :: IsLast(subs, IsAlpha, i) && subs[i] == a
  }

  // --- building the still ----------------------------------------------------------------

  /** The three-byte width-minus-one and height-minus-one of an ANMF header. */
  function FrameSize(frame: Chunk): (size: (seq<byte>, seq<byte>))
    requires |frame.payload| > ANMF_HEADER_SIZE
  {
    (frame.payload[6..9], frame.payload[9..12])
  }

  function FeatureHeader(frame: Chunk): Chunk
    requires |frame.payload| > ANMF_HEADER_SIZE
  {
    var (w, h) := FrameSize(frame);
    Chunk(VP8X, [0x10, 0, 0, 0] + w + h)
  }

  /** The chunks the still consists of. */
  function StillChunks(frame: Chunk, alpha: Option<Chunk>, image: Chunk): seq<Chunk>
    requires |frame.payload| > ANMF_HEADER_SIZE
  {
    match alpha
    case None => [image]
    case Some(a) => [FeatureHeader(frame), Chunk(ALPH, a.payload), image]
  }

  function Container(body: seq<byte>): seq<byte> {
    RIFF + Encode(|body| + 4, 4) + WEBP + body
  }

  /** putUint24, in place: everything else in the buffer stays. */
  method PutUint24(b: array<byte>, at: nat, v: nat)
    requires at + 3 <= b.Length
    modifies b
    ensures b[..] == old(b[..at]) + Encode(v, 3) + old(b[at + 3..])
  {
    b[at] := v % 0x100;
    b[at + 1] := v / 0x100 % 0x100;
    b[at + 2] := v / 0x1_0000 % 0x100;
    assert Encode(v, 3) == [v % 0x100] + Encode(v / 0x100, 2);
    assert Encode(v / 0x100, 2) == [v / 0x100 % 0x100] + Encode(v / 0x1_0000, 1);
    assert Encode(v / 0x1_0000, 1) == [v / 0x1_0000 % 0x100] + Encode(v / 0x1_0000 / 0x100, 0);
    assert b[at..at + 3] == Encode(v, 3);
    assert b[..] == b[..at] + b[at..at + 3] + b[at + 3..];
  }

  method BuildFeatureHeader(width: nat, height: nat) returns (vp8x: array<byte>)
    requires width > 0 && height > 0
    ensures fresh(vp8x) && vp8x[..] == [0x10, 0, 0, 0] + Encode(width - 1, 3) + Encode(height - 1, 3)
  {
    vp8x := new byte[VP8X_PAYLOAD_SIZE](_ => 0);
    vp8x[0] := 0x10;
    PutUint24(vp8x, 4, width - 1);
    PutUint24(vp8x, 7, height - 1);
  }

  /** buildStillWebP. Without alpha the container holds the image alone. */
  method BuildStillWebP(width: nat, height: nat, alpha: Option<seq<byte>>, image: seq<byte>) returns (out: seq<byte>)
    requires width > 0 && height > 0
    ensures out == Container(
                     match alpha
                     case None => image
                     case Some(a) =>
                       Print(Chunk(VP8X, [0x10, 0, 0, 0] + Encode(width - 1, 3) + Encode(height - 1, 3)))
                       + Print(Chunk(ALPH, a)) + image)
  {
    var body: seq<byte> := [];
    if alpha.Some? {
      var vp8x := BuildFeatureHeader(width, height);
      var header := RawChunk(Chunk(VP8X, vp8x[..]));
      body := body + header;
      var alphaChunk := RawChunk(Chunk(ALPH, alpha.value));
      body := body + alphaChunk;
      assert body == header + alphaChunk;
    }
    body := body + image;
    assert alpha.None? ==> body == image;
    out := RIFF;
    out := out + Encode(|body| + 4, 4);
    out := out + WEBP;
    out := out + body;
  }

  /** What firstWebPFrame hands back, described without its loops. */
  ghost predicate IsStillOf(data: seq<byte>, out: seq<byte>, k: nat, alpha: Option<Chunk>, image: Chunk) {
    var cs := Chunks(data);
    && k < |cs| && Usable(cs[k]) && (forall j :: 0 <= j < k ==> !Usable(cs[j]))
    && Chosen(cs[k], alpha, image)
    && out == Container(PrintAll(StillChunks(cs[k], alpha, image)))
  }

  /** The loop over a frame's sub-chunks: later ones replace earlier ones. */
  method LastAlphaAndImage(subs: seq<Chunk>) returns (alpha: Option<Chunk>, image: Option<Chunk>)
    ensures alpha.None? <==> forall j :: 0 <= j < |subs| ==> !IsAlpha(subs[j])
    ensures alpha.Some? ==> exists i: nat :: IsLast(subs, IsAlpha, i) && subs[i] == alpha.value
    ensures image.None? <==> forall j :: 0 <= j < |subs| ==> !IsImage(subs[j])
    ensures image.Some? ==> exists i: nat :: IsLast(subs, IsImage, i) && subs[i] == image.value
  {
    alpha, image := None, None;
    ghost var a: nat, m: nat := 0, 0;
    for n := 0 to |subs|
      invariant alpha.None? ==> forall j :: 0 <= j < n ==> !IsAlpha(subs[j])
      invariant alpha.Some? ==> a < n && IsLast(subs[..n], IsAlpha, a) && subs[a] == alpha.value
      invariant image.None? ==> forall j :: 0 <= j < n ==> !IsImage(subs[j])
      invariant image.Some? ==> m < n && IsLast(subs[..n], IsImage, m) && subs[m] == image.value
    {
      if IsAlpha(subs[n]) {
        alpha, a := Some(subs[n]), n;
      } else if IsImage(subs[n]) {
        image, m := Some(subs[n]), n;
      }
    }
    assert subs[..|subs|] == subs;
  }

  lemma Decode3(b: seq<byte>)
    requires |b| == 3
    ensures Decode(b) == b[0] as nat + b[1] as nat * 0x100 + b[2] as nat * 0x1_0000
  {
    assert Decode(b[1..]) == b[1] as nat + 0x100 * Decode(b[2..]);
    assert b[1..][1..] == b[2..];
  }

  /** A container with exactly the chosen alpha and image of one frame. */
  ghost predicate IsStillOfFrame(frame: Chunk, out: seq<byte>, alpha: Option<Chunk>, image: Chunk)
    requires |frame.payload| > ANMF_HEADER_SIZE
  {
    Chosen(frame, alpha, image) && out == Container(PrintAll(StillChunks(frame, alpha, image)))
  }

  lemma PrintStill(frame: Chunk, alpha: Option<Chunk>, image: Chunk)
    requires |frame.payload| > ANMF_HEADER_SIZE
    ensures PrintAll(StillChunks(frame, alpha, image)) ==
            match alpha
            case None => Print(image)
            case Some(a) => Print(FeatureHeader(frame)) + Print(Chunk(ALPH, a.payload)) + Print(image)
  {
    PrintOne(image);
    if alpha.Some? {
      PrintThree(FeatureHeader(frame), Chunk(ALPH, alpha.value.payload), image);
    }
  }

  lemma PrintOne(c: Chunk)
    ensures PrintAll([c]) == Print(c)
  {
    assert [c][1..] == [];
  }

  lemma PrintThree(a: Chunk, b: Chunk, c: Chunk)
    ensures PrintAll([a, b, c]) == Print(a) + Print(b) + Print(c)
  {
    assert [a, b, c][1..] == [b, c] && [b, c][1..] == [c];
    PrintOne(c);
    assert PrintAll([b, c]) == Print(b) + PrintAll([c]);
  }

  lemma FeatureHeaderBytes(frame: Chunk, width: nat, height: nat)
    requires |frame.payload| > ANMF_HEADER_SIZE
    requires width == Decode(frame.payload[6..9]) + 1 && height == Decode(frame.payload[9..12]) + 1
    ensures FeatureHeader(frame) == Chunk(VP8X, [0x10, 0, 0, 0] + Encode(width - 1, 3) + Encode(height - 1, 3))
  {
    EncodeDecode(frame.payload[6..9]);
    EncodeDecode(frame.payload[9..12]);
  }

  /** The loop body of firstWebPFrame, once the chunk is known to be a long enough ANMF. */
  method RebuildFrame(c: Chunk) returns (still: Option<seq<byte>>)
    requires c.fourCC == ANMF && |c.payload| > ANMF_HEADER_SIZE
    ensures still.Some? <==> Usable(c)
    ensures still.Some? ==> exists alpha, image :: IsStillOfFrame(c, still.value, alpha, image)
  {
    var h := c.payload;
    var width := h[6] as nat + h[7] as nat * 0x100 + h[8] as nat * 0x1_0000 + 1;
    var height := h[9] as nat + h[10] as nat * 0x100 + h[11] as nat * 0x1_0000 + 1;
    Decode3(h[6..9]);
    Decode3(h[9..12]);
    var subs := WalkChunks(h[ANMF_HEADER_SIZE..], 0);
    var alpha, image := LastAlphaAndImage(subs);
    if image.None? {
      return None;
    }
    var raw := RawChunk(image.value);
    var out := BuildStillWebP(width, height, if alpha.Some? then Some(alpha.value.payload) else None, raw);
    PrintStill(c, alpha, image.value);
    FeatureHeaderBytes(c, width, height);
    assert IsStillOfFrame(c, out, alpha, image.value);
    return Some(out);
  }

  /** The loop of firstWebPFrame: the first usable frame is the one rebuilt. */
  method FirstUsableFrame(cs: seq<Chunk>) returns (still: Option<seq<byte>>, ghost k: nat)
    ensures still.None? ==> forall j :: 0 <= j < |cs| ==> !Usable(cs[j])
    ensures still.Some? ==> k < |cs| && Usable(cs[k]) && forall j :: 0 <= j < k ==> !Usable(cs[j])
    ensures still.Some? ==> exists alpha, image :: IsStillOfFrame(cs[k], still.value, alpha, image)
  {
    k := 0;
    for i := 0 to |cs|
      invariant forall j :: 0 <= j < i ==> !Usable(cs[j])
    {
      if cs[i].fourCC != ANMF || |cs[i].payload| <= ANMF_HEADER_SIZE {
        continue;
      }
      still := RebuildFrame(cs[i]);
      if still.None? {
        continue;
      }
      return still, i;
    }
    return None, 0;
  }

  /** firstWebPFrame. It declines only what is not animated or has no usable frame. */
  method FirstWebPFrame(data: seq<byte>) returns (still: Option<seq<byte>>)
    ensures still.Some? <==> IsAnimated(data) && exists j :: 0 <= j < |Chunks(data)| && Usable(Chunks(data)[j])
    ensures still.Some? ==> exists k, alpha, image :: IsStillOf(data, still.value, k, alpha, image)
  {
    var animated := IsAnimatedWebP(data);
    if !animated {
      return None;
    }
    var cs := WalkChunks(data, RIFF_HEADER_SIZE);
    ghost var k;
    still, k := FirstUsableFrame(cs);
    if still.Some? {
      ghost var alpha, image :| IsStillOfFrame(cs[k], still.value, alpha, image);
      assert IsStillOf(data, still.value, k, alpha, image);
    }
  }

  // --- the still is what it should be --------------------------------------------------------

  lemma RangeValues()
    ensures Range(4) == 0x1_0000_0000
  {
    assert Range(1) == 0x100 && Range(2) == 0x1_0000 && Range(3) == 0x100_0000;
  }

  lemma {:induction false} ParseWellFormed(data: seq<byte>, off: nat, i: nat)
    requires i < |Parse(data, off)|
    ensures WellFormed(Parse(data, off)[i])
    decreases |data| - off
  {
    if i > 0 {
      ParseWellFormed(data, off + PaddedSize(ChunkAt(data, off)), i - 1);
    } else {
      SpelledIsChunkAt(data, off, ChunkAt(data, off));
    }
  }

  /** The chosen chunks are whole, are what they were chosen as, and fit together in the frame. */
  lemma ChosenFit(frame: Chunk, alpha: Option<Chunk>, image: Chunk)
    requires |frame.payload| > ANMF_HEADER_SIZE
    requires Chosen(frame, alpha, image)
    ensures WellFormed(image) && IsImage(image)
    ensures alpha.Some? ==> WellFormed(alpha.value) && IsAlpha(alpha.value)
    ensures PaddedSize(image) + (if alpha.Some? then PaddedSize(alpha.value) else 0)
            <= |frame.payload| - ANMF_HEADER_SIZE + 1
  {
    var inner := frame.payload[ANMF_HEADER_SIZE..];
    var subs := SubChunks(frame);
    var i: nat :| IsLast(subs, IsImage, i) && subs[i] == image;
    ParseWellFormed(inner, 0, i);
    PairFits(inner, 0, i, i);
    if alpha.Some? {
      var j: nat :| IsLast(subs, IsAlpha, j) && subs[j] == alpha.value;
      ParseWellFormed(inner, 0, j);
      PairFits(inner, 0, i, j);
    }
  }

  /** Size of the still: it never exceeds the animation it came from. */
  lemma StillIsNoLonger(data: seq<byte>, out: seq<byte>, k: nat, alpha: Option<Chunk>, image: Chunk)
    requires IsStillOf(data, out, k, alpha, image)
    ensures |out| <= |data|
    ensures |PrintAll(StillChunks(Chunks(data)[k], alpha, image))| + RIFF_HEADER_SIZE == |out|
  {
    var frame := Chunks(data)[k];
    PairFits(data, RIFF_HEADER_SIZE, k, k);
    ChosenFit(frame, alpha, image);
    PrintStill(frame, alpha, image);
  }

  /**
   For every animation under 4 GiB: the still parses, with nothing left over, to exactly the
   feature header, alpha and image, or the image alone; its RIFF size is its length less eight;
   and it is not animated, so a second application declines it.
   */
  lemma StillIsWellFormed(data: seq<byte>, out: seq<byte>, k: nat, alpha: Option<Chunk>, image: Chunk)
    requires |data| < 0x1_0000_0000
    requires IsStillOf(data, out, k, alpha, image)
    ensures IsWebP(out)
    ensures Chunks(out) == StillChunks(Chunks(data)[k], alpha, image)
    ensures StopOffset(out, RIFF_HEADER_SIZE) == |out|
    ensures Uint32At(out, 4) == |out| - 8
    ensures !IsAnimated(out)
  {
    var frame := Chunks(data)[k];
    var cs := StillChunks(frame, alpha, image);
    var body := PrintAll(cs);
    StillIsNoLonger(data, out, k, alpha, image);
    RangeValues();
    ChosenFit(frame, alpha, image);
    ContainerParses(cs, body);
    StillNotAnimated(frame, alpha, image);
  }

  lemma FourFourFour(a: seq<byte>, b: seq<byte>, c: seq<byte>, rest: seq<byte>)
    requires |a| == |b| == |c| == 4
    ensures var all := a + b + c + rest;
            all[0..4] == a && all[4..8] == b && all[8..12] == c && all == (a + b + c) + rest
  {
  }

  lemma ContainerHeader(body: seq<byte>)
    requires |body| + 4 < Range(4)
    ensures IsWebP(Container(body)) && Uint32At(Container(body), 4) == |body| + 4
  {
    FourFourFour(RIFF, Encode(|body| + 4, 4), WEBP, body);
    DecodeEncode(|body| + 4, 4);
  }

  lemma ContainerParses(cs: seq<Chunk>, body: seq<byte>)
    requires forall c :: c in cs ==> WellFormed(c)
    requires body == PrintAll(cs) && |body| + 4 < Range(4)
    ensures IsWebP(Container(body))
    ensures Chunks(Container(body)) == cs
    ensures StopOffset(Container(body), RIFF_HEADER_SIZE) == |Container(body)|
    ensures Uint32At(Container(body), 4) == |body| + 4
  {
    ContainerHeader(body);
    ParsePrintAll(RIFF + Encode(|body| + 4, 4) + WEBP, cs);
  }

  lemma StillNotAnimated(frame: Chunk, alpha: Option<Chunk>, image: Chunk)
    requires |frame.payload| > ANMF_HEADER_SIZE && IsImage(image)
    ensures var cs := StillChunks(frame, alpha, image);
            forall k :: 0 <= k < |cs| && IsFeatureHeader(cs[k]) ==> !AnimationBit(cs[k].payload[0])
  {
    assert FeatureHeader(frame).payload[0] == 0x10;
  }

  // --- any written animation is taken -------------------------------------------------------------

  /** A 32-bit length, little end first. */
  function Le32(n: nat): seq<byte> {
    [n % 0x100, n / 0x100 % 0x100, n / 0x1_0000 % 0x100, n / 0x100_0000 % 0x100]
  }

  /** A chunk as section 2.3 of RFC 9649 lays it out: its name, its length, its bytes and a zero to make them even. */
  function Written(name: seq<byte>, payload: seq<byte>): seq<byte> {
    name + Le32(|payload|) + payload + if |payload| % 2 == 1 then [0] else []
  }

  function WrittenAll(cs: seq<Chunk>): seq<byte> {
    if cs == [] then [] else Written(cs[0].fourCC, cs[0].payload) + WrittenAll(cs[1..])
  }

  /** A WebP file with these chunks; nobody looks at the size in its header. */
  function WrittenFile(size: seq<byte>, cs: seq<Chunk>): seq<byte> {
    [0x52, 0x49, 0x46, 0x46] + size + [0x57, 0x45, 0x42, 0x50] + WrittenAll(cs)
  }

  lemma EncodeIsLe32(n: nat)
    ensures Encode(n, 4) == Le32(n)
  {
    assert Encode(n, 4) == [n % 0x100] + Encode(n / 0x100, 3);
    assert Encode(n / 0x100, 3) == [n / 0x100 % 0x100] + Encode(n / 0x1_0000, 2);
    assert Encode(n / 0x1_0000, 2) == [n / 0x1_0000 % 0x100] + Encode(n / 0x100_0000, 1);
    assert Encode(n / 0x100_0000, 1) == [n / 0x100_0000 % 0x100] + Encode(n / 0x100_0000 / 0x100, 0);
  }

  lemma PrintIsWritten(c: Chunk)
    ensures Print(c) == Written(c.fourCC, c.payload)
  {
    EncodeIsLe32(|c.payload|);
  }

  lemma {:induction false} PrintAllIsWritten(cs: seq<Chunk>)
    ensures PrintAll(cs) == WrittenAll(cs)
  {
    if cs != [] {
      PrintIsWritten(cs[0]);
      PrintAllIsWritten(cs[1..]);
    }
  }

  lemma WrittenParses(size: seq<byte>, cs: seq<Chunk>)
    requires |size| == 4 && forall c :: c in cs ==> WellFormed(c)
    ensures IsWebP(WrittenFile(size, cs)) && Chunks(WrittenFile(size, cs)) == cs
  {
    var head := [0x52, 0x49, 0x46, 0x46] + size + [0x57, 0x45, 0x42, 0x50];
    FourFourFour([0x52, 0x49, 0x46, 0x46], size, [0x57, 0x45, 0x42, 0x50], WrittenAll(cs));
    PrintAllIsWritten(cs);
    ParsePrintAll(head, cs);
  }

  lemma WrittenSubChunks(frame: Chunk, head: seq<byte>, subs: seq<Chunk>)
    requires |head| == 16 && subs != [] && frame.payload == head + WrittenAll(subs)
    requires forall c :: c in subs ==> WellFormed(c)
    ensures |frame.payload| > ANMF_HEADER_SIZE && SubChunks(frame) == subs
  {
    PrintAllIsWritten(subs);
    PrintIsWritten(subs[0]);
    assert frame.payload[ANMF_HEADER_SIZE..] == [] + PrintAll(subs);
    ParsePrintAll([], subs);
  }

  /** The name of an image chunk: VP8 and a space, for lossy data, or VP8L, for lossless. */
  predicate NamesImage(name: seq<byte>) {
    name == [0x56, 0x50, 0x38, 0x20] || name == [0x56, 0x50, 0x38, 0x4C]
  }

  /** The m-th is the last of the chunks with an image name. */
  ghost predicate LastImage(subs: seq<Chunk>, m: nat) {
    m < |subs| && NamesImage(subs[m].fourCC) && forall j :: m < j < |subs| ==> !NamesImage(subs[j].fourCC)
  }

  /** alpha is the payload of the last ALPH chunk, if there is one. */
  ghost predicate LastAlpha(subs: seq<Chunk>, alpha: Option<seq<byte>>) {
    match alpha
    case None => forall j :: 0 <= j < |subs| ==> subs[j].fourCC != [0x41, 0x4C, 0x50, 0x48]
    case Some(payload) =>
      exists a :: 0 <= a < |subs| && subs[a] == Chunk([0x41, 0x4C, 0x50, 0x48], payload)
                  && forall j :: a < j < |subs| ==> subs[j].fourCC != [0x41, 0x4C, 0x50, 0x48]
  }

  /** The still of an image, and of the alpha and the frame's header if there is alpha. */
  function StillBytes(head: seq<byte>, alpha: Option<seq<byte>>, image: Chunk): seq<byte>
    requires |head| == 16
  {
    var body := StillBody(head, alpha, image);
    [0x52, 0x49, 0x46, 0x46] + Le32(|body| + 4) + [0x57, 0x45, 0x42, 0x50] + body
  }

  function StillBody(head: seq<byte>, alpha: Option<seq<byte>>, image: Chunk): seq<byte>
    requires |head| == 16
  {
    match alpha
    case None => Written(image.fourCC, image.payload)
    case Some(payload) =>
      Written([0x56, 0x50, 0x38, 0x58], [0x10, 0, 0, 0] + head[6..12])
      + Written([0x41, 0x4C, 0x50, 0x48], payload) + Written(image.fourCC, image.payload)
  }

  /**
   Of a file whose first chunk is a ten-byte VP8X with the animation flag, and whose first ANMF chunk of more than
   sixteen bytes is cs[k] and carries the chunks subs, one of them an image: firstWebPFrame returns a still, and
   it is made of the last image and the last alpha of that frame, byte for byte.
   */
  lemma WrittenAnimationIsTaken(size: seq<byte>, flags: seq<byte>, cs: seq<Chunk>, k: nat, head: seq<byte>,
                                subs: seq<Chunk>, m: nat)
    requires |size| == 4 && |flags| == 10 && flags[0] / 0x02 % 2 == 1
    requires forall c :: c in cs || c in subs ==> WellFormed(c)
    requires k < |cs| && cs[k] == Chunk([0x41, 0x4E, 0x4D, 0x46], head + WrittenAll(subs)) && |head| == 16
    requires forall j :: 0 <= j < k ==> cs[j].fourCC != [0x41, 0x4E, 0x4D, 0x46] || |cs[j].payload| <= 16
    requires LastImage(subs, m)
    ensures var data := WrittenFile(size, [Chunk([0x56, 0x50, 0x38, 0x58], flags)] + cs);
            && IsAnimated(data) && k + 1 < |Chunks(data)| && Usable(Chunks(data)[k + 1])
            && forall out, at, alpha, image :: IsStillOf(data, out, at, alpha, image) ==>
                 && at == k + 1 && image == subs[m]
                 && var bytes := if alpha.Some? then Some(alpha.value.payload) else None;
                 LastAlpha(subs, bytes) && out == StillBytes(head, bytes, subs[m])
  {
    var all := [Chunk([0x56, 0x50, 0x38, 0x58], flags)] + cs;
    var data := WrittenFile(size, all);
    RangeValues();
    WrittenParses(size, all);
    FirstDecides(all, 0);
    WrittenSubChunks(cs[k], head, subs);
    assert all[k + 1] == cs[k] && IsImage(SubChunks(cs[k])[m]);
    forall j | 0 <= j < k + 1 ensures !Usable(all[j]) {
      assert j > 0 ==> all[j] == cs[j - 1];
    }
    forall out, at, alpha, image | IsStillOf(data, out, at, alpha, image)
      ensures && at == k + 1 && image == subs[m]
              && var bytes := if alpha.Some? then Some(alpha.value.payload) else None;
              LastAlpha(subs, bytes) && out == StillBytes(head, bytes, subs[m])
    {
      assert at == k + 1;
      ChosenIsLast(cs[k], head, subs, m, alpha, image);
      StillIsWritten(cs[k], head, alpha, image);
    }
  }

  lemma ChosenIsLast(frame: Chunk, head: seq<byte>, subs: seq<Chunk>, m: nat, alpha: Option<Chunk>, image: Chunk)
    requires |frame.payload| > ANMF_HEADER_SIZE && SubChunks(frame) == subs && LastImage(subs, m)
    requires Chosen(frame, alpha, image)
    ensures image == subs[m] && LastAlpha(subs, if alpha.Some? then Some(alpha.value.payload) else None)
    ensures alpha.Some? ==> alpha.value.fourCC == [0x41, 0x4C, 0x50, 0x48]
  {
    var i: nat :| IsLast(subs, IsImage, i) && subs[i] == image;
    assert i == m;
    if alpha.Some? {
      var a: nat :| IsLast(subs, IsAlpha, a) && subs[a] == alpha.value;
      assert subs[a] == Chunk([0x41, 0x4C, 0x50, 0x48], alpha.value.payload);
    }
  }

  lemma StillIsWritten(frame: Chunk, head: seq<byte>, alpha: Option<Chunk>, image: Chunk)
    requires |head| == 16 && |frame.payload| > ANMF_HEADER_SIZE && head == frame.payload[..16]
    ensures Container(PrintAll(StillChunks(frame, alpha, image)))
         == StillBytes(head, if alpha.Some? then Some(alpha.value.payload) else None, image)
  {
    BodyIsWritten(frame, head, alpha, image);
    EncodeIsLe32(|PrintAll(StillChunks(frame, alpha, image))| + 4);
  }

  lemma BodyIsWritten(frame: Chunk, head: seq<byte>, alpha: Option<Chunk>, image: Chunk)
    requires |head| == 16 && |frame.payload| > ANMF_HEADER_SIZE && head == frame.payload[..16]
    ensures PrintAll(StillChunks(frame, alpha, image))
         == StillBody(head, if alpha.Some? then Some(alpha.value.payload) else None, image)
  {
    PrintStill(frame, alpha, image);
    PrintIsWritten(image);
    if alpha.Some? {
      HeaderIsWritten(frame, head);
      PrintIsWritten(Chunk(ALPH, alpha.value.payload));
    }
  }

  lemma HeaderIsWritten(frame: Chunk, head: seq<byte>)
    requires |head| == 16 && |frame.payload| > ANMF_HEADER_SIZE && head == frame.payload[..16]
    ensures Print(FeatureHeader(frame)) == Written([0x56, 0x50, 0x38, 0x58], [0x10, 0, 0, 0] + head[6..12])
  {
    PrintIsWritten(FeatureHeader(frame));
    assert frame.payload[6..9] + frame.payload[9..12] == head[6..12];
    assert [0x10, 0, 0, 0] + frame.payload[6..9] + frame.payload[9..12] == [0x10, 0, 0, 0] + head[6..12];
  }
}
