/** A reader for the animated container, after RFC 9649 sections 2.7 and
    2.7.1.1, and what it reads back from the encoder's output. */
module AnimationReader {
  import opened Bytes
  import opened WebpContainer
  import opened CanonicalImage
  import opened AnimationWriter

  /** The fields of a frame chunk; `data` is its bitstream chunk. */
  datatype ReadFrame = ReadFrame(x: nat, y: nat, width: nat, height: nat, ms: nat, noBlend: bool, dispose: bool, data: seq<byte>)

  datatype Animation = Animation(width: nat, height: nat, alpha: bool, loops: nat, frames: seq<ReadFrame>)

  predicate Flag(b: byte, bit: nat)
    requires bit > 0
  {
    b / bit % 2 == 1
  }

  lemma WrittenFlags()
    ensures Flag(0x02, 2) && !Flag(0x02, 1) && !Flag(0x02, 0x10)
    ensures Flag(0x12, 2) && Flag(0x12, 0x10)
  {
    assert 0x12 / 2 == 9 && 0x12 / 0x10 == 1 && 0x02 / 0x10 == 0;
  }

  function ReadAnmf(c: Chunk): Option<ReadFrame>
  {
    if |c| < 24 || Tag(c) != ANMF || 8 + Size(c) > |c| || Size(c) < 16 then None
    else Some(ReadFrame(
      2 * FromLe(c[8..11]), 2 * FromLe(c[11..14]), FromLe(c[14..17]) + 1, FromLe(c[17..20]) + 1, FromLe(c[20..23]),
      Flag(c[23], 2), Flag(c[23], 1), c[24..8 + Size(c)]))
  }

  function ReadAnmfs(cs: seq<Chunk>): Option<seq<ReadFrame>> {
    if cs == [] then Some([])
    else
      match (ReadAnmfs(cs[..|cs| - 1]), ReadAnmf(cs[|cs| - 1]))
      case (Some(fs), Some(f)) => Some(fs + [f])
      case _ => None
  }

  /** The header chunk says it is an animation, the loop count follows, then the
      frames. */
  function ReadHead(v: Chunk, a: Chunk, frames: seq<ReadFrame>): Option<Animation>
    requires |v| == 18 && |a| == 14
  {
    if Tag(v) != VP8X || Tag(a) != ANIM || !Flag(v[8], 2) then None
    else Some(Animation(FromLe(v[12..15]) + 1, FromLe(v[15..18]) + 1, Flag(v[8], 0x10), FromLe(a[12..14]), frames))
  }

  function ReadAnimation(w: seq<byte>): Option<Animation> {
    match Container(w)
    case None => None
    case Some(cs) =>
      if |cs| < 2 || |cs[0]| != 18 || |cs[1]| != 14 then None
      else
        match ReadAnmfs(cs[2..])
        case None => None
        case Some(fs) => ReadHead(cs[0], cs[1], fs)
  }

  // ---- Three-byte numbers -----------------------------------------------------------

  lemma {:induction false} LeBytesPrefix(v: nat, n: nat)
    ensures LeBytes(v, n + 1)[..n] == LeBytes(v, n)
    decreases n
  {
    if n > 0 {
      LeBytesPrefix(v / 256, n - 1);
      assert LeBytes(v, n + 1) == [v % 256] + LeBytes(v / 256, n);
    }
  }

  lemma FromLeOfU24(v: nat)
    requires v <= MAX_U24
    ensures FromLe(U24(v)) == v
  {
    Pow256Values();
    LeBytesPrefix(v, 3);
    hide LeBytes, FromLe, Pow256;
    assert v % TWO32 == v;
    FromLeOfLeBytes(v, 3);
  }

  // ---- The scan for the still's bitstream ---------------------------------------------

  function FirstVp8l(cs: seq<Chunk>): Option<Chunk>
    requires AreChunks(cs)
  {
    if cs == [] then None
    else if Tag(cs[0]) == VP8L then Some(cs[0])
    else FirstVp8l(cs[1..])
  }

  lemma {:induction false} ScanFindsFirst(w: seq<byte>, pos: nat)
    requires pos <= |w| && Chunks(w[pos..]).Some?
    ensures AreChunks(Chunks(w[pos..]).value)
    ensures FindVp8l(w, pos) == FirstVp8l(Chunks(w[pos..]).value)
    decreases |w| - pos
  {
    var bs := w[pos..];
    JoinOfChunks(bs);
    if bs == [] {
      assert FirstVp8l([]) == None;
    } else {
      var n := Span(bs);
      var cs := Chunks(bs).value;
      SlicesOf(w, pos, n);
      assert cs[0] == bs[..n] && Tag(cs[0]) == bs[..4] && cs[1..] == Chunks(bs[n..]).value;
      hide FromLe, Join, Span, AreChunks, IsChunk, Tag, Chunks;
      ScanFindsFirst(w, pos + n);
    }
  }

  lemma SlicesOf(w: seq<byte>, pos: nat, n: nat)
    requires 4 <= n && pos + n <= |w|
    ensures w[pos..][..4] == w[pos..pos + 4] && w[pos..][..n] == w[pos..pos + n] && w[pos..][n..] == w[pos + n..]
    ensures w[pos..][..n][..4] == w[pos..][..4]
  {
  }

  /** On a well-formed file that ends where it says, `vp8l_chunk` is the first
      `VP8L` chunk, and fails exactly if there is none. */
  lemma ScanMatchesParse(w: seq<byte>)
    requires Container(w).Some? && End(w) == |w|
    ensures AreChunks(Container(w).value)
    ensures FindVp8l(w, 12) == FirstVp8l(Container(w).value)
    ensures FindVp8l(w, 12).Some? <==> exists i :: 0 <= i < |Container(w).value| && Tag(Container(w).value[i]) == VP8L
  {
    assert w[12..End(w)] == w[12..];
    ScanFindsFirst(w, 12);
    FirstExists(Container(w).value);
  }

  lemma {:induction false} FirstExists(cs: seq<Chunk>)
    requires AreChunks(cs)
    ensures FirstVp8l(cs).Some? <==> exists i :: 0 <= i < |cs| && Tag(cs[i]) == VP8L
    decreases |cs|
  {
    if cs != [] {
      FirstExists(cs[1..]);
      assert forall i :: 1 <= i < |cs| ==> cs[1..][i - 1] == cs[i];
      if i :| 0 <= i < |cs| && Tag(cs[i]) == VP8L && i > 0 {
        assert Tag(cs[1..][i - 1]) == VP8L;
      }
    }
  }

  // ---- Reading an encoded animation ------------------------------------------------------

  /** A frame as the reader should find it: the full canvas, replacing what was
      there, its delay cut to 24 bits, and the still's own bitstream. */
  function Shown(c: Codec, f: Frame, w: nat, h: nat): (r: Option<ReadFrame>)
  {
    match c.encodeStill(f.image)
    case None => None
    case Some(still) =>
      match FindVp8l(still, 12)
      case None => None
      case Some(vp8l) => Some(ReadFrame(0, 0, w, h, if f.ms < MAX_U24 then f.ms else MAX_U24, true, false, vp8l))
  }

  lemma AnmfFields(f: Frame, w: nat, h: nat, vp8l: Chunk, p: seq<byte>)
    requires p == AnmfPayload(f, w, h, vp8l)
    ensures |p| == 16 + |vp8l| && p[0..3] == [0, 0, 0] && p[3..6] == [0, 0, 0]
    ensures p[6..9] == U24(Minus1(w)) && p[9..12] == U24(Minus1(h))
    ensures p[12..15] == U24(if f.ms < MAX_U24 then f.ms else MAX_U24) && p[15] == 2 && p[16..] == vp8l
  {
    hide U24, Minus1;
  }

  lemma ZeroU24()
    ensures FromLe([0, 0, 0]) == 0 && FromLe([0, 0]) == 0
  {
    assert LeBytes(0, 2) == [0] + LeBytes(0, 1);
    assert LeBytes(0, 3) == [0] + LeBytes(0, 2);
    FromLeOfLeBytes(0, 2);
    FromLeOfLeBytes(0, 3);
  }

  lemma ReadsOneAnmf(f: Frame, w: nat, h: nat, vp8l: Chunk)
    requires 1 <= w <= MAX_U24 + 1 && 1 <= h <= MAX_U24 + 1 && |vp8l| + 16 < TWO32
    ensures ReadAnmf(MakeChunk(ANMF, AnmfPayload(f, w, h, vp8l))) ==
            Some(ReadFrame(0, 0, w, h, if f.ms < MAX_U24 then f.ms else MAX_U24, true, false, vp8l))
  {
    var p := AnmfPayload(f, w, h, vp8l);
    var ms := if f.ms < MAX_U24 then f.ms else MAX_U24;
    AnmfFields(f, w, h, vp8l, p);
    FromLeOfU24(w - 1);
    FromLeOfU24(h - 1);
    FromLeOfU24(ms);
    ZeroU24();
    WrittenFlags();
    hide FromLe, Le32, LeBytes, U24, AnmfPayload, MakeChunk, Flag, IsChunk;
    MakeChunkIsChunk(ANMF, p);
    var x := MakeChunk(ANMF, p);
    Fields(x, p);
  }

  /** Slices of a chunk are slices of its payload. */
  lemma Fields(x: Chunk, p: seq<byte>)
    requires |p| >= 16 && |x| >= 8 + |p| && x[8..8 + |p|] == p
    ensures x[8..11] == p[0..3] && x[11..14] == p[3..6] && x[14..17] == p[6..9] && x[17..20] == p[9..12]
    ensures x[20..23] == p[12..15] && x[23] == p[15] && x[24..8 + |p|] == p[16..]
  {
    Slice(x, |p|, 0, 3);
    Slice(x, |p|, 3, 6);
    Slice(x, |p|, 6, 9);
    Slice(x, |p|, 9, 12);
    Slice(x, |p|, 12, 15);
    Slice(x, |p|, 16, |p|);
    assert x[8..8 + |p|][15] == x[23];
  }

  lemma Slice(x: Chunk, n: nat, i: nat, j: nat)
    requires i <= j <= n && 8 + n <= |x|
    ensures x[8..8 + n][i..j] == x[8 + i..8 + j]
  {
    var a, b := x[8..8 + n][i..j], x[8 + i..8 + j];
    forall k | 0 <= k < j - i ensures a[k] == b[k] {
      assert a[k] == x[8..8 + n][i + k];
    }
  }

  lemma ReadsWritten(c: Codec, f: Frame, w: nat, h: nat)
    requires 1 <= w <= MAX_U24 + 1 && 1 <= h <= MAX_U24 + 1 && w * h <= MAX_ANIM_PIXELS
    requires EncodesStills(c) && f.image.width == w && f.image.height == h
    requires Written(c, f, w, h).Some?
    ensures Shown(c, f, w, h).Some? && ReadAnmf(Written(c, f, w, h).value) == Shown(c, f, w, h)
  {
    var still := c.encodeStill(f.image).value;
    assert StillOk(c, f.image, still);
    assert |still| <= StillBytes(w * h);
    FoundIsVp8l(still, 12);
    hide StillOk, EncodesStills, ReadAnmf, MakeChunk, AnmfPayload;
    ReadsOneAnmf(f, w, h, FindVp8l(still, 12).value);
  }

  /** The frames read are the frames written. */
  predicate AllShown(c: Codec, frames: seq<Frame>, w: nat, h: nat, fs: seq<ReadFrame>) {
    && |fs| == |frames|
    && forall i :: 0 <= i < |frames| ==> Some(fs[i]) == Shown(c, frames[i], w, h)
  }

  lemma AllShownSnoc(c: Codec, frames: seq<Frame>, w: nat, h: nat, fs: seq<ReadFrame>, f: ReadFrame)
    requires frames != [] && AllShown(c, frames[..|frames| - 1], w, h, fs)
    requires Some(f) == Shown(c, frames[|frames| - 1], w, h)
    ensures AllShown(c, frames, w, h, fs + [f])
  {
    hide Shown;
    assert forall i :: 0 <= i < |frames| - 1 ==> frames[..|frames| - 1][i] == frames[i];
  }

  lemma {:induction false} ReadsAnmfs(c: Codec, frames: seq<Frame>, w: nat, h: nat)
    requires 1 <= w <= MAX_U24 + 1 && 1 <= h <= MAX_U24 + 1
    requires EncodesStills(c) && Uniform(frames, w, h) && w * h <= MAX_ANIM_PIXELS
    requires AnmfChunks(c, frames, w, h).Some?
    ensures var r := ReadAnmfs(AnmfChunks(c, frames, w, h).value);
            r.Some? && AllShown(c, frames, w, h, r.value)
    decreases |frames|
  {
    if frames != [] {
      var k := |frames| - 1;
      assert Uniform(frames[..k], w, h) && frames[k].image.width == w && frames[k].image.height == h;
      hide EncodesStills, Written, Shown, ReadAnmf, ReadAnmfs, AnmfChunks, AllShown, Uniform;
      WrittenLast(c, frames, w, h);
      ReadsAnmfs(c, frames[..k], w, h);
      ReadsWritten(c, frames[k], w, h);
      var done, x := AnmfChunks(c, frames[..k], w, h).value, Written(c, frames[k], w, h).value;
      ReadSnoc(done, x);
      AllShownSnoc(c, frames, w, h, ReadAnmfs(done).value, ReadAnmf(x).value);
    } else {
      assert AnmfChunks(c, frames, w, h).value == [];
    }
  }

  lemma ReadSnoc(cs: seq<Chunk>, x: Chunk)
    requires ReadAnmfs(cs).Some? && ReadAnmf(x).Some?
    ensures ReadAnmfs(cs + [x]) == Some(ReadAnmfs(cs).value + [ReadAnmf(x).value])
  {
    assert (cs + [x])[..|cs|] == cs;
  }

  lemma Vp8xFields(alpha: bool, w: nat, h: nat, p: seq<byte>)
    requires p == Vp8xPayload(alpha, w, h)
    ensures |p| == 10 && p[0] == (if alpha then 0x12 else 0x02)
    ensures p[4..7] == U24(Minus1(w)) && p[7..10] == U24(Minus1(h))
  {
    hide U24, Minus1;
  }

  lemma ReadsHead(alpha: bool, w: nat, h: nat, frames: seq<ReadFrame>)
    requires 1 <= w <= MAX_U24 + 1 && 1 <= h <= MAX_U24 + 1
    ensures var v, a := MakeChunk(VP8X, Vp8xPayload(alpha, w, h)), MakeChunk(ANIM, [0, 0, 0, 0, 0, 0]);
            && |v| == 18 && |a| == 14
            && ReadHead(v, a, frames) == Some(Animation(w, h, alpha, 0, frames))
  {
    var p := Vp8xPayload(alpha, w, h);
    HeadChunksAreClean(alpha, w, h);
    Vp8xFields(alpha, w, h, p);
    ReadsCanvas(alpha, w, h, p);
    ReadsLoops();
    WrittenFlags();
    hide FromLe, Vp8xPayload, MakeChunk, Flag, IsChunk, IsMetadata, CleanChunk;
  }

  lemma ReadsLoops()
    ensures var a := MakeChunk(ANIM, [0, 0, 0, 0, 0, 0]);
            |a| >= 14 && Tag(a) == ANIM && FromLe(a[12..14]) == 0
  {
    var z: seq<byte> := [0, 0, 0, 0, 0, 0];
    ZeroU24();
    hide FromLe, Le32, LeBytes, MakeChunk;
    MakeChunkIsChunk(ANIM, z);
    Slice(MakeChunk(ANIM, z), 6, 4, 6);
    assert z[4..6] == [0, 0];
  }

  lemma ReadsCanvas(alpha: bool, w: nat, h: nat, p: seq<byte>)
    requires 1 <= w <= MAX_U24 + 1 && 1 <= h <= MAX_U24 + 1
    requires p == Vp8xPayload(alpha, w, h) && |p| == 10 && p[4..7] == U24(Minus1(w)) && p[7..10] == U24(Minus1(h))
    ensures var v := MakeChunk(VP8X, p);
            && |v| >= 18 && Tag(v) == VP8X && v[8] == p[0]
            && FromLe(v[12..15]) + 1 == w && FromLe(v[15..18]) + 1 == h
  {
    FromLeOfU24(w - 1);
    FromLeOfU24(h - 1);
    hide FromLe, Le32, LeBytes, U24, Vp8xPayload, MakeChunk;
    MakeChunkIsChunk(VP8X, p);
    var v := MakeChunk(VP8X, p);
    Slice(v, 10, 4, 7);
    Slice(v, 10, 7, 10);
    assert v[8..18][0] == v[8];
  }

  /** What an animation was encoded from is read back from it: the canvas, the
      alpha flag, an endless loop, and every frame in order with its delay, on
      the full canvas, carrying the bitstream of its own still. */
  lemma AnimationRoundTrip(c: Codec, frames: seq<Frame>, w: nat, h: nat)
    requires EncodesStills(c) && Uniform(frames, w, h) && frames != [] && w >= 1 && h >= 1
    requires |frames| <= MAX_FRAMES && |frames| * (w * h) <= MAX_ANIM_PIXELS
    requires Animated(c, frames, w, h).Some?
    ensures var r := ReadAnimation(Animated(c, frames, w, h).value);
            && r.Some? && r.value.width == w && r.value.height == h
            && r.value.loops == 0
            && (r.value.alpha <==> exists i, j :: 0 <= i < |frames| && 0 <= j < |frames[i].image.pixels|
                                     && frames[i].image.pixels[j].a != 255)
            && AllShown(c, frames, w, h, r.value.frames)
  {
    AnimationIsClean(c, frames, w, h);
    CanvasFits(|frames|, w, h);
    ReadsAnmfs(c, frames, w, h);
    var xs := AnmfChunks(c, frames, w, h).value;
    ReadsHead(HasAlpha(frames), w, h, ReadAnmfs(xs).value);
    var cs := Headed(c, frames, w, h, xs);
    assert cs[2..] == xs;
    hide Container, Animated, MakeChunk, Vp8xPayload, AnmfChunks, ReadAnmfs, AllShown, ReadHead;
  }

  lemma CanvasFits(n: nat, w: nat, h: nat)
    requires n >= 1 && w >= 1 && h >= 1 && n * (w * h) <= MAX_ANIM_PIXELS
    ensures w * h <= MAX_ANIM_PIXELS && w <= MAX_U24 + 1 && h <= MAX_U24 + 1
  {
    MulMono(w * h, 1, n);
    MulMono(w, 1, h);
    MulMono(h, 1, w);
  }
}
