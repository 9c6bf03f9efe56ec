/** What the animation encoder writes is a clean container. */
module AnimationWriter {
  import opened Bytes
  import opened WebpContainer
  import opened CanonicalImage

  // ---- What is asked of the still encoder ---------------------------------------------

  /** A lossless still takes at most this many bytes. */
  function StillBytes(pixels: nat): nat {
    16 * pixels + 0x1_0000
  }

  /** An encoded still is a clean container of bounded size that opens as a still
      of the same dimensions, and so does its bitstream taken by itself. */
  ghost predicate EncodesStills(c: Codec) {
    forall i :: c.encodeStill(i).Some? ==> StillOk(c, i, c.encodeStill(i).value)
  }

  predicate StillOk(c: Codec, i: Image, b: seq<byte>) {
    && Container(b).Some? && AreChunks(Container(b).value) && IsClean(Container(b).value) && End(b) == |b|
    && |b| <= StillBytes(Pixels(i))
    && c.open(b, WebP).Some?
    && (var o := c.open(b, WebP).value;
        o.width == i.width && o.height == i.height && !o.animated && |o.frames| > 0 && o.frames[0].Some?)
    && (FindVp8l(b, 12).Some? ==>
          var image := c.lossless(FindVp8l(b, 12).value);
          image.Some? && image.value.width == i.width && image.value.height == i.height)
  }

  predicate Uniform(frames: seq<Frame>, w: nat, h: nat) {
    forall i :: 0 <= i < |frames| ==> frames[i].image.width == w && frames[i].image.height == h
  }

  // ---- An encoded animation is a clean container --------------------------------------

  function FrameChunkBytes(pixels: nat): nat {
    StillBytes(pixels) + 32
  }

  /** Each frame chunk holds the frame's encoded pixels verbatim. */
  lemma AnmfIsClean(f: Frame, w: nat, h: nat, vp8l: Chunk)
    requires |vp8l| + 16 < TWO32
    ensures var x := MakeChunk(ANMF, AnmfPayload(f, w, h, vp8l));
            && IsChunk(x) && Tag(x) == ANMF && !IsMetadata(x) && CleanChunk(x) == x
            && |x| <= |vp8l| + 25 && |x| >= 24 + |vp8l| && x[24..24 + |vp8l|] == vp8l
  {
    var payload := AnmfPayload(f, w, h, vp8l);
    hide LeBytes, FromLe, Le32;
    assert |payload| == 16 + |vp8l| && payload[16..] == vp8l;
    MakeChunkIsChunk(ANMF, payload);
    var x := MakeChunk(ANMF, payload);
    assert x[24..24 + |vp8l|] == x[8..8 + |payload|][16..];
  }

  lemma {:induction false} AnmfsAreClean(c: Codec, frames: seq<Frame>, w: nat, h: nat)
    requires EncodesStills(c) && Uniform(frames, w, h) && w * h <= MAX_ANIM_PIXELS
    requires AnmfChunks(c, frames, w, h).Some?
    ensures var xs := AnmfChunks(c, frames, w, h).value;
            && |xs| == |frames| && AreChunks(xs) && IsClean(xs)
            && |Join(xs)| <= |frames| * FrameChunkBytes(w * h)
    decreases |frames|
  {
    if frames != [] {
      var k := |frames| - 1;
      AnmfsAreClean(c, frames[..k], w, h);
      var done := AnmfChunks(c, frames[..k], w, h).value;
      var still := c.encodeStill(frames[k].image).value;
      assert StillOk(c, frames[k].image, still);
      var vp8l := FindVp8l(still, 12).value;
      FoundIsVp8l(still, 12);
      var x := MakeChunk(ANMF, AnmfPayload(frames[k], w, h, vp8l));
      hide MakeChunk, AnmfPayload, Join, IsChunk, CleanChunk, IsMetadata, FindVp8l, StillOk, Container;
      AnmfIsClean(frames[k], w, h, vp8l);
      JoinAppend(done, [x]);
      JoinOne(x);
      assert |x| <= FrameChunkBytes(w * h);
      assert |frames| * FrameChunkBytes(w * h) == k * FrameChunkBytes(w * h) + FrameChunkBytes(w * h);
    }
  }

  lemma AnimationFlagsStay()
    ensures ClearFlags(0x12) == 0x12 && ClearFlags(0x02) == 0x02
  {
    BitGroups(0, 0, 1, 0, 2);
    BitGroups(0, 0, 0, 0, 2);
  }

  lemma TagsDiffer()
    ensures VP8X != ICCP && VP8X != EXIF && VP8X != XMP
    ensures ANIM != ICCP && ANIM != EXIF && ANIM != XMP && ANIM != VP8X
  {
    assert VP8X[0] != ICCP[0] && VP8X[0] != EXIF[0] && VP8X[0] != XMP[0];
    assert ANIM[0] != ICCP[0] && ANIM[0] != EXIF[0] && ANIM[0] != XMP[0] && ANIM[0] != VP8X[0];
  }

  /** A chunk stays as it is when its first payload byte has no flag to clear. */
  lemma UnflaggedIsClean(c: Chunk)
    requires IsChunk(c) && (HasFlagByte(c) ==> ClearFlags(c[8]) == c[8])
    ensures CleanChunk(c) == c
  {
    hide ClearFlags;
  }

  lemma Vp8xIsClean(alpha: bool, w: nat, h: nat)
    ensures var a := MakeChunk(VP8X, Vp8xPayload(alpha, w, h));
            IsChunk(a) && !IsMetadata(a) && CleanChunk(a) == a && |a| == 18
  {
    var p := Vp8xPayload(alpha, w, h);
    AnimationFlagsStay();
    hide LeBytes, FromLe, Le32, ClearFlags, MakeChunk, CleanChunk;
    assert |p| == 10 && ClearFlags(p[0]) == p[0];
    hide Vp8xPayload;
    MakeChunkIsChunk(VP8X, p);
    var a := MakeChunk(VP8X, p);
    assert a[8] == a[8..8 + |p|][0];
    UnflaggedIsClean(a);
    TagsDiffer();
  }

  lemma HeadChunksAreClean(alpha: bool, w: nat, h: nat)
    ensures var a, b := MakeChunk(VP8X, Vp8xPayload(alpha, w, h)), MakeChunk(ANIM, [0, 0, 0, 0, 0, 0]);
            && IsChunk(a) && !IsMetadata(a) && CleanChunk(a) == a && |a| == 18
            && IsChunk(b) && !IsMetadata(b) && CleanChunk(b) == b && |b| == 14
  {
    hide LeBytes, FromLe, Le32, ClearFlags, MakeChunk, CleanChunk;
    var p: seq<byte> := [0, 0, 0, 0, 0, 0];
    Vp8xIsClean(alpha, w, h);
    MakeChunkIsChunk(ANIM, p);
    TagsDiffer();
    UnflaggedIsClean(MakeChunk(ANIM, p));
  }

  lemma CleanPrintIsFixed(cs: seq<Chunk>)
    requires AreChunks(cs) && IsClean(cs) && 4 + |Join(cs)| < TWO32
    ensures Container(Print(cs)) == Some(cs) && Stripped(Print(cs)) == Some(Print(cs))
    ensures |Print(cs)| == 12 + |Join(cs)|
  {
    hide FromLe, Le32, Join, IsClean, AreChunks, Clean;
    ContainerOfPrint(cs);
    PrintParts(cs);
    StrippedIsIdentityIff(Print(cs));
  }

  lemma CleanCons(a: Chunk, b: Chunk, xs: seq<Chunk>)
    requires IsChunk(a) && !IsMetadata(a) && CleanChunk(a) == a
    requires IsChunk(b) && !IsMetadata(b) && CleanChunk(b) == b
    requires AreChunks(xs) && IsClean(xs)
    ensures AreChunks([a, b] + xs) && IsClean([a, b] + xs)
    ensures |Join([a, b] + xs)| == |a| + |b| + |Join(xs)|
  {
    hide IsChunk, IsMetadata, CleanChunk, Join;
    assert [a, b] + xs == [a] + ([b] + xs);
    JoinCons(a, [b] + xs);
    JoinCons(b, xs);
  }

  lemma FrameChunksFit(n: nat, px: nat, bytes: nat)
    requires 1 <= n <= MAX_FRAMES && n * px <= MAX_ANIM_PIXELS
    requires bytes <= n * FrameChunkBytes(px)
    ensures px <= MAX_ANIM_PIXELS && bytes < 0x2000_0000
  {
    MulMono(px, 1, n);
    assert n * FrameChunkBytes(px) == 16 * (n * px) + 65568 * n;
  }

  /** An animation within the limits is written below four gigabytes, as a
      well-formed container that the metadata filter returns unchanged. */
  lemma AnimationIsClean(c: Codec, frames: seq<Frame>, w: nat, h: nat)
    requires EncodesStills(c) && Uniform(frames, w, h) && frames != []
    requires |frames| <= MAX_FRAMES && |frames| * (w * h) <= MAX_ANIM_PIXELS
    requires Animated(c, frames, w, h).Some?
    ensures var b := Animated(c, frames, w, h).value;
            && |b| < TWO32 && Stripped(b) == Some(b) && AnmfChunks(c, frames, w, h).Some?
            && Container(b) == Some(Headed(c, frames, w, h, AnmfChunks(c, frames, w, h).value))
  {
    hide FromLe, Le32, Join, IsChunk, IsMetadata, CleanChunk, IsClean, AreChunks, AnmfChunks, Print, Container,
         EncodesStills, MakeChunk, Vp8xPayload, HasAlpha;
    FrameChunksFit(|frames|, w * h, 0);
    AnmfsAreClean(c, frames, w, h);
    var xs := AnmfChunks(c, frames, w, h).value;
    FrameChunksFit(|frames|, w * h, |Join(xs)|);
    HeadChunksAreClean(HasAlpha(frames), w, h);
    CleanCons(MakeChunk(VP8X, Vp8xPayload(HasAlpha(frames), w, h)), MakeChunk(ANIM, [0, 0, 0, 0, 0, 0]), xs);
    CleanPrintIsFixed(Headed(c, frames, w, h, xs));
  }
}
