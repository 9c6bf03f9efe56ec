/** The image pipeline: decode, bound, scale, encode to the one canonical WebP.
    The codecs themselves are parameters; `Sound` lists what is asked of them. */
module CanonicalImage {
  import opened Bytes
  import opened Basics
  import opened WebpContainer

  const MAX_FRAMES: nat := 60
  const MAX_ANIM_PIXELS: nat := 16 * 1024 * 1024
  const MIN_FRAME_MS: nat := 20
  const MAX_U24: nat := 0xFF_FFFF

  datatype Format = Png | Jpeg | Gif | WebP | OtherFormat

  datatype Pixel = Pixel(r: byte, g: byte, b: byte, a: byte)

  datatype Image = Image(width: nat, height: nat, pixels: seq<Pixel>)

  datatype Frame = Frame(image: Image, ms: nat)

  /** A frame as the decoder yields it, its delay in milliseconds as a ratio. */
  datatype RawFrame = RawFrame(image: Image, num: nat, denom: nat)

  /** A decoder after its header is read; a frame that will not decode is `None`. */
  datatype Opened = Opened(width: nat, height: nat, animated: bool, frames: seq<Option<RawFrame>>)

  datatype Profile = Profile(maxDim: nat, maxInputDim: nat, maxInputPixels: nat, jpegStaysJpeg: bool)

  datatype Error = TooLarge | NotAnImage

  datatype Result<+T> = Ok(value: T) | Err(error: Error)

  datatype Canonical = Canonical(bytes: seq<byte>, webp: bool, width: nat, height: nat)

  /** `lossless` is what the decoder makes of a `VP8L` chunk. */
  datatype Codec = Codec(
    guess: seq<byte> -> Option<Format>,
    open: (seq<byte>, Format) -> Option<Opened>,
    resize: (Image, nat, nat) -> Image,
    encodeStill: Image -> Option<seq<byte>>,
    lossless: Chunk -> Option<Image>,
    encodeJpeg: Image -> Option<seq<byte>>)

  // ---- Fitting into the profile ------------------------------------------------

  function Scaled(side: nat, longest: nat, maxDim: nat): nat
    requires longest > 0
  {
    var s := RoundDiv(side * maxDim, longest);
    if s < 1 then 1 else s
  }

  function Fit(w: nat, h: nat, maxDim: nat): (nat, nat) {
    if w <= maxDim && h <= maxDim then (w, h)
    else
      var longest := if w >= h then w else h;
      (Scaled(w, longest, maxDim), Scaled(h, longest, maxDim))
  }

  lemma ScaledBounds(side: nat, longest: nat, maxDim: nat)
    requires 1 <= side <= longest && 1 <= maxDim < longest
    ensures 1 <= Scaled(side, longest, maxDim) <= maxDim
    ensures Scaled(side, longest, maxDim) <= side
    ensures side == longest ==> Scaled(side, longest, maxDim) == maxDim
  {
    var n := side * maxDim;
    RoundBelow(n, longest, maxDim) by { MulMono(maxDim, side, longest); }
    RoundBelow(n, longest, side) by { MulMono(side, maxDim, longest); }
    if side == longest {
      DivExact(longest, maxDim);
    }
  }

  lemma MulMono(d: nat, a: nat, b: nat)
    requires a <= b
    ensures d * a <= d * b
  {
  }

  lemma DivExact(longest: nat, maxDim: nat)
    requires longest > 0
    ensures (2 * (longest * maxDim) + longest) / (2 * longest) == maxDim
  {
    var n := 2 * (longest * maxDim) + longest;
    assert n == (2 * longest) * maxDim + longest;
    DivBelow(n, 2 * longest, maxDim);
    assert (2 * longest) * maxDim < (2 * longest) * (n / (2 * longest) + 1);
    Cancel(2 * longest, maxDim, n / (2 * longest) + 1);
  }

  /** One side scaled by `maxDim / longest`: the nearest whole number, but never 0. */
  predicate Proportional(scaled: nat, side: nat, longest: nat, maxDim: nat) {
    || 2 * (side * maxDim) - longest < 2 * longest * scaled <= 2 * (side * maxDim) + longest
    || (scaled == 1 && 2 * (side * maxDim) < longest)
  }

  lemma ScaledIsProportional(side: nat, longest: nat, maxDim: nat)
    requires longest > 0
    ensures Proportional(Scaled(side, longest, maxDim), side, longest, maxDim)
  {
    RoundsToNearest(side * maxDim, longest);
    hide RoundDiv;
    assert RoundDiv(side * maxDim, longest) == 0 ==> 2 * longest * RoundDiv(side * maxDim, longest) == 0;
  }

  /** The fitted size is in bounds, never larger than the input on either side, and
      a fixed point. A picture in bounds keeps its size; another keeps its
      proportions, its longer side filling the bound. */
  lemma FitBounds(w: nat, h: nat, maxDim: nat)
    requires w >= 1 && h >= 1 && maxDim >= 1
    ensures var (nw, nh) := Fit(w, h, maxDim);
            && 1 <= nw <= maxDim && 1 <= nh <= maxDim
            && nw <= w && nh <= h
            && Fit(nw, nh, maxDim) == (nw, nh)
            && (w <= maxDim && h <= maxDim ==> nw == w && nh == h)
            && (w > maxDim || h > maxDim ==>
                  && (if w >= h then nw == maxDim && Proportional(nh, h, w, maxDim)
                      else nh == maxDim && Proportional(nw, w, h, maxDim)))
  {
    if w > maxDim || h > maxDim {
      var longest := if w >= h then w else h;
      ScaledBounds(w, longest, maxDim);
      ScaledBounds(h, longest, maxDim);
      ScaledIsProportional(w, longest, maxDim);
      ScaledIsProportional(h, longest, maxDim);
    }
  }

  // ---- Decoding ------------------------------------------------------------------

  function Delay(f: RawFrame): nat {
    var ms := f.num / (if f.denom < 1 then 1 else f.denom);
    if ms < MIN_FRAME_MS then MIN_FRAME_MS else ms
  }

  function Pixels(i: Image): nat {
    i.width * i.height
  }

  function TotalPixels(fs: seq<Option<RawFrame>>): nat
    requires forall i :: 0 <= i < |fs| ==> fs[i].Some?
  {
    if fs == [] then 0 else TotalPixels(fs[..|fs| - 1]) + Pixels(fs[|fs| - 1].value.image)
  }

  predicate AllDecode(fs: seq<Option<RawFrame>>) {
    forall i :: 0 <= i < |fs| ==> fs[i].Some?
  }

  function FrameOf(f: RawFrame): Frame {
    Frame(f.image, Delay(f))
  }

  predicate WithinLimits(fs: seq<Option<RawFrame>>) {
    AllDecode(fs) && |fs| <= MAX_FRAMES && TotalPixels(fs) <= MAX_ANIM_PIXELS
  }

  function FirstFault(fs: seq<Option<RawFrame>>): Error
    requires !WithinLimits(fs)
    decreases |fs|
  {
    if WithinLimits(fs[..|fs| - 1]) then
      if fs[|fs| - 1].None? then NotAnImage else TooLarge
    else FirstFault(fs[..|fs| - 1])
  }

  /** All frames or the first fault: an animation passes exactly when every frame
      decodes and both limits hold for the whole of it. */
  function Collected(fs: seq<Option<RawFrame>>): Result<seq<Frame>> {
    if !WithinLimits(fs) then Err(FirstFault(fs))
    else if fs == [] then Err(NotAnImage)
    else Ok(seq(|fs|, i requires 0 <= i < |fs| => FrameOf(fs[i].value)))
  }

  /** `ms` is the delay the decoder gave, in whole milliseconds, or 20 if less. */
  predicate LastsFor(f: RawFrame, ms: nat) {
    var d := if f.denom == 0 then 1 else f.denom;
    if f.num < 20 * d then ms == 20 else ms * d <= f.num < ms * d + d
  }

  lemma DelayLasts(f: RawFrame)
    ensures LastsFor(f, Delay(f))
  {
    var d := if f.denom == 0 then 1 else f.denom;
    var q := f.num / d;
    assert f.num == d * q + f.num % d;
    if f.num < 20 * d {
      Cancel(d, q, 20);
    } else if q < 20 {
      MulMono(d, q + 1, 20);
    }
  }

  lemma CollectedFrames(fs: seq<Option<RawFrame>>)
    ensures Collected(fs).Ok? ==>
              var r := Collected(fs).value;
              && 1 <= |r| == |fs| <= 60
              && forall i :: 0 <= i < |fs| ==>
                   fs[i].Some? && r[i].image == fs[i].value.image && LastsFor(fs[i].value, r[i].ms)
  {
    if Collected(fs).Ok? {
      forall i | 0 <= i < |fs| {
        DelayLasts(fs[i].value);
      }
    }
    hide Delay, LastsFor;
  }

  method CollectFrames(fs: seq<Option<RawFrame>>) returns (r: Result<seq<Frame>>)
    ensures r == Collected(fs)
    ensures r.Ok? ==>
              && 1 <= |r.value| == |fs| <= 60
              && forall i :: 0 <= i < |fs| ==>
                   fs[i].Some? && r.value[i].image == fs[i].value.image && LastsFor(fs[i].value, r.value[i].ms)
  {
    CollectedFrames(fs);
    var out: seq<Frame> := [];
    var pixels := 0;
    var i := 0;
    while i < |fs|
      invariant i <= |fs| && WithinLimits(fs[..i])
      invariant pixels == TotalPixels(fs[..i])
      invariant out == seq(i, k requires 0 <= k < i => FrameOf(fs[..i][k].value))
    {
      var before := fs[..i];
      var upto := fs[..i + 1];
      assert upto[..i] == before;
      FaultIsFirst(fs, i + 1);
      if fs[i].None? {
        assert upto[i].None?;
        return Err(NotAnImage);
      }
      var f := fs[i].value;
      assert forall k :: 0 <= k < i ==> upto[k] == before[k];
      pixels := pixels + Pixels(f.image);
      if |out| >= MAX_FRAMES || pixels > MAX_ANIM_PIXELS {
        return Err(TooLarge);
      }
      out := out + [FrameOf(f)];
      i := i + 1;
    }
    assert fs[..i] == fs;
    if out == [] {
      return Err(NotAnImage);
    }
    return Ok(out);
  }

  lemma WithinPrefix(fs: seq<Option<RawFrame>>)
    requires fs != [] && WithinLimits(fs)
    ensures WithinLimits(fs[..|fs| - 1])
  {
  }

  /** A fault in a prefix is the fault of the whole. */
  lemma {:induction false} FaultIsFirst(fs: seq<Option<RawFrame>>, k: nat)
    requires k <= |fs|
    ensures !WithinLimits(fs[..k]) ==> !WithinLimits(fs) && FirstFault(fs) == FirstFault(fs[..k])
    decreases |fs| - k
  {
    if k == |fs| {
      assert fs[..k] == fs;
    } else {
      var more := fs[..k + 1];
      assert more[..k] == fs[..k];
      if WithinLimits(more) {
        WithinPrefix(more);
      }
      FaultIsFirst(fs, k + 1);
    }
  }

  function Decode(c: Codec, input: seq<byte>, f: Format, p: Profile): Result<seq<Frame>> {
    match c.open(input, f)
    case None => Err(NotAnImage)
    case Some(o) =>
      if o.width == 0 || o.height == 0 || o.width > p.maxInputDim || o.height > p.maxInputDim
         || o.width * o.height > p.maxInputPixels then Err(TooLarge)
      else if o.animated then Collected(o.frames)
      else if o.frames == [] || o.frames[0].None? then Err(NotAnImage)
      else Ok([Frame(o.frames[0].value.image, 0)])
  }

  // ---- Encoding an animation --------------------------------------------------------

  /** The `VP8L` chunk of a still, scanning chunk headers from `pos`. */
  function FindVp8l(w: seq<byte>, pos: nat): Option<Chunk>
    decreases |w| - pos
  {
    if pos + 8 > |w| then None
    else
      var n := Span(w[pos..]);
      if w[pos..pos + 4] == VP8L then
        if pos + n <= |w| then Some(w[pos..pos + n]) else None
      else FindVp8l(w, pos + n)
  }

  method Vp8lChunk(webp: seq<byte>) returns (r: Option<Chunk>)
    ensures r == FindVp8l(webp, 12)
  {
    var pos := 12;
    while pos + 8 <= |webp|
      invariant FindVp8l(webp, pos) == FindVp8l(webp, 12)
      decreases |webp| - pos
    {
      var size := FromLe(webp[pos + 4..pos + 8]);
      assert webp[pos..][4..8] == webp[pos + 4..pos + 8];
      var end := pos + 8 + size + size % 2;
      if webp[pos..pos + 4] == VP8L {
        return if end <= |webp| then Some(webp[pos..end]) else None;
      }
      pos := end;
    }
    return None;
  }

  lemma {:induction false} FoundIsVp8l(w: seq<byte>, pos: nat)
    requires FindVp8l(w, pos).Some?
    ensures var c := FindVp8l(w, pos).value; IsChunk(c) && Tag(c) == VP8L && |c| <= |w|
    decreases |w| - pos
  {
    hide FromLe;
    var n := Span(w[pos..]);
    if w[pos..pos + 4] == VP8L {
      SpanOfPrefix(w[pos..]);
      assert w[pos..][..n] == w[pos..pos + n];
      assert w[pos..pos + n][..4] == w[pos..pos + 4];
    } else {
      FoundIsVp8l(w, pos + n);
    }
  }

  function U24(v: nat): (bs: seq<byte>)
    ensures |bs| == 3
  {
    LeBytes(v % TWO32, 4)[..3]
  }

  /** `v - 1` on 32 bits. */
  function Minus1(v: nat): nat {
    if v == 0 then TWO32 - 1 else v - 1
  }

  function MakeChunk(tag: seq<byte>, payload: seq<byte>): Chunk
    requires |tag| == 4
  {
    tag + Le32(|payload|) + payload + (if |payload| % 2 == 1 then [0] else [])
  }

  lemma MakeChunkIsChunk(tag: seq<byte>, payload: seq<byte>)
    requires |tag| == 4 && |payload| < TWO32
    ensures var c := MakeChunk(tag, payload);
            && IsChunk(c) && Tag(c) == tag && Size(c) == |payload| && c[8..8 + |payload|] == payload
            && |c| <= |payload| + 9
  {
    FromLeOfLe32(|payload|);
    hide FromLe, Le32;
    ChunkSlices(tag, Le32(|payload|), payload, if |payload| % 2 == 1 then [0] else []);
  }

  lemma ChunkSlices(tag: seq<byte>, size: seq<byte>, payload: seq<byte>, pad: seq<byte>)
    requires |tag| == 4 && |size| == 4
    ensures var c := tag + size + payload + pad;
            && |c| == 8 + |payload| + |pad|
            && c[..4] == tag && c[4..8] == size && c[8..8 + |payload|] == payload
  {
  }

  predicate HasAlpha(frames: seq<Frame>) {
    exists i, j :: 0 <= i < |frames| && 0 <= j < |frames[i].image.pixels| && frames[i].image.pixels[j].a != 255
  }

  function Vp8xPayload(alpha: bool, w: nat, h: nat): seq<byte>
  {
    [if alpha then 0x12 else 0x02, 0, 0, 0] + U24(Minus1(w)) + U24(Minus1(h))
  }

  function AnmfPayload(f: Frame, w: nat, h: nat, vp8l: Chunk): seq<byte>
  {
    [0, 0, 0, 0, 0, 0] + U24(Minus1(w)) + U24(Minus1(h)) + U24(if f.ms < MAX_U24 then f.ms else MAX_U24) + [0x02] + vp8l
  }

  /** The chunk written for a frame. */
  function Written(c: Codec, f: Frame, w: nat, h: nat): Option<Chunk> {
    match c.encodeStill(f.image)
    case None => None
    case Some(still) =>
      match FindVp8l(still, 12)
      case None => None
      case Some(vp8l) => Some(MakeChunk(ANMF, AnmfPayload(f, w, h, vp8l)))
  }

  /** The frame chunks, or `None` if a frame will not encode. */
  function AnmfChunks(c: Codec, frames: seq<Frame>, w: nat, h: nat): Option<seq<Chunk>>
  {
    if frames == [] then Some([])
    else
      var k := |frames| - 1;
      match AnmfChunks(c, frames[..k], w, h)
      case None => None
      case Some(done) =>
        match Written(c, frames[k], w, h)
        case None => None
        case Some(x) => Some(done + [x])
  }

  lemma WrittenLast(c: Codec, frames: seq<Frame>, w: nat, h: nat)
    requires frames != [] && AnmfChunks(c, frames, w, h).Some?
    ensures var k := |frames| - 1;
            && AnmfChunks(c, frames[..k], w, h).Some? && Written(c, frames[k], w, h).Some?
            && AnmfChunks(c, frames, w, h).value ==
               AnmfChunks(c, frames[..k], w, h).value + [Written(c, frames[k], w, h).value]
  {
  }

  lemma AnmfChunksNext(c: Codec, frames: seq<Frame>, w: nat, h: nat, i: nat)
    requires i < |frames| && AnmfChunks(c, frames[..i], w, h).Some?
    ensures AnmfChunks(c, frames[..i + 1], w, h) ==
            match Written(c, frames[i], w, h)
            case None => None
            case Some(x) => Some(AnmfChunks(c, frames[..i], w, h).value + [x])
    ensures Written(c, frames[i], w, h).None? ==> AnmfChunks(c, frames, w, h).None?
  {
    assert frames[..i + 1][..i] == frames[..i];
    hide Written;
    NoneStays(c, frames, w, h, i + 1);
  }

  function Headed(c: Codec, frames: seq<Frame>, w: nat, h: nat, anmfs: seq<Chunk>): seq<Chunk>
  {
    [MakeChunk(VP8X, Vp8xPayload(HasAlpha(frames), w, h)), MakeChunk(ANIM, [0, 0, 0, 0, 0, 0])] + anmfs
  }

  function Animated(c: Codec, frames: seq<Frame>, w: nat, h: nat): Option<seq<byte>>
  {
    match AnmfChunks(c, frames, w, h)
    case None => None
    case Some(anmfs) => Some(Print(Headed(c, frames, w, h, anmfs)))
  }

  /** One frame: its still, the still's bitstream, and the chunk around it. */
  method AppendAnmf(c: Codec, f: Frame, w: nat, h: nat, body: seq<byte>) returns (r: Option<seq<byte>>)
    ensures r == match Written(c, f, w, h) case None => None case Some(x) => Some(body + x)
  {
    hide MakeChunk, AnmfPayload, FindVp8l;
    var still := c.encodeStill(f.image);
    if still.None? {
      return None;
    }
    var vp8l := Vp8lChunk(still.value);
    if vp8l.None? {
      return None;
    }
    return Some(body + MakeChunk(ANMF, AnmfPayload(f, w, h, vp8l.value)));
  }

  method EncodeAnimation(c: Codec, frames: seq<Frame>, w: nat, h: nat) returns (r: Option<seq<byte>>)
    ensures r == Animated(c, frames, w, h)
  {
    var alpha := HasAlpha(frames);
    var body := WEBP;
    body := body + MakeChunk(VP8X, Vp8xPayload(alpha, w, h));
    body := body + MakeChunk(ANIM, [0, 0, 0, 0, 0, 0]);
    ghost var anmfs: seq<Chunk> := [];
    HeadedBody(c, frames, w, h);
    assert frames[..0] == [] && AnmfChunks(c, [], w, h) == Some([]);
    var i := 0;
    hide FromLe, Le32, LeBytes, AnmfChunks, MakeChunk, Vp8xPayload, HasAlpha, Headed, Join, Written;
    while i < |frames|
      invariant i <= |frames| && AnmfChunks(c, frames[..i], w, h) == Some(anmfs)
      invariant body == WEBP + Join(Headed(c, frames, w, h, anmfs))
    {
      AnmfChunksNext(c, frames, w, h, i);
      var next := AppendAnmf(c, frames[i], w, h, body);
      if next.None? {
        return None;
      }
      ghost var x := Written(c, frames[i], w, h).value;
      HeadedAppend(c, frames, w, h, anmfs, x);
      anmfs := anmfs + [x];
      body := next.value;
      i := i + 1;
    }
    assert frames[..i] == frames;
    PrintBody(Headed(c, frames, w, h, anmfs), body);
    return Some(RIFF + Le32(|body|) + body);
  }

  lemma HeadedBody(c: Codec, frames: seq<Frame>, w: nat, h: nat)
    ensures WEBP + Join(Headed(c, frames, w, h, [])) ==
            WEBP + MakeChunk(VP8X, Vp8xPayload(HasAlpha(frames), w, h)) + MakeChunk(ANIM, [0, 0, 0, 0, 0, 0])
  {
    hide MakeChunk, HasAlpha, Vp8xPayload, LeBytes;
    var a, b := MakeChunk(VP8X, Vp8xPayload(HasAlpha(frames), w, h)), MakeChunk(ANIM, [0, 0, 0, 0, 0, 0]);
    assert Headed(c, frames, w, h, []) == [a] + [b];
    JoinAppend([a], [b]);
    JoinOne(a);
    JoinOne(b);
  }

  lemma HeadedAppend(c: Codec, frames: seq<Frame>, w: nat, h: nat, anmfs: seq<Chunk>, x: Chunk)
    ensures WEBP + Join(Headed(c, frames, w, h, anmfs + [x])) == (WEBP + Join(Headed(c, frames, w, h, anmfs))) + x
  {
    hide MakeChunk, HasAlpha, Vp8xPayload, LeBytes;
    assert Headed(c, frames, w, h, anmfs + [x]) == Headed(c, frames, w, h, anmfs) + [x];
    JoinAppend(Headed(c, frames, w, h, anmfs), [x]);
    JoinOne(x);
    hide Join, Headed;
  }

  lemma {:induction false} NoneStays(c: Codec, frames: seq<Frame>, w: nat, h: nat, k: nat)
    requires k <= |frames|
    ensures AnmfChunks(c, frames[..k], w, h).None? ==> AnmfChunks(c, frames, w, h).None?
    decreases |frames| - k
  {
    if k == |frames| {
      assert frames[..k] == frames;
    } else {
      assert frames[..k + 1][..k] == frames[..k];
      NoneStays(c, frames, w, h, k + 1);
    }
  }
}
