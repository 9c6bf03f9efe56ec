/** Canonical images are fixed points: what the pipeline stored, the pipeline
    stores again unchanged, so that a copy hashes the same on every hub. */
module CanonicalFixpoint {
  import opened Bytes
  import opened WebpContainer
  import opened CanonicalImage
  import opened AnimationWriter
  import opened AnimationReader

  // ---- What is asked of the codecs ------------------------------------------------

  /** Anything that starts as a WebP file is recognised as one. */
  ghost predicate RecognisesWebp(c: Codec) {
    forall w :: HasHeader(w) ==> c.guess(w) == Some(WebP)
  }

  /** The decoder sees no difference once the metadata chunks are gone. */
  ghost predicate IgnoresMetadata(c: Codec) {
    forall w :: Stripped(w).Some? && c.open(w, WebP).Some? ==>
      c.open(Stripped(w).value, WebP) == c.open(w, WebP)
  }

  predicate IsFullCanvas(o: Opened) {
    forall i :: 0 <= i < |o.frames| && o.frames[i].Some? ==>
      o.frames[i].value.image.width == o.width && o.frames[i].value.image.height == o.height
  }

  /** Every frame comes composited to the full canvas. */
  ghost predicate YieldsFullCanvas(c: Codec) {
    forall w, f :: c.open(w, f).Some? ==> IsFullCanvas(c.open(w, f).value)
  }

  ghost predicate ResizesExactly(c: Codec) {
    forall i, w, h :: c.resize(i, w, h).width == w && c.resize(i, w, h).height == h
  }

  /** A decoder can play it: it is within the limits of the hub, every frame fills
      the canvas and its bitstream decodes to just that size. */
  predicate Playable(c: Codec, a: Animation) {
    && a.frames != [] && |a.frames| <= MAX_FRAMES && |a.frames| * (a.width * a.height) <= MAX_ANIM_PIXELS
    && forall i :: 0 <= i < |a.frames| ==>
         var f := a.frames[i];
         && f.x == 0 && f.y == 0 && f.width == a.width && f.height == a.height
         && c.lossless(f.data).Some?
         && c.lossless(f.data).value.width == f.width && c.lossless(f.data).value.height == f.height
  }

  predicate OpensAs(o: Option<Opened>, a: Animation) {
    && o.Some? && o.value.width == a.width && o.value.height == a.height && o.value.animated
    && |o.value.frames| == |a.frames| && AllDecode(o.value.frames)
  }

  /** The decoder opens every file without metadata that reads as an animation it
      can play, with its canvas and all of its frames. */
  ghost predicate OpensAnimations(c: Codec) {
    forall w :: Stripped(w) == Some(w) && ReadAnimation(w).Some? && Playable(c, ReadAnimation(w).value) ==>
      OpensAs(c.open(w, WebP), ReadAnimation(w).value)
  }

  ghost predicate Sound(c: Codec) {
    && RecognisesWebp(c) && IgnoresMetadata(c) && YieldsFullCanvas(c)
    && ResizesExactly(c) && EncodesStills(c) && OpensAnimations(c)
  }

  // ---- The pipeline ---------------------------------------------------------------

  function Resized(c: Codec, frames: seq<Frame>, w: nat, h: nat, nw: nat, nh: nat): (r: seq<Frame>)
    ensures |r| == |frames|
  {
    seq(|frames|, i requires 0 <= i < |frames| =>
      if nw == w && nh == h then frames[i] else Frame(c.resize(frames[i].image, nw, nh), frames[i].ms))
  }

  function Encoded(c: Codec, frames: seq<Frame>, nw: nat, nh: nat, jpeg: bool): Option<seq<byte>>
    requires frames != []
  {
    if jpeg then c.encodeJpeg(frames[0].image)
    else if |frames| == 1 then c.encodeStill(frames[0].image)
    else Animated(c, frames, nw, nh)
  }

  function Canonicalize(c: Codec, input: seq<byte>, maxBytes: nat, p: Profile): Result<Canonical> {
    if |input| > maxBytes then Err(TooLarge)
    else
      match c.guess(input)
      case None => Err(NotAnImage)
      case Some(f) =>
        if f == OtherFormat then Err(NotAnImage)
        else
          match Decode(c, input, f, p)
          case Err(e) => Err(e)
          case Ok(frames) =>
            var w, h := frames[0].image.width, frames[0].image.height;
            if f == WebP && w <= p.maxDim && h <= p.maxDim && Stripped(input).Some? then
              Ok(Canonical(Stripped(input).value, true, w, h))
            else
              var (nw, nh) := Fit(w, h, p.maxDim);
              var jpeg := p.jpegStaysJpeg && f == Jpeg;
              match Encoded(c, Resized(c, frames, w, h, nw, nh), nw, nh, jpeg)
              case None => Err(NotAnImage)
              case Some(bytes) =>
                if |bytes| > maxBytes then Err(TooLarge) else Ok(Canonical(bytes, !jpeg, nw, nh))
  }

  // ---- The fixpoint --------------------------------------------------------------------

  lemma {:induction false} UniformTotal(fs: seq<Option<RawFrame>>, w: nat, h: nat)
    requires AllDecode(fs)
    requires forall i :: 0 <= i < |fs| ==> fs[i].value.image.width == w && fs[i].value.image.height == h
    ensures TotalPixels(fs) == |fs| * (w * h)
    decreases |fs|
  {
    if fs != [] {
      var k := |fs| - 1;
      UniformTotal(fs[..k], w, h);
      assert |fs| * (w * h) == k * (w * h) + w * h;
    }
  }

  /** What decoding guarantees: uniform frames within every limit. */
  lemma DecodedIsUniform(c: Codec, input: seq<byte>, f: Format, p: Profile)
    requires Sound(c) && Decode(c, input, f, p).Ok?
    ensures var frames := Decode(c, input, f, p).value;
            && frames != []
            && var w, h := frames[0].image.width, frames[0].image.height;
               && 1 <= w <= p.maxInputDim && 1 <= h <= p.maxInputDim && w * h <= p.maxInputPixels
               && Uniform(frames, w, h)
               && (|frames| > 1 ==> |frames| <= MAX_FRAMES && |frames| * (w * h) <= MAX_ANIM_PIXELS)
  {
    var o := c.open(input, f).value;
    assert IsFullCanvas(o);
    if o.animated {
      UniformTotal(o.frames, o.width, o.height);
    }
  }

  lemma ReopenedStill(c: Codec, i: Image, maxBytes: nat, p: Profile)
    requires Sound(c) && c.encodeStill(i).Some?
    requires 1 <= i.width <= p.maxInputDim && 1 <= i.height <= p.maxInputDim && Pixels(i) <= p.maxInputPixels
    requires i.width <= p.maxDim && i.height <= p.maxDim
    requires |c.encodeStill(i).value| <= maxBytes
    ensures var b := c.encodeStill(i).value;
            Canonicalize(c, b, maxBytes, p) == Ok(Canonical(b, true, i.width, i.height))
  {
    var b := c.encodeStill(i).value;
    assert StillOk(c, i, b);
    StrippedIsIdentityIff(b);
    var o := c.open(b, WebP).value;
    assert IsFullCanvas(o);
    assert HasHeader(b);
    hide Stripped, Container, IsClean;
    assert Decode(c, b, WebP, p) == Ok([Frame(o.frames[0].value.image, 0)]);
  }

  /** An animation the writer wrote is one the decoder can play. */
  lemma WrittenIsPlayable(c: Codec, frames: seq<Frame>, w: nat, h: nat)
    requires EncodesStills(c) && |frames| > 1 && Uniform(frames, w, h) && w >= 1 && h >= 1
    requires |frames| <= MAX_FRAMES && |frames| * (w * h) <= MAX_ANIM_PIXELS
    requires Animated(c, frames, w, h).Some?
    ensures var a := ReadAnimation(Animated(c, frames, w, h).value);
            && a.Some? && Playable(c, a.value)
            && a.value.width == w && a.value.height == h && |a.value.frames| == |frames|
  {
    AnimationRoundTrip(c, frames, w, h);
    hide Animated, ReadAnimation;
    var a := ReadAnimation(Animated(c, frames, w, h).value).value;
    forall i | 0 <= i < |a.frames|
      ensures var f := a.frames[i];
              && f.x == 0 && f.y == 0 && f.width == a.width && f.height == a.height
              && c.lossless(f.data).Some?
              && c.lossless(f.data).value.width == f.width && c.lossless(f.data).value.height == f.height
    {
      assert Some(a.frames[i]) == Shown(c, frames[i], w, h);
      assert StillOk(c, frames[i].image, c.encodeStill(frames[i].image).value);
    }
  }

  lemma ReopenedAnimation(c: Codec, frames: seq<Frame>, w: nat, h: nat, maxBytes: nat, p: Profile)
    requires Sound(c) && |frames| > 1 && Uniform(frames, w, h) && Animated(c, frames, w, h).Some?
    requires 1 <= w <= p.maxInputDim && 1 <= h <= p.maxInputDim && w * h <= p.maxInputPixels
    requires w <= p.maxDim && h <= p.maxDim
    requires |frames| <= MAX_FRAMES && |frames| * (w * h) <= MAX_ANIM_PIXELS
    requires |Animated(c, frames, w, h).value| <= maxBytes
    ensures var b := Animated(c, frames, w, h).value;
            Canonicalize(c, b, maxBytes, p) == Ok(Canonical(b, true, w, h))
  {
    var b := Animated(c, frames, w, h).value;
    AnimationIsClean(c, frames, w, h);
    WrittenIsPlayable(c, frames, w, h);
    assert HasHeader(b);
    hide Stripped, Container, Animated, ReadAnimation, Playable, EncodesStills, IgnoresMetadata;
    assert OpensAs(c.open(b, WebP), ReadAnimation(b).value);
    var o := c.open(b, WebP).value;
    assert IsFullCanvas(o) && c.guess(b) == Some(WebP);
    hide Sound, Canonicalize, Decode;
    AnimationDecodes(c, b, w, h, p);
    KeptAsItIs(c, b, maxBytes, p);
  }

  lemma AnimationDecodes(c: Codec, b: seq<byte>, w: nat, h: nat, p: Profile)
    requires 1 <= w <= p.maxInputDim && 1 <= h <= p.maxInputDim && w * h <= p.maxInputPixels
    requires c.open(b, WebP).Some?
    requires var o := c.open(b, WebP).value;
             && o.width == w && o.height == h && o.animated && IsFullCanvas(o)
             && AllDecode(o.frames) && 0 < |o.frames| <= MAX_FRAMES && |o.frames| * (w * h) <= MAX_ANIM_PIXELS
    ensures var d := Decode(c, b, WebP, p);
            d.Ok? && d.value != [] && d.value[0].image.width == w && d.value[0].image.height == h
  {
    var o := c.open(b, WebP).value;
    UniformTotal(o.frames, w, h);
    assert Decode(c, b, WebP, p) == Collected(o.frames);
    hide Decode, TotalPixels;
  }

  /** A clean WebP in bounds is its own canonical form. */
  lemma KeptAsItIs(c: Codec, b: seq<byte>, maxBytes: nat, p: Profile)
    requires |b| <= maxBytes && c.guess(b) == Some(WebP) && Stripped(b) == Some(b)
    requires Decode(c, b, WebP, p).Ok?
    requires var fs := Decode(c, b, WebP, p).value;
             fs != [] && fs[0].image.width <= p.maxDim && fs[0].image.height <= p.maxDim
    ensures var i := Decode(c, b, WebP, p).value[0].image;
            Canonicalize(c, b, maxBytes, p) == Ok(Canonical(b, true, i.width, i.height))
  {
    hide Stripped, Decode, Encoded, Fit;
  }

  lemma ReopenedStripped(c: Codec, input: seq<byte>, maxBytes: nat, p: Profile)
    requires Sound(c) && |input| <= maxBytes && Stripped(input).Some? && Decode(c, input, WebP, p).Ok?
    requires var frames := Decode(c, input, WebP, p).value;
             frames != [] && frames[0].image.width <= p.maxDim && frames[0].image.height <= p.maxDim
    ensures var b := Stripped(input).value;
            var i := Decode(c, input, WebP, p).value[0].image;
            Canonicalize(c, b, maxBytes, p) == Ok(Canonical(b, true, i.width, i.height))
  {
    var b := Stripped(input).value;
    StrippedIsCleanContainer(input);
    StrippedTwice(input);
    assert HasHeader(b);
    assert c.open(b, WebP) == c.open(input, WebP);
  }

  lemma ReopenedEncoded(c: Codec, fs: seq<Frame>, w: nat, h: nat, maxBytes: nat, p: Profile)
    requires Sound(c) && fs != [] && Uniform(fs, w, h) && Encoded(c, fs, w, h, false).Some?
    requires 1 <= w <= p.maxInputDim && 1 <= h <= p.maxInputDim && w * h <= p.maxInputPixels
    requires w <= p.maxDim && h <= p.maxDim
    requires |fs| > 1 ==> |fs| <= MAX_FRAMES && |fs| * (w * h) <= MAX_ANIM_PIXELS
    requires |Encoded(c, fs, w, h, false).value| <= maxBytes
    ensures var b := Encoded(c, fs, w, h, false).value;
            Canonicalize(c, b, maxBytes, p) == Ok(Canonical(b, true, w, h))
  {
    hide Sound, Canonicalize, Animated;
    if |fs| == 1 {
      ReopenedStill(c, fs[0].image, maxBytes, p);
    } else {
      ReopenedAnimation(c, fs, w, h, maxBytes, p);
    }
  }

  lemma Shrinks(n: nat, w: nat, h: nat, nw: nat, nh: nat)
    requires nw <= w && nh <= h
    ensures nw * nh <= w * h
    ensures n * (nw * nh) <= n * (w * h)
  {
    MulMono(nw, nh, h);
    MulMono(h, nw, w);
    MulMono(n, nw * nh, w * h);
  }

  /** Whatever WebP the pipeline produced, for any input, limit and profile, the
      pipeline reproduces from it byte for byte. */
  lemma CanonicalIsFixpoint(c: Codec, input: seq<byte>, maxBytes: nat, p: Profile)
    requires Sound(c) && p.maxDim >= 1
    requires Canonicalize(c, input, maxBytes, p).Ok? && Canonicalize(c, input, maxBytes, p).value.webp
    ensures var r := Canonicalize(c, input, maxBytes, p);
            && Canonicalize(c, r.value.bytes, maxBytes, p) == r
            && 1 <= r.value.width <= p.maxDim && 1 <= r.value.height <= p.maxDim
  {
    var f := c.guess(input).value;
    DecodedIsUniform(c, input, f, p);
    var frames := Decode(c, input, f, p).value;
    var w, h := frames[0].image.width, frames[0].image.height;
    FitBounds(w, h, p.maxDim);
    if f == WebP && w <= p.maxDim && h <= p.maxDim && Stripped(input).Some? {
      ReopenedStripped(c, input, maxBytes, p);
    } else {
      var (nw, nh) := Fit(w, h, p.maxDim);
      var fs := Resized(c, frames, w, h, nw, nh);
      hide Stripped, Container, Decode, Fit, Sound, Encoded;
      Shrinks(|frames|, w, h, nw, nh);
      ResizedIsUniform(c, frames, w, h, nw, nh);
      ReopenedEncoded(c, fs, nw, nh, maxBytes, p);
    }
  }

  lemma ResizedIsUniform(c: Codec, frames: seq<Frame>, w: nat, h: nat, nw: nat, nh: nat)
    requires Sound(c) && Uniform(frames, w, h)
    ensures Uniform(Resized(c, frames, w, h, nw, nh), nw, nh)
  {
  }

  // ---- What becomes of a picture ---------------------------------------------------------

  /** The decoder's answer is within the profile: each side, the pixels of the
      canvas, and for an animation at most 60 frames of 16,777,216 pixels in all. */
  predicate Admitted(o: Opened, p: Profile) {
    && 1 <= o.width <= p.maxInputDim && 1 <= o.height <= p.maxInputDim && o.width * o.height <= p.maxInputPixels
    && o.frames != [] && o.frames[0].Some?
    && (o.animated ==>
          && |o.frames| <= 60 && |o.frames| * (o.width * o.height) <= 16_777_216
          && forall i :: 0 <= i < |o.frames| ==> o.frames[i].Some?)
  }

  lemma DecodesIff(c: Codec, input: seq<byte>, f: Format, p: Profile)
    requires YieldsFullCanvas(c)
    ensures Decode(c, input, f, p).Ok? <==> c.open(input, f).Some? && Admitted(c.open(input, f).value, p)
  {
    if c.open(input, f).Some? {
      var o := c.open(input, f).value;
      assert IsFullCanvas(o);
      if AllDecode(o.frames) {
        UniformTotal(o.frames, o.width, o.height);
      }
    }
    hide TotalPixels;
  }

  /** A WebP in bounds and well-formed needs no new encoding. */
  predicate StaysAsItIs(c: Codec, input: seq<byte>, p: Profile) {
    && c.guess(input) == Some(WebP) && Container(input).Some? && c.open(input, WebP).Some?
    && c.open(input, WebP).value.width <= p.maxDim && c.open(input, WebP).value.height <= p.maxDim
  }

  /** The frames decoded from an opened picture: all of an animation, or the first. */
  predicate FramesOf(o: Opened, fs: seq<Frame>) {
    && 1 <= |fs| == (if o.animated then |o.frames| else 1) <= |o.frames|
    && fs[0].image.width == o.width && fs[0].image.height == o.height
    && forall i :: 0 <= i < |fs| ==>
         && o.frames[i].Some? && fs[i].image == o.frames[i].value.image
         && if o.animated then LastsFor(o.frames[i].value, fs[i].ms) else fs[i].ms == 0
  }

  lemma DecodedFrames(c: Codec, input: seq<byte>, f: Format, p: Profile)
    requires Sound(c) && Decode(c, input, f, p).Ok?
    ensures c.open(input, f).Some? && FramesOf(c.open(input, f).value, Decode(c, input, f, p).value)
  {
    DecodesIff(c, input, f, p);
    var o := c.open(input, f).value;
    assert IsFullCanvas(o);
    if o.animated {
      CollectedFrames(o.frames);
    }
    hide Collected, LastsFor;
  }

  /** What goes into the new file for a frame: the picture itself, or what the
      resizer makes of it. */
  function Fitted(c: Codec, i: Image, w: nat, h: nat): Image {
    if i.width == w && i.height == h then i else c.resize(i, w, h)
  }

  lemma ResizedAre(c: Codec, frames: seq<Frame>, w: nat, h: nat, nw: nat, nh: nat)
    requires Uniform(frames, w, h)
    ensures forall i :: 0 <= i < |frames| ==>
              Resized(c, frames, w, h, nw, nh)[i] == Frame(Fitted(c, frames[i].image, nw, nh), frames[i].ms)
  {
  }

  /** The new encoding of a picture that is not kept. */
  function NewFile(c: Codec, input: seq<byte>, p: Profile): Option<seq<byte>>
    requires Sound(c) && c.guess(input).Some? && Decode(c, input, c.guess(input).value, p).Ok?
  {
    var f := c.guess(input).value;
    var fs := Decode(c, input, f, p).value;
    DecodedIsUniform(c, input, f, p);
    var w, h := fs[0].image.width, fs[0].image.height;
    var (nw, nh) := Fit(w, h, p.maxDim);
    Encoded(c, Resized(c, fs, w, h, nw, nh), nw, nh, p.jpegStaysJpeg && f == Jpeg)
  }

  /** Accepted are exactly the files within the size limit, of one of the four
      formats, that open within the profile, and of which the new encoding is
      within the limit too unless they can stay as they are. */
  lemma AcceptedIff(c: Codec, input: seq<byte>, maxBytes: nat, p: Profile)
    requires Sound(c)
    ensures c.guess(input).Some? && c.open(input, c.guess(input).value).Some?
            && Admitted(c.open(input, c.guess(input).value).value, p) ==>
              Decode(c, input, c.guess(input).value, p).Ok?
    ensures var r := Canonicalize(c, input, maxBytes, p);
            r.Ok? <==>
              && |input| <= maxBytes
              && c.guess(input).Some? && c.guess(input).value in {Png, Jpeg, Gif, WebP}
              && c.open(input, c.guess(input).value).Some?
              && Admitted(c.open(input, c.guess(input).value).value, p)
              && (|| StaysAsItIs(c, input, p)
                  || (NewFile(c, input, p).Some? && |NewFile(c, input, p).value| <= maxBytes))
  {
    StrippedIsCleanContainer(input);
    if c.guess(input).Some? {
      var f := c.guess(input).value;
      DecodesIff(c, input, f, p);
      if Decode(c, input, f, p).Ok? {
        DecodedFrames(c, input, f, p);
        DecodedIsUniform(c, input, f, p);
      }
      hide Admitted, Decode, Stripped, Container, Encoded, Fit, Resized, Sound, LastsFor;
    }
  }

  /** The file shows these frames: a JPEG or a still the first, an animation all of
      them, each with its delay and the bitstream of its own still. */
  predicate Depicts(c: Codec, bytes: seq<byte>, webp: bool, o: Opened, w: nat, h: nat)
    requires o.frames != [] && o.frames[0].Some?
  {
    var first := Fitted(c, o.frames[0].value.image, w, h);
    if !webp then c.encodeJpeg(first) == Some(bytes)
    else if !o.animated || |o.frames| == 1 then c.encodeStill(first) == Some(bytes)
    else
      && ReadAnimation(bytes).Some?
      && var a := ReadAnimation(bytes).value;
         && a.width == w && a.height == h && a.loops == 0 && |a.frames| == |o.frames|
         && forall i :: 0 <= i < |a.frames| ==>
              && o.frames[i].Some?
              && DepictsFrame(c, a.frames[i], o.frames[i].value, w, h)
  }

  predicate DepictsFrame(c: Codec, shown: ReadFrame, f: RawFrame, w: nat, h: nat) {
    && shown.x == 0 && shown.y == 0 && shown.width == w && shown.height == h && shown.noBlend && !shown.dispose
    && (LastsFor(f, shown.ms) || (shown.ms == MAX_U24 && f.num >= MAX_U24 * f.denom))
    && c.encodeStill(Fitted(c, f.image, w, h)).Some?
    && FindVp8l(c.encodeStill(Fitted(c, f.image, w, h)).value, 12) == Some(shown.data)
  }

  lemma ShownDepicts(c: Codec, shown: ReadFrame, f: RawFrame, ms: nat, w: nat, h: nat)
    requires Some(shown) == Shown(c, Frame(Fitted(c, f.image, w, h), ms), w, h) && LastsFor(f, ms)
    ensures DepictsFrame(c, shown, f, w, h)
  {
    hide Fitted, FindVp8l;
    if ms > MAX_U24 {
      MulMono(if f.denom == 0 then 1 else f.denom, MAX_U24, ms);
    }
  }

  lemma AnimationDepicts(c: Codec, o: Opened, rs: seq<Frame>, w: nat, h: nat)
    requires EncodesStills(c) && Uniform(rs, w, h) && w >= 1 && h >= 1 && Animated(c, rs, w, h).Some?
    requires 1 < |rs| == |o.frames| <= MAX_FRAMES && |rs| * (w * h) <= MAX_ANIM_PIXELS && o.animated
    requires forall i :: 0 <= i < |rs| ==>
               && o.frames[i].Some? && rs[i].image == Fitted(c, o.frames[i].value.image, w, h)
               && LastsFor(o.frames[i].value, rs[i].ms)
    ensures Depicts(c, Animated(c, rs, w, h).value, true, o, w, h)
  {
    AnimationRoundTrip(c, rs, w, h);
    hide Animated, ReadAnimation, Fitted, LastsFor, Shown, DepictsFrame, EncodesStills, HasAlpha, Uniform;
    var a := ReadAnimation(Animated(c, rs, w, h).value).value;
    forall i | 0 <= i < |a.frames|
      ensures o.frames[i].Some? && DepictsFrame(c, a.frames[i], o.frames[i].value, w, h)
    {
      var f := o.frames[i].value;
      assert rs[i] == Frame(Fitted(c, f.image, w, h), rs[i].ms);
      ShownDepicts(c, a.frames[i], f, rs[i].ms, w, h);
    }
  }

  lemma EncodedDepicts(c: Codec, o: Opened, fs: seq<Frame>, w: nat, h: nat, jpeg: bool)
    requires Sound(c) && FramesOf(o, fs) && Uniform(fs, o.width, o.height)
    requires 1 <= w <= o.width && 1 <= h <= o.height
    requires |fs| > 1 ==> |fs| <= MAX_FRAMES && |fs| * (o.width * o.height) <= MAX_ANIM_PIXELS
    requires Encoded(c, Resized(c, fs, o.width, o.height, w, h), w, h, jpeg).Some?
    ensures Depicts(c, Encoded(c, Resized(c, fs, o.width, o.height, w, h), w, h, jpeg).value, !jpeg, o, w, h)
  {
    var rs := Resized(c, fs, o.width, o.height, w, h);
    ResizedAre(c, fs, o.width, o.height, w, h);
    ResizedIsUniform(c, fs, o.width, o.height, w, h);
    hide Resized, Fitted, LastsFor, Animated, ReadAnimation, DepictsFrame;
    if !jpeg && |fs| > 1 {
      Shrinks(|fs|, o.width, o.height, w, h);
      AnimationDepicts(c, o, rs, w, h);
    }
  }

  /** What a picture becomes: the very file without its metadata when it is a WebP
      in bounds, and otherwise a new file of the same frames in the same order,
      scaled in proportion and only if a side is over the bound. */
  lemma CanonicalDepicts(c: Codec, input: seq<byte>, maxBytes: nat, p: Profile)
    requires Sound(c) && p.maxDim >= 1 && Canonicalize(c, input, maxBytes, p).Ok?
    ensures c.guess(input).Some? && c.open(input, c.guess(input).value).Some?
    ensures var r, f := Canonicalize(c, input, maxBytes, p).value, c.guess(input).value;
            var o := c.open(input, f).value;
            && Admitted(o, p) && |r.bytes| <= maxBytes
            && r.webp == !(p.jpegStaysJpeg && f == Jpeg)
            && (if o.width <= p.maxDim && o.height <= p.maxDim then r.width == o.width && r.height == o.height
                else if o.width >= o.height then r.width == p.maxDim && Proportional(r.height, o.height, o.width, p.maxDim)
                else r.height == p.maxDim && Proportional(r.width, o.width, o.height, p.maxDim))
            && (if StaysAsItIs(c, input, p) then Stripped(input) == Some(r.bytes)
                else Depicts(c, r.bytes, r.webp, o, r.width, r.height))
  {
    var f := c.guess(input).value;
    var o := c.open(input, f).value;
    StrippedIsCleanContainer(input);
    DecodesIff(c, input, f, p);
    DecodedFrames(c, input, f, p);
    DecodedIsUniform(c, input, f, p);
    FitBounds(o.width, o.height, p.maxDim);
    hide Decode, Fit, Stripped, Container, Encoded, Depicts, Proportional, Resized, Sound, Uniform;
    var fs := Decode(c, input, f, p).value;
    assert fs[0].image.width == o.width && fs[0].image.height == o.height;
    if StaysAsItIs(c, input, p) {
      assert |Stripped(input).value| <= |input|;
    } else {
      var (w, h) := Fit(o.width, o.height, p.maxDim);
      EncodedDepicts(c, o, fs, w, h, p.jpegStaysJpeg && f == Jpeg);
    }
  }
}
