/** A codec of single-pixel images that meets everything asked of the codecs:
    the fixpoint theorem is not about nothing. */
module DotCodec {
  import opened Bytes
  import opened WebpContainer
  import opened CanonicalImage
  import opened AnimationWriter
  import opened AnimationReader
  import opened CanonicalFixpoint

  const DOT: Image := Image(1, 1, [Pixel(0, 0, 0, 255)])

  function Dots(n: nat): (fs: seq<Option<RawFrame>>)
    ensures |fs| == n
    ensures forall i :: 0 <= i < n ==> fs[i] == Some(RawFrame(DOT, 0, 1))
  {
    seq(n, i => Some(RawFrame(DOT, 0, 1)))
  }

  /** An animation of single pixels. */
  predicate IsDots(a: Animation) {
    && a.frames != [] && a.width == 1 && a.height == 1
    && forall i :: 0 <= i < |a.frames| ==>
         a.frames[i].x == 0 && a.frames[i].y == 0 && a.frames[i].width == 1 && a.frames[i].height == 1
  }

  /** Opens every well-formed file: those that read as such an animation with all
      of their frames, the others as a still. */
  function OpenDots(w: seq<byte>): Option<Opened> {
    match Stripped(w)
    case None => None
    case Some(b) =>
      match ReadAnimation(b)
      case None => Some(Opened(1, 1, false, Dots(1)))
      case Some(a) => Some(if IsDots(a) then Opened(1, 1, true, Dots(|a.frames|)) else Opened(1, 1, false, Dots(1)))
  }

  function DotStill(): seq<byte> {
    Print([MakeChunk(VP8L, [])])
  }

  function Dotty(): Codec {
    Codec(
      (w: seq<byte>) => if HasHeader(w) then Some(WebP) else None,
      (w: seq<byte>, f: Format) => OpenDots(w),
      (i: Image, w: nat, h: nat) => Image(w, h, []),
      (i: Image) => if i.width == 1 && i.height == 1 then Some(DotStill()) else None,
      (c: Chunk) => Some(DOT),
      (i: Image) => None)
  }

  lemma OpensStripped(w: seq<byte>)
    requires Stripped(w).Some?
    ensures OpenDots(Stripped(w).value) == OpenDots(w)
  {
    StrippedTwice(w);
    hide Stripped, ReadAnimation;
  }

  lemma StillIsOk()
    ensures var b := DotStill();
            && Container(b) == Some([MakeChunk(VP8L, [])]) && AreChunks(Container(b).value) && IsClean(Container(b).value)
            && HasHeader(b) && End(b) == |b| == 20
            && OpenDots(b) == Some(Opened(1, 1, false, Dots(1)))
  {
    var c := MakeChunk(VP8L, []);
    MakeChunkIsChunk(VP8L, []);
    assert !HasFlagByte(c) && !IsMetadata(c) by {
      assert VP8L[3] != VP8X[3] && VP8L[0] != ICCP[0] && VP8L[0] != EXIF[0] && VP8L[0] != XMP[0];
    }
    hide MakeChunk, FromLe, Le32, Chunks, Clean;
    JoinOne(c);
    ContainerOfPrint([c]);
    PrintParts([c]);
    StrippedIsIdentityIff(Print([c]));
    assert ReadAnimation(Print([c])) == None;
    hide Container, Print, Stripped;
  }

  /** The assumptions on the codecs hold together, and with them the pipeline
      accepts an image. */
  lemma DottyIsSound()
    ensures Sound(Dotty())
    ensures Canonicalize(Dotty(), DotStill(), 100, Profile(16, 16, 256, false)) == Ok(Canonical(DotStill(), true, 1, 1))
  {
    var c := Dotty();
    StillIsOk();
    assert IgnoresMetadata(c) by {
      forall w | Stripped(w).Some? && c.open(w, WebP).Some?
        ensures c.open(Stripped(w).value, WebP) == c.open(w, WebP)
      {
        OpensStripped(w);
      }
    }
    hide Container, DotStill, IsClean, ReadAnimation;
    assert OpensAnimations(c) by {
      forall w | Stripped(w) == Some(w) && ReadAnimation(w).Some? && Playable(c, ReadAnimation(w).value)
        ensures OpensAs(c.open(w, WebP), ReadAnimation(w).value)
      {
        var a := ReadAnimation(w).value;
        assert a.frames[0].width == a.width == 1 && a.frames[0].height == a.height == 1;
        assert IsDots(a);
      }
    }
    hide Stripped, OpenDots;
    DotsFillTheCanvas();
    DotsEncode();
    assert ResizesExactly(c) && RecognisesWebp(c);
    hide YieldsFullCanvas, EncodesStills, OpensAnimations, IgnoresMetadata, ResizesExactly, RecognisesWebp;
    ReopenedStill(c, DOT, 100, Profile(16, 16, 256, false));
  }

  lemma DotsEncode()
    ensures EncodesStills(Dotty())
  {
    StillIsOk();
    hide Container, DotStill, IsClean, OpenDots;
    forall i | Dotty().encodeStill(i).Some? ensures StillOk(Dotty(), i, Dotty().encodeStill(i).value) {
      assert Pixels(i) == 1;
    }
  }

  lemma DotsFillTheCanvas()
    ensures YieldsFullCanvas(Dotty())
  {
    hide Stripped, ReadAnimation, IsDots;
    forall w, f | Dotty().open(w, f).Some? ensures IsFullCanvas(Dotty().open(w, f).value) {
      assert OpenDots(w).Some?;
    }
  }
}
