/** The WebP container (RIFF chunks, RFC 9649 sections 2.3, 2.4 and 2.7): the
    metadata filter that every stored image passes, and the chunk reader and
    writer of the animation encoder. A chunk is kept as the raw slice it was
    read from, header and padding included. */
module WebpContainer {
  import opened Bytes

  const RIFF: seq<byte> := [0x52, 0x49, 0x46, 0x46]
  const WEBP: seq<byte> := [0x57, 0x45, 0x42, 0x50]
  const ICCP: seq<byte> := [0x49, 0x43, 0x43, 0x50]
  const EXIF: seq<byte> := [0x45, 0x58, 0x49, 0x46]
  const XMP: seq<byte> := [0x58, 0x4D, 0x50, 0x20]
  const VP8X: seq<byte> := [0x56, 0x50, 0x38, 0x58]
  const VP8L: seq<byte> := [0x56, 0x50, 0x38, 0x4C]
  const ANIM: seq<byte> := [0x41, 0x4E, 0x49, 0x4D]
  const ANMF: seq<byte> := [0x41, 0x4E, 0x4D, 0x46]

  type Chunk = seq<byte>

  function Tag(c: Chunk): seq<byte>
    requires |c| >= 8
  {
    c[..4]
  }

  function Size(c: Chunk): nat
    requires |c| >= 8
  {
    FromLe(c[4..8])
  }

  /** Length of a chunk on the wire, from its header: an odd payload is padded. */
  function Span(c: Chunk): (n: nat)
    requires |c| >= 8
    ensures n >= 8
  {
    8 + Size(c) + Size(c) % 2
  }

  predicate IsChunk(c: Chunk) {
    |c| >= 8 && |c| == Span(c)
  }

  predicate AreChunks(cs: seq<Chunk>) {
    forall i :: 0 <= i < |cs| ==> IsChunk(cs[i])
  }

  function Join(cs: seq<Chunk>): seq<byte> {
    if cs == [] then [] else cs[0] + Join(cs[1..])
  }

  /** The chunks that fill `bs` exactly, if there are such. */
  function Chunks(bs: seq<byte>): Option<seq<Chunk>>
    decreases |bs|
  {
    if bs == [] then Some([])
    else if |bs| < 8 || Span(bs) > |bs| then None
    else
      match Chunks(bs[Span(bs)..])
      case None => None
      case Some(rest) => Some([bs[..Span(bs)]] + rest)
  }

  lemma SpanOfPrefix(bs: seq<byte>)
    requires |bs| >= 8 && Span(bs) <= |bs|
    ensures IsChunk(bs[..Span(bs)])
  {
    var c := bs[..Span(bs)];
    assert c[4..8] == bs[4..8];
  }

  lemma JoinCons(c: Chunk, rest: seq<Chunk>)
    ensures Join([c] + rest) == c + Join(rest)
    ensures IsChunk(c) && AreChunks(rest) ==> AreChunks([c] + rest)
  {
    assert ([c] + rest)[1..] == rest;
  }

  lemma {:induction false} JoinOfChunks(bs: seq<byte>)
    requires Chunks(bs).Some?
    ensures AreChunks(Chunks(bs).value) && Join(Chunks(bs).value) == bs
    decreases |bs|
  {
    if bs != [] {
      hide FromLe, Join, AreChunks;
      var n := Span(bs);
      SpanOfPrefix(bs);
      JoinOfChunks(bs[n..]);
      JoinCons(bs[..n], Chunks(bs[n..]).value);
      assert bs == bs[..n] + bs[n..];
    } else {
      assert Chunks(bs).value == [];
    }
  }

  lemma {:induction false} ChunksOfJoin(cs: seq<Chunk>)
    requires AreChunks(cs)
    ensures Chunks(Join(cs)) == Some(cs)
    decreases |cs|
  {
    if cs != [] {
      var c, rest := cs[0], Join(cs[1..]);
      var bs := c + rest;
      assert IsChunk(c);
      assert bs[4..8] == c[4..8];
      assert Span(bs) == |c|;
      assert bs[..|c|] == c && bs[|c|..] == rest;
      ChunksOfJoin(cs[1..]);
      assert cs == [c] + cs[1..];
    }
  }

  lemma {:induction false} JoinAppend(a: seq<Chunk>, b: seq<Chunk>)
    ensures Join(a + b) == Join(a) + Join(b)
    decreases |a|
  {
    if a == [] {
      assert a + b == b;
    } else {
      assert (a + b)[1..] == a[1..] + b;
      JoinAppend(a[1..], b);
    }
  }

  lemma JoinOne(c: Chunk)
    ensures Join([c]) == c
  {
    assert [c][1..] == [];
    assert Join([c]) == c + [];
  }

  // ---- The filter ------------------------------------------------------------

  predicate IsMetadata(c: Chunk)
    requires |c| >= 8
  {
    Tag(c) == ICCP || Tag(c) == EXIF || Tag(c) == XMP
  }

  /** One of the flag bits of ICC (0x20), EXIF (0x08) and XMP (0x04) is set. */
  predicate HasFlags(b: byte) {
    b / 0x20 % 2 == 1 || b / 0x04 % 4 != 0
  }

  /** The same byte with those three bits cleared: the two bits above, the one
      in between and the two below stay. */
  function ClearFlags(b: byte): (r: byte) {
    b / 0x40 * 0x40 + b / 0x10 % 2 * 0x10 + b % 4
  }

  lemma BitGroups(top: nat, icc: nat, mid: nat, low: nat, last: nat)
    requires top < 4 && icc < 2 && mid < 2 && low < 4 && last < 4
    ensures var b := top * 0x40 + icc * 0x20 + mid * 0x10 + low * 0x04 + last;
            && b / 0x40 == top && b / 0x20 % 2 == icc && b / 0x10 % 2 == mid && b / 0x04 % 4 == low && b % 4 == last
  {
    var b := top * 0x40 + icc * 0x20 + mid * 0x10 + low * 0x04 + last;
    assert b / 0x40 == top;
    assert b / 0x20 == 2 * top + icc;
    assert b / 0x10 == 4 * top + 2 * icc + mid;
    assert b / 0x04 == 16 * top + 8 * icc + 4 * mid + low;
  }

  lemma GroupsOf(b: nat)
    ensures b == b / 0x40 * 0x40 + b / 0x20 % 2 * 0x20 + b / 0x10 % 2 * 0x10 + b / 0x04 % 4 * 0x04 + b % 4
  {
    Halve(b, 4, 4);
    Halve(b, 16, 2);
    Halve(b, 32, 2);
  }

  lemma Halve(b: nat, w: nat, n: nat)
    requires (w == 4 && n == 4) || (w == 16 && n == 2) || (w == 32 && n == 2)
    ensures b / w == b / (w * n) * n + b / w % n
  {
    if w == 4 {
      assert b / 4 / 4 == b / 16;
    } else if w == 16 {
      assert b / 16 / 2 == b / 32;
    } else {
      assert b / 32 / 2 == b / 64;
    }
  }

  /** Bits 5, 3 and 2 are cleared and the five others kept. */
  lemma ClearFlagsTwice(b: byte)
    ensures var r := ClearFlags(b);
            && r / 0x20 % 2 == 0 && r / 0x04 % 4 == 0
            && r / 0x40 == b / 0x40 && r / 0x10 % 2 == b / 0x10 % 2 && r % 4 == b % 4
    ensures ClearFlags(ClearFlags(b)) == ClearFlags(b) && !HasFlags(ClearFlags(b))
    ensures HasFlags(b) <==> ClearFlags(b) != b
  {
    var top, icc, mid, low, last := b / 0x40, b / 0x20 % 2, b / 0x10 % 2, b / 0x04 % 4, b % 4;
    GroupsOf(b);
    BitGroups(top, 0, mid, 0, last);
  }

  predicate HasFlagByte(c: Chunk)
    requires |c| >= 8
  {
    Tag(c) == VP8X && Size(c) >= 10
  }

  function CleanChunk(c: Chunk): (r: Chunk)
    requires IsChunk(c)
  {
    if HasFlagByte(c) then c[8 := ClearFlags(c[8])] else c
  }

  function Clean(cs: seq<Chunk>): (r: seq<Chunk>)
    requires AreChunks(cs)
  {
    if cs == [] then []
    else if IsMetadata(cs[0]) then Clean(cs[1..])
    else [CleanChunk(cs[0])] + Clean(cs[1..])
  }

  lemma CleanChunkKeeps(c: Chunk)
    requires IsChunk(c)
    ensures var r := CleanChunk(c);
            && IsChunk(r) && |r| == |c| && Tag(r) == Tag(c) && Size(r) == Size(c)
            && CleanChunk(r) == r
  {
    var r := CleanChunk(c);
    assert r[..4] == c[..4] && r[4..8] == c[4..8];
    if HasFlagByte(c) {
      ClearFlagsTwice(c[8]);
    }
  }

  predicate IsClean(cs: seq<Chunk>) {
    AreChunks(cs) && forall i :: 0 <= i < |cs| ==> !IsMetadata(cs[i]) && CleanChunk(cs[i]) == cs[i]
  }

  lemma {:induction false} CleanIsClean(cs: seq<Chunk>)
    requires AreChunks(cs)
    ensures IsClean(Clean(cs))
    ensures |Join(Clean(cs))| <= |Join(cs)|
    decreases |cs|
  {
    if cs != [] {
      CleanIsClean(cs[1..]);
      CleanChunkKeeps(cs[0]);
      assert ([CleanChunk(cs[0])] + Clean(cs[1..]))[1..] == Clean(cs[1..]);
    }
  }

  lemma {:induction false} CleanFixesClean(cs: seq<Chunk>)
    requires AreChunks(cs)
    ensures IsClean(cs) <==> Clean(cs) == cs
    decreases |cs|
  {
    if cs != [] {
      CleanFixesClean(cs[1..]);
      CleanLength(cs[1..]);
      assert cs == [cs[0]] + cs[1..];
      if IsClean(cs) {
        assert IsClean(cs[1..]);
      } else if Clean(cs) == cs {
        CleanIsClean(cs);
      }
    }
  }

  lemma {:induction false} CleanLength(cs: seq<Chunk>)
    requires AreChunks(cs)
    ensures |Clean(cs)| <= |cs|
    decreases |cs|
  {
    if cs != [] {
      CleanLength(cs[1..]);
    }
  }

  lemma {:induction false} CleanAppend(a: seq<Chunk>, c: Chunk)
    requires AreChunks(a) && IsChunk(c)
    ensures AreChunks(a + [c])
    ensures Clean(a + [c]) == Clean(a) + (if IsMetadata(c) then [] else [CleanChunk(c)])
    decreases |a|
  {
    if a == [] {
      assert a + [c] == [c];
      assert Clean([c][1..]) == [];
    } else {
      assert (a + [c])[1..] == a[1..] + [c];
      CleanAppend(a[1..], c);
    }
  }

  /** The chunks that are not metadata, in order, as they were. */
  function Kept(cs: seq<Chunk>): seq<Chunk>
    requires AreChunks(cs)
  {
    if cs == [] then []
    else if IsMetadata(cs[0]) then Kept(cs[1..])
    else [cs[0]] + Kept(cs[1..])
  }

  /** What the filter leaves is what it kept, in order and byte for byte, but for
      the three flag bits of a VP8X chunk. */
  lemma {:induction false} CleanKeepsBytes(cs: seq<Chunk>)
    requires AreChunks(cs)
    ensures |Clean(cs)| == |Kept(cs)|
    ensures forall i :: 0 <= i < |Kept(cs)| ==>
              && Kept(cs)[i] in cs && |Clean(cs)[i]| == |Kept(cs)[i]| >= 8
              && forall j :: 0 <= j < |Kept(cs)[i]| ==>
                   Clean(cs)[i][j] ==
                     if j == 8 && HasFlagByte(Kept(cs)[i]) then ClearFlags(Kept(cs)[i][j]) else Kept(cs)[i][j]
    decreases |cs|
  {
    if cs != [] {
      CleanKeepsBytes(cs[1..]);
    }
  }

  // ---- The container -----------------------------------------------------------

  predicate HasHeader(w: seq<byte>) {
    |w| >= 12 && w[..4] == RIFF && w[8..12] == WEBP
  }

  /** Where the RIFF size says the file ends. */
  function End(w: seq<byte>): nat
    requires HasHeader(w)
  {
    FromLe(w[4..8]) + 8
  }

  /** The chunks of a well-formed file; bytes past the RIFF size do not count. */
  function Container(w: seq<byte>): Option<seq<Chunk>> {
    if !HasHeader(w) || End(w) > |w| || End(w) < 12 then None else Chunks(w[12..End(w)])
  }

  function Print(cs: seq<Chunk>): seq<byte> {
    RIFF + Le32(4 + |Join(cs)|) + WEBP + Join(cs)
  }

  /** Parse, filter, print. */
  function Stripped(w: seq<byte>): Option<seq<byte>> {
    match Container(w)
    case None => None
    case Some(cs) =>
      if AreChunks(cs) then Some(Print(Clean(cs))) else None
  }

  lemma PrintParts(cs: seq<Chunk>)
    ensures var w := Print(cs);
            && HasHeader(w) && w[4..8] == Le32(4 + |Join(cs)|) && w[12..] == Join(cs) && |w| == 12 + |Join(cs)|
  {
  }

  lemma PrintBody(cs: seq<Chunk>, body: seq<byte>)
    requires body == WEBP + Join(cs)
    ensures RIFF + Le32(|body|) + body == Print(cs)
  {
    hide Le32, Join;
  }

  lemma ContainerOfPrint(cs: seq<Chunk>)
    requires AreChunks(cs) && 4 + |Join(cs)| < TWO32
    ensures Container(Print(cs)) == Some(cs)
    ensures End(Print(cs)) == |Print(cs)|
  {
    hide Le32, FromLe, Join, Chunks, AreChunks, Print;
    PrintParts(cs);
    FromLeOfLe32(4 + |Join(cs)|);
    ChunksOfJoin(cs);
    var w := Print(cs);
    assert w[12..End(w)] == Join(cs);
  }

  lemma ContainerParts(w: seq<byte>)
    requires Container(w).Some?
    ensures var cs := Container(w).value;
            && AreChunks(cs) && |Join(cs)| == End(w) - 12 && 4 + |Join(cs)| < TWO32
            && Print(cs) == w[..End(w)]
  {
    var cs, end := Container(w).value, End(w);
    var body := w[12..end];
    JoinOfChunks(body);
    Le32OfFromLe(w[4..8]);
    assert FromLe(w[4..8]) == 4 + |body| && w[..4] == RIFF && w[8..12] == WEBP;
    HeaderThenBody(w, end);
    hide FromLe, Le32, Chunks, Join, AreChunks;
  }

  lemma HeaderThenBody(w: seq<byte>, end: nat)
    requires 12 <= end <= |w|
    ensures w[..end] == w[..4] + w[4..8] + w[8..12] + w[12..end]
  {
  }

  /** The filter succeeds exactly on well-formed files, and what it writes is a
      well-formed file, no longer, with a correct RIFF size and no metadata. */
  lemma StrippedIsCleanContainer(w: seq<byte>)
    ensures Stripped(w).Some? <==> Container(w).Some?
    ensures Stripped(w).Some? ==>
              var o := Stripped(w).value;
              && Container(o).Some? && AreChunks(Container(w).value)
              && Container(o).value == Clean(Container(w).value)
              && IsClean(Container(o).value)
              && FromLe(o[4..8]) == |o| - 8
              && |o| <= |w|
  {
    if Container(w).Some? {
      var cs := Container(w).value;
      ContainerParts(w);
      CleanIsClean(cs);
      ContainerOfPrint(Clean(cs));
      PrintParts(Clean(cs));
    }
  }

  /** A file comes back byte for byte exactly when it has nothing to drop: no
      metadata chunk, no metadata flag and nothing after the RIFF size. */
  lemma StrippedIsIdentityIff(w: seq<byte>)
    requires Container(w).Some?
    ensures Stripped(w) == Some(w) <==> IsClean(Container(w).value) && End(w) == |w|
  {
    var cs := Container(w).value;
    ContainerParts(w);
    CleanFixesClean(cs);
    if IsClean(cs) && End(w) == |w| {
      assert w[..End(w)] == w;
    } else if Stripped(w) == Some(w) {
      CleanIsClean(cs);
      ContainerOfPrint(Clean(cs));
    }
  }

  lemma StrippedTwice(w: seq<byte>)
    requires Stripped(w).Some?
    ensures Stripped(Stripped(w).value) == Stripped(w)
  {
    StrippedIsCleanContainer(w);
    var o := Stripped(w).value;
    ContainerParts(w);
    CleanIsClean(Container(w).value);
    ContainerOfPrint(Clean(Container(w).value));
    StrippedIsIdentityIff(o);
  }

  // ---- The loops -----------------------------------------------------------------

  method StripMetadata(webp: seq<byte>) returns (r: Option<seq<byte>>)
    ensures r == Stripped(webp)
  {
    if |webp| < 12 || webp[..4] != RIFF || webp[8..12] != WEBP {
      return None;
    }
    var riff := FromLe(webp[4..8]);
    var end := riff + 8;
    if end > |webp| || end < 12 {
      return None;
    }
    hide FromLe, Chunks, Join, Clean, ClearFlags, IsChunk, AreChunks;
    var dropped := end != |webp|;
    var body := WEBP;
    var pos := 12;
    ghost var done: seq<Chunk> := [];
    Started(webp, end);
    while pos < end
      invariant 12 <= pos <= end
      invariant AreChunks(done)
      invariant Chunks(webp[12..end]) == Prepend(done, Chunks(webp[pos..end]))
      invariant body == WEBP + Join(Clean(done))
      invariant dropped <==> end != |webp| || Clean(done) != done
    {
      HeaderAt(webp, pos, end);
      if pos + 8 > end {
        return None;
      }
      var tag := webp[pos..pos + 4];
      var size := FromLe(webp[pos + 4..pos + 8]);
      var next := pos + 8 + size + size % 2;
      if next > end {
        return None;
      }
      var c := webp[pos..next];
      NextChunk(webp, pos, next, end, done);
      Advanced(done, c);
      done := done + [c];
      if tag == ICCP || tag == EXIF || tag == XMP {
        dropped := true;
      } else if tag == VP8X && size >= 10 {
        ClearFlagsTwice(c[8]);
        if HasFlags(c[8]) {
          dropped := true;
          c := c[8 := ClearFlags(c[8])];
        }
        body := body + c;
      } else {
        body := body + c;
      }
      pos := next;
    }
    Finished(webp, end, done);
    if !dropped {
      return Some(webp[..end]);
    }
    r := Some(RIFF + Le32(|body|) + body);
  }

  lemma Started(w: seq<byte>, end: nat)
    requires 12 <= end <= |w|
    ensures AreChunks([]) && Clean([]) == [] && WEBP == WEBP + Join([])
    ensures Chunks(w[12..end]) == Prepend([], Chunks(w[12..end]))
  {
    if Chunks(w[12..end]).Some? {
      assert [] + Chunks(w[12..end]).value == Chunks(w[12..end]).value;
    }
  }

  lemma Advanced(done: seq<Chunk>, c: Chunk)
    requires AreChunks(done) && IsChunk(c)
    ensures AreChunks(done + [c])
    ensures var next := Clean(done + [c]);
            && WEBP + Join(next) == WEBP + Join(Clean(done)) + (if IsMetadata(c) then [] else CleanChunk(c))
            && (next != done + [c] <==> Clean(done) != done || IsMetadata(c) || CleanChunk(c) != c)
  {
    CleanAppend(done, c);
    CleanLength(done);
    JoinAppend(Clean(done), [CleanChunk(c)]);
    JoinOne(CleanChunk(c));
    if IsMetadata(c) {
      assert Clean(done) + [] == Clean(done);
      assert |Clean(done)| < |done + [c]|;
    } else if Clean(done) + [CleanChunk(c)] == done + [c] {
      assert |Clean(done)| == |done|;
      assert (Clean(done) + [CleanChunk(c)])[..|done|] == Clean(done) && (done + [c])[..|done|] == done;
      assert (Clean(done) + [CleanChunk(c)])[|done|] == CleanChunk(c);
    }
  }

  lemma Finished(w: seq<byte>, end: nat, done: seq<Chunk>)
    requires HasHeader(w) && end == End(w) && 12 <= end <= |w|
    requires AreChunks(done) && Chunks(w[12..end]) == Prepend(done, Chunks(w[end..end]))
    ensures Stripped(w) == Some(Print(Clean(done)))
    ensures end == |w| && Clean(done) == done ==> Stripped(w) == Some(w[..end])
    ensures var body := WEBP + Join(Clean(done)); Print(Clean(done)) == RIFF + Le32(|body|) + body
  {
    PrintBody(Clean(done), WEBP + Join(Clean(done)));
    assert w[end..end] == [];
    assert done + [] == done;
    assert Container(w) == Some(done);
    ContainerParts(w);
  }

  function Prepend(done: seq<Chunk>, rest: Option<seq<Chunk>>): Option<seq<Chunk>> {
    if rest.None? then None else Some(done + rest.value)
  }

  lemma HeaderAt(w: seq<byte>, pos: nat, end: nat)
    requires 12 <= pos < end <= |w|
    ensures pos + 8 > end ==> Chunks(w[pos..end]) == None
    ensures pos + 8 <= end ==>
              var bs := w[pos..end];
              && Tag(bs) == w[pos..pos + 4] && Size(bs) == FromLe(w[pos + 4..pos + 8])
              && (pos + Span(bs) > end ==> Chunks(bs) == None)
  {
    hide FromLe;
    var bs := w[pos..end];
    if pos + 8 <= end {
      assert bs[..4] == w[pos..pos + 4];
      assert forall i :: 4 <= i < 8 ==> bs[i] == w[pos + i];
      assert bs[4..8] == w[pos + 4..pos + 8];
    }
  }

  lemma SlicesOfSlice(w: seq<byte>, pos: nat, next: nat, end: nat)
    requires pos <= next <= end <= |w|
    ensures w[pos..end][..next - pos] == w[pos..next] && w[pos..end][next - pos..] == w[next..end]
  {
  }

  lemma NextChunk(w: seq<byte>, pos: nat, next: nat, end: nat, done: seq<Chunk>)
    requires pos + 8 <= next <= end <= |w| && next == pos + Span(w[pos..end])
    ensures IsChunk(w[pos..next])
    ensures Tag(w[pos..next]) == w[pos..pos + 4] && Size(w[pos..next]) == Size(w[pos..end])
    ensures Prepend(done, Chunks(w[pos..end])) == Prepend(done + [w[pos..next]], Chunks(w[next..end]))
  {
    var bs, n := w[pos..end], next - pos;
    SpanOfPrefix(bs);
    SlicesOfSlice(w, pos, next, end);
    assert w[pos..next][..4] == bs[..4] && w[pos..next][4..8] == bs[4..8];
    if Chunks(w[next..end]).Some? {
      assert done + ([w[pos..next]] + Chunks(w[next..end]).value) == done + [w[pos..next]] + Chunks(w[next..end]).value;
    }
  }
}
