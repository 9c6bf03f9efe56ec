/** Reading a response head off a stream that arrives in pieces, and handing on
    what was read past it. */
module ResponseHead {
  import opened Bytes

  const READ_SIZE: nat := 512
  const MAX_HEAD: nat := 64 * 1024
  const CRLFCRLF: seq<byte> := [13, 10, 13, 10]

  predicate EndsAt(s: seq<byte>, p: nat) {
    p + 4 <= |s| && s[p..p + 4] == CRLFCRLF
  }

  function FindFrom(s: seq<byte>, p: nat): (r: Option<nat>)
    ensures r.Some? ==> p <= r.value && EndsAt(s, r.value) && forall q :: p <= q < r.value ==> !EndsAt(s, q)
    ensures r.None? ==> forall q :: p <= q ==> !EndsAt(s, q)
    decreases |s| - p
  {
    if p + 4 > |s| then None else if s[p..p + 4] == CRLFCRLF then Some(p) else FindFrom(s, p + 1)
  }

  /** The first position of a double line break. */
  function FindDoubleCrlf(s: seq<byte>): Option<nat> {
    FindFrom(s, 0)
  }

  /** Where the head ends in the whole stream. */
  function HeadEnd(s: seq<byte>): (r: Option<nat>)
    ensures r.Some? ==> 4 <= r.value <= |s|
  {
    match FindDoubleCrlf(s)
    case None => None
    case Some(p) => Some(p + 4)
  }

  lemma EndsAtInPrefix(s: seq<byte>, k: nat, p: nat)
    requires k <= |s|
    ensures EndsAt(s[..k], p) <==> EndsAt(s, p) && p + 4 <= k
  {
    if p + 4 <= k {
      assert s[..k][p..p + 4] == s[p..p + 4];
    }
  }

  /** A prefix of the stream holds the head's end, and the same one, exactly when
      it reaches that far. */
  lemma EndInPrefix(s: seq<byte>, k: nat)
    requires k <= |s|
    ensures HeadEnd(s[..k]) == if HeadEnd(s).Some? && HeadEnd(s).value <= k then HeadEnd(s) else None
  {
    forall p: nat ensures EndsAt(s[..k], p) <==> EndsAt(s, p) && p + 4 <= k {
      EndsAtInPrefix(s, k, p);
    }
    var a, b := FindDoubleCrlf(s[..k]), FindDoubleCrlf(s);
    if a.Some? {
      assert EndsAt(s, a.value);
    }
    if b.Some? && b.value + 4 <= k {
      assert EndsAt(s[..k], b.value);
    }
  }

  function Flatten(parts: seq<seq<byte>>): seq<byte> {
    if parts == [] then [] else Flatten(parts[..|parts| - 1]) + parts[|parts| - 1]
  }

  lemma {:induction false} FlattenSplit(parts: seq<seq<byte>>, i: nat)
    requires i <= |parts|
    ensures Flatten(parts) == Flatten(parts[..i]) + Flatten(parts[i..])
    decreases |parts|
  {
    if i == |parts| {
      assert parts[..i] == parts && parts[i..] == [];
    } else {
      var k := |parts| - 1;
      FlattenSplit(parts[..k], i);
      assert parts[..k][..i] == parts[..i] && parts[..k][i..] == parts[i..][..k - i];
      assert parts[i..][k - i] == parts[k];
      assert Flatten(parts[i..]) == Flatten(parts[i..][..k - i]) + parts[k];
    }
  }

  /** How much has arrived after `i` reads. */
  function Arrived(parts: seq<seq<byte>>, i: nat): nat
    requires i <= |parts|
  {
    |Flatten(parts[..i])|
  }

  datatype Head = Head(head: seq<byte>, leftover: seq<byte>) | UnexpectedEof | TooLarge

  /** What a socket yields: at most a buffer at a time, never nothing, then the end. */
  predicate IsReads(parts: seq<seq<byte>>) {
    forall i :: 0 <= i < |parts| ==> 0 < |parts[i]| <= READ_SIZE
  }

  /** The arrivals short of `e` stay within the limit. */
  predicate ArrivesWithin(parts: seq<seq<byte>>, e: nat) {
    forall i :: 0 <= i <= |parts| && Arrived(parts, i) < e ==> Arrived(parts, i) <= MAX_HEAD
  }

  /** Splits the stream at the first double line break, wherever the reads fall:
      it succeeds exactly when the head ends and no earlier read went over the
      limit, and nothing is lost or repeated after the head. */
  method ReadResponseHead(parts: seq<seq<byte>>) returns (r: Head, used: nat)
    requires IsReads(parts)
    ensures used <= |parts|
    ensures var e := HeadEnd(Flatten(parts));
            && (r.Head? <==> e.Some? && ArrivesWithin(parts, e.value))
            && (r.UnexpectedEof? <==> e.None? && |Flatten(parts)| <= MAX_HEAD)
            && (r.Head? ==>
                  && r.head == Flatten(parts)[..e.value]
                  && r.leftover + Flatten(parts[used..]) == Flatten(parts)[e.value..])
  {
    NothingArrived(parts);
    hide Flatten, FindFrom;
    var buf: seq<byte> := [];
    ghost var all := Flatten(parts);
    used := 0;
    while true
      invariant used <= |parts| && buf == Flatten(parts[..used])
      invariant HeadEnd(buf).None? && |buf| <= MAX_HEAD
      invariant forall i :: 0 <= i <= used ==> Arrived(parts, i) <= |buf|
      decreases |parts| - used
    {
      PrefixEnd(parts, used);
      if used == |parts| {
        assert parts[..used] == parts;
        return UnexpectedEof, used;
      }
      var chunk := parts[used];
      FlattenNext(parts, used);
      buf := buf + chunk;
      used := used + 1;
      PrefixEnd(parts, used);
      var pos := FindDoubleCrlf(buf);
      if pos.Some? {
        var end := pos.value + 4;
        assert HeadEnd(all) == Some(end);
        assert ArrivesWithin(parts, end) by {
          forall i | 0 <= i <= |parts| && Arrived(parts, i) < end ensures Arrived(parts, i) <= MAX_HEAD {
            if i >= used { ArrivedGrows(parts, used, i); }
          }
        }
        assert buf[end..] + Flatten(parts[used..]) == all[end..];
        return Head(buf[..end], buf[end..]), used;
      }
      if |buf| > MAX_HEAD {
        assert Arrived(parts, used) == |buf|;
        assert HeadEnd(all).Some? ==> Arrived(parts, used) < HeadEnd(all).value;
        return TooLarge, used;
      }
    }
  }

  lemma NothingArrived(parts: seq<seq<byte>>)
    ensures Flatten(parts[..0]) == [] && HeadEnd([]).None?
  {
  }

  lemma FlattenNext(parts: seq<seq<byte>>, i: nat)
    requires i < |parts|
    ensures Flatten(parts[..i + 1]) == Flatten(parts[..i]) + parts[i]
  {
    assert parts[..i + 1][..i] == parts[..i];
  }

  lemma PrefixEnd(parts: seq<seq<byte>>, i: nat)
    requires i <= |parts|
    ensures var all, buf := Flatten(parts), Flatten(parts[..i]);
            && all == buf + Flatten(parts[i..]) && buf == all[..|buf|]
            && HeadEnd(buf) == if HeadEnd(all).Some? && HeadEnd(all).value <= |buf| then HeadEnd(all) else None
  {
    FlattenSplit(parts, i);
    var all, buf := Flatten(parts), Flatten(parts[..i]);
    assert all[..|buf|] == buf;
    EndInPrefix(all, |buf|);
  }

  lemma {:induction false} ArrivedGrows(parts: seq<seq<byte>>, i: nat, j: nat)
    requires i <= j <= |parts|
    ensures Arrived(parts, i) <= Arrived(parts, j)
    decreases j
  {
    if i < j {
      assert parts[..j][..j - 1] == parts[..j - 1];
      ArrivedGrows(parts, i, j - 1);
    }
  }

  /** The read that takes the arrivals over the limit. */
  lemma {:induction false} Crossing(parts: seq<seq<byte>>, n: nat) returns (i: nat)
    requires IsReads(parts) && n <= |parts| && |Flatten(parts[..n])| > MAX_HEAD
    ensures i <= n && MAX_HEAD < Arrived(parts, i) <= MAX_HEAD + READ_SIZE
    decreases n
  {
    assert parts[..n][..n - 1] == parts[..n - 1];
    if Arrived(parts, n - 1) > MAX_HEAD {
      i := Crossing(parts, n - 1);
    } else {
      i := n;
    }
  }

  /** A head within the limit (or one byte over) is read however the stream is
      cut, and one more than a read beyond it never is. */
  lemma HeadSizes(parts: seq<seq<byte>>, e: nat)
    requires IsReads(parts) && e <= |Flatten(parts)|
    ensures e <= 65_537 ==> ArrivesWithin(parts, e)
    ensures e > 66_048 ==> !ArrivesWithin(parts, e)
  {
    if e > MAX_HEAD + READ_SIZE {
      assert parts[..|parts|] == parts;
      var i := Crossing(parts, |parts|);
      assert Arrived(parts, i) < e;
    }
  }

  /** The last multiple of the read size below `n`. */
  function LastFull(n: nat): (k: nat)
    requires n > 0
    ensures k < n <= k + READ_SIZE && k % READ_SIZE == 0
  {
    (n - 1) / READ_SIZE * READ_SIZE
  }

  /** The stream in reads of full size, the last what is left. */
  function Chop(s: seq<byte>): (parts: seq<seq<byte>>)
    ensures IsReads(parts) && Flatten(parts) == s
    decreases |s|
  {
    if s == [] then []
    else
      var k := LastFull(|s|);
      assert s[..k] + s[k..] == s;
      var parts := Chop(s[..k]) + [s[k..]];
      assert parts[..|parts| - 1] == Chop(s[..k]);
      parts
  }

  lemma ChopStep(s: seq<byte>)
    requires s != []
    ensures Chop(s) == Chop(s[..LastFull(|s|)]) + [s[LastFull(|s|)..]]
  {
  }

  lemma {:induction false} ChopArrives(s: seq<byte>, i: nat)
    requires i <= |Chop(s)|
    ensures Arrived(Chop(s), i) == |s| || Arrived(Chop(s), i) % READ_SIZE == 0
    decreases |s|
  {
    var parts := Chop(s);
    if i == |parts| {
      assert parts[..i] == parts;
    } else {
      ChopStep(s);
      hide Chop, LastFull, Flatten;
      var k := LastFull(|s|);
      assert parts[..i] == Chop(s[..k])[..i];
      ChopArrives(s[..k], i);
    }
  }

  lemma FlattenAppend(a: seq<seq<byte>>, b: seq<seq<byte>>)
    ensures Flatten(a + b) == Flatten(a) + Flatten(b)
    ensures Arrived(a + b, |a|) == |Flatten(a)|
  {
    assert (a + b)[..|a|] == a && (a + b)[|a|..] == b;
    FlattenSplit(a + b, |a|);
  }

  /** In between it depends on the cut: one and the same stream is read when it
      comes in full reads, and refused when a read ends one byte over the limit. */
  lemma CutsMatterInBetween(s: seq<byte>, e: nat) returns (a: seq<seq<byte>>, b: seq<seq<byte>>)
    requires HeadEnd(s) == Some(e)
    ensures IsReads(a) && Flatten(a) == s && (e <= MAX_HEAD + READ_SIZE ==> ArrivesWithin(a, e))
    ensures IsReads(b) && Flatten(b) == s && (e > MAX_HEAD + 1 ==> !ArrivesWithin(b, e))
  {
    a := Chop(s);
    forall i | e <= MAX_HEAD + READ_SIZE && 0 <= i <= |a| && Arrived(a, i) < e ensures Arrived(a, i) <= MAX_HEAD {
      ChopArrives(s, i);
    }
    b := a;
    if e > MAX_HEAD + 1 {
      var first, rest := Chop(s[..MAX_HEAD + 1]), Chop(s[MAX_HEAD + 1..]);
      b := first + rest;
      FlattenAppend(first, rest);
      assert s[..MAX_HEAD + 1] + s[MAX_HEAD + 1..] == s;
      assert Arrived(b, |first|) == MAX_HEAD + 1;
    }
  }

  /** A head is read however its stream is cut exactly up to 65,537 bytes, and in
      some cut exactly up to 66,048. */
  lemma CutsMatterIff(s: seq<byte>, e: nat)
    requires HeadEnd(s) == Some(e)
    ensures (forall parts :: IsReads(parts) && Flatten(parts) == s ==> ArrivesWithin(parts, e)) <==> e <= 65_537
    ensures (exists parts :: IsReads(parts) && Flatten(parts) == s && ArrivesWithin(parts, e)) <==>
            e <= 66_048
  {
    var a, b := CutsMatterInBetween(s, e);
    forall parts | IsReads(parts) && Flatten(parts) == s
      ensures e <= MAX_HEAD + 1 ==> ArrivesWithin(parts, e)
      ensures e > MAX_HEAD + READ_SIZE ==> !ArrivesWithin(parts, e)
    {
      HeadSizes(parts, e);
    }
    hide IsReads, Flatten, ArrivesWithin;
  }
}
