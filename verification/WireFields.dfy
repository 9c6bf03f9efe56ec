/** The field layouts that every signed envelope is built from, a reader for
    each, and the proof that the reader inverts the writer. */
module WireFields {
  import opened Bytes

  /** A string as the signature covers it: its UTF-8 bytes. */
  type Str = seq<byte>

  datatype Pair = Pair(key: Str, value: Str)

  datatype Entry = Entry(url: Str, name: Str, joinedAt: u64)

  datatype Field =
    | Text(s: Str)                 // u32 length, then the bytes
    | Texts(v: seq<Str>)           // u32 count, then each string
    | Decimal(n: u32)              // a number as a length-prefixed decimal string
    | Num32(w: u32)
    | Num64(d: u64)
    | OptNum64(o: Option<u64>)     // 1 and the number, or 0
    | Digest(digest: seq<byte>)    // 32 bytes, no length
    | Entries(es: seq<Entry>)      // u32 count, then each entry
    | Pairs(ps: seq<Pair>)         // up to the end, no count
    | Raw(raw: seq<byte>)          // up to the end, no length

  datatype Shape = TextS | TextsS | DecimalS | Num32S | Num64S | OptNum64S | DigestS | EntriesS | PairsS | RawS

  function ShapeOf(f: Field): Shape {
    match f
    case Text(_) => TextS
    case Texts(_) => TextsS
    case Decimal(_) => DecimalS
    case Num32(_) => Num32S
    case Num64(_) => Num64S
    case OptNum64(_) => OptNum64S
    case Digest(_) => DigestS
    case Entries(_) => EntriesS
    case Pairs(_) => PairsS
    case Raw(_) => RawS
  }

  /** Fields without a length of their own run to the end of the message. */
  predicate RunsToEnd(s: Shape) {
    s.PairsS? || s.RawS?
  }

  predicate Short(s: Str) {
    |s| < TWO32
  }

  /** Lengths fit the 32 bits they are written in. */
  predicate Fits(f: Field) {
    match f
    case Text(s) => Short(s)
    case Texts(v) => |v| < TWO32 && forall i :: 0 <= i < |v| ==> Short(v[i])
    case Digest(d) => |d| == 32
    case Entries(es) => |es| < TWO32 && forall i :: 0 <= i < |es| ==> Short(es[i].url) && Short(es[i].name)
    case Pairs(ps) => forall i :: 0 <= i < |ps| ==> Short(ps[i].key) && Short(ps[i].value)
    case _ => true
  }

  // ---- Writing ------------------------------------------------------------------

  function PutText(s: Str): seq<byte> {
    Le32(|s|) + s
  }

  function PutTexts(v: seq<Str>): seq<byte> {
    if v == [] then [] else PutTexts(v[..|v| - 1]) + PutText(v[|v| - 1])
  }

  function PutPair(p: Pair): seq<byte> {
    PutText(p.key) + PutText(p.value)
  }

  function PutPairs(ps: seq<Pair>): seq<byte> {
    if ps == [] then [] else PutPairs(ps[..|ps| - 1]) + PutPair(ps[|ps| - 1])
  }

  function PutEntry(e: Entry): seq<byte> {
    PutText(e.url) + PutText(e.name) + Le64(e.joinedAt)
  }

  function PutEntries(es: seq<Entry>): seq<byte> {
    if es == [] then [] else PutEntries(es[..|es| - 1]) + PutEntry(es[|es| - 1])
  }

  function Digits(n: nat): (s: Str)
    ensures |s| > 0
  {
    if n < 10 then [48 + n] else Digits(n / 10) + [48 + n % 10]
  }

  function PutField(f: Field): seq<byte> {
    match f
    case Text(s) => PutText(s)
    case Texts(v) => Le32(|v|) + PutTexts(v)
    case Decimal(n) => PutText(Digits(n))
    case Num32(w) => Le32(w)
    case Num64(d) => Le64(d)
    case OptNum64(None) => [0]
    case OptNum64(Some(t)) => [1] + Le64(t)
    case Digest(d) => d
    case Entries(es) => Le32(|es|) + PutEntries(es)
    case Pairs(ps) => PutPairs(ps)
    case Raw(raw) => raw
  }

  function PutFields(fs: seq<Field>): seq<byte> {
    if fs == [] then [] else PutFields(fs[..|fs| - 1]) + PutField(fs[|fs| - 1])
  }

  lemma PutFieldsSnoc(fs: seq<Field>, f: Field)
    ensures PutFields(fs + [f]) == PutFields(fs) + PutField(f)
  {
    assert (fs + [f])[..|fs|] == fs;
  }

  // ---- Reading ------------------------------------------------------------------

  /** What was read, and the bytes after it. */
  datatype Read<+T> = Read(value: T, rest: seq<byte>)

  function GetBytes(n: nat, bs: seq<byte>): Option<Read<seq<byte>>> {
    if n > |bs| then None else Some(Read(bs[..n], bs[n..]))
  }

  function Get32(bs: seq<byte>): Option<Read<nat>> {
    if |bs| < 4 then None else Some(Read(FromLe(bs[..4]), bs[4..]))
  }

  function Get64(bs: seq<byte>): Option<Read<nat>> {
    if |bs| < 8 then None else Some(Read(FromLe(bs[..8]), bs[8..]))
  }

  function GetText(bs: seq<byte>): Option<Read<Str>> {
    match Get32(bs)
    case None => None
    case Some(r) => GetBytes(r.value, r.rest)
  }

  function GetTexts(n: nat, bs: seq<byte>): Option<Read<seq<Str>>> {
    if n == 0 then Some(Read([], bs))
    else
      match GetText(bs)
      case None => None
      case Some(r) =>
        match GetTexts(n - 1, r.rest)
        case None => None
        case Some(more) => Some(Read([r.value] + more.value, more.rest))
  }

  function GetPair(bs: seq<byte>): Option<Read<Pair>> {
    match GetText(bs)
    case None => None
    case Some(k) =>
      match GetText(k.rest)
      case None => None
      case Some(v) => Some(Read(Pair(k.value, v.value), v.rest))
  }

  function GetPairs(bs: seq<byte>): Option<seq<Pair>>
    decreases |bs|
  {
    if bs == [] then Some([])
    else
      match GetPair(bs)
      case None => None
      case Some(r) =>
        if |r.rest| >= |bs| then None
        else
          match GetPairs(r.rest)
          case None => None
          case Some(more) => Some([r.value] + more)
  }

  function GetEntry(bs: seq<byte>): Option<Read<Entry>> {
    match GetText(bs)
    case None => None
    case Some(u) =>
      match GetText(u.rest)
      case None => None
      case Some(n) =>
        match Get64(n.rest)
        case None => None
        case Some(t) => if t.value < TWO64 then Some(Read(Entry(u.value, n.value, t.value), t.rest)) else None
  }

  function GetEntries(n: nat, bs: seq<byte>): Option<Read<seq<Entry>>> {
    if n == 0 then Some(Read([], bs))
    else
      match GetEntry(bs)
      case None => None
      case Some(r) =>
        match GetEntries(n - 1, r.rest)
        case None => None
        case Some(more) => Some(Read([r.value] + more.value, more.rest))
  }

  function ParseDigits(s: Str): Option<nat> {
    if s == [] then Some(0)
    else
      var k := |s| - 1;
      match ParseDigits(s[..k])
      case None => None
      case Some(high) =>
        var d: int := s[k];
        if 48 <= d < 58 then Some(10 * high + (d - 48)) else None
  }

  function GetField(s: Shape, bs: seq<byte>): Option<Read<Field>> {
    match s
    case TextS =>
      (match GetText(bs) case None => None case Some(r) => Some(Read(Text(r.value), r.rest)))
    case TextsS =>
      (match Get32(bs)
       case None => None
       case Some(n) =>
         match GetTexts(n.value, n.rest) case None => None case Some(r) => Some(Read(Texts(r.value), r.rest)))
    case DecimalS =>
      (match GetText(bs)
       case None => None
       case Some(r) =>
         match ParseDigits(r.value)
         case None => None
         case Some(n) => if n < TWO32 then Some(Read(Decimal(n), r.rest)) else None)
    case Num32S =>
      (match Get32(bs) case None => None case Some(r) =>
         if r.value < TWO32 then Some(Read(Num32(r.value), r.rest)) else None)
    case Num64S =>
      (match Get64(bs) case None => None case Some(r) =>
         if r.value < TWO64 then Some(Read(Num64(r.value), r.rest)) else None)
    case OptNum64S =>
      if bs == [] then None
      else if bs[0] == 0 then Some(Read(OptNum64(None), bs[1..]))
      else
        (match Get64(bs[1..]) case None => None case Some(r) =>
           if r.value < TWO64 then Some(Read(OptNum64(Some(r.value)), r.rest)) else None)
    case DigestS =>
      (match GetBytes(32, bs) case None => None case Some(r) => Some(Read(Digest(r.value), r.rest)))
    case EntriesS =>
      (match Get32(bs)
       case None => None
       case Some(n) =>
         match GetEntries(n.value, n.rest) case None => None case Some(r) => Some(Read(Entries(r.value), r.rest)))
    case PairsS =>
      (match GetPairs(bs) case None => None case Some(ps) => Some(Read(Pairs(ps), [])))
    case RawS => Some(Read(Raw(bs), []))
  }

  function GetFields(shapes: seq<Shape>, bs: seq<byte>): Option<seq<Field>>
    decreases |shapes|
  {
    if shapes == [] then if bs == [] then Some([]) else None
    else
      match GetField(shapes[0], bs)
      case None => None
      case Some(r) =>
        match GetFields(shapes[1..], r.rest)
        case None => None
        case Some(more) => Some([r.value] + more)
  }

  // ---- Reading inverts writing ------------------------------------------------------

  lemma Get32OfPut(n: nat, rest: seq<byte>)
    requires n < TWO32
    ensures Get32(Le32(n) + rest) == Some(Read(n, rest))
  {
    FromLeOfLe32(n);
    hide FromLe, Le32;
    var bs := Le32(n) + rest;
    assert bs[..4] == Le32(n) && bs[4..] == rest;
  }

  lemma Get64OfPut(d: u64, rest: seq<byte>)
    ensures Get64(Le64(d) + rest) == Some(Read(d, rest))
  {
    FromLeOfLe64(d);
    hide FromLe, Le64;
    var bs := Le64(d) + rest;
    assert bs[..8] == Le64(d) && bs[8..] == rest;
  }

  lemma GetBytesOfPut(s: seq<byte>, rest: seq<byte>)
    ensures GetBytes(|s|, s + rest) == Some(Read(s, rest))
  {
    assert (s + rest)[..|s|] == s && (s + rest)[|s|..] == rest;
  }

  lemma GetTextOfPut(s: Str, rest: seq<byte>)
    requires Short(s)
    ensures GetText(PutText(s) + rest) == Some(Read(s, rest))
  {
    hide FromLe, Le32, Get32, GetBytes;
    assert PutText(s) + rest == Le32(|s|) + (s + rest);
    Get32OfPut(|s|, s + rest);
    GetBytesOfPut(s, rest);
  }

  lemma {:induction false} PutTextsCons(s: Str, v: seq<Str>)
    ensures PutTexts([s] + v) == PutText(s) + PutTexts(v)
    decreases |v|
  {
    hide PutText;
    var all := [s] + v;
    if v == [] {
      assert all[..0] == [] && all[0] == s;
      assert PutTexts(all) == PutTexts(all[..0]) + PutText(s);
    } else {
      var k := |v| - 1;
      assert all[..|all| - 1] == [s] + v[..k];
      PutTextsCons(s, v[..k]);
    }
  }

  lemma {:induction false} GetTextsOfPut(v: seq<Str>, rest: seq<byte>)
    requires forall i :: 0 <= i < |v| ==> Short(v[i])
    ensures GetTexts(|v|, PutTexts(v) + rest) == Some(Read(v, rest))
    decreases |v|
  {
    hide PutText, GetText;
    if v == [] {
      assert PutTexts(v) + rest == rest;
    } else {
      var s, more := v[0], v[1..];
      assert v == [s] + more;
      PutTextsCons(s, more);
      assert PutTexts(v) + rest == PutText(s) + (PutTexts(more) + rest);
      GetTextOfPut(s, PutTexts(more) + rest);
      GetTextsOfPut(more, rest);
    }
  }

  lemma GetPairOfPut(p: Pair, rest: seq<byte>)
    requires Short(p.key) && Short(p.value)
    ensures GetPair(PutPair(p) + rest) == Some(Read(p, rest))
  {
    hide PutText, GetText;
    assert PutPair(p) + rest == PutText(p.key) + (PutText(p.value) + rest);
    GetTextOfPut(p.key, PutText(p.value) + rest);
    GetTextOfPut(p.value, rest);
  }

  lemma {:induction false} PutPairsCons(p: Pair, ps: seq<Pair>)
    ensures PutPairs([p] + ps) == PutPair(p) + PutPairs(ps)
    decreases |ps|
  {
    hide PutPair;
    var all := [p] + ps;
    if ps == [] {
      assert all[..0] == [] && all[0] == p;
      assert PutPairs(all) == PutPairs(all[..0]) + PutPair(p);
    } else {
      var k := |ps| - 1;
      assert all[..|all| - 1] == [p] + ps[..k];
      PutPairsCons(p, ps[..k]);
    }
  }

  lemma {:induction false} GetPairsOfPut(ps: seq<Pair>)
    requires forall i :: 0 <= i < |ps| ==> Short(ps[i].key) && Short(ps[i].value)
    ensures GetPairs(PutPairs(ps)) == Some(ps)
    decreases |ps|
  {
    if ps != [] {
      var p, more := ps[0], ps[1..];
      assert ps == [p] + more;
      assert |PutPair(p)| >= 8;
      hide PutPair, GetPair;
      PutPairsCons(p, more);
      GetPairOfPut(p, PutPairs(more));
      GetPairsOfPut(more);
    }
  }

  lemma GetEntryOfPut(e: Entry, rest: seq<byte>)
    requires Short(e.url) && Short(e.name)
    ensures GetEntry(PutEntry(e) + rest) == Some(Read(e, rest))
  {
    hide PutText, GetText, Le64, Get64;
    var after := Le64(e.joinedAt) + rest;
    assert PutEntry(e) + rest == PutText(e.url) + (PutText(e.name) + after);
    GetTextOfPut(e.url, PutText(e.name) + after);
    GetTextOfPut(e.name, after);
    Get64OfPut(e.joinedAt, rest);
  }

  lemma {:induction false} PutEntriesCons(e: Entry, es: seq<Entry>)
    ensures PutEntries([e] + es) == PutEntry(e) + PutEntries(es)
    decreases |es|
  {
    hide PutEntry;
    var all := [e] + es;
    if es == [] {
      assert all[..0] == [] && all[0] == e;
      assert PutEntries(all) == PutEntries(all[..0]) + PutEntry(e);
    } else {
      var k := |es| - 1;
      assert all[..|all| - 1] == [e] + es[..k];
      PutEntriesCons(e, es[..k]);
    }
  }

  lemma {:induction false} GetEntriesOfPut(es: seq<Entry>, rest: seq<byte>)
    requires forall i :: 0 <= i < |es| ==> Short(es[i].url) && Short(es[i].name)
    ensures GetEntries(|es|, PutEntries(es) + rest) == Some(Read(es, rest))
    decreases |es|
  {
    hide PutEntry, GetEntry;
    if es == [] {
      assert PutEntries(es) + rest == rest;
    } else {
      var e, more := es[0], es[1..];
      assert es == [e] + more;
      PutEntriesCons(e, more);
      assert PutEntries(es) + rest == PutEntry(e) + (PutEntries(more) + rest);
      GetEntryOfPut(e, PutEntries(more) + rest);
      GetEntriesOfPut(more, rest);
    }
  }

  lemma {:induction false} ParseDigitsOfDigits(n: nat)
    ensures ParseDigits(Digits(n)) == Some(n)
    decreases n
  {
    var s := Digits(n);
    var k := |s| - 1;
    if n < 10 {
      assert s[..k] == [];
    } else {
      ParseDigitsOfDigits(n / 10);
      assert s[..k] == Digits(n / 10);
    }
  }

  lemma {:induction false} DigitsAreShort(n: nat)
    requires n < TWO32
    ensures |Digits(n)| <= n + 1
    decreases n
  {
    if n >= 10 {
      DigitsAreShort(n / 10);
    }
  }

  lemma GetListOfPut(f: Field, rest: seq<byte>)
    requires Fits(f) && (f.Texts? || f.Entries? || (f.Pairs? && rest == []))
    ensures GetField(ShapeOf(f), PutField(f) + rest) == Some(Read(f, rest))
  {
    hide PutText, GetText, Le32, Get32, Le64, Get64, GetBytes, PutTexts, GetTexts, PutEntries, GetEntries,
         PutPairs, GetPairs, Digits, ParseDigits;
    match f {
      case Texts(v) =>
        assert PutField(f) + rest == Le32(|v|) + (PutTexts(v) + rest);
        Get32OfPut(|v|, PutTexts(v) + rest);
        GetTextsOfPut(v, rest);
      case Entries(es) =>
        assert PutField(f) + rest == Le32(|es|) + (PutEntries(es) + rest);
        Get32OfPut(|es|, PutEntries(es) + rest);
        GetEntriesOfPut(es, rest);
      case Pairs(ps) =>
        assert PutField(f) + rest == PutPairs(ps);
        GetPairsOfPut(ps);
    }
  }

  lemma GetFieldOfPut(f: Field, rest: seq<byte>)
    requires Fits(f) && (RunsToEnd(ShapeOf(f)) ==> rest == [])
    ensures GetField(ShapeOf(f), PutField(f) + rest) == Some(Read(f, rest))
  {
    hide PutText, GetText, Le32, Get32, Le64, Get64, GetBytes, PutTexts, GetTexts, PutEntries, GetEntries,
         PutPairs, GetPairs, Digits, ParseDigits;
    match f {
      case Texts(_) => GetListOfPut(f, rest);
      case Entries(_) => GetListOfPut(f, rest);
      case Pairs(_) => GetListOfPut(f, rest);
      case Text(s) => GetTextOfPut(s, rest);
      case Decimal(n) =>
        DigitsFit(n);
        GetTextOfPut(Digits(n), rest);
        ParseDigitsOfDigits(n);
      case Num32(w) => Get32OfPut(w, rest);
      case Num64(d) => Get64OfPut(d, rest);
      case OptNum64(o) =>
        assert (PutField(f) + rest)[1..] == (if o.None? then rest else Le64(o.value) + rest);
        if o.Some? {
          Get64OfPut(o.value, rest);
        }
      case Digest(d) => GetBytesOfPut(d, rest);
      case Raw(raw) => assert PutField(f) + rest == raw;
    }
  }

  lemma {:induction false} DigitsFit(n: nat)
    requires n < TWO32
    ensures Short(Digits(n))
  {
    if n >= 10 {
      DigitsAreShort(n / 10);
    }
  }

  lemma {:induction false} PutFieldsCons(f: Field, fs: seq<Field>)
    ensures PutFields([f] + fs) == PutField(f) + PutFields(fs)
    decreases |fs|
  {
    hide PutField;
    var all := [f] + fs;
    if fs == [] {
      assert all[..0] == [] && all[0] == f;
      assert PutFields(all) == PutFields(all[..0]) + PutField(f);
    } else {
      var k := |fs| - 1;
      assert all[..|all| - 1] == [f] + fs[..k];
      PutFieldsCons(f, fs[..k]);
    }
  }

  function ShapesOf(fs: seq<Field>): (ss: seq<Shape>)
    ensures |ss| == |fs|
  {
    seq(|fs|, i requires 0 <= i < |fs| => ShapeOf(fs[i]))
  }

  /** A message can be read back when its lengths fit and only its last field,
      if any, runs to the end. */
  predicate Readable(fs: seq<Field>) {
    && (forall i :: 0 <= i < |fs| ==> Fits(fs[i]))
    && (forall i :: 0 <= i < |fs| - 1 ==> !RunsToEnd(ShapeOf(fs[i])))
  }

  lemma {:induction false} GetFieldsOfPut(fs: seq<Field>)
    requires Readable(fs)
    ensures GetFields(ShapesOf(fs), PutFields(fs)) == Some(fs)
    decreases |fs|
  {
    if fs != [] {
      var f, more := fs[0], fs[1..];
      assert fs == [f] + more;
      assert ShapesOf(fs)[1..] == ShapesOf(more);
      assert Readable(more);
      hide PutField, GetField, Fits;
      PutFieldsCons(f, more);
      assert more == [] ==> PutFields(more) == [];
      GetFieldOfPut(f, PutFields(more));
      GetFieldsOfPut(more);
    }
  }
}
