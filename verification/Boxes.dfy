/** The scan of an MP4 file's top-level boxes (internal/mux/mux.go, lines 24-100; the box header is that of section
    4.2 of ISO/IEC 14496-12): a loop over offsets, proved equal to a recursive parser, and the decision about
    moving the index to the front. */
module Boxes {
  import opened Basics

  const FTYP: seq<byte> := [0x66, 0x74, 0x79, 0x70]
  const MOOV: seq<byte> := [0x6d, 0x6f, 0x6f, 0x76]
  const MDAT: seq<byte> := [0x6d, 0x64, 0x61, 0x74]

  const TWO_32: nat := 0x1_0000_0000
  const TWO_63: nat := 0x8000_0000_0000_0000
  const TWO_64: nat := 0x1_0000_0000_0000_0000

  datatype Box = Box(at: nat, size: nat, kind: seq<byte>)

  // ---------------------------------------------------------------- numbers in bytes

  /** The four bytes at an offset as a big-endian number. */
  function Word(f: seq<byte>, i: nat): (n: nat)
    requires i + 4 <= |f|
    ensures n < TWO_32
  {
    f[i] as nat * 0x100_0000 + f[i + 1] as nat * 0x1_0000 + f[i + 2] as nat * 0x100 + f[i + 3] as nat
  }

  function LongWord(f: seq<byte>, i: nat): (n: nat)
    requires i + 8 <= |f|
    ensures n < TWO_64
  {
    Word(f, i) * TWO_32 + Word(f, i + 4)
  }

  function Digit256(n: nat): byte {
    (n % 256) as byte
  }

  function Bytes4(n: nat): seq<byte> {
    [Digit256(n / 0x100_0000), Digit256(n / 0x1_0000), Digit256(n / 0x100), Digit256(n)]
  }

  lemma Bytes4ReadBack(n: nat)
    requires n < TWO_32
    ensures Word(Bytes4(n), 0) == n
  {
    assert n == n / 0x100 * 0x100 + n % 256;
    assert n / 0x100 == n / 0x1_0000 * 0x100 + n / 0x100 % 256;
    assert n / 0x1_0000 == n / 0x100_0000 * 0x100 + n / 0x1_0000 % 256;
  }

  function Bytes8(n: nat): seq<byte> {
    Bytes4(n / TWO_32) + Bytes4(n % TWO_32)
  }

  lemma Bytes8ReadBack(n: nat)
    requires n < TWO_64
    ensures LongWord(Bytes8(n), 0) == n
  {
    Bytes4ReadBack(n / TWO_32);
    Bytes4ReadBack(n % TWO_32);
    SameWord(Bytes8(n), 0, Bytes4(n / TWO_32), 0);
    SameWord(Bytes8(n), 4, Bytes4(n % TWO_32), 0);
  }

  lemma SameWord(f: seq<byte>, i: nat, g: seq<byte>, j: nat)
    requires i + 4 <= |f| && j + 4 <= |g|
    requires f[i..i + 4] == g[j..j + 4]
    ensures Word(f, i) == Word(g, j)
  {
    var a, b := f[i..i + 4], g[j..j + 4];
    assert a[0] == b[0] && a[1] == b[1] && a[2] == b[2] && a[3] == b[3];
  }

  /** An unsigned 64-bit number taken as a signed one. */
  function Signed(n: nat): int {
    if n >= TWO_63 then n - TWO_64 else n
  }

  // ---------------------------------------------------------------- the recursive parser

  /** The size of the first box; 0 if its header is cut short, or if its size does not cover the header or leads
      beyond the end. */
  function FirstSize(s: seq<byte>): (size: nat)
    ensures size == 0 || 8 <= size <= |s|
  {
    if |s| < 8 then 0
    else
      var size := Word(s, 0);
      if size == 1 then LongSize(s)
      else if size == 0 then |s|
      else if 8 <= size <= |s| then size else 0
  }

  function LongSize(s: seq<byte>): (size: nat)
    ensures size == 0 || 16 <= size <= |s|
  {
    if |s| < 16 then 0
    else
      var size := Signed(LongWord(s, 8));
      if 16 <= size <= |s| then size else 0
  }

  /** The boxes of `s`, which begins at offset `at`, up to the end or to the first header that makes no sense. */
  function Parse(s: seq<byte>, at: nat): seq<Box>
    decreases |s|
  {
    var size := FirstSize(s);
    if size == 0 then [] else [Box(at, size, s[4..8])] + Parse(s[size..], at + size)
  }

  lemma {:induction false} BoxesInside(s: seq<byte>, at: nat)
    ensures forall b | b in Parse(s, at) :: at <= b.at && 8 <= b.size && b.at + b.size <= at + |s|
    decreases |s|
  {
    var size := FirstSize(s);
    if size != 0 {
      BoxesInside(s[size..], at + size);
    }
  }

  /** The boxes stand one after the other from `at` on, inside the file, each of them at least a header long. */
  lemma {:induction false} BoxesChain(s: seq<byte>, at: nat)
    ensures var boxes := Parse(s, at);
            && (boxes != [] ==> boxes[0].at == at)
            && (forall i | 0 < i < |boxes| :: boxes[i].at == boxes[i - 1].at + boxes[i - 1].size)
            && (forall i | 0 <= i < |boxes| :: 8 <= boxes[i].size && boxes[i].at + boxes[i].size <= at + |s|)
    decreases |s|
  {
    BoxesInside(s, at);
    var size := FirstSize(s);
    if size != 0 {
      BoxesChain(s[size..], at + size);
    }
  }

  ghost predicate Rising(boxes: seq<Box>) {
    forall i, j | 0 <= i < j < |boxes| :: boxes[i].at < boxes[j].at
  }

  lemma {:induction false} BoxesRise(s: seq<byte>, at: nat)
    ensures Rising(Parse(s, at))
    decreases |s|
  {
    var size := FirstSize(s);
    if size != 0 {
      BoxesRise(s[size..], at + size);
      BoxesInside(s[size..], at + size);
    }
  }

  /** A 64-bit size of 2^63 or more is negative once it is signed, and ends the scan. */
  lemma HugeSizeStops(s: seq<byte>, at: nat)
    requires 16 <= |s| && Word(s, 0) == 1 && LongWord(s, 8) >= 0x8000_0000_0000_0000
    ensures Parse(s, at) == []
  {
  }

  // ---------------------------------------------------------------- the scan

  /** What is left of a scan that has seen `moov` and `mdat` so far: it stops once it has both. */
  function Scan(boxes: seq<Box>, moov: int, mdat: int): (int, int) {
    if boxes == [] then (moov, mdat)
    else
      var m := if boxes[0].kind == MOOV then boxes[0].at else moov;
      var d := if boxes[0].kind == MDAT then boxes[0].at else mdat;
      if m >= 0 && d >= 0 then (m, d) else Scan(boxes[1..], m, d)
  }

  /** Both kinds are found if they are there, at the offset of a box of their kind. */
  lemma {:induction false} ScanFinds(boxes: seq<Box>, moov: int, mdat: int)
    requires moov < 0 || mdat < 0
    ensures var (m, d) := Scan(boxes, moov, mdat);
            && (m >= 0 <==> moov >= 0 || exists b | b in boxes :: b.kind == MOOV)
            && (d >= 0 <==> mdat >= 0 || exists b | b in boxes :: b.kind == MDAT)
            && (m == moov || exists b | b in boxes :: b.kind == MOOV && b.at == m)
            && (d == mdat || exists b | b in boxes :: b.kind == MDAT && b.at == d)
  {
    if boxes != [] {
      var m := if boxes[0].kind == MOOV then boxes[0].at else moov;
      var d := if boxes[0].kind == MDAT then boxes[0].at else mdat;
      assert boxes[0] in boxes && boxes == [boxes[0]] + boxes[1..];
      if m < 0 || d < 0 {
        ScanFinds(boxes[1..], m, d);
      }
    }
  }

  /** Reading one header: the size of the box, or 0 where the scan gives up. */
  method ReadSize(f: seq<byte>, offset: nat) returns (size: int)
    requires offset < |f|
    ensures size == FirstSize(f[offset..])
  {
    ghost var s := f[offset..];
    if |f| - offset < 8 {
      return 0;
    }
    size := Word(f, offset);
    SameWord(f, offset, s, 0);
    var headerSize := 8;
    if size == 1 {
      if |f| - offset < 16 {
        return 0;
      }
      size := Signed(LongWord(f, offset + 8));
      SameWord(f, offset + 8, s, 8);
      SameWord(f, offset + 12, s, 12);
      headerSize := 16;
      if size < headerSize {
        return 0;
      }
    } else if size == 0 {
      size := |f| - offset;
    }
    if size < headerSize || size > |f| - offset {
      return 0;
    }
  }

  /** `rest` are the boxes from this offset on. */
  ghost predicate Remaining(f: seq<byte>, offset: nat, rest: seq<Box>) {
    offset <= |f| && rest == Parse(f[offset..], offset)
  }

  lemma NextBox(f: seq<byte>, offset: nat, rest: seq<Box>, size: nat)
    requires Remaining(f, offset, rest) && offset < |f| && size == FirstSize(f[offset..])
    ensures if size == 0 then rest == []
            else offset + 8 <= |f| && rest != [] && rest[0] == Box(offset, size, f[offset + 4..offset + 8])
                 && Remaining(f, offset + size, rest[1..])
  {
    if size > 0 {
      assert f[offset..][size..] == f[offset + size..];
      assert f[offset..][4..8] == f[offset + 4..offset + 8];
    }
  }

  /** One step of the loop: the next box, if there is one. */
  method ReadBox(f: seq<byte>, offset: nat, ghost rest: seq<Box>) returns (size: nat, name: seq<byte>)
    requires Remaining(f, offset, rest) && offset < |f|
    ensures if size == 0 then rest == []
            else rest != [] && rest[0] == Box(offset, size, name) && Remaining(f, offset + size, rest[1..])
  {
    size := ReadSize(f, offset);
    NextBox(f, offset, rest, size);
    name := if size == 0 then [] else f[offset + 4..offset + 8];
  }

  lemma AllRemain(f: seq<byte>)
    ensures Remaining(f, 0, Parse(f, 0))
  {
    assert f[0..] == f;
  }

  /** The loop finds what the recursive parser finds, for every file. */
  method BoxPositions(f: seq<byte>) returns (moov: int, mdat: int)
    ensures (moov, mdat) == Scan(Parse(f, 0), -1, -1)
  {
    var offset := 0;
    moov, mdat := -1, -1;
    ghost var rest := Parse(f, 0);
    AllRemain(f);
    while offset < |f|
      invariant Remaining(f, offset, rest)
      invariant Scan(Parse(f, 0), -1, -1) == Scan(rest, moov, mdat)
    {
      var size, name := ReadBox(f, offset, rest);
      if size == 0 {
        return;
      }
      if name == MOOV {
        moov := offset;
      }
      if name == MDAT {
        mdat := offset;
      }
      if moov >= 0 && mdat >= 0 {
        return;
      }
      offset := offset + size;
      rest := rest[1..];
    }
  }

  // ---------------------------------------------------------------- the decision

  predicate HasMp4Header(f: seq<byte>) {
    |f| >= 12 && f[4..8] == FTYP
  }

  ghost predicate Has(kinds: seq<seq<byte>>, kind: seq<byte>) {
    exists i | 0 <= i < |kinds| :: kinds[i] == kind
  }

  /** No index at all, or some media data before the first index. */
  ghost predicate IndexIsLate(kinds: seq<seq<byte>>) {
    !Has(kinds, MOOV) || exists i | 0 <= i < |kinds| :: kinds[i] == MDAT && !Has(kinds[..i], MOOV)
  }

  function Kinds(boxes: seq<Box>): (k: seq<seq<byte>>)
    ensures |k| == |boxes| && forall i | 0 <= i < |k| :: k[i] == boxes[i].kind
  {
    seq(|boxes|, i requires 0 <= i < |boxes| => boxes[i].kind)
  }

  predicate Late(found: (int, int)) {
    found.0 < 0 || (found.0 > found.1 && found.1 >= 0)
  }

  lemma {:induction false} AfterMoov(boxes: seq<Box>, moov: int)
    requires moov >= 0 && Rising(boxes) && (boxes != [] ==> moov < boxes[0].at)
    ensures !Late(Scan(boxes, moov, -1))
  {
    if boxes != [] && boxes[0].kind != MDAT {
      AfterMoov(boxes[1..], if boxes[0].kind == MOOV then boxes[0].at else moov);
    }
  }

  lemma {:induction false} AfterMdat(boxes: seq<Box>, mdat: int)
    requires mdat >= 0 && Rising(boxes) && (boxes != [] ==> mdat < boxes[0].at)
    ensures Late(Scan(boxes, -1, mdat))
  {
    if boxes != [] && boxes[0].kind != MOOV {
      AfterMdat(boxes[1..], if boxes[0].kind == MDAT then boxes[0].at else mdat);
    }
  }

  lemma {:induction false} ScanDecides(boxes: seq<Box>)
    requires Rising(boxes)
    ensures Late(Scan(boxes, -1, -1)) <==> IndexIsLate(Kinds(boxes))
  {
    var kinds := Kinds(boxes);
    if boxes != [] {
      if boxes[0].kind == MOOV {
        AfterMoov(boxes[1..], boxes[0].at);
        FirstIsMoov(kinds);
      } else if boxes[0].kind == MDAT {
        AfterMdat(boxes[1..], boxes[0].at);
        FirstIsMdat(kinds);
      } else {
        ScanDecides(boxes[1..]);
        assert kinds[1..] == Kinds(boxes[1..]);
        FirstIsOther(kinds);
      }
    }
  }

  lemma FirstIsMoov(kinds: seq<seq<byte>>)
    requires kinds != [] && kinds[0] == MOOV
    ensures !IndexIsLate(kinds)
  {
    forall i | 0 < i < |kinds| ensures Has(kinds[..i], MOOV) {
      assert kinds[..i][0] == MOOV;
    }
  }

  lemma FirstIsMdat(kinds: seq<seq<byte>>)
    requires kinds != [] && kinds[0] == MDAT
    ensures IndexIsLate(kinds)
  {
    assert kinds[..0] == [];
  }

  lemma HasFurther(kinds: seq<seq<byte>>, kind: seq<byte>)
    requires kinds != [] && kinds[0] != kind
    ensures Has(kinds, kind) <==> Has(kinds[1..], kind)
  {
    if Has(kinds, kind) {
      var i :| 0 <= i < |kinds| && kinds[i] == kind;
      assert kinds[1..][i - 1] == kind;
    }
  }

  lemma FirstIsOther(kinds: seq<seq<byte>>)
    requires kinds != [] && kinds[0] != MOOV && kinds[0] != MDAT
    ensures IndexIsLate(kinds) <==> IndexIsLate(kinds[1..])
  {
    HasFurther(kinds, MOOV);
    forall i | 0 < i < |kinds| ensures Has(kinds[..i], MOOV) <==> Has(kinds[1..][..i - 1], MOOV) {
      assert kinds[..i][1..] == kinds[1..][..i - 1];
      HasFurther(kinds[..i], MOOV);
    }
    if exists i | 0 <= i < |kinds| :: kinds[i] == MDAT && !Has(kinds[..i], MOOV) {
      var i :| 0 <= i < |kinds| && kinds[i] == MDAT && !Has(kinds[..i], MOOV);
      assert kinds[1..][i - 1] == MDAT;
    }
    if exists i | 0 <= i < |kinds| - 1 :: kinds[1..][i] == MDAT && !Has(kinds[1..][..i], MOOV) {
      var i :| 0 <= i < |kinds| - 1 && kinds[1..][i] == MDAT && !Has(kinds[1..][..i], MOOV);
      assert kinds[i + 1] == MDAT && !Has(kinds[..i + 1], MOOV);
    }
  }

  /** The index has to move exactly if the file begins like an MP4 file and no index is reached, or some media
      data comes before the first one. */
  method NeedsFaststart(f: seq<byte>) returns (needs: bool)
    ensures needs <==> HasMp4Header(f) && IndexIsLate(Kinds(Parse(f, 0)))
  {
    if !HasMp4Header(f) {
      return false;
    }
    var moov, mdat := BoxPositions(f);
    BoxesRise(f, 0);
    ScanDecides(Parse(f, 0));
    if moov < 0 {
      return true;
    }
    return moov > mdat && mdat >= 0;
  }

  // ---------------------------------------------------------------- printing

  type Kind = k: seq<byte> | |k| == 4 witness [0, 0, 0, 0]

  /** A box as it is written: with a 32-bit size, a 64-bit size, or none because it runs to the end. */
  datatype Written = Short(kind: Kind, body: seq<byte>)
                   | Long(kind: Kind, body: seq<byte>)
                   | ToEnd(kind: Kind, body: seq<byte>)

  predicate Fits(w: Written) {
    && (w.Short? ==> 8 + |w.body| < TWO_32)
    && (w.Long? ==> 16 + |w.body| < TWO_63)
  }

  function Length(w: Written): nat {
    (if w.Long? then 16 else 8) + |w.body|
  }

  function PrintBox(w: Written): (s: seq<byte>)
    ensures |s| == Length(w) && s[4..8] == w.kind
  {
    match w
    case Short(kind, body) => Bytes4(8 + |body|) + kind + body
    case Long(kind, body) => Bytes4(1) + kind + Bytes8(16 + |body|) + body
    case ToEnd(kind, body) => Bytes4(0) + kind + body
  }

  /** Every size fits its field, and only the last box runs to the end. */
  predicate Printable(boxes: seq<Written>) {
    boxes == [] || (Fits(boxes[0]) && (boxes[0].ToEnd? ==> |boxes| == 1) && Printable(boxes[1..]))
  }

  function Print(boxes: seq<Written>): seq<byte> {
    if boxes == [] then [] else PrintBox(boxes[0]) + Print(boxes[1..])
  }

  /** Where the boxes of a list stand, the first of them at `at`. */
  function Placed(boxes: seq<Written>, at: nat): seq<Box> {
    if boxes == [] then []
    else [Box(at, Length(boxes[0]), boxes[0].kind)] + Placed(boxes[1..], at + Length(boxes[0]))
  }

  lemma PrintedFields(w: Written)
    requires Fits(w)
    ensures var s := PrintBox(w);
            match w
            case Short(_, _) => Word(s, 0) == Length(w) > 1
            case Long(_, _) => Word(s, 0) == 1 && LongWord(s, 8) == Length(w)
            case ToEnd(_, _) => Word(s, 0) == 0
  {
    var s := PrintBox(w);
    match w
    case Short(_, body) =>
      Bytes4ReadBack(Length(w));
      SameWord(s, 0, Bytes4(Length(w)), 0);
    case Long(_, body) =>
      Bytes4ReadBack(1);
      SameWord(s, 0, Bytes4(1), 0);
      Bytes8ReadBack(Length(w));
      SameWord(s, 8, Bytes8(Length(w)), 0);
      SameWord(s, 12, Bytes8(Length(w)), 4);
    case ToEnd(_, body) =>
      Bytes4ReadBack(0);
      SameWord(s, 0, Bytes4(0), 0);
  }

  lemma PrintedFirst(w: Written, rest: seq<byte>)
    requires Fits(w) && (w.ToEnd? ==> rest == [])
    ensures var s := PrintBox(w) + rest;
            FirstSize(s) == Length(w) && s[4..8] == w.kind && s[Length(w)..] == rest
  {
    var s := PrintBox(w) + rest;
    PrintedFields(w);
    SameWord(s, 0, PrintBox(w), 0);
    if w.Long? {
      SameWord(s, 8, PrintBox(w), 8);
      SameWord(s, 12, PrintBox(w), 12);
    }
  }

  /** Box by box, the bytes are found to be these boxes. */
  ghost predicate MadeOf(s: seq<byte>, boxes: seq<Written>)
    decreases |boxes|
  {
    if boxes == [] then s == []
    else FirstSize(s) == Length(boxes[0]) && s[4..8] == boxes[0].kind && MadeOf(s[FirstSize(s)..], boxes[1..])
  }

  lemma {:induction false} PrintIsMadeOf(boxes: seq<Written>)
    requires Printable(boxes)
    ensures MadeOf(Print(boxes), boxes)
  {
    if boxes != [] {
      PrintedFirst(boxes[0], Print(boxes[1..]));
      PrintIsMadeOf(boxes[1..]);
    }
  }

  lemma {:induction false} MadeOfParses(s: seq<byte>, boxes: seq<Written>, at: nat)
    requires MadeOf(s, boxes)
    ensures Parse(s, at) == Placed(boxes, at)
    decreases |boxes|
  {
    if boxes != [] {
      MadeOfParses(s[FirstSize(s)..], boxes[1..], at + FirstSize(s));
    }
  }

  /** Writing any list of boxes and scanning the bytes finds the boxes of the list, in order and in place. */
  lemma PrintedBoxesAreFound(boxes: seq<Written>)
    requires Printable(boxes)
    ensures Parse(Print(boxes), 0) == Placed(boxes, 0)
  {
    PrintIsMadeOf(boxes);
    MadeOfParses(Print(boxes), boxes, 0);
  }

  lemma {:induction false} PlacedKinds(boxes: seq<Written>, at: nat)
    ensures |Placed(boxes, at)| == |boxes|
    ensures forall i | 0 <= i < |boxes| :: Placed(boxes, at)[i].kind == boxes[i].kind
  {
    if boxes != [] {
      PlacedKinds(boxes[1..], at + Length(boxes[0]));
    }
  }

  // ---------------------------------------------------------------- everything found was written

  /** The bytes of a text in ASCII. */
  function Ascii(text: string): (s: seq<byte>)
    requires forall c | c in text :: c < 128 as char
    ensures |s| == |text| && forall i | 0 <= i < |s| :: s[i] as int == text[i] as int
  {
    seq(|text|, i requires 0 <= i < |text| => assert text[i] in text; text[i] as byte)
  }

  lemma KindsAre()
    ensures FTYP == Ascii("ftyp") && MOOV == Ascii("moov") && MDAT == Ascii("mdat")
  {
  }

  lemma WordIsBytes(f: seq<byte>, i: nat)
    requires i + 4 <= |f|
    ensures Bytes4(Word(f, i)) == f[i..i + 4]
  {
    var a, b, c, d := f[i] as nat, f[i + 1] as nat, f[i + 2] as nat, f[i + 3] as nat;
    assert Word(f, i) == ((a * 256 + b) * 256 + c) * 256 + d;
    assert Word(f, i) / 256 == (a * 256 + b) * 256 + c;
    assert Word(f, i) / 256 / 256 == a * 256 + b;
    assert Word(f, i) / 0x1_0000 == a * 256 + b;
    assert Word(f, i) / 0x100_0000 == a;
  }

  /** Sizes have their most significant byte first. */
  lemma BigEndian()
    ensures Word([1, 2, 3, 4], 0) == 0x0102_0304
    ensures LongWord([1, 2, 3, 4, 5, 6, 7, 8], 0) == 0x0102_0304_0506_0708
  {
  }

  /** A file without a box type `ftyp` in its first twelve bytes is left alone, whatever else is in it. */
  lemma OtherFilesAreLeft(f: seq<byte>)
    ensures HasMp4Header(f) <==> |f| >= 12 && f[4..8] == Ascii("ftyp")
  {
    KindsAre();
  }

  /** In particular a list of boxes the first of which is of another type. */
  lemma PrintedWithoutFtyp(boxes: seq<Written>)
    requires boxes != [] && boxes[0].kind != Ascii("ftyp")
    ensures !HasMp4Header(Print(boxes))
  {
    OtherFilesAreLeft(Print(boxes));
    assert Print(boxes)[4..8] == PrintBox(boxes[0])[4..8];
  }

  lemma LongIsBytes(f: seq<byte>, i: nat)
    requires i + 8 <= |f|
    ensures Bytes8(LongWord(f, i)) == f[i..i + 8]
  {
    WordIsBytes(f, i);
    WordIsBytes(f, i + 4);
    assert LongWord(f, i) / TWO_32 == Word(f, i) && LongWord(f, i) % TWO_32 == Word(f, i + 4);
  }

  /** The bytes begin with this box, and the size read is its length. */
  ghost predicate First(s: seq<byte>, w: Written, rest: seq<byte>) {
    && Fits(w) && (w.ToEnd? ==> rest == []) && Length(w) == FirstSize(s) && w.kind == s[4..8]
    && s == PrintBox(w) + rest && rest == s[FirstSize(s)..]
  }

  lemma ShortIsWritten(s: seq<byte>)
    requires FirstSize(s) > 0 && Word(s, 0) > 1
    ensures First(s, Short(s[4..8], s[8..FirstSize(s)]), s[FirstSize(s)..])
  {
    var size := FirstSize(s);
    WordIsBytes(s, 0);
    assert s == s[..4] + s[4..8] + s[8..size] + s[size..];
  }

  lemma Pieces<T>(s: seq<T>, a: nat, b: nat, c: nat, d: nat)
    requires a <= b <= c <= d <= |s|
    ensures s == s[..a] + s[a..b] + s[b..c] + s[c..d] + s[d..]
  {
  }

  lemma LongIsWritten(s: seq<byte>)
    requires FirstSize(s) > 0 && Word(s, 0) == 1
    ensures First(s, Long(s[4..8], s[16..FirstSize(s)]), s[FirstSize(s)..])
  {
    var size := FirstSize(s);
    WordIsBytes(s, 0);
    LongIsBytes(s, 8);
    assert Bytes4(1) == s[..4] && Bytes8(size) == s[8..16];
    Pieces(s, 4, 8, 16, size);
  }

  lemma ToEndIsWritten(s: seq<byte>)
    requires FirstSize(s) > 0 && Word(s, 0) == 0
    ensures First(s, ToEnd(s[4..8], s[8..]), s[FirstSize(s)..])
  {
    WordIsBytes(s, 0);
    assert s == s[..4] + s[4..8] + s[8..] + [];
  }

  /** A box that is found is one that could have been written, in one of the three forms. */
  lemma FirstIsWritten(s: seq<byte>) returns (w: Written, rest: seq<byte>)
    requires FirstSize(s) > 0
    ensures First(s, w, rest) && |rest| < |s|
  {
    rest := s[FirstSize(s)..];
    if Word(s, 0) == 1 {
      w := Long(s[4..8], s[16..FirstSize(s)]);
      LongIsWritten(s);
    } else if Word(s, 0) == 0 {
      w := ToEnd(s[4..8], s[8..]);
      ToEndIsWritten(s);
    } else {
      w := Short(s[4..8], s[8..FirstSize(s)]);
      ShortIsWritten(s);
    }
  }

  lemma NothingPrinted(boxes: seq<Written>)
    ensures Print(boxes) == [] <==> boxes == []
  {
  }

  /** A box in front of a list. */
  lemma PrintInFront(w: Written, boxes: seq<Written>)
    ensures Print([w] + boxes) == PrintBox(w) + Print(boxes)
    ensures Fits(w) && (w.ToEnd? ==> boxes == []) && Printable(boxes) ==> Printable([w] + boxes)
  {
    assert ([w] + boxes)[1..] == boxes;
  }

  lemma PlacedInFront(w: Written, boxes: seq<Written>, at: nat)
    ensures Placed([w] + boxes, at) == [Box(at, Length(w), w.kind)] + Placed(boxes, at + Length(w))
  {
    assert ([w] + boxes)[1..] == boxes;
  }

  /** The bytes of a list of boxes, and those after it. */
  ghost predicate Begins(s: seq<byte>, boxes: seq<Written>, rest: seq<byte>) {
    Printable(boxes) && s == Print(boxes) + rest && FirstSize(rest) == 0
  }

  lemma NothingAfterToEnd(w: Written, later: seq<byte>, boxes: seq<Written>, rest: seq<byte>)
    requires (w.ToEnd? ==> later == []) && Begins(later, boxes, rest)
    ensures w.ToEnd? ==> boxes == []
  {
    NothingPrinted(boxes);
    assert w.ToEnd? ==> |Print(boxes)| <= |Print(boxes) + rest| == 0;
  }

  lemma Regroup<T>(a: seq<T>, b: seq<T>, c: seq<T>)
    ensures a + (b + c) == (a + b) + c
  {
  }

  lemma BeginsInFront(s: seq<byte>, w: Written, later: seq<byte>, boxes: seq<Written>, rest: seq<byte>)
    requires First(s, w, later) && Begins(later, boxes, rest)
    ensures Begins(s, [w] + boxes, rest)
  {
    NothingAfterToEnd(w, later, boxes, rest);
    PrintInFront(w, boxes);
    Regroup(PrintBox(w), Print(boxes), rest);
  }

  lemma NoneFound(s: seq<byte>, at: nat)
    requires FirstSize(s) == 0
    ensures Begins(s, [], s) && Parse(s, at) == Placed([], at)
  {
    assert Print([]) + s == s;
  }

  lemma ParseNext(s: seq<byte>, at: nat)
    requires FirstSize(s) > 0
    ensures Parse(s, at) == [Box(at, FirstSize(s), s[4..8])] + Parse(s[FirstSize(s)..], at + FirstSize(s))
  {
  }

  lemma FoundInFront(parsed: seq<Box>, at: nat, w: Written, later: seq<Box>, boxes: seq<Written>)
    requires parsed == [Box(at, Length(w), w.kind)] + later && later == Placed(boxes, at + Length(w))
    ensures parsed == Placed([w] + boxes, at)
  {
    PlacedInFront(w, boxes, at);
  }

  /** What the scan finds is this list of boxes, and the bytes are the list, with no box after it. */
  ghost predicate Found(s: seq<byte>, at: nat, boxes: seq<Written>, rest: seq<byte>) {
    Begins(s, boxes, rest) && Parse(s, at) == Placed(boxes, at)
  }

  lemma ParsedInFront(s: seq<byte>, at: nat, w: Written, later: seq<byte>, boxes: seq<Written>)
    requires FirstSize(s) == Length(w) && w.kind == s[4..8] && later == s[FirstSize(s)..]
    requires Parse(later, at + Length(w)) == Placed(boxes, at + Length(w))
    ensures Parse(s, at) == Placed([w] + boxes, at)
  {
    var size, kind := FirstSize(s), s[4..8];
    ParseNext(s, at);
    assert Parse(s, at) == [Box(at, size, kind)] + Parse(later, at + size);
    FoundInFront(Parse(s, at), at, w, Parse(later, at + size), boxes);
  }

  lemma InFront(s: seq<byte>, at: nat, w: Written, later: seq<byte>, boxes: seq<Written>, rest: seq<byte>)
    requires First(s, w, later) && Found(later, at + Length(w), boxes, rest)
    ensures Found(s, at, [w] + boxes, rest)
  {
    BeginsInFront(s, w, later, boxes, rest);
    ParsedInFront(s, at, w, later, boxes);
  }

  ghost predicate Explained(s: seq<byte>, at: nat) {
    exists boxes, rest :: Found(s, at, boxes, rest)
  }

  lemma NextExplained(s: seq<byte>, at: nat, w: Written, later: seq<byte>)
    requires First(s, w, later) && Explained(later, at + Length(w))
    ensures Explained(s, at)
  {
    var boxes, rest :| Found(later, at + Length(w), boxes, rest);
    InFront(s, at, w, later, boxes, rest);
    assert Found(s, at, [w] + boxes, rest);
  }

  lemma NothingExplained(s: seq<byte>, at: nat)
    requires FirstSize(s) == 0
    ensures Explained(s, at)
  {
    NoneFound(s, at);
    assert Found(s, at, [], s);
  }

  lemma {:induction false} AllExplained(s: seq<byte>, at: nat)
    ensures Explained(s, at)
    decreases |s|
  {
    if FirstSize(s) == 0 {
      NothingExplained(s, at);
    } else {
      var w, later := FirstIsWritten(s);
      AllExplained(later, at + Length(w));
      NextExplained(s, at, w, later);
    }
  }

  /** And so is all that is found: every file is a written list of boxes, the ones found, and a rest in which no box
      begins. The scan overlooks nothing and makes nothing up. */
  lemma FoundWasWritten(s: seq<byte>, at: nat) returns (boxes: seq<Written>, rest: seq<byte>)
    ensures Printable(boxes) && s == Print(boxes) + rest && FirstSize(rest) == 0
    ensures Parse(s, at) == Placed(boxes, at)
  {
    AllExplained(s, at);
    boxes, rest :| Found(s, at, boxes, rest);
  }

  /** So the decision about a written file depends on the kinds of its boxes and on nothing else. */
  lemma PrintedDecision(boxes: seq<Written>)
    requires Printable(boxes) && boxes != [] && boxes[0].kind == FTYP && |Print(boxes)| >= 12
    ensures HasMp4Header(Print(boxes))
    ensures IndexIsLate(Kinds(Parse(Print(boxes), 0)))
       <==> IndexIsLate(seq(|boxes|, i requires 0 <= i < |boxes| => boxes[i].kind))
  {
    PrintedBoxesAreFound(boxes);
    PlacedKinds(boxes, 0);
    assert Print(boxes)[4..8] == PrintBox(boxes[0])[4..8];
    assert Kinds(Placed(boxes, 0)) == seq(|boxes|, i requires 0 <= i < |boxes| => boxes[i].kind);
  }
}
