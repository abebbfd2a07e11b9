/** The HLS playlist parser and the choice of a rendition (internal/fetch/m3u8.go, lines 29-117). Text is a sequence
    of code points; the target duration, which nothing reads, is left out. */
module Playlist {
  import opened Basics
  import opened Times
  import L = Label
  import R = Ranges

  // ---------------------------------------------------------------- pieces of text

  function Split(s: string, sep: char): (parts: seq<string>)
    ensures parts != []
  {
    if s == "" then [""]
    else
      var rest := Split(s[1..], sep);
      if s[0] == sep then [""] + rest else [[s[0]] + rest[0]] + rest[1..]
  }

  function Join(parts: seq<string>, sep: char): string
    requires parts != []
  {
    if |parts| == 1 then parts[0] else parts[0] + ([sep] + Join(parts[1..], sep))
  }

  lemma {:induction false} SplitHead(p: string, sep: char, rest: string)
    requires sep !in p
    ensures Split(p + ([sep] + rest), sep) == [p] + Split(rest, sep)
  {
    var s := p + ([sep] + rest);
    if p == "" {
      assert s == [sep] + rest && s[1..] == rest;
    } else {
      assert s[1..] == p[1..] + ([sep] + rest);
      SplitHead(p[1..], sep, rest);
      assert [p[0]] + p[1..] == p;
    }
  }

  lemma {:induction false} SplitWhole(p: string, sep: char)
    requires sep !in p
    ensures Split(p, sep) == [p]
  {
    if p != "" {
      SplitWhole(p[1..], sep);
      assert [p[0]] + p[1..] == p;
    }
  }

  /** Splitting undoes joining. */
  lemma {:induction false} SplitOfJoin(parts: seq<string>, sep: char)
    requires parts != [] && forall p | p in parts :: sep !in p
    ensures Split(Join(parts, sep), sep) == parts
  {
    if |parts| == 1 {
      SplitWhole(parts[0], sep);
    } else {
      SplitOfJoin(parts[1..], sep);
      SplitHead(parts[0], sep, Join(parts[1..], sep));
    }
  }

  /** Unicode white space. */
  predicate IsSpace(c: char) {
    || c == ' ' || 9 <= c as int <= 13 || c as int == 0x85 || c as int == 0xA0 || c as int == 0x1680
    || 0x2000 <= c as int <= 0x200A || c as int == 0x2028 || c as int == 0x2029 || c as int == 0x202F
    || c as int == 0x205F || c as int == 0x3000
  }

  /** The twenty-five code points of white space. */
  lemma SpacesAre(c: char)
    ensures IsSpace(c) <==> c as int in {
      0x9, 0xA, 0xB, 0xC, 0xD, 0x20, 0x85, 0xA0, 0x1680, 0x2000, 0x2001, 0x2002, 0x2003, 0x2004, 0x2005, 0x2006,
      0x2007, 0x2008, 0x2009, 0x200A, 0x2028, 0x2029, 0x202F, 0x205F, 0x3000}
  {
  }

  predicate IsQuote(c: char) {
    c == '\"'
  }

  function TrimLeft(s: string, edge: char -> bool): string {
    if s != "" && edge(s[0]) then TrimLeft(s[1..], edge) else s
  }

  function TrimRight(s: string, edge: char -> bool): string {
    if s != "" && edge(s[|s| - 1]) then TrimRight(s[..|s| - 1], edge) else s
  }

  function Trim(s: string, edge: char -> bool): string {
    TrimRight(TrimLeft(s, edge), edge)
  }

  predicate Trimmed(s: string, edge: char -> bool) {
    s != "" ==> !edge(s[0]) && !edge(s[|s| - 1])
  }

  lemma {:induction false} TrimmedRight(s: string, after: string, edge: char -> bool)
    requires forall c | c in after :: edge(c)
    requires s == "" || !edge(s[|s| - 1])
    ensures TrimRight(s + after, edge) == s
    decreases |after|
  {
    if after == "" {
      assert s + after == s;
    } else {
      var n := |after| - 1;
      assert (s + after)[..|s + after| - 1] == s + after[..n] && after[n] in after;
      TrimmedRight(s, after[..n], edge);
    }
  }

  lemma {:induction false} TrimmedLeft(before: string, s: string, edge: char -> bool)
    requires forall c | c in before :: edge(c)
    requires s == "" || !edge(s[0])
    ensures TrimLeft(before + s, edge) == s
    decreases |before|
  {
    if before == "" {
      assert before + s == s;
    } else {
      assert (before + s)[1..] == before[1..] + s && before[0] in before;
      TrimmedLeft(before[1..], s, edge);
    }
  }

  /** Edges before and after a trimmed text go, and no more. */
  lemma EdgesGo(before: string, s: string, after: string, edge: char -> bool)
    requires (forall c | c in before :: edge(c)) && (forall c | c in after :: edge(c)) && Trimmed(s, edge) && s != ""
    ensures Trim(before + (s + after), edge) == s
  {
    TrimmedLeft(before, s + after, edge);
    TrimmedRight(s, after, edge);
  }

  lemma TrimmedStays(s: string, edge: char -> bool)
    requires Trimmed(s, edge)
    ensures Trim(s, edge) == s
  {
  }

  function Cut(s: string, sep: char): Option<(string, string)> {
    if s == "" then None
    else if s[0] == sep then Some(("", s[1..]))
    else match Cut(s[1..], sep)
         case Some((k, v)) => Some(([s[0]] + k, v))
         case None => None
  }

  lemma {:induction false} CutAt(k: string, sep: char, v: string)
    requires sep !in k
    ensures Cut(k + ([sep] + v), sep) == Some((k, v))
  {
    var s := k + ([sep] + v);
    if k == "" {
      assert s == [sep] + v && s[1..] == v;
    } else {
      assert s[1..] == k[1..] + ([sep] + v);
      CutAt(k[1..], sep, v);
      assert [k[0]] + k[1..] == k;
    }
  }

  /** A decimal number at the start of a text, after white space and a sign; nothing beyond 64 bits. */
  function ScanInt(s: string): Option<int> {
    if s != "" && IsSpace(s[0]) then ScanInt(s[1..])
    else
      var signed := s != "" && (s[0] == '-' || s[0] == '+');
      var digits := if signed then s[1..] else s;
      var k := DigitRun(digits);
      if k == 0 then None
      else match Number(digits[..k])
           case None => None
           case Some(n) =>
             var value: int := n;
             var result := if signed && s[0] == '-' then -value else value;
             if L.LEAST <= result < -L.LEAST then Some(result) else None
  }

  lemma ScanDecimal(n: nat)
    requires n < -L.LEAST
    ensures ScanInt(L.Decimal(n)) == Some(n)
  {
    var s := L.Decimal(n);
    L.DecimalReadsBack(n);
    assert IsDigit(s[0]);
    RunOf(s, "");
    assert s + "" == s && s[..|s|] == s;
  }

  /** A sign is read, and what follows the digits is left. */
  lemma ScanSigned(n: nat, rest: string)
    requires n < -L.LEAST && (rest == "" || !IsDigit(rest[0]))
    ensures ScanInt(L.Decimal(n) + rest) == Some(n)
    ensures var m: int := n; ScanInt("-" + (L.Decimal(n) + rest)) == Some(-m)
    ensures ScanInt("+" + (L.Decimal(n) + rest)) == Some(n)
  {
    var s := L.Decimal(n);
    L.DecimalReadsBack(n);
    assert IsDigit(s[0]) && (s + rest)[0] == s[0];
    RunOf(s, rest);
    assert (s + rest)[..|s|] == s;
    assert ("-" + (s + rest))[1..] == s + rest && ("+" + (s + rest))[1..] == s + rest;
  }

  /** A number that does not fit 64 bits is not read, nor is a text that does not begin with one. */
  lemma ScanFails(n: nat, s: string)
    ensures n >= 0x8000_0000_0000_0000 ==> ScanInt(L.Decimal(n)).None?
    ensures s == "" || (!IsSpace(s[0]) && !IsDigit(s[0]) && s[0] != '-' && s[0] != '+') ==> ScanInt(s).None?
  {
    var t := L.Decimal(n);
    L.DecimalReadsBack(n);
    assert IsDigit(t[0]);
    RunOf(t, "");
    assert t + "" == t && t[..|t|] == t;
  }

  // ---------------------------------------------------------------- the parser

  datatype Variant = Variant(url: string, resolution: string, bandwidth: int, codec: string, audio: string)

  datatype Playlist = Playlist(media: bool, segments: seq<string>, variants: seq<Variant>)

  datatype Result = Ok(p: Playlist) | LineTooLong | Mixed

  const MEDIA: string := "#EXT-X-MEDIA"
  const DURATION: string := "#EXT-X-TARGETDURATION:"
  const STREAM_INF: string := "#EXT-X-STREAM-INF:"

  const NO_VARIANT := Variant("", "", 0, "", "")

  datatype State = State(segments: seq<string>, variants: seq<Variant>, pending: Option<Variant>)

  const START := State([], [], None)

  datatype Tag = Blank | Ignored | StreamInf | Plain

  function TagOf(line: string): Tag {
    if line == "" then Blank
    else if MEDIA <= line || DURATION <= line then Ignored
    else if STREAM_INF <= line then StreamInf
    else Plain
  }

  function Attribute(part: string, v: Variant): Variant {
    match Cut(part, '=')
    case None => v
    case Some((rawKey, rawValue)) =>
      var key, value := Trim(rawKey, IsSpace), Trim(Trim(rawValue, IsSpace), IsQuote);
      if key == "RESOLUTION" then v.(resolution := value)
      else if key == "BANDWIDTH" then
        match ScanInt(value) case Some(n) => v.(bandwidth := n) case None => v
      else if key == "CODECS" then v.(codec := value)
      else if key == "AUDIO" then v.(audio := value)
      else v
  }

  function Attributes(parts: seq<string>, v: Variant): Variant {
    if parts == [] then v else Attributes(parts[1..], Attribute(parts[0], v))
  }

  /** What one line does: a line that follows a rendition's attributes and is not a known tag is its address. */
  function Step(st: State, raw: string): State {
    var line := Trim(raw, IsSpace);
    match TagOf(line)
    case Blank => st
    case Ignored => st
    case StreamInf =>
      st.(pending := Some(Attributes(Split(line[|STREAM_INF|..], ','), NO_VARIANT)))
    case Plain =>
      if st.pending.Some? then
        State(st.segments, st.variants + [st.pending.value.(url := line)], None)
      else if line[0] != '#' then st.(segments := st.segments + [line])
      else st
  }

  function Read(lines: seq<string>, st: State): State {
    if lines == [] then st else Read(lines[1..], Step(st, lines[0]))
  }

  function ByteLength(s: string): nat {
    if s == "" then 0
    else
      var c := s[0] as int;
      (if c < 0x80 then 1 else if c < 0x800 then 2 else if c < 0x10000 then 3 else 4) + ByteLength(s[1..])
  }

  /** The scanner's buffer holds a line of at most this many bytes with its newline. */
  const MAX_LINE: nat := 65_536

  predicate TooLong(line: string) {
    ByteLength(line) >= MAX_LINE
  }

  /** The outcome of reading these lines. */
  function Parsed(lines: seq<string>): Result {
    if exists line | line in lines :: TooLong(line) then LineTooLong
    else
      var st := Read(lines, START);
      if st.segments != [] && st.variants != [] then Mixed
      else Ok(Playlist(st.segments != [], st.segments, st.variants))
  }

  /** The attribute loop of a rendition's line. */
  method ReadAttributes(parts: seq<string>) returns (pending: Variant)
    ensures pending == Attributes(parts, NO_VARIANT)
  {
    pending := NO_VARIANT;
    for i := 0 to |parts|
      invariant Attributes(parts[i..], pending) == Attributes(parts, NO_VARIANT)
    {
      assert parts[i..][0] == parts[i] && parts[i..][1..] == parts[i + 1..];
      pending := Attribute(parts[i], pending);
    }
  }

  /** The parser's loop over the lines. */
  method ParsePlaylist(text: string) returns (r: Result)
    ensures r == Parsed(Split(text, '\n'))
  {
    var lines := Split(text, '\n');
    var segments: seq<string>, variants: seq<Variant>, pending, hasPending := [], [], NO_VARIANT, false;
    for i := 0 to |lines|
      invariant forall k | 0 <= k < i :: !TooLong(lines[k])
      invariant Read(lines[i..], State(segments, variants, if hasPending then Some(pending) else None))
             == Read(lines, START)
    {
      if TooLong(lines[i]) {
        return LineTooLong;
      }
      assert lines[i..][0] == lines[i] && lines[i..][1..] == lines[i + 1..];
      var line := Trim(lines[i], IsSpace);
      match TagOf(line)
      case Blank =>
      case Ignored =>
      case StreamInf =>
        pending := ReadAttributes(Split(line[|STREAM_INF|..], ','));
        hasPending := true;
      case Plain =>
        if hasPending {
          variants := variants + [pending.(url := line)];
          hasPending := false;
        } else if line[0] != '#' {
          segments := segments + [line];
        }
    }
    if |segments| > 0 && |variants| > 0 {
      return Mixed;
    }
    r := Ok(Playlist(|segments| > 0 && |variants| == 0, segments, variants));
  }

  /** No accepted playlist has both segments and variants, and it is a media playlist exactly if it has segments. */
  lemma NeverBoth(lines: seq<string>)
    requires Parsed(lines).Ok?
    ensures var p := Parsed(lines).p;
            (p.segments == [] || p.variants == []) && (p.media <==> p.segments != [])
  {
  }

  /** Lines are rejected, whatever they say, exactly if one does not fit the scanner's 64 kB with its newline. */
  lemma LineTooLongIff(lines: seq<string>)
    ensures Parsed(lines) == LineTooLong <==> exists line | line in lines :: ByteLength(line) >= 65_536
  {
    forall line | line in lines ensures TooLong(line) <==> ByteLength(line) >= 65_536 {
    }
  }

  /** How many code points lie at or above a bound. */
  function AtLeast(s: string, bound: int): nat {
    if s == "" then 0 else (if s[0] as int >= bound then 1 else 0) + AtLeast(s[1..], bound)
  }

  /** A line's length in UTF-8: a byte for every code point, and one more from U+0080, U+0800 and U+10000 on. */
  lemma {:induction false} ByteLengthCounts(s: string)
    ensures ByteLength(s) == |s| + AtLeast(s, 0x80) + AtLeast(s, 0x800) + AtLeast(s, 0x10000)
  {
    if s != "" {
      ByteLengthCounts(s[1..]);
    }
  }

  // ---------------------------------------------------------------- printing

  /** What a playlist is written from. */
  datatype Item = Comment(text: string) | Segment(uri: string) | Rendition(v: Variant)

  function Attribs(v: Variant): seq<string>
    requires v.bandwidth >= 0
  {
    ["BANDWIDTH" + (['='] + L.Decimal(v.bandwidth)), "RESOLUTION" + (['='] + v.resolution),
     "CODECS" + (['='] + Quoted(v.codec)), "AUDIO" + (['='] + Quoted(v.audio))]
  }

  predicate Value(s: string) {
    Trimmed(s, IsSpace) && Trimmed(s, IsQuote) && ',' !in s && '\n' !in s
  }

  predicate Address(s: string) {
    TagOf(s) == Plain && Trimmed(s, IsSpace) && '\n' !in s
  }

  predicate Writable(item: Item) {
    match item
    case Comment(text) =>
      var line := Trim(text, IsSpace);
      '\n' !in text && (TagOf(line) == Blank || TagOf(line) == Ignored || (TagOf(line) == Plain && line[0] == '#'))
    case Segment(uri) => Address(uri) && uri[0] != '#'
    case Rendition(v) =>
      0 <= v.bandwidth < -L.LEAST && Value(v.resolution) && Value(v.codec) && Value(v.audio) && Address(v.url)
  }

  predicate AllWritable(items: seq<Item>) {
    items == [] || (Writable(items[0]) && AllWritable(items[1..]))
  }

  function InfLine(v: Variant): string
    requires v.bandwidth >= 0
  {
    STREAM_INF + Join(Attribs(v), ',')
  }

  function ItemLines(item: Item): seq<string>
    requires Writable(item)
  {
    match item
    case Comment(text) => [text]
    case Segment(uri) => [uri]
    case Rendition(v) => [InfLine(v), v.url]
  }

  function LinesOf(items: seq<Item>): seq<string>
    requires AllWritable(items)
  {
    if items == [] then [] else ItemLines(items[0]) + LinesOf(items[1..])
  }

  function Print(items: seq<Item>): string
    requires AllWritable(items)
  {
    if LinesOf(items) == [] then "" else Join(LinesOf(items), '\n')
  }

  function Segments(items: seq<Item>): seq<string> {
    if items == [] then []
    else (if items[0].Segment? then [items[0].uri] else []) + Segments(items[1..])
  }

  function Renditions(items: seq<Item>): seq<Variant> {
    if items == [] then []
    else (if items[0].Rendition? then [items[0].v] else []) + Renditions(items[1..])
  }

  // ---------------------------------------------------------------- attributes read back

  lemma KeyValue(key: string, value: string)
    requires '=' !in key && Trimmed(key, IsSpace)
    ensures Cut(key + (['='] + value), '=') == Some((key, value)) && Trim(key, IsSpace) == key
  {
    CutAt(key, '=', value);
    TrimmedStays(key, IsSpace);
  }

  function Quoted(c: string): string {
    "\"" + c + "\""
  }

  lemma QuotesGo(c: string)
    requires Trimmed(c, IsQuote)
    ensures Trim(Trim(Quoted(c), IsSpace), IsQuote) == c
  {
    var q := Quoted(c);
    TrimmedStays(q, IsSpace);
    assert q[1..] == c + "\"";
    if c == "" {
      assert q[1..] == "\"" && TrimLeft("\"", IsQuote) == TrimLeft("", IsQuote) == "";
    } else {
      assert TrimLeft(c + "\"", IsQuote) == c + "\"";
      assert (c + "\"")[..|c|] == c && TrimRight(c, IsQuote) == c;
    }
  }

  lemma ResolutionBack(r: string, v: Variant)
    requires Value(r)
    ensures Attribute("RESOLUTION" + (['='] + r), v) == v.(resolution := r)
  {
    KeyValue("RESOLUTION", r);
    TrimmedStays(r, IsSpace);
    TrimmedStays(r, IsQuote);
  }

  lemma BandwidthBack(n: nat, v: Variant)
    requires n < -L.LEAST
    ensures Attribute("BANDWIDTH" + (['='] + L.Decimal(n)), v) == v.(bandwidth := n)
  {
    var d := L.Decimal(n);
    KeyValue("BANDWIDTH", d);
    L.DecimalReadsBack(n);
    assert IsDigit(d[0]) && IsDigit(d[|d| - 1]);
    TrimmedStays(d, IsSpace);
    TrimmedStays(d, IsQuote);
    ScanDecimal(n);
  }

  lemma CodecBack(c: string, v: Variant)
    requires Value(c)
    ensures Attribute("CODECS" + (['='] + Quoted(c)), v) == v.(codec := c)
  {
    KeyValue("CODECS", Quoted(c));
    QuotesGo(c);
  }

  lemma AudioBack(a: string, v: Variant)
    requires Value(a)
    ensures Attribute("AUDIO" + (['='] + Quoted(a)), v) == v.(audio := a)
  {
    KeyValue("AUDIO", Quoted(a));
    QuotesGo(a);
  }

  /** The values of a rendition that can be written: trimmed, without commas and without quotes at their ends. */
  ghost predicate Written(v: Variant) {
    0 <= v.bandwidth < -L.LEAST && Value(v.resolution) && Value(v.codec) && Value(v.audio)
  }

  lemma AttribsLack(v: Variant, c: char)
    requires Written(v) && (c == ',' || c == '\n')
    ensures forall p | p in Attribs(v) :: c !in p
  {
    var p := Attribs(v);
    DecimalLacks(v.bandwidth, c);
    assert c !in "BANDWIDTH" && c !in ['='];
    assert c !in p[0];
    assert c !in p[1];
    QuotedLacks(v.codec, c);
    assert c !in p[2];
    QuotedLacks(v.audio, c);
    assert c !in p[3];
  }

  lemma QuotedLacks(s: string, c: char)
    requires c !in s && c != '\"'
    ensures c !in Quoted(s)
  {
  }

  lemma DecimalLacks(n: nat, c: char)
    requires !IsDigit(c)
    ensures c !in L.Decimal(n)
  {
    L.DecimalReadsBack(n);
  }

  lemma FirstAttribute(a: string, rest: seq<string>, v: Variant)
    ensures Attributes([a] + rest, v) == Attributes(rest, Attribute(a, v))
  {
    assert ([a] + rest)[1..] == rest;
  }

  lemma FourAttributes(a: string, b: string, c: string, d: string, v: Variant)
    ensures Attributes([a, b, c, d], v) == Attribute(d, Attribute(c, Attribute(b, Attribute(a, v))))
  {
    var va, vb, vc := Attribute(a, v), Attribute(b, Attribute(a, v)), Attribute(c, Attribute(b, Attribute(a, v)));
    FirstAttribute(a, [b, c, d], v);
    FirstAttribute(b, [c, d], va);
    FirstAttribute(c, [d], vb);
    FirstAttribute(d, [], vc);
    assert [a] + [b, c, d] == [a, b, c, d] && [b] + [c, d] == [b, c, d] && [c] + [d] == [c, d] && [d] + [] == [d];
  }

  lemma AttribsReadBack(v: Variant)
    requires Written(v)
    ensures Attributes(Split(Join(Attribs(v), ','), ','), NO_VARIANT) == v.(url := "")
  {
    AttribsLack(v, ',');
    SplitOfJoin(Attribs(v), ',');
    var p := Attribs(v);
    FourAttributes(p[0], p[1], p[2], p[3], NO_VARIANT);
    var v1 := NO_VARIANT.(bandwidth := v.bandwidth);
    var v2 := v1.(resolution := v.resolution);
    var v3 := v2.(codec := v.codec);
    BandwidthBack(v.bandwidth, NO_VARIANT);
    ResolutionBack(v.resolution, v1);
    CodecBack(v.codec, v2);
    AudioBack(v.audio, v3);
  }

  // ---------------------------------------------------------------- lines read back

  lemma {:induction false} JoinLacks(parts: seq<string>, sep: char, c: char)
    requires parts != [] && c != sep && forall p | p in parts :: c !in p
    ensures c !in Join(parts, sep)
  {
    if |parts| > 1 {
      JoinLacks(parts[1..], sep, c);
    }
  }

  lemma {:induction false} JoinEnds(parts: seq<string>, sep: char)
    requires parts != [] && parts[|parts| - 1] != ""
    ensures var s, last := Join(parts, sep), parts[|parts| - 1];
            s != "" && s[|s| - 1] == last[|last| - 1]
  {
    if |parts| > 1 {
      JoinEnds(parts[1..], sep);
    }
  }

  lemma InfTag(rest: string)
    ensures TagOf(STREAM_INF + rest) == StreamInf
  {
    var line := STREAM_INF + rest;
    assert line[7] == STREAM_INF[7] != MEDIA[7];
    assert STREAM_INF[7] != DURATION[7];
  }

  lemma InfLineIs(v: Variant)
    requires Written(v)
    ensures var line := InfLine(v);
            && Trim(line, IsSpace) == line && TagOf(line) == StreamInf && '\n' !in line
            && line[|STREAM_INF|..] == Join(Attribs(v), ',')
  {
    var line, rest := InfLine(v), Join(Attribs(v), ',');
    AttribsLack(v, '\n');
    JoinLacks(Attribs(v), ',', '\n');
    JoinEnds(Attribs(v), ',');
    InfTag(rest);
    assert line[0] == '#' && line[|line| - 1] == rest[|rest| - 1] == '\"';
    TrimmedStays(line, IsSpace);
    assert '\n' !in STREAM_INF;
  }

  lemma JoinFour(a: string, b: string, c: string, d: string)
    ensures Join([a, b, c, d], ',') == a + ("," + (b + ("," + (c + ("," + d)))))
  {
    assert [a, b, c, d][1..] == [b, c, d] && [b, c, d][1..] == [c, d] && [c, d][1..] == [d];
    assert Join([c, d], ',') == c + ("," + d);
    assert Join([b, c, d], ',') == b + ("," + Join([c, d], ','));
  }

  lemma WithKey(key: string, keyed: string, value: string)
    requires keyed == key + "="
    ensures key + (['='] + value) == keyed + value
  {
  }

  /** A written rendition in full: the tag and its four attributes. */
  lemma InfLineReads(v: Variant)
    requires v.bandwidth >= 0
    ensures InfLine(v) == "#EXT-X-STREAM-INF:" + (("BANDWIDTH=" + L.Decimal(v.bandwidth)) +
      ("," + (("RESOLUTION=" + v.resolution) + ("," + (("CODECS=" + ("\"" + v.codec + "\"")) +
      ("," + ("AUDIO=" + ("\"" + v.audio + "\""))))))))
  {
    var four := Attribs(v);
    JoinFour(four[0], four[1], four[2], four[3]);
    assert four == [four[0], four[1], four[2], four[3]];
    WithKey("BANDWIDTH", "BANDWIDTH=", L.Decimal(v.bandwidth));
    WithKey("RESOLUTION", "RESOLUTION=", v.resolution);
    WithKey("CODECS", "CODECS=", Quoted(v.codec));
    WithKey("AUDIO", "AUDIO=", Quoted(v.audio));
  }

  lemma RenditionStep(v: Variant, st: State)
    requires Writable(Rendition(v)) && st.pending.None?
    ensures Step(Step(st, InfLine(v)), v.url) == st.(variants := st.variants + [v])
  {
    InfLineIs(v);
    AttribsReadBack(v);
    TrimmedStays(v.url, IsSpace);
  }

  lemma ItemStep(item: Item, st: State)
    requires Writable(item) && st.pending.None?
    ensures Read(ItemLines(item), st) == State(
      st.segments + (if item.Segment? then [item.uri] else []),
      st.variants + (if item.Rendition? then [item.v] else []), None)
  {
    match item
    case Comment(text) =>
      assert ItemLines(item)[1..] == [];
    case Segment(uri) =>
      TrimmedStays(uri, IsSpace);
      assert ItemLines(item)[1..] == [];
    case Rendition(v) =>
      RenditionStep(v, st);
      TwoLines(InfLine(v), v.url, st);
  }

  lemma OneLine(a: string, st: State)
    ensures Read([a], st) == Step(st, a)
  {
  }

  lemma TwoLines(a: string, b: string, st: State)
    ensures Read([a, b], st) == Step(Step(st, a), b)
  {
    assert [a, b][1..] == [b];
    OneLine(b, Step(st, a));
  }

  lemma {:induction false} ReadAppend(a: seq<string>, b: seq<string>, st: State)
    ensures Read(a + b, st) == Read(b, Read(a, st))
  {
    if a == [] {
      assert a + b == b;
    } else {
      assert (a + b)[1..] == a[1..] + b;
      ReadAppend(a[1..], b, Step(st, a[0]));
    }
  }

  lemma {:induction false} ItemsRead(items: seq<Item>, st: State)
    requires AllWritable(items) && st.pending.None?
    ensures Read(LinesOf(items), st) == State(st.segments + Segments(items), st.variants + Renditions(items), None)
    decreases |items|
  {
    if items == [] {
      assert st.segments + [] == st.segments && st.variants + [] == st.variants;
    } else {
      var item, rest := items[0], items[1..];
      var next := Read(ItemLines(item), st);
      ReadAppend(ItemLines(item), LinesOf(rest), st);
      ItemStep(item, st);
      ItemsRead(rest, next);
      Regroup(st.segments, if item.Segment? then [item.uri] else [], Segments(rest));
      Regroup(st.variants, if item.Rendition? then [item.v] else [], Renditions(rest));
    }
  }

  lemma Regroup<T>(a: seq<T>, b: seq<T>, c: seq<T>)
    ensures (a + b) + c == a + (b + c)
  {
  }

  lemma {:induction false} LinesLackNewlines(items: seq<Item>)
    requires AllWritable(items)
    ensures forall line | line in LinesOf(items) :: '\n' !in line
  {
    if items != [] {
      LinesLackNewlines(items[1..]);
      if items[0].Rendition? {
        InfLineIs(items[0].v);
      }
    }
  }

  lemma PrintSplits(items: seq<Item>)
    requires AllWritable(items)
    ensures Split(Print(items), '\n') == (if LinesOf(items) == [] then [""] else LinesOf(items))
  {
    if LinesOf(items) != [] {
      LinesLackNewlines(items);
      SplitOfJoin(LinesOf(items), '\n');
    }
  }

  /** Any list of comments, segments and renditions, written and parsed again, is given back: its segments or its
      renditions, in order and number, whatever comments stand between them; if it has both, it is rejected. */
  lemma PrintedReadsBack(items: seq<Item>)
    requires AllWritable(items) && forall line | line in LinesOf(items) :: !TooLong(line)
    ensures Parsed(Split(Print(items), '\n'))
         == if Segments(items) != [] && Renditions(items) != [] then Mixed
            else Ok(Playlist(Segments(items) != [], Segments(items), Renditions(items)))
  {
    PrintSplits(items);
    ItemsRead(items, START);
    if LinesOf(items) == [] {
      assert Read([""], START) == START;
    }
    assert START.segments + Segments(items) == Segments(items);
    assert START.variants + Renditions(items) == Renditions(items);
  }

  lemma SplitTwo(first: string, second: string)
    requires ',' !in first && ',' !in second
    ensures Split(first + ("," + second), ',') == [first, second]
  {
    SplitHead(first, ',', second);
    SplitWhole(second, ',');
    assert [','] + second == "," + second;
  }

  lemma TwoAttributes(a: string, b: string, v: Variant)
    ensures Attributes([a, b], v) == Attribute(b, Attribute(a, v))
  {
    var w := Attribute(a, v);
    assert [a, b][1..] == [b] && [b][1..] == [];
    assert Attributes([b], w) == Attributes([], Attribute(b, w));
    assert Attributes([a, b], v) == Attributes([b], w);
  }

  /** A rendition without attributes has none, and no bandwidth. */
  lemma BareRendition(url: string, st: State)
    requires Address(url)
    ensures Step(Step(st, "#EXT-X-STREAM-INF:"), url)
         == State(st.segments, st.variants + [Variant(url, "", 0, "", "")], None)
  {
    var tag := "#EXT-X-STREAM-INF:";
    TrimmedStays(tag, IsSpace);
    TrimmedStays(url, IsSpace);
    InfTag("");
    assert tag + "" == tag && tag[|STREAM_INF|..] == "";
    assert Split("", ',') == [""];
    NoKey("", NO_VARIANT);
    assert [""][1..] == [];
    assert Attributes([""], NO_VARIANT) == Attributes([], NO_VARIANT);
  }

  /** A quoted list of codecs is cut at its first comma: only the first codec is kept, so one of AV1 that comes
      second is not seen. */
  lemma CodecListIsCut(a: string, b: string, v: Variant)
    requires Value(a) && ',' !in b && '=' !in b
    ensures Attributes(Split("CODECS=" + ("\"" + a) + ("," + (b + "\"")), ','), v) == v.(codec := a)
  {
    var first, second := "CODECS=" + ("\"" + a), b + "\"";
    assert ',' !in "CODECS=" && ',' !in first && ',' !in second;
    SplitTwo(first, second);
    TwoAttributes(first, second, v);
    OpenQuoteGoes(a, v);
    NoKey(second, v.(codec := a));
  }

  lemma {:induction false} NoKey(part: string, v: Variant)
    requires '=' !in part
    ensures Attribute(part, v) == v
  {
    NoCut(part, '=');
  }

  lemma {:induction false} NoCut(s: string, sep: char)
    requires sep !in s
    ensures Cut(s, sep).None?
  {
    if s != "" {
      NoCut(s[1..], sep);
    }
  }

  lemma OpenQuoteGoes(a: string, v: Variant)
    requires Value(a)
    ensures Attribute("CODECS=" + ("\"" + a), v) == v.(codec := a)
  {
    var q := "\"" + a;
    WithKey("CODECS", "CODECS=", q);
    KeyValue("CODECS", q);
    assert q[0] == '\"' && q[1..] == a;
    TrimmedStays(q, IsSpace);
    assert TrimLeft(q, IsQuote) == a;
  }

  // ---------------------------------------------------------------- comments

  /** A line that is a comment to the parser: no tag it knows, but a hash at the start. */
  predicate IsComment(raw: string) {
    var line := Trim(raw, IsSpace);
    TagOf(line) == Plain && line[0] == '#'
  }

  /** The lines with one more before line `k`. */
  function Inserted(lines: seq<string>, k: nat, line: string): seq<string>
    requires k <= |lines|
  {
    lines[..k] + [line] + lines[k..]
  }

  /** The cut between lines `k - 1` and `k` separates a rendition's attributes from its address. */
  predicate Separates(items: seq<Item>, k: nat)
    requires AllWritable(items)
  {
    items != [] &&
    var n := |ItemLines(items[0])|;
    if k < n then k > 0 else Separates(items[1..], k - n)
  }

  /** Every address is a URI line, which never starts with a hash. */
  predicate PlainAddresses(items: seq<Item>) {
    forall i | i in items && i.Rendition? && i.v.url != "" :: i.v.url[0] != '#'
  }

  lemma InsertedFirst(lines: seq<string>, line: string)
    ensures Inserted(lines, 0, line) == [line] + lines
  {
  }

  lemma InsertedLater(first: seq<string>, rest: seq<string>, k: nat, line: string)
    requires |first| <= k <= |first| + |rest|
    ensures Inserted(first + rest, k, line) == first + Inserted(rest, k - |first|, line)
  {
  }

  lemma InsertedBetween(a: string, b: string, rest: seq<string>, line: string)
    ensures Inserted([a, b] + rest, 1, line) == [a, line] + ([b] + rest)
  {
  }

  /** What a comment does: nothing or, after a rendition's attributes, it becomes their address. */
  lemma CommentStep(raw: string, st: State)
    requires IsComment(raw)
    ensures st.pending.None? ==> Step(st, raw) == st
    ensures st.pending.Some? ==>
      Step(st, raw) == State(st.segments, st.variants + [st.pending.value.(url := Trim(raw, IsSpace))], None)
  {
  }

  /** The rendition whose address a comment has taken: a rendition and a segment at least. */
  lemma TakenAddress(v: Variant, comment: string, rest: seq<Item>, st: State)
    requires Writable(Rendition(v)) && v.url[0] != '#' && IsComment(comment) && AllWritable(rest) && st.pending.None?
    ensures var t := Read([InfLine(v), comment] + ([v.url] + LinesOf(rest)), st);
            t.segments != [] && t.variants != []
  {
    InfLineIs(v);
    TrimmedStays(v.url, IsSpace);
    var st1 := Step(st, InfLine(v));
    var st2 := Step(st1, comment);
    CommentStep(comment, st1);
    ReadAppend([InfLine(v), comment], [v.url] + LinesOf(rest), st);
    TwoLines(InfLine(v), comment, st);
    ReadAppend([v.url], LinesOf(rest), st2);
    OneLine(v.url, st2);
    ItemsRead(rest, Step(st2, v.url));
  }

  lemma {:induction false} CommentRead(items: seq<Item>, k: nat, comment: string, st: State)
    requires AllWritable(items) && PlainAddresses(items) && k <= |LinesOf(items)|
    requires IsComment(comment) && st.pending.None?
    ensures var t := Read(Inserted(LinesOf(items), k, comment), st);
            if Separates(items, k) then t.segments != [] && t.variants != [] else t == Read(LinesOf(items), st)
    decreases |items|
  {
    CommentStep(comment, st);
    if k == 0 {
      InsertedFirst(LinesOf(items), comment);
      ReadAppend([comment], LinesOf(items), st);
      OneLine(comment, st);
    } else {
      var first, rest := ItemLines(items[0]), items[1..];
      if k < |first| {
        var v := items[0].v;
        assert items[0] in items;
        InsertedBetween(InfLine(v), v.url, LinesOf(rest), comment);
        TakenAddress(v, comment, rest, st);
      } else {
        InsertedLater(first, LinesOf(rest), k, comment);
        ReadAppend(first, Inserted(LinesOf(rest), k - |first|, comment), st);
        ReadAppend(first, LinesOf(rest), st);
        ItemStep(items[0], st);
        CommentRead(rest, k - |first|, comment, Read(first, st));
      }
    }
  }

  /** A comment put anywhere into an accepted playlist changes nothing if and only if it does not come between a
      rendition's attributes and its address. There it is taken for the address, the real address becomes a
      segment, and the playlist is rejected. */
  lemma CommentHarmlessIff(items: seq<Item>, k: nat, comment: string)
    requires AllWritable(items) && PlainAddresses(items) && k <= |LinesOf(items)| && IsComment(comment)
    requires !TooLong(comment) && forall line | line in LinesOf(items) :: !TooLong(line)
    ensures Parsed(Inserted(LinesOf(items), k, comment))
         == if Separates(items, k) then Mixed else Parsed(LinesOf(items))
    ensures Parsed(LinesOf(items)).Ok? ==>
      (Parsed(Inserted(LinesOf(items), k, comment)) == Parsed(LinesOf(items)) <==> !Separates(items, k))
  {
    CommentRead(items, k, comment, START);
    var lines := Inserted(LinesOf(items), k, comment);
    forall line | line in lines ensures !TooLong(line) {
      assert line == comment || line in LinesOf(items);
    }
  }

  /** In particular, whatever comes before and after. */
  lemma CommentBeforeAddress(before: seq<Item>, v: Variant, comment: string, after: seq<Item>)
    requires AllWritable(before) && Writable(Rendition(v)) && v.url[0] != '#' && AllWritable(after)
    requires IsComment(comment)
    requires forall line | line in LinesOf(before) + ([InfLine(v), comment] + ([v.url] + LinesOf(after))) ::
      !TooLong(line)
    ensures Parsed(LinesOf(before) + ([InfLine(v), comment] + ([v.url] + LinesOf(after)))) == Mixed
  {
    var st := Read(LinesOf(before), START);
    ItemsRead(before, START);
    TakenAddress(v, comment, after, st);
    ReadAppend(LinesOf(before), [InfLine(v), comment] + ([v.url] + LinesOf(after)), START);
  }

  /** A line the parser passes over, blank or a tag it has no use for, is harmless anywhere in any lines. */
  lemma PassedOver(lines: seq<string>, k: nat, raw: string)
    requires k <= |lines| && !TooLong(raw)
    requires var line := Trim(raw, IsSpace);
             line == "" || "#EXT-X-MEDIA" <= line || "#EXT-X-TARGETDURATION:" <= line
    ensures Parsed(Inserted(lines, k, raw)) == Parsed(lines)
  {
    var all := Inserted(lines, k, raw);
    var st := Read(lines[..k], START);
    assert lines == lines[..k] + lines[k..];
    ReadAppend(lines[..k], lines[k..], START);
    ReadAppend(lines[..k] + [raw], lines[k..], START);
    ReadAppend(lines[..k], [raw], START);
    OneLine(raw, st);
    assert Read(all, START) == Read(lines, START);
    SameLines(lines, k, raw);
  }

  lemma SameLines(lines: seq<string>, k: nat, raw: string)
    requires k <= |lines| && !TooLong(raw)
    ensures (exists line | line in Inserted(lines, k, raw) :: TooLong(line))
       <==> exists line | line in lines :: TooLong(line)
  {
    forall line | line in lines ensures line in Inserted(lines, k, raw) {
      assert lines == lines[..k] + lines[k..];
    }
  }

  // ---------------------------------------------------------------- choosing a rendition

  function Lower(s: string): string {
    if s == "" then "" else [if 'A' <= s[0] <= 'Z' then s[0] - 'A' + 'a' else s[0]] + Lower(s[1..])
  }

  predicate Contains(s: string, part: string) {
    part <= s || (s != "" && Contains(s[1..], part))
  }

  /** Somewhere in the text. */
  lemma {:induction false} ContainsIff(s: string, part: string)
    ensures Contains(s, part) <==> exists before, after :: s == before + part + after
  {
    if part <= s {
      assert s == "" + part + s[|part|..];
    } else if s != "" {
      ContainsIff(s[1..], part);
      if Contains(s[1..], part) {
        var before, after :| s[1..] == before + part + after;
        assert s == ([s[0]] + before) + part + after;
      }
      if before, after :| s == before + part + after {
        NotAtOnce(before, part, after);
        assert s[1..] == before[1..] + part + after;
      }
    }
  }

  lemma NotAtOnce(before: string, part: string, after: string)
    requires !(part <= before + part + after)
    ensures before != ""
  {
    assert "" + part + after == part + after;
  }

  lemma {:induction false} LowerIs(s: string)
    ensures |Lower(s)| == |s|
    ensures forall k | 0 <= k < |s| :: Lower(s)[k] as int == s[k] as int + (if 65 <= s[k] as int <= 90 then 32 else 0)
  {
    if s != "" {
      LowerIs(s[1..]);
    }
  }

  predicate IsAv1(v: Variant) {
    Contains(Lower(v.codec), "av01") || Contains(Lower(v.codec), "av1")
  }

  function Score(v: Variant): int {
    R.Quotient(v.bandwidth, 10_000)
    + (if Contains(v.resolution, "1920x1080") || Contains(v.resolution, "1080") then 100
       else if Contains(v.resolution, "1280x720") || Contains(v.resolution, "720") then 70
       else 0)
  }

  lemma {:induction false} ContainsLater(s: string, t: string, part: string)
    requires Contains(t, part)
    ensures Contains(s + t, part)
  {
    if s == "" {
      assert s + t == t;
    } else {
      assert (s + t)[1..] == s[1..] + t;
      ContainsLater(s[1..], t, part);
    }
  }

  lemma {:induction false} ContainsTail(s: string, head: string, part: string)
    requires Contains(s, head + part)
    ensures Contains(s, part)
  {
    if head + part <= s {
      assert s == head + s[|head|..];
      assert s[|head|..][..|part|] == part;
      assert Contains(s[|head|..], part);
      ContainsLater(head, s[|head|..], part);
    } else {
      ContainsTail(s[1..], head, part);
    }
  }

  /** The longer patterns add nothing: the score is a step for every 10,000 of bandwidth, a hundred more for 1080
      and seventy more for 720 in the resolution. */
  lemma ScoreIs(v: Variant)
    ensures Score(v) == R.Quotient(v.bandwidth, 10_000)
      + (if Contains(v.resolution, "1080") then 100 else if Contains(v.resolution, "720") then 70 else 0)
  {
    assert "1920x1080" == "1920x" + "1080" && "1280x720" == "1280x" + "720";
    if Contains(v.resolution, "1920x1080") {
      ContainsTail(v.resolution, "1920x", "1080");
    }
    if Contains(v.resolution, "1280x720") {
      ContainsTail(v.resolution, "1280x", "720");
    }
  }

  /** Of two renditions one in 1080 is preferred to one in 720 unless it is thirty steps of bandwidth behind. */
  lemma FullHdWinsIff(a: Variant, b: Variant)
    requires Contains(a.resolution, "1080") && !Contains(b.resolution, "1080") && Contains(b.resolution, "720")
    ensures Score(a) > Score(b) <==> R.Quotient(b.bandwidth, 10_000) - R.Quotient(a.bandwidth, 10_000) < 30
  {
    ScoreIs(a);
    ScoreIs(b);
  }

  /** A rendition is AV1 if its codec names `av1` or `av01` anywhere, in small letters or capitals. */
  lemma Av1Iff(v: Variant)
    ensures IsAv1(v) <==>
      || (exists before, after :: Lower(v.codec) == before + "av1" + after)
      || (exists before, after :: Lower(v.codec) == before + "av01" + after)
  {
    ContainsIff(Lower(v.codec), "av1");
    ContainsIff(Lower(v.codec), "av01");
  }

  lemma NoOtherA(t: string, part: string)
    requires |t| > 2 && |part| > 2 && part[0] == 'a' && t[2] != part[2]
    requires forall k | 0 < k < |t| :: t[k] != 'a'
    ensures !Contains(t, part)
  {
    ContainsIff(t, part);
    forall before, after ensures t != before + part + after {
      assert (before + part + after)[|before|] == 'a' && (before + part + after)[|before| + 2] == part[2];
    }
  }

  /** For example, AVC is not AV1, and what is AV1 is found whatever follows. */
  lemma CodecsNamed(v: Variant, profile: string)
    ensures v.codec == "avc1.640028" ==> !IsAv1(v)
    ensures v.codec == "av01." + profile || v.codec == "AV01." + profile || v.codec == "AV1" ==> IsAv1(v)
  {
    var t := Lower(v.codec);
    LowerIs(v.codec);
    if v.codec == "avc1.640028" {
      NoOtherA(t, "av1");
      NoOtherA(t, "av01");
    }
    if v.codec == "av01." + profile || v.codec == "AV01." + profile {
      assert t[..4] == "av01" && "av01" <= t;
    }
    if v.codec == "AV1" {
      assert "av1" <= t;
    }
  }

  function NotAv1(variants: seq<Variant>): seq<Variant> {
    if variants == [] then []
    else
      var last := variants[|variants| - 1];
      NotAv1(variants[..|variants| - 1]) + (if IsAv1(last) then [] else [last])
  }

  /** The renditions to choose from: those without AV1 or, if there are none, all of them. */
  function Eligible(variants: seq<Variant>): seq<Variant> {
    if NotAv1(variants) == [] then variants else NotAv1(variants)
  }

  /** Index `k` is the first of the greatest score. */
  ghost predicate FirstBest(e: seq<Variant>, k: int) {
    && 0 <= k < |e|
    && (forall i | 0 <= i < |e| :: Score(e[i]) <= Score(e[k]))
    && (forall i | 0 <= i < k :: Score(e[i]) < Score(e[k]))
  }

  ghost predicate AllNegative(e: seq<Variant>) {
    forall i | 0 <= i < |e| :: Score(e[i]) < 0
  }

  /** The first of the best, unless every score is negative: then simply the first. */
  ghost predicate IsBestOf(e: seq<Variant>, best: Variant) {
    e != [] && if AllNegative(e) then best == e[0] else exists k :: FirstBest(e, k) && best == e[k]
  }

  method ChooseVariant(variants: seq<Variant>) returns (best: Option<Variant>)
    ensures best.None? <==> variants == []
    ensures best.Some? ==> IsBestOf(Eligible(variants), best.value)
  {
    if variants == [] {
      return None;
    }
    var eligible: seq<Variant> := [];
    for i := 0 to |variants|
      invariant eligible == NotAv1(variants[..i])
    {
      assert variants[..i + 1][..i] == variants[..i];
      if !IsAv1(variants[i]) {
        eligible := eligible + [variants[i]];
      }
    }
    assert variants[..|variants|] == variants;
    if |eligible| == 0 {
      eligible := variants;
    }
    var chosen := PickBest(eligible);
    best := Some(chosen);
  }

  method PickBest(eligible: seq<Variant>) returns (best: Variant)
    requires eligible != []
    ensures IsBestOf(eligible, best)
  {
    best := eligible[0];
    var bestScore := -1;
    ghost var k := 0;
    for i := 0 to |eligible|
      invariant 0 <= k < |eligible| && best == eligible[k]
      invariant forall j | 0 <= j < i :: Score(eligible[j]) <= bestScore
      invariant if bestScore < 0 then k == 0 && bestScore == -1
                else k < i && bestScore == Score(best) && forall j | 0 <= j < k :: Score(eligible[j]) < bestScore
    {
      var score := Score(eligible[i]);
      if score > bestScore {
        bestScore := score;
        best := eligible[i];
        k := i;
      }
    }
    if bestScore >= 0 {
      assert FirstBest(eligible, k) && Score(eligible[k]) >= 0;
    }
  }

  /** So the choice is the best rendition exactly if some score is not negative or the first has the greatest one;
      in particular for every list without negative bandwidths. */
  lemma ChoiceIsBestIff(e: seq<Variant>, best: Variant)
    requires IsBestOf(e, best)
    ensures (forall v | v in e :: Score(v) <= Score(best))
       <==> !AllNegative(e) || forall v | v in e :: Score(v) <= Score(e[0])
    ensures (forall v | v in e :: v.bandwidth >= 0) ==> forall v | v in e :: Score(v) <= Score(best)
  {
    if forall v | v in e :: v.bandwidth >= 0 {
      assert Score(e[0]) >= 0;
    }
  }

  /** There is only one such choice. */
  lemma ChoiceIsUnique(e: seq<Variant>, a: Variant, b: Variant)
    requires IsBestOf(e, a) && IsBestOf(e, b)
    ensures a == b
  {
    if !AllNegative(e) {
      var i :| FirstBest(e, i) && a == e[i];
      var k :| FirstBest(e, k) && b == e[k];
      assert i == k;
    }
  }

  /** It is not the best of two renditions with negative bandwidths. */
  lemma NegativeBandwidthsMislead(a: Variant, b: Variant)
    requires a == Variant("a", "", -50_000, "", "") && b == Variant("b", "", -20_000, "", "")
    ensures Eligible([a, b]) == [a, b] && IsBestOf([a, b], a) && Score(a) < Score(b)
  {
    ScoreIs(a);
    ScoreIs(b);
    assert [a, b][..1] == [a] && [a][..0] == [];
    assert !Contains("", "1080") && !Contains("", "720") && !Contains("", "av1") && !Contains("", "av01");
    assert NotAv1([a]) == [a];
  }

  lemma {:induction false} EligibleAre(variants: seq<Variant>)
    ensures forall v :: v in NotAv1(variants) <==> v in variants && !IsAv1(v)
  {
    if variants != [] {
      EligibleAre(variants[..|variants| - 1]);
      assert variants == variants[..|variants| - 1] + [variants[|variants| - 1]];
    }
  }

  /** An AV1 rendition is chosen only if there is no other. */
  lemma Av1IsLastResort(variants: seq<Variant>, best: Variant)
    requires variants != [] && best in Eligible(variants)
    ensures best in variants && (IsAv1(best) <==> forall v | v in variants :: IsAv1(v))
  {
    EligibleAre(variants);
    if NotAv1(variants) != [] {
      assert NotAv1(variants)[0] in variants;
    }
  }
}
