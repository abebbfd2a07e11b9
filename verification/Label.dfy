/** Cleaning a name for use as one path component, and the formatting of numbers (internal/label/label.go, lines
    13-36 and 85-106). Text is a sequence of code points. */
module Label {
  import opened Basics
  import opened Times

  // ---------------------------------------------------------------- classes of code points

  predicate Between(c: char, low: int, high: int) {
    low <= c as int <= high
  }

  predicate IsEmoji(c: char) {
    Between(c, 0x1F000, 0x1FAFF) || Between(c, 0x2600, 0x27BF) || c as int == 0xFE0F
  }

  predicate IsZeroWidthSpace(c: char) {
    c as int == 0x200B
  }

  predicate IsIllegal(c: char) {
    c == '\\' || c == '/' || c == '*' || c == '?' || c == '\"' || c == '<' || c == '>' || c == '|'
  }

  predicate IsControl(c: char) {
    Between(c, 0, 0x1F) || Between(c, 0x7F, 0x9F)
  }

  /** The format characters of Unicode (general category Cf). */
  predicate IsFormat(c: char) {
    || c as int == 0xAD || Between(c, 0x600, 0x605) || c as int == 0x61C || c as int == 0x6DD || c as int == 0x70F
    || Between(c, 0x890, 0x891) || c as int == 0x8E2 || c as int == 0x180E || Between(c, 0x200B, 0x200F)
    || Between(c, 0x202A, 0x202E) || Between(c, 0x2060, 0x2064) || Between(c, 0x2066, 0x206F)
    || c as int == 0xFEFF || Between(c, 0xFFF9, 0xFFFB) || c as int == 0x110BD || c as int == 0x110CD
    || Between(c, 0x13430, 0x1343F) || Between(c, 0x1BCA0, 0x1BCA3) || Between(c, 0x1D173, 0x1D17A)
    || c as int == 0xE0001 || Between(c, 0xE0020, 0xE007F)
  }

  predicate IsPrivate(c: char) {
    Between(c, 0xE000, 0xF8FF) || Between(c, 0xF0000, 0xFFFFD) || Between(c, 0x100000, 0x10FFFD)
  }

  predicate IsOther(c: char) {
    IsControl(c) || IsFormat(c) || IsPrivate(c)
  }

  /** The white space of the pattern `\s`. */
  predicate IsBlank(c: char) {
    c == ' ' || c == '\t' || c == '\n' || c as int == 0xC || c == '\r'
  }

  predicate IsEdge(c: char) {
    c == ' ' || c == '.'
  }

  // ---------------------------------------------------------------- the passes

  function Without(s: string, bad: char -> bool): string {
    if s == "" then "" else (if bad(s[0]) then "" else [s[0]]) + Without(s[1..], bad)
  }

  function SpacedColons(s: string): string {
    if s == "" then "" else (if s[0] == ':' then " - " else [s[0]]) + SpacedColons(s[1..])
  }

  function Dashed(s: string): string {
    if s == "" then "" else [if IsIllegal(s[0]) then '-' else s[0]] + Dashed(s[1..])
  }

  /** Every run of white space becomes one space. */
  function Collapsed(s: string): string {
    if s == "" then ""
    else if !IsBlank(s[0]) then [s[0]] + Collapsed(s[1..])
    else if |s| > 1 && IsBlank(s[1]) then Collapsed(s[1..])
    else " " + Collapsed(s[1..])
  }

  function TrimLeft(s: string): string {
    if s != "" && IsEdge(s[0]) then TrimLeft(s[1..]) else s
  }

  function TrimRight(s: string): string {
    if s != "" && IsEdge(s[|s| - 1]) then TrimRight(s[..|s| - 1]) else s
  }

  function Clean(s: string): string {
    var s1 := Without(s, IsEmoji);
    var s2 := Without(s1, IsZeroWidthSpace);
    var s3 := SpacedColons(s2);
    var s4 := Dashed(s3);
    var s5 := Without(s4, IsOther);
    var s6 := Collapsed(s5);
    TrimRight(TrimLeft(s6))
  }

  // ---------------------------------------------------------------- what a clean name is

  /** A code point that no pass removes or replaces, the space apart. */
  predicate IsPlain(c: char) {
    !IsEmoji(c) && !IsZeroWidthSpace(c) && c != ':' && !IsIllegal(c) && !IsOther(c) && !IsBlank(c)
  }

  predicate AllPlain(s: string) {
    forall c | c in s :: IsPlain(c) || c == ' '
  }

  predicate NoDoubleSpace(s: string) {
    forall i | 0 <= i < |s| - 1 :: !(s[i] == ' ' && s[i + 1] == ' ')
  }

  predicate NoEdges(s: string) {
    s != "" ==> !IsEdge(s[0]) && !IsEdge(s[|s| - 1])
  }

  predicate IsClean(s: string) {
    AllPlain(s) && NoDoubleSpace(s) && NoEdges(s)
  }

  // ---------------------------------------------------------------- what the passes establish

  lemma {:induction false} WithoutRemoves(s: string, bad: char -> bool)
    ensures forall c | c in Without(s, bad) :: c in s && !bad(c)
  {
    if s != "" {
      WithoutRemoves(s[1..], bad);
    }
  }

  lemma {:induction false} ColonsGone(s: string)
    ensures forall c | c in SpacedColons(s) :: c != ':' && (c in s || c == ' ' || c == '-')
  {
    if s != "" {
      ColonsGone(s[1..]);
    }
  }

  lemma {:induction false} IllegalGone(s: string)
    ensures forall c | c in Dashed(s) :: !IsIllegal(c) && (c in s || c == '-')
  {
    if s != "" {
      IllegalGone(s[1..]);
    }
  }

  lemma {:induction false} BlanksGone(s: string)
    ensures forall c | c in Collapsed(s) :: c == ' ' || (c in s && !IsBlank(c))
    ensures NoDoubleSpace(Collapsed(s))
    ensures s != "" ==> Collapsed(s) != "" && (IsBlank(s[0]) <==> Collapsed(s)[0] == ' ')
  {
    if s != "" {
      BlanksGone(s[1..]);
    }
  }

  lemma {:induction false} LeftGone(s: string)
    ensures exists k | 0 <= k <= |s| :: TrimLeft(s) == s[k..]
    ensures TrimLeft(s) != "" ==> !IsEdge(TrimLeft(s)[0])
  {
    if s != "" && IsEdge(s[0]) {
      LeftGone(s[1..]);
      var k :| 0 <= k <= |s[1..]| && TrimLeft(s[1..]) == s[1..][k..];
      assert s[1..][k..] == s[k + 1..];
    } else {
      assert s == s[0..];
    }
  }

  lemma {:induction false} RightGone(s: string)
    ensures exists k | 0 <= k <= |s| :: TrimRight(s) == s[..k]
    ensures TrimRight(s) != "" ==> !IsEdge(TrimRight(s)[|TrimRight(s)| - 1])
  {
    if s != "" && IsEdge(s[|s| - 1]) {
      RightGone(s[..|s| - 1]);
      var k :| 0 <= k <= |s| - 1 && TrimRight(s[..|s| - 1]) == s[..|s| - 1][..k];
      assert s[..|s| - 1][..k] == s[..k];
    } else {
      assert s == s[..|s|];
    }
  }

  lemma PartOfClean(s: string, i: nat, j: nat)
    requires AllPlain(s) && NoDoubleSpace(s) && i <= j <= |s|
    ensures AllPlain(s[i..j]) && NoDoubleSpace(s[i..j])
  {
    var t := s[i..j];
    forall k | 0 <= k < |t| - 1 ensures !(t[k] == ' ' && t[k + 1] == ' ') {
      assert t[k] == s[i + k] && t[k + 1] == s[i + k + 1];
    }
  }

  lemma LeftTrimmed(s: string)
    requires AllPlain(s) && NoDoubleSpace(s)
    ensures AllPlain(TrimLeft(s)) && NoDoubleSpace(TrimLeft(s))
  {
    LeftGone(s);
    var k :| 0 <= k <= |s| && TrimLeft(s) == s[k..];
    PartOfClean(s, k, |s|);
    assert s[k..|s|] == s[k..];
  }

  lemma RightTrimmed(s: string)
    requires AllPlain(s) && NoDoubleSpace(s) && (s != "" ==> !IsEdge(s[0]))
    ensures IsClean(TrimRight(s))
  {
    RightGone(s);
    var k :| 0 <= k <= |s| && TrimRight(s) == s[..k];
    PartOfClean(s, 0, k);
    assert s[0..k] == s[..k];
  }

  /** Cutting off both edges keeps what holds of the middle. */
  lemma TrimsClean(s: string)
    requires AllPlain(s) && NoDoubleSpace(s)
    ensures IsClean(TrimRight(TrimLeft(s)))
  {
    LeftTrimmed(s);
    LeftGone(s);
    RightTrimmed(TrimLeft(s));
  }

  /** The result of a cleaning is clean: no separator, colon or other illegal code point, no control or format
      character, no run of spaces, and neither spaces nor dots at its ends. */
  lemma CleanIsClean(s: string)
    ensures IsClean(Clean(s))
  {
    var s1 := Without(s, IsEmoji);
    var s2 := Without(s1, IsZeroWidthSpace);
    var s3 := SpacedColons(s2);
    var s4 := Dashed(s3);
    var s5 := Without(s4, IsOther);
    var s6 := Collapsed(s5);
    WithoutRemoves(s, IsEmoji);
    WithoutRemoves(s1, IsZeroWidthSpace);
    ColonsGone(s2);
    IllegalGone(s3);
    WithoutRemoves(s4, IsOther);
    BlanksGone(s5);
    forall c | c in s6 ensures IsPlain(c) || c == ' ' {
      StaysPlain(s1, s2, s3, s4, s5, c);
    }
    TrimsClean(s6);
  }

  lemma StaysPlain(s1: string, s2: string, s3: string, s4: string, s5: string, c: char)
    requires forall c | c in s1 :: !IsEmoji(c)
    requires forall c | c in s2 :: c in s1 && !IsZeroWidthSpace(c)
    requires forall c | c in s3 :: c != ':' && (c in s2 || c == ' ' || c == '-')
    requires forall c | c in s4 :: !IsIllegal(c) && (c in s3 || c == '-')
    requires forall c | c in s5 :: c in s4 && !IsOther(c)
    requires c == ' ' || (c in s5 && !IsBlank(c))
    ensures IsPlain(c) || c == ' '
  {
  }

  // ---------------------------------------------------------------- a clean name stays as it is

  lemma {:induction false} WithoutNothing(s: string, bad: char -> bool)
    requires forall c | c in s :: !bad(c)
    ensures Without(s, bad) == s
  {
    if s != "" {
      WithoutNothing(s[1..], bad);
    }
  }

  lemma {:induction false} PlainPasses(s: string)
    requires AllPlain(s)
    ensures SpacedColons(s) == s && Dashed(s) == s
  {
    if s != "" {
      assert s[0] in s;
      PlainPasses(s[1..]);
    }
  }

  lemma {:induction false} NothingToCollapse(s: string)
    requires AllPlain(s) && NoDoubleSpace(s)
    ensures Collapsed(s) == s
  {
    if s != "" {
      assert s[0] in s;
      if |s| > 1 {
        assert s[1] in s;
      }
      NothingToCollapse(s[1..]);
    }
  }

  lemma CleanStays(s: string)
    requires IsClean(s)
    ensures Clean(s) == s
  {
    forall c | c in s ensures !IsEmoji(c) && !IsZeroWidthSpace(c) && !IsOther(c) {
      assert IsPlain(c) || c == ' ';
    }
    WithoutNothing(s, IsEmoji);
    WithoutNothing(s, IsZeroWidthSpace);
    PlainPasses(s);
    WithoutNothing(s, IsOther);
    NothingToCollapse(s);
    assert TrimLeft(s) == s && TrimRight(s) == s;
  }

  /** A name is left as it is exactly if it is clean. */
  lemma UnchangedIffClean(s: string)
    ensures Clean(s) == s <==> IsClean(s)
  {
    CleanIsClean(s);
    if IsClean(s) {
      CleanStays(s);
    }
  }

  /** Cleaning twice is cleaning once. */
  lemma CleanTwice(s: string)
    ensures Clean(Clean(s)) == Clean(s)
  {
    CleanIsClean(s);
    UnchangedIffClean(Clean(s));
  }

  // ---------------------------------------------------------------- what is kept

  /** A code point that is neither removed nor put in by any pass. */
  predicate IsMarked(c: char) {
    !IsPlain(c) || c == '-' || c == '.'
  }

  function Kept(s: string): string {
    Without(s, IsMarked)
  }

  lemma {:induction false} KeptAppend(s: string, t: string)
    ensures Kept(s + t) == Kept(s) + Kept(t)
  {
    if s == "" {
      assert s + t == t;
    } else {
      assert (s + t)[1..] == s[1..] + t;
      KeptAppend(s[1..], t);
    }
  }

  lemma {:induction false} KeptWithout(s: string, bad: char -> bool)
    requires forall c | bad(c) :: IsMarked(c)
    ensures Kept(Without(s, bad)) == Kept(s)
  {
    if s != "" {
      KeptWithout(s[1..], bad);
      KeptFirst(s[0], s[1..]);
      assert [s[0]] + s[1..] == s;
      if !bad(s[0]) {
        KeptFirst(s[0], Without(s[1..], bad));
      } else {
        assert "" + Without(s[1..], bad) == Without(s[1..], bad);
      }
    }
  }

  lemma KeptFirst(c: char, t: string)
    ensures Kept([c] + t) == (if IsMarked(c) then "" else [c]) + Kept(t)
  {
    assert ([c] + t)[1..] == t;
  }

  lemma {:induction false} KeptColons(s: string)
    ensures Kept(SpacedColons(s)) == Kept(s)
  {
    if s != "" {
      var t := SpacedColons(s[1..]);
      KeptColons(s[1..]);
      if s[0] == ':' {
        KeptFirst('-', " " + t);
        KeptFirst(' ', t);
        KeptFirst(' ', "-" + (" " + t));
        assert " - " + t == " " + ("-" + (" " + t));
      } else {
        KeptFirst(s[0], t);
      }
    }
  }

  lemma {:induction false} KeptDashed(s: string)
    ensures Kept(Dashed(s)) == Kept(s)
  {
    if s != "" {
      KeptDashed(s[1..]);
      KeptFirst(if IsIllegal(s[0]) then '-' else s[0], Dashed(s[1..]));
    }
  }

  lemma {:induction false} KeptCollapsed(s: string)
    ensures Kept(Collapsed(s)) == Kept(s)
  {
    if s != "" {
      KeptCollapsed(s[1..]);
      KeptFirst(if IsBlank(s[0]) then ' ' else s[0], Collapsed(s[1..]));
    }
  }

  lemma {:induction false} KeptTrimLeft(s: string)
    ensures Kept(TrimLeft(s)) == Kept(s)
  {
    if s != "" && IsEdge(s[0]) {
      KeptTrimLeft(s[1..]);
    }
  }

  lemma {:induction false} KeptTrimRight(s: string)
    ensures Kept(TrimRight(s)) == Kept(s)
  {
    if s != "" && IsEdge(s[|s| - 1]) {
      var t := s[..|s| - 1];
      KeptTrimRight(t);
      KeptAppend(t, [s[|s| - 1]]);
      assert s == t + [s[|s| - 1]];
      KeptFirst(s[|s| - 1], "");
      assert [s[|s| - 1]] + "" == [s[|s| - 1]];
    }
  }

  /** Everything else is kept, in order and as often as it occurs. */
  lemma CleanKeeps(s: string)
    ensures Kept(Clean(s)) == Kept(s)
  {
    var s1 := Without(s, IsEmoji);
    var s2 := Without(s1, IsZeroWidthSpace);
    var s3 := SpacedColons(s2);
    var s4 := Dashed(s3);
    var s5 := Without(s4, IsOther);
    KeptWithout(s, IsEmoji);
    KeptWithout(s1, IsZeroWidthSpace);
    KeptColons(s2);
    KeptDashed(s3);
    KeptWithout(s4, IsOther);
    KeptCollapsed(s5);
    KeptTrimLeft(Collapsed(s5));
    KeptTrimRight(TrimLeft(Collapsed(s5)));
  }

  // ---------------------------------------------------------------- in plain terms

  /** What a clean name is made of, code point by code point: no path or wildcard character, no colon, no control
      character, no private-use character, no emoji of the pattern, no zero-width or directional mark, and of white
      space only single spaces, none at the ends, where no dots are either. */
  lemma CleanTells(s: string, i: nat)
    requires i < |Clean(s)|
    ensures var t := Clean(s); var c := t[i] as int;
            && c !in {'\\' as int, '/' as int, '*' as int, '?' as int, '\"' as int, '<' as int, '>' as int, '|' as int}
            && t[i] != ':' && c >= 0x20 && !(0x7F <= c <= 0x9F)
            && !(0x1F000 <= c <= 0x1FAFF) && !(0x2600 <= c <= 0x27BF) && c != 0xFE0F
            && c != 0xAD && !(0x200B <= c <= 0x200F) && !(0x202A <= c <= 0x202E) && !(0x2060 <= c <= 0x2064)
            && !(0x2066 <= c <= 0x206F) && c != 0xFEFF && !(0xE000 <= c <= 0xF8FF) && !(0xF0000 <= c <= 0xFFFFD)
            && (t[i] == ' ' && i + 1 < |t| ==> t[i + 1] != ' ')
            && (i == 0 || i == |t| - 1 ==> t[i] != ' ' && t[i] != '.')
  {
    CleanIsClean(s);
    assert Clean(s)[i] in Clean(s);
  }

  /** And the other way round: what no pass removes or replaces is exactly this, with the format characters of
      Unicode 15 in full. */
  lemma PlainTells(a: char)
    ensures var c := a as int;
            IsPlain(a) <==>
            && c !in {0xAD, 0x61C, 0x6DD, 0x70F, 0x8E2, 0x180E, 0xFEFF, 0x110BD, 0x110CD, 0xE0001}
            && !(0x600 <= c <= 0x605) && c != 0x890 && c != 0x891 && !(0x200B <= c <= 0x200F)
            && !(0x202A <= c <= 0x202E) && !(0x2060 <= c <= 0x2064) && !(0x2066 <= c <= 0x206F)
            && !(0xFFF9 <= c <= 0xFFFB) && !(0x13430 <= c <= 0x1343F) && !(0x1BCA0 <= c <= 0x1BCA3)
            && !(0x1D173 <= c <= 0x1D17A) && !(0xE0020 <= c <= 0xE007F)
            && c !in {'\\' as int, '/' as int, '*' as int, '?' as int, '\"' as int, '<' as int, '>' as int, '|' as int}
            && a != ':' && c > 0x20 && !(0x7F <= c <= 0x9F)
            && !(0x1F000 <= c <= 0x1FAFF) && !(0x2600 <= c <= 0x27BF) && c != 0xFE0F
            && !(0xE000 <= c <= 0xF8FF) && !(0xF0000 <= c <= 0xFFFFD) && !(0x100000 <= c <= 0x10FFFD)
  {
  }

  lemma {:induction false} ColonsAppend(s: string, t: string)
    ensures SpacedColons(s + t) == SpacedColons(s) + SpacedColons(t)
  {
    if s == "" {
      assert s + t == t;
    } else {
      assert (s + t)[1..] == s[1..] + t;
      ColonsAppend(s[1..], t);
    }
  }

  lemma {:induction false} DashedAppend(s: string, t: string)
    ensures Dashed(s + t) == Dashed(s) + Dashed(t)
  {
    if s == "" {
      assert s + t == t;
    } else {
      assert (s + t)[1..] == s[1..] + t;
      DashedAppend(s[1..], t);
    }
  }

  /** A code point that only the passes for colons and for illegal characters touch. */
  predicate OnlyReplaced(c: char) {
    !IsEmoji(c) && !IsZeroWidthSpace(c)
  }

  lemma BetweenStays(p: string, c: char, q: string)
    requires IsClean(p) && IsClean(q) && OnlyReplaced(c)
    ensures Without(Without(p + [c] + q, IsEmoji), IsZeroWidthSpace) == p + [c] + q
  {
    var s := p + [c] + q;
    forall d | d in s ensures !IsEmoji(d) && !IsZeroWidthSpace(d) {
      assert d in p || d == c || d in q;
    }
    WithoutNothing(s, IsEmoji);
    WithoutNothing(s, IsZeroWidthSpace);
  }

  lemma CleanJoined(p: string, m: string, q: string)
    requires IsClean(p) && IsClean(q) && p != "" && q != "" && (m == " - " || m == "-")
    ensures IsClean(p + m + q)
  {
    var s := p + m + q;
    forall c | c in s ensures IsPlain(c) || c == ' ' {
      assert c in p || c in m || c in q;
    }
    forall i | 0 <= i < |s| - 1 ensures !(s[i] == ' ' && s[i + 1] == ' ') {
      assert i >= |p| + |m| ==> s[i] == q[i - |p| - |m|];
    }
  }

  /** If the replacements leave a clean text, the later passes leave it alone. */
  lemma LaterPasses(s: string, t: string)
    requires Without(Without(s, IsEmoji), IsZeroWidthSpace) == s && Dashed(SpacedColons(s)) == t && IsClean(t)
    ensures Clean(s) == t
  {
    forall c | c in t ensures !IsOther(c) {
      assert IsPlain(c) || c == ' ';
    }
    WithoutNothing(t, IsOther);
    NothingToCollapse(t);
    assert TrimLeft(t) == t && TrimRight(t) == t;
  }

  lemma ReplacedBetween(p: string, m: string, q: string)
    requires AllPlain(p) && AllPlain(q)
    ensures SpacedColons(p + m + q) == p + SpacedColons(m) + q
    ensures Dashed(p + m + q) == p + Dashed(m) + q
  {
    PlainPasses(p);
    PlainPasses(q);
    ColonsAppend(p + m, q);
    ColonsAppend(p, m);
    DashedAppend(p + m, q);
    DashedAppend(p, m);
  }

  /** Between clean names a colon becomes a spaced dash. */
  lemma ColonIsSpaced(p: string, q: string)
    requires IsClean(p) && IsClean(q) && p != "" && q != ""
    ensures Clean(p + ":" + q) == p + " - " + q
  {
    BetweenStays(p, ':', q);
    ReplacedBetween(p, ":", q);
    ReplacedBetween(p, " - ", q);
    PlainPasses(" - ");
    assert ":"[1..] == "" && SpacedColons(":") == " - ";
    CleanJoined(p, " - ", q);
    LaterPasses(p + ":" + q, p + " - " + q);
  }

  /** And an illegal character becomes a dash. */
  lemma IllegalIsDashed(p: string, c: char, q: string)
    requires IsClean(p) && IsClean(q) && p != "" && q != ""
    requires c == '\\' || c == '/' || c == '*' || c == '?' || c == '\"' || c == '<' || c == '>' || c == '|'
    ensures Clean(p + [c] + q) == p + "-" + q
  {
    BetweenStays(p, c, q);
    ReplacedBetween(p, [c], q);
    assert [c][1..] == "" && SpacedColons([c]) == [c] && Dashed([c]) == "-";
    CleanJoined(p, "-", q);
    LaterPasses(p + [c] + q, p + "-" + q);
  }

  // ---------------------------------------------------------------- numbers

  const LEAST: int := -0x8000_0000_0000_0000

  /** Decimal digits without leading zeros. */
  function Decimal(n: nat): (s: string)
    ensures s != ""
  {
    if n < 10 then [Digit(n)] else Decimal(n / 10) + [Digit(n % 10)]
  }

  lemma {:induction false} DecimalReadsBack(n: nat)
    ensures Number(Decimal(n)) == Some(n)
    ensures forall i | 0 <= i < |Decimal(n)| :: IsDigit(Decimal(n)[i])
    ensures n > 0 ==> Decimal(n)[0] != '0'
  {
    var s := Decimal(n);
    if n < 10 {
      assert s[..|s| - 1] == "";
      assert Number("") == Some(0);
    } else {
      DecimalReadsBack(n / 10);
      assert s[..|s| - 1] == Decimal(n / 10);
    }
  }

  lemma {:induction false} DecimalLength(n: nat, k: nat)
    requires 1 <= k && n < Pow10(k)
    ensures |Decimal(n)| <= k
  {
    if n >= 10 {
      assert Pow10(1) == 10;
      DecimalLength(n / 10, k - 1);
    }
  }

  /** The text of a 64-bit number; the least of them has no positive counterpart and loses its digits. */
  function Text64(n: int): string {
    if n == LEAST then "-" else if n < 0 then "-" + Decimal(-n) else Decimal(n)
  }

  /** Digits are written from the end of a 20-byte buffer. */
  method Itoa(n: int) returns (s: string)
    requires LEAST <= n < -LEAST
    ensures s == Text64(n)
  {
    if n == 0 {
      return "0";
    }
    var neg := n < 0;
    var m := if n == LEAST then LEAST else if neg then -n else n;
    var b := new char[20];
    var i := WriteDigits(b, m);
    ghost var done := Digits(m);
    if neg {
      done := "-" + done;
      i := i - 1;
      b[i] := '-';
    }
    s := b[i..];
    assert s == done;
  }

  /** The digits, from the end of the buffer on; none for a number that is not positive. */
  method WriteDigits(b: array<char>, n: int) returns (i: nat)
    requires b.Length == 20 && n < -LEAST
    modifies b
    ensures i >= 1 && Ends(b[..], i, Digits(n))
  {
    i := b.Length;
    var m := n;
    ghost var done := "";
    if m > 0 {
      Fits19(m);
    }
    while m > 0
      invariant Digits(n) == Digits(m) + done && |Digits(n)| <= 19 && i == 20 - |done|
      invariant Ends(b[..], i, done)
    {
      OneDigit(Digits(n), m, done);
      done := [Digit(m % 10)] + done;
      i := i - 1;
      b[i] := Digit(m % 10);
      m := m / 10;
    }
    assert Digits(m) + done == done;
  }

  /** The digits that are still to be written. */
  function Digits(m: int): string {
    if m > 0 then Decimal(m) else ""
  }

  /** The buffer ends with this text. */
  predicate Ends(b: string, i: int, done: string) {
    0 <= i && |b| == i + |done| && forall k | 0 <= k < |done| :: b[i + k] == done[k]
  }

  lemma OneDigit(whole: string, m: nat, done: string)
    requires m > 0 && whole == Digits(m) + done
    ensures whole == Digits(m / 10) + ([Digit(m % 10)] + done) && |done| < |whole|
  {
  }

  lemma Fits19(m: nat)
    requires m < -LEAST
    ensures |Decimal(m)| <= 19
  {
    assert Pow10(5) == 100_000;
    assert Pow10(10) == 10_000_000_000;
    assert Pow10(15) == 1_000_000_000_000_000;
    assert Pow10(19) == 10_000_000_000_000_000_000;
    DecimalLength(m, 19);
  }

  function ReadNumber(s: string): Option<int> {
    if s == "" || s == "-" then None
    else
      match Number(if s[0] == '-' then s[1..] else s)
      case Some(n) => var value: int := n; Some(if s[0] == '-' then -value else value)
      case None => None
  }

  /** Every number is read back from its text, except the least one. */
  lemma ReadsBackIff(n: int)
    requires LEAST <= n < -LEAST
    ensures ReadNumber(Text64(n)) == Some(n) <==> n != LEAST
  {
    if n != LEAST {
      var m := if n < 0 then -n else n;
      DecimalReadsBack(m);
      assert IsDigit(Decimal(m)[0]);
      assert ("-" + Decimal(m))[1..] == Decimal(m);
    }
  }
}
