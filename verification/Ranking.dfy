/** Collecting and ranking the sources of all providers (internal/provider/registry.go, lines 115-146, and
    internal/provider/scoring.go, lines 13-72). Scores are real numbers. */
module Ranking {
  import opened Basics
  import opened Hosts

  datatype Quality = Q1080 | Q720 | OtherQuality
  datatype Codec = Hevc | Avc | Av1 | OtherCodec

  datatype Source = Source(
    url: string, host: string, quality: Quality, codec: Codec, latency: int, size: int, score: real)

  /** Whether the entry of a host is banned at this moment. */
  predicate Banned(h: HostStats, now: nat) {
    h.samples > 0 && h.bannedUntil.Some? && now < h.bannedUntil.value
  }

  function Score(s: Source, h: HostStats, now: nat): real {
    if Banned(h, now) then -1.0
    else
      var quality := match s.quality case Q1080 => 1.0 case Q720 => 0.7 case OtherQuality => 0.5;
      var codec := match s.codec case Hevc => 1.0 case Avc => 0.9 case Av1 => -0.15 case OtherCodec => 0.5;
      var latency := if s.latency > 2000 then 2000 else s.latency;
      var latencyScore := if latency == 0 then 0.5 else 1.0 - latency as real / 2000.0;
      var host := if h.samples > 0 then h.average else 0.7;
      var size := if s.size > 0 then 1.0 else 0.0;
      0.45 * quality + 0.20 * codec + 0.15 * host + 0.10 * latencyScore + 0.05 * size
  }

  /** A host that is not banned scores at least 0.195 whatever else is wrong with the source, so the score tells
      whether it was banned. */
  lemma BannedIffNegative(s: Source, h: HostStats, now: nat)
    requires h.average >= 0.0
    ensures Score(s, h, now) == -1.0 <==> Banned(h, now)
    ensures !Banned(h, now) ==> Score(s, h, now) >= 0.195
  {
    var latency := if s.latency > 2000 then 2000 else s.latency;
    assert latency as real / 2000.0 <= 1.0;
  }

  /** The worst case is reached. */
  lemma WorstScore(now: nat)
    ensures Score(Source("", "", OtherQuality, Av1, 2000, 0, 0.0), UNKNOWN.(samples := 1), now) == 0.195
  {
  }

  function QualityRank(q: Quality): nat {
    match q case Q1080 => 2 case Q720 => 1 case OtherQuality => 0
  }

  function CodecRank(c: Codec): nat {
    match c case Hevc => 3 case Avc => 2 case OtherCodec => 1 case Av1 => 0
  }

  /** Never worse in any respect: picture, codec, health of the host, measured latency, known size. */
  ghost predicate NoWorse(s: Source, h: HostStats, t: Source, g: HostStats) {
    && QualityRank(s.quality) >= QualityRank(t.quality) && CodecRank(s.codec) >= CodecRank(t.codec)
    && h.samples > 0 && g.samples > 0 && h.average >= g.average
    && 0 < s.latency <= t.latency && (t.size > 0 ==> s.size > 0)
  }

  /** The ranking prefers what is better: a source that is no worse in any respect never scores less, and one
      with a better picture or codec scores more. */
  lemma ScorePrefers(s: Source, h: HostStats, t: Source, g: HostStats, now: nat)
    requires NoWorse(s, h, t, g) && g.average >= 0.0 && !Banned(h, now)
    ensures Score(s, h, now) >= Score(t, g, now)
    ensures QualityRank(s.quality) > QualityRank(t.quality) || CodecRank(s.codec) > CodecRank(t.codec)
      ==> Score(s, h, now) > Score(t, g, now)
  {
    if Banned(g, now) {
      BannedIffNegative(s, h, now);
    } else {
      var a, b := if s.latency > 2000 then 2000 else s.latency, if t.latency > 2000 then 2000 else t.latency;
      assert a as real / 2000.0 <= b as real / 2000.0;
    }
  }

  // ---------------------------------------------------------------- what a difference is worth

  /** A host that is not banned at the moment. */
  predicate Admitted(h: HostStats, now: nat) {
    h.samples == 0 || h.bannedUntil.None? || h.bannedUntil.value <= now
  }

  /** Banned means known, with a ban that is not over; such a source scores minus one. */
  lemma ScoreOfBanned(s: Source, h: HostStats, now: nat)
    requires h.average >= 0.0
    ensures Score(s, h, now) == -1.0 <==> h.samples > 0 && h.bannedUntil.Some? && now < h.bannedUntil.value
    ensures Admitted(h, now) <==> Score(s, h, now) != -1.0
  {
    BannedIffNegative(s, h, now);
  }

  /** All else equal, 1080 is worth 0.135 more than 720, and 720 is worth 0.09 more than the rest. */
  lemma PictureIsWorth(s: Source, h: HostStats, now: nat)
    requires Admitted(h, now)
    ensures Score(s.(quality := Q1080), h, now) == Score(s.(quality := Q720), h, now) + 0.135
    ensures Score(s.(quality := Q720), h, now) == Score(s.(quality := OtherQuality), h, now) + 0.09
  {
  }

  /** HEVC is 0.02 above AVC, AVC 0.08 above unknown codecs, and these 0.13 above AV1. */
  lemma CodecIsWorth(s: Source, h: HostStats, now: nat)
    requires Admitted(h, now)
    ensures Score(s.(codec := Hevc), h, now) == Score(s.(codec := Avc), h, now) + 0.02
    ensures Score(s.(codec := Avc), h, now) == Score(s.(codec := OtherCodec), h, now) + 0.08
    ensures Score(s.(codec := OtherCodec), h, now) == Score(s.(codec := Av1), h, now) + 0.13
  {
  }

  /** Two seconds of latency or more are worth the same, and every millisecond less is worth 0.00005; an unmeasured
      latency counts like one second, and a known size is worth 0.05. */
  lemma LatencyAndSizeAreWorth(s: Source, h: HostStats, now: nat, a: int, b: int)
    requires Admitted(h, now)
    ensures a >= 2000 ==> Score(s.(latency := a), h, now) == Score(s.(latency := 2000), h, now)
    ensures 0 < a <= 2000 && 0 < b <= 2000
      ==> Score(s.(latency := a), h, now) == Score(s.(latency := b), h, now) + 0.00005 * (b - a) as real
    ensures Score(s.(latency := 0), h, now) == Score(s.(latency := 1000), h, now)
    ensures a > 0 && b <= 0 ==> Score(s.(size := a), h, now) == Score(s.(size := b), h, now) + 0.05
  {
  }

  /** The average of a known host is worth 0.15 of itself, and an unknown host counts like an average of 0.7. */
  lemma HostIsWorth(s: Source, h: HostStats, g: HostStats, now: nat)
    requires Admitted(h, now) && Admitted(g, now) && h.samples > 0
    ensures g.samples > 0 ==> Score(s, h, now) - Score(s, g, now) == 0.15 * (h.average - g.average)
    ensures g.samples == 0 ==> Score(s, g, now) == Score(s, h.(average := 0.7), now)
  {
  }

  /** With one score these differences give every other. */
  lemma OneScore(s: Source, h: HostStats, now: nat)
    requires Admitted(h, now) && h.samples > 0 && h.average == 1.0
    ensures Score(s.(quality := Q1080, codec := Hevc, latency := 2000, size := 1), h, now) == 0.85
  {
  }

  function HostValue(h: HostStats): real { if h.samples > 0 then h.average else 0.7 }
  function Millis(latency: int): int { if latency == 0 then 1000 else if latency > 2000 then 2000 else latency }
  function Known(size: int): int { if size > 0 then 1 else 0 }

  /** Two sources in a ranking, scored at their own moments: a full-HD AVC source comes before an HEVC source in 720
      exactly as long as that one does not make up for the 0.115 between them with host, latency and size. */
  lemma FullHdAvcFirstIff(out: seq<Source>, i: nat, j: nat, h: HostStats, g: HostStats, now: nat, later: nat)
    requires Descending(out) && i < |out| && j < |out| && i != j
    requires out[i].quality == Q1080 && out[i].codec == Avc && out[j].quality == Q720 && out[j].codec == Hevc
    requires Admitted(h, now) && Admitted(g, later)
    requires out[i].score == Score(out[i], h, now) && out[j].score == Score(out[j], g, later)
    ensures var a, b := out[i], out[j];
            var lead := 0.115 + 0.15 * (HostValue(h) - HostValue(g))
              + 0.00005 * (Millis(b.latency) - Millis(a.latency)) as real
              + 0.05 * (Known(a.size) - Known(b.size)) as real;
            (lead > 0.0 ==> i < j) && (lead < 0.0 ==> j < i) && (lead == 0.0 <==> a.score == b.score)
  {
  }

  // ---------------------------------------------------------------- collecting

  /** What a provider answers: sources, or nothing because it failed. */
  type Answers = map<string, Option<seq<Source>>>

  ghost predicate HealthyAverages(hosts: map<string, HostStats>) {
    forall n | n in hosts :: hosts[n].average >= 0.0
  }

  /** The health of the hosts and the time at every scoring; both may change from one to the next. */
  datatype Moments = Moments(hosts: nat -> map<string, HostStats>, clock: nat -> nat)
  {
    function Health(k: nat, host: string): HostStats { Entry(hosts(k), host) }
    ghost predicate Healthy() { forall k: nat :: HealthyAverages(hosts(k)) }
  }

  function ScoredAt(s: Source, at: Moments, k: nat): Source {
    s.(score := Score(s, at.Health(k, s.host), at.clock(k)))
  }

  /** The sources of one provider with their scores, the first of them scored as number `from`. */
  function Scored(srcs: seq<Source>, at: Moments, from: nat): seq<Source> {
    if srcs == [] then []
    else Scored(srcs[..|srcs| - 1], at, from) + [ScoredAt(srcs[|srcs| - 1], at, from + |srcs| - 1)]
  }

  function Collected(names: seq<string>, answers: Answers, at: Moments): seq<Source>
    requires forall n | n in names :: n in answers
  {
    if names == [] then []
    else
      var before, last := Collected(names[..|names| - 1], answers, at), names[|names| - 1];
      if answers[last].None? then before else before + Scored(answers[last].value, at, |before|)
  }

  function Failed(names: seq<string>, answers: Answers): set<string>
    requires forall n | n in names :: n in answers
  {
    set n | n in names && answers[n].None?
  }

  // ---------------------------------------------------------------- sorting

  ghost predicate Descending(s: seq<Source>) {
    forall i, j | 0 <= i < j < |s| :: s[i].score >= s[j].score
  }

  /** The sources of one score, in order. */
  function WithScore(s: seq<Source>, v: real): seq<Source> {
    if s == [] then []
    else WithScore(s[..|s| - 1], v) + (if s[|s| - 1].score == v then [s[|s| - 1]] else [])
  }

  ghost predicate SameByScore(a: seq<Source>, b: seq<Source>) {
    forall v: real :: WithScore(a, v) == WithScore(b, v)
  }

  /** A stable sort: descending, and sources of equal score keep their order. */
  ghost predicate StablySorted(out: seq<Source>, input: seq<Source>) {
    Descending(out) && SameByScore(out, input)
  }

  lemma {:induction false} WithScoreAppend(s: seq<Source>, t: seq<Source>, v: real)
    ensures WithScore(s + t, v) == WithScore(s, v) + WithScore(t, v)
  {
    if t == [] {
      assert s + t == s;
    } else {
      assert (s + t)[..|s + t| - 1] == s + t[..|t| - 1];
      WithScoreAppend(s, t[..|t| - 1], v);
    }
  }

  lemma {:induction false} WithScoreNone(s: seq<Source>, v: real)
    ensures WithScore(s, v) == [] <==> forall x | x in s :: x.score != v
    ensures forall x | x in WithScore(s, v) :: x in s && x.score == v
  {
    if s != [] {
      WithScoreNone(s[..|s| - 1], v);
      assert s == s[..|s| - 1] + [s[|s| - 1]];
    }
  }

  /** A stable sort is unique, so it does not matter by which algorithm the sources are sorted. */
  lemma {:induction false} StableSortIsUnique(a: seq<Source>, b: seq<Source>, input: seq<Source>)
    requires StablySorted(a, input) && StablySorted(b, input)
    ensures a == b
  {
    SameFilters(a, b);
  }

  lemma {:induction false} SameFilters(a: seq<Source>, b: seq<Source>)
    requires Descending(a) && Descending(b) && SameByScore(a, b)
    ensures a == b
  {
    if a != [] && b != [] {
      SameLast(a, b);
      SameFilters(a[..|a| - 1], b[..|b| - 1]);
      assert a == a[..|a| - 1] + [a[|a| - 1]] && b == b[..|b| - 1] + [b[|b| - 1]];
    } else if a != [] {
      NotEmpty(b, a);
    } else if b != [] {
      NotEmpty(a, b);
    }
  }

  lemma SameLast(a: seq<Source>, b: seq<Source>)
    requires Descending(a) && Descending(b) && SameByScore(a, b) && a != [] && b != []
    ensures a[|a| - 1] == b[|b| - 1]
    ensures SameByScore(a[..|a| - 1], b[..|b| - 1])
  {
    var x, y := a[|a| - 1], b[|b| - 1];
    LastIsLeast(a, b);
    LastIsLeast(b, a);
    var w := WithScore(a, x.score);
    assert w == WithScore(b, y.score) && w[|w| - 1] == x && w[|w| - 1] == y;
    var p, q := a[..|a| - 1], b[..|b| - 1];
    forall v: real ensures WithScore(p, v) == WithScore(q, v) {
      Shortened(a, b, v);
    }
  }

  lemma Shortened(a: seq<Source>, b: seq<Source>, v: real)
    requires SameByScore(a, b) && a != [] && b != [] && a[|a| - 1] == b[|b| - 1]
    ensures WithScore(a[..|a| - 1], v) == WithScore(b[..|b| - 1], v)
  {
    var tail := if a[|a| - 1].score == v then [a[|a| - 1]] else [];
    assert WithScore(a, v) == WithScore(b, v);
    Unappend(WithScore(a[..|a| - 1], v), WithScore(b[..|b| - 1], v), tail);
  }

  lemma Unappend<T>(p: seq<T>, q: seq<T>, tail: seq<T>)
    requires p + tail == q + tail
    ensures p == q
  {
    assert p == (p + tail)[..|p + tail| - |tail|];
    assert q == (q + tail)[..|q + tail| - |tail|];
  }

  lemma NotEmpty(a: seq<Source>, b: seq<Source>)
    requires SameByScore(a, b) && b != []
    ensures a != []
  {
    WithScoreNone(b, b[0].score);
    assert WithScore(a, b[0].score) == WithScore(b, b[0].score);
  }

  lemma LastIsLeast(a: seq<Source>, b: seq<Source>)
    requires a != [] && b != [] && Descending(a) && SameByScore(a, b)
    ensures a[|a| - 1].score <= b[|b| - 1].score
  {
    var v := b[|b| - 1].score;
    assert WithScore(a, v) == WithScore(b, v);
    WithScoreNone(a, v);
    assert WithScore(a, v) != [];
    var x :| x in a && x.score == v;
    var i :| 0 <= i < |a| && a[i] == x;
  }

  lemma {:induction false} SameSources(a: seq<Source>, b: seq<Source>)
    requires SameByScore(a, b)
    ensures multiset(a) == multiset(b)
  {
    forall x ensures multiset(a)[x] == multiset(b)[x] {
      CountIn(a, x);
      CountIn(b, x);
      assert WithScore(a, x.score) == WithScore(b, x.score);
    }
  }

  lemma {:induction false} CountIn(s: seq<Source>, x: Source)
    ensures multiset(s)[x] == multiset(WithScore(s, x.score))[x]
  {
    if s != [] {
      var before, last := s[..|s| - 1], s[|s| - 1];
      CountIn(before, x);
      assert s == before + [last];
      assert multiset(s) == multiset(before) + multiset{last};
      assert WithScore(s, x.score) == WithScore(before, x.score) + (if last.score == x.score then [last] else []);
    }
  }

  /** Insertion behind every source of the same or a higher score. */
  method Insert(sorted: seq<Source>, x: Source, ghost input: seq<Source>) returns (out: seq<Source>)
    requires StablySorted(sorted, input)
    ensures StablySorted(out, input + [x])
  {
    var k := |sorted|;
    while k > 0 && sorted[k - 1].score < x.score
      invariant 0 <= k <= |sorted| && forall m | k <= m < |sorted| :: sorted[m].score < x.score
    {
      k := k - 1;
    }
    out := sorted[..k] + [x] + sorted[k..];
    InsertedWell(sorted, k, x, input);
  }

  lemma InsertedWell(sorted: seq<Source>, k: nat, x: Source, input: seq<Source>)
    requires StablySorted(sorted, input) && k <= |sorted|
    requires k > 0 ==> sorted[k - 1].score >= x.score
    requires forall m | k <= m < |sorted| :: sorted[m].score < x.score
    ensures StablySorted(sorted[..k] + [x] + sorted[k..], input + [x])
  {
    var out, whole := sorted[..k] + [x] + sorted[k..], input + [x];
    InsertedInOrder(sorted, k, x);
    forall v: real ensures WithScore(out, v) == WithScore(whole, v) {
      assert WithScore(sorted, v) == WithScore(input, v);
      InsertedFilter(sorted, k, x, v);
      WithScoreAppend(input, [x], v);
    }
  }

  lemma InsertedInOrder(sorted: seq<Source>, k: nat, x: Source)
    requires Descending(sorted) && k <= |sorted|
    requires k > 0 ==> sorted[k - 1].score >= x.score
    requires forall m | k <= m < |sorted| :: sorted[m].score < x.score
    ensures Descending(sorted[..k] + [x] + sorted[k..])
  {
    var out := sorted[..k] + [x] + sorted[k..];
    forall i, j | 0 <= i < j < |out| ensures out[i].score >= out[j].score {
      var a, b := if i < k then i else i - 1, if j < k then j else j - 1;
      assert i < k ==> out[i] == sorted[a] && sorted[a].score >= sorted[k - 1].score;
      assert i > k ==> out[i] == sorted[a];
      assert j < k ==> out[j] == sorted[b];
      assert j > k ==> out[j] == sorted[b];
    }
  }

  lemma InsertedFilter(s: seq<Source>, k: nat, x: Source, v: real)
    requires k <= |s| && forall m | k <= m < |s| :: s[m].score < x.score
    ensures WithScore(s[..k] + [x] + s[k..], v) == WithScore(s, v) + WithScore([x], v)
  {
    var p, t := s[..k], s[k..];
    assert s == p + t;
    FilterBetween(p, x, t, v);
  }

  lemma FilterBetween(p: seq<Source>, x: Source, t: seq<Source>, v: real)
    requires forall y | y in t :: y.score < x.score
    ensures WithScore(p + [x] + t, v) == WithScore(p + t, v) + WithScore([x], v)
  {
    WithScoreAppend(p + [x], t, v);
    WithScoreAppend(p, [x], v);
    WithScoreAppend(p, t, v);
    SmallerPass(t, x, v);
    Swap(WithScore(p, v), WithScore([x], v), WithScore(t, v));
  }

  lemma Swap<T>(p: seq<T>, q: seq<T>, t: seq<T>)
    requires q == [] || t == []
    ensures (p + q) + t == (p + t) + q
  {
  }

  lemma SmallerPass(t: seq<Source>, x: Source, v: real)
    requires forall y | y in t :: y.score < x.score
    ensures WithScore([x], v) == [] || WithScore(t, v) == []
  {
    WithScoreNone(t, v);
    WithScoreNone([x], v);
  }

  method SortStable(input: seq<Source>) returns (out: seq<Source>)
    ensures StablySorted(out, input)
  {
    out := [];
    for i := 0 to |input|
      invariant StablySorted(out, input[..i])
    {
      out := Insert(out, input[i], input[..i]);
      assert input[..i] + [input[i]] == input[..i + 1];
    }
    assert input[..|input|] == input;
  }

  // ---------------------------------------------------------------- the whole query

  /** One provider's sources are scored and appended. */
  method ScoreSources(srcs: seq<Source>, at: Moments, before: seq<Source>)
    returns (out: seq<Source>)
    ensures out == before + Scored(srcs, at, |before|)
  {
    out := before;
    for i := 0 to |srcs|
      invariant out == before + Scored(srcs[..i], at, |before|)
    {
      ScoredLength(srcs[..i], at, |before|);
      assert srcs[..i + 1][..i] == srcs[..i];
      var src := srcs[i];
      out := out + [ScoredAt(src, at, |out|)];
    }
    assert srcs[..|srcs|] == srcs;
  }

  /** The ranked sources of the providers that answered, and the names of those that failed. */
  method ResolveAll(names: seq<string>, answers: Answers, at: Moments)
    returns (out: seq<Source>, errs: set<string>)
    requires forall n | n in names :: n in answers
    ensures errs == Failed(names, answers)
    ensures StablySorted(out, Collected(names, answers, at))
  {
    out, errs := [], {};
    for k := 0 to |names|
      invariant out == Collected(names[..k], answers, at)
      invariant errs == Failed(names[..k], answers)
    {
      OneMore(names, k, answers);
      var answer := answers[names[k]];
      if answer.None? {
        errs := errs + {names[k]};
      } else {
        out := ScoreSources(answer.value, at, out);
      }
    }
    assert names[..|names|] == names;
    out := SortStable(out);
  }

  lemma OneMore(names: seq<string>, k: nat, answers: Answers)
    requires k < |names| && forall n | n in names :: n in answers
    ensures names[..k + 1][..k] == names[..k]
    ensures Failed(names[..k + 1], answers)
         == Failed(names[..k], answers) + (if answers[names[k]].None? then {names[k]} else {})
  {
    assert names[..k + 1] == names[..k] + [names[k]];
  }

  lemma {:induction false} ScoredLength(srcs: seq<Source>, at: Moments, from: nat)
    ensures |Scored(srcs, at, from)| == |srcs|
  {
    if srcs != [] {
      ScoredLength(srcs[..|srcs| - 1], at, from);
    }
  }

  /** Everything the providers that answered have to offer, in order. */
  function Offered(names: seq<string>, answers: Answers): seq<Source>
    requires forall n | n in names :: n in answers
  {
    if names == [] then []
    else
      var last := answers[names[|names| - 1]];
      Offered(names[..|names| - 1], answers) + (if last.None? then [] else last.value)
  }

  /** The sources without their scores, each as often as it occurs. */
  function Bag(s: seq<Source>): multiset<Source> {
    if s == [] then multiset{} else Bag(s[..|s| - 1]) + multiset{s[|s| - 1].(score := 0.0)}
  }

  lemma {:induction false} BagAppend(s: seq<Source>, t: seq<Source>)
    ensures Bag(s + t) == Bag(s) + Bag(t)
  {
    if t == [] {
      assert s + t == s;
    } else {
      assert (s + t)[..|s + t| - 1] == s + t[..|t| - 1];
      BagAppend(s, t[..|t| - 1]);
    }
  }

  lemma {:induction false} BagScored(srcs: seq<Source>, at: Moments, from: nat)
    ensures Bag(Scored(srcs, at, from)) == Bag(srcs)
  {
    if srcs != [] {
      BagScored(srcs[..|srcs| - 1], at, from);
      var s := Scored(srcs, at, from);
      assert s[..|s| - 1] == Scored(srcs[..|srcs| - 1], at, from);
    }
  }

  lemma {:induction false} BagCollected(
      names: seq<string>, answers: Answers, at: Moments)
    requires forall n | n in names :: n in answers
    ensures Bag(Collected(names, answers, at)) == Bag(Offered(names, answers))
  {
    if names != [] {
      var rest, last := names[..|names| - 1], answers[names[|names| - 1]];
      BagCollected(rest, answers, at);
      if last.Some? {
        var before := Collected(rest, answers, at);
        BagScored(last.value, at, |before|);
        BagAppend(before, Scored(last.value, at, |before|));
        BagAppend(Offered(rest, answers), last.value);
      } else {
        assert Offered(rest, answers) + [] == Offered(rest, answers);
      }
    }
  }

  lemma Without(b: seq<Source>, x: Source) returns (q: seq<Source>)
    requires x in multiset(b)
    ensures |q| == |b| - 1 && multiset(b) == multiset(q) + multiset{x}
    ensures Bag(b) == Bag(q) + multiset{x.(score := 0.0)}
  {
    var j :| 0 <= j < |b| && b[j] == x;
    var p, t := b[..j], b[j + 1..];
    q := p + t;
    assert b == p + ([x] + t);
    BagAppend(p, t);
    BagAppend(p, [x] + t);
    BagAppend([x], t);
    assert Bag([x]) == multiset{x.(score := 0.0)};
  }

  lemma Cancel(p: multiset<Source>, q: multiset<Source>, x: multiset<Source>)
    requires p + x == q + x
    ensures p == q
  {
    assert p == (p + x) - x;
    assert q == (q + x) - x;
  }

  lemma {:induction false} BagPermutes(a: seq<Source>, b: seq<Source>)
    requires multiset(a) == multiset(b)
    ensures Bag(a) == Bag(b)
    decreases |a|
  {
    assert |a| == |multiset(a)| == |multiset(b)| == |b|;
    if a != [] {
      assert a[0] in multiset(a);
      var p := Without(a, a[0]);
      var q := Without(b, a[0]);
      Cancel(multiset(p), multiset(q), multiset{a[0]});
      BagPermutes(p, q);
    }
  }

  /** A ranking lists everything that was offered, each source as often as it was offered, and nothing else. */
  lemma RankingKeepsSources(names: seq<string>, answers: Answers, at: Moments,
                            out: seq<Source>)
    requires forall n | n in names :: n in answers
    requires StablySorted(out, Collected(names, answers, at))
    ensures Bag(out) == Bag(Offered(names, answers))
  {
    SameSources(out, Collected(names, answers, at));
    BagPermutes(out, Collected(names, answers, at));
    BagCollected(names, answers, at);
  }

  /** Whatever was reported, no average is negative. */
  lemma {:induction false} HistoryIsHealthy(reports: seq<Report>)
    ensures HealthyAverages(History(reports)) && "" !in History(reports)
  {
    if reports != [] {
      HistoryIsHealthy(reports[..|reports| - 1]);
    }
    forall n | n in History(reports) ensures History(reports)[n].average >= 0.0 {
      OwnReportsOnly(reports, n);
      AboutIsOwn(reports, n);
      if About(reports, n) != [] {
        AverageBounds(About(reports, n));
      }
    }
  }

  /** The source scored as number `from + i` was scored with the health and at the time of that number. */
  lemma {:induction false} ScoredInOrder(srcs: seq<Source>, at: Moments, from: nat, i: nat)
    requires i < |srcs|
    ensures |Scored(srcs, at, from)| == |srcs| && Scored(srcs, at, from)[i] == ScoredAt(srcs[i], at, from + i)
  {
    ScoredLength(srcs, at, from);
    ScoredLength(srcs[..|srcs| - 1], at, from);
    if i < |srcs| - 1 {
      ScoredInOrder(srcs[..|srcs| - 1], at, from, i);
    }
  }

  lemma {:induction false} CollectedInOrder(names: seq<string>, answers: Answers, at: Moments, k: nat)
    requires forall n | n in names :: n in answers
    requires k < |Collected(names, answers, at)|
    ensures var x := Collected(names, answers, at)[k];
            x.score == Score(x, at.Health(k, x.host), at.clock(k))
  {
    var before, last := Collected(names[..|names| - 1], answers, at), answers[names[|names| - 1]];
    if k < |before| {
      CollectedInOrder(names[..|names| - 1], answers, at, k);
    } else {
      ScoredLength(last.value, at, |before|);
      ScoredInOrder(last.value, at, |before|, k - |before|);
    }
  }

  /** In a ranking the sources of hosts that were banned when they were scored come after all others. */
  lemma BannedComeLast(names: seq<string>, answers: Answers, at: Moments, out: seq<Source>, i: nat, j: nat)
    requires forall n | n in names :: n in answers
    requires at.Healthy() && StablySorted(out, Collected(names, answers, at))
    requires i < j < |out| && out[i].score < 0.195
    ensures out[j].score == -1.0
    ensures var all := Collected(names, answers, at);
            exists k | 0 <= k < |all| :: all[k] == out[j] && Banned(at.Health(k, out[j].host), at.clock(k))
  {
    var all := Collected(names, answers, at);
    SameSources(out, all);
    assert out[j] in multiset(out);
    assert out[j] in multiset(all);
    var k :| 0 <= k < |all| && all[k] == out[j];
    CollectedInOrder(names, answers, at, k);
    assert HealthyAverages(at.hosts(k));
    BannedIffNegative(out[j], at.Health(k, out[j].host), at.clock(k));
  }
}
