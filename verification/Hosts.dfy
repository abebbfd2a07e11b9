/** Host health (internal/provider/registry.go, lines 206-241): a weighted average of successes, a running latency
    figure and a ban, one entry per host. The average is a real number. */
module Hosts {
  import opened Basics

  /** The zero entry has no origin; the first report sets it. */
  datatype HostStats = HostStats(
    origin: Option<string>, average: real, samples: nat, lastOk: Option<nat>, lastFail: Option<nat>, latency: int,
    bannedUntil: Option<nat>)

  /** One result of a probe; an address without a host part reports the empty host. */
  datatype Report = Report(host: string, ok: bool, latency: int, at: nat)

  const ONE_DAY: nat := 86_400_000_000_000

  const UNKNOWN := HostStats(None, 0.0, 0, None, None, 0, None)

  function Entry(hosts: map<string, HostStats>, host: string): HostStats {
    if host in hosts then hosts[host] else UNKNOWN
  }

  /** The entry of a host after one more report. */
  function After(h: HostStats, r: Report): HostStats {
    var known := if h.origin.None? then h.(origin := Some(r.host), average := 0.7) else h;
    var average := 0.8 * known.average + (if r.ok then 0.2 else 0.0);
    HostStats(
      known.origin, average, known.samples + 1,
      if r.ok then Some(r.at) else known.lastOk,
      if r.ok then known.lastFail else Some(r.at),
      if r.latency <= 0 then known.latency
      else if known.latency == 0 then r.latency
      else (known.latency + r.latency) / 2,
      if !r.ok && known.samples + 1 >= 3 && average < 0.25 then Some(r.at + ONE_DAY) else known.bannedUntil)
  }

  function Recorded(hosts: map<string, HostStats>, r: Report): map<string, HostStats> {
    if r.host == "" then hosts else hosts[r.host := After(Entry(hosts, r.host), r)]
  }

  class Registry {
    var hosts: map<string, HostStats>

    constructor ()
      ensures hosts == map[]
    {
      hosts := map[];
    }

    /** A report changes the entry of its own host, and no other. */
    method RecordHost(r: Report)
      modifies this
      ensures hosts == Recorded(old(hosts), r)
    {
      if r.host == "" {
        return;
      }
      var h := Entry(hosts, r.host);
      if h.origin.None? {
        h := h.(origin := Some(r.host), average := 0.7);
      }
      var alpha, score := 0.2, 0.0;
      if r.ok {
        score := 1.0;
      }
      h := h.(average := alpha * score + (1.0 - alpha) * h.average, samples := h.samples + 1);
      if r.ok {
        h := h.(lastOk := Some(r.at));
      } else {
        h := h.(lastFail := Some(r.at));
      }
      if r.latency > 0 {
        if h.latency == 0 {
          h := h.(latency := r.latency);
        } else {
          h := h.(latency := (h.latency + r.latency) / 2);
        }
      }
      if !r.ok && h.samples >= 3 && h.average < 0.25 {
        h := h.(bannedUntil := Some(r.at + ONE_DAY));
      }
      hosts := hosts[r.host := h];
    }
  }

  // ---------------------------------------------------------------- histories

  function History(reports: seq<Report>): map<string, HostStats> {
    if reports == [] then map[] else Recorded(History(reports[..|reports| - 1]), reports[|reports| - 1])
  }

  /** The reports about one host, in order. */
  function About(reports: seq<Report>, host: string): seq<Report> {
    if reports == [] then []
    else
      var last := reports[|reports| - 1];
      About(reports[..|reports| - 1], host) + (if last.host == host then [last] else [])
  }

  /** What a host's entry is after the reports about it. */
  function Health(own: seq<Report>): HostStats {
    if own == [] then UNKNOWN else After(Health(own[..|own| - 1]), own[|own| - 1])
  }

  lemma HealthNext(own: seq<Report>, r: Report)
    ensures Health(own + [r]) == After(Health(own), r)
  {
    assert (own + [r])[..|own|] == own;
  }

  /** An entry depends on the reports about its own host and on no others. */
  lemma {:induction false} OwnReportsOnly(reports: seq<Report>, host: string)
    requires host != ""
    ensures Entry(History(reports), host) == Health(About(reports, host))
  {
    if reports != [] {
      var before, last := reports[..|reports| - 1], reports[|reports| - 1];
      OwnReportsOnly(before, host);
      if last.host == host {
        HealthNext(About(before, host), last);
      } else {
        assert About(before, host) + [] == About(before, host);
      }
    }
  }

  lemma {:induction false} AboutIsOwn(reports: seq<Report>, host: string)
    ensures forall r | r in About(reports, host) :: r.host == host
  {
    if reports != [] {
      AboutIsOwn(reports[..|reports| - 1], host);
    }
  }

  ghost predicate OfOneHost(own: seq<Report>) {
    forall i, j | 0 <= i < |own| && 0 <= j < |own| :: own[i].host == own[j].host != ""
  }

  function Fails(own: seq<Report>): nat {
    if own == [] then 0 else Fails(own[..|own| - 1]) + (if own[|own| - 1].ok then 0 else 1)
  }

  /** 0.8 to the power `n`. */
  function Decay(n: nat): real {
    if n == 0 then 1.0 else 0.8 * Decay(n - 1)
  }

  lemma {:induction false} DecayFalls(m: nat, n: nat)
    requires m <= n
    ensures 0.0 < Decay(n) <= Decay(m) <= 1.0
    decreases n
  {
    if m < n {
      DecayFalls(m, n - 1);
    } else if n > 0 {
      DecayFalls(n - 1, n - 1);
    }
  }

  /** Over every history the average stays within [0, 1], and `f` failures leave at least 0.7 * 0.8^f of it. */
  lemma {:induction false} AverageBounds(own: seq<Report>)
    requires OfOneHost(own) && own != []
    ensures var h := Health(own);
            && h.origin == Some(own[0].host) && h.samples == |own|
            && 0.0 <= h.average <= 1.0 && h.average >= 0.7 * Decay(Fails(own))
  {
    var before := own[..|own| - 1];
    if before == [] {
      assert Decay(1) == 0.8;
    } else {
      AverageBounds(before);
    }
  }

  lemma {:induction false} FailsBound(own: seq<Report>)
    ensures Fails(own) <= |own|
  {
    if own != [] {
      FailsBound(own[..|own| - 1]);
    }
  }

  lemma DecayAt4()
    ensures 0.7 * Decay(4) > 0.25 && Decay(7) < 0.25
  {
    assert Decay(2) == 0.64;
    assert Decay(4) == 0.4096;
    assert Decay(6) == 0.262144;
  }

  /** An average below the threshold takes five failures, so the guard on the number of samples decides nothing,
      and no host is banned before its fifth failure. */
  lemma LowTakesFive(own: seq<Report>)
    requires OfOneHost(own) && own != [] && Health(own).average < 0.25
    ensures Fails(own) >= 5 && Health(own).samples >= 5
  {
    AverageBounds(own);
    FailsBound(own);
    DecayAt4();
    if Fails(own) <= 4 {
      DecayFalls(Fails(own), 4);
    }
  }

  lemma {:induction false} NoEarlyBan(own: seq<Report>)
    requires OfOneHost(own) && Health(own).bannedUntil.Some?
    ensures Fails(own) >= 5
  {
    var before := own[..|own| - 1];
    if Health(before).bannedUntil.Some? {
      NoEarlyBan(before);
    } else {
      LowTakesFive(own);
    }
  }

  /** After a failure the host is newly banned exactly if the average is low. */
  lemma BannedIffLow(own: seq<Report>)
    requires OfOneHost(own) && own != [] && !own[|own| - 1].ok
    ensures Health(own).average < 0.25 ==> Health(own).bannedUntil == Some(own[|own| - 1].at + ONE_DAY)
    ensures Health(own).average >= 0.25 ==> Health(own).bannedUntil == Health(own[..|own| - 1]).bannedUntil
  {
    if Health(own).average < 0.25 {
      LowTakesFive(own);
    }
  }

  lemma {:induction false} RunOfFailures(own: seq<Report>, n: nat)
    requires OfOneHost(own) && 1 <= n <= |own|
    requires forall i | |own| - n <= i < |own| :: !own[i].ok
    ensures Health(own).average <= Decay(n)
  {
    var before := own[..|own| - 1];
    if n == 1 {
      if before != [] {
        AverageBounds(before);
      }
    } else {
      RunOfFailures(before, n - 1);
      AverageBounds(before);
    }
  }

  /** Any seven failures in a row leave the host banned for a day after the last of them, whatever came before. */
  lemma SevenFailuresBan(own: seq<Report>)
    requires OfOneHost(own) && |own| >= 7
    requires forall i | |own| - 7 <= i < |own| :: !own[i].ok
    ensures Health(own).bannedUntil == Some(own[|own| - 1].at + ONE_DAY)
  {
    RunOfFailures(own, 7);
    DecayAt4();
    BannedIffLow(own);
  }

  function Repeated(host: string, ok: bool, n: nat): seq<Report> {
    if n == 0 then [] else Repeated(host, ok, n - 1) + [Report(host, ok, 0, 0)]
  }

  lemma {:induction false} RepeatedAre(host: string, ok: bool, n: nat)
    ensures |Repeated(host, ok, n)| == n
    ensures forall r | r in Repeated(host, ok, n) :: r.ok == ok
  {
    if n > 0 {
      RepeatedAre(host, ok, n - 1);
    }
  }

  lemma {:induction false} AfterSuccesses(host: string, n: nat)
    requires host != "" && n >= 1
    ensures var h := Health(Repeated(host, true, n));
            h.origin == Some(host) && h.average == 1.0 - 0.3 * Decay(n) && h.bannedUntil.None?
  {
    HealthNext(Repeated(host, true, n - 1), Report(host, true, 0, 0));
    if n == 1 {
      assert Decay(1) == 0.8;
    } else {
      AfterSuccesses(host, n - 1);
    }
  }

  /** The average that `m` failures in a row bring down to the threshold. */
  function Enough(m: nat): (c: real)
    ensures c >= 0.25
  {
    if m == 0 then 0.25 else 1.25 * Enough(m - 1)
  }

  /** Not banned, and with an average that many failures in a row do not bring below the threshold. */
  ghost predicate Survives(h: HostStats, failures: nat) {
    h.origin.Some? && h.bannedUntil.None? && h.average >= Enough(failures)
  }

  lemma OneFailure(h: HostStats, r: Report, failures: nat)
    requires failures > 0 && Survives(h, failures) && !r.ok
    ensures Survives(After(h, r), failures - 1)
  {
  }

  lemma SurvivesOne(own: seq<Report>, r: Report, failures: nat)
    requires failures > 0 && Survives(Health(own), failures) && !r.ok
    ensures Survives(Health(own + [r]), failures - 1)
  {
    OneFailure(Health(own), r, failures);
    HealthNext(own, r);
  }

  /** As many failures in a row as an average survives do not ban. */
  lemma {:induction false} ThenFailures(own: seq<Report>, fails: seq<Report>, m: nat)
    requires Survives(Health(own), m) && |fails| <= m && forall r | r in fails :: !r.ok
    ensures Survives(Health(own + fails), m - |fails|)
    decreases |fails|
  {
    if fails == [] {
      assert own + fails == own;
    } else {
      SurvivesOne(own, fails[0], m);
      ThenFailures(own + [fails[0]], fails[1..], m - 1);
      assert own + fails == (own + [fails[0]]) + fails[1..];
    }
  }

  /** Six need not: after ten successes a host survives six failures in a row. */
  lemma SixFailuresNeedNot(host: string)
    requires host != ""
    ensures Health(Repeated(host, true, 10) + Repeated(host, false, 6)).bannedUntil.None?
  {
    assert Decay(2) == 0.64;
    assert Decay(4) == 0.4096;
    assert Decay(6) == 0.262144;
    assert Decay(8) == 0.16777216;
    assert Decay(10) == 0.1073741824;
    AfterSuccesses(host, 10);
    assert Enough(2) == 0.390625;
    assert Enough(4) == 0.6103515625;
    RepeatedAre(host, false, 6);
    ThenFailures(Repeated(host, true, 10), Repeated(host, false, 6), 6);
  }

  // ---------------------------------------------------------------- what is remembered of a host

  /** The time of the last report of a kind. */
  function LastOf(own: seq<Report>, ok: bool): Option<nat> {
    if own == [] then None
    else if own[|own| - 1].ok == ok then Some(own[|own| - 1].at)
    else LastOf(own[..|own| - 1], ok)
  }

  /** The times of the last success and the last failure, the number of reports and the first host are remembered. */
  lemma {:induction false} LastTimes(own: seq<Report>)
    requires OfOneHost(own)
    ensures Health(own).lastOk == LastOf(own, true) && Health(own).lastFail == LastOf(own, false)
    ensures Health(own).samples == |own| && (own != [] ==> Health(own).origin == Some(own[0].host))
  {
    if own != [] {
      LastTimes(own[..|own| - 1]);
      if |own| > 1 {
        AverageBounds(own);
      }
    }
  }

  /** A success moves the average a fifth of the way to one, a failure a fifth of the way to zero; before the first
      report it stands at 0.7. */
  lemma AverageMoves(own: seq<Report>, r: Report)
    requires OfOneHost(own + [r])
    ensures var was := if own == [] then 0.7 else Health(own).average;
            Health(own + [r]).average == if r.ok then was + (1.0 - was) / 5.0 else was - was / 5.0
  {
    HealthNext(own, r);
    KnownAfterReport(own);
  }

  lemma KnownAfterReport(own: seq<Report>)
    ensures own != [] ==> Health(own).origin.Some?
  {
  }

  /** A success leaves a running ban alone, and a failure never ends or shortens one. */
  lemma BansStay(own: seq<Report>, r: Report)
    ensures r.ok ==> Health(own + [r]).bannedUntil == Health(own).bannedUntil
    ensures Health(own).bannedUntil.Some? && Health(own).bannedUntil.value <= r.at + 86_400_000_000_000
      ==> Health(own + [r]).bannedUntil.Some? && Health(own).bannedUntil.value <= Health(own + [r]).bannedUntil.value
  {
    HealthNext(own, r);
  }

  /** The ban is that of the last failure that left the average low. */
  lemma {:induction false} BanIsOfLastLow(own: seq<Report>)
    requires OfOneHost(own)
    ensures Health(own).bannedUntil == BanOf(own)
  {
    if own != [] {
      var before := own[..|own| - 1];
      BanIsOfLastLow(before);
      if own[|own| - 1].ok {
        HealthNext(before, own[|own| - 1]);
        assert own == before + [own[|own| - 1]];
      } else {
        BannedIffLow(own);
      }
    }
  }

  function BanOf(own: seq<Report>): Option<nat> {
    if own == [] then None
    else if !own[|own| - 1].ok && Health(own).average < 0.25 then Some(own[|own| - 1].at + 24 * 60 * 60 * 1_000_000_000)
    else BanOf(own[..|own| - 1])
  }

  // ---------------------------------------------------------------- latency

  /** The first positive latency is taken as it is, a later one halves the distance to it. */
  lemma LatencyMoves(own: seq<Report>, r: Report)
    ensures r.latency <= 0 ==> Health(own + [r]).latency == Health(own).latency
    ensures r.latency > 0 && Health(own).latency == 0 ==> Health(own + [r]).latency == r.latency
    ensures r.latency > 0 && Health(own).latency > 0 ==>
      2 * Health(own + [r]).latency <= Health(own).latency + r.latency <= 2 * Health(own + [r]).latency + 1
  {
    HealthNext(own, r);
  }

  ghost predicate Timed(own: seq<Report>) {
    exists r :: r in own && r.latency > 0
  }

  /** The latency figure is unset until a positive latency is reported, and stays between any bounds of the
      positive latencies reported, for all that its halves are cut to whole numbers. */
  lemma {:induction false} LatencyBetween(own: seq<Report>, low: int, high: int)
    requires 0 < low && forall r | r in own && r.latency > 0 :: low <= r.latency <= high
    ensures if Timed(own) then low <= Health(own).latency <= high else Health(own).latency == 0
  {
    if own != [] {
      var before, last := own[..|own| - 1], own[|own| - 1];
      assert own == before + [last];
      LatencyBetween(before, low, high);
    }
  }
}
