/** The shared token bucket (internal/fetch/client.go, lines 77-122). Tokens are reals, time is a whole
    number of nanoseconds on the monotonic clock, and each call of `Take` is one critical section. */
module RateLimiter {

  const SECOND: int := 1_000_000_000

  type pos = x: int | x > 0 witness 1

  datatype Bucket = Bucket(max: int, tokens: real, last: int)
  {
    ghost predicate Valid() {
      max > 0 && 0.0 <= tokens <= max as real
    }
  }

  function Seconds(nanos: int): real {
    nanos as real / SECOND as real
  }

  function MinReal(a: real, b: real): real {
    if a <= b then a else b
  }

  /** The tokens the bucket would hold if it were refilled at time `now`. */
  function Refilled(b: Bucket, now: int): real {
    if now > b.last then MinReal(b.tokens + Seconds(now - b.last) * b.max as real, b.max as real) else b.tokens
  }

  function Chunk(b: Bucket, n: int): int {
    if n > b.max then b.max else n
  }

  /** One critical section: refill, then grant the next chunk of `n` bytes if the tokens allow it. */
  function Taken(b: Bucket, n: int, now: int): (Bucket, bool) {
    var tokens := Refilled(b, now);
    var last := if now > b.last then now else b.last;
    var chunk := Chunk(b, n) as real;
    if tokens >= chunk then (Bucket(b.max, tokens - chunk, last), true)
    else (Bucket(b.max, tokens, last), false)
  }

  /** The seconds until the missing tokens have come in. */
  function Need(b: Bucket, n: int): real
    requires b.max > 0
  {
    (Chunk(b, n) as real - b.tokens) / b.max as real
  }

  /** The sleep asked for after a refusal, in whole nanoseconds: the fraction is cut off. */
  function SleepNanos(b: Bucket, n: int): int
    requires b.max > 0
  {
    (Need(b, n) * SECOND as real).Floor
  }

  class BoundedRate {
    const maxBytes: int
    var tokens: real
    var last: int

    constructor (maxBytes: int, now: int)
      ensures this.maxBytes == if maxBytes <= 0 then 4 * 1024 * 1024 else maxBytes
      ensures State() == Bucket(this.maxBytes, this.maxBytes as real, now) && State().Valid()
    {
      this.maxBytes := if maxBytes <= 0 then 4 * 1024 * 1024 else maxBytes;
      tokens := (if maxBytes <= 0 then 4 * 1024 * 1024 else maxBytes) as real;
      last := now;
    }

    function State(): Bucket
      reads this
    {
      Bucket(maxBytes, tokens, last)
    }

    /** Tokens come in for the time since the last refill, up to the size. */
    method Refill(now: int)
      requires State().Valid()
      modifies this
      ensures State() == Bucket(maxBytes, Refilled(old(State()), now), if now > old(last) then now else old(last))
      ensures State().Valid()
    {
      RefillInRange(State(), now);
      var elapsed := Seconds(now - last);
      if elapsed > 0.0 {
        tokens := tokens + elapsed * maxBytes as real;
        if tokens > maxBytes as real {
          tokens := maxBytes as real;
        }
        last := now;
      }
    }

    /** The body of the loop of `Wait` under the lock: `need` is what remains to sleep for, in seconds. */
    method Take(n: int, now: int) returns (granted: int, need: real)
      requires State().Valid() && n > 0
      modifies this
      ensures State() == Taken(old(State()), n, now).0 && State().Valid()
      ensures granted == if Taken(old(State()), n, now).1 then Chunk(old(State()), n) else 0
      ensures granted == 0 ==> need == Need(State(), n)
    {
      Refill(now);
      var chunk := n;
      if chunk > maxBytes {
        chunk := maxBytes;
      }
      if tokens >= chunk as real {
        tokens := tokens - chunk as real;
        return chunk, 0.0;
      }
      granted := 0;
      need := (chunk as real - tokens) / maxBytes as real;
    }

    /** `Wait`, driven by the clock readings of its passes and by the calls other goroutines get in between.
        It returns what is left when the readings are used up, and the chunks it was granted. */
    method Wait(n: int, passes: seq<Pass>) returns (left: int, grants: seq<int>)
      requires State().Valid()
      modifies this
      ensures State().Valid() && (State(), left) == Passed(old(State()), n, passes)
      ensures n <= 0 ==> grants == [] && State() == old(State())
      ensures n > 0 ==> Sum(grants) + left == n && 0 <= left
      ensures forall i | 0 <= i < |grants| :: 0 < grants[i] <= maxBytes
      ensures forall i | 0 <= i < |grants| :: i < |grants| - 1 || left > 0 ==> grants[i] == maxBytes
    {
      left, grants := n, [];
      if n <= 0 {
        return;
      }
      var used := 0;
      while left > 0 && used < |passes|
        invariant State().Valid() && 0 <= used <= |passes|
        invariant Passed(State(), left, passes[used..]) == Passed(old(State()), n, passes)
        invariant Sum(grants) + left == n && 0 <= left
        invariant forall i | 0 <= i < |grants| :: 0 < grants[i] <= maxBytes
        invariant forall i | 0 <= i < |grants| :: i < |grants| - 1 || left > 0 ==> grants[i] == maxBytes
        decreases |passes| - used
      {
        PassedNext(State(), left, passes, used);
        var granted := Attempt(left, passes[used]);
        if granted > 0 {
          SumAppend(grants, granted);
          grants := grants + [granted];
          left := left - granted;
        }
        used := used + 1;
      }
    }

    /** One pass: whatever the others do first, then this caller's critical section. */
    method Attempt(left: pos, pass: Pass) returns (granted: int)
      requires State().Valid()
      modifies this
      ensures State().Valid()
      ensures var (next, ok) := Taken(After(old(State()), pass.others), left, pass.now);
              State() == next && granted == if ok then Chunk(next, left) else 0
      ensures 0 <= granted <= maxBytes && granted <= left && (0 < granted < left ==> granted == maxBytes)
    {
      Interfere(pass.others);
      var need;
      granted, need := Take(left, pass.now);
    }

    /** Critical sections of other goroutines. */
    method Interfere(calls: seq<Call>)
      requires State().Valid()
      modifies this
      ensures State() == After(old(State()), calls) && State().Valid()
    {
      for k := 0 to |calls|
        invariant State() == After(old(State()), calls[..k]) && State().Valid()
      {
        var _, _ := Take(calls[k].n, calls[k].now);
        assert calls[..k + 1][..k] == calls[..k];
      }
      assert calls[..|calls|] == calls;
    }
  }

  datatype Call = Call(n: pos, now: int)
  datatype Pass = Pass(others: seq<Call>, now: int)

  function Sum(xs: seq<int>): int {
    if xs == [] then 0 else xs[0] + Sum(xs[1..])
  }

  lemma {:induction false} SumAppend(xs: seq<int>, x: int)
    ensures Sum(xs + [x]) == Sum(xs) + x
  {
    if xs == [] {
      assert xs + [x] == [x];
    } else {
      assert (xs + [x])[1..] == xs[1..] + [x];
      SumAppend(xs[1..], x);
    }
  }

  /** The bucket after a history of critical sections of any callers. */
  function After(b: Bucket, calls: seq<Call>): Bucket
    decreases |calls|
  {
    if calls == [] then b
    else
      var before := After(b, calls[..|calls| - 1]);
      var last := calls[|calls| - 1];
      Taken(before, last.n, last.now).0
  }

  /** One caller's passes with the others' critical sections in between. */
  function Passed(b: Bucket, n: int, passes: seq<Pass>): (Bucket, int)
    decreases |passes|
  {
    if passes == [] || n <= 0 then (b, n)
    else
      var (next, ok) := Taken(After(b, passes[0].others), n, passes[0].now);
      Passed(next, if ok then n - Chunk(next, n) else n, passes[1..])
  }

  lemma PassedNext(b: Bucket, n: int, passes: seq<Pass>, k: nat)
    requires k < |passes| && n > 0
    ensures var (next, ok) := Taken(After(b, passes[k].others), n, passes[k].now);
            var granted := if ok then Chunk(next, n) else 0;
            Passed(b, n, passes[k..]) == Passed(next, n - granted, passes[k + 1..])
  {
    assert passes[k..][1..] == passes[k + 1..];
  }

  lemma RefillInRange(b: Bucket, now: int)
    requires b.Valid()
    ensures 0.0 <= Refilled(b, now) <= b.max as real
    ensures now > b.last ==> Seconds(now - b.last) > 0.0 && Seconds(now - b.last) * b.max as real > 0.0
    ensures now <= b.last ==> Seconds(now - b.last) <= 0.0
  {
  }

  // ---------------------------------------------------------------- the bound on every window

  lemma TakenInRange(b: Bucket, n: pos, now: int)
    requires b.Valid()
    ensures var (after, ok) := Taken(b, n, now);
            after.Valid() && after.max == b.max && 0 < Chunk(b, n) <= b.max
  {
    RefillInRange(b, now);
  }

  /** In every history the tokens stay between 0 and one second's worth. */
  lemma {:induction false} TokensInRange(b: Bucket, calls: seq<Call>)
    requires b.Valid()
    ensures After(b, calls).Valid() && After(b, calls).max == b.max
    decreases |calls|
  {
    if calls != [] {
      var last := calls[|calls| - 1];
      TokensInRange(b, calls[..|calls| - 1]);
      TakenInRange(After(b, calls[..|calls| - 1]), last.n, last.now);
    }
  }

  /** The bytes granted at times from `t1` to `t2`. */
  function Granted(b: Bucket, calls: seq<Call>, t1: int, t2: int): int
    decreases |calls|
  {
    if calls == [] then 0
    else
      var before, last := calls[..|calls| - 1], calls[|calls| - 1];
      Granted(b, before, t1, t2)
      + (if t1 <= last.now <= t2 && Taken(After(b, before), last.n, last.now).1
         then Chunk(After(b, before), last.n) else 0)
  }

  function LastTime(b: Bucket, calls: seq<Call>): int {
    if calls == [] then b.last else calls[|calls| - 1].now
  }

  /** The clock never runs backwards from one critical section to the next. */
  ghost predicate InOrder(b: Bucket, calls: seq<Call>)
    decreases |calls|
  {
    calls == [] ||
    (var before := calls[..|calls| - 1];
     InOrder(b, before) && LastTime(b, before) <= calls[|calls| - 1].now)
  }

  function Allowance(max: int, nanos: int): real {
    max as real * (1.0 + Seconds(nanos))
  }

  /** One critical section moves tokens into grants, and time into at most as many tokens. */
  lemma TakenPays(b: Bucket, n: pos, now: int, t1: int)
    requires b.Valid() && b.last <= now
    ensures var (after, ok) := Taken(b, n, now);
            var granted := if ok then Chunk(b, n) else 0;
            && after.last == now && granted as real + after.tokens <= b.max as real
            && granted as real + after.tokens <= b.tokens + Allowance(b.max, now - t1) - Allowance(b.max, b.last - t1)
  {
    RefillInRange(b, now);
    assert Allowance(b.max, now - t1) - Allowance(b.max, b.last - t1) == Seconds(now - b.last) * b.max as real;
  }

  lemma AllowanceGrows(max: int, a: int, b: int)
    requires max > 0 && a <= b
    ensures Allowance(max, a) <= Allowance(max, b)
    ensures 0 <= a ==> max as real <= Allowance(max, a)
  {
    assert Seconds(a) <= Seconds(b);
    assert 0 <= a ==> 0.0 <= Seconds(a);
  }

  lemma {:induction false} Potential(b: Bucket, calls: seq<Call>, t1: int, t2: int)
    requires b.Valid() && InOrder(b, calls) && t1 <= t2
    ensures var now := After(b, calls);
            && now.last == LastTime(b, calls)
            && (now.last < t1 ==> Granted(b, calls, t1, t2) == 0)
            && (t1 <= now.last <= t2 ==>
                  Granted(b, calls, t1, t2) as real + now.tokens <= Allowance(b.max, now.last - t1))
            && Granted(b, calls, t1, t2) as real <= Allowance(b.max, t2 - t1)
    decreases |calls|
  {
    AllowanceGrows(b.max, t2 - t1, t2 - t1);
    if calls == [] {
      AllowanceGrows(b.max, b.last - t1, b.last - t1);
    } else {
      var before, last := calls[..|calls| - 1], calls[|calls| - 1];
      Potential(b, before, t1, t2);
      TokensInRange(b, before);
      TakenPays(After(b, before), last.n, last.now, t1);
      TakenInRange(After(b, before), last.n, last.now);
      AllowanceGrows(b.max, last.now - t1, last.now - t1);
      if last.now <= t2 {
        AllowanceGrows(b.max, last.now - t1, t2 - t1);
      }
    }
  }

  /** The rate limit: in no window of no history, whoever calls, are more bytes granted than one second's
      worth plus the rate times the length of the window. */
  lemma WindowBound(b: Bucket, calls: seq<Call>, t1: int, t2: int)
    requires b.Valid() && InOrder(b, calls) && t1 <= t2
    ensures Granted(b, calls, t1, t2) as real <= Allowance(b.max, t2 - t1)
  {
    Potential(b, calls, t1, t2);
  }

  // ---------------------------------------------------------------- conservation

  /** The bytes granted in all. */
  function Given(b: Bucket, calls: seq<Call>): int
    decreases |calls|
  {
    if calls == [] then 0
    else
      var before, last := calls[..|calls| - 1], calls[|calls| - 1];
      Given(b, before) + (if Taken(After(b, before), last.n, last.now).1 then Chunk(b, last.n) else 0)
  }

  /** What comes in at the full rate. */
  function Inflow(max: int, nanos: int): real {
    max as real * nanos as real / 1_000_000_000.0
  }

  lemma InflowAdds(max: int, a: int, b: int)
    ensures Inflow(max, a) + Inflow(max, b) == Inflow(max, a + b)
    ensures Seconds(a) * max as real == Inflow(max, a)
    ensures max > 0 && a >= 0 ==> Inflow(max, a) >= 0.0
  {
  }

  /** The tokens left and the grants since the bucket was full before call `k`. */
  ghost predicate FullBefore(b: Bucket, calls: seq<Call>, k: nat)
    requires k < |calls|
  {
    After(b, calls).tokens + (Given(b, calls) - Given(b, calls[..k])) as real
    == b.max as real + Inflow(b.max, LastTime(b, calls) - calls[k].now)
  }

  ghost predicate NeverFull(b: Bucket, calls: seq<Call>) {
    After(b, calls).tokens + Given(b, calls) as real == b.tokens + Inflow(b.max, LastTime(b, calls) - b.last)
  }

  /** One section: the tokens that came in are left or granted, or the bucket was full before the grant. */
  lemma TakenConserves(b: Bucket, n: pos, now: int)
    requires b.Valid() && b.last <= now
    ensures var (after, ok) := Taken(b, n, now);
            var granted := if ok then Chunk(b, n) else 0;
            && after.last == now && after.max == b.max
            && after.tokens + granted as real
               == MinReal(b.tokens + Inflow(b.max, now - b.last), b.max as real)
  {
    InflowAdds(b.max, now - b.last, 0);
    RefillInRange(b, now);
  }

  lemma GivenPrefix(b: Bucket, calls: seq<Call>, k: nat)
    requires k < |calls|
    ensures calls[..|calls| - 1][..k] == calls[..k]
  {
  }

  /** Conservation. After every history the tokens left and the bytes granted are the tokens of the start and all
      that came in since, unless the bucket was full on the way; then they are its size and all that came in since
      it was last full. */
  lemma {:induction false} NothingIsLost(b: Bucket, calls: seq<Call>)
    requires b.Valid() && InOrder(b, calls)
    ensures After(b, calls).last == LastTime(b, calls)
    ensures NeverFull(b, calls) || exists k | 0 <= k < |calls| :: FullBefore(b, calls, k)
    decreases |calls|
  {
    if calls == [] {
      InflowAdds(b.max, 0, 0);
    } else {
      var before, last := calls[..|calls| - 1], calls[|calls| - 1];
      var was := After(b, before);
      NothingIsLost(b, before);
      TokensInRange(b, before);
      TakenConserves(was, last.n, last.now);
      if was.tokens + Inflow(b.max, last.now - was.last) >= b.max as real {
        FullNow(b, calls);
      } else {
        AllCameIn(b, calls);
        if NeverFull(b, before) {
          InflowAdds(b.max, was.last - b.last, last.now - was.last);
        } else {
          var k :| 0 <= k < |before| && FullBefore(b, before, k);
          StillFullBefore(b, calls, k);
        }
      }
    }
  }

  /** The last section when the bucket did not run full: all that came in is left or granted. */
  lemma AllCameIn(b: Bucket, calls: seq<Call>)
    requires b.Valid() && calls != []
    requires var was, last := After(b, calls[..|calls| - 1]), calls[|calls| - 1];
             && was.Valid() && was.max == b.max && was.last <= last.now
             && was.tokens + Inflow(b.max, last.now - was.last) < b.max as real
    ensures var before, now := calls[..|calls| - 1], calls[|calls| - 1].now;
            After(b, calls).tokens + (Given(b, calls) - Given(b, before)) as real
            == After(b, before).tokens + Inflow(b.max, now - After(b, before).last)
  {
    var was, last := After(b, calls[..|calls| - 1]), calls[|calls| - 1];
    TakenConserves(was, last.n, last.now);
  }

  lemma StillFullBefore(b: Bucket, calls: seq<Call>, k: nat)
    requires k < |calls| - 1 && FullBefore(b, calls[..|calls| - 1], k)
    requires var before, now := calls[..|calls| - 1], calls[|calls| - 1].now;
             && After(b, before).last == LastTime(b, before)
             && After(b, calls).tokens + (Given(b, calls) - Given(b, before)) as real
                == After(b, before).tokens + Inflow(b.max, now - After(b, before).last)
    ensures FullBefore(b, calls, k)
  {
    var before := calls[..|calls| - 1];
    InflowAdds(b.max, LastTime(b, before) - before[k].now, LastTime(b, calls) - LastTime(b, before));
    GivenPrefix(b, calls, k);
  }

  lemma FullNow(b: Bucket, calls: seq<Call>)
    requires b.Valid() && InOrder(b, calls) && calls != []
    requires var was, last := After(b, calls[..|calls| - 1]), calls[|calls| - 1];
             && was.Valid() && was.max == b.max && was.last <= last.now
             && was.tokens + Inflow(b.max, last.now - was.last) >= b.max as real
    ensures FullBefore(b, calls, |calls| - 1)
  {
    var was, last := After(b, calls[..|calls| - 1]), calls[|calls| - 1];
    TakenConserves(was, last.n, last.now);
    InflowAdds(b.max, 0, 0);
  }

  /** A burst that the tokens cover is granted at once, call by call, and takes exactly its bytes. */
  lemma {:induction false} BurstIsGranted(b: Bucket, calls: seq<Call>)
    requires b.Valid() && forall c | c in calls :: c.now <= b.last && c.n <= b.max
    requires Asked(calls) as real <= b.tokens
    ensures Given(b, calls) == Asked(calls)
    ensures After(b, calls) == b.(tokens := b.tokens - Asked(calls) as real)
    ensures forall k | 0 <= k < |calls| :: Taken(After(b, calls[..k]), calls[k].n, calls[k].now).1
    decreases |calls|
  {
    if calls != [] {
      var before, last := calls[..|calls| - 1], calls[|calls| - 1];
      BurstIsGranted(b, before);
      forall k | 0 <= k < |calls| ensures Taken(After(b, calls[..k]), calls[k].n, calls[k].now).1 {
        GivenPrefix(b, calls, k);
        if k < |before| {
          assert Taken(After(b, before[..k]), before[k].n, before[k].now).1;
        } else {
          assert calls[..k] == before;
        }
      }
    }
  }

  /** The bytes asked for in all. */
  function Asked(calls: seq<Call>): int {
    if calls == [] then 0 else Asked(calls[..|calls| - 1]) + calls[|calls| - 1].n
  }

  /** A full bucket is emptied by one grant, and full again a second later. */
  lemma EmptiedAndFilled(b: Bucket)
    requires b.Valid() && b.tokens == b.max as real
    ensures Taken(b, b.max, b.last) == (Bucket(b.max, 0.0, b.last), true)
    ensures Taken(Bucket(b.max, 0.0, b.last), b.max, b.last + SECOND).1
  {
    assert Seconds(SECOND) == 1.0;
    assert Seconds(SECOND) * b.max as real == b.max as real;
  }

  lemma AllowanceOfASecond(max: int)
    ensures Allowance(max, SECOND) == (max + max) as real
  {
    assert Seconds(SECOND) == 1.0;
    assert max as real * 2.0 == (max + max) as real;
  }

  lemma BothGranted(b: Bucket, one: Call, two: Call)
    requires b.Valid() && b.tokens == b.max as real
    requires one == Call(b.max, b.last) && two == Call(b.max, b.last + SECOND)
    ensures InOrder(b, [one, two]) && Granted(b, [one, two], b.last, b.last + SECOND) == b.max + b.max
  {
    EmptiedAndFilled(b);
    TwoCalls(b, one, two, b.last, b.last + SECOND);
  }

  /** The bound is met exactly: a full bucket emptied at the start of a second and again at its end. */
  lemma WindowBoundIsTight(b: Bucket)
    requires b.Valid() && b.tokens == b.max as real
    ensures var calls := [Call(b.max, b.last), Call(b.max, b.last + SECOND)];
            InOrder(b, calls)
            && Granted(b, calls, b.last, b.last + SECOND) as real == Allowance(b.max, SECOND)
  {
    BothGranted(b, Call(b.max, b.last), Call(b.max, b.last + SECOND));
    AllowanceOfASecond(b.max);
  }

  lemma TwoCalls(b: Bucket, one: Call, two: Call, t1: int, t2: int)
    requires b.last <= one.now <= two.now
    ensures var (next, ok) := Taken(b, one.n, one.now);
            && InOrder(b, [one, two])
            && Granted(b, [one, two], t1, t2)
               == (if t1 <= one.now <= t2 && ok then Chunk(b, one.n) else 0)
                + (if t1 <= two.now <= t2 && Taken(next, two.n, two.now).1 then Chunk(next, two.n) else 0)
  {
    OneMore(b, [], one, t1, t2);
    assert [] + [one] == [one];
    OneMore(b, [one], two, t1, t2);
    assert [one] + [two] == [one, two];
  }

  lemma OneMore(b: Bucket, calls: seq<Call>, call: Call, t1: int, t2: int)
    ensures var before := After(b, calls);
            && After(b, calls + [call]) == Taken(before, call.n, call.now).0
            && (InOrder(b, calls + [call]) <==> InOrder(b, calls) && LastTime(b, calls) <= call.now)
            && Granted(b, calls + [call], t1, t2) == Granted(b, calls, t1, t2)
               + (if t1 <= call.now <= t2 && Taken(before, call.n, call.now).1 then Chunk(before, call.n) else 0)
  {
    assert (calls + [call])[..|calls|] == calls;
  }

  // ---------------------------------------------------------------- a caller alone

  /** After a refusal, the next attempt succeeds exactly if the time since then makes up for the missing tokens. */
  lemma RetryIff(b: Bucket, n: pos, now: int)
    requires b.Valid() && b.last <= now && b.tokens < Chunk(b, n) as real
    ensures Taken(b, n, now).1 <==> Seconds(now - b.last) >= Need(b, n)
  {
    var need := Need(b, n);
    assert need * b.max as real == Chunk(b, n) as real - b.tokens;
    if Seconds(now - b.last) >= need {
      assert Seconds(now - b.last) * b.max as real >= need * b.max as real;
    } else {
      assert Seconds(now - b.last) * b.max as real < need * b.max as real;
    }
  }

  /** The sleep is cut to whole nanoseconds, so the second attempt can come too early. */
  lemma SecondPassCanFail()
    ensures var empty := Bucket(7, 0.0, 0);
            && empty == Taken(Bucket(7, 7.0, 0), 7, 0).0
            && Taken(empty, 1, 0) == (empty, false)
            && SleepNanos(empty, 1) == 142_857_142
            && !Taken(empty, 1, 142_857_142).1
  {
    assert 1.0 / 7.0 * 1_000_000_000.0 - 1.0 < 142_857_142.0 < 1.0 / 7.0 * 1_000_000_000.0;
  }

  /** But it misses by less than a nanosecond: one more reading of a running clock is enough. */
  lemma ThirdPassSucceeds(b: Bucket, n: pos, second: int, third: int)
    requires b.Valid() && b.tokens < Chunk(b, n) as real
    requires b.last + SleepNanos(b, n) <= second < third
    ensures Taken(b, n, second).1 || Taken(Taken(b, n, second).0, n, third).1
  {
    var need := Need(b, n);
    NeedInNanos(b, n);
    TakenInRange(b, n, second);
    if !Taken(b, n, second).1 {
      var b2 := Taken(b, n, second).0;
      RetryIff(b, n, second);
      RetryIff(b, n, third);
      NanosMakeSeconds(third - b.last, need);
      assert Taken(b, n, third).1;
      RefillTwice(b, second, third);
    }
  }

  lemma NeedInNanos(b: Bucket, n: pos)
    requires b.Valid() && b.tokens < Chunk(b, n) as real
    ensures var need := Need(b, n);
            need > 0.0 && SleepNanos(b, n) >= 0 && need * SECOND as real < (SleepNanos(b, n) + 1) as real
  {
  }

  lemma NanosMakeSeconds(nanos: int, need: real)
    requires need * SECOND as real <= nanos as real
    ensures Seconds(nanos) >= need
  {
  }

  /** A refill on the way changes nothing at the end. */
  lemma RefillTwice(b: Bucket, second: int, third: int)
    requires b.Valid() && b.last <= second <= third
    ensures Refilled(Bucket(b.max, Refilled(b, second), second), third) == Refilled(b, third)
  {
    assert Seconds(third - second) + Seconds(second - b.last) == Seconds(third - b.last);
    assert Seconds(third - second) * b.max as real + Seconds(second - b.last) * b.max as real
        == Seconds(third - b.last) * b.max as real;
    RefillInRange(b, second);
    RefillInRange(b, third);
    RefillInRange(Bucket(b.max, Refilled(b, second), second), third);
  }

  /** Nobody else calls, and after a refusal the clock has advanced, by at least the sleep asked for. */
  ghost predicate Alone(b: Bucket, n: int, passes: seq<Pass>)
    decreases |passes|
  {
    n <= 0 || passes == [] ||
    (var (next, ok) := Taken(b, n, passes[0].now);
     && passes[0].others == [] && b.last <= passes[0].now && b.max > 0
     && (!ok && |passes| > 1 ==>
           passes[0].now + SleepNanos(next, n) <= passes[1].now && passes[0].now < passes[1].now)
     && Alone(next, if ok then n - Chunk(next, n) else n, passes[1..]))
  }

  function Chunks(max: int, n: int): nat
    requires max > 0
    decreases n
  {
    if n <= 0 then 0 else 1 + Chunks(max, n - max)
  }

  /** The least number of chunks that hold so many bytes. */
  lemma {:induction false} ChunksHold(max: int, n: int)
    requires max > 0
    ensures n > 0 ==> (Chunks(max, n) - 1) * max < n <= Chunks(max, n) * max
    ensures n <= 0 ==> Chunks(max, n) == 0
    decreases n
  {
    if n > 0 {
      ChunksHold(max, n - max);
      assert Chunks(max, n) * max == (Chunks(max, n) - 1) * max + max;
      assert (Chunks(max, n) - 1) * max == (Chunks(max, n) - 2) * max + max;
    }
  }

  lemma OnePass(b: Bucket, n: int, passes: seq<Pass>)
    requires b.Valid() && n > 0 && passes != [] && Alone(b, n, passes)
    ensures var (next, ok) := Taken(b, n, passes[0].now);
            var left := if ok then n - Chunk(next, n) else n;
            && next.Valid() && next.max == b.max && next.last == passes[0].now
            && (!ok ==> next.tokens < Chunk(next, n) as real)
            && Alone(next, left, passes[1..]) && Passed(b, n, passes) == Passed(next, left, passes[1..])
  {
    TakenInRange(b, n, passes[0].now);
  }

  lemma SleepsBetween(b: Bucket, n: int, passes: seq<Pass>)
    requires n > 0 && Alone(b, n, passes) && |passes| > 1 && !Taken(b, n, passes[0].now).1 && b.max > 0
    ensures passes[0].now + SleepNanos(Taken(b, n, passes[0].now).0, n) <= passes[1].now
    ensures passes[0].now < passes[1].now
  {
  }

  /** After two refusals in a row the third attempt is granted. */
  lemma ThirdIsGranted(b: Bucket, n: int, passes: seq<Pass>)
    requires b.Valid() && n > 0 && Alone(b, n, passes) && |passes| >= 3
    requires var b1 := Taken(b, n, passes[0].now).0;
             !Taken(b, n, passes[0].now).1 && !Taken(b1, n, passes[1].now).1
    ensures Taken(Taken(Taken(b, n, passes[0].now).0, n, passes[1].now).0, n, passes[2].now).1
  {
    var b1 := Taken(b, n, passes[0].now).0;
    OnePass(b, n, passes);
    SleepsBetween(b, n, passes);
    SleepsBetween(b1, n, passes[1..]);
    ThirdPassSucceeds(b1, n, passes[1].now, passes[2].now);
  }

  /** A caller alone is done after at most three passes for each chunk. */
  lemma {:induction false} AloneFinishes(b: Bucket, n: int, passes: seq<Pass>)
    requires b.Valid() && n >= 0 && Alone(b, n, passes) && |passes| >= 3 * Chunks(b.max, n)
    ensures Passed(b, n, passes).1 == 0
    decreases n, 3
  {
    if n > 0 {
      assert Chunks(b.max, n) == 1 + Chunks(b.max, n - Chunk(b, n));
      OnePass(b, n, passes);
      if Taken(b, n, passes[0].now).1 {
        AloneFinishes(Taken(b, n, passes[0].now).0, n - Chunk(b, n), passes[1..]);
      } else {
        AfterRefusal(b, n, passes);
      }
    }
  }

  lemma {:induction false} AfterRefusal(b: Bucket, n: int, passes: seq<Pass>)
    requires b.Valid() && n > 0 && Alone(b, n, passes) && |passes| >= 3 + 3 * Chunks(b.max, n - Chunk(b, n))
    requires !Taken(b, n, passes[0].now).1
    ensures Passed(b, n, passes).1 == 0
    decreases n, 2
  {
    var b1, rest := Taken(b, n, passes[0].now).0, passes[1..];
    OnePass(b, n, passes);
    if Taken(b1, n, rest[0].now).1 {
      OnePass(b1, n, rest);
      AloneFinishes(Taken(b1, n, rest[0].now).0, n - Chunk(b, n), rest[1..]);
    } else {
      ThirdIsGranted(b, n, passes);
      AfterTwo(b1, n, rest);
    }
  }

  lemma {:induction false} AfterTwo(b: Bucket, n: int, passes: seq<Pass>)
    requires b.Valid() && n > 0 && Alone(b, n, passes) && |passes| >= 2 + 3 * Chunks(b.max, n - Chunk(b, n))
    requires var next := Taken(b, n, passes[0].now).0;
             !Taken(b, n, passes[0].now).1 && Taken(next, n, passes[1].now).1
    ensures Passed(b, n, passes).1 == 0
    decreases n, 1
  {
    var next, rest := Taken(b, n, passes[0].now).0, passes[1..];
    OnePass(b, n, passes);
    OnePass(next, n, rest);
    AloneFinishes(Taken(next, n, rest[0].now).0, n - Chunk(b, n), rest[1..]);
  }

  /** Nobody else calls, and after a refusal the clock has advanced by at least the seconds that were missing. */
  ghost predicate Rested(b: Bucket, n: int, passes: seq<Pass>)
    decreases |passes|
  {
    n <= 0 || passes == [] ||
    (var (next, ok) := Taken(b, n, passes[0].now);
     && passes[0].others == [] && b.last <= passes[0].now && b.max > 0
     && (!ok && |passes| > 1 ==> Seconds(passes[1].now - passes[0].now) >= Need(next, n))
     && Rested(next, if ok then n - Chunk(next, n) else n, passes[1..]))
  }

  lemma OneRestedPass(b: Bucket, n: int, passes: seq<Pass>)
    requires b.Valid() && n > 0 && passes != [] && Rested(b, n, passes)
    ensures var (next, ok) := Taken(b, n, passes[0].now);
            var left := if ok then n - Chunk(next, n) else n;
            && next.Valid() && next.max == b.max && next.last == passes[0].now
            && Rested(next, left, passes[1..]) && Passed(b, n, passes) == Passed(next, left, passes[1..])
  {
    TakenInRange(b, n, passes[0].now);
  }

  /** After a refusal and the missing seconds the second attempt is granted. */
  lemma SecondIsGranted(b: Bucket, n: int, passes: seq<Pass>)
    requires b.Valid() && n > 0 && Rested(b, n, passes) && |passes| >= 2 && !Taken(b, n, passes[0].now).1
    ensures Taken(Taken(b, n, passes[0].now).0, n, passes[1].now).1
  {
    var next := Taken(b, n, passes[0].now).0;
    OneRestedPass(b, n, passes);
    RetryIff(next, n, passes[1].now);
  }

  /** A caller alone whose sleeps last at least the seconds asked for is done after at most two passes for each
      chunk. */
  lemma {:induction false} RestedFinishes(b: Bucket, n: int, passes: seq<Pass>)
    requires b.Valid() && n >= 0 && Rested(b, n, passes) && |passes| >= 2 * Chunks(b.max, n)
    ensures Passed(b, n, passes).1 == 0
    decreases n, 1
  {
    if n > 0 {
      assert Chunks(b.max, n) == 1 + Chunks(b.max, n - Chunk(b, n));
      OneRestedPass(b, n, passes);
      if Taken(b, n, passes[0].now).1 {
        RestedFinishes(Taken(b, n, passes[0].now).0, n - Chunk(b, n), passes[1..]);
      } else {
        SecondIsGranted(b, n, passes);
        AfterRest(b, n, passes);
      }
    }
  }

  lemma {:induction false} AfterRest(b: Bucket, n: int, passes: seq<Pass>)
    requires b.Valid() && n > 0 && Rested(b, n, passes) && |passes| >= 2 + 2 * Chunks(b.max, n - Chunk(b, n))
    requires var next := Taken(b, n, passes[0].now).0;
             !Taken(b, n, passes[0].now).1 && Taken(next, n, passes[1].now).1
    ensures Passed(b, n, passes).1 == 0
    decreases n, 0
  {
    var next, rest := Taken(b, n, passes[0].now).0, passes[1..];
    OneRestedPass(b, n, passes);
    OneRestedPass(next, n, rest);
    RestedFinishes(Taken(next, n, rest[0].now).0, n - Chunk(b, n), rest[1..]);
  }

  // ---------------------------------------------------------------- a sleep that ends exactly when asked for

  /** Woken exactly after the sleep as it is cut, the second attempt succeeds exactly if nothing was cut off. */
  lemma WokenOnTimeIff(b: Bucket, n: pos)
    requires b.Valid() && b.tokens < Chunk(b, n) as real
    ensures Taken(b, n, b.last + SleepNanos(b, n)).1 <==> SleepNanos(b, n) as real == Need(b, n) * SECOND as real
  {
    NeedInNanos(b, n);
    RetryIff(b, n, b.last + SleepNanos(b, n));
    var sleep, need := SleepNanos(b, n), Need(b, n);
    assert sleep as real <= need * SECOND as real;
    assert Seconds(sleep) >= need <==> sleep as real >= need * SECOND as real by {
      if Seconds(sleep) >= need {
        assert Seconds(sleep) * SECOND as real >= need * SECOND as real;
      } else {
        assert Seconds(sleep) * SECOND as real < need * SECOND as real;
      }
    }
  }
}
