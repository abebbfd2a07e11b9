/** What every step of the download keeps, and what a finished download leaves behind. */
module DownloadSafety {
  import opened Basics
  import opened Ranges
  import opened Download

  // ---------------------------------------------------------------- one worker on the shared state

  ghost predicate KeepsErrors(m: Shared, was: Worker, now: Worker, m': Shared) {
    && m'.parentDone == m.parentDone && m'.closed == m.closed && m'.sent == m.sent
    && (m'.ctx == m.ctx || (m.ctx.Live? && m'.ctx.DoneByCancel? && was.Cancelling?))
    && (m'.errSlot == m.errSlot || (m.errSlot.None? && was.Reporting? && m'.errSlot == Some(was.fault)))
    && (was.Reporting? ==> m'.errSlot.Some?)
    && (m.queue == [] ==> m'.queue == [])
    && (WorkerBlame(m, was) ==> WorkerBlame(m', now))
  }

  ghost predicate KeepsHands(m: Shared, was: Worker, now: Worker, m': Shared) {
    && m'.sent == m.sent && m'.capacity == m.capacity
    && (m'.queue == m.queue || (m.queue != [] && m'.queue == m.queue[1..] && now == Holding(m.queue[0])))
    && (forall i: nat | now.Holds(i) :: was.Holds(i) || (m.queue != [] && m'.queue == m.queue[1..] && i == m.queue[0]))
    && ((m'.finished == m.finished && m'.partCount == m.partCount)
        || (was.Fetched? && m'.finished == m.finished + {was.idx} && m'.partCount == m.partCount + 1))
    && (forall i: nat | was.Holds(i) :: now.Holds(i) || now.Reporting? || m'.finished == m.finished + {i})
  }

  /** A worker writes only the file of the index it holds, and only ever lengthens it. */
  ghost predicate KeepsFiles(m: Shared, was: Worker, m': Shared) {
    && (forall i | i in m'.files && !was.Holds(i) :: i in m.files && m'.files[i] == m.files[i])
    && (forall i | i in m.files :: i in m'.files && m.files[i] <= m'.files[i])
  }

  lemma StepKeepsErrors(c: Config, m: Shared, was: Worker, act: WorkerAction, m': Shared, now: Worker)
    requires WorkerStep(c, m, was, act) == Some((m', now))
    ensures KeepsErrors(m, was, now, m')
  {
  }

  lemma StepKeepsHands(c: Config, m: Shared, was: Worker, act: WorkerAction, m': Shared, now: Worker)
    requires c.Valid() && WorkerStep(c, m, was, act) == Some((m', now))
    ensures KeepsHands(m, was, now, m')
  {
  }

  lemma StepKeepsFiles(c: Config, m: Shared, was: Worker, act: WorkerAction, m': Shared, now: Worker)
    requires WorkerStep(c, m, was, act) == Some((m', now))
    ensures KeepsFiles(m, was, m')
  {
  }

  lemma AppendKeepsPrefixes(c: Config, files: Files, idx: nat, n: nat, files': Files)
    requires c.Valid() && Prefixes(c, files) && idx in files
    requires Append(c, files, idx, c.plan[idx].from + |files[idx]|, n) == Some(files')
    ensures Prefixes(c, files')
  {
    PrefixGrows(c.resource, c.plan[idx].from, files[idx], n);
  }

  /** The file of the index held may be created empty, or get the next `n` bytes of the reply. */
  ghost predicate WritesNext(c: Config, files: Files, was: Worker, n: nat, files': Files) {
    || files' == files
    || (was.Holding? && was.idx < c.Count() && was.idx !in files && files' == files[was.idx := []])
    || (was.Reading? && was.idx < c.Count()
        && Append(c, files, was.idx, c.plan[was.idx].from + was.done + was.written, n) == Some(files'))
  }

  lemma StepWritesNext(c: Config, m: Shared, was: Worker, act: WorkerAction, m': Shared, now: Worker)
    requires WorkerStep(c, m, was, act) == Some((m', now))
    ensures WritesNext(c, m.files, was, if act.Chunk? || act.WriteFails? then act.n else 0, m'.files)
  {
  }

  lemma WritesKeepPrefixes(c: Config, m: Shared, was: Worker, n: nat, files': Files)
    requires c.Valid() && Prefixes(c, m.files) && WorkerFits(c, m, was) && WritesNext(c, m.files, was, n, files')
    ensures Prefixes(c, files')
  {
    if files' != m.files {
      if was.Reading? {
        assert was.idx in m.files && |m.files[was.idx]| == was.done + was.written;
        AppendKeepsPrefixes(c, m.files, was.idx, n, files');
      } else {
        EmptyKeepsPrefixes(c, m.files, was.idx);
      }
    }
  }

  lemma EmptyKeepsPrefixes(c: Config, files: Files, idx: nat)
    requires c.Valid() && Prefixes(c, files) && idx < c.Count()
    ensures Prefixes(c, files[idx := []])
  {
  }

  lemma StepFits(c: Config, m: Shared, was: Worker, act: WorkerAction, m': Shared, now: Worker)
    requires c.Valid() && Channel(c, m) && WorkerFits(c, m, was)
    requires WorkerStep(c, m, was, act) == Some((m', now))
    ensures WorkerFits(c, m', now)
  {
  }

  lemma StepFinishes(c: Config, m: Shared, was: Worker, act: WorkerAction, m': Shared, now: Worker, i: nat)
    requires c.Valid() && Channel(c, m) && Prefixes(c, m.files) && was.Fetched?
    requires WorkerStep(c, m, was, act) == Some((m', now)) && i in m'.finished && i !in m.finished
    ensures Whole(c, m'.files, i)
  {
    assert i == was.idx < c.Count();
    assert |m.files[i]| == c.Length(i);
  }

  lemma StepStillWhole(c: Config, m: Shared, was: Worker, now: Worker, m': Shared, i: nat)
    requires c.Valid() && KeepsFiles(m, was, m') && WorkerFits(c, m, was)
    requires i in m.finished && Whole(c, m.files, i)
    ensures Whole(c, m'.files, i)
  {
  }

  lemma StepKeepsChannel(c: Config, m: Shared, was: Worker, now: Worker, m': Shared)
    requires KeepsHands(m, was, now, m') && WorkerFits(c, m, was) && Channel(c, m)
    ensures Channel(c, m')
  {
  }

  // ---------------------------------------------------------------- one worker among the others

  lemma OthersExclusive(c: Config, s: State, w: nat, now: Worker, m': Shared)
    requires w < |s.workers| && KeepsHands(s.m, s.workers[w], now, m')
    requires Exclusive(s.workers) && Channel(c, s.m)
    requires forall v | 0 <= v < |s.workers| :: WorkerFits(c, s.m, s.workers[v])
    ensures Exclusive(s.workers[w := now])
  {
    forall v, i: nat | 0 <= v < |s.workers| && v != w && now.Holds(i) ensures !s.workers[v].Holds(i) {
      assert WorkerFits(c, s.m, s.workers[v]);
    }
  }

  lemma OtherFits(c: Config, m: Shared, was: Worker, now: Worker, m': Shared, other: Worker)
    requires KeepsHands(m, was, now, m') && KeepsFiles(m, was, m') && WorkerFits(c, m, other)
    requires forall i: nat | other.Holds(i) :: !was.Holds(i)
    ensures WorkerFits(c, m', other)
  {
    if other.Holding? || other.Reading? || other.Fetched? {
      assert other.Holds(other.idx);
    }
  }

  lemma OtherBlame(m: Shared, was: Worker, now: Worker, m': Shared, other: Worker)
    requires KeepsErrors(m, was, now, m') && WorkerBlame(m, other)
    ensures WorkerBlame(m', other)
  {
  }

  lemma StillBlame(m: Shared, was: Worker, now: Worker, m': Shared)
    requires KeepsErrors(m, was, now, m') && Blame(m) && WorkerBlame(m, was)
    ensures Blame(m')
  {
  }

  lemma StillCovered(c: Config, s: State, w: nat, now: Worker, m': Shared)
    requires w < |s.workers| && Channel(c, s.m) && Coverage(c, s)
    requires KeepsErrors(s.m, s.workers[w], now, m') && KeepsHands(s.m, s.workers[w], now, m')
    ensures Coverage(c, s.(m := m', workers := s.workers[w := now]))
  {
    var s' := s.(m := m', workers := s.workers[w := now]);
    if !Troubled(s') {
      forall v | 0 <= v < |s.workers| ensures !s.workers[v].Reporting? {
        assert v != w ==> s'.workers[v] == s.workers[v];
      }
      forall i: nat | i < m'.sent - |m'.queue| ensures Accounted(s', i) {
        if i < s.m.sent - |s.m.queue| {
          assert Accounted(s, i);
          if i !in s.m.finished {
            var v :| 0 <= v < |s.workers| && s.workers[v].Holds(i);
            assert v != w ==> s'.workers[v].Holds(i);
            assert !s'.workers[w].Reporting?;
          }
        } else {
          assert s'.workers[w].Holds(i);
        }
      }
    }
  }

  lemma WorkerInv(c: Config, s: State, w: nat, act: WorkerAction, s': State)
    requires c.Valid() && w < |s.workers| && Running(c, s) && Prefixes(c, s.m.files)
    requires WorkerNext(c, s, w, act) == Some(s')
    ensures Running(c, s') && Prefixes(c, s'.m.files)
  {
    var was, now := s.workers[w], s'.workers[w];
    assert WorkerStep(c, s.m, was, act) == Some((s'.m, now));
    assert WorkerFits(c, s.m, was) && WorkerBlame(s.m, was);
    StepKeepsErrors(c, s.m, was, act, s'.m, now);
    StepKeepsHands(c, s.m, was, act, s'.m, now);
    StepKeepsFiles(c, s.m, was, act, s'.m, now);
    StepWritesNext(c, s.m, was, act, s'.m, now);
    WritesKeepPrefixes(c, s.m, was, if act.Chunk? || act.WriteFails? then act.n else 0, s'.m.files);
    StepKeepsChannel(c, s.m, was, now, s'.m);
    StillBlame(s.m, was, now, s'.m);
    StillCovered(c, s, w, now, s'.m);
    OthersExclusive(c, s, w, now, s'.m);
    forall v | 0 <= v < |s'.workers|
      ensures WorkerFits(c, s'.m, s'.workers[v]) && WorkerBlame(s'.m, s'.workers[v])
    {
      if v == w {
        StepFits(c, s.m, was, act, s'.m, now);
      } else {
        assert WorkerFits(c, s.m, s.workers[v]) && WorkerBlame(s.m, s.workers[v]);
        OtherFits(c, s.m, was, now, s'.m, s.workers[v]);
        OtherBlame(s.m, was, now, s'.m, s.workers[v]);
      }
    }
    forall i | i in s'.m.finished ensures Whole(c, s'.m.files, i) {
      if i in s.m.finished {
        StepStillWhole(c, s.m, was, now, s'.m, i);
      } else {
        StepFinishes(c, s.m, was, act, s'.m, now, i);
      }
    }
  }

  // ---------------------------------------------------------------- the other steps

  lemma SharedInv(c: Config, s: State, s': State)
    requires c.Valid() && Running(c, s) && s' == s.(m := s'.m)
    requires s'.m.files == s.m.files && s'.m.finished == s.m.finished && s'.m.errSlot == s.m.errSlot
    requires s'.m.sent - |s'.m.queue| == s.m.sent - |s.m.queue| && s'.m.capacity == s.m.capacity
    requires Channel(c, s'.m) && Blame(s'.m)
    requires s'.m.closed && s'.m.sent < c.Count() ==> s'.m.ctx != Live
    requires s'.m.ctx == s.m.ctx || s.m.ctx.Live?
    requires s.m.closed ==> s'.m.closed && s'.m.queue == s.m.queue
    ensures Running(c, s')
  {
    forall v | 0 <= v < |s'.workers|
      ensures WorkerFits(c, s'.m, s'.workers[v]) && WorkerBlame(s'.m, s'.workers[v])
    {
      assert WorkerFits(c, s.m, s.workers[v]) && WorkerBlame(s.m, s.workers[v]);
    }
    if !Troubled(s') {
      assert !Troubled(s);
      forall i: nat | i < s'.m.sent - |s'.m.queue| ensures Accounted(s', i) {
        assert Accounted(s, i);
      }
    }
  }

  lemma ProducerInv(c: Config, s: State, a: Action, m: Shared)
    requires c.Valid() && Running(c, s) && ProducerNext(c, s.m, a) == Some(m)
    ensures Running(c, s.(m := m))
  {
    SharedInv(c, s, s.(m := m));
  }

  lemma ParentInv(c: Config, s: State, s': State)
    requires c.Valid() && Inv(c, s) && Next(c, s, ParentCancel) == Some(s')
    ensures Inv(c, s')
  {
    if s.main.Waiting? {
      SharedInv(c, s, s');
    }
  }

  lemma {:induction false} InitialSegmentSize(n: nat, all: set<nat>)
    requires forall i: nat :: i in all <==> i < n
    ensures |all| == n
  {
    if n > 0 {
      InitialSegmentSize(n - 1, all - {n - 1});
    }
  }

  /** With all goroutines gone, an empty error slot and a live context, every index was counted. */
  lemma AllFinished(c: Config, s: State)
    requires c.Valid() && Running(c, s) && s.m.closed && AllExited(s)
    requires s.m.errSlot.None? && !s.m.parentDone
    ensures s.m.partCount == c.Count() && |s.workers| > 0
    ensures forall i: nat | i < c.Count() :: Whole(c, s.m.files, i)
  {
    assert s.m.ctx == Live;
    assert s.m.queue == [] by {
      if |s.workers| > 0 {
        assert WorkerBlame(s.m, s.workers[0]);
      }
    }
    assert !Troubled(s);
    forall i: nat | i < c.Count() ensures i in s.m.finished && Whole(c, s.m.files, i) {
      assert Accounted(s, i);
    }
    InitialSegmentSize(c.Count(), s.m.finished);
  }

  lemma JoinInv(c: Config, s: State, s': State)
    requires c.Valid() && Running(c, s) && Prefixes(c, s.m.files) && JoinNext(c, s) == Some(s')
    ensures Inv(c, s')
  {
    if s.m.errSlot.None? && !s.m.parentDone {
      AllFinished(c, s);
    }
  }

  lemma CopyInv(c: Config, s: State, next: nat, ok: bool, n: nat, s': State)
    requires c.Valid() && Inv(c, s) && s.main == Assembling(next) && CopyNext(c, s, next, ok, n) == Some(s')
    ensures Inv(c, s')
  {
    assert Whole(c, s.m.files, next);
    var have, more := Covered(c.plan, next), Covered(c.plan, next + 1);
    assert c.Slice(next) == c.resource[have..more];
    assert c.resource[..have] + c.resource[have..more] == c.resource[..more];
  }

  lemma CreateInv(c: Config, s: State, a: Action, s': State)
    requires c.Valid() && Inv(c, s) && s.main.Creating? && MainNext(c, s, a) == Some(s')
    ensures Inv(c, s')
  {
  }

  lemma RemoveInv(c: Config, s: State, a: Action, s': State)
    requires c.Valid() && Inv(c, s) && s.main.Removing? && MainNext(c, s, a) == Some(s')
    ensures Inv(c, s')
  {
    assert c.resource[..c.Total()] == c.resource;
  }

  lemma MainInv(c: Config, s: State, a: Action, s': State)
    requires c.Valid() && Inv(c, s) && MainNext(c, s, a) == Some(s')
    ensures Inv(c, s')
  {
    match s.main
    case Waiting => JoinInv(c, s, s');
    case Creating => CreateInv(c, s, a, s');
    case Assembling(next) =>
      if a.CopyPart? {
        CopyInv(c, s, next, a.ok, a.n, s');
      }
    case Removing => RemoveInv(c, s, a, s');
  }

  lemma InitialInv(c: Config, workers: nat, files: Files, dest: Option<seq<byte>>)
    requires c.Valid() && Prefixes(c, files)
    ensures Inv(c, Initial(workers, files, dest))
  {
  }

  /** Only while the joining goroutine waits do the producer and the workers move. */
  lemma OnlyWhileWaiting(c: Config, s: State, a: Action)
    requires c.Valid() && Inv(c, s) && (a.Work? || a.Send? || a.SeeCancel? || a.CloseQueue?)
    requires Next(c, s, a).Some?
    ensures s.main.Waiting?
  {
    if a.Work? {
      assert !s.workers[a.w].Exited?;
    }
  }

  /** Every step of the download, and every crash and restart, keeps the invariant. */
  lemma StepInv(c: Config, s: State, a: Action, s': State)
    requires c.Valid() && Inv(c, s) && Next(c, s, a) == Some(s')
    ensures Inv(c, s')
  {
    match a
    case Work(w, act) =>
      OnlyWhileWaiting(c, s, a);
      WorkerInv(c, s, w, act, s');
    case ParentCancel => ParentInv(c, s, s');
    case Restart(kept, workers) => InitialInv(c, workers, Keep(s.m.files, kept), s.out.dest);
    case _ =>
      if a.Send? || a.SeeCancel? || a.CloseQueue? {
        OnlyWhileWaiting(c, s, a);
        ProducerInv(c, s, a, s'.m);
      } else {
        MainInv(c, s, a, s');
      }
  }

  lemma {:induction false} RunInv(c: Config, s: State, acts: seq<Action>, t: State)
    requires c.Valid() && Inv(c, s) && Run(c, s, acts) == Some(t)
    ensures Inv(c, t)
    decreases |acts|
  {
    if acts != [] {
      var s1 := Next(c, s, acts[0]).value;
      StepInv(c, s, acts[0], s1);
      RunInv(c, s1, acts[1..], t);
    }
  }
}
