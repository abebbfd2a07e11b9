/** How finished downloads reach the library when several runs end at the same time (internal/queue/queue.go,
    lines 186-237 and 306-317; internal/scrub/scrub.go, lines 49-62). A deferred run renames its staged file onto
    the target. Otherwise ffmpeg writes beside the target, to the target's name with ".tmp", and that file is
    renamed; without a remux the staged file is. After that the sidecar in the target's directory is truncated
    and written in place. A staged file is in its run's own directory, so only names in the library are shared. */
module Publish {
  import opened Basics
  import opened Paths

  type Library = map<string, seq<byte>>

  /** One run: where it publishes, the staged bytes, what a complete remux of them and its sidecar would hold. */
  datatype Plan = Plan(target: string, staged: seq<byte>, remuxed: seq<byte>, sidecar: seq<byte>, deferred: bool)
  {
    function Tmp(): string { target + ".tmp" }
    function Side(): string { SidecarOf(target) }
  }

  datatype Stage =
    | Staged | Remuxing(done: nat) | Remuxed | Fallback | Published | Failed | Describing(written: nat)

  datatype State = State(files: Library, stages: seq<Stage>)

  datatype Action =
    | StartRemux(r: nat)
    | SkipRemux(r: nat)
    | Write(r: nat, n: nat)
    | EndRemux(r: nat, ok: bool)
    | Rename(r: nat, ok: bool)
    | OpenSidecar(r: nat)
    | WriteSidecar(r: nat, n: nat)

  /** Writing at an offset; a gap before it is filled with zeros. */
  function Overwritten(was: seq<byte>, at: nat, bytes: seq<byte>): seq<byte> {
    (if at <= |was| then was[..at] else was + seq(at - |was|, _ => 0 as byte))
    + bytes + (if at + |bytes| <= |was| then was[at + |bytes|..] else [])
  }

  function Set(s: State, r: nat, files: Library, stage: Stage): Option<State>
    requires r < |s.stages|
  {
    Some(State(files, s.stages[r := stage]))
  }

  function Next(plans: seq<Plan>, s: State, a: Action): Option<State> {
    if a.r >= |plans| || a.r >= |s.stages| then None
    else
      var p := plans[a.r];
      match (s.stages[a.r], a)
      case (Staged, StartRemux(r)) => if p.deferred then None else Set(s, r, s.files[p.Tmp() := []], Remuxing(0))
      case (Staged, SkipRemux(r)) => Set(s, r, s.files, Fallback)
      case (Remuxing(done), Write(r, n)) =>
        if n == 0 || done + n > |p.remuxed| then None
        else if p.Tmp() in s.files then
          Set(s, r, s.files[p.Tmp() := s.files[p.Tmp()] + p.remuxed[done..done + n]], Remuxing(done + n))
        else Set(s, r, s.files, Remuxing(done + n))
      case (Remuxing(done), EndRemux(r, ok)) =>
        if !ok then Set(s, r, s.files - {p.Tmp()}, Fallback)
        else if done == |p.remuxed| then Set(s, r, s.files, Remuxed)
        else None
      case (Remuxed, Rename(r, ok)) =>
        if ok && p.Tmp() in s.files
        then Set(s, r, (s.files - {p.Tmp()})[p.target := s.files[p.Tmp()]], Published)
        else Set(s, r, s.files - {p.Tmp()}, Failed)
      case (Fallback, Rename(r, ok)) =>
        if ok then Set(s, r, s.files[p.target := p.staged], Published) else Set(s, r, s.files, Failed)
      case (Published, OpenSidecar(r)) => Set(s, r, s.files[p.Side() := []], Describing(0))
      case (Describing(written), WriteSidecar(r, n)) =>
        if n == 0 || written + n > |p.sidecar| then None
        else if p.Side() in s.files then
          var bytes := p.sidecar[written..written + n];
          Set(s, r, s.files[p.Side() := Overwritten(s.files[p.Side()], written, bytes)], Describing(written + n))
        else Set(s, r, s.files, Describing(written + n))
      case _ => None
  }

  function Run(plans: seq<Plan>, s: State, acts: seq<Action>): Option<State>
    decreases |acts|
  {
    if acts == [] then Some(s)
    else match Next(plans, s, acts[0])
         case None => None
         case Some(s1) => Run(plans, s1, acts[1..])
  }

  function Initial(plans: seq<Plan>, files: Library): State {
    State(files, seq(|plans|, _ => Staged))
  }

  /** What a reader of the library may find under a target: what was there before, or a whole file of a run. */
  ghost predicate WholeAt(plans: seq<Plan>, before: Library, files: Library, name: string) {
    name in files ==>
      || (name in before && files[name] == before[name])
      || exists r :: 0 <= r < |plans| && plans[r].target == name
                     && (files[name] == plans[r].staged || files[name] == plans[r].remuxed)
  }

  ghost predicate AllWhole(plans: seq<Plan>, before: Library, files: Library) {
    forall q | 0 <= q < |plans| :: WholeAt(plans, before, files, plans[q].target)
  }

  /** Two runs remux beside the same target, or one remuxes into the other's. */
  predicate RemuxClash(plans: seq<Plan>, q: nat, r: nat)
    requires q < |plans| && r < |plans|
  {
    && q != r && !plans[r].deferred
    && (plans[q].target == plans[r].Tmp() || (!plans[q].deferred && plans[q].target == plans[r].target))
  }

  /** A run gets in the way of a target: it writes its sidecar there, which can be its own target, or remuxes
      into it, or two runs remux beside the same target. */
  predicate Clash(plans: seq<Plan>, q: nat, r: nat)
    requires q < |plans| && r < |plans|
  {
    plans[q].target == plans[r].Side() || RemuxClash(plans, q, r)
  }

  ghost predicate NoClash(plans: seq<Plan>) {
    forall q, r | 0 <= q < |plans| && 0 <= r < |plans| :: !Clash(plans, q, r)
  }

  // ---------------------------------------------------------------- without a clash

  ghost predicate TmpFits(plans: seq<Plan>, s: State, r: nat)
    requires r < |plans| && r < |s.stages|
  {
    var p := plans[r];
    match s.stages[r]
    case Remuxing(done) =>
      !p.deferred && done <= |p.remuxed| && p.Tmp() in s.files && s.files[p.Tmp()] == p.remuxed[..done]
    case Remuxed => !p.deferred && p.Tmp() in s.files && s.files[p.Tmp()] == p.remuxed
    case _ => true
  }

  ghost predicate Inv(plans: seq<Plan>, before: Library, s: State) {
    && |s.stages| == |plans| && AllWhole(plans, before, s.files)
    && forall r | 0 <= r < |plans| :: TmpFits(plans, s, r)
  }

  /** Names that a step of run `r` leaves alone. */
  lemma StepKeeps(plans: seq<Plan>, s: State, a: Action, s': State, name: string)
    requires Next(plans, s, a) == Some(s') && a.r < |plans|
    requires name != plans[a.r].target && (name != plans[a.r].Tmp() || plans[a.r].deferred)
    requires name != plans[a.r].Side()
    requires a.r < |s.stages| && TmpFits(plans, s, a.r)
    ensures Lookup(s'.files, name) == Lookup(s.files, name)
  {
  }

  lemma TmpIsOther(p: Plan, q: Plan)
    ensures p.target != p.Tmp()
    ensures p.Tmp() == q.Tmp() ==> p.target == q.target
  {
    assert |p.Tmp()| == |p.target| + 4;
    assert p.Tmp()[..|p.target|] == p.target;
    assert q.Tmp()[..|q.target|] == q.target;
    assert |q.Tmp()| == |q.target| + 4;
  }

  lemma SideIsNoTmp(p: Plan, q: Plan)
    ensures p.Side() != q.Tmp()
  {
    var side, tmp := p.Side(), q.Tmp();
    assert side[|side| - 1] == SIDECAR[|SIDECAR| - 1] == 'n';
    assert tmp[|tmp| - 1] == ".tmp"[3] == 'p';
  }

  /** The step's own target changes only by a rename, to a whole file; its own remux output only as ffmpeg writes it. */
  lemma OwnStep(plans: seq<Plan>, s: State, a: Action, s': State)
    requires Next(plans, s, a) == Some(s') && a.r < |plans| && a.r < |s.stages| && TmpFits(plans, s, a.r)
    requires plans[a.r].target != plans[a.r].Side()
    ensures TmpFits(plans, s', a.r)
    ensures Lookup(s'.files, plans[a.r].target) == Lookup(s.files, plans[a.r].target)
         || (a.Rename? && Lookup(s'.files, plans[a.r].target) in {Some(plans[a.r].staged), Some(plans[a.r].remuxed)})
  {
    var p := plans[a.r];
    TmpIsOther(p, p);
    if a.Write? {
      var done := s.stages[a.r].done;
      assert p.remuxed[..done] + p.remuxed[done..done + a.n] == p.remuxed[..done + a.n];
    }
    if a.EndRemux? && a.ok {
      assert p.remuxed[..|p.remuxed|] == p.remuxed;
    }
  }

  lemma StepInv(plans: seq<Plan>, before: Library, s: State, a: Action, s': State)
    requires NoClash(plans) && Inv(plans, before, s) && Next(plans, s, a) == Some(s')
    ensures Inv(plans, before, s')
  {
    assert TmpFits(plans, s, a.r) && !Clash(plans, a.r, a.r);
    OwnStep(plans, s, a, s');
    forall q | 0 <= q < |plans|
      ensures WholeAt(plans, before, s'.files, plans[q].target) && TmpFits(plans, s', q)
    {
      assert WholeAt(plans, before, s.files, plans[q].target) && TmpFits(plans, s, q);
      OtherRun(plans, s, a, s', q);
    }
  }

  lemma OtherRun(plans: seq<Plan>, s: State, a: Action, s': State, q: nat)
    requires NoClash(plans) && |s.stages| == |plans| && a.r < |plans| && q < |plans|
    requires Next(plans, s, a) == Some(s') && TmpFits(plans, s, a.r) && TmpFits(plans, s, q)
    ensures q != a.r ==> TmpFits(plans, s', q)
    ensures plans[q].target != plans[a.r].target ==>
      Lookup(s'.files, plans[q].target) == Lookup(s.files, plans[q].target)
  {
    var p, o := plans[a.r], plans[q];
    assert !Clash(plans, q, a.r) && !Clash(plans, a.r, q);
    SideIsNoTmp(p, o);
    if q != a.r {
      if !o.deferred {
        TmpIsOther(p, o);
        StepKeeps(plans, s, a, s', o.Tmp());
      }
      if o.target != p.target {
        StepKeeps(plans, s, a, s', o.target);
      }
    }
  }

  lemma {:induction false} RunInv(plans: seq<Plan>, before: Library, s: State, acts: seq<Action>, t: State)
    requires NoClash(plans) && Inv(plans, before, s) && Run(plans, s, acts) == Some(t)
    ensures Inv(plans, before, t)
    decreases |acts|
  {
    if acts != [] {
      var s1 := Next(plans, s, acts[0]).value;
      StepInv(plans, before, s, acts[0], s1);
      RunInv(plans, before, s1, acts[1..], t);
    }
  }

  ghost predicate Safe(plans: seq<Plan>, before: Library) {
    forall acts | Run(plans, Initial(plans, before), acts).Some? ::
      AllWhole(plans, before, Run(plans, Initial(plans, before), acts).value.files)
  }

  lemma OverwrittenAtEnd(was: seq<byte>, bytes: seq<byte>)
    requires bytes != []
    ensures Overwritten(was, |was|, bytes) == was + bytes
  {
  }

  /** Byte by byte: what is written stands at its offset, the rest as before, and a gap holds zeros. */
  lemma OverwrittenAt(was: seq<byte>, at: nat, bytes: seq<byte>, i: nat)
    requires i < |Overwritten(was, at, bytes)|
    ensures |Overwritten(was, at, bytes)| == if at + |bytes| < |was| then |was| else at + |bytes|
    ensures Overwritten(was, at, bytes)[i]
         == if at <= i < at + |bytes| then bytes[i - at] else if i < |was| then was[i] else 0
  {
  }

  /** As long as only its own run writes it, a sidecar holds what has been written of it. */
  lemma SidecarGrows(plans: seq<Plan>, s: State, r: nat, n: nat, s': State)
    requires r < |plans| && r < |s.stages| && s.stages[r].Describing?
    requires Next(plans, s, WriteSidecar(r, n)) == Some(s')
    requires Lookup(s.files, plans[r].Side()) == Some(plans[r].sidecar[..s.stages[r].written])
    ensures s'.stages[r] == Describing(s.stages[r].written + n)
    ensures Lookup(s'.files, plans[r].Side()) == Some(plans[r].sidecar[..s.stages[r].written + n])
  {
    var p, written := plans[r], s.stages[r].written;
    OverwrittenAtEnd(s.files[p.Side()], p.sidecar[written..written + n]);
    assert p.sidecar[..written] + p.sidecar[written..written + n] == p.sidecar[..written + n];
  }

  /** So a run that has published its file and is not disturbed writes the whole sidecar. */
  lemma SidecarIsWritten(plans: seq<Plan>, s: State, r: nat)
    requires r < |plans| && r < |s.stages| && s.stages[r].Published? && plans[r].sidecar != []
    ensures var t := Run(plans, s, [OpenSidecar(r), WriteSidecar(r, |plans[r].sidecar|)]);
            t.Some? && Lookup(t.value.files, plans[r].Side()) == Some(plans[r].sidecar)
            && forall name | name != plans[r].Side() :: Lookup(t.value.files, name) == Lookup(s.files, name)
  {
    var p, n := plans[r], |plans[r].sidecar|;
    var s1 := Next(plans, s, OpenSidecar(r)).value;
    var s2 := Next(plans, s1, WriteSidecar(r, n)).value;
    SidecarGrows(plans, s1, r, n, s2);
    assert p.sidecar[..0] == [] && p.sidecar[..n] == p.sidecar;
    RunOne(plans, s1, WriteSidecar(r, n), []);
    RunOne(plans, s, OpenSidecar(r), [WriteSidecar(r, n)] + []);
    assert [OpenSidecar(r)] + ([WriteSidecar(r, n)] + []) == [OpenSidecar(r), WriteSidecar(r, n)];
  }

  // ---------------------------------------------------------------- with a clash

  /** No file in question is empty. */
  ghost predicate NothingEmpty(plans: seq<Plan>, before: Library) {
    && (forall r | 0 <= r < |plans| :: plans[r].staged != [] && plans[r].remuxed != [])
    && (forall name | name in before :: before[name] != [])
  }

  lemma EmptyIsNotWhole(plans: seq<Plan>, before: Library, files: Library, q: nat)
    requires NothingEmpty(plans, before) && q < |plans| && Lookup(files, plans[q].target) == Some([])
    ensures !AllWhole(plans, before, files)
  {
    assert !WholeAt(plans, before, files, plans[q].target);
  }

  lemma RunOne(plans: seq<Plan>, s: State, a: Action, rest: seq<Action>)
    requires Next(plans, s, a).Some?
    ensures Run(plans, s, [a] + rest) == Run(plans, Next(plans, s, a).value, rest)
  {
    assert ([a] + rest)[1..] == rest;
  }

  /** One run's target is the file another remuxes into: it is seen empty as soon as ffmpeg opens it. */
  lemma SeenWhileRemuxed(plans: seq<Plan>, before: Library, q: nat, r: nat)
    requires NothingEmpty(plans, before) && q < |plans| && r < |plans|
    requires !plans[r].deferred && plans[q].target == plans[r].Tmp()
    ensures !Safe(plans, before)
  {
    var s := Initial(plans, before);
    RunOne(plans, s, StartRemux(r), []);
    EmptyIsNotWhole(plans, before, Next(plans, s, StartRemux(r)).value.files, q);
    assert [StartRemux(r)] + [] == [StartRemux(r)];
    assert Run(plans, s, [StartRemux(r)]).Some?;
  }

  /** Two runs remux beside the same target: the second truncates the file that the first, complete by then,
      renames onto the target. */
  lemma SeenAfterTruncation(plans: seq<Plan>, before: Library, q: nat, r: nat)
    requires NothingEmpty(plans, before) && q < |plans| && r < |plans| && q != r
    requires !plans[q].deferred && !plans[r].deferred && plans[q].target == plans[r].target
    ensures !Safe(plans, before)
  {
    var s := Initial(plans, before);
    var p := plans[r];
    var a1, a2, a3, a4, a5 :=
      StartRemux(r), Write(r, |p.remuxed|), EndRemux(r, true), StartRemux(q), Rename(r, true);
    TmpIsOther(p, plans[q]);
    assert p.Tmp() == plans[q].Tmp();
    var s1 := Next(plans, s, a1).value;
    var s2 := Next(plans, s1, a2).value;
    var s3 := Next(plans, s2, a3).value;
    var s4 := Next(plans, s3, a4).value;
    var s5 := Next(plans, s4, a5).value;
    RunOne(plans, s4, a5, []);
    RunOne(plans, s3, a4, [a5] + []);
    RunOne(plans, s2, a3, [a4] + ([a5] + []));
    RunOne(plans, s1, a2, [a3] + ([a4] + ([a5] + [])));
    RunOne(plans, s, a1, [a2] + ([a3] + ([a4] + ([a5] + []))));
    EmptyIsNotWhole(plans, before, s5.files, r);
    assert Run(plans, s, [a1] + ([a2] + ([a3] + ([a4] + ([a5] + []))))) == Some(s5);
  }

  /** A target with a sidecar's name: some run's sidecar, its own or another's, is truncated in its place. */
  lemma SeenUnderSidecar(plans: seq<Plan>, before: Library, q: nat, r: nat)
    requires NothingEmpty(plans, before) && q < |plans| && r < |plans| && plans[q].target == plans[r].Side()
    ensures !Safe(plans, before)
  {
    var s := Initial(plans, before);
    var a1, a2, a3 := SkipRemux(r), Rename(r, true), OpenSidecar(r);
    var s1 := Next(plans, s, a1).value;
    var s2 := Next(plans, s1, a2).value;
    var s3 := Next(plans, s2, a3).value;
    RunOne(plans, s2, a3, []);
    RunOne(plans, s1, a2, [a3] + []);
    RunOne(plans, s, a1, [a2] + ([a3] + []));
    EmptyIsNotWhole(plans, before, s3.files, q);
    assert Run(plans, s, [a1] + ([a2] + ([a3] + []))) == Some(s3);
  }

  /** No reader ever finds a partial file under a target, in any interleaving of any runs, exactly when no run
      gets in the way of a target. */
  lemma PublishedWholeIff(plans: seq<Plan>, before: Library)
    requires NothingEmpty(plans, before)
    ensures Safe(plans, before) <==> NoClash(plans)
  {
    if NoClash(plans) {
      forall acts | Run(plans, Initial(plans, before), acts).Some?
        ensures AllWhole(plans, before, Run(plans, Initial(plans, before), acts).value.files)
      {
        RunInv(plans, before, Initial(plans, before), acts, Run(plans, Initial(plans, before), acts).value);
      }
    } else {
      var q, r :| 0 <= q < |plans| && 0 <= r < |plans| && Clash(plans, q, r);
      if plans[q].target == plans[r].Side() {
        SeenUnderSidecar(plans, before, q, r);
      } else if plans[q].target == plans[r].Tmp() {
        SeenWhileRemuxed(plans, before, q, r);
      } else {
        SeenAfterTruncation(plans, before, q, r);
      }
    }
  }

  /** The name a target must not have, whoever runs beside it. */
  ghost predicate NamedAsSidecar(plans: seq<Plan>) {
    exists q | 0 <= q < |plans| :: Base(plans[q].target) == SIDECAR
  }

  ghost predicate NoRemuxClash(plans: seq<Plan>) {
    forall q, r | 0 <= q < |plans| && 0 <= r < |plans| :: !RemuxClash(plans, q, r)
  }

  /** What a caller can look at beforehand: the names of the targets, and which of them remux. */
  lemma NoClashIff(plans: seq<Plan>)
    ensures NoClash(plans) <==> !NamedAsSidecar(plans) && NoRemuxClash(plans)
  {
    if NoClash(plans) {
      forall q | 0 <= q < |plans| ensures Base(plans[q].target) != SIDECAR {
        assert !Clash(plans, q, q);
        SidecarIff(plans[q].target);
      }
      forall q, r | 0 <= q < |plans| && 0 <= r < |plans| ensures !RemuxClash(plans, q, r) {
        assert !Clash(plans, q, r);
      }
    }
    if !NamedAsSidecar(plans) && NoRemuxClash(plans) {
      forall q, r | 0 <= q < |plans| && 0 <= r < |plans| ensures !Clash(plans, q, r) {
        assert !RemuxClash(plans, q, r);
        SidecarIff(plans[q].target);
      }
    }
  }

  /** When every run is deferred, readers are safe exactly if no target has the sidecar's name, even if runs share
      their targets. */
  lemma DeferredSafeIff(plans: seq<Plan>, before: Library)
    requires NothingEmpty(plans, before) && forall r | 0 <= r < |plans| :: plans[r].deferred
    ensures Safe(plans, before) <==> !NamedAsSidecar(plans)
  {
    PublishedWholeIff(plans, before);
    NoClashIff(plans);
  }

  /** The same without a word about empty files. */
  lemma DeferredIsSafe(plans: seq<Plan>, before: Library)
    requires !NamedAsSidecar(plans) && forall r | 0 <= r < |plans| :: plans[r].deferred
    ensures Safe(plans, before)
  {
    NoClashIff(plans);
    forall acts | Run(plans, Initial(plans, before), acts).Some?
      ensures AllWhole(plans, before, Run(plans, Initial(plans, before), acts).value.files)
    {
      RunInv(plans, before, Initial(plans, before), acts, Run(plans, Initial(plans, before), acts).value);
    }
  }
}
