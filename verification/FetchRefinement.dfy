/** The range fetch, as the loop computes it, against the resource and against the worker of the protocol. */
module FetchRefinement {
  import opened Basics
  import opened Download
  import opened Fetch

  /** A reply that is not refused carries the resource's bytes from the requested start on, possibly fewer
      or more than asked for, in blocks no larger than the read buffer. */
  ghost predicate Honest(resource: seq<byte>, at: int, reply: Reply) {
    && reply.Reply? && reply.status == 206
    && (reply.range == Absent || (reply.range.Span? && reply.range.first == at && reply.range.last >= at))
    ==> Carries(resource, at, reply.body)
  }

  ghost predicate Carries(resource: seq<byte>, at: int, body: Body) {
    && 0 <= at <= |resource| && Concat(body.blocks) <= resource[at..]
    && (forall k | 0 <= k < |body.blocks| :: |body.blocks[k]| <= BUFFER)
  }

  lemma CarriesNext(resource: seq<byte>, at: int, body: Body)
    requires Carries(resource, at, body) && body.blocks != []
    ensures var n := |body.blocks[0]|;
            && at + n <= |resource| && body.blocks[0] == resource[at..at + n]
            && Carries(resource, at + n, body.(blocks := body.blocks[1..]))
  {
    var block, rest := body.blocks[0], Concat(body.blocks[1..]);
    var n := |block|;
    assert block + rest == resource[at..][..n + |rest|];
    assert block == resource[at..][..n];
    assert rest == resource[at..][n..n + |rest|] == resource[at + n..][..|rest|];
  }

  /** What the copy loop appends is exactly what the resource has next. */
  lemma {:induction false} CopiedIsNext(resource: seq<byte>, at: int, body: Body, room: nat, limit: int, count: int)
    requires Carries(resource, at, body)
    ensures var copy := Copied(body, room, limit, count);
            && at + |copy.bytes| <= |resource| && copy.bytes == resource[at..at + |copy.bytes|]
            && (copy.err.None? ==> copy.count == count + |copy.bytes|)
    decreases |body.blocks|
  {
    if body.blocks != [] {
      CarriesNext(resource, at, body);
      var block := body.blocks[0];
      if |block| > room {
        assert block[..room] == resource[at..at + room];
      } else {
        var later := body.(blocks := body.blocks[1..]);
        CopiedIsNext(resource, at + |block|, later, room - |block|, limit, count + |block|);
        var rest := Copied(later, room - |block|, limit, count + |block|).bytes;
        Adjacent(resource, at, at + |block|, at + |block| + |rest|);
      }
    }
  }

  lemma Adjacent(s: seq<byte>, a: nat, b: nat, c: nat)
    requires a <= b <= c <= |s|
    ensures s[a..b] + s[b..c] == s[a..c]
  {
  }

  lemma ReceiveKeepsPrefix(resource: seq<byte>, from: int, held: seq<byte>, room: nat, to: int, reply: Reply)
    requires 0 <= from <= to < |resource| && held <= resource[from..] && Honest(resource, from + |held|, reply)
    ensures var r := Receive(held, room, from + |held|, to, reply);
            r.file.Some? && r.file.value <= resource[from..] && (r.err.None? ==> r.count == |r.file.value|)
  {
    if reply.Reply? && reply.status == 206 && !Refused(reply.range, from + |held|) {
      var limit := to - (from + |held|) + 1;
      CopiedIsNext(resource, from + |held|, reply.body, room, limit, 0);
      PrefixGrows(resource, from, held, |Copied(reply.body, room, limit, 0).bytes|);
    }
  }

  /** Whatever goes wrong, the part file stays a prefix of the resource from the part's start; and a fetch
      without error whose file has the right size has the right bytes. */
  lemma FetchKeepsPrefix(resource: seq<byte>, from: int, to: int, before: Option<seq<byte>>, room: nat,
                         opens: bool, reply: Reply)
    requires 0 <= from <= to < |resource|
    requires before.Some? ==> before.value <= resource[from..]
    requires Honest(resource, from + (if before.Some? then |before.value| else 0), reply)
    ensures var r := FetchRange(before, room, from, to, opens, reply);
            && (r.file.Some? ==> r.file.value <= resource[from..])
            && (r.err.None? ==> r.file.Some? && r.count == |r.file.value|)
            && (r.file.Some? && |r.file.value| == to - from + 1 ==> r.file.value == resource[from..to + 1])
  {
    var held := if before.Some? then before.value else [];
    var r := FetchRange(before, room, from, to, opens, reply);
    ReceiveKeepsPrefix(resource, from, held, room, to, reply);
    if r.file.Some? {
      PrefixOfSize(resource, from, to, r.file.value);
    }
  }

  lemma PrefixOfSize(resource: seq<byte>, from: int, to: int, got: seq<byte>)
    requires 0 <= from <= to < |resource| && got <= resource[from..]
    ensures |got| == to - from + 1 ==> got == resource[from..to + 1]
  {
    assert got == resource[from..][..|got|];
  }

  // ---------------------------------------------------------------- the worker of the protocol

  function RunWorker(c: Config, m: Shared, worker: Worker, acts: seq<WorkerAction>): Step
    decreases |acts|
  {
    if acts == [] then Some((m, worker))
    else match WorkerStep(c, m, worker, acts[0])
         case None => None
         case Some((m1, worker1)) => RunWorker(c, m1, worker1, acts[1..])
  }

  lemma RunFirst(c: Config, m: Shared, worker: Worker, act: WorkerAction, rest: seq<WorkerAction>)
    requires WorkerStep(c, m, worker, act).Some?
    ensures RunWorker(c, m, worker, [act] + rest)
         == RunWorker(c, WorkerStep(c, m, worker, act).value.0, WorkerStep(c, m, worker, act).value.1, rest)
  {
    assert ([act] + rest)[1..] == rest;
  }

  /** Where a worker of the protocol stands after a fetch. */
  function Stands(idx: nat, err: Option<Error>): Worker {
    if err.None? then Worker.Fetched(idx) else Reporting(Genuine)
  }

  function Grown(m: Shared, idx: nat, bytes: seq<byte>): Shared
    requires idx in m.files
  {
    m.(files := m.files[idx := m.files[idx] + bytes])
  }

  lemma GrownTwice(m: Shared, idx: nat, a: seq<byte>, b: seq<byte>)
    requires idx in m.files
    ensures Grown(m, idx, []) == m
    ensures Grown(Grown(m, idx, a), idx, b) == Grown(m, idx, a + b)
  {
    assert m.files[idx] + [] == m.files[idx];
    assert m.files[idx := m.files[idx]] == m.files;
    assert (m.files[idx] + a) + b == m.files[idx] + (a + b);
    assert m.files[idx := m.files[idx] + a][idx := m.files[idx] + (a + b)] == m.files[idx := m.files[idx] + (a + b)];
  }

  lemma WriteSteps(c: Config, m: Shared, idx: nat, done: nat, written: nat, block: seq<byte>, n: nat)
    requires idx < c.Count() && idx in m.files && 0 <= c.plan[idx].from
    requires n <= |block| <= BUFFER && c.plan[idx].from + done + written + |block| <= c.Total()
    requires block == c.resource[c.plan[idx].from + done + written..c.plan[idx].from + done + written + |block|]
    ensures WorkerStep(c, m, Reading(idx, done, written), WriteFails(n))
         == Some((Grown(m, idx, block[..n]), Reporting(Genuine)))
    ensures block != [] ==>
      (WorkerStep(c, m, Reading(idx, done, written), Chunk(|block|))
       == Some((Grown(m, idx, block),
                if done + written + |block| > c.Length(idx) then Reporting(Genuine)
                else Reading(idx, done, written + |block|))))
  {
    var at := c.plan[idx].from + done + written;
    assert block[..n] == c.resource[at..at + n];
  }

  /** Where the copy loop stops at its first block or without any, the worker takes one step. */
  lemma StopIsWorkerStep(c: Config, m: Shared, idx: nat, done: nat, written: nat, body: Body, room: nat)
      returns (act: WorkerAction)
    requires c.Valid() && idx < c.Count() && idx in m.files && done + written <= c.Length(idx)
    requires Carries(c.resource, c.plan[idx].from + done + written, body)
    requires Stops(c, idx, done, written, body, room)
    ensures var copy := Copied(body, room, c.Length(idx) - done, written);
            WorkerStep(c, m, Reading(idx, done, written), act)
            == Some((Grown(m, idx, copy.bytes), Stands(idx, copy.err)))
  {
    if body.blocks == [] {
      act := if body.broken then ReadFails(Genuine) else BodyEnds;
      GrownTwice(m, idx, [], []);
    } else {
      CarriesNext(c.resource, c.plan[idx].from + done + written, body);
      if |body.blocks[0]| > room {
        WriteSteps(c, m, idx, done, written, body.blocks[0], room);
        act := WriteFails(room);
      } else {
        WriteSteps(c, m, idx, done, written, body.blocks[0], 0);
        act := Chunk(|body.blocks[0]|);
      }
    }
  }

  /** From reading, these actions do to the file what the copy says, and leave the worker where its error does. */
  ghost predicate Performs(c: Config, m: Shared, idx: nat, done: nat, written: nat, acts: seq<WorkerAction>, copy: Copy)
    requires idx in m.files
  {
    RunWorker(c, m, Reading(idx, done, written), acts) == Some((Grown(m, idx, copy.bytes), Stands(idx, copy.err)))
  }

  /** A block that fits, and then what the worker does with the rest. */
  lemma ChunkThen(c: Config, m: Shared, idx: nat, done: nat, written: nat, block: seq<byte>, rest: seq<WorkerAction>,
                  copy: Copy, more: Copy)
    requires c.Valid() && idx < c.Count() && idx in m.files && done + written + |block| <= c.Length(idx)
    requires 0 < |block| <= BUFFER && c.plan[idx].from + done + written + |block| <= c.Total()
    requires block == c.resource[c.plan[idx].from + done + written..c.plan[idx].from + done + written + |block|]
    requires Performs(c, Grown(m, idx, block), idx, done, written + |block|, rest, more)
    requires copy.bytes == block + more.bytes && copy.err == more.err
    ensures Performs(c, m, idx, done, written, [Chunk(|block|)] + rest, copy)
  {
    WriteSteps(c, m, idx, done, written, block, 0);
    RunFirst(c, m, Reading(idx, done, written), Chunk(|block|), rest);
    GrownTwice(m, idx, block, more.bytes);
  }

  /** Whether the loop stops at its first block, or has none. */
  predicate Stops(c: Config, idx: nat, done: nat, written: nat, body: Body, room: nat)
    requires idx < c.Count()
  {
    body.blocks == [] || |body.blocks[0]| > room
    || (|body.blocks[0]| > 0 && done + written + |body.blocks[0]| > c.Length(idx))
  }

  lemma CopiedFirst(body: Body, room: nat, limit: int, count: int)
    requires body.blocks != [] && |body.blocks[0]| <= room
    requires |body.blocks[0]| > 0 ==> count + |body.blocks[0]| <= limit
    ensures var block := body.blocks[0];
            var rest := Copied(body.(blocks := body.blocks[1..]), room - |block|, limit, count + |block|);
            && Copied(body, room, limit, count).bytes == block + rest.bytes
            && Copied(body, room, limit, count).err == rest.err
  {
  }

  /** An empty block changes nothing. */
  lemma SamePerformed(c: Config, m: Shared, idx: nat, done: nat, written: nat, acts: seq<WorkerAction>,
                      copy: Copy, more: Copy)
    requires idx in m.files && Performs(c, m, idx, done, written, acts, more)
    requires copy.bytes == [] + more.bytes && copy.err == more.err
    ensures Performs(c, m, idx, done, written, acts, copy)
  {
    assert copy.bytes == more.bytes;
  }

  /** The copy loop is a run of the reading worker. */
  lemma {:induction false} CopyIsWorkerRun(
      c: Config, m: Shared, idx: nat, done: nat, written: nat, body: Body, room: nat)
      returns (acts: seq<WorkerAction>)
    requires c.Valid() && idx < c.Count() && idx in m.files && done + written <= c.Length(idx)
    requires Carries(c.resource, c.plan[idx].from + done + written, body)
    ensures Performs(c, m, idx, done, written, acts, Copied(body, room, c.Length(idx) - done, written))
    decreases |body.blocks|
  {
    if Stops(c, idx, done, written, body, room) {
      var act := StopIsWorkerStep(c, m, idx, done, written, body, room);
      acts := [act];
      OneAction(c, m, Reading(idx, done, written), act);
    } else {
      var block, next := body.blocks[0], body.(blocks := body.blocks[1..]);
      var limit := c.Length(idx) - done;
      CarriesNext(c.resource, c.plan[idx].from + done + written, body);
      CopiedFirst(body, room, limit, written);
      var copy, more := Copied(body, room, limit, written), Copied(next, room - |block|, limit, written + |block|);
      if |block| == 0 {
        acts := CopyIsWorkerRun(c, m, idx, done, written, next, room);
        SamePerformed(c, m, idx, done, written, acts, copy, more);
      } else {
        acts := CopyIsWorkerRun(c, Grown(m, idx, block), idx, done, written + |block|, next, room - |block|);
        ChunkThen(c, m, idx, done, written, block, acts, copy, more);
        acts := [Chunk(|block|)] + acts;
      }
    }
  }

  lemma OneAction(c: Config, m: Shared, worker: Worker, act: WorkerAction)
    requires WorkerStep(c, m, worker, act).Some?
    ensures RunWorker(c, m, worker, [act]) == WorkerStep(c, m, worker, act)
  {
    assert [act][1..] == [];
  }

  /** The loop refines the protocol: what `fetchRangeToFile` does to the part file, and whether it fails, is
      what some run of the protocol's worker does from the moment it holds the index. */
  lemma FetchIsWorkerRun(c: Config, m: Shared, idx: nat, room: nat, opens: bool, reply: Reply)
      returns (acts: seq<WorkerAction>)
    requires c.Valid() && idx < c.Count() && Prefixes(c, m.files)
    requires Honest(c.resource, c.plan[idx].from + FileSize(m.files, idx), reply)
    ensures var before := if idx in m.files then Some(m.files[idx]) else None;
            var r := FetchRange(before, room, c.plan[idx].from, c.plan[idx].to, opens, reply);
            var files := if r.file.Some? then m.files[idx := r.file.value] else m.files;
            RunWorker(c, m, Holding(idx), acts) == Some((m.(files := files), Stands(idx, r.err)))
  {
    var done := FileSize(m.files, idx);
    assert idx in m.files ==> m.files[idx := m.files[idx]] == m.files;
    if done >= c.Length(idx) || !opens {
      acts := [Begin(OpenFails)];
      OneAction(c, m, Holding(idx), acts[0]);
    } else if reply.NoReply? || reply.status != 206 || Refused(reply.range, c.plan[idx].from + done) {
      acts := [Begin(RequestFails(Genuine))];
      OneAction(c, m, Holding(idx), acts[0]);
    } else {
      acts := AcceptedIsWorkerRun(c, m, idx, room, reply.body);
    }
  }

  lemma AcceptedIsWorkerRun(c: Config, m: Shared, idx: nat, room: nat, body: Body) returns (acts: seq<WorkerAction>)
    requires c.Valid() && idx < c.Count() && FileSize(m.files, idx) < c.Length(idx)
    requires Carries(c.resource, c.plan[idx].from + FileSize(m.files, idx), body)
    ensures var done := FileSize(m.files, idx);
            var copy := Copied(body, room, c.Length(idx) - done, 0);
            var before := if idx in m.files then m.files[idx] else [];
            RunWorker(c, m, Holding(idx), acts)
            == Some((m.(files := m.files[idx := before + copy.bytes]), Stands(idx, copy.err)))
  {
    var created := m.(files := Opened(m.files, idx));
    var rest := CopyIsWorkerRun(c, created, idx, FileSize(m.files, idx), 0, body, room);
    acts := [Begin(Accepted)] + rest;
    RunFirst(c, m, Holding(idx), Begin(Accepted), rest);
    var bytes := Copied(body, room, c.Length(idx) - FileSize(m.files, idx), 0).bytes;
    assert created.files[idx := created.files[idx] + bytes] == m.files[idx := created.files[idx] + bytes];
  }
}
