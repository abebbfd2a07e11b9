/** The copy loops of internal/fetch/download.go: fetching one range into a part file (lines 263-325),
    assembling the parts (lines 204-229), and copying whole bodies for plain, local and segmented
    sources (lines 60-96, 327-373 and 396-449). Waiting for the rate limiter moves no bytes and is
    left to the module about it. */
module Fetch {
  import opened Basics

  /** What a reader yields: one block per read, then the end of the data or a read error. */
  datatype Body = Body(blocks: seq<seq<byte>>, broken: bool)

  datatype RangeHeader = Absent | Unreadable | Span(first: int, last: int)

  datatype Reply = NoReply | Reply(status: int, range: RangeHeader, body: Body)

  datatype Error =
    | InvalidPartial | OpenFailed | RequestFailed | BadStatus | BadRange
    | WriteFailed | ReadFailed | TooLong | NoSegments | CreateFailed | CloseFailed | Cancelled | BadPlaylist

  /** A file being written: `room` bytes can still be written before a write fails. */
  class OutFile {
    var present: bool
    var content: seq<byte>
    var room: nat

    constructor Absent(room: nat)
      ensures !present && content == [] && this.room == room
    {
      present, content, this.room := false, [], room;
    }

    /** A failing write leaves the part that fitted. */
    method Write(block: seq<byte>) returns (ok: bool)
      modifies this
      ensures present == old(present)
      ensures ok <==> |block| <= old(room)
      ensures content == old(content) + (if ok then block else block[..old(room)])
      ensures room == if ok then old(room) - |block| else 0
    {
      ok := |block| <= room;
      if ok {
        content, room := content + block, room - |block|;
      } else {
        content, room := content + block[..room], 0;
      }
    }
  }

  /** A running hash; its sum is a function of the bytes fed so far. */
  class Hasher {
    var fed: seq<byte>

    constructor ()
      ensures fed == []
    {
      fed := [];
    }

    method Write(block: seq<byte>)
      modifies this
      ensures fed == old(fed) + block
    {
      fed := fed + block;
    }
  }

  // ---------------------------------------------------------------- one range into one part file

  /** What a copy loop did: the bytes that reached the file, the count it returns, and its error. */
  datatype Copy = Copy(bytes: seq<byte>, count: int, err: Option<Error>)

  function Copied(body: Body, room: nat, limit: int, count: int): Copy
    decreases |body.blocks|
  {
    if body.blocks == [] then Copy([], count, if body.broken then Some(ReadFailed) else None)
    else
      var block := body.blocks[0];
      var now := count + |block|;
      if |block| > room then Copy(block[..room], count, Some(WriteFailed))
      else if |block| > 0 && now > limit then Copy(block, now, Some(TooLong))
      else
        var rest := Copied(body.(blocks := body.blocks[1..]), room - |block|, limit, now);
        rest.(bytes := block + rest.bytes)
  }

  datatype FetchResult = FetchResult(file: Option<seq<byte>>, count: int, err: Option<Error>)

  predicate Refused(range: RangeHeader, from: int) {
    match range
    case Absent => false
    case Unreadable => true
    case Span(first, last) => first != from || last < first
  }

  /** What fetching the range `from`-`to` does to a part file that holds `before` already. */
  function FetchRange(before: Option<seq<byte>>, room: nat, from: int, to: int, opens: bool, reply: Reply)
      : FetchResult
  {
    var done := if before.Some? then |before.value| else 0;
    var created := if before.Some? then before.value else [];
    if done > to - from + 1 then FetchResult(before, 0, Some(InvalidPartial))
    else if from + done > to then FetchResult(before, done, None)
    else if !opens then FetchResult(before, done, Some(OpenFailed))
    else Receive(created, room, from + done, to, reply)
  }

  /** What the reply to a request from `start` on does to a file that is open for appending. */
  function Receive(held: seq<byte>, room: nat, start: int, to: int, reply: Reply): FetchResult {
    if reply.NoReply? then FetchResult(Some(held), |held|, Some(RequestFailed))
    else if reply.status != 206 then FetchResult(Some(held), |held|, Some(BadStatus))
    else if Refused(reply.range, start) then FetchResult(Some(held), |held|, Some(BadRange))
    else
      var copy := Copied(reply.body, room, to - start + 1, 0);
      FetchResult(Some(held + copy.bytes), |held| + copy.count, copy.err)
  }

  // ---------------------------------------------------------------- when a fetch succeeds

  /** The whole body is taken exactly if it is unbroken, fits, and is no longer than was asked for; otherwise the
      error says which of these failed, and at most a prefix was appended. */
  lemma {:induction false} CopiedIff(body: Body, room: nat, limit: int, count: int)
    requires count <= limit
    ensures var copy, size := Copied(body, room, limit, count), |Concat(body.blocks)|;
            && (copy.err.None? <==> !body.broken && size <= room && count + size <= limit)
            && (copy.err.None? ==> copy.bytes == Concat(body.blocks) && copy.count == count + size)
            && (copy.err == Some(WriteFailed) ==> size > room)
            && (copy.err == Some(TooLong) ==> count + size > limit)
            && (copy.err == Some(ReadFailed) <==> body.broken && size <= room && count + size <= limit)
            && copy.bytes <= Concat(body.blocks)
            && (copy.err.Some? ==> copy.err.value in {WriteFailed, TooLong, ReadFailed})
    decreases |body.blocks|
  {
    if body.blocks != [] {
      var block, later := body.blocks[0], body.(blocks := body.blocks[1..]);
      assert Concat(body.blocks) == block + Concat(later.blocks);
      if |block| <= room && (|block| == 0 || count + |block| <= limit) {
        CopiedIff(later, room - |block|, limit, count + |block|);
      }
    }
  }

  /** A fetch succeeds exactly if the part is complete already, or if it can be opened and the reply is a 206 that
      says nothing about its range or says that it begins where it was asked to, with an unbroken body that fits
      and is no longer than what is missing. Then the body has been appended, and the count is the file's length. */
  lemma FetchSucceedsIff(before: Option<seq<byte>>, room: nat, from: int, to: int, opens: bool, reply: Reply)
    ensures var r := FetchRange(before, room, from, to, opens, reply);
            var held := if before.Some? then before.value else [];
            var missing := to - from + 1 - |held|;
            && (r.err.None? <==>
                  || missing == 0
                  || (missing > 0 && opens && reply.Reply? && reply.status == 206 && !reply.body.broken
                      && (reply.range == Absent
                          || (reply.range.Span? && reply.range.first == from + |held|
                              && reply.range.last >= reply.range.first))
                      && |Concat(reply.body.blocks)| <= room && |Concat(reply.body.blocks)| <= missing))
            && (r.err.None? && missing == 0 ==> r.file == before && r.count == |held|)
            && (r.err.None? && missing > 0 ==>
                  r.file == Some(held + Concat(reply.body.blocks)) && r.count == |held| + |Concat(reply.body.blocks)|)
  {
    var held := if before.Some? then before.value else [];
    if |held| < to - from + 1 && opens && reply.Reply? {
      CopiedIff(reply.body, room, to - from + 1 - |held|, 0);
    }
  }

  /** So a complete reply completes the part. */
  lemma CompleteReply(held: seq<byte>, room: nat, from: int, to: int, range: RangeHeader, blocks: seq<seq<byte>>)
    requires |held| < to - from + 1 && |Concat(blocks)| == to - from + 1 - |held| <= room
    requires range == Absent || (range.Span? && range.first == from + |held| && range.last >= range.first)
    ensures FetchRange(Some(held), room, from, to, true, Reply(206, range, Body(blocks, false)))
         == FetchResult(Some(held + Concat(blocks)), to - from + 1, None)
  {
    FetchSucceedsIff(Some(held), room, from, to, true, Reply(206, range, Body(blocks, false)));
  }

  /** Which failure is reported, and what it leaves: up to the reply's header the bytes are unchanged, afterwards
      at most a prefix of the body has been appended. */
  lemma FetchFails(before: Option<seq<byte>>, room: nat, from: int, to: int, opens: bool, reply: Reply)
    ensures var r := FetchRange(before, room, from, to, opens, reply);
            var held := if before.Some? then before.value else [];
            var missing := to - from + 1 - |held|;
            if missing < 0 then r == FetchResult(before, 0, Some(InvalidPartial))
            else if missing == 0 then r.err.None?
            else if !opens then r == FetchResult(before, |held|, Some(OpenFailed))
            else if reply.NoReply? then r == FetchResult(Some(held), |held|, Some(RequestFailed))
            else if reply.status != 206 then r == FetchResult(Some(held), |held|, Some(BadStatus))
            else if reply.range == Unreadable
                    || (reply.range.Span? && (reply.range.first != from + |held|
                                              || reply.range.last < reply.range.first))
            then r == FetchResult(Some(held), |held|, Some(BadRange))
            else
              var size := |Concat(reply.body.blocks)|;
              && r.file.Some? && held <= r.file.value <= held + Concat(reply.body.blocks)
              && (r.err == Some(ReadFailed) <==> reply.body.broken && size <= room && size <= missing)
              && (r.err == Some(WriteFailed) ==> size > room) && (r.err == Some(TooLong) ==> size > missing)
              && (r.err.Some? ==> r.err.value in {WriteFailed, TooLong, ReadFailed})
  {
    var held := if before.Some? then before.value else [];
    if |held| < to - from + 1 && opens && reply.Reply? {
      CopiedIff(reply.body, room, to - from + 1 - |held|, 0);
    }
  }

  ghost function Contents(file: OutFile): Option<seq<byte>>
    reads file
  {
    if file.present then Some(file.content) else None
  }

  /** What is left to read after `k` blocks. */
  function After(body: Body, k: nat): Body
    requires k <= |body.blocks|
  {
    Body(body.blocks[k..], body.broken)
  }

  lemma CopiedNext(body: Body, k: nat, room: nat, limit: int, count: int)
    requires k < |body.blocks|
    ensures var block := body.blocks[k];
            var now := count + |block|;
            Copied(After(body, k), room, limit, count)
            == if |block| > room then Copy(block[..room], count, Some(WriteFailed))
               else if |block| > 0 && now > limit then Copy(block, now, Some(TooLong))
               else
                 var rest := Copied(After(body, k + 1), room - |block|, limit, now);
                 rest.(bytes := block + rest.bytes)
  {
    assert body.blocks[k..][1..] == body.blocks[k + 1..];
  }

  /** Before block `k` the loop is on the way to the whole result. */
  ghost predicate OnCourse(whole: Copy, start: seq<byte>, content: seq<byte>, body: Body, k: nat, room: nat,
                           limit: int, written: int) {
    k <= |body.blocks| &&
    var rest := Copied(After(body, k), room, limit, written);
    start + whole.bytes == content + rest.bytes && rest.count == whole.count && rest.err == whole.err
  }

  lemma StaysOnCourse(whole: Copy, start: seq<byte>, content: seq<byte>, body: Body, k: nat, room: nat,
                      limit: int, written: int)
    requires OnCourse(whole, start, content, body, k, room, limit, written) && k < |body.blocks|
    ensures var block := body.blocks[k];
            if |block| > room then
              start + whole.bytes == content + block[..room] && whole.count == written && whole.err == Some(WriteFailed)
            else if |block| > 0 && written + |block| > limit then
              start + whole.bytes == content + block && whole.count == written + |block| && whole.err == Some(TooLong)
            else
              OnCourse(whole, start, content + block, body, k + 1, room - |block|, limit, written + |block|)
  {
    CopiedNext(body, k, room, limit, written);
    var block := body.blocks[k];
    if |block| <= room {
      var rest := Copied(After(body, k + 1), room - |block|, limit, written + |block|).bytes;
      assert content + (block + rest) == (content + block) + rest;
    }
  }

  /** The loop of `fetchRangeToFile`: read, append, count, and stop at the first byte too many. */
  method ReadInto(file: OutFile, body: Body, limit: int) returns (written: int, err: Option<Error>)
    modifies file
    ensures file.present == old(file.present)
    ensures var copy := Copied(body, old(file.room), limit, 0);
            file.content == old(file.content) + copy.bytes && written == copy.count && err == copy.err
  {
    ghost var whole, start := Copied(body, file.room, limit, 0), file.content;
    written := 0;
    assert body == After(body, 0);
    for k := 0 to |body.blocks|
      invariant file.present == old(file.present)
      invariant OnCourse(whole, start, file.content, body, k, file.room, limit, written)
    {
      var block := body.blocks[k];
      StaysOnCourse(whole, start, file.content, body, k, file.room, limit, written);
      if |block| > 0 {
        var ok := file.Write(block);
        if !ok {
          return written, Some(WriteFailed);
        }
        written := written + |block|;
        if written > limit {
          return written, Some(TooLong);
        }
      } else {
        assert file.content + block == file.content;
      }
    }
    err := if body.broken then Some(ReadFailed) else None;
    assert file.content + [] == file.content;
  }

  method FetchRangeToFile(file: OutFile, from: int, to: int, opens: bool, reply: Reply)
      returns (count: int, err: Option<Error>)
    requires !file.present ==> file.content == []
    modifies file
    ensures FetchRange(old(Contents(file)), old(file.room), from, to, opens, reply)
            == FetchResult(Contents(file), count, err)
  {
    var done := if file.present then |file.content| else 0;
    if done > to - from + 1 {
      return 0, Some(InvalidPartial);
    }
    var start := from + done;
    if start > to {
      return done, None;
    }
    if !opens {
      return done, Some(OpenFailed);
    }
    file.present := true;
    count, err := ReceiveInto(file, start, to, reply);
  }

  method ReceiveInto(file: OutFile, start: int, to: int, reply: Reply) returns (count: int, err: Option<Error>)
    requires file.present
    modifies file
    ensures file.present
    ensures Receive(old(file.content), old(file.room), start, to, reply) == FetchResult(Some(file.content), count, err)
  {
    var done := |file.content|;
    if reply.NoReply? {
      return done, Some(RequestFailed);
    }
    if reply.status != 206 {
      return done, Some(BadStatus);
    }
    if reply.range.Unreadable?
       || (reply.range.Span? && (reply.range.first != start || reply.range.last < reply.range.first)) {
      return done, Some(BadRange);
    }
    var written;
    written, err := ReadInto(file, reply.body, to - start + 1);
    count := done + written;
  }

  // ---------------------------------------------------------------- whole bodies into one file

  /** The loop shared by the plain, local and segmented downloads: every block goes to the file, the hash
      and the count. */
  method CopyBody(out: OutFile, h: Hasher, body: Body) returns (total: nat, err: Option<Error>)
    modifies out, h
    ensures out.present == old(out.present)
    ensures err == if |Concat(body.blocks)| > old(out.room) then Some(WriteFailed)
                   else if body.broken then Some(ReadFailed) else None
    ensures err != Some(WriteFailed) ==>
      && out.content == old(out.content) + Concat(body.blocks) && h.fed == old(h.fed) + Concat(body.blocks)
      && total == |Concat(body.blocks)| && out.room == old(out.room) - total
    ensures out.content <= old(out.content) + Concat(body.blocks)
  {
    total := 0;
    ghost var all := Concat(body.blocks);
    for k := 0 to |body.blocks|
      invariant out.present == old(out.present)
      invariant total == |Concat(body.blocks[..k])| && out.room == old(out.room) - total
      invariant out.content == old(out.content) + Concat(body.blocks[..k])
      invariant h.fed == old(h.fed) + Concat(body.blocks[..k])
    {
      var block := body.blocks[k];
      ConcatTake(body.blocks, k);
      if |block| > 0 {
        var ok := out.Write(block);
        if !ok {
          PartWritten(old(out.content), body.blocks, k, old(out.room) - total);
          return total, Some(WriteFailed);
        }
        h.Write(block);
        total := total + |block|;
      }
    }
    assert body.blocks[..|body.blocks|] == body.blocks;
    err := if body.broken then Some(ReadFailed) else None;
  }

  /** With part of a block written, the file still holds a prefix of what it should. */
  lemma PartWritten(held: seq<byte>, blocks: seq<seq<byte>>, k: nat, n: nat)
    requires k < |blocks| && n <= |blocks[k]|
    ensures (held + Concat(blocks[..k])) + blocks[k][..n] <= held + Concat(blocks)
  {
    ConcatSplit(blocks, k);
    assert blocks[k..][0] == blocks[k];
    assert Concat(blocks[k..])[..n] == blocks[k][..n];
  }

  /** What a request for a whole body is answered with. */
  datatype Served = Unserved | Served(status: int, body: Body)

  function Bytes(reply: Served): seq<byte> {
    if reply.Served? then Concat(reply.body.blocks) else []
  }

  /** The bytes of each reply. */
  function Bodies(replies: seq<Served>): (bodies: seq<seq<byte>>)
    ensures |bodies| == |replies|
  {
    seq(|replies|, i requires 0 <= i < |replies| => Bytes(replies[i]))
  }

  /** One segment: no reply, a reply other than 200, a broken body or a failing write ends the download. */
  method CopySegment(out: OutFile, h: Hasher, reply: Served) returns (n: nat, err: Option<Error>)
    modifies out, h
    ensures out.present == old(out.present) && (err.Some? ==> err != Some(NoSegments))
    ensures err.None? <==>
      reply.Served? && reply.status == 200 && !reply.body.broken && |Concat(reply.body.blocks)| <= old(out.room)
    ensures err.None? ==>
      && out.content == old(out.content) + Bytes(reply) && h.fed == old(h.fed) + Bytes(reply)
      && n == |Bytes(reply)| && out.room == old(out.room) - n
  {
    if reply.Unserved? {
      return 0, Some(RequestFailed);
    }
    if reply.status != 200 {
      return 0, Some(BadStatus);
    }
    n, err := CopyBody(out, h, reply.body);
  }

  /** Reply after reply into an empty file. */
  method CopyAll(out: OutFile, h: Hasher, replies: seq<Served>) returns (total: nat, err: Option<Error>)
    requires out.content == []
    modifies out, h
    ensures out.present == old(out.present) && err != Some(NoSegments)
    ensures err.None? <==>
      && (forall k | 0 <= k < |replies| ::
            replies[k].Served? && replies[k].status == 200 && !replies[k].body.broken)
      && |Concat(Bodies(replies))| <= old(out.room)
    ensures err.None? ==>
      && out.content == Concat(Bodies(replies)) && total == |out.content| && h.fed == old(h.fed) + out.content
  {
    total := 0;
    ghost var bodies := Bodies(replies);
    for k := 0 to |replies|
      invariant out.present == old(out.present)
      invariant out.content == Concat(bodies[..k]) && h.fed == old(h.fed) + out.content
      invariant total == |out.content| && out.room == old(out.room) - total
      invariant forall i | 0 <= i < k :: replies[i].Served? && replies[i].status == 200 && !replies[i].body.broken
    {
      ConcatTake(bodies, k);
      var n;
      n, err := CopySegment(out, h, replies[k]);
      if err.Some? {
        return total, err;
      }
      total := total + n;
    }
    assert bodies[..|replies|] == bodies;
    err := None;
  }

  /** The segments of a playlist, fetched in order into one file that is created first and closed at the end. */
  method CopySegments(out: OutFile, h: Hasher, replies: seq<Served>, creates: bool, closes: bool)
      returns (total: nat, err: Option<Error>)
    modifies out, h
    ensures err.None? <==>
      && |replies| > 0 && creates && closes
      && (forall k | 0 <= k < |replies| ::
            replies[k].Served? && replies[k].status == 200 && !replies[k].body.broken)
      && |Concat(Bodies(replies))| <= old(out.room)
    ensures err.None? ==>
      && out.present && out.content == Concat(Bodies(replies)) && total == |out.content|
      && h.fed == old(h.fed) + out.content
    ensures err == Some(NoSegments) <==> replies == []
    ensures replies == [] || !creates ==> out.present == old(out.present) && out.content == old(out.content)
  {
    if replies == [] {
      return 0, Some(NoSegments);
    }
    if !creates {
      return 0, Some(CreateFailed);
    }
    out.present, out.content := true, [];
    total, err := CopyAll(out, h, replies);
    if err.None? && !closes {
      err := Some(CloseFailed);
    }
  }

  /** A source that is not ranged is one reply copied whole. */
  method CopyStream(out: OutFile, h: Hasher, reply: Served, creates: bool, closes: bool)
      returns (total: nat, err: Option<Error>)
    modifies out, h
    ensures err.None? <==>
      && reply.Served? && reply.status == 200 && !reply.body.broken
      && creates && closes && |Concat(reply.body.blocks)| <= old(out.room)
    ensures err.None? ==>
      && out.present && out.content == Bytes(reply) && total == |out.content|
      && h.fed == old(h.fed) + out.content
    ensures reply.Unserved? || reply.status != 200 || !creates
      ==> out.present == old(out.present) && out.content == old(out.content)
  {
    if reply.Unserved? {
      return 0, Some(RequestFailed);
    }
    if reply.status != 200 {
      return 0, Some(BadStatus);
    }
    if !creates {
      return 0, Some(CreateFailed);
    }
    out.present, out.content := true, [];
    total, err := CopyBody(out, h, reply.body);
    if err.None? && !closes {
      err := Some(CloseFailed);
    }
  }

  /** A body of which `until` reads are made before the caller's context is found done. */
  function Interrupted(body: Body, until: Option<nat>): Body {
    if until.Some? && until.value <= |body.blocks| then Body(body.blocks[..until.value], true) else body
  }

  /** A local file, with the context looked at before every read; closing it is not looked at. */
  method CopyLocal(out: OutFile, h: Hasher, source: Option<Body>, creates: bool, until: Option<nat>)
      returns (total: nat, err: Option<Error>)
    modifies out, h
    ensures err.None? <==>
      && source.Some? && creates && !source.value.broken && !(until.Some? && until.value <= |source.value.blocks|)
      && |Concat(source.value.blocks)| <= old(out.room)
    ensures err.None? ==>
      && out.present && out.content == Concat(source.value.blocks) && total == |out.content|
      && h.fed == old(h.fed) + out.content
    ensures source.None? || !creates ==> out.present == old(out.present) && out.content == old(out.content)
    ensures source.Some? && creates ==> out.content <= Concat(source.value.blocks)
  {
    if source.None? {
      return 0, Some(OpenFailed);
    }
    if !creates {
      return 0, Some(CreateFailed);
    }
    var body := Interrupted(source.value, until);
    if until.Some? && until.value <= |source.value.blocks| {
      ConcatSplit(source.value.blocks, until.value);
    }
    out.present, out.content := true, [];
    total, err := CopyBody(out, h, body);
    if err == Some(ReadFailed) && body != source.value {
      err := Some(Cancelled);
    }
  }

  predicate Readable(part: Option<Body>) {
    part.Some? && !part.value.broken
  }

  /** The bytes of a part; an absent part counts as empty. */
  function PartBytes(part: Option<Body>): seq<byte> {
    if part.Some? then Concat(part.value.blocks) else []
  }

  method CopyPart(part: Option<Body>, out: OutFile, h: Hasher) returns (n: nat, ok: bool)
    modifies out, h
    ensures out.present == old(out.present)
    ensures ok <==> Readable(part) && |PartBytes(part)| <= old(out.room)
    ensures ok ==>
      && out.content == old(out.content) + PartBytes(part) && h.fed == old(h.fed) + PartBytes(part)
      && n == |PartBytes(part)| && out.room == old(out.room) - n
  {
    if part.None? {
      return 0, false;
    }
    var err;
    n, err := CopyBody(out, h, part.value);
    ok := err.None?;
  }

  /** Part after part into an empty file; a missing part ends it. */
  method CopyParts(parts: seq<Option<Body>>, out: OutFile, h: Hasher) returns (written: nat, ok: bool)
    requires out.content == []
    modifies out, h
    ensures out.present == old(out.present)
    ensures ok <==> (forall i | 0 <= i < |parts| :: Readable(parts[i])) && |Concat(Contained(parts))| <= old(out.room)
    ensures ok ==> out.content == Concat(Contained(parts)) && written == |out.content|
                   && h.fed == old(h.fed) + out.content
  {
    ghost var contents := Contained(parts);
    written := 0;
    for i := 0 to |parts|
      invariant out.present == old(out.present)
      invariant out.content == Concat(contents[..i]) && h.fed == old(h.fed) + out.content
      invariant written == |out.content| && out.room == old(out.room) - written
      invariant forall k | 0 <= k < i :: Readable(parts[k])
    {
      ConcatTake(contents, i);
      var n;
      n, ok := CopyPart(parts[i], out, h);
      if !ok {
        return;
      }
      written := written + n;
    }
    assert contents[..|parts|] == contents;
    ok := true;
  }

  /** The parts are copied into a new destination. A missing part, or a sum other than `total`, is an error. */
  method AssembleParts(parts: seq<Option<Body>>, total: int, out: OutFile, h: Hasher, creates: bool, closes: bool)
      returns (written: nat, ok: bool)
    modifies out, h
    ensures ok <==> creates && closes && (forall i | 0 <= i < |parts| :: Readable(parts[i]))
                    && |Concat(Contained(parts))| <= old(out.room) && |Concat(Contained(parts))| == total
    ensures ok ==> out.present && out.content == Concat(Contained(parts)) && written == total
                   && h.fed == old(h.fed) + out.content
    ensures !creates ==> out.present == old(out.present) && out.content == old(out.content)
  {
    if !creates {
      return 0, false;
    }
    out.present, out.content := true, [];
    written, ok := CopyParts(parts, out, h);
    ok := ok && closes && written == total;
  }

  /** The contents of the part files, in order; an absent file counts as empty. */
  function Contained(parts: seq<Option<Body>>): (contents: seq<seq<byte>>)
    ensures |contents| == |parts|
  {
    seq(|parts|, i requires 0 <= i < |parts| => PartBytes(parts[i]))
  }
}
