/** store.go and reserve.go as they run: the cursors, the segment list and the ledger updated in place, refining
    Log's values. */
module LogStore {
  import opened Ints
  import opened Log
  import opened LogWalk
  import opened LogCommit
  import opened LogOps
  import opened LogSafety
  import opened LogWrites
  import LogRuns
  import P = LogProgress

  lemma RetireKeepsSeg(s: St, i: nat, env: Env)
    requires i < |s.files|
    ensures var t := RetireRest(s, i, env).0;
            |t.files| == |s.files| && t.files[i].written == s.files[i].written && t.files[i].End() == s.files[i].End()
  {
    RetireRestFrozen(s, i, env);
    assert SameSeg(s.files[i], RetireRest(s, i, env).0.files[i]);
  }

  /** publishFullCommit once the segment's handle is open. */
  function FullWritten(s: St, i: nat, env: Env): (St, Err)
    requires i < |s.files|
  {
    var f := s.files[i];
    var ans := FullAns(f, env);
    var (s1, e) := Log.WriteHeader(Put(s, i, f.(hdr := FullHdr(f))), i, ans);
    if e != Nil then (Put(s1, i, f.(images := s1.files[i].images)).(strayed := s.strayed || TornWrite(s, ans)), e)
    else if s.policy != NoSync && !env.fullFlush(f.num) then (s1.(latched := true, strayed := true), IOErr)
    else (s1, Nil)
  }

  /** Cursor, counts and resident header put back; a header that tore stays in doubt. */
  function Retracted(s: St, i: nat, prevCursor: int, prevCount: int, torn: bool): St
    requires i < |s.files|
  {
    var f := s.files[i];
    s.(files := s.files[i := f.(committed := prevCount, hdr := f.hdr.(commitCur := prevCursor, committed := prevCount))],
       strayed := s.strayed || torn,
       commitOff := f.base + prevCursor - HEADER_SIZE,
       nCommitted := s.nCommitted - (f.committed - prevCount),
       committedTotal := s.committedTotal - (f.committed - prevCount))
  }

  lemma PersistCases(s: St, i: nat, perOp: bool, env: Env)
    requires i < |s.files|
    ensures var f := s.files[i];
            var (s1, e) := Log.WriteHeader(Put(s, i, f.(hdr := Log.Stamp(s, i))), i, env.persist(f.num));
            && |s1.files| == |s.files|
            && Persist(s, i, perOp, env) ==
               if e == Vanished then (s1, Nil)
               else if e != Nil then (Retracted(s1, i, f.hdr.commitCur, f.hdr.committed, TornWrite(s, env.persist(f.num))), e)
               else if perOp && !env.flush(f.num) then (s1.(latched := true), IOErr)
               else (s1, Nil)
  {
    WriteOutcome(Put(s, i, s.files[i].(hdr := Log.Stamp(s, i))), i, env.persist(s.files[i].num));
    hide Log.WriteHeader;
  }

  lemma NewSegIs(s: St, need: nat)
    ensures var h := Hdr(HEADER_SIZE, HEADER_SIZE, 0, 0);
            NewSeg(s, need) == Seg(s.nextNum, s.writeOff, 0, Max(s.segmentSize, need), 0, 0, h, [h], false, 0, [], [])
  {
  }

  lemma FullKeepsLength(s: St, i: nat, env: Env)
    requires i < |s.files|
    ensures |PublishFull(s, i, env).0.files| == |s.files|
  {
    PublishFullFrozen(s, i, env);
    hide PublishFull;
  }

  lemma PublishFullOpened(s: St, i: nat, env: Env)
    requires i < |s.files| && env.fullOpen(s.files[i].num) in {Opened, OpenedLatched}
    ensures var o := env.fullOpen(s.files[i].num);
            PublishFull(s, i, env) == FullWritten(s.(latched := s.latched || o == OpenedLatched), i, env)
  {
  }

  lemma FirstPastIs(segs: seq<Seg>, off: int, i: nat)
    requires i <= |segs| && (forall k | 0 <= k < i :: segs[k].End() <= off) && (i < |segs| ==> segs[i].End() > off)
    ensures FirstPast(segs, off) == i
  {
  }

  /** What one turn of the commit walk came to. */
  datatype Turn = Stop(e: Err) | Crossing | Quarantined

  class Store {
    var files: seq<Seg>
    var commitOff: int
    var headOff: int
    var writeOff: int
    var reserved: seq<Reservation>
    var nWritten: int
    var nCommitted: int
    var committedTotal: int
    var latched: bool
    ghost var strayed: bool
    var pendingCorrupt: nat
    var corruptions: nat
    var lostBytes: int
    var lostRecords: nat
    var lostSegments: nat
    var lastFrameAt: int
    var lastFrameEnd: int
    var diskBytes: int
    var unreclaimed: nat
    var nextNum: nat
    const segmentSize: nat
    const maxSegments: nat
    const policy: Policy
    var maxBytes: nat

    ghost function Model(): St
      reads this
    {
      St(files, commitOff, headOff, writeOff, reserved, nWritten, nCommitted, committedTotal, latched, strayed,
         pendingCorrupt, corruptions, lostBytes, lostRecords, lostSegments, lastFrameAt, lastFrameEnd,
         diskBytes, unreclaimed, nextNum, segmentSize, maxSegments, policy, maxBytes)
    }

    // ----- lookup

    /** fileForOffset: bisect for the first segment that extends past off. */
    method FileForOffset(off: int) returns (i: int)
      requires Ordered(files)
      ensures i == FileFor(files, off)
    {
      var lo, hi := 0, |files|;
      while lo < hi
        invariant 0 <= lo <= hi <= |files|
        invariant forall k | 0 <= k < lo :: files[k].End() <= off
        invariant forall k | hi <= k < |files| :: files[k].End() > off
      {
        var mid := (lo + hi) / 2;
        EndsAscend(files, mid);
        if files[mid].base + files[mid].size > off {
          hi := mid;
        } else {
          lo := mid + 1;
        }
      }
      FirstPastIs(files, off, lo);
      if lo < |files| && off >= files[lo].base {
        return lo;
      }
      return -1;
    }

    // ----- the ledger

    /** dropRetired: shift out what the cursor has passed. */
    method DropRetired()
      modifies this`reserved
      ensures Model() == Log.DropRetired(old(Model()))
    {
      var i := 0;
      while i < |reserved| && reserved[i].end <= commitOff
        invariant 0 <= i <= |reserved|
        invariant forall k | 0 <= k < i :: reserved[k].end <= commitOff
      {
        i := i + 1;
      }
      assert i == FirstUnretired(reserved, commitOff);
      reserved := reserved[i..];
    }

    /** findReserved: bisect the ledger for the entry ending at end. */
    method FindReserved(end: int) returns (i: nat, ok: bool)
      requires LedgerSorted(reserved, headOff)
      ensures ok <==> Names(reserved, end)
      ensures ok ==> i < |reserved| && reserved[i].end == end
    {
      var lo, hi := 0, |reserved|;
      while lo < hi
        invariant 0 <= lo <= hi <= |reserved|
        invariant forall k | 0 <= k < lo :: reserved[k].end < end
        invariant forall k | hi <= k < |reserved| :: reserved[k].end >= end
      {
        var mid := (lo + hi) / 2;
        EntriesAscend(reserved, headOff, mid);
        if reserved[mid].end < end {
          lo := mid + 1;
        } else {
          hi := mid;
        }
      }
      if lo < |reserved| && reserved[lo].end == end {
        return lo, true;
      }
      if lo < |reserved| {
        EntriesAscend(reserved, headOff, lo);
      }
      return 0, false;
    }

    /** Flagging the one entry that ends there is marking the ledger. */
    method MarkReserved(i: nat)
      requires LedgerSorted(reserved, headOff) && i < |reserved|
      modifies this`reserved
      ensures Model() == old(Model()).(reserved := MarkAcked(old(reserved), old(reserved)[i].end))
    {
      EntriesAscend(reserved, headOff, i);
      ghost var marked := MarkAcked(reserved, reserved[i].end);
      hide LedgerSorted;
      reserved := reserved[i := reserved[i].(acked := true)];
      assert reserved == marked;
    }

    /** ackedRunEnd: as far as acknowledged, adjoining entries reach from the commit cursor. */
    method AckedRunEnd() returns (at: int)
      ensures at == RunEnd(reserved, commitOff)
    {
      at := commitOff;
      var i := 0;
      assert reserved[0..] == reserved;
      while i < |reserved|
        invariant i <= |reserved|
        invariant RunEnd(reserved, commitOff) == RunEnd(reserved[i..], at)
      {
        assert reserved[i..][0] == reserved[i] && reserved[i..][1..] == reserved[i + 1..];
        if !reserved[i].acked || reserved[i].start != at {
          return;
        }
        at := reserved[i].end;
        i := i + 1;
      }
    }

    // ----- headers

    method WriteHeader(i: nat, ans: WriteAns) returns (e: Err)
      requires i < |files|
      modifies this`latched, this`files
      ensures (Model(), e) == Log.WriteHeader(old(Model()), i, ans)
      ensures |files| == |old(files)| && (ans != WriteGone ==> e != Vanished)
    {
      if latched {
        return IOErr;
      }
      match ans {
        case Wrote =>
          files := files[i := files[i].(images := files[i].images + [files[i].hdr])];
          return Nil;
        case WriteFailed =>
          return Retry;
        case WriteLatched =>
          files := files[i := files[i].(images := files[i].images + [files[i].hdr])];
          latched := true;
          return IOErr;
        case WriteGone =>
          files := files[i := files[i].(gone := true)];
          return Vanished;
        case ReopenLatched =>
          latched := true;
          return IOErr;
      }
    }

    /** header(setCommitCursor, setCommittedCount). */
    method Stamp(i: nat, cursor: int, count: int)
      requires i < |files|
      modifies this`files
      ensures var f := old(files)[i];
              files == old(files)[i := f.(hdr := f.hdr.(commitCur := cursor, committed := count))]
    {
      files := files[i := files[i].(hdr := files[i].hdr.(commitCur := cursor, committed := count))];
    }

    method RollBackCommit(i: nat, prevCursor: int, prevCount: int, ghost torn: bool)
      requires i < |files|
      modifies this`commitOff, this`nCommitted, this`committedTotal, this`strayed, this`files
      ensures Model() == Retracted(old(Model()), i, prevCursor, prevCount, torn)
    {
      ghost var back := Retracted(Model(), i, prevCursor, prevCount, torn);
      var f := files[i];
      var rolledBack := f.committed - prevCount;
      commitOff := f.base + prevCursor - HEADER_SIZE;
      nCommitted := nCommitted - rolledBack;
      committedTotal := committedTotal - rolledBack;
      files := files[i := f.(committed := prevCount, hdr := f.hdr.(commitCur := prevCursor, committed := prevCount))];
      strayed := strayed || torn;
      assert commitOff == back.commitOff && nCommitted == back.nCommitted && committedTotal == back.committedTotal;
    }

    /** persistCommit: a failed write puts cursor, counts and header back where the header on disk has them. */
    method PersistCommit(i: nat, perOp: bool, env: Env) returns (e: Err)
      requires i < |files|
      modifies this`commitOff, this`nCommitted, this`committedTotal, this`latched, this`strayed, this`files
      ensures (Model(), e) == Persist(old(Model()), i, perOp, env)
    {
      hide Log.WriteHeader;
      hide Persist;
      hide Retracted;
      PersistCases(Model(), i, perOp, env);
      ghost var torn := TornWrite(Model(), env.persist(files[i].num));
      var f := files[i];
      var prevCursor, prevCount := f.hdr.commitCur, f.hdr.committed;
      Stamp(i, HEADER_SIZE + Min(commitOff - f.base, f.size), f.committed);
      e := WriteHeader(i, env.persist(f.num));
      if e == Vanished {
        return Nil;
      }
      if e != Nil {
        RollBackCommit(i, prevCursor, prevCount, torn);
        return;
      }
      if perOp && !env.flush(f.num) {
        latched, e := true, IOErr;
      }
    }

    method PublishFullCommit(i: nat, env: Env) returns (e: Err)
      requires i < |files|
      modifies this`latched, this`strayed, this`files
      ensures (Model(), e) == PublishFull(old(Model()), i, env)
    {
      var f := files[i];
      var o := env.fullOpen(f.num);
      if o == Gone {
        files := files[i := f.(gone := true)];
        return Nil;
      }
      if o == OpenErr {
        return Retry;
      }
      latched := latched || o == OpenedLatched;
      hide PublishFull;
      PublishFullOpened(old(Model()), i, env);
      e := PublishOpened(i, env);
    }

    /** The segment's handle is open: the full header, or the resident fields back where they were. */
    method PublishOpened(i: nat, env: Env) returns (e: Err)
      requires i < |files|
      modifies this`latched, this`strayed, this`files
      ensures (Model(), e) == FullWritten(old(Model()), i, env)
    {
      hide Log.WriteHeader;
      WriteOutcome(Put(Model(), i, files[i].(hdr := FullHdr(files[i]))), i, FullAns(files[i], env));
      ghost var torn := TornWrite(Model(), FullAns(files[i], env));
      var f := files[i];
      var prevCursor, prevCount := f.hdr.commitCur, f.hdr.committed;
      Stamp(i, HEADER_SIZE + f.size, f.written);
      e := WriteHeader(i, FullAns(f, env));
      if e != Nil {
        Stamp(i, prevCursor, prevCount);
        strayed := strayed || torn;
        return;
      }
      if policy != NoSync && !env.fullFlush(f.num) {
        latched, strayed, e := true, true, IOErr;
      }
    }

    // ----- quarantine

    /** The damage stands at the commit cursor: the header first, then the advance it carries. */
    method RetireSegment(i: nat, env: Env) returns (e: Err)
      requires i < |files|
      modifies this`latched, this`strayed, this`files, this`commitOff, this`nCommitted, this`committedTotal
      ensures (Model(), e) == RetireRest(old(Model()), i, env)
    {
      hide PublishFull;
      FullKeepsLength(Model(), i, env);
      hide Abandoned;
      e := PublishFullCommit(i, env);
      if e == Nil {
        AbandonRest(i);
      }
    }

    method AbandonRest(i: nat)
      requires i < |files|
      modifies this`files, this`commitOff, this`nCommitted, this`committedTotal
      ensures Model() == Abandoned(old(Model()), i)
    {
      ghost var left := Abandoned(Model(), i);
      var f := files[i];
      var abandoned := f.written - f.committed;
      if abandoned > 0 {
        nCommitted := nCommitted + abandoned;
        committedTotal := committedTotal + abandoned;
        files := files[i := f.(committed := f.written)];
      } else {
        assert files[i := f] == files;
      }
      if commitOff < f.base + f.size {
        commitOff := f.base + f.size;
      }
      assert commitOff == left.commitOff && nCommitted == left.nCommitted && committedTotal == left.committedTotal;
    }

    /** Publish, then count, segment by segment. */
    method ForceCommitAll(env: Env) returns (e: Err)
      modifies this
      ensures (Model(), e) == ForceCommit(old(Model()), 0, env)
    {
      hide PublishFull;
      hide Squared;
      var i := 0;
      while i < |files|
        invariant i <= |files| == |old(files)|
        invariant ForceCommit(old(Model()), 0, env) == ForceCommit(Model(), i, env)
        decreases |old(files)| - i
      {
        if !(files[i].committed >= files[i].written && files[i].hdr.commitCur >= HEADER_SIZE + files[i].size) {
          FullKeepsLength(Model(), i, env);
          e := PublishFullCommit(i, env);
          if e != Nil {
            return;
          }
          Square(i);
        }
        assert |files| == |old(files)|;
        i := i + 1;
      }
      nCommitted := nWritten;
      e := Nil;
    }

    method Square(i: nat)
      requires i < |files|
      modifies this`files, this`nCommitted, this`committedTotal, this`commitOff, this`headOff
      ensures Model() == Squared(old(Model()), i) && |files| == |old(files)|
    {
      ghost var squared := Squared(Model(), i);
      var f := files[i];
      var abandoned := f.written - f.committed;
      if abandoned > 0 {
        nCommitted := nCommitted + abandoned;
        committedTotal := committedTotal + abandoned;
      }
      files := files[i := f.(committed := f.written)];
      commitOff := Max(commitOff, f.base + f.size);
      headOff := Max(headOff, commitOff);
      assert nCommitted == squared.nCommitted && committedTotal == squared.committedTotal && commitOff == squared.commitOff;
    }

    /** Everything from the read cursor to the tail given up. */
    method AbandonAll(env: Env) returns (e: Err)
      modifies this
      ensures (Model(), e) == Abandon(old(Model()), env)
    {
      hide ForceCommit;
      ghost var given := Abandon(Model(), env).0;
      var head := headOff;
      e := ForceCommitAll(env);
      if e != Nil {
        return;
      }
      corruptions := corruptions + 1;
      lostSegments := lostSegments + 1;
      if writeOff - head > 0 {
        lostBytes := lostBytes + (writeOff - head);
      }
      headOff := writeOff;
      if commitOff < writeOff {
        commitOff := writeOff;
      }
      assert commitOff == given.commitOff && lostBytes == given.lostBytes && headOff == given.headOff;
    }

    /** skipCorruptSegment: retired on the spot, left to the ledger, or everything given up. */
    method SkipCorruptSegment(off: int, env: Env) returns (e: Err)
      requires Ordered(files)
      modifies this
      ensures (Model(), e) == SkipCorrupt(old(Model()), off, env)
    {
      hide RetireRest;
      hide Log.DropRetired;
      hide Ordered;
      hide FileFor;
      hide SameShape;
      var i := FileForOffset(off);
      if i < 0 {
        e := AbandonAll(env);
        return;
      }
      RetireRestFrozen(Model(), i, env);
      RetireKeepsSeg(Model(), i, env);
      var end := files[i].base + files[i].size;
      if commitOff == off {
        e := RetireSegment(i, env);
        if e != Nil {
          return;
        }
      }
      BookLoss(end);
      if commitOff < end {
        DropRetired();
        reserved := reserved + [Reservation(off, end, true, true, files[i].written)];
      }
      return Nil;
    }

    /** Everything between the read cursor and end is destroyed, and counted. */
    method BookLoss(end: int)
      modifies this`lostBytes, this`lostSegments, this`headOff, this`corruptions
      ensures Model() == old(Model()).(
                lostBytes := old(lostBytes) + Max(end - old(headOff), 0),
                lostSegments := old(lostSegments) + (if end > old(headOff) then 1 else 0),
                headOff := Max(old(headOff), end),
                corruptions := old(corruptions) + 1)
    {
      var lost := end - headOff;
      if lost > 0 {
        lostBytes := lostBytes + lost;
        lostSegments := lostSegments + 1;
      }
      if headOff < end {
        headOff := end;
      }
      corruptions := corruptions + 1;
    }

    // ----- the commit walk

    /** frameEnd: the boundary the read just handed over, or a decode. */
    method FrameEndAt(i: nat, env: Env) returns (b: Boundary)
      requires i < |files|
      ensures b == FrameEnd(Model(), files[i], env)
    {
      if lastFrameEnd != 0 && lastFrameAt == commitOff {
        return End(lastFrameEnd);
      }
      return Decode(files[i], commitOff, env.frame(commitOff));
    }

    /** The cursor moves and n records are counted committed, in the segment and in the store. */
    method Advance(i: nat, next: int, n: int)
      requires i < |files|
      modifies this`commitOff, this`nCommitted, this`committedTotal, this`files
      ensures Model() == Crossed(old(Model()), i, next, n)
    {
      commitOff := next;
      nCommitted := nCommitted + n;
      committedTotal := committedTotal + n;
      files := files[i := files[i].(committed := files[i].committed + n)];
    }

    /** One turn of commitDurable's loop, from the reservation check on. */
    method CrossRecord(i: nat, entry: Entry, off: int, ghost cur: int, env: Env) returns (t: Turn)
      requires Ordered(files) && i < |files| && FileFor(files, commitOff) == i && entry == EntryHere(Model())
      modifies this
      ensures var r := Cross(old(Model()), i, off, cur, env);
              match t
              case Stop(e) => r == Halt(Model(), cur, e)
              case Crossing => r == Go(Model(), i)
              case Quarantined => r == Go(Model(), -1)
    {
      hide SkipCorrupt;
      hide EntryHere;
      hide FrameEnd;
      hide Crossed;
      hide Ordered;
      hide FileFor;
      hide Max;
      if entry.EntryAt? && entry.r.corrupt {
        if entry.r.end > off {
          return Stop(Nil);
        }
        Advance(i, entry.r.end, Max(entry.r.written - files[i].committed, 0));
        return Crossing;
      }
      var o := env.open(commitOff);
      latched := latched || o == OpenedLatched;
      if latched {
        return Stop(IOErr);
      }
      if o == OpenErr {
        return Stop(Retry);
      }
      hide CrossBy;
      var b := NoBoundary;
      if o != Gone {
        b := FrameEndAt(i, env);
      } else if entry.EntryAt? {
        b := End(entry.r.end);
      }
      t := CrossFrame(i, b, off, cur, env);
    }

    /** The same, once the frame has been looked for. */
    method CrossFrame(i: nat, b: Boundary, off: int, ghost cur: int, env: Env) returns (t: Turn)
      requires Ordered(files) && i < |files| && FileFor(files, commitOff) == i
      modifies this
      ensures var r := CrossBy(old(Model()), i, off, cur, b, env);
              match t
              case Stop(e) => r == Halt(Model(), cur, e)
              case Crossing => r == Go(Model(), i)
              case Quarantined => r == Go(Model(), -1)
    {
      hide SkipCorrupt;
      hide Crossed;
      hide Ordered;
      hide FileFor;
      if b.BoundaryErr? {
        return Stop(Retry);
      }
      if b.NoBoundary? || !(commitOff < b.next <= writeOff) {
        if off < files[i].base + files[i].size {
          return Stop(ErrCorrupt);
        }
        var e := SkipCorruptSegment(commitOff, env);
        if e != Nil {
          return Stop(e);
        }
        pendingCorrupt := pendingCorrupt + 1;
        return Quarantined;
      }
      if b.next > off {
        return Stop(Nil);
      }
      Advance(i, b.next, 1);
      return Crossing;
    }

    // ----- reclamation

    /** dropCommitted: a prefix goes, whatever is pinned or will not unlink stays in front of the rest. */
    method DropCommitted(keep: int, env: Env)
      modifies this`files, this`lastFrameAt, this`lastFrameEnd, this`nWritten, this`nCommitted, this`diskBytes, this`unreclaimed
      ensures Model() == Log.DropCommitted(old(Model()), keep, env)
    {
      hide Reclaim;
      hide Log.DropCommitted;
      DropUnfolds(Model(), keep, env);
      if |files| == 0 || keep == 0 || files[0].End() > commitOff {
        return;
      }
      lastFrameAt, lastFrameEnd := 0, 0;
      ReclaimPrefix(keep, env);
    }

    method ReclaimPrefix(keep: int, env: Env)
      modifies this`files, this`nWritten, this`nCommitted, this`diskBytes, this`unreclaimed
      ensures unreclaimed >= old(unreclaimed)
      ensures Reclaim(old(files), commitOff, keep, env) ==
              Reclaimed(files, old(nWritten) - nWritten, old(nCommitted) - nCommitted, old(diskBytes) - diskBytes,
                        unreclaimed - old(unreclaimed))
    {
      hide Reclaim;
      hide SoFar;
      ghost var all := Reclaim(files, commitOff, keep, env);
      var survive: seq<Seg> := [];
      var i := 0;
      SoFarStarts(files, commitOff, keep, env);
      while i < |files|
        invariant 0 <= i <= |files| && files == old(files) && unreclaimed >= old(unreclaimed)
        invariant SoFar(all, survive, old(nWritten) - nWritten, old(nCommitted) - nCommitted, old(diskBytes) - diskBytes,
                        unreclaimed - old(unreclaimed), Reclaim(files[i..], commitOff, keep - i, env))
      {
        var df := files[i];
        SoFarSteps(all, survive, old(nWritten) - nWritten, old(nCommitted) - nCommitted, old(diskBytes) - diskBytes,
                   unreclaimed - old(unreclaimed), files, i, commitOff, keep - i, env);
        if i == keep || df.base + df.size > commitOff {
          break;
        }
        if df.pins > 0 {
          survive := survive + [df];
        } else if !env.unlink(df.num) {
          unreclaimed := unreclaimed + 1;
          survive := survive + [df];
        } else {
          nWritten := nWritten - df.written;
          nCommitted := nCommitted - df.committed;
          diskBytes := diskBytes - (HEADER_SIZE + df.capacity);
        }
        i := i + 1;
      }
      SoFarEnds(all, survive, old(nWritten) - nWritten, old(nCommitted) - nCommitted, old(diskBytes) - diskBytes,
                unreclaimed - old(unreclaimed), files, i, commitOff, keep - i, env);
      files := survive + files[i..];
    }

    // ----- commitDurable

    /** The segment the cursor is in: the one carried along, unless the cursor has left it. */
    method Carried(df: int) returns (i: int)
      requires Ordered(files) && -1 <= df < |files|
      ensures i == FileFor(files, commitOff)
    {
      if df < 0 || commitOff < files[df].base || commitOff >= files[df].base + files[df].size {
        i := FileForOffset(commitOff);
      } else {
        OwnerIsUnique(files, df, commitOff);
        i := df;
      }
    }

    /** The ledger's entry at the cursor, carried forward rather than searched for. */
    method NextReserved(from: nat) returns (i: nat, entry: Entry)
      requires from <= |reserved| && forall k | 0 <= k < from :: reserved[k].end <= commitOff
      ensures from <= i <= |reserved| && forall k | 0 <= k < i :: reserved[k].end <= commitOff
      ensures entry == EntryHere(Model())
    {
      i := from;
      while i < |reserved| && reserved[i].end <= commitOff
        invariant from <= i <= |reserved|
        invariant forall k | 0 <= k < i :: reserved[k].end <= commitOff
      {
        i := i + 1;
      }
      assert i == FirstUnretired(reserved, commitOff);
      entry := if i < |reserved| && reserved[i].start == commitOff then EntryAt(reserved[i]) else NoEntry;
    }

    /** commitDurable's loop. */
    method WalkTo(off: int, perOp: bool, env: Env) returns (cur: int, stop: Err)
      requires Ordered(files)
      modifies this
      ensures Ordered(files) && -1 <= cur < |files|
      ensures Walk(old(Model()), off, perOp, -1, env) == Halt(Model(), cur, stop)
    {
      hide Persist;
      hide Cross;
      hide EntryHere;
      hide Ordered;
      hide FileFor;
      hide SameShape;
      ghost var s0 := Model();
      cur, stop := -1, Nil;
      var reservedIndex: nat := 0;
      var df := -1;
      while commitOff < off
        invariant Ordered(files) && -1 <= cur < |files| && -1 <= df < |files| && stop == Nil
        invariant reservedIndex <= |reserved| && forall k | 0 <= k < reservedIndex :: reserved[k].end <= commitOff
        invariant Walk(s0, off, perOp, -1, env) == Walk(Model(), off, perOp, cur, env)
        decreases off - commitOff
      {
        ghost var s, c := Model(), cur;
        df := Carried(df);
        StepFrozen(s, off, perOp, c, env);
        ghost var step := WalkStep(s, off, perOp, c, env);
        if df < 0 {
          stop := ErrCorrupt;
          break;
        }
        if cur >= 0 && cur != df {
          var previous := cur;
          cur := -1;
          PersistFrozen(s, previous, perOp, env);
          stop := PersistCommit(previous, perOp, env);
          ShapeKeepsOrder(s.files, files);
          SameSegs(s.files, files);
          if stop != Nil {
            break;
          }
          SameLookup(s.files, files, commitOff);
        }
        var entry: Entry;
        reservedIndex, entry := NextReserved(reservedIndex);
        var t := CrossRecord(df, entry, off, cur, env);
        FrozenShape(s, Model());
        match t {
          case Stop(e) =>
            stop := e;
            break;
          case Crossing => cur := df;
          case Quarantined => cur := -1;
        }
      }
    }

    /** commitDurable. */
    method CommitDurable(off: int, durable: bool, env: Env) returns (e: Err)
      requires Ordered(files)
      modifies this
      ensures (Model(), e) == LogCommit.CommitDurable(old(Model()), off, durable, env)
    {
      hide Ordered;
      hide Walk;
      hide CommitEnd;
      if latched {
        return IOErr;
      }
      if off <= commitOff {
        return Nil;
      }
      var perOp := durable && policy == PerOp;
      var before := commitOff;
      var cur, stop := WalkTo(Min(off, writeOff), perOp, env);
      e := FinishCommit(before, cur, stop, durable, perOp, env);
    }

    /** What follows the loop: the last header, then, if anything moved, the tick, the drag and the reclaim. */
    method FinishCommit(before: int, cur: int, stop: Err, durable: bool, perOp: bool, env: Env) returns (e: Err)
      requires -1 <= cur < |files|
      modifies this
      ensures (Model(), e) == CommitEnd(before, Halt(old(Model()), cur, stop), durable, perOp, env)
    {
      hide Persist;
      hide Settle;
      e := stop;
      if cur >= 0 {
        var perr := PersistCommit(cur, perOp, env);
        if stop == Nil {
          e := perr;
        }
      }
      if commitOff == before {
        return;
      }
      e := SettleCommit(durable, e, env);
    }

    method SettleCommit(durable: bool, stop: Err, env: Env) returns (e: Err)
      modifies this
      ensures (Model(), e) == Settle(old(Model()), durable, stop, env)
    {
      hide Log.DropCommitted;
      hide Max;
      hide Ticked;
      var terr := Tick(durable, env);
      e := if stop == Nil then terr else stop;
      headOff := Max(headOff, commitOff);
      DropCommitted(|files| - 1, env);
    }

    /** recordOp under a batched policy: a tick that may flush. */
    method Tick(durable: bool, env: Env) returns (e: Err)
      modifies this`latched
      ensures (Model(), e) == Ticked(old(Model()), durable, env)
    {
      if !durable || policy != Batched || env.tick == TickOk {
        return Nil;
      }
      if env.tick == TickLatched {
        latched := true;
        return IOErr;
      }
      return Retry;
    }

    // ----- acknowledging

    method CommitAckedRun(durable: bool, env: Env) returns (e: Err)
      requires Ordered(files)
      modifies this
      ensures (Model(), e) == LogOps.CommitAckedRun(old(Model()), durable, env)
    {
      hide Ordered;
      hide LogCommit.CommitDurable;
      hide Log.DropRetired;
      if latched {
        return IOErr;
      }
      var target := AckedRunEnd();
      if target <= commitOff {
        return Nil;
      }
      e := CommitDurable(target, durable, env);
      DropRetired();
    }

    method RetireFrame(start: int, end: int, durable: bool, env: Env) returns (e: Err)
      requires Ordered(files)
      modifies this
      ensures (Model(), e) == LogOps.RetireFrame(old(Model()), start, end, durable, env)
    {
      hide Ordered;
      hide LogOps.CommitAckedRun;
      hide Log.DropRetired;
      DropRetired();
      reserved := reserved + [Reservation(start, end, true, false, 0)];
      e := CommitAckedRun(durable, env);
    }

    /** Ack, and ackTo under it. */
    method Ack(end: int, env: Env) returns (found: bool, e: Err)
      requires Ordered(files) && LedgerSorted(reserved, headOff)
      modifies this
      ensures (Model(), found, e) == LogOps.Ack(old(Model()), end, env)
    {
      hide Ordered;
      hide LogOps.CommitAckedRun;
      hide LedgerSorted;
      hide Names;
      if end > headOff {
        return false, Nil;
      }
      if latched {
        return true, IOErr;
      }
      SortedSuffix(reserved, FirstUnretired(reserved, commitOff), headOff);
      DropRetired();
      if end <= commitOff {
        return true, Nil;
      }
      var i, ok := FindReserved(end);
      if !ok {
        return false, Nil;
      }
      MarkReserved(i);
      e := CommitAckedRun(true, env);
      found := true;
    }

    /** AckBatch: one bad offset is remembered, the rest are marked, one commit follows. */
    method AckBatch(ends: seq<int>, env: Env) returns (valid: bool, e: Err)
      requires Ordered(files) && LedgerSorted(reserved, headOff)
      modifies this
      ensures (Model(), valid, e) == LogOps.AckBatch(old(Model()), ends, env)
    {
      hide Ordered;
      hide LogOps.CommitAckedRun;
      hide LedgerSorted;
      hide Names;
      if latched {
        return true, IOErr;
      }
      SortedSuffix(reserved, FirstUnretired(reserved, commitOff), headOff);
      DropRetired();
      valid := MarkOffsets(ends);
      e := CommitAckedRun(true, env);
    }

    method MarkOffsets(ends: seq<int>) returns (valid: bool)
      requires LedgerSorted(reserved, headOff)
      modifies this`reserved
      ensures (Model(), valid) == MarkAll(old(Model()), ends)
    {
      hide LedgerSorted;
      hide Names;
      valid := true;
      var k := 0;
      assert ends[0..] == ends;
      ghost var s := Model();
      while k < |ends|
        invariant 0 <= k <= |ends| && LedgerSorted(reserved, headOff)
        invariant MarkAll(s, ends).0 == MarkAll(Model(), ends[k..]).0
        invariant MarkAll(s, ends).1 == (valid && MarkAll(Model(), ends[k..]).1)
      {
        var off := ends[k];
        assert ends[k..][0] == off && ends[k..][1..] == ends[k + 1..];
        if off > headOff {
          valid := false;
        } else if off > commitOff {
          var i, ok := FindReserved(off);
          if ok {
            LogRuns.MarkedSorted(reserved, off, headOff);
            MarkReserved(i);
          } else {
            valid := false;
          }
        }
        k := k + 1;
      }
    }

    /** trackReserve: the record just read enters the ledger. */
    method TrackReserve()
      modifies this`reserved
      ensures Model() == Track(old(Model()), Reservation(lastFrameAt, lastFrameEnd, false, false, 0))
    {
      hide Log.DropRetired;
      DropRetired();
      reserved := reserved + [Reservation(lastFrameAt, lastFrameEnd, false, false, 0)];
    }

    /** rewindToCommit. */
    method Rewind() returns (n: int)
      modifies this`headOff, this`reserved
      ensures Model() == LogOps.Rewind(old(Model())) && n == old(headOff) - commitOff
    {
      n := headOff - commitOff;
      headOff := commitOff;
      reserved := [];
    }

    // ----- writing

    /** publishSpan: the cursors advance before the header is written and come back if it is not. */
    method PublishSpan(lens: seq<nat>, ans: WriteAns) returns (e: Err)
      modifies this`files, this`writeOff, this`nWritten, this`latched
      ensures (Model(), e) == LogOps.PublishSpan(old(Model()), lens, ans)
    {
      hide Log.WriteHeader;
      hide Lengthened;
      hide Shortened;
      hide EndsAfter;
      if |files| == 0 || files[|files| - 1].gone {
        return Retry;
      }
      var i := |files| - 1;
      var f := files[i];
      var torn := if !latched && ans == WriteLatched then EndsAfter(f.size, lens) else f.torn;
      Extend(lens);
      e := WriteHeader(i, ans);
      if e != Nil {
        UnpublishSpan(f, lens, torn);
      }
    }

    /** The span moves into the published extent, in memory. */
    method Extend(lens: seq<nat>)
      requires files != []
      modifies this`files, this`writeOff, this`nWritten
      ensures |files| == |old(files)| && Model() == Lengthened(old(Model()), lens)
    {
      hide Grown;
      var i := |files| - 1;
      files := files[i := Grown(files[i], lens)];
      writeOff := writeOff + SumLens(lens);
      nWritten := nWritten + |lens|;
    }

    /** unpublishSpan: f is the segment as it stood before. */
    method UnpublishSpan(f: Seg, lens: seq<nat>, torn: seq<int>)
      requires files != []
      modifies this`files, this`writeOff, this`nWritten
      ensures Model() == Shortened(old(Model()), f, lens, torn)
    {
      var i := |files| - 1;
      files := files[i := f.(gone := files[i].gone, images := files[i].images, torn := torn)];
      writeOff := writeOff - SumLens(lens);
      nWritten := nWritten - |lens|;
    }

    /** cycle: reclaim, the active file included, and start a new one. */
    method Cycle(need: nat, force: bool, a: AppendEnv) returns (e: Err)
      modifies this
      ensures (Model(), e) == LogOps.Cycle(old(Model()), need, force, a)
    {
      hide Log.DropCommitted;
      hide LogOps.StartSegment;
      DropCommitted(-1, a.drop);
      if !force && maxSegments > 0 && |files| >= maxSegments {
        return Full;
      }
      e := StartSegment(need, a.create);
    }

    /** createFile, and the new segment at the end of the list. */
    method StartSegment(need: nat, ans: CreateAns) returns (e: Err)
      modifies this`files, this`nextNum, this`diskBytes, this`latched
      ensures (Model(), e) == LogOps.StartSegment(old(Model()), need, ans)
    {
      hide NewSeg;
      if ans == CreateFailed {
        return Retry;
      }
      var h := Hdr(HEADER_SIZE, HEADER_SIZE, 0, 0);
      var f := Seg(nextNum, writeOff, 0, Max(segmentSize, need), 0, 0, h, [h], false, 0, [], []);
      NewSegIs(Model(), need);
      files := files + [f];
      nextNum := nextNum + 1;
      diskBytes := diskBytes + HEADER_SIZE + f.capacity;
      latched := latched || ans == CreatedLatched;
      e := if latched then IOErr else Nil;
    }

    /** admitRecord: the platform's limit binds always, the byte cap unless forced. */
    method AdmitRecord(len: nat, force: bool, addressable: bool) returns (e: Err)
      ensures e == Admit(Model(), len, force, addressable)
    {
      if !addressable {
        return TooLarge;
      }
      if !force && maxBytes > 0 {
        if len > maxBytes {
          return TooLarge;
        }
        if writeOff - commitOff + len > maxBytes {
          return Full;
        }
      }
      e := Nil;
    }

    /** What follows the cycle in appendRecord. */
    method WriteOut(len: nat, a: AppendEnv) returns (e: Err)
      requires !latched
      modifies this`files, this`writeOff, this`nWritten, this`latched
      ensures (Model(), e) == LogOps.WriteOut(old(Model()), len, a)
    {
      hide LogOps.PublishSpan;
      if a.opens == OpenErr || a.opens == Gone {
        return Retry;
      }
      latched := a.opens == OpenedLatched;
      if latched {
        return IOErr;
      }
      if !a.wrote {
        return Retry;
      }
      if policy == PerOp && !a.dataSync {
        latched := true;
        return IOErr;
      }
      e := PublishSpan([len], a.header);
      if e == Nil {
        e := FlushAppend(a);
      }
    }

    /** The fsync the policy asks for: none, the batched tick, or the header's. */
    method FlushAppend(a: AppendEnv) returns (e: Err)
      modifies this`latched
      ensures (Model(), e) == Flushed(old(Model()), a)
    {
      if policy == NoSync {
        return Nil;
      }
      if policy == Batched {
        if a.tick == TickOk {
          return Nil;
        }
        if a.tick == TickRetry {
          return Retry;
        }
      } else if a.headerSync {
        return Nil;
      }
      latched := true;
      e := IOErr;
    }

    /** appendRecord; force is Requeue's exemption from the caps. */
    method AppendRecord(len: nat, force: bool, a: AppendEnv) returns (e: Err)
      modifies this
      ensures (Model(), e) == Append(old(Model()), len, force, a)
    {
      hide LogOps.Cycle;
      hide LogOps.WriteOut;
      hide Admit;
      if latched {
        return IOErr;
      }
      e := AdmitRecord(len, force, a.addressable);
      if e != Nil {
        return;
      }
      if |files| == 0 || files[|files| - 1].size + len > files[|files| - 1].capacity {
        e := Cycle(len, force, a);
        if e != Nil {
          return;
        }
        CycledUnlatched(old(Model()), len, force, a);
      }
      e := WriteOut(len, a);
    }

    // ----- reading

    method QuarantineHead(env: Env) returns (d: Taken)
      requires Ordered(files)
      modifies this
      ensures (Model(), d) == LogOps.QuarantineHead(old(Model()), env)
    {
      hide Ordered;
      hide SkipCorrupt;
      var head := headOff;
      var e := SkipCorruptSegment(head, env);
      d := if e == Nil then Reported(Nil) else if headOff == head then Refused(e) else Reported(e);
    }

    method DropFrame(next: int, env: Env) returns (d: Taken)
      requires Ordered(files)
      modifies this
      ensures (Model(), d) == LogOps.DropFrame(old(Model()), next, env)
    {
      hide Ordered;
      hide LogOps.RetireFrame;
      var head := headOff;
      lostBytes := lostBytes + next - head;
      lostRecords := lostRecords + 1;
      corruptions := corruptions + 1;
      headOff := next;
      var e := RetireFrame(head, next, false, env);
      d := Reported(e);
    }

    method TakeHead(env: Env) returns (d: Taken)
      requires Ordered(files)
      modifies this
      ensures (Model(), d) == LogOps.TakeHead(old(Model()), env)
    {
      hide Ordered;
      hide FileFor;
      hide LogOps.QuarantineHead;
      hide LogOps.DropFrame;
      if pendingCorrupt > 0 {
        pendingCorrupt := pendingCorrupt - 1;
        return Reported(Nil);
      }
      if headOff >= writeOff {
        return Empty;
      }
      var i := FileForOffset(headOff);
      if i < 0 || env.headOpen == Gone {
        d := QuarantineHead(env);
        return;
      }
      if env.headOpen == OpenErr {
        return Refused(Retry);
      }
      latched := latched || env.headOpen == OpenedLatched;
      var b := Decode(files[i], headOff, env.headFrame);
      if b.BoundaryErr? {
        return Refused(Retry);
      }
      if b.NoBoundary? {
        d := QuarantineHead(env);
        return;
      }
      if !env.sumOK {
        d := DropFrame(b.next, env);
        return;
      }
      lastFrameAt, lastFrameEnd, headOff := headOff, b.next, b.next;
      d := Delivered(lastFrameAt, lastFrameEnd);
    }

    method TryReserve(env: Env) returns (d: Taken)
      requires Ordered(files)
      modifies this
      ensures (Model(), d) == LogOps.TryReserve(old(Model()), env)
    {
      hide Ordered;
      hide LogOps.TakeHead;
      hide Track;
      d := TakeHead(env);
      if d.Delivered? {
        TrackReserve();
      }
    }

    method Skip(take: Env, retire: Env) returns (d: Taken, e: Err)
      requires Ordered(files)
      modifies this
      ensures (Model(), d, e) == LogOps.Skip(old(Model()), take, retire)
    {
      hide Ordered;
      hide LogOps.TakeHead;
      hide LogOps.RetireFrame;
      DeliveredKeepsFiles(Model(), take);
      d := TakeHead(take);
      e := Nil;
      if d.Delivered? {
        e := RetireFrame(lastFrameAt, lastFrameEnd, true, retire);
      }
    }

    /** Requeue: the copy goes to the tail before the head is retired; a refused append puts the head back. */
    method Requeue(take: Env, a: AppendEnv, retire: Env) returns (d: Taken, appended: Err, retired: Err)
      requires Placed(files, writeOff) && 0 <= writeOff
      modifies this
      ensures (Model(), d, appended, retired) == LogOps.Requeue(old(Model()), take, a, retire)
    {
      hide Ordered;
      hide LogOps.TakeHead;
      hide Append;
      hide LogOps.RetireFrame;
      appended, retired := Nil, Nil;
      RequeueKeepsOrder(Model(), take, a);
      var head := headOff;
      d := TakeHead(take);
      if !d.Delivered? {
        return;
      }
      appended := AppendRecord(d.next - d.at, true, a);
      if appended != Nil {
        headOff := Min(headOff, head);
        return;
      }
      retired := RetireFrame(d.at, d.next, true, retire);
    }

    /** next, the iterators' step: damage already dropped is passed over, everything else stops it, and it ends. */
    method Next(end: int, takes: nat -> Env, commit: Env) returns (y: Yield, ghost reports: nat)
      requires Inv(Model()) && end <= writeOff
      modifies this
      ensures Inv(Model()) && writeOff == old(writeOff)
      ensures reports + (if y.Item? then 1 else 0) <= Measure(old(Model())) - Measure(Model())
      ensures corruptions - old(corruptions) == pendingCorrupt - old(pendingCorrupt) + reports
      ensures y.Done? ==> headOff >= end && pendingCorrupt == 0
      ensures y.Item? ==> y.at < y.next == headOff
      ensures headOff - old(headOff) >= lostBytes - old(lostBytes)
      ensures !y.Failed? ==> headOff - old(headOff) == (if y.Item? then y.next - y.at else 0) + lostBytes - old(lostBytes)
      ensures Smooth(old(Model()), end, takes(0), commit) ==> y == Item(old(headOff), headOff) && commitOff == headOff
    {
      hide Inv;
      hide Measure;
      hide LogOps.TakeHead;
      hide LogCommit.CommitDurable;
      hide Smooth;
      reports := 0;
      var k := 0;
      ghost var s := Model();
      while true
        invariant Inv(Model()) && writeOff == s.writeOff
        invariant headOff - s.headOff == lostBytes - s.lostBytes
        invariant reports <= Measure(s) - Measure(Model())
        invariant corruptions - s.corruptions == pendingCorrupt - s.pendingCorrupt + reports
        invariant Smooth(s, end, takes(0), commit) ==> k == 0 && Model() == s
        decreases Measure(Model())
      {
        InvBounds(Model());
        SmoothTurn(s, end, takes(0), commit);
        if headOff >= end && pendingCorrupt == 0 {
          return Done, reports;
        }
        var head, pending := headOff, pendingCorrupt;
        TookFacts(Model(), takes(k));
        var d := TakeHead(takes(k));
        InvBounds(Model());
        k := k + 1;
        if d.Reported? && (headOff != head || pendingCorrupt != pending) {
          reports := reports + 1;
          continue;
        }
        if !d.Delivered? {
          return if d.Empty? then Done else Failed(if d.Refused? then d.e else ErrCorrupt), reports;
        }
        CommitTook(Model(), d.next, commit);
        var e := CommitDurable(d.next, true, commit);
        if e != Nil {
          return Failed(e), reports;
        }
        return Item(d.at, d.next), reports;
      }
    }
  }

  /** Nothing is owed or out, something is left before end, and the first turn meets no failure. */
  ghost predicate Smooth(s: St, end: int, take: Env, commit: Env) {
    P.Rested(s) && s.headOff < end <= s.writeOff && P.TurnMeets(s, take, commit)
  }

  lemma SmoothTurn(s: St, end: int, take: Env, commit: Env)
    ensures Smooth(s, end, take, commit) ==>
              var (t, d) := LogOps.TakeHead(s, take);
              && s.headOff < end && d.Delivered? && d.at == s.headOff
              && var (u, e) := LogCommit.CommitDurable(t, d.next, true, commit);
                 e == Nil && u.commitOff == u.headOff == d.next
  {
    hide LogOps.TakeHead;
    hide LogCommit.CommitDurable;
    if Smooth(s, end, take, commit) {
      var next := P.TurnDelivers(s, take, commit);
    }
  }

  datatype Yield = Item(at: int, next: int) | Done | Failed(e: Err)

  lemma CycledUnlatched(s: St, need: nat, force: bool, a: AppendEnv)
    requires LogOps.Cycle(s, need, force, a).1 == Nil
    ensures !LogOps.Cycle(s, need, force, a).0.latched
  {
    hide Log.DropCommitted;
  }

  lemma RequeueKeepsOrder(s: St, take: Env, a: AppendEnv)
    requires Placed(s.files, s.writeOff) && 0 <= s.writeOff
    ensures var (t, d) := LogOps.TakeHead(s, take);
            d.Delivered? ==> d.next > d.at && Ordered(Append(t, d.next - d.at, true, a).0.files)
  {
    hide LogOps.TakeHead;
    hide Append;
    DeliveredKeepsFiles(s, take);
    var (t, d) := LogOps.TakeHead(s, take);
    if d.Delivered? {
      AppendPlaced(t, d.next - d.at, true, a);
    }
  }

  lemma DeliveredKeepsFiles(s: St, env: Env)
    ensures var (t, d) := LogOps.TakeHead(s, env);
            d.Delivered? ==> d.at < d.next && t.files == s.files && t.writeOff == s.writeOff
  {
    hide SkipCorrupt;
    hide LogOps.RetireFrame;
  }

  lemma InvBounds(s: St)
    requires Inv(s)
    ensures Ordered(s.files) && s.commitOff <= s.headOff <= s.writeOff && Measure(s) >= 0
  {
  }

  lemma TookFacts(s: St, env: Env)
    requires Inv(s)
    ensures var (t, d) := LogOps.TakeHead(s, env);
            && Inv(t) && t.writeOff == s.writeOff
            && t.corruptions - s.corruptions == t.pendingCorrupt - s.pendingCorrupt + Answers(d)
            && Measure(t) <= Measure(s) && (d.Delivered? || d.Reported? ==> Measure(t) < Measure(s))
            && t.headOff - s.headOff == Bytes(d) + t.lostBytes - s.lostBytes
            && (d.Reported? ==> t.headOff != s.headOff || t.pendingCorrupt != s.pendingCorrupt)
            && (d.Empty? ==> t == s && s.headOff == s.writeOff && s.pendingCorrupt == 0)
            && (d.Delivered? ==> d.at == s.headOff && d.at < d.next == t.headOff)
  {
    hide Inv;
    hide LogOps.TakeHead;
    TakeHeadKeeps(s, env, {});
  }

  lemma CommitTook(s: St, off: int, env: Env)
    requires Inv(s) && off <= s.headOff
    ensures var t := LogCommit.CommitDurable(s, off, true, env).0;
            && Inv(t) && t.writeOff == s.writeOff && t.headOff == s.headOff && t.lostBytes == s.lostBytes && Measure(t) <= Measure(s)
            && t.corruptions - s.corruptions == t.pendingCorrupt - s.pendingCorrupt
  {
    CommitKeepsInv(s, off, true, env);
    hide LogCommit.CommitDurable;
  }

  lemma DropUnfolds(s: St, keep: int, env: Env)
    ensures var t := Log.DropCommitted(s, keep, env);
            if s.files == [] || keep == 0 || s.files[0].End() > s.commitOff then t == s
            else
              var r := Reclaim(s.files, s.commitOff, keep, env);
              && t.files == r.files && t.lastFrameAt == t.lastFrameEnd == 0
              && t.nWritten == s.nWritten - r.written && t.nCommitted == s.nCommitted - r.committed
              && t.diskBytes == s.diskBytes - r.bytes && t.unreclaimed == s.unreclaimed + r.failed
              && s == t.(files := s.files, lastFrameAt := s.lastFrameAt, lastFrameEnd := s.lastFrameEnd,
                         nWritten := s.nWritten, nCommitted := s.nCommitted, diskBytes := s.diskBytes,
                         unreclaimed := s.unreclaimed)
  {
  }

  /** What a reclamation has done so far, and what is left of it. */
  ghost predicate SoFar(all: Reclaimed, survive: seq<Seg>, w: int, c: int, b: int, failed: int, rest: Reclaimed) {
    && all.files == survive + rest.files && all.written == w + rest.written && all.committed == c + rest.committed
    && all.bytes == b + rest.bytes && all.failed == failed + rest.failed
  }

  lemma SoFarStarts(fs: seq<Seg>, upTo: int, keep: int, env: Env)
    ensures var all := Reclaim(fs, upTo, keep, env);
            SoFar(all, [], 0, 0, 0, 0, Reclaim(fs[0..], upTo, keep, env))
  {
    assert fs[0..] == fs;
    hide Reclaim;
    var all := Reclaim(fs, upTo, keep, env);
    assert [] + all.files == all.files;
  }

  lemma SoFarSteps(all: Reclaimed, survive: seq<Seg>, w: int, c: int, b: int, failed: int,
                   fs: seq<Seg>, i: nat, upTo: int, keep: int, env: Env)
    requires i < |fs| && SoFar(all, survive, w, c, b, failed, Reclaim(fs[i..], upTo, keep, env))
    ensures var f, rest := fs[i], Reclaim(fs[i + 1..], upTo, keep - 1, env);
            if keep == 0 || f.End() > upTo then true
            else if f.pins > 0 then SoFar(all, survive + [f], w, c, b, failed, rest)
            else if !env.unlink(f.num) then SoFar(all, survive + [f], w, c, b, failed + 1, rest)
            else SoFar(all, survive, w + f.written, c + f.committed, b + HEADER_SIZE + f.capacity, failed, rest)
  {
    assert fs[i..][0] == fs[i] && fs[i..][1..] == fs[i + 1..];
    var rest := Reclaim(fs[i + 1..], upTo, keep - 1, env);
    assert survive + ([fs[i]] + rest.files) == (survive + [fs[i]]) + rest.files;
  }

  lemma SoFarEnds(all: Reclaimed, survive: seq<Seg>, w: int, c: int, b: int, failed: int,
                  fs: seq<Seg>, i: nat, upTo: int, keep: int, env: Env)
    requires i <= |fs| && SoFar(all, survive, w, c, b, failed, Reclaim(fs[i..], upTo, keep, env))
    requires i == |fs| || keep == 0 || fs[i].End() > upTo
    requires failed >= 0
    ensures all == Reclaimed(survive + fs[i..], w, c, b, failed)
  {
    if i < |fs| {
      assert fs[i..][0] == fs[i];
    }
  }

  lemma SameSegs(a: seq<Seg>, b: seq<Seg>)
    requires SameShape(a, b)
    ensures |a| == |b|
  {
  }

  lemma FrozenShape(s: St, t: St)
    ensures Frozen(s, t) && Ordered(s.files) ==> Ordered(t.files) && |t.files| == |s.files| && t.reserved == s.reserved
  {
    if Frozen(s, t) && Ordered(s.files) {
      ShapeKeepsOrder(s.files, t.files);
    }
  }

  lemma EndsAscend(fs: seq<Seg>, mid: nat)
    requires Ordered(fs) && mid < |fs|
    ensures forall k | 0 <= k < mid :: fs[k].End() <= fs[mid].End()
    ensures forall k | mid < k < |fs| :: fs[mid].End() <= fs[k].End()
  {
    forall k | mid < k < |fs| ensures fs[mid].End() <= fs[k].End() {
      assert fs[mid].End() <= fs[k].base;
    }
    forall k | 0 <= k < mid ensures fs[k].End() <= fs[mid].End() {
      assert fs[k].End() <= fs[mid].base;
    }
  }

  lemma EntriesAscend(rs: seq<Reservation>, head: int, mid: nat)
    requires LedgerSorted(rs, head) && mid < |rs|
    ensures forall k | 0 <= k < mid :: rs[k].end < rs[mid].end
    ensures forall k | mid < k < |rs| :: rs[mid].end < rs[k].end
  {
    forall k | mid < k < |rs| ensures rs[mid].end < rs[k].end {
      assert rs[mid].end <= rs[k].start && rs[k] in rs;
    }
    forall k | 0 <= k < mid ensures rs[k].end < rs[mid].end {
      assert rs[k].end <= rs[mid].start && rs[mid] in rs;
    }
  }
}
