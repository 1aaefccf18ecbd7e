/** With nothing failing and frames as they were laid down: commits reach their target, acknowledgements in any order
    retire everything, and a drain hands out every record once, in order. */
module LogProgress {
  import opened Ints
  import opened Log
  import opened LogWalk
  import opened LogCommit
  import opened LogOps
  import opened LogSafety
  import opened LogRuns
  import opened LogWrites
  import opened LogCounts
  import LogAnswers

  // ----- what nothing failing means

  /** Every write and fsync succeeds, and every open of a file that is there. */
  ghost predicate FaultFree(env: Env) {
    && (forall off :: env.open(off) in {Opened, Gone}) && (forall num :: env.persist(num) == Wrote && env.flush(num))
    && env.tick == TickOk
  }

  /** off lies in an extent that a read has already reported lost. */
  ghost predicate GivenUp(rs: seq<Reservation>, off: int) {
    exists r <- rs :: r.corrupt && r.start <= off < r.end
  }

  /** The record at off has been handed out. */
  ghost predicate Out(rs: seq<Reservation>, off: int) {
    exists r <- rs :: !r.corrupt && r.start == off < r.end
  }

  /** At a record's start the decoder answers, or the file has gone since the record was handed out. */
  ghost predicate Answers(env: Env, rs: seq<Reservation>, f: Seg, off: int) {
    f.base <= off < f.End() && Mark(f, off - f.base) ==>
      if env.open(off) == Opened then Decode(f, off, env.frame(off)).End? else Out(rs, off)
  }

  /** At every record's start from the commit cursor on, but for extents given up and records out of a file that has
      gone, the decoder answers, and with that record. */
  ghost predicate Faithful(env: Env, s: St) {
    && Honest(env, s.files)
    && forall f <- s.files, off :: off >= s.commitOff && !GivenUp(s.reserved, off) ==> Answers(env, s.reserved, f, off)
  }

  /** off splits no extent already given up. */
  ghost predicate Unsplit(rs: seq<Reservation>, off: int) {
    forall r <- rs :: r.corrupt ==> r.end <= off || off <= r.start
  }

  /** off splits no record either. */
  ghost predicate Boundary(s: St, off: int) {
    s.commitOff <= off <= s.writeOff && Between(s.files, off) && Unsplit(s.reserved, off)
  }

  lemma {:induction false} FirstStartsAt(rs: seq<Reservation>, head: int, c: int, r: Reservation)
    requires LedgerSorted(rs, head) && r in rs && r.start == c
    ensures var i := FirstUnretired(rs, c); i < |rs| && rs[i] == r
    decreases |rs|
  {
    if rs[0].end <= c {
      SortedSuffix(rs, 1, head);
      assert r in rs[1..];
      FirstStartsAt(rs[1..], head, c, r);
    } else {
      var j :| 0 <= j < |rs| && rs[j] == r;
      assert j > 0 ==> rs[0].end <= rs[j].start;
    }
  }

  /** The ledger's entry at the cursor is found whenever there is one. */
  lemma EntryHereFinds(s: St, head: int, r: Reservation)
    requires LedgerSorted(s.reserved, head) && r in s.reserved && r.start == s.commitOff
    ensures EntryHere(s) == EntryAt(r)
  {
    FirstStartsAt(s.reserved, head, s.commitOff, r);
  }

  // ----- the walk

  /** The record at c ends at or before any later boundary. */
  lemma RecordBefore(f: Seg, c: int, next: int, off: int)
    requires Tiled(f) && OneRecord(f, c, next) && f.base <= c < off && Mark(f, f.Pos(off))
    ensures next <= off
  {
    RankSplits(f.ends, c - f.base);
    assert f.ends[RankIn(f, c)] in f.ends;
    if off < f.End() {
      var j :| 0 <= j < |f.ends| && f.ends[j] == off - f.base;
      assert f.ends[RankIn(f, c)] <= f.ends[j];
    }
  }

  lemma FrameThere(s0: St, s: St, i: nat, off: int, env: Env)
    requires WalkPre(s0, off) && Faithful(env, s0) && Frozen(s0, s) && FileFor(s.files, s.commitOff) == i
    requires SegCounted(s.files[i], s.commitOff) && s0.commitOff <= s.commitOff && !GivenUp(s0.reserved, s.commitOff)
    requires env.open(s.commitOff) == Opened
    ensures FrameEnd(s, s.files[i], env).End? && s.commitOff < FrameEnd(s, s.files[i], env).next
  {
    var f := s.files[i];
    assert SameSeg(s0.files[i], f) && s0.files[i] in s0.files;
    if s.lastFrameEnd != 0 && s.lastFrameAt == s.commitOff {
      assert Within(s0.files, s.lastFrameAt, s.lastFrameEnd);
    } else {
      assert Answers(env, s0.reserved, s0.files[i], s.commitOff);
    }
  }

  lemma FaithfulHonest(env: Env, s: St)
    requires Faithful(env, s)
    ensures Honest(env, s.files)
  {
  }

  /** No entry given up starts at the cursor, so none holds it. */
  lemma NotGivenUp(s: St, head: int)
    requires LedgerSorted(s.reserved, head) && Unsplit(s.reserved, s.commitOff)
    requires !(EntryHere(s).EntryAt? && EntryHere(s).r.corrupt)
    ensures !GivenUp(s.reserved, s.commitOff)
  {
    hide EntryHere;
    forall r <- s.reserved | r.corrupt && r.start == s.commitOff ensures false {
      EntryHereFinds(s, head, r);
    }
  }

  lemma NextRecord(s0: St, s: St, i: nat, off: int, env: Env)
    requires WalkPre(s0, off) && Frozen(s0, s) && s0.commitOff <= s.commitOff < off && FileFor(s.files, s.commitOff) == i
    requires SegCounted(s.files[i], s.commitOff) && LedgerCounted(s0) && Faithful(env, s0) && Between(s0.files, off)
    requires !GivenUp(s0.reserved, s.commitOff) && env.open(s.commitOff) == Opened
    ensures FrameEnd(s, s.files[i], env).End? && s.commitOff < FrameEnd(s, s.files[i], env).next <= off
    ensures OneRecord(s.files[i], s.commitOff, FrameEnd(s, s.files[i], env).next)
  {
    hide FrameEnd;
    hide LedgerCounted;
    hide OneRecord;
    hide GivenUp;
    FrameThere(s0, s, i, off, env);
    FaithfulHonest(env, s0);
    hide Faithful;
    BoundaryCounts(s0, s, i, off, env);
    hide WalkPre;
    var f := s.files[i];
    assert SameSeg(s0.files[i], f) && Mark(s0.files[i], s0.files[i].Pos(off));
    TiledHere(f, s.commitOff);
    hide SegCounted;
    hide Tiled;
    RecordBefore(f, s.commitOff, FrameEnd(s, f, env).next, off);
  }

  /** The file has gone, and the record at the cursor is out. */
  lemma OutThere(s0: St, s: St, i: nat, env: Env)
    requires Inv(s0) && Faithful(env, s0) && Frozen(s0, s) && s0.commitOff <= s.commitOff && FileFor(s.files, s.commitOff) == i
    requires SegCounted(s.files[i], s.commitOff) && !GivenUp(s0.reserved, s.commitOff) && env.open(s.commitOff) != Opened
    ensures EntryHere(s).EntryAt? && !EntryHere(s).r.corrupt
  {
    hide EntryHere;
    hide Inv;
    hide FramesTrue;
    assert SameSeg(s0.files[i], s.files[i]) && s0.files[i] in s0.files;
    assert Answers(env, s0.reserved, s0.files[i], s.commitOff);
    var r :| r in s0.reserved && !r.corrupt && r.start == s.commitOff < r.end;
    InvLedger(s0);
    EntryHereFinds(s, s0.headOff, r);
  }

  lemma RecordOut(s0: St, s: St, i: nat, off: int, env: Env)
    requires WalkPre(s0, off) && Frozen(s0, s) && s0.commitOff <= s.commitOff < off && FileFor(s.files, s.commitOff) == i
    requires SegCounted(s.files[i], s.commitOff) && LedgerCounted(s0) && Faithful(env, s0) && Between(s0.files, off)
    requires Inv(s0) && !GivenUp(s0.reserved, s.commitOff) && env.open(s.commitOff) != Opened
    ensures var e := EntryHere(s);
            && e.EntryAt? && !e.r.corrupt && s.commitOff < e.r.end <= off && OneRecord(s.files[i], s.commitOff, e.r.end)
  {
    hide FrameEnd;
    hide LedgerCounted;
    hide OneRecord;
    hide GivenUp;
    hide Inv;
    OutThere(s0, s, i, env);
    FaithfulHonest(env, s0);
    hide Faithful;
    BoundaryCounts(s0, s, i, off, env);
    hide WalkPre;
    var f := s.files[i];
    assert SameSeg(s0.files[i], f) && Mark(s0.files[i], s0.files[i].Pos(off));
    TiledHere(f, s.commitOff);
    hide SegCounted;
    hide Tiled;
    RecordBefore(f, s.commitOff, EntryHere(s).r.end, off);
  }

  lemma EntryStartMarks(f: Seg, r: Reservation)
    requires EntryCounted(r, f) && r.corrupt
    ensures Mark(f, r.start - f.base)
  {
  }

  /** An extent given up starts at a record's start. */
  lemma StartBetween(s: St, r: Reservation)
    requires Inv(s) && StoreCounted(s) && LedgerCounted(s) && r in s.reserved && r.corrupt && r.end > s.commitOff
    ensures Between(s.files, r.start)
  {
    hide SegCounted;
    hide EntryCounted;
    hide Between;
    hide Mark;
    hide Sums;
    hide Agree;
    hide Tracks;
    assert Within(s.files, r.start, r.end);
    var i :| 0 <= i < |s.files| && s.files[i].base <= r.start < r.end <= s.files[i].End();
    var f := s.files[i];
    assert f in s.files && Holds(f, r.start, r.end);
    EntryStartMarks(f, r);
    MarkIsBetween(s.files, i, r.start, s.commitOff);
  }

  /** The record at the cursor ends before any later extent given up. */
  lemma RecordUnsplit(s0: St, s: St, i: nat, next: int)
    requires Inv(s0) && StoreCounted(s0) && LedgerCounted(s0) && Frozen(s0, s) && s0.commitOff <= s.commitOff < next
    requires FileFor(s.files, s.commitOff) == i && SegCounted(s.files[i], s.commitOff)
    requires OneRecord(s.files[i], s.commitOff, next)
    requires Unsplit(s0.reserved, s.commitOff) && !GivenUp(s0.reserved, s.commitOff)
    ensures Unsplit(s0.reserved, next)
  {
    hide SegCounted;
    hide LedgerCounted;
    hide StoreCounted;
    hide Inv;
    hide OneRecord;
    hide Tiled;
    var f := s.files[i];
    TiledHere(f, s.commitOff);
    assert SameSeg(s0.files[i], f);
    forall r <- s0.reserved | r.corrupt && r.end > s.commitOff ensures next <= r.start {
      StartBetween(s0, r);
      assert Mark(s0.files[i], s0.files[i].Pos(r.start));
      RecordBefore(f, s.commitOff, next, r.start);
    }
  }

  lemma EntryUnsplit(rs: seq<Reservation>, head: int, e: Reservation)
    requires LedgerSorted(rs, head) && e in rs
    ensures Unsplit(rs, e.end)
  {
    var j :| 0 <= j < |rs| && rs[j] == e;
    EntriesApart(rs, head, j);
  }

  lemma EntriesApart(rs: seq<Reservation>, head: int, j: nat)
    requires LedgerSorted(rs, head) && j < |rs|
    ensures forall r <- rs :: r.end <= rs[j].end || rs[j].end <= r.start
  {
    forall r <- rs ensures r.end <= rs[j].end || rs[j].end <= r.start {
      var i :| 0 <= i < |rs| && rs[i] == r;
      if i < j {
        assert rs[i].end <= rs[j].start && rs[j] in rs;
      }
    }
  }

  /** One turn of the walk crosses the record at the cursor, or the extent given up there, and reports nothing. */
  lemma CrossReaches(s0: St, s: St, i: nat, off: int, cur: int, env: Env) returns (next: int, n: int)
    requires WalkPre(s0, off) && WalkInv(s0, s, cur, off) && !s.latched && s.commitOff < off
    requires FileFor(s.files, s.commitOff) == i && StoreCounted(s) && StoreCounted(s0) && LedgerCounted(s0) && Inv(s0)
    requires FaultFree(env) && Faithful(env, s0) && Boundary(s0, off) && Unsplit(s0.reserved, s.commitOff)
    ensures Cross(s, i, off, cur, env) == Go(Crossed(s, i, next, n), i) && s.commitOff < next <= off
    ensures Unsplit(s0.reserved, next)
  {
    hide SkipCorrupt;
    hide FrameEnd;
    hide LedgerCounted;
    hide WalkInv;
    hide WalkPre;
    hide Faithful;
    hide Between;
    hide SegCounted;
    hide Crossed;
    hide Frozen;
    hide Inv;
    hide OneRecord;
    hide GivenUp;
    WalkKnows(s0, s, cur, off);
    InvLedger(s0);
    var f, e := s.files[i], EntryHere(s);
    assert SegCounted(f, s.commitOff);
    assert s.(latched := s.latched || env.open(s.commitOff) == OpenedLatched) == s;
    if e.EntryAt? && e.r.corrupt {
      hide EntryHere;
      next, n := e.r.end, Max(e.r.written - f.committed, 0);
      EntryUnsplit(s.reserved, s0.headOff, e.r);
    } else {
      hide EntryHere;
      NotGivenUp(s, s0.headOff);
      if env.open(s.commitOff) == Opened {
        NextRecord(s0, s, i, off, env);
        next, n := FrameEnd(s, f, env).next, 1;
      } else {
        RecordOut(s0, s, i, off, env);
        next, n := e.r.end, 1;
      }
      RecordUnsplit(s0, s, i, next);
    }
  }

  lemma TiledHere(f: Seg, c: int)
    requires SegCounted(f, c)
    ensures Tiled(f)
  {
  }

  lemma WalkKnows(s0: St, s: St, cur: int, off: int)
    requires WalkInv(s0, s, cur, off)
    ensures Frozen(s0, s) && s0.commitOff <= s.commitOff <= off && s.reserved == s0.reserved && -1 <= cur < |s.files|
  {
  }

  lemma PersistWrites(s: St, i: nat, perOp: bool, env: Env)
    requires i < |s.files| && !s.latched && FaultFree(env)
    ensures var (t, e) := Persist(s, i, perOp, env);
            && e == Nil && !t.latched && t.commitOff == s.commitOff && Frozen(s, t)
            && t.pendingCorrupt == s.pendingCorrupt && t.corruptions == s.corruptions
            && t.headOff == s.headOff && t.lostBytes == s.lostBytes
  {
    PersistFrozen(s, i, perOp, env);
    WriteOutcome(Put(s, i, s.files[i].(hdr := Stamp(s, i))), i, env.persist(s.files[i].num));
    WritesNil(Put(s, i, s.files[i].(hdr := Stamp(s, i))), i);
    hide WriteHeader;
    hide Frozen;
  }

  lemma WritesNil(s: St, i: nat)
    requires i < |s.files| && !s.latched
    ensures WriteHeader(s, i, Wrote).1 == Nil
  {
  }

  /** What a walk that meets no fault does not touch. */
  predicate Unharmed(s: St, t: St) {
    && !t.latched && t.pendingCorrupt == s.pendingCorrupt && t.corruptions == s.corruptions
    && t.headOff == s.headOff && t.lostBytes == s.lostBytes
  }

  lemma StepReaches(s0: St, s: St, off: int, perOp: bool, cur: int, env: Env)
    requires WalkPre(s0, off) && WalkInv(s0, s, cur, off) && !s.latched && s.commitOff < off
    requires StoreCounted(s) && StoreCounted(s0) && LedgerCounted(s0) && Inv(s0)
    requires FaultFree(env) && Faithful(env, s0) && Boundary(s0, off) && Unsplit(s0.reserved, s.commitOff)
    ensures var r := WalkStep(s, off, perOp, cur, env);
            r.Go? && Unharmed(s, r.s) && r.s.commitOff <= off && Unsplit(s0.reserved, r.s.commitOff)
  {
    hide Cross;
    hide Persist;
    hide WalkInv;
    hide WalkPre;
    hide StoreCounted;
    hide LedgerCounted;
    hide FaultFree;
    hide Faithful;
    hide Boundary;
    hide Inv;
    WalkKnows(s0, s, cur, off);
    OwnerThere(s0, s, off);
    var i := FileFor(s.files, s.commitOff);
    if 0 <= cur != i {
      InvOrdered(s0);
      PersistWrites(s, cur, perOp, env);
      PersistKeeps(s0, s, cur, off, perOp, env);
      StepCounted(s0, s, cur, off, perOp, env);
      var s1 := Persist(s, cur, perOp, env).0;
      PersistFrozen(s, cur, perOp, env);
      SameOwner(s, s1);
      var next, n := CrossReaches(s0, s1, i, off, -1, env);
    } else {
      var next, n := CrossReaches(s0, s, i, off, cur, env);
    }
  }

  lemma SameOwner(s: St, t: St)
    requires Frozen(s, t) && t.commitOff == s.commitOff
    ensures FileFor(t.files, t.commitOff) == FileFor(s.files, s.commitOff)
  {
    SameLookup(s.files, t.files, s.commitOff);
  }

  lemma StepCounted(s0: St, s: St, cur: nat, off: int, perOp: bool, env: Env)
    requires WalkInv(s0, s, cur, off) && Ordered(s0.files) && StoreCounted(s)
    ensures StoreCounted(Persist(s, cur, perOp, env).0)
  {
    ShapeKeepsOrder(s0.files, s.files);
    PersistCounted(s, cur, perOp, env);
  }

  lemma OwnerThere(s0: St, s: St, off: int)
    requires Inv(s0) && Frozen(s0, s) && s0.commitOff <= s.commitOff < off && Boundary(s0, off)
    ensures FileFor(s.files, s.commitOff) >= 0
  {
    FileForIsTheOwner(s0.files, s0.commitOff, s0.writeOff, s.commitOff);
    SameLookup(s0.files, s.files, s.commitOff);
  }

  lemma {:induction false} WalkReaches(s0: St, s: St, off: int, perOp: bool, cur: int, env: Env)
    requires WalkPre(s0, off) && WalkInv(s0, s, cur, off) && !s.latched
    requires StoreCounted(s) && StoreCounted(s0) && LedgerCounted(s0) && Inv(s0)
    requires FaultFree(env) && Faithful(env, s0) && Boundary(s0, off) && Unsplit(s0.reserved, s.commitOff)
    ensures var r := Walk(s, off, perOp, cur, env);
            r.stop == Nil && r.s.commitOff == off && Unharmed(s, r.s)
    decreases Max(0, off - s.commitOff)
  {
    hide WalkInv;
    hide WalkPre;
    hide WalkStep;
    hide StoreCounted;
    hide LedgerCounted;
    hide FaultFree;
    hide Faithful;
    hide Boundary;
    hide Inv;
    hide Frozen;
    WalkKnows(s0, s, cur, off);
    if s.commitOff < off {
      StepReaches(s0, s, off, perOp, cur, env);
      StepKeeps(s0, s, off, perOp, cur, env);
      FaithfulHonest(env, s0);
      StepCounts(s0, s, off, perOp, cur, env);
      StepFrozen(s, off, perOp, cur, env);
      var r := WalkStep(s, off, perOp, cur, env);
      WalkReaches(s0, r.s, off, perOp, r.cur, env);
    }
  }

  lemma EndReaches(s: St, w: Step, off: int, durable: bool, perOp: bool, env: Env)
    requires w.Halt? && w.stop == Nil && w.s.commitOff == off && Unharmed(s, w.s) && -1 <= w.cur < |w.s.files| && FaultFree(env)
    ensures var (t, e) := CommitEnd(s.commitOff, w, durable, perOp, env);
            && e == Nil && t.commitOff == off && !t.latched
            && t.headOff == (if off == s.commitOff then s.headOff else Max(s.headOff, off))
            && t.pendingCorrupt == s.pendingCorrupt && t.corruptions == s.corruptions && t.lostBytes == s.lostBytes
  {
    hide Persist;
    hide DropCommitted;
    if w.cur >= 0 {
      PersistWrites(w.s, w.cur, perOp, env);
    }
    var s1 := if 0 <= w.cur then Persist(w.s, w.cur, perOp, env).0 else w.s;
    var u := s1.(headOff := Max(s1.headOff, s1.commitOff));
    DropLeaves(u, |u.files| - 1, env);
  }

  /** With nothing failing a commit retires everything up to its target, and answers nil. */
  lemma CommitReaches(s: St, off: int, durable: bool, env: Env)
    requires Inv(s) && Counted(s) && !s.latched && FaultFree(env) && Faithful(env, s)
    requires Boundary(s, off) && Unsplit(s.reserved, s.commitOff)
    ensures var (t, e) := CommitDurable(s, off, durable, env);
            && e == Nil && t.commitOff == off && !t.latched && t.headOff == Max(s.headOff, off)
            && t.pendingCorrupt == s.pendingCorrupt && t.corruptions == s.corruptions && t.lostBytes == s.lostBytes
  {
    hide Inv;
    hide Counted;
    hide StoreCounted;
    hide LedgerCounted;
    hide WalkInv;
    hide WalkPre;
    hide CommitEnd;
    hide FaultFree;
    hide Faithful;
    hide Boundary;
    InvOrdered(s);
    Bounded(s, off);
    if off > s.commitOff {
      var perOp := durable && s.policy == PerOp;
      WalkMayBegin(s, off);
      CountedBySeqs(s);
      WalkKeeps(s, s, off, perOp, -1, env);
      WalkReaches(s, s, off, perOp, -1, env);
      var w := Walk(s, off, perOp, -1, env);
      WalkKnows(s, w.s, w.cur, off);
      EndReaches(s, w, off, durable, perOp, env);
    }
  }

  lemma Bounded(s: St, off: int)
    requires Boundary(s, off)
    ensures s.commitOff <= off <= s.writeOff
  {
  }

  // ----- acknowledging

  /** The commit cursor stands inside no entry. */
  ghost predicate LedgerAhead(s: St) {
    forall r <- s.reserved :: r.end <= s.commitOff || s.commitOff <= r.start
  }

  lemma EntryMarks(f: Seg, r: Reservation, c: int)
    requires SegCounted(f, c) && EntryCounted(r, f)
    ensures Mark(f, r.end - f.base)
  {
    if !r.corrupt {
      RecordRanks(f, r.start, r.end);
    }
  }

  lemma EntryEndsBetween(s: St, r: Reservation)
    requires Inv(s) && Counted(s) && r in s.reserved && r.end > s.commitOff
    ensures Between(s.files, r.end)
  {
    hide SegCounted;
    hide EntryCounted;
    hide Between;
    hide Mark;
    hide Sums;
    hide Agree;
    hide Tracks;
    assert Within(s.files, r.start, r.end);
    var i :| 0 <= i < |s.files| && s.files[i].base <= r.start < r.end <= s.files[i].End();
    var f := s.files[i];
    assert f in s.files && Holds(f, r.start, r.end);
    EntryMarks(f, r, s.commitOff);
    CountedBySeqs(s);
    MarkIsBetween(s.files, i, r.end, s.commitOff);
  }

  lemma ChainOfSorted(rs: seq<Reservation>, at: int, k: nat, head: int)
    requires LedgerSorted(rs, head) && AckedFrom(rs, at, k) && k > 0
    ensures at < rs[k - 1].end <= head
    decreases k
  {
    assert rs[k - 1] in rs && Adjoins(rs, at, k - 1);
    if k > 1 {
      ChainOfSorted(rs, at, k - 1, head);
    }
  }

  lemma CommitBetween(s: St)
    requires Counted(s)
    ensures Between(s.files, s.commitOff)
  {
    hide LedgerCounted;
    CountedBySeqs(s);
    CommitIsBetween(s.files, s.commitOff);
  }

  /** Where the acknowledged run ends is a boundary. */
  lemma RunIsBoundary(s: St)
    requires Inv(s) && Counted(s) && LedgerAhead(s)
    ensures Boundary(s, RunEnd(s.reserved, s.commitOff))
  {
    hide Inv;
    hide Counted;
    hide Between;
    hide RunEnd;
    InvHead(s);
    InvLedger(s);
    var k := RunIsLongest(s.reserved, s.commitOff);
    if k == 0 {
      CommitBetween(s);
    } else {
      ChainOfSorted(s.reserved, s.commitOff, k, s.headOff);
      EntryEndsBetween(s, s.reserved[k - 1]);
      EntriesApart(s.reserved, s.headOff, k - 1);
    }
  }

  /** With nothing failing the whole acknowledged run is retired. */
  lemma AckedRunReaches(s: St, durable: bool, env: Env)
    requires Inv(s) && Counted(s) && LedgerAhead(s) && !s.latched && FaultFree(env) && Faithful(env, s)
    ensures var (t, e) := CommitAckedRun(s, durable, env);
            && e == Nil && t.commitOff == RunEnd(s.reserved, s.commitOff) && !t.latched && t.headOff == s.headOff
            && t.pendingCorrupt == s.pendingCorrupt
            && t.reserved == if t.commitOff == s.commitOff then s.reserved
                             else s.reserved[FirstUnretired(s.reserved, t.commitOff)..]
  {
    hide Inv;
    hide Counted;
    hide CommitDurable;
    hide FaultFree;
    hide Faithful;
    hide Boundary;
    RunIsBoundary(s);
    var target := RunEnd(s.reserved, s.commitOff);
    Bounded(s, target);
    InvHead(s);
    RunWithinHead(s.reserved, s.commitOff, s.headOff);
    if target > s.commitOff {
      CommitReaches(s, target, durable, env);
      CommitKeepsInv(s, target, durable, env);
    }
  }

  /** The entries adjoin one another from at. */
  ghost predicate Chain(rs: seq<Reservation>, at: int)
    decreases |rs|
  {
    rs != [] ==> rs[0].start == at < rs[0].end && Chain(rs[1..], rs[0].end)
  }

  function ChainEnd(rs: seq<Reservation>, at: int): int
    decreases |rs|
  {
    if rs == [] then at else ChainEnd(rs[1..], rs[0].end)
  }

  /** What dropping the retired run leaves of a chain: a chain to the same end, its first entry not acknowledged. */
  lemma {:induction false} ChainDrops(rs: seq<Reservation>, at: int)
    requires Chain(rs, at)
    ensures var to := RunEnd(rs, at);
            var left := rs[FirstUnretired(rs, to)..];
            at <= to && Chain(left, to) && ChainEnd(left, to) == ChainEnd(rs, at) && (left != [] ==> !left[0].acked)
    decreases |rs|
  {
    if rs != [] {
      if rs[0].acked {
        var to := RunEnd(rs, at);
        ChainDrops(rs[1..], rs[0].end);
        assert rs[FirstUnretired(rs, to)..] == rs[1..][FirstUnretired(rs[1..], to)..];
      } else {
        assert rs[0..] == rs;
      }
    }
  }

  lemma {:induction false} ChainAhead(rs: seq<Reservation>, at: int)
    requires Chain(rs, at)
    ensures forall r <- rs :: at <= r.start && at < r.end
    ensures FirstUnretired(rs, at) == 0
    decreases |rs|
  {
    if rs != [] {
      ChainAhead(rs[1..], rs[0].end);
      forall r <- rs ensures at <= r.start && at < r.end {
        assert r == rs[0] || r in rs[1..];
      }
    }
  }

  lemma {:induction false} MarkedChain(rs: seq<Reservation>, at: int, end: int)
    requires Chain(rs, at)
    ensures Chain(MarkAcked(rs, end), at) && ChainEnd(MarkAcked(rs, end), at) == ChainEnd(rs, at)
    decreases |rs|
  {
    if rs != [] {
      MarkedChain(rs[1..], rs[0].end, end);
      assert MarkAcked(rs, end)[1..] == MarkAcked(rs[1..], end);
    }
  }

  // ----- acknowledging, in any order

  /** A consumer's acknowledgements, each with what its commit meets. */
  function AckEach(s: St, acks: seq<(int, Env)>): St
    decreases |acks|
  {
    if acks == [] then s else AckEach(Ack(s, acks[0].0, acks[0].1).0, acks[1..])
  }

  ghost predicate Smooth(s: St, acks: seq<(int, Env)>) {
    forall a <- acks :: FaultFree(a.1) && Faithful(a.1, s)
  }

  /** Everything handed out, record after record from the commit cursor, the first of it not acknowledged. */
  ghost predicate HandedOut(s: St) {
    && Inv(s) && Counted(s) && !s.latched && Chain(s.reserved, s.commitOff)
    && (s.reserved != [] ==> !s.reserved[0].acked)
  }

  ghost predicate Acknowledged(s: St, acks: seq<(int, Env)>, r: Reservation) {
    r.acked || exists a <- acks :: a.0 == r.end
  }

  ghost predicate AllAcknowledged(s: St, acks: seq<(int, Env)>) {
    && (forall r <- s.reserved :: Acknowledged(s, acks, r))
    && forall a <- acks :: a.0 <= s.commitOff || Names(s.reserved, a.0)
  }

  ghost predicate KeepsLayout(s: St, t: St) {
    forall g <- t.files :: exists f <- s.files :: SameLayout(f, g)
  }

  /** What is left of the ledger still covers everything given up or out behind the cursor. */
  ghost predicate LedgerCarries(s: St, t: St) {
    && s.commitOff <= t.commitOff
    && forall r <- s.reserved :: r.end > t.commitOff ==>
         exists q <- t.reserved :: q.corrupt == r.corrupt && q.start == r.start && q.end == r.end
  }

  lemma FaithfulCarries(env: Env, s: St, t: St)
    requires Faithful(env, s) && KeepsLayout(s, t) && LedgerCarries(s, t)
    ensures Faithful(env, t)
  {
    hide GivenUp;
    hide Out;
    hide LedgerCarries;
    forall g <- t.files, off ensures FramesTrue(g, off, env.frame(off)) {
      var f :| f in s.files && SameLayout(f, g);
      assert FramesTrue(f, off, env.frame(off));
      AlikeFrames(f, g, off, env.frame(off));
    }
    hide FramesTrue;
    hide SameLayout;
    LaterCursor(s, t);
    forall g <- t.files, off | off >= t.commitOff && !GivenUp(t.reserved, off) ensures Answers(env, t.reserved, g, off) {
      var f :| f in s.files && SameLayout(f, g);
      if GivenUp(s.reserved, off) {
        StillGivenUp(s, t, off);
      }
      if Out(s.reserved, off) {
        StillOut(s, t, off);
      }
      assert Answers(env, s.reserved, f, off);
      AlikeAnswers(env, s.reserved, t.reserved, f, g, off);
    }
  }

  lemma LaterCursor(s: St, t: St)
    requires LedgerCarries(s, t)
    ensures s.commitOff <= t.commitOff
  {
  }

  lemma AlikeFrames(f: Seg, g: Seg, off: int, ans: FrameAns)
    requires SameLayout(f, g) && FramesTrue(f, off, ans)
    ensures FramesTrue(g, off, ans)
  {
  }

  lemma AlikeAnswers(env: Env, rs: seq<Reservation>, qs: seq<Reservation>, f: Seg, g: Seg, off: int)
    requires SameLayout(f, g) && Answers(env, rs, f, off) && (Out(rs, off) ==> Out(qs, off))
    ensures Answers(env, qs, g, off)
  {
    hide Out;
  }

  lemma FaithfulAside(env: Env, s: St, t: St)
    requires Faithful(env, s) && t.files == s.files && t.reserved == s.reserved && t.commitOff == s.commitOff
    ensures Faithful(env, t)
  {
  }

  lemma MarkedCarries(s: St, t: St, end: int)
    requires s.commitOff <= t.commitOff
    requires var rs := MarkAcked(s.reserved, end); t.reserved == rs || t.reserved == rs[FirstUnretired(rs, t.commitOff)..]
    ensures LedgerCarries(s, t)
  {
    var rs := MarkAcked(s.reserved, end);
    var k := if t.reserved == rs then 0 else FirstUnretired(rs, t.commitOff);
    assert t.reserved == rs[k..] && forall j | 0 <= j < k :: rs[j].end <= t.commitOff;
    hide MarkAcked;
    forall r <- s.reserved | r.end > t.commitOff
      ensures exists q <- t.reserved :: q.corrupt == r.corrupt && q.start == r.start && q.end == r.end
    {
      var i :| 0 <= i < |s.reserved| && s.reserved[i] == r;
      MarkedAt(s.reserved, end, i);
      assert i >= k && t.reserved[i - k] == rs[i];
      assert rs[i] in t.reserved;
    }
  }

  lemma MarkedAt(rs: seq<Reservation>, end: int, i: nat)
    requires i < |rs|
    ensures |MarkAcked(rs, end)| == |rs| && MarkAcked(rs, end)[i] == rs[i].(acked := MarkAcked(rs, end)[i].acked)
  {
  }

  lemma StillGivenUp(s: St, t: St, off: int)
    requires LedgerCarries(s, t) && off >= t.commitOff && GivenUp(s.reserved, off)
    ensures GivenUp(t.reserved, off)
  {
    var r :| r in s.reserved && r.corrupt && r.start <= off < r.end;
    var q :| q in t.reserved && q.corrupt == r.corrupt && q.start == r.start && q.end == r.end;
  }

  lemma StillOut(s: St, t: St, off: int)
    requires LedgerCarries(s, t) && off >= t.commitOff && Out(s.reserved, off)
    ensures Out(t.reserved, off)
  {
    var r :| r in s.reserved && !r.corrupt && r.start == off < r.end;
    var q :| q in t.reserved && q.corrupt == r.corrupt && q.start == r.start && q.end == r.end;
  }

  /** One acknowledgement with nothing failing: the run it completes is retired, the rest is marked and stays. */
  lemma AckReaches(s: St, end: int, env: Env)
    requires HandedOut(s) && FaultFree(env) && Faithful(env, s) && (end <= s.commitOff || Names(s.reserved, end))
    ensures var (t, found, e), rs := Ack(s, end, env), MarkAcked(s.reserved, end);
            && found && e == Nil && HandedOut(t) && KeepsLayout(s, t)
            && t.commitOff == RunEnd(rs, s.commitOff) && t.reserved == rs[FirstUnretired(rs, t.commitOff)..]
            && s.commitOff <= t.commitOff && ChainEnd(t.reserved, t.commitOff) == ChainEnd(s.reserved, s.commitOff)
  {
    hide CommitAckedRun;
    hide FaultFree;
    hide Faithful;
    hide Inv;
    hide Counted;
    hide Chain;
    hide Names;
    InvHead(s);
    ChainAhead(s.reserved, s.commitOff);
    NothingRetired(s);
    MarkedChain(s.reserved, s.commitOff, end);
    var rs := MarkAcked(s.reserved, end);
    ChainDrops(rs, s.commitOff);
    if end <= s.commitOff {
      MarksNothing(s.reserved, end);
      RunStands(s.reserved, s.commitOff);
      SubsetIsLayout(s.files, s.files);
      assert s.reserved[0..] == s.reserved;
    } else {
      NamedBelow(s, end);
      LogAnswers.MarkedInv(s, end);
      MarkCounted(s, end);
      MarkedFaithful(s, end, env);
      MarkedReaches(s.(reserved := rs), true, env);
    }
  }

  lemma MarkedFaithful(s: St, end: int, env: Env)
    requires Faithful(env, s)
    ensures Faithful(env, s.(reserved := MarkAcked(s.reserved, end)))
  {
    hide Faithful;
    MarkedCarries(s, s.(reserved := MarkAcked(s.reserved, end)), end);
    SubsetIsLayout(s.files, s.files);
    FaithfulCarries(env, s, s.(reserved := MarkAcked(s.reserved, end)));
  }

  lemma NothingRetired(s: St)
    requires FirstUnretired(s.reserved, s.commitOff) == 0
    ensures DropRetired(s) == s
  {
    assert s.reserved[0..] == s.reserved;
  }

  lemma MarkedReaches(m: St, durable: bool, env: Env)
    requires Inv(m) && Counted(m) && !m.latched && Chain(m.reserved, m.commitOff) && FaultFree(env) && Faithful(env, m)
    ensures var (t, e) := CommitAckedRun(m, durable, env);
            && e == Nil && !t.latched && t.commitOff == RunEnd(m.reserved, m.commitOff)
            && t.reserved == m.reserved[FirstUnretired(m.reserved, t.commitOff)..]
            && Inv(t) && Counted(t) && KeepsLayout(m, t)
            && t.headOff == m.headOff && t.pendingCorrupt == m.pendingCorrupt
  {
    hide CommitAckedRun;
    hide FaultFree;
    hide Faithful;
    hide Inv;
    hide Counted;
    hide Chain;
    ChainAhead(m.reserved, m.commitOff);
    AckedRunReaches(m, durable, env);
    RunHandsOut(m, durable, env);
    assert m.reserved[0..] == m.reserved;
  }

  lemma MarksNothing(rs: seq<Reservation>, end: int)
    requires forall r <- rs :: r.end > end
    ensures MarkAcked(rs, end) == rs
  {
    forall k | 0 <= k < |rs| ensures MarkAcked(rs, end)[k] == rs[k] {
      assert rs[k] in rs;
    }
  }

  lemma RunStands(rs: seq<Reservation>, at: int)
    requires rs != [] ==> !rs[0].acked
    ensures RunEnd(rs, at) == at
  {
  }

  lemma NamedBelow(s: St, end: int)
    requires Inv(s) && Names(s.reserved, end)
    ensures end <= s.headOff
  {
    InvHead(s);
  }

  lemma RunHandsOut(m: St, durable: bool, env: Env)
    requires Inv(m) && Counted(m) && Faithful(env, m)
    ensures var t := CommitAckedRun(m, durable, env).0;
            Inv(t) && Counted(t) && KeepsLayout(m, t)
  {
    hide Inv;
    hide Counted;
    hide CommitDurable;
    hide SameLayout;
    FaithfulHonest(env, m);
    CommitRunKeeps(m, durable, env, {});
    RunCounted(m, durable, env);
    SubsetIsLayout(m.files, m.files);
    CommitKeepsLayout(m, RunEnd(m.reserved, m.commitOff), durable, env);
    SameButLedger(CommitDurable(m, RunEnd(m.reserved, m.commitOff), durable, env).0);
  }

  /** In whatever order the acknowledgements come, repeated or not: with nothing failing, once every entry handed out
      has one, everything handed out is retired. */
  lemma {:induction false} AckAnyOrder(s: St, acks: seq<(int, Env)>)
    requires HandedOut(s) && Smooth(s, acks) && AllAcknowledged(s, acks)
    ensures AckEach(s, acks).commitOff == ChainEnd(s.reserved, s.commitOff) && AckEach(s, acks).reserved == []
    decreases |acks|
  {
    hide Ack;
    hide Smooth;
    hide HandedOut;
    hide AllAcknowledged;
    hide KeepsLayout;
    hide LedgerCarries;
    hide FaultFree;
    hide Faithful;
    hide FirstUnretired;
    hide MarkAcked;
    hide RunEnd;
    hide Names;
    if acks == [] {
      NoneLeft(s);
    } else {
      var end, env := acks[0].0, acks[0].1;
      FirstAck(s, acks);
      AckReaches(s, end, env);
      var t := Ack(s, end, env).0;
      MarkedCarries(s, t, end);
      SmoothAfter(s, t, acks);
      StillAcknowledged(s, t, acks);
      AckAnyOrder(t, acks[1..]);
    }
  }

  lemma NoneLeft(s: St)
    requires HandedOut(s) && AllAcknowledged(s, [])
    ensures s.reserved == []
  {
    assert s.reserved != [] ==> Acknowledged(s, [], s.reserved[0]);
  }

  lemma FirstAck(s: St, acks: seq<(int, Env)>)
    requires acks != [] && Smooth(s, acks) && AllAcknowledged(s, acks)
    ensures FaultFree(acks[0].1) && Faithful(acks[0].1, s)
    ensures acks[0].0 <= s.commitOff || Names(s.reserved, acks[0].0)
  {
    assert acks[0] in acks;
  }

  lemma SmoothAfter(s: St, t: St, acks: seq<(int, Env)>)
    requires acks != [] && Smooth(s, acks) && KeepsLayout(s, t) && LedgerCarries(s, t)
    ensures Smooth(t, acks[1..])
  {
    hide Faithful;
    hide FaultFree;
    forall a <- acks[1..] ensures FaultFree(a.1) && Faithful(a.1, t) {
      assert a in acks;
      FaithfulCarries(a.1, s, t);
    }
  }

  lemma StillAcknowledged(s: St, t: St, acks: seq<(int, Env)>)
    requires acks != [] && AllAcknowledged(s, acks)
    requires var rs := MarkAcked(s.reserved, acks[0].0);
             t.commitOff >= s.commitOff && t.reserved == rs[FirstUnretired(rs, t.commitOff)..]
    ensures AllAcknowledged(t, acks[1..])
  {
    hide Names;
    hide FirstUnretired;
    var rs := MarkAcked(s.reserved, acks[0].0);
    var k := FirstUnretired(rs, t.commitOff);
    forall r <- t.reserved ensures Acknowledged(t, acks[1..], r) {
      var i :| 0 <= i < |t.reserved| && t.reserved[i] == r;
      assert r == rs[k + i];
      var q := s.reserved[k + i];
      assert q in s.reserved && Acknowledged(s, acks, q);
      if !r.acked {
        var a :| a in acks && a.0 == q.end;
        assert a in acks[1..];
      }
    }
    forall a <- acks[1..] ensures a.0 <= t.commitOff || Names(t.reserved, a.0) {
      assert a in acks;
      if a.0 > t.commitOff {
        NamedLater(s, t, rs, acks[0].0, a.0);
      }
    }
  }

  lemma NamedLater(s: St, t: St, rs: seq<Reservation>, marked: int, end: int)
    requires rs == MarkAcked(s.reserved, marked) && t.reserved == rs[FirstUnretired(rs, t.commitOff)..]
    requires Names(s.reserved, end) && end > t.commitOff
    ensures Names(t.reserved, end)
  {
    var r :| r in s.reserved && r.end == end;
    var i :| 0 <= i < |s.reserved| && s.reserved[i] == r;
    var k := FirstUnretired(rs, t.commitOff);
    assert rs[i].end == end && i >= k;
    assert t.reserved[i - k] == rs[i];
  }

  // ----- reading

  /** The read meets no fault and its record has its checksum. */
  ghost predicate ReadsWell(env: Env, s: St) {
    && env.headOpen == Opened && env.sumOK && HonestHead(env, s)
    && forall f <- s.files :: f.base <= s.headOff < f.End() && Mark(f, s.headOff - f.base) ==>
                                Decode(f, s.headOff, env.headFrame).End?
  }

  /** Exactly one record that was laid down lies from a to b. */
  ghost predicate RecordOf(fs: seq<Seg>, a: int, b: int) {
    exists f <- fs :: Holds(f, a, b) && OneRecord(f, a, b)
  }

  /** With nothing owed and nothing failing, a read hands out exactly the record at the read cursor. */
  lemma TakeDelivers(s: St, env: Env) returns (next: int)
    requires Inv(s) && Counted(s) && !s.latched && s.pendingCorrupt == 0 && s.headOff < s.writeOff && ReadsWell(env, s)
    ensures TakeHead(s, env) == (s.(lastFrameAt := s.headOff, lastFrameEnd := next, headOff := next), Delivered(s.headOff, next))
    ensures RecordOf(s.files, s.headOff, next) && s.headOff < next <= s.writeOff && Between(s.files, next)
    ensures Inv(TakeHead(s, env).0) && Counted(TakeHead(s, env).0)
  {
    hide Inv;
    hide Counted;
    hide SkipCorrupt;
    hide OneRecord;
    InvHead(s);
    HeadFrames(s, env);
    var i := FileFor(s.files, s.headOff);
    next := Decode(s.files[i], s.headOff, env.headFrame).next;
    assert s.(latched := s.latched || env.headOpen == OpenedLatched) == s;
    SegmentIn(s, i);
    assert Holds(s.files[i], s.headOff, next);
    DeliverKeeps(s, i, next, {});
    DeliverCounted(s, i, next);
    HeadBetween(s.(lastFrameAt := s.headOff, lastFrameEnd := next, headOff := next));
  }

  lemma HeadFrames(s: St, env: Env)
    requires Inv(s) && Counted(s) && s.headOff < s.writeOff && ReadsWell(env, s)
    ensures var i := FileFor(s.files, s.headOff);
            && i >= 0
            && var b := Decode(s.files[i], s.headOff, env.headFrame);
               b.End? && OneRecord(s.files[i], s.headOff, b.next)
  {
    hide Inv;
    LogSafety.HeadOwned(s);
    var i := FileFor(s.files, s.headOff);
    var f := s.files[i];
    assert f in s.files && Mark(f, f.Pos(s.headOff));
    assert FramesTrue(f, s.headOff, env.headFrame);
  }

  lemma SegmentIn(s: St, i: nat)
    requires Inv(s) && i < |s.files|
    ensures s.files[i] in s.files && s.files[i].End() <= s.writeOff
  {
    SegmentEndsWithin(s, i);
  }

  // ----- a drain

  /** Nothing is out and nothing is owed. */
  ghost predicate Rested(s: St) {
    && Inv(s) && Counted(s) && !s.latched && s.pendingCorrupt == 0 && s.reserved == [] && s.commitOff == s.headOff
  }

  ghost predicate TurnMeets(s: St, take: Env, commit: Env) {
    ReadsWell(take, s) && FaultFree(commit) && Faithful(commit, s)
  }

  /** One turn of the iterators hands out the record at the cursor and commits it. */
  lemma TurnDelivers(s: St, take: Env, commit: Env) returns (next: int)
    requires Rested(s) && s.headOff < s.writeOff && TurnMeets(s, take, commit)
    ensures var (t, d) := DrainTurn(s, take, commit);
            && d == Delivered(s.headOff, next) && RecordOf(s.files, s.headOff, next)
            && CommitDurable(TakeHead(s, take).0, next, true, commit).1 == Nil
            && Rested(t) && t.headOff == next && t.writeOff == s.writeOff && KeepsLayout(s, t)
  {
    hide Inv;
    hide Counted;
    hide TakeHead;
    hide CommitDurable;
    hide ReadsWell;
    hide FaultFree;
    hide Faithful;
    hide RecordOf;
    next := TakeDelivers(s, take);
    var t1 := TakeHead(s, take).0;
    BoundaryAtHead(t1);
    FaithfulAside(commit, s, t1);
    CommitReaches(t1, next, true, commit);
    CommitKeepsInv(t1, next, true, commit);
    FaithfulHonest(commit, t1);
    CommitCounted(t1, next, true, commit);
    CommitKeepsLayout(t1, next, true, commit);
  }

  lemma BoundaryAtHead(s: St)
    requires Inv(s) && Counted(s) && s.reserved == []
    ensures Boundary(s, s.headOff)
  {
    hide SegCounted;
    InvHead(s);
  }

  /** The drain's deliveries, for as long as there is something to read. */
  function Drain(s: St, turns: seq<(Env, Env)>): (St, seq<(int, int)>)
    decreases |turns|
  {
    if turns == [] || s.headOff >= s.writeOff then (s, [])
    else
      var (t, d) := DrainTurn(s, turns[0].0, turns[0].1);
      var (u, xs) := Drain(t, turns[1..]);
      (u, (if d.Delivered? then [(d.at, d.next)] else []) + xs)
  }

  ghost predicate SmoothDrain(s: St, turns: seq<(Env, Env)>)
    decreases |turns|
  {
    turns != [] && s.headOff < s.writeOff ==>
      && TurnMeets(s, turns[0].0, turns[0].1)
      && SmoothDrain(DrainTurn(s, turns[0].0, turns[0].1).0, turns[1..])
  }

  /** The extents follow one another from a to b. */
  ghost predicate FollowOn(xs: seq<(int, int)>, a: int, b: int)
    decreases |xs|
  {
    if xs == [] then a == b else xs[0].0 == a < xs[0].1 && FollowOn(xs[1..], xs[0].1, b)
  }

  /** With nothing failing a drain hands out every record once, in the order they were laid down, and leaves
      everything it handed out committed. */
  lemma {:induction false} DrainDeliversInOrder(s: St, turns: seq<(Env, Env)>)
    requires Rested(s) && SmoothDrain(s, turns)
    ensures var (t, xs) := Drain(s, turns);
            && Rested(t) && t.writeOff == s.writeOff && FollowOn(xs, s.headOff, t.headOff)
            && (forall x <- xs :: RecordOf(s.files, x.0, x.1))
            && (|xs| == |turns| || t.headOff == t.writeOff)
    decreases |turns|
  {
    hide Rested;
    hide TurnMeets;
    hide DrainTurn;
    hide RecordOf;
    hide KeepsLayout;
    RestedHead(s);
    if turns != [] && s.headOff < s.writeOff {
      var next := TurnDelivers(s, turns[0].0, turns[0].1);
      var t := DrainTurn(s, turns[0].0, turns[0].1).0;
      DrainDeliversInOrder(t, turns[1..]);
      var xs := Drain(t, turns[1..]).1;
      RecordPlaced(s.files, s.headOff, next);
      forall x <- xs ensures RecordOf(s.files, x.0, x.1) {
        RecordKept(s, t, x.0, x.1);
      }
      assert ([(s.headOff, next)] + xs)[1..] == xs;
    }
  }

  lemma RestedHead(s: St)
    requires Rested(s)
    ensures s.headOff <= s.writeOff
  {
    InvHead(s);
  }

  lemma RecordPlaced(fs: seq<Seg>, a: int, b: int)
    requires RecordOf(fs, a, b)
    ensures a < b
  {
  }

  lemma RecordKept(s: St, t: St, a: int, b: int)
    requires KeepsLayout(s, t) && RecordOf(t.files, a, b)
    ensures RecordOf(s.files, a, b)
  {
    var g :| g in t.files && Holds(g, a, b) && OneRecord(g, a, b);
    var f :| f in s.files && SameLayout(f, g);
    assert Holds(f, a, b) && OneRecord(f, a, b);
  }

  // ----- handing out and acknowledging

  function ReserveEach(s: St, takes: seq<Env>): St
    decreases |takes|
  {
    if takes == [] then s else ReserveEach(TryReserve(s, takes[0]).0, takes[1..])
  }

  ghost predicate SmoothReads(s: St, takes: seq<Env>)
    decreases |takes|
  {
    takes != [] ==>
      && s.headOff < s.writeOff && ReadsWell(takes[0], s) && SmoothReads(TryReserve(s, takes[0]).0, takes[1..])
  }

  /** Everything up to the read cursor is out, and nothing of it acknowledged. */
  ghost predicate AllOut(s: St) {
    && HandedOut(s) && s.pendingCorrupt == 0 && ChainEnd(s.reserved, s.commitOff) == s.headOff
    && forall r <- s.reserved :: !r.acked
  }

  lemma {:induction false} ChainSnoc(rs: seq<Reservation>, at: int, r: Reservation)
    requires Chain(rs, at) && r.start == ChainEnd(rs, at) < r.end
    ensures Chain(rs + [r], at) && ChainEnd(rs + [r], at) == r.end
    decreases |rs|
  {
    if rs != [] {
      ChainSnoc(rs[1..], rs[0].end, r);
      assert (rs + [r])[1..] == rs[1..] + [r];
    }
  }

  lemma ReserveHandsOut(s: St, take: Env)
    requires AllOut(s) && s.headOff < s.writeOff && ReadsWell(take, s)
    ensures var t := TryReserve(s, take).0;
            AllOut(t) && t.commitOff == s.commitOff && t.files == s.files && t.writeOff == s.writeOff && t.headOff > s.headOff
  {
    hide Inv;
    hide Counted;
    hide TakeHead;
    hide ReadsWell;
    hide OneRecord;
    InvHead(s);
    ChainAhead(s.reserved, s.commitOff);
    var next := TakeDelivers(s, take);
    var t := TakeHead(s, take).0;
    var r := Reservation(s.headOff, next, false, false, 0);
    ReserveTracks(t, s.headOff, next, {});
    OnlyRecord(s, s.headOff, next);
    TrackCounted(t, r);
    assert t.reserved[0..] == t.reserved;
    assert Track(t, r).reserved == s.reserved + [r];
    ChainSnoc(s.reserved, s.commitOff, r);
    assert s.reserved != [] ==> (s.reserved + [r])[0] == s.reserved[0];
  }

  lemma OnlyRecord(s: St, a: int, b: int)
    requires Inv(s) && RecordOf(s.files, a, b)
    ensures Within(s.files, a, b) && forall f <- s.files :: Holds(f, a, b) ==> OneRecord(f, a, b)
  {
    hide OneRecord;
    var g :| g in s.files && Holds(g, a, b) && OneRecord(g, a, b);
    var j :| 0 <= j < |s.files| && s.files[j] == g;
    OwnerIsUnique(s.files, j, a);
    forall f <- s.files | Holds(f, a, b) ensures OneRecord(f, a, b) {
      var i :| 0 <= i < |s.files| && s.files[i] == f;
      OwnerIsUnique(s.files, i, a);
    }
  }

  /** Any number of records handed out, then acknowledged in any order: with nothing failing everything read is
      retired, and nothing is out. */
  lemma ReservedAndAcknowledged(s: St, takes: seq<Env>, acks: seq<(int, Env)>)
    requires AllOut(s) && SmoothReads(s, takes)
    requires var t := ReserveEach(s, takes); Smooth(t, acks) && AllAcknowledged(t, acks)
    ensures var t := ReserveEach(s, takes);
            AckEach(t, acks).commitOff == t.headOff && AckEach(t, acks).reserved == []
  {
    hide AllAcknowledged;
    hide Smooth;
    hide HandedOut;
    ReservesAllOut(s, takes);
    AckAnyOrder(ReserveEach(s, takes), acks);
  }

  lemma {:induction false} ReservesAllOut(s: St, takes: seq<Env>)
    requires AllOut(s) && SmoothReads(s, takes)
    ensures AllOut(ReserveEach(s, takes))
    decreases |takes|
  {
    hide AllOut;
    hide TryReserve;
    hide ReadsWell;
    if takes != [] {
      ReserveHandsOut(s, takes[0]);
      ReservesAllOut(TryReserve(s, takes[0]).0, takes[1..]);
    }
  }

  // ----- stepping past the head

  /** Everything up to the read cursor is out or waits for what is, and nothing of it can be retired yet. */
  ghost predicate Level(s: St) {
    HandedOut(s) && ChainEnd(s.reserved, s.commitOff) == s.headOff
  }

  /** Retired when nothing was out in front of it, and left to the ledger, acknowledged, when something was. */
  ghost predicate SteppedPast(s: St, t: St, next: int) {
    && Level(t) && t.headOff == next && t.commitOff == (if s.reserved == [] then next else s.commitOff)
    && t.reserved == if s.reserved == [] then [] else s.reserved + [Reservation(s.headOff, next, true, false, 0)]
  }

  lemma NotOut(s: St)
    requires Level(s)
    ensures Inv(s) && Counted(s) && !s.latched && Chain(s.reserved, s.commitOff) && s.commitOff <= s.headOff
    ensures ChainEnd(s.reserved, s.commitOff) == s.headOff && (s.reserved != [] ==> !s.reserved[0].acked)
    ensures FirstUnretired(s.reserved, s.commitOff) == 0 && forall q <- s.reserved :: q.start < q.end <= s.headOff
  {
    hide Counted;
    InvHead(s);
    ChainAhead(s.reserved, s.commitOff);
  }

  /** The record is entered behind everything that is out. */
  lemma EntersLedger(s: St, u: St, next: int)
    requires Level(s) && Inv(u) && Counted(u) && u.headOff == next > s.headOff
    requires u.reserved == s.reserved && u.commitOff == s.commitOff && u.latched == s.latched
    requires RecordOf(u.files, s.headOff, next)
    ensures var m := Track(u, Reservation(s.headOff, next, true, false, 0));
            && m == u.(reserved := s.reserved + [Reservation(s.headOff, next, true, false, 0)])
            && Inv(m) && Counted(m) && Chain(m.reserved, m.commitOff) && ChainEnd(m.reserved, m.commitOff) == next
  {
    hide Inv;
    hide Counted;
    hide OneRecord;
    hide Level;
    NotOut(s);
    var r := Reservation(s.headOff, next, true, false, 0);
    OnlyRecord(u, s.headOff, next);
    TrackKeeps(u, r, {});
    TrackCounted(u, r);
    assert u.reserved[0..] == u.reserved;
    ChainSnoc(s.reserved, s.commitOff, r);
  }

  /** A record taken off the head and retired with nothing failing. */
  lemma RetireReaches(s: St, u: St, next: int, durable: bool, env: Env)
    requires Level(s) && Inv(u) && Counted(u) && u.headOff == next > s.headOff
    requires u.reserved == s.reserved && u.commitOff == s.commitOff && u.latched == s.latched
    requires RecordOf(u.files, s.headOff, next) && FaultFree(env) && Faithful(env, u)
    ensures var (t, e) := RetireFrame(u, s.headOff, next, durable, env);
            e == Nil && SteppedPast(s, t, next) && KeepsLayout(u, t) && t.pendingCorrupt == u.pendingCorrupt
  {
    hide Inv;
    hide Counted;
    hide CommitAckedRun;
    hide FaultFree;
    hide Faithful;
    hide Level;
    hide KeepsLayout;
    hide RecordOf;
    NotOut(s);
    EntersLedger(s, u, next);
    var r := Reservation(s.headOff, next, true, false, 0);
    var m := Track(u, r);
    EntryFaithful(u, r, env);
    MarkedReaches(m, durable, env);
    ChainDrops(m.reserved, m.commitOff);
    LayoutAside(m, u, CommitAckedRun(m, durable, env).0);
    RunOver(s.reserved, s.commitOff, r);
    var t := CommitAckedRun(m, durable, env).0;
    LevelNow(t, next);
  }

  lemma LayoutAside(m: St, u: St, t: St)
    requires m.files == u.files && KeepsLayout(m, t)
    ensures KeepsLayout(u, t)
  {
  }

  lemma LevelNow(t: St, next: int)
    requires Inv(t) && Counted(t) && !t.latched && Chain(t.reserved, t.commitOff) && t.headOff == next
    requires ChainEnd(t.reserved, t.commitOff) == next && (t.reserved != [] ==> !t.reserved[0].acked)
    ensures Level(t)
  {
  }

  lemma EntryFaithful(u: St, r: Reservation, env: Env)
    requires Faithful(env, u)
    ensures Faithful(env, u.(reserved := u.reserved + [r]))
  {
    hide Faithful;
    SubsetIsLayout(u.files, u.files);
    FaithfulCarries(env, u, u.(reserved := u.reserved + [r]));
  }

  lemma RunOver(rs: seq<Reservation>, at: int, r: Reservation)
    requires r.acked && r.start == ChainEnd(rs, at) < r.end && (rs != [] ==> !rs[0].acked && rs[0].end > at)
    ensures RunEnd(rs + [r], at) == (if rs == [] then r.end else at)
    ensures (rs + [r])[FirstUnretired(rs + [r], RunEnd(rs + [r], at))..] == if rs == [] then [] else rs + [r]
  {
  }

  /** With nothing failing Skip hands the record at the head to nobody: it is retired, or waits acknowledged. */
  lemma SkipRetires(s: St, take: Env, retire: Env) returns (next: int)
    requires Level(s) && s.pendingCorrupt == 0 && s.headOff < s.writeOff && ReadsWell(take, s)
    requires FaultFree(retire) && Faithful(retire, s)
    ensures var (t, d, e) := Skip(s, take, retire);
            && d == Delivered(s.headOff, next) && RecordOf(s.files, s.headOff, next) && e == Nil
            && SteppedPast(s, t, next) && KeepsLayout(s, t) && t.pendingCorrupt == 0
  {
    hide Inv;
    hide Counted;
    hide TakeHead;
    hide RetireFrame;
    hide ReadsWell;
    hide FaultFree;
    hide Faithful;
    hide RecordOf;
    hide Level;
    hide SteppedPast;
    NotOut(s);
    next := TakeDelivers(s, take);
    var u := TakeHead(s, take).0;
    FaithfulAside(retire, s, u);
    RetireReaches(s, u, next, true, retire);
  }

  /** A record whose checksum fails is booked lost and reported, and does not stand in the cursor's way. */
  lemma DamagedRetires(s: St, env: Env) returns (next: int)
    requires Level(s) && s.pendingCorrupt == 0 && s.headOff < s.writeOff && ReadsWell(env.(sumOK := true), s) && !env.sumOK
    requires FaultFree(env) && Faithful(env, s)
    ensures var (t, d) := TakeHead(s, env);
            && d == Reported(Nil) && RecordOf(s.files, s.headOff, next) && SteppedPast(s, t, next)
            && t.lostBytes == s.lostBytes + next - s.headOff && t.lostRecords == s.lostRecords + 1
            && t.corruptions == s.corruptions + 1 && t.pendingCorrupt == 0
  {
    hide Inv;
    hide Counted;
    hide RetireFrame;
    hide ReadsWell;
    hide FaultFree;
    hide Faithful;
    hide RecordOf;
    hide Level;
    hide SteppedPast;
    hide OneRecord;
    NotOut(s);
    next := DamagedAt(s, env);
    var u := Passed(s, next);
    FaithfulAside(env, s, u);
    RetireReaches(s, u, next, false, env);
    RetireFrameKeeps(u, s.headOff, next, false, env, {});
  }

  lemma DamagedAt(s: St, env: Env) returns (next: int)
    requires Inv(s) && Counted(s) && !s.latched && s.pendingCorrupt == 0 && s.headOff < s.writeOff
    requires ReadsWell(env.(sumOK := true), s) && !env.sumOK
    ensures TakeHead(s, env) == DropFrame(s, next, env) && s.headOff < next
    ensures Inv(Passed(s, next)) && Counted(Passed(s, next)) && RecordOf(s.files, s.headOff, next)
    ensures Within(s.files, s.headOff, next)
  {
    hide Inv;
    hide Counted;
    hide TakeHead;
    hide OneRecord;
    hide ReadsWell;
    HeadFrames(s, env.(sumOK := true));
    var i := FileFor(s.files, s.headOff);
    next := Decode(s.files[i], s.headOff, env.headFrame).next;
    DamagedDrops(s, i, env);
    SegmentIn(s, i);
    assert Holds(s.files[i], s.headOff, next);
    HeadAheadInv(s, i, next);
    InvOrdered(s);
    PassedBetween(s, i, next);
    PassedCounted(s, next);
  }

  lemma DamagedDrops(s: St, i: nat, env: Env)
    requires !s.latched && s.pendingCorrupt == 0 && s.headOff < s.writeOff && FileFor(s.files, s.headOff) == i
    requires ReadsWell(env.(sumOK := true), s) && !env.sumOK && Decode(s.files[i], s.headOff, env.headFrame).End?
    ensures TakeHead(s, env) == DropFrame(s, Decode(s.files[i], s.headOff, env.headFrame).next, env)
  {
    hide FileFor;
    hide DropFrame;
    hide QuarantineHead;
    hide Mark;
    hide HonestHead;
    assert s.(latched := s.latched || env.headOpen == OpenedLatched) == s;
  }

  lemma PassedCounted(s: St, next: int)
    requires Counted(s) && Between(s.files, next)
    ensures Counted(Passed(s, next))
  {
  }

  // ----- rotating the head

  /** Nothing stands in the copy's way; the caps do not bind it. */
  predicate Rotates(s: St, a: AppendEnv) {
    && a.addressable && a.create == Created && a.opens == Opened && a.wrote && a.dataSync && a.header == Wrote
    && a.headerSync && a.tick == TickOk && (s.files != [] ==> !s.files[|s.files| - 1].gone)
  }

  lemma CopyLands(s: St, len: nat, a: AppendEnv)
    requires s.commitOff <= s.writeOff && !s.latched && Rotates(s, a)
    ensures var (t, e) := Append(s, len, true, a);
            e == Nil && !t.latched && t.writeOff == s.writeOff + len
  {
    hide Append;
    hide LogAnswers.InLog;
    hide LogAnswers.NotInLog;
    hide DropCommitted;
    LogAnswers.AppendAnswers(s, len, true, a);
    LogAnswers.GrewBy(s, Append(s, len, true, a).0, len);
  }

  /** With nothing failing Requeue puts a copy at the tail, whatever the caps, and steps the head past the original. */
  lemma RequeueRotates(s: St, take: Env, a: AppendEnv, retire: Env) returns (next: int)
    requires Level(s) && s.pendingCorrupt == 0 && s.headOff < s.writeOff && ReadsWell(take, s) && Rotates(s, a)
    requires var (t, d) := TakeHead(s, take);
             && (Attached(t) || NeedsCycle(t, CopyLen(d)))
             && FaultFree(retire) && Faithful(retire, Append(t, CopyLen(d), true, a).0)
    ensures var (t, d, e, retired) := Requeue(s, take, a, retire);
            && d == Delivered(s.headOff, next) && RecordOf(s.files, s.headOff, next) && e == retired == Nil
            && SteppedPast(s, t, next) && t.writeOff == s.writeOff + (next - s.headOff)
  {
    hide Inv;
    hide Counted;
    hide TakeHead;
    hide Append;
    hide Attached;
    hide NeedsCycle;
    hide RetireFrame;
    hide ReadsWell;
    hide FaultFree;
    hide Faithful;
    hide OneRecord;
    hide Level;
    hide SteppedPast;
    NotOut(s);
    next := TakeDelivers(s, take);
    var t := TakeHead(s, take).0;
    var len := next - s.headOff;
    CopyLands(t, len, a);
    AppendKeeps(t, len, true, a);
    AppendCounted(t, len, true, a);
    OnlyRecord(t, s.headOff, next);
    AppendKeepsWithin(t, len, true, a, s.headOff, next);
    AppendKeepsRecord(t, len, a, s.headOff, next);
    var u := Append(t, len, true, a).0;
    assert RecordOf(u.files, s.headOff, next) by {
      var i :| 0 <= i < |u.files| && u.files[i].base <= s.headOff < next <= u.files[i].End();
      assert u.files[i] in u.files;
    }
    RetireReaches(s, u, next, true, retire);
    RetireFrameKeeps(u, s.headOff, next, true, retire, {});
  }
}
