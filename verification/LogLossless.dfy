/** I/O errors alone lose nothing: while what was laid down is still there to be read, an operation that meets a failure
    is refused or carries on, and no loss is ever booked, reported or owed. */
module LogLossless {
  import opened Ints
  import opened Log
  import opened LogWalk
  import opened LogCommit
  import opened LogOps
  import opened LogSafety
  import opened LogWrites
  import opened LogRuns
  import opened LogCounts

  // ----- bytes that are still there

  /** At a record's start a read finds the record or fails; it never finds something else. */
  ghost predicate Legible(f: Seg, off: int, ans: FrameAns) {
    f.base <= off < f.End() && Mark(f, off - f.base) ==> !Decode(f, off, ans).NoBoundary?
  }

  /** No file is gone and every record laid down is as it was. Any open, read, write or fsync may fail. */
  ghost predicate Preserved(env: Env, fs: seq<Seg>) {
    && Honest(env, fs) && (forall off :: env.open(off) != Gone)
    && forall f <- fs, off :: Legible(f, off, env.frame(off))
  }

  ghost predicate PreservedHead(env: Env, s: St) {
    && HonestHead(env, s) && env.headOpen != Gone && env.sumOK
    && forall f <- s.files :: Legible(f, s.headOff, env.headFrame)
  }

  // ----- nothing lost

  predicate NoneGivenUp(rs: seq<Reservation>) {
    forall r <- rs :: !r.corrupt
  }

  /** No loss has been booked that was not booked before, and none is owed a report. */
  predicate SameLosses(s: St, t: St) {
    && t.corruptions == s.corruptions && t.lostBytes == s.lostBytes && t.lostRecords == s.lostRecords
    && t.lostSegments == s.lostSegments && t.pendingCorrupt == s.pendingCorrupt
  }

  // ----- a commit

  lemma FrameFoundOrRefused(s0: St, s: St, i: nat, off: int, env: Env)
    requires WalkPre(s0, off) && Preserved(env, s0.files) && Frozen(s0, s) && s0.commitOff <= s.commitOff
    requires FileFor(s.files, s.commitOff) == i && SegCounted(s.files[i], s.commitOff)
    ensures var b := FrameEnd(s, s.files[i], env); b.BoundaryErr? || (b.End? && s.commitOff < b.next <= s.files[i].End())
  {
    hide FramesTrue;
    hide Ordered;
    BoundariesInFile(s0, s, i, off, env);
    var f := s.files[i];
    assert SameSeg(s0.files[i], f) && s0.files[i] in s0.files;
    if s.lastFrameEnd != 0 && s.lastFrameAt == s.commitOff {
      assert Within(s0.files, s.lastFrameAt, s.lastFrameEnd);
    } else {
      assert Legible(s0.files[i], s.commitOff, env.frame(s.commitOff));
    }
  }

  lemma NoEntryGivenUp(s: St)
    requires NoneGivenUp(s.reserved)
    ensures EntryHere(s).EntryAt? ==> !EntryHere(s).r.corrupt
  {
  }

  lemma CrossLosesNothing(s0: St, s: St, i: nat, off: int, cur: int, env: Env)
    requires WalkPre(s0, off) && WalkInv(s0, s, cur, off) && !s.latched && s.commitOff < off
    requires FileFor(s.files, s.commitOff) == i && (cur == -1 || cur == i)
    requires Preserved(env, s0.files) && StoreCounted(s) && NoneGivenUp(s0.reserved) && Inv(s0)
    ensures var r := Cross(s, i, off, cur, env);
            SameLosses(s, r.s) && r.s.headOff == s.headOff
  {
    hide WalkInv;
    hide WalkPre;
    hide SkipCorrupt;
    hide FrameEnd;
    hide EntryHere;
    hide Honest;
    hide SegCounted;
    hide Between;
    hide Inv;
    InvShape0(s0, s, cur, off);
    FrameFoundOrRefused(s0, s, i, off, env);
    NoEntryGivenUp(s);
    TailWithin(s0, s, i);
  }

  lemma TailWithin(s0: St, s: St, i: nat)
    requires Inv(s0) && Frozen(s0, s) && i < |s.files|
    ensures s.files[i].End() <= s.writeOff
  {
    SegmentEndsWithin(s0, i);
    assert SameSeg(s0.files[i], s.files[i]);
  }

  lemma PersistLosesNothing(s: St, i: nat, perOp: bool, env: Env)
    requires i < |s.files|
    ensures SameLosses(s, Persist(s, i, perOp, env).0) && Persist(s, i, perOp, env).0.headOff == s.headOff
  {
  }

  lemma StepLosesNothing(s0: St, s: St, off: int, perOp: bool, cur: int, env: Env)
    requires WalkPre(s0, off) && WalkInv(s0, s, cur, off) && !s.latched && s.commitOff < off && Inv(s0)
    requires Preserved(env, s0.files) && StoreCounted(s) && NoneGivenUp(s0.reserved)
    ensures var r := WalkStep(s, off, perOp, cur, env);
            SameLosses(s, r.s) && r.s.headOff == s.headOff
  {
    hide WalkInv;
    hide WalkPre;
    hide Cross;
    hide Persist;
    hide StoreCounted;
    hide Preserved;
    hide Inv;
    InvShape0(s0, s, cur, off);
    InvOrdered(s0);
    var i := FileFor(s.files, s.commitOff);
    if i >= 0 {
      if 0 <= cur != i {
        PersistLosesNothing(s, cur, perOp, env);
        ShapeKeepsOrder(s0.files, s.files);
        PersistCounted(s, cur, perOp, env);
        PersistKeeps(s0, s, cur, off, perOp, env);
        PersistFrozen(s, cur, perOp, env);
        var (s1, e) := Persist(s, cur, perOp, env);
        if e == Nil {
          SameLookup(s.files, s1.files, s.commitOff);
          CrossLosesNothing(s0, s1, i, off, -1, env);
        }
      } else {
        CrossLosesNothing(s0, s, i, off, cur, env);
      }
    }
  }

  lemma PreservedHonest(env: Env, fs: seq<Seg>)
    requires Preserved(env, fs)
    ensures Honest(env, fs)
  {
  }

  lemma {:induction false} WalkLosesNothing(s0: St, s: St, off: int, perOp: bool, cur: int, env: Env)
    requires WalkPre(s0, off) && WalkInv(s0, s, cur, off) && !s.latched && Inv(s0)
    requires Preserved(env, s0.files) && StoreCounted(s) && LedgerCounted(s0) && NoneGivenUp(s0.reserved)
    ensures var r := Walk(s, off, perOp, cur, env);
            SameLosses(s, r.s) && r.s.headOff == s.headOff
    decreases Max(0, off - s.commitOff)
  {
    hide WalkInv;
    hide WalkPre;
    hide WalkStep;
    hide StoreCounted;
    hide LedgerCounted;
    hide Preserved;
    hide Inv;
    InvShape0(s0, s, cur, off);
    if s.commitOff < off {
      StepLosesNothing(s0, s, off, perOp, cur, env);
      PreservedHonest(env, s0.files);
      StepKeeps(s0, s, off, perOp, cur, env);
      StepCounts(s0, s, off, perOp, cur, env);
      StepFrozen(s, off, perOp, cur, env);
      match WalkStep(s, off, perOp, cur, env) {
        case Halt(s1, cur1, _) =>
        case Go(s1, cur1) => WalkLosesNothing(s0, s1, off, perOp, cur1, env);
      }
    }
  }

  lemma EndLosesNothing(before: int, w: Step, durable: bool, perOp: bool, env: Env)
    ensures SameLosses(w.s, CommitEnd(before, w, durable, perOp, env).0)
  {
    hide Persist;
    hide DropCommitted;
    if 0 <= w.cur < |w.s.files| {
      PersistLosesNothing(w.s, w.cur, perOp, env);
    }
    var (s1, e) := if 0 <= w.cur < |w.s.files| then Persist(w.s, w.cur, perOp, env) else (w.s, Nil);
    var t := Ticked(s1, durable, env).0;
    var u := t.(headOff := Max(t.headOff, t.commitOff));
    DropLeaves(u, |u.files| - 1, env);
  }

  /** A commit that meets I/O errors and no damage stops where it has to and books nothing. */
  lemma CommitLosesNothing(s: St, off: int, durable: bool, env: Env)
    requires Inv(s) && Counted(s) && Preserved(env, s.files) && NoneGivenUp(s.reserved)
    ensures SameLosses(s, CommitDurable(s, off, durable, env).0) && CommitDurable(s, off, durable, env).0.reserved == s.reserved
  {
    hide Inv;
    hide WalkInv;
    hide WalkPre;
    hide CommitEnd;
    hide StoreCounted;
    hide LedgerCounted;
    hide Preserved;
    InvOrdered(s);
    if !s.latched && off > s.commitOff {
      var to, perOp := Min(off, s.writeOff), durable && s.policy == PerOp;
      WalkMayBegin(s, to);
      CountedBySeqs(s);
      WalkKeeps(s, s, to, perOp, -1, env);
      WalkLosesNothing(s, s, to, perOp, -1, env);
      var w := Walk(s, to, perOp, -1, env);
      EndLosesNothing(s.commitOff, w, durable, perOp, env);
    }
    CommitKeepsInv(s, off, durable, env);
  }

  // ----- acknowledging and reading

  lemma RunLosesNothing(s: St, durable: bool, env: Env)
    requires Inv(s) && Counted(s) && Preserved(env, s.files) && NoneGivenUp(s.reserved)
    ensures var t := CommitAckedRun(s, durable, env).0;
            SameLosses(s, t) && NoneGivenUp(t.reserved)
  {
    hide Inv;
    hide Counted;
    hide CommitDurable;
    hide Preserved;
    hide RunEnd;
    var target := RunEnd(s.reserved, s.commitOff);
    CommitLosesNothing(s, target, durable, env);
    SameButLedger(CommitDurable(s, target, durable, env).0);
  }

  lemma RetireLosesNothing(s: St, start: int, end: int, env: Env)
    requires Inv(s) && Counted(s) && Preserved(env, s.files) && NoneGivenUp(s.reserved)
    requires start < end <= s.headOff && Within(s.files, start, end) && forall q <- s.reserved :: q.end <= start
    requires forall f <- s.files :: Holds(f, start, end) ==> OneRecord(f, start, end)
    ensures var t := RetireFrame(s, start, end, true, env).0;
            SameLosses(s, t) && NoneGivenUp(t.reserved)
  {
    hide Inv;
    hide Counted;
    hide CommitAckedRun;
    hide Preserved;
    hide OneRecord;
    var r := Reservation(start, end, true, false, 0);
    TrackKeeps(s, r, {});
    TrackCounted(s, r);
    SameButLedger(s);
    hide DropRetired;
    RunLosesNothing(Track(s, r), true, env);
  }

  /** A read delivers, or finds the log drained, or is refused; it reports nothing. */
  lemma TakeLosesNothing(s: St, env: Env)
    requires Inv(s) && Counted(s) && PreservedHead(env, s) && s.pendingCorrupt == 0
    ensures var (t, d) := TakeHead(s, env);
            SameLosses(s, t) && t.reserved == s.reserved && !d.Reported?
  {
    hide SkipCorrupt;
    hide DropFrame;
    hide Inv;
    hide StoreCounted;
    hide LedgerCounted;
    hide HonestHead;
    if s.headOff < s.writeOff {
      LogSafety.HeadOwned(s);
      var i := FileFor(s.files, s.headOff);
      var f := s.files[i];
      assert f in s.files && Mark(f, f.Pos(s.headOff)) && Legible(f, s.headOff, env.headFrame);
    }
  }

  lemma AppendLosesNothing(s: St, len: nat, force: bool, a: AppendEnv)
    ensures var t := Append(s, len, force, a).0;
            SameLosses(s, t) && t.reserved == s.reserved
  {
    hide DropCommitted;
    hide PublishSpan;
    DropLeaves(s, -1, a.drop);
    var (c, e) := if NeedsCycle(s, len) then Cycle(s, len, force, a) else (s, Nil);
    PublishLosesNothing(c.(latched := a.opens == OpenedLatched), [len], a.header);
  }

  lemma PublishLosesNothing(s: St, lens: seq<nat>, ans: WriteAns)
    ensures var t := PublishSpan(s, lens, ans).0;
            SameLosses(s, t) && t.reserved == s.reserved
  {
    hide Grown;
    hide EndsAfter;
  }

  lemma {:induction false} MarkAllLosesNothing(s: St, ends: seq<int>)
    requires NoneGivenUp(s.reserved)
    ensures SameLosses(s, MarkAll(s, ends).0) && NoneGivenUp(MarkAll(s, ends).0.reserved)
    ensures MarkAll(s, ends).0.files == s.files
    decreases |ends|
  {
    if ends != [] {
      MarkedNoneGivenUp(s.reserved, ends[0]);
      MarkAllLosesNothing(s, ends[1..]);
      MarkAllLosesNothing(s.(reserved := MarkAcked(s.reserved, ends[0])), ends[1..]);
    }
  }

  lemma MarkedNoneGivenUp(rs: seq<Reservation>, end: int)
    requires NoneGivenUp(rs)
    ensures NoneGivenUp(MarkAcked(rs, end))
  {
    forall r <- MarkAcked(rs, end) ensures !r.corrupt {
      var q := Unmarked(rs, end, r);
    }
  }

  // ----- every operation, and every run

  /** The operation may meet any failure; what was laid down is still there. */
  ghost predicate PreservedOp(w: World, op: Op) {
    match op
    case Reserve(env) => PreservedHead(env, w.st) && Preserved(env, w.st.files)
    case TakeUncommitted(env) => PreservedHead(env, w.st) && Preserved(env, w.st.files)
    case Reject(env) => PreservedHead(env, w.st) && Preserved(env, w.st.files)
    case AckOne(_, env) => Preserved(env, w.st.files)
    case AckMany(_, env) => Preserved(env, w.st.files)
    case Commit(_, env) => Preserved(env, w.st.files)
    case SkipHead(take, retire) =>
      PreservedHead(take, w.st) && Preserved(take, w.st.files) && Preserved(retire, TakeHead(w.st, take).0.files)
    case RequeueHead(take, a, retire) =>
      var (t, d) := TakeHead(w.st, take);
      && PreservedHead(take, w.st) && Preserved(take, w.st.files)
      && (d.Delivered? ==> Preserved(retire, Append(t, d.next - d.at, true, a).0.files))
    case AppendOne(len, _) => len > 0
    case PublishMany(lens, _) => Positive(lens)
    case _ => true
  }

  ghost predicate PreservedRun(w: World, ops: seq<Op>)
    decreases |ops|
  {
    ops != [] ==> PreservedOp(w, ops[0]) && PreservedRun(Exec(w, ops[0]), ops[1..])
  }

  ghost predicate Lossless(w: World) {
    Sound(w) && Counted(w.st) && w.st.pendingCorrupt == 0 && NoneGivenUp(w.st.reserved)
  }

  lemma PreservedIsHonest(w: World, op: Op)
    requires PreservedOp(w, op)
    ensures HonestOp(w, op)
  {
    hide Honest;
    hide HonestHead;
    hide TakeHead;
    hide Append;
  }

  lemma ReadLosesNothing(w: World, op: Op)
    requires Lossless(w) && PreservedOp(w, op) && (op.Reserve? || op.TakeUncommitted? || op.Reject?)
    ensures SameLosses(w.st, Exec(w, op).st) && NoneGivenUp(Exec(w, op).st.reserved) && Exec(w, op).answers == w.answers
  {
    hide Inv;
    hide Counted;
    hide TakeHead;
    hide PreservedHead;
    TakeLosesNothing(w.st, op.take);
    SameButLedger(TakeHead(w.st, op.take).0);
  }

  lemma AckLosesNothing(w: World, op: Op)
    requires Lossless(w) && PreservedOp(w, op) && (op.AckOne? || op.AckMany?)
    ensures SameLosses(w.st, Exec(w, op).st) && NoneGivenUp(Exec(w, op).st.reserved) && Exec(w, op).answers == w.answers
  {
    hide Inv;
    hide Counted;
    hide CommitAckedRun;
    hide Preserved;
    var s := w.st;
    SameButLedger(s);
    LedgerOnlyCounted(s, DropRetired(s).reserved);
    DropRetiredKeeps(s, w.out);
    var d := DropRetired(s);
    hide DropRetired;
    match op {
      case AckOne(off, env) =>
        MarkCounted(d, off);
        MarkedNoneGivenUp(d.reserved, off);
        if Names(d.reserved, off) {
          MarkKeeps(d, off, w.out);
          RunLosesNothing(d.(reserved := MarkAcked(d.reserved, off)), true, env);
        }
      case AckMany(offs, env) =>
        MarkAllCounted(d, offs);
        MarkAllKeeps(d, offs, w.out);
        MarkAllLosesNothing(d, offs);
        RunLosesNothing(MarkAll(d, offs).0, true, env);
      case _ =>
    }
  }

  lemma SkipLosesNothing(w: World, op: Op)
    requires Lossless(w) && PreservedOp(w, op) && op.SkipHead?
    ensures SameLosses(w.st, Exec(w, op).st) && NoneGivenUp(Exec(w, op).st.reserved) && Exec(w, op).answers == w.answers
  {
    hide Inv;
    hide Counted;
    hide TakeHead;
    hide RetireFrame;
    hide Preserved;
    hide OneRecord;
    var s := w.st;
    PreservedHonest(op.take, s.files);
    TakeLosesNothing(s, op.take);
    TakeCounted(s, op.take);
    TakeHeadKeeps(s, op.take, w.out);
    InvHead(s);
    var (t, d) := TakeHead(s, op.take);
    if d.Delivered? {
      RetireLosesNothing(t, d.at, d.next, op.retire);
    }
  }

  lemma RequeueLosesNothing(w: World, op: Op)
    requires Lossless(w) && PreservedOp(w, op) && op.RequeueHead? && OntoTail(w, op)
    ensures SameLosses(w.st, Exec(w, op).st) && NoneGivenUp(Exec(w, op).st.reserved) && Exec(w, op).answers == w.answers
  {
    hide Inv;
    hide Counted;
    hide TakeHead;
    hide Append;
    hide RetireFrame;
    hide Preserved;
    hide OneRecord;
    hide Attached;
    hide NeedsCycle;
    var s, a := w.st, op.a;
    PreservedHonest(op.take, s.files);
    TakeLosesNothing(s, op.take);
    TakeCounted(s, op.take);
    TakeHeadKeeps(s, op.take, w.out);
    InvHead(s);
    var (t, d) := TakeHead(s, op.take);
    if d.Delivered? {
      var n := d.next - d.at;
      AppendLosesNothing(t, n, true, a);
      AppendKeeps(t, n, true, a);
      AppendCounted(t, n, true, a);
      AppendKeepsWithin(t, n, true, a, d.at, d.next);
      AppendKeepsRecord(t, n, a, d.at, d.next);
      var (u, e) := Append(t, n, true, a);
      if e == Nil {
        RetireLosesNothing(u, d.at, d.next, op.retire);
      }
    }
  }

  lemma ExecLosesNothing(w: World, op: Op)
    requires Lossless(w) && PreservedOp(w, op) && OntoTail(w, op)
    ensures SameLosses(w.st, Exec(w, op).st) && NoneGivenUp(Exec(w, op).st.reserved)
    ensures Exec(w, op).answers == w.answers
  {
    hide Inv;
    hide Counted;
    match op
    case Reserve(_) => ReadLosesNothing(w, op);
    case TakeUncommitted(_) => ReadLosesNothing(w, op);
    case Reject(_) => ReadLosesNothing(w, op);
    case AckOne(_, _) => AckLosesNothing(w, op);
    case AckMany(_, _) => AckLosesNothing(w, op);
    case Commit(off, env) => CommitLosesNothing(w.st, off, true, env);
    case SkipHead(_, _) => SkipLosesNothing(w, op);
    case RequeueHead(_, _, _) => RequeueLosesNothing(w, op);
    case RewindAll =>
    case AppendOne(len, a) => AppendLosesNothing(w.st, len, false, a);
    case PublishMany(lens, ans) => PublishLosesNothing(w.st, lens, ans);
    case SetPins(i, pins) =>
    case SetCap(bytes) =>
  }

  /** In every run over bytes that are still there, whatever opens, reads, writes and fsyncs fail: no loss is booked or
      reported, and what the read cursor has moved over since it was last rewound has all been delivered. */
  lemma {:induction false} FailuresLoseNothing(w: World, ops: seq<Op>)
    requires Lossless(w) && Legal(w, ops) && PreservedRun(w, ops)
    ensures var u := Run(w, ops);
            && Lossless(u) && SameLosses(w.st, u.st) && u.answers == w.answers
            && u.st.headOff - u.headMark == u.delivered + u.st.lostBytes - u.lostMark
    decreases |ops|
  {
    hide Inv;
    hide Counted;
    hide Exec;
    hide PreservedOp;
    if ops != [] {
      ExecKeeps(w, ops[0]);
      PreservedIsHonest(w, ops[0]);
      ExecCounts(w, ops[0]);
      ExecLosesNothing(w, ops[0]);
      FailuresLoseNothing(Exec(w, ops[0]), ops[1..]);
    }
  }
}
