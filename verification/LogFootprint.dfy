/** Sizing: the byte cap on the backlog, and what the disk bound drawn from it comes to. */
module LogFootprint {
  import opened Ints
  import opened Log
  import opened LogWalk
  import opened LogCommit
  import opened LogOps
  import opened LogSafety
  import opened LogWrites
  import opened LogRuns
  import opened LogAnswers
  import L = LogLimits
  import Reopen

  // ----- the backlog

  function Backlog(s: St): int {
    s.writeOff - s.commitOff
  }

  /** The bytes an operation may add beside the byte cap: a rotation's copy, and a batch's span, whose records are
      admitted as they are staged. */
  function Beside(w: World, op: Op): nat {
    match op
    case RequeueHead(take, _, _) => CopyLen(TakeHead(w.st, take).1)
    case PublishMany(lens, _) => SumLens(lens)
    case _ => 0
  }

  lemma AppendCapped(s: St, len: nat, force: bool, a: AppendEnv)
    requires s.commitOff <= s.writeOff
    ensures var t := Append(s, len, force, a).0;
            && t.writeOff <= s.writeOff + len
            && (t.writeOff != s.writeOff && !force && s.maxBytes > 0 ==> t.writeOff - s.commitOff <= s.maxBytes)
  {
    hide Append;
    hide Room;
    hide BytesDown;
    AppendAnswers(s, len, force, a);
    var t := Append(s, len, force, a).0;
    if Lands(s, len, force, a) {
      GrewBy(s, t, len);
    } else {
      Stood(s, t);
    }
  }

  lemma Stood(s: St, t: St)
    requires NotInLog(s, t)
    ensures t.writeOff == s.writeOff
  {
  }

  /** No operation takes the backlog past the cap, whatever fails, but for what it may add beside it. */
  lemma BacklogStep(w: World, op: Op)
    requires Sound(w) && OntoTail(w, op) && w.st.maxBytes > 0
    ensures Backlog(Exec(w, op).st) <= Max(Backlog(w.st), w.st.maxBytes) + Beside(w, op)
  {
    hide Inv;
    hide TakeHead;
    hide Append;
    hide PublishSpan;
    var s := w.st;
    InvHead(s);
    ExecForward(w, op);
    match op
    case AckOne(_, _) => AckForward(w, op);
    case AckMany(_, _) => AckForward(w, op);
    case Commit(off, env) => CommitKeepsInv(s, off, true, env);
    case RequeueHead(take, a, _) =>
      RequeueForward(w, op);
      TakeHeadKeeps(s, take, w.out);
      InvHead(TakeHead(s, take).0);
      AppendCapped(TakeHead(s, take).0, CopyLen(TakeHead(s, take).1), true, a);
    case AppendOne(len, a) =>
      AppendKeeps(s, len, false, a);
      AppendCapped(s, len, false, a);
    case PublishMany(lens, ans) => SpanAdds(s, lens, ans);
    case RewindAll =>
    case SetPins(_, _) =>
    case SetCap(_) =>
    case _ => ReadForward(w, op);
  }

  lemma SpanAdds(s: St, lens: seq<nat>, ans: WriteAns)
    ensures PublishSpan(s, lens, ans).0.writeOff <= s.writeOff + SumLens(lens)
  {
    hide Grown;
    hide EndsAfter;
  }

  ghost predicate CapStays(w: World, ops: seq<Op>, cap: nat)
    decreases |ops|
  {
    0 < w.st.maxBytes <= cap && (ops != [] ==> CapStays(Exec(w, ops[0]), ops[1..], cap))
  }

  function BesideAll(w: World, ops: seq<Op>): nat
    decreases |ops|
  {
    if ops == [] then 0 else Beside(w, ops[0]) + BesideAll(Exec(w, ops[0]), ops[1..])
  }

  /** Over every run under a byte cap the backlog stays within it, or within what it was, but for rotations and batches. */
  lemma {:induction false} BacklogCapped(w: World, ops: seq<Op>, cap: nat)
    requires Sound(w) && Legal(w, ops) && CapStays(w, ops, cap)
    ensures Backlog(Run(w, ops).st) <= Max(Backlog(w.st), cap) + BesideAll(w, ops)
    decreases |ops|
  {
    hide Sound;
    hide Exec;
    hide OntoTail;
    if ops != [] {
      BacklogStep(w, ops[0]);
      ExecKeeps(w, ops[0]);
      BacklogCapped(Exec(w, ops[0]), ops[1..], cap);
    }
  }

  // ----- the disk

  /** Preallocated bytes that hold nothing. */
  function Slack(fs: seq<Seg>): int {
    if fs == [] then 0 else fs[0].capacity - fs[0].size + Slack(fs[1..])
  }

  /** Nothing reclaimable is held back: each segment begins where the one before it ends, up to the write cursor, and the
      commit cursor is in or behind the first. */
  ghost predicate Unbroken(s: St) {
    && s.files != [] && s.files[0].base <= s.commitOff && s.files[|s.files| - 1].End() == s.writeOff
    && forall i | 0 <= i < |s.files| - 1 :: s.files[i].End() == s.files[i + 1].base
  }

  lemma {:induction false} CapacitySplits(fs: seq<Seg>)
    requires fs != [] && forall i | 0 <= i < |fs| - 1 :: fs[i].End() == fs[i + 1].base
    ensures SumBytes(fs) == HEADER_SIZE * |fs| + fs[|fs| - 1].End() - fs[0].base + Slack(fs)
    decreases |fs|
  {
    if |fs| > 1 {
      var rest := fs[1..];
      forall i | 0 <= i < |rest| - 1 ensures rest[i].End() == rest[i + 1].base {
        assert fs[i + 1].End() == fs[i + 2].base;
      }
      CapacitySplits(rest);
      assert fs[0].End() == fs[1].base;
    } else {
      assert fs[1..] == [];
    }
  }

  /** doc.go's bound on DiskBytes. */
  predicate WithinBound(s: St) {
    s.diskBytes <= s.maxBytes + 2 * s.segmentSize + HEADER_SIZE * |s.files|
  }

  /** It is kept exactly while what is retired in the first segment, and the slack of all of them, fit the room the
      backlog leaves under the cap and two segments more. */
  lemma WithinBoundExactlyWhen(s: St)
    requires Inv(s) && Unbroken(s)
    ensures WithinBound(s) <==>
              s.commitOff - s.files[0].base + Slack(s.files) <= s.maxBytes - Backlog(s) + 2 * s.segmentSize
  {
    hide Slack;
    hide SumWritten;
    hide SumCommitted;
    hide SumBytes;
    CapacitySplits(s.files);
  }

  /** Where every segment but the active one is full to the end it is what doc.go says. */
  lemma FullSegmentsStayWithin(s: St)
    requires Inv(s) && Unbroken(s) && 0 <= Backlog(s) <= s.maxBytes
    requires forall i | 0 <= i < |s.files| - 1 :: s.files[i].size == s.files[i].capacity
    requires s.commitOff - s.files[0].base <= s.segmentSize
    requires var f := s.files[|s.files| - 1]; f.capacity - f.size <= s.segmentSize
    ensures WithinBound(s)
  {
    hide SumWritten;
    hide SumCommitted;
    hide SumBytes;
    SlackOfTail(s.files);
    WithinBoundExactlyWhen(s);
  }

  lemma {:induction false} SlackOfTail(fs: seq<Seg>)
    requires fs != [] && forall i | 0 <= i < |fs| - 1 :: fs[i].size == fs[i].capacity
    ensures Slack(fs) == fs[|fs| - 1].capacity - fs[|fs| - 1].size
    decreases |fs|
  {
    if |fs| > 1 {
      var rest := fs[1..];
      forall i | 0 <= i < |rest| - 1 ensures rest[i].size == rest[i].capacity {
        assert rest[i] == fs[i + 1];
      }
      SlackOfTail(rest);
    } else {
      assert fs[1..] == [];
    }
  }

  // ----- records of just over half a segment

  /** n records of 51 bytes, each alone in a segment of 100. */
  ghost predicate Halves(s: St, n: nat) {
    && n > 0 && |s.files| == n && s.commitOff == s.headOff == 0 && s.writeOff == 51 * n && s.diskBytes == 164 * n
    && !s.latched && s.maxSegments == 0 && s.maxBytes == 255 && s.segmentSize == 100
    && s.files[0].End() == 51
    && s.files[n - 1].size == 51 && s.files[n - 1].capacity == 100 && !s.files[n - 1].gone
  }

  function Start(): St {
    Reopen.Fresh(100, 0, NoSync).(maxBytes := 255)
  }

  lemma FirstHalf(a: AppendEnv)
    requires L.Accepts(a)
    ensures Append(Start(), 51, false, a).1 == Nil && Halves(Append(Start(), 51, false, a).0, 1)
  {
    L.OneLen(51);
    L.AppendsHere(Start(), 51, a);
    hide Append;
  }

  lemma NextHalf(s: St, n: nat, a: AppendEnv)
    requires Halves(s, n) && n < 5 && L.Accepts(a)
    ensures Append(s, 51, false, a).1 == Nil && Halves(Append(s, 51, false, a).0, n + 1)
  {
    L.AppendsNew(s, 51, a);
    hide Append;
    assert DropCommitted(s, -1, a.drop) == s;
    hide DropCommitted;
    L.OneLen(51);
    var u := StartSegment(s, 51, Created).0;
    assert u.files == s.files + [NewSeg(s, 51)];
  }

  /** Five such records under a cap of 255 bytes, nothing failing, take 820 bytes of disk where 775 were promised. */
  lemma FootprintExceeded(a: AppendEnv)
    requires L.Accepts(a)
    ensures var ops := seq(5, i => AppendOne(51, a));
            var w := Run(World(Start(), {}, 0, 0, 0, 0), ops);
            Backlog(w.st) == w.st.maxBytes == 255 && w.st.diskBytes == 820 && !WithinBound(w.st)
  {
    var s := Start();
    FirstHalf(a);
    var s1 := Append(s, 51, false, a).0;
    NextHalf(s1, 1, a);
    var s2 := Append(s1, 51, false, a).0;
    NextHalf(s2, 2, a);
    var s3 := Append(s2, 51, false, a).0;
    NextHalf(s3, 3, a);
    var s4 := Append(s3, 51, false, a).0;
    NextHalf(s4, 4, a);
    hide Append;
    hide Start;
    Repeats(World(s, {}, 0, 0, 0, 0), a);
  }

  function Then(w: World, a: AppendEnv): World {
    w.(st := Append(w.st, 51, false, a).0)
  }

  lemma RunsOn(w: World, op: Op, rest: seq<Op>)
    ensures Run(w, [op] + rest) == Run(Exec(w, op), rest)
  {
    assert ([op] + rest)[1..] == rest;
  }

  lemma Repeats(w: World, a: AppendEnv)
    ensures Run(w, seq(5, i => AppendOne(51, a))) == Then(Then(Then(Then(Then(w, a), a), a), a), a)
  {
    hide Append;
    var op := AppendOne(51, a);
    assert seq(5, i => AppendOne(51, a)) == [op] + [op, op, op, op];
    RunsOn(w, op, [op, op, op, op]);
    RunsOn(Then(w, a), op, [op, op, op]);
    RunsOn(Then(Then(w, a), a), op, [op, op]);
    RunsOn(Then(Then(Then(w, a), a), a), op, [op]);
    RunsOn(Then(Then(Then(Then(w, a), a), a), a), op, []);
    assert [op] + [op, op, op] == [op, op, op, op] && [op] + [op, op] == [op, op, op] && [op] + [op] == [op, op];
    assert [op] + [] == [op];
    hide Exec;
  }
}
