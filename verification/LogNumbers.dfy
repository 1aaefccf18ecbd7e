/** Segment numbers: they ascend along the log, and a new segment never takes one that is in use. Recovery puts the files
    it finds in the order of their numbers. */
module LogNumbers {
  import opened Ints
  import opened Log
  import opened LogWalk
  import opened LogCommit
  import opened LogOps
  import opened LogSafety
  import opened LogWrites
  import opened LogRuns
  import opened Reopen
  import A = LogAnswers
  import R = Recovery

  ghost predicate Ascend(fs: seq<Seg>) {
    forall i, j | 0 <= i < j < |fs| :: fs[i].num < fs[j].num
  }

  ghost predicate Numbered(s: St) {
    Ascend(s.files) && forall f <- s.files :: f.num < s.nextNum
  }

  lemma FrozenNumbered(s: St, t: St)
    requires Numbered(s) && Frozen(s, t)
    ensures Numbered(t)
  {
    forall i | 0 <= i < |t.files| ensures t.files[i].num == s.files[i].num && s.files[i] in s.files {
      assert SameSeg(s.files[i], t.files[i]);
    }
  }

  lemma AscendTail(fs: seq<Seg>)
    requires Ascend(fs) && fs != []
    ensures Ascend(fs[1..]) && forall g <- fs[1..] :: fs[0].num < g.num
  {
    forall g <- fs[1..] ensures fs[0].num < g.num {
      var i :| 0 <= i < |fs[1..]| && fs[1..][i] == g;
      assert g == fs[i + 1];
    }
  }

  lemma {:induction false} ReclaimAscends(fs: seq<Seg>, upTo: int, keep: int, env: Env)
    requires Ascend(fs)
    ensures Ascend(Reclaim(fs, upTo, keep, env).files)
  {
    hide Ascend;
    if fs != [] && keep != 0 && fs[0].End() <= upTo {
      AscendTail(fs);
      ReclaimAscends(fs[1..], upTo, keep - 1, env);
      ReclaimSubset(fs[1..], upTo, keep - 1, env);
      AscendCons(fs[0], Reclaim(fs[1..], upTo, keep - 1, env).files);
    }
  }

  lemma AscendCons(f: Seg, gs: seq<Seg>)
    requires Ascend(gs) && forall g <- gs :: f.num < g.num
    ensures Ascend([f] + gs)
  {
    forall i, j | 0 <= i < j < |gs| + 1 ensures ([f] + gs)[i].num < ([f] + gs)[j].num {
      assert ([f] + gs)[j] == gs[j - 1];
    }
  }

  lemma DropNumbered(s: St, keep: int, env: Env)
    requires Numbered(s)
    ensures Numbered(DropCommitted(s, keep, env)) && DropCommitted(s, keep, env).nextNum == s.nextNum
  {
    hide Ascend;
    ReclaimAscends(s.files, s.commitOff, keep, env);
    ReclaimSubset(s.files, s.commitOff, keep, env);
    hide Reclaim;
  }

  // ----- consuming

  lemma CommitNumbered(s: St, off: int, durable: bool, env: Env)
    requires Inv(s) && Numbered(s)
    ensures Numbered(CommitDurable(s, off, durable, env).0)
  {
    hide Inv;
    hide WalkInv;
    hide WalkPre;
    hide CommitEnd;
    hide Numbered;
    InvOrdered(s);
    if !s.latched && off > s.commitOff {
      var to, perOp := Min(off, s.writeOff), durable && s.policy == PerOp;
      WalkMayBegin(s, to);
      WalkKeeps(s, s, to, perOp, -1, env);
      var w := Walk(s, to, perOp, -1, env);
      A.WalkShape(s, w.s, w.cur, to);
      FrozenNumbered(s, w.s);
      EndNumbered(s.commitOff, w, durable, perOp, env);
    }
  }

  lemma EndNumbered(before: int, w: Step, durable: bool, perOp: bool, env: Env)
    requires Numbered(w.s)
    ensures Numbered(CommitEnd(before, w, durable, perOp, env).0)
  {
    hide Persist;
    hide DropCommitted;
    hide Ascend;
    var (s1, e) := if 0 <= w.cur < |w.s.files| then Persist(w.s, w.cur, perOp, env) else (w.s, Nil);
    if 0 <= w.cur < |w.s.files| {
      PersistFrozen(w.s, w.cur, perOp, env);
      FrozenNumbered(w.s, s1);
    }
    var t := Ticked(s1, durable, env).0;
    var u := t.(headOff := Max(t.headOff, t.commitOff));
    DropNumbered(u, |u.files| - 1, env);
  }

  lemma AckedRunNumbered(s: St, durable: bool, env: Env)
    requires Inv(s) && Numbered(s)
    ensures Numbered(CommitAckedRun(s, durable, env).0)
  {
    hide Inv;
    hide CommitDurable;
    hide Ascend;
    CommitNumbered(s, RunEnd(s.reserved, s.commitOff), durable, env);
  }

  lemma RetireNumbered(s: St, start: int, end: int, durable: bool, env: Env)
    requires Inv(s) && start < end <= s.headOff && Within(s.files, start, end) && forall q <- s.reserved :: q.end <= start
    requires Numbered(s)
    ensures Numbered(RetireFrame(s, start, end, durable, env).0)
  {
    hide Inv;
    hide CommitAckedRun;
    hide Ascend;
    var r := Reservation(start, end, true, false, 0);
    TrackKeeps(s, r, {});
    AckedRunNumbered(Track(s, r), durable, env);
  }

  lemma SkipNumbered(s: St, env: Env)
    requires Numbered(s) && FileFor(s.files, s.headOff) >= 0
    ensures Numbered(SkipCorrupt(s, s.headOff, env).0)
  {
    hide RetireRest;
    hide Ascend;
    var i := FileFor(s.files, s.headOff);
    RetireRestFrozen(s, i, env);
    FrozenNumbered(s, RetireRest(s, i, env).0);
  }

  lemma DropFrameNumbered(s: St, i: nat, next: int, env: Env)
    requires Inv(s) && Numbered(s) && FileFor(s.files, s.headOff) == i && s.headOff < next <= s.files[i].End()
    ensures Numbered(DropFrame(s, next, env).0)
  {
    hide Inv;
    hide RetireFrame;
    hide Ascend;
    InvHead(s);
    HeadAheadInv(s, i, next);
    assert Within(s.files, s.headOff, next);
    RetireNumbered(Passed(s, next), s.headOff, next, false, env);
  }

  lemma TakeNumbered(s: St, env: Env)
    requires Inv(s) && Numbered(s)
    ensures Numbered(TakeHead(s, env).0)
  {
    hide Inv;
    hide SkipCorrupt;
    hide DropFrame;
    hide Ascend;
    hide FileFor;
    if s.headOff < s.writeOff {
      HeadOwned(s);
      var s1 := s.(latched := s.latched || env.headOpen == OpenedLatched);
      LatchKeeps(s, env.headOpen == OpenedLatched, {});
      SkipNumbered(s, env);
      SkipNumbered(s1, env);
      var i := FileFor(s.files, s.headOff);
      var b := Decode(s.files[i], s.headOff, env.headFrame);
      if b.End? {
        DropFrameNumbered(s1, i, b.next, env);
      }
    }
  }

  // ----- producing

  lemma PublishNumbered(s: St, lens: seq<nat>, ans: WriteAns)
    requires Numbered(s)
    ensures Numbered(PublishSpan(s, lens, ans).0) && PublishSpan(s, lens, ans).0.nextNum == s.nextNum
  {
    hide Numbered;
    hide EndsAfter;
    hide SumLens;
    SameNumbers(s, PublishSpan(s, lens, ans).0);
  }

  lemma SameNumbers(s: St, t: St)
    requires Numbered(s) && t.nextNum == s.nextNum && |t.files| == |s.files|
    requires forall i | 0 <= i < |t.files| :: t.files[i].num == s.files[i].num
    ensures Numbered(t)
  {
    forall g <- t.files ensures g.num < t.nextNum {
      var i :| 0 <= i < |t.files| && t.files[i] == g;
      assert s.files[i] in s.files;
    }
  }

  lemma CycleNumbered(s: St, need: nat, force: bool, a: AppendEnv)
    requires Numbered(s)
    ensures Numbered(Cycle(s, need, force, a).0)
  {
    hide DropCommitted;
    DropNumbered(s, -1, a.drop);
  }

  lemma AppendNumbered(s: St, len: nat, force: bool, a: AppendEnv)
    requires Numbered(s)
    ensures Numbered(Append(s, len, force, a).0)
  {
    hide Cycle;
    hide PublishSpan;
    hide Ascend;
    CycleNumbered(s, len, force, a);
    var (c, e) := if NeedsCycle(s, len) then Cycle(s, len, force, a) else (s, Nil);
    PublishNumbered(c.(latched := a.opens == OpenedLatched), [len], a.header);
  }

  // ----- every operation, and every run

  lemma ReadNumbered(w: World, op: Op)
    requires Sound(w) && Numbered(w.st) && (op.Reserve? || op.TakeUncommitted? || op.Reject? || op.SkipHead?)
    ensures Numbered(Exec(w, op).st)
  {
    hide Inv;
    hide TakeHead;
    hide RetireFrame;
    hide Ascend;
    TakeNumbered(w.st, op.take);
    TakeHeadKeeps(w.st, op.take, w.out);
    InvHead(w.st);
    var (t, d) := TakeHead(w.st, op.take);
    if d.Delivered? && op.SkipHead? {
      RetireNumbered(t, d.at, d.next, true, op.retire);
    }
  }

  lemma AckNumbered(w: World, op: Op)
    requires Sound(w) && Numbered(w.st) && (op.AckOne? || op.AckMany?)
    ensures Numbered(Exec(w, op).st)
  {
    hide Inv;
    hide CommitAckedRun;
    hide Ascend;
    hide Safe;
    var s := w.st;
    SameButLedger(s);
    DropRetiredKeeps(s, {});
    var d := DropRetired(s);
    NoneOut(d);
    hide DropRetired;
    match op {
      case AckOne(off, env) =>
        if Names(d.reserved, off) {
          MarkKeeps(d, off, {});
          AckedRunNumbered(d.(reserved := MarkAcked(d.reserved, off)), true, env);
        }
      case AckMany(offs, env) =>
        MarkAllKeeps(d, offs, {});
        MarkAllSame(d, offs);
        AckedRunNumbered(MarkAll(d, offs).0, true, env);
      case _ =>
    }
  }

  lemma {:induction false} MarkAllSame(s: St, ends: seq<int>)
    ensures MarkAll(s, ends).0 == s.(reserved := MarkAll(s, ends).0.reserved)
    decreases |ends|
  {
    if ends != [] {
      MarkAllSame(s, ends[1..]);
      MarkAllSame(s.(reserved := MarkAcked(s.reserved, ends[0])), ends[1..]);
    }
  }

  lemma RequeueNumbered(w: World, op: Op)
    requires Sound(w) && Numbered(w.st) && op.RequeueHead? && OntoTail(w, op)
    ensures Numbered(Exec(w, op).st)
  {
    hide Inv;
    hide TakeHead;
    hide Append;
    hide RetireFrame;
    hide Ascend;
    hide Attached;
    hide NeedsCycle;
    var s, a := w.st, op.a;
    TakeNumbered(s, op.take);
    TakeHeadKeeps(s, op.take, w.out);
    InvHead(s);
    var (t, d) := TakeHead(s, op.take);
    if d.Delivered? {
      var n := d.next - d.at;
      AppendNumbered(t, n, true, a);
      AppendKeeps(t, n, true, a);
      AppendKeepsWithin(t, n, true, a, d.at, d.next);
      var (u, e) := Append(t, n, true, a);
      if e == Nil {
        RetireNumbered(u, d.at, d.next, true, op.retire);
      }
    }
  }

  lemma ExecNumbered(w: World, op: Op)
    requires Sound(w) && Numbered(w.st) && OntoTail(w, op)
    ensures Numbered(Exec(w, op).st)
  {
    hide Inv;
    match op
    case AckOne(_, _) => AckNumbered(w, op);
    case AckMany(_, _) => AckNumbered(w, op);
    case Commit(off, env) => CommitNumbered(w.st, off, true, env);
    case RequeueHead(_, _, _) => RequeueNumbered(w, op);
    case RewindAll =>
    case AppendOne(len, a) => AppendNumbered(w.st, len, false, a);
    case PublishMany(lens, ans) => PublishNumbered(w.st, lens, ans);
    case SetPins(i, pins) =>
    case SetCap(_) =>
    case _ => ReadNumbered(w, op);
  }

  /** Over every run the numbers of the live segments ascend along the log, and the next one to be used is past them all:
      creating a segment never reopens one that is live, and the order recovery sorts the files into is the log's. */
  lemma {:induction false} NumbersAscend(w: World, ops: seq<Op>)
    requires Sound(w) && Legal(w, ops) && Numbered(w.st)
    ensures Numbered(Run(w, ops).st)
    decreases |ops|
  {
    hide Sound;
    hide Numbered;
    hide Exec;
    if ops != [] {
      ExecKeeps(w, ops[0]);
      ExecNumbered(w, ops[0]);
      NumbersAscend(Exec(w, ops[0]), ops[1..]);
    }
  }

  // ----- where runs start

  lemma {:induction false} RebuiltNumbered(ls: seq<R.Loaded>, laid: Layout, base: int, commit: int, num: nat)
    requires |laid| == |ls|
    ensures var fs := Rebuilt(ls, laid, base, commit, num);
            Ascend(fs) && forall f <- fs :: num <= f.num < num + |ls|
    decreases |ls|
  {
    hide Ascend;
    if ls != [] {
      RebuiltNumbered(ls[1..], laid[1..], base + ls[0].size, commit, num + 1);
      var fs, rest := Rebuilt(ls, laid, base, commit, num), Rebuilt(ls[1..], laid[1..], base + ls[0].size, commit, num + 1);
      assert fs == [fs[0]] + rest;
      AscendCons(fs[0], rest);
    } else {
      AscendNone();
    }
  }

  lemma AscendNone()
    ensures Ascend([])
  {
  }

  /** A store that load returns is numbered in that way. */
  lemma RecoveredNumbered(ls: seq<R.Loaded>, laid: Layout, loss: R.Loss, segSize: nat, maxSegments: nat, policy: Policy)
    requires |laid| == |ls|
    ensures Numbered(Recovered(ls, laid, loss, segSize, maxSegments, policy))
    ensures Numbered(Fresh(segSize, maxSegments, policy))
  {
    hide Rebuilt;
    hide R.Scan;
    hide Ascend;
    RebuiltNumbered(ls, laid, 0, R.Scan(ls, 0), 1);
    AscendNone();
    var f := Fresh(segSize, maxSegments, policy).files[0];
    AscendCons(f, []);
    assert [f] + [] == Fresh(segSize, maxSegments, policy).files;
  }
}
