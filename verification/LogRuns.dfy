/** Whole runs: any interleaving of consumers, producers, faults and damage, with the accounts kept beside it. */
module LogRuns {
  import opened Ints
  import opened Log
  import opened LogWalk
  import opened LogCommit
  import opened LogOps
  import opened LogSafety
  import opened LogWrites

  datatype Op =
    | Reserve(take: Env)
    | TakeUncommitted(take: Env)             // a read whose commit failed, or never came: a hole in the ledger
    | Reject(take: Env)                      // the codec refused it: rewindHead
    | AckOne(off: int, env: Env)
    | AckMany(offs: seq<int>, env: Env)
    | Commit(off: int, env: Env)
    | SkipHead(take: Env, retire: Env)
    | RequeueHead(take: Env, a: AppendEnv, retire: Env)
    | RewindAll
    | AppendOne(len: nat, a: AppendEnv)
    | PublishMany(lens: seq<nat>, ans: WriteAns)
    | SetPins(i: nat, pins: nat)             // an off-lock flush takes or releases a handle
    | SetCap(bytes: nat)                     // New, once the store is open

  /** The store, what is outstanding, and the accounts: answers given, bytes delivered since the last rewind. */
  datatype World = World(st: St, out: Extents, answers: int, delivered: int, headMark: int, lostMark: int)

  function Handed(w: World, t: St, d: Taken, out: Extents): World {
    w.(st := t, out := out, answers := w.answers + Answers(d), delivered := w.delivered + Bytes(d))
  }

  function Exec(w: World, op: Op): World {
    match op
    case Reserve(env) =>
      var (t, d) := TryReserve(w.st, env);
      Handed(w, t, d, if d.Delivered? then w.out + {(d.at, d.next)} else w.out)
    case TakeUncommitted(env) =>
      var (t, d) := TakeHead(w.st, env);
      Handed(w, t, d, if d.Delivered? then w.out + {(d.at, d.next)} else w.out)
    case Reject(env) =>
      var (t, d) := TakeHead(w.st, env);
      if d.Delivered? then w.(st := t.(headOff := Min(t.headOff, w.st.headOff))) else Handed(w, t, d, w.out)
    case AckOne(off, env) =>
      var (t, found, e) := Ack(w.st, off, env);
      w.(st := t, out := if found && !w.st.latched then set x | x in w.out && x.1 != off else w.out)
    case AckMany(offs, env) =>
      var (t, valid, e) := AckBatch(w.st, offs, env);
      w.(st := t, out := if w.st.latched then w.out else set x | x in w.out && !(x.1 in offs && Names(w.st.reserved, x.1)))
    case Commit(off, env) =>
      // The call acknowledges everything that starts before off, wherever the walk stops. An offset inside a record
      // gives that record up with the rest: a damaged length may frame up to off, and the cursor then stands inside it.
      // Where frames are as they were laid down the walk stops before that record (LogCounts.CommitStopsAtRecord).
      if off > w.st.headOff then w
      else w.(st := CommitDurable(w.st, off, true, env).0, out := set x | x in w.out && x.0 >= off)
    case SkipHead(take, retire) =>
      var (t, d, e) := Skip(w.st, take, retire);
      Handed(w, t, d, w.out)
    case RequeueHead(take, a, retire) =>
      var (t, d, e, retired) := Requeue(w.st, take, a, retire);
      if d.Delivered? && e != Nil then w.(st := t) else Handed(w, t, d, w.out)
    case RewindAll =>
      var t := Rewind(w.st);
      World(t, {}, w.answers, 0, t.headOff, t.lostBytes)
    case AppendOne(len, a) => w.(st := Append(w.st, len, false, a).0)
    case PublishMany(lens, ans) => w.(st := PublishSpan(w.st, lens, ans).0)
    case SetPins(i, pins) =>
      if i < |w.st.files| then w.(st := Put(w.st, i, w.st.files[i].(pins := pins))) else w
    case SetCap(bytes) => w.(st := w.st.(maxBytes := bytes))
  }

  /** The one thing asked of a run: no publication into a segment a refused cycle left behind. */
  ghost predicate OntoTail(w: World, op: Op) {
    match op
    case AppendOne(len, _) => Attached(w.st) || NeedsCycle(w.st, len)
    case PublishMany(lens, _) => Attached(w.st) && !NeedsCycle(w.st, SumLens(lens))
    case RequeueHead(take, _, _) =>
      var (t, d) := TakeHead(w.st, take);
      d.Delivered? ==> Attached(t) || NeedsCycle(t, d.next - d.at)
    case _ => true
  }

  ghost predicate Legal(w: World, ops: seq<Op>)
    decreases |ops|
  {
    ops != [] ==> OntoTail(w, ops[0]) && Legal(Exec(w, ops[0]), ops[1..])
  }

  function Run(w: World, ops: seq<Op>): World
    decreases |ops|
  {
    if ops == [] then w else Run(Exec(w, ops[0]), ops[1..])
  }

  /** Acknowledgement safety, loss conservation, and everything Inv says about cursors, segments and headers. */
  ghost predicate Sound(w: World) {
    && Inv(w.st) && Safe(w.st, w.out)
    && w.st.corruptions == w.answers + w.st.pendingCorrupt
    && w.st.headOff - w.headMark == w.delivered + w.st.lostBytes - w.lostMark
  }

  // ----- one operation

  lemma ReserveTracks(t: St, at: int, next: int, out: Extents)
    requires Inv(t) && Safe(t, out) && at < next == t.headOff && Within(t.files, at, next)
    requires forall r <- t.reserved :: r.end <= at
    requires t.commitOff <= at && forall x <- out :: x.1 <= at
    ensures var u := Track(t, Reservation(at, next, false, false, 0));
            Inv(u) && Safe(u, out + {(at, next)}) && u == t.(reserved := u.reserved)
  {
    hide Inv;
    hide Track;
    hide Within;
    var r := Reservation(at, next, false, false, 0);
    TrackKeeps(t, r, out);
    TrackedLedger(t, r);
    AddedIsSafe(Track(t, r), at, next, out);
  }

  lemma TrackedLedger(t: St, r: Reservation)
    ensures Track(t, r) == t.(reserved := Track(t, r).reserved)
    ensures forall q <- Track(t, r).reserved :: q == r || q in t.reserved
  {
    SameButLedger(t);
  }

  lemma AddedIsSafe(t: St, at: int, next: int, out: Extents)
    requires Safe(t, out) && t.commitOff <= at < next <= t.headOff && forall r <- t.reserved :: Apart(r, at, next)
    ensures Safe(t, out + {(at, next)})
  {
  }

  /** The extents in hand before a read end where it starts. */
  lemma OutBeforeHead(s: St, out: Extents)
    requires Inv(s) && Safe(s, out)
    ensures forall x <- out :: x.1 <= s.headOff
    ensures forall r <- s.reserved :: r.end <= s.headOff
    ensures s.commitOff <= s.headOff
  {
  }

  lemma HoleIsSafe(t: St, at: int, next: int, out: Extents)
    requires Safe(t, out) && t.commitOff <= at < next <= t.headOff && forall r <- t.reserved :: r.end <= at
    ensures Safe(t, out + {(at, next)})
  {
  }

  lemma ReadKeeps(w: World, op: Op)
    requires Sound(w) && (op.Reserve? || op.TakeUncommitted? || op.Reject?)
    ensures Sound(Exec(w, op))
  {
    hide Inv;
    hide Safe;
    hide TakeHead;
    hide Track;
    TakeHeadKeeps(w.st, op.take, w.out);
    OutBeforeHead(w.st, w.out);
    var (t, d) := TakeHead(w.st, op.take);
    if d.Delivered? {
      match op {
        case Reserve(_) => ReserveTracks(t, d.at, d.next, w.out);
        case TakeUncommitted(_) => HoleIsSafe(t, d.at, d.next, w.out);
        case _ => RewoundKeeps(w.st, t, w.out);
      }
    }
  }

  /** rewindHead to where the read began. */
  lemma RewoundKeeps(s: St, t: St, out: Extents)
    requires Inv(s) && Safe(s, out) && Inv(t) && s.headOff <= t.headOff
    requires t.reserved == s.reserved && t.commitOff == s.commitOff
    ensures Inv(t.(headOff := s.headOff)) && Safe(t.(headOff := s.headOff), out)
  {
  }

  lemma SkipKeepsAll(w: World, op: Op)
    requires Sound(w) && op.SkipHead?
    ensures Sound(Exec(w, op))
  {
    hide Inv;
    hide Safe;
    hide TakeHead;
    hide RetireFrame;
    TakeHeadKeeps(w.st, op.take, w.out);
    OutBeforeHead(w.st, w.out);
    var (t, d) := TakeHead(w.st, op.take);
    if d.Delivered? {
      RetireFrameKeeps(t, t.lastFrameAt, t.lastFrameEnd, true, op.retire, w.out);
    }
  }

  lemma MarkKeeps(s: St, end: int, out: Extents)
    requires Inv(s) && Safe(s, out) && Names(s.reserved, end)
    ensures Inv(s.(reserved := MarkAcked(s.reserved, end)))
    ensures Safe(s.(reserved := MarkAcked(s.reserved, end)), set x | x in out && x.1 != end)
    ensures forall e :: Names(MarkAcked(s.reserved, end), e) <==> Names(s.reserved, e)
  {
    hide Inv;
    InvLedger(s);
    MarkedLedger(s, end);
    LedgerKeepsInv(s, MarkAcked(s.reserved, end));
    MarkedApart(s.reserved, end, out);
  }

  lemma MarkedSorted(rs: seq<Reservation>, end: int, head: int)
    requires LedgerSorted(rs, head)
    ensures LedgerSorted(MarkAcked(rs, end), head)
    ensures forall e :: Names(MarkAcked(rs, end), e) <==> Names(rs, e)
  {
    var qs := MarkAcked(rs, end);
    forall r <- qs ensures r.start < r.end <= head {
      var q := Unmarked(rs, end, r);
    }
    forall i, j | 0 <= i < j < |qs| ensures qs[i].end <= qs[j].start {
      assert rs[i].end <= rs[j].start;
    }
    MarkingKeepsNames(rs, end);
  }

  lemma MarkedLedger(s: St, end: int)
    requires LedgerSorted(s.reserved, s.headOff)
    requires forall r <- s.reserved :: r.end > s.commitOff ==> Within(s.files, r.start, r.end)
    ensures LedgerSorted(MarkAcked(s.reserved, end), s.headOff)
    ensures forall r <- MarkAcked(s.reserved, end) :: r.end > s.commitOff ==> Within(s.files, r.start, r.end)
    ensures forall e :: Names(MarkAcked(s.reserved, end), e) <==> Names(s.reserved, e)
  {
    MarkedSorted(s.reserved, end, s.headOff);
    forall r <- MarkAcked(s.reserved, end) | r.end > s.commitOff ensures Within(s.files, r.start, r.end) {
      var q := Unmarked(s.reserved, end, r);
    }
  }

  /** The entry a marked one came from. */
  lemma Unmarked(rs: seq<Reservation>, end: int, r: Reservation) returns (q: Reservation)
    requires r in MarkAcked(rs, end)
    ensures q in rs && q == r.(acked := q.acked) && (q.end != end ==> q == r)
  {
    var i :| 0 <= i < |rs| && MarkAcked(rs, end)[i] == r;
    q := rs[i];
  }

  lemma MarkingKeepsNames(rs: seq<Reservation>, end: int)
    ensures forall e :: Names(MarkAcked(rs, end), e) <==> Names(rs, e)
  {
    forall e ensures Names(MarkAcked(rs, end), e) <==> Names(rs, e) {
      if Names(rs, e) {
        var i :| 0 <= i < |rs| && rs[i].end == e;
        assert MarkAcked(rs, end)[i] in MarkAcked(rs, end);
      }
      if Names(MarkAcked(rs, end), e) {
        var r :| r in MarkAcked(rs, end) && r.end == e;
        var q := Unmarked(rs, end, r);
      }
    }
  }

  lemma MarkedApart(rs: seq<Reservation>, end: int, out: Extents)
    requires forall x <- out, r <- rs :: Apart(r, x.0, x.1)
    ensures forall x <- out, r <- MarkAcked(rs, end) :: x.1 != end ==> Apart(r, x.0, x.1)
  {
    forall x <- out, r <- MarkAcked(rs, end) ensures x.1 != end ==> Apart(r, x.0, x.1) {
      var q := Unmarked(rs, end, r);
      assert Apart(q, x.0, x.1);
    }
  }

  lemma SafeRange(s: St, out: Extents)
    requires Safe(s, out)
    ensures forall x <- out :: s.commitOff < x.1 <= s.headOff
  {
  }

  lemma {:induction false} MarkAllKeeps(s: St, offs: seq<int>, out: Extents)
    requires Inv(s) && Safe(s, out)
    ensures var m := MarkAll(s, offs).0;
            && m == s.(reserved := m.reserved) && Inv(m)
            && Safe(m, set x | x in out && !(x.1 in offs && Names(s.reserved, x.1)))
    decreases |offs|
  {
    hide Inv;
    hide Safe;
    hide MarkAcked;
    hide Names;
    SafeRange(s, out);
    var left := set x | x in out && !(x.1 in offs && Names(s.reserved, x.1));
    if offs == [] {
      SafeSubset(s, out, left);
    } else {
      var end := offs[0];
      if s.commitOff < end <= s.headOff && Names(s.reserved, end) {
        MarkKeeps(s, end, out);
        var fewer := set x | x in out && x.1 != end;
        var s1 := s.(reserved := MarkAcked(s.reserved, end));
        MarkAllKeeps(s1, offs[1..], fewer);
        SafeSubset(MarkAll(s1, offs[1..]).0, (set x | x in fewer && !(x.1 in offs[1..] && Names(s1.reserved, x.1))), left);
      } else {
        MarkAllKeeps(s, offs[1..], out);
        SafeSubset(MarkAll(s, offs[1..]).0, (set x | x in out && !(x.1 in offs[1..] && Names(s.reserved, x.1))), left);
      }
    }
  }

  lemma AckKeeps(w: World, op: Op)
    requires Sound(w) && op.AckOne? && op.off <= w.st.headOff && !w.st.latched
    ensures Sound(Exec(w, op))
  {
    hide Inv;
    hide CommitAckedRun;
    hide Safe;
    hide MarkAcked;
    var s := w.st;
    DropRetiredKeeps(s, w.out);
    SameButLedger(s);
    var d := DropRetired(s);
    hide DropRetired;
    var out := set x | x in w.out && x.1 != op.off;
    SafeSubset(d, w.out, out);
    if op.off > s.commitOff && Names(d.reserved, op.off) {
      MarkKeeps(d, op.off, w.out);
      CommitRunKeeps(d.(reserved := MarkAcked(d.reserved, op.off)), true, op.env, out);
    }
  }

  lemma SafeSubset(s: St, out: Extents, fewer: Extents)
    requires Safe(s, out) && fewer <= out
    ensures Safe(s, fewer)
  {
  }

  lemma AckBatchKeeps(w: World, op: Op)
    requires Sound(w) && op.AckMany? && !w.st.latched
    ensures Sound(Exec(w, op))
  {
    hide Inv;
    hide CommitAckedRun;
    hide Safe;
    var s := w.st;
    DropRetiredKeeps(s, w.out);
    SameButLedger(s);
    var d := DropRetired(s);
    var m := MarkAll(d, op.offs).0;
    MarkAllKeeps(d, op.offs, w.out);
    var marked := set x | x in w.out && !(x.1 in op.offs && Names(d.reserved, x.1));
    var out := set x | x in w.out && !(x.1 in op.offs && Names(s.reserved, x.1));
    assert out <= marked;
    SafeSubset(m, marked, out);
    CommitRunKeeps(m, true, op.env, out);
  }

  lemma CommitOpKeeps(w: World, op: Op)
    requires Sound(w) && op.Commit? && op.off <= w.st.headOff
    ensures Sound(Exec(w, op))
  {
    hide Inv;
    hide CommitDurable;
    CommitKeepsInv(w.st, op.off, true, op.env);
  }

  /** Everything handed out and not acknowledged lies ahead of the read cursor again. */
  lemma RewindKeeps(w: World)
    requires Sound(w)
    ensures var v := Exec(w, RewindAll);
            && Sound(v) && v.out == {} && v.st.reserved == []
            && v.st.headOff == v.st.commitOff == w.st.commitOff && forall x <- w.out :: v.st.headOff <= x.0
  {
  }

  lemma RequeueKeeps(w: World, op: Op)
    requires Sound(w) && op.RequeueHead? && OntoTail(w, op)
    ensures Sound(Exec(w, op))
  {
    hide Inv;
    hide Safe;
    hide TakeHead;
    hide Append;
    hide RetireFrame;
    TakeHeadKeeps(w.st, op.take, w.out);
    OutBeforeHead(w.st, w.out);
    var (t, d) := TakeHead(w.st, op.take);
    if d.Delivered? {
      AppendKeeps(t, d.next - d.at, true, op.a);
      var (u, e) := Append(t, d.next - d.at, true, op.a);
      UndisturbedKeepsSafe(t, u, w.out);
      if e == Nil {
        AppendKeepsWithin(t, d.next - d.at, true, op.a, d.at, d.next);
        RetireFrameKeeps(u, d.at, d.next, true, op.retire, w.out);
      } else {
        RewoundKeeps(w.st, u, w.out);
      }
    }
  }

  lemma PinsKeep(s: St, i: nat, pins: nat)
    requires Inv(s) && i < |s.files|
    ensures Inv(Put(s, i, s.files[i].(pins := pins)))
  {
    ReplacedInv(s, i, s.files[i].(pins := pins));
  }

  lemma CapKeeps(s: St, bytes: nat)
    requires Inv(s)
    ensures Inv(s.(maxBytes := bytes))
  {
  }

  /** Any operation, any fault, any damage. */
  lemma ExecKeeps(w: World, op: Op)
    requires Sound(w) && OntoTail(w, op)
    ensures Sound(Exec(w, op))
  {
    match op
    case Reserve(_) => ReadKeeps(w, op);
    case TakeUncommitted(_) => ReadKeeps(w, op);
    case Reject(_) => ReadKeeps(w, op);
    case AckOne(off, _) =>
      if off <= w.st.headOff && !w.st.latched {
        AckKeeps(w, op);
      }
    case AckMany(_, _) =>
      if !w.st.latched {
        AckBatchKeeps(w, op);
      }
    case Commit(off, _) =>
      if off <= w.st.headOff {
        CommitOpKeeps(w, op);
      }
    case SkipHead(_, _) => SkipKeepsAll(w, op);
    case RequeueHead(_, _, _) => RequeueKeeps(w, op);
    case RewindAll => RewindKeeps(w);
    case AppendOne(len, a) =>
      AppendKeeps(w.st, len, false, a);
      UndisturbedKeepsSafe(w.st, Append(w.st, len, false, a).0, w.out);
    case PublishMany(lens, ans) =>
      PublishKeeps(w.st, lens, ans);
      UndisturbedKeepsSafe(w.st, PublishSpan(w.st, lens, ans).0, w.out);
    case SetPins(i, pins) =>
      if i < |w.st.files| {
        PinsKeep(w.st, i, pins);
      }
    case SetCap(bytes) => CapKeeps(w.st, bytes);
  }

  // ----- whole runs

  /** Every state of every legal run: no outstanding record passed, no loss unreported, headers and memory agreed. */
  lemma {:induction false} RunKeeps(w: World, ops: seq<Op>)
    requires Sound(w) && Legal(w, ops)
    ensures Sound(Run(w, ops))
    decreases |ops|
  {
    hide Sound;
    if ops != [] {
      ExecKeeps(w, ops[0]);
      RunKeeps(Exec(w, ops[0]), ops[1..]);
    }
  }

  /** In particular: the commit cursor never passes a record handed out, unacknowledged and not rewound. */
  lemma AckSafety(w: World, ops: seq<Op>, start: int, end: int)
    requires Sound(w) && Legal(w, ops) && (start, end) in Run(w, ops).out
    ensures Run(w, ops).st.commitOff <= start < end
  {
    RunKeeps(w, ops);
  }

  /** Every counted corruption is answered or still owed, and cursor movement is deliveries plus booked loss. */
  lemma LossConservation(w: World, ops: seq<Op>)
    requires Sound(w) && Legal(w, ops)
    ensures var v := Run(w, ops);
            && v.st.corruptions == v.answers + v.st.pendingCorrupt
            && v.st.headOff == v.headMark + v.delivered + (v.st.lostBytes - v.lostMark)
  {
    RunKeeps(w, ops);
  }

  // ----- the commit cursor only moves forward

  lemma ReadForward(w: World, op: Op)
    requires Sound(w) && (op.Reserve? || op.TakeUncommitted? || op.Reject? || op.SkipHead?)
    ensures Exec(w, op).st.commitOff >= w.st.commitOff && Exec(w, op).st.writeOff == w.st.writeOff
  {
    hide Inv;
    hide Safe;
    hide TakeHead;
    hide Track;
    hide RetireFrame;
    TakeHeadKeeps(w.st, op.take, w.out);
    OutBeforeHead(w.st, w.out);
    var (t, d) := TakeHead(w.st, op.take);
    if d.Delivered? {
      match op {
        case Reserve(_) => TrackedLedger(t, Reservation(t.lastFrameAt, t.lastFrameEnd, false, false, 0));
        case SkipHead(_, retire) => RetireFrameKeeps(t, t.lastFrameAt, t.lastFrameEnd, true, retire, w.out);
        case _ =>
      }
    }
  }

  lemma AckForward(w: World, op: Op)
    requires Sound(w) && (op.AckOne? || op.AckMany?)
    ensures Exec(w, op).st.commitOff >= w.st.commitOff && Exec(w, op).st.writeOff == w.st.writeOff
  {
    hide Inv;
    hide CommitAckedRun;
    hide Safe;
    hide MarkAcked;
    hide MarkAll;
    var s := w.st;
    DropRetiredKeeps(s, w.out);
    SameButLedger(s);
    var d := DropRetired(s);
    NoneOut(d);
    hide DropRetired;
    match op {
      case AckOne(off, env) =>
        if Names(d.reserved, off) {
          MarkKeeps(d, off, {});
          CommitRunKeeps(d.(reserved := MarkAcked(d.reserved, off)), true, env, {});
        }
      case AckMany(offs, env) =>
        MarkAllKeeps(d, offs, {});
        CommitRunKeeps(MarkAll(d, offs).0, true, env, {});
    }
  }

  lemma RequeueForward(w: World, op: Op)
    requires Sound(w) && op.RequeueHead? && OntoTail(w, op)
    ensures Exec(w, op).st.commitOff >= w.st.commitOff
    ensures var (t, d) := TakeHead(w.st, op.take);
            && t.writeOff == w.st.writeOff
            && Exec(w, op).st.writeOff == if d.Delivered? then Append(t, CopyLen(d), true, op.a).0.writeOff else w.st.writeOff
  {
    hide Inv;
    hide TakeHead;
    hide Append;
    hide RetireFrame;
    hide Safe;
    hide Attached;
    hide NeedsCycle;
    TakeHeadKeeps(w.st, op.take, {});
    InvHead(w.st);
    var (t, d) := TakeHead(w.st, op.take);
    if d.Delivered? {
      AppendKeeps(t, d.next - d.at, true, op.a);
      var (u, e) := Append(t, d.next - d.at, true, op.a);
      if e == Nil {
        AppendKeepsWithin(t, d.next - d.at, true, op.a, d.at, d.next);
        RetireFrameKeeps(u, d.at, d.next, true, op.retire, {});
      }
    }
  }

  /** A failed header write rolls the cursor back, but never to before the operation began. */
  lemma ExecForward(w: World, op: Op)
    requires Sound(w) && OntoTail(w, op)
    ensures Exec(w, op).st.commitOff >= w.st.commitOff
  {
    hide Inv;
    match op
    case AckOne(_, _) => AckForward(w, op);
    case AckMany(_, _) => AckForward(w, op);
    case Commit(off, env) => CommitKeepsInv(w.st, off, true, env);
    case RequeueHead(_, _, _) => RequeueForward(w, op);
    case AppendOne(len, a) => AppendKeeps(w.st, len, false, a);
    case PublishMany(lens, ans) => PublishKeeps(w.st, lens, ans);
    case RewindAll =>
    case SetPins(_, _) =>
    case SetCap(_) =>
    case _ => ReadForward(w, op);
  }

  lemma {:induction false} CommitNeverRetreats(w: World, ops: seq<Op>)
    requires Sound(w) && Legal(w, ops)
    ensures Run(w, ops).st.commitOff >= w.st.commitOff
    decreases |ops|
  {
    hide Sound;
    if ops != [] {
      ExecKeeps(w, ops[0]);
      ExecForward(w, ops[0]);
      CommitNeverRetreats(Exec(w, ops[0]), ops[1..]);
    }
  }

  /** Between commit and write there is always exactly one segment for an offset. */
  lemma LookupNeverFails(w: World, ops: seq<Op>, off: int)
    requires Sound(w) && Legal(w, ops) && Run(w, ops).st.commitOff <= off < Run(w, ops).st.writeOff
    ensures var s := Run(w, ops).st;
            && 0 <= FileFor(s.files, off) < |s.files|
            && (forall i | 0 <= i < |s.files| && s.files[i].base <= off < s.files[i].End() :: i == FileFor(s.files, off))
  {
    RunKeeps(w, ops);
    var s := Run(w, ops).st;
    hide Run;
    FileForIsTheOwner(s.files, s.commitOff, s.writeOff, off);
  }

  /** nWritten, nCommitted and diskBytes are the sums over live segments at every moment. */
  lemma CountsAreSums(w: World, ops: seq<Op>)
    requires Sound(w) && Legal(w, ops)
    ensures var s := Run(w, ops).st;
            && s.nWritten - s.nCommitted == SumWritten(s.files) - SumCommitted(s.files)
            && s.diskBytes == SumBytes(s.files)
  {
    RunKeeps(w, ops);
  }

  // ----- draining

  /** One turn of the iterators: read, and commit what was delivered before it is yielded. */
  function DrainTurn(s: St, take: Env, commit: Env): (St, Taken) {
    var (t, d) := TakeHead(s, take);
    if d.Delivered? then (CommitDurable(t, d.next, true, commit).0, d) else (t, d)
  }

  lemma TurnProgresses(s: St, take: Env, commit: Env)
    requires Inv(s)
    ensures var (t, d) := DrainTurn(s, take, commit);
            && Inv(t) && t.writeOff == s.writeOff && Measure(t) >= 0
            && (d.Delivered? || d.Reported? ==> Measure(t) < Measure(s))
  {
    hide Inv;
    hide TakeHead;
    hide CommitDurable;
    TakeHeadKeeps(s, take, {});
    var (t, d) := TakeHead(s, take);
    InvHead(t);
    if d.Delivered? {
      CommitKeepsInv(t, d.next, true, commit);
      InvHead(CommitDurable(t, d.next, true, commit).0);
    }
  }

  /** How many turns in a row deliver or report before one does neither. */
  function BusyTurns(s: St, envs: seq<(Env, Env)>): nat
    decreases |envs|
  {
    if envs == [] then 0
    else
      var (t, d) := DrainTurn(s, envs[0].0, envs[0].1);
      if d.Delivered? || d.Reported? then 1 + BusyTurns(t, envs[1..]) else 0
  }

  /** A drain that goes round again on every corruption still ends: its length is bounded by what is left to do. */
  lemma {:induction false} DrainEnds(s: St, envs: seq<(Env, Env)>)
    requires Inv(s)
    ensures BusyTurns(s, envs) <= Measure(s)
    decreases |envs|
  {
    hide Inv;
    hide DrainTurn;
    InvHead(s);
    if envs != [] {
      TurnProgresses(s, envs[0].0, envs[0].1);
      DrainEnds(DrainTurn(s, envs[0].0, envs[0].1).0, envs[1..]);
    }
  }
}
