/** commitDurable as a whole, reclamation included, and the invariant every operation keeps. */
module LogCommit {
  import opened Ints
  import opened Log
  import opened LogWalk

  // ----- the operation

  /** The batched policy's count of operations, which may have to flush. */
  function Ticked(s: St, durable: bool, env: Env): (St, Err) {
    if !durable || s.policy != Batched || env.tick == TickOk then (s, Nil)
    else if env.tick == TickLatched then (s.(latched := true), IOErr)
    else (s, Retry)
  }

  function Settle(s: St, durable: bool, stop: Err, env: Env): (St, Err) {
    var (t, e) := Ticked(s, durable, env);
    var s1 := t.(headOff := Max(t.headOff, t.commitOff));
    (DropCommitted(s1, |s1.files| - 1, env), if stop == Nil then e else stop)
  }

  function CommitDurable(s: St, off: int, durable: bool, env: Env): (St, Err) {
    if s.latched then (s, IOErr)
    else if off <= s.commitOff then (s, Nil)
    else
      var perOp := durable && s.policy == PerOp;
      var w := Walk(s, Min(off, s.writeOff), perOp, -1, env);
      CommitEnd(s.commitOff, w, durable, perOp, env)
  }

  /** What follows the loop: the last header, the tick, the read cursor's drag, reclamation. */
  function CommitEnd(before: int, w: Step, durable: bool, perOp: bool, env: Env): (St, Err) {
    var (s1, e) := if 0 <= w.cur < |w.s.files| then Persist(w.s, w.cur, perOp, env) else (w.s, Nil);
    var stop := if w.Halt? && w.stop != Nil then w.stop else e;
    if s1.commitOff == before then (s1, stop) else Settle(s1, durable, stop, env)
  }

  // ----- reclamation

  ghost predicate KeepsLast(fs: seq<Seg>, gs: seq<Seg>) {
    fs != [] && gs != [] && gs[|gs| - 1] == fs[|fs| - 1]
  }

  lemma {:induction false} ReclaimSubset(fs: seq<Seg>, upTo: int, keep: int, env: Env)
    ensures forall f <- Reclaim(fs, upTo, keep, env).files :: f in fs
  {
    if fs != [] && keep != 0 && fs[0].End() <= upTo {
      ReclaimSubset(fs[1..], upTo, keep - 1, env);
    }
  }

  /** Only unpinned, unlinked, fully committed segments go. */
  lemma {:induction false} ReclaimTakesOnlyCommitted(fs: seq<Seg>, upTo: int, keep: int, env: Env, f: Seg)
    requires f in fs
    ensures f in Reclaim(fs, upTo, keep, env).files || (f.End() <= upTo && f.pins == 0 && env.unlink(f.num))
  {
    if fs != [] && keep != 0 && fs[0].End() <= upTo && f != fs[0] {
      ReclaimTakesOnlyCommitted(fs[1..], upTo, keep - 1, env, f);
    }
  }

  predicate Stuck(f: Seg, env: Env) {
    f.pins > 0 || !env.unlink(f.num)
  }

  /** How many of the segments a reclamation may take. */
  function Takable(fs: seq<Seg>, keep: int): nat {
    if 0 <= keep <= |fs| then keep else |fs|
  }

  ghost predicate AllHeld(gs: seq<Seg>, upTo: int, env: Env) {
    forall i | 0 <= i < |gs| :: gs[i].End() > upTo || Stuck(gs[i], env)
  }

  lemma HeldCons(f: Seg, gs: seq<Seg>, upTo: int, env: Env)
    requires AllHeld(gs, upTo, env) && Stuck(f, env)
    ensures AllHeld([f] + gs, upTo, env)
  {
  }

  lemma AllAhead(fs: seq<Seg>, upTo: int, k: nat, env: Env)
    requires Ordered(fs) && fs != [] && fs[0].End() > upTo && k <= |fs|
    ensures AllHeld(fs[..k], upTo, env)
  {
    forall i | 0 <= i < k ensures fs[i].End() > upTo {
      assert i > 0 ==> fs[0].End() <= fs[i].base;
    }
  }

  /** Every drained segment in front of the one to keep goes, unless it is pinned or will not unlink; that one and what
      follows it stay. */
  lemma {:induction false} ReclaimTakesAllDrained(fs: seq<Seg>, upTo: int, keep: int, env: Env) returns (held: seq<Seg>)
    requires Ordered(fs)
    ensures Reclaim(fs, upTo, keep, env).files == held + fs[Takable(fs, keep)..] && AllHeld(held, upTo, env)
  {
    hide AllHeld;
    var k := Takable(fs, keep);
    if fs == [] || keep == 0 {
      held := [];
      assert AllHeld([], upTo, env) by {
        NoneHeld(upTo, env);
      }
      assert fs == [] ==> [] + fs[k..] == [];
    } else if fs[0].End() > upTo {
      AllAhead(fs, upTo, k, env);
      held := fs[..k];
      assert held + fs[k..] == fs;
    } else {
      OrderedTail(fs);
      hide Ordered;
      held := ReclaimTakesAllDrained(fs[1..], upTo, keep - 1, env);
      assert fs[1..][k - 1..] == fs[k..];
      if Stuck(fs[0], env) {
        HeldCons(fs[0], held, upTo, env);
        assert [fs[0]] + (held + fs[k..]) == ([fs[0]] + held) + fs[k..];
        held := [fs[0]] + held;
      }
    }
  }

  lemma NoneHeld(upTo: int, env: Env)
    ensures AllHeld([], upTo, env)
  {
  }

  lemma {:induction false} ReclaimKeepsLast(fs: seq<Seg>, upTo: int, keep: int, env: Env)
    requires fs != [] && (keep == |fs| - 1 || fs[|fs| - 1].End() > upTo)
    ensures KeepsLast(fs, Reclaim(fs, upTo, keep, env).files)
  {
    if keep != 0 && fs[0].End() <= upTo {
      assert |fs| > 1;
      ReclaimKeepsLast(fs[1..], upTo, keep - 1, env);
    }
  }

  /** The counters give back exactly what the segments that went were counted for. */
  lemma {:induction false} ReclaimSums(fs: seq<Seg>, upTo: int, keep: int, env: Env)
    ensures var r := Reclaim(fs, upTo, keep, env);
            && SumWritten(r.files) == SumWritten(fs) - r.written
            && SumCommitted(r.files) == SumCommitted(fs) - r.committed
            && SumBytes(r.files) == SumBytes(fs) - r.bytes
  {
    if fs != [] && keep != 0 && fs[0].End() <= upTo {
      ReclaimSums(fs[1..], upTo, keep - 1, env);
      var r := Reclaim(fs[1..], upTo, keep - 1, env);
      assert ([fs[0]] + r.files)[1..] == r.files;
    }
  }

  lemma OrderedTail(fs: seq<Seg>)
    requires fs != [] && Ordered(fs)
    ensures Ordered(fs[1..])
  {
  }

  lemma OrderedCons(f: Seg, gs: seq<Seg>)
    requires Ordered(gs) && f.base >= 0 && 0 <= f.size <= f.capacity && forall g <- gs :: f.End() <= g.base
    ensures Ordered([f] + gs)
  {
    var hs := [f] + gs;
    forall i, j | 0 <= i < j < |hs| ensures hs[i].End() <= hs[j].base {
      assert hs[j] == gs[j - 1];
    }
  }

  lemma {:induction false} ReclaimKeepsOrder(fs: seq<Seg>, upTo: int, keep: int, env: Env)
    requires Ordered(fs)
    ensures Ordered(Reclaim(fs, upTo, keep, env).files)
  {
    if fs != [] && keep != 0 && fs[0].End() <= upTo {
      OrderedTail(fs);
      ReclaimKeepsOrder(fs[1..], upTo, keep - 1, env);
      ReclaimSubset(fs[1..], upTo, keep - 1, env);
      OrderedCons(fs[0], Reclaim(fs[1..], upTo, keep - 1, env).files);
    }
  }

  ghost predicate JoinedFrom(fs: seq<Seg>, commit: int) {
    Joined(fs, commit) && (fs != [] ==> fs[0].base <= commit)
  }

  lemma JoinedTail(fs: seq<Seg>, commit: int)
    requires fs != [] && Joined(fs, commit) && fs[0].End() <= commit
    ensures JoinedFrom(fs[1..], commit)
  {
    forall i | 0 < i < |fs[1..]| && fs[1..][i].base > commit ensures fs[1..][i - 1].End() == fs[1..][i].base {
      assert fs[i + 1].base > commit;
    }
    if |fs| > 1 {
      assert fs[1..][0] == fs[1];
    }
  }

  lemma JoinedCons(f: Seg, gs: seq<Seg>, commit: int)
    requires JoinedFrom(gs, commit) && f.base <= commit
    ensures JoinedFrom([f] + gs, commit)
  {
    var hs := [f] + gs;
    forall i | 0 < i < |hs| && hs[i].base > commit ensures hs[i - 1].End() == hs[i].base {
      assert hs[i] == gs[i - 1];
    }
  }

  /** However many pinned or stuck files survive below the cursor, no hole opens above it. */
  lemma {:induction false} ReclaimKeepsJoined(fs: seq<Seg>, upTo: int, keep: int, env: Env)
    requires Ordered(fs) && JoinedFrom(fs, upTo)
    ensures JoinedFrom(Reclaim(fs, upTo, keep, env).files, upTo)
  {
    if fs != [] && keep != 0 && fs[0].End() <= upTo {
      OrderedTail(fs);
      JoinedTail(fs, upTo);
      ReclaimKeepsJoined(fs[1..], upTo, keep - 1, env);
      JoinedCons(fs[0], Reclaim(fs[1..], upTo, keep - 1, env).files, upTo);
    }
  }

  // ----- the invariant

  ghost predicate Sums(s: St) {
    s.nWritten == SumWritten(s.files) && s.nCommitted == SumCommitted(s.files) && s.diskBytes == SumBytes(s.files)
  }

  /** The ledger is in read order, without overlap, and holds only what has been read. */
  ghost predicate LedgerSorted(rs: seq<Reservation>, head: int) {
    && (forall r <- rs :: r.start < r.end <= head)
    && forall i, j | 0 <= i < j < |rs| :: rs[i].end <= rs[j].start
  }

  /** Latched or not: unless a failure strayed, every header a live file may be found with trails the cursor. */
  ghost predicate Tracks(s: St) {
    && (s.strayed ==> s.latched)
    && (!s.strayed ==> NoneAheadBut(s.files, s.commitOff, -1))
  }

  ghost predicate Inv(s: St) {
    && Geo(s) && Sums(s) && LedgerIn(s) && LedgerSorted(s.reserved, s.headOff)
    && (!s.latched ==> Agree(s)) && Tracks(s)
  }

  lemma ReclaimKeepsCovers(fs: seq<Seg>, upTo: int, write: int, keep: int, env: Env)
    requires Ordered(fs) && JoinedFrom(fs, upTo) && Covers(fs, upTo, write) && upTo <= write
    ensures Covers(Reclaim(fs, upTo, keep, env).files, upTo, write)
  {
    ReclaimKeepsJoined(fs, upTo, keep, env);
    ReclaimSubset(fs, upTo, keep, env);
    var gs := Reclaim(fs, upTo, keep, env).files;
    if fs != [] {
      ReclaimTakesOnlyCommitted(fs, upTo, keep, env, fs[|fs| - 1]);
      if fs[|fs| - 1].End() > upTo {
        ReclaimKeepsLast(fs, upTo, keep, env);
      } else if gs != [] {
        LastEndsLast(fs, gs[|gs| - 1]);
      }
    }
  }

  lemma DropKeepsGeo(s: St, keep: int, env: Env)
    requires Geo(s) && keep < |s.files|
    ensures Geo(DropCommitted(s, keep, env))
  {
    hide Reclaim;
    ReclaimKeepsOrder(s.files, s.commitOff, keep, env);
    if s.files != [] {
      ReclaimKeepsJoined(s.files, s.commitOff, keep, env);
      ReclaimKeepsCovers(s.files, s.commitOff, s.writeOff, keep, env);
    }
  }

  lemma LastEndsLast(fs: seq<Seg>, f: Seg)
    requires Ordered(fs) && f in fs
    ensures f.End() <= fs[|fs| - 1].End()
  {
    var i :| 0 <= i < |fs| && fs[i] == f;
    if i < |fs| - 1 {
      assert fs[i].End() <= fs[|fs| - 1].base;
    }
  }

  lemma DropKeepsWithin(s: St, keep: int, env: Env, a: int, b: int)
    requires Within(s.files, a, b) && b > s.commitOff
    ensures Within(DropCommitted(s, keep, env).files, a, b)
  {
    hide Reclaim;
    var t := DropCommitted(s, keep, env);
    var i :| 0 <= i < |s.files| && s.files[i].base <= a < b <= s.files[i].End();
    ReclaimTakesOnlyCommitted(s.files, s.commitOff, keep, env, s.files[i]);
    var j :| 0 <= j < |t.files| && t.files[j] == s.files[i];
  }

  lemma DropKeepsLedger(s: St, keep: int, env: Env)
    requires LedgerIn(s)
    ensures LedgerIn(DropCommitted(s, keep, env))
  {
    var t := DropCommitted(s, keep, env);
    forall r <- t.reserved | r.end > t.commitOff ensures Within(t.files, r.start, r.end) {
      DropKeepsWithin(s, keep, env, r.start, r.end);
    }
  }

  lemma DropKeepsSums(s: St, keep: int, env: Env)
    requires Sums(s)
    ensures Sums(DropCommitted(s, keep, env))
  {
    ReclaimSums(s.files, s.commitOff, keep, env);
    hide Reclaim;
  }

  lemma DropKeepsAgree(s: St, keep: int, env: Env)
    requires Agree(s)
    ensures Agree(DropCommitted(s, keep, env))
  {
    ReclaimSubset(s.files, s.commitOff, keep, env);
    hide Reclaim;
    SubsetAgrees(s.files, DropCommitted(s, keep, env).files, s.commitOff);
  }

  lemma AgreeTracks(s: St)
    requires !s.latched && !s.strayed && Agree(s)
    ensures Tracks(s)
  {
    forall i | 0 <= i < |s.files| && !s.files[i].gone ensures NotAhead(s.files[i], s.commitOff) {
      assert Resident(s.files[i], s.commitOff) && OnDisk(s.files[i]);
    }
  }

  lemma DropKeepsTracks(s: St, keep: int, env: Env)
    requires Tracks(s)
    ensures Tracks(DropCommitted(s, keep, env))
  {
    ReclaimSubset(s.files, s.commitOff, keep, env);
    hide Reclaim;
    var t := DropCommitted(s, keep, env);
    forall i | 0 <= i < |t.files| && !t.files[i].gone && !t.strayed ensures NotAhead(t.files[i], t.commitOff) {
      assert t.files[i] in s.files;
    }
  }

  lemma DropKeepsLast(s: St, keep: int, env: Env)
    requires keep == |s.files| - 1 && keep >= 0
    ensures KeepsLast(s.files, DropCommitted(s, keep, env).files)
  {
    ReclaimKeepsLast(s.files, s.commitOff, keep, env);
    hide Reclaim;
  }

  lemma DropLeaves(s: St, keep: int, env: Env)
    ensures var t := DropCommitted(s, keep, env);
            && t.commitOff == s.commitOff && t.headOff == s.headOff && t.writeOff == s.writeOff
            && t.reserved == s.reserved && t.latched == s.latched
            && t.pendingCorrupt == s.pendingCorrupt && t.corruptions == s.corruptions && t.lostBytes == s.lostBytes
            && t.lostSegments == s.lostSegments && t.lostRecords == s.lostRecords
  {
    hide Reclaim;
  }

  lemma DropKeepsInv(s: St, keep: int, env: Env)
    requires Inv(s) && keep < |s.files|
    ensures var t := DropCommitted(s, keep, env);
            && Inv(t)
            && t.commitOff == s.commitOff && t.headOff == s.headOff && t.writeOff == s.writeOff
            && t.reserved == s.reserved && t.latched == s.latched
            && t.pendingCorrupt == s.pendingCorrupt && t.corruptions == s.corruptions && t.lostBytes == s.lostBytes
            && t.lostSegments == s.lostSegments && t.lostRecords == s.lostRecords
            && (keep == |s.files| - 1 && keep >= 0 ==> KeepsLast(s.files, t.files))
  {
    hide DropCommitted;
    hide Geo;
    hide Sums;
    hide LedgerIn;
    hide Agree;
    hide Tracks;
    DropLeaves(s, keep, env);
    DropKeepsGeo(s, keep, env);
    DropKeepsLedger(s, keep, env);
    DropKeepsSums(s, keep, env);
    DropKeepsTracks(s, keep, env);
    if keep == |s.files| - 1 && keep >= 0 {
      DropKeepsLast(s, keep, env);
    }
    if !s.latched {
      DropKeepsAgree(s, keep, env);
    }
  }

  lemma SubsetAgrees(fs: seq<Seg>, gs: seq<Seg>, c: int)
    requires AgreeBut(fs, c, -1) && forall g <- gs :: g in fs
    ensures AgreeBut(gs, c, -1)
  {
    forall i | 0 <= i < |gs| ensures Resident(gs[i], c) && OnDisk(gs[i]) {
      assert gs[i] in fs;
    }
  }

  // ----- every return of commitDurable

  /** Each counted corruption is owed as one report, and each one moved the commit cursor. */
  ghost predicate Moved(s: St, t: St, off: int) {
    var owed := t.pendingCorrupt - s.pendingCorrupt;
    && owed >= 0 && t.corruptions - s.corruptions == owed
    && s.commitOff + owed <= t.commitOff <= Max(s.commitOff, off)
    && t.writeOff == s.writeOff && t.reserved == s.reserved
    && s.headOff <= t.headOff <= Max(s.headOff, off)
    && (off <= s.headOff ==> t.headOff == s.headOff && t.lostBytes == s.lostBytes && t.lostSegments == s.lostSegments)
    && t.lostRecords == s.lostRecords
  }

  lemma WithinSameShape(fs: seq<Seg>, gs: seq<Seg>, a: int, b: int)
    requires SameShape(fs, gs) && Within(fs, a, b)
    ensures Within(gs, a, b)
  {
    var i :| 0 <= i < |fs| && fs[i].base <= a < b <= fs[i].End();
    assert SameSeg(fs[i], gs[i]);
    assert gs[i].base <= a < b <= gs[i].End();
  }

  lemma {:induction false} ShapeSums(fs: seq<Seg>, gs: seq<Seg>)
    requires SameShape(fs, gs)
    ensures SumWritten(fs) == SumWritten(gs) && SumBytes(fs) == SumBytes(gs)
    decreases |fs|
  {
    if fs != [] {
      assert SameSeg(fs[0], gs[0]);
      forall i | 0 <= i < |fs| - 1 ensures SameSeg(fs[1..][i], gs[1..][i]) {
        assert SameSeg(fs[i + 1], gs[i + 1]);
      }
      ShapeSums(fs[1..], gs[1..]);
    }
  }

  lemma ShapeKeepsGeo(s: St, t: St)
    requires Geo(s) && Frozen(s, t) && s.commitOff <= t.commitOff <= t.headOff <= t.writeOff
    ensures Geo(t)
  {
    ShapeKeepsOrder(s.files, t.files);
    forall i | 0 < i < |t.files| && t.files[i].base > t.commitOff ensures t.files[i - 1].End() == t.files[i].base {
      assert SameSeg(s.files[i], t.files[i]) && SameSeg(s.files[i - 1], t.files[i - 1]);
    }
    if s.files != [] {
      assert SameSeg(s.files[0], t.files[0]);
      assert SameSeg(s.files[|s.files| - 1], t.files[|t.files| - 1]);
    }
    if t.lastFrameEnd != 0 {
      WithinSameShape(s.files, t.files, t.lastFrameAt, t.lastFrameEnd);
    }
  }

  /** A walk that has settled its last header leaves the invariant standing. */
  lemma WalkedKeepsInv(s: St, t: St, off: int)
    requires Inv(s) && WalkInv(s, t, -1, off) && off <= s.writeOff
    ensures Inv(t.(headOff := Max(t.headOff, t.commitOff)))
  {
    var u := t.(headOff := Max(t.headOff, t.commitOff));
    ShapeKeepsGeo(s, u);
    ShapeSums(s.files, t.files);
    forall r <- u.reserved | r.end > u.commitOff ensures Within(u.files, r.start, r.end) {
      WithinSameShape(s.files, u.files, r.start, r.end);
    }
  }

  lemma WalkedMoved(s: St, s1: St, off: int)
    requires WalkInv(s, s1, -1, off) && s.commitOff <= s.headOff
    ensures Moved(s, s1.(headOff := Max(s1.headOff, s1.commitOff)), off)
    ensures s1.commitOff == s.commitOff ==> s1.(headOff := Max(s1.headOff, s1.commitOff)) == s1
  {
  }

  /** A tick touches the latch and nothing else. */
  lemma TickLatches(s: St, durable: bool, env: Env)
    ensures var t := Ticked(s, durable, env).0; t == s.(latched := t.latched) && (s.latched ==> t.latched)
  {
  }

  lemma SettleKeeps(s: St, s1: St, off: int, durable: bool, stop: Err, env: Env)
    requires Inv(s) && off <= s.writeOff && WalkInv(s, s1, -1, off)
    ensures s1.commitOff == s.commitOff ==> Inv(s1) && Moved(s, s1, off)
    ensures Inv(Settle(s1, durable, stop, env).0) && Moved(s, Settle(s1, durable, stop, env).0, off)
  {
    hide Inv;
    hide WalkInv;
    hide DropCommitted;
    hide Ticked;
    InvOrdered(s);
    WalkedKeepsInv(s, s1, off);
    WalkedMoved(s, s1, off);
    TickLatches(s1, durable, env);
    var u := s1.(headOff := Max(s1.headOff, s1.commitOff));
    var v := u.(latched := Ticked(s1, durable, env).0.latched);
    InvLatch(u, v.latched);
    DropKeepsInv(v, |v.files| - 1, env);
    assert Settle(s1, durable, stop, env).0 == DropCommitted(v, |v.files| - 1, env);
  }

  lemma ReplacedAgree(fs: seq<Seg>, i: nat, f: Seg, c: int)
    requires i < |fs| && AgreeBut(fs, c, -1)
    requires f == fs[i].(pins := f.pins, gone := f.gone) && (fs[i].gone ==> f.gone)
    ensures AgreeBut(fs[i := f], c, -1)
  {
  }

  /** A segment marked pinned or vanished: nothing the invariant reads has changed. */
  lemma ReplacedInv(s: St, i: nat, f: Seg)
    requires Inv(s) && i < |s.files|
    requires f == s.files[i].(pins := f.pins, gone := f.gone) && (s.files[i].gone ==> f.gone)
    ensures Inv(Put(s, i, f))
  {
    hide Geo;
    hide Within;
    hide AgreeBut;
    var t := Put(s, i, f);
    GeoCursors(s);
    ShapeKeepsGeo(s, t);
    SumsUpdate(s.files, i, f);
    forall r <- t.reserved | r.end > t.commitOff ensures Within(t.files, r.start, r.end) {
      WithinSameShape(s.files, t.files, r.start, r.end);
    }
    if !s.latched {
      ReplacedAgree(s.files, i, f, s.commitOff);
    }
  }

  lemma GeoCursors(s: St)
    requires Geo(s)
    ensures s.commitOff <= s.headOff <= s.writeOff
  {
  }

  lemma CommitEndKeeps(s: St, w: Step, off: int, durable: bool, perOp: bool, env: Env)
    requires Inv(s) && off <= s.writeOff && WalkInv(s, w.s, w.cur, off)
    ensures var t := CommitEnd(s.commitOff, w, durable, perOp, env).0;
            Inv(t) && Moved(s, t, off)
  {
    hide Inv;
    hide Persist;
    hide Moved;
    hide Settle;
    hide WalkInv;
    InvOrdered(s);
    InvShape(s, w.s, w.cur, off);
    var (s1, e) := if 0 <= w.cur then Persist(w.s, w.cur, perOp, env) else (w.s, Nil);
    if w.cur >= 0 {
      PersistKeeps(s, w.s, w.cur, off, perOp, env);
    }
    SettleKeeps(s, s1, off, durable, if w.Halt? && w.stop != Nil then w.stop else e, env);
  }

  lemma InvOrdered(s: St)
    requires Inv(s)
    ensures Ordered(s.files) && s.commitOff <= s.headOff <= s.writeOff
  {
  }

  lemma InvLatch(s: St, latched: bool)
    requires Inv(s) && (s.latched ==> latched)
    ensures Inv(s.(latched := latched))
  {
  }

  /** After every return of commitDurable: cursors ordered, headers and memory agreed, counts exact, target not
      passed. */
  lemma CommitKeepsInv(s: St, off: int, durable: bool, env: Env)
    requires Inv(s)
    ensures var t := CommitDurable(s, off, durable, env).0;
            Inv(t) && Moved(s, t, off)
  {
    hide Inv;
    hide WalkInv;
    hide WalkPre;
    hide CommitEnd;
    InvOrdered(s);
    MovedNot(s, off);
    if !s.latched && off > s.commitOff {
      var to, perOp := Min(off, s.writeOff), durable && s.policy == PerOp;
      WalkMayBegin(s, to);
      WalkKeeps(s, s, to, perOp, -1, env);
      CommitEndKeeps(s, Walk(s, to, perOp, -1, env), to, durable, perOp, env);
    }
  }

  lemma MovedNot(s: St, off: int)
    requires s.commitOff <= s.headOff
    ensures Moved(s, s, off)
  {
  }

  lemma WalkMayBegin(s: St, off: int)
    requires Inv(s) && !s.latched && s.commitOff <= off <= s.writeOff
    ensures WalkInv(s, s, -1, off) && WalkPre(s, off)
  {
    ShapeRefl(s.files);
  }
}
