/** What a crash under a deferred policy may leave behind, and why recovering from it only replays. */
module Residue {
  import opened Ints
  import opened Log
  import opened LogWalk
  import opened LogCommit
  import opened LogOps
  import opened LogWrites
  import opened LogRuns
  import F = Frame
  import R = Recovery

  /** What may be found of a segment: one of its headers from the session, or a torn one; any bytes under it. */
  ghost predicate LeftOf(f: Seg, d: R.DiskSeg) {
    d.page.Torn? || (d.page.Believed? && d.page.hdr in f.images)
  }

  ghost predicate Leftover(fs: seq<Seg>, ds: seq<R.DiskSeg>, c: int) {
    |fs| == |ds| && forall i | 0 <= i < |fs| :: fs[i].size >= 0 && NotAhead(fs[i], c) && LeftOf(fs[i], ds[i])
  }

  lemma CursorFromImage(p: F.Platform, f: Seg, d: R.DiskSeg, l: R.Loaded, c: int, segSize: nat)
    requires f.size >= 0 && NotAhead(f, c) && LeftOf(f, d) && R.LoadedFrom(p, d, l, segSize)
    ensures HEADER_SIZE <= l.cc <= HEADER_SIZE + Min(f.Pos(c), l.size)
    ensures l.reset ==> l.cc == HEADER_SIZE
  {
    R.LoadedShape(p, d, l, segSize);
  }

  lemma LeftoverTail(p: F.Platform, fs: seq<Seg>, ds: seq<R.DiskSeg>, ls: seq<R.Loaded>, c: int, segSize: nat)
    requires ds != [] && Leftover(fs, ds, c) && R.AllLoaded(p, ds, ls, segSize)
    ensures fs[0].size >= 0 && NotAhead(fs[0], c) && LeftOf(fs[0], ds[0]) && R.LoadedFrom(p, ds[0], ls[0], segSize)
    ensures Leftover(fs[1..], ds[1..], c) && R.AllLoaded(p, ds[1..], ls[1..], segSize)
  {
    R.AllLoadedTail(p, ds, ls, segSize);
    forall i | 0 <= i < |fs| - 1 ensures fs[1..][i].size >= 0 && NotAhead(fs[1..][i], c) && LeftOf(fs[1..][i], ds[1..][i]) {
      assert NotAhead(fs[i + 1], c) && LeftOf(fs[i + 1], ds[i + 1]);
    }
  }

  /** Whatever header each segment was left with, a byte of it that was uncommitted at c and is still
      published is at or after the recovered cursor: stale headers replay, they never skip. */
  lemma {:induction false} StaleHeadersOnlyReplay(
    p: F.Platform, fs: seq<Seg>, ds: seq<R.DiskSeg>, ls: seq<R.Loaded>, base: int, c: int, segSize: nat, i: nat, at: nat)
    requires Leftover(fs, ds, c) && R.AllLoaded(p, ds, ls, segSize)
    requires i < |ls| && at < ls[i].size && fs[i].base + at >= c
    ensures R.Scan(ls, base) <= R.BaseOf(ls, base, i) + at
    decreases |ls|
  {
    hide R.LoadedFrom;
    hide R.AllLoaded;
    hide Leftover;
    LeftoverParts(p, fs, ds, ls, c, segSize);
    LeftoverTail(p, fs, ds, ls, c, segSize);
    CursorFromImage(p, fs[0], ds[0], ls[0], c, segSize);
    if i > 0 {
      if R.Decides(ls[0]) {
        R.BaseGrows(ls[1..], base + ls[0].size, i - 1);
      } else {
        StaleHeadersOnlyReplay(p, fs[1..], ds[1..], ls[1..], base + ls[0].size, c, segSize, i - 1, at);
      }
    }
  }

  lemma LeftoverParts(p: F.Platform, fs: seq<Seg>, ds: seq<R.DiskSeg>, ls: seq<R.Loaded>, c: int, segSize: nat)
    requires Leftover(fs, ds, c) && R.AllLoaded(p, ds, ls, segSize)
    ensures |fs| == |ds| == |ls|
  {
  }

  // ----- where such headers come from

  /** Between operations, the store latched or not. */
  lemma SessionNotAhead(s: St, f: Seg)
    requires Inv(s) && !s.strayed && f in s.files && !f.gone
    ensures f.size >= 0 && NotAhead(f, s.commitOff)
  {
    var i :| 0 <= i < |s.files| && s.files[i] == f;
  }

  /** Inside a walk, before every header it has passed is written. */
  lemma WalkNotAhead(s0: St, s: St, cur: int, off: int, f: Seg)
    requires WalkInv(s0, s, cur, off) && Ordered(s0.files) && !s.strayed && f in s.files && !f.gone
    ensures NotAhead(f, s.commitOff)
  {
    InvShape(s0, s, cur, off);
    var i :| 0 <= i < |s.files| && s.files[i] == f;
    if i == cur {
      assert Lagging(s.files[cur], s.commitOff);
    }
  }

  /** A segment that was reclaimed, and whose unlink a crash may undo: it has nothing left to replay. */
  ghost predicate Retired(f: Seg, c: int) {
    f.size >= 0 && f.End() <= c && NotAhead(f, c)
  }

  lemma ReclaimedIsRetired(s: St, keep: int, env: Env, f: Seg)
    requires Inv(s) && !s.strayed && f in s.files && !f.gone && f !in DropCommitted(s, keep, env).files
    ensures Retired(f, s.commitOff)
  {
    SessionNotAhead(s, f);
    ReclaimTakesOnlyCommitted(s.files, s.commitOff, keep, env, f);
    hide Reclaim;
  }

  /** Over a whole run, the store latched or not: any header a segment may be found with, in any combination,
      over any surviving bytes, reclaimed segments reappearing or not. */
  lemma CrashReplays(
    p: F.Platform, w: World, ops: seq<Op>, fs: seq<Seg>, ds: seq<R.DiskSeg>, ls: seq<R.Loaded>, segSize: nat, i: nat, at: nat)
    requires Sound(w) && Legal(w, ops) && !Run(w, ops).st.strayed
    requires |fs| == |ds| && R.AllLoaded(p, ds, ls, segSize)
    requires forall k | 0 <= k < |fs| ::
               && ((fs[k] in Run(w, ops).st.files && !fs[k].gone) || Retired(fs[k], Run(w, ops).st.commitOff))
               && LeftOf(fs[k], ds[k])
    requires i < |ls| && at < ls[i].size && fs[i].base + at >= Run(w, ops).st.commitOff
    ensures R.Scan(ls, 0) <= R.BaseOf(ls, 0, i) + at
  {
    RunKeeps(w, ops);
    var s := Run(w, ops).st;
    hide Inv;
    hide Run;
    hide Legal;
    hide LeftOf;
    hide R.AllLoaded;
    forall k | 0 <= k < |fs| ensures fs[k].size >= 0 && NotAhead(fs[k], s.commitOff) && LeftOf(fs[k], ds[k]) {
      if !Retired(fs[k], s.commitOff) {
        SessionNotAhead(s, fs[k]);
      }
    }
    StaleHeadersOnlyReplay(p, fs, ds, ls, 0, s.commitOff, segSize, i, at);
  }

  /** A commit's walk cut off after n turns. */
  function Turns(s: St, off: int, perOp: bool, cur: int, env: Env, n: nat): (r: Step)
    requires cur < |s.files|
    ensures r.cur < |r.s.files|
    decreases n
  {
    if n == 0 || s.commitOff >= off then Go(s, cur)
    else
      StepFrozen(s, off, perOp, cur, env);
      match WalkStep(s, off, perOp, cur, env)
      case Halt(s1, cur1, stop) => Halt(s1, cur1, stop)
      case Go(s1, cur1) => Turns(s1, off, perOp, cur1, env, n - 1)
  }

  /** Where a commit may be cut off: after some turns of its walk, the last file it was in written or not. */
  function MidCommit(s: St, off: int, perOp: bool, env: Env, n: nat, written: bool): St {
    var r := Turns(s, off, perOp, -1, env, n);
    if written && r.cur >= 0 then Persist(r.s, r.cur, perOp, env).0 else r.s
  }

  lemma WalkIsIn(s0: St, s: St, cur: int, off: int)
    requires WalkInv(s0, s, cur, off)
    ensures -1 <= cur < |s.files|
  {
  }

  lemma {:induction false} TurnsKeep(s0: St, s: St, off: int, perOp: bool, cur: int, env: Env, n: nat)
    requires WalkPre(s0, off) && WalkInv(s0, s, cur, off) && !s.latched
    ensures var r := Turns(s, off, perOp, cur, env, n); WalkInv(s0, r.s, r.cur, off)
    decreases n
  {
    hide WalkInv;
    hide WalkPre;
    hide WalkStep;
    WalkIsIn(s0, s, cur, off);
    if n > 0 && s.commitOff < off {
      StepKeeps(s0, s, off, perOp, cur, env);
      StepFrozen(s, off, perOp, cur, env);
      match WalkStep(s, off, perOp, cur, env) {
        case Halt(s1, cur1, _) =>
        case Go(s1, cur1) => TurnsKeep(s0, s1, off, perOp, cur1, env, n - 1);
      }
    }
  }

  lemma MidCommitNotAhead(s: St, off: int, perOp: bool, env: Env, n: nat, written: bool, f: Seg)
    requires Inv(s) && !s.latched && s.commitOff <= off <= s.writeOff
    requires var t := MidCommit(s, off, perOp, env, n, written); !t.strayed && f in t.files && !f.gone
    ensures f.size >= 0 && NotAhead(f, MidCommit(s, off, perOp, env, n, written).commitOff)
  {
    WalkMayBegin(s, off);
    TurnsKeep(s, s, off, perOp, -1, env, n);
    var r := Turns(s, off, perOp, -1, env, n);
    var t := MidCommit(s, off, perOp, env, n, written);
    hide WalkInv;
    hide Inv;
    hide Turns;
    if written && r.cur >= 0 {
      PersistKeeps(s, r.s, r.cur, off, perOp, env);
    }
    WalkedNotAhead(s, t, if written && r.cur >= 0 then -1 else r.cur, off, f);
  }

  lemma WalkedNotAhead(s0: St, s: St, cur: int, off: int, f: Seg)
    requires WalkPre(s0, off) && WalkInv(s0, s, cur, off) && !s.strayed && f in s.files && !f.gone
    ensures f.size >= 0 && NotAhead(f, s.commitOff)
  {
    WalkNotAhead(s0, s, cur, off, f);
    InvShape(s0, s, cur, off);
    hide WalkInv;
    var i :| 0 <= i < |s.files| && s.files[i] == f;
  }

  /** Power lost in the middle of a commit, anywhere in a run: nothing it had not yet committed is skipped. */
  lemma CrashInCommitReplays(
    p: F.Platform, w: World, ops: seq<Op>, off: int, perOp: bool, env: Env, n: nat, written: bool,
    fs: seq<Seg>, ds: seq<R.DiskSeg>, ls: seq<R.Loaded>, segSize: nat, i: nat, at: nat)
    requires Sound(w) && Legal(w, ops) && !Run(w, ops).st.latched
    requires Run(w, ops).st.commitOff <= off <= Run(w, ops).st.writeOff
    requires !MidCommit(Run(w, ops).st, off, perOp, env, n, written).strayed
    requires |fs| == |ds| && R.AllLoaded(p, ds, ls, segSize)
    requires var t := MidCommit(Run(w, ops).st, off, perOp, env, n, written);
             && (forall k | 0 <= k < |fs| ::
                   && ((fs[k] in t.files && !fs[k].gone) || Retired(fs[k], t.commitOff))
                   && LeftOf(fs[k], ds[k]))
             && i < |ls| && at < ls[i].size && fs[i].base + at >= t.commitOff
    ensures R.Scan(ls, 0) <= R.BaseOf(ls, 0, i) + at
  {
    RunKeeps(w, ops);
    var s := Run(w, ops).st;
    hide Inv;
    hide Run;
    hide Legal;
    hide MidCommit;
    hide LeftOf;
    hide R.AllLoaded;
    var t := MidCommit(s, off, perOp, env, n, written);
    forall k | 0 <= k < |fs| ensures fs[k].size >= 0 && NotAhead(fs[k], t.commitOff) && LeftOf(fs[k], ds[k]) {
      if !Retired(fs[k], t.commitOff) {
        MidCommitNotAhead(s, off, perOp, env, n, written, fs[k]);
      }
    }
    StaleHeadersOnlyReplay(p, fs, ds, ls, 0, t.commitOff, segSize, i, at);
  }

  // ----- the two failures that leave a header ahead of memory

  ghost predicate Ahead(f: Seg, c: int) {
    !f.gone && !NotAhead(f, c)
  }

  /** A commit's header write puts it ahead exactly when it fails and cannot be undone. */
  lemma CommitAhead(s: St, cur: nat, perOp: bool, env: Env)
    requires cur < |s.files| && !s.latched && !s.strayed && !s.files[cur].gone && Lagging(s.files[cur], s.commitOff)
    requires RollbackTo(s.files[cur]) < s.commitOff <= s.files[cur].End()
    ensures var t := Persist(s, cur, perOp, env).0;
            && (Ahead(t.files[cur], t.commitOff) <==> env.persist(s.files[cur].num) == WriteLatched)
            && (t.strayed <==> Ahead(t.files[cur], t.commitOff))
  {
    var f := s.files[cur];
    PersistOutcome(s, cur, perOp, env);
    WriteOutcome(Put(s, cur, f.(hdr := Stamp(s, cur))), cur, env.persist(f.num));
    hide WriteHeader;
    var t := Persist(s, cur, perOp, env).0;
    if env.persist(f.num) == WriteLatched {
      assert Stamp(s, cur) in t.files[cur].images;
    }
  }

  predicate FlushRefused(s: St, num: nat, env: Env) {
    env.fullOpen(num) == Opened && env.fullWrite(num) == Wrote && s.policy != NoSync && !env.fullFlush(num)
  }

  predicate FullTorn(num: nat, env: Env) {
    env.fullOpen(num) == Opened && env.fullWrite(num) == WriteLatched
  }

  lemma PublishedImages(s: St, i: nat, env: Env)
    requires i < |s.files| && !s.latched && !s.strayed
    ensures var (t, e), f := PublishFull(s, i, env), s.files[i];
            var g, stray := t.files[i], FlushRefused(s, f.num, env) || FullTorn(f.num, env);
            && |t.files| == |s.files| && g.base == f.base && g.size == f.size && t.commitOff == s.commitOff && t.strayed == stray
            && (if stray then e != Nil && g.gone == f.gone && g.images == f.images + [FullHdr(f)]
                else if e != Nil then g == f
                else g.gone || g.images == f.images + [FullHdr(f)])
  {
    FullOutcome(s, i, env);
    hide WriteHeader;
  }

  /** A quarantine's header puts it ahead exactly when the write fails and cannot be undone, or succeeds and
      its fsync is refused. */
  lemma QuarantineAhead(s: St, i: nat, env: Env)
    requires !s.latched && !s.strayed && i < |s.files| && !s.files[i].gone && NotAhead(s.files[i], s.commitOff)
    requires s.files[i].base <= s.commitOff < s.files[i].End()
    ensures var t := RetireRest(s, i, env).0;
            && (Ahead(t.files[i], t.commitOff) <==> FlushRefused(s, s.files[i].num, env) || FullTorn(s.files[i].num, env))
            && (t.strayed <==> Ahead(t.files[i], t.commitOff))
  {
    PublishedImages(s, i, env);
    hide PublishFull;
    var f, u := s.files[i], PublishFull(s, i, env).0;
    assert u.files[i].images == f.images + [FullHdr(f)] ==> FullHdr(f) in u.files[i].images;
  }

  /** A publication leaves the commit cursor in every header it writes, or half writes, where it was. */
  lemma PublicationNeverStrays(s: St, lens: seq<nat>, ans: WriteAns)
    requires Inv(s) && Attached(s) && !NeedsCycle(s, SumLens(lens)) && !s.strayed
    ensures var t := PublishSpan(s, lens, ans).0;
            !t.strayed && forall i | 0 <= i < |t.files| :: !Ahead(t.files[i], t.commitOff)
  {
    PublishKeeps(s, lens, ans);
    var t := PublishSpan(s, lens, ans).0;
    assert t.strayed == s.strayed;
    hide PublishSpan;
    assert Tracks(t);
  }
}
