/** Every run, publications into a segment a refused cycle left behind included: what still holds, and exactly where
    acknowledgement safety and the accounts give way. */
module LogAnyRun {
  import opened Ints
  import opened Log
  import opened LogWalk
  import opened LogCommit
  import opened LogOps
  import opened LogSafety
  import opened LogWrites
  import opened LogRuns

  // ----- what a strand leaves standing

  /** The resident header is not ahead of commit c. */
  predicate Trails(f: Seg, c: int) {
    HEADER_SIZE <= f.hdr.commitCur <= HEADER_SIZE + f.Pos(c)
  }

  ghost predicate Trailing(fs: seq<Seg>, c: int) {
    forall i | 0 <= i < |fs| :: Trails(fs[i], c)
  }

  /** Inv less the geometry, the counts and the images. */
  ghost predicate Steady(s: St) {
    && 0 <= s.commitOff <= s.headOff <= s.writeOff && Placed(s.files, s.writeOff)
    && LedgerSorted(s.reserved, s.headOff)
    && (!s.latched ==> Trailing(s.files, s.commitOff))
  }

  lemma InvIsSteady(s: St)
    requires Inv(s)
    ensures Steady(s)
  {
    forall f <- s.files ensures f.End() <= s.writeOff {
      LastEndsLast(s.files, f);
    }
    forall i | 0 <= i < |s.files| && !s.latched ensures Trails(s.files[i], s.commitOff) {
      assert Resident(s.files[i], s.commitOff);
    }
  }

  /** How far back a commit may fall: to where the header of the segment at the cursor stands. */
  function Low(s: St): int {
    var i := FileFor(s.files, s.commitOff);
    if i < 0 || s.latched then s.commitOff else Min(s.commitOff, RollbackTo(s.files[i]))
  }

  // ----- the commit walk

  /** A rollback in any file the walk can still reach stays above the floor. */
  ghost predicate Floored(fs: seq<Seg>, floor: int) {
    forall i | 0 <= i < |fs| && fs[i].End() > floor :: RollbackTo(fs[i]) >= floor
  }

  /** The walk has committed nothing behind the file it is in. */
  ghost predicate Untouched(fs: seq<Seg>, cur: int) {
    cur >= 0 ==> forall j | cur < j < |fs| :: fs[j].hdr.commitCur == HEADER_SIZE
  }

  /** A walk begun at s0 stands at s with cur unwritten; WalkInv less the geometry. */
  ghost predicate Walking(s0: St, s: St, cur: int, off: int) {
    var owed := s.pendingCorrupt - s0.pendingCorrupt;
    && -1 <= cur < |s.files| && Frozen(s0, s)
    && owed >= 0 && s.corruptions - s0.corruptions == owed
    && s.headOff == s0.headOff && s.lostBytes == s0.lostBytes
    && Low(s0) <= s.commitOff <= off
    && (cur >= 0 ==> Low(s0) <= RollbackTo(s.files[cur]) <= off && s.files[cur].base <= s.commitOff)
    && (!s.latched ==>
          && Trailing(s.files, s.commitOff) && Untouched(s.files, cur) && Floored(s.files, Low(s0)))
  }

  lemma LowFloors(s: St)
    requires Ordered(s.files) && 0 <= s.commitOff && !s.latched && Trailing(s.files, s.commitOff)
    ensures 0 <= Low(s) <= s.commitOff && Floored(s.files, Low(s))
  {
    var o := FileFor(s.files, s.commitOff);
    forall i | 0 <= i < |s.files| && s.files[i].End() > Low(s) ensures RollbackTo(s.files[i]) >= Low(s) {
      assert Trails(s.files[i], s.commitOff);
      if o >= 0 {
        assert Trails(s.files[o], s.commitOff);
      }
      if o < 0 && s.files[i].base <= s.commitOff {
        OwnerIsUnique(s.files, i, s.commitOff);
      }
    }
    if o >= 0 {
      assert Trails(s.files[o], s.commitOff);
    }
  }

  lemma PersistSays(s: St, i: nat, perOp: bool, env: Env)
    requires i < |s.files|
    ensures var (t, e) := Persist(s, i, perOp, env);
            && |t.files| == |s.files|
            && var f, g := s.files[i], t.files[i];
               && t.files == s.files[i := g]
               && t == s.(files := t.files, commitOff := t.commitOff, nCommitted := t.nCommitted,
                          committedTotal := t.committedTotal, latched := t.latched, strayed := t.strayed)
               && g == f.(committed := g.committed, hdr := g.hdr, images := g.images, gone := g.gone)
               && (e == Nil ==> t.latched == s.latched) && (s.latched ==> t.latched)
               && (e == Nil || g.hdr != f.hdr ==> g.hdr == Stamp(s, i) && t.commitOff == s.commitOff)
               && (t.commitOff == s.commitOff || (t.commitOff == RollbackTo(f) && g.hdr == f.hdr))
               && (!t.latched && e != Nil ==> t.commitOff == RollbackTo(f) && g.hdr == f.hdr)
  {
    WriteOutcome(Put(s, i, s.files[i].(hdr := Stamp(s, i))), i, env.persist(s.files[i].num));
    hide WriteHeader;
  }

  /** One file rewritten while the cursor falls back into it or stays. */
  lemma StampedTrails(fs: seq<Seg>, i: nat, g: Seg, c: int, c': int)
    requires Ordered(fs) && i < |fs| && Trailing(fs, c) && Untouched(fs, i) && fs[i].base <= c
    requires g.base == fs[i].base && g.size == fs[i].size && Trails(g, c') && fs[i].base <= c' <= c
    ensures Trailing(fs[i := g], c')
  {
    forall j | 0 <= j < |fs| && j != i ensures Trails(fs[j], c') {
      assert Trails(fs[j], c);
      if j < i {
        assert fs[j].End() <= fs[i].base;
      }
    }
  }

  lemma FlooredBut(fs: seq<Seg>, i: nat, g: Seg, floor: int)
    requires i < |fs| && Floored(fs, floor) && g.End() == fs[i].End()
    requires RollbackTo(g) == RollbackTo(fs[i]) || RollbackTo(g) >= Min(floor, g.End())
    ensures Floored(fs[i := g], floor)
  {
  }

  lemma PersistSteady(s0: St, s: St, cur: nat, off: int, perOp: bool, env: Env)
    requires Walking(s0, s, cur, off) && Ordered(s0.files)
    ensures var (t, e) := Persist(s, cur, perOp, env);
            Walking(s0, t, -1, off) && (e == Nil ==> t.latched == s.latched)
  {
    hide Persist;
    PersistSays(s, cur, perOp, env);
    PersistFrozen(s, cur, perOp, env);
    var (t, e) := Persist(s, cur, perOp, env);
    ShapeKeepsOrder(s0.files, s.files);
    ShapeChain(s0.files, s.files, t.files);
    if !t.latched {
      var f, g := s.files[cur], t.files[cur];
      assert Trails(f, s.commitOff);
      StampedTrails(s.files, cur, g, s.commitOff, t.commitOff);
      FlooredBut(s.files, cur, g, Low(s0));
    }
  }

  lemma PublishFullSays(s: St, i: nat, env: Env)
    requires i < |s.files|
    ensures var (t, e) := PublishFull(s, i, env);
            && |t.files| == |s.files| && t.files == s.files[i := t.files[i]]
            && t == s.(files := t.files, latched := t.latched, strayed := t.strayed) && (s.latched ==> t.latched)
            && var f, g := s.files[i], t.files[i];
               (g.hdr == f.hdr || (g.hdr == FullHdr(f) && (e == Nil || t.latched)))
  {
    hide WriteHeader;
    hide TornWrite;
    FullOutcome(s, i, env);
    assert s.files[i := s.files[i]] == s.files;
    var (t, e) := PublishFull(s, i, env);
    assert t.files == s.files[i := t.files[i]];
  }

  /** The cursor moved on within file i or past it: every header still trails it. */
  lemma AheadTrails(fs: seq<Seg>, i: nat, g: Seg, c: int, c': int)
    requires Ordered(fs) && i < |fs| && Trailing(fs, c) && c <= c' && g.base == fs[i].base && g.size == fs[i].size
    requires g.hdr.commitCur == fs[i].hdr.commitCur || (fs[i].End() <= c' && g.hdr.commitCur == HEADER_SIZE + g.size)
    ensures Trailing(fs[i := g], c')
  {
    var gs := fs[i := g];
    forall j | 0 <= j < |gs| ensures Trails(gs[j], c') {
      assert Trails(fs[j], c);
    }
  }

  lemma UntouchedAhead(fs: seq<Seg>, i: nat, g: Seg, c: int)
    requires Ordered(fs) && i < |fs| && Trailing(fs, c) && c <= fs[i].End()
    ensures Untouched(fs[i := g], i)
  {
    forall j | i < j < |fs| ensures fs[j].hdr.commitCur == HEADER_SIZE {
      assert Trails(fs[j], c) && fs[i].End() <= fs[j].base;
    }
  }

  lemma CrossedSteady(s0: St, s: St, i: nat, off: int, cur: int, next: int, n: int)
    requires Walking(s0, s, cur, off) && !s.latched && (cur == -1 || cur == i) && Ordered(s.files)
    requires FileFor(s.files, s.commitOff) == i && s.commitOff < next <= off
    ensures Walking(s0, Crossed(s, i, next, n), i, off)
  {
    var t := Crossed(s, i, next, n);
    CrossedFrozen(s, i, next, n);
    ShapeChain(s0.files, s.files, t.files);
    assert Trails(s.files[i], s.commitOff);
    FlooredBut(s.files, i, t.files[i], Low(s0));
    AheadTrails(s.files, i, t.files[i], s.commitOff, next);
    UntouchedAhead(s.files, i, t.files[i], s.commitOff);
    hide Trailing;
    hide Ordered;
    hide Untouched;
  }

  /** What becomes of the segment at the cursor when it is retired there and then, or is not. */
  lemma RetireSays(s: St, i: nat, env: Env)
    requires i < |s.files| && s.files[i].base <= s.commitOff < s.files[i].End()
    ensures var (t, e) := RetireRest(s, i, env);
            && Frozen(s, t) && |t.files| == |s.files| && t.files == s.files[i := t.files[i]]
            && (s.latched ==> t.latched)
            && (e == Nil ==> t.commitOff == s.files[i].End() && t.files[i].hdr.commitCur in
                               {s.files[i].hdr.commitCur, HEADER_SIZE + s.files[i].size})
            && (e != Nil ==>
                  && t.commitOff == s.commitOff
                  && (t.files[i].hdr == s.files[i].hdr
                      || (t.latched && t.files[i].hdr.commitCur == HEADER_SIZE + s.files[i].size)))
  {
    RetireRestFrozen(s, i, env);
    PublishFullSays(s, i, env);
    hide PublishFull;
  }

  lemma SkippedSteady(s0: St, s: St, i: nat, off: int, cur: int, t: St, owed: nat)
    requires Walking(s0, s, cur, off) && !s.latched && (cur == -1 || cur == i) && Ordered(s.files)
    requires FileFor(s.files, s.commitOff) == i && s.files[i].End() <= off && Frozen(s, t) && i < |t.files|
    requires t.files == s.files[i := t.files[i]] && t.headOff == s.headOff && t.lostBytes == s.lostBytes
    requires owed <= 1 && t.pendingCorrupt == s.pendingCorrupt + owed && t.corruptions == s.corruptions + owed
    requires if owed == 1 then
               t.commitOff == s.files[i].End()
               && t.files[i].hdr.commitCur in {s.files[i].hdr.commitCur, HEADER_SIZE + s.files[i].size}
             else
               t.commitOff == s.commitOff
               && (t.files[i].hdr == s.files[i].hdr
                   || (t.latched && t.files[i].hdr.commitCur == HEADER_SIZE + s.files[i].size))
    ensures Walking(s0, t, if owed == 1 then -1 else cur, off)
  {
    hide Frozen;
    hide Trailing;
    hide Floored;
    FrozenChain(s0, s, t);
    HeaderTrails(s, i);
    if !t.latched {
      FlooredBut(s.files, i, t.files[i], Low(s0));
      AheadTrails(s.files, i, t.files[i], s.commitOff, t.commitOff);
    }
  }

  lemma FrozenChain(a: St, b: St, c: St)
    requires Frozen(a, b) && Frozen(b, c)
    ensures Frozen(a, c)
    ensures SameShape(b.files, c.files)
  {
    ShapeChain(a.files, b.files, c.files);
  }

  lemma HeaderTrails(s: St, i: nat)
    requires i < |s.files| && Trailing(s.files, s.commitOff)
    ensures Trails(s.files[i], s.commitOff)
  {
  }

  lemma SkipSteady(s0: St, s: St, i: nat, off: int, cur: int, env: Env)
    requires Walking(s0, s, cur, off) && !s.latched && (cur == -1 || cur == i) && Ordered(s.files)
    requires FileFor(s.files, s.commitOff) == i && s.files[i].End() <= off <= s.headOff
    ensures var (t, e) := SkipCorrupt(s, s.commitOff, env);
            if e == Nil then Walking(s0, t.(pendingCorrupt := t.pendingCorrupt + 1), -1, off)
            else Walking(s0, t, cur, off)
  {
    hide SkipCorrupt;
    hide RetireRest;
    hide Walking;
    hide Ordered;
    SkipAtCursor(s, env);
    RetireSays(s, i, env);
    RetireRestFrozen(s, i, env);
    SkipFrozen(s, env);
    hide Frozen;
    var (t, e) := SkipCorrupt(s, s.commitOff, env);
    var owed := if e == Nil then 1 else 0;
    FrozenAside(s, t, t.pendingCorrupt + owed);
    SkippedSteady(s0, s, i, off, cur, t.(pendingCorrupt := t.pendingCorrupt + owed), owed);
    assert t.(pendingCorrupt := t.pendingCorrupt) == t;
  }

  lemma WalkingLatched(s0: St, s: St, cur: int, off: int)
    requires Walking(s0, s, cur, off)
    ensures Walking(s0, s.(latched := true), cur, off)
  {
  }

  /** A store that latches stops the walk. */
  lemma CrossGoes(s: St, i: nat, off: int, cur: int, env: Env)
    requires !s.latched && FileFor(s.files, s.commitOff) == i
    ensures Cross(s, i, off, cur, env).Go? ==> !Cross(s, i, off, cur, env).s.latched
  {
    hide SkipCorrupt;
    hide RetireRest;
    hide EntryHere;
    hide FrameEnd;
    SkipAtCursor(s, env);
    RetireGoes(s, i, env);
    assert s.(latched := s.latched) == s;
  }

  lemma RetireGoes(s: St, i: nat, env: Env)
    requires i < |s.files| && !s.latched
    ensures RetireRest(s, i, env).1 == Nil ==> !RetireRest(s, i, env).0.latched
  {
    hide WriteHeader;
    FullOutcome(s, i, env);
  }

  lemma CrossSteady(s0: St, s: St, i: nat, off: int, cur: int, env: Env)
    requires Walking(s0, s, cur, off) && !s.latched && (cur == -1 || cur == i) && Ordered(s.files)
    requires FileFor(s.files, s.commitOff) == i && off <= s.headOff
    ensures var r := Cross(s, i, off, cur, env);
            Walking(s0, r.s, r.cur, off) && (r.Go? ==> !r.s.latched)
  {
    hide Cross;
    hide SkipCorrupt;
    hide Crossed;
    hide Walking;
    hide Ordered;
    CrossGoes(s, i, off, cur, env);
    WalkingLatched(s0, s, cur, off);
    var x := CrossExit(s, i, off, cur, env);
    var r := Cross(s, i, off, cur, env);
    if x.Crosses? {
      CrossedSteady(s0, s, i, off, cur, r.s.commitOff, r.s.nCommitted - s.nCommitted);
    } else if !x.Stands? {
      SkipSteady(s0, s, i, off, cur, env);
    }
  }

  lemma StepSteady(s0: St, s: St, off: int, perOp: bool, cur: int, env: Env)
    requires Walking(s0, s, cur, off) && !s.latched && Ordered(s0.files) && off <= s0.headOff
    ensures var r := WalkStep(s, off, perOp, cur, env);
            Walking(s0, r.s, r.cur, off) && (r.Go? ==> !r.s.latched)
  {
    hide Cross;
    hide Persist;
    hide SameShape;
    WalkingShape(s0, s, cur, off);
    hide Walking;
    hide Ordered;
    var i := FileFor(s.files, s.commitOff);
    if i >= 0 {
      if 0 <= cur != i {
        PersistSteady(s0, s, cur, off, perOp, env);
        PersistFrozen(s, cur, perOp, env);
        var (s1, e) := Persist(s, cur, perOp, env);
        WalkingShape(s0, s1, -1, off);
        if e == Nil {
          SameLookup(s.files, s1.files, s.commitOff);
          CrossSteady(s0, s1, i, off, -1, env);
        }
      } else {
        CrossSteady(s0, s, i, off, cur, env);
      }
    }
  }

  lemma WalkingShape(s0: St, s: St, cur: int, off: int)
    requires Walking(s0, s, cur, off) && Ordered(s0.files)
    ensures Ordered(s.files) && -1 <= cur < |s.files| && s.headOff == s0.headOff
  {
    ShapeKeepsOrder(s0.files, s.files);
  }

  lemma {:induction false} WalkSteady(s0: St, s: St, off: int, perOp: bool, cur: int, env: Env)
    requires Walking(s0, s, cur, off) && !s.latched && Ordered(s0.files) && off <= s0.headOff
    ensures var r := Walk(s, off, perOp, cur, env);
            Walking(s0, r.s, r.cur, off)
    decreases Max(0, off - s.commitOff)
  {
    WalkingShape(s0, s, cur, off);
    if s.commitOff < off {
      StepSteady(s0, s, off, perOp, cur, env);
      StepFrozen(s, off, perOp, cur, env);
      hide Walking;
      hide WalkStep;
      hide Frozen;
      match WalkStep(s, off, perOp, cur, env) {
        case Halt(s1, cur1, _) =>
        case Go(s1, cur1) => WalkSteady(s0, s1, off, perOp, cur1, env);
      }
    }
  }

  // ----- every return of a commit

  /** A commit's whole effect on the cursors and the accounts. */
  ghost predicate Settled(s: St, t: St, off: int) {
    && Low(s) <= t.commitOff <= Max(s.commitOff, off)
    && t.headOff == s.headOff && t.writeOff == s.writeOff && t.reserved == s.reserved && t.lostBytes == s.lostBytes
    && t.corruptions - s.corruptions == t.pendingCorrupt - s.pendingCorrupt >= 0
  }

  lemma StandsSettled(s: St, off: int)
    requires Steady(s)
    ensures Settled(s, s, off) && Ordered(s.files) && s.headOff <= s.writeOff
  {
  }

  lemma DropSteady(s: St, keep: int, env: Env)
    requires Steady(s)
    ensures Steady(DropCommitted(s, keep, env))
  {
    hide Reclaim;
    DropLeaves(s, keep, env);
    DropPlaced(s, keep, env);
    ReclaimSubset(s.files, s.commitOff, keep, env);
    var t := DropCommitted(s, keep, env);
    forall i | 0 <= i < |t.files| && !t.latched ensures Trails(t.files[i], t.commitOff) {
      assert t.files[i] in s.files;
    }
    hide Placed;
  }

  lemma LatchSteady(s: St, latched: bool)
    requires Steady(s) && (s.latched ==> latched)
    ensures Steady(s.(latched := latched))
  {
  }

  lemma WalkedSteady(s: St, t: St, off: int)
    requires Steady(s) && !s.latched && off <= s.headOff && Walking(s, t, -1, off) && s.commitOff <= off
    ensures Steady(t) && Settled(s, t, off) && t.commitOff <= t.headOff
  {
    LowFloors(s);
    ShapeKeepsOrder(s.files, t.files);
    forall f <- t.files ensures f.End() <= t.writeOff {
      var i :| 0 <= i < |t.files| && t.files[i] == f;
      assert SameSeg(s.files[i], t.files[i]) && s.files[i] in s.files;
    }
  }

  lemma SettleSteady(s: St, s1: St, off: int, durable: bool, stop: Err, env: Env)
    requires Steady(s1) && Settled(s, s1, off)
    ensures var t := Settle(s1, durable, stop, env).0;
            Steady(t) && Settled(s, t, off)
  {
    hide DropCommitted;
    TickLatches(s1, durable, env);
    var v := s1.(latched := Ticked(s1, durable, env).0.latched);
    LatchSteady(s1, v.latched);
    assert v.(headOff := Max(v.headOff, v.commitOff)) == v;
    DropSteady(v, |v.files| - 1, env);
    DropLeaves(v, |v.files| - 1, env);
  }

  lemma CommitEndSteady(s: St, w: Step, off: int, durable: bool, perOp: bool, env: Env)
    requires Steady(s) && !s.latched && s.commitOff <= off <= s.headOff && Walking(s, w.s, w.cur, off)
    ensures var t := CommitEnd(s.commitOff, w, durable, perOp, env).0;
            Steady(t) && Settled(s, t, off)
  {
    hide Persist;
    hide Settle;
    hide Steady;
    hide Ordered;
    hide Settled;
    hide Walking;
    StandsSettled(s, off);
    WalkingShape(s, w.s, w.cur, off);
    var (s1, e) := if 0 <= w.cur then Persist(w.s, w.cur, perOp, env) else (w.s, Nil);
    if w.cur >= 0 {
      PersistSteady(s, w.s, w.cur, off, perOp, env);
    }
    WalkedSteady(s, s1, off);
    SettleSteady(s, s1, off, durable, if w.Halt? && w.stop != Nil then w.stop else e, env);
  }

  /** A commit at or before the read cursor: the store stays steady, and the cursor falls no further than Low. */
  lemma CommitSteady(s: St, off: int, durable: bool, env: Env)
    requires Steady(s) && off <= s.headOff
    ensures var t := CommitDurable(s, off, durable, env).0;
            Steady(t) && Settled(s, t, off)
  {
    hide CommitEnd;
    hide Walking;
    hide Steady;
    hide Ordered;
    hide Walk;
    StandsSettled(s, off);
    if !s.latched && off > s.commitOff {
      var perOp := durable && s.policy == PerOp;
      WalkingBegins(s, off);
      WalkSteady(s, s, off, perOp, -1, env);
      CommitEndSteady(s, Walk(s, off, perOp, -1, env), off, durable, perOp, env);
    }
  }

  lemma WalkingBegins(s: St, off: int)
    requires Steady(s) && !s.latched && s.commitOff <= off
    ensures Walking(s, s, -1, off) && Ordered(s.files)
  {
    ShapeRefl(s.files);
    LowFloors(s);
  }

  // ----- the ledger

  lemma LedgerSteady(s: St, rs: seq<Reservation>)
    requires Steady(s) && LedgerSorted(rs, s.headOff)
    ensures Steady(s.(reserved := rs))
  {
  }

  lemma SteadyCursors(s: St)
    requires Steady(s)
    ensures 0 <= s.commitOff <= s.headOff <= s.writeOff && LedgerSorted(s.reserved, s.headOff)
    ensures forall r <- s.reserved :: r.start < r.end <= s.headOff
  {
  }

  lemma DropRetiredSteady(s: St, out: Extents)
    requires Steady(s)
    ensures Steady(DropRetired(s))
    ensures Safe(s, out) ==> Safe(DropRetired(s), out)
  {
    var i := FirstUnretired(s.reserved, s.commitOff);
    SortedSuffix(s.reserved, i, s.headOff);
    LedgerSteady(s, s.reserved[i..]);
  }

  lemma TrackSteady(s: St, r: Reservation, out: Extents)
    requires Steady(s) && r.start < r.end <= s.headOff && forall q <- s.reserved :: q.end <= r.start
    ensures Steady(Track(s, r))
    ensures Safe(s, out) && (forall x <- out :: Apart(r, x.0, x.1)) ==> Safe(Track(s, r), out)
  {
    hide Steady;
    DropRetiredSteady(s, out);
    SameButLedger(s);
    var d := DropRetired(s);
    hide DropRetired;
    SteadyCursors(d);
    SortedSnoc(d.reserved, r, d.headOff);
    LedgerSteady(d, d.reserved + [r]);
  }

  /** A retirement's effect on the cursors and the accounts. */
  ghost predicate Quietly(s: St, t: St) {
    && t.corruptions - s.corruptions == t.pendingCorrupt - s.pendingCorrupt
    && t.headOff == s.headOff && t.writeOff == s.writeOff && t.lostBytes == s.lostBytes && Low(s) <= t.commitOff
  }

  lemma CommitRunSteady(s: St, durable: bool, env: Env, out: Extents)
    requires Steady(s)
    ensures var t := CommitAckedRun(s, durable, env).0;
            Steady(t) && Quietly(s, t) && (Safe(s, out) ==> Safe(t, out))
  {
    hide Steady;
    hide CommitDurable;
    SteadyCursors(s);
    var target := RunEnd(s.reserved, s.commitOff);
    RunWithinHead(s.reserved, s.commitOff, s.headOff);
    if !s.latched && target > s.commitOff {
      CommitSteady(s, target, durable, env);
      var t := CommitDurable(s, target, durable, env).0;
      if Safe(s, out) {
        forall x <- out ensures t.commitOff <= x.0 {
          RunStopsAt(s.reserved, s.commitOff, x.0, x.1);
        }
      }
      DropRetiredSteady(t, out);
      SameButLedger(t);
    }
  }

  lemma RetireFrameSteady(s: St, start: int, end: int, durable: bool, env: Env, out: Extents)
    requires Steady(s) && start < end <= s.headOff && forall q <- s.reserved :: q.end <= start
    ensures var t := RetireFrame(s, start, end, durable, env).0;
            Steady(t) && Quietly(s, t) && (Safe(s, out) && (forall x <- out :: x.1 <= start) ==> Safe(t, out))
  {
    hide Steady;
    hide CommitAckedRun;
    hide Track;
    var r := Reservation(start, end, true, false, 0);
    TrackSteady(s, r, out);
    TrackedLedger(s, r);
    CommitRunSteady(Track(s, r), durable, env, out);
  }

  // ----- giving everything up

  lemma ForceSteady(s: St, i: nat, env: Env)
    requires Steady(s) && i <= |s.files|
    ensures var (t, e) := ForceCommit(s, i, env);
            && Steady(t) && s.commitOff <= t.commitOff && s.headOff <= t.headOff && t.writeOff == s.writeOff
            && t.reserved == s.reserved && t.pendingCorrupt == s.pendingCorrupt
            && t.corruptions == s.corruptions && t.lostBytes == s.lostBytes
    decreases |s.files| - i
  {
    hide Steady;
    hide PublishFull;
    hide Squared;
    if i == |s.files| {
      CountsAside(s, s.nWritten);
    } else if FullyCommitted(s.files[i]) {
      ForceSteady(s, i + 1, env);
    } else {
      PublishFullSays(s, i, env);
      var (s1, e) := PublishFull(s, i, env);
      if e == Nil {
        SquaredSteady(s, i, env);
        ForceSteady(Squared(s1, i), i + 1, env);
      } else {
        RefusedSteady(s, i, env);
      }
    }
  }

  lemma CountsAside(s: St, n: int)
    requires Steady(s)
    ensures Steady(s.(nCommitted := n))
  {
  }

  lemma RefusedSteady(s: St, i: nat, env: Env)
    requires Steady(s) && i < |s.files| && PublishFull(s, i, env).1 != Nil
    ensures Steady(PublishFull(s, i, env).0)
  {
    PublishFullSays(s, i, env);
    PublishFullFrozen(s, i, env);
    hide PublishFull;
    var t := PublishFull(s, i, env).0;
    PlacedAlike(s.files, t.files, s.writeOff);
    if !t.latched {
      AheadTrails(s.files, i, t.files[i], s.commitOff, s.commitOff);
    }
  }

  lemma SquaredSteady(s: St, i: nat, env: Env)
    requires Steady(s) && i < |s.files| && PublishFull(s, i, env).1 == Nil
    ensures var s1 := PublishFull(s, i, env).0;
            var t := Squared(s1, i);
            && |s1.files| == |s.files| && |t.files| == |s.files|
            && Steady(t) && s.commitOff <= t.commitOff && s.headOff <= t.headOff && t.writeOff == s.writeOff
            && t.reserved == s.reserved && t.pendingCorrupt == s.pendingCorrupt
            && t.corruptions == s.corruptions && t.lostBytes == s.lostBytes
  {
    hide Ordered;
    PublishFullSays(s, i, env);
    PublishFullFrozen(s, i, env);
    var s1 := PublishFull(s, i, env).0;
    hide PublishFull;
    var t := Squared(s1, i);
    assert s1.files[i].base == s.files[i].base && s1.files[i].size == s.files[i].size && s.files[i] in s.files;
    assert t.files == s.files[i := t.files[i]];
    PlacedAlike(s.files, s1.files, s.writeOff);
    SquaredShape(s1, i);
    PlacedAlike(s1.files, t.files, s.writeOff);
    if !t.latched {
      AheadTrails(s.files, i, t.files[i], s.commitOff, t.commitOff);
    }
  }

  lemma SquaredShape(s: St, i: nat)
    requires i < |s.files|
    ensures SameShape(s.files, Squared(s, i).files)
  {
  }

  lemma AbandonSteady(s: St, env: Env)
    requires Steady(s)
    ensures var (t, e) := Abandon(s, env);
            && Steady(t) && s.commitOff <= t.commitOff && s.headOff <= t.headOff && t.writeOff == s.writeOff
            && t.reserved == s.reserved && t.pendingCorrupt == s.pendingCorrupt
            && (e == Nil ==> t.commitOff == t.headOff == t.writeOff)
            && t.corruptions == s.corruptions + (if e == Nil then 1 else 0)
            && t.lostBytes == s.lostBytes + (if e == Nil then s.writeOff - s.headOff else 0)
  {
    hide ForceCommit;
    ForceSteady(s, 0, env);
    var (t, e) := ForceCommit(s, 0, env);
    if e == Nil && !t.latched {
      forall i | 0 <= i < |t.files| ensures Trails(t.files[i], t.writeOff) {
        assert Trails(t.files[i], t.commitOff);
      }
    }
  }

  // ----- reading

  /** The read cursor stands short of the write cursor in no segment: the next read gives everything up. */
  predicate Lost(s: St) {
    s.pendingCorrupt == 0 && s.headOff < s.writeOff && FileFor(s.files, s.headOff) < 0
  }

  /** Each loss answered once, each byte of cursor movement delivered or booked. */
  predicate Books(s: St, t: St, d: Taken) {
    && t.corruptions - s.corruptions == t.pendingCorrupt - s.pendingCorrupt + Answers(d)
    && t.headOff - s.headOff == Bytes(d) + t.lostBytes - s.lostBytes
  }

  predicate Hands(s: St, t: St, d: Taken) {
    d.Delivered? ==>
      && d.at == s.headOff == t.lastFrameAt && d.at < d.next == t.headOff == t.lastFrameEnd
      && t.reserved == s.reserved && t.commitOff == s.commitOff && t.files == s.files
  }

  /** A read that finds its segment. */
  ghost predicate Reads(s: St, t: St, d: Taken, out: Extents) {
    && Steady(t) && t.writeOff == s.writeOff && Low(s) <= t.commitOff && s.headOff <= t.headOff
    && Books(s, t, d) && Hands(s, t, d) && (Safe(s, out) ==> Safe(t, out))
  }

  lemma EndsPlaced(s: St, i: nat)
    requires Steady(s) && i < |s.files|
    ensures s.files[i].End() <= s.writeOff
  {
    assert s.files[i] in s.files;
  }

  /** The damage stands at both cursors: the rest of the segment goes, or nothing does. */
  lemma RetireHeadSteady(s: St, i: nat, env: Env, out: Extents)
    requires Steady(s) && FileFor(s.files, s.headOff) == i && s.commitOff == s.headOff
    ensures Reads(s, QuarantineHead(s, env).0, QuarantineHead(s, env).1, out)
  {
    hide SkipCorrupt;
    hide RetireRest;
    hide Ordered;
    SkipAtCursor(s, env);
    RetireSays(s, i, env);
    RetireRestFrozen(s, i, env);
    SkipFrozen(s, env);
    EndsPlaced(s, i);
    var (t, e) := SkipCorrupt(s, s.headOff, env);
    assert e == Nil ==> t.headOff == s.files[i].End();
    assert Safe(s, out) ==> forall x <- out :: false;
    PlacedAlike(s.files, t.files, s.writeOff);
    if !t.latched {
      AheadTrails(s.files, i, t.files[i], s.commitOff, t.commitOff);
    }
  }

  lemma AheadSteady(s: St, i: nat)
    requires Steady(s) && i < |s.files|
    ensures Steady(SkippedAhead(s, s.files[i]))
  {
    EndsPlaced(s, i);
  }

  lemma DeferSteady(s: St, i: nat, env: Env, out: Extents)
    requires Steady(s) && FileFor(s.files, s.headOff) == i && s.commitOff != s.headOff
    ensures Reads(s, QuarantineHead(s, env).0, QuarantineHead(s, env).1, out)
  {
    hide Steady;
    hide RetireRest;
    hide Track;
    var f := s.files[i];
    var s2, r := SkippedAhead(s, f), Reservation(s.headOff, f.End(), true, true, f.written);
    AheadSteady(s, i);
    SteadyCursors(s);
    assert Safe(s, out) ==> Safe(s2, out);
    TrackSteady(s2, r, out);
    TrackedLedger(s2, r);
    assert SkipCorrupt(s, s.headOff, env) == (Track(s2, r), Nil);
  }

  lemma QuarantineSteady(s: St, env: Env, out: Extents)
    requires Steady(s) && FileFor(s.files, s.headOff) >= 0
    ensures Reads(s, QuarantineHead(s, env).0, QuarantineHead(s, env).1, out)
  {
    hide Steady;
    hide QuarantineHead;
    if s.commitOff == s.headOff {
      RetireHeadSteady(s, FileFor(s.files, s.headOff), env, out);
    } else {
      DeferSteady(s, FileFor(s.files, s.headOff), env, out);
    }
  }

  lemma PassedSteady(s: St, i: nat, next: int, out: Extents)
    requires Steady(s) && i < |s.files| && s.headOff < next <= s.files[i].End()
    ensures Steady(Passed(s, next)) && Low(Passed(s, next)) == Low(s)
    ensures Safe(s, out) ==> Safe(Passed(s, next), out) && forall x <- out :: x.1 <= s.headOff
  {
    EndsPlaced(s, i);
  }

  lemma DropFrameSteady(s: St, i: nat, next: int, env: Env, out: Extents)
    requires Steady(s) && i < |s.files| && s.headOff < next <= s.files[i].End()
    ensures Reads(s, DropFrame(s, next, env).0, DropFrame(s, next, env).1, out)
  {
    hide Steady;
    hide RetireFrame;
    hide Safe;
    hide Low;
    SteadyCursors(s);
    PassedSteady(s, i, next, out);
    RetireFrameSteady(Passed(s, next), s.headOff, next, false, env, out);
  }

  lemma DeliverSteady(s: St, i: nat, next: int, out: Extents)
    requires Steady(s) && i < |s.files| && s.headOff < next <= s.files[i].End()
    ensures Reads(s, s.(lastFrameAt := s.headOff, lastFrameEnd := next, headOff := next), Delivered(s.headOff, next), out)
  {
    EndsPlaced(s, i);
  }

  /** takeHead, when the read cursor is in a segment or there is nothing to read. */
  lemma TakeSteady(s: St, env: Env, out: Extents)
    requires Steady(s) && !Lost(s)
    ensures Reads(s, TakeHead(s, env).0, TakeHead(s, env).1, out)
  {
    hide Steady;
    hide QuarantineHead;
    hide DropFrame;
    hide Safe;
    hide Low;
    StandsReads(s, env, out);
    var i := FileFor(s.files, s.headOff);
    if s.pendingCorrupt == 0 && s.headOff < s.writeOff {
      var s1 := s.(latched := s.latched || env.headOpen == OpenedLatched);
      QuarantineSteady(s, env, out);
      QuarantineSteady(s1, env, out);
      ReadsLatched(s, s1, QuarantineHead(s1, env).0, QuarantineHead(s1, env).1, out);
      var b := Decode(s.files[i], s.headOff, env.headFrame);
      if b.End? {
        DropFrameSteady(s1, i, b.next, env, out);
        ReadsLatched(s, s1, DropFrame(s1, b.next, env).0, DropFrame(s1, b.next, env).1, out);
        DeliverSteady(s1, i, b.next, out);
        ReadsLatched(s, s1, s1.(lastFrameAt := s.headOff, lastFrameEnd := b.next, headOff := b.next),
          Delivered(s.headOff, b.next), out);
      }
    }
  }

  lemma StandsReads(s: St, env: Env, out: Extents)
    requires Steady(s)
    ensures Steady(s.(latched := s.latched || env.headOpen == OpenedLatched))
    ensures Reads(s, s, Empty, out) && Reads(s, s, Refused(Retry), out)
    ensures Reads(s, s.(latched := s.latched || env.headOpen == OpenedLatched), Refused(Retry), out)
    ensures s.pendingCorrupt > 0 ==> Reads(s, s.(pendingCorrupt := s.pendingCorrupt - 1), Reported(Nil), out)
  {
  }

  lemma ReadsLatched(s: St, s1: St, t: St, d: Taken, out: Extents)
    requires s1 == s.(latched := s1.latched) && (s.latched ==> s1.latched) && Reads(s1, t, d, out)
    ensures Reads(s, t, d, out)
  {
  }

  // ----- writing

  lemma PublishSteady(s: St, lens: seq<nat>, ans: WriteAns)
    requires Steady(s) && (s.files == [] || !NeedsCycle(s, SumLens(lens)))
    ensures Steady(PublishSpan(s, lens, ans).0) && Undisturbed(s, PublishSpan(s, lens, ans).0)
  {
    hide PublishSpan;
    hide Placed;
    hide Trailing;
    hide LedgerSorted;
    PublishPlaced(s, lens, ans);
    if s.files == [] {
      NothingPublished(s, lens, ans);
    } else {
      PublishedTail(s, lens, ans);
      var t := PublishSpan(s, lens, ans).0;
      if !t.latched {
        TailTrails(s.files, t.files, s.commitOff);
      }
    }
  }

  lemma TailTrails(fs: seq<Seg>, gs: seq<Seg>, c: int)
    requires Trailing(fs, c) && fs != [] && |gs| == |fs| && gs == fs[|fs| - 1 := gs[|fs| - 1]]
    requires var f, g := fs[|fs| - 1], gs[|fs| - 1];
             g.base == f.base && f.size <= g.size && g.hdr.commitCur == f.hdr.commitCur
    ensures Trailing(gs, c)
  {
    forall i | 0 <= i < |gs| ensures Trails(gs[i], c) {
      assert Trails(fs[i], c);
    }
  }

  lemma StartSteady(d: St, need: nat, ans: CreateAns)
    requires Steady(d)
    ensures Steady(StartSegment(d, need, ans).0) && Undisturbed(d, StartSegment(d, need, ans).0)
  {
    hide Placed;
    StartPlaced(d, need, ans);
    var t := StartSegment(d, need, ans).0;
    forall i | 0 <= i < |t.files| && !t.latched ensures Trails(t.files[i], t.commitOff) {
      if i < |d.files| {
        assert Trails(d.files[i], d.commitOff);
      }
    }
  }

  lemma CycleSteady(s: St, need: nat, force: bool, a: AppendEnv)
    requires Steady(s)
    ensures var (t, e) := Cycle(s, need, force, a);
            Steady(t) && Undisturbed(s, t) && (e == Nil ==> !t.latched && !NeedsCycle(t, need))
  {
    hide Steady;
    hide DropCommitted;
    DropSteady(s, -1, a.drop);
    DropLeaves(s, -1, a.drop);
    StartSteady(DropCommitted(s, -1, a.drop), need, a.create);
    NewSegFits(DropCommitted(s, -1, a.drop), need);
  }

  lemma AppendSteady(s: St, len: nat, force: bool, a: AppendEnv)
    requires Steady(s)
    ensures Steady(Append(s, len, force, a).0) && Undisturbed(s, Append(s, len, force, a).0)
  {
    hide Steady;
    hide Cycle;
    hide PublishSpan;
    CycleSteady(s, len, force, a);
    var (c, e) := if NeedsCycle(s, len) then Cycle(s, len, force, a) else (s, Nil);
    if !s.latched && e == Nil {
      var o := c.(latched := a.opens == OpenedLatched);
      LatchSteady(c, o.latched);
      LatchSteady(o, true);
      assert SumLens([len]) == len;
      PublishSteady(o, [len], a.header);
      LatchSteady(PublishSpan(o, [len], a.header).0, true);
    }
  }

  // ----- one operation

  ghost predicate Accounted(w: World) {
    && w.st.corruptions == w.answers + w.st.pendingCorrupt
    && w.st.headOff - w.headMark == w.delivered + w.st.lostBytes - w.lostMark
  }

  /** What every operation that does not give the log up keeps. */
  ghost predicate Kept(w: World, v: World) {
    && Steady(v.st) && Low(w.st) <= v.st.commitOff
    && (Safe(w.st, w.out) ==> Safe(v.st, v.out)) && (Accounted(w) ==> Accounted(v))
  }

  lemma SafeBeforeHead(s: St, out: Extents)
    requires Safe(s, out)
    ensures forall x <- out :: s.commitOff <= x.0 < x.1 <= s.headOff
  {
  }

  lemma ReadKept(w: World, op: Op)
    requires Steady(w.st) && !Lost(w.st) && (op.Reserve? || op.TakeUncommitted? || op.Reject?)
    ensures Kept(w, Exec(w, op))
  {
    hide Steady;
    hide Safe;
    hide TakeHead;
    hide Track;
    hide Low;
    TakeSteady(w.st, op.take, w.out);
    SteadyCursors(w.st);
    var (t, d) := TakeHead(w.st, op.take);
    LowBelow(t);
    if Safe(w.st, w.out) {
      SafeBeforeHead(w.st, w.out);
    }
    if d.Delivered? {
      match op {
        case Reserve(_) => ReserveSteady(t, d.at, d.next, w.out);
        case TakeUncommitted(_) => HoleSteady(t, d.at, d.next, w.out);
        case _ => UnreadSteady(w.st, t, w.out);
      }
    }
  }

  lemma SameLow(s: St, t: St)
    requires t.files == s.files && t.commitOff == s.commitOff && (s.latched ==> t.latched)
    ensures Low(s) <= Low(t)
  {
  }

  lemma LowBelow(s: St)
    ensures Low(s) <= s.commitOff
  {
  }

  lemma ReserveSteady(t: St, at: int, next: int, out: Extents)
    requires Steady(t) && t.commitOff <= at < next == t.headOff && forall r <- t.reserved :: r.end <= at
    ensures var u := Track(t, Reservation(at, next, false, false, 0));
            && Steady(u) && u == t.(reserved := u.reserved)
            && (Safe(t, out) && (forall x <- out :: x.1 <= at) ==> Safe(u, out + {(at, next)}))
  {
    hide Steady;
    hide Track;
    var r := Reservation(at, next, false, false, 0);
    TrackSteady(t, r, out);
    TrackedLedger(t, r);
  }

  lemma HoleSteady(t: St, at: int, next: int, out: Extents)
    requires Steady(t) && t.commitOff <= at < next <= t.headOff && forall r <- t.reserved :: r.end <= at
    ensures Safe(t, out) ==> Safe(t, out + {(at, next)})
  {
  }

  /** The read cursor put back to where a read began. */
  lemma UnreadSteady(s: St, t: St, out: Extents)
    requires Steady(s) && Steady(t) && s.headOff <= t.headOff && t.reserved == s.reserved && t.commitOff == s.commitOff
    ensures Steady(t.(headOff := s.headOff)) && (Safe(s, out) ==> Safe(t.(headOff := s.headOff), out))
  {
  }

  lemma HeadInSegment(s: St, env: Env)
    requires TakeHead(s, env).1.Delivered?
    ensures var t := TakeHead(s, env).0;
            var i := FileFor(t.files, s.headOff);
            i >= 0 && t.commitOff == s.commitOff && t.files == s.files && (s.latched ==> t.latched)
  {
  }

  lemma SkipKept(w: World, op: Op)
    requires Steady(w.st) && !Lost(w.st) && op.SkipHead?
    ensures Kept(w, Exec(w, op))
  {
    hide Steady;
    hide Safe;
    hide TakeHead;
    hide RetireFrame;
    hide Low;
    TakeSteady(w.st, op.take, w.out);
    SteadyCursors(w.st);
    var (t, d) := TakeHead(w.st, op.take);
    if Safe(w.st, w.out) {
      SafeBeforeHead(w.st, w.out);
    }
    if d.Delivered? {
      HeadInSegment(w.st, op.take);
      SameLow(w.st, t);
      RetireFrameSteady(t, t.lastFrameAt, t.lastFrameEnd, true, op.retire, w.out);
    }
  }

  lemma MarkSteady(s: St, end: int, out: Extents)
    requires Steady(s)
    ensures Steady(s.(reserved := MarkAcked(s.reserved, end)))
    ensures Safe(s, out) ==> Safe(s.(reserved := MarkAcked(s.reserved, end)), set x | x in out && x.1 != end)
    ensures forall e :: Names(MarkAcked(s.reserved, end), e) <==> Names(s.reserved, e)
  {
    hide Steady;
    SteadyCursors(s);
    MarkedSorted(s.reserved, end, s.headOff);
    LedgerSteady(s, MarkAcked(s.reserved, end));
    if Safe(s, out) {
      MarkedApart(s.reserved, end, out);
    }
  }

  lemma AckKept(w: World, op: Op)
    requires Steady(w.st) && op.AckOne? && op.off <= w.st.headOff && !w.st.latched
    ensures Kept(w, Exec(w, op))
  {
    hide Steady;
    hide CommitAckedRun;
    hide Safe;
    hide MarkAcked;
    var s := w.st;
    DropRetiredSteady(s, w.out);
    SameButLedger(s);
    var d := DropRetired(s);
    hide DropRetired;
    var out := set x | x in w.out && x.1 != op.off;
    if Safe(s, w.out) {
      SafeSubset(d, w.out, out);
    }
    if op.off > s.commitOff && Names(d.reserved, op.off) {
      MarkSteady(d, op.off, w.out);
      CommitRunSteady(d.(reserved := MarkAcked(d.reserved, op.off)), true, op.env, out);
    }
  }

  lemma {:induction false} MarkAllSteady(s: St, offs: seq<int>, out: Extents)
    requires Steady(s)
    ensures var m := MarkAll(s, offs).0;
            && m == s.(reserved := m.reserved) && Steady(m)
            && (Safe(s, out) ==> Safe(m, set x | x in out && !(x.1 in offs && Names(s.reserved, x.1))))
    decreases |offs|
  {
    hide Steady;
    hide Safe;
    hide MarkAcked;
    hide Names;
    var left := set x | x in out && !(x.1 in offs && Names(s.reserved, x.1));
    var safe := Safe(s, out);
    if safe {
      SafeRange(s, out);
    }
    if offs == [] {
      if safe {
        SafeSubset(s, out, left);
      }
    } else {
      var end := offs[0];
      if s.commitOff < end <= s.headOff && Names(s.reserved, end) {
        MarkSteady(s, end, out);
        var fewer := set x | x in out && x.1 != end;
        var s1 := s.(reserved := MarkAcked(s.reserved, end));
        MarkAllSteady(s1, offs[1..], fewer);
        if safe {
          SafeSubset(MarkAll(s1, offs[1..]).0, (set x | x in fewer && !(x.1 in offs[1..] && Names(s1.reserved, x.1))), left);
        }
      } else {
        MarkAllSteady(s, offs[1..], out);
        if safe {
          SafeSubset(MarkAll(s, offs[1..]).0, (set x | x in out && !(x.1 in offs[1..] && Names(s.reserved, x.1))), left);
        }
      }
    }
  }

  lemma AckBatchKept(w: World, op: Op)
    requires Steady(w.st) && op.AckMany? && !w.st.latched
    ensures Kept(w, Exec(w, op))
  {
    hide Steady;
    hide CommitAckedRun;
    hide Safe;
    var s := w.st;
    DropRetiredSteady(s, w.out);
    SameButLedger(s);
    var d := DropRetired(s);
    var m := MarkAll(d, op.offs).0;
    MarkAllSteady(d, op.offs, w.out);
    var marked := set x | x in w.out && !(x.1 in op.offs && Names(d.reserved, x.1));
    var out := set x | x in w.out && !(x.1 in op.offs && Names(s.reserved, x.1));
    assert out <= marked;
    if Safe(s, w.out) {
      SafeSubset(m, marked, out);
    }
    CommitRunSteady(m, true, op.env, out);
  }

  lemma CommitKept(w: World, op: Op)
    requires Steady(w.st) && op.Commit? && op.off <= w.st.headOff
    ensures Kept(w, Exec(w, op))
  {
    hide Steady;
    hide CommitDurable;
    CommitSteady(w.st, op.off, true, op.env);
  }

  // A record read and requeued: the append does not bring a stale header in front of the cursor.

  predicate LastAbove(fs: seq<Seg>, floor: int) {
    fs != [] ==> RollbackTo(fs[|fs| - 1]) >= floor
  }

  lemma DropFloored(s: St, keep: int, env: Env, floor: int)
    requires Floored(s.files, floor)
    ensures Floored(DropCommitted(s, keep, env).files, floor)
  {
    hide Reclaim;
    ReclaimSubset(s.files, s.commitOff, keep, env);
    var t := DropCommitted(s, keep, env);
    forall i | 0 <= i < |t.files| && t.files[i].End() > floor ensures RollbackTo(t.files[i]) >= floor {
      assert t.files[i] in s.files;
    }
  }

  lemma CycleFloored(s: St, need: nat, force: bool, a: AppendEnv, floor: int)
    requires Floored(s.files, floor) && floor <= s.writeOff
    ensures var (t, e) := Cycle(s, need, force, a);
            Floored(t.files, floor) && (e == Nil ==> LastAbove(t.files, floor))
  {
    hide DropCommitted;
    DropFloored(s, -1, a.drop, floor);
    DropLeaves(s, -1, a.drop);
  }

  lemma PublishFloored(s: St, lens: seq<nat>, ans: WriteAns, floor: int)
    requires Floored(s.files, floor) && LastAbove(s.files, floor)
    ensures Floored(PublishSpan(s, lens, ans).0.files, floor)
  {
    hide PublishSpan;
    if s.files == [] {
      NothingPublished(s, lens, ans);
    } else {
      PublishedTail(s, lens, ans);
    }
  }

  lemma AppendFloored(s: St, len: nat, force: bool, a: AppendEnv, floor: int)
    requires Floored(s.files, floor) && floor <= s.writeOff && LastAbove(s.files, floor)
    ensures Floored(Append(s, len, force, a).0.files, floor)
  {
    hide Floored;
    hide LastAbove;
    hide Cycle;
    hide PublishSpan;
    CycleFloored(s, len, force, a, floor);
    var (c, e) := if NeedsCycle(s, len) then Cycle(s, len, force, a) else (s, Nil);
    if e == Nil {
      PublishFloored(c.(latched := a.opens == OpenedLatched), [len], a.header, floor);
    }
  }

  lemma AppendLow(s: St, i: nat, len: nat, force: bool, a: AppendEnv)
    requires Steady(s) && !s.latched && i < |s.files| && s.commitOff < s.files[i].End()
    ensures Low(s) <= Low(Append(s, len, force, a).0)
  {
    hide Append;
    hide Steady;
    hide Floored;
    hide LastAbove;
    StandsLow(s, i);
    AppendFloored(s, len, force, a, Low(s));
    AppendSteady(s, len, force, a);
    FlooredLow(Append(s, len, force, a).0, Low(s));
  }

  lemma StandsLow(s: St, i: nat)
    requires Steady(s) && !s.latched && i < |s.files| && s.commitOff < s.files[i].End()
    ensures Floored(s.files, Low(s)) && LastAbove(s.files, Low(s)) && Low(s) <= s.commitOff <= s.writeOff
  {
    hide Low;
    LowFloors(s);
    if i < |s.files| - 1 {
      assert s.files[i].End() <= s.files[|s.files| - 1].base;
    }
  }

  lemma FlooredLow(t: St, floor: int)
    requires Floored(t.files, floor) && floor <= t.commitOff
    ensures floor <= Low(t)
  {
  }

  lemma AppendLatched(s: St, len: nat, force: bool, a: AppendEnv)
    requires s.latched
    ensures Append(s, len, force, a) == (s, IOErr)
  {
  }

  lemma RequeueKept(w: World, op: Op)
    requires Steady(w.st) && !Lost(w.st) && op.RequeueHead?
    ensures Kept(w, Exec(w, op))
  {
    hide Steady;
    hide Safe;
    hide TakeHead;
    hide Append;
    hide RetireFrame;
    hide Low;
    TakeSteady(w.st, op.take, w.out);
    SteadyCursors(w.st);
    LowBelow(w.st);
    if Safe(w.st, w.out) {
      SafeBeforeHead(w.st, w.out);
    }
    var (t, d) := TakeHead(w.st, op.take);
    if d.Delivered? {
      AppendSteady(t, d.next - d.at, true, op.a);
      var (u, e) := Append(t, d.next - d.at, true, op.a);
      if Safe(t, w.out) {
        UndisturbedKeepsSafe(t, u, w.out);
      }
      if e == Nil {
        RetireFrameSteady(u, d.at, d.next, true, op.retire, w.out);
        HeadInSegment(w.st, op.take);
        if t.latched {
          AppendLatched(t, d.next - d.at, true, op.a);
        }
        AppendLow(t, FileFor(t.files, d.at), d.next - d.at, true, op.a);
        SameLow(w.st, t);
      } else {
        UnreadSteady(w.st, u, w.out);
      }
    }
  }

  // ----- every operation

  /** publishSpan's caller has cycled first. */
  predicate Fits(w: World, op: Op) {
    op.PublishMany? ==> w.st.files == [] || !NeedsCycle(w.st, SumLens(op.lens))
  }

  /** A read that finds its cursor in no segment. */
  predicate GivesUp(w: World, op: Op) {
    (op.Reserve? || op.TakeUncommitted? || op.Reject? || op.SkipHead? || op.RequeueHead?) && Lost(w.st)
  }

  /** Giving up takes the commit cursor past a record that is out. */
  predicate Overruns(w: World, op: Op) {
    GivesUp(w, op) && exists x <- w.out :: x.0 < Abandon(w.st, op.take).0.commitOff
  }

  /** Giving up is refused with the read cursor already dragged along. */
  predicate Unbooked(w: World, op: Op) {
    GivesUp(w, op) && Abandon(w.st, op.take).1 != Nil && Abandon(w.st, op.take).0.headOff != w.st.headOff
  }

  lemma StepKept(w: World, op: Op)
    requires Steady(w.st) && Fits(w, op) && !GivesUp(w, op)
    ensures Kept(w, Exec(w, op))
  {
    hide Low;
    LowBelow(w.st);
    match op
    case Reserve(_) => ReadKept(w, op);
    case TakeUncommitted(_) => ReadKept(w, op);
    case Reject(_) => ReadKept(w, op);
    case AckOne(off, _) =>
      if off <= w.st.headOff && !w.st.latched {
        AckKept(w, op);
      }
    case AckMany(_, _) =>
      if !w.st.latched {
        AckBatchKept(w, op);
      }
    case Commit(off, _) =>
      if off <= w.st.headOff {
        CommitKept(w, op);
      }
    case SkipHead(_, _) => SkipKept(w, op);
    case RequeueHead(_, _, _) => RequeueKept(w, op);
    case RewindAll => RewindKept(w);
    case AppendOne(len, a) =>
      AppendSteady(w.st, len, false, a);
      UndisturbedKept(w, Exec(w, op));
    case PublishMany(lens, ans) =>
      PublishSteady(w.st, lens, ans);
      UndisturbedKept(w, Exec(w, op));
    case SetPins(i, pins) =>
      if i < |w.st.files| {
        PinsSteady(w.st, i, pins);
      }
    case SetCap(bytes) => CapSteady(w, bytes);
  }

  lemma CapSteady(w: World, bytes: nat)
    requires Steady(w.st)
    ensures Kept(w, Exec(w, SetCap(bytes)))
  {
  }

  lemma RewindKept(w: World)
    requires Steady(w.st)
    ensures Kept(w, Exec(w, RewindAll))
  {
  }

  lemma UndisturbedKept(w: World, v: World)
    requires Steady(v.st) && Undisturbed(w.st, v.st) && v == w.(st := v.st)
    ensures Kept(w, v)
  {
  }

  lemma PinsSteady(s: St, i: nat, pins: nat)
    requires Steady(s) && i < |s.files|
    ensures Steady(Put(s, i, s.files[i].(pins := pins)))
  {
    var t := Put(s, i, s.files[i].(pins := pins));
    PlacedAlike(s.files, t.files, s.writeOff);
    if !s.latched {
      AheadTrails(s.files, i, t.files[i], s.commitOff, s.commitOff);
    }
  }

  lemma GivenUp(w: World, op: Op)
    requires Steady(w.st) && GivesUp(w, op)
    ensures var (t, e), v := Abandon(w.st, op.take), Exec(w, op);
            && v == w.(st := t, answers := v.answers) && Steady(t) && w.st.commitOff <= t.commitOff
            && v.answers == w.answers + if e == Nil || t.headOff != w.st.headOff then 1 else 0
  {
    hide Steady;
    hide Abandon;
    AbandonSteady(w.st, op.take);
  }

  /** Any operation, any fault, any damage, published anywhere. */
  lemma StepSteadyAnywhere(w: World, op: Op)
    requires Steady(w.st) && Fits(w, op)
    ensures Steady(Exec(w, op).st)
  {
    hide Steady;
    hide Exec;
    if GivesUp(w, op) {
      GivenUp(w, op);
    } else {
      StepKept(w, op);
    }
  }

  /** The one kind of step that passes a record handed out: a read that gives the log up with records out before
      where it gets to. */
  lemma OverrunExactlyWhen(w: World, op: Op)
    requires Steady(w.st) && Safe(w.st, w.out) && Fits(w, op)
    ensures Safe(Exec(w, op).st, Exec(w, op).out) <==> !Overruns(w, op)
  {
    hide Steady;
    hide Exec;
    hide Abandon;
    if GivesUp(w, op) {
      GivenUp(w, op);
      AbandonSteady(w.st, op.take);
    } else {
      StepKept(w, op);
    }
  }

  /** Gone through with, giving up passes every record that is out, and books what it passes. */
  lemma GivesUpWhole(w: World, op: Op)
    requires Steady(w.st) && Safe(w.st, w.out) && GivesUp(w, op) && Abandon(w.st, op.take).1 == Nil
    ensures (Overruns(w, op) <==> w.out != {}) && !Unbooked(w, op)
  {
    hide Steady;
    hide Abandon;
    AbandonSteady(w.st, op.take);
    SteadyCursors(w.st);
    if w.out != {} {
      var x :| x in w.out;
      assert x.0 < x.1 <= w.st.headOff;
    }
  }

  /** The one kind of step that breaks the accounts: a read that begins to give the log up and is refused. */
  lemma UnbookedExactlyWhen(w: World, op: Op)
    requires Steady(w.st) && Accounted(w) && Fits(w, op)
    ensures Accounted(Exec(w, op)) <==> !Unbooked(w, op)
  {
    hide Steady;
    hide Exec;
    hide Abandon;
    if GivesUp(w, op) {
      GivenUp(w, op);
      AbandonSteady(w.st, op.take);
    } else {
      StepKept(w, op);
    }
  }

  /** The commit cursor falls back only where the header of the segment it stands in lags behind it. */
  lemma RetreatNeedsStaleHeader(w: World, op: Op)
    requires Steady(w.st) && Fits(w, op)
    ensures Low(w.st) <= Exec(w, op).st.commitOff
  {
    hide Steady;
    hide Exec;
    hide Low;
    LowBelow(w.st);
    if GivesUp(w, op) {
      GivenUp(w, op);
    } else {
      StepKept(w, op);
    }
  }

  // ----- whole runs

  ghost predicate FitRun(w: World, ops: seq<Op>)
    decreases |ops|
  {
    ops != [] ==> Fits(w, ops[0]) && FitRun(Exec(w, ops[0]), ops[1..])
  }

  ghost predicate Never(w: World, ops: seq<Op>, bad: (World, Op) -> bool)
    decreases |ops|
  {
    ops != [] ==> !bad(w, ops[0]) && Never(Exec(w, ops[0]), ops[1..], bad)
  }

  ghost predicate SafeThroughout(w: World, ops: seq<Op>)
    decreases |ops|
  {
    Safe(w.st, w.out) && (ops != [] ==> SafeThroughout(Exec(w, ops[0]), ops[1..]))
  }

  ghost predicate AccountedThroughout(w: World, ops: seq<Op>)
    decreases |ops|
  {
    Accounted(w) && (ops != [] ==> AccountedThroughout(Exec(w, ops[0]), ops[1..]))
  }

  /** Over every run: nothing handed out is passed before its answer unless, and as soon as, a read gives it up. */
  lemma {:induction false} AckSafetyExactlyWhen(w: World, ops: seq<Op>)
    requires Steady(w.st) && Safe(w.st, w.out) && FitRun(w, ops)
    ensures SafeThroughout(w, ops) <==> Never(w, ops, Overruns)
    decreases |ops|
  {
    hide Steady;
    hide Safe;
    hide Exec;
    hide Overruns;
    hide Fits;
    if ops != [] {
      StepSteadyAnywhere(w, ops[0]);
      OverrunExactlyWhen(w, ops[0]);
      if !Overruns(w, ops[0]) {
        AckSafetyExactlyWhen(Exec(w, ops[0]), ops[1..]);
      }
    }
  }

  /** Over every run: the accounts balance unless, and as soon as, giving up is refused half way. */
  lemma {:induction false} AccountsExactlyWhen(w: World, ops: seq<Op>)
    requires Steady(w.st) && Accounted(w) && FitRun(w, ops)
    ensures AccountedThroughout(w, ops) <==> Never(w, ops, Unbooked)
    decreases |ops|
  {
    hide Steady;
    hide Accounted;
    hide Exec;
    hide Unbooked;
    hide Fits;
    if ops != [] {
      StepSteadyAnywhere(w, ops[0]);
      UnbookedExactlyWhen(w, ops[0]);
      if !Unbooked(w, ops[0]) {
        AccountsExactlyWhen(Exec(w, ops[0]), ops[1..]);
      }
    }
  }

  predicate Stale(w: World, op: Op) {
    Low(w.st) < w.st.commitOff
  }

  /** Over every run: the commit cursor only moves forward, as long as no header it may fall back to lags behind it. */
  lemma {:induction false} CommitForwardUnlessStale(w: World, ops: seq<Op>)
    requires Steady(w.st) && FitRun(w, ops) && Never(w, ops, Stale)
    ensures w.st.commitOff <= Run(w, ops).st.commitOff
    decreases |ops|
  {
    hide Steady;
    hide Exec;
    hide Low;
    hide Fits;
    if ops != [] {
      StepSteadyAnywhere(w, ops[0]);
      RetreatNeedsStaleHeader(w, ops[0]);
      CommitForwardUnlessStale(Exec(w, ops[0]), ops[1..]);
    }
  }

  /** A store that satisfies the invariant does neither, and its header stands where its cursor does. */
  lemma SoundNeverGivesUp(w: World, op: Op)
    requires Inv(w.st)
    ensures Steady(w.st) && !GivesUp(w, op) && Low(w.st) == w.st.commitOff
  {
    hide TakeHead;
    InvIsSteady(w.st);
    FileForIsTheOwner(w.st.files, w.st.commitOff, w.st.writeOff, w.st.headOff);
    var i := FileFor(w.st.files, w.st.commitOff);
    if i >= 0 && !w.st.latched {
      assert Resident(w.st.files[i], w.st.commitOff);
    }
  }
}
