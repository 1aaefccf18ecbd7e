/** Where two promises stop: the inputs that break them, beside the exact conditions proved elsewhere. */
module LogLimits {
  import opened Ints
  import opened Log
  import opened LogWalk
  import opened LogCommit
  import opened LogOps
  import opened LogSafety
  import opened LogWrites
  import opened LogRuns
  import opened LogAnyRun
  import opened LogCounts
  import opened LogAnswers

  // ----- a refused cycle behind a pinned survivor

  function Full(num: nat, base: int, size: nat, pins: nat): Seg {
    var h := Hdr(HEADER_SIZE + size, HEADER_SIZE + size, 1, 1);
    Seg(num, base, size, 100, 1, 1, h, [h], false, pins, [size], [])
  }

  /** Two drained segments of capacity 100, the older one pinned by a flush running off the lock. */
  function Drained(a: nat, b: nat): St {
    St([Full(1, 0, a, 1), Full(2, a, b, 0)], a + b, a + b, a + b, [], 2, 2, 2, false, false,
       0, 0, 0, 0, 0, 0, 0, 328, 0, 3, 100, 0, PerOp, 0)
  }

  lemma DrainedSums(a: nat, b: nat)
    ensures Sums(Drained(a, b))
  {
    var s := Drained(a, b);
    SumsAppend([], s.files[0]);
    SumsAppend([s.files[0]], s.files[1]);
    assert s.files == [s.files[0]] + [s.files[1]] && [] + [s.files[0]] == [s.files[0]];
  }

  lemma FullResident(num: nat, base: int, size: nat, pins: nat, c: int)
    requires base + size <= c
    ensures Resident(Full(num, base, size, pins), c) && OnDisk(Full(num, base, size, pins))
  {
  }

  lemma DrainedAgrees(a: nat, b: nat)
    ensures Agree(Drained(a, b))
  {
    hide Resident;
    hide OnDisk;
    FullResident(1, 0, a, 1, a + b);
    FullResident(2, a, b, 0, a + b);
  }

  lemma DrainedGeo(a: nat, b: nat)
    requires a <= 100 && b <= 100
    ensures Geo(Drained(a, b))
  {
  }

  lemma DrainedIsSound(a: nat, b: nat)
    requires a <= 100 && b <= 100
    ensures Inv(Drained(a, b)) && Attached(Drained(a, b))
  {
    hide Sums;
    hide Agree;
    hide Geo;
    hide Drained;
    DrainedSums(a, b);
    DrainedAgrees(a, b);
    DrainedGeo(a, b);
    DrainedRest(a, b);
  }

  lemma DrainedRest(a: nat, b: nat)
    ensures var s := Drained(a, b);
            && LedgerIn(s) && LedgerSorted(s.reserved, s.headOff) && !s.strayed && !s.latched
            && s.files != [] && s.files[|s.files| - 1].End() == s.writeOff
    ensures Agree(Drained(a, b)) ==> Tracks(Drained(a, b))
  {
    hide Agree;
    if Agree(Drained(a, b)) {
      AgreeTracks(Drained(a, b));
    }
  }

  /** Nothing of the segment is left to commit, and its header, if it still has a file, says so. */
  predicate Retired(f: Seg) {
    f.committed >= f.written && (f.gone || f.hdr.commitCur >= HEADER_SIZE + f.size)
  }

  lemma FullPublished(s: St, i: nat, env: Env)
    requires i < |s.files|
    ensures var (t, e), f := PublishFull(s, i, env), s.files[i];
            && |t.files| == |s.files|
            && t == s.(files := s.files[i := t.files[i]], latched := t.latched, strayed := t.strayed)
            && var g := t.files[i];
               && g == f.(hdr := g.hdr, images := g.images, gone := g.gone)
               && (e == Nil ==> g.gone || g.hdr.commitCur == HEADER_SIZE + f.size)
  {
    hide WriteHeader;
    FullOutcome(s, i, env);
    assert s.files[i := s.files[i]] == s.files;
  }

  lemma SquaredRetires(s: St, i: nat)
    requires i < |s.files| && (s.files[i].gone || s.files[i].hdr.commitCur >= HEADER_SIZE + s.files[i].size)
    ensures var t := Squared(s, i);
            && |t.files| == |s.files| && t.files == s.files[i := t.files[i]] && Retired(t.files[i])
            && t.writeOff == s.writeOff && t.nWritten == s.nWritten && t.corruptions == s.corruptions && t.lostBytes == s.lostBytes
  {
  }

  predicate RetiredTo(fs: seq<Seg>, n: nat) {
    n <= |fs| && forall k | 0 <= k < n :: Retired(fs[k])
  }

  /** Stopped at segment j: those before it squared, those behind it as they were. */
  predicate StoppedAt(fs: seq<Seg>, gs: seq<Seg>, j: nat) {
    |gs| == |fs| && RetiredTo(gs, j) && j < |fs| && gs[j + 1..] == fs[j + 1..]
  }

  lemma RetiredNext(fs: seq<Seg>, gs: seq<Seg>, i: nat)
    requires RetiredTo(fs, i) && i < |fs| == |gs| && gs == fs[i := gs[i]] && Retired(gs[i])
    ensures RetiredTo(gs, i + 1)
  {
  }

  /** Every segment squared, in memory and in its header, and the counters with them; a header that cannot be published
      stops it with the segments before it squared and those behind it as they were. */
  lemma {:induction false} ForceCommitRetires(s: St, i: nat, env: Env)
    requires i <= |s.files| && RetiredTo(s.files, i)
    ensures var (t, e) := ForceCommit(s, i, env);
            && |t.files| == |s.files| && t.writeOff == s.writeOff && t.nWritten == s.nWritten
            && t.corruptions == s.corruptions && t.lostBytes == s.lostBytes
            && (e == Nil ==> t.nCommitted == t.nWritten && RetiredTo(t.files, |t.files|))
            && (e != Nil ==> exists j: nat :: i <= j && StoppedAt(s.files, t.files, j))
    decreases |s.files| - i
  {
    hide PublishFull;
    hide Squared;
    hide Retired;
    hide RetiredTo;
    if i < |s.files| {
      var f := s.files[i];
      if FullyCommitted(f) {
        assert s.files[i := f] == s.files;
        FullIsRetired(f);
        RetiredNext(s.files, s.files, i);
        ForceCommitRetires(s, i + 1, env);
      } else {
        FullPublished(s, i, env);
        var (s1, e) := PublishFull(s, i, env);
        if e == Nil {
          SquaredRetires(s1, i);
          var s2 := Squared(s1, i);
          assert s2.files == s.files[i := s2.files[i]];
          RetiredNext(s.files, s2.files, i);
          ForceCommitRetires(s2, i + 1, env);
          StopsLater(s.files, s2.files, ForceCommit(s2, i + 1, env).0.files, i);
        } else {
          StopsHere(s.files, s1.files, i);
        }
      }
    }
  }

  lemma FullIsRetired(f: Seg)
    requires FullyCommitted(f)
    ensures Retired(f)
  {
  }

  lemma StopsHere(fs: seq<Seg>, gs: seq<Seg>, i: nat)
    requires RetiredTo(fs, i) && i < |fs| == |gs| && gs == fs[i := gs[i]]
    ensures StoppedAt(fs, gs, i)
  {
  }

  lemma StopsLater(fs: seq<Seg>, ms: seq<Seg>, gs: seq<Seg>, i: nat)
    requires i < |fs| == |ms| && ms == fs[i := ms[i]]
    ensures forall j: nat | i + 1 <= j && StoppedAt(ms, gs, j) :: StoppedAt(fs, gs, j)
  {
    forall j: nat | i + 1 <= j && StoppedAt(ms, gs, j) ensures StoppedAt(fs, gs, j) {
      assert ms[j + 1..] == fs[j + 1..];
    }
  }

  /** What a cursor in no segment costs: everything unread is lost once, and the queue is then empty by every
      measure. */
  lemma AbandonDrains(s: St, env: Env)
    ensures var (t, e) := Abandon(s, env);
            e == Nil ==>
              && t.headOff == t.writeOff == s.writeOff <= t.commitOff && t.nCommitted == t.nWritten == s.nWritten
              && t.corruptions == s.corruptions + 1 && t.lostBytes == s.lostBytes + Max(s.writeOff - s.headOff, 0)
              && RetiredTo(t.files, |t.files|)
  {
    hide ForceCommit;
    ForceCommitRetires(s, 0, env);
  }

  /** The create fails after the active segment has gone. */
  ghost predicate Refuses(a: AppendEnv) {
    a.addressable && a.create == CreateFailed && a.drop.unlink(2)
  }

  ghost predicate Accepts(a: AppendEnv) {
    && a.addressable && a.create == Created && a.opens == Opened && a.wrote && a.dataSync && a.header == Wrote
    && a.headerSync && a.tick == TickOk
  }

  ghost predicate Squares(env: Env, num: nat) {
    env.fullOpen(num) == Opened && env.fullWrite(num) == Wrote && env.fullFlush(num)
  }

  /** What a refused cycle leaves of the two segments. */
  function Survivor(a: nat, b: nat): St {
    Drained(a, b).(files := [Full(1, 0, a, 1)], nWritten := 1, nCommitted := 1, diskBytes := 164)
  }

  lemma CycleRefusedHere(a: nat, b: nat, e: AppendEnv)
    requires 0 < a && 4 < b && Refuses(e)
    ensures Append(Drained(a, b), 96, false, e) == (Survivor(a, b), Retry)
  {
    var s := Drained(a, b);
    var f, g := s.files[0], s.files[1];
    assert s.files[1..] == [g] && [g][1..] == [];
    assert Reclaim([], a + b, -3, e.drop).files == [];
    assert Reclaim([g], a + b, -2, e.drop) == Reclaimed([], 1, 1, 164, 0);
    assert Reclaim(s.files, a + b, -1, e.drop) == Reclaimed([f], 1, 1, 164, 0);
  }

  lemma OneLen(n: nat)
    ensures SumLens([n]) == n && EndsAfter(0, []) == []
  {
    assert [n][1..] == [];
  }

  lemma AppendsHere(s: St, len: nat, a: AppendEnv)
    requires Accepts(a) && !s.latched && Admit(s, len, false, true) == Nil && !NeedsCycle(s, len) && !s.files[|s.files| - 1].gone
    ensures Append(s, len, false, a) == (Published(s, [len]), Nil)
  {
    OneLen(len);
    assert s.(latched := false) == s;
    PublishOutcome(s, [len], a.header);
    PublishesNil(s, [len]);
    hide PublishSpan;
    hide Published;
  }

  lemma PublishesNil(s: St, lens: seq<nat>)
    requires s.files != [] && !s.files[|s.files| - 1].gone && !s.latched
    ensures PublishSpan(s, lens, Wrote).1 == Nil
  {
  }

  /** The survivor after n records of ten bytes have been accepted into it. */
  ghost predicate Stranding(s: St, a: nat, b: nat, n: nat) {
    && |s.files| == 1
    && s == Survivor(a, b).(files := s.files, writeOff := a + b + 10 * n, nWritten := 1 + n)
    && var f := s.files[0];
       && f.num == 1 && f.base == 0 && f.size == a + 10 * n && f.capacity == 100 && f.hdr.commitCur == HEADER_SIZE + a
       && !f.gone && f.pins == 1 && f.written == 1 + n && f.committed == 1
  }

  lemma SurvivorStands(a: nat, b: nat)
    ensures Stranding(Survivor(a, b), a, b, 0)
  {
  }

  lemma StrandedHere(s: St, a: nat, b: nat, n: nat)
    requires Stranding(s, a, b, n)
    ensures s.commitOff == s.headOff == a + b && s.writeOff == a + b + 10 * n
    ensures !s.latched && s.pendingCorrupt == 0 && s.lostBytes == 0 && s.reserved == [] && s.policy == PerOp
    ensures |s.files| == 1 && s.files[0].hdr.commitCur == HEADER_SIZE + a
    ensures |s.files| == 1 && s.files[0].num == 1 && s.files[0].base == 0 && s.files[0].size == a + 10 * n
  {
  }

  lemma Strands(s: St, a: nat, b: nat, n: nat, e: AppendEnv) returns (t: St)
    requires Stranding(s, a, b, n) && a + 10 * n <= 90 && Accepts(e)
    ensures Append(s, 10, false, e) == (t, Nil) && Stranding(t, a, b, n + 1)
  {
    OneLen(10);
    AppendsHere(s, 10, e);
    hide Append;
    t := Published(s, [10]);
    assert t.files == [t.files[0]];
  }

  /** One segment, not latched, its header publishable: nothing stops it. */
  lemma GivesUpOne(s: St, env: Env)
    requires |s.files| == 1 && s.files[0].num == 1 && !s.latched && Squares(env, 1)
    ensures Abandon(s, env).1 == Nil
  {
    var (s1, e) := PublishFull(s, 0, env);
    assert |s1.files| == 1 && e == Nil;
    hide PublishFull;
    assert ForceCommit(Squared(s1, 0), 1, env).1 == Nil && ForceCommit(s, 1, env).1 == Nil;
    assert ForceCommit(s, 0, env).1 == Nil;
  }

  lemma NotThere(s: St, off: int)
    requires |s.files| == 1 && s.files[0].End() <= off
    ensures FileFor(s.files, off) == -1
  {
    assert s.files[1..] == [];
    assert FirstPast(s.files, off) == 1;
  }

  /** The first append cycles: the active segment is reclaimed, the pinned one stays, the create fails. The
      second fits the survivor and is accepted there, at an offset no lookup can find, and the next read gives it up. */
  lemma StrandedRecord(refused: AppendEnv, accepted: AppendEnv, take: Env)
    requires Refuses(refused) && Accepts(accepted) && Squares(take, 1)
    ensures var (s1, e1) := Append(Drained(90, 95), 96, false, refused);
            var (s2, e2) := Append(s1, 10, false, accepted);
            && e1 == Retry && e2 == Nil
            && s2.headOff == 185 < s2.writeOff && FileFor(s2.files, s2.headOff) == -1
            && var (s3, d) := TakeHead(s2, take);
               && d == Reported(Nil) && s3.headOff == s3.writeOff == 195 && s3.lostBytes == 10 && s3.nCommitted == s3.nWritten
  {
    hide Append;
    hide Drained;
    hide Survivor;
    hide Stranding;
    hide Abandon;
    CycleRefusedHere(90, 95, refused);
    SurvivorStands(90, 95);
    var s2 := Strands(Survivor(90, 95), 90, 95, 0, accepted);
    StrandedHere(s2, 90, 95, 1);
    NotThere(s2, 185);
    GivesUpOne(s2, take);
    AbandonDrains(s2, take);
  }

  function Started(s: St): World {
    World(s, {}, 0, 0, s.headOff, s.lostBytes)
  }

  /** Two records accepted into the survivor: it now reaches the read cursor, which is handed the second of them in
      the first one's place. Nothing is found behind it, so the next read gives the log up with that record out. */
  lemma StrandedOverrun(refused: AppendEnv, accepted: AppendEnv, take: Env)
    requires Refuses(refused) && Accepts(accepted) && Squares(take, 1)
    requires take.headOpen == Opened && take.headFrame == Framed(10) && take.sumOK
    ensures var ops := [AppendOne(96, refused), AppendOne(10, accepted), AppendOne(10, accepted), Reserve(take), Reserve(take)];
            var v := Run(Started(Drained(20, 10)), ops);
            (30, 40) in v.out && v.st.commitOff == 50
  {
    hide Drained;
    hide Stranding;
    hide Exec;
    hide Run;
    var x := Reserve(take);
    var w := StrandedTwice(refused, accepted, [x, x]);
    StrandedHere(w.st, 20, 10, 2);
    HandsSecond(w.st, take);
    TracksSecond(w, take);
    OverrunsSecond(Exec(w, x), take);
    RunTwo(w, x, x);
    assert [AppendOne(96, refused), AppendOne(10, accepted), AppendOne(10, accepted), x, x]
        == [AppendOne(96, refused), AppendOne(10, accepted), AppendOne(10, accepted)] + [x, x];
  }

  lemma RunTwo(w: World, x: Op, y: Op)
    ensures Run(w, [x, y]) == Exec(Exec(w, x), y)
  {
    RunNext(w, x, [y]);
    RunNext(Exec(w, x), y, []);
    hide Exec;
    assert [x] + [y] == [x, y] && [y] + [] == [y];
  }

  lemma RunThree(w: World, x: Op, y: Op, z: Op, rest: seq<Op>)
    ensures Run(w, [x, y, z] + rest) == Run(Exec(Exec(Exec(w, x), y), z), rest)
  {
    hide Exec;
    hide Run;
    RunNext(w, x, [y, z] + rest);
    RunNext(Exec(w, x), y, [z] + rest);
    RunNext(Exec(Exec(w, x), y), z, rest);
    assert [x, y, z] + rest == [x] + ([y, z] + rest) && [y, z] + rest == [y] + ([z] + rest);
  }

  lemma TracksSecond(w: World, take: Env)
    requires w.out == {} && TakeHead(w.st, take) == (w.st.(lastFrameAt := 30, lastFrameEnd := 40, headOff := 40), Delivered(30, 40))
    ensures var v := Exec(w, Reserve(take));
            v.out == {(30, 40)} && v.st == w.st.(reserved := v.st.reserved, lastFrameAt := 30, lastFrameEnd := 40, headOff := 40)
  {
    hide TakeHead;
    hide Track;
    TrackedLedger(w.st.(lastFrameAt := 30, lastFrameEnd := 40, headOff := 40), Reservation(30, 40, false, false, 0));
  }

  /** The read cursor at the end of the one segment there is, short of the write cursor. */
  lemma OverrunsSecond(w: World, take: Env)
    requires |w.st.files| == 1 && w.st.files[0].num == 1 && w.st.files[0].End() == 40 && !w.st.latched && Squares(take, 1)
    requires w.st.headOff == 40 && w.st.writeOff == 50 && w.st.commitOff <= 40 && w.st.pendingCorrupt == 0
    ensures var v := Exec(w, Reserve(take));
            v.out == w.out && v.st.commitOff == 50
  {
    NotThere(w.st, 40);
    GivesUpOne(w.st, take);
    AbandonDrains(w.st, take);
    ForcesOne(w.st, take);
    hide Abandon;
  }

  lemma ForcesOne(s: St, env: Env)
    requires |s.files| == 1 && s.files[0].num == 1 && !s.latched && Squares(env, 1) && s.files[0].End() <= s.writeOff
    ensures s.commitOff <= s.writeOff ==> Abandon(s, env).0.commitOff == s.writeOff
  {
    PublishFullFrozen(s, 0, env);
    var (s1, e) := PublishFull(s, 0, env);
    hide PublishFull;
    assert SameSeg(s.files[0], s1.files[0]);
    assert ForceCommit(s1, 1, env).0.commitOff == s1.commitOff;
    assert ForceCommit(s, 1, env).0.commitOff == s.commitOff;
    assert ForceCommit(Squared(s1, 0), 1, env).0.commitOff == Squared(s1, 0).commitOff;
  }

  lemma RunNext(w: World, x: Op, rest: seq<Op>)
    ensures Run(w, [x] + rest) == Run(Exec(w, x), rest)
  {
    hide Exec;
    assert ([x] + rest)[1..] == rest;
  }

  /** After the refused cycle and the two records, whatever comes next. */
  lemma StrandedTwice(refused: AppendEnv, accepted: AppendEnv, rest: seq<Op>) returns (w: World)
    requires Refuses(refused) && Accepts(accepted)
    ensures w == Started(Drained(20, 10)).(st := w.st) && Stranding(w.st, 20, 10, 2)
    ensures var ops := [AppendOne(96, refused), AppendOne(10, accepted), AppendOne(10, accepted)] + rest;
            Run(Started(Drained(20, 10)), ops) == Run(w, rest)
  {
    hide Append;
    hide Drained;
    hide Survivor;
    hide Stranding;
    hide Run;
    var s0 := Started(Drained(20, 10));
    CycleRefusedHere(20, 10, refused);
    SurvivorStands(20, 10);
    var s1 := Strands(Survivor(20, 10), 20, 10, 0, accepted);
    var s2 := Strands(s1, 20, 10, 1, accepted);
    w := s0.(st := s2);
    RunThree(s0, AppendOne(96, refused), AppendOne(10, accepted), AppendOne(10, accepted), rest);
  }

  lemma HandsSecond(s: St, take: Env)
    requires |s.files| == 1 && s.files[0].base == 0 && s.files[0].size == 40 && s.pendingCorrupt == 0
    requires s.headOff == 30 && s.writeOff == 50 && !s.latched
    requires take.headOpen == Opened && take.headFrame == Framed(10) && take.sumOK
    ensures TakeHead(s, take) == (s.(lastFrameAt := 30, lastFrameEnd := 40, headOff := 40), Delivered(30, 40))
  {
    assert FirstPast(s.files, 30) == 0 && FileFor(s.files, 30) == 0;
    assert s.(latched := s.latched || take.headOpen == OpenedLatched) == s;
  }

  /** The record found there is committed, and the header write refused: the survivor's header still stands where the
      strand left it, and the commit cursor falls back to that. */
  lemma StrandedRetreat(refused: AppendEnv, accepted: AppendEnv, take: Env, commit: Env)
    requires Refuses(refused) && Accepts(accepted)
    requires take.headOpen == Opened && take.headFrame == Framed(10) && take.sumOK
    requires commit.open(30) == Opened && commit.persist(1) == WriteFailed
    ensures var ops := [AppendOne(96, refused), AppendOne(10, accepted), AppendOne(10, accepted),
                        TakeUncommitted(take), Commit(40, commit)];
            Started(Drained(20, 10)).st.commitOff == 30 && Run(Started(Drained(20, 10)), ops).st.commitOff == 20
  {
    hide Stranding;
    hide Exec;
    hide Run;
    var x, y := TakeUncommitted(take), Commit(40, commit);
    var w := StrandedTwice(refused, accepted, [x, y]);
    hide Drained;
    StrandedHere(w.st, 20, 10, 2);
    HandsSecond(w.st, take);
    TakesSecond(w, take);
    Retreats(Exec(w, x), commit);
    RunTwo(w, x, y);
    assert [AppendOne(96, refused), AppendOne(10, accepted), AppendOne(10, accepted), x, y]
        == [AppendOne(96, refused), AppendOne(10, accepted), AppendOne(10, accepted)] + [x, y];
  }

  lemma TakesSecond(w: World, take: Env)
    requires TakeHead(w.st, take) == (w.st.(lastFrameAt := 30, lastFrameEnd := 40, headOff := 40), Delivered(30, 40))
    ensures Exec(w, TakeUncommitted(take)).st == w.st.(lastFrameAt := 30, lastFrameEnd := 40, headOff := 40)
  {
    hide TakeHead;
  }

  lemma Retreats(w: World, env: Env)
    requires var s := w.st;
             && |s.files| == 1 && s.files[0].num == 1 && s.files[0].base == 0 && s.files[0].size == 40
             && s.files[0].hdr.commitCur == HEADER_SIZE + 20 && s.commitOff == 30 && s.headOff == 40 && s.writeOff == 50
             && s.lastFrameAt == 30 && s.lastFrameEnd == 40 && s.reserved == [] && !s.latched && s.policy == PerOp
    requires env.open(30) == Opened && env.persist(1) == WriteFailed
    ensures Exec(w, Commit(40, env)).st.commitOff == 20
  {
    var s := w.st;
    assert FirstPast(s.files, 30) == 0 && FileFor(s.files, 30) == 0 && FirstUnretired([], 30) == 0;
    assert EntryHere(s) == NoEntry;
    assert s.(latched := s.latched || env.open(30) == OpenedLatched) == s;
    assert FrameEnd(s, s.files[0], env) == End(40);
    var s1 := Crossed(s, 0, 40, 1);
    assert WalkStep(s, 40, true, -1, env) == Go(s1, 0);
    WalkTwice(s, s1, 40, env);
    RollsBack(s1, env);
    hide Walk;
    hide CommitEnd;
  }

  lemma WalkTwice(s: St, s1: St, n: int, env: Env)
    requires s.commitOff < n && s1.commitOff == n && |s1.files| == 1 && WalkStep(s, n, true, -1, env) == Go(s1, 0)
    ensures Walk(s, n, true, -1, env) == Halt(s1, 0, Nil)
  {
    hide WalkStep;
    assert Walk(s1, n, true, 0, env) == Halt(s1, 0, Nil);
  }

  lemma RollsBack(s1: St, env: Env)
    requires |s1.files| == 1 && s1.files[0].num == 1 && s1.files[0].base == 0 && !s1.latched
    requires s1.files[0].hdr.commitCur == HEADER_SIZE + 20 && env.persist(1) == WriteFailed
    ensures CommitEnd(30, Halt(s1, 0, Nil), true, true, env).0.commitOff == 20
  {
    hide DropCommitted;
    hide Stamp;
    var (s2, e) := Persist(s1, 0, true, env);
    assert e == Retry && s2.commitOff == 20;
    hide Persist;
    var t := Ticked(s2, true, env).0;
    var u := t.(headOff := Max(t.headOff, t.commitOff));
    DropLeaves(u, |u.files| - 1, env);
  }

  lemma AppendsNew(s: St, len: nat, a: AppendEnv)
    requires Accepts(a) && !s.latched && Admit(s, len, false, true) == Nil && NeedsCycle(s, len) && s.maxSegments == 0
    ensures Append(s, len, false, a) == (Published(StartSegment(DropCommitted(s, -1, a.drop), len, Created).0, [len]), Nil)
  {
    hide Reclaim;
    OneLen(len);
    var d := DropCommitted(s, -1, a.drop);
    assert !d.latched && d.maxSegments == 0;
    hide DropCommitted;
    var t := StartSegment(d, len, Created).0;
    assert t.(latched := false) == t;
    PublishOutcome(t, [len], a.header);
    PublishesNil(t, [len]);
    hide PublishSpan;
    hide Published;
  }

  /** Segments behind the survivor that were started at the write cursor, full and unread. */
  ghost predicate Followed(s: St, n: nat) {
    && |s.files| == n + 1 && s.commitOff == s.headOff == 30 && s.writeOff == 40 + 96 * n
    && !s.latched && s.pendingCorrupt == 0 && s.corruptions == 0 && s.lostBytes == 0
    && s.maxSegments == 0 && s.maxBytes == 0 && s.segmentSize == 100 && s.nextNum == 3 + n
    && s.files[0].num == 1 && s.files[0].End() == 30 && s.files[0].pins == 1 && s.files[0].committed < s.files[0].written
    && (forall i | 0 < i <= n ::
          s.files[i].num == 2 + i && s.files[i].base == 96 * i - 56 && s.files[i].size == 96
          && s.files[i].committed < s.files[i].written)
    && s.files[n].size + 96 > s.files[n].capacity && !s.files[n].gone
  }

  lemma StrandedFollowed(s: St)
    requires Stranding(s, 20, 10, 1)
    ensures Followed(s, 0)
  {
  }

  lemma KeepsPinned(s: St, n: nat, env: Env)
    requires Followed(s, n) && n <= 1
    ensures DropCommitted(s, -1, env) == s.(lastFrameAt := 0, lastFrameEnd := 0)
  {
    var f := s.files[0];
    assert n == 0 ==> s.files[1..] == [];
    assert n > 0 ==> s.files[1..][0].End() > 30;
    assert Reclaim(s.files[1..], 30, -2, env) == Reclaimed(s.files[1..], 0, 0, 0, 0);
    assert s.files == [f] + s.files[1..];
  }

  lemma FillsAnother(s: St, n: nat, a: AppendEnv) returns (t: St)
    requires Followed(s, n) && n <= 1 && Accepts(a)
    ensures Append(s, 96, false, a) == (t, Nil) && Followed(t, n + 1)
  {
    AppendsNew(s, 96, a);
    KeepsPinned(s, n, a.drop);
    hide Append;
    hide DropCommitted;
    OneLen(96);
    var d := s.(lastFrameAt := 0, lastFrameEnd := 0);
    var u := StartSegment(d, 96, Created).0;
    assert u.files == s.files + [NewSeg(d, 96)];
    t := Published(u, [96]);
    assert forall i | 0 <= i <= n :: t.files[i] == s.files[i];
  }

  /** The survivor accepts a record at an offset no lookup finds, two segments follow, and the read that gives the log
      up is refused at the last of them: the read cursor has been dragged there, with a report and no loss booked. */
  lemma StrandedUnbooked(refused: AppendEnv, accepted: AppendEnv, take: Env)
    requires Refuses(refused) && Accepts(accepted) && Squares(take, 1) && Squares(take, 3)
    requires take.fullOpen(4) == Opened && take.fullWrite(4) == WriteFailed
    ensures var ops := [AppendOne(96, refused), AppendOne(10, accepted), AppendOne(96, accepted), AppendOne(96, accepted),
                        Reserve(take)];
            var v := Run(Started(Drained(20, 10)), ops);
            && v.answers == 1 && v.st.corruptions == 0 && v.st.pendingCorrupt == 0
            && v.headMark == 30 && v.st.headOff == 136 && v.delivered == 0 && v.st.lostBytes == 0
  {
    hide Append;
    hide Drained;
    hide Survivor;
    hide Stranding;
    hide Followed;
    hide Run;
    var s0 := Started(Drained(20, 10));
    CycleRefusedHere(20, 10, refused);
    SurvivorStands(20, 10);
    DrainedCursor(20, 10);
    var s1 := Strands(Survivor(20, 10), 20, 10, 0, accepted);
    StrandedFollowed(s1);
    var s2 := FillsAnother(s1, 0, accepted);
    var s3 := FillsAnother(s2, 1, accepted);
    var w := s0.(st := s3);
    var x, y, z := AppendOne(96, refused), AppendOne(10, accepted), AppendOne(96, accepted);
    RefusedHalfWay(w, take);
    RunThree(s0, x, y, z, [z, Reserve(take)]);
    RunTwo(s0.(st := s2), z, Reserve(take));
    assert [x, y, z, z, Reserve(take)] == [x, y, z] + [z, Reserve(take)];
  }

  lemma DrainedCursor(a: nat, b: nat)
    ensures Started(Drained(a, b)) == World(Drained(a, b), {}, 0, 0, a + b, 0)
  {
  }

  lemma SquaresOne(s: St, i: nat, env: Env)
    requires i < |s.files| && !s.latched && Squares(env, s.files[i].num) && s.files[i].committed < s.files[i].written
    ensures |PublishFull(s, i, env).0.files| == |s.files|
    ensures var t := Squared(PublishFull(s, i, env).0, i);
            && ForceCommit(s, i, env) == ForceCommit(t, i + 1, env)
            && |t.files| == |s.files| && !t.latched && t.files[i + 1..] == s.files[i + 1..]
            && t.commitOff == Max(s.commitOff, s.files[i].End()) && t.headOff == Max(s.headOff, t.commitOff)
            && t.corruptions == s.corruptions && t.lostBytes == s.lostBytes && t.pendingCorrupt == s.pendingCorrupt
  {
    PublishFullFrozen(s, i, env);
    PublishFullSays(s, i, env);
    PublishesFull(s, i, env);
    hide PublishFull;
    var s1 := PublishFull(s, i, env).0;
    assert SameSeg(s.files[i], s1.files[i]);
  }

  lemma PublishesFull(s: St, i: nat, env: Env)
    requires i < |s.files| && !s.latched && Squares(env, s.files[i].num)
    ensures PublishFull(s, i, env).1 == Nil && !PublishFull(s, i, env).0.latched
  {
  }

  lemma StopsForce(s: St, i: nat, env: Env)
    requires i < |s.files| && !s.latched && s.files[i].committed < s.files[i].written
    requires env.fullOpen(s.files[i].num) == Opened && env.fullWrite(s.files[i].num) == WriteFailed
    ensures var (t, e) := ForceCommit(s, i, env);
            && e == Retry && t.headOff == s.headOff
            && t.corruptions == s.corruptions && t.lostBytes == s.lostBytes && t.pendingCorrupt == s.pendingCorrupt
  {
    PublishFullFrozen(s, i, env);
  }

  lemma RefusedHalfWay(w: World, take: Env)
    requires Followed(w.st, 2) && Squares(take, 1) && Squares(take, 3)
    requires take.fullOpen(4) == Opened && take.fullWrite(4) == WriteFailed
    ensures var v := Exec(w, Reserve(take));
            && v == w.(st := v.st, answers := w.answers + 1) && v.st.corruptions == 0 && v.st.pendingCorrupt == 0
            && v.st.headOff == 136 && v.st.lostBytes == 0
  {
    var s := w.st;
    hide PublishFull;
    hide Squared;
    SquaresOne(s, 0, take);
    var s1 := Squared(PublishFull(s, 0, take).0, 0);
    assert s1.files[1] == s1.files[1..][0] == s.files[1] && s1.files[2] == s1.files[1..][1] == s.files[2];
    SquaresOne(s1, 1, take);
    var s2 := Squared(PublishFull(s1, 1, take).0, 1);
    assert s2.files[2] == s2.files[2..][0] == s1.files[2..][0];
    StopsForce(s2, 2, take);
    hide ForceCommit;
    assert s.files[1..][0] == s.files[1];
    assert FirstPast(s.files, 30) == 1 && FileFor(s.files, 30) == -1;
  }

  // ----- a damaged length that still fits

  /** What a crossing asks of the layout. The count stays right exactly when it takes in the end of the record
      at the cursor and of no later one; the cursor stays at a record's start exactly when it stops there. */
  lemma CrossingCounts(f: Seg, at: int, next: int)
    requires SegCounted(f, at) && f.base <= at < next <= f.End()
    ensures var k, p := f.committed, next - f.base;
            && (f.committed + 1 == RankIn(f, next) <==>
                  k < |f.ends| && f.ends[k] <= p && (k + 1 < |f.ends| ==> p < f.ends[k + 1]))
            && (SegCounted(f.(committed := f.committed + 1), next) <==> k < |f.ends| && p == f.ends[k])
  {
    hide Rank;
    hide Imaged;
    hide Tells;
    RankOneMore(f.ends, at - f.base, next - f.base);
    StopsAtMark(f, at, next);
    ImagedMore(f, f.(committed := f.committed + 1), f.hdr);
    hide Ascending;
  }

  lemma StopsAtMark(f: Seg, at: int, next: int)
    requires SegCounted(f, at) && f.base <= at < next <= f.End()
    ensures var k, p := f.committed, next - f.base;
            Mark(f, p) && RankIn(f, next) == k + 1 <==> k < |f.ends| && p == f.ends[k]
  {
    var k, p := f.committed, next - f.base;
    RankSplits(f.ends, at - f.base);
    if Mark(f, p) {
      MarkRanks(f, p);
    }
    if k < |f.ends| && p == f.ends[k] {
      RankIs(f.ends, p, k + 1);
    }
  }

  lemma RankOneMore(ends: seq<int>, p: int, q: int)
    requires Ascending(ends) && p < q
    ensures var k := Rank(ends, p);
            Rank(ends, q) == k + 1 <==> k < |ends| && ends[k] <= q && (k + 1 < |ends| ==> q < ends[k + 1])
  {
    var k := Rank(ends, p);
    RankSplits(ends, p);
    RankSplits(ends, q);
    if k < |ends| && ends[k] <= q && (k + 1 < |ends| ==> q < ends[k + 1]) {
      RankIs(ends, q, k + 1);
    }
  }

  lemma MarkRanks(f: Seg, p: int)
    requires Ascending(f.ends) && Mark(f, p) && p > 0
    ensures 0 < Rank(f.ends, p) <= |f.ends| && f.ends[Rank(f.ends, p) - 1] == p
  {
    var j :| 0 <= j < |f.ends| && f.ends[j] == p;
    RankIs(f.ends, p, j + 1);
  }

  function TwoRecords(): St {
    var h := Hdr(HEADER_SIZE, HEADER_SIZE + 20, 2, 0);
    var f := Seg(1, 0, 20, 100, 2, 0, h, [h], false, 0, [10, 20], []);
    St([f], 0, 20, 20, [], 2, 0, 0, false, false, 0, 0, 0, 0, 0, 0, 0, 164, 0, 2, 100, 0, PerOp, 0)
  }

  lemma TwoRecordsSound()
    ensures Inv(TwoRecords()) && Counted(TwoRecords())
  {
    TwoRecordsCounted();
    hide Counted;
    var s := TwoRecords();
    var f := s.files[0];
    SumsAppend([], f);
    assert [] + [f] == s.files;
    assert Resident(f, 0) && OnDisk(f);
    hide SumWritten;
    hide SumCommitted;
    hide SumBytes;
  }

  lemma TwoRecordsCounted()
    ensures Counted(TwoRecords())
  {
    var f := TwoRecords().files[0];
    RankOfNone(f.ends, 0);
    assert f.ends[1] == 20;
    assert Tells(f.ends, f.hdr);
    OneImage(f, f.hdr);
    assert SegCounted(f, 0);
  }

  /** Two records, the first one's length damaged so that it frames both: everything is retired and one record
      stays counted as backlog. */
  lemma ReframingLosesCount(env: Env)
    requires env.frame(0) == Framed(20) && env.open(0) == Opened && env.persist(1) == Wrote && env.flush(1)
    ensures var (t, e) := CommitDurable(TwoRecords(), 20, true, env);
            e == Nil && t.commitOff == t.writeOff == 20 && t.nWritten - t.nCommitted == 1
  {
    Reframed(20, env);
  }

  /** Damaged so that it ends inside the second record: the count is right and the cursor stands at no record. */
  lemma ReframingLosesPlace(env: Env)
    requires env.frame(0) == Framed(15) && env.open(0) == Opened && env.persist(1) == Wrote && env.flush(1)
    ensures var (t, e) := CommitDurable(TwoRecords(), 15, true, env);
            && e == Nil && t.commitOff == 15 && t.nWritten - t.nCommitted == Backlog(t.files, t.commitOff) == 1
            && !Between(t.files, t.commitOff)
  {
    Reframed(15, env);
    var t := CommitDurable(TwoRecords(), 15, true, env).0;
    hide CommitDurable;
    var f := t.files[0];
    RankIs(f.ends, 15, 1);
    assert t.files[1..] == [];
    assert !Mark(t.files[0], t.files[0].Pos(15));
  }

  lemma Reframed(n: int, env: Env)
    requires n in {15, 20}
    requires env.frame(0) == Framed(n) && env.open(0) == Opened && env.persist(1) == Wrote && env.flush(1)
    ensures var (t, e) := CommitDurable(TwoRecords(), n, true, env);
            && e == Nil && t.commitOff == n && t.writeOff == 20 && t.nWritten - t.nCommitted == 1
            && |t.files| == 1 && t.files[0].ends == [10, 20] && t.files[0].base == 0 && t.files[0].size == 20
  {
    var s := TwoRecords();
    var f := s.files[0];
    assert FirstPast(s.files, 0) == 0 && FileFor(s.files, 0) == 0;
    assert FirstUnretired(s.reserved, 0) == 0;
    assert EntryHere(s) == NoEntry;
    assert s.(latched := s.latched || env.open(0) == OpenedLatched) == s;
    assert FrameEnd(s, f, env) == End(n);
    var s1 := Crossed(s, 0, n, 1);
    assert WalkStep(s, n, true, -1, env) == Go(s1, 0);
    WalkTwice(s, s1, n, env);
    RetiresFirst(s1, n, env);
  }

  lemma RetiresFirst(s1: St, n: int, env: Env)
    requires n in {15, 20} && s1 == Crossed(TwoRecords(), 0, n, 1) && env.persist(1) == Wrote && env.flush(1)
    ensures var (t, e) := CommitEnd(0, Halt(s1, 0, Nil), true, true, env);
            && e == Nil && t.commitOff == n && t.writeOff == 20 && t.nWritten - t.nCommitted == 1
            && |t.files| == 1 && t.files[0].ends == [10, 20] && t.files[0].base == 0 && t.files[0].size == 20
  {
    hide Persist;
    hide Crossed;
    hide DropCommitted;
    var s2 := PersistsFirst(s1, n, env);
    KeepsOnly(s2.(headOff := Max(s2.headOff, s2.commitOff)), env);
  }

  ghost predicate OneLeft(t: St, n: int) {
    && t.commitOff == n && t.writeOff == 20 && t.nWritten - t.nCommitted == 1 && t.policy == PerOp && !t.latched
    && |t.files| == 1 && t.files[0].ends == [10, 20] && t.files[0].base == 0 && t.files[0].size == 20
  }

  lemma PersistsFirst(s1: St, n: int, env: Env) returns (s2: St)
    requires n in {15, 20} && s1 == Crossed(TwoRecords(), 0, n, 1) && env.persist(1) == Wrote && env.flush(1)
    ensures (s2, Nil) == Persist(s1, 0, true, env) && |s1.files| == 1 && OneLeft(s2, n)
  {
    PersistWrites(s1, 0, env);
    s2 := Persist(s1, 0, true, env).0;
    hide Persist;
    hide Stamp;
  }

  lemma PersistWrites(s: St, i: nat, env: Env)
    requires i < |s.files| && !s.latched && env.persist(s.files[i].num) == Wrote && env.flush(s.files[i].num)
    ensures var f := s.files[i];
            var g := f.(hdr := Stamp(s, i));
            Persist(s, i, true, env) == (Put(s, i, g.(images := f.images + [Stamp(s, i)])), Nil)
  {
    hide Stamp;
    var g := s.files[i].(hdr := Stamp(s, i));
    assert s.files[i := g][i := g.(images := g.images + [g.hdr])] == s.files[i := g.(images := g.images + [g.hdr])];
  }

  lemma KeepsOnly(s: St, env: Env)
    ensures DropCommitted(s, 0, env) == s
  {
  }

  // ----- an error for a record that is in the log

  /** Every step succeeds but the batched flush the record's turn has come for: a file it has to reopen will not open. */
  ghost predicate CannotFlush(a: AppendEnv) {
    && a.addressable && a.opens == Opened && a.wrote && a.header == Wrote && a.tick == TickRetry
  }

  function Batching(): St {
    TwoRecords().(policy := Batched)
  }

  /** Under SyncEvery an append answers an ordinary error, latching nothing, with its record in the log. */
  lemma ErrorKeepsRecord(a: AppendEnv)
    requires CannotFlush(a)
    ensures var (t, e) := Append(Batching(), 10, false, a);
            e == Retry && !t.latched && t.writeOff == 30 && InLog(Batching(), t, 10)
  {
    hide Append;
    hide InLog;
    AppendAnswers(Batching(), 10, false, a);
    FlushAnswers(Batching(), 10, false, a);
    GrewBy(Batching(), Append(Batching(), 10, false, a).0, 10);
  }

  /** A rotation answered that way leaves its record at the head and at the tail both. */
  lemma RequeueLeavesBoth(take: Env, a: AppendEnv, retire: Env)
    requires CannotFlush(a) && take.headOpen == Opened && take.headFrame == Framed(10) && take.sumOK
    ensures var s := Batching().(headOff := 0);
            var (v, d, e, _) := Requeue(s, take, a, retire);
            d == Delivered(0, 10) && e == Retry && v.headOff == v.commitOff == 0 && v.writeOff == 30
  {
    hide Append;
    hide RetireFrame;
    var s := Batching().(headOff := 0);
    assert FirstPast(s.files, 0) == 0 && FileFor(s.files, 0) == 0;
    var (t, d) := TakeHead(s, take);
    assert d == Delivered(0, 10) && t == s.(latched := t.latched, lastFrameAt := 0, lastFrameEnd := 10, headOff := 10);
    AppendAnswers(t, 10, true, a);
    FlushAnswers(t, 10, true, a);
    GrewBy(t, Append(t, 10, true, a).0, 10);
    AppendLeaves(t, 10, true, a);
  }

  lemma AppendLeaves(s: St, len: nat, force: bool, a: AppendEnv)
    requires Steady(s)
    ensures var t := Append(s, len, force, a).0; t.commitOff == s.commitOff && t.headOff == s.headOff
  {
    hide Append;
    AppendSteady(s, len, force, a);
  }
}
