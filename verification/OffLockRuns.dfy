/** What Sync and the exposure gauge deliver over every interleaving. */
module OffLockRuns {
  import opened OffLockSync

  // ----- runs

  ghost predicate Legal(s: Store, es: seq<Event>)
    decreases |es|
  {
    es != [] ==> Enabled(s, es[0]) && Legal(Step(s, es[0]), es[1..])
  }

  ghost function Run(s: Store, es: seq<Event>): Store
    requires Legal(s, es)
    decreases |es|
  {
    if es == [] then s else Run(Step(s, es[0]), es[1..])
  }

  function Init(perOp: bool): Store {
    Store([], 0, 0, false, NoFlush, perOp, NoLeader)
  }

  lemma {:induction false} RunKeeps(s: Store, es: seq<Event>)
    requires Inv(s) && Legal(s, es)
    ensures Inv(Run(s, es))
    decreases |es|
  {
    hide Inv;
    hide Step;
    if es != [] {
      StepKeeps(s, es[0]);
      RunKeeps(Step(s, es[0]), es[1..]);
    }
  }

  /** A clean file has nothing left to lose, unless an fsync of it has already failed. */
  lemma CleanIsDurable(perOp: bool, es: seq<Event>, n: nat)
    requires Legal(Init(perOp), es) && n < |Run(Init(perOp), es).files|
    ensures var f := Run(Init(perOp), es).files[n];
            f.live && !f.dirty && !f.failed ==> f.durable == |f.w| && Undurable(f) == 0
  {
    RunKeeps(Init(perOp), es);
    InvFile(Run(Init(perOp), es), n);
    var f := Run(Init(perOp), es).files[n];
    assert f.w[|f.w|..] == [];
  }

  ghost predicate CleanMeansDurable(s: Store) {
    forall n | 0 <= n < |s.files| :: s.files[n].live && !s.files[n].dirty ==> s.files[n].durable == |s.files[n].w|
  }

  /** The file has failed an fsync and there is still something for it to lose. */
  predicate Wounded(f: File) {
    f.live && f.failed && f.durable < |f.w|
  }

  /** A flush that succeeds because an earlier one took the error, in the lock or at the end of a chunk. */
  ghost predicate CleansOverFailure(s: Store, e: Event) {
    || (e.FlushFile? && e.ok && !s.latched && e.n < |s.files| && s.files[e.n].dirty && Wounded(s.files[e.n]))
    || (e.ChunkEnd? && exists n | 0 <= n < |s.files| :: Answered(s, n) && Wounded(s.files[n]))
  }

  /** The chunk's fsync of n came back clean and nothing was written to it meanwhile. */
  predicate Answered(s: Store, n: nat)
    requires n < |s.files|
  {
    InTargets(s, n) && n in s.flush.results && s.flush.results[n] && s.flush.targets[n] == |s.files[n].w|
  }

  lemma ChunkCleans(s: Store)
    requires Inv(s) && CleanMeansDurable(s) && Enabled(s, ChunkEnd)
    ensures CleanMeansDurable(Step(s, ChunkEnd)) <==> !CleansOverFailure(s, ChunkEnd)
  {
    var u := Step(s, ChunkEnd);
    forall n | 0 <= n < |s.files|
      ensures u.files[n].live && !u.files[n].dirty && u.files[n].durable != |u.files[n].w| <==> Answered(s, n) && Wounded(s.files[n])
    {
      InvFile(s, n);
    }
  }

  /** Clean stops meaning durable at exactly one kind of step. */
  lemma CleanLiesExactlyWhen(s: Store, e: Event)
    requires Inv(s) && CleanMeansDurable(s) && Enabled(s, e)
    ensures CleanMeansDurable(Step(s, e)) <==> !CleansOverFailure(s, e)
  {
    if e.ChunkEnd? {
      ChunkCleans(s);
    } else {
      var u := Step(s, e);
      if e.FlushFile? || e.Fsync? {
        InvFile(s, e.n);
      }
      hide Inv;
      if e.FlushFile? {
        assert CleansOverFailure(s, e) ==> !u.files[e.n].dirty && u.files[e.n].durable != |u.files[e.n].w|;
      }
    }
  }

  /** Every fsync in flight is on an open handle of a live segment, whatever is evicted or reclaimed meanwhile. */
  lemma PinnedStaysOpen(perOp: bool, es: seq<Event>, n: nat)
    requires Legal(Init(perOp), es) && InTargets(Run(Init(perOp), es), n)
    ensures var s := Run(Init(perOp), es); n < |s.files| && s.files[n].live && s.files[n].isOpen && s.files[n].pins == 1
  {
    RunKeeps(Init(perOp), es);
    InvFile(Run(Init(perOp), es), n);
  }

  lemma {:induction false} SnapStays(s: Store, es: seq<Event>)
    requires s.flush.Running? && Legal(s, es) && forall e <- es :: !e.SyncEnd?
    ensures Run(s, es).flush.Running? && Run(s, es).flush.snap == s.flush.snap
    decreases |es|
  {
    if es != [] {
      assert !es[0].SyncEnd? && forall e <- es[1..] :: e in es;
      SnapStays(Step(s, es[0]), es[1..]);
    }
  }

  /** Sync returns nil: every write made before it was called is durable, in every segment still live, whatever
      producers, leaders, evictions, reclamations and SyncEvery flushes ran beside it, unless a leader has been told
      of the file's error and has not latched it; under a deferred policy there is no leader. */
  lemma SyncIsHonest(perOp: bool, before: seq<Event>, during: seq<Event>, dirOk: bool, n: nat)
    requires Legal(Init(perOp), before)
    requires var s := Run(Init(perOp), before); Enabled(s, SyncBegin) && Legal(Begin(s), during)
    requires forall e <- during :: !e.SyncEnd?
    requires var t := Run(Begin(Run(Init(perOp), before)), during);
             Drained(t.flush) && AnswersNil(t, dirOk) && n < |Run(Init(perOp), before).files| && n < |t.files| && t.files[n].live
    ensures var t := Run(Begin(Run(Init(perOp), before)), during);
            && t.files[n].durable <= |t.files[n].w|
            && (|Run(Init(perOp), before).files[n].w| <= t.files[n].durable || (perOp && LeaderFailing(t, n)))
  {
    RunKeeps(Init(perOp), before);
    var s := Run(Init(perOp), before);
    hide Inv;
    BeginKeeps(s);
    RunKeeps(Begin(s), during);
    SnapStays(Begin(s), during);
    PolicyStays(Init(perOp), before);
    PolicyStays(Begin(s), during);
    var t := Run(Begin(s), during);
    SyncCovers(t, dirOk, n);
  }

  lemma {:induction false} PolicyStays(s: Store, es: seq<Event>)
    requires Legal(s, es)
    ensures Run(s, es).perOp == s.perOp
    decreases |es|
  {
    if es != [] {
      PolicyStays(Step(s, es[0]), es[1..]);
    }
  }

  lemma SyncCovers(s: Store, dirOk: bool, n: nat)
    requires Inv(s) && Drained(s.flush) && AnswersNil(s, dirOk) && n < |s.files| && s.files[n].live
    ensures s.files[n].durable <= |s.files[n].w|
    ensures s.files[n].durable >= SnapOf(s.flush.snap, n) || (s.perOp && LeaderFailing(s, n))
  {
    NilMeansDurable(s, dirOk);
    if HiddenByLeader(s) {
      var m: nat :| m < |s.files| && LeaderFailing(s, m) && s.files[m].live && s.files[m].durable < SnapOf(s.flush.snap, m);
      if m != n {
        InvFile(s, n);
      }
    }
  }

  /** A Sync answers nil with something written before it not down. */
  ghost predicate AnswersWrongly(s: Store, e: Event) {
    e.SyncEnd? && Enabled(s, e) && AnswersNil(s, e.dirOk) && !SnapDown(s)
  }

  /** A Sync's nil is wrong at exactly one kind of step: while a leader holds an error over the snapshot's writes that
      it has not latched. */
  lemma SyncLiesExactlyWhen(s: Store, e: Event)
    requires Inv(s) && Enabled(s, e)
    ensures AnswersWrongly(s, e) <==> e.SyncEnd? && AnswersNil(s, e.dirOk) && HiddenByLeader(s)
  {
    if e.SyncEnd? && AnswersNil(s, e.dirOk) {
      NilMeansDurable(s, e.dirOk);
    }
  }

  // ----- the exposure gauge

  ghost predicate Honest(s: Store) {
    s.unsyncedBytes >= Exposed(s.files)
  }

  /** A batched flush is booked while a Sync's fsync has answered with an error and has not taken the lock back,
      over a file that still has unsynced record bytes. */
  ghost predicate BooksOverFailure(s: Store, e: Event) {
    e == BatchDone(true) && exists n | 0 <= n < |s.files| :: Failing(s, n) && Undurable(s.files[n]) > 0
  }

  lemma {:induction false} ExposedByOne(fs: seq<File>)
    ensures Exposed(fs) == 0 <==> forall i | 0 <= i < |fs| :: Undurable(fs[i]) == 0
    decreases |fs|
  {
    if fs != [] {
      ExposedByOne(fs[1..]);
      if Exposed(fs) == 0 {
        forall i | 0 <= i < |fs| ensures Undurable(fs[i]) == 0 {
          assert i > 0 ==> fs[i] == fs[1..][i - 1];
        }
      } else if Undurable(fs[0]) == 0 {
        var j :| 0 <= j < |fs| - 1 && Undurable(fs[1..][j]) != 0;
        assert fs[j + 1] == fs[1..][j];
      }
    }
  }

  lemma {:induction false} NoFailures(fs: seq<File>)
    requires forall i | 0 <= i < |fs| :: !fs[i].failed
    ensures AllAtRisk(fs) == Exposed(fs)
    decreases |fs|
  {
    if fs != [] {
      assert !fs[0].failed;
      forall i | 0 <= i < |fs| - 1 ensures !fs[1..][i].failed {
        assert !fs[i + 1].failed;
      }
      NoFailures(fs[1..]);
    }
  }

  /** Short of a failed fsync the gauge never under-reports: all that is undurable is in it. */
  lemma GaugeCoversExposure(perOp: bool, es: seq<Event>)
    requires Legal(Init(perOp), es) && forall i | 0 <= i < |Run(Init(perOp), es).files| :: !Run(Init(perOp), es).files[i].failed
    ensures Honest(Run(Init(perOp), es))
  {
    RunKeeps(Init(perOp), es);
    NoFailures(Run(Init(perOp), es).files);
  }

  lemma WriteExposes(s: Store, n: nat, more: seq<nat>)
    requires Inv(s) && n < |s.files| && s.files[n].live
    ensures Exposed(s.files[n := s.files[n].(w := s.files[n].w + more, dirty := true)]) == Exposed(s.files) + Sum(more)
  {
    InvFile(s, n);
    hide Inv;
    RiskPut(s.files, n, s.files[n].(w := s.files[n].w + more, dirty := true));
    GrownSum(s.files[n].w, more, s.files[n].durable);
  }

  /** A file whose writes stand and whose durable part has not shrunk exposes no more than it did. */
  lemma OneExposesLess(fs: seq<File>, n: nat, g: File)
    requires n < |fs| && fs[n].durable <= |fs[n].w| && g.w == fs[n].w && (g.live ==> fs[n].live)
    requires fs[n].durable <= g.durable <= |g.w|
    ensures Exposed(fs[n := g]) <= Exposed(fs)
  {
    RiskPut(fs, n, g);
    SuffixSum(g.w, fs[n].durable, g.durable);
  }

  lemma OneExposureOf(s: Store, e: Event)
    requires Inv(s) && Enabled(s, e) && (e.FlushFile? || e.OpenFile? || e.Evict? || e.Reclaim? || e.Fsync?)
    ensures Step(s, e).unsyncedBytes == s.unsyncedBytes && Exposed(Step(s, e).files) <= Exposed(s.files)
  {
    InvFile(s, e.n);
    hide Inv;
    var u := Step(s, e);
    if u.files != s.files {
      assert u.files == s.files[e.n := u.files[e.n]];
      OneExposesLess(s.files, e.n, u.files[e.n]);
    }
  }

  lemma LeaderIsPerOp(s: Store)
    requires Inv(s) && s.leader.Leading?
    ensures s.perOp
  {
  }

  lemma ExposureOf(s: Store, e: Event)
    requires Inv(s) && Enabled(s, e) && !e.SyncEnd? && !e.BatchDone?
    ensures Step(s, e).unsyncedBytes - s.unsyncedBytes >= Exposed(Step(s, e).files) - Exposed(s.files)
  {
    hide Exposed;
    hide Undurable;
    hide Inv;
    var u := Step(s, e);
    match e {
      case NewFile(synced) =>
        NewFileSums(s.files, synced, []);
      case Append(n, bytes) =>
        assert s.files[n].w + [bytes] + [0] == s.files[n].w + [bytes, 0];
        WriteExposes(s, n, [bytes, 0]);
        assert [bytes, 0][1..] == [0] && [0][1..] == [];
      case HeaderWrite(n) =>
        WriteExposes(s, n, [0]);
        assert [0][1..] == [];
      case SyncBegin =>
      case ChunkBegin(_, _) => SameSums(s.files, u.files, [], 0);
      case ChunkEnd => SameSums(s.files, u.files, [], 0);
      case LeaderBegin(_) =>
      case LeaderAnswer(ok) =>
        LeaderIsPerOp(s);
        NothingGauged(s);
        StepKeeps(s, e);
        NothingGauged(u);
      case LeaderBack =>
      case _ => OneExposureOf(s, e);
    }
  }

  /** Exactly one step can make an honest gauge lie. */
  lemma GaugeLiesExactlyWhen(s: Store, e: Event)
    requires Inv(s) && Honest(s) && Enabled(s, e)
    ensures Honest(Step(s, e)) <==> !BooksOverFailure(s, e)
  {
    if e.SyncEnd? {
      if s.perOp {
        NothingGauged(s);
      } else if AnswersNil(s, e.dirOk) && s.epoch == s.flush.snapEpoch {
        NilMeansDurable(s, e.dirOk);
        forall i | 0 <= i < |s.files|
          ensures s.files[i].durable <= |s.files[i].w| && (s.files[i].live ==> s.files[i].durable >= SnapOf(s.flush.snap, 0 + i))
        {
        }
        ExposedIsSince(s.files, s.flush.snap, 0);
      }
    } else if !e.BatchDone? {
      ExposureOf(s, e);
    } else {
      BatchExposes(s);
    }
  }

  lemma BatchExposes(s: Store)
    requires Inv(s) && Enabled(s, BatchDone(true))
    ensures Exposed(s.files) == 0 <==> !BooksOverFailure(s, BatchDone(true))
  {
    ExposedByOne(s.files);
    forall n | 0 <= n < |s.files| ensures Undurable(s.files[n]) > 0 ==> Failing(s, n) {
      assert FileOk(s, n) && s.files[n] in s.files;
      assert s.files[n].w[|s.files[n].w|..] == [];
    }
    hide Inv;
    hide Failing;
  }

  /** It does happen: a Sync's fsync fails off the lock, a SyncEvery flush of the same file then succeeds and
      books everything durable, and only afterwards does the Sync latch the failure. */
  lemma GaugeLies()
    ensures var es := [NewFile(true), Append(0, 5), SyncBegin, ChunkBegin({0}, {}), Fsync(0, false), FlushFile(0, true), BatchDone(true)];
            && Legal(Init(false), es)
            && var s := Run(Init(false), es);
               s.unsyncedBytes == 0 && Exposed(s.files) == 5 && !s.files[0].dirty && !s.latched
  {
    var s2 := FirstHalf();
    SecondHalf(s2);
    var tail := [SyncBegin, ChunkBegin({0}, {}), Fsync(0, false), FlushFile(0, true), BatchDone(true)];
    RunCons(Step(Init(false), NewFile(true)), Append(0, 5), tail);
    RunCons(Init(false), NewFile(true), [Append(0, 5)] + tail);
    assert [NewFile(true)] + ([Append(0, 5)] + tail)
        == [NewFile(true), Append(0, 5), SyncBegin, ChunkBegin({0}, {}), Fsync(0, false), FlushFile(0, true), BatchDone(true)];
  }

  lemma RunCons(s: Store, e: Event, es: seq<Event>)
    requires Enabled(s, e) && Legal(Step(s, e), es)
    ensures Legal(s, [e] + es) && Run(s, [e] + es) == Run(Step(s, e), es)
  {
    assert ([e] + es)[1..] == es;
  }

  function OneRecord(): Store {
    Store([File([0, 5, 0], 1, true, false, 0, true, true)], 5, 0, false, NoFlush, false, NoLeader)
  }

  lemma FirstHalf() returns (s2: Store)
    ensures Enabled(Init(false), NewFile(true)) && Enabled(Step(Init(false), NewFile(true)), Append(0, 5))
    ensures s2 == Step(Step(Init(false), NewFile(true)), Append(0, 5)) == OneRecord()
  {
    assert [0] + [5] + [0] == [0, 5, 0];
    s2 := Step(Step(Init(false), NewFile(true)), Append(0, 5));
    assert s2.files == OneRecord().files;
  }

  lemma SecondHalf(s2: Store)
    requires s2 == OneRecord()
    ensures var es := [SyncBegin, ChunkBegin({0}, {}), Fsync(0, false), FlushFile(0, true), BatchDone(true)];
            && Legal(s2, es)
            && var s := Run(s2, es);
               s.unsyncedBytes == 0 && Exposed(s.files) == 5 && !s.files[0].dirty && !s.latched
  {
    var s3 := Step(s2, SyncBegin);
    assert s3.flush.todo == {0} && s3.files == s2.files;
    assert Pinned(s3, {0}, {}) == {0};
    var s4 := Step(s3, ChunkBegin({0}, {}));
    assert s4.flush.targets == map[0 := 3];
    var s5 := Step(s4, Fsync(0, false));
    var s6 := Step(s5, FlushFile(0, true));
    assert s6.files == [File([0, 5, 0], 1, false, true, 1, true, true)] && s6.unsyncedBytes == 5;
    var s7 := Step(s6, BatchDone(true));
    assert [0, 5, 0][1..] == [5, 0] && [5, 0][1..] == [0] && [0][1..] == [];
    assert s7.files[1..] == [];
    RunCons(s6, BatchDone(true), []);
    RunCons(s5, FlushFile(0, true), [BatchDone(true)]);
    RunCons(s4, Fsync(0, false), [FlushFile(0, true), BatchDone(true)]);
    RunCons(s3, ChunkBegin({0}, {}), [Fsync(0, false), FlushFile(0, true), BatchDone(true)]);
    RunCons(s2, SyncBegin, [ChunkBegin({0}, {}), Fsync(0, false), FlushFile(0, true), BatchDone(true)]);
  }

  /** A commit's header is in the page cache when Sync is called; a leader's fsync takes the error for it, Sync's own
      fsync of the same file then answers clean, and Sync returns nil before the leader has the lock. */
  lemma SyncLies()
    ensures var before := [NewFile(true), HeaderWrite(0)];
            var during := [ChunkBegin({0}, {}), HeaderWrite(0), LeaderBegin(0), LeaderAnswer(false), Fsync(0, true), ChunkEnd];
            && Legal(Init(true), before)
            && var s := Run(Init(true), before);
               && Enabled(s, SyncBegin) && |s.files| == 1 && s.files[0].w == [0, 0] && Legal(Begin(s), during)
               && var t := Run(Begin(s), during);
                  AnswersWrongly(t, SyncEnd(true)) && t.files[0].live && t.files[0].durable == 1
  {
    assert [0] + [0] == [0, 0];
    var s1 := Step(Init(true), NewFile(true));
    var s := CommitUnflushed();
    assert Step(s1, HeaderWrite(0)).files == s.files;
    RunCons(s1, HeaderWrite(0), []);
    RunCons(Init(true), NewFile(true), [HeaderWrite(0)]);
    SyncRuns();
  }

  function CommitUnflushed(): Store {
    Store([File([0, 0], 1, true, false, 0, true, true)], 0, 0, false, NoFlush, true, NoLeader)
  }

  /** One file, one chunk: what the steps of that run pass through. */
  function Midway(w: seq<nat>, failed: bool, pins: nat, targets: map<nat, nat>, results: map<nat, bool>, leader: Lead): Store {
    Store([File(w, 1, true, failed, pins, true, true)], 0, 0, false,
          Running({}, targets, results, false, [2], 0, 0), true, leader)
  }

  lemma ChunkStarts()
    ensures var s, u := Begin(CommitUnflushed()), Midway([0, 0], false, 1, map[0 := 2], map[], NoLeader);
            Enabled(s, ChunkBegin({0}, {})) && Step(s, ChunkBegin({0}, {})) == u
  {
    var s, u := Begin(CommitUnflushed()), Midway([0, 0], false, 1, map[0 := 2], map[], NoLeader);
    assert s.flush.todo == {0} && s.flush.snap == [2];
    assert Pinned(s, {0}, {}) == {0};
    var v := Step(s, ChunkBegin({0}, {}));
    assert v.files == u.files && v.flush.targets == u.flush.targets && v.flush.todo == {};
  }

  lemma LeaderFails()
    ensures var s, u := Midway([0, 0], false, 1, map[0 := 2], map[], NoLeader),
                        Midway([0, 0, 0], true, 1, map[0 := 2], map[], Leading(0, 3, Error));
            Legal(s, [HeaderWrite(0), LeaderBegin(0), LeaderAnswer(false)])
            && Run(s, [HeaderWrite(0), LeaderBegin(0), LeaderAnswer(false)]) == u
  {
    var s := Midway([0, 0], false, 1, map[0 := 2], map[], NoLeader);
    var s1 := Midway([0, 0, 0], false, 1, map[0 := 2], map[], NoLeader);
    var s2 := Midway([0, 0, 0], false, 1, map[0 := 2], map[], Leading(0, 3, Untold));
    var u := Midway([0, 0, 0], true, 1, map[0 := 2], map[], Leading(0, 3, Error));
    assert [0, 0] + [0] == [0, 0, 0];
    assert Step(s, HeaderWrite(0)) == s1 && Step(s1, LeaderBegin(0)) == s2 && Step(s2, LeaderAnswer(false)) == u;
    RunCons(s2, LeaderAnswer(false), []);
    RunCons(s1, LeaderBegin(0), [LeaderAnswer(false)]);
    RunCons(s, HeaderWrite(0), [LeaderBegin(0), LeaderAnswer(false)]);
  }

  lemma ChunkEnds()
    ensures var s, u := Midway([0, 0, 0], true, 1, map[0 := 2], map[], Leading(0, 3, Error)),
                        Midway([0, 0, 0], true, 0, map[], map[], Leading(0, 3, Error));
            Legal(s, [Fsync(0, true), ChunkEnd]) && Run(s, [Fsync(0, true), ChunkEnd]) == u
  {
    var s := Midway([0, 0, 0], true, 1, map[0 := 2], map[], Leading(0, 3, Error));
    var s1 := Midway([0, 0, 0], true, 1, map[0 := 2], map[0 := true], Leading(0, 3, Error));
    var u := Midway([0, 0, 0], true, 0, map[], map[], Leading(0, 3, Error));
    assert Step(s, Fsync(0, true)) == s1;
    assert Step(s1, ChunkEnd).files == u.files;
    RunCons(s1, ChunkEnd, []);
    RunCons(s, Fsync(0, true), [ChunkEnd]);
  }

  lemma {:induction false} RunJoins(s: Store, es: seq<Event>, more: seq<Event>)
    requires Legal(s, es) && Legal(Run(s, es), more)
    ensures Legal(s, es + more) && Run(s, es + more) == Run(Run(s, es), more)
    decreases |es|
  {
    hide Step;
    hide Enabled;
    if es == [] {
      assert es + more == more;
    } else {
      RunJoins(Step(s, es[0]), es[1..], more);
      assert (es + more)[1..] == es[1..] + more;
    }
  }

  lemma SyncRuns()
    ensures var during := [ChunkBegin({0}, {}), HeaderWrite(0), LeaderBegin(0), LeaderAnswer(false), Fsync(0, true), ChunkEnd];
            && Enabled(CommitUnflushed(), SyncBegin) && Legal(Begin(CommitUnflushed()), during)
            && var t := Run(Begin(CommitUnflushed()), during);
               AnswersWrongly(t, SyncEnd(true)) && t.files[0].live && t.files[0].durable == 1
  {
    var s0, s1 := Begin(CommitUnflushed()), Midway([0, 0], false, 1, map[0 := 2], map[], NoLeader);
    var u := Midway([0, 0, 0], true, 0, map[], map[], Leading(0, 3, Error));
    assert AnswersWrongly(u, SyncEnd(true)) by {
      assert u.files[0].durable < SnapOf(u.flush.snap, 0);
    }
    ChunkStarts();
    LeaderFails();
    ChunkEnds();
    var middle, last := [HeaderWrite(0), LeaderBegin(0), LeaderAnswer(false)], [Fsync(0, true), ChunkEnd];
    hide Step;
    RunJoins(s1, middle, last);
    RunCons(s0, ChunkBegin({0}, {}), middle + last);
    assert [ChunkBegin({0}, {})] + (middle + last)
        == [ChunkBegin({0}, {}), HeaderWrite(0), LeaderBegin(0), LeaderAnswer(false), Fsync(0, true), ChunkEnd];
  }

  // ----- what a clean Sync does to the gauge

  /** Record bytes appended along the way. */
  function AppendedIn(es: seq<Event>): nat {
    if es == [] then 0 else (if es[0].Append? then es[0].bytes else 0) + AppendedIn(es[1..])
  }

  /** While a Sync runs, the gauge holds no more than what it held at the start and what was appended since; a
      batched flush that completes meanwhile takes away what it held at the start. */
  ghost predicate GaugeAtMost(s: Store, since: nat) {
    && s.flush.Running? && s.flush.snapEpoch <= s.epoch
    && s.unsyncedBytes <= since + if s.epoch == s.flush.snapEpoch then s.flush.snapBytes else 0
  }

  lemma {:induction false} GaugeAlong(s: Store, es: seq<Event>, since: nat)
    requires Legal(s, es) && GaugeAtMost(s, since) && forall e <- es :: !e.SyncEnd?
    ensures GaugeAtMost(Run(s, es), since + AppendedIn(es))
    decreases |es|
  {
    if es != [] {
      assert !es[0].SyncEnd? && forall e <- es[1..] :: e in es;
      GaugeStep(s, es[0], since);
      GaugeAlong(Step(s, es[0]), es[1..], since + if es[0].Append? then es[0].bytes else 0);
    }
  }

  lemma GaugeStep(s: Store, e: Event, since: nat)
    requires Enabled(s, e) && GaugeAtMost(s, since) && !e.SyncEnd?
    ensures GaugeAtMost(Step(s, e), since + if e.Append? then e.bytes else 0)
  {
  }

  /** A Sync that answers nil brings the gauge down to what was appended while it ran, or lower. */
  lemma GaugeComesDown(s: Store, during: seq<Event>, dirOk: bool)
    requires Enabled(s, SyncBegin) && Legal(Begin(s), during) && forall e <- during :: !e.SyncEnd?
    requires var t := Run(Begin(s), during); Drained(t.flush) && AnswersNil(t, dirOk)
    ensures Step(Run(Begin(s), during), SyncEnd(dirOk)).unsyncedBytes <= AppendedIn(during)
  {
    GaugeAlong(Begin(s), during, 0);
  }

  // ----- with nothing failing

  predicate Succeeds(e: Event) {
    match e
    case FlushFile(_, ok) => ok
    case ChunkBegin(_, unopenable) => unopenable == {}
    case Fsync(_, ok) => ok
    case LeaderAnswer(ok) => ok
    case _ => true
  }

  /** No error has been answered, and none is on its way. */
  ghost predicate Unhurt(s: Store) {
    && !s.latched && (forall f <- s.files :: !f.failed) && (s.leader.Leading? ==> !s.leader.told.Error?)
    && (s.flush.Running? ==> !s.flush.errs && forall n <- s.flush.results :: s.flush.results[n])
  }

  lemma UnhurtStep(s: Store, e: Event)
    requires Enabled(s, e) && Unhurt(s) && Succeeds(e)
    ensures Unhurt(Step(s, e))
  {
    var t := Step(s, e);
    forall f <- t.files ensures !f.failed {
      var i :| 0 <= i < |t.files| && t.files[i] == f;
      assert i < |s.files| ==> s.files[i] in s.files;
    }
  }

  lemma {:induction false} UnhurtRun(s: Store, es: seq<Event>)
    requires Legal(s, es) && Unhurt(s) && forall e <- es :: Succeeds(e)
    ensures Unhurt(Run(s, es))
    decreases |es|
  {
    hide Unhurt;
    if es != [] {
      assert es[0] in es && forall e <- es[1..] :: e in es;
      UnhurtStep(s, es[0]);
      UnhurtRun(Step(s, es[0]), es[1..]);
    }
  }

  /** With nothing failing, every Sync answers nil with every write before it down. */
  lemma FaultFreeSync(perOp: bool, before: seq<Event>, during: seq<Event>, n: nat)
    requires Legal(Init(perOp), before)
    requires var s := Run(Init(perOp), before); Enabled(s, SyncBegin) && Legal(Begin(s), during)
    requires (forall e <- during :: !e.SyncEnd? && Succeeds(e)) && forall e <- before :: Succeeds(e)
    requires var t := Run(Begin(Run(Init(perOp), before)), during); Drained(t.flush)
    ensures var t := Run(Begin(Run(Init(perOp), before)), during);
            && AnswersNil(t, true)
            && (n < |Run(Init(perOp), before).files| && n < |t.files| && t.files[n].live ==>
                  |Run(Init(perOp), before).files[n].w| <= t.files[n].durable <= |t.files[n].w|)
  {
    UnhurtRun(Init(perOp), before);
    var s := Run(Init(perOp), before);
    UnhurtStep(s, SyncBegin);
    UnhurtRun(Begin(s), during);
    var t := Run(Begin(s), during);
    if n < |s.files| && n < |t.files| && t.files[n].live {
      SyncIsHonest(perOp, before, during, true, n);
    }
  }
}
