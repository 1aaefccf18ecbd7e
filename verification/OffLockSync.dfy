/** Sync's off-lock flush, beside producers, commits and batched flushes under a deferred policy or a group-commit
    leader's own fsyncs under the per-operation one, cut where the queue's lock is let go. */
module OffLockSync {
  import opened Ints

  /** A segment as the page cache and the disk see it. w: gauged record bytes carried by each write, none for a
      header image or under the per-operation policy, which gauges nothing; the first durable of them are on stable storage. failed: the kernel has reported a
      writeback error once, and a later fsync succeeds over what it dropped. */
  datatype File = File(w: seq<nat>, durable: nat, dirty: bool, failed: bool, pins: nat, isOpen: bool, live: bool)

  /** A Sync in progress: files still to flush, the pinned chunk with each file's writeSeq, what its fsyncs
      answered, and the snapshot it was called with. */
  datatype Flush =
    | NoFlush
    | Running(todo: set<nat>, targets: map<nat, nat>, results: map<nat, bool>, errs: bool,
              snap: seq<nat>, snapBytes: nat, snapEpoch: nat)

  /** The leader's fsync of the first mark writes of file n, run off the lock, and what it has been told. */
  datatype Lead = NoLeader | Leading(n: nat, mark: nat, told: Told)

  datatype Told = Untold | Clean | Error

  datatype Store = Store(
    files: seq<File>, unsyncedBytes: nat, epoch: nat, latched: bool, flush: Flush, perOp: bool, leader: Lead)

  datatype Event =
    | NewFile(synced: bool)
    | Append(n: nat, bytes: nat)             // record and header reach the page cache
    | HeaderWrite(n: nat)                    // a commit, an append that failed behind its data write, a staged record
    | FlushFile(n: nat, ok: bool)            // in-lock: a SyncEvery boundary, a dirty eviction
    | BatchDone(dirOk: bool)                 // the end of flushBatch
    | OpenFile(n: nat)
    | Evict(n: nat)
    | Reclaim(n: nat)
    | SyncBegin
    | ChunkBegin(chunk: set<nat>, unopenable: set<nat>)
    | Fsync(n: nat, ok: bool)                // one fdatasync of the chunk, with the lock released
    | ChunkEnd
    | SyncEnd(dirOk: bool)
    | LeaderBegin(n: nat)                    // a flush leader starts an fsync of the active file
    | LeaderAnswer(ok: bool)                 // it answers, with the lock released
    | LeaderBack                             // the leader has the lock again

  function Sum(w: seq<nat>): nat {
    if w == [] then 0 else w[0] + Sum(w[1..])
  }

  /** Record bytes a power loss would cost this file. */
  function Undurable(f: File): nat {
    if f.live && f.durable <= |f.w| then Sum(f.w[f.durable..]) else 0
  }

  /** The same, leaving out what a reported writeback error has already destroyed. */
  function AtRisk(f: File): nat {
    if f.failed then 0 else Undurable(f)
  }

  function Exposed(fs: seq<File>): nat {
    if fs == [] then 0 else Undurable(fs[0]) + Exposed(fs[1..])
  }

  function AllAtRisk(fs: seq<File>): nat {
    if fs == [] then 0 else AtRisk(fs[0]) + AllAtRisk(fs[1..])
  }

  function SnapOf(snap: seq<nat>, n: nat): nat {
    if n < |snap| then snap[n] else 0
  }

  /** Record bytes written to a live file since a snapshot of its writes. */
  function Since(f: File, from: nat): nat {
    if f.live && from <= |f.w| then Sum(f.w[from..]) else 0
  }

  /** The same over the whole store, files from number n on. */
  function AllSince(fs: seq<File>, snap: seq<nat>, n: nat): nat
    decreases |fs|
  {
    if fs == [] then 0 else Since(fs[0], SnapOf(snap, n)) + AllSince(fs[1..], snap, n + 1)
  }

  function Put(s: Store, n: nat, f: File): Store
    requires n < |s.files|
  {
    s.(files := s.files[n := f])
  }

  /** An fsync of the first upTo writes that came back clean, on a file that never failed one. */
  function Synced(f: File, upTo: nat): File {
    if f.failed then f else f.(durable := Max(f.durable, upTo))
  }

  predicate Drained(f: Flush) {
    f.Running? && f.todo == {} && f.targets == map[]
  }

  predicate Enabled(s: Store, e: Event) {
    match e
    case NewFile(_) => true
    case Append(n, _) => !s.perOp && n < |s.files| && s.files[n].live
    case BatchDone(_) => !s.perOp && !s.latched && forall f <- s.files :: f.live ==> !f.dirty
    case SyncBegin => s.flush.NoFlush? && !s.latched && s.leader.NoLeader?
    case ChunkBegin(chunk, _) => s.flush.Running? && s.flush.targets == map[] && chunk <= s.flush.todo
    case Fsync(n, _) => s.flush.Running? && n in s.flush.targets && n !in s.flush.results && n < |s.files|
    case ChunkEnd => s.flush.Running? && s.flush.targets.Keys == s.flush.results.Keys
    case SyncEnd(_) => Drained(s.flush)
    case LeaderBegin(n) => s.perOp && s.leader.NoLeader? && !s.latched && n < |s.files| && s.files[n].live
    case LeaderAnswer(_) => s.leader.Leading? && s.leader.told.Untold? && s.leader.n < |s.files|
    case LeaderBack => s.leader.Leading? && !s.leader.told.Untold?
    case _ => e.n < |s.files| && s.files[e.n].live
  }

  /** flushFile: a latched store flushes nothing more. */
  function FlushOne(s: Store, n: nat, ok: bool): Store
    requires n < |s.files|
  {
    var f := s.files[n];
    if !f.dirty || s.latched then s
    else if ok then Put(s, n, Synced(f, |f.w|).(dirty := false, isOpen := true))
    else Put(s, n, f.(failed := true, isOpen := true)).(latched := true)
  }

  function Begin(s: Store): Store {
    s.(flush := Running(
      set n: nat | n < |s.files| && s.files[n].live && s.files[n].dirty, map[], map[], false,
      seq(|s.files|, i requires 0 <= i < |s.files| => |s.files[i].w|), s.unsyncedBytes, s.epoch))
  }

  predicate Wanted(s: Store, n: nat) {
    n < |s.files| && s.files[n].live && s.files[n].dirty
  }

  /** The files of the chunk that are pinned: live, still dirty, and openable. */
  function Pinned(s: Store, chunk: set<nat>, unopenable: set<nat>): set<nat> {
    set n | n in chunk && Wanted(s, n) && n !in unopenable
  }

  function Pin(fs: seq<File>, ns: set<nat>): seq<File> {
    seq(|fs|, i requires 0 <= i < |fs| => if i in ns then fs[i].(pins := fs[i].pins + 1, isOpen := true) else fs[i])
  }

  function Unpin(fs: seq<File>, targets: map<nat, nat>, results: map<nat, bool>): seq<File>
    requires targets.Keys == results.Keys
  {
    seq(|fs|, i requires 0 <= i < |fs| =>
      if i !in targets then fs[i]
      else
        var f := fs[i].(pins := if fs[i].pins > 0 then fs[i].pins - 1 else 0);
        if results[i] && |f.w| == targets[i] then f.(dirty := false) else f)
  }

  function Created(synced: bool): File {
    File([0], if synced then 1 else 0, !synced, false, 0, true, true)
  }

  /** Whether Sync answers nil. */
  predicate AnswersNil(s: Store, dirOk: bool)
    requires s.flush.Running?
  {
    !s.flush.errs && !s.latched && dirOk
  }

  function Step(s: Store, e: Event): Store
    requires Enabled(s, e)
  {
    match e
    case NewFile(synced) =>
      s.(files := s.files + [Created(synced)])
    case Append(n, bytes) =>
      var f := s.files[n];
      Put(s, n, f.(w := f.w + [bytes] + [0], dirty := true)).(unsyncedBytes := s.unsyncedBytes + bytes)
    case HeaderWrite(n) =>
      var f := s.files[n];
      Put(s, n, f.(w := f.w + [0], dirty := true))
    case FlushFile(n, ok) => FlushOne(s, n, ok)
    case BatchDone(dirOk) => if dirOk then s.(unsyncedBytes := 0, epoch := s.epoch + 1) else s
    case OpenFile(n) => Put(s, n, s.files[n].(isOpen := true))
    case Evict(n) => if s.files[n].pins > 0 then s else Put(s, n, s.files[n].(isOpen := false))
    case Reclaim(n) => if s.files[n].pins > 0 then s else Put(s, n, s.files[n].(isOpen := false, live := false))
    case SyncBegin => Begin(s)
    case ChunkBegin(chunk, unopenable) =>
      var ns := Pinned(s, chunk, unopenable);
      s.(files := Pin(s.files, ns),
         flush := s.flush.(
           todo := s.flush.todo - chunk,
           targets := map n | n in ns && n < |s.files| :: |s.files[n].w|,
           results := map[],
           errs := s.flush.errs || exists n :: n in chunk && Wanted(s, n) && n in unopenable))
    case Fsync(n, ok) =>
      var f := s.files[n];
      Put(s, n, if ok then Synced(f, s.flush.targets[n]) else f.(failed := true)).(
        flush := s.flush.(results := s.flush.results[n := ok]))
    case ChunkEnd =>
      var failed := exists n :: n in s.flush.results && !s.flush.results[n];
      s.(files := Unpin(s.files, s.flush.targets, s.flush.results),
         latched := s.latched || failed,
         flush := s.flush.(targets := map[], results := map[], errs := s.flush.errs || failed))
    case SyncEnd(dirOk) =>
      if AnswersNil(s, dirOk) && s.epoch == s.flush.snapEpoch then
        s.(flush := NoFlush,
           unsyncedBytes := if s.unsyncedBytes > s.flush.snapBytes then s.unsyncedBytes - s.flush.snapBytes else 0)
      else s.(flush := NoFlush)
    case LeaderBegin(n) => s.(leader := Leading(n, |s.files[n].w|, Untold))
    case LeaderAnswer(ok) =>
      var f := s.files[s.leader.n];
      Put(s, s.leader.n, if ok then Synced(f, s.leader.mark) else f.(failed := true)).(
        leader := s.leader.(told := if ok then Clean else Error))
    case LeaderBack => s.(latched := s.latched || s.leader.told.Error?, leader := NoLeader)  // dirty stays set
  }

  // ----- the invariant

  predicate InTargets(s: Store, n: nat) {
    s.flush.Running? && n in s.flush.targets
  }

  /** An fsync of n has failed off the lock, and the leaf that latches it has not run yet. */
  predicate Failing(s: Store, n: nat) {
    s.flush.Running? && n in s.flush.results && !s.flush.results[n]
  }

  /** The leader's fsync of n has failed, and it has not had the lock since. */
  predicate LeaderFailing(s: Store, n: nat) {
    s.leader.Leading? && s.leader.told.Error? && s.leader.n == n
  }

  ghost predicate FileOk(s: Store, n: nat)
    requires n < |s.files|
  {
    var f := s.files[n];
    && f.durable <= |f.w|
    && (f.live && !f.dirty && !f.failed ==> f.durable == |f.w|)
    && (f.failed ==> s.latched || Failing(s, n) || LeaderFailing(s, n))
    && (s.perOp ==> Undurable(f) == 0)
    && (if InTargets(s, n) then f.live && f.isOpen && f.pins == 1 && s.flush.targets[n] <= |f.w| else f.pins == 0)
    && (InTargets(s, n) && n in s.flush.results && s.flush.results[n] && !f.failed ==> f.durable >= s.flush.targets[n])
  }

  /** What the flush has seen to so far. */
  ghost predicate Progress(s: Store, n: nat)
    requires s.flush.Running? && n < |s.files|
  {
    var f := s.files[n];
    && SnapOf(s.flush.snap, n) <= |f.w|
    && (InTargets(s, n) ==> s.flush.targets[n] >= SnapOf(s.flush.snap, n))
    && (f.live && !f.failed && !s.flush.errs && n !in s.flush.todo && !InTargets(s, n) ==> f.durable >= SnapOf(s.flush.snap, n))
  }

  ghost predicate FlushOk(s: Store) {
    s.flush.Running? ==>
      && s.flush.results.Keys <= s.flush.targets.Keys
      && (forall n <- s.flush.targets :: n < |s.files|)
      && |s.flush.snap| <= |s.files|
      && s.flush.snapEpoch <= s.epoch
      && (forall n: nat | n < |s.files| :: Progress(s, n))
      && (s.epoch == s.flush.snapEpoch ==> s.unsyncedBytes >= s.flush.snapBytes + AllSince(s.files, s.flush.snap, 0))
  }

  ghost predicate LeaderOk(s: Store) {
    s.leader.Leading? ==> s.perOp && s.leader.n < |s.files| && s.leader.mark <= |s.files[s.leader.n].w|
  }

  ghost predicate Inv(s: Store) {
    && (forall n: nat | n < |s.files| :: FileOk(s, n))
    && FlushOk(s)
    && LeaderOk(s)
    && s.unsyncedBytes >= AllAtRisk(s.files)
  }

  // ----- sums

  lemma {:induction false} SumJoins(a: seq<nat>, b: seq<nat>)
    ensures Sum(a + b) == Sum(a) + Sum(b)
  {
    if a == [] {
      assert a + b == b;
    } else {
      assert (a + b)[1..] == a[1..] + b;
      SumJoins(a[1..], b);
    }
  }

  lemma SuffixSum(w: seq<nat>, i: nat, j: nat)
    requires i <= j <= |w|
    ensures Sum(w[i..]) >= Sum(w[j..])
  {
    assert w[i..] == w[i..j] + w[j..];
    SumJoins(w[i..j], w[j..]);
  }

  lemma GrownSum(w: seq<nat>, more: seq<nat>, i: nat)
    requires i <= |w|
    ensures Sum((w + more)[i..]) == Sum(w[i..]) + Sum(more)
  {
    assert (w + more)[i..] == w[i..] + more;
    SumJoins(w[i..], more);
  }

  lemma {:induction false} RiskPut(fs: seq<File>, n: nat, f: File)
    requires n < |fs|
    ensures AllAtRisk(fs[n := f]) == AllAtRisk(fs) - AtRisk(fs[n]) + AtRisk(f)
    ensures Exposed(fs[n := f]) == Exposed(fs) - Undurable(fs[n]) + Undurable(f)
    decreases |fs|
  {
    if n > 0 {
      RiskPut(fs[1..], n - 1, f);
      assert fs[n := f][1..] == fs[1..][n - 1 := f];
    } else {
      assert fs[n := f][1..] == fs[1..];
    }
  }

  lemma {:induction false} SincePut(fs: seq<File>, snap: seq<nat>, from: nat, n: nat, f: File)
    requires n < |fs|
    ensures AllSince(fs[n := f], snap, from) ==
            AllSince(fs, snap, from) - Since(fs[n], SnapOf(snap, from + n)) + Since(f, SnapOf(snap, from + n))
    decreases |fs|
  {
    if n > 0 {
      SincePut(fs[1..], snap, from + 1, n - 1, f);
      assert fs[n := f][1..] == fs[1..][n - 1 := f];
    } else {
      assert fs[n := f][1..] == fs[1..];
    }
  }

  predicate SameWrites(f: File, g: File) {
    f.w == g.w && f.durable == g.durable && f.failed == g.failed && f.live == g.live
  }

  lemma {:induction false} SameSums(fs: seq<File>, gs: seq<File>, snap: seq<nat>, from: nat)
    requires |fs| == |gs| && forall i | 0 <= i < |fs| :: SameWrites(fs[i], gs[i])
    ensures AllAtRisk(fs) == AllAtRisk(gs) && Exposed(fs) == Exposed(gs) && AllSince(fs, snap, from) == AllSince(gs, snap, from)
    decreases |fs|
  {
    if fs != [] {
      assert SameWrites(fs[0], gs[0]);
      forall i | 0 <= i < |fs| - 1 ensures SameWrites(fs[1..][i], gs[1..][i]) {
        assert SameWrites(fs[i + 1], gs[i + 1]);
      }
      SameSums(fs[1..], gs[1..], snap, from + 1);
    }
  }

  lemma {:induction false} SumsSnoc(fs: seq<File>, f: File, snap: seq<nat>, from: nat)
    ensures AllAtRisk(fs + [f]) == AllAtRisk(fs) + AtRisk(f)
    ensures Exposed(fs + [f]) == Exposed(fs) + Undurable(f)
    ensures AllSince(fs + [f], snap, from) == AllSince(fs, snap, from) + Since(f, SnapOf(snap, from + |fs|))
    decreases |fs|
  {
    if fs == [] {
      assert [] + [f] == [f] && [f][1..] == [];
    } else {
      assert (fs + [f])[1..] == fs[1..] + [f];
      SumsSnoc(fs[1..], f, snap, from + 1);
    }
  }

  /** Once everything up to the snapshot is durable, what is exposed was written after it. */
  lemma {:induction false} ExposedIsSince(fs: seq<File>, snap: seq<nat>, from: nat)
    requires forall i | 0 <= i < |fs| :: fs[i].durable <= |fs[i].w| && (fs[i].live ==> fs[i].durable >= SnapOf(snap, from + i))
    ensures Exposed(fs) <= AllSince(fs, snap, from)
    decreases |fs|
  {
    if fs != [] {
      var f := fs[0];
      assert f.durable <= |f.w| && (f.live ==> f.durable >= SnapOf(snap, from + 0));
      if f.live {
        SuffixSum(f.w, SnapOf(snap, from), f.durable);
      }
      forall i | 0 <= i < |fs| - 1
        ensures fs[1..][i].durable <= |fs[1..][i].w| && (fs[1..][i].live ==> fs[1..][i].durable >= SnapOf(snap, from + 1 + i))
      {
        assert fs[i + 1].durable <= |fs[i + 1].w| && (fs[i + 1].live ==> fs[i + 1].durable >= SnapOf(snap, from + (i + 1)));
      }
      ExposedIsSince(fs[1..], snap, from + 1);
    }
  }

  lemma {:induction false} RiskWithin(fs: seq<File>)
    ensures AllAtRisk(fs) <= Exposed(fs)
    decreases |fs|
  {
    if fs != [] {
      RiskWithin(fs[1..]);
    }
  }

  lemma {:induction false} NoneAtRisk(fs: seq<File>)
    requires forall i | 0 <= i < |fs| :: AtRisk(fs[i]) == 0
    ensures AllAtRisk(fs) == 0
    decreases |fs|
  {
    if fs != [] {
      assert AtRisk(fs[0]) == 0;
      forall i | 0 <= i < |fs| - 1 ensures AtRisk(fs[1..][i]) == 0 {
        assert AtRisk(fs[i + 1]) == 0;
      }
      NoneAtRisk(fs[1..]);
    }
  }

  // ----- steps

  lemma WriteSums(s: Store, n: nat, more: seq<nat>, snap: seq<nat>)
    requires n < |s.files| && s.files[n].live && s.files[n].durable <= |s.files[n].w| && SnapOf(snap, n) <= |s.files[n].w|
    ensures var f := s.files[n];
            var fs := s.files[n := f.(w := f.w + more, dirty := true)];
            && AllAtRisk(fs) <= AllAtRisk(s.files) + Sum(more) && AllSince(fs, snap, 0) == AllSince(s.files, snap, 0) + Sum(more)
            && Undurable(fs[n]) == Undurable(f) + Sum(more)
  {
    hide AllAtRisk;
    hide AllSince;
    hide Exposed;
    hide Sum;
    var f := s.files[n];
    var g := f.(w := f.w + more, dirty := true);
    RiskPut(s.files, n, g);
    GrownSum(f.w, more, f.durable);
    SincePut(s.files, snap, 0, n, g);
    GrownSum(f.w, more, SnapOf(snap, n));
  }

  /** Writing to one file: n's record bytes join the gauge, nothing else about the flush changes. */
  lemma WriteKeeps(s: Store, n: nat, more: seq<nat>, bytes: nat)
    requires Inv(s) && n < |s.files| && s.files[n].live && Sum(more) == bytes && (s.perOp ==> bytes == 0)
    ensures var f := s.files[n];
            Inv(Put(s, n, f.(w := f.w + more, dirty := true)).(unsyncedBytes := s.unsyncedBytes + bytes))
  {
    hide Sum;
    hide AllAtRisk;
    hide AllSince;
    hide Undurable;
    InvFile(s, n);
    WriteSums(s, n, more, if s.flush.Running? then s.flush.snap else []);
    var u := Put(s, n, s.files[n].(w := s.files[n].w + more, dirty := true)).(unsyncedBytes := s.unsyncedBytes + bytes);
    forall m: nat | m < |u.files| ensures FileOk(u, m) && (u.flush.Running? ==> Progress(u, m)) {
      assert FileOk(s, m) && (s.flush.Running? ==> Progress(s, m));
    }
  }

  /** One file changes, and loses or exposes no more than it did. */
  lemma OneFileKeeps(s: Store, n: nat, g: File, latched: bool)
    requires Inv(s) && n < |s.files| && |g.w| >= |s.files[n].w| && (s.latched ==> latched)
    requires var u := Put(s, n, g).(latched := latched);
             && FileOk(u, n) && (s.flush.Running? ==> Progress(u, n))
             && AllAtRisk(u.files) <= AllAtRisk(s.files)
             && (s.flush.Running? ==> AllSince(u.files, s.flush.snap, 0) <= AllSince(s.files, s.flush.snap, 0))
    ensures Inv(Put(s, n, g).(latched := latched))
  {
    hide AllAtRisk;
    hide AllSince;
    hide Undurable;
    var u := Put(s, n, g).(latched := latched);
    forall m: nat | m < |u.files| ensures FileOk(u, m) && (u.flush.Running? ==> Progress(u, m)) {
      assert FileOk(s, m) && (s.flush.Running? ==> Progress(s, m));
    }
  }

  lemma OneFileSums(s: Store, n: nat, g: File)
    requires n < |s.files| && s.files[n].durable <= g.durable <= |s.files[n].w| && g.w == s.files[n].w
    requires (g.live ==> s.files[n].live) && (s.files[n].failed ==> g.failed)
    ensures AllAtRisk(s.files[n := g]) <= AllAtRisk(s.files) && Undurable(g) <= Undurable(s.files[n])
    ensures s.flush.Running? && SnapOf(s.flush.snap, n) <= |g.w| ==>
              AllSince(s.files[n := g], s.flush.snap, 0) <= AllSince(s.files, s.flush.snap, 0)
  {
    RiskPut(s.files, n, g);
    SuffixSum(g.w, s.files[n].durable, g.durable);
    if s.flush.Running? {
      SincePut(s.files, s.flush.snap, 0, n, g);
    }
  }

  /** An fsync that came back, in the lock or off it. */
  lemma SyncedKeeps(s: Store, n: nat, g: File)
    requires Inv(s) && n < |s.files|
    requires var f := s.files[n];
             && g.w == f.w && g.live == f.live && g.failed == f.failed && g.pins == f.pins && g.isOpen
             && f.durable <= g.durable <= |f.w| && (g.dirty != f.dirty ==> f.failed || g.durable == |f.w|)
    ensures Inv(Put(s, n, g))
  {
    hide Inv;
    InvFile(s, n);
    OneFileSums(s, n, g);
    OneFileKeeps(s, n, g, s.latched);
  }

  /** Opening, evicting or reclaiming a file that is not pinned. */
  lemma HandleKeeps(s: Store, n: nat, g: File)
    requires Inv(s) && n < |s.files|
    requires var f := s.files[n];
             && g == f.(isOpen := g.isOpen, live := g.live) && (g.live ==> f.live)
             && (f.pins > 0 ==> g.isOpen && g.live == f.live)
    ensures Inv(Put(s, n, g))
  {
    hide Inv;
    InvFile(s, n);
    OneFileSums(s, n, g);
    OneFileKeeps(s, n, g, s.latched);
  }

  lemma FailedKeeps(s: Store, n: nat, u: Store)
    requires Inv(s) && n < |s.files| && s.files[n].live
    requires u == s.(files := s.files[n := s.files[n].(failed := true, isOpen := true)], latched := true)
    ensures Inv(u)
  {
    hide Inv;
    InvFile(s, n);
    OneFileSums(s, n, u.files[n]);
    OneFileKeeps(s, n, u.files[n], true);
  }

  lemma FlushKeeps(s: Store, n: nat, ok: bool)
    requires Inv(s) && n < |s.files| && s.files[n].live
    ensures Inv(FlushOne(s, n, ok))
  {
    hide Inv;
    if s.files[n].dirty && !s.latched {
      InvFile(s, n);
      if ok {
        SyncedKeeps(s, n, Synced(s.files[n], |s.files[n].w|).(dirty := false, isOpen := true));
      } else {
        FailedKeeps(s, n, FlushOne(s, n, false));
      }
    }
  }

  lemma InvFile(s: Store, n: nat)
    requires Inv(s) && n < |s.files|
    ensures FileOk(s, n) && (s.flush.Running? ==> Progress(s, n))
  {
    assert FileOk(s, n);
  }

  lemma NewFileSums(fs: seq<File>, synced: bool, snap: seq<nat>)
    requires |snap| <= |fs|
    ensures var gs := fs + [Created(synced)];
            && Undurable(Created(synced)) == 0
            && AllAtRisk(gs) == AllAtRisk(fs) && Exposed(gs) == Exposed(fs) && AllSince(gs, snap, 0) == AllSince(fs, snap, 0)
  {
    SumsSnoc(fs, Created(synced), snap, 0);
    assert Sum([0]) == 0 && Sum([]) == 0 && [0][1..] == [] && [0][0..] == [0];
  }

  lemma NewFileKeeps(s: Store, synced: bool)
    requires Inv(s)
    ensures Inv(Step(s, NewFile(synced)))
  {
    hide AllAtRisk;
    hide AllSince;
    hide Undurable;
    NewFileSums(s.files, synced, if s.flush.Running? then s.flush.snap else []);
    var u := Step(s, NewFile(synced));
    forall m: nat | m < |u.files| ensures FileOk(u, m) && (u.flush.Running? ==> Progress(u, m)) {
      if m < |s.files| {
        assert FileOk(s, m) && (s.flush.Running? ==> Progress(s, m));
      }
    }
  }

  lemma BatchDoneKeeps(s: Store, dirOk: bool)
    requires Inv(s) && Enabled(s, BatchDone(dirOk))
    ensures Inv(Step(s, BatchDone(dirOk)))
  {
    forall i | 0 <= i < |s.files| ensures AtRisk(s.files[i]) == 0 {
      assert FileOk(s, i) && s.files[i] in s.files;
      assert s.files[i].w[|s.files[i].w|..] == [];
    }
    NoneAtRisk(s.files);
    hide AllAtRisk;
    hide AllSince;
    hide Sum;
    var u := Step(s, BatchDone(dirOk));
    forall m: nat | m < |u.files| ensures FileOk(u, m) && (u.flush.Running? ==> Progress(u, m)) {
      assert FileOk(s, m) && (s.flush.Running? ==> Progress(s, m));
    }
  }

  lemma {:induction false} NoneSince(fs: seq<File>, snap: seq<nat>, from: nat)
    requires forall i | 0 <= i < |fs| :: SnapOf(snap, from + i) == |fs[i].w|
    ensures AllSince(fs, snap, from) == 0
    decreases |fs|
  {
    if fs != [] {
      assert SnapOf(snap, from + 0) == |fs[0].w|;
      assert fs[0].w[|fs[0].w|..] == [];
      forall i | 0 <= i < |fs| - 1 ensures SnapOf(snap, from + 1 + i) == |fs[1..][i].w| {
        assert SnapOf(snap, from + (i + 1)) == |fs[i + 1].w|;
      }
      NoneSince(fs[1..], snap, from + 1);
    }
  }

  lemma BeginKeeps(s: Store)
    requires Inv(s) && s.flush.NoFlush? && !s.latched
    ensures Inv(Begin(s))
  {
    var u := Begin(s);
    forall i | 0 <= i < |u.files| ensures SnapOf(u.flush.snap, 0 + i) == |u.files[i].w| {
    }
    NoneSince(u.files, u.flush.snap, 0);
    hide AllAtRisk;
    hide AllSince;
    forall m: nat | m < |u.files| ensures FileOk(u, m) && Progress(u, m) {
      assert FileOk(s, m);
    }
  }

  lemma ChunkBeginFile(s: Store, chunk: set<nat>, unopenable: set<nat>, m: nat)
    requires Inv(s) && Enabled(s, ChunkBegin(chunk, unopenable)) && m < |s.files|
    ensures var u := Step(s, ChunkBegin(chunk, unopenable));
            FileOk(u, m) && Progress(u, m) && SameWrites(s.files[m], u.files[m])
  {
    assert FileOk(s, m) && Progress(s, m);
    assert m in chunk && Wanted(s, m) && m in unopenable ==> Step(s, ChunkBegin(chunk, unopenable)).flush.errs;
    hide FlushOk;
  }

  lemma ChunkBeginKeeps(s: Store, chunk: set<nat>, unopenable: set<nat>)
    requires Inv(s) && Enabled(s, ChunkBegin(chunk, unopenable))
    ensures Inv(Step(s, ChunkBegin(chunk, unopenable)))
  {
    var u := Step(s, ChunkBegin(chunk, unopenable));
    forall i | 0 <= i < |s.files| ensures FileOk(u, i) && Progress(u, i) && SameWrites(s.files[i], u.files[i]) {
      ChunkBeginFile(s, chunk, unopenable, i);
    }
    SameSums(s.files, u.files, s.flush.snap, 0);
    hide AllAtRisk;
    hide AllSince;
    hide FileOk;
    hide Progress;
    hide Pin;
  }

  lemma FsyncSums(s: Store, n: nat, ok: bool)
    requires Inv(s) && Enabled(s, Fsync(n, ok))
    ensures var u := Step(s, Fsync(n, ok));
            && AllAtRisk(u.files) <= AllAtRisk(s.files) && Undurable(u.files[n]) <= Undurable(s.files[n])
            && AllSince(u.files, s.flush.snap, 0) == AllSince(s.files, s.flush.snap, 0)
  {
    InvFile(s, n);
    hide Inv;
    var f, u := s.files[n], Step(s, Fsync(n, ok));
    RiskPut(s.files, n, u.files[n]);
    SuffixSum(f.w, f.durable, Max(f.durable, s.flush.targets[n]));
    SincePut(s.files, s.flush.snap, 0, n, u.files[n]);
  }

  lemma FsyncKeeps(s: Store, n: nat, ok: bool)
    requires Inv(s) && Enabled(s, Fsync(n, ok))
    ensures Inv(Step(s, Fsync(n, ok)))
  {
    hide AllAtRisk;
    hide AllSince;
    hide Undurable;
    FsyncSums(s, n, ok);
    InvFile(s, n);
    var u := Step(s, Fsync(n, ok));
    forall m: nat | m < |u.files| ensures FileOk(u, m) && Progress(u, m) {
      assert FileOk(s, m) && Progress(s, m);
    }
  }

  lemma SameUndurable(f: File, g: File)
    requires SameWrites(f, g)
    ensures Undurable(f) == Undurable(g)
  {
  }

  lemma ChunkEndFile(s: Store, m: nat)
    requires Inv(s) && Enabled(s, ChunkEnd) && m < |s.files|
    ensures var u := Step(s, ChunkEnd);
            FileOk(u, m) && Progress(u, m) && SameWrites(s.files[m], u.files[m])
  {
    hide Undurable;
    InvFile(s, m);
    hide Inv;
    var u := Step(s, ChunkEnd);
    assert SameWrites(s.files[m], u.files[m]);
    SameUndurable(s.files[m], u.files[m]);
    assert m in s.flush.results && !s.flush.results[m] ==> Step(s, ChunkEnd).latched && Step(s, ChunkEnd).flush.errs;
  }

  lemma ChunkEndKeeps(s: Store)
    requires Inv(s) && Enabled(s, ChunkEnd)
    ensures Inv(Step(s, ChunkEnd))
  {
    hide AllAtRisk;
    hide AllSince;
    hide FileOk;
    hide Progress;
    var u := Step(s, ChunkEnd);
    assert |u.files| == |s.files| && u.flush.targets == map[] && u.leader == s.leader && u.perOp == s.perOp by {
      hide Inv;
    }
    forall i | 0 <= i < |s.files| ensures FileOk(u, i) && Progress(u, i) && SameWrites(s.files[i], u.files[i]) {
      hide Step;
      ChunkEndFile(s, i);
    }
    SameSums(s.files, u.files, s.flush.snap, 0);
  }

  /** Everything written before the Sync was called is down, in every segment still live. */
  ghost predicate SnapDown(s: Store)
    requires s.flush.Running?
  {
    forall n: nat | n < |s.files| && s.files[n].live :: s.files[n].durable >= SnapOf(s.flush.snap, n)
  }

  /** A leader has been told of an error over writes of the snapshot, and has not had the lock to latch it. */
  ghost predicate HiddenByLeader(s: Store)
    requires s.flush.Running?
  {
    exists n: nat | n < |s.files| :: LeaderFailing(s, n) && s.files[n].live && s.files[n].durable < SnapOf(s.flush.snap, n)
  }

  /** When Sync answers nil, everything in its snapshot is down, except exactly when a leader's fsync took the error
      and the leader has not latched it; and no error is hidden any other way. */
  lemma NilMeansDurable(s: Store, dirOk: bool)
    requires Inv(s) && Drained(s.flush) && AnswersNil(s, dirOk)
    ensures SnapDown(s) <==> !HiddenByLeader(s)
    ensures forall n: nat | n < |s.files| ::
              s.files[n].durable <= |s.files[n].w| && (s.files[n].failed ==> s.perOp && LeaderFailing(s, n))
  {
    forall n: nat | n < |s.files|
      ensures s.files[n].durable <= |s.files[n].w| && (s.files[n].failed ==> s.perOp && LeaderFailing(s, n))
      ensures s.files[n].live ==> s.files[n].durable >= SnapOf(s.flush.snap, n) || LeaderFailing(s, n)
    {
      assert FileOk(s, n) && Progress(s, n);
    }
  }

  lemma {:induction false} NoneUndurable(fs: seq<File>)
    requires forall i | 0 <= i < |fs| :: Undurable(fs[i]) == 0
    ensures Exposed(fs) == 0
    decreases |fs|
  {
    if fs != [] {
      assert Undurable(fs[0]) == 0;
      forall i | 0 <= i < |fs| - 1 ensures Undurable(fs[1..][i]) == 0 {
        assert Undurable(fs[i + 1]) == 0;
      }
      NoneUndurable(fs[1..]);
    }
  }

  lemma NothingGauged(s: Store)
    requires Inv(s) && s.perOp
    ensures Exposed(s.files) == 0
  {
    forall i | 0 <= i < |s.files| ensures Undurable(s.files[i]) == 0 {
      assert FileOk(s, i);
    }
    NoneUndurable(s.files);
  }

  lemma LeaderAnswerSums(s: Store, ok: bool)
    requires Inv(s) && Enabled(s, LeaderAnswer(ok))
    ensures var u := Step(s, LeaderAnswer(ok));
            && AllAtRisk(u.files) <= AllAtRisk(s.files) && Undurable(u.files[s.leader.n]) <= Undurable(s.files[s.leader.n])
            && (s.flush.Running? ==> AllSince(u.files, s.flush.snap, 0) == AllSince(s.files, s.flush.snap, 0))
  {
    InvFile(s, s.leader.n);
    var n, u := s.leader.n, Step(s, LeaderAnswer(ok));
    var f := s.files[n];
    assert LeaderOk(s);
    hide Inv;
    RiskPut(s.files, n, u.files[n]);
    SuffixSum(f.w, f.durable, Max(f.durable, s.leader.mark));
    if s.flush.Running? {
      SincePut(s.files, s.flush.snap, 0, n, u.files[n]);
    }
  }

  lemma LeaderAnswerKeeps(s: Store, ok: bool)
    requires Inv(s) && Enabled(s, LeaderAnswer(ok))
    ensures Inv(Step(s, LeaderAnswer(ok)))
  {
    hide AllAtRisk;
    hide AllSince;
    hide Undurable;
    LeaderAnswerSums(s, ok);
    InvFile(s, s.leader.n);
    var u := Step(s, LeaderAnswer(ok));
    forall m: nat | m < |u.files| ensures FileOk(u, m) && (u.flush.Running? ==> Progress(u, m)) {
      assert FileOk(s, m) && (s.flush.Running? ==> Progress(s, m));
    }
  }

  /** A leader starting, or back with the lock, touches no file. */
  lemma LeaderKeeps(s: Store, e: Event)
    requires Inv(s) && Enabled(s, e) && (e.LeaderBegin? || e.LeaderBack?)
    ensures Inv(Step(s, e))
  {
    hide AllAtRisk;
    hide AllSince;
    hide Undurable;
    var u := Step(s, e);
    forall m: nat | m < |u.files| ensures FileOk(u, m) && (u.flush.Running? ==> Progress(u, m)) {
      assert FileOk(s, m) && (s.flush.Running? ==> Progress(s, m));
    }
  }

  lemma SyncEndKeeps(s: Store, dirOk: bool)
    requires Inv(s) && Enabled(s, SyncEnd(dirOk))
    ensures Inv(Step(s, SyncEnd(dirOk)))
  {
    var u := Step(s, SyncEnd(dirOk));
    if AnswersNil(s, dirOk) && s.epoch == s.flush.snapEpoch {
      RiskWithin(s.files);
      if s.perOp {
        NothingGauged(s);
      } else {
        NilMeansDurable(s, dirOk);
        forall i | 0 <= i < |s.files|
          ensures s.files[i].durable <= |s.files[i].w| && (s.files[i].live ==> s.files[i].durable >= SnapOf(s.flush.snap, 0 + i))
        {
        }
        ExposedIsSince(s.files, s.flush.snap, 0);
      }
    }
    hide AllAtRisk;
    hide AllSince;
    forall m: nat | m < |u.files| ensures FileOk(u, m) {
      assert FileOk(s, m);
    }
  }

  lemma WritesKeep(s: Store, e: Event)
    requires Inv(s) && Enabled(s, e) && (e.Append? || e.HeaderWrite?)
    ensures Inv(Step(s, e))
  {
    hide Inv;
    if e.Append? {
      assert Sum([e.bytes] + [0]) == e.bytes by {
        assert ([e.bytes] + [0])[1..] == [0] && [0][1..] == [];
      }
      assert s.files[e.n].w + [e.bytes] + [0] == s.files[e.n].w + ([e.bytes] + [0]);
      WriteKeeps(s, e.n, [e.bytes] + [0], e.bytes);
    } else {
      assert Sum([0]) == 0 by {
        assert [0][1..] == [];
      }
      WriteKeeps(s, e.n, [0], 0);
    }
  }

  /** Any append, commit, flush, eviction, reclamation or piece of a Sync, in any order, failing or not. */
  lemma StepKeeps(s: Store, e: Event)
    requires Inv(s) && Enabled(s, e)
    ensures Inv(Step(s, e))
  {
    hide Inv;
    match e
    case NewFile(synced) => NewFileKeeps(s, synced);
    case Append(_, _) => WritesKeep(s, e);
    case HeaderWrite(_) => WritesKeep(s, e);
    case FlushFile(n, ok) => FlushKeeps(s, n, ok);
    case BatchDone(dirOk) => BatchDoneKeeps(s, dirOk);
    case OpenFile(n) => HandleKeeps(s, n, s.files[n].(isOpen := true));
    case Evict(n) =>
      if s.files[n].pins == 0 {
        HandleKeeps(s, n, s.files[n].(isOpen := false));
      }
    case Reclaim(n) =>
      if s.files[n].pins == 0 {
        HandleKeeps(s, n, s.files[n].(isOpen := false, live := false));
      }
    case SyncBegin => BeginKeeps(s);
    case ChunkBegin(chunk, unopenable) => ChunkBeginKeeps(s, chunk, unopenable);
    case Fsync(n, ok) => FsyncKeeps(s, n, ok);
    case ChunkEnd => ChunkEndKeeps(s);
    case SyncEnd(dirOk) => SyncEndKeeps(s, dirOk);
    case LeaderAnswer(ok) => LeaderAnswerKeeps(s, ok);
    case LeaderBegin(_) => LeaderKeeps(s, e);
    case LeaderBack => LeaderKeeps(s, e);
  }
}
