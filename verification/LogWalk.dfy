/** commitDurable's loop, and what every one of its exits keeps. */
module LogWalk {
  import opened Ints
  import opened Log

  // ----- shape

  predicate SameSeg(a: Seg, b: Seg) {
    && a.num == b.num && a.base == b.base && a.size == b.size && a.capacity == b.capacity
    && a.written == b.written && a.ends == b.ends
  }

  ghost predicate SameShape(a: seq<Seg>, b: seq<Seg>) {
    |a| == |b| && forall i | 0 <= i < |a| :: SameSeg(a[i], b[i])
  }

  lemma {:induction false} SameLookup(a: seq<Seg>, b: seq<Seg>, off: int)
    requires SameShape(a, b)
    ensures FileFor(a, off) == FileFor(b, off)
  {
    var i, j := FirstPast(a, off), FirstPast(b, off);
    assert i < |a| ==> SameSeg(a[i], b[i]);
    assert j < |b| ==> SameSeg(a[j], b[j]);
  }

  /** What a walk never touches. */
  ghost predicate Frozen(s: St, t: St) {
    && SameShape(s.files, t.files)
    && s.reserved == t.reserved && s.writeOff == t.writeOff
    && s.lastFrameAt == t.lastFrameAt && s.lastFrameEnd == t.lastFrameEnd
    && s.nWritten == t.nWritten && s.diskBytes == t.diskBytes && s.unreclaimed == t.unreclaimed
    && s.nextNum == t.nextNum && s.segmentSize == t.segmentSize && s.maxSegments == t.maxSegments
    && s.policy == t.policy && s.maxBytes == t.maxBytes && s.lostRecords == t.lostRecords
  }

  /** Everything a header write can do. */
  lemma WriteOutcome(s: St, i: nat, ans: WriteAns)
    requires i < |s.files|
    ensures var (t, e) := WriteHeader(s, i, ans);
            && |t.files| == |s.files| && t == s.(files := s.files[i := t.files[i]], latched := t.latched)
            && var f, g := s.files[i], t.files[i];
            && (e == Nil ==> ans == Wrote && !s.latched && !t.latched && g == f.(images := f.images + [f.hdr]))
            && (e == Vanished ==> ans == WriteGone && !s.latched && !t.latched && g == f.(gone := true))
            && (e != Nil && e != Vanished ==>
                  && t.latched == (s.latched || ans != WriteFailed)
                  && g == if TornWrite(s, ans) then f.(images := f.images + [f.hdr]) else f)
  {
    assert s.files[i := s.files[i]] == s.files;
  }

  lemma PersistFrozen(s: St, i: nat, perOp: bool, env: Env)
    requires i < |s.files|
    ensures Frozen(s, Persist(s, i, perOp, env).0)
    ensures Persist(s, i, perOp, env).1 == Nil ==> Persist(s, i, perOp, env).0.commitOff == s.commitOff
  {
    WriteOutcome(Put(s, i, s.files[i].(hdr := Stamp(s, i))), i, env.persist(s.files[i].num));
    hide WriteHeader;
  }

  lemma PublishFullFrozen(s: St, i: nat, env: Env)
    requires i < |s.files|
    ensures var s1 := PublishFull(s, i, env).0;
            && SameShape(s.files, s1.files) && s1 == s.(files := s1.files, latched := s1.latched, strayed := s1.strayed)
  {
    FullOutcome(s, i, env);
    hide WriteHeader;
  }

  /** The header write inside publishFullCommit. */
  lemma FullOutcome(s: St, i: nat, env: Env)
    requires i < |s.files|
    ensures var o, f := env.fullOpen(s.files[i].num), s.files[i];
            var s0 := s.(latched := s.latched || o == OpenedLatched);
            var (t, e) := WriteHeader(Put(s0, i, f.(hdr := FullHdr(f))), i, FullAns(f, env));
            && |t.files| == |s.files| && t == s.(files := s.files[i := t.files[i]], latched := t.latched)
            && (e == Nil ==> !s0.latched && !t.latched && t.files[i] == f.(hdr := FullHdr(f), images := f.images + [FullHdr(f)]))
            && (e != Nil ==>
                  && e != Vanished && t.latched == (s0.latched || FullAns(f, env) == WriteLatched)
                  && t.files[i].images == if TornWrite(s0, FullAns(f, env)) then f.images + [FullHdr(f)] else f.images)
  {
    var f := s.files[i];
    var s0 := s.(latched := s.latched || env.fullOpen(f.num) == OpenedLatched);
    WriteOutcome(Put(s0, i, f.(hdr := FullHdr(f))), i, FullAns(f, env));
    hide WriteHeader;
  }

  lemma RetireRestFrozen(s: St, i: nat, env: Env)
    requires i < |s.files|
    ensures Frozen(s, RetireRest(s, i, env).0)
    ensures var t := RetireRest(s, i, env).0;
            t == s.(files := t.files, latched := t.latched, strayed := t.strayed, commitOff := t.commitOff,
                    nCommitted := t.nCommitted, committedTotal := t.committedTotal)
    ensures RetireRest(s, i, env).1 == Nil ==> RetireRest(s, i, env).0.commitOff == Max(s.commitOff, s.files[i].End())
    ensures RetireRest(s, i, env).1 != Nil ==> RetireRest(s, i, env).0.commitOff == s.commitOff
  {
    PublishFullFrozen(s, i, env);
    hide PublishFull;
  }

  /** In the walk the damage stands at the commit cursor, so it is retired on the spot, never deferred. */
  lemma SkipAtCursor(s: St, env: Env)
    requires FileFor(s.files, s.commitOff) >= 0
    ensures var i, r := FileFor(s.files, s.commitOff), SkipCorrupt(s, s.commitOff, env);
            var (s1, e) := RetireRest(s, i, env);
            && r.1 == e
            && (e != Nil ==> r.0 == s1)
            && (e == Nil ==>
                  var lost := s.files[i].End() - s.headOff;
                  r.0 == s1.(lostBytes := s.lostBytes + Max(lost, 0),
                             lostSegments := s.lostSegments + (if lost > 0 then 1 else 0),
                             headOff := Max(s.headOff, s.files[i].End()),
                             corruptions := s.corruptions + 1))
  {
    RetireRestFrozen(s, FileFor(s.files, s.commitOff), env);
  }

  lemma ShapeRefl(a: seq<Seg>)
    ensures SameShape(a, a)
  {
  }

  lemma CrossedFrozen(s: St, i: nat, next: int, n: int)
    requires i < |s.files|
    ensures Frozen(s, Crossed(s, i, next, n)) && Crossed(s, i, next, n).commitOff == next
  {
  }

  lemma SkipFrozen(s: St, env: Env)
    requires FileFor(s.files, s.commitOff) >= 0
    ensures Frozen(s, SkipCorrupt(s, s.commitOff, env).0)
    ensures SkipCorrupt(s, s.commitOff, env).1 == Nil ==> SkipCorrupt(s, s.commitOff, env).0.commitOff > s.commitOff
  {
    hide RetireRest;
    hide SkipCorrupt;
    SkipAtCursor(s, env);
    RetireRestFrozen(s, FileFor(s.files, s.commitOff), env);
  }

  lemma CrossFrozen(s: St, i: nat, off: int, cur: int, env: Env)
    requires FileFor(s.files, s.commitOff) == i
    ensures Frozen(s, Cross(s, i, off, cur, env).s)
    ensures Cross(s, i, off, cur, env).Go? ==> Cross(s, i, off, cur, env).s.commitOff > s.commitOff
    ensures Cross(s, i, off, cur, env).cur in {cur, i, -1}
  {
    hide SkipCorrupt;
    hide Crossed;
    hide EntryHere;
    hide FrameEnd;
    hide SameShape;
    ShapeRefl(s.files);
    var s' := s.(latched := s.latched || env.open(s.commitOff) == OpenedLatched);
    SkipFrozen(s', env);
    forall next, n ensures Frozen(s, Crossed(s, i, next, n)) && Crossed(s, i, next, n).commitOff == next {
      CrossedFrozen(s, i, next, n);
    }
    forall next, n ensures Frozen(s, Crossed(s', i, next, n)) && Crossed(s', i, next, n).commitOff == next {
      CrossedFrozen(s', i, next, n);
    }
  }

  lemma StepFrozen(s: St, off: int, perOp: bool, cur: int, env: Env)
    requires cur < |s.files|
    ensures var r := WalkStep(s, off, perOp, cur, env);
            Frozen(s, r.s) && r.cur < |r.s.files| && (r.Go? ==> r.s.commitOff > s.commitOff)
  {
    var i := FileFor(s.files, s.commitOff);
    if i >= 0 {
      if 0 <= cur != i {
        PersistFrozen(s, cur, perOp, env);
        var (s1, e) := Persist(s, cur, perOp, env);
        if e == Nil {
          SameLookup(s.files, s1.files, s.commitOff);
          CrossFrozen(s1, i, off, -1, env);
        }
      } else {
        CrossFrozen(s, i, off, cur, env);
      }
    }
  }

  /** The loop of commitDurable. */
  function Walk(s: St, off: int, perOp: bool, cur: int, env: Env): (r: Step)
    requires cur < |s.files|
    ensures r.Halt?
    decreases Max(0, off - s.commitOff)
  {
    if s.commitOff >= off then Halt(s, cur, Nil)
    else
      StepFrozen(s, off, perOp, cur, env);
      match WalkStep(s, off, perOp, cur, env)
      case Halt(s1, cur1, stop) => Halt(s1, cur1, stop)
      case Go(s1, cur1) => Walk(s1, off, perOp, cur1, env)
  }

  // ----- sums over live segments

  function SumWritten(fs: seq<Seg>): int {
    if fs == [] then 0 else fs[0].written + SumWritten(fs[1..])
  }

  function SumCommitted(fs: seq<Seg>): int {
    if fs == [] then 0 else fs[0].committed + SumCommitted(fs[1..])
  }

  function SumBytes(fs: seq<Seg>): int {
    if fs == [] then 0 else HEADER_SIZE + fs[0].capacity + SumBytes(fs[1..])
  }

  lemma {:induction false} SumsUpdate(fs: seq<Seg>, i: nat, f: Seg)
    requires i < |fs|
    ensures SumWritten(fs[i := f]) == SumWritten(fs) - fs[i].written + f.written
    ensures SumCommitted(fs[i := f]) == SumCommitted(fs) - fs[i].committed + f.committed
    ensures SumBytes(fs[i := f]) == SumBytes(fs) - fs[i].capacity + f.capacity
    decreases |fs|
  {
    if i > 0 {
      SumsUpdate(fs[1..], i - 1, f);
      assert fs[i := f][1..] == fs[1..][i - 1 := f];
    } else {
      assert fs[i := f][1..] == fs[1..];
    }
  }

  // ----- geometry

  ghost predicate Ordered(fs: seq<Seg>) {
    && (forall i | 0 <= i < |fs| :: fs[i].base >= 0 && 0 <= fs[i].size <= fs[i].capacity)
    && forall i, j | 0 <= i < j < |fs| :: fs[i].End() <= fs[j].base
  }

  /** No hole above the commit cursor, whatever survives below it. */
  ghost predicate Joined(fs: seq<Seg>, commit: int) {
    forall i | 0 < i < |fs| && fs[i].base > commit :: fs[i - 1].End() == fs[i].base
  }

  /** The tail segment ends at the write cursor, unless nothing is live and its file was reclaimed. */
  ghost predicate Covers(fs: seq<Seg>, commit: int, write: int) {
    if fs == [] then commit == write
    else
      && fs[0].base <= commit
      && (fs[|fs| - 1].End() == write || (commit == write && fs[|fs| - 1].End() <= write))
  }

  ghost predicate Within(fs: seq<Seg>, a: int, b: int) {
    exists i | 0 <= i < |fs| :: fs[i].base <= a < b <= fs[i].End()
  }

  ghost predicate Geo(s: St) {
    && Ordered(s.files) && Joined(s.files, s.commitOff) && Covers(s.files, s.commitOff, s.writeOff)
    && 0 <= s.commitOff <= s.headOff <= s.writeOff
    && (s.lastFrameEnd != 0 ==> Within(s.files, s.lastFrameAt, s.lastFrameEnd))
  }

  lemma OwnerIsUnique(fs: seq<Seg>, i: nat, off: int)
    requires Ordered(fs) && i < |fs| && fs[i].base <= off < fs[i].End()
    ensures FileFor(fs, off) == i
  {
  }

  /** fileForOffset finds the one segment owning off; between commit and write there always is one. */
  lemma FileForIsTheOwner(fs: seq<Seg>, commit: int, write: int, off: int)
    requires Ordered(fs) && Joined(fs, commit) && Covers(fs, commit, write)
    ensures forall i | 0 <= i < |fs| && fs[i].base <= off < fs[i].End() :: FileFor(fs, off) == i
    ensures commit <= off < write ==> FileFor(fs, off) >= 0
  {
    var k := FirstPast(fs, off);
    forall i | 0 <= i < |fs| && fs[i].base <= off < fs[i].End()
      ensures FileFor(fs, off) == i
    {
    }
    if commit <= off < write {
      assert fs[|fs| - 1].End() == write;
      assert k > 0 && fs[k].base > commit ==> fs[k - 1].End() == fs[k].base;
    }
  }

  lemma PosFixed(fs: seq<Seg>, i: nat, j: nat, c: int, c': int)
    requires Ordered(fs) && i < |fs| && j < |fs| && i != j
    requires fs[i].base <= c <= fs[i].End() && fs[i].base <= c' <= fs[i].End()
    ensures fs[j].Pos(c) == fs[j].Pos(c')
    ensures fs[j].size > 0 ==> (fs[j].End() <= c <==> fs[j].End() <= c')
  {
    if j < i {
      assert fs[j].End() <= fs[i].base;
    } else {
      assert fs[i].End() <= fs[j].base;
    }
  }

  // ----- memory against the headers

  /** The resident header says where commit c stands in this segment; a vanished, finished one need not. */
  predicate Resident(f: Seg, c: int) {
    || (f.gone && f.size > 0 && f.End() <= c && HEADER_SIZE <= f.hdr.commitCur <= HEADER_SIZE + f.size)
    || (f.hdr.commitCur == HEADER_SIZE + f.Pos(c) && f.hdr.writeCur == HEADER_SIZE + f.size && f.hdr.written == f.written)
  }

  /** No image ever laid down is ahead of the resident header. */
  ghost predicate Behind(f: Seg) {
    forall h <- f.images ::
      && HEADER_SIZE <= h.commitCur <= f.hdr.commitCur
      && HEADER_SIZE <= h.writeCur <= f.hdr.writeCur
  }

  ghost predicate OnDisk(f: Seg) {
    Behind(f) && (f.gone || (f.images != [] && f.images[|f.images| - 1] == f.hdr))
  }

  ghost predicate AgreeBut(fs: seq<Seg>, c: int, cur: int) {
    forall i | 0 <= i < |fs| && i != cur :: Resident(fs[i], c) && OnDisk(fs[i])
  }

  /** No header page 0 may hold stands past the commit cursor. */
  ghost predicate NotAhead(f: Seg, c: int) {
    forall h <- f.images :: h.commitCur - HEADER_SIZE <= f.Pos(c)
  }

  ghost predicate NoneAheadBut(fs: seq<Seg>, c: int, cur: int) {
    forall i | 0 <= i < |fs| && i != cur && !fs[i].gone :: NotAhead(fs[i], c)
  }

  ghost predicate Agree(s: St) {
    AgreeBut(s.files, s.commitOff, -1)
  }

  /** The file the walk is inside: its header lags, at a position the walk has passed. */
  ghost predicate Lagging(f: Seg, c: int) {
    && OnDisk(f)
    && f.hdr.writeCur == HEADER_SIZE + f.size && f.hdr.written == f.written
    && 0 <= f.hdr.commitCur - HEADER_SIZE <= c - f.base
  }

  function RollbackTo(f: Seg): int {
    f.base + f.hdr.commitCur - HEADER_SIZE
  }

  /** A walk begun at s0 stands at s with cur unwritten. */
  ghost predicate WalkInv(s0: St, s: St, cur: int, off: int) {
    var owed := s.pendingCorrupt - s0.pendingCorrupt;
    && -1 <= cur < |s.files|
    && Frozen(s0, s)
    && owed >= 0 && s.corruptions - s0.corruptions == owed
    && s0.commitOff + owed <= s.commitOff <= off
    && SumCommitted(s.files) - s.nCommitted == SumCommitted(s0.files) - s0.nCommitted
    && (off <= s0.headOff ==> s.headOff == s0.headOff && s.lostBytes == s0.lostBytes && s.lostSegments == s0.lostSegments)
    && s0.headOff <= s.headOff <= Max(s0.headOff, off)
    && (cur >= 0 ==> s0.commitOff + owed <= RollbackTo(s.files[cur]) <= off)
    && (cur >= 0 ==> s.files[cur].base <= s.commitOff <= s.files[cur].End())
    && (!s.latched ==> !s.strayed && AgreeBut(s.files, s.commitOff, cur))
    && (!s.strayed ==> NoneAheadBut(s.files, s.commitOff, cur) && (cur >= 0 ==> Lagging(s.files[cur], s.commitOff)))
  }

  lemma ShapeKeepsOrder(a: seq<Seg>, b: seq<Seg>)
    requires SameShape(a, b) && Ordered(a)
    ensures Ordered(b)
  {
    forall i | 0 <= i < |b| ensures b[i].base >= 0 && 0 <= b[i].size <= b[i].capacity {
      assert SameSeg(a[i], b[i]);
    }
    forall i, j | 0 <= i < j < |b| ensures b[i].End() <= b[j].base {
      assert SameSeg(a[i], b[i]) && SameSeg(a[j], b[j]);
    }
  }

  lemma ShapeChain(a: seq<Seg>, b: seq<Seg>, c: seq<Seg>)
    requires SameShape(a, b) && SameShape(b, c)
    ensures SameShape(a, c)
  {
    forall i | 0 <= i < |a| ensures SameSeg(a[i], c[i]) {
      assert SameSeg(a[i], b[i]) && SameSeg(b[i], c[i]);
    }
  }

  /** One file rewritten while the cursor moves within it: the others still agree. */
  lemma OthersAgree(fs: seq<Seg>, i: nat, f: Seg, c: int, c': int)
    requires Ordered(fs) && i < |fs| && fs[i].base <= c <= fs[i].End() && fs[i].base <= c' <= fs[i].End()
    requires AgreeBut(fs, c, i)
    ensures AgreeBut(fs[i := f], c', i)
  {
    forall j | 0 <= j < |fs| && j != i ensures Resident(fs[j], c') && OnDisk(fs[j]) {
      PosFixed(fs, i, j, c, c');
    }
  }

  lemma OthersBehind(fs: seq<Seg>, i: nat, f: Seg, c: int, c': int)
    requires Ordered(fs) && i < |fs| && fs[i].base <= c <= fs[i].End() && fs[i].base <= c' <= fs[i].End()
    requires NoneAheadBut(fs, c, i)
    ensures NoneAheadBut(fs[i := f], c', i)
  {
    forall j | 0 <= j < |fs| && j != i && !fs[j].gone ensures NotAhead(fs[j], c') {
      PosFixed(fs, i, j, c, c');
    }
  }

  lemma PersistOutcome(s: St, cur: nat, perOp: bool, env: Env)
    requires cur < |s.files| && s.files[cur].base <= s.commitOff <= s.files[cur].End()
    requires !s.strayed ==> Lagging(s.files[cur], s.commitOff)
    ensures var (s1, e) := Persist(s, cur, perOp, env);
            var f, f1 := s.files[cur], s1.files[cur];
            && |s1.files| == |s.files| && s1.files == s.files[cur := f1]
            && s1 == s.(files := s1.files, commitOff := s1.commitOff, nCommitted := s1.nCommitted,
                        committedTotal := s1.committedTotal, latched := s1.latched, strayed := s1.strayed)
            && s1.nCommitted - s.nCommitted == f1.committed - f.committed
            && s1.commitOff in {s.commitOff, RollbackTo(f)}
            && (e == Nil ==> s1.latched == s.latched && s1.commitOff == s.commitOff)
            && (s.latched ==> s1.latched) && (!s1.latched && !s.strayed ==> Resident(f1, s1.commitOff) && OnDisk(f1))
            && (!s1.strayed ==> !s.strayed && f.base <= s1.commitOff <= s.commitOff && NotAhead(f1, s1.commitOff))
            && (s1.strayed ==> s.strayed || s1.latched)
  {
    WriteOutcome(Put(s, cur, s.files[cur].(hdr := Stamp(s, cur))), cur, env.persist(s.files[cur].num));
    hide WriteHeader;
  }

  /** Writing out the lagging header, or failing to and going back to it, leaves every header in agreement. */
  lemma PersistKeeps(s0: St, s: St, cur: int, off: int, perOp: bool, env: Env)
    requires 0 <= cur && WalkInv(s0, s, cur, off) && Ordered(s0.files)
    ensures WalkInv(s0, Persist(s, cur, perOp, env).0, -1, off)
    ensures Persist(s, cur, perOp, env).1 == Nil ==> Persist(s, cur, perOp, env).0.latched == s.latched
  {
    hide Persist;
    hide Resident;
    hide OnDisk;
    InvShape(s0, s, cur, off);
    var (s1, e) := Persist(s, cur, perOp, env);
    PersistOutcome(s, cur, perOp, env);
    PersistFrozen(s, cur, perOp, env);
    ShapeKeepsOrder(s0.files, s.files);
    SumsUpdate(s.files, cur, s1.files[cur]);
    ShapeChain(s0.files, s.files, s1.files);
    if !s1.strayed {
      OthersBehind(s.files, cur, s1.files[cur], s.commitOff, s1.commitOff);
    }
    if !s1.latched {
      OthersAgree(s.files, cur, s1.files[cur], s.commitOff, s1.commitOff);
    }
  }

  /** Entries not yet retired lie inside one segment each. */
  ghost predicate LedgerIn(s: St) {
    forall r <- s.reserved :: r.end > s.commitOff ==> Within(s.files, r.start, r.end)
  }

  lemma WithinOwner(fs: seq<Seg>, gs: seq<Seg>, a: int, b: int, i: nat)
    requires SameShape(fs, gs) && Ordered(fs) && Within(fs, a, b) && FileFor(gs, a) == i
    ensures b <= gs[i].End()
  {
    var k :| 0 <= k < |fs| && fs[k].base <= a < b <= fs[k].End();
    assert SameSeg(fs[k], gs[k]);
    ShapeKeepsOrder(fs, gs);
    OwnerIsUnique(gs, k, a);
  }

  lemma CrossedKeeps(s0: St, s: St, i: nat, off: int, cur: int, next: int, n: int)
    requires i < |s.files| && WalkInv(s0, s, cur, off) && !s.latched && (cur == -1 || cur == i)
    requires Ordered(s.files) && s.files[i].base <= s.commitOff < next <= Min(off, s.files[i].End())
    ensures WalkInv(s0, Crossed(s, i, next, n), i, off) && !Crossed(s, i, next, n).latched
  {
    var s1 := Crossed(s, i, next, n);
    CrossedFrozen(s, i, next, n);
    ShapeChain(s0.files, s.files, s1.files);
    SumsUpdate(s.files, i, s1.files[i]);
    OthersAgree(s.files, i, s1.files[i], s.commitOff, next);
    OthersBehind(s.files, i, s1.files[i], s.commitOff, next);
  }

  /** What a quarantine starts from: a header the file has passed nothing beyond. */
  ghost predicate Stamped(f: Seg) {
    && f.hdr.writeCur == HEADER_SIZE + f.size && f.hdr.written == f.written
    && Behind(f) && HEADER_SIZE <= f.hdr.commitCur <= HEADER_SIZE + f.size
  }

  lemma PublishFullOutcome(s: St, i: nat, env: Env)
    requires i < |s.files| && !s.latched && Stamped(s.files[i])
    ensures var (s1, e) := PublishFull(s, i, env);
            var f, f1 := s.files[i], s1.files[i];
            && |s1.files| == |s.files| && s1.files == s.files[i := f1]
            && f1.committed == f.committed
            && (e == Nil ==> !s1.latched && OnDisk(f1) && (f1.gone || f1.hdr.commitCur == HEADER_SIZE + f.size))
            && (e == Nil ==> f1.hdr.writeCur == HEADER_SIZE + f.size && f1.hdr.written == f.written)
            && (e == Nil ==> s1.strayed == s.strayed) && (s1.strayed ==> s.strayed || s1.latched)
            && (e != Nil ==> f1 == f || (s1.strayed && s1.latched && RollbackTo(f1) in {RollbackTo(f), f.End()}))
  {
    assert s.files[i := s.files[i]] == s.files;
    FullOutcome(s, i, env);
    hide WriteHeader;
  }

  lemma RetireOutcome(s: St, i: nat, env: Env)
    requires i < |s.files| && !s.latched && s.files[i].base <= s.commitOff < s.files[i].End() && Stamped(s.files[i])
    ensures var (s1, e) := RetireRest(s, i, env);
            var f, f1 := s.files[i], s1.files[i];
            && |s1.files| == |s.files| && s1.files == s.files[i := f1]
            && s1 == s.(files := s1.files, latched := s1.latched, strayed := s1.strayed, commitOff := s1.commitOff,
                        nCommitted := s1.nCommitted, committedTotal := s1.committedTotal)
            && s1.nCommitted - s.nCommitted == f1.committed - f.committed && (s1.strayed ==> s.strayed || s1.latched)
            && (e == Nil ==> !s1.latched && s1.strayed == s.strayed && s1.commitOff == f.End() && Resident(f1, f.End()) && OnDisk(f1))
            && (e != Nil ==> s1 == s.(files := s1.files, latched := s1.latched, strayed := s1.strayed) && f1.committed == f.committed
                             && (f1 == f || (s1.strayed && s1.latched && RollbackTo(f1) in {RollbackTo(f), f.End()})))
  {
    PublishFullFrozen(s, i, env);
    PublishFullOutcome(s, i, env);
    hide PublishFull;
  }

  lemma RetiredKeeps(s0: St, s: St, i: nat, off: int, cur: int, t: St)
    requires i < |s.files| && WalkInv(s0, s, cur, off) && !s.latched && (cur == -1 || cur == i)
    requires Ordered(s.files) && s.files[i].base <= s.commitOff < s.files[i].End() <= off
    requires i < |t.files| && t.files == s.files[i := t.files[i]] && Frozen(s, t)
    requires Resident(t.files[i], t.commitOff) && OnDisk(t.files[i]) && t.commitOff == s.files[i].End()
    requires t.nCommitted - s.nCommitted == t.files[i].committed - s.files[i].committed && !t.strayed
    requires t.pendingCorrupt == s.pendingCorrupt + 1 && t.corruptions == s.corruptions + 1
    requires t.headOff == Max(s.headOff, t.commitOff) && t.lostBytes == s.lostBytes + Max(t.commitOff - s.headOff, 0)
    requires t.lostSegments == s.lostSegments + if t.commitOff > s.headOff then 1 else 0
    ensures WalkInv(s0, t, -1, off)
  {
    ShapeChain(s0.files, s.files, t.files);
    SumsUpdate(s.files, i, t.files[i]);
    OthersAgree(s.files, i, t.files[i], s.commitOff, t.commitOff);
    OthersBehind(s.files, i, t.files[i], s.commitOff, t.commitOff);
  }

  lemma RefusedKeeps(s0: St, s: St, i: nat, off: int, cur: int, t: St)
    requires i < |s.files| && WalkInv(s0, s, cur, off) && !s.latched && (cur == -1 || cur == i)
    requires s.files[i].End() <= off && s.commitOff <= s.files[i].End()
    requires i < |t.files| && t.files == s.files[i := t.files[i]] && SameShape(s.files, t.files)
    requires t == s.(files := t.files, latched := t.latched, strayed := t.strayed)
    requires t.files[i].committed == s.files[i].committed
    requires !t.latched ==> !t.strayed
    requires t.files[i] == s.files[i]
          || (t.strayed && t.latched && RollbackTo(t.files[i]) in {RollbackTo(s.files[i]), s.files[i].End()})
    ensures WalkInv(s0, t, cur, off)
  {
    ShapeChain(s0.files, s.files, t.files);
    SumsUpdate(s.files, i, t.files[i]);
    hide Lagging;
    if t.files[i] == s.files[i] {
      assert t.files == s.files;
    }
  }

  lemma SkippedKeeps(s0: St, s: St, i: nat, off: int, cur: int, env: Env)
    requires WalkInv(s0, s, cur, off) && !s.latched && FileFor(s.files, s.commitOff) == i && (cur == -1 || cur == i)
    requires Ordered(s.files) && s.files[i].End() <= off && RetireRest(s, i, env).1 == Nil
    ensures var (s1, e) := SkipCorrupt(s, s.commitOff, env);
            e == Nil && !s1.latched && WalkInv(s0, s1.(pendingCorrupt := s1.pendingCorrupt + 1), -1, off)
  {
    hide RetireRest;
    hide SkipCorrupt;
    hide AgreeBut;
    hide NoneAheadBut;
    StampedHere(s0, s, i, off, cur);
    RetireOutcome(s, i, env);
    SkipAtCursor(s, env);
    SkipFrozen(s, env);
    hide WalkInv;
    hide Resident;
    hide OnDisk;
    hide Frozen;
    var (s1, e) := SkipCorrupt(s, s.commitOff, env);
    FrozenAside(s, s1, s1.pendingCorrupt + 1);
    RetiredKeeps(s0, s, i, off, cur, s1.(pendingCorrupt := s1.pendingCorrupt + 1));
  }

  lemma FrozenAside(s: St, t: St, owed: nat)
    requires Frozen(s, t)
    ensures Frozen(s, t.(pendingCorrupt := owed)) && SameShape(s.files, t.files)
  {
  }

  lemma SkipRefusedKeeps(s0: St, s: St, i: nat, off: int, cur: int, env: Env)
    requires WalkInv(s0, s, cur, off) && !s.latched && FileFor(s.files, s.commitOff) == i && (cur == -1 || cur == i)
    requires Ordered(s.files) && s.files[i].End() <= off && RetireRest(s, i, env).1 != Nil
    ensures var (s1, e) := SkipCorrupt(s, s.commitOff, env);
            e != Nil && WalkInv(s0, s1, cur, off)
  {
    hide RetireRest;
    hide SkipCorrupt;
    hide AgreeBut;
    hide NoneAheadBut;
    StampedHere(s0, s, i, off, cur);
    RetireOutcome(s, i, env);
    SkipAtCursor(s, env);
    SkipFrozen(s, env);
    hide WalkInv;
    hide Frozen;
    var s1 := SkipCorrupt(s, s.commitOff, env).0;
    FrozenAside(s, s1, s1.pendingCorrupt);
    RefusedKeeps(s0, s, i, off, cur, s1);
  }

  lemma SkipKeeps(s0: St, s: St, i: nat, off: int, cur: int, env: Env)
    requires WalkInv(s0, s, cur, off) && !s.latched && FileFor(s.files, s.commitOff) == i && (cur == -1 || cur == i)
    requires Ordered(s.files) && s.files[i].End() <= off
    ensures var (s1, e) := SkipCorrupt(s, s.commitOff, env);
            && (e != Nil ==> WalkInv(s0, s1, cur, off))
            && (e == Nil ==> !s1.latched && WalkInv(s0, s1.(pendingCorrupt := s1.pendingCorrupt + 1), -1, off))
  {
    hide RetireRest;
    hide SkipCorrupt;
    hide WalkInv;
    if RetireRest(s, i, env).1 == Nil {
      SkippedKeeps(s0, s, i, off, cur, env);
    } else {
      SkipRefusedKeeps(s0, s, i, off, cur, env);
    }
  }

  lemma StampedHere(s0: St, s: St, i: nat, off: int, cur: int)
    requires WalkInv(s0, s, cur, off) && !s.latched && FileFor(s.files, s.commitOff) == i && (cur == -1 || cur == i)
    ensures Stamped(s.files[i]) && !s.strayed
  {
    if cur == -1 {
      assert Resident(s.files[i], s.commitOff) && OnDisk(s.files[i]);
    }
  }

  ghost predicate WalkPre(s: St, off: int) {
    && Ordered(s.files) && LedgerIn(s) && off <= s.writeOff
    && (s.lastFrameEnd != 0 ==> Within(s.files, s.lastFrameAt, s.lastFrameEnd))
  }

  datatype Exit = Stands | Crosses | SkipRefused | Skips

  /** What a crossing goes by, reserved or framed, ends inside the file. */
  predicate InFile(s: St, i: nat, env: Env)
    requires i < |s.files|
  {
    && (EntryHere(s).EntryAt? ==> EntryHere(s).r.end <= s.files[i].End())
    && (FrameEnd(s, s.files[i], env).End? ==> FrameEnd(s, s.files[i], env).next <= s.files[i].End())
  }

  /** The exits of one iteration. */
  ghost predicate ExitIs(x: Exit, s: St, i: nat, off: int, cur: int, env: Env, r: Step)
    requires i < |s.files|
  {
    match x
    case Stands => r.Halt? && r.cur == cur && (r.s == s || r.s == s.(latched := true))
    case Crosses =>
      && r == Go(Crossed(s, i, r.s.commitOff, r.s.nCommitted - s.nCommitted), i)
      && s.commitOff < r.s.commitOff <= off
    case SkipRefused =>
      && s.files[i].End() <= off
      && var (s1, e) := SkipCorrupt(s, s.commitOff, env);
         e != Nil && r == Halt(s1, cur, e)
    case Skips =>
      && s.files[i].End() <= off
      && var (s1, e) := SkipCorrupt(s, s.commitOff, env);
         e == Nil && r == Go(s1.(pendingCorrupt := s1.pendingCorrupt + 1), -1)
  }

  lemma CrossExit(s: St, i: nat, off: int, cur: int, env: Env) returns (x: Exit)
    requires i < |s.files| && !s.latched && FileFor(s.files, s.commitOff) == i
    ensures ExitIs(x, s, i, off, cur, env, Cross(s, i, off, cur, env))
    ensures x.Crosses? && InFile(s, i, env) ==> Cross(s, i, off, cur, env).s.commitOff <= s.files[i].End()
  {
    hide SkipCorrupt;
    hide FrameEnd;
    hide EntryHere;
    assert s.(latched := s.latched) == s;
    var r := Cross(s, i, off, cur, env);
    if r.Go? {
      return if r.cur == i then Crosses else Skips;
    }
    return if ExitIs(Stands, s, i, off, cur, env, r) then Stands else SkipRefused;
  }

  /** The boundaries a walk takes on trust, cached or reserved, stay inside the segment it is in. */
  lemma BoundariesInFile(s0: St, s: St, i: nat, off: int, env: Env)
    requires WalkPre(s0, off) && Frozen(s0, s) && s0.commitOff <= s.commitOff
    requires FileFor(s.files, s.commitOff) == i
    ensures InFile(s, i, env)
  {
    var e := EntryHere(s);
    if e.EntryAt? {
      assert e.r in s0.reserved;
      WithinOwner(s0.files, s.files, e.r.start, e.r.end, i);
    }
    if s.lastFrameEnd != 0 && s.lastFrameAt == s.commitOff {
      WithinOwner(s0.files, s.files, s.lastFrameAt, s.lastFrameEnd, i);
    }
  }

  lemma InvShape(s0: St, s: St, cur: int, off: int)
    requires WalkInv(s0, s, cur, off) && Ordered(s0.files)
    ensures Frozen(s0, s) && Ordered(s.files) && -1 <= cur < |s.files| && s0.commitOff <= s.commitOff
    ensures WalkInv(s0, s.(latched := true), cur, off)
  {
    ShapeKeepsOrder(s0.files, s.files);
  }

  lemma ExitInWalk(s0: St, s: St, i: nat, off: int, cur: int, env: Env) returns (x: Exit)
    requires WalkPre(s0, off) && WalkInv(s0, s, cur, off) && !s.latched && FileFor(s.files, s.commitOff) == i
    ensures Ordered(s.files) && ExitIs(x, s, i, off, cur, env, Cross(s, i, off, cur, env))
    ensures x.Crosses? ==> Cross(s, i, off, cur, env).s.commitOff <= s.files[i].End()
    ensures WalkInv(s0, s.(latched := true), cur, off)
  {
    InvShape(s0, s, cur, off);
    BoundariesInFile(s0, s, i, off, env);
    x := CrossExit(s, i, off, cur, env);
  }

  lemma CrossKeeps(s0: St, s: St, i: nat, off: int, cur: int, env: Env)
    requires WalkPre(s0, off) && WalkInv(s0, s, cur, off) && !s.latched && s.commitOff < off
    requires FileFor(s.files, s.commitOff) == i && (cur == -1 || cur == i)
    ensures var r := Cross(s, i, off, cur, env);
            WalkInv(s0, r.s, r.cur, off) && (r.Go? ==> !r.s.latched)
  {
    hide Cross;
    hide SkipCorrupt;
    hide WalkInv;
    hide WalkPre;
    hide Crossed;
    hide Ordered;
    var x := ExitInWalk(s0, s, i, off, cur, env);
    var r := Cross(s, i, off, cur, env);
    if x.Crosses? {
      CrossedKeeps(s0, s, i, off, cur, r.s.commitOff, r.s.nCommitted - s.nCommitted);
    } else if !x.Stands? {
      SkipKeeps(s0, s, i, off, cur, env);
    }
  }

  lemma StepKeeps(s0: St, s: St, off: int, perOp: bool, cur: int, env: Env)
    requires WalkPre(s0, off) && WalkInv(s0, s, cur, off) && !s.latched && s.commitOff < off
    ensures var r := WalkStep(s, off, perOp, cur, env);
            WalkInv(s0, r.s, r.cur, off) && (r.Go? ==> !r.s.latched)
  {
    hide WalkInv;
    hide Cross;
    InvShape(s0, s, cur, off);
    var i := FileFor(s.files, s.commitOff);
    if i >= 0 {
      if 0 <= cur != i {
        PersistKeeps(s0, s, cur, off, perOp, env);
        PersistFrozen(s, cur, perOp, env);
        var (s1, e) := Persist(s, cur, perOp, env);
        if e == Nil {
          SameLookup(s.files, s1.files, s.commitOff);
          CrossKeeps(s0, s1, i, off, -1, env);
        }
      } else {
        CrossKeeps(s0, s, i, off, cur, env);
      }
    }
  }

  /** Every exit of the loop: never past its target, memory and headers in agreement but for the file to write. */
  lemma {:induction false} WalkKeeps(s0: St, s: St, off: int, perOp: bool, cur: int, env: Env)
    requires WalkPre(s0, off) && WalkInv(s0, s, cur, off) && !s.latched
    ensures var r := Walk(s, off, perOp, cur, env);
            WalkInv(s0, r.s, r.cur, off)
    decreases Max(0, off - s.commitOff)
  {
    InvShape(s0, s, cur, off);
    if s.commitOff < off {
      StepKeeps(s0, s, off, perOp, cur, env);
      StepFrozen(s, off, perOp, cur, env);
      hide WalkInv;
      hide WalkPre;
      hide WalkStep;
      hide Frozen;
      match WalkStep(s, off, perOp, cur, env) {
        case Halt(s1, cur1, _) =>
        case Go(s1, cur1) => WalkKeeps(s0, s1, off, perOp, cur1, env);
      }
    }
  }
}
