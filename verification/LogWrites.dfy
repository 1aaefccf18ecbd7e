/** publishSpan and cycle: what they keep, and the one refusal that strands the log. */
module LogWrites {
  import opened Log
  import opened LogWalk
  import opened LogCommit
  import opened LogOps
  import opened LogSafety

  ghost predicate Attached(s: St) {
    s.files != [] ==> s.files[|s.files| - 1].End() == s.writeOff
  }

  lemma {:induction false} SumsAppend(fs: seq<Seg>, f: Seg)
    ensures SumWritten(fs + [f]) == SumWritten(fs) + f.written
    ensures SumCommitted(fs + [f]) == SumCommitted(fs) + f.committed
    ensures SumBytes(fs + [f]) == SumBytes(fs) + HEADER_SIZE + f.capacity
  {
    if fs != [] {
      SumsAppend(fs[1..], f);
      assert (fs + [f])[1..] == fs[1..] + [f];
    }
  }

  /** The active segment after a span of n bytes is published into it. */
  lemma TailGrowsGeo(s: St, f: Seg, n: nat)
    requires Geo(s) && Attached(s) && s.files != []
    requires var l := s.files[|s.files| - 1]; f.base == l.base && f.size == l.size + n <= f.capacity
    ensures Geo(s.(files := s.files[|s.files| - 1 := f], writeOff := s.writeOff + n))
  {
    hide Within;
    var gs := s.files[|s.files| - 1 := f];
    forall i | 0 < i < |gs| && gs[i].base > s.commitOff ensures gs[i - 1].End() == gs[i].base {
      assert s.files[i].base > s.commitOff;
    }
    if s.lastFrameEnd != 0 {
      TailGrowsWithin(s.files, f, s.lastFrameAt, s.lastFrameEnd);
    }
  }

  lemma TailGrowsWithin(fs: seq<Seg>, f: Seg, a: int, b: int)
    requires fs != [] && f.base == fs[|fs| - 1].base && f.size >= fs[|fs| - 1].size && Within(fs, a, b)
    ensures Within(fs[|fs| - 1 := f], a, b)
  {
    var i :| 0 <= i < |fs| && fs[i].base <= a < b <= fs[i].End();
    var gs := fs[|fs| - 1 := f];
    assert gs[i].base <= a < b <= gs[i].End();
  }

  /** What a produce operation leaves alone, for the ledger and the accounts. */
  ghost predicate Undisturbed(s: St, t: St) {
    && t.commitOff == s.commitOff && t.headOff == s.headOff && t.writeOff >= s.writeOff
    && t.reserved == s.reserved && t.pendingCorrupt == s.pendingCorrupt
    && t.corruptions == s.corruptions && t.lostBytes == s.lostBytes
  }

  lemma UndisturbedKeepsSafe(s: St, t: St, out: Extents)
    requires Undisturbed(s, t) && Safe(s, out)
    ensures Safe(t, out)
  {
  }

  lemma TailAgrees(fs: seq<Seg>, lens: seq<nat>, c: int)
    requires fs != [] && AgreeBut(fs, c, -1) && c <= fs[|fs| - 1].End() && !fs[|fs| - 1].gone && fs[|fs| - 1].size >= 0
    ensures var g := Grown(fs[|fs| - 1], lens);
            AgreeBut(fs[|fs| - 1 := g.(images := g.images + [g.hdr])], c, -1)
  {
    var g := Grown(fs[|fs| - 1], lens);
    var gs := fs[|fs| - 1 := g.(images := g.images + [g.hdr])];
    forall j | 0 <= j < |gs| ensures Resident(gs[j], c) && OnDisk(gs[j]) {
      assert Resident(fs[j], c) && OnDisk(fs[j]);
    }
  }

  function Published(s: St, lens: seq<nat>): St
    requires s.files != []
  {
    var g := Grown(s.files[|s.files| - 1], lens);
    Put(s, |s.files| - 1, g.(images := g.images + [g.hdr])).(
      writeOff := s.writeOff + SumLens(lens), nWritten := s.nWritten + |lens|)
  }

  lemma GeoEnds(s: St)
    requires Geo(s) && s.files != []
    ensures s.files[|s.files| - 1].size >= 0 && s.commitOff <= s.headOff <= s.writeOff
  {
  }

  lemma PublishedInv(s: St, lens: seq<nat>)
    requires Inv(s) && Attached(s) && !NeedsCycle(s, SumLens(lens)) && !s.latched && !s.files[|s.files| - 1].gone
    ensures Inv(Published(s, lens)) && Attached(Published(s, lens))
  {
    hide Geo;
    hide AgreeBut;
    hide Within;
    hide SumLens;
    assert !s.strayed;
    GeoEnds(s);
    var t := Published(s, lens);
    var f2 := t.files[|s.files| - 1];
    TailGrowsGeo(s, f2, SumLens(lens));
    GeoIsGeometry(s.(files := t.files, writeOff := t.writeOff), t);
    SumsUpdate(s.files, |s.files| - 1, f2);
    forall r <- t.reserved | r.end > t.commitOff ensures Within(t.files, r.start, r.end) {
      TailGrowsWithin(s.files, f2, r.start, r.end);
    }
    TailAgrees(s.files, lens, s.commitOff);
    AgreeTracks(t);
    hide Tracks;
  }

  lemma GeoIsGeometry(s: St, t: St)
    requires Geo(s) && t.files == s.files && t.writeOff == s.writeOff && t.commitOff == s.commitOff && t.headOff == s.headOff
    requires t.lastFrameAt == s.lastFrameAt && t.lastFrameEnd == s.lastFrameEnd
    ensures Geo(t)
  {
  }

  lemma PublishOutcome(s: St, lens: seq<nat>, ans: WriteAns)
    requires s.files != []
    ensures var (t, e) := PublishSpan(s, lens, ans);
            if e == Nil then !s.latched && !s.files[|s.files| - 1].gone && t == Published(s, lens)
            else |t.files| == |s.files| && t == Unpublished(s, t.files[|s.files| - 1], t.latched) && (s.latched ==> t.latched)
                 && RefusedTail(s.files[|s.files| - 1], t.files[|s.files| - 1], !s.latched && t.latched)
  {
    hide SumLens;
    hide EndsAfter;
    var n := |s.files| - 1;
    var (t, e) := PublishSpan(s, lens, ans);
    if !s.files[n].gone {
      WriteOutcome(Lengthened(s, lens), n, ans);
    }
    hide WriteHeader;
    if e != Nil {
      assert t.files == Unpublished(s, t.files[n], t.latched).files;
    } else {
      assert t.files == Published(s, lens).files;
    }
  }

  /** The tail after a publication that failed: found missing, or with a header in page 0 that leaves the
      commit cursor where it was. */
  ghost predicate RefusedTail(f: Seg, g: Seg, tore: bool) {
    && g == f.(gone := g.gone, images := g.images, torn := g.torn) && (f.gone ==> g.gone) && (!tore ==> g.torn == f.torn)
    && (g.images == f.images
        || (tore && !f.gone && g.images != [] && g.images[|g.images| - 1].commitCur == f.hdr.commitCur
            && g.images[..|g.images| - 1] == f.images))
  }

  function Unpublished(s: St, g: Seg, latched: bool): St
    requires s.files != []
  {
    Put(s, |s.files| - 1, g).(latched := latched)
  }

  lemma RefusedTracks(s: St, g: Seg, latched: bool)
    requires Inv(s) && s.files != [] && (s.latched ==> latched) && RefusedTail(s.files[|s.files| - 1], g, !s.latched && latched)
    ensures Tracks(Unpublished(s, g, latched))
  {
    var n := |s.files| - 1;
    var f, t := s.files[n], Unpublished(s, g, latched);
    if !s.strayed && !g.gone && g.images != f.images {
      assert Resident(f, s.commitOff);
    }
    forall i | 0 <= i < |t.files| && !t.files[i].gone && !t.strayed ensures NotAhead(t.files[i], t.commitOff) {
      assert NotAhead(s.files[i], s.commitOff);
    }
  }

  lemma UnpublishedInv(s: St, g: Seg, latched: bool)
    requires Inv(s) && s.files != [] && (s.latched ==> latched) && RefusedTail(s.files[|s.files| - 1], g, !s.latched && latched)
    ensures Inv(Unpublished(s, g, latched))
  {
    var n := |s.files| - 1;
    var f := s.files[n];
    var plain := f.(gone := g.gone);
    RefusedTracks(s, g, latched);
    ReplacedInv(s, n, plain);
    InvLatch(Put(s, n, plain), latched);
    hide Inv;
    hide Tracks;
    var t := Unpublished(s, plain, latched);
    assert t.files[n := g] == s.files[n := g];
    assert !latched ==> g == plain;
    SameBooks(t, n, g);
  }

  /** The images a file has, and what tore behind it, matter to nothing but Agree and Tracks. */
  lemma SameBooks(s: St, i: nat, g: Seg)
    requires Inv(s) && i < |s.files| && g == s.files[i].(images := g.images, torn := g.torn)
    requires !s.latched ==> g == s.files[i]
    requires Tracks(Put(s, i, g))
    ensures Inv(Put(s, i, g))
  {
    hide Geo;
    hide AgreeBut;
    hide Within;
    hide Tracks;
    var t := Put(s, i, g);
    GeoCursors(s);
    ShapeKeepsGeo(s, t);
    SumsUpdate(s.files, i, g);
    forall r <- t.reserved | r.end > t.commitOff ensures Within(t.files, r.start, r.end) {
      WithinSameShape(s.files, t.files, r.start, r.end);
    }
    if !s.latched {
      assert t.files == s.files;
    }
  }

  lemma PublishKeepsWithin(s: St, lens: seq<nat>, ans: WriteAns, a: int, b: int)
    requires Within(s.files, a, b)
    ensures Within(PublishSpan(s, lens, ans).0.files, a, b)
  {
    PublishOutcome(s, lens, ans);
    var (t, e) := PublishSpan(s, lens, ans);
    hide PublishSpan;
    TailGrowsWithin(s.files, t.files[|s.files| - 1], a, b);
  }

  /** A span published, refused or torn: the invariant stands as long as the active segment is the stream's tail. */
  lemma PublishKeeps(s: St, lens: seq<nat>, ans: WriteAns)
    requires Inv(s) && Attached(s) && !NeedsCycle(s, SumLens(lens))
    ensures var (t, e) := PublishSpan(s, lens, ans);
            && Inv(t) && Attached(t) && Undisturbed(s, t)
            && t.writeOff == s.writeOff + (if e == Nil then SumLens(lens) else 0)
            && t.nWritten == s.nWritten + (if e == Nil then |lens| else 0)
  {
    hide Inv;
    hide PublishSpan;
    PublishOutcome(s, lens, ans);
    var (t, e) := PublishSpan(s, lens, ans);
    if e == Nil {
      PublishedInv(s, lens);
    } else {
      UnpublishedInv(s, t.files[|s.files| - 1], t.latched);
    }
  }

  /** The condition is exact: published into a segment that is not the tail, the layout is wrong for good. */
  lemma PublishNeedsTheTail(s: St, lens: seq<nat>, ans: WriteAns)
    requires Inv(s) && !NeedsCycle(s, SumLens(lens)) && SumLens(lens) > 0 && PublishSpan(s, lens, ans).1 == Nil
    ensures Geo(PublishSpan(s, lens, ans).0) <==> Attached(s)
  {
    PublishOutcome(s, lens, ans);
    if Attached(s) {
      PublishedInv(s, lens);
    }
  }

  // ----- cycle

  lemma NewSegKeeps(d: St, need: nat, latched: bool)
    requires Inv(d)
    ensures var f := NewSeg(d, need);
            var t := d.(files := d.files + [f], nextNum := d.nextNum + 1,
                        diskBytes := d.diskBytes + HEADER_SIZE + f.capacity, latched := d.latched || latched);
            Inv(t) && Attached(t)
  {
    var f := NewSeg(d, need);
    var t := d.(files := d.files + [f], nextNum := d.nextNum + 1,
                diskBytes := d.diskBytes + HEADER_SIZE + f.capacity, latched := d.latched || latched);
    NewSegGeo(d, f, t);
    SumsAppend(d.files, f);
    forall r <- t.reserved | r.end > t.commitOff ensures Within(t.files, r.start, r.end) {
      WithinPrefix(d.files, f, r.start, r.end);
    }
    forall j | 0 <= j < |t.files| && !t.latched ensures Resident(t.files[j], t.commitOff) && OnDisk(t.files[j]) {
      if j < |d.files| {
        assert t.files[j] == d.files[j];
      }
    }
    hide Geo;
    hide Resident;
  }

  lemma WithinPrefix(fs: seq<Seg>, f: Seg, a: int, b: int)
    requires Within(fs, a, b)
    ensures Within(fs + [f], a, b)
  {
    var i :| 0 <= i < |fs| && fs[i].base <= a < b <= fs[i].End();
    assert (fs + [f])[i] == fs[i];
  }

  lemma NewSegGeo(d: St, f: Seg, t: St)
    requires Geo(d) && f.base == d.writeOff && f.size == 0 <= f.capacity
    requires t.files == d.files + [f] && t.writeOff == d.writeOff && t.commitOff == d.commitOff && t.headOff == d.headOff
    requires t.lastFrameAt == d.lastFrameAt && t.lastFrameEnd == d.lastFrameEnd
    ensures Geo(t)
  {
    var n := |d.files|;
    forall i, j | 0 <= i < j < |t.files| ensures t.files[i].End() <= t.files[j].base {
      if j == n {
        LastEndsLast(d.files, d.files[i]);
      }
    }
    if t.lastFrameEnd != 0 {
      WithinPrefix(d.files, f, t.lastFrameAt, t.lastFrameEnd);
    }
  }

  /** cycle keeps the invariant whatever fails; a segment that was created is the tail. */
  lemma CycleKeeps(s: St, need: nat, force: bool, a: AppendEnv)
    requires Inv(s)
    ensures var (t, e) := Cycle(s, need, force, a);
            && Inv(t) && Undisturbed(s, t) && t.writeOff == s.writeOff
            && (e == Nil || e == IOErr ==> Attached(t) && t.files != [])
            && (e == Nil ==> !t.latched && !NeedsCycle(t, need))
  {
    hide Inv;
    hide DropCommitted;
    hide NewSeg;
    DropKeepsInv(s, -1, a.drop);
    var d := DropCommitted(s, -1, a.drop);
    NewSegKeeps(d, need, a.create == CreatedLatched);
    NewSegFits(d, need);
  }

  lemma NewSegFits(d: St, need: nat)
    ensures NewSeg(d, need).size + need <= NewSeg(d, need).capacity
  {
  }

  lemma CycleKeepsWithin(s: St, need: nat, force: bool, x: AppendEnv, a: int, b: int)
    requires Within(s.files, a, b) && b > s.commitOff
    ensures Within(Cycle(s, need, force, x).0.files, a, b)
  {
    DropKeepsWithin(s, -1, x.drop, a, b);
    hide DropCommitted;
    var d := DropCommitted(s, -1, x.drop);
    WithinPrefix(d.files, NewSeg(d, need), a, b);
  }

  /** Where the newest file that reclamation would leave behind ends, or -1. */
  function NewestStuckEnd(fs: seq<Seg>, env: Env): int {
    if fs == [] then -1
    else if Stuck(fs[|fs| - 1], env) then fs[|fs| - 1].End()
    else NewestStuckEnd(fs[..|fs| - 1], env)
  }

  lemma {:induction false} ReclaimAllSnoc(fs: seq<Seg>, f: Seg, upTo: int, keep: int, env: Env)
    requires keep < 0 && forall g <- fs + [f] :: g.End() <= upTo
    ensures Reclaim(fs + [f], upTo, keep, env).files
         == Reclaim(fs, upTo, keep, env).files + (if Stuck(f, env) then [f] else [])
    decreases |fs|
  {
    if fs == [] {
      assert fs + [f] == [f];
      assert Reclaim([f][1..], upTo, keep - 1, env).files == [];
    } else {
      assert (fs + [f])[1..] == fs[1..] + [f];
      assert forall g <- fs[1..] + [f] :: g in fs + [f];
      ReclaimAllSnoc(fs[1..], f, upTo, keep - 1, env);
    }
  }

  lemma {:induction false} NewestStuckSurvives(fs: seq<Seg>, upTo: int, env: Env)
    requires forall g <- fs :: g.End() <= upTo && g.End() >= 0
    ensures var gs := Reclaim(fs, upTo, -1, env).files;
            if gs == [] then NewestStuckEnd(fs, env) == -1 else NewestStuckEnd(fs, env) == gs[|gs| - 1].End()
    decreases |fs|
  {
    if fs != [] {
      var init, f := fs[..|fs| - 1], fs[|fs| - 1];
      assert fs == init + [f];
      NewestStuckSurvives(init, upTo, env);
      ReclaimAllSnoc(init, f, upTo, -1, env);
    }
  }

  /** Exactly when a refused cycle strands the log: everything is committed and the newest file it could not
      reclaim ends short of the write cursor. */
  lemma CycleStrandsExactlyWhen(s: St, need: nat, force: bool, a: AppendEnv)
    requires Inv(s) && Attached(s) && s.files != []
    requires Cycle(s, need, force, a).1 == Full || Cycle(s, need, force, a).1 == Retry
    ensures Attached(Cycle(s, need, force, a).0) <==>
            !(s.commitOff == s.writeOff && 0 <= NewestStuckEnd(s.files, a.drop) < s.writeOff)
  {
    hide Reclaim;
    hide DropCommitted;
    hide Inv;
    CycleRefused(s, need, force, a);
    if s.commitOff == s.writeOff {
      AllCommittedTail(s, a.drop);
    } else {
      BacklogKeepsTail(s, a.drop);
    }
  }

  lemma CycleRefused(s: St, need: nat, force: bool, a: AppendEnv)
    requires Cycle(s, need, force, a).1 == Full || Cycle(s, need, force, a).1 == Retry
    ensures Cycle(s, need, force, a).0 == DropCommitted(s, -1, a.drop)
  {
  }

  lemma BacklogKeepsTail(s: St, env: Env)
    requires Inv(s) && Attached(s) && s.files != [] && s.commitOff != s.writeOff
    ensures Attached(DropCommitted(s, -1, env))
  {
    hide Reclaim;
    ReclaimKeepsLast(s.files, s.commitOff, -1, env);
  }

  lemma AllCommittedTail(s: St, env: Env)
    requires Inv(s) && s.files != [] && s.commitOff == s.writeOff
    ensures var d := DropCommitted(s, -1, env);
            && d.writeOff == s.writeOff
            && if d.files == [] then NewestStuckEnd(s.files, env) == -1
               else 0 <= d.files[|d.files| - 1].End() == NewestStuckEnd(s.files, env) <= s.writeOff
  {
    hide Reclaim;
    assert Ordered(s.files) && s.files[|s.files| - 1].End() <= s.writeOff;
    forall g <- s.files ensures g.End() <= s.commitOff && g.End() >= 0 {
      LastEndsLast(s.files, g);
    }
    NewestStuckSurvives(s.files, s.commitOff, env);
    ReclaimSubset(s.files, s.commitOff, -1, env);
    assert s.files[0] in s.files;
    var d := DropCommitted(s, -1, env);
    if d.files != [] {
      assert d.files[|d.files| - 1] in s.files;
    }
  }

  // ----- append

  lemma AppendKeeps(s: St, len: nat, force: bool, a: AppendEnv)
    requires Inv(s) && (Attached(s) || NeedsCycle(s, len))
    ensures Inv(Append(s, len, force, a).0) && Undisturbed(s, Append(s, len, force, a).0)
  {
    hide Inv;
    hide Attached;
    hide Cycle;
    hide PublishSpan;
    CycleKeeps(s, len, force, a);
    var (c, e) := if NeedsCycle(s, len) then Cycle(s, len, force, a) else (s, Nil);
    if !s.latched && e == Nil {
      LatchInv(c, a.opens == OpenedLatched);
      var o := c.(latched := a.opens == OpenedLatched);
      assert SumLens([len]) == len;
      PublishKeeps(o, [len], a.header);
      LatchKeeps(PublishSpan(o, [len], a.header).0, true, {});
      LatchKeeps(o, true, {});
    }
  }

  lemma LatchInv(c: St, latched: bool)
    requires Inv(c)
    ensures !c.latched ==> Inv(c.(latched := latched))
    ensures Attached(c) ==> Attached(c.(latched := latched))
  {
  }

  lemma AppendKeepsWithin(s: St, len: nat, force: bool, x: AppendEnv, a: int, b: int)
    requires Within(s.files, a, b) && b > s.commitOff
    ensures Within(Append(s, len, force, x).0.files, a, b)
  {
    hide Within;
    hide Cycle;
    hide PublishSpan;
    CycleKeepsWithin(s, len, force, x, a, b);
    var (c, e) := if NeedsCycle(s, len) then Cycle(s, len, force, x) else (s, Nil);
    PublishKeepsWithin(c.(latched := x.opens == OpenedLatched), [len], x.header, a, b);
  }

  // ----- published anywhere: the segments stay in order and inside the stream

  ghost predicate Placed(fs: seq<Seg>, write: int) {
    Ordered(fs) && forall f <- fs :: f.End() <= write
  }

  lemma PlacedAlike(fs: seq<Seg>, gs: seq<Seg>, write: int)
    requires Placed(fs, write) && SameShape(fs, gs)
    ensures Placed(gs, write)
  {
    ShapeKeepsOrder(fs, gs);
    forall g <- gs ensures g.End() <= write {
      var i :| 0 <= i < |gs| && gs[i] == g;
      assert SameSeg(fs[i], gs[i]) && fs[i] in fs;
    }
  }

  lemma DropPlaced(s: St, keep: int, env: Env)
    requires Placed(s.files, s.writeOff)
    ensures Placed(DropCommitted(s, keep, env).files, s.writeOff)
  {
    hide Reclaim;
    ReclaimSubset(s.files, s.commitOff, keep, env);
    ReclaimKeepsOrder(s.files, s.commitOff, keep, env);
  }

  lemma StartPlaced(d: St, need: nat, ans: CreateAns)
    requires Placed(d.files, d.writeOff) && 0 <= d.writeOff
    ensures Placed(StartSegment(d, need, ans).0.files, d.writeOff)
  {
    if ans != CreateFailed {
      var t := StartSegment(d, need, ans).0;
      forall i | 0 <= i < |t.files| - 1 ensures t.files[i] == d.files[i] && t.files[i] in d.files {
      }
    }
  }

  lemma CyclePlaced(s: St, need: nat, force: bool, a: AppendEnv)
    requires Placed(s.files, s.writeOff) && 0 <= s.writeOff
    ensures var (t, e) := Cycle(s, need, force, a);
            Placed(t.files, t.writeOff) && t.writeOff == s.writeOff && (e == Nil ==> !NeedsCycle(t, need))
  {
    hide Placed;
    hide DropCommitted;
    DropPlaced(s, -1, a.drop);
    DropLeaves(s, -1, a.drop);
    StartPlaced(DropCommitted(s, -1, a.drop), need, a.create);
    NewSegFits(DropCommitted(s, -1, a.drop), need);
  }

  lemma PublishedTail(s: St, lens: seq<nat>, ans: WriteAns)
    requires s.files != []
    ensures var t := PublishSpan(s, lens, ans).0;
            && Undisturbed(s, t) && (s.latched ==> t.latched) && |t.files| == |s.files|
            && var n := |s.files| - 1;
               && t.files == s.files[n := t.files[n]]
               && var f, g := s.files[n], t.files[n];
                  && g.base == f.base && g.capacity == f.capacity && g.hdr.commitCur == f.hdr.commitCur
                  && g.size - f.size == t.writeOff - s.writeOff && g.size in {f.size, f.size + SumLens(lens)}
  {
    PublishOutcome(s, lens, ans);
    hide PublishSpan;
  }

  lemma NothingPublished(s: St, lens: seq<nat>, ans: WriteAns)
    requires s.files == []
    ensures PublishSpan(s, lens, ans).0 == s
  {
  }

  lemma TailPlaced(fs: seq<Seg>, gs: seq<Seg>, write: int, write': int)
    requires Placed(fs, write) && fs != [] && |gs| == |fs| && gs == fs[|fs| - 1 := gs[|fs| - 1]] && write <= write'
    requires var f, g := fs[|fs| - 1], gs[|fs| - 1];
             g.base == f.base && f.size <= g.size <= g.capacity && g.size - f.size <= write' - write
    ensures Placed(gs, write')
  {
    forall g <- gs ensures g.End() <= write' {
      var i :| 0 <= i < |gs| && gs[i] == g;
      assert fs[i] in fs;
    }
  }

  lemma PublishPlaced(s: St, lens: seq<nat>, ans: WriteAns)
    requires Placed(s.files, s.writeOff) && (s.files == [] || !NeedsCycle(s, SumLens(lens)))
    ensures Placed(PublishSpan(s, lens, ans).0.files, PublishSpan(s, lens, ans).0.writeOff)
  {
    hide PublishSpan;
    if s.files == [] {
      NothingPublished(s, lens, ans);
    } else {
      PublishedTail(s, lens, ans);
      assert s.files[|s.files| - 1].size <= s.files[|s.files| - 1].capacity;
      hide Placed;
      var t := PublishSpan(s, lens, ans).0;
      TailPlaced(s.files, t.files, s.writeOff, t.writeOff);
    }
  }

  /** An append, into the tail or into a segment a refused cycle left behind. */
  lemma AppendPlaced(s: St, len: nat, force: bool, a: AppendEnv)
    requires Placed(s.files, s.writeOff) && 0 <= s.writeOff
    ensures Placed(Append(s, len, force, a).0.files, Append(s, len, force, a).0.writeOff)
  {
    hide Placed;
    hide Cycle;
    hide PublishSpan;
    CyclePlaced(s, len, force, a);
    var (c, e) := if NeedsCycle(s, len) then Cycle(s, len, force, a) else (s, Nil);
    if e == Nil {
      assert SumLens([len]) == len;
      PublishPlaced(c.(latched := a.opens == OpenedLatched), [len], a.header);
    }
  }
}
