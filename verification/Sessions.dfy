/** From one session to the next: the store load returns, its counts, and any number of sessions in a row. */
module Sessions {
  import opened Log
  import opened LogWalk
  import opened LogCommit
  import opened LogWrites
  import opened LogRuns
  import opened LogCounts
  import opened Reopen
  import B = Bytes
  import F = Frame
  import O = Open
  import R = Recovery

  // ----- the fields load leaves, as a store

  function SegsOf(files: seq<R.Loaded>, bases: seq<int>, laid: Layout, commit: int, num: nat): (fs: seq<Seg>)
    requires |files| == |bases| == |laid|
    ensures |fs| == |files|
    decreases |files|
  {
    if files == [] then []
    else
      var l := files[0];
      var h := Hdr(HEADER_SIZE + Clamp(commit - bases[0], l.size), HEADER_SIZE + l.size, l.written, l.committed);
      [Seg(num, bases[0], l.size, l.capacity, l.written, l.committed, h, [h], false, 0, laid[0], [])]
      + SegsOf(files[1..], bases[1..], laid[1..], commit, num + 1)
  }

  function StoreOf(o: O.Opening, laid: Layout, maxSegments: nat, policy: Policy): St
    reads o
    requires |o.files| == |o.bases| == |laid|
  {
    St(SegsOf(o.files, o.bases, laid, o.commitOff, 1), o.commitOff, o.headOff, o.writeOff, [],
       o.nWritten, o.nCommitted, 0, false, false,
       o.pendingCorrupt, o.booked.corruptions, o.booked.lostBytes, o.booked.lostRecords, o.booked.lostSegments,
       0, 0, o.diskBytes, 0, |o.files| + 1, o.segSize, maxSegments, policy, 0)
  }

  ghost predicate Reconciles(files: seq<R.Loaded>, ls: seq<R.Loaded>, bases: seq<int>, base: int, commit: int) {
    && |files| == |ls| == |bases|
    && forall i | 0 <= i < |ls| ::
         bases[i] == R.BaseOf(ls, base, i) && files[i] == ls[i].(committed := R.Reconciled(ls[i], bases[i], commit))
  }

  lemma ReconcilesTail(files: seq<R.Loaded>, ls: seq<R.Loaded>, bases: seq<int>, base: int, commit: int)
    requires Reconciles(files, ls, bases, base, commit) && ls != []
    ensures bases[0] == base && files[0] == ls[0].(committed := R.Reconciled(ls[0], base, commit))
    ensures Reconciles(files[1..], ls[1..], bases[1..], base + ls[0].size, commit)
  {
    forall i | 0 <= i < |ls| - 1
      ensures bases[1..][i] == R.BaseOf(ls[1..], base + ls[0].size, i)
      ensures files[1..][i] == ls[1..][i].(committed := R.Reconciled(ls[1..][i], bases[1..][i], commit))
    {
      assert bases[i + 1] == R.BaseOf(ls, base, i + 1);
    }
  }

  /** The loops' fields, segment by segment and in sum. */
  lemma {:induction false} FieldsAreRebuilt(
    files: seq<R.Loaded>, ls: seq<R.Loaded>, bases: seq<int>, laid: Layout, base: int, commit: int, num: nat)
    requires Reconciles(files, ls, bases, base, commit) && |laid| == |ls|
    ensures var fs := Rebuilt(ls, laid, base, commit, num);
            && SegsOf(files, bases, laid, commit, num) == fs
            && SumWritten(fs) == O.SumWritten(ls) && SumCommitted(fs) == O.SumCommitted(files) && SumBytes(fs) == O.SumBytes(ls)
    decreases |ls|
  {
    if ls != [] {
      hide Reconciles;
      ReconcilesTail(files, ls, bases, base, commit);
      FieldsAreRebuilt(files[1..], ls[1..], bases[1..], laid[1..], base + ls[0].size, commit, num + 1);
      RebuiltUnfolds(ls, laid, base, commit, num);
    }
  }

  /** The fields load leaves are the store a session is proved to begin from. */
  lemma LoadedStore(o: O.Opening, ls: seq<R.Loaded>, laid: Layout, maxSegments: nat, policy: Policy)
    requires o.Describes(ls) && |laid| == |ls|
    ensures StoreOf(o, laid, maxSegments, policy) == Recovered(ls, laid, o.booked, o.segSize, maxSegments, policy)
  {
    FieldsAreRebuilt(o.files, ls, o.bases, laid, 0, o.commitOff, 1);
    hide Rebuilt;
    hide SegsOf;
  }

  lemma {:induction false} RebuiltAt(ls: seq<R.Loaded>, laid: Layout, base: int, commit: int, num: nat, i: nat)
    requires |laid| == |ls| && i < |ls|
    ensures Rebuilt(ls, laid, base, commit, num)[i].hdr == R.Target(ls[i], R.BaseOf(ls, base, i), commit)
    decreases |ls|
  {
    if i > 0 {
      RebuiltAt(ls[1..], laid[1..], base + ls[0].size, commit, num + 1, i - 1);
    }
  }

  /** What load keeps, or the one segment startFresh makes when it keeps nothing. */
  function Opened(p: F.Platform, dir: seq<R.DiskSeg>, segSize: nat): seq<R.Loaded>
    requires R.OnDisk(dir)
  {
    var ls := R.Kept(p, dir, segSize).1;
    if ls == [] then [O.Empty(segSize)] else ls
  }

  /** Opening a directory: a load that no fault stopped returns a sound store whose headers are the ones on disk;
      when nothing could be kept it is a fresh one that still owes every report. */
  method OpenStore(
    p: F.Platform, dir: seq<R.DiskSeg>, segSize: nat, looks: nat -> O.LookAns, answers: nat -> O.RepairAns, created: bool)
    returns (o: O.Opening, ok: bool, stopped: nat)
    requires R.OnDisk(dir) && segSize < B.TWO63
    ensures ok <==> !O.Refuses(p, dir, segSize, looks) && (R.Kept(p, dir, segSize).1 == [] ==> created)
    ensures ok ==> o.Describes(Opened(p, dir, segSize)) && o.segSize == segSize && o.booked == O.Booked(p, dir, segSize)
    ensures ok && stopped == 0 ==>
              forall laid: Layout, maxSegments, policy | |laid| == |o.files| ::
                var s := StoreOf(o, laid, maxSegments, policy);
                && Sound(Begun(s)) && Attached(s) && |o.disk| == |s.files|
                && forall i | 0 <= i < |s.files| :: o.disk[i].page.Believed? && o.disk[i].page.hdr == s.files[i].hdr
    ensures ok && R.Kept(p, dir, segSize).1 == [] ==>
              forall maxSegments, policy ::
                var s := StoreOf(o, [[]], maxSegments, policy);
                Counted(s) && s.commitOff == s.writeOff == 0 && s.corruptions == s.pendingCorrupt == o.booked.corruptions
  {
    hide R.Kept;
    o := new O.Opening(p, segSize);
    ok, stopped := o.Load(dir, looks, answers);
    if ok && o.files == [] {
      if !created {
        ok := false;
        return;
      }
      o.StartFresh();
    }
    if ok && stopped == 0 {
      forall laid: Layout, maxSegments, policy | |laid| == |o.files|
        ensures var s := StoreOf(o, laid, maxSegments, policy);
                && Sound(Begun(s)) && Attached(s) && |o.disk| == |s.files|
                && forall i | 0 <= i < |s.files| :: o.disk[i].page.Believed? && o.disk[i].page.hdr == s.files[i].hdr
      {
        if R.Kept(p, dir, segSize).1 == [] {
          FreshlyOpened(o, laid, maxSegments, policy);
        } else {
          LoadedIsSound(o, p, dir, laid, maxSegments, policy);
          HeadersOnDisk(o, p, dir, laid, maxSegments, policy, O.Extensions(|o.files|, answers));
        }
      }
    }
    if ok && R.Kept(p, dir, segSize).1 == [] {
      forall maxSegments, policy
        ensures var s := StoreOf(o, [[]], maxSegments, policy);
                Counted(s) && s.commitOff == s.writeOff == 0 && s.corruptions == s.pendingCorrupt == o.booked.corruptions
      {
        FreshlyCounted(o, maxSegments, policy);
      }
    }
  }

  lemma FreshlyOpened(o: O.Opening, laid: Layout, maxSegments: nat, policy: Policy)
    requires o.Describes([O.Empty(o.segSize)]) && o.disk == [O.NewDisk(o.segSize)] && |laid| == 1
    ensures var s := StoreOf(o, laid, maxSegments, policy);
            && Sound(Begun(s)) && Attached(s) && |o.disk| == |s.files|
            && forall i | 0 <= i < |s.files| :: o.disk[i].page.Believed? && o.disk[i].page.hdr == s.files[i].hdr
  {
    var ls := [O.Empty(o.segSize)];
    LoadedStore(o, ls, laid, maxSegments, policy);
    RecoveredKeepsInv(ls, laid, o.booked, o.segSize, maxSegments, policy);
    BeginsSound(Recovered(ls, laid, o.booked, o.segSize, maxSegments, policy));
    RebuiltAt(ls, laid, 0, o.commitOff, 1, 0);
    hide Rebuilt;
    hide StoreOf;
    hide Sound;
    assert R.BaseOf(ls, 0, 0) == 0 && R.Scan(ls[1..], 0) == 0;
  }

  lemma FreshlyCounted(o: O.Opening, maxSegments: nat, policy: Policy)
    requires o.Describes([O.Empty(o.segSize)])
    ensures var s := StoreOf(o, [[]], maxSegments, policy);
            Counted(s) && s.commitOff == s.writeOff == 0 && s.corruptions == s.pendingCorrupt == o.booked.corruptions
  {
    var ls := [O.Empty(o.segSize)];
    LoadedStore(o, ls, [[]], maxSegments, policy);
    assert R.Scan(ls[1..], 0) == 0 && R.Total(ls[1..]) == 0;
    assert LoadedTrue(ls[0], []);
    hide LoadedTrue;
    RecoveredCounts(ls, [[]], o.booked, o.segSize, maxSegments, policy);
    hide Counted;
  }

  lemma LoadedIsSound(o: O.Opening, p: F.Platform, dir: seq<R.DiskSeg>, laid: Layout, maxSegments: nat, policy: Policy)
    requires R.OnDisk(dir) && o.segSize < B.TWO63 && o.Describes(R.Kept(p, dir, o.segSize).1)
    requires o.files != [] && |laid| == |o.files|
    ensures Sound(Begun(StoreOf(o, laid, maxSegments, policy))) && Attached(StoreOf(o, laid, maxSegments, policy))
  {
    hide Sound;
    hide Recovered;
    hide StoreOf;
    LoadedStore(o, R.Kept(p, dir, o.segSize).1, laid, maxSegments, policy);
    RecoveredIsSound(p, dir, laid, o.booked, o.segSize, maxSegments, policy);
  }

  lemma HeadersOnDisk(
    o: O.Opening, p: F.Platform, dir: seq<R.DiskSeg>, laid: Layout, maxSegments: nat, policy: Policy, ext: nat -> bool)
    requires R.OnDisk(dir) && o.Describes(R.Kept(p, dir, o.segSize).1) && |laid| == |o.files|
    requires var (kept, ls) := R.Kept(p, dir, o.segSize);
             o.disk == R.RepairedFrom(kept, ls, 0, o.commitOff, o.segSize, 0, ext)
    ensures var s := StoreOf(o, laid, maxSegments, policy);
            && |o.disk| == |s.files|
            && forall i | 0 <= i < |s.files| :: o.disk[i].page.Believed? && o.disk[i].page.hdr == s.files[i].hdr
  {
    var (kept, ls) := R.Kept(p, dir, o.segSize);
    LoadedStore(o, ls, laid, maxSegments, policy);
    var s := StoreOf(o, laid, maxSegments, policy);
    hide R.Kept;
    hide StoreOf;
    hide Rebuilt;
    hide R.RepairedFrom;
    hide R.Target;
    forall i | 0 <= i < |s.files| ensures o.disk[i].page.Believed? && o.disk[i].page.hdr == s.files[i].hdr {
      O.RepairedAt(kept, ls, 0, o.commitOff, o.segSize, 0, ext, i);
      RebuiltAt(ls, laid, 0, o.commitOff, 1, i);
    }
  }

  // ----- the counts

  /** A kept segment as load reads it, before it has a place in the stream. */
  function Shell(l: R.Loaded, ends: seq<int>): Seg {
    Seg(0, 0, l.size, l.capacity, l.written, l.committed, Hdr(l.cc, HEADER_SIZE + l.size, l.written, l.committed), [], false, 0, ends, [])
  }

  /** What load concluded of the segment is what its bytes hold. */
  ghost predicate LoadedTrue(l: R.Loaded, ends: seq<int>) {
    SegCounted(Shell(l, ends), l.cc - HEADER_SIZE) && (l.reset ==> l.cc == HEADER_SIZE)
  }

  ghost predicate AllTrue(ls: seq<R.Loaded>, laid: Layout) {
    |laid| == |ls| && forall i | 0 <= i < |ls| :: LoadedTrue(ls[i], laid[i])
  }

  /** The recovered cursor seen from a segment at base: behind it, in it where the header says, or past it. */
  ghost predicate SeenFrom(l: R.Loaded, base: int, commit: int) {
    || commit <= base
    || (R.Decides(l) && commit == base + l.cc - HEADER_SIZE)
    || (!R.Decides(l) && commit >= base + l.size)
  }

  lemma RebuiltSegCounted(l: R.Loaded, ends: seq<int>, base: int, commit: int, num: nat)
    requires LoadedTrue(l, ends) && SeenFrom(l, base, commit)
    ensures var h := R.Target(l, base, commit);
            SegCounted(Seg(num, base, l.size, l.capacity, l.written, h.committed, h, [h], false, 0, ends, []), commit)
  {
    RankOfNone(ends, 0);
    RankOfAll(ends, l.size);
    hide Rank;
    hide Ascending;
    var h := R.Target(l, base, commit);
    assert Tells(ends, h);
    OneImage(Seg(num, base, l.size, l.capacity, l.written, h.committed, h, [h], false, 0, ends, []), h);
    hide Imaged;
    hide Tells;
  }

  lemma {:induction false} RebuiltCounted(ls: seq<R.Loaded>, laid: Layout, base: int, commit: int, num: nat)
    requires AllTrue(ls, laid) && (commit <= base || commit == R.Scan(ls, base))
    ensures forall f <- Rebuilt(ls, laid, base, commit, num) :: SegCounted(f, commit)
    decreases |ls|
  {
    if ls != [] {
      hide SegCounted;
      hide R.Target;
      TrueTail(ls, laid, base, commit);
      RebuiltSegCounted(ls[0], laid[0], base, commit, num);
      RebuiltCounted(ls[1..], laid[1..], base + ls[0].size, commit, num + 1);
    }
  }

  lemma TrueTail(ls: seq<R.Loaded>, laid: Layout, base: int, commit: int)
    requires AllTrue(ls, laid) && ls != [] && (commit <= base || commit == R.Scan(ls, base))
    ensures LoadedTrue(ls[0], laid[0]) && SeenFrom(ls[0], base, commit)
    ensures AllTrue(ls[1..], laid[1..])
    ensures commit <= base + ls[0].size || commit == R.Scan(ls[1..], base + ls[0].size)
  {
    hide SegCounted;
    hide LoadedTrue;
    forall i | 0 <= i < |ls| - 1 ensures LoadedTrue(ls[1..][i], laid[1..][i]) {
      assert LoadedTrue(ls[i + 1], laid[i + 1]);
    }
    TrueWithin(ls[1..], laid[1..]);
    R.ScanWithin(ls[1..], base + ls[0].size);
    TrueCursor(ls[0], laid[0]);
  }

  lemma TrueWithin(ls: seq<R.Loaded>, laid: Layout)
    requires AllTrue(ls, laid)
    ensures forall l <- ls :: HEADER_SIZE <= l.cc <= HEADER_SIZE + l.size
  {
    hide LoadedTrue;
    forall l <- ls ensures HEADER_SIZE <= l.cc <= HEADER_SIZE + l.size {
      var i :| 0 <= i < |ls| && ls[i] == l;
      assert LoadedTrue(ls[i], laid[i]);
      TrueCursor(ls[i], laid[i]);
    }
  }

  lemma TrueCursor(l: R.Loaded, ends: seq<int>)
    requires LoadedTrue(l, ends)
    ensures HEADER_SIZE <= l.cc <= HEADER_SIZE + l.size
  {
  }

  /** Load counts exactly whenever each header it believed told the truth about its own segment; no header needs
      to agree with another. */
  lemma RecoveredCounts(ls: seq<R.Loaded>, laid: Layout, loss: R.Loss, segSize: nat, maxSegments: nat, policy: Policy)
    requires AllTrue(ls, laid)
    ensures Counted(Recovered(ls, laid, loss, segSize, maxSegments, policy))
  {
    var s := Recovered(ls, laid, loss, segSize, maxSegments, policy);
    RebuiltCounted(ls, laid, 0, s.commitOff, 1);
    hide Rebuilt;
    hide SegCounted;
    CommitIsBetween(s.files, s.commitOff);
  }

  lemma {:induction false} WalkTiles(p: F.Platform, b: seq<B.byte>, at: nat)
    requires |b| < B.TWO63
    ensures var w := F.VerifiedWalk(p, b);
            var ends := F.Boundaries(w, at);
            && |ends| == |w| && Ascending(ends)
            && (forall e <- ends :: at < e <= at + F.Extent(w))
            && (if w == [] then F.Extent(w) == 0 else at + F.Extent(w) in ends)
    decreases |b|
  {
    hide F.DecodeHead;
    var h := F.DecodeHead(p, b);
    if h.Head? && F.Intact(p, F.RecordIn(b, h)) {
      WalkTiles(p, b[h.total..], at + h.total);
      var r, rest := F.RecordIn(b, h), F.VerifiedWalk(p, b[h.total..]);
      F.ExtentCons(r, rest);
      BoundariesCons(r, rest, at, F.Boundaries(rest, at + h.total));
      hide F.VerifiedWalk;
      hide Ascending;
    }
  }

  lemma BoundariesCons(r: F.Record, rs: seq<F.Record>, at: nat, more: seq<int>)
    requires r.total > 0 && more == F.Boundaries(rs, at + r.total) && Ascending(more)
    requires forall e <- more :: at + r.total < e
    ensures F.Boundaries([r] + rs, at) == [at + r.total] + more
    ensures Ascending(F.Boundaries([r] + rs, at))
  {
    assert ([r] + rs)[1..] == rs;
    var all := [at + r.total] + more;
    forall i, j | 0 <= i < j < |all| ensures all[i] < all[j] {
      assert all[j] == more[j - 1] && more[j - 1] in more;
      assert i > 0 ==> all[i] == more[i - 1];
    }
  }

  lemma SalvageFits(p: F.Platform, data: seq<B.byte>)
    requires |data| < B.TWO63
    ensures F.Extent(F.VerifiedWalk(p, data)) <= |data|
  {
    F.VerifiedIsIntactPrefix(p, data);
    F.ClampedWalk(p, data, F.VerifiedWalk(p, data));
  }

  /** A salvage tells the truth by construction: it counts the records it verified. */
  lemma SalvageIsTrue(p: F.Platform, d: R.DiskSeg, segSize: nat)
    requires d.page.Torn? && |d.data| < B.TWO63
    ensures var v := R.LoadSeg(p, d, false, segSize);
            v.Keep? && LoadedTrue(v.l, F.Boundaries(F.VerifiedWalk(p, d.data), 0))
  {
    hide F.VerifiedWalk;
    hide F.Boundaries;
    hide F.Extent;
    hide Rank;
    hide Ascending;
    var w := F.VerifiedWalk(p, d.data);
    WalkTiles(p, d.data, 0);
    SalvageFits(p, d.data);
    RankOfNone(F.Boundaries(w, 0), 0);
  }

  // ----- sessions in a row

  function EndsOf(fs: seq<Seg>): (laid: Layout)
    ensures |laid| == |fs|
  {
    if fs == [] then [] else [fs[0].ends] + EndsOf(fs[1..])
  }

  lemma {:induction false} EndsAt(fs: seq<Seg>, i: nat)
    requires i < |fs|
    ensures EndsOf(fs)[i] == fs[i].ends
  {
    if i > 0 {
      EndsAt(fs[1..], i - 1);
    }
  }

  ghost predicate Sized(fs: seq<Seg>) {
    forall f <- fs :: 0 <= f.size <= f.capacity
  }

  /** The store the next open of an intact directory returns; every segment gone is an empty directory. */
  function Reopened(s: St): St
    requires Sized(s.files)
  {
    if s.files == [] then Fresh(s.segmentSize, s.maxSegments, s.policy)
    else Recovered(AllConcluded(s.files), EndsOf(s.files), R.NO_LOSS, s.segmentSize, s.maxSegments, s.policy)
  }

  lemma {:induction false} NothingBooked(p: F.Platform, fs: seq<Seg>, ds: seq<R.DiskSeg>, commit: int, segSize: nat)
    requires Settled(fs, commit) && DirectoryOf(fs, ds, segSize) && R.OnDisk(ds) && segSize < B.TWO63
    ensures O.Booked(p, ds, segSize) == R.NO_LOSS
    decreases |fs|
  {
    hide SettledSeg;
    hide R.LoadSeg;
    if fs != [] {
      ConcludedHead(fs, commit);
      DirectoryTail(fs, ds, segSize);
      BooksNothing(p, fs[0], ds[0], commit, segSize, |ds| == 1);
      assert forall d <- ds[1..] :: d in ds;
      NothingBooked(p, fs[1..], ds[1..], commit, segSize);
    }
  }

  lemma BooksNothing(p: F.Platform, f: Seg, d: R.DiskSeg, commit: int, segSize: nat, tail: bool)
    requires SettledSeg(f, commit) && segSize < B.TWO63
    requires |d.data| == f.capacity && f.images != [] && d == OnDiskAs(f, d.data, segSize)
    ensures R.Addressable(d) && O.LossOf(R.LoadSeg(p, d, tail, segSize)) == R.NO_LOSS
  {
    IntactLoads(p, f, d, commit, segSize);
    R.TailMattersNot(p, d, Concluded(f), tail, segSize);
    hide R.LoadSeg;
  }

  /** Reopened is what load makes of any directory the store may have left behind. */
  lemma ReopenedIsLoaded(p: F.Platform, s: St, ds: seq<R.DiskSeg>)
    requires Inv(s) && Intact(s) && Counted(s) && DirectoryOf(s.files, ds, s.segmentSize) && s.segmentSize < B.TWO63
    requires s.files != []
    ensures Sized(s.files) && R.OnDisk(ds) && |R.Kept(p, ds, s.segmentSize).1| == |s.files|
    ensures Reopened(s) == Recovered(R.Kept(p, ds, s.segmentSize).1, EndsOf(s.files), O.Booked(p, ds, s.segmentSize),
                                  s.segmentSize, s.maxSegments, s.policy)
  {
    hide Inv;
    hide Counted;
    hide DirectoryOf;
    hide Recovered;
    DirectoryLoads(p, s, ds);
    IntactIsSettled(s);
    NothingBooked(p, s.files, ds, s.commitOff, s.segmentSize);
  }

  lemma ConcludedIsTrue(f: Seg, commit: int)
    requires SettledSeg(f, commit)
    ensures LoadedTrue(Concluded(f), f.ends)
  {
    RankGrows(f.ends, f.Pos(commit), f.size);
    RankGrows(f.ends, f.hdr.commitCur - HEADER_SIZE, f.size);
    hide Rank;
    hide Ascending;
  }

  lemma SettledIsTrue(fs: seq<Seg>, commit: int)
    requires Settled(fs, commit)
    ensures AllTrue(AllConcluded(fs), EndsOf(fs))
  {
    hide SettledSeg;
    hide LoadedTrue;
    hide Concluded;
    forall i | 0 <= i < |fs| ensures LoadedTrue(AllConcluded(fs)[i], EndsOf(fs)[i]) {
      assert fs[i] in fs;
      EndsAt(fs, i);
      ConcludedIsTrue(fs[i], commit);
    }
  }

  lemma {:induction false} MatchSums(fs: seq<Seg>, ls: seq<R.Loaded>, laid: Layout, base: int, commit: int, num: nat)
    requires CountsMatch(fs, ls, base, commit) && |laid| == |ls| && forall i | 0 <= i < |fs| :: fs[i].size == ls[i].size
    ensures var gs := Rebuilt(ls, laid, base, commit, num);
            SumWritten(gs) == SumWritten(fs) && SumCommitted(gs) == SumCommitted(fs)
    decreases |fs|
  {
    if fs != [] {
      MatchSums(fs[1..], ls[1..], laid[1..], base + fs[0].size, commit, num + 1);
      RebuiltUnfolds(ls, laid, base, commit, num);
    }
  }

  lemma {:induction false} SizesTotal(fs: seq<Seg>)
    requires Sized(fs)
    ensures R.Total(AllConcluded(fs)) == TotalSize(fs)
  {
    if fs != [] {
      assert fs[0] in fs && forall f <- fs[1..] :: f in fs;
      assert AllConcluded(fs)[1..] == AllConcluded(fs[1..]);
      SizesTotal(fs[1..]);
    }
  }

  lemma EmptyStore(s: St)
    requires Inv(s) && s.files == []
    ensures s.writeOff == s.commitOff && s.nWritten == s.nCommitted == 0 && Backlog(s.files, s.commitOff) == 0
  {
  }

  /** What reopening carries over: the unread bytes, the counts, and everything a run is proved from. */
  lemma ReopenedCounts(s: St)
    requires Inv(s) && Intact(s) && Counted(s)
    ensures Sized(s.files)
    ensures var t := Reopened(s);
            && Sound(Begun(t)) && Counted(t) && Attached(t)
            && t.writeOff - t.commitOff == s.writeOff - s.commitOff
            && t.nWritten - t.nCommitted == s.nWritten - s.nCommitted
            && Backlog(t.files, t.commitOff) == Backlog(s.files, s.commitOff)
  {
    hide Inv;
    hide Counted;
    hide Sums;
    IntactIsSettled(s);
    hide SettledSeg;
    if s.files == [] {
      EmptyStore(s);
      FreshIsSound(s.segmentSize, s.maxSegments, s.policy);
      assert Backlog(Reopened(s).files, 0) == 0 by {
        assert Reopened(s).files[1..] == [];
      }
    } else {
      SettledIsSized(s.files, s.commitOff);
      KeepsEverything(s);
    }
  }

  lemma SettledIsSized(fs: seq<Seg>, commit: int)
    requires Settled(fs, commit)
    ensures Sized(fs)
  {
  }

  lemma KeepsEverything(s: St)
    requires Inv(s) && Intact(s) && Counted(s) && Settled(s.files, s.commitOff) && s.files != [] && Sized(s.files)
    ensures var t := Reopened(s);
            && Sound(Begun(t)) && Counted(t) && Attached(t)
            && t.writeOff - t.commitOff == s.writeOff - s.commitOff
            && t.nWritten - t.nCommitted == s.nWritten - s.nCommitted
            && Backlog(t.files, t.commitOff) == Backlog(s.files, s.commitOff)
  {
    hide Inv;
    hide Counted;
    hide Settled;
    hide Sound;
    hide Reopened;
    hide Backlog;
    KeepsTheCursor(s);
    KeepsTheSums(s);
    BeginsCounted(s);
    BacklogIs(s);
    SoundInv(Begun(Reopened(s)));
    BacklogIs(Reopened(s));
  }

  lemma KeepsTheCursor(s: St)
    requires Inv(s) && Intact(s) && s.files != [] && Sized(s.files)
    ensures var t := Reopened(s);
            && SamePosition(s.files, 0, s.commitOff, t.commitOff)
            && t.writeOff - t.commitOff == s.writeOff - s.commitOff
  {
    InvCovers(s);
    IntactStands(s);
    hide Inv;
    hide Rebuilt;
    hide R.Scan;
    hide HeadersStand;
    ScanFindsTheCursor(s.files, 0, s.commitOff, s.writeOff);
    SizesTotal(s.files);
  }

  lemma KeepsTheSums(s: St)
    requires Inv(s) && Settled(s.files, s.commitOff) && s.files != [] && Sized(s.files)
    requires SamePosition(s.files, 0, s.commitOff, Reopened(s).commitOff)
    ensures Reopened(s).nWritten == s.nWritten && Reopened(s).nCommitted == s.nCommitted
  {
    SumsHold(s);
    hide Inv;
    hide Settled;
    hide Rebuilt;
    hide R.Scan;
    var ls, commit := AllConcluded(s.files), Reopened(s).commitOff;
    AllCountsMatch(s.files, 0, s.commitOff, commit);
    MatchSums(s.files, ls, EndsOf(s.files), 0, commit, 1);
  }

  lemma BeginsCounted(s: St)
    requires Settled(s.files, s.commitOff) && s.files != [] && Sized(s.files)
    ensures Sound(Begun(Reopened(s))) && Counted(Reopened(s)) && Attached(Reopened(s))
  {
    var ls, laid := AllConcluded(s.files), EndsOf(s.files);
    ConcludedFits(s.files, s.commitOff);
    SettledIsTrue(s.files, s.commitOff);
    hide Inv;
    hide Counted;
    hide Settled;
    hide Rebuilt;
    hide AllTrue;
    hide R.Scan;
    RecoveredKeepsInv(ls, laid, R.NO_LOSS, s.segmentSize, s.maxSegments, s.policy);
    RecoveredCounts(ls, laid, R.NO_LOSS, s.segmentSize, s.maxSegments, s.policy);
    BeginsSound(Reopened(s));
  }

  lemma SumsHold(s: St)
    requires Inv(s)
    ensures s.nWritten == SumWritten(s.files) && s.nCommitted == SumCommitted(s.files)
  {
  }

  lemma BacklogIs(s: St)
    requires Inv(s) && Counted(s)
    ensures Backlog(s.files, s.commitOff) == s.nWritten - s.nCommitted
  {
    BacklogBySegments(s.files, s.commitOff);
  }

  lemma BeginsSound(t: St)
    requires Inv(t) && t.corruptions == t.pendingCorrupt
    ensures Sound(Begun(t))
  {
  }

  lemma ConcludedFits(fs: seq<Seg>, commit: int)
    requires Settled(fs, commit) && Sized(fs)
    ensures forall l <- AllConcluded(fs) :: l.size <= l.capacity && R.WellClamped(l)
  {
    forall l <- AllConcluded(fs) ensures l.size <= l.capacity && R.WellClamped(l) {
      var i :| 0 <= i < |fs| && AllConcluded(fs)[i] == l;
      assert fs[i] in fs && SettledSeg(fs[i], commit);
    }
  }

  lemma SoundInv(w: World)
    requires Sound(w)
    ensures Inv(w.st)
  {
  }

  // ----- undamaged bytes

  /** What the direct decoder answers at off over the published bytes of f. */
  function Reading(p: F.Platform, f: Seg, data: seq<B.byte>, off: int): FrameAns
    requires 0 <= f.size <= |data| < B.TWO63
  {
    if !(f.base <= off <= f.End()) then Undecodable
    else
      var h := F.DecodeHead(p, data[off - f.base..f.size]);
      if h.Head? then Framed(h.total) else Undecodable
  }

  function StartOf(p: F.Platform, ps: seq<seq<B.byte>>, at: nat, k: nat): nat
    requires k <= |ps|
  {
    at + |F.Frames(p, ps[..k])|
  }

  lemma FramesCut(p: F.Platform, ps: seq<seq<B.byte>>, k: nat)
    requires k <= |ps|
    ensures |F.Frames(p, ps[..k])| <= |F.Frames(p, ps)|
    ensures F.Frames(p, ps)[|F.Frames(p, ps[..k])|..] == F.Frames(p, ps[k..])
  {
    F.FramesConcat(p, ps[..k], ps[k..]);
    assert ps == ps[..k] + ps[k..];
    hide F.Frames;
  }

  lemma FramesCons(p: F.Platform, ps: seq<seq<B.byte>>, k: nat)
    requires 0 < k <= |ps|
    ensures |F.Frames(p, ps[..k])| == |F.FrameOf(p, ps[0])| + |F.Frames(p, ps[1..][..k - 1])|
  {
    hide F.FrameOf;
    assert ps[..k][0] == ps[0] && ps[..k][1..] == ps[1..][..k - 1];
  }

  lemma {:induction false} FramesAt(p: F.Platform, ps: seq<seq<B.byte>>, at: nat, k: nat)
    requires k <= |ps|
    ensures |F.FrameBoundaries(p, ps, at)| == |ps|
    ensures k < |ps| ==> F.FrameBoundaries(p, ps, at)[k] == StartOf(p, ps, at, k) + |F.FrameOf(p, ps[k])|
    ensures k > 0 ==> F.FrameBoundaries(p, ps, at)[k - 1] == StartOf(p, ps, at, k)
    decreases |ps|
  {
    hide F.FrameOf;
    if ps != [] {
      var one := |F.FrameOf(p, ps[0])|;
      if k > 0 {
        FramesCons(p, ps, k);
        FramesAt(p, ps[1..], at + one, k - 1);
        assert k == 1 ==> ps[1..][..0] == [];
      } else {
        assert ps[..0] == [];
        FramesAt(p, ps[1..], at + one, 0);
      }
    }
  }

  lemma BoundariesAscend(p: F.Platform, ps: seq<seq<B.byte>>)
    ensures Ascending(F.FrameBoundaries(p, ps, 0))
    ensures |F.FrameBoundaries(p, ps, 0)| == |ps| && (ps != [] ==> F.FrameBoundaries(p, ps, 0)[0] > 0)
  {
    var ends := F.FrameBoundaries(p, ps, 0);
    FramesAt(p, ps, 0, 0);
    forall i, j | 0 <= i < j < |ends| ensures ends[i] < ends[j] {
      LaterEnds(p, ps, i, j);
    }
  }

  lemma {:induction false} LaterEnds(p: F.Platform, ps: seq<seq<B.byte>>, i: nat, j: nat)
    requires i < j < |ps|
    ensures |F.FrameBoundaries(p, ps, 0)| == |ps| && F.FrameBoundaries(p, ps, 0)[i] < F.FrameBoundaries(p, ps, 0)[j]
    decreases j
  {
    FramesAt(p, ps, 0, j);
    assert F.FrameBoundaries(p, ps, 0)[j - 1] < F.FrameBoundaries(p, ps, 0)[j];
    if i < j - 1 {
      LaterEnds(p, ps, i, j - 1);
    }
  }

  /** The k-th record's bytes stand at the k-th mark. */
  lemma RecordStands(p: F.Platform, f: Seg, ps: seq<seq<B.byte>>, data: seq<B.byte>, k: nat)
    requires F.Addressable(p, ps) && f.ends == F.FrameBoundaries(p, ps, 0) && f.size == |F.Frames(p, ps)|
    requires f.size <= |data| < B.TWO63 && data[..f.size] == F.Frames(p, ps) && k <= |ps|
    ensures var q := StartOf(p, ps, 0, k);
            && q <= f.size && data[q..f.size] == F.Frames(p, ps[k..])
            && (k == |ps| ==> q == f.size)
            && (k < |ps| ==>
                  && F.DecodeHead(p, data[q..f.size]).Head?
                  && F.DecodeHead(p, data[q..f.size]).total == |F.FrameOf(p, ps[k])|)
  {
    hide F.FrameOf;
    hide F.DecodeHead;
    FramesCut(p, ps, k);
    var q := StartOf(p, ps, 0, k);
    assert data[q..f.size] == data[..f.size][q..];
    if k < |ps| {
      assert ps[k..][0] == ps[k];
      F.DecodeOneFrame(p, ps[k], F.Frames(p, ps[k..][1..]));
    } else {
      assert ps[..k] == ps;
    }
  }

  lemma FrameNotShort(p: F.Platform, payload: seq<B.byte>)
    ensures |F.FrameOf(p, payload)| >= MIN_FRAME
  {
  }

  /** Over the frames that were laid down, the decoder answers at every record's start with that record: undamaged
      bytes make every run honest. */
  lemma UndamagedIsHonest(p: F.Platform, f: Seg, ps: seq<seq<B.byte>>, data: seq<B.byte>, off: int)
    requires F.Addressable(p, ps) && f.ends == F.FrameBoundaries(p, ps, 0) && f.size == |F.Frames(p, ps)|
    requires f.size <= |data| < B.TWO63 && data[..f.size] == F.Frames(p, ps)
    ensures FramesTrue(f, off, Reading(p, f, data, off))
    ensures f.base <= off < f.End() && Mark(f, off - f.base) ==> Decode(f, off, Reading(p, f, data, off)).End?
  {
    hide F.FrameOf;
    hide F.Frames;
    hide F.FrameBoundaries;
    hide F.DecodeHead;
    hide F.Addressable;
    hide Ascending;
    var q := off - f.base;
    if 0 <= q <= f.size && Mark(f, q) {
      BoundariesAscend(p, ps);
      var k := MarkedAt(f, q);
      FramesAt(p, ps, 0, k);
      StartOfFirst(p, ps);
      assert q == StartOf(p, ps, 0, k);
      RecordStands(p, f, ps, data, k);
      if k < |ps| {
        FrameNotShort(p, ps[k]);
        FramesAt(p, ps, 0, k + 1);
        FramesCut(p, ps, k + 1);
        ReadsRecord(f, off, k, |F.FrameOf(p, ps[k])|);
      }
    }
  }

  lemma ReadsRecord(f: Seg, off: int, k: nat, total: int)
    requires Ascending(f.ends) && Mark(f, off - f.base) && k < |f.ends| && f.ends[k] <= f.size
    requires off - f.base == (if k == 0 then 0 else f.ends[k - 1])
    requires f.ends[k] == off - f.base + total && total >= MIN_FRAME
    ensures FramesTrue(f, off, Framed(total)) && Decode(f, off, Framed(total)).End?
  {
    RankIs(f.ends, off - f.base, k);
    hide Rank;
  }

  lemma StartOfFirst(p: F.Platform, ps: seq<seq<B.byte>>)
    ensures StartOf(p, ps, 0, 0) == 0
  {
    assert ps[..0] == [];
  }

  lemma MarkedAt(f: Seg, q: int) returns (k: nat)
    requires Mark(f, q) && q >= 0 && Ascending(f.ends) && (f.ends != [] ==> f.ends[0] > 0)
    ensures k <= |f.ends| && q == if k == 0 then 0 else f.ends[k - 1]
    ensures k < |f.ends| ==> q < f.ends[k]
  {
    k := 0;
    if q != 0 {
      var j :| 0 <= j < |f.ends| && f.ends[j] == q;
      k := j + 1;
    }
  }

  // ----- a segment that lost its tail

  lemma {:induction false} BoundariesCut(p: F.Platform, ps: seq<seq<B.byte>>, at: nat, m: nat)
    requires m <= |ps|
    ensures m <= |F.FrameBoundaries(p, ps, at)| && F.FrameBoundaries(p, ps[..m], at) == F.FrameBoundaries(p, ps, at)[..m]
    decreases |ps|
  {
    hide F.FrameOf;
    if m > 0 {
      assert ps[..m][0] == ps[0] && ps[..m][1..] == ps[1..][..m - 1];
      BoundariesCut(p, ps[1..], at + |F.FrameOf(p, ps[0])|, m - 1);
    } else {
      FramesAt(p, ps, at, 0);
    }
  }

  /** The first m records of a layout are a layout of their own. */
  lemma CutTiles(f: Seg, m: nat, size: int)
    requires Tiled(f) && m <= |f.ends| && size == if m == 0 then 0 else f.ends[m - 1]
    ensures Tiled(f.(size := size, ends := f.ends[..m])) && 0 <= size <= f.size
  {
    var cut := f.ends[..m];
    assert m > 0 ==> cut[m - 1] == size && f.ends[m - 1] in f.ends;
    forall e <- cut ensures 0 < e <= size {
      var i :| 0 <= i < m && cut[i] == e;
      assert f.ends[i] in f.ends && f.ends[i] <= f.ends[m - 1];
    }
  }

  /** A place in the layout, seen in its first m records. */
  lemma CutPlaces(f: Seg, m: nat, size: int, q: int)
    requires Tiled(f) && m <= |f.ends| && size == (if m == 0 then 0 else f.ends[m - 1]) && q >= 0 && Mark(f, q)
    ensures Mark(f.(ends := f.ends[..m]), Clamp(q, size))
    ensures Rank(f.ends[..m], Clamp(q, size)) == if Rank(f.ends, q) <= m then Rank(f.ends, q) else m
  {
    var cut := f.ends[..m];
    assert m > 0 ==> cut[m - 1] == size && f.ends[m - 1] in f.ends && size in cut;
    CutRanks(f.ends, m, q);
    if 0 < q < size {
      var i :| 0 <= i < |f.ends| && f.ends[i] == q;
      assert i < m && cut[i] == q;
    }
    hide Rank;
    hide Tiled;
  }

  lemma CutRanks(ends: seq<int>, m: nat, q: int)
    requires Ascending(ends) && m <= |ends| && q >= 0 && forall e <- ends :: e > 0
    ensures var size := if m == 0 then 0 else ends[m - 1];
            Rank(ends[..m], Clamp(q, size)) == if Rank(ends, q) <= m then Rank(ends, q) else m
  {
    var size, k := if m == 0 then 0 else ends[m - 1], Rank(ends, q);
    assert m > 0 ==> ends[m - 1] in ends;
    RankSplits(ends, q);
    RankIs(ends[..m], Clamp(q, size), if k <= m then k else m);
  }

  /** Load clamps a segment that lost its tail to the frames left whole, and is right about them. */
  lemma LostTailIsTrue(p: F.Platform, f: Seg, c: int, ps: seq<seq<B.byte>>, d: R.DiskSeg, segSize: nat)
    requires SegCounted(f, c) && Resident(f, c) && !f.gone && f.size <= f.capacity < B.TWO63
    requires F.Addressable(p, ps) && f.ends == F.FrameBoundaries(p, ps, 0) && f.size == |F.Frames(p, ps)|
    requires |d.data| < f.size && d == R.DiskSeg(R.Believed(f.hdr, f.capacity, segSize), F.Frames(p, ps)[..|d.data|])
    ensures var m := F.WholeFrames(p, ps, |d.data|);
            var v := R.LoadSeg(p, d, false, segSize);
            m <= |f.ends| && v.Keep? && v.l.truncated && LoadedTrue(v.l, f.ends[..m])
  {
    hide F.Walk;
    hide F.Frames;
    hide F.FrameBoundaries;
    hide F.WholeFrames;
    hide F.Addressable;
    hide SegCounted;
    hide LoadedTrue;
    hide R.LoadSeg;
    var m := F.WholeFrames(p, ps, |d.data|);
    var size := WholeSize(p, f, ps, |d.data|);
    LostTailLoads(p, f, d, segSize, m, size);
    CutIsTrue(f, c, m, size, f.capacity);
  }

  lemma WholeSize(p: F.Platform, f: Seg, ps: seq<seq<B.byte>>, cut: nat) returns (size: nat)
    requires F.Addressable(p, ps) && f.ends == F.FrameBoundaries(p, ps, 0) && cut <= |F.Frames(p, ps)| < B.TWO63
    ensures var m, w := F.WholeFrames(p, ps, cut), F.Walk(p, F.Frames(p, ps)[..cut]);
            m <= |f.ends| && |w| == m && F.Extent(w) == size && size == if m == 0 then 0 else f.ends[m - 1]
  {
    hide F.Walk;
    hide F.WholeFrames;
    var m := F.WholeFrames(p, ps, cut);
    size := |F.Frames(p, ps[..m])|;
    F.CutKeepsWholeFrames(p, ps, cut);
    F.RecordsOfMeaning(p, ps[..m], 0);
    FramesAt(p, ps, 0, m);
    StartOfFirst(p, ps);
  }

  lemma NoImages(f: Seg)
    requires f.images == []
    ensures Imaged(f)
  {
  }

  lemma CutIsTrue(f: Seg, c: int, m: nat, size: nat, capacity: nat)
    requires SegCounted(f, c) && m <= |f.ends| && size == (if m == 0 then 0 else f.ends[m - 1]) && f.capacity <= capacity
    ensures var cc := HEADER_SIZE + Clamp(f.hdr.commitCur - HEADER_SIZE, size);
            LoadedTrue(R.Loaded(size, capacity, m, Clamp(f.hdr.committed, m), cc, false, true), f.ends[..m])
  {
    hide Rank;
    hide Ascending;
    hide Imaged;
    CutTiles(f, m, size);
    CutPlaces(f, m, size, f.hdr.commitCur - HEADER_SIZE);
    var cc := HEADER_SIZE + Clamp(f.hdr.commitCur - HEADER_SIZE, size);
    NoImages(Shell(R.Loaded(size, capacity, m, Clamp(f.hdr.committed, m), cc, false, true), f.ends[..m]));
  }

  lemma LostTailLoads(p: F.Platform, f: Seg, d: R.DiskSeg, segSize: nat, m: nat, size: nat)
    requires d.page == R.Believed(f.hdr, f.capacity, segSize) && |d.data| < f.size <= f.capacity < B.TWO63
    requires f.hdr.writeCur == HEADER_SIZE + f.size
    requires F.Extent(F.Walk(p, d.data)) == size && |F.Walk(p, d.data)| == m
    ensures var v := R.LoadSeg(p, d, false, segSize);
            v.Keep? && v.l == R.Loaded(size, f.capacity, m, Clamp(f.hdr.committed, m), HEADER_SIZE + Clamp(f.hdr.commitCur - HEADER_SIZE, size), false, true)
  {
    assert d.data[..|d.data|] == d.data;
    hide F.Walk;
  }

  // ----- the counts after a crash

  /** The segment as header h tells it, over the records it covers. */
  function AsOf(f: Seg, h: Hdr, ends: seq<int>): Seg {
    f.(size := h.writeCur - HEADER_SIZE, written := h.written, committed := h.committed,
       hdr := h, images := [h], gone := false, ends := ends)
  }

  lemma AsOfCounted(f: Seg, h: Hdr, ends: seq<int>)
    requires Tells(ends, h) && h.writeCur - HEADER_SIZE <= f.capacity
    ensures var g, c := AsOf(f, h, ends), f.base + h.commitCur - HEADER_SIZE; SegCounted(g, c) && Resident(g, c)
  {
    OneImage(AsOf(f, h, ends), h);
    hide Imaged;
    hide Ascending;
    hide Rank;
  }

  /** The records of a layout that end by n. */
  function CutTo(ends: seq<int>, n: int): (r: seq<int>)
    ensures r <= ends
  {
    if ends == [] || ends[0] > n then [] else [ends[0]] + CutTo(ends[1..], n)
  }

  /** The records there are in a segment a crash left: under a header, those of the records laid down that are still
      there whole; under none, those that verify. */
  function RecordsFound(p: F.Platform, f: Seg, d: R.DiskSeg): seq<int>
    requires |d.data| < B.TWO63
  {
    if d.page.Believed? then
      var h := d.page.hdr;
      if |d.data| >= h.writeCur - HEADER_SIZE then RecordsUnder(f, h) else CutTo(RecordsUnder(f, h), |d.data|)
    else F.Boundaries(F.VerifiedWalk(p, d.data), 0)
  }

  lemma {:induction false} CutsAtWholeFrames(p: F.Platform, ps: seq<seq<B.byte>>, at: nat, cut: nat)
    ensures var m := F.WholeFrames(p, ps, cut);
            m <= |F.FrameBoundaries(p, ps, at)| && CutTo(F.FrameBoundaries(p, ps, at), at + cut) == F.FrameBoundaries(p, ps, at)[..m]
    decreases |ps|
  {
    hide F.FrameOf;
    if ps != [] {
      var one := |F.FrameOf(p, ps[0])|;
      if cut >= one {
        CutsAtWholeFrames(p, ps[1..], at + one, cut - one);
      }
    }
  }

  /** A segment of which less is left than h covers: the frames of those records, cut short. */
  ghost predicate CutUnder(p: F.Platform, f: Seg, h: Hdr, data: seq<B.byte>) {
    && |data| < h.writeCur - HEADER_SIZE
    && exists ps ::
         && F.Addressable(p, ps) && F.FrameBoundaries(p, ps, 0) == RecordsUnder(f, h)
         && |F.Frames(p, ps)| == h.writeCur - HEADER_SIZE && data < F.Frames(p, ps)
  }

  /** What a crash may leave of a segment: any header of the session over any bytes, some of them missing or not, a
      torn one, or nothing load can keep. */
  ghost predicate CrashedAs(p: F.Platform, f: Seg, d: R.DiskSeg, segSize: nat) {
    d.page.Believed? ==>
      && d.page.hdr in f.images && d.page == R.Believed(d.page.hdr, f.capacity, segSize)
      && (|d.data| >= d.page.hdr.writeCur - HEADER_SIZE || CutUnder(p, f, d.page.hdr, d.data))
  }

  lemma WholeLoads(p: F.Platform, d: R.DiskSeg, h: Hdr, capacity: int, segSize: nat)
    requires d.page == R.Believed(h, capacity, segSize) && |d.data| < B.TWO63 && segSize < B.TWO63 && capacity < B.TWO63
    requires HEADER_SIZE <= h.commitCur <= h.writeCur && h.writeCur - HEADER_SIZE <= capacity && h.writeCur - HEADER_SIZE <= |d.data|
    requires 0 <= h.committed <= h.written
    ensures var l := R.Loaded(h.writeCur - HEADER_SIZE, capacity, h.written, h.committed, h.commitCur, false, |d.data| < capacity);
            R.LoadSeg(p, d, false, segSize) == R.Keep(l, R.NO_LOSS)
  {
    hide F.Walk;
  }

  lemma TellsBounds(ends: seq<int>, h: Hdr)
    requires Tells(ends, h)
    ensures HEADER_SIZE <= h.commitCur <= h.writeCur && 0 <= h.committed <= h.written == |ends|
  {
    RankGrows(ends, h.commitCur - HEADER_SIZE, h.writeCur);
  }

  lemma WholeIsTrue(p: F.Platform, f: Seg, d: R.DiskSeg, h: Hdr, ends: seq<int>, segSize: nat)
    requires Tells(ends, h) && d.page == R.Believed(h, f.capacity, segSize) && R.Addressable(d) && segSize < B.TWO63
    requires h.writeCur - HEADER_SIZE <= f.capacity && h.writeCur - HEADER_SIZE <= |d.data|
    ensures exists l :: R.LoadedFrom(p, d, l, segSize) && LoadedTrue(l, ends)
  {
    TellsBounds(ends, h);
    WholeLoads(p, d, h, f.capacity, segSize);
    hide R.LoadSeg;
    var l := R.Loaded(h.writeCur - HEADER_SIZE, f.capacity, h.written, h.committed, h.commitCur, false, |d.data| < f.capacity);
    assert R.LoadedFrom(p, d, l, segSize);
    hide Rank;
    hide Ascending;
    assert LoadedTrue(l, ends);
  }

  lemma CutLoads(p: F.Platform, f: Seg, d: R.DiskSeg, h: Hdr, all: seq<int>, ps: seq<seq<B.byte>>, segSize: nat)
    requires Tells(all, h) && h.writeCur - HEADER_SIZE <= f.capacity
    requires F.Addressable(p, ps) && F.FrameBoundaries(p, ps, 0) == all && |F.Frames(p, ps)| == h.writeCur - HEADER_SIZE
    requires d.data < F.Frames(p, ps) && d.page == R.Believed(h, f.capacity, segSize) && R.Addressable(d) && segSize < B.TWO63
    ensures exists l :: R.LoadedFrom(p, d, l, segSize) && LoadedTrue(l, CutTo(all, |d.data|))
  {
    hide F.Frames;
    hide F.FrameBoundaries;
    hide F.WholeFrames;
    hide F.Addressable;
    hide Tells;
    hide LoadedTrue;
    hide R.LoadSeg;
    hide SegCounted;
    hide Resident;
    hide CutTo;
    var g, c := AsOf(f, h, all), f.base + h.commitCur - HEADER_SIZE;
    AsOfCounted(f, h, all);
    LostTailIsTrue(p, g, c, ps, d, segSize);
    CutsAtWholeFrames(p, ps, 0, |d.data|);
    assert R.LoadedFrom(p, d, R.LoadSeg(p, d, false, segSize).l, segSize);
  }

  lemma TrueUnder(f: Seg, h: Hdr)
    requires Laid(f) && h in f.images
    ensures Tells(RecordsUnder(f, h), h) && h.writeCur - HEADER_SIZE <= f.capacity
  {
    assert Truthful(f, h);
  }

  lemma CutIsFound(p: F.Platform, f: Seg, d: R.DiskSeg, h: Hdr, segSize: nat)
    requires Tells(RecordsUnder(f, h), h) && h.writeCur - HEADER_SIZE <= f.capacity && CutUnder(p, f, h, d.data)
    requires d.page == R.Believed(h, f.capacity, segSize) && R.Addressable(d) && segSize < B.TWO63
    ensures exists l :: R.LoadedFrom(p, d, l, segSize) && LoadedTrue(l, CutTo(RecordsUnder(f, h), |d.data|))
  {
    hide F.Frames;
    hide F.FrameBoundaries;
    hide F.Addressable;
    hide Tells;
    hide LoadedTrue;
    hide R.LoadedFrom;
    hide RecordsUnder;
    hide CutTo;
    var ps :| F.Addressable(p, ps) && F.FrameBoundaries(p, ps, 0) == RecordsUnder(f, h)
      && |F.Frames(p, ps)| == h.writeCur - HEADER_SIZE && d.data < F.Frames(p, ps);
    CutLoads(p, f, d, h, RecordsUnder(f, h), ps, segSize);
  }

  /** Whichever header is found, and however much under it, load keeps the segment and its conclusions are true of the
      records there are; a torn header is no different. */
  lemma CrashedIsTrue(p: F.Platform, f: Seg, d: R.DiskSeg, segSize: nat)
    requires Laid(f) && CrashedAs(p, f, d, segSize) && R.Addressable(d) && segSize < B.TWO63
    requires d.page.Believed? || d.page.Torn?
    ensures exists l :: R.LoadedFrom(p, d, l, segSize) && LoadedTrue(l, RecordsFound(p, f, d))
  {
    hide Laid;
    hide LoadedTrue;
    hide R.LoadSeg;
    hide Tells;
    hide CutUnder;
    hide RecordsUnder;
    hide CutTo;
    if d.page.Torn? {
      SalvageIsTrue(p, d, segSize);
      assert R.LoadedFrom(p, d, R.LoadSeg(p, d, false, segSize).l, segSize);
    } else {
      var h := d.page.hdr;
      TrueUnder(f, h);
      if |d.data| >= h.writeCur - HEADER_SIZE {
        WholeIsTrue(p, f, d, h, RecordsUnder(f, h), segSize);
      } else {
        CutIsFound(p, f, d, h, segSize);
      }
    }
  }

  lemma FoundOf(p: F.Platform, f: Seg, d: R.DiskSeg)
    requires d.page.Believed? && |d.data| < B.TWO63
    ensures RecordsFound(p, f, d) <= f.ends + f.torn
  {
    var h := d.page.hdr;
    assert RecordsUnder(f, h) <= f.ends + f.torn;
    hide RecordsUnder;
  }

  lemma {:induction false} BoundariesJoin(a: seq<F.Record>, b: seq<F.Record>, at: nat)
    ensures F.Boundaries(a, at) <= F.Boundaries(a + b, at)
    decreases |a|
  {
    if a != [] {
      assert (a + b)[1..] == a[1..] + b;
      BoundariesJoin(a[1..], b, at + a[0].total);
    }
  }

  /** The records found are no invention. Under a header they are the first of those laid down, one whose span tore
      included; under none, over the frames of those published, they are all of them and then whatever else verifies. */
  lemma FoundWasLaidDown(p: F.Platform, f: Seg, d: R.DiskSeg)
    requires |d.data| < B.TWO63
    ensures d.page.Believed? ==> RecordsFound(p, f, d) <= f.ends + f.torn
    ensures !d.page.Believed? ==>
              forall ps | F.Addressable(p, ps) && f.ends == F.FrameBoundaries(p, ps, 0) && F.Frames(p, ps) <= d.data ::
                f.ends <= RecordsFound(p, f, d)
  {
    if d.page.Believed? {
      FoundOf(p, f, d);
    } else {
      hide F.Addressable;
      forall ps | F.Addressable(p, ps) && f.ends == F.FrameBoundaries(p, ps, 0) && F.Frames(p, ps) <= d.data
        ensures f.ends <= RecordsFound(p, f, d)
      {
        var rest := d.data[|F.Frames(p, ps)|..];
        assert d.data == F.Frames(p, ps) + rest;
        F.FrameRoundTrip(p, ps, rest);
        F.RecordsOfMeaning(p, ps, 0);
        BoundariesJoin(F.RecordsOf(p, ps), F.VerifiedWalk(p, rest), 0);
      }
    }
  }

  // ----- the directory a crash left

  ghost predicate AllCrashed(p: F.Platform, fs: seq<Seg>, ds: seq<R.DiskSeg>, segSize: nat) {
    |ds| == |fs| && forall i | 0 <= i < |fs| :: CrashedAs(p, fs[i], ds[i], segSize)
  }

  /** The records there are in each segment load keeps. */
  function AllFound(p: F.Platform, fs: seq<Seg>, ds: seq<R.DiskSeg>, segSize: nat): (laid: Layout)
    requires |ds| == |fs| && R.OnDisk(ds)
    ensures |laid| == |R.Kept(p, ds, segSize).1|
    decreases |ds|
  {
    if ds == [] then []
    else
      assert ds[0] in ds && forall d <- ds[1..] :: d in ds;
      var rest := AllFound(p, fs[1..], ds[1..], segSize);
      if R.LoadSeg(p, ds[0], |ds| == 1, segSize).Keep? then [RecordsFound(p, fs[0], ds[0])] + rest else rest
  }

  /** The store load makes of it; one it can keep nothing of is a directory started afresh. */
  function AfterCrash(
    p: F.Platform, fs: seq<Seg>, ds: seq<R.DiskSeg>, loss: R.Loss, segSize: nat, maxSegments: nat, policy: Policy): St
    requires |ds| == |fs| && R.OnDisk(ds)
  {
    var ls := R.Kept(p, ds, segSize).1;
    if ls == [] then Recovered([O.Empty(segSize)], [[]], loss, segSize, maxSegments, policy)
    else Recovered(ls, AllFound(p, fs, ds, segSize), loss, segSize, maxSegments, policy)
  }

  lemma {:induction false} CrashedDirectory(p: F.Platform, fs: seq<Seg>, ds: seq<R.DiskSeg>, segSize: nat)
    requires AllCrashed(p, fs, ds, segSize) && R.OnDisk(ds) && segSize < B.TWO63 && forall f <- fs :: Laid(f)
    ensures AllTrue(R.Kept(p, ds, segSize).1, AllFound(p, fs, ds, segSize))
    decreases |fs|
  {
    hide Laid;
    hide LoadedTrue;
    hide CrashedAs;
    hide R.LoadSeg;
    hide RecordsFound;
    if fs != [] {
      assert fs[0] in fs && ds[0] in ds && forall d <- ds[1..] :: d in ds;
      assert CrashedAs(p, fs[0], ds[0], segSize);
      forall i | 0 <= i < |fs| - 1 ensures CrashedAs(p, fs[1..][i], ds[1..][i], segSize) {
        assert CrashedAs(p, fs[i + 1], ds[i + 1], segSize);
      }
      CrashedDirectory(p, fs[1..], ds[1..], segSize);
      KeptIsTrue(p, fs[0], ds[0], |ds| == 1, segSize);
      var v, ends := R.LoadSeg(p, ds[0], |ds| == 1, segSize), RecordsFound(p, fs[0], ds[0]);
      if v.Keep? {
        TrueCons(v.l, ends, R.Kept(p, ds[1..], segSize).1, AllFound(p, fs[1..], ds[1..], segSize));
      }
    }
  }

  lemma KeptIsTrue(p: F.Platform, f: Seg, d: R.DiskSeg, tail: bool, segSize: nat)
    requires Laid(f) && CrashedAs(p, f, d, segSize) && R.Addressable(d) && segSize < B.TWO63
    ensures R.LoadSeg(p, d, tail, segSize).Keep? ==> LoadedTrue(R.LoadSeg(p, d, tail, segSize).l, RecordsFound(p, f, d))
  {
    hide Laid;
    hide LoadedTrue;
    hide RecordsFound;
    hide CrashedAs;
    if d.page.Believed? || d.page.Torn? {
      CrashedIsTrue(p, f, d, segSize);
      var l :| R.LoadedFrom(p, d, l, segSize) && LoadedTrue(l, RecordsFound(p, f, d));
      R.TailMattersNot(p, d, l, tail, segSize);
    }
  }

  lemma TrueCons(l: R.Loaded, ends: seq<int>, ls: seq<R.Loaded>, laid: Layout)
    requires LoadedTrue(l, ends) && AllTrue(ls, laid)
    ensures AllTrue([l] + ls, [ends] + laid)
  {
    hide LoadedTrue;
    forall i | 0 <= i < |ls| + 1 ensures LoadedTrue(([l] + ls)[i], ([ends] + laid)[i]) {
      assert i > 0 ==> LoadedTrue(ls[i - 1], laid[i - 1]);
    }
  }

  /** Whatever the crash left of segments that were laid down as counted, the store load returns counts exactly the
      records found in them, and a run from it is proved from the same facts. */
  lemma CrashedCounts(
    p: F.Platform, fs: seq<Seg>, ds: seq<R.DiskSeg>, loss: R.Loss, segSize: nat, maxSegments: nat, policy: Policy)
    requires AllCrashed(p, fs, ds, segSize) && R.OnDisk(ds) && segSize < B.TWO63 && forall f <- fs :: Laid(f)
    ensures var t := AfterCrash(p, fs, ds, loss, segSize, maxSegments, policy);
            Inv(t) && Attached(t) && Counted(t) && t.corruptions == t.pendingCorrupt
  {
    hide Laid;
    hide Counted;
    hide Inv;
    hide LoadedTrue;
    hide R.Kept;
    hide CrashedAs;
    hide AllFound;
    hide R.WellClamped;
    hide Rebuilt;
    CrashedDirectory(p, fs, ds, segSize);
    var ls, laid := R.Kept(p, ds, segSize).1, AllFound(p, fs, ds, segSize);
    if ls == [] {
      EmptyIsTrue(segSize);
      RecoveredKeepsInv([O.Empty(segSize)], [[]], loss, segSize, maxSegments, policy);
      RecoveredCounts([O.Empty(segSize)], [[]], loss, segSize, maxSegments, policy);
    } else {
      KeptFits(p, ds, segSize);
      RecoveredKeepsInv(ls, laid, loss, segSize, maxSegments, policy);
      RecoveredCounts(ls, laid, loss, segSize, maxSegments, policy);
    }
  }

  lemma EmptyIsTrue(segSize: nat)
    ensures AllTrue([O.Empty(segSize)], [[]])
    ensures forall l <- [O.Empty(segSize)] :: l.size <= l.capacity && R.WellClamped(l)
  {
    assert LoadedTrue(O.Empty(segSize), []);
  }

  /** The segments of a session, at one moment of it or another. */
  ghost predicate Seen(w: World, ops: seq<Op>, f: Seg)
    requires Legal(w, ops)
    decreases |ops|
  {
    f in w.st.files || (ops != [] && Seen(Exec(w, ops[0]), ops[1..], f))
  }

  lemma {:induction false} SeenIsLaid(w: World, ops: seq<Op>, f: Seg)
    requires Sound(w) && Legal(w, ops) && Counted(w.st) && HonestRun(w, ops) && Seen(w, ops, f)
    ensures Laid(f)
    decreases |ops|
  {
    hide Sound;
    hide Laid;
    hide HonestOp;
    hide OntoTail;
    hide LedgerCounted;
    if f in w.st.files {
      assert SegCounted(f, w.st.commitOff);
    } else {
      ExecKeeps(w, ops[0]);
      ExecCounts(w, ops[0]);
      SeenIsLaid(Exec(w, ops[0]), ops[1..], f);
    }
  }

  /** A crash anywhere in a run, over any of the segments it had, reclaimed ones back or not: whichever headers are found,
      Count() is the number of records found past the commit cursor. */
  lemma CrashCounts(
    p: F.Platform, w: World, ops: seq<Op>, fs: seq<Seg>, ds: seq<R.DiskSeg>, loss: R.Loss, segSize: nat, maxSegments: nat,
    policy: Policy)
    requires Sound(w) && Legal(w, ops) && Counted(w.st) && HonestRun(w, ops)
    requires forall f <- fs :: Seen(w, ops, f) || Laid(f)
    requires AllCrashed(p, fs, ds, segSize) && R.OnDisk(ds) && segSize < B.TWO63
    ensures var t := AfterCrash(p, fs, ds, loss, segSize, maxSegments, policy);
            && Sound(Begun(t)) && Counted(t) && Attached(t)
            && t.nWritten - t.nCommitted == Backlog(t.files, t.commitOff)
  {
    hide Inv;
    hide Counted;
    hide Legal;
    hide HonestRun;
    hide CrashedAs;
    hide AfterCrash;
    hide Laid;
    hide Seen;
    hide Attached;
    forall f <- fs ensures Laid(f) {
      if Seen(w, ops, f) {
        SeenIsLaid(w, ops, f);
      }
    }
    CrashedCounts(p, fs, ds, loss, segSize, maxSegments, policy);
    var t := AfterCrash(p, fs, ds, loss, segSize, maxSegments, policy);
    BeginsSound(t);
    BacklogIs(t);
  }

  /** The segment's bytes as they were laid down, or cut short. */
  ghost predicate Survived(p: F.Platform, f: Seg, h: Hdr, data: seq<B.byte>, ps: seq<seq<B.byte>>) {
    && F.Addressable(p, ps) && F.FrameBoundaries(p, ps, 0) == RecordsUnder(f, h) && |F.Frames(p, ps)| == h.writeCur - HEADER_SIZE
    && (data < F.Frames(p, ps) || F.Frames(p, ps) <= data)
  }

  /** How many of its records. */
  function Whole(p: F.Platform, h: Hdr, data: seq<B.byte>, ps: seq<seq<B.byte>>): (k: nat)
    ensures k <= |ps|
  {
    if |data| >= h.writeCur - HEADER_SIZE then |ps| else F.WholeFrames(p, ps, |data|)
  }

  lemma SurvivingSize(p: F.Platform, f: Seg, d: R.DiskSeg, l: R.Loaded, ps: seq<seq<B.byte>>, segSize: nat)
    requires Laid(f) && d.page.Believed? && d.page.hdr in f.images && d.page == R.Believed(d.page.hdr, f.capacity, segSize)
    requires R.LoadedFrom(p, d, l, segSize) && Survived(p, f, d.page.hdr, d.data, ps)
    ensures l.size == |F.Frames(p, ps[..Whole(p, d.page.hdr, d.data, ps)])|
  {
    hide Laid;
    hide Tells;
    hide F.FrameBoundaries;
    hide F.Frames;
    hide F.Walk;
    hide F.WholeFrames;
    hide F.Addressable;
    var h := d.page.hdr;
    TrueUnder(f, h);
    TellsBounds(RecordsUnder(f, h), h);
    if |d.data| >= h.writeCur - HEADER_SIZE {
      WholeLoads(p, d, h, f.capacity, segSize);
      assert ps[..|ps|] == ps;
    } else {
      var m := F.WholeFrames(p, ps, |d.data|);
      F.CutKeepsWholeFrames(p, ps, |d.data|);
      assert F.Frames(p, ps)[..|d.data|] == d.data;
      F.RecordsOfMeaning(p, ps[..m], 0);
      LostTailLoads(p, AsOf(f, h, RecordsUnder(f, h)), d, segSize, m, |F.Frames(p, ps[..m])|);
    }
  }

  /** Bytes that survived make the next run honest: over what load keeps of the segment the decoder answers at every
      record's start with exactly that record. */
  lemma SurvivorsAreHonest(
    p: F.Platform, f: Seg, d: R.DiskSeg, l: R.Loaded, ps: seq<seq<B.byte>>, g: Seg, off: int, segSize: nat)
    requires Laid(f) && d.page.Believed? && d.page.hdr in f.images && d.page == R.Believed(d.page.hdr, f.capacity, segSize)
    requires R.LoadedFrom(p, d, l, segSize) && Survived(p, f, d.page.hdr, d.data, ps)
    requires g.ends == RecordsFound(p, f, d) && g.size == l.size
    ensures 0 <= g.size <= |d.data| < B.TWO63 && FramesTrue(g, off, Reading(p, g, d.data, off))
    ensures g.base <= off < g.End() && Mark(g, off - g.base) ==> Decode(g, off, Reading(p, g, d.data, off)).End?
  {
    var h := d.page.hdr;
    var k := Whole(p, h, d.data, ps);
    SurvivingSize(p, f, d, l, ps, segSize);
    SurvivingRecords(p, f, d, ps);
    R.LoadedShape(p, d, l, segSize);
    hide R.LoadedFrom;
    hide Laid;
    hide F.FrameBoundaries;
    hide F.Frames;
    hide RecordsFound;
    UndamagedIsHonest(p, g, ps[..k], d.data, off);
  }

  lemma SurvivingRecords(p: F.Platform, f: Seg, d: R.DiskSeg, ps: seq<seq<B.byte>>)
    requires d.page.Believed? && |d.data| < B.TWO63 && Survived(p, f, d.page.hdr, d.data, ps)
    ensures var k := Whole(p, d.page.hdr, d.data, ps);
            && F.Addressable(p, ps[..k]) && RecordsFound(p, f, d) == F.FrameBoundaries(p, ps[..k], 0)
            && F.Frames(p, ps[..k]) <= d.data
  {
    hide F.FrameBoundaries;
    hide F.Frames;
    hide F.WholeFrames;
    hide RecordsUnder;
    hide CutTo;
    if |d.data| >= d.page.hdr.writeCur - HEADER_SIZE {
      assert ps[..|ps|] == ps;
    } else {
      CutsAtWholeFrames(p, ps, 0, |d.data|);
      BoundariesCut(p, ps, 0, F.WholeFrames(p, ps, |d.data|));
      F.WholeFramesIsMaximal(p, ps, |d.data|);
    }
  }

  // ----- sessions in a row, closed or cut off

  /** How a session ends: with every segment in place and the store unlatched, or in a crash that leaves ds of fs. */
  datatype Ending = Closed | Crashed(fs: seq<Seg>, ds: seq<R.DiskSeg>)

  datatype Life = Life(ops: seq<Op>, end: Ending)

  ghost predicate MayEnd(p: F.Platform, w: World, life: Life)
    requires Legal(w, life.ops)
  {
    var s := Run(w, life.ops).st;
    match life.end
    case Closed => Intact(s) && Sized(s.files)
    case Crashed(fs, ds) =>
      && AllCrashed(p, fs, ds, s.segmentSize) && R.OnDisk(ds) && s.segmentSize < B.TWO63
      && forall f <- fs :: Seen(w, life.ops, f)
  }

  /** The store the next open returns. */
  ghost function Next(p: F.Platform, w: World, life: Life): World
    requires Legal(w, life.ops) && MayEnd(p, w, life)
  {
    var s := Run(w, life.ops).st;
    match life.end
    case Closed => Begun(Reopened(s))
    case Crashed(fs, ds) =>
      Begun(AfterCrash(p, fs, ds, O.Booked(p, ds, s.segmentSize), s.segmentSize, s.maxSegments, s.policy))
  }

  /** What each session does between one open and the next. */
  ghost predicate Sessions(p: F.Platform, w: World, lives: seq<Life>)
    decreases |lives|
  {
    lives != [] ==>
      && Legal(w, lives[0].ops) && HonestRun(w, lives[0].ops) && MayEnd(p, w, lives[0])
      && Sessions(p, Next(p, w, lives[0]), lives[1..])
  }

  ghost function After(p: F.Platform, w: World, lives: seq<Life>): World
    requires Sessions(p, w, lives)
    decreases |lives|
  {
    if lives == [] then w else After(p, Next(p, w, lives[0]), lives[1..])
  }

  lemma NextKeeps(p: F.Platform, w: World, life: Life)
    requires Sound(w) && Counted(w.st) && Legal(w, life.ops) && HonestRun(w, life.ops) && MayEnd(p, w, life)
    ensures Sound(Next(p, w, life)) && Counted(Next(p, w, life).st)
  {
    hide Sound;
    hide Counted;
    hide Legal;
    hide HonestRun;
    hide Intact;
    hide Reopened;
    hide AfterCrash;
    hide AllCrashed;
    hide Seen;
    RunKeeps(w, life.ops);
    RunCounts(w, life.ops);
    var s := Run(w, life.ops).st;
    match life.end
    case Closed =>
      SoundInv(Run(w, life.ops));
      ReopenedCounts(s);
    case Crashed(fs, ds) =>
      CrashCounts(p, w, life.ops, fs, ds, O.Booked(p, ds, s.segmentSize), s.segmentSize, s.maxSegments, s.policy);
  }

  /** However many sessions have come and gone, closed or cut off, a run in the next one is proved from the same facts. */
  lemma {:induction false} SessionsKeep(p: F.Platform, w: World, lives: seq<Life>)
    requires Sound(w) && Counted(w.st) && Sessions(p, w, lives)
    ensures Sound(After(p, w, lives)) && Counted(After(p, w, lives).st)
    decreases |lives|
  {
    hide Sound;
    hide Counted;
    hide Legal;
    hide HonestRun;
    hide MayEnd;
    hide Next;
    if lives != [] {
      NextKeeps(p, w, lives[0]);
      SessionsKeep(p, Next(p, w, lives[0]), lives[1..]);
    }
  }

  /** From an empty directory, over any number of sessions, each closed or cut off by a crash, and then any run: Count()
      is the number of records past the commit cursor. */
  lemma CountAcrossSessions(
    p: F.Platform, lives: seq<Life>, ops: seq<Op>, segSize: nat, maxSegments: nat, policy: Policy)
    requires Sessions(p, Begun(Fresh(segSize, maxSegments, policy)), lives)
    requires var w := After(p, Begun(Fresh(segSize, maxSegments, policy)), lives); Legal(w, ops) && HonestRun(w, ops)
    ensures var s := Run(After(p, Begun(Fresh(segSize, maxSegments, policy)), lives), ops).st;
            s.nWritten - s.nCommitted == Backlog(s.files, s.commitOff)
  {
    var w := Begun(Fresh(segSize, maxSegments, policy));
    FreshIsSound(segSize, maxSegments, policy);
    SessionsKeep(p, w, lives);
    CountIsTheBacklog(After(p, w, lives), ops);
  }
}
