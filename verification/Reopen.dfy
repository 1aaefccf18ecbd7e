/** Memory against recovery: what a session leaves on disk, and what the next open makes of it. */
module Reopen {
  import opened Ints
  import opened Log
  import opened LogWalk
  import opened LogCommit
  import opened LogWrites
  import opened LogRuns
  import opened LogCounts
  import F = Frame
  import B = Bytes
  import O = Open
  import R = Recovery

  // ----- the directory a running store has behind it

  /** Every header made it to disk as last written, over a file of its full length. */
  ghost predicate Intact(s: St) {
    && !s.latched
    && (forall f <- s.files :: !f.gone && f.capacity < B.TWO63)
  }

  function OnDiskAs(f: Seg, fill: seq<B.byte>, segSize: nat): R.DiskSeg
    requires f.images != []
  {
    R.DiskSeg(R.Believed(f.images[|f.images| - 1], f.capacity, segSize), fill)
  }

  /** The directory: last images, and data regions of the full preallocated length holding any bytes. */
  ghost predicate DirectoryOf(fs: seq<Seg>, ds: seq<R.DiskSeg>, segSize: nat) {
    && |ds| == |fs|
    && forall i | 0 <= i < |fs| ::
         fs[i].images != [] && |ds[i].data| == fs[i].capacity && ds[i] == OnDiskAs(fs[i], ds[i].data, segSize)
  }

  /** What loading an intact segment concludes. */
  function Concluded(f: Seg): R.Loaded
    requires 0 <= f.size <= f.capacity
  {
    R.Loaded(f.size, f.capacity, Max(f.written, 0), Clamp(f.hdr.committed, Max(f.written, 0)), f.hdr.commitCur, false, false)
  }

  lemma IntactLoads(p: F.Platform, f: Seg, d: R.DiskSeg, c: int, segSize: nat)
    requires 0 <= f.size <= f.capacity < B.TWO63 && segSize < B.TWO63 && !f.gone && Resident(f, c) && OnDisk(f)
    requires |d.data| == f.capacity && f.images != [] && d == OnDiskAs(f, d.data, segSize)
    ensures R.LoadSeg(p, d, false, segSize) == R.Keep(Concluded(f), R.NO_LOSS)
    ensures R.LoadedFrom(p, d, Concluded(f), segSize)
  {
  }

  function AllConcluded(fs: seq<Seg>): (ls: seq<R.Loaded>)
    requires forall f <- fs :: 0 <= f.size <= f.capacity
    ensures |ls| == |fs| && forall i | 0 <= i < |fs| :: ls[i] == Concluded(fs[i])
  {
    if fs == [] then []
    else
      assert fs[0] in fs;
      [Concluded(fs[0])] + AllConcluded(fs[1..])
  }

  lemma DirectoryLoads(p: F.Platform, s: St, ds: seq<R.DiskSeg>)
    requires Inv(s) && Intact(s) && DirectoryOf(s.files, ds, s.segmentSize) && s.segmentSize < B.TWO63
    ensures forall f <- s.files :: 0 <= f.size <= f.capacity
    ensures R.OnDisk(ds) && R.Kept(p, ds, s.segmentSize) == (ds, AllConcluded(s.files))
  {
    hide R.LoadSeg;
    forall f <- s.files ensures 0 <= f.size <= f.capacity {
      var i :| 0 <= i < |s.files| && s.files[i] == f;
    }
    forall i | 0 <= i < |ds| ensures R.LoadedFrom(p, ds[i], AllConcluded(s.files)[i], s.segmentSize) {
      assert s.files[i] in s.files;
      IntactLoads(p, s.files[i], ds[i], s.commitOff, s.segmentSize);
    }
    R.LoadedIsKept(p, ds, AllConcluded(s.files), s.segmentSize);
  }

  // ----- the recovered cursor

  /** In every segment, the recovered cursor stands where the running one did. */
  ghost predicate SamePosition(fs: seq<Seg>, base: int, commit: int, recovered: int) {
    fs != [] ==>
      && Clamp(recovered - base, fs[0].size) == fs[0].Pos(commit)
      && SamePosition(fs[1..], base + fs[0].size, commit, recovered)
  }

  function TotalSize(fs: seq<Seg>): int {
    if fs == [] then 0 else fs[0].size + TotalSize(fs[1..])
  }

  lemma {:induction false} AboveTheCursor(fs: seq<Seg>, base: int, commit: int, recovered: int)
    requires Ordered(fs) && (forall f <- fs :: f.base >= commit) && recovered <= base
    ensures SamePosition(fs, base, commit, recovered)
  {
    if fs != [] {
      assert fs[0] in fs;
      OrderedTail(fs);
      AboveTheCursor(fs[1..], base + fs[0].size, commit, recovered);
    }
  }

  lemma {:induction false} JoinedSpan(fs: seq<Seg>, commit: int, write: int)
    requires fs != [] && Ordered(fs) && Joined(fs, commit) && fs[0].End() > commit && fs[|fs| - 1].End() == write
    ensures TotalSize(fs) == write - fs[0].base
  {
    if |fs| > 1 {
      OrderedTail(fs);
      assert fs[0].End() <= fs[1].base;
      JoinedRest(fs, commit);
      assert fs[1..][|fs| - 2] == fs[|fs| - 1];
      JoinedSpan(fs[1..], commit, write);
    } else {
      assert fs[1..] == [];
    }
  }

  lemma JoinedRest(fs: seq<Seg>, commit: int)
    requires fs != [] && Joined(fs, commit)
    ensures Joined(fs[1..], commit)
  {
    forall i | 0 < i < |fs[1..]| && fs[1..][i].base > commit ensures fs[1..][i - 1].End() == fs[1..][i].base {
      assert fs[i + 1].base > commit;
    }
  }

  ghost predicate HeadersStand(fs: seq<Seg>, commit: int) {
    forall f <- fs :: 0 <= f.size <= f.capacity && f.hdr.commitCur == HEADER_SIZE + f.Pos(commit)
  }

  lemma ScanStopsHere(fs: seq<Seg>, base: int, commit: int, write: int)
    requires fs != [] && Ordered(fs) && JoinedFrom(fs, commit) && Covers(fs, commit, write) && commit <= write
    requires fs[0].End() > commit
    ensures SamePosition(fs, base, commit, base + commit - fs[0].base)
    ensures TotalSize(fs) == write - fs[0].base
  {
    RestAbove(fs, commit);
    LastEndsLast(fs, fs[0]);
    JoinedSpan(fs, commit, write);
    AboveTheCursor(fs[1..], base + fs[0].size, commit, base + commit - fs[0].base);
    hide Ordered;
    hide Joined;
  }

  lemma RestAbove(fs: seq<Seg>, commit: int)
    requires fs != [] && Ordered(fs) && fs[0].End() >= commit
    ensures Ordered(fs[1..]) && fs[0].size >= 0 && forall g <- fs[1..] :: g.base >= commit
  {
    forall g <- fs[1..] ensures g.base >= commit {
      var i :| 0 <= i < |fs| - 1 && fs[1..][i] == g;
      assert fs[0].End() <= fs[i + 1].base;
    }
  }

  lemma ScanStep(fs: seq<Seg>, base: int, commit: int)
    requires fs != [] && HeadersStand(fs, commit) && fs[0].base <= commit
    ensures HeadersStand(fs[1..], commit)
    ensures R.Scan(AllConcluded(fs), base) ==
            if fs[0].End() > commit then base + commit - fs[0].base else R.Scan(AllConcluded(fs[1..]), base + fs[0].size)
  {
    assert fs[0] in fs && forall g <- fs[1..] :: g in fs;
    assert AllConcluded(fs)[1..] == AllConcluded(fs[1..]);
  }

  lemma CoversTail(fs: seq<Seg>, commit: int, write: int)
    requires fs != [] && Ordered(fs) && JoinedFrom(fs, commit) && Covers(fs, commit, write) && fs[0].End() <= commit <= write
    ensures Ordered(fs[1..]) && JoinedFrom(fs[1..], commit) && Covers(fs[1..], commit, write)
  {
    OrderedTail(fs);
    JoinedTail(fs, commit);
    assert |fs| > 1 ==> fs[1..][|fs| - 2] == fs[|fs| - 1];
  }

  /** The first-not-fully-committed scan, on the headers a running store leaves. */
  lemma {:induction false} ScanFindsTheCursor(fs: seq<Seg>, base: int, commit: int, write: int)
    requires Ordered(fs) && JoinedFrom(fs, commit) && Covers(fs, commit, write) && commit <= write && HeadersStand(fs, commit)
    ensures var r := R.Scan(AllConcluded(fs), base);
            && SamePosition(fs, base, commit, r)
            && base + TotalSize(fs) - r == write - commit
            && r >= base
  {
    hide Ordered;
    hide JoinedFrom;
    hide Covers;
    hide HeadersStand;
    hide AllConcluded;
    hide R.Scan;
    CoversStart(fs, commit, write);
    if fs == [] {
      NothingToScan(base);
    } else {
      ScanStep(fs, base, commit);
      if fs[0].End() <= commit {
        CoversTail(fs, commit, write);
        ScanFindsTheCursor(fs[1..], base + fs[0].size, commit, write);
        CommittedPos(fs[0], base, commit, R.Scan(AllConcluded(fs[1..]), base + fs[0].size));
      } else {
        ScanStopsHere(fs, base, commit, write);
      }
    }
  }

  lemma CoversStart(fs: seq<Seg>, commit: int, write: int)
    requires Ordered(fs) && JoinedFrom(fs, commit) && Covers(fs, commit, write)
    ensures if fs == [] then commit == write else fs[0].base <= commit && fs[0].size >= 0
  {
  }

  lemma NothingToScan(base: int)
    ensures AllConcluded([]) == [] && R.Scan([], base) == base
  {
  }

  lemma CommittedPos(f: Seg, base: int, commit: int, r: int)
    requires f.size >= 0 && f.End() <= commit && r >= base + f.size
    ensures f.Pos(commit) == Clamp(r - base, f.size) == f.size
  {
  }

  lemma InvCovers(s: St)
    requires Inv(s)
    ensures Ordered(s.files) && JoinedFrom(s.files, s.commitOff) && Covers(s.files, s.commitOff, s.writeOff)
    ensures s.commitOff <= s.writeOff
  {
  }

  lemma IntactStands(s: St)
    requires Inv(s) && Intact(s)
    ensures HeadersStand(s.files, s.commitOff)
  {
    forall f <- s.files ensures 0 <= f.size <= f.capacity && f.hdr.commitCur == HEADER_SIZE + f.Pos(s.commitOff) {
      var i :| 0 <= i < |s.files| && s.files[i] == f;
      assert Resident(s.files[i], s.commitOff);
    }
  }

  /** After every return of every operation: recovery's scan of the headers just written is the memory cursor. */
  lemma CommitCursorAgreement(p: F.Platform, s: St, ds: seq<R.DiskSeg>)
    requires Inv(s) && Intact(s) && DirectoryOf(s.files, ds, s.segmentSize) && s.segmentSize < B.TWO63
    ensures R.OnDisk(ds)
    ensures var (kept, ls) := R.Kept(p, ds, s.segmentSize);
            && kept == ds
            && SamePosition(s.files, 0, s.commitOff, R.Scan(ls, 0))
            && TotalSize(s.files) - R.Scan(ls, 0) == s.writeOff - s.commitOff
  {
    hide Inv;
    hide DirectoryOf;
    hide R.OnDisk;
    hide R.Kept;
    InvCovers(s);
    IntactStands(s);
    DirectoryLoads(p, s, ds);
    ScanFindsTheCursor(s.files, 0, s.commitOff, s.writeOff);
  }

  // ----- the recovered counts

  /** Segment by segment: the reconciled counts are the running ones, and the header already says so. */
  ghost predicate CountsMatch(fs: seq<Seg>, ls: seq<R.Loaded>, base: int, recovered: int)
    decreases |fs|
  {
    && |fs| == |ls|
    && (fs != [] ==>
          && ls[0].written == fs[0].written
          && R.Reconciled(ls[0], base, recovered) == fs[0].committed
          && R.Target(ls[0], base, recovered) == fs[0].hdr
          && CountsMatch(fs[1..], ls[1..], base + fs[0].size, recovered))
  }

  lemma SegCountsMatch(f: Seg, base: int, commit: int, recovered: int)
    requires SettledSeg(f, commit) && Clamp(recovered - base, f.size) == f.Pos(commit)
    ensures var l := Concluded(f);
            && l.written == f.written && R.Reconciled(l, base, recovered) == f.committed
            && R.Target(l, base, recovered) == f.hdr
  {
    RankGrows(f.ends, f.Pos(commit), f.size);
    RankOfAll(f.ends, f.size);
    RankOfNone(f.ends, 0);
  }

  ghost predicate SettledSeg(f: Seg, commit: int) {
    0 <= f.size <= f.capacity < B.TWO63 && !f.gone && Resident(f, commit) && OnDisk(f) && SegCounted(f, commit)
  }

  ghost predicate Settled(fs: seq<Seg>, commit: int) {
    forall f <- fs :: 0 <= f.size <= f.capacity && SettledSeg(f, commit)
  }

  lemma {:induction false} AllCountsMatch(fs: seq<Seg>, base: int, commit: int, recovered: int)
    requires Settled(fs, commit) && SamePosition(fs, base, commit, recovered)
    ensures CountsMatch(fs, AllConcluded(fs), base, recovered)
    decreases |fs|
  {
    if fs != [] {
      ConcludedHead(fs, commit);
      SegCountsMatch(fs[0], base, commit, recovered);
      AllCountsMatch(fs[1..], base + fs[0].size, commit, recovered);
    }
  }

  lemma DirectoryTail(fs: seq<Seg>, ds: seq<R.DiskSeg>, segSize: nat)
    requires DirectoryOf(fs, ds, segSize) && fs != []
    ensures |ds| == |fs| && fs[0].images != [] && |ds[0].data| == fs[0].capacity && ds[0] == OnDiskAs(fs[0], ds[0].data, segSize)
    ensures DirectoryOf(fs[1..], ds[1..], segSize)
  {
    forall i | 0 <= i < |fs[1..]|
      ensures fs[1..][i].images != [] && |ds[1..][i].data| == fs[1..][i].capacity
      ensures ds[1..][i] == OnDiskAs(fs[1..][i], ds[1..][i].data, segSize)
    {
      assert ds[i + 1] == OnDiskAs(fs[i + 1], ds[i + 1].data, segSize);
    }
  }

  lemma QuietSeg(p: F.Platform, f: Seg, d: R.DiskSeg, base: int, commit: int, recovered: int, segSize: nat)
    requires SettledSeg(f, commit) && segSize < B.TWO63 && R.Target(Concluded(f), base, recovered) == f.hdr
    requires |d.data| == f.capacity && f.images != [] && d == OnDiskAs(f, d.data, segSize)
    ensures R.Addressable(d) && R.LoadSeg(p, d, false, segSize) == R.Keep(Concluded(f), R.NO_LOSS)
    ensures !R.NeedsRepair(d, Concluded(f), base, recovered)
  {
    IntactLoads(p, f, d, commit, segSize);
  }

  lemma ConcludedHead(fs: seq<Seg>, commit: int)
    requires fs != [] && Settled(fs, commit)
    ensures SettledSeg(fs[0], commit) && Settled(fs[1..], commit) && 0 <= fs[0].size <= fs[0].capacity
    ensures AllConcluded(fs) != [] && AllConcluded(fs)[0] == Concluded(fs[0]) && AllConcluded(fs)[0].size == fs[0].size
    ensures AllConcluded(fs)[1..] == AllConcluded(fs[1..])
  {
    assert fs[0] in fs && forall g <- fs[1..] :: g in fs;
  }

  lemma {:induction false} MatchedIsQuiet(p: F.Platform, fs: seq<Seg>, ds: seq<R.DiskSeg>, base: int, commit: int, recovered: int, segSize: nat)
    requires DirectoryOf(fs, ds, segSize) && segSize < B.TWO63 && Settled(fs, commit)
    requires CountsMatch(fs, AllConcluded(fs), base, recovered)
    ensures R.Quiet(p, ds, AllConcluded(fs), base, recovered, segSize)
    decreases |fs|
  {
    hide DirectoryOf;
    hide SettledSeg;
    hide Concluded;
    hide R.LoadSeg;
    hide R.NeedsRepair;
    hide R.Target;
    hide R.Reconciled;
    hide AllConcluded;
    if fs != [] {
      ConcludedHead(fs, commit);
      DirectoryTail(fs, ds, segSize);
      QuietSeg(p, fs[0], ds[0], base, commit, recovered, segSize);
      MatchedIsQuiet(p, fs[1..], ds[1..], base + fs[0].size, commit, recovered, segSize);
    } else {
      DirectoryEmpty(ds, segSize);
    }
  }

  lemma DirectoryEmpty(ds: seq<R.DiskSeg>, segSize: nat)
    requires DirectoryOf([], ds, segSize)
    ensures ds == [] && AllConcluded([]) == []
  {
  }

  lemma IntactIsSettled(s: St)
    requires Inv(s) && Intact(s) && Counted(s)
    ensures Settled(s.files, s.commitOff)
  {
    forall f <- s.files ensures 0 <= f.size <= f.capacity && SettledSeg(f, s.commitOff) {
      var i :| 0 <= i < |s.files| && s.files[i] == f;
      assert Resident(s.files[i], s.commitOff);
    }
  }

  /** A store whose counts are exact reopens with every segment's counts as they were, nothing to repair, nothing
      booked. */
  lemma CountsAgree(p: F.Platform, s: St, ds: seq<R.DiskSeg>)
    requires Inv(s) && Intact(s) && Counted(s) && DirectoryOf(s.files, ds, s.segmentSize) && s.segmentSize < B.TWO63
    ensures R.OnDisk(ds)
    ensures var ls := R.Kept(p, ds, s.segmentSize).1;
            && CountsMatch(s.files, ls, 0, R.Scan(ls, 0))
            && R.Quiet(p, ds, ls, 0, R.Scan(ls, 0), s.segmentSize)
  {
    hide Inv;
    hide Counted;
    hide R.Quiet;
    CommitCursorAgreement(p, s, ds);
    DirectoryLoads(p, s, ds);
    IntactIsSettled(s);
    var r := R.Scan(AllConcluded(s.files), 0);
    AllCountsMatch(s.files, 0, s.commitOff, r);
    MatchedIsQuiet(p, s.files, ds, 0, s.commitOff, r, s.segmentSize);
  }

  // ----- what load builds

  /** Where the records of each kept segment stop: what their bytes hold, which load looks at only when it must. */
  type Layout = seq<seq<int>>

  /** The segments as load leaves them: bases in a row from base, counts reconciled, headers as just published. */
  function Rebuilt(ls: seq<R.Loaded>, laid: Layout, base: int, commit: int, num: nat): (fs: seq<Seg>)
    requires |laid| == |ls|
    ensures |fs| == |ls|
    decreases |ls|
  {
    if ls == [] then []
    else
      var h := R.Target(ls[0], base, commit);
      [Seg(num, base, ls[0].size, ls[0].capacity, ls[0].written, h.committed, h, [h], false, 0, laid[0], [])]
      + Rebuilt(ls[1..], laid[1..], base + ls[0].size, commit, num + 1)
  }

  /** The store over segments load kept; every corruption it booked is owed to a reader. */
  function Recovered(ls: seq<R.Loaded>, laid: Layout, loss: R.Loss, segSize: nat, maxSegments: nat, policy: Policy): St
    requires |laid| == |ls|
  {
    var commit := R.Scan(ls, 0);
    var fs := Rebuilt(ls, laid, 0, commit, 1);
    St(fs, commit, commit, R.Total(ls), [], SumWritten(fs), SumCommitted(fs), 0, false, false,
       loss.corruptions, loss.corruptions, loss.lostBytes, loss.lostRecords, loss.lostSegments,
       0, 0, SumBytes(fs), 0, |ls| + 1, segSize, maxSegments, policy, 0)
  }

  lemma RebuiltUnfolds(ls: seq<R.Loaded>, laid: Layout, base: int, commit: int, num: nat)
    requires |laid| == |ls| && ls != []
    ensures var fs := Rebuilt(ls, laid, base, commit, num);
            && fs[1..] == Rebuilt(ls[1..], laid[1..], base + ls[0].size, commit, num + 1)
            && fs[0].base == base && fs[0].size == ls[0].size && fs[0].capacity == ls[0].capacity
            && Resident(fs[0], commit) && OnDisk(fs[0])
  {
  }

  lemma {:induction false} RebuiltInOrder(ls: seq<R.Loaded>, laid: Layout, base: int, commit: int, num: nat)
    requires |laid| == |ls| && base >= 0 && forall l <- ls :: l.size <= l.capacity
    ensures Ordered(Rebuilt(ls, laid, base, commit, num))
    ensures forall f <- Rebuilt(ls, laid, base, commit, num) :: base <= f.base
    decreases |ls|
  {
    if ls != [] {
      hide Rebuilt;
      hide Resident;
      hide OnDisk;
      hide Ordered;
      RebuiltUnfolds(ls, laid, base, commit, num);
      assert ls[0] in ls && forall l <- ls[1..] :: l in ls;
      RebuiltInOrder(ls[1..], laid[1..], base + ls[0].size, commit, num + 1);
      HeadInOrder(Rebuilt(ls, laid, base, commit, num));
    }
  }

  lemma HeadInOrder(fs: seq<Seg>)
    requires fs != [] && Ordered(fs[1..]) && fs[0].base >= 0 && 0 <= fs[0].size <= fs[0].capacity
    requires forall g <- fs[1..] :: fs[0].End() <= g.base
    ensures Ordered(fs) && forall f <- fs :: fs[0].base <= f.base
  {
    assert fs == [fs[0]] + fs[1..];
    OrderedCons(fs[0], fs[1..]);
  }

  lemma {:induction false} RebuiltSpan(ls: seq<R.Loaded>, laid: Layout, base: int, commit: int, num: nat)
    requires |laid| == |ls| && ls != []
    ensures var fs := Rebuilt(ls, laid, base, commit, num);
            fs[0].base == base && fs[|fs| - 1].End() == base + R.Total(ls)
    decreases |ls|
  {
    RebuiltUnfolds(ls, laid, base, commit, num);
    if |ls| > 1 {
      hide Rebuilt;
      RebuiltSpan(ls[1..], laid[1..], base + ls[0].size, commit, num + 1);
      var fs := Rebuilt(ls, laid, base, commit, num);
      assert fs[|fs| - 1] == fs[1..][|fs| - 2];
    } else {
      assert R.Total(ls[1..]) == 0;
    }
  }

  lemma {:induction false} RebuiltJoined(ls: seq<R.Loaded>, laid: Layout, base: int, commit: int, num: nat)
    requires |laid| == |ls|
    ensures forall i | 0 < i < |ls| :: Rebuilt(ls, laid, base, commit, num)[i - 1].End() == Rebuilt(ls, laid, base, commit, num)[i].base
    decreases |ls|
  {
    if ls != [] {
      hide Rebuilt;
      RebuiltUnfolds(ls, laid, base, commit, num);
      RebuiltJoined(ls[1..], laid[1..], base + ls[0].size, commit, num + 1);
      var fs := Rebuilt(ls, laid, base, commit, num);
      forall i | 0 < i < |ls| ensures fs[i - 1].End() == fs[i].base {
        assert fs[i] == fs[1..][i - 1];
        if i > 1 {
          assert fs[i - 1] == fs[1..][i - 2];
        } else {
          RebuiltUnfolds(ls[1..], laid[1..], base + ls[0].size, commit, num + 1);
        }
      }
    }
  }

  lemma {:induction false} RebuiltAgrees(ls: seq<R.Loaded>, laid: Layout, base: int, commit: int, num: nat)
    requires |laid| == |ls|
    ensures forall f <- Rebuilt(ls, laid, base, commit, num) :: Resident(f, commit) && OnDisk(f)
    decreases |ls|
  {
    if ls != [] {
      hide Rebuilt;
      RebuiltUnfolds(ls, laid, base, commit, num);
      hide Resident;
      hide OnDisk;
      RebuiltAgrees(ls[1..], laid[1..], base + ls[0].size, commit, num + 1);
      var fs := Rebuilt(ls, laid, base, commit, num);
      assert fs == [fs[0]] + fs[1..];
    }
  }

  lemma KeptFits(p: F.Platform, ds: seq<R.DiskSeg>, segSize: nat)
    requires R.OnDisk(ds) && segSize < B.TWO63
    ensures forall l <- R.Kept(p, ds, segSize).1 :: l.size <= l.capacity && R.WellClamped(l)
  {
    var (kept, ls) := R.Kept(p, ds, segSize);
    R.KeptIsLoaded(p, ds, segSize);
    R.LoadedClamped(p, kept, ls, segSize);
    forall l <- ls ensures l.size <= l.capacity {
      var i :| 0 <= i < |ls| && ls[i] == l;
      assert R.LoadedFrom(p, kept[i], ls[i], segSize);
      R.LoadedShape(p, kept[i], l, segSize);
    }
  }

  lemma RecoveredKeepsInv(ls: seq<R.Loaded>, laid: Layout, loss: R.Loss, segSize: nat, maxSegments: nat, policy: Policy)
    requires |laid| == |ls| && ls != [] && forall l <- ls :: l.size <= l.capacity && R.WellClamped(l)
    ensures Inv(Recovered(ls, laid, loss, segSize, maxSegments, policy)) && Attached(Recovered(ls, laid, loss, segSize, maxSegments, policy))
  {
    hide Rebuilt;
    hide Ordered;
    hide Resident;
    hide OnDisk;
    hide Tracks;
    hide R.Scan;
    hide R.Total;
    hide SumWritten;
    hide SumCommitted;
    hide SumBytes;
    var commit := R.Scan(ls, 0);
    R.ScanWithin(ls, 0);
    RebuiltInOrder(ls, laid, 0, commit, 1);
    RebuiltSpan(ls, laid, 0, commit, 1);
    RebuiltJoined(ls, laid, 0, commit, 1);
    RebuiltAgrees(ls, laid, 0, commit, 1);
    AgreeTracks(Recovered(ls, laid, loss, segSize, maxSegments, policy));
  }

  function Begun(s: St): World {
    World(s, {}, 0, 0, s.headOff, s.lostBytes)
  }

  /** Whatever load finds, the store it returns satisfies everything a run is proved from. */
  lemma RecoveredIsSound(
    p: F.Platform, ds: seq<R.DiskSeg>, laid: Layout, loss: R.Loss, segSize: nat, maxSegments: nat, policy: Policy)
    requires R.OnDisk(ds) && segSize < B.TWO63 && R.Kept(p, ds, segSize).1 != [] && |laid| == |R.Kept(p, ds, segSize).1|
    ensures var s := Recovered(R.Kept(p, ds, segSize).1, laid, loss, segSize, maxSegments, policy);
            Sound(Begun(s)) && Attached(s)
  {
    hide R.Kept;
    hide Inv;
    KeptFits(p, ds, segSize);
    RecoveredKeepsInv(R.Kept(p, ds, segSize).1, laid, loss, segSize, maxSegments, policy);
  }

  /** startFresh: one empty segment. */
  function Fresh(segSize: nat, maxSegments: nat, policy: Policy): St {
    var f := Seg(1, 0, 0, segSize, 0, 0, Hdr(HEADER_SIZE, HEADER_SIZE, 0, 0), [Hdr(HEADER_SIZE, HEADER_SIZE, 0, 0)], false, 0, [], []);
    St([f], 0, 0, 0, [], 0, 0, 0, false, false, 0, 0, 0, 0, 0, 0, 0, HEADER_SIZE + segSize, 0, 2, segSize, maxSegments, policy, 0)
  }

  /** A fresh store starts every run with exact counts. */
  lemma FreshIsSound(segSize: nat, maxSegments: nat, policy: Policy)
    ensures var s := Fresh(segSize, maxSegments, policy);
            Sound(World(s, {}, 0, 0, 0, 0)) && Counted(s) && Attached(s)
  {
    var s := Fresh(segSize, maxSegments, policy);
    FreshCounted(segSize, maxSegments, policy);
    hide Counted;
    assert Resident(s.files[0], 0) && OnDisk(s.files[0]);
    SumsAppend([], s.files[0]);
    assert [] + s.files == s.files;
  }

  lemma FreshCounted(segSize: nat, maxSegments: nat, policy: Policy)
    ensures Counted(Fresh(segSize, maxSegments, policy))
  {
    var s := Fresh(segSize, maxSegments, policy);
    OneImage(s.files[0], s.files[0].hdr);
    assert SegCounted(s.files[0], 0);
    hide SegCounted;
  }
}
