/** load, step by step: its passes over the directory, and its backwards repair loop that any fault may stop. */
module Open {
  import opened Ints
  import opened Bytes
  import opened Frame
  import opened Recovery
  import L = Log

  // ----- the passes by index

  lemma {:induction false} BaseNext(ls: seq<Loaded>, base: int, i: nat)
    requires i < |ls|
    ensures BaseOf(ls, base, i + 1) == BaseOf(ls, base, i) + ls[i].size
    decreases |ls|
  {
    if i > 0 {
      BaseNext(ls[1..], base + ls[0].size, i - 1);
    }
  }

  lemma BaseOfNone(base: int)
    ensures BaseOf([], base, 0) == base
  {
  }

  lemma {:induction false} BaseOfAll(ls: seq<Loaded>, base: int)
    ensures BaseOf(ls, base, |ls|) == base + Total(ls)
    decreases |ls|
  {
    if ls != [] {
      BaseOfAll(ls[1..], base + ls[0].size);
    }
  }

  /** The scan's answer once the first i segments have declined to decide. */
  lemma {:induction false} ScanFrom(ls: seq<Loaded>, base: int, i: nat)
    requires i <= |ls| && forall k | 0 <= k < i :: !Decides(ls[k])
    ensures Scan(ls, base) == Scan(ls[i..], BaseOf(ls, base, i))
    decreases |ls|
  {
    if i > 0 {
      assert !Decides(ls[0]);
      forall k | 0 <= k < i - 1 ensures !Decides(ls[1..][k]) {
        assert !Decides(ls[k + 1]);
      }
      ScanFrom(ls[1..], base + ls[0].size, i - 1);
      assert ls[1..][i - 1..] == ls[i..];
    } else {
      assert ls[0..] == ls;
    }
  }

  /** The recursive description of a stopped repair, index by index. */
  lemma {:induction false} RepairedAt(
    ds: seq<DiskSeg>, ls: seq<Loaded>, base: int, commit: int, segSize: nat, k: nat, ext: nat -> bool, j: nat)
    requires |ds| == |ls| && j < |ds|
    ensures RepairedFrom(ds, ls, base, commit, segSize, k, ext)[j] ==
            if j < k then ds[j] else Repair(ds[j], ls[j], BaseOf(ls, base, j), commit, segSize, ext(|ds| - j))
    decreases |ds|
  {
    hide Repair;
    if j > 0 {
      RepairedAt(ds[1..], ls[1..], base + ls[0].size, commit, segSize, if k > 0 then k - 1 else 0, ext, j - 1);
    }
  }

  // ----- the losses the first pass books

  function Plus(a: Loss, b: Loss): Loss {
    Loss(a.corruptions + b.corruptions, a.lostBytes + b.lostBytes, a.lostSegments + b.lostSegments,
         a.lostRecords + b.lostRecords, a.discarded + b.discarded)
  }

  lemma PlusCorruptions(a: Loss, b: Loss)
    ensures Plus(a, b).corruptions == a.corruptions + b.corruptions
  {
  }

  function LossOf(v: Verdict): Loss {
    if v.Mismatch? then NO_LOSS else v.loss
  }

  function Booked(p: Platform, ds: seq<DiskSeg>, segSize: nat): Loss
    requires OnDisk(ds)
  {
    if ds == [] then NO_LOSS
    else
      assert ds[0] in ds && forall d <- ds[1..] :: d in ds;
      Plus(LossOf(LoadSeg(p, ds[0], |ds| == 1, segSize)), Booked(p, ds[1..], segSize))
  }

  /** What the first pass meets at a segment: a read its verdict needs may fail, and so may the unlink of a
      dropped one. */
  datatype LookAns = Looked | CannotLook | CannotRemove

  /** The segment lets the open go on. */
  predicate Passes(p: Platform, ds: seq<DiskSeg>, segSize: nat, looks: nat -> LookAns, i: nat)
    requires OnDisk(ds) && i < |ds|
  {
    && looks(i) != CannotLook && ds[i] in ds
    && var v := LoadSeg(p, ds[i], i == |ds| - 1, segSize);
       !v.Mismatch? && (v.Dropped? ==> looks(i) != CannotRemove)
  }

  predicate Refuses(p: Platform, ds: seq<DiskSeg>, segSize: nat, looks: nat -> LookAns)
    requires OnDisk(ds)
  {
    exists i | 0 <= i < |ds| :: !Passes(p, ds, segSize, looks, i)
  }

  /** The segments of the first n that were looked at and found unreadable, foreign or never written. */
  function Drops(p: Platform, ds: seq<DiskSeg>, segSize: nat, n: nat): set<nat>
    requires OnDisk(ds) && n <= |ds|
  {
    set k: nat | k < n && ds[k] in ds && LoadSeg(p, ds[k], k == |ds| - 1, segSize).Dropped?
  }

  lemma DropsNext(p: Platform, ds: seq<DiskSeg>, segSize: nat, i: nat)
    requires OnDisk(ds) && i < |ds| && ds[i] in ds
    ensures Drops(p, ds, segSize, i + 1) ==
            Drops(p, ds, segSize, i) + if LoadSeg(p, ds[i], i == |ds| - 1, segSize).Dropped? then {i} else {}
  {
    hide LoadSeg;
  }

  lemma DropsWereLookedAt(p: Platform, ds: seq<DiskSeg>, segSize: nat, looks: nat -> LookAns, at: nat, unlinked: set<nat>)
    requires OnDisk(ds) && at <= |ds| && forall k: nat | k < at :: Passes(p, ds, segSize, looks, k)
    requires unlinked == Drops(p, ds, segSize, if at < |ds| && looks(at) != CannotLook then at + 1 else at)
    ensures forall k <- unlinked ::
              k < |ds| && looks(k) != CannotLook && ds[k] in ds && LoadSeg(p, ds[k], k == |ds| - 1, segSize).Dropped?
  {
    hide LoadSeg;
    forall k <- unlinked
      ensures k < |ds| && looks(k) != CannotLook && ds[k] in ds && LoadSeg(p, ds[k], k == |ds| - 1, segSize).Dropped?
    {
      assert k < at ==> Passes(p, ds, segSize, looks, k);
    }
  }

  lemma KeptStep(p: Platform, ds: seq<DiskSeg>, segSize: nat, i: nat)
    requires OnDisk(ds) && i < |ds|
    ensures ds[i] in ds && Recovery.Addressable(ds[i]) && OnDisk(ds[i..]) && OnDisk(ds[i + 1..])
    ensures var v := LoadSeg(p, ds[i], i == |ds| - 1, segSize);
            var (a, b), (rest, ls) := Kept(p, ds[i..], segSize), Kept(p, ds[i + 1..], segSize);
            && (a, b) == (if v.Keep? then ([ds[i]] + rest, [v.l] + ls) else (rest, ls))
            && Booked(p, ds[i..], segSize) == Plus(LossOf(v), Booked(p, ds[i + 1..], segSize))
  {
    assert ds[i..][0] == ds[i] && ds[i..][1..] == ds[i + 1..];
    hide LoadSeg;
  }

  /** One more segment of the directory read. */
  lemma KeptAdvances(p: Platform, ds: seq<DiskSeg>, segSize: nat, i: nat, a: seq<DiskSeg>, b: seq<Loaded>, booked: Loss)
    requires OnDisk(ds) && i < |ds| && OnDisk(ds[i..])
    requires Kept(p, ds, segSize) == (a + Kept(p, ds[i..], segSize).0, b + Kept(p, ds[i..], segSize).1)
    requires Booked(p, ds, segSize) == Plus(booked, Booked(p, ds[i..], segSize))
    ensures ds[i] in ds && Recovery.Addressable(ds[i]) && OnDisk(ds[i + 1..])
    ensures var v := LoadSeg(p, ds[i], i == |ds| - 1, segSize);
            var (a1, b1) := if v.Keep? then (a + [ds[i]], b + [v.l]) else (a, b);
            && Kept(p, ds, segSize) == (a1 + Kept(p, ds[i + 1..], segSize).0, b1 + Kept(p, ds[i + 1..], segSize).1)
            && Booked(p, ds, segSize) == Plus(Plus(booked, LossOf(v)), Booked(p, ds[i + 1..], segSize))
  {
    hide LoadSeg;
    KeptStep(p, ds, segSize, i);
    hide Kept;
    hide Booked;
    var v := LoadSeg(p, ds[i], i == |ds| - 1, segSize);
    var (rest, ls) := Kept(p, ds[i + 1..], segSize);
    assert a + ([ds[i]] + rest) == (a + [ds[i]]) + rest;
    if v.Keep? {
      assert b + ([v.l] + ls) == (b + [v.l]) + ls;
    }
  }

  lemma KeptStarts(p: Platform, ds: seq<DiskSeg>, segSize: nat)
    requires OnDisk(ds)
    ensures OnDisk(ds[0..]) && Booked(p, ds, segSize) == Plus(NO_LOSS, Booked(p, ds[0..], segSize))
    ensures Kept(p, ds, segSize) == ([] + Kept(p, ds[0..], segSize).0, [] + Kept(p, ds[0..], segSize).1)
  {
    assert ds[0..] == ds;
    hide Kept;
    hide Booked;
    var (a, b) := Kept(p, ds, segSize);
    assert [] + a == a && [] + b == b;
  }

  lemma KeptEnds(p: Platform, segSize: nat, a: seq<DiskSeg>, b: seq<Loaded>, booked: Loss)
    ensures (a + Kept(p, [], segSize).0, b + Kept(p, [], segSize).1) == (a, b)
    ensures Plus(booked, Booked(p, [], segSize)) == booked
  {
    assert a + [] == a && b + [] == b;
  }

  /** What one repair of the loop meets. */
  datatype RepairAns = Faulted | Repaired(extended: bool)

  /** Which re-extensions had room, counted from the tail as RepairedFrom counts. */
  function Extensions(n: nat, answers: nat -> RepairAns): nat -> bool {
    (m: nat) => m <= n && answers(n - m) == Repaired(true)
  }

  class Opening {
    const p: Platform
    const segSize: nat
    var disk: seq<DiskSeg>     // the kept segments, as they are durably
    var files: seq<Loaded>
    var bases: seq<int>
    var writeOff: int
    var commitOff: int
    var headOff: int
    var nWritten: int
    var nCommitted: int
    var diskBytes: int
    var pendingCorrupt: nat
    var booked: Loss
    var unlinked: set<nat>     // the segments whose removal was asked for

    constructor (p: Platform, segSize: nat)
      ensures this.p == p && this.segSize == segSize
      ensures disk == [] && files == [] && bases == [] && writeOff == commitOff == headOff == nWritten == nCommitted == diskBytes == 0
      ensures pendingCorrupt == 0 && booked == NO_LOSS && unlinked == {}
    {
      this.p, this.segSize := p, segSize;
      disk, files, bases := [], [], [];
      writeOff, commitOff, headOff, nWritten, nCommitted, diskBytes := 0, 0, 0, 0, 0, 0;
      pendingCorrupt, booked, unlinked := 0, NO_LOSS, {};
    }

    ghost predicate Laid()
      reads this
    {
      && |disk| == |files| == |bases|
      && (forall i | 0 <= i < |files| :: bases[i] == BaseOf(files, 0, i))
      && pendingCorrupt == booked.corruptions
    }

    /** What load has concluded, from what its first pass kept. */
    ghost predicate Describes(ls: seq<Loaded>)
      reads this
    {
      && |files| == |ls| == |bases|
      && (forall i | 0 <= i < |ls| ::
            bases[i] == BaseOf(ls, 0, i) && files[i] == ls[i].(committed := Reconciled(ls[i], bases[i], commitOff)))
      && writeOff == Total(ls) && commitOff == headOff == Scan(ls, 0)
      && nWritten == SumWritten(ls) && nCommitted == SumCommitted(files) && diskBytes == SumBytes(ls)
      && pendingCorrupt == booked.corruptions
    }

    /** loadFile, as far as whether the open goes on: a dropped segment is unlinked on the way. */
    method Examine(dir: seq<DiskSeg>, looks: nat -> LookAns, i: nat) returns (passes: bool)
      requires OnDisk(dir) && i < |dir| && dir[i] in dir && unlinked == Drops(p, dir, segSize, i)
      modifies this`unlinked
      ensures passes <==> Passes(p, dir, segSize, looks, i)
      ensures unlinked == if looks(i) == CannotLook then Drops(p, dir, segSize, i) else Drops(p, dir, segSize, i + 1)
    {
      hide LoadSeg;
      hide Drops;
      if looks(i) == CannotLook {
        return false;
      }
      var v := LoadSeg(p, dir[i], i == |dir| - 1, segSize);
      DropsNext(p, dir, segSize, i);
      if v.Dropped? {
        unlinked := unlinked + {i};
        return looks(i) != CannotRemove;
      }
      return !v.Mismatch?;
    }

    /** A segment joins the list where the last one ends. */
    method Join(d: DiskSeg, l: Loaded)
      requires Laid() && writeOff == BaseOf(files, 0, |files|) && nWritten == SumWritten(files) && diskBytes == SumBytes(files)
      modifies this`disk, this`files, this`bases, this`writeOff, this`nWritten, this`diskBytes
      ensures Laid() && writeOff == BaseOf(files, 0, |files|) && nWritten == SumWritten(files) && diskBytes == SumBytes(files)
      ensures disk == old(disk) + [d] && files == old(files) + [l]
    {
      hide BaseOf;
      AppendedBases(files, l);
      TalliesSnoc(files, l);
      disk, files, bases := disk + [d], files + [l], bases + [writeOff];
      writeOff, nWritten := writeOff + l.size, nWritten + l.written;
      diskBytes := diskBytes + L.HEADER_SIZE + l.capacity;
    }

    /** The first pass: every header read, every unbelievable one unlinked and booked. It stops at the first segment
        it could not look at, could not unlink or finds of another geometry; nothing it has not looked at is unlinked. */
    method LoadFiles(dir: seq<DiskSeg>, looks: nat -> LookAns) returns (ok: bool, at: nat)
      requires disk == [] && files == [] && bases == [] && writeOff == nWritten == diskBytes == 0
      requires pendingCorrupt == 0 && booked == NO_LOSS && unlinked == {} && OnDisk(dir)
      modifies this
      ensures ok <==> !Refuses(p, dir, segSize, looks)
      ensures at <= |dir| && (ok <==> at == |dir|)
      ensures !ok ==> !Passes(p, dir, segSize, looks, at)
      ensures forall k: nat | k < at :: Passes(p, dir, segSize, looks, k)
      ensures unlinked == Drops(p, dir, segSize, if !ok && looks(at) != CannotLook then at + 1 else at)
      ensures ok ==> Laid() && (disk, files) == Kept(p, dir, segSize)
      ensures ok ==> writeOff == Total(files) && booked == Booked(p, dir, segSize)
      ensures ok ==> nWritten == SumWritten(files) && diskBytes == SumBytes(files)
    {
      hide LoadSeg;
      hide Kept;
      hide Booked;
      hide BaseOf;
      hide Plus;
      KeptStarts(p, dir, segSize);
      BaseOfNone(0);
      var i := 0;
      while i < |dir|
        invariant i <= |dir| && OnDisk(dir[i..])
        invariant Laid() && writeOff == BaseOf(files, 0, |files|)
        invariant nWritten == SumWritten(files) && diskBytes == SumBytes(files)
        invariant forall k: nat | k < i :: Passes(p, dir, segSize, looks, k)
        invariant unlinked == Drops(p, dir, segSize, i)
        invariant Kept(p, dir, segSize) == (disk + Kept(p, dir[i..], segSize).0, files + Kept(p, dir[i..], segSize).1)
        invariant Booked(p, dir, segSize) == Plus(booked, Booked(p, dir[i..], segSize))
      {
        KeptAdvances(p, dir, segSize, i, disk, files, booked);
        var passes := Examine(dir, looks, i);
        if !passes {
          return false, i;
        }
        var v := LoadSeg(p, dir[i], i == |dir| - 1, segSize);
        PlusCorruptions(booked, v.loss);
        booked, pendingCorrupt := Plus(booked, v.loss), pendingCorrupt + v.loss.corruptions;
        if v.Keep? {
          Join(dir[i], v.l);
        }
        i := i + 1;
      }
      assert dir[i..] == [];
      KeptEnds(p, segSize, disk, files, booked);
      BaseOfAll(files, 0);
      return true, i;
    }

    /** The cursor: the first segment short of its end, or the write cursor. */
    method ScanCursor()
      requires Laid() && writeOff == Total(files)
      modifies this`commitOff, this`headOff
      ensures commitOff == headOff == Scan(files, 0)
    {
      commitOff := writeOff;
      BaseOfAll(files, 0);
      var i := 0;
      while i < |files|
        invariant i <= |files| && commitOff == writeOff
        invariant forall k | 0 <= k < i :: !Decides(files[k])
      {
        ScanFrom(files, 0, i);
        if files[i].reset || files[i].cc < L.HEADER_SIZE + files[i].size {
          commitOff := bases[i] + (files[i].cc - L.HEADER_SIZE);
          break;
        }
        i := i + 1;
      }
      if i == |files| {
        ScanFrom(files, 0, i);
        assert files[i..] == [];
      }
      headOff := commitOff;
    }

    /** The counts: the cursor wins over every segment but the one it stands in. */
    method Reconcile()
      requires Laid()
      modifies this`files, this`nCommitted
      ensures |files| == |old(files)|
      ensures forall i | 0 <= i < |files| ::
                files[i] == old(files)[i].(committed := Reconciled(old(files)[i], bases[i], commitOff))
      ensures nCommitted == SumCommitted(files)
    {
      ghost var before := files;
      nCommitted := 0;
      var i := 0;
      while i < |files|
        invariant i <= |files| == |before|
        invariant forall k | 0 <= k < i :: files[k] == before[k].(committed := Reconciled(before[k], bases[k], commitOff))
        invariant forall k | i <= k < |files| :: files[k] == before[k]
        invariant nCommitted == SumCommitted(files[..i])
      {
        var df := files[i];
        if bases[i] + df.size <= commitOff {
          df := df.(committed := df.written);
        } else if bases[i] >= commitOff {
          df := df.(committed := 0);
        }
        files := files[i := df];
        nCommitted := nCommitted + df.committed;
        SumSnoc(files[..i], df);
        assert files[..i + 1] == files[..i] + [df];
        i := i + 1;
      }
      assert files[..i] == files;
    }

    /** One segment's repair: skipped when its header already says it all, false when a fault stops it. */
    method RepairOne(ghost found: Loaded, i: nat, a: RepairAns) returns (ok: bool)
      requires i < |files| && |disk| == |files| == |bases|
      requires files[i] == found.(committed := Reconciled(found, bases[i], commitOff))
      modifies this`disk
      ensures !ok ==> a.Faulted? && disk == old(disk)
      ensures ok ==> disk == old(disk)[i := Repair(old(disk)[i], found, bases[i], commitOff, segSize, a == Repaired(true))]
    {
      hide Repair;
      var df, d, base := files[i], disk[i], bases[i];
      var cc := L.HEADER_SIZE;
      if base + df.size <= commitOff {
        cc := L.HEADER_SIZE + df.size;
      } else if base < commitOff {
        cc := L.HEADER_SIZE + (commitOff - base);
      }
      var h := L.Hdr(cc, L.HEADER_SIZE + df.size, df.written, df.committed);
      RepairedHeader(found, df, base, commitOff);
      RepairUnfolds(d, found, base, commitOff, segSize, a == Repaired(true));
      if !df.truncated && d.page.Believed? && d.page.hdr == h {
        assert disk[i := d] == disk;
        return true;
      }
      if a.Faulted? {
        return false;
      }
      var data := d.data;
      if df.truncated && a.extended && |data| < df.capacity {
        data := data + Zeros(df.capacity - |data|);
      }
      disk := disk[i := DiskSeg(Believed(h, df.capacity, segSize), data)];
      return true;
    }

    /** The repairs, tail first; a fault at segment k leaves it and everything before it as they were. */
    method RepairBackwards(ghost found: seq<Loaded>, answers: nat -> RepairAns) returns (stopped: nat)
      requires |disk| == |files| == |bases| == |found|
      requires forall i | 0 <= i < |files| ::
                 && files[i] == found[i].(committed := Reconciled(found[i], bases[i], commitOff))
                 && bases[i] == BaseOf(found, 0, i)
      modifies this`disk
      ensures stopped <= |found|
      ensures stopped > 0 ==> answers(stopped - 1).Faulted?
      ensures disk == RepairedFrom(old(disk), found, 0, commitOff, segSize, stopped, Extensions(|found|, answers))
    {
      hide Repair;
      hide BaseOf;
      ghost var before := disk;
      ghost var n := |found|;
      ghost var ext := Extensions(n, answers);
      var i := |files|;
      while i > 0
        invariant 0 <= i <= |files| && |disk| == n
        invariant forall j | 0 <= j < i :: disk[j] == before[j]
        invariant forall j | i <= j < n :: disk[j] == Repair(before[j], found[j], BaseOf(found, 0, j), commitOff, segSize, ext(n - j))
      {
        var ok := RepairOne(found[i - 1], i - 1, answers(i - 1));
        if !ok {
          StoppedRepair(before, found, disk, commitOff, segSize, i, ext);
          return i;
        }
        i := i - 1;
      }
      StoppedRepair(before, found, disk, commitOff, segSize, 0, ext);
      return 0;
    }

    /** load: the passes in order. Stopped by a fault at any repair, or run to the end, what it leaves on disk
        opens at the cursor it decided on. */
    method Load(dir: seq<DiskSeg>, looks: nat -> LookAns, answers: nat -> RepairAns) returns (ok: bool, stopped: nat)
      requires disk == [] && files == [] && bases == [] && writeOff == nWritten == diskBytes == 0
      requires pendingCorrupt == 0 && booked == NO_LOSS && unlinked == {} && OnDisk(dir) && segSize < TWO63
      modifies this
      ensures ok <==> !Refuses(p, dir, segSize, looks)
      ensures forall k <- unlinked :: k < |dir| && looks(k) != CannotLook && dir[k] in dir && LoadSeg(p, dir[k], k == |dir| - 1, segSize).Dropped?
      ensures ok ==>
                var (kept, ls) := Kept(p, dir, segSize);
                && Describes(ls) && booked == Booked(p, dir, segSize)
                && stopped <= |ls| && (stopped > 0 ==> answers(stopped - 1).Faulted?)
                && disk == RepairedFrom(kept, ls, 0, commitOff, segSize, stopped, Extensions(|ls|, answers))
      ensures ok ==> OnDisk(disk) && Kept(p, disk, segSize).0 == disk && Scan(Kept(p, disk, segSize).1, 0) == commitOff
    {
      hide LoadSeg;
      hide Kept;
      hide Booked;
      hide Scan;
      hide Total;
      hide BaseOf;
      hide RepairedFrom;
      hide Reconciled;
      hide SumCommitted;
      hide SumWritten;
      hide SumBytes;
      hide SameConclusions;
      hide Refuses;
      var at;
      ok, at := LoadFiles(dir, looks);
      DropsWereLookedAt(p, dir, segSize, looks, at, unlinked);
      stopped := 0;
      if ok {
        ScanCursor();
        ghost var found := files;
        Reconcile();
        stopped := RepairBackwards(found, answers);
        InterruptedRepairKeepsDecision(p, dir, segSize, stopped, Extensions(|found|, answers));
      }
    }

    /** startFresh: nothing was kept; one empty segment, whatever is owed to the reader still owed. */
    method StartFresh()
      requires Describes([]) && disk == []
      modifies this`files, this`bases, this`disk, this`diskBytes
      ensures Describes([Empty(segSize)]) && disk == [NewDisk(segSize)] && unlinked == old(unlinked)
    {
      files, bases, disk := [Empty(segSize)], [writeOff], [NewDisk(segSize)];
      diskBytes := diskBytes + L.HEADER_SIZE + segSize;
      assert files[1..] == [];
    }
  }

  /** A segment just created, as load would read it and on disk. */
  function Empty(segSize: nat): Loaded {
    Loaded(0, segSize, 0, 0, L.HEADER_SIZE, false, false)
  }

  function NewDisk(segSize: nat): DiskSeg {
    DiskSeg(Believed(L.Hdr(L.HEADER_SIZE, L.HEADER_SIZE, 0, 0), segSize, segSize), Zeros(segSize))
  }

  function SumCommitted(ls: seq<Loaded>): int {
    if ls == [] then 0 else ls[0].committed + SumCommitted(ls[1..])
  }

  function SumWritten(ls: seq<Loaded>): int {
    if ls == [] then 0 else ls[0].written + SumWritten(ls[1..])
  }

  function SumBytes(ls: seq<Loaded>): int {
    if ls == [] then 0 else L.HEADER_SIZE + ls[0].capacity + SumBytes(ls[1..])
  }

  lemma {:induction false} TalliesSnoc(ls: seq<Loaded>, l: Loaded)
    ensures SumWritten(ls + [l]) == SumWritten(ls) + l.written
    ensures SumBytes(ls + [l]) == SumBytes(ls) + L.HEADER_SIZE + l.capacity
  {
    if ls != [] {
      assert (ls + [l])[1..] == ls[1..] + [l];
      TalliesSnoc(ls[1..], l);
    }
  }

  lemma {:induction false} SumSnoc(ls: seq<Loaded>, l: Loaded)
    ensures SumCommitted(ls + [l]) == SumCommitted(ls) + l.committed
  {
    if ls != [] {
      assert (ls + [l])[1..] == ls[1..] + [l];
      SumSnoc(ls[1..], l);
    }
  }

  lemma {:induction false} BaseOfPrefix(ls: seq<Loaded>, l: Loaded, base: int, i: nat)
    requires i <= |ls|
    ensures BaseOf(ls + [l], base, i) == BaseOf(ls, base, i)
    decreases |ls|
  {
    if i > 0 {
      assert (ls + [l])[1..] == ls[1..] + [l];
      BaseOfPrefix(ls[1..], l, base + ls[0].size, i - 1);
    }
  }

  lemma AppendedBases(ls: seq<Loaded>, l: Loaded)
    ensures forall i | 0 <= i <= |ls| :: BaseOf(ls + [l], 0, i) == BaseOf(ls, 0, i)
    ensures BaseOf(ls + [l], 0, |ls| + 1) == BaseOf(ls, 0, |ls|) + l.size
  {
    forall i | 0 <= i <= |ls| ensures BaseOf(ls + [l], 0, i) == BaseOf(ls, 0, i) {
      BaseOfPrefix(ls, l, 0, i);
    }
    BaseNext(ls + [l], 0, |ls|);
  }

  /** The header the loop writes is the one the recovered cursor calls for. */
  lemma RepairedHeader(found: Loaded, df: Loaded, base: int, commit: int)
    requires df == found.(committed := Reconciled(found, base, commit))
    ensures Target(found, base, commit) == L.Hdr(
      if base + df.size <= commit then L.HEADER_SIZE + df.size
      else if base < commit then L.HEADER_SIZE + (commit - base) else L.HEADER_SIZE,
      L.HEADER_SIZE + df.size, df.written, df.committed)
  {
  }

  lemma RepairUnfolds(d: DiskSeg, l: Loaded, base: int, commit: int, segSize: nat, ext: bool)
    ensures var h := Target(l, base, commit);
            Repair(d, l, base, commit, segSize, ext) ==
            if !l.truncated && d.page.Believed? && d.page.hdr == h then d
            else DiskSeg(Believed(h, l.capacity, segSize),
                         if l.truncated && ext && |d.data| < l.capacity then d.data + Zeros(l.capacity - |d.data|) else d.data)
  {
  }

  lemma StoppedRepair(
    ds: seq<DiskSeg>, ls: seq<Loaded>, now: seq<DiskSeg>, commit: int, segSize: nat, k: nat, ext: nat -> bool)
    requires |ds| == |ls| == |now| && k <= |ds|
    requires forall j | 0 <= j < k :: now[j] == ds[j]
    requires forall j | k <= j < |ds| :: now[j] == Repair(ds[j], ls[j], BaseOf(ls, 0, j), commit, segSize, ext(|ds| - j))
    ensures now == RepairedFrom(ds, ls, 0, commit, segSize, k, ext)
  {
    hide Repair;
    forall j | 0 <= j < |ds| ensures now[j] == RepairedFrom(ds, ls, 0, commit, segSize, k, ext)[j] {
      RepairedAt(ds, ls, 0, commit, segSize, k, ext, j);
    }
  }

  // ----- a header torn while being repaired

  lemma LoadsAlike(p: Platform, d: DiskSeg, l: Loaded, m: Loaded, segSize: nat)
    requires LoadedFrom(p, d, l, segSize) && LoadedFrom(p, d, m, segSize)
    ensures l == m
  {
  }

  lemma TornResets(p: Platform, d: DiskSeg, l: Loaded, segSize: nat)
    requires LoadedFrom(p, d, l, segSize) && d.page.Torn?
    ensures l.reset && l.cc == L.HEADER_SIZE
  {
  }

  lemma {:induction false} ScanMeetsReset(ls: seq<Loaded>, ms: seq<Loaded>, base: int, k: nat)
    requires k < |ls| && k < |ms| && ls[..k] == ms[..k] && ms[k].reset && ms[k].cc == L.HEADER_SIZE
    requires forall l <- ls :: WellClamped(l)
    ensures Scan(ms, base) == Min(Scan(ls, base), BaseOf(ls, base, k))
    decreases |ls|
  {
    assert WellClamped(ls[0]) && forall l <- ls[1..] :: l in ls;
    ScanWithin(ls, base);
    if k > 0 {
      assert ls[0] == ls[..k][0] == ms[..k][0] == ms[0];
      BaseGrows(ls[1..], base + ls[0].size, k - 1);
      if !Decides(ls[0]) {
        forall j | 0 <= j < k - 1 ensures ls[1..][j] == ms[1..][j] {
          assert ls[j + 1] == ls[..k][j + 1] == ms[..k][j + 1] == ms[j + 1];
        }
        assert ls[1..][..k - 1] == ms[1..][..k - 1];
        ScanMeetsReset(ls[1..], ms[1..], base + ls[0].size, k - 1);
      }
    }
  }

  /** Power lost inside the header write of segment k, everything before it untouched: whatever the segments
      behind it hold by then, the next open replays from that segment's start if the cursor had passed it,
      and otherwise from exactly where it would have. */
  lemma TornRepairOnlyReplays(
    p: Platform, ds: seq<DiskSeg>, ls: seq<Loaded>, torn: seq<DiskSeg>, ms: seq<Loaded>, segSize: nat, k: nat)
    requires AllLoaded(p, ds, ls, segSize) && AllLoaded(p, torn, ms, segSize)
    requires k < |ds| && k < |torn| && ds[..k] == torn[..k] && torn[k].page.Torn?
    ensures Scan(ms, 0) == Min(Scan(ls, 0), BaseOf(ls, 0, k))
  {
    hide LoadedFrom;
    LoadedClamped(p, ds, ls, segSize);
    forall j | 0 <= j < k ensures ls[j] == ms[j] {
      assert ds[j] == ds[..k][j] == torn[..k][j] == torn[j];
      LoadsAlike(p, ds[j], ls[j], ms[j], segSize);
    }
    assert ls[..k] == ms[..k];
    TornResets(p, torn[k], ms[k], segSize);
    ScanMeetsReset(ls, ms, 0, k);
  }
}
