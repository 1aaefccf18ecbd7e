/** recovery.go: what the open path concludes from what it finds on disk, and the repairs that make it durable. */
module Recovery {
  import opened Ints
  import opened Bytes
  import opened Frame
  import opened Log

  /** Page 0 as it is found. */
  datatype Page0 =
    | Believed(hdr: Hdr, capacity: int, segSize: int)
    | Torn          // magic and version intact, checksum not
    | Foreign       // a version this build does not read
    | Zeroed        // a reservation nothing was ever written into
    | Unreadable    // short, or the wrong magic
    | NoFile        // zero length

  /** A segment file: its header and the data-region bytes it physically holds. */
  datatype DiskSeg = DiskSeg(page: Page0, data: seq<byte>) {
    function FileLen(): nat {
      HEADER_SIZE + |data|
    }
  }

  /** What load knows of a segment it keeps; cc is the clamped commit cursor. */
  datatype Loaded = Loaded(size: nat, capacity: nat, written: nat, committed: nat, cc: int, reset: bool, truncated: bool)

  datatype Loss = Loss(corruptions: nat, lostBytes: nat, lostSegments: nat, lostRecords: nat, discarded: nat)

  const NO_LOSS := Loss(0, 0, 0, 0, 0)

  datatype Verdict = Keep(l: Loaded, loss: Loss) | Dropped(loss: Loss) | Mismatch

  function Dropping(d: DiskSeg): Verdict {
    Dropped(Loss(1, if d.page.NoFile? then 0 else |d.data|, 1, 0, 0))
  }

  /** A header that can be believed, against a file that may have lost its tail. */
  function LoadBelieved(p: Platform, d: DiskSeg): Verdict
    requires d.page.Believed? && |d.data| < TWO63
  {
    var h, capacity := d.page.hdr, Max(d.page.capacity, 0);
    var truncated := d.FileLen() < HEADER_SIZE + capacity;
    var lostTail := truncated && h.writeCur > d.FileLen();
    var w := Min(Min(Max(h.writeCur, HEADER_SIZE), HEADER_SIZE + capacity), d.FileLen()) - HEADER_SIZE;
    var walk := Walk(p, d.data[..w]);
    ClampedWalk(p, d.data[..w], walk);
    var size := if lostTail then Extent(walk) else w;
    var written := if lostTail then |walk| else Max(h.written, 0);
    var gone := Max(Max(h.written, 0) - written, 0);
    Keep(
      Loaded(size, capacity, written, Log.Clamp(h.committed, written), HEADER_SIZE + Log.Clamp(h.commitCur - HEADER_SIZE, size), false, truncated),
      if lostTail then Loss(1, 0, 0, gone, h.writeCur - d.FileLen() + (w - size)) else NO_LOSS)
  }

  /** salvageTornHeader: the records still verify, the commit position is gone. */
  function LoadTorn(p: Platform, d: DiskSeg, segSize: nat): Verdict
    requires |d.data| < TWO63
  {
    var walk := VerifiedWalk(p, d.data);
    Keep(Loaded(Extent(walk), Max(|d.data|, segSize), |walk|, 0, HEADER_SIZE, true, true), Loss(1, 0, 0, 0, 0))
  }

  /** loadFile; tail is the highest-numbered segment, the only place an unfinished create can be. */
  function LoadSeg(p: Platform, d: DiskSeg, tail: bool, segSize: nat): Verdict
    requires |d.data| < TWO63
  {
    match d.page
    case NoFile => if tail then Dropped(NO_LOSS) else Dropping(d)
    case Zeroed => if tail then Dropped(NO_LOSS) else Dropping(d)
    case Unreadable => Dropping(d)
    case Foreign => Dropped(NO_LOSS)
    case Torn => LoadTorn(p, d, segSize)
    case Believed(_, _, s) => if s != segSize then Mismatch else LoadBelieved(p, d)
  }

  /** The header's write cursor lies past the bytes the file still holds of its capacity. */
  predicate LostTail(d: DiskSeg)
    requires d.page.Believed?
  {
    d.FileLen() < HEADER_SIZE + Max(d.page.capacity, 0) && d.page.hdr.writeCur > d.FileLen()
  }

  /** Whether a segment that goes has been a loss: not one of another format, nor an unfinished create, which only the
      last can be. */
  predicate GoesSilently(d: DiskSeg, tail: bool) {
    d.page.Foreign? || (tail && (d.page.NoFile? || d.page.Zeroed?))
  }

  /** What is booked is what is gone. A dropped segment costs the bytes its region held, once, or nothing if it goes
      silently; of one that lost its tail every byte and record its header counts is kept or booked; one salvaged is
      reported with nothing booked; any other is no loss. */
  lemma LossIsWhatIsGone(p: Platform, d: DiskSeg, tail: bool, segSize: nat)
    requires Addressable(d)
    ensures match LoadSeg(p, d, tail, segSize)
            case Dropped(loss) =>
              && !d.page.Believed? && !d.page.Torn?
              && loss == if GoesSilently(d, tail) then NO_LOSS
                         else Loss(1, if d.page.NoFile? then 0 else |d.data|, 1, 0, 0)
            case Keep(l, loss) =>
              && (d.page.Torn? ==> loss == Loss(1, 0, 0, 0, 0))
              && (d.page.Believed? && !LostTail(d) ==> loss == NO_LOSS && l.written == Max(d.page.hdr.written, 0))
              && (d.page.Believed? && LostTail(d) ==>
                    && loss.corruptions == 1 && loss.lostBytes == loss.lostSegments == 0
                    && l.size + loss.discarded == d.page.hdr.writeCur - HEADER_SIZE
                    && l.written + loss.lostRecords == Max(d.page.hdr.written, l.written)
                    && l.size == Extent(Walk(p, d.data)) && l.written == |Walk(p, d.data)|)
            case Mismatch => d.page.Believed? && d.page.segSize != segSize
  {
    if d.page.Believed? && LostTail(d) && d.page.segSize == segSize {
      assert d.data[..|d.data|] == d.data;
      ClampedWalk(p, d.data, Walk(p, d.data));
    }
  }

  /** What goes silently at the tail holds no record: zero fill never verifies, and an empty file has nothing. */
  lemma SilentDropLosesNothing(p: Platform, d: DiskSeg, tail: bool)
    requires Addressable(d) && GoesSilently(d, tail) && !d.page.Foreign? && p.hash([]) != 0
    requires d.data == Zeros(|d.data|)
    ensures VerifiedWalk(p, d.data) == []
  {
    ZeroFillNeverVerifies(p, |d.data|);
  }

  predicate Addressable(d: DiskSeg) {
    |d.data| < TWO63 && (d.page.Believed? ==> d.page.capacity < TWO63)
  }

  ghost predicate OnDisk(ds: seq<DiskSeg>) {
    forall d <- ds :: Addressable(d)
  }

  /** The segments the first pass keeps, beside what it makes of them. */
  function Kept(p: Platform, ds: seq<DiskSeg>, segSize: nat): (r: (seq<DiskSeg>, seq<Loaded>))
    requires OnDisk(ds)
    ensures |r.0| == |r.1| && OnDisk(r.0)
  {
    if ds == [] then ([], [])
    else
      assert ds[0] in ds && forall d <- ds[1..] :: d in ds;
      var v := LoadSeg(p, ds[0], |ds| == 1, segSize);
      var (rest, ls) := Kept(p, ds[1..], segSize);
      if v.Keep? then ([ds[0]] + rest, [v.l] + ls) else (rest, ls)
  }

  // ----- the cursor scan and the reconciliation

  /** The first segment whose commit cursor is short of its end decides; a salvaged one always does. */
  predicate Decides(l: Loaded) {
    l.reset || l.cc < HEADER_SIZE + l.size
  }

  function Scan(ls: seq<Loaded>, base: int): int {
    if ls == [] then base
    else if Decides(ls[0]) then base + ls[0].cc - HEADER_SIZE
    else Scan(ls[1..], base + ls[0].size)
  }

  /** Where segment i's data begins. */
  function BaseOf(ls: seq<Loaded>, base: int, i: nat): int
    requires i <= |ls|
    decreases |ls|
  {
    if i == 0 then base else BaseOf(ls[1..], base + ls[0].size, i - 1)
  }

  lemma {:induction false} BaseGrows(ls: seq<Loaded>, base: int, i: nat)
    requires i <= |ls|
    ensures BaseOf(ls, base, i) >= base
    decreases |ls|
  {
    if i > 0 {
      BaseGrows(ls[1..], base + ls[0].size, i - 1);
    }
  }

  function Total(ls: seq<Loaded>): nat {
    if ls == [] then 0 else ls[0].size + Total(ls[1..])
  }

  /** The cursor wins over a segment's own count, except in the segment it stands in. */
  function Reconciled(l: Loaded, base: int, commit: int): (n: nat)
    ensures l.committed <= l.written ==> n <= l.written
  {
    if base + l.size <= commit then l.written else if base >= commit then 0 else l.committed
  }

  /** The header a segment must publish once the cursor is known. */
  function Target(l: Loaded, base: int, commit: int): Hdr {
    Hdr(HEADER_SIZE + Log.Clamp(commit - base, l.size), HEADER_SIZE + l.size, l.written, Reconciled(l, base, commit))
  }

  predicate NeedsRepair(d: DiskSeg, l: Loaded, base: int, commit: int) {
    l.truncated || !d.page.Believed? || d.page.hdr != Target(l, base, commit)
  }

  /** One durable repair: the header first, then the file re-extended if the disk has room. */
  function Repair(d: DiskSeg, l: Loaded, base: int, commit: int, segSize: nat, extended: bool): DiskSeg {
    if !NeedsRepair(d, l, base, commit) then d
    else DiskSeg(
      Believed(Target(l, base, commit), l.capacity, segSize),
      if l.truncated && extended && |d.data| < l.capacity then d.data + Zeros(l.capacity - |d.data|) else d.data)
  }

  ghost predicate LoadedFrom(p: Platform, d: DiskSeg, l: Loaded, segSize: nat) {
    Addressable(d) && segSize < TWO63 && exists loss :: LoadSeg(p, d, false, segSize) == Keep(l, loss)
  }

  lemma LoadedShape(p: Platform, d: DiskSeg, l: Loaded, segSize: nat)
    requires LoadedFrom(p, d, l, segSize)
    ensures l.size <= |d.data| && l.size <= l.capacity && l.committed <= l.written
    ensures HEADER_SIZE <= l.cc <= HEADER_SIZE + l.size
    ensures l.reset ==> l.cc == HEADER_SIZE && l.truncated && l.committed == 0
    ensures l.reset || (d.page.Believed? && l.capacity == Max(d.page.capacity, 0) && d.page.segSize == segSize)
  {
    if d.page.Torn? {
      VerifiedIsIntactPrefix(p, d.data);
      ClampedWalk(p, d.data, VerifiedWalk(p, d.data));
    } else {
      var w := Min(Min(Max(d.page.hdr.writeCur, HEADER_SIZE), HEADER_SIZE + Max(d.page.capacity, 0)), d.FileLen()) - HEADER_SIZE;
      ClampedWalk(p, d.data[..w], Walk(p, d.data[..w]));
    }
  }

  /** A repaired segment loads as what the repair recorded; nothing about it is lost a second time. */
  lemma ReloadRepaired(p: Platform, d: DiskSeg, l: Loaded, base: int, commit: int, segSize: nat, ext: bool)
    requires LoadedFrom(p, d, l, segSize)
    ensures var d1 := Repair(d, l, base, commit, segSize, ext);
            var t := Target(l, base, commit);
            && Addressable(d1)
            && var l1 := Loaded(l.size, l.capacity, l.written, t.committed, t.commitCur, false, |d1.data| < l.capacity);
            LoadSeg(p, d1, false, segSize) == Keep(l1, NO_LOSS)
  {
    LoadedShape(p, d, l, segSize);
    var d1 := Repair(d, l, base, commit, segSize, ext);
    var t := Target(l, base, commit);
    assert |d1.data| >= |d.data| && |d1.data| < TWO63;
    if NeedsRepair(d, l, base, commit) {
      assert d1.page.hdr == t;
    } else {
      assert d1 == d && d.page.hdr == t;
    }
    assert t.writeCur == HEADER_SIZE + l.size <= d1.FileLen();
    hide Walk;
    hide VerifiedWalk;
  }

  // ----- repairs, tail first, stopped anywhere

  /** The directory with the first k segments not yet repaired. */
  function RepairedFrom(ds: seq<DiskSeg>, ls: seq<Loaded>, base: int, commit: int, segSize: nat, k: nat, ext: nat -> bool): (r: seq<DiskSeg>)
    requires |ds| == |ls|
    ensures |r| == |ds|
    decreases |ds|
  {
    if ds == [] then []
    else
      [if k > 0 then ds[0] else Repair(ds[0], ls[0], base, commit, segSize, ext(|ds|))]
      + RepairedFrom(ds[1..], ls[1..], base + ls[0].size, commit, segSize, if k > 0 then k - 1 else 0, ext)
  }

  ghost predicate AllLoaded(p: Platform, ds: seq<DiskSeg>, ls: seq<Loaded>, segSize: nat) {
    |ds| == |ls| && forall i | 0 <= i < |ds| :: LoadedFrom(p, ds[i], ls[i], segSize)
  }

  lemma AllLoadedTail(p: Platform, ds: seq<DiskSeg>, ls: seq<Loaded>, segSize: nat)
    requires AllLoaded(p, ds, ls, segSize) && ds != []
    ensures LoadedFrom(p, ds[0], ls[0], segSize) && AllLoaded(p, ds[1..], ls[1..], segSize)
  {
    forall i | 0 <= i < |ds| - 1 ensures LoadedFrom(p, ds[1..][i], ls[1..][i], segSize) {
      assert LoadedFrom(p, ds[i + 1], ls[i + 1], segSize);
    }
  }

  lemma TailMattersNot(p: Platform, d: DiskSeg, l: Loaded, tail: bool, segSize: nat)
    requires LoadedFrom(p, d, l, segSize)
    ensures LoadSeg(p, d, tail, segSize) == LoadSeg(p, d, false, segSize)
  {
  }

  lemma {:induction false} KeptIsLoaded(p: Platform, ds: seq<DiskSeg>, segSize: nat)
    requires OnDisk(ds) && segSize < TWO63
    ensures AllLoaded(p, Kept(p, ds, segSize).0, Kept(p, ds, segSize).1, segSize)
  {
    if ds != [] {
      assert ds[0] in ds && forall d <- ds[1..] :: d in ds;
      KeptIsLoaded(p, ds[1..], segSize);
      var v := LoadSeg(p, ds[0], |ds| == 1, segSize);
      if v.Keep? {
        assert LoadSeg(p, ds[0], false, segSize) == v;
        assert LoadedFrom(p, ds[0], v.l, segSize);
      }
    }
  }

  lemma {:induction false} LoadedIsKept(p: Platform, ds: seq<DiskSeg>, ls: seq<Loaded>, segSize: nat)
    requires AllLoaded(p, ds, ls, segSize)
    ensures OnDisk(ds) && Kept(p, ds, segSize) == (ds, ls)
  {
    hide LoadSeg;
    forall d <- ds ensures Addressable(d) {
      var i :| 0 <= i < |ds| && ds[i] == d;
      assert LoadedFrom(p, ds[i], ls[i], segSize);
    }
    if ds != [] {
      AllLoadedTail(p, ds, ls, segSize);
      TailMattersNot(p, ds[0], ls[0], |ds| == 1, segSize);
      LoadedIsKept(p, ds[1..], ls[1..], segSize);
      assert [ds[0]] + ds[1..] == ds && [ls[0]] + ls[1..] == ls;
    }
  }

  /** What a reload makes of a repaired segment. */
  function Settled(l: Loaded, base: int, commit: int, truncated: bool): Loaded {
    var t := Target(l, base, commit);
    Loaded(l.size, l.capacity, l.written, t.committed, t.commitCur, false, truncated)
  }

  /** Segment by segment: as it was before the repair, or settled by it. */
  ghost predicate PartlySettled(ls: seq<Loaded>, ms: seq<Loaded>, base: int, commit: int, k: nat)
    decreases |ls|
  {
    && |ls| == |ms|
    && (ls != [] ==>
          && ms[0] == (if k > 0 then ls[0] else Settled(ls[0], base, commit, ms[0].truncated))
          && PartlySettled(ls[1..], ms[1..], base + ls[0].size, commit, if k > 0 then k - 1 else 0))
  }

  lemma {:induction false} ReloadIsPartlySettled(
    p: Platform, ds: seq<DiskSeg>, ls: seq<Loaded>, base: int, commit: int, segSize: nat, k: nat, ext: nat -> bool)
    returns (ms: seq<Loaded>)
    requires AllLoaded(p, ds, ls, segSize)
    ensures AllLoaded(p, RepairedFrom(ds, ls, base, commit, segSize, k, ext), ms, segSize)
    ensures PartlySettled(ls, ms, base, commit, k)
    decreases |ds|
  {
    hide LoadSeg;
    hide Repair;
    hide Settled;
    hide LoadedFrom;
    ms := [];
    if ds != [] {
      AllLoadedTail(p, ds, ls, segSize);
      var rest := ReloadIsPartlySettled(p, ds[1..], ls[1..], base + ls[0].size, commit, segSize, if k > 0 then k - 1 else 0, ext);
      var m := ls[0];
      if k == 0 {
        m := SettledReload(p, ds[0], ls[0], base, commit, segSize, ext(|ds|));
      }
      ms := [m] + rest;
      assert ms[1..] == rest;
    }
  }

  lemma SettledReload(p: Platform, d: DiskSeg, l: Loaded, base: int, commit: int, segSize: nat, ext: bool) returns (m: Loaded)
    requires LoadedFrom(p, d, l, segSize)
    ensures LoadedFrom(p, Repair(d, l, base, commit, segSize, ext), m, segSize) && m == Settled(l, base, commit, m.truncated)
  {
    ReloadRepaired(p, d, l, base, commit, segSize, ext);
    m := Settled(l, base, commit, |Repair(d, l, base, commit, segSize, ext).data| < l.capacity);
  }

  lemma {:induction false} ScanWithin(ls: seq<Loaded>, base: int)
    requires forall l <- ls :: HEADER_SIZE <= l.cc <= HEADER_SIZE + l.size
    ensures base <= Scan(ls, base) <= base + Total(ls)
    decreases |ls|
  {
    if ls != [] && !Decides(ls[0]) {
      ScanWithin(ls[1..], base + ls[0].size);
    }
  }

  /** From the cursor on, settled segments all say "nothing committed". */
  lemma {:induction false} SettledAbove(ls: seq<Loaded>, ms: seq<Loaded>, commit: int)
    requires PartlySettled(ls, ms, commit, commit, 0)
    ensures Scan(ms, commit) == commit
    decreases |ls|
  {
    if ls != [] && ls[0].size == 0 {
      SettledAbove(ls[1..], ms[1..], commit);
    }
  }

  ghost predicate WellClamped(l: Loaded) {
    HEADER_SIZE <= l.cc <= HEADER_SIZE + l.size && (l.reset ==> l.cc == HEADER_SIZE)
  }

  /** The decision survives however many repairs reached disk, even when its witness is an empty segment. */
  lemma {:induction false} SettledScan(ls: seq<Loaded>, ms: seq<Loaded>, base: int, commit: int, k: nat)
    requires PartlySettled(ls, ms, base, commit, k) && Scan(ls, base) == commit
    requires forall l <- ls :: WellClamped(l)
    ensures Scan(ms, base) == commit
    decreases |ls|
  {
    if ls != [] {
      assert WellClamped(ls[0]) && forall l <- ls[1..] :: l in ls;
      if !Decides(ls[0]) {
        ScanWithin(ls[1..], base + ls[0].size);
        SettledScan(ls[1..], ms[1..], base + ls[0].size, commit, if k > 0 then k - 1 else 0);
      } else if k == 0 && ls[0].size == 0 {
        SettledAbove(ls, ms, commit);
      }
    }
  }

  /** Same extents, same record counts, and the same counts once reconciled with the cursor. */
  ghost predicate SameConclusions(ls: seq<Loaded>, ms: seq<Loaded>, base: int, commit: int)
    decreases |ls|
  {
    && |ls| == |ms|
    && (ls != [] ==>
          && ms[0].size == ls[0].size && ms[0].written == ls[0].written && ms[0].capacity == ls[0].capacity
          && Reconciled(ms[0], base, commit) == Reconciled(ls[0], base, commit)
          && SameConclusions(ls[1..], ms[1..], base + ls[0].size, commit))
  }

  lemma {:induction false} SettledConcludes(ls: seq<Loaded>, ms: seq<Loaded>, base: int, commit: int, k: nat)
    requires PartlySettled(ls, ms, base, commit, k)
    ensures SameConclusions(ls, ms, base, commit)
    decreases |ls|
  {
    if ls != [] {
      SettledConcludes(ls[1..], ms[1..], base + ls[0].size, commit, if k > 0 then k - 1 else 0);
    }
  }

  lemma LoadedClamped(p: Platform, ds: seq<DiskSeg>, ls: seq<Loaded>, segSize: nat)
    requires AllLoaded(p, ds, ls, segSize)
    ensures forall l <- ls :: WellClamped(l)
  {
    forall l <- ls ensures WellClamped(l) {
      var i :| 0 <= i < |ls| && ls[i] == l;
      assert LoadedFrom(p, ds[i], ls[i], segSize);
      LoadedShape(p, ds[i], l, segSize);
    }
  }

  /** Stop the tail-to-head repair after any number of durable repairs, open again: the same cursor, the same counts. */
  lemma InterruptedRepairKeepsDecision(p: Platform, ds: seq<DiskSeg>, segSize: nat, k: nat, ext: nat -> bool)
    requires OnDisk(ds) && segSize < TWO63
    ensures var (kept, ls) := Kept(p, ds, segSize);
            var commit := Scan(ls, 0);
            var again := RepairedFrom(kept, ls, 0, commit, segSize, k, ext);
            && OnDisk(again)
            && Kept(p, again, segSize).0 == again
            && Scan(Kept(p, again, segSize).1, 0) == commit
            && SameConclusions(ls, Kept(p, again, segSize).1, 0, commit)
  {
    hide LoadSeg;
    var (kept, ls) := Kept(p, ds, segSize);
    var commit := Scan(ls, 0);
    KeptIsLoaded(p, ds, segSize);
    var ms := ReloadIsPartlySettled(p, kept, ls, 0, commit, segSize, k, ext);
    LoadedIsKept(p, RepairedFrom(kept, ls, 0, commit, segSize, k, ext), ms, segSize);
    LoadedClamped(p, kept, ls, segSize);
    SettledScan(ls, ms, 0, commit, k);
    SettledConcludes(ls, ms, 0, commit, k);
  }

  // ----- the completed repair

  /** Nothing left to write, nothing booked. */
  ghost predicate Quiet(p: Platform, ds: seq<DiskSeg>, ls: seq<Loaded>, base: int, commit: int, segSize: nat)
    decreases |ds|
  {
    && |ds| == |ls|
    && (ds != [] ==>
          && Addressable(ds[0]) && LoadSeg(p, ds[0], false, segSize) == Keep(ls[0], NO_LOSS)
          && !NeedsRepair(ds[0], ls[0], base, commit)
          && Quiet(p, ds[1..], ls[1..], base + ls[0].size, commit, segSize))
  }

  /** When the file could be re-extended, its repaired header already says what the next load concludes. */
  lemma RepairedNeedsNothing(p: Platform, d: DiskSeg, l: Loaded, base: int, commit: int, segSize: nat)
    requires LoadedFrom(p, d, l, segSize)
    ensures var d1 := Repair(d, l, base, commit, segSize, true);
            var l1 := Settled(l, base, commit, false);
            Addressable(d1) && LoadSeg(p, d1, false, segSize) == Keep(l1, NO_LOSS) && !NeedsRepair(d1, l1, base, commit)
  {
    ReloadRepaired(p, d, l, base, commit, segSize, true);
    LoadedShape(p, d, l, segSize);
    if !l.truncated {
      NotTruncatedIsWhole(p, d, l, segSize);
    }
  }

  lemma NotTruncatedIsWhole(p: Platform, d: DiskSeg, l: Loaded, segSize: nat)
    requires LoadedFrom(p, d, l, segSize) && !l.truncated
    ensures |d.data| >= l.capacity && d.page.Believed?
  {
  }

  lemma {:induction false} CompletedRepairIsQuiet(
    p: Platform, ds: seq<DiskSeg>, ls: seq<Loaded>, base: int, commit: int, segSize: nat)
    returns (ms: seq<Loaded>)
    requires AllLoaded(p, ds, ls, segSize)
    ensures var again := RepairedFrom(ds, ls, base, commit, segSize, 0, _ => true);
            && AllLoaded(p, again, ms, segSize)
            && PartlySettled(ls, ms, base, commit, 0)
            && Quiet(p, again, ms, base, commit, segSize)
    decreases |ds|
  {
    hide LoadSeg;
    hide Repair;
    hide NeedsRepair;
    ms := [];
    if ds != [] {
      AllLoadedTail(p, ds, ls, segSize);
      var rest := CompletedRepairIsQuiet(p, ds[1..], ls[1..], base + ls[0].size, commit, segSize);
      RepairedNeedsNothing(p, ds[0], ls[0], base, commit, segSize);
      ms := [Settled(ls[0], base, commit, false)] + rest;
      assert ms[1..] == rest;
    }
  }

  /** The next load after a completed repair writes nothing and books no new loss. */
  lemma NextLoadIsQuiet(p: Platform, ds: seq<DiskSeg>, segSize: nat)
    requires OnDisk(ds) && segSize < TWO63
    ensures var (kept, ls) := Kept(p, ds, segSize);
            var commit := Scan(ls, 0);
            var again := RepairedFrom(kept, ls, 0, commit, segSize, 0, _ => true);
            && OnDisk(again)
            && var (k2, ms) := Kept(p, again, segSize);
               k2 == again && Scan(ms, 0) == commit && Quiet(p, again, ms, 0, commit, segSize)
  {
    hide LoadSeg;
    var (kept, ls) := Kept(p, ds, segSize);
    var commit := Scan(ls, 0);
    KeptIsLoaded(p, ds, segSize);
    var ms := CompletedRepairIsQuiet(p, kept, ls, 0, commit, segSize);
    LoadedIsKept(p, RepairedFrom(kept, ls, 0, commit, segSize, 0, _ => true), ms, segSize);
    LoadedClamped(p, kept, ls, segSize);
    SettledScan(ls, ms, 0, commit, 0);
  }

  // ----- why the order matters

  /** An empty torn segment in front of a fully committed one: repaired head first and stopped, the witness
      is gone and the records behind it are skipped; tail first they replay. */
  lemma HeadFirstLosesTheWitness(p: Platform, data: seq<byte>)
    requires |data| == 9
    ensures var torn, full := DiskSeg(Torn, []), DiskSeg(Believed(Hdr(73, 73, 1, 1), 9, 9), data);
            var (kept, ls) := Kept(p, [torn, full], 9);
            && kept == [torn, full] && Scan(ls, 0) == 0
            && var headFirst := [Repair(torn, ls[0], 0, 0, 9, true), full];
               OnDisk(headFirst) && Kept(p, headFirst, 9).0 == headFirst && Scan(Kept(p, headFirst, 9).1, 0) == 9
  {
    hide Walk;
    hide VerifiedWalk;
    var torn, full := DiskSeg(Torn, []), DiskSeg(Believed(Hdr(73, 73, 1, 1), 9, 9), data);
    var lTorn, lFull := Loaded(0, 9, 0, 0, 64, true, true), Loaded(9, 9, 1, 1, 73, false, false);
    EmptyVerifies(p);
    assert LoadSeg(p, torn, false, 9) == Keep(lTorn, Loss(1, 0, 0, 0, 0));
    assert LoadSeg(p, full, false, 9) == Keep(lFull, NO_LOSS);
    assert LoadedFrom(p, torn, lTorn, 9) && LoadedFrom(p, full, lFull, 9);
    LoadedIsKept(p, [torn, full], [lTorn, lFull], 9);
    assert [lTorn, lFull][1..] == [lFull];
    ReloadRepaired(p, torn, lTorn, 0, 0, 9, true);
    var headFirst := [Repair(torn, lTorn, 0, 0, 9, true), full];
    var l1 := Loaded(0, 9, 0, 0, 64, false, |headFirst[0].data| < 9);
    assert LoadedFrom(p, headFirst[0], l1, 9);
    LoadedIsKept(p, headFirst, [l1, lFull], 9);
    assert [l1, lFull][1..] == [lFull] && [lFull][1..] == [];
    assert Scan([lFull], 0) == Scan([lFull][1..], 9) == 9;
    assert Scan([l1, lFull], 0) == Scan([lFull], 0);
  }

  lemma EmptyVerifies(p: Platform)
    ensures VerifiedWalk(p, []) == [] && Extent([]) == 0
  {
  }
}
