/** The segmented store of store.go and its ledger, reserve.go, as values; every fault is an answer in Env. */
module Log {
  import opened Ints

  const HEADER_SIZE := 64
  const MIN_FRAME := 9  // one length byte and the checksum

  function Clamp(x: int, hi: int): int {
    Max(0, Min(x, hi))
  }

  /** The header fields recovery reads; the bytes are Header's business. */
  datatype Hdr = Hdr(commitCur: int, writeCur: int, written: int, committed: int)

  /** A dataFile. images is every complete header page 0 may hold, oldest first; ends where each record it
      was given stops, relative to its data region; torn the same for a span behind them whose header tore; gone that
      its path was missing when a handle was wanted. */
  datatype Seg = Seg(
    num: nat, base: int, size: int, capacity: int, written: int, committed: int,
    hdr: Hdr, images: seq<Hdr>, gone: bool, pins: nat, ends: seq<int>, torn: seq<int>)
  {
    function End(): int {
      base + size
    }

    function Pos(off: int): int {
      Clamp(off - base, size)
    }
  }

  datatype Reservation = Reservation(start: int, end: int, acked: bool, corrupt: bool, written: int)

  datatype Policy = PerOp | Batched | NoSync

  datatype Err = Nil | IOErr | Retry | ErrCorrupt | Vanished | Full | TooLarge

  /** latched is a sticky ioErr; strayed says that the failure behind it left page 0 of some file in doubt
      about the commit cursor: a commit's header could not be put back, or a quarantine's was never flushed. */
  datatype St = St(
    files: seq<Seg>, commitOff: int, headOff: int, writeOff: int, reserved: seq<Reservation>,
    nWritten: int, nCommitted: int, committedTotal: int, latched: bool, strayed: bool,
    pendingCorrupt: nat, corruptions: nat, lostBytes: int, lostRecords: nat, lostSegments: nat,
    lastFrameAt: int, lastFrameEnd: int, diskBytes: int, unreclaimed: nat,
    nextNum: nat, segmentSize: nat, maxSegments: nat, policy: Policy, maxBytes: nat)

  datatype OpenAns = Opened | OpenedLatched | Gone | OpenErr

  /** What the bytes at an offset frame: a raw total, nothing, or a read that failed. */
  datatype FrameAns = Framed(total: int) | Undecodable | ReadErr

  /** WriteLatched is a failed write that could not be undone; ReopenLatched never got to write. */
  datatype WriteAns = Wrote | WriteFailed | WriteLatched | WriteGone | ReopenLatched

  datatype TickAns = TickOk | TickRetry | TickLatched

  /** One call's environment. Offsets grow along a walk, so each answer is asked for once. */
  datatype Env = Env(
    open: int -> OpenAns, frame: int -> FrameAns,
    persist: nat -> WriteAns, flush: nat -> bool,
    fullOpen: nat -> OpenAns, fullWrite: nat -> WriteAns, fullFlush: nat -> bool,
    tick: TickAns, unlink: nat -> bool,
    headOpen: OpenAns, headFrame: FrameAns, sumOK: bool)

  // ----- lookup

  function FirstPast(fs: seq<Seg>, off: int): (i: nat)
    ensures i <= |fs|
    ensures i < |fs| ==> fs[i].End() > off
    ensures forall k | 0 <= k < i :: fs[k].End() <= off
  {
    if fs == [] || fs[0].End() > off then 0 else 1 + FirstPast(fs[1..], off)
  }

  function FileFor(fs: seq<Seg>, off: int): (i: int)
    ensures -1 <= i < |fs|
    ensures i >= 0 ==> fs[i].base <= off < fs[i].End()
  {
    var i := FirstPast(fs, off);
    if i < |fs| && off >= fs[i].base then i else -1
  }

  // ----- the ledger

  function FirstUnretired(rs: seq<Reservation>, off: int): (i: nat)
    ensures i <= |rs|
    ensures i < |rs| ==> rs[i].end > off
    ensures forall k | 0 <= k < i :: rs[k].end <= off
  {
    if rs == [] || rs[0].end > off then 0 else 1 + FirstUnretired(rs[1..], off)
  }

  function DropRetired(s: St): St {
    s.(reserved := s.reserved[FirstUnretired(s.reserved, s.commitOff)..])
  }

  /** How far an unbroken run of acknowledged, adjoining entries reaches from at. */
  function RunEnd(rs: seq<Reservation>, at: int): int {
    if rs == [] || !rs[0].acked || rs[0].start != at then at else RunEnd(rs[1..], rs[0].end)
  }

  datatype Entry = NoEntry | EntryAt(r: Reservation)

  /** The entry that starts exactly where the commit cursor stands. */
  function EntryHere(s: St): (e: Entry)
    ensures e.EntryAt? ==> e.r in s.reserved && e.r.start == s.commitOff < e.r.end
  {
    var i := FirstUnretired(s.reserved, s.commitOff);
    if i < |s.reserved| && s.reserved[i].start == s.commitOff then EntryAt(s.reserved[i]) else NoEntry
  }

  function Track(s: St, r: Reservation): St {
    var d := DropRetired(s);
    d.(reserved := d.reserved + [r])
  }

  // ----- header writes

  function Put(s: St, i: nat, f: Seg): St
    requires i < |s.files|
  {
    s.(files := s.files[i := f])
  }

  /** A write that could not be undone may have left the whole new image in page 0. */
  function WriteHeader(s: St, i: nat, ans: WriteAns): (St, Err)
    requires i < |s.files|
  {
    var f := s.files[i];
    if s.latched then (s, IOErr)
    else match ans
      case Wrote => (Put(s, i, f.(images := f.images + [f.hdr])), Nil)
      case WriteFailed => (s, Retry)
      case WriteLatched => (Put(s, i, f.(images := f.images + [f.hdr])).(latched := true), IOErr)
      case WriteGone => (Put(s, i, f.(gone := true)), Vanished)
      case ReopenLatched => (s.(latched := true), IOErr)
  }

  predicate TornWrite(s: St, ans: WriteAns) {
    !s.latched && ans == WriteLatched
  }

  /** The header persistCommit builds: a file the walk has left is clamped to its own extent. */
  function Stamp(s: St, i: nat): Hdr
    requires i < |s.files|
  {
    var f := s.files[i];
    f.hdr.(commitCur := HEADER_SIZE + Min(s.commitOff - f.base, f.size), committed := f.committed)
  }

  /** persistCommit: stamp the cursor and count, or put both back where the header has them. */
  function Persist(s: St, i: nat, perOp: bool, env: Env): (St, Err)
    requires i < |s.files|
  {
    var f := s.files[i];
    var (s1, e) := WriteHeader(Put(s, i, f.(hdr := Stamp(s, i))), i, env.persist(f.num));
    if e == Vanished then (s1, Nil)
    else if e != Nil then
      var back := f.committed - f.hdr.committed;
      (Put(s1, i, f.(committed := f.hdr.committed, images := s1.files[i].images)).(
         strayed := s.strayed || TornWrite(s, env.persist(f.num)),
         commitOff := f.base + f.hdr.commitCur - HEADER_SIZE,
         nCommitted := s.nCommitted - back,
         committedTotal := s.committedTotal - back), e)
    else if perOp && !env.flush(f.num) then (s1.(latched := true), IOErr)
    else (s1, Nil)
  }

  function FullHdr(f: Seg): Hdr {
    f.hdr.(commitCur := HEADER_SIZE + f.size, committed := f.written)
  }

  /** publishFullCommit's handle is open by the time it writes. */
  function FullAns(f: Seg, env: Env): WriteAns {
    var ans := env.fullWrite(f.num);
    if ans == WriteGone || ans == ReopenLatched then WriteFailed else ans
  }

  /** publishFullCommit: the header first; a vanished file has none and succeeds. */
  function PublishFull(s: St, i: nat, env: Env): (St, Err)
    requires i < |s.files|
  {
    var f := s.files[i];
    match env.fullOpen(f.num)
    case Gone => (Put(s, i, f.(gone := true)), Nil)
    case OpenErr => (s, Retry)
    case _ =>
      var s0 := s.(latched := s.latched || env.fullOpen(f.num) == OpenedLatched);
      var ans := FullAns(f, env);
      var (s1, e) := WriteHeader(Put(s0, i, f.(hdr := FullHdr(f))), i, ans);
      if e != Nil then
        (Put(s1, i, f.(images := s1.files[i].images)).(strayed := s.strayed || TornWrite(s0, ans)), e)
      else if s.policy != NoSync && !env.fullFlush(f.num) then (s1.(latched := true, strayed := true), IOErr)
      else (s1, Nil)
  }

  // ----- quarantine

  /** Everything left in the segment counted as committed and the cursor past it. */
  function Abandoned(s: St, i: nat): St
    requires i < |s.files|
  {
    var f := s.files[i];
    var n := Max(f.written - f.committed, 0);
    Put(s, i, f.(committed := f.committed + n)).(
      nCommitted := s.nCommitted + n,
      committedTotal := s.committedTotal + n,
      commitOff := Max(s.commitOff, f.End()))
  }

  /** The half of skipCorruptSegment that runs when the damage stands at the commit cursor. */
  function RetireRest(s: St, i: nat, env: Env): (St, Err)
    requires i < |s.files|
  {
    var (s1, e) := PublishFull(s, i, env);
    if e != Nil then (s1, e) else (Abandoned(s1, i), Nil)
  }

  /** A segment squared by forceCommitAll: its own count, the cursors, and the running totals. */
  function Squared(s: St, i: nat): St
    requires i < |s.files|
  {
    var f := s.files[i];
    var n := Max(f.written - f.committed, 0);
    var c := Max(s.commitOff, f.End());
    Put(s, i, f.(committed := f.written)).(
      nCommitted := s.nCommitted + n,
      committedTotal := s.committedTotal + n,
      commitOff := c,
      headOff := Max(s.headOff, c))
  }

  predicate FullyCommitted(f: Seg) {
    f.committed >= f.written && f.hdr.commitCur >= HEADER_SIZE + f.size
  }

  /** forceCommitAll, from segment i on: each header before its counts, stopped by the first that cannot be
      published. */
  function ForceCommit(s: St, i: nat, env: Env): (St, Err)
    requires i <= |s.files|
    decreases |s.files| - i
  {
    if i == |s.files| then (s.(nCommitted := s.nWritten), Nil)
    else if FullyCommitted(s.files[i]) then ForceCommit(s, i + 1, env)
    else
      var (s1, e) := PublishFull(s, i, env);
      assert |s1.files| == |s.files|;
      if e != Nil then (s1, e) else ForceCommit(Squared(s1, i), i + 1, env)
  }

  /** The cursor addresses no live segment: everything to the tail is given up, and the counters squared. */
  function Abandon(s: St, env: Env): (St, Err) {
    var (t, e) := ForceCommit(s, 0, env);
    if e != Nil then (t, e)
    else
      (t.(corruptions := t.corruptions + 1,
          lostSegments := t.lostSegments + 1,
          lostBytes := t.lostBytes + Max(t.writeOff - s.headOff, 0),
          headOff := t.writeOff,
          commitOff := Max(t.commitOff, t.writeOff)), Nil)
  }

  function SkipCorrupt(s: St, off: int, env: Env): (St, Err) {
    var i := FileFor(s.files, off);
    if i < 0 then Abandon(s, env)
    else
      var f := s.files[i];
      var (s1, e) := if s.commitOff == off then RetireRest(s, i, env) else (s, Nil);
      if e != Nil then (s1, e)
      else
        var lost := f.End() - s1.headOff;
        var s2 := s1.(
          lostBytes := s1.lostBytes + Max(lost, 0),
          lostSegments := s1.lostSegments + if lost > 0 then 1 else 0,
          headOff := Max(s1.headOff, f.End()),
          corruptions := s1.corruptions + 1);
        (if s2.commitOff < f.End() then Track(s2, Reservation(off, f.End(), true, true, f.written)) else s2, Nil)
  }

  // ----- the commit walk

  datatype Boundary = End(next: int) | NoBoundary | BoundaryErr

  /** frameHeader's guard: only a frame inside the published extent frames anything. */
  function Decode(f: Seg, off: int, ans: FrameAns): (b: Boundary)
    ensures b.End? ==> off < b.next <= f.End()
  {
    match ans
    case Framed(total) => if MIN_FRAME <= total <= f.End() - off then End(off + total) else NoBoundary
    case Undecodable => NoBoundary
    case ReadErr => BoundaryErr
  }

  function FrameEnd(s: St, f: Seg, env: Env): Boundary {
    if s.lastFrameEnd != 0 && s.lastFrameAt == s.commitOff then End(s.lastFrameEnd)
    else Decode(f, s.commitOff, env.frame(s.commitOff))
  }

  datatype Step = Halt(s: St, cur: int, stop: Err) | Go(s: St, cur: int)

  function Crossed(s: St, i: nat, next: int, n: int): St
    requires i < |s.files|
  {
    Put(s, i, s.files[i].(committed := s.files[i].committed + n)).(
      commitOff := next,
      nCommitted := s.nCommitted + n,
      committedTotal := s.committedTotal + n)
  }

  /** What the frame at the commit cursor comes to, once it has been looked for. */
  function CrossBy(s: St, i: nat, off: int, cur: int, b: Boundary, env: Env): Step
    requires i < |s.files|
  {
    if b.BoundaryErr? then Halt(s, cur, Retry)
    else if b.NoBoundary? || !(s.commitOff < b.next <= s.writeOff) then
      if off < s.files[i].End() then Halt(s, cur, ErrCorrupt)
      else
        var (s1, err) := SkipCorrupt(s, s.commitOff, env);
        if err != Nil then Halt(s1, cur, err) else Go(s1.(pendingCorrupt := s1.pendingCorrupt + 1), -1)
    else if b.next > off then Halt(s, cur, Nil)
    else Go(Crossed(s, i, b.next, 1), i)
  }

  /** The record or extent at the commit cursor, which file i owns. */
  function Cross(s: St, i: nat, off: int, cur: int, env: Env): Step
    requires i < |s.files|
  {
    var f, e := s.files[i], EntryHere(s);
    if e.EntryAt? && e.r.corrupt then
      if e.r.end > off then Halt(s, cur, Nil)
      else Go(Crossed(s, i, e.r.end, Max(e.r.written - f.committed, 0)), i)
    else
      var o := env.open(s.commitOff);
      var s := s.(latched := s.latched || o == OpenedLatched);
      if s.latched then Halt(s, cur, IOErr)
      else if o == OpenErr then Halt(s, cur, Retry)
      else
        var b := if o != Gone then FrameEnd(s, f, env) else if e.EntryAt? then End(e.r.end) else NoBoundary;
        CrossBy(s, i, off, cur, b, env)
  }

  function WalkStep(s: St, off: int, perOp: bool, cur: int, env: Env): Step
    requires cur < |s.files|
  {
    var i := FileFor(s.files, s.commitOff);
    if i < 0 then Halt(s, cur, ErrCorrupt)
    else if 0 <= cur != i then
      var (s1, e) := Persist(s, cur, perOp, env);
      if e != Nil then Halt(s1, -1, e) else Cross(s1, i, off, -1, env)
    else Cross(s, i, off, cur, env)
  }

  // ----- reclamation

  datatype Reclaimed = Reclaimed(files: seq<Seg>, written: int, committed: int, bytes: int, failed: nat)

  function Reclaim(fs: seq<Seg>, upTo: int, keep: int, env: Env): Reclaimed {
    if fs == [] || keep == 0 || fs[0].End() > upTo then Reclaimed(fs, 0, 0, 0, 0)
    else
      var r := Reclaim(fs[1..], upTo, keep - 1, env);
      var f := fs[0];
      if f.pins > 0 then r.(files := [f] + r.files)
      else if !env.unlink(f.num) then r.(files := [f] + r.files, failed := r.failed + 1)
      else r.(written := r.written + f.written, committed := r.committed + f.committed,
              bytes := r.bytes + HEADER_SIZE + f.capacity)
  }

  /** dropCommitted; keep is an index, negative for none. */
  function DropCommitted(s: St, keep: int, env: Env): St {
    if s.files == [] || keep == 0 || s.files[0].End() > s.commitOff then s
    else
      var r := Reclaim(s.files, s.commitOff, keep, env);
      s.(files := r.files, lastFrameAt := 0, lastFrameEnd := 0,
         nWritten := s.nWritten - r.written, nCommitted := s.nCommitted - r.committed,
         diskBytes := s.diskBytes - r.bytes, unreclaimed := s.unreclaimed + r.failed)
  }
}
