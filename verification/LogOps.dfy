/** The consume and produce operations over the store: reader.go, reserve.go, takeHead, publishSpan, cycle. */
module LogOps {
  import opened Ints
  import opened Log
  import opened LogCommit

  // ----- acknowledging

  function CommitAckedRun(s: St, durable: bool, env: Env): (St, Err) {
    var target := RunEnd(s.reserved, s.commitOff);
    if s.latched then (s, IOErr)
    else if target <= s.commitOff then (s, Nil)
    else
      var (t, e) := CommitDurable(s, target, durable, env);
      (DropRetired(t), e)
  }

  function RetireFrame(s: St, start: int, end: int, durable: bool, env: Env): (St, Err) {
    CommitAckedRun(Track(s, Reservation(start, end, true, false, 0)), durable, env)
  }

  function MarkAcked(rs: seq<Reservation>, end: int): (r: seq<Reservation>)
    ensures |r| == |rs|
    ensures forall k | 0 <= k < |rs| :: r[k] == if rs[k].end == end then rs[k].(acked := true) else rs[k]
  {
    if rs == [] then [] else [if rs[0].end == end then rs[0].(acked := true) else rs[0]] + MarkAcked(rs[1..], end)
  }

  predicate Names(rs: seq<Reservation>, end: int) {
    exists r <- rs :: r.end == end
  }

  /** Ack: false when the offset names no outstanding reservation. */
  function Ack(s: St, end: int, env: Env): (St, bool, Err) {
    if end > s.headOff then (s, false, Nil)
    else if s.latched then (s, true, IOErr)
    else
      var d := DropRetired(s);
      if end <= s.commitOff then (d, true, Nil)
      else if !Names(d.reserved, end) then (d, false, Nil)
      else
        var (t, e) := CommitAckedRun(d.(reserved := MarkAcked(d.reserved, end)), true, env);
        (t, true, e)
  }

  /** AckBatch's marking pass: every resolvable offset is marked, one bad one is only remembered. */
  function MarkAll(s: St, ends: seq<int>): (St, bool)
    decreases |ends|
  {
    if ends == [] then (s, true)
    else
      var end := ends[0];
      if end > s.headOff || (end > s.commitOff && !Names(s.reserved, end)) then (MarkAll(s, ends[1..]).0, false)
      else if end <= s.commitOff then MarkAll(s, ends[1..])
      else MarkAll(s.(reserved := MarkAcked(s.reserved, end)), ends[1..])
  }

  function AckBatch(s: St, ends: seq<int>, env: Env): (St, bool, Err) {
    if s.latched then (s, true, IOErr)
    else
      var (m, valid) := MarkAll(DropRetired(s), ends);
      var (t, e) := CommitAckedRun(m, true, env);
      (t, valid, e)
  }

  function Rewind(s: St): St {
    s.(headOff := s.commitOff, reserved := [])
  }

  // ----- reading

  datatype Taken = Empty | Delivered(at: int, next: int) | Reported(also: Err) | Refused(e: Err)

  /** Damage that leaves nothing to resynchronize on: the rest of the segment goes. */
  function QuarantineHead(s: St, env: Env): (St, Taken) {
    var (t, e) := SkipCorrupt(s, s.headOff, env);
    (t, if e == Nil then Reported(Nil) else if t.headOff == s.headOff then Refused(e) else Reported(e))
  }

  function DropFrame(s: St, next: int, env: Env): (St, Taken) {
    var d := s.(
      lostBytes := s.lostBytes + next - s.headOff,
      lostRecords := s.lostRecords + 1,
      corruptions := s.corruptions + 1,
      headOff := next);
    var (t, e) := RetireFrame(d, s.headOff, next, false, env);
    (t, Reported(e))
  }

  function TakeHead(s: St, env: Env): (St, Taken) {
    if s.pendingCorrupt > 0 then (s.(pendingCorrupt := s.pendingCorrupt - 1), Reported(Nil))
    else if s.headOff >= s.writeOff then (s, Empty)
    else
      var i := FileFor(s.files, s.headOff);
      if i < 0 || env.headOpen == Gone then QuarantineHead(s, env)
      else if env.headOpen == OpenErr then (s, Refused(Retry))
      else
        var s1 := s.(latched := s.latched || env.headOpen == OpenedLatched);
        match Decode(s.files[i], s.headOff, env.headFrame)
        case BoundaryErr => (s1, Refused(Retry))
        case NoBoundary => QuarantineHead(s1, env)
        case End(next) =>
          if !env.sumOK then DropFrame(s1, next, env)
          else (s1.(lastFrameAt := s.headOff, lastFrameEnd := next, headOff := next), Delivered(s.headOff, next))
  }

  /** TryReserve: the record just read enters the ledger. */
  function TryReserve(s: St, env: Env): (St, Taken) {
    var (t, d) := TakeHead(s, env);
    (if d.Delivered? then Track(t, Reservation(t.lastFrameAt, t.lastFrameEnd, false, false, 0)) else t, d)
  }

  // ----- writing

  datatype CreateAns = Created | CreatedLatched | CreateFailed

  /** What appending meets: whether the platform can index the frame, reclamation and creation, the data fsync, the
      header write, and the header fsync or the batched policy's tick. */
  datatype AppendEnv = AppendEnv(
    addressable: bool, drop: Env, create: CreateAns, opens: OpenAns, wrote: bool, dataSync: bool, header: WriteAns,
    headerSync: bool, tick: TickAns)

  function SumLens(lens: seq<nat>): nat {
    if lens == [] then 0 else lens[0] + SumLens(lens[1..])
  }

  function EndsAfter(size: int, lens: seq<nat>): seq<int>
    decreases |lens|
  {
    if lens == [] then [] else [size + lens[0]] + EndsAfter(size + lens[0], lens[1..])
  }

  /** The segment with a span moved into its published extent, its header stamped but not written. */
  function Grown(f: Seg, lens: seq<nat>): Seg {
    var f1 := f.(size := f.size + SumLens(lens), written := f.written + |lens|, ends := f.ends + EndsAfter(f.size, lens));
    f1.(hdr := f.hdr.(writeCur := HEADER_SIZE + f1.size, written := f1.written))
  }

  /** The span published in memory, its header not yet written. */
  function Lengthened(s: St, lens: seq<nat>): St
    requires s.files != []
  {
    var i := |s.files| - 1;
    Put(s, i, Grown(s.files[i], lens)).(writeOff := s.writeOff + SumLens(lens), nWritten := s.nWritten + |lens|)
  }

  /** unpublishSpan: the tail is f again, but for what became of its file and its page. */
  function Shortened(s: St, f: Seg, lens: seq<nat>, torn: seq<int>): St
    requires s.files != []
  {
    var i := |s.files| - 1;
    Put(s, i, f.(gone := s.files[i].gone, images := s.files[i].images, torn := torn)).(
      writeOff := s.writeOff - SumLens(lens), nWritten := s.nWritten - |lens|)
  }

  /** publishSpan: the span moves into the published extent, or the header write fails and nothing moved. */
  function PublishSpan(s: St, lens: seq<nat>, ans: WriteAns): (St, Err) {
    if s.files == [] || s.files[|s.files| - 1].gone then (s, Retry)
    else
      var f := s.files[|s.files| - 1];
      var (s1, e) := WriteHeader(Lengthened(s, lens), |s.files| - 1, ans);
      if e == Nil then (s1, Nil)
      else (Shortened(s1, f, lens, if TornWrite(s, ans) then EndsAfter(f.size, lens) else f.torn), e)
  }

  function NewSeg(s: St, need: nat): Seg {
    var h := Hdr(HEADER_SIZE, HEADER_SIZE, 0, 0);
    Seg(s.nextNum, s.writeOff, 0, Max(s.segmentSize, need), 0, 0, h, [h], false, 0, [], [])
  }

  /** createFile: the segment joins the log even when its fsync could only be latched. */
  function StartSegment(s: St, need: nat, ans: CreateAns): (St, Err) {
    if ans == CreateFailed then (s, Retry)
    else
      var f := NewSeg(s, need);
      var t := s.(
        files := s.files + [f], nextNum := s.nextNum + 1, diskBytes := s.diskBytes + HEADER_SIZE + f.capacity,
        latched := s.latched || ans == CreatedLatched);
      (t, if t.latched then IOErr else Nil)
  }

  /** cycle: reclaim everything committed, the active file included, then start a new segment. */
  function Cycle(s: St, need: nat, force: bool, a: AppendEnv): (St, Err) {
    var d := DropCommitted(s, -1, a.drop);
    if !force && d.maxSegments > 0 && |d.files| >= d.maxSegments then (d, Full)
    else StartSegment(d, need, a.create)
  }

  predicate NeedsCycle(s: St, need: nat) {
    s.files == [] || s.files[|s.files| - 1].size + need > s.files[|s.files| - 1].capacity
  }

  /** admitRecord: the platform's limit binds always, the byte cap unless forced. */
  function Admit(s: St, len: nat, force: bool, addressable: bool): Err {
    if !addressable then TooLarge
    else if force || s.maxBytes == 0 then Nil
    else if len > s.maxBytes then TooLarge
    else if s.writeOff - s.commitOff + len > s.maxBytes then Full
    else Nil
  }

  /** The fsync the policy asks for once the header is out. */
  function Flushed(s: St, a: AppendEnv): (St, Err) {
    match s.policy
    case NoSync => (s, Nil)
    case Batched =>
      if a.tick == TickOk then (s, Nil) else if a.tick == TickRetry then (s, Retry) else (s.(latched := true), IOErr)
    case PerOp => if a.headerSync then (s, Nil) else (s.(latched := true), IOErr)
  }

  /** What follows the cycle: the record's bytes, their fsync, the header that publishes them, and its fsync. */
  function WriteOut(c: St, len: nat, a: AppendEnv): (St, Err) {
    if a.opens == OpenErr || a.opens == Gone then (c, Retry)
    else
      var o := c.(latched := a.opens == OpenedLatched);
      if o.latched then (o, IOErr)
      else if !a.wrote then (o, Retry)
      else if o.policy == PerOp && !a.dataSync then (o.(latched := true), IOErr)
      else
        var (p, e) := PublishSpan(o, [len], a.header);
        if e != Nil then (p, e) else Flushed(p, a)
  }

  /** appendRecord. */
  function Append(s: St, len: nat, force: bool, a: AppendEnv): (St, Err) {
    if s.latched then (s, IOErr)
    else if Admit(s, len, force, a.addressable) != Nil then (s, Admit(s, len, force, a.addressable))
    else
      var (c, e) := if NeedsCycle(s, len) then Cycle(s, len, force, a) else (s, Nil);
      if e != Nil then (c, e) else WriteOut(c, len, a)
  }

  /** The bytes a rotation appends. */
  function CopyLen(d: Taken): nat {
    if d.Delivered? && d.at < d.next then d.next - d.at else 0
  }

  /** Requeue: append the copy first, then retire the head through the ledger. The answers are the append's and the
      retirement's. */
  function Requeue(s: St, take: Env, a: AppendEnv, retire: Env): (St, Taken, Err, Err) {
    var (t, d) := TakeHead(s, take);
    if !d.Delivered? then (t, d, Nil, Nil)
    else
      var (u, e) := Append(t, d.next - d.at, true, a);
      if e != Nil then (u.(headOff := Min(u.headOff, s.headOff)), d, e, Nil)
      else
        var (v, retired) := RetireFrame(u, d.at, d.next, true, retire);
        (v, d, Nil, retired)
  }

  function Skip(s: St, take: Env, retire: Env): (St, Taken, Err) {
    var (t, d) := TakeHead(s, take);
    if !d.Delivered? then (t, d, Nil)
    else
      var (u, e) := RetireFrame(t, t.lastFrameAt, t.lastFrameEnd, true, retire);
      (u, d, e)
  }
}
