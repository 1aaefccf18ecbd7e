/** Group commit under the per-operation policy, cut at the points where the queue's lock is let go, with a Sync's
    fsyncs of the same files running beside it. */
module GroupCommit {
  import opened StagingFaults

  /** A framed record's length: a length byte, the checksum. */
  type FrameLen = n: nat | 9 <= n witness 9

  /** A staged or published record; tickets are handed out in staging order. */
  datatype Rec = Rec(ticket: nat, len: FrameLen)

  /** What an Add returned: nil, an ordinary error, or one wrapping ErrIO. */
  datatype Verdict = Done | Lost | Poisoned

  // ----- a segment file, and what the kernel makes of its writes

  /** live: the records published in it; laid: what its data region frames, from its start.
      unsynced: records whose bytes may not be on stable storage; dropped: those a reported writeback error may have
      thrown away, which no later fsync brings back.
      images: how many records the header may be found to cover, oldest first, numbered from first; a reported
      error may have dropped those numbered before stuck. */
  datatype Seg = Seg(
    live: seq<Rec>, laid: seq<Rec>, unsynced: set<nat>, dropped: set<nat>, images: seq<nat>, first: nat, stuck: nat)

  /** An fsync under way: the records and the newest header written before it began. */
  datatype Flight = Flight(mark: set<nat>, image: nat)

  const EMPTY := Seg([], [], {}, {}, [0], 0, 0)

  function Newest(g: Seg): nat {
    if g.images == [] then 0 else g.first + |g.images| - 1
  }

  function Launch(g: Seg): Flight {
    Flight(g.unsynced, Newest(g))
  }

  /** The headers a completed header fsync leaves possible. */
  function Forget(g: Seg, image: nat): Seg {
    if g.first < image < g.first + |g.images| then g.(images := g.images[image - g.first..], first := image) else g
  }

  /** What an fsync's answer is worth. The kernel reports a writeback error once, to whichever fsync asks first, and
      drops the pages: that answer covers everything not yet down, and a clean one after it covers none of that. */
  function Answered(g: Seg, fl: Flight, ok: bool): Seg {
    if !ok then g.(dropped := g.unsynced, stuck := g.first + |g.images|)
    else
      var h := g.(unsynced := g.unsynced - (fl.mark - g.dropped));
      if fl.image >= g.stuck then Forget(h, fl.image) else h
  }

  function Headed(g: Seg, covers: nat): Seg {
    g.(images := g.images + [covers])
  }

  // ----- the queue

  /** What an fsync's own caller has been told. */
  datatype Told = Untold | Clean | Error

  /** The leader's span: its data fsync, then its header's, run with the lock released. */
  datatype Phase = Idle | DataSync(fl: Flight, told: Told) | HeaderSync(fl: Flight, told: Told)

  datatype Target = Between | Fsync(seg: nat, fl: Flight)

  /** A Sync under way; failed: one of its fsyncs has answered with an error and it has not had the lock since. */
  datatype Sync = NoSync | Syncing(on: Target, failed: bool)

  /** A commit that fsyncs the header it has written, the lock held. */
  datatype Commit = NoCommit | Flushing(seg: nat, fl: Flight)

  /** Closed segments, the active one and everything staged into it. held: a batch keeps the lock over its fsyncs.
      fooled: a leader has gone by a clean answer to an fsync whose error a Sync had been told. */
  datatype Log = Log(
    closed: seq<Seg>, act: Seg, inFlight: seq<Rec>, pending: seq<Rec>,
    phase: Phase, held: bool, sync: Sync, commit: Commit, mine: set<nat>, group: set<nat>, curGroup: set<nat>,
    quiescing: nat, latched: bool, fooled: bool, verdicts: map<nat, Verdict>, stamp: nat)

  function Sum(rs: seq<Rec>): nat {
    if rs == [] then 0 else rs[0].len + Sum(rs[1..])
  }

  function Tickets(rs: seq<Rec>): set<nat> {
    set r | r in rs :: r.ticket
  }

  function Staging(s: Log): seq<Rec> {
    s.act.live + s.inFlight + s.pending
  }

  /** The records of the closed segments, in order. */
  function Flat(gs: seq<Seg>): seq<Rec> {
    if gs == [] then [] else Flat(gs[..|gs| - 1]) + gs[|gs| - 1].live
  }

  /** Everything ever published and not reclaimed. */
  function Records(s: Log): seq<Rec> {
    Flat(s.closed) + s.act.live
  }

  function Init(): Log {
    Log([], EMPTY, [], [], Idle, false, NoSync, NoCommit, {}, {}, {}, 0, false, false, map[], 0)
  }

  function SegAt(s: Log, i: nat): Seg
    requires i <= |s.closed|
  {
    if i < |s.closed| then s.closed[i] else s.act
  }

  function PutSeg(s: Log, i: nat, g: Seg): Log
    requires i <= |s.closed|
  {
    if i < |s.closed| then s.(closed := s.closed[i := g]) else s.(act := g)
  }

  /** Callers whose Add has not returned. */
  function Waiting(s: Log): set<nat> {
    s.mine + s.group + s.curGroup
  }

  // ----- events

  datatype Event =
    | Refuse                                                    // full, too large, closed: nothing staged
    | Add(len: FrameLen, ans: StageAns)
    | LeaderTold(ok: bool)                                      // the fsync the leader runs off the lock answers
    | DataSynced(header: HeaderAns)                             // the leader is back from the data fsync
    | HeaderSynced                                              // and from the header fsync
    | CommitHeader(seg: nat, header: HeaderAns, flush: bool)    // a consumer's commit rewrites a segment's header
    | CommitTold(ok: bool)                                      // its fsync answers, the lock still held
    | Poison                                                    // some other flush in the lock failed
    | QuiesceEnter
    | QuiesceLeave
    | Batch(lens: seq<FrameLen>)                                // a batch stages its span and keeps the lock
    | NewSegment
    | SyncBegin                                                 // a Sync found the queue quiesced
    | SyncIssue(seg: nat)                                       // it starts an fsync off the lock
    | SyncTold(ok: bool)                                        // that fsync answers
    | SyncBack                                                  // it has the lock again
    | SyncEnd

  predicate Drained(s: Log) {
    s.phase.Idle? && s.inFlight == [] && s.pending == []
  }

  predicate Enabled(s: Log, e: Event) {
    match e
    case LeaderTold(_) => !s.phase.Idle? && s.phase.told.Untold?
    case DataSynced(_) => s.phase.DataSync? && !s.phase.told.Untold? && s.commit.NoCommit?
    case HeaderSynced => s.phase.HeaderSync? && !s.phase.told.Untold? && s.commit.NoCommit?
    case CommitTold(_) => s.commit.Flushing? && s.commit.seg <= |s.closed|
    case SyncIssue(i) => s.sync.Syncing? && s.sync.on.Between? && i <= |s.closed|
    case SyncTold(_) => s.sync.Syncing? && s.sync.on.Fsync? && s.sync.on.seg <= |s.closed|
    case _ => !s.held && s.commit.NoCommit? && Admitted(s, e)
  }

  /** What a caller that has taken the lock may do. */
  predicate Admitted(s: Log, e: Event) {
    match e
    case Add(_, _) => s.latched || s.quiescing == 0
    case CommitHeader(i, _, _) => !s.latched && i <= |s.closed|
    case QuiesceLeave => s.quiescing > 0 && Drained(s)
    case Batch(lens) => Drained(s) && !s.latched && lens != []
    case NewSegment => Drained(s) && !s.latched
    case SyncBegin => Drained(s) && !s.latched && s.sync.NoSync?
    case SyncBack => s.sync.Syncing? && s.sync.on.Between?
    case SyncEnd => s.sync.Syncing? && s.sync.on.Between? && !s.sync.failed
    case _ => true
  }

  /** stagePending: the bytes go down past everything staged; no header and no cursor moves. */
  function StageRecord(s: Log, len: FrameLen): Log {
    var r := Rec(s.stamp, len);
    s.(act := s.act.(laid := Staging(s) + [r], unsynced := s.act.unsynced + {r.ticket}),
       stamp := s.stamp + 1, pending := s.pending + [r], curGroup := s.curGroup + {r.ticket})
  }

  /** A write that failed may have left anything behind what is staged. */
  function StageNothing(s: Log): Log {
    s.(act := s.act.(laid := Staging(s)))
  }

  /** takeSpan, and the group that waits on it. */
  function StartSpan(s: Log): Log {
    s.(group := s.curGroup, curGroup := {}, inFlight := s.pending, pending := [], phase := DataSync(Launch(s.act), Untold))
  }

  /** The leader's own record is the span's first. */
  function Lead(s: Log): Log {
    StartSpan(s).(mine := s.curGroup, group := {})
  }

  function StageAll(s: Log, lens: seq<FrameLen>): Log
    decreases |lens|
  {
    if lens == [] then s else StageAll(StageRecord(s, lens[0]), lens[1..])
  }

  function Settle(s: Log, ts: set<nat>, v: Verdict): map<nat, Verdict> {
    s.verdicts + map t | t in ts :: v
  }

  /** A failed span: everything staged is discarded and everyone waiting is told. */
  function Fail(s: Log, v: Verdict): Log {
    s.(verdicts := Settle(s, Waiting(s), v), inFlight := [], pending := [],
       mine := {}, group := {}, curGroup := {}, phase := Idle, held := false)
  }

  /** The next ticket, answered on the spot with nothing staged. */
  function Answer(s: Log, v: Verdict): Log {
    s.(verdicts := Settle(s, {s.stamp}, v), stamp := s.stamp + 1)
  }

  function Latch(s: Log): Log {
    s.(latched := true)
  }

  /** The span's header, in page 0 or on its way there. */
  function Stamped(s: Log): Log {
    s.(act := Headed(s.act, |s.act.live + s.inFlight|))
  }

  /** publishSpan, as far as the header write; a header that could not be put back may be the new one. */
  function Publish(s: Log, header: HeaderAns): Log {
    var u := Stamped(s);
    match header
    case Wrote => u.(act := u.act.(live := s.act.live + s.inFlight), inFlight := [], phase := HeaderSync(Launch(u.act), Untold))
    case Refused => Fail(s, Lost)
    case Torn => Fail(Latch(u), Poisoned)
  }

  /** The span holds a record whose pages were dropped, and the leader goes by the answer it got. */
  predicate SpanDropped(s: Log) {
    exists r <- s.inFlight :: r.ticket in s.act.dropped
  }

  function DataBack(s: Log, header: HeaderAns): Log
    requires s.phase.DataSync?
  {
    if s.phase.told.Error? || s.latched then Fail(Latch(s), Poisoned)
    else Publish(s.(fooled := s.fooled || (!header.Refused? && SpanDropped(s))), header)
  }

  function Acknowledge(s: Log): Log {
    s.(verdicts := Settle(s, s.mine + s.group, Done), mine := {}, group := {}, phase := Idle, held := false)
  }

  /** The header the leader wrote was dropped, and an older one may still be found. */
  predicate HeaderDropped(s: Log)
    requires s.phase.HeaderSync?
  {
    s.phase.fl.image < s.act.stuck && s.act.first < s.phase.fl.image
  }

  function HeaderBack(s: Log): Log
    requires s.phase.HeaderSync?
  {
    if s.phase.told.Error? || s.latched then Fail(Latch(s), Poisoned)
    else
      var u := Acknowledge(s).(fooled := s.fooled || HeaderDropped(s));
      if s.curGroup == {} then u else StartSpan(u)
  }

  /** A commit's rewrite of a segment's header under the lock. */
  function Rewrite(s: Log, i: nat, header: HeaderAns, flush: bool): Log
    requires i <= |s.closed|
  {
    var g := Headed(SegAt(s, i), |SegAt(s, i).live|);
    match header
    case Wrote => PutSeg(s, i, g).(commit := if flush then Flushing(i, Launch(g)) else NoCommit)
    case Refused => s
    case Torn => Latch(PutSeg(s, i, g))
  }

  function CommitAnswered(s: Log, ok: bool): Log
    requires s.commit.Flushing? && s.commit.seg <= |s.closed|
  {
    var i := s.commit.seg;
    var u := PutSeg(s, i, Answered(SegAt(s, i), s.commit.fl, ok)).(commit := NoCommit);
    if ok then u else Latch(u)
  }

  function LeaderAnswered(s: Log, ok: bool): Log
    requires !s.phase.Idle?
  {
    s.(act := Answered(s.act, s.phase.fl, ok), phase := s.phase.(told := if ok then Clean else Error))
  }

  function SyncAnswered(s: Log, ok: bool): Log
    requires s.sync.Syncing? && s.sync.on.Fsync? && s.sync.on.seg <= |s.closed|
  {
    var i := s.sync.on.seg;
    PutSeg(s, i, Answered(SegAt(s, i), s.sync.on.fl, ok)).(sync := Syncing(Between, s.sync.failed || !ok))
  }

  /** cycle: the active segment closes as it stands. */
  function Cycled(s: Log): Log {
    s.(closed := s.closed + [s.act], act := EMPTY)
  }

  function Step(s: Log, e: Event): Log
    requires Enabled(s, e)
  {
    match e
    case Refuse => Answer(s, Lost)
    case Add(len, ans) =>
      if s.latched then Answer(s, Poisoned)
      else if ans == StageLatched then Answer(Latch(s), Poisoned)
      else if ans == StageFailed then Answer(StageNothing(s), Lost)
      else if s.phase.Idle? then Lead(StageRecord(s, len))
      else StageRecord(s, len)
    case LeaderTold(ok) => LeaderAnswered(s, ok)
    case DataSynced(header) => DataBack(s, header)
    case HeaderSynced => HeaderBack(s)
    case CommitHeader(i, header, flush) => Rewrite(s, i, header, flush)
    case CommitTold(ok) => CommitAnswered(s, ok)
    case Poison => Latch(s)
    case QuiesceEnter => s.(quiescing := s.quiescing + 1)
    case QuiesceLeave => s.(quiescing := s.quiescing - 1)
    case Batch(lens) => Lead(StageAll(s, lens)).(held := true)
    case NewSegment => Cycled(s)
    case SyncBegin => s.(sync := Syncing(Between, false))
    case SyncIssue(i) => s.(sync := s.sync.(on := Fsync(i, Launch(SegAt(s, i)))))
    case SyncTold(ok) => SyncAnswered(s, ok)
    case SyncBack => s.(latched := s.latched || s.sync.failed, sync := Syncing(Between, false))
    case SyncEnd => s.(sync := NoSync)
  }

  // ----- what holds whatever the fsyncs are worth

  /** The tickets given out so far. */
  function Given(n: nat): (ts: set<nat>)
    ensures forall t :: t in ts ==> t < n
  {
    if n == 0 then {} else Given(n - 1) + {n - 1}
  }

  ghost predicate Waiters(s: Log) {
    && s.curGroup == Tickets(s.pending)
    && (s.phase.DataSync? ==> s.mine + s.group == Tickets(s.inFlight))
    && (s.phase.HeaderSync? ==> s.mine + s.group <= Tickets(s.act.live))
    && (s.phase.Idle? ==> s.mine == {} && s.group == {})
    && s.verdicts.Keys + Waiting(s) == Given(s.stamp)
    && s.verdicts.Keys !! Waiting(s)
  }

  ghost predicate Ordered(rs: seq<Rec>, stamp: nat) {
    && (forall r <- rs :: r.ticket < stamp)
    && forall i, j | 0 <= i < j < |rs| :: rs[i].ticket < rs[j].ticket
  }

  /** nil is in the log; an ordinary error is not. */
  ghost predicate Verdicts(s: Log) {
    && (forall t <- s.verdicts :: s.verdicts[t] == Done ==> t in Tickets(Records(s)))
    && (forall t <- s.verdicts :: s.verdicts[t] == Lost ==> t !in Tickets(Records(s)))
  }

  /** The active file: its region frames everything staged, and an error is owed to whoever was told of it. */
  ghost predicate Active(s: Log) {
    && Staging(s) <= s.act.laid && s.act.images != []
    && s.act.dropped <= s.act.unsynced
    && (!s.latched && !Owing(s) ==> s.act.dropped == {} && s.act.stuck <= s.act.first)
  }

  /** Someone has been told of a failed fsync and has not had the lock to latch it. */
  predicate Owing(s: Log) {
    (s.sync.Syncing? && s.sync.failed) || (!s.phase.Idle? && s.phase.told.Error?)
  }

  ghost predicate Shape(s: Log) {
    && (if s.phase.DataSync? then s.inFlight != [] else s.inFlight == [])
    && (s.phase.Idle? ==> s.pending == [] && !s.held)
    && (s.held ==> s.pending == [])
    && (s.phase.HeaderSync? ==> s.act.live != [] && s.act.live[|s.act.live| - 1].ticket in s.mine + s.group)
  }

  /** What of the span in flight may not be down: what its fsync is for, or what an error has taken. */
  ghost predicate Span(s: Log) {
    s.phase.DataSync? && !s.phase.told.Error? ==>
      Tickets(s.inFlight) * s.act.unsynced <= if s.phase.told.Clean? then s.act.dropped else s.phase.fl.mark
  }

  ghost predicate Books(s: Log) {
    && Waiters(s) && Ordered(Flat(s.closed) + Staging(s), s.stamp) && Verdicts(s) && Active(s)
  }

  // ----- what holds until a leader has been fooled

  /** The first n records of the region are on stable storage. */
  ghost predicate Durable(g: Seg, n: nat) {
    forall k | 0 <= k < n && k < |g.laid| :: g.laid[k].ticket !in g.unsynced
  }

  ghost predicate Data(g: Seg) {
    Durable(g, |g.live|) && forall i | 0 <= i < |g.images| :: Durable(g, g.images[i])
  }

  /** What the active segment's header may be found to cover. */
  ghost predicate Headers(s: Log) {
    var n := |s.act.live|;
    && (forall i | 0 <= i < |s.act.images| :: s.act.images[i] <= if s.latched then |s.act.laid| else n)
    && (!s.latched && !s.phase.HeaderSync? ==> forall i | 0 <= i < |s.act.images| :: s.act.images[i] == n)
    && (s.phase.HeaderSync? ==>
          && s.phase.fl.image < s.act.first + |s.act.images|
          && (s.phase.told.Clean? ==> s.act.first >= s.phase.fl.image || s.act.stuck > s.phase.fl.image)
          && (forall i | 0 <= i < |s.act.images| ::
                if s.act.first + i >= s.phase.fl.image then s.act.images[i] == n else s.latched || s.act.images[i] < n))
  }

  /** t is one of the first n records. */
  ghost predicate Covered(rs: seq<Rec>, t: nat, n: nat) {
    exists k | 0 <= k < |rs| && k < n :: rs[k].ticket == t
  }

  /** Every header that may be found covers every nil. */
  ghost predicate Backed(s: Log) {
    forall t <- s.verdicts, i | 0 <= i < |s.act.images| && s.verdicts[t] == Done ::
      t in Tickets(Flat(s.closed)) || Covered(s.act.live, t, s.act.images[i])
  }

  /** A closed segment: whole on stable storage, whichever header is found. */
  ghost predicate Settled(g: Seg) {
    && g.live <= g.laid && g.images != [] && Data(g)
    && forall i | 0 <= i < |g.images| :: g.images[i] == |g.live|
  }

  ghost predicate Disk(s: Log) {
    Data(s.act) && Headers(s) && Backed(s) && forall g <- s.closed :: Settled(g)
  }

  ghost predicate Loose(s: Log) {
    Books(s) && (!s.fooled ==> Disk(s))
  }

  ghost predicate Inv(s: Log) {
    Loose(s) && Shape(s) && Span(s)
  }

  // ----- tickets, prefixes, closed segments

  lemma {:induction false} SumJoins(a: seq<Rec>, b: seq<Rec>)
    ensures Sum(a + b) == Sum(a) + Sum(b)
  {
    if a == [] {
      assert a + b == b;
    } else {
      assert (a + b)[1..] == a[1..] + b;
      SumJoins(a[1..], b);
    }
  }

  lemma TicketsJoin(a: seq<Rec>, b: seq<Rec>)
    ensures Tickets(a + b) == Tickets(a) + Tickets(b)
  {
    forall r | r in a || r in b ensures r.ticket in Tickets(a + b) {
      assert r in a + b;
    }
  }

  lemma OneTicket(r: Rec)
    ensures Tickets([r]) == {r.ticket} && Tickets([]) == {}
  {
    assert r in [r];
  }

  lemma NoTickets(rs: seq<Rec>)
    ensures Tickets(rs) == {} ==> rs == []
  {
    if rs != [] {
      assert rs[0].ticket in Tickets(rs);
    }
  }

  /** Segments rewritten in place hold the same records. */
  lemma {:induction false} FlatPut(gs: seq<Seg>, i: nat, g: Seg)
    requires i < |gs| && g.live == gs[i].live
    ensures Flat(gs[i := g]) == Flat(gs)
    decreases |gs|
  {
    var n, hs := |gs| - 1, gs[i := g];
    if i < n {
      assert hs[..n] == gs[..n][i := g];
      FlatPut(gs[..n], i, g);
    } else {
      assert hs[..n] == gs[..n];
    }
  }

  lemma FlatSnoc(gs: seq<Seg>, g: Seg)
    ensures Flat(gs + [g]) == Flat(gs) + g.live
  {
    assert (gs + [g])[..|gs|] == gs;
  }

  lemma PrefixOrdered(a: seq<Rec>, b: seq<Rec>, stamp: nat)
    requires Ordered(b, stamp) && a <= b
    ensures Ordered(a, stamp)
  {
    forall r <- a ensures r.ticket < stamp {
      assert r in b;
    }
    forall i, j | 0 <= i < j < |a| ensures a[i].ticket < a[j].ticket {
      assert a[i] == b[i] && a[j] == b[j];
    }
  }

  lemma CoveredGrows(a: seq<Rec>, b: seq<Rec>, t: nat, n: nat)
    requires Covered(a, t, n) && a <= b
    ensures Covered(b, t, n)
  {
    var k :| 0 <= k < |a| && k < n && a[k].ticket == t;
    assert b[k] == a[k];
  }

  lemma AllCovered(a: seq<Rec>, t: nat, n: nat)
    requires t in Tickets(a) && n >= |a|
    ensures Covered(a, t, n)
  {
    var k :| 0 <= k < |a| && a[k].ticket == t;
  }

  /** Where a ticket of the span lies in the region. */
  lemma StagedTickets(s: Log)
    requires Active(s)
    ensures forall k | |s.act.live| <= k < |s.act.live + s.inFlight| :: k < |s.act.laid| && s.act.laid[k] in s.inFlight
    ensures s.act.live <= s.act.laid && s.act.live + s.inFlight <= s.act.laid
  {
    var all := s.act.live + s.inFlight;
    assert all <= Staging(s) <= s.act.laid;
    forall k | |s.act.live| <= k < |all| ensures s.act.laid[k] in s.inFlight {
      assert s.act.laid[k] == all[k] == s.inFlight[k - |s.act.live|];
    }
  }

  lemma InitHolds()
    ensures Inv(Init())
  {
  }

  /** A ticket not given out yet is nowhere. */
  lemma NewTicket(s: Log)
    requires Books(s)
    ensures s.stamp !in Tickets(Records(s)) && s.stamp !in s.verdicts && s.stamp !in Waiting(s)
    ensures s.stamp !in Tickets(Staging(s))
  {
    forall r | r in Records(s) || r in Staging(s) ensures r.ticket < s.stamp {
      assert r in Flat(s.closed) + Staging(s);
    }
  }

  /** What is staged is not in the log. */
  lemma StagedApart(s: Log)
    requires Ordered(Flat(s.closed) + Staging(s), s.stamp)
    ensures (Tickets(s.inFlight) + Tickets(s.pending)) !! Tickets(Records(s))
  {
    var all, n := Flat(s.closed) + Staging(s), |Records(s)|;
    assert all == Records(s) + (s.inFlight + s.pending);
    forall r <- Records(s), q <- s.inFlight + s.pending ensures r.ticket < q.ticket {
      var i :| 0 <= i < n && Records(s)[i] == r;
      var j :| 0 <= j < |s.inFlight + s.pending| && (s.inFlight + s.pending)[j] == q;
      assert all[i] == r && all[n + j] == q;
    }
  }

  // ----- what an fsync's answer, a header and a latch leave standing

  lemma AnsweredSeg(g: Seg, fl: Flight, ok: bool)
    ensures var h := Answered(g, fl, ok);
            && h.live == g.live && h.laid == g.laid && h.unsynced <= g.unsynced && h.first >= g.first
            && (g.images != [] ==> h.images != [])
            && |h.images| <= |g.images| && h.first + |h.images| == g.first + |g.images|
            && (forall i | 0 <= i < |h.images| :: h.images[i] == g.images[h.first + i - g.first])
            && (g.dropped <= g.unsynced ==> h.dropped <= h.unsynced)
            && (ok ==> h.dropped == g.dropped && h.stuck == g.stuck && h.unsynced <= g.unsynced - (fl.mark - g.dropped))
            && (ok && fl.image >= g.stuck && fl.image < g.first + |g.images| ==> h.first >= fl.image)
            && (!ok ==> h.dropped == h.unsynced && h.stuck == g.first + |g.images|)
  {
  }

  lemma AnsweredData(g: Seg, fl: Flight, ok: bool)
    requires Data(g)
    ensures Data(Answered(g, fl, ok))
  {
    AnsweredSeg(g, fl, ok);
    var h := Answered(g, fl, ok);
    hide Answered;
    forall i | 0 <= i < |h.images| ensures Durable(h, h.images[i]) {
      assert Durable(g, g.images[h.first + i - g.first]);
    }
  }

  lemma AnsweredSettled(g: Seg, fl: Flight, ok: bool)
    requires Settled(g)
    ensures Settled(Answered(g, fl, ok))
  {
    AnsweredData(g, fl, ok);
    AnsweredSeg(g, fl, ok);
    hide Answered;
    hide Data;
  }

  lemma HeadedSettled(g: Seg)
    requires Settled(g)
    ensures Settled(Headed(g, |g.live|))
  {
    var h := Headed(g, |g.live|);
    forall i | 0 <= i < |h.images| ensures Durable(h, h.images[i]) && h.images[i] == |g.live| {
      if i < |g.images| {
        assert Durable(g, g.images[i]);
      }
    }
  }

  /** A closed segment rewritten or fsynced: nothing else reads it. */
  lemma ClosedKeeps(s: Log, i: nat, g: Seg)
    requires Inv(s) && i < |s.closed| && g.live == s.closed[i].live && (Settled(s.closed[i]) ==> Settled(g))
    ensures Inv(s.(closed := s.closed[i := g]))
  {
    hide Settled;
    hide Data;
    hide Headers;
    hide Backed;
    hide Waiters;
    hide Ordered;
    hide Verdicts;
    hide Tickets;
    hide Flat;
    var u := s.(closed := s.closed[i := g]);
    FlatPut(s.closed, i, g);
    CallersCarry(s, u);
    if !s.fooled {
      ClosedSettled(s.closed, i, g);
      AnsweredBacked(s, u);
      AnsweredHeaders(s, u);
    }
  }

  lemma ClosedSettled(gs: seq<Seg>, i: nat, g: Seg)
    requires i < |gs| && (forall h <- gs :: Settled(h)) && (Settled(gs[i]) ==> Settled(g))
    ensures forall h <- gs[i := g] :: Settled(h)
  {
    hide Settled;
    assert gs[i] in gs;
    forall h <- gs[i := g] ensures h == g || h in gs {
    }
  }

  lemma LatchKeeps(s: Log)
    requires Inv(s)
    ensures Inv(Latch(s))
  {
    var u := Latch(s);
    assert Waiting(u) == Waiting(s) && Staging(u) == Staging(s) && Records(u) == Records(s);
    assert |s.act.live| <= |Staging(s)| <= |s.act.laid|;
    hide Settled;
    hide Data;
    hide Ordered;
    hide Tickets;
    hide Given;
    hide Flat;
    hide Covered;
  }

  /** The same callers, records and spans. */
  ghost predicate SameCallers(s: Log, u: Log) {
    && Flat(u.closed) == Flat(s.closed) && u.act.live == s.act.live && u.inFlight == s.inFlight && u.pending == s.pending
    && u.mine == s.mine && u.group == s.group && u.curGroup == s.curGroup && u.verdicts == s.verdicts && u.stamp == s.stamp
    && u.held == s.held && u.phase.Idle? == s.phase.Idle? && u.phase.DataSync? == s.phase.DataSync?
  }

  lemma CallersCarry(s: Log, u: Log)
    requires SameCallers(s, u)
    ensures Staging(u) == Staging(s) && Records(u) == Records(s) && Waiting(u) == Waiting(s)
    ensures Waiters(s) ==> Waiters(u)
    ensures Ordered(Flat(s.closed) + Staging(s), s.stamp) ==> Ordered(Flat(u.closed) + Staging(u), u.stamp)
    ensures Verdicts(s) ==> Verdicts(u)
    ensures Shape(s) ==> Shape(u)
  {
    hide Ordered;
    hide Tickets;
    hide Flat;
    hide Given;
  }

  // ----- the leader's and a Sync's fsyncs answer

  lemma LeaderHeaders(s: Log, ok: bool)
    requires Headers(s) && Active(s) && Enabled(s, LeaderTold(ok))
    ensures Headers(LeaderAnswered(s, ok))
  {
    AnsweredSeg(s.act, s.phase.fl, ok);
    hide Answered;
  }

  lemma LeaderToldKeeps(s: Log, ok: bool)
    requires Inv(s) && Enabled(s, LeaderTold(ok))
    ensures Inv(LeaderAnswered(s, ok))
  {
    hide Answered;
    hide Data;
    hide Headers;
    hide Backed;
    hide Waiters;
    hide Ordered;
    hide Verdicts;
    hide Settled;
    hide Tickets;
    var u := LeaderAnswered(s, ok);
    AnsweredSeg(s.act, s.phase.fl, ok);
    CallersCarry(s, u);
    if !s.fooled {
      AnsweredData(s.act, s.phase.fl, ok);
      LeaderHeaders(s, ok);
      AnsweredBacked(s, u);
    }
  }

  lemma AnsweredBacked(s: Log, u: Log)
    requires Backed(s) && SameCallers(s, u) && Flat(u.closed) == Flat(s.closed)
    requires forall i | 0 <= i < |u.act.images| :: u.act.images[i] in s.act.images
    ensures Backed(u)
  {
    hide Covered;
    hide Tickets;
    hide Flat;
    forall t <- u.verdicts, i | 0 <= i < |u.act.images| && u.verdicts[t] == Done
      ensures t in Tickets(Flat(s.closed)) || Covered(s.act.live, t, u.act.images[i])
    {
      var j :| 0 <= j < |s.act.images| && s.act.images[j] == u.act.images[i];
    }
  }

  /** The active segment's file is fsynced by someone other than the leader. */
  lemma ActAnsweredKeeps(s: Log, fl: Flight, ok: bool, sync: Sync)
    requires Inv(s) && (sync.Syncing? || sync == s.sync)
    requires s.sync.Syncing? && s.sync.failed ==> sync.Syncing? && sync.failed
    requires !ok ==> s.latched || (sync.Syncing? && sync.failed)
    ensures Inv(s.(act := Answered(s.act, fl, ok), sync := sync))
  {
    hide Answered;
    hide Data;
    hide Headers;
    hide Backed;
    hide Waiters;
    hide Ordered;
    hide Verdicts;
    hide Settled;
    hide Tickets;
    hide Active;
    hide Span;
    var u := s.(act := Answered(s.act, fl, ok), sync := sync);
    ActiveParts(s);
    AnsweredSeg(s.act, fl, ok);
    CallersCarry(s, u);
    AnsweredActive(s, u, ok);
    if !s.fooled {
      AnsweredData(s.act, fl, ok);
      AnsweredBacked(s, u);
      AnsweredHeaders(s, u);
    }
  }

  lemma ActiveParts(s: Log)
    requires Active(s)
    ensures s.act.images != [] && s.act.dropped <= s.act.unsynced && |s.act.live| <= |Staging(s)| <= |s.act.laid|
  {
  }

  lemma AnsweredActive(s: Log, u: Log, ok: bool)
    requires Active(s) && Span(s) && SameCallers(s, u) && u.phase == s.phase && u.latched == s.latched
    requires s.sync.Syncing? && s.sync.failed ==> u.sync.Syncing? && u.sync.failed
    requires !ok ==> s.latched || (u.sync.Syncing? && u.sync.failed)
    requires u.act.laid == s.act.laid && u.act.unsynced <= s.act.unsynced && u.act.images != []
    requires u.act.dropped <= u.act.unsynced && u.act.first >= s.act.first
    requires if ok then u.act.dropped == s.act.dropped && u.act.stuck == s.act.stuck else u.act.dropped == u.act.unsynced
    ensures Active(u) && Span(u)
  {
    hide Tickets;
    hide Flat;
    assert Staging(u) == Staging(s);
  }

  lemma AnsweredHeaders(s: Log, u: Log)
    requires Headers(s) && u.phase == s.phase && u.latched == s.latched
    requires u.act.live == s.act.live && u.act.laid == s.act.laid && u.act.first >= s.act.first
    requires |u.act.images| <= |s.act.images| && u.act.first + |u.act.images| == s.act.first + |s.act.images|
    requires forall i | 0 <= i < |u.act.images| :: u.act.images[i] == s.act.images[u.act.first + i - s.act.first]
    requires u.act.stuck == s.act.stuck || u.act.stuck == s.act.first + |s.act.images|
    ensures Headers(u)
  {
  }

  lemma SyncToldKeeps(s: Log, ok: bool)
    requires Inv(s) && Enabled(s, SyncTold(ok))
    ensures Inv(SyncAnswered(s, ok))
  {
    var i, fl, sync := s.sync.on.seg, s.sync.on.fl, Syncing(Between, s.sync.failed || !ok);
    if i < |s.closed| {
      SyncFree(s, sync);
      var v := s.(sync := sync);
      AnsweredClosed(v, i, fl, ok);
      hide Inv;
      ClosedKeeps(v, i, Answered(s.closed[i], fl, ok));
    } else {
      ActAnsweredKeeps(s, fl, ok, sync);
    }
  }

  lemma AnsweredClosed(s: Log, i: nat, fl: Flight, ok: bool)
    requires i < |s.closed|
    ensures Answered(s.closed[i], fl, ok).live == s.closed[i].live
    ensures Settled(s.closed[i]) ==> Settled(Answered(s.closed[i], fl, ok))
  {
    AnsweredSeg(s.closed[i], fl, ok);
    if Settled(s.closed[i]) {
      AnsweredSettled(s.closed[i], fl, ok);
    }
  }

  /** A Sync's own progress touches nothing else, so long as it forgets no error. */
  lemma SyncFree(s: Log, sync: Sync)
    requires Inv(s) && (!s.latched && s.sync.Syncing? && s.sync.failed ==> sync.Syncing? && sync.failed)
    ensures Inv(s.(sync := sync))
  {
    hide Data;
    hide Waiters;
    hide Ordered;
    hide Verdicts;
    hide Settled;
    hide Tickets;
    hide Covered;
    CallersCarry(s, s.(sync := sync));
  }

  // ----- headers rewritten by commits

  lemma HeadedData(s: Log)
    requires Data(s.act) && Headers(s) && !s.latched
    ensures Data(Headed(s.act, |s.act.live|)) && Headers(s.(act := Headed(s.act, |s.act.live|)))
  {
    var g := Headed(s.act, |s.act.live|);
    forall i | 0 <= i < |g.images| ensures Durable(g, g.images[i]) {
      if i < |s.act.images| {
        assert Durable(s.act, s.act.images[i]);
      }
    }
    hide Durable;
  }

  lemma HeadedAct(s: Log)
    requires Inv(s) && !s.latched
    ensures Inv(s.(act := Headed(s.act, |s.act.live|)))
  {
    hide Data;
    hide Headers;
    hide Backed;
    hide Waiters;
    hide Ordered;
    hide Verdicts;
    hide Settled;
    hide Tickets;
    var u := s.(act := Headed(s.act, |s.act.live|));
    CallersCarry(s, u);
    if !s.fooled {
      HeadedData(s);
      HeadedBacked(s);
    }
  }

  lemma HeadedBacked(s: Log)
    requires Backed(s) && Verdicts(s)
    ensures Backed(s.(act := Headed(s.act, |s.act.live|)))
  {
    TicketsJoin(Flat(s.closed), s.act.live);
    forall t | t in Tickets(s.act.live) ensures Covered(s.act.live, t, |s.act.live|) {
      AllCovered(s.act.live, t, |s.act.live|);
    }
    hide Covered;
    hide Tickets;
    hide Flat;
  }

  /** What a commit does with the lock in its hands touches nothing else. */
  lemma CommitFree(s: Log, commit: Commit)
    requires Inv(s)
    ensures Inv(s.(commit := commit))
  {
    hide Data;
    hide Waiters;
    hide Ordered;
    hide Verdicts;
    hide Settled;
    hide Tickets;
    hide Covered;
    CallersCarry(s, s.(commit := commit));
  }

  lemma RewriteKeeps(s: Log, i: nat, header: HeaderAns, flush: bool)
    requires Inv(s) && !s.latched && i <= |s.closed|
    ensures Inv(Rewrite(s, i, header, flush))
  {
    hide Inv;
    var g := Headed(SegAt(s, i), |SegAt(s, i).live|);
    HeaderKeeps(s, i);
    var v := PutSeg(s, i, g);
    LatchKeeps(v);
    CommitFree(v, if flush then Flushing(i, Launch(g)) else NoCommit);
  }

  lemma HeaderKeeps(s: Log, i: nat)
    requires Inv(s) && !s.latched && i <= |s.closed|
    ensures Inv(PutSeg(s, i, Headed(SegAt(s, i), |SegAt(s, i).live|)))
  {
    if i < |s.closed| {
      hide Inv;
      hide Settled;
      if Settled(s.closed[i]) {
        HeadedSettled(s.closed[i]);
      }
      ClosedKeeps(s, i, Headed(s.closed[i], |s.closed[i].live|));
    } else {
      HeadedAct(s);
    }
  }

  /** A commit's fsync answers, over a closed segment or the active one. */
  lemma CommitToldKeeps(s: Log, ok: bool)
    requires Inv(s) && Enabled(s, CommitTold(ok))
    ensures Inv(CommitAnswered(s, ok))
  {
    hide Inv;
    hide Answered;
    var i, fl := s.commit.seg, s.commit.fl;
    var v := if ok then s else Latch(s);
    LatchKeeps(s);
    if i < |s.closed| {
      AnsweredClosed(v, i, fl, ok);
      ClosedKeeps(v, i, Answered(s.closed[i], fl, ok));
      CommitFree(v.(closed := v.closed[i := Answered(s.closed[i], fl, ok)]), NoCommit);
    } else {
      ActAnsweredKeeps(v, fl, ok, s.sync);
      CommitFree(v.(act := Answered(s.act, fl, ok), sync := s.sync), NoCommit);
    }
  }

  // ----- staging

  lemma StageShape(s: Log, len: FrameLen)
    ensures Staging(StageRecord(s, len)) == Staging(s) + [Rec(s.stamp, len)] == StageRecord(s, len).act.laid
  {
    assert s.act.live + s.inFlight + (s.pending + [Rec(s.stamp, len)]) == Staging(s) + [Rec(s.stamp, len)];
  }

  lemma StageBooks(s: Log, len: FrameLen)
    requires Books(s) && !s.latched
    ensures Books(StageRecord(s, len))
  {
    hide Tickets;
    hide Flat;
    StageShape(s, len);
    StageWaiters(s, len);
    StageOrders(s, len);
    hide Waiters;
    hide Ordered;
  }

  lemma StageOrders(s: Log, len: FrameLen)
    requires Ordered(Flat(s.closed) + Staging(s), s.stamp)
    ensures Ordered(Flat(s.closed) + Staging(StageRecord(s, len)), s.stamp + 1)
  {
    hide Flat;
    StageShape(s, len);
    var r := Rec(s.stamp, len);
    assert Flat(s.closed) + (Staging(s) + [r]) == (Flat(s.closed) + Staging(s)) + [r];
  }

  lemma StageWaiters(s: Log, len: FrameLen)
    requires Waiters(s)
    ensures Waiters(StageRecord(s, len))
  {
    hide Tickets;
    TicketsJoin(s.pending, [Rec(s.stamp, len)]);
    OneTicket(Rec(s.stamp, len));
    assert Waiting(StageRecord(s, len)) == Waiting(s) + {s.stamp};
  }

  lemma StageDurable(s: Log, len: FrameLen, n: nat)
    requires Books(s) && Durable(s.act, n) && n <= |Staging(s)|
    ensures Durable(StageRecord(s, len).act, n)
  {
    hide Tickets;
    hide Waiters;
    hide Verdicts;
    var g := StageRecord(s, len).act;
    forall k | 0 <= k < n && k < |g.laid| ensures g.laid[k].ticket !in g.unsynced {
      assert g.laid[k] == Staging(s)[k] == s.act.laid[k];
      assert Staging(s)[k] in Flat(s.closed) + Staging(s);
    }
  }

  lemma StageDisk(s: Log, len: FrameLen)
    requires Books(s) && Disk(s) && !s.latched
    ensures Disk(StageRecord(s, len))
  {
    hide Durable;
    hide Books;
    hide Settled;
    hide Covered;
    hide Tickets;
    hide Flat;
    var u := StageRecord(s, len);
    StageShape(s, len);
    StageDurable(s, len, |s.act.live|);
    forall i | 0 <= i < |u.act.images| ensures Durable(u.act, u.act.images[i]) {
      StageDurable(s, len, s.act.images[i]);
    }
  }

  lemma StageKeeps(s: Log, len: FrameLen)
    requires Loose(s) && !s.latched
    ensures Loose(StageRecord(s, len))
    ensures Inv(s) && !s.phase.Idle? && !s.held ==> Inv(StageRecord(s, len))
  {
    hide Books;
    hide Disk;
    hide Tickets;
    StageBooks(s, len);
    StageStamp(s);
    if !s.fooled {
      StageDisk(s, len);
    }
  }

  lemma StageStamp(s: Log)
    requires Books(s)
    ensures s.stamp !in Tickets(s.inFlight)
  {
    forall r <- s.inFlight ensures r.ticket < s.stamp {
      assert r in Flat(s.closed) + Staging(s);
    }
  }

  /** From here on the staged records have a span to be in. */
  lemma StartBooks(s: Log, u: Log)
    requires Books(s) && s.phase.Idle? && s.inFlight == [] && s.mine == {} && s.group == {}
    requires u == Lead(s) || u == StartSpan(s)
    ensures Books(u)
  {
    hide Ordered;
    hide Tickets;
    hide Flat;
    hide Given;
    OneTicket(Rec(0, 9));
    assert s.act.live + [] + s.pending == s.act.live + s.pending + [];
    assert Waiting(u) == Waiting(s);
  }

  lemma StartDisk(s: Log, u: Log)
    requires Disk(s) && s.phase.Idle? && (u == Lead(s) || u == StartSpan(s))
    ensures Disk(u)
  {
    hide Data;
    hide Covered;
    hide Settled;
    hide Tickets;
    hide Flat;
  }

  lemma StartKeeps(s: Log, u: Log)
    requires Loose(s) && s.phase.Idle? && s.inFlight == [] && s.mine == {} && s.group == {} && s.pending != [] && !s.held
    requires u == Lead(s) || u == StartSpan(s)
    ensures Inv(u) && Inv(u.(held := true))
  {
    hide Books;
    hide Disk;
    hide Tickets;
    StartBooks(s, u);
    HeldAside(u);
    if !s.fooled {
      StartDisk(s, u);
    }
  }

  lemma HeldAside(u: Log)
    ensures Books(u) ==> Books(u.(held := true))
    ensures Disk(u) ==> Disk(u.(held := true))
  {
    hide Data;
    hide Settled;
    hide Waiters;
    hide Ordered;
    hide Verdicts;
    hide Tickets;
    hide Flat;
    var v := u.(held := true);
    assert Staging(v) == Staging(u);
    WaitersHeld(u);
    VerdictsHeld(u);
  }

  lemma WaitersHeld(u: Log)
    ensures Waiters(u) ==> Waiters(u.(held := true))
  {
    assert Waiting(u.(held := true)) == Waiting(u);
    hide Tickets;
    hide Given;
  }

  lemma VerdictsHeld(u: Log)
    ensures Verdicts(u) ==> Verdicts(u.(held := true))
  {
    hide Tickets;
    hide Flat;
  }

  lemma {:induction false} StageAllKeeps(s: Log, lens: seq<FrameLen>)
    requires Loose(s) && !s.latched
    ensures var u := StageAll(s, lens);
            && Loose(u) && u.phase == s.phase && u.inFlight == s.inFlight && u.mine == s.mine && u.group == s.group
            && u.held == s.held && (lens != [] || s.pending != [] ==> u.pending != [])
    decreases |lens|
  {
    hide Loose;
    if lens != [] {
      StageKeeps(s, lens[0]);
      StageAllKeeps(StageRecord(s, lens[0]), lens[1..]);
    }
  }

  lemma IdleShape(s: Log)
    requires Inv(s) && s.phase.Idle?
    ensures s.inFlight == [] && s.pending == [] && Waiting(s) == {} && s.mine == {} && s.group == {} && !s.held
  {
    OneTicket(Rec(0, 9));
  }

  /** A batch's span, staged under one lock hold. */
  lemma BatchKeeps(s: Log, lens: seq<FrameLen>)
    requires Inv(s) && Drained(s) && !s.latched && lens != []
    ensures Inv(Lead(StageAll(s, lens)).(held := true))
  {
    IdleShape(s);
    hide Loose;
    StageAllKeeps(s, lens);
    StartKeeps(StageAll(s, lens), Lead(StageAll(s, lens)));
  }

  // ----- answers, failures and publication

  lemma AnswerKeeps(s: Log, v: Verdict)
    requires Inv(s) && !v.Done?
    ensures Inv(Answer(s, v))
  {
    hide Backed;
    hide Data;
    hide Headers;
    hide Settled;
    hide Tickets;
    hide Flat;
    var u := Answer(s, v);
    NewTicket(s);
    assert Waiting(u) == Waiting(s) && Staging(u) == Staging(s) && Records(u) == Records(s);
    if !s.fooled {
      AnswerBacked(s, v);
      AnsweredHeaders(s, u);
    }
  }

  lemma AnswerBacked(s: Log, v: Verdict)
    requires Backed(s) && !v.Done? && s.stamp !in s.verdicts
    ensures Backed(Answer(s, v))
  {
    hide Covered;
    hide Tickets;
    hide Flat;
  }

  lemma NothingKeeps(s: Log)
    requires Inv(s) && !s.latched
    ensures Inv(StageNothing(s))
  {
    hide Settled;
    hide Waiters;
    hide Verdicts;
    hide Ordered;
    hide Backed;
    hide Tickets;
    var u := StageNothing(s);
    CallersCarry(s, u);
    if !s.fooled {
      NothingDisk(s);
    }
  }

  lemma NothingDisk(s: Log)
    requires Active(s) && Disk(s) && !s.latched
    ensures Disk(StageNothing(s))
  {
    hide Settled;
    hide Covered;
    hide Tickets;
    hide Flat;
    var g := StageNothing(s).act;
    forall n: nat | Durable(s.act, n) && n <= |s.act.live| ensures Durable(g, n) {
    }
    hide Durable;
  }

  lemma FailWaiters(s: Log, v: Verdict)
    requires Waiters(s)
    ensures Waiters(Fail(s, v))
  {
    hide Given;
    hide Tickets;
    OneTicket(Rec(0, 9));
    assert Waiting(Fail(s, v)) == {};
    assert Fail(s, v).verdicts.Keys == s.verdicts.Keys + Waiting(s);
  }

  lemma FailVerdicts(s: Log, v: Verdict)
    requires Books(s) && !v.Done? && (v.Lost? ==> s.phase.DataSync?)
    ensures Verdicts(Fail(s, v)) && Records(Fail(s, v)) == Records(s)
  {
    hide Tickets;
    hide Ordered;
    hide Flat;
    StagedApart(s);
  }

  lemma FailBooks(s: Log, v: Verdict)
    requires Books(s) && !s.phase.Idle? && !v.Done? && (v.Lost? ==> s.phase.DataSync?) && (s.latched || s.phase.told.Clean?)
    ensures Books(Fail(s, v))
  {
    FailWaiters(s, v);
    FailVerdicts(s, v);
    hide Waiters;
    hide Verdicts;
    hide Flat;
    var u := Fail(s, v);
    assert Staging(u) == s.act.live <= Staging(s);
    assert Flat(s.closed) + s.act.live <= Flat(s.closed) + Staging(s);
    PrefixOrdered(Flat(s.closed) + s.act.live, Flat(s.closed) + Staging(s), s.stamp);
    hide Ordered;
  }

  lemma FailDisk(s: Log, v: Verdict)
    requires Disk(s) && !v.Done? && (s.latched || s.phase.DataSync?)
    ensures Disk(Fail(s, v))
  {
    hide Data;
    hide Settled;
    hide Covered;
    hide Tickets;
    hide Flat;
  }

  lemma FailKeeps(s: Log, v: Verdict)
    requires Loose(s) && !v.Done? && (v.Lost? ==> s.phase.DataSync?) && !s.phase.Idle?
    requires s.latched || (s.phase.DataSync? && s.phase.told.Clean?)
    ensures Inv(Fail(s, v))
  {
    hide Books;
    hide Disk;
    FailBooks(s, v);
    if !s.fooled {
      FailDisk(s, v);
    }
  }

  lemma StampedBooks(s: Log)
    requires Books(s)
    ensures Books(Stamped(s))
  {
    hide Tickets;
    CallersCarry(s, Stamped(s));
    hide Waiters;
    hide Ordered;
    hide Verdicts;
    hide Flat;
  }

  /** The span is down: nothing of it is in doubt. */
  lemma SpanIsDown(s: Log)
    requires Books(s) && Span(s) && s.phase.DataSync? && s.phase.told.Clean? && !SpanDropped(s) && Data(s.act)
    ensures Durable(s.act, |s.act.live + s.inFlight|)
  {
    StagedTickets(s);
    var n := |s.act.live + s.inFlight|;
    forall k | 0 <= k < n && k < |s.act.laid| ensures s.act.laid[k].ticket !in s.act.unsynced {
      if k >= |s.act.live| {
        assert s.act.laid[k].ticket in Tickets(s.inFlight);
      }
    }
  }

  lemma StampedBacked(s: Log)
    requires Backed(s) && Verdicts(s)
    ensures Backed(Stamped(s))
  {
    hide Covered;
    hide Tickets;
    hide Flat;
    TicketsJoin(Flat(s.closed), s.act.live);
    forall t | t in Tickets(s.act.live) ensures Covered(s.act.live, t, |s.act.live + s.inFlight|) {
      AllCovered(s.act.live, t, |s.act.live + s.inFlight|);
    }
  }

  lemma StampedData(s: Log)
    requires Data(s.act) && Durable(s.act, |s.act.live + s.inFlight|)
    ensures Data(Stamped(s).act)
  {
    var g := Stamped(s).act;
    forall i | 0 <= i < |g.images| ensures Durable(g, g.images[i]) {
      if i < |s.act.images| {
        assert Durable(s.act, s.act.images[i]);
      }
    }
  }

  lemma TornKeeps(s: Log)
    requires Inv(s) && s.phase.DataSync? && s.phase.told.Clean? && !s.latched && (SpanDropped(s) ==> s.fooled)
    ensures Inv(Publish(s, Torn))
  {
    hide Settled;
    hide Waiters;
    hide Ordered;
    hide Verdicts;
    hide Tickets;
    hide Durable;
    StampedBooks(s);
    var u := Latch(Stamped(s));
    CallersCarry(Stamped(s), u);
    if !s.fooled {
      SpanIsDown(s);
      StampedData(s);
      StampedBacked(s);
      StagedTickets(s);
      AnsweredBacked(Stamped(s), u);
    }
    FailKeeps(u, Poisoned);
  }

  lemma WroteBooks(s: Log)
    requires Books(s) && s.phase.DataSync? && s.phase.told.Clean?
    ensures Books(Publish(s, Wrote))
  {
    var u := Publish(s, Wrote);
    TicketsJoin(s.act.live, s.inFlight);
    WroteVerdicts(s);
    hide Verdicts;
    hide Tickets;
    hide Flat;
    hide Given;
    assert Staging(u) == Staging(s) && Waiting(u) == Waiting(s);
    hide Ordered;
  }

  lemma WroteVerdicts(s: Log)
    requires Books(s) && s.phase.DataSync?
    ensures Verdicts(Publish(s, Wrote)) && Records(Publish(s, Wrote)) == Records(s) + s.inFlight
  {
    var u := Publish(s, Wrote);
    assert Records(u) == Records(s) + s.inFlight;
    TicketsJoin(Records(s), s.inFlight);
    hide Tickets;
    hide Flat;
    hide Ordered;
    hide Given;
  }

  lemma WroteDisk(s: Log)
    requires Books(s) && Disk(s) && s.phase.DataSync? && !s.latched && s.inFlight != []
    requires Durable(s.act, |s.act.live + s.inFlight|)
    ensures Disk(Publish(s, Wrote))
  {
    var u := Publish(s, Wrote);
    StampedData(s);
    StampedBacked(s);
    WroteBacked(s);
    assert Data(u.act) by {
      hide Disk;
      assert Durable(u.act, |u.act.live|);
      forall i | 0 <= i < |u.act.images| ensures Durable(u.act, u.act.images[i]) {
        assert Durable(Stamped(s).act, u.act.images[i]);
      }
    }
    hide Data;
    hide Backed;
    hide Settled;
    hide Books;
    hide Durable;
  }

  lemma WroteBacked(s: Log)
    requires Backed(Stamped(s))
    ensures Backed(Publish(s, Wrote))
  {
    var u := Publish(s, Wrote);
    forall t <- u.verdicts, i | 0 <= i < |u.act.images| && u.verdicts[t] == Done
      ensures t in Tickets(Flat(s.closed)) || Covered(u.act.live, t, u.act.images[i])
    {
      if t !in Tickets(Flat(s.closed)) {
        CoveredGrows(s.act.live, u.act.live, t, u.act.images[i]);
      }
    }
    hide Tickets;
    hide Covered;
    hide Flat;
  }

  lemma WroteShape(s: Log)
    requires Waiters(s) && Shape(s) && s.phase.DataSync?
    ensures Shape(Publish(s, Wrote))
  {
    var u := Publish(s, Wrote);
    assert u.act.live[|u.act.live| - 1] == s.inFlight[|s.inFlight| - 1];
    assert s.inFlight[|s.inFlight| - 1].ticket in Tickets(s.inFlight);
  }

  lemma WroteKeeps(s: Log)
    requires Inv(s) && s.phase.DataSync? && s.phase.told.Clean? && !s.latched && (SpanDropped(s) ==> s.fooled)
    ensures Inv(Publish(s, Wrote))
  {
    InvWaiters(s);
    hide Disk;
    hide Waiters;
    hide Durable;
    WroteBooks(s);
    WroteShape(s);
    if !s.fooled {
      DiskData(s);
      SpanIsDown(s);
      WroteDisk(s);
    }
    hide Books;
    hide Shape;
  }

  lemma InvWaiters(s: Log)
    requires Inv(s)
    ensures Waiters(s)
  {
  }

  lemma DiskData(s: Log)
    requires Disk(s)
    ensures Data(s.act)
  {
  }

  /** A leader that has been fooled promises nothing more about the disk. */
  lemma FooledKeeps(s: Log)
    requires Inv(s)
    ensures Inv(s.(fooled := true))
  {
    hide Ordered;
    hide Verdicts;
    hide Waiters;
    CallersCarry(s, s.(fooled := true));
  }

  lemma DataBackKeeps(s: Log, header: HeaderAns)
    requires Inv(s) && Enabled(s, DataSynced(header))
    ensures Inv(DataBack(s, header))
  {
    FooledKeeps(s);
    if s.phase.told.Error? || s.latched {
      LatchKeeps(s);
      FailKeeps(Latch(s), Poisoned);
    } else {
      var s1 := s.(fooled := s.fooled || (!header.Refused? && SpanDropped(s)));
      assert s1 == s || s1 == s.(fooled := true);
      match header {
        case Wrote => WroteKeeps(s1);
        case Refused => FailKeeps(s1, Lost);
        case Torn => TornKeeps(s1);
      }
    }
  }

  lemma AcknowledgedBacked(s: Log)
    requires Backed(s) && Waiters(s) && s.phase.HeaderSync?
    requires forall i | 0 <= i < |s.act.images| :: s.act.images[i] == |s.act.live|
    ensures Backed(Acknowledge(s))
  {
    hide Covered;
    hide Tickets;
    hide Given;
    hide Flat;
    var u := Acknowledge(s);
    forall t <- u.verdicts, i | 0 <= i < |u.act.images| && u.verdicts[t] == Done
      ensures t in Tickets(Flat(s.closed)) || Covered(s.act.live, t, s.act.images[i])
    {
      if t in s.mine + s.group {
        AllCovered(s.act.live, t, |s.act.live|);
      } else {
        assert s.verdicts[t] == Done;
      }
    }
  }

  lemma AcknowledgedVerdicts(s: Log)
    requires Verdicts(s) && Waiters(s) && s.phase.HeaderSync?
    ensures Verdicts(Acknowledge(s)) && Records(Acknowledge(s)) == Records(s)
  {
    hide Tickets;
    hide Given;
    TicketsJoin(Flat(s.closed), s.act.live);
    hide Flat;
    var u := Acknowledge(s);
    assert Records(u) == Records(s);
    forall t <- u.verdicts | u.verdicts[t] == Lost ensures t !in Tickets(Records(u)) {
      assert s.verdicts[t] == Lost;
    }
  }

  lemma AcknowledgedWaiters(s: Log)
    requires Waiters(s) && s.phase.HeaderSync? && Ordered(Flat(s.closed) + Staging(s), s.stamp)
    ensures Waiters(Acknowledge(s))
  {
    hide Given;
    hide Tickets;
    hide Flat;
    var u := Acknowledge(s);
    StagedApart(s);
    TicketsJoin(Flat(s.closed), s.act.live);
    assert Waiting(u) == s.curGroup;
    assert u.verdicts.Keys == s.verdicts.Keys + (s.mine + s.group);
    assert s.curGroup !! s.mine + s.group;
  }

  lemma AcknowledgedBooks(s: Log)
    requires Books(s) && s.phase.HeaderSync? && !s.phase.told.Error?
    ensures Books(Acknowledge(s))
  {
    AcknowledgedVerdicts(s);
    AcknowledgedWaiters(s);
    hide Waiters;
    hide Verdicts;
    hide Ordered;
    hide Flat;
    assert Staging(Acknowledge(s)) == Staging(s);
  }

  lemma AcknowledgedDisk(s: Log)
    requires Disk(s) && Waiters(s) && s.phase.HeaderSync? && s.phase.told.Clean? && !s.latched && !HeaderDropped(s)
    ensures Disk(Acknowledge(s))
  {
    assert s.act.first >= s.phase.fl.image;
    assert forall i | 0 <= i < |s.act.images| :: s.act.images[i] == |s.act.live|;
    AcknowledgedBacked(s);
    hide Backed;
    hide Data;
    hide Settled;
    hide Waiters;
  }

  lemma AcknowledgeKeeps(s: Log)
    requires Inv(s) && s.phase.HeaderSync? && s.phase.told.Clean? && !s.latched && (HeaderDropped(s) ==> s.fooled)
    ensures Loose(Acknowledge(s)) && (s.curGroup == {} ==> Inv(Acknowledge(s))) && (s.curGroup != {} ==> s.pending != [])
  {
    InvWaiters(s);
    AcknowledgedBooks(s);
    NoTickets(s.pending);
    OneTicket(Rec(0, 9));
    if !s.fooled {
      AcknowledgedDisk(s);
    }
    hide Disk;
    hide Active;
    hide Ordered;
    hide Verdicts;
    hide Tickets;
    hide Given;
  }

  lemma HeaderBackKeeps(s: Log)
    requires Inv(s) && Enabled(s, HeaderSynced)
    ensures Inv(HeaderBack(s))
  {
    FooledKeeps(s);
    if s.phase.told.Error? || s.latched {
      LatchKeeps(s);
      hide Inv;
      InvLoose(Latch(s));
      FailKeeps(Latch(s), Poisoned);
    } else {
      var s1 := s.(fooled := s.fooled || HeaderDropped(s));
      assert s1 == s || s1 == s.(fooled := true);
      AcknowledgeKeeps(s1);
      if s.curGroup != {} {
        hide Loose;
        StartKeeps(Acknowledge(s1), StartSpan(Acknowledge(s1)));
      }
    }
  }

  lemma InvLoose(s: Log)
    requires Inv(s)
    ensures Loose(s)
  {
  }

  // ----- a new segment

  lemma NewSegmentDisk(s: Log)
    requires Books(s) && Disk(s) && Drained(s) && !s.latched
    ensures Disk(Cycled(s))
  {
    var u := Cycled(s);
    FlatSnoc(s.closed, s.act);
    assert Settled(s.act);
    forall g <- u.closed ensures Settled(g) {
      assert g == s.act || g in s.closed;
    }
    NewSegmentBacked(s);
    hide Backed;
    hide Settled;
  }

  lemma NewSegmentBacked(s: Log)
    requires Verdicts(s)
    ensures Backed(Cycled(s))
  {
    FlatSnoc(s.closed, s.act);
    hide Tickets;
    hide Flat;
    hide Covered;
  }

  lemma NewSegmentKeeps(s: Log)
    requires Inv(s) && Drained(s) && !s.latched
    ensures Inv(Cycled(s))
  {
    var u := Cycled(s);
    FlatSnoc(s.closed, s.act);
    if !s.fooled {
      NewSegmentDisk(s);
    }
    hide Disk;
    hide Flat;
    hide Tickets;
    hide Given;
    OneTicket(Rec(0, 9));
    assert Records(u) == Records(s) && Waiting(u) == Waiting(s);
    assert Flat(u.closed) + Staging(u) == Flat(s.closed) + Staging(s);
    hide Ordered;
  }

  lemma AddKeeps(s: Log, len: FrameLen, ans: StageAns)
    requires Inv(s) && Enabled(s, Add(len, ans))
    ensures Inv(Step(s, Add(len, ans)))
  {
    if s.phase.Idle? {
      IdleShape(s);
    }
    LatchKeeps(s);
    InvLoose(s);
    hide Inv;
    if s.latched {
      AnswerKeeps(s, Poisoned);
    } else if ans == StageLatched {
      AnswerKeeps(Latch(s), Poisoned);
    } else if ans == StageFailed {
      NothingKeeps(s);
      AnswerKeeps(StageNothing(s), Lost);
    } else {
      StageKeeps(s, len);
      if s.phase.Idle? {
        StartKeeps(StageRecord(s, len), Lead(StageRecord(s, len)));
      }
    }
  }

  lemma QuiescersKeep(s: Log, n: nat)
    requires Inv(s)
    ensures Inv(s.(quiescing := n))
  {
    hide Ordered;
    hide Verdicts;
    hide Waiters;
    hide Data;
    hide Settled;
    CallersCarry(s, s.(quiescing := n));
  }

  /** Every step of every caller, consumer, Sync and fault. */
  lemma StepKeeps(s: Log, e: Event)
    requires Inv(s) && Enabled(s, e)
    ensures Inv(Step(s, e))
  {
    hide Inv;
    match e
    case Refuse => AnswerKeeps(s, Lost);
    case Add(len, ans) => AddKeeps(s, len, ans);
    case LeaderTold(ok) => LeaderToldKeeps(s, ok);
    case DataSynced(header) => DataBackKeeps(s, header);
    case HeaderSynced => HeaderBackKeeps(s);
    case CommitHeader(i, header, flush) => RewriteKeeps(s, i, header, flush);
    case CommitTold(ok) => CommitToldKeeps(s, ok);
    case Poison => LatchKeeps(s);
    case QuiesceEnter => QuiescersKeep(s, s.quiescing + 1);
    case QuiesceLeave => QuiescersKeep(s, s.quiescing - 1);
    case Batch(lens) => BatchKeeps(s, lens);
    case NewSegment => NewSegmentKeeps(s);
    case SyncTold(ok) => SyncToldKeeps(s, ok);
    case _ => SyncKeeps(s, e);
  }

  lemma SyncKeeps(s: Log, e: Event)
    requires Inv(s) && Enabled(s, e) && (e.SyncBegin? || e.SyncIssue? || e.SyncBack? || e.SyncEnd?)
    ensures Inv(Step(s, e))
  {
    LatchKeeps(s);
    hide Inv;
    match e
    case SyncBegin => SyncFree(s, Syncing(Between, false));
    case SyncIssue(i) => SyncFree(s, s.sync.(on := Fsync(i, Launch(SegAt(s, i)))));
    case SyncBack => SyncFree(if s.sync.failed then Latch(s) else s, Syncing(Between, false));
    case SyncEnd => SyncFree(s, NoSync);
  }
}
