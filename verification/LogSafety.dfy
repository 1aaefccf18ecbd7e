/** What one consume or produce operation keeps: the invariant, acknowledgement safety, loss accounting, progress. */
module LogSafety {
  import opened Ints
  import opened Log
  import opened LogWalk
  import opened LogCommit
  import opened LogOps

  /** Records handed to a consumer and neither acknowledged nor returned, as extents of the stream. */
  type Extents = set<(int, int)>

  predicate Apart(r: Reservation, a: int, b: int) {
    r.end <= a || b <= r.start || (r.start == a && r.end == b && !r.acked)
  }

  /** The commit cursor stands before every outstanding record, and no acknowledged entry touches one. */
  ghost predicate Safe(s: St, out: Extents) {
    forall x <- out ::
      && s.commitOff <= x.0 < x.1 <= s.headOff
      && forall r <- s.reserved :: Apart(r, x.0, x.1)
  }

  lemma NoneOut(s: St)
    ensures Safe(s, {})
  {
  }

  lemma {:induction false} RunStopsAt(rs: seq<Reservation>, at: int, a: int, b: int)
    requires at <= a < b && forall r <- rs :: Apart(r, a, b)
    ensures RunEnd(rs, at) <= a
    decreases |rs|
  {
    if rs != [] && rs[0].acked && rs[0].start == at {
      assert Apart(rs[0], a, b);
      RunStopsAt(rs[1..], rs[0].end, a, b);
    }
  }

  lemma {:induction false} RunWithinHead(rs: seq<Reservation>, at: int, head: int)
    requires at <= head && forall r <- rs :: r.end <= head
    ensures RunEnd(rs, at) <= head
    decreases |rs|
  {
    if rs != [] && rs[0].acked && rs[0].start == at {
      RunWithinHead(rs[1..], rs[0].end, head);
    }
  }

  /** Entry i is acknowledged and starts where the one before it ends, the first one at at. */
  predicate Adjoins(rs: seq<Reservation>, at: int, i: nat)
    requires i < |rs|
  {
    rs[i].acked && rs[i].start == if i == 0 then at else rs[i - 1].end
  }

  ghost predicate AckedFrom(rs: seq<Reservation>, at: int, k: nat) {
    k <= |rs| && forall i | 0 <= i < k :: Adjoins(rs, at, i)
  }

  /** The run is the longest: it ends where the last of the adjoining acknowledged entries does, and not one more is
      to be had. */
  lemma {:induction false} RunIsLongest(rs: seq<Reservation>, at: int) returns (k: nat)
    ensures AckedFrom(rs, at, k) && RunEnd(rs, at) == if k == 0 then at else rs[k - 1].end
    ensures forall j :: k < j ==> !AckedFrom(rs, at, j)
    decreases |rs|
  {
    if rs == [] || !rs[0].acked || rs[0].start != at {
      k := 0;
      assert rs != [] ==> !Adjoins(rs, at, 0);
    } else {
      var j := RunIsLongest(rs[1..], rs[0].end);
      k := j + 1;
      forall i | 0 <= i < k ensures Adjoins(rs, at, i) {
        assert i > 0 ==> Adjoins(rs[1..], rs[0].end, i - 1);
      }
      forall m: nat | k < m && AckedFrom(rs, at, m) ensures false {
        forall i | 0 <= i < m - 1 ensures Adjoins(rs[1..], rs[0].end, i) {
          assert Adjoins(rs, at, i + 1);
        }
        assert AckedFrom(rs[1..], rs[0].end, m - 1);
      }
    }
  }

  /** On a sorted ledger with nothing retired left in it, no acknowledged entry waits where the run ends. */
  lemma {:induction false} NoneWaits(rs: seq<Reservation>, at: int, head: int)
    requires LedgerSorted(rs, head) && forall r <- rs :: r.end > at
    ensures forall r <- rs :: r.acked ==> r.start != RunEnd(rs, at)
    ensures at <= RunEnd(rs, at)
    decreases |rs|
  {
    if rs != [] {
      forall r <- rs[1..] ensures r in rs && r.start >= rs[0].end && r.end > rs[0].end {
        var i :| 0 <= i < |rs[1..]| && rs[1..][i] == r;
        assert rs[i + 1] == r && rs[0].end <= rs[i + 1].start;
      }
      forall r <- rs ensures r == rs[0] || r in rs[1..] {
        var i :| 0 <= i < |rs| && rs[i] == r;
        assert i > 0 ==> rs[1..][i - 1] == r;
      }
      if rs[0].acked && rs[0].start == at {
        SortedSuffix(rs, 1, head);
        NoneWaits(rs[1..], rs[0].end, head);
      }
    }
  }

  lemma SortedSuffix(rs: seq<Reservation>, i: nat, head: int)
    requires i <= |rs| && LedgerSorted(rs, head)
    ensures LedgerSorted(rs[i..], head) && forall r <- rs[i..] :: r in rs
  {
  }

  /** The same store under another ledger. */
  lemma LedgerKeepsInv(s: St, rs: seq<Reservation>)
    requires Inv(s) && LedgerSorted(rs, s.headOff)
    requires forall r <- rs :: r.end > s.commitOff ==> Within(s.files, r.start, r.end)
    ensures Inv(s.(reserved := rs))
  {
  }

  lemma DropRetiredKeeps(s: St, out: Extents)
    requires Inv(s)
    ensures Inv(DropRetired(s))
    ensures Safe(s, out) ==> Safe(DropRetired(s), out)
    ensures forall r <- DropRetired(s).reserved :: r in s.reserved
  {
    var i := FirstUnretired(s.reserved, s.commitOff);
    SortedSuffix(s.reserved, i, s.headOff);
    LedgerKeepsInv(s, s.reserved[i..]);
  }

  /** A new entry at the end of the ledger, past everything outstanding. */
  lemma TrackKeeps(s: St, r: Reservation, out: Extents)
    requires Inv(s) && r.start < r.end <= s.headOff && Within(s.files, r.start, r.end)
    requires forall q <- s.reserved :: q.end <= r.start
    ensures Inv(Track(s, r)) && r in Track(s, r).reserved
    ensures Safe(s, out) && (forall x <- out :: Apart(r, x.0, x.1)) ==> Safe(Track(s, r), out)
  {
    hide Inv;
    DropRetiredKeeps(s, out);
    var d := DropRetired(s);
    hide DropRetired;
    SameButLedger(s);
    InvHead(d);
    assert Within(d.files, r.start, r.end);
    SortedSnoc(d.reserved, r, d.headOff);
    InvLedger(d);
    LedgerKeepsInv(d, d.reserved + [r]);
  }

  lemma SameButLedger(s: St)
    ensures DropRetired(s) == s.(reserved := DropRetired(s).reserved)
    ensures forall r <- DropRetired(s).reserved :: r in s.reserved
  {
  }

  lemma SortedSnoc(rs: seq<Reservation>, r: Reservation, head: int)
    requires LedgerSorted(rs, head) && r.start < r.end <= head && forall q <- rs :: q.end <= r.start
    ensures LedgerSorted(rs + [r], head)
  {
  }

  lemma InvLedger(s: St)
    requires Inv(s)
    ensures LedgerSorted(s.reserved, s.headOff)
    ensures forall r <- s.reserved :: r.end > s.commitOff ==> Within(s.files, r.start, r.end)
  {
  }

  /** One call's effect on the cursors and on the reports owed. */
  ghost predicate Quiet(s: St, t: St) {
    && t.corruptions - s.corruptions == t.pendingCorrupt - s.pendingCorrupt
    && t.headOff == s.headOff && t.lostBytes == s.lostBytes && t.writeOff == s.writeOff
    && t.lostRecords == s.lostRecords && t.lostSegments == s.lostSegments
    && t.commitOff >= s.commitOff + (t.pendingCorrupt - s.pendingCorrupt) >= s.commitOff
  }

  /** Advancing over the acknowledged run never passes an outstanding record, whatever the disk answers. */
  lemma CommitRunKeeps(s: St, durable: bool, env: Env, out: Extents)
    requires Inv(s)
    ensures var t := CommitAckedRun(s, durable, env).0;
            && Inv(t) && Quiet(s, t) && (Safe(s, out) ==> Safe(t, out))
            && (forall r <- t.reserved :: r in s.reserved)
  {
    var target := RunEnd(s.reserved, s.commitOff);
    RunWithinHead(s.reserved, s.commitOff, s.headOff);
    if !s.latched && target > s.commitOff {
      CommitKeepsInv(s, target, durable, env);
      var t := CommitDurable(s, target, durable, env).0;
      if Safe(s, out) {
        forall x <- out ensures t.commitOff <= x.0 {
          RunStopsAt(s.reserved, s.commitOff, x.0, x.1);
        }
      }
      DropRetiredKeeps(t, out);
    }
  }

  lemma RetireFrameKeeps(s: St, start: int, end: int, durable: bool, env: Env, out: Extents)
    requires Inv(s) && start < end <= s.headOff && Within(s.files, start, end)
    requires forall q <- s.reserved :: q.end <= start
    ensures var t := RetireFrame(s, start, end, durable, env).0;
            && Inv(t) && Quiet(s, t) && (Safe(s, out) && (forall x <- out :: x.1 <= start) ==> Safe(t, out))
  {
    var r := Reservation(start, end, true, false, 0);
    TrackKeeps(s, r, out);
    CommitRunKeeps(Track(s, r), durable, env, out);
  }

  lemma SegmentEndsWithin(s: St, i: nat)
    requires Geo(s) && i < |s.files|
    ensures s.files[i].End() <= s.writeOff
  {
    LastEndsLast(s.files, s.files[i]);
  }

  /** The quarantine's effect when the damage stands at both cursors. */
  ghost predicate RetiredAtHead(s: St, t: St, e: Err, end: int) {
    && Inv(t) && t.pendingCorrupt == s.pendingCorrupt && t.writeOff == s.writeOff && t.reserved == s.reserved
    && t.lostRecords == s.lostRecords
    && if e == Nil then
         && t.commitOff == t.headOff == end && t.corruptions == s.corruptions + 1
         && t.lostBytes == s.lostBytes + end - s.headOff && t.lostSegments == s.lostSegments + 1
       else
         && t.commitOff == s.commitOff && t.headOff == s.headOff
         && t.corruptions == s.corruptions && t.lostBytes == s.lostBytes && t.lostSegments == s.lostSegments
  }

  lemma UnlatchedRetire(s: St, i: nat, env: Env)
    requires Inv(s) && !s.latched && s.commitOff == s.headOff && FileFor(s.files, s.headOff) == i
    ensures RetiredAtHead(s, SkipCorrupt(s, s.headOff, env).0, SkipCorrupt(s, s.headOff, env).1, s.files[i].End())
  {
    hide RetireRest;
    hide SkipCorrupt;
    hide Inv;
    var off := s.files[i].End();
    WalkBegins(s, i, off);
    SkipAtCursor(s, env);
    RetireRestFrozen(s, i, env);
    SkipKeeps(s, s, i, off, -1, env);
    RetireErrs(s, i, env);
    var (t, e) := SkipCorrupt(s, s.headOff, env);
    WalkedInv(s, if e == Nil then t.(pendingCorrupt := t.pendingCorrupt + 1) else t, off, t.pendingCorrupt);
  }

  lemma RetireErrs(s: St, i: nat, env: Env)
    requires i < |s.files|
    ensures RetireRest(s, i, env).1 in {Nil, Retry, IOErr}
  {
  }

  lemma WalkBegins(s: St, i: nat, off: int)
    requires Inv(s) && i < |s.files| && off == s.files[i].End() && s.commitOff <= off
    ensures WalkInv(s, s, -1, off) && off <= s.writeOff && Ordered(s.files)
  {
    SegmentEndsWithin(s, i);
    ShapeRefl(s.files);
  }

  lemma WalkedInv(s: St, u: St, off: int, pending: nat)
    requires Inv(s) && WalkInv(s, u, -1, off) && off <= s.writeOff && u.commitOff <= u.headOff
    ensures Inv(u.(pendingCorrupt := pending)) && u.reserved == s.reserved && u.writeOff == s.writeOff
  {
    WalkedKeepsInv(s, u, off);
    assert u.(headOff := Max(u.headOff, u.commitOff)) == u;
    PendingFree(u, pending);
  }

  lemma PendingFree(u: St, pending: nat)
    requires Inv(u)
    ensures Inv(u.(pendingCorrupt := pending))
  {
  }

  /** On a latched store only a vanished file can still be quarantined; its header is not written. */
  lemma LatchedRetire(s: St, i: nat, env: Env)
    requires Inv(s) && s.latched && s.commitOff == s.headOff && FileFor(s.files, s.headOff) == i
    ensures RetiredAtHead(s, SkipCorrupt(s, s.headOff, env).0, SkipCorrupt(s, s.headOff, env).1, s.files[i].End())
  {
    hide RetireRest;
    hide SkipCorrupt;
    SegmentEndsWithin(s, i);
    SkipAtCursor(s, env);
    SkipFrozen(s, env);
    RetireRestFrozen(s, i, env);
    LatchedOutcome(s, i, env);
    var (t, e) := SkipCorrupt(s, s.headOff, env);
    if e == Nil {
      SumsUpdate(s.files, i, t.files[i]);
      ShapeKeepsGeo(s, t);
      ShapeSums(s.files, t.files);
      GoneTracks(s, t, i);
    }
  }

  lemma GoneTracks(s: St, t: St, i: nat)
    requires Tracks(s) && i < |s.files| && |t.files| == |s.files| && t.files == s.files[i := t.files[i]] && t.files[i].gone
    requires t.commitOff >= s.commitOff && t.latched && t.strayed == s.strayed && Ordered(s.files)
    ensures Tracks(t)
  {
    forall j | 0 <= j < |t.files| && !t.files[j].gone && !t.strayed ensures NotAhead(t.files[j], t.commitOff) {
      assert NotAhead(s.files[j], s.commitOff) && s.files[j].size >= 0;
    }
  }

  lemma LatchedOutcome(s: St, i: nat, env: Env)
    requires i < |s.files| && s.latched
    ensures var (t, e) := RetireRest(s, i, env);
            && e in {Nil, Retry, IOErr}
            && (e != Nil ==> t == s)
            && (e == Nil ==> t.latched && t.strayed == s.strayed && t.files[i].gone && t.files == s.files[i := t.files[i]])
            && (e == Nil ==> t.nCommitted - s.nCommitted == t.files[i].committed - s.files[i].committed)
  {
    assert s.files[i := s.files[i]] == s.files;
  }

  function SkippedAhead(s: St, f: Seg): St {
    s.(lostBytes := s.lostBytes + Max(f.End() - s.headOff, 0),
       lostSegments := s.lostSegments + (if f.End() > s.headOff then 1 else 0),
       headOff := Max(s.headOff, f.End()),
       corruptions := s.corruptions + 1)
  }

  lemma AheadKeeps(s: St, i: nat)
    requires Inv(s) && i < |s.files|
    ensures Inv(SkippedAhead(s, s.files[i]))
  {
    SegmentEndsWithin(s, i);
  }

  /** Short of the commit cursor the damage waits in the ledger, already reported. */
  lemma DeferredKeeps(s: St, env: Env, out: Extents)
    requires Inv(s) && FileFor(s.files, s.headOff) >= 0 && s.commitOff != s.headOff
    ensures var (t, e), f := SkipCorrupt(s, s.headOff, env), s.files[FileFor(s.files, s.headOff)];
            && e == Nil && Inv(t) && (Safe(s, out) ==> Safe(t, out))
            && t == SkippedAhead(s, f).(reserved := t.reserved)
  {
    hide Inv;
    hide RetireRest;
    var i := FileFor(s.files, s.headOff);
    var f := s.files[i];
    var s2, r := SkippedAhead(s, f), Reservation(s.headOff, f.End(), true, true, f.written);
    AheadKeeps(s, i);
    InvHead(s);
    assert Within(s2.files, r.start, r.end);
    assert Safe(s, out) ==> Safe(s2, out);
    TrackKeeps(s2, r, out);
    SameButLedger(s2);
    assert SkipCorrupt(s, s.headOff, env) == (Track(s2, r), Nil);
  }

  /** What a quarantine at the read cursor does: everything to the segment's end, booked lost, exactly once. */
  lemma SkipAtHeadKeeps(s: St, env: Env, out: Extents)
    requires Inv(s) && FileFor(s.files, s.headOff) >= 0
    ensures var (t, e) := SkipCorrupt(s, s.headOff, env);
            && Inv(t) && (Safe(s, out) ==> Safe(t, out))
            && t.pendingCorrupt == s.pendingCorrupt && t.writeOff == s.writeOff && t.commitOff >= s.commitOff
            && t.headOff - s.headOff == t.lostBytes - s.lostBytes && t.lostRecords == s.lostRecords
            && t.lostSegments == s.lostSegments + (if e == Nil then 1 else 0)
            && (if e == Nil then t.headOff > s.headOff && t.corruptions == s.corruptions + 1
                else t.headOff == s.headOff && t.corruptions == s.corruptions
                     && t.commitOff == s.commitOff && t.reserved == s.reserved)
  {
    hide Inv;
    hide SkipCorrupt;
    if s.commitOff == s.headOff {
      var i := FileFor(s.files, s.headOff);
      if s.latched {
        LatchedRetire(s, i, env);
      } else {
        UnlatchedRetire(s, i, env);
      }
      assert Safe(s, out) ==> forall x <- out :: false;
    } else {
      DeferredKeeps(s, env, out);
    }
  }

  lemma InvHead(s: St)
    requires Inv(s)
    ensures s.commitOff <= s.headOff <= s.writeOff
    ensures forall r <- s.reserved :: r.start < r.end <= s.headOff
  {
  }

  // ----- takeHead

  /** What a consumption has left to do: unread bytes, unretired bytes, reports owed. */
  function Measure(s: St): int {
    (s.writeOff - s.headOff) + (s.writeOff - s.commitOff) + s.pendingCorrupt
  }

  function Answers(d: Taken): nat {
    if d.Reported? then 1 else 0
  }

  function Bytes(d: Taken): int {
    if d.Delivered? then d.next - d.at else 0
  }

  /** Each loss reported once and booked as one record or one segment, each byte of cursor movement delivered or booked
      lost, and always progress. */
  ghost predicate Took(s: St, t: St, d: Taken) {
    && t.writeOff == s.writeOff && t.commitOff >= s.commitOff
    && t.corruptions - s.corruptions == t.pendingCorrupt - s.pendingCorrupt + Answers(d)
    && t.headOff - s.headOff == Bytes(d) + t.lostBytes - s.lostBytes
    && t.lostRecords >= s.lostRecords && t.lostSegments >= s.lostSegments
    && t.lostRecords + t.lostSegments - s.lostRecords - s.lostSegments == (if s.pendingCorrupt > 0 then 0 else Answers(d))
    && Measure(t) <= Measure(s) && (d.Delivered? || d.Reported? ==> Measure(t) < Measure(s))
    && (d.Reported? ==> t.headOff != s.headOff || t.pendingCorrupt != s.pendingCorrupt)
    && (d.Empty? ==> t == s && s.headOff == s.writeOff && s.pendingCorrupt == 0)
    && (d.Refused? ==> t.headOff == s.headOff && t.commitOff == s.commitOff && t.reserved == s.reserved)
    && (d.Delivered? ==>
          && d.at == s.headOff == t.lastFrameAt && d.at < d.next == t.headOff == t.lastFrameEnd
          && Within(t.files, d.at, d.next)
          && t.reserved == s.reserved && t.commitOff == s.commitOff && t.files == s.files)
  }

  lemma LatchKeeps(s: St, latched: bool, out: Extents)
    requires Inv(s)
    ensures Inv(s.(latched := s.latched || latched))
    ensures Safe(s, out) ==> Safe(s.(latched := s.latched || latched), out)
  {
  }

  lemma QuarantineKeeps(s: St, env: Env, out: Extents)
    requires Inv(s) && FileFor(s.files, s.headOff) >= 0 && s.pendingCorrupt == 0
    ensures var (t, d) := QuarantineHead(s, env);
            Inv(t) && Took(s, t, d) && (Safe(s, out) ==> Safe(t, out))
  {
    hide Inv;
    hide SkipCorrupt;
    InvHead(s);
    SkipAtHeadKeeps(s, env, out);
    InvHead(SkipCorrupt(s, s.headOff, env).0);
  }

  lemma HeadAheadInv(s: St, i: nat, next: int)
    requires Inv(s) && i < |s.files| && s.headOff <= next <= s.files[i].End()
    ensures Inv(s.(lostBytes := s.lostBytes + next - s.headOff, lostRecords := s.lostRecords + 1,
                   corruptions := s.corruptions + 1, headOff := next))
  {
    SegmentEndsWithin(s, i);
  }

  function Passed(s: St, next: int): St {
    s.(lostBytes := s.lostBytes + next - s.headOff, lostRecords := s.lostRecords + 1,
       corruptions := s.corruptions + 1, headOff := next)
  }

  lemma QuietDrop(s: St, next: int, t: St, e: Err)
    requires Quiet(Passed(s, next), t) && s.headOff < next && s.pendingCorrupt == 0
    ensures Took(s, t, Reported(e))
  {
  }

  lemma SafeWhenPassed(s: St, next: int, out: Extents)
    requires Safe(s, out) && s.headOff < next
    ensures Safe(Passed(s, next), out) && forall x <- out :: x.1 <= s.headOff
  {
  }

  lemma DropFrameKeeps(s: St, i: nat, next: int, env: Env, out: Extents)
    requires Inv(s) && FileFor(s.files, s.headOff) == i && s.headOff < next <= s.files[i].End() && s.pendingCorrupt == 0
    ensures var (t, d) := DropFrame(s, next, env);
            Inv(t) && Took(s, t, d) && (Safe(s, out) ==> Safe(t, out))
  {
    hide Inv;
    hide RetireFrame;
    hide Safe;
    hide Took;
    hide Quiet;
    var d := Passed(s, next);
    HeadAheadInv(s, i, next);
    assert Within(d.files, s.headOff, next);
    InvHead(s);
    RetireFrameKeeps(d, s.headOff, next, false, env, out);
    var (t, e) := RetireFrame(d, s.headOff, next, false, env);
    QuietDrop(s, next, t, e);
    if Safe(s, out) {
      SafeWhenPassed(s, next, out);
    }
  }

  lemma DeliverKeeps(s: St, i: nat, next: int, out: Extents)
    requires Inv(s) && FileFor(s.files, s.headOff) == i && s.headOff < next <= s.files[i].End()
    ensures var t := s.(lastFrameAt := s.headOff, lastFrameEnd := next, headOff := next);
            Inv(t) && Took(s, t, Delivered(s.headOff, next)) && (Safe(s, out) ==> Safe(t, out))
  {
    SegmentEndsWithin(s, i);
    assert Within(s.files, s.headOff, next);
  }

  /** A record is handed out exactly when nothing is owed, its frame is there and its checksum is its payload's. */
  lemma DeliversExactlyWhen(s: St, env: Env)
    ensures var d, i := TakeHead(s, env).1, FileFor(s.files, s.headOff);
            d.Delivered? <==>
              && s.pendingCorrupt == 0 && s.headOff < s.writeOff && i >= 0 && env.headOpen in {Opened, OpenedLatched}
              && Decode(s.files[i], s.headOff, env.headFrame).End? && env.sumOK
  {
    hide SkipCorrupt;
    hide RetireFrame;
  }

  lemma HeadOwned(s: St)
    requires Inv(s) && s.headOff < s.writeOff
    ensures FileFor(s.files, s.headOff) >= 0
  {
    FileForIsTheOwner(s.files, s.commitOff, s.writeOff, s.headOff);
  }

  lemma IdleTook(s: St, out: Extents)
    requires s.headOff <= s.writeOff
    ensures s.pendingCorrupt > 0 ==>
              var t := s.(pendingCorrupt := s.pendingCorrupt - 1);
              Took(s, t, Reported(Nil)) && (Safe(s, out) ==> Safe(t, out))
    ensures s.pendingCorrupt == 0 && s.headOff == s.writeOff ==> Took(s, s, Empty)
  {
  }

  /** takeHead: the arm for a cursor in no live segment is unreachable, and every answer accounts for itself. */
  lemma TakeHeadKeeps(s: St, env: Env, out: Extents)
    requires Inv(s)
    ensures var (t, d) := TakeHead(s, env);
            Inv(t) && Took(s, t, d) && (Safe(s, out) ==> Safe(t, out))
    ensures s.headOff < s.writeOff ==> FileFor(s.files, s.headOff) >= 0
  {
    hide Inv;
    hide Took;
    hide Safe;
    hide QuarantineHead;
    hide DropFrame;
    InvHead(s);
    IdleTook(s, out);
    if s.headOff < s.writeOff {
      HeadOwned(s);
    }
    if s.pendingCorrupt > 0 {
      PendingFree(s, s.pendingCorrupt - 1);
    } else if s.headOff < s.writeOff {
      var s1 := s.(latched := s.latched || env.headOpen == OpenedLatched);
      LatchKeeps(s, env.headOpen == OpenedLatched, out);
      TakeReads(s, s1, FileFor(s.files, s.headOff), env, out);
    }
  }

  lemma StandsTook(s: St, s1: St)
    requires s1 == s.(latched := s1.latched) && s.headOff < s.writeOff
    ensures Took(s, s, Refused(Retry)) && Took(s, s1, Refused(Retry))
  {
  }

  lemma TookFromLatched(s: St, s1: St, t: St, d: Taken)
    requires s1 == s.(latched := s1.latched) && s.headOff < s.writeOff && Took(s1, t, d)
    ensures Took(s, t, d)
  {
  }

  lemma TakeReads(s: St, s1: St, i: nat, env: Env, out: Extents)
    requires Inv(s) && Inv(s1) && FileFor(s.files, s.headOff) == i && s.pendingCorrupt == 0 && s.headOff < s.writeOff
    requires s1 == s.(latched := s.latched || env.headOpen == OpenedLatched)
    ensures var (t, d) := TakeHead(s, env);
            Inv(t) && Took(s, t, d) && (Safe(s, out) ==> Safe(t, out))
  {
    hide Inv;
    hide QuarantineHead;
    hide DropFrame;
    hide Took;
    hide Safe;
    StandsTook(s, s1);
    LatchKeeps(s, env.headOpen == OpenedLatched, out);
    QuarantineKeeps(s, env, out);
    QuarantineKeeps(s1, env, out);
    TookFromLatched(s, s1, QuarantineHead(s1, env).0, QuarantineHead(s1, env).1);
    var b := Decode(s.files[i], s.headOff, env.headFrame);
    if b.End? {
      DropFrameKeeps(s1, i, b.next, env, out);
      TookFromLatched(s, s1, DropFrame(s1, b.next, env).0, DropFrame(s1, b.next, env).1);
      DeliverKeeps(s1, i, b.next, out);
      TookFromLatched(s, s1, s1.(lastFrameAt := s.headOff, lastFrameEnd := b.next, headOff := b.next), Delivered(s.headOff, b.next));
    }
  }
}
