/** What the answers of a commit and an append mean: a nil is kept, and an error says what was left undone. */
module LogAnswers {
  import opened Ints
  import opened Log
  import opened LogWalk
  import opened LogCommit
  import opened LogOps
  import opened LogSafety
  import opened LogWrites
  import LogRuns

  // ----- a commit's answer

  /** The entry or the frame at c reaches past off: whoever committed to off did not speak for it. */
  predicate EndsPast(s: St, c: int, off: int, env: Env) {
    || (exists r <- s.reserved :: r.start == c && r.end > off)
    || (var i := FileFor(s.files, c);
        && i >= 0
        && FrameEnd(s.(commitOff := c), s.files[i], env).End?
        && FrameEnd(s.(commitOff := c), s.files[i], env).next > off)
  }

  /** Some byte of the segment lies between a and b. */
  predicate Touched(f: Seg, a: int, b: int) {
    Max(f.base, a) < Min(f.End(), b)
  }

  /** The header a commit leaves a segment with was written, and flushed if the policy asks for it. */
  predicate Persisted(f: Seg, perOp: bool, env: Env) {
    env.persist(f.num) == WriteGone || (env.persist(f.num) == Wrote && (perOp ==> env.flush(f.num)))
  }

  /** The same for the header a quarantine retires the rest of a segment with. */
  predicate Retired(f: Seg, policy: Policy, env: Env) {
    || env.fullOpen(f.num) == Gone
    || (env.fullOpen(f.num) == Opened && env.fullWrite(f.num) == Wrote && (policy != NoSync ==> env.fullFlush(f.num)))
  }

  /** Every segment passed or entered, but for the one the walk is in, has its header out. */
  ghost predicate Carried(s0: St, c: int, cur: int, perOp: bool, env: Env) {
    forall i | 0 <= i < |s0.files| && i != cur && Touched(s0.files[i], s0.commitOff, c) ::
      Persisted(s0.files[i], perOp, env) || Retired(s0.files[i], s0.policy, env)
  }

  /** A turn of the walk that ends it with nothing wrong has met something that reaches past the target. */
  lemma CrossStops(s: St, i: nat, off: int, cur: int, env: Env)
    requires i < |s.files| && !s.latched && FileFor(s.files, s.commitOff) == i
    ensures var r := Cross(s, i, off, cur, env);
            r.Halt? && r.stop == Nil ==> r.s == s && r.cur == cur && EndsPast(s, s.commitOff, off, env)
  {
    hide SkipCorrupt;
    hide FrameEnd;
    assert s.(latched := s.latched) == s && s.(commitOff := s.commitOff) == s;
    var r := Cross(s, i, off, cur, env);
    var e := EntryHere(s);
    if e.EntryAt? {
      assert e.r in s.reserved && e.r.start == s.commitOff;
    }
  }

  lemma EndsPastFrozen(s0: St, s: St, c: int, off: int, env: Env)
    requires Frozen(s0, s) && EndsPast(s, c, off, env)
    ensures EndsPast(s0, c, off, env)
  {
    SameLookup(s0.files, s.files, c);
    var i := FileFor(s.files, c);
    if i >= 0 {
      assert SameSeg(s0.files[i], s.files[i]);
    }
  }

  lemma PersistedNil(s: St, i: nat, perOp: bool, env: Env)
    requires i < |s.files| && Persist(s, i, perOp, env).1 == Nil
    ensures Persisted(s.files[i], perOp, env) && Persist(s, i, perOp, env).0.commitOff == s.commitOff
    ensures !Persist(s, i, perOp, env).0.latched
  {
    WriteOutcome(Put(s, i, s.files[i].(hdr := Stamp(s, i))), i, env.persist(s.files[i].num));
    hide WriteHeader;
  }

  lemma RetiredNil(s: St, i: nat, env: Env)
    requires i < |s.files| && !s.latched && RetireRest(s, i, env).1 == Nil
    ensures Retired(s.files[i], s.policy, env) && !RetireRest(s, i, env).0.latched
  {
    FullOutcome(s, i, env);
    var f := s.files[i];
    var s0 := s.(latched := s.latched || env.fullOpen(f.num) == OpenedLatched);
    WriteOutcome(Put(s0, i, f.(hdr := FullHdr(f))), i, FullAns(f, env));
    hide WriteHeader;
  }

  lemma TouchedBefore(fs: seq<Seg>, i: nat, j: nat, a: int, c: int, c': int)
    requires Ordered(fs) && i < |fs| && j < |fs| && i != j && a <= c && fs[i].base <= c <= c' <= fs[i].End()
    ensures Touched(fs[j], a, c') ==> Touched(fs[j], a, c)
  {
    if j < i {
      assert fs[j].End() <= fs[i].base;
    } else {
      assert fs[i].End() <= fs[j].base;
    }
  }

  /** The cursor moved inside segment i: no other segment has been touched since. */
  lemma CarriedInside(s0: St, i: nat, c: int, c': int, cur: int, perOp: bool, env: Env)
    requires Ordered(s0.files) && Carried(s0, c, cur, perOp, env) && i < |s0.files| && (cur == -1 || cur == i)
    requires s0.commitOff <= c && s0.files[i].base <= c <= c' <= s0.files[i].End()
    ensures Carried(s0, c', i, perOp, env)
  {
    forall j | 0 <= j < |s0.files| && j != i && Touched(s0.files[j], s0.commitOff, c')
      ensures Persisted(s0.files[j], perOp, env) || Retired(s0.files[j], s0.policy, env)
    {
      TouchedBefore(s0.files, i, j, s0.commitOff, c, c');
    }
  }

  lemma CarriedOut(s0: St, c: int, i: nat, perOp: bool, env: Env)
    requires i < |s0.files| && Carried(s0, c, i, perOp, env)
    requires Persisted(s0.files[i], perOp, env) || Retired(s0.files[i], s0.policy, env)
    ensures Carried(s0, c, -1, perOp, env)
  {
  }

  lemma WalkShape(s0: St, s: St, cur: int, off: int)
    requires WalkInv(s0, s, cur, off) && Ordered(s0.files)
    ensures Frozen(s0, s) && Ordered(s.files) && s0.commitOff <= s.commitOff && |s.files| == |s0.files|
    ensures forall i | 0 <= i < |s.files| :: SameSeg(s0.files[i], s.files[i])
    ensures s.policy == s0.policy
  {
    ShapeKeepsOrder(s0.files, s.files);
  }

  lemma CrossCarries(s0: St, s: St, i: nat, off: int, cur: int, perOp: bool, env: Env)
    requires WalkPre(s0, off) && WalkInv(s0, s, cur, off) && !s.latched && FileFor(s.files, s.commitOff) == i
    requires (cur == -1 || cur == i) && Carried(s0, s.commitOff, cur, perOp, env)
    ensures var r := Cross(s, i, off, cur, env);
            && (r.Go? ==> Carried(s0, r.s.commitOff, r.cur, perOp, env))
            && (r.Halt? && r.stop == Nil ==> r.s == s && r.cur == cur && EndsPast(s0, s.commitOff, off, env))
  {
    hide Cross;
    hide SkipCorrupt;
    hide RetireRest;
    hide WalkInv;
    hide Ordered;
    hide Carried;
    hide Crossed;
    hide EndsPast;
    WalkPreOrdered(s0, off);
    WalkShape(s0, s, cur, off);
    CrossStops(s, i, off, cur, env);
    var x := ExitInWalk(s0, s, i, off, cur, env);
    var r := Cross(s, i, off, cur, env);
    if r.Halt? && r.stop == Nil {
      EndsPastFrozen(s0, s, s.commitOff, off, env);
    }
    if r.Go? {
      assert SameSeg(s0.files[i], s.files[i]);
      if x.Crosses? {
        CarriedInside(s0, i, s.commitOff, r.s.commitOff, cur, perOp, env);
      } else {
        SkipAtCursor(s, env);
        RetireRestFrozen(s, i, env);
        RetiredNil(s, i, env);
        CarriedInside(s0, i, s.commitOff, s.files[i].End(), cur, perOp, env);
        CarriedOut(s0, s.files[i].End(), i, perOp, env);
      }
    }
  }

  lemma WalkPreOrdered(s: St, off: int)
    requires WalkPre(s, off)
    ensures Ordered(s.files) && off <= s.writeOff
  {
  }

  lemma InvBounded(s0: St, s: St, cur: int, off: int)
    requires WalkInv(s0, s, cur, off)
    ensures -1 <= cur < |s.files|
  {
  }

  lemma StepCarries(s0: St, s: St, off: int, perOp: bool, cur: int, env: Env)
    requires WalkPre(s0, off) && WalkInv(s0, s, cur, off) && !s.latched && s.commitOff < off
    requires Carried(s0, s.commitOff, cur, perOp, env)
    ensures var r := WalkStep(s, off, perOp, cur, env);
            && (r.Go? ==> Carried(s0, r.s.commitOff, r.cur, perOp, env))
            && (r.Halt? && r.stop == Nil ==>
                  && !r.s.latched && Carried(s0, r.s.commitOff, r.cur, perOp, env)
                  && EndsPast(s0, r.s.commitOff, off, env))
  {
    hide Cross;
    hide Persist;
    hide WalkInv;
    hide WalkPre;
    hide Carried;
    hide EndsPast;
    hide Frozen;
    WalkPreOrdered(s0, off);
    WalkShape(s0, s, cur, off);
    InvBounded(s0, s, cur, off);
    var i := FileFor(s.files, s.commitOff);
    if i >= 0 {
      if 0 <= cur != i {
        PersistKeeps(s0, s, cur, off, perOp, env);
        PersistFrozen(s, cur, perOp, env);
        var (s1, e) := Persist(s, cur, perOp, env);
        if e == Nil {
          SameFiles(s, s1);
          SameLookup(s.files, s1.files, s.commitOff);
          PersistedNil(s, cur, perOp, env);
          assert SameSeg(s0.files[cur], s.files[cur]);
          CarriedOut(s0, s.commitOff, cur, perOp, env);
          CrossCarries(s0, s1, i, off, -1, perOp, env);
        }
      } else {
        CrossCarries(s0, s, i, off, cur, perOp, env);
      }
    }
  }

  lemma SameFiles(s: St, t: St)
    requires Frozen(s, t)
    ensures SameShape(s.files, t.files)
  {
  }

  lemma {:induction false} WalkCarries(s0: St, s: St, off: int, perOp: bool, cur: int, env: Env)
    requires WalkPre(s0, off) && WalkInv(s0, s, cur, off) && !s.latched && Carried(s0, s.commitOff, cur, perOp, env)
    ensures var r := Walk(s, off, perOp, cur, env);
            r.stop == Nil ==>
              && !r.s.latched && Carried(s0, r.s.commitOff, r.cur, perOp, env)
              && (r.s.commitOff >= off || EndsPast(s0, r.s.commitOff, off, env))
    decreases Max(0, off - s.commitOff)
  {
    hide WalkInv;
    hide WalkPre;
    hide WalkStep;
    hide Carried;
    hide EndsPast;
    hide Frozen;
    InvBounded(s0, s, cur, off);
    if s.commitOff < off {
      StepKeeps(s0, s, off, perOp, cur, env);
      StepCarries(s0, s, off, perOp, cur, env);
      StepFrozen(s, off, perOp, cur, env);
      match WalkStep(s, off, perOp, cur, env) {
        case Halt(s1, cur1, _) =>
        case Go(s1, cur1) => WalkCarries(s0, s1, off, perOp, cur1, env);
      }
    }
  }

  lemma SettleNil(s: St, durable: bool, stop: Err, env: Env)
    requires Settle(s, durable, stop, env).1 == Nil
    ensures var t := Settle(s, durable, stop, env).0;
            && stop == Nil && (durable && s.policy == Batched ==> env.tick == TickOk)
            && t.commitOff == s.commitOff && t.latched == s.latched && t.writeOff == s.writeOff
  {
    hide Reclaim;
  }

  /** The nil of a commit: its whole target is retired, or what stands at the cursor reaches past it; nothing has
      latched; and every segment passed or entered has a header out that says so, flushed where the policy asks. */
  ghost predicate Kept(s: St, t: St, off: int, durable: bool, env: Env) {
    && !s.latched && !t.latched
    && (t.commitOff >= off || EndsPast(s, t.commitOff, off, env))
    && (forall f <- s.files :: Touched(f, s.commitOff, t.commitOff) ==>
          Persisted(f, durable && s.policy == PerOp, env) || Retired(f, s.policy, env))
    && (t.commitOff != s.commitOff && durable && s.policy == Batched ==> env.tick == TickOk)
  }

  lemma CommitEndKept(s: St, w: Step, off: int, durable: bool, perOp: bool, env: Env)
    requires w.Halt? && -1 <= w.cur < |w.s.files| && Frozen(s, w.s) && perOp == (durable && s.policy == PerOp)
    requires w.stop == Nil ==>
               && !s.latched && !w.s.latched && Carried(s, w.s.commitOff, w.cur, perOp, env)
               && (w.s.commitOff >= off || EndsPast(s, w.s.commitOff, off, env))
    requires CommitEnd(s.commitOff, w, durable, perOp, env).1 == Nil
    ensures Kept(s, CommitEnd(s.commitOff, w, durable, perOp, env).0, off, durable, env)
  {
    hide Persist;
    hide Settle;
    hide EndsPast;
    var (s1, e) := if 0 <= w.cur then Persist(w.s, w.cur, perOp, env) else (w.s, Nil);
    var stop := if w.stop != Nil then w.stop else e;
    var t := CommitEnd(s.commitOff, w, durable, perOp, env).0;
    if s1.commitOff != s.commitOff {
      SettleNil(s1, durable, stop, env);
    }
    if w.cur >= 0 {
      PersistedNil(w.s, w.cur, perOp, env);
      PersistFrozen(w.s, w.cur, perOp, env);
      assert SameSeg(s.files[w.cur], w.s.files[w.cur]);
      CarriedOut(s, s1.commitOff, w.cur, perOp, env);
    }
  }

  /** A commit answers nil only for what it has kept. */
  lemma CommitNilMeansKept(s: St, off: int, durable: bool, env: Env)
    requires Inv(s) && CommitDurable(s, off, durable, env).1 == Nil
    ensures var t := CommitDurable(s, off, durable, env).0;
            && t.commitOff <= Max(s.commitOff, Min(off, s.writeOff))
            && Kept(s, t, Min(off, s.writeOff), durable, env)
  {
    hide Inv;
    hide WalkInv;
    hide WalkPre;
    hide Carried;
    hide EndsPast;
    hide CommitEnd;
    hide Frozen;
    hide Kept;
    hide Ordered;
    InvOrdered(s);
    if s.latched || off <= s.commitOff {
      StandsKept(s, Min(off, s.writeOff), durable, env);
    } else {
      var to, perOp := Min(off, s.writeOff), durable && s.policy == PerOp;
      WalkMayBegin(s, to);
      NothingCarried(s, perOp, env);
      WalkKeeps(s, s, to, perOp, -1, env);
      WalkCarries(s, s, to, perOp, -1, env);
      var w := Walk(s, to, perOp, -1, env);
      WalkShape(s, w.s, w.cur, to);
      InvBounded(s, w.s, w.cur, to);
      CommitWithin(s, off, durable, env);
      CommitEndKept(s, w, to, durable, perOp, env);
    }
  }

  lemma CommitWithin(s: St, off: int, durable: bool, env: Env)
    requires Inv(s)
    ensures CommitDurable(s, off, durable, env).0.commitOff <= Max(s.commitOff, Min(off, s.writeOff))
  {
    hide Inv;
    hide CommitDurable;
    CommitKeepsInv(s, off, durable, env);
    InvOrdered(CommitDurable(s, off, durable, env).0);
  }

  lemma NothingCarried(s: St, perOp: bool, env: Env)
    ensures Carried(s, s.commitOff, -1, perOp, env)
  {
  }

  lemma StandsKept(s: St, off: int, durable: bool, env: Env)
    requires !s.latched && off <= s.commitOff
    ensures Kept(s, s, off, durable, env)
  {
  }

  // ----- an acknowledgement's answer

  /** The commit over the acknowledged run: nil for the whole run, or up to something that reaches past it. */
  lemma AckedRunNilMeansKept(s: St, durable: bool, env: Env)
    requires Inv(s) && CommitAckedRun(s, durable, env).1 == Nil
    ensures Kept(s, CommitAckedRun(s, durable, env).0, RunEnd(s.reserved, s.commitOff), durable, env)
  {
    hide Inv;
    hide CommitDurable;
    hide Kept;
    var target := RunEnd(s.reserved, s.commitOff);
    InvHead(s);
    RunWithinHead(s.reserved, s.commitOff, s.headOff);
    if target <= s.commitOff {
      StandsKept(s, target, durable, env);
    } else {
      CommitNilMeansKept(s, target, durable, env);
      SameButLedger(CommitDurable(s, target, durable, env).0);
      KeptAside(s, CommitDurable(s, target, durable, env).0, target, durable, env);
    }
  }

  lemma KeptAside(s: St, t: St, off: int, durable: bool, env: Env)
    requires Kept(s, t, off, durable, env)
    ensures forall rs: seq<Reservation> :: Kept(s, t.(reserved := rs), off, durable, env)
  {
  }

  /** The ledger an acknowledgement commits from. */
  /** What Skip and Requeue answer once the record is off the head: nil with the run it completes kept. */
  lemma RetireNilMeansKept(s: St, start: int, end: int, durable: bool, env: Env)
    requires Inv(s) && start < end <= s.headOff && Within(s.files, start, end) && forall q <- s.reserved :: q.end <= start
    requires RetireFrame(s, start, end, durable, env).1 == Nil
    ensures var m := Track(s, Reservation(start, end, true, false, 0));
            Kept(m, RetireFrame(s, start, end, durable, env).0, RunEnd(m.reserved, m.commitOff), durable, env)
  {
    hide Inv;
    hide CommitAckedRun;
    hide Kept;
    var r := Reservation(start, end, true, false, 0);
    TrackKeeps(s, r, {});
    AckedRunNilMeansKept(Track(s, r), durable, env);
  }

  /** Skip answers nil for a record stepped past only with the run it completes kept. */
  lemma SkipNilMeansKept(s: St, take: Env, retire: Env)
    requires Inv(s) && TakeHead(s, take).1.Delivered? && Skip(s, take, retire).2 == Nil
    ensures var t, d := TakeHead(s, take).0, TakeHead(s, take).1;
            var m := Track(t, Reservation(d.at, d.next, true, false, 0));
            Kept(m, Skip(s, take, retire).0, RunEnd(m.reserved, m.commitOff), true, retire)
  {
    hide Inv;
    hide TakeHead;
    hide RetireFrame;
    hide Kept;
    TakeHeadKeeps(s, take, {});
    InvHead(s);
    var (t, d) := TakeHead(s, take);
    InvHead(t);
    RetireNilMeansKept(t, d.at, d.next, true, retire);
  }

  function Marked(s: St, end: int): St {
    var d := DropRetired(s);
    d.(reserved := MarkAcked(d.reserved, end))
  }

  lemma NamedStill(s: St, end: int)
    requires end > s.commitOff
    ensures Names(DropRetired(s).reserved, end) <==> Names(s.reserved, end)
  {
    var i := FirstUnretired(s.reserved, s.commitOff);
    if Names(s.reserved, end) {
      var r :| r in s.reserved && r.end == end;
      var k :| 0 <= k < |s.reserved| && s.reserved[k] == r;
      assert s.reserved[i..][k - i] == r;
    }
  }

  /** Which offsets are accepted: those already committed and those of an entry still in the ledger, up to what has been
      read. One that is not changes neither cursor and acknowledges nothing. */
  lemma AckFindsExactly(s: St, end: int, env: Env)
    ensures var (t, found, e) := Ack(s, end, env);
            && (found <==> end <= s.headOff && (s.latched || end <= s.commitOff || Names(s.reserved, end)))
            && (!found ==> e == Nil && (t == s || t == DropRetired(s)))
            && (found && s.latched ==> e == IOErr && t == s)
  {
    hide CommitAckedRun;
    hide Names;
    if end > s.commitOff {
      NamedStill(s, end);
    }
    SameButLedger(s);
  }

  /** An acknowledgement answers nil for a record already retired, or with the run it completes kept. */
  lemma AckNilMeansKept(s: St, end: int, env: Env)
    requires Inv(s) && Ack(s, end, env).1 && Ack(s, end, env).2 == Nil
    ensures var t := Ack(s, end, env).0;
            && !t.latched && end <= s.headOff
            && (end > s.commitOff ==>
                  Names(s.reserved, end) && Kept(Marked(s, end), t, RunEnd(Marked(s, end).reserved, s.commitOff), true, env))
  {
    hide Inv;
    hide CommitAckedRun;
    hide Names;
    AckFindsExactly(s, end, env);
    SameButLedger(s);
    DropRetiredKeeps(s, {});
    if end > s.commitOff {
      NamedStill(s, end);
      MarkedInv(DropRetired(s), end);
      AckedRunNilMeansKept(Marked(s, end), true, env);
      var m := Marked(s, end);
      KeptUnlatched(m, CommitAckedRun(m, true, env).0, RunEnd(m.reserved, s.commitOff), true, env);
    }
  }

  lemma KeptUnlatched(s: St, t: St, off: int, durable: bool, env: Env)
    requires Kept(s, t, off, durable, env)
    ensures !s.latched && !t.latched
  {
  }

  lemma MarkedInv(s: St, end: int)
    requires Inv(s)
    ensures Inv(s.(reserved := MarkAcked(s.reserved, end)))
  {
    hide Inv;
    InvLedger(s);
    LogRuns.MarkedLedger(s, end);
    LedgerKeepsInv(s, MarkAcked(s.reserved, end));
  }

  predicate Resolves(s: St, end: int) {
    end <= s.headOff && (end <= s.commitOff || Names(s.reserved, end))
  }

  ghost predicate AllResolve(s: St, ends: seq<int>) {
    forall x <- ends :: Resolves(s, x)
  }

  lemma ResolveCons(s: St, t: St, ends: seq<int>)
    requires ends != [] && t == s.(reserved := t.reserved) && forall e :: Names(t.reserved, e) <==> Names(s.reserved, e)
    ensures AllResolve(s, ends) <==> Resolves(s, ends[0]) && AllResolve(t, ends[1..])
  {
    hide Names;
    if Resolves(s, ends[0]) && AllResolve(t, ends[1..]) {
      forall x <- ends ensures Resolves(s, x) {
        assert x == ends[0] || x in ends[1..];
        assert x in ends[1..] ==> Resolves(t, x);
      }
    }
    if AllResolve(s, ends) {
      assert ends[0] in ends;
      forall x <- ends[1..] ensures Resolves(t, x) {
        assert x in ends && Resolves(s, x);
      }
    }
  }

  /** AckBatch's marks: its answer is invalid exactly when some offset resolves to nothing; every other one is marked. */
  lemma {:induction false} MarkAllAnswers(s: St, ends: seq<int>)
    requires Inv(s)
    ensures var (m, valid) := MarkAll(s, ends);
            && Inv(m) && m == s.(reserved := m.reserved) && |m.reserved| == |s.reserved|
            && (valid <==> AllResolve(s, ends))
            && forall k | 0 <= k < |s.reserved| ::
                 m.reserved[k] == if s.commitOff < s.reserved[k].end && s.reserved[k].end in ends
                                  then s.reserved[k].(acked := true) else s.reserved[k]
    decreases |ends|
  {
    hide Inv;
    hide Names;
    hide AllResolve;
    InvHead(s);
    if ends == [] {
      NoneUnresolved(s);
    } else {
      var end := ends[0];
      NamesEntry(s.reserved, end);
      assert forall x :: x in ends <==> x == end || x in ends[1..];
      if s.commitOff < end <= s.headOff && Names(s.reserved, end) {
        MarkedInv(s, end);
        LogRuns.MarkingKeepsNames(s.reserved, end);
        var s1 := s.(reserved := MarkAcked(s.reserved, end));
        ResolveCons(s, s1, ends);
        MarkAllAnswers(s1, ends[1..]);
      } else {
        ResolveCons(s, s, ends);
        MarkAllAnswers(s, ends[1..]);
      }
    }
  }

  lemma NoneUnresolved(s: St)
    ensures AllResolve(s, [])
  {
  }

  lemma NamesEntry(rs: seq<Reservation>, end: int)
    ensures !Names(rs, end) ==> forall k | 0 <= k < |rs| :: rs[k].end != end
  {
    if !Names(rs, end) {
      forall k | 0 <= k < |rs| ensures rs[k].end != end {
        assert rs[k] in rs;
      }
    }
  }

  /** The batch's one commit: nil for the run its marks complete, whichever offsets were bad. */
  lemma AckBatchNilMeansKept(s: St, ends: seq<int>, env: Env)
    requires Inv(s) && AckBatch(s, ends, env).2 == Nil
    ensures var t, m := AckBatch(s, ends, env).0, MarkAll(DropRetired(s), ends).0;
            Kept(m, t, RunEnd(m.reserved, s.commitOff), true, env)
  {
    hide Inv;
    hide CommitAckedRun;
    hide Kept;
    DropRetiredKeeps(s, {});
    SameButLedger(s);
    MarkAllAnswers(DropRetired(s), ends);
    AckedRunNilMeansKept(MarkAll(DropRetired(s), ends).0, true, env);
  }

  // ----- an append's answer

  /** f with one record of len bytes at its end, under a header that publishes it. */
  predicate Gained(f: Seg, g: Seg, len: nat) {
    && g.num == f.num && g.base == f.base && g.size == f.size + len && g.written == f.written + 1
    && g.ends == f.ends + [f.size + len] && g.committed == f.committed
    && g.hdr == f.hdr.(writeCur := HEADER_SIZE + g.size, written := g.written) && g.images == f.images + [g.hdr]
  }

  predicate SameExtent(f: Seg, g: Seg) {
    && g.num == f.num && g.base == f.base && g.size == f.size && g.written == f.written && g.ends == f.ends
    && g.committed == f.committed && g.hdr == f.hdr
  }

  /** A segment with nothing in it, at the end of the stream. */
  predicate Unused(s: St, f: Seg) {
    f.base == s.writeOff && f.size == f.written == f.committed == 0 && f.ends == []
  }

  /** The counter moves with the segments' own counts: what is reclaimed takes its records with it. */
  predicate WrittenAlike(s: St, t: St) {
    t.nWritten - SumWritten(t.files) == s.nWritten - SumWritten(s.files)
  }

  /** The record is the last one of the last segment, the one that was last before or one started for it, and every
      other segment is as it was, or has been reclaimed. */
  ghost predicate InLog(s: St, t: St, len: nat) {
    && t.writeOff == s.writeOff + len && WrittenAlike(s, t) && t.files != []
    && var n := |t.files| - 1;
       || (|s.files| == n + 1 && t.files[..n] == s.files[..n] && Gained(s.files[n], t.files[n], len))
       || ((exists f :: Unused(s, f) && Gained(f, t.files[n], len)) && forall f <- t.files[..n] :: f in s.files)
  }

  /** Nothing was appended: every segment there is holds what it held, or nothing at all. */
  ghost predicate NotInLog(s: St, t: St) {
    && t.writeOff == s.writeOff && WrittenAlike(s, t)
    && forall g <- t.files :: Unused(s, g) || exists f <- s.files :: SameExtent(f, g)
  }

  lemma StandsNotInLog(s: St, t: St)
    requires t.writeOff == s.writeOff && WrittenAlike(s, t) && forall g <- t.files :: g in s.files || Unused(s, g)
    ensures NotInLog(s, t)
  {
    forall g <- t.files | g in s.files ensures exists f <- s.files :: SameExtent(f, g) {
      assert SameExtent(g, g);
    }
  }

  /** Reclaiming appends nothing. */
  lemma DropNotInLog(s: St, env: Env)
    ensures var d := DropCommitted(s, -1, env);
            && d.writeOff == s.writeOff && WrittenAlike(s, d) && d.policy == s.policy && d.latched == s.latched
            && forall g <- d.files :: g in s.files
  {
    hide Reclaim;
    hide SumWritten;
    ReclaimSubset(s.files, s.commitOff, -1, env);
    ReclaimSums(s.files, s.commitOff, -1, env);
  }

  lemma StartedNotInLog(s: St, d: St, need: nat, ans: CreateAns)
    requires d.writeOff == s.writeOff && WrittenAlike(s, d) && forall g <- d.files :: g in s.files
    ensures var (t, e) := StartSegment(d, need, ans);
            && NotInLog(s, t)
            && (e == Nil ==> !t.latched && t.files != [] && Unused(s, t.files[|t.files| - 1])
                             && !t.files[|t.files| - 1].gone && forall f <- t.files[..|t.files| - 1] :: f in s.files)
            && (t.latched <==> d.latched || e == IOErr) && t.policy == d.policy
  {
    hide NotInLog;
    hide SumWritten;
    StandsNotInLog(s, d);
    var f := NewSeg(d, need);
    SumsAppend(d.files, f);
    assert (d.files + [f])[..|d.files|] == d.files;
    StandsNotInLog(s, StartSegment(d, need, ans).0);
  }

  lemma CycleNotInLog(s: St, need: nat, force: bool, a: AppendEnv)
    ensures var (t, e) := Cycle(s, need, force, a);
            && NotInLog(s, t)
            && (e == Nil ==> !t.latched && t.files != [] && Unused(s, t.files[|t.files| - 1])
                             && !t.files[|t.files| - 1].gone && forall f <- t.files[..|t.files| - 1] :: f in s.files)
            && (t.latched <==> s.latched || e == IOErr) && t.policy == s.policy
  {
    hide DropCommitted;
    hide StartSegment;
    hide NotInLog;
    hide WrittenAlike;
    DropNotInLog(s, a.drop);
    var d := DropCommitted(s, -1, a.drop);
    StandsNotInLog(s, d);
    StartedNotInLog(s, d, need, a.create);
  }

  lemma PublishedGains(s: St, len: nat, ans: WriteAns)
    requires s.files != [] && PublishSpan(s, [len], ans).1 == Nil
    ensures var t, n := PublishSpan(s, [len], ans).0, |s.files| - 1;
            && t == s.(files := t.files, writeOff := s.writeOff + len, nWritten := s.nWritten + 1)
            && |t.files| == n + 1 && t.files == s.files[n := t.files[n]] && Gained(s.files[n], t.files[n], len)
            && WrittenAlike(s, t) && !s.latched && ans == Wrote && !s.files[n].gone
  {
    PublishOutcome(s, [len], ans);
    var n := |s.files| - 1;
    assert [len][1..] == [] && SumLens([]) == 0;
    assert EndsAfter(s.files[n].size, [len]) == [s.files[n].size + len] + EndsAfter(s.files[n].size + len, []);
    SumsUpdate(s.files, n, Published(s, [len]).files[n]);
    PublishWrote(s, [len], ans);
    hide SumWritten;
    hide PublishSpan;
  }

  lemma PublishWrote(s: St, lens: seq<nat>, ans: WriteAns)
    requires s.files != []
    ensures PublishSpan(s, lens, ans).1 == Nil <==> !s.latched && !s.files[|s.files| - 1].gone && ans == Wrote
    ensures PublishSpan(s, lens, ans).1 in {Nil, IOErr, Retry, Vanished} && PublishSpan(s, lens, ans).0.policy == s.policy
    ensures PublishSpan(s, lens, ans).0.latched <==> s.latched || PublishSpan(s, lens, ans).1 == IOErr
  {
    var n := |s.files| - 1;
    WriteOutcome(Lengthened(s, lens), n, ans);
    hide Grown;
    hide SumLens;
    hide EndsAfter;
  }

  lemma RefusedNotInLog(s: St, lens: seq<nat>, ans: WriteAns)
    requires PublishSpan(s, lens, ans).1 != Nil
    ensures NotInLog(s, PublishSpan(s, lens, ans).0)
  {
    if s.files == [] {
      StandsNotInLog(s, s);
    } else {
      PublishOutcome(s, lens, ans);
      var n := |s.files| - 1;
      var t := PublishSpan(s, lens, ans).0;
      hide PublishSpan;
      SumsUpdate(s.files, n, t.files[n]);
      hide SumWritten;
      forall g <- t.files ensures exists f <- s.files :: SameExtent(f, g) {
        var i :| 0 <= i < |t.files| && t.files[i] == g;
        assert SameExtent(s.files[i], g) && s.files[i] in s.files;
      }
    }
  }

  predicate BytesDown(policy: Policy, a: AppendEnv) {
    a.opens == Opened && a.wrote && (policy == PerOp ==> a.dataSync) && a.header == Wrote
  }

  predicate FlushedOut(policy: Policy, a: AppendEnv) {
    (policy == PerOp ==> a.headerSync) && (policy == Batched ==> a.tick == TickOk)
  }

  lemma WriteOutAnswers(c: St, len: nat, a: AppendEnv)
    requires !c.latched && c.files != []
    ensures var (t, e), n := WriteOut(c, len, a), |c.files| - 1;
            && t.policy == c.policy && (t.latched <==> e == IOErr) && e in {Nil, IOErr, Retry, Vanished}
            && (if BytesDown(c.policy, a) && !c.files[n].gone then
                  && t.writeOff == c.writeOff + len && WrittenAlike(c, t)
                  && |t.files| == n + 1 && t.files == c.files[n := t.files[n]] && Gained(c.files[n], t.files[n], len)
                  && (e == Nil <==> FlushedOut(c.policy, a))
                  && (e == Retry <==> c.policy == Batched && a.tick == TickRetry) && e != Vanished
                else NotInLog(c, t) && e != Nil)
  {
    hide PublishSpan;
    hide Gained;
    hide NotInLog;
    hide SumWritten;
    LatchedNotInLog(c, false);
    LatchedNotInLog(c, true);
    var o := c.(latched := false);
    assert o == c;
    PublishWrote(o, [len], a.header);
    if PublishSpan(o, [len], a.header).1 == Nil {
      PublishedGains(o, len, a.header);
    } else {
      RefusedNotInLog(o, [len], a.header);
    }
  }

  lemma LatchedNotInLog(c: St, latched: bool)
    ensures NotInLog(c, c.(latched := latched))
  {
    StandsNotInLog(c, c.(latched := latched));
  }

  /** Short of force, the backlog has room for the record under the byte cap. */
  predicate Admitted(s: St, len: nat, force: bool, a: AppendEnv) {
    a.addressable && (force || s.maxBytes == 0 || s.writeOff - s.commitOff + len <= s.maxBytes)
  }

  /** The active segment has room, or one is started; short of force, under the segment cap. */
  predicate Room(s: St, len: nat, force: bool, a: AppendEnv) {
    if NeedsCycle(s, len) then
      a.create == Created && (force || s.maxSegments == 0 || |DropCommitted(s, -1, a.drop).files| < s.maxSegments)
    else !s.files[|s.files| - 1].gone
  }

  predicate Lands(s: St, len: nat, force: bool, a: AppendEnv) {
    !s.latched && Admitted(s, len, force, a) && Room(s, len, force, a) && BytesDown(s.policy, a)
  }

  lemma CycleAnswers(s: St, need: nat, force: bool, a: AppendEnv)
    requires !s.latched && NeedsCycle(s, need)
    ensures var (t, e) := Cycle(s, need, force, a);
            && (e == Nil <==> Room(s, need, force, a)) && e in {Nil, IOErr, Retry, Full}
            && (e == Full <==> !force && s.maxSegments > 0 && |DropCommitted(s, -1, a.drop).files| >= s.maxSegments)
  {
    DropLeaves(s, -1, a.drop);
    CapsStand(s, -1, a.drop);
    hide DropCommitted;
  }

  lemma CapsStand(s: St, keep: int, env: Env)
    ensures var t := DropCommitted(s, keep, env);
            t.maxSegments == s.maxSegments && t.maxBytes == s.maxBytes && t.policy == s.policy
  {
    hide Reclaim;
  }

  /** appendRecord's answer, for every store and every failure. The record is in the log exactly when it was let in, had
      room and got as far as its header; nil is for a record in the log whose fsyncs, those the policy asks for, all
      succeeded; the store is latched exactly when the answer says so. */
  lemma AppendAnswers(s: St, len: nat, force: bool, a: AppendEnv)
    requires s.commitOff <= s.writeOff
    ensures var (t, e) := Append(s, len, force, a);
            && (if Lands(s, len, force, a) then InLog(s, t, len) else NotInLog(s, t))
            && (e == Nil <==> Lands(s, len, force, a) && FlushedOut(s.policy, a))
            && (t.latched <==> e == IOErr)
  {
    hide Cycle;
    hide WriteOut;
    hide InLog;
    hide NotInLog;
    hide Gained;
    hide SumWritten;
    hide DropCommitted;
    hide BytesDown;
    StandsNotInLog(s, s);
    if !s.latched && Admit(s, len, force, a.addressable) == Nil {
      if NeedsCycle(s, len) {
        CycleAnswers(s, len, force, a);
        CycleNotInLog(s, len, force, a);
        var (c, e) := Cycle(s, len, force, a);
        if e == Nil {
          WriteOutAnswers(c, len, a);
          if Lands(s, len, force, a) {
            StartedInLog(s, c, WriteOut(c, len, a).0, len);
          } else {
            NotInLogChain(s, c, WriteOut(c, len, a).0);
          }
        }
      } else {
        WriteOutAnswers(s, len, a);
        if Lands(s, len, force, a) {
          ExtendedInLog(s, WriteOut(s, len, a).0, len);
        }
      }
    }
  }

  /** Where it lands: behind what the active segment holds if it fits there to the byte, and otherwise alone in a new
      one at the write cursor, as large as the configured size or the record, whichever is more. */
  lemma AppendPlaces(s: St, len: nat, force: bool, a: AppendEnv)
    requires s.commitOff <= s.writeOff && Lands(s, len, force, a)
    ensures var t, n := Append(s, len, force, a).0, |s.files| - 1;
            if s.files != [] && s.files[n].size + len <= s.files[n].capacity then
              && |t.files| == n + 1 && Gained(s.files[n], t.files[n], len) && t.files[n].capacity == s.files[n].capacity
              && t.files[..n] == s.files[..n] && t.nextNum == s.nextNum && t.diskBytes == s.diskBytes
            else
              && t.files != []
              && var g := t.files[|t.files| - 1];
                 && g.num == s.nextNum && g.base == s.writeOff && g.size == len && g.ends == [len] && g.written == 1
                 && g.capacity == Max(s.segmentSize, len) && t.nextNum == s.nextNum + 1
                 && t.files[..|t.files| - 1] == DropCommitted(s, -1, a.drop).files
                 && t.diskBytes == DropCommitted(s, -1, a.drop).diskBytes + HEADER_SIZE + g.capacity
  {
    hide Cycle;
    hide WriteOut;
    hide DropCommitted;
    if NeedsCycle(s, len) {
      CycleAnswers(s, len, force, a);
      CyclePlaces(s, len, force, a);
      WrittenOutAt(Cycle(s, len, force, a).0, len, a);
    } else {
      WrittenOutAt(s, len, a);
    }
  }

  lemma CyclePlaces(s: St, len: nat, force: bool, a: AppendEnv)
    requires !s.latched && Cycle(s, len, force, a).1 == Nil
    ensures var t, d := Cycle(s, len, force, a).0, DropCommitted(s, -1, a.drop);
            && t.files != [] && !t.latched && t.policy == s.policy
            && var g := t.files[|t.files| - 1];
               && g.num == s.nextNum && g.base == s.writeOff && g.size == g.written == 0 && g.ends == [] && !g.gone
               && g.capacity == Max(s.segmentSize, len) && t.nextNum == s.nextNum + 1
               && t.files[..|t.files| - 1] == d.files && t.diskBytes == d.diskBytes + HEADER_SIZE + g.capacity
  {
    DropLeaves(s, -1, a.drop);
    CapsStand(s, -1, a.drop);
    NumbersStand(s, -1, a.drop);
    hide DropCommitted;
  }

  lemma OneLen(len: nat)
    ensures SumLens([len]) == len && forall size: int :: EndsAfter(size, [len]) == [size + len]
  {
    assert [len][1..] == [];
  }

  lemma NumbersStand(s: St, keep: int, env: Env)
    ensures DropCommitted(s, keep, env).nextNum == s.nextNum && DropCommitted(s, keep, env).segmentSize == s.segmentSize
  {
    hide Reclaim;
  }

  lemma WrittenOutAt(c: St, len: nat, a: AppendEnv)
    requires c.files != [] && !c.latched && !c.files[|c.files| - 1].gone && BytesDown(c.policy, a)
    ensures var t, n := WriteOut(c, len, a).0, |c.files| - 1;
            && |t.files| == n + 1 && t.files[..n] == c.files[..n] && Gained(c.files[n], t.files[n], len)
            && t.files[n].capacity == c.files[n].capacity && t.nextNum == c.nextNum && t.diskBytes == c.diskBytes
  {
    OneLen(len);
    hide EndsAfter;
    hide SumLens;
    assert c.(latched := false) == c;
  }

  lemma ExtendedInLog(s: St, t: St, len: nat)
    requires s.files != [] && t.writeOff == s.writeOff + len && WrittenAlike(s, t) && |t.files| == |s.files|
    requires var n := |s.files| - 1; t.files == s.files[n := t.files[n]] && Gained(s.files[n], t.files[n], len)
    ensures InLog(s, t, len)
  {
    hide Gained;
  }

  lemma StartedInLog(s: St, c: St, t: St, len: nat)
    requires NotInLog(s, c) && c.files != [] && Unused(s, c.files[|c.files| - 1])
    requires forall f <- c.files[..|c.files| - 1] :: f in s.files
    requires t.writeOff == c.writeOff + len && WrittenAlike(c, t) && |t.files| == |c.files|
    requires var n := |c.files| - 1; t.files == c.files[n := t.files[n]] && Gained(c.files[n], t.files[n], len)
    ensures InLog(s, t, len)
  {
    hide Gained;
    hide SumWritten;
    var n := |c.files| - 1;
    assert t.files[..n] == c.files[..n];
    assert Unused(s, c.files[n]) && Gained(c.files[n], t.files[n], len);
  }

  lemma NotInLogChain(s: St, c: St, t: St)
    requires NotInLog(s, c) && NotInLog(c, t)
    ensures NotInLog(s, t)
  {
    hide SumWritten;
    forall h <- t.files | !Unused(s, h) ensures exists f <- s.files :: SameExtent(f, h) {
      var g :| g in c.files && SameExtent(g, h);
      var f :| f in s.files && SameExtent(f, g);
      assert SameExtent(f, h);
    }
  }

  /** ErrFull is for a record that does not fit now: one the byte cap has no room for behind the backlog, or one that
      needs a segment the segment cap does not allow. Requeue's append is never refused by either. */
  lemma FullExactlyWhen(s: St, len: nat, force: bool, a: AppendEnv)
    requires s.commitOff <= s.writeOff
    ensures Append(s, len, force, a).1 == Full <==>
            && !s.latched && a.addressable && !force && (s.maxBytes > 0 ==> len <= s.maxBytes)
            && if s.maxBytes > 0 && s.writeOff - s.commitOff + len > s.maxBytes then true
               else NeedsCycle(s, len) && s.maxSegments > 0 && |DropCommitted(s, -1, a.drop).files| >= s.maxSegments
    ensures Append(s, len, force, a).1 == TooLarge <==>
            !s.latched && (!a.addressable || (!force && 0 < s.maxBytes < len))
  {
    hide Cycle;
    hide WriteOut;
    hide DropCommitted;
    if !s.latched && Admit(s, len, force, a.addressable) == Nil {
      if NeedsCycle(s, len) {
        CycleAnswers(s, len, force, a);
        CycleNotInLog(s, len, force, a);
        var (c, e) := Cycle(s, len, force, a);
        if e == Nil {
          WriteOutAnswers(c, len, a);
        }
      } else {
        WriteOutAnswers(s, len, a);
      }
    }
  }

  /** An ordinary error leaves the queue untouched, but for one: under SyncEvery, the record whose turn it is to flush
      is in the log when that flush could not be tried. */
  lemma ErrorKeepsRecordExactlyWhen(s: St, len: nat, force: bool, a: AppendEnv)
    requires s.commitOff <= s.writeOff && len > 0
    ensures var (t, e) := Append(s, len, force, a);
            && (e != Nil && !t.latched && InLog(s, t, len) <==>
                  s.policy == Batched && a.tick == TickRetry && Lands(s, len, force, a))
            && (e != Nil && !t.latched && !NotInLog(s, t) ==> InLog(s, t, len))
  {
    hide Gained;
    hide SumWritten;
    hide Append;
    AppendAnswers(s, len, force, a);
    if Lands(s, len, force, a) {
      FlushAnswers(s, len, force, a);
    }
  }

  lemma FlushAnswers(s: St, len: nat, force: bool, a: AppendEnv)
    requires s.commitOff <= s.writeOff && Lands(s, len, force, a)
    ensures Append(s, len, force, a).1 == Retry <==> s.policy == Batched && a.tick == TickRetry
    ensures Append(s, len, force, a).1 in {Nil, IOErr, Retry}
  {
    hide Cycle;
    hide WriteOut;
    hide DropCommitted;
    if NeedsCycle(s, len) {
      CycleAnswers(s, len, force, a);
      CycleNotInLog(s, len, force, a);
      WriteOutAnswers(Cycle(s, len, force, a).0, len, a);
    } else {
      WriteOutAnswers(s, len, a);
    }
  }

  // ----- a rotation's answer

  /** The last segment of the list is laid out the same. */
  predicate TailAlike(fs: seq<Seg>, gs: seq<Seg>) {
    fs != [] && gs != [] && SameSeg(fs[|fs| - 1], gs[|gs| - 1])
  }

  lemma ReclaimKeepsTail(s: St, env: Env)
    requires s.files != []
    ensures TailAlike(s.files, DropCommitted(s, |s.files| - 1, env).files)
  {
    hide DropCommitted;
    DropKeepsLast(s, |s.files| - 1, env);
  }

  lemma SettleKeepsTail(s: St, durable: bool, stop: Err, env: Env)
    requires s.files != []
    ensures TailAlike(s.files, Settle(s, durable, stop, env).0.files) && Settle(s, durable, stop, env).0.writeOff == s.writeOff
  {
    hide DropCommitted;
    hide TailAlike;
    var t := Ticked(s, durable, env).0;
    var u := t.(headOff := Max(t.headOff, t.commitOff));
    ReclaimKeepsTail(u, env);
    DropLeaves(u, |u.files| - 1, env);
  }

  lemma FrozenTail(s: St, t: St)
    requires Frozen(s, t) && s.files != []
    ensures TailAlike(s.files, t.files) && t.writeOff == s.writeOff
  {
    assert SameSeg(s.files[|s.files| - 1], t.files[|s.files| - 1]);
  }

  lemma CommitEndTail(s: St, w: Step, durable: bool, perOp: bool, env: Env)
    requires s.files != [] && Frozen(s, w.s)
    ensures TailAlike(s.files, CommitEnd(s.commitOff, w, durable, perOp, env).0.files)
    ensures CommitEnd(s.commitOff, w, durable, perOp, env).0.writeOff == s.writeOff
  {
    hide Persist;
    hide Settle;
    hide Frozen;
    FrozenTail(s, w.s);
    var (s1, e) := if 0 <= w.cur < |w.s.files| then Persist(w.s, w.cur, perOp, env) else (w.s, Nil);
    if 0 <= w.cur < |w.s.files| {
      PersistFrozen(w.s, w.cur, perOp, env);
      FrozenTail(w.s, s1);
    }
    SettleKeepsTail(s1, durable, if w.Halt? && w.stop != Nil then w.stop else e, env);
  }

  /** A commit, however it ends, keeps the active segment as it is laid out. */
  lemma CommitKeepsTail(s: St, off: int, durable: bool, env: Env)
    requires Inv(s) && s.files != []
    ensures TailAlike(s.files, CommitDurable(s, off, durable, env).0.files)
    ensures CommitDurable(s, off, durable, env).0.writeOff == s.writeOff
  {
    hide Inv;
    hide WalkInv;
    hide WalkPre;
    hide CommitEnd;
    hide Frozen;
    InvOrdered(s);
    if !s.latched && off > s.commitOff {
      var to, perOp := Min(off, s.writeOff), durable && s.policy == PerOp;
      WalkMayBegin(s, to);
      WalkKeeps(s, s, to, perOp, -1, env);
      var w := Walk(s, to, perOp, -1, env);
      WalkShape(s, w.s, w.cur, to);
      CommitEndTail(s, w, durable, perOp, env);
    }
  }

  lemma RetireKeepsTail(s: St, start: int, end: int, durable: bool, env: Env)
    requires Inv(s) && start < end <= s.headOff && Within(s.files, start, end) && forall q <- s.reserved :: q.end <= start
    ensures TailAlike(s.files, RetireFrame(s, start, end, durable, env).0.files)
    ensures RetireFrame(s, start, end, durable, env).0.writeOff == s.writeOff
  {
    hide Inv;
    hide CommitDurable;
    hide Track;
    var r := Reservation(start, end, true, false, 0);
    LogRuns.TrackedLedger(s, r);
    TrackKeeps(s, r, {});
    assert s.files != [] by {
      var i :| 0 <= i < |s.files| && s.files[i].base <= start < end <= s.files[i].End();
    }
    var d := Track(s, r);
    var target := RunEnd(d.reserved, d.commitOff);
    CommitKeepsTail(d, target, durable, env);
    SameButLedger(CommitDurable(d, target, durable, env).0);
  }

  ghost predicate Rotated(s: St, t: St, u: St, v: St, len: nat, e: Err) {
    if e == Nil then InLog(t, u, len) && TailAlike(u.files, v.files) && v.writeOff == s.writeOff + len
    else v.headOff == s.headOff && v.commitOff == s.commitOff && v.reserved == s.reserved
  }

  /** Requeue's answer: nil for the append means a copy of the record is the last thing in the log, whatever becomes of
      the original; an error means the original is at the head again with nothing of it retired. */
  lemma RequeueAnswers(s: St, take: Env, a: AppendEnv, retire: Env)
    requires Inv(s) && TakeHead(s, take).1.Delivered?
    requires var (t, d) := TakeHead(s, take); Attached(t) || NeedsCycle(t, CopyLen(d))
    ensures var (v, d, e, _) := Requeue(s, take, a, retire);
            var t := TakeHead(s, take).0;
            Rotated(s, t, Append(t, CopyLen(d), true, a).0, v, CopyLen(d), e)
  {
    hide Inv;
    hide TakeHead;
    hide Append;
    hide RetireFrame;
    hide InLog;
    hide TailAlike;
    TakeHeadKeeps(s, take, {});
    InvHead(s);
    var (t, d) := TakeHead(s, take);
    var len := d.next - d.at;
    InvHead(t);
    AppendAnswers(t, len, true, a);
    AppendKeeps(t, len, true, a);
    var (u, e) := Append(t, len, true, a);
    if e == Nil {
      AppendKeepsWithin(t, len, true, a, d.at, d.next);
      RetireKeepsTail(u, d.at, d.next, true, retire);
      GrewBy(t, u, len);
    }
  }

  /** And nil for the retirement means the run it completes is kept. */
  lemma RequeueNilMeansKept(s: St, take: Env, a: AppendEnv, retire: Env)
    requires Inv(s) && TakeHead(s, take).1.Delivered?
    requires var (t, d) := TakeHead(s, take); Attached(t) || NeedsCycle(t, CopyLen(d))
    requires var (v, d, e, retired) := Requeue(s, take, a, retire); e == retired == Nil
    ensures var (t, d) := TakeHead(s, take);
            var m := Track(Append(t, CopyLen(d), true, a).0, Reservation(d.at, d.next, true, false, 0));
            Kept(m, Requeue(s, take, a, retire).0, RunEnd(m.reserved, m.commitOff), true, retire)
  {
    hide Inv;
    hide TakeHead;
    hide Append;
    hide RetireFrame;
    hide Kept;
    TakeHeadKeeps(s, take, {});
    InvHead(s);
    var (t, d) := TakeHead(s, take);
    var len := d.next - d.at;
    InvHead(t);
    AppendKeeps(t, len, true, a);
    AppendKeepsWithin(t, len, true, a, d.at, d.next);
    RetireNilMeansKept(Append(t, len, true, a).0, d.at, d.next, true, retire);
  }

  lemma GrewBy(s: St, t: St, len: nat)
    requires InLog(s, t, len)
    ensures t.writeOff == s.writeOff + len
  {
  }

  // ----- what a commit reclaims

  /** Nothing drained is left but the active segment and what is pinned or will not unlink. */
  ghost predicate Swept(s: St, env: Env) {
    s.files != [] && AllHeld(s.files[..|s.files| - 1], s.commitOff, env)
  }

  lemma DropSweeps(s: St, env: Env)
    requires Ordered(s.files) && s.files != []
    ensures Swept(DropCommitted(s, |s.files| - 1, env), env)
  {
    hide Reclaim;
    var n := |s.files| - 1;
    var t := DropCommitted(s, n, env);
    if n == 0 || s.files[0].End() > s.commitOff {
      forall i | 0 <= i < n ensures s.files[i].End() > s.commitOff {
        assert i > 0 ==> s.files[0].End() <= s.files[i].base;
      }
    } else {
      var held := ReclaimTakesAllDrained(s.files, s.commitOff, n, env);
      assert s.files[n..] == [s.files[n]];
      assert t.files[..|t.files| - 1] == held;
    }
  }

  /** A commit that moved has swept: disk is freed as soon as a segment is drained. */
  lemma CommitReclaimsDrained(s: St, off: int, durable: bool, env: Env)
    requires Inv(s) && s.files != [] && CommitDurable(s, off, durable, env).0.commitOff != s.commitOff
    ensures Swept(CommitDurable(s, off, durable, env).0, env)
  {
    hide Inv;
    hide WalkInv;
    hide WalkPre;
    hide Frozen;
    hide Swept;
    InvOrdered(s);
    var to, perOp := Min(off, s.writeOff), durable && s.policy == PerOp;
    WalkMayBegin(s, to);
    WalkKeeps(s, s, to, perOp, -1, env);
    var w := Walk(s, to, perOp, -1, env);
    WalkShape(s, w.s, w.cur, to);
    EndSweeps(s, w, durable, perOp, env);
  }

  lemma EndSweeps(s: St, w: Step, durable: bool, perOp: bool, env: Env)
    requires s.files != [] && Ordered(s.files) && Frozen(s, w.s)
    requires CommitEnd(s.commitOff, w, durable, perOp, env).0.commitOff != s.commitOff
    ensures Swept(CommitEnd(s.commitOff, w, durable, perOp, env).0, env)
  {
    hide Persist;
    hide DropCommitted;
    hide Swept;
    var (s1, e) := if 0 <= w.cur < |w.s.files| then Persist(w.s, w.cur, perOp, env) else (w.s, Nil);
    ShapeKeepsOrder(s.files, w.s.files);
    if 0 <= w.cur < |w.s.files| {
      PersistFrozen(w.s, w.cur, perOp, env);
      ShapeKeepsOrder(w.s.files, s1.files);
    }
    var stop := if w.Halt? && w.stop != Nil then w.stop else e;
    var t := Ticked(s1, durable, env).0;
    DropSweeps(t.(headOff := Max(t.headOff, t.commitOff)), env);
  }
}
