/** What every interleaving of producers, commits, fsyncs and a Sync delivers, and how long a quiescer can be kept
    waiting. */
module GroupRuns {
  import opened StagingFaults
  import opened GroupCommit
  import B = Bytes
  import F = Frame

  ghost predicate Legal(s: Log, es: seq<Event>)
    decreases |es|
  {
    es != [] ==> Enabled(s, es[0]) && Legal(Step(s, es[0]), es[1..])
  }

  ghost function Run(s: Log, es: seq<Event>): Log
    requires Legal(s, es)
    decreases |es|
  {
    if es == [] then s else Run(Step(s, es[0]), es[1..])
  }

  lemma {:induction false} RunKeeps(s: Log, es: seq<Event>)
    requires Inv(s) && Legal(s, es)
    ensures Inv(Run(s, es))
    decreases |es|
  {
    hide Inv;
    hide Step;
    if es != [] {
      StepKeeps(s, es[0]);
      RunKeeps(Step(s, es[0]), es[1..]);
    }
  }

  // ----- after a power loss

  /** The payload each ticket's record carries. */
  type Content = nat -> seq<B.byte>

  function Payloads(c: Content, rs: seq<Rec>): (ps: seq<seq<B.byte>>)
    ensures |ps| == |rs| && forall i | 0 <= i < |rs| :: ps[i] == c(rs[i].ticket)
  {
    if rs == [] then [] else [c(rs[0].ticket)] + Payloads(c, rs[1..])
  }

  /** The records' lengths are their frames', as admission checked. */
  ghost predicate Carries(p: F.Platform, c: Content, rs: seq<Rec>) {
    forall r <- rs :: r.len == |F.FrameOf(p, c(r.ticket))| <= p.maxInt
  }

  /** The bytes of the records in a data region, as they read while the machine is up. */
  function Region(p: F.Platform, c: Content, rs: seq<Rec>): seq<B.byte> {
    F.Frames(p, Payloads(c, rs))
  }

  /** What a power loss may leave of a data region: the bytes before every record not known to be down are as they
      were, and from the first such record on, anything. */
  ghost predicate CrashImage(p: F.Platform, c: Content, g: Seg, img: seq<B.byte>) {
    && |img| < B.TWO63
    && forall i | 0 <= i < |Region(p, c, g.laid)| ::
         (forall k | 0 <= k < |g.laid| && g.laid[k].ticket in g.unsynced :: i < Sum(g.laid[..k]))
         ==> i < |img| && img[i] == Region(p, c, g.laid)[i]
  }

  /** A header as it is found: one of those that may be, or torn. */
  datatype Page = Believed(off: nat) | TornPage

  ghost predicate Found(g: Seg, page: Page) {
    page.Believed? ==> exists n <- g.images :: n <= |g.laid| && page.off == Sum(g.laid[..n])
  }

  /** What recovery reads from a segment: the frames under a believed write cursor, or whatever verifies. */
  function Recovered(p: F.Platform, img: seq<B.byte>, page: Page): seq<seq<B.byte>>
    requires |img| < B.TWO63
  {
    match page
    case Believed(off) => F.Payloads(F.Walk(p, if off <= |img| then img[..off] else img))
    case TornPage => F.Payloads(F.VerifiedWalk(p, img))
  }

  lemma {:induction false} RegionIs(p: F.Platform, c: Content, rs: seq<Rec>, k: nat)
    requires Carries(p, c, rs) && k <= |rs|
    ensures |Region(p, c, rs[..k])| == Sum(rs[..k]) && F.Addressable(p, Payloads(c, rs[..k]))
    ensures Region(p, c, rs[..k]) <= Region(p, c, rs)
    decreases |rs|
  {
    hide F.FrameOf;
    if k > 0 {
      assert rs[..k][0] == rs[0] && rs[..k][1..] == rs[1..][..k - 1];
      assert rs[0] in rs && forall r <- rs[1..] :: r in rs;
      RegionIs(p, c, rs[1..], k - 1);
      assert Payloads(c, rs)[1..] == Payloads(c, rs[1..]);
      assert Payloads(c, rs[..k])[1..] == Payloads(c, rs[1..][..k - 1]);
      AddressableCons(p, Payloads(c, rs[..k]));
    }
  }

  lemma AddressableCons(p: F.Platform, ps: seq<seq<B.byte>>)
    requires ps != [] && |F.FrameOf(p, ps[0])| <= p.maxInt && F.Addressable(p, ps[1..])
    ensures F.Addressable(p, ps)
  {
    hide F.FrameOf;
    assert ps == [ps[0]] + ps[1..];
  }

  lemma SumGrows(rs: seq<Rec>, n: nat, m: nat)
    requires n <= m <= |rs|
    ensures Sum(rs[..n]) <= Sum(rs[..m])
  {
    SumJoins(rs[..n], rs[n..m]);
    assert rs[..m] == rs[..n] + rs[n..m];
  }

  /** What the fsyncs bought: as far as the records are down, the crash image is the region. */
  lemma DurableSurvives(p: F.Platform, c: Content, g: Seg, img: seq<B.byte>, n: nat)
    requires CrashImage(p, c, g, img) && Carries(p, c, g.laid) && n <= |g.laid| && Durable(g, n)
    ensures Region(p, c, g.laid[..n]) <= img && |Region(p, c, g.laid[..n])| == Sum(g.laid[..n])
    ensures F.Addressable(p, Payloads(c, g.laid[..n]))
  {
    RegionIs(p, c, g.laid, n);
    var a, b := Region(p, c, g.laid[..n]), Region(p, c, g.laid);
    forall k | 0 <= k < |g.laid| && g.laid[k].ticket in g.unsynced ensures |a| <= Sum(g.laid[..k]) {
      SumGrows(g.laid, n, k);
    }
    hide Region;
    hide Sum;
    hide F.Addressable;
    forall i | 0 <= i < |a| ensures i < |img| && img[i] == a[i] {
      assert b[i] == a[i];
    }
    if a != [] {
      var last := a[|a| - 1];
      assert img[|a| - 1] == last;
    }
  }

  /** A segment as the invariant leaves it, closed or active. */
  ghost predicate Sound(g: Seg) {
    Data(g) && g.live <= g.laid
  }

  lemma SegIsSound(s: Log, i: nat)
    requires Inv(s) && !s.fooled && i <= |s.closed|
    ensures Sound(SegAt(s, i))
    ensures !s.latched || i < |s.closed| ==> forall n <- SegAt(s, i).images :: n <= |SegAt(s, i).live|
  {
    if i < |s.closed| {
      assert Settled(s.closed[i]);
    } else {
      StagedTickets(s);
      forall n <- s.act.images ensures Durable(s.act, n) && (!s.latched ==> n <= |s.act.live|) {
        var j :| 0 <= j < |s.act.images| && s.act.images[j] == n;
      }
    }
  }

  /** A believed header over a crash image recovers exactly the records it covers. */
  lemma BelievedRecovers(p: F.Platform, c: Content, g: Seg, img: seq<B.byte>, off: nat) returns (n: nat)
    requires Sound(g) && Found(g, Believed(off)) && CrashImage(p, c, g, img) && Carries(p, c, g.laid)
    ensures n in g.images && n <= |g.laid| && Sum(g.laid[..n]) == off
    ensures Recovered(p, img, Believed(off)) == Payloads(c, g.laid[..n])
  {
    n :| n in g.images && n <= |g.laid| && off == Sum(g.laid[..n]);
    var i :| 0 <= i < |g.images| && g.images[i] == n;
    assert Durable(g, g.images[i]);
    DurableSurvives(p, c, g, img, n);
    assert img[..off] == Region(p, c, g.laid[..n]);
    F.FrameRoundTripExact(p, Payloads(c, g.laid[..n]), 0);
  }

  /** A salvage brings back every record whose bytes and all before them are there. */
  lemma SalvageReaches(p: F.Platform, c: Content, rs: seq<Rec>, img: seq<B.byte>)
    requires Carries(p, c, rs) && |img| < B.TWO63 && Region(p, c, rs) <= img
    ensures Payloads(c, rs) <= Recovered(p, img, TornPage)
    ensures |Recovered(p, img, TornPage)| == |rs| + |F.VerifiedWalk(p, img[|Region(p, c, rs)|..])|
  {
    assert rs[..|rs|] == rs;
    RegionIs(p, c, rs, |rs|);
    var ps, rest := Payloads(c, rs), img[|Region(p, c, rs)|..];
    assert img == Region(p, c, rs) + rest;
    F.SalvageKeepsPublished(p, ps, rest);
    F.FrameRoundTrip(p, ps, rest);
    PayloadsPrefix(F.VerifiedWalk(p, img), |ps|);
  }

  /** A torn header recovers everything published, in order, and then exactly what verifies behind it. */
  lemma TornRecovers(p: F.Platform, c: Content, g: Seg, img: seq<B.byte>)
    requires Sound(g) && CrashImage(p, c, g, img) && Carries(p, c, g.laid)
    ensures Sum(g.live) <= |img| && Payloads(c, g.live) <= Recovered(p, img, TornPage)
    ensures Recovered(p, img, TornPage) == Payloads(c, g.live) <==> F.VerifiedWalk(p, img[Sum(g.live)..]) == []
  {
    var k := |g.live|;
    assert g.laid[..k] == g.live;
    DurableSurvives(p, c, g, img, k);
    SalvageReaches(p, c, g.live, img);
  }

  lemma {:induction false} PayloadsPrefix(rs: seq<F.Record>, n: nat)
    requires n <= |rs|
    ensures F.Payloads(rs[..n]) <= F.Payloads(rs)
  {
    if n > 0 {
      assert rs[..n][0] == rs[0] && rs[..n][1..] == rs[1..][..n - 1];
      PayloadsPrefix(rs[1..], n - 1);
    }
  }

  /** A power loss: an image and a page for every segment, the active one last. */
  ghost predicate Crash(p: F.Platform, c: Content, s: Log, imgs: seq<seq<B.byte>>, pages: seq<Page>) {
    && |imgs| == |pages| == |s.closed| + 1
    && forall i | 0 <= i <= |s.closed| ::
         CrashImage(p, c, SegAt(s, i), imgs[i]) && Found(SegAt(s, i), pages[i]) && Carries(p, c, SegAt(s, i).laid)
  }

  /** t's record comes back from a segment at its place in it. */
  ghost predicate ComesBack(p: F.Platform, c: Content, g: Seg, img: seq<B.byte>, page: Page, t: nat)
    requires |img| < B.TWO63
  {
    var rs := Recovered(p, img, page);
    exists k | 0 <= k < |g.live| && k < |rs| :: g.live[k].ticket == t && rs[k] == c(t)
  }

  ghost predicate Survives(p: F.Platform, c: Content, s: Log, imgs: seq<seq<B.byte>>, pages: seq<Page>, t: nat)
    requires Crash(p, c, s, imgs, pages)
  {
    exists i | 0 <= i <= |s.closed| :: ComesBack(p, c, SegAt(s, i), imgs[i], pages[i], t)
  }

  lemma SegSurvives(p: F.Platform, c: Content, g: Seg, img: seq<B.byte>, page: Page, t: nat)
    requires Sound(g) && |img| < B.TWO63 && CrashImage(p, c, g, img) && Found(g, page) && Carries(p, c, g.laid)
    requires t in Tickets(g.live) && forall n <- g.images :: Covered(g.live, t, n)
    ensures ComesBack(p, c, g, img, page, t)
  {
    hide CrashImage;
    hide Carries;
    hide Recovered;
    hide ComesBack;
    match page
    case Believed(off) =>
      var n := BelievedRecovers(p, c, g, img, off);
      CoveredComesBack(p, c, g, img, page, n, t);
    case TornPage =>
      TornRecovers(p, c, g, img);
      AllCovered(g.live, t, |g.live|);
      assert g.laid[..|g.live|] == g.live;
      CoveredComesBack(p, c, g, img, page, |g.live|, t);
  }

  lemma CoveredComesBack(p: F.Platform, c: Content, g: Seg, img: seq<B.byte>, page: Page, n: nat, t: nat)
    requires |img| < B.TWO63 && g.live <= g.laid && n <= |g.laid| && Covered(g.live, t, n)
    requires Payloads(c, g.laid[..n]) <= Recovered(p, img, page)
    ensures ComesBack(p, c, g, img, page, t)
  {
    hide Recovered;
    var k :| 0 <= k < |g.live| && k < n && g.live[k].ticket == t;
    assert g.laid[..n][k] == g.live[k];
    assert Recovered(p, img, page)[k] == Payloads(c, g.laid[..n])[k];
  }

  /** The segment that holds a ticket, and how its headers cover it. */
  lemma {:induction false} InClosed(gs: seq<Seg>, t: nat) returns (i: nat)
    requires t in Tickets(Flat(gs))
    ensures i < |gs| && t in Tickets(gs[i].live)
    decreases |gs|
  {
    var n := |gs| - 1;
    TicketsJoin(Flat(gs[..n]), gs[n].live);
    if t in Tickets(gs[n].live) {
      i := n;
    } else {
      i := InClosed(gs[..n], t);
    }
  }

  lemma HolderOf(s: Log, t: nat) returns (i: nat)
    requires Inv(s) && !s.fooled && t in s.verdicts && s.verdicts[t] == Done
    ensures i <= |s.closed| && t in Tickets(SegAt(s, i).live)
    ensures forall n <- SegAt(s, i).images :: Covered(SegAt(s, i).live, t, n)
  {
    TicketsJoin(Flat(s.closed), s.act.live);
    if t in Tickets(Flat(s.closed)) {
      i := InClosed(s.closed, t);
      assert Settled(s.closed[i]);
      AllCovered(s.closed[i].live, t, |s.closed[i].live|);
    } else {
      i := |s.closed|;
      forall n <- s.act.images ensures Covered(s.act.live, t, n) {
        var j :| 0 <= j < |s.act.images| && s.act.images[j] == n;
      }
    }
  }

  /** Once Add has returned nil, whatever a power loss leaves of unsynced writes in any segment, and whichever header
      is found in each, believed or torn, the record is recovered, unless a leader was fooled. */
  lemma DurableAddSurvives(p: F.Platform, c: Content, es: seq<Event>, imgs: seq<seq<B.byte>>, pages: seq<Page>, t: nat)
    requires Legal(Init(), es) && !Run(Init(), es).fooled
    requires t in Run(Init(), es).verdicts && Run(Init(), es).verdicts[t] == Done
    requires Crash(p, c, Run(Init(), es), imgs, pages)
    ensures Survives(p, c, Run(Init(), es), imgs, pages, t)
  {
    InitHolds();
    RunKeeps(Init(), es);
    var s := Run(Init(), es);
    hide Run;
    hide Inv;
    hide CrashImage;
    hide ComesBack;
    hide Covered;
    var i := HolderOf(s, t);
    SegIsSound(s, i);
    SegSurvives(p, c, SegAt(s, i), imgs[i], pages[i], t);
  }

  /** No header that may be found covers a record not on stable storage, in any segment. */
  lemma HeaderNeverAhead(es: seq<Event>, i: nat, n: nat, k: nat)
    requires Legal(Init(), es) && !Run(Init(), es).fooled && i <= |Run(Init(), es).closed|
    requires n in SegAt(Run(Init(), es), i).images && k < n && k < |SegAt(Run(Init(), es), i).laid|
    ensures SegAt(Run(Init(), es), i).laid[k].ticket !in SegAt(Run(Init(), es), i).unsynced
  {
    InitHolds();
    RunKeeps(Init(), es);
    var s := Run(Init(), es);
    SegIsSound(s, i);
    var j :| 0 <= j < |SegAt(s, i).images| && SegAt(s, i).images[j] == n;
    assert Durable(SegAt(s, i), n);
  }

  /** While no failure has been latched, a believed header recovers a prefix of what its segment published and
      nothing else. */
  lemma NothingUnpublished(p: F.Platform, c: Content, es: seq<Event>, i: nat, img: seq<B.byte>, off: nat)
    requires Legal(Init(), es) && !Run(Init(), es).latched && !Run(Init(), es).fooled && i <= |Run(Init(), es).closed|
    requires var g := SegAt(Run(Init(), es), i);
             CrashImage(p, c, g, img) && Found(g, Believed(off)) && Carries(p, c, g.laid)
    ensures Recovered(p, img, Believed(off)) <= Payloads(c, SegAt(Run(Init(), es), i).live)
  {
    InitHolds();
    RunKeeps(Init(), es);
    var s := Run(Init(), es);
    var g := SegAt(s, i);
    SegIsSound(s, i);
    hide Run;
    hide Inv;
    hide Recovered;
    var n := BelievedRecovers(p, c, g, img, off);
    assert g.laid[..n] == g.live[..n];
  }

  /** A torn header recovers what its segment published and nothing else exactly when nothing verifies behind that;
      and whatever is on stable storage there does, published or refused. */
  lemma SalvageUnpublished(p: F.Platform, c: Content, es: seq<Event>, i: nat, img: seq<B.byte>, n: nat)
    requires Legal(Init(), es) && !Run(Init(), es).fooled && i <= |Run(Init(), es).closed|
    requires var g := SegAt(Run(Init(), es), i); CrashImage(p, c, g, img) && Carries(p, c, g.laid)
    ensures var g := SegAt(Run(Init(), es), i);
            && Sum(g.live) <= |img|
            && (Recovered(p, img, TornPage) <= Payloads(c, g.live) <==> F.VerifiedWalk(p, img[Sum(g.live)..]) == [])
            && (n <= |g.laid| && Durable(g, n) ==> Payloads(c, g.laid[..n]) <= Recovered(p, img, TornPage))
  {
    InitHolds();
    RunKeeps(Init(), es);
    var s := Run(Init(), es);
    var g := SegAt(s, i);
    SegIsSound(s, i);
    hide Run;
    hide Inv;
    hide Recovered;
    TornRecovers(p, c, g, img);
    if n <= |g.laid| && Durable(g, n) {
      DurableSurvives(p, c, g, img, n);
      PrefixCarries(p, c, g.laid, n);
      SalvageReaches(p, c, g.laid[..n], img);
    }
  }

  lemma PrefixCarries(p: F.Platform, c: Content, rs: seq<Rec>, n: nat)
    requires Carries(p, c, rs) && n <= |rs|
    ensures Carries(p, c, rs[..n])
  {
    forall r <- rs[..n] ensures r in rs {
    }
  }

  // ----- a leader fooled

  /** Publishing by a clean answer over a record of the span that was dropped. */
  ghost predicate DataFooled(s: Log, e: Event) {
    e.DataSynced? && Enabled(s, e) && s.phase.told.Clean? && !s.latched && !e.header.Refused? && SpanDropped(s)
  }

  /** Answering nil by a clean answer over a header that was dropped. */
  ghost predicate HeaderFooled(s: Log, e: Event) {
    e.HeaderSynced? && Enabled(s, e) && s.phase.told.Clean? && !s.latched && HeaderDropped(s)
  }

  lemma FooledIs(s: Log, e: Event)
    requires Enabled(s, e)
    ensures Step(s, e).fooled <==> s.fooled || DataFooled(s, e) || HeaderFooled(s, e)
  {
    if e.Batch? {
      BatchStages(s, e.lens);
    }
  }

  lemma {:induction false} BatchStages(s: Log, lens: seq<FrameLen>)
    ensures var u := StageAll(s, lens);
            && u.fooled == s.fooled && u.closed == s.closed && u.act.live == s.act.live && u.verdicts == s.verdicts
            && u.phase == s.phase
    decreases |lens|
  {
    if lens != [] {
      BatchStages(StageRecord(s, lens[0]), lens[1..]);
    }
  }

  /** It takes a Sync whose fsync has answered with an error and which has not had the lock to say so. */
  lemma FooledBySync(s: Log, e: Event)
    requires Inv(s) && (DataFooled(s, e) || HeaderFooled(s, e))
    ensures s.sync.Syncing? && s.sync.failed
  {
    assert Active(s) && !s.latched;
    if DataFooled(s, e) {
      var r :| r in s.inFlight && r.ticket in s.act.dropped;
    }
  }

  ghost predicate AheadSeg(g: Seg) {
    exists n <- g.images :: !Durable(g, n)
  }

  ghost predicate Ahead(s: Log) {
    exists i | 0 <= i <= |s.closed| :: AheadSeg(SegAt(s, i))
  }

  lemma NotAhead(s: Log)
    requires Inv(s) && !s.fooled
    ensures !Ahead(s)
  {
    forall i | 0 <= i <= |s.closed| ensures !AheadSeg(SegAt(s, i)) {
      SegIsSound(s, i);
    }
  }

  lemma FooledAhead(s: Log, e: Event)
    requires Inv(s) && DataFooled(s, e)
    ensures Ahead(Step(s, e))
  {
    var u, n := Step(s, e), |s.act.live + s.inFlight|;
    assert u.closed == s.closed && u.act.laid == s.act.laid && u.act.unsynced == s.act.unsynced;
    assert u.act.images == s.act.images + [n];
    SpanInDoubt(s);
    hide Inv;
    hide Step;
    assert n in u.act.images && !Durable(u.act, n);
    assert AheadSeg(SegAt(u, |u.closed|));
  }

  /** A record of the span that was dropped is among those the span's header covers. */
  lemma SpanInDoubt(s: Log)
    requires Active(s) && SpanDropped(s)
    ensures !Durable(s.act, |s.act.live + s.inFlight|)
  {
    var r :| r in s.inFlight && r.ticket in s.act.dropped;
    var j :| 0 <= j < |s.inFlight| && s.inFlight[j] == r;
    StagedTickets(s);
    assert (s.act.live + s.inFlight)[|s.act.live| + j] == r;
  }

  lemma HeaderFooledNotAhead(s: Log, e: Event)
    requires Inv(s) && !s.fooled && HeaderFooled(s, e)
    ensures !Ahead(Step(s, e))
  {
    NotAhead(s);
    var u := Step(s, e);
    assert u.closed == s.closed && u.act == s.act;
    forall i | 0 <= i <= |u.closed| ensures !AheadSeg(SegAt(u, i)) {
      assert !AheadSeg(SegAt(s, i));
    }
  }

  /** Exactly one kind of step puts a header ahead of the data it covers. */
  lemma HeaderAheadExactlyWhen(s: Log, e: Event)
    requires Inv(s) && !s.fooled && Enabled(s, e)
    ensures Ahead(Step(s, e)) <==> DataFooled(s, e)
  {
    StepKeeps(s, e);
    FooledIs(s, e);
    hide Inv;
    hide Step;
    hide Ahead;
    if DataFooled(s, e) {
      FooledAhead(s, e);
    } else if HeaderFooled(s, e) {
      HeaderFooledNotAhead(s, e);
    } else {
      NotAhead(Step(s, e));
    }
  }

  lemma FooledUnbacked(s: Log, e: Event)
    requires Inv(s) && !s.fooled && HeaderFooled(s, e)
    ensures !Backed(Step(s, e))
  {
    hide Inv;
    hide Step;
    hide Backed;
    FooledAnswers(s, e);
    LastOnce(s);
    LastUncovered(Step(s, e), s.act.live[|s.act.live| - 1].ticket);
  }

  /** The answer goes to the newest record, over a header that covers less. */
  lemma FooledAnswers(s: Log, e: Event)
    requires Inv(s) && !s.fooled && HeaderFooled(s, e)
    ensures Ordered(Flat(s.closed) + Staging(s), s.stamp) && s.act.live != []
    ensures var u, t := Step(s, e), s.act.live[|s.act.live| - 1].ticket;
            && u.closed == s.closed && u.act == s.act && t in u.verdicts && u.verdicts[t] == Done
            && s.act.images != [] && s.act.images[0] < |s.act.live|
  {
    hide Backed;
    hide Data;
    hide Settled;
    hide Waiters;
    hide Ordered;
    hide Verdicts;
    var u, n := Step(s, e), |s.act.live|;
    var t := s.act.live[n - 1].ticket;
    assert u.closed == s.closed && u.act == s.act && t in u.verdicts && u.verdicts[t] == Done by {
      hide Disk;
      hide Books;
    }
    assert s.act.images[0] < n by {
      hide Books;
    }
  }

  lemma LastUncovered(u: Log, t: nat)
    requires t in u.verdicts && u.verdicts[t] == Done && t !in Tickets(Flat(u.closed))
    requires u.act.images != [] && u.act.images[0] < |u.act.live|
    requires forall k | 0 <= k < |u.act.live| - 1 :: u.act.live[k].ticket != t
    ensures !Backed(u)
  {
    assert !Covered(u.act.live, t, u.act.images[0]);
  }

  /** The newest published ticket is in no other place. */
  lemma LastOnce(s: Log)
    requires Ordered(Flat(s.closed) + Staging(s), s.stamp) && s.act.live != []
    ensures var t := s.act.live[|s.act.live| - 1].ticket;
            t !in Tickets(Flat(s.closed)) && forall k | 0 <= k < |s.act.live| - 1 :: s.act.live[k].ticket != t
  {
    var all, m := Flat(s.closed) + Staging(s), |Flat(s.closed)|;
    var last := m + |s.act.live| - 1;
    assert all[last] == s.act.live[|s.act.live| - 1];
    forall r <- Flat(s.closed) ensures r.ticket != all[last].ticket {
      var i :| 0 <= i < m && Flat(s.closed)[i] == r;
      assert all[i] == r;
    }
    forall k | 0 <= k < |s.act.live| - 1 ensures s.act.live[k].ticket != all[last].ticket {
      assert all[m + k] == s.act.live[k];
    }
  }

  lemma DataFooledBacked(s: Log, e: Event)
    requires Inv(s) && !s.fooled && DataFooled(s, e)
    ensures Backed(Step(s, e))
  {
    StampedBacked(s.(fooled := true));
    if e.header.Wrote? {
      WroteBacked(s.(fooled := true));
    } else {
      TornBacked(s);
    }
  }

  lemma TornBacked(s: Log)
    requires Backed(Stamped(s.(fooled := true)))
    ensures Backed(Publish(s.(fooled := true), Torn))
  {
    hide Covered;
    hide Tickets;
    hide Flat;
  }

  /** Exactly one kind of step answers nil for a record some header that may be found does not cover. */
  lemma NilUnbackedExactlyWhen(s: Log, e: Event)
    requires Inv(s) && !s.fooled && Enabled(s, e)
    ensures !Backed(Step(s, e)) <==> HeaderFooled(s, e)
  {
    StepKeeps(s, e);
    FooledIs(s, e);
    if HeaderFooled(s, e) {
      FooledUnbacked(s, e);
    } else if DataFooled(s, e) {
      DataFooledBacked(s, e);
    }
    hide Backed;
    hide Step;
  }

  // ----- what a flushed commit promises its own caller

  /** The header a commit is flushing is its segment's newest; no error hangs over a closed segment unless someone
      owes it. */
  ghost predicate Committing(s: Log) {
    && (s.commit.Flushing? ==>
          s.commit.seg <= |s.closed| && SegAt(s, s.commit.seg).images != []
          && s.commit.fl.image + 1 == SegAt(s, s.commit.seg).first + |SegAt(s, s.commit.seg).images|)
    && Unstuck(s)
  }

  ghost predicate Unstuck(s: Log) {
    !s.latched && !Owing(s) ==> forall g <- s.closed :: g.stuck <= g.first
  }

  lemma AnsweredUnstuck(s: Log, i: nat, fl: Flight)
    requires i < |s.closed| && forall g <- s.closed :: g.stuck <= g.first
    ensures forall g <- s.closed[i := Answered(s.closed[i], fl, true)] :: g.stuck <= g.first
  {
    AnsweredSeg(s.closed[i], fl, true);
    hide Answered;
    assert s.closed[i] in s.closed;
  }

  /** The lock is someone's: no header is written, and what is answered loses no newest header. */
  lemma AnswersCommit(s: Log, e: Event)
    requires Committing(s) && Enabled(s, e) && (e.LeaderTold? || e.SyncTold?)
    ensures Committing(Step(s, e))
  {
    hide Answered;
    if e.LeaderTold? {
      AnsweredSeg(s.act, s.phase.fl, e.ok);
    } else {
      var i, fl := s.sync.on.seg, s.sync.on.fl;
      AnsweredSeg(SegAt(s, i), fl, e.ok);
      if e.ok && i < |s.closed| && !s.latched && !Owing(s) {
        AnsweredUnstuck(s, i, fl);
      }
    }
  }

  lemma HeadsCommit(s: Log, e: Event)
    requires Committing(s) && Enabled(s, e) && (e.CommitHeader? || e.CommitTold?)
    ensures Committing(Step(s, e))
  {
    hide Answered;
    if e.CommitTold? {
      AnsweredSeg(SegAt(s, s.commit.seg), s.commit.fl, e.ok);
      if e.ok && s.commit.seg < |s.closed| && !s.latched && !Owing(s) {
        AnsweredUnstuck(s, s.commit.seg, s.commit.fl);
      }
    }
  }

  lemma SpansCommit(s: Log, e: Event)
    requires Committing(s) && Enabled(s, e) && (e.DataSynced? || e.HeaderSynced? || e.Add? || e.Refuse?)
    ensures Committing(Step(s, e))
  {
    hide Settle;
    hide SpanDropped;
    hide HeaderDropped;
  }

  lemma AsideCommit(s: Log, e: Event)
    requires Inv(s) && Committing(s) && Enabled(s, e)
    requires !e.LeaderTold? && !e.SyncTold? && !e.CommitHeader? && !e.CommitTold?
    requires !e.DataSynced? && !e.HeaderSynced? && !e.Add? && !e.Refuse?
    ensures Committing(Step(s, e))
  {
    InvActive(s);
    hide Inv;
    hide Active;
    if e.Batch? {
      BatchStages(s, e.lens);
      BatchAside(s, e.lens);
    }
    hide StageAll;
  }

  lemma InvActive(s: Log)
    requires Inv(s)
    ensures !s.latched && !Owing(s) ==> s.act.stuck <= s.act.first
  {
    hide Ordered;
    hide Tickets;
    hide Waiters;
  }

  lemma {:induction false} BatchAside(s: Log, lens: seq<FrameLen>)
    ensures var u := StageAll(s, lens);
            u.sync == s.sync && u.latched == s.latched && u.commit == s.commit && u.act.first == s.act.first && u.act.images == s.act.images
    decreases |lens|
  {
    if lens != [] {
      BatchAside(StageRecord(s, lens[0]), lens[1..]);
    }
  }

  lemma CommittingKeeps(s: Log, e: Event)
    requires Inv(s) && Committing(s) && Enabled(s, e)
    ensures Committing(Step(s, e))
  {
    hide Inv;
    hide Committing;
    hide Step;
    if e.LeaderTold? || e.SyncTold? {
      AnswersCommit(s, e);
    } else if e.CommitHeader? || e.CommitTold? {
      HeadsCommit(s, e);
    } else if e.DataSynced? || e.HeaderSynced? || e.Add? || e.Refuse? {
      SpansCommit(s, e);
    } else {
      AsideCommit(s, e);
    }
  }

  lemma {:induction false} CommittingRun(s: Log, es: seq<Event>)
    requires Inv(s) && Committing(s) && Legal(s, es)
    ensures Committing(Run(s, es))
    decreases |es|
  {
    hide Inv;
    hide Committing;
    hide Step;
    if es != [] {
      StepKeeps(s, es[0]);
      CommittingKeeps(s, es[0]);
      CommittingRun(Step(s, es[0]), es[1..]);
    }
  }

  /** An fsync off the lock has been told of the error for the header the commit wrote, and an older one may be
      found. */
  ghost predicate CommitHidden(s: Log)
    requires s.commit.Flushing? && s.commit.seg <= |s.closed|
  {
    var g := SegAt(s, s.commit.seg);
    g.first < s.commit.fl.image < g.stuck
  }

  /** A commit whose fsync answers clean leaves its segment with no header to be found but the one it wrote, except
      exactly when an fsync off the lock took the error; someone then still owes it. */
  lemma CommitDurableExactlyWhen(es: seq<Event>)
    requires Legal(Init(), es) && Enabled(Run(Init(), es), CommitTold(true))
    ensures var s := Run(Init(), es);
            var g := SegAt(Step(s, CommitTold(true)), s.commit.seg);
            && (g.first == s.commit.fl.image && |g.images| == 1 <==> !CommitHidden(s))
            && (CommitHidden(s) && !s.latched ==> Owing(s))
  {
    hide Run;
    hide Legal;
    hide Inv;
    hide Committing;
    hide CommitHidden;
    InitHolds();
    RunKeeps(Init(), es);
    InitCommits();
    CommittingRun(Init(), es);
    var s := Run(Init(), es);
    assert Step(s, CommitTold(true)) == CommitAnswered(s, true);
    CommitTells(s);
  }

  lemma InitCommits()
    ensures Committing(Init())
  {
  }

  lemma CommitTells(s: Log)
    requires Inv(s) && Committing(s) && Enabled(s, CommitTold(true))
    ensures var g := SegAt(CommitAnswered(s, true), s.commit.seg);
            && (g.first == s.commit.fl.image && |g.images| == 1 <==> !CommitHidden(s))
            && (CommitHidden(s) && !s.latched ==> Owing(s))
  {
    InvActive(s);
    hide Inv;
    hide Headed;
    hide Settle;
    var i := s.commit.seg;
    assert i < |s.closed| ==> s.closed[i] in s.closed;
    assert SegAt(CommitAnswered(s, true), i) == Answered(SegAt(s, i), s.commit.fl, true);
    hide Step;
  }

  // ----- it happens: a Sync is told of the error and the leader is not

  ghost predicate Goes(s: Log, es: seq<Event>, u: Log) {
    Legal(s, es) && Run(s, es) == u
  }

  lemma One(s: Log, e: Event)
    requires Enabled(s, e)
    ensures Goes(s, [e], Step(s, e))
  {
    assert [e][1..] == [];
  }

  lemma {:induction false} Then(s: Log, es: seq<Event>, u: Log, more: seq<Event>, w: Log)
    requires Goes(s, es, u) && Goes(u, more, w)
    ensures Goes(s, es + more, w)
    decreases |es|
  {
    if es == [] {
      assert es + more == more;
    } else {
      Then(Step(s, es[0]), es[1..], u, more, w);
      assert (es + more)[1..] == es[1..] + more;
    }
  }

  const ONE := Rec(0, 9)

  /** One record staged by a leader whose data fsync is under way. */
  function Leading(unsynced: set<nat>, dropped: set<nat>, stuck: nat, told: Told, sync: Sync): Log {
    Init().(act := EMPTY.(laid := [ONE], unsynced := unsynced, dropped := dropped, stuck := stuck), inFlight := [ONE],
            phase := DataSync(Flight({0}, 0), told), sync := sync, mine := {0}, stamp := 1)
  }

  /** The record published, its header on the way. */
  function Heading(act: Seg, mark: set<nat>, told: Told, sync: Sync, fooled: bool): Log {
    Init().(act := act, phase := HeaderSync(Flight(mark, 1), told), sync := sync, mine := {0}, stamp := 1, fooled := fooled)
  }

  lemma LeadsOne(sync: Sync)
    ensures Goes(Init().(sync := sync), [Add(9, Staged)], Leading({0}, {}, 0, Untold, sync))
  {
    var s := Init().(sync := sync);
    assert Staging(s) + [ONE] == [ONE] && [] + [ONE] == [ONE];
    assert {} + {0 as nat} == {0 as nat};
    assert Step(s, Add(9, Staged)) == Leading({0}, {}, 0, Untold, sync);
    One(s, Add(9, Staged));
  }

  lemma SyncStarts()
    ensures Goes(Init(), [SyncBegin], Init().(sync := Syncing(Between, false)))
  {
    One(Init(), SyncBegin);
  }

  lemma SyncIsTold(s: Log)
    requires s.closed == [] && s.sync == Syncing(Fsync(0, Flight({}, 0)), false)
    ensures Goes(s, [SyncTold(false)],
                 s.(act := s.act.(dropped := s.act.unsynced, stuck := s.act.first + |s.act.images|), sync := Syncing(Between, true)))
  {
    One(s, SyncTold(false));
  }

  lemma SyncIssues(s: Log)
    requires s.closed == [] && s.sync == Syncing(Between, false)
    ensures Goes(s, [SyncIssue(0)], s.(sync := Syncing(Fsync(0, Launch(s.act)), false)))
  {
    One(s, SyncIssue(0));
  }

  const FAILED := Syncing(Between, true)

  const DATA_HIDDEN := Seg([ONE], [ONE], {0}, {0}, [1], 1, 1)

  lemma HidesData()
    ensures Goes(Leading({0}, {0}, 1, Untold, FAILED), [LeaderTold(true), DataSynced(Wrote)],
                 Heading(DATA_HIDDEN.(images := [0, 1], first := 0), {0}, Untold, FAILED, true))
  {
    var s, u := Leading({0}, {0}, 1, Untold, FAILED), Leading({0}, {0}, 1, Clean, FAILED);
    assert Step(s, LeaderTold(true)) == u;
    One(s, LeaderTold(true));
    assert ONE in u.inFlight && SpanDropped(u);
    assert [] + [ONE] == [ONE] && [0 as nat] + [1] == [0, 1];
    One(u, DataSynced(Wrote));
    Then(s, [LeaderTold(true)], u, [DataSynced(Wrote)], Step(u, DataSynced(Wrote)));
  }

  lemma AnswersOne(act: Seg, mark: set<nat>, fooled: bool)
    requires act.live == [ONE]
    ensures var s := Heading(act, mark, Clean, FAILED, fooled);
            var u := Init().(act := act, sync := FAILED, verdicts := map[0 := Done], stamp := 1,
                             fooled := fooled || (1 < act.stuck && act.first < 1));
            Goes(s, [HeaderSynced], u)
  {
    var s := Heading(act, mark, Clean, FAILED, fooled);
    assert Settle(s, s.mine + s.group, Done) == map[0 := Done];
    One(s, HeaderSynced);
  }

  lemma DataHiddenTail()
    ensures Goes(Leading({0}, {0}, 1, Untold, FAILED), [LeaderTold(true), DataSynced(Wrote), LeaderTold(true), HeaderSynced],
                 Init().(act := DATA_HIDDEN, sync := FAILED, verdicts := map[0 := Done], stamp := 1, fooled := true))
  {
    var s4, s6 := Leading({0}, {0}, 1, Untold, FAILED),
                  Heading(DATA_HIDDEN.(images := [0, 1], first := 0), {0}, Untold, FAILED, true);
    var s7 := Heading(DATA_HIDDEN, {0}, Clean, FAILED, true);
    var s8 := Init().(act := DATA_HIDDEN, sync := FAILED, verdicts := map[0 := Done], stamp := 1, fooled := true);
    HidesData();
    assert Step(s6, LeaderTold(true)) == s7;
    One(s6, LeaderTold(true));
    AnswersOne(DATA_HIDDEN, {0}, true);
    hide Goes;
    Then(s6, [LeaderTold(true)], s7, [HeaderSynced], s8);
    Then(s4, [LeaderTold(true), DataSynced(Wrote)], s6, [LeaderTold(true)] + [HeaderSynced], s8);
    assert [LeaderTold(true), DataSynced(Wrote)] + ([LeaderTold(true)] + [HeaderSynced])
        == [LeaderTold(true), DataSynced(Wrote), LeaderTold(true), HeaderSynced];
  }

  lemma DataHiddenRun()
    ensures Goes(Init(), [SyncBegin, SyncIssue(0), Add(9, Staged), SyncTold(false),
                          LeaderTold(true), DataSynced(Wrote), LeaderTold(true), HeaderSynced],
                 Init().(act := DATA_HIDDEN, sync := FAILED, verdicts := map[0 := Done], stamp := 1, fooled := true))
  {
    hide Goes;
    hide Step;
    var s1 := Init().(sync := Syncing(Between, false));
    var s2 := Init().(sync := Syncing(Fsync(0, Flight({}, 0)), false));
    var s3, s4 := Leading({0}, {}, 0, Untold, s2.sync), Leading({0}, {0}, 1, Untold, FAILED);
    var s8 := Init().(act := DATA_HIDDEN, sync := FAILED, verdicts := map[0 := Done], stamp := 1, fooled := true);
    SyncStarts();
    SyncIssues(s1);
    LeadsOne(s2.sync);
    SyncIsTold(s3);
    DataHiddenTail();
    var tail := [LeaderTold(true), DataSynced(Wrote), LeaderTold(true), HeaderSynced];
    Then(s3, [SyncTold(false)], s4, tail, s8);
    Then(s2, [Add(9, Staged)], s3, [SyncTold(false)] + tail, s8);
    Then(s1, [SyncIssue(0)], s2, [Add(9, Staged)] + ([SyncTold(false)] + tail), s8);
    Then(Init(), [SyncBegin], s1, [SyncIssue(0)] + ([Add(9, Staged)] + ([SyncTold(false)] + tail)), s8);
    assert [SyncBegin] + ([SyncIssue(0)] + ([Add(9, Staged)] + ([SyncTold(false)] + tail)))
        == [SyncBegin, SyncIssue(0), Add(9, Staged), SyncTold(false),
            LeaderTold(true), DataSynced(Wrote), LeaderTold(true), HeaderSynced];
  }

  /** A Sync's fsync takes the error for the record, the leader's answers clean, and Add returns nil: nothing has been
      latched, the only header that may be found covers the record, and a power loss may leave none of it. */
  lemma DataHidden(p: F.Platform, c: Content)
    requires Carries(p, c, [ONE])
    ensures var es := [SyncBegin, SyncIssue(0), Add(9, Staged), SyncTold(false),
                       LeaderTold(true), DataSynced(Wrote), LeaderTold(true), HeaderSynced];
            && Legal(Init(), es)
            && var s := Run(Init(), es);
               && 0 in s.verdicts && s.verdicts[0] == Done && !s.latched && s.act.images == [1] && s.act.live == [ONE]
               && Crash(p, c, s, [[]], [Believed(9)]) && !Survives(p, c, s, [[]], [Believed(9)], 0)
  {
    hide Crash;
    hide Survives;
    hide Step;
    hide Carries;
    DataHiddenRun();
    NothingBack(p, c, Init().(act := DATA_HIDDEN, sync := FAILED, verdicts := map[0 := Done], stamp := 1, fooled := true),
                Believed(9));
  }

  const HEADER_HIDDEN := Seg([ONE], [ONE], {}, {}, [0, 1], 0, 2)

  lemma PublishesOne()
    ensures Goes(Leading({0}, {}, 0, Untold, Syncing(Between, false)), [LeaderTold(true), DataSynced(Wrote)],
                 Heading(HEADER_HIDDEN.(stuck := 0), {}, Untold, Syncing(Between, false), false))
  {
    var s, u := Leading({0}, {}, 0, Untold, Syncing(Between, false)), Leading({}, {}, 0, Clean, Syncing(Between, false));
    assert Step(s, LeaderTold(true)) == u;
    One(s, LeaderTold(true));
    assert [] + [ONE] == [ONE] && [0 as nat] + [1] == [0, 1];
    One(u, DataSynced(Wrote));
    Then(s, [LeaderTold(true)], u, [DataSynced(Wrote)], Step(u, DataSynced(Wrote)));
  }

  lemma HeaderHiddenTail()
    ensures Goes(Heading(HEADER_HIDDEN.(stuck := 0), {}, Untold, Syncing(Between, false), false),
                 [SyncIssue(0), SyncTold(false), LeaderTold(true), HeaderSynced],
                 Init().(act := HEADER_HIDDEN, sync := FAILED, verdicts := map[0 := Done], stamp := 1, fooled := true))
  {
    var s4 := Heading(HEADER_HIDDEN.(stuck := 0), {}, Untold, Syncing(Between, false), false);
    var s5 := s4.(sync := Syncing(Fsync(0, Flight({}, 1)), false));
    var s6, s7 := Heading(HEADER_HIDDEN, {}, Untold, FAILED, false), Heading(HEADER_HIDDEN, {}, Clean, FAILED, false);
    var s8 := Init().(act := HEADER_HIDDEN, sync := FAILED, verdicts := map[0 := Done], stamp := 1, fooled := true);
    SyncIssues(s4);
    One(s5, SyncTold(false));
    assert Step(s6, LeaderTold(true)) == s7;
    One(s6, LeaderTold(true));
    AnswersOne(HEADER_HIDDEN, {}, false);
    hide Goes;
    Then(s6, [LeaderTold(true)], s7, [HeaderSynced], s8);
    Then(s5, [SyncTold(false)], s6, [LeaderTold(true)] + [HeaderSynced], s8);
    Then(s4, [SyncIssue(0)], s5, [SyncTold(false)] + ([LeaderTold(true)] + [HeaderSynced]), s8);
    assert [SyncIssue(0)] + ([SyncTold(false)] + ([LeaderTold(true)] + [HeaderSynced]))
        == [SyncIssue(0), SyncTold(false), LeaderTold(true), HeaderSynced];
  }

  lemma HeaderHiddenRun()
    ensures Goes(Init(), [SyncBegin, Add(9, Staged), LeaderTold(true), DataSynced(Wrote),
                          SyncIssue(0), SyncTold(false), LeaderTold(true), HeaderSynced],
                 Init().(act := HEADER_HIDDEN, sync := FAILED, verdicts := map[0 := Done], stamp := 1, fooled := true))
  {
    hide Goes;
    hide Step;
    var s1 := Init().(sync := Syncing(Between, false));
    var s2 := Leading({0}, {}, 0, Untold, Syncing(Between, false));
    var s4 := Heading(HEADER_HIDDEN.(stuck := 0), {}, Untold, Syncing(Between, false), false);
    var s8 := Init().(act := HEADER_HIDDEN, sync := FAILED, verdicts := map[0 := Done], stamp := 1, fooled := true);
    SyncStarts();
    LeadsOne(Syncing(Between, false));
    PublishesOne();
    HeaderHiddenTail();
    var mid, tail := [LeaderTold(true), DataSynced(Wrote)], [SyncIssue(0), SyncTold(false), LeaderTold(true), HeaderSynced];
    Then(s2, mid, s4, tail, s8);
    Then(s1, [Add(9, Staged)], s2, mid + tail, s8);
    Then(Init(), [SyncBegin], s1, [Add(9, Staged)] + (mid + tail), s8);
    assert [SyncBegin] + ([Add(9, Staged)] + (mid + tail))
        == [SyncBegin, Add(9, Staged), LeaderTold(true), DataSynced(Wrote),
            SyncIssue(0), SyncTold(false), LeaderTold(true), HeaderSynced];
  }

  /** The record is down, a Sync's fsync takes the error for its header, the leader's answers clean, and Add returns
      nil: the header before it may still be found, and recovers nothing. */
  lemma HeaderHidden(p: F.Platform, c: Content)
    requires Carries(p, c, [ONE])
    ensures var es := [SyncBegin, Add(9, Staged), LeaderTold(true), DataSynced(Wrote),
                       SyncIssue(0), SyncTold(false), LeaderTold(true), HeaderSynced];
            && Legal(Init(), es)
            && var s := Run(Init(), es);
               && 0 in s.verdicts && s.verdicts[0] == Done && !s.latched && s.act.unsynced == {} && s.act.live == [ONE]
               && Crash(p, c, s, [Region(p, c, [ONE])], [Believed(0)])
               && !Survives(p, c, s, [Region(p, c, [ONE])], [Believed(0)], 0)
  {
    hide Crash;
    hide Survives;
    hide Step;
    hide Carries;
    HeaderHiddenRun();
    NothingBack(p, c, Init().(act := HEADER_HIDDEN, sync := FAILED, verdicts := map[0 := Done], stamp := 1, fooled := true),
                Believed(0));
  }

  const COMMITTED := EMPTY.(images := [0, 0])

  lemma CommitWrites()
    ensures var s := Init().(sync := Syncing(Between, false));
            Goes(s, [CommitHeader(0, Wrote, true)], s.(act := COMMITTED, commit := Flushing(0, Flight({}, 1))))
  {
    var s := Init().(sync := Syncing(Between, false));
    assert [0 as nat] + [0] == [0, 0];
    One(s, CommitHeader(0, Wrote, true));
  }

  lemma CommitMissesError()
    ensures var s := Init().(act := COMMITTED, commit := Flushing(0, Flight({}, 1)), sync := Syncing(Fsync(0, Flight({}, 1)), false));
            Goes(s, [SyncTold(false), CommitTold(true)], Init().(act := COMMITTED.(stuck := 2), sync := FAILED))
  {
    var s := Init().(act := COMMITTED, commit := Flushing(0, Flight({}, 1)), sync := Syncing(Fsync(0, Flight({}, 1)), false));
    var u := s.(act := COMMITTED.(stuck := 2), sync := FAILED);
    assert Step(s, SyncTold(false)) == u;
    One(s, SyncTold(false));
    One(u, CommitTold(true));
    hide Goes;
    Then(s, [SyncTold(false)], u, [CommitTold(true)], Step(u, CommitTold(true)));
  }

  /** A commit's header is written, a Sync's fsync takes the error for it, and the commit's own fsync answers clean. */
  lemma CommitHeaderHidden()
    ensures var es := [SyncBegin, CommitHeader(0, Wrote, true), SyncIssue(0), SyncTold(false), CommitTold(true)];
            && Legal(Init(), es)
            && var s := Run(Init(), es); !s.latched && s.act.first == 0 && |s.act.images| == 2
  {
    hide Goes;
    hide Step;
    var s1 := Init().(sync := Syncing(Between, false));
    var s2 := s1.(act := COMMITTED, commit := Flushing(0, Flight({}, 1)));
    var s3 := s2.(sync := Syncing(Fsync(0, Flight({}, 1)), false));
    var s5 := Init().(act := COMMITTED.(stuck := 2), sync := FAILED);
    SyncStarts();
    CommitWrites();
    SyncIssues(s2);
    CommitMissesError();
    var tail := [SyncIssue(0)] + [SyncTold(false), CommitTold(true)];
    Then(s2, [SyncIssue(0)], s3, [SyncTold(false), CommitTold(true)], s5);
    Then(s1, [CommitHeader(0, Wrote, true)], s2, tail, s5);
    Then(Init(), [SyncBegin], s1, [CommitHeader(0, Wrote, true)] + tail, s5);
    assert [SyncBegin] + ([CommitHeader(0, Wrote, true)] + tail)
        == [SyncBegin, CommitHeader(0, Wrote, true), SyncIssue(0), SyncTold(false), CommitTold(true)];
    GoesTo(Init(), [SyncBegin, CommitHeader(0, Wrote, true), SyncIssue(0), SyncTold(false), CommitTold(true)], s5);
  }

  lemma GoesTo(s: Log, es: seq<Event>, u: Log)
    requires Goes(s, es, u)
    ensures Legal(s, es) && Run(s, es) == u
  {
  }

  lemma UnpublishedRun()
    ensures Goes(Init(), [Add(9, Staged), LeaderTold(true), DataSynced(Refused)],
                 Init().(act := EMPTY.(laid := [ONE]), verdicts := map[0 := Lost], stamp := 1))
  {
    var s1, s2 := Leading({0}, {}, 0, Untold, NoSync), Leading({}, {}, 0, Clean, NoSync);
    LeadsOne(NoSync);
    assert Init().(sync := NoSync) == Init();
    assert Step(s1, LeaderTold(true)) == s2;
    One(s1, LeaderTold(true));
    assert Settle(s2, Waiting(s2), Lost) == map[0 := Lost];
    One(s2, DataSynced(Refused));
    hide Goes;
    Then(s1, [LeaderTold(true)], s2, [DataSynced(Refused)], Step(s2, DataSynced(Refused)));
    Then(Init(), [Add(9, Staged)], s1, [LeaderTold(true)] + [DataSynced(Refused)], Step(s2, DataSynced(Refused)));
    assert [Add(9, Staged)] + ([LeaderTold(true)] + [DataSynced(Refused)])
        == [Add(9, Staged), LeaderTold(true), DataSynced(Refused)];
  }

  /** A span whose header was refused after its data fsync: Add answered with an ordinary error, and a torn header
      brings the record back whatever else the power loss left. */
  lemma RefusedComesBack(p: F.Platform, c: Content, img: seq<B.byte>)
    requires Carries(p, c, [ONE]) && CrashImage(p, c, EMPTY.(laid := [ONE]), img)
    ensures var es := [Add(9, Staged), LeaderTold(true), DataSynced(Refused)];
            && Legal(Init(), es)
            && var s := Run(Init(), es);
               && 0 in s.verdicts && s.verdicts[0] == Lost && s.closed == [] && s.act == EMPTY.(laid := [ONE])
    ensures [c(0)] <= Recovered(p, img, TornPage)
  {
    hide Step;
    UnpublishedRun();
    var g := EMPTY.(laid := [ONE]);
    assert [ONE][..1] == [ONE];
    DurableSurvives(p, c, g, img, 1);
    SalvageReaches(p, c, [ONE], img);
  }

  /** An empty region, or a header that covers nothing, brings nothing back. */
  lemma NothingBack(p: F.Platform, c: Content, s: Log, page: Page)
    requires s.closed == [] && s.act.laid == [ONE] && Carries(p, c, [ONE]) && page.Believed?
    requires (page.off == 9 && 1 in s.act.images && 0 in s.act.unsynced) || (page.off == 0 && 0 in s.act.images)
    ensures var img := if page.off == 9 then [] else Region(p, c, [ONE]);
            && Crash(p, c, s, [img], [page]) && !Survives(p, c, s, [img], [page], 0)
  {
    var img := if page.off == 9 then [] else Region(p, c, [ONE]);
    RegionIs(p, c, [ONE], 1);
    assert [ONE][..1] == [ONE] && [ONE][..0] == [] && [ONE][1..] == [];
    assert Sum([ONE]) == 9;
    assert F.Walk(p, []) == [];
    assert img[..0] == [];
    assert Recovered(p, img, page) == [];
  }

  // ----- settlement

  lemma InvOrdered(s: Log)
    requires Inv(s)
    ensures Ordered(Flat(s.closed) + Staging(s), s.stamp)
  {
  }

  /** Published in staging order, each record once. */
  lemma LogInOrder(es: seq<Event>)
    requires Legal(Init(), es)
    ensures var rs := Records(Run(Init(), es)); forall i, j | 0 <= i < j < |rs| :: rs[i].ticket < rs[j].ticket
  {
    hide Inv;
    hide Ordered;
    hide Flat;
    hide Run;
    InitHolds();
    RunKeeps(Init(), es);
    var s := Run(Init(), es);
    InvOrdered(s);
    assert Records(s) + (s.inFlight + s.pending) == Flat(s.closed) + Staging(s);
    PrefixOrdered(Records(s), Flat(s.closed) + Staging(s), s.stamp);
    OrderedMeans(Records(s), s.stamp);
  }

  lemma OrderedMeans(rs: seq<Rec>, stamp: nat)
    requires Ordered(rs, stamp)
    ensures forall i, j | 0 <= i < j < |rs| :: rs[i].ticket < rs[j].ticket
  {
  }

  /** nil means in the log; an ordinary error means not in it, now or ever. */
  lemma VerdictsMeanIt(es: seq<Event>, t: nat)
    requires Legal(Init(), es) && t in Run(Init(), es).verdicts
    ensures var s := Run(Init(), es);
            && (s.verdicts[t] == Done ==> t in Tickets(Records(s)))
            && (s.verdicts[t] == Lost ==> t !in Tickets(Records(s)))
  {
    InitHolds();
    RunKeeps(Init(), es);
  }

  /** Every caller has exactly one answer or is still waiting; when the leader leaves, nobody is. */
  lemma NobodyLeftWaiting(es: seq<Event>, t: nat)
    requires Legal(Init(), es) && t < Run(Init(), es).stamp
    ensures var s := Run(Init(), es);
            && (t in s.verdicts <==> t !in Waiting(s))
            && (s.phase.Idle? ==> t in s.verdicts && Drained(s))
  {
    InitHolds();
    RunKeeps(Init(), es);
    var s := Run(Init(), es);
    GivenIs(s.stamp, t);
    if s.phase.Idle? {
      IdleShape(s);
    }
  }

  lemma {:induction false} GivenIs(n: nat, t: nat)
    requires t < n
    ensures t in Given(n)
  {
    if t < n - 1 {
      GivenIs(n - 1, t);
    }
  }

  ghost predicate Sticks(s: Log, u: Log) {
    && (forall t <- s.verdicts :: t in u.verdicts && u.verdicts[t] == s.verdicts[t])
    && Records(s) <= Records(u)
  }

  lemma FailSticks(s: Log, v: Verdict)
    requires Waiters(s)
    ensures Sticks(s, Fail(s, v))
  {
    hide Flat;
    hide Given;
    hide Tickets;
  }

  lemma PublishSticks(s: Log, header: HeaderAns)
    requires Waiters(s)
    ensures Sticks(s, Publish(s, header))
  {
    hide Flat;
    hide Given;
    hide Tickets;
    assert Flat(s.closed) + (s.act.live + s.inFlight) == Records(s) + s.inFlight;
  }

  lemma DataBackSticks(s: Log, header: HeaderAns)
    requires Waiters(s) && s.phase.DataSync?
    ensures Sticks(s, DataBack(s, header))
  {
    FailSticks(Latch(s), Poisoned);
    hide Publish;
    hide Waiters;
    hide SpanDropped;
    hide Flat;
    var s1 := s.(fooled := s.fooled || (!header.Refused? && SpanDropped(s)));
    WaitersCarry(s, s1);
    PublishSticks(s1, header);
  }

  lemma WaitersCarry(s: Log, u: Log)
    requires Waiters(s) && u == s.(fooled := u.fooled)
    ensures Waiters(u)
  {
    hide Given;
    hide Tickets;
  }

  lemma HeaderBackSticks(s: Log)
    requires Waiters(s) && s.phase.HeaderSync?
    ensures Sticks(s, HeaderBack(s))
  {
    FailSticks(Latch(s), Poisoned);
    hide Given;
    hide Tickets;
    hide Flat;
    hide HeaderDropped;
  }

  lemma AnswerSticks(s: Log, v: Verdict)
    requires Inv(s)
    ensures Sticks(s, Answer(s, v))
  {
    NewTicket(s);
    hide Inv;
    hide Flat;
  }

  lemma AddSticks(s: Log, len: FrameLen, ans: StageAns)
    requires Inv(s) && Enabled(s, Add(len, ans))
    ensures Sticks(s, Step(s, Add(len, ans)))
  {
    NewTicket(s);
    hide Inv;
    hide Tickets;
    hide Flat;
  }

  lemma AsideSticks(s: Log, e: Event)
    requires Enabled(s, e) && !e.Refuse? && !e.Add? && !e.DataSynced? && !e.HeaderSynced?
    ensures Sticks(s, Step(s, e))
  {
    SegmentsKeep(s, e);
    hide Step;
  }

  /** Segments close, are fsynced and have their headers rewritten with their records as they were. */
  lemma SegmentsKeep(s: Log, e: Event)
    requires Enabled(s, e) && !e.Refuse? && !e.Add? && !e.DataSynced? && !e.HeaderSynced?
    ensures Step(s, e).verdicts == s.verdicts && Records(Step(s, e)) == Records(s)
  {
    match e
    case Batch(lens) => BatchStages(s, lens);
    case CommitHeader(i, header, flush) => RewriteRecords(s, i, header, flush);
    case CommitTold(ok) => CommitToldRecords(s, ok);
    case SyncTold(ok) => SyncToldRecords(s, ok);
    case NewSegment => FlatSnoc(s.closed, s.act);
    case _ =>
  }

  lemma PutRecords(s: Log, i: nat, g: Seg)
    requires i <= |s.closed| && g.live == SegAt(s, i).live
    ensures PutSeg(s, i, g).verdicts == s.verdicts && Records(PutSeg(s, i, g)) == Records(s)
  {
    if i < |s.closed| {
      FlatPut(s.closed, i, g);
    }
  }

  lemma RewriteRecords(s: Log, i: nat, header: HeaderAns, flush: bool)
    requires i <= |s.closed|
    ensures Rewrite(s, i, header, flush).verdicts == s.verdicts && Records(Rewrite(s, i, header, flush)) == Records(s)
  {
    PutRecords(s, i, Headed(SegAt(s, i), |SegAt(s, i).live|));
  }

  lemma CommitToldRecords(s: Log, ok: bool)
    requires Enabled(s, CommitTold(ok))
    ensures CommitAnswered(s, ok).verdicts == s.verdicts && Records(CommitAnswered(s, ok)) == Records(s)
  {
    var i := s.commit.seg;
    AnsweredSeg(SegAt(s, i), s.commit.fl, ok);
    PutRecords(s, i, Answered(SegAt(s, i), s.commit.fl, ok));
    hide Answered;
  }

  lemma SyncToldRecords(s: Log, ok: bool)
    requires Enabled(s, SyncTold(ok))
    ensures SyncAnswered(s, ok).verdicts == s.verdicts && Records(SyncAnswered(s, ok)) == Records(s)
  {
    var i := s.sync.on.seg;
    AnsweredSeg(SegAt(s, i), s.sync.on.fl, ok);
    PutRecords(s, i, Answered(SegAt(s, i), s.sync.on.fl, ok));
    hide Answered;
  }

  /** An answer given is never changed and a record published never leaves, whatever happens next. */
  lemma AnswersStick(s: Log, e: Event)
    requires Inv(s) && Enabled(s, e)
    ensures Sticks(s, Step(s, e))
  {
    hide Inv;
    hide Sticks;
    hide Waiters;
    hide Answer;
    InvBooks(s);
    match e
    case DataSynced(header) => DataBackSticks(s, header);
    case HeaderSynced => HeaderBackSticks(s);
    case Refuse => AnswerSticks(s, Lost);
    case Add(len, ans) => AddSticks(s, len, ans);
    case _ => AsideSticks(s, e);
  }

  lemma InvBooks(s: Log)
    requires Inv(s)
    ensures Waiters(s) && Shape(s)
  {
  }

  /** A span, a batch's included, is published whole, or not at all, and nothing else moves into the log. */
  lemma SpansAreWhole(s: Log, e: Event)
    requires Inv(s) && Enabled(s, e)
    ensures Records(Step(s, e)) == Records(s) || Records(Step(s, e)) == Records(s) + s.inFlight
    ensures e.Batch? ==> Records(Step(s, e)) == Records(s) && |Step(s, e).inFlight| == |e.lens|
  {
    if e.Refuse? || e.Add? || e.DataSynced? || e.HeaderSynced? {
      hide Inv;
      SpanMoves(s, e);
    } else {
      SegmentsKeep(s, e);
      if e.Batch? {
        IdleShape(s);
        BatchLength(s, e.lens);
      }
      hide Inv;
    }
  }

  lemma SpanMoves(s: Log, e: Event)
    requires Enabled(s, e) && (e.Refuse? || e.Add? || e.DataSynced? || e.HeaderSynced?)
    ensures Records(Step(s, e)) == Records(s) || Records(Step(s, e)) == Records(s) + s.inFlight
  {
    hide Flat;
    hide Settle;
    hide SpanDropped;
    hide HeaderDropped;
    assert Flat(s.closed) + (s.act.live + s.inFlight) == Records(s) + s.inFlight;
  }

  lemma {:induction false} BatchLength(s: Log, lens: seq<FrameLen>)
    ensures |StageAll(s, lens).pending| == |s.pending| + |lens|
    decreases |lens|
  {
    if lens != [] {
      BatchLength(StageRecord(s, lens[0]), lens[1..]);
    }
  }

  predicate AllGot(s: Log, ts: set<nat>, v: Verdict) {
    forall t <- ts :: t in s.verdicts && s.verdicts[t] == v
  }

  /** The callers of one span are answered together and alike. */
  lemma SpanSharesVerdict(s: Log, e: Event)
    requires Inv(s) && (e.DataSynced? || e.HeaderSynced?) && Enabled(s, e)
    ensures var u := Step(s, e);
            || (Waiting(u) == Waiting(s) && u.verdicts == s.verdicts)
            || (exists v :: AllGot(u, s.mine + s.group, v))
  {
    hide Inv;
    hide SpanDropped;
    hide HeaderDropped;
    var u := Step(s, e);
    if !(Waiting(u) == Waiting(s) && u.verdicts == s.verdicts) {
      if u.phase.Idle? && (u.latched || e.DataSynced?) {
        var v := if u.latched then Poisoned else Lost;
        assert AllGot(u, s.mine + s.group, v);
      } else {
        assert AllGot(u, s.mine + s.group, Done);
      }
    }
  }

  // ----- quiescing

  /** Fsyncs the leader still has to come back from before it leaves, if no one stages behind it; a batch never lets
      the lock go. */
  function LeaderWork(s: Log): nat {
    if s.held then 0 else
      match s.phase
      case Idle => 0
      case DataSync(_, _) => 2 + if s.curGroup == {} then 0 else 2
      case HeaderSync(_, _) => 1 + if s.curGroup == {} then 0 else 2
  }

  /** A leader comes back for the lock. */
  predicate LeaderStep(s: Log, e: Event) {
    !s.held && (e.DataSynced? || e.HeaderSynced?)
  }

  lemma BarrierHolds(s: Log, e: Event)
    requires Inv(s) && Enabled(s, e) && s.quiescing > 0
    ensures LeaderWork(Step(s, e)) + (if LeaderStep(s, e) then 1 else 0) <= LeaderWork(s)
  {
    HeldAlone(s);
    hide Inv;
    if e.DataSynced? {
      DataBackWork(s, e.header);
    } else if e.HeaderSynced? {
      HeaderBackWork(s);
    } else {
      hide LeaderWork;
      AsideWork(s, e);
    }
  }

  /** While a batch holds the lock nobody stages behind it. */
  lemma HeldAlone(s: Log)
    requires Inv(s)
    ensures s.held ==> s.curGroup == {}
  {
    InvBooks(s);
    OneTicket(Rec(0, 9));
    hide Inv;
  }

  lemma DataBackWork(s: Log, header: HeaderAns)
    requires s.phase.DataSync? && (s.held ==> s.curGroup == {})
    ensures LeaderWork(DataBack(s, header)) + (if s.held then 0 else 1) <= LeaderWork(s)
  {
    var s1 := s.(fooled := s.fooled || (!header.Refused? && SpanDropped(s)));
    hide SpanDropped;
    assert Publish(s1, header).phase.Idle? || (header.Wrote? && Publish(s1, header).curGroup == s.curGroup);
  }

  lemma HeaderBackWork(s: Log)
    requires s.phase.HeaderSync? && (s.held ==> s.curGroup == {})
    ensures LeaderWork(HeaderBack(s)) + (if s.held then 0 else 1) <= LeaderWork(s)
  {
    hide HeaderDropped;
  }

  /** No other step moves the leader's span, or lets anyone stage behind it. */
  lemma AsideWork(s: Log, e: Event)
    requires Enabled(s, e) && s.quiescing > 0 && !e.DataSynced? && !e.HeaderSynced?
    ensures LeaderWork(Step(s, e)) <= LeaderWork(s)
  {
    hide Answered;
    hide Settle;
    hide Flat;
    hide StageAll;
  }

  ghost predicate Quiescing(s: Log, es: seq<Event>)
    requires Legal(s, es)
    decreases |es|
  {
    es != [] ==> s.quiescing > 0 && Quiescing(Step(s, es[0]), es[1..])
  }

  function LeaderSteps(s: Log, es: seq<Event>): nat
    requires Legal(s, es)
    decreases |es|
  {
    if es == [] then 0 else (if LeaderStep(s, es[0]) then 1 else 0) + LeaderSteps(Step(s, es[0]), es[1..])
  }

  lemma {:induction false} LeaderBound(s: Log, es: seq<Event>)
    requires Inv(s) && Legal(s, es) && Quiescing(s, es)
    ensures LeaderSteps(s, es) <= LeaderWork(s)
    decreases |es|
  {
    hide Inv;
    hide Step;
    hide LeaderWork;
    if es != [] {
      StepKeeps(s, es[0]);
      BarrierHolds(s, es[0]);
      LeaderBound(Step(s, es[0]), es[1..]);
    }
  }

  /** Once anyone waits to quiesce, the leader has at most the span it is in and one more, four fsyncs, and then the
      queue is drained or a batch has it. */
  lemma QuiesceIsBounded(es: seq<Event>, more: seq<Event>)
    requires Legal(Init(), es) && Legal(Run(Init(), es), more) && Quiescing(Run(Init(), es), more)
    ensures var s := Run(Init(), es);
            && LeaderSteps(s, more) <= 4
            && (LeaderSteps(s, more) == LeaderWork(s) ==> Drained(Run(s, more)) || Run(s, more).held)
  {
    InitHolds();
    RunKeeps(Init(), es);
    var s := Run(Init(), es);
    LeaderBound(s, more);
    if LeaderSteps(s, more) == LeaderWork(s) {
      LeaderDone(s, more);
    }
  }

  lemma {:induction false} LeaderDone(s: Log, es: seq<Event>)
    requires Inv(s) && Legal(s, es) && Quiescing(s, es) && LeaderSteps(s, es) == LeaderWork(s)
    ensures Drained(Run(s, es)) || Run(s, es).held
    decreases |es|
  {
    if es == [] {
      if !s.held {
        IdleShape(s);
      }
    } else {
      hide Inv;
      hide Drained;
      hide Step;
      hide LeaderWork;
      StepKeeps(s, es[0]);
      BarrierHolds(s, es[0]);
      LeaderBound(Step(s, es[0]), es[1..]);
      LeaderDone(Step(s, es[0]), es[1..]);
    }
  }

  // ----- with nothing failing

  predicate Succeeds(e: Event) {
    match e
    case Refuse => false
    case Add(_, ans) => ans == Staged
    case LeaderTold(ok) => ok
    case DataSynced(header) => header == Wrote
    case CommitHeader(_, header, _) => header != Torn
    case CommitTold(ok) => ok
    case SyncTold(ok) => ok
    case Poison => false
    case _ => true
  }

  /** Nothing has latched, no error is on its way, and no caller has had one. */
  ghost predicate Healthy(s: Log) {
    !s.latched && !Owing(s) && forall t <- s.verdicts :: s.verdicts[t] == Done
  }

  lemma HealthyStep(s: Log, e: Event)
    requires Enabled(s, e) && Healthy(s) && Succeeds(e)
    ensures Healthy(Step(s, e))
  {
    if e.Batch? {
      StagingAnswersNobody(s, e.lens);
    }
  }

  lemma {:induction false} StagingAnswersNobody(s: Log, lens: seq<FrameLen>)
    ensures var u := StageAll(s, lens); u.verdicts == s.verdicts && u.latched == s.latched && u.sync == s.sync
    decreases |lens|
  {
    if lens != [] {
      StagingAnswersNobody(StageRecord(s, lens[0]), lens[1..]);
    }
  }

  lemma {:induction false} HealthyRun(s: Log, es: seq<Event>)
    requires Legal(s, es) && Healthy(s) && forall e <- es :: Succeeds(e)
    ensures Healthy(Run(s, es))
    decreases |es|
  {
    hide Healthy;
    hide Step;
    if es != [] {
      assert es[0] in es && forall e <- es[1..] :: e in es;
      HealthyStep(s, es[0]);
      HealthyRun(Step(s, es[0]), es[1..]);
    }
  }

  /** With nothing refused and nothing failing, every Add that has been answered was answered nil, and once the leader
      has left every one has been, with its record in the log. */
  lemma FaultFreeAdds(es: seq<Event>, t: nat)
    requires Legal(Init(), es) && (forall e <- es :: Succeeds(e)) && t < Run(Init(), es).stamp
    ensures var s := Run(Init(), es);
            && !s.latched && (t in s.verdicts ==> s.verdicts[t] == Done && t in Tickets(Records(s)))
            && (s.phase.Idle? ==> t in s.verdicts)
  {
    HealthyRun(Init(), es);
    NobodyLeftWaiting(es, t);
    if t in Run(Init(), es).verdicts {
      VerdictsMeanIt(es, t);
    }
  }

  // ----- with no durability failure

  /** Refused, a write that failed and was undone, or clean: no fsync failed, and nothing was left that could not be. */
  predicate Harmless(e: Event) {
    match e
    case Add(_, ans) => ans != StageLatched
    case LeaderTold(ok) => ok
    case DataSynced(header) => header != Torn
    case CommitHeader(_, header, _) => header != Torn
    case CommitTold(ok) => ok
    case SyncTold(ok) => ok
    case Poison => false
    case _ => true
  }

  ghost predicate Usable(s: Log) {
    !s.latched && !Owing(s) && forall t <- s.verdicts :: s.verdicts[t] != Poisoned
  }

  /** The leader's steps and a batch's, which may answer callers. */
  lemma UsableBack(s: Log, e: Event)
    requires Enabled(s, e) && Usable(s) && Harmless(e) && (e.DataSynced? || e.HeaderSynced? || e.Batch?)
    ensures Usable(Step(s, e))
  {
    hide Headed;
    hide Launch;
    if e.Batch? {
      StagingAnswersNobody(s, e.lens);
    }
  }

  lemma UsableAdd(s: Log, e: Event)
    requires Enabled(s, e) && Usable(s) && Harmless(e) && (e.Add? || e.Refuse?)
    ensures Usable(Step(s, e))
  {
    hide Launch;
    hide Staging;
  }

  lemma UsableStep(s: Log, e: Event)
    requires Enabled(s, e) && Usable(s) && Harmless(e)
    ensures Usable(Step(s, e))
  {
    if e.DataSynced? || e.HeaderSynced? || e.Batch? {
      hide Step;
      UsableBack(s, e);
    } else if e.Add? || e.Refuse? {
      hide Step;
      UsableAdd(s, e);
    } else {
      hide Answered;
      hide Headed;
      hide Launch;
    }
  }

  lemma {:induction false} UsableRun(s: Log, es: seq<Event>)
    requires Legal(s, es) && Usable(s) && forall e <- es :: Harmless(e)
    ensures Usable(Run(s, es))
    decreases |es|
  {
    hide Usable;
    hide Step;
    if es != [] {
      assert es[0] in es && forall e <- es[1..] :: e in es;
      UsableStep(s, es[0]);
      UsableRun(Step(s, es[0]), es[1..]);
    }
  }

  /** Writes that fail and are undone poison nothing, over any run: the queue stays usable, and every answer is exact, a
      nil for a record in the log and an error for one that is not. */
  lemma OrdinaryFailuresDoNotPoison(es: seq<Event>, t: nat)
    requires Legal(Init(), es) && forall e <- es :: Harmless(e)
    ensures var s := Run(Init(), es);
            && !s.latched && (t in s.verdicts ==> (s.verdicts[t] == Done <==> t in Tickets(Records(s))))
  {
    UsableRun(Init(), es);
    if t in Run(Init(), es).verdicts {
      VerdictsMeanIt(es, t);
    }
  }
}
