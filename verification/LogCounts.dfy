/** Record counts: exact while every frame decoded crosses exactly one record that was laid down. */
module LogCounts {
  import opened Ints
  import opened Log
  import opened LogWalk
  import opened LogCommit
  import opened LogOps
  import opened LogSafety
  import opened LogWrites
  import opened LogRuns

  /** How many of the records stop at or before p. */
  function Rank(ends: seq<int>, p: int): nat {
    if ends == [] then 0 else (if ends[0] <= p then 1 else 0) + Rank(ends[1..], p)
  }

  lemma {:induction false} RankGrows(ends: seq<int>, p: int, q: int)
    requires p <= q
    ensures Rank(ends, p) <= Rank(ends, q) <= |ends|
  {
    if ends != [] {
      RankGrows(ends[1..], p, q);
    }
  }

  lemma {:induction false} RankOfAll(ends: seq<int>, p: int)
    requires forall e <- ends :: e <= p
    ensures Rank(ends, p) == |ends|
  {
    if ends != [] {
      assert ends[0] in ends;
      assert forall e <- ends[1..] :: e in ends;
      RankOfAll(ends[1..], p);
    }
  }

  lemma {:induction false} RankOfNone(ends: seq<int>, p: int)
    requires forall e <- ends :: e > p
    ensures Rank(ends, p) == 0
  {
    if ends != [] {
      assert ends[0] in ends;
      assert forall e <- ends[1..] :: e in ends;
      RankOfNone(ends[1..], p);
    }
  }

  lemma {:induction false} RankJoins(a: seq<int>, b: seq<int>, p: int)
    ensures Rank(a + b, p) == Rank(a, p) + Rank(b, p)
  {
    if a == [] {
      assert a + b == b;
    } else {
      assert (a + b)[1..] == a[1..] + b;
      RankJoins(a[1..], b, p);
    }
  }

  ghost predicate Ascending(ends: seq<int>) {
    forall i, j | 0 <= i < j < |ends| :: ends[i] < ends[j]
  }

  lemma {:induction false} RankSplits(ends: seq<int>, p: int)
    requires Ascending(ends)
    ensures var k := Rank(ends, p);
            k <= |ends| && (forall i | 0 <= i < k :: ends[i] <= p) && forall i | k <= i < |ends| :: ends[i] > p
  {
    if ends != [] {
      if ends[0] <= p {
        RankSplits(ends[1..], p);
      } else {
        RankOfNone(ends, p);
      }
    }
  }

  /** In an ascending layout the rank is found by looking at its neighbours. */
  lemma RankIs(ends: seq<int>, p: int, k: nat)
    requires Ascending(ends) && k <= |ends| && (k > 0 ==> ends[k - 1] <= p) && (k < |ends| ==> p < ends[k])
    ensures Rank(ends, p) == k
  {
    RankSplits(ends, p);
  }

  function RankIn(f: Seg, off: int): nat {
    Rank(f.ends, off - f.base)
  }

  /** A record starts, or would start, at p. */
  predicate Mark(f: Seg, p: int) {
    p == 0 || p in f.ends
  }

  /** Records follow one another from the region's start to the end of the published extent. */
  ghost predicate Tiled(f: Seg) {
    && f.size >= 0 && Ascending(f.ends) && (forall e <- f.ends :: 0 < e <= f.size) && Mark(f, f.size)
  }

  /** A header is true of records laid down: they fill its extent, and its counts are of them and of those behind its
      cursor. */
  ghost predicate Tells(ends: seq<int>, h: Hdr) {
    var c, w := h.commitCur - HEADER_SIZE, h.writeCur - HEADER_SIZE;
    && |ends| == h.written && 0 <= c <= w && Ascending(ends) && (forall e <- ends :: 0 < e <= w)
    && (w == 0 || w in ends) && (c == 0 || c in ends) && h.committed == Rank(ends, c)
  }

  /** The records a header covers: the first ones of the segment, or all of them and a span behind them whose own
      header tore. */
  function RecordsUnder(f: Seg, h: Hdr): seq<int> {
    if 0 <= h.written <= |f.ends| then f.ends[..h.written] else f.ends + f.torn
  }

  /** A header that may be found is true of the records it covers. */
  ghost predicate Truthful(f: Seg, h: Hdr) {
    h.writeCur - HEADER_SIZE <= f.capacity && Tells(RecordsUnder(f, h), h)
  }

  ghost predicate Imaged(f: Seg) {
    forall h <- f.images :: Truthful(f, h)
  }

  /** The records are the ones counted, in memory and in every header. */
  ghost predicate Laid(f: Seg) {
    && |f.ends| == f.written && Tiled(f) && f.size <= f.capacity
    && f.hdr.writeCur == HEADER_SIZE + f.size && f.hdr.written == f.written && Imaged(f)
  }

  /** The cursor stands at a record's start and the count is the records behind it, in memory and in the
      resident header. */
  ghost predicate SegCounted(f: Seg, c: int) {
    && Laid(f)
    && Mark(f, f.Pos(c)) && f.committed == Rank(f.ends, f.Pos(c))
    && 0 <= f.hdr.commitCur - HEADER_SIZE <= f.size
    && Mark(f, f.hdr.commitCur - HEADER_SIZE) && f.hdr.committed == Rank(f.ends, f.hdr.commitCur - HEADER_SIZE)
  }

  lemma StampTells(f: Seg, c: int)
    requires SegCounted(f, c) && f.base <= c
    ensures Tells(f.ends, f.hdr.(commitCur := HEADER_SIZE + Min(c - f.base, f.size), committed := f.committed))
  {
    hide Rank;
    hide Imaged;
    hide Ascending;
  }

  lemma FullTells(f: Seg, c: int)
    requires SegCounted(f, c)
    ensures Tells(f.ends, FullHdr(f))
  {
    RankOfAll(f.ends, f.size);
    hide Rank;
    hide Imaged;
    hide Ascending;
  }

  /** A header true of the whole segment joins those that may be found. */
  lemma ImagedMore(f: Seg, g: Seg, h: Hdr)
    requires Imaged(f) && g.ends == f.ends && g.torn == f.torn && g.capacity == f.capacity
    requires g.images == f.images || (g.images == f.images + [h] && Tells(f.ends, h) && h.writeCur - HEADER_SIZE <= f.capacity)
    ensures Imaged(g)
  {
    hide Tells;
    assert f.ends[..|f.ends|] == f.ends;
    forall k <- g.images ensures Truthful(g, k) {
      if k in f.images {
        assert Truthful(f, k);
      } else {
        TellsLength(f.ends, h);
      }
    }
  }

  /** A segment with one header, true of all of it. */
  lemma OneImage(f: Seg, h: Hdr)
    requires f.images == [h] && Tells(f.ends, h) && h.writeCur - HEADER_SIZE <= f.capacity
    ensures Imaged(f)
  {
    ImagedMore(f.(images := []), f, h);
  }

  lemma TellsLength(ends: seq<int>, h: Hdr)
    requires Tells(ends, h)
    ensures h.written == |ends|
  {
  }

  predicate Holds(f: Seg, a: int, b: int) {
    f.base <= a < b <= f.End()
  }

  /** From a to b lies exactly one record that was laid down. */
  predicate OneRecord(f: Seg, a: int, b: int) {
    var k := RankIn(f, a);
    Mark(f, a - f.base) && k < |f.ends| && f.ends[k] == b - f.base
  }

  lemma RecordRanks(f: Seg, a: int, b: int)
    requires Ascending(f.ends) && OneRecord(f, a, b)
    ensures RankIn(f, b) == RankIn(f, a) + 1 && Mark(f, b - f.base)
  {
    RankSplits(f.ends, a - f.base);
    RankIs(f.ends, b - f.base, RankIn(f, a) + 1);
  }

  predicate EntryCounted(r: Reservation, f: Seg) {
    if r.corrupt then r.written == RankIn(f, r.end) && Mark(f, r.start - f.base) && Mark(f, r.end - f.base)
    else OneRecord(f, r.start, r.end)
  }

  ghost predicate LedgerCounted(s: St) {
    && (forall r <- s.reserved, f <- s.files :: r.end > s.commitOff && Holds(f, r.start, r.end) ==> EntryCounted(r, f))
    && (s.lastFrameEnd != 0 ==>
          forall f <- s.files :: Holds(f, s.lastFrameAt, s.lastFrameEnd) ==> OneRecord(f, s.lastFrameAt, s.lastFrameEnd))
  }

  /** An offset that falls inside no record. */
  ghost predicate Between(fs: seq<Seg>, off: int) {
    forall i | 0 <= i < |fs| :: Mark(fs[i], fs[i].Pos(off))
  }

  ghost predicate Counted(s: St) {
    (forall f <- s.files :: SegCounted(f, s.commitOff)) && Between(s.files, s.headOff) && LedgerCounted(s)
  }

  /** What is framed where a record was laid down ends where that record ends, if it frames anything at all. */
  predicate FramesTrue(f: Seg, off: int, ans: FrameAns) {
    f.base <= off && Mark(f, off - f.base) && Decode(f, off, ans).End? ==> OneRecord(f, off, Decode(f, off, ans).next)
  }

  ghost predicate Honest(env: Env, fs: seq<Seg>) {
    forall f <- fs, off :: FramesTrue(f, off, env.frame(off))
  }

  ghost predicate HonestHead(env: Env, s: St) {
    forall f <- s.files :: FramesTrue(f, s.headOff, env.headFrame)
  }

  // ----- the walk

  ghost predicate SegsCounted(fs: seq<Seg>, c: int) {
    forall i | 0 <= i < |fs| :: SegCounted(fs[i], c)
  }

  ghost predicate StoreCounted(s: St) {
    SegsCounted(s.files, s.commitOff) && Between(s.files, s.headOff)
  }

  /** An offset at a mark of the segment that holds it falls inside no record of any. */
  lemma MarkIsBetween(fs: seq<Seg>, i: nat, off: int, c: int)
    requires Ordered(fs) && SegsCounted(fs, c) && i < |fs| && fs[i].base <= off <= fs[i].End() && Mark(fs[i], off - fs[i].base)
    ensures Between(fs, off)
  {
    forall j | 0 <= j < |fs| ensures Mark(fs[j], fs[j].Pos(off)) {
      assert SegCounted(fs[j], c);
      if j < i {
        assert fs[j].End() <= fs[i].base;
      } else if j > i {
        assert fs[i].End() <= fs[j].base;
      }
    }
  }

  lemma EndIsBetween(fs: seq<Seg>, i: nat, c: int)
    requires Ordered(fs) && SegsCounted(fs, c) && i < |fs|
    ensures Between(fs, fs[i].End())
  {
    assert SegCounted(fs[i], c);
    MarkIsBetween(fs, i, fs[i].End(), c);
  }

  lemma CommitIsBetween(fs: seq<Seg>, c: int)
    requires SegsCounted(fs, c)
    ensures Between(fs, c)
  {
    forall j | 0 <= j < |fs| ensures Mark(fs[j], fs[j].Pos(c)) {
      assert SegCounted(fs[j], c);
    }
  }

  lemma ShapeIsBetween(fs: seq<Seg>, gs: seq<Seg>, off: int)
    requires SameShape(fs, gs) && Between(fs, off)
    ensures Between(gs, off)
  {
    forall j | 0 <= j < |gs| ensures Mark(gs[j], gs[j].Pos(off)) {
      assert SameSeg(fs[j], gs[j]) && Mark(fs[j], fs[j].Pos(off));
    }
  }

  /** One file's count moves with the cursor inside it; the others stand still. */
  lemma OthersCounted(fs: seq<Seg>, i: nat, f: Seg, c: int, c': int)
    requires Ordered(fs) && i < |fs| && fs[i].base <= c <= fs[i].End() && fs[i].base <= c' <= fs[i].End()
    requires SegsCounted(fs, c) && SegCounted(f, c')
    ensures SegsCounted(fs[i := f], c')
  {
    forall j | 0 <= j < |fs| && j != i ensures SegCounted(fs[j], c') {
      PosFixed(fs, i, j, c, c');
    }
  }

  lemma CrossedCounted(s: St, i: nat, next: int, n: int)
    requires Ordered(s.files) && i < |s.files| && s.files[i].base <= s.commitOff <= next <= s.files[i].End()
    requires SegsCounted(s.files, s.commitOff)
    requires RankIn(s.files[i], next) == RankIn(s.files[i], s.commitOff) + n
    requires Mark(s.files[i], next - s.files[i].base)
    ensures SegsCounted(Crossed(s, i, next, n).files, next)
  {
    hide SegCounted;
    hide RankIn;
    hide Mark;
    hide Ordered;
    hide Crossed;
    var f := s.files[i];
    CrossedFiles(s, i, next, n);
    CrossedSeg(f, s.commitOff, next, n);
    hide SegsCounted;
    OthersCounted(s.files, i, f.(committed := f.committed + n), s.commitOff, next);
  }

  lemma CrossedFiles(s: St, i: nat, next: int, n: int)
    requires i < |s.files|
    ensures Crossed(s, i, next, n).files == s.files[i := s.files[i].(committed := s.files[i].committed + n)]
  {
  }

  lemma CrossedSeg(f: Seg, c: int, next: int, n: int)
    requires SegCounted(f, c) && f.base <= c <= next <= f.End()
    requires RankIn(f, next) == RankIn(f, c) + n && Mark(f, next - f.base)
    ensures SegCounted(f.(committed := f.committed + n), next)
  {
    hide Rank;
    hide Ascending;
    hide Tells;
    ImagedMore(f, f.(committed := f.committed + n), f.hdr);
    hide Imaged;
  }

  lemma PersistMoves(s: St, cur: nat, perOp: bool, env: Env)
    requires cur < |s.files|
    ensures var t, f := Persist(s, cur, perOp, env).0, s.files[cur];
            && |t.files| == |s.files| && t.files == s.files[cur := t.files[cur]] && t.headOff == s.headOff
            && var g := t.files[cur];
            && g.ends == f.ends && g.torn == f.torn && g.size == f.size && g.base == f.base
            && g.written == f.written && g.capacity == f.capacity
            && (g.images == f.images || g.images == f.images + [Stamp(s, cur)])
            && ((t.commitOff == s.commitOff && g.committed == f.committed && g.hdr == Stamp(s, cur))
                || (t.commitOff == RollbackTo(f) && g.committed == f.hdr.committed && g.hdr == f.hdr))
  {
    WriteOutcome(Put(s, cur, s.files[cur].(hdr := Stamp(s, cur))), cur, env.persist(s.files[cur].num));
    hide WriteHeader;
  }

  lemma PersistCounted(s: St, cur: nat, perOp: bool, env: Env)
    requires Ordered(s.files) && cur < |s.files| && StoreCounted(s)
    requires s.files[cur].base <= s.commitOff <= s.files[cur].End()
    ensures StoreCounted(Persist(s, cur, perOp, env).0)
  {
    PersistMoves(s, cur, perOp, env);
    PersistFrozen(s, cur, perOp, env);
    hide Persist;
    var t := Persist(s, cur, perOp, env).0;
    PersistedSeg(s.files[cur], t.files[cur], s.commitOff, t.commitOff);
    hide SegCounted;
    OthersCounted(s.files, cur, t.files[cur], s.commitOff, t.commitOff);
    ShapeIsBetween(s.files, t.files, s.headOff);
  }

  lemma PersistedSeg(f: Seg, g: Seg, c: int, c': int)
    requires SegCounted(f, c) && f.base <= c <= f.End()
    requires var h := f.hdr.(commitCur := HEADER_SIZE + Min(c - f.base, f.size), committed := f.committed);
             && g.ends == f.ends && g.torn == f.torn && g.size == f.size && g.base == f.base
             && g.written == f.written && g.capacity == f.capacity
             && (g.images == f.images || g.images == f.images + [h])
             && ((c' == c && g.committed == f.committed && g.hdr == h)
                 || (c' == RollbackTo(f) && g.committed == f.hdr.committed && g.hdr == f.hdr))
    ensures SegCounted(g, c')
  {
    hide Rank;
    hide Ascending;
    StampTells(f, c);
    hide Tells;
    ImagedMore(f, g, f.hdr.(commitCur := HEADER_SIZE + Min(c - f.base, f.size), committed := f.committed));
    hide Imaged;
  }

  lemma RetireMoves(s: St, i: nat, env: Env)
    requires i < |s.files|
    ensures var t, e, f := RetireRest(s, i, env).0, RetireRest(s, i, env).1, s.files[i];
            && |t.files| == |s.files| && t.files == s.files[i := t.files[i]]
            && var g := t.files[i];
            && g.ends == f.ends && g.torn == f.torn && g.size == f.size && g.base == f.base
            && g.written == f.written && g.capacity == f.capacity
            && (g.images == f.images || g.images == f.images + [FullHdr(f)])
            && (g.hdr == FullHdr(f) || g.hdr == f.hdr)
            && g.committed == (if e == Nil then Max(f.written, f.committed) else f.committed)
            && t.commitOff == (if e == Nil then Max(s.commitOff, f.End()) else s.commitOff)
  {
    FullMoves(s, i, env);
    hide PublishFull;
  }

  lemma FullMoves(s: St, i: nat, env: Env)
    requires i < |s.files|
    ensures var t, f := PublishFull(s, i, env).0, s.files[i];
            && |t.files| == |s.files| && t.files == s.files[i := t.files[i]] && t.commitOff == s.commitOff
            && var g := t.files[i];
            && g == f.(hdr := g.hdr, images := g.images, gone := g.gone)
            && (g.images == f.images || g.images == f.images + [FullHdr(f)])
            && (g.hdr == FullHdr(f) || g.hdr == f.hdr)
  {
    FullOutcome(s, i, env);
    hide WriteHeader;
    assert s.files[i := s.files[i]] == s.files;
  }

  lemma RetireCounted(s: St, i: nat, env: Env)
    requires Ordered(s.files) && i < |s.files| && SegsCounted(s.files, s.commitOff)
    requires s.files[i].base <= s.commitOff <= s.files[i].End()
    ensures var t := RetireRest(s, i, env).0; SegsCounted(t.files, t.commitOff)
  {
    RetireMoves(s, i, env);
    hide RetireRest;
    var t, f := RetireRest(s, i, env).0, s.files[i];
    assert SegCounted(f, s.commitOff);
    RetiredSeg(f, t.files[i], s.commitOff, t.commitOff);
    hide SegCounted;
    OthersCounted(s.files, i, t.files[i], s.commitOff, t.commitOff);
  }

  lemma RetiredSeg(f: Seg, g: Seg, c: int, c': int)
    requires SegCounted(f, c) && f.base <= c <= f.End()
    requires g.ends == f.ends && g.torn == f.torn && g.size == f.size && g.base == f.base
    requires g.written == f.written && g.capacity == f.capacity
    requires (g.images == f.images || g.images == f.images + [FullHdr(f)]) && (g.hdr == FullHdr(f) || g.hdr == f.hdr)
    requires (c' == c && g.committed == f.committed) || (c' == Max(c, f.End()) && g.committed == Max(f.written, f.committed))
    ensures SegCounted(g, c')
  {
    RankOfAll(f.ends, f.size);
    RankGrows(f.ends, f.Pos(c), f.size);
    hide Rank;
    hide Ascending;
    FullTells(f, c);
    hide Tells;
    ImagedMore(f, g, FullHdr(f));
    hide Imaged;
  }

  lemma EntryBoundary(s0: St, s: St, i: nat)
    requires LedgerCounted(s0) && Frozen(s0, s) && s0.commitOff <= s.commitOff && FileFor(s.files, s.commitOff) == i
    requires EntryHere(s).EntryAt? && EntryHere(s).r.end <= s.files[i].End()
    ensures EntryCounted(EntryHere(s).r, s.files[i])
  {
    var r := EntryHere(s).r;
    assert SameSeg(s0.files[i], s.files[i]) && s0.files[i] in s0.files;
    assert r in s0.reserved && Holds(s0.files[i], r.start, r.end);
  }

  lemma FrameBoundary(s0: St, s: St, i: nat, env: Env)
    requires LedgerCounted(s0) && Honest(env, s0.files) && Frozen(s0, s) && FileFor(s.files, s.commitOff) == i
    requires SegCounted(s.files[i], s.commitOff)
    requires FrameEnd(s, s.files[i], env).End? && s.commitOff < FrameEnd(s, s.files[i], env).next <= s.files[i].End()
    ensures OneRecord(s.files[i], s.commitOff, FrameEnd(s, s.files[i], env).next)
  {
    assert SameSeg(s0.files[i], s.files[i]) && s0.files[i] in s0.files;
    if s.lastFrameEnd != 0 && s.lastFrameAt == s.commitOff {
      assert Holds(s0.files[i], s.lastFrameAt, s.lastFrameEnd);
    } else {
      assert FramesTrue(s0.files[i], s.commitOff, env.frame(s.commitOff));
    }
  }

  /** Every boundary the walk crosses by, decoded, cached or reserved, is one record's or a counted extent's. */
  lemma BoundaryCounts(s0: St, s: St, i: nat, off: int, env: Env)
    requires WalkPre(s0, off) && LedgerCounted(s0) && Honest(env, s0.files)
    requires Frozen(s0, s) && s0.commitOff <= s.commitOff && FileFor(s.files, s.commitOff) == i
    requires SegCounted(s.files[i], s.commitOff)
    ensures EntryHere(s).EntryAt? ==> EntryCounted(EntryHere(s).r, s.files[i])
    ensures var b := FrameEnd(s, s.files[i], env); b.End? && b.next > s.commitOff ==> OneRecord(s.files[i], s.commitOff, b.next)
  {
    hide LedgerCounted;
    hide Honest;
    hide FrameEnd;
    hide EntryHere;
    hide Frozen;
    BoundariesInFile(s0, s, i, off, env);
    if EntryHere(s).EntryAt? {
      EntryBoundary(s0, s, i);
    }
    var b := FrameEnd(s, s.files[i], env);
    if b.End? && b.next > s.commitOff {
      FrameBoundary(s0, s, i, env);
    }
  }

  lemma CrossRank(s: St, i: nat, off: int, cur: int, env: Env)
    requires i < |s.files| && !s.latched && FileFor(s.files, s.commitOff) == i && SegCounted(s.files[i], s.commitOff)
    requires EntryHere(s).EntryAt? ==> EntryCounted(EntryHere(s).r, s.files[i])
    requires var b := FrameEnd(s, s.files[i], env); b.End? && b.next > s.commitOff ==> OneRecord(s.files[i], s.commitOff, b.next)
    ensures var r := Cross(s, i, off, cur, env);
            r.Go? && r.cur == i ==>
              && RankIn(s.files[i], r.s.commitOff) == RankIn(s.files[i], s.commitOff) + (r.s.nCommitted - s.nCommitted)
              && Mark(s.files[i], r.s.commitOff - s.files[i].base)
  {
    hide SkipCorrupt;
    hide FrameEnd;
    hide EntryHere;
    hide Mark;
    hide SegCounted;
    hide OneRecord;
    hide Rank;
    var f, e, b := s.files[i], EntryHere(s), FrameEnd(s, s.files[i], env);
    CommittedRank(f, s.commitOff);
    if e.EntryAt? && e.r.corrupt {
      RankGrows(f.ends, s.commitOff - f.base, e.r.end - f.base);
    } else {
      if b.End? && b.next > s.commitOff {
        RecordRanks(f, s.commitOff, b.next);
      }
      if e.EntryAt? {
        RecordRanks(f, s.commitOff, e.r.end);
      }
    }
    hide Ascending;
  }

  lemma CommittedRank(f: Seg, c: int)
    requires SegCounted(f, c) && f.base <= c <= f.End()
    ensures Ascending(f.ends) && f.committed == RankIn(f, c)
  {
  }

  lemma CrossedHead(s: St, i: nat, next: int, n: int)
    requires i < |s.files|
    ensures Crossed(s, i, next, n).headOff == s.headOff
  {
  }

  /** A quarantine at the commit cursor moves both cursors to the segment's end, or neither. */
  lemma SkipCommitted(s: St, i: nat, env: Env)
    requires Ordered(s.files) && FileFor(s.files, s.commitOff) == i && StoreCounted(s)
    ensures StoreCounted(SkipCorrupt(s, s.commitOff, env).0)
  {
    hide RetireRest;
    hide SkipCorrupt;
    hide SegCounted;
    hide Between;
    RetireCounted(s, i, env);
    SkipAtCursor(s, env);
    RetireRestFrozen(s, i, env);
    EndIsBetween(s.files, i, s.commitOff);
    var t := SkipCorrupt(s, s.commitOff, env).0;
    ShapeIsBetween(s.files, t.files, s.headOff);
    ShapeIsBetween(s.files, t.files, s.files[i].End());
  }

  lemma CrossCounts(s0: St, s: St, i: nat, off: int, cur: int, env: Env)
    requires WalkPre(s0, off) && WalkInv(s0, s, cur, off) && !s.latched && s.commitOff < off
    requires FileFor(s.files, s.commitOff) == i && (cur == -1 || cur == i)
    requires LedgerCounted(s0) && Honest(env, s0.files) && StoreCounted(s)
    ensures StoreCounted(Cross(s, i, off, cur, env).s)
  {
    hide WalkInv;
    hide WalkPre;
    hide Cross;
    hide RetireRest;
    hide SkipCorrupt;
    hide Crossed;
    hide Ordered;
    hide Honest;
    hide LedgerCounted;
    hide SegCounted;
    hide Between;
    InvShape0(s0, s, cur, off);
    var x := ExitInWalk(s0, s, i, off, cur, env);
    var r := Cross(s, i, off, cur, env);
    assert SegCounted(s.files[i], s.commitOff);
    BoundaryCounts(s0, s, i, off, env);
    CrossRank(s, i, off, cur, env);
    if x.Crosses? {
      CrossedCounted(s, i, r.s.commitOff, r.s.nCommitted - s.nCommitted);
      CrossedFrozen(s, i, r.s.commitOff, r.s.nCommitted - s.nCommitted);
      ShapeIsBetween(s.files, r.s.files, s.headOff);
      CrossedHead(s, i, r.s.commitOff, r.s.nCommitted - s.nCommitted);
    } else if !x.Stands? {
      SkipCommitted(s, i, env);
    }
  }

  lemma InvShape0(s0: St, s: St, cur: int, off: int)
    requires WalkInv(s0, s, cur, off)
    ensures Frozen(s0, s) && -1 <= cur < |s.files| && s0.commitOff <= s.commitOff
    ensures cur >= 0 ==> s.files[cur].base <= s.commitOff <= s.files[cur].End()
  {
  }

  lemma StepCounts(s0: St, s: St, off: int, perOp: bool, cur: int, env: Env)
    requires WalkPre(s0, off) && WalkInv(s0, s, cur, off) && !s.latched && s.commitOff < off
    requires LedgerCounted(s0) && Honest(env, s0.files) && StoreCounted(s)
    ensures StoreCounted(WalkStep(s, off, perOp, cur, env).s)
  {
    hide WalkInv;
    hide Cross;
    hide Persist;
    hide StoreCounted;
    hide LedgerCounted;
    hide Honest;
    InvShape0(s0, s, cur, off);
    var i := FileFor(s.files, s.commitOff);
    if i >= 0 {
      if 0 <= cur != i {
        ShapeKeepsOrder(s0.files, s.files);
        PersistCounted(s, cur, perOp, env);
        PersistKeeps(s0, s, cur, off, perOp, env);
        PersistFrozen(s, cur, perOp, env);
        var (s1, e) := Persist(s, cur, perOp, env);
        if e == Nil {
          SameLookup(s.files, s1.files, s.commitOff);
          CrossCounts(s0, s1, i, off, -1, env);
        }
      } else {
        CrossCounts(s0, s, i, off, cur, env);
      }
    }
  }

  lemma {:induction false} WalkCounts(s0: St, s: St, off: int, perOp: bool, cur: int, env: Env)
    requires WalkPre(s0, off) && WalkInv(s0, s, cur, off) && !s.latched
    requires LedgerCounted(s0) && Honest(env, s0.files) && StoreCounted(s)
    ensures StoreCounted(Walk(s, off, perOp, cur, env).s)
    decreases Max(0, off - s.commitOff)
  {
    hide WalkInv;
    hide WalkPre;
    hide WalkStep;
    hide StoreCounted;
    hide LedgerCounted;
    hide Honest;
    InvShape0(s0, s, cur, off);
    if s.commitOff < off {
      StepKeeps(s0, s, off, perOp, cur, env);
      StepCounts(s0, s, off, perOp, cur, env);
      StepFrozen(s, off, perOp, cur, env);
      match WalkStep(s, off, perOp, cur, env) {
        case Halt(s1, cur1, _) =>
        case Go(s1, cur1) => WalkCounts(s0, s1, off, perOp, cur1, env);
      }
    }
  }

  // ----- every operation

  ghost predicate SameLayout(f: Seg, g: Seg) {
    f.base == g.base && f.size == g.size && f.ends == g.ends
  }

  /** Counted boundaries stay counted while the layout of what remains is the same. */
  lemma LedgerCountedCarries(s: St, t: St)
    requires LedgerCounted(s) && t.commitOff >= s.commitOff
    requires forall r <- t.reserved :: r in s.reserved
    requires t.lastFrameEnd == 0 || (t.lastFrameAt == s.lastFrameAt && t.lastFrameEnd == s.lastFrameEnd)
    requires forall g <- t.files :: exists f <- s.files :: SameLayout(f, g)
    ensures LedgerCounted(t)
  {
    forall r <- t.reserved, g <- t.files | r.end > t.commitOff && Holds(g, r.start, r.end) ensures EntryCounted(r, g) {
      var f :| f in s.files && SameLayout(f, g);
      assert Holds(f, r.start, r.end);
    }
    forall g <- t.files | t.lastFrameEnd != 0 && Holds(g, t.lastFrameAt, t.lastFrameEnd)
      ensures OneRecord(g, t.lastFrameAt, t.lastFrameEnd)
    {
      var f :| f in s.files && SameLayout(f, g);
      assert Holds(f, s.lastFrameAt, s.lastFrameEnd);
    }
  }

  lemma ShapeIsLayout(fs: seq<Seg>, gs: seq<Seg>)
    requires SameShape(fs, gs)
    ensures forall g <- gs :: exists f <- fs :: SameLayout(f, g)
  {
    forall g <- gs ensures exists f <- fs :: SameLayout(f, g) {
      var i :| 0 <= i < |gs| && gs[i] == g;
      assert SameSeg(fs[i], gs[i]) && fs[i] in fs;
      assert SameLayout(fs[i], g);
    }
  }

  lemma SubsetIsLayout(fs: seq<Seg>, gs: seq<Seg>)
    requires forall g <- gs :: g in fs
    ensures forall g <- gs :: exists f <- fs :: SameLayout(f, g)
  {
    forall g <- gs ensures exists f <- fs :: SameLayout(f, g) {
      assert SameLayout(g, g);
    }
  }

  lemma CountedBySeqs(s: St)
    ensures Counted(s) <==> StoreCounted(s) && LedgerCounted(s)
  {
    if SegsCounted(s.files, s.commitOff) {
      forall f <- s.files ensures SegCounted(f, s.commitOff) {
        var i :| 0 <= i < |s.files| && s.files[i] == f;
      }
    }
  }

  lemma DropCounted(s: St, keep: int, env: Env)
    requires Counted(s)
    ensures Counted(DropCommitted(s, keep, env))
  {
    hide Counted;
    hide Reclaim;
    ReclaimSubset(s.files, s.commitOff, keep, env);
    SubsetCounted(s, DropCommitted(s, keep, env));
  }

  lemma SubsetCounted(s: St, t: St)
    requires Counted(s) && forall f <- t.files :: f in s.files
    requires t.reserved == s.reserved && t.commitOff == s.commitOff && t.headOff == s.headOff
    requires t.lastFrameEnd == 0 || (t.lastFrameAt == s.lastFrameAt && t.lastFrameEnd == s.lastFrameEnd)
    ensures Counted(t)
  {
    hide SegCounted;
    hide LedgerCounted;
    hide Mark;
    SubsetIsLayout(s.files, t.files);
    LedgerCountedCarries(s, t);
    forall j | 0 <= j < |t.files| ensures Mark(t.files[j], t.files[j].Pos(t.headOff)) {
      assert t.files[j] in s.files;
      var i :| 0 <= i < |s.files| && s.files[i] == t.files[j];
    }
  }

  lemma SettleCounted(s: St, durable: bool, stop: Err, env: Env)
    requires Counted(s)
    ensures Counted(Settle(s, durable, stop, env).0)
  {
    hide SegCounted;
    hide DropCommitted;
    var v := s.(latched := s.latched || (durable && s.policy == Batched && env.tick == TickLatched),
                headOff := Max(s.headOff, s.commitOff));
    CountedBySeqs(s);
    CommitIsBetween(s.files, s.commitOff);
    assert Counted(v);
    DropCounted(v, |v.files| - 1, env);
  }

  lemma CommitEndCounted(s: St, w: Step, off: int, durable: bool, perOp: bool, env: Env)
    requires Inv(s) && Counted(s) && WalkInv(s, w.s, w.cur, off) && StoreCounted(w.s)
    ensures Counted(CommitEnd(s.commitOff, w, durable, perOp, env).0)
  {
    hide Inv;
    hide Persist;
    hide Settle;
    hide WalkInv;
    hide StoreCounted;
    hide LedgerCounted;
    InvOrdered(s);
    InvShape0(s, w.s, w.cur, off);
    var (s1, e) := if 0 <= w.cur then Persist(w.s, w.cur, perOp, env) else (w.s, Nil);
    if w.cur >= 0 {
      ShapeKeepsOrder(s.files, w.s.files);
      PersistKeeps(s, w.s, w.cur, off, perOp, env);
      PersistCounted(w.s, w.cur, perOp, env);
    }
    InvShape0(s, s1, -1, off);
    WalkReserved(s, s1, off);
    ShapeIsLayout(s.files, s1.files);
    CountedBySeqs(s);
    LedgerCountedCarries(s, s1);
    CountedBySeqs(s1);
    SettleCounted(s1, durable, if w.Halt? && w.stop != Nil then w.stop else e, env);
  }

  lemma WalkReserved(s: St, s1: St, off: int)
    requires WalkInv(s, s1, -1, off)
    ensures s1.reserved == s.reserved && s1.commitOff >= s.commitOff
    ensures s1.lastFrameAt == s.lastFrameAt && s1.lastFrameEnd == s.lastFrameEnd
  {
  }

  lemma CommitCounted(s: St, off: int, durable: bool, env: Env)
    requires Inv(s) && Counted(s) && Honest(env, s.files)
    ensures Counted(CommitDurable(s, off, durable, env).0)
  {
    hide Inv;
    hide Counted;
    hide StoreCounted;
    hide LedgerCounted;
    hide Honest;
    hide WalkInv;
    hide WalkPre;
    hide CommitEnd;
    if !s.latched && off > s.commitOff {
      var to, perOp := Min(off, s.writeOff), durable && s.policy == PerOp;
      InvOrdered(s);
      WalkMayBegin(s, to);
      WalkKeeps(s, s, to, perOp, -1, env);
      CountedBySeqs(s);
      WalkCounts(s, s, to, perOp, -1, env);
      CommitEndCounted(s, Walk(s, to, perOp, -1, env), to, durable, perOp, env);
    }
  }

  /** A commit leaves the segments it keeps laid out as they were. */
  lemma CommitKeepsLayout(s: St, off: int, durable: bool, env: Env)
    requires Inv(s)
    ensures forall g <- CommitDurable(s, off, durable, env).0.files :: exists f <- s.files :: SameLayout(f, g)
  {
    hide Inv;
    hide WalkInv;
    hide WalkPre;
    hide CommitEnd;
    hide SameLayout;
    if s.latched || off <= s.commitOff {
      SubsetIsLayout(s.files, s.files);
    } else {
      var to, perOp := Min(off, s.writeOff), durable && s.policy == PerOp;
      InvOrdered(s);
      WalkMayBegin(s, to);
      WalkKeeps(s, s, to, perOp, -1, env);
      EndKeepsLayout(s, Walk(s, to, perOp, -1, env), to, durable, perOp, env);
    }
  }

  lemma EndKeepsLayout(s: St, w: Step, off: int, durable: bool, perOp: bool, env: Env)
    requires WalkInv(s, w.s, w.cur, off) && Ordered(s.files)
    ensures forall g <- CommitEnd(s.commitOff, w, durable, perOp, env).0.files :: exists f <- s.files :: SameLayout(f, g)
  {
    hide WalkInv;
    hide Settle;
    hide Persist;
    hide SameLayout;
    InvShape0(s, w.s, w.cur, off);
    var (s1, e) := if 0 <= w.cur then Persist(w.s, w.cur, perOp, env) else (w.s, Nil);
    if w.cur >= 0 {
      PersistKeeps(s, w.s, w.cur, off, perOp, env);
    }
    InvShape0(s, s1, -1, off);
    ShapeIsLayout(s.files, s1.files);
    SettleKeepsLayout(s, s1, durable, if w.Halt? && w.stop != Nil then w.stop else e, env);
  }

  lemma SettleKeepsLayout(s: St, s1: St, durable: bool, stop: Err, env: Env)
    requires forall g <- s1.files :: exists f <- s.files :: SameLayout(f, g)
    ensures forall g <- Settle(s1, durable, stop, env).0.files :: exists f <- s.files :: SameLayout(f, g)
  {
    hide SameLayout;
    hide Reclaim;
    assert Ticked(s1, durable, env).0.files == s1.files;
    ReclaimSubset(s1.files, s1.commitOff, |s1.files| - 1, env);
  }

  /** An offset inside a record retires nothing of it: a commit there stops where that record starts, or before. */
  lemma CommitStopsAtRecord(s: St, off: int, durable: bool, env: Env, f: Seg, a: int, b: int)
    requires Inv(s) && Counted(s) && Honest(env, s.files)
    requires f in s.files && Holds(f, a, b) && OneRecord(f, a, b) && s.commitOff <= a < off < b
    ensures CommitDurable(s, off, durable, env).0.commitOff <= a
  {
    hide Inv;
    hide Honest;
    hide CommitDurable;
    hide OneRecord;
    CommitCounted(s, off, durable, env);
    CommitKeepsInv(s, off, durable, env);
    CommitKeepsLayout(s, off, durable, env);
    var t := CommitDurable(s, off, durable, env).0;
    if t.commitOff >= f.base {
      HolderWithin(s, f);
      var g := OwnerOf(t);
      var f' :| f' in s.files && SameLayout(f', g);
      SoleOwner(s, f, f', t.commitOff);
      NotInside(f, g, t.commitOff, a, b);
    }
  }

  lemma NotInside(f: Seg, g: Seg, c: int, a: int, b: int)
    requires SegCounted(g, c) && SameLayout(f, g) && g.base <= c < g.End() && OneRecord(f, a, b) && f.base <= a
    ensures c <= a || c >= b
  {
    RankSplits(f.ends, a - f.base);
    if c != f.base {
      var j :| 0 <= j < |f.ends| && f.ends[j] == c - f.base;
    }
  }

  lemma HolderWithin(s: St, f: Seg)
    requires Inv(s) && f in s.files
    ensures f.End() <= s.writeOff
  {
    LastEndsLast(s.files, f);
  }

  lemma OwnerOf(s: St) returns (g: Seg)
    requires Inv(s) && s.commitOff < s.writeOff
    ensures g in s.files && g.base <= s.commitOff < g.End()
  {
    FileForIsTheOwner(s.files, s.commitOff, s.writeOff, s.commitOff);
    g := s.files[FileFor(s.files, s.commitOff)];
  }

  lemma SoleOwner(s: St, f: Seg, g: Seg, off: int)
    requires Inv(s) && f in s.files && g in s.files && f.base <= off < f.End() && g.base <= off < g.End()
    ensures f == g
  {
    var i :| 0 <= i < |s.files| && s.files[i] == f;
    var j :| 0 <= j < |s.files| && s.files[j] == g;
    OwnerIsUnique(s.files, i, off);
    OwnerIsUnique(s.files, j, off);
  }

  lemma LedgerOnlyCounted(s: St, rs: seq<Reservation>)
    requires Counted(s) && forall r <- rs :: r in s.reserved
    ensures Counted(s.(reserved := rs))
  {
  }

  lemma RunCounted(s: St, durable: bool, env: Env)
    requires Inv(s) && Counted(s) && Honest(env, s.files)
    ensures Counted(CommitAckedRun(s, durable, env).0)
  {
    hide Inv;
    hide Counted;
    hide Honest;
    hide CommitDurable;
    var target := RunEnd(s.reserved, s.commitOff);
    CommitCounted(s, target, durable, env);
    var t := CommitDurable(s, target, durable, env).0;
    SameButLedger(t);
    LedgerOnlyCounted(t, DropRetired(t).reserved);
  }

  lemma TrackCounted(s: St, r: Reservation)
    requires Counted(s) && forall f <- s.files :: Holds(f, r.start, r.end) ==> EntryCounted(r, f)
    ensures Counted(Track(s, r))
  {
    hide SegCounted;
    SameButLedger(s);
    LedgerOnlyCounted(s, DropRetired(s).reserved);
    hide DropRetired;
  }

  lemma RetireCountedFrame(s: St, start: int, end: int, durable: bool, env: Env)
    requires Inv(s) && Counted(s) && Honest(env, s.files) && start < end <= s.headOff && Within(s.files, start, end)
    requires forall q <- s.reserved :: q.end <= start
    requires forall f <- s.files :: Holds(f, start, end) ==> OneRecord(f, start, end)
    ensures Counted(RetireFrame(s, start, end, durable, env).0)
  {
    hide Inv;
    hide Counted;
    hide CommitAckedRun;
    hide Honest;
    var r := Reservation(start, end, true, false, 0);
    TrackKeeps(s, r, {});
    TrackCounted(s, r);
    TrackedLedger(s, r);
    RunCounted(Track(s, r), durable, env);
  }

  // ----- takeHead

  lemma OneOwner(s: St, i: nat, a: int, b: int)
    requires Ordered(s.files) && i < |s.files| && Holds(s.files[i], a, b)
    ensures forall f <- s.files :: Holds(f, a, b) ==> f == s.files[i]
  {
    forall f <- s.files | Holds(f, a, b) ensures f == s.files[i] {
      var j :| 0 <= j < |s.files| && s.files[j] == f;
      OwnerIsUnique(s.files, i, a);
      OwnerIsUnique(s.files, j, a);
    }
  }

  lemma SkipCounted(s: St, env: Env)
    requires Inv(s) && Counted(s) && FileFor(s.files, s.headOff) >= 0
    ensures Counted(SkipCorrupt(s, s.headOff, env).0)
  {
    hide Inv;
    hide StoreCounted;
    hide LedgerCounted;
    hide RetireRest;
    hide Counted;
    var i := FileFor(s.files, s.headOff);
    InvOrdered(s);
    CountedBySeqs(s);
    if s.commitOff == s.headOff {
      hide SkipCorrupt;
      SkipAtCursor(s, env);
      SkipCommitted(s, i, env);
      RetireRestFrozen(s, i, env);
      var t := SkipCorrupt(s, s.headOff, env).0;
      ShapeIsLayout(s.files, t.files);
      LedgerCountedCarries(s, t);
      CountedBySeqs(t);
    } else {
      AheadCounted(s, i);
    }
  }

  lemma AheadCounted(s: St, i: nat)
    requires Counted(s) && Ordered(s.files) && FileFor(s.files, s.headOff) == i
    ensures var f := s.files[i];
            Counted(Track(SkippedAhead(s, f), Reservation(s.headOff, f.End(), true, true, f.written)))
  {
    hide LedgerCounted;
    hide SegsCounted;
    hide Between;
    hide Track;
    var f := s.files[i];
    var s2, r := SkippedAhead(s, f), Reservation(s.headOff, f.End(), true, true, f.written);
    OneOwner(s, i, s.headOff, f.End());
    assert f in s.files && SegCounted(f, s.commitOff);
    RankOfAll(f.ends, f.size);
    CountedBySeqs(s);
    EndIsBetween(s.files, i, s.commitOff);
    LedgerCountedCarries2(s, s2);
    CountedBySeqs(s2);
    HeadMark(s, i);
    TrackCounted(s2, r);
  }

  lemma HeadMark(s: St, i: nat)
    requires Between(s.files, s.headOff) && i < |s.files| && s.files[i].base <= s.headOff <= s.files[i].End()
    ensures Mark(s.files[i], s.headOff - s.files[i].base)
  {
    assert Mark(s.files[i], s.files[i].Pos(s.headOff));
  }

  lemma LedgerCountedCarries2(s: St, t: St)
    requires LedgerCounted(s) && t.files == s.files && t.reserved == s.reserved && t.commitOff == s.commitOff
    requires t.lastFrameAt == s.lastFrameAt && t.lastFrameEnd == s.lastFrameEnd
    ensures LedgerCounted(t)
  {
  }

  lemma PassedBetween(s: St, i: nat, next: int)
    requires Counted(s) && Ordered(s.files) && i < |s.files| && s.files[i].base <= s.headOff < next <= s.files[i].End()
    requires OneRecord(s.files[i], s.headOff, next)
    ensures Between(s.files, next)
  {
    CountedBySeqs(s);
    assert SegCounted(s.files[i], s.commitOff);
    RecordRanks(s.files[i], s.headOff, next);
    MarkIsBetween(s.files, i, next, s.commitOff);
  }

  /** The frame at the read cursor, when it is true to what was laid down. */
  lemma HeadFrame(s: St, i: nat, env: Env)
    requires Counted(s) && HonestHead(env, s) && FileFor(s.files, s.headOff) == i
    requires Decode(s.files[i], s.headOff, env.headFrame).End?
    ensures OneRecord(s.files[i], s.headOff, Decode(s.files[i], s.headOff, env.headFrame).next)
  {
    assert s.files[i] in s.files && Mark(s.files[i], s.files[i].Pos(s.headOff));
    assert FramesTrue(s.files[i], s.headOff, env.headFrame);
  }

  lemma DropFrameCounted(s: St, i: nat, next: int, env: Env)
    requires Inv(s) && Counted(s) && Honest(env, s.files) && FileFor(s.files, s.headOff) == i
    requires s.headOff < next <= s.files[i].End() && OneRecord(s.files[i], s.headOff, next)
    ensures Counted(DropFrame(s, next, env).0)
  {
    hide Inv;
    hide RetireFrame;
    hide Honest;
    hide SegCounted;
    var d := Passed(s, next);
    HeadAheadInv(s, i, next);
    InvOrdered(s);
    InvHead(s);
    assert Within(d.files, s.headOff, next);
    OneOwner(s, i, s.headOff, next);
    PassedBetween(s, i, next);
    assert Counted(d);
    RetireCountedFrame(d, s.headOff, next, false, env);
  }

  lemma DeliverCounted(s: St, i: nat, next: int)
    requires Inv(s) && Counted(s) && FileFor(s.files, s.headOff) == i
    requires s.headOff < next <= s.files[i].End() && OneRecord(s.files[i], s.headOff, next)
    ensures Counted(s.(lastFrameAt := s.headOff, lastFrameEnd := next, headOff := next))
  {
    hide SegCounted;
    InvOrdered(s);
    PassedBetween(s, i, next);
    OneOwner(s, i, s.headOff, next);
  }

  lemma LatchCounted(s: St, latched: bool)
    requires Counted(s)
    ensures Counted(s.(latched := latched))
  {
    hide SegCounted;
  }

  lemma TakeCounted(s: St, env: Env)
    requires Inv(s) && Counted(s) && Honest(env, s.files) && HonestHead(env, s)
    ensures Counted(TakeHead(s, env).0)
    ensures TakenCounted(TakeHead(s, env).0, TakeHead(s, env).1)
  {
    hide Inv;
    hide Counted;
    hide Honest;
    hide HonestHead;
    hide OneRecord;
    hide SkipCorrupt;
    hide DropFrame;
    if s.pendingCorrupt > 0 {
      PendingCounted(s);
    } else if s.headOff < s.writeOff {
      var i := FileFor(s.files, s.headOff);
      var s1 := s.(latched := s.latched || env.headOpen == OpenedLatched);
      InvHead(s);
      HeadOwned(s);
      LatchCounted(s, s1.latched);
      LatchKeeps(s, env.headOpen == OpenedLatched, {});
      SkipCounted(s, env);
      SkipCounted(s1, env);
      match Decode(s.files[i], s.headOff, env.headFrame) {
        case End(next) =>
          HeadFrame(s, i, env);
          InvOrdered(s);
          OneOwner(s, i, s.headOff, next);
          DropFrameCounted(s1, i, next, env);
          DeliverCounted(s1, i, next);
          DropFrameReports(s1, next, env);
        case _ =>
      }
    }
  }

  lemma DropFrameReports(s: St, next: int, env: Env)
    ensures DropFrame(s, next, env).1.Reported?
  {
  }

  ghost predicate TakenCounted(t: St, d: Taken) {
    d.Delivered? ==> forall f <- t.files :: Holds(f, d.at, d.next) ==> OneRecord(f, d.at, d.next)
  }

  lemma PendingCounted(s: St)
    requires Counted(s) && s.pendingCorrupt > 0
    ensures Counted(s.(pendingCorrupt := s.pendingCorrupt - 1))
  {
    hide SegCounted;
  }

  lemma HeadOwned(s: St)
    requires Inv(s) && s.headOff < s.writeOff
    ensures FileFor(s.files, s.headOff) >= 0
  {
    FileForIsTheOwner(s.files, s.commitOff, s.writeOff, s.headOff);
  }

  // ----- writing

  ghost predicate Positive(lens: seq<nat>) {
    forall n <- lens :: n > 0
  }

  lemma {:induction false} EndsOf(size: int, lens: seq<nat>)
    requires Positive(lens)
    ensures |EndsAfter(size, lens)| == |lens| && Ascending(EndsAfter(size, lens))
    ensures forall e <- EndsAfter(size, lens) :: size < e <= size + SumLens(lens)
    ensures lens != [] ==> size + SumLens(lens) in EndsAfter(size, lens)
    decreases |lens|
  {
    if lens != [] {
      assert lens[0] in lens && forall n <- lens[1..] :: n in lens;
      EndsOf(size + lens[0], lens[1..]);
      var rest := EndsAfter(size + lens[0], lens[1..]);
      var all := EndsAfter(size, lens);
      assert all == [size + lens[0]] + rest;
      forall i, j | 0 <= i < j < |all| ensures all[i] < all[j] {
        assert all[j] == rest[j - 1] && rest[j - 1] in rest;
        assert i > 0 ==> all[i] == rest[i - 1];
      }
      if lens[1..] == [] {
        assert SumLens(lens) == lens[0];
      }
    }
  }

  /** The layout up to f's end is part of g's. */
  ghost predicate Extends(f: Seg, g: Seg) {
    && g.base == f.base && g.size >= f.size && f.ends <= g.ends
    && forall p | p <= f.size :: Rank(g.ends, p) == Rank(f.ends, p)
  }

  lemma GrownTiled(f: Seg, lens: seq<nat>)
    requires Tiled(f) && Positive(lens)
    ensures Tiled(Grown(f, lens))
  {
    EndsOf(f.size, lens);
    var more := EndsAfter(f.size, lens);
    forall i, j | 0 <= i < j < |f.ends + more| ensures (f.ends + more)[i] < (f.ends + more)[j] {
      if i < |f.ends| <= j {
        assert f.ends[i] in f.ends && more[j - |f.ends|] in more;
      }
    }
    assert lens == [] ==> more == [] && SumLens(lens) == 0;
  }

  lemma SameBase(f: Seg, g: Seg)
    requires Extends(f, g)
    ensures g.base == f.base
  {
  }

  lemma ExtendsMarks(f: Seg, g: Seg, off: int)
    requires Extends(f, g) && Mark(f, f.Pos(off)) && off <= f.End()
    ensures Mark(g, g.Pos(off))
  {
    if f.Pos(off) != 0 {
      var i :| 0 <= i < |f.ends| && f.ends[i] == f.Pos(off);
      assert g.ends[i] == f.ends[i];
    }
  }

  lemma ExtendsRecord(f: Seg, g: Seg, a: int, b: int)
    requires Extends(f, g) && OneRecord(f, a, b) && a <= f.End()
    ensures OneRecord(g, a, b)
  {
    var k := RankIn(f, a);
    assert g.ends[k] == f.ends[k];
    if a != f.base {
      var i :| 0 <= i < |f.ends| && f.ends[i] == a - f.base;
      assert g.ends[i] == f.ends[i];
    }
  }

  lemma ExtendsEntry(f: Seg, g: Seg, r: Reservation)
    requires Extends(f, g) && EntryCounted(r, f) && Holds(f, r.start, r.end)
    ensures EntryCounted(r, g)
  {
    if r.corrupt {
      ExtendsMarks(f, g, r.end);
    } else {
      ExtendsRecord(f, g, r.start, r.end);
    }
  }

  /** No header of a store that has not failed covers more than the segment holds. */
  lemma TrueOfFirst(f: Seg, h: Hdr)
    requires Laid(f) && Behind(f) && h in f.images
    ensures 0 <= h.written <= |f.ends| && Tells(f.ends[..h.written], h)
  {
    assert Truthful(f, h);
    if !(0 <= h.written <= |f.ends|) {
      LastBeyond(f.ends, f.torn, f.size);
      assert false;
    }
  }

  lemma LastBeyond(ends: seq<int>, more: seq<int>, size: int)
    requires Ascending(ends + more) && more != [] && (size == 0 || size in ends) && forall e <- ends + more :: e > 0
    ensures exists e :: e in ends + more && e > size
  {
    var all := ends + more;
    var last := all[|all| - 1];
    assert last in all;
    if size != 0 {
      var i :| 0 <= i < |ends| && ends[i] == size;
      assert all[i] == size;
    }
  }

  lemma GrownTells(f: Seg, lens: seq<nat>, c: int)
    requires SegCounted(f, c) && Positive(lens)
    ensures Tells(Grown(f, lens).ends, Grown(f, lens).hdr)
  {
    GrownExtends(f, lens);
    GrownTiled(f, lens);
    GrownSize(f, lens);
    var g := Grown(f, lens);
    ExtendsMarks(f, g, f.base + f.hdr.commitCur - HEADER_SIZE);
    hide Rank;
    hide Imaged;
    hide Ascending;
  }

  lemma GrownImaged(f: Seg, lens: seq<nat>, c: int)
    requires SegCounted(f, c) && Behind(f) && Positive(lens) && f.size + SumLens(lens) <= f.capacity
    ensures var g := Grown(f, lens); Imaged(g.(images := g.images + [g.hdr]))
  {
    GrownTells(f, lens, c);
    GrownExtends(f, lens);
    var g := Grown(f, lens);
    var g1 := g.(images := g.images + [g.hdr]);
    forall h <- g1.images ensures Truthful(g1, h) {
      if h in f.images {
        TrueOfFirst(f, h);
        assert Truthful(f, h);
        assert g.ends[..h.written] == f.ends[..h.written];
      } else {
        hide Tells;
        TellsLength(g.ends, h);
        assert g.ends[..|g.ends|] == g.ends;
      }
    }
  }

  /** A publication whose header tore, over memory that does not have it. */
  lemma TornImaged(f: Seg, lens: seq<nat>, c: int, g: Seg)
    requires SegCounted(f, c) && Positive(lens) && f.size + SumLens(lens) <= f.capacity
    requires Behind(f) && g == f.(gone := g.gone, images := f.images + [Grown(f, lens).hdr], torn := EndsAfter(f.size, lens))
    ensures Imaged(g)
  {
    GrownTells(f, lens, c);
    var h := Grown(f, lens).hdr;
    assert Tells(f.ends + g.torn, h);
    EndsOf(f.size, lens);
    forall k <- g.images ensures Truthful(g, k) {
      if k in f.images {
        assert Truthful(f, k);
        TrueOfFirst(f, k);
      } else if lens == [] {
        assert f.ends + g.torn == f.ends == f.ends[..|f.ends|];
      }
    }
    hide Tells;
  }

  /** What was counted below a segment's old end is counted the same after it grows. */
  lemma GrownCounted(f: Seg, lens: seq<nat>, c: int)
    requires SegCounted(f, c) && Positive(lens) && c <= f.End()
    requires Behind(f) && f.size + SumLens(lens) <= f.capacity
    ensures var g := Grown(f, lens);
            && SegCounted(g.(images := g.images + [g.hdr]), c)
            && Extends(f, g)
  {
    hide Rank;
    hide Imaged;
    hide SumLens;
    hide Tells;
    GrownExtends(f, lens);
    GrownTiled(f, lens);
    GrownSize(f, lens);
    GrownImaged(f, lens, c);
    hide Tiled;
    hide Grown;
    var g := Grown(f, lens);
    TiledSize(f);
    ExtendsMarks(f, g, c);
    ExtendsMarks(f, g, f.base + f.hdr.commitCur - HEADER_SIZE);
    assert g.Pos(c) == f.Pos(c) <= f.size;
  }

  lemma TiledSize(f: Seg)
    requires Tiled(f)
    ensures f.size >= 0
  {
  }

  lemma GrownSize(f: Seg, lens: seq<nat>)
    requires Positive(lens)
    ensures var g := Grown(f, lens);
            && g.hdr.commitCur == f.hdr.commitCur && g.hdr.committed == f.hdr.committed && g.committed == f.committed
            && |g.ends| - |f.ends| == g.written - f.written
            && g.size == f.size + SumLens(lens) && g.capacity == f.capacity
            && g.hdr.writeCur == HEADER_SIZE + g.size && g.hdr.written == g.written
  {
    EndsOf(f.size, lens);
  }

  lemma GrownExtends(f: Seg, lens: seq<nat>)
    requires Positive(lens)
    ensures Extends(f, Grown(f, lens))
  {
    EndsOf(f.size, lens);
    var g := Grown(f, lens);
    forall p | p <= f.size ensures Rank(g.ends, p) == Rank(f.ends, p) {
      RankJoins(f.ends, EndsAfter(f.size, lens), p);
      RankOfNone(EndsAfter(f.size, lens), p);
    }
  }

  lemma TailLedgerCounted(s: St, t: St, f: Seg, g: Seg)
    requires Inv(s) && Attached(s) && Counted(s) && s.files != [] && f == s.files[|s.files| - 1]
    requires t.files == s.files[|s.files| - 1 := g] && t.reserved == s.reserved && t.commitOff == s.commitOff
    requires t.lastFrameAt == s.lastFrameAt && t.lastFrameEnd == s.lastFrameEnd
    requires Extends(f, g)
    ensures LedgerCounted(t)
  {
    hide SegCounted;
    hide Between;
    hide Rank;
    hide EntryCounted;
    hide OneRecord;
    hide Extends;
    forall r <- t.reserved, h <- t.files | r.end > t.commitOff && Holds(h, r.start, r.end) ensures EntryCounted(r, h) {
      if h == g {
        assert Holds(f, r.start, r.end) by {
          SameBase(f, g);
        }
        assert f in s.files;
        ExtendsEntry(f, g, r);
      } else {
        assert h in s.files;
      }
    }
    if t.lastFrameEnd != 0 {
      var a, b := t.lastFrameAt, t.lastFrameEnd;
      WithinEndsByTail(s, a, b);
      forall h <- t.files | Holds(h, a, b) ensures OneRecord(h, a, b) {
        if h == g {
          assert Holds(f, a, b) by {
            SameBase(f, g);
          }
          assert f in s.files;
          ExtendsRecord(f, g, a, b);
        } else {
          assert h in s.files;
        }
      }
    }
  }

  lemma WithinEndsByTail(s: St, a: int, b: int)
    requires Geo(s) && Within(s.files, a, b)
    ensures s.files != [] && b <= s.files[|s.files| - 1].End()
  {
    var i :| 0 <= i < |s.files| && s.files[i].base <= a < b <= s.files[i].End();
    LastEndsLast(s.files, s.files[i]);
  }

  lemma PublishCounted(s: St, lens: seq<nat>, ans: WriteAns)
    requires Inv(s) && Attached(s) && Counted(s) && Positive(lens) && !NeedsCycle(s, SumLens(lens))
    ensures Counted(PublishSpan(s, lens, ans).0)
  {
    if s.files != [] {
      PublishOutcome(s, lens, ans);
      RefusedImages(s, lens, ans);
      if !s.latched {
        TailBehind(s);
      }
      hide PublishSpan;
      hide Inv;
      hide SegCounted;
      hide Extends;
      hide Between;
      var (t, e) := PublishSpan(s, lens, ans);
      var n := |s.files| - 1;
      var f := s.files[n];
      InvTail(s);
      assert SegCounted(f, s.commitOff);
      if e == Nil {
        GrownCounted(f, lens, s.commitOff);
        ImagesExtend(f, Grown(f, lens), t.files[n]);
      } else {
        RefusedCounted(f, lens, t.files[n], s.commitOff);
      }
      TailCounted(s, t, f, t.files[n]);
    }
  }

  lemma ImagesExtend(f: Seg, g: Seg, h: Seg)
    requires Extends(f, g) && h == g.(images := h.images)
    ensures Extends(f, h)
  {
  }

  /** The active segment replaced by one that extends it. */
  lemma TailCounted(s: St, t: St, f: Seg, g: Seg)
    requires Inv(s) && Attached(s) && Counted(s) && s.files != [] && f == s.files[|s.files| - 1]
    requires t.files == s.files[|s.files| - 1 := g] && t.reserved == s.reserved && t.commitOff == s.commitOff && t.headOff == s.headOff
    requires t.lastFrameAt == s.lastFrameAt && t.lastFrameEnd == s.lastFrameEnd
    requires Extends(f, g) && SegCounted(g, s.commitOff)
    ensures Counted(t)
  {
    hide Inv;
    hide SegCounted;
    hide Extends;
    hide LedgerCounted;
    TailLedgerCounted(s, t, f, g);
    InvTail(s);
    CountedBySeqs(s);
    forall j | 0 <= j < |t.files| ensures Mark(t.files[j], t.files[j].Pos(t.headOff)) {
      if j == |s.files| - 1 {
        ExtendsMarks(f, g, s.headOff);
      } else {
        assert t.files[j] == s.files[j];
      }
    }
    hide Mark;
    CountedBySeqs(t);
  }

  lemma InvTail(s: St)
    requires Inv(s) && Attached(s) && s.files != []
    ensures s.commitOff <= s.headOff <= s.files[|s.files| - 1].End()
  {
  }

  lemma TailBehind(s: St)
    requires Inv(s) && s.files != [] && !s.latched
    ensures Behind(s.files[|s.files| - 1])
  {
    assert OnDisk(s.files[|s.files| - 1]);
  }

  lemma RefusedImages(s: St, lens: seq<nat>, ans: WriteAns)
    requires s.files != []
    ensures var (t, e), f := PublishSpan(s, lens, ans), s.files[|s.files| - 1];
            e != Nil ==>
              && |t.files| == |s.files|
              && var g := t.files[|s.files| - 1];
              || (g.images == f.images && g.torn == f.torn)
              || (g.images == f.images + [Grown(f, lens).hdr] && g.torn == EndsAfter(f.size, lens) && !s.latched)
  {
    assert Grown(s.files[|s.files| - 1], lens).images == s.files[|s.files| - 1].images;
    hide Grown;
  }

  lemma RefusedCounted(f: Seg, lens: seq<nat>, g: Seg, c: int)
    requires SegCounted(f, c) && Positive(lens) && f.size + SumLens(lens) <= f.capacity
    requires g == f.(gone := g.gone, images := g.images, torn := g.torn)
    requires || (g.images == f.images && g.torn == f.torn)
             || (g.images == f.images + [Grown(f, lens).hdr] && g.torn == EndsAfter(f.size, lens) && Behind(f))
    ensures SegCounted(g, c) && Extends(f, g)
  {
    hide Grown;
    hide Tells;
    if g.images == f.images && g.torn == f.torn {
      ImagedMore(f, g, f.hdr);
    } else {
      TornImaged(f, lens, c, g);
    }
    hide Imaged;
  }

  lemma EmptySegCounted(d: St, f: Seg, t: St)
    requires Counted(d) && f.size == 0 && SegCounted(f, d.commitOff)
    requires t.files == d.files + [f] && t.commitOff == d.commitOff && t.headOff == d.headOff && t.reserved == d.reserved
    requires t.lastFrameAt == d.lastFrameAt && t.lastFrameEnd == d.lastFrameEnd
    ensures Counted(t)
  {
    hide SegCounted;
    hide Rank;
    forall g <- t.files ensures g == f || g in d.files {
    }
    forall j | 0 <= j < |t.files| ensures Mark(t.files[j], t.files[j].Pos(t.headOff)) {
      assert j < |d.files| ==> t.files[j] == d.files[j];
    }
  }

  lemma CycleCounted(s: St, need: nat, force: bool, a: AppendEnv)
    requires Inv(s) && Counted(s)
    ensures Counted(Cycle(s, need, force, a).0)
  {
    hide Inv;
    hide Counted;
    hide DropCommitted;
    DropCounted(s, -1, a.drop);
    var d := DropCommitted(s, -1, a.drop);
    DropKeepsInv(s, -1, a.drop);
    InvHead(d);
    var f := NewSeg(d, need);
    assert SegCounted(f, d.commitOff);
    hide SegCounted;
    EmptySegCounted(d, f, d.(
      files := d.files + [f], nextNum := d.nextNum + 1, diskBytes := d.diskBytes + HEADER_SIZE + f.capacity,
      latched := d.latched || a.create == CreatedLatched));
  }

  lemma AppendCounted(s: St, len: nat, force: bool, a: AppendEnv)
    requires Inv(s) && Counted(s) && (Attached(s) || NeedsCycle(s, len)) && len > 0
    ensures Counted(Append(s, len, force, a).0)
  {
    hide Inv;
    hide Counted;
    hide Attached;
    hide Cycle;
    hide PublishSpan;
    CycleKeeps(s, len, force, a);
    CycleCounted(s, len, force, a);
    var (c, e) := if NeedsCycle(s, len) then Cycle(s, len, force, a) else (s, Nil);
    if !s.latched && e == Nil {
      LatchInv(c, a.opens == OpenedLatched);
      var o := c.(latched := a.opens == OpenedLatched);
      LatchCounted(c, o.latched);
      PublishCounted(o, [len], a.header);
      LatchCounted(PublishSpan(o, [len], a.header).0, true);
      LatchCounted(o, true);
    }
  }

  // ----- whole runs

  /** The answers an operation gets frame exactly the records laid down, or frame nothing. */
  ghost predicate HonestOp(w: World, op: Op) {
    match op
    case Reserve(env) => Honest(env, w.st.files) && HonestHead(env, w.st)
    case TakeUncommitted(env) => Honest(env, w.st.files) && HonestHead(env, w.st)
    case Reject(env) => Honest(env, w.st.files) && HonestHead(env, w.st)
    case AckOne(_, env) => Honest(env, w.st.files)
    case AckMany(_, env) => Honest(env, w.st.files)
    case Commit(_, env) => Honest(env, w.st.files)
    case SkipHead(take, retire) =>
      Honest(take, w.st.files) && HonestHead(take, w.st) && Honest(retire, TakeHead(w.st, take).0.files)
    case RequeueHead(take, a, retire) =>
      var (t, d) := TakeHead(w.st, take);
      && Honest(take, w.st.files) && HonestHead(take, w.st)
      && (d.Delivered? ==> Honest(retire, Append(t, d.next - d.at, true, a).0.files))
    case AppendOne(len, _) => len > 0
    case PublishMany(lens, _) => Positive(lens)
    case _ => true
  }

  ghost predicate HonestRun(w: World, ops: seq<Op>)
    decreases |ops|
  {
    ops != [] ==> HonestOp(w, ops[0]) && HonestRun(Exec(w, ops[0]), ops[1..])
  }

  lemma ReadCounts(w: World, op: Op)
    requires Sound(w) && Counted(w.st) && HonestOp(w, op) && (op.Reserve? || op.TakeUncommitted? || op.Reject?)
    ensures Counted(Exec(w, op).st)
  {
    hide Inv;
    hide TakeHead;
    hide Track;
    TakeCounted(w.st, op.take);
    TakeHeadKeeps(w.st, op.take, w.out);
    var (t, d) := TakeHead(w.st, op.take);
    if d.Delivered? {
      match op {
        case Reserve(_) => TrackCounted(t, Reservation(t.lastFrameAt, t.lastFrameEnd, false, false, 0));
        case TakeUncommitted(_) =>
        case Reject(_) =>
          HeadBetween(w.st);
          HeadCounted(t, w.st.headOff);
        case _ =>
      }
    }
  }

  lemma HeadCounted(s: St, head: int)
    requires Counted(s) && Between(s.files, head)
    ensures Counted(s.(headOff := head))
  {
    hide SegCounted;
  }

  lemma SkipCounts(w: World, op: Op)
    requires Sound(w) && Counted(w.st) && HonestOp(w, op) && op.SkipHead?
    ensures Counted(Exec(w, op).st)
  {
    hide Inv;
    hide Counted;
    hide TakeHead;
    hide RetireFrame;
    hide Honest;
    TakeCounted(w.st, op.take);
    TakeHeadKeeps(w.st, op.take, w.out);
    InvHead(w.st);
    var (t, d) := TakeHead(w.st, op.take);
    if d.Delivered? {
      RetireCountedFrame(t, t.lastFrameAt, t.lastFrameEnd, true, op.retire);
    }
  }

  lemma RequeueCounts(w: World, op: Op)
    requires Sound(w) && Counted(w.st) && HonestOp(w, op) && op.RequeueHead? && OntoTail(w, op)
    ensures Counted(Exec(w, op).st)
  {
    hide Inv;
    hide Counted;
    hide TakeHead;
    hide Append;
    hide NeedsCycle;
    hide Attached;
    hide RetireFrame;
    hide Honest;
    hide HonestHead;
    hide TakenCounted;
    hide Between;
    TakeHeadKeeps(w.st, op.take, w.out);
    TakeCounted(w.st, op.take);
    InvHead(w.st);
    var (t, d) := TakeHead(w.st, op.take);
    if d.Delivered? {
      var n := d.next - d.at;
      var (u, e) := Append(t, n, true, op.a);
      AppendKeeps(t, n, true, op.a);
      if e == Nil {
        CopyCounted(w.st, t, d, op.a, op.retire);
      } else {
        HeadBetween(w.st);
        RefusedCopyCounted(w.st, t, n, op.a);
      }
    }
  }

  lemma HeadBetween(s: St)
    requires Counted(s)
    ensures Between(s.files, s.headOff)
  {
  }

  /** The copy is in the log; the head it was taken from is retired. */
  lemma CopyCounted(s: St, t: St, d: Taken, a: AppendEnv, retire: Env)
    requires Inv(s) && Inv(t) && Counted(t) && d.Delivered? && Took(s, t, d) && TakenCounted(t, d)
    requires forall r <- s.reserved :: r.start < r.end <= s.headOff
    requires Attached(t) || NeedsCycle(t, d.next - d.at)
    requires Append(t, d.next - d.at, true, a).1 == Nil && Honest(retire, Append(t, d.next - d.at, true, a).0.files)
    ensures Counted(RetireFrame(Append(t, d.next - d.at, true, a).0, d.at, d.next, true, retire).0)
  {
    hide Inv;
    hide Counted;
    hide Append;
    hide RetireFrame;
    hide Honest;
    hide OneRecord;
    hide Within;
    hide Attached;
    hide NeedsCycle;
    hide Took;
    var n := d.next - d.at;
    TookWithin(s, t, d);
    AppendKeeps(t, n, true, a);
    AppendCounted(t, n, true, a);
    AppendKeepsWithin(t, n, true, a, d.at, d.next);
    AppendKeepsRecord(t, n, a, d.at, d.next);
    RetireCountedFrame(Append(t, n, true, a).0, d.at, d.next, true, retire);
  }

  lemma TookWithin(s: St, t: St, d: Taken)
    requires Inv(s) && d.Delivered? && Took(s, t, d)
    ensures Within(t.files, d.at, d.next) && t.commitOff <= d.at < d.next == t.headOff && t.reserved == s.reserved
    ensures forall r <- t.reserved :: r.end <= d.at
  {
  }

  /** The copy was refused and the head put back. */
  lemma RefusedCopyCounted(s: St, t: St, n: nat, a: AppendEnv)
    requires Inv(s) && Inv(t) && Counted(t) && Between(t.files, s.headOff) && s.headOff <= t.headOff
    requires t.reserved == s.reserved && t.commitOff == s.commitOff && n > 0 && (Attached(t) || NeedsCycle(t, n))
    ensures Counted(Append(t, n, true, a).0.(headOff := Min(Append(t, n, true, a).0.headOff, s.headOff)))
  {
    var t' := t.(headOff := s.headOff);
    hide Inv;
    hide Counted;
    hide Append;
    hide Between;
    HeadCounted(t, s.headOff);
    NoneOut(s);
    RewoundKeeps(s, t, {});
    AppendKeeps(t, n, true, a);
    AppendIgnores(t, t.reserved, s.headOff, n, true, a);
    assert Attached(t) ==> Attached(t');
    AppendCounted(t', n, true, a);
  }

  lemma DropIgnores(s: St, rs: seq<Reservation>, head: int, keep: int, env: Env)
    ensures DropCommitted(s.(reserved := rs, headOff := head), keep, env) == DropCommitted(s, keep, env).(reserved := rs, headOff := head)
  {
    hide Reclaim;
  }

  lemma CycleIgnores(s: St, rs: seq<Reservation>, head: int, need: nat, force: bool, x: AppendEnv)
    ensures var (c, e), (c', e') := Cycle(s, need, force, x), Cycle(s.(reserved := rs, headOff := head), need, force, x);
            c' == c.(reserved := rs, headOff := head) && e' == e
  {
    DropIgnores(s, rs, head, -1, x.drop);
    hide DropCommitted;
  }

  lemma WriteIgnores(s: St, rs: seq<Reservation>, head: int, i: nat, ans: WriteAns)
    requires i < |s.files|
    ensures var (c, e), (c', e') := WriteHeader(s, i, ans), WriteHeader(s.(reserved := rs, headOff := head), i, ans);
            |c.files| == |s.files| && c' == c.(reserved := rs, headOff := head) && e' == e
  {
  }

  lemma SpanIgnores(s: St, rs: seq<Reservation>, head: int, f: Seg, lens: seq<nat>, torn: seq<int>)
    requires s.files != []
    ensures var s' := s.(reserved := rs, headOff := head);
            && Lengthened(s', lens) == Lengthened(s, lens).(reserved := rs, headOff := head)
            && Shortened(s', f, lens, torn) == Shortened(s, f, lens, torn).(reserved := rs, headOff := head)
    ensures |Lengthened(s, lens).files| == |s.files|
  {
    hide Grown;
    hide SumLens;
  }

  lemma PublishIgnores(s: St, rs: seq<Reservation>, head: int, lens: seq<nat>, ans: WriteAns)
    ensures var (c, e), (c', e') := PublishSpan(s, lens, ans), PublishSpan(s.(reserved := rs, headOff := head), lens, ans);
            c' == c.(reserved := rs, headOff := head) && e' == e
  {
    hide Lengthened;
    hide Shortened;
    hide EndsAfter;
    hide WriteHeader;
    if s.files != [] {
      var f := s.files[|s.files| - 1];
      var torn := if TornWrite(s, ans) then EndsAfter(f.size, lens) else f.torn;
      SpanIgnores(s, rs, head, f, lens, torn);
      WriteIgnores(Lengthened(s, lens), rs, head, |s.files| - 1, ans);
      SpanIgnores(WriteHeader(Lengthened(s, lens), |s.files| - 1, ans).0, rs, head, f, lens, torn);
    }
  }

  lemma WriteOutIgnores(c: St, rs: seq<Reservation>, head: int, len: nat, x: AppendEnv)
    ensures WriteOut(c.(reserved := rs, headOff := head), len, x).0 == WriteOut(c, len, x).0.(reserved := rs, headOff := head)
  {
    hide PublishSpan;
    PublishIgnores(c.(latched := x.opens == OpenedLatched), rs, head, [len], x.header);
  }

  /** An append neither reads nor writes the ledger and the read cursor. */
  lemma AppendIgnores(s: St, rs: seq<Reservation>, head: int, len: nat, force: bool, x: AppendEnv)
    ensures Append(s.(reserved := rs, headOff := head), len, force, x).0 == Append(s, len, force, x).0.(reserved := rs, headOff := head)
  {
    hide Cycle;
    hide WriteOut;
    CycleIgnores(s, rs, head, len, force, x);
    var (c, e) := if NeedsCycle(s, len) then Cycle(s, len, force, x) else (s, Nil);
    WriteOutIgnores(c, rs, head, len, x);
  }

  /** A record's boundaries count the same in the segment that holds it after an append. */
  lemma AppendKeepsRecord(s: St, len: nat, x: AppendEnv, a: int, b: int)
    requires Inv(s) && Counted(s) && (Attached(s) || NeedsCycle(s, len)) && len > 0
    requires a < b && s.commitOff < b <= s.headOff && Within(s.files, a, b)
    requires forall f <- s.files :: Holds(f, a, b) ==> OneRecord(f, a, b)
    ensures forall f <- Append(s, len, true, x).0.files :: Holds(f, a, b) ==> OneRecord(f, a, b)
  {
    // the fact, carried through as a ledger entry: an append neither reads nor writes the ledger
    hide Inv;
    hide SegCounted;
    hide Append;
    hide RankIn;
    var r := Reservation(a, b, false, false, 0);
    var s' := s.(reserved := [r]);
    AloneInLedger(s, r);
    AppendKeeps(s', len, true, x);
    AppendCounted(s', len, true, x);
    AppendIgnores(s, [r], s.headOff, len, true, x);
    var u' := Append(s', len, true, x).0;
    assert r in u'.reserved;
  }

  lemma AloneInLedger(s: St, r: Reservation)
    requires Inv(s) && Counted(s) && r.start < r.end <= s.headOff && Within(s.files, r.start, r.end)
    requires forall f <- s.files :: Holds(f, r.start, r.end) ==> EntryCounted(r, f)
    ensures Inv(s.(reserved := [r])) && Counted(s.(reserved := [r]))
  {
    hide SegCounted;
    LedgerKeepsInv(s, [r]);
  }

  lemma MarkCounted(s: St, end: int)
    requires Counted(s)
    ensures Counted(s.(reserved := MarkAcked(s.reserved, end)))
  {
    hide SegCounted;
    hide OneRecord;
    hide RankIn;
    hide Holds;
    MarkedEntries(s, end);
    hide MarkAcked;
  }

  lemma AckedAlike(q: Reservation, r: Reservation, f: Seg)
    requires q == r.(acked := q.acked)
    ensures EntryCounted(q, f) <==> EntryCounted(r, f)
  {
  }

  lemma MarkedEntries(s: St, end: int)
    requires LedgerCounted(s)
    ensures forall r <- MarkAcked(s.reserved, end), f <- s.files ::
              r.end > s.commitOff && Holds(f, r.start, r.end) ==> EntryCounted(r, f)
  {
    hide EntryCounted;
    hide Holds;
    hide MarkAcked;
    forall r <- MarkAcked(s.reserved, end), f <- s.files | r.end > s.commitOff && Holds(f, r.start, r.end)
      ensures EntryCounted(r, f)
    {
      var q := Unmarked(s.reserved, end, r);
      AckedAlike(q, r, f);
    }
  }

  lemma {:induction false} MarkAllCounted(s: St, offs: seq<int>)
    requires Counted(s)
    ensures Counted(MarkAll(s, offs).0)
    decreases |offs|
  {
    hide Counted;
    if offs != [] {
      MarkCounted(s, offs[0]);
      MarkAllCounted(s, offs[1..]);
      MarkAllCounted(s.(reserved := MarkAcked(s.reserved, offs[0])), offs[1..]);
    }
  }

  lemma AckCounts(w: World, op: Op)
    requires Sound(w) && Counted(w.st) && HonestOp(w, op) && (op.AckOne? || op.AckMany?)
    ensures Counted(Exec(w, op).st)
  {
    hide Inv;
    hide Counted;
    hide CommitAckedRun;
    hide Honest;
    var s := w.st;
    SameButLedger(s);
    LedgerOnlyCounted(s, DropRetired(s).reserved);
    DropRetiredKeeps(s, w.out);
    var d := DropRetired(s);
    hide DropRetired;
    match op {
      case AckOne(off, env) =>
        MarkCounted(d, off);
        if Names(d.reserved, off) {
          MarkKeeps(d, off, w.out);
          RunCounted(d.(reserved := MarkAcked(d.reserved, off)), true, env);
        }
      case AckMany(offs, env) =>
        MarkAllCounted(d, offs);
        MarkAllKeeps(d, offs, w.out);
        RunCounted(MarkAll(d, offs).0, true, env);
    }
  }

  lemma RewindCounted(s: St)
    requires Counted(s)
    ensures Counted(Rewind(s))
  {
    CountedBySeqs(s);
    CommitIsBetween(s.files, s.commitOff);
    hide SegCounted;
  }

  lemma PinsCounted(s: St, i: nat, pins: nat)
    requires Counted(s) && i < |s.files|
    ensures Counted(Put(s, i, s.files[i].(pins := pins)))
  {
    var t := Put(s, i, s.files[i].(pins := pins));
    ShapeIsLayout(s.files, t.files);
    LedgerCountedCarries(s, t);
    CountedBySeqs(s);
    ShapeIsBetween(s.files, t.files, s.headOff);
    forall j | 0 <= j < |t.files| ensures SegCounted(t.files[j], t.commitOff) {
      assert SegCounted(s.files[j], s.commitOff);
    }
    hide SegCounted;
    hide Between;
    hide LedgerCounted;
    CountedBySeqs(t);
  }

  lemma CapCounted(s: St, bytes: nat)
    requires Counted(s)
    ensures Counted(s.(maxBytes := bytes))
  {
    hide SegCounted;
    hide Between;
  }

  lemma ExecCounts(w: World, op: Op)
    requires Sound(w) && OntoTail(w, op) && Counted(w.st) && HonestOp(w, op)
    ensures Counted(Exec(w, op).st)
  {
    hide Inv;
    hide Counted;
    match op
    case Reserve(_) => ReadCounts(w, op);
    case TakeUncommitted(_) => ReadCounts(w, op);
    case Reject(_) => ReadCounts(w, op);
    case AckOne(_, _) => AckCounts(w, op);
    case AckMany(_, _) => AckCounts(w, op);
    case Commit(off, env) => CommitCounted(w.st, off, true, env);
    case SkipHead(_, _) => SkipCounts(w, op);
    case RequeueHead(_, _, _) => RequeueCounts(w, op);
    case RewindAll => RewindCounted(w.st);
    case AppendOne(len, a) => AppendCounted(w.st, len, false, a);
    case PublishMany(lens, ans) => PublishCounted(w.st, lens, ans);
    case SetPins(i, pins) =>
      if i < |w.st.files| {
        PinsCounted(w.st, i, pins);
      }
    case SetCap(bytes) => CapCounted(w.st, bytes);
  }

  /** Counts stay exact over every run whose answers frame only what was laid down. */
  lemma {:induction false} RunCounts(w: World, ops: seq<Op>)
    requires Sound(w) && Legal(w, ops) && Counted(w.st) && HonestRun(w, ops)
    ensures Counted(Run(w, ops).st)
    decreases |ops|
  {
    hide Sound;
    hide Counted;
    hide HonestOp;
    if ops != [] {
      ExecKeeps(w, ops[0]);
      ExecCounts(w, ops[0]);
      RunCounts(Exec(w, ops[0]), ops[1..]);
    }
  }

  /** Records laid down past the commit cursor. */
  function Backlog(fs: seq<Seg>, c: int): int {
    if fs == [] then 0 else |fs[0].ends| - Rank(fs[0].ends, fs[0].Pos(c)) + Backlog(fs[1..], c)
  }

  lemma {:induction false} BacklogBySegments(fs: seq<Seg>, c: int)
    requires forall f <- fs :: SegCounted(f, c)
    ensures Backlog(fs, c) == SumWritten(fs) - SumCommitted(fs)
    decreases |fs|
  {
    if fs != [] {
      assert SegCounted(fs[0], c) && forall f <- fs[1..] :: f in fs;
      BacklogBySegments(fs[1..], c);
    }
  }

  /** Count() is the number of records past the commit cursor, after any such run. */
  lemma CountIsTheBacklog(w: World, ops: seq<Op>)
    requires Sound(w) && Legal(w, ops) && Counted(w.st) && HonestRun(w, ops)
    ensures var s := Run(w, ops).st; s.nWritten - s.nCommitted == Backlog(s.files, s.commitOff)
  {
    RunCounts(w, ops);
    CountsAreSums(w, ops);
    var s := Run(w, ops).st;
    hide Run;
    BacklogBySegments(s.files, s.commitOff);
  }
}
