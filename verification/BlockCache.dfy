/** The read path of record.go: one cached block over the segments, against decoding their bytes directly. */
module BlockCache {
  import opened Ints
  import opened Bytes
  import opened Frame

  const READ_AHEAD := 0x1_0000

  /** One segment: its place in the stream, its published size, and the data bytes its file holds. */
  datatype Segment = Segment(base: nat, size: nat, data: seq<byte>) {
    function End(): nat {
      base + size
    }

    predicate Sound() {
      size < TWO63 && |data| < TWO63
    }
  }

  datatype Option<T> = None | Some(value: T)

  /** recordAt's answers; Damaged is a read that ran off the file's end, EIO one that said nothing. */
  datatype Answer = Found(r: Record, next: nat) | NotAFrame | Damaged | EIO

  datatype Length = Ends(next: nat) | NoLength | ShortFile | LenEIO

  datatype HeadAnswer = Decoded(h: Head) | HeadDamaged | HeadEIO

  datatype ReadResult = Filled | Short | Failed

  /** Decoding the segment's bytes with no cache in between. */
  function DirectHead(p: Platform, s: Segment, at: nat): (h: HeadAnswer)
    requires s.Sound() && at < s.size
    ensures h.Decoded? && h.h.Head? ==> h.h.n + CHECKSUM_SIZE <= h.h.total <= s.size - at
  {
    var probe := Min(MAX_VARINT, s.size - at);
    if at + probe > |s.data| then HeadDamaged else Decoded(DecodeProbe(p, s.data[at..at + probe], s.size - at))
  }

  function DirectLength(p: Platform, s: Segment, off: int): Length
    requires s.Sound()
  {
    if !(s.base <= off < s.End()) then NoLength
    else match DirectHead(p, s, off - s.base)
      case HeadDamaged => ShortFile
      case HeadEIO => LenEIO
      case Decoded(h) => if h.NoHead? then NoLength else Ends(off + h.total)
  }

  function DirectRecord(p: Platform, s: Segment, off: int): Answer
    requires s.Sound()
  {
    if !(s.base <= off < s.End()) then NotAFrame
    else match DirectHead(p, s, off - s.base)
      case HeadDamaged => Damaged
      case HeadEIO => EIO
      case Decoded(h) =>
        if h.NoHead? then NotAFrame
        else if off - s.base + h.total > |s.data| then Damaged
        else Found(RecordIn(s.data[off - s.base..], h), off + h.total)
  }

  lemma SamePrefix(d: seq<byte>, d': seq<byte>, at: nat, n: nat, n': nat)
    requires at + n <= |d| && at + n <= at + n' <= |d'|
    requires forall i | at <= i < at + n :: d'[i] == d[i]
    ensures d[at..at + n] <= d'[at..at + n']
  {
  }

  /** A record once framed frames the same for good: growth past the published size never moves it. */
  lemma LengthOutlivesGrowth(p: Platform, s: Segment, s': Segment, off: int)
    requires s.Sound() && s'.Sound() && DirectLength(p, s, off).Ends?
    requires s'.base == s.base && s'.size >= s.size && |s'.data| >= |s.data| && |s'.data| >= s'.size
    requires forall i | 0 <= i < Min(s.size, |s.data|) :: s'.data[i] == s.data[i]
    ensures DirectLength(p, s', off) == DirectLength(p, s, off)
  {
    hide UvarintFrom;
    hide DecodeProbe;
    var at := off - s.base;
    var n, n' := Min(MAX_VARINT, s.size - at), Min(MAX_VARINT, s'.size - at);
    SamePrefix(s.data, s'.data, at, n, n');
    DecodeInOtherExtent(p, s.data[at..at + n], s.size - at, s'.data[at..at + n'], s'.size - at);
  }

  /** The block run never extends past the published size it was read at. */
  predicate Holds(s: Segment, buf: seq<byte>, at: nat, n: nat) {
    && at + n <= Min(s.size, |s.data|)
    && n <= |buf|
    && buf[..n] == s.data[at..at + n]
  }

  ghost predicate SegmentsSound(segs: map<nat, Segment>) {
    && (forall f <- segs :: segs[f].Sound())
    && forall f, g | f in segs && g in segs && f != g :: segs[f].End() <= segs[g].base || segs[g].End() <= segs[f].base
  }

  ghost predicate FrameCached(p: Platform, s: Segment, at: nat, end: nat) {
    s.Sound() && DirectLength(p, s, at) == Ends(end)
  }

  /** A cached boundary is one some live segment's bytes give. */
  ghost predicate FrameCacheTrue(p: Platform, segs: map<nat, Segment>, at: nat, end: nat) {
    end != 0 ==> exists f <- segs :: FrameCached(p, segs[f], at, end)
  }

  ghost predicate BlockTrue(segs: map<nat, Segment>, file: Option<nat>, buf: seq<byte>, at: nat, n: nat) {
    file.Some? ==> file.value in segs && Holds(segs[file.value], buf, at, n)
  }

  lemma HoldsRun(s: Segment, buf: seq<byte>, at: nat, len: nat, i: nat, n: nat)
    requires Holds(s, buf, at, len) && i + n <= len
    ensures buf[i..i + n] == s.data[at + i..at + i + n]
  {
    assert buf[..len][i..i + n] == buf[i..i + n];
    assert s.data[at..at + len][i..i + n] == s.data[at + i..at + i + n];
  }

  lemma HoldsExtended(s: Segment, buf: seq<byte>, at: nat, have: nat, n: nat)
    requires have <= n <= |buf| && at + n <= Min(s.size, |s.data|)
    requires buf[..have] == s.data[at..at + have] && buf[have..n] == s.data[at + have..at + n]
    ensures Holds(s, buf, at, n)
  {
    assert buf[..n] == buf[..have] + buf[have..n];
  }

  /** Growing a segment's extent, or writing past it, leaves both caches true. */
  lemma CachesSurviveGrowth(p: Platform, segs: map<nat, Segment>, f: nat, s': Segment,
                            at: nat, end: nat, file: Option<nat>, buf: seq<byte>, off: nat, n: nat)
    requires SegmentsSound(segs) && f in segs && s'.Sound()
    requires s'.base == segs[f].base && s'.size >= segs[f].size && |s'.data| == |segs[f].data| >= s'.size
    requires forall i | 0 <= i < segs[f].size :: s'.data[i] == segs[f].data[i]
    requires FrameCacheTrue(p, segs, at, end) && BlockTrue(segs, file, buf, off, n)
    ensures FrameCacheTrue(p, segs[f := s'], at, end) && BlockTrue(segs[f := s'], file, buf, off, n)
  {
    hide DirectLength;
    if end != 0 {
      var g :| g in segs && FrameCached(p, segs[g], at, end);
      if g == f {
        LengthOutlivesGrowth(p, segs[f], s', at);
      }
      assert FrameCached(p, segs[f := s'][g], at, end);
    }
    if file == Some(f) {
      assert s'.data[off..off + n] == segs[f].data[off..off + n];
    }
  }

  function PublishedBytes(s: Segment): seq<byte>
    requires s.size <= |s.data|
  {
    s.data[..s.size]
  }

  lemma DirectIsDecodeHead(p: Platform, s: Segment, at: nat)
    requires s.Sound() && s.size <= |s.data| && at < s.size
    ensures DirectHead(p, s, at) == Decoded(DecodeHead(p, PublishedBytes(s)[at..]))
  {
    var n := Min(MAX_VARINT, s.size - at);
    assert s.data[at..at + n] == PublishedBytes(s)[at..][..n];
  }

  /** On a segment whose file holds all it publishes, recordLen answers what the walk decodes. */
  lemma LengthIsDecodeHead(p: Platform, s: Segment, off: nat)
    requires s.Sound() && s.size <= |s.data| && s.base <= off < s.End()
    ensures var h := DecodeHead(p, PublishedBytes(s)[off - s.base..]);
            DirectLength(p, s, off) == if h.NoHead? then NoLength else Ends(off + h.total)
  {
    DirectIsDecodeHead(p, s, off - s.base);
  }

  lemma RecordIsDecodeHead(p: Platform, s: Segment, off: nat)
    requires s.Sound() && s.size <= |s.data| && s.base <= off < s.End()
    ensures var b := PublishedBytes(s)[off - s.base..];
            var h := DecodeHead(p, b);
            DirectRecord(p, s, off) == if h.NoHead? then NotAFrame else Found(RecordIn(b, h), off + h.total)
  {
    var at := off - s.base;
    DirectIsDecodeHead(p, s, at);
    var b := PublishedBytes(s)[at..];
    var h := DecodeHead(p, b);
    if h.Head? {
      SliceOfSlice(s.data, s.size, at, h.total);
      SameRecord(s.data[at..], b, h);
    }
  }

  lemma SliceOfSlice(d: seq<byte>, size: nat, at: nat, n: nat)
    requires at + n <= size <= |d|
    ensures d[at..][..n] == d[..size][at..][..n]
  {
  }

  /** The walk from off on: how many records it still counts, and where it ends. */
  function LeftToWalk(p: Platform, s: Segment, off: int, verified: bool): (r: (nat, int))
    requires s.Sound() && s.size <= |s.data| && s.base <= off <= s.End()
  {
    var b := PublishedBytes(s)[off - s.base..];
    var w := if verified then VerifiedWalk(p, b) else Walk(p, b);
    (|w|, off + Extent(w))
  }

  lemma LengthSteps(p: Platform, s: Segment, off: nat)
    requires s.Sound() && s.size <= |s.data| && s.base <= off < s.End()
    ensures var l := DirectLength(p, s, off);
            match l
            case Ends(next) => off < next <= s.End() && LeftToWalk(p, s, off, false) == (LeftToWalk(p, s, next, false).0 + 1, LeftToWalk(p, s, next, false).1)
            case NoLength => LeftToWalk(p, s, off, false) == (0, off)
            case _ => false
  {
    hide Walk;
    hide VerifiedWalk;
    hide DecodeHead;
    hide DirectLength;
    LengthIsDecodeHead(p, s, off);
    WalkStep(p, PublishedBytes(s), off - s.base);
  }

  lemma RecordSteps(p: Platform, s: Segment, off: nat)
    requires s.Sound() && s.size <= |s.data| && s.base <= off < s.End()
    ensures var a := DirectRecord(p, s, off);
            match a
            case Found(r, next) =>
              if p.hash(r.payload) == r.sum then
                && off < next <= s.End()
                && LeftToWalk(p, s, off, true) == (LeftToWalk(p, s, next, true).0 + 1, LeftToWalk(p, s, next, true).1)
              else LeftToWalk(p, s, off, true) == (0, off)
            case NotAFrame => LeftToWalk(p, s, off, true) == (0, off)
            case _ => false
  {
    hide Walk;
    hide VerifiedWalk;
    hide DecodeHead;
    hide DirectRecord;
    RecordIsDecodeHead(p, s, off);
    WalkStep(p, PublishedBytes(s), off - s.base);
  }

  lemma LeftAtTheEnds(p: Platform, s: Segment, verified: bool)
    requires s.Sound() && s.size <= |s.data|
    ensures LeftToWalk(p, s, s.End(), verified) == (0, s.End())
    ensures var w := if verified then VerifiedWalk(p, PublishedBytes(s)) else Walk(p, PublishedBytes(s));
            LeftToWalk(p, s, s.base, verified) == (|w|, s.base + Extent(w))
  {
    assert PublishedBytes(s)[s.size..] == [];
    assert PublishedBytes(s)[0..] == PublishedBytes(s);
    assert Walk(p, []) == [] && VerifiedWalk(p, []) == [];
  }

  /** The extent is exactly the records the walk trusted, n of them, and walking it again finds them all. */
  ghost predicate ClampedTo(p: Platform, was: Segment, now: Segment, n: nat, verified: bool) {
    && was.Sound() && now.Sound() && was.size <= |was.data|
    && var w := if verified then VerifiedWalk(p, PublishedBytes(was)) else Walk(p, PublishedBytes(was));
    && now == was.(size := Extent(w)) && now.size <= was.size && n == |w|
    && Walk(p, PublishedBytes(now)) == w
  }

  lemma SegmentIsSound(segs: map<nat, Segment>, f: nat)
    requires SegmentsSound(segs) && f in segs
    ensures segs[f].Sound()
  {
  }

  lemma ClampHolds(p: Platform, s: Segment, n: nat, end: nat, verified: bool)
    requires s.Sound() && s.size <= |s.data| && (n, end) == LeftToWalk(p, s, s.base, verified)
    ensures s.base <= end <= s.End() && ClampedTo(p, s, s.(size := end - s.base), n, verified)
  {
    var b := PublishedBytes(s);
    var w := if verified then VerifiedWalk(p, b) else Walk(p, b);
    LeftAtTheEnds(p, s, verified);
    VerifiedIsIntactPrefix(p, b);
    ClampedWalk(p, b, w);
    assert PublishedBytes(s.(size := end - s.base)) == b[..Extent(w)];
  }

  /** The caches and the layout after an extent is cut back and the block forgotten. */
  lemma CutIsSound(segs: map<nat, Segment>, f: nat, size: nat)
    requires SegmentsSound(segs) && f in segs && size <= segs[f].size
    ensures SegmentsSound(segs[f := segs[f].(size := size)])
  {
  }

  /** The frame sliced out of the block is the frame on disk. */
  lemma FrameSliced(p: Platform, s: Segment, off: nat, frame: seq<byte>, h: Head)
    requires s.Sound() && s.base <= off < s.End() && DirectHead(p, s, off - s.base) == Decoded(h) && h.Head?
    requires off - s.base + h.total <= |s.data| && frame == s.data[off - s.base..off - s.base + h.total]
    ensures DirectRecord(p, s, off) == Found(RecordIn(frame, h), off + h.total)
  {
    assert frame == s.data[off - s.base..][..h.total];
    SameRecord(frame, s.data[off - s.base..], h);
  }

  class Store {
    const p: Platform
    const faults: nat -> bool  // does the k-th pread fail
    var preads: nat
    var eios: nat              // how many have
    var segs: map<nat, Segment>
    var readBuf: seq<byte>
    var blockFile: Option<nat>
    var blockOff: nat
    var blockLen: nat
    var lastFrameAt: nat
    var lastFrameEnd: nat

    ghost predicate Valid()
      reads this
    {
      && SegmentsSound(segs)
      && FrameCacheTrue(p, segs, lastFrameAt, lastFrameEnd)
      && BlockTrue(segs, blockFile, readBuf, blockOff, blockLen)
    }

    constructor (p: Platform, faults: nat -> bool)
      ensures Valid() && segs == map[] && blockFile == None
    {
      this.p, this.faults, preads, eios := p, faults, 0, 0;
      segs, readBuf, blockFile := map[], [], None;
      blockOff, blockLen, lastFrameAt, lastFrameEnd := 0, 0, 0, 0;
    }

    predicate BlockHas(f: nat, at: nat, n: nat)
      reads this
    {
      blockFile == Some(f) && at >= blockOff && at + n <= blockOff + blockLen
    }

    function BlockAt(f: nat, at: nat, n: nat): (b: seq<byte>)
      requires Valid() && BlockHas(f, at, n)
      reads this
      ensures f in segs && at + n <= Min(|segs[f].data|, segs[f].size) && b == segs[f].data[at..at + n]
    {
      var i := at - blockOff;
      HoldsRun(segs[f], readBuf, blockOff, blockLen, i, n);
      readBuf[i..i + n]
    }

    method DropBlock()
      modifies this`blockFile, this`blockOff, this`blockLen
      ensures blockFile == None && blockLen == 0
      ensures old(Valid()) ==> Valid()
    {
      blockFile, blockOff, blockLen := None, 0, 0;
    }

    /** One pread of n bytes into readBuf[have..]; on failure the tail holds anything. */
    method Pread(f: nat, at: nat, have: nat, n: nat) returns (r: ReadResult)
      requires f in segs && have <= |readBuf| && have <= n
      modifies this`readBuf, this`preads, this`eios
      ensures |readBuf| >= n && readBuf[..have] == old(readBuf[..have])
      ensures r.Filled? ==> at + n <= |segs[f].data| && readBuf[have..n] == segs[f].data[at + have..at + n]
      ensures r.Short? ==> at + n > |segs[f].data|
      ensures eios >= old(eios) && (r.Failed? <==> eios > old(eios))
    {
      var failed := faults(preads);
      preads := preads + 1;
      eios := eios + if failed then 1 else 0;
      if failed || at + n > |segs[f].data| {
        assert |Zeros(n - have)| == n - have;
        var junk: seq<byte> :| |junk| == n - have;
        readBuf := readBuf[..have] + junk;
        return if failed then Failed else Short;
      }
      readBuf := readBuf[..have] + segs[f].data[at + have..at + n];
      return Filled;
    }

    method ReadBlock(f: nat, at: nat, n: nat) returns (r: ReadResult)
      requires Valid() && f in segs && at + n <= segs[f].size
      modifies this`readBuf, this`preads, this`eios, this`blockFile, this`blockOff, this`blockLen
      ensures Valid()
      ensures r.Filled? ==> BlockHas(f, at, n)
      ensures r.Short? ==> at + n > |segs[f].data|
      ensures eios >= old(eios) && (r.Failed? <==> eios > old(eios))
    {
      hide FrameCacheTrue;
      hide SegmentsSound;
      var have := 0;
      if blockFile == Some(f) && blockOff == at {
        if blockLen >= n {
          return Filled;
        }
        have := blockLen;
      }
      if have == 0 {
        DropBlock();
      }
      r := Pread(f, at, have, n);
      if r.Filled? {
        HoldsExtended(segs[f], readBuf, at, have, n);
        blockFile, blockOff, blockLen := Some(f), at, n;
      }
    }

    /** Covers need bytes at at, reading ahead when the file allows it and exactly need when it does not. */
    method FillBlock(f: nat, at: nat, avail: nat, need: nat) returns (r: ReadResult)
      requires Valid() && f in segs && at + avail == segs[f].size && need <= avail
      modifies this`readBuf, this`preads, this`eios, this`blockFile, this`blockOff, this`blockLen
      ensures Valid()
      ensures r.Filled? ==> BlockHas(f, at, need)
      ensures r.Short? ==> at + need > |segs[f].data|
      ensures !r.Filled? ==> blockFile == None
      ensures eios >= old(eios) && (r.Failed? <==> eios > old(eios))
    {
      var want := Min(Max(READ_AHEAD, need), avail);
      r := ReadBlock(f, at, want);
      if r.Short? && need < want {
        r := ReadBlock(f, at, need);
      }
      if !r.Filled? {
        DropBlock();
      }
    }

    method FrameHeader(f: nat, at: nat, avail: nat) returns (h: HeadAnswer)
      requires Valid() && f in segs && at < segs[f].size && avail == segs[f].size - at
      modifies this`readBuf, this`preads, this`eios, this`blockFile, this`blockOff, this`blockLen
      ensures Valid()
      ensures h.HeadEIO? || h == DirectHead(p, segs[f], at)
      ensures eios >= old(eios) && (h.HeadEIO? <==> eios > old(eios))
    {
      hide FrameCacheTrue;
      var probe := Min(MAX_VARINT, avail);
      if !BlockHas(f, at, probe) {
        var r := FillBlock(f, at, avail, probe);
        if r.Failed? {
          return HeadEIO;
        }
        if r.Short? {
          return HeadDamaged;
        }
      }
      var bytes := BlockAt(f, at, probe);
      return Decoded(DecodeProbe(p, bytes, avail));
    }

    /** Whatever the cache holds, the answer is the direct decoder's, or a pread failed. */
    method RecordAt(f: nat, off: nat) returns (a: Answer)
      requires Valid() && f in segs
      modifies this`readBuf, this`preads, this`eios, this`blockFile, this`blockOff, this`blockLen
      ensures Valid()
      ensures a.EIO? || a == DirectRecord(p, segs[f], off)
      ensures eios >= old(eios) && (a.EIO? <==> eios > old(eios))
    {
      hide FrameCacheTrue;
      hide DecodeProbe;
      hide DecodeHead;
      hide RecordIn;
      var s := segs[f];
      if off < s.base || off >= s.base + s.size {
        return NotAFrame;
      }
      var at, avail := off - s.base, s.size - (off - s.base);
      var h := FrameHeader(f, at, avail);
      match h
      case HeadEIO => return EIO;
      case HeadDamaged => return Damaged;
      case Decoded(head) =>
        if head.NoHead? {
          return NotAFrame;
        }
        if !BlockHas(f, at, head.total) {
          var r := FillBlock(f, at, avail, head.total);
          if r.Failed? {
            return EIO;
          }
          if r.Short? {
            return Damaged;
          }
        }
        var frame := BlockAt(f, at, head.total);
        FrameSliced(p, s, off, frame, head);
        return Found(RecordIn(frame, head), off + head.total);
    }

    method RecordLen(f: nat, off: nat) returns (l: Length)
      requires Valid() && f in segs
      modifies this`readBuf, this`preads, this`eios, this`blockFile, this`blockOff, this`blockLen
      ensures Valid()
      ensures l.LenEIO? || l == DirectLength(p, segs[f], off)
      ensures eios >= old(eios) && (l.LenEIO? <==> eios > old(eios))
    {
      var s := segs[f];
      if off < s.base || off >= s.base + s.size {
        return NoLength;
      }
      var h := FrameHeader(f, off - s.base, s.size - (off - s.base));
      match h
      case HeadEIO => return LenEIO;
      case HeadDamaged => return ShortFile;
      case Decoded(head) =>
        return if head.NoHead? then NoLength else Ends(off + head.total);
    }

    /** The boundary cache answers for the segment that owns off exactly what its bytes say. */
    method FrameEnd(f: nat, off: nat) returns (l: Length)
      requires Valid() && f in segs && segs[f].base <= off < segs[f].End()
      modifies this`readBuf, this`preads, this`eios, this`blockFile, this`blockOff, this`blockLen
      ensures Valid()
      ensures l.LenEIO? || l == DirectLength(p, segs[f], off)
      ensures eios >= old(eios) && (l.LenEIO? <==> eios > old(eios))
    {
      if lastFrameEnd != 0 && lastFrameAt == off {
        return Ends(lastFrameEnd);
      }
      l := RecordLen(f, off);
    }

    /** takeHead's hand-over of the boundary it just read to the commit that follows. */
    method NoteFrame(f: nat, off: nat, next: nat)
      requires Valid() && f in segs && DirectRecord(p, segs[f], off).Found? && DirectRecord(p, segs[f], off).next == next
      modifies this`lastFrameAt, this`lastFrameEnd
      ensures Valid() && lastFrameAt == off && lastFrameEnd == next
    {
      lastFrameAt, lastFrameEnd := off, next;
      assert FrameCached(p, segs[f], off, next);
    }

    ghost predicate HoldsPublished(f: nat)
      reads this`segs
    {
      f in segs && segs[f].size <= |segs[f].data|
    }

    /** writeRecord, for append and for staging: bytes land past the published extent only. */
    method WriteRecord(f: nat, at: nat, payload: seq<byte>)
      requires Valid() && HoldsPublished(f) && segs[f].size <= at
      requires at + |FrameOf(p, payload)| <= |segs[f].data|
      modifies this`segs
      ensures Valid() && HoldsPublished(f)
      ensures segs == old(segs)[f := old(segs)[f].(data := segs[f].data)]
      ensures var d, d', b := old(segs)[f].data, segs[f].data, FrameOf(p, payload);
              d' == d[..at] + b + d[at + |b|..]
    {
      var s := segs[f];
      var b := FrameOf(p, payload);
      var s' := s.(data := s.data[..at] + b + s.data[at + |b|..]);
      ReplacePublished(f, s');
    }

    /** publishSpan: the extent grows, and shrinks back under the same lock when the header write fails. */
    method PublishSpan(f: nat, span: nat, headerWritten: bool)
      requires Valid() && HoldsPublished(f) && segs[f].size + span <= |segs[f].data|
      requires forall g <- segs :: g != f ==> segs[g].End() <= segs[f].base
      modifies this`segs
      ensures Valid()
      ensures segs == if headerWritten then old(segs)[f := old(segs)[f].(size := old(segs)[f].size + span)] else old(segs)
    {
      hide FrameCacheTrue;
      hide BlockTrue;
      var s := segs[f];
      ghost var before := segs;
      segs := segs[f := s.(size := s.size + span)];
      if headerWritten {
        CachesSurviveGrowth(p, before, f, segs[f], lastFrameAt, lastFrameEnd, blockFile, readBuf, blockOff, blockLen);
      } else {
        segs := segs[f := s];
        assert segs == before;
      }
    }

    method ReplacePublished(f: nat, s': Segment)
      requires Valid() && HoldsPublished(f) && s'.Sound()
      requires s'.base == segs[f].base && s'.size >= segs[f].size && |s'.data| == |segs[f].data| >= s'.size
      requires forall i | 0 <= i < segs[f].size :: s'.data[i] == segs[f].data[i]
      requires s'.size == segs[f].size || forall g <- segs :: g != f ==> segs[g].End() <= segs[f].base
      modifies this`segs
      ensures Valid() && segs == old(segs)[f := s']
    {
      hide FrameCacheTrue;
      hide BlockTrue;
      CachesSurviveGrowth(p, segs, f, s', lastFrameAt, lastFrameEnd, blockFile, readBuf, blockOff, blockLen);
      segs := segs[f := s'];
    }

    /** createFile: a preallocated segment at the tail. */
    method AddSegment(f: nat, base: nat, capacity: nat)
      requires Valid() && f !in segs && capacity < TWO63
      requires forall g <- segs :: segs[g].End() <= base
      modifies this`segs
      ensures Valid() && segs == old(segs)[f := Segment(base, 0, Zeros(capacity))]
    {
      hide DirectLength;
      segs := segs[f := Segment(base, 0, Zeros(capacity))];
      if lastFrameEnd != 0 {
        ghost var g :| g in old(segs) && FrameCached(p, old(segs)[g], lastFrameAt, lastFrameEnd);
        assert FrameCached(p, segs[g], lastFrameAt, lastFrameEnd);
      }
    }

    /** dropCommitted: both caches go before any segment does. */
    method Reclaim(gone: set<nat>)
      requires Valid()
      modifies this`segs, this`blockFile, this`blockOff, this`blockLen, this`lastFrameAt, this`lastFrameEnd
      ensures Valid() && segs == old(segs) - gone
    {
      lastFrameAt, lastFrameEnd := 0, 0;
      DropBlock();
      segs := segs - gone;
    }

    ghost function Published(f: nat): seq<byte>
      requires HoldsPublished(f)
      reads this`segs
    {
      PublishedBytes(segs[f])
    }

    /** Counts the whole frames a truncated segment still holds and where the last one ends. */
    method SurviveCount(f: nat) returns (ok: bool, n: nat, end: nat)
      requires Valid() && HoldsPublished(f)
      modifies this`readBuf, this`preads, this`eios, this`blockFile, this`blockOff, this`blockLen
      ensures Valid()
      ensures ok ==> (n, end) == LeftToWalk(p, segs[f], segs[f].base, false)
      ensures ok <==> eios == old(eios)
    {
      hide LeftToWalk;
      hide DirectLength;
      hide FrameCacheTrue;
      var s := segs[f];
      var off := s.base;
      n := 0;
      LeftAtTheEnds(p, s, false);
      while off < s.base + s.size
        invariant Valid() && segs == old(segs) && eios == old(eios)
        invariant s.base <= off <= s.base + s.size
        invariant (n + LeftToWalk(p, s, off, false).0, LeftToWalk(p, s, off, false).1) == LeftToWalk(p, s, s.base, false)
        decreases s.base + s.size - off
      {
        LengthSteps(p, s, off);
        var l := RecordLen(f, off);
        match l {
          case LenEIO => return false, 0, 0;
          case ShortFile | NoLength => break;
          case Ends(next) =>
            off := next;
            n := n + 1;
        }
      }
      return true, n, off;
    }

    /** The same walk trusting nothing but checksums: the salvage of a torn header. */
    method CountVerified(f: nat) returns (ok: bool, n: nat, end: nat)
      requires Valid() && HoldsPublished(f)
      modifies this`readBuf, this`preads, this`eios, this`blockFile, this`blockOff, this`blockLen
      ensures Valid()
      ensures ok ==> (n, end) == LeftToWalk(p, segs[f], segs[f].base, true)
      ensures ok <==> eios == old(eios)
    {
      hide LeftToWalk;
      hide DirectRecord;
      hide FrameCacheTrue;
      var s := segs[f];
      var off := s.base;
      n := 0;
      LeftAtTheEnds(p, s, true);
      while off < s.base + s.size
        invariant Valid() && segs == old(segs) && eios == old(eios)
        invariant s.base <= off <= s.base + s.size
        invariant (n + LeftToWalk(p, s, off, true).0, LeftToWalk(p, s, off, true).1) == LeftToWalk(p, s, s.base, true)
        decreases s.base + s.size - off
      {
        RecordSteps(p, s, off);
        var a := RecordAt(f, off);
        match a {
          case EIO => return false, 0, 0;
          case Damaged | NotAFrame => break;
          case Found(r, next) =>
            if p.hash(r.payload) != r.sum {
              break;
            }
            off := next;
            n := n + 1;
        }
      }
      return true, n, off;
    }

    /** loadFile's clamp and salvageTornHeader's: cut to the last good frame and forget the block. */
    method Clamp(f: nat, verified: bool) returns (ok: bool, n: nat)
      requires Valid() && HoldsPublished(f) && lastFrameEnd == 0
      modifies this`readBuf, this`preads, this`eios, this`blockFile, this`blockOff, this`blockLen, this`segs
      ensures Valid() && (!ok ==> segs == old(segs))
      ensures ok ==> f in segs && ClampedTo(p, old(segs[f]), segs[f], n, verified) && segs == old(segs)[f := segs[f]]
    {
      hide LeftToWalk;
      hide ClampedTo;
      hide FrameCached;
      hide SegmentsSound;
      SegmentIsSound(segs, f);
      var end;
      ghost var s := segs[f];
      if verified {
        ok, n, end := CountVerified(f);
      } else {
        ok, n, end := SurviveCount(f);
      }
      DropBlock();
      if !ok {
        return;
      }
      ClampHolds(p, s, n, end, verified);
      CutIsSound(segs, f, end - s.base);
      segs := segs[f := segs[f].(size := end - segs[f].base)];
    }
  }
}
