/** The 64-byte segment header of header.go: fields, modifiers and checksum. */
module Header {
  import opened Ints
  import opened Bytes

  const HEADER_SIZE := 64
  const SUM_COVERED := 56
  const FORMAT_VERSION: byte := 1
  const MAGIC: seq<byte> := [0x57, 0x41, 0x4C, 0x47, 0x4F, 0x73, 0x65, 0x67]
  const SEGMENT_ALIGN := 4096

  type i64 = x: int | -0x8000_0000_0000_0000 <= x < 0x8000_0000_0000_0000
  type Page = h: seq<byte> | |h| == 64 witness seq(64, _ => 0)
  type Hash = seq<byte> -> u64

  datatype Field = CommitCursor | WriteCursor | WrittenCount | CommittedCount | Capacity | SegSize

  datatype Mod = InitHeader | Set(f: Field, v: i64) | SetOversized

  function At(f: Field): nat {
    match f
    case CommitCursor => 8
    case WriteCursor => 16
    case WrittenCount => 24
    case CommittedCount => 32
    case Capacity => 42
    case SegSize => 50
  }

  function Width(f: Field): nat {
    if f.SegSize? then 6 else 8
  }

  /** Go's uint64(v) and int64(u): two's complement. */
  function ToU64(v: i64): u64 {
    if v < 0 then v + TWO64 else v
  }

  function ToI64(u: u64): i64 {
    if u < TWO63 then u else u - TWO64
  }

  function Splice(h: Page, at: nat, b: seq<byte>): (r: Page)
    requires at + |b| <= HEADER_SIZE
    ensures r[at..at + |b|] == b
    ensures forall k | 0 <= k < HEADER_SIZE && !(at <= k < at + |b|) :: r[k] == h[k]
  {
    h[..at] + b + h[at + |b|..]
  }

  function Get(h: Page, f: Field): (v: i64)
    ensures f.SegSize? ==> 0 <= v < TWO48
  {
    var raw := h[At(f)..At(f) + Width(f)];
    FromLEBound(raw);
    WordBounds();
    if f.SegSize? then FromLE(raw) else ToI64(FromLE(raw))
  }

  predicate Oversized(h: Page) {
    h[41] % 2 == 1
  }

  function Encoded(f: Field, v: i64): (b: seq<byte>)
    ensures |b| == Width(f)
  {
    LE(Width(f), ToU64(v))
  }

  function Apply(h: Page, m: Mod): Page {
    match m
    case InitHeader => Splice(h, 0, MAGIC)[40 := FORMAT_VERSION]
    case Set(f, v) => Splice(h, At(f), Encoded(f, v))
    case SetOversized => if Oversized(h) then h else h[41 := h[41] + 1]
  }

  function ApplyAll(h: Page, mods: seq<Mod>): Page
    decreases |mods|
  {
    if mods == [] then h else ApplyAll(Apply(h, mods[0]), mods[1..])
  }

  function Stamped(hash: Hash, h: Page): Page {
    Splice(h, SUM_COVERED, LE(8, hash(h[..SUM_COVERED])))
  }

  /** header(mods...): the modifiers in order, then the checksum. */
  function Rebuilt(hash: Hash, h: Page, mods: seq<Mod>): Page {
    Stamped(hash, ApplyAll(h, mods))
  }

  predicate ChecksumOK(hash: Hash, h: Page) {
    FromLE(h[SUM_COVERED..]) == hash(h[..SUM_COVERED])
  }

  /** The checksum answers for every byte of the header: change any of the first 56 so that they hash otherwise, or
      any of the last eight, and the page is not believed. */
  lemma ChecksumCoversPage(hash: Hash, h: Page, k: Page)
    requires ChecksumOK(hash, h) && k != h
    requires k[..SUM_COVERED] == h[..SUM_COVERED] || hash(k[..SUM_COVERED]) != hash(h[..SUM_COVERED])
    requires k[SUM_COVERED..] == h[SUM_COVERED..] || k[..SUM_COVERED] == h[..SUM_COVERED]
    ensures !ChecksumOK(hash, k)
  {
    if k[..SUM_COVERED] == h[..SUM_COVERED] {
      assert h == h[..SUM_COVERED] + h[SUM_COVERED..] && k == k[..SUM_COVERED] + k[SUM_COVERED..];
      if FromLE(k[SUM_COVERED..]) == FromLE(h[SUM_COVERED..]) {
        FromLEInjective(k[SUM_COVERED..], h[SUM_COVERED..]);
      }
    }
  }

  lemma {:induction false} FromLEInjective(a: seq<byte>, b: seq<byte>)
    requires |a| == |b| && FromLE(a) == FromLE(b)
    ensures a == b
    decreases |a|
  {
    if a != [] {
      FromLEInjective(a[1..], b[1..]);
      assert a == [a[0]] + a[1..] && b == [b[0]] + b[1..];
    }
  }

  predicate Representable(f: Field, v: int) {
    if f.SegSize? then 0 <= v < TWO48 else -TWO63 <= v < TWO63
  }

  /** The value the last modifier of f set, or the one it had. */
  function LastSet(mods: seq<Mod>, f: Field, was: i64): i64 {
    if mods == [] then was
    else LastSet(mods[1..], f, if mods[0].Set? && mods[0].f == f then mods[0].v else was)
  }

  lemma SetReadsBack(h: Page, f: Field, v: i64)
    requires Representable(f, v)
    ensures Get(Apply(h, Set(f, v)), f) == v
  {
    WordBounds();
    LERoundTrip(Width(f), ToU64(v));
  }

  lemma GetDependsOnItsBytes(h: Page, k: Page, f: Field)
    requires forall i | At(f) <= i < At(f) + Width(f) :: h[i] == k[i]
    ensures Get(h, f) == Get(k, f)
  {
    assert h[At(f)..At(f) + Width(f)] == k[At(f)..At(f) + Width(f)];
  }

  lemma ModKeepsOtherFields(h: Page, m: Mod, f: Field)
    requires !(m.Set? && m.f == f)
    ensures Get(Apply(h, m), f) == Get(h, f)
  {
    GetDependsOnItsBytes(Apply(h, m), h, f);
  }

  lemma {:induction false} ApplyAllReadsBack(h: Page, mods: seq<Mod>, f: Field)
    requires forall m <- mods :: m.Set? ==> Representable(m.f, m.v)
    ensures Get(ApplyAll(h, mods), f) == LastSet(mods, f, Get(h, f))
    decreases |mods|
  {
    if mods != [] {
      var m := mods[0];
      if m.Set? && m.f == f {
        SetReadsBack(h, f, m.v);
      } else {
        ModKeepsOtherFields(h, m, f);
      }
      ApplyAllReadsBack(Apply(h, m), mods[1..], f);
    }
  }

  lemma ApplyTwo(h: Page, a: Mod, b: Mod)
    ensures ApplyAll(h, [a, b]) == Apply(Apply(h, a), b)
  {
    assert [a, b][1..] == [b];
    assert ApplyAll(Apply(h, a), [b]) == ApplyAll(Apply(Apply(h, a), b), [b][1..]);
  }

  lemma StampedIsValid(hash: Hash, h: Page)
    ensures ChecksumOK(hash, Stamped(hash, h))
    ensures Stamped(hash, h)[..SUM_COVERED] == h[..SUM_COVERED]
  {
    WordBounds();
    var sum, r := LE(8, hash(h[..SUM_COVERED])), Stamped(hash, h);
    LERoundTrip(8, hash(h[..SUM_COVERED]));
    assert r[SUM_COVERED..] == r[SUM_COVERED..SUM_COVERED + |sum|];
    assert r[..SUM_COVERED] == h[..SUM_COVERED];
  }

  /** Every modifier set through header reads back field by field, under a valid checksum. */
  lemma RebuiltReadsBack(hash: Hash, h: Page, mods: seq<Mod>)
    requires forall m <- mods :: m.Set? ==> Representable(m.f, m.v)
    ensures ChecksumOK(hash, Rebuilt(hash, h, mods))
    ensures forall f :: Get(Rebuilt(hash, h, mods), f) == LastSet(mods, f, Get(h, f))
  {
    var a := ApplyAll(h, mods);
    StampedIsValid(hash, a);
    forall f ensures Get(Rebuilt(hash, h, mods), f) == LastSet(mods, f, Get(h, f)) {
      ApplyAllReadsBack(h, mods, f);
      forall i | At(f) <= i < At(f) + Width(f) ensures Stamped(hash, a)[i] == a[i] {
        assert Stamped(hash, a)[..SUM_COVERED][i] == a[..SUM_COVERED][i];
      }
      GetDependsOnItsBytes(Stamped(hash, a), a, f);
    }
  }

  predicate Identified(h: Page) {
    h[..8] == MAGIC && h[40] == FORMAT_VERSION
  }

  lemma ModKeepsIdentity(h: Page, m: Mod)
    ensures Identified(h) || m.InitHeader? ==> Identified(Apply(h, m))
    ensures Oversized(h) || m.SetOversized? <==> Oversized(Apply(h, m))
  {
    var r := Apply(h, m);
    if m.InitHeader? {
      assert r[..8] == MAGIC;
    } else if Identified(h) {
      assert r[..8] == h[..8];
    }
  }

  /** Identity survives every modifier list, which is why a torn rewrite still shows it; flags only ever gain. */
  lemma {:induction false} ModsKeepIdentity(h: Page, mods: seq<Mod>)
    ensures Identified(h) || InitHeader in mods ==> Identified(ApplyAll(h, mods))
    ensures Oversized(h) || SetOversized in mods <==> Oversized(ApplyAll(h, mods))
    decreases |mods|
  {
    hide Apply;
    hide Identified;
    hide Oversized;
    if mods != [] {
      ModKeepsIdentity(h, mods[0]);
      ModsKeepIdentity(Apply(h, mods[0]), mods[1..]);
    }
  }

  lemma {:induction false} LEOfFromLE(b: seq<byte>)
    ensures LE(|b|, FromLE(b)) == b
  {
    if b != [] {
      LEOfFromLE(b[1..]);
    }
  }

  lemma EncodedGet(h: Page, f: Field)
    ensures Encoded(f, Get(h, f)) == h[At(f)..At(f) + Width(f)]
  {
    FromLEBound(h[At(f)..At(f) + Width(f)]);
    WordBounds();
    LEOfFromLE(h[At(f)..At(f) + Width(f)]);
  }

  lemma StampRestores(hash: Hash, h: Page, back: Page)
    requires ChecksumOK(hash, h) && forall i | 0 <= i < SUM_COVERED :: back[i] == h[i]
    ensures Stamped(hash, back) == h
  {
    assert back[..SUM_COVERED] == h[..SUM_COVERED];
    LEOfFromLE(h[SUM_COVERED..]);
    forall i | SUM_COVERED <= i < HEADER_SIZE ensures Stamped(hash, back)[i] == h[i] {
      assert h[i] == h[SUM_COVERED..][i - SUM_COVERED];
      assert Stamped(hash, back)[i] == Stamped(hash, back)[SUM_COVERED..SUM_COVERED + 8][i - SUM_COVERED];
    }
  }

  lemma SetBack(h: Page, k: Page, f: Field, i: nat)
    requires At(f) <= i < At(f) + Width(f)
    ensures Apply(k, Set(f, Get(h, f)))[i] == h[i]
  {
    EncodedGet(h, f);
    assert h[At(f)..At(f) + Width(f)][i - At(f)] == h[i];
    assert Apply(k, Set(f, Get(h, f)))[At(f)..At(f) + Width(f)][i - At(f)] == h[i];
  }

  /** Putting two fields back to what they were restores the very bytes: the callers' rollback. */
  lemma RollbackRestoresImage(hash: Hash, h: Page, f: Field, g: Field, v: i64, w: i64)
    requires f != g && ChecksumOK(hash, h)
    ensures Rebuilt(hash, Rebuilt(hash, h, [Set(f, v), Set(g, w)]), [Set(f, Get(h, f)), Set(g, Get(h, g))]) == h
  {
    var moved := Rebuilt(hash, h, [Set(f, v), Set(g, w)]);
    var mods := [Set(f, Get(h, f)), Set(g, Get(h, g))];
    ApplyTwo(h, Set(f, v), Set(g, w));
    ApplyTwo(moved, mods[0], mods[1]);
    var once := Apply(moved, mods[0]);
    var back := Apply(once, mods[1]);
    forall i | 0 <= i < SUM_COVERED ensures back[i] == h[i] {
      if At(g) <= i < At(g) + Width(g) {
        SetBack(h, once, g, i);
      } else if At(f) <= i < At(f) + Width(f) {
        SetBack(h, moved, f, i);
      }
    }
    StampRestores(hash, h, back);
  }

  function SegmentCapacity(size: i64): int {
    var c := Max(if size <= 0 then 0x80_0000 else size, SEGMENT_ALIGN);
    if c > TWO48 - SEGMENT_ALIGN then TWO48 - SEGMENT_ALIGN
    else if c % SEGMENT_ALIGN != 0 then (c / SEGMENT_ALIGN + 1) * SEGMENT_ALIGN
    else c
  }

  /** Idempotent, aligned, never smaller than asked below the ceiling, and exact in the six-byte field. */
  lemma SegmentCapacityFits(size: i64, h: Page)
    ensures var c := SegmentCapacity(size);
            && SEGMENT_ALIGN <= c <= TWO48 - SEGMENT_ALIGN && c % SEGMENT_ALIGN == 0
            && SegmentCapacity(c) == c
            && (0 < size <= TWO48 - SEGMENT_ALIGN ==> size <= c < size + SEGMENT_ALIGN || c == SEGMENT_ALIGN)
            && Get(Apply(h, Set(SegSize, c)), SegSize) == c
  {
    var c := SegmentCapacity(size);
    assert (TWO48 - SEGMENT_ALIGN) % SEGMENT_ALIGN == 0;
    SetReadsBack(h, SegSize, c);
  }

  datatype WriteFault =
    | NoFault
    | HandleClosed                        // rejected before any byte is issued
    | Failed(torn: Page, repair: Repair)  // page 0 left holding any 64 bytes

  datatype Repair = Unreadable | RepairFailed(left: Page) | RepairUnsynced | Repaired

  datatype Outcome = Written | Retriable | Latched

  /** Page 0 of one segment: the resident header, the last complete image, what the page cache holds, and every
      image a power loss may leave. */
  class HeaderPage {
    const hash: Hash
    const hdr: array<byte>
    var diskHeader: Page
    var cached: Page
    ghost var found: set<Page>
    var latched: bool
    var dirty: bool
    var writeSeq: nat

    ghost predicate Valid()
      reads this, hdr
    {
      && hdr.Length == HEADER_SIZE
      && ChecksumOK(hash, diskHeader)
      && cached in found && diskHeader in found
      && (!latched ==> cached == diskHeader && forall img <- found :: ChecksumOK(hash, img))
    }

    constructor (hash: Hash, page: Page)
      requires ChecksumOK(hash, page)
      ensures Valid() && fresh(hdr) && hdr[..] == page && cached == page && found == {page} && !latched
    {
      this.hash := hash;
      var a := new byte[64](i requires 0 <= i < 64 => page[i]);
      hdr := a;
      diskHeader, cached, found := page, page, {page};
      latched, dirty, writeSeq := false, false, 0;
      new;
      assert hdr[..] == page;
    }

    method Put(at: nat, b: seq<byte>)
      requires hdr.Length == HEADER_SIZE && at + |b| <= HEADER_SIZE
      modifies hdr
      ensures hdr[..] == Splice(old(hdr[..]), at, b)
    {
      var k := 0;
      while k < |b|
        invariant 0 <= k <= |b|
        invariant hdr[at..at + k] == b[..k]
        invariant forall i | 0 <= i < HEADER_SIZE && !(at <= i < at + k) :: hdr[i] == old(hdr[i])
      {
        hdr[at + k] := b[k];
        k := k + 1;
        assert hdr[at..at + k] == hdr[at..at + k - 1] + [b[k - 1]];
        assert b[..k] == b[..k - 1] + [b[k - 1]];
      }
    }

    method Modify(m: Mod)
      requires hdr.Length == HEADER_SIZE
      modifies hdr
      ensures hdr[..] == Apply(old(hdr[..]), m)
    {
      match m
      case InitHeader =>
        Put(0, MAGIC);
        hdr[40] := FORMAT_VERSION;
      case Set(f, v) =>
        Put(At(f), LE(Width(f), ToU64(v)));
      case SetOversized =>
        if hdr[41] % 2 == 0 {
          hdr[41] := hdr[41] + 1;
        }
    }

    method Header(mods: seq<Mod>)
      requires hdr.Length == HEADER_SIZE
      modifies hdr
      ensures hdr[..] == Rebuilt(hash, old(hdr[..]), mods)
    {
      var k := 0;
      while k < |mods|
        invariant 0 <= k <= |mods|
        invariant ApplyAll(hdr[..], mods[k..]) == ApplyAll(old(hdr[..]), mods)
      {
        Modify(mods[k]);
        k := k + 1;
      }
      assert ApplyAll(old(hdr[..]), mods) == hdr[..];
      var sum := hash(hdr[..SUM_COVERED]);
      assert hdr[..SUM_COVERED] == hdr[..][..SUM_COVERED];
      Put(SUM_COVERED, LE(8, sum));
    }

    /** Puts back exactly the bytes a failed overwrite changed, and makes that durable; anything short of it is
        fatal. */
    method RestoreHeader(repair: Repair) returns (ok: bool)
      modifies this`cached, this`found, this`dirty, this`writeSeq
      ensures ok <==> !repair.Unreadable? && (old(cached) == diskHeader || repair.Repaired?)
      ensures ok ==> cached == diskHeader && (found == {diskHeader} || (old(cached) == diskHeader && found == old(found)))
      ensures old(found) <= found || (ok && found == {diskHeader})
      ensures cached == old(cached) || cached in found
      ensures old(dirty) ==> dirty
      ensures cached != old(cached) ==> dirty && writeSeq == old(writeSeq) + 1
    {
      if repair.Unreadable? {
        return false;
      }
      var n := HEADER_SIZE;
      while n > 0 && cached[n - 1] == diskHeader[n - 1]
        invariant 0 <= n <= HEADER_SIZE
        invariant forall i | n <= i < HEADER_SIZE :: cached[i] == diskHeader[i]
      {
        n := n - 1;
      }
      assert n == 0 <==> cached == diskHeader;
      if n == 0 {
        return true;
      }
      dirty := true;
      writeSeq := writeSeq + 1;
      if repair.RepairFailed? {
        cached := repair.left;
        found := found + {cached};
        return false;
      }
      cached := diskHeader[..n] + cached[n..];
      assert cached == diskHeader;
      found := if repair.Repaired? then {cached} else found + {cached};  // its fdatasync
      return repair.Repaired?;
    }

    /** All or nothing: the new image, or the last complete one with nothing new for a power loss to find, or the
        store is latched. */
    method WriteHeader(fault: WriteFault) returns (r: Outcome)
      requires Valid() && ChecksumOK(hash, hdr[..])
      modifies this`cached, this`found, this`diskHeader, this`latched, this`dirty, this`writeSeq
      ensures Valid() && hdr[..] == old(hdr[..])
      ensures r.Written? ==> !latched && cached == diskHeader == hdr[..] && dirty && writeSeq == old(writeSeq) + 1
      ensures r.Written? ==> found == old(found) + {hdr[..]}
      ensures !r.Written? ==> diskHeader == old(diskHeader)
      ensures r.Retriable? ==> !latched && cached == old(cached) && found <= old(found)
      ensures r.Latched? && !old(latched) ==> fault.Failed? && fault.torn in found
      ensures r.Latched? <==> latched
      ensures r.Written? <==> !old(latched) && fault.NoFault?
      ensures r.Latched? <==>
                || old(latched)
                || (fault.Failed? && (fault.repair.Unreadable? || (fault.torn != old(diskHeader) && !fault.repair.Repaired?)))
    {
      if latched {
        return Latched;
      }
      match fault
      case NoFault =>
        cached, diskHeader := hdr[..], hdr[..];
        found := found + {cached};
        dirty, writeSeq := true, writeSeq + 1;
        return Written;
      case HandleClosed =>
        return Retriable;
      case Failed(torn, repair) =>
        cached := torn;
        found := found + {torn};
        var ok := RestoreHeader(repair);
        if !ok {
          latched := true;
          return Latched;
        }
        return Retriable;
    }

    /** flushFile: after a clean fsync the page cache's image is the only one to be found. */
    method FlushFile(synced: bool) returns (ok: bool)
      requires Valid()
      modifies this`found, this`latched, this`dirty
      ensures Valid() && (old(latched) ==> latched)
      ensures ok <==> !old(dirty) || (!old(latched) && synced)
      ensures ok && old(dirty) ==> !latched && !dirty && found == {diskHeader}
      ensures !ok ==> latched && found == old(found)
      ensures !old(dirty) ==> latched == old(latched) && found == old(found) && !dirty
    {
      if !dirty {
        return true;
      }
      if latched {
        return false;
      }
      if !synced {
        latched := true;
        return false;
      }
      found, dirty := {cached}, false;
      return true;
    }

    /** Two fields moved and published, or put back: persistCommit, publishFullCommit, publishSpan. */
    method Publish(f: Field, v: i64, g: Field, w: i64, fault: WriteFault) returns (r: Outcome)
      requires Valid() && f != g && hdr[..] == diskHeader
      modifies this`cached, this`found, this`diskHeader, this`latched, this`dirty, this`writeSeq, hdr
      ensures Valid() && hdr[..] == diskHeader
      ensures r.Written? <==> !old(latched) && fault.NoFault?
      ensures if r.Written? then found == old(found) + {diskHeader} else r.Retriable? ==> found <= old(found)
      ensures r.Written? ==> !latched && cached == diskHeader == Rebuilt(hash, old(diskHeader), [Set(f, v), Set(g, w)])
      ensures r.Retriable? ==> !latched && cached == diskHeader == old(diskHeader)
      ensures r.Latched? ==> latched && diskHeader == old(diskHeader)
    {
      var prevF, prevG := Get(hdr[..], f), Get(hdr[..], g);
      Header([Set(f, v), Set(g, w)]);
      StampedIsValid(hash, ApplyAll(old(diskHeader), [Set(f, v), Set(g, w)]));
      r := WriteHeader(fault);
      if !r.Written? {
        RollbackRestoresImage(hash, old(diskHeader), f, g, v, w);
        Header([Set(f, prevF), Set(g, prevG)]);
      }
    }
  }
}
