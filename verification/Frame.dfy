/** The record frame of record.go: length prefix, payload, checksum trailer. */
module Frame {
  import opened Ints
  import opened Bytes

  const CHECKSUM_SIZE := 8
  const MAX_VARINT := 10

  /** What the frame arithmetic depends on: the payload hash and the largest int of the word size. */
  datatype Platform = Platform(hash: seq<byte> -> u64, maxInt: u64)

  function UvarintLen(x: nat): (n: nat)
    ensures n >= 1
  {
    if x < 0x80 then 1 else 1 + UvarintLen(x / 0x80)
  }

  lemma {:induction false} UvarintLenExact(x: nat)
    ensures UvarintLen(x) == |PutUvarint(x)|
  {
    if x >= 0x80 {
      UvarintLenExact(x / 0x80);
    }
  }

  method ComputeUvarintLen(value: nat) returns (n: nat)
    ensures n == |PutUvarint(value)|
  {
    var x := value;
    n := 1;
    while x >= 0x80
      invariant n + UvarintLen(x) == UvarintLen(value) + 1
    {
      x := x / 0x80;
      n := n + 1;
    }
    UvarintLenExact(value);
  }

  function FramedLen(len: nat): int {
    UvarintLen(len) + len + CHECKSUM_SIZE
  }

  function FrameOf(p: Platform, payload: seq<byte>): seq<byte> {
    PutUvarint(|payload|) + payload + LE(CHECKSUM_SIZE, p.hash(payload))
  }

  function Frames(p: Platform, payloads: seq<seq<byte>>): seq<byte> {
    if payloads == [] then [] else FrameOf(p, payloads[0]) + Frames(p, payloads[1..])
  }

  /** Every admission check and tally agrees with the bytes writeRecord lays down. */
  lemma FramedLenExact(p: Platform, payload: seq<byte>)
    ensures FramedLen(|payload|) == |FrameOf(p, payload)|
  {
    UvarintLenExact(|payload|);
  }

  /** uint64 addition wraps. */
  function Wrap64(x: nat): u64 {
    x % TWO64
  }

  predicate FitsWithin(v: u64, n: nat, avail: nat, maxInt: u64) {
    v <= avail && Wrap64(n + v + CHECKSUM_SIZE) <= Min(avail, maxInt)
  }

  /** The guard accepts exactly the frames whose unbounded total fits segment and word: it never wraps. */
  lemma FitsWithinExact(v: u64, n: nat, avail: nat, maxInt: u64)
    requires n <= MAX_VARINT && avail < TWO63
    ensures FitsWithin(v, n, avail, maxInt) <==> n + v + CHECKSUM_SIZE <= avail && n + v + CHECKSUM_SIZE <= maxInt
  {
    if v <= avail {
      assert n + v + CHECKSUM_SIZE < TWO64;
    }
  }

  datatype Head = Head(n: nat, total: nat) | NoHead

  /** frameHeader: the probed bytes decide the length, the avail bytes left in the segment bound it. */
  function DecodeProbe(p: Platform, probe: seq<byte>, avail: nat): (h: Head)
    requires avail < TWO63
    ensures h.Head? ==> 1 <= h.n <= |probe| && h.n + CHECKSUM_SIZE <= h.total <= Min(avail, p.maxInt)
  {
    UvarintBound(probe, 0);
    VarintLimits();
    var d := UvarintFrom(probe, 0);
    if d.NoVarint? then NoHead
    else
      FitsWithinExact(d.v, d.n, avail, p.maxInt);
      if FitsWithin(d.v, d.n, avail, p.maxInt) then Head(d.n, d.n + d.v + CHECKSUM_SIZE) else NoHead
  }

  function DecodeHead(p: Platform, b: seq<byte>): (h: Head)
    requires |b| < TWO63
    ensures h.Head? ==> 1 <= h.n && h.n + CHECKSUM_SIZE <= h.total <= Min(|b|, p.maxInt)
  {
    DecodeProbe(p, b[..Min(MAX_VARINT, |b|)], |b|)
  }

  datatype Record = Record(payload: seq<byte>, sum: nat, total: nat)

  function RecordIn(b: seq<byte>, h: Head): Record
    requires h.Head? && h.n + CHECKSUM_SIZE <= h.total <= |b|
  {
    var end := h.total - CHECKSUM_SIZE;
    Record(b[h.n..end], FromLE(b[end..h.total]), h.total)
  }

  /** Every whole frame from the start of b on: what a walk by recordLen steps over. */
  function Walk(p: Platform, b: seq<byte>): (r: seq<Record>)
    requires |b| < TWO63
  {
    var h := DecodeHead(p, b);
    if h.NoHead? then [] else [RecordIn(b, h)] + Walk(p, b[h.total..])
  }

  /** The same walk stopped at the first frame whose checksum disagrees with its payload. */
  function VerifiedWalk(p: Platform, b: seq<byte>): (r: seq<Record>)
    requires |b| < TWO63
  {
    var h := DecodeHead(p, b);
    if h.NoHead? || !Intact(p, RecordIn(b, h)) then []
    else [RecordIn(b, h)] + VerifiedWalk(p, b[h.total..])
  }

  predicate Intact(p: Platform, r: Record) {
    p.hash(r.payload) == r.sum
  }

  function Payloads(rs: seq<Record>): (r: seq<seq<byte>>)
    ensures |r| == |rs|
  {
    if rs == [] then [] else [rs[0].payload] + Payloads(rs[1..])
  }

  /** Bytes the records cover. */
  function Extent(rs: seq<Record>): nat {
    if rs == [] then 0 else rs[0].total + Extent(rs[1..])
  }

  /** The offset just past each record. */
  function Boundaries(rs: seq<Record>, at: nat): (r: seq<nat>) {
    if rs == [] then [] else [at + rs[0].total] + Boundaries(rs[1..], at + rs[0].total)
  }

  function FrameBoundaries(p: Platform, payloads: seq<seq<byte>>, at: nat): (r: seq<nat>) {
    if payloads == [] then []
    else [at + |FrameOf(p, payloads[0])|] + FrameBoundaries(p, payloads[1..], at + |FrameOf(p, payloads[0])|)
  }

  /** What admitRecord lets through: framedTooLarge refused the rest. */
  predicate Addressable(p: Platform, payloads: seq<seq<byte>>) {
    forall s <- payloads :: |FrameOf(p, s)| <= p.maxInt
  }

  lemma Assoc<T>(a: seq<T>, b: seq<T>, c: seq<T>)
    ensures a + (b + c) == (a + b) + c
  {
  }

  lemma TakePast<T>(a: seq<T>, b: seq<T>, k: nat)
    requires k <= |a| + |b|
    ensures (a + b)[..k] == if k < |a| then a[..k] else a + b[..k - |a|]
  {
  }

  lemma DecodeOneHead(p: Platform, payload: seq<byte>, rest: seq<byte>)
    requires |payload| + |PutUvarint(|payload|)| + CHECKSUM_SIZE <= Min(p.maxInt, |PutUvarint(|payload|) + rest|)
    requires |PutUvarint(|payload|) + rest| < TWO63
    ensures var n := |PutUvarint(|payload|)|;
            DecodeHead(p, PutUvarint(|payload|) + rest) == Head(n, n + |payload| + CHECKSUM_SIZE)
  {
    var prefix := PutUvarint(|payload|);
    var b := prefix + rest;
    VarintLimits();
    UvarintRoundTrip(|payload|, [], 0);
    UvarintRoundTrip(|payload|, rest[..Min(MAX_VARINT, |b|) - |prefix|], 0);
    assert b[..Min(MAX_VARINT, |b|)] == prefix + rest[..Min(MAX_VARINT, |b|) - |prefix|];
    FitsWithinExact(|payload|, |prefix|, |b|, p.maxInt);
  }

  lemma CutThree<T>(x: seq<T>, y: seq<T>, z: seq<T>, rest: seq<T>)
    ensures var b := x + y + z + rest;
            && b == x + (y + z + rest)
            && b[|x|..|x| + |y|] == y
            && b[|x| + |y|..|x| + |y| + |z|] == z
            && b[|x| + |y| + |z|..] == rest
  {
  }

  lemma DecodeOneFrame(p: Platform, payload: seq<byte>, rest: seq<byte>)
    requires |FrameOf(p, payload) + rest| < TWO63 && |FrameOf(p, payload)| <= p.maxInt
    ensures var b := FrameOf(p, payload) + rest;
            DecodeHead(p, b) == Head(|PutUvarint(|payload|)|, |FrameOf(p, payload)|)
            && RecordIn(b, DecodeHead(p, b)) == Record(payload, p.hash(payload), |FrameOf(p, payload)|)
            && b[|FrameOf(p, payload)|..] == rest
  {
    var prefix, trailer := PutUvarint(|payload|), LE(CHECKSUM_SIZE, p.hash(payload));
    CutThree(prefix, payload, trailer, rest);
    VarintLimits();
    DecodeOneHead(p, payload, payload + trailer + rest);
    WordBounds();
    LERoundTrip(CHECKSUM_SIZE, p.hash(payload));
  }

  /** One frame laid down in front of b adds one record in front of either walk. */
  lemma WalkOverFrame(p: Platform, payload: seq<byte>, rest: seq<byte>)
    requires |FrameOf(p, payload) + rest| < TWO63 && |FrameOf(p, payload)| <= p.maxInt
    ensures var b, r := FrameOf(p, payload) + rest, Record(payload, p.hash(payload), |FrameOf(p, payload)|);
            Walk(p, b) == [r] + Walk(p, rest) && VerifiedWalk(p, b) == [r] + VerifiedWalk(p, rest)
  {
    DecodeOneFrame(p, payload, rest);
  }

  function RecordsOf(p: Platform, ps: seq<seq<byte>>): (r: seq<Record>)
    ensures |r| == |ps|
  {
    if ps == [] then []
    else [Record(ps[0], p.hash(ps[0]), |FrameOf(p, ps[0])|)] + RecordsOf(p, ps[1..])
  }

  lemma {:induction false} RecordsOfMeaning(p: Platform, ps: seq<seq<byte>>, at: nat)
    ensures Payloads(RecordsOf(p, ps)) == ps
    ensures Extent(RecordsOf(p, ps)) == |Frames(p, ps)|
    ensures Boundaries(RecordsOf(p, ps), at) == FrameBoundaries(p, ps, at)
  {
    if ps != [] {
      RecordsOfMeaning(p, ps[1..], at + |FrameOf(p, ps[0])|);
      assert RecordsOf(p, ps)[1..] == RecordsOf(p, ps[1..]);
    }
  }

  /** Decoding published frames yields their records, then whatever follows them; a salvage keeps them all. */
  lemma {:induction false} FrameRoundTrip(p: Platform, ps: seq<seq<byte>>, rest: seq<byte>)
    requires Addressable(p, ps) && |Frames(p, ps) + rest| < TWO63
    ensures Walk(p, Frames(p, ps) + rest) == RecordsOf(p, ps) + Walk(p, rest)
    ensures VerifiedWalk(p, Frames(p, ps) + rest) == RecordsOf(p, ps) + VerifiedWalk(p, rest)
  {
    var b := Frames(p, ps) + rest;
    if ps == [] {
      assert b == rest;
    } else {
      var tail := Frames(p, ps[1..]) + rest;
      Assoc(FrameOf(p, ps[0]), Frames(p, ps[1..]), rest);
      WalkOverFrame(p, ps[0], tail);
      FrameRoundTrip(p, ps[1..], rest);
      var one := [RecordsOf(p, ps)[0]];
      Assoc(one, RecordsOf(p, ps[1..]), Walk(p, rest));
      Assoc(one, RecordsOf(p, ps[1..]), VerifiedWalk(p, rest));
    }
  }

  /** Decoding the concatenation of frames returns the payload list and the exact boundaries. */
  lemma FrameRoundTripExact(p: Platform, ps: seq<seq<byte>>, at: nat)
    requires Addressable(p, ps) && |Frames(p, ps)| < TWO63
    ensures Payloads(Walk(p, Frames(p, ps))) == ps
    ensures Boundaries(Walk(p, Frames(p, ps)), at) == FrameBoundaries(p, ps, at)
  {
    FrameRoundTrip(p, ps, []);
    assert Frames(p, ps) + [] == Frames(p, ps);
    RecordsOfMeaning(p, ps, at);
    assert Walk(p, Frames(p, ps)) == RecordsOf(p, ps);
  }

  /** The walk that trusts only checksums is the longest intact prefix of the walk that trusts framing. */
  lemma {:induction false} VerifiedIsIntactPrefix(p: Platform, b: seq<byte>)
    requires |b| < TWO63
    ensures var v, w := VerifiedWalk(p, b), Walk(p, b);
            && v <= w
            && (forall k | 0 <= k < |v| :: p.hash(w[k].payload) == w[k].sum)
            && (|v| < |w| ==> p.hash(w[|v|].payload) != w[|v|].sum)
  {
    var h := DecodeHead(p, b);
    if h.Head? && Intact(p, RecordIn(b, h)) {
      VerifiedIsIntactPrefix(p, b[h.total..]);
    }
  }

  /** The bytes of one frame with another payload of the length laid down, or another checksum. */
  function Altered(payload: seq<byte>, trailer: seq<byte>): seq<byte> {
    PutUvarint(|payload|) + payload + trailer
  }

  lemma AlteredDecodes(p: Platform, payload: seq<byte>, trailer: seq<byte>, rest: seq<byte>)
    requires |trailer| == CHECKSUM_SIZE && |Altered(payload, trailer) + rest| < TWO63
    requires |Altered(payload, trailer)| <= p.maxInt
    ensures var b := Altered(payload, trailer) + rest;
            DecodeHead(p, b) == Head(|PutUvarint(|payload|)|, |Altered(payload, trailer)|)
            && RecordIn(b, DecodeHead(p, b)) == Record(payload, FromLE(trailer), |Altered(payload, trailer)|)
            && b[|Altered(payload, trailer)|..] == rest
  {
    var prefix := PutUvarint(|payload|);
    CutThree(prefix, payload, trailer, rest);
    VarintLimits();
    DecodeOneHead(p, payload, payload + trailer + rest);
  }

  /** A frame whose checksum is not its payload's ends the verified walk in front of it, whatever follows; the walk that
      trusts framing counts it. */
  lemma SalvageStopsAtDamage(p: Platform, ps: seq<seq<byte>>, payload: seq<byte>, trailer: seq<byte>, rest: seq<byte>)
    requires Addressable(p, ps) && |trailer| == CHECKSUM_SIZE && |Altered(payload, trailer)| <= p.maxInt
    requires |Frames(p, ps) + (Altered(payload, trailer) + rest)| < TWO63
    requires FromLE(trailer) != p.hash(payload)
    ensures VerifiedWalk(p, Frames(p, ps) + (Altered(payload, trailer) + rest)) == RecordsOf(p, ps)
    ensures Walk(p, Frames(p, ps) + (Altered(payload, trailer) + rest)) ==
            RecordsOf(p, ps) + [Record(payload, FromLE(trailer), |Altered(payload, trailer)|)] + Walk(p, rest)
  {
    FrameRoundTrip(p, ps, Altered(payload, trailer) + rest);
    AlteredDecodes(p, payload, trailer, rest);
    hide DecodeHead;
    assert RecordsOf(p, ps) + [] == RecordsOf(p, ps);
    Assoc(RecordsOf(p, ps), [Record(payload, FromLE(trailer), |Altered(payload, trailer)|)], Walk(p, rest));
  }

  /** In particular: bytes of a payload changed so that it hashes otherwise cost that record and what is behind it. */
  lemma FlippedPayloadStops(p: Platform, ps: seq<seq<byte>>, was: seq<byte>, now: seq<byte>, rest: seq<byte>)
    requires Addressable(p, ps) && |now| == |was| && |FrameOf(p, was)| <= p.maxInt && p.hash(now) != p.hash(was)
    requires |Frames(p, ps) + (Altered(now, LE(CHECKSUM_SIZE, p.hash(was))) + rest)| < TWO63
    ensures FrameOf(p, was) == Altered(was, LE(CHECKSUM_SIZE, p.hash(was)))
    ensures VerifiedWalk(p, Frames(p, ps) + (Altered(now, LE(CHECKSUM_SIZE, p.hash(was))) + rest)) == RecordsOf(p, ps)
  {
    WordBounds();
    LERoundTrip(CHECKSUM_SIZE, p.hash(was));
    SalvageStopsAtDamage(p, ps, now, LE(CHECKSUM_SIZE, p.hash(was)), rest);
  }

  /** A torn-header walk recovers the published records as a prefix, whatever lies behind them. */
  lemma SalvageKeepsPublished(p: Platform, ps: seq<seq<byte>>, rest: seq<byte>)
    requires Addressable(p, ps) && |Frames(p, ps) + rest| < TWO63
    ensures var v := VerifiedWalk(p, Frames(p, ps) + rest);
            && |v| >= |ps|
            && Payloads(v[..|ps|]) == ps
            && Extent(v[..|ps|]) == |Frames(p, ps)|
  {
    FrameRoundTrip(p, ps, rest);
    RecordsOfMeaning(p, ps, 0);
    assert (RecordsOf(p, ps) + VerifiedWalk(p, rest))[..|ps|] == RecordsOf(p, ps);
  }

  function Zeros(n: nat): (b: seq<byte>)
    ensures |b| == n
  {
    seq(n, _ => 0)
  }

  lemma {:induction false} FromZeros(n: nat)
    ensures FromLE(Zeros(n)) == 0
  {
    if n > 0 {
      assert Zeros(n)[1..] == Zeros(n - 1);
      FromZeros(n - 1);
    }
  }

  /** Zero fill frames as an empty record with a zero checksum, which the hash of nothing never is. */
  lemma ZeroFillNeverVerifies(p: Platform, n: nat)
    requires n < TWO63 && p.hash([]) != 0
    ensures VerifiedWalk(p, Zeros(n)) == []
  {
    var h := DecodeHead(p, Zeros(n));
    if h.Head? {
      assert h == Head(1, 1 + CHECKSUM_SIZE);
      assert Zeros(n)[1..1] == [];
      assert Zeros(n)[1..9] == Zeros(8);
      FromZeros(8);
    }
  }

  lemma SalvageAddsNoZeroFill(p: Platform, ps: seq<seq<byte>>, n: nat)
    requires Addressable(p, ps) && |Frames(p, ps)| + n < TWO63
    requires p.hash([]) != 0
    ensures Payloads(VerifiedWalk(p, Frames(p, ps) + Zeros(n))) == ps
    ensures Extent(VerifiedWalk(p, Frames(p, ps) + Zeros(n))) == |Frames(p, ps)|
  {
    FrameRoundTrip(p, ps, Zeros(n));
    RecordsOfMeaning(p, ps, 0);
    ZeroFillNeverVerifies(p, n);
    assert RecordsOf(p, ps) + [] == RecordsOf(p, ps);
  }

  /** A frame cut anywhere before its last byte does not decode. */
  lemma CutFrameDoesNotDecode(p: Platform, payload: seq<byte>, k: nat)
    requires k < |FrameOf(p, payload)| < TWO63
    ensures DecodeHead(p, FrameOf(p, payload)[..k]).NoHead?
  {
    var b := FrameOf(p, payload)[..k];
    var prefix := PutUvarint(|payload|);
    var probe := b[..Min(MAX_VARINT, |b|)];
    VarintLimits();
    UvarintRoundTrip(|payload|, [], 0);
    assert prefix + [] == prefix;
    if k < |prefix| {
      assert probe == prefix[..k];
      UvarintCut(|payload|, k, 0);
    } else {
      assert probe == prefix + probe[|prefix|..];
      UvarintStable(prefix, probe[|prefix|..], 0);
      FitsWithinExact(|payload|, |prefix|, |b|, p.maxInt);
    }
  }

  /** How many of the frames lie wholly within the first cut bytes. */
  function WholeFrames(p: Platform, ps: seq<seq<byte>>, cut: nat): (m: nat)
    ensures m <= |ps|
  {
    if ps == [] || cut < |FrameOf(p, ps[0])| then 0
    else 1 + WholeFrames(p, ps[1..], cut - |FrameOf(p, ps[0])|)
  }

  /** A segment cut mid-frame still walks exactly the frames wholly before the cut. */
  lemma {:induction false} CutKeepsWholeFrames(p: Platform, ps: seq<seq<byte>>, cut: nat)
    requires Addressable(p, ps) && cut <= |Frames(p, ps)| < TWO63
    ensures Walk(p, Frames(p, ps)[..cut]) == RecordsOf(p, ps[..WholeFrames(p, ps, cut)])
  {
    hide UvarintFrom;
    hide DecodeProbe;
    hide DecodeHead;
    hide FrameOf;
    if ps == [] {
      assert Frames(p, ps)[..cut] == [];
    } else {
      var f, m := FrameOf(p, ps[0]), WholeFrames(p, ps, cut);
      TakePast(f, Frames(p, ps[1..]), cut);
      if cut < |f| {
        CutFrameDoesNotDecode(p, ps[0], cut);
      } else {
        WalkOverFrame(p, ps[0], Frames(p, ps[1..])[..cut - |f|]);
        CutKeepsWholeFrames(p, ps[1..], cut - |f|);
        assert ps[..m][1..] == ps[1..][..m - 1];
      }
    }
  }

  /** WholeFrames is the number of frames that end at or before the cut. */
  lemma {:induction false} WholeFramesIsMaximal(p: Platform, ps: seq<seq<byte>>, cut: nat)
    requires cut <= |Frames(p, ps)|
    ensures var m := WholeFrames(p, ps, cut);
            && |Frames(p, ps[..m])| <= cut
            && (m < |ps| ==> cut < |Frames(p, ps[..m + 1])|)
            && Frames(p, ps[..m]) == Frames(p, ps)[..|Frames(p, ps[..m])|]
  {
    if ps == [] {
    } else if cut < |FrameOf(p, ps[0])| {
      assert ps[..1] == [ps[0]];
      assert Frames(p, ps[..1]) == FrameOf(p, ps[0]) + Frames(p, []);
    } else {
      WholeFramesIsMaximal(p, ps[1..], cut - |FrameOf(p, ps[0])|);
      var m := WholeFrames(p, ps, cut);
      assert ps[..m][1..] == ps[1..][..m - 1];
      if m < |ps| {
        assert ps[..m + 1][1..] == ps[1..][..m];
      }
    }
  }

  /** A decoded frame decodes the same from any extent that still holds it, shorter or longer. */
  lemma DecodeInOtherExtent(p: Platform, probe: seq<byte>, avail: nat, probe': seq<byte>, avail': nat)
    requires avail < TWO63 && avail' < TWO63
    requires var h := DecodeProbe(p, probe, avail); h.Head? && h.n <= |probe'| && h.total <= avail'
    requires probe <= probe' || probe' <= probe
    ensures DecodeProbe(p, probe', avail') == DecodeProbe(p, probe, avail)
  {
    UvarintBound(probe, 0);
    VarintLimits();
    var d := UvarintFrom(probe, 0);
    FitsWithinExact(d.v, d.n, avail, p.maxInt);
    if probe <= probe' {
      UvarintStable(probe, probe'[|probe|..], 0);
      assert probe' == probe + probe'[|probe|..];
    } else {
      UvarintTake(probe, |probe'|, 0);
      assert probe' == probe[..|probe'|];
    }
    FitsWithinExact(d.v, d.n, avail', p.maxInt);
  }

  lemma ExtentCons(r: Record, rs: seq<Record>)
    ensures Extent([r] + rs) == r.total + Extent(rs)
  {
    assert ([r] + rs)[1..] == rs;
  }

  /** One step of either walk, as counts and bytes. */
  lemma WalkStep(p: Platform, b: seq<byte>, at: nat)
    requires at <= |b| < TWO63
    ensures DecodeHead(p, b[at..]).NoHead? ==> Walk(p, b[at..]) == [] && VerifiedWalk(p, b[at..]) == []
    ensures DecodeHead(p, b[at..]).Head? ==> StepsOver(p, b, at, DecodeHead(p, b[at..]))
  {
    var h := DecodeHead(p, b[at..]);
    if h.Head? {
      assert b[at..][h.total..] == b[at + h.total..];
      ExtentCons(RecordIn(b[at..], h), Walk(p, b[at + h.total..]));
      ExtentCons(RecordIn(b[at..], h), VerifiedWalk(p, b[at + h.total..]));
    }
  }

  ghost predicate StepsOver(p: Platform, b: seq<byte>, at: nat, h: Head)
    requires at <= |b| < TWO63 && h.Head? && h.n + CHECKSUM_SIZE <= h.total <= |b| - at
  {
    var here, next := b[at..], b[at + h.total..];
    && |Walk(p, here)| == 1 + |Walk(p, next)|
    && Extent(Walk(p, here)) == h.total + Extent(Walk(p, next))
    && if Intact(p, RecordIn(here, h)) then
         && |VerifiedWalk(p, here)| == 1 + |VerifiedWalk(p, next)|
         && Extent(VerifiedWalk(p, here)) == h.total + Extent(VerifiedWalk(p, next))
       else
         VerifiedWalk(p, here) == []
  }

  lemma SameRecord(a: seq<byte>, b: seq<byte>, h: Head)
    requires h.Head? && h.n + CHECKSUM_SIZE <= h.total <= Min(|a|, |b|) && a[..h.total] == b[..h.total]
    ensures RecordIn(a, h) == RecordIn(b, h)
  {
    var end := h.total - CHECKSUM_SIZE;
    SliceOfPrefix(a, h.total, h.n, end);
    SliceOfPrefix(b, h.total, h.n, end);
    SliceOfPrefix(a, h.total, end, h.total);
    SliceOfPrefix(b, h.total, end, h.total);
  }

  lemma SliceOfPrefix(a: seq<byte>, k: nat, i: nat, j: nat)
    requires i <= j <= k <= |a|
    ensures a[i..j] == a[..k][i..j]
  {
  }

  /** Walking only the extent a walk covered finds the same records: the clamp loses nothing. */
  lemma {:induction false} ClampedWalk(p: Platform, b: seq<byte>, rs: seq<Record>)
    requires |b| < TWO63 && rs <= Walk(p, b)
    ensures Extent(rs) <= |b| && Walk(p, b[..Extent(rs)]) == rs
  {
    hide UvarintFrom;
    hide FromLE;
    if rs == [] {
      assert b[..0] == [];
    } else {
      var h := DecodeHead(p, b);
      var rest := b[h.total..];
      assert rs[1..] <= Walk(p, rest);
      ClampedWalk(p, rest, rs[1..]);
      var e := Extent(rs);
      var c := b[..e];
      DecodeInOtherExtent(p, b[..Min(MAX_VARINT, |b|)], |b|, c[..Min(MAX_VARINT, e)], e);
      assert c[..h.total] == b[..h.total];
      SameRecord(c, b, h);
      assert c[h.total..] == rest[..Extent(rs[1..])];
    }
  }

  lemma {:induction false} FramesConcat(p: Platform, ps: seq<seq<byte>>, qs: seq<seq<byte>>)
    ensures Frames(p, ps + qs) == Frames(p, ps) + Frames(p, qs)
  {
    if ps == [] {
      assert ps + qs == qs;
    } else {
      FramesConcat(p, ps[1..], qs);
      assert (ps + qs)[1..] == ps[1..] + qs;
      Assoc(FrameOf(p, ps[0]), Frames(p, ps[1..]), Frames(p, qs));
    }
  }

  /** Cut, clamped and appended to, a segment decodes to the survivors followed by the appended records. */
  lemma AppendsAfterClampDecode(p: Platform, ps: seq<seq<byte>>, cut: nat, qs: seq<seq<byte>>)
    requires Addressable(p, ps) && Addressable(p, qs)
    requires cut <= |Frames(p, ps)| < TWO63 && |Frames(p, ps)| + |Frames(p, qs)| < TWO63
    ensures var end := Extent(Walk(p, Frames(p, ps)[..cut]));
            && end <= cut
            && Payloads(Walk(p, Frames(p, ps)[..end] + Frames(p, qs))) == ps[..WholeFrames(p, ps, cut)] + qs
  {
    CutKeepsWholeFrames(p, ps, cut);
    WholeFramesIsMaximal(p, ps, cut);
    var m := WholeFrames(p, ps, cut);
    RecordsOfMeaning(p, ps[..m], 0);
    FramesConcat(p, ps[..m], qs);
    FrameRoundTripExact(p, ps[..m] + qs, 0);
  }
}
