/** Little-endian words and the unsigned LEB128 prefix of section 7.6 of DWARF Version 5. */
module Bytes {
  import opened Ints

  const TWO48: int := 0x1_0000_0000_0000
  const TWO63: int := 0x8000_0000_0000_0000
  const TWO64: int := 0x1_0000_0000_0000_0000

  type byte = x: int | 0 <= x < 256
  type u64 = x: int | 0 <= x < 0x1_0000_0000_0000_0000

  function Pow256(n: nat): (r: nat)
    ensures r > 0
  {
    if n == 0 then 1 else 256 * Pow256(n - 1)
  }

  /** The n low-order bytes of x, least significant first. */
  function LE(n: nat, x: nat): (b: seq<byte>)
    ensures |b| == n
  {
    if n == 0 then [] else [x % 256] + LE(n - 1, x / 256)
  }

  function FromLE(b: seq<byte>): nat {
    if b == [] then 0 else b[0] + 256 * FromLE(b[1..])
  }

  lemma {:induction false} LERoundTrip(n: nat, x: nat)
    requires x < Pow256(n)
    ensures FromLE(LE(n, x)) == x
  {
    if n > 0 {
      LERoundTrip(n - 1, x / 256);
      assert LE(n, x)[1..] == LE(n - 1, x / 256);
    }
  }

  lemma {:induction false} FromLEBound(b: seq<byte>)
    ensures FromLE(b) < Pow256(|b|)
  {
    if b != [] {
      FromLEBound(b[1..]);
    }
  }

  lemma WordBounds()
    ensures Pow256(6) == TWO48 && Pow256(8) == TWO64
  {
    assert Pow256(2) == 65536;
    assert Pow256(4) == 65536 * 65536;
  }

  /** binary.PutUvarint: seven bits a byte, low group first, the top bit marking continuation. */
  function PutUvarint(x: nat): (b: seq<byte>)
    ensures |b| >= 1
  {
    if x < 0x80 then [x] else [x % 0x80 + 0x80] + PutUvarint(x / 0x80)
  }

  datatype Varint = Varint(v: nat, n: nat) | NoVarint

  /** binary.Uvarint from its i-th byte on: NoVarint when the bytes run out or the value overflows 64 bits. */
  function UvarintFrom(b: seq<byte>, i: nat): Varint
    requires i <= 10
  {
    if b == [] || i == 10 then NoVarint
    else if b[0] < 0x80 then if i == 9 && b[0] > 1 then NoVarint else Varint(b[0], 1)
    else
      var rest := UvarintFrom(b[1..], i + 1);
      if rest.NoVarint? then NoVarint else Varint(b[0] - 0x80 + 0x80 * rest.v, rest.n + 1)
  }

  /** What is left of 64 bits once i groups of seven have been used. */
  function VarintLimit(i: nat): (r: nat)
    requires i <= 9
    ensures r >= 2
    decreases 9 - i
  {
    if i == 9 then 2 else 0x80 * VarintLimit(i + 1)
  }

  lemma VarintLimits()
    ensures VarintLimit(0) == TWO64
  {
    assert VarintLimit(7) == 2 * 0x80 * 0x80;
    assert VarintLimit(5) == 2 * 0x80 * 0x80 * 0x80 * 0x80;
    assert VarintLimit(3) == VarintLimit(5) * 0x80 * 0x80;
    assert VarintLimit(1) == VarintLimit(3) * 0x80 * 0x80;
  }

  lemma {:induction false} UvarintRoundTrip(x: nat, rest: seq<byte>, i: nat)
    requires i <= 9 && x < VarintLimit(i)
    ensures UvarintFrom(PutUvarint(x) + rest, i) == Varint(x, |PutUvarint(x)|)
    ensures |PutUvarint(x)| <= 10 - i
    decreases x
  {
    var b := PutUvarint(x) + rest;
    if x >= 0x80 {
      UvarintRoundTrip(x / 0x80, rest, i + 1);
      assert b[1..] == PutUvarint(x / 0x80) + rest;
    }
  }

  /** A decoded prefix fits 64 bits and came from at most ten of the bytes given. */
  lemma {:induction false} UvarintBound(b: seq<byte>, i: nat)
    requires i <= 9
    ensures UvarintFrom(b, i).Varint? ==>
              && UvarintFrom(b, i).v < VarintLimit(i)
              && 1 <= UvarintFrom(b, i).n <= Min(10 - i, |b|)
  {
    if b != [] && b[0] >= 0x80 && i < 9 {
      UvarintBound(b[1..], i + 1);
    }
  }

  /** Bytes past the end of a prefix never change what it decodes to. */
  lemma {:induction false} UvarintStable(b: seq<byte>, c: seq<byte>, i: nat)
    requires i <= 10 && UvarintFrom(b, i).Varint?
    ensures UvarintFrom(b + c, i) == UvarintFrom(b, i)
  {
    if b[0] >= 0x80 {
      UvarintStable(b[1..], c, i + 1);
      assert (b + c)[1..] == b[1..] + c;
    }
  }

  lemma {:induction false} UvarintTake(b: seq<byte>, k: nat, i: nat)
    requires i <= 9 && UvarintFrom(b, i).Varint? && UvarintFrom(b, i).n <= k <= |b|
    ensures UvarintFrom(b[..k], i) == UvarintFrom(b, i)
  {
    UvarintBound(b, i);
    if b[0] >= 0x80 && i < 9 {
      UvarintTake(b[1..], k - 1, i + 1);
      assert b[..k][1..] == b[1..][..k - 1];
    }
  }

  /** A prefix cut before its last byte does not decode. */
  lemma {:induction false} UvarintCut(x: nat, k: nat, i: nat)
    requires i <= 10 && k < |PutUvarint(x)|
    ensures UvarintFrom(PutUvarint(x)[..k], i).NoVarint?
    decreases x
  {
    if x >= 0x80 && k > 0 && i < 10 {
      UvarintCut(x / 0x80, k - 1, i + 1);
      assert PutUvarint(x)[..k][1..] == PutUvarint(x / 0x80)[..k - 1];
    }
  }
}
