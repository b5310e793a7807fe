/** The bitset of src/linearizability/bitset.go: 64-bit words updated in place, read as a finite set
    of naturals. Bit `p` of the set lives in word `p / 64` at position `p % 64`.

    Shift amounts are `bv6` because Go's `pos % 64` always fits six bits. */
module Bitset {

  /** Bit `k` of a word. */
  predicate BitAt(w: bv64, k: bv6) {
    (w >> k) & 1 == 1
  }

  function OrMask(w: bv64, m: bv6): bv64 {
    w | (1 << m)
  }

  function AndNotMask(w: bv64, m: bv6): bv64 {
    w & !(1 << m)
  }

  predicate MeetsMask(w: bv64, m: bv6) {
    w & (1 << m) != 0
  }

  predicate Bit(w: bv64, k: nat)
    requires k < 64
  {
    BitAt(w, k as bv6)
  }

  /** The set of naturals that a slice of words stands for. */
  function Elements(ws: seq<bv64>): set<nat> {
    set p: nat | p < 64 * |ws| && Bit(ws[p / 64], p % 64)
  }

  function WithBit(w: bv64, m: nat): bv64
    requires m < 64
  {
    OrMask(w, m as bv6)
  }

  function WithoutBit(w: bv64, m: nat): bv64
    requires m < 64
  {
    AndNotMask(w, m as bv6)
  }

  predicate TestBit(w: bv64, m: nat)
    requires m < 64
  {
    MeetsMask(w, m as bv6)
  }

  // ---------------------------------------------------------------- bit-level facts

  lemma SetBitSelf(w: bv64, m: bv6)
    ensures BitAt(OrMask(w, m), m)
  {}

  lemma SetBitOther(w: bv64, m: bv6, k: bv6)
    requires k != m
    ensures BitAt(OrMask(w, m), k) == BitAt(w, k)
  {}

  lemma ClearBitSelf(w: bv64, m: bv6)
    ensures !BitAt(AndNotMask(w, m), m)
  {}

  lemma ClearBitOther(w: bv64, m: bv6, k: bv6)
    requires k != m && BitAt(w, k)
    ensures BitAt(AndNotMask(w, m), k)
  {}

  lemma AbsentBit(w: bv64, m: bv6, k: bv6)
    requires !BitAt(w, k)
    ensures !BitAt(AndNotMask(w, m), k)
  {}

  lemma MaskMet(w: bv64, m: bv6)
    requires MeetsMask(w, m)
    ensures BitAt(w, m)
  {}

  lemma MaskMissed(w: bv64, m: bv6)
    requires !MeetsMask(w, m)
    ensures !BitAt(w, m)
  {}

  lemma IndexAsNat(m: nat)
    requires m < 64
    ensures (m as bv6) as nat == m
  {}

  lemma IndexInjective(m: nat, k: nat)
    requires m < 64 && k < 64 && m != k
    ensures m as bv6 != k as bv6
  {
    IndexAsNat(m);
    IndexAsNat(k);
  }

  lemma IndexRoundTrip(k: bv6)
    ensures k as nat < 64 && (k as nat) as bv6 == k
  {}

  lemma BitOfWith(w: bv64, m: nat, k: nat)
    requires m < 64 && k < 64
    ensures Bit(WithBit(w, m), k) == (k == m || Bit(w, k))
  {
    hide BitAt, OrMask;
    if k == m {
      SetBitSelf(w, m as bv6);
    } else {
      IndexInjective(m, k);
      SetBitOther(w, m as bv6, k as bv6);
    }
  }

  lemma BitOfWithout(w: bv64, m: nat, k: nat)
    requires m < 64 && k < 64
    ensures Bit(WithoutBit(w, m), k) == (k != m && Bit(w, k))
  {
    hide BitAt, AndNotMask;
    if k == m {
      ClearBitSelf(w, m as bv6);
    } else if Bit(w, k) {
      IndexInjective(m, k);
      ClearBitOther(w, m as bv6, k as bv6);
    } else {
      AbsentBit(w, m as bv6, k as bv6);
    }
  }

  lemma BitTested(w: bv64, m: nat)
    requires m < 64
    ensures TestBit(w, m) == Bit(w, m)
  {
    hide BitAt, MeetsMask;
    if TestBit(w, m) {
      MaskMet(w, m as bv6);
    } else {
      MaskMissed(w, m as bv6);
    }
  }

  /** A non-zero word has a bit: six halvings find one. */
  lemma FindBit(x: bv64) returns (k: bv6)
    requires x != 0
    ensures BitAt(x, k)
  {
    k := 0;
    if (x >> k) & 0xFFFF_FFFF == 0 { k := k + 32; }
    if (x >> k) & 0xFFFF == 0 { k := k + 16; }
    if (x >> k) & 0xFF == 0 { k := k + 8; }
    if (x >> k) & 0xF == 0 { k := k + 4; }
    if (x >> k) & 0x3 == 0 { k := k + 2; }
    if (x >> k) & 0x1 == 0 { k := k + 1; }
  }

  function Xor(a: bv64, b: bv64): bv64 {
    a ^ b
  }

  lemma XorBit(a: bv64, b: bv64, k: bv6)
    requires BitAt(Xor(a, b), k)
    ensures BitAt(a, k) != BitAt(b, k)
  {}

  lemma XorNonzero(a: bv64, b: bv64)
    requires a != b
    ensures Xor(a, b) != 0
  {}

  lemma WordsDiffer(a: bv64, b: bv64) returns (k: nat)
    requires a != b
    ensures k < 64 && Bit(a, k) != Bit(b, k)
  {
    hide BitAt, Xor;
    XorNonzero(a, b);
    var i := FindBit(Xor(a, b));
    XorBit(a, b, i);
    IndexRoundTrip(i);
    k := i as nat;
  }

  /** Word slices of one length are determined by the sets they stand for. */
  lemma ElementsInjective(xs: seq<bv64>, ys: seq<bv64>)
    requires |xs| == |ys| && Elements(xs) == Elements(ys)
    ensures xs == ys
  {
    hide Bit;
    forall i | 0 <= i < |xs| ensures xs[i] == ys[i] {
      if xs[i] != ys[i] {
        var k := WordsDiffer(xs[i], ys[i]);
        DistinguishingBit(xs, ys, i, k);
        assert false;
      }
    }
  }

  lemma DistinguishingBit(xs: seq<bv64>, ys: seq<bv64>, i: nat, k: nat)
    requires i < |xs| == |ys| && k < 64 && Bit(xs[i], k) != Bit(ys[i], k)
    ensures Elements(xs) != Elements(ys)
  {
    hide Bit;
    var p := 64 * i + k;
    assert p / 64 == i && p % 64 == k;
    assert (p in Elements(xs)) != (p in Elements(ys));
  }

  lemma SetWordElements(ws: seq<bv64>, pos: nat)
    requires pos < 64 * |ws|
    ensures Elements(ws[pos / 64 := WithBit(ws[pos / 64], pos % 64)]) == Elements(ws) + {pos}
  {
    hide Bit, WithBit;
    var vs := ws[pos / 64 := WithBit(ws[pos / 64], pos % 64)];
    forall p: nat | p < 64 * |ws| ensures p in Elements(vs) <==> p in Elements(ws) + {pos} {
      BitOfWith(ws[pos / 64], pos % 64, p % 64);
    }
  }

  lemma ClearWordElements(ws: seq<bv64>, pos: nat)
    requires pos < 64 * |ws|
    ensures Elements(ws[pos / 64 := WithoutBit(ws[pos / 64], pos % 64)]) == Elements(ws) - {pos}
  {
    hide Bit, WithoutBit;
    var vs := ws[pos / 64 := WithoutBit(ws[pos / 64], pos % 64)];
    forall p: nat | p < 64 * |ws| ensures p in Elements(vs) <==> p in Elements(ws) - {pos} {
      BitOfWithout(ws[pos / 64], pos % 64, p % 64);
    }
  }

  lemma NoBits(ws: seq<bv64>)
    requires forall i | 0 <= i < |ws| :: ws[i] == 0
    ensures Elements(ws) == {}
  {}

  // ---------------------------------------------------------------- the operations

  /** Just enough words for `bits` bits, and none of them set. */
  method NewBitset(bits: nat) returns (b: array<bv64>)
    ensures fresh(b)
    ensures 64 * b.Length - 64 < bits <= 64 * b.Length || bits == b.Length == 0
    ensures Elements(b[..]) == {}
  {
    hide *;
    var extra := 0;
    if bits % 64 != 0 {
      extra := 1;
    }
    b := new bv64[bits / 64 + extra](_ => 0);
    NoBits(b[..]);
  }

  method Clone(b: array<bv64>) returns (c: array<bv64>)
    ensures fresh(c) && c[..] == b[..]
  {
    c := new bv64[b.Length];
    var i := 0;
    while i < b.Length
      invariant 0 <= i <= b.Length
      invariant c[..i] == b[..i]
    {
      c[i] := b[i];
      i := i + 1;
    }
  }

  method Set(b: array<bv64>, pos: nat)
    requires pos < 64 * b.Length
    modifies b
    ensures Elements(b[..]) == old(Elements(b[..])) + {pos}
  {
    hide *;
    SetWordElements(b[..], pos);
    var major, minor := pos / 64, pos % 64;
    ghost var before := b[..];
    b[major] := WithBit(b[major], minor);
    assert b[..] == before[major := WithBit(before[major], minor)];
  }

  method Clear(b: array<bv64>, pos: nat)
    requires pos < 64 * b.Length
    modifies b
    ensures Elements(b[..]) == old(Elements(b[..])) - {pos}
  {
    hide *;
    ClearWordElements(b[..], pos);
    var major, minor := pos / 64, pos % 64;
    ghost var before := b[..];
    b[major] := WithoutBit(b[major], minor);
    assert b[..] == before[major := WithoutBit(before[major], minor)];
  }

  method Get(b: array<bv64>, pos: nat) returns (r: bool)
    requires pos < 64 * b.Length
    ensures r <==> pos in Elements(b[..])
  {
    hide Bit, TestBit;
    var major, minor := pos / 64, pos % 64;
    BitTested(b[major], minor);
    r := TestBit(b[major], minor);
  }

  /** Word-by-word comparison decides equality of the two sets. */
  method Equals(b: seq<bv64>, b2: seq<bv64>) returns (r: bool)
    ensures r <==> |b| == |b2| && Elements(b) == Elements(b2)
  {
    hide *;
    if |b| != |b2| {
      return false;
    }
    var i := 0;
    while i < |b|
      invariant 0 <= i <= |b|
      invariant b[..i] == b2[..i]
    {
      if b[i] != b2[i] {
        if Elements(b) == Elements(b2) {
          ElementsInjective(b, b2);
        }
        return false;
      }
      i := i + 1;
    }
    assert b == b[..i] && b2 == b2[..i];
    return true;
  }

  // ---------------------------------------------------------------- population count

  /** Number of set bits of `w` below position `k`: the specification of the parallel sum. */
  function BitsBelow(w: bv64, k: nat): nat
    requires k <= 64
  {
    if k == 0 then 0 else BitsBelow(w, k - 1) + if Bit(w, k - 1) then 1 else 0
  }

  function PairSums(v: bv64): bv64 {
    (v & 0x5555_5555_5555_5555) + ((v & 0xAAAA_AAAA_AAAA_AAAA) >> 1)
  }

  function NibbleSums(v: bv64): bv64 {
    (v & 0x3333_3333_3333_3333) + ((v & 0xCCCC_CCCC_CCCC_CCCC) >> 2)
  }

  function ByteSums(v: bv64): bv64 {
    (v & 0x0F0F_0F0F_0F0F_0F0F) + ((v & 0xF0F0_F0F0_F0F0_F0F0) >> 4)
  }

  function Small(x: bv64): nat
    requires x <= 0xFF
  {
    (x as bv8) as nat
  }

  /** The number held in the bits of `x` that `mask` selects, starting at bit `k`. */
  function FieldAt(x: bv64, k: bv6, mask: bv64): nat
    requires mask <= 0xFF
  {
    Small((x >> k) & mask)
  }

  function Field(x: bv64, j: nat, mask: bv64): nat
    requires j < 64 && mask <= 0xFF
  {
    FieldAt(x, j as bv6, mask)
  }

  lemma SuccessorAsNat(a: bv6)
    requires a != 63
    ensures (a + 1) as nat == a as nat + 1
  {}

  lemma NextIndex(j: nat)
    requires j + 1 < 64
    ensures (j + 1) as bv6 == (j as bv6) + 1
  {
    var a := j as bv6;
    IndexAsNat(j);
    if a == 63 {
      assert false;
    }
    SuccessorAsNat(a);
    IndexRoundTrip(a + 1);
  }

  lemma SecondNextIndex(j: nat)
    requires j + 2 < 64
    ensures (j + 2) as bv6 == (j as bv6) + 2
  {
    NextIndex(j);
    NextIndex(j + 1);
  }

  lemma FourthNextIndex(j: nat)
    requires j + 4 < 64
    ensures (j + 4) as bv6 == (j as bv6) + 4
  {
    SecondNextIndex(j);
    SecondNextIndex(j + 2);
  }

  lemma Alignment(j: nat)
    requires j < 64
    ensures j % 2 == 0 ==> (j as bv6) & 1 == 0
    ensures j % 4 == 0 ==> (j as bv6) & 3 == 0
    ensures j % 8 == 0 ==> (j as bv6) & 7 == 0
  {}

  lemma PairFieldAt(v: bv64, k: bv6)
    requires k & 1 == 0
    ensures FieldAt(PairSums(v), k, 3) == FieldAt(v, k, 1) + FieldAt(v, k + 1, 1)
  {}

  lemma NibbleFieldAt(v: bv64, k: bv6)
    requires k & 3 == 0
    ensures FieldAt(NibbleSums(v), k, 0xF) == FieldAt(v, k, 3) + FieldAt(v, k + 2, 3)
  {}

  lemma ByteFieldAt(v: bv64, k: bv6)
    requires k & 7 == 0
    ensures FieldAt(ByteSums(v), k, 0xFF) == FieldAt(v, k, 0xF) + FieldAt(v, k + 4, 0xF)
  {}

  lemma PairField(v: bv64, j: nat)
    requires j < 64 && j % 2 == 0
    ensures Field(PairSums(v), j, 3) == Field(v, j, 1) + Field(v, j + 1, 1)
  {
    hide PairSums, FieldAt;
    Alignment(j);
    NextIndex(j);
    PairFieldAt(v, j as bv6);
  }

  lemma NibbleField(v: bv64, j: nat)
    requires j < 64 && j % 4 == 0
    ensures Field(NibbleSums(v), j, 0xF) == Field(v, j, 3) + Field(v, j + 2, 3)
  {
    hide NibbleSums, FieldAt;
    Alignment(j);
    SecondNextIndex(j);
    NibbleFieldAt(v, j as bv6);
  }

  lemma ByteField(v: bv64, j: nat)
    requires j < 64 && j % 8 == 0
    ensures Field(ByteSums(v), j, 0xFF) == Field(v, j, 0xF) + Field(v, j + 4, 0xF)
  {
    hide ByteSums, FieldAt;
    Alignment(j);
    FourthNextIndex(j);
    ByteFieldAt(v, j as bv6);
  }

  lemma BitField(v: bv64, j: nat)
    requires j < 64
    ensures Field(v, j, 1) == if Bit(v, j) then 1 else 0
  {}

  lemma PairCount(v: bv64, j: nat)
    requires j < 64 && j % 2 == 0
    ensures Field(PairSums(v), j, 3) == BitsBelow(v, j + 2) - BitsBelow(v, j)
  {
    hide Field, PairSums, Bit;
    PairField(v, j);
    BitField(v, j);
    BitField(v, j + 1);
  }

  lemma ByteCount(v: bv64, j: nat)
    requires j < 64 && j % 8 == 0
    ensures Field(ByteSums(NibbleSums(PairSums(v))), j, 0xFF) == BitsBelow(v, j + 8) - BitsBelow(v, j)
  {
    hide *;
    var p := PairSums(v);
    PairCount(v, j);
    PairCount(v, j + 2);
    PairCount(v, j + 4);
    PairCount(v, j + 6);
    NibbleField(p, j);
    NibbleField(p, j + 4);
    ByteField(NibbleSums(p), j);
  }

  // The product with 0x0101...01 is 0x101 * 0x1_0001 * 0x1_0000_0001, and each factor adds a copy of the
  // word, shifted by 8, 16 and 32 bits. Bytes that stay below 16, 32 and 64 never carry into the next one.

  /** Every byte of the word has only its low four, five or six bits set. */
  predicate Below16(v: bv64) {
    v & 0xF0F0_F0F0_F0F0_F0F0 == 0
  }

  predicate Below32(v: bv64) {
    v & 0xE0E0_E0E0_E0E0_E0E0 == 0
  }

  predicate Below64(v: bv64) {
    v & 0xC0C0_C0C0_C0C0_C0C0 == 0
  }

  lemma NibblesBelow8(v: bv64)
    ensures NibbleSums(v) & 0x8888_8888_8888_8888 == 0
  {}

  lemma BytesBelow16(v: bv64)
    requires v & 0x8888_8888_8888_8888 == 0
    ensures Below16(ByteSums(v))
  {}

  lemma SumsBelow16(v: bv64)
    ensures Below16(ByteSums(NibbleSums(v)))
  {
    NibblesBelow8(v);
    hide *;
    BytesBelow16(NibbleSums(v));
  }

  function Copy8(v: bv64): bv64 {
    v * 0x101
  }

  function Copy16(v: bv64): bv64 {
    v * 0x1_0001
  }

  function Copy32(v: bv64): bv64 {
    v * 0x1_0000_0001
  }

  function Product(v: bv64): bv64 {
    v * 0x0101_0101_0101_0101
  }

  lemma TwoFactors(v: bv64)
    ensures Copy16(v * 0x101) == v * 0x101_0101
  {}

  lemma ThirdFactor(v: bv64)
    ensures Copy32(v * 0x101_0101) == Product(v)
  {}

  lemma ProductFactors(v: bv64)
    ensures Product(v) == Copy32(Copy16(Copy8(v)))
  {
    TwoFactors(v);
    ThirdFactor(v);
    assert Copy8(v) == v * 0x101;
    hide *;
  }

  lemma Copy8Below32(v: bv64)
    requires Below16(v)
    ensures Below32(Copy8(v))
  {}

  lemma Copy16Below64(v: bv64)
    requires Below32(v)
    ensures Below64(Copy16(v))
  {}

  // Addition of bytes as addition of numbers, one step at a time.

  function ByteAt(v: bv64, k: bv6): bv8 {
    ((v >> k) & 0xFF) as bv8
  }

  function Up(x: bv8): bv8 {
    x + 1
  }

  function Down(x: bv8): bv8 {
    x - 1
  }

  function Plus(x: bv8, y: bv8): bv8 {
    x + y
  }

  function AsNat(x: bv8): nat {
    x as nat
  }

  predicate Fits(x: bv8, y: bv8) {
    y <= 0xFF - x
  }

  lemma UpAsNat(x: bv8)
    requires x != 0xFF
    ensures AsNat(Up(x)) == AsNat(x) + 1
  {}

  lemma DownAsNat(x: bv8)
    requires x != 0
    ensures AsNat(Down(x)) + 1 == AsNat(x)
  {}

  lemma ZeroAsNat(x: bv8)
    ensures AsNat(0) == 0 && Plus(x, 0) == x
  {}

  lemma MoveOne(x: bv8, y: bv8)
    requires Fits(x, y) && y != 0
    ensures x != 0xFF && Fits(Up(x), Down(y)) && Plus(Up(x), Down(y)) == Plus(x, y)
  {}

  lemma {:induction false} PlusAsNat(x: bv8, y: bv8)
    requires Fits(x, y)
    ensures AsNat(Plus(x, y)) == AsNat(x) + AsNat(y)
    decreases AsNat(y)
  {
    hide *;
    if y == 0 {
      ZeroAsNat(x);
    } else {
      MoveOne(x, y);
      UpAsNat(x);
      DownAsNat(y);
      PlusAsNat(Up(x), Down(y));
    }
  }

  lemma ByteIsField(v: bv64, k: bv6)
    ensures FieldAt(v, k, 0xFF) == AsNat(ByteAt(v, k))
  {}

  lemma BytesAdd(sum: bv64, v: bv64, k: bv6, l: bv6)
    requires ByteAt(sum, k) == Plus(ByteAt(v, k), ByteAt(v, l)) && Fits(ByteAt(v, k), ByteAt(v, l))
    ensures FieldAt(sum, k, 0xFF) == FieldAt(v, k, 0xFF) + FieldAt(v, l, 0xFF)
  {
    hide *;
    ByteIsField(sum, k);
    ByteIsField(v, k);
    ByteIsField(v, l);
    PlusAsNat(ByteAt(v, k), ByteAt(v, l));
  }

  lemma Copy8Bytes(v: bv64)
    requires Below16(v)
    ensures ByteAt(Copy8(v), 56) == Plus(ByteAt(v, 56), ByteAt(v, 48)) && Fits(ByteAt(v, 56), ByteAt(v, 48))
    ensures ByteAt(Copy8(v), 40) == Plus(ByteAt(v, 40), ByteAt(v, 32)) && Fits(ByteAt(v, 40), ByteAt(v, 32))
    ensures ByteAt(Copy8(v), 24) == Plus(ByteAt(v, 24), ByteAt(v, 16)) && Fits(ByteAt(v, 24), ByteAt(v, 16))
    ensures ByteAt(Copy8(v), 8) == Plus(ByteAt(v, 8), ByteAt(v, 0)) && Fits(ByteAt(v, 8), ByteAt(v, 0))
  {}

  lemma Copy8Fields(v: bv64)
    requires Below16(v)
    ensures FieldAt(Copy8(v), 56, 0xFF) == FieldAt(v, 56, 0xFF) + FieldAt(v, 48, 0xFF)
    ensures FieldAt(Copy8(v), 40, 0xFF) == FieldAt(v, 40, 0xFF) + FieldAt(v, 32, 0xFF)
    ensures FieldAt(Copy8(v), 24, 0xFF) == FieldAt(v, 24, 0xFF) + FieldAt(v, 16, 0xFF)
    ensures FieldAt(Copy8(v), 8, 0xFF) == FieldAt(v, 8, 0xFF) + FieldAt(v, 0, 0xFF)
  {
    hide *;
    Copy8Bytes(v);
    BytesAdd(Copy8(v), v, 56, 48);
    BytesAdd(Copy8(v), v, 40, 32);
    BytesAdd(Copy8(v), v, 24, 16);
    BytesAdd(Copy8(v), v, 8, 0);
  }

  lemma Copy16Bytes(v: bv64)
    requires Below32(v)
    ensures ByteAt(Copy16(v), 56) == Plus(ByteAt(v, 56), ByteAt(v, 40)) && Fits(ByteAt(v, 56), ByteAt(v, 40))
    ensures ByteAt(Copy16(v), 24) == Plus(ByteAt(v, 24), ByteAt(v, 8)) && Fits(ByteAt(v, 24), ByteAt(v, 8))
  {}

  lemma Copy16Fields(v: bv64)
    requires Below32(v)
    ensures FieldAt(Copy16(v), 56, 0xFF) == FieldAt(v, 56, 0xFF) + FieldAt(v, 40, 0xFF)
    ensures FieldAt(Copy16(v), 24, 0xFF) == FieldAt(v, 24, 0xFF) + FieldAt(v, 8, 0xFF)
  {
    hide *;
    Copy16Bytes(v);
    BytesAdd(Copy16(v), v, 56, 40);
    BytesAdd(Copy16(v), v, 24, 8);
  }

  lemma Copy32Bytes(v: bv64)
    requires Below64(v)
    ensures ByteAt(Copy32(v), 56) == Plus(ByteAt(v, 56), ByteAt(v, 24)) && Fits(ByteAt(v, 56), ByteAt(v, 24))
  {}

  lemma Copy32Fields(v: bv64)
    requires Below64(v)
    ensures FieldAt(Copy32(v), 56, 0xFF) == FieldAt(v, 56, 0xFF) + FieldAt(v, 24, 0xFF)
  {
    hide *;
    Copy32Bytes(v);
    BytesAdd(Copy32(v), v, 56, 24);
  }

  /** The top byte of the 64-bit product is the sum of the eight bytes. */
  lemma TopByteIsSum(v: bv64)
    requires Below16(v)
    ensures FieldAt(Product(v), 56, 0xFF)
         == FieldAt(v, 0, 0xFF) + FieldAt(v, 8, 0xFF) + FieldAt(v, 16, 0xFF) + FieldAt(v, 24, 0xFF)
          + FieldAt(v, 32, 0xFF) + FieldAt(v, 40, 0xFF) + FieldAt(v, 48, 0xFF) + FieldAt(v, 56, 0xFF)
  {
    hide *;
    ProductFactors(v);
    Copy8Below32(v);
    Copy16Below64(Copy8(v));
    Copy32Fields(Copy16(Copy8(v)));
    Copy16Fields(Copy8(v));
    Copy8Fields(v);
  }

  lemma NoneBelowZero(v: bv64)
    ensures BitsBelow(v, 0) == 0
  {}

  /** What `popcnt` adds for one word. */
  function WordCount(v: bv64): nat {
    FieldAt(Product(ByteSums(NibbleSums(PairSums(v)))), 56, 0xFF)
  }

  lemma ByteFields(v: bv64)
    ensures FieldAt(v, 0, 0xFF) == Field(v, 0, 0xFF) && FieldAt(v, 8, 0xFF) == Field(v, 8, 0xFF)
    ensures FieldAt(v, 16, 0xFF) == Field(v, 16, 0xFF) && FieldAt(v, 24, 0xFF) == Field(v, 24, 0xFF)
    ensures FieldAt(v, 32, 0xFF) == Field(v, 32, 0xFF) && FieldAt(v, 40, 0xFF) == Field(v, 40, 0xFF)
    ensures FieldAt(v, 48, 0xFF) == Field(v, 48, 0xFF) && FieldAt(v, 56, 0xFF) == Field(v, 56, 0xFF)
  {
    hide FieldAt;
  }

  /** The three masked sums and the product count the set bits of a word. */
  lemma WordPopulation(v: bv64)
    ensures WordCount(v) == BitsBelow(v, 64)
  {
    hide Field, FieldAt, Product, ByteSums, NibbleSums, PairSums, BitsBelow, Below16;
    SumsBelow16(PairSums(v));
    TopByteIsSum(ByteSums(NibbleSums(PairSums(v))));
    ByteFields(ByteSums(NibbleSums(PairSums(v))));
    ByteCount(v, 0);
    ByteCount(v, 8);
    ByteCount(v, 16);
    ByteCount(v, 24);
    ByteCount(v, 32);
    ByteCount(v, 40);
    ByteCount(v, 48);
    ByteCount(v, 56);
    NoneBelowZero(v);
  }

  /** Set bits among the first `p` positions of a word slice. */
  function CountBelow(ws: seq<bv64>, p: nat): nat
    requires p <= 64 * |ws|
  {
    if p == 0 then 0 else CountBelow(ws, p - 1) + if Bit(ws[(p - 1) / 64], (p - 1) % 64) then 1 else 0
  }

  lemma {:induction false} CountWithinWord(ws: seq<bv64>, i: nat, k: nat)
    requires i < |ws| && k <= 64
    ensures CountBelow(ws, 64 * i + k) == CountBelow(ws, 64 * i) + BitsBelow(ws[i], k)
  {
    hide Bit;
    if k > 0 {
      CountWithinWord(ws, i, k - 1);
      var p := 64 * i + k;
      assert (p - 1) / 64 == i && (p - 1) % 64 == k - 1;
    }
  }

  lemma {:induction false} CountIsCardinality(ws: seq<bv64>, p: nat)
    requires p <= 64 * |ws|
    ensures CountBelow(ws, p) == |set q | q in Elements(ws) && q < p|
  {
    hide Bit;
    var below := set q | q in Elements(ws) && q < p;
    if p == 0 {
      assert below == {};
    } else {
      CountIsCardinality(ws, p - 1);
      var smaller := set q | q in Elements(ws) && q < p - 1;
      assert below == smaller + if p - 1 in Elements(ws) then {p - 1} else {};
    }
  }

  /** The word loop of `popcnt` computes the cardinality of the set. */
  method Popcnt(b: seq<bv64>) returns (total: nat)
    ensures total == |Elements(b)|
  {
    hide Bit, WordCount, BitsBelow;
    total := 0;
    var i := 0;
    while i < |b|
      invariant 0 <= i <= |b|
      invariant total == CountBelow(b, 64 * i)
    {
      WordPopulation(b[i]);
      CountWithinWord(b, i, 64);
      total := total + WordCount(b[i]);
      i := i + 1;
    }
    CountIsCardinality(b, 64 * |b|);
    assert Elements(b) == set q | q in Elements(b) && q < 64 * |b|;
  }

  // ---------------------------------------------------------------- hash

  function XorInto(h: bv64, ws: seq<bv64>): bv64 {
    if ws == [] then h else Xor(XorInto(h, ws[..|ws| - 1]), ws[|ws| - 1])
  }

  /** A uint64 used as a map key. */
  datatype HashKey = HashKey(bits: bv64)

  /** The bucket of a set: its cardinality as a 64-bit word, xor every word in turn. */
  function HashOf(ws: seq<bv64>): HashKey {
    HashKey(XorInto((|Elements(ws)| % 0x1_0000_0000_0000_0000) as bv64, ws))
  }

  /** How many of the words have bit `k` set. */
  ghost function WordsWith(ws: seq<bv64>, k: bv6): nat {
    if ws == [] then 0 else (if BitAt(ws[0], k) then 1 else 0) + WordsWith(ws[1..], k)
  }

  lemma LeftBitSet(a: bv64, b: bv64, k: bv6)
    requires BitAt(a, k) && !BitAt(b, k)
    ensures BitAt(Xor(a, b), k)
  {}

  lemma RightBitSet(a: bv64, b: bv64, k: bv6)
    requires !BitAt(a, k) && BitAt(b, k)
    ensures BitAt(Xor(a, b), k)
  {}

  lemma XorBitAt(a: bv64, b: bv64, k: bv6)
    ensures BitAt(Xor(a, b), k) <==> BitAt(a, k) != BitAt(b, k)
  {
    hide BitAt, Xor;
    if BitAt(Xor(a, b), k) {
      XorBit(a, b, k);
    } else if BitAt(a, k) && !BitAt(b, k) {
      LeftBitSet(a, b, k);
    } else if BitAt(b, k) && !BitAt(a, k) {
      RightBitSet(a, b, k);
    }
  }

  lemma {:induction false} WordsWithSnoc(ws: seq<bv64>, w: bv64, k: bv6)
    ensures WordsWith(ws + [w], k) == WordsWith(ws, k) + if BitAt(w, k) then 1 else 0
  {
    hide BitAt;
    if ws == [] {
      assert ws + [w] == [w] && [w][1..] == [];
    } else {
      WordsWithSnoc(ws[1..], w, k);
      assert (ws + [w])[0] == ws[0] && (ws + [w])[1..] == ws[1..] + [w];
    }
  }

  lemma {:induction false} XorCountsWords(h: bv64, ws: seq<bv64>, k: bv6)
    ensures BitAt(XorInto(h, ws), k) <==> BitAt(h, k) != (WordsWith(ws, k) % 2 == 1)
  {
    hide BitAt, Xor;
    if ws != [] {
      var init, w := ws[..|ws| - 1], ws[|ws| - 1];
      XorCountsWords(h, init, k);
      XorBitAt(XorInto(h, init), w, k);
      WordsWithSnoc(init, w, k);
      assert ws == init + [w];
    }
  }

  /** A bit of the hash is that bit of the cardinality, flipped once for every word that has it set. */
  lemma HashBits(ws: seq<bv64>, k: bv6)
    ensures BitAt(HashOf(ws).bits, k) <==>
      BitAt((|Elements(ws)| % 0x1_0000_0000_0000_0000) as bv64, k) != (WordsWith(ws, k) % 2 == 1)
  {
    hide BitAt, Elements, XorInto;
    XorCountsWords((|Elements(ws)| % 0x1_0000_0000_0000_0000) as bv64, ws, k);
  }

  method Hash(b: seq<bv64>) returns (key: HashKey)
    ensures key == HashOf(b)
  {
    hide Elements, Xor;
    var count := Popcnt(b);
    var hash := (count % 0x1_0000_0000_0000_0000) as bv64;
    ghost var start := hash;
    var i := 0;
    while i < |b|
      invariant 0 <= i <= |b|
      invariant hash == XorInto(start, b[..i])
    {
      assert b[..i + 1][..i] == b[..i];
      hash := Xor(hash, b[i]);
      i := i + 1;
    }
    assert b[..i] == b;
    key := HashKey(hash);
  }
}
