/** The Sv39 layout: page-table entries as 64-bit words and the three 9-bit indices of an address
    (section 4.4 of the RISC-V Privileged Architecture, version 1.12). */
module Sv39 {

  const PGSIZE := 4096
  const MAXVA := 0x40_0000_0000  // 1 << (9 + 9 + 9 + 12 - 1)
  const TRAMPOLINE := MAXVA - PGSIZE
  const TRAPFRAME := TRAMPOLINE - PGSIZE

  /** soft holds bits 5 to 9: global, accessed, dirty and the two software bits. */
  datatype Flags = Flags(r: bool, w: bool, x: bool, u: bool, soft: nat)

  datatype Pte = Pte(v: bool, flags: Flags, ppn: nat)

  const NOFLAGS := Flags(false, false, false, false, 0)
  const ZERO := Pte(false, NOFLAGS, 0)

  predicate IsLeaf(f: Flags) {
    f.r || f.w || f.x
  }

  function Bit(b: bool, weight: nat): nat {
    if b then weight else 0
  }

  /** The 64-bit word of an entry: the page number starts at bit 10. */
  function Encode(e: Pte): nat {
    e.ppn * 1024 + e.flags.soft * 32
    + Bit(e.flags.u, 16) + Bit(e.flags.x, 8) + Bit(e.flags.w, 4) + Bit(e.flags.r, 2) + Bit(e.v, 1)
  }

  predicate HasBit(word: nat, weight: nat)
    requires weight > 0
  {
    (word / weight) % 2 == 1
  }

  function Decode(word: nat): Pte {
    Pte(HasBit(word, 1),
        Flags(HasBit(word, 2), HasBit(word, 4), HasBit(word, 8), HasBit(word, 16), (word / 32) % 32),
        word / 1024)
  }

  function Pa2Pte(pa: nat): nat {
    pa / 4096 * 1024
  }

  function Pte2Pa(word: nat): nat {
    word / 1024 * 4096
  }

  /** A word is the given bits, lowest first, below the given rest. */
  ghost predicate Made(word: nat, v: bool, r: bool, w: bool, x: bool, u: bool, rest: nat) {
    word == 2 * (2 * (2 * (2 * (2 * rest + Bit(u, 1)) + Bit(x, 1)) + Bit(w, 1)) + Bit(r, 1)) + Bit(v, 1)
  }

  lemma MadeHasBits(word: nat, v: bool, r: bool, w: bool, x: bool, u: bool, rest: nat)
    requires Made(word, v, r, w, x, u, rest)
    ensures HasBit(word, 1) == v && HasBit(word, 2) == r && HasBit(word, 4) == w && HasBit(word, 8) == x
    ensures HasBit(word, 16) == u
    ensures word / 32 == rest && word / 1024 == rest / 32
  {
    var w4 := 2 * rest + Bit(u, 1);
    var w3 := 2 * w4 + Bit(x, 1);
    var w2 := 2 * w3 + Bit(w, 1);
    var w1 := 2 * w2 + Bit(r, 1);
    assert word / 2 == w1 && word / 4 == w2 && word / 8 == w3 && word / 16 == w4;
  }

  lemma HalfOf(word: nat, weight: nat, m: nat)
    requires weight > 0 && m == word / weight
    ensures m == 2 * (m / 2) + Bit(HasBit(word, weight), 1)
  {
  }

  lemma Halvings(word: nat)
    ensures word / 2 / 2 == word / 4 && word / 4 / 2 == word / 8 && word / 8 / 2 == word / 16
    ensures word / 16 / 2 == word / 32
  {
  }

  lemma EveryWordIsMade(word: nat)
    ensures Made(word, HasBit(word, 1), HasBit(word, 2), HasBit(word, 4), HasBit(word, 8), HasBit(word, 16), word / 32)
  {
    Halvings(word);
    HalfOf(word, 1, word);
    HalfOf(word, 2, word / 2);
    HalfOf(word, 4, word / 4);
    HalfOf(word, 8, word / 8);
    HalfOf(word, 16, word / 16);
  }

  lemma RestOf(word: nat)
    ensures word / 32 == word / 1024 * 32 + (word / 32) % 32
  {
  }

  /** Entries and their words determine each other; a 44-bit page number fits in the word. */
  lemma DecodeEncode(e: Pte)
    requires e.flags.soft < 32
    ensures Decode(Encode(e)) == e
    ensures e.ppn < 0x1000_0000_0000 ==> Encode(e) < 0x1_0000_0000_0000_0000
  {
    MadeHasBits(Encode(e), e.v, e.flags.r, e.flags.w, e.flags.x, e.flags.u, e.ppn * 32 + e.flags.soft);
  }

  lemma EncodeDecode(word: nat)
    ensures Encode(Decode(word)) == word
  {
    EveryWordIsMade(word);
    RestOf(word);
  }

  /** word & (1L << k) is not 0. */
  predicate NthBit(word: nat, k: nat) {
    if k == 0 then word % 2 == 1 else NthBit(word / 2, k - 1)
  }

  /** The flags are the bits that the hardware looks at: valid, read, write, execute, user, from bit 0 on. */
  lemma EntryBits(e: Pte)
    requires e.flags.soft < 32
    ensures var word := Encode(e);
            && NthBit(word, 0) == e.v && NthBit(word, 1) == e.flags.r && NthBit(word, 2) == e.flags.w
            && NthBit(word, 3) == e.flags.x && NthBit(word, 4) == e.flags.u
    ensures forall k: nat :: NthBit(Encode(e), 10 + k) == NthBit(e.ppn, k)
  {
    var word := Encode(e);
    MadeHasBits(word, e.v, e.flags.r, e.flags.w, e.flags.x, e.flags.u, e.ppn * 32 + e.flags.soft);
    FirstNthBits(word);
    FifthHalf(word);
    FifthHalf(word / 32);
    forall k: nat
      ensures NthBit(word, 10 + k) == NthBit(e.ppn, k)
    {
      SkipBits(word, 5, 5 + k);
      SkipBits(word / 32, 5, k);
    }
  }

  function Halved(word: nat, n: nat): nat {
    if n == 0 then word else Halved(word / 2, n - 1)
  }

  lemma FifthHalf(word: nat)
    ensures Halved(word, 5) == word / 32
  {
    Halvings(word);
    assert Halved(word, 5) == Halved(word / 2, 4) == Halved(word / 4, 3) == Halved(word / 8, 2);
    assert Halved(word / 8, 2) == Halved(word / 16, 1) == word / 32;
  }

  lemma {:induction false} SkipBits(word: nat, n: nat, k: nat)
    ensures NthBit(word, n + k) == NthBit(Halved(word, n), k)
  {
    if n > 0 {
      SkipBits(word / 2, n - 1, k);
    }
  }

  lemma FirstNthBits(word: nat)
    ensures NthBit(word, 0) == HasBit(word, 1) && NthBit(word, 1) == HasBit(word, 2)
    ensures NthBit(word, 2) == HasBit(word, 4) && NthBit(word, 3) == HasBit(word, 8)
    ensures NthBit(word, 4) == HasBit(word, 16)
  {
    FirstHalves(word);
    SkipBits(word, 1, 0);
    SkipBits(word, 2, 0);
    SkipBits(word, 3, 0);
    SkipBits(word, 4, 0);
  }

  lemma FirstHalves(word: nat)
    ensures Halved(word, 1) == word / 2 && Halved(word, 2) == word / 4 && Halved(word, 3) == word / 8
    ensures Halved(word, 4) == word / 16
  {
    Halvings(word);
    assert Halved(word, 2) == Halved(word / 2, 1);
    assert Halved(word, 3) == Halved(word / 2, 2) == Halved(word / 4, 1);
    assert Halved(word, 4) == Halved(word / 2, 3) == Halved(word / 4, 2) == Halved(word / 8, 1);
  }

  /** PTE2PA undoes PA2PTE on page addresses and reads the address out of any entry. */
  lemma PaRoundTrip(pa: nat, e: Pte)
    ensures Pte2Pa(Pa2Pte(pa)) == pa <==> pa % PGSIZE == 0
    ensures e.flags.soft < 32 ==> Pte2Pa(Encode(e)) == e.ppn * PGSIZE
    ensures Pa2Pte(pa) == Encode(Pte(false, NOFLAGS, pa / PGSIZE))
  {
  }

  /** The index of va into a page-table page of the given level. */
  function Px(level: nat, va: nat): (i: nat)
    ensures i < 512
  {
    (if level == 2 then va / 0x4000_0000 else if level == 1 then va / 0x20_0000 else va / 0x1000) % 512
  }

  /** Below MAXVA the three indices determine the page and any indices are those of one page. */
  lemma IndicesArePages(va: nat, i2: nat, i1: nat, i0: nat)
    requires i2 < 256 && i1 < 512 && i0 < 512
    ensures va < MAXVA ==> Px(2, va) < 256 && va / PGSIZE == (Px(2, va) * 512 + Px(1, va)) * 512 + Px(0, va)
    ensures var a := ((i2 * 512 + i1) * 512 + i0) * PGSIZE;
            a < MAXVA && Px(2, a) == i2 && Px(1, a) == i1 && Px(0, a) == i0
  {
    var vpn := va / PGSIZE;
    assert va / 0x4000_0000 == vpn / 262144 && va / 0x20_0000 == vpn / 512;
  }

  lemma IndicesInjective(va: nat, wa: nat)
    requires va < MAXVA && wa < MAXVA
    requires forall level :: 0 <= level <= 2 ==> Px(level, va) == Px(level, wa)
    ensures va / PGSIZE == wa / PGSIZE
  {
    IndicesArePages(va, 0, 0, 0);
    IndicesArePages(wa, 0, 0, 0);
    assert Px(2, va) == Px(2, wa) && Px(1, va) == Px(1, wa) && Px(0, va) == Px(0, wa);
  }

  function RoundUp(sz: nat): (r: nat)
    ensures sz <= r < sz + PGSIZE && r % PGSIZE == 0
  {
    (sz + PGSIZE - 1) / PGSIZE * PGSIZE
  }

  lemma NextPage(a: nat, sz: nat)
    requires a % PGSIZE == 0 && a < sz
    ensures a + PGSIZE <= RoundUp(sz)
  {
    assert a == a / PGSIZE * PGSIZE;
  }

  lemma PageAfter(base: nat, n: nat)
    requires base % PGSIZE == 0
    ensures (base + n * PGSIZE) / PGSIZE == base / PGSIZE + n && (base + n * PGSIZE) % PGSIZE == 0
  {
  }

  lemma SizeSpan(sz: nat)
    ensures var count := RoundUp(sz) / PGSIZE; sz <= count * PGSIZE && (count > 0 ==> count * PGSIZE < sz + PGSIZE)
  {
  }

  /** The first page above a size. */
  function FirstPage(sz: nat): nat {
    RoundUp(sz) / PGSIZE
  }

  /** The number of pages between two sizes. */
  function PagesBetween(oldsz: nat, newsz: nat): nat {
    if FirstPage(oldsz) <= FirstPage(newsz) then FirstPage(newsz) - FirstPage(oldsz) else 0
  }

  lemma Span(oldsz: nat, newsz: nat)
    requires oldsz <= newsz
    ensures RoundUp(oldsz) == FirstPage(oldsz) * PGSIZE
    ensures RoundUp(newsz) == RoundUp(oldsz) + PagesBetween(oldsz, newsz) * PGSIZE
    ensures RoundUp(newsz) / PGSIZE == FirstPage(oldsz) + PagesBetween(oldsz, newsz)
    ensures PagesBetween(oldsz, newsz) > 0 <==> newsz > RoundUp(oldsz)
  {
    assert RoundUp(oldsz) == FirstPage(oldsz) * PGSIZE && RoundUp(newsz) == FirstPage(newsz) * PGSIZE;
    assert FirstPage(oldsz) <= FirstPage(newsz);
  }

  lemma RoundUpPages(base: nat, n: nat)
    requires base % PGSIZE == 0
    ensures RoundUp(base) == base && RoundUp(base + n * PGSIZE) == base + n * PGSIZE
  {
  }
}
