// x86-64 page-table arithmetic: the index macros, and the layout of an entry.

module PgTables {
  import opened Dyadic

  // ------------------------------------------------------------ index macros

  function Pml4Index(va: nat): nat { (va / 0x80_0000_0000) % 512 }
  function PdpIndex(va: nat): nat { (va / 0x4000_0000) % 512 }
  function PdIndex(va: nat): nat { (va / 0x20_0000) % 512 }
  function PtIndex(va: nat): nat { (va / 0x1000) % 512 }
  function PageOffset(va: nat): nat { va % 0x1000 }

  // BASE_TO_PAGE_ADDR
  function BaseToPage(b: nat): nat { b * 0x1000 }

  function Join(i4: nat, i3: nat, i2: nat, i1: nat, offset: nat): nat
  {
    (((i4 * 512 + i3) * 512 + i2) * 512 + i1) * 0x1000 + offset
  }

  lemma NineMore(k: nat)
    ensures Pow2(k + 9) == 512 * Pow2(k)
  {
    assert Pow2(k + 3) == 2 * Pow2(k + 2) == 4 * Pow2(k + 1) == 8 * Pow2(k);
    assert Pow2(k + 6) == 2 * Pow2(k + 5) == 4 * Pow2(k + 4) == 8 * Pow2(k + 3);
    assert Pow2(k + 9) == 2 * Pow2(k + 8) == 4 * Pow2(k + 7) == 8 * Pow2(k + 6);
  }

  // They are the shifts of pgtables.h, each cut to nine bits.
  lemma MacrosAreShifts(va: nat)
    ensures Pml4Index(va) == Shr(va, 39) % 512 && PdpIndex(va) == Shr(va, 30) % 512
    ensures PdIndex(va) == Shr(va, 21) % 512 && PtIndex(va) == Shr(va, 12) % 512
  {
    assert Pow2(1) == 2 && Pow2(2) == 4 && Pow2(3) == 8;
    NineMore(3);
    NineMore(12);
    NineMore(21);
    NineMore(30);
    ShiftIsDivision(va, 39);
    ShiftIsDivision(va, 30);
    ShiftIsDivision(va, 21);
    ShiftIsDivision(va, 12);
  }

  // The prefix of a page number that selects a table, level by level.
  lemma DivisionChain(va: nat)
    ensures va / 0x20_0000 == va / 0x1000 / 512
    ensures va / 0x4000_0000 == va / 0x1000 / 512 / 512
    ensures va / 0x80_0000_0000 == va / 0x1000 / 512 / 512 / 512
  {
  }

  lemma Digit(q: nat, i: nat)
    requires i < 512
    ensures (q * 512 + i) / 512 == q && (q * 512 + i) % 512 == i
  {
  }

  // The four indices and the offset determine a 48-bit address, and every
  // choice of them is one.
  lemma IndicesDetermineAddress(va: nat)
    requires va < 0x1_0000_0000_0000
    ensures Join(Pml4Index(va), PdpIndex(va), PdIndex(va), PtIndex(va), PageOffset(va)) == va
  {
    DivisionChain(va);
    var q1 := va / 0x1000;
    var q2 := q1 / 512;
    var q3 := q2 / 512;
    var q4 := q3 / 512;
    assert q4 < 512;
    assert Pml4Index(va) == q4 && PdpIndex(va) == q3 % 512 && PdIndex(va) == q2 % 512;
    assert q4 * 512 + PdpIndex(va) == q3;
    assert q3 * 512 + PdIndex(va) == q2;
    assert q2 * 512 + PtIndex(va) == q1;
  }

  lemma AddressDeterminesIndices(i4: nat, i3: nat, i2: nat, i1: nat, offset: nat)
    requires i4 < 512 && i3 < 512 && i2 < 512 && i1 < 512 && offset < 0x1000
    ensures var va := Join(i4, i3, i2, i1, offset);
            && va < 0x1_0000_0000_0000
            && Pml4Index(va) == i4 && PdpIndex(va) == i3 && PdIndex(va) == i2 && PtIndex(va) == i1
            && PageOffset(va) == offset
  {
    var va := Join(i4, i3, i2, i1, offset);
    DivisionChain(va);
    var q3 := i4 * 512 + i3;
    var q2 := q3 * 512 + i2;
    var q1 := q2 * 512 + i1;
    assert va == q1 * 0x1000 + offset;
    assert va / 0x1000 == q1;
    Digit(q2, i1);
    Digit(q3, i2);
    Digit(i4, i3);
  }

  // ------------------------------------------------------------------ entries

  const BASE_LIMIT: nat := 0x100_0000_0000

  // The fields of several bits: page_base_addr, vmm_info and available.
  type Base = b: nat | b < BASE_LIMIT
  type Info = i: nat | i < 8
  type Spare = a: nat | a < 2048

  // pte64_t, field by field.  The entries of all four levels keep present,
  // writable, user, accessed and the base in the same bits.
  datatype Pte = Pte(
    present: bool, writable: bool, user: bool, writeThrough: bool, cacheDisable: bool,
    accessed: bool, dirty: bool, attr: bool, global: bool,
    info: Info, base: Base, available: Spare, noExecute: bool)

  const ZERO_PTE: Pte :=
    Pte(false, false, false, false, false, false, false, false, false, 0, 0, 0, false)

  // A one-bit field below the word `rest`.
  function Put(b: bool, rest: nat): nat { (if b then 1 else 0) + 2 * rest }
  function Low(w: nat): bool { w % 2 == 1 }

  // The fields from vmm_info up.
  function PackHigh(e: Pte): nat
  {
    e.info + 8 * (e.base + 0x100_0000_0000 * (e.available + 2048 * (if e.noExecute then 1 else 0)))
  }

  function PackMid(e: Pte): nat
  {
    Put(e.accessed, Put(e.dirty, Put(e.attr, Put(e.global, PackHigh(e)))))
  }

  // The 64-bit word of an entry, lowest field first.
  function Pack(e: Pte): nat
  {
    Put(e.present, Put(e.writable, Put(e.user, Put(e.writeThrough, Put(e.cacheDisable, PackMid(e))))))
  }

  function Unpack(w: nat): Pte
  {
    var w1 := w / 2;
    var w2 := w1 / 2;
    var w3 := w2 / 2;
    var w4 := w3 / 2;
    var w5 := w4 / 2;
    var w6 := w5 / 2;
    var w7 := w6 / 2;
    var w8 := w7 / 2;
    var w9 := w8 / 2;
    Pte(Low(w), Low(w1), Low(w2), Low(w3), Low(w4), Low(w5), Low(w6), Low(w7), Low(w8),
        w9 % 8, w9 / 8 % 0x100_0000_0000, w9 / 0x800_0000_0000 % 2048, w9 / 0x40_0000_0000_0000 % 2 == 1)
  }

  lemma Pull(b: bool, rest: nat)
    ensures Low(Put(b, rest)) == b && Put(b, rest) / 2 == rest
  {
  }

  lemma PullHigh(e: Pte)
    ensures var w := PackHigh(e);
            && w % 8 == e.info && w / 8 % 0x100_0000_0000 == e.base
            && w / 0x800_0000_0000 % 2048 == e.available
            && (w / 0x40_0000_0000_0000 % 2 == 1 <==> e.noExecute)
            && w < 0x80_0000_0000_0000
  {
    var nx: nat := if e.noExecute then 1 else 0;
    var a: nat := e.available + 2048 * nx;
    var b: nat := e.base + 0x100_0000_0000 * a;
    var w := PackHigh(e);
    assert w == e.info + 8 * b && w / 8 == b;
    assert w / 0x800_0000_0000 == b / 0x100_0000_0000 == a;
    assert w / 0x40_0000_0000_0000 == a / 2048 == nx;
  }

  lemma PushHigh(e: Pte, w: nat)
    requires w < 0x80_0000_0000_0000
    requires e.info == w % 8 && e.base == w / 8 % 0x100_0000_0000
    requires e.available == w / 0x800_0000_0000 % 2048
    requires e.noExecute <==> w / 0x40_0000_0000_0000 % 2 == 1
    ensures PackHigh(e) == w
  {
    var b := w / 8;
    var a := b / 0x100_0000_0000;
    assert w / 0x800_0000_0000 == a && w / 0x40_0000_0000_0000 == a / 2048 < 2;
  }

  lemma PullMid(e: Pte, w5: nat)
    requires w5 == PackMid(e)
    ensures Low(w5) == e.accessed && Low(w5 / 2) == e.dirty && Low(w5 / 2 / 2) == e.attr
    ensures Low(w5 / 2 / 2 / 2) == e.global && w5 / 2 / 2 / 2 / 2 == PackHigh(e)
  {
    var p9 := PackHigh(e);
    var p8 := Put(e.global, p9);
    var p7 := Put(e.attr, p8);
    Pull(e.accessed, Put(e.dirty, p7));
    Pull(e.dirty, p7);
    Pull(e.attr, p8);
    Pull(e.global, p9);
  }

  lemma PullLow(e: Pte, w: nat)
    requires w == Pack(e)
    ensures Low(w) == e.present && Low(w / 2) == e.writable && Low(w / 2 / 2) == e.user
    ensures Low(w / 2 / 2 / 2) == e.writeThrough && Low(w / 2 / 2 / 2 / 2) == e.cacheDisable
    ensures w / 2 / 2 / 2 / 2 / 2 == PackMid(e)
  {
    var p5 := PackMid(e);
    var p4 := Put(e.cacheDisable, p5);
    var p3 := Put(e.writeThrough, p4);
    var p2 := Put(e.user, p3);
    Pull(e.present, Put(e.writable, p2));
    Pull(e.writable, p2);
    Pull(e.user, p3);
    Pull(e.writeThrough, p4);
    Pull(e.cacheDisable, p5);
  }

  // Writing the fields of an entry and reading them back.
  lemma UnpackPack(e: Pte)
    ensures Pack(e) < 0x1_0000_0000_0000_0000 && Unpack(Pack(e)) == e
  {
    PullLow(e, Pack(e));
    PullMid(e, PackMid(e));
    PullHigh(e);
    UnpackHigh(Pack(e), PackHigh(e));
  }

  lemma UnpackHigh(w: nat, h: nat)
    requires h == w / 2 / 2 / 2 / 2 / 2 / 2 / 2 / 2 / 2
    ensures Unpack(w).info == h % 8 && Unpack(w).base == h / 8 % 0x100_0000_0000
    ensures Unpack(w).available == h / 0x800_0000_0000 % 2048
    ensures Unpack(w).noExecute <==> h / 0x40_0000_0000_0000 % 2 == 1
  {
  }

  lemma Halves(w: nat)
    ensures w / 2 / 2 == w / 4 && w / 2 / 2 / 2 == w / 8 && w / 2 / 2 / 2 / 2 == w / 16
    ensures w / 2 / 2 / 2 / 2 / 2 == w / 32 && w / 2 / 2 / 2 / 2 / 2 / 2 == w / 64
    ensures w / 2 / 2 / 2 / 2 / 2 / 2 / 2 == w / 128 && w / 2 / 2 / 2 / 2 / 2 / 2 / 2 / 2 == w / 256
    ensures w / 2 / 2 / 2 / 2 / 2 / 2 / 2 / 2 / 2 == w / 512
  {
  }

  // Where each flag is in the word (section 4.5 of the Intel SDM, volume 3A) ...
  lemma FlagsByBits(e: Pte)
    ensures var w := Pack(e);
            && (e.present <==> w % 2 == 1) && (e.writable <==> w / 2 % 2 == 1) && (e.user <==> w / 4 % 2 == 1)
            && (e.writeThrough <==> w / 8 % 2 == 1) && (e.cacheDisable <==> w / 16 % 2 == 1)
            && (e.accessed <==> w / 32 % 2 == 1) && (e.dirty <==> w / 64 % 2 == 1)
            && (e.attr <==> w / 128 % 2 == 1) && (e.global <==> w / 256 % 2 == 1)
            && w / 512 == PackHigh(e)
  {
    PullLow(e, Pack(e));
    PullMid(e, PackMid(e));
    Halves(Pack(e));
  }

  lemma BeyondFlags(w: nat)
    ensures w / 512 / 8 == w / 0x1000 && w / 512 / 0x800_0000_0000 == w / 0x10_0000_0000_0000
    ensures w / 512 / 0x40_0000_0000_0000 == w / 0x8000_0000_0000_0000
  {
  }

  // ... and each wider field, and the top bit.
  lemma FieldsByBits(e: Pte)
    ensures var w := Pack(e);
            && e.info == w / 0x200 % 8 && e.base == w / 0x1000 % 0x100_0000_0000
            && e.available == w / 0x10_0000_0000_0000 % 2048
            && (e.noExecute <==> w / 0x8000_0000_0000_0000 % 2 == 1)
  {
    FlagsByBits(e);
    PullHigh(e);
    BeyondFlags(Pack(e));
  }

  // The entry whose word is zero.
  lemma ZeroWord(e: Pte)
    ensures e == ZERO_PTE <==> Pack(e) == 0
  {
    UnpackPack(e);
    FlagsByBits(e);
    FieldsByBits(e);
  }

  lemma PutLow(w: nat)
    ensures Put(Low(w), w / 2) == w
  {
  }

  // Every 64-bit word is the image of exactly the entry read from it.
  lemma PackUnpack(w: nat)
    requires w < 0x1_0000_0000_0000_0000
    ensures Pack(Unpack(w)) == w
  {
    var w1 := w / 2;
    var w2 := w1 / 2;
    var w3 := w2 / 2;
    var w4 := w3 / 2;
    var w5 := w4 / 2;
    var w6 := w5 / 2;
    var w7 := w6 / 2;
    var w8 := w7 / 2;
    var w9 := w8 / 2;
    PushHigh(Unpack(w), w9);
    PutLow(w);
    PutLow(w1);
    PutLow(w2);
    PutLow(w3);
    PutLow(w4);
    PutLow(w5);
    PutLow(w6);
    PutLow(w7);
    PutLow(w8);
  }
}
