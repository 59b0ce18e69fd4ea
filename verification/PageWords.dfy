/** 32-bit page-directory and page-table words, seen as their bit fields (include/mm/mm.h). */
module PageWords {

  const ENTRIES: nat := 1024
  /** Frames below 1 MB: they carry no reference count and are shared on purpose. */
  const LOW_FRAMES: nat := 256
  const MM_BITMAPS: nat := 512
  const MM_PAGES: nat := 16384
  /** Frames the bitmap and the page array can describe: 65 MB in all. */
  const FRAMES: nat := LOW_FRAMES + MM_PAGES

  /** Bit 0 present, bit 1 write, bit 2 user, bits 3-5 mid, bit 6 dirty, bits 7-11 high, bits 12-31 page. */
  datatype Word = Word(page: nat, present: bool, write: bool, user: bool, mid: nat, dirty: bool, high: nat)

  type Frame = seq<Word>

  const ZERO: Word := Word(0, false, false, false, 0, false, 0)

  function ZeroFrame(): (f: Frame)
    ensures |f| == ENTRIES && forall i :: 0 <= i < ENTRIES ==> f[i] == ZERO
  {
    seq(ENTRIES, i => ZERO)
  }

  /** The word `frame | 7`: a present, writable, user entry for the frame. */
  function Uwp(page: nat): Word {
    Word(page, true, true, true, 0, false, 0)
  }

  predicate InRange(w: Word) {
    w.page < 0x10_0000 && w.mid < 8 && w.high < 32
  }

  function Bit(b: bool): nat { if b then 1 else 0 }

  function Encode(w: Word): nat {
    w.page * 4096 + w.high * 128 + Bit(w.dirty) * 64 + w.mid * 8 + Bit(w.user) * 4 + Bit(w.write) * 2 + Bit(w.present)
  }

  function Decode(n: nat): Word {
    Word(n / 4096, n % 2 == 1, n / 2 % 2 == 1, n / 4 % 2 == 1, n / 8 % 8, n / 64 % 2 == 1, n / 128 % 32)
  }

  /** The low twelve bits of a word. */
  function Flags(w: Word): nat {
    w.high * 128 + Bit(w.dirty) * 64 + w.mid * 8 + Bit(w.user) * 4 + Bit(w.write) * 2 + Bit(w.present)
  }

  lemma FlagsFit(w: Word)
    requires InRange(w)
    ensures Flags(w) < 4096 && Encode(w) == w.page * 4096 + Flags(w)
    ensures Encode(w) / 4096 == w.page && Encode(w) % 4096 == Flags(w)
  {
  }

  lemma Low2(q: nat, r: nat)
    requires r < 2
    ensures (q * 2 + r) / 2 == q && (q * 2 + r) % 2 == r
  {
  }

  lemma Low8(q: nat, r: nat)
    requires r < 8
    ensures (q * 8 + r) / 8 == q && (q * 8 + r) % 8 == r
  {
  }

  /** Bit 1 as the source sets and clears it. */
  lemma WriteBit(w: Word)
    ensures Encode(w) % 4 / 2 == Bit(w.write)
    ensures Encode(w.(write := true)) == Encode(w) - Encode(w) % 4 / 2 * 2 + 2
    ensures Encode(w.(write := false)) == Encode(w) - Encode(w) % 4 / 2 * 2
  {
    var rest := w.page * 1024 + w.high * 32 + Bit(w.dirty) * 16 + w.mid * 2 + Bit(w.user);
    assert Encode(w) == rest * 4 + (Bit(w.write) * 2 + Bit(w.present));
    Low4(rest, Bit(w.write) * 2 + Bit(w.present));
  }

  lemma Low4(q: nat, r: nat)
    requires r < 4
    ensures (q * 4 + r) % 4 == r
  {
  }

  lemma Low32(q: nat, r: nat)
    requires r < 32
    ensures (q * 32 + r) % 32 == r
  {
  }

  /** Dividing in two goes is dividing once. */
  lemma DivDiv(n: nat)
    ensures n / 2 / 2 == n / 4 && n / 4 / 2 == n / 8 && n / 8 / 8 == n / 64 && n / 64 / 2 == n / 128
  {
  }

  lemma Bits(w: Word)
    requires InRange(w)
    ensures var n := Encode(w);
            && n % 2 == Bit(w.present) && n / 2 % 2 == Bit(w.write) && n / 4 % 2 == Bit(w.user) && n / 8 % 8 == w.mid
            && n / 64 % 2 == Bit(w.dirty) && n / 128 % 32 == w.high
  {
    var n := Encode(w);
    var n7 := w.page * 32 + w.high;
    var n6 := n7 * 2 + Bit(w.dirty);
    var n3 := n6 * 8 + w.mid;
    var n2 := n3 * 2 + Bit(w.user);
    var n1 := n2 * 2 + Bit(w.write);
    assert n == n1 * 2 + Bit(w.present);
    Low2(n1, Bit(w.present));
    Low2(n2, Bit(w.write));
    Low2(n3, Bit(w.user));
    Low8(n6, w.mid);
    Low2(n7, Bit(w.dirty));
    Low32(w.page, w.high);
    DivDiv(n);
  }

  /** The field view loses nothing: a word is recovered from its 32-bit value. */
  lemma DecodeEncode(w: Word)
    requires InRange(w)
    ensures Encode(w) < 0x1_0000_0000 && Decode(Encode(w)) == w
  {
    FlagsFit(w);
    Bits(w);
  }

  /** The source's operations on words are the field operations: the comparison of a flagged word with LOW_MEM, the mask
      0xfffff000, `&= ~PTE_WRITE` and `|= PTE_WRITE`. */
  lemma BitOperations(w: Word)
    requires InRange(w)
    ensures Encode(w) >= 0x10_0000 <==> w.page >= LOW_FRAMES
    ensures Encode(w) - Encode(w) % 4096 == w.page * 4096
    ensures Encode(w.(write := false)) == Encode(w) - Encode(w) / 2 % 2 * 2
    ensures Encode(w.(write := true)) == Encode(w) + (1 - Encode(w) / 2 % 2) * 2
  {
    FlagsFit(w);
    Bits(w);
  }
}
