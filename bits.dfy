/** Words, 32-bit arithmetic and the little-endian bit view used for sample
    rows and EIO registers. `CopyBits` models CFG_copy_bits_vec32: a
    (pointer, bit offset) pair of the source is a bit offset into the whole
    word vector here. */
module Bits {

  /** The source's uint32_t. */
  type u32 = x: int | 0 <= x < 0x1_0000_0000

  /** uint32_t arithmetic: the result wraps modulo 2^32. */
  function U32(x: int): (r: u32)
    ensures 0 <= x < 0x1_0000_0000 ==> r == x
    ensures (r - x) % 0x1_0000_0000 == 0
  {
    x % 0x1_0000_0000
  }

  /** `((bitwidth - 1) / 32) + 1` evaluated in uint32_t: the number of 32-bit
      words one row of a `bitwidth`-bit signal occupies. */
  function WordsFor(bitwidth: u32): (r: u32)
    ensures bitwidth >= 1 ==> (r - 1) * 32 < bitwidth <= r * 32
    ensures bitwidth == 0 ==> r == 0x800_0000
  {
    U32(bitwidth - 1) / 32 + 1
  }

  /** Bit k of one word. */
  function WordBit(w: bv32, k: bv5): bool {
    (w >> (k as bv32)) & 1 == 1
  }

  /** One word with bit k set to b. */
  function SetWordBit(w: bv32, k: bv5, b: bool): bv32 {
    if b then w | (1 << (k as bv32)) else w & !(1 << (k as bv32))
  }

  lemma SetWordBitAt(w: bv32, k: bv5, b: bool, m: bv5)
    ensures WordBit(SetWordBit(w, k, b), m) == if m == k then b else WordBit(w, m)
  {
  }

  /** Bit i of a word vector: bit i % 32 of word i / 32, read word by word
      from the lowest. A bit beyond the vector reads as zero. */
  function BitAt(ws: seq<bv32>, i: nat): bool
    decreases |ws|
  {
    if |ws| == 0 then false
    else if i < 32 then WordBit(ws[0], i as bv5)
    else BitAt(ws[1..], i - 32)
  }

  /** The vector with bit i set to b; a bit beyond the vector is not stored. */
  function SetBit(ws: seq<bv32>, i: nat, b: bool): (r: seq<bv32>)
    ensures |r| == |ws|
    decreases |ws|
  {
    if |ws| == 0 then ws
    else if i < 32 then [SetWordBit(ws[0], i as bv5, b)] + ws[1..]
    else [ws[0]] + SetBit(ws[1..], i - 32, b)
  }

  /** Only the first 32 * |ws| bits of a vector can be set. */
  lemma {:induction false} BitAtBeyond(ws: seq<bv32>, i: nat)
    ensures BitAt(ws, i) ==> i < 32 * |ws|
    decreases |ws|
  {
    if |ws| > 0 && i >= 32 {
      BitAtBeyond(ws[1..], i - 32);
    }
  }

  lemma Bv5Distinct(i: nat, j: nat)
    requires i < 32 && j < 32
    ensures (i == j) == (i as bv5 == j as bv5)
  {
    assert (i as bv5) as int == i && (j as bv5) as int == j;
  }

  lemma {:induction false} SetBitAt(ws: seq<bv32>, i: nat, b: bool, j: nat)
    ensures BitAt(SetBit(ws, i, b), j) == if j == i && i < 32 * |ws| then b else BitAt(ws, j)
    decreases |ws|
  {
    if |ws| > 0 {
      var ws' := SetBit(ws, i, b);
      if i < 32 && j < 32 {
        Bv5Distinct(i, j);
        SetWordBitAt(ws[0], i as bv5, b, j as bv5);
      } else if i < 32 {
        assert ws'[1..] == ws[1..];
      } else if j >= 32 {
        assert ws'[1..] == SetBit(ws[1..], i - 32, b);
        SetBitAt(ws[1..], i - 32, b, j - 32);
      }
    }
  }

  /** CFG_copy_bits_vec32(src, srcPos, dst, dstPos, width): the `width` bits
      of `src` starting at bit `srcPos` are copied, lowest first, into `dst`
      starting at bit `dstPos`. */
  function CopyBits(src: seq<bv32>, srcPos: nat, dst: seq<bv32>, dstPos: nat, width: nat): (r: seq<bv32>)
    ensures |r| == |dst|
    decreases width
  {
    if width == 0 then dst
    else CopyBits(src, srcPos + 1, SetBit(dst, dstPos, BitAt(src, srcPos)), dstPos + 1, width - 1)
  }

  /** Every bit of the destination inside the copied window (and inside the
      vector) comes from the source; every other bit is unchanged. */
  lemma {:induction false} CopyBitsAt(src: seq<bv32>, srcPos: nat, dst: seq<bv32>, dstPos: nat, width: nat, j: nat)
    ensures BitAt(CopyBits(src, srcPos, dst, dstPos, width), j) ==
            if dstPos <= j < dstPos + width && j < 32 * |dst| then BitAt(src, srcPos + (j - dstPos))
            else BitAt(dst, j)
    decreases width
  {
    if width > 0 {
      var d1 := SetBit(dst, dstPos, BitAt(src, srcPos));
      var r := CopyBits(src, srcPos + 1, d1, dstPos + 1, width - 1);
      assert CopyBits(src, srcPos, dst, dstPos, width) == r;
      CopyBitsAt(src, srcPos + 1, d1, dstPos + 1, width - 1, j);
      SetBitAt(dst, dstPos, BitAt(src, srcPos), j);
      if j == dstPos {
        assert BitAt(r, j) == BitAt(d1, j);
      } else if dstPos < j < dstPos + width && j < 32 * |dst| {
        assert BitAt(r, j) == BitAt(src, srcPos + 1 + (j - (dstPos + 1)));
      } else {
        assert BitAt(r, j) == BitAt(d1, j) == BitAt(dst, j);
      }
    }
  }

  /** The bits of a concatenation: those of the first part, then those of
      the second. */
  lemma {:induction false} BitAtConcat(a: seq<bv32>, b: seq<bv32>, j: nat)
    ensures BitAt(a + b, j) == if j < 32 * |a| then BitAt(a, j) else BitAt(b, j - 32 * |a|)
    decreases |a|
  {
    if |a| > 0 {
      if j >= 32 {
        assert (a + b)[1..] == a[1..] + b;
        BitAtConcat(a[1..], b, j - 32);
      } else {
        assert (a + b)[0] == a[0];
      }
    } else {
      assert a + b == b;
    }
  }

  lemma {:induction false} SetBitPrefix(b: seq<bv32>, c: seq<bv32>, k: nat, v: bool)
    requires k < 32 * |b|
    ensures SetBit(b + c, k, v) == SetBit(b, k, v) + c
    decreases |b|
  {
    assert (b + c)[0] == b[0];
    if k >= 32 {
      assert (b + c)[1..] == b[1..] + c;
      SetBitPrefix(b[1..], c, k - 32, v);
    } else {
      assert (b + c)[1..] == b[1..] + c;
    }
  }

  lemma {:induction false} SetBitShift(a: seq<bv32>, r: seq<bv32>, k: nat, v: bool)
    ensures SetBit(a + r, 32 * |a| + k, v) == a + SetBit(r, k, v)
    decreases |a|
  {
    if |a| > 0 {
      assert (a + r)[1..] == a[1..] + r;
      assert (a + r)[0] == a[0];
      SetBitShift(a[1..], r, k, v);
    } else {
      assert a + r == r;
    }
  }

  /** Setting a bit inside block b of a + b + c only changes that block. */
  lemma SetBitInBlock(a: seq<bv32>, b: seq<bv32>, c: seq<bv32>, k: nat, v: bool)
    requires k < 32 * |b|
    ensures SetBit(a + b + c, 32 * |a| + k, v) == a + SetBit(b, k, v) + c
  {
    assert a + b + c == a + (b + c);
    SetBitShift(a, b + c, k, v);
    SetBitPrefix(b, c, k, v);
  }

  /** Copying at most |b| * 32 bits to the start of block b of a + b + c is
      copying them into b alone. */
  lemma {:induction false} CopyBitsInBlock(src: seq<bv32>, srcPos: nat, a: seq<bv32>, b: seq<bv32>, c: seq<bv32>,
                                           dstPos: nat, width: nat)
    requires dstPos + width <= 32 * |b|
    ensures CopyBits(src, srcPos, a + b + c, 32 * |a| + dstPos, width) == a + CopyBits(src, srcPos, b, dstPos, width) + c
    decreases width
  {
    if width > 0 {
      SetBitInBlock(a, b, c, dstPos, BitAt(src, srcPos));
      CopyBitsInBlock(src, srcPos + 1, a, SetBit(b, dstPos, BitAt(src, srcPos)), c, dstPos + 1, width - 1);
    }
  }

  /** A vector of n zero words (std::vector<uint32_t>(n, 0)). */
  function Zeros(n: nat): (r: seq<bv32>)
    ensures |r| == n
  {
    seq(n, _ => 0)
  }

  /** A zero vector splits into zero vectors. */
  lemma ZerosConcat(a: nat, b: nat)
    ensures Zeros(a + b) == Zeros(a) + Zeros(b)
  {
    assert forall k :: 0 <= k < a + b ==> Zeros(a + b)[k] == (Zeros(a) + Zeros(b))[k];
  }

  lemma {:induction false} ZerosBit(n: nat, j: nat)
    ensures !BitAt(Zeros(n), j)
  {
    if n > 0 {
      if j < 32 {
        assert !WordBit(0, j as bv5);
      } else {
        assert Zeros(n)[1..] == Zeros(n - 1);
        ZerosBit(n - 1, j - 32);
      }
    }
  }

  /** std::vector::resize(n) (and a hardware read of n words): the first n
      words, padded with zero words. */
  function Resize(ws: seq<bv32>, n: nat): (r: seq<bv32>)
    ensures |r| == n
  {
    seq(n, k requires 0 <= k < n => if k < |ws| then ws[k] else 0)
  }

  /** Zero-extension keeps every bit of the vector. */
  lemma {:induction false} ResizeKeepsBits(ws: seq<bv32>, n: nat, j: nat)
    requires n >= |ws|
    ensures BitAt(Resize(ws, n), j) == BitAt(ws, j)
    decreases |ws|
  {
    if |ws| == 0 {
      assert Resize(ws, n) == Zeros(n);
      ZerosBit(n, j);
    } else if j >= 32 {
      assert Resize(ws, n)[1..] == Resize(ws[1..], n - 1);
      ResizeKeepsBits(ws[1..], n - 1, j - 32);
    }
  }

  /** Reading n words of a register: the bits below 32 * n are the
      register's own (zero past its end), and there are no others. */
  lemma {:induction false} ResizeBitAt(ws: seq<bv32>, n: nat, j: nat)
    ensures BitAt(Resize(ws, n), j) == (j < 32 * n && BitAt(ws, j))
    decreases n
  {
    BitAtBeyond(Resize(ws, n), j);
    if n > 0 {
      if |ws| == 0 {
        assert Resize(ws, n) == Zeros(n);
        ZerosBit(n, j);
      } else if j >= 32 {
        assert Resize(ws, n)[1..] == Resize(ws[1..], n - 1);
        ResizeBitAt(ws[1..], n - 1, j - 32);
      }
    }
  }

  /** Extracting a slice into a fresh buffer and packing it back at the same
      position leaves exactly the original bits in that window. */
  lemma {:induction false} ExtractInsertRoundTrip(src: seq<bv32>, pos: nat, width: u32, dst: seq<bv32>, j: nat)
    requires pos <= j < pos + width && j < 32 * |dst|
    ensures var slice := CopyBits(src, pos, Zeros(WordsFor(width)), 0, width);
            BitAt(CopyBits(slice, 0, dst, pos, width), j) == BitAt(src, j)
  {
    var slice := CopyBits(src, pos, Zeros(WordsFor(width)), 0, width);
    CopyBitsAt(slice, 0, dst, pos, width, j);
    CopyBitsAt(src, pos, Zeros(WordsFor(width)), 0, width, j - pos);
  }
}
