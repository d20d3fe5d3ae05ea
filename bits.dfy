/** Fixed-width integers and the bit order used on the ISP lines. */
module Bits {

  /** A value that may be absent. */
  datatype Option<T> = None | Some(value: T)

  /** The source's `u8`. */
  type byte = x: int | 0 <= x < 0x100

  /** The source's `u16`. */
  type u16 = x: int | 0 <= x < 0x1_0000

  /** The source's `u32`. */
  type u32 = x: int | 0 <= x < 0x1_0000_0000

  function Pow2(n: nat): (r: nat)
    ensures r >= 1
  {
    if n == 0 then 1 else 2 * Pow2(n - 1)
  }

  /** `(x >> i) & 1`: a right shift by i halves x i times. */
  function Bit(x: nat, i: nat): bool
  {
    if i == 0 then x % 2 == 1 else Bit(x / 2, i - 1)
  }

  /** The low n bits of x, most significant first: the order in which bits go on the wire. */
  function MsbFirst(x: nat, n: nat): seq<bool>
  {
    seq(n, j requires 0 <= j < n => Bit(x, n - 1 - j))
  }

  /** What `acc = (acc << 1) | bit`, run over bits in order from acc = 0, accumulates. */
  function Assemble(bits: seq<bool>): nat
  {
    if bits == [] then 0
    else 2 * Assemble(bits[..|bits| - 1]) + (if bits[|bits| - 1] then 1 else 0)
  }

  /** Truncation of an int to `u8`, as the C assignment `u8 v = i` does (two's complement). */
  function ToU8(i: int): (r: byte)
    ensures 0 <= i < 0x100 ==> r == i
    ensures (r - i) % 0x100 == 0
  {
    i % 0x100
  }

  /** The source's `int`. */
  predicate IsInt32(x: int)
  {
    -0x8000_0000 <= x < 0x8000_0000
  }

  /** `a | b` on two 32-bit two's-complement ints. */
  function BitOr(a: int, b: int): int
    requires IsInt32(a) && IsInt32(b)
  {
    var x := ((a % 0x1_0000_0000) as bv32 | (b % 0x1_0000_0000) as bv32) as int;
    if x >= 0x8000_0000 then x - 0x1_0000_0000 else x
  }

  /** Pow2(n + 1) is twice Pow2(n). */
  lemma Pow2Split(n: nat)
    ensures Pow2(n + 1) == 2 * Pow2(n)
  {
  }

  /** Pow2 grows with its exponent. */
  lemma {:induction false} Pow2Mono(i: nat, j: nat)
    requires i <= j
    ensures Pow2(i) <= Pow2(j)
    decreases j
  {
    if i < j {
      Pow2Mono(i, j - 1);
    }
  }

  /** Shifting in n bits never exceeds n bits. */
  lemma {:induction false} AssembleBound(bits: seq<bool>)
    ensures Assemble(bits) < Pow2(|bits|)
  {
    if bits != [] {
      AssembleBound(bits[..|bits| - 1]);
    }
  }

  /** Appending one bit shifts the accumulator left and ors the bit in. */
  lemma AssembleSnoc(bits: seq<bool>, b: bool)
    ensures Assemble(bits + [b]) == 2 * Assemble(bits) + (if b then 1 else 0)
  {
    assert (bits + [b])[..|bits|] == bits;
  }

  /** The first n-1 of the n MSB-first bits of x are the MSB-first bits of x >> 1. */
  lemma MsbFirstSnoc(x: nat, n: nat)
    requires n > 0
    ensures MsbFirst(x, n) == MsbFirst(x / 2, n - 1) + [x % 2 == 1]
  {
    var a, b := MsbFirst(x, n), MsbFirst(x / 2, n - 1) + [x % 2 == 1];
    forall j | 0 <= j < n ensures a[j] == b[j] {
      if j < n - 1 {
        assert Bit(x, n - 1 - j) == Bit(x / 2, n - 2 - j);
      }
    }
  }

  /** Receiving the MSB-first bits of a value rebuilds it. */
  lemma {:induction false} AssembleMsbFirst(x: nat, n: nat)
    requires x < Pow2(n)
    ensures Assemble(MsbFirst(x, n)) == x
  {
    if n == 0 {
      assert MsbFirst(x, n) == [];
    } else {
      MsbFirstSnoc(x, n);
      AssembleMsbFirst(x / 2, n - 1);
      AssembleSnoc(MsbFirst(x / 2, n - 1), x % 2 == 1);
    }
  }

  /** Sending the value that was assembled from n bits drives the same n bits again. */
  lemma {:induction false} MsbFirstAssemble(bits: seq<bool>)
    ensures MsbFirst(Assemble(bits), |bits|) == bits
  {
    if bits != [] {
      var n := |bits|;
      var init, last := bits[..n - 1], bits[n - 1];
      assert bits == init + [last];
      MsbFirstAssemble(init);
      var x := Assemble(bits);
      AssembleSnoc(init, last);
      assert x / 2 == Assemble(init) && (x % 2 == 1) == last;
      MsbFirstSnoc(x, n);
    }
  }

  /** A byte goes on the wire as 8 bits, most significant first, and comes back unchanged. */
  lemma ByteRoundTrip(c: byte)
    ensures |MsbFirst(c, 8)| == 8
    ensures Assemble(MsbFirst(c, 8)) == c
  {
    assert Pow2(8) == 256;
    AssembleMsbFirst(c, 8);
  }

  /** Or-ing 0 changes nothing, and the error code 5 (as -5) or-ed with itself stays -5. */
  lemma BitOrZeroOrSelf(a: int, b: int)
    requires a == 0 || a == -5
    requires b == 0 || b == -5
    ensures BitOr(a, b) == (if a == 0 then b else a)
  {
    if a == 0 && b == 0 {
      assert BitOr(0, 0) == 0;
    } else if a == 0 {
      assert BitOr(0, -5) == -5;
    } else if b == 0 {
      assert BitOr(-5, 0) == -5;
    } else {
      assert BitOr(-5, -5) == -5;
    }
  }
}
