/** `address.rs`: prefixes, masks and addresses as unsigned 32-bit integers.
    The bit operations are spelled out as arithmetic on the value. */
module Address {
  import opened Wrappers

  const U32_MAX: u32 := 0xFFFF_FFFF

  function Pow2(n: nat): (r: nat)
    ensures r > 0
  {
    if n == 0 then 1 else 2 * Pow2(n - 1)
  }

  function ShiftLeft(x: u32, count: nat): u32 {
    (x * Pow2(count)) % U32_COUNT
  }

  function Not(x: u32): u32 {
    U32_MAX - x
  }

  /** Bitwise and of two values of the given width. */
  function And(x: nat, y: nat, width: nat): (r: nat)
    ensures r <= x && r <= y
  {
    if width == 0 then 0
    else (if x % 2 == 1 && y % 2 == 1 then 1 else 0) + 2 * And(x / 2, y / 2, width - 1)
  }

  function TrailingZeros(x: nat, width: nat): nat {
    if width == 0 || x % 2 == 1 then 0 else 1 + TrailingZeros(x / 2, width - 1)
  }

  function LeadingZeros(x: nat, width: nat): nat {
    if width == 0 || x >= Pow2(width - 1) then 0 else 1 + LeadingZeros(x, width - 1)
  }

  function LeadingOnes(x: u32): nat {
    LeadingZeros(Not(x), 32)
  }

  function PrefixToMask(prefix: u32): RipResult<u32> {
    if prefix > 32 then Failure(InvalidConfiguration)
    else if prefix == 0 then Success(0)
    else Success(ShiftLeft(U32_MAX, 32 - prefix))
  }

  predicate IsUnicastAddress(address: u32): (unicast: bool)
    ensures unicast <==> 0x0100_0000 <= address < 0x7F00_0000 || 0x8000_0000 <= address < 0xE000_0000
  {
    var msb := address / 0x100_0000;
    if msb == 0 then false
    else if msb == 127 then false
    else if msb >= 224 then false
    else true
  }

  predicate IsNetMaskValid(netMask: u32) {
    if netMask == 0 || netMask == U32_MAX then false
    else TrailingZeros(netMask, 32) + LeadingZeros(Not(netMask), 32) == 32
  }

  // ----- powers of two

  lemma Pow2Values()
    ensures Pow2(0) == 1
    ensures Pow2(24) == 0x100_0000
    ensures Pow2(32) == U32_COUNT
  {
    assert Pow2(8) == 0x100;
    assert Pow2(16) == 0x1_0000;
    assert Pow2(24) == 0x100_0000;
  }

  lemma {:induction false} Pow2Sum(a: nat, b: nat)
    ensures Pow2(a + b) == Pow2(a) * Pow2(b)
  {
    if a == 0 {
    } else {
      Pow2Sum(a - 1, b);
      assert Pow2(a + b) == 2 * (Pow2(a - 1) * Pow2(b));
    }
  }

  lemma {:induction false} Pow2Less(a: nat, b: nat)
    requires a < b
    ensures 2 * Pow2(a) <= Pow2(b)
  {
    if a + 1 == b {
    } else {
      Pow2Less(a, b - 1);
    }
  }

  // ----- what the bit counts mean

  lemma {:induction false} LeadingZerosMeaning(x: nat, width: nat)
    requires x < Pow2(width)
    ensures var z := LeadingZeros(x, width);
            && z <= width
            && x < Pow2(width - z)
            && (z < width ==> Pow2(width - z - 1) <= x)
  {
    if width == 0 || x >= Pow2(width - 1) {
    } else {
      LeadingZerosMeaning(x, width - 1);
    }
  }

  /** `2^k - 1` has exactly k significant bits. */
  lemma LeadingZerosOfAllOnes(k: nat, width: nat)
    requires k <= width
    ensures LeadingZeros(Pow2(k) - 1, width) == width - k
  {
    if k < width {
      Pow2Less(k, width);
    }
    LeadingZerosMeaning(Pow2(k) - 1, width);
    var z := LeadingZeros(Pow2(k) - 1, width);
    if width - z < k {
      Pow2Less(width - z, k);
    } else if k < width - z && k < width - z - 1 {
      Pow2Less(k, width - z - 1);
    }
  }

  lemma {:induction false} TrailingZerosMeaning(x: nat, width: nat) returns (q: nat)
    ensures TrailingZeros(x, width) <= width
    ensures x == q * Pow2(TrailingZeros(x, width))
    ensures TrailingZeros(x, width) < width ==> q % 2 == 1
  {
    if width == 0 || x % 2 == 1 {
      q := x;
    } else {
      q := TrailingZerosMeaning(x / 2, width - 1);
      assert x == 2 * (q * Pow2(TrailingZeros(x / 2, width - 1)));
    }
  }

  lemma {:induction false} TrailingZerosOfMultiple(q: nat, t: nat, width: nat)
    requires q % 2 == 1 && t < width
    ensures TrailingZeros(q * Pow2(t), width) == t
  {
    if t == 0 {
    } else {
      assert q * Pow2(t) == 2 * (q * Pow2(t - 1));
      TrailingZerosOfMultiple(q, t - 1, width - 1);
    }
  }

  // ----- masks

  /** The numeric value of every mask the configuration can ask for. */
  lemma MaskValue(prefix: u32)
    requires prefix <= 32
    ensures PrefixToMask(prefix) == Success(U32_COUNT - Pow2(32 - prefix))
  {
    Pow2Values();
    var k := 32 - prefix;
    if k < 32 {
      Pow2Less(k, 32);
      var h := Pow2(k);
      DivModUnique(U32_MAX * h, U32_COUNT, h - 1, U32_COUNT - h);
    }
  }

  /** `leading_ones`, used as the kernel's prefix length, inverts `prefix_to_mask`. */
  lemma LeadingOnesInvertsPrefixToMask(prefix: u32)
    requires prefix <= 32
    ensures PrefixToMask(prefix).Success? && LeadingOnes(PrefixToMask(prefix).value) == prefix
  {
    MaskValue(prefix);
    LeadingZerosOfAllOnes(32 - prefix, 32);
  }

  /** A mask passes validation exactly when it is the mask of a prefix in 1..31. */
  lemma NetMaskValidIffPrefixMask(m: u32)
    ensures IsNetMaskValid(m) <==> exists p: u32 :: 1 <= p <= 31 && PrefixToMask(p) == Success(m)
  {
    if IsNetMaskValid(m) {
      ValidMaskIsPrefixMask(m);
    }
    if p: u32 :| 1 <= p <= 31 && PrefixToMask(p) == Success(m) {
      PrefixMaskIsValid(p);
    }
  }

  lemma ValidMaskIsPrefixMask(m: u32)
    requires IsNetMaskValid(m)
    ensures 1 <= LeadingOnes(m) <= 31
    ensures PrefixToMask(LeadingOnes(m)) == Success(m)
  {
    hide TrailingZeros, LeadingZeros, LeadingOnes, PrefixToMask, Pow2;
    Pow2Values();
    var t := TrailingZeros(m, 32);
    var q := TrailingZerosMeaning(m, 32);
    LeadingZerosMeaning(Not(m), 32);
    ComplementIsOneBlock(m, q, t);
    MaskValue(32 - t);
    LeadingOnesInvertsPrefixToMask(32 - t);
  }

  /** If all bits of `m` above its trailing zeros are set then `m` is `2^32 - 2^t`. */
  lemma ComplementIsOneBlock(m: u32, q: nat, t: nat)
    requires t <= 32 && m == q * Pow2(t) && Not(m) < Pow2(t)
    ensures m == U32_COUNT - Pow2(t)
  {
    Pow2Values();
    Pow2Sum(32 - t, t);
    UnitFactor(Pow2(32 - t), q, Pow2(t));
  }

  /** The only multiple of h in the interval [1, h] is h. */
  lemma UnitFactor(a: int, b: int, h: int)
    requires h > 0 && 1 <= a * h - b * h <= h
    ensures a * h - b * h == h
  {
    if a <= b {
      MulMonotone(a, b, h);
    } else if a == b + 1 {
      assert (b + 1) * h == b * h + h;
    } else {
      assert (b + 2) * h == b * h + 2 * h;
      MulMonotone(b + 2, a, h);
    }
  }

  lemma MulMonotone(a: int, b: int, h: int)
    requires a <= b && 0 <= h
    ensures a * h <= b * h
  {
    assert b * h - a * h == (b - a) * h;
  }

  lemma PrefixMaskIsValid(p: u32)
    requires 1 <= p <= 31
    ensures PrefixToMask(p).Success? && IsNetMaskValid(PrefixToMask(p).value)
  {
    var k := 32 - p;
    MaskValue(p);
    LeadingZerosOfAllOnes(k, 32);
    assert Pow2(k) == 2 * Pow2(k - 1);
    assert Pow2(k) < U32_COUNT by {
      Pow2Values();
      Pow2Less(k, 32);
    }
    MaskTrailingZeros(p);
  }

  lemma MaskTrailingZeros(p: nat)
    requires 1 <= p <= 31
    ensures Pow2(32 - p) <= U32_COUNT && TrailingZeros(U32_COUNT - Pow2(32 - p), 32) == 32 - p
  {
    var k, q := 32 - p, Pow2(p) - 1;
    Pow2Values();
    Pow2Sum(p, k);
    Pow2Less(k, 32);
    assert (Pow2(p) - 1) * Pow2(k) == Pow2(p) * Pow2(k) - Pow2(k);
    assert Pow2(p) == 2 * Pow2(p - 1);
    TrailingZerosOfMultiple(q, k, 32);
  }

  // ----- masking an address

  lemma {:induction false} AndAllOnes(x: nat, width: nat)
    requires x < Pow2(width)
    ensures And(x, Pow2(width) - 1, width) == x
  {
    if width == 0 {
    } else {
      assert (Pow2(width) - 1) / 2 == Pow2(width - 1) - 1;
      AndAllOnes(x / 2, width - 1);
    }
  }

  /** Masking with `2^width - 2^k` clears the k low bits and keeps the others. */
  lemma {:induction false} AndMask(x: nat, k: nat, width: nat)
    requires k <= width && x < Pow2(width)
    ensures Pow2(k) <= Pow2(width)
    ensures And(x, Pow2(width) - Pow2(k), width) == x - x % Pow2(k)
  {
    hide And;
    if k < width {
      Pow2Less(k, width);
    }
    if k == 0 {
      AndAllOnes(x, width);
    } else {
      AndMask(x / 2, k - 1, width - 1);
      AndEven(x, Pow2(width - 1) - Pow2(k - 1), width);
      ModDouble(x, Pow2(k - 1));
    }
  }

  lemma AndEven(x: nat, y: nat, width: nat)
    requires width > 0
    ensures And(x, 2 * y, width) == 2 * And(x / 2, y, width - 1)
  {
    assert (2 * y) % 2 == 0 && (2 * y) / 2 == y;
  }

  lemma ModDouble(x: nat, h: nat)
    requires h > 0
    ensures x % (2 * h) == 2 * ((x / 2) % h) + x % 2
  {
    var a := (x / 2) / h;
    var b := (x / 2) % h;
    assert x / 2 == a * h + b;
    assert a * (2 * h) == 2 * (a * h);
    DivModUnique(x, 2 * h, a, 2 * b + x % 2);
  }

  lemma DivModUnique(x: nat, d: nat, q: nat, r: nat)
    requires d > 0 && r < d && x == q * d + r
    ensures x % d == r
  {
    assert x == (x / d) * d + x % d;
    if q < x / d {
      MulMonotone(q + 1, x / d, d);
    } else if q > x / d {
      MulMonotone(x / d + 1, q, d);
    }
  }
}
