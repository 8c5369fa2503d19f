/** The colour of a name: `str2color` in src/common.rs. A 32-bit unsigned number
    is an integer whose operations wrap around explicitly. */
module NameColors {
  type Byte = i: int | 0 <= i < 256
  type U32 = i: int | 0 <= i < 0x1_0000_0000

  const WRAP: int := 0x1_0000_0000
  const RGB: int := 0x100_0000

  function WrappingAdd(a: U32, b: U32): U32 { (a + b) % WRAP }

  function WrappingSub(a: U32, b: U32): U32 { (a - b) % WRAP }

  /** The bits shifted out are lost. */
  function ShiftLeft(a: U32, places: nat): U32 { Shifted(a, places) % WRAP }

  function Shifted(a: nat, places: nat): nat {
    if places == 0 then a else 2 * Shifted(a, places - 1)
  }

  /** The lowest `k` bits. */
  function Ones(k: nat): nat {
    if k == 0 then 0 else 2 * Ones(k - 1) + 1
  }

  /** Bit by bit, lowest bit first. */
  function And(a: nat, b: nat): nat {
    if a == 0 then 0 else (if a % 2 == 1 && b % 2 == 1 then 1 else 0) + 2 * And(a / 2, b / 2)
  }

  function Or(a: nat, b: nat): nat
    decreases a + b
  {
    if a == 0 && b == 0 then 0 else (if a % 2 == 1 || b % 2 == 1 then 1 else 0) + 2 * Or(a / 2, b / 2)
  }

  // ---------------------------------------------------------------- the color

  /** The value of the bytes as a polynomial in 31, first byte highest. */
  function Polynomial(bytes: seq<Byte>): nat {
    if bytes == [] then 0 else 31 * Polynomial(bytes[..|bytes| - 1]) + bytes[|bytes| - 1]
  }

  /** The polynomial modulo 2^24 with bit 15 off, under the alpha byte. */
  function Color(bytes: seq<Byte>, alpha: Byte): int {
    var n := Polynomial(bytes) % RGB;
    alpha * RGB + n - n / 0x8000 % 2 * 0x8000
  }

  /** Main result: no wrap-around in the loop shows in the color. */
  method Str2Color(bytes: seq<Byte>, alpha: Byte) returns (color: nat)
    ensures color == Color(bytes, alpha)
    ensures color / RGB == alpha && color / 0x8000 % 2 == 0
  {
    var hash: U32 := 0;
    for i := 0 to |bytes|
      invariant hash == Polynomial(bytes[..i]) % WRAP
    {
      var code: U32 := bytes[i];
      assert bytes[..i + 1][..i] == bytes[..i];
      HashStep(hash, code, Polynomial(bytes[..i]));
      hash := WrappingAdd(code, WrappingSub(ShiftLeft(hash, 5), hash));
    }
    assert bytes[..|bytes|] == bytes;
    LowBits(Polynomial(bytes));
    hash := hash % 16777216;
    var rgb := And(hash, 0xFF7FFF);
    MaskClearsBit15(hash);
    color := Or(ShiftLeft(alpha, 24), rgb);
    AlphaOnTop(alpha, rgb);
    ColorParts(alpha, hash);
  }

  lemma HashStep(hash: U32, code: U32, p: nat)
    requires hash == p % WRAP
    ensures WrappingAdd(code, WrappingSub(ShiftLeft(hash, 5), hash)) == (31 * p + code) % WRAP
  {
    ShiftedFour(hash, 1, 2 * hash);
    var shifted := hash * 32 / WRAP;
    var less := WrappingSub(ShiftLeft(hash, 5), hash);
    assert ShiftLeft(hash, 5) == hash * 32 - shifted * WRAP;
    var borrowed := (ShiftLeft(hash, 5) - hash) / WRAP;
    assert less == 31 * hash - shifted * WRAP - borrowed * WRAP;
    var q := p / WRAP;
    assert p == q * WRAP + hash;
    SameRest(code + less, 31 * q + shifted + borrowed);
    assert code + less + (31 * q + shifted + borrowed) * WRAP == 31 * p + code;
  }

  lemma SameRest(n: int, q: int)
    ensures (n + q * WRAP) % WRAP == n % WRAP
  {
  }

  lemma LowBits(n: nat)
    ensures n % WRAP % RGB == n % RGB
  {
  }

  /** The lowest bit aside, the operations work on the halves. */
  lemma AndBit(n: nat, a: int, b: nat, p: int)
    requires 0 <= a <= 1 && 0 <= p <= 1
    ensures And(2 * n + a, 2 * b + p) == (if a == 1 && p == 1 then 1 else 0) + 2 * And(n, b)
  {
    assert (2 * n + a) / 2 == n && (2 * b + p) / 2 == b;
  }

  lemma OrBit(n: nat, r: nat, bit: int)
    requires 0 <= bit <= 1
    ensures Or(2 * n, 2 * r + bit) == bit + 2 * Or(n, r)
  {
    assert (2 * r + bit) / 2 == r;
  }

  /** A mask whose lowest `k` bits are ones keeps those bits. */
  lemma {:induction false} LowOnes(a: nat, r: nat, k: nat, high: nat)
    requires r <= Ones(k)
    ensures And(Shifted(a, k) + r, Shifted(high, k) + Ones(k)) == Shifted(And(a, high), k) + r
  {
    if k > 0 {
      LowOnes(a, r / 2, k - 1, high);
      OneMoreBit(Shifted(a, k - 1), r / 2, r % 2, Shifted(high, k - 1) + Ones(k - 1), Shifted(And(a, high), k - 1));
      assert r == 2 * (r / 2) + r % 2;
    }
  }

  lemma OneMoreBit(n: nat, half: nat, bit: int, mask: nat, kept: nat)
    requires 0 <= bit <= 1 && And(n + half, mask) == kept + half
    ensures And(2 * n + (2 * half + bit), 2 * mask + 1) == 2 * kept + (2 * half + bit)
  {
    AndBit(n + half, bit, mask, 1);
    assert 2 * (n + half) + bit == 2 * n + (2 * half + bit);
  }

  /** Shifted above the other bits, nothing overlaps. */
  lemma {:induction false} OrDisjoint(a: nat, k: nat, r: nat)
    requires r <= Ones(k)
    ensures Or(Shifted(a, k), r) == Shifted(a, k) + r
  {
    if k == 0 {
      OrZero(a);
    } else {
      OrDisjoint(a, k - 1, r / 2);
      OrBit(Shifted(a, k - 1), r / 2, r % 2);
      assert r == 2 * (r / 2) + r % 2;
    }
  }

  lemma {:induction false} OrZero(a: nat)
    ensures Or(a, 0) == a
  {
    if a > 0 { OrZero(a / 2); }
  }

  lemma ShiftedFour(a: nat, j: nat, p: nat)
    requires Shifted(a, j) == p
    ensures Shifted(a, j + 4) == 16 * p
  {
    assert Shifted(a, j + 1) == 2 * p;
    assert Shifted(a, j + 2) == 4 * p;
    assert Shifted(a, j + 3) == 8 * p;
  }

  lemma ShiftedPlaces(a: nat)
    ensures Shifted(a, 8) == 256 * a && Shifted(a, 15) == 0x8000 * a && Shifted(a, 24) == RGB * a
  {
    ShiftedFour(a, 0, a);
    ShiftedFour(a, 4, 16 * a);
    ShiftedFour(a, 8, 256 * a);
    ShiftedFour(a, 12, 4096 * a);
    ShiftedFour(a, 16, 0x1_0000 * a);
    ShiftedFour(a, 20, 0x10_0000 * a);
    assert Shifted(a, 16) == 2 * Shifted(a, 15);
  }

  lemma {:induction false} OnesBelowShifted(k: nat)
    ensures Ones(k) == Shifted(1, k) - 1
  {
    if k > 0 { OnesBelowShifted(k - 1); }
  }

  lemma MaskClearsBit15(n: nat)
    requires n < RGB
    ensures And(n, 0xFF7FFF) == n - n / 0x8000 % 2 * 0x8000
  {
    MaskOfParts(n / 0x8000, n % 0x8000);
  }

  lemma MaskOfParts(top: nat, low: nat)
    requires top < 512 && low < 0x8000
    ensures And(0x8000 * top + low, 0xFF7FFF) == 0x8000 * (top - top % 2) + low
  {
    MaskedTop(top);
    ShiftedPlaces(top);
    ShiftedPlaces(0x1FE);
    ShiftedPlaces(top - top % 2);
    OnesValues();
    Masked(top, low, 15, 0x1FE, 0x8000 * top, 0x8000 * 0x1FE, 0x7FFF, 0x8000 * (top - top % 2));
  }

  /** `LowOnes` for numbers whose shifts are known. */
  lemma Masked(a: nat, r: nat, k: nat, high: nat, shiftedA: nat, shiftedHigh: nat, ones: nat, kept: nat)
    requires Shifted(a, k) == shiftedA && Shifted(high, k) == shiftedHigh && Ones(k) == ones
    requires Shifted(And(a, high), k) == kept && r <= ones
    ensures And(shiftedA + r, shiftedHigh + ones) == kept + r
  {
    LowOnes(a, r, k, high);
  }

  lemma OnesValues()
    ensures Ones(8) == 0xFF && Ones(15) == 0x7FFF && Ones(24) == RGB - 1
  {
    ShiftedPlaces(1);
    OnesBelowShifted(8);
    OnesBelowShifted(15);
    OnesBelowShifted(24);
  }

  lemma MaskedTop(top: nat)
    requires top < 512
    ensures And(top, 0x1FE) == top - top % 2
  {
    AndBit(top / 2, top % 2, 0xFF, 0);
    ByteMask(top / 2);
  }

  lemma ByteMask(n: nat)
    requires n < 256
    ensures And(n, 0xFF) == n
  {
    ShiftedPlaces(0);
    OnesValues();
    Masked(0, n, 8, 0, 0, 0, 0xFF, 0);
  }

  lemma AlphaOnTop(alpha: Byte, rgb: nat)
    requires rgb < RGB
    ensures Or(ShiftLeft(alpha, 24), rgb) == alpha * RGB + rgb
  {
    AlphaShifted(alpha);
    OnesValues();
    OnTop(alpha, 24, rgb, alpha * RGB);
  }

  lemma AlphaShifted(alpha: Byte)
    ensures Shifted(alpha, 24) == alpha * RGB == ShiftLeft(alpha, 24)
  {
    ShiftedPlaces(alpha);
    Fits(alpha * RGB);
  }

  lemma Fits(n: int)
    requires 0 <= n < WRAP
    ensures n % WRAP == n
  {
  }

  /** `OrDisjoint` for a number whose shift is known. */
  lemma OnTop(a: nat, k: nat, r: nat, shifted: nat)
    requires Shifted(a, k) == shifted && r <= Ones(k)
    ensures Or(shifted, r) == shifted + r
  {
    OrDisjoint(a, k, r);
  }

  lemma ColorParts(alpha: Byte, hash: nat)
    requires hash < RGB
    ensures var color := alpha * RGB + hash - hash / 0x8000 % 2 * 0x8000;
            color / RGB == alpha && color / 0x8000 % 2 == 0
  {
    var rest := hash - hash / 0x8000 % 2 * 0x8000;
    BitOff(hash);
    UnderAlpha(alpha, rest);
  }

  lemma BitOff(hash: nat)
    requires hash < RGB
    ensures var rest := hash - hash / 0x8000 % 2 * 0x8000; 0 <= rest < RGB && rest / 0x8000 % 2 == 0
  {
  }

  lemma UnderAlpha(alpha: Byte, rest: nat)
    requires rest < RGB
    ensures (alpha * RGB + rest) / RGB == alpha && (alpha * RGB + rest) / 0x8000 % 2 == rest / 0x8000 % 2
  {
    assert (alpha * RGB + rest) / 0x8000 == alpha * 512 + rest / 0x8000;
  }

  // ---------------------------------------------------------------- the polynomial

  function Pow31(n: nat): nat { if n == 0 then 1 else 31 * Pow31(n - 1) }

  /** Byte `i` of `n` bytes counts 31 to the power `n - 1 - i`. */
  function WeightedSum(bytes: seq<Byte>, from: nat): nat
    requires from <= |bytes|
    decreases |bytes| - from
  {
    if from == |bytes| then 0 else bytes[from] * Pow31(|bytes| - 1 - from) + WeightedSum(bytes, from + 1)
  }

  lemma {:induction false} PolynomialIsSum(bytes: seq<Byte>)
    ensures Polynomial(bytes) == WeightedSum(bytes, 0)
  {
    if bytes != [] {
      PolynomialIsSum(bytes[..|bytes| - 1]);
      LongerSum(bytes, 0);
    }
  }

  lemma {:induction false} LongerSum(bytes: seq<Byte>, from: nat)
    requires from < |bytes|
    ensures WeightedSum(bytes, from) == 31 * WeightedSum(bytes[..|bytes| - 1], from) + bytes[|bytes| - 1]
    decreases |bytes| - from
  {
    var n := |bytes| - 1;
    if from == n {
      assert Pow31(0) == 1;
    } else {
      LongerSum(bytes, from + 1);
      assert bytes[from] * Pow31(n - from) == 31 * (bytes[from] * Pow31(n - 1 - from));
    }
  }
}
