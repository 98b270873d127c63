// The FNV-1a fold over 64-bit states: every byte string acts on states as a
// bijection, and no two byte strings of the same length up to four act alike.

module Fnv1a {
  import opened Decimals
  import opened Utf8

  const TWO64: nat := 0x1_0000_0000_0000_0000
  type U64 = n: nat | n < 0x1_0000_0000_0000_0000

  const OFFSET: U64 := 0xcbf2_9ce4_8422_2325
  const PRIME: nat := 0x0000_0100_0000_01b3
  // The inverse of the prime modulo 2^64.
  const INVERSE: nat := 0xce96_5057_aff6_957b

  // ---- One byte ----

  function Pow2(n: nat): (p: nat)
    ensures p > 0
  {
    if n == 0 then 1 else 2 * Pow2(n - 1)
  }

  // Exclusive or of the lowest `n` bits.
  function XorBits(a: nat, b: nat, n: nat): (r: nat)
    ensures r < Pow2(n)
  {
    if n == 0 then 0 else 2 * XorBits(a / 2, b / 2, n - 1) + (if a % 2 == b % 2 then 0 else 1)
  }

  lemma {:induction false} XorBitsTwice(a: nat, b: nat, n: nat)
    requires a < Pow2(n)
    ensures XorBits(XorBits(a, b, n), b, n) == a
  {
    if n > 0 {
      XorBitsTwice(a / 2, b / 2, n - 1);
      var r := XorBits(a, b, n);
      assert r / 2 == XorBits(a / 2, b / 2, n - 1);
      assert r % 2 == if a % 2 == b % 2 then 0 else 1;
      assert XorBits(r, b, n) == 2 * (a / 2) + a % 2;
    }
  }

  lemma {:induction false} XorBitsSymmetric(a: nat, b: nat, n: nat)
    ensures XorBits(a, b, n) == XorBits(b, a, n)
  {
    if n > 0 { XorBitsSymmetric(a / 2, b / 2, n - 1); }
  }

  function Bit(n: nat, i: nat): nat { n / Pow2(i) % 2 }

  lemma HalfOfQuotient(n: nat, d: nat)
    requires d > 0
    ensures n / (2 * d) == n / 2 / d
  {
    var q := n / (2 * d);
    var r := n - 2 * d * q;
    assert 0 <= r < 2 * d;
    assert n / 2 == d * q + r / 2 && 0 <= r / 2 < d;
    QuotientOf(n / 2, d, q, r / 2);
  }

  lemma QuotientOf(n: nat, d: nat, q: nat, r: nat)
    requires n == d * q + r && r < d
    ensures n / d == q
  {
    var k := n / d - q;
    assert d * k == r - n % d;
    assert k >= 1 ==> d * k >= d;
    assert k <= -1 ==> d * k + d <= 0;
  }

  lemma NextBit(n: nat, i: nat)
    requires i > 0
    ensures Bit(n, i) == Bit(n / 2, i - 1)
  {
    HalfOfQuotient(n, Pow2(i - 1));
  }

  // A bit of the result is set exactly when that bit of the two differs.
  lemma {:induction false} XorBitsExactly(a: nat, b: nat, n: nat, i: nat)
    requires i < n
    ensures Bit(XorBits(a, b, n), i) == if Bit(a, i) == Bit(b, i) then 0 else 1
  {
    var r := XorBits(a, b, n);
    if i == 0 {
      assert Pow2(0) == 1;
    } else {
      NextBit(a, i);
      NextBit(b, i);
      NextBit(r, i);
      assert r / 2 == XorBits(a / 2, b / 2, n - 1);
      XorBitsExactly(a / 2, b / 2, n - 1, i - 1);
    }
  }

  lemma Pow2Of8()
    ensures Pow2(8) == 256
  {
    assert Pow2(4) == 16;
  }

  // A byte reaches only the low byte of the state.
  function Xor(state: U64, b: Byte): (r: U64)
    ensures r / 256 == state / 256
  {
    Pow2Of8();
    state / 256 * 256 + XorBits(state % 256, b, 8)
  }

  // Exclusive or of the state with a byte, bit by bit.
  lemma XorExactly(state: U64, b: Byte, i: nat)
    requires i < 8
    ensures Bit(Xor(state, b) % 256, i) == if Bit(state % 256, i) == Bit(b, i) then 0 else 1
    ensures Xor(state, b) / 256 == state / 256
  {
    Pow2Of8();
    XorBitsExactly(state % 256, b, 8, i);
    assert Xor(state, b) % 256 == XorBits(state % 256, b, 8);
  }

  function Mul(state: U64): U64 { state * PRIME % TWO64 }

  function Unmul(state: U64): U64 { state * INVERSE % TWO64 }

  function Step(state: U64, b: Byte): U64 { Mul(Xor(state, b)) }

  function Unstep(state: U64, b: Byte): U64 { Xor(Unmul(state), b) }

  lemma XorTwice(state: U64, b: Byte)
    ensures Xor(Xor(state, b), b) == state
  {
    Pow2Of8();
    XorBitsTwice(state % 256, b, 8);
    assert Xor(state, b) % 256 == XorBits(state % 256, b, 8);
  }

  lemma XorTellsBytes(state: U64, x: Byte, y: Byte)
    requires Xor(state, x) == Xor(state, y)
    ensures x == y
  {
    Pow2Of8();
    var low := state % 256;
    XorBitsSymmetric(low, x, 8);
    XorBitsSymmetric(low, y, 8);
    XorBitsTwice(x, low, 8);
    XorBitsTwice(y, low, 8);
  }

  lemma MulUnmul(state: U64)
    ensures Unmul(Mul(state)) == state && Mul(Unmul(state)) == state
  {
    // The prime times its inverse, divided by 2^64.
    var k := 887285111055;
    var p, q := state * PRIME / TWO64, state * INVERSE / TWO64;
    assert Mul(state) == state * PRIME - p * TWO64 && Unmul(state) == state * INVERSE - q * TWO64;
    RemainderOf(Mul(state) * INVERSE, k * state - p * INVERSE, state);
    RemainderOf(Unmul(state) * PRIME, k * state - q * PRIME, state);
  }

  lemma RemainderOf(x: nat, q: int, r: U64)
    requires x == r + TWO64 * q
    ensures x % TWO64 == r
  {}

  // ---- A byte string ----

  function Fold(state: U64, bytes: seq<Byte>): U64
    decreases |bytes|
  {
    if bytes == [] then state else Fold(Step(state, bytes[0]), bytes[1..])
  }

  function Unfold(state: U64, bytes: seq<Byte>): U64 {
    if bytes == [] then state else Unstep(Unfold(state, bytes[1..]), bytes[0])
  }

  lemma StepUnstep(state: U64, b: Byte)
    ensures Unstep(Step(state, b), b) == state && Step(Unstep(state, b), b) == state
  {
    MulUnmul(Xor(state, b));
    MulUnmul(state);
    XorTwice(state, b);
    XorTwice(Unmul(state), b);
  }

  // Folding a fixed byte string is a bijection of the 64-bit states.
  lemma {:induction false} FoldIsABijection(state: U64, bytes: seq<Byte>)
    ensures Unfold(Fold(state, bytes), bytes) == state
    ensures Fold(Unfold(state, bytes), bytes) == state
    decreases |bytes|
  {
    if bytes != [] {
      FoldIsABijection(Step(state, bytes[0]), bytes[1..]);
      FoldIsABijection(state, bytes[1..]);
      StepUnstep(state, bytes[0]);
      StepUnstep(Unfold(state, bytes[1..]), bytes[0]);
    }
  }

  lemma {:induction false} FoldAppends(state: U64, a: seq<Byte>, b: seq<Byte>)
    ensures Fold(state, a + b) == Fold(Fold(state, a), b)
    decreases |a|
  {
    if a == [] {
      assert a + b == b;
    } else {
      assert (a + b)[1..] == a[1..] + b;
      FoldAppends(Step(state, a[0]), a[1..], b);
    }
  }

  // Whatever comes before and after, an edit shows in the state exactly when the
  // edited part alone leads somewhere else.
  lemma EditShowsExactly(state: U64, before: seq<Byte>, was: seq<Byte>, now: seq<Byte>, after: seq<Byte>)
    ensures Fold(state, before + was + after) == Fold(state, before + now + after)
      <==> Fold(Fold(state, before), was) == Fold(Fold(state, before), now)
  {
    hide Fold, Unfold;
    FoldAppends(state, before + was, after);
    FoldAppends(state, before + now, after);
    FoldAppends(state, before, was);
    FoldAppends(state, before, now);
    FoldIsABijection(Fold(state, before + was), after);
    FoldIsABijection(Fold(state, before + now), after);
  }

  // ---- Edits of up to four bytes ----

  lemma MulDifference(a: U64, b: U64) returns (k: int)
    ensures Mul(a) - Mul(b) == (a - b) * PRIME + k * TWO64
  {
    k := b * PRIME / TWO64 - a * PRIME / TWO64;
  }

  // Three perturbations smaller than two bytes cannot cancel out modulo 2^64: with
  // the prime at 2^40 + 435, the sum would have to vanish both above and below 2^40.
  lemma NoCancelling(d: int, e: int, f: int, k: int)
    requires -510 <= d <= 510 && -510 <= e <= 510 && -510 <= f <= 510
    requires -256 < d * PRIME * PRIME * PRIME + e * PRIME * PRIME + f * PRIME + k * TWO64 < 256
    ensures d == 0 && e == 0 && f == 0
  {
    var high := 567675 * d + 870 * e + f;
    var low := 435 * (189225 * d + 435 * e + f);
    var wraps := k + 0x100_0000_0519_0000 * d + 0x1_0000 * e;
    assert d * PRIME * PRIME * PRIME + e * PRIME * PRIME + f * PRIME + k * TWO64
        == high * 0x100_0000_0000 + low + wraps * TWO64;
    assert high + wraps * 0x100_0000 == 0;
    assert wraps == 0 && high == 0 && low == 0;
  }

  lemma MulTellsStates(a: U64, b: U64)
    requires Mul(a) == Mul(b)
    ensures a == b
  {
    MulUnmul(a);
    MulUnmul(b);
  }

  lemma XorStaysClose(s: U64, t: U64, x: Byte, y: Byte)
    ensures -510 <= (Xor(s, x) - Xor(t, y)) - (s - t) <= 510
    ensures Xor(s, x) == Xor(t, y) ==> -256 < s - t < 256
  {}

  // Differences scaled three times, perturbed in between, end up apart unless every
  // one of them was zero.
  lemma ScaledApart(v1: U64, w1: U64, v2: U64, w2: U64, v3: U64, w3: U64)
    requires -510 <= v1 - w1 <= 510
    requires -510 <= (v2 - w2) - (Mul(v1) - Mul(w1)) <= 510
    requires -510 <= (v3 - w3) - (Mul(v2) - Mul(w2)) <= 510
    requires -256 < Mul(v3) - Mul(w3) < 256
    ensures v1 == w1 && v2 == w2 && v3 == w3
  {
    hide Mul;
    var k1 := MulDifference(v1, w1);
    var k2 := MulDifference(v2, w2);
    var k3 := MulDifference(v3, w3);
    var d, e, f := v1 - w1, (v2 - w2) - (Mul(v1) - Mul(w1)), (v3 - w3) - (Mul(v2) - Mul(w2));
    NoCancelling(d, e, f, (k1 * PRIME + k2) * PRIME + k3);
  }

  // Two strings of four bytes leading from one state to one state are the same.
  lemma FourBytesTold(state: U64, x: seq<Byte>, y: seq<Byte>)
    requires |x| == |y| == 4 && Fold(state, x) == Fold(state, y)
    ensures x == y
  {
    hide Mul, Xor, Fold;
    var v1, w1 := Xor(state, x[0]), Xor(state, y[0]);
    var v2, w2 := Xor(Mul(v1), x[1]), Xor(Mul(w1), y[1]);
    var v3, w3 := Xor(Mul(v2), x[2]), Xor(Mul(w2), y[2]);
    FoldOfFour(state, x);
    FoldOfFour(state, y);
    MulTellsStates(Xor(Mul(v3), x[3]), Xor(Mul(w3), y[3]));
    XorStaysClose(state, state, x[0], y[0]);
    XorStaysClose(Mul(v1), Mul(w1), x[1], y[1]);
    XorStaysClose(Mul(v2), Mul(w2), x[2], y[2]);
    XorStaysClose(Mul(v3), Mul(w3), x[3], y[3]);
    ScaledApart(v1, w1, v2, w2, v3, w3);
    XorTellsBytes(state, x[0], y[0]);
    XorTellsBytes(Mul(v1), x[1], y[1]);
    XorTellsBytes(Mul(v2), x[2], y[2]);
    XorTellsBytes(Mul(v3), x[3], y[3]);
  }

  lemma FoldOfFour(state: U64, x: seq<Byte>)
    requires |x| == 4
    ensures Fold(state, x) == Mul(Xor(Mul(Xor(Mul(Xor(Mul(Xor(state, x[0])), x[1])), x[2])), x[3]))
  {
    hide Mul, Xor;
    assert x[1..][1..] == x[2..] && x[2..][1..] == x[3..] && x[3..][1..] == [];
    var a := Step(state, x[0]);
    var b := Step(a, x[1]);
    var c := Step(b, x[2]);
    assert Fold(state, x) == Fold(a, x[1..]) == Fold(b, x[2..]) == Fold(c, x[3..]) == Fold(Step(c, x[3]), []);
  }

  // The same for any length up to four.
  lemma UpToFourBytesTold(state: U64, x: seq<Byte>, y: seq<Byte>)
    requires |x| == |y| <= 4 && Fold(state, x) == Fold(state, y)
    ensures x == y
  {
    var pad := seq(4 - |x|, _ => 0);
    FoldAppends(state, x, pad);
    FoldAppends(state, y, pad);
    FourBytesTold(state, x + pad, y + pad);
    assert x == (x + pad)[..|x|] && y == (y + pad)[..|x|];
  }

  // All differences between two strings of one length lie within four bytes.
  ghost predicate EditedAt(a: seq<Byte>, b: seq<Byte>, at: nat) {
    |a| == |b| && forall k :: 0 <= k < |a| && a[k] != b[k] ==> at <= k < at + 4
  }

  // Such an edit always changes the state, wherever it is made.
  lemma LocalEditChangesState(state: U64, a: seq<Byte>, b: seq<Byte>, at: nat)
    requires EditedAt(a, b, at) && a != b
    ensures Fold(state, a) != Fold(state, b)
  {
    hide Fold;
    var end := if at + 4 <= |a| then at + 4 else |a|;
    assert a == a[..at] + a[at..end] + a[end..];
    assert b == a[..at] + b[at..end] + a[end..];
    EditShowsExactly(state, a[..at], a[at..end], b[at..end], a[end..]);
    if Fold(Fold(state, a[..at]), a[at..end]) == Fold(Fold(state, a[..at]), b[at..end]) {
      UpToFourBytesTold(Fold(state, a[..at]), a[at..end], b[at..end]);
    }
  }

  // ---- Published values ----

  // The digests of the empty string and of one letter, as FNV-1a is published.
  lemma KnownDigests()
    ensures Fold(OFFSET, []) == 0xcbf29ce484222325
    ensures Fold(OFFSET, [0x61]) == 0xaf63dc4c8601ec8c
  {
    hide XorBits, Pow2;
    LowBits();
    assert OFFSET % 256 == 0x25 && OFFSET / 256 * 256 == 0xcbf29ce484222300;
    assert Xor(OFFSET, 0x61) == 0xcbf29ce484222344;
    MulKnown();
    OneByte(OFFSET, 0x61);
  }

  lemma MulKnown()
    ensures Mul(0xcbf29ce484222344) == 0xaf63dc4c8601ec8c
  {}

  lemma OneByte(state: U64, b: Byte)
    ensures Fold(state, [b]) == Mul(Xor(state, b))
  {
    hide Mul, Xor;
    assert [b][1..] == [];
  }

  lemma LowBits()
    ensures XorBits(0x25, 0x61, 8) == 0x44
  {
    assert XorBits(0, 0, 1) == 0;
    assert XorBits(1, 3, 3) == 2;
    assert XorBits(4, 12, 5) == 8;
  }

  // ---- Rendering ----

  function HexDigit(d: nat): (c: char)
    requires d < 16
  {
    if d < 10 then Digit(d) else 'a' + (d - 10) as char
  }

  function HexValue(c: char): nat {
    if IsDigit(c) then (c - '0') as nat else if 'a' <= c <= 'f' then (c - 'a') as nat + 10 else 0
  }

  // The lowest `width` hexadecimal digits, most significant first.
  function HexDigits(n: nat, width: nat): (s: string)
    ensures |s| == width
  {
    if width == 0 then "" else HexDigits(n / 16, width - 1) + [HexDigit(n % 16)]
  }

  function HexSpelled(s: string): nat {
    if s == "" then 0 else 16 * HexSpelled(s[..|s| - 1]) + HexValue(s[|s| - 1])
  }

  function Pow16(n: nat): nat { if n == 0 then 1 else 16 * Pow16(n - 1) }

  lemma {:induction false} HexDigitsSpell(n: nat, width: nat)
    requires n < Pow16(width)
    ensures HexSpelled(HexDigits(n, width)) == n
  {
    if width > 0 {
      HexDigitsSpell(n / 16, width - 1);
      assert HexDigits(n, width)[..width - 1] == HexDigits(n / 16, width - 1);
      assert HexValue(HexDigit(n % 16)) == n % 16;
    }
  }

  function Hex(state: U64): string { HexDigits(state, 16) }

  // Sixteen digits tell every two states apart.
  lemma HexTellsStates(a: U64, b: U64)
    requires Hex(a) == Hex(b)
    ensures a == b
  {
    assert Pow16(4) == 0x1_0000;
    assert Pow16(8) == 0x1_0000_0000;
    assert Pow16(12) == 0x1_0000_0000_0000;
    assert Pow16(16) == TWO64;
    HexDigitsSpell(a, 16);
    HexDigitsSpell(b, 16);
  }

  // ---- The fold as the program keeps it ----

  const FIELD_END: Byte := 0x1e
  const NAME_END: Byte := 0x1f

  function Framed(name: seq<Byte>, value: seq<Byte>): seq<Byte> {
    name + [NAME_END] + value + [FIELD_END]
  }

  class Fnv {
    var state: U64

    constructor ()
      ensures state == OFFSET
    {
      state := OFFSET;
    }

    method Write(bytes: seq<Byte>)
      modifies this
      ensures state == Fold(old(state), bytes)
    {
      hide Mul, Xor;
      var i := 0;
      while i < |bytes|
        invariant i <= |bytes| && Fold(state, bytes[i..]) == Fold(old(state), bytes)
      {
        assert bytes[i..][0] == bytes[i] && bytes[i..][1..] == bytes[i + 1..];
        state := Xor(state, bytes[i]);
        state := Mul(state);
        i := i + 1;
      }
    }

    method Field(name: seq<Byte>, value: seq<Byte>)
      modifies this
      ensures state == Fold(old(state), Framed(name, value))
    {
      hide Fold;
      ghost var start := state;
      Write(name);
      Write([NAME_END]);
      FoldAppends(start, name, [NAME_END]);
      Write(value);
      FoldAppends(start, name + [NAME_END], value);
      Write([FIELD_END]);
      FoldAppends(start, name + [NAME_END] + value, [FIELD_END]);
    }
  }
}
