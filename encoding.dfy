/**
 * The two-bit encoding of symbolic address positions, bitwise AND on bit
 * strings, and the conversions between bit strings, numbers and decimal text
 * that rendering a field needs.
 *
 * A symbolic field stores every address position as two bits:
 *   00 impossible, 01 zero, 10 one, 11 wildcard.
 * ANDing two encodings position by position computes the meet of the
 * four-valued lattice: wildcard is the identity and zero meets one in
 * impossible.
 */
module Encoding {

  /** One address position of a symbolic field. */
  datatype Trit = Impossible | Zero | One | Wildcard

  /** The two stored bits of a position, the first (more significant) bit first. */
  function Encode(t: Trit): (bs: (bool, bool))
    ensures Decode(bs.0, bs.1) == t
  {
    match t
    case Impossible => (false, false)
    case Zero => (false, true)
    case One => (true, false)
    case Wildcard => (true, true)
  }

  function Decode(hi: bool, lo: bool): Trit
  {
    if hi then (if lo then Wildcard else One) else (if lo then Zero else Impossible)
  }

  /** Meet of the lattice Impossible < Zero, One < Wildcard, defined by cases. */
  function Meet(a: Trit, b: Trit): Trit
  {
    if a == Wildcard then b
    else if b == Wildcard then a
    else if a == b then a
    else Impossible
  }

  /** ANDing the two bits of two encoded positions is their meet. */
  lemma AndIsMeet(a: Trit, b: Trit)
    ensures Decode(Encode(a).0 && Encode(b).0, Encode(a).1 && Encode(b).1) == Meet(a, b)
  {
  }

  // ---------------------------------------------------------------------
  // Bit strings

  /** Bitwise AND, as BitArray's `&` computes it for equal widths. */
  function And(a: seq<bool>, b: seq<bool>): (r: seq<bool>)
    requires |a| == |b|
    ensures |r| == |a|
    ensures forall k :: 0 <= k < |r| ==> (r[k] <==> a[k] && b[k])
  {
    seq(|a|, k requires 0 <= k < |a| => a[k] && b[k])
  }

  /** A bit string of `n` set bits: an all-wildcard field of n/2 positions. */
  function Ones(n: nat): (r: seq<bool>)
    ensures |r| == n && forall k :: 0 <= k < n ==> r[k]
  {
    seq(n, _ => true)
  }

  /** `a` is at least as narrow as `b`: every bit set in `a` is set in `b`. */
  predicate Below(a: seq<bool>, b: seq<bool>)
  {
    |a| == |b| && forall k :: 0 <= k < |a| ==> a[k] ==> b[k]
  }

  /** Reads every position of a bit string: position i is bits 2i and 2i+1. */
  function Positions(bits: seq<bool>): (ps: seq<Trit>)
    ensures |ps| == |bits| / 2
  {
    seq(|bits| / 2, i requires 0 <= i < |bits| / 2 => Decode(bits[2 * i], bits[2 * i + 1]))
  }

  /** Writes positions as a bit string, two bits per position. */
  function EncodeAll(ps: seq<Trit>): (bits: seq<bool>)
    ensures |bits| == 2 * |ps|
  {
    if ps == [] then [] else [Encode(ps[0]).0, Encode(ps[0]).1] + EncodeAll(ps[1..])
  }

  lemma {:induction false} EncodeAllAt(ps: seq<Trit>, i: nat)
    requires i < |ps|
    ensures EncodeAll(ps)[2 * i] == Encode(ps[i]).0
    ensures EncodeAll(ps)[2 * i + 1] == Encode(ps[i]).1
  {
    if i > 0 {
      EncodeAllAt(ps[1..], i - 1);
      assert EncodeAll(ps) == [Encode(ps[0]).0, Encode(ps[0]).1] + EncodeAll(ps[1..]);
    }
  }

  /** Reading back what was written gives the same positions. */
  lemma PositionsOfEncodeAll(ps: seq<Trit>)
    ensures Positions(EncodeAll(ps)) == ps
  {
    forall i | 0 <= i < |ps|
      ensures Positions(EncodeAll(ps))[i] == ps[i]
    {
      EncodeAllAt(ps, i);
    }
  }

  /** An even-length bit string is determined by its positions. */
  lemma EncodeAllOfPositions(bits: seq<bool>)
    requires |bits| % 2 == 0
    ensures EncodeAll(Positions(bits)) == bits
  {
    var ps := Positions(bits);
    forall k | 0 <= k < |bits|
      ensures EncodeAll(ps)[k] == bits[k]
    {
      EncodeAllAt(ps, k / 2);
      assert k == 2 * (k / 2) || k == 2 * (k / 2) + 1;
    }
  }

  /** Position by position, AND is the meet of the lattice. */
  lemma PositionsOfAnd(a: seq<bool>, b: seq<bool>)
    requires |a| == |b|
    ensures forall i :: 0 <= i < |a| / 2 ==>
      Positions(And(a, b))[i] == Meet(Positions(a)[i], Positions(b)[i])
  {
    forall i | 0 <= i < |a| / 2
      ensures Positions(And(a, b))[i] == Meet(Positions(a)[i], Positions(b)[i])
    {
      AndIsMeet(Positions(a)[i], Positions(b)[i]);
    }
  }

  /** An all-set bit string is all wildcard. */
  lemma PositionsOfOnes(n: nat)
    ensures Positions(Ones(2 * n)) == seq(n, _ => Wildcard)
  {
  }

  // ---------------------------------------------------------------------
  // Numbers as bit strings, most significant bit first

  function Pow2(n: nat): (p: nat)
    ensures p >= 1
  {
    if n == 0 then 1 else 2 * Pow2(n - 1)
  }

  /** The low `n` bits of `x`, most significant first. */
  function NatToBits(x: nat, n: nat): (bs: seq<bool>)
    ensures |bs| == n
  {
    if n == 0 then [] else NatToBits(x / 2, n - 1) + [x % 2 == 1]
  }

  lemma {:induction false} Pow2Add(a: nat, b: nat)
    ensures Pow2(a + b) == Pow2(a) * Pow2(b)
  {
    if a > 0 {
      Pow2Add(a - 1, b);
      Regroup(Pow2(a - 1), Pow2(b), 0, 0);
    }
  }

  /** The powers an IPv4 address is cut at. */
  lemma Pow2Values()
    ensures Pow2(0) == 1 && Pow2(8) == 256 && Pow2(16) == 65536
    ensures Pow2(24) == 16777216 && Pow2(32) == 0x1_0000_0000
  {
    assert Pow2(1) == 2;
    assert Pow2(2) == 4;
    assert Pow2(3) == 8;
    assert Pow2(4) == 16;
    assert Pow2(5) == 32;
    assert Pow2(6) == 64;
    assert Pow2(7) == 128;
    assert Pow2(8) == 256;
    Pow2Add(8, 8);
    Pow2Add(16, 8);
    Pow2Add(16, 16);
  }

  /** The number a bit string denotes, most significant bit first. */
  function BitsToNat(bs: seq<bool>): (x: nat)
    ensures x < Pow2(|bs|)
  {
    if bs == [] then 0 else 2 * BitsToNat(bs[..|bs| - 1]) + (if bs[|bs| - 1] then 1 else 0)
  }

  lemma DivMod(x: nat, d: nat)
    requires d > 0
    ensures x == (x / d) * d + x % d && x % d < d && x / d >= 0
  {
  }

  lemma MulLe(a: nat, b: nat, d: nat)
    requires a <= b
    ensures a * d <= b * d
  {
    var k := b - a;
    assert b * d == a * d + k * d;
  }

  /** `x == q * d + r` with `0 <= r < d` fixes the quotient and the remainder. */
  lemma DivModUnique(x: nat, d: nat, q: nat, r: nat)
    requires 0 <= r < d && x == q * d + r
    ensures x / d == q && x % d == r
  {
    var q', r' := x / d, x % d;
    assert x == q' * d + r';
    if q' < q {
      assert (q' + 1) * d == q' * d + d;
      MulLe(q' + 1, q, d);
    } else if q' > q {
      MulLe(q + 1, q', d);
    }
  }

  lemma Regroup(q: int, m: int, b: int, b0: int)
    ensures 2 * (q * m + b) + b0 == q * (2 * m) + (2 * b + b0)
  {
  }

  lemma Regroup3(q: int, b: int, rb: int, a: int, ra: int)
    ensures (q * b + rb) * a + ra == q * (a * b) + (rb * a + ra)
  {
  }

  /** Encoding then decoding keeps the low `n` bits. */
  lemma {:induction false} BitsToNatOfNatToBits(x: nat, n: nat)
    ensures BitsToNat(NatToBits(x, n)) == x % Pow2(n)
  {
    if n > 0 {
      var bs := NatToBits(x, n);
      assert bs[..n - 1] == NatToBits(x / 2, n - 1);
      BitsToNatOfNatToBits(x / 2, n - 1);
      var m := Pow2(n - 1);
      DivMod(x, 2);
      DivMod(x / 2, m);
      var q1, b0 := x / 2, x % 2;
      var q2: nat, b := q1 / m, q1 % m;
      assert BitsToNat(bs) == 2 * b + b0;
      var d, r := 2 * m, 2 * b + b0;
      Regroup(q2, m, b, b0);
      DivModUnique(x, d, q2, r);
    }
  }

  /** Appending bits shifts the prefix's value left by their count. */
  lemma {:induction false} BitsToNatAppend(s: seq<bool>, t: seq<bool>)
    ensures BitsToNat(s + t) == BitsToNat(s) * Pow2(|t|) + BitsToNat(t)
    decreases |t|
  {
    if t == [] {
      assert s + t == s;
    } else {
      var t' := t[..|t| - 1];
      assert (s + t)[..|s + t| - 1] == s + t';
      BitsToNatAppend(s, t');
      var l := if t[|t| - 1] then 1 else 0;
      assert BitsToNat(s + t) == 2 * BitsToNat(s + t') + l;
      assert BitsToNat(t) == 2 * BitsToNat(t') + l;
      Regroup(BitsToNat(s), Pow2(|t'|), BitsToNat(t'), l);
    }
  }

  function Zeros(n: nat): (r: seq<bool>)
    ensures |r| == n && forall k :: 0 <= k < n ==> !r[k]
  {
    seq(n, _ => false)
  }

  lemma {:induction false} BitsToNatZeros(n: nat)
    ensures BitsToNat(Zeros(n)) == 0
  {
    if n > 0 {
      assert Zeros(n)[..n - 1] == Zeros(n - 1);
      BitsToNatZeros(n - 1);
    }
  }

  lemma {:induction false} NatToBitsPrefix(x: nat, n: nat, len: nat)
    requires len <= n
    ensures NatToBits(x, n)[..len] == NatToBits(x / Pow2(n - len), len)
    decreases n
  {
    if len == n {
      assert NatToBits(x, n)[..len] == NatToBits(x, n);
    } else {
      NatToBitsPrefix(x / 2, n - 1, len);
      assert NatToBits(x, n)[..len] == NatToBits(x / 2, n - 1)[..len];
      DivDiv(x, 2, Pow2(n - 1 - len));
    }
  }

  lemma DivDiv(x: nat, a: nat, b: nat)
    requires a > 0 && b > 0
    ensures x / a / b == x / (a * b)
  {
    DivMod(x, a);
    DivMod(x / a, b);
    var q: nat, rb: nat, ra: nat := x / a / b, (x / a) % b, x % a;
    Regroup3(q, b, rb, a, ra);
    MulLe(rb, b - 1, a);
    assert (b - 1) * a == a * b - a;
    DivModUnique(x, a * b, q, rb * a + ra);
  }

  // ---------------------------------------------------------------------
  // Decimal text, as '%d' writes a natural number

  function DigitChar(d: nat): char
    requires d < 10
  {
    "0123456789"[d]
  }

  function Dec(n: nat): (s: string)
    ensures |s| >= 1
    ensures forall c :: c in s ==> c in "0123456789"
    decreases n
  {
    if n < 10 then [DigitChar(n)] else Dec(n / 10) + [DigitChar(n % 10)]
  }

  /** Reading decimal digits back, as int(s) does. */
  function DigitValue(c: char): nat
  {
    if '0' <= c <= '9' then (c - '0') as nat else 0
  }

  function ParseDec(s: string): nat
  {
    if s == [] then 0 else 10 * ParseDec(s[..|s| - 1]) + DigitValue(s[|s| - 1])
  }

  /** Decimal rendering is faithful: parsing it back gives the number. */
  lemma {:induction false} ParseDecOfDec(n: nat)
    ensures ParseDec(Dec(n)) == n
    decreases n
  {
    if n >= 10 {
      var s := Dec(n);
      assert s[..|s| - 1] == Dec(n / 10);
      ParseDecOfDec(n / 10);
    }
  }
}
