/** Ids in base 57: 128-bit digests written with 22 letters and digits. */
module Base57 {

  const NUMERALS: string := "23456789"
  const CAPITALS: string := "ABCDEFGHJKLMNPQRSTUVWXYZ"
  const SMALL: string := "abcdefghijkmnopqrstuvwxyz"

  /** The characters that stand for digits: no 0, 1, I, O or l. */
  predicate IsDigit57(c: char) {
    '2' <= c <= '9' || ('A' <= c <= 'Z' && c != 'I' && c != 'O') || ('a' <= c <= 'z' && c != 'l')
  }

  predicate AllDigits(s: string) {
    forall i :: 0 <= i < |s| ==> IsDigit57(s[i])
  }

  /** The value of a digit. */
  function ValueOf(c: char): nat
    requires IsDigit57(c)
  {
    if c <= '9' then c as nat - '2' as nat
    else if c <= 'H' then 8 + (c as nat - 'A' as nat)
    else if c <= 'N' then 16 + (c as nat - 'J' as nat)
    else if c <= 'Z' then 21 + (c as nat - 'P' as nat)
    else if c <= 'k' then 32 + (c as nat - 'a' as nat)
    else 43 + (c as nat - 'm' as nat)
  }

  function Numeral(d: nat): (c: char)
    requires d < 8
    ensures IsDigit57(c) && ValueOf(c) == d
  {
    NUMERALS[d]
  }

  function Capital(d: nat): (c: char)
    requires d < 24
    ensures IsDigit57(c) && ValueOf(c) == 8 + d
  {
    CAPITALS[d]
  }

  function SmallLetter(d: nat): (c: char)
    requires d < 25
    ensures IsDigit57(c) && ValueOf(c) == 32 + d
  {
    SMALL[d]
  }

  /** The character at a position of the alphabet: eight numerals, 24 capitals and 25 small letters, in this order. */
  function Letter(d: nat): (c: char)
    requires d < 57
    ensures IsDigit57(c) && ValueOf(c) == d
  {
    if d < 8 then Numeral(d) else if d < 32 then Capital(d - 8) else SmallLetter(d - 32)
  }

  /** The digits in order: 2 to 9, then the capital letters without I and O, then the small letters without l. */
  lemma DigitsInOrder(d: nat)
    requires d < 57
    ensures Letter(d) as int ==
            if d < 8 then '2' as int + d
            else if d < 16 then 'A' as int + (d - 8)
            else if d < 21 then 'J' as int + (d - 16)
            else if d < 32 then 'P' as int + (d - 21)
            else if d < 43 then 'a' as int + (d - 32)
            else 'm' as int + (d - 43)
  {
    var c := Letter(d);
    assert IsDigit57(c) && ValueOf(c) == d;
  }

  function Decode(s: string): nat
    requires AllDigits(s)
  {
    if s == "" then 0
    else
      assert IsDigit57(s[|s| - 1]);
      57 * Decode(s[..|s| - 1]) + ValueOf(s[|s| - 1])
  }

  /** The digits of n, most significant first; none for zero. */
  function Digits(n: nat): (s: string)
    ensures AllDigits(s)
    ensures n > 0 ==> s != ""
  {
    if n == 0 then "" else Digits(n / 57) + [Letter(n % 57)]
  }

  /** The number in base 57, zero included. */
  function ToText(n: nat): (s: string)
    ensures AllDigits(s) && s != ""
  {
    if n == 0 then [Letter(0)] else Digits(n)
  }

  function Reversed(s: string): string {
    if s == "" then "" else Reversed(s[1..]) + [s[0]]
  }

  /** `to_base57`: repeated division, least significant digit first, then reversed. */
  method ToBase57(n: nat) returns (s: string)
    ensures s == ToText(n)
  {
    if n == 0 { return [Letter(0)]; }
    var m := n;
    var out := "";
    while m > 0
      invariant Digits(m) + Reversed(out) == Digits(n)
    {
      var rem := m % 57;
      m := m / 57;
      ReversedAppend(out, Letter(rem));
      assert Digits(m) + [Letter(rem)] + Reversed(out) == Digits(m) + ([Letter(rem)] + Reversed(out));
      out := out + [Letter(rem)];
    }
    s := Reversed(out);
    assert "" + s == s;
  }

  lemma {:induction false} ReversedAppend(s: string, c: char)
    ensures Reversed(s + [c]) == [c] + Reversed(s)
  {
    if s == "" {
      assert s + [c] == [c];
    } else {
      assert (s + [c])[1..] == s[1..] + [c];
      ReversedAppend(s[1..], c);
    }
  }

  const WIDTH: nat := 22

  function Repeat(c: char, n: nat): string {
    seq(n, _ => c)
  }

  /** An id of a digest: so many characters that stand for the digest, or for its remainder when it is too large for them. */
  predicate IsId(id: string, digest: nat, width: nat) {
    |id| == width && AllDigits(id) && Decode(id) == digest % Pow57(width)
  }

  /** `base57_id_hash` for the integer value of a digest: cut to the last 22 characters, or padded to 22. */
  method Base57Id(digest: nat) returns (id: string)
    ensures IsId(id, digest, WIDTH)
  {
    var s := ToBase57(digest);
    if |s| > WIDTH {
      id := s[|s| - WIDTH..];
      CutIsId(digest, WIDTH);
    } else {
      id := Repeat(Letter(0), WIDTH - |s|) + s;
      PaddedIsId(digest, WIDTH);
    }
  }

  // ----- decoding ------------------------------------------------------------------------------------------------

  lemma {:induction false} DecodeDigits(n: nat)
    ensures Decode(Digits(n)) == n
  {
    if n > 0 {
      DecodeDigits(n / 57);
      assert Digits(n)[..|Digits(n)| - 1] == Digits(n / 57);
    }
  }

  /** Decoding gives back every number that to_base57 writes, zero included. */
  lemma RoundTrip(n: nat)
    ensures Decode(ToText(n)) == n
  {
    DecodeDigits(n);
    assert [Letter(0)][..0] == "";
  }

  // ----- the length of an id ---------------------------------------------------------------------------------------

  function Pow57(k: nat): (p: nat)
    ensures p > 0
  {
    if k == 0 then 1 else 57 * Pow57(k - 1)
  }

  lemma {:induction false} DigitsBound(n: nat, k: nat)
    requires n < Pow57(k)
    ensures |Digits(n)| <= k
    decreases k
  {
    if n > 0 {
      assert n / 57 < Pow57(k - 1);
      DigitsBound(n / 57, k - 1);
    }
  }

  const DIGESTS: nat := 0x1_00000000_00000000_00000000_00000000

  lemma PowTwice(k: nat)
    ensures Pow57(k + 2) == 3249 * Pow57(k)
  {
    assert Pow57(k + 2) == 57 * Pow57(k + 1) == 57 * (57 * Pow57(k));
  }

  /** 57 to the 22nd exceeds 2 to the 128th. */
  lemma DigestFits()
    ensures Pow57(22) > DIGESTS
  {
    PowTwice(20); PowTwice(18); PowTwice(16); PowTwice(14); PowTwice(12); PowTwice(10);
    PowTwice(8); PowTwice(6); PowTwice(4); PowTwice(2); PowTwice(0);
    assert Pow57(0) == 1;
  }

  /** Leading zero digits do not change the number. */
  lemma {:induction false} DecodePadded(zero: char, k: nat, s: string)
    requires AllDigits(s) && IsDigit57(zero) && ValueOf(zero) == 0
    ensures AllDigits(Repeat(zero, k) + s) && Decode(Repeat(zero, k) + s) == Decode(s)
    decreases |s|
  {
    var padded := Repeat(zero, k) + s;
    if s != "" {
      var n := |s| - 1;
      assert padded[..|padded| - 1] == Repeat(zero, k) + s[..n];
      DecodePadded(zero, k, s[..n]);
    } else {
      assert padded == Repeat(zero, k);
      DecodeZeros(zero, k);
    }
  }

  lemma {:induction false} DecodeZeros(zero: char, k: nat)
    requires IsDigit57(zero) && ValueOf(zero) == 0
    ensures AllDigits(Repeat(zero, k)) && Decode(Repeat(zero, k)) == 0
  {
    if k > 0 {
      assert Repeat(zero, k)[..k - 1] == Repeat(zero, k - 1);
      DecodeZeros(zero, k - 1);
    }
  }

  // ----- what an id tells ---------------------------------------------------------------------------------------------

  lemma {:induction false} DecodeBound(s: string)
    requires AllDigits(s)
    ensures Decode(s) < Pow57(|s|)
  {
    if s != "" {
      var n := |s| - 1;
      assert IsDigit57(s[n]) && ValueOf(s[n]) < 57;
      DecodeBound(s[..n]);
      LastDigitBound(Decode(s[..n]), ValueOf(s[n]), Pow57(n));
    }
  }

  lemma LastDigitBound(q: nat, v: nat, p: nat)
    requires q < p && v < 57
    ensures 57 * q + v < 57 * p
  {
  }

  lemma SmallMod(x: nat, m: nat)
    requires x < m
    ensures x % m == x
  {
  }

  lemma AtLeast(m: nat, k: nat)
    requires k >= 1
    ensures m * k >= m
  {
  }

  lemma DivUnique(x: nat, m: nat, a: nat, r: nat)
    requires x == m * a + r && r < m
    ensures x % m == r
  {
    var q, t := x / m, x % m;
    assert x == m * q + t && t < m;
    assert m * (q - a) == r - t;
    if q > a {
      AtLeast(m, q - a);
    } else if q < a {
      assert m * (a - q) == t - r;
      AtLeast(m, a - q);
    }
  }

  lemma LastDigitMod(q: nat, v: nat, p: nat)
    requires p > 0 && v < 57
    ensures (57 * q + v) % (57 * p) == 57 * (q % p) + v
  {
    var a, r := q / p, q % p;
    assert q == p * a + r;
    assert 57 * (p * a) == (57 * p) * a;
    LastDigitBound(r, v, p);
    DivUnique(57 * q + v, 57 * p, a, 57 * r + v);
  }

  /** Cutting off the front of a numeral leaves a remainder. */
  lemma {:induction false} DecodeCut(s: string, k: nat)
    requires AllDigits(s) && k <= |s|
    ensures AllDigits(s[|s| - k..]) && Decode(s[|s| - k..]) == Decode(s) % Pow57(k)
  {
    var t := s[|s| - k..];
    if k > 0 {
      var init := s[..|s| - 1];
      assert IsDigit57(s[|s| - 1]) && t[k - 1] == s[|s| - 1];
      assert t[..k - 1] == init[|init| - (k - 1)..];
      DecodeCut(init, k - 1);
      LastDigitMod(Decode(init), ValueOf(s[|s| - 1]), Pow57(k - 1));
    }
  }

  lemma CutIsId(digest: nat, width: nat)
    requires |ToText(digest)| >= width
    ensures IsId(ToText(digest)[|ToText(digest)| - width..], digest, width)
  {
    RoundTrip(digest);
    DecodeCut(ToText(digest), width);
  }

  lemma PaddedIsId(digest: nat, width: nat)
    requires |ToText(digest)| <= width
    ensures IsId(Repeat(Letter(0), width - |ToText(digest)|) + ToText(digest), digest, width)
  {
    var s := ToText(digest);
    var id := Repeat(Letter(0), width - |s|) + s;
    RoundTrip(digest);
    DecodePadded(Letter(0), width - |s|, s);
    DecodeBound(id);
    SmallMod(digest, Pow57(width));
  }

  /** Numerals of one length differ in value when they differ. */
  lemma {:induction false} DecodeInjective(s: string, t: string)
    requires AllDigits(s) && AllDigits(t) && |s| == |t| && Decode(s) == Decode(t)
    ensures s == t
  {
    if s != "" {
      var n := |s| - 1;
      assert IsDigit57(s[n]) && IsDigit57(t[n]);
      assert ValueOf(s[n]) < 57 && ValueOf(t[n]) < 57;
      DecodeInjective(s[..n], t[..n]);
      assert s == s[..n] + [s[n]] && t == t[..n] + [t[n]];
    }
  }

  /** A digest has only one id, and two digests share it exactly when they agree modulo 57 to the width. */
  lemma SameIdExactly(s: string, t: string, a: nat, b: nat, width: nat)
    requires IsId(s, a, width) && IsId(t, b, width)
    ensures s == t <==> a % Pow57(width) == b % Pow57(width)
  {
    if a % Pow57(width) == b % Pow57(width) { DecodeInjective(s, t); }
  }

  lemma ShortIsExact(id: string, digest: nat, width: nat)
    requires digest < Pow57(width) && IsId(id, digest, width) && width > 0
    ensures |ToText(digest)| <= width && Decode(id) == digest
  {
    DigitsBound(digest, width);
    SmallMod(digest, Pow57(width));
  }

  /** For every 128-bit digest: its numeral has at most 22 characters, so nothing is cut off, and the id decodes to it. */
  lemma IdIsExact(id: string, digest: nat)
    requires digest < DIGESTS && IsId(id, digest, WIDTH)
    ensures |ToText(digest)| <= WIDTH && Decode(id) == digest
  {
    DigestFits();
    ShortIsExact(id, digest, WIDTH);
  }

  /** Distinct digests have distinct ids. */
  lemma IdsAreDistinct(id: string, a: nat, b: nat)
    requires a < DIGESTS && b < DIGESTS && IsId(id, a, WIDTH) && IsId(id, b, WIDTH)
    ensures a == b
  {
    IdIsExact(id, a);
    IdIsExact(id, b);
  }
}
