/** Shared vocabulary: 32-bit unsigned arithmetic, Option, ordered sequences,
    and the decimal text conversions the programs use (std::to_string, std::stoi). */
module Common {

  /** The values of a C++ uint32_t. */
  const U32_MODULUS: int := 0x1_0000_0000
  const U32_MAX: int := 0xFFFF_FFFF
  type u32 = x: int | 0 <= x < 0x1_0000_0000

  /** The range of a C++ int (32 bits on the targets the programs build for). */
  const INT_MIN: int := -0x8000_0000
  const INT_MAX: int := 0x7FFF_FFFF

  datatype Option<T> = None | Some(value: T)

  /** uint32_t `x + 1`, wrapping 0xFFFFFFFF to 0. */
  function Inc32(x: u32): u32 {
    (x + 1) % U32_MODULUS
  }

  /** uint32_t `x - 1`, wrapping 0 to 0xFFFFFFFF. */
  function Dec32(x: u32): u32 {
    (x - 1) % U32_MODULUS
  }

  /** uint32_t `a + k` for a non-negative k. */
  function Shift32(a: u32, k: nat): u32 {
    (a + k) % U32_MODULUS
  }

  lemma IncDecInverse(x: u32)
    ensures Inc32(Dec32(x)) == x && Dec32(Inc32(x)) == x
    ensures Dec32(0) == U32_MAX && Inc32(U32_MAX) == 0
  {
  }

  lemma ShiftStep(a: u32, k: nat)
    ensures Shift32(a, 0) == a
    ensures Inc32(Shift32(a, k)) == Shift32(a, k + 1)
  {
  }

  /** Counting a uint32_t up once per step keeps it equal to the step count mod 2^32. */
  lemma IncCounts(n: nat)
    ensures Inc32(n % U32_MODULUS) == (n + 1) % U32_MODULUS
  {
    var q, r := n / U32_MODULUS, n % U32_MODULUS;
    assert n == q * U32_MODULUS + r;
    if r + 1 == U32_MODULUS {
      assert n + 1 == (q + 1) * U32_MODULUS;
    } else {
      assert n + 1 == q * U32_MODULUS + (r + 1);
    }
  }

  /** Two shifts of the same origin by amounts that differ by less than 2^32 land apart. */
  lemma ShiftDistinct(a: u32, k: nat, m: nat)
    requires k < m < k + U32_MODULUS
    ensures Shift32(a, k) != Shift32(a, m)
  {
    var r := (a + k) % U32_MODULUS;
    var q := (a + k) / U32_MODULUS;
    assert a + k == q * U32_MODULUS + r;
    var d := m - k;
    assert a + m == q * U32_MODULUS + (r + d);
    if r + d < U32_MODULUS {
      assert Shift32(a, m) == r + d;
    } else {
      assert a + m == (q + 1) * U32_MODULUS + (r + d - U32_MODULUS);
      assert Shift32(a, m) == r + d - U32_MODULUS;
    }
  }

  /** Strictly increasing, which for a listing also means free of repeats. */
  ghost predicate Increasing(s: seq<int>) {
    forall i, j :: 0 <= i < j < |s| ==> s[i] < s[j]
  }

  // ---------------------------------------------------------------------------
  // Decimal text

  predicate IsDigit(c: char) {
    '0' <= c <= '9'
  }

  function DigitValue(c: char): nat
    requires IsDigit(c)
  {
    c as int - '0' as int
  }

  function DigitChar(d: nat): (c: char)
    requires d < 10
    ensures IsDigit(c) && DigitValue(c) == d
  {
    ('0' as int + d) as char
  }

  /** std::to_string of a non-negative integer: its decimal digits, no sign, no leading zero. */
  function Decimal(n: nat): (s: string)
    ensures |s| > 0
    ensures forall i :: 0 <= i < |s| ==> IsDigit(s[i])
    ensures |s| > 1 ==> s[0] != '0'
    decreases n
  {
    if n < 10 then [DigitChar(n)] else Decimal(n / 10) + [DigitChar(n % 10)]
  }

  /** The number a string of digits denotes. */
  function DigitsValue(s: string): nat
    requires forall i :: 0 <= i < |s| ==> IsDigit(s[i])
    decreases |s|
  {
    if s == [] then 0 else DigitsValue(s[..|s| - 1]) * 10 + DigitValue(s[|s| - 1])
  }

  /** Reading the digits of Decimal(n) back gives n. */
  lemma {:induction false} DecimalRoundTrip(n: nat)
    ensures DigitsValue(Decimal(n)) == n
    decreases n
  {
    var s := Decimal(n);
    if n >= 10 {
      DecimalRoundTrip(n / 10);
      assert s[..|s| - 1] == Decimal(n / 10);
    }
  }

  lemma DecimalInjective(m: nat, n: nat)
    requires Decimal(m) == Decimal(n)
    ensures m == n
  {
    DecimalRoundTrip(m);
    DecimalRoundTrip(n);
  }

  // ---------------------------------------------------------------------------
  // std::stoi, which calls strtol(s, &end, 10): white space is skipped, one optional
  // sign is read, then the longest run of digits. No digit at all throws
  // std::invalid_argument; a value outside int throws std::out_of_range.

  /** isspace in the "C" locale. */
  predicate IsSpace(c: char) {
    c == ' ' || c == '\t' || c == '\n' || c == '\U{000B}' || c == '\U{000C}' || c == '\r'
  }

  /** The length of the longest prefix of s made of digits. */
  function DigitRun(s: string): (n: nat)
    ensures n <= |s|
    ensures forall i :: 0 <= i < n ==> IsDigit(s[i])
    ensures n < |s| ==> !IsDigit(s[n])
    decreases |s|
  {
    if s != [] && IsDigit(s[0]) then 1 + DigitRun(s[1..]) else 0
  }

  /** The text after the leading white space. */
  function SkipSpace(s: string): (t: string)
    ensures |t| <= |s| && t == s[|s| - |t|..]
    ensures t != [] ==> !IsSpace(t[0])
    ensures forall i :: 0 <= i < |s| - |t| ==> IsSpace(s[i])
    decreases |s|
  {
    if s != [] && IsSpace(s[0]) then SkipSpace(s[1..]) else s
  }

  /** The integer strtol reads at the front of s, or None when it converts nothing. */
  function LeadingInteger(s: string): Option<int> {
    var t := SkipSpace(s);
    var negative := t != [] && t[0] == '-';
    var body := if t != [] && (t[0] == '-' || t[0] == '+') then t[1..] else t;
    var n := DigitRun(body);
    if n == 0 then None
    else
      var v: int := DigitsValue(body[..n]);
      Some(if negative then -v else v)
  }

  /** std::stoi: Some(value), or None where stoi throws. */
  function Stoi(s: string): (r: Option<int>)
    ensures r.Some? ==> INT_MIN <= r.value <= INT_MAX
  {
    match LeadingInteger(s)
    case None => None
    case Some(v) => if INT_MIN <= v <= INT_MAX then Some(v) else None
  }

  /** stoi reads back what to_string wrote, for every value in int's range. */
  lemma StoiOfDecimal(n: nat)
    requires n <= INT_MAX
    ensures Stoi(Decimal(n)) == Some(n)
  {
    var s := Decimal(n);
    assert SkipSpace(s) == s by {
      assert !IsSpace(s[0]);
    }
    assert DigitRun(s) == |s| by {
      DigitRunAll(s);
    }
    assert s[..|s|] == s;
    DecimalRoundTrip(n);
  }

  /** The digit run of digits followed by a non-digit stops at the non-digit. */
  lemma {:induction false} DigitRunStops(s: string, t: string)
    requires forall i :: 0 <= i < |s| ==> IsDigit(s[i])
    requires t == [] || !IsDigit(t[0])
    ensures DigitRun(s + t) == |s|
    decreases |s|
  {
    if s != [] {
      assert (s + t)[1..] == s[1..] + t;
      DigitRunStops(s[1..], t);
    }
  }

  lemma {:induction false} DigitRunAll(s: string)
    requires forall i :: 0 <= i < |s| ==> IsDigit(s[i])
    ensures DigitRun(s) == |s|
    decreases |s|
  {
    if s != [] {
      DigitRunAll(s[1..]);
    }
  }
}
