// Floor names as the elevator programs store and compare them: C strings of at most
// three characters, "B99".."B1" for basements and "0".."999" above, converted with
// atoi and snprintf.
module Floors {

  const LOWEST := -99
  const HIGHEST := 999

  predicate IsDigit(c: char) { '0' <= c <= '9' }

  function Digit(d: nat): char
    requires d < 10
  {
    '0' + d as char
  }

  /** The number that the digits at the front of s spell, continuing from acc. */
  function ParseDigits(s: string, acc: nat): nat {
    if s == "" || !IsDigit(s[0]) then acc
    else ParseDigits(s[1..], 10 * acc + (s[0] as int - '0' as int))
  }

  /** The C library's atoi, for strings too short to overflow an int. */
  function Atoi(s: string): int {
    if s == "" then 0
    else if s[0] in " \t\n\r" || s[0] as int == 11 || s[0] as int == 12 then Atoi(s[1..])
    else if s[0] == '-' then 0 - ParseDigits(s[1..], 0)
    else if s[0] == '+' then ParseDigits(s[1..], 0)
    else ParseDigits(s, 0)
  }

  function FloorNumber(s: string): int {
    if s != "" && s[0] == 'B' then -Atoi(s[1..]) else Atoi(s)
  }

  /** printf's "%d" for a number that is not negative. */
  function Decimal(n: nat): string {
    if n < 10 then [Digit(n)] else Decimal(n / 10) + [Digit(n % 10)]
  }

  /** snprintf into a four-byte buffer keeps at most three characters. */
  function Truncated(s: string): string {
    if |s| <= 3 then s else s[..3]
  }

  function FloorString(n: int): string {
    Truncated(if n < 0 then "B" + Decimal(-n) else Decimal(n))
  }

  /** The names the two conversions agree on. */
  predicate Canonical(s: string) {
    LOWEST <= FloorNumber(s) <= HIGHEST && FloorString(FloorNumber(s)) == s
  }

  lemma ParseTwo(a: nat, b: nat, acc: nat)
    requires a < 10 && b < 10
    ensures ParseDigits([Digit(a), Digit(b)], acc) == 100 * acc + 10 * a + b
  {
    assert [Digit(a), Digit(b)][1..] == [Digit(b)];
    assert ParseDigits([Digit(b)], 10 * acc + a) == 10 * (10 * acc + a) + b;
  }

  lemma DecimalDigits(n: nat)
    requires n <= 999
    ensures 1 <= |Decimal(n)| <= 3
    ensures n <= 99 ==> |Decimal(n)| <= 2
    ensures forall c :: c in Decimal(n) ==> IsDigit(c)
    ensures ParseDigits(Decimal(n), 0) == n
  {
    if n < 10 {
      assert Decimal(n) == [Digit(n)];
    } else if n < 100 {
      assert Decimal(n) == [Digit(n / 10), Digit(n % 10)];
      ParseTwo(n / 10, n % 10, 0);
    } else {
      assert Decimal(n / 10) == [Digit(n / 100), Digit(n / 10 % 10)];
      assert Decimal(n) == [Digit(n / 100), Digit(n / 10 % 10), Digit(n % 10)];
      assert Decimal(n)[1..] == [Digit(n / 10 % 10), Digit(n % 10)];
      ParseTwo(n / 10 % 10, n % 10, n / 100);
    }
  }

  lemma RoundTrip(n: int)
    requires LOWEST <= n <= HIGHEST
    ensures FloorNumber(FloorString(n)) == n
    ensures Canonical(FloorString(n))
  {
    DecimalDigits(if n < 0 then -n else n);
    if n < 0 {
      assert FloorString(n)[1..] == Decimal(-n);
      assert IsDigit(Decimal(-n)[0]);
    } else {
      assert IsDigit(Decimal(n)[0]);
    }
  }

  /** What atoi makes of a number, with a sign or without. */
  lemma AtoiReads(n: nat)
    requires n <= 999
    ensures Atoi(Decimal(n)) == n && Atoi("+" + Decimal(n)) == n && Atoi("-" + Decimal(n)) == 0 - n
  {
    DecimalDigits(n);
    hide Decimal, ParseDigits;
    assert IsDigit(Decimal(n)[0]);
    assert ("+" + Decimal(n))[1..] == Decimal(n) && ("-" + Decimal(n))[1..] == Decimal(n);
  }

  /** White space in front is skipped. */
  lemma AtoiSkips(s: string)
    ensures Atoi(" " + s) == Atoi("\t" + s) == Atoi("\n" + s) == Atoi(s)
  {
    assert (" " + s)[1..] == s && ("\t" + s)[1..] == s && ("\n" + s)[1..] == s;
  }

  /** Comparing canonical names with strcmp is comparing their numbers. */
  lemma SameNumberSameName(a: string, b: string)
    requires Canonical(a) && Canonical(b)
    ensures a == b <==> FloorNumber(a) == FloorNumber(b)
  {
  }

  /** A stored floor: a canonical name is kept as its number, anything else as its text. */
  datatype Floor = Level(n: int) | Odd(text: string)

  function FloorOf(s: string): Floor {
    if Canonical(s) then Level(FloorNumber(s)) else Odd(s)
  }

  function Text(f: Floor): string {
    match f
    case Level(n) => FloorString(n)
    case Odd(s) => s
  }

  function Number(f: Floor): int { FloorNumber(Text(f)) }

  /** A floor as a four-byte buffer stores it: a text there is room for, as its number if it is
      canonical. Two such floors are equal exactly if strcmp finds their texts equal. */
  predicate Fits(f: Floor) { |Text(f)| <= 3 && FloorOf(Text(f)) == f }

  predicate IsLevel(f: Floor) { f.Level? && LOWEST <= f.n <= HIGHEST }

  lemma FloorOfText(s: string)
    ensures Text(FloorOf(s)) == s
    ensures FloorOf(s).Level? ==> IsLevel(FloorOf(s))
  {
  }

  lemma LevelNumber(f: Floor)
    requires IsLevel(f)
    ensures Number(f) == f.n && FloorOf(Text(f)) == f
  {
    RoundTrip(f.n);
  }

  lemma StoredFloor(f: Floor)
    requires Fits(f)
    ensures f.Level? <==> Canonical(Text(f))
    ensures f.Level? ==> IsLevel(f)
  {
    FloorOfText(Text(f));
  }

  // ---- The numbers of short texts ----

  /** Ten to the power of n, for the lengths that fit. */
  function TenTo(n: nat): int { if n == 0 then 1 else if n == 1 then 10 else if n == 2 then 100 else 1000 }

  lemma ParseBound(s: string, acc: nat)
    requires |s| <= 3
    ensures ParseDigits(s, acc) < (acc + 1) * TenTo(|s|)
  {
    if s != "" && IsDigit(s[0]) { ParseBound(s[1..], 10 * acc + (s[0] as int - '0' as int)); }
  }

  lemma AtoiBound(s: string)
    requires |s| <= 3
    ensures Atoi(s) < TenTo(|s|)
    ensures |s| > 0 ==> Atoi(s) > -TenTo(|s| - 1)
  {
    ParseBound(s, 0);
    if |s| > 0 { ParseBound(s[1..], 0); }
  }

  /** Any text that fits, a floor's name or not, converts to a number in the range. */
  lemma FittingNumber(f: Floor)
    requires Fits(f)
    ensures LOWEST <= Number(f) <= HIGHEST
  {
    var s := Text(f);
    AtoiBound(s);
    if |s| > 0 { AtoiBound(s[1..]); }
  }

  lemma SameFloor(a: string, b: string)
    ensures FloorOf(a) == FloorOf(b) <==> a == b
  {
    FloorOfText(a);
    FloorOfText(b);
  }
}
