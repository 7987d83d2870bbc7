/** The X-LB-Hop header: an integer printed with %d and read back with Sscanf's %d. */
module HopHeader {
  predicate IsDigit(c: char) {
    '0' <= c <= '9'
  }

  function Digit(n: nat): char
    requires n < 10
  {
    '0' + n as char
  }

  function DigitsOf(n: nat): string {
    if n < 10 then [Digit(n)] else DigitsOf(n / 10) + [Digit(n % 10)]
  }

  function Print(n: int): string {
    if n < 0 then "-" + DigitsOf(-n) else DigitsOf(n)
  }

  function SkipSpaces(s: string): string {
    if s != "" && (s[0] == ' ' || s[0] == '\t') then SkipSpaces(s[1..]) else s
  }

  /** The value of the leading digits of s, after the digits of acc. */
  function Scan(s: string, acc: nat): nat {
    if s != "" && IsDigit(s[0]) then Scan(s[1..], 10 * acc + (s[0] - '0') as nat) else acc
  }

  /** The hop count a handler reads; 0 when the header is missing or holds no number. */
  function Parse(header: string): int {
    var s := SkipSpaces(header);
    if s != "" && s[0] == '-' then -(Scan(s[1..], 0) as int)
    else if s != "" && s[0] == '+' then Scan(s[1..], 0)
    else Scan(s, 0)
  }

  lemma {:induction false} ScanSnoc(s: string, c: char, acc: nat)
    requires (forall i | 0 <= i < |s| :: IsDigit(s[i])) && IsDigit(c)
    ensures Scan(s + [c], acc) == 10 * Scan(s, acc) + (c - '0') as nat
  {
    if s == "" {
      assert s + [c] == [c];
    } else {
      assert (s + [c])[1..] == s[1..] + [c];
      ScanSnoc(s[1..], c, 10 * acc + (s[0] - '0') as nat);
    }
  }

  lemma {:induction false} ScanDigits(n: nat)
    ensures Scan(DigitsOf(n), 0) == n && DigitsOf(n) != ""
    ensures forall i | 0 <= i < |DigitsOf(n)| :: IsDigit(DigitsOf(n)[i])
  {
    if n >= 10 {
      ScanDigits(n / 10);
      ScanSnoc(DigitsOf(n / 10), Digit(n % 10), 0);
    }
  }

  /** What one node prints the next one reads. */
  lemma RoundTrip(n: int)
    ensures Parse(Print(n)) == n
  {
    ScanDigits(if n < 0 then -n else n);
  }

  // ----- what a header is read as

  predicate Blank(c: char) {
    c == ' ' || c == '\t'
  }

  predicate AllDigits(s: string) {
    forall i | 0 <= i < |s| :: '0' <= s[i] <= '9'
  }

  predicate StartsWithDigit(s: string) {
    s != "" && '0' <= s[0] <= '9'
  }

  lemma {:induction false} BlanksIgnored(blanks: string, s: string)
    requires forall i | 0 <= i < |blanks| :: Blank(blanks[i])
    ensures Parse(blanks + s) == Parse(s)
  {
    if blanks == "" {
      assert blanks + s == s;
    } else {
      assert (blanks + s)[1..] == blanks[1..] + s;
      BlanksIgnored(blanks[1..], s);
    }
  }

  /** A header that is missing, or has no digit after blanks and one sign, is read as 0. */
  lemma NoNumberIsZero(blanks: string, sign: string, rest: string)
    requires forall i | 0 <= i < |blanks| :: Blank(blanks[i])
    requires sign in {"", "+", "-"} && !StartsWithDigit(rest)
    requires sign == "" && rest != "" ==> rest[0] !in {'+', '-', ' ', '\t'}
    ensures Parse("") == 0 && Parse(blanks + sign + rest) == 0
  {
    BlanksIgnored(blanks, sign + rest);
    assert blanks + sign + rest == blanks + (sign + rest);
    if sign != "" {
      assert (sign + rest)[1..] == rest;
    } else {
      assert sign + rest == rest;
    }
  }

  lemma {:induction false} ScanStops(digits: string, rest: string, acc: nat)
    requires AllDigits(digits) && !StartsWithDigit(rest)
    ensures Scan(digits + rest, acc) == Scan(digits, acc)
  {
    if digits == "" {
      assert digits + rest == rest;
    } else {
      assert (digits + rest)[1..] == digits[1..] + rest;
      ScanStops(digits[1..], rest, 10 * acc + (digits[0] - '0') as nat);
    }
  }

  /** The decimal value of a string of digits. */
  ghost predicate Denotes(digits: string, n: nat) {
    if digits == "" then n == 0
    else
      var k := |digits| - 1;
      '0' <= digits[k] <= '9' && n % 10 == (digits[k] - '0') as nat && Denotes(digits[..k], n / 10)
  }

  lemma {:induction false} ScanDenotes(digits: string)
    requires AllDigits(digits)
    ensures Denotes(digits, Scan(digits, 0))
  {
    if digits != "" {
      var k := |digits| - 1;
      ScanDenotes(digits[..k]);
      ScanSnoc(digits[..k], digits[k], 0);
      assert digits[..k] + [digits[k]] == digits;
    }
  }

  lemma SignsRead(digits: string, rest: string)
    requires digits != "" && AllDigits(digits)
    ensures Parse(digits + rest) == Scan(digits + rest, 0)
    ensures Parse("+" + (digits + rest)) == Scan(digits + rest, 0)
    ensures Parse("-" + (digits + rest)) == -(Scan(digits + rest, 0) as int)
  {
    assert (digits + rest)[0] == digits[0];
    assert ("+" + (digits + rest))[1..] == digits + rest == ("-" + (digits + rest))[1..];
  }

  /** Blanks and a plus sign do not change the number, a minus sign negates it, and the first character
      that is no digit ends it. */
  lemma NumberIsRead(blanks: string, digits: string, rest: string) returns (n: nat)
    requires forall i | 0 <= i < |blanks| :: Blank(blanks[i])
    requires digits != "" && AllDigits(digits) && !StartsWithDigit(rest)
    ensures Denotes(digits, n)
    ensures Parse(blanks + (digits + rest)) == n == Parse(blanks + ("+" + (digits + rest)))
    ensures Parse(blanks + ("-" + (digits + rest))) == -(n as int)
  {
    n := Scan(digits, 0);
    ScanDenotes(digits);
    ScanStops(digits, rest, 0);
    SignsRead(digits, rest);
    BlanksIgnored(blanks, digits + rest);
    BlanksIgnored(blanks, "+" + (digits + rest));
    BlanksIgnored(blanks, "-" + (digits + rest));
  }
}
