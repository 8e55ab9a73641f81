/** Decimal text: what C++ streams print and what strtoul and sscanf read. */
module Numbers {
  import opened Wrappers

  const DIGITS := "0123456789"

  predicate IsDigit(c: char) {
    '0' <= c <= '9'
  }

  predicate AllDigits(s: string) {
    forall i | 0 <= i < |s| :: IsDigit(s[i])
  }

  function DigitValue(c: char): (d: nat)
    requires IsDigit(c)
    ensures d < 10 && DIGITS[d] == c
  {
    c as int - '0' as int
  }

  /** A number streamed in base ten. */
  function Decimal(n: nat): (s: string)
    ensures s != [] && AllDigits(s)
  {
    if n < 10 then [DIGITS[n]] else Decimal(n / 10) + [DIGITS[n % 10]]
  }

  function DecimalInt(n: int): string {
    if n < 0 then "-" + Decimal(-n) else Decimal(n)
  }

  function Value(s: string): (n: int)
    requires AllDigits(s)
    ensures n >= 0
  {
    if s == [] then 0 else Value(s[..|s| - 1]) * 10 + DigitValue(s[|s| - 1])
  }

  /** The longest prefix of digits. */
  function Prefix(s: string): (r: string)
    ensures AllDigits(r)
  {
    if s == [] || !IsDigit(s[0]) then [] else [s[0]] + Prefix(s[1..])
  }

  predicate Blank(c: char) {
    c == ' ' || ('\t' <= c <= '\r')
  }

  function SkipBlanks(s: string): string {
    if s != [] && Blank(s[0]) then SkipBlanks(s[1..]) else s
  }

  /** The integer that sscanf or strtoul reads, None when there are no digits.  The result
      is the number itself; a reader of w bits keeps it modulo 2^w. */
  function Scan(s: string): Option<int> {
    var t := SkipBlanks(s);
    var negative := t != [] && t[0] == '-';
    var u := if t != [] && (t[0] == '-' || t[0] == '+') then t[1..] else t;
    if Prefix(u) == [] then None
    else
      var n := Value(Prefix(u));
      Some(if negative then -n else n)
  }

  lemma {:induction false} ValueOfDecimal(n: nat)
    ensures Value(Decimal(n)) == n
  {
    if n >= 10 {
      var s := Decimal(n);
      assert s[..|s| - 1] == Decimal(n / 10) && s[|s| - 1] == DIGITS[n % 10];
      assert DigitValue(DIGITS[n % 10]) == n % 10;
      ValueOfDecimal(n / 10);
    } else {
      assert DigitValue(DIGITS[n]) == n;
      assert Decimal(n)[..0] == [];
    }
  }

  lemma {:induction false} PrefixOfDigits(s: string)
    requires AllDigits(s)
    ensures Prefix(s) == s
  {
    if s != [] {
      PrefixOfDigits(s[1..]);
    }
  }

  lemma ScanDigits(s: string)
    requires AllDigits(s) && s != []
    ensures Scan(s) == Some(Value(s))
    ensures Scan("-" + s) == Some(-Value(s))
  {
    hide Value;
    PrefixOfDigits(s);
    assert IsDigit(s[0]);
    assert ("-" + s)[1..] == s;
  }

  lemma {:induction false} PrefixThen(s: string, rest: string)
    requires AllDigits(s) && (rest == "" || !IsDigit(rest[0]))
    ensures Prefix(s + rest) == s
    decreases |s|
  {
    if s == [] {
      assert s + rest == rest;
    } else {
      assert (s + rest)[1..] == s[1..] + rest;
      PrefixThen(s[1..], rest);
    }
  }

  lemma {:induction false} BlanksSkipped(blanks: string, t: string)
    requires (forall c | c in blanks :: Blank(c)) && t != "" && !Blank(t[0])
    ensures SkipBlanks(blanks + t) == t
    decreases |blanks|
  {
    if blanks == [] {
      assert blanks + t == t;
    } else {
      assert blanks[0] in blanks && (blanks + t)[1..] == blanks[1..] + t;
      BlanksSkipped(blanks[1..], t);
    }
  }

  /** What isspace() tells of ASCII. */
  lemma BlankChars(c: char)
    ensures Blank(c) <==> c in " \t\n\U{B}\U{C}\r"
  {
  }

  /** White space, an optional sign and digits are read as that number, whatever follows. */
  lemma ScanReads(blanks: string, sign: string, digits: string, rest: string)
    requires (forall c | c in blanks :: c in " \t\n\U{B}\U{C}\r") && (sign == "" || sign == "-" || sign == "+")
    requires digits != "" && AllDigits(digits) && (rest == "" || !IsDigit(rest[0]))
    ensures Scan(blanks + (sign + (digits + rest))) == Some(if sign == "-" then -Value(digits) else Value(digits))
  {
    hide Value, Prefix, SkipBlanks;
    forall c | c in blanks ensures Blank(c) {
      BlankChars(c);
    }
    var t := sign + (digits + rest);
    assert IsDigit(digits[0]) && t[0] == if sign == "" then digits[0] else sign[0];
    BlanksSkipped(blanks, t);
    assert sign == "" ==> t == digits + rest;
    assert sign != "" ==> t[1..] == digits + rest;
    PrefixThen(digits, rest);
  }

  /** Text without digits after the white space and the sign is no number. */
  lemma ScanFails(blanks: string, rest: string)
    requires forall c | c in blanks :: Blank(c)
    requires rest == "" || (!Blank(rest[0]) && !IsDigit(rest[0]) && rest[0] != '-' && rest[0] != '+')
    ensures rest != "" ==> Scan(blanks + rest) == None
    ensures Scan("") == None
  {
    if rest != "" {
      BlanksSkipped(blanks, rest);
    }
  }

  /** Reading back what was printed. */
  lemma ScanDecimalInt(n: int)
    ensures Scan(DecimalInt(n)) == Some(n)
  {
    hide Scan, Value, Decimal;
    var m := if n < 0 then -n else n;
    ValueOfDecimal(m);
    ScanDigits(Decimal(m));
  }

  // ----- zero padding

  function Zeros(k: nat): (s: string)
    ensures |s| == k && AllDigits(s)
  {
    seq(k, _ => '0')
  }

  /** A number streamed with setw(width) and setfill('0'). */
  function ZeroPad(width: nat, n: nat): (s: string)
    ensures AllDigits(s) && |s| >= width
  {
    var d := Decimal(n);
    if |d| < width then Zeros(width - |d|) + d else d
  }

  lemma {:induction false} LeadingZeros(k: nat, s: string)
    requires AllDigits(s)
    ensures Value(Zeros(k) + s) == Value(s)
    decreases |s|, k
  {
    var t := Zeros(k) + s;
    if s != [] {
      assert t[..|t| - 1] == Zeros(k) + s[..|s| - 1];
      LeadingZeros(k, s[..|s| - 1]);
    } else if k > 0 {
      assert t[..|t| - 1] == Zeros(k - 1) + s;
      LeadingZeros(k - 1, s);
    } else {
      assert t == s;
    }
  }

  lemma {:induction false} DecimalLength(n: nat, width: nat, bound: nat)
    requires width >= 1 && bound == Power10(width) && n < bound
    ensures |Decimal(n)| <= width
    decreases width
  {
    if n >= 10 {
      assert width >= 2;
      DecimalLength(n / 10, width - 1, Power10(width - 1));
    }
  }

  function Power10(k: nat): nat {
    if k == 0 then 1 else 10 * Power10(k - 1)
  }

  lemma TenDigits(n: nat)
    requires n < 0x1_0000_0000
    ensures |Decimal(n)| <= 10
  {
    hide Decimal;
    assert Power10(2) == 100;
    assert Power10(4) == 10000;
    assert Power10(6) == 1000000;
    assert Power10(8) == 100000000;
    assert Power10(10) == 10000000000;
    DecimalLength(n, 10, Power10(10));
  }

  /** Ten digits hold every 32-bit number, and are read back as that number. */
  lemma PaddedHeader(n: nat)
    requires n < 0x1_0000_0000
    ensures |ZeroPad(10, n)| == 10 && Scan(ZeroPad(10, n)) == Some(n)
  {
    hide Scan, Value, Decimal;
    TenDigits(n);
    var d := Decimal(n);
    ValueOfDecimal(n);
    LeadingZeros(10 - |d|, d);
    assert ZeroPad(10, n) == Zeros(10 - |d|) + d;
    ScanDigits(ZeroPad(10, n));
  }
}
