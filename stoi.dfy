/**
 * The hour parse of `ingestFile`: `std::stoi` on base 10, which behaves as `strtol`
 * (section 7.22.1.4 of ISO C11): leading white space is skipped, one optional
 * `+` or `-` sign is accepted, then the longest run of decimal digits is read and
 * anything after it is ignored. With no digit at all `std::stoi` throws, which
 * here is `None`.
 */
module Strtol {
  import opened Wrappers

  /** `isspace` in the "C" locale: space, tab, newline, vertical tab, form feed, carriage return. */
  predicate IsSpace(c: char)
  {
    c == ' ' || c == '\t' || c == '\n' || c == '\U{0B}' || c == '\U{0C}' || c == '\r'
  }

  predicate IsDigit(c: char)
  {
    '0' <= c <= '9'
  }

  function DigitValue(c: char): (d: nat)
    requires IsDigit(c)
    ensures d < 10
  {
    c as int - '0' as int
  }

  predicate AllDigits(s: string)
  {
    forall j :: 0 <= j < |s| ==> IsDigit(s[j])
  }

  /** `s` without its leading white space. */
  function SkipSpaces(s: string): (t: string)
    ensures |t| <= |s|
    ensures t == [] || !IsSpace(t[0])
  {
    if s != [] && IsSpace(s[0]) then SkipSpaces(s[1..]) else s
  }

  /** Length of the run of digits that `s` starts with. */
  function DigitRun(s: string): (n: nat)
    ensures n <= |s|
    ensures AllDigits(s[..n])
    ensures n < |s| ==> !IsDigit(s[n])
  {
    if s != [] && IsDigit(s[0]) then 1 + DigitRun(s[1..]) else 0
  }

  /** The value of a string of decimal digits, most significant first. */
  function Decimal(ds: string): nat
    requires AllDigits(ds)
  {
    if ds == [] then 0 else 10 * Decimal(ds[..|ds| - 1]) + DigitValue(ds[|ds| - 1])
  }

  lemma DecimalOfOne(c: char)
    requires IsDigit(c)
    ensures Decimal([c]) == DigitValue(c)
  {
    assert [c][..0] == [];
  }

  lemma DecimalOfTwo(c: char, d: char)
    requires IsDigit(c) && IsDigit(d)
    ensures Decimal([c, d]) == 10 * DigitValue(c) + DigitValue(d)
  {
    assert [c, d][..1] == [c];
    DecimalOfOne(c);
  }

  /** The digits `u` starts with, read as a number; `None` when it starts with none. */
  function LeadingNumber(u: string): Option<nat>
  {
    var n := DigitRun(u);
    if n == 0 then None else Some(Decimal(u[..n]))
  }

  /** The optional sign, then the leading number. */
  function SignedNumber(t: string): Option<int>
  {
    if t != [] && t[0] == '-' then
      match LeadingNumber(t[1..])
      case None => None
      case Some(m) => Some(-(m as int))
    else if t != [] && t[0] == '+' then
      match LeadingNumber(t[1..])
      case None => None
      case Some(m) => Some(m as int)
    else
      match LeadingNumber(t)
      case None => None
      case Some(m) => Some(m as int)
  }

  /** `std::stoi(s)`: `None` where it throws `std::invalid_argument`. */
  function Stoi(s: string): Option<int>
  {
    SignedNumber(SkipSpaces(s))
  }

  /** A string that does not start with white space is read from its first character. */
  lemma StoiNoSpace(s: string)
    requires s == [] || !IsSpace(s[0])
    ensures Stoi(s) == SignedNumber(s)
  {
  }

  /** A string that starts with white space reads as its remainder. */
  lemma StoiFromSpace(s: string)
    requires s != [] && IsSpace(s[0])
    ensures Stoi(s) == Stoi(s[1..])
  {
  }

  lemma LeadingOne(c: char)
    ensures LeadingNumber([c]) == if IsDigit(c) then Some(DigitValue(c)) else None
  {
    if IsDigit(c) {
      assert DigitRun([c]) == 1 && [c][..1] == [c];
      DecimalOfOne(c);
    } else {
      assert DigitRun([c]) == 0;
    }
  }

  lemma LeadingTwo(a: char, b: char)
    ensures LeadingNumber([a, b]) ==
      if !IsDigit(a) then None
      else if IsDigit(b) then Some(10 * DigitValue(a) + DigitValue(b))
      else Some(DigitValue(a))
  {
    var w := [a, b];
    if !IsDigit(a) {
      assert DigitRun(w) == 0;
    } else if IsDigit(b) {
      assert w[1..] == [b];
      assert DigitRun([b]) == 1;
      assert DigitRun(w) == 2 && w[..2] == w;
      DecimalOfTwo(a, b);
    } else {
      assert w[1..] == [b];
      assert DigitRun([b]) == 0;
      assert DigitRun(w) == 1 && w[..1] == [a];
      DecimalOfOne(a);
    }
  }

  lemma StoiOne(a: char)
    ensures Stoi([a]) == if IsDigit(a) then Some(DigitValue(a) as int) else None
  {
    LeadingOne(a);
    if IsSpace(a) {
      StoiFromSpace([a]);
      assert [a][1..] == [];
      assert DigitRun([]) == 0;
    } else {
      StoiNoSpace([a]);
      if a == '+' || a == '-' {
        assert [a][1..] == [];
        assert DigitRun([]) == 0;
      }
    }
  }

  lemma StoiTwo(a: char, b: char)
    ensures Stoi([a, b]) ==
      if IsDigit(a) then Some(if IsDigit(b) then 10 * DigitValue(a) + DigitValue(b) else DigitValue(a))
      else if (IsSpace(a) || a == '+') && IsDigit(b) then Some(DigitValue(b) as int)
      else if a == '-' && IsDigit(b) then Some(-(DigitValue(b) as int))
      else None
  {
    var w := [a, b];
    if IsSpace(a) {
      StoiFromSpace(w);
      assert w[1..] == [b];
      StoiOne(b);
    } else {
      StoiNoSpace(w);
      LeadingTwo(a, b);
      if a == '+' || a == '-' {
        assert w[1..] == [b];
        LeadingOne(b);
      }
    }
  }

  /** The complete table of `std::stoi` on the window of one or two characters that
      `ingestFile` reads after the first space: a leading digit, possibly followed by a
      second one; or a space or sign followed by one digit; anything else fails. */
  lemma HourWindow(w: string)
    requires 1 <= |w| <= 2
    ensures IsDigit(w[0]) ==>
      Stoi(w) == Some(if |w| == 2 && IsDigit(w[1]) then 10 * DigitValue(w[0]) + DigitValue(w[1])
                      else DigitValue(w[0]))
    ensures |w| == 2 && (IsSpace(w[0]) || w[0] == '+') && IsDigit(w[1]) ==>
      Stoi(w) == Some(DigitValue(w[1]) as int)
    ensures |w| == 2 && w[0] == '-' && IsDigit(w[1]) ==>
      Stoi(w) == Some(-(DigitValue(w[1]) as int))
    ensures Stoi(w).Some? ==>
      IsDigit(w[0]) || (|w| == 2 && IsDigit(w[1]) && (IsSpace(w[0]) || w[0] == '+' || w[0] == '-'))
  {
    if |w| == 1 {
      assert w == [w[0]];
      StoiOne(w[0]);
    } else {
      assert w == [w[0], w[1]];
      StoiTwo(w[0], w[1]);
    }
  }

  /** Two digits read as a number; a digit followed by junk reads as that digit. */
  lemma HourDigitExamples()
    ensures Stoi("09") == Some(9) && Stoi("23") == Some(23) && Stoi("24") == Some(24)
    ensures Stoi("9x") == Some(9) && Stoi("9:") == Some(9)
  {
    StoiTwo('0', '9');
    StoiTwo('2', '3');
    StoiTwo('2', '4');
    StoiTwo('9', 'x');
    StoiTwo('9', ':');
  }

  /** A sign or a space before one digit is accepted. */
  lemma HourSignExamples()
    ensures Stoi("+9") == Some(9) && Stoi("-0") == Some(0) && Stoi(" 9") == Some(9)
    ensures Stoi("-5") == Some(-5)
  {
    StoiTwo('+', '9');
    StoiTwo('-', '0');
    StoiTwo(' ', '9');
    StoiTwo('-', '5');
  }

  /** Without a leading digit (after an optional space or sign) the conversion fails. */
  lemma HourFailExamples()
    ensures Stoi("XY") == None && Stoi("+") == None && Stoi(":0") == None
  {
    StoiTwo('X', 'Y');
    StoiOne('+');
    StoiTwo(':', '0');
  }
}
