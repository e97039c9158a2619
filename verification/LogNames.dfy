/** The names of log files, `log-` and an index in decimal, and how a directory listing is read back. */
module LogNames {
  import opened Types

  const PREFIX := "log-"

  predicate IsDigit(c: char) {
    '0' <= c <= '9'
  }

  function DigitValue(c: char): (v: nat)
    requires IsDigit(c)
    ensures v < 10
  {
    c as int - '0' as int
  }

  function DigitOf(v: nat): (c: char)
    requires v < 10
    ensures IsDigit(c) && DigitValue(c) == v
  {
    (v + '0' as int) as char
  }

  /** How a number is written: no sign, no leading zero. */
  function Decimal(n: nat): (s: string) {
    if n < 10 then [DigitOf(n)] else Decimal(n / 10) + [DigitOf(n % 10)]
  }

  predicate AllDigits(s: string) {
    forall i :: 0 <= i < |s| ==> IsDigit(s[i])
  }

  function Value(s: string): nat
    requires AllDigits(s)
  {
    if s == [] then 0 else 10 * Value(s[..|s| - 1]) + DigitValue(s[|s| - 1])
  }

  /** What `parse::<u64>` accepts: digits, after a plus sign or not, that fit. */
  function Parsed(s: string): Option<nat> {
    var digits := if s != [] && s[0] == '+' then s[1..] else s;
    if digits != [] && AllDigits(digits) && Value(digits) <= U64_MAX then Some(Value(digits)) else None
  }

  function Name(index: nat): string {
    PREFIX + Decimal(index)
  }

  /** The index a name in `logs/` stands for; nothing for a name that is no log entry. */
  function IndexOf(name: string): Option<nat> {
    if PREFIX <= name then Parsed(name[|PREFIX|..]) else None
  }

  predicate Plain(s: string) {
    s != [] && AllDigits(s) && (s[0] == '0' ==> |s| == 1)
  }

  lemma {:induction false} DecimalIsPlain(n: nat)
    ensures Plain(Decimal(n)) && Value(Decimal(n)) == n
    ensures Decimal(n)[0] == '0' ==> n == 0
    decreases n
  {
    if n >= 10 {
      DecimalIsPlain(n / 10);
      assert Decimal(n)[..|Decimal(n)| - 1] == Decimal(n / 10);
    } else {
      assert Decimal(n)[..0] == [];
    }
  }

  lemma {:induction false} PlainIsDecimal(s: string)
    requires Plain(s)
    ensures Decimal(Value(s)) == s
    ensures s[0] != '0' ==> Value(s) > 0
    decreases |s|
  {
    var front, last := s[..|s| - 1], s[|s| - 1];
    assert s == front + [last];
    assert DigitOf(DigitValue(last)) == last;
    if front == [] {
      assert Value(front) == 0;
    } else {
      PlainIsDecimal(front);
      assert Value(s) / 10 == Value(front) && Value(s) % 10 == DigitValue(last);
    }
  }

  /** A log file is found again under its index, and two indices never share a file. */
  lemma NameRoundTrips(index: nat)
    requires index <= U64_MAX
    ensures IndexOf(Name(index)) == Some(index)
  {
    DecimalIsPlain(index);
    assert Name(index)[|PREFIX|..] == Decimal(index);
  }

  lemma NamesAreDistinct(i: nat, j: nat)
    requires Name(i) == Name(j)
    ensures i == j
  {
    DecimalIsPlain(i);
    DecimalIsPlain(j);
    assert Name(i)[|PREFIX|..] == Decimal(i) && Name(j)[|PREFIX|..] == Decimal(j);
  }

  /** A listing also reads an index into names no entry is written under: exactly those with a sign or
      a leading zero. */
  lemma OwnNamesArePlain(name: string)
    requires IndexOf(name).Some?
    ensures name == Name(IndexOf(name).value) <==> Plain(name[|PREFIX|..])
  {
    var rest := name[|PREFIX|..];
    assert name == PREFIX + rest;
    if Plain(rest) {
      PlainIsDecimal(rest);
    } else {
      DecimalIsPlain(IndexOf(name).value);
      assert Name(IndexOf(name).value)[|PREFIX|..] == Decimal(IndexOf(name).value);
    }
  }

  predicate Zeros(s: string) {
    forall i :: 0 <= i < |s| ==> s[i] == '0'
  }

  lemma {:induction false} PaddingIsNothing(zeros: string, s: string)
    requires Zeros(zeros) && AllDigits(s)
    ensures AllDigits(zeros + s) && Value(zeros + s) == Value(s)
    decreases |s|, |zeros|
  {
    var all := zeros + s;
    if s != [] {
      assert all[..|all| - 1] == zeros + s[..|s| - 1];
      PaddingIsNothing(zeros, s[..|s| - 1]);
    } else if zeros != [] {
      assert all == zeros && all[..|all| - 1] == zeros[..|zeros| - 1] + [];
      PaddingIsNothing(zeros[..|zeros| - 1], []);
    }
  }

  lemma OneZeroMore(rest: string, s: string, n: nat)
    requires Zeros(rest) && s == rest + Decimal(n)
    ensures Zeros(['0'] + rest) && ['0'] + s == (['0'] + rest) + Decimal(n)
  {
  }

  lemma LeadingZero(s: string)
    requires s != [] && AllDigits(s) && !Plain(s)
    ensures |s| > 1 && s == ['0'] + s[1..] && AllDigits(s[1..]) && Value(s) == Value(s[1..])
  {
    assert s == ['0'] + s[1..];
    PaddingIsNothing(['0'], s[1..]);
  }

  /** Any digits are a number in decimal, padded with zeros. */
  lemma {:induction false} DigitsArePadded(s: string) returns (zeros: string)
    requires s != [] && AllDigits(s)
    ensures Zeros(zeros) && s == zeros + Decimal(Value(s))
  {
    if Plain(s) {
      PlainIsDecimal(s);
      zeros := [];
    } else {
      LeadingZero(s);
      var rest := DigitsArePadded(s[1..]);
      OneZeroMore(rest, s[1..], Value(s));
      zeros := ['0'] + rest;
    }
  }

  /** The digits of a name, after a plus sign or not. */
  ghost predicate Spelled(rest: string, digits: string) {
    rest == digits || rest == ['+'] + digits
  }

  /** The names that stand for an index: `log-`, a plus sign or not, any zeros, and the index. */
  ghost predicate NamedFor(rest: string, index: nat) {
    exists zeros :: Zeros(zeros) && Spelled(rest, zeros + Decimal(index))
  }

  lemma ParsedIsNamed(rest: string, index: nat)
    requires Parsed(rest) == Some(index)
    ensures NamedFor(rest, index)
  {
    var digits := if rest[0] == '+' then rest[1..] else rest;
    assert Spelled(rest, digits);
    var zeros := DigitsArePadded(digits);
    assert Zeros(zeros) && Spelled(rest, zeros + Decimal(index));
  }

  lemma NamedIsParsed(rest: string, index: nat)
    requires NamedFor(rest, index) && index <= U64_MAX
    ensures Parsed(rest) == Some(index)
  {
    var zeros :| Zeros(zeros) && Spelled(rest, zeros + Decimal(index));
    var digits := zeros + Decimal(index);
    DecimalIsPlain(index);
    PaddingIsNothing(zeros, Decimal(index));
    assert IsDigit(digits[0]);
    assert rest != digits ==> rest[1..] == digits;
  }

  /** A listing reads exactly these names as that index, if it fits a `u64`, and refuses every other. */
  lemma NamesRead(name: string, index: nat)
    ensures IndexOf(name) == Some(index) <==>
            index <= U64_MAX && "log-" <= name && NamedFor(name[4..], index)
  {
    if IndexOf(name) == Some(index) {
      ParsedIsNamed(name[4..], index);
    } else if index <= U64_MAX && "log-" <= name && NamedFor(name[4..], index) {
      NamedIsParsed(name[4..], index);
    }
  }
}
