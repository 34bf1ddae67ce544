/**
 * The string operations the ledger relies on: the ordering used to sort
 * dates, `Array.prototype.join`, and the decimal rendering of an integer
 * inside a template literal.
 */
module Text {

  // ---------------------------------------------------------------------------
  // Lexicographic order on strings, character by character.
  // ---------------------------------------------------------------------------

  /** `a` sorts strictly before `b`: first differing character smaller, or `a` a proper prefix of `b`. */
  predicate Less(a: string, b: string)
    decreases |a|
  {
    if b == [] then false
    else if a == [] then true
    else if a[0] != b[0] then a[0] < b[0]
    else Less(a[1..], b[1..])
  }

  lemma {:induction false} LessIrreflexive(a: string)
    ensures !Less(a, a)
    decreases |a|
  {
    if a != [] {
      LessIrreflexive(a[1..]);
    }
  }

  lemma {:induction false} LessAsymmetric(a: string, b: string)
    ensures Less(a, b) ==> !Less(b, a)
    decreases |a|
  {
    if a != [] && b != [] && a[0] == b[0] {
      LessAsymmetric(a[1..], b[1..]);
    }
  }

  lemma {:induction false} LessTransitive(a: string, b: string, c: string)
    requires Less(a, b) && Less(b, c)
    ensures Less(a, c)
    decreases |a|
  {
    if a != [] && a[0] == b[0] && b[0] == c[0] {
      LessTransitive(a[1..], b[1..], c[1..]);
    }
  }

  /** Two different strings are always ordered one way or the other. */
  lemma {:induction false} LessTotal(a: string, b: string)
    requires a != b
    ensures Less(a, b) || Less(b, a)
    decreases |a|
  {
    if a != [] && b != [] && a[0] == b[0] {
      assert a == [a[0]] + a[1..] && b == [b[0]] + b[1..];
      LessTotal(a[1..], b[1..]);
    }
  }

  /** Not-after is transitive: if `a` is not after `b` and `b` not after `c`, then `a` is not after `c`. */
  lemma NotLessTransitive(a: string, b: string, c: string)
    requires !Less(b, a) && !Less(c, b)
    ensures !Less(c, a)
  {
    if a != b {
      LessTotal(a, b);
    }
    if b != c {
      LessTotal(b, c);
    }
    if a != b && b != c {
      LessTransitive(a, b, c);
    }
    LessAsymmetric(a, c);
    LessIrreflexive(a);
  }

  /** Strings neither of which sorts before the other are equal. */
  lemma NeitherLessIsEqual(a: string, b: string)
    ensures !Less(a, b) && !Less(b, a) <==> a == b
  {
    if a != b {
      LessTotal(a, b);
    } else {
      LessIrreflexive(a);
    }
  }

  // ---------------------------------------------------------------------------
  // Joining with a separator.
  // ---------------------------------------------------------------------------

  function TotalLength(parts: seq<string>): nat {
    if parts == [] then 0 else |parts[0]| + TotalLength(parts[1..])
  }

  /** `parts.join(sep)`: the parts in order, with `sep` between neighbours only. */
  function Join(parts: seq<string>, sep: string): (r: string)
    ensures parts == [] ==> r == []
    ensures parts != [] ==> |r| == TotalLength(parts) + (|parts| - 1) * |sep|
    ensures parts != [] ==> r[..|parts[0]|] == parts[0]
    decreases |parts|
  {
    if parts == [] then ""
    else if |parts| == 1 then parts[0]
    else parts[0] + sep + Join(parts[1..], sep)
  }

  /** Appending one more part adds the separator and that part at the end. */
  lemma {:induction false} JoinSnoc(parts: seq<string>, x: string, sep: string)
    requires parts != []
    ensures Join(parts + [x], sep) == Join(parts, sep) + sep + x
    decreases |parts|
  {
    if |parts| == 1 {
      assert parts + [x] == [parts[0], x];
    } else {
      assert (parts + [x])[1..] == parts[1..] + [x];
      JoinSnoc(parts[1..], x, sep);
    }
  }

  // ---------------------------------------------------------------------------
  // Decimal rendering of integers, and the parse that undoes it.
  // ---------------------------------------------------------------------------

  predicate IsDigit(c: char) {
    '0' <= c <= '9'
  }

  function DigitChar(d: nat): (c: char)
    requires d < 10
    ensures IsDigit(c)
  {
    "0123456789"[d]
  }

  function DigitValue(c: char): (d: nat)
    requires IsDigit(c)
    ensures d < 10 && DigitChar(d) == c
  {
    (c as int - '0' as int) as nat
  }

  /** The shortest decimal numeral of `n`. */
  function Digits(n: nat): (s: string)
    ensures s != [] && forall i :: 0 <= i < |s| ==> IsDigit(s[i])
    ensures |s| > 1 ==> s[0] != '0'
    decreases n
  {
    if n < 10 then [DigitChar(n)] else Digits(n / 10) + [DigitChar(n % 10)]
  }

  /** Reads a numeral from its most significant digit on. */
  function ParseDigits(s: string): nat
    requires forall i :: 0 <= i < |s| ==> IsDigit(s[i])
    decreases |s|
  {
    if s == [] then 0 else ParseDigits(s[..|s| - 1]) * 10 + DigitValue(s[|s| - 1])
  }

  /** How a JavaScript number that holds an integer appears in a template literal. */
  function IntToString(n: int): (s: string)
    ensures s != []
    ensures n < 0 <==> s[0] == '-'
  {
    if n < 0 then "-" + Digits(-n) else Digits(n)
  }

  function ParseInt(s: string): (n: int)
    requires s != []
    requires forall i :: 0 < i < |s| ==> IsDigit(s[i])
    requires s[0] == '-' || IsDigit(s[0])
  {
    if s[0] == '-' then 0 - ParseDigits(s[1..]) else ParseDigits(s)
  }

  lemma {:induction false} ParseDigitsRoundTrip(n: nat)
    ensures ParseDigits(Digits(n)) == n
    decreases n
  {
    if n >= 10 {
      var s := Digits(n);
      assert s[..|s| - 1] == Digits(n / 10);
      ParseDigitsRoundTrip(n / 10);
    }
  }

  /** A minus sign in front of a numeral negates what it reads as. */
  lemma ParseNegated(d: string)
    requires d != [] && forall i :: 0 <= i < |d| ==> IsDigit(d[i])
    ensures var s := "-" + d;
      && (forall i :: 0 < i < |s| ==> IsDigit(s[i]))
      && ParseInt(s) == 0 - ParseDigits(d)
  {
    var s := "-" + d;
    assert s[1..] == d;
    forall i | 0 < i < |s| ensures IsDigit(s[i]) {
      assert s[i] == d[i - 1];
    }
  }

  /** A numeral without a sign reads as its digits. */
  lemma ParseUnsigned(d: string)
    requires d != [] && forall i :: 0 <= i < |d| ==> IsDigit(d[i])
    ensures ParseInt(d) == ParseDigits(d)
  {
    assert IsDigit(d[0]);
  }

  /** Reading back the rendering of an integer gives the integer. */
  lemma IntToStringRoundTrip(n: int)
    ensures ParseInt(IntToString(n)) == n
  {
    if n < 0 {
      var m: nat := -n;
      ParseNegated(Digits(m));
      ParseDigitsRoundTrip(m);
    } else {
      ParseUnsigned(Digits(n));
      ParseDigitsRoundTrip(n);
    }
  }
}
