/**
 * Text helpers below the encoder: the C view of a string, joining fields
 * with a separator, and the decimal text `std::ostream << int` writes.
 * A `char` here stands for one byte of the (UTF-8) text the C code walks.
 */
module Text {

  /**
   * The text a `const char*` denotes: everything before the first NUL.
   * Both loops over a C string and the comparison `std::string == const char*`
   * see exactly this prefix.
   */
  function CStr(s: string): (c: string)
    ensures |c| <= |s| && c == s[..|c|]
    ensures '\0' !in c
    ensures |c| < |s| ==> s[|c|] == '\0'
  {
    if s == [] || s[0] == '\0' then [] else [s[0]] + CStr(s[1..])
  }

  /** A string without NUL is its own C view. */
  lemma CStrOfNulFree(s: string)
    requires '\0' !in s
    ensures CStr(s) == s
  {
  }

  /** The parts, each followed by the separator. */
  function Leading(parts: seq<string>, sep: char): string
  {
    if parts == [] then [] else Leading(parts[..|parts| - 1], sep) + parts[|parts| - 1] + [sep]
  }

  /** The parts with one separator between consecutive parts and none after the last. */
  function Join(parts: seq<string>, sep: char): string
  {
    if parts == [] then [] else Leading(parts[..|parts| - 1], sep) + parts[|parts| - 1]
  }

  lemma {:induction false} LeadingCons(a: string, parts: seq<string>, sep: char)
    ensures Leading([a] + parts, sep) == a + [sep] + Leading(parts, sep)
    decreases |parts|
  {
    if parts == [] {
      assert ([a] + parts)[..0] == [];
    } else {
      var init := parts[..|parts| - 1];
      assert ([a] + parts)[..|parts|] == [a] + init;
      LeadingCons(a, init, sep);
    }
  }

  lemma LeadingSnoc(parts: seq<string>, j: nat, sep: char)
    requires j < |parts|
    ensures Leading(parts[..j + 1], sep) == Leading(parts[..j], sep) + parts[j] + [sep]
  {
    assert parts[..j + 1][..j] == parts[..j];
  }

  lemma AppendAssoc2(o: string, a: string, b: string)
    ensures o + a + b == o + (a + b)
  {
  }

  lemma AppendAssoc(o: string, a: string, b: string, c: string)
    ensures o + a + b + c == o + (a + b + c)
  {
  }

  /** Join read from the front: the first part, then the separator, then the rest joined. */
  lemma JoinCons(a: string, parts: seq<string>, sep: char)
    requires parts != []
    ensures Join([a] + parts, sep) == a + [sep] + Join(parts, sep)
  {
    var init, last := parts[..|parts| - 1], parts[|parts| - 1];
    var whole := [a] + parts;
    assert whole[..|whole| - 1] == [a] + init && whole[|whole| - 1] == last;
    assert Join(whole, sep) == Leading([a] + init, sep) + last;
    LeadingCons(a, init, sep);
    AppendAssoc2(a + [sep], Leading(init, sep), last);
  }

  lemma JoinSingleton(a: string, sep: char)
    ensures Join([a], sep) == a
  {
    assert [a][..0] == [];
  }

  predicate IsDigit(c: char) { '0' <= c <= '9' }

  function DigitChar(d: nat): (c: char)
    requires d < 10
    ensures IsDigit(c)
  {
    (('0' as int) + d) as char
  }

  function DigitValue(c: char): nat
    requires IsDigit(c)
  {
    (c as int) - ('0' as int)
  }

  /**
   * The decimal digits of n, most significant first: at least one digit and
   * no leading zero.
   */
  function Digits(n: nat): (s: string)
    ensures |s| >= 1 && (forall k :: 0 <= k < |s| ==> IsDigit(s[k]))
    ensures |s| > 1 ==> s[0] != '0'
    ensures n < 10 <==> |s| == 1
    decreases n
  {
    if n < 10 then [DigitChar(n)] else Digits(n / 10) + [DigitChar(n % 10)]
  }

  /** What `std::ostream << int` writes in the C locale: a '-' for a negative value, then its digits. */
  function IntToString(x: int): (s: string)
    ensures |s| >= 1
    ensures s[0] == '-' <==> x < 0
    ensures forall k :: (if x < 0 then 1 else 0) <= k < |s| ==> IsDigit(s[k])
    ensures var d := if x < 0 then 1 else 0; d < |s| && (|s| > d + 1 ==> s[d] != '0')
  {
    if x < 0 then "-" + Digits(-x) else Digits(x)
  }

  /** The value of a string of decimal digits (a reader, independent of Digits). */
  function DigitsValue(s: string): nat
    requires forall k :: 0 <= k < |s| ==> IsDigit(s[k])
  {
    if s == [] then 0 else DigitsValue(s[..|s| - 1]) * 10 + DigitValue(s[|s| - 1])
  }

  /** Reads an optionally signed decimal integer. */
  function ParseInt(s: string): int
    requires s != [] && forall k :: (if s[0] == '-' then 1 else 0) <= k < |s| ==> IsDigit(s[k])
  {
    if s[0] == '-' then -(DigitsValue(s[1..]) as int) else DigitsValue(s)
  }

  lemma {:induction false} DigitsRoundTrip(n: nat)
    ensures DigitsValue(Digits(n)) == n
    decreases n
  {
    if n >= 10 {
      var s := Digits(n);
      assert s[..|s| - 1] == Digits(n / 10);
      DigitsRoundTrip(n / 10);
    }
  }

  /** Reading back the decimal text of an integer gives the integer. */
  lemma IntRoundTrip(x: int)
    ensures ParseInt(IntToString(x)) == x
  {
    if x < 0 {
      assert IntToString(x)[1..] == Digits(-x);
      DigitsRoundTrip(-x);
    } else {
      DigitsRoundTrip(x);
    }
  }

  /** Distinct integers have distinct decimal texts. */
  lemma IntToStringInjective(x: int, y: int)
    requires IntToString(x) == IntToString(y)
    ensures x == y
  {
    IntRoundTrip(x);
    IntRoundTrip(y);
  }
}
