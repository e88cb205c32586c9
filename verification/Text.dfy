/** Text conventions shared by the claim programs: decimal numerals, separators and the code-point order of strings. */
module Text {

  predicate IsDigit(c: char) {
    '0' <= c <= '9'
  }

  predicate AllDigits(s: string) {
    forall i :: 0 <= i < |s| ==> IsDigit(s[i])
  }

  function DigitValue(c: char): nat
    requires IsDigit(c)
  {
    c as int - '0' as int
  }

  /** `str(n)` of a non-negative integer. */
  function Decimal(n: nat): string {
    if n < 10 then [('0' as int + n) as char]
    else Decimal(n / 10) + [('0' as int + n % 10) as char]
  }

  /** `int(s, 10)` of a text made of digits only. */
  function ValueOf(s: string): nat
    requires AllDigits(s)
  {
    if s == "" then 0 else 10 * ValueOf(s[..|s| - 1]) + DigitValue(s[|s| - 1])
  }

  /** The admitted numerals: no sign, no leading zero, at most 20 digits. */
  predicate IsDecimal(s: string) {
    1 <= |s| <= 20 && s[0] != '0' && AllDigits(s)
  }

  function Pow10(k: nat): nat {
    if k == 0 then 1 else 10 * Pow10(k - 1)
  }

  lemma {:induction false} DecimalReadsBack(n: nat)
    ensures AllDigits(Decimal(n)) && ValueOf(Decimal(n)) == n
    ensures Decimal(n)[0] == '0' <==> n == 0
  {
    if n >= 10 {
      DecimalReadsBack(n / 10);
      var d := Decimal(n);
      assert d[..|d| - 1] == Decimal(n / 10);
    } else {
      assert Decimal(n)[..0] == "";
    }
  }

  lemma {:induction false} DecimalLength(n: nat, k: nat)
    requires 1 <= k && n < Pow10(k)
    ensures 1 <= |Decimal(n)| <= k
  {
    if n < 10 {
    } else {
      assert k != 1 by { assert Pow10(1) == 10; }
      DecimalLength(n / 10, k - 1);
    }
  }

  /** Every count below 10^20 prints as an admitted numeral; 2^64 is below that bound. */
  lemma DecimalIsAdmitted(n: nat)
    requires 1 <= n < 0x1_0000_0000_0000_0000
    ensures IsDecimal(Decimal(n)) && ValueOf(Decimal(n)) == n
  {
    DecimalReadsBack(n);
    assert Pow10(5) == 100000;
    assert Pow10(10) == 10000000000 by { assert Pow10(7) == 100 * Pow10(5); }
    assert Pow10(15) == 1000000000000000 by { assert Pow10(12) == 100 * Pow10(10); }
    assert Pow10(20) == 100000000000000000000 by { assert Pow10(17) == 100 * Pow10(15); }
    DecimalLength(n, 20);
  }

  function Split(s: string, separator: char): (parts: seq<string>)
    ensures parts != []
  {
    if s == "" then [""]
    else if s[0] == separator then [""] + Split(s[1..], separator)
    else
      var rest := Split(s[1..], separator);
      [[s[0]] + rest[0]] + rest[1..]
  }

  function Join(parts: seq<string>, separator: char): string
    requires parts != []
  {
    if |parts| == 1 then parts[0] else parts[0] + [separator] + Join(parts[1..], separator)
  }

  lemma {:induction false} JoinAfterSplit(s: string, separator: char)
    ensures Join(Split(s, separator), separator) == s
  {
    if s == "" {
    } else {
      JoinAfterSplit(s[1..], separator);
      var rest := Split(s[1..], separator);
      if s[0] == separator {
        assert ([""] + rest)[1..] == rest;
      } else if |rest| > 1 {
        assert ([[s[0]] + rest[0]] + rest[1..])[1..] == rest[1..];
      }
    }
  }

  lemma {:induction false} SplitAfterJoin(parts: seq<string>, separator: char)
    requires parts != [] && forall i :: 0 <= i < |parts| ==> separator !in parts[i]
    ensures Split(Join(parts, separator), separator) == parts
    decreases |parts|, |parts[0]|
  {
    var head := parts[0];
    if head == "" {
      if |parts| > 1 {
        SplitAfterJoin(parts[1..], separator);
        assert Join(parts, separator)[1..] == Join(parts[1..], separator);
      }
    } else {
      var smaller := parts[0 := head[1..]];
      SplitAfterJoin(smaller, separator);
      assert smaller[1..] == parts[1..];
      var joined := Join(parts, separator);
      assert joined[0] == head[0] && joined[1..] == Join(smaller, separator);
      assert head[0] in head && head == [head[0]] + head[1..];
      assert parts == [head] + parts[1..];
    }
  }

  /** Python's order on strings: by code point, shorter first on a tie. */
  predicate Less(a: string, b: string) {
    b != "" && (a == "" || a[0] < b[0] || (a[0] == b[0] && Less(a[1..], b[1..])))
  }

  lemma {:induction false} LessIsTotal(a: string, b: string)
    ensures a == b || Less(a, b) || Less(b, a)
    ensures !(Less(a, b) && Less(b, a)) && !Less(a, a)
  {
    if a == "" {
    } else {
      LessIsTotal(a[1..], a[1..]);
      if b != "" {
        LessIsTotal(a[1..], b[1..]);
        assert a == [a[0]] + a[1..] && b == [b[0]] + b[1..];
      }
    }
  }

  lemma {:induction false} LessIsTransitive(a: string, b: string, c: string)
    requires Less(a, b) && Less(b, c)
    ensures Less(a, c)
  {
    if a == "" || a[0] != b[0] || b[0] != c[0] {
    } else {
      LessIsTransitive(a[1..], b[1..], c[1..]);
    }
  }

  /** The first place where two strings differ decides; if there is none, the shorter one comes first. */
  lemma {:induction false} LessByFirstDifference(common: string, x: char, y: char, a: string, b: string)
    ensures x < y ==> Less(common + [x] + a, common + [y] + b)
    ensures Less(common, common + [x] + a)
  {
    if common == "" {
    } else {
      LessByFirstDifference(common[1..], x, y, a, b);
      assert (common + [x] + a)[1..] == common[1..] + [x] + a;
      assert (common + [y] + b)[1..] == common[1..] + [y] + b;
    }
  }

  lemma PrefixGrows<T>(s: seq<T>, i: nat)
    requires i < |s|
    ensures s[..i + 1] == s[..i] + [s[i]]
  {}

  lemma WholePrefix<T>(s: seq<T>)
    ensures s[..|s|] == s
  {}
}
