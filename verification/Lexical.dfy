/** Strings as the sorting and numbering code sees them: code-point order, decimal digits, zero padding, dashes. */
module Lexical {

  /** Code-point order, as string sorting uses it. */
  predicate Less(a: string, b: string) {
    if b == "" then false
    else if a == "" then true
    else if a[0] != b[0] then a[0] < b[0]
    else Less(a[1..], b[1..])
  }

  lemma {:induction false} LessIsTotal(a: string, b: string)
    ensures a == b || Less(a, b) || Less(b, a)
  {
    if a != "" && b != "" && a[0] == b[0] {
      LessIsTotal(a[1..], b[1..]);
      assert a[1..] == b[1..] ==> a == b by {
        assert a == [a[0]] + a[1..] && b == [b[0]] + b[1..];
      }
    }
  }

  lemma {:induction false} LessIsAsymmetric(a: string, b: string)
    requires Less(a, b)
    ensures !Less(b, a) && a != b
  {
    if a != "" && a[0] == b[0] {
      LessIsAsymmetric(a[1..], b[1..]);
    }
  }

  lemma {:induction false} LessIsTransitive(a: string, b: string, c: string)
    requires Less(a, b) && Less(b, c)
    ensures Less(a, c)
  {
    if a != "" && a[0] == b[0] && b[0] == c[0] {
      LessIsTransitive(a[1..], b[1..], c[1..]);
    }
  }

  lemma {:induction false} LessUnderPrefix(p: string, a: string, b: string)
    ensures Less(p + a, p + b) <==> Less(a, b)
  {
    if p == "" {
      assert p + a == a && p + b == b;
    } else {
      LessUnderPrefix(p[1..], a, b);
      assert (p + a)[1..] == p[1..] + a && (p + b)[1..] == p[1..] + b;
    }
  }

  /** Among strings of one length, the last character only decides between equal beginnings. */
  lemma {:induction false} LessByLast(a: string, b: string, x: char, y: char)
    requires |a| == |b|
    ensures Less(a + [x], b + [y]) <==> Less(a, b) || (a == b && x < y)
  {
    var s, t := a + [x], b + [y];
    if a == "" {
      assert s[1..] == "" && t[1..] == "";
    } else {
      assert s[0] == a[0] && t[0] == b[0];
      assert s[1..] == a[1..] + [x] && t[1..] == b[1..] + [y];
      LessByLast(a[1..], b[1..], x, y);
      assert a == b <==> a[0] == b[0] && a[1..] == b[1..] by {
        assert a == [a[0]] + a[1..] && b == [b[0]] + b[1..];
      }
    }
  }

  // ----- Decimal digits -----

  predicate IsDigit(c: char) {
    '0' <= c <= '9'
  }

  predicate AllDigits(s: string) {
    forall i | 0 <= i < |s| :: IsDigit(s[i])
  }

  function Digit(d: nat): (c: char)
    requires d < 10
    ensures IsDigit(c) && c as int - '0' as int == d
  {
    '0' + d as char
  }

  function Digits(n: nat): (s: string)
    ensures |s| > 0 && AllDigits(s)
  {
    if n < 10 then [Digit(n)] else Digits(n / 10) + [Digit(n % 10)]
  }

  /** The number a string of digits stands for. */
  function Value(s: string): nat
    requires AllDigits(s)
  {
    if s == "" then 0 else 10 * Value(s[..|s| - 1]) + (s[|s| - 1] as int - '0' as int)
  }

  function Zeros(n: nat): (s: string)
    ensures |s| == n && AllDigits(s)
  {
    seq(n, _ => '0')
  }

  /** Zero padding to a least width; longer numbers keep all their digits. */
  function Padded(n: nat, width: nat): (s: string)
    ensures |s| >= width && AllDigits(s)
  {
    var s := Digits(n);
    if |s| < width then Zeros(width - |s|) + s else s
  }

  lemma {:induction false} ValueOfDigits(n: nat)
    ensures Value(Digits(n)) == n
  {
    if n >= 10 {
      ValueOfDigits(n / 10);
      assert Digits(n)[..|Digits(n)| - 1] == Digits(n / 10);
    }
  }

  lemma {:induction false} LeadingZeros(k: nat, s: string)
    requires AllDigits(s)
    ensures Value(Zeros(k) + s) == Value(s)
    decreases k + |s|
  {
    if s == "" {
      assert Zeros(k) + s == Zeros(k);
      if k > 0 {
        assert Zeros(k)[..k - 1] == Zeros(k - 1) + "";
        LeadingZeros(k - 1, "");
      }
    } else {
      var init := s[..|s| - 1];
      LeadingZeros(k, init);
      assert (Zeros(k) + s)[..k + |s| - 1] == Zeros(k) + init;
    }
  }

  /** Reading back what was padded: the format loses nothing, so it is injective. */
  lemma ValueOfPadded(n: nat, width: nat)
    ensures Value(Padded(n, width)) == n
  {
    var s := Digits(n);
    ValueOfDigits(n);
    if |s| < width { LeadingZeros(width - |s|, s); }
  }

  /** Strings of digits of one length sort as the numbers they stand for. */
  lemma {:induction false} SameLengthSortsNumerically(a: string, b: string)
    requires |a| == |b| && AllDigits(a) && AllDigits(b)
    ensures Less(a, b) <==> Value(a) < Value(b)
    ensures a == b <==> Value(a) == Value(b)
  {
    if a != "" {
      var n := |a| - 1;
      SameLengthSortsNumerically(a[..n], b[..n]);
      assert a == a[..n] + [a[n]] && b == b[..n] + [b[n]];
      assert IsDigit(a[n]) && IsDigit(b[n]);
      LessByLast(a[..n], b[..n], a[n], b[n]);
    }
  }

  function Pow10(w: nat): nat {
    if w == 0 then 1 else 10 * Pow10(w - 1)
  }

  lemma {:induction false} DigitsFit(n: nat, width: nat)
    requires width > 0 && n < Pow10(width)
    ensures |Digits(n)| <= width
  {
    if n >= 10 {
      DigitsFit(n / 10, width - 1);
    }
  }

  lemma PaddedFits(n: nat, width: nat)
    requires width > 0 && n < Pow10(width)
    ensures |Padded(n, width)| == width
  {
    DigitsFit(n, width);
  }

  // ----- Parts between separators -----

  predicate Lacks(s: string, separator: char) {
    forall i | 0 <= i < |s| :: s[i] != separator
  }

  /** Everything before the first separator. */
  function BeforeFirst(s: string, separator: char): string {
    if s == "" || s[0] == separator then "" else [s[0]] + BeforeFirst(s[1..], separator)
  }

  /** The last part of a split at the separator. */
  function AfterLast(s: string, separator: char): string {
    if s == "" || s[|s| - 1] == separator then "" else AfterLast(s[..|s| - 1], separator) + [s[|s| - 1]]
  }

  lemma {:induction false} BeforeFirstOfJoin(a: string, separator: char, b: string)
    requires Lacks(a, separator)
    ensures BeforeFirst(a + [separator] + b, separator) == a
  {
    var s := a + [separator] + b;
    if a != "" {
      BeforeFirstOfJoin(a[1..], separator, b);
      assert s[1..] == a[1..] + [separator] + b;
      assert a == [a[0]] + a[1..];
    }
  }

  lemma {:induction false} AfterLastOfJoin(a: string, separator: char, b: string)
    requires Lacks(b, separator)
    ensures AfterLast(a + [separator] + b, separator) == b
  {
    var s := a + [separator] + b;
    if b != "" {
      AfterLastOfJoin(a, separator, b[..|b| - 1]);
      assert s[..|s| - 1] == a + [separator] + b[..|b| - 1];
      assert b == b[..|b| - 1] + [b[|b| - 1]];
    }
  }

  /** One part goes on, after a separator, where the other ends. */
  predicate GoesOn(longer: string, shorter: string, separator: char) {
    shorter + [separator] <= longer
  }

  lemma EqualJoins(a: string, b: string, c: string, d: string, separator: char)
    requires a + [separator] + b == c + [separator] + d && |a| <= |c|
    ensures (a == c && b == d) || GoesOn(c, a, separator)
  {
    var s, t := a + [separator] + b, c + [separator] + d;
    assert s[..|a|] == a && t[..|c|] == c && s[|a|] == separator == t[|c|];
    if |a| == |c| {
      assert s[|a| + 1..] == b && t[|c| + 1..] == d;
    } else {
      assert a + [separator] == s[..|a| + 1] == c[..|a| + 1];
    }
  }

  /** A join is read back uniquely when neither first part goes on from the other. */
  lemma JoinIsInjective(a: string, b: string, c: string, d: string, separator: char)
    requires !GoesOn(a, c, separator) && !GoesOn(c, a, separator)
    ensures a + [separator] + b == c + [separator] + d ==> a == c && b == d
  {
    if a + [separator] + b == c + [separator] + d {
      if |a| <= |c| { EqualJoins(a, b, c, d, separator); } else { EqualJoins(c, d, a, b, separator); }
    }
  }

  /** Two different first parts can be joined to one string exactly when one goes on from the other. */
  lemma JoinsMeetExactlyWhenOneGoesOn(a: string, c: string, separator: char)
    requires a != c
    ensures (exists b: string, d: string :: a + [separator] + b == c + [separator] + d)
            <==> GoesOn(a, c, separator) || GoesOn(c, a, separator)
  {
    if GoesOn(c, a, separator) {
      MeetingParts(a, c, separator, "");
    } else if GoesOn(a, c, separator) {
      MeetingParts(c, a, separator, "");
    } else {
      forall b: string, d: string
        ensures a + [separator] + b != c + [separator] + d
      {
        JoinIsInjective(a, b, c, d, separator);
      }
    }
  }

  lemma MeetingParts(shorter: string, longer: string, separator: char, rest: string)
    requires GoesOn(longer, shorter, separator)
    ensures shorter + [separator] + (longer[|shorter| + 1..] + [separator] + rest) == longer + [separator] + rest
  {
    assert longer == longer[..|shorter| + 1] + longer[|shorter| + 1..];
    assert longer[..|shorter| + 1] == shorter + [separator];
  }

  lemma GoingOnTakesASeparator(a: string, c: string, separator: char)
    requires GoesOn(a, c, separator)
    ensures !Lacks(a, separator)
  {
    assert a[|c|] == (c + [separator])[|c|];
  }
}
