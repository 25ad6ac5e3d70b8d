/** The two pieces of the JavaScript runtime the calendar's logic depends on:
    `String.prototype.trim`, which decides whether a team name or a password
    is blank and what the stored team name is, and the conversion of an
    integer to its decimal text, which the success message uses. */
module JsText {
  import opened Optional

  /** The code points ECMAScript classes as WhiteSpace or LineTerminator:
      exactly the ones `trim` removes from either end of a string. */
  predicate IsJsWhitespace(c: char) {
    || c == '\t' || c == '\n' || c == '\U{000B}' || c == '\U{000C}' || c == '\r'
    || c == ' ' || c == '\U{00A0}' || c == '\U{1680}'
    || ('\U{2000}' <= c <= '\U{200A}')
    || c == '\U{2028}' || c == '\U{2029}' || c == '\U{202F}' || c == '\U{205F}'
    || c == '\U{3000}' || c == '\U{FEFF}'
  }

  predicate AllWhitespace(s: string) {
    forall i :: 0 <= i < |s| ==> IsJsWhitespace(s[i])
  }

  /** The length of the longest whitespace prefix of `s`. */
  function LeadingWhitespace(s: string): (k: nat)
    ensures k <= |s|
    ensures AllWhitespace(s[..k])
    ensures k < |s| ==> !IsJsWhitespace(s[k])
  {
    if |s| > 0 && IsJsWhitespace(s[0]) then 1 + LeadingWhitespace(s[1..]) else 0
  }

  /** The length of the longest whitespace suffix of `s`. */
  function TrailingWhitespace(s: string): (k: nat)
    ensures k <= |s|
    ensures AllWhitespace(s[|s| - k..])
    ensures k < |s| ==> !IsJsWhitespace(s[|s| - 1 - k])
  {
    if |s| > 0 && IsJsWhitespace(s[|s| - 1]) then 1 + TrailingWhitespace(s[..|s| - 1]) else 0
  }

  /** `s.trim()`: `s` without its whitespace prefix and suffix. The result is
      the slice of `s` that starts after the leading whitespace, everything
      after it is whitespace, and it neither starts nor ends with whitespace. */
  function Trim(s: string): (r: string)
    ensures LeadingWhitespace(s) + |r| <= |s|
    ensures r == s[LeadingWhitespace(s)..LeadingWhitespace(s) + |r|]
    ensures AllWhitespace(s[LeadingWhitespace(s) + |r|..])
    ensures r != [] ==> !IsJsWhitespace(r[0]) && !IsJsWhitespace(r[|r| - 1])
  {
    var rest := s[LeadingWhitespace(s)..];
    rest[..|rest| - TrailingWhitespace(rest)]
  }

  /** A string trims to nothing exactly when every character of it is
      whitespace. */
  lemma BlankIffAllWhitespace(s: string)
    ensures Trim(s) == [] <==> AllWhitespace(s)
  {
    var k := LeadingWhitespace(s);
    if Trim(s) == [] {
      forall i | 0 <= i < |s| ensures IsJsWhitespace(s[i]) {
        assert s[..k][i] == s[i];
      }
    }
  }

  /** `!s.trim()`: the trimmed string is the empty, falsy string, which is
      the case exactly when `s` is all whitespace (the empty string included). */
  predicate IsBlank(s: string): (b: bool)
    ensures b <==> AllWhitespace(s)
  {
    BlankIffAllWhitespace(s);
    Trim(s) == []
  }

  /** A string that neither starts nor ends with whitespace is its own trim,
      and is not blank unless it is empty. */
  lemma TrimOfTrimmed(s: string)
    requires s != [] ==> !IsJsWhitespace(s[0]) && !IsJsWhitespace(s[|s| - 1])
    ensures Trim(s) == s
  {
    if s != [] {
      assert LeadingWhitespace(s) == 0;
      assert TrailingWhitespace(s) == 0;
    }
  }

  /** Trimming twice is trimming once. */
  lemma TrimIdempotent(s: string)
    ensures Trim(Trim(s)) == Trim(s)
  {
    TrimOfTrimmed(Trim(s));
  }

  lemma {:induction false} LeadingPadding(pre: string, s: string)
    requires AllWhitespace(pre)
    requires s != [] ==> !IsJsWhitespace(s[0])
    ensures LeadingWhitespace(pre + s) == |pre|
  {
    if pre != [] {
      assert (pre + s)[1..] == pre[1..] + s;
      LeadingPadding(pre[1..], s);
    }
  }

  lemma {:induction false} TrailingPadding(s: string, post: string)
    requires AllWhitespace(post)
    requires s != [] ==> !IsJsWhitespace(s[|s| - 1])
    ensures TrailingWhitespace(s + post) == |post|
  {
    if post != [] {
      var last := |post| - 1;
      assert (s + post)[..|s + post| - 1] == s + post[..last];
      TrailingPadding(s, post[..last]);
    }
  }

  /** Whitespace padding on either side of a string that neither starts nor
      ends with whitespace is exactly what `trim` removes. */
  lemma TrimStripsPadding(pre: string, s: string, post: string)
    requires AllWhitespace(pre) && AllWhitespace(post)
    requires s != [] && !IsJsWhitespace(s[0]) && !IsJsWhitespace(s[|s| - 1])
    ensures Trim(pre + s + post) == s
  {
    assert pre + s + post == pre + (s + post);
    LeadingPadding(pre, s + post);
    assert (pre + (s + post))[|pre|..] == s + post;
    TrailingPadding(s, post);
    assert (s + post)[..|s|] == s;
  }

  predicate IsDigit(c: char) {
    '0' <= c <= '9'
  }

  predicate AllDigits(s: string) {
    forall i :: 0 <= i < |s| ==> IsDigit(s[i])
  }

  function DigitChar(d: nat): (c: char)
    requires d < 10
    ensures IsDigit(c) && c as int - '0' as int == d
  {
    ('0' as int + d) as char
  }

  /** The decimal text of a natural number: digits only, no leading zero. */
  function NatToDecimal(n: nat): (r: string)
    ensures |r| > 0 && AllDigits(r)
    ensures r[0] == '0' ==> n == 0
    decreases n
  {
    if n < 10 then [DigitChar(n)] else NatToDecimal(n / 10) + [DigitChar(n % 10)]
  }

  /** The number a string of digits denotes. */
  function ParseNat(s: string): nat
    requires AllDigits(s)
  {
    if s == [] then 0 else 10 * ParseNat(s[..|s| - 1]) + (s[|s| - 1] as int - '0' as int)
  }

  /** The integer a decimal text denotes, if it is one. */
  function ParseInt(s: string): Option<int> {
    if |s| >= 2 && s[0] == '-' && AllDigits(s[1..]) then Some(0 - ParseNat(s[1..]) as int)
    else if |s| >= 1 && AllDigits(s) then Some(ParseNat(s))
    else None
  }

  lemma {:induction false} NatToDecimalRoundTrip(n: nat)
    ensures ParseNat(NatToDecimal(n)) == n
    decreases n
  {
    var s := NatToDecimal(n);
    if n < 10 {
      assert s[..|s| - 1] == [];
    } else {
      var head := NatToDecimal(n / 10);
      assert s[..|s| - 1] == head;
      NatToDecimalRoundTrip(n / 10);
    }
  }

  /** A run of digits, with a minus sign in front when `negative`, reads
      back as the number it writes; it has no space and is not "null". */
  lemma SignedDigitsRead(negative: bool, m: nat)
    requires negative ==> m > 0
    ensures var s := if negative then "-" + NatToDecimal(m) else NatToDecimal(m);
            && ParseInt(s) == Some(if negative then 0 - m as int else m as int)
            && ' ' !in s
            && s != "null"
  {
    var s := if negative then "-" + NatToDecimal(m) else NatToDecimal(m);
    NatToDecimalRoundTrip(m);
    if negative {
      assert s[1..] == NatToDecimal(m);
    } else {
      assert s[0] != 'n';
    }
    assert forall i :: 0 <= i < |s| ==> s[i] != ' ' by {
      forall i | 0 <= i < |s| ensures s[i] != ' ' {
        if negative && i > 0 {
          assert s[i] == s[1..][i - 1];
        }
      }
    }
  }

  /** JavaScript's conversion of an integral number to a string, as in
      `"+" + points`: a minus sign for a negative value, then its digits with
      no leading zero. The text reads back as `n`, contains no space and is
      never the text "null". (Magnitudes of 10^21 and more, which JavaScript
      writes with an exponent, are not modelled.) */
  function IntToDecimal(n: int): (r: string)
    ensures ParseInt(r) == Some(n)
    ensures ' ' !in r
    ensures r != "null"
  {
    SignedDigitsRead(n < 0, if n < 0 then -n else n);
    if n < 0 then "-" + NatToDecimal(-n) else NatToDecimal(n)
  }
}
