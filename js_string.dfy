/**
 * The pieces of JavaScript string semantics the two handlers rely on:
 * truthiness of an optional string, String.prototype.trim, parseInt and the
 * decimal rendering of an integer, plus substring predicates used to state
 * properties about them.
 */
module JsString {
  import opened Wrappers

  /** JavaScript truthiness of a value that is absent or a string: only a non-empty string is truthy. */
  predicate Truthy(v: Option<string>)
    ensures !Truthy(v) <==> v == None || v == Some("")
  {
    v.Some? && v.value != ""
  }

  // ---------------------------------------------------------------------------
  // Substrings
  // ---------------------------------------------------------------------------

  predicate StartsWith(s: string, p: string) {
    |p| <= |s| && s[..|p|] == p
  }

  /** p occurs in s starting at index i. */
  predicate OccursAt(s: string, p: string, i: int) {
    0 <= i <= |s| - |p| && s[i..i + |p|] == p
  }

  predicate Contains(s: string, p: string) {
    exists i | 0 <= i <= |s| - |p| :: OccursAt(s, p, i)
  }

  lemma StartsWithOccursAtZero(s: string, p: string)
    ensures StartsWith(s, p) <==> OccursAt(s, p, 0)
  {
    if |p| <= |s| {
      assert s[..|p|] == s[0..|p|];
    }
  }

  /** A slice of a string in which p does not occur has no occurrence of p either. */
  lemma NotContainedInSlice(s: string, p: string, i: int, j: int)
    requires 0 <= i <= j <= |s|
    requires !Contains(s, p)
    ensures !Contains(s[i..j], p)
  {
    forall k | 0 <= k <= (j - i) - |p| && OccursAt(s[i..j], p, k)
      ensures OccursAt(s, p, i + k)
    {
      var a, b := s[i..j][k..k + |p|], s[i + k..i + k + |p|];
      assert forall m :: 0 <= m < |p| ==> a[m] == b[m];
    }
  }

  /** Occurrences in c + d either start at 0 or lie wholly within d. */
  lemma NotContainedCons(c: char, d: string, p: string)
    requires !Contains(d, p)
    requires !StartsWith([c] + d, p)
    ensures !Contains([c] + d, p)
  {
    StartsWithOccursAtZero([c] + d, p);
    forall k | 0 <= k <= |[c] + d| - |p| && OccursAt([c] + d, p, k)
      ensures OccursAt(d, p, k - 1)
    {
      assert ([c] + d)[k..k + |p|] == d[k - 1..k - 1 + |p|];
    }
  }

  /** p + q occurring in s means p occurs there too. */
  lemma ExtensionContained(s: string, p: string, q: string)
    requires Contains(s, p + q)
    ensures Contains(s, p)
  {
    var i :| 0 <= i <= |s| - |p + q| && OccursAt(s, p + q, i);
    assert s[i..i + |p|] == s[i..i + |p + q|][..|p|];
    assert OccursAt(s, p, i);
  }

  /** The last piece of a concatenation occurs in it. */
  lemma ContainsAtEnd(a: string, b: string)
    ensures Contains(a + b, b)
  {
    assert (a + b)[|a|..|a| + |b|] == b;
    assert OccursAt(a + b, b, |a|);
  }

  /** Appending text keeps every occurrence. */
  lemma ContainsAppend(s: string, p: string, q: string)
    requires Contains(s, p)
    ensures Contains(s + q, p)
  {
    var i :| 0 <= i <= |s| - |p| && OccursAt(s, p, i);
    assert (s + q)[i..i + |p|] == s[i..i + |p|];
    assert OccursAt(s + q, p, i);
  }

  /** Appending text keeps every prefix. */
  lemma StartsWithAppend(s: string, p: string, q: string)
    requires StartsWith(s, p)
    ensures StartsWith(s + q, p)
  {
    assert (s + q)[..|p|] == s[..|p|];
  }

  // ---------------------------------------------------------------------------
  // String.prototype.trim
  // ---------------------------------------------------------------------------

  /** The code points ECMAScript counts as WhiteSpace or LineTerminator. */
  predicate IsWhitespace(c: char)
    ensures IsWhitespace(c) ==> c !in "+-" && DigitValue(c, 36).None?
  {
    || c == '\t' || c == '\n' || c == '\U{000B}' || c == '\U{000C}' || c == '\r' || c == ' '
    || c == '\U{00A0}' || c == '\U{1680}' || ('\U{2000}' <= c <= '\U{200A}')
    || c == '\U{2028}' || c == '\U{2029}' || c == '\U{202F}' || c == '\U{205F}'
    || c == '\U{3000}' || c == '\U{FEFF}'
  }

  /** Neither end of s is whitespace. */
  predicate Trimmed(s: string) {
    s == [] || (!IsWhitespace(s[0]) && !IsWhitespace(s[|s| - 1]))
  }

  predicate AllWhitespace(s: string) {
    forall k :: 0 <= k < |s| ==> IsWhitespace(s[k])
  }

  /** How many whitespace characters s starts with. */
  function LeadingWhitespace(s: string): (n: nat)
    ensures n <= |s| && (n < |s| ==> !IsWhitespace(s[n]))
  {
    if s != [] && IsWhitespace(s[0]) then 1 + LeadingWhitespace(s[1..]) else 0
  }

  /** How many whitespace characters s ends with. */
  function TrailingWhitespace(s: string): (n: nat)
    ensures n <= |s| && (n < |s| ==> !IsWhitespace(s[|s| - 1 - n]))
  {
    if s != [] && IsWhitespace(s[|s| - 1]) then 1 + TrailingWhitespace(s[..|s| - 1]) else 0
  }

  /** The leading run LeadingWhitespace counts is all whitespace. */
  lemma {:induction false} LeadingRunIsWhitespace(s: string)
    ensures AllWhitespace(s[..LeadingWhitespace(s)])
  {
    if s != [] && IsWhitespace(s[0]) {
      LeadingRunIsWhitespace(s[1..]);
      assert s[..LeadingWhitespace(s)] == [s[0]] + s[1..][..LeadingWhitespace(s[1..])];
    }
  }

  /** The trailing run TrailingWhitespace counts is all whitespace. */
  lemma {:induction false} TrailingRunIsWhitespace(s: string)
    ensures AllWhitespace(s[|s| - TrailingWhitespace(s)..])
  {
    if s != [] && IsWhitespace(s[|s| - 1]) {
      var u := s[..|s| - 1];
      TrailingRunIsWhitespace(u);
      SuffixOfInit(s, |s| - TrailingWhitespace(s));
      WhitespaceAppendChar(u[|s| - TrailingWhitespace(s)..], s[|s| - 1]);
    }
  }

  /** A suffix of s that is not empty is the same suffix of s without its last character, then that character. */
  lemma SuffixOfInit(s: string, m: nat)
    requires m < |s|
    ensures s[m..] == s[..|s| - 1][m..] + [s[|s| - 1]]
  {
  }

  lemma WhitespaceAppendChar(a: string, c: char)
    requires AllWhitespace(a) && IsWhitespace(c)
    ensures AllWhitespace(a + [c])
  {
    var b := a + [c];
    forall k | 0 <= k < |b|
      ensures IsWhitespace(b[k])
    {
      if k < |a| {
        assert b[k] == a[k];
      }
    }
  }

  /** s without its leading whitespace, as parseInt skips it. */
  function TrimStart(s: string): string {
    s[LeadingWhitespace(s)..]
  }

  /** r is s[i..i + |r|] with only whitespace cut off on either side. */
  predicate TrimmedFrom(s: string, r: string, i: int) {
    && 0 <= i <= |s| - |r|
    && r == s[i..i + |r|]
    && AllWhitespace(s[..i])
    && AllWhitespace(s[i + |r|..])
  }

  /** t without its trailing whitespace. */
  function TrimEnd(t: string): string {
    t[..|t| - TrailingWhitespace(t)]
  }

  /** String.prototype.trim: leading and trailing whitespace removed, neither end left as whitespace. */
  function Trim(s: string): (r: string)
    ensures Trimmed(r)
  {
    TrimEnd(TrimStart(s))
  }

  /** What trim keeps is a slice of s with only whitespace before and after it. */
  lemma TrimCutsWhitespace(s: string)
    ensures TrimmedFrom(s, Trim(s), LeadingWhitespace(s))
  {
    LeadingRunIsWhitespace(s);
    TrimIsSlice(s);
    TrimTailIsWhitespace(s);
  }

  lemma TrimIsSlice(s: string)
    ensures LeadingWhitespace(s) + |Trim(s)| <= |s|
    ensures Trim(s) == s[LeadingWhitespace(s)..LeadingWhitespace(s) + |Trim(s)|]
  {
  }

  lemma TrimTailIsWhitespace(s: string)
    ensures LeadingWhitespace(s) + |Trim(s)| <= |s|
    ensures AllWhitespace(s[LeadingWhitespace(s) + |Trim(s)|..])
  {
    var t := TrimStart(s);
    TrimEndTail(t);
    WhitespaceSuffix(s, LeadingWhitespace(s), |TrimEnd(t)|, t);
  }

  /** What the trailing trim cuts off is whitespace. */
  lemma TrimEndTail(t: string)
    ensures |TrimEnd(t)| <= |t| && AllWhitespace(t[|TrimEnd(t)|..])
  {
    TrailingRunIsWhitespace(t);
  }

  /** Whitespace after position m of the suffix t = s[i..] is whitespace after position i + m of s. */
  lemma WhitespaceSuffix(s: string, i: nat, m: nat, t: string)
    requires i + m <= |s| && t == s[i..] && AllWhitespace(t[m..])
    ensures AllWhitespace(s[i + m..])
  {
    var u := s[i + m..];
    forall k | 0 <= k < |u|
      ensures IsWhitespace(u[k])
    {
      assert u[k] == t[m..][k];
    }
  }

  /** Trimming text whose ends are not whitespace changes nothing. */
  lemma TrimOfTrimmed(s: string)
    requires Trimmed(s)
    ensures Trim(s) == s
  {
  }

  lemma TrimIdempotent(s: string)
    ensures Trim(Trim(s)) == Trim(s)
  {
    TrimOfTrimmed(Trim(s));
  }

  /** Trimming never brings an absent substring into existence. */
  lemma TrimKeepsAbsence(s: string, p: string)
    requires !Contains(s, p)
    ensures !Contains(Trim(s), p)
  {
    var i := LeadingWhitespace(s);
    var t := s[i..];
    assert Trim(s) == s[i..i + |Trim(s)|];
    NotContainedInSlice(s, p, i, i + |Trim(s)|);
  }

  /** Appending text after a non-blank x leaves its leading whitespace alone. */
  lemma {:induction false} LeadingWhitespaceAppend(x: string, y: string)
    ensures LeadingWhitespace(x) < |x| ==> LeadingWhitespace(x + y) == LeadingWhitespace(x)
    ensures LeadingWhitespace(x) == |x| ==> LeadingWhitespace(x + y) == |x| + LeadingWhitespace(y)
  {
    if x == [] {
      assert x + y == y;
    } else if IsWhitespace(x[0]) {
      assert (x + y)[1..] == x[1..] + y;
      LeadingWhitespaceAppend(x[1..], y);
    }
  }

  /** A trailing newline does not change the trimmed text. */
  lemma TrimDropsTrailingNewline(x: string)
    ensures Trim(x + "\n") == Trim(x)
  {
    LeadingWhitespaceAppend(x, "\n");
    if LeadingWhitespace(x) < |x| {
      TrimNewlineAfterText(x);
    } else {
      TrimNewlineAfterBlank(x);
    }
  }

  lemma TrimNewlineAfterText(x: string)
    requires LeadingWhitespace(x) < |x|
    requires LeadingWhitespace(x + "\n") == LeadingWhitespace(x)
    ensures Trim(x + "\n") == Trim(x)
  {
    DropOfAppend(x, "\n", LeadingWhitespace(x));
    TrimEndNewline(TrimStart(x));
  }

  /** Dropping a prefix of x from x + y leaves the rest of x, then y. */
  lemma DropOfAppend(x: string, y: string, i: nat)
    requires i <= |x|
    ensures (x + y)[i..] == x[i..] + y
  {
  }

  /** A newline appended to t is the first thing its trailing trim removes. */
  lemma TrimEndNewline(t: string)
    ensures TrimEnd(t + "\n") == TrimEnd(t)
  {
    var u := t + "\n";
    assert u[..|u| - 1] == t;
    assert TrailingWhitespace(u) == 1 + TrailingWhitespace(t);
    assert u[..|t| - TrailingWhitespace(t)] == t[..|t| - TrailingWhitespace(t)];
  }

  lemma TrimNewlineAfterBlank(x: string)
    requires LeadingWhitespace(x) == |x|
    requires LeadingWhitespace(x + "\n") == |x| + LeadingWhitespace("\n")
    ensures Trim(x + "\n") == Trim(x)
  {
    assert LeadingWhitespace("\n") == 1 by {
      assert "\n"[1..] == [];
    }
    assert TrimStart(x + "\n") == [];
    assert TrimStart(x) == [];
  }


  // ---------------------------------------------------------------------------
  // parseInt
  // ---------------------------------------------------------------------------

  /** The value of c as a digit in the given radix, as parseInt reads letters (a/A = 10, ...). */
  function DigitValue(c: char, radix: nat): (d: Option<nat>)
    requires 2 <= radix <= 36
    ensures d.Some? ==> d.value < radix
    ensures ('0' <= c <= '9' && (c as int) - ('0' as int) < radix) ==> d == Some((c as int) - ('0' as int))
  {
    var v :=
      if '0' <= c <= '9' then (c as int) - ('0' as int)
      else if 'a' <= c <= 'z' then (c as int) - ('a' as int) + 10
      else if 'A' <= c <= 'Z' then (c as int) - ('A' as int) + 10
      else 36;
    if v < radix then Some(v) else None
  }

  predicate AllDigits(s: string, radix: nat)
    requires 2 <= radix <= 36
  {
    forall k :: 0 <= k < |s| ==> DigitValue(s[k], radix).Some?
  }

  /** Length of the longest prefix of s made of radix digits. */
  function DigitPrefixLength(s: string, radix: nat): (n: nat)
    requires 2 <= radix <= 36
    ensures n <= |s| && AllDigits(s[..n], radix)
    ensures n == |s| || DigitValue(s[n], radix).None?
  {
    if s == [] || DigitValue(s[0], radix).None? then 0
    else
      var n := 1 + DigitPrefixLength(s[1..], radix);
      assert s[..n] == [s[0]] + s[1..][..n - 1];
      n
  }

  /** Every prefix of a run of digits is a run of digits. */
  lemma DigitsPrefix(s: string, radix: nat, n: nat)
    requires 2 <= radix <= 36 && AllDigits(s, radix) && n <= |s|
    ensures AllDigits(s[..n], radix)
  {
    forall k | 0 <= k < n
      ensures DigitValue(s[..n][k], radix).Some?
    {
      assert s[..n][k] == s[k];
    }
  }

  /** The number a string of radix digits denotes, most significant first. */
  function DigitsValue(s: string, radix: nat): nat
    requires 2 <= radix <= 36 && AllDigits(s, radix)
  {
    if s == [] then 0
    else
      DigitsPrefix(s, radix, |s| - 1);
      var high := DigitsValue(s[..|s| - 1], radix);
      assert high * radix >= 0;
      high * radix + DigitValue(s[|s| - 1], radix).value
  }

  /**
   * parseInt(s) with no radix argument: skip leading whitespace, read an
   * optional sign, then an unsigned numeral; None stands for NaN. A number
   * comes out only when the first character after the whitespace is a sign
   * or a digit, and a negative one only after a minus sign.
   */
  function ParseInt(s: string): (r: Option<int>)
    ensures r.Some? ==>
      && LeadingWhitespace(s) < |s|
      && (s[LeadingWhitespace(s)] in "+-" || DigitValue(s[LeadingWhitespace(s)], 10).Some?)
    ensures r.Some? && r.value < 0 ==> s[LeadingWhitespace(s)] == '-'
  {
    ParseSigned(TrimStart(s))
  }

  /** parseInt after the leading whitespace: an optional sign, then an unsigned numeral. */
  function ParseSigned(t: string): (r: Option<int>)
    ensures r.Some? ==> t != [] && (t[0] in "+-" || DigitValue(t[0], 10).Some?)
    ensures r.Some? && r.value < 0 ==> t[0] == '-'
    ensures r.Some? && t[0] == '-' ==> r.value <= 0
  {
    var u := if t != [] && (t[0] == '-' || t[0] == '+') then t[1..] else t;
    match ParseUnsigned(u)
    case None => None
    case Some(m) =>
      var v: int := m;
      Some(if t != [] && t[0] == '-' then -v else v)
  }

  /** u starts with the "0x" or "0X" that switches parseInt to radix 16. */
  predicate HexPrefixed(u: string) {
    |u| >= 2 && u[0] == '0' && (u[1] == 'x' || u[1] == 'X')
  }

  /**
   * The unsigned part of parseInt: radix 16 after a "0x"/"0X" prefix and
   * radix 10 otherwise, reading the longest run of digits. It is NaN exactly
   * when no digit of the chosen radix follows the prefix.
   */
  function ParseUnsigned(u: string): (r: Option<nat>)
    ensures r.Some? <==>
      if HexPrefixed(u) then |u| > 2 && DigitValue(u[2], 16).Some?
      else u != [] && DigitValue(u[0], 10).Some?
  {
    var hex := HexPrefixed(u);
    var radix := if hex then 16 else 10;
    var digits := if hex then u[2..] else u;
    var n := DigitPrefixLength(digits, radix);
    if n == 0 then None else Some(DigitsValue(digits[..n], radix))
  }

  /** Leading whitespace, however long, does not change what parseInt reads. */
  lemma ParseIntSkipsWhitespace(w: string, s: string)
    requires AllWhitespace(w)
    ensures ParseInt(w + s) == ParseInt(s)
  {
    BlankIsLeadingWhitespace(w);
    LeadingWhitespaceAppend(w, s);
    DropOfAppendPrefix(w, s, LeadingWhitespace(s));
  }

  lemma {:induction false} BlankIsLeadingWhitespace(w: string)
    requires AllWhitespace(w)
    ensures LeadingWhitespace(w) == |w|
  {
    if w != [] {
      assert IsWhitespace(w[0]);
      assert AllWhitespace(w[1..]) by {
        forall k | 0 <= k < |w[1..]|
          ensures IsWhitespace(w[1..][k])
        {
          assert w[1..][k] == w[k + 1];
        }
      }
      BlankIsLeadingWhitespace(w[1..]);
    }
  }

  /** Dropping w and then i more characters from w + s drops i characters from s. */
  lemma DropOfAppendPrefix(w: string, s: string, i: nat)
    requires i <= |s|
    ensures (w + s)[|w| + i..] == s[i..]
  {
  }

  // ---------------------------------------------------------------------------
  // Number to string
  // ---------------------------------------------------------------------------

  function DecimalDigit(d: nat): (c: char)
    requires d < 10
    ensures DigitValue(c, 10) == Some(d)
  {
    (('0' as int) + d) as char
  }

  /** Decimal numeral of n, without leading zeros. */
  function NatToDecimal(n: nat): (s: string)
    ensures |s| > 0 && AllDigits(s, 10)
    ensures s[0] == '0' <==> n == 0
    ensures n == 0 ==> s == "0"
  {
    if n < 10 then [DecimalDigit(n)]
    else NatToDecimal(n / 10) + [DecimalDigit(n % 10)]
  }

  /**
   * How a JavaScript number that is an integer turns into a string (`${n}`,
   * '' + n): a minus sign exactly for negative numbers, then decimal digits.
   */
  function IntToDecimal(n: int): (r: string)
    ensures |r| > 0 && (r[0] == '-' <==> n < 0)
    ensures AllDigits(r[if n < 0 then 1 else 0..], 10)
  {
    if n < 0 then
      var d := NatToDecimal(-n);
      assert ("-" + d)[1..] == d;
      "-" + d
    else
      var d := NatToDecimal(n);
      assert DigitValue(d[0], 10).Some?;
      assert d[0..] == d;
      d
  }

  lemma {:induction false} NatToDecimalValue(n: nat)
    ensures DigitsValue(NatToDecimal(n), 10) == n
  {
    var s := NatToDecimal(n);
    if n >= 10 {
      NatToDecimalValue(n / 10);
      assert s[..|s| - 1] == NatToDecimal(n / 10);
    }
  }

  /** A run of digits followed by a non-digit is read up to the non-digit. */
  lemma {:induction false} DigitPrefixOfDigits(a: string, t: string, radix: nat)
    requires 2 <= radix <= 36 && AllDigits(a, radix)
    requires t == [] || DigitValue(t[0], radix).None?
    ensures DigitPrefixLength(a + t, radix) == |a|
  {
    if a == [] {
      assert a + t == t;
    } else {
      assert (a + t)[1..] == a[1..] + t;
      DigitPrefixOfDigits(a[1..], t, radix);
    }
  }

  /** The unsigned reader reads back a decimal numeral up to the first non-digit. */
  lemma ParseUnsignedOfDecimal(m: nat, t: string)
    requires t == [] || (DigitValue(t[0], 10).None? && t[0] != 'x' && t[0] != 'X')
    ensures ParseUnsigned(NatToDecimal(m) + t) == Some(m)
  {
    var d := NatToDecimal(m);
    var u := d + t;
    assert !HexPrefixed(u) by {
      if m == 0 { assert u == "0" + t; }
    }
    DigitPrefixOfDigits(d, t, 10);
    assert u[..|d|] == d;
    NatToDecimalValue(m);
  }

  lemma ParseSignedMinus(u: string, m: nat)
    requires ParseUnsigned(u) == Some(m)
    ensures ParseSigned("-" + u) == Some(-(m as int))
  {
    assert ("-" + u)[1..] == u;
  }

  lemma ParseSignedDigit(u: string)
    requires u != [] && '0' <= u[0] <= '9'
    ensures ParseUnsigned(u).Some? ==> ParseSigned(u) == Some(ParseUnsigned(u).value)
  {
  }

  /** An optional minus sign followed by a decimal numeral reads back as the integer it renders. */
  lemma ParseSignedOfDecimal(n: int, t: string)
    requires t == [] || (DigitValue(t[0], 10).None? && t[0] != 'x' && t[0] != 'X')
    ensures ParseSigned(IntToDecimal(n) + t) == Some(n)
  {
    if n < 0 {
      ParseSignedOfNegative(n, t);
    } else {
      ParseSignedOfNatural(n, t);
    }
  }

  lemma ParseSignedOfNegative(n: int, t: string)
    requires n < 0
    requires t == [] || (DigitValue(t[0], 10).None? && t[0] != 'x' && t[0] != 'X')
    ensures ParseSigned(IntToDecimal(n) + t) == Some(n)
  {
    var u := NatToDecimal(-n) + t;
    ParseUnsignedOfDecimal(-n, t);
    ParseSignedMinus(u, -n);
    NegativeRendering(n, t);
  }

  lemma NegativeRendering(n: int, t: string)
    requires n < 0
    ensures IntToDecimal(n) + t == "-" + (NatToDecimal(-n) + t)
  {
    var d := NatToDecimal(-n);
    assert IntToDecimal(n) == "-" + d;
    assert ("-" + d) + t == "-" + (d + t);
  }

  lemma ParseSignedOfNatural(n: nat, t: string)
    requires t == [] || (DigitValue(t[0], 10).None? && t[0] != 'x' && t[0] != 'X')
    ensures ParseSigned(IntToDecimal(n) + t) == Some(n)
  {
    var d := NatToDecimal(n);
    ParseUnsignedOfDecimal(n, t);
    assert DigitValue(d[0], 10).Some?;
    ParseSignedDigit(d + t);
  }

  /**
   * parseInt reads back the decimal rendering of any integer, whatever
   * non-digit text follows it (other than an 'x' right after a lone zero,
   * which would make it a hexadecimal prefix).
   */
  lemma ParseIntOfDecimal(n: int, t: string)
    requires t == [] || (DigitValue(t[0], 10).None? && t[0] != 'x' && t[0] != 'X')
    ensures ParseInt(IntToDecimal(n) + t) == Some(n)
  {
    var s := IntToDecimal(n) + t;
    var m: nat := if n < 0 then -n else n;
    assert s[0] == '-' || s[0] == NatToDecimal(m)[0];
    assert !IsWhitespace(s[0]) by {
      assert s[0] == '-' || DigitValue(s[0], 10).Some?;
    }
    assert LeadingWhitespace(s) == 0;
    ParseSignedOfDecimal(n, t);
  }
}
