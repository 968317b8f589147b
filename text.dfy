/** The pieces of the .NET string library the programs rely on: `String.Split(char)`,
    the matching join, decimal rendering and parsing of integers and booleans,
    `ToLower` and `Trim`. */
module Text {
  import opened Wrappers

  /** `s.Split(sep)`: the pieces between separators, empty pieces included. */
  function Split(s: string, sep: char): (parts: seq<string>)
    ensures |parts| >= 1
    ensures forall i | 0 <= i < |parts| :: sep !in parts[i]
  {
    if |s| == 0 then [""]
    else
      var rest := Split(s[1..], sep);
      if s[0] == sep then [""] + rest
      else [[s[0]] + rest[0]] + rest[1..]
  }

  /** The pieces with one separator between each two of them. */
  function Join(parts: seq<string>, sep: char): string
  {
    if |parts| == 0 then ""
    else if |parts| == 1 then parts[0]
    else parts[0] + [sep] + Join(parts[1..], sep)
  }

  /** Joining one more piece adds a separator and the piece at the end. */
  lemma {:induction false} JoinSnoc(parts: seq<string>, last: string, sep: char)
    requires |parts| >= 1
    ensures Join(parts + [last], sep) == Join(parts, sep) + [sep] + last
  {
    if |parts| > 1 {
      JoinSnoc(parts[1..], last, sep);
      assert (parts + [last])[1..] == parts[1..] + [last];
    } else {
      assert (parts + [last])[1..] == [last];
    }
  }

  /** Splitting and joining again gives back the string. */
  lemma {:induction false} JoinSplit(s: string, sep: char)
    ensures Join(Split(s, sep), sep) == s
  {
    if |s| > 0 {
      JoinSplit(s[1..], sep);
      var rest := Split(s[1..], sep);
      if s[0] == sep {
        assert Split(s, sep)[1..] == rest;
      } else if |rest| > 1 {
        assert Split(s, sep)[1..] == rest[1..];
        assert Join(rest, sep) == rest[0] + [sep] + Join(rest[1..], sep);
      }
    }
  }

  lemma {:induction false} SplitPrefix(p: string, t: string, sep: char)
    requires sep !in p
    ensures Split(p + t, sep) == [p + Split(t, sep)[0]] + Split(t, sep)[1..]
  {
    if |p| > 0 {
      SplitPrefix(p[1..], t, sep);
      assert (p + t)[1..] == p[1..] + t;
      assert [p[0]] + (p[1..] + Split(t, sep)[0]) == p + Split(t, sep)[0];
    } else {
      var parts := Split(t, sep);
      assert p + t == t && p + parts[0] == parts[0];
      assert [parts[0]] + parts[1..] == parts;
    }
  }

  /** A separator in front opens a new, empty first piece. */
  lemma SplitConsSep(s: string, sep: char)
    ensures Split([sep] + s, sep) == [""] + Split(s, sep)
  {
    assert ([sep] + s)[1..] == s;
  }

  /** Any other character in front joins the first piece. */
  lemma SplitConsChar(c: char, s: string, sep: char)
    requires c != sep
    ensures Split([c] + s, sep) == [[c] + Split(s, sep)[0]] + Split(s, sep)[1..]
  {
    assert ([c] + s)[1..] == s;
  }

  /** Splitting at a separator splits the two sides independently. */
  lemma {:induction false} SplitAppend(a: string, b: string, sep: char)
    ensures Split(a + [sep] + b, sep) == Split(a, sep) + Split(b, sep)
  {
    if |a| == 0 {
      assert a + [sep] + b == [sep] + b;
      SplitConsSep(b, sep);
    } else {
      var c, t := a[0], a[1..];
      assert a == [c] + t;
      assert a + [sep] + b == [c] + (t + [sep] + b);
      SplitAppend(t, b, sep);
      if c == sep {
        SplitConsSep(t + [sep] + b, sep);
        SplitConsSep(t, sep);
        assert [""] + (Split(t, sep) + Split(b, sep)) == ([""] + Split(t, sep)) + Split(b, sep);
      } else {
        SplitConsChar(c, t + [sep] + b, sep);
        SplitConsChar(c, t, sep);
        ExtendFirst([c], Split(t, sep), Split(b, sep));
      }
    }
  }

  /** Prefixing the first piece of a split commutes with appending more pieces. */
  lemma ExtendFirst(p: string, left: seq<string>, right: seq<string>)
    requires |left| >= 1
    ensures [p + (left + right)[0]] + (left + right)[1..] == ([p + left[0]] + left[1..]) + right
  {
    assert (left + right)[1..] == left[1..] + right;
  }

  /** Joining pieces that hold no separator and splitting again gives back the pieces. */
  lemma {:induction false} SplitJoin(parts: seq<string>, sep: char)
    requires |parts| >= 1
    requires forall i | 0 <= i < |parts| :: sep !in parts[i]
    ensures Split(Join(parts, sep), sep) == parts
  {
    if |parts| == 1 {
      SplitPrefix(parts[0], "", sep);
      assert parts[0] + "" == parts[0];
    } else {
      var tail := Join(parts[1..], sep);
      SplitJoin(parts[1..], sep);
      SplitPrefix(parts[0], [sep] + tail, sep);
      assert ([sep] + tail)[1..] == tail;
      assert parts[0] + [sep] + tail == parts[0] + ([sep] + tail);
      assert parts[0] + "" == parts[0];
    }
  }

  // ---------------------------------------------------------------- integers

  const Int32Min: int := -0x8000_0000
  const Int32Max: int := 0x7FFF_FFFF

  predicate IsInt32(n: int) { Int32Min <= n <= Int32Max }

  predicate IsDigit(c: char) { '0' <= c <= '9' }

  function DigitValue(c: char): nat
    requires IsDigit(c)
  {
    (c as int) - ('0' as int)
  }

  /** The character of a decimal digit. */
  function DigitChar(d: nat): (c: char)
    requires d < 10
    ensures IsDigit(c) && DigitValue(c) == d
  {
    ('0' as int + d) as char
  }

  /** The decimal digits of `n`, without leading zeros. */
  function NatToString(n: nat): (s: string)
    ensures |s| >= 1
    ensures forall i | 0 <= i < |s| :: IsDigit(s[i])
  {
    if n < 10 then [DigitChar(n)] else NatToString(n / 10) + [DigitChar(n % 10)]
  }

  /** `n.ToString()` for an `int`: a minus sign before the digits of a negative number. */
  function IntToString(n: int): (s: string)
    ensures |s| >= 1
    ensures forall i | 0 <= i < |s| :: IsDigit(s[i]) || s[i] == '-'
  {
    if n < 0 then "-" + NatToString(-n) else NatToString(n)
  }

  predicate AllDigits(s: string) { forall i | 0 <= i < |s| :: IsDigit(s[i]) }

  /** The value of a string of decimal digits. */
  function DigitsValue(s: string): nat
    requires AllDigits(s)
  {
    if |s| == 0 then 0 else DigitsValue(s[..|s| - 1]) * 10 + DigitValue(s[|s| - 1])
  }

  lemma {:induction false} DigitsOfNat(n: nat)
    ensures DigitsValue(NatToString(n)) == n
  {
    var s := NatToString(n);
    if n >= 10 {
      DigitsOfNat(n / 10);
      assert s[..|s| - 1] == NatToString(n / 10);
    }
  }

  /** `int.Parse` on a sign (optional) and at least one digit; `None` where the
      .NET routine throws, including a value outside the 32-bit range. */
  function ParseInt32(s: string): (r: Option<int>)
    ensures r.Some? ==> IsInt32(r.value)
  {
    var negative := |s| > 0 && s[0] == '-';
    var digits := if |s| > 0 && (s[0] == '-' || s[0] == '+') then s[1..] else s;
    if |digits| == 0 || !AllDigits(digits) then None
    else
      var magnitude: int := DigitsValue(digits);
      var n := if negative then -magnitude else magnitude;
      if IsInt32(n) then Some(n) else None
  }

  /** Rendering a 32-bit integer and parsing it back gives the integer. */
  lemma ParseIntToString(n: int)
    requires IsInt32(n)
    ensures ParseInt32(IntToString(n)) == Some(n)
  {
    if n < 0 {
      assert IntToString(n) == "-" + NatToString(-n);
      ParseNegative(-n);
    } else {
      ParseNonNegative(n);
    }
  }

  /** A minus sign before the digits of `m` parses as `-m`. */
  lemma ParseNegative(m: nat)
    requires 0 < m <= -Int32Min
    ensures ParseInt32("-" + NatToString(m)) == Some(-(m as int))
  {
    DigitsOfNat(m);
    ParseMinus(NatToString(m));
  }

  /** A minus sign before digits parses as the negated value, when it fits. */
  lemma ParseMinus(d: string)
    requires |d| >= 1 && AllDigits(d) && IsInt32(-(DigitsValue(d) as int))
    ensures ParseInt32("-" + d) == Some(-(DigitsValue(d) as int))
  {
    assert ("-" + d)[0] == '-' && ("-" + d)[1..] == d;
  }

  lemma ParseNonNegative(n: int)
    requires 0 <= n <= Int32Max
    ensures ParseInt32(IntToString(n)) == Some(n)
  {
    var s := NatToString(n);
    assert IntToString(n) == s;
    DigitsOfNat(n);
    assert IsDigit(s[0]);
    assert AllDigits(s);
  }

  // ---------------------------------------------------------------- booleans

  /** `b.ToString()`. */
  function BoolToString(b: bool): (s: string)
    ensures |s| >= 1
    ensures forall i | 0 <= i < |s| :: 'A' <= s[i] <= 'z'
  {
    if b then "True" else "False"
  }

  /** `char.ToLower` on the Latin capitals A to Z; other characters are kept. */
  function LowerChar(c: char): char
  {
    if 'A' <= c <= 'Z' then (c as int + 32) as char else c
  }

  /** `ToLower`, character by character. */
  function ToLower(s: string): (r: string)
    ensures |r| == |s|
  {
    if |s| == 0 then "" else [LowerChar(s[0])] + ToLower(s[1..])
  }

  lemma {:induction false} ToLowerAt(s: string, i: nat)
    requires i < |s|
    ensures ToLower(s)[i] == LowerChar(s[i])
  {
    if i > 0 {
      ToLowerAt(s[1..], i - 1);
    }
  }

  /** `bool.Parse`: "true" or "false" in any mix of cases. */
  function ParseBool(s: string): (r: Option<bool>)
    ensures r == Some(true) <==> ToLower(s) == "true"
    ensures r == Some(false) <==> ToLower(s) == "false"
  {
    var t := ToLower(s);
    if t == "true" then Some(true) else if t == "false" then Some(false) else None
  }

  lemma ParseBoolToString(b: bool)
    ensures ParseBool(BoolToString(b)) == Some(b)
  {
    if b {
      assert ToLower("True") == "true";
    } else {
      assert ToLower("False") == "false";
    }
  }

  // ---------------------------------------------------------------- trimming

  /** `char.IsWhiteSpace`. */
  predicate IsWhiteSpace(c: char)
  {
    || ('\U{0009}' <= c <= '\U{000D}')
    || c == ' ' || c == '\U{0085}' || c == '\U{00A0}' || c == '\U{1680}'
    || ('\U{2000}' <= c <= '\U{200A}')
    || c == '\U{2028}' || c == '\U{2029}' || c == '\U{202F}' || c == '\U{205F}' || c == '\U{3000}'
  }

  function TrimStart(s: string): (r: string)
    ensures |r| <= |s|
  {
    if |s| > 0 && IsWhiteSpace(s[0]) then TrimStart(s[1..]) else s
  }

  function TrimEnd(s: string): (r: string)
    ensures |r| <= |s|
  {
    if |s| > 0 && IsWhiteSpace(s[|s| - 1]) then TrimEnd(s[..|s| - 1]) else s
  }

  /** `s.Trim()`: white space removed from both ends. */
  function Trim(s: string): string
  {
    TrimStart(TrimEnd(s))
  }
}
