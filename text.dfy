/**
 * The JavaScript string built-ins the screens rely on, over `seq<char>`:
 * `trim`, `split(',')`, `join`, `includes`, `toLowerCase` (ASCII letters only),
 * the `\w` character class of regular expressions, `parseInt(s, 10)` and
 * `Number.prototype.toString` for integers.
 */
module Text {
  import opened Common

  /** JavaScript WhiteSpace and LineTerminator characters (what `trim` and `parseInt` skip). */
  predicate IsSpace(c: char)
  {
    ('\U{9}' <= c <= '\U{D}') || c == ' ' || c == '\U{A0}' || c == '\U{1680}'
    || ('\U{2000}' <= c <= '\U{200A}') || c == '\U{2028}' || c == '\U{2029}'
    || c == '\U{202F}' || c == '\U{205F}' || c == '\U{3000}' || c == '\U{FEFF}'
  }

  /** The `\w` class: ASCII letters, digits and underscore. */
  predicate IsWordChar(c: char)
  {
    ('a' <= c <= 'z') || ('A' <= c <= 'Z') || ('0' <= c <= '9') || c == '_'
  }

  predicate IsDigit(c: char)
  {
    '0' <= c <= '9'
  }

  /** Neither starts nor ends with white space. */
  predicate Trimmed(s: string)
  {
    s == [] || (!IsSpace(s[0]) && !IsSpace(s[|s| - 1]))
  }

  /** `trimStart`: drops the leading white space and nothing else. */
  function TrimStart(s: string): (r: string)
    ensures r == [] || !IsSpace(r[0])
    ensures |r| <= |s| && r == s[|s| - |r|..]
    ensures forall k :: 0 <= k < |s| - |r| ==> IsSpace(s[k])
  {
    if s != [] && IsSpace(s[0]) then TrimStart(s[1..]) else s
  }

  /** `trimEnd`: drops the trailing white space and nothing else. */
  function TrimEnd(s: string): (r: string)
    ensures r == [] || !IsSpace(r[|r| - 1])
    ensures |r| <= |s| && r == s[..|r|]
    ensures forall k :: |r| <= k < |s| ==> IsSpace(s[k])
  {
    if s != [] && IsSpace(s[|s| - 1]) then TrimEnd(s[..|s| - 1]) else s
  }

  /** `r` is `s[i..j]` and everything of `s` outside that slice is white space. */
  predicate TrimsTo(s: string, r: string, i: int, j: int)
  {
    && 0 <= i <= j <= |s| && r == s[i..j]
    && (forall k :: 0 <= k < i ==> IsSpace(s[k]))
    && (forall k :: j <= k < |s| ==> IsSpace(s[k]))
  }

  /** `String.prototype.trim`: a slice of the input with no white space at either end. */
  function Trim(s: string): (r: string)
    ensures Trimmed(r)
    ensures exists i, j :: 0 <= i <= j <= |s| && r == s[i..j]
  {
    var t := TrimStart(s);
    var r := TrimEnd(t);
    assert r == s[|s| - |t|..|s| - |t| + |r|] by {
      SpaceOutside(s, t, r);
    }
    assert r != [] ==> r[0] == t[0];
    r
  }

  /** `trim` removes exactly the leading and the trailing white space, and nothing else. */
  lemma TrimRemovesOnlySpace(s: string)
    ensures Trimmed(Trim(s))
    ensures exists i, j :: TrimsTo(s, Trim(s), i, j)
  {
    var t := TrimStart(s);
    SpaceOutside(s, t, TrimEnd(t));
  }

  /**
   * Dropping white space from the front of `s` to get `t`, then from the back
   * of `t` to get `r`, leaves a slice of `s` with white space only outside it.
   */
  lemma SpaceOutside(s: string, t: string, r: string)
    requires |t| <= |s| && t == s[|s| - |t|..]
    requires forall k :: 0 <= k < |s| - |t| ==> IsSpace(s[k])
    requires |r| <= |t| && r == t[..|r|]
    requires forall k :: |r| <= k < |t| ==> IsSpace(t[k])
    ensures TrimsTo(s, r, |s| - |t|, |s| - |t| + |r|)
  {
    var i := |s| - |t|;
    forall k | i + |r| <= k < |s| ensures IsSpace(s[k]) {
      assert s[k] == t[k - i];
    }
  }

  /** Trimming text that is already trimmed changes nothing. */
  lemma TrimOfTrimmed(s: string)
    requires Trimmed(s)
    ensures Trim(s) == s
  {
  }

  /** One leading space before trimmed, non-empty text is removed by `trim`. */
  lemma TrimLeadingSpace(s: string)
    requires Trimmed(s) && s != []
    ensures Trim(" " + s) == s
  {
    assert (" " + s)[1..] == s;
    assert TrimStart(" " + s) == TrimStart(s) == s;
    assert TrimEnd(s) == s;
  }

  /** `s.split(sep)` accumulating the current piece in `cur`. */
  function SplitFrom(s: string, sep: char, cur: string): (r: seq<string>)
    ensures |r| >= 1
    ensures forall k :: 0 <= k < |r| ==> (sep !in cur ==> sep !in r[k])
  {
    if s == [] then [cur]
    else if s[0] == sep then [cur] + SplitFrom(s[1..], sep, "")
    else SplitFrom(s[1..], sep, cur + [s[0]])
  }

  /** `s.split(sep)` for a one-character separator: never empty, no piece holds `sep`. */
  function Split(s: string, sep: char): (r: seq<string>)
    ensures |r| >= 1
    ensures forall k :: 0 <= k < |r| ==> sep !in r[k]
  {
    SplitFrom(s, sep, "")
  }

  /** `parts.join(sep)`: starts with the first part. */
  function Join(parts: seq<string>, sep: string): (r: string)
    ensures parts != [] ==> parts[0] <= r
  {
    if parts == [] then ""
    else if |parts| == 1 then parts[0]
    else parts[0] + sep + Join(parts[1..], sep)
  }

  /** Joining introduces no character that is neither in a part nor in the separator. */
  lemma {:induction false} JoinKeepsOut(parts: seq<string>, sep: string, c: char)
    requires c !in sep
    requires forall k :: 0 <= k < |parts| ==> c !in parts[k]
    ensures c !in Join(parts, sep)
  {
    if |parts| >= 2 {
      assert forall k :: 0 <= k < |parts[1..]| ==> parts[1..][k] == parts[k + 1];
      JoinKeepsOut(parts[1..], sep, c);
      assert c !in parts[0];
    }
  }

  /** A separator-free run is a single piece. */
  lemma {:induction false} SplitFromPlain(p: string, sep: char, cur: string)
    requires sep !in p
    ensures SplitFrom(p, sep, cur) == [cur + p]
  {
    if p != [] {
      assert p[0] in p && p[0] != sep;
      assert forall c :: c in p[1..] ==> c in p;
      SplitFromPlain(p[1..], sep, cur + [p[0]]);
      assert cur + [p[0]] + p[1..] == cur + p;
    } else {
      assert cur + p == cur;
    }
  }

  /** A separator-free run followed by the separator closes the current piece. */
  lemma {:induction false} SplitFromPiece(p: string, sep: char, rest: string, cur: string)
    requires sep !in p
    ensures SplitFrom(p + [sep] + rest, sep, cur) == [cur + p] + SplitFrom(rest, sep, "")
  {
    if p == [] {
      assert (p + [sep] + rest)[0] == sep && (p + [sep] + rest)[1..] == rest;
      assert cur + p == cur;
    } else {
      assert p[0] in p && p[0] != sep;
      assert forall c :: c in p[1..] ==> c in p;
      assert (p + [sep] + rest)[0] == p[0];
      assert (p + [sep] + rest)[1..] == p[1..] + [sep] + rest;
      SplitFromPiece(p[1..], sep, rest, cur + [p[0]]);
      assert cur + [p[0]] + p[1..] == cur + p;
    }
  }

  /** `s.includes(pat)`: `pat` occurs somewhere in `s`. */
  predicate Contains(s: string, pat: string)
    ensures Contains(s, pat) ==> |pat| <= |s|
  {
    pat <= s || (s != [] && Contains(s[1..], pat))
  }

  /** Text placed anywhere in a string is found by `includes`. */
  lemma {:induction false} ContainsMiddle(a: string, pat: string, b: string)
    ensures Contains(a + pat + b, pat)
  {
    if a == [] {
      assert a + pat + b == pat + b;
      assert pat <= pat + b;
    } else {
      assert (a + pat + b)[1..] == a[1..] + pat + b;
      ContainsMiddle(a[1..], pat, b);
    }
  }

  /** Conversely, text that `includes` finds sits between some prefix and some suffix. */
  lemma {:induction false} ContainsOccurs(s: string, pat: string)
    requires Contains(s, pat)
    ensures exists a, b :: s == a + pat + b
  {
    if pat <= s {
      assert s == [] + pat + s[|pat|..];
    } else {
      ContainsOccurs(s[1..], pat);
      var a, b :| s[1..] == a + pat + b;
      assert s == [s[0]] + a + pat + b;
    }
  }

  /** `toLowerCase` restricted to ASCII letters. */
  function Lower(s: string): (r: string)
    ensures |r| == |s|
    ensures forall i :: 0 <= i < |s| ==> !('A' <= r[i] <= 'Z')
    ensures forall i :: 0 <= i < |s| && !('A' <= s[i] <= 'Z') ==> r[i] == s[i]
    ensures forall i :: 0 <= i < |s| && 'A' <= s[i] <= 'Z' ==> r[i] == (s[i] as int + 32) as char
  {
    if s == [] then []
    else [if 'A' <= s[0] <= 'Z' then (s[0] as int + 32) as char else s[0]] + Lower(s[1..])
  }

  /** The longest prefix of decimal digits. */
  function DigitPrefix(s: string): (r: string)
    ensures r <= s
    ensures forall i :: 0 <= i < |r| ==> IsDigit(r[i])
    ensures |r| < |s| ==> !IsDigit(s[|r|])
  {
    if s != [] && IsDigit(s[0]) then [s[0]] + DigitPrefix(s[1..]) else []
  }

  /** The value of a string of decimal digits, read most significant first. */
  function DigitsValue(s: string): nat
    requires forall i :: 0 <= i < |s| ==> IsDigit(s[i])
  {
    if s == [] then 0 else DigitsValue(s[..|s| - 1]) * 10 + DigitValue(s[|s| - 1])
  }

  function DigitValue(c: char): (d: nat)
    requires IsDigit(c)
    ensures d < 10
  {
    c as int - '0' as int
  }

  /**
   * `parseInt(s, 10)`: skip leading white space, read an optional sign and the
   * longest run of decimal digits after it; `None` stands for `NaN` (no digit).
   */
  function ParseInt(s: string): (r: Option<int>)
    ensures r.None? <==> DigitPrefix(Unsigned(TrimStart(s))) == []
  {
    var t := TrimStart(s);
    var digits := DigitPrefix(Unsigned(t));
    var magnitude: int := DigitsValue(digits);
    if digits == [] then None
    else if t[0] == '-' then Some(-magnitude)
    else Some(magnitude)
  }

  /** The text after an optional leading sign. */
  function Unsigned(t: string): string
  {
    if t != [] && (t[0] == '-' || t[0] == '+') then t[1..] else t
  }

  function DigitChar(d: nat): (c: char)
    requires d < 10
    ensures IsDigit(c)
  {
    ('0' as int + d) as char
  }

  /** Decimal representation of a natural number, without leading zeros. */
  function NatToString(n: nat): (r: string)
    ensures |r| >= 1 && IsDigit(r[0])
    ensures forall i :: 0 <= i < |r| ==> IsDigit(r[i])
  {
    if n < 10 then [DigitChar(n)] else NatToString(n / 10) + [DigitChar(n % 10)]
  }

  /** `n.toString()` for an integer: a minus sign exactly for negatives, then only digits. */
  function IntToString(n: int): (r: string)
    ensures |r| >= 1 && (r[0] == '-' <==> n < 0)
    ensures forall i :: (if n < 0 then 1 else 0) <= i < |r| ==> IsDigit(r[i])
  {
    if n < 0 then "-" + NatToString(-n) else NatToString(n)
  }

  lemma {:induction false} NatToStringValue(n: nat)
    ensures DigitsValue(NatToString(n)) == n
  {
    var s := NatToString(n);
    if n >= 10 {
      NatToStringValue(n / 10);
      assert s[..|s| - 1] == NatToString(n / 10);
    }
  }

  /** The digit run of a numeral followed by a non-digit is exactly the numeral. */
  lemma {:induction false} DigitPrefixOfDigitsThen(s: string, t: string)
    requires forall i :: 0 <= i < |s| ==> IsDigit(s[i])
    requires t == [] || !IsDigit(t[0])
    ensures DigitPrefix(s + t) == s
  {
    if s == [] {
      assert s + t == t;
    } else {
      assert (s + t)[1..] == s[1..] + t;
      DigitPrefixOfDigitsThen(s[1..], t);
    }
  }

  /** Text starting with a digit is read as the value of its leading digit run. */
  lemma ParseIntOfDigitStart(s: string)
    requires s != [] && IsDigit(s[0])
    ensures ParseInt(s) == Some(DigitsValue(DigitPrefix(s)))
  {
    NoSignNoSpace(s);
    assert DigitPrefix(s) != [];
  }

  /** Text starting with a digit has nothing for `parseInt` to skip. */
  lemma NoSignNoSpace(s: string)
    requires s != [] && IsDigit(s[0])
    ensures TrimStart(s) == s && Unsigned(s) == s
  {
    var c := s[0];
    assert !IsSpace(c) && c != '-' && c != '+' by {
      assert '0' <= c <= '9';
    }
  }

  /** A minus sign followed by a numeral is read as the negated value of the numeral. */
  lemma ParseIntOfNegative(digits: string)
    requires digits != [] && forall k :: 0 <= k < |digits| ==> IsDigit(digits[k])
    ensures ParseInt("-" + digits) == Some(-(DigitsValue(digits) as int))
  {
    DigitPrefixOfDigitsThen(digits, []);
    assert digits + [] == digits;
    ParseIntOfMinus("-" + digits, digits);
  }

  /** Text that is a minus sign followed by a digit run is read as the run's negated value. */
  lemma ParseIntOfMinus(s: string, digits: string)
    requires s != [] && s[0] == '-' && s[1..] == digits
    requires digits != [] && DigitPrefix(digits) == digits
    ensures ParseInt(s) == Some(-(DigitsValue(digits) as int))
  {
    MinusStart(s);
  }

  /** Text starting with a minus sign has no white space to skip, and its digits follow the sign. */
  lemma MinusStart(s: string)
    requires s != [] && s[0] == '-'
    ensures TrimStart(s) == s && Unsigned(s) == s[1..]
  {
  }

  /** `parseInt(n.toString(), 10) === n`: printing an integer and parsing it back is the identity. */
  lemma ParseIntOfIntToString(n: int)
    ensures ParseInt(IntToString(n)) == Some(n)
  {
    var m := if n < 0 then -n else n;
    var digits := NatToString(m);
    NatToStringValue(m);
    if n < 0 {
      ParseIntOfNegative(digits);
    } else {
      ParseIntOfDigitStart(digits);
      DigitPrefixOfDigitsThen(digits, []);
      assert digits + [] == digits;
    }
  }
}
