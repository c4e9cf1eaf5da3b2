/**
 * The JavaScript string and number built-ins the components rely on, as functions on
 * `seq<char>`: `trim`, `split` with a one-character separator, `join`, `slice(0, n)`,
 * `toUpperCase`, `parseInt` and `Number.prototype.toString`.
 */
module JsString {
  import opened Optional

  // ---------------------------------------------------------------- whitespace and trim

  /** ECMAScript WhiteSpace and LineTerminator code points: what `trim` strips and `parseInt` skips. */
  predicate IsSpace(c: char) {
    || c == ' ' || ('\t' <= c <= '\r')
    || c == '\U{00A0}' || c == '\U{1680}' || ('\U{2000}' <= c <= '\U{200A}')
    || c == '\U{2028}' || c == '\U{2029}' || c == '\U{202F}' || c == '\U{205F}'
    || c == '\U{3000}' || c == '\U{FEFF}'
  }

  predicate AllSpace(s: string) {
    forall k :: 0 <= k < |s| ==> IsSpace(s[k])
  }

  /** Neither starts nor ends with whitespace. */
  predicate Trimmed(s: string) {
    s == [] || (!IsSpace(s[0]) && !IsSpace(s[|s| - 1]))
  }

  /** `trimStart`: the suffix left after dropping leading whitespace. */
  function TrimStart(s: string): (r: string)
    ensures |r| <= |s| && r == s[|s| - |r|..]
    ensures forall k :: 0 <= k < |s| - |r| ==> IsSpace(s[k])
    ensures r != [] ==> !IsSpace(r[0])
  {
    if s != [] && IsSpace(s[0]) then
      var r := TrimStart(s[1..]);
      assert s[|s| - |r|..] == s[1..][|s[1..]| - |r|..];
      r
    else s
  }

  /** `trimEnd`: the prefix left after dropping trailing whitespace. */
  function TrimEnd(s: string): (r: string)
    ensures |r| <= |s| && r == s[..|r|]
    ensures forall k :: |r| <= k < |s| ==> IsSpace(s[k])
    ensures r != [] ==> !IsSpace(r[|r| - 1])
  {
    if s != [] && IsSpace(s[|s| - 1]) then
      var r := TrimEnd(s[..|s| - 1]);
      assert s[..|r|] == s[..|s| - 1][..|r|];
      r
    else s
  }

  /**
   * The facts behind `trim`: `t` is `s` without leading whitespace and `r` is `t` without
   * trailing whitespace, so `r` is the trimmed slice of `s` between two runs of whitespace.
   */
  lemma TrimmedSlice(s: string, t: string, r: string)
    requires |t| <= |s| && t == s[|s| - |t|..] && forall k :: 0 <= k < |s| - |t| ==> IsSpace(s[k])
    requires t != [] ==> !IsSpace(t[0])
    requires |r| <= |t| && r == t[..|r|] && forall k :: |r| <= k < |t| ==> IsSpace(t[k])
    requires r != [] ==> !IsSpace(r[|r| - 1])
    ensures Trimmed(r)
    ensures exists i :: 0 <= i <= |s| - |r| && r == s[i..i + |r|] && AllSpace(s[..i]) && AllSpace(s[i + |r|..])
    ensures r == [] <==> AllSpace(s)
    ensures Trimmed(s) ==> r == s
  {
    var i := |s| - |t|;
    assert r != [] ==> r[0] == t[0];
    assert s[i + |r|..] == t[|r|..];
    assert r == s[i..i + |r|] && AllSpace(s[..i]) && AllSpace(s[i + |r|..]);
    if Trimmed(s) && s != [] {
      assert i == 0;
      assert t == s;
      assert r == s;
    }
  }

  /** `String.prototype.trim`. */
  function Trim(s: string): (r: string)
    ensures Trimmed(r) && |r| <= |s|
    ensures exists i :: 0 <= i <= |s| - |r| && r == s[i..i + |r|] && AllSpace(s[..i]) && AllSpace(s[i + |r|..])
    ensures r == [] <==> AllSpace(s)
    ensures Trimmed(s) ==> r == s
  {
    var t := TrimStart(s);
    var r := TrimEnd(t);
    TrimmedSlice(s, t, r);
    r
  }

  // ---------------------------------------------------------------- split, join, slice

  /** `s.split(sep)` for a one-character separator: the pieces between separators, never empty. */
  function Split(s: string, sep: char): (r: seq<string>)
    ensures |r| == multiset(s)[sep] + 1
  {
    if s == [] then [""]
    else
      var rest := Split(s[1..], sep);
      assert s == [s[0]] + s[1..];
      if s[0] == sep then [""] + rest else [[s[0]] + rest[0]] + rest[1..]
  }

  /** No piece of a split contains the separator. */
  lemma {:induction false} SplitPiecesLackSeparator(s: string, sep: char)
    ensures forall w :: w in Split(s, sep) ==> sep !in w
  {
    if s != [] {
      var rest := Split(s[1..], sep);
      SplitPiecesLackSeparator(s[1..], sep);
      if s[0] != sep {
        assert rest[0] in rest;
        forall w | w in [[s[0]] + rest[0]] + rest[1..] ensures sep !in w {
          if w != [s[0]] + rest[0] {
            assert w in rest;
          }
        }
      }
    }
  }

  /** `parts.join(sep)`. */
  function Join(parts: seq<string>, sep: string): string {
    if parts == [] then ""
    else if |parts| == 1 then parts[0]
    else parts[0] + sep + Join(parts[1..], sep)
  }

  /** The last element of a non-empty sequence: what `pop` returns. */
  function Last<T>(s: seq<T>): (r: T)
    requires s != []
    ensures s == s[..|s| - 1] + [r]
  {
    s[|s| - 1]
  }

  /** `s.slice(0, n)`. */
  function Take(s: string, n: nat): (r: string)
    ensures |r| == if |s| <= n then |s| else n
    ensures r <= s
  {
    if |s| <= n then s else s[..n]
  }

  lemma Regroup(a: string, b: string, c: string, d: string)
    ensures a + b + c + d == a + (b + c + d)
  {
  }

  lemma JoinSplitAfterSeparator(s: string, sep: char)
    requires s != [] && s[0] == sep
    requires Join(Split(s[1..], sep), [sep]) == s[1..]
    ensures Join(Split(s, sep), [sep]) == s
  {
    var rest := Split(s[1..], sep);
    assert Split(s, sep) == [""] + rest;
    assert ([""] + rest)[1..] == rest;
  }

  lemma JoinSplitInsideWord(s: string, sep: char)
    requires s != [] && s[0] != sep
    requires Join(Split(s[1..], sep), [sep]) == s[1..]
    ensures Join(Split(s, sep), [sep]) == s
  {
    var rest := Split(s[1..], sep);
    var r := [[s[0]] + rest[0]] + rest[1..];
    assert Split(s, sep) == r;
    if |rest| > 1 {
      assert r[1..] == rest[1..];
      calc {
        Join(r, [sep]);
        ([s[0]] + rest[0]) + [sep] + Join(rest[1..], [sep]);
        { Regroup([s[0]], rest[0], [sep], Join(rest[1..], [sep])); }
        [s[0]] + (rest[0] + [sep] + Join(rest[1..], [sep]));
        [s[0]] + Join(rest, [sep]);
      }
    } else {
      assert r == [[s[0]] + rest[0]] && rest == [rest[0]];
    }
    assert [s[0]] + s[1..] == s;
  }

  /** Joining the pieces of a split with the same separator gives back the string. */
  lemma {:induction false} JoinSplit(s: string, sep: char)
    ensures Join(Split(s, sep), [sep]) == s
  {
    if s != [] {
      JoinSplit(s[1..], sep);
      if s[0] == sep {
        JoinSplitAfterSeparator(s, sep);
      } else {
        JoinSplitInsideWord(s, sep);
      }
    }
  }

  /** The last piece `w` of `pieces`, a split of `s`, is a suffix of `s` that follows a separator unless it is all of `s`. */
  predicate LastPieceIsSuffix(s: string, sep: char, pieces: seq<string>)
    requires pieces != []
  {
    var w := Last(pieces);
    && |w| <= |s| && s[|s| - |w|..] == w
    && (|pieces| == 1 ==> w == s)
    && (|pieces| > 1 ==> |w| < |s| && s[|s| - |w| - 1] == sep)
  }

  /** A leading separator adds an empty first piece and leaves the last piece a suffix. */
  lemma SplitLastAfterSeparator(s: string, sep: char)
    requires s != [] && s[0] == sep
    requires LastPieceIsSuffix(s[1..], sep, Split(s[1..], sep))
    ensures LastPieceIsSuffix(s, sep, Split(s, sep))
  {
    var t, rest := s[1..], Split(s[1..], sep);
    var w := Last(rest);
    assert Split(s, sep) == [""] + rest;
    assert Last(Split(s, sep)) == w;
    assert t[|t| - |w|..] == s[|s| - |w|..];
    if |rest| > 1 {
      assert s[|s| - |w| - 1] == t[|t| - |w| - 1];
    }
  }

  /** A leading non-separator joins the first piece and leaves the last piece a suffix. */
  lemma SplitLastInsideWord(s: string, sep: char)
    requires s != [] && s[0] != sep
    requires LastPieceIsSuffix(s[1..], sep, Split(s[1..], sep))
    ensures LastPieceIsSuffix(s, sep, Split(s, sep))
  {
    var t, rest := s[1..], Split(s[1..], sep);
    var w := Last(rest);
    assert Split(s, sep) == [[s[0]] + rest[0]] + rest[1..];
    if |rest| > 1 {
      assert Last(Split(s, sep)) == w;
      assert t[|t| - |w|..] == s[|s| - |w|..];
      assert s[|s| - |w| - 1] == t[|t| - |w| - 1];
    } else {
      assert Last(Split(s, sep)) == [s[0]] + t == s;
    }
  }

  /**
   * The last piece of a split is the suffix after the last separator: the whole string
   * when there is no separator, and otherwise a suffix preceded by a separator.
   */
  lemma {:induction false} SplitLast(s: string, sep: char)
    ensures LastPieceIsSuffix(s, sep, Split(s, sep))
  {
    if s != [] {
      SplitLast(s[1..], sep);
      if s[0] == sep {
        SplitLastAfterSeparator(s, sep);
      } else {
        SplitLastInsideWord(s, sep);
      }
    }
  }

  // ---------------------------------------------------------------- upper case

  /** `toUpperCase` on one character: the ASCII letters a-z are mapped, every other character kept. */
  function UpperChar(c: char): char {
    if 'a' <= c <= 'z' then (c as int - 32) as char else c
  }

  /** `String.prototype.toUpperCase`, one character at a time. */
  function ToUpper(s: string): (r: string)
    ensures |r| == |s|
    ensures forall k :: 0 <= k < |s| ==> r[k] == UpperChar(s[k])
  {
    if s == [] then [] else [UpperChar(s[0])] + ToUpper(s[1..])
  }

  // ---------------------------------------------------------------- numbers

  predicate IsDigit(c: char) {
    '0' <= c <= '9'
  }

  predicate AllDigits(s: string) {
    forall k :: 0 <= k < |s| ==> IsDigit(s[k])
  }

  function DigitChar(d: nat): (c: char)
    requires d < 10
    ensures IsDigit(c)
  {
    ('0' as int + d) as char
  }

  /** The decimal digits of `n`, most significant first, without leading zeros. */
  function NatDigits(n: nat): (r: string)
    ensures r != [] && AllDigits(r)
    ensures |r| == 1 <==> n < 10
    ensures r[0] == '0' <==> n == 0
  {
    if n < 10 then [DigitChar(n)] else NatDigits(n / 10) + [DigitChar(n % 10)]
  }

  /** `Number.prototype.toString()` on an integer: an optional minus sign and the decimal digits. */
  function DecimalString(n: int): (r: string)
    ensures n >= 0 ==> r != [] && AllDigits(r) && (r[0] == '0' <==> n == 0)
    ensures n < 0 ==> |r| >= 2 && r[0] == '-' && AllDigits(r[1..]) && r[1] != '0'
  {
    if n < 0 then "-" + NatDigits(-n) else NatDigits(n)
  }

  /** The number a string of decimal digits denotes. */
  function DigitsValue(d: string): nat
    requires AllDigits(d)
  {
    if d == [] then 0 else DigitsValue(d[..|d| - 1]) * 10 + (d[|d| - 1] as int - '0' as int)
  }

  /** The longest prefix made of decimal digits. */
  function DigitPrefix(s: string): (r: string)
    ensures r <= s && AllDigits(r)
    ensures |r| < |s| ==> !IsDigit(s[|r|])
  {
    if s != [] && IsDigit(s[0]) then [s[0]] + DigitPrefix(s[1..]) else []
  }

  /** The value of the longest run of digits at the start of `s`, or `None` when there is none. */
  function DigitRunValue(s: string): Option<int> {
    var digits := DigitPrefix(s);
    if digits == [] then None else Some(DigitsValue(digits) as int)
  }

  function Negate(v: Option<int>): Option<int> {
    match v
    case None => None
    case Some(n) => Some(-n)
  }

  /** Reads one optional sign, then the digit run. */
  function SignedValue(t: string): Option<int> {
    if t != [] && t[0] == '-' then Negate(DigitRunValue(t[1..]))
    else if t != [] && t[0] == '+' then DigitRunValue(t[1..])
    else DigitRunValue(t)
  }

  /**
   * `parseInt(s)` without a radix, for decimal numerals: leading whitespace is skipped, one
   * `+` or `-` is read, then the longest run of digits; `None` stands for `NaN` (no digits).
   */
  function ParseInt(s: string): (r: Option<int>)
    ensures var t := TrimStart(s);
      var u := if t != [] && (t[0] == '-' || t[0] == '+') then t[1..] else t;
      r.None? <==> u == [] || !IsDigit(u[0])
  {
    SignedValue(TrimStart(s))
  }

  lemma {:induction false} DigitsRoundTrip(n: nat)
    ensures DigitsValue(NatDigits(n)) == n
  {
    if n >= 10 {
      var d := NatDigits(n);
      assert d[..|d| - 1] == NatDigits(n / 10);
      DigitsRoundTrip(n / 10);
    }
  }

  lemma {:induction false} DigitPrefixOfDigits(d: string)
    requires AllDigits(d)
    ensures DigitPrefix(d) == d
  {
    if d != [] {
      DigitPrefixOfDigits(d[1..]);
      assert [d[0]] + d[1..] == d;
    }
  }

  lemma TrimStartKeeps(s: string)
    requires s != [] && !IsSpace(s[0])
    ensures TrimStart(s) == s
  {
  }

  /** `parseInt` of a digit string is its value. */
  lemma ParseDigits(d: string)
    requires d != [] && AllDigits(d)
    ensures ParseInt(d) == Some(DigitsValue(d) as int)
  {
    DigitPrefixOfDigits(d);
    assert IsDigit(d[0]);
    TrimStartKeeps(d);
    assert ParseInt(d) == SignedValue(d);
  }

  lemma NegatedRun(d: string)
    requires d != [] && DigitPrefix(d) == d
    ensures SignedValue("-" + d) == Some(-(DigitsValue(d) as int))
  {
    assert ("-" + d)[1..] == d;
  }

  /** `parseInt` of a minus sign followed by a digit string is the negated value. */
  lemma ParseNegatedDigits(d: string)
    requires d != [] && AllDigits(d)
    ensures ParseInt("-" + d) == Some(-(DigitsValue(d) as int))
  {
    DigitPrefixOfDigits(d);
    TrimStartKeeps("-" + d);
    NegatedRun(d);
  }

  /** `parseInt` reads back every integer that `toString` writes. */
  lemma ParseDecimal(n: int)
    ensures ParseInt(DecimalString(n)) == Some(n)
  {
    var m := if n < 0 then -n else n;
    DigitsRoundTrip(m);
    if n < 0 {
      ParseNegatedDigits(NatDigits(m));
    } else {
      ParseDigits(NatDigits(m));
    }
  }

  /** `parseInt` gives `NaN` on an empty string and on a string of whitespace. */
  lemma ParseBlank(s: string)
    requires AllSpace(s)
    ensures ParseInt(s) == None
  {
    assert Trim(s) == [];
  }
}
