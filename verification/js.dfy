/** JavaScript value conventions the storefront pages rely on: `undefined`,
    the truthiness of strings, what `localStorage.setItem` stores, and
    `String.prototype.trim` as ECMA-262 defines it. */
module Js {

  /** A value that may be `undefined`: a missing property of a response body,
      an absent request header, or an out-of-range array element. */
  datatype Maybe<+T> = Undefined | Defined(value: T)

  /** `!s` for a string that may be undefined: `undefined` and `""` are the
      only falsy strings. */
  predicate Falsy(s: Maybe<string>)
  {
    s.Undefined? || s.value == ""
  }

  /** `a || fallback` where `a` may be undefined. */
  function OrElse(a: Maybe<string>, fallback: string): string
  {
    if Falsy(a) then fallback else a.value
  }

  /** The text `localStorage.setItem(key, v)` keeps: the value converted with
      `String(v)`, so `undefined` is stored as the nine letters "undefined". */
  function StorageText(v: Maybe<string>): string
  {
    match v
    case Undefined => "undefined"
    case Defined(s) => s
  }

  /** The characters `trim` removes: the WhiteSpace and LineTerminator code
      points of ECMA-262 (TAB, VT, FF, ZWNBSP, every space separator of
      Unicode category Zs, LF, CR, LINE SEPARATOR, PARAGRAPH SEPARATOR). */
  predicate IsWhiteSpace(c: char)
  {
    || c == '\t' || c == '\n' || c == '\U{000B}' || c == '\U{000C}' || c == '\r'
    || c == ' ' || c == '\U{00A0}' || c == '\U{1680}'
    || ('\U{2000}' <= c <= '\U{200A}')
    || c == '\U{2028}' || c == '\U{2029}' || c == '\U{202F}' || c == '\U{205F}'
    || c == '\U{3000}' || c == '\U{FEFF}'
  }

  /** Every character of `s` is white space (vacuously true of ""). */
  predicate Blank(s: string)
  {
    forall i :: 0 <= i < |s| ==> IsWhiteSpace(s[i])
  }

  /** Drops the leading white space of `s`. */
  function TrimStart(s: string): (r: string)
    ensures |r| <= |s| && r == s[|s| - |r|..]
    ensures Blank(s[..|s| - |r|])
    ensures r == "" || !IsWhiteSpace(r[0])
  {
    if |s| > 0 && IsWhiteSpace(s[0]) then
      var r := TrimStart(s[1..]);
      var dropped := s[..|s| - |r|];
      assert Blank(dropped) by {
        forall i | 0 <= i < |dropped| ensures IsWhiteSpace(dropped[i]) {
          if i > 0 {
            assert dropped[i] == s[1..][..|s[1..]| - |r|][i - 1];
          }
        }
      }
      r
    else
      s
  }

  /** Drops the trailing white space of `s`. */
  function TrimEnd(s: string): (r: string)
    ensures |r| <= |s| && r == s[..|r|]
    ensures Blank(s[|r|..])
    ensures r == "" || !IsWhiteSpace(r[|r| - 1])
  {
    if |s| > 0 && IsWhiteSpace(s[|s| - 1]) then
      var r := TrimEnd(s[..|s| - 1]);
      assert s[|r|..] == s[..|s| - 1][|r|..] + [s[|s| - 1]];
      r
    else
      s
  }

  /** `s.trim()`: a contiguous piece of `s` that neither starts nor ends with
      white space, everything cut away on either side being white space. */
  function Trim(s: string): (r: string)
    ensures exists a, b ::
              0 <= a <= b <= |s| && r == s[a..b] && Blank(s[..a]) && Blank(s[b..])
    ensures r == "" || (!IsWhiteSpace(r[0]) && !IsWhiteSpace(r[|r| - 1]))
  {
    var t := TrimStart(s);
    var r := TrimEnd(t);
    var a := |s| - |t|;
    assert r == s[a..a + |r|];
    assert s[a + |r|..] == t[|r|..];
    r
  }

  /** A string of white space only is consumed entirely by `TrimStart`. */
  lemma {:induction false} BlankTrimsAway(s: string)
    requires Blank(s)
    ensures TrimStart(s) == ""
  {
    if |s| > 0 {
      assert Blank(s[1..]) by {
        forall i | 0 <= i < |s[1..]| ensures IsWhiteSpace(s[1..][i]) {
          assert s[1..][i] == s[i + 1];
        }
      }
      BlankTrimsAway(s[1..]);
    }
  }

  /** `!s.trim()` holds exactly when `s` is empty or white space only. */
  lemma {:induction false} TrimEmptyIffBlank(s: string)
    ensures Trim(s) == "" <==> Blank(s)
  {
    if Blank(s) {
      BlankTrimsAway(s);
    }
    if Trim(s) == "" {
      var a, b :| 0 <= a <= b <= |s| && Trim(s) == s[a..b] && Blank(s[..a]) && Blank(s[b..]);
      forall i | 0 <= i < |s| ensures IsWhiteSpace(s[i]) {
        if i < a {
          assert s[..a][i] == s[i];
        } else {
          assert s[b..][i - b] == s[i];
        }
      }
    }
  }
}
