/** The strength rule the reset-password form applies to a new password:
    the regular expression
      ^(?=.*[A-Za-z])(?=.*\d)(?=.*[@$!%*?&#])[A-Za-z\d@$!%*?#&]{8,}$
    with no flags, so `^` and `$` anchor to the whole string, `\d` is
    `[0-9]` and `.` is any character but a line terminator. */
module PasswordPolicy {

  const MinLength: nat := 8

  /** The eight symbols the rule accepts. */
  const Symbols: string := "@$!%*?&#"

  predicate IsAsciiLetter(c: char)
  {
    'A' <= c <= 'Z' || 'a' <= c <= 'z'
  }

  predicate IsDigit(c: char)
  {
    '0' <= c <= '9'
  }

  predicate IsSymbol(c: char)
  {
    c in Symbols
  }

  /** A character a password may contain at all. */
  predicate IsAllowed(c: char)
  {
    IsAsciiLetter(c) || IsDigit(c) || IsSymbol(c)
  }

  /** The rule in words: at least eight characters, each a letter, a digit or
      one of the eight symbols, with at least one of each of the three kinds. */
  predicate PasswordOk(s: string)
  {
    && |s| >= MinLength
    && (forall i :: 0 <= i < |s| ==> IsAllowed(s[i]))
    && (exists i :: 0 <= i < |s| && IsAsciiLetter(s[i]))
    && (exists i :: 0 <= i < |s| && IsDigit(s[i]))
    && (exists i :: 0 <= i < |s| && IsSymbol(s[i]))
  }

  // ---------------------------------------------------------------------
  // The regular expression read literally, construct by construct.

  /** The bracketed classes of the expression. `Body` is the repeated class
      `[A-Za-z\d@$!%*?#&]`, whose symbols are listed in a different order. */
  datatype CharClass = Letter | Digit | Symbol | Body

  predicate InClass(c: char, k: CharClass)
  {
    match k
    case Letter => 'A' <= c <= 'Z' || 'a' <= c <= 'z'
    case Digit => '0' <= c <= '9'
    case Symbol => c in "@$!%*?&#"
    case Body => ('A' <= c <= 'Z' || 'a' <= c <= 'z') || ('0' <= c <= '9') || c in "@$!%*?#&"
  }

  /** `.` without the `s` flag: anything but LF, CR, U+2028 and U+2029. */
  predicate IsDotChar(c: char)
  {
    c != '\n' && c != '\r' && c != '\U{2028}' && c != '\U{2029}'
  }

  /** The lookahead `(?=.*[k])` at the start of `s`: some character of class
      `k` is preceded only by characters `.` matches. */
  predicate LookaheadAtStart(s: string, k: CharClass)
  {
    exists i :: 0 <= i < |s| && InClass(s[i], k) && forall j :: 0 <= j < i ==> IsDotChar(s[j])
  }

  /** `passwordRegex.test(s)`: the three lookaheads succeed at position 0 and
      the body class covers the whole string at least eight times. */
  predicate RegexTest(s: string)
  {
    && LookaheadAtStart(s, Letter)
    && LookaheadAtStart(s, Digit)
    && LookaheadAtStart(s, Symbol)
    && |s| >= 8
    && forall i :: 0 <= i < |s| ==> InClass(s[i], Body)
  }

  /** The literal reading of the expression and the rule in words agree on
      every string. */
  lemma RegexIsPasswordOk(s: string)
    ensures RegexTest(s) <==> PasswordOk(s)
  {
    if PasswordOk(s) {
      var k :| 0 <= k < |s| && IsAsciiLetter(s[k]);
      var d :| 0 <= d < |s| && IsDigit(s[d]);
      var y :| 0 <= y < |s| && IsSymbol(s[y]);
      assert forall j :: 0 <= j < |s| ==> IsDotChar(s[j]) by {
        forall j | 0 <= j < |s| ensures IsDotChar(s[j]) {
          assert IsAllowed(s[j]);
        }
      }
      assert InClass(s[k], Letter);
      assert InClass(s[d], Digit);
      assert InClass(s[y], Symbol);
    }
    if RegexTest(s) {
      var k :| 0 <= k < |s| && InClass(s[k], Letter) && forall j :: 0 <= j < k ==> IsDotChar(s[j]);
      var d :| 0 <= d < |s| && InClass(s[d], Digit) && forall j :: 0 <= j < d ==> IsDotChar(s[j]);
      var y :| 0 <= y < |s| && InClass(s[y], Symbol) && forall j :: 0 <= j < y ==> IsDotChar(s[j]);
      assert IsAsciiLetter(s[k]) && IsDigit(s[d]) && IsSymbol(s[y]);
      forall i | 0 <= i < |s| ensures IsAllowed(s[i]) {
        assert InClass(s[i], Body);
      }
    }
  }

  // ---------------------------------------------------------------------
  // A single left-to-right scan deciding the rule.

  /** Decides the rule in one pass, remembering which kinds were seen and
      stopping at the first character outside the alphabet. */
  method CheckPassword(s: string) returns (ok: bool)
    ensures ok <==> PasswordOk(s)
  {
    var seenLetter, seenDigit, seenSymbol := false, false, false;
    var i := 0;
    while i < |s|
      invariant 0 <= i <= |s|
      invariant forall j :: 0 <= j < i ==> IsAllowed(s[j])
      invariant seenLetter <==> exists j :: 0 <= j < i && IsAsciiLetter(s[j])
      invariant seenDigit <==> exists j :: 0 <= j < i && IsDigit(s[j])
      invariant seenSymbol <==> exists j :: 0 <= j < i && IsSymbol(s[j])
    {
      var c := s[i];
      if IsAsciiLetter(c) {
        seenLetter := true;
      } else if IsDigit(c) {
        seenDigit := true;
      } else if IsSymbol(c) {
        seenSymbol := true;
      } else {
        return false;
      }
      i := i + 1;
    }
    ok := |s| >= MinLength && seenLetter && seenDigit && seenSymbol;
  }

  // ---------------------------------------------------------------------
  // The rule's consequences.

  /** Fewer than eight characters never match the expression, whatever they
      are. */
  lemma ShortPasswordRejected(s: string)
    requires |s| < MinLength
    ensures !RegexTest(s) && !PasswordOk(s)
  {
    RegexIsPasswordOk(s);
  }

  /** A single character outside letters, digits and the eight symbols (a
      space, `-`, `_`, `^`, any non-ASCII letter) makes the expression fail. */
  lemma ForeignCharacterRejects(s: string, i: nat)
    requires i < |s| && !IsAllowed(s[i])
    ensures !RegexTest(s) && !PasswordOk(s)
  {
    RegexIsPasswordOk(s);
  }

  /** A string lacking one of the three kinds fails the expression, however
      long it is and whatever it is made of. */
  lemma MissingKindRejects(s: string)
    requires (forall i :: 0 <= i < |s| ==> !IsSymbol(s[i]))
          || (forall i :: 0 <= i < |s| ==> !IsDigit(s[i]))
          || (forall i :: 0 <= i < |s| ==> !IsAsciiLetter(s[i]))
    ensures !RegexTest(s) && !PasswordOk(s)
  {
    RegexIsPasswordOk(s);
  }

  /** The worked cases, for the expression as written: a seven-character
      password, one without a symbol, and one that meets every clause. */
  lemma Examples()
    ensures !RegexTest("short1!")
    ensures !RegexTest("abcd1234")
    ensures RegexTest("abcd12!@")
  {
    ShortPasswordRejected("short1!");
    var bad := "abcd1234";
    assert forall i :: 0 <= i < |bad| ==> !IsSymbol(bad[i]);
    MissingKindRejects(bad);
    var good := "abcd12!@";
    assert PasswordOk(good) by {
      assert IsAsciiLetter(good[0]) && IsDigit(good[4]) && IsSymbol(good[6]);
    }
    RegexIsPasswordOk(good);
  }
}
