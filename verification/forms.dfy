/** The browser's constraint validation for the login forms: a form whose
    `required` inputs are empty, or whose `type="email"` input does not hold
    a valid e-mail address, is not submitted and its `onSubmit` never runs.
    Validity follows the definition of a valid e-mail address in the HTML
    Living Standard (the `input type=email` state, section 4.10.5.1.5). */
module HtmlForms {

  predicate IsAsciiAlnum(c: char)
  {
    'A' <= c <= 'Z' || 'a' <= c <= 'z' || '0' <= c <= '9'
  }

  /** A character allowed before the "@". */
  predicate IsLocalChar(c: char)
  {
    IsAsciiAlnum(c) || c in ".!#$%&'*+/=?^_`{|}~-"
  }

  /** One domain label: 1 to 63 letters, digits or hyphens, starting and
      ending with a letter or digit. */
  predicate IsLabel(l: string)
  {
    && 1 <= |l| <= 63
    && IsAsciiAlnum(l[0])
    && IsAsciiAlnum(l[|l| - 1])
    && forall i :: 0 <= i < |l| ==> IsAsciiAlnum(l[i]) || l[i] == '-'
  }

  /** Labels separated by single dots. */
  predicate IsDomain(d: string)
    decreases |d|
  {
    || IsLabel(d)
    || exists k :: 0 < k < |d| && d[k] == '.' && IsLabel(d[..k]) && IsDomain(d[k + 1..])
  }

  /** A non-empty local part, an "@", and a domain. */
  predicate ValidEmail(s: string)
  {
    exists i :: 0 < i < |s| && s[i] == '@' && (forall j :: 0 <= j < i ==> IsLocalChar(s[j])) && IsDomain(s[i + 1..])
  }

  /** The empty string is no e-mail address, so an untouched e-mail input
      blocks its form. */
  lemma EmptyIsNotEmail()
    ensures !ValidEmail("")
  {
  }

  /** A domain contains no "@". */
  lemma {:induction false} DomainHasNoAt(d: string)
    requires IsDomain(d)
    ensures forall k :: 0 <= k < |d| ==> d[k] != '@'
    decreases |d|
  {
    if !IsLabel(d) {
      var k :| 0 < k < |d| && d[k] == '.' && IsLabel(d[..k]) && IsDomain(d[k + 1..]);
      DomainHasNoAt(d[k + 1..]);
      forall j | 0 <= j < |d| ensures d[j] != '@' {
        if j < k {
          assert d[j] == d[..k][j];
        } else if j > k {
          assert d[j] == d[k + 1..][j - k - 1];
        }
      }
    }
  }

  /** A valid address has exactly one "@": everything before it is a
      non-empty local part and everything after it a domain. */
  lemma AtSignUnique(s: string, i: nat, j: nat)
    requires ValidEmail(s)
    requires i < |s| && s[i] == '@' && j < |s| && s[j] == '@'
    ensures i == j && 0 < i && IsDomain(s[i + 1..])
  {
    var a :| 0 < a < |s| && s[a] == '@' && (forall j :: 0 <= j < a ==> IsLocalChar(s[j])) && IsDomain(s[a + 1..]);
    DomainHasNoAt(s[a + 1..]);
    forall k | a < k < |s| ensures s[k] != '@' {
      assert s[k] == s[a + 1..][k - a - 1];
    }
  }

  /** An ordinary address passes. */
  lemma ExampleEmail()
    ensures ValidEmail("ann@shop.in")
  {
    var s := "ann@shop.in";
    assert s[3] == '@';
    var d := s[4..];
    assert d == "shop.in";
    assert IsLabel(d[..4]) && d[4] == '.';
    assert IsLabel(d[5..]);
    assert IsDomain(d[5..]);
    assert IsDomain(d);
  }
}
