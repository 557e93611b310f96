/** The email field's rules: `required`, then the case-insensitive pattern
    `^[A-Z0-9._%+-]+@[A-Z0-9.-]+\.[A-Z]{2,}$`, decided over character
    classes rather than by a regular-expression engine. */
module EmailRule {
  import opened FormTypes
  import opened JsParseInt

  const EmailRequired := "Email is required"
  const InvalidEmail := "Invalid email address"

  /** `[A-Z]` under the `i` flag. Without the `u` flag a non-ASCII letter
      never folds onto an ASCII one, so only ASCII letters match. */
  predicate IsAsciiLetter(c: char)
  {
    'A' <= c <= 'Z' || 'a' <= c <= 'z'
  }

  /** `[A-Z0-9._%+-]` under the `i` flag. */
  predicate IsLocalChar(c: char)
  {
    IsAsciiLetter(c) || IsDigit(c) || c == '.' || c == '_' || c == '%' || c == '+' || c == '-'
  }

  /** `[A-Z0-9.-]` under the `i` flag. */
  predicate IsDomainChar(c: char)
  {
    IsAsciiLetter(c) || IsDigit(c) || c == '.' || c == '-'
  }

  predicate AllLocal(s: string)
  {
    forall i :: 0 <= i < |s| ==> IsLocalChar(s[i])
  }

  predicate AllDomain(s: string)
  {
    forall i :: 0 <= i < |s| ==> IsDomainChar(s[i])
  }

  predicate AllLetters(s: string)
  {
    forall i :: 0 <= i < |s| ==> IsAsciiLetter(s[i])
  }

  /** The language of the anchored pattern: a non-empty local part, '@', a
      non-empty domain run, '.', and a final run of two or more letters. */
  ghost predicate InPatternLanguage(s: string)
  {
    exists a, k :: 1 <= a && a + 2 <= k && k + 3 <= |s|
      && AllLocal(s[..a]) && s[a] == '@'
      && AllDomain(s[a + 1..k]) && s[k] == '.'
      && AllLetters(s[k + 1..])
  }

  /** The position of the first c in s, if any. */
  function IndexOf(s: string, c: char): (r: Option<nat>)
    ensures r.Some? ==> r.value < |s| && s[r.value] == c
    ensures r.Some? ==> forall j :: 0 <= j < r.value ==> s[j] != c
    ensures r.None? ==> forall j :: 0 <= j < |s| ==> s[j] != c
  {
    if s == [] then None
    else if s[0] == c then Some(0)
    else match IndexOf(s[1..], c)
      case None => None
      case Some(k) => Some(k + 1)
  }

  /** The position of the last c in s, if any. */
  function LastIndexOf(s: string, c: char): (r: Option<nat>)
    ensures r.Some? ==> r.value < |s| && s[r.value] == c
    ensures r.Some? ==> forall j :: r.value < j < |s| ==> s[j] != c
    ensures r.None? ==> forall j :: 0 <= j < |s| ==> s[j] != c
  {
    if s == [] then None
    else if s[|s| - 1] == c then Some(|s| - 1)
    else LastIndexOf(s[..|s| - 1], c)
  }

  /** The decision procedure for the pattern: split at the first '@'; the
      local part must be non-empty and made of local-part characters, the
      domain of domain characters (so it holds no second '@'), and the
      domain's last '.' must have something before it and at least two
      letters after it. */
  predicate MatchesEmailPattern(s: string)
  {
    match IndexOf(s, '@')
    case None => false
    case Some(at) =>
      var domain := s[at + 1..];
      && at >= 1 && AllLocal(s[..at]) && AllDomain(domain)
      && match LastIndexOf(domain, '.')
         case None => false
         case Some(dot) => dot >= 1 && dot + 3 <= |domain| && AllLetters(domain[dot + 1..])
  }

  /** The email rules in order: `required` first, then `pattern`. */
  function ValidateEmail(email: string): Verdict
  {
    if email == "" then Invalid(EmailRequired)
    else if MatchesEmailPattern(email) then Valid
    else Invalid(InvalidEmail)
  }

  /** A match found by the decision procedure is a word of the pattern. */
  lemma MatchIsInLanguage(s: string)
    requires MatchesEmailPattern(s)
    ensures InPatternLanguage(s)
  {
    var at := IndexOf(s, '@').value;
    var domain := s[at + 1..];
    var dot := LastIndexOf(domain, '.').value;
    var k := at + 1 + dot;
    assert s[at + 1..k] == domain[..dot];
    assert AllDomain(domain[..dot]);
    assert s[k] == domain[dot];
    assert s[k + 1..] == domain[dot + 1..];
    assert 1 <= at && at + 2 <= k && k + 3 <= |s|;
  }

  /** The first occurrence is the one with no c before it. */
  lemma IndexOfIs(s: string, c: char, a: nat)
    requires a < |s| && s[a] == c
    requires forall j :: 0 <= j < a ==> s[j] != c
    ensures IndexOf(s, c) == Some(a)
  {
  }

  /** The last occurrence is the one with no c after it. */
  lemma LastIndexOfIs(s: string, c: char, a: nat)
    requires a < |s| && s[a] == c
    requires forall j :: a < j < |s| ==> s[j] != c
    ensures LastIndexOf(s, c) == Some(a)
  {
  }

  /** The domain of a word of the pattern is made of domain characters. */
  lemma DomainOfWord(s: string, a: nat, k: nat)
    requires a + 2 <= k && k + 3 <= |s|
    requires AllDomain(s[a + 1..k]) && s[k] == '.'
    requires AllLetters(s[k + 1..])
    ensures AllDomain(s[a + 1..])
  {
    var domain := s[a + 1..];
    var dot := k - a - 1;
    forall j | 0 <= j < |domain| ensures IsDomainChar(domain[j]) {
      if j < dot {
        assert domain[j] == s[a + 1..k][j];
      } else if j > dot {
        assert domain[j] == s[k + 1..][j - dot - 1];
      }
    }
  }

  /** Every word of the pattern is found by the decision procedure. */
  lemma LanguageIsMatched(s: string, a: nat, k: nat)
    requires 1 <= a && a + 2 <= k && k + 3 <= |s|
    requires AllLocal(s[..a]) && s[a] == '@'
    requires AllDomain(s[a + 1..k]) && s[k] == '.'
    requires AllLetters(s[k + 1..])
    ensures MatchesEmailPattern(s)
  {
    assert forall j :: 0 <= j < a ==> s[j] == s[..a][j];
    IndexOfIs(s, '@', a);
    var domain := s[a + 1..];
    var dot := k - a - 1;
    assert domain[dot] == '.';
    assert domain[dot + 1..] == s[k + 1..];
    assert forall j :: dot < j < |domain| ==> domain[j] == s[k + 1..][j - dot - 1];
    LastIndexOfIs(domain, '.', dot);
    DomainOfWord(s, a, k);
  }

  /** The decision procedure accepts exactly the words of the pattern. */
  lemma MatchesEmailPatternIff(s: string)
    ensures MatchesEmailPattern(s) <==> InPatternLanguage(s)
  {
    if MatchesEmailPattern(s) {
      MatchIsInLanguage(s);
    }
    if InPatternLanguage(s) {
      var a, k :| 1 <= a && a + 2 <= k && k + 3 <= |s|
        && AllLocal(s[..a]) && s[a] == '@'
        && AllDomain(s[a + 1..k]) && s[k] == '.'
        && AllLetters(s[k + 1..]);
      LanguageIsMatched(s, a, k);
    }
  }

  /** An accepted address holds exactly one '@'. */
  lemma AcceptedHasOneAt(s: string)
    requires MatchesEmailPattern(s)
    ensures exists a :: 0 <= a < |s| && s[a] == '@'
    ensures forall i, j :: 0 <= i < |s| && 0 <= j < |s| && s[i] == '@' && s[j] == '@' ==> i == j
  {
    var at := IndexOf(s, '@').value;
    var domain := s[at + 1..];
    forall i | at < i < |s| ensures s[i] != '@' {
      assert s[i] == domain[i - at - 1];
    }
  }

  /** The empty address gets the `required` message before the pattern is
      consulted; any other address is accepted exactly when it is a word of
      the pattern and otherwise gets the pattern's message. */
  lemma ValidateEmailRules(email: string)
    ensures email == "" ==> ValidateEmail(email) == Invalid(EmailRequired)
    ensures email != "" ==> (ValidateEmail(email) == Valid <==> InPatternLanguage(email))
    ensures email != "" && !InPatternLanguage(email) ==> ValidateEmail(email) == Invalid(InvalidEmail)
  {
    MatchesEmailPatternIff(email);
  }
}
