/** The email check shared by signup and profile update:
    `^[a-zA-Z0-9._%+-]+@[a-zA-Z0-9.-]+\.[a-zA-Z]{2,}$` matched against the whole string. */
module Email {
  import opened Common
  import opened Seqs

  predicate IsLetter(c: char) { 'a' <= c <= 'z' || 'A' <= c <= 'Z' }

  predicate IsDigit(c: char) { '0' <= c <= '9' }

  /** `[a-zA-Z0-9._%+-]` */
  predicate IsLocalChar(c: char)
  {
    IsLetter(c) || IsDigit(c) || c == '.' || c == '_' || c == '%' || c == '+' || c == '-'
  }

  /** `[a-zA-Z0-9.-]` */
  predicate IsDomainChar(c: char) { IsLetter(c) || IsDigit(c) || c == '.' || c == '-' }

  predicate AllLocal(s: string) { forall i :: 0 <= i < |s| ==> IsLocalChar(s[i]) }

  predicate AllDomain(s: string) { forall i :: 0 <= i < |s| ==> IsDomainChar(s[i]) }

  predicate AllLetters(s: string) { forall i :: 0 <= i < |s| ==> IsLetter(s[i]) }

  /** The regular expression, read as a decomposition of `s`: a non-empty local
      part `s[..at]`, the `@` at `at`, a non-empty domain run `s[at+1..dot]`,
      the `.` at `dot` and at least two letters after it. */
  ghost predicate EmailSplit(s: string, at: int, dot: int)
  {
    && 0 < at && at + 1 < dot && dot + 2 < |s|
    && s[at] == '@' && s[dot] == '.'
    && AllLocal(s[..at])
    && AllDomain(s[at + 1..dot])
    && AllLetters(s[dot + 1..])
  }

  ghost predicate MatchesPattern(s: string)
  {
    exists at, dot :: EmailSplit(s, at, dot)
  }

  /** The validator as the controllers run it: cut at the first `@` and at the last `.`. */
  function IsValidEmail(s: string): bool
  {
    match IndexOf(s, '@')
    case None => false
    case Some(at) =>
      match LastIndexOf(s, '.')
      case None => false
      case Some(dot) =>
        && 0 < at && at + 1 < dot && dot + 2 < |s|
        && AllLocal(s[..at])
        && AllDomain(s[at + 1..dot])
        && AllLetters(s[dot + 1..])
  }

  /** Any decomposition the pattern admits is the one the validator finds. */
  lemma SplitIsCanonical(s: string, at: int, dot: int)
    requires EmailSplit(s, at, dot)
    ensures IndexOf(s, '@') == Some(at)
    ensures LastIndexOf(s, '.') == Some(dot)
  {
    assert s[at] == '@';
    assert s[dot] == '.';
  }

  /** The validator accepts exactly the strings the regular expression matches. */
  lemma ValidatorMatchesPattern(s: string)
    ensures IsValidEmail(s) <==> MatchesPattern(s)
  {
    if IsValidEmail(s) {
      var at := IndexOf(s, '@').value;
      var dot := LastIndexOf(s, '.').value;
      assert EmailSplit(s, at, dot);
    }
    if MatchesPattern(s) {
      var at, dot :| EmailSplit(s, at, dot);
      SplitIsCanonical(s, at, dot);
    }
  }

  lemma NoAtSign(t: string)
    requires AllLocal(t) || AllDomain(t) || AllLetters(t)
    ensures '@' !in t
  {
  }

  /** A valid address holds exactly one `@`. */
  lemma ValidEmailHasOneAt(s: string)
    requires IsValidEmail(s)
    ensures multiset(s)['@'] == 1
  {
    var at := IndexOf(s, '@').value;
    var dot := LastIndexOf(s, '.').value;
    var local, domain, tld := s[..at], s[at + 1..dot], s[dot + 1..];
    NoAtSign(local);
    NoAtSign(domain);
    NoAtSign(tld);
    assert s == local + ([s[at]] + (domain + ([s[dot]] + tld)));
    assert multiset(local)['@'] == 0 && multiset(domain)['@'] == 0 && multiset(tld)['@'] == 0;
  }
}
