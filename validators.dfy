/**
 * The two input validators of the registration system: the e-mail format
 * check (one fixed regular expression, restated here as a plain predicate
 * over strings) and the password strength check.
 */
module Validators {

  // ---------------------------------------------------------------------------
  // Character classes of the e-mail pattern
  // ---------------------------------------------------------------------------

  /** `[a-zA-Z]`: ASCII letters only. */
  predicate IsAsciiLetter(c: char) {
    ('a' <= c <= 'z') || ('A' <= c <= 'Z')
  }

  /** `[0-9]`. */
  predicate IsAsciiDigit(c: char) {
    '0' <= c <= '9'
  }

  /** `[a-zA-Z0-9._%+-]`: the characters allowed before the '@'. */
  predicate IsLocalChar(c: char) {
    IsAsciiLetter(c) || IsAsciiDigit(c) || c == '.' || c == '_' || c == '%' || c == '+' || c == '-'
  }

  /** `[a-zA-Z0-9.-]`: the characters allowed between the '@' and the final dot. */
  predicate IsDomainChar(c: char) {
    IsAsciiLetter(c) || IsAsciiDigit(c) || c == '.' || c == '-'
  }

  predicate AllLocalChars(s: string) {
    forall i :: 0 <= i < |s| ==> IsLocalChar(s[i])
  }

  predicate AllDomainChars(s: string) {
    forall i :: 0 <= i < |s| ==> IsDomainChar(s[i])
  }

  /** `[a-zA-Z0-9._%+-]+` */
  predicate IsLocalPart(s: string) {
    |s| >= 1 && AllLocalChars(s)
  }

  /** `[a-zA-Z0-9.-]+` */
  predicate IsDomainPart(s: string) {
    |s| >= 1 && AllDomainChars(s)
  }

  /** `[a-zA-Z]{2,}` */
  predicate IsTopLevelPart(s: string) {
    |s| >= 2 && forall i :: 0 <= i < |s| ==> IsAsciiLetter(s[i])
  }

  // ---------------------------------------------------------------------------
  // Reference meaning of the pattern ^[a-zA-Z0-9._%+-]+@[a-zA-Z0-9.-]+\.[a-zA-Z]{2,}$
  // ---------------------------------------------------------------------------

  /** The address spelled by its three parts: local "@" domain "." tld. */
  function Compose(local: string, domain: string, tld: string): string {
    local + "@" + domain + "." + tld
  }

  /**
   * The whole string is matched by the pattern (anchored at both ends):
   * it splits into a local part, '@', a domain, '.', and a top-level part.
   */
  ghost predicate PatternMatch(s: string) {
    exists local, domain, tld ::
      s == Compose(local, domain, tld) &&
      IsLocalPart(local) && IsDomainPart(domain) && IsTopLevelPart(tld)
  }

  // ---------------------------------------------------------------------------
  // Searching helpers
  // ---------------------------------------------------------------------------

  /** Position of the first occurrence of `c` in `s` at or after `from`, or -1 when there is none. */
  function IndexFrom(s: string, c: char, from: nat): (r: int)
    requires from <= |s|
    ensures r == -1 || from <= r < |s|
    ensures r >= 0 ==> s[r] == c
    ensures forall j :: from <= j < |s| && (r == -1 || j < r) ==> s[j] != c
    decreases |s| - from
  {
    if from == |s| then -1
    else if s[from] == c then from
    else IndexFrom(s, c, from + 1)
  }

  /** Position of the first occurrence of `c` in `s`, or -1 when there is none. */
  function IndexOf(s: string, c: char): (r: int)
    ensures -1 <= r < |s|
    ensures r >= 0 ==> s[r] == c
    ensures forall j :: 0 <= j < |s| && (r == -1 || j < r) ==> s[j] != c
  {
    IndexFrom(s, c, 0)
  }

  /** Position of the last occurrence of `c` in `s` before `upto`, or -1 when there is none. */
  function LastIndexBefore(s: string, c: char, upto: nat): (r: int)
    requires upto <= |s|
    ensures -1 <= r < upto
    ensures r >= 0 ==> s[r] == c
    ensures forall j :: r < j < upto ==> s[j] != c
  {
    if upto == 0 then -1
    else if s[upto - 1] == c then upto - 1
    else LastIndexBefore(s, c, upto - 1)
  }

  // ---------------------------------------------------------------------------
  // The e-mail validator
  // ---------------------------------------------------------------------------

  /**
   * The pattern as a decision procedure, anchored at both ends, on the first
   * `n` characters of `s`: no allowed character is '@', so the first '@' is
   * the only one; no top-level character is '.', so the last '.' separates
   * the domain from the top-level part, and it must come after the '@' with
   * at least one character between them.
   */
  predicate MatchesPrefix(s: string, n: nat)
    requires n <= |s|
  {
    var at := IndexOf(s, '@');
    var dot := LastIndexBefore(s, '.', n);
    0 < at && at + 1 < dot && dot + 2 < n &&
    (forall i :: 0 <= i < at ==> IsLocalChar(s[i])) &&
    (forall i :: at < i < dot ==> IsDomainChar(s[i])) &&
    (forall i :: dot < i < n ==> IsAsciiLetter(s[i]))
  }

  /** The pattern, anchored at both ends, on the whole of `s`. */
  predicate MatchesPattern(s: string) {
    MatchesPrefix(s, |s|)
  }

  /**
   * The part of the input the pattern must cover: `re.match` with a pattern
   * ending in `$` also succeeds when one '\n' follows the match at the very
   * end of the string.
   */
  function MatchedLength(s: string): (n: nat)
    ensures n == |s| || (n == |s| - 1 && s[n] == '\n')
  {
    if |s| > 0 && s[|s| - 1] == '\n' then |s| - 1 else |s|
  }

  /**
   * `validar_email`: total, never fails. The shortest address the pattern
   * admits has one local character, '@', one domain character, '.', and two
   * letters, so nothing shorter than six characters is accepted.
   */
  function ValidarEmail(email: string): (r: bool)
    ensures r ==> |email| >= 6
  {
    MatchesPrefix(email, MatchedLength(email))
  }

  // ---------------------------------------------------------------------------
  // The password validator
  // ---------------------------------------------------------------------------

  /** `any(char.isdigit() for char in senha)`, over ASCII digits. */
  function HasDigit(s: string): (r: bool)
    ensures r <==> exists i :: 0 <= i < |s| && IsAsciiDigit(s[i])
  {
    if |s| == 0 then false
    else if IsAsciiDigit(s[0]) then true
    else
      var r := HasDigit(s[1..]);
      assert forall i :: 1 <= i < |s| ==> s[i] == s[1..][i - 1];
      r
  }

  /** `validar_senha`: at least 6 characters, then at least one digit. */
  function ValidarSenha(senha: string): (r: bool)
    ensures r <==> |senha| >= 6 && exists i :: 0 <= i < |senha| && IsAsciiDigit(senha[i])
  {
    if |senha| < 6 then false
    else if !HasDigit(senha) then false
    else true
  }

  // ---------------------------------------------------------------------------
  // The decision procedure agrees with the pattern
  // ---------------------------------------------------------------------------

  /** Every string the decision procedure accepts is matched by the pattern. */
  lemma MatchesPatternSound(s: string)
    requires MatchesPattern(s)
    ensures PatternMatch(s)
  {
    var at := IndexOf(s, '@');
    var dot := LastIndexBefore(s, '.', |s|);
    var local, domain, tld := s[..at], s[at + 1..dot], s[dot + 1..];
    assert s == local + "@" + domain + "." + tld by {
      assert s == s[..at] + [s[at]] + s[at + 1..dot] + [s[dot]] + s[dot + 1..];
    }
    assert IsDomainPart(domain) by {
      forall i | 0 <= i < |domain| ensures IsDomainChar(domain[i]) {
        assert domain[i] == s[at + 1 + i];
      }
    }
    assert IsTopLevelPart(tld) by {
      forall i | 0 <= i < |tld| ensures IsAsciiLetter(tld[i]) {
        assert tld[i] == s[dot + 1 + i];
      }
    }
    assert s == Compose(local, domain, tld);
  }

  /** Where each part of a composed address sits. */
  lemma ComposeLayout(local: string, domain: string, tld: string)
    ensures
      var s := Compose(local, domain, tld);
      && |s| == |local| + |domain| + |tld| + 2
      && (forall i :: 0 <= i < |local| ==> s[i] == local[i])
      && s[|local|] == '@'
      && (forall i :: |local| < i < |local| + 1 + |domain| ==> s[i] == domain[i - |local| - 1])
      && s[|local| + 1 + |domain|] == '.'
      && (forall i :: |local| + 1 + |domain| < i < |s| ==> s[i] == tld[i - |local| - |domain| - 2])
  {
  }

  /** Every string matched by the pattern is accepted by the decision procedure. */
  lemma MatchesPatternComplete(s: string)
    requires PatternMatch(s)
    ensures MatchesPattern(s)
  {
    var local, domain, tld :|
      s == Compose(local, domain, tld) &&
      IsLocalPart(local) && IsDomainPart(domain) && IsTopLevelPart(tld);
    ComposeLayout(local, domain, tld);
    var at, dot := |local|, |local| + 1 + |domain|;
    forall i | 0 <= i < at ensures IsLocalChar(s[i]) && s[i] != '@' {
      assert IsLocalChar(local[i]);
    }
    forall i | at < i < dot ensures IsDomainChar(s[i]) {
      assert IsDomainChar(domain[i - at - 1]);
    }
    forall i | dot < i < |s| ensures IsAsciiLetter(s[i]) && s[i] != '.' {
      assert IsAsciiLetter(tld[i - dot - 1]);
    }
    assert IndexOf(s, '@') == at;
    assert LastIndexBefore(s, '.', |s|) == dot;
  }

  /** Matching a prefix of `s` is matching that prefix on its own. */
  lemma MatchesPrefixIsPattern(s: string, n: nat)
    requires n <= |s|
    ensures MatchesPrefix(s, n) <==> MatchesPattern(s[..n])
  {
    var t := s[..n];
    assert forall j :: 0 <= j < n ==> t[j] == s[j];
  }

  /** A string that ends in '\n' is never matched by the anchored pattern. */
  lemma NoMatchEndingInNewline(s: string)
    requires |s| > 0 && s[|s| - 1] == '\n'
    ensures !PatternMatch(s)
  {
  }

  /**
   * `validar_email` holds exactly when the pattern matches the whole string,
   * or the whole string but one final '\n' (Python's `$`).
   */
  lemma ValidarEmailIff(email: string)
    ensures ValidarEmail(email) <==>
      PatternMatch(email) ||
      (|email| > 0 && email[|email| - 1] == '\n' && PatternMatch(email[..|email| - 1]))
  {
    var n := MatchedLength(email);
    MatchesPrefixIsPattern(email, n);
    var t := email[..n];
    assert n == |email| ==> t == email;
    if MatchesPattern(t) {
      MatchesPatternSound(t);
    }
    if PatternMatch(t) {
      MatchesPatternComplete(t);
    }
    if |email| > 0 && email[|email| - 1] == '\n' {
      NoMatchEndingInNewline(email);
    }
  }

  // ---------------------------------------------------------------------------
  // Consequences for accepted e-mails
  // ---------------------------------------------------------------------------

  /**
   * An accepted e-mail has exactly one '@', and it is neither the first nor
   * the last character, so both sides of it are non-empty.
   */
  lemma AcceptedHasOneAt(email: string)
    requires ValidarEmail(email)
    ensures
      var k := IndexOf(email, '@');
      0 < k < |email| - 1 && forall j :: 0 <= j < |email| && email[j] == '@' ==> j == k
  {
  }

  /**
   * An accepted e-mail ends, but for one optional final '\n', in its last
   * '.' followed by at least two letters and nothing else.
   */
  lemma AcceptedEndsWithTopLevel(email: string)
    requires ValidarEmail(email)
    ensures
      var n := MatchedLength(email);
      var dot := LastIndexBefore(email, '.', n);
      0 <= dot && dot + 2 < n && forall i :: dot < i < n ==> IsAsciiLetter(email[i])
  {
  }

  /** An address built from valid parts is accepted. */
  lemma ComposeAccepted(local: string, domain: string, tld: string)
    requires IsLocalPart(local) && IsDomainPart(domain) && IsTopLevelPart(tld)
    ensures ValidarEmail(Compose(local, domain, tld))
  {
    var s := Compose(local, domain, tld);
    ComposeLayout(local, domain, tld);
    assert IsAsciiLetter(s[|s| - 1]);
    MatchesPatternComplete(s);
  }

  /** A string without '@' is rejected. */
  lemma RejectedWithoutAt(email: string)
    requires forall i :: 0 <= i < |email| ==> email[i] != '@'
    ensures !ValidarEmail(email)
  {
    if ValidarEmail(email) {
      AcceptedHasOneAt(email);
    }
  }

  /** A string that starts with '@' has an empty local part and is rejected. */
  lemma RejectedStartingWithAt(email: string)
    requires |email| > 0 && email[0] == '@'
    ensures !ValidarEmail(email)
  {
    if ValidarEmail(email) {
      AcceptedHasOneAt(email);
    }
  }

  /** A string without '.' has no top-level part and is rejected. */
  lemma RejectedWithoutDot(email: string)
    requires forall i :: 0 <= i < |email| ==> email[i] != '.'
    ensures !ValidarEmail(email)
  {
    if ValidarEmail(email) {
      AcceptedEndsWithTopLevel(email);
    }
  }

  // ---------------------------------------------------------------------------
  // The examples the unit tests assert
  // ---------------------------------------------------------------------------

  /** CT01: a plain address is accepted. */
  lemma AcceptsPlainAddress()
    ensures ValidarEmail("usuario@exemplo.com")
  {
    assert "usuario@exemplo.com" == Compose("usuario", "exemplo", "com");
    ComposeAccepted("usuario", "exemplo", "com");
  }

  /** CT01: a domain with several dots is accepted. */
  lemma AcceptsMultiDotDomain()
    ensures ValidarEmail("teste123@dominio.com.br")
  {
    assert "teste123@dominio.com.br" == Compose("teste123", "dominio.com", "br");
    ComposeAccepted("teste123", "dominio.com", "br");
  }

  /** CT01: dots on both sides of the '@' are accepted. */
  lemma AcceptsDottedLocalPart()
    ensures ValidarEmail("nome.sobrenome@empresa.co.uk")
  {
    assert "nome.sobrenome@empresa.co.uk" == Compose("nome.sobrenome", "empresa.co", "uk");
    ComposeAccepted("nome.sobrenome", "empresa.co", "uk");
  }

  /** CT02: no '@'. */
  lemma RejectsMissingAt()
    ensures !ValidarEmail("email_sem_arroba.com")
  {
    var s := "email_sem_arroba.com";
    forall i | 0 <= i < |s| ensures s[i] != '@' { }
    RejectedWithoutAt(s);
  }

  /** CT02: empty local part. */
  lemma RejectsEmptyLocalPart()
    ensures !ValidarEmail("@sem_usuario.com")
  {
    RejectedStartingWithAt("@sem_usuario.com");
  }

  /** CT02: no dot, so no top-level part. */
  lemma RejectsMissingTopLevel()
    ensures !ValidarEmail("usuario@sem_dominio")
  {
    var s := "usuario@sem_dominio";
    forall i | 0 <= i < |s| ensures s[i] != '.' { }
    RejectedWithoutDot(s);
  }

  /** CT02: the empty string. */
  lemma RejectsEmpty()
    ensures !ValidarEmail("")
  {
    RejectedWithoutAt("");
  }

  /** CT06: a bare word. */
  lemma RejectsBareWord()
    ensures !ValidarEmail("email_invalido")
  {
    var s := "email_invalido";
    forall i | 0 <= i < |s| ensures s[i] != '@' { }
    RejectedWithoutAt(s);
  }

  /** CT03: passwords of six or more characters with a digit are accepted. */
  lemma AcceptsPasswordExamples()
    ensures ValidarSenha("senha123")
    ensures ValidarSenha("abc123")
    ensures ValidarSenha("minhasenha9")
  {
    assert IsAsciiDigit("senha123"[5]);
    assert IsAsciiDigit("abc123"[3]);
    assert IsAsciiDigit("minhasenha9"[10]);
  }

  /** CT04, CT07: too short, or empty. */
  lemma RejectsShortPasswords()
    ensures !ValidarSenha("abc12")
    ensures !ValidarSenha("")
  {
  }

  /** A password without any digit is rejected, whatever its length. */
  lemma RejectedWithoutDigit(senha: string)
    requires forall i :: 0 <= i < |senha| ==> !IsAsciiDigit(senha[i])
    ensures !ValidarSenha(senha)
  {
  }

  /** CT04: long enough but without a digit. */
  lemma RejectsPasswordWithoutDigit()
    ensures !ValidarSenha("senhasemnumero")
  {
    var s := "senhasemnumero";
    assert forall i :: 0 <= i < |s| ==> !IsAsciiDigit(s[i]);
    RejectedWithoutDigit(s);
  }
}
