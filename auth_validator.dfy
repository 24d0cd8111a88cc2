/**
 * The checks on the registration and login bodies: each lists the messages
 * of every rule a field breaks, after the `trim()` sanitizer where the chain
 * has one. `isEmail` and `normalizeEmail` belong to the validation library
 * and are taken as parameters.
 */
module AuthValidator {

  import opened Text

  datatype AuthFieldError =
    | NameRequired | NameLength | NameCharacters
    | EmailRequired | EmailInvalid | EmailTooLong
    | PasswordRequired | PasswordLength | PasswordWeak

  /** The class `[a-zA-ZÀ-ÿ\s\-']` of the name pattern. */
  predicate IsNameChar(c: char) {
    ('a' <= c <= 'z') || ('A' <= c <= 'Z') || ('À' <= c <= 'ÿ') || IsSpace(c) || c == '-' || c == '\''
  }

  /** `/^[a-zA-ZÀ-ÿ\s\-']+$/`. */
  predicate MatchesNamePattern(s: string)
    ensures MatchesNamePattern(s) ==> |s| >= 1 && forall k :: 0 <= k < |s| ==> !IsDigit(s[k])
  {
    |s| > 0 && forall k :: 0 <= k < |s| ==> IsNameChar(s[k])
  }

  /** The part of `s` the pattern `.*` can cover from the start: up to the first line terminator. */
  function FirstLine(s: string): (r: string)
    ensures |r| <= |s| && r == s[..|r|]
    ensures forall k :: 0 <= k < |r| ==> !IsLineTerminator(r[k])
    ensures |r| < |s| ==> IsLineTerminator(s[|r|])
    decreases |s|
  {
    if s == [] || IsLineTerminator(s[0]) then []
    else [s[0]] + FirstLine(s[1..])
  }

  /** `/^(?=.*[a-z])(?=.*[A-Z])(?=.*\d)/`: each lookahead scans only up to the first line terminator. */
  predicate MatchesPasswordPattern(s: string)
    ensures MatchesPasswordPattern(s) ==> |FirstLine(s)| >= 3
  {
    var line := FirstLine(s);
    && (exists k :: 0 <= k < |line| && 'a' <= line[k] <= 'z')
    && (exists k :: 0 <= k < |line| && 'A' <= line[k] <= 'Z')
    && (exists k :: 0 <= k < |line| && IsDigit(line[k]))
  }

  /** The `name` rules of `registerValidator`. */
  function NameErrors(name: string): (errs: seq<AuthFieldError>)
    ensures errs == [] <==> 2 <= |Trim(name)| <= 50 && MatchesNamePattern(Trim(name))
  {
    var t := Trim(name);
    (if |t| == 0 then [NameRequired] else [])
      + (if !(2 <= |t| <= 50) then [NameLength] else [])
      + (if !MatchesNamePattern(t) then [NameCharacters] else [])
  }

  /** The `email` rules of `registerValidator`: the length limit applies to the normalized address. */
  function RegisterEmailErrors(email: string, isEmail: string -> bool, normalizeEmail: string -> string): (errs: seq<AuthFieldError>)
    ensures errs == [] <==> |Trim(email)| > 0 && isEmail(Trim(email)) && |normalizeEmail(Trim(email))| <= 100
  {
    var t := Trim(email);
    (if |t| == 0 then [EmailRequired] else [])
      + (if !isEmail(t) then [EmailInvalid] else [])
      + (if |normalizeEmail(t)| > 100 then [EmailTooLong] else [])
  }

  /** The `password` rules of `registerValidator` (no trimming). */
  function PasswordErrors(password: string): (errs: seq<AuthFieldError>)
    ensures errs == [] <==> 6 <= |password| <= 100 && MatchesPasswordPattern(password)
  {
    (if |password| == 0 then [PasswordRequired] else [])
      + (if !(6 <= |password| <= 100) then [PasswordLength] else [])
      + (if !MatchesPasswordPattern(password) then [PasswordWeak] else [])
  }

  function RegisterErrors(name: string, email: string, password: string,
    isEmail: string -> bool, normalizeEmail: string -> string): (errs: seq<AuthFieldError>)
    ensures errs == [] <==>
      NameErrors(name) == [] && RegisterEmailErrors(email, isEmail, normalizeEmail) == [] && PasswordErrors(password) == []
  {
    NameErrors(name) + RegisterEmailErrors(email, isEmail, normalizeEmail) + PasswordErrors(password)
  }

  /** `loginValidator`: a non-empty trimmed email the library accepts, and a non-empty password. */
  function LoginErrors(email: string, password: string, isEmail: string -> bool): (errs: seq<AuthFieldError>)
    ensures errs == [] <==> |Trim(email)| > 0 && isEmail(Trim(email)) && |password| > 0
  {
    var t := Trim(email);
    (if |t| == 0 then [EmailRequired] else [])
      + (if !isEmail(t) then [EmailInvalid] else [])
      + (if |password| == 0 then [PasswordRequired] else [])
  }

  /** Without a line break, the password pattern asks for one lower-case letter, one capital and one digit anywhere. */
  lemma PasswordPatternOnOneLine(s: string)
    requires forall k :: 0 <= k < |s| ==> !IsLineTerminator(s[k])
    ensures MatchesPasswordPattern(s) <==>
      && (exists k :: 0 <= k < |s| && 'a' <= s[k] <= 'z')
      && (exists k :: 0 <= k < |s| && 'A' <= s[k] <= 'Z')
      && (exists k :: 0 <= k < |s| && IsDigit(s[k]))
  {
    assert FirstLine(s) == s;
  }

  /** `.*` stops at the first line terminator. */
  lemma {:induction false} FirstLineStopsAtBreak(p: string, c: char, q: string)
    requires forall k :: 0 <= k < |p| ==> !IsLineTerminator(p[k])
    requires IsLineTerminator(c)
    ensures FirstLine(p + [c] + q) == p
  {
    var s := p + [c] + q;
    if p == [] {
      assert s[0] == c;
    } else {
      FirstLineStopsAtBreak(p[1..], c, q);
      assert s[1..] == p[1..] + [c] + q;
      assert s[0] == p[0];
      assert p == [p[0]] + p[1..];
    }
  }

  /**
   * A line break hides what follows it from the lookaheads: a password whose
   * first line has no capital, such as "abcdef\nA1", is refused as weak.
   */
  lemma LineBreakHidesRequiredCharacters(p: string, q: string)
    requires forall k :: 0 <= k < |p| ==> !IsLineTerminator(p[k]) && !('A' <= p[k] <= 'Z')
    ensures !MatchesPasswordPattern(p + "\n" + q)
    ensures PasswordWeak in PasswordErrors(p + "\n" + q)
  {
    FirstLineStopsAtBreak(p, '\n', q);
    assert p + "\n" + q == p + ['\n'] + q;
  }

  /**
   * A name of 2 to 50 characters taken from `a-z`, `A-Z` and `À-ÿ` passes;
   * that range also holds the multiplication and division signs.
   */
  lemma LetterNamesPass(s: string)
    requires 2 <= |s| <= 50
    requires forall k :: 0 <= k < |s| ==> ('a' <= s[k] <= 'z') || ('A' <= s[k] <= 'Z') || ('À' <= s[k] <= 'ÿ')
    ensures NameErrors(s) == []
    ensures IsNameChar('×') && IsNameChar('÷')
  {
    TrimKeepsCore(s);
    assert MatchesNamePattern(s) by {
      forall k | 0 <= k < |s| ensures IsNameChar(s[k]) {
      }
    }
  }
}
