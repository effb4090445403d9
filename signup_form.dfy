/**
 * The submit-time validation of the signup page: one optional error per field,
 * in field order, and the signup call only when no error was found. The
 * email check is the page's regular expression
 *   ^[a-zA-Z0-9._%+-]+@[a-zA-Z0-9.-]+\.[a-zA-Z]{2,}$
 * under Python's re.match, written out as a hand-rolled matcher.
 */
module SignupForm {
  import opened Wrappers

  datatype SignupError =
    | UsernameMissing | UsernameLength
    | PasswordMissing | PasswordTooShort
    | ConfirmMissing | ConfirmMismatch
    | NameMissing | NameTooShort
    | EmailMissing | EmailMalformed

  /** The message the page shows for each error. */
  function Message(e: SignupError): string
  {
    match e
    case UsernameMissing => "아이디를 입력해주세요."
    case UsernameLength => "아이디는 4자 이상 20자 이하로 입력해주세요."
    case PasswordMissing => "비밀번호를 입력해주세요."
    case PasswordTooShort => "비밀번호는 6자 이상 입력해주세요."
    case ConfirmMissing => "비밀번호 확인을 입력해주세요."
    case ConfirmMismatch => "비밀번호가 일치하지 않습니다."
    case NameMissing => "이름을 입력해주세요."
    case NameTooShort => "이름은 2자 이상 입력해주세요."
    case EmailMissing => "이메일을 입력해주세요."
    case EmailMalformed => "올바른 이메일 형식을 입력해주세요."
  }

  /** The form field an error belongs to, in the order the page checks them. */
  function FieldOf(e: SignupError): nat
  {
    match e
    case UsernameMissing | UsernameLength => 0
    case PasswordMissing | PasswordTooShort => 1
    case ConfirmMissing | ConfirmMismatch => 2
    case NameMissing | NameTooShort => 3
    case EmailMissing | EmailMalformed => 4
  }

  // Character classes of the email pattern.

  predicate IsAsciiLetter(c: char)
  {
    'a' <= c <= 'z' || 'A' <= c <= 'Z'
  }

  predicate IsLocalChar(c: char)
  {
    IsAsciiLetter(c) || '0' <= c <= '9' || c == '.' || c == '_' || c == '%' || c == '+' || c == '-'
  }

  predicate IsDomainChar(c: char)
  {
    IsAsciiLetter(c) || '0' <= c <= '9' || c == '.' || c == '-'
  }

  predicate AllLocal(s: string)
  {
    forall i :: 0 <= i < |s| ==> IsLocalChar(s[i])
  }

  predicate AllDomain(s: string)
  {
    forall i :: 0 <= i < |s| ==> IsDomainChar(s[i])
  }

  predicate AllLetters(s: string)
  {
    forall i :: 0 <= i < |s| ==> IsAsciiLetter(s[i])
  }

  /** What the pattern between ^ and $ accepts, stated the way the pattern is
      written: a local part, "@", a domain body, ".", and two or more letters.
      The witnesses are the position of the "@" and of the final ".". */
  ghost predicate PatternBody(t: string)
  {
    exists at, dot :: PatternSplit(t, at, dot)
  }

  ghost predicate PatternSplit(t: string, at: int, dot: int)
  {
    && 0 < at && at + 1 < dot && dot + 2 < |t|
    && t[at] == '@' && t[dot] == '.'
    && AllLocal(t[..at])
    && AllDomain(t[at + 1..dot])
    && AllLetters(t[dot + 1..])
  }

  /** re.match with a trailing $: the body must reach the end of the string,
      or stop just before a final newline. */
  ghost predicate PatternMatches(s: string)
  {
    PatternBody(s) || (|s| > 0 && s[|s| - 1] == '\n' && PatternBody(s[..|s| - 1]))
  }

  /** Position of the last occurrence of `c`, if any. */
  function LastIndexOf(s: string, c: char): (r: Option<nat>)
    ensures r.None? <==> c !in s
    ensures r.Some? ==> r.value < |s| && s[r.value] == c && c !in s[r.value + 1..]
  {
    if s == [] then None
    else if s[|s| - 1] == c then Some(|s| - 1)
    else
      var r := LastIndexOf(s[..|s| - 1], c);
      assert s == s[..|s| - 1] + [s[|s| - 1]];
      if r.Some? then
        assert s[r.value + 1..] == s[..|s| - 1][r.value + 1..] + [s[|s| - 1]];
        r
      else r
  }

  /** Only one position can hold the last occurrence. */
  lemma LastIndexOfAt(s: string, c: char, k: nat)
    requires k < |s| && s[k] == c && c !in s[k + 1..]
    ensures LastIndexOf(s, c) == Some(k)
  {
    assert s[k] in s;
  }

  /** The matcher: the last "@" splits off a non-empty local part, and the
      last "." of the rest splits it into a non-empty domain body and a tail
      of two or more letters. No class of the pattern holds "@", so the
      address has exactly one. */
  function EmailBodyOk(t: string): bool
  {
    match LastIndexOf(t, '@')
    case None => false
    case Some(at) =>
      var domain := t[at + 1..];
      at > 0 && AllLocal(t[..at])
      && match LastIndexOf(domain, '.')
         case None => false
         case Some(dot) =>
           dot > 0 && AllDomain(domain[..dot])
           && |domain| - dot - 1 >= 2 && AllLetters(domain[dot + 1..])
  }

  function EmailOk(s: string): bool
  {
    EmailBodyOk(s) || (|s| > 0 && s[|s| - 1] == '\n' && EmailBodyOk(s[..|s| - 1]))
  }

  /** The positions the matcher finds, the "." counted within the domain,
      witness the pattern. */
  lemma SplitFromMatcher(t: string, at: nat, dot: nat)
    requires 0 < at < |t| && t[at] == '@' && AllLocal(t[..at])
    requires 0 < dot && at + 1 + dot + 2 < |t| && t[at + 1..][dot] == '.'
    requires AllDomain(t[at + 1..][..dot]) && AllLetters(t[at + 1..][dot + 1..])
    ensures PatternSplit(t, at, at + 1 + dot)
  {
    assert t[at + 1..at + 1 + dot] == t[at + 1..][..dot];
    assert t[at + 1 + dot + 1..] == t[at + 1..][dot + 1..];
    assert t[at + 1 + dot] == t[at + 1..][dot];
  }

  lemma MatcherSound(t: string)
    requires EmailBodyOk(t)
    ensures PatternBody(t)
  {
    var at := LastIndexOf(t, '@').value;
    var domain := t[at + 1..];
    var dot := LastIndexOf(domain, '.').value;
    SplitFromMatcher(t, at, dot);
  }

  /** Neither domain characters nor letters include "@", so the one at `at`
      is the last. */
  lemma NoAtAfterSplit(t: string, at: int, dot: int)
    requires PatternSplit(t, at, dot)
    ensures '@' !in t[at + 1..]
  {
    forall i | at + 1 <= i < |t| ensures t[i] != '@' {
      if i < dot {
        assert t[at + 1..dot][i - at - 1] == t[i];
      } else if i > dot {
        assert t[dot + 1..][i - dot - 1] == t[i];
      }
    }
  }

  /** Letters hold no ".", so the one at `dot` is the domain's last. */
  lemma NoDotAfterSplit(t: string, at: int, dot: int)
    requires PatternSplit(t, at, dot)
    ensures '.' !in t[at + 1..][dot - at..]
  {
    var domain := t[at + 1..];
    var d := dot - at - 1;
    forall i | d + 1 <= i < |domain| ensures domain[i] != '.' {
      assert domain[i] == t[dot + 1..][i - d - 1];
    }
  }

  /** The matcher accepts once its two searches land on a split. */
  lemma MatcherAccepts(t: string, at: nat, d: nat)
    requires at < |t| && LastIndexOf(t, '@') == Some(at)
    requires LastIndexOf(t[at + 1..], '.') == Some(d)
    requires at > 0 && AllLocal(t[..at])
    requires d > 0 && AllDomain(t[at + 1..][..d])
    requires |t[at + 1..]| - d - 1 >= 2 && AllLetters(t[at + 1..][d + 1..])
    ensures EmailBodyOk(t)
  {
  }

  lemma MatcherComplete(t: string, at: int, dot: int)
    requires PatternSplit(t, at, dot)
    ensures EmailBodyOk(t)
  {
    NoAtAfterSplit(t, at, dot);
    LastIndexOfAt(t, '@', at);
    var domain := t[at + 1..];
    var d := dot - at - 1;
    NoDotAfterSplit(t, at, dot);
    assert domain[d] == t[dot];
    LastIndexOfAt(domain, '.', d);
    assert domain[..d] == t[at + 1..dot];
    assert domain[d + 1..] == t[dot + 1..];
    MatcherAccepts(t, at, d);
  }

  /** The matcher accepts exactly what the pattern accepts. */
  lemma EmailBodyOkIsPattern(t: string)
    ensures EmailBodyOk(t) <==> PatternBody(t)
  {
    if EmailBodyOk(t) {
      MatcherSound(t);
    }
    if PatternBody(t) {
      var at, dot :| PatternSplit(t, at, dot);
      MatcherComplete(t, at, dot);
    }
  }

  lemma EmailOkIsPattern(s: string)
    ensures EmailOk(s) <==> PatternMatches(s)
  {
    EmailBodyOkIsPattern(s);
    if |s| > 0 {
      EmailBodyOkIsPattern(s[..|s| - 1]);
    }
  }

  /** Python's `$` also matches before one final newline, so an address
      followed by "\n" is accepted. */
  lemma TrailingNewlineAccepted(s: string)
    requires EmailOk(s) && (|s| == 0 || s[|s| - 1] != '\n')
    ensures EmailOk(s + "\n")
  {
    assert (s + "\n")[..|s|] == s;
  }

  /** One field's check: the "missing" error wins over the length or format
      error, and only the empty string counts as missing. */
  function UsernameCheck(username: string): (e: Option<SignupError>)
    ensures e.None? <==> 4 <= |username| <= 20
    ensures e.Some? ==> FieldOf(e.value) == 0 && (e.value == UsernameMissing <==> username == "")
  {
    if username == "" then Some(UsernameMissing)
    else if |username| < 4 || |username| > 20 then Some(UsernameLength)
    else None
  }

  function PasswordCheck(password: string): (e: Option<SignupError>)
    ensures e.None? <==> |password| >= 6
    ensures e.Some? ==> FieldOf(e.value) == 1 && (e.value == PasswordMissing <==> password == "")
  {
    if password == "" then Some(PasswordMissing)
    else if |password| < 6 then Some(PasswordTooShort)
    else None
  }

  function ConfirmCheck(password: string, confirm: string): (e: Option<SignupError>)
    ensures e.None? <==> confirm != "" && confirm == password
    ensures e.Some? ==> FieldOf(e.value) == 2 && (e.value == ConfirmMissing <==> confirm == "")
  {
    if confirm == "" then Some(ConfirmMissing)
    else if password != confirm then Some(ConfirmMismatch)
    else None
  }

  function NameCheck(name: string): (e: Option<SignupError>)
    ensures e.None? <==> |name| >= 2
    ensures e.Some? ==> FieldOf(e.value) == 3 && (e.value == NameMissing <==> name == "")
  {
    if name == "" then Some(NameMissing)
    else if |name| < 2 then Some(NameTooShort)
    else None
  }

  function EmailCheck(email: string): (e: Option<SignupError>)
    ensures e.None? <==> PatternMatches(email)
    ensures e.Some? ==> FieldOf(e.value) == 4 && (e.value == EmailMissing <==> email == "")
  {
    EmailOkIsPattern(email);
    if email == "" then Some(EmailMissing)
    else if !EmailOk(email) then Some(EmailMalformed)
    else None
  }

  function AsSeq(e: Option<SignupError>): seq<SignupError>
  {
    if e.Some? then [e.value] else []
  }

  /** The outcomes of the five field checks, in the order the page runs them;
      check k only ever reports an error of field k. */
  function Checks(username: string, password: string, confirm: string, name: string, email: string): (cs: seq<Option<SignupError>>)
    ensures |cs| == 5
    ensures forall k :: 0 <= k < 5 ==> cs[k].Some? ==> FieldOf(cs[k].value) == k
  {
    [UsernameCheck(username), PasswordCheck(password), ConfirmCheck(password, confirm), NameCheck(name), EmailCheck(email)]
  }

  /** The errors the checks report, appended one check after another. */
  function Collect(cs: seq<Option<SignupError>>): seq<SignupError>
  {
    if cs == [] then [] else Collect(cs[..|cs| - 1]) + AsSeq(cs[|cs| - 1])
  }

  function Errors(username: string, password: string, confirm: string, name: string, email: string): seq<SignupError>
  {
    Collect(Checks(username, password, confirm, name, email))
  }

  /** An error is collected exactly when some check reports it. */
  lemma {:induction false} CollectMembers(cs: seq<Option<SignupError>>, e: SignupError)
    ensures e in Collect(cs) <==> exists k :: 0 <= k < |cs| && cs[k] == Some(e)
  {
    if cs != [] {
      var init := cs[..|cs| - 1];
      CollectMembers(init, e);
      if e in Collect(init) {
        var k :| 0 <= k < |init| && init[k] == Some(e);
        assert cs[k] == Some(e);
      }
      if exists k :: 0 <= k < |cs| && cs[k] == Some(e) {
        var k :| 0 <= k < |cs| && cs[k] == Some(e);
        if k < |init| {
          assert init[k] == Some(e);
        }
      }
    }
  }

  /** Nothing is collected exactly when every check passes. */
  lemma {:induction false} CollectEmpty(cs: seq<Option<SignupError>>)
    ensures Collect(cs) == [] <==> forall k :: 0 <= k < |cs| ==> cs[k].None?
  {
    if cs != [] {
      var init := cs[..|cs| - 1];
      CollectEmpty(init);
      if Collect(cs) == [] {
        forall k | 0 <= k < |cs| ensures cs[k].None? {
          if k < |init| {
            assert init[k] == cs[k];
          }
        }
      }
    }
  }

  /** Strictly increasing fields: at most one error per field, in field
      order. */
  predicate FieldOrdered(es: seq<SignupError>)
  {
    forall i, j :: 0 <= i < j < |es| ==> FieldOf(es[i]) < FieldOf(es[j])
  }

  /** When check k only reports errors of field k, the collected errors have
      strictly increasing fields: at most one per field, in field order. */
  lemma {:induction false} CollectOrdered(cs: seq<Option<SignupError>>)
    requires forall k :: 0 <= k < |cs| ==> cs[k].Some? ==> FieldOf(cs[k].value) == k
    ensures forall e :: e in Collect(cs) ==> FieldOf(e) < |cs|
    ensures FieldOrdered(Collect(cs))
  {
    if cs != [] {
      var init := cs[..|cs| - 1];
      assert forall k :: 0 <= k < |init| ==> init[k] == cs[k];
      CollectOrdered(init);
      forall e | e in Collect(cs) ensures FieldOf(e) < |cs| {
        CollectMembers(cs, e);
      }
      var es := Collect(cs);
      var front := Collect(init);
      assert es == front + AsSeq(cs[|cs| - 1]);
      forall i, j | 0 <= i < j < |es| ensures FieldOf(es[i]) < FieldOf(es[j]) {
        if j >= |front| {
          assert es[i] == front[i] && es[i] in front;
          assert FieldOf(es[i]) < |init|;
          assert cs[|cs| - 1].Some?;
          assert es[j] == cs[|cs| - 1].value;
          assert FieldOf(es[j]) == |init|;
        } else {
          assert es[i] == front[i] && es[j] == front[j];
        }
      }
    }
  }

  /** The form the page accepts, field by field, with the email judged by the
      pattern itself. */
  ghost predicate Acceptable(username: string, password: string, confirm: string, name: string, email: string)
  {
    && 4 <= |username| <= 20
    && |password| >= 6
    && confirm != "" && confirm == password
    && |name| >= 2
    && PatternMatches(email)
  }

  /** No errors exactly for an acceptable form; at most one error per field,
      in field order; and an error is shown exactly when its own field's check
      reports it. */
  lemma ErrorsSpec(username: string, password: string, confirm: string, name: string, email: string)
    ensures var errors := Errors(username, password, confirm, name, email);
      && (errors == [] <==> Acceptable(username, password, confirm, name, email))
      && FieldOrdered(errors)
      && (forall e :: e in errors <==> Checks(username, password, confirm, name, email)[FieldOf(e)] == Some(e))
  {
    var cs := Checks(username, password, confirm, name, email);
    CollectEmpty(cs);
    CollectOrdered(cs);
    forall e ensures e in Collect(cs) <==> cs[FieldOf(e)] == Some(e) {
      CollectMembers(cs, e);
    }
    assert Acceptable(username, password, confirm, name, email) <==> forall k :: 0 <= k < |cs| ==> cs[k].None? by {
      assert cs[0] == UsernameCheck(username) && cs[1] == PasswordCheck(password)
        && cs[2] == ConfirmCheck(password, confirm) && cs[3] == NameCheck(name) && cs[4] == EmailCheck(email);
    }
  }

  /** One field's block of the submit handler: `if <missing>:
      errors.append(<first>) elif <bad>: errors.append(<second>)`. */
  method AppendFieldError(errors: seq<SignupError>, missing: bool, bad: bool, first: SignupError, second: SignupError)
    returns (result: seq<SignupError>)
    ensures result == errors + AsSeq(if missing then Some(first) else if bad then Some(second) else None)
  {
    result := errors;
    if missing {
      result := result + [first];
    } else if bad {
      result := result + [second];
    }
  }

  /** The submit handler's validation block: each field's check appends at
      most one error to the list, in field order. */
  method Validate(username: string, password: string, confirm: string, name: string, email: string)
    returns (errors: seq<SignupError>)
    ensures errors == Errors(username, password, confirm, name, email)
  {
    ghost var cs := Checks(username, password, confirm, name, email);
    errors := AppendFieldError([], username == "", |username| < 4 || |username| > 20, UsernameMissing, UsernameLength);
    assert errors == Collect(cs[..1]) by {
      assert cs[..1][..0] == [];
    }
    errors := AppendFieldError(errors, password == "", |password| < 6, PasswordMissing, PasswordTooShort);
    assert errors == Collect(cs[..2]) by {
      assert cs[..2][..1] == cs[..1];
    }
    errors := AppendFieldError(errors, confirm == "", password != confirm, ConfirmMissing, ConfirmMismatch);
    assert errors == Collect(cs[..3]) by {
      assert cs[..3][..2] == cs[..2];
    }
    errors := AppendFieldError(errors, name == "", |name| < 2, NameMissing, NameTooShort);
    assert errors == Collect(cs[..4]) by {
      assert cs[..4][..3] == cs[..3];
    }
    errors := AppendFieldError(errors, email == "", !EmailOk(email), EmailMissing, EmailMalformed);
    assert cs[..5] == cs && cs[..4] == cs[..|cs| - 1];
  }

  datatype SignupCall = SignupCall(username: string, password: string, name: string, email: string)

  /** Pressing the signup button: the errors are shown, or, when there are
      none, signup is called with the form's values (the confirmation is not
      sent). */
  method Submit(username: string, password: string, confirm: string, name: string, email: string)
    returns (errors: seq<SignupError>, call: Option<SignupCall>)
    ensures errors == Errors(username, password, confirm, name, email)
    ensures call.Some? <==> Acceptable(username, password, confirm, name, email)
    ensures call.Some? ==> call.value == SignupCall(username, password, name, email)
  {
    errors := Validate(username, password, confirm, name, email);
    ErrorsSpec(username, password, confirm, name, email);
    if errors == [] {
      call := Some(SignupCall(username, password, name, email));
    } else {
      call := None;
    }
  }

  /** The hint shown while typing: once both password fields hold text,
      whether they agree. */
  function MatchHint(password: string, confirm: string): Option<bool>
  {
    if password != "" && confirm != "" then Some(password == confirm) else None
  }

  /** The warning shown under a non-empty email the pattern refuses. */
  predicate EmailWarning(email: string)
  {
    email != "" && !EmailOk(email)
  }

  /** The live hints agree with the submit-time errors: a mismatch hint means
      the mismatch error, and the email warning shows exactly when submitting
      would report a malformed email. */
  lemma HintsAgreeWithErrors(username: string, password: string, confirm: string, name: string, email: string)
    ensures MatchHint(password, confirm) == Some(false) ==>
      ConfirmMismatch in Errors(username, password, confirm, name, email)
    ensures EmailWarning(email) <==> EmailMalformed in Errors(username, password, confirm, name, email)
  {
    ErrorsSpec(username, password, confirm, name, email);
  }

  /** Whitespace is not emptiness: a username of four spaces passes. */
  lemma BlankUsernameAccepted()
    ensures UsernameCheck("    ") == None
  {
  }

  /** A usual address passes, with or without a final newline. */
  lemma AddressAccepted(t: string)
    requires t == "hong@example.com"
    ensures EmailOk(t) && EmailOk(t + "\n")
  {
    assert t[4] == '@' && t[12] == '.';
    assert AllLocal(t[..4]) by {
      assert t[..4] == "hong";
    }
    assert AllDomain(t[5..12]) by {
      assert t[5..12] == "example";
    }
    assert AllLetters(t[13..]) by {
      assert t[13..] == "com";
    }
    MatcherComplete(t, 4, 12);
    TrailingNewlineAccepted(t);
  }

  /** A second "@" is refused: the part before the last one holds an "@". */
  lemma SecondAtRefused()
    ensures !EmailOk("a@b@example.com")
  {
    var t := "a@b@example.com";
    assert t[4..] == "example.com";
    LastIndexOfAt(t, '@', 3);
    assert t[..3][1] == '@' && !IsLocalChar('@');
  }
}
