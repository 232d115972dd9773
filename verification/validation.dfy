/**
  The authentication input validators: email format, password strength,
  username and nickname rules, the registration and login reports built
  from them, and input sanitising.
*/
module Validation {
  import opened Text

  /** A request field as JavaScript sees it: absent, `null`, or a string. */
  datatype Value = Undefined | Null | Str(s: string)

  /** JavaScript truthiness of a field: a non-empty string. */
  predicate Truthy(v: Value) {
    v.Str? && v.s != []
  }

  /** What `RegExp.prototype.test` reads: the value converted to a string. */
  function AsText(v: Value): string {
    match v
    case Undefined => "undefined"
    case Null => "null"
    case Str(s) => s
  }

  // ---------------------------------------------------------------------------
  // Email

  /** `[^\s@]`. */
  predicate Plain(c: char) {
    !IsSpace(c) && c != '@'
  }

  /**
    `/^[^\s@]+@[^\s@]+\.[^\s@]+$/` matches: `s` splits at an '@' (position
    `a`) and a later '.' (position `d`) into three non-empty runs, and
    every character but the '@' is plain.
  */
  predicate EmailRegex(s: string) {
    exists a, d :: 0 < a && a + 1 < d && d + 1 < |s| && s[a] == '@' && s[d] == '.' && AllPlainBut(s, a)
  }

  predicate AllPlainBut(s: string, a: int) {
    forall k :: 0 <= k < |s| && k != a ==> Plain(s[k])
  }

  function CountOf(s: string, c: char): nat {
    if s == [] then 0 else (if s[0] == c then 1 else 0) + CountOf(s[1..], c)
  }

  /**
    The shape the pattern accepts, stated directly: no whitespace, exactly
    one '@', a non-empty local part, and a '.' in the domain with at least
    one character on each side.
  */
  predicate EmailShape(s: string) {
    && NoSpace(s)
    && CountOf(s, '@') == 1
    && exists a :: 0 < a < |s| && s[a] == '@' && exists d :: a + 1 < d < |s| - 1 && s[d] == '.'
  }

  lemma {:induction false} CountOfOne(s: string, a: nat)
    requires a < |s| && s[a] == '@'
    ensures CountOf(s, '@') == 1 <==> forall k :: 0 <= k < |s| && k != a ==> s[k] != '@'
    decreases |s|
  {
    if a == 0 {
      CountOfZero(s[1..]);
      assert forall k :: 1 <= k < |s| ==> s[k] == s[1..][k - 1];
    } else {
      CountOfOne(s[1..], a - 1);
      assert forall k :: 1 <= k < |s| ==> s[k] == s[1..][k - 1];
      if s[0] == '@' {
        assert CountOf(s[1..], '@') >= 1 by {
          CountOfPositive(s[1..], a - 1);
        }
      }
    }
  }

  lemma {:induction false} CountOfZero(s: string)
    ensures CountOf(s, '@') == 0 <==> forall k :: 0 <= k < |s| ==> s[k] != '@'
    decreases |s|
  {
    if s != [] {
      CountOfZero(s[1..]);
      assert forall k :: 1 <= k < |s| ==> s[k] == s[1..][k - 1];
    }
  }

  lemma {:induction false} CountOfPositive(s: string, a: nat)
    requires a < |s| && s[a] == '@'
    ensures CountOf(s, '@') >= 1
    decreases |s|
  {
    if a > 0 {
      CountOfPositive(s[1..], a - 1);
    }
  }

  /** The pattern accepts exactly the strings of the stated shape. */
  lemma EmailRegexIsShape(s: string)
    ensures EmailRegex(s) <==> EmailShape(s)
  {
    if EmailRegex(s) {
      var a, d :| 0 < a && a + 1 < d && d + 1 < |s| && s[a] == '@' && s[d] == '.' && AllPlainBut(s, a);
      CountOfOne(s, a);
      assert NoSpace(s) by {
        forall k | 0 <= k < |s| ensures !IsSpace(s[k]) {
          if k != a {
            assert Plain(s[k]);
          }
        }
      }
    }
    if EmailShape(s) {
      var a :| 0 < a < |s| && s[a] == '@' && exists d :: a + 1 < d < |s| - 1 && s[d] == '.';
      var d :| a + 1 < d < |s| - 1 && s[d] == '.';
      CountOfOne(s, a);
      assert AllPlainBut(s, a);
    }
  }

  lemma SpaceBreaksEmail(s: string, i: nat)
    requires i < |s| && IsSpace(s[i])
    ensures !EmailRegex(s)
  {
    forall a | 0 <= a < |s| && s[a] == '@' ensures !AllPlainBut(s, a) {
      assert i != a && !Plain(s[i]);
    }
  }

  lemma TwoAtsBreakEmail(s: string, i: nat, j: nat)
    requires i < j < |s| && s[i] == '@' && s[j] == '@'
    ensures !EmailRegex(s)
  {
    forall a | 0 <= a < |s| && s[a] == '@' ensures !AllPlainBut(s, a) {
      if a == i {
        assert !Plain(s[j]);
      } else {
        assert !Plain(s[i]);
      }
    }
  }

  /** With at most the one '@' at `at` and nothing else unplain, the pattern reduces to a dot search. */
  lemma EmailRegexAt(s: string, at: int)
    requires at == -1 || (0 <= at < |s| && s[at] == '@')
    requires AllPlainBut(s, at)
    ensures EmailRegex(s) <==> 0 < at && exists d :: at + 1 < d < |s| - 1 && s[d] == '.'
  {
    if EmailRegex(s) {
      var a, d :| 0 < a && a + 1 < d && d + 1 < |s| && s[a] == '@' && s[d] == '.' && AllPlainBut(s, a);
      assert !Plain(s[a]);
      assert a == at;
    }
    if 0 < at && exists d :: at + 1 < d < |s| - 1 && s[d] == '.' {
      var d :| at + 1 < d < |s| - 1 && s[d] == '.';
      assert 0 < at && at + 1 < d && d + 1 < |s| && s[at] == '@' && s[d] == '.' && AllPlainBut(s, at);
    }
  }

  /** `validateEmail`: one pass for whitespace and '@', then a search for the domain's dot. */
  method ValidateEmail(s: string) returns (ok: bool)
    ensures ok <==> EmailRegex(s)
    ensures ok <==> EmailShape(s)
  {
    EmailRegexIsShape(s);
    var at := -1;
    var i := 0;
    while i < |s|
      invariant 0 <= i <= |s|
      invariant at == -1 || (0 <= at < i && s[at] == '@')
      invariant forall k :: 0 <= k < i && k != at ==> Plain(s[k])
    {
      if IsSpace(s[i]) {
        SpaceBreaksEmail(s, i);
        return false;
      }
      if s[i] == '@' {
        if at != -1 {
          TwoAtsBreakEmail(s, at, i);
          return false;
        }
        at := i;
      }
      i := i + 1;
    }
    EmailRegexAt(s, at);
    if at < 1 {
      return false;
    }
    var d := at + 2;
    while d < |s| - 1
      invariant at + 2 <= d
      invariant forall j :: at + 1 < j < d && j < |s| - 1 ==> s[j] != '.'
    {
      if s[d] == '.' {
        return true;
      }
      d := d + 1;
    }
    return false;
  }

  // ---------------------------------------------------------------------------
  // Password, username, nickname

  /** Every message the validators can produce. */
  datatype Issue =
    | EmailRequired | EmailInvalid
    | PasswordTooShort | PasswordNoLower | PasswordNoUpper | PasswordNoDigit
    | UsernameRequired | UsernameTooLong | UsernameBadChars
    | NicknameRequired | NicknameTooShort | NicknameTooLong
    | ConfirmRequired | ConfirmMismatch | PasswordRequired

  /** The message text the source emits for each issue. */
  function Message(i: Issue): string {
    match i
    case EmailRequired => "이메일은 필수입니다."
    case EmailInvalid => "유효한 이메일 주소를 입력해주세요."
    case PasswordTooShort => "비밀번호는 최소 8자 이상이어야 합니다."
    case PasswordNoLower => "비밀번호는 소문자를 포함해야 합니다."
    case PasswordNoUpper => "비밀번호는 대문자를 포함해야 합니다."
    case PasswordNoDigit => "비밀번호는 숫자를 포함해야 합니다."
    case UsernameRequired => "사용자명은 필수입니다."
    case UsernameTooLong => "사용자명은 20자를 초과할 수 없습니다."
    case UsernameBadChars => "사용자명은 영문, 숫자, 밑줄(_)만 사용할 수 있습니다."
    case NicknameRequired => "닉네임은 필수입니다."
    case NicknameTooShort => "닉네임은 최소 2자 이상이어야 합니다."
    case NicknameTooLong => "닉네임은 20자를 초과할 수 없습니다."
    case ConfirmRequired => "비밀번호 확인은 필수입니다."
    case ConfirmMismatch => "비밀번호가 일치하지 않습니다."
    case PasswordRequired => "비밀번호는 필수입니다."
  }

  /** The position of an issue in the order the validators check for it. */
  function Order(i: Issue): nat {
    match i
    case EmailRequired => 0
    case EmailInvalid => 1
    case PasswordTooShort => 2
    case PasswordNoLower => 3
    case PasswordNoUpper => 4
    case PasswordNoDigit => 5
    case UsernameRequired => 6
    case UsernameTooLong => 7
    case UsernameBadChars => 8
    case NicknameRequired => 9
    case NicknameTooShort => 10
    case NicknameTooLong => 11
    case ConfirmRequired => 12
    case ConfirmMismatch => 13
    case PasswordRequired => 14
  }

  /** Issues listed in checking order, none twice. */
  predicate InOrder(r: seq<Issue>) {
    forall i, j :: 0 <= i < j < |r| ==> Order(r[i]) < Order(r[j])
  }

  /** `if (failed) errors.push(issue)`: the issue alone when its check fails. */
  function When(failed: bool, i: Issue): (r: seq<Issue>)
    ensures |r| <= 1
    ensures forall x :: x in r <==> failed && x == i
  {
    if failed then [i] else []
  }

  /** Issues pushed by one check and then by a later one stay in checking order. */
  lemma InOrderAppend(a: seq<Issue>, b: seq<Issue>)
    requires InOrder(a) && InOrder(b)
    requires forall x, y :: x in a && y in b ==> Order(x) < Order(y)
    ensures InOrder(a + b)
  {
    var ab := a + b;
    forall i, j | 0 <= i < j < |ab| ensures Order(ab[i]) < Order(ab[j]) {
      if j < |a| {
        assert ab[i] == a[i] && ab[j] == a[j];
      } else if i >= |a| {
        assert ab[i] == b[i - |a|] && ab[j] == b[j - |a|];
      } else {
        assert ab[i] in a && ab[j] in b;
      }
    }
  }

  /** The issues of three consecutive checks, each at most one and in increasing order. */
  function Checks3(a: seq<Issue>, b: seq<Issue>, c: seq<Issue>): (r: seq<Issue>)
    requires |a| <= 1 && |b| <= 1 && |c| <= 1
    requires forall x, y :: x in a && y in b ==> Order(x) < Order(y)
    requires forall x, y :: x in a && y in c ==> Order(x) < Order(y)
    requires forall x, y :: x in b && y in c ==> Order(x) < Order(y)
    ensures InOrder(r)
    ensures forall x :: x in r <==> x in a || x in b || x in c
  {
    InOrderAppend(b, c);
    InOrderAppend(a, b + c);
    a + (b + c)
  }

  /** The issues of four consecutive checks, each at most one and in increasing order. */
  function Checks4(a: seq<Issue>, b: seq<Issue>, c: seq<Issue>, d: seq<Issue>): (r: seq<Issue>)
    requires |a| <= 1 && |b| <= 1 && |c| <= 1 && |d| <= 1
    requires forall x, y :: x in a && y in b ==> Order(x) < Order(y)
    requires forall x, y :: x in a && y in c ==> Order(x) < Order(y)
    requires forall x, y :: x in a && y in d ==> Order(x) < Order(y)
    requires forall x, y :: x in b && y in c ==> Order(x) < Order(y)
    requires forall x, y :: x in b && y in d ==> Order(x) < Order(y)
    requires forall x, y :: x in c && y in d ==> Order(x) < Order(y)
    ensures InOrder(r)
    ensures forall x :: x in r <==> x in a || x in b || x in c || x in d
  {
    var bcd := Checks3(b, c, d);
    InOrderAppend(a, bcd);
    a + bcd
  }

  predicate HasLower(s: string) {
    exists i :: 0 <= i < |s| && 'a' <= s[i] <= 'z'
  }

  predicate HasUpper(s: string) {
    exists i :: 0 <= i < |s| && 'A' <= s[i] <= 'Z'
  }

  predicate HasDigit(s: string) {
    exists i :: 0 <= i < |s| && '0' <= s[i] <= '9'
  }

  /** The password checks of `validatePassword`: check `i` fails for `pw`. */
  predicate PasswordFails(pw: Value, i: Issue) {
    match i
    case PasswordTooShort => !Truthy(pw) || |pw.s| < 8
    case PasswordNoLower => !HasLower(AsText(pw))
    case PasswordNoUpper => !HasUpper(AsText(pw))
    case PasswordNoDigit => !HasDigit(AsText(pw))
    case _ => false
  }

  /** `validatePassword(password).errors`: exactly the failing checks, in checking order. */
  function ValidatePassword(pw: Value): (r: seq<Issue>)
    ensures InOrder(r)
    ensures forall i :: i in r <==> PasswordFails(pw, i)
  {
    var t := AsText(pw);
    Checks4(
      When(!Truthy(pw) || |pw.s| < 8, PasswordTooShort),
      When(!HasLower(t), PasswordNoLower),
      When(!HasUpper(t), PasswordNoUpper),
      When(!HasDigit(t), PasswordNoDigit))
  }

  /**
    A missing password reports length, upper case and digit but not lower
    case: the pattern tests run on the text "undefined" (or "null").
  */
  lemma MissingPasswordIssues(pw: Value)
    requires !pw.Str?
    ensures ValidatePassword(pw) == [PasswordTooShort, PasswordNoUpper, PasswordNoDigit]
  {
    var t := AsText(pw);
    assert 'a' <= t[1] <= 'z';
    assert !HasUpper(t) by {
      forall i | 0 <= i < |t| ensures !('A' <= t[i] <= 'Z') {
        assert t[i] in "undefined" || t[i] in "null";
      }
    }
    assert !HasDigit(t) by {
      forall i | 0 <= i < |t| ensures !('0' <= t[i] <= '9') {
        assert t[i] in "undefined" || t[i] in "null";
      }
    }
  }

  /** `^[a-zA-Z0-9_]+$` without the `+`: every character is a letter, digit or '_'. */
  predicate WordChars(s: string) {
    forall i :: 0 <= i < |s| ==>
      ('a' <= s[i] <= 'z') || ('A' <= s[i] <= 'Z') || ('0' <= s[i] <= '9') || s[i] == '_'
  }

  /** `!x || x.trim().length === 0`: missing, empty or whitespace only. */
  predicate Blank(v: Value) {
    !Truthy(v) || AllSpace(v.s)
  }

  /** The checks of `validateUsername`: check `i` fails for `u`. */
  predicate UsernameFails(u: Value, i: Issue) {
    match i
    case UsernameRequired => Blank(u)
    case UsernameTooLong => Truthy(u) && |u.s| > 20
    case UsernameBadChars => Truthy(u) && !WordChars(u.s)
    case _ => false
  }

  /** `validateUsername(username).errors`: exactly the failing checks, in checking order. */
  function ValidateUsername(u: Value): (r: seq<Issue>)
    ensures InOrder(r)
    ensures forall i :: i in r <==> UsernameFails(u, i)
  {
    Checks3(
      When(Blank(u), UsernameRequired),
      When(Truthy(u) && |u.s| > 20, UsernameTooLong),
      When(Truthy(u) && !WordChars(u.s), UsernameBadChars))
  }

  /** The checks of `validateNickname`: check `i` fails for `n`. */
  predicate NicknameFails(n: Value, i: Issue) {
    match i
    case NicknameRequired => Blank(n)
    case NicknameTooShort => Truthy(n) && |n.s| < 2
    case NicknameTooLong => Truthy(n) && |n.s| > 20
    case _ => false
  }

  /** `validateNickname(nickname).errors`: exactly the failing checks, in checking order. */
  function ValidateNickname(n: Value): (r: seq<Issue>)
    ensures InOrder(r)
    ensures forall i :: i in r <==> NicknameFails(n, i)
  {
    Checks3(
      When(Blank(n), NicknameRequired),
      When(Truthy(n) && |n.s| < 2, NicknameTooShort),
      When(Truthy(n) && |n.s| > 20, NicknameTooLong))
  }

  /** A username is accepted exactly when it is 1 to 20 letters, digits or underscores. */
  lemma UsernameAccepts(u: Value)
    ensures ValidateUsername(u) == [] <==> u.Str? && 1 <= |u.s| <= 20 && WordChars(u.s)
  {
    if u.Str? && 1 <= |u.s| <= 20 && WordChars(u.s) {
      assert !IsSpace(u.s[0]);
    }
  }

  /** A nickname is accepted exactly when it is 2 to 20 characters, not all whitespace. */
  lemma NicknameAccepts(n: Value)
    ensures ValidateNickname(n) == [] <==> n.Str? && 2 <= |n.s| <= 20 && !AllSpace(n.s)
  {
  }

  // ---------------------------------------------------------------------------
  // Reports

  /** The keys of the `errors` object. */
  datatype Field = EmailField | UsernameField | NicknameField | PasswordField

  /** `{ isValid, errors }`. */
  datatype Report = Report(isValid: bool, errors: map<Field, seq<Issue>>)

  /** The registration form's fields. */
  datatype Registration = Registration(username: Value, email: Value, password: Value, confirmPassword: Value, nickname: Value)

  /** The email checks shared by both forms: required, else well-formed. */
  function EmailIssues(email: Value): (r: seq<Issue>)
    ensures |r| <= 1
    ensures r == [EmailRequired] <==> !Truthy(email)
    ensures r == [EmailInvalid] <==> Truthy(email) && !EmailShape(email.s)
  {
    if !Truthy(email) then [EmailRequired]
    else
      EmailRegexIsShape(email.s);
      if !EmailRegex(email.s) then [EmailInvalid] else []
  }

  /** The confirmation check, run only when `confirmPassword` is not `undefined`. */
  function ConfirmIssues(password: Value, confirm: Value): (r: seq<Issue>)
    ensures |r| <= 1
    ensures r == [ConfirmRequired] <==> !confirm.Undefined? && !Truthy(confirm)
    ensures r == [ConfirmMismatch] <==> Truthy(confirm) && password != confirm
  {
    if confirm.Undefined? then []
    else if !Truthy(confirm) then [ConfirmRequired]
    else if password != confirm then [ConfirmMismatch]
    else []
  }

  /** Adds `errors[f] = issues` when there are any. */
  function Put(m: map<Field, seq<Issue>>, f: Field, issues: seq<Issue>): map<Field, seq<Issue>> {
    if issues == [] then m else m[f := issues]
  }

  /**
    `validateRegistrationData`: one entry per field with issues, the
    password entry holding the strength issues followed by the confirmation
    issue; valid exactly when there are no entries.
  */
  function ValidateRegistration(d: Registration): (r: Report)
    ensures r.isValid <==> r.errors == map[]
    ensures EmailField in r.errors <==> !Truthy(d.email) || !EmailShape(d.email.s)
    ensures EmailField in r.errors ==> r.errors[EmailField] in {[EmailRequired], [EmailInvalid]}
    ensures EmailField in r.errors ==> (r.errors[EmailField] == [EmailRequired] <==> !Truthy(d.email))
    ensures EmailField in r.errors ==> (r.errors[EmailField] == [EmailInvalid] <==> Truthy(d.email) && !EmailShape(d.email.s))
    ensures UsernameField in r.errors <==> ValidateUsername(d.username) != []
    ensures UsernameField in r.errors ==> r.errors[UsernameField] == ValidateUsername(d.username)
    ensures NicknameField in r.errors <==> ValidateNickname(d.nickname) != []
    ensures NicknameField in r.errors ==> r.errors[NicknameField] == ValidateNickname(d.nickname)
    ensures PasswordField in r.errors ==>
              r.errors[PasswordField] == ValidatePassword(d.password) + ConfirmIssues(d.password, d.confirmPassword)
    ensures PasswordField !in r.errors <==>
              ValidatePassword(d.password) == [] && ConfirmIssues(d.password, d.confirmPassword) == []
  {
    var e := Put(map[], EmailField, EmailIssues(d.email));
    var e := Put(e, UsernameField, ValidateUsername(d.username));
    var e := Put(e, NicknameField, ValidateNickname(d.nickname));
    var e := Put(e, PasswordField, ValidatePassword(d.password) + ConfirmIssues(d.password, d.confirmPassword));
    Report(e == map[], e)
  }

  /**
    A registration is accepted exactly when every field passes and the
    confirmation, if given, is the password.
  */
  lemma RegistrationAccepts(d: Registration)
    ensures ValidateRegistration(d).isValid <==>
              && Truthy(d.email) && EmailShape(d.email.s)
              && ValidateUsername(d.username) == [] && ValidateNickname(d.nickname) == []
              && ValidatePassword(d.password) == []
              && (d.confirmPassword.Undefined? || d.confirmPassword == d.password)
  {
    var r := ValidateRegistration(d);
    if d.confirmPassword.Str? && d.confirmPassword == d.password && ValidatePassword(d.password) == [] {
      assert PasswordTooShort !in ValidatePassword(d.password);
    }
    if r.isValid {
      assert EmailField !in r.errors && UsernameField !in r.errors && NicknameField !in r.errors && PasswordField !in r.errors;
    } else {
      assert r.errors != map[];
      var f :| f in r.errors;
    }
  }

  /** The login form's fields. */
  datatype Login = Login(email: Value, password: Value)

  /**
    `validateLoginData`: the same email checks, and only presence of the
    password, with no strength rule.
  */
  function ValidateLogin(d: Login): (r: Report)
    ensures r.isValid <==> r.errors == map[]
    ensures UsernameField !in r.errors && NicknameField !in r.errors
    ensures EmailField in r.errors <==> !Truthy(d.email) || !EmailShape(d.email.s)
    ensures EmailField in r.errors ==> r.errors[EmailField] in {[EmailRequired], [EmailInvalid]}
    ensures EmailField in r.errors ==> (r.errors[EmailField] == [EmailRequired] <==> !Truthy(d.email))
    ensures EmailField in r.errors ==> (r.errors[EmailField] == [EmailInvalid] <==> Truthy(d.email) && !EmailShape(d.email.s))
    ensures PasswordField in r.errors <==> !Truthy(d.password)
    ensures PasswordField in r.errors ==> r.errors[PasswordField] == [PasswordRequired]
  {
    var e := Put(map[], EmailField, EmailIssues(d.email));
    var e := Put(e, PasswordField, if Truthy(d.password) then [] else [PasswordRequired]);
    Report(e == map[], e)
  }

  /**
    Login reads only the presence of the password: any two present
    passwords give the same report, however weak either is.
  */
  lemma LoginIgnoresStrength(email: Value, p1: Value, p2: Value)
    requires Truthy(p1) && Truthy(p2)
    ensures ValidateLogin(Login(email, p1)) == ValidateLogin(Login(email, p2))
  {
  }

  // ---------------------------------------------------------------------------
  // Sanitising

  /** Any request value: a string, or some other value passed through opaquely. */
  datatype Input = Text(s: string) | Other(tag: int)

  /** `sanitizeInput`: strings are trimmed, anything else is returned as is. */
  function SanitizeInput(v: Input): (r: Input)
    ensures v.Other? ==> r == v
    ensures v.Text? ==> r.Text? && Trimmed(r.s) && StripSpaces(r.s) == StripSpaces(v.s)
    ensures v.Text? ==> CutFrom(r.s, v.s)
    ensures v.Text? && Trimmed(v.s) ==> r == v
  {
    match v
    case Other(_) => v
    case Text(s) =>
      TrimSpec(s);
      Text(Trim(s))
  }

  /** Sanitising twice is sanitising once. */
  lemma SanitizeIdempotent(v: Input)
    ensures SanitizeInput(SanitizeInput(v)) == SanitizeInput(v)
  {
  }
}
