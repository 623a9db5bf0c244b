/** The register and login form schemas. Each field rule that fails yields
    one issue on that field's path, in the order the fields are declared; the
    register schema's password refinement adds its issue on the confirmation
    field after them. An input is accepted when no issue is reported. */
module Validations {
  import opened Common

  datatype Field = FirstName | LastName | Email | Password | ConfirmPassword

  datatype Issue = Issue(path: Field, message: string)

  /** The position of a field in the schema's declaration. */
  function FieldOrder(f: Field): nat {
    match f
    case FirstName => 0
    case LastName => 1
    case Email => 2
    case Password => 3
    case ConfirmPassword => 4
  }

  /** Issues listed in the order their fields are declared, at most one per
      field. */
  predicate InFieldOrder(issues: seq<Issue>) {
    forall i, j | 0 <= i < j < |issues| :: FieldOrder(issues[i].path) < FieldOrder(issues[j].path)
  }

  lemma OrderedAppend(a: seq<Issue>, b: seq<Issue>)
    requires InFieldOrder(a) && InFieldOrder(b)
    requires forall x <- a, y <- b :: FieldOrder(x.path) < FieldOrder(y.path)
    ensures InFieldOrder(a + b)
  {
    forall i, j | 0 <= i < j < |a + b|
      ensures FieldOrder((a + b)[i].path) < FieldOrder((a + b)[j].path)
    {
      if i < |a| && j >= |a| {
        assert (a + b)[i] in a && (a + b)[j] in b;
      }
    }
  }

  const FirstNameTooShort := "Vorname muss mindestens 2 Zeichen lang sein"
  const LastNameTooShort := "Nachname muss mindestens 2 Zeichen lang sein"
  const InvalidEmail := "Bitte geben Sie eine gültige E-Mail-Adresse ein"
  const PasswordTooShort := "Passwort muss mindestens 6 Zeichen lang sein"
  const PasswordsDiffer := "Passwörter stimmen nicht überein"

  const MinNameLength: nat := 2
  const MinPasswordLength: nat := 6

  datatype RegisterForm = RegisterForm(
    firstName: string, lastName: string, email: string, password: string, confirmPassword: string)

  datatype LoginForm = LoginForm(email: string, password: string)

  /** `z.string().min(min, { message })` on one field. */
  function MinLength(value: string, min: nat, field: Field, message: string): (r: seq<Issue>)
    ensures r == [] <==> |value| >= min
    ensures |r| <= 1 && forall i <- r :: i == Issue(field, message)
  {
    if |value| < min then [Issue(field, message)] else []
  }

  /** `z.string().email({ message })`; the address check itself is the
      parameter `isEmail`. */
  function EmailRule(isEmail: string -> bool, email: string): (r: seq<Issue>)
    ensures r == [] <==> isEmail(email)
    ensures |r| <= 1 && forall i <- r :: i == Issue(Email, InvalidEmail)
  {
    if isEmail(email) then [] else [Issue(Email, InvalidEmail)]
  }

  /** The issues of the register schema's field rules, in field order. */
  function RegisterFieldIssues(isEmail: string -> bool, form: RegisterForm): (issues: seq<Issue>)
    ensures Issue(FirstName, FirstNameTooShort) in issues <==> |form.firstName| < 2
    ensures Issue(LastName, LastNameTooShort) in issues <==> |form.lastName| < 2
    ensures Issue(Email, InvalidEmail) in issues <==> !isEmail(form.email)
    ensures Issue(Password, PasswordTooShort) in issues <==> |form.password| < 6
    ensures forall i <- issues :: i in [Issue(FirstName, FirstNameTooShort), Issue(LastName, LastNameTooShort),
      Issue(Email, InvalidEmail), Issue(Password, PasswordTooShort)]
  {
    var names := MinLength(form.firstName, MinNameLength, FirstName, FirstNameTooShort)
      + MinLength(form.lastName, MinNameLength, LastName, LastNameTooShort);
    var credentials := EmailRule(isEmail, form.email)
      + MinLength(form.password, MinPasswordLength, Password, PasswordTooShort);
    names + credentials
  }

  /** Every issue `registerSchema` reports: the field issues, then the
      refinement's. Each rule's issue is present exactly when that rule is
      broken. */
  function RegisterIssues(isEmail: string -> bool, form: RegisterForm): (issues: seq<Issue>)
    ensures Issue(FirstName, FirstNameTooShort) in issues <==> |form.firstName| < 2
    ensures Issue(LastName, LastNameTooShort) in issues <==> |form.lastName| < 2
    ensures Issue(Email, InvalidEmail) in issues <==> !isEmail(form.email)
    ensures Issue(Password, PasswordTooShort) in issues <==> |form.password| < 6
    ensures Issue(ConfirmPassword, PasswordsDiffer) in issues <==> form.password != form.confirmPassword
    ensures forall i <- issues :: i in [Issue(FirstName, FirstNameTooShort), Issue(LastName, LastNameTooShort),
      Issue(Email, InvalidEmail), Issue(Password, PasswordTooShort), Issue(ConfirmPassword, PasswordsDiffer)]
  {
    var fields := RegisterFieldIssues(isEmail, form);
    var confirm := if form.password == form.confirmPassword then [] else [Issue(ConfirmPassword, PasswordsDiffer)];
    assert forall i <- fields :: i.path != ConfirmPassword;
    fields + confirm
  }

  /** Every issue `loginSchema` reports. */
  function LoginIssues(isEmail: string -> bool, form: LoginForm): (issues: seq<Issue>)
    ensures Issue(Email, InvalidEmail) in issues <==> !isEmail(form.email)
    ensures Issue(Password, PasswordTooShort) in issues <==> |form.password| < 6
    ensures forall i <- issues :: i in [Issue(Email, InvalidEmail), Issue(Password, PasswordTooShort)]
  {
    EmailRule(isEmail, form.email)
    + MinLength(form.password, MinPasswordLength, Password, PasswordTooShort)
  }

  /** Issues of at most one per field, concatenated in field order, are in
      field order. */
  lemma OrderedFields(first: seq<Issue>, last: seq<Issue>, email: seq<Issue>, password: seq<Issue>, confirm: seq<Issue>)
    requires |first| <= 1 && forall i <- first :: i.path == FirstName
    requires |last| <= 1 && forall i <- last :: i.path == LastName
    requires |email| <= 1 && forall i <- email :: i.path == Email
    requires |password| <= 1 && forall i <- password :: i.path == Password
    requires |confirm| <= 1 && forall i <- confirm :: i.path == ConfirmPassword
    ensures InFieldOrder((first + last) + (email + password) + confirm)
  {
    OrderedAppend(first, last);
    OrderedAppend(email, password);
    OrderedAppend(first + last, email + password);
    OrderedAppend((first + last) + (email + password), confirm);
  }

  /** The register schema lists its issues in the order the fields are
      declared, the refinement's last, at most one per field; this is the
      order in which the messages are joined for the user. */
  lemma RegisterIssuesInOrder(isEmail: string -> bool, form: RegisterForm)
    ensures InFieldOrder(RegisterIssues(isEmail, form))
  {
    OrderedFields(
      MinLength(form.firstName, MinNameLength, FirstName, FirstNameTooShort),
      MinLength(form.lastName, MinNameLength, LastName, LastNameTooShort),
      EmailRule(isEmail, form.email),
      MinLength(form.password, MinPasswordLength, Password, PasswordTooShort),
      if form.password == form.confirmPassword then [] else [Issue(ConfirmPassword, PasswordsDiffer)]);
  }

  /** The login schema lists the e-mail issue before the password issue. */
  lemma LoginIssuesInOrder(isEmail: string -> bool, form: LoginForm)
    ensures InFieldOrder(LoginIssues(isEmail, form))
  {
    OrderedAppend(EmailRule(isEmail, form.email),
      MinLength(form.password, MinPasswordLength, Password, PasswordTooShort));
  }

  /** `registerSchema.safeParse`: the form itself, or every issue found. */
  function ParseRegister(isEmail: string -> bool, form: RegisterForm): (r: Result<RegisterForm, seq<Issue>>)
    ensures r.Success? <==> RegisterIssues(isEmail, form) == []
    ensures r.Success? ==> r.value == form
    ensures r.Failure? ==> r.error == RegisterIssues(isEmail, form) && r.error != []
  {
    var issues := RegisterIssues(isEmail, form);
    if issues == [] then Success(form) else Failure(issues)
  }

  /** `loginSchema.safeParse`. */
  function ParseLogin(isEmail: string -> bool, form: LoginForm): (r: Result<LoginForm, seq<Issue>>)
    ensures r.Success? <==> LoginIssues(isEmail, form) == []
    ensures r.Success? ==> r.value == form
    ensures r.Failure? ==> r.error == LoginIssues(isEmail, form) && r.error != []
  {
    var issues := LoginIssues(isEmail, form);
    if issues == [] then Success(form) else Failure(issues)
  }

  /** A register form is accepted exactly when every field rule holds and the
      two passwords are equal. */
  lemma RegisterAcceptedIff(isEmail: string -> bool, form: RegisterForm)
    ensures ParseRegister(isEmail, form).Success? <==>
      && |form.firstName| >= 2
      && |form.lastName| >= 2
      && isEmail(form.email)
      && |form.password| >= 6
      && form.password == form.confirmPassword
  {
    var issues := RegisterIssues(isEmail, form);
    if issues != [] {
      assert issues[0] in issues;
    }
  }

  /** A login form is accepted exactly when the address is valid and the
      password has at least six characters. */
  lemma LoginAcceptedIff(isEmail: string -> bool, form: LoginForm)
    ensures ParseLogin(isEmail, form).Success? <==> isEmail(form.email) && |form.password| >= 6
  {
    var issues := LoginIssues(isEmail, form);
    if issues != [] {
      assert issues[0] in issues;
    }
  }

  /** Whoever could register can log in with the same address and password. */
  lemma RegisteredCanLogIn(isEmail: string -> bool, form: RegisterForm)
    requires ParseRegister(isEmail, form).Success?
    ensures ParseLogin(isEmail, LoginForm(form.email, form.password)).Success?
  {
    RegisterAcceptedIff(isEmail, form);
    LoginAcceptedIff(isEmail, LoginForm(form.email, form.password));
  }
}
