/** The registration form: its field rules, the password confirmation check, and the failure message. */
module RegisterForm {
  import opened Wrappers
  import opened JsText

  /** The form values; an untouched field is `None`. */
  datatype RegisterValues = RegisterValues(
    name: Option<string>,
    email: Option<string>,
    password: Option<string>,
    confirmation: Option<string>)

  /** The `required` rule: an absent or empty value fails. */
  predicate Missing(v: Option<string>) {
    !TruthyString(v)
  }

  /** A required field with a minimum length: the `min` rule is only consulted for a non-empty value. */
  function LengthErrors(v: Option<string>, minLength: nat, requiredMessage: string, minMessage: string): (errors: seq<string>)
    ensures errors == [] <==> v.Some? && |v.value| >= minLength && v.value != ""
    ensures |errors| <= 1
  {
    if Missing(v) then [requiredMessage]
    else if |v.value| < minLength then [minMessage]
    else []
  }

  function NameErrors(name: Option<string>): (errors: seq<string>)
    ensures errors == [] <==> name.Some? && |name.value| >= 2
  {
    LengthErrors(name, 2, "Пожалуйста, введите имя", "Имя должно быть не менее 2 символов")
  }

  function PasswordErrors(password: Option<string>): (errors: seq<string>)
    ensures errors == [] <==> password.Some? && |password.value| >= 6
  {
    LengthErrors(password, 6, "Пожалуйста, введите пароль", "Пароль должен быть не менее 6 символов")
  }

  /** The email rules; the email type check of the form library is the parameter `isEmail`. */
  function EmailErrors(email: Option<string>, isEmail: string -> bool): (errors: seq<string>)
    ensures errors == [] <==> email.Some? && email.value != "" && isEmail(email.value)
  {
    if Missing(email) then ["Пожалуйста, введите email"]
    else if !isEmail(email.value) then ["Введите корректный email"]
    else []
  }

  /** The custom confirmation validator: an empty value passes, otherwise it must equal the password. */
  predicate ConfirmationValidatorPasses(password: Option<string>, value: Option<string>) {
    !TruthyString(value) || password == value
  }

  function ConfirmationErrors(password: Option<string>, confirmation: Option<string>): (errors: seq<string>)
    ensures errors == [] <==> confirmation.Some? && confirmation.value != "" && confirmation == password
    ensures |errors| <= 1
  {
    if Missing(confirmation) then ["Пожалуйста, подтвердите пароль"]
    else if !ConfirmationValidatorPasses(password, confirmation) then ["Пароли не совпадают"]
    else []
  }

  /** The validator alone accepts exactly an empty confirmation or one equal to the password. */
  lemma ConfirmationValidatorMeaning(password: Option<string>, value: string)
    ensures ConfirmationValidatorPasses(password, Some(value)) <==> value == "" || password == Some(value)
    ensures ConfirmationValidatorPasses(password, None)
  {
  }

  /** Every message the form shows, field by field; the form submits only when there are none. */
  function FormErrors(v: RegisterValues, isEmail: string -> bool): seq<string> {
    NameErrors(v.name) + EmailErrors(v.email, isEmail) + PasswordErrors(v.password)
    + ConfirmationErrors(v.password, v.confirmation)
  }

  /** A submitted form has a name of 2+ characters, a valid email, and a password of 6+ characters typed twice alike. */
  lemma SubmittedFormIsConsistent(v: RegisterValues, isEmail: string -> bool)
    requires FormErrors(v, isEmail) == []
    ensures v.name.Some? && |v.name.value| >= 2
    ensures v.email.Some? && isEmail(v.email.value)
    ensures v.password.Some? && |v.password.value| >= 6
    ensures v.confirmation == v.password
  {
    assert NameErrors(v.name) == [] && EmailErrors(v.email, isEmail) == [] && PasswordErrors(v.password) == [];
    assert ConfirmationErrors(v.password, v.confirmation) == [];
  }

  /** What the registration failed with: an `Error` and its message, or any other thrown value. */
  datatype Failure = ErrorInstance(message: string) | OtherThrown

  function FailureMessage(f: Failure): (shown: string)
    ensures f.ErrorInstance? ==> shown == f.message
    ensures f.OtherThrown? ==> shown == "Ошибка регистрации"
  {
    match f
    case ErrorInstance(m) => m
    case OtherThrown => "Ошибка регистрации"
  }
}
