/**
 * The sign-up form (SignupPage.tsx): its field updates, and the checks it runs
 * before forwarding the new account's details to the application.
 */
module SignupPage {
  import opened Common
  import opened Types

  datatype SignupForm = SignupForm(
    fullName: string,
    username: string,
    email: string,
    phone: string,
    password: string,
    confirmPassword: string)

  /** The `name` attribute of each input. */
  datatype SignupField = FullName | Username | Email | Phone | Password | ConfirmPassword

  datatype SignupError = PasswordsDiffer | MissingField

  const EmptyForm := SignupForm("", "", "", "", "", "")

  function FieldValue(form: SignupForm, field: SignupField): string
  {
    match field
    case FullName => form.fullName
    case Username => form.username
    case Email => form.email
    case Phone => form.phone
    case Password => form.password
    case ConfirmPassword => form.confirmPassword
  }

  /** handleChange (SignupPage.tsx:33-35): the named field takes the typed value, the others keep theirs. */
  function UpdateField(form: SignupForm, field: SignupField, value: string): (r: SignupForm)
    ensures FieldValue(r, field) == value
    ensures forall other :: other != field ==> FieldValue(r, other) == FieldValue(form, other)
  {
    match field
    case FullName => form.(fullName := value)
    case Username => form.(username := value)
    case Email => form.(email := value)
    case Phone => form.(phone := value)
    case Password => form.(password := value)
    case ConfirmPassword => form.(confirmPassword := value)
  }

  /** The five fields the form requires, given all non-empty. */
  predicate AllFilled(form: SignupForm)
  {
    form.fullName != "" && form.username != "" && form.email != "" && form.phone != "" && form.password != ""
  }

  /**
   * handleSignup (SignupPage.tsx:37-58): a password that differs from its
   * confirmation is reported first, then any empty required field; otherwise
   * exactly the five account fields are forwarded, without the confirmation.
   */
  function HandleSignup(form: SignupForm): (r: Result<SignupData, SignupError>)
    ensures form.password != form.confirmPassword ==> r == Err(PasswordsDiffer)
    ensures form.password == form.confirmPassword && !AllFilled(form) ==> r == Err(MissingField)
    ensures r.Ok? <==> form.password == form.confirmPassword && AllFilled(form)
    ensures r.Ok? ==> r.value == SignupData(form.fullName, form.username, form.email, form.phone, Some(form.password))
  {
    if form.password != form.confirmPassword then Err(PasswordsDiffer)
    else if !AllFilled(form) then Err(MissingField)
    else Ok(SignupData(form.fullName, form.username, form.email, form.phone, Some(form.password)))
  }

  /** Whenever the form forwards an account, its password is present, non-empty and equal to the confirmation. */
  lemma AcceptedPassword(form: SignupForm)
    requires HandleSignup(form).Ok?
    ensures HandleSignup(form).value.password == Some(form.confirmPassword)
    ensures form.confirmPassword != ""
  {
  }

  /** Filling the empty form field by field and submitting it forwards exactly what was typed. */
  lemma FilledFormForwards(fullName: string, username: string, email: string, phone: string, password: string)
    requires fullName != "" && username != "" && email != "" && phone != "" && password != ""
    ensures var form := UpdateField(UpdateField(UpdateField(UpdateField(UpdateField(UpdateField(EmptyForm,
                          FullName, fullName), Username, username), Email, email), Phone, phone),
                          Password, password), ConfirmPassword, password);
      HandleSignup(form) == Ok(SignupData(fullName, username, email, phone, Some(password)))
  {
  }

  /** The forwarded account does not depend on anything typed into the confirmation beyond its agreeing. */
  lemma ConfirmationNotForwarded(form: SignupForm, other: string)
    requires HandleSignup(form).Ok?
    ensures HandleSignup(form.(confirmPassword := other)).Ok? <==> other == form.password
    ensures other == form.password ==> HandleSignup(form.(confirmPassword := other)) == HandleSignup(form)
  {
  }
}
