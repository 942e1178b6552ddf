/** The "Add New User" page: its initial form, `handleChange` and the checks of
    `handleSubmit`. The page sends no request; when every check passes it navigates
    back to the user list. */
module UserAdd {
  import opened Wrappers
  import opened Js

  datatype UserForm = UserForm(
    email: string,
    password: string,
    confirmPassword: string,
    name: string,
    role: string,
    isActive: bool,
    userType: string,
    country: string,
    university: string,
    course: string,
    language: string)

  /** The form as the page first shows it. */
  const InitialForm := UserForm("", "", "", "", "user", true, "NORMAL", "", "", "", "")

  /** The text fields the page passes to `handleChange`. */
  datatype TextField =
    Email | Password | ConfirmPassword | Name | Role | UserType | Country | University | Course | Language

  function Get(f: UserForm, field: TextField): string {
    match field
    case Email => f.email
    case Password => f.password
    case ConfirmPassword => f.confirmPassword
    case Name => f.name
    case Role => f.role
    case UserType => f.userType
    case Country => f.country
    case University => f.university
    case Course => f.course
    case Language => f.language
  }

  /** `{ ...prev, [field]: value }` for a text field. */
  function With(f: UserForm, field: TextField, value: string): (r: UserForm)
    ensures Get(r, field) == value
    ensures forall g :: g != field ==> Get(r, g) == Get(f, g)
    ensures r.isActive == f.isActive
  {
    match field
    case Email => f.(email := value)
    case Password => f.(password := value)
    case ConfirmPassword => f.(confirmPassword := value)
    case Name => f.(name := value)
    case Role => f.(role := value)
    case UserType => f.(userType := value)
    case Country => f.(country := value)
    case University => f.(university := value)
    case Course => f.(course := value)
    case Language => f.(language := value)
  }

  /** The initial form: role "user", active, a normal user, every text field but those
      two empty. */
  lemma InitialFormDefaults()
    ensures InitialForm.role == "user" && InitialForm.isActive && InitialForm.userType == "NORMAL"
    ensures forall g :: g != Role && g != UserType ==> Get(InitialForm, g) == ""
  {
  }

  const RequiredMessage := "Email and password are required"
  const MismatchMessage := "Passwords do not match"
  const StudentMessage := "All student information is required"

  /** Where the page navigates once every check passes. */
  const UsersPath := "/admin/users"

  predicate StudentInfoComplete(f: UserForm) {
    f.country != "" && f.university != "" && f.course != "" && f.language != ""
  }

  /** The message of the first failing check of `handleSubmit`, or `None`. */
  function ValidationError(f: UserForm): (r: Option<string>)
    ensures r.None? <==>
      && f.email != "" && f.password != ""
      && f.password == f.confirmPassword
      && (f.userType == "STUDENT" ==> StudentInfoComplete(f))
    ensures r.Some? ==> r.value in {RequiredMessage, MismatchMessage, StudentMessage}
  {
    if f.email == "" || f.password == "" then Some(RequiredMessage)
    else if f.password != f.confirmPassword then Some(MismatchMessage)
    else if f.userType == "STUDENT" && !StudentInfoComplete(f) then Some(StudentMessage)
    else None
  }

  /** A missing e-mail or password is reported whatever the passwords are: the
      password comparison is never reached. */
  lemma MissingCredentialsFirst(f: UserForm)
    requires f.email == "" || f.password == ""
    ensures ValidationError(f) == Some(RequiredMessage)
  {
  }

  /** With both present, differing passwords are reported whatever the student fields hold. */
  lemma MismatchSecond(f: UserForm)
    requires f.email != "" && f.password != "" && f.password != f.confirmPassword
    ensures ValidationError(f) == Some(MismatchMessage)
  {
  }

  /** A `STUDENT` with valid credentials but a missing country, university, course or
      language is told that all student information is required. */
  lemma StudentInfoRequired(f: UserForm)
    requires f.email != "" && f.password != "" && f.password == f.confirmPassword
    requires f.userType == "STUDENT" && !StudentInfoComplete(f)
    ensures ValidationError(f) == Some(StudentMessage)
  {
  }

  /** The student fields are required of "STUDENT" users only: the outcome for any other
      user type does not depend on them. */
  lemma StudentFieldsOnlyForStudents(f: UserForm, country: string, university: string, course: string, language: string)
    requires f.userType != "STUDENT"
    ensures ValidationError(f) ==
            ValidationError(f.(country := country, university := university, course := course, language := language))
  {
  }

  /** Filling in e-mail and matching passwords on the initial form is enough: the default
      user type is "NORMAL", so the empty student fields pass. */
  lemma InitialFormNeedsOnlyCredentials(email: string, password: string)
    requires email != "" && password != ""
    ensures ValidationError(InitialForm.(email := email, password := password, confirmPassword := password)) == None
  {
  }

  /** The page's state: `formData`, `error`, and the paths it has navigated to. */
  class AddUserPage {
    var formData: UserForm
    var error: string
    var navigations: seq<string>

    constructor ()
      ensures formData == InitialForm && error == "" && navigations == []
    {
      formData := InitialForm;
      error := "";
      navigations := [];
    }

    /** `handleChange(field, value)` for a text field: only that field changes. */
    method HandleChange(field: TextField, value: string)
      modifies this
      ensures formData == With(old(formData), field, value)
      ensures forall g :: g != field ==> Get(formData, g) == Get(old(formData), g)
      ensures formData.isActive == old(formData).isActive
      ensures error == old(error) && navigations == old(navigations)
    {
      formData := With(formData, field, value);
    }

    /** `handleChange("isActive", checked)` from the status switch. */
    method HandleActiveChange(checked: bool)
      modifies this
      ensures formData == old(formData).(isActive := checked)
      ensures error == old(error) && navigations == old(navigations)
    {
      formData := formData.(isActive := checked);
    }

    /** `handleSubmit`: clears the error, stops at the first failing check with its
        message, and otherwise navigates to the user list with the error left empty. */
    method HandleSubmit()
      modifies this
      ensures formData == old(formData)
      ensures ValidationError(formData).Some? ==>
                error == ValidationError(formData).value && navigations == old(navigations)
      ensures ValidationError(formData).None? ==>
                error == "" && navigations == old(navigations) + [UsersPath]
    {
      error := "";

      if formData.email == "" || formData.password == "" {
        error := RequiredMessage;
        return;
      }
      if formData.password != formData.confirmPassword {
        error := MismatchMessage;
        return;
      }
      if formData.userType == "STUDENT"
         && (formData.country == "" || formData.university == "" || formData.course == ""
             || formData.language == "")
      {
        error := StudentMessage;
        return;
      }

      navigations := navigations + [UsersPath];
    }
  }
}
