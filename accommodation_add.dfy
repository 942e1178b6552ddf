/** The "Add New Accommodation" page: its form record, `handleChange`, the required
    fields of `handleSubmit` and the mapping of a failed request to an error text. */
module AccommodationAdd {
  import opened Wrappers
  import opened Js
  import opened Http

  datatype AccommodationForm = AccommodationForm(
    name: string,
    address: string,
    description: string,
    availability: bool)

  /** The initial form and the form after a successful submit: three empty texts and
      the availability switch on. */
  const DefaultForm := AccommodationForm("", "", "", true)

  datatype TextField = Name | Address | Description

  function Get(f: AccommodationForm, field: TextField): string {
    match field
    case Name => f.name
    case Address => f.address
    case Description => f.description
  }

  /** `{ ...prev, [field]: value }` for a text field. */
  function With(f: AccommodationForm, field: TextField, value: string): (r: AccommodationForm)
    ensures Get(r, field) == value
    ensures forall g :: g != field ==> Get(r, g) == Get(f, g)
    ensures r.availability == f.availability
  {
    match field
    case Name => f.(name := value)
    case Address => f.(address := value)
    case Description => f.(description := value)
  }

  const RequiredMessage := "Name, address, and description are required"
  const SuccessMessage := "Accommodation created successfully!"
  const GenericMessage := "Failed to create accommodation. Please try again."

  const ErrorRules := [
    StatusRule(400, "Invalid data provided. Please check your inputs."),
    StatusRule(500, "Server error. Please try again later.")]

  /** The message of the failing check of `handleSubmit`, or `None`. */
  function ValidationError(f: AccommodationForm): (r: Option<string>)
    ensures r.None? <==> f.name != "" && f.address != "" && f.description != ""
    ensures r.Some? ==> r.value == RequiredMessage
  {
    if f.name == "" || f.address == "" || f.description == "" then Some(RequiredMessage) else None
  }

  /** `availability` is never checked: flipping it does not change the verdict. */
  lemma AvailabilityNotValidated(f: AccommodationForm, b: bool)
    ensures ValidationError(f.(availability := b)) == ValidationError(f)
  {
  }

  function SubmitErrorText(response: Option<ErrorResponse>): string {
    ErrorText(response, ErrorRules, GenericMessage)
  }

  /** Precedence of the catch block: the server's message, then 400, then 500, then the
      generic text; a 409 gets the generic text. */
  lemma SubmitErrorPrecedence(response: Option<ErrorResponse>)
    ensures response.None? ==> SubmitErrorText(response) == GenericMessage
    ensures response.Some? && HasServerMessage(response.value) ==>
              SubmitErrorText(response) == response.value.message.value
    ensures response.Some? && !HasServerMessage(response.value) ==>
              SubmitErrorText(response) ==
                match response.value.status
                case Some(400) => ErrorRules[0].text
                case Some(500) => ErrorRules[1].text
                case _ => GenericMessage
    ensures SubmitErrorText(response) != ""
  {
    ErrorTextNonEmpty(response, ErrorRules, GenericMessage);
    if response.Some? && !HasServerMessage(response.value) {
      var status := response.value.status;
      if status == Some(400) {
        StatusTextFirstMatch(status, ErrorRules, GenericMessage, 0);
      } else if status == Some(500) {
        StatusTextFirstMatch(status, ErrorRules, GenericMessage, 1);
      } else {
        StatusTextNoMatch(status, ErrorRules, GenericMessage);
      }
    }
  }

  /** The page's state: `formData`, `error`, `success` and `loading`. */
  class AddAccommodationPage {
    var formData: AccommodationForm
    var error: string
    var success: string
    var loading: bool

    constructor ()
      ensures formData == DefaultForm && error == "" && success == "" && !loading
    {
      formData := DefaultForm;
      error := "";
      success := "";
      loading := false;
    }

    /** `handleChange(field, value)` for a text field: only that field changes. */
    method HandleChange(field: TextField, value: string)
      modifies this
      ensures formData == With(old(formData), field, value)
      ensures forall g :: g != field ==> Get(formData, g) == Get(old(formData), g)
      ensures formData.availability == old(formData).availability
      ensures error == old(error) && success == old(success) && loading == old(loading)
    {
      formData := With(formData, field, value);
    }

    /** `handleChange("availability", checked)` from the switch. */
    method HandleAvailabilityChange(checked: bool)
      modifies this
      ensures formData == old(formData).(availability := checked)
      ensures error == old(error) && success == old(success) && loading == old(loading)
    {
      formData := formData.(availability := checked);
    }

    /** `handleSubmit`, given how the POST request ends. Returns the body that was posted,
        or `None` when the check failed and no request was sent. */
    method HandleSubmit(outcome: Outcome) returns (posted: Option<AccommodationForm>)
      modifies this
      ensures !loading
      ensures ValidationError(old(formData)).Some? ==>
                && posted == None
                && error == RequiredMessage
                && success == ""
                && formData == old(formData)
      ensures ValidationError(old(formData)).None? ==>
                && posted == Some(old(formData))
                && match outcome
                   case Responded(status) =>
                     && error == ""
                     && (Created(status) ==> success == SuccessMessage && formData == DefaultForm)
                     && (!Created(status) ==> success == "" && formData == old(formData))
                   case Rejected(response) =>
                     error == SubmitErrorText(response) && success == "" && formData == old(formData)
    {
      error := "";
      success := "";
      loading := true;

      if formData.name == "" || formData.address == "" || formData.description == "" {
        error := RequiredMessage;
        loading := false;
        return None;
      }

      posted := Some(formData);
      match outcome {
        case Responded(status) =>
          if status == 201 || status == 200 {
            success := SuccessMessage;
            formData := DefaultForm;
          }
        case Rejected(response) =>
          error := SubmitErrorText(response);
      }
      loading := false;
    }
  }
}
