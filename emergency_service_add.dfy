/** The "Add New Emergency Service" page: its form record, `handleChange`, the phone
    and e-mail validators, the ordered checks of `handleSubmit` and the mapping of a
    failed request to an error text. */
module EmergencyServiceAdd {
  import opened Wrappers
  import opened Js
  import opened Http

  datatype ServiceForm = ServiceForm(
    serviceName: string,
    phoneNumber: string,
    address: string,
    serviceType: string,
    description: string,
    website: string,
    email: string,
    operatingHours: string)

  /** The initial form and the form after a successful submit: every field empty. */
  const EmptyForm := ServiceForm("", "", "", "", "", "", "", "")

  /** The names the page passes to `handleChange`. */
  datatype Field =
    ServiceName | PhoneNumber | Address | ServiceType | Description | Website | Email | OperatingHours

  function Get(f: ServiceForm, field: Field): string {
    match field
    case ServiceName => f.serviceName
    case PhoneNumber => f.phoneNumber
    case Address => f.address
    case ServiceType => f.serviceType
    case Description => f.description
    case Website => f.website
    case Email => f.email
    case OperatingHours => f.operatingHours
  }

  /** `{ ...prev, [field]: value }` */
  function With(f: ServiceForm, field: Field, value: string): (r: ServiceForm)
    ensures Get(r, field) == value
    ensures forall g :: g != field ==> Get(r, g) == Get(f, g)
  {
    match field
    case ServiceName => f.(serviceName := value)
    case PhoneNumber => f.(phoneNumber := value)
    case Address => f.(address := value)
    case ServiceType => f.(serviceType := value)
    case Description => f.(description := value)
    case Website => f.(website := value)
    case Email => f.(email := value)
    case OperatingHours => f.(operatingHours := value)
  }

  lemma EmptyFormIsEmpty(field: Field)
    ensures Get(EmptyForm, field) == ""
  {
  }

  // ---------------------------------------------------------------------------
  // validatePhoneNumber

  /** The characters removed by `phone.replace(/[\s\-$$$$]/g, "")`: whitespace, `-` and
      `$` (the class lists `$` four times; it holds no parenthesis). */
  predicate Stripped(c: char) {
    IsWhitespace(c) || c == '-' || c == '$'
  }

  function CleanPhone(phone: string): (r: string)
    ensures |r| <= |phone|
  {
    if phone == [] then []
    else if Stripped(phone[0]) then CleanPhone(phone[1..])
    else [phone[0]] + CleanPhone(phone[1..])
  }

  /** Every character left by the cleaning step comes from the input and is not removable. */
  lemma {:induction false} CleanPhoneChars(phone: string, c: char)
    requires c in CleanPhone(phone)
    ensures c in phone && !Stripped(c)
  {
    if phone != [] && !(!Stripped(phone[0]) && c == phone[0]) {
      CleanPhoneChars(phone[1..], c);
    }
  }

  /** Conversely, every character that is not whitespace, `-` or `$` survives the cleaning. */
  lemma {:induction false} CleanPhoneKeepsOthers(phone: string, c: char)
    requires c in phone && !Stripped(c)
    ensures c in CleanPhone(phone)
  {
    if phone[0] != c {
      CleanPhoneKeepsOthers(phone[1..], c);
    }
  }

  /** A number without `+` that holds any character other than a digit, whitespace, `-`
      or `$` (a dot, a letter, a parenthesis) is refused. */
  lemma OtherCharRefused(phone: string, i: nat)
    requires '+' !in phone
    requires i < |phone| && !IsDigit(phone[i]) && !Stripped(phone[i])
    ensures !ValidPhoneNumber(phone)
  {
    CleanPhoneKeepsOthers(phone, phone[i]);
    PhoneNumberRule(phone);
  }

  /** `[1-9][\d]{0,15}$`: a non-zero digit followed by at most fifteen digits. */
  predicate PhoneDigits(s: string) {
    1 <= |s| <= 16 && '1' <= s[0] <= '9' && forall i :: 1 <= i < |s| ==> IsDigit(s[i])
  }

  /** `/^[+]?[1-9][\d]{0,15}$/.test(s)` */
  predicate PhoneRegexTest(s: string) {
    PhoneDigits(s) || (|s| >= 1 && s[0] == '+' && PhoneDigits(s[1..]))
  }

  predicate ValidPhoneNumber(phone: string) {
    PhoneRegexTest(CleanPhone(phone)) || '+' in phone
  }

  /** A phone number is accepted exactly when it contains a `+` anywhere, or when what is
      left after removing whitespace, `-` and `$` is 1 to 16 digits not starting with 0. */
  lemma PhoneNumberRule(phone: string)
    ensures ValidPhoneNumber(phone) <==>
      || '+' in phone
      || (var c := CleanPhone(phone); 1 <= |c| <= 16 && AllDigits(c) && c[0] != '0')
  {
    var c := CleanPhone(phone);
    if '+' !in phone && c != [] {
      CleanPhoneChars(phone, c[0]);
    }
  }

  /** Parentheses are not among the removed characters: a number written with its area
      code in parentheses, such as "(555) 123-4567", is refused. */
  lemma ParenthesizedPhoneRefused(area: string, rest: string)
    requires '+' !in area && '+' !in rest
    ensures !ValidPhoneNumber("(" + area + ")" + rest)
  {
    var phone := "(" + area + ")" + rest;
    assert phone == "(" + (area + ")" + rest);
    CleanPhoneConcat("(", area + ")" + rest);
    assert CleanPhone("(") == "(";
    assert CleanPhone(phone)[0] == '(';
    assert '+' !in phone;
  }

  /** Spaces and dashes between digit groups are removed, so "555 123-4567" is accepted. */
  lemma SeparatedPhoneAccepted(a: string, b: string, c: string)
    requires AllDigits(a + b + c) && 1 <= |a + b + c| <= 16 && (a + b + c)[0] != '0'
    ensures ValidPhoneNumber(a + " " + b + "-" + c)
  {
    assert AllDigits(a) && AllDigits(b) && AllDigits(c) by {
      assert forall i :: 0 <= i < |a| ==> a[i] == (a + b + c)[i];
      assert forall i :: 0 <= i < |b| ==> b[i] == (a + b + c)[|a| + i];
      assert forall i :: 0 <= i < |c| ==> c[i] == (a + b + c)[|a| + |b| + i];
    }
    CleanPhoneKeeps(a);
    CleanPhoneKeeps(b);
    CleanPhoneKeeps(c);
    var x1 := a + " ";
    CleanPhoneConcat(a, " ");
    assert CleanPhone(x1) == a;
    var x2 := x1 + b;
    CleanPhoneConcat(x1, b);
    var x3 := x2 + "-";
    CleanPhoneConcat(x2, "-");
    assert CleanPhone(x3) == a + b;
    CleanPhoneConcat(x3, c);
    assert CleanPhone(x3 + c) == a + b + c;
  }

  /** The digits of `s`, in order. */
  function Digits(s: string): (r: string)
    ensures AllDigits(r)
  {
    if s == [] then []
    else (if IsDigit(s[0]) then [s[0]] else []) + Digits(s[1..])
  }

  /** A phone number written only with digits and removable separators (whitespace,
      `-`, `$`), in any arrangement, is accepted exactly when its digits are 1 to 16
      long and do not start with 0. */
  lemma SeparatorsIgnored(phone: string)
    requires forall i :: 0 <= i < |phone| ==> IsDigit(phone[i]) || Stripped(phone[i])
    ensures CleanPhone(phone) == Digits(phone)
    ensures ValidPhoneNumber(phone) <==>
              var d := Digits(phone); 1 <= |d| <= 16 && d[0] != '0'
  {
    CleanPhoneIsDigits(phone);
    assert '+' !in phone by {
      assert !IsDigit('+') && !Stripped('+');
    }
    PhoneNumberRule(phone);
  }

  lemma {:induction false} CleanPhoneIsDigits(phone: string)
    requires forall i :: 0 <= i < |phone| ==> IsDigit(phone[i]) || Stripped(phone[i])
    ensures CleanPhone(phone) == Digits(phone)
  {
    if phone != [] {
      assert forall i :: 0 <= i < |phone[1..]| ==> phone[1..][i] == phone[i + 1];
      CleanPhoneIsDigits(phone[1..]);
      var c := phone[0];
      assert IsDigit(c) ==> !Stripped(c);
    }
  }

  lemma {:induction false} CleanPhoneKeeps(s: string)
    requires AllDigits(s)
    ensures CleanPhone(s) == s
  {
    if s != [] {
      CleanPhoneKeeps(s[1..]);
      assert [s[0]] + s[1..] == s;
    }
  }

  lemma {:induction false} CleanPhoneConcat(a: string, b: string)
    ensures CleanPhone(a + b) == CleanPhone(a) + CleanPhone(b)
  {
    if a != [] {
      assert (a + b)[0] == a[0];
      assert (a + b)[1..] == a[1..] + b;
      CleanPhoneConcat(a[1..], b);
    } else {
      assert a + b == b;
    }
  }

  // ---------------------------------------------------------------------------
  // validateEmail

  predicate NoWhitespace(s: string) {
    forall i :: 0 <= i < |s| ==> !IsWhitespace(s[i])
  }

  predicate NoAt(s: string) {
    forall i :: 0 <= i < |s| ==> s[i] != '@'
  }

  /** Number of occurrences of `c` in `s`. */
  function CountChar(s: string, c: char): nat
  {
    if s == [] then 0 else (if s[0] == c then 1 else 0) + CountChar(s[1..], c)
  }

  /** `[^\s@]+` */
  predicate PlainRun(s: string) {
    |s| >= 1 && NoWhitespace(s) && NoAt(s)
  }

  /** `[^\s@]+\.[^\s@]+$` for the part after the `@`. */
  predicate DomainMatches(d: string) {
    exists j :: 0 <= j < |d| && d[j] == '.' && PlainRun(d[..j]) && PlainRun(d[j + 1..])
  }

  /** `/^[^\s@]+@[^\s@]+\.[^\s@]+$/.test(s)` */
  predicate EmailRegexTest(s: string) {
    exists i :: 0 <= i < |s| && s[i] == '@' && PlainRun(s[..i]) && DomainMatches(s[i + 1..])
  }

  /** The e-mail field is optional: the empty string passes. */
  predicate ValidEmail(email: string) {
    email == "" || EmailRegexTest(email)
  }

  /** A `.` that is neither the first nor the last character. */
  predicate InnerDot(d: string) {
    exists j :: 0 < j < |d| - 1 && d[j] == '.'
  }

  /** What the e-mail pattern asks of a non-empty address, stated character by character:
      no whitespace, a single `@` with something before it, and a `.` strictly inside
      the part after the `@`. */
  predicate EmailShape(email: string) {
    && NoWhitespace(email)
    && CountChar(email, '@') == 1
    && exists k :: 0 < k < |email| && email[k] == '@' && InnerDot(email[k + 1..])
  }

  /** A non-empty e-mail is accepted exactly when it has the shape above. */
  lemma EmailRule(email: string)
    ensures ValidEmail(email) <==> email == "" || EmailShape(email)
  {
    if EmailRegexTest(email) {
      EmailRegexHasShape(email);
    }
    if email != "" && EmailShape(email) {
      EmailShapeMatches(email);
    }
  }

  lemma EmailRegexHasShape(email: string)
    requires EmailRegexTest(email)
    ensures EmailShape(email)
  {
    var i :| 0 <= i < |email| && email[i] == '@' && PlainRun(email[..i]) && DomainMatches(email[i + 1..]);
    var d := email[i + 1..];
    var j :| 0 <= j < |d| && d[j] == '.' && PlainRun(d[..j]) && PlainRun(d[j + 1..]);
    SplitAt(email, i);
    SplitAt(d, j);
    ShapeOfParts(email[..i], d[..j], d[j + 1..]);
  }

  lemma EmailShapeMatches(email: string)
    requires email != "" && EmailShape(email)
    ensures EmailRegexTest(email)
  {
    var k :| 0 < k < |email| && email[k] == '@' && InnerDot(email[k + 1..]);
    var d := email[k + 1..];
    var j :| 0 < j < |d| - 1 && d[j] == '.';
    SplitAt(email, k);
    SplitAt(d, j);
    PartsOfShape(email[..k], d[..j], d[j + 1..]);
  }

  lemma SplitAt(s: string, i: nat)
    requires i < |s|
    ensures s == s[..i] + [s[i]] + s[i + 1..]
  {
  }

  /** Three runs joined by `@` and `.` have the e-mail shape. */
  lemma ShapeOfParts(pre: string, l: string, r: string)
    requires PlainRun(pre) && PlainRun(l) && PlainRun(r)
    ensures EmailShape(pre + ['@'] + (l + ['.'] + r))
  {
    var d := l + ['.'] + r;
    var e := pre + ['@'] + d;
    Concat3(l, '.', r);
    Concat3(pre, '@', d);
    NoAtCount(pre);
    NoAtCount(d);
    CountCharConcat(pre + ['@'], d, '@');
    CountCharConcat(pre, ['@'], '@');
    assert d[|l|] == '.';
    assert InnerDot(d);
    assert e[|pre|] == '@' && e[|pre| + 1..] == d;
  }

  /** Conversely, an address of the e-mail shape, cut at its `@` and at an inner `.` of the
      part after it, consists of three runs. */
  lemma PartsOfShape(pre: string, l: string, r: string)
    requires |pre| > 0 && |l| > 0 && |r| > 0
    requires NoWhitespace(pre + ['@'] + (l + ['.'] + r))
    requires CountChar(pre + ['@'] + (l + ['.'] + r), '@') == 1
    ensures EmailRegexTest(pre + ['@'] + (l + ['.'] + r))
  {
    var d := l + ['.'] + r;
    CountCharConcat(pre + ['@'], d, '@');
    CountCharConcat(pre, ['@'], '@');
    CountZeroNoAt(pre);
    CountZeroNoAt(d);
    Concat3(pre, '@', d);
    Concat3(l, '.', r);
    RegexOfParts(pre, l, r);
  }

  lemma RegexOfParts(pre: string, l: string, r: string)
    requires PlainRun(pre) && PlainRun(l) && PlainRun(r)
    ensures EmailRegexTest(pre + ['@'] + (l + ['.'] + r))
  {
    var d := l + ['.'] + r;
    Cut(l, '.', r);
    Cut(pre, '@', d);
    assert DomainMatches(d);
  }

  lemma Cut(a: string, c: char, b: string)
    ensures (a + [c] + b)[|a|] == c && (a + [c] + b)[..|a|] == a && (a + [c] + b)[|a| + 1..] == b
  {
  }

  /** Both character conditions hold of `a + [c] + b` exactly when they hold of its parts. */
  lemma Concat3(a: string, c: char, b: string)
    ensures NoWhitespace(a + [c] + b) <==> NoWhitespace(a) && !IsWhitespace(c) && NoWhitespace(b)
    ensures NoAt(a + [c] + b) <==> NoAt(a) && c != '@' && NoAt(b)
  {
    var s := a + [c] + b;
    assert forall i :: 0 <= i < |a| ==> s[i] == a[i];
    assert s[|a|] == c;
    assert forall i :: 0 <= i < |b| ==> s[|a| + 1 + i] == b[i];
  }

  lemma {:induction false} NoAtCount(s: string)
    requires NoAt(s)
    ensures CountChar(s, '@') == 0
  {
    if s != [] {
      NoAtCount(s[1..]);
    }
  }

  lemma {:induction false} CountZeroNoAt(s: string)
    requires CountChar(s, '@') == 0
    ensures NoAt(s)
  {
    if s != [] {
      CountZeroNoAt(s[1..]);
      assert forall i :: 1 <= i < |s| ==> s[i] == s[1..][i - 1];
    }
  }

  lemma {:induction false} CountCharConcat(a: string, b: string, c: char)
    ensures CountChar(a + b, c) == CountChar(a, c) + CountChar(b, c)
  {
    if a != [] {
      assert (a + b)[0] == a[0];
      assert (a + b)[1..] == a[1..] + b;
      CountCharConcat(a[1..], b, c);
    } else {
      assert a + b == b;
    }
  }

  // ---------------------------------------------------------------------------
  // handleSubmit

  const RequiredMessage := "Service name, phone number, address, and type are required"
  const PhoneMessage := "Please enter a valid phone number"
  const EmailMessage := "Please enter a valid email address"
  const SuccessMessage := "Emergency service created successfully!"
  const GenericMessage := "Failed to create emergency service. Please try again."

  /** The status branches of the catch block, in order. */
  const ErrorRules := [
    StatusRule(400, "Invalid data provided. Please check your inputs."),
    StatusRule(409, "A service with this phone number already exists."),
    StatusRule(500, "Server error. Please try again later.")]

  predicate HasRequired(f: ServiceForm) {
    f.serviceName != "" && f.phoneNumber != "" && f.address != "" && f.serviceType != ""
  }

  /** The message of the first failing check, or `None` when the form may be posted. */
  function ValidationError(f: ServiceForm): (r: Option<string>)
    ensures r.None? <==> HasRequired(f) && ValidPhoneNumber(f.phoneNumber) && ValidEmail(f.email)
    ensures r.Some? ==> r.value in {RequiredMessage, PhoneMessage, EmailMessage}
  {
    if !HasRequired(f) then Some(RequiredMessage)
    else if !ValidPhoneNumber(f.phoneNumber) then Some(PhoneMessage)
    else if !ValidEmail(f.email) then Some(EmailMessage)
    else None
  }

  /** The checks run in order: a missing required field is reported whatever the phone
      and e-mail hold, and a bad phone number is reported whatever the e-mail holds. */
  lemma ChecksInOrder(f: ServiceForm)
    ensures !HasRequired(f) ==> ValidationError(f) == Some(RequiredMessage)
    ensures HasRequired(f) && !ValidPhoneNumber(f.phoneNumber) ==> ValidationError(f) == Some(PhoneMessage)
    ensures HasRequired(f) && ValidPhoneNumber(f.phoneNumber) && !ValidEmail(f.email) ==>
              ValidationError(f) == Some(EmailMessage)
  {
  }

  /** The untouched form is refused for its missing required fields. */
  lemma EmptyFormRefused()
    ensures ValidationError(EmptyForm) == Some(RequiredMessage)
  {
  }

  function SubmitErrorText(response: Option<ErrorResponse>): string {
    ErrorText(response, ErrorRules, GenericMessage)
  }

  /** Precedence of the catch block: the server's message, then 400, 409, 500, then the
      generic text; with no response at all the generic text. */
  lemma SubmitErrorPrecedence(response: Option<ErrorResponse>)
    ensures response.None? ==> SubmitErrorText(response) == GenericMessage
    ensures response.Some? && HasServerMessage(response.value) ==>
              SubmitErrorText(response) == response.value.message.value
    ensures response.Some? && !HasServerMessage(response.value) ==>
              SubmitErrorText(response) ==
                match response.value.status
                case Some(400) => ErrorRules[0].text
                case Some(409) => ErrorRules[1].text
                case Some(500) => ErrorRules[2].text
                case _ => GenericMessage
    ensures SubmitErrorText(response) != ""
  {
    ErrorTextNonEmpty(response, ErrorRules, GenericMessage);
    if response.Some? && !HasServerMessage(response.value) {
      var status := response.value.status;
      if status == Some(400) {
        StatusTextFirstMatch(status, ErrorRules, GenericMessage, 0);
      } else if status == Some(409) {
        StatusTextFirstMatch(status, ErrorRules, GenericMessage, 1);
      } else if status == Some(500) {
        StatusTextFirstMatch(status, ErrorRules, GenericMessage, 2);
      } else {
        StatusTextNoMatch(status, ErrorRules, GenericMessage);
      }
    }
  }

  /** The page's state: `formData`, `error`, `success` and `loading`. */
  class AddServicePage {
    var formData: ServiceForm
    var error: string
    var success: string
    var loading: bool

    constructor ()
      ensures formData == EmptyForm && error == "" && success == "" && !loading
    {
      formData := EmptyForm;
      error := "";
      success := "";
      loading := false;
    }

    /** `handleChange(field, value)`: only the named field changes. */
    method HandleChange(field: Field, value: string)
      modifies this
      ensures formData == With(old(formData), field, value)
      ensures Get(formData, field) == value
      ensures forall g :: g != field ==> Get(formData, g) == Get(old(formData), g)
      ensures error == old(error) && success == old(success) && loading == old(loading)
    {
      formData := With(formData, field, value);
    }

    /** `handleSubmit`, given how the POST request ends. Returns the body that was posted,
        or `None` when a check failed and no request was sent. */
    method HandleSubmit(outcome: Outcome) returns (posted: Option<ServiceForm>)
      modifies this
      ensures !loading
      ensures ValidationError(old(formData)).Some? ==>
                && posted == None
                && error == ValidationError(old(formData)).value
                && success == ""
                && formData == old(formData)
      ensures ValidationError(old(formData)).None? ==>
                && posted == Some(old(formData))
                && match outcome
                   case Responded(status) =>
                     && error == ""
                     && (Created(status) ==> success == SuccessMessage && formData == EmptyForm)
                     && (!Created(status) ==> success == "" && formData == old(formData))
                   case Rejected(response) =>
                     error == SubmitErrorText(response) && success == "" && formData == old(formData)
    {
      error := "";
      success := "";
      loading := true;

      if formData.serviceName == "" || formData.phoneNumber == "" || formData.address == ""
         || formData.serviceType == ""
      {
        error := RequiredMessage;
        loading := false;
        return None;
      }
      if !ValidPhoneNumber(formData.phoneNumber) {
        error := PhoneMessage;
        loading := false;
        return None;
      }
      if !ValidEmail(formData.email) {
        error := EmailMessage;
        loading := false;
        return None;
      }

      posted := Some(formData);
      match outcome {
        case Responded(status) =>
          if status == 201 || status == 200 {
            success := SuccessMessage;
            formData := EmptyForm;
          }
        case Rejected(response) =>
          error := SubmitErrorText(response);
      }
      loading := false;
    }
  }
}
