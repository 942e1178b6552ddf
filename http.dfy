/** What a form handler learns from its POST request, and how a failed request is
    turned into the text shown in the page's error alert. The request itself (the
    axios client, its base URL and credentials) is not part of this model: the
    outcome is an input to each page's submit method. */
module Http {
  import opened Wrappers
  import opened Js

  /** The `response` of a rejected axios request: `data.message` when the server sent
      one, and the HTTP status. */
  datatype ErrorResponse = ErrorResponse(message: Option<string>, status: Option<int>)

  /** How `await axios.post(...)` ends: it resolves with a response and its status, or
      it throws. A thrown error carries a `response` only when the server answered;
      `Rejected(None)` stands for a network failure or any other exception raised
      inside the `try` block. */
  datatype Outcome = Responded(status: int) | Rejected(response: Option<ErrorResponse>)

  /** The status test of every add page: `response.status === 201 || response.status === 200`. */
  predicate Created(status: int) {
    status == 201 || status == 200
  }

  /** `err.response?.data?.message` is truthy: present and not the empty string. */
  predicate HasServerMessage(r: ErrorResponse) {
    r.message.Some? && r.message.value != ""
  }

  /** One `else if (err.response?.status === code)` branch of an error handler. */
  datatype StatusRule = StatusRule(code: int, text: string)

  /** The text of the first rule whose code is `status`, or `fallback` when none matches. */
  function StatusText(status: Option<int>, rules: seq<StatusRule>, fallback: string): (r: string)
    ensures r == fallback || exists i :: 0 <= i < |rules| && r == rules[i].text
  {
    if rules == [] then fallback
    else if status == Some(rules[0].code) then rules[0].text
    else StatusText(status, rules[1..], fallback)
  }

  /** The catch block shared by the add pages: the server's own message first, then the
      status rules in order, then the page's generic message; no response at all gives
      the generic message. */
  function ErrorText(response: Option<ErrorResponse>, rules: seq<StatusRule>, fallback: string): (r: string)
    ensures response.None? ==> r == fallback
    ensures response.Some? && HasServerMessage(response.value) ==> r == response.value.message.value
    ensures response.Some? && !HasServerMessage(response.value) ==>
              r == StatusText(response.value.status, rules, fallback)
  {
    match response
    case None => fallback
    case Some(e) =>
      if HasServerMessage(e) then e.message.value else StatusText(e.status, rules, fallback)
  }

  /** The first rule matching a status wins, and rules for other codes are passed over. */
  lemma {:induction false} StatusTextFirstMatch(status: Option<int>, rules: seq<StatusRule>, fallback: string, k: nat)
    requires k < |rules| && status == Some(rules[k].code)
    requires forall j :: 0 <= j < k ==> rules[j].code != rules[k].code
    ensures StatusText(status, rules, fallback) == rules[k].text
  {
    if k > 0 {
      StatusTextFirstMatch(status, rules[1..], fallback, k - 1);
    }
  }

  /** A status that no rule names, or no status at all, falls through to the generic text. */
  lemma {:induction false} StatusTextNoMatch(status: Option<int>, rules: seq<StatusRule>, fallback: string)
    requires forall j :: 0 <= j < |rules| ==> status != Some(rules[j].code)
    ensures StatusText(status, rules, fallback) == fallback
  {
    if rules != [] {
      StatusTextNoMatch(status, rules[1..], fallback);
    }
  }

  /** When the generic text and every rule's text are non-empty, a failed request always
      leaves a non-empty error, so the page's error alert is shown. */
  lemma ErrorTextNonEmpty(response: Option<ErrorResponse>, rules: seq<StatusRule>, fallback: string)
    requires fallback != ""
    requires forall i :: 0 <= i < |rules| ==> rules[i].text != ""
    ensures ErrorText(response, rules, fallback) != ""
  {
  }
}
