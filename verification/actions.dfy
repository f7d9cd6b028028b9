/**
  The events the reducer understands, and the builders that make them.
  Each kind of event is one constructor; `Unrecognized` stands for an event
  whose type is none of the six kinds.
 */
module Actions {
  import opened Wrappers
  import opened FormState

  datatype Action =
    | InputValidity(formId: string, groupId: string, name: string,
                    validity: Option<Validity>, validationMessage: string)
    | InputGroupValidity(formId: string, groupId: string, valid: bool, errors: seq<string>)
    | FormValidity(formId: string, valid: bool, error: string)
    | Pristine(formId: string)
    | Submitting(formId: string, submitting: bool)
    | Submitted(formId: string)
    | Unrecognized(kind: string)

  /** The form an event is about; `None` for an unrecognised event. */
  function TargetForm(a: Action): (r: Option<string>)
    ensures r.None? <==> a.Unrecognized?
    ensures r.Some? ==> r.value == a.formId
  {
    if a.Unrecognized? then None else Some(a.formId)
  }

  // The builders: every argument may be left out, and a missing one becomes
  // the empty string, `false`, the empty list, or no validity object.

  function UpdateInputValidity(formId: Option<string>, groupId: Option<string>, name: Option<string>,
                               validity: Option<Validity>, validationMessage: Option<string>): (a: Action)
    ensures a.InputValidity?
    ensures a.formId == formId.GetOr("") && a.groupId == groupId.GetOr("") && a.name == name.GetOr("")
    ensures a.validity == validity && a.validationMessage == validationMessage.GetOr("")
  {
    InputValidity(formId.GetOr(""), groupId.GetOr(""), name.GetOr(""), validity, validationMessage.GetOr(""))
  }

  function UpdateInputGroupValidity(formId: Option<string>, groupId: Option<string>,
                                    valid: Option<bool>, errors: Option<seq<string>>): (a: Action)
    ensures a.InputGroupValidity?
    ensures a.formId == formId.GetOr("") && a.groupId == groupId.GetOr("")
    ensures a.valid == valid.GetOr(false) && a.errors == errors.GetOr([])
  {
    InputGroupValidity(formId.GetOr(""), groupId.GetOr(""), valid.GetOr(false), errors.GetOr([]))
  }

  function UpdateFormValidity(formId: Option<string>, valid: Option<bool>, error: Option<string>): (a: Action)
    ensures a.FormValidity?
    ensures a.formId == formId.GetOr("") && a.valid == valid.GetOr(false) && a.error == error.GetOr("")
  {
    FormValidity(formId.GetOr(""), valid.GetOr(false), error.GetOr(""))
  }

  function UpdatePristine(formId: Option<string>): (a: Action)
    ensures a.Pristine? && a.formId == formId.GetOr("")
  {
    Pristine(formId.GetOr(""))
  }

  function UpdateSubmitting(formId: Option<string>, submitting: Option<bool>): (a: Action)
    ensures a.Submitting?
    ensures a.formId == formId.GetOr("") && a.submitting == submitting.GetOr(false)
  {
    Submitting(formId.GetOr(""), submitting.GetOr(false))
  }

  function UpdateSubmitted(formId: Option<string>): (a: Action)
    ensures a.Submitted? && a.formId == formId.GetOr("")
  {
    Submitted(formId.GetOr(""))
  }

  /** Every recognised event is what some builder returns when given all of
      the event's fields: the builders reach every event of their kind. */
  lemma BuildersReachEveryAction(a: Action)
    requires !a.Unrecognized?
    ensures match a
      case InputValidity(f, g, n, v, m) =>
        UpdateInputValidity(Some(f), Some(g), Some(n), v, Some(m)) == a
      case InputGroupValidity(f, g, v, e) =>
        UpdateInputGroupValidity(Some(f), Some(g), Some(v), Some(e)) == a
      case FormValidity(f, v, e) => UpdateFormValidity(Some(f), Some(v), Some(e)) == a
      case Pristine(f) => UpdatePristine(Some(f)) == a
      case Submitting(f, b) => UpdateSubmitting(Some(f), Some(b)) == a
      case Submitted(f) => UpdateSubmitted(Some(f)) == a
      case Unrecognized(_) => false
  {
  }

  /** Each builder puts its first argument into the event's form identifier,
      and called without arguments it yields the empty identifier. */
  lemma BuildersCarryFormId(formId: string, groupId: Option<string>, name: Option<string>,
                             validity: Option<Validity>, message: Option<string>,
                             valid: Option<bool>, errors: Option<seq<string>>,
                             error: Option<string>, submitting: Option<bool>)
    ensures TargetForm(UpdateInputValidity(Some(formId), groupId, name, validity, message)) == Some(formId)
    ensures TargetForm(UpdateInputGroupValidity(Some(formId), groupId, valid, errors)) == Some(formId)
    ensures TargetForm(UpdateFormValidity(Some(formId), valid, error)) == Some(formId)
    ensures TargetForm(UpdatePristine(Some(formId))) == Some(formId)
    ensures TargetForm(UpdateSubmitting(Some(formId), submitting)) == Some(formId)
    ensures TargetForm(UpdateSubmitted(Some(formId))) == Some(formId)
  {
  }

  lemma BuildersWithoutArguments()
    ensures TargetForm(UpdateInputValidity(None, None, None, None, None)) == Some("")
    ensures TargetForm(UpdateInputGroupValidity(None, None, None, None)) == Some("")
    ensures TargetForm(UpdateFormValidity(None, None, None)) == Some("")
    ensures TargetForm(UpdatePristine(None)) == Some("")
    ensures TargetForm(UpdateSubmitting(None, None)) == Some("")
    ensures TargetForm(UpdateSubmitted(None)) == Some("")
  {
  }
}
