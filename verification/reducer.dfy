/**
  The `html5form` reducer: a total, pure transition from a state and an
  event to the next state. Form-level validity events create their form on
  first use; every other event on a form that does not exist, and an input
  event on a group that does not exist, leaves the state as it was.
 */
module Reducer {
  import opened Wrappers
  import opened FormState
  import opened Actions

  /** UPDATE_FORM_VALIDITY: records the form's validity and error message,
      creating the form if it is not there yet. */
  function SetFormValidity(s: State, formId: string, valid: bool, error: string): (r: State)
    ensures r.forms.Keys == s.forms.Keys + {formId}
    ensures OtherFormsUnchanged(s, r, formId)
    ensures r.forms[formId].valid == valid && r.forms[formId].error == error
    ensures formId !in s.forms ==>
      r.forms[formId].id == formId && r.forms[formId].pristine
      && !r.forms[formId].submitting && !r.forms[formId].submitted
      && r.forms[formId].inputGroups == map[]
    ensures formId in s.forms ==>
      var f, f' := s.forms[formId], r.forms[formId];
      f'.id == f.id && f'.pristine == f.pristine && f'.submitting == f.submitting
      && f'.submitted == f.submitted && f'.inputGroups == f.inputGroups
  {
    var f := if formId in s.forms then s.forms[formId] else NewForm(formId);
    State(s.forms[formId := f.(valid := valid, error := error)])
  }

  /** UPDATE_PRISTINE: marks an existing form as touched. */
  function ClearPristine(s: State, formId: string): (r: State)
    ensures formId !in s.forms ==> r == s
    ensures r.forms.Keys == s.forms.Keys
    ensures OtherFormsUnchanged(s, r, formId)
    ensures formId in s.forms ==>
      var f, f' := s.forms[formId], r.forms[formId];
      f' == f.(pristine := false)
  {
    if formId !in s.forms then s
    else State(s.forms[formId := s.forms[formId].(pristine := false)])
  }

  /** UPDATE_FORM_SUBMITTING: sets an existing form's submitting flag. */
  function SetSubmitting(s: State, formId: string, submitting: bool): (r: State)
    ensures formId !in s.forms ==> r == s
    ensures r.forms.Keys == s.forms.Keys
    ensures OtherFormsUnchanged(s, r, formId)
    ensures formId in s.forms ==>
      var f, f' := s.forms[formId], r.forms[formId];
      f' == f.(submitting := submitting)
  {
    if formId !in s.forms then s
    else State(s.forms[formId := s.forms[formId].(submitting := submitting)])
  }

  /** UPDATE_FORM_SUBMITTED: marks an existing form as submitted; its
      submitting flag is left as it was. */
  function MarkSubmitted(s: State, formId: string): (r: State)
    ensures formId !in s.forms ==> r == s
    ensures r.forms.Keys == s.forms.Keys
    ensures OtherFormsUnchanged(s, r, formId)
    ensures formId in s.forms ==>
      var f, f' := s.forms[formId], r.forms[formId];
      f' == f.(submitted := true)
  {
    if formId !in s.forms then s
    else State(s.forms[formId := s.forms[formId].(submitted := true)])
  }

  /** UPDATE_INPUT_GROUP_VALIDITY: records a group's validity and replaces its
      error list, creating the group on an existing form if needed. */
  function SetGroupValidity(s: State, formId: string, groupId: string,
                            valid: bool, errors: seq<string>): (r: State)
    ensures formId !in s.forms ==> r == s
    ensures r.forms.Keys == s.forms.Keys
    ensures OtherFormsUnchanged(s, r, formId)
    ensures formId in s.forms ==>
      var f, f' := s.forms[formId], r.forms[formId];
      && f' == f.(inputGroups := f'.inputGroups)
      && f'.inputGroups.Keys == f.inputGroups.Keys + {groupId}
      && OtherGroupsUnchanged(f, f', groupId)
      && f'.inputGroups[groupId].valid == valid
      && f'.inputGroups[groupId].errors == errors
      && (groupId !in f.inputGroups ==>
            f'.inputGroups[groupId].id == groupId && f'.inputGroups[groupId].inputs == map[])
      && (groupId in f.inputGroups ==>
            f'.inputGroups[groupId].id == f.inputGroups[groupId].id
            && f'.inputGroups[groupId].inputs == f.inputGroups[groupId].inputs)
  {
    if formId !in s.forms then s
    else
      var f := s.forms[formId];
      var g := if groupId in f.inputGroups then f.inputGroups[groupId] else NewGroup(groupId);
      var g' := g.(valid := valid, errors := errors);
      State(s.forms[formId := f.(inputGroups := f.inputGroups[groupId := g'])])
  }

  /** UPDATE_INPUT_VALIDITY: records an input's validity and message in an
      existing group of an existing form, and clears the form's pristine flag. */
  function SetInputValidity(s: State, formId: string, groupId: string, name: string,
                            validity: Option<Validity>, validationMessage: string): (r: State)
    ensures !HasGroup(s, formId, groupId) ==> r == s
    ensures r.forms.Keys == s.forms.Keys
    ensures OtherFormsUnchanged(s, r, formId)
    ensures HasGroup(s, formId, groupId) ==>
      var f, f' := s.forms[formId], r.forms[formId];
      && f' == f.(pristine := false, inputGroups := f'.inputGroups)
      && f'.inputGroups.Keys == f.inputGroups.Keys
      && OtherGroupsUnchanged(f, f', groupId)
      && var g, g' := f.inputGroups[groupId], f'.inputGroups[groupId];
         && g' == g.(inputs := g'.inputs)
         && g'.inputs.Keys == g.inputs.Keys + {name}
         && OtherInputsUnchanged(g, g', name)
         && g'.inputs[name] == Input(name, validity, validationMessage)
  {
    if !HasGroup(s, formId, groupId) then s
    else
      var f := s.forms[formId];
      var g := f.inputGroups[groupId];
      var g' := g.(inputs := g.inputs[name := Input(name, validity, validationMessage)]);
      State(s.forms[formId := f.(pristine := false, inputGroups := f.inputGroups[groupId := g'])])
  }

  /** The reducer: dispatches on the kind of event. */
  function Reduce(s: State, a: Action): (r: State)
    ensures a.Unrecognized? ==> r == s
    ensures !a.Unrecognized? && !a.FormValidity? && a.formId !in s.forms ==> r == s
    ensures a.InputValidity? && !HasGroup(s, a.formId, a.groupId) ==> r == s
    ensures a.FormValidity? ==> r.forms.Keys == s.forms.Keys + {a.formId}
    ensures !a.FormValidity? ==> r.forms.Keys == s.forms.Keys
    ensures !a.Unrecognized? ==> OtherFormsUnchanged(s, r, a.formId)
    ensures Extends(s, r)
    ensures PristineLatched(s, r)
  {
    match a
    case InputValidity(formId, groupId, name, validity, message) =>
      SetInputValidity(s, formId, groupId, name, validity, message)
    case InputGroupValidity(formId, groupId, valid, errors) =>
      SetGroupValidity(s, formId, groupId, valid, errors)
    case FormValidity(formId, valid, error) => SetFormValidity(s, formId, valid, error)
    case Pristine(formId) => ClearPristine(s, formId)
    case Submitting(formId, submitting) => SetSubmitting(s, formId, submitting)
    case Submitted(formId) => MarkSubmitted(s, formId)
    case Unrecognized(_) => s
  }

  /** The reducer as it is called from outside: a missing state is the
      default state, and a missing event is an unrecognised one. */
  function Html5Form(state: Option<State>, action: Option<Action>): (r: State)
    ensures action.None? ==> r == state.GetOr(DefaultState)
    ensures action.Some? ==> r == Reduce(state.GetOr(DefaultState), action.value)
  {
    match action
    case None => state.GetOr(DefaultState)
    case Some(a) => Reduce(state.GetOr(DefaultState), a)
  }

  /** The state reached by dispatching `actions` in order, starting from `s`. */
  function ReduceAll(s: State, actions: seq<Action>): (r: State)
    ensures Extends(s, r)
    ensures PristineLatched(s, r)
  {
    if |actions| == 0 then s
    else Reduce(ReduceAll(s, actions[..|actions| - 1]), actions[|actions| - 1])
  }
}
