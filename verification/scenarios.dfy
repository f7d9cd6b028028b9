/**
  The reducer's documented behaviour, scenario by scenario, stated for any
  identifiers rather than for one fixed form, group and input name.
 */
module Scenarios {
  import opened Wrappers
  import opened FormState
  import opened Actions
  import opened Reducer

  /** The state after registering one form on the default state. */
  function Registered(formId: string): State {
    Reduce(DefaultState, FormValidity(formId, true, ""))
  }

  /** The state after registering a form and then one of its groups. */
  function RegisteredGroup(formId: string, groupId: string): State {
    Reduce(Registered(formId), InputGroupValidity(formId, groupId, true, []))
  }

  lemma DefaultStateWhenCalledWithoutArguments()
    ensures Html5Form(None, None) == State(map[])
  {
  }

  /** An event of an unknown kind returns the state it was given. */
  lemma UnrecognizedActionKeepsState(s: State, kind: string)
    ensures Html5Form(Some(s), Some(Unrecognized(kind))) == s
  {
  }

  /** Registering a form on the default state records exactly that form,
      pristine and not submitting. */
  lemma RegisteringFormOnDefault(formId: string, valid: bool, error: string)
    ensures var r := Reduce(DefaultState, FormValidity(formId, valid, error));
      && |r.forms| == 1 && formId in r.forms
      && r.forms[formId].id == formId && r.forms[formId].valid == valid
      && r.forms[formId].pristine && !r.forms[formId].submitting && !r.forms[formId].submitted
  {
  }

  /** A second validity event for a registered form overwrites its validity
      and adds no form. */
  lemma UpdatesForm(s: State, formId: string, valid: bool, error: string)
    requires HasForm(s, formId)
    ensures var r := Reduce(s, FormValidity(formId, valid, error));
      |r.forms| == |s.forms| && r.forms[formId].valid == valid && r.forms[formId].error == error
  {
  }

  lemma UpdatesPristine(formId: string)
    ensures !Reduce(Registered(formId), Pristine(formId)).forms[formId].pristine
  {
  }

  /** A pristine event for another form neither touches the registered form
      nor creates the other one. */
  lemma UpdatesPristineForMissingForm(formId: string, other: string)
    requires other != formId
    ensures var r := Reduce(Registered(formId), Pristine(other));
      r == Registered(formId) && r.forms[formId].pristine && !HasForm(r, other)
  {
  }

  lemma UpdatesSubmitting(formId: string)
    ensures Reduce(Registered(formId), Submitting(formId, true)).forms[formId].submitting
  {
  }

  lemma UpdatesSubmittingForMissingForm(formId: string, other: string)
    requires other != formId
    ensures var r := Reduce(Registered(formId), Submitting(other, true));
      r == Registered(formId) && !r.forms[formId].submitting && !HasForm(r, other)
  {
  }

  /** A submitted event sets only the submitted flag. */
  lemma UpdatesSubmitted(formId: string)
    ensures var r := Reduce(Registered(formId), Submitted(formId));
      r.forms[formId].submitted && !r.forms[formId].submitting
  {
  }

  lemma UpdatesSubmittedForMissingForm(formId: string, other: string)
    requires other != formId
    ensures var r := Reduce(Registered(formId), Submitted(other));
      r == Registered(formId) && !r.forms[formId].submitting && !HasForm(r, other)
  {
  }

  /** Registering a group on a registered form records exactly that group. */
  lemma RegistersInputGroup(formId: string, groupId: string)
    ensures var groups := RegisteredGroup(formId, groupId).forms[formId].inputGroups;
      |groups| == 1 && groupId in groups && groups[groupId].id == groupId
  {
  }

  /** Registering an input in a registered group records exactly that input,
      and the form is no longer pristine. */
  lemma RegisteringInputInGroup(formId: string, groupId: string, name: string,
                       validity: Option<Validity>, message: string)
    ensures var r := Reduce(RegisteredGroup(formId, groupId),
                            InputValidity(formId, groupId, name, validity, message));
      && HasGroup(r, formId, groupId)
      && var inputs := r.forms[formId].inputGroups[groupId].inputs;
         |inputs| == 1 && name in inputs && inputs[name].name == name
         && inputs[name].validity == validity && !r.forms[formId].pristine
  {
  }

  lemma RegistersInputOutOfForm(formId: string, groupId: string, name: string,
                                validity: Option<Validity>, message: string)
    ensures Reduce(DefaultState, InputValidity(formId, groupId, name, validity, message)) == DefaultState
  {
  }

  /** An input event for a group the form does not have changes nothing,
      not even the form's pristine flag. */
  lemma RegistersInputOutOfGroup(formId: string, groupId: string, name: string,
                                 validity: Option<Validity>, message: string)
    ensures Reduce(Registered(formId), InputValidity(formId, groupId, name, validity, message))
            == Registered(formId)
  {
  }

  lemma RegistersGroupOutOfForm(formId: string, groupId: string, valid: bool, errors: seq<string>)
    ensures Reduce(DefaultState, InputGroupValidity(formId, groupId, valid, errors)) == DefaultState
  {
  }
}
