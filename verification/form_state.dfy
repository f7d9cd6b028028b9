/**
  The read model the `html5form` reducer maintains: forms, each holding input
  groups, each holding inputs, all keyed by their identifiers.
 */
module FormState {
  import opened Wrappers

  /** The HTML5 `ValidityState` an input reports. The reducer never looks
      inside it; it is stored exactly as the action carried it. */
  datatype Validity = Validity(flags: map<string, bool>)

  /** One input of a group. `validity` is `None` when the action carried no
      validity object at all. */
  datatype Input = Input(name: string, validity: Option<Validity>, validationMessage: string)

  /** A named group of inputs with its own aggregate validity and error list. */
  datatype Group = Group(id: string, valid: bool, errors: seq<string>, inputs: map<string, Input>)

  /** A form with its aggregate validity and its lifecycle flags. */
  datatype Form = Form(
    id: string,
    valid: bool,
    error: string,
    pristine: bool,
    submitting: bool,
    submitted: bool,
    inputGroups: map<string, Group>)

  /** The root value threaded through every reducer call. */
  datatype State = State(forms: map<string, Form>)

  /** The state the reducer starts from: no forms at all. */
  const DefaultState: State := State(map[])

  /** A form as it is first recorded: pristine, neither submitting nor
      submitted, without groups. Its validity is set by the event creating it. */
  function NewForm(id: string): (f: Form)
    ensures f.id == id && f.pristine && !f.submitting && !f.submitted
    ensures f.inputGroups == map[]
  {
    Form(id, false, "", true, false, false, map[])
  }

  /** A group as it is first recorded: without inputs. */
  function NewGroup(id: string): (g: Group)
    ensures g.id == id && g.inputs == map[]
  {
    Group(id, false, [], map[])
  }

  predicate HasForm(s: State, formId: string) {
    formId in s.forms
  }

  predicate HasGroup(s: State, formId: string, groupId: string) {
    formId in s.forms && groupId in s.forms[formId].inputGroups
  }

  predicate HasInput(s: State, formId: string, groupId: string, name: string) {
    HasGroup(s, formId, groupId) && name in s.forms[formId].inputGroups[groupId].inputs
  }

  /** Every entry is stored under its own identifier. */
  predicate GroupWellKeyed(g: Group) {
    forall n :: n in g.inputs ==> g.inputs[n].name == n
  }

  predicate FormWellKeyed(f: Form) {
    forall gid :: gid in f.inputGroups ==>
      f.inputGroups[gid].id == gid && GroupWellKeyed(f.inputGroups[gid])
  }

  predicate WellKeyed(s: State) {
    forall fid :: fid in s.forms ==> s.forms[fid].id == fid && FormWellKeyed(s.forms[fid])
  }

  /** `g'` keeps every input `g` has. */
  predicate GroupExtends(g: Group, g': Group) {
    g.inputs.Keys <= g'.inputs.Keys
  }

  /** `f'` keeps every group `f` has, and every input of those groups. */
  predicate FormExtends(f: Form, f': Form) {
    forall gid :: gid in f.inputGroups ==>
      gid in f'.inputGroups && GroupExtends(f.inputGroups[gid], f'.inputGroups[gid])
  }

  /** `r` keeps every form, group and input `s` has: nothing is ever deleted. */
  predicate Extends(s: State, r: State) {
    forall fid :: fid in s.forms ==> fid in r.forms && FormExtends(s.forms[fid], r.forms[fid])
  }

  /** A form that is no longer pristine in `s` is not pristine in `r` either. */
  predicate PristineLatched(s: State, r: State) {
    forall fid :: fid in s.forms && !s.forms[fid].pristine ==>
      fid in r.forms && !r.forms[fid].pristine
  }

  /** Every form other than `formId` is the same in `s` and `r`, and `r` has
      no form that is neither in `s` nor `formId`. */
  predicate OtherFormsUnchanged(s: State, r: State, formId: string) {
    && (forall fid :: fid in s.forms && fid != formId ==> fid in r.forms && r.forms[fid] == s.forms[fid])
    && r.forms.Keys <= s.forms.Keys + {formId}
  }

  /** The same for the groups of one form. */
  predicate OtherGroupsUnchanged(f: Form, f': Form, groupId: string) {
    && (forall gid :: gid in f.inputGroups && gid != groupId ==>
          gid in f'.inputGroups && f'.inputGroups[gid] == f.inputGroups[gid])
    && f'.inputGroups.Keys <= f.inputGroups.Keys + {groupId}
  }

  /** The same for the inputs of one group. */
  predicate OtherInputsUnchanged(g: Group, g': Group, name: string) {
    && (forall n :: n in g.inputs && n != name ==> n in g'.inputs && g'.inputs[n] == g.inputs[n])
    && g'.inputs.Keys <= g.inputs.Keys + {name}
  }
}
