# html5form reducer — a Dafny model

This project models the state container of `react-html5-form`: the
`html5form` reducer and the six action builders that feed it. The reducer
is a pure transition `(state, action) -> state` over a three-level keyed
structure. Forms hold input groups, and input groups hold inputs. Its
policy is asymmetric:

- a form-validity event creates its form on first use;
- pristine, submitting and submitted events on an unknown form change nothing;
- a group event on a missing form changes nothing;
- an input event on a missing form or a missing group changes nothing, and
  otherwise it also clears the form's `pristine` flag;
- an event of an unknown kind returns the state unchanged.

Rows cite the lines of the Jest suite `src/__tests__/redux.jsx` that each
member is about. The suite does not assert that an input event clears
`pristine`, that a new form starts not submitted, or that a submitted event
keeps `submitting`; the model fixes these. Idempotence, commutation of
events on different forms, and the properties of whole runs are properties
of the model.

Files:

- `wrappers.dfy` — `Option`, for the arguments a builder may be called without.
- `form_state.dfy` — `State`, `Form`, `Group`, `Input`, the default state, and
  the framing predicates (`OtherFormsUnchanged`, `Extends`, `PristineLatched`,
  `WellKeyed`).
- `actions.dfy` — the `Action` datatype (six kinds plus `Unrecognized`) and
  the builders.
- `reducer.dfy` — one function per event kind, `Reduce`, `Html5Form` (the
  entry point with its defaults) and `ReduceAll` (dispatching a sequence of
  events in order).
- `reducer_facts.dfy` — properties of one step.
- `history.dfy` — properties of whole runs, by induction on the events.
- `scenarios.dfy` — one lemma per test scenario, for arbitrary identifiers.

## Model

| member | source | states |
|---|---|---|
| Actions.UpdateInputValidity | src/__tests__/redux.jsx:293-302 | the event carries the form, group and input name given, and `""` for each one left out |
| Actions.UpdateInputGroupValidity | src/__tests__/redux.jsx:304-313 | the event carries the form and group given, `""` when left out, `false` validity and no errors by default |
| Actions.UpdateFormValidity | src/__tests__/redux.jsx:315-324 | the event carries the form given, `""` when left out |
| Actions.UpdatePristine | src/__tests__/redux.jsx:326-335 | the event carries the form given, `""` when left out |
| Actions.UpdateSubmitting | src/__tests__/redux.jsx:337-346 | the event carries the form given and the submitting flag, `""` and `false` when left out |
| Actions.UpdateSubmitted | src/__tests__/redux.jsx:348-357 | the event carries the form given, `""` when left out |
| Actions.BuildersReachEveryAction | src/__tests__/redux.jsx:291-358 | every recognised event is what its builder returns when given the event's own fields |
| Actions.BuildersCarryFormId | src/__tests__/redux.jsx:295-351 | each of the six builders puts its first argument into the event's form identifier, whatever its other arguments are |
| Actions.BuildersWithoutArguments | src/__tests__/redux.jsx:298-356 | each of the six builders called with no arguments yields the form identifier `""` |
| Reducer.SetFormValidity | src/__tests__/redux.jsx:57-82 | the form exists afterwards with the given validity and error; a new form has its key as id, is pristine, not submitting, not submitted, without groups; an existing form keeps every other field; no other form changes |
| Reducer.ClearPristine | src/__tests__/redux.jsx:84-114 | on an existing form only `pristine` changes, to false; on a missing form the state is unchanged and no form is created |
| Reducer.SetSubmitting | src/__tests__/redux.jsx:116-148 | on an existing form only `submitting` changes, to the payload's value; on a missing form the state is unchanged |
| Reducer.MarkSubmitted | src/__tests__/redux.jsx:151-180 | on an existing form only `submitted` changes, to true, and `submitting` is kept; on a missing form the state is unchanged |
| Reducer.SetGroupValidity | src/__tests__/redux.jsx:185-203 | on an existing form the group exists afterwards with the given validity and errors; a new group has its key as id and no inputs; no other group or form changes; on a missing form the state is unchanged |
| Reducer.SetInputValidity | src/__tests__/redux.jsx:207-271 | in an existing group the input is stored under its name with the given validity and message, and the form is no longer pristine; nothing else changes; with the form or group missing the state is unchanged |
| Reducer.Reduce | src/__tests__/redux.jsx:40-289 | unknown kinds and events on missing parents leave the state unchanged; only form-validity events add forms; other forms never change; nothing is deleted; pristine never returns to true |
| Reducer.Html5Form | src/__tests__/redux.jsx:42-55 | called without state and event it returns the default state `{forms: {}}`; without an event it returns its state |
| Reducer.ReduceAll | src/__tests__/redux.jsx:207-236 | dispatching events one after another never deletes an entry and never makes a form pristine again |
| ReducerFacts.ReducePreservesWellKeyed | src/__tests__/redux.jsx:57-64 | every form, group and input stays stored under its own identifier after any event |
| ReducerFacts.ReduceIdempotent | src/__tests__/redux.jsx:66-82 | dispatching the same event twice gives the same state as dispatching it once |
| ReducerFacts.ReduceLeavesOtherForms | src/__tests__/redux.jsx:100-114 | an event leaves every form it does not name exactly as it was, present or absent |
| ReducerFacts.ReduceCommutesAcrossForms | src/__tests__/redux.jsx:100-180 | two events about different forms give the same state in either order |
| ReducerFacts.ReduceCreatesFormOnlyByEvent | src/__tests__/redux.jsx:57-114 | a step adds a form only through a validity event for that form |
| ReducerFacts.ReduceCreatesGroupOnlyByEvent | src/__tests__/redux.jsx:273-286 | a step adds a group only through a group event for it, on a form that already exists |
| ReducerFacts.ReduceCreatesInputOnlyByEvent | src/__tests__/redux.jsx:238-271 | a step adds an input only through an input event for it, in a group that already exists |
| ReducerFacts.ReduceClearsPristineOnlyByEvent | src/__tests__/redux.jsx:84-114 | a step clears a form's pristine flag only through a pristine or input event for that form |
| History.ReduceAllPreservesWellKeyed | src/__tests__/redux.jsx:199-234 | after any run, every entry is stored under its own identifier |
| History.FormOnlyAfterEvent | src/__tests__/redux.jsx:57-64 | a form present after a run was present before or was named by a validity event of the run |
| History.GroupOnlyAfterEvent | src/__tests__/redux.jsx:185-203 | a group present after a run was present before or was named by a group event of the run |
| History.InputOnlyAfterEvent | src/__tests__/redux.jsx:207-236 | an input present after a run was present before or was named by an input event of the run |
| History.PristineClearedOnlyByEvent | src/__tests__/redux.jsx:84-98 | a form not pristine after a run was not pristine before, or a pristine or input event of the run named it |
| History.FormPresentAfterEvent | src/__tests__/redux.jsx:57-82 | a validity event anywhere in a run leaves its form present at the end |
| History.GroupPresentAfterEvent | src/__tests__/redux.jsx:185-203 | a group event dispatched while its form exists leaves the group present at the end of the run |
| History.InputPresentAfterEvent | src/__tests__/redux.jsx:207-236 | an input event dispatched while its group exists leaves the input present at the end of the run |
| History.ReduceAllAppend | src/__tests__/redux.jsx:207-236 | dispatching a run in two parts, one after the other, gives the same state as dispatching it whole |
| History.PristineClearedAfterEvent | src/__tests__/redux.jsx:84-98 | a pristine event on an existing form, or an input event in an existing group, leaves the form not pristine at the end of the run |
| History.FromDefaultState | src/__tests__/redux.jsx:21-36 | from the default state every entry is well keyed; a form is present exactly when some validity event of the run named it; groups, inputs and a cleared pristine flag exist only because an event of the run caused them |
| Scenarios.DefaultStateWhenCalledWithoutArguments | src/__tests__/redux.jsx:42-45 | the reducer called with nothing returns `{forms: {}}` |
| Scenarios.UnrecognizedActionKeepsState | src/__tests__/redux.jsx:47-55 | an event of unknown kind returns its input state |
| Scenarios.RegisteringFormOnDefault | src/__tests__/redux.jsx:57-64 | registering on the default state gives exactly one form, keyed and identified by its id, pristine, not submitting |
| Scenarios.UpdatesForm | src/__tests__/redux.jsx:66-82 | a second validity event overwrites `valid` and keeps the number of forms |
| Scenarios.UpdatesPristine | src/__tests__/redux.jsx:84-98 | a pristine event on the registered form makes it not pristine |
| Scenarios.UpdatesPristineForMissingForm | src/__tests__/redux.jsx:100-114 | a pristine event for another form changes nothing and creates nothing |
| Scenarios.UpdatesSubmitting | src/__tests__/redux.jsx:116-131 | a submitting event sets `submitting` on the registered form |
| Scenarios.UpdatesSubmittingForMissingForm | src/__tests__/redux.jsx:133-148 | a submitting event for another form leaves the registered form not submitting |
| Scenarios.UpdatesSubmitted | src/__tests__/redux.jsx:151-164 | a submitted event sets `submitted` and leaves `submitting` false |
| Scenarios.UpdatesSubmittedForMissingForm | src/__tests__/redux.jsx:166-180 | a submitted event for another form leaves the registered form not submitting |
| Scenarios.RegistersInputGroup | src/__tests__/redux.jsx:185-203 | registering a group on a registered form gives exactly one group, identified by its id |
| Scenarios.RegisteringInputInGroup | src/__tests__/redux.jsx:207-236 | registering an input in a registered group gives exactly one input, named by its key |
| Scenarios.RegistersInputOutOfForm | src/__tests__/redux.jsx:238-252 | an input event on the default state returns the default state |
| Scenarios.RegistersInputOutOfGroup | src/__tests__/redux.jsx:254-271 | an input event for a group the form lacks returns the state unchanged |
| Scenarios.RegistersGroupOutOfForm | src/__tests__/redux.jsx:273-286 | a group event on the default state returns the default state |

## Left out

- Whether a no-op returns the very same object is not expressible: the model has value equality only, so it states "equal to the input state". The Jest suite compares with `toEqual` (lines 44, 53, 250, 269, 284), which is value equality too.
- The HTML5 `ValidityState` object is the opaque `Validity` datatype, stored exactly as the event carried it. It is a map of named flags that the reducer never reads; which flags an HTML5 engine reports is not modelled.
- The string values of the action-type constants in `src/Redux/Constants` are not part of this model. The closed `Action` datatype plays their role, and `Unrecognized` stands for every other type string.
- Payload fields that a kind does not read are not representable. One example is `submitting: true` on a submitted event (line 174). The reducer ignores such fields, so they are dropped.
- The JSON deep-clone of the default state (line 25) is test scaffolding. Immutability of the input is automatic for Dafny values.
- The model gives each builder one parameter per payload field, such as `(formId, valid, error)` for `updateFormValidity` and `(formId)` for `updatePristine`. The calls at line 317 (four arguments) and line 328 (two arguments) pass more than that and cannot be written; they pin down only the form id, which is the first argument either way.
- The builders default flags to `false`, lists to the empty list and the validity object to absent. The Jest suite pins down only the `""` form id.
- Forms, groups and inputs are plain JavaScript objects used as dictionaries. Keys that name `Object.prototype` members (`"constructor"`, `"toString"`, `"__proto__"`) can behave differently under a `forms[formId]` presence test. A Dafny `map` treats every string key alike, so that difference is not modelled.
- `Action` fixes which payload fields each kind has and their types. A raw action missing a field cannot be written, such as a submitting event without `submitting`, which the JavaScript would store as `undefined`. An action with no payload at all cannot be written either.
- React components, DOM event wiring and the Redux store are outside the reducer and have no stateable logic.
