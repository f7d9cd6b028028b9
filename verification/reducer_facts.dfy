/** Properties of one reducer step. */
module ReducerFacts {
  import opened Wrappers
  import opened FormState
  import opened Actions
  import opened Reducer

  /** Every form, group and input stays stored under its own identifier. */
  lemma ReducePreservesWellKeyed(s: State, a: Action)
    requires WellKeyed(s)
    ensures WellKeyed(Reduce(s, a))
  {
    match a
    case InputValidity(formId, groupId, name, validity, message) =>
      SetInputValidityPreservesWellKeyed(s, formId, groupId, name, validity, message);
    case InputGroupValidity(formId, groupId, valid, errors) =>
      SetGroupValidityPreservesWellKeyed(s, formId, groupId, valid, errors);
    case FormValidity(formId, valid, error) =>
      FormLevelPreservesWellKeyed(s, Reduce(s, a), formId);
    case Pristine(formId) =>
      if formId in s.forms {
        FormLevelPreservesWellKeyed(s, Reduce(s, a), formId);
      }
    case Submitting(formId, _) =>
      if formId in s.forms {
        FormLevelPreservesWellKeyed(s, Reduce(s, a), formId);
      }
    case Submitted(formId) =>
      if formId in s.forms {
        FormLevelPreservesWellKeyed(s, Reduce(s, a), formId);
      }
    case Unrecognized(_) =>
  }

  /** A step that changes only the flags of one form keeps the state well
      keyed, provided a form it creates carries its key as id and no groups. */
  lemma FormLevelPreservesWellKeyed(s: State, r: State, formId: string)
    requires WellKeyed(s) && OtherFormsUnchanged(s, r, formId)
    requires formId in r.forms && r.forms[formId].id == formId
    requires formId in s.forms ==> r.forms[formId].inputGroups == s.forms[formId].inputGroups
    requires formId !in s.forms ==> r.forms[formId].inputGroups == map[]
    ensures WellKeyed(r)
  {
    if formId in s.forms {
      assert FormWellKeyed(s.forms[formId]);
    }
    assert FormWellKeyed(r.forms[formId]);
  }

  lemma SetGroupValidityPreservesWellKeyed(s: State, formId: string, groupId: string,
                                           valid: bool, errors: seq<string>)
    requires WellKeyed(s)
    ensures WellKeyed(SetGroupValidity(s, formId, groupId, valid, errors))
  {
    var r := SetGroupValidity(s, formId, groupId, valid, errors);
    if formId in s.forms {
      var f, f' := s.forms[formId], r.forms[formId];
      assert FormWellKeyed(f);
      forall gid | gid in f'.inputGroups
        ensures f'.inputGroups[gid].id == gid && GroupWellKeyed(f'.inputGroups[gid])
      {
        if gid == groupId && groupId in f.inputGroups {
          assert GroupWellKeyed(f.inputGroups[groupId]);
        }
      }
      assert FormWellKeyed(f');
    }
  }

  lemma SetInputValidityPreservesWellKeyed(s: State, formId: string, groupId: string, name: string,
                                           validity: Option<Validity>, message: string)
    requires WellKeyed(s)
    ensures WellKeyed(SetInputValidity(s, formId, groupId, name, validity, message))
  {
    var r := SetInputValidity(s, formId, groupId, name, validity, message);
    if HasGroup(s, formId, groupId) {
      var f, f' := s.forms[formId], r.forms[formId];
      assert FormWellKeyed(f);
      var g, g' := f.inputGroups[groupId], f'.inputGroups[groupId];
      assert GroupWellKeyed(g);
      assert GroupWellKeyed(g');
      assert FormWellKeyed(f');
    }
  }

  /** Dispatching the same event twice has the effect of dispatching it once:
      every update is an overwrite. */
  lemma ReduceIdempotent(s: State, a: Action)
    ensures Reduce(Reduce(s, a), a) == Reduce(s, a)
  {
    var r := Reduce(s, a);
    var r2 := Reduce(r, a);
    match a
    case InputValidity(formId, groupId, name, validity, message) =>
      SetInputValidityIdempotent(s, formId, groupId, name, validity, message);
    case InputGroupValidity(formId, groupId, valid, errors) =>
      SetGroupValidityIdempotent(s, formId, groupId, valid, errors);
    case FormValidity(formId, _, _) =>
      assert r2.forms[formId] == r.forms[formId];
      assert r2.forms == r.forms;
    case Pristine(formId) =>
      assert r2.forms == r.forms;
    case Submitting(formId, _) =>
      assert r2.forms == r.forms;
    case Submitted(formId) =>
      assert r2.forms == r.forms;
    case Unrecognized(_) =>
  }

  lemma SetGroupValidityIdempotent(s: State, formId: string, groupId: string,
                                   valid: bool, errors: seq<string>)
    ensures var r := SetGroupValidity(s, formId, groupId, valid, errors);
      SetGroupValidity(r, formId, groupId, valid, errors) == r
  {
    var r := SetGroupValidity(s, formId, groupId, valid, errors);
    var r2 := SetGroupValidity(r, formId, groupId, valid, errors);
    if formId in s.forms {
      assert r2.forms[formId].inputGroups[groupId] == r.forms[formId].inputGroups[groupId];
      assert r2.forms[formId].inputGroups == r.forms[formId].inputGroups;
      assert r2.forms[formId] == r.forms[formId];
      assert r2.forms == r.forms;
    }
  }

  lemma SetInputValidityIdempotent(s: State, formId: string, groupId: string, name: string,
                                   validity: Option<Validity>, message: string)
    ensures var r := SetInputValidity(s, formId, groupId, name, validity, message);
      SetInputValidity(r, formId, groupId, name, validity, message) == r
  {
    var r := SetInputValidity(s, formId, groupId, name, validity, message);
    var r2 := SetInputValidity(r, formId, groupId, name, validity, message);
    if HasGroup(s, formId, groupId) {
      assert r2.forms[formId].inputGroups[groupId].inputs == r.forms[formId].inputGroups[groupId].inputs;
      assert r2.forms[formId].inputGroups[groupId] == r.forms[formId].inputGroups[groupId];
      assert r2.forms[formId].inputGroups == r.forms[formId].inputGroups;
      assert r2.forms[formId] == r.forms[formId];
      assert r2.forms == r.forms;
    }
  }

  /** The form an event names, as it is in the state, if it is there. */
  function Lookup(s: State, formId: string): (r: Option<Form>)
    ensures r.Some? <==> formId in s.forms
    ensures r.Some? ==> r.value == s.forms[formId]
  {
    if formId in s.forms then Some(s.forms[formId]) else None
  }

  /** What a step makes of the form it names depends on that form alone. */
  lemma ReduceIsLocal(s: State, t: State, a: Action)
    requires !a.Unrecognized?
    requires Lookup(s, a.formId) == Lookup(t, a.formId)
    ensures Lookup(Reduce(s, a), a.formId) == Lookup(Reduce(t, a), a.formId)
  {
  }

  /** A step leaves every form it does not name as it was, present or not. */
  lemma ReduceLeavesOtherForms(s: State, a: Action, k: string)
    requires !a.Unrecognized? && k != a.formId
    ensures Lookup(Reduce(s, a), k) == Lookup(s, k)
  {
  }

  /** Events about different forms do not interfere: they can be dispatched
      in either order. */
  lemma ReduceCommutesAcrossForms(s: State, a: Action, b: Action)
    requires !a.Unrecognized? && !b.Unrecognized? && a.formId != b.formId
    ensures Reduce(Reduce(s, a), b) == Reduce(Reduce(s, b), a)
  {
    var sa, sb := Reduce(s, a), Reduce(s, b);
    var ab, ba := Reduce(sa, b), Reduce(sb, a);
    ReduceLeavesOtherForms(s, b, a.formId);
    ReduceLeavesOtherForms(s, a, b.formId);
    ReduceIsLocal(s, sb, a);
    ReduceIsLocal(s, sa, b);
    forall k
      ensures Lookup(ab, k) == Lookup(ba, k)
    {
      if k == a.formId {
        ReduceLeavesOtherForms(sa, b, k);
      } else if k == b.formId {
        ReduceLeavesOtherForms(sb, a, k);
      } else {
        ReduceLeavesOtherForms(s, a, k);
        ReduceLeavesOtherForms(s, b, k);
        ReduceLeavesOtherForms(sa, b, k);
        ReduceLeavesOtherForms(sb, a, k);
      }
    }
    LookupExtensional(ab, ba);
  }

  /** Two states that agree on every lookup are equal. */
  lemma LookupExtensional(s: State, t: State)
    requires forall k :: Lookup(s, k) == Lookup(t, k)
    ensures s == t
  {
    assert s.forms.Keys == t.forms.Keys by {
      forall k | k in s.forms ensures k in t.forms {
        assert Lookup(s, k).Some?;
      }
      forall k | k in t.forms ensures k in s.forms {
        assert Lookup(t, k).Some?;
      }
    }
    forall k | k in s.forms ensures s.forms[k] == t.forms[k] {
      assert Lookup(s, k) == Lookup(t, k);
    }
  }

  /** The event kinds that create a form, a group, an input, or clear the
      pristine flag of a form. */
  predicate RegistersForm(a: Action, formId: string) {
    a.FormValidity? && a.formId == formId
  }

  predicate RegistersGroup(a: Action, formId: string, groupId: string) {
    a.InputGroupValidity? && a.formId == formId && a.groupId == groupId
  }

  predicate RegistersInput(a: Action, formId: string, groupId: string, name: string) {
    a.InputValidity? && a.formId == formId && a.groupId == groupId && a.name == name
  }

  predicate TouchesForm(a: Action, formId: string) {
    (a.Pristine? || a.InputValidity?) && a.formId == formId
  }

  /** A step creates a form only by a validity event for that form. */
  lemma ReduceCreatesFormOnlyByEvent(s: State, a: Action, formId: string)
    requires HasForm(Reduce(s, a), formId)
    ensures HasForm(s, formId) || RegistersForm(a, formId)
  {
  }

  /** A step creates a group only by a group event naming it, and only on a
      form that already exists. */
  lemma ReduceCreatesGroupOnlyByEvent(s: State, a: Action, formId: string, groupId: string)
    requires HasGroup(Reduce(s, a), formId, groupId)
    ensures HasGroup(s, formId, groupId) || (HasForm(s, formId) && RegistersGroup(a, formId, groupId))
  {
  }

  /** A step creates an input only by an input event naming it, and only in a
      group that already exists. */
  lemma ReduceCreatesInputOnlyByEvent(s: State, a: Action, formId: string, groupId: string, name: string)
    requires HasInput(Reduce(s, a), formId, groupId, name)
    ensures HasInput(s, formId, groupId, name)
            || (HasGroup(s, formId, groupId) && RegistersInput(a, formId, groupId, name))
  {
  }

  /** A step clears a form's pristine flag only by a pristine event or an
      input event for that form, and never sets it again. */
  lemma ReduceClearsPristineOnlyByEvent(s: State, a: Action, formId: string)
    requires HasForm(Reduce(s, a), formId) && !Reduce(s, a).forms[formId].pristine
    ensures (HasForm(s, formId) && !s.forms[formId].pristine) || TouchesForm(a, formId)
  {
  }
}
