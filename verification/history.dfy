/**
  Properties of a whole run of the reducer: the state after dispatching a
  sequence of events in order. Entries come into existence only through the
  events that name them, and the pristine flag is cleared only by the events
  that touch the form.
 */
module History {
  import opened Wrappers
  import opened FormState
  import opened Actions
  import opened Reducer
  import opened ReducerFacts

  lemma {:induction false} ReduceAllPreservesWellKeyed(s: State, actions: seq<Action>)
    requires WellKeyed(s)
    ensures WellKeyed(ReduceAll(s, actions))
  {
    if |actions| > 0 {
      ReduceAllPreservesWellKeyed(s, actions[..|actions| - 1]);
      ReducePreservesWellKeyed(ReduceAll(s, actions[..|actions| - 1]), actions[|actions| - 1]);
    }
  }

  /** A form exists after a run only if it existed before or some event of
      the run was a validity event for it. */
  lemma {:induction false} FormOnlyAfterEvent(s: State, actions: seq<Action>, formId: string)
    requires HasForm(ReduceAll(s, actions), formId)
    ensures HasForm(s, formId) || exists i :: 0 <= i < |actions| && RegistersForm(actions[i], formId)
  {
    if |actions| > 0 {
      var init, last := actions[..|actions| - 1], actions[|actions| - 1];
      ReduceCreatesFormOnlyByEvent(ReduceAll(s, init), last, formId);
      if !RegistersForm(last, formId) {
        FormOnlyAfterEvent(s, init, formId);
        if !HasForm(s, formId) {
          var i :| 0 <= i < |init| && RegistersForm(init[i], formId);
          assert actions[i] == init[i];
        }
      }
    }
  }

  /** A group exists after a run only if it existed before or some event of
      the run was a group event for it. */
  lemma {:induction false} GroupOnlyAfterEvent(s: State, actions: seq<Action>, formId: string, groupId: string)
    requires HasGroup(ReduceAll(s, actions), formId, groupId)
    ensures HasGroup(s, formId, groupId)
            || exists i :: 0 <= i < |actions| && RegistersGroup(actions[i], formId, groupId)
  {
    if |actions| > 0 {
      var init, last := actions[..|actions| - 1], actions[|actions| - 1];
      ReduceCreatesGroupOnlyByEvent(ReduceAll(s, init), last, formId, groupId);
      if !RegistersGroup(last, formId, groupId) {
        GroupOnlyAfterEvent(s, init, formId, groupId);
        if !HasGroup(s, formId, groupId) {
          var i :| 0 <= i < |init| && RegistersGroup(init[i], formId, groupId);
          assert actions[i] == init[i];
        }
      }
    }
  }

  /** An input exists after a run only if it existed before or some event of
      the run was an input event for it. */
  lemma {:induction false} InputOnlyAfterEvent(s: State, actions: seq<Action>,
                                               formId: string, groupId: string, name: string)
    requires HasInput(ReduceAll(s, actions), formId, groupId, name)
    ensures HasInput(s, formId, groupId, name)
            || exists i :: 0 <= i < |actions| && RegistersInput(actions[i], formId, groupId, name)
  {
    if |actions| > 0 {
      var init, last := actions[..|actions| - 1], actions[|actions| - 1];
      ReduceCreatesInputOnlyByEvent(ReduceAll(s, init), last, formId, groupId, name);
      if !RegistersInput(last, formId, groupId, name) {
        InputOnlyAfterEvent(s, init, formId, groupId, name);
        if !HasInput(s, formId, groupId, name) {
          var i :| 0 <= i < |init| && RegistersInput(init[i], formId, groupId, name);
          assert actions[i] == init[i];
        }
      }
    }
  }

  /** A form is no longer pristine after a run only if it was not pristine
      before, or some event of the run was a pristine or input event for it. */
  lemma {:induction false} PristineClearedOnlyByEvent(s: State, actions: seq<Action>, formId: string)
    requires HasForm(ReduceAll(s, actions), formId) && !ReduceAll(s, actions).forms[formId].pristine
    ensures (HasForm(s, formId) && !s.forms[formId].pristine)
            || exists i :: 0 <= i < |actions| && TouchesForm(actions[i], formId)
  {
    if |actions| > 0 {
      var init, last := actions[..|actions| - 1], actions[|actions| - 1];
      ReduceClearsPristineOnlyByEvent(ReduceAll(s, init), last, formId);
      if !TouchesForm(last, formId) {
        PristineClearedOnlyByEvent(s, init, formId);
        if !(HasForm(s, formId) && !s.forms[formId].pristine) {
          var i :| 0 <= i < |init| && TouchesForm(init[i], formId);
          assert actions[i] == init[i];
        }
      }
    }
  }

  /** A validity event anywhere in a run leaves its form present at the end:
      forms are created by their first validity event and never deleted. */
  lemma {:induction false} FormPresentAfterEvent(s: State, actions: seq<Action>, formId: string, i: nat)
    requires i < |actions| && RegistersForm(actions[i], formId)
    ensures HasForm(ReduceAll(s, actions), formId)
  {
    var init := actions[..|actions| - 1];
    if i < |actions| - 1 {
      assert init[i] == actions[i];
      FormPresentAfterEvent(s, init, formId, i);
    }
  }

  /** A group event in a run, dispatched while its form exists, leaves the
      group present at the end. */
  lemma {:induction false} GroupPresentAfterEvent(s: State, actions: seq<Action>,
                                                  formId: string, groupId: string, i: nat)
    requires i < |actions| && RegistersGroup(actions[i], formId, groupId)
    requires HasForm(ReduceAll(s, actions[..i]), formId)
    ensures HasGroup(ReduceAll(s, actions), formId, groupId)
  {
    var init := actions[..|actions| - 1];
    if i < |actions| - 1 {
      assert init[i] == actions[i];
      assert init[..i] == actions[..i];
      GroupPresentAfterEvent(s, init, formId, groupId, i);
    } else {
      assert init == actions[..i];
    }
  }

  /** An input event in a run, dispatched while its group exists, leaves the
      input present at the end. */
  lemma {:induction false} InputPresentAfterEvent(s: State, actions: seq<Action>,
                                                  formId: string, groupId: string, name: string, i: nat)
    requires i < |actions| && RegistersInput(actions[i], formId, groupId, name)
    requires HasGroup(ReduceAll(s, actions[..i]), formId, groupId)
    ensures HasInput(ReduceAll(s, actions), formId, groupId, name)
  {
    var init := actions[..|actions| - 1];
    if i < |actions| - 1 {
      assert init[i] == actions[i];
      assert init[..i] == actions[..i];
      InputPresentAfterEvent(s, init, formId, groupId, name, i);
    } else {
      assert init == actions[..i];
    }
  }

  /** Dispatching a run in two parts, one after the other, is the same as
      dispatching it whole. */
  lemma {:induction false} ReduceAllAppend(s: State, a: seq<Action>, b: seq<Action>)
    ensures ReduceAll(s, a + b) == ReduceAll(ReduceAll(s, a), b)
  {
    if |b| == 0 {
      assert a + b == a;
    } else {
      var ab := a + b;
      assert ab[..|ab| - 1] == a + b[..|b| - 1];
      assert ab[|ab| - 1] == b[|b| - 1];
      ReduceAllAppend(s, a, b[..|b| - 1]);
    }
  }

  /** A pristine event on an existing form, or an input event in an existing
      group, leaves the form not pristine at the end of the run: the flag is
      a one-way latch. */
  lemma {:induction false} PristineClearedAfterEvent(s: State, actions: seq<Action>, formId: string, i: nat)
    requires i < |actions| && TouchesForm(actions[i], formId)
    requires actions[i].Pristine? ==> HasForm(ReduceAll(s, actions[..i]), formId)
    requires actions[i].InputValidity? ==> HasGroup(ReduceAll(s, actions[..i]), formId, actions[i].groupId)
    ensures HasForm(ReduceAll(s, actions), formId) && !ReduceAll(s, actions).forms[formId].pristine
  {
    var before, rest := actions[..i], actions[i + 1..];
    var upTo := before + [actions[i]];
    assert actions == upTo + rest;
    assert upTo[..|upTo| - 1] == before;
    ReduceAllAppend(s, upTo, rest);
  }

  /** Starting from the default state: every entry is stored under its own
      identifier, a form is present exactly when some validity event of the
      run named it, and groups and inputs exist only because an event created
      them. */
  lemma FromDefaultState(actions: seq<Action>, formId: string, groupId: string, name: string)
    ensures WellKeyed(ReduceAll(DefaultState, actions))
    ensures HasForm(ReduceAll(DefaultState, actions), formId) <==>
      exists i :: 0 <= i < |actions| && RegistersForm(actions[i], formId)
    ensures HasGroup(ReduceAll(DefaultState, actions), formId, groupId) ==>
      exists i :: 0 <= i < |actions| && RegistersGroup(actions[i], formId, groupId)
    ensures HasInput(ReduceAll(DefaultState, actions), formId, groupId, name) ==>
      exists i :: 0 <= i < |actions| && RegistersInput(actions[i], formId, groupId, name)
    ensures HasForm(ReduceAll(DefaultState, actions), formId)
            && !ReduceAll(DefaultState, actions).forms[formId].pristine ==>
      exists i :: 0 <= i < |actions| && TouchesForm(actions[i], formId)
  {
    var r := ReduceAll(DefaultState, actions);
    ReduceAllPreservesWellKeyed(DefaultState, actions);
    if HasForm(r, formId) {
      FormOnlyAfterEvent(DefaultState, actions, formId);
      if !r.forms[formId].pristine {
        PristineClearedOnlyByEvent(DefaultState, actions, formId);
      }
    }
    if i :| 0 <= i < |actions| && RegistersForm(actions[i], formId) {
      FormPresentAfterEvent(DefaultState, actions, formId, i);
    }
    if HasGroup(r, formId, groupId) {
      GroupOnlyAfterEvent(DefaultState, actions, formId, groupId);
    }
    if HasInput(r, formId, groupId, name) {
      InputOnlyAfterEvent(DefaultState, actions, formId, groupId, name);
    }
  }
}
