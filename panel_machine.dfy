/** The settings panel's state machine as pure transitions on a snapshot of
    the component's state cells. Each transition is one handler of
    ArticleParamsForm together with the effect the change of `isOpen`
    triggers, taken as one atomic step. */
module PanelMachine {
  import opened ArticleProps
  import opened RootStyle

  /** The component's state: the open flag, the reset snapshot (a constant
      ref), the applied record, the draft record, the `wasOpened` ref, and
      the root element's inline style. */
  datatype PanelState = PanelState(
    isOpen: bool,
    snapshot: ArticleState,
    applied: ArticleState,
    form: ArticleState,
    wasOpened: bool,
    rootVars: map<string, string>)

  /** The invariant every reachable state keeps: `wasOpened` mirrors the
      open flag once the open/close effect has run. */
  predicate Valid(s: PanelState)
  {
    s.wasOpened == s.isOpen
  }

  /** The state on mount: closed, applied and draft both the default record,
      and the root's style untouched (nothing is written on mount). */
  function Init(defaultState: ArticleState, root: map<string, string>): (s: PanelState)
    ensures Valid(s) && !s.isOpen
    ensures s.applied == defaultState && s.form == defaultState && s.snapshot == defaultState
    ensures s.rootVars == root
  {
    PanelState(false, defaultState, defaultState, defaultState, false, root)
  }

  /** The effect keyed on `isOpen`: on opening (not yet seeded) the draft is
      seeded from the applied record; on closing `wasOpened` is cleared. */
  function OpenCloseEffect(s: PanelState): (r: PanelState)
    ensures Valid(r)
    ensures r.isOpen == s.isOpen && r.applied == s.applied && r.snapshot == s.snapshot
    ensures r.rootVars == s.rootVars
    ensures r.form == if s.isOpen && !s.wasOpened then s.applied else s.form
  {
    var seeded := if s.isOpen && !s.wasOpened then s.(form := s.applied, wasOpened := true) else s;
    if !seeded.isOpen then seeded.(wasOpened := false) else seeded
  }

  /** A click on the arrow button flips the open flag; the effect then runs. */
  function Toggle(s: PanelState): (r: PanelState)
    ensures Valid(r)
    ensures r.isOpen == !s.isOpen
    ensures r.applied == s.applied && r.snapshot == s.snapshot && r.rootVars == s.rootVars
    ensures Valid(s) && !s.isOpen ==> r.form == s.applied
    ensures s.isOpen ==> r.form == s.form
  {
    OpenCloseEffect(s.(isOpen := !s.isOpen))
  }

  /** A mousedown anywhere in the document. The listener is registered only
      while the panel is open; a target outside the panel closes it. */
  function MouseDown(s: PanelState, targetInsidePanel: bool): (r: PanelState)
    ensures Valid(s) ==> Valid(r)
    ensures s.isOpen && !targetInsidePanel ==> !r.isOpen
    ensures !s.isOpen || targetInsidePanel ==> r == s
    ensures r.applied == s.applied && r.form == s.form && r.snapshot == s.snapshot
    ensures r.rootVars == s.rootVars
  {
    if s.isOpen && !targetInsidePanel then OpenCloseEffect(s.(isOpen := false)) else s
  }

  /** handleChange(field, value): only the draft's field changes. */
  function Change(s: PanelState, field: Field, value: StyleOption): (r: PanelState)
    ensures Get(r.form, field) == value
    ensures forall g :: g != field ==> Get(r.form, g) == Get(s.form, g)
    ensures r.isOpen == s.isOpen && r.wasOpened == s.wasOpened && r.snapshot == s.snapshot
    ensures r.applied == s.applied && r.rootVars == s.rootVars
  {
    s.(form := With(s.form, field, value))
  }

  /** handleSubmit: the draft becomes the applied record and is written to
      the root; the draft and the open flag stay. */
  function Submit(s: PanelState): (r: PanelState)
    ensures r.applied == s.form && r.form == s.form
    ensures r.isOpen == s.isOpen && r.wasOpened == s.wasOpened && r.snapshot == s.snapshot
    ensures Reflects(r.rootVars, r.applied)
    ensures r.rootVars.Keys == s.rootVars.Keys + StyleVarNames
    ensures forall k :: k in s.rootVars && k !in StyleVarNames ==> k in r.rootVars && r.rootVars[k] == s.rootVars[k]
  {
    s.(applied := s.form, rootVars := AppliedTo(s.rootVars, s.form))
  }

  /** handleReset: draft and applied record both become the snapshot, which
      is written to the root; the open flag stays. */
  function Reset(s: PanelState): (r: PanelState)
    ensures r.applied == s.snapshot && r.form == s.snapshot && r.snapshot == s.snapshot
    ensures r.isOpen == s.isOpen && r.wasOpened == s.wasOpened
    ensures Reflects(r.rootVars, s.snapshot)
    ensures r.rootVars.Keys == s.rootVars.Keys + StyleVarNames
    ensures forall k :: k in s.rootVars && k !in StyleVarNames ==> k in r.rootVars && r.rootVars[k] == s.rootVars[k]
  {
    s.(form := s.snapshot, applied := s.snapshot, rootVars := AppliedTo(s.rootVars, s.snapshot))
  }

  /** Resetting twice is the same as resetting once. */
  lemma ResetIdempotent(s: PanelState)
    ensures Reset(Reset(s)) == Reset(s)
  {
  }

  /** Submitting twice is the same as submitting once. */
  lemma SubmitIdempotent(s: PanelState)
    ensures Submit(Submit(s)) == Submit(s)
  {
  }

  // ---------------------------------------------------------------------
  // Sequences of draft edits

  /** One call of handleChange. */
  datatype Edit = Edit(field: Field, value: StyleOption)

  /** The state after the edits, in order. */
  function ChangeAll(s: PanelState, edits: seq<Edit>): PanelState
    decreases |edits|
  {
    if edits == [] then s
    else ChangeAll(Change(s, edits[0].field, edits[0].value), edits[1..])
  }

  /** The value the last edit of `field` in `edits` writes, or `current`
      when no edit touches that field. */
  function LastValue(edits: seq<Edit>, field: Field, current: StyleOption): StyleOption
    decreases |edits|
  {
    if edits == [] then current
    else if edits[|edits| - 1].field == field then edits[|edits| - 1].value
    else LastValue(edits[..|edits| - 1], field, current)
  }

  /** Draft isolation: no sequence of edits touches the applied record, the
      root's style, the open flag or the snapshot. */
  lemma {:induction false} DraftIsolation(s: PanelState, edits: seq<Edit>)
    ensures ChangeAll(s, edits).applied == s.applied
    ensures ChangeAll(s, edits).rootVars == s.rootVars
    ensures ChangeAll(s, edits).isOpen == s.isOpen && ChangeAll(s, edits).wasOpened == s.wasOpened
    ensures ChangeAll(s, edits).snapshot == s.snapshot
    decreases |edits|
  {
    if edits != [] {
      DraftIsolation(Change(s, edits[0].field, edits[0].value), edits[1..]);
    }
  }

  /** Seed on open: whatever edits the draft received while closed, opening
      the panel makes the draft the applied record of that instant. */
  lemma SeedOnOpen(s: PanelState, edits: seq<Edit>)
    requires Valid(s) && !s.isOpen
    ensures Toggle(ChangeAll(s, edits)).form == s.applied
    ensures Toggle(ChangeAll(s, edits)).applied == s.applied
  {
    DraftIsolation(s, edits);
  }

  /** ChangeAll on a sequence extended by one edit is that edit after the rest. */
  lemma {:induction false} ChangeAllSnoc(s: PanelState, edits: seq<Edit>, e: Edit)
    ensures ChangeAll(s, edits + [e]) == Change(ChangeAll(s, edits), e.field, e.value)
    decreases |edits|
  {
    if edits == [] {
      assert edits + [e] == [e];
    } else {
      assert (edits + [e])[1..] == edits[1..] + [e];
      ChangeAllSnoc(Change(s, edits[0].field, edits[0].value), edits[1..], e);
    }
  }

  /** After a sequence of edits, each draft field holds the value of the last
      edit of that field, or its earlier value if no edit touched it. */
  lemma {:induction false} LastEditWins(s: PanelState, edits: seq<Edit>, field: Field)
    ensures Get(ChangeAll(s, edits).form, field) == LastValue(edits, field, Get(s.form, field))
    decreases |edits|
  {
    if edits != [] {
      var init := edits[..|edits| - 1];
      var last := edits[|edits| - 1];
      assert edits == init + [last];
      ChangeAllSnoc(s, init, last);
      LastEditWins(s, init, field);
    }
  }

  /** Discard on dismiss: edits in an open panel, a mousedown outside it and
      a click that reopens it leave the draft equal to the applied record as
      it was before the edits. */
  lemma {:induction false} DiscardOnDismiss(s: PanelState, edits: seq<Edit>)
    requires Valid(s) && s.isOpen
    ensures Toggle(MouseDown(ChangeAll(s, edits), false)).form == s.applied
    ensures Toggle(MouseDown(ChangeAll(s, edits), false)).applied == s.applied
  {
    DraftIsolation(s, edits);
  }

  /** The arrow button lies outside the panel's element, so pressing it on
      an open panel first closes the panel (mousedown) and then the click
      reopens it: the panel stays open and the draft is reseeded from the
      applied record. */
  lemma ArrowButtonOnOpenPanel(s: PanelState)
    requires Valid(s) && s.isOpen
    ensures Toggle(MouseDown(s, false)).isOpen
    ensures Toggle(MouseDown(s, false)).form == s.applied
    ensures Toggle(MouseDown(s, false)).applied == s.applied
  {
  }

  // ---------------------------------------------------------------------
  // Arbitrary runs of user events

  /** Everything the user can do to the panel. */
  datatype Event =
    | ArrowClick
    | DocumentMouseDown(targetInsidePanel: bool)
    | FieldChange(field: Field, value: StyleOption)
    | SubmitForm
    | ResetForm

  function Step(s: PanelState, e: Event): PanelState
  {
    match e
    case ArrowClick => Toggle(s)
    case DocumentMouseDown(inside) => MouseDown(s, inside)
    case FieldChange(f, v) => Change(s, f, v)
    case SubmitForm => Submit(s)
    case ResetForm => Reset(s)
  }

  function Run(s: PanelState, events: seq<Event>): PanelState
    decreases |events|
  {
    if events == [] then s else Run(Step(s, events[0]), events[1..])
  }

  /** Every field edit offers a member of that field's catalog. */
  predicate EditsInCatalogs(events: seq<Event>, c: Catalogs)
  {
    forall i :: 0 <= i < |events| && events[i].FieldChange? ==>
      events[i].value in CatalogOf(c, events[i].field)
  }

  /** The state invariant of the panel: `wasOpened` mirrors the open flag,
      the snapshot is never replaced, and every record holds catalog
      options as long as the controls offer only catalog options. */
  lemma {:induction false} RunPreservesInvariants(s: PanelState, events: seq<Event>, c: Catalogs)
    requires Valid(s)
    requires InCatalogs(s.snapshot, c) && InCatalogs(s.applied, c) && InCatalogs(s.form, c)
    requires EditsInCatalogs(events, c)
    ensures Valid(Run(s, events))
    ensures Run(s, events).snapshot == s.snapshot
    ensures InCatalogs(Run(s, events).applied, c) && InCatalogs(Run(s, events).form, c)
    decreases |events|
  {
    if events != [] {
      var e := events[0];
      if e.FieldChange? {
        assert events[0].FieldChange?;
        WithKeepsCatalogs(s.form, c, e.field, e.value);
      }
      assert EditsInCatalogs(events[1..], c) by {
        forall i | 0 <= i < |events[1..]| && events[1..][i].FieldChange?
          ensures events[1..][i].value in CatalogOf(c, events[1..][i].field)
        {
          assert events[1..][i] == events[i + 1];
        }
      }
      RunPreservesInvariants(Step(s, e), events[1..], c);
    }
  }

  /** Neither a submit nor a reset among the events. */
  predicate NoCommit(events: seq<Event>)
  {
    forall i :: 0 <= i < |events| ==> !events[i].SubmitForm? && !events[i].ResetForm?
  }

  /** Only submit and reset change what is applied: a run without either
      leaves the applied record and the root's style as they were. */
  lemma {:induction false} AppliedChangesOnlyOnCommit(s: PanelState, events: seq<Event>)
    requires NoCommit(events)
    ensures Run(s, events).applied == s.applied
    ensures Run(s, events).rootVars == s.rootVars
    decreases |events|
  {
    if events != [] {
      assert !events[0].SubmitForm? && !events[0].ResetForm?;
      assert NoCommit(events[1..]) by {
        forall i | 0 <= i < |events[1..]| ensures !events[1..][i].SubmitForm? && !events[1..][i].ResetForm? {
          assert events[1..][i] == events[i + 1];
        }
      }
      AppliedChangesOnlyOnCommit(Step(s, events[0]), events[1..]);
    }
  }

  /** Once the root reflects the applied record, every later state keeps it
      so: the root's five properties always carry the applied values. */
  lemma {:induction false} RootTracksApplied(s: PanelState, events: seq<Event>)
    requires Reflects(s.rootVars, s.applied)
    ensures Reflects(Run(s, events).rootVars, Run(s, events).applied)
    decreases |events|
  {
    if events != [] {
      RootTracksApplied(Step(s, events[0]), events[1..]);
    }
  }

  /** The scenario: from the default state, open the panel, pick the
      `narrow` content width and submit; the applied width and the
      --container-width property both take narrow's value. Then reset: the
      applied record is the default again and the property carries the
      default width's value. */
  lemma NarrowWidthScenario(defaultState: ArticleState, root: map<string, string>, narrow: StyleOption)
    ensures Submit(Change(Toggle(Init(defaultState, root)), ContentWidth, narrow)).applied.contentWidth == narrow
    ensures Submit(Change(Toggle(Init(defaultState, root)), ContentWidth, narrow)).rootVars[ContainerWidthVar] == narrow.value
    ensures Reset(Submit(Change(Toggle(Init(defaultState, root)), ContentWidth, narrow))).applied == defaultState
    ensures Reset(Submit(Change(Toggle(Init(defaultState, root)), ContentWidth, narrow))).rootVars[ContainerWidthVar] == defaultState.contentWidth.value
  {
  }
}
