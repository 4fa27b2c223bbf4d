# Article settings panel — a Dafny model

This project models the state machine of the blog customizer's settings
panel, the `ArticleParamsForm` component. The panel holds an open flag, an
*applied* style record (the five options in effect: font family, font size,
font colour, background colour, content width), a *draft* record that the
form's controls edit, a constant reset snapshot (the default record) and a
`wasOpened` bookkeeping ref. Its handlers move between these states:

- the arrow button toggles the panel; on opening, the draft is seeded from
  the applied record;
- a mousedown outside the panel closes it; the draft is kept until the
  next opening replaces it with the applied record (a submit after
  dismissal still commits it, since submit is not guarded by the flag);
- a control edits one field of the draft;
- submit makes the draft the applied record;
- reset makes the default record both draft and applied.

Submit and reset also write the applied record onto five CSS custom
properties of the document root: `--font-family`, `--font-size`,
`--font-color`, `--container-width` and `--bg-color`.

Layout:

- `article_props.dfy`, module `ArticleProps`: the option, the style record,
  its field names, the single-field update used by `handleChange`, and the
  option catalogs.
- `root_style.dfy`, module `RootStyle`: the projection of a record onto
  the root's CSS properties.
- `panel_machine.dfy`, module `PanelMachine`: the reference model. Each
  handler, together with the effect that a change of the open flag
  triggers, is one pure transition on a `PanelState` value. The lemmas
  about single steps, edit sequences and arbitrary event runs live here.
- `article_params_form.dfy`, module `ParamsForm`: the component as a class.
  Its fields are the state cells and refs. Its methods are the handlers,
  each proved to perform the matching `PanelMachine` transition.

Three points of the component's behaviour are easy to misread:

- The component is self-contained. It owns the applied record and the open
  flag itself and declares no props, although `src/index.tsx` passes it
  five.
- The arrow button is not exempt from outside-click dismissal. It is
  rendered outside the `aside` whose containment decides dismissal.
  `PanelMachine.ArrowButtonOnOpenPanel` states the consequence: pressing
  the arrow on an open panel closes it on mousedown and reopens it on
  click, with the draft reseeded from the applied record.
- The root's CSS properties are written only by submit and reset, never on
  mount. The model takes the root's inline style at mount as a constructor
  parameter. `PanelMachine.RootTracksApplied` shows that once the root
  reflects the applied record, it keeps doing so.

## Model

| member | source | states |
|---|---|---|
| `ArticleProps.With` | src/components/article-params-form/ArticleParamsForm.tsx:73 | the spread update sets the named field to the new option and leaves the other four fields as they were |
| `ArticleProps.Extensionality` | src/components/article-params-form/ArticleParamsForm.tsx:73 | two style records are equal exactly when they agree on all five fields |
| `ArticleProps.WithLaws` | src/components/article-params-form/ArticleParamsForm.tsx:73 | writing back a field's own option changes nothing; a second write to a field overrides the first |
| `ArticleProps.WithKeepsCatalogs` | src/components/article-params-form/ArticleParamsForm.tsx:111-163 | an edit that picks a member of the field's own catalog keeps every field of the record within its catalog |
| `RootStyle.CssVar` | src/components/article-params-form/ArticleParamsForm.tsx:62-66 | every field is carried by one of the five property names |
| `RootStyle.CssVarInjective` | src/components/article-params-form/ArticleParamsForm.tsx:62-66 | distinct fields are written to distinct properties, so no write clobbers another field |
| `RootStyle.CssVarOnto` | src/components/article-params-form/ArticleParamsForm.tsx:62-66 | each of the five property names carries some field |
| `RootStyle.StyleVars` | src/components/article-params-form/ArticleParamsForm.tsx:60-67 | the properties a record sets are exactly the five names, each holding the `.value` of its field |
| `RootStyle.AppliedTo` | src/components/article-params-form/ArticleParamsForm.tsx:60-67 | after applying a record, each of the five properties holds its field's value and every other property of the root is unchanged |
| `RootStyle.AppliedToIdempotent` | src/components/article-params-form/ArticleParamsForm.tsx:60-67 | applying the same record twice gives the same root style as applying it once, and the root then reflects that record |
| `RootStyle.ReflectsSameValues` | src/components/article-params-form/ArticleParamsForm.tsx:60-67 | if the root reflects one record, it reflects another exactly when the two agree on every option value |
| `PanelMachine.Init` | src/components/article-params-form/ArticleParamsForm.tsx:25-32 | on mount the panel is closed, `wasOpened` is false, applied, draft and snapshot are all the default record, and the root's style is untouched |
| `PanelMachine.OpenCloseEffect` | src/components/article-params-form/ArticleParamsForm.tsx:34-45 | the effect seeds the draft from the applied record on an unseeded open, and leaves `wasOpened` equal to the open flag; the flag, applied record, snapshot and root are unchanged |
| `PanelMachine.Toggle` | src/components/article-params-form/ArticleParamsForm.tsx:94 | the click flips the open flag and never changes the applied record or the root; opening a valid closed panel sets the draft to the applied record; closing keeps the draft |
| `PanelMachine.MouseDown` | src/components/article-params-form/ArticleParamsForm.tsx:47-58 | a mousedown outside an open panel closes it; one while closed or inside the panel changes nothing; applied record and draft are never touched |
| `PanelMachine.Change` | src/components/article-params-form/ArticleParamsForm.tsx:69-74 | an edit sets exactly that draft field; the other draft fields, the applied record, the open flag, `wasOpened` and the root are unchanged |
| `PanelMachine.Submit` | src/components/article-params-form/ArticleParamsForm.tsx:86-90 | the applied record becomes the draft; the draft and open flag stay; each of the five properties holds the applied field's value; no property is added besides the five and every other property keeps its value |
| `PanelMachine.Reset` | src/components/article-params-form/ArticleParamsForm.tsx:76-84 | draft and applied record both become the snapshot; the open flag stays; the root reflects the snapshot; no property is added besides the five and every other property keeps its value |
| `PanelMachine.ResetIdempotent` | src/components/article-params-form/ArticleParamsForm.tsx:76-84 | resetting twice yields the same state as resetting once |
| `PanelMachine.SubmitIdempotent` | src/components/article-params-form/ArticleParamsForm.tsx:86-90 | submitting twice yields the same state as submitting once |
| `PanelMachine.SeedOnOpen` | src/components/article-params-form/ArticleParamsForm.tsx:34-45 | for any sequence of edits made while closed, opening the panel makes the draft equal to the applied record, which the edits left unchanged |
| `PanelMachine.DraftIsolation` | src/components/article-params-form/ArticleParamsForm.tsx:69-74 | no sequence of edits changes the applied record, the root's style, the open flag, `wasOpened` or the snapshot |
| `PanelMachine.ChangeAllSnoc` | src/components/article-params-form/ArticleParamsForm.tsx:73 | applying edits then one more edit is the same as applying the extended sequence |
| `PanelMachine.LastEditWins` | src/components/article-params-form/ArticleParamsForm.tsx:69-74 | after a sequence of edits each draft field holds the last value written to it, or its earlier value if no edit touched it |
| `PanelMachine.DiscardOnDismiss` | src/components/article-params-form/ArticleParamsForm.tsx:34-58 | edits in an open panel, then an outside mousedown, then reopening, give a draft equal to the applied record from before the edits, which is itself unchanged |
| `PanelMachine.ArrowButtonOnOpenPanel` | src/components/article-params-form/ArticleParamsForm.tsx:94-97 | pressing the arrow button on an open panel (mousedown outside the panel, then click) leaves it open with the draft reseeded from the unchanged applied record |
| `PanelMachine.RunPreservesInvariants` | src/components/article-params-form/ArticleParamsForm.tsx:25-45 | along any run of user events `wasOpened` mirrors the open flag, the snapshot never changes, and applied and draft stay within the catalogs if every edit picks a catalog option |
| `PanelMachine.AppliedChangesOnlyOnCommit` | src/components/article-params-form/ArticleParamsForm.tsx:76-90 | a run of toggles, mousedowns and edits without submit or reset leaves the applied record and the root's style unchanged |
| `PanelMachine.RootTracksApplied` | src/components/article-params-form/ArticleParamsForm.tsx:60-90 | once the root's five properties reflect the applied record, they keep reflecting it along any run of events |
| `PanelMachine.NarrowWidthScenario` | src/components/article-params-form/ArticleParamsForm.tsx:76-90 | opening from default, choosing a width and submitting makes the applied width and `--container-width` that choice; a reset then restores the default record and the default width's value |
| `ParamsForm.ArticleParamsForm.constructor` | src/components/article-params-form/ArticleParamsForm.tsx:25-32 | mounting gives the initial machine state with the dead ref empty |
| `ParamsForm.ArticleParamsForm.OpenCloseEffectStep` | src/components/article-params-form/ArticleParamsForm.tsx:34-45 | the effect's two conditionals perform `OpenCloseEffect`; the dead ref holds the applied record after an unseeded open and is cleared on close |
| `ParamsForm.ArticleParamsForm.Toggle` | src/components/article-params-form/ArticleParamsForm.tsx:94 | flipping the flag and running the effect performs `PanelMachine.Toggle` and keeps the object invariant |
| `ParamsForm.ArticleParamsForm.HandleMouseDown` | src/components/article-params-form/ArticleParamsForm.tsx:47-58 | the listener performs `MouseDown` and keeps the object invariant; the dead ref is kept while the panel stays open and cleared when it closes |
| `ParamsForm.ArticleParamsForm.ApplyStylesToRoot` | src/components/article-params-form/ArticleParamsForm.tsx:60-67 | the five successive property writes leave the root as `AppliedTo` of the old root and the record |
| `ParamsForm.ArticleParamsForm.HandleChange` | src/components/article-params-form/ArticleParamsForm.tsx:69-74 | the handler performs `Change` and changes only the draft |
| `ParamsForm.ArticleParamsForm.HandleReset` | src/components/article-params-form/ArticleParamsForm.tsx:76-84 | the handler performs `Reset` without touching the open flag |
| `ParamsForm.ArticleParamsForm.HandleSubmit` | src/components/article-params-form/ArticleParamsForm.tsx:86-90 | the handler performs `Submit` without touching the draft or the open flag |
| `ParamsForm.Session` | src/components/article-params-form/ArticleParamsForm.tsx:47-94 | driving the object through open, width edit, submit, a pending colour edit, outside mousedown and reopen leaves the submitted record applied and the draft equal to it |

## Left out

- The render tree (ArticleParamsForm.tsx:92-178): the `Text`, `Select`,
  `RadioGroup`, `Button` and `Separator` primitives, `clsx` and the style
  classes, and the submit button's `requestSubmit` call. The open flag only
  selects a CSS class there, so edit, submit and reset are not guarded by it
  in the model either.
- React scheduling: effects running after render, batching of state
  updates and StrictMode's double invocation. Each handler and the effect it
  triggers form one atomic step.
- Registration and removal of the document listener (lines 54-57) and
  `Node.contains`: the listener is active exactly while the panel is open,
  and the containment test is the `targetInsidePanel` parameter. The
  `ref.current` null test at line 49 is taken as always passing while the
  component is mounted.
- `preventDefault` on the form events (lines 77 and 87), which only stops
  the browser's own submit and reset.
- The `if (snapshot)` test at line 79 always passes, because the snapshot
  is a record. Reset therefore always acts.
- The option catalogs and the default record of `src/constants/articleProps`,
  which is not part of this model. The default record is a constructor
  parameter. The catalogs are a parameter of the invariant lemma. Options
  carry only a title and a value.
- `root.style.setProperty` (lines 62-66) is taken as a plain map write.
  Under CSSOM, an empty string removes the property and a value that does
  not parse is ignored; the model assumes catalog values are non-empty,
  valid CSS values, so `AppliedTo` and `Reflects` describe the DOM only
  for such values.
- `handleChange` does not check that a value belongs to its field's
  catalog, and neither does the model. Catalog membership is stated as an
  invariant that holds when the controls offer only catalog options.
- `src/index.tsx`: mounting, StrictMode, and the host's inline style map,
  which duplicates the projection at lines 60-67. It also passes five props
  that the component does not declare.
