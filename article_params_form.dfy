/** The ArticleParamsForm component as an object: its state cells and refs
    are fields, its handlers are methods, and each method is proved to
    perform the matching transition of PanelMachine. */
module ParamsForm {
  import opened ArticleProps
  import opened RootStyle
  import opened PanelMachine

  datatype Option<T> = None | Some(value: T)

  class ArticleParamsForm {
    /** isOpen state cell. */
    var isOpen: bool
    /** initialSnapshot ref: the reset target, set once on mount. */
    const initialSnapshot: ArticleState
    /** appliedState state cell: the record in effect. */
    var appliedState: ArticleState
    /** formState state cell: the draft the controls show. */
    var formState: ArticleState
    /** openedInitialValuesRef: written on open and close, never read. */
    ghost var openedInitialValues: Option<ArticleState>
    /** wasOpened ref. */
    var wasOpened: bool
    /** The inline style of the document root element. */
    var rootVars: map<string, string>

    /** The component's state as a PanelMachine value. */
    function State(): PanelState
      reads this
    {
      PanelState(isOpen, initialSnapshot, appliedState, formState, wasOpened, rootVars)
    }

    /** The object invariant: the machine's invariant, and the dead ref
        holds a record exactly while the panel is open. */
    ghost predicate Valid()
      reads this
    {
      PanelMachine.Valid(State()) && (openedInitialValues.Some? <==> isOpen)
    }

    /** Mounting the component with the default record and the root's
        inline style as the document has it. */
    constructor (defaultArticleState: ArticleState, documentRoot: map<string, string>)
      ensures Valid()
      ensures State() == Init(defaultArticleState, documentRoot)
      ensures openedInitialValues == None
    {
      isOpen := false;
      initialSnapshot := defaultArticleState;
      appliedState := defaultArticleState;
      formState := defaultArticleState;
      openedInitialValues := None;
      wasOpened := false;
      rootVars := documentRoot;
    }

    /** The effect keyed on isOpen, run right after a change of the flag. */
    method OpenCloseEffectStep()
      modifies this
      ensures State() == OpenCloseEffect(old(State()))
      ensures isOpen && !old(wasOpened) ==> openedInitialValues == Some(old(appliedState))
      ensures isOpen && old(wasOpened) ==> openedInitialValues == old(openedInitialValues)
      ensures !isOpen ==> openedInitialValues == None
    {
      if isOpen && !wasOpened {
        openedInitialValues := Some(appliedState);
        formState := appliedState;
        wasOpened := true;
      }
      if !isOpen {
        openedInitialValues := None;
        wasOpened := false;
      }
    }

    /** The arrow button's onClick: flip the flag, then the effect. */
    method Toggle()
      requires Valid()
      modifies this
      ensures Valid()
      ensures State() == PanelMachine.Toggle(old(State()))
      ensures isOpen ==> openedInitialValues == Some(old(appliedState))
    {
      isOpen := !isOpen;
      OpenCloseEffectStep();
    }

    /** The document's mousedown listener, registered only while open; the
        containment test of the event target is the parameter. */
    method HandleMouseDown(targetInsidePanel: bool)
      requires Valid()
      modifies this
      ensures Valid()
      ensures State() == MouseDown(old(State()), targetInsidePanel)
      ensures isOpen ==> openedInitialValues == old(openedInitialValues)
      ensures !isOpen ==> openedInitialValues == None
    {
      if isOpen && !targetInsidePanel {
        isOpen := false;
        OpenCloseEffectStep();
      }
    }

    /** applyStylesToRoot: the five properties, one after another. */
    method ApplyStylesToRoot(styles: ArticleState)
      modifies this`rootVars
      ensures rootVars == AppliedTo(old(rootVars), styles)
    {
      rootVars := rootVars[FontFamilyVar := styles.fontFamilyOption.value];
      rootVars := rootVars[FontSizeVar := styles.fontSizeOption.value];
      rootVars := rootVars[FontColorVar := styles.fontColor.value];
      rootVars := rootVars[ContainerWidthVar := styles.contentWidth.value];
      rootVars := rootVars[BgColorVar := styles.backgroundColor.value];
    }

    /** handleChange(field, value): the draft's field becomes value. */
    method HandleChange(field: Field, value: StyleOption)
      requires Valid()
      modifies this`formState
      ensures Valid()
      ensures State() == Change(old(State()), field, value)
    {
      formState := With(formState, field, value);
    }

    /** handleReset: the snapshot becomes draft and applied record and is
        written to the root. */
    method HandleReset()
      requires Valid()
      modifies this`formState, this`appliedState, this`rootVars
      ensures Valid()
      ensures State() == Reset(old(State()))
    {
      var snapshot := initialSnapshot;
      formState := snapshot;
      appliedState := snapshot;
      ApplyStylesToRoot(snapshot);
    }

    /** handleSubmit: the draft becomes the applied record and is written
        to the root. */
    method HandleSubmit()
      requires Valid()
      modifies this`appliedState, this`rootVars
      ensures Valid()
      ensures State() == Submit(old(State()))
    {
      appliedState := formState;
      ApplyStylesToRoot(formState);
    }
  }

  /** A session driven through the component: open, edit the width, submit,
      dismiss with an edit pending, reopen. The applied record is the
      submitted one and the dismissed edit is gone. */
  method Session(defaultArticleState: ArticleState, narrow: StyleOption, red: StyleOption)
    returns (applied: ArticleState, draft: ArticleState)
    ensures applied == defaultArticleState.(contentWidth := narrow)
    ensures draft == applied
  {
    var panel := new ArticleParamsForm(defaultArticleState, map[]);
    panel.Toggle();
    panel.HandleChange(ContentWidth, narrow);
    panel.HandleSubmit();
    panel.HandleChange(FontColor, red);
    panel.HandleMouseDown(false);
    panel.Toggle();
    applied, draft := panel.appliedState, panel.formState;
  }
}
