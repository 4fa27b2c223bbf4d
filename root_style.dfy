/** The projection of a style record onto the CSS custom properties of the
    document root (applyStylesToRoot). The root's inline style is modelled
    as a map from property name to value. */
module RootStyle {
  import opened ArticleProps

  const FontFamilyVar := "--font-family"
  const FontSizeVar := "--font-size"
  const FontColorVar := "--font-color"
  const ContainerWidthVar := "--container-width"
  const BgColorVar := "--bg-color"

  /** The five property names applyStylesToRoot writes. */
  const StyleVarNames: set<string> :=
    {FontFamilyVar, FontSizeVar, FontColorVar, ContainerWidthVar, BgColorVar}

  /** The CSS property that carries field `f`: content width goes to
      --container-width and background colour to --bg-color. */
  function CssVar(f: Field): (name: string)
    ensures name in StyleVarNames
  {
    match f
    case FontFamilyOption => FontFamilyVar
    case FontSizeOption => FontSizeVar
    case FontColor => FontColorVar
    case ContentWidth => ContainerWidthVar
    case BackgroundColor => BgColorVar
  }

  /** Distinct fields go to distinct properties, so no write overwrites
      another field's value. */
  lemma CssVarInjective(f: Field, g: Field)
    ensures CssVar(f) == CssVar(g) ==> f == g
  {
  }

  /** Every one of the five property names carries some field. */
  lemma CssVarOnto(name: string)
    requires name in StyleVarNames
    ensures exists f :: CssVar(f) == name
  {
    if name == FontFamilyVar { assert CssVar(FontFamilyOption) == name; }
    else if name == FontSizeVar { assert CssVar(FontSizeOption) == name; }
    else if name == FontColorVar { assert CssVar(FontColor) == name; }
    else if name == ContainerWidthVar { assert CssVar(ContentWidth) == name; }
    else { assert CssVar(BackgroundColor) == name; }
  }

  /** The five properties a style record sets: each field's option value
      under that field's property name, and nothing else. */
  function StyleVars(s: ArticleState): (m: map<string, string>)
    ensures m.Keys == StyleVarNames
    ensures forall f :: m[CssVar(f)] == Get(s, f).value
  {
    map[FontFamilyVar := s.fontFamilyOption.value,
        FontSizeVar := s.fontSizeOption.value,
        FontColorVar := s.fontColor.value,
        ContainerWidthVar := s.contentWidth.value,
        BgColorVar := s.backgroundColor.value]
  }

  /** The root's inline style after applyStylesToRoot(s): the five
      properties carry `s`'s values, every other property is as it was. */
  function AppliedTo(root: map<string, string>, s: ArticleState): (r: map<string, string>)
    ensures r.Keys == root.Keys + StyleVarNames
    ensures forall f :: r[CssVar(f)] == Get(s, f).value
    ensures forall k :: k in root && k !in StyleVarNames ==> r[k] == root[k]
  {
    root + StyleVars(s)
  }

  /** The root reflects `s`: each of the five properties is present and
      equals the value of the corresponding field of `s`. */
  predicate Reflects(root: map<string, string>, s: ArticleState)
  {
    forall f :: CssVar(f) in root && root[CssVar(f)] == Get(s, f).value
  }

  /** Applying a record a second time changes nothing. */
  lemma AppliedToIdempotent(root: map<string, string>, s: ArticleState)
    ensures AppliedTo(AppliedTo(root, s), s) == AppliedTo(root, s)
    ensures Reflects(AppliedTo(root, s), s)
  {
  }

  /** The root reflects a record exactly when the five properties carry that
      record's option values; so two records that reflect on the same root
      agree on every value. */
  lemma ReflectsSameValues(root: map<string, string>, a: ArticleState, b: ArticleState)
    requires Reflects(root, a)
    ensures Reflects(root, b) <==> forall f :: Get(a, f).value == Get(b, f).value
  {
  }
}
