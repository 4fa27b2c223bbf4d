/** The style record the settings panel edits, and the option catalogs its
    controls choose from. The concrete catalogs and the default record live
    in src/constants/articleProps, which is not part of this model: here they
    are values supplied by the caller. */
module ArticleProps {

  /** One selectable entry of a catalog: a display title and the CSS value
      it stands for. */
  datatype StyleOption = StyleOption(title: string, value: string)

  /** The five-field style record (ArticleStateType). */
  datatype ArticleState = ArticleState(
    fontFamilyOption: StyleOption,
    fontSizeOption: StyleOption,
    fontColor: StyleOption,
    backgroundColor: StyleOption,
    contentWidth: StyleOption)

  /** The keys of ArticleStateType, as passed to handleChange. */
  datatype Field = FontFamilyOption | FontSizeOption | FontColor | BackgroundColor | ContentWidth

  /** The option held in field `f` of `s` (`s[f]`). */
  function Get(s: ArticleState, f: Field): StyleOption
  {
    match f
    case FontFamilyOption => s.fontFamilyOption
    case FontSizeOption => s.fontSizeOption
    case FontColor => s.fontColor
    case BackgroundColor => s.backgroundColor
    case ContentWidth => s.contentWidth
  }

  /** The record update `{ ...s, [f]: v }`: field `f` becomes `v`, every
      other field keeps its option. */
  function With(s: ArticleState, f: Field, v: StyleOption): (r: ArticleState)
    ensures Get(r, f) == v
    ensures forall g :: g != f ==> Get(r, g) == Get(s, g)
  {
    match f
    case FontFamilyOption => s.(fontFamilyOption := v)
    case FontSizeOption => s.(fontSizeOption := v)
    case FontColor => s.(fontColor := v)
    case BackgroundColor => s.(backgroundColor := v)
    case ContentWidth => s.(contentWidth := v)
  }

  /** A style record is determined by its five fields. */
  lemma {:induction false} Extensionality(a: ArticleState, b: ArticleState)
    ensures a == b <==> forall f :: Get(a, f) == Get(b, f)
  {
    if forall f :: Get(a, f) == Get(b, f) {
      assert Get(a, FontFamilyOption) == Get(b, FontFamilyOption);
      assert Get(a, FontSizeOption) == Get(b, FontSizeOption);
      assert Get(a, FontColor) == Get(b, FontColor);
      assert Get(a, BackgroundColor) == Get(b, BackgroundColor);
      assert Get(a, ContentWidth) == Get(b, ContentWidth);
    }
  }

  /** Writing back the option a field already holds changes nothing, and a
      second write to the same field overrides the first. */
  lemma WithLaws(s: ArticleState, f: Field, v: StyleOption, w: StyleOption)
    ensures With(s, f, Get(s, f)) == s
    ensures With(With(s, f, v), f, w) == With(s, f, w)
  {
  }

  /** The five option lists the controls offer (fontFamilyOptions,
      fontSizeOptions, fontColors, backgroundColors, contentWidthArr). */
  datatype Catalogs = Catalogs(
    fontFamilyOptions: seq<StyleOption>,
    fontSizeOptions: seq<StyleOption>,
    fontColors: seq<StyleOption>,
    backgroundColors: seq<StyleOption>,
    contentWidthArr: seq<StyleOption>)

  /** The catalog the control for field `f` is given. */
  function CatalogOf(c: Catalogs, f: Field): seq<StyleOption>
  {
    match f
    case FontFamilyOption => c.fontFamilyOptions
    case FontSizeOption => c.fontSizeOptions
    case FontColor => c.fontColors
    case BackgroundColor => c.backgroundColors
    case ContentWidth => c.contentWidthArr
  }

  /** Every field holds a member of its own catalog. */
  predicate InCatalogs(s: ArticleState, c: Catalogs)
  {
    forall f :: Get(s, f) in CatalogOf(c, f)
  }

  /** Replacing one field by a member of that field's catalog keeps a record
      within its catalogs. */
  lemma WithKeepsCatalogs(s: ArticleState, c: Catalogs, f: Field, v: StyleOption)
    requires InCatalogs(s, c) && v in CatalogOf(c, f)
    ensures InCatalogs(With(s, f, v), c)
  {
  }
}
