/**
 * The current engine's entry point (libs/core/src/styles.ts): seed the result
 * with a copy of `props.style`, lay the caller's mappings over the static
 * table, and dispatch every prop.
 *
 * As written, the dispatcher is called with the seed as a third argument it
 * does not take, and its fresh result is dropped: `CreatePropStylesAsWritten`
 * models that, `CreatePropStyles` the documented behaviour, in which the
 * handler output is written over the seed.
 */
module CoreStyles {
  import opened JsValue
  import opened Helpers
  import opened Utils
  import opened CoreUtils
  import opened CoreConstants

  /**
   * `{ ...CSS_PROP_MAPPINGS, ...mappings }`. A custom entry whose value is
   * `undefined` (`None`) still replaces the table entry, and the dispatcher
   * then skips that prop.
   */
  function MergeMappings(lib: Lib, custom: map<string, Option<Handler>>): (m: Mappings)
  {
    (name: string) => if name in custom then custom[name] else CssPropMappings(lib)(name)
  }

  /** A custom entry replaces the table entry for its name; every other name keeps the table's. */
  lemma MergeReplacesPerName(lib: Lib, custom: map<string, Option<Handler>>, name: string)
    ensures name in custom ==> MergeMappings(lib, custom)(name) == custom[name]
    ensures name !in custom ==> MergeMappings(lib, custom)(name) == CssPropMappings(lib)(name)
    ensures MergeMappings(lib, map[])(name) == CssPropMappings(lib)(name)
  {
  }

  /** `createPropStyles(props, mappings)` as written: the dispatcher's result is discarded. */
  function CreatePropStylesAsWritten(lib: Lib, props: Props, custom: map<string, Option<Handler>>): (r: map<string, string>)
    ensures r == props.style
  {
    var styles := props.style;
    var discarded := MappedStyle(props, MergeMappings(lib, custom));
    styles
  }

  /**
   * `createPropStyles(props, mappings)` as documented: the handler output of
   * every prop, in order, written into a copy of `props.style`. Keys the props
   * write win over seeded ones; seeded keys no prop writes are kept.
   */
  function CreatePropStyles(lib: Lib, props: Props, custom: map<string, Option<Handler>>): (r: map<string, string>)
    ensures r == props.style + MappedStyle(props, MergeMappings(lib, custom))
    ensures forall k | k in props.style && k !in MappedStyle(props, MergeMappings(lib, custom)) :: r[k] == props.style[k]
  {
    WriteFieldsOverSeed(props.style, props, MergeMappings(lib, custom), props.fields);
    WriteFields(props.style, props, MergeMappings(lib, custom), props.fields)
  }

  /** With a single prop, the result is the seed overwritten by what that prop's handler writes. */
  lemma OneProp(lib: Lib, seed: map<string, string>, name: string, v: Value, custom: map<string, Option<Handler>>)
    ensures CreatePropStyles(lib, Props(seed, [(name, v)]), custom)
      == seed + WriteResult(map[], Dispatch(Props(seed, [(name, v)]), MergeMappings(lib, custom), (name, v)))
  {
    var p := Props(seed, [(name, v)]);
    var m := MergeMappings(lib, custom);
    assert p.fields[..0] == [];
    assert WriteFields(seed, p, m, p.fields) == WriteResult(seed, Dispatch(p, m, (name, v)));
    WriteResultOverSeed(seed, Dispatch(p, m, (name, v)));
  }

  /** With a single prop and no custom mappings, the result is what the prop's table rule writes. */
  lemma OneTableProp(lib: Lib, seed: map<string, string>, name: string, v: Value)
    requires TableRule(name).Some?
    ensures CreatePropStyles(lib, Props(seed, [(name, v)]), map[])
      == seed + WriteResult(map[], Apply(lib, TableRule(name).value, v))
  {
    OneProp(lib, seed, name, v, map[]);
    HandlerIsRule(lib, name, v, Props(seed, [(name, v)]));
  }

  /** `createPropStyles({})` is `{}`, as written and as documented. */
  lemma EmptyProps(lib: Lib, custom: map<string, Option<Handler>>)
    ensures CreatePropStyles(lib, Props(map[], []), custom) == map[]
    ensures CreatePropStylesAsWritten(lib, Props(map[], []), custom) == map[]
  {
  }

  /**
   * The discrepancy: for `{ flex: true }` the documented result is
   * `{ display: 'flex' }`, but as written the result is `{}`.
   */
  lemma AsWrittenDropsHandlerOutput(lib: Lib)
    ensures CreatePropStylesAsWritten(lib, Props(map[], [("flex", VBool(true))]), map[]) == map[]
    ensures CreatePropStyles(lib, Props(map[], [("flex", VBool(true))]), map[]) == map["display" := "flex"]
  {
    FlexIsFlagged(lib);
  }

  /** `{ flex: true }` gives `{ display: 'flex' }` and `{ flex: false }` gives `{}`. */
  lemma FlexIsFlagged(lib: Lib)
    ensures CreatePropStyles(lib, Props(map[], [("flex", VBool(true))]), map[]) == map["display" := "flex"]
    ensures CreatePropStyles(lib, Props(map[], [("flex", VBool(false))]), map[]) == map[]
  {
    FlagResolutionRest();
    FlexFlagWrites(lib, VBool(true));
    OneTableProp(lib, map[], "flex", VBool(true));
    OneTableProp(lib, map[], "flex", VBool(false));
  }

  /** A seeded key survives unless a prop writes it, and then the prop's value wins. */
  lemma SeedThenProps(lib: Lib, seed: map<string, string>, v: Value)
    requires !Omitted(v)
    ensures var r := CreatePropStyles(lib, Props(seed, [("fw", v)]), map[]);
      && "fontWeight" in r && r["fontWeight"] == ToColorValue(Some(JsString(v)))
      && forall k | k in seed && k != "fontWeight" :: k in r && r[k] == seed[k]
  {
    OverrideResolution();
    PlainRuleWrites(lib, "fontWeight", v);
    OneTableProp(lib, seed, "fw", v);
  }

  /** A custom handler replaces the table's for its prop: here a `color` handler writing a `{ key, value }` entry for `--color`. */
  lemma CustomHandlerWins(lib: Lib, v: Value)
    ensures var custom := map["color" := Some((x: Value, p: Props) => One(Decl("--color", JsString(x))))];
      CreatePropStyles(lib, Props(map[], [("color", v)]), custom) == map["--color" := JsString(v)]
  {
    var custom := map["color" := Some((x: Value, p: Props) => One(Decl("--color", JsString(x))))];
    OneProp(lib, map[], "color", v, custom);
  }

  /** A custom entry set to `undefined` switches its prop off entirely. */
  lemma UndefinedCustomEntry(lib: Lib, v: Value)
    ensures CreatePropStyles(lib, Props(map[], [("color", v)]), map["color" := None]) == map[]
  {
    OneProp(lib, map[], "color", v, map["color" := None]);
  }

  /** `{ border: 10 }` and `{ border: '10' }` set `borderWidth: 10px`. */
  lemma BorderWidthExamples(lib: Lib)
    requires Pinned(lib)
    ensures CreatePropStyles(lib, Props(map[], [("border", VInt(10))]), map[]) == map["borderWidth" := "10px"]
    ensures CreatePropStyles(lib, Props(map[], [("border", VStr("10"))]), map[]) == map["borderWidth" := "10px"]
  {
    BorderAt(lib, VInt(10));
    BorderAt(lib, VStr("10"));
    BorderWidthBeforeColor(lib, VInt(10), NoSide);
    BorderWidthBeforeColor(lib, VStr("10"), NoSide);
  }

  /** `{ border: '10px' }` is a width by its unit. */
  lemma BorderUnitExample(lib: Lib)
    requires Pinned(lib)
    ensures CreatePropStyles(lib, Props(map[], [("border", VStr("10px"))]), map[]) == map["borderWidth" := "10px"]
  {
    CssNumericalWithUnit();
    BorderAt(lib, VStr("10px"));
  }

  /** `{ border: '#fff' }` sets `borderColor`. */
  lemma BorderColorExample(lib: Lib)
    requires Pinned(lib)
    ensures CreatePropStyles(lib, Props(map[], [("border", VStr("#fff"))]), map[]) == map["borderColor" := "#fff"]
  {
    CssNumericalWithoutUnit();
    assert IsHexColor("#fff");
    BorderAt(lib, VStr("#fff"));
  }

  /** `{ border: '1px solid red' }` sets the shorthand as it is. */
  lemma BorderShorthandExample(lib: Lib)
    requires Pinned(lib)
    ensures CreatePropStyles(lib, Props(map[], [("border", VStr("1px solid red"))]), map[]) == map["border" := "1px solid red"]
  {
    ShorthandNotWidth();
    ShorthandNotColor();
    ShorthandNoVar();
    BorderShorthandKept(lib, "1px solid red", NoSide);
    BorderAt(lib, VStr("1px solid red"));
  }

  lemma ShorthandNotWidth()
    ensures !IsCssNumericalValueLike(VStr("1px solid red"))
  {
    CssNumericalWithoutUnit();
  }

  lemma ShorthandNotColor()
    ensures !IsColorLike(VStr("1px solid red"))
  {
    var s := "1px solid red";
    assert s[0] != '#';
    assert s[|s| - 1] != ')';
  }

  lemma ShorthandNoVar()
    ensures !HasCssVar("1px solid red")
  {
    var s := "1px solid red";
    assert forall i | 0 <= i < |s| :: s[i] != '-';
    NoVarIn(s);
  }

  /** The single-prop `border` result is the `border` helper's result. */
  lemma BorderAt(lib: Lib, v: Value)
    ensures CreatePropStyles(lib, Props(map[], [("border", v)]), map[]) == WriteResult(map[], Lift(Border(lib, v, NoSide)))
  {
    BorderResolution();
    OneTableProp(lib, map[], "border", v);
  }
}
