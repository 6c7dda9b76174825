/**
 * The older engine's table and entry point (libs/style/src/styles.ts): three
 * generated groups (display flags, CSS lengths, values kept as they are), a
 * handful of explicit handlers, and a `createPropStyles` that copies
 * `props.style` into a fresh object and has `handleMappings` write into it.
 */
module StyleStyles {
  import opened JsValue
  import opened Helpers
  import opened Utils
  import opened StyleUtils
  import CoreConstants
  import CoreUtils
  import CoreStyles

  /** `NUMERICAL_PROP_KEYS`. */
  const NumericalPropKeys: seq<string> := [
    "width", "minWidth", "maxWidth", "height", "minHeight", "maxHeight",
    "padding", "paddingTop", "paddingBottom", "paddingLeft", "paddingRight", "paddingInline", "paddingBlock",
    "margin", "marginTop", "marginBottom", "marginLeft", "marginRight", "marginInline", "marginBlock",
    "gap", "fontSize", "lineHeight"]

  /** `CHANGELESS_PROP_KEYS`. */
  const ChangelessPropKeys: seq<string> := ["background", "color"]

  /** `DISPLAY_PROP_KEYS`. */
  const DisplayPropKeys: seq<string> := ["flex", "grid", "inline", "inlineFlex", "inlineBlock"]

  /** The explicit handlers of the table, by what they do. */
  datatype SRule =
    | RadiusRule                            // `['borderRadius', toCssValue(value)]`
    | DefaultedRule(key: string)            // `[key, value ?? '']`
    | FlagRule(key: string, fixed: string)  // `value ? [key, fixed] : null`
    | WrapRule                              // `value ? ['flexWrap', isBoolean(value) ? 'wrap' : value] : null`
    | ScrollRule                            // `value ? ['overflow' + axis, 'auto'] : null`
    | BorderRule                            // `border(value)`
    | FormatRule(key: string, css: bool)    // `format(key, value[, toCssValue(value)])`

  /** The explicit entries of `CSS_PROP_MAPPINGS`, by prop name. */
  function ExplicitRule(name: string): Option<SRule>
  {
    match name
    case "radius" => Some(RadiusRule)
    case "align" => Some(DefaultedRule("alignItems"))
    case "justify" => Some(DefaultedRule("justifyContent"))
    case "column" => Some(FlagRule("flexDirection", "column"))
    case "wrap" => Some(WrapRule)
    case "breakWord" => Some(FlagRule("overflowWrap", "break-word"))
    case "bold" => Some(FlagRule("fontWeight", "bold"))
    case "thin" => Some(FlagRule("fontWeight", "500"))
    case "scroll" => Some(ScrollRule)
    case "border" => Some(BorderRule)
    case "fs" => Some(FormatRule("fontSize", true))
    case "bg" => Some(FormatRule("background", false))
    case "fontWeight" => Some(FormatRule("fontWeight", false))
    case "fw" => Some(FormatRule("fontWeight", false))
    case _ => None
  }

  /** What the handler of an explicit rule returns for the value `v`. */
  function ApplyRule(lib: Lib, rule: SRule, v: Value): Option<Entry>
  {
    match rule
    case RadiusRule => Some(Entry("borderRadius", VStr(lib.cssValue(v, None))))
    case DefaultedRule(key) => Some(Entry(key, if IsNullOrUndefined(v) then VStr("") else v))
    case FlagRule(key, fixed) => if Truthy(v) then Some(Entry(key, VStr(fixed))) else None
    case WrapRule => if Truthy(v) then Some(Entry("flexWrap", if IsBoolean(v) then VStr("wrap") else v)) else None
    case ScrollRule => if Truthy(v) then Some(Entry(CoreConstants.ScrollKey(v), VStr("auto"))) else None
    case BorderRule => Border(lib, v)
    case FormatRule(key, css) => Format(key, v, if css then Some(lib.cssValue(v, None)) else None)
  }

  function RuleHandler(lib: Lib, rule: SRule): SHandler
  {
    (v: Value, p: Props) => ApplyRule(lib, rule, v)
  }

  /** `{ ...under, ...over }` for tables whose every entry is a handler. */
  function Layer(over: SMappings, under: SMappings): SMappings
  {
    (name: string) => if over(name).Some? then over(name) else under(name)
  }

  /** The three generated groups, in spread order (a later group wins on a shared name). */
  function Generated(lib: Lib): SMappings
  {
    Layer(Changeless(ChangelessPropKeys), Layer(Numerical(lib, NumericalPropKeys), Display(lib, DisplayPropKeys)))
  }

  /**
   * `CSS_PROP_MAPPINGS`. No explicit name is in a generated group and the
   * groups share no name (`TableNamesDisjoint`), so the position of each
   * spread among the explicit entries does not matter.
   */
  function CssPropMappings(lib: Lib): SMappings
  {
    (name: string) =>
      match ExplicitRule(name)
      case Some(rule) => Some(RuleHandler(lib, rule))
      case None => Generated(lib)(name)
  }

  /** `{ ...CSS_PROP_MAPPINGS, ...mappings }`: a custom entry replaces the table's, `undefined` included. */
  function MergeMappings(lib: Lib, custom: map<string, Option<SHandler>>): SMappings
  {
    (name: string) => if name in custom then custom[name] else CssPropMappings(lib)(name)
  }

  /** `{ ...props.style }`. */
  function Seed(style: map<string, string>): (r: map<string, Value>)
    ensures r.Keys == style.Keys
    ensures forall k | k in style :: r[k] == VStr(style[k])
  {
    map k | k in style :: VStr(style[k])
  }

  /** What `createPropStyles(props, mappings)` returns. */
  function PropStyles(lib: Lib, props: Props, custom: map<string, Option<SHandler>>): (r: map<string, Value>)
    ensures r == Seed(props.style) + WriteEntries(map[], props, MergeMappings(lib, custom), props.fields)
    ensures forall k | k in props.style && k !in WriteEntries(map[], props, MergeMappings(lib, custom), props.fields)
      :: k in r && r[k] == VStr(props.style[k])
  {
    WriteEntriesOverSeed(Seed(props.style), props, MergeMappings(lib, custom), props.fields);
    WriteEntries(Seed(props.style), props, MergeMappings(lib, custom), props.fields)
  }

  /** `createPropStyles(props, mappings)`: a fresh object seeded from `props.style`, filled by `handleMappings`. */
  method CreatePropStyles(lib: Lib, props: Props, custom: map<string, Option<SHandler>>) returns (styles: Target)
    ensures fresh(styles)
    ensures styles.entries == PropStyles(lib, props, custom)
  {
    styles := new Target(Seed(props.style));
    HandleMappings(props, MergeMappings(lib, custom), styles);
  }

  // ------------------------------------------------------------ the table

  /** How the table resolves a name: its explicit entry if it has one, else the generated groups. */
  lemma TableLookup(lib: Lib, name: string)
    ensures ExplicitRule(name).Some? ==> CssPropMappings(lib)(name) == Some(RuleHandler(lib, ExplicitRule(name).value))
    ensures ExplicitRule(name).None? ==> CssPropMappings(lib)(name) == Generated(lib)(name)
  {
  }

  /** The generated groups have a handler for exactly the listed names. */
  lemma GeneratedNames(lib: Lib, name: string)
    ensures Generated(lib)(name).Some? <==>
      name in DisplayPropKeys || name in NumericalPropKeys || name in ChangelessPropKeys
  {
    GeneratedKeys(ChangelessPropKeys, ChangelessHandler(), name, VNull, Props(map[], []));
    GeneratedKeys(NumericalPropKeys, NumericalHandler(lib), name, VNull, Props(map[], []));
    GeneratedKeys(DisplayPropKeys, DisplayHandler(lib), name, VNull, Props(map[], []));
  }

  /** The table has a handler for exactly the generated names and the explicit ones. */
  lemma TableNames(lib: Lib, name: string)
    ensures CssPropMappings(lib)(name).Some? <==>
      name in DisplayPropKeys || name in NumericalPropKeys || name in ChangelessPropKeys || ExplicitRule(name).Some?
  {
    TableLookup(lib, name);
    GeneratedNames(lib, name);
  }

  /**
   * No name is in two groups, and no generated name has an explicit entry, so
   * the order of the spreads in the table literal does not matter.
   */
  lemma TableNamesDisjoint(name: string)
    ensures name in DisplayPropKeys ==> ExplicitRule(name) == None && name !in NumericalPropKeys && name !in ChangelessPropKeys
    ensures name in NumericalPropKeys ==> ExplicitRule(name) == None && name !in ChangelessPropKeys
    ensures name in ChangelessPropKeys ==> ExplicitRule(name) == None
  {
    if name in DisplayPropKeys {
      DisplayNotExplicit(name);
      DisplayNotNumerical(name);
    }
    if name in NumericalPropKeys {
      NumericalNotExplicit(name);
    }
  }

  lemma DisplayNotExplicit(name: string)
    requires name in DisplayPropKeys
    ensures ExplicitRule(name) == None
  {
  }

  lemma DisplayNotNumerical(name: string)
    requires name in DisplayPropKeys
    ensures name !in NumericalPropKeys && name !in ChangelessPropKeys
  {
  }

  lemma NumericalNotExplicit(name: string)
    requires name in NumericalPropKeys
    ensures ExplicitRule(name) == None && name !in ChangelessPropKeys
  {
    var k := NumericalPropKeys;
    assert k == k[..6] + k[6..12] + k[12..18] + k[18..];
    if name in k[..6] {
      SizesNotExplicit(name);
    } else if name in k[6..12] {
      PaddingsNotExplicit(name);
    } else if name in k[12..18] {
      MarginsNotExplicit(name);
    } else {
      RestNotExplicit(name);
    }
  }

  lemma SizesNotExplicit(name: string)
    requires name in NumericalPropKeys[..6]
    ensures ExplicitRule(name) == None && name !in ChangelessPropKeys
  {
  }

  lemma PaddingsNotExplicit(name: string)
    requires name in NumericalPropKeys[6..12]
    ensures ExplicitRule(name) == None && name !in ChangelessPropKeys
  {
  }

  lemma MarginsNotExplicit(name: string)
    requires name in NumericalPropKeys[12..18]
    ensures ExplicitRule(name) == None && name !in ChangelessPropKeys
  {
  }

  lemma RestNotExplicit(name: string)
    requires name in NumericalPropKeys[18..]
    ensures ExplicitRule(name) == None && name !in ChangelessPropKeys
  {
  }

  /** A display name gets the `display` handler. */
  lemma DisplayNameHandler(lib: Lib, name: string, v: Value, p: Props)
    requires name in DisplayPropKeys
    ensures CssPropMappings(lib)(name).Some?
    ensures CssPropMappings(lib)(name).value(v, p)
      == if IsNullOrUndefined(v) || v == VBool(false) then None
         else Some(Entry("display", VStr(lib.toSnakeCase(name))))
  {
    TableNamesDisjoint(name);
    TableLookup(lib, name);
    GeneratedKeys(ChangelessPropKeys, ChangelessHandler(), name, v, p);
    GeneratedKeys(NumericalPropKeys, NumericalHandler(lib), name, v, p);
    assert Generated(lib)(name) == Display(lib, DisplayPropKeys)(name);
    DisplayEmits(lib, DisplayPropKeys, name, v, p);
  }

  /** A numerical name gets the `numerical` handler. */
  lemma NumericalNameHandler(lib: Lib, name: string, v: Value, p: Props)
    requires name in NumericalPropKeys
    ensures CssPropMappings(lib)(name).Some?
    ensures CssPropMappings(lib)(name).value(v, p)
      == if IsNullOrUndefined(v) || v == VBool(false) then None
         else Some(Entry(name, VStr(lib.cssValue(v, None))))
  {
    TableNamesDisjoint(name);
    TableLookup(lib, name);
    GeneratedKeys(ChangelessPropKeys, ChangelessHandler(), name, v, p);
    NumericalEmits(lib, NumericalPropKeys, name, v, p);
    assert Generated(lib)(name) == Numerical(lib, NumericalPropKeys)(name);
  }

  /** A changeless name gets the `changeless` handler. */
  lemma ChangelessNameHandler(lib: Lib, name: string, v: Value, p: Props)
    requires name in ChangelessPropKeys
    ensures CssPropMappings(lib)(name).Some?
    ensures CssPropMappings(lib)(name).value(v, p) == Some(Entry(name, v))
  {
    TableNamesDisjoint(name);
    TableLookup(lib, name);
    ChangelessEmits(ChangelessPropKeys, name, v, p);
    assert Generated(lib)(name) == Changeless(ChangelessPropKeys)(name);
  }

  // ------------------------------------------------------- single props

  /** With a single prop, the result is the seed overwritten by what that prop's handler writes. */
  lemma OneProp(lib: Lib, seed: map<string, string>, name: string, v: Value, custom: map<string, Option<SHandler>>)
    ensures PropStyles(lib, Props(seed, [(name, v)]), custom)
      == Seed(seed) + WrittenBy(Props(seed, [(name, v)]), MergeMappings(lib, custom), (name, v))
  {
    assert [(name, v)] == [] + [(name, v)];
    WriteEntriesSnoc(Seed(seed), Props(seed, [(name, v)]), MergeMappings(lib, custom), [], (name, v));
  }

  /** A prop with an explicit entry writes what its rule returns. */
  lemma WrittenByExplicit(lib: Lib, p: Props, name: string, v: Value)
    requires ExplicitRule(name).Some?
    ensures WrittenBy(p, MergeMappings(lib, map[]), (name, v)) == AsMap(ApplyRule(lib, ExplicitRule(name).value, v))
  {
    TableLookup(lib, name);
  }

  /** A changeless prop writes its own key with the value as it is. */
  lemma WrittenByChangeless(lib: Lib, p: Props, name: string, v: Value)
    requires name in ChangelessPropKeys
    ensures WrittenBy(p, MergeMappings(lib, map[]), (name, v)) == map[name := v]
  {
    ChangelessNameHandler(lib, name, v, p);
  }

  /** With a single prop that has an explicit entry, the result is what its rule returns. */
  lemma OneExplicitProp(lib: Lib, name: string, v: Value)
    requires ExplicitRule(name).Some?
    ensures PropStyles(lib, Props(map[], [(name, v)]), map[]) == AsMap(ApplyRule(lib, ExplicitRule(name).value, v))
  {
    OneProp(lib, map[], name, v, map[]);
    WrittenByExplicit(lib, Props(map[], [(name, v)]), name, v);
  }

  /** `radius` is never omitted: every value, `null` included, gives `borderRadius` through `toCssValue`. */
  lemma RadiusNeverOmitted(lib: Lib, v: Value)
    ensures PropStyles(lib, Props(map[], [("radius", v)]), map[]) == map["borderRadius" := VStr(lib.cssValue(v, None))]
  {
    OneExplicitProp(lib, "radius", v);
  }

  /** `align` and `justify` fall back to `''` for `null` and `undefined` instead of omitting the key. */
  lemma AlignJustifyDefault(lib: Lib, v: Value)
    ensures PropStyles(lib, Props(map[], [("align", v)]), map[])
      == map["alignItems" := if IsNullOrUndefined(v) then VStr("") else v]
    ensures PropStyles(lib, Props(map[], [("justify", v)]), map[])
      == map["justifyContent" := if IsNullOrUndefined(v) then VStr("") else v]
  {
    OneExplicitProp(lib, "align", v);
    OneExplicitProp(lib, "justify", v);
  }

  /** `column` and `breakWord` give their fixed value when truthy and nothing otherwise. */
  lemma LayoutFlags(lib: Lib, v: Value)
    ensures PropStyles(lib, Props(map[], [("column", v)]), map[])
      == if Truthy(v) then map["flexDirection" := VStr("column")] else map[]
    ensures PropStyles(lib, Props(map[], [("breakWord", v)]), map[])
      == if Truthy(v) then map["overflowWrap" := VStr("break-word")] else map[]
  {
    OneExplicitProp(lib, "column", v);
    OneExplicitProp(lib, "breakWord", v);
  }

  /** `bold` and `thin` set `fontWeight` to `bold` and `500` when truthy and nothing otherwise. */
  lemma WeightFlags(lib: Lib, v: Value)
    ensures PropStyles(lib, Props(map[], [("bold", v)]), map[])
      == if Truthy(v) then map["fontWeight" := VStr("bold")] else map[]
    ensures PropStyles(lib, Props(map[], [("thin", v)]), map[])
      == if Truthy(v) then map["fontWeight" := VStr("500")] else map[]
  {
    OneExplicitProp(lib, "bold", v);
    OneExplicitProp(lib, "thin", v);
  }

  /** `wrap`: `true` gives `wrap`, any other truthy value is kept as it is, a falsy one gives nothing. */
  lemma WrapProp(lib: Lib, v: Value)
    ensures PropStyles(lib, Props(map[], [("wrap", v)]), map[])
      == if !Truthy(v) then map[] else if v == VBool(true) then map["flexWrap" := VStr("wrap")] else map["flexWrap" := v]
  {
    assert ExplicitRule("wrap") == Some(WrapRule);
    OneExplicitProp(lib, "wrap", v);
    if Truthy(v) && IsBoolean(v) {
      assert v == VBool(true);
    }
  }

  /** `scroll`: a truthy value gives `overflow` plus its upper-cased text if it is a string, set to `auto`. */
  lemma ScrollProp(lib: Lib, v: Value)
    ensures PropStyles(lib, Props(map[], [("scroll", v)]), map[])
      == if Truthy(v) then map[CoreConstants.ScrollKey(v) := VStr("auto")] else map[]
  {
    OneExplicitProp(lib, "scroll", v);
  }

  /** The scroll keys of `true`, `'x'` and `'y'`. */
  lemma ScrollKeys()
    ensures CoreConstants.ScrollKey(VBool(true)) == "overflow"
    ensures CoreConstants.ScrollKey(VStr("x")) == "overflowX"
    ensures CoreConstants.ScrollKey(VStr("y")) == "overflowY"
  {
    assert AsciiUpper("x") == "X";
    assert AsciiUpper("y") == "Y";
  }

  /** `fs` gives `fontSize` through `toCssValue`, dropped only for `null`, `undefined` and `false`. */
  lemma FontSizeProp(lib: Lib, v: Value)
    ensures PropStyles(lib, Props(map[], [("fs", v)]), map[]) == AsMap(Format("fontSize", v, Some(lib.cssValue(v, None))))
  {
    OneExplicitProp(lib, "fs", v);
  }

  /** `fw` and `fontWeight` give `fontWeight` unchanged, dropped only for `null`, `undefined` and `false`. */
  lemma FontWeightProps(lib: Lib, v: Value)
    ensures PropStyles(lib, Props(map[], [("fw", v)]), map[]) == AsMap(Format("fontWeight", v, None))
    ensures PropStyles(lib, Props(map[], [("fontWeight", v)]), map[]) == AsMap(Format("fontWeight", v, None))
  {
    OneExplicitProp(lib, "fw", v);
    OneExplicitProp(lib, "fontWeight", v);
  }

  /** `bg` gives `background` unchanged, dropped only for `null`, `undefined` and `false`. */
  lemma BgProp(lib: Lib, v: Value)
    ensures PropStyles(lib, Props(map[], [("bg", v)]), map[]) == AsMap(Format("background", v, None))
  {
    OneExplicitProp(lib, "bg", v);
  }

  /** `border` goes through the engine's `border` helper. */
  lemma BorderProp(lib: Lib, v: Value)
    ensures PropStyles(lib, Props(map[], [("border", v)]), map[]) == AsMap(Border(lib, v))
  {
    OneExplicitProp(lib, "border", v);
  }

  /** A display name writes `display: toSnakeCase(name)` unless `format` drops the value. */
  lemma DisplayProp(lib: Lib, name: string, v: Value)
    requires name in DisplayPropKeys
    ensures PropStyles(lib, Props(map[], [(name, v)]), map[]) == AsMap(Format("display", v, Some(lib.toSnakeCase(name))))
  {
    OneProp(lib, map[], name, v, map[]);
    DisplayNameHandler(lib, name, v, Props(map[], [(name, v)]));
  }

  /** A numerical name writes its own key through `toCssValue` unless `format` drops the value. */
  lemma NumericalProp(lib: Lib, name: string, v: Value)
    requires name in NumericalPropKeys
    ensures PropStyles(lib, Props(map[], [(name, v)]), map[]) == AsMap(Format(name, v, Some(lib.cssValue(v, None))))
  {
    OneProp(lib, map[], name, v, map[]);
    NumericalNameHandler(lib, name, v, Props(map[], [(name, v)]));
  }

  /** A changeless name writes its own key with the value as it is, whatever the value. */
  lemma ChangelessProp(lib: Lib, name: string, v: Value)
    requires name in ChangelessPropKeys
    ensures PropStyles(lib, Props(map[], [(name, v)]), map[]) == map[name := v]
  {
    OneProp(lib, map[], name, v, map[]);
    ChangelessNameHandler(lib, name, v, Props(map[], [(name, v)]));
  }

  // ------------------------------------------------------------- collisions

  /** Two props, in order: the first prop's pair, then the second's over it. */
  lemma TwoProps(lib: Lib, f: (string, Value), g: (string, Value))
    ensures PropStyles(lib, Props(map[], [f, g]), map[])
      == WrittenBy(Props(map[], [f, g]), MergeMappings(lib, map[]), f) + WrittenBy(Props(map[], [f, g]), MergeMappings(lib, map[]), g)
  {
    var p := Props(map[], [f, g]);
    assert [f, g] == [f] + [g];
    assert [f] == [] + [f];
    WriteEntriesSnoc(map[], p, MergeMappings(lib, map[]), [], f);
    WriteEntriesSnoc(map[], p, MergeMappings(lib, map[]), [f], g);
  }

  /** `background` then `bg`: a `bg` that `format` keeps wins; one it drops leaves `background`. */
  lemma BgAfterBackground(lib: Lib, a: Value, b: Value)
    ensures PropStyles(lib, Props(map[], [("background", b), ("bg", a)]), map[])
      == if IsNullOrUndefined(a) || a == VBool(false) then map["background" := b] else map["background" := a]
  {
    var p := Props(map[], [("background", b), ("bg", a)]);
    TwoProps(lib, ("background", b), ("bg", a));
    assert ChangelessPropKeys[0] == "background";
    WrittenByChangeless(lib, p, "background", b);
    assert ExplicitRule("bg") == Some(FormatRule("background", false));
    WrittenByExplicit(lib, p, "bg", a);
  }

  /** `bg` then `background`: `background` always wins, since `changeless` never omits. */
  lemma BackgroundAfterBg(lib: Lib, a: Value, b: Value)
    ensures PropStyles(lib, Props(map[], [("bg", a), ("background", b)]), map[]) == map["background" := b]
  {
    var p := Props(map[], [("bg", a), ("background", b)]);
    TwoProps(lib, ("bg", a), ("background", b));
    assert ChangelessPropKeys[0] == "background";
    WrittenByChangeless(lib, p, "background", b);
    assert ExplicitRule("bg") == Some(FormatRule("background", false));
    WrittenByExplicit(lib, p, "bg", a);
  }

  /** `bg: null` writes nothing, but `background: null` writes `background: null`. */
  lemma BackgroundNull(lib: Lib)
    ensures PropStyles(lib, Props(map[], [("bg", VNull)]), map[]) == map[]
    ensures PropStyles(lib, Props(map[], [("background", VNull)]), map[]) == map["background" := VNull]
  {
    BgProp(lib, VNull);
    ChangelessProp(lib, "background", VNull);
  }

  // ---------------------------------------------------------- whole calls

  /** Seeded keys survive unless a prop writes them, and then the prop's value wins. */
  lemma SeedThenProps(lib: Lib, seed: map<string, string>, v: Value)
    requires !(IsNullOrUndefined(v) || v == VBool(false))
    ensures var r := PropStyles(lib, Props(seed, [("fw", v)]), map[]);
      && "fontWeight" in r && r["fontWeight"] == v
      && forall k | k in seed && k != "fontWeight" :: k in r && r[k] == VStr(seed[k])
  {
    OneProp(lib, seed, "fw", v, map[]);
    assert ExplicitRule("fw") == Some(FormatRule("fontWeight", false));
    WrittenByExplicit(lib, Props(seed, [("fw", v)]), "fw", v);
  }

  /** A custom entry replaces the table's, and one set to `undefined` switches its prop off. */
  lemma CustomMappings(lib: Lib, v: Value)
    ensures var custom := map["color" := Some((x: Value, p: Props) => Some(Entry("--color", x)))];
      PropStyles(lib, Props(map[], [("color", v)]), custom) == map["--color" := v]
    ensures PropStyles(lib, Props(map[], [("color", v)]), map["color" := None]) == map[]
  {
    var custom := map["color" := Some((x: Value, p: Props) => Some(Entry("--color", x)))];
    OneProp(lib, map[], "color", v, custom);
    OneProp(lib, map[], "color", v, map["color" := None]);
  }

  /** `createPropStyles({})` is `{}`. */
  lemma NoProps(lib: Lib, custom: map<string, Option<SHandler>>)
    ensures PropStyles(lib, Props(map[], []), custom) == map[]
  {
  }

  // ----------------------------------------------------- observed examples

  /** `width: 10` gives `10px`. */
  lemma WidthExample(lib: Lib)
    requires Pinned(lib)
    ensures PropStyles(lib, Props(map[], [("width", VInt(10))]), map[]) == map["width" := VStr("10px")]
  {
    assert NumericalPropKeys[0] == "width";
    NumericalProp(lib, "width", VInt(10));
  }

  /** `maxWidth: '10rem'` stays `10rem`. */
  lemma MaxWidthExample(lib: Lib)
    requires Pinned(lib)
    ensures PropStyles(lib, Props(map[], [("maxWidth", VStr("10rem"))]), map[]) == map["maxWidth" := VStr("10rem")]
  {
    assert NumericalPropKeys[2] == "maxWidth";
    NumericalProp(lib, "maxWidth", VStr("10rem"));
  }

  /** `fs: 20` gives `20px` and `fs: '2rem'` stays `2rem`. */
  lemma FontSizeExamples(lib: Lib)
    requires Pinned(lib)
    ensures PropStyles(lib, Props(map[], [("fs", VInt(20))]), map[]) == map["fontSize" := VStr("20px")]
    ensures PropStyles(lib, Props(map[], [("fs", VStr("2rem"))]), map[]) == map["fontSize" := VStr("2rem")]
  {
    FontSizeProp(lib, VInt(20));
    FontSizeProp(lib, VStr("2rem"));
  }

  /** `flex: true` gives `display: flex` and `flex: false` nothing. */
  lemma FlexExamples(lib: Lib)
    requires Pinned(lib)
    ensures PropStyles(lib, Props(map[], [("flex", VBool(true))]), map[]) == map["display" := VStr("flex")]
    ensures PropStyles(lib, Props(map[], [("flex", VBool(false))]), map[]) == map[]
  {
    assert DisplayPropKeys[0] == "flex";
    DisplayProp(lib, "flex", VBool(true));
    DisplayProp(lib, "flex", VBool(false));
  }

  /** `inlineFlex: true` gives `display: inline-flex`. */
  lemma InlineFlexExample(lib: Lib)
    requires Pinned(lib)
    ensures PropStyles(lib, Props(map[], [("inlineFlex", VBool(true))]), map[]) == map["display" := VStr("inline-flex")]
  {
    assert DisplayPropKeys[3] == "inlineFlex";
    DisplayProp(lib, "inlineFlex", VBool(true));
  }

  /** `inlineBlock: true` gives `display: inline-block`. */
  lemma InlineBlockExample(lib: Lib)
    requires Pinned(lib)
    ensures PropStyles(lib, Props(map[], [("inlineBlock", VBool(true))]), map[]) == map["display" := VStr("inline-block")]
  {
    assert DisplayPropKeys[4] == "inlineBlock";
    DisplayProp(lib, "inlineBlock", VBool(true));
  }

  /** `border: 10` and `border: '10px'` set `borderWidth: 10px`. */
  lemma BorderWidthExamples(lib: Lib)
    requires Pinned(lib)
    ensures PropStyles(lib, Props(map[], [("border", VInt(10))]), map[]) == map["borderWidth" := VStr("10px")]
    ensures PropStyles(lib, Props(map[], [("border", VStr("10px"))]), map[]) == map["borderWidth" := VStr("10px")]
  {
    BorderProp(lib, VInt(10));
    CoreUtils.CssNumericalWithUnit();
    BorderProp(lib, VStr("10px"));
  }

  /** `border: '#fff'` sets `borderColor`. */
  lemma BorderColorExample(lib: Lib)
    requires Pinned(lib)
    ensures PropStyles(lib, Props(map[], [("border", VStr("#fff"))]), map[]) == map["borderColor" := VStr("#fff")]
  {
    HexWhite();
    BorderProp(lib, VStr("#fff"));
  }

  /** `border: '1px solid red'` stays the `border` shorthand. */
  lemma BorderShorthandExample(lib: Lib)
    requires Pinned(lib)
    ensures PropStyles(lib, Props(map[], [("border", VStr("1px solid red"))]), map[])
      == map["border" := VStr("1px solid red")]
  {
    CoreStyles.ShorthandNotWidth();
    CoreStyles.ShorthandNotColor();
    BorderProp(lib, VStr("1px solid red"));
  }

  /** `'#fff'` is a colour and not a number with a unit. */
  lemma HexWhite()
    ensures IsColorLike(VStr("#fff"))
    ensures !CoreUtils.IsCssNumericalValueLike(VStr("#fff"))
  {
    CoreUtils.CssNumericalWithoutUnit();
    assert IsHexColor("#fff");
  }
}
