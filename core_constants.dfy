/**
 * The current engine's static handler table (libs/core/src/constants.ts):
 * generic alias handlers built from `PROP_KEY_MAPPINGS`, then the boolean
 * flag handlers, then the explicit overrides, merged in that spread order.
 */
module CoreConstants {
  import opened JsValue
  import opened Helpers
  import opened Utils
  import opened CoreUtils

  /** `PROP_KEY_MAPPINGS`: prop name to the style key its generic handler writes. */
  function PropKeyMapping(name: string): Option<string>
  {
    match name
    case "display" => Some("display") case "width" => Some("width")
    case "minWidth" => Some("minWidth") case "maxWidth" => Some("maxWidth")
    case "height" => Some("height") case "minHeight" => Some("minHeight")
    case "maxHeight" => Some("maxHeight") case "gap" => Some("gap")
    case "fd" => Some("flexDirection") case "ai" => Some("alignItems")
    case "ac" => Some("alignContent") case "ji" => Some("justifyItems")
    case "jc" => Some("justifyContent") case "ws" => Some("whiteSpace")
    case "p" => Some("padding") case "pt" => Some("paddingTop") case "pr" => Some("paddingRight")
    case "pb" => Some("paddingBottom") case "pl" => Some("paddingLeft")
    case "px" => Some("paddingInline") case "py" => Some("paddingBlock")
    case "m" => Some("margin") case "mt" => Some("marginTop") case "mr" => Some("marginRight")
    case "mb" => Some("marginBottom") case "ml" => Some("marginLeft")
    case "mx" => Some("marginInline") case "my" => Some("marginBlock")
    case "radius" => Some("borderRadius") case "fs" => Some("fontSize")
    case "lh" => Some("lineHeight") case "color" => Some("color")
    case "bg" => Some("background") case "bgs" => Some("backgroundSize")
    case "bgo" => Some("backgroundOrigin") case "fw" => Some("fontWeight")
    case "border" => Some("border") case "borderTop" => Some("borderTop")
    case "borderRight" => Some("borderRight") case "borderBottom" => Some("borderBottom")
    case "borderLeft" => Some("borderLeft")
    case "gtc" => Some("gridTemplateColumns") case "gtr" => Some("gridTemplateRows")
    case "ta" => Some("textAlign") case "position" => Some("position")
    case "top" => Some("top") case "right" => Some("right") case "bottom" => Some("bottom")
    case "left" => Some("left") case "zIndex" => Some("zIndex") case "inset" => Some("inset")
    case "transform" => Some("transform") case "cursor" => Some("cursor")
    case "whiteSpace" => Some("whiteSpace") case "ratio" => Some("aspectRatio")
    case _ => None
  }

  /**
   * What a table entry does, one alternative per kind of handler in the
   * table. `Alias` is the generic handler the `reduce` builds for every
   * `PROP_KEY_MAPPINGS` entry; `FixedFlag` is `transform(key, v, fixed)`,
   * the shape of `column`, `breakWord`, `inline` and `nowrap`; the others are
   * the remaining flag handlers and the overrides.
   */
  datatype Rule =
    | Alias(full: string)
    | FixedFlag(key: string, fixed: string)
    | WrapFlag | ScrollFlag | ShadowFlag(preset: string) | FlexFlag
    | BorderRule(side: Side)
    | PlainRule(key: string)
    | GridTrackRule(key: string)
    | LineHeightRule

  /** `booleanValuePropMappings`. */
  function BooleanRule(name: string): Option<Rule>
  {
    match name
    case "column" => Some(FixedFlag("flexDirection", "column")) case "wrap" => Some(WrapFlag)
    case "breakWord" => Some(FixedFlag("overflowWrap", "break-word")) case "scroll" => Some(ScrollFlag)
    case "shadow" => Some(ShadowFlag(DefaultShadow)) case "flex" => Some(FlexFlag)
    case "inline" => Some(FixedFlag("display", "inline")) case "nowrap" => Some(FixedFlag("whiteSpace", "nowrap"))
    case _ => None
  }

  /** The explicit entries spread last into `CSS_PROP_MAPPINGS`. */
  function OverrideRule(name: string): Option<Rule>
  {
    match name
    case "border" => Some(BorderRule(NoSide)) case "borderTop" => Some(BorderRule(Top))
    case "borderRight" => Some(BorderRule(Right)) case "borderBottom" => Some(BorderRule(Bottom))
    case "borderLeft" => Some(BorderRule(Left))
    case "fw" => Some(PlainRule("fontWeight"))
    case "gtc" => Some(GridTrackRule("gridTemplateColumns")) case "gtr" => Some(GridTrackRule("gridTemplateRows"))
    case "zIndex" => Some(PlainRule("zIndex"))
    case "lh" => Some(LineHeightRule)
    case _ => None
  }

  /** `CSS_PROP_MAPPINGS`: the three spreads in order, a later one replacing an earlier entry. */
  function TableRule(name: string): Option<Rule>
  {
    if OverrideRule(name).Some? then OverrideRule(name)
    else if BooleanRule(name).Some? then BooleanRule(name)
    else if PropKeyMapping(name).Some? then Some(Alias(PropKeyMapping(name).value))
    else None
  }

  /** The value `shadow: true` writes. */
  const DefaultShadow: string := "0 2px 4px 0 rgba(0, 0, 0, 0.1)"

  /** `overflow${typeof v === 'string' ? v.toUpperCase() : ''}`. */
  function ScrollKey(v: Value): string
  {
    "overflow" + (if v.VStr? then AsciiUpper(v.s) else "")
  }

  /** `isNumberLike(v) && toNumber(v) < 8 ? String(v) : toCssValue(v)`. */
  function LineHeightText(lib: Lib, v: Value): string
  {
    if lib.isNumberLike(v) && lib.toNumber(v) < 8 then JsString(v) else lib.cssValue(v, None)
  }

  /** What the handler of a rule returns for the value `v`. */
  function Apply(lib: Lib, rule: Rule, v: Value): HandlerResult
  {
    match rule
    case Alias(full) => Lift(Transform(full, v, Some(lib.cssValue(v, None))))
    case FixedFlag(key, fixed) => Lift(Transform(key, v, Some(fixed)))
    case WrapFlag => Lift(Transform("flexWrap", v, Some(if v == VBool(true) then "wrap" else JsString(v))))
    case ScrollFlag => Lift(Transform(ScrollKey(v), v, Some("auto")))
    case ShadowFlag(preset) => Lift(Transform("boxShadow", v, Some(if v == VBool(true) then preset else JsString(v))))
    case FlexFlag => if v == VBool(true) then Lift(Transform("display", VStr("flex"), None)) else Lift(Transform("flex", v, None))
    case BorderRule(side) => Lift(Border(lib, v, side))
    case PlainRule(key) => Lift(Transform(key, v, None))
    case GridTrackRule(key) => Lift(Transform(key, v, Some(lib.cssValue(v, Some("fr")))))
    case LineHeightRule => Lift(Transform("lineHeight", v, Some(LineHeightText(lib, v))))
  }

  /** The handler of a rule; core handlers ignore the props object. */
  function RuleHandler(lib: Lib, rule: Rule): Handler
  {
    (v: Value, p: Props) => Apply(lib, rule, v)
  }

  /** `CSS_PROP_MAPPINGS` as a handler table. */
  function CssPropMappings(lib: Lib): Mappings
  {
    (name: string) => if TableRule(name).Some? then Some(RuleHandler(lib, TableRule(name).value)) else None
  }

  /** The table's handler for a name is the handler of the rule the name resolves to. */
  lemma HandlerIsRule(lib: Lib, name: string, v: Value, p: Props)
    ensures CssPropMappings(lib)(name).Some? <==> TableRule(name).Some?
    ensures TableRule(name).Some? ==> CssPropMappings(lib)(name).value(v, p) == Apply(lib, TableRule(name).value, v)
  {
  }

  // -------------------------------------------------- resolution by spread order

  /** Aliases that no later spread touches keep the generic handler for their full key. */
  lemma AliasResolution()
    ensures TableRule("p") == Some(Alias("padding"))
    ensures TableRule("ai") == Some(Alias("alignItems"))
    ensures TableRule("radius") == Some(Alias("borderRadius"))
    ensures TableRule("ratio") == Some(Alias("aspectRatio"))
  {
  }

  /** `ws` and `whiteSpace` resolve to the same rule. */
  lemma WhiteSpaceAliases()
    ensures TableRule("ws") == TableRule("whiteSpace") == Some(Alias("whiteSpace"))
  {
  }

  /** The `border*` aliases are replaced by `border` with their side. */
  lemma BorderResolution()
    ensures PropKeyMapping("border").Some? && TableRule("border") == Some(BorderRule(NoSide))
    ensures PropKeyMapping("borderTop").Some? && TableRule("borderTop") == Some(BorderRule(Top))
    ensures PropKeyMapping("borderRight").Some? && TableRule("borderRight") == Some(BorderRule(Right))
  {
  }

  lemma BorderResolutionBottomLeft()
    ensures PropKeyMapping("borderBottom").Some? && TableRule("borderBottom") == Some(BorderRule(Bottom))
    ensures PropKeyMapping("borderLeft").Some? && TableRule("borderLeft") == Some(BorderRule(Left))
  {
  }

  /** `fw`, `zIndex`, `gtc`, `gtr` and `lh` are aliases too, and the overrides replace them. */
  lemma OverrideResolution()
    ensures PropKeyMapping("fw") == Some("fontWeight") && TableRule("fw") == Some(PlainRule("fontWeight"))
    ensures PropKeyMapping("zIndex") == Some("zIndex") && TableRule("zIndex") == Some(PlainRule("zIndex"))
    ensures PropKeyMapping("lh") == Some("lineHeight") && TableRule("lh") == Some(LineHeightRule)
  {
  }

  lemma GridTrackResolution()
    ensures PropKeyMapping("gtc").Some? && TableRule("gtc") == Some(GridTrackRule("gridTemplateColumns"))
    ensures PropKeyMapping("gtr").Some? && TableRule("gtr") == Some(GridTrackRule("gridTemplateRows"))
  {
  }

  /** The boolean flags resolve to their own handlers. */
  lemma FlagResolution()
    ensures TableRule("column") == Some(FixedFlag("flexDirection", "column")) && TableRule("wrap") == Some(WrapFlag)
    ensures TableRule("breakWord") == Some(FixedFlag("overflowWrap", "break-word")) && TableRule("scroll") == Some(ScrollFlag)
  {
  }

  lemma FlagResolutionRest()
    ensures TableRule("shadow") == Some(ShadowFlag(DefaultShadow)) && TableRule("flex") == Some(FlexFlag)
    ensures TableRule("inline") == Some(FixedFlag("display", "inline"))
    ensures TableRule("nowrap") == Some(FixedFlag("whiteSpace", "nowrap"))
  {
  }

  /** Prop names the core tests use that this table does not answer to. */
  lemma MissingTestedKeys()
    ensures TableRule("grid").None? && TableRule("bold").None? && TableRule("thin").None?
  {
  }

  lemma MissingTestedLongKeys()
    ensures TableRule("padding").None? && TableRule("background").None?
  {
  }

  // ------------------------------------------------------- what the rules write

  /**
   * The generic alias handler writes its full key with `toCssValue(v)`,
   * passed through the custom-property rewriter; the falsy values other than
   * `0` give nothing.
   */
  lemma AliasRule(lib: Lib, full: string, v: Value)
    ensures Omitted(v) ==> Apply(lib, Alias(full), v) == Omit
    ensures !Omitted(v) ==> Apply(lib, Alias(full), v) == One(Decl(full, ToColorValue(Some(lib.cssValue(v, None)))))
  {
  }

  /** `fw` and `zIndex` skip `toCssValue`: the value is `String(v)`, rewritten. */
  lemma PlainRuleWrites(lib: Lib, key: string, v: Value)
    ensures Omitted(v) ==> Apply(lib, PlainRule(key), v) == Omit
    ensures !Omitted(v) ==> Apply(lib, PlainRule(key), v) == One(Decl(key, ToColorValue(Some(JsString(v)))))
  {
  }

  /** `gtc` and `gtr` write grid tracks with the `fr` unit. */
  lemma GridTrackRuleWrites(lib: Lib, key: string, v: Value)
    ensures Omitted(v) ==> Apply(lib, GridTrackRule(key), v) == Omit
    ensures !Omitted(v) ==> Apply(lib, GridTrackRule(key), v) == One(Decl(key, ToColorValue(Some(lib.cssValue(v, Some("fr"))))))
  {
  }

  /** `lh`: a number-like value below 8 is a unitless ratio; anything else is a length. */
  lemma LineHeightRuleWrites(lib: Lib, v: Value)
    requires !Omitted(v)
    ensures lib.isNumberLike(v) && lib.toNumber(v) < 8 ==>
      Apply(lib, LineHeightRule, v) == One(Decl("lineHeight", ToColorValue(Some(JsString(v)))))
    ensures !(lib.isNumberLike(v) && lib.toNumber(v) < 8) ==>
      Apply(lib, LineHeightRule, v) == One(Decl("lineHeight", ToColorValue(Some(lib.cssValue(v, None)))))
  {
  }

  /** A text in which `-` is never followed by `-` holds no custom-property name. */
  lemma NoVarIn(s: string)
    requires forall i | 0 <= i < |s| - 1 :: !(s[i] == '-' && s[i + 1] == '-')
    ensures !HasCssVar(s)
  {
    HasCssVarCharacterization(s);
  }

  /** The default shadow has no dash at all. */
  lemma NoVarInShadow()
    ensures !HasCssVar(DefaultShadow)
  {
    assert forall i | 0 <= i < |DefaultShadow| :: DefaultShadow[i] != '-';
    NoVarIn(DefaultShadow);
  }

  /**
   * A fixed-value flag writes its fixed value for any kept value, and nothing
   * for false, null, undefined or `''`.
   */
  lemma FixedFlagWrites(lib: Lib, key: string, fixed: string, v: Value)
    requires fixed != "" && !HasCssVar(fixed)
    ensures Omitted(v) ==> Apply(lib, FixedFlag(key, fixed), v) == Omit
    ensures !Omitted(v) ==> Apply(lib, FixedFlag(key, fixed), v) == One(Decl(key, fixed))
  {
  }

  /** The fixed values of `column`, `breakWord`, `inline` and `nowrap` pass the rewriter unchanged. */
  lemma FixedValuesHaveNoVar()
    ensures !HasCssVar("column") && !HasCssVar("break-word")
  {
    NoVarIn("column");
    NoVarIn("break-word");
  }

  lemma FixedValuesHaveNoVarRest()
    ensures !HasCssVar("inline") && !HasCssVar("nowrap")
  {
    NoVarIn("inline");
    NoVarIn("nowrap");
  }

  /** `wrap`: `true` gives `wrap`, another kept value gives `String(v)`. */
  lemma WrapFlagWrites(lib: Lib, v: Value)
    ensures Apply(lib, WrapFlag, VBool(true)) == One(Decl("flexWrap", "wrap"))
    ensures !Omitted(v) && v != VBool(true) ==>
      Apply(lib, WrapFlag, v) == One(Decl("flexWrap", ToColorValue(Some(JsString(v)))))
    ensures Omitted(v) ==> Apply(lib, WrapFlag, v) == Omit
  {
    NoVarIn("wrap");
  }

  /**
   * `shadow: true` gives the preset shadow (which the rewriter leaves alone:
   * see `NoVarInShadow`); another kept value is written as `String(v)`.
   */
  lemma ShadowFlagWrites(lib: Lib, preset: string, v: Value)
    requires preset != "" && !HasCssVar(preset)
    ensures Apply(lib, ShadowFlag(preset), VBool(true)) == One(Decl("boxShadow", preset))
    ensures !Omitted(v) && v != VBool(true) ==>
      Apply(lib, ShadowFlag(preset), v) == One(Decl("boxShadow", ToColorValue(Some(JsString(v)))))
    ensures Omitted(v) ==> Apply(lib, ShadowFlag(preset), v) == Omit
  {
  }

  /** `scroll`: `true` gives `overflow: auto`, a string `s` gives `overflow` + `s` upper-cased. */
  lemma ScrollFlagWrites(lib: Lib, v: Value)
    ensures Apply(lib, ScrollFlag, VBool(true)) == One(Decl("overflow", "auto"))
    ensures v.VStr? && v.s != "" ==> Apply(lib, ScrollFlag, v) == One(Decl("overflow" + AsciiUpper(v.s), "auto"))
    ensures Omitted(v) ==> Apply(lib, ScrollFlag, v) == Omit
  {
    NoVarIn("auto");
  }

  /** `scroll: 'x'` and `scroll: 'y'` give `overflowX` and `overflowY`. */
  lemma ScrollAxes(lib: Lib)
    ensures Apply(lib, ScrollFlag, VStr("x")) == One(Decl("overflowX", "auto"))
    ensures Apply(lib, ScrollFlag, VStr("y")) == One(Decl("overflowY", "auto"))
  {
    ScrollFlagWrites(lib, VStr("x"));
    ScrollFlagWrites(lib, VStr("y"));
    assert AsciiUpper("x") == "X";
    assert AsciiUpper("y") == "Y";
  }

  /** `flex: true` gives `display: flex`; any other value is a `flex` shorthand, so `false` gives nothing. */
  lemma FlexFlagWrites(lib: Lib, v: Value)
    ensures Apply(lib, FlexFlag, VBool(true)) == One(Decl("display", "flex"))
    ensures v != VBool(true) ==> Apply(lib, FlexFlag, v) == Lift(Transform("flex", v, None))
    ensures Apply(lib, FlexFlag, VBool(false)) == Omit
  {
    NoVarIn("flex");
  }
}
