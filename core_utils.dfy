/**
 * The current engine's helpers (libs/core/src/utils.ts): the result
 * constructor `transform`, the `border` disambiguation, and the dispatcher
 * `handleMappings`, which builds a fresh style object prop by prop.
 */
module CoreUtils {
  import opened JsValue
  import opened Helpers
  import opened Utils

  /** `{ key, value }`: one style declaration. */
  datatype Decl = Decl(key: string, val: string)

  /** What a handler returns: `null`, one declaration, or an array whose `null` slots are skipped. */
  datatype HandlerResult = Omit | One(decl: Decl) | Many(decls: seq<Option<Decl>>)

  /** A mapping handler: `(value, props) => result`. */
  type Handler = (Value, Props) -> HandlerResult

  /** A handler table, read as a lookup: `None` where the table has no (or an `undefined`) entry. */
  type Mappings = string -> Option<Handler>

  /** The values `transform` drops: falsy, except the number `0`. */
  predicate Omitted(v: Value)
  {
    !Truthy(v) && v != VInt(0)
  }

  /**
   * `transform(key, value, strValue?)`: `null` when the value is falsy and not
   * `0`; otherwise `{ key, value: toColorValue(strValue ?? String(value)) }`.
   */
  function Transform(key: string, value: Value, strValue: Option<string>): (r: Option<Decl>)
    ensures r.None? <==> value == VBool(false) || value == VNull || value == VUndef || value == VStr("")
    ensures r.Some? ==> r.value.key == key
  {
    if Omitted(value) then None
    else Some(Decl(key, ToColorValue(Some(if strValue.Some? then strValue.value else JsString(value)))))
  }

  /** Lifts a single optional declaration to a handler result. */
  function Lift(d: Option<Decl>): HandlerResult
  {
    if d.Some? then One(d.value) else Omit
  }

  /**
   * Omission depends on the value alone; a kept result carries the override
   * string, or `String(value)`, through the custom-property rewriter.
   */
  lemma TransformKept(key: string, value: Value, strValue: Option<string>)
    requires !Omitted(value)
    ensures Transform(key, value, strValue)
      == Some(Decl(key, ToColorValue(Some(if strValue.Some? then strValue.value else JsString(value)))))
  {
  }

  /** `transform(k, 0)` is kept and its value is `"0"`. */
  lemma TransformZero(key: string)
    ensures Transform(key, VInt(0), None) == Some(Decl(key, "0"))
  {
    assert JsString(VInt(0)) == "0";
  }

  /** `/^-?\d+(\.\d+)?[a-z]+$/i`: a number with a unit, such as `10px` or `-1.5em`. */
  predicate IsCssNumericalText(s: string)
  {
    UnsignedText(if |s| > 0 && s[0] == '-' then s[1..] else s)
  }

  /** `\d+(\.\d+)?[a-z]+`: a digit run, then the tail. */
  predicate UnsignedText(t: string)
  {
    var i := DigitRun(t);
    i >= 1 && TailText(t[i..])
  }

  /** `(\.\d+)?[a-z]+`: an optional fraction, then the unit. */
  predicate TailText(u: string)
  {
    if u != [] && u[0] == '.' then
      var j := DigitRun(u[1..]);
      j >= 1 && IsLetters(u[1 + j..])
    else IsLetters(u)
  }

  /** Length of the run of ASCII digits at the start of `s`. */
  function DigitRun(s: string): (n: nat)
    ensures n <= |s|
    ensures forall i | 0 <= i < n :: IsDigit(s[i])
    ensures n < |s| ==> !IsDigit(s[n])
  {
    if s != [] && IsDigit(s[0]) then 1 + DigitRun(s[1..]) else 0
  }

  /** A digit run followed by a non-digit is measured exactly. */
  lemma {:induction false} DigitRunOf(d: string, rest: string)
    requires AllDigits(d)
    requires rest == [] || !IsDigit(rest[0])
    ensures DigitRun(d + rest) == |d|
    decreases |d|
  {
    if d != [] {
      assert (d + rest)[1..] == d[1..] + rest;
      DigitRunOf(d[1..], rest);
    } else {
      assert d + rest == rest;
    }
  }

  predicate IsLetters(s: string)
  {
    |s| >= 1 && forall i | 0 <= i < |s| :: IsAsciiLetter(s[i])
  }

  /** `isCssNumericalValueLike(val)`: a string matching the pattern above. */
  predicate IsCssNumericalValueLike(v: Value)
  {
    v.VStr? && IsCssNumericalText(v.s)
  }

  /** `(\.\d+)?` as a shape: nothing, or `.` followed by one or more digits. */
  ghost predicate FractionForm(frac: string)
  {
    frac == "" || (|frac| >= 2 && frac[0] == '.' && AllDigits(frac[1..]))
  }

  /**
   * The pattern read as a shape: an optional `-`, one or more digits, an
   * optional fraction, then one or more ASCII letters (either case, by the
   * `i` flag).
   */
  ghost predicate NumericalForm(s: string, sign: string, whole: string, frac: string, unit: string)
  {
    && (sign == "" || sign == "-")
    && |whole| >= 1 && AllDigits(whole)
    && FractionForm(frac)
    && IsLetters(unit)
    && s == sign + whole + frac + unit
  }

  lemma TailSound(u: string)
    requires TailText(u)
    ensures exists frac, unit :: FractionForm(frac) && IsLetters(unit) && u == frac + unit
  {
    if u != [] && u[0] == '.' {
      var j := DigitRun(u[1..]);
      var frac := u[..1 + j];
      assert frac[1..] == u[1..][..j];
      assert u == frac + u[1 + j..];
      assert FractionForm(frac);
    } else {
      assert u == "" + u;
      assert FractionForm("");
    }
  }

  lemma TailComplete(frac: string, unit: string)
    requires FractionForm(frac) && IsLetters(unit)
    ensures TailText(frac + unit)
    ensures !IsDigit((frac + unit)[0])
  {
    var u := frac + unit;
    if frac != "" {
      var d := frac[1..];
      assert u[1..] == d + unit;
      DigitRunOf(d, unit);
      assert (d + unit)[|d|..] == unit;
      assert u[1 + |d|..] == unit;
    } else {
      assert u == unit;
    }
  }

  /** `\d+(\.\d+)?[a-z]+` as a shape. */
  ghost predicate UnsignedForm(t: string, whole: string, frac: string, unit: string)
  {
    |whole| >= 1 && AllDigits(whole) && FractionForm(frac) && IsLetters(unit) && t == whole + frac + unit
  }

  lemma UnsignedSound(t: string)
    requires UnsignedText(t)
    ensures exists whole, frac, unit :: UnsignedForm(t, whole, frac, unit)
  {
    var i := DigitRun(t);
    TailSound(t[i..]);
    var frac, unit :| FractionForm(frac) && IsLetters(unit) && t[i..] == frac + unit;
    assert t == t[..i] + frac + unit;
    assert UnsignedForm(t, t[..i], frac, unit);
  }

  lemma UnsignedComplete(t: string, whole: string, frac: string, unit: string)
    requires UnsignedForm(t, whole, frac, unit)
    ensures UnsignedText(t)
  {
    TailComplete(frac, unit);
    assert t == whole + (frac + unit);
    DigitRunOf(whole, frac + unit);
    assert t[|whole|..] == frac + unit;
  }

  /** Every text the test accepts has the shape of the pattern. */
  lemma NumericalSound(s: string)
    requires IsCssNumericalText(s)
    ensures exists sign, whole, frac, unit :: NumericalForm(s, sign, whole, frac, unit)
  {
    if |s| > 0 && s[0] == '-' {
      SignedSound(s, "-", s[1..]);
    } else {
      SignedSound(s, "", s);
    }
  }

  lemma SignedSound(s: string, sign: string, t: string)
    requires sign == "" || sign == "-"
    requires s == sign + t && UnsignedText(t)
    ensures exists sign, whole, frac, unit :: NumericalForm(s, sign, whole, frac, unit)
  {
    UnsignedSound(t);
    var whole, frac, unit :| UnsignedForm(t, whole, frac, unit);
    assert sign + whole + frac + unit == sign + t;
    assert NumericalForm(s, sign, whole, frac, unit);
  }

  /** Every text of the pattern's shape is accepted. */
  lemma NumericalComplete(s: string, sign: string, whole: string, frac: string, unit: string)
    requires NumericalForm(s, sign, whole, frac, unit)
    ensures IsCssNumericalText(s)
  {
    var t := whole + frac + unit;
    assert s == sign + t;
    assert UnsignedForm(t, whole, frac, unit);
    UnsignedComplete(t, whole, frac, unit);
    if sign == "" {
      assert s == t;
    } else {
      assert s == "-" + t;
      assert s[1..] == t;
    }
  }

  /** `isCssNumericalValueLike` holds exactly for strings of the pattern's shape. */
  lemma CssNumericalCharacterization(v: Value)
    ensures IsCssNumericalValueLike(v) <==>
      v.VStr? && exists sign, whole, frac, unit :: NumericalForm(v.s, sign, whole, frac, unit)
  {
    if v.VStr? {
      if IsCssNumericalText(v.s) {
        NumericalSound(v.s);
      }
      if exists sign, whole, frac, unit :: NumericalForm(v.s, sign, whole, frac, unit) {
        var sign, whole, frac, unit :| NumericalForm(v.s, sign, whole, frac, unit);
        NumericalComplete(v.s, sign, whole, frac, unit);
      }
    }
  }

  /** A number with a unit is numerical text. */
  lemma CssNumericalWithUnit()
    ensures IsCssNumericalValueLike(VStr("10px"))
    ensures IsCssNumericalValueLike(VStr("-1.5em"))
  {
    PixelsAreNumerical();
    DecimalEmsAreNumerical();
  }

  lemma PixelsAreNumerical()
    ensures IsCssNumericalText("10px")
  {
    assert DigitRun("10px") == 2;
    assert "10px"[2..] == "px";
  }

  lemma DecimalEmsAreNumerical()
    ensures IsCssNumericalText("-1.5em")
  {
    assert "-1.5em"[1..] == "1.5em";
    assert DigitRun("1.5em") == 1;
    assert "1.5em"[2..] == "5em";
    assert DigitRun("5em") == 1;
    assert "5em"[1..] == "em";
  }

  /** A bare number, a shorthand and a colour are not. */
  lemma CssNumericalWithoutUnit()
    ensures !IsCssNumericalValueLike(VStr("10"))
    ensures !IsCssNumericalValueLike(VStr("1px solid red"))
    ensures !IsCssNumericalValueLike(VStr("#fff"))
  {
    assert DigitRun("10") == 2;
    assert DigitRun("1px solid red") == 1;
    assert !IsLetters("px solid red") by { assert !IsAsciiLetter("px solid red"[2]); }
    assert DigitRun("#fff") == 0;
  }

  /** The side a directional border handler passes to `border`. */
  datatype Side = NoSide | Top | Right | Bottom | Left

  /** `position ? `border${position}` : 'border'`. */
  function BorderKey(side: Side): string
  {
    match side
    case NoSide => "border"
    case Top => "borderTop"
    case Right => "borderRight"
    case Bottom => "borderBottom"
    case Left => "borderLeft"
  }

  /** `${borderPosition}Width`, spelled out. */
  function WidthKey(side: Side): string
  {
    match side
    case NoSide => "borderWidth"
    case Top => "borderTopWidth"
    case Right => "borderRightWidth"
    case Bottom => "borderBottomWidth"
    case Left => "borderLeftWidth"
  }

  /** `${borderPosition}Color`, spelled out. */
  function ColorKey(side: Side): string
  {
    match side
    case NoSide => "borderColor"
    case Top => "borderTopColor"
    case Right => "borderRightColor"
    case Bottom => "borderBottomColor"
    case Left => "borderLeftColor"
  }

  /** The spelled-out width key is the template string. */
  lemma WidthKeyIsTemplate(side: Side)
    ensures WidthKey(side) == BorderKey(side) + "Width"
  {
    var b := BorderKey(side);
    assert |WidthKey(side)| == |b + "Width"|;
    forall i | 0 <= i < |WidthKey(side)| ensures WidthKey(side)[i] == (b + "Width")[i] {
      if i < |b| { assert WidthKey(side)[..|b|] == b; assert WidthKey(side)[..|b|][i] == b[i]; }
    }
  }

  /** The spelled-out colour key is the template string. */
  lemma ColorKeyIsTemplate(side: Side)
    ensures ColorKey(side) == BorderKey(side) + "Color"
  {
    var b := BorderKey(side);
    assert |ColorKey(side)| == |b + "Color"|;
    forall i | 0 <= i < |ColorKey(side)| ensures ColorKey(side)[i] == (b + "Color")[i] {
      if i < |b| { assert ColorKey(side)[..|b|] == b; assert ColorKey(side)[..|b|][i] == b[i]; }
    }
  }

  /**
   * `border(value, position?)`: a number-like value or a number with a unit
   * gives `border{Pos}Width` through `toCssValue`; otherwise a colour gives
   * `border{Pos}Color` with the value unchanged; anything else goes through
   * `transform('border{Pos}', value)`.
   */
  function Border(lib: Lib, value: Value, side: Side): (r: Option<Decl>)
    ensures r.None? ==> Omitted(value)
    ensures r.Some? ==> r.value.key in {WidthKey(side), ColorKey(side), BorderKey(side)}
    ensures r.Some? && r.value.key == ColorKey(side) ==> value == VStr(r.value.val) && IsColorLike(value)
    ensures r.Some? && r.value.key == WidthKey(side) ==> r.value.val == lib.cssValue(value, None)
    ensures !lib.isNumberLike(value) && !IsCssNumericalValueLike(value) && IsColorLike(value) ==>
      value.VStr? && r == Some(Decl(ColorKey(side), value.s))
  {
    KeysDistinct(side);
    if lib.isNumberLike(value) || IsCssNumericalValueLike(value) then
      Some(Decl(WidthKey(side), lib.cssValue(value, None)))
    else if IsColorLike(value) then
      Some(Decl(ColorKey(side), value.s))
    else
      Transform(BorderKey(side), value, None)
  }

  /** The three keys of one side differ: the shorthand is shorter, and width and colour end differently. */
  lemma KeysDistinct(side: Side)
    ensures |BorderKey(side)| < |WidthKey(side)| == |ColorKey(side)|
    ensures WidthKey(side)[|WidthKey(side)| - 1] == 'h' && ColorKey(side)[|ColorKey(side)| - 1] == 'r'
  {
  }

  /** A value that is both number-like and a colour is a width: the width test comes first. */
  lemma BorderWidthBeforeColor(lib: Lib, value: Value, side: Side)
    requires lib.isNumberLike(value) || IsCssNumericalValueLike(value)
    ensures Border(lib, value, side) == Some(Decl(WidthKey(side), lib.cssValue(value, None)))
  {
  }

  /** A plain shorthand string (not a width, not a colour, no custom property) is written as it is. */
  lemma BorderShorthandKept(lib: Lib, s: string, side: Side)
    requires s != "" && !HasCssVar(s)
    requires !lib.isNumberLike(VStr(s)) && !IsCssNumericalValueLike(VStr(s)) && !IsColorLike(VStr(s))
    ensures Border(lib, VStr(s), side) == Some(Decl(BorderKey(side), s))
  {
  }

  /** A value that is neither a width nor a colour falls back to the shorthand key, filtered by `transform`. */
  lemma BorderFallback(lib: Lib, value: Value, side: Side)
    requires !lib.isNumberLike(value) && !IsCssNumericalValueLike(value) && !IsColorLike(value)
    ensures Border(lib, value, side) == Transform(BorderKey(side), value, None)
  {
  }

  // ------------------------------------------------------------ dispatching

  /** `style[v.key] = v.value` for every non-null element, in array order. */
  function WriteDecls(style: map<string, string>, ds: seq<Option<Decl>>): map<string, string>
    decreases |ds|
  {
    if ds == [] then style
    else
      var before := WriteDecls(style, ds[..|ds| - 1]);
      var last := ds[|ds| - 1];
      if last.Some? then before[last.value.key := last.value.val] else before
  }

  /** Writes one handler result into `style`. */
  function WriteResult(style: map<string, string>, result: HandlerResult): map<string, string>
  {
    match result
    case Omit => style
    case One(d) => style[d.key := d.val]
    case Many(ds) => WriteDecls(style, ds)
  }

  /** The result of the handler for one prop, or `Omit` when there is no handler. */
  function Dispatch(props: Props, mappings: Mappings, field: (string, Value)): HandlerResult
  {
    match mappings(field.0)
    case Some(h) => h(field.1, props)
    case None => Omit
  }

  /** Writes the handler results of `fields`, in order, into `style`. */
  function WriteFields(style: map<string, string>, props: Props, mappings: Mappings,
                       fields: seq<(string, Value)>): map<string, string>
    decreases |fields|
  {
    if fields == [] then style
    else WriteResult(WriteFields(style, props, mappings, fields[..|fields| - 1]),
                     Dispatch(props, mappings, fields[|fields| - 1]))
  }

  /** What `handleMappings(props, mappings)` returns. */
  function MappedStyle(props: Props, mappings: Mappings): map<string, string>
  {
    WriteFields(map[], props, mappings, props.fields)
  }

  /** `handleMappings(props, mappings)`: a fresh style object filled prop by prop. */
  method HandleMappings(props: Props, mappings: Mappings) returns (style: map<string, string>)
    ensures style == MappedStyle(props, mappings)
  {
    style := map[];
    var i := 0;
    while i < |props.fields|
      invariant 0 <= i <= |props.fields|
      invariant style == WriteFields(map[], props, mappings, props.fields[..i])
    {
      assert props.fields[..i + 1][..i] == props.fields[..i];
      var handler := mappings(props.fields[i].0);
      if handler.Some? {
        var result := handler.value(props.fields[i].1, props);
        match result {
          case Omit =>
          case One(d) =>
            style := style[d.key := d.val];
          case Many(ds) =>
            ghost var start := style;
            var j := 0;
            while j < |ds|
              invariant 0 <= j <= |ds|
              invariant style == WriteDecls(start, ds[..j])
            {
              assert ds[..j + 1][..j] == ds[..j];
              if ds[j].Some? {
                style := style[ds[j].value.key := ds[j].value.val];
              }
              j := j + 1;
            }
            assert ds[..j] == ds;
        }
      }
      i := i + 1;
    }
    assert props.fields[..i] == props.fields;
  }

  // ------------------------------------------------------------- properties

  /** The keys one prop writes, on its own. */
  function Written(props: Props, mappings: Mappings, field: (string, Value)): map<string, string>
  {
    WriteResult(map[], Dispatch(props, mappings, field))
  }

  lemma {:induction false} WriteDeclsOverSeed(style: map<string, string>, ds: seq<Option<Decl>>)
    ensures WriteDecls(style, ds) == style + WriteDecls(map[], ds)
    decreases |ds|
  {
    if ds != [] {
      WriteDeclsOverSeed(style, ds[..|ds| - 1]);
    }
  }

  lemma WriteResultOverSeed(style: map<string, string>, result: HandlerResult)
    ensures WriteResult(style, result) == style + WriteResult(map[], result)
  {
    if result.Many? {
      WriteDeclsOverSeed(style, result.decls);
    }
  }

  /**
   * Writing into a seeded object is the seed overwritten by what a fresh
   * object would receive.
   */
  lemma {:induction false} WriteFieldsOverSeed(style: map<string, string>, props: Props,
                                               mappings: Mappings, fields: seq<(string, Value)>)
    ensures WriteFields(style, props, mappings, fields) == style + WriteFields(map[], props, mappings, fields)
    decreases |fields|
  {
    if fields != [] {
      var init := fields[..|fields| - 1];
      var r := Dispatch(props, mappings, fields[|fields| - 1]);
      WriteFieldsOverSeed(style, props, mappings, init);
      WriteResultOverSeed(WriteFields(style, props, mappings, init), r);
      WriteResultOverSeed(WriteFields(map[], props, mappings, init), r);
    }
  }

  /** A prop with no handler, or whose handler returns `null`, contributes nothing. */
  lemma SilentPropChangesNothing(style: map<string, string>, props: Props, mappings: Mappings,
                                 fields: seq<(string, Value)>, field: (string, Value))
    requires mappings(field.0).None? || mappings(field.0).value(field.1, props) == Omit
    ensures WriteFields(style, props, mappings, fields + [field]) == WriteFields(style, props, mappings, fields)
  {
    assert (fields + [field])[..|fields|] == fields;
  }

  /** Every key of the result was seeded or written by some prop. */
  lemma {:induction false} KeysComeFromProps(style: map<string, string>, props: Props,
                                             mappings: Mappings, fields: seq<(string, Value)>, k: string)
    ensures k in WriteFields(style, props, mappings, fields) <==>
      k in style || exists i | 0 <= i < |fields| :: k in Written(props, mappings, fields[i])
  {
    WriteFieldsOverSeed(style, props, mappings, fields);
    KeysOfFresh(props, mappings, fields, k);
  }

  lemma {:induction false} KeysOfFresh(props: Props, mappings: Mappings,
                                       fields: seq<(string, Value)>, k: string)
    ensures k in WriteFields(map[], props, mappings, fields) <==>
      exists i | 0 <= i < |fields| :: k in Written(props, mappings, fields[i])
    decreases |fields|
  {
    if fields != [] {
      var n := |fields| - 1;
      var init := fields[..n];
      KeysOfFresh(props, mappings, init, k);
      WriteResultOverSeed(WriteFields(map[], props, mappings, init), Dispatch(props, mappings, fields[n]));
      if exists i | 0 <= i < |fields| :: k in Written(props, mappings, fields[i]) {
        var i :| 0 <= i < |fields| && k in Written(props, mappings, fields[i]);
        if i < n { assert init[i] == fields[i]; }
      }
      if exists i | 0 <= i < n :: k in Written(props, mappings, init[i]) {
        var i :| 0 <= i < n && k in Written(props, mappings, init[i]);
        assert fields[i] == init[i];
      }
    }
  }

  /**
   * Last write wins: when prop `i` writes `k` and no later prop does, the
   * result holds prop `i`'s value for `k`.
   */
  lemma {:induction false} LastWriteWins(style: map<string, string>, props: Props, mappings: Mappings,
                                         fields: seq<(string, Value)>, i: nat, k: string)
    requires i < |fields|
    requires k in Written(props, mappings, fields[i])
    requires forall j | i < j < |fields| :: k !in Written(props, mappings, fields[j])
    ensures k in WriteFields(style, props, mappings, fields)
    ensures WriteFields(style, props, mappings, fields)[k] == Written(props, mappings, fields[i])[k]
    decreases |fields|
  {
    var n := |fields| - 1;
    var init := fields[..n];
    WriteResultOverSeed(WriteFields(style, props, mappings, init), Dispatch(props, mappings, fields[n]));
    if i < n {
      forall j | i < j < n ensures k !in Written(props, mappings, init[j]) {
        assert init[j] == fields[j];
      }
      LastWriteWins(style, props, mappings, init, i, k);
    }
  }
}
