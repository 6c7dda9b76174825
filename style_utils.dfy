/**
 * The older engine's helpers (libs/style/src/utils.ts). A handler returns a
 * `[key, value]` pair or `null`; `handleMappings` writes the pairs into a
 * caller-supplied target object, prop by prop.
 *
 * Unlike the current engine, the value of a pair is stored as it is: `format`
 * without a text and `changeless` keep the raw prop value, so the target maps
 * keys to JavaScript values rather than to strings.
 */
module StyleUtils {
  import opened JsValue
  import opened Helpers
  import opened Utils
  import CoreUtils

  /** A `[key, value]` pair returned by a handler. */
  datatype Entry = Entry(key: string, val: Value)

  /** A prop handler: the prop's value and all props to a pair or `null` (`None`). */
  type SHandler = (Value, Props) -> Option<Entry>

  /** A mapping table as a lookup: `None` for a name with no handler. */
  type SMappings = string -> Option<SHandler>

  /**
   * `format(key, value, str?)`: `null` for `null`, `undefined` and `false`,
   * otherwise `[key, str ?? value]`.
   */
  function Format(key: string, value: Value, str: Option<string>): (r: Option<Entry>)
    ensures r.None? <==> IsNullOrUndefined(value) || value == VBool(false)
    ensures r.Some? ==> r.value.key == key
    ensures r.Some? && str.Some? ==> r.value.val == VStr(str.value)
    ensures r.Some? && str.None? ==> r.value.val == value
  {
    if IsNullOrUndefined(value) || value == VBool(false) then None
    else Some(Entry(key, if str.Some? then VStr(str.value) else value))
  }

  /** `format` keeps the falsy values `''` and `0`, unlike the current engine's `transform`. */
  lemma FormatKeepsEmptyAndZero(key: string)
    ensures Format(key, VStr(""), None) == Some(Entry(key, VStr("")))
    ensures Format(key, VInt(0), None) == Some(Entry(key, VInt(0)))
    ensures Format(key, VBool(true), None) == Some(Entry(key, VBool(true)))
    ensures !CoreUtils.Transform(key, VStr(""), None).Some?
  {
  }

  // ------------------------------------------------------- table generators

  /**
   * `generateStyleMapping(keys, handler)`: the `reduce` over `keys` that sets,
   * for each `prop`, a handler calling `handler(prop, value)`.
   */
  function GenerateStyleMapping(keys: seq<string>, handler: (string, Value) -> Option<Entry>): (m: SMappings)
    decreases |keys|
  {
    if keys == [] then (name: string) => None
    else
      var prev := GenerateStyleMapping(keys[..|keys| - 1], handler);
      var prop := keys[|keys| - 1];
      (name: string) => if name == prop then Some((v: Value, p: Props) => handler(prop, v)) else prev(name)
  }

  /** The generated table has a handler for exactly the listed names, each calling `handler` with its own name. */
  lemma {:induction false} GeneratedKeys(keys: seq<string>, handler: (string, Value) -> Option<Entry>,
                                         name: string, v: Value, p: Props)
    ensures GenerateStyleMapping(keys, handler)(name).Some? <==> name in keys
    ensures name in keys ==> GenerateStyleMapping(keys, handler)(name).value(v, p) == handler(name, v)
    decreases |keys|
  {
    if keys != [] {
      var init := keys[..|keys| - 1];
      GeneratedKeys(init, handler, name, v, p);
      assert keys == init + [keys[|keys| - 1]];
    }
  }

  /** The per-key handlers of `display`, `numerical` and `changeless`. */
  function DisplayHandler(lib: Lib): (string, Value) -> Option<Entry>
  {
    (prop: string, v: Value) => Format("display", v, Some(lib.toSnakeCase(prop)))
  }

  function NumericalHandler(lib: Lib): (string, Value) -> Option<Entry>
  {
    (prop: string, v: Value) => Format(prop, v, Some(lib.cssValue(v, None)))
  }

  function ChangelessHandler(): (string, Value) -> Option<Entry>
  {
    (prop: string, v: Value) => Some(Entry(prop, v))
  }

  /** `display(keys)`: each key `k` emits `['display', toSnakeCase(k)]` unless the value is omitted by `format`. */
  function Display(lib: Lib, keys: seq<string>): SMappings
  {
    GenerateStyleMapping(keys, DisplayHandler(lib))
  }

  /** `numerical(keys)`: each key `k` emits `[k, toCssValue(value)]` unless the value is omitted by `format`. */
  function Numerical(lib: Lib, keys: seq<string>): SMappings
  {
    GenerateStyleMapping(keys, NumericalHandler(lib))
  }

  /** `changeless(keys)`: each key `k` emits `[k, value]`, whatever the value. */
  function Changeless(keys: seq<string>): SMappings
  {
    GenerateStyleMapping(keys, ChangelessHandler())
  }

  /** A `display` handler emits the snake-cased key name, and nothing for `null`, `undefined` or `false`. */
  lemma DisplayEmits(lib: Lib, keys: seq<string>, name: string, v: Value, p: Props)
    requires name in keys
    ensures Display(lib, keys)(name).Some?
    ensures Display(lib, keys)(name).value(v, p)
      == if IsNullOrUndefined(v) || v == VBool(false) then None
         else Some(Entry("display", VStr(lib.toSnakeCase(name))))
  {
    GeneratedKeys(keys, DisplayHandler(lib), name, v, p);
  }

  /** A `numerical` handler emits its own key with the CSS length, and nothing for `null`, `undefined` or `false`. */
  lemma NumericalEmits(lib: Lib, keys: seq<string>, name: string, v: Value, p: Props)
    requires name in keys
    ensures Numerical(lib, keys)(name).Some?
    ensures Numerical(lib, keys)(name).value(v, p)
      == if IsNullOrUndefined(v) || v == VBool(false) then None
         else Some(Entry(name, VStr(lib.cssValue(v, None))))
  {
    GeneratedKeys(keys, NumericalHandler(lib), name, v, p);
  }

  /** A `changeless` handler never omits: it emits its own key and the value as it is, `null` included. */
  lemma ChangelessEmits(keys: seq<string>, name: string, v: Value, p: Props)
    requires name in keys
    ensures Changeless(keys)(name).Some?
    ensures Changeless(keys)(name).value(v, p) == Some(Entry(name, v))
  {
    GeneratedKeys(keys, ChangelessHandler(), name, v, p);
  }

  // ----------------------------------------------------------------- border

  /**
   * `border(value)`: `null` for `null` and `undefined`; a number-like value or
   * a number with a unit gives `borderWidth` through `toCssValue`; otherwise a
   * colour gives `borderColor` unchanged; anything else is the `border`
   * shorthand as `String(value)`.
   */
  function Border(lib: Lib, value: Value): (r: Option<Entry>)
    ensures r.None? <==> IsNullOrUndefined(value)
    ensures r.Some? ==> r.value.key in {"borderWidth", "borderColor", "border"}
    ensures r.Some? && r.value.key == "borderWidth" <==>
      !IsNullOrUndefined(value) && (lib.isNumberLike(value) || CoreUtils.IsCssNumericalValueLike(value))
    ensures r.Some? && r.value.key == "borderWidth" ==> r.value.val == VStr(lib.cssValue(value, None))
    ensures r.Some? && r.value.key == "borderColor" ==> r.value.val == value && IsColorLike(value)
    ensures r.Some? && r.value.key == "border" ==> r.value.val == VStr(JsString(value)) && !IsColorLike(value)
  {
    if IsNullOrUndefined(value) then None
    else if lib.isNumberLike(value) || CoreUtils.IsCssNumericalValueLike(value) then
      Some(Entry("borderWidth", VStr(lib.cssValue(value, None))))
    else if IsColorLike(value) then Some(Entry("borderColor", value))
    else Some(Entry("border", VStr(JsString(value))))
  }

  /**
   * Unlike the current engine's `border`, a falsy value that is not `null` or
   * `undefined` is not dropped: `false` becomes the shorthand `'false'`.
   */
  lemma BorderKeepsFalse(lib: Lib)
    requires !lib.isNumberLike(VBool(false))
    ensures Border(lib, VBool(false)) == Some(Entry("border", VStr("false")))
    ensures CoreUtils.Border(lib, VBool(false), CoreUtils.NoSide) == None
  {
  }

  // ------------------------------------------------------------- dispatching

  /** The object a `handleMappings` call writes into. */
  class Target {
    var entries: map<string, Value>

    constructor (seed: map<string, Value>)
      ensures entries == seed
    {
      entries := seed;
    }
  }

  /** The pair the handler for `field` returns, or `None` when there is no handler. */
  function Dispatch(props: Props, mappings: SMappings, field: (string, Value)): Option<Entry>
  {
    match mappings(field.0)
    case Some(h) => h(field.1, props)
    case None => None
  }

  /** Writes the pairs of `fields`, in order, over `target`. */
  function WriteEntries(target: map<string, Value>, props: Props, mappings: SMappings,
                        fields: seq<(string, Value)>): map<string, Value>
    decreases |fields|
  {
    if fields == [] then target
    else
      var before := WriteEntries(target, props, mappings, fields[..|fields| - 1]);
      match Dispatch(props, mappings, fields[|fields| - 1])
      case Some(e) => before[e.key := e.val]
      case None => before
  }

  /** `handleMappings(props, mappings, target)`: sets `target[key] = value` for every pair, in prop order. */
  method HandleMappings(props: Props, mappings: SMappings, target: Target)
    modifies target
    ensures target.entries == WriteEntries(old(target.entries), props, mappings, props.fields)
  {
    ghost var start := target.entries;
    var i := 0;
    while i < |props.fields|
      invariant 0 <= i <= |props.fields|
      invariant target.entries == WriteEntries(start, props, mappings, props.fields[..i])
    {
      assert props.fields[..i + 1][..i] == props.fields[..i];
      var mappingHandler := mappings(props.fields[i].0);
      if mappingHandler.Some? {
        var result := mappingHandler.value(props.fields[i].1, props);
        if result.Some? {
          target.entries := target.entries[result.value.key := result.value.val];
        }
      }
      i := i + 1;
    }
    assert props.fields[..i] == props.fields;
  }

  // ------------------------------------------------------------- properties

  /** A handler result as the object it writes: one key, or none for `null`. */
  function AsMap(result: Option<Entry>): map<string, Value>
  {
    match result
    case Some(e) => map[e.key := e.val]
    case None => map[]
  }

  /** The pair one prop writes, on its own. */
  function WrittenBy(props: Props, mappings: SMappings, field: (string, Value)): map<string, Value>
  {
    AsMap(Dispatch(props, mappings, field))
  }

  /** Writing over a target is the target overwritten by what an empty target would receive. */
  lemma {:induction false} WriteEntriesOverSeed(target: map<string, Value>, props: Props,
                                                mappings: SMappings, fields: seq<(string, Value)>)
    ensures WriteEntries(target, props, mappings, fields) == target + WriteEntries(map[], props, mappings, fields)
    decreases |fields|
  {
    if fields != [] {
      WriteEntriesOverSeed(target, props, mappings, fields[..|fields| - 1]);
    }
  }

  /** One more prop writes its pair over the target built so far. */
  lemma WriteEntriesSnoc(target: map<string, Value>, props: Props, mappings: SMappings,
                         fields: seq<(string, Value)>, field: (string, Value))
    ensures WriteEntries(target, props, mappings, fields + [field])
      == WriteEntries(target, props, mappings, fields) + WrittenBy(props, mappings, field)
  {
    assert (fields + [field])[..|fields|] == fields;
  }

  /** A prop with no handler, or whose handler returns `null`, leaves the target as it is. */
  lemma SilentPropLeavesTarget(target: map<string, Value>, props: Props, mappings: SMappings,
                               fields: seq<(string, Value)>, field: (string, Value))
    requires mappings(field.0).None? || mappings(field.0).value(field.1, props).None?
    ensures WriteEntries(target, props, mappings, fields + [field]) == WriteEntries(target, props, mappings, fields)
  {
    assert (fields + [field])[..|fields|] == fields;
  }

  /** A key is in the result exactly when it was in the target or some prop writes it. */
  lemma {:induction false} EntryKeys(target: map<string, Value>, props: Props, mappings: SMappings,
                                     fields: seq<(string, Value)>, k: string)
    ensures k in WriteEntries(target, props, mappings, fields) <==>
      k in target || exists i | 0 <= i < |fields| :: k in WrittenBy(props, mappings, fields[i])
    decreases |fields|
  {
    if fields != [] {
      var n := |fields| - 1;
      var init := fields[..n];
      EntryKeys(target, props, mappings, init, k);
      if exists i | 0 <= i < |fields| :: k in WrittenBy(props, mappings, fields[i]) {
        var i :| 0 <= i < |fields| && k in WrittenBy(props, mappings, fields[i]);
        if i < n { assert init[i] == fields[i]; }
      }
      if exists i | 0 <= i < n :: k in WrittenBy(props, mappings, init[i]) {
        var i :| 0 <= i < n && k in WrittenBy(props, mappings, init[i]);
        assert fields[i] == init[i];
      }
    }
  }

  /**
   * Last write wins: when prop `i` writes `k` and no later prop does, the
   * target ends with prop `i`'s value for `k`, whatever it held before.
   */
  lemma {:induction false} LastEntryWins(target: map<string, Value>, props: Props, mappings: SMappings,
                                         fields: seq<(string, Value)>, i: nat, k: string)
    requires i < |fields|
    requires k in WrittenBy(props, mappings, fields[i])
    requires forall j | i < j < |fields| :: k !in WrittenBy(props, mappings, fields[j])
    ensures k in WriteEntries(target, props, mappings, fields)
    ensures WriteEntries(target, props, mappings, fields)[k] == WrittenBy(props, mappings, fields[i])[k]
    decreases |fields|
  {
    var n := |fields| - 1;
    var init := fields[..n];
    if i < n {
      forall j | i < j < n ensures k !in WrittenBy(props, mappings, init[j]) {
        assert init[j] == fields[j];
      }
      LastEntryWins(target, props, mappings, init, i, k);
    }
  }
}
