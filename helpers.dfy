/**
 * The helpers both engines import from `@zx-libs/utils`. Their source is not
 * part of this model, so `toCssValue`, `isNumberLike`, `toNumber` and
 * `toSnakeCase` are parameters (a `Lib`), and `Pinned` states only what the
 * test suites and doc comments show of them.
 */
module Helpers {
  import opened JsValue

  datatype Lib = Lib(
    /** `toCssValue(value, unit?)`: `None` when the call passes no unit. */
    cssValue: (Value, Option<string>) -> string,
    /** `isNumberLike(value)`. */
    isNumberLike: Value -> bool,
    /** `toNumber(value)`. */
    toNumber: Value -> int,
    /** `toSnakeCase(name)`. */
    toSnakeCase: string -> string
  )

  /** `isNullOrUndefined(value)`: what its name says. */
  predicate IsNullOrUndefined(v: Value)
  {
    v == VNull || v == VUndef
  }

  /**
   * The observed behaviour of the unseen helpers: lengths in the style tests,
   * the radius example of the Vue adapter's doc comment, the `fr` tracks of the
   * Vue tests, the `display` names of the older engine's tests, and the border
   * tests (which need `"10"` to be number-like and `"#fff"` and
   * `"1px solid red"` not to be).
   */
  ghost predicate Pinned(lib: Lib)
  {
    && lib.cssValue(VInt(10), None) == "10px"
    && lib.cssValue(VInt(20), None) == "20px"
    && lib.cssValue(VStr("10"), None) == "10px"
    && lib.cssValue(VStr("10rem"), None) == "10rem"
    && lib.cssValue(VStr("10em"), None) == "10em"
    && lib.cssValue(VStr("10px"), None) == "10px"
    && lib.cssValue(VStr("2rem"), None) == "2rem"
    && lib.cssValue(VStr("1em"), None) == "1em"
    && lib.cssValue(VStr("12 12 0 12"), None) == "12px 12px 0 12px"
    && lib.cssValue(VStr("2"), Some("fr")) == "2fr"
    && lib.cssValue(VStr("10 auto 5"), Some("fr")) == "10fr auto 5fr"
    && lib.isNumberLike(VInt(10))
    && lib.isNumberLike(VStr("10"))
    && !lib.isNumberLike(VStr("#fff"))
    && !lib.isNumberLike(VStr("1px solid red"))
    && lib.toSnakeCase("flex") == "flex"
    && lib.toSnakeCase("grid") == "grid"
    && lib.toSnakeCase("inline") == "inline"
    && lib.toSnakeCase("inlineFlex") == "inline-flex"
    && lib.toSnakeCase("inlineBlock") == "inline-block"
  }
}
