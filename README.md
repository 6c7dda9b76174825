# prop-styles in Dafny

prop-styles turns a component's flat shorthand props (`width`, `p`, `bg`,
`radius`, `flex`, `border`, ...) into a style object of CSS property names and
values. This project models the repository's logic in Dafny and proves
properties of it. The model covers:

- the shared value helpers `isBoolean`, `isColorLike` and `toColorValue`
  (module `Utils`);
- the current engine: `transform`, `border`, `handleMappings`, the
  `CSS_PROP_MAPPINGS` table and `createPropStyles` (modules `CoreUtils`,
  `CoreConstants`, `CoreStyles`);
- the breakpoint selector `getDefaultBreakpoint` (module `Breakpoint`);
- the older engine of the style package: `format`, the generated handler
  families, its `border`, its in-place `handleMappings`, its table and
  `createPropStyles` (modules `StyleUtils`, `StyleStyles`);
- the release script `update-version.mjs`: argument parsing, version parsing
  and formatting, bumping, target selection, and the rewrite of dependency
  references (module `UpdateVersion`).

JavaScript values are the datatype `JsValue.Value` (booleans, integers,
strings, `null`, `undefined`). A props object is `JsValue.Props`: its `style`
entry and its other entries, in key order.

Four helpers come from a package whose source is not part of this model:
`toCssValue`, `isNumberLike`, `toNumber` and `toSnakeCase`. They are the
fields of a `Helpers.Lib` parameter. The ghost predicate `Helpers.Pinned`
holds only what the test suites and doc comments show of them, such as
`toCssValue(10) == '10px'`. Lemmas that replay a test case require it.

The browser's `window.matchMedia` is the `Breakpoint.Env` parameter. It says
whether the function exists and, for each threshold, whether the query
matches, does not match, or throws.

In the release script, reading and writing files, the console and the process
are left out. The package objects it mutates are instances of the class
`UpdateVersion.PackageJson`.

Where the engine is imperative, the model is too:

- The current `handleMappings` is a method with a loop, proved equal to the
  function `CoreUtils.MappedStyle`.
- The older `handleMappings` updates a `StyleUtils.Target` object in place.
  It is proved to leave in it `StyleUtils.WriteEntries` of the old contents.
- The version record is bumped in place (`UpdateVersion.VersionRecord.Bump`).
- Dependency objects are rewritten in place
  (`UpdateVersion.RewriteReferences`, `RewriteAll`, `UpdateTarget`).

Where the code and its documentation disagree, the model follows the code:

- `libs/core/src/breakpoint.ts:66` says that without `matchMedia` the
  smallest key is returned. The code returns `undefined`
  (`Breakpoint.GetDefaultBreakpoint`).
- The suite `libs/core/__tests__/style.spec.ts` tests keys such as `bold`,
  `thin`, `grid`, `padding` and `background`. The current table does not
  have them (`CoreConstants.MissingTestedKeys`). These tests match the older
  engine's table, so the example lemmas for them are about `StyleStyles`.
- Aliases do not always produce the same output. In the older engine `bg`
  drops `null` while `background` keeps it
  (`StyleStyles.BackgroundNull`).

## Model

| member | source | states |
|---|---|---|
| JsValue.NatToString | scripts/update-version.mjs:53 | `String(n)` of a natural number is a non-empty run of digits with no leading zero unless it is `"0"` |
| JsValue.AsciiUpper | libs/core/src/constants.ts:83 | `toUpperCase` changes exactly the lower-case ASCII letters to upper case and keeps the length |
| JsValue.AsciiLower | libs/utils/src/index.ts:13 | the case folding of the `/i` flag changes exactly the upper-case ASCII letters and keeps the length |
| Utils.IsBoolean | libs/utils/src/index.ts:8-10 | true exactly for the values `true` and `false` |
| Utils.IsHexColor | libs/utils/src/index.ts:13 | the `#[a-f0-9]{3,8}` branch of the colour pattern, case-insensitive; `Utils.ColorLikeCharacterization` ties it to `isColorLike` |
| Utils.IsFunctionalColor | libs/utils/src/index.ts:13 | the colour-function branch `name(.+)`; `Utils.FunctionalColorHasForm` and `Utils.FormIsFunctionalColor` prove it sound and complete for the form name, `(`, arguments, `)` |
| Utils.IsColorLike | libs/utils/src/index.ts:18-21 | `isColorLike`: a string that matches the colour pattern; characterised by `Utils.ColorLikeCharacterization` and `Utils.ColorLikeOnlyStrings` |
| Utils.IsCssVar | libs/utils/src/index.ts:15 | `CSS_VAR_REG`, a whole `--word(-word)*` token; `Utils.CssVarHasCssVar` relates it to the search pattern |
| Utils.HasCssVar | libs/utils/src/index.ts:16 | `HAS_CSS_VAR_REG`, an unanchored search for `--` and a word character; characterised by `Utils.HasCssVarCharacterization` |
| Utils.IndexOf | libs/utils/src/index.ts:13 | the position of the first occurrence of a character, or the length when there is none |
| Utils.NoParenInColorName | libs/utils/src/index.ts:13 | no colour function name of the colour pattern contains `(` |
| Utils.NamesHaveNoParen | libs/utils/src/index.ts:13 | a name whose lower-case form has no `(` has no `(` |
| Utils.IndexOfAfterPrefix | libs/utils/src/index.ts:13 | the first `(` of a name without `(` followed by `(...` is right after the name |
| Utils.FunctionalColorHasForm | libs/utils/src/index.ts:12-13 | every text accepted as a functional colour is a colour name, `(`, arguments, `)` |
| Utils.FormIsFunctionalColor | libs/utils/src/index.ts:12-13 | every colour name followed by parenthesised arguments is accepted |
| Utils.ColorLikeCharacterization | libs/utils/src/index.ts:12-21 | a string is colour-like exactly when it is a hex colour or a colour-function call |
| Utils.ColorLikeOnlyStrings | libs/utils/src/index.ts:18-21 | no value other than a string is colour-like |
| Utils.HasCssVarCharacterization | libs/utils/src/index.ts:15-16 | a text has a CSS variable exactly when `--name` starts at some position |
| Utils.CssVarHasCssVar | libs/utils/src/index.ts:15-16 | a whole CSS variable token contains a CSS variable |
| Utils.SplitOnSpaces | libs/utils/src/index.ts:27 | `split(/\s+/)` gives space-free tokens; for a non-empty text, the first token is empty exactly when the text starts with a space |
| Utils.SplitAfterWord | libs/utils/src/index.ts:27 | splitting a space-free word followed by a text glues the word to the text's first token |
| Utils.JoinStartsWithFirst | libs/utils/src/index.ts:31 | a join whose first token is non-empty starts with that token's first character |
| Utils.SplitJoinRoundTrip | libs/utils/src/index.ts:27-31 | splitting the space-join of well-formed tokens gives the tokens back |
| Utils.WrapAll | libs/utils/src/index.ts:28-30 | the token map wraps each token independently and keeps their number |
| Utils.WrapVar | libs/utils/src/index.ts:29 | the map step wrapping a custom-property token in `var(...)`; `Utils.WrapVarIdempotent` and `Utils.WrapVarNoSpace` state its properties |
| Utils.JoinWithSpace | libs/utils/src/index.ts:31 | `join(' ')`; `Utils.SplitJoinRoundTrip` proves splitting undoes it |
| Utils.WrapVarIdempotent | libs/utils/src/index.ts:29 | wrapping a token in `var(...)` twice is the same as once |
| Utils.WrapVarNoSpace | libs/utils/src/index.ts:29 | wrapping a space-free token keeps it space-free |
| Utils.WrapAllWellFormed | libs/utils/src/index.ts:27-31 | wrapping keeps a token list well formed |
| Utils.ToColorValue | libs/utils/src/index.ts:23-33 | no value and `''` give `''`; a text without a CSS variable is returned unchanged |
| Utils.ToColorValueTokens | libs/utils/src/index.ts:25-31 | for a text with a CSS variable, the result's tokens are the input's tokens each wrapped |
| Utils.ToColorValueIdempotent | libs/utils/src/index.ts:23-33 | applying `toColorValue` to its own result changes nothing |
| CoreUtils.Transform | libs/core/src/utils.ts:54-61 | no entry exactly for `false`, `null`, `undefined` and `''` (so `0` is kept); an entry carries the given key |
| CoreUtils.TransformKept | libs/core/src/utils.ts:59-60 | a kept value writes `toColorValue` of the given text, or of `String(value)` when none is given |
| CoreUtils.TransformZero | libs/core/src/utils.ts:59-60 | `transform(key, 0)` is `{ key, value: '0' }` |
| CoreUtils.DigitRun | libs/core/src/utils.ts:107 | the length of the leading digit run: all digits before it and a non-digit at it |
| CoreUtils.CssNumericalWithUnit | libs/core/src/utils.ts:107-111 | `'10px'` and `'-1.5em'` are numbers with a unit |
| CoreUtils.PixelsAreNumerical | libs/core/src/utils.ts:107 | `'10px'` matches the numerical pattern |
| CoreUtils.DecimalEmsAreNumerical | libs/core/src/utils.ts:107 | `'-1.5em'` matches the numerical pattern |
| CoreUtils.CssNumericalWithoutUnit | libs/core/src/utils.ts:107-111 | `'10'` (no unit), `'1px solid red'` and `'#fff'` are not |
| CoreUtils.IsCssNumericalValueLike | libs/core/src/utils.ts:107-111 | `isCssNumericalValueLike`: a string matching `/^-?\d+(\.\d+)?[a-z]+$/i`, so the unit is one or more ASCII letters of either case; `CoreUtils.CssNumericalCharacterization` proves it holds exactly for sign, digits, optional fraction, letters |
| CoreUtils.TailSound | libs/core/src/utils.ts:107 | text accepted after the integer digits is an optional `.digits` fraction followed by letters |
| CoreUtils.TailComplete | libs/core/src/utils.ts:107 | every optional fraction followed by letters is accepted after the integer digits, and does not start with a digit |
| CoreUtils.UnsignedSound | libs/core/src/utils.ts:107 | accepted unsigned text splits into digits, optional fraction and letters |
| CoreUtils.UnsignedComplete | libs/core/src/utils.ts:107 | digits, optional fraction and letters together are accepted unsigned text |
| CoreUtils.SignedSound | libs/core/src/utils.ts:107 | accepted text after an optional `-` gives the whole text the signed form |
| CoreUtils.NumericalSound | libs/core/src/utils.ts:107 | every text the pattern accepts has the form sign, digits, optional fraction, letters |
| CoreUtils.NumericalComplete | libs/core/src/utils.ts:107 | every text of the form sign, digits, optional fraction, letters is accepted |
| CoreUtils.CssNumericalCharacterization | libs/core/src/utils.ts:107-111 | a value is numerical-like exactly when it is a string of the form sign, digits, optional fraction, letters |
| CoreUtils.DigitRunOf | libs/core/src/utils.ts:107 | `\d+` stops at the first non-digit |
| CoreUtils.WidthKeyIsTemplate | libs/core/src/utils.ts:137-139 | the width key is the side's border key followed by `Width` |
| CoreUtils.ColorKeyIsTemplate | libs/core/src/utils.ts:137-141 | the colour key is the side's border key followed by `Color` |
| CoreUtils.Border | libs/core/src/utils.ts:133-143 | the key is the side's width, colour or border key; a colour-like value that is not a width gets the colour key and is written as it is; a width entry carries `toCssValue` of the value; no entry only for omitted values |
| CoreUtils.BorderWidthBeforeColor | libs/core/src/utils.ts:138-140 | a number-like or unit-carrying value always writes the width key, whatever else it is |
| CoreUtils.BorderShorthandKept | libs/core/src/utils.ts:142 | a non-empty text that is neither a width nor a colour and holds no CSS variable is written to the border key unchanged |
| CoreUtils.BorderFallback | libs/core/src/utils.ts:142 | a value that is neither a width nor a colour gets `transform` on the border key |
| CoreUtils.HandleMappings | libs/core/src/utils.ts:84-105 | the loop's style equals the specification `MappedStyle`: each prop's handler output written in key order |
| CoreUtils.Dispatch | libs/core/src/utils.ts:91-93 | the handler for one prop, looked up by name and called with the value and the props; no handler writes nothing (`CoreUtils.SilentPropChangesNothing`) |
| CoreUtils.MappedStyle | libs/core/src/utils.ts:84-105 | the style `handleMappings` returns, the fold of the props over an empty style; `CoreUtils.HandleMappings` computes it and `CoreUtils.KeysComeFromProps`, `CoreUtils.LastWriteWins` state its meaning |
| CoreUtils.WriteDeclsOverSeed | libs/core/src/utils.ts:95-98 | writing an array result over a style is the style overwritten by the result written alone |
| CoreUtils.WriteResultOverSeed | libs/core/src/utils.ts:94-102 | the same for one handler result of either shape |
| CoreUtils.WriteFieldsOverSeed | libs/core/src/utils.ts:90-103 | the same for all props: earlier keys survive unless a prop writes them |
| CoreUtils.SilentPropChangesNothing | libs/core/src/utils.ts:92-94 | a prop without a handler, or whose handler returns nothing, leaves the style unchanged |
| CoreUtils.KeysComeFromProps | libs/core/src/utils.ts:90-103 | a key is in the result exactly when it was there before or some prop writes it |
| CoreUtils.KeysOfFresh | libs/core/src/utils.ts:88-103 | the keys of a fresh result are exactly the keys some prop writes |
| CoreUtils.LastWriteWins | libs/core/src/utils.ts:90-103 | a key's final value is the one written by the last prop that writes it |
| CoreConstants.HandlerIsRule | libs/core/src/constants.ts:103-127 | a name has a handler exactly when the table has a rule for it, and the handler applies that rule |
| CoreConstants.PropKeyMapping | libs/core/src/constants.ts:10-69 | `PROP_KEY_MAPPINGS`, shorthand names to CSS names; `CoreConstants.AliasResolution` states its entries as resolved through the table |
| CoreConstants.BooleanRule | libs/core/src/constants.ts:71-101 | `booleanValuePropMappings`, the flag props; `CoreConstants.FlagResolution` and `CoreConstants.FlagResolutionRest` state that the table resolves them |
| CoreConstants.OverrideRule | libs/core/src/constants.ts:109-126 | the explicit entries that override the spreads; `CoreConstants.BorderResolution` and `CoreConstants.OverrideResolution` state them |
| CoreConstants.Apply | libs/core/src/constants.ts:103-127 | what each kind of table entry writes for a value; `CoreConstants.AliasRule`, `CoreConstants.PlainRuleWrites` and the flag lemmas state it kind by kind |
| CoreConstants.CssPropMappings | libs/core/src/constants.ts:103-127 | `CSS_PROP_MAPPINGS` as a lookup; `CoreConstants.HandlerIsRule` proves each handler applies its table rule |
| CoreConstants.AliasResolution | libs/core/src/constants.ts:10-69 | `p`, `ai`, `radius` and `ratio` resolve to generic handlers for `padding`, `alignItems`, `borderRadius` and `aspectRatio` |
| CoreConstants.WhiteSpaceAliases | libs/core/src/constants.ts:10-69 | `ws` and `whiteSpace` resolve to the same handler |
| CoreConstants.BorderResolution | libs/core/src/constants.ts:110-112 | `border`, `borderTop` and `borderRight` are in the generic list but the border override wins |
| CoreConstants.BorderResolutionBottomLeft | libs/core/src/constants.ts:113-114 | the same for `borderBottom` and `borderLeft` |
| CoreConstants.OverrideResolution | libs/core/src/constants.ts:115-126 | the overrides of `fw`, `zIndex` and `lh` replace their generic handlers |
| CoreConstants.GridTrackResolution | libs/core/src/constants.ts:116-119 | `gtc` and `gtr` use the `fr` track handler, not the generic one |
| CoreConstants.FlagResolution | libs/core/src/constants.ts:75-86 | `column`, `wrap`, `breakWord` and `scroll` resolve to their flag handlers |
| CoreConstants.FlagResolutionRest | libs/core/src/constants.ts:87-100 | `shadow`, `flex`, `inline` and `nowrap` resolve to their flag handlers |
| CoreConstants.MissingTestedKeys | libs/core/src/constants.ts:103-127 | `grid`, `bold` and `thin` have no handler in the current table |
| CoreConstants.MissingTestedLongKeys | libs/core/src/constants.ts:103-127 | `padding` and `background` have no handler in the current table |
| CoreConstants.AliasRule | libs/core/src/constants.ts:104-108 | a generic handler writes the long name with `toColorValue(toCssValue(v))`, and nothing for omitted values |
| CoreConstants.PlainRuleWrites | libs/core/src/constants.ts:115 | the `fw` and `zIndex` handlers write the value's text through `toColorValue` |
| CoreConstants.GridTrackRuleWrites | libs/core/src/constants.ts:116-119 | the track handlers write `toCssValue(v, 'fr')` |
| CoreConstants.LineHeightRuleWrites | libs/core/src/constants.ts:121-126 | a number-like value below 8 is written as its text, anything else through `toCssValue` |
| CoreConstants.NoVarIn | libs/utils/src/index.ts:16 | a text with no `--` holds no CSS variable |
| CoreConstants.NoVarInShadow | libs/core/src/constants.ts:87-92 | the default shadow holds no CSS variable |
| CoreConstants.FixedFlagWrites | libs/core/src/constants.ts:75-79 | a fixed flag writes its fixed text for any kept value and nothing for omitted ones |
| CoreConstants.FixedValuesHaveNoVar | libs/core/src/constants.ts:75-79 | `column` and `break-word` hold no CSS variable |
| CoreConstants.FixedValuesHaveNoVarRest | libs/core/src/constants.ts:99-100 | `inline` and `nowrap` hold no CSS variable |
| CoreConstants.WrapFlagWrites | libs/core/src/constants.ts:76-77 | `wrap: true` writes `flexWrap: wrap`; another kept value is written as its text |
| CoreConstants.ShadowFlagWrites | libs/core/src/constants.ts:87-92 | `shadow: true` writes the preset shadow; another kept value is written as its text |
| CoreConstants.ScrollFlagWrites | libs/core/src/constants.ts:81-86 | `scroll: true` writes `overflow: auto`; a string axis writes `overflow` plus the upper-cased axis |
| CoreConstants.ScrollAxes | libs/core/src/constants.ts:81-86 | `scroll: 'x'` and `'y'` write `overflowX` and `overflowY` |
| CoreConstants.FlexFlagWrites | libs/core/src/constants.ts:93-98 | `flex: true` writes `display: flex`, `flex: false` writes nothing, other values go to `flex` |
| CoreStyles.MergeReplacesPerName | libs/core/src/styles.ts:37-40 | a custom entry replaces the table's for its name only; no custom mappings leave the table as it is |
| CoreStyles.MergeMappings | libs/core/src/styles.ts:37-40 | the custom mappings spread over the table; `CoreStyles.MergeReplacesPerName` proves a custom entry replaces the table entry for its name only |
| CoreStyles.CreatePropStylesAsWritten | libs/core/src/styles.ts:30-43 | as written, the result is the copy of `props.style`, whatever the props |
| CoreStyles.CreatePropStyles | libs/core/src/styles.ts:18-24 | as intended, the handler output written over `props.style`; seeded keys no prop writes are kept |
| CoreStyles.OneProp | libs/core/src/styles.ts:30-43 | one prop gives the seed overwritten by that prop's handler output |
| CoreStyles.OneTableProp | libs/core/src/styles.ts:37-41 | without custom mappings, that output is the prop's table rule |
| CoreStyles.EmptyProps | libs/core/src/styles.ts:30-43 | no props give `{}`, as written and as intended |
| CoreStyles.AsWrittenDropsHandlerOutput | libs/core/src/styles.ts:41 | for `{ flex: true }` the code returns `{}` where `{ display: 'flex' }` is intended |
| CoreStyles.FlexIsFlagged | libs/core/__tests__/style.spec.ts:29-32 | `flex: true` gives `display: flex` and `flex: false` gives nothing |
| CoreStyles.SeedThenProps | libs/core/src/styles.ts:34-41 | a prop's key overrides the seeded one and other seeded keys are kept |
| CoreStyles.CustomHandlerWins | libs/core/src/styles.ts:18-24 | a custom `color` handler returning a `{ key, value }` entry for `--color` replaces the table's |
| CoreStyles.UndefinedCustomEntry | libs/core/src/styles.ts:37-40 | a custom entry set to `undefined` switches its prop off |
| CoreStyles.BorderWidthExamples | libs/core/__tests__/style.spec.ts:250-266 | `border: 10` and `border: '10'` set `borderWidth: 10px` |
| CoreStyles.BorderUnitExample | libs/core/__tests__/style.spec.ts:250-266 | `border: '10px'` sets `borderWidth` |
| CoreStyles.BorderColorExample | libs/core/src/utils.ts:129 | `border: '#fff'` sets `borderColor` |
| CoreStyles.BorderShorthandExample | libs/core/src/utils.ts:128 | a shorthand such as `'1px solid red'` is set on `border` unchanged |
| CoreStyles.ShorthandNotWidth | libs/core/src/utils.ts:138 | `'1px solid red'` is not a number with a unit |
| CoreStyles.ShorthandNotColor | libs/core/src/utils.ts:141 | `'1px solid red'` is not colour-like |
| CoreStyles.ShorthandNoVar | libs/core/src/utils.ts:142 | `'1px solid red'` holds no CSS variable |
| CoreStyles.BorderAt | libs/core/src/constants.ts:110 | a single `border` prop gives what the `border` helper returns |
| Breakpoint.DefaultsIncrease | libs/core/src/breakpoint.ts:19-26 | the default thresholds strictly increase from `xs: 640` to `xxl: 1920` |
| Breakpoint.Enabled | libs/core/src/breakpoint.ts:59 | `!breakpoints` is false: `true` or a table; `Breakpoint.GetDefaultBreakpoint` returns nothing when it does not hold |
| Breakpoint.SelectBreakpoint | libs/core/src/breakpoint.ts:55-86 | the first key, ascending by threshold, whose `min-width` query matches; `Breakpoint.GetDefaultBreakpoint` computes it and `Breakpoint.SmallestMatchingThreshold` states its meaning |
| Breakpoint.SelectLargestBreakpoint | libs/core/src/breakpoint.ts:74-75 | the evidently intended choice, the largest matching threshold; `Breakpoint.LargestMatchingThreshold` proves it |
| Breakpoint.Insert | libs/core/src/breakpoint.ts:64 | inserting adds exactly one entry |
| Breakpoint.SortByThreshold | libs/core/src/breakpoint.ts:64 | sorting keeps the number of entries |
| Breakpoint.InsertMultiset | libs/core/src/breakpoint.ts:64 | inserting adds the entry and loses none |
| Breakpoint.InsertSorted | libs/core/src/breakpoint.ts:64 | inserting into an ascending table keeps it ascending |
| Breakpoint.InsertStable | libs/core/src/breakpoint.ts:64 | inserting keeps the order among entries with equal thresholds |
| Breakpoint.SortByThresholdCorrect | libs/core/src/breakpoint.ts:64 | `sort((a, b) => a[1] - b[1])` gives an ascending permutation that keeps the order of equal thresholds |
| Breakpoint.SortKeepsSorted | libs/core/src/breakpoint.ts:64 | sorting an ascending table changes nothing |
| Breakpoint.GetDefaultBreakpoint | libs/core/src/breakpoint.ts:55-86 | the search loop returns the specification's selection; no breakpoints or no `matchMedia` give `undefined` |
| Breakpoint.FirstMatchIsFirstHit | libs/core/src/breakpoint.ts:76-85 | nothing is found exactly when no query matches; otherwise the key is that of the first matching entry |
| Breakpoint.SmallestMatchingThreshold | libs/core/src/breakpoint.ts:76-80 | on ascending entries the code returns a matching entry with the smallest matching threshold |
| Breakpoint.LargestMatchingThreshold | libs/core/src/breakpoint.ts:74-75 | the intended selection returns a matching entry with the largest matching threshold, and finds one exactly when some query matches |
| Breakpoint.ViewportOf1100 | libs/core/src/breakpoint.ts:46 | at 1100px the code returns `xs`, the intended selection `md` |
| StyleUtils.Format | libs/style/src/utils.ts:20-28 | no entry exactly for `null`, `undefined` and `false`; otherwise the key with the given text, or with the value itself |
| StyleUtils.FormatKeepsEmptyAndZero | libs/style/src/utils.ts:20-28 | `''`, `0` and `true` are kept, where the current `transform` drops `''` |
| StyleUtils.GenerateStyleMapping | libs/style/src/utils.ts:30-39 | one handler for each listed key; `StyleUtils.GeneratedKeys` proves exactly the listed keys get the handler |
| StyleUtils.Display | libs/style/src/utils.ts:41-45 | `display` mappings writing the key's display value for any value except null, undefined and `false`; `StyleUtils.DisplayEmits` states it |
| StyleUtils.Numerical | libs/style/src/utils.ts:47-51 | numerical mappings writing the formatted value; `StyleUtils.NumericalEmits` states it |
| StyleUtils.Changeless | libs/style/src/utils.ts:53-55 | mappings writing the value unchanged; `StyleUtils.ChangelessEmits` states it |
| StyleUtils.GeneratedKeys | libs/style/src/utils.ts:30-39 | a generated family has a handler exactly for its keys, and each applies the family's function to its own name |
| StyleUtils.DisplayEmits | libs/style/src/utils.ts:41-45 | a display flag writes `display` with the snake-case name, or nothing for omitted values |
| StyleUtils.NumericalEmits | libs/style/src/utils.ts:47-51 | a numerical prop writes its own name with `toCssValue`, or nothing for omitted values |
| StyleUtils.ChangelessEmits | libs/style/src/utils.ts:53-55 | a changeless prop writes its own name with the value unchanged, `null` included |
| StyleUtils.Border | libs/style/src/utils.ts:63-69 | no entry exactly for `null` and `undefined`; width exactly for number-like or unit-carrying values; colour keeps the value; otherwise the text on `border` |
| StyleUtils.BorderKeepsFalse | libs/style/src/utils.ts:63-69 | `border: false` writes `border: 'false'` here, where the current engine writes nothing |
| StyleUtils.Target.constructor | libs/style/src/styles.ts:99-101 | the target starts as the given seed |
| StyleUtils.HandleMappings | libs/style/src/utils.ts:71-88 | the target's new entries are the old ones with every prop's handler output written in order |
| StyleUtils.Dispatch | libs/style/src/utils.ts:79-82 | the handler for one prop, looked up by name; no handler writes nothing (`StyleUtils.SilentPropLeavesTarget`) |
| StyleUtils.WriteEntriesOverSeed | libs/style/src/utils.ts:71-88 | writing over a target is the target overwritten by the fresh output |
| StyleUtils.WriteEntriesSnoc | libs/style/src/utils.ts:71-88 | one more prop adds exactly what its handler writes |
| StyleUtils.SilentPropLeavesTarget | libs/style/src/utils.ts:79-82 | a prop without a handler, or whose handler returns nothing, leaves the target unchanged |
| StyleUtils.EntryKeys | libs/style/src/utils.ts:71-88 | a key is in the target exactly when it was there or some prop writes it |
| StyleUtils.LastEntryWins | libs/style/src/utils.ts:71-88 | a key's final value is the one written by the last prop that writes it |
| StyleStyles.Seed | libs/style/src/styles.ts:99-101 | the seed has exactly the keys of `props.style`, with their strings |
| StyleStyles.CssPropMappings | libs/style/src/styles.ts:53-84 | the older engine's table; `StyleStyles.TableLookup` and `StyleStyles.TableNames` state its entries |
| StyleStyles.MergeMappings | libs/style/src/styles.ts:102-105 | the custom mappings spread over the table; `StyleStyles.CustomMappings` proves a custom entry replaces the table's |
| StyleStyles.PropStyles | libs/style/src/styles.ts:95-108 | the handler output written over the seed; seeded keys no prop writes are kept |
| StyleStyles.CreatePropStyles | libs/style/src/styles.ts:95-108 | a fresh target whose entries are the specification's result |
| StyleStyles.TableLookup | libs/style/src/styles.ts:53-84 | an explicit entry wins; every other name falls to the generated families |
| StyleStyles.GeneratedNames | libs/style/src/styles.ts:67-77 | the generated families cover exactly the display, numerical and changeless names |
| StyleStyles.TableNames | libs/style/src/styles.ts:53-84 | the table has a handler exactly for those names and the explicit ones |
| StyleStyles.TableNamesDisjoint | libs/style/src/styles.ts:17-84 | no name is in two families or also explicit, so no spread overrides another |
| StyleStyles.DisplayNameHandler | libs/style/src/styles.ts:45-51 | each display name writes `display` with its snake-case name |
| StyleStyles.NumericalNameHandler | libs/style/src/styles.ts:17-41 | each numerical name writes itself with `toCssValue` |
| StyleStyles.ChangelessNameHandler | libs/style/src/styles.ts:43 | each changeless name writes itself with the value unchanged |
| StyleStyles.OneProp | libs/style/src/styles.ts:95-108 | one prop gives the seed overwritten by that prop's output |
| StyleStyles.WrittenByExplicit | libs/style/src/styles.ts:53-84 | without custom mappings, an explicit name writes its rule's entry |
| StyleStyles.WrittenByChangeless | libs/style/src/styles.ts:77 | a changeless name writes itself with the value |
| StyleStyles.OneExplicitProp | libs/style/src/styles.ts:53-84 | a single explicit prop gives exactly its rule's entry |
| StyleStyles.RadiusNeverOmitted | libs/style/src/styles.ts:54 | `radius` always writes `borderRadius`, even for `null` |
| StyleStyles.AlignJustifyDefault | libs/style/src/styles.ts:55-56 | `align` and `justify` write their value, or `''` for `null` and `undefined` |
| StyleStyles.LayoutFlags | libs/style/src/styles.ts:57-62 | `column` and `breakWord` write their fixed values exactly for truthy values |
| StyleStyles.WeightFlags | libs/style/src/styles.ts:64-65 | `bold` writes `fontWeight: bold` and `thin` `fontWeight: 500`, exactly for truthy values |
| StyleStyles.WrapProp | libs/style/src/styles.ts:59-60 | `wrap: true` writes `flexWrap: wrap`; another truthy value is written as it is |
| StyleStyles.ScrollProp | libs/style/src/styles.ts:69-75 | a truthy `scroll` writes `auto` on the overflow key of its axis |
| StyleStyles.ScrollKeys | libs/style/src/styles.ts:69-75 | `true`, `'x'` and `'y'` give `overflow`, `overflowX` and `overflowY` |
| StyleStyles.FontSizeProp | libs/style/src/styles.ts:80 | `fs` writes `fontSize` with `toCssValue` |
| StyleStyles.FontWeightProps | libs/style/src/styles.ts:82-83 | `fw` and `fontWeight` write `fontWeight` unchanged |
| StyleStyles.BgProp | libs/style/src/styles.ts:81 | `bg` writes `background` unchanged, and nothing for omitted values |
| StyleStyles.BorderProp | libs/style/src/styles.ts:79 | `border` writes the older `border` helper's entry |
| StyleStyles.DisplayProp | libs/style/src/styles.ts:67 | a display prop writes `display` with its snake-case name |
| StyleStyles.NumericalProp | libs/style/src/styles.ts:76 | a numerical prop writes its name with `toCssValue` |
| StyleStyles.ChangelessProp | libs/style/src/styles.ts:77 | a changeless prop writes its name with the value, `null` included |
| StyleStyles.TwoProps | libs/style/src/utils.ts:77-87 | two props write their outputs in order, the second winning on a shared key |
| StyleStyles.BgAfterBackground | libs/core/__tests__/style.spec.ts:228-234 | `bg` after `background` wins unless it is omitted |
| StyleStyles.BackgroundAfterBg | libs/core/__tests__/style.spec.ts:228-234 | `background` after `bg` always wins |
| StyleStyles.BackgroundNull | libs/style/src/styles.ts:77-81 | `bg: null` writes nothing while `background: null` writes `null`: the two names differ |
| StyleStyles.SeedThenProps | libs/style/src/styles.ts:99-106 | a prop's key overrides the seeded one and other seeded keys are kept |
| StyleStyles.CustomMappings | libs/style/src/styles.ts:102-105 | a custom handler replaces the table's; a custom `undefined` entry switches the prop off |
| StyleStyles.NoProps | libs/core/__tests__/style.spec.ts:5-7 | no props give `{}` |
| StyleStyles.WidthExample | libs/core/__tests__/style.spec.ts:9-27 | `width: 10` gives `width: 10px` |
| StyleStyles.MaxWidthExample | libs/core/__tests__/style.spec.ts:9-27 | `maxWidth: '10rem'` is kept as it is |
| StyleStyles.FontSizeExamples | libs/core/__tests__/style.spec.ts:192-195 | `fs: 20` gives `20px` and `fs: '2rem'` stays `2rem` |
| StyleStyles.FlexExamples | libs/core/__tests__/style.spec.ts:29-32 | `flex: true` gives `display: flex`, `flex: false` nothing |
| StyleStyles.InlineFlexExample | libs/core/__tests__/style.spec.ts:39-44 | `inlineFlex: true` gives `display: inline-flex` |
| StyleStyles.InlineBlockExample | libs/core/__tests__/style.spec.ts:46-51 | `inlineBlock: true` gives `display: inline-block` |
| StyleStyles.BorderWidthExamples | libs/core/__tests__/style.spec.ts:250-266 | `border: 10` and `border: '10px'` give `borderWidth: 10px` |
| StyleStyles.BorderColorExample | libs/core/__tests__/style.spec.ts:250-266 | `border: '#fff'` gives `borderColor: #fff` |
| StyleStyles.BorderShorthandExample | libs/core/__tests__/style.spec.ts:250-266 | `border: '1px solid red'` is kept on `border` |
| StyleStyles.HexWhite | libs/utils/src/index.ts:12-21 | `'#fff'` is colour-like and not a number with a unit |
| UpdateVersion.SplitOn | scripts/update-version.mjs:14-17 | `split(c)` gives at least one piece and no piece holds the separator |
| UpdateVersion.SplitJoin | scripts/update-version.mjs:14-17 | joining the pieces with the separator gives the text back |
| UpdateVersion.SplitAfterPrefix | scripts/update-version.mjs:14-17 | a prefix without the separator becomes the first piece |
| UpdateVersion.SplitWithout | scripts/update-version.mjs:14 | a text without the separator is one piece |
| UpdateVersion.SplitAtSeparator | scripts/update-version.mjs:14-17 | a text holding the separator has a second piece, so `[1]` exists |
| UpdateVersion.StartsWith | scripts/update-version.mjs:13-17 | a text starting with a non-empty prefix holds the prefix's last character |
| UpdateVersion.ParseArgs | scripts/update-version.mjs:9-21 | the loop's options are the specification's left-to-right reading of all arguments |
| UpdateVersion.ParseArg | scripts/update-version.mjs:12-18 | one argument's branch of the loop; `UpdateVersion.ParseArgFlag` states what each `--flag=` branch sets and keeps |
| UpdateVersion.ParseFromAppend | scripts/update-version.mjs:11-19 | parsing two argument lists in a row is parsing their concatenation |
| UpdateVersion.UnknownArgAnywhere | scripts/update-version.mjs:11-19 | an unrecognised argument at any position changes nothing |
| UpdateVersion.PackagesKept | scripts/update-version.mjs:13-14 | without a `--packages=` argument the package list is unchanged |
| UpdateVersion.LastPackagesWins | scripts/update-version.mjs:13-14 | the last `--packages=` argument decides the package list, split on commas |
| UpdateVersion.UnknownArgIgnored | scripts/update-version.mjs:11-19 | an argument no branch recognises changes nothing |
| UpdateVersion.ParseArgFlag | scripts/update-version.mjs:15-17 | a `--bump=`, `--set=` or `--suffix=` argument sets its option to its value and leaves it alone otherwise |
| UpdateVersion.LastFlagWins | scripts/update-version.mjs:11-19 | for a repeated `--set=`, `--bump=` or `--suffix=` flag, the last occurrence decides (the package list is `UpdateVersion.LastPackagesWins`) |
| UpdateVersion.FlagText | scripts/update-version.mjs:15-17 | a value without `=` written after its flag is read back unchanged |
| UpdateVersion.LeadSound | scripts/update-version.mjs:41 | a leading digit group is a non-empty digit run followed by the separator |
| UpdateVersion.LeadComplete | scripts/update-version.mjs:41 | every digit run followed by the separator is found as the leading group |
| UpdateVersion.PatchSound | scripts/update-version.mjs:41 | the patch group is a digit run followed by nothing or by `-` and a non-empty pre-release on one line |
| UpdateVersion.PatchComplete | scripts/update-version.mjs:41 | every such patch text is matched with its groups |
| UpdateVersion.MatchSound | scripts/update-version.mjs:41 | a match's groups are well formed and spell the text exactly |
| UpdateVersion.MatchComplete | scripts/update-version.mjs:41 | every text spelled by well-formed groups matches with those groups |
| UpdateVersion.ParseVersion | scripts/update-version.mjs:39-50 | a text the pattern rejects gives `0.0.0` with no pre-release |
| UpdateVersion.DigitsOfNat | scripts/update-version.mjs:44-46 | `Number(String(n)) == n` |
| UpdateVersion.LeadingDigitPositive | scripts/update-version.mjs:44-46 | a digit run starting with a non-zero digit is at least 1 |
| UpdateVersion.NatOfDigits | scripts/update-version.mjs:44-46 | `String(Number(d)) == d` for a digit run without leading zeros |
| UpdateVersion.FmtThenParse | scripts/update-version.mjs:39-54 | parsing a formatted version gives the version back, an empty pre-release as none |
| UpdateVersion.FmtVersion | scripts/update-version.mjs:52-54 | `fmtVersion`; `UpdateVersion.FmtThenParse` and `UpdateVersion.ParseThenFmt` prove it the inverse of parsing |
| UpdateVersion.ParseThenFmt | scripts/update-version.mjs:39-54 | formatting a parsed version without leading zeros gives the text back |
| UpdateVersion.FmtCompose | scripts/update-version.mjs:52-54 | the formatted text is the composition of its digit groups and suffix |
| UpdateVersion.UnmatchedIsZero | scripts/update-version.mjs:42 | any text the pattern rejects reformats as `0.0.0` |
| UpdateVersion.LeadingZerosAccepted | scripts/update-version.mjs:41-46 | `01.002.3` parses as 1.2.3 |
| UpdateVersion.ZeroPadded | scripts/update-version.mjs:44-46 | `Number('01') == 1`, `Number('002') == 2` |
| UpdateVersion.Bumped | scripts/update-version.mjs:119-128 | a bump increases the version; major resets minor and patch, minor resets patch, anything else adds to patch |
| UpdateVersion.VersionRecord.constructor | scripts/update-version.mjs:118 | the record holds the parsed version |
| UpdateVersion.VersionRecord.Bump | scripts/update-version.mjs:119-128 | the in-place update leaves the bumped version of the old one |
| UpdateVersion.NextVersion | scripts/update-version.mjs:111-134 | the computed version equals the specification's `NewVersion` of `version \|\| '0.0.0'` |
| UpdateVersion.NewVersion | scripts/update-version.mjs:110-134 | the version `--set` or `--bump` gives, or none; `UpdateVersion.NextVersion` computes it and `UpdateVersion.SetWins`, `UpdateVersion.NeitherSkips`, `UpdateVersion.BumpIncreases` state its meaning |
| UpdateVersion.SetWins | scripts/update-version.mjs:113-117 | with `--set`, the current version and `--bump` do not matter |
| UpdateVersion.NeitherSkips | scripts/update-version.mjs:131-134 | without `--set` or `--bump` the package is skipped |
| UpdateVersion.NewVersionReadsBack | scripts/update-version.mjs:113-130 | the new version reads back as the set or bumped numbers with the suffix as its pre-release |
| UpdateVersion.BumpIncreases | scripts/update-version.mjs:117-130 | a bump gives a later version |
| UpdateVersion.ParseOfCompose | scripts/update-version.mjs:39-50 | parsing well-formed groups gives their numbers and pre-release |
| UpdateVersion.BumpClearsPre | scripts/update-version.mjs:129 | a bump without `--suffix` drops the current pre-release |
| UpdateVersion.SetDropsOwnPre | scripts/update-version.mjs:115 | `--set` without `--suffix` drops the pre-release written in the set value |
| UpdateVersion.PackageJson.constructor | scripts/update-version.mjs:141 | a package object holds the given name, version and dependency objects |
| UpdateVersion.RewriteObject | scripts/update-version.mjs:150-154 | the same dependency names; only the entry named exactly like the target gets the new version |
| UpdateVersion.RewriteFieldsAt | scripts/update-version.mjs:143-156 | each of the four dependency fields is rewritten, nothing else, and no field is added |
| UpdateVersion.RewriteFields | scripts/update-version.mjs:141-156 | the loop over the dependency fields; `UpdateVersion.RewriteFieldsAt` proves each listed field is rewritten and every other kept |
| UpdateVersion.RewriteObjectTwice | scripts/update-version.mjs:150-154 | rewriting twice is rewriting once |
| UpdateVersion.NoReferenceNoChange | scripts/update-version.mjs:149-156 | a package that does not reference the target is unchanged |
| UpdateVersion.RewriteReferences | scripts/update-version.mjs:142-156 | the package's fields are rewritten in place, name and version kept, and `changed` is true exactly when it references the target |
| UpdateVersion.RewriteStep | scripts/update-version.mjs:148-155 | one more field rewrites that field's reference, if any |
| UpdateVersion.ReferencesStep | scripts/update-version.mjs:148-155 | one more field references the target exactly when its object names it |
| UpdateVersion.RewriteAll | scripts/update-version.mjs:141-160 | every package is rewritten and the write flags are exactly the referencing packages |
| UpdateVersion.UpdateTarget | scripts/update-version.mjs:110-160 | a skipped target changes nothing; otherwise its version is the new one and every package's references are rewritten |
| UpdateVersion.Trim | scripts/update-version.mjs:100 | `trim` gives the input with the surrounding white space removed: a slice of it, with only white space outside the slice and none at either end of the result |
| UpdateVersion.SelectTargets | scripts/update-version.mjs:97-104 | exactly the wanted packages, in the order found; without `--packages` all of them |
| UpdateVersion.Wanted | scripts/update-version.mjs:99-103 | a package is wanted when there is no list, or its directory name or its `name` equals a trimmed entry of the list; `UpdateVersion.SelectTargets` keeps exactly these |
| UpdateVersion.SelectTargetsAppend | scripts/update-version.mjs:97-104 | selecting from two lists in a row is selecting from their concatenation, so the order is kept |
| UpdateVersion.HeadNotSelectedAgain | scripts/update-version.mjs:97-104 | a package found once is not selected again from the rest of the list |
| UpdateVersion.SelectTargetsDistinct | scripts/update-version.mjs:97-104 | packages found once are each selected at most once |
| UpdateVersion.TrimmedFront | scripts/update-version.mjs:100 | removing a leading space keeps the trimmed-slice relation |
| UpdateVersion.TrimmedBack | scripts/update-version.mjs:100 | removing a trailing space keeps the trimmed-slice relation |

## Left out

- Reading and writing `package.json` files, directory listing, the console, `usage()`, `process.exit` and the async `main` of the release script are I/O. The model keeps the decisions they depend on. The `dry` flag only changes whether a file is written.
- The loop over several targets is `UpdateVersion.UpdateTarget` repeated, one target at a time.
- UpdateVersion.ParseVersion: does not keep the `raw` field, which no caller reads.
- UpdateVersion.ParseVersion: `Number(...)` is exact here. Digit groups beyond 2^53 lose precision in JavaScript.
- UpdateVersion.RewriteObject: the loop over `Object.keys` of a dependency object is one lookup, because keys in an object are unique.
- UpdateVersion.RewriteReferences: a dependency field whose value is not an object (a falsy value is skipped by the code) is not modelled. Dependency versions are strings.
- Package versions in JSON that are not strings are not modelled.
- The bodies of `toCssValue`, `isNumberLike`, `toNumber` and `toSnakeCase`: their package is not part of this model. They are the `Lib` parameter, and `Helpers.Pinned` holds what the tests show of them.
- `window` and `matchMedia` are the `Breakpoint.Env` parameter, not a browser.
- Numbers are integers. Floating-point props such as `1.5` or `NaN`, and the `Number` tests inside the helpers, are outside the model.
- JsValue.AsciiUpper: `toUpperCase` is modelled for ASCII only. Other letters are kept.
- CoreStyles.CustomHandlerWins: tuple-shaped custom results, such as the `['--color', v]` of the usage example in the documentation, are not modelled in the current engine. Its dispatcher would read the tuple as an array of results and write the key `undefined`.
- Handler lookup by `mappings[prop]` (libs/core/src/utils.ts:91, libs/style/src/utils.ts:79) also finds `Object.prototype` members. A prop named `toString` then gets a function as its handler: the current engine writes the key `undefined`, the older one the key `[`. Props named `valueOf` or `hasOwnProperty` make the call throw a `TypeError`. The model's tables give such names no handler.
- The insertion order of keys in the returned style object is not modelled. A map keeps which keys are written and their last values, not the order in which they were first written.
- `Object.keys` places integer-like keys first. Props are kept in the order given, which is the order for non-integer names.
- The `style` prop is not dispatched through the table. Neither table has a `style` entry, so only a custom `style` handler would see it.
- Objects and arrays as prop values, other than the handler result arrays, are not modelled.
- The framework adapters (`libs/vue`, `libs/react`) and the documentation scripts are outside the core.
- The dispatch from style keys back to component props in the adapters is not modelled.
- `libs/core/__tests__/utils.spec.ts` imports a `formatReturn` from `../src`, that is `libs/core/src/index.ts`, which does not export one (it exports `transform`, `getDefaultBreakpoint`, the types and `./styles`). It expects tuples, where the code returns `{ key, value }` objects. The model follows the code.
- Breakpoint.GetDefaultBreakpoint: the comment at `libs/core/src/breakpoint.ts:66` promises the smallest key when `matchMedia` is missing. The code returns `undefined`, and so does the model.

## Findings

| source | as written | input that shows it | evidently intended | confidence | as-written member | corrected member |
|---|---|---|---|---|---|---|
| libs/core/src/styles.ts:41 | `handleMappings(props, _mappings, styles)` passes the seed as a third argument that `handleMappings` (libs/core/src/utils.ts:84-87) does not take, and the returned style is discarded, so the result is only a copy of `props.style` | `createPropStyles({ flex: true })` returns `{}` | `{ display: 'flex' }`: the handler output written over the seed, as the doc example at libs/core/src/styles.ts:18-24 shows | not executed | CoreStyles.AsWrittenDropsHandlerOutput | CoreStyles.CreatePropStyles |
| libs/core/src/breakpoint.ts:76-80 | after sorting ascending, the loop returns the first key whose `min-width` query matches, which is the smallest matching breakpoint | `getDefaultBreakpoint(true)` at a 1100px viewport returns `'xs'` | `'md'`: the largest matching breakpoint, as the comment at lines 74-75 and the example at line 46 say | not executed | Breakpoint.ViewportOf1100 | Breakpoint.LargestMatchingThreshold |
