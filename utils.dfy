/**
 * The shared value helpers: the colour-syntax test and the rewriter that wraps
 * CSS custom-property names (`--name`) as `var(--name)`.
 *
 * The three regular expressions (COLOR_VALUE_REG, CSS_VAR_REG and
 * HAS_CSS_VAR_REG) are written out as predicates below.
 */
module Utils {
  import opened JsValue

  /** `isBoolean(value)`: `typeof value === 'boolean'`. */
  function IsBoolean(v: Value): (r: bool)
    ensures r <==> v == VBool(true) || v == VBool(false)
  {
    v.VBool?
  }

  // ---------------------------------------------------------------- colours

  /** The function names the colour pattern accepts (compared case-insensitively). */
  const ColorFunctionNames: set<string> :=
    {"rgb", "rgba", "hsl", "hsla", "hwb", "lab", "lch", "oklab", "oklch", "light-dark"}

  predicate IsHexDigit(c: char)
  {
    IsDigit(c) || 'a' <= c <= 'f' || 'A' <= c <= 'F'
  }

  /** `#` followed by three to eight hex digits, the whole string. */
  predicate IsHexColor(s: string)
  {
    4 <= |s| <= 9 && s[0] == '#' && forall i | 1 <= i < |s| :: IsHexDigit(s[i])
  }

  /** Index of the first `c` in `s`, or `|s|` when there is none. */
  function IndexOf(s: string, c: char): (k: nat)
    ensures k <= |s|
    ensures k < |s| ==> s[k] == c
    ensures forall i | 0 <= i < k :: s[i] != c
  {
    if s == [] then 0
    else if s[0] == c then 0
    else 1 + IndexOf(s[1..], c)
  }

  predicate NoLineTerminator(s: string)
  {
    forall i | 0 <= i < |s| :: !IsLineTerminator(s[i])
  }

  /**
   * `name(…)`: a colour function name, `(`, at least one character other
   * than a line terminator, and a final `)`. The name ends at the first `(`.
   */
  predicate IsFunctionalColor(s: string)
  {
    var k := IndexOf(s, '(');
    && k + 3 <= |s|
    && AsciiLower(s[..k]) in ColorFunctionNames
    && s[|s| - 1] == ')'
    && NoLineTerminator(s[k + 1..|s| - 1])
  }

  /** `isColorLike(value)`: false for every non-string; otherwise `COLOR_VALUE_REG.test(value)`. */
  predicate IsColorLike(v: Value)
  {
    v.VStr? && (IsHexColor(v.s) || IsFunctionalColor(v.s))
  }

  /** The functional form of the colour pattern, stated as a decomposition of `s`. */
  ghost predicate FunctionalForm(s: string, name: string, args: string)
  {
    && s == name + "(" + args + ")"
    && AsciiLower(name) in ColorFunctionNames
    && |args| >= 1
    && NoLineTerminator(args)
  }

  lemma NoParenInColorName(low: string)
    requires low in ColorFunctionNames
    ensures '(' !in low
  {
  }

  /** Lowering changes only `A`-`Z`, so a name whose lowered form has no `(` has none either. */
  lemma NamesHaveNoParen(name: string)
    requires '(' !in AsciiLower(name)
    ensures forall i | 0 <= i < |name| :: name[i] != '('
  {
    var low := AsciiLower(name);
    forall i | 0 <= i < |name| ensures name[i] != '(' {
      assert low[i] in low;
    }
  }

  lemma {:induction false} IndexOfAfterPrefix(name: string, rest: string)
    requires forall i | 0 <= i < |name| :: name[i] != '('
    requires rest != [] && rest[0] == '('
    ensures IndexOf(name + rest, '(') == |name|
  {
    if name == [] {
      assert name + rest == rest;
    } else {
      assert (name + rest)[1..] == name[1..] + rest;
      IndexOfAfterPrefix(name[1..], rest);
    }
  }

  lemma FunctionalColorHasForm(s: string)
    requires IsFunctionalColor(s)
    ensures exists name, args :: FunctionalForm(s, name, args)
  {
    var k := IndexOf(s, '(');
    var name, args := s[..k], s[k + 1..|s| - 1];
    assert s == name + "(" + args + ")";
    assert FunctionalForm(s, name, args);
  }

  lemma FormIsFunctionalColor(s: string, name: string, args: string)
    requires FunctionalForm(s, name, args)
    ensures IsFunctionalColor(s)
  {
    NoParenInColorName(AsciiLower(name));
    NamesHaveNoParen(name);
    IndexOfAfterPrefix(name, "(" + args + ")");
    assert s == name + ("(" + args + ")");
    assert IndexOf(s, '(') == |name|;
    assert s[..|name|] == name;
    assert s[|name| + 1..|s| - 1] == args;
  }

  /**
   * `isColorLike` accepts a string exactly when the whole of it is a hex colour
   * or some `name(args)` with a colour function name and non-empty args.
   */
  lemma ColorLikeCharacterization(s: string)
    ensures IsColorLike(VStr(s)) <==>
      (IsHexColor(s) || exists name, args :: FunctionalForm(s, name, args))
  {
    if IsFunctionalColor(s) {
      FunctionalColorHasForm(s);
    }
    if exists name, args :: FunctionalForm(s, name, args) {
      var name, args :| FunctionalForm(s, name, args);
      FormIsFunctionalColor(s, name, args);
    }
  }

  /** `isColorLike` is false for every value that is not a string. */
  lemma ColorLikeOnlyStrings(v: Value)
    requires !v.VStr?
    ensures !IsColorLike(v)
  {
  }

  // ------------------------------------------------------- custom properties

  /** `(-\w+)*` after the first `\w+`: word characters and single dashes, not ending in a dash. */
  predicate DashedWords(r: string)
  {
    && |r| >= 1
    && IsWordChar(r[0])
    && IsWordChar(r[|r| - 1])
    && (forall i | 0 <= i < |r| :: IsWordChar(r[i]) || r[i] == '-')
    && (forall i | 0 <= i < |r| - 1 :: r[i] == '-' ==> r[i + 1] != '-')
  }

  /** `CSS_VAR_REG.test(t)`: the whole token is `--\w+(-\w+)*`. */
  predicate IsCssVar(t: string)
  {
    |t| >= 3 && t[0] == '-' && t[1] == '-' && DashedWords(t[2..])
  }

  /** `HAS_CSS_VAR_REG.test(s)`: somewhere in `s`, `--` followed by a word character. */
  predicate HasCssVar(s: string)
  {
    |s| >= 3 && ((s[0] == '-' && s[1] == '-' && IsWordChar(s[2])) || HasCssVar(s[1..]))
  }

  /** `--` followed by a word character starts at index `i` of `s`. */
  ghost predicate VarStartsAt(s: string, i: int)
  {
    0 <= i && i + 2 < |s| && s[i] == '-' && s[i + 1] == '-' && IsWordChar(s[i + 2])
  }

  lemma {:induction false} HasCssVarCharacterization(s: string)
    ensures HasCssVar(s) <==> exists i :: VarStartsAt(s, i)
  {
    if |s| >= 3 {
      HasCssVarCharacterization(s[1..]);
      if HasCssVar(s) {
        if !VarStartsAt(s, 0) {
          var j :| VarStartsAt(s[1..], j);
          assert VarStartsAt(s, j + 1);
        }
      } else {
        forall i | VarStartsAt(s, i) ensures false {
          assert i != 0;
          assert VarStartsAt(s[1..], i - 1);
        }
      }
    }
  }

  /** A whole token that is a custom-property name, as the wrapping step sees it. */
  lemma CssVarHasCssVar(t: string)
    requires IsCssVar(t)
    ensures HasCssVar(t)
  {
  }

  // ------------------------------------------------ split on white-space runs

  predicate NoSpace(t: string)
  {
    forall i | 0 <= i < |t| :: !IsJsSpace(t[i])
  }

  /**
   * The tokens `split(/\s+/)` can produce: at least one, none holding white
   * space, and only the first and the last may be empty.
   */
  predicate WellFormedTokens(toks: seq<string>)
  {
    && |toks| >= 1
    && (forall i | 0 <= i < |toks| :: NoSpace(toks[i]))
    && (forall i | 0 < i < |toks| - 1 :: toks[i] != "")
  }

  /** `s.split(/\s+/g)`. */
  function SplitOnSpaces(s: string): (r: seq<string>)
    ensures WellFormedTokens(r)
    ensures s != "" && !IsJsSpace(s[0]) ==> r[0] != ""
    ensures s != "" && IsJsSpace(s[0]) ==> r[0] == ""
  {
    if s == [] then [""]
    else if !IsJsSpace(s[0]) then
      var rest := SplitOnSpaces(s[1..]);
      [[s[0]] + rest[0]] + rest[1..]
    else if |s| > 1 && IsJsSpace(s[1]) then
      SplitOnSpaces(s[1..])
    else
      [""] + SplitOnSpaces(s[1..])
  }

  /** `tokens.join(' ')`. */
  function JoinWithSpace(toks: seq<string>): string
  {
    if toks == [] then ""
    else if |toks| == 1 then toks[0]
    else toks[0] + " " + JoinWithSpace(toks[1..])
  }

  lemma {:induction false} SplitAfterWord(t: string, s: string)
    requires NoSpace(t)
    ensures SplitOnSpaces(t + s) == [t + SplitOnSpaces(s)[0]] + SplitOnSpaces(s)[1..]
  {
    if t != [] {
      var ts := t + s;
      assert ts[0] == t[0] && !IsJsSpace(ts[0]);
      assert ts[1..] == t[1..] + s;
      SplitAfterWord(t[1..], s);
      var r := SplitOnSpaces(ts[1..]);
      assert r[0] == t[1..] + SplitOnSpaces(s)[0];
      assert r[1..] == SplitOnSpaces(s)[1..];
      assert [t[0]] + (t[1..] + SplitOnSpaces(s)[0]) == t + SplitOnSpaces(s)[0];
    } else {
      assert t + s == s;
      var r := SplitOnSpaces(s);
      assert t + r[0] == r[0];
      assert [r[0]] + r[1..] == r;
    }
  }

  lemma JoinStartsWithFirst(toks: seq<string>)
    requires |toks| >= 1 && toks[0] != ""
    ensures JoinWithSpace(toks) != "" && JoinWithSpace(toks)[0] == toks[0][0]
  {
  }

  /** Splitting tokens joined with single spaces gives the tokens back. */
  lemma {:induction false} SplitJoinRoundTrip(toks: seq<string>)
    requires WellFormedTokens(toks)
    ensures SplitOnSpaces(JoinWithSpace(toks)) == toks
  {
    if |toks| == 1 {
      SplitAfterWord(toks[0], "");
      assert toks[0] + "" == toks[0];
    } else {
      var rest := toks[1..];
      var j := JoinWithSpace(rest);
      assert WellFormedTokens(rest);
      SplitJoinRoundTrip(rest);
      if |rest| >= 2 {
        assert rest[0] != "";
        JoinStartsWithFirst(rest);
      }
      assert j == "" || !IsJsSpace(j[0]) by {
        if j != "" && |rest| == 1 { assert j == rest[0]; assert NoSpace(rest[0]); }
      }
      var tail := " " + j;
      assert tail[1..] == j;
      assert SplitOnSpaces(tail) == [""] + SplitOnSpaces(j);
      assert JoinWithSpace(toks) == toks[0] + tail;
      SplitAfterWord(toks[0], tail);
      assert toks[0] + "" == toks[0];
      assert [toks[0]] + rest == toks;
    }
  }

  // --------------------------------------------------------------- rewriting

  /** The map step: `CSS_VAR_REG.test(v) ? `var(${v})` : v`. */
  function WrapVar(t: string): string
  {
    if IsCssVar(t) then "var(" + t + ")" else t
  }

  function WrapAll(toks: seq<string>): (r: seq<string>)
    ensures |r| == |toks|
    ensures forall i | 0 <= i < |toks| :: r[i] == WrapVar(toks[i])
  {
    if toks == [] then [] else [WrapVar(toks[0])] + WrapAll(toks[1..])
  }

  /** Wrapping once is enough: a wrapped token starts with `v`, not with `--`. */
  lemma WrapVarIdempotent(t: string)
    ensures WrapVar(WrapVar(t)) == WrapVar(t)
  {
    if IsCssVar(t) {
      assert ("var(" + t + ")")[0] == 'v';
    }
  }

  /** Wrapping adds no white space. */
  lemma WrapVarNoSpace(t: string)
    requires NoSpace(t)
    ensures NoSpace(WrapVar(t))
  {
    if IsCssVar(t) {
      var w := "var(" + t + ")";
      forall j | 0 <= j < |w| ensures !IsJsSpace(w[j]) {
        if 4 <= j < |w| - 1 {
          assert w[j] == t[j - 4];
        } else {
          assert w[j] in "var()";
        }
      }
    }
  }

  lemma WrapAllWellFormed(toks: seq<string>)
    requires WellFormedTokens(toks)
    ensures WellFormedTokens(WrapAll(toks))
  {
    var r := WrapAll(toks);
    forall i | 0 <= i < |r| ensures NoSpace(r[i]) {
      WrapVarNoSpace(toks[i]);
    }
  }

  /**
   * `toColorValue(value)`: `undefined` and `''` give `''`; a string without a
   * custom-property reference is returned as it is; otherwise it is split on
   * runs of white space, every token that is a custom-property name is wrapped
   * in `var(…)`, and the tokens are joined with single spaces.
   */
  function ToColorValue(value: Option<string>): (r: string)
    ensures value == None || value == Some("") ==> r == ""
    ensures value.Some? && !HasCssVar(value.value) ==> r == value.value
  {
    if value == None || value.value == "" then ""
    else if HasCssVar(value.value) then JoinWithSpace(WrapAll(SplitOnSpaces(value.value)))
    else value.value
  }

  /**
   * When `s` references a custom property, the result has exactly as many
   * white-space separated tokens as `s`, each one wrapped or left as it was.
   */
  lemma ToColorValueTokens(s: string)
    requires HasCssVar(s)
    ensures SplitOnSpaces(ToColorValue(Some(s))) == WrapAll(SplitOnSpaces(s))
  {
    WrapAllWellFormed(SplitOnSpaces(s));
    SplitJoinRoundTrip(WrapAll(SplitOnSpaces(s)));
  }

  /** Rewriting a rewritten value changes nothing. */
  lemma ToColorValueIdempotent(value: Option<string>)
    ensures ToColorValue(Some(ToColorValue(value))) == ToColorValue(value)
  {
    var r := ToColorValue(value);
    if r != "" && HasCssVar(r) && value.Some? && value.value != "" && HasCssVar(value.value) {
      var toks := SplitOnSpaces(value.value);
      ToColorValueTokens(value.value);
      assert SplitOnSpaces(r) == WrapAll(toks);
      assert WrapAll(WrapAll(toks)) == WrapAll(toks) by {
        forall i | 0 <= i < |toks| ensures WrapAll(WrapAll(toks))[i] == WrapAll(toks)[i] {
          WrapVarIdempotent(toks[i]);
        }
      }
    }
  }
}
