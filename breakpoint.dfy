/**
 * The breakpoint selector (libs/core/src/breakpoint.ts): order the
 * thresholds ascending, then ask `window.matchMedia('(min-width: Npx)')` for
 * each in turn and return the first key whose query matches.
 *
 * The browser is a parameter: `Env` says whether `window.matchMedia` exists
 * and what it answers for each threshold `N`, including a throw.
 */
module Breakpoint {
  import opened JsValue

  /** A breakpoint table in `Object.entries` order: (key, minimum width in pixels). */
  type Table = seq<(string, int)>

  /** `DEFAULT_BREAKPOINTS`. */
  const DefaultBreakpoints: Table :=
    [("xs", 640), ("sm", 768), ("md", 1024), ("lg", 1280), ("xl", 1536), ("xxl", 1920)]

  /** The `breakpoints` argument: absent, a boolean, or a table. */
  datatype BreakpointsArg = BpUndefined | BpFlag(flag: bool) | BpTable(table: Table)

  /** What `matchMedia(q).matches` does: answer, or throw. */
  datatype Answer = Matches(matches: bool) | Throws

  /** The environment: whether `window.matchMedia` is a function, and its answer per threshold. */
  datatype Env = Env(available: bool, matchMedia: int -> Answer)

  /** A real viewport of width `w`: `(min-width: Npx)` matches exactly when `w >= N`. */
  function Viewport(w: int): Env
  {
    Env(true, (n: int) => Matches(w >= n))
  }

  predicate Hit(env: Env, threshold: int)
  {
    env.matchMedia(threshold) == Matches(true)
  }

  predicate Sorted(t: Table)
  {
    forall i, j | 0 <= i < j < |t| :: t[i].1 <= t[j].1
  }

  predicate StrictlyIncreasing(t: Table)
  {
    forall i, j | 0 <= i < j < |t| :: t[i].1 < t[j].1
  }

  /** The default thresholds strictly increase from `xs` to `xxl`. */
  lemma DefaultsIncrease()
    ensures StrictlyIncreasing(DefaultBreakpoints)
    ensures DefaultBreakpoints[0] == ("xs", 640) && DefaultBreakpoints[|DefaultBreakpoints| - 1] == ("xxl", 1920)
  {
  }

  // ------------------------------------------------------------- the sort

  /**
   * Inserts `x` after every entry whose threshold is at most its own, which
   * is where a stable sort with the comparator `a[1] - b[1]` puts it.
   */
  function Insert(t: Table, x: (string, int)): (r: Table)
    ensures |r| == |t| + 1
    decreases |t|
  {
    if t == [] || t[|t| - 1].1 <= x.1 then t + [x]
    else Insert(t[..|t| - 1], x) + [t[|t| - 1]]
  }

  /** `Object.entries(bpMap).sort((a, b) => a[1] - b[1])`, a stable sort by threshold. */
  function SortByThreshold(t: Table): (r: Table)
    ensures |r| == |t|
    decreases |t|
  {
    if t == [] then [] else Insert(SortByThreshold(t[..|t| - 1]), t[|t| - 1])
  }

  /** The entries of `t` with threshold `n`, in order. */
  function WithThreshold(t: Table, n: int): Table
    decreases |t|
  {
    if t == [] then []
    else WithThreshold(t[..|t| - 1], n) + (if t[|t| - 1].1 == n then [t[|t| - 1]] else [])
  }

  lemma {:induction false} InsertMultiset(t: Table, x: (string, int))
    ensures multiset(Insert(t, x)) == multiset(t) + multiset{x}
    decreases |t|
  {
    if !(t == [] || t[|t| - 1].1 <= x.1) {
      InsertMultiset(t[..|t| - 1], x);
      assert t == t[..|t| - 1] + [t[|t| - 1]];
    }
  }

  lemma {:induction false} InsertSorted(t: Table, x: (string, int))
    requires Sorted(t)
    ensures Sorted(Insert(t, x))
    decreases |t|
  {
    if !(t == [] || t[|t| - 1].1 <= x.1) {
      var init, last := t[..|t| - 1], t[|t| - 1];
      InsertSorted(init, x);
      InsertMultiset(init, x);
      var r := Insert(init, x);
      forall i | 0 <= i < |r| ensures r[i].1 <= last.1 {
        assert r[i] in multiset(r);
        if r[i] != x {
          assert r[i] in multiset(init);
          var j :| 0 <= j < |init| && init[j] == r[i];
          assert init[j] == t[j];
        }
      }
    }
  }

  lemma {:induction false} InsertStable(t: Table, x: (string, int), n: int)
    ensures WithThreshold(Insert(t, x), n) == WithThreshold(t, n) + (if x.1 == n then [x] else [])
    decreases |t|
  {
    if t == [] || t[|t| - 1].1 <= x.1 {
      assert (t + [x])[..|t|] == t;
    } else {
      var init, last := t[..|t| - 1], t[|t| - 1];
      InsertStable(init, x, n);
      var r := Insert(init, x);
      assert (r + [last])[..|r|] == r;
    }
  }

  /** The sort orders by threshold, keeps every entry, and keeps equal thresholds in table order. */
  lemma {:induction false} SortByThresholdCorrect(t: Table)
    ensures Sorted(SortByThreshold(t))
    ensures multiset(SortByThreshold(t)) == multiset(t)
    ensures forall n :: WithThreshold(SortByThreshold(t), n) == WithThreshold(t, n)
    decreases |t|
  {
    if t != [] {
      var init, last := t[..|t| - 1], t[|t| - 1];
      SortByThresholdCorrect(init);
      InsertSorted(SortByThreshold(init), last);
      InsertMultiset(SortByThreshold(init), last);
      assert t == init + [last];
      forall n ensures WithThreshold(SortByThreshold(t), n) == WithThreshold(t, n) {
        InsertStable(SortByThreshold(init), last, n);
        assert WithThreshold(t, n) == WithThreshold(init, n) + (if last.1 == n then [last] else []);
      }
    }
  }

  /** A table already in ascending order is left as it is. */
  lemma {:induction false} SortKeepsSorted(t: Table)
    requires Sorted(t)
    ensures SortByThreshold(t) == t
    decreases |t|
  {
    if t != [] {
      var init := t[..|t| - 1];
      assert Sorted(init);
      SortKeepsSorted(init);
      assert t == init + [t[|t| - 1]];
      if init != [] {
        assert init[|init| - 1].1 <= t[|t| - 1].1;
      }
    }
  }

  // ------------------------------------------------------------ selection

  /** The first entry, in order, whose query matches; thrown queries are skipped. */
  function FirstMatch(entries: Table, env: Env): Option<string>
    decreases |entries|
  {
    if entries == [] then None
    else if Hit(env, entries[0].1) then Some(entries[0].0)
    else FirstMatch(entries[1..], env)
  }

  /** `!breakpoints`: only `undefined` and `false` are falsy (every object is truthy). */
  predicate Enabled(arg: BreakpointsArg)
  {
    arg.BpTable? || arg == BpFlag(true)
  }

  /** `breakpoints === true ? DEFAULT_BREAKPOINTS : breakpoints`. */
  function TableOf(arg: BreakpointsArg): Table
    requires Enabled(arg)
  {
    if arg.BpFlag? then DefaultBreakpoints else arg.table
  }

  /** What `getDefaultBreakpoint(breakpoints)` returns. */
  function SelectBreakpoint(arg: BreakpointsArg, env: Env): Option<string>
  {
    if !Enabled(arg) then None
    else if !env.available then None
    else FirstMatch(SortByThreshold(TableOf(arg)), env)
  }

  /** `getDefaultBreakpoint(breakpoints)`: the search loop with its early return. */
  method GetDefaultBreakpoint(arg: BreakpointsArg, env: Env) returns (r: Option<string>)
    ensures r == SelectBreakpoint(arg, env)
    ensures !Enabled(arg) || !env.available ==> r == None
  {
    if !Enabled(arg) {
      return None;
    }
    var entries := SortByThreshold(TableOf(arg));
    if !env.available {
      return None;
    }
    var i := 0;
    while i < |entries|
      invariant 0 <= i <= |entries|
      invariant FirstMatch(entries, env) == FirstMatch(entries[i..], env)
    {
      var answer := env.matchMedia(entries[i].1);
      if answer == Matches(true) {
        return Some(entries[i].0);
      }
      assert entries[i..][1..] == entries[i + 1..];
      i := i + 1;
    }
    return None;
  }

  /** Entry `i` is the first whose query matches. */
  ghost predicate FirstHitAt(entries: Table, env: Env, i: int)
  {
    0 <= i < |entries| && Hit(env, entries[i].1) && forall j | 0 <= j < i :: !Hit(env, entries[j].1)
  }

  /** The search returns the key of the first matching entry, and nothing when none matches. */
  lemma {:induction false} FirstMatchIsFirstHit(entries: Table, env: Env)
    ensures FirstMatch(entries, env).None? <==> forall j | 0 <= j < |entries| :: !Hit(env, entries[j].1)
    ensures FirstMatch(entries, env).Some? ==>
      exists i :: FirstHitAt(entries, env, i) && entries[i].0 == FirstMatch(entries, env).value
    decreases |entries|
  {
    if entries != [] {
      FirstMatchIsFirstHit(entries[1..], env);
      if Hit(env, entries[0].1) {
        assert FirstHitAt(entries, env, 0);
      } else {
        forall j | 0 <= j < |entries[1..]| ensures entries[1..][j] == entries[j + 1] {}
        if FirstMatch(entries, env).Some? {
          var i :| FirstHitAt(entries[1..], env, i) && entries[1..][i].0 == FirstMatch(entries, env).value;
          assert FirstHitAt(entries, env, i + 1);
        } else {
          forall j | 0 <= j < |entries| ensures !Hit(env, entries[j].1) {
            if j > 0 { assert entries[j] == entries[1..][j - 1]; }
          }
        }
      }
    }
  }

  /**
   * On ascending entries, the first match is the matching entry with the
   * smallest threshold.
   */
  lemma SmallestMatchingThreshold(entries: Table, env: Env)
    requires Sorted(entries)
    requires FirstMatch(entries, env).Some?
    ensures exists i :: (0 <= i < |entries| && entries[i].0 == FirstMatch(entries, env).value && Hit(env, entries[i].1)
      && forall j | 0 <= j < |entries| && Hit(env, entries[j].1) :: entries[i].1 <= entries[j].1)
  {
    FirstMatchIsFirstHit(entries, env);
    var i :| FirstHitAt(entries, env, i) && entries[i].0 == FirstMatch(entries, env).value;
    forall j | 0 <= j < |entries| && Hit(env, entries[j].1) ensures entries[i].1 <= entries[j].1 {
      assert j >= i;
    }
  }

  // -------------------------------------------------------------- finding

  /**
   * The selection the comment above the loop describes: the entry with the
   * largest threshold whose query matches (the last match in ascending order).
   */
  function LargestMatch(entries: Table, env: Env): Option<string>
    decreases |entries|
  {
    if entries == [] then None
    else if Hit(env, entries[|entries| - 1].1) then Some(entries[|entries| - 1].0)
    else LargestMatch(entries[..|entries| - 1], env)
  }

  /** The breakpoint the comment and the `'md' if width >= 1024px` example intend. */
  function SelectLargestBreakpoint(arg: BreakpointsArg, env: Env): Option<string>
  {
    if !Enabled(arg) || !env.available then None
    else LargestMatch(SortByThreshold(TableOf(arg)), env)
  }

  /**
   * On ascending entries, the intended selection is a matching entry whose
   * threshold is at least every matching threshold; it finds one exactly
   * when the search does.
   */
  lemma {:induction false} LargestMatchingThreshold(entries: Table, env: Env)
    requires Sorted(entries)
    ensures LargestMatch(entries, env).Some? <==> FirstMatch(entries, env).Some?
    ensures LargestMatch(entries, env).Some? ==>
      exists i :: (0 <= i < |entries| && entries[i].0 == LargestMatch(entries, env).value && Hit(env, entries[i].1)
        && forall j | 0 <= j < |entries| && Hit(env, entries[j].1) :: entries[j].1 <= entries[i].1)
    decreases |entries|
  {
    FirstMatchIsFirstHit(entries, env);
    if entries != [] {
      var init, n := entries[..|entries| - 1], |entries| - 1;
      assert Sorted(init);
      LargestMatchingThreshold(init, env);
      FirstMatchIsFirstHit(init, env);
      if Hit(env, entries[n].1) {
        forall j | 0 <= j < |entries| && Hit(env, entries[j].1) ensures entries[j].1 <= entries[n].1 {}
      } else {
        if LargestMatch(init, env).Some? {
          var i :| 0 <= i < |init| && init[i].0 == LargestMatch(init, env).value && Hit(env, init[i].1)
            && forall j | 0 <= j < |init| && Hit(env, init[j].1) :: init[j].1 <= init[i].1;
          forall j | 0 <= j < |entries| && Hit(env, entries[j].1) ensures entries[j].1 <= entries[i].1 {
            assert j < n;
            assert init[j] == entries[j];
          }
        } else {
          forall j | 0 <= j < |entries| ensures !Hit(env, entries[j].1) {
            if j < n { assert init[j] == entries[j]; }
          }
        }
      }
    }
  }

  /**
   * The discrepancy, on a 1100px viewport with the default table: the code
   * returns `xs` (the smallest match), the comment and example intend `md`.
   */
  lemma ViewportOf1100()
    ensures SelectBreakpoint(BpFlag(true), Viewport(1100)) == Some("xs")
    ensures SelectLargestBreakpoint(BpFlag(true), Viewport(1100)) == Some("md")
  {
    DefaultsIncrease();
    SortKeepsSorted(DefaultBreakpoints);
    var d := DefaultBreakpoints;
    assert LargestMatch(d, Viewport(1100)) == LargestMatch(d[..3], Viewport(1100)) by {
      assert d[..5][..4] == d[..4];
      assert d[..4][..3] == d[..3];
    }
  }
}
