/**
 * The release script (scripts/update-version.mjs): read the command line,
 * compute each target package's next version (an exact `--set`, or a
 * `--bump` of the current one, with `--suffix` as the pre-release), and
 * rewrite the references to that package in every package's dependency
 * objects.
 *
 * File access, printing and the `main` orchestration are not modelled: the
 * package objects are given, already read.
 */
module UpdateVersion {
  import opened JsValue
  import opened Utils
  import CoreUtils

  // ------------------------------------------------------------ splitting

  /** `s.split(c)` for a one-character separator. */
  function SplitOn(s: string, c: char): (r: seq<string>)
    ensures |r| >= 1
    ensures forall i | 0 <= i < |r| :: c !in r[i]
    decreases |s|
  {
    if s == [] then [""]
    else if s[0] == c then [""] + SplitOn(s[1..], c)
    else
      var rest := SplitOn(s[1..], c);
      [[s[0]] + rest[0]] + rest[1..]
  }

  /** `pieces.join(c)`. */
  function JoinOn(pieces: seq<string>, c: char): string
  {
    if pieces == [] then ""
    else if |pieces| == 1 then pieces[0]
    else pieces[0] + [c] + JoinOn(pieces[1..], c)
  }

  /** Splitting loses nothing: joining the pieces with the separator gives the text back. */
  lemma {:induction false} SplitJoin(s: string, c: char)
    ensures JoinOn(SplitOn(s, c), c) == s
    decreases |s|
  {
    if s != [] {
      SplitJoin(s[1..], c);
      var rest := SplitOn(s[1..], c);
      if s[0] == c {
        JoinCons("", rest, c);
      } else {
        JoinExtendHead(s[0], rest, c);
      }
      assert s == [s[0]] + s[1..];
    }
  }

  lemma JoinCons(p: string, rest: seq<string>, c: char)
    requires |rest| >= 1
    ensures JoinOn([p] + rest, c) == p + [c] + JoinOn(rest, c)
  {
    assert ([p] + rest)[1..] == rest;
  }

  lemma JoinExtendHead(x: char, rest: seq<string>, c: char)
    requires |rest| >= 1
    ensures JoinOn([[x] + rest[0]] + rest[1..], c) == [x] + JoinOn(rest, c)
  {
    var r := [[x] + rest[0]] + rest[1..];
    if |rest| > 1 {
      assert r[1..] == rest[1..];
    }
  }

  /** A text after its first separator: the first piece is the text before it. */
  lemma {:induction false} SplitAfterPrefix(p: string, v: string, c: char)
    requires c !in p
    ensures SplitOn(p + [c] + v, c) == [p] + SplitOn(v, c)
    decreases |p|
  {
    if p == [] {
      assert p + [c] + v == [c] + v;
      assert ([c] + v)[1..] == v;
    } else {
      assert (p + [c] + v)[1..] == p[1..] + [c] + v;
      SplitAfterPrefix(p[1..], v, c);
      assert [p[0]] + p[1..] == p;
    }
  }

  /** A text holding no separator is one piece. */
  lemma {:induction false} SplitWithout(v: string, c: char)
    requires c !in v
    ensures SplitOn(v, c) == [v]
    decreases |v|
  {
    if v != [] {
      SplitWithout(v[1..], c);
      assert [v[0]] + v[1..] == v;
    }
  }

  // -------------------------------------------------------- command line

  predicate StartsWith(s: string, p: string)
    ensures StartsWith(s, p) && p != [] ==> p[|p| - 1] in s
  {
    |p| <= |s| && s[..|p|] == p
  }

  /** What `parseArgs` returns: a field is `None` until an argument sets it. */
  datatype Opts = Opts(
    dry: bool,
    packages: Option<seq<string>>,
    bump: Option<string>,
    setTo: Option<string>,
    suffix: Option<string>,
    help: bool)

  const NoOpts := Opts(false, None, None, None, None, false)

  /** `arg.split('=')[1]`: the text between the first `=` and the next one. */
  function ArgValue(arg: string): string
    requires '=' in arg
  {
    SplitAtSeparator(arg, '=');
    SplitOn(arg, '=')[1]
  }

  /** A text holding the separator splits into at least two pieces. */
  lemma {:induction false} SplitAtSeparator(s: string, c: char)
    requires c in s
    ensures |SplitOn(s, c)| >= 2
    decreases |s|
  {
    if s[0] != c {
      assert c in s[1..] by {
        var i :| 0 <= i < |s| && s[i] == c;
        assert s[1..][i - 1] == c;
      }
      SplitAtSeparator(s[1..], c);
    }
  }

  /** One step of the `parseArgs` loop. */
  function ParseArg(out: Opts, arg: string): Opts
  {
    if arg == "--dry-run" then out.(dry := true)
    else if StartsWith(arg, "--packages=") then out.(packages := Some(SplitOn(ArgValue(arg), ',')))
    else if StartsWith(arg, "--bump=") then out.(bump := Some(ArgValue(arg)))
    else if StartsWith(arg, "--set=") then out.(setTo := Some(ArgValue(arg)))
    else if StartsWith(arg, "--suffix=") then out.(suffix := Some(ArgValue(arg)))
    else if arg == "--help" || arg == "-h" then out.(help := true)
    else out
  }

  /** The options after reading `argv` from left to right, starting from `out`. */
  function ParseFrom(out: Opts, argv: seq<string>): Opts
    decreases |argv|
  {
    if argv == [] then out else ParseArg(ParseFrom(out, argv[..|argv| - 1]), argv[|argv| - 1])
  }

  /** `parseArgs(argv)`. */
  method ParseArgs(argv: seq<string>) returns (out: Opts)
    ensures out == ParseFrom(NoOpts, argv)
  {
    out := NoOpts;
    for i := 0 to |argv|
      invariant out == ParseFrom(NoOpts, argv[..i])
    {
      assert argv[..i + 1][..i] == argv[..i];
      var arg := argv[i];
      if arg == "--dry-run" {
        out := out.(dry := true);
      } else if StartsWith(arg, "--packages=") {
        out := out.(packages := Some(SplitOn(ArgValue(arg), ',')));
      } else if StartsWith(arg, "--bump=") {
        out := out.(bump := Some(ArgValue(arg)));
      } else if StartsWith(arg, "--set=") {
        out := out.(setTo := Some(ArgValue(arg)));
      } else if StartsWith(arg, "--suffix=") {
        out := out.(suffix := Some(ArgValue(arg)));
      } else if arg == "--help" || arg == "-h" {
        out := out.(help := true);
      }
    }
    assert argv[..|argv|] == argv;
  }

  /** An argument that is none of the recognised forms is ignored. */
  predicate Recognised(arg: string)
  {
    arg == "--dry-run" || arg == "--help" || arg == "-h"
    || StartsWith(arg, "--packages=") || StartsWith(arg, "--bump=")
    || StartsWith(arg, "--set=") || StartsWith(arg, "--suffix=")
  }

  lemma UnknownArgIgnored(out: Opts, argv: seq<string>, arg: string)
    requires !Recognised(arg)
    ensures ParseFrom(out, argv + [arg]) == ParseFrom(out, argv)
  {
    assert (argv + [arg])[..|argv|] == argv;
  }

  /** The three text-valued options that the version computation reads. */
  datatype ValueFlag = BumpFlag | SetFlag | SuffixFlag

  function FlagPrefix(f: ValueFlag): string
  {
    match f
    case BumpFlag => "--bump="
    case SetFlag => "--set="
    case SuffixFlag => "--suffix="
  }

  function FlagValue(o: Opts, f: ValueFlag): Option<string>
  {
    match f
    case BumpFlag => o.bump
    case SetFlag => o.setTo
    case SuffixFlag => o.suffix
  }

  /** An argument for flag `f` sets it; any other argument leaves it as it was. */
  lemma ParseArgFlag(out: Opts, arg: string, f: ValueFlag)
    ensures StartsWith(arg, FlagPrefix(f)) ==> '=' in arg && FlagValue(ParseArg(out, arg), f) == Some(ArgValue(arg))
    ensures !StartsWith(arg, FlagPrefix(f)) ==> FlagValue(ParseArg(out, arg), f) == FlagValue(out, f)
  {
    if StartsWith(arg, FlagPrefix(f)) {
      var p := FlagPrefix(f);
      assert arg[|p| - 1] == p[|p| - 1] == '=';
      assert arg != "--dry-run" by { assert |arg| >= |p| && arg[2] != "--dry-run"[2]; }
      assert !StartsWith(arg, "--packages=") by { assert arg[2] != 'p'; }
      match f {
        case BumpFlag =>
        case SetFlag => assert !StartsWith(arg, "--bump=") by { assert arg[2] != 'b'; }
        case SuffixFlag =>
          assert !StartsWith(arg, "--bump=") by { assert arg[2] != 'b'; }
          assert !StartsWith(arg, "--set=") by { assert arg[3] != 'e'; }
      }
    }
  }

  /**
   * A later flag overrides an earlier one: the value of `f` is that of its
   * last argument, whatever came before it.
   */
  lemma {:induction false} LastFlagWins(out: Opts, before: seq<string>, arg: string, after: seq<string>, f: ValueFlag)
    requires StartsWith(arg, FlagPrefix(f))
    requires forall i | 0 <= i < |after| :: !StartsWith(after[i], FlagPrefix(f))
    ensures '=' in arg
    ensures FlagValue(ParseFrom(out, before + [arg] + after), f) == Some(ArgValue(arg))
    decreases |after|
  {
    ParseArgFlag(out, arg, f);
    var all := before + [arg] + after;
    if after == [] {
      assert all[..|all| - 1] == before;
      ParseArgFlag(ParseFrom(out, before), arg, f);
    } else {
      var init := after[..|after| - 1];
      assert all[..|all| - 1] == before + [arg] + init;
      LastFlagWins(out, before, arg, init, f);
      ParseArgFlag(ParseFrom(out, before + [arg] + init), after[|after| - 1], f);
    }
  }

  /** Reading `a` and then `b` is reading `a + b`: the parse is a left fold. */
  lemma {:induction false} ParseFromAppend(out: Opts, a: seq<string>, b: seq<string>)
    ensures ParseFrom(out, a + b) == ParseFrom(ParseFrom(out, a), b)
    decreases |b|
  {
    if b == [] {
      assert a + b == a;
    } else {
      var init := b[..|b| - 1];
      assert (a + b)[..|a + b| - 1] == a + init;
      ParseFromAppend(out, a, init);
    }
  }

  /** An unrecognised argument is ignored wherever it stands. */
  lemma UnknownArgAnywhere(out: Opts, before: seq<string>, arg: string, after: seq<string>)
    requires !Recognised(arg)
    ensures ParseFrom(out, before + [arg] + after) == ParseFrom(out, before + after)
  {
    ParseFromAppend(out, before + [arg], after);
    UnknownArgIgnored(out, before, arg);
    ParseFromAppend(out, before, after);
  }

  /** Arguments that are not `--packages=` leave the package list as it was. */
  lemma {:induction false} PackagesKept(out: Opts, argv: seq<string>)
    requires forall i | 0 <= i < |argv| :: !StartsWith(argv[i], "--packages=")
    ensures ParseFrom(out, argv).packages == out.packages
    decreases |argv|
  {
    if argv != [] {
      PackagesKept(out, argv[..|argv| - 1]);
    }
  }

  /**
   * The last `--packages=` argument decides the package list: its value
   * split on `,`, whatever came before it.
   */
  lemma LastPackagesWins(out: Opts, before: seq<string>, arg: string, after: seq<string>)
    requires StartsWith(arg, "--packages=")
    requires forall i | 0 <= i < |after| :: !StartsWith(after[i], "--packages=")
    ensures '=' in arg
    ensures ParseFrom(out, before + [arg] + after).packages == Some(SplitOn(ArgValue(arg), ','))
  {
    assert arg != "--dry-run" by { assert arg[2] != "--dry-run"[2]; }
    var mid := ParseFrom(out, before + [arg]);
    assert (before + [arg])[..|before + [arg]| - 1] == before;
    assert mid.packages == Some(SplitOn(ArgValue(arg), ','));
    ParseFromAppend(out, before + [arg], after);
    PackagesKept(mid, after);
  }

  /** `--bump=minor` reads as `minor`. */
  lemma FlagText(f: ValueFlag, v: string)
    requires '=' !in v
    ensures '=' in FlagPrefix(f) + v && ArgValue(FlagPrefix(f) + v) == v
  {
    var p := FlagPrefix(f);
    var q := p[..|p| - 1];
    assert p == q + ['='];
    assert '=' !in q;
    assert p + v == q + ['='] + v;
    assert (p + v)[|p| - 1] == '=';
    SplitAfterPrefix(q, v, '=');
    SplitWithout(v, '=');
  }

  // -------------------------------------------------------------- versions

  /** A version record; `pre` is `undefined` (`None`) when the text has no pre-release. */
  datatype Version = Version(major: nat, minor: nat, patch: nat, pre: Option<string>)

  /** The capture groups of a successful match: three digit runs and the optional pre-release. */
  datatype Groups = Groups(major: string, minor: string, patch: string, pre: Option<string>)

  /** What the pattern `^(\d+)\.(\d+)\.(\d+)(?:-(.+))?$` demands of its groups. */
  predicate WellFormedGroups(g: Groups)
  {
    && |g.major| >= 1 && AllDigits(g.major)
    && |g.minor| >= 1 && AllDigits(g.minor)
    && |g.patch| >= 1 && AllDigits(g.patch)
    && WellFormedPre(g.pre)
  }

  /** `-pre` after the patch number, or nothing. */
  function Tail(pre: Option<string>): string
  {
    if pre.Some? then "-" + pre.value else ""
  }

  /** The text a match with these groups spans. */
  function Compose(g: Groups): string
  {
    g.major + ['.'] + (g.minor + ['.'] + (g.patch + Tail(g.pre)))
  }

  /** A non-empty digit run, then `sep`: the run and the text after `sep`. */
  function Lead(s: string, sep: char): Option<(string, string)>
  {
    var i := CoreUtils.DigitRun(s);
    if i == 0 || i == |s| || s[i] != sep then None else Some((s[..i], s[i + 1..]))
  }

  lemma LeadSound(s: string, sep: char)
    requires Lead(s, sep).Some?
    ensures var d := Lead(s, sep).value.0;
      |d| >= 1 && AllDigits(d) && s == d + [sep] + Lead(s, sep).value.1
  {
    var i := CoreUtils.DigitRun(s);
    assert s == s[..i] + [sep] + s[i + 1..];
  }

  lemma LeadComplete(d: string, sep: char, rest: string)
    requires |d| >= 1 && AllDigits(d) && !IsDigit(sep)
    ensures Lead(d + [sep] + rest, sep) == Some((d, rest))
  {
    var s := d + [sep] + rest;
    CoreUtils.DigitRunOf(d, [sep] + rest);
    assert s == d + ([sep] + rest);
    assert s[..|d|] == d && s[|d| + 1..] == rest;
  }

  /** The patch number, then an optional `-` and a non-empty pre-release, up to the end of the text. */
  function MatchPatch(u: string): Option<(string, Option<string>)>
  {
    var k := CoreUtils.DigitRun(u);
    if k == 0 then None
    else if k == |u| then Some((u, None))
    else if u[k] == '-' && |u| > k + 1 && NoLineTerminator(u[k + 1..]) then Some((u[..k], Some(u[k + 1..])))
    else None
  }

  predicate WellFormedPre(pre: Option<string>)
  {
    pre.Some? ==> pre.value != "" && NoLineTerminator(pre.value)
  }

  lemma PatchSound(u: string)
    requires MatchPatch(u).Some?
    ensures var c := MatchPatch(u).value.0;
      && |c| >= 1 && AllDigits(c) && WellFormedPre(MatchPatch(u).value.1)
      && u == c + Tail(MatchPatch(u).value.1)
  {
    var k := CoreUtils.DigitRun(u);
    if k < |u| {
      assert u == u[..k] + ("-" + u[k + 1..]);
    }
  }

  lemma PatchComplete(c: string, pre: Option<string>)
    requires |c| >= 1 && AllDigits(c) && WellFormedPre(pre)
    ensures MatchPatch(c + Tail(pre)) == Some((c, pre))
  {
    var u := c + Tail(pre);
    CoreUtils.DigitRunOf(c, Tail(pre));
    if pre.Some? {
      assert u[..|c|] == c;
      assert u[|c|] == '-';
      assert u[|c| + 1..] == pre.value;
    } else {
      assert u == c;
    }
  }

  /** `raw.match(/^(\d+)\.(\d+)\.(\d+)(?:-(.+))?$/)`: the groups, or `null`. */
  function MatchVersion(s: string): (r: Option<Groups>)
  {
    match Lead(s, '.')
    case None => None
    case Some(first) =>
      match Lead(first.1, '.')
      case None => None
      case Some(second) =>
        match MatchPatch(second.1)
        case None => None
        case Some(last) => Some(Groups(first.0, second.0, last.0, last.1))
  }

  /** Every match spans the whole text and has well-formed groups. */
  lemma MatchSound(s: string)
    requires MatchVersion(s).Some?
    ensures WellFormedGroups(MatchVersion(s).value)
    ensures Compose(MatchVersion(s).value) == s
  {
    LeadSound(s, '.');
    var t := Lead(s, '.').value.1;
    LeadSound(t, '.');
    PatchSound(Lead(t, '.').value.1);
  }

  /** Every text of the pattern's shape matches, with exactly its own groups. */
  lemma MatchComplete(g: Groups)
    requires WellFormedGroups(g)
    ensures MatchVersion(Compose(g)) == Some(g)
  {
    var u := g.patch + Tail(g.pre);
    var t := g.minor + ['.'] + u;
    LeadComplete(g.major, '.', t);
    LeadComplete(g.minor, '.', u);
    PatchComplete(g.patch, g.pre);
  }

  /** `Number(digits)`: leading zeros are accepted. */
  function DigitsValue(d: string): nat
    requires AllDigits(d)
    decreases |d|
  {
    if d == [] then 0 else 10 * DigitsValue(d[..|d| - 1]) + DigitValue(d[|d| - 1])
  }

  /** `parseVersion(v)`: the matched numbers and pre-release, or `0.0.0` for text that does not match. */
  function ParseVersion(s: string): (v: Version)
    ensures MatchVersion(s).None? ==> v == Version(0, 0, 0, None)
  {
    match MatchVersion(s)
    case None => Version(0, 0, 0, None)
    case Some(g) =>
      MatchSound(s);
      Version(DigitsValue(g.major), DigitsValue(g.minor), DigitsValue(g.patch), g.pre)
  }

  /** `fmtVersion(v)`: `major.minor.patch`, then `-pre` when `pre` is a non-empty text. */
  function FmtVersion(v: Version): (s: string)
  {
    NatToString(v.major) + "." + NatToString(v.minor) + "." + NatToString(v.patch)
      + (if v.pre.Some? && v.pre.value != "" then "-" + v.pre.value else "")
  }

  /** Digits without a superfluous leading zero, as `String(n)` writes them. */
  predicate Canonical(d: string)
  {
    |d| >= 1 && AllDigits(d) && (d[0] == '0' ==> |d| == 1)
  }

  lemma {:induction false} DigitsOfNat(n: nat)
    ensures DigitsValue(NatToString(n)) == n
    decreases n
  {
    if n >= 10 {
      DigitsOfNat(n / 10);
      var d := NatToString(n);
      assert d[..|d| - 1] == NatToString(n / 10);
    }
  }

  lemma {:induction false} LeadingDigitPositive(d: string)
    requires |d| >= 1 && AllDigits(d) && d[0] != '0'
    ensures DigitsValue(d) >= 1
    decreases |d|
  {
    if |d| > 1 {
      LeadingDigitPositive(d[..|d| - 1]);
    }
  }

  lemma {:induction false} NatOfDigits(d: string)
    requires Canonical(d)
    ensures NatToString(DigitsValue(d)) == d
    decreases |d|
  {
    if |d| == 1 {
      assert DigitsValue(d) == DigitValue(d[0]);
    } else {
      var init := d[..|d| - 1];
      assert Canonical(init);
      LeadingDigitPositive(init);
      NatOfDigits(init);
      var n := DigitsValue(d);
      assert n / 10 == DigitsValue(init) && n % 10 == DigitValue(d[|d| - 1]);
      assert d == init + [d[|d| - 1]];
    }
  }

  /** An empty pre-release is written like none, and read back as none. */
  function Normalised(v: Version): Version
  {
    if v.pre == Some("") then v.(pre := None) else v
  }

  /** Reading back a written version gives the record, up to an empty pre-release. */
  lemma FmtThenParse(v: Version)
    requires v.pre.Some? ==> NoLineTerminator(v.pre.value)
    ensures ParseVersion(FmtVersion(v)) == Normalised(v)
  {
    FmtCompose(v);
    MatchComplete(Written(v));
    DigitsOfNat(v.major);
    DigitsOfNat(v.minor);
    DigitsOfNat(v.patch);
  }

  /** Writing a read version gives the text back when its numbers have no leading zeros. */
  lemma ParseThenFmt(s: string)
    requires MatchVersion(s).Some?
    requires var g := MatchVersion(s).value; Canonical(g.major) && Canonical(g.minor) && Canonical(g.patch)
    ensures FmtVersion(ParseVersion(s)) == s
  {
    var g := MatchVersion(s).value;
    MatchSound(s);
    var v := ParseVersion(s);
    NatOfDigits(g.major);
    NatOfDigits(g.minor);
    NatOfDigits(g.patch);
    assert Written(v) == g;
    FmtCompose(v);
  }

  /** The groups `fmtVersion` writes for a record. */
  function Written(v: Version): Groups
  {
    Groups(NatToString(v.major), NatToString(v.minor), NatToString(v.patch),
      if v.pre.Some? && v.pre.value != "" then v.pre else None)
  }

  lemma FmtCompose(v: Version)
    ensures FmtVersion(v) == Compose(Written(v))
  {
  }

  /** A text that does not match reads as `0.0.0` and is written as `0.0.0`. */
  lemma UnmatchedIsZero(s: string)
    requires MatchVersion(s).None?
    ensures FmtVersion(ParseVersion(s)) == "0.0.0"
  {
  }

  /** Leading zeros are accepted and dropped: `01.002.3` reads as 1.2.3. */
  lemma LeadingZerosAccepted()
    ensures ParseVersion("01.002.3") == Version(1, 2, 3, None)
  {
    var g := Groups("01", "002", "3", None);
    assert Compose(g) == "01.002.3";
    ParseOfCompose(g);
    ZeroPadded();
  }

  lemma ZeroPadded()
    ensures DigitsValue("01") == 1 && DigitsValue("002") == 2 && DigitsValue("3") == 3
  {
    assert "01"[..1] == "0";
    assert "002"[..2] == "00" && "00"[..1] == "0";
  }

  // ----------------------------------------------------------------- bumps

  /** Release precedence on the numbers: major, then minor, then patch. */
  predicate Precedes(a: Version, b: Version)
  {
    a.major < b.major
    || (a.major == b.major && a.minor < b.minor)
    || (a.major == b.major && a.minor == b.minor && a.patch < b.patch)
  }

  /** The bump rule: `major` and `minor` reset the lower numbers; any other kind bumps the patch. */
  function Bumped(v: Version, kind: string): (r: Version)
    ensures Precedes(v, r) && r.pre == v.pre
    ensures kind == "major" ==> r.major == v.major + 1 && r.minor == 0 && r.patch == 0
    ensures kind == "minor" ==> r.major == v.major && r.minor == v.minor + 1 && r.patch == 0
    ensures kind != "major" && kind != "minor" ==> r.major == v.major && r.minor == v.minor && r.patch == v.patch + 1
  {
    if kind == "major" then v.(major := v.major + 1, minor := 0, patch := 0)
    else if kind == "minor" then v.(minor := v.minor + 1, patch := 0)
    else v.(patch := v.patch + 1)
  }

  /** The object `parseVersion` returns, whose numbers the bump updates in place. */
  class VersionRecord {
    var major: nat
    var minor: nat
    var patch: nat
    var pre: Option<string>

    function Value(): Version
      reads this
    {
      Version(major, minor, patch, pre)
    }

    constructor (v: Version)
      ensures Value() == v
    {
      major, minor, patch, pre := v.major, v.minor, v.patch, v.pre;
    }

    /** The `if (opts.bump === …)` chain. */
    method Bump(kind: string)
      modifies this
      ensures Value() == Bumped(old(Value()), kind)
    {
      if kind == "major" {
        major := major + 1;
        minor := 0;
        patch := 0;
      } else if kind == "minor" {
        minor := minor + 1;
        patch := 0;
      } else {
        patch := patch + 1;
      }
    }
  }

  /** JavaScript truthiness of an optional text: present and non-empty. */
  predicate Given(o: Option<string>)
  {
    o.Some? && o.value != ""
  }

  /** `opts.suffix || ''`. */
  function SuffixText(suffix: Option<string>): string
  {
    if Given(suffix) then suffix.value else ""
  }

  /** `t.pkg.version || '0.0.0'`. */
  function CurrentVersion(version: Option<string>): string
  {
    if Given(version) then version.value else "0.0.0"
  }

  /** The next version of a package at `cur`, or `None` when neither `--set` nor `--bump` is given. */
  function NewVersion(cur: string, opts: Opts): Option<string>
  {
    if Given(opts.setTo) then Some(FmtVersion(ParseVersion(opts.setTo.value).(pre := Some(SuffixText(opts.suffix)))))
    else if Given(opts.bump) then Some(FmtVersion(Bumped(ParseVersion(cur), opts.bump.value).(pre := Some(SuffixText(opts.suffix)))))
    else None
  }

  /** The per-package version computation, updating a parsed record in place. */
  method NextVersion(version: Option<string>, opts: Opts) returns (newVer: Option<string>)
    ensures newVer == NewVersion(CurrentVersion(version), opts)
  {
    var cur := if version.Some? && version.value != "" then version.value else "0.0.0";
    if opts.setTo.Some? && opts.setTo.value != "" {
      var v := new VersionRecord(ParseVersion(opts.setTo.value));
      v.pre := Some(if opts.suffix.Some? && opts.suffix.value != "" then opts.suffix.value else "");
      newVer := Some(FmtVersion(v.Value()));
    } else if opts.bump.Some? && opts.bump.value != "" {
      var v := new VersionRecord(ParseVersion(cur));
      v.Bump(opts.bump.value);
      v.pre := Some(if opts.suffix.Some? && opts.suffix.value != "" then opts.suffix.value else "");
      newVer := Some(FmtVersion(v.Value()));
    } else {
      newVer := None;
    }
  }

  /** `--set` takes precedence over `--bump` and ignores the current version. */
  lemma SetWins(cur1: string, cur2: string, opts: Opts)
    requires Given(opts.setTo)
    ensures NewVersion(cur1, opts) == NewVersion(cur2, opts) == NewVersion(cur1, opts.(bump := None))
  {
  }

  /** With neither `--set` nor `--bump` the package is skipped. */
  lemma NeitherSkips(cur: string, opts: Opts)
    requires !Given(opts.setTo) && !Given(opts.bump)
    ensures NewVersion(cur, opts) == None
  {
  }

  /**
   * The new version reads back with the bumped (or set) numbers, and with
   * `--suffix` as its pre-release, or none: an old pre-release never survives.
   */
  lemma NewVersionReadsBack(cur: string, opts: Opts)
    requires Given(opts.setTo) || Given(opts.bump)
    requires NoLineTerminator(SuffixText(opts.suffix))
    ensures NewVersion(cur, opts).Some?
    ensures var v := ParseVersion(NewVersion(cur, opts).value);
      var base := if Given(opts.setTo) then ParseVersion(opts.setTo.value) else Bumped(ParseVersion(cur), opts.bump.value);
      && v.major == base.major && v.minor == base.minor && v.patch == base.patch
      && v.pre == (if Given(opts.suffix) then opts.suffix else None)
  {
    var base := if Given(opts.setTo) then ParseVersion(opts.setTo.value) else Bumped(ParseVersion(cur), opts.bump.value);
    FmtThenParse(base.(pre := Some(SuffixText(opts.suffix))));
  }

  /** A bump gives a version of higher precedence than the current one. */
  lemma BumpIncreases(cur: string, opts: Opts)
    requires !Given(opts.setTo) && Given(opts.bump)
    requires NoLineTerminator(SuffixText(opts.suffix))
    ensures NewVersion(cur, opts).Some?
    ensures Precedes(ParseVersion(cur), ParseVersion(NewVersion(cur, opts).value))
  {
    NewVersionReadsBack(cur, opts);
  }

  /** Reading a text of the pattern's shape gives its numbers and its pre-release. */
  lemma ParseOfCompose(g: Groups)
    requires WellFormedGroups(g)
    ensures ParseVersion(Compose(g)) == Version(DigitsValue(g.major), DigitsValue(g.minor), DigitsValue(g.patch), g.pre)
  {
    MatchComplete(g);
  }

  /**
   * Bumping `a.b.c-pre` without `--suffix` writes the bumped numbers alone:
   * the old pre-release is cleared.
   */
  lemma BumpClearsPre(v: Version, kind: string)
    requires kind != ""
    requires v.pre.Some? ==> NoLineTerminator(v.pre.value)
    ensures NewVersion(FmtVersion(v), NoOpts.(bump := Some(kind))) == Some(FmtVersion(Bumped(v, kind).(pre := None)))
  {
    FmtThenParse(v);
    var w := Bumped(Normalised(v), kind);
    assert w.(pre := Some("")) == Bumped(v, kind).(pre := Some(""));
    assert FmtVersion(w.(pre := Some(""))) == FmtVersion(Bumped(v, kind).(pre := None));
  }

  /** `--set=a.b.c-pre` without `--suffix` gives `a.b.c`: a pre-release inside `--set` is replaced too. */
  lemma SetDropsOwnPre(cur: string, a: nat, b: nat, c: nat, pre: string)
    requires NoLineTerminator(pre)
    ensures NewVersion(cur, NoOpts.(setTo := Some(FmtVersion(Version(a, b, c, Some(pre))))))
      == Some(FmtVersion(Version(a, b, c, None)))
  {
    FmtThenParse(Version(a, b, c, Some(pre)));
  }

  // -------------------------------------------------- dependency references

  /** The four dependency objects, in the order the script visits them. */
  const DependencyFields: seq<string> := ["dependencies", "devDependencies", "peerDependencies", "optionalDependencies"]

  /** A `package.json` object: its name, version and the dependency objects it has. */
  class PackageJson {
    var name: Option<string>
    var version: Option<string>
    /** The dependency objects present, by field name. */
    var deps: map<string, map<string, string>>

    constructor (name: Option<string>, version: Option<string>, deps: map<string, map<string, string>>)
      ensures this.name == name && this.version == version && this.deps == deps
    {
      this.name, this.version, this.deps := name, version, deps;
    }
  }

  /** One dependency object with the entry named exactly `name` (if any) set to `newVer`. */
  function RewriteObject(obj: map<string, string>, name: Option<string>, newVer: string): (r: map<string, string>)
    ensures r.Keys == obj.Keys
    ensures forall d | d in obj :: r[d] == if name == Some(d) then newVer else obj[d]
  {
    if name.Some? && name.value in obj then obj[name.value := newVer] else obj
  }

  /** The dependency objects after the `forEach` over `fields`. */
  function RewriteFields(deps: map<string, map<string, string>>, fields: seq<string>,
                         name: Option<string>, newVer: string): map<string, map<string, string>>
    decreases |fields|
  {
    if fields == [] then deps
    else
      var before := RewriteFields(deps, fields[..|fields| - 1], name, newVer);
      var f := fields[|fields| - 1];
      if f in before then before[f := RewriteObject(before[f], name, newVer)] else before
  }

  /** Whether some listed dependency object has an entry named exactly `name`. */
  predicate References(deps: map<string, map<string, string>>, fields: seq<string>, name: Option<string>)
  {
    exists i | 0 <= i < |fields| :: fields[i] in deps && name.Some? && name.value in deps[fields[i]]
  }

  /**
   * The rewrite touches only the listed fields, keeps every key, and changes
   * exactly the entries named after the package.
   */
  lemma {:induction false} RewriteFieldsAt(deps: map<string, map<string, string>>, fields: seq<string>,
                                           name: Option<string>, newVer: string, f: string)
    ensures RewriteFields(deps, fields, name, newVer).Keys == deps.Keys
    ensures f in deps && f in fields ==> RewriteFields(deps, fields, name, newVer)[f] == RewriteObject(deps[f], name, newVer)
    ensures f in deps && f !in fields ==> RewriteFields(deps, fields, name, newVer)[f] == deps[f]
    decreases |fields|
  {
    if fields != [] {
      var init := fields[..|fields| - 1];
      RewriteFieldsAt(deps, init, name, newVer, f);
      var last := fields[|fields| - 1];
      assert fields == init + [last];
      if f in deps && f == last && f in init {
        var before := RewriteFields(deps, init, name, newVer);
        assert before[f] == RewriteObject(deps[f], name, newVer);
        RewriteObjectTwice(deps[f], name, newVer);
      }
    }
  }

  /** Rewriting twice is rewriting once. */
  lemma RewriteObjectTwice(obj: map<string, string>, name: Option<string>, newVer: string)
    ensures RewriteObject(RewriteObject(obj, name, newVer), name, newVer) == RewriteObject(obj, name, newVer)
  {
  }

  /** Nothing changes for a package that does not reference the bumped one. */
  lemma {:induction false} NoReferenceNoChange(deps: map<string, map<string, string>>, fields: seq<string>,
                                               name: Option<string>, newVer: string)
    requires !References(deps, fields, name)
    ensures RewriteFields(deps, fields, name, newVer) == deps
    decreases |fields|
  {
    if fields != [] {
      var init := fields[..|fields| - 1];
      NoReferenceNoChange(deps, init, name, newVer);
    }
  }

  /**
   * The `forEach` over the four dependency fields of one package: every entry
   * named exactly after the updated package is set to the new version, and
   * the result says whether anything was.
   */
  method RewriteReferences(other: PackageJson, name: Option<string>, newVer: string) returns (changed: bool)
    modifies other
    ensures other.deps == RewriteFields(old(other.deps), DependencyFields, name, newVer)
    ensures other.name == old(other.name) && other.version == old(other.version)
    ensures changed <==> References(old(other.deps), DependencyFields, name)
  {
    changed := false;
    ghost var start := other.deps;
    for i := 0 to |DependencyFields|
      invariant other.deps == RewriteFields(start, DependencyFields[..i], name, newVer)
      invariant other.name == old(other.name) && other.version == old(other.version)
      invariant changed <==> References(start, DependencyFields[..i], name)
    {
      var field := DependencyFields[i];
      RewriteStep(start, DependencyFields, name, newVer, i);
      if field in other.deps {
        var obj := other.deps[field];
        if name.Some? && name.value in obj {
          other.deps := other.deps[field := obj[name.value := newVer]];
          changed := true;
        }
      }
    }
    assert DependencyFields[..|DependencyFields|] == DependencyFields;
  }

  /** One turn of the `forEach`: the field's object is rewritten if it holds the name, and the reference test grows by that field. */
  lemma RewriteStep(deps: map<string, map<string, string>>, fields: seq<string>, name: Option<string>, newVer: string, i: nat)
    requires i < |fields|
    ensures var cur := RewriteFields(deps, fields[..i], name, newVer);
      var f := fields[i];
      && RewriteFields(deps, fields[..i + 1], name, newVer)
         == (if f in cur && name.Some? && name.value in cur[f] then cur[f := cur[f][name.value := newVer]] else cur)
      && (References(deps, fields[..i + 1], name) <==>
          References(deps, fields[..i], name) || (f in cur && name.Some? && name.value in cur[f]))
  {
    var f := fields[i];
    assert fields[..i + 1][..i] == fields[..i];
    assert fields[..i + 1][i] == f;
    RewriteFieldsAt(deps, fields[..i], name, newVer, f);
    ReferencesStep(deps, fields, name, i);
  }

  lemma ReferencesStep(deps: map<string, map<string, string>>, fields: seq<string>, name: Option<string>, i: nat)
    requires i < |fields|
    ensures References(deps, fields[..i + 1], name) <==>
      References(deps, fields[..i], name) || (fields[i] in deps && name.Some? && name.value in deps[fields[i]])
  {
    var pre := fields[..i + 1];
    if References(deps, fields[..i], name) {
      var j :| 0 <= j < i && fields[..i][j] in deps && name.Some? && name.value in deps[fields[..i][j]];
      assert pre[j] == fields[j];
    }
    if References(deps, pre, name) {
      var j :| 0 <= j < i + 1 && pre[j] in deps && name.Some? && name.value in deps[pre[j]];
      if j < i { assert fields[..i][j] == pre[j]; }
    }
    assert pre[i] == fields[i];
  }

  /** The packages as a set of objects, for frames. */
  function Objects(packages: seq<PackageJson>): set<PackageJson>
  {
    set i | 0 <= i < |packages| :: packages[i]
  }

  /**
   * The loop over all packages for one updated package named `name`: every
   * package's references are rewritten, and `written[k]` says whether
   * package `k` had one (and so would be written back).
   */
  method RewriteAll(packages: seq<PackageJson>, name: Option<string>, newVer: string) returns (written: seq<bool>)
    requires forall i, j | 0 <= i < j < |packages| :: packages[i] != packages[j]
    modifies Objects(packages)
    ensures |written| == |packages|
    ensures forall i | 0 <= i < |packages| ::
      packages[i].name == old(packages[i].name) && packages[i].version == old(packages[i].version)
    ensures forall i | 0 <= i < |packages| ::
      packages[i].deps == RewriteFields(old(packages[i].deps), DependencyFields, name, newVer)
    ensures forall i | 0 <= i < |packages| ::
      written[i] <==> References(old(packages[i].deps), DependencyFields, name)
  {
    written := [];
    for i := 0 to |packages|
      invariant |written| == i
      invariant forall k | 0 <= k < |packages| ::
        packages[k].name == old(packages[k].name) && packages[k].version == old(packages[k].version)
      invariant forall k | 0 <= k < i ::
        packages[k].deps == RewriteFields(old(packages[k].deps), DependencyFields, name, newVer)
      invariant forall k | i <= k < |packages| :: packages[k].deps == old(packages[k].deps)
      invariant forall k | 0 <= k < i ::
        written[k] <==> References(old(packages[k].deps), DependencyFields, name)
    {
      var changed := RewriteReferences(packages[i], name, newVer);
      written := written + [changed];
    }
  }

  /**
   * One pass of the script's loop for target `t`: compute its next version;
   * if there is one, store it and rewrite the references in every package
   * (`t` among them).
   */
  method UpdateTarget(t: PackageJson, packages: seq<PackageJson>, opts: Opts)
    returns (newVer: Option<string>, written: seq<bool>)
    requires t in Objects(packages)
    requires forall i, j | 0 <= i < j < |packages| :: packages[i] != packages[j]
    modifies Objects(packages)
    ensures newVer == NewVersion(CurrentVersion(old(t.version)), opts)
    ensures newVer.None? ==> written == [] && forall i | 0 <= i < |packages| ::
      packages[i].version == old(packages[i].version) && packages[i].deps == old(packages[i].deps)
    ensures newVer.Some? ==> t.version == Some(newVer.value) && |written| == |packages|
    ensures forall i | 0 <= i < |packages| :: packages[i].name == old(packages[i].name)
    ensures forall i | 0 <= i < |packages| && packages[i] != t :: packages[i].version == old(packages[i].version)
    ensures newVer.Some? ==> forall i | 0 <= i < |packages| ::
      packages[i].deps == RewriteFields(old(packages[i].deps), DependencyFields, old(t.name), newVer.value)
    ensures newVer.Some? ==> forall i | 0 <= i < |packages| ::
      written[i] <==> References(old(packages[i].deps), DependencyFields, old(t.name))
  {
    written := [];
    newVer := NextVersion(t.version, opts);
    if newVer.None? {
      return;
    }
    t.version := Some(newVer.value);
    written := RewriteAll(packages, t.name, newVer.value);
  }

  // ------------------------------------------------------------- targets

  /** `r` is `s[i..j]`, and everything outside that slice is white space. */
  ghost predicate TrimmedAt(s: string, r: string, i: int, j: int)
  {
    && 0 <= i <= j <= |s| && r == s[i..j]
    && (forall k | 0 <= k < i :: IsJsSpace(s[k]))
    && (forall k | j <= k < |s| :: IsJsSpace(s[k]))
  }

  lemma TrimmedFront(s: string, r: string, i: int, j: int)
    requires s != [] && IsJsSpace(s[0]) && TrimmedAt(s[1..], r, i, j)
    ensures TrimmedAt(s, r, i + 1, j + 1)
  {
    assert s[i + 1..j + 1] == s[1..][i..j];
    forall k | j + 1 <= k < |s| ensures IsJsSpace(s[k]) {
      assert s[k] == s[1..][k - 1];
    }
    forall k | 0 < k < i + 1 ensures IsJsSpace(s[k]) {
      assert s[k] == s[1..][k - 1];
    }
  }

  lemma TrimmedBack(s: string, r: string, i: int, j: int)
    requires s != [] && IsJsSpace(s[|s| - 1]) && TrimmedAt(s[..|s| - 1], r, i, j)
    ensures TrimmedAt(s, r, i, j)
  {
    assert s[i..j] == s[..|s| - 1][i..j];
    forall k | j <= k < |s| ensures IsJsSpace(s[k]) {
      if k < |s| - 1 { assert s[k] == s[..|s| - 1][k]; }
    }
    forall k | 0 <= k < i ensures IsJsSpace(s[k]) {
      assert s[k] == s[..|s| - 1][k];
    }
  }

  /** `String.prototype.trim`: the text with the white space at both ends removed, and only that. */
  function Trim(s: string): (r: string)
    ensures exists i, j :: TrimmedAt(s, r, i, j)
    ensures r != "" ==> !IsJsSpace(r[0]) && !IsJsSpace(r[|r| - 1])
    decreases |s|
  {
    if s == [] then
      assert TrimmedAt(s, s, 0, 0);
      s
    else if IsJsSpace(s[0]) then
      var r := Trim(s[1..]);
      assert exists i, j :: TrimmedAt(s, r, i, j) by {
        var i, j :| TrimmedAt(s[1..], r, i, j);
        TrimmedFront(s, r, i, j);
      }
      r
    else if IsJsSpace(s[|s| - 1]) then
      var r := Trim(s[..|s| - 1]);
      assert exists i, j :: TrimmedAt(s, r, i, j) by {
        var i, j :| TrimmedAt(s[..|s| - 1], r, i, j);
        TrimmedBack(s, r, i, j);
      }
      r
    else
      assert s[0..|s|] == s;
      assert TrimmedAt(s, s, 0, |s|);
      s
  }

  /** Whether a package, by directory name and `name` field, is one the `--packages` list asks for. */
  predicate Wanted(dirName: string, name: Option<string>, packages: Option<seq<string>>)
  {
    packages.None? || |packages.value| == 0
    || (exists i | 0 <= i < |packages.value| :: Trim(packages.value[i]) == dirName)
    || (name.Some? && exists i | 0 <= i < |packages.value| :: Trim(packages.value[i]) == name.value)
  }

  /** The target filter: the packages, in order, that are wanted. */
  function SelectTargets(found: seq<(string, Option<string>)>, packages: Option<seq<string>>): (r: seq<(string, Option<string>)>)
    ensures forall i | 0 <= i < |r| :: r[i] in found && Wanted(r[i].0, r[i].1, packages)
    ensures forall i | 0 <= i < |found| && Wanted(found[i].0, found[i].1, packages) :: found[i] in r
    ensures packages.None? ==> r == found
    decreases |found|
  {
    if found == [] then []
    else
      var rest := SelectTargets(found[1..], packages);
      assert forall x | x in found[1..] :: x in found;
      if Wanted(found[0].0, found[0].1, packages) then [found[0]] + rest else rest
  }

  /** Selection distributes over concatenation, so targets keep the order in which packages were found. */
  lemma {:induction false} SelectTargetsAppend(a: seq<(string, Option<string>)>, b: seq<(string, Option<string>)>,
                                               packages: Option<seq<string>>)
    ensures SelectTargets(a + b, packages) == SelectTargets(a, packages) + SelectTargets(b, packages)
    decreases |a|
  {
    if a == [] {
      assert a + b == b;
    } else {
      assert (a + b)[0] == a[0];
      assert (a + b)[1..] == a[1..] + b;
      SelectTargetsAppend(a[1..], b, packages);
    }
  }

  predicate Distinct(xs: seq<(string, Option<string>)>)
  {
    forall i, j | 0 <= i < j < |xs| :: xs[i] != xs[j]
  }

  /** Packages found once are selected at most once, so no target is updated twice. */
  lemma {:induction false} SelectTargetsDistinct(found: seq<(string, Option<string>)>, packages: Option<seq<string>>)
    requires Distinct(found)
    ensures Distinct(SelectTargets(found, packages))
    decreases |found|
  {
    if found != [] {
      var tail := found[1..];
      DistinctTail(found);
      SelectTargetsDistinct(tail, packages);
      var rest := SelectTargets(tail, packages);
      if Wanted(found[0].0, found[0].1, packages) {
        assert SelectTargets(found, packages) == [found[0]] + rest;
        HeadNotSelectedAgain(found, rest);
        DistinctCons(found[0], rest);
      } else {
        assert SelectTargets(found, packages) == rest;
      }
    }
  }

  lemma DistinctTail(xs: seq<(string, Option<string>)>)
    requires xs != [] && Distinct(xs)
    ensures Distinct(xs[1..])
  {
    var tail := xs[1..];
    forall i, j | 0 <= i < j < |tail| ensures tail[i] != tail[j] {
      assert tail[i] == xs[i + 1] && tail[j] == xs[j + 1];
    }
  }

  lemma DistinctCons(x: (string, Option<string>), rest: seq<(string, Option<string>)>)
    requires Distinct(rest)
    requires forall i | 0 <= i < |rest| :: rest[i] != x
    ensures Distinct([x] + rest)
  {
    var r := [x] + rest;
    forall i, j | 0 <= i < j < |r| ensures r[i] != r[j] {
      if i == 0 {
        assert r[j] == rest[j - 1];
      } else {
        assert r[i] == rest[i - 1] && r[j] == rest[j - 1];
      }
    }
  }

  lemma HeadNotSelectedAgain(found: seq<(string, Option<string>)>, rest: seq<(string, Option<string>)>)
    requires found != [] && Distinct(found)
    requires forall i | 0 <= i < |rest| :: rest[i] in found[1..]
    ensures forall i | 0 <= i < |rest| :: rest[i] != found[0]
  {
    forall i | 0 <= i < |rest| ensures rest[i] != found[0] {
      var k :| 0 <= k < |found[1..]| && found[1..][k] == rest[i];
      assert found[k + 1] == rest[i];
    }
  }
}
