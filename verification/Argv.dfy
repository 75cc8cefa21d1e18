/** parseArgv: `--mode`, `--port`, `--db`, in the space form and the `=` form. */
module Argv {
  import opened Prelude
  import opened Text

  datatype Mode = Standalone | Saas
  datatype Overrides = Overrides(mode: Option<Mode>, port: Option<int>, dbPath: Option<string>)

  const NOTHING := Overrides(None, None, None)

  /** `Number(s)` when that is an integer; None when it is NaN, infinite or fractional. */
  type NumberOf = string -> Option<int>

  predicate IsFlag(s: string) {
    |s| >= 2 && s[0] == '-' && s[1] == '-'
  }

  /** Where the first `=` is, or the length when there is none. */
  function IndexOfEq(s: string): (i: nat)
    ensures i <= |s| && '=' !in s[..i] && (i < |s| ==> s[i] == '=')
  {
    if s == "" || s[0] == '=' then 0 else
      var i := IndexOfEq(s[1..]);
      assert s[..i + 1] == [s[0]] + s[1..][..i];
      i + 1
  }

  lemma {:induction false} FirstEqIs(s: string, k: nat)
    requires k <= |s| && '=' !in s[..k] && (k < |s| ==> s[k] == '=')
    ensures IndexOfEq(s) == k
  {
    if k > 0 {
      assert s[0] == s[..k][0] && s[1..][..k - 1] == s[..k][1..];
      FirstEqIs(s[1..], k - 1);
    }
  }

  lemma FlagHasNoEarlyEq(s: string)
    requires IsFlag(s)
    ensures IndexOfEq(s) >= 2
  {
  }

  /** One recognised key with its value; anything else changes nothing. */
  function Apply(number: NumberOf, out: Overrides, key: string, val: string): Overrides {
    if key == "mode" then
      if val == "standalone" then out.(mode := Some(Standalone))
      else if val == "saas" then out.(mode := Some(Saas))
      else out
    else if key == "port" then
      if number(val).Some? && 0 <= number(val).value <= 65_535 then out.(port := number(val)) else out
    else if key == "db" || key == "db-path" then out.(dbPath := Some(val))
    else out
  }

  /** The rest of the command line, given what was read so far. */
  function ParseFrom(number: NumberOf, argv: seq<string>, out: Overrides): Overrides
    decreases |argv|
  {
    if argv == [] then out
    else if !IsFlag(argv[0]) then ParseFrom(number, argv[1..], out)
    else
      FlagHasNoEarlyEq(argv[0]);
      var eq := IndexOfEq(argv[0]);
      if eq < |argv[0]| then
        ParseFrom(number, argv[1..], Apply(number, out, argv[0][2..eq], argv[0][eq + 1..]))
      else if |argv| > 1 && !IsFlag(argv[1]) then
        ParseFrom(number, argv[2..], Apply(number, out, argv[0][2..], argv[1]))
      else
        ParseFrom(number, argv[1..], out)
  }

  function Parse(number: NumberOf, argv: seq<string>): Overrides {
    ParseFrom(number, argv, NOTHING)
  }

  method ParseArgv(number: NumberOf, argv: seq<string>) returns (out: Overrides)
    ensures out == Parse(number, argv)
  {
    out := NOTHING;
    var i := 0;
    assert argv[0..] == argv;
    while i < |argv|
      invariant 0 <= i <= |argv|
      invariant ParseFrom(number, argv[i..], out) == Parse(number, argv)
    {
      var arg := argv[i];
      assert argv[i..][0] == arg && argv[i..][1..] == argv[i + 1..];
      if IsFlag(arg) {
        FlagHasNoEarlyEq(arg);
        var eq := IndexOfEq(arg);
        var key := arg[2..eq];
        assert eq == |arg| ==> key == arg[2..];
        var val := None;
        if eq < |arg| {
          val := Some(arg[eq + 1..]);
        } else if i + 1 < |argv| && !IsFlag(argv[i + 1]) {
          assert argv[i..][1] == argv[i + 1] && argv[i..][2..] == argv[i + 2..];
          i := i + 1;
          val := Some(argv[i]);
        }
        if val.Some? {
          out := Apply(number, out, key, val.value);
        }
      }
      i := i + 1;
    }
  }

  /** Later options win, unset ones leave the earlier answer. */
  function Override(first: Overrides, second: Overrides): Overrides {
    Overrides(if second.mode.Some? then second.mode else first.mode,
              if second.port.Some? then second.port else first.port,
              if second.dbPath.Some? then second.dbPath else first.dbPath)
  }

  lemma {:induction false} ParseOnTopOf(number: NumberOf, argv: seq<string>, base: Overrides, out: Overrides)
    ensures ParseFrom(number, argv, Override(base, out)) == Override(base, ParseFrom(number, argv, out))
    decreases |argv|
  {
    if argv != [] && !IsFlag(argv[0]) {
      ParseOnTopOf(number, argv[1..], base, out);
    } else if argv != [] {
      FlagHasNoEarlyEq(argv[0]);
      var eq := IndexOfEq(argv[0]);
      if eq < |argv[0]| {
        ParseOnTopOf(number, argv[1..], base, Apply(number, out, argv[0][2..eq], argv[0][eq + 1..]));
      } else if |argv| > 1 && !IsFlag(argv[1]) {
        ParseOnTopOf(number, argv[2..], base, Apply(number, out, argv[0][2..], argv[1]));
      } else {
        ParseOnTopOf(number, argv[1..], base, out);
      }
    }
  }

  predicate StartsWithFlag(argv: seq<string>) {
    argv == [] || IsFlag(argv[0])
  }

  /** A flag is never eaten as somebody's value, so parsing restarts cleanly there. */
  lemma {:induction false} ParseContinues(number: NumberOf, a: seq<string>, b: seq<string>, out: Overrides)
    requires StartsWithFlag(b)
    ensures ParseFrom(number, a + b, out) == ParseFrom(number, b, ParseFrom(number, a, out))
    decreases |a|
  {
    if a == [] {
      assert a + b == b;
    } else {
      assert (a + b)[1..] == a[1..] + b;
      if |a| > 1 {
        assert (a + b)[2..] == a[2..] + b;
      } else if b != [] {
        assert (a + b)[1] == b[0];
      }
      if !IsFlag(a[0]) {
        ParseContinues(number, a[1..], b, out);
      } else {
        FlagHasNoEarlyEq(a[0]);
        var eq := IndexOfEq(a[0]);
        if eq < |a[0]| {
          ParseContinues(number, a[1..], b, Apply(number, out, a[0][2..eq], a[0][eq + 1..]));
        } else if |a| > 1 && !IsFlag(a[1]) {
          ParseContinues(number, a[2..], b, Apply(number, out, a[0][2..], a[1]));
        } else {
          ParseContinues(number, a[1..], b, out);
        }
      }
    }
  }

  /** Two command lines put together are the first overridden by the second. */
  lemma ConcatenationOverrides(number: NumberOf, a: seq<string>, b: seq<string>)
    requires StartsWithFlag(b)
    ensures Parse(number, a + b) == Override(Parse(number, a), Parse(number, b))
  {
    ParseContinues(number, a, b, NOTHING);
    ParseOnTopOf(number, b, Parse(number, a), NOTHING);
  }

  /** The condition is needed: a trailing valueless flag swallows a bare word. */
  lemma BareWordIsSwallowed(number: NumberOf)
    ensures Parse(number, ["--db"] + ["x"]).dbPath == Some("x")
    ensures Override(Parse(number, ["--db"]), Parse(number, ["x"])).dbPath == None
  {
    FirstEqIs("--db", 4);
    assert ["--db"] + ["x"] == ["--db", "x"] && ["--db", "x"][2..] == [];
  }

  lemma IndexOfEqIn(key: string, rest: string)
    requires '=' !in key
    ensures IndexOfEq("--" + key) == |key| + 2
    ensures IndexOfEq("--" + key + "=" + rest) == |key| + 2
  {
    var bare, full := "--" + key, "--" + key + "=" + rest;
    assert bare[..|bare|] == bare && full[..|bare|] == bare && full[|bare|] == '=';
    FirstEqIs(bare, |bare|);
    FirstEqIs(full, |bare|);
  }

  /** Anywhere on a command line, `--k v` is `--k=v` whenever v does not itself look like a flag. */
  lemma SpaceFormIsEqualsForm(number: NumberOf, before: seq<string>, key: string, val: string, after: seq<string>)
    requires '=' !in key && !IsFlag(val)
    ensures Parse(number, before + (["--" + key, val] + after)) == Parse(number, before + (["--" + key + "=" + val] + after))
  {
    IndexOfEqIn(key, val);
    var bare, full := "--" + key, "--" + key + "=" + val;
    var x, y := [bare, val] + after, [full] + after;
    var out := ParseFrom(number, before, NOTHING);
    ParseContinues(number, before, x, NOTHING);
    ParseContinues(number, before, y, NOTHING);
    assert x[2..] == after && y[1..] == after;
    assert bare[2..] == key && full[2..|key| + 2] == key && full[|key| + 3..] == val;
  }

  predicate ValidPort(o: Overrides) {
    o.port.Some? ==> 0 <= o.port.value <= 65_535
  }

  /** Whatever the command line says, a port that comes out is a port. */
  lemma {:induction false} PortsAreInRange(number: NumberOf, argv: seq<string>, out: Overrides)
    requires ValidPort(out)
    ensures ValidPort(ParseFrom(number, argv, out))
    decreases |argv|
  {
    if argv != [] && !IsFlag(argv[0]) {
      PortsAreInRange(number, argv[1..], out);
    } else if argv != [] {
      FlagHasNoEarlyEq(argv[0]);
      var eq := IndexOfEq(argv[0]);
      if eq < |argv[0]| {
        PortsAreInRange(number, argv[1..], Apply(number, out, argv[0][2..eq], argv[0][eq + 1..]));
      } else if |argv| > 1 && !IsFlag(argv[1]) {
        PortsAreInRange(number, argv[2..], Apply(number, out, argv[0][2..], argv[1]));
      } else {
        PortsAreInRange(number, argv[1..], out);
      }
    }
  }

  /** No such option, or no such value for it. */
  predicate Unusable(number: NumberOf, key: string, val: string) {
    || key !in {"mode", "port", "db", "db-path"}
    || (key == "mode" && val !in {"standalone", "saas"})
    || (key == "port" && !(number(val).Some? && 0 <= number(val).value <= 65_535))
  }

  /** An unusable option in `=` form might as well not be there; it unsets nothing given before it. */
  lemma UnusableOptionsAreIgnored(number: NumberOf, before: seq<string>, key: string, val: string, after: seq<string>)
    requires '=' !in key && Unusable(number, key, val) && StartsWithFlag(after)
    ensures Parse(number, before + (["--" + key + "=" + val] + after)) == Parse(number, before + after)
  {
    IndexOfEqIn(key, val);
    var full := "--" + key + "=" + val;
    var rest := [full] + after;
    ParseContinues(number, before, rest, NOTHING);
    ParseContinues(number, before, after, NOTHING);
    assert rest[1..] == after;
    assert full[2..|key| + 2] == key && full[|key| + 3..] == val;
  }

  /** What an option does wherever it stands, and that the last one of its kind wins. */
  lemma LastOptionWins(number: NumberOf, before: seq<string>, key: string, val: string)
    requires '=' !in key
    ensures var (o, r) := (Parse(number, before), Parse(number, before + ["--" + key + "=" + val]));
            && (key in {"db", "db-path"} ==> r == o.(dbPath := Some(val)))
            && (key == "mode" && val == "standalone" ==> r == o.(mode := Some(Standalone)))
            && (key == "mode" && val == "saas" ==> r == o.(mode := Some(Saas)))
            && (key == "port" && !Unusable(number, key, val) ==> r == o.(port := number(val)))
            && (Unusable(number, key, val) ==> r == o)
  {
    IndexOfEqIn(key, val);
    var full := "--" + key + "=" + val;
    var option := [full];
    ParseContinues(number, before, option, NOTHING);
    assert option[1..] == [];
    assert full[2..|key| + 2] == key && full[|key| + 3..] == val;
  }

  /** A word that is no flag's value is skipped, and so is a flag that has none. */
  lemma StrayWordsAreSkipped(number: NumberOf, before: seq<string>, key: string, val: string, word: string, after: seq<string>)
    requires '=' !in key && !IsFlag(word)
    ensures Parse(number, [word] + after) == Parse(number, after)
    ensures Parse(number, before + (["--" + key + "=" + val, word] + after)) == Parse(number, before + (["--" + key + "=" + val] + after))
    ensures StartsWithFlag(after) ==> Parse(number, before + (["--" + key] + after)) == Parse(number, before + after)
  {
    IndexOfEqIn(key, val);
    var bare, full := "--" + key, "--" + key + "=" + val;
    var x, y, z := [full, word] + after, [full] + after, [bare] + after;
    ParseContinues(number, before, x, NOTHING);
    ParseContinues(number, before, y, NOTHING);
    ParseContinues(number, before, z, NOTHING);
    assert x[1..] == [word] + after && ([word] + after)[1..] == after && y[1..] == after && z[1..] == after;
    if StartsWithFlag(after) {
      ParseContinues(number, before, after, NOTHING);
      assert after != [] ==> z[1] == after[0];
    }
  }

  function ModeText(m: Mode): string {
    if m == Standalone then "standalone" else "saas"
  }

  function Flag(key: string, val: Option<string>): seq<string> {
    if val.Some? then ["--" + key + "=" + val.value] else []
  }

  function Print(o: Overrides): seq<string>
    requires o.port.Some? ==> o.port.value >= 0
  {
    Flag("mode", if o.mode.Some? then Some(ModeText(o.mode.value)) else None)
    + Flag("port", if o.port.Some? then Some(ToDecimal(o.port.value)) else None)
    + Flag("db", o.dbPath)
  }

  lemma ParseOfFlag(number: NumberOf, key: string, val: Option<string>, out: Overrides)
    requires '=' !in key
    ensures StartsWithFlag(Flag(key, val))
    ensures ParseFrom(number, Flag(key, val), out) == if val.Some? then Apply(number, out, key, val.value) else out
  {
    if val.Some? {
      IndexOfEqIn(key, val.value);
      var full := "--" + key + "=" + val.value;
      assert full[2..|key| + 2] == key && full[|key| + 3..] == val.value;
      assert |Flag(key, val)| == 1;
    }
  }

  /** Printing any overrides as flags and parsing them gives them back, for every Number that reads the
      plain numerals of ports. */
  lemma PrintThenParse(number: NumberOf, o: Overrides)
    requires forall n: nat :: n <= 65_535 ==> number(ToDecimal(n)) == Some(n)
    requires o.port.Some? ==> 0 <= o.port.value <= 65_535
    ensures Parse(number, Print(o)) == o
  {
    var mode := Flag("mode", if o.mode.Some? then Some(ModeText(o.mode.value)) else None);
    var port := Flag("port", if o.port.Some? then Some(ToDecimal(o.port.value)) else None);
    var db := Flag("db", o.dbPath);
    var o1 := Overrides(o.mode, None, None);
    var o2 := Overrides(o.mode, o.port, None);
    ParseOfFlag(number, "mode", if o.mode.Some? then Some(ModeText(o.mode.value)) else None, NOTHING);
    ParseOfFlag(number, "port", if o.port.Some? then Some(ToDecimal(o.port.value)) else None, o1);
    ParseOfFlag(number, "db", o.dbPath, o2);
    ParseContinues(number, mode + port, db, NOTHING);
    ParseContinues(number, mode, port, NOTHING);
  }
}
