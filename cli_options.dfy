/**
 * The builder's command-line flags: `-check`, `-prod` and `-log=<level>`,
 * read from left to right over the argument list.
 */
module CliOptions {
  import opened Strings

  /** The three known options with their current values. */
  datatype Options = Options(check: bool, prod: bool, log: string)

  const Defaults: Options := Options(false, false, "info")

  predicate IsLogLevel(level: string) {
    level == "debug" || level == "error" || level == "info"
  }

  /** The `log` resolver: a known level in lower case, anything else "info". */
  function LogLevel(value: string): (level: string)
    ensures IsLogLevel(level)
    ensures IsLogLevel(Lower(value)) ==> level == Lower(value)
    ensures !IsLogLevel(Lower(value)) ==> level == "info"
  {
    var v := Lower(value);
    if IsLogLevel(v) then v else "info"
  }

  /** The `check` and `prod` resolvers: true exactly for "true" in any letter case. */
  function IsTrue(value: string): bool {
    Lower(value) == "true"
  }

  /** The pieces of a flag after its dash: `opt[1:].split("=", 2)`. */
  function FlagPieces(opt: string): (pieces: seq<string>)
    requires StartsWith(opt, "-")
    ensures 1 <= |pieces| <= 3
  {
    SplitMax(opt[1..], '=', 2)
  }

  /** The lower-cased name of a flag. */
  function FlagKey(opt: string): string
    requires StartsWith(opt, "-")
  {
    Lower(FlagPieces(opt)[0])
  }

  /** The value of a flag: the text after a single `=`, otherwise "true". */
  function FlagValue(opt: string): string
    requires StartsWith(opt, "-")
  {
    var pieces := FlagPieces(opt);
    if |pieces| == 2 then pieces[1] else "true"
  }

  /** The effect of one argument on the options. */
  function Apply(options: Options, opt: string): (r: Options)
    ensures !StartsWith(opt, "-") ==> r == options
    ensures IsLogLevel(options.log) ==> IsLogLevel(r.log)
  {
    if !StartsWith(opt, "-") then options
    else
      var key := FlagKey(opt);
      var value := FlagValue(opt);
      if key == "check" then options.(check := IsTrue(value))
      else if key == "prod" then options.(prod := IsTrue(value))
      else if key == "log" then options.(log := LogLevel(value))
      else options
  }

  /** The options after reading `argv` from left to right. */
  function Interpret(argv: seq<string>): Options {
    if argv == [] then Defaults else Apply(Interpret(argv[..|argv| - 1]), argv[|argv| - 1])
  }

  /** `parse_options`: a loop over the arguments that updates the known options. */
  method ParseOptions(argv: seq<string>) returns (options: Options)
    ensures options == Interpret(argv)
  {
    options := Defaults;
    for i := 0 to |argv|
      invariant options == Interpret(argv[..i])
    {
      var opt := argv[i];
      assert argv[..i + 1][..i] == argv[..i];
      if StartsWith(opt, "-") {
        var pair := SplitMax(opt[1..], '=', 2);
        var key := Lower(pair[0]);
        var value := "true";
        if |pair| == 2 {
          value := pair[1];
        }
        if key == "check" {
          options := options.(check := Lower(value) == "true");
        } else if key == "prod" {
          options := options.(prod := Lower(value) == "true");
        } else if key == "log" {
          options := options.(log := if IsLogLevel(Lower(value)) then Lower(value) else "info");
        }
      }
    }
    assert argv[..|argv|] == argv;
  }

  // ---------------------------------------------------------------------------
  // Properties of the interpretation
  // ---------------------------------------------------------------------------

  /** The log level is always one of the three known levels. */
  lemma {:induction false} LogAlwaysKnown(argv: seq<string>)
    ensures IsLogLevel(Interpret(argv).log)
  {
    if argv != [] {
      LogAlwaysKnown(argv[..|argv| - 1]);
    }
  }

  /** Reading `xs` and then `ys` is reading `ys` from the options `xs` left. */
  function InterpretFrom(options: Options, ys: seq<string>): Options {
    if ys == [] then options else Apply(InterpretFrom(options, ys[..|ys| - 1]), ys[|ys| - 1])
  }

  lemma {:induction false} InterpretAppend(xs: seq<string>, ys: seq<string>)
    ensures Interpret(xs + ys) == InterpretFrom(Interpret(xs), ys)
  {
    if ys == [] {
      assert xs + ys == xs;
    } else {
      AppendLast(xs, ys);
      InterpretAppend(xs, ys[..|ys| - 1]);
    }
  }

  /** An argument without a leading dash changes nothing, wherever it stands. */
  lemma NonFlagIgnored(xs: seq<string>, a: string, ys: seq<string>)
    requires !StartsWith(a, "-")
    ensures Interpret(xs + [a] + ys) == Interpret(xs + ys)
  {
    InterpretAppend(xs + [a], ys);
    InterpretAppend(xs, ys);
    assert (xs + [a])[..|xs|] == xs;
  }

  /** `ys` holds a flag whose lower-cased name is `key`. */
  predicate SetsKey(ys: seq<string>, key: string) {
    exists j :: 0 <= j < |ys| && StartsWith(ys[j], "-") && FlagKey(ys[j]) == key
  }

  /** `ys` sets `key` when its prefix does or its last argument does. */
  lemma SetsKeyOfLast(ys: seq<string>, key: string)
    requires ys != []
    ensures SetsKey(ys, key) <==>
            SetsKey(ys[..|ys| - 1], key) || (StartsWith(ys[|ys| - 1], "-") && FlagKey(ys[|ys| - 1]) == key)
  {
    var init := ys[..|ys| - 1];
    if SetsKey(init, key) {
      var j :| 0 <= j < |init| && StartsWith(init[j], "-") && FlagKey(init[j]) == key;
      assert ys[j] == init[j];
    }
    if SetsKey(ys, key) {
      var j :| 0 <= j < |ys| && StartsWith(ys[j], "-") && FlagKey(ys[j]) == key;
      if j < |init| {
        assert ys[j] == init[j];
      }
    }
  }

  /** The options reached from two starting points agree on every field `ys` sets. */
  lemma {:induction false} LaterFlagsDecide(a: Options, b: Options, ys: seq<string>)
    ensures SetsKey(ys, "check") ==> InterpretFrom(a, ys).check == InterpretFrom(b, ys).check
    ensures SetsKey(ys, "prod") ==> InterpretFrom(a, ys).prod == InterpretFrom(b, ys).prod
    ensures SetsKey(ys, "log") ==> InterpretFrom(a, ys).log == InterpretFrom(b, ys).log
  {
    if ys != [] {
      LaterFlagsDecide(a, b, ys[..|ys| - 1]);
      SetsKeyOfLast(ys, "check");
      SetsKeyOfLast(ys, "prod");
      SetsKeyOfLast(ys, "log");
    }
  }

  /** Later arguments override earlier ones: on a field that `ys` sets, what came before does not matter. */
  lemma LaterOverrides(xs: seq<string>, ys: seq<string>)
    ensures SetsKey(ys, "check") ==> Interpret(xs + ys).check == Interpret(ys).check
    ensures SetsKey(ys, "prod") ==> Interpret(xs + ys).prod == Interpret(ys).prod
    ensures SetsKey(ys, "log") ==> Interpret(xs + ys).log == Interpret(ys).log
  {
    InterpretAppend(xs, ys);
    InterpretAppend([], ys);
    assert [] + ys == ys;
    LaterFlagsDecide(Interpret(xs), Interpret([]), ys);
  }

  /** Only the three known names have an effect. */
  lemma UnknownFlagIgnored(options: Options, opt: string)
    requires StartsWith(opt, "-") && FlagKey(opt) != "check" && FlagKey(opt) != "prod" && FlagKey(opt) != "log"
    ensures Apply(options, opt) == options
  {
  }

  /** A flag without `=`: its name, lower-cased, and the value "true". */
  lemma BareFlag(name: string)
    requires '=' !in name
    ensures StartsWith("-" + name, "-")
    ensures FlagKey("-" + name) == Lower(name) && FlagValue("-" + name) == "true"
  {
    assert ("-" + name)[1..] == name;
    SplitMaxOfOne(name, '=', 2);
  }

  /** A flag with one `=`: its name, lower-cased, and the text after the `=`. */
  lemma PairFlag(name: string, value: string)
    requires '=' !in name && '=' !in value
    ensures StartsWith("-" + name + "=" + value, "-")
    ensures FlagKey("-" + name + "=" + value) == Lower(name) && FlagValue("-" + name + "=" + value) == value
  {
    var body := name + ['='] + value;
    assert "-" + name + "=" + value == "-" + body;
    DashBody(body);
    SplitMaxOfTwo(name, value, '=', 2);
  }

  /** The text after the leading dash of a flag. */
  lemma DashBody(body: string)
    ensures StartsWith("-" + body, "-") && ("-" + body)[1..] == body
  {
  }

  /** A value holding a second `=` makes a bare flag, and "true" is no log level: "-log=a=b" gives "info". */
  lemma SecondEqualsMakesBareFlag(options: Options, opt: string)
    requires StartsWith(opt, "-") && Count(opt[1..], '=') >= 2
    ensures FlagValue(opt) == "true"
    ensures FlagKey(opt) == "log" ==> Apply(options, opt) == options.(log := "info")
  {
    assert Lower("true") == "true";
  }

  /** A bare flag whose name reads "check" or "prod" in any letter case switches that option on. */
  lemma BareFlagSwitchesOn(options: Options, name: string)
    requires '=' !in name && (Lower(name) == "check" || Lower(name) == "prod")
    ensures Lower(name) == "check" ==> Apply(options, "-" + name) == options.(check := true)
    ensures Lower(name) == "prod" ==> Apply(options, "-" + name) == options.(prod := true)
  {
    BareFlag(name);
    assert Lower("true") == "true";
  }

  /** "-<log>=<level>" sets a known level, lower-cased, whatever the letter case of either part. */
  lemma LogFlagSetsLevel(options: Options, name: string, level: string)
    requires '=' !in name && Lower(name) == "log" && '=' !in level && IsLogLevel(Lower(level))
    ensures Apply(options, "-" + name + "=" + level) == options.(log := Lower(level))
  {
    PairFlag(name, level);
  }

  /** Flags with different names can be given in either order: "-prod -log=debug" is "-log=debug -prod". */
  lemma DistinctFlagsCommute(options: Options, x: string, y: string)
    requires StartsWith(x, "-") && StartsWith(y, "-") && FlagKey(x) != FlagKey(y)
    ensures Apply(Apply(options, x), y) == Apply(Apply(options, y), x)
  {
    FlagEffect(options, x);
    FlagEffect(options, y);
    FlagEffect(Apply(options, x), y);
    FlagEffect(Apply(options, y), x);
  }

  /** One flag changes the field it names, and no other. */
  lemma FlagEffect(options: Options, opt: string)
    requires StartsWith(opt, "-")
    ensures Apply(options, opt).check == if FlagKey(opt) == "check" then IsTrue(FlagValue(opt)) else options.check
    ensures Apply(options, opt).prod == if FlagKey(opt) == "prod" then IsTrue(FlagValue(opt)) else options.prod
    ensures Apply(options, opt).log == if FlagKey(opt) == "log" then LogLevel(FlagValue(opt)) else options.log
  {
  }
}
