/** Command-line handling of scripts/nextsever.js: getFlag and the decisions
    `main` takes from the flags. */
module NextseverFlags {
  import opened Json
  import opened Text

  /** `argv.findIndex(a => a === flag)`: the first position of `flag`, or -1. */
  function FindIndex(argv: seq<string>, flag: string): (r: int)
    ensures r == -1 <==> flag !in argv
    ensures r >= 0 ==> r < |argv| && argv[r] == flag && flag !in argv[..r]
  {
    if argv == [] then -1
    else if argv[0] == flag then 0
    else
      var r := FindIndex(argv[1..], flag);
      assert r >= 0 ==> argv[..r + 1] == [argv[0]] + argv[1..][..r];
      if r < 0 then -1 else r + 1
  }

  /** getFlag(flag, def): the default when the flag is absent; the argument
      after its first occurrence when there is one that is non-empty and not
      itself a `--` flag; `true` otherwise. */
  function GetFlag(argv: seq<string>, flag: string, def: Json): Json {
    var i := FindIndex(argv, flag);
    if i == -1 then def
    else if i + 1 >= |argv| || argv[i + 1] == "" || StartsWith(argv[i + 1], "--") then Bool(true)
    else Str(argv[i + 1])
  }

  /** The three outcomes of getFlag. */
  lemma GetFlagCases(argv: seq<string>, flag: string, def: Json)
    ensures flag !in argv ==> GetFlag(argv, flag, def) == def
    ensures flag in argv ==>
              var i := FindIndex(argv, flag);
              && (i + 1 < |argv| && argv[i + 1] != "" && !StartsWith(argv[i + 1], "--") ==>
                    GetFlag(argv, flag, def) == Str(argv[i + 1]))
              && (i + 1 == |argv| ==> GetFlag(argv, flag, def) == Bool(true))
              && (i + 1 < |argv| && argv[i + 1] == "" ==> GetFlag(argv, flag, def) == Bool(true))
              && (i + 1 < |argv| && StartsWith(argv[i + 1], "--") ==> GetFlag(argv, flag, def) == Bool(true))
  {
  }

  /** `!!getFlag(flag, false)`. */
  predicate Flag(argv: seq<string>, flag: string) {
    Truthy(GetFlag(argv, flag, Bool(false)))
  }

  /** A boolean flag is on exactly when it appears anywhere on the line,
      whatever follows it. */
  lemma FlagIff(argv: seq<string>, flag: string)
    ensures Flag(argv, flag) <==> flag in argv
  {
    var i := FindIndex(argv, flag);
    if i >= 0 && !(i + 1 >= |argv| || argv[i + 1] == "" || StartsWith(argv[i + 1], "--")) {
      assert GetFlag(argv, flag, Bool(false)) == Str(argv[i + 1]);
    }
  }

  /** Where a launch command gets its port. `Number(true)` is 1; the text of
      a port argument is converted by `Number`, which is not modelled. */
  datatype Port = OpenPortSearch(from: int, to: int) | Fixed(n: int) | FromText(text: string)

  /** `portArg ? Number(portArg) : fallback`. */
  function PortOf(portArg: Json, fallback: Port): Port {
    if !Truthy(portArg) then fallback
    else if portArg.Str? then FromText(portArg.s)
    else Fixed(1)
  }

  datatype Launch = Dev(port: Port) | Build | Start(port: Port) | NoLaunch

  /** What `main` does: run the fix steps, pass `--install` to ensureDeps,
      launch at most one command, print the usage text. */
  datatype Plan = Plan(fix: bool, install: bool, launch: Launch, usage: bool)

  /** The flag dispatch of `main`. */
  function MainPlan(argv: seq<string>): Plan {
    var doFix := Flag(argv, "--fix") || Flag(argv, "--dev") || Flag(argv, "--build") || Flag(argv, "--start");
    var doInstall := Flag(argv, "--install");
    var portArg := GetFlag(argv, "--port", Null);
    var cmdDev := Flag(argv, "--dev");
    var cmdBuild := Flag(argv, "--build");
    var cmdStart := Flag(argv, "--start");
    var launch :=
      if cmdDev then Dev(PortOf(portArg, OpenPortSearch(3000, 3010)))
      else if cmdBuild then Build
      else if cmdStart then Start(PortOf(portArg, Fixed(3000)))
      else NoLaunch;
    Plan(doFix, doInstall, launch, !doFix && !cmdDev && !cmdBuild && !cmdStart)
  }

  /** The fix steps run iff one of --fix/--dev/--build/--start is given; at
      most one launch runs, dev before build before start; the usage text is
      printed iff none of the four is given. */
  lemma MainPlanDispatch(argv: seq<string>)
    ensures var p := MainPlan(argv);
            && (p.fix <==> "--fix" in argv || "--dev" in argv || "--build" in argv || "--start" in argv)
            && (p.install <==> "--install" in argv)
            && (p.launch.Dev? <==> "--dev" in argv)
            && (p.launch.Build? <==> "--dev" !in argv && "--build" in argv)
            && (p.launch.Start? <==> "--dev" !in argv && "--build" !in argv && "--start" in argv)
            && (p.usage <==> !p.fix)
            && (p.usage ==> p.launch.NoLaunch?)
  {
    FlagIff(argv, "--fix");
    FlagIff(argv, "--dev");
    FlagIff(argv, "--build");
    FlagIff(argv, "--start");
    FlagIff(argv, "--install");
  }

  /** Ports: dev searches 3000-3010 and start uses 3000 without --port; a
      --port with no value after it is `true`, which `Number` turns into 1;
      a value after it is the port text for either launch. */
  lemma MainPlanPorts(argv: seq<string>)
    ensures var p := MainPlan(argv);
            && ("--port" !in argv && p.launch.Dev? ==> p.launch.port == OpenPortSearch(3000, 3010))
            && ("--port" !in argv && p.launch.Start? ==> p.launch.port == Fixed(3000))
            && ("--port" in argv && FindIndex(argv, "--port") == |argv| - 1 && (p.launch.Dev? || p.launch.Start?) ==>
                  p.launch.port == Fixed(1))
            && (var i := FindIndex(argv, "--port");
                i >= 0 && i + 1 < |argv| && argv[i + 1] != "" && !StartsWith(argv[i + 1], "--")
                && (p.launch.Dev? || p.launch.Start?) ==>
                  p.launch.port == FromText(argv[i + 1]))
  {
    var p := MainPlan(argv);
    var portArg := GetFlag(argv, "--port", Null);
    assert p.launch.Dev? ==> p.launch.port == PortOf(portArg, OpenPortSearch(3000, 3010));
    assert p.launch.Start? ==> p.launch.port == PortOf(portArg, Fixed(3000));
    GetFlagCases(argv, "--port", Null);
  }
}
