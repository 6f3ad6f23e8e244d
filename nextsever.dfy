/** The fix sequence and the top-level flow of scripts/nextsever.js. */
module Nextsever {
  import opened Wrappers
  import opened Text
  import opened Json
  import opened Disk
  import opened NextseverJson
  import opened NextseverText
  import opened NextseverFlags

  const FixRouterScript := "scripts/fix-router.js"
  const RsuiFile := "src/components/RSUI32.tsx"
  const NamedGlobeImport := "import { OracleGlobe } from \"./OracleGlobe\""
  const DefaultGlobeImport := "import OracleGlobe from \"./OracleGlobe\""

  /** ensureFixRouterFile: write the generated script unless a file is there.
      The script's text is given as `script`. */
  function EnsureFixRouterFile(d: Disk, script: string): (d': Disk)
    ensures d.Exists(FixRouterScript) ==> d' == d
    ensures !d.Exists(FixRouterScript) ==> d'.Read(FixRouterScript) == script && d'.writes == d.writes + [FixRouterScript]
  {
    if d.Exists(FixRouterScript) then d else d.Write(FixRouterScript, script)
  }

  const HelperMarker := "renderPiePercentLabel"
  const RechartsDouble := "from \"recharts\""
  const RechartsSingle := "from 'recharts'"

  const PieHelperHead := "\n\n// --- auto-injected by nextsever: typed label renderer for Recharts Pie\n"
    + "type PieLabelPayload = { percent?: number };\nconst "
  const PieHelperTail := " = ({ percent }: PieLabelPayload) => `${(((percent ?? 0) * 100)).toFixed(0)}%`;\n"

  /** The typed Pie label renderer the script injects; it names the marker. */
  const PieHelper := PieHelperHead + HelperMarker + PieHelperTail

  /** The file imports from recharts, in either quote style. */
  predicate ImportsRecharts(s: string) {
    Contains(s, RechartsDouble) || Contains(s, RechartsSingle)
  }

  /** The import the script anchors on: the double-quoted one when present. */
  function RechartsAnchor(s: string): string {
    if Contains(s, RechartsDouble) then RechartsDouble else RechartsSingle
  }

  /** The index of the first line break after the anchored import, or -1. */
  function ImportLineEnd(s: string): int
    requires ImportsRecharts(s)
  {
    IndexFrom(s, "\n", IndexOf(s, RechartsAnchor(s)))
  }

  /** Where the renderer goes: just past the end of the line that imports
      from recharts. When that line is the last one (`indexOf` gives -1),
      the position is 0 and the renderer lands at the top of the file. */
  function HelperAt(s: string): (r: Option<nat>)
    ensures r.None? <==> !ImportsRecharts(s)
    ensures r.Some? ==> r.value <= |s|
    ensures r.Some? && r.value > 0 ==> s[r.value - 1] == '\n'
  {
    var i := IndexOf(s, RechartsDouble);
    var a := if i >= 0 then i else IndexOf(s, RechartsSingle);
    if a < 0 then None
    else
      var e := IndexFrom(s, "\n", a);
      assert e >= 0 ==> s[e..e + 1][0] == s[e];
      Some(e + 1)
  }

  /** Step 2 of ensureRsuiImports: inject the renderer's text `helper`
      (always `PieHelper` in the script) unless the marker already appears. */
  function InjectPieHelper(s: string, helper: string): string {
    if Contains(s, HelperMarker) then s
    else match HelperAt(s)
      case None => s
      case Some(k) => s[..k] + helper + s[k..]
  }

  /** ensureRsuiImports: the first named OracleGlobe import becomes a default
      import, the label renderer is injected, and the regular-expression
      patch of the Pie label that follows is given as `recharts`. The file
      is written back whenever it exists. */
  function EnsureRsuiImports(d: Disk, recharts: string -> string): Disk {
    if !d.Exists(RsuiFile) then d
    else
      var s := d.Read(RsuiFile);
      var s1 := if Contains(s, NamedGlobeImport) then ReplaceFirst(s, NamedGlobeImport, DefaultGlobeImport) else s;
      d.Write(RsuiFile, recharts(InjectPieHelper(s1, PieHelper)))
  }

  lemma HelperNamesMarker()
    ensures Contains(PieHelper, HelperMarker)
  {
    ContainsMiddle(PieHelperHead, HelperMarker, PieHelperTail);
  }

  /** The renderer is injected at most once: after one run the marker is in
      the file, and a second run leaves the text as it is. */
  lemma InjectPieHelperIdempotent(s: string, helper: string)
    requires helper == PieHelper
    ensures Contains(InjectPieHelper(s, helper), HelperMarker) || InjectPieHelper(s, helper) == s
    ensures InjectPieHelper(InjectPieHelper(s, helper), helper) == InjectPieHelper(s, helper)
  {
    if !Contains(s, HelperMarker) && HelperAt(s).Some? {
      var k := HelperAt(s).value;
      HelperNamesMarker();
      ContainsExtend(s[..k], helper, s[k..], HelperMarker);
    }
  }

  /** Without a recharts import, or with the renderer already named, the
      text stays as it is. Otherwise the renderer goes right after the first
      line break that follows the import (double quotes looked for first),
      or at the very top of the file when no line break follows it. */
  lemma InjectPieHelperPlace(s: string, helper: string)
    ensures Contains(s, HelperMarker) || !ImportsRecharts(s) ==> InjectPieHelper(s, helper) == s
    ensures !Contains(s, HelperMarker) && ImportsRecharts(s) && ImportLineEnd(s) >= 0 ==>
              s[ImportLineEnd(s)] == '\n'
              && (forall j :: IndexOf(s, RechartsAnchor(s)) <= j < ImportLineEnd(s) ==> s[j] != '\n')
              && InjectPieHelper(s, helper) == s[..ImportLineEnd(s) + 1] + helper + s[ImportLineEnd(s) + 1..]
    ensures !Contains(s, HelperMarker) && ImportsRecharts(s) && ImportLineEnd(s) < 0 ==>
              InjectPieHelper(s, helper) == helper + s
  {
    if !Contains(s, HelperMarker) && ImportsRecharts(s) {
      var e := ImportLineEnd(s);
      HelperAtLineEnd(s);
      InjectAt(s, helper, e + 1);
      if e >= 0 {
        OccursChar(s, '\n', e);
        NoBreakBefore(s, IndexOf(s, RechartsAnchor(s)), e);
      } else {
        InsertAtFront(s, helper, e + 1, InjectPieHelper(s, helper));
      }
    }
  }

  lemma HelperAtLineEnd(s: string)
    requires ImportsRecharts(s)
    ensures HelperAt(s) == Some(ImportLineEnd(s) + 1)
  {
    if IndexOf(s, RechartsDouble) >= 0 {
      assert RechartsAnchor(s) == RechartsDouble;
    } else {
      assert RechartsAnchor(s) == RechartsSingle;
    }
  }

  lemma InjectAt(s: string, helper: string, k: nat)
    requires !Contains(s, HelperMarker) && HelperAt(s) == Some(k)
    ensures InjectPieHelper(s, helper) == s[..k] + helper + s[k..]
  {
  }

  /** No line break occurs between `a` and `e`. */
  lemma NoBreakBefore(s: string, a: int, e: int)
    requires 0 <= a && e <= |s| && forall j :: a <= j < e ==> !Occurs(s, "\n", j)
    ensures forall j :: a <= j < e ==> s[j] != '\n'
  {
    forall j | a <= j < e
      ensures s[j] != '\n'
    {
      CharOccurs(s, '\n', j);
    }
  }

  /** A character of the text is an occurrence of itself. */
  lemma CharOccurs(s: string, c: char, j: int)
    requires 0 <= j < |s|
    ensures s[j] == c ==> Occurs(s, [c], j)
  {
    assert s[j..j + 1] == [s[j]];
  }

  /** An occurrence of a one-character text is that character. */
  lemma OccursChar(s: string, c: char, e: int)
    requires Occurs(s, [c], e)
    ensures s[e] == c
  {
    assert s[e..e + 1][0] == s[e];
  }

  /** Inserting at index 0 puts the text in front. */
  lemma InsertAtFront(s: string, h: string, k: int, r: string)
    requires k == 0 && r == s[..k] + h + s[k..]
    ensures r == h + s
  {
    assert s[..k] == [] && s[k..] == s;
  }

  /** The import rewrite replaces the first named import in place. */
  lemma RsuiImportRewritten(s: string)
    requires Contains(s, NamedGlobeImport)
    ensures var i := IndexOf(s, NamedGlobeImport);
            ReplaceFirst(s, NamedGlobeImport, DefaultGlobeImport) ==
              s[..i] + DefaultGlobeImport + s[i + |NamedGlobeImport|..]
            && Contains(ReplaceFirst(s, NamedGlobeImport, DefaultGlobeImport), DefaultGlobeImport)
  {
    var i := IndexOf(s, NamedGlobeImport);
    var r := s[..i] + DefaultGlobeImport + s[i + |NamedGlobeImport|..];
    assert r[i..i + |DefaultGlobeImport|] == DefaultGlobeImport;
    OccursWitness(r, DefaultGlobeImport, i);
  }

  /** Where `main` stops when a step throws: the error, and the disk as the
      earlier steps left it. Their writes are not undone. */
  datatype Halt = Halt(disk: Disk, error: JsError)

  /** A step that may throw, run on the disk `at`. */
  function Step<T>(r: Result<T, JsError>, at: Disk): (s: Result<T, Halt>)
    ensures r.Ok? ==> s == Ok(r.value)
    ensures r.Err? ==> s == Err(Halt(at, r.error))
  {
    match r
    case Ok(v) => Ok(v)
    case Err(e) => Err(Halt(at, e))
  }

  /** The steps under `if (doFix)`, in order; the first that throws stops
      the script. `now` is `Date.now()`, `script` the generated
      fix-router.js, `recharts` the Recharts Pie-label patch. */
  function RunFixes(d: Disk, now: string, script: string, recharts: string -> string, install: bool)
    : Result<DepsOutcome, Halt>
  {
    var d1 :- Step(EnsurePkgScriptsAndEngines(d), d);
    var d2 := EnsureFixRouterFile(d1, script);
    var d3 := FixRouterConflict(d2, now);
    var d4 := EnsurePostcssConfig(d3);
    var d5 := EnsureGlobalsCss(d4);
    var d6 := EnsureTailwindConfig(d5);
    var d7 :- Step(EnsureTsconfig(d6), d6);
    var d8 := EnsureRsuiImports(d7, recharts);
    var d9 := EnsureOracleGlobeDefaultExport(d8);
    Step(EnsureDeps(d9, install), d9)
  }

  /** What `main` leaves behind: the disk, whether `npm install` ran, and
      which command it launched. */
  datatype MainOutcome = MainOutcome(disk: Disk, runInstall: bool, launch: Launch, usage: bool)

  /** `main`: the plan from the flags, then the fix steps when asked. A step
      that throws rejects `main`'s promise, so nothing is launched. */
  function NextseverMain(argv: seq<string>, d: Disk, now: string, script: string, recharts: string -> string)
    : Result<MainOutcome, Halt>
  {
    var p := MainPlan(argv);
    if p.fix then
      var o :- RunFixes(d, now, script, recharts, p.install);
      Ok(MainOutcome(o.disk, o.runInstall, p.launch, p.usage))
    else Ok(MainOutcome(d, false, p.launch, p.usage))
  }

  /** The disk `main` leaves, whether it finished or stopped. */
  function FinalDisk(r: Result<MainOutcome, Halt>): Disk {
    if r.Ok? then r.value.disk else r.error.disk
  }

  /** The disk the fix steps leave, whether they finished or stopped. */
  function FixesDisk(r: Result<DepsOutcome, Halt>): Disk {
    if r.Ok? then r.value.disk else r.error.disk
  }

  /** With the fixes on, `main` leaves the disk the fix steps leave. */
  lemma MainDiskIsFixesDisk(argv: seq<string>, d: Disk, now: string, script: string, recharts: string -> string)
    requires MainPlan(argv).fix
    ensures FinalDisk(NextseverMain(argv, d, now, script, recharts))
              == FixesDisk(RunFixes(d, now, script, recharts, MainPlan(argv).install))
  {
  }

  /** The write log of `d'` begins with the whole log of `d`. */
  predicate WritesExtend(d: Disk, d': Disk) {
    |d.writes| <= |d'.writes| && d'.writes[..|d.writes|] == d.writes
  }

  lemma WritesExtendTrans(d1: Disk, d2: Disk, d3: Disk)
    requires WritesExtend(d1, d2) && WritesExtend(d2, d3)
    ensures WritesExtend(d1, d3)
  {
    assert d3.writes[..|d1.writes|] == d3.writes[..|d2.writes|][..|d1.writes|];
  }

  lemma ExtendsBySame(d: Disk, d': Disk)
    requires d'.writes == d.writes
    ensures WritesExtend(d, d')
  {
    assert d.writes[..|d.writes|] == d.writes;
  }

  lemma ExtendsByOne(d: Disk, d': Disk, p: string)
    requires d'.writes == d.writes + [p]
    ensures WritesExtend(d, d')
  {
    assert (d.writes + [p])[..|d.writes|] == d.writes;
  }

  lemma FixRouterFileExtends(d: Disk, script: string)
    ensures WritesExtend(d, EnsureFixRouterFile(d, script))
  {
    ExtendsBySame(d, d);
    ExtendsByOne(d, d.Write(FixRouterScript, script), FixRouterScript);
  }

  lemma ConflictExtends(d: Disk, now: string)
    ensures WritesExtend(d, FixRouterConflict(d, now))
  {
    RouterConflictRenames(d, now);
    ExtendsBySame(d, FixRouterConflict(d, now));
  }

  lemma PostcssExtends(d: Disk)
    ensures WritesExtend(d, EnsurePostcssConfig(d))
  {
    ExtendsBySame(d, d);
    ExtendsByOne(d, d.Write(PostcssConfig, PostcssWant), PostcssConfig);
  }

  lemma GlobalsCssExtends(d: Disk)
    ensures WritesExtend(d, EnsureGlobalsCss(d))
  {
    ExtendsBySame(d, d);
    ExtendsByOne(d, d.Write(GlobalsCss, GlobalsBase), GlobalsCss);
    ExtendsByOne(d, d.Write(GlobalsCss, GlobalsBase + "\n" + d.Read(GlobalsCss)), GlobalsCss);
  }

  lemma TailwindExtends(d: Disk)
    ensures WritesExtend(d, EnsureTailwindConfig(d))
  {
    ExtendsBySame(d, d);
    ExtendsByOne(d, d.Write(TailwindConfig, PatchAll(d.Read(TailwindConfig), WantContent)), TailwindConfig);
  }

  lemma TsconfigExtends(d: Disk)
    requires EnsureTsconfig(d).Ok?
    ensures WritesExtend(d, EnsureTsconfig(d).value)
  {
    ExtendsByOne(d, EnsureTsconfig(d).value, TsconfigJson);
  }

  lemma RsuiExtends(d: Disk, recharts: string -> string)
    ensures WritesExtend(d, EnsureRsuiImports(d, recharts))
  {
    if d.Exists(RsuiFile) {
      ExtendsByOne(d, EnsureRsuiImports(d, recharts), RsuiFile);
    } else {
      ExtendsBySame(d, d);
    }
  }

  lemma DefaultExportExtends(d: Disk)
    ensures WritesExtend(d, EnsureOracleGlobeDefaultExport(d))
  {
    ExtendsBySame(d, d);
    ExtendsByOne(d, d.Write(OracleGlobeFile, WithDefaultExport(d.Read(OracleGlobeFile))), OracleGlobeFile);
  }

  lemma DepsExtends(d: Disk, install: bool)
    requires EnsureDeps(d, install).Ok?
    ensures WritesExtend(d, EnsureDeps(d, install).value.disk)
  {
    var o := EnsureDeps(d, install).value;
    if o.disk.writes == d.writes {
      ExtendsBySame(d, o.disk);
    } else {
      ExtendsByOne(d, o.disk, PackageJson);
    }
  }

  /** Once package.json is written, every later step, and a step that
      throws, keeps what the log already holds. */
  lemma {:induction false} RunFixesKeepsWrites(d: Disk, now: string, script: string, recharts: string -> string, install: bool)
    requires EnsurePkgScriptsAndEngines(d).Ok?
    ensures WritesExtend(EnsurePkgScriptsAndEngines(d).value, FixesDisk(RunFixes(d, now, script, recharts, install)))
  {
    var d1 := EnsurePkgScriptsAndEngines(d).value;
    var d2 := EnsureFixRouterFile(d1, script);
    var d3 := FixRouterConflict(d2, now);
    var d4 := EnsurePostcssConfig(d3);
    var d5 := EnsureGlobalsCss(d4);
    var d6 := EnsureTailwindConfig(d5);
    FixRouterFileExtends(d1, script);
    ConflictExtends(d2, now);
    PostcssExtends(d3);
    GlobalsCssExtends(d4);
    TailwindExtends(d5);
    WritesExtendTrans(d1, d2, d3);
    WritesExtendTrans(d1, d3, d4);
    WritesExtendTrans(d1, d4, d5);
    WritesExtendTrans(d1, d5, d6);
    if EnsureTsconfig(d6).Ok? {
      var d7 := EnsureTsconfig(d6).value;
      var d8 := EnsureRsuiImports(d7, recharts);
      var d9 := EnsureOracleGlobeDefaultExport(d8);
      TsconfigExtends(d6);
      RsuiExtends(d7, recharts);
      DefaultExportExtends(d8);
      WritesExtendTrans(d1, d6, d7);
      WritesExtendTrans(d1, d7, d8);
      WritesExtendTrans(d1, d8, d9);
      if EnsureDeps(d9, install).Ok? {
        DepsExtends(d9, install);
        WritesExtendTrans(d1, d9, EnsureDeps(d9, install).value.disk);
      }
    }
  }

  /** Without one of the four command flags nothing is written, nothing is
      launched and the usage text is printed. */
  lemma MainWithoutCommand(argv: seq<string>, d: Disk, now: string, script: string, recharts: string -> string)
    requires "--fix" !in argv && "--dev" !in argv && "--build" !in argv && "--start" !in argv
    ensures NextseverMain(argv, d, now, script, recharts) == Ok(MainOutcome(d, false, NoLaunch, true))
  {
    MainPlanDispatch(argv);
  }

  /** With a launch flag the fix steps run first. Their first write is
      package.json: a package.json that makes it throw stops `main` with the
      disk untouched; otherwise the disk `main` leaves, whether it finished
      or a later step threw, has package.json first among its new writes. */
  lemma MainFixesBeforeLaunch(argv: seq<string>, d: Disk, now: string, script: string, recharts: string -> string)
    requires "--dev" in argv || "--build" in argv || "--start" in argv
    ensures MainPlan(argv).fix && !MainPlan(argv).usage && !MainPlan(argv).launch.NoLaunch?
    ensures EnsurePkgScriptsAndEngines(d).Err? ==>
              NextseverMain(argv, d, now, script, recharts) == Err(Halt(d, EnsurePkgScriptsAndEngines(d).error))
    ensures EnsurePkgScriptsAndEngines(d).Ok? ==>
              |FinalDisk(NextseverMain(argv, d, now, script, recharts)).writes| > |d.writes|
              && FinalDisk(NextseverMain(argv, d, now, script, recharts)).writes[..|d.writes| + 1] == d.writes + [PackageJson]
  {
    MainPlanDispatch(argv);
    if EnsurePkgScriptsAndEngines(d).Ok? {
      MainDiskIsFixesDisk(argv, d, now, script, recharts);
      PackageJsonWrittenFirst(d, now, script, recharts, MainPlan(argv).install);
    }
  }

  /** Once package.json is accepted, the disk the fix steps leave, whether
      they finish or a later step throws, starts its new writes with it. */
  lemma PackageJsonWrittenFirst(d: Disk, now: string, script: string, recharts: string -> string, install: bool)
    requires EnsurePkgScriptsAndEngines(d).Ok?
    ensures |FixesDisk(RunFixes(d, now, script, recharts, install)).writes| > |d.writes|
    ensures FixesDisk(RunFixes(d, now, script, recharts, install)).writes[..|d.writes| + 1] == d.writes + [PackageJson]
  {
    RunFixesKeepsWrites(d, now, script, recharts, install);
    ExtendsAfterOne(d, EnsurePkgScriptsAndEngines(d).value, FixesDisk(RunFixes(d, now, script, recharts, install)), PackageJson);
  }

  lemma ExtendsAfterOne(d: Disk, d1: Disk, f: Disk, p: string)
    requires d1.writes == d.writes + [p] && WritesExtend(d1, f)
    ensures |f.writes| > |d.writes| && f.writes[..|d.writes| + 1] == d.writes + [p]
  {
  }
}
