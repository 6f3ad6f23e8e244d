/** The rules of scripts/nextsever.js that fill in defaults in JSON files:
    ensureTsconfig, ensurePkgScriptsAndEngines and ensureDeps. */
module NextseverJson {
  import opened Wrappers
  import opened Json
  import opened Disk

  const PackageJson := "package.json"
  const TsconfigJson := "tsconfig.json"

  /* ---------------- ensureTsconfig ---------------- */

  const RequiredIncludes: seq<Json> :=
    [Str("next-env.d.ts"), Str("**/*.ts"), Str("**/*.tsx"), Str(".next/types/**/*.ts")]

  const DefaultPaths: Json := Obj(map["@/*" := Arr([Str("src/*")])])

  /** Arrays and objects: each parsed one is a distinct reference. */
  predicate Compound(v: Json) {
    v.Arr? || v.Obj?
  }

  /** No primitive value occurs twice (a `Set` holds each primitive once). */
  predicate NoRepeatedPrimitive(s: seq<Json>) {
    forall i, j :: 0 <= i < j < |s| && !Compound(s[i]) ==> s[i] != s[j]
  }

  /** `Array.from(new Set(s))`: the first occurrence of each primitive, in
      order; arrays and objects are never equal to one another. */
  function Unique(s: seq<Json>): seq<Json>
    decreases |s|
  {
    if s == [] then []
    else
      var prev := Unique(s[..|s| - 1]);
      var x := s[|s| - 1];
      if !Compound(x) && x in prev then prev else prev + [x]
  }

  /** What `Unique` keeps: nothing new, every primitive, every array and
      object, and no primitive twice. */
  lemma {:induction false} UniqueMembers(s: seq<Json>)
    ensures forall x :: x in Unique(s) ==> x in s
    ensures forall x :: x in s ==> x in Unique(s)
    ensures NoRepeatedPrimitive(Unique(s))
    decreases |s|
  {
    if s != [] {
      var front := s[..|s| - 1];
      UniqueMembers(front);
      assert s == front + [s[|s| - 1]];
    }
  }

  /** A sequence without repeated primitives is its own set. */
  lemma {:induction false} UniqueOfDistinct(s: seq<Json>)
    requires NoRepeatedPrimitive(s)
    ensures Unique(s) == s
    decreases |s|
  {
    if s != [] {
      var front := s[..|s| - 1];
      UniqueOfDistinct(front);
      var x := s[|s| - 1];
      assert forall i :: 0 <= i < |front| && !Compound(front[i]) ==> front[i] == s[i] != x;
      assert s == front + [x];
    }
  }

  /** The entries already in the set come first, in first-occurrence order. */
  lemma {:induction false} UniquePrefix(s: seq<Json>, t: seq<Json>)
    ensures |Unique(s)| <= |Unique(s + t)| && Unique(s + t)[..|Unique(s)|] == Unique(s)
    decreases |t|
  {
    if t == [] {
      assert s + t == s;
    } else {
      var t' := t[..|t| - 1];
      UniquePrefix(s, t');
      assert (s + t)[..|s + t| - 1] == s + t';
    }
  }

  /** Adding primitives the set already holds changes nothing. */
  lemma {:induction false} UniqueAbsorbs(s: seq<Json>, t: seq<Json>)
    requires forall x :: x in t ==> !Compound(x) && x in s
    ensures Unique(s + t) == Unique(s)
    decreases |t|
  {
    if t == [] {
      assert s + t == s;
    } else {
      var t' := t[..|t| - 1];
      UniqueAbsorbs(s, t');
      assert (s + t)[..|s + t| - 1] == s + t';
      UniqueMembers(s);
    }
  }

  /** `c.baseUrl = c.baseUrl || "."`, `c.paths = c.paths || {...}`, and the
      two flags forced to true. */
  function CompilerOptions(c: map<string, Json>): map<string, Json> {
    var c1 := c["baseUrl" := Or(c, "baseUrl", Str("."))];
    var c2 := c1["paths" := Or(c1, "paths", DefaultPaths)];
    c2["esModuleInterop" := Bool(true)]["skipLibCheck" := Bool(true)]
  }

  /** ensureTsconfig on the parsed document. */
  function Tsconfig(j: map<string, Json>): Result<map<string, Json>, JsError> {
    var c :- ObjectField(j, "compilerOptions");
    var existing :- Spread(j, "include");
    Ok(j["compilerOptions" := Obj(CompilerOptions(c))]
        ["include" := Arr(Unique(existing + RequiredIncludes))])
  }

  /** ensureTsconfig: read, patch, and always write tsconfig.json. */
  function EnsureTsconfig(d: Disk): Result<Disk, JsError> {
    var j :- d.JsonRead(TsconfigJson);
    var j' :- Tsconfig(j);
    Ok(d.JsonWrite(TsconfigJson, j'))
  }

  /** The rule fails only where JavaScript throws: a truthy non-object
      `compilerOptions`, or an `include` that cannot be spread. */
  lemma TsconfigFailsIff(j: map<string, Json>)
    ensures Tsconfig(j).Ok? <==>
      (!Present(j, "compilerOptions") || j["compilerOptions"].Obj?) &&
      (!Present(j, "include") || j["include"].Arr? || j["include"].Str?)
  {
  }

  /** The resulting `include` holds the four required globs once each, no
      primitive twice, and the earlier entries first in their order. */
  lemma TsconfigInclude(j: map<string, Json>, existing: seq<Json>)
    requires Tsconfig(j).Ok? && Spread(j, "include") == Ok(existing)
    ensures var r := Tsconfig(j).value;
            && "include" in r && r["include"].Arr?
            && (forall g :: g in RequiredIncludes ==> g in r["include"].items)
            && NoRepeatedPrimitive(r["include"].items)
            && |Unique(existing)| <= |r["include"].items|
            && r["include"].items[..|Unique(existing)|] == Unique(existing)
  {
    UniqueMembers(existing + RequiredIncludes);
    UniquePrefix(existing, RequiredIncludes);
  }

  /** `baseUrl` and `paths` are filled only when missing; the two flags are
      forced; other compiler options and other top-level keys are kept. */
  lemma TsconfigCompilerOptions(j: map<string, Json>, c: map<string, Json>)
    requires Tsconfig(j).Ok? && ObjectField(j, "compilerOptions") == Ok(c)
    ensures var r := Tsconfig(j).value;
            && "compilerOptions" in r && r["compilerOptions"].Obj?
            && var c' := r["compilerOptions"].fields;
            && c'["baseUrl"] == (if Present(c, "baseUrl") then c["baseUrl"] else Str("."))
            && c'["paths"] == (if Present(c, "paths") then c["paths"] else DefaultPaths)
            && c'["esModuleInterop"] == Bool(true) && c'["skipLibCheck"] == Bool(true)
            && (forall k :: k in c && k !in {"baseUrl", "paths", "esModuleInterop", "skipLibCheck"}
                  ==> k in c' && c'[k] == c[k])
            && (forall k :: k in j && k !in {"compilerOptions", "include"} ==> k in r && r[k] == j[k])
  {
  }

  /** Writing a key with the value it already holds changes nothing. */
  lemma UpdateSame(o: map<string, Json>, k: string, v: Json)
    requires k in o && o[k] == v
    ensures o[k := v] == o
  {
  }

  lemma CompilerOptionsIdempotent(c: map<string, Json>)
    ensures CompilerOptions(CompilerOptions(c)) == CompilerOptions(c)
  {
    var c' := CompilerOptions(c);
    assert Present(c', "baseUrl") && Present(c', "paths");
    UpdateSame(c', "baseUrl", c'["baseUrl"]);
    UpdateSame(c', "paths", c'["paths"]);
    UpdateSame(c', "esModuleInterop", Bool(true));
    UpdateSame(c', "skipLibCheck", Bool(true));
  }

  /** Running the rule on its own output gives the same document. */
  lemma TsconfigIdempotent(j: map<string, Json>)
    requires Tsconfig(j).Ok?
    ensures Tsconfig(Tsconfig(j).value) == Tsconfig(j)
  {
    var r := Tsconfig(j).value;
    var c := ObjectField(j, "compilerOptions").value;
    var existing := Spread(j, "include").value;
    var inc := Unique(existing + RequiredIncludes);
    var c' := CompilerOptions(c);
    assert r == j["compilerOptions" := Obj(c')]["include" := Arr(inc)];
    assert ObjectField(r, "compilerOptions") == Ok(c');
    CompilerOptionsIdempotent(c);
    assert Spread(r, "include") == Ok(inc);
    UniqueMembers(existing + RequiredIncludes);
    UniqueAbsorbs(inc, RequiredIncludes);
    UniqueOfDistinct(inc);
    UpdateSame(r, "compilerOptions", Obj(c'));
    UpdateSame(r, "include", Arr(inc));
  }

  /* ---------------- ensurePkgScriptsAndEngines ---------------- */

  const ScriptDefaults: Defaults := [
    ("prebuild", "node scripts/fix-router.js"),
    ("build", "next build"),
    ("dev", "next dev"),
    ("start", "next start")]

  const NextseverScripts: Defaults := [
    ("nextsever:fix", "node scripts/nextsever.js --fix"),
    ("nextsever:dev", "node scripts/nextsever.js --dev"),
    ("nextsever:build", "node scripts/nextsever.js --build"),
    ("nextsever:start", "node scripts/nextsever.js --start")]

  const EngineDefaults: Defaults := [("node", ">=18.18.0 <23")]

  /** The script lists name each key once, do not share a key, and every
      default is a non-empty string. */
  lemma ScriptListsWellFormed()
    ensures DistinctKeys(ScriptDefaults) && DistinctKeys(NextseverScripts) && DistinctKeys(EngineDefaults)
    ensures forall k :: !(HasKey(ScriptDefaults, k) && HasKey(NextseverScripts, k))
    ensures forall i :: 0 <= i < |ScriptDefaults| ==> ScriptDefaults[i].1 != []
    ensures forall i :: 0 <= i < |EngineDefaults| ==> EngineDefaults[i].1 != []
  {
  }

  /** ensurePkgScriptsAndEngines on the parsed package.json. */
  function PkgScriptsAndEngines(j: map<string, Json>): Result<map<string, Json>, JsError> {
    var scripts :- ObjectField(j, "scripts");
    var engines :- ObjectField(j, "engines");
    Ok(j["scripts" := Obj(AssignAll(FillDefaults(scripts, ScriptDefaults), NextseverScripts))]
        ["engines" := Obj(FillDefaults(engines, EngineDefaults))])
  }

  /** ensurePkgScriptsAndEngines: read, patch, and always write package.json. */
  function EnsurePkgScriptsAndEngines(d: Disk): Result<Disk, JsError> {
    var j :- d.JsonRead(PackageJson);
    var j' :- PkgScriptsAndEngines(j);
    Ok(d.JsonWrite(PackageJson, j'))
  }

  /** Existing prebuild/build/dev/start scripts are kept and missing ones
      get their defaults; the four nextsever:* scripts are always
      overwritten; every other script is kept. */
  lemma PkgScriptsAt(j: map<string, Json>, k: string)
    requires PkgScriptsAndEngines(j).Ok?
    ensures var scripts := ObjectField(j, "scripts").value;
            var r := PkgScriptsAndEngines(j).value;
            && "scripts" in r && r["scripts"].Obj?
            && var s' := r["scripts"].fields;
            && (forall i :: 0 <= i < |ScriptDefaults| && ScriptDefaults[i].0 == k ==>
                  k in s' && s'[k] == (if Present(scripts, k) then scripts[k] else Str(ScriptDefaults[i].1)))
            && (forall i :: 0 <= i < |NextseverScripts| && NextseverScripts[i].0 == k ==>
                  k in s' && s'[k] == Str(NextseverScripts[i].1))
            && (!HasKey(ScriptDefaults, k) && !HasKey(NextseverScripts, k) ==>
                  (k in s' <==> k in scripts) && (k in scripts ==> s'[k] == scripts[k]))
  {
    ScriptListsWellFormed();
    var scripts := ObjectField(j, "scripts").value;
    var filled := FillDefaults(scripts, ScriptDefaults);
    FillDefaultsAt(scripts, ScriptDefaults, k);
    AssignAllAt(filled, NextseverScripts, k);
    forall i | 0 <= i < |ScriptDefaults| && ScriptDefaults[i].0 == k
      ensures HasKey(ScriptDefaults, k) && !HasKey(NextseverScripts, k)
    {
    }
    forall i | 0 <= i < |NextseverScripts| && NextseverScripts[i].0 == k
      ensures HasKey(NextseverScripts, k)
    {
    }
  }

  /** An existing `engines.node` is kept; a missing one gets the default. */
  lemma PkgEnginesNode(j: map<string, Json>)
    requires PkgScriptsAndEngines(j).Ok?
    ensures var engines := ObjectField(j, "engines").value;
            var r := PkgScriptsAndEngines(j).value;
            && "engines" in r && r["engines"].Obj? && "node" in r["engines"].fields
            && r["engines"].fields["node"] ==
                 (if Present(engines, "node") then engines["node"] else Str(">=18.18.0 <23"))
  {
    ScriptListsWellFormed();
    var engines := ObjectField(j, "engines").value;
    FillDefaultsAt(engines, EngineDefaults, "node");
    assert EngineDefaults[0].0 == "node";
  }

  /** The other `engines` entries are kept as they are. */
  lemma PkgEnginesOthers(j: map<string, Json>, k: string)
    requires PkgScriptsAndEngines(j).Ok? && k != "node"
    ensures var engines := ObjectField(j, "engines").value;
            var r := PkgScriptsAndEngines(j).value;
            && "engines" in r && r["engines"].Obj?
            && (k in r["engines"].fields <==> k in engines)
            && (k in engines ==> r["engines"].fields[k] == engines[k])
  {
    ScriptListsWellFormed();
    var engines := ObjectField(j, "engines").value;
    FillDefaultsAt(engines, EngineDefaults, k);
    assert !HasKey(EngineDefaults, k);
  }

  /** Every top-level key other than `scripts` and `engines` is kept, and no
      other key is added. */
  lemma PkgKeepsOtherKeys(j: map<string, Json>)
    requires PkgScriptsAndEngines(j).Ok?
    ensures forall k :: k in j && k != "scripts" && k != "engines" ==>
              k in PkgScriptsAndEngines(j).value && PkgScriptsAndEngines(j).value[k] == j[k]
    ensures forall k :: k in PkgScriptsAndEngines(j).value ==> k in j || k == "scripts" || k == "engines"
  {
  }

  lemma ScriptsIdempotent(scripts: map<string, Json>)
    ensures var s' := AssignAll(FillDefaults(scripts, ScriptDefaults), NextseverScripts);
            AssignAll(FillDefaults(s', ScriptDefaults), NextseverScripts) == s'
  {
    ScriptListsWellFormed();
    var filled := FillDefaults(scripts, ScriptDefaults);
    var s' := AssignAll(filled, NextseverScripts);
    FillDefaultsEstablishes(scripts, ScriptDefaults);
    forall i | 0 <= i < |ScriptDefaults| ensures Present(s', ScriptDefaults[i].0) {
      AssignAllAt(filled, NextseverScripts, ScriptDefaults[i].0);
      assert HasKey(ScriptDefaults, ScriptDefaults[i].0);
    }
    FillDefaultsNoop(s', ScriptDefaults);
    forall i | 0 <= i < |NextseverScripts|
      ensures NextseverScripts[i].0 in s' && s'[NextseverScripts[i].0] == Str(NextseverScripts[i].1)
    {
      AssignAllAt(filled, NextseverScripts, NextseverScripts[i].0);
      assert HasKey(NextseverScripts, NextseverScripts[i].0);
    }
    AssignAllNoop(s', NextseverScripts);
  }

  /** Running the rule on its own output gives the same document. */
  lemma PkgScriptsIdempotent(j: map<string, Json>)
    requires PkgScriptsAndEngines(j).Ok?
    ensures PkgScriptsAndEngines(PkgScriptsAndEngines(j).value) == PkgScriptsAndEngines(j)
  {
    ScriptListsWellFormed();
    var r := PkgScriptsAndEngines(j).value;
    var scripts := ObjectField(j, "scripts").value;
    var engines := ObjectField(j, "engines").value;
    var s' := AssignAll(FillDefaults(scripts, ScriptDefaults), NextseverScripts);
    var e' := FillDefaults(engines, EngineDefaults);
    assert r == j["scripts" := Obj(s')]["engines" := Obj(e')];
    assert ObjectField(r, "scripts") == Ok(s');
    assert ObjectField(r, "engines") == Ok(e');
    ScriptsIdempotent(scripts);
    FillDefaultsEstablishes(engines, EngineDefaults);
    FillDefaultsNoop(e', EngineDefaults);
    UpdateSame(r, "scripts", Obj(s'));
    UpdateSame(r, "engines", Obj(e'));
  }

  /* ---------------- ensureDeps ---------------- */

  const NeedDeps: Defaults := [
    ("next", "14.2.7"),
    ("react", "18.2.0"),
    ("react-dom", "18.2.0"),
    ("lucide-react", "0.426.0"),
    ("recharts", "^2.12.7"),
    ("clsx", "^2.1.1"),
    ("class-variance-authority", "^0.7.0"),
    ("tailwind-merge", "^2.2.1"),
    ("@radix-ui/react-accordion", "^1.2.0"),
    ("tailwindcss", "^3.4.10"),
    ("postcss", "^8.4.40"),
    ("autoprefixer", "^10.4.20"),
    ("@tailwindcss/postcss", "^4.0.0")]

  const NeedDev: Defaults := [
    ("typescript", "^5.4.5"),
    ("@types/react", "^18.2.66"),
    ("@types/node", "^20.12.7")]

  /** The dependency lists name each package once, with a non-empty version. */
  lemma NeedListsWellFormed()
    ensures DistinctKeys(NeedDeps) && DistinctKeys(NeedDev)
    ensures forall i :: 0 <= i < |NeedDeps| ==> NeedDeps[i].1 != []
    ensures forall i :: 0 <= i < |NeedDev| ==> NeedDev[i].1 != []
  {
  }

  /** Some listed key holds no truthy value. */
  predicate AnyMissing(o: map<string, Json>, ds: Defaults) {
    exists i :: 0 <= i < |ds| && !Present(o, ds[i].0)
  }

  /** One of the loops of ensureDeps: `if (!o[k]) { o[k] = v; changed = true; }`
      for each needed `(k, v)`. */
  method FillMissing(o: map<string, Json>, ds: Defaults) returns (r: map<string, Json>, changed: bool)
    requires DistinctKeys(ds)
    ensures r == FillDefaults(o, ds)
    ensures changed <==> AnyMissing(o, ds)
  {
    r, changed := o, false;
    for i := 0 to |ds|
      invariant r == FillDefaults(o, ds[..i])
      invariant changed <==> AnyMissing(o, ds[..i])
    {
      var (k, v) := ds[i];
      assert ds[..i + 1][..i] == ds[..i];
      FillDefaultsAt(o, ds[..i], k);
      assert !HasKey(ds[..i], k);
      if !Present(r, k) {
        r := r[k := Str(v)];
        changed := true;
      }
      assert forall m :: 0 <= m < i ==> ds[..i + 1][m] == ds[..i][m];
    }
    assert ds[..|ds|] == ds;
  }

  /** The parsed package.json after ensureDeps, and whether it changed. */
  datatype DepsFix = DepsFix(pkg: map<string, Json>, changed: bool)

  /** ensureDeps on the parsed package.json. */
  function Deps(j: map<string, Json>): Result<DepsFix, JsError> {
    var deps :- ObjectField(j, "dependencies");
    var dev :- ObjectField(j, "devDependencies");
    Ok(DepsFix(
      j["dependencies" := Obj(FillDefaults(deps, NeedDeps))]
       ["devDependencies" := Obj(FillDefaults(dev, NeedDev))],
      AnyMissing(deps, NeedDeps) || AnyMissing(dev, NeedDev)))
  }

  /** ensureDeps as the source runs it: the two filling loops. */
  method DepsLoop(j: map<string, Json>) returns (r: Result<DepsFix, JsError>)
    ensures r == Deps(j)
  {
    NeedListsWellFormed();
    var depsField := ObjectField(j, "dependencies");
    if depsField.Err? {
      return Err(depsField.error);
    }
    var devField := ObjectField(j, "devDependencies");
    if devField.Err? {
      return Err(devField.error);
    }
    var deps, c1 := FillMissing(depsField.value, NeedDeps);
    var dev, c2 := FillMissing(devField.value, NeedDev);
    r := Ok(DepsFix(j["dependencies" := Obj(deps)]["devDependencies" := Obj(dev)], c1 || c2));
  }

  /** The result of ensureDeps on the project: the disk and whether
      `npm install` is run afterwards. */
  datatype DepsOutcome = DepsOutcome(disk: Disk, runInstall: bool)

  /** ensureDeps: package.json is written, and `npm install` run when asked,
      only when a dependency was added. */
  function EnsureDeps(d: Disk, install: bool): Result<DepsOutcome, JsError> {
    var j :- d.JsonRead(PackageJson);
    var fix :- Deps(j);
    if fix.changed then Ok(DepsOutcome(d.JsonWrite(PackageJson, fix.pkg), install))
    else Ok(DepsOutcome(d, false))
  }

  /** An existing version is never changed, exactly the missing keys are
      added with their default, and nothing else is touched. */
  lemma DepsAt(deps: map<string, Json>, k: string)
    ensures var r := FillDefaults(deps, NeedDeps);
            && (k in r <==> k in deps || HasKey(NeedDeps, k))
            && (Present(deps, k) ==> r[k] == deps[k])
            && (!HasKey(NeedDeps, k) && k in deps ==> r[k] == deps[k])
            && (forall i :: 0 <= i < |NeedDeps| && NeedDeps[i].0 == k && !Present(deps, k) ==>
                  r[k] == Str(NeedDeps[i].1))
  {
    NeedListsWellFormed();
    FillDefaultsAt(deps, NeedDeps, k);
  }

  /** Every top-level key other than the two dependency maps is kept, and no
      other key is added. */
  lemma DepsKeepsOtherKeys(j: map<string, Json>)
    requires Deps(j).Ok?
    ensures forall k :: k in j && k != "dependencies" && k != "devDependencies" ==>
              k in Deps(j).value.pkg && Deps(j).value.pkg[k] == j[k]
    ensures forall k :: k in Deps(j).value.pkg ==> k in j || k == "dependencies" || k == "devDependencies"
  {
  }

  /** `changed` is true exactly when a dependency map really changed. */
  lemma {:induction false} FillChangesIffMissing(o: map<string, Json>, ds: Defaults)
    requires DistinctKeys(ds) && forall i :: 0 <= i < |ds| ==> ds[i].1 != []
    ensures AnyMissing(o, ds) <==> FillDefaults(o, ds) != o
  {
    if AnyMissing(o, ds) {
      var i :| 0 <= i < |ds| && !Present(o, ds[i].0);
      FillDefaultsEstablishes(o, ds);
      assert Present(FillDefaults(o, ds), ds[i].0);
    } else {
      FillDefaultsNoop(o, ds);
    }
  }

  lemma DepsChangedIff(j: map<string, Json>)
    requires Deps(j).Ok?
    ensures var deps := ObjectField(j, "dependencies").value;
            var dev := ObjectField(j, "devDependencies").value;
            Deps(j).value.changed <==>
              FillDefaults(deps, NeedDeps) != deps || FillDefaults(dev, NeedDev) != dev
  {
    NeedListsWellFormed();
    FillChangesIffMissing(ObjectField(j, "dependencies").value, NeedDeps);
    FillChangesIffMissing(ObjectField(j, "devDependencies").value, NeedDev);
  }

  /** package.json is written iff something was missing; otherwise the disk
      is untouched and no install runs. */
  lemma EnsureDepsWritesIff(d: Disk, install: bool)
    requires EnsureDeps(d, install).Ok?
    ensures var j := d.JsonRead(PackageJson).value;
            var o := EnsureDeps(d, install).value;
            && (Deps(j).value.changed ==>
                  o.disk.writes == d.writes + [PackageJson] && o.runInstall == install)
            && (!Deps(j).value.changed ==> o.disk == d && !o.runInstall)
  {
  }

  /** A second run finds nothing missing: no write and no install. */
  lemma DepsIdempotent(j: map<string, Json>)
    requires Deps(j).Ok?
    ensures Deps(Deps(j).value.pkg) == Ok(DepsFix(Deps(j).value.pkg, false))
  {
    NeedListsWellFormed();
    var deps := ObjectField(j, "dependencies").value;
    var dev := ObjectField(j, "devDependencies").value;
    var r := Deps(j).value.pkg;
    var deps' := FillDefaults(deps, NeedDeps);
    var dev' := FillDefaults(dev, NeedDev);
    assert r == j["dependencies" := Obj(deps')]["devDependencies" := Obj(dev')];
    FillDefaultsEstablishes(deps, NeedDeps);
    FillDefaultsEstablishes(dev, NeedDev);
    ObjectFieldOfObj(r, "dependencies", deps');
    ObjectFieldOfObj(r, "devDependencies", dev');
    FillDefaultsNoop(deps', NeedDeps);
    FillDefaultsNoop(dev', NeedDev);
    assert !AnyMissing(deps', NeedDeps) && !AnyMissing(dev', NeedDev);
    UpdateSame(r, "dependencies", Obj(deps'));
    UpdateSame(r, "devDependencies", Obj(dev'));
  }
}
