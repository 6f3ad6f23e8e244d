/** The rules of scripts/nextsever.js that patch text files and directories:
    fixRouterConflict, ensurePostcssConfig, ensureGlobalsCss,
    ensureTailwindConfig and ensureOracleGlobeDefaultExport. */
module NextseverText {
  import opened Wrappers
  import opened Text
  import opened Disk

  /* ---------------- fixRouterConflict ---------------- */

  const RootApp := "app"
  const SrcApp := "src/app"
  const RootPages := "pages"
  const SrcPages := "src/pages"

  /** The App Router directory to disable, if both routers are present:
      `src/app` when it exists, otherwise `./app`. */
  function RouterConflictTarget(d: Disk): (r: Option<string>)
    ensures r.Some? <==> (d.Exists(RootApp) || d.Exists(SrcApp)) && (d.Exists(RootPages) || d.Exists(SrcPages))
    ensures r.Some? ==> (r.value == SrcApp <==> d.Exists(SrcApp))
    ensures r.Some? ==> r.value in {SrcApp, RootApp} && d.Exists(r.value)
  {
    var hasApp := d.Exists(RootApp) || d.Exists(SrcApp);
    var hasPages := d.Exists(RootPages) || d.Exists(SrcPages);
    if hasApp && hasPages then Some(if d.Exists(SrcApp) then SrcApp else RootApp) else None
  }

  /** `fs.renameSync(from, to)` on whichever kind of entry `from` is. The
      entries below a renamed directory are not carried along. */
  function Rename(d: Disk, from: string, to: string): Disk {
    d.(texts := if from in d.texts then d.texts - {from} + map[to := d.texts[from]] else d.texts,
       docs := if from in d.docs then d.docs - {from} + map[to := d.docs[from]] else d.docs,
       dirs := if from in d.dirs then d.dirs - {from} + {to} else d.dirs)
  }

  /** The name a disabled App Router directory is given. */
  function Disabled(target: string, now: string): string {
    target + "__disabled_" + now
  }

  /** fixRouterConflict: `now` stands for `Date.now()` in decimal. */
  function FixRouterConflict(d: Disk, now: string): Disk {
    match RouterConflictTarget(d)
    case None => d
    case Some(target) => Rename(d, target, Disabled(target, now))
  }

  /** A directory is renamed only when both routers are present, and it is
      `src/app` whenever that exists; the disabled name replaces it. */
  lemma RouterConflictRenames(d: Disk, now: string)
    ensures var hasApp := d.Exists(RootApp) || d.Exists(SrcApp);
            var hasPages := d.Exists(RootPages) || d.Exists(SrcPages);
            && (!(hasApp && hasPages) ==> FixRouterConflict(d, now) == d)
            && (hasApp && hasPages && SrcApp in d.dirs ==>
                  var d' := FixRouterConflict(d, now);
                  SrcApp !in d'.dirs && SrcApp + "__disabled_" + now in d'.dirs &&
                  (RootApp in d.dirs ==> RootApp in d'.dirs))
            && (hasApp && hasPages && !d.Exists(SrcApp) && RootApp in d.dirs ==>
                  var d' := FixRouterConflict(d, now);
                  RootApp !in d'.dirs && RootApp + "__disabled_" + now in d'.dirs)
            && FixRouterConflict(d, now).writes == d.writes
  {
    var target := RouterConflictTarget(d);
    if target.Some? {
      assert target.value + "__disabled_" + now != target.value;
      assert SrcApp != RootApp;
    }
  }

  /** A conflict moves the chosen entry to its disabled name and touches no
      other path: every other directory, file and JSON document is as it was,
      and nothing is written. */
  lemma RouterConflictRenamesOnly(d: Disk, now: string, target: string, d': Disk)
    requires RouterConflictTarget(d) == Some(target) && d' == FixRouterConflict(d, now)
    ensures !d'.Exists(target) && d'.Exists(Disabled(target, now))
    ensures target in d.dirs ==> Disabled(target, now) in d'.dirs
    ensures target in d.texts ==> Disabled(target, now) in d'.texts && d'.texts[Disabled(target, now)] == d.texts[target]
    ensures target in d.docs ==> Disabled(target, now) in d'.docs && d'.docs[Disabled(target, now)] == d.docs[target]
    ensures forall p :: p != target && p != Disabled(target, now) ==> (p in d'.dirs <==> p in d.dirs)
    ensures forall p :: p != target && p != Disabled(target, now) ==>
              (p in d'.texts <==> p in d.texts) && (p in d.texts ==> d'.texts[p] == d.texts[p])
    ensures forall p :: p != target && p != Disabled(target, now) ==>
              (p in d'.docs <==> p in d.docs) && (p in d.docs ==> d'.docs[p] == d.docs[p])
    ensures d'.writes == d.writes
  {
    assert |Disabled(target, now)| > |target|;
  }

  /* ---------------- ensurePostcssConfig ---------------- */

  const PostcssConfig := "postcss.config.js"
  const PostcssPluginDouble := "\"@tailwindcss/postcss\""
  const PostcssPluginSingle := "'@tailwindcss/postcss'"
  /** The config the rule writes, around the plugin's name. */
  const PostcssWant := "module.exports = {\n  plugins: {\n    " + PostcssPluginDouble + ": {},\n  },\n};\n"

  /** ensurePostcssConfig: write the wanted config unless the plugin is named
      in either quote style. */
  function EnsurePostcssConfig(d: Disk): Disk {
    var cur := d.Read(PostcssConfig);
    if !Contains(cur, PostcssPluginDouble) && !Contains(cur, PostcssPluginSingle) then
      d.Write(PostcssConfig, PostcssWant)
    else d
  }

  /** The config the rule writes names the plugin, so a second run writes
      nothing. */
  lemma PostcssIdempotent(d: Disk)
    ensures EnsurePostcssConfig(EnsurePostcssConfig(d)) == EnsurePostcssConfig(d)
  {
    PostcssWantNamesPlugin();
    var d' := EnsurePostcssConfig(d);
    if d' != d {
      assert d'.Read(PostcssConfig) == PostcssWant;
    }
  }

  lemma PostcssWantNamesPlugin()
    ensures Contains(PostcssWant, PostcssPluginDouble)
  {
    ContainsMiddle("module.exports = {\n  plugins: {\n    ", PostcssPluginDouble, ": {},\n  },\n};\n");
  }

  /* ---------------- ensureGlobalsCss ---------------- */

  const GlobalsCss := "src/styles/globals.css"
  const TailwindBase := "@tailwind base"
  const GlobalsBase := TailwindBase + ";\n@tailwind components;\n@tailwind utilities;\n\nhtml, body, #__next { height: 100%; }\n"

  /** ensureGlobalsCss. */
  function EnsureGlobalsCss(d: Disk): Disk {
    var cur := d.Read(GlobalsCss);
    if IsBlank(cur) then d.Write(GlobalsCss, GlobalsBase)
    else if !Contains(cur, TailwindBase) then d.Write(GlobalsCss, GlobalsBase + "\n" + cur)
    else d
  }

  lemma BaseHasDirective()
    ensures Contains(GlobalsBase, TailwindBase)
  {
    OccursWitness(GlobalsBase, TailwindBase, 0);
  }

  /** Text holding the directive is not blank. */
  lemma DirectiveNotBlank(s: string)
    requires Contains(s, TailwindBase)
    ensures !IsBlank(s)
  {
    var i :| 0 <= i <= |s| && Occurs(s, TailwindBase, i);
    assert s[i] == TailwindBase[0] == '@';
  }

  /** The three outcomes: blank content is replaced by the directives;
      content without `@tailwind base` keeps its text after them; otherwise
      nothing is written. Every outcome has the base directive. */
  lemma GlobalsCssOutcomes(d: Disk)
    ensures var cur := d.Read(GlobalsCss);
            var d' := EnsureGlobalsCss(d);
            && (IsBlank(cur) ==> d' == d.Write(GlobalsCss, GlobalsBase))
            && (!IsBlank(cur) && !Contains(cur, TailwindBase) ==>
                  d' == d.Write(GlobalsCss, GlobalsBase + "\n" + cur) &&
                  EndsWith(d'.Read(GlobalsCss), cur))
            && (Contains(cur, TailwindBase) ==> d' == d)
            && Contains(d'.Read(GlobalsCss), TailwindBase)
  {
    var cur := d.Read(GlobalsCss);
    BaseHasDirective();
    if Contains(cur, TailwindBase) {
      DirectiveNotBlank(cur);
    } else if !IsBlank(cur) {
      PrependKeeps(GlobalsBase, cur, TailwindBase);
    }
  }

  /** Text put in front of `cur` keeps `cur` at the end and what it contains. */
  lemma PrependKeeps(base: string, cur: string, sub: string)
    requires Contains(base, sub)
    ensures Contains(base + "\n" + cur, sub) && EndsWith(base + "\n" + cur, cur)
  {
    var s' := base + "\n" + cur;
    assert s'[|s'| - |cur|..] == cur;
    ContainsExtend([], base, "\n" + cur, sub);
    assert [] + base + ("\n" + cur) == s';
  }

  /** A second run writes nothing. */
  lemma GlobalsCssIdempotent(d: Disk)
    ensures EnsureGlobalsCss(EnsureGlobalsCss(d)) == EnsureGlobalsCss(d)
  {
    GlobalsCssOutcomes(d);
    DirectiveNotBlank(EnsureGlobalsCss(d).Read(GlobalsCss));
  }

  /* ---------------- ensureTailwindConfig ---------------- */

  const TailwindConfig := "tailwind.config.ts"
  const ContentAnchor := "content: ["
  const PagesGlob := "'./pages/**/*.{ts,tsx,js,jsx,mdx}'"
  const SrcGlob := "'./src/**/*.{ts,tsx,js,jsx,mdx}'"
  const WantContent: seq<string> := [PagesGlob, SrcGlob]

  /** The text that one missing glob inserts after the anchor. */
  function GlobLine(pat: string): string {
    "\n    " + pat + ","
  }

  /** The text after handling one glob. */
  function PatchOne(cur: string, pat: string): string {
    if Contains(cur, pat) then cur
    else ReplaceFirst(cur, ContentAnchor, ContentAnchor + GlobLine(pat))
  }

  /** The text after handling each glob of `pats` in order. */
  function PatchAll(cur: string, pats: seq<string>): string
    decreases |pats|
  {
    if pats == [] then cur
    else PatchOne(PatchAll(cur, pats[..|pats| - 1]), pats[|pats| - 1])
  }

  /** `changed` after handling each glob of `pats` in order: some glob was
      missing when its turn came. */
  predicate SomeMissing(cur: string, pats: seq<string>)
    decreases |pats|
  {
    pats != [] &&
    (SomeMissing(cur, pats[..|pats| - 1]) || !Contains(PatchAll(cur, pats[..|pats| - 1]), pats[|pats| - 1]))
  }

  /** The loop of ensureTailwindConfig. */
  method PatchContent(cur: string) returns (s: string, changed: bool)
    ensures s == PatchAll(cur, WantContent)
    ensures changed == SomeMissing(cur, WantContent)
  {
    s, changed := cur, false;
    for i := 0 to |WantContent|
      invariant s == PatchAll(cur, WantContent[..i])
      invariant changed == SomeMissing(cur, WantContent[..i])
    {
      var pat := WantContent[i];
      assert WantContent[..i + 1][..i] == WantContent[..i];
      if !Contains(s, pat) {
        s := ReplaceFirst(s, ContentAnchor, ContentAnchor + GlobLine(pat));
        changed := true;
      }
    }
    assert WantContent[..|WantContent|] == WantContent;
  }

  /** ensureTailwindConfig: nothing when the file is absent; otherwise the
      file is written when some glob was missing. */
  function EnsureTailwindConfig(d: Disk): Disk {
    if !d.Exists(TailwindConfig) then d
    else
      var cur := d.Read(TailwindConfig);
      if SomeMissing(cur, WantContent) then d.Write(TailwindConfig, PatchAll(cur, WantContent))
      else d
  }

  /** The two rounds of the loop, written out. */
  lemma PatchTwoGlobs(cur: string)
    ensures PatchAll(cur, WantContent) == PatchOne(PatchOne(cur, PagesGlob), SrcGlob)
    ensures SomeMissing(cur, WantContent) ==
              (!Contains(cur, PagesGlob) || !Contains(PatchOne(cur, PagesGlob), SrcGlob))
  {
    assert WantContent[..|WantContent| - 1] == [PagesGlob];
    assert [PagesGlob][..0] == [];
    assert PatchAll(cur, [PagesGlob]) == PatchOne(cur, PagesGlob);
    assert SomeMissing(cur, [PagesGlob]) == !Contains(cur, PagesGlob);
  }

  /** The file is written iff some glob is missing from it. */
  lemma TailwindMissingIff(cur: string)
    ensures SomeMissing(cur, WantContent) <==> !Contains(cur, PagesGlob) || !Contains(cur, SrcGlob)
  {
    PatchTwoGlobs(cur);
  }

  /** With the anchor present, handling a missing glob puts it in the text
      and keeps the anchor. */
  lemma PatchOneInserts(s: string, pat: string)
    requires Contains(s, ContentAnchor)
    ensures Contains(PatchOne(s, pat), pat) && Contains(PatchOne(s, pat), ContentAnchor)
  {
    if !Contains(s, pat) {
      ReplaceKeepsAnchor(s, ContentAnchor, GlobLine(pat));
      var i := IndexOf(s, ContentAnchor);
      var k := i + |ContentAnchor|;
      var r := s[..k] + GlobLine(pat) + s[k..];
      assert GlobLine(pat) == "\n    " + pat + ",";
      assert r[k + 5..k + 5 + |pat|] == pat;
      OccursWitness(r, pat, k + 5);
      assert r[i..k] == s[i..k] == ContentAnchor;
      OccursWitness(r, ContentAnchor, i);
    }
  }

  /** The pages glob has no `c` and the anchor has no quote, so an
      occurrence of the glob never overlaps the end of the anchor. */
  lemma GlobsCannotOverlapAnchor()
    ensures ContentAnchor[0] !in PagesGlob && PagesGlob[0] !in ContentAnchor
  {
    assert ContentAnchor == ['c', 'o', 'n', 't', 'e', 'n', 't', ':', ' ', '['];
    assert PagesGlob == ['\'', '.', '/', 'p', 'a', 'g', 'e', 's', '/', '*', '*', '/', '*', '.', '{',
                         't', 's', ',', 't', 's', 'x', ',', 'j', 's', ',', 'j', 's', 'x', ',', 'm', 'd', 'x', '}', '\''];
  }

  /** With the anchor present, both globs are in the patched text. */
  lemma TailwindComplete(cur: string)
    requires Contains(cur, ContentAnchor)
    ensures Contains(PatchAll(cur, WantContent), PagesGlob)
    ensures Contains(PatchAll(cur, WantContent), SrcGlob)
  {
    PatchTwoGlobs(cur);
    var s1 := PatchOne(cur, PagesGlob);
    PatchOneInserts(cur, PagesGlob);
    PatchOneInserts(s1, SrcGlob);
    if !Contains(s1, SrcGlob) {
      GlobsCannotOverlapAnchor();
      InsertAfterAnchorKeeps(s1, ContentAnchor, GlobLine(SrcGlob), PagesGlob);
    }
  }

  /** With the anchor present, a second run writes nothing. */
  lemma TailwindIdempotent(d: Disk)
    requires d.Exists(TailwindConfig) && Contains(d.Read(TailwindConfig), ContentAnchor)
    ensures EnsureTailwindConfig(EnsureTailwindConfig(d)) == EnsureTailwindConfig(d)
  {
    var cur := d.Read(TailwindConfig);
    TailwindComplete(cur);
    TailwindMissingIff(cur);
    TailwindMissingIff(PatchAll(cur, WantContent));
  }

  /** Without the anchor a missing glob, either of the two, still marks the
      file changed: the same text is written back, on every run. */
  lemma TailwindNoAnchorRewrites(d: Disk)
    requires d.Exists(TailwindConfig) && !Contains(d.Read(TailwindConfig), ContentAnchor)
    requires !Contains(d.Read(TailwindConfig), PagesGlob) || !Contains(d.Read(TailwindConfig), SrcGlob)
    ensures EnsureTailwindConfig(d) == d.Write(TailwindConfig, d.Read(TailwindConfig))
    ensures EnsureTailwindConfig(EnsureTailwindConfig(d)) ==
              EnsureTailwindConfig(d).Write(TailwindConfig, d.Read(TailwindConfig))
  {
    var cur := d.Read(TailwindConfig);
    PatchTwoGlobs(cur);
    assert PatchOne(cur, PagesGlob) == cur;
    assert PatchOne(cur, SrcGlob) == cur;
  }

  /* ---------------- ensureOracleGlobeDefaultExport ---------------- */

  const OracleGlobeFile := "src/components/OracleGlobe.tsx"
  /** `export default OracleGlobe;`, spelled as its words so that proofs
      can take it apart. */
  const DefaultExportStatement := ("export" + " ") + (("default" + " ") + ("OracleGlobe" + ";\n"))
  const DefaultExportLine := "\n" + DefaultExportStatement

  /** The words of `ws` at the start of `t`, each pair separated by `\s+`.
      Every word starts with a non-space, so the greedy run of spaces is the
      only one a match can use. */
  predicate WordsAt(t: string, ws: seq<string>)
    decreases |ws|
  {
    ws == [] ||
    (StartsWith(t, ws[0]) &&
     (|ws| == 1 ||
      (|t| > |ws[0]| && IsSpace(t[|ws[0]|]) && WordsAt(SkipSpaces(t[|ws[0]|..]), ws[1..]))))
  }

  /** `/export\s+default\s+function\s+OracleGlobe/` or
      `/export\s+default\s+OracleGlobe/` matches at index `i`. */
  predicate DefaultExportAt(s: string, i: int)
    requires 0 <= i <= |s|
  {
    WordsAt(s[i..], ["export", "default", "function", "OracleGlobe"]) ||
    WordsAt(s[i..], ["export", "default", "OracleGlobe"])
  }

  predicate HasDefaultExport(s: string) {
    exists i | 0 <= i <= |s| :: DefaultExportAt(s, i)
  }

  predicate DefinesOracleGlobe(s: string) {
    Contains(s, "function OracleGlobe(") || Contains(s, "const OracleGlobe =")
  }

  /** The text with the default export appended. */
  function WithDefaultExport(s: string): string {
    (if EndsWith(s, "\n") then s else s + "\n") + DefaultExportLine
  }

  /** ensureOracleGlobeDefaultExport. */
  function EnsureOracleGlobeDefaultExport(d: Disk): Disk {
    if !d.Exists(OracleGlobeFile) then d
    else
      var s := d.Read(OracleGlobeFile);
      if HasDefaultExport(s) then d
      else if DefinesOracleGlobe(s) then d.Write(OracleGlobeFile, WithDefaultExport(s))
      else d
  }

  /** A word, a run of white space, then words: the words match. */
  lemma {:induction false} WordsCons(w: string, gap: string, rest: string, ws: seq<string>)
    requires gap != [] && IsBlank(gap) && (rest == [] || !IsSpace(rest[0]))
    requires ws != [] && WordsAt(rest, ws)
    ensures WordsAt(w + gap + rest, [w] + ws)
  {
    var t := w + gap + rest;
    assert t[..|w|] == w;
    assert t[|w|..] == gap + rest;
    SkipSpacesPrefix(gap, rest);
    assert ([w] + ws)[1..] == ws;
  }

  /** One word after another, apart by a single space. */
  lemma WordThenWords(a: string, rest: string, ws: seq<string>)
    requires a != [] && rest != [] && !IsSpace(rest[0]) && ws != [] && WordsAt(rest, ws)
    ensures WordsAt((a + " ") + rest, [a] + ws)
  {
    WordsCons(a, " ", rest, ws);
  }

  /** A word followed by anything. */
  lemma LastWord(c: string, tail: string)
    ensures WordsAt(c + tail, [c])
  {
    assert (c + tail)[..|c|] == c;
  }

  /** Three words, each starting with a non-space, apart by single spaces. */
  lemma ThreeWords(a: string, b: string, c: string, tail: string)
    requires a != [] && b != [] && c != [] && !IsSpace(b[0]) && !IsSpace(c[0])
    ensures WordsAt((a + " ") + ((b + " ") + (c + tail)), [a] + ([b] + [c]))
  {
    LastWord(c, tail);
    WordThenWords(b, c + tail, [c]);
    WordThenWords(a, (b + " ") + (c + tail), [b] + [c]);
  }

  /** The appended line is itself a default export. */
  lemma AppendedIsDefaultExport(s: string)
    ensures HasDefaultExport(WithDefaultExport(s))
  {
    var base := if EndsWith(s, "\n") then s else s + "\n";
    var r := base + DefaultExportLine;
    var i := |base| + 1;
    assert r[i..] == DefaultExportStatement;
    ThreeWords("export", "default", "OracleGlobe", ";\n");
    assert ["export"] + (["default"] + ["OracleGlobe"]) == ["export", "default", "OracleGlobe"];
    assert DefaultExportAt(r, i);
  }

  /** The line is appended only when no default export exists and a
      definition is present, after a newline when the text lacks one; the
      old text is kept in front. */
  lemma DefaultExportAppends(d: Disk)
    ensures var d' := EnsureOracleGlobeDefaultExport(d);
            var s := d.Read(OracleGlobeFile);
            && (d' != d ==> d.Exists(OracleGlobeFile) && !HasDefaultExport(s) && DefinesOracleGlobe(s))
            && (d.Exists(OracleGlobeFile) && !HasDefaultExport(s) && DefinesOracleGlobe(s) ==>
                  d'.writes == d.writes + [OracleGlobeFile] &&
                  var s' := d'.Read(OracleGlobeFile);
                  s' == (if EndsWith(s, "\n") then s else s + "\n") + DefaultExportLine &&
                  StartsWith(s', s) && EndsWith(s', DefaultExportLine) &&
                  |s'| == |s| + (if EndsWith(s, "\n") then 0 else 1) + |DefaultExportLine|)
  {
    var s := d.Read(OracleGlobeFile);
    var s' := WithDefaultExport(s);
    var base := if EndsWith(s, "\n") then s else s + "\n";
    assert s'[..|s|] == base[..|s|] == s;
    assert s'[|s'| - |DefaultExportLine|..] == DefaultExportLine;
  }

  /** A second run changes nothing. */
  lemma DefaultExportIdempotent(d: Disk)
    ensures EnsureOracleGlobeDefaultExport(EnsureOracleGlobeDefaultExport(d)) == EnsureOracleGlobeDefaultExport(d)
  {
    if d.Exists(OracleGlobeFile) {
      AppendedIsDefaultExport(d.Read(OracleGlobeFile));
    }
  }
}
