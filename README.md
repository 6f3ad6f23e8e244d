# nextsever and the RSUI32 landing page, modelled in Dafny

The repository is a Next.js landing page for the RSUI32 token, plus three
Node scripts that repair the project it lives in. This Dafny project models
the parts of it with logic worth stating:

- **`scripts/nextsever.js`**: the one-shot repair and launch script.
  - Its command-line flags (`getFlag` and the dispatch in `main`).
  - The ten repair rules, each a function from a project directory to a new
    one. The directory is modelled as text files, parsed JSON files,
    directories, and the list of paths written (modules `Disk`, `Json`,
    `Text`, `NextseverFlags`, `NextseverJson`, `NextseverText`, `Nextsever`).
- **`scripts/fix-rsui32.js`**: the full-width to ASCII punctuation chain and
  the rewrite of the named `OracleGlobe` import into a default import
  (module `FixRsui32`).
- **`scripts/fix-router.js`**: the router-conflict cleaner, as a class over a
  mutable tree of paths. Its file-by-file loop is proved against a
  specification function, and the file system's refusals are a set of
  failing paths (module `FixRouter`).
- **`src/components/RSUI32.tsx`** (module `Rsui32`):
  - the private-sale panel, as a class: the step machine, the estimate, the
    quick amounts and the amount field;
  - the toast list, as a class;
  - the scroll-progress ratio.
- **`src/components/OracleGlobe.tsx`**: the globe's bookkeeping (module
  `OracleGlobe`):
  - the graticule loops, the six nodes and the link ring;
  - the per-frame update of the view angles and link phases, as a class;
  - the depth culling of `lineStrip` and `drawNode`;
  - resizing.

JSON follows JavaScript's rules where the scripts depend on them:
- truthiness;
- `x || default`;
- `o.k = o.k || {}`, which fails on a truthy non-object;
- spreading `o.k || []`;
- `new Set` deduplication, where arrays and objects are always distinct.

Strings are sequences of code points. `replace` with a string pattern changes
only the first occurrence. `includes`, `indexOf`, `trim` and `\s` follow
ECMAScript.

## Model

| member | source | states |
|---|---|---|
| NextseverFlags.FindIndex | scripts/nextsever.js:31 | -1 exactly when the flag is absent, otherwise the first position holding it |
| NextseverFlags.GetFlagCases | scripts/nextsever.js:30-36 | getFlag gives the default when the flag is absent, the following argument when it is a non-empty non-flag, and `true` when the flag is last, followed by an empty argument or followed by another flag |
| NextseverFlags.FlagIff | scripts/nextsever.js:286-291 | `!!getFlag(f, false)` holds exactly when f appears anywhere in argv |
| NextseverFlags.MainPlanDispatch | scripts/nextsever.js:285-335 | fixes run iff one of --fix/--dev/--build/--start is given; install iff --install; at most one launch with dev before build before start; usage iff no command flag |
| NextseverFlags.MainPlanPorts | scripts/nextsever.js:307-323 | without --port dev searches 3000-3010 and start uses 3000; a trailing --port reads as `true`, so dev and start both get port 1; `--port v` with a non-empty `v` not starting with `--` gives the port text `v` to either launch |
| NextseverText.RouterConflictTarget | scripts/nextsever.js:54-62 | a target exists iff an app dir and a pages dir both exist; it is src/app whenever that exists, else app |
| NextseverText.RouterConflictRenames | scripts/nextsever.js:54-69 | no conflict leaves the project unchanged; a conflict moves the chosen app dir (src/app first) to `<dir>__disabled_<now>`, keeps the root app dir when src/app was chosen, and writes no file |
| NextseverText.RouterConflictRenamesOnly | scripts/nextsever.js:54-69 | a conflict moves the chosen entry, directory, text or JSON file, to its disabled name; every other directory, text and JSON file is unchanged and nothing is written |
| NextseverText.PostcssIdempotent | scripts/nextsever.js:71-86 | the config written names the plugin, so a second run changes nothing |
| NextseverText.GlobalsCssOutcomes | scripts/nextsever.js:88-106 | blank file gets the base; a file without `@tailwind base` gets the base prepended and still ends with the old text; otherwise untouched; afterwards the directive is always present |
| NextseverText.GlobalsCssIdempotent | scripts/nextsever.js:88-106 | a second run changes nothing |
| NextseverText.PatchContent | scripts/nextsever.js:175-178 | the forEach loop yields the two-glob patch function and `changed` is true iff some glob was missing |
| NextseverText.PatchTwoGlobs | scripts/nextsever.js:176-178 | the loop patches the pages glob and then the src glob, and flags a change iff either is missing from the text it sees |
| NextseverText.TailwindMissingIff | scripts/nextsever.js:176-179 | a change is flagged iff one of the two globs is absent from the original file |
| NextseverText.PatchOneInserts | scripts/nextsever.js:177 | with the `content: [` anchor present, a patched glob is present afterwards and the anchor survives |
| NextseverText.TailwindComplete | scripts/nextsever.js:171-178 | with the anchor present, both globs are present after the rule |
| NextseverText.TailwindIdempotent | scripts/nextsever.js:167-181 | with the anchor present, a second run changes nothing |
| NextseverText.TailwindNoAnchorRewrites | scripts/nextsever.js:175-179 | without the anchor either missing glob still sets `changed`, so the file is rewritten unchanged on every run |
| NextseverText.AppendedIsDefaultExport | scripts/nextsever.js:237-238 | the appended text matches `export\s+default\s+OracleGlobe` |
| NextseverText.DefaultExportAppends | scripts/nextsever.js:224-244 | the file changes only if it exists, lacks a default export and defines OracleGlobe; then the new text is the old text, a `\n` when it did not end with one, and the export line; so the old text is a prefix and the export line ends it |
| NextseverText.DefaultExportIdempotent | scripts/nextsever.js:224-244 | a second run changes nothing |
| NextseverJson.UniqueMembers | scripts/nextsever.js:117 | `new Set` keeps every element, adds none, and leaves no primitive twice |
| NextseverJson.UniqueOfDistinct | scripts/nextsever.js:117 | a list without repeated primitives passes through the Set unchanged |
| NextseverJson.UniquePrefix | scripts/nextsever.js:117 | appending elements keeps the deduplicated prefix in its order |
| NextseverJson.UniqueAbsorbs | scripts/nextsever.js:117 | appending primitives already present changes nothing |
| NextseverJson.TsconfigFailsIff | scripts/nextsever.js:110-117 | the rule fails exactly when compilerOptions is a truthy non-object or include is a truthy value that cannot be spread |
| NextseverJson.TsconfigInclude | scripts/nextsever.js:117 | include becomes an array holding the four required globs, no repeated primitive, and the old entries deduplicated first, in order |
| NextseverJson.TsconfigCompilerOptions | scripts/nextsever.js:111-116 | baseUrl and paths keep truthy values and otherwise get "." and `{"@/*": ["src/*"]}`; esModuleInterop and skipLibCheck become true; every other option and top-level key is kept |
| NextseverJson.CompilerOptionsIdempotent | scripts/nextsever.js:113-116 | the compilerOptions update is idempotent |
| NextseverJson.TsconfigIdempotent | scripts/nextsever.js:108-120 | running the rule on its own output gives the same object |
| NextseverJson.PkgScriptsAt | scripts/nextsever.js:125-133 | the four standard scripts keep truthy values or get their defaults; the four nextsever scripts are always overwritten; every other script is kept |
| NextseverJson.PkgEnginesNode | scripts/nextsever.js:134-135 | engines.node keeps a truthy value or becomes `>=18.18.0 <23` |
| NextseverJson.PkgEnginesOthers | scripts/nextsever.js:134-135 | every engines entry other than `node` is kept as it is, and no other entry is added |
| NextseverJson.PkgKeepsOtherKeys | scripts/nextsever.js:122-136 | every top-level key of package.json other than `scripts` and `engines` is kept with its value, and no other key is added |
| NextseverJson.ScriptsIdempotent | scripts/nextsever.js:125-133 | the scripts update is idempotent |
| NextseverJson.PkgScriptsIdempotent | scripts/nextsever.js:122-138 | running the rule on its own output gives the same object |
| NextseverJson.FillMissing | scripts/nextsever.js:272-273 | the loop result is the fill-defaults function, and `changed` is true iff some key was missing or falsy |
| NextseverJson.DepsLoop | scripts/nextsever.js:246-273 | the two loops compute the dependency fix function |
| NextseverJson.DepsAt | scripts/nextsever.js:251-272 | each needed dependency keeps a truthy version or gets the pinned one; other entries are kept and none is added beyond the list |
| NextseverJson.DepsKeepsOtherKeys | scripts/nextsever.js:246-273 | every top-level key of package.json other than `dependencies` and `devDependencies` is kept with its value, and no other key is added |
| NextseverJson.FillChangesIffMissing | scripts/nextsever.js:271-273 | a fill changes the object iff some key was missing or falsy |
| NextseverJson.DepsChangedIff | scripts/nextsever.js:271-274 | `changed` is true iff either dependency map actually changes |
| NextseverJson.EnsureDepsWritesIff | scripts/nextsever.js:274-281 | package.json is written, and npm install runs when asked, iff something changed; otherwise the project is untouched |
| NextseverJson.DepsIdempotent | scripts/nextsever.js:246-282 | a second run reports no change |
| Json.OrTruthy | scripts/nextsever.js:126-129 | `o.k \|\| d` is the stored value or the default, and is truthy exactly when the stored value or the default is |
| Json.ObjectField | scripts/nextsever.js:111 | `o.k = o.k \|\| {}` throws exactly when the value is truthy and not an object; otherwise the fields read back are the stored object's, or none when it was absent or falsy |
| Json.FillDefaultsAt | scripts/nextsever.js:126-129 | each listed key keeps a truthy value or gets its default; other keys are kept |
| Json.FillDefaultsNoop | scripts/nextsever.js:126-129 | when every listed key is truthy nothing changes |
| Json.FillDefaultsEstablishes | scripts/nextsever.js:126-129 | after filling, every listed key is truthy |
| Json.AssignAllAt | scripts/nextsever.js:130-133 | each assigned key holds its value; other keys are kept |
| Json.AssignAllNoop | scripts/nextsever.js:130-133 | assigning values already present changes nothing |
| Text.IndexOf | scripts/nextsever.js:197 | -1 iff the text does not occur, otherwise its first occurrence |
| Text.ReplaceKeepsAnchor | scripts/nextsever.js:177 | replacing the anchor by anchor+extra inserts extra right after its first occurrence |
| Text.InsertAfterAnchorKeeps | scripts/nextsever.js:177 | such an insertion keeps every text that cannot straddle the anchor's end |
| Text.SkipSpaces | scripts/fix-rsui32.js:32 | `\s*` consumes a blank prefix and stops at a non-space or the end |
| Text.SkipSpacesPrefix | scripts/fix-rsui32.js:32 | white space followed by a non-space is consumed exactly |
| Nextsever.EnsureFixRouterFile | scripts/nextsever.js:140-165 | an existing file is left alone; otherwise the script is written |
| Nextsever.RsuiImportRewritten | scripts/nextsever.js:189-192 | the first named OracleGlobe import is replaced in place by the default import |
| Nextsever.HelperAt | scripts/nextsever.js:196-199 | there is an insertion point exactly when the file imports from recharts in either quote style; it lies within the file and, unless it is 0, just after a line break |
| Nextsever.HelperAtLineEnd | scripts/nextsever.js:197-205 | the insertion point is one past the first line break after the anchored recharts import |
| Nextsever.InjectPieHelperIdempotent | scripts/nextsever.js:195-209 | after injection the renderer's name is present, so it is injected at most once |
| Nextsever.InjectPieHelperPlace | scripts/nextsever.js:195-206 | with the marker present or no recharts import the text is unchanged; otherwise the renderer follows the first line break after the import (`from "recharts"` looked for before `from 'recharts'`), with no line break in between, or goes at the top of the file when no line break follows |
| Nextsever.MainWithoutCommand | scripts/nextsever.js:327-335 | without a command flag nothing is written or launched and usage is printed |
| Nextsever.MainFixesBeforeLaunch | scripts/nextsever.js:293-305 | a launch flag also turns the fixes on; a package.json that makes the first step throw stops `main` with the disk untouched, and otherwise the disk `main` leaves, finished or stopped by a later throw, has package.json as its first new write |
| Nextsever.RunFixesKeepsWrites | scripts/nextsever.js:294-304 | after package.json is written no step removes an entry from the write log, including when a later step throws |
| Nextsever.PackageJsonWrittenFirst | scripts/nextsever.js:294-304 | once package.json is accepted, the disk the fix steps leave, finished or stopped by a later throw, starts its new writes with package.json |
| FixRsui32.ReplaceChars | scripts/fix-rsui32.js:11-22 | a global character-class replace keeps the length and changes exactly the listed characters |
| FixRsui32.ChainIsTable | scripts/fix-rsui32.js:11-22 | the eleven replacements in order act on one character as the full-width to ASCII table |
| FixRsui32.NormalizePointwise | scripts/fix-rsui32.js:11-22 | the length is kept and output position i is the table image of input position i |
| FixRsui32.NormalizeClears | scripts/fix-rsui32.js:11-22 | none of the thirteen listed characters remains |
| FixRsui32.NormalizeKeepsOthers | scripts/fix-rsui32.js:11-22 | characters outside the list are unchanged |
| FixRsui32.NormalizeIdempotent | scripts/fix-rsui32.js:11-22 | normalising twice equals normalising once |
| FixRsui32.MatchSpelling | scripts/fix-rsui32.js:32 | any text made of one spelling of each token of a greedy pattern matches in full |
| FixRsui32.ImportAnySpelling | scripts/fix-rsui32.js:32 | the import pattern matches with any white space, either quote on each side, and with or without `;` |
| FixRsui32.RewriteCopiesPrefix | scripts/fix-rsui32.js:30-34 | text before the first match is copied unchanged |
| FixRsui32.RewriteFirstMatch | scripts/fix-rsui32.js:30-34 | the first match becomes the replacement and the scan resumes after it |
| FixRsui32.RewriteSplits | scripts/fix-rsui32.js:30-34 | a match after a match-free prefix is replaced and the rest is rewritten |
| FixRsui32.RewriteNoMatch | scripts/fix-rsui32.js:30-34 | a text without a match is unchanged |
| FixRsui32.ImportRewritten | scripts/fix-rsui32.js:30-34 | every spelling of the named import, at its first match, becomes `import OracleGlobe from "./OracleGlobe";` |
| FixRsui32.RewriteKeepsAscii | scripts/fix-rsui32.js:30-34 | the import rewrite brings no full-width punctuation back |
| FixRsui32.FixRsui32 | scripts/fix-rsui32.js:4-37 | a missing component means nothing is written; otherwise the file is written exactly once |
| FixRsui32.FixRsui32Ascii | scripts/fix-rsui32.js:11-37 | with the label step as identity, the file written back has no full-width punctuation |
| FixRouter.RmAllRemovesExactly | scripts/fix-router.js:11-32 | deleting the candidates one by one removes exactly those that are regular files the system lets go, whatever fails in between |
| FixRouter.Workspace.Rm | scripts/fix-router.js:20-32 | rm deletes an existing regular file; directories, missing paths and failures leave the tree as it was |
| FixRouter.Workspace.RmdirIfEmpty | scripts/fix-router.js:34-50 | the directory is removed iff it has no entries; a lone `api`, other entries, a missing path and a failure each leave it |
| FixRouter.Workspace.Run | scripts/fix-router.js:52-68 | the loop over the six candidates and the rmdir compute the script's specification |
| FixRouter.NoAppNoChange | scripts/fix-router.js:55-59 | without app nothing is touched |
| FixRouter.NoPagesNoChange | scripts/fix-router.js:61-65 | without pages neither deletion nor rmdir happens |
| FixRouter.OnlyCandidatesRemoved | scripts/fix-router.js:61-65 | nothing is added or altered, and only removable candidates and pages itself can disappear |
| FixRouter.CandidateRemovedIff | scripts/fix-router.js:20-32 | a present candidate disappears iff it is a regular file whose deletion does not fail |
| FixRouter.PagesRemovedIff | scripts/fix-router.js:34-46 | a readable pages dir is removed iff every entry in it was a removable candidate |
| FixRouter.ApiKept | scripts/fix-router.js:38-43 | pages/api and therefore pages survive |
| FixRouter.RmdirKeepsWellFormed | scripts/fix-router.js:34-41 | removing only an empty directory leaves no orphaned entry |
| FixRouter.KeepsWellFormed | scripts/fix-router.js:52-68 | the cleaned tree is still a well-formed tree |
| Rsui32.Usd | src/components/RSUI32.tsx:267 | usd is the amount times the BNB price for BNB and the amount itself for USDT; NaN stays NaN |
| Rsui32.Rst | src/components/RSUI32.tsx:268 | rst is the floor of usd times 500, within one token below it |
| Rsui32.RstMonotone | src/components/RSUI32.tsx:267-268 | with a non-negative price the estimate never decreases as the amount grows |
| Rsui32.Quicks | src/components/RSUI32.tsx:269 | three increasing quick amounts, one, five and ten units, where a unit is 1 for BNB and 100 for USDT |
| Rsui32.EmptyAmountEstimate | src/components/RSUI32.tsx:267-268 | an empty amount field shows an estimate of 0 for either asset and any price; the estimate is NaN exactly when a non-empty text reads as NaN |
| Rsui32.NextStep | src/components/RSUI32.tsx:271-281 | next moves 0 to 1 to 2 and stays at 2 |
| Rsui32.StepLabel | src/components/RSUI32.tsx:334-352 | the button label is the step bar's name of the current step |
| Rsui32.HighlightedPrefix | src/components/RSUI32.tsx:339-343 | stage k is lit iff k is at most the step, so lit stages form a prefix |
| Rsui32.StepSaturates | src/components/RSUI32.tsx:271-281 | after n presses from the start the step is min(n, 2) |
| Rsui32.ToastSequence | src/components/RSUI32.tsx:271-281 | press 0 toasts the Approve text, press 1 the Contribute text, every later press the Claim text |
| Rsui32.ScrollProgress | src/components/RSUI32.tsx:172-175 | 0 when there is nothing to scroll, otherwise scrolled/height |
| Rsui32.ScrollProgressBounds | src/components/RSUI32.tsx:172-175 | within the scrollable range the progress is between 0 and 1 |
| Rsui32.WithoutId | src/components/RSUI32.tsx:205 | the filter keeps exactly the toasts of other ids |
| Rsui32.WithoutIdConcat | src/components/RSUI32.tsx:205 | the filter works piece by piece, so kept toasts stay in order |
| Rsui32.WithoutIdNoop | src/components/RSUI32.tsx:205 | a list without that id is unchanged |
| Rsui32.PushThenExpire | src/components/RSUI32.tsx:202-205 | pushing a toast with a fresh id and expiring it restores the list |
| Rsui32.ToastList.Push | src/components/RSUI32.tsx:204 | push appends at the end |
| Rsui32.ToastList.Expire | src/components/RSUI32.tsx:205 | the timer removes exactly the toasts of that id |
| Rsui32.SalePanel.constructor | src/components/RSUI32.tsx:246-249 | the panel starts at BNB, amount 1, price 560, step 0 |
| Rsui32.SalePanel.Next | src/components/RSUI32.tsx:271-281 | one toast chosen by the old step is pushed and the step moves on; nothing else changes |
| Rsui32.SalePanel.SelectAsset | src/components/RSUI32.tsx:292-305 | the asset buttons change only the asset |
| Rsui32.SalePanel.PickQuick | src/components/RSUI32.tsx:310-314 | a quick button sets the amount to that asset's quick value |
| Rsui32.SalePanel.EnterAmount | src/components/RSUI32.tsx:319-321 | the field sets the amount as parsed |
| Rsui32.SalePanel.PriceFetched | src/components/RSUI32.tsx:252-262 | a parsed price replaces the old one; NaN or a failed fetch keeps it |
| OracleGlobe.Meridians | src/components/OracleGlobe.tsx:49-54 | 12 meridians of 33 points; point j of meridian i is at latitude -80+5j, longitude -150+30i |
| OracleGlobe.Parallels | src/components/OracleGlobe.tsx:55-60 | 7 parallels of 73 points; point j of parallel i is at latitude -60+20i, longitude -180+5j |
| OracleGlobe.LinksFormRing | src/components/OracleGlobe.tsx:62-82 | six nodes and six links i to (i+1) mod 6, and every node starts one link and ends one |
| OracleGlobe.Dt | src/components/OracleGlobe.tsx:169 | dt is the smaller of 0.05 and the elapsed seconds, and is not negative when the clock runs forward |
| OracleGlobe.AdvanceStaysInUnit | src/components/OracleGlobe.tsx:185-188 | a phase in [0,1] stays in [0,1] for 0 <= dt <= 0.05 |
| OracleGlobe.AdvanceReachesOne | src/components/OracleGlobe.tsx:186-187 | the phase can land on exactly 1, since it wraps only above 1 |
| OracleGlobe.AdvanceAll | src/components/OracleGlobe.tsx:185-188 | every link's phase advances independently |
| OracleGlobe.AdvanceAllStaysInUnit | src/components/OracleGlobe.tsx:185-188 | all phases stay in [0,1] |
| OracleGlobe.FramePhasesInUnit | src/components/OracleGlobe.tsx:169-188 | frames keep every phase in [0,1] while the clock does not run backwards |
| OracleGlobe.EasePitchContracts | src/components/OracleGlobe.tsx:172 | the pitch closes 8% of its distance to the pointer each frame |
| OracleGlobe.PitchDriftsAtRest | src/components/OracleGlobe.tsx:172 | with the pointer centred the initial pitch -0.1 moves to -0.092 |
| OracleGlobe.YawFixedAtRest | src/components/OracleGlobe.tsx:171-173 | with speed 0 and the pointer centred the yaw does not change |
| OracleGlobe.PointerOffsetBounds | src/components/OracleGlobe.tsx:86-90 | over the canvas the pointer offset is within [-0.3, 0.3] |
| OracleGlobe.NodeCullingStricter | src/components/OracleGlobe.tsx:136-151 | a node drawn by drawNode (z >= -0.15) also survives line culling (z >= -0.2), but not conversely |
| OracleGlobe.Survivors | src/components/OracleGlobe.tsx:136-138 | the surviving points are exactly those with z >= -0.2, in increasing order |
| OracleGlobe.LineStrip | src/components/OracleGlobe.tsx:125-147 | the path starts with moveTo at the first survivor and joins every later survivor with lineTo, bridging culled runs |
| OracleGlobe.PixelRatio | src/components/OracleGlobe.tsx:23 | dpr is the device ratio up to 2, is 2 above it, and a zero ratio reads as 1 |
| OracleGlobe.Radius | src/components/OracleGlobe.tsx:33 | R is 0.38 times the smaller of width and height |
| OracleGlobe.Globe.constructor | src/components/OracleGlobe.tsx:23-104 | the initial sizes, centre, geometry, random phases, angles (0, -0.1) and clock |
| OracleGlobe.Globe.Frame | src/components/OracleGlobe.tsx:165-189 | off screen nothing changes; otherwise last, rotY, rotX and every phase move by their update rules and nothing else changes |
| OracleGlobe.Globe.OnResize | src/components/OracleGlobe.tsx:192-197 | width, backing width and R follow the new width; the rest is untouched |
| OracleGlobe.Globe.OnMove | src/components/OracleGlobe.tsx:86-90 | the pointer offsets are set from the position fractions |
| OracleGlobe.Globe.SetVisible | src/components/OracleGlobe.tsx:93-99 | frames run only while the globe is visible |

## Left out

- Parsing and serialising JSON, and the order of keys, are not modelled. A
  JSON file is held parsed, and a file `JSON.parse` rejects is `Malformed`.
- The model gives an error for a JSON array in the place of an object.
  JavaScript would silently drop the keys written to it.
- `String.replace` with a string pattern ignores `$` replacement patterns.
  None of the replacement texts contains a `$`.
- `fs.renameSync` is modelled on the directory set only. Files below a
  renamed directory are not moved.
- A directory read as text is not modelled.
- `mkdirSync` in `write` is not modelled. Parent directories are not
  tracked for text files.
- `findOpenPort`, `spawnSync` (npm and next) and `Number` on a port argument
  are left out. These are network, processes and number parsing. The launch
  plan records what would run.
- Nextsever.EnsureRsuiImports: the regular-expression rewrite of the Recharts
  Pie label, and its `labelLine` insertion, are a parameter. They depend on
  the JavaScript regular-expression engine.
- FixRsui32.FixRsui32: the Recharts label regular expression is a parameter,
  for the same reason.
- Nextsever.EnsureFixRouterFile: the generated script's text is a
  parameter, and its behaviour is not modelled.
- `Date.now()` and `Math.random()` are parameters. These are the suffix of a
  disabled app directory, the toast ids and the initial link phases.
- Logging, `console` output and `process.exit` are not modelled.
- OracleGlobe.LineStrip: the rotation and projection are trigonometry and
  floating point. The model takes each point's rotated depth as input and
  states which points are joined, not where they are drawn.
- OracleGlobe.Globe.Frame: `requestAnimationFrame` rescheduling and all
  canvas drawing are left out. Only the state changes are stated.
- `latLonToXYZ`, `rotate`, `proj` and the node coordinates on the sphere are
  left out. Graticule points and nodes are kept as latitude and longitude.
- Floating point is modelled as exact reals. Rounding in
  `rotY += speed*dt` followed by `rotY += mx*0.01` is not modelled, and
  neither are infinities.
- Rsui32.Rst: the number formatting of `toLocaleString` is not modelled.
- Rsui32.AmountFromInput: JavaScript `Number` parsing is a parameter.
- When a fix step throws, `main`'s promise is rejected and nothing is
  launched. The model stops with the disk as the earlier steps left it; the
  unhandled-rejection report is not modelled.
- FixRouter.Workspace.RmdirIfEmpty: the directory listing is a set. The
  order `readdirSync` returns, which only affects the log text, is not
  kept.
- `useScrollReveal`, `useTilt`, the clipboard button, the price fetch
  itself (its outcome is a parameter), the UI primitives, the layout and
  `StarfieldCanvas` are not part of this model.
- Strings are sequences of code points, not UTF-16 units. All the texts the
  rules compare are in the Basic Multilingual Plane.
- Four behaviours of `OracleGlobe.tsx` that a reader might not expect are
  modelled as the code has them:
  - OracleGlobe.tsx:187 wraps a link phase only when it is above 1, so a
    phase can equal 1 (`AdvanceReachesOne`);
  - OracleGlobe.tsx:172 eases the pitch toward the pointer offset on every
    frame, so the initial pitch of -0.1 drifts toward 0 while the pointer
    rests at the centre (`PitchDriftsAtRest`);
  - OracleGlobe.tsx:136-143 skips a culled point and joins the next visible
    point to the previous one with `lineTo`, so a strip is never split;
  - OracleGlobe.tsx:192-197 recomputes the width and `R` on resize but not
    the centre `cx`/`cy`, fixed at OracleGlobe.tsx:34-35.
