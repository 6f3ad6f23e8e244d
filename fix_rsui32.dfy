/** The stand-alone repair of `src/components/RSUI32.tsx`: full-width
    punctuation becomes ASCII, the Recharts label rewrite runs, and the named
    import of `OracleGlobe` becomes a default import. */
module FixRsui32 {
  import opened Wrappers
  import opened Text
  import opened Disk

  const RsuiFile := "src/components/RSUI32.tsx"

  /** `s.replace(/[…]/g, to)`: every character of `from` becomes `to`. */
  function ReplaceChars(s: string, from: set<char>, to: char): (r: string)
    ensures |r| == |s|
    ensures forall i :: 0 <= i < |s| ==> r[i] == (if s[i] in from then to else s[i])
  {
    if s == [] then []
    else [if s[0] in from then to else s[0]] + ReplaceChars(s[1..], from, to)
  }

  /** The chain of eleven global replacements, in the script's order. */
  function Normalize(s: string): string {
    var s1 := ReplaceChars(s, {'\U{201C}', '\U{201D}'}, '"');
    var s2 := ReplaceChars(s1, {'\U{2018}', '\U{2019}'}, '\'');
    var s3 := ReplaceChars(s2, {'\U{FF0C}'}, ',');
    var s4 := ReplaceChars(s3, {'\U{FF1B}'}, ';');
    var s5 := ReplaceChars(s4, {'\U{FF1A}'}, ':');
    var s6 := ReplaceChars(s5, {'\U{FF08}'}, '(');
    var s7 := ReplaceChars(s6, {'\U{FF09}'}, ')');
    var s8 := ReplaceChars(s7, {'\U{3010}'}, '[');
    var s9 := ReplaceChars(s8, {'\U{3011}'}, ']');
    var s10 := ReplaceChars(s9, {'\U{3002}'}, '.');
    ReplaceChars(s10, {'\U{00A0}'}, ' ')
  }

  /** The thirteen characters the chain removes. */
  const FullWidth: set<char> := {
    '\U{201C}', '\U{201D}', '\U{2018}', '\U{2019}', '\U{FF0C}', '\U{FF1B}',
    '\U{FF1A}', '\U{FF08}', '\U{FF09}', '\U{3010}', '\U{3011}', '\U{3002}', '\U{00A0}'}

  /** The ASCII character each full-width character stands for, as a table. */
  function AsciiOf(c: char): char {
    match c
    case '\U{201C}' => '"'
    case '\U{201D}' => '"'
    case '\U{2018}' => '\''
    case '\U{2019}' => '\''
    case '\U{FF0C}' => ','
    case '\U{FF1B}' => ';'
    case '\U{FF1A}' => ':'
    case '\U{FF08}' => '('
    case '\U{FF09}' => ')'
    case '\U{3010}' => '['
    case '\U{3011}' => ']'
    case '\U{3002}' => '.'
    case '\U{00A0}' => ' '
    case _ => c
  }

  /** One replacement applied to one character. */
  function Swap(c: char, from: set<char>, to: char): char {
    if c in from then to else c
  }

  /** The chain applied to one character. */
  function ChainOf(c: char): char {
    var c1 := Swap(c, {'\U{201C}', '\U{201D}'}, '"');
    var c2 := Swap(c1, {'\U{2018}', '\U{2019}'}, '\'');
    var c3 := Swap(c2, {'\U{FF0C}'}, ',');
    var c4 := Swap(c3, {'\U{FF1B}'}, ';');
    var c5 := Swap(c4, {'\U{FF1A}'}, ':');
    var c6 := Swap(c5, {'\U{FF08}'}, '(');
    var c7 := Swap(c6, {'\U{FF09}'}, ')');
    var c8 := Swap(c7, {'\U{3010}'}, '[');
    var c9 := Swap(c8, {'\U{3011}'}, ']');
    var c10 := Swap(c9, {'\U{3002}'}, '.');
    Swap(c10, {'\U{00A0}'}, ' ')
  }

  lemma NormalizeLength(s: string)
    ensures |Normalize(s)| == |s|
  {
  }

  lemma NormalizeAt(s: string, i: int)
    requires 0 <= i < |s|
    ensures |Normalize(s)| == |s| && Normalize(s)[i] == ChainOf(s[i])
  {
  }

  /** Running the chain on one character gives the table's answer: no
      replacement produces a character a later one would change again. */
  lemma ChainIsTable(c: char)
    ensures ChainOf(c) == AsciiOf(c)
  {
  }

  /** The chain works character by character: the length is kept and
      position i of the output is the table image of position i of the input. */
  lemma NormalizePointwise(s: string)
    ensures |Normalize(s)| == |s|
    ensures forall i :: 0 <= i < |s| ==> Normalize(s)[i] == AsciiOf(s[i])
  {
    NormalizeLength(s);
    forall i | 0 <= i < |s|
      ensures Normalize(s)[i] == AsciiOf(s[i])
    {
      NormalizeAt(s, i);
      ChainIsTable(s[i]);
    }
  }

  /** The table sends every character outside the listed set. */
  lemma AsciiOfClear(c: char)
    ensures AsciiOf(c) !in FullWidth
  {
  }

  /** No listed character survives normalisation. */
  lemma NormalizeClears(s: string)
    ensures forall i :: 0 <= i < |Normalize(s)| ==> Normalize(s)[i] !in FullWidth
  {
    NormalizeLength(s);
    forall i | 0 <= i < |Normalize(s)|
      ensures Normalize(s)[i] !in FullWidth
    {
      NormalizeAt(s, i);
      ChainIsTable(s[i]);
      AsciiOfClear(s[i]);
    }
  }

  /** Characters outside the listed set are left as they are. */
  lemma NormalizeKeepsOthers(s: string)
    ensures forall i :: 0 <= i < |s| && s[i] !in FullWidth ==> Normalize(s)[i] == s[i]
  {
    NormalizePointwise(s);
  }

  /** Normalising twice is normalising once. */
  lemma NormalizeIdempotent(s: string)
    ensures Normalize(Normalize(s)) == Normalize(s)
  {
    NormalizePointwise(s);
    NormalizePointwise(Normalize(s));
  }

  /** The pieces of the import regular expression
      `import\s*\{\s*OracleGlobe\s*\}\s*from\s*["']\.\/OracleGlobe["'];?`. */
  datatype Token = Word(w: string) | Spaces | Quote | OptionalSemicolon

  const ImportPattern: seq<Token> := [
    Word("import"), Spaces, Word("{"), Spaces, Word("OracleGlobe"), Spaces, Word("}"),
    Spaces, Word("from"), Spaces, Quote, Word("./OracleGlobe"), Quote, OptionalSemicolon]

  const DefaultImport := "import OracleGlobe" + " from " + "\"./OracleGlobe\";"

  function AddLen(n: nat, m: Option<nat>): Option<nat> {
    match m
    case None => None
    case Some(k) => Some(n + k)
  }

  /** The length of the match of `p` at the start of `t`. Each `\s*` is taken
      greedily; that is the regular expression's answer because in the import
      pattern every `\s*` is followed by a non-space and `;?` comes last. */
  function MatchLen(t: string, p: seq<Token>): (r: Option<nat>)
    ensures r.Some? ==> r.value <= |t|
    decreases |p|
  {
    if p == [] then Some(0)
    else match p[0]
      case Word(w) =>
        if StartsWith(t, w) then AddLen(|w|, MatchLen(t[|w|..], p[1..])) else None
      case Spaces =>
        var rest := SkipSpaces(t);
        AddLen(|t| - |rest|, MatchLen(rest, p[1..]))
      case Quote =>
        if t != [] && (t[0] == '"' || t[0] == '\'') then AddLen(1, MatchLen(t[1..], p[1..])) else None
      case OptionalSemicolon =>
        if t != [] && t[0] == ';' then AddLen(1, MatchLen(t[1..], p[1..])) else MatchLen(t, p[1..])
  }

  /** A pattern that begins with a non-empty word, so that a match is never empty. */
  predicate Anchored(p: seq<Token>) {
    p != [] && p[0].Word? && p[0].w != []
  }

  /** The match of an anchored pattern at the start of `t`, and its length. */
  function Match(t: string, p: seq<Token>): (r: Option<nat>)
    requires Anchored(p)
    ensures r.Some? ==> 0 < r.value <= |t|
  {
    MatchLen(t, p)
  }

  /** The global replace: scanning left to right, each match becomes
      `repl` and the scan resumes after it. */
  function Rewrite(t: string, p: seq<Token>, repl: string): string
    requires Anchored(p)
    decreases |t|
  {
    if t == [] then []
    else match Match(t, p)
      case Some(n) => repl + Rewrite(t[n..], p, repl)
      case None => [t[0]] + Rewrite(t[1..], p, repl)
  }

  /** No match starts before position `i`. */
  predicate NoMatchBefore(t: string, p: seq<Token>, i: int)
    requires Anchored(p) && i <= |t|
  {
    forall j :: 0 <= j < i ==> Match(t[j..], p).None?
  }

  /** Text before the first match is copied unchanged. */
  lemma {:induction false} RewriteCopiesPrefix(t: string, p: seq<Token>, repl: string, i: nat)
    requires Anchored(p) && i <= |t| && NoMatchBefore(t, p, i)
    ensures Rewrite(t, p, repl) == t[..i] + Rewrite(t[i..], p, repl)
  {
    if i > 0 {
      assert Match(t[0..], p).None?;
      assert t[0..] == t;
      forall j | 0 <= j < i - 1
        ensures Match(t[1..][j..], p).None?
      {
        assert t[1..][j..] == t[j + 1..];
      }
      RewriteCopiesPrefix(t[1..], p, repl, i - 1);
      assert t[1..][i - 1..] == t[i..];
      assert t[..i] == [t[0]] + t[1..][..i - 1];
    }
  }

  /** The first match is replaced. */
  lemma RewriteFirstMatch(t: string, p: seq<Token>, repl: string, i: nat, n: nat)
    requires Anchored(p) && i <= |t| && NoMatchBefore(t, p, i)
    requires Match(t[i..], p) == Some(n)
    ensures i + n <= |t|
    ensures Rewrite(t, p, repl) == t[..i] + repl + Rewrite(t[i + n..], p, repl)
  {
    RewriteCopiesPrefix(t, p, repl, i);
    assert t[i..][n..] == t[i + n..];
  }

  /** A match right after a match-free prefix is replaced. */
  lemma RewriteSplits(before: string, named: string, after: string, p: seq<Token>, repl: string)
    requires Anchored(p) && NoMatchBefore(before + named + after, p, |before|)
    requires Match(named + after, p) == Some(|named|)
    ensures Rewrite(before + named + after, p, repl) == before + repl + Rewrite(after, p, repl)
  {
    var t := before + named + after;
    assert t[|before|..] == named + after;
    RewriteFirstMatch(t, p, repl, |before|, |named|);
    assert t[..|before|] == before;
    assert t[|before| + |named|..] == after;
  }

  /** A text in which the pattern never matches is left as it is. */
  lemma RewriteNoMatch(t: string, p: seq<Token>, repl: string)
    requires Anchored(p) && NoMatchBefore(t, p, |t|)
    ensures Rewrite(t, p, repl) == t
  {
    RewriteCopiesPrefix(t, p, repl, |t|);
    assert t[..|t|] == t;
  }

  /** The import rewrite of the script. */
  function RewriteImports(t: string): string {
    ImportPatternGreedy();
    Rewrite(t, ImportPattern, DefaultImport)
  }

  // ----- every spelling of the import matches -----

  function Join(parts: seq<string>): string {
    if parts == [] then "" else parts[0] + Join(parts[1..])
  }

  /** `part` is one of the strings token `tok` stands for. */
  predicate Fits(tok: Token, part: string) {
    match tok
    case Word(w) => part == w
    case Spaces => IsBlank(part)
    case Quote => part == "\"" || part == "'"
    case OptionalSemicolon => part == "" || part == ";"
  }

  /** A token whose text cannot start with white space. */
  predicate Solid(tok: Token) {
    match tok
    case Word(w) => w != [] && !IsSpace(w[0])
    case Quote => true
    case _ => false
  }

  /** Every `\s*` is followed by a solid token and `;?` appears only last. */
  predicate Greedy(p: seq<Token>) {
    (forall k :: 0 <= k < |p| - 1 && p[k].Spaces? ==> Solid(p[k + 1]))
    && (forall k :: 0 <= k < |p| - 1 ==> !p[k].OptionalSemicolon?)
    && (p != [] ==> !p[|p| - 1].Spaces?)
  }

  lemma GreedyTail(p: seq<Token>)
    requires p != [] && Greedy(p)
    ensures Greedy(p[1..])
  {
    forall k | 0 <= k < |p| - 2 && p[1..][k].Spaces?
      ensures Solid(p[1..][k + 1])
    {
      assert p[1..][k] == p[k + 1] && p[1..][k + 1] == p[k + 2];
    }
  }

  lemma {:induction false} JoinSolid(p: seq<Token>, parts: seq<string>, rest: string)
    requires p != [] && |parts| == |p| && Solid(p[0]) && Fits(p[0], parts[0])
    ensures Join(parts) + rest != [] && !IsSpace((Join(parts) + rest)[0])
  {
    assert parts[0] != [] && !IsSpace(parts[0][0]);
    assert (Join(parts) + rest)[0] == parts[0][0];
  }

  lemma WordStep(w: string, u: string, p: seq<Token>)
    requires p != [] && p[0] == Word(w)
    ensures MatchLen(w + u, p) == AddLen(|w|, MatchLen(u, p[1..]))
  {
    assert (w + u)[..|w|] == w && (w + u)[|w|..] == u;
  }

  lemma SpacesStep(g: string, u: string, p: seq<Token>)
    requires p != [] && p[0].Spaces? && IsBlank(g) && (u == [] || !IsSpace(u[0]))
    ensures MatchLen(g + u, p) == AddLen(|g|, MatchLen(u, p[1..]))
  {
    SkipSpacesPrefix(g, u);
  }

  lemma QuoteStep(q: string, u: string, p: seq<Token>)
    requires p != [] && p[0].Quote? && (q == "\"" || q == "'")
    ensures MatchLen(q + u, p) == AddLen(1, MatchLen(u, p[1..]))
  {
    assert (q + u)[0] == q[0] && (q + u)[1..] == u;
  }

  lemma SemicolonStep(semi: string, rest: string, p: seq<Token>)
    requires p == [OptionalSemicolon] && (semi == ";" || (semi == "" && (rest == [] || rest[0] != ';')))
    ensures MatchLen(semi + rest, p) == Some(|semi|)
  {
    if semi == ";" {
      assert (semi + rest)[0] == ';' && (semi + rest)[1..] == rest;
    } else {
      assert semi + rest == rest;
    }
  }

  /** One spelling of each token. */
  predicate Spelled(p: seq<Token>, parts: seq<string>) {
    |parts| == |p| && forall k :: 0 <= k < |p| ==> Fits(p[k], parts[k])
  }

  /** A trailing empty `;?` is not followed by a semicolon. */
  predicate Ends(p: seq<Token>, parts: seq<string>, rest: string)
    requires Spelled(p, parts)
  {
    p != [] && p[|p| - 1].OptionalSemicolon? && parts[|p| - 1] == "" ==> rest == [] || rest[0] != ';'
  }

  lemma SpelledTail(p: seq<Token>, parts: seq<string>, rest: string)
    requires p != [] && Spelled(p, parts) && Ends(p, parts, rest)
    ensures Spelled(p[1..], parts[1..]) && Ends(p[1..], parts[1..], rest)
  {
    forall k | 0 <= k < |p| - 1
      ensures Fits(p[1..][k], parts[1..][k])
    {
      assert p[1..][k] == p[k + 1] && parts[1..][k] == parts[k + 1];
    }
  }

  lemma AppendAssoc(a: string, b: string, c: string)
    ensures (a + b) + c == a + (b + c)
  {
  }

  /** A text made of one spelling of each token, followed by anything that
      does not extend a trailing empty `;?`, matches the whole spelling. */
  lemma {:induction false} MatchSpelling(p: seq<Token>, parts: seq<string>, rest: string)
    requires Greedy(p) && Spelled(p, parts) && Ends(p, parts, rest)
    ensures MatchLen(Join(parts) + rest, p) == Some(|Join(parts)|)
    decreases |p|
  {
    if p != [] {
      GreedyTail(p);
      SpelledTail(p, parts, rest);
      MatchSpelling(p[1..], parts[1..], rest);
      HeadStep(p, parts, rest);
      JoinSplit(parts, rest);
    }
  }

  /** Splitting off the first part of a joined text. */
  lemma JoinSplit(parts: seq<string>, rest: string)
    requires parts != []
    ensures Join(parts) + rest == parts[0] + (Join(parts[1..]) + rest)
    ensures |Join(parts)| == |parts[0]| + |Join(parts[1..])|
  {
    AppendAssoc(parts[0], Join(parts[1..]), rest);
  }

  /** The first token's spelling is consumed exactly, whatever follows. */
  lemma HeadStep(p: seq<Token>, parts: seq<string>, rest: string)
    requires p != [] && Greedy(p) && Spelled(p, parts) && Ends(p, parts, rest)
    ensures MatchLen(parts[0] + (Join(parts[1..]) + rest), p)
              == AddLen(|parts[0]|, MatchLen(Join(parts[1..]) + rest, p[1..]))
  {
    var u := Join(parts[1..]) + rest;
    assert Fits(p[0], parts[0]);
    match p[0] {
      case Word(w) =>
        WordStep(w, u, p);
      case Spaces =>
        assert Solid(p[1]);
        JoinSolid(p[1..], parts[1..], rest);
        SpacesStep(parts[0], u, p);
      case Quote =>
        QuoteStep(parts[0], u, p);
      case OptionalSemicolon =>
        assert |p| == 1;
        assert p == [OptionalSemicolon];
        assert parts[1..] == [];
        SemicolonStep(parts[0], rest, p);
    }
  }

  /** The spelling with the given white space, quotes and optional semicolon. */
  function ImportSpelling(w1: string, w2: string, w3: string, w4: string, w5: string,
                          q1: char, q2: char, semi: string): seq<string>
  {
    ["import", w1, "{", w2, "OracleGlobe", w3, "}", w4, "from", w5, [q1], "./OracleGlobe", [q2], semi]
  }

  lemma ImportPatternGreedy()
    ensures Anchored(ImportPattern) && Greedy(ImportPattern)
  {
    var p := ImportPattern;
    forall k | 0 <= k < |p| - 1 && p[k].Spaces?
      ensures Solid(p[k + 1])
    {
      assert k in {1, 3, 5, 7, 9};
    }
  }

  /** Every spelling of the named import matches: any white space between
      the words, either quote on either side, with or without the semicolon. */
  lemma ImportAnySpelling(w1: string, w2: string, w3: string, w4: string, w5: string,
                          q1: char, q2: char, semi: string, rest: string)
    requires IsBlank(w1) && IsBlank(w2) && IsBlank(w3) && IsBlank(w4) && IsBlank(w5)
    requires q1 in {'"', '\''} && q2 in {'"', '\''}
    requires semi == ";" || (semi == "" && (rest == [] || rest[0] != ';'))
    ensures var s := Join(ImportSpelling(w1, w2, w3, w4, w5, q1, q2, semi));
            Anchored(ImportPattern) && Match(s + rest, ImportPattern) == Some(|s|)
  {
    var parts := ImportSpelling(w1, w2, w3, w4, w5, q1, q2, semi);
    ImportPatternGreedy();
    MatchSpelling(ImportPattern, parts, rest);
  }

  /** The first spelling of the named import in a text becomes the default
      import; the text before it is kept and the scan goes on after it. */
  lemma ImportRewritten(before: string, named: string, after: string,
                        w1: string, w2: string, w3: string, w4: string, w5: string,
                        q1: char, q2: char, semi: string)
    requires named == Join(ImportSpelling(w1, w2, w3, w4, w5, q1, q2, semi))
    requires IsBlank(w1) && IsBlank(w2) && IsBlank(w3) && IsBlank(w4) && IsBlank(w5)
    requires q1 in {'"', '\''} && q2 in {'"', '\''}
    requires semi == ";" || (semi == "" && (after == [] || after[0] != ';'))
    requires Anchored(ImportPattern) && NoMatchBefore(before + named + after, ImportPattern, |before|)
    ensures RewriteImports(before + named + after) == before + DefaultImport + RewriteImports(after)
  {
    ImportAnySpelling(w1, w2, w3, w4, w5, q1, q2, semi, after);
    RewriteSplits(before, named, after, ImportPattern, DefaultImport);
  }

  /** The script: nothing is written when the component is missing; otherwise
      the file is normalised, the Recharts label rewrite (`labels`, not part
      of this model) runs, the import is rewritten and the file is written
      back, changed or not. */
  function FixRsui32(d: Disk, labels: string -> string): (r: Disk)
    ensures !d.Exists(RsuiFile) ==> r == d
    ensures d.Exists(RsuiFile) ==> r.writes == d.writes + [RsuiFile]
  {
    if !d.Exists(RsuiFile) then d
    else d.Write(RsuiFile, RewriteImports(labels(Normalize(d.Read(RsuiFile)))))
  }

  predicate FreeOfFullWidth(s: string) {
    forall i :: 0 <= i < |s| ==> s[i] !in FullWidth
  }

  /** A rewrite whose replacement is free of full-width punctuation brings
      none back. */
  lemma {:induction false} RewriteKeepsAscii(t: string, p: seq<Token>, repl: string)
    requires Anchored(p) && FreeOfFullWidth(t) && FreeOfFullWidth(repl)
    ensures FreeOfFullWidth(Rewrite(t, p, repl))
    decreases |t|
  {
    if t != [] {
      match Match(t, p)
      case Some(n) =>
        RewriteKeepsAscii(t[n..], p, repl);
      case None =>
        RewriteKeepsAscii(t[1..], p, repl);
    }
  }

  /** With the label step doing nothing, the file written back is free of
      full-width punctuation. */
  lemma DefaultImportAscii()
    ensures FreeOfFullWidth(DefaultImport)
  {
    AsciiFree("import OracleGlobe");
    AsciiFree(" from ");
    AsciiFree("\"./OracleGlobe\";");
    FreeConcat("import OracleGlobe", " from ");
    FreeConcat("import OracleGlobe" + " from ", "\"./OracleGlobe\";");
  }

  /** Text below U+00A0 holds none of the full-width characters. */
  lemma AsciiFree(s: string)
    requires forall i :: 0 <= i < |s| ==> s[i] < '\U{00A0}'
    ensures FreeOfFullWidth(s)
  {
  }

  lemma FreeConcat(a: string, b: string)
    requires FreeOfFullWidth(a) && FreeOfFullWidth(b)
    ensures FreeOfFullWidth(a + b)
  {
    forall i | 0 <= i < |a + b| ensures (a + b)[i] !in FullWidth {
      if i >= |a| {
        assert (a + b)[i] == b[i - |a|];
      }
    }
  }

  lemma FixRsui32Ascii(d: Disk)
    requires d.Exists(RsuiFile)
    ensures FreeOfFullWidth(FixRsui32(d, s => s).texts[RsuiFile])
  {
    NormalizeClears(d.Read(RsuiFile));
    ImportPatternGreedy();
    DefaultImportAscii();
    RewriteKeepsAscii(Normalize(d.Read(RsuiFile)), ImportPattern, DefaultImport);
  }
}
