/** The project directory as the fix scripts see it: text files, JSON files
    (held parsed), directories, and the list of paths written so far. */
module Disk {
  import opened Json
  import opened Wrappers

  /** A JSON file: parsed, or text that `JSON.parse` rejects. */
  datatype Doc = Parsed(value: Json) | Malformed

  datatype Disk = Disk(
    texts: map<string, string>,
    docs: map<string, Doc>,
    dirs: set<string>,
    writes: seq<string>)
  {
    /** `fs.accessSync(p)` succeeds. */
    predicate Exists(p: string) {
      p in texts || p in docs || p in dirs
    }

    /** `read(p)`: the file's text, or "" when it does not exist. */
    function Read(p: string): string {
      if p in texts then texts[p] else ""
    }

    /** `write(p, s)`: the file now holds `s`, and the write is recorded. */
    function Write(p: string, s: string): (d: Disk)
      ensures d.texts == texts[p := s] && d.docs == docs && d.dirs == dirs
      ensures d.writes == writes + [p]
    {
      this.(texts := texts[p := s], writes := writes + [p])
    }

    /** `jsonRead(p)` used as an object: a missing or malformed file reads as
        `{}`; a top level that is not an object makes the first property
        write throw. */
    function JsonRead(p: string): (r: Result<map<string, Json>, JsError>)
      ensures p !in docs || docs[p].Malformed? ==> r == Ok(map[])
    {
      if p !in docs then Ok(map[])
      else match docs[p]
        case Malformed => Ok(map[])
        case Parsed(Obj(fields)) => Ok(fields)
        case Parsed(_) => Err(NotAnObject(""))
    }

    /** `jsonWrite(p, obj)`. */
    function JsonWrite(p: string, o: map<string, Json>): (d: Disk)
      ensures d.docs == docs[p := Parsed(Obj(o))] && d.texts == texts && d.dirs == dirs
      ensures d.writes == writes + [p]
    {
      this.(docs := docs[p := Parsed(Obj(o))], writes := writes + [p])
    }
  }
}
