/** `getContentType`: the Content-Type header value a static file is served
    with, chosen by its extension (as `path.extname` returns it, dot included). */
module ContentType {

  /** The parameter every type the server sends ends with. */
  const CHARSET: string := "; charset=utf-8"

  /** The value sent for every extension not listed in `KNOWN`. */
  const DEFAULT: string := "text/plain" + CHARSET

  /** The extensions the server recognises and their media types. */
  const KNOWN: seq<(string, string)> := [
    (".html", "text/html" + CHARSET),
    (".js", "application/javascript" + CHARSET),
    (".css", "text/css" + CHARSET),
    (".json", "application/json" + CHARSET)
  ]

  /** Looks `ext` up in an extension table, falling back to `DEFAULT`. */
  function Lookup(table: seq<(string, string)>, ext: string): string {
    if table == [] then DEFAULT
    else if table[0].0 == ext then table[0].1
    else Lookup(table[1..], ext)
  }

  /** `s` ends with `suffix`. */
  predicate EndsWith(s: string, suffix: string) {
    |suffix| <= |s| && s[|s| - |suffix|..] == suffix
  }

  lemma EndsWithAppend(s: string, suffix: string)
    ensures EndsWith(s + suffix, suffix)
  {
    assert (s + suffix)[|s|..] == suffix;
  }

  /** The `switch` of `getContentType`. The match is exact and case-sensitive;
      every answer declares UTF-8. */
  function GetContentType(ext: string): (r: string)
    ensures r == Lookup(KNOWN, ext)
    ensures EndsWith(r, CHARSET)
    ensures r == DEFAULT <==> ext !in {".html", ".js", ".css", ".json"}
  {
    assert KNOWN[1..][1..] == KNOWN[2..] && KNOWN[2..][1..] == KNOWN[3..] && KNOWN[3..][1..] == [];
    match ext
    case ".html" => EndsWithAppend("text/html", CHARSET); "text/html" + CHARSET
    case ".js" => EndsWithAppend("application/javascript", CHARSET); "application/javascript" + CHARSET
    case ".css" =>
      assert Lookup(KNOWN[1..], ext) == Lookup(KNOWN[2..], ext) == KNOWN[2].1;
      EndsWithAppend("text/css", CHARSET); "text/css" + CHARSET
    case ".json" =>
      assert Lookup(KNOWN[2..], ext) == Lookup(KNOWN[3..], ext) == KNOWN[3].1;
      assert Lookup(KNOWN[1..], ext) == Lookup(KNOWN[2..], ext);
      EndsWithAppend("application/json", CHARSET); "application/json" + CHARSET
    case _ =>
      assert Lookup(KNOWN[3..], ext) == DEFAULT;
      assert Lookup(KNOWN[1..], ext) == DEFAULT;
      EndsWithAppend("text/plain", CHARSET);
      DEFAULT
  }

  /** The four recognised extensions get four different types. */
  lemma KnownTypesDistinct(a: string, b: string)
    requires a in {".html", ".js", ".css", ".json"} && b in {".html", ".js", ".css", ".json"}
    requires a != b
    ensures GetContentType(a) != GetContentType(b)
  {
  }
}
