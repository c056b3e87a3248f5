/**
 The brace-matching extractor that pulls one JSON object out of a model reply.

 The scanner is a loop over four variables. It is specified by position: which
 characters are escaped, which lie inside a string, and how deep the structural
 braces nest at each prefix. The grammar of JSON texts is in JsonGrammar.
 */
module JsonExtract {
  import opened Basics
  import opened Text

  const FENCE := "```"
  const JSON_TAG := "json"

  /** Python's `str.isspace`, which `str.strip` and the pattern `\s` both use. */
  predicate PyWhitespace(c: char) {
    || 0x09 as char <= c <= 0x0D as char
    || 0x1C as char <= c <= 0x20 as char
    || c as int in {0x85, 0xA0, 0x1680, 0x2028, 0x2029, 0x202F, 0x205F, 0x3000}
    || 0x2000 as char <= c <= 0x200A as char
  }

  // What the loop is about, by position

  /** The character at i follows an odd run of backslashes. */
  predicate Escaped(s: string, i: nat)
    requires i <= |s|
  {
    i > 0 && s[i - 1] == '\\' && !Escaped(s, i - 1)
  }

  /** Quotation marks before n that open or close a string. */
  function Quotes(s: string, n: nat): nat
    requires n <= |s|
  {
    if n == 0 then 0
    else Quotes(s, n - 1) + if s[n - 1] == '"' && !Escaped(s, n - 1) then 1 else 0
  }

  predicate InString(s: string, i: nat)
    requires i <= |s|
  {
    Quotes(s, i) % 2 == 1
  }

  predicate Structural(s: string, i: nat)
    requires i < |s|
  {
    !Escaped(s, i) && !InString(s, i)
  }

  /** Opening minus closing braces before n, counting only those outside strings. */
  function Depth(s: string, n: nat): int
    requires n <= |s|
  {
    if n == 0 then 0
    else
      Depth(s, n - 1) +
      if !Structural(s, n - 1) then 0 else if s[n - 1] == '{' then 1 else if s[n - 1] == '}' then -1 else 0
  }

  /** e is the length of the shortest nonempty prefix of s whose structural braces balance. */
  ghost predicate ShortestBalanced(s: string, e: nat) {
    0 < e <= |s| && Depth(s, e) == 0 && forall j :: 0 < j < e ==> Depth(s, j) != 0
  }

  // Fences

  /** re.sub(r"^```(?:json)?\s*", "", s) on a text that starts with a fence. */
  function DropOpeningFence(s: string): string
    requires StartsWith(s, FENCE)
  {
    var rest := s[|FENCE|..];
    TrimStart(if StartsWith(rest, JSON_TAG) then rest[|JSON_TAG|..] else rest, PyWhitespace)
  }

  /** re.sub(r"\s*```$", "", s) on a text whose last character is not white space. */
  function DropClosingFence(s: string): string {
    if EndsWith(s, FENCE) then TrimEnd(s[..|s| - |FENCE|], PyWhitespace) else s
  }

  function Unfenced(text: string): string {
    var stripped := Trim(text, PyWhitespace);
    if StartsWith(stripped, FENCE) then DropClosingFence(DropOpeningFence(stripped)) else stripped
  }

  // What the extractor returns

  /** stripped.find("{") */
  function FirstBrace(s: string): (r: Option<nat>)
    ensures r.Some? ==> r.value < |s| && s[r.value] == '{' && '{' !in s[..r.value]
    ensures r.None? ==> '{' !in s
  {
    if s == "" then None
    else if s[0] == '{' then Some(0)
    else
      var rest := FirstBrace(s[1..]);
      assert s == [s[0]] + s[1..];
      if rest.None? then None
      else
        assert s[..rest.value + 1] == [s[0]] + s[1..][..rest.value];
        Some(rest.value + 1)
  }

  ghost function ShortestBalance(s: string): (r: Option<nat>)
    ensures r.Some? ==> ShortestBalanced(s, r.value)
    ensures r.None? ==> forall e :: !ShortestBalanced(s, e)
  {
    if e :| ShortestBalanced(s, e) then Some(e) else None
  }

  ghost function Extraction(text: string): Option<string> {
    var t := Unfenced(text);
    match FirstBrace(t)
    case None => None
    case Some(start) =>
      match ShortestBalance(t[start..])
      case None => None
      case Some(e) => Some(t[start..][..e])
  }

  method ExtractJsonObject(text: string) returns (r: Option<string>)
    ensures r == Extraction(text)
  {
    var stripped := Unfenced(text);
    var found := FirstBrace(stripped);
    if found.None? { return None; }
    var tail := stripped[found.value..];
    var end := ScanObject(tail);
    r := if end.None? then None else Some(tail[..end.value]);
  }

  /** The scanning loop, from the first opening brace on. */
  method ScanObject(s: string) returns (end: Option<nat>)
    requires s != "" && s[0] == '{'
    ensures end == ShortestBalance(s)
  {
    var depth, inString, escaped := 0, false, false;
    for idx := 0 to |s|
      invariant ScanState(depth, inString, escaped) == ScannedTo(s, idx)
      invariant forall j :: 0 < j <= idx ==> Depth(s, j) > 0
    {
      ScanStep(s, idx);
      var c := s[idx];
      if escaped {
        escaped := false;
      } else if c == '\\' {
        escaped := true;
      } else if c == '"' {
        inString := !inString;
      } else if inString {
      } else if c == '{' {
        depth := depth + 1;
      } else if c == '}' {
        depth := depth - 1;
        if depth == 0 {
          ShortestIsUnique(s, idx + 1);
          return Some(idx + 1);
        }
      }
    }
    NeverBalanced(s);
    return None;
  }

  // The scanner as a state machine

  datatype ScanState = ScanState(depth: int, inString: bool, escaped: bool)

  function Step(st: ScanState, c: char): ScanState {
    if st.escaped then st.(escaped := false)
    else if c == '\\' then st.(escaped := true)
    else if c == '"' then st.(inString := !st.inString)
    else if st.inString then st
    else if c == '{' then st.(depth := st.depth + 1)
    else if c == '}' then st.(depth := st.depth - 1)
    else st
  }

  function ScannedTo(s: string, n: nat): ScanState
    requires n <= |s|
  {
    ScanState(Depth(s, n), InString(s, n), Escaped(s, n))
  }

  /** One step of the machine keeps it in line with the positional description. */
  lemma ScanStep(s: string, n: nat)
    requires n < |s|
    ensures ScannedTo(s, n + 1) == Step(ScannedTo(s, n), s[n])
  {
    var q := Quotes(s, n);
    assert (q + 1) % 2 == 1 <==> q % 2 != 1;
  }

  lemma NeverBalanced(s: string)
    requires forall j :: 0 < j <= |s| ==> Depth(s, j) > 0
    ensures ShortestBalance(s) == None
  {
  }

  lemma ShortestIsUnique(s: string, e: nat)
    requires ShortestBalanced(s, e)
    ensures ShortestBalance(s) == Some(e)
  {
  }
}
