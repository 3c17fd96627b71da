/**
 What a multipart parser takes from the header lines of a part: its name, its file name and its content type.

 The extended file name of RFC 5987 is not read.
 */
module MultipartHeaders {
  import opened Basics

  datatype FileInfo = FileInfo(name: string, filename: string, contentType: string)

  const NO_FILE: FileInfo := FileInfo("", "", "")

  const TYPE_NAME: string := "Content-Type:"
  const DISPOSITION_NAME: string := "Content-Disposition:"
  const FORM_DATA: string := "form-data;"

  // ---------- text ----------

  predicate IsBlank(c: char) {
    c == ' ' || c == '\t'
  }

  function TrimLeft(s: string): string {
    if s != "" && IsBlank(s[0]) then TrimLeft(s[1..]) else s
  }

  function TrimRight(s: string): string {
    if s != "" && IsBlank(s[|s| - 1]) then TrimRight(s[..|s| - 1]) else s
  }

  function Trim(s: string): string {
    TrimRight(TrimLeft(s))
  }

  function Unquoted(s: string): string {
    if |s| >= 2 && s[0] == '"' && s[|s| - 1] == '"' then s[1..|s| - 1] else s
  }

  // The first place of a character, or the length of the text.
  function IndexOf(s: string, d: char): (k: nat)
    ensures k <= |s| && d !in s[..k] && (k < |s| ==> s[k] == d)
  {
    if s == "" || s[0] == d then 0
    else
      var k := IndexOf(s[1..], d);
      assert s[..k + 1] == [s[0]] + s[1..][..k];
      k + 1
  }

  // The pieces between the separators, trimmed; blank ones are passed over.
  function Split(s: string, d: char): seq<string>
    decreases |s|
  {
    var k := IndexOf(s, d);
    var piece := Trim(s[..k]);
    (if piece == "" then [] else [piece]) + if k < |s| then Split(s[k + 1..], d) else []
  }

  function Lower(c: char): char {
    if 'A' <= c <= 'Z' then c - 'A' + 'a' else c
  }

  predicate StartsIgnoringCase(s: string, t: string) {
    |t| <= |s| && forall i :: 0 <= i < |t| ==> Lower(s[i]) == Lower(t[i])
  }

  // ---------- the parameters of a disposition ----------

  datatype Param = Param(key: string, value: string)

  // The first of the texts between equals signs, and the last of the others.
  function KeyValue(kv: string): Option<Param> {
    var pieces := Split(kv, '=');
    if pieces == [] then None
    else Some(Param(Unquoted(pieces[0]), Unquoted(if |pieces| > 1 then pieces[|pieces| - 1] else "")))
  }

  function Params(kvs: seq<string>, cache: set<string>): seq<Param> {
    if kvs == [] then []
    else if kvs[0] in cache then Params(kvs[1..], cache)
    else
      var kv := KeyValue(kvs[0]);
      (if kv.None? then [] else [kv.value]) + Params(kvs[1..], cache + {kvs[0]})
  }

  function Lookup(params: seq<Param>, key: string): Option<string> {
    if params == [] then None
    else if params[0].key == key then Some(params[0].value)
    else Lookup(params[1..], key)
  }

  predicate IsSpace(c: char) {
    IsBlank(c) || '\n' <= c <= '\r'
  }

  function SkipSpace(s: string): string {
    if s != "" && IsSpace(s[0]) then SkipSpace(s[1..]) else s
  }

  // The regular expression for a disposition of form data; its last part stays within one line.
  function Disposed(line: string): Option<string> {
    if !StartsIgnoringCase(line, DISPOSITION_NAME) then None
    else
      var value := SkipSpace(line[|DISPOSITION_NAME|..]);
      if !StartsIgnoringCase(value, FORM_DATA) then None
      else
        var rest := SkipSpace(value[|FORM_DATA|..]);
        if '\n' in rest || '\r' in rest then None else Some(rest)
  }

  // One header line.
  function TakeLine(file: FileInfo, line: string): FileInfo {
    if StartsIgnoringCase(line, TYPE_NAME) then file.(contentType := Trim(line[|TYPE_NAME|..]))
    else
      match Disposed(line)
      case None => file
      case Some(rest) =>
        var params := Params(Split(rest, ';'), {});
        var name, filename := Lookup(params, "name"), Lookup(params, "filename");
        var named := if name.Some? then file.(name := name.value) else file;
        if filename.Some? then named.(filename := filename.value) else named
  }

  function TakeLines(file: FileInfo, lines: seq<string>): FileInfo
    decreases |lines|
  {
    if lines == [] then file else TakeLines(TakeLine(file, lines[0]), lines[1..])
  }
}
