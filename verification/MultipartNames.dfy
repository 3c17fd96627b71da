// When the name, the file name and the content type of an item are read back from its header lines.
module MultipartNames {
  import opened Basics
  import opened Multipart
  import opened MultipartHeaders
  import opened MultipartTheorem

  // ---------- trimming and splitting ----------

  predicate LettersOf(s: string, t: string) {
    forall c :: c in s ==> c in t
  }

  lemma {:induction false} TrimmedWithin(s: string)
    ensures LettersOf(TrimLeft(s), s) && LettersOf(TrimRight(s), s)
    decreases |s|
  {
    if s != "" {
      TrimmedWithin(s[1..]);
      TrimmedWithin(s[..|s| - 1]);
    }
  }

  // No blank at either end.
  predicate Tidy(s: string) {
    s == "" || (!IsBlank(s[0]) && !IsBlank(s[|s| - 1]))
  }

  lemma {:induction false} TrimEnds(s: string)
    ensures TrimLeft(s) == "" || !IsBlank(TrimLeft(s)[0])
    ensures TrimRight(s) == "" || !IsBlank(TrimRight(s)[|TrimRight(s)| - 1])
    ensures TrimRight(s) <= s
    decreases |s|
  {
    if s != "" {
      TrimEnds(s[1..]);
      TrimEnds(s[..|s| - 1]);
    }
  }

  // What is tidy is what trimming leaves alone.
  lemma TrimExactly(s: string)
    ensures Trim(s) == s <==> Tidy(s)
  {
    TrimEnds(s);
    TrimEnds(TrimLeft(s));
  }

  lemma {:induction false} SplitClean(s: string, d: char)
    ensures forall i :: 0 <= i < |Split(s, d)| ==> d !in Split(s, d)[i] && LettersOf(Split(s, d)[i], s)
    decreases |s|
  {
    var k := IndexOf(s, d);
    var piece := Trim(s[..k]);
    TrimmedWithin(s[..k]);
    TrimmedWithin(TrimLeft(s[..k]));
    assert LettersOf(piece, s[..k]) && LettersOf(piece, s) && d !in piece;
    if k < |s| {
      SplitClean(s[k + 1..], d);
    }
    hide Trim;
  }

  lemma {:induction false} SplitNotEmpty(s: string, d: char)
    ensures forall i :: 0 <= i < |Split(s, d)| ==> Split(s, d)[i] != ""
    decreases |s|
  {
    var k := IndexOf(s, d);
    if k < |s| {
      SplitNotEmpty(s[k + 1..], d);
    }
    hide Trim;
  }

  lemma IndexIs(s: string, d: char, k: nat)
    requires k <= |s| && d !in s[..k] && (k < |s| ==> s[k] == d)
    ensures IndexOf(s, d) == k
  {
    NotInFront(s, d, k, IndexOf(s, d));
    NotInFront(s, d, IndexOf(s, d), k);
  }

  lemma NotInFront(s: string, d: char, k: nat, j: nat)
    requires k <= |s| && d !in s[..k]
    ensures j < k ==> s[j] != d
  {
    if j < k {
      assert s[j] == s[..k][j];
    }
  }

  lemma SplitNone(s: string, d: char)
    requires d !in s && Tidy(s) && s != ""
    ensures Split(s, d) == [s]
  {
    assert s[..|s|] == s;
    IndexIs(s, d, |s|);
    TrimExactly(s);
  }

  lemma SplitOne(a: string, d: char, b: string)
    requires d !in a && Tidy(a) && a != ""
    ensures Split(a + [d] + b, d) == [a] + Split(b, d)
  {
    var s := a + [d] + b;
    assert s[..|a|] == a && s[|a|] == d && s[|a| + 1..] == b;
    IndexIs(s, d, |a|);
    TrimExactly(a);
    hide Trim, Tidy;
  }

  // ---------- the values of the parameters ----------

  predicate Clean(s: string) {
    ';' !in s && '=' !in s && '\n' !in s && '\r' !in s
  }

  predicate Plainly(value: string) {
    ';' !in value && '=' !in value
  }

  lemma ValuePlain(kv: string)
    requires ';' !in kv
    ensures KeyValue(kv).Some? ==> Plainly(KeyValue(kv).value.value)
  {
    SplitClean(kv, '=');
    hide Split;
  }

  lemma {:induction false} ParamsPlain(kvs: seq<string>, cache: set<string>)
    requires forall i :: 0 <= i < |kvs| ==> ';' !in kvs[i]
    ensures forall i :: 0 <= i < |Params(kvs, cache)| ==> Plainly(Params(kvs, cache)[i].value)
    decreases |kvs|
  {
    if kvs != [] {
      ValuePlain(kvs[0]);
      ParamsPlain(kvs[1..], cache);
      ParamsPlain(kvs[1..], cache + {kvs[0]});
      hide KeyValue, Plainly;
    }
  }

  lemma {:induction false} LookupPlain(params: seq<Param>, key: string)
    requires forall i :: 0 <= i < |params| ==> Plainly(params[i].value)
    ensures Lookup(params, key).Some? ==> Plainly(Lookup(params, key).value)
    decreases |params|
  {
    if params != [] && params[0].key != key {
      LookupPlain(params[1..], key);
    }
  }

  // However a disposition is written, what is read from it holds no separator.
  lemma ReadPlain(rest: string, key: string)
    ensures var v := Lookup(Params(Split(rest, ';'), {}), key); v.Some? ==> Plainly(v.value)
  {
    SplitClean(rest, ';');
    ParamsPlain(Split(rest, ';'), {});
    LookupPlain(Params(Split(rest, ';'), {}), key);
  }

  lemma QuotedValue(key: string, value: string)
    requires key != "" && Tidy(key) && '=' !in key && '=' !in value && key[0] != '"'
    ensures KeyValue(key + "=" + ("\"" + value + "\"")) == Some(Param(key, value))
  {
    var quoted := "\"" + value + "\"";
    assert quoted[1..|quoted| - 1] == value && '=' !in quoted && Tidy(quoted);
    SplitOne(key, '=', quoted);
    SplitNone(quoted, '=');
    assert Split(key + "=" + quoted, '=') == [key] + [quoted];
    hide Split, Tidy;
  }

  // ---------- the disposition line of an item ----------

  function Quoted(key: string, value: string): string {
    key + "=" + ("\"" + value + "\"")
  }

  // What the disposition line says after the form data.
  function Said(item: Item): string {
    if item.filename == "" then Quoted("name", item.name)
    else Quoted("name", item.name) + "; " + Quoted("filename", item.filename)
  }

  lemma DispositionIs(item: Item)
    ensures Disposition(item) == DISPOSITION_NAME + (" " + (FORM_DATA + (" " + Said(item))))
    ensures Said(item) != "" && Said(item)[0] == 'n'
  {
    var front, open := DISPOSITION_NAME + (" " + (FORM_DATA + " ")), "name=\"";
    var more := if item.filename == "" then "" else "; filename=\"" + item.filename + "\"";
    FrontText();
    SaidIs(item);
    var said, disposition := Said(item), Disposition(item);
    assert disposition == (front + open) + item.name + "\"" + more;
    hide Said, Disposition;
    Fronted(front, open, item.name, "\"", more);
    assert said[0] == open[0];
    assert front + said == DISPOSITION_NAME + (" " + (FORM_DATA + (" " + said)));
  }

  lemma FrontText()
    ensures "Content-Disposition: form-data; name=\"" == DISPOSITION_NAME + (" " + (FORM_DATA + " ")) + "name=\""
  {
  }

  lemma SaidIs(item: Item)
    ensures Said(item) == "name=\"" + item.name + "\""
                          + if item.filename == "" then "" else "; filename=\"" + item.filename + "\""
  {
    assert "name" + "=" == "name=" && "name=" + "\"" == "name=\"" && "filename" + "=" == "filename=";
    assert "filename=" + "\"" == "filename=\"" && "; " + "filename=\"" == "; filename=\"";
    Spelled("name=", "\"", item.name, "\"");
    Spelled("filename=", "\"", item.filename, "\"");
    assert "; " + ("filename=\"" + item.filename + "\"") == "; filename=\"" + item.filename + "\"";
    var name := "name=\"" + item.name + "\"";
    assert name + "" == name;
    assert name + "; " + ("filename=\"" + item.filename + "\"") == name + ("; " + ("filename=\"" + item.filename + "\""));
  }

  lemma Spelled(a: string, b: string, c: string, d: string)
    ensures a + (b + c + d) == a + b + c + d
  {
  }

  lemma Fronted(front: string, a: string, b: string, c: string, d: string)
    ensures (front + a) + b + c + d == front + (a + b + c + d)
  {
  }

  lemma Prefixed(t: string, rest: string)
    ensures StartsIgnoringCase(t + rest, t) && (t + rest)[|t|..] == rest
  {
  }

  lemma SkipOne(rest: string)
    requires rest != "" && !IsSpace(rest[0])
    ensures SkipSpace(" " + rest) == rest
  {
    assert (" " + rest)[1..] == rest;
  }

  lemma DisposedIs(item: Item)
    ensures !StartsIgnoringCase(Disposition(item), TYPE_NAME)
    ensures Disposed(Disposition(item)) ==
            if '\n' in Said(item) || '\r' in Said(item) then None else Some(Said(item))
  {
    DispositionIs(item);
    var said := Said(item);
    var value := FORM_DATA + (" " + said);
    hide Said, Disposition;
    Prefixed(DISPOSITION_NAME, " " + value);
    Prefixed(FORM_DATA, " " + said);
    SkipOne(value);
    SkipOne(said);
    NotAType(" " + value);
    hide StartsIgnoringCase, SkipSpace;
  }

  lemma NotAType(rest: string)
    ensures !StartsIgnoringCase(DISPOSITION_NAME + rest, TYPE_NAME)
  {
    assert (DISPOSITION_NAME + rest)[8] == 'D' && TYPE_NAME[8] == 'T';
  }

  lemma CleanSaid(item: Item)
    requires Clean(item.name) && Clean(item.filename)
    ensures '\n' !in Said(item) && '\r' !in Said(item)
    ensures var params := Params(Split(Said(item), ';'), {});
            && Lookup(params, "name") == Some(item.name)
            && Lookup(params, "filename") == if item.filename == "" then None else Some(item.filename)
  {
    var name, file, said := Quoted("name", item.name), Quoted("filename", item.filename), Said(item);
    QuotedIs("name", item.name);
    QuotedIs("filename", item.filename);
    QuotedValue("name", item.name);
    QuotedValue("filename", item.filename);
    assert said == if item.filename == "" then name else name + "; " + file;
    assert KeyValue(name) == Some(Param("name", item.name)) && KeyValue(file) == Some(Param("filename", item.filename));
    hide Said, Quoted, KeyValue, Split, Tidy, Params, Lookup, Clean;
    if item.filename == "" {
      SplitNone(name, ';');
      OneParam(name);
    } else {
      SplitTwo(name, file);
      TwoParams(name, file);
      NoLineEnd(name, file);
    }
  }

  lemma NoLineEnd(a: string, b: string)
    requires '\n' !in a && '\n' !in b && '\r' !in a && '\r' !in b
    ensures '\n' !in a + "; " + b && '\r' !in a + "; " + b
  {
  }

  lemma SplitTwo(a: string, b: string)
    requires ';' !in a && Tidy(a) && a != "" && ';' !in b && Tidy(b) && b != ""
    ensures Split(a + "; " + b, ';') == [a] + [b]
  {
    hide Split, Tidy;
    assert "; " == [';'] + " ";
    assert a + "; " + b == a + [';'] + (" " + b);
    SplitOne(a, ';', " " + b);
    SplitBlank(b);
  }

  lemma QuotedIs(key: string, value: string)
    requires Clean(value) && Clean(key) && key != "" && Tidy(key)
    ensures var q := Quoted(key, value);
            ';' !in q && '\n' !in q && '\r' !in q && q != "" && Tidy(q) && q[0] == key[0]
  {
  }

  lemma SplitBlank(s: string)
    requires ';' !in s && Tidy(s) && s != ""
    ensures Split(" " + s, ';') == [s]
  {
    var t := " " + s;
    assert t[..|t|] == t && t[1..] == s;
    IndexIs(t, ';', |t|);
    TrimExactly(s);
    TrimEnds(s);
    assert TrimLeft(t) == TrimLeft(s);
  }

  lemma OneParam(kv: string)
    requires KeyValue(kv).Some?
    ensures Params([kv], {}) == [KeyValue(kv).value]
    ensures forall key :: Lookup([KeyValue(kv).value], key) ==
                          if KeyValue(kv).value.key == key then Some(KeyValue(kv).value.value) else None
  {
    assert [kv][1..] == [] && [KeyValue(kv).value][1..] == [];
    assert Params([], {} + {kv}) == [];
  }

  lemma TwoParams(a: string, b: string)
    requires KeyValue(a).Some? && KeyValue(b).Some? && KeyValue(a).value.key != KeyValue(b).value.key
    ensures var params := Params([a] + [b], {});
            && Lookup(params, KeyValue(a).value.key) == Some(KeyValue(a).value.value)
            && Lookup(params, KeyValue(b).value.key) == Some(KeyValue(b).value.value)
  {
    var pa, pb := KeyValue(a).value, KeyValue(b).value;
    assert ([a] + [b])[1..] == [b] && [b][1..] == [];
    assert b !in {} + {a};
    assert Params([b], {} + {a}) == [pb] + Params([], {} + {a} + {b});
    assert Params([a] + [b], {}) == [pa] + [pb];
    assert ([pa] + [pb])[1..] == [pb];
  }

  // ---------- all header lines of an item ----------

  function Written(item: Item): FileInfo {
    FileInfo(item.name, item.filename, item.contentType)
  }

  lemma TypeTaken(file: FileInfo, item: Item)
    ensures TakeLine(file, TypeLine(item)) == file.(contentType := Trim(item.contentType))
  {
    assert "Content-Type: " == TYPE_NAME + " ";
    assert TypeLine(item) == TYPE_NAME + (" " + item.contentType);
    Prefixed(TYPE_NAME, " " + item.contentType);
    assert (" " + item.contentType)[1..] == item.contentType;
  }

  lemma DispositionTaken(item: Item)
    ensures var file := TakeLine(NO_FILE, Disposition(item));
            && file.contentType == ""
            && (Clean(item.name) && Clean(item.filename) ==> file.name == item.name && file.filename == item.filename)
            && (!Clean(item.name) || !Clean(item.filename) ==> file.name != item.name || file.filename != item.filename)
  {
    DisposedIs(item);
    var said := Said(item);
    hide Disposition, Disposed, Params, Lookup, Split, StartsIgnoringCase, Trim;
    if Clean(item.name) && Clean(item.filename) {
      CleanSaid(item);
    } else {
      ReadPlain(said, "name");
      ReadPlain(said, "filename");
      SaidHolds(item);
      hide Said;
    }
  }

  lemma SaidHolds(item: Item)
    ensures forall c :: c in item.name || c in item.filename ==> c in Said(item)
  {
    forall c | c in item.name || c in item.filename
      ensures c in Said(item)
    {
      assert c in item.name ==> c in "\"" + item.name + "\"";
      assert c in item.filename ==> c in "\"" + item.filename + "\"";
      assert c in "\"" + item.name + "\"" ==> c in Quoted("name", item.name);
      assert c in "\"" + item.filename + "\"" ==> c in Quoted("filename", item.filename);
    }
  }

  lemma LinesTaken(item: Item)
    ensures TakeLines(NO_FILE, Lines(item)) ==
            TakeLine(NO_FILE, Disposition(item)).(contentType := Trim(item.contentType))
  {
    var file := TakeLine(NO_FILE, Disposition(item));
    assert [Disposition(item), TypeLine(item)][1..] == [TypeLine(item)] && [TypeLine(item)][1..] == [];
    assert [Disposition(item)][1..] == [];
    TypeTaken(file, item);
    DispositionTaken(item);
    hide TakeLine, Disposition, TypeLine;
    assert TakeLines(TakeLine(file, TypeLine(item)), []) == TakeLine(file, TypeLine(item));
    assert item.contentType == "" ==> Trim(item.contentType) == "";
  }

  /**
   The header lines of an item give back its name, its file name and its content type if and only if the two names
   hold no semicolon, no equals sign and no line end, and the content type has no blank at an end.
   */
  lemma InfoIsRead(item: Item)
    ensures TakeLines(NO_FILE, Lines(item)) == Written(item) <==>
            Clean(item.name) && Clean(item.filename) && Tidy(item.contentType)
  {
    LinesTaken(item);
    DispositionTaken(item);
    TrimExactly(item.contentType);
    hide TakeLine, TakeLines, Lines, Disposition, Trim, Tidy, Clean;
  }
}
