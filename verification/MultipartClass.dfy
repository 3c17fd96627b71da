// The multipart parser as an object with its own text buffer.
module MultipartClass {
  import opened Basics
  import opened Multipart
  import opened MultipartHeaders
  import N = MultipartNames
  import T = MultipartTheorem

  class MultipartFormDataParser {
    const boundary: string
    var buf: seq<char>
    var spos: nat
    var epos: nat
    var state: State
    var isValid: bool
    var parts: seq<string>
    var file: FileInfo
    var files: seq<FileInfo>

    ghost predicate Valid()
      reads this
    {
      spos <= epos <= |buf|
    }

    ghost function Value(): Parser
      requires Valid()
      reads this
    {
      Parser(boundary, state, buf[spos..epos], isValid, parts, file, files)
    }

    constructor (bound: string)
      ensures Valid() && Value() == Parser(bound, Initial, "", false, [], NO_FILE, [])
    {
      boundary := bound;
      buf, spos, epos := "", 0, 0;
      state, isValid, parts := Initial, false, [];
      file, files := NO_FILE, [];
    }

    // The readable text moves to the front.
    method MoveToFront()
      requires Valid()
      modifies this`buf, this`spos, this`epos
      ensures Valid() && spos == 0 && epos == old(epos - spos) && buf[..epos] == old(buf[spos..epos])
    {
      var remaining := epos - spos;
      if remaining > 0 && spos > 0 {
        ghost var was := buf;
        var i := 0;
        while i < remaining
          invariant i <= remaining && |buf| == |was| && spos == old(spos) && epos == old(epos)
          invariant forall k :: 0 <= k < i ==> buf[k] == was[spos + k]
          invariant forall k :: i <= k < |was| ==> buf[k] == was[k]
        {
          buf := buf[i := buf[spos + i]];
          i := i + 1;
        }
        assert buf[..remaining] == was[spos..epos];
      }
      spos, epos := 0, remaining;
    }

    // The new text follows the text that is there.
    method BufAppend(data: string)
      requires Valid()
      modifies this`buf, this`spos, this`epos
      ensures Valid() && buf[spos..epos] == old(buf[spos..epos]) + data
    {
      MoveToFront();
      ghost var front := buf[..epos];
      if epos + |data| > |buf| {
        buf := buf + seq(epos + |data| - |buf|, _ => '\0');
      }
      var remaining, i := epos, 0;
      while i < |data|
        invariant i <= |data| && spos == 0 && epos == remaining == |front| && remaining + |data| <= |buf|
        invariant buf[..remaining + i] == front + data[..i]
      {
        buf := buf[epos + i := data[i]];
        i := i + 1;
      }
      assert data[..i] == data;
      epos := epos + |data|;
    }

    method StartWith(at: nat, s: string) returns (r: bool)
      requires Valid() && spos <= at <= epos
      ensures r == OccursAt(buf[spos..epos], s, at - spos)
    {
      if epos - at < |s| {
        return false;
      }
      var i := 0;
      while i < |s|
        invariant i <= |s| && forall k :: 0 <= k < i ==> buf[spos..epos][at - spos + k] == s[k]
      {
        assert buf[spos..epos][at - spos + i] == buf[i + at];
        if buf[i + at] != s[i] {
          return false;
        }
        i := i + 1;
      }
      return true;
    }

    method BufFind(s: string) returns (r: nat)
      requires Valid() && s != ""
      ensures r == Find(buf[spos..epos], s)
    {
      ghost var text := buf[spos..epos];
      var c := s[0];
      var off := spos;
      while off < epos
        invariant spos <= off <= epos
        invariant forall k :: 0 <= k < off - spos ==> !OccursAt(text, s, k)
      {
        var pos := off;
        while pos < epos && buf[pos] != c
          invariant off <= pos <= epos
          invariant forall k :: 0 <= k < pos - spos ==> !OccursAt(text, s, k)
        {
          assert text[(pos - spos) + 0] == buf[pos];
          pos := pos + 1;
        }
        if pos == epos || |s| > epos - pos {
          FirstIs(text, s, |text|);
          return epos - spos;
        }
        var found := StartWith(pos, s);
        if found {
          FirstIs(text, s, pos - spos);
          return pos - spos;
        }
        off := pos + 1;
      }
      FirstIs(text, s, |text|);
      return epos - spos;
    }

    method BufErase(size: nat)
      requires Valid() && size <= epos - spos
      modifies this`spos
      ensures Valid() && Value() == Erase(old(Value()), size) && spos == old(spos) + size
    {
      spos := spos + size;
    }

    // The callback for a content takes it into the last part.
    method ContentCallback(content: string)
      modifies this`parts
      ensures parts == Deliver(old(parts), content)
    {
      parts := if parts == [] then [content] else parts[..|parts| - 1] + [parts[|parts| - 1] + content];
    }

    method InitialCase() returns (again: bool)
      requires Valid() && state.Initial?
      modifies this
      ensures Valid() && InitialRound(old(Value())) == if again then Again(Value()) else Return(Value(), true)
    {
      var dash := DashBoundaryCrlf(boundary);
      FindWithin(Value().buffer, dash);
      var pos := BufFind(dash);
      BufErase(pos);
      if |dash| > epos - spos {
        return false;
      }
      BufErase(|dash|);
      state := NewEntry;
      return true;
    }

    // The lines that are complete; the empty one ends them.
    method HeaderCase(accepts: HeaderParser) returns (again: bool, ok: bool)
      requires Valid() && state.Headers?
      modifies this
      ensures Valid() && HeaderLines(accepts, old(Value())) == if again then Again(Value()) else Return(Value(), ok)
      ensures again ==> ok
    {
      hide Find, HeaderLines, OccursAt;
      ghost var p := Value();
      var pos := BufFind(CRLF);
      while pos < epos - spos
        invariant Valid() && state.Headers? && pos == Find(Value().buffer, CRLF)
        invariant HeaderLines(accepts, Value()) == HeaderLines(accepts, p)
        decreases epos - spos
      {
        HeaderLinesUnfold(accepts, Value());
        assert pos + 2 <= epos - spos;
        if pos == 0 {
          parts, files := parts + [""], files + [file];
          BufErase(2);
          state := Body;
          return true, true;
        }
        var header := buf[spos..spos + pos];
        assert header == Value().buffer[..pos];
        if !accepts(header) {
          isValid := false;
          return false, false;
        }
        file := ReadLine(file, header);
        BufErase(pos + 2);
        pos := BufFind(CRLF);
      }
      HeaderLinesUnfold(accepts, Value());
      return false, true;
    }

    method BodyCase() returns (again: bool)
      requires Valid() && state.Body?
      modifies this
      ensures Valid() && BodyRound(old(Value())) == if again then Again(Value()) else Return(Value(), true)
    {
      hide Find, Delimiter, OccursAt;
      var delimiter := Delimiter(boundary);
      if |delimiter| > epos - spos {
        return false;
      }
      FindWithin(Value().buffer, delimiter);
      DelimiterStarts(boundary);
      var pos := BufFind(delimiter);
      var len := if pos < epos - spos then pos else epos - spos - |delimiter|;
      assert len <= epos - spos;
      assert buf[spos..spos + len] == buf[spos..epos][..len];
      if pos < epos - spos {
        ContentCallback(buf[spos..spos + len]);
        BufErase(pos + |delimiter|);
        state := Boundary;
        return true;
      }
      if len > 0 {
        ContentCallback(buf[spos..spos + len]);
        BufErase(len);
      }
      return false;
    }

    method BoundaryCase() returns (again: bool)
      requires Valid() && state.Boundary?
      modifies this
      ensures Valid() && BoundaryRound(old(Value())) == if again then Again(Value()) else Return(Value(), true)
    {
      if 2 > epos - spos {
        return false;
      }
      assert buf[spos..spos + 2] == Value().buffer[..2];
      if buf[spos..spos + 2] == CRLF {
        BufErase(2);
        state := NewEntry;
      } else if buf[spos..spos + 2] == DASH {
        isValid := true;
        BufErase(epos - spos);
      } else {
        return false;
      }
      return true;
    }

    method Parse(accepts: HeaderParser, data: string) returns (ok: bool)
      requires Valid()
      modifies this
      ensures Valid() && Feed(accepts, old(Value()), data) == Return(Value(), ok)
    {
      BufAppend(data);
      hide InitialRound, BodyRound, BoundaryRound, HeaderLines, Find;
      ghost var start := Value();
      var again := true;
      ok := true;
      while again && epos - spos > 0
        invariant Valid()
        invariant Drive(accepts, start) == if again then Drive(accepts, Value()) else Return(Value(), ok)
        invariant again ==> ok
        decreases again, epos - spos, if state.NewEntry? then 1 else 0
      {
        Shrinks(accepts, Value());
        match state {
          case Initial =>
            again := InitialCase();
          case NewEntry =>
            file := NO_FILE;
            state := Headers;
          case Headers =>
            var pos := BufFind(CRLF);
            if pos > HEADER_MAX_LENGTH {
              again, ok := false, false;
            } else {
              again, ok := HeaderCase(accepts);
            }
          case Body =>
            again := BodyCase();
          case Boundary =>
            again := BoundaryCase();
        }
      }
    }
  }

  // ---------- reading a header line ----------

  method TrimCopy(s: string) returns (r: string)
    ensures r == Trim(s)
  {
    var left, right := 0, |s|;
    assert s[0..] == s;
    while left < |s| && IsBlank(s[left])
      invariant left <= |s| && TrimLeft(s[left..]) == TrimLeft(s)
    {
      assert s[left..][1..] == s[left + 1..];
      left := left + 1;
    }
    assert TrimLeft(s) == s[left..] && s[left..right] == s[left..];
    while right > left && IsBlank(s[right - 1])
      invariant left <= right <= |s| && TrimRight(s[left..right]) == Trim(s)
    {
      assert s[left..right][..right - left - 1] == s[left..right - 1];
      right := right - 1;
    }
    r := s[left..right];
  }

  method SplitAll(s: string, d: char) returns (pieces: seq<string>)
    ensures pieces == Split(s, d)
  {
    hide Split, Trim;
    pieces := [];
    var i, beg := 0, 0;
    assert s[0..] == s && s[0..0] == "";
    while i < |s|
      invariant beg <= i <= |s| && d !in s[beg..i] && pieces + Split(s[beg..], d) == Split(s, d)
    {
      if s[i] == d {
        SplitHere(s, d, beg, i);
        var piece := TrimCopy(s[beg..i]);
        Regroup(pieces, if piece == "" then [] else [piece], Split(s[i + 1..], d));
        if piece != "" {
          pieces := pieces + [piece];
        } else {
          assert pieces + [] == pieces;
        }
        beg := i + 1;
      } else {
        assert s[beg..i + 1] == s[beg..i] + [s[i]];
      }
      i := i + 1;
    }
    SplitHere(s, d, beg, i);
    var piece := TrimCopy(s[beg..i]);
    if piece != "" {
      pieces := pieces + [piece];
    }
  }

  lemma Regroup<T>(a: seq<T>, b: seq<T>, c: seq<T>)
    ensures a + (b + c) == (a + b) + c
  {
  }

  lemma SplitHere(s: string, d: char, beg: nat, i: nat)
    requires beg <= i <= |s| && d !in s[beg..i] && (i < |s| ==> s[i] == d)
    ensures Split(s[beg..], d) ==
            (if Trim(s[beg..i]) == "" then [] else [Trim(s[beg..i])]) + if i < |s| then Split(s[i + 1..], d) else []
  {
    hide Trim;
    var t, k := s[beg..], i - beg;
    assert t[..k] == s[beg..i];
    N.IndexIs(t, d, k);
    if i < |s| {
      assert t[k + 1..] == s[i + 1..];
    }
  }

  method ParseKeyValue(kv: string) returns (r: Option<Param>)
    ensures r == KeyValue(kv)
  {
    var pieces := SplitAll(kv, '=');
    var key, val := "", "";
    var i := 0;
    while i < |pieces|
      invariant i <= |pieces| && (key == "" <==> i == 0) && (i > 0 ==> key == pieces[0])
      invariant val == if i > 1 then pieces[i - 1] else ""
    {
      N.SplitNotEmpty(kv, '=');
      if key == "" {
        key := pieces[i];
      } else {
        val := pieces[i];
      }
      i := i + 1;
    }
    r := if key == "" then None else Some(Param(Unquoted(key), Unquoted(val)));
  }

  method ParseDispositionParams(s: string) returns (params: seq<Param>)
    ensures params == Params(Split(s, ';'), {})
  {
    var kvs := SplitAll(s, ';');
    var cache: set<string> := {};
    params := [];
    var i := 0;
    assert kvs[0..] == kvs;
    hide KeyValue, Split, Params;
    while i < |kvs|
      invariant i <= |kvs| && params + Params(kvs[i..], cache) == Params(kvs, {})
    {
      var kv := kvs[i];
      ParamsStep(kvs, i, cache);
      if kv !in cache {
        var param := ParseKeyValue(kv);
        Regroup(params, if param.None? then [] else [param.value], Params(kvs[i + 1..], cache + {kv}));
        cache := cache + {kv};
        if param.Some? {
          params := params + [param.value];
        } else {
          assert params + [] == params;
        }
      }
      i := i + 1;
    }
    NoParams(kvs, cache);
  }

  lemma NoParams(kvs: seq<string>, cache: set<string>)
    ensures Params(kvs[|kvs|..], cache) == []
  {
  }

  lemma ParamsStep(kvs: seq<string>, i: nat, cache: set<string>)
    requires i < |kvs|
    ensures Params(kvs[i..], cache) ==
            if kvs[i] in cache then Params(kvs[i + 1..], cache)
            else (if KeyValue(kvs[i]).None? then [] else [KeyValue(kvs[i]).value]) + Params(kvs[i + 1..], cache + {kvs[i]})
  {
    hide KeyValue;
    assert kvs[i..][0] == kvs[i] && kvs[i..][1..] == kvs[i + 1..];
  }

  method ReadLine(file: FileInfo, line: string) returns (r: FileInfo)
    ensures r == TakeLine(file, line)
  {
    hide Params, Split, Trim, Lookup, StartsIgnoringCase, Disposed;
    r := file;
    if StartsIgnoringCase(line, TYPE_NAME) {
      TypeFits(line);
      var kind := TrimCopy(line[|TYPE_NAME|..]);
      r := r.(contentType := kind);
    } else {
      var rest := Disposed(line);
      if rest.Some? {
        var params := ParseDispositionParams(rest.value);
        var name := Lookup(params, "name");
        if name.Some? {
          r := r.(name := name.value);
        }
        var filename := Lookup(params, "filename");
        if filename.Some? {
          r := r.(filename := filename.value);
        }
      }
    }
  }

  lemma TypeFits(line: string)
    requires StartsIgnoringCase(line, TYPE_NAME)
    ensures |TYPE_NAME| <= |line|
  {
  }

  // A round that is followed by another consumes text, or moves on to the headers.
  lemma Shrinks(accepts: HeaderParser, p: Parser)
    requires p.buffer != ""
    ensures OneRound(accepts, p).Again? ==>
              |OneRound(accepts, p).parser.buffer| < |p.buffer| || p.state.NewEntry?
    ensures Drive(accepts, p) ==
            match OneRound(accepts, p)
            case Again(q) => Drive(accepts, q)
            case Return(q, ok) => Return(q, ok)
  {
    if OneRound(accepts, p).Again? {
      T.RoundShrinks(accepts, p);
    }
    hide OneRound;
  }

  lemma FindWithin(s: string, t: string)
    ensures Find(s, t) <= |s| && (Find(s, t) < |s| ==> Find(s, t) + |t| <= |s|)
  {
    FindIs(s, t, 0);
  }

  lemma DelimiterStarts(boundary: string)
    ensures Delimiter(boundary) != ""
  {
  }

  lemma FirstIs(s: string, t: string, r: nat)
    requires r <= |s| && (r < |s| ==> OccursAt(s, t, r))
    requires forall k :: 0 <= k < r ==> !OccursAt(s, t, k)
    ensures Find(s, t) == r
  {
    FindIs(s, t, 0);
  }
}
