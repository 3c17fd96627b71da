/**
 The method of a request: the parser guesses it from the first letter, changes its mind on the way, and
 takes exactly the words of its table.
 */
module HttpMethods {
  import opened Basics
  import opened HttpSyntax
  import opened HttpParser
  import opened HttpSplit

  function Bytes(word: string): (r: seq<Byte>)
    requires forall i :: 0 <= i < |word| ==> word[i] < 256 as char
    ensures |r| == |word| && forall i :: 0 <= i < |word| ==> r[i] == word[i] as int
  {
    seq(|word|, i requires 0 <= i < |word| => word[i] as int)
  }

  /** The guess after `word` agrees with it so far. */
  predicate Spells(p: Parser, word: string) {
    && p.state.ReqMethod? && p.verb != MSEARCH && p.index == |word|
    && 1 <= |word| <= |MethodText(p.verb)| && MethodText(p.verb)[..|word|] == word
  }

  lemma OtherVerbContinues(m: Method, index: nat, ch: Byte)
    requires 1 <= index <= |MethodText(m)| && OtherVerb(m, index, ch).Some? && OtherVerb(m, index, ch) != Some(MSEARCH)
    ensures var v := OtherVerb(m, index, ch).value;
            index < |MethodText(v)| && MethodText(v)[index] as int == ch && MethodText(v)[..index] == MethodText(m)[..index]
  {
  }

  /** One letter, or the blank at the end of the word. */
  predicate Continues(p: Parser, word: string, c: char, v: Parser) {
    || (c == ' ' && MethodText(p.verb) == word && v.state == ReqSpacesBeforeUrl && v.verb == p.verb)
    || (c != ' ' && Spells(v, word + [c]))
    || (v.state.ReqMethod? && v.verb == MSEARCH)
  }

  lemma NoBlankInText(m: Method, i: nat)
    requires m != MSEARCH && i < |MethodText(m)|
    ensures MethodText(m)[i] != ' ' && MethodText(m)[i] != '\0' && MethodText(m)[i] < 256 as char
  {
  }

  lemma GoesOn(m: Method, v: Method, word: string, c: char)
    requires |word| <= |MethodText(m)| && MethodText(m)[..|word|] == word && |word| < |MethodText(v)|
    requires MethodText(v)[..|word|] == MethodText(m)[..|word|] && MethodText(v)[|word|] == c
    ensures |word + [c]| <= |MethodText(v)| && MethodText(v)[..|word + [c]|] == word + [c]
  {
    hide MethodText;
  }

  lemma WordEnds(p: Parser, word: string)
    requires MidByte(p) && Spells(p, word) && p.index == |MethodText(p.verb)|
    ensures var r := PassMethod(p, SP); r.control.Break? && Continues(p, word, ' ', r.parser)
  {
    hide OtherVerb, StateOk, MethodText;
  }

  lemma WordContinues(p: Parser, word: string, c: char)
    requires MidByte(p) && Spells(p, word) && c < 256 as char
    requires p.index < |MethodText(p.verb)| && c == MethodText(p.verb)[p.index]
    ensures var r := PassMethod(p, c as int); r.control.Break? && Continues(p, word, c, r.parser)
  {
    NoBlankInText(p.verb, p.index);
    GoesOn(p.verb, p.verb, word, c);
    hide OtherVerb, StateOk, MethodText;
  }

  lemma WordTurns(p: Parser, word: string, c: char)
    requires MidByte(p) && Spells(p, word) && c < 256 as char
    requires p.index < |MethodText(p.verb)| ==> c != MethodText(p.verb)[p.index]
    requires !(c == ' ' && p.index == |MethodText(p.verb)|)
    ensures var r := PassMethod(p, c as int);
            r.control.Fail? || (r.control.Break? && Continues(p, word, c, r.parser))
  {
    var other := OtherVerb(p.verb, p.index, c as int);
    if other.Some? && other != Some(MSEARCH) {
      OtherVerbContinues(p.verb, p.index, c as int);
      NoBlankInText(other.value, p.index);
      GoesOn(p.verb, other.value, word, c);
    }
    hide OtherVerb, StateOk, MethodText;
  }

  lemma MethodPass(p: Parser, word: string, c: char)
    requires MidByte(p) && Spells(p, word) && c < 256 as char
    ensures var r := PassMethod(p, c as int);
            r.control.Fail? || (r.control.Break? && Continues(p, word, c, r.parser))
  {
    hide PassMethod, Continues, StateOk, MethodText;
    if c == ' ' && p.index == |MethodText(p.verb)| {
      WordEnds(p, word);
    } else if p.index < |MethodText(p.verb)| && c == MethodText(p.verb)[p.index] {
      WordContinues(p, word, c);
    } else {
      WordTurns(p, word, c);
    }
  }

  lemma MethodStep(p: Parser, word: string, c: char)
    requires Valid(p) && Spells(p, word) && c < 256 as char
    ensures Step(p, c as int).status.Failed?
            || (Step(p, c as int).status.Running? && Continues(p, word, c, Step(p, c as int).parser))
  {
    var q := Count(p);
    if q.nread <= MAX_HEADER_SIZE {
      assert MidByte(q) && Spells(q, word);
      MethodPass(q, word, c);
      hide PassMethod, Continues, StateOk, Spells, MethodText;
      assert Switch(q, c as int) == PassMethod(q, c as int);
      assert Continues(q, word, c, Step(p, c as int).parser) ==> Continues(p, word, c, Step(p, c as int).parser) by {
        SameVerb(p, q, word, c, Step(p, c as int).parser);
      }
    }
  }

  lemma SameVerb(p: Parser, q: Parser, word: string, c: char, v: Parser)
    requires p.verb == q.verb
    ensures Continues(p, word, c, v) <==> Continues(q, word, c, v)
  {
  }

  predicate Word(word: string) {
    forall i :: 0 <= i < |word| ==> word[i] < 256 as char && word[i] != ' '
  }

  /** A word and the blank after it. */
  function Line(word: string): seq<Byte>
    requires Word(word)
  {
    Bytes(word) + [SP]
  }

  lemma LineTail(word: string)
    requires Word(word) && word != ""
    ensures Word(word[1..]) && Line(word)[1..] == Line(word[1..]) && Line(word)[0] == word[0] as int
  {
  }

  /** The mistaken table entry is not left again. */
  lemma MSearchStep(p: Parser, ch: Byte)
    requires Valid(p) && p.state.ReqMethod? && p.verb == MSEARCH
    ensures var e := Step(p, ch);
            e.status.Failed? || (e.status.Running? && e.parser.verb == MSEARCH
            && (e.parser.state.ReqMethod? || (ch == SP && e.parser.state == ReqSpacesBeforeUrl)))
  {
    var q := Count(p);
    VerbLengthIsTextLength(p.verb);
    if q.nread <= MAX_HEADER_SIZE {
      assert MidByte(q);
      assert Switch(q, ch) == PassMethod(q, ch);
      hide Switch, StateOk, MethodText;
    }
  }

  lemma {:induction false} MSearchStays(p: Parser, more: string)
    requires Valid(p) && p.state.ReqMethod? && p.verb == MSEARCH && Word(more)
    ensures Run(p, Line(more)).status.Running? ==> Run(p, Line(more)).parser.verb == MSEARCH
    decreases |more|
  {
    MSearchStep(p, Line(more)[0]);
    var e := Step(p, Line(more)[0]);
    hide Step, Valid;
    if more != "" && e.status.Running? {
      LineTail(more);
      MSearchStays(e.parser, more[1..]);
    } else {
      assert more == "" ==> Line(more)[1..] == [];
    }
  }

  /** The rest of a word. */
  lemma {:induction false} SpelledRun(p: Parser, word: string, more: string)
    requires Valid(p) && Spells(p, word) && Word(more)
    ensures var t := Run(p, Line(more));
            t.status.Running? ==> t.parser.verb == MSEARCH
                                  || (MethodText(t.parser.verb) == word + more && t.parser.state == ReqSpacesBeforeUrl)
    decreases |more|
  {
    hide Step, Valid, MethodText, StateOk, Spells;
    var c := if more == "" then ' ' else more[0];
    MethodStep(p, word, c);
    var e := Step(p, c as int);
    if more == "" {
      assert Line(more) == [SP] && Line(more)[1..] == [];
      assert word + more == word;
    } else {
      LineTail(more);
      assert word + more == (word + [c]) + more[1..];
      if e.status.Running? && Spells(e.parser, word + [c]) {
        SpelledRun(e.parser, word + [c], more[1..]);
      } else if e.status.Running? {
        MSearchStays(e.parser, more[1..]);
      }
    }
  }

  lemma FirstLetter(c: char)
    requires c < 256 as char && c as int != CR && c as int != LF
    ensures var e := Step(Init(), c as int);
            e.status.Failed? || (e.status.Running? && Spells(e.parser, [c]))
  {
    var q := Count(Init());
    assert MidByte(q) && Switch(q, c as int) == PassStart(q, c as int);
    if FirstVerb(c as int).Some? {
      FirstVerbStarts(c as int);
    }
    hide Switch, StateOk, MethodText, FirstVerb;
  }

  lemma FirstVerbStarts(ch: Byte)
    requires FirstVerb(ch).Some?
    ensures var m := FirstVerb(ch).value;
            m != MSEARCH && 1 <= |MethodText(m)| && MethodText(m)[0] as int == ch && MethodText(m)[..1] == [ch as char]
  {
  }

  /** A word that is taken for a method is the text of that method. */
  lemma MethodIsSpelled(word: string)
    requires word != "" && Word(word) && word[0] as int != CR && word[0] as int != LF
    ensures var t := Run(Init(), Line(word));
            t.status.Running? && t.parser.verb != MSEARCH ==>
              MethodText(t.parser.verb) == word && t.parser.state == ReqSpacesBeforeUrl
  {
    FirstLetter(word[0]);
    LineTail(word);
    var e := Step(Init(), word[0] as int);
    assert word == [word[0]] + word[1..];
    hide Step, MethodText;
    if e.status.Running? {
      SpelledRun(e.parser, [word[0]], word[1..]);
    }
  }

  // ---------------------------------------------------------------- every method is read

  /** The guess after k letters of the method v. */
  function Guess(v: Method, k: nat): Method {
    if v == CHECKOUT then if k <= 1 then CONNECT else v
    else if v == COPY then if k <= 2 then CONNECT else v
    else if v == MOVE || v == MERGE then if k <= 1 then MKCOL else v
    else if v == MKACTIVITY then if k <= 2 then MKCOL else v
    else if v == SEARCH then if k <= 1 then SUBSCRIBE else v
    else if v == PROPFIND || v == PUT || v == PATCH then if k <= 1 then POST else v
    else if v == PURGE then if k <= 1 then POST else if k <= 2 then PUT else v
    else if v == PROPPATCH then if k <= 1 then POST else if k <= 4 then PROPFIND else v
    else if v == UNSUBSCRIBE then if k <= 2 then UNLOCK else v
    else v
  }

  /** What the letter c makes of the guess g after k letters. */
  predicate GoesOnWith(g: Method, k: nat, c: char, next: Method)
    requires c < 256 as char
  {
    if k < |MethodText(g)| && MethodText(g)[k] == c then next == g
    else OtherVerb(g, k, c as int) == Some(next)
  }

  lemma GuessStays(v: Method, k: nat)
    requires k < |MethodText(v)| && MethodText(v)[k] < 256 as char && Guess(v, k) == v
    ensures GoesOnWith(Guess(v, k), k, MethodText(v)[k], Guess(v, k + 1))
  {
    hide MethodText, OtherVerb;
  }

  lemma ConnectTurns(v: Method)
    requires v in {CHECKOUT, COPY, MKACTIVITY, UNSUBSCRIBE, SEARCH}
    ensures |MethodText(v)| > 2 && MethodText(v)[1] < 256 as char && |MethodText(Guess(v, 1))| > 2
    ensures GoesOnWith(Guess(v, 1), 1, MethodText(v)[1], Guess(v, 2))
  {
  }

  lemma PostTurns(v: Method)
    requires v in {PROPFIND, PUT, PATCH, PURGE, PROPPATCH}
    ensures |MethodText(v)| > 2 && MethodText(v)[1] < 256 as char && |MethodText(Guess(v, 1))| > 2
    ensures GoesOnWith(Guess(v, 1), 1, MethodText(v)[1], Guess(v, 2))
  {
  }

  lemma MkcolTurns(v: Method)
    requires v in {MOVE, MERGE}
    ensures |MethodText(v)| > 2 && MethodText(v)[1] < 256 as char && |MethodText(Guess(v, 1))| > 2
    ensures GoesOnWith(Guess(v, 1), 1, MethodText(v)[1], Guess(v, 2))
  {
  }

  lemma GuessLater(v: Method, k: nat)
    requires v != MSEARCH && 2 <= k < |MethodText(v)| && MethodText(v)[k] < 256 as char && Guess(v, k) != v
    ensures GoesOnWith(Guess(v, k), k, MethodText(v)[k], Guess(v, k + 1)) && k <= |MethodText(Guess(v, k))|
  {
    assert v in {COPY, MKACTIVITY, PURGE, PROPPATCH, UNSUBSCRIBE} && k <= 4;
  }

  lemma GuessGoesOn(v: Method, k: nat)
    requires v != MSEARCH && 1 <= k < |MethodText(v)| && MethodText(v)[k] < 256 as char
    ensures GoesOnWith(Guess(v, k), k, MethodText(v)[k], Guess(v, k + 1))
    ensures Guess(v, k) != MSEARCH && k <= |MethodText(Guess(v, k))|
  {
    hide MethodText, OtherVerb, GoesOnWith;
    if Guess(v, k) == v {
      GuessStays(v, k);
    } else if k >= 2 {
      GuessLater(v, k);
    } else if v in {MOVE, MERGE} {
      MkcolTurns(v);
    } else if v in {PROPFIND, PUT, PATCH, PURGE, PROPPATCH} {
      PostTurns(v);
    } else {
      ConnectTurns(v);
    }
  }

  /** One letter of a method takes the parser to the next guess. */
  lemma GuessPass(p: Parser, v: Method)
    requires MidByte(p) && p.state.ReqMethod? && v != MSEARCH && 1 <= p.index < |MethodText(v)|
    requires p.verb == Guess(v, p.index) && MethodText(v)[p.index] < 256 as char
    ensures var r := PassMethod(p, MethodText(v)[p.index] as int);
            && r.control.Break? && r.notice.None? && r.parser == p.(verb := Guess(v, p.index + 1), index := p.index + 1)
  {
    GuessGoesOn(v, p.index);
    NoBlankInText(v, p.index);
    hide OtherVerb, StateOk, MethodText, Guess;
  }

  lemma CountedIsMidByte(p: Parser)
    requires Valid(p) && p.state.ReqMethod? && p.nread < MAX_HEADER_SIZE
    ensures MidByte(Count(p)) && Count(p) == p.(nread := p.nread + 1)
  {
  }

  lemma GuessStep(p: Parser, v: Method)
    requires Valid(p) && p.state.ReqMethod? && v != MSEARCH && 1 <= p.index < |MethodText(v)|
    requires p.verb == Guess(v, p.index) && p.nread < MAX_HEADER_SIZE
    ensures MethodText(v)[p.index] < 256 as char
    ensures var e := Step(p, MethodText(v)[p.index] as int);
            && e.status.Running? && e.atoms == []
            && e.parser == p.(verb := Guess(v, p.index + 1), index := p.index + 1, nread := p.nread + 1)
  {
    hide PassMethod, MethodText, Guess, StateOk;
    NoBlankInText(v, p.index);
    var q := Count(p);
    var ch := MethodText(v)[p.index] as int;
    assert MidByte(q) by {
      CountedIsMidByte(p);
    }
    GuessPass(q, v);
    assert Switch(q, ch) == PassMethod(q, ch);
    hide Switch;
  }

  /** The blank after the word. */
  lemma BlankStep(p: Parser)
    requires Valid(p) && p.state.ReqMethod? && p.index == |MethodText(p.verb)| && p.nread < MAX_HEADER_SIZE
    ensures var e := Step(p, SP);
            && e.status.Running? && e.atoms == []
            && e.parser == p.(state := ReqSpacesBeforeUrl, index := p.index + 1, nread := p.nread + 1)
  {
    var q := Count(p);
    assert Switch(q, SP) == PassMethod(q, SP);
    hide Switch, MethodText, StateOk;
  }

  lemma TextLength(v: Method)
    ensures 3 <= |MethodText(v)| <= 20
  {
  }

  lemma TextIsWord(v: Method)
    requires v != MSEARCH
    ensures Word(MethodText(v)) && 3 <= |MethodText(v)| <= 20
  {
    TextLength(v);
    forall i | 0 <= i < |MethodText(v)|
      ensures MethodText(v)[i] < 256 as char && MethodText(v)[i] != ' '
    {
      NoBlankInText(v, i);
    }
    hide MethodText;
  }

  lemma GuessAtTheEnd(v: Method)
    requires v != MSEARCH
    ensures Guess(v, |MethodText(v)|) == v
  {
    assert |MethodText(CHECKOUT)| > 4 && |MethodText(COPY)| > 2 && |MethodText(MOVE)| > 1 && |MethodText(MERGE)| > 1;
    assert |MethodText(MKACTIVITY)| > 4 && |MethodText(SEARCH)| > 4 && |MethodText(PROPFIND)| > 4 && |MethodText(PUT)| > 1;
    assert |MethodText(PATCH)| > 1 && |MethodText(PURGE)| > 2 && |MethodText(PROPPATCH)| > 4 && |MethodText(UNSUBSCRIBE)| > 4;
    hide MethodText;
  }

  lemma GuessAtFirst(v: Method)
    requires v != MSEARCH
    ensures |MethodText(v)| >= 1 && MethodText(v)[0] < 256 as char
    ensures FirstVerb(MethodText(v)[0] as int) == Some(Guess(v, 1))
  {
  }

  lemma {:induction false} GuessRun(p: Parser, v: Method)
    requires Valid(p) && p.state.ReqMethod? && v != MSEARCH && 1 <= p.index <= |MethodText(v)|
    requires p.verb == Guess(v, p.index) && p.nread + |MethodText(v)| - p.index < MAX_HEADER_SIZE
    ensures Word(MethodText(v)[p.index..])
    ensures var t := Run(p, Line(MethodText(v)[p.index..]));
            && t.status.Running? && t.atoms == []
            && t.parser == p.(state := ReqSpacesBeforeUrl, verb := v, index := |MethodText(v)| + 1,
               nread := p.nread + |MethodText(v)| - p.index + 1)
    decreases |MethodText(v)| - p.index
  {
    hide MethodText, Guess, Step, StateOk;
    TextIsWord(v);
    GuessAtTheEnd(v);
    var text, more := MethodText(v), MethodText(v)[p.index..];
    assert Word(more);
    if more == "" {
      assert Line(more) == [SP] && Line(more)[1..] == [];
      BlankStep(p);
    } else {
      GuessStep(p, v);
      LineTail(more);
      assert more[1..] == text[p.index + 1..] && more[0] == text[p.index];
      GuessRun(Step(p, more[0] as int).parser, v);
    }
  }

  /** The parser s, once the method v has been read. */
  function WithMethod(s: Parser, v: Method): Parser {
    var n := |MethodText(v)| + 1;
    s.(state := ReqSpacesBeforeUrl, index := n, nread := s.nread + n, contentLength := ULLONG_MAX, verb := v, flags := NO_FLAGS)
  }

  /** Every method of the table but the misspelled one is read, also behind another request. */
  lemma MethodIsRead(s: Parser, v: Method)
    requires Valid(s) && s.state.StartReq? && v != MSEARCH && s.nread + |MethodText(v)| < MAX_HEADER_SIZE
    ensures Word(MethodText(v))
    ensures var t := Run(s, Line(MethodText(v)));
            t.status.Running? && t.atoms == [Note(MessageBegin)] && t.parser == WithMethod(s, v)
  {
    hide MethodText, Guess, Step, StateOk;
    TextIsWord(v);
    var text := MethodText(v);
    FirstGuess(s, v);
    LineTail(text);
    assert text[0..] == text;
    GuessRun(Step(s, text[0] as int).parser, v);
  }

  /** From a fresh parser. */
  lemma EveryMethodIsRead(v: Method)
    requires v != MSEARCH
    ensures Word(MethodText(v))
    ensures var t, n := Run(Init(), Line(MethodText(v))), |MethodText(v)| + 1;
            && t.status.Running? && t.atoms == [Note(MessageBegin)]
            && t.parser == Parser(ReqSpacesBeforeUrl, General, n, n, ULLONG_MAX, 0, 0, v, NO_FLAGS, OK, false)
  {
    TextIsWord(v);
    FreshIsMidByte();
    hide MethodText, Step, StateOk;
    MethodIsRead(Init(), v);
  }

  lemma FirstGuess(s: Parser, v: Method)
    requires Valid(s) && s.state.StartReq? && v != MSEARCH && s.nread < MAX_HEADER_SIZE
    ensures Word(MethodText(v)) && MethodText(v) != ""
    ensures var e := Step(s, MethodText(v)[0] as int);
            && e.status.Running? && e.atoms == [Note(MessageBegin)] && Valid(e.parser)
            && e.parser == s.(state := ReqMethod, index := 1, nread := s.nread + 1, contentLength := ULLONG_MAX,
                              verb := Guess(v, 1), flags := NO_FLAGS)
  {
    hide StateOk, MethodText, FirstVerb, Guess;
    TextIsWord(v);
    GuessAtFirst(v);
    StartIsMidByte(s);
    var q := Count(s);
    var ch := MethodText(v)[0] as int;
    assert Switch(q, ch) == PassStart(q, ch);
    LetterIsAlpha(ch);
    hide Switch;
  }

  lemma StartIsMidByte(s: Parser)
    requires Valid(s) && s.state.StartReq? && s.nread < MAX_HEADER_SIZE
    ensures MidByte(Count(s)) && Count(s) == s.(nread := s.nread + 1)
  {
  }

  lemma FreshIsMidByte()
    ensures MidByte(Count(Init())) && Valid(Init())
  {
  }

  lemma LetterIsAlpha(ch: Byte)
    requires FirstVerb(ch).Some?
    ensures IsAlpha(ch) && ch != CR && ch != LF
  {
  }

  // ---------------------------------------------------------------- M-SEARCH

  /** The name by which a method is known; the table misspells one. */
  function ProperName(v: Method): string {
    if v == MSEARCH then "M-SEARCH" else MethodText(v)
  }

  lemma ProperNameIsWord(v: Method)
    ensures Word(ProperName(v))
  {
    if v != MSEARCH {
      TextIsWord(v);
    }
    hide MethodText;
  }

  /** After "M-" the table wants a second hyphen. */
  lemma MSearchGoesWrong(p: Parser)
    requires Valid(p) && p.state.ReqMethod? && p.verb == MSEARCH && p.index == 2
    ensures Step(p, 'S' as int).status.Failed?
  {
    var q := Count(p);
    if q.nread <= MAX_HEADER_SIZE {
      assert MidByte(q);
      assert Switch(q, 'S' as int) == PassMethod(q, 'S' as int);
      hide Switch, StateOk;
    }
  }

  lemma MSearchStarts()
    ensures var e := Step(Init(), 'M' as int);
            e.status.Running? && e.parser.state.ReqMethod? && e.parser.verb == MKCOL && e.parser.index == 1
            && e.parser.nread == 1
  {
    var q := Count(Init());
    assert MidByte(q) by {
      FreshIsMidByte();
    }
    assert Switch(q, 'M' as int) == PassStart(q, 'M' as int);
    hide Switch, StateOk;
  }

  lemma MSearchTurns(p: Parser)
    requires Valid(p) && p.state.ReqMethod? && p.verb == MKCOL && p.index == 1 && p.nread == 1
    ensures var e := Step(p, '-' as int);
            e.status.Running? && e.parser.state.ReqMethod? && e.parser.verb == MSEARCH && e.parser.index == 2
  {
    var q := Count(p);
    assert MidByte(q) by {
      CountedIsMidByte(p);
    }
    assert Switch(q, '-' as int) == PassMethod(q, '-' as int);
    hide Switch, StateOk;
  }

  /** The bytes "M-SEARCH " are refused. */
  lemma MSearchIsRefused()
    ensures Word("M-SEARCH") && Run(Init(), Line("M-SEARCH")).status.Failed?
  {
    hide Step, StateOk, MethodText;
    FreshIsMidByte();
    MSearchStarts();
    var a := Step(Init(), 'M' as int).parser;
    MSearchTurns(a);
    var b := Step(a, '-' as int).parser;
    MSearchGoesWrong(b);
    LineTail("M-SEARCH");
    LineTail("-SEARCH");
    LineTail("SEARCH");
    assert "M-SEARCH"[1..] == "-SEARCH" && "-SEARCH"[1..] == "SEARCH";
    assert Run(b, Line("SEARCH")).status.Failed?;
    assert Run(a, Line("-SEARCH")).status.Failed?;
  }

  /** A method is read from its proper name if and only if it is not M-SEARCH. */
  lemma ReadFromItsName(v: Method)
    ensures Word(ProperName(v))
    ensures var t := Run(Init(), Line(ProperName(v)));
            (t.status.Running? && t.parser.state == ReqSpacesBeforeUrl && t.parser.verb == v) <==> v != MSEARCH
  {
    ProperNameIsWord(v);
    hide MethodText, Run, Line;
    if v == MSEARCH {
      MSearchIsRefused();
    } else {
      EveryMethodIsRead(v);
    }
  }
}
