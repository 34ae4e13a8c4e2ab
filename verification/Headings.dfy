/** Heading paths of the candidates taken from Markdown tokens and from HTML elements. */
module Headings {
  import opened Ordering
  import opened BlankText

  datatype Heading = Heading(level: nat, title: string)

  // ----- The heading stack -----

  function Shallower(stack: seq<Heading>, level: nat): seq<Heading> {
    if stack == [] then []
    else Shallower(stack[..|stack| - 1], level)
         + if stack[|stack| - 1].level < level then [stack[|stack| - 1]] else []
  }

  /** Close every heading as deep as the new one or deeper, then open it. */
  function Opened(stack: seq<Heading>, h: Heading): seq<Heading> { Shallower(stack, h.level) + [h] }

  /** The stack once the headings have been read in order. */
  function Stack(hs: seq<Heading>): seq<Heading> {
    if hs == [] then [] else Opened(Stack(hs[..|hs| - 1]), hs[|hs| - 1])
  }

  /** Heading i encloses the place after the last heading: every later one is strictly deeper. */
  ghost predicate Encloses(hs: seq<Heading>, i: nat) {
    i < |hs| && forall j :: i < j < |hs| ==> hs[j].level > hs[i].level
  }

  /** The stack holds the headings at the places `at`. */
  ghost predicate TakenAt(hs: seq<Heading>, at: seq<nat>, stack: seq<Heading>) {
    && |at| == |stack| && (forall i, j :: 0 <= i < j < |at| ==> at[i] < at[j])
    && forall i :: 0 <= i < |at| ==> at[i] < |hs| && stack[i] == hs[at[i]]
  }

  lemma TakenMore(hs: seq<Heading>, at: seq<nat>, stack: seq<Heading>, i: nat)
    requires TakenAt(hs, at, stack) && i < |hs| && forall j :: j in at ==> j < i
    ensures TakenAt(hs, at + [i], stack + [hs[i]])
  {
    forall k | 0 <= k < |at| ensures at[k] < i { assert at[k] in at; }
  }

  lemma TakenLess(hs: seq<Heading>, most: seq<nat>, h: nat, stack: seq<Heading>)
    requires TakenAt(hs, most + [h], stack)
    ensures TakenAt(hs, most, stack[..|most|]) && h < |hs| && stack[|most|] == hs[h]
    ensures forall j :: j in most ==> j < h
  {
    var at := most + [h];
    assert at[|most|] == h && forall k :: 0 <= k < |most| ==> at[k] == most[k];
    forall k | 0 <= k < |most| ensures most[k] < h { assert at[k] < at[|most|]; }
  }

  lemma TakenFromMore(hs: seq<Heading>, n: nat, at: seq<nat>, stack: seq<Heading>)
    requires n <= |hs| && TakenAt(hs[..n], at, stack)
    ensures TakenAt(hs, at, stack)
    ensures forall i :: i in at ==> i < n
  {}

  lemma {:induction false} ShallowerTaken(hs: seq<Heading>, at: seq<nat>, stack: seq<Heading>, level: nat)
    returns (kept: seq<nat>)
    requires TakenAt(hs, at, stack)
    ensures TakenAt(hs, kept, Shallower(stack, level))
    ensures forall i: nat :: i in kept <==> i in at && i < |hs| && hs[i].level < level
  {
    if stack == [] {
      kept := [];
    } else {
      var last := |stack| - 1;
      var most, h := at[..last], at[last];
      assert at == most + [h];
      TakenLess(hs, most, h, stack);
      kept := ShallowerTaken(hs, most, stack[..last], level);
      if hs[h].level < level {
        TakenMore(hs, kept, Shallower(stack[..last], level), h);
        kept := kept + [h];
      } else {
        assert Shallower(stack, level) == Shallower(stack[..last], level);
      }
    }
  }

  /** The stack is exactly the enclosing headings, in order. */
  lemma {:induction false} StackIsEnclosing(hs: seq<Heading>) returns (at: seq<nat>)
    ensures TakenAt(hs, at, Stack(hs))
    ensures forall i: nat :: i in at <==> Encloses(hs, i)
  {
    if hs == [] {
      at := [];
    } else {
      var last := |hs| - 1;
      var before := StackIsEnclosing(hs[..last]);
      TakenFromMore(hs, last, before, Stack(hs[..last]));
      var kept := ShallowerTaken(hs, before, Stack(hs[..last]), hs[last].level);
      TakenMore(hs, kept, Shallower(Stack(hs[..last]), hs[last].level), last);
      at := kept + [last];
      forall i: nat ensures i in at <==> Encloses(hs, i) {
        assert i in at <==> i in kept || i == last;
        EnclosesOneMore(hs, i);
      }
    }
  }

  lemma EnclosesOneMore(hs: seq<Heading>, i: nat)
    requires hs != []
    ensures Encloses(hs, i) <==>
            i == |hs| - 1 || (Encloses(hs[..|hs| - 1], i) && hs[|hs| - 1].level > hs[i].level)
  {}

  /** Along a heading path levels strictly grow, and the path ends at the latest heading. */
  lemma PathLevelsGrow(hs: seq<Heading>)
    ensures forall i, j :: 0 <= i < j < |Stack(hs)| ==> Stack(hs)[i].level < Stack(hs)[j].level
    ensures hs != [] ==> Stack(hs) != [] && Stack(hs)[|Stack(hs)| - 1] == hs[|hs| - 1]
  {
    var at := StackIsEnclosing(hs);
    forall i, j | 0 <= i < j < |Stack(hs)| ensures Stack(hs)[i].level < Stack(hs)[j].level {
      assert at[i] in at;
      assert Encloses(hs, at[i]);
    }
  }

  function Titles(stack: seq<Heading>): (r: seq<string>)
    ensures |r| == |stack| && forall i :: 0 <= i < |r| ==> r[i] == stack[i].title
  {
    seq(|stack|, i requires 0 <= i < |stack| => stack[i].title)
  }

  datatype Kind = HeadingText | Section | CodeBlock | Table

  datatype Candidate = Candidate(kind: Kind, text: Option<string>, path: seq<string>, language: Option<string>)

  // ----- Markdown -----

  /** A parser token; `content` is the text of inline and fence tokens, `info` the text after a fence's marker. */
  datatype Token =
    | HeadingOpen(level: nat)
    | ParagraphOpen
    | Fence(body: string, info: string)
    | TableOpen
    | Other(text: string)

  datatype MarkdownError = NoFenceLanguage

  function Content(t: Token): string {
    match t
    case Fence(body, _) => body
    case Other(text) => text
    case _ => ""
  }

  /** The token opens a heading whose text token follows. */
  predicate OpensHeading(tokens: seq<Token>, i: nat)
    requires i < |tokens|
  {
    tokens[i].HeadingOpen? && i + 1 < |tokens|
  }

  function HeadingAt(tokens: seq<Token>, i: nat): Heading
    requires i < |tokens| && OpensHeading(tokens, i)
  {
    Heading(tokens[i].level, Strip(Content(tokens[i + 1])))
  }

  /** The headings among the first n tokens. */
  function HeadingsTo(tokens: seq<Token>, n: nat): seq<Heading>
    requires n <= |tokens|
  {
    if n == 0 then []
    else HeadingsTo(tokens, n - 1) + if OpensHeading(tokens, n - 1) then [HeadingAt(tokens, n - 1)] else []
  }

  predicate Emits(tokens: seq<Token>, i: nat)
    requires i < |tokens|
  {
    || OpensHeading(tokens, i) || (tokens[i].ParagraphOpen? && i + 1 < |tokens|)
    || tokens[i].Fence? || tokens[i].TableOpen?
  }

  /** The first word of a fence's info string. */
  function FirstWord(info: string): string
    requires !AllBlank(info)
  {
    Word(info[Leading(info)..])
  }

  function Word(s: string): string {
    if s == "" || Blank(s[0]) then "" else [s[0]] + Word(s[1..])
  }

  /** The first word: what stands between leading blanks and the next blank or the end. */
  lemma FirstWordIs(info: string)
    requires !AllBlank(info)
    ensures var lead, word := Leading(info), FirstWord(info);
            && AllBlank(info[..lead]) && word != "" && lead + |word| <= |info|
            && word == info[lead..lead + |word|] && (forall i :: 0 <= i < |word| ==> !Blank(word[i]))
            && (lead + |word| == |info| || Blank(info[lead + |word|]))
  {
    WordIs(info[Leading(info)..]);
  }

  lemma {:induction false} WordIs(s: string)
    ensures var word := Word(s);
            && word <= s && (forall i :: 0 <= i < |word| ==> !Blank(word[i]))
            && (|word| == |s| || Blank(s[|word|])) && (s != "" && !Blank(s[0]) ==> word != "")
  {
    if s != "" && !Blank(s[0]) { WordIs(s[1..]); }
  }

  /** The candidate of a token, under the headings that enclose it. */
  ghost predicate CandidateOf(tokens: seq<Token>, i: nat, c: Candidate)
    requires i < |tokens|
  {
    && Emits(tokens, i) && c.path == Titles(Stack(HeadingsTo(tokens, i + 1)))
    && match tokens[i]
       case HeadingOpen(_) =>
         c.kind == HeadingText && c.text == Some(Strip(Content(tokens[i + 1]))) && c.language == None
       case ParagraphOpen => c.kind == Section && c.text == Some(Content(tokens[i + 1])) && c.language == None
       case Fence(body, info) => c.kind == CodeBlock && c.text == Some(body) && !AllBlank(info)
                                 && c.language == Some(FirstWord(info))
       case TableOpen => c.kind == Table && c.text == None && c.language == None
       case Other(_) => false
  }

  /** Candidates come one for each emitting token at the places `at`, in order. */
  ghost predicate ExtractedTo(tokens: seq<Token>, n: nat, at: seq<nat>, cs: seq<Candidate>)
    requires n <= |tokens|
  {
    && |at| == |cs| && (forall i, j :: 0 <= i < j < |at| ==> at[i] < at[j])
    && (forall i :: 0 <= i < |at| ==> at[i] < n && CandidateOf(tokens, at[i], cs[i]))
    && (forall i :: 0 <= i < n && Emits(tokens, i) ==> i in at)
  }

  lemma ExtractedOneMore(tokens: seq<Token>, n: nat, at: seq<nat>, cs: seq<Candidate>, c: Candidate)
    requires n < |tokens| && ExtractedTo(tokens, n, at, cs) && CandidateOf(tokens, n, c)
    ensures ExtractedTo(tokens, n + 1, at + [n], cs + [c])
  {}

  lemma ExtractedNoMore(tokens: seq<Token>, n: nat, at: seq<nat>, cs: seq<Candidate>)
    requires n < |tokens| && ExtractedTo(tokens, n, at, cs) && !Emits(tokens, n)
    ensures ExtractedTo(tokens, n + 1, at, cs)
  {}

  /** A fence whose info string is blank has no first word. */
  ghost predicate NamelessFence(tokens: seq<Token>, i: nat) {
    i < |tokens| && tokens[i].Fence? && AllBlank(tokens[i].info)
  }

  ghost predicate NoneNameless(tokens: seq<Token>, n: nat) {
    forall i: nat :: i < n ==> !NamelessFence(tokens, i)
  }

  method ExtractMarkdown(tokens: seq<Token>) returns (r: Result<seq<Candidate>, MarkdownError>, ghost at: seq<nat>)
    ensures r.Ok? ==> ExtractedTo(tokens, |tokens|, at, r.value)
    ensures r.Err? <==> exists i: nat :: NamelessFence(tokens, i)
  {
    var failed, cs;
    failed, cs, at := ReadTokens(tokens);
    r := if failed then Err(NoFenceLanguage) else Ok(cs);
  }

  /** The loop over tokens. */
  method ReadTokens(tokens: seq<Token>) returns (failed: bool, cs: seq<Candidate>, ghost at: seq<nat>)
    ensures failed <==> !NoneNameless(tokens, |tokens|)
    ensures !failed ==> ExtractedTo(tokens, |tokens|, at, cs)
  {
    var stack: seq<Heading> := [];
    failed, cs, at := false, [], [];
    var index := 0;
    while index < |tokens| && !failed
      invariant 0 <= index <= |tokens| && (failed ==> !NoneNameless(tokens, |tokens|))
      invariant !failed ==> ReadSo(tokens, index, stack, cs, at)
      decreases |tokens| - index, !failed
    {
      failed, stack, cs, at := ReadNext(tokens, index, stack, cs, at);
      if !failed { index := index + 1; }
    }
  }

  ghost predicate ReadSo(tokens: seq<Token>, n: nat, stack: seq<Heading>, cs: seq<Candidate>, at: seq<nat>)
    requires n <= |tokens|
  {
    stack == Stack(HeadingsTo(tokens, n)) && ExtractedTo(tokens, n, at, cs) && NoneNameless(tokens, n)
  }

  method ReadNext(tokens: seq<Token>, index: nat, stack: seq<Heading>, cs: seq<Candidate>, ghost at: seq<nat>)
    returns (failed: bool, after: seq<Heading>, more: seq<Candidate>, ghost places: seq<nat>)
    requires index < |tokens| && ReadSo(tokens, index, stack, cs, at)
    ensures failed ==> !NoneNameless(tokens, |tokens|)
    ensures !failed ==> ReadSo(tokens, index + 1, after, more, places)
  {
    var emitted;
    failed, emitted, after := ReadToken(tokens, index, stack);
    more, places := cs, at;
    if !failed { more, places := Emit(tokens, index, at, cs, emitted); }
  }

  method Emit(tokens: seq<Token>, index: nat, ghost at: seq<nat>, cs: seq<Candidate>, emitted: Option<Candidate>)
    returns (more: seq<Candidate>, ghost places: seq<nat>)
    requires index < |tokens| && ExtractedTo(tokens, index, at, cs) && (emitted.Some? <==> Emits(tokens, index))
    requires emitted.Some? ==> CandidateOf(tokens, index, emitted.value)
    ensures ExtractedTo(tokens, index + 1, places, more)
  {
    more, places := cs, at;
    if emitted.Some? {
      ExtractedOneMore(tokens, index, at, cs, emitted.value);
      more, places := cs + [emitted.value], at + [index];
    } else {
      ExtractedNoMore(tokens, index, at, cs);
    }
  }

  lemma HeadingsOneMore(tokens: seq<Token>, i: nat)
    requires i < |tokens|
    ensures Stack(HeadingsTo(tokens, i + 1)) ==
            if OpensHeading(tokens, i) then Opened(Stack(HeadingsTo(tokens, i)), HeadingAt(tokens, i))
            else Stack(HeadingsTo(tokens, i))
  {
    var hs := HeadingsTo(tokens, i);
    if OpensHeading(tokens, i) {
      assert (hs + [HeadingAt(tokens, i)])[..|hs|] == hs;
    } else {
      assert HeadingsTo(tokens, i + 1) == hs;
    }
  }

  method ReadToken(tokens: seq<Token>, index: nat, stack: seq<Heading>)
    returns (failed: bool, emitted: Option<Candidate>, after: seq<Heading>)
    requires index < |tokens| && stack == Stack(HeadingsTo(tokens, index))
    ensures failed <==> NamelessFence(tokens, index)
    ensures !failed ==> after == Stack(HeadingsTo(tokens, index + 1)) && (emitted.Some? <==> Emits(tokens, index))
    ensures !failed && emitted.Some? ==> CandidateOf(tokens, index, emitted.value)
  {
    failed, emitted, after := false, None, stack;
    HeadingsOneMore(tokens, index);
    match tokens[index]
    case HeadingOpen(level) =>
      if index + 1 < |tokens| {
        var h := HeadingAt(tokens, index);
        after := Opened(stack, h);
        emitted := Some(Candidate(HeadingText, Some(h.title), Titles(after), None));
      }
    case ParagraphOpen =>
      if index + 1 < |tokens| {
        emitted := Some(Candidate(Section, Some(Content(tokens[index + 1])), Titles(stack), None));
      }
    case Fence(body, info) =>
      StripEmptyIff(info);
      if Strip(info) == "" { return true, None, stack; }
      emitted := Some(Candidate(CodeBlock, Some(body), Titles(stack), Some(FirstWord(info))));
    case TableOpen =>
      emitted := Some(Candidate(Table, None, Titles(stack), None));
    case Other(_) =>
  }

  // ----- HTML -----

  datatype Element = H(level: nat, title: string) | P(text: string) | Pre(text: string) | Tabular

  function ElementHeadings(es: seq<Element>, n: nat): seq<Heading>
    requires n <= |es|
  {
    if n == 0 then []
    else ElementHeadings(es, n - 1) + if es[n - 1].H? then [Heading(es[n - 1].level, es[n - 1].title)] else []
  }

  /** Every element gives one candidate, under the headings that enclose it. */
  ghost predicate ElementCandidate(es: seq<Element>, i: nat, c: Candidate)
    requires i < |es|
  {
    && c.path == Titles(Stack(ElementHeadings(es, i + 1))) && c.language == None
    && match es[i]
       case H(_, title) => c.kind == HeadingText && c.text == Some(title)
       case P(text) => c.kind == Section && c.text == Some(text)
       case Pre(text) => c.kind == CodeBlock && c.text == Some(text)
       case Tabular => c.kind == Table && c.text == None
  }

  method ExtractHtml(es: seq<Element>) returns (cs: seq<Candidate>)
    ensures |cs| == |es| && forall i :: 0 <= i < |es| ==> ElementCandidate(es, i, cs[i])
  {
    var stack: seq<Heading> := [];
    cs := [];
    for i := 0 to |es|
      invariant stack == Stack(ElementHeadings(es, i))
      invariant |cs| == i && forall j :: 0 <= j < i ==> ElementCandidate(es, j, cs[j])
    {
      var c;
      stack, c := ReadElement(es, i, stack);
      cs := cs + [c];
    }
  }

  lemma ElementHeadingsOneMore(es: seq<Element>, i: nat)
    requires i < |es|
    ensures Stack(ElementHeadings(es, i + 1)) ==
            if es[i].H? then Opened(Stack(ElementHeadings(es, i)), Heading(es[i].level, es[i].title))
            else Stack(ElementHeadings(es, i))
  {
    var hs := ElementHeadings(es, i);
    if es[i].H? {
      assert (hs + [Heading(es[i].level, es[i].title)])[..|hs|] == hs;
    } else {
      assert ElementHeadings(es, i + 1) == hs;
    }
  }

  method ReadElement(es: seq<Element>, i: nat, stack: seq<Heading>) returns (after: seq<Heading>, c: Candidate)
    requires i < |es| && stack == Stack(ElementHeadings(es, i))
    ensures after == Stack(ElementHeadings(es, i + 1)) && ElementCandidate(es, i, c)
  {
    after := stack;
    ElementHeadingsOneMore(es, i);
    match es[i]
    case H(level, title) =>
      after := Opened(stack, Heading(level, title));
      c := Candidate(HeadingText, Some(title), Titles(after), None);
    case P(text) => c := Candidate(Section, Some(text), Titles(stack), None);
    case Pre(text) => c := Candidate(CodeBlock, Some(text), Titles(stack), None);
    case Tabular => c := Candidate(Table, None, Titles(stack), None);
  }
}
