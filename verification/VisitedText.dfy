/** The visited set of a traversal row, kept as delimited text, against true membership. */
module VisitedText {
  import opened LikePattern
  import opened Delimiters
  import opened SegmentRuns

  datatype Entity = Entity(kind: string, id: string)

  function Token(e: Entity): string { e.kind + ":" + e.id }

  function Needle(e: Entity): string { "|" + Token(e) + "|" }

  function Visited(es: seq<Entity>): string
    requires es != []
  {
    if |es| == 1 then Needle(es[0]) else Visited(es[..|es| - 1]) + Token(es[|es| - 1]) + "|"
  }

  /** The delimiters do not occur where they would be misread. */
  predicate Delimited(e: Entity) {
    '|' !in e.kind && '|' !in e.id && ':' !in e.kind
  }

  predicate LiteralEntity(e: Entity) { Literal(e.kind) && Literal(e.id) }

  predicate UnescapedEntity(e: Entity) { Unescaped(e.kind) && Unescaped(e.id) }

  lemma NeedleLiteral(e: Entity)
    ensures UnescapedEntity(e) ==> Unescaped(Needle(e))
    ensures LiteralEntity(e) ==> Literal(Needle(e))
  {}

  // ----- The visited text as a list of segments -----

  /** The parts between bars of an entity's text. */
  function Parts(e: Entity): seq<string> { Split(Token(e), '|') }

  function Segments(es: seq<Entity>): seq<string> {
    if es == [] then [] else Segments(es[..|es| - 1]) + Parts(es[|es| - 1])
  }

  lemma NeedleFenced(e: Entity)
    ensures Needle(e) == Fenced(Parts(e)) && Barless(Parts(e))
  {
    SplitFenced(Token(e));
    assert Needle(e) == ['|'] + (Token(e) + "|");
  }

  lemma {:induction false} VisitedFenced(es: seq<Entity>)
    requires es != []
    ensures Visited(es) == Fenced(Segments(es)) && Barless(Segments(es))
  {
    var last := es[|es| - 1];
    NeedleFenced(last);
    if |es| == 1 {
      assert Segments(es[..0]) == [] && Segments(es) == Parts(last);
    } else {
      VisitedFenced(es[..|es| - 1]);
      FencedAppend(Segments(es[..|es| - 1]), Parts(last));
      FencedJoins(Fenced(Segments(es)), Visited(es[..|es| - 1]), Token(last));
    }
  }

  lemma FencedJoins(all: string, before: string, token: string)
    requires all != "" && before != "" && all[0] == before[0]
    requires all[1..] == before[1..] + ("|" + token + "|")[1..]
    ensures all == before + token + "|"
  {
    assert ("|" + token + "|")[1..] == token + "|";
    assert all == [all[0]] + all[1..] && before == [before[0]] + before[1..];
  }

  /** The entity's parts stand next to each other in the visited segments. */
  ghost predicate TakenForVisited(es: seq<Entity>, e: Entity) { IsRun(Parts(e), Segments(es)) }

  lemma {:induction false} VisitedIsTaken(es: seq<Entity>, e: Entity)
    requires e in es
    ensures TakenForVisited(es, e)
  {
    var most, last := es[..|es| - 1], es[|es| - 1];
    if e == last {
      assert RunAt(Parts(e), Segments(es), |Segments(most)|);
    } else {
      VisitedIsTaken(most, e);
      var i :| RunAt(Parts(e), Segments(most), i);
      assert RunAt(Parts(e), Segments(es), i) by {
        assert Segments(es)[i..i + |Parts(e)|] == Segments(most)[i..i + |Parts(e)|];
      }
    }
  }

  lemma TakenOccursIff(es: seq<Entity>, e: Entity)
    requires es != []
    ensures Occurs(Visited(es), Needle(e)) <==> TakenForVisited(es, e)
  {
    VisitedFenced(es);
    NeedleFenced(e);
    FencedOccursIff(Parts(e), Segments(es));
  }

  /**
   What the visited test decides, for any entities on the list, whatever bars and colons they hold: an
   entity without wildcards and escapes passes for visited exactly where its parts stand in a row.
   */
  lemma VisitedTestDecides(es: seq<Entity>, e: Entity)
    requires es != [] && LiteralEntity(e)
    ensures Contains(Visited(es), Needle(e)) <==> TakenForVisited(es, e)
  {
    NeedleLiteral(e);
    LiteralContainsIsSubstring(Visited(es), Needle(e));
    TakenOccursIff(es, e);
  }

  lemma TokenInjective(e: Entity, f: Entity)
    requires Delimited(e) && Delimited(f) && Token(e) == Token(f)
    ensures e == f
  {
    var t := Token(e);
    assert t[|e.kind|] == ':' && t[|f.kind|] == ':';
    assert forall k :: 0 <= k < |e.kind| ==> t[k] == e.kind[k] && t[k] in e.kind;
    assert forall k :: 0 <= k < |f.kind| ==> t[k] == f.kind[k] && t[k] in f.kind;
    assert |e.kind| == |f.kind|;
    assert e.kind == t[..|e.kind|] == f.kind;
    assert e.id == t[|e.kind| + 1..] == f.id;
  }

  lemma TokenHasNoBar(e: Entity)
    requires Delimited(e)
    ensures '|' !in Token(e) && Parts(e) == [Token(e)]
  {
    SplitWhole(Token(e), '|');
  }

  lemma {:induction false} DelimitedSegments(es: seq<Entity>)
    requires forall f :: f in es ==> Delimited(f)
    ensures |Segments(es)| == |es| && forall i :: 0 <= i < |es| ==> Segments(es)[i] == Token(es[i])
  {
    if es != [] {
      DelimitedSegments(es[..|es| - 1]);
      TokenHasNoBar(es[|es| - 1]);
    }
  }

  /** Cycle safety needs only that no identifier holds the escape character. */
  lemma VisitedAlwaysSkipped(es: seq<Entity>, e: Entity)
    requires es != [] && e in es && UnescapedEntity(e)
    ensures Contains(Visited(es), Needle(e))
  {
    VisitedIsTaken(es, e);
    TakenOccursIff(es, e);
    NeedleLiteral(e);
    OccurrenceMatches(Visited(es), Needle(e));
  }

  lemma VisitedTestExact(es: seq<Entity>, e: Entity)
    requires es != [] && forall f :: f in es ==> Delimited(f)
    requires Delimited(e) && LiteralEntity(e)
    ensures Contains(Visited(es), Needle(e)) <==> e in es
  {
    VisitedTestDecides(es, e);
    DelimitedSegments(es);
    TokenHasNoBar(e);
    if i :| RunAt(Parts(e), Segments(es), i) {
      assert Segments(es)[i] == Segments(es)[i..i + 1][0];
      TokenInjective(e, es[i]);
    }
    if e in es { VisitedIsTaken(es, e); }
  }

  /** One text other than the value itself that the value matches when read as a pattern. */
  function Instance(value: string): string {
    if value == "" then ""
    else if value[0] == '%' then Instance(value[1..])
    else if value[0] == '_' then ['x'] + Instance(value[1..])
    else if value[0] == '\\' then
      if |value| == 1 then "" else [value[1]] + Instance(value[2..])
    else [value[0]] + Instance(value[1..])
  }

  lemma {:induction false} InstanceDiffers(value: string)
    ensures |Instance(value)| <= |value|
    ensures forall c :: c in Instance(value) ==> c in value || c == 'x'
    ensures Instance(value) == value <==> Literal(value)
    decreases |value|
  {
    if value != "" {
      var rest := if value[0] == '\\' && |value| > 1 then value[2..] else value[1..];
      InstanceDiffers(rest);
      assert value == [value[0]] + value[1..];
      if value[0] == '\\' && |value| > 1 {
        assert value == [value[0], value[1]] + value[2..];
      } else if value[0] != '%' && value[0] != '_' && value[0] != '\\' {
        assert Instance(value)[1..] == Instance(rest);
      } else if value[0] == '_' {
        assert Instance(value)[0] == 'x';
      }
    }
  }

  lemma QuotedStep(c: char, text: string, pattern: string)
    requires Like(text, pattern)
    ensures Like([c] + text, ['\\', c] + pattern)
  {
    var t, p := [c] + text, ['\\', c] + pattern;
    assert t[1..] == text && p[2..] == pattern;
  }

  lemma PlainStep(c: char, d: char, text: string, pattern: string)
    requires Like(text, pattern) && c != '%' && c != '\\' && (c == d || c == '_')
    ensures Like([d] + text, [c] + pattern)
  {
    var t, p := [d] + text, [c] + pattern;
    assert t[1..] == text && p[1..] == pattern;
  }

  lemma PercentStep(text: string, pattern: string)
    requires Like(text, pattern)
    ensures Like(text, "%" + pattern)
  {
    assert ("%" + pattern)[1..] == pattern;
  }

  lemma Regrouped(head: string, tail: string, rest: string)
    ensures (head + tail) + rest == head + (tail + rest)
  {}

  lemma {:induction false} InstanceMatches(value: string, text: string, pattern: string)
    requires Like(text, pattern) && pattern != "" && pattern[0] !in "%_\\"
    ensures Like(Instance(value) + text, value + pattern)
    decreases |value|
  {
    if value == "" {
      assert Instance(value) + text == text && value + pattern == pattern;
    } else if value == "\\" {
      assert Instance(value) + text == text;
      BackslashBefore(text, pattern);
    } else if value[0] == '\\' {
      var head, tail := value[..2], value[2..];
      InstanceMatches(tail, text, pattern);
      QuotedStep(value[1], Instance(tail) + text, tail + pattern);
      assert head == ['\\', value[1]] && value == head + tail;
      Regrouped(head, tail, pattern);
      Regrouped([value[1]], Instance(tail), text);
    } else {
      var head, tail := value[..1], value[1..];
      InstanceMatches(tail, text, pattern);
      StepBefore(value[0], Instance(tail) + text, tail + pattern);
      assert head == [value[0]] && value == head + tail;
      Regrouped(head, tail, pattern);
      if value[0] != '%' {
        Regrouped([if value[0] == '_' then 'x' else value[0]], Instance(tail), text);
      }
    }
  }

  lemma StepBefore(c: char, text: string, pattern: string)
    requires Like(text, pattern) && c != '\\'
    ensures Like((if c == '%' then "" else if c == '_' then "x" else [c]) + text, [c] + pattern)
  {
    if c == '%' {
      PercentStep(text, pattern);
      assert "" + text == text && [c] == "%";
    } else {
      PlainStep(c, if c == '_' then 'x' else c, text, pattern);
      assert ['x'] == "x";
    }
  }

  /** A trailing backslash quotes the character after it, which here stands for itself anyway. */
  lemma BackslashBefore(text: string, pattern: string)
    requires Like(text, pattern) && pattern != "" && pattern[0] !in "%_\\"
    ensures Like(text, "\\" + pattern)
  {
    var p := "\\" + pattern;
    assert p[1] == pattern[0] && p[2..] == pattern[1..];
  }

  /** On lists of delimited entities the test decides whether the entity is on the list. */
  ghost predicate TellsAmongDelimited(e: Entity) {
    forall es: seq<Entity> :: es != [] && (forall f :: f in es ==> Delimited(f)) ==>
      (Contains(Visited(es), Needle(e)) <==> e in es)
  }

  /**
   Among delimited entities the test decides membership for one of them exactly when its type and
   id hold no LIKE wildcard and no escape character.
   */
  lemma VisitedTestExactness(e: Entity)
    requires Delimited(e)
    ensures TellsAmongDelimited(e) <==> LiteralEntity(e)
  {
    if LiteralEntity(e) {
      forall es: seq<Entity> | es != [] && forall f :: f in es ==> Delimited(f)
        ensures Contains(Visited(es), Needle(e)) <==> e in es
      {
        VisitedTestExact(es, e);
      }
    } else {
      var other := Entity(Instance(e.kind), Instance(e.id));
      InstanceDiffers(e.kind);
      InstanceDiffers(e.id);
      assert other != e && Delimited(other);
      InstanceText(e);
      var es := [other];
      assert Visited(es) == Needle(other);
      assert Contains(Visited(es), Needle(e)) && e !in es;
    }
  }

  lemma InstanceText(e: Entity)
    ensures Contains(Needle(Entity(Instance(e.kind), Instance(e.id))), Needle(e))
  {
    PercentMatchesAll("");
    PlainStep('|', '|', "", "%");
    assert ['|'] + "" == "|" && ['|'] + "%" == "|%";
    InstanceMatches(e.id, "|", "|%");
    var text1, tail1 := [':'] + (Instance(e.id) + "|"), [':'] + (e.id + "|%");
    PlainStep(':', ':', Instance(e.id) + "|", e.id + "|%");
    InstanceMatches(e.kind, text1, tail1);
    var text2, tail2 := ['|'] + (Instance(e.kind) + text1), ['|'] + (e.kind + tail1);
    PlainStep('|', '|', Instance(e.kind) + text1, e.kind + tail1);
    PercentStep(text2, tail2);
    NeedleShape(e.kind, e.id);
    NeedleShape(Instance(e.kind), Instance(e.id));
  }

  lemma NeedleShape(kind: string, id: string)
    ensures Needle(Entity(kind, id)) == ['|'] + (kind + ([':'] + (id + "|")))
    ensures "%" + Needle(Entity(kind, id)) + "%" == "%" + (['|'] + (kind + ([':'] + (id + "|%"))))
  {
    assert "|%" == "|" + "%";
  }

  // ----- Escapes -----

  /** No wildcard, and the last character quotes nothing. */
  predicate Closed(value: string) {
    '%' !in value && '_' !in value && (value != "" ==> value[|value| - 1] == '|')
  }

  lemma ClosedRest(value: string, n: nat)
    requires Closed(value) && n <= |value|
    ensures Closed(value[n..])
  {
    forall c | c in value[n..] ensures c in value {
      var i :| 0 <= i < |value[n..]| && value[n..][i] == c;
      assert value[n + i] == c;
    }
    assert n < |value| ==> value[n..][|value| - n - 1] == value[|value| - 1];
  }

  lemma {:induction false} QuotedPrefixOnly(text: string, value: string)
    requires Closed(value) && Like(text, value + "%")
    ensures Instance(value) <= text
    decreases |value|
  {
    if value != "" {
      var pattern := value + "%";
      var n := if value[0] == '\\' then 2 else 1;
      assert value[0] in value && (n == 2 ==> |value| >= 2);
      assert pattern[n..] == value[n..] + "%";
      ClosedRest(value, n);
      QuotedPrefixOnly(text[1..], value[n..]);
      assert text == [text[0]] + text[1..];
    }
  }

  lemma {:induction false} QuotedOccurs(text: string, value: string)
    requires Closed(value) && Contains(text, value)
    ensures Occurs(text, Instance(value))
    decreases |text|
  {
    var pattern := "%" + value + "%";
    assert pattern[1..] == value + "%";
    if Like(text, pattern[1..]) {
      QuotedPrefixOnly(text, value);
      assert OccursAt(text, Instance(value), 0);
    } else {
      QuotedOccurs(text[1..], value);
      var k :| OccursAt(text[1..], Instance(value), k);
      OccursShift(text, Instance(value), k);
    }
  }

  lemma {:induction false} InstanceEnds(value: string)
    requires Closed(value) && value != ""
    ensures Instance(value) != "" && Instance(value)[|Instance(value)| - 1] == '|'
    decreases |value|
  {
    var n := if value[0] == '\\' then 2 else 1;
    assert value[0] in value && (n == 2 ==> |value| >= 2);
    if |value| > n {
      ClosedRest(value, n);
      InstanceEnds(value[n..]);
    }
  }

  lemma NeedleInstanceBars(e: Entity)
    requires '%' !in Token(e) && '_' !in Token(e)
    ensures Closed(Needle(e)) && |Instance(Needle(e))| >= 2
    ensures Instance(Needle(e))[0] == '|' && Instance(Needle(e))[|Instance(Needle(e))| - 1] == '|'
  {
    var rest := Token(e) + "|";
    assert Needle(e) == "|" + rest && Needle(e)[1..] == rest;
    InstanceEnds(rest);
    assert Instance(Needle(e)) == ['|'] + Instance(rest);
  }

  lemma FoundMeansUnescaped(e: Entity)
    requires Delimited(e) && '%' !in Token(e) && '_' !in Token(e) && Contains(Needle(e), Needle(e))
    ensures UnescapedEntity(e)
  {
    var needle := Needle(e);
    NeedleInstanceBars(e);
    QuotedOccurs(needle, needle);
    var k :| OccursAt(needle, Instance(needle), k);
    TokenHasNoBar(e);
    BarsAtEnds(Token(e), Instance(needle), k);
    InstanceDiffers(needle);
    LiteralNeedle(e);
  }

  lemma LiteralNeedle(e: Entity)
    requires Literal(Needle(e))
    ensures UnescapedEntity(e)
  {
    assert forall c :: c in e.kind || c in e.id ==> c in Needle(e);
  }

  /** However it came to be visited, the entity is found again. */
  ghost predicate AlwaysFoundAgain(e: Entity) {
    forall es: seq<Entity> :: e in es ==> es != [] && Contains(Visited(es), Needle(e))
  }

  /**
   Where there are no wildcards, a visited entity is always found again if and only if it holds no escape
   character.
   */
  lemma VisitedFoundAgainIff(e: Entity)
    requires Delimited(e) && '%' !in Token(e) && '_' !in Token(e)
    ensures AlwaysFoundAgain(e) <==> UnescapedEntity(e)
  {
    if UnescapedEntity(e) {
      forall es: seq<Entity> | e in es ensures es != [] && Contains(Visited(es), Needle(e)) {
        VisitedAlwaysSkipped(es, e);
      }
    }
    if AlwaysFoundAgain(e) {
      assert e in [e] && Visited([e]) == Needle(e);
      FoundMeansUnescaped(e);
    }
  }

  lemma BarsAtEnds(token: string, text: string, k: int)
    requires '|' !in token && OccursAt("|" + token + "|", text, k)
    requires |text| >= 2 && text[0] == '|' && text[|text| - 1] == '|'
    ensures text == "|" + token + "|"
  {
    var whole := "|" + token + "|";
    assert whole[k] == text[0] && whole[k + |text| - 1] == text[|text| - 1];
    assert forall i :: 0 < i < |whole| - 1 ==> whole[i] == token[i - 1] && whole[i] in token;
    assert whole[k..k + |text|] == whole;
  }

  // ----- Delimiters inside identifiers -----

  /** A part between bars that no delimited entity's token can equal. */
  ghost predicate HasBareSegment(e: Entity) {
    exists i :: 0 <= i < |Parts(e)| && ':' !in Parts(e)[i]
  }

  lemma TokenHasColon(e: Entity)
    ensures ':' in Token(e)
  {
    assert Token(e)[|e.kind|] == ':';
  }

  /** A bare segment keeps an entity from being taken for visited where all that was visited is delimited. */
  lemma BareSegmentNeverMatches(e: Entity, es: seq<Entity>)
    requires HasBareSegment(e) && es != [] && forall f :: f in es ==> Delimited(f)
    ensures !TakenForVisited(es, e)
  {
    var run, all := Parts(e), Segments(es);
    var j :| 0 <= j < |run| && ':' !in run[j];
    DelimitedSegments(es);
    forall i ensures !RunAt(run, all, i) {
      if 0 <= i && i + |run| <= |all| {
        TokenHasColon(es[i + j]);
        assert all[i..i + |run|][j] == all[i + j] != run[j];
      }
    }
  }

  /** The delimited entity with a given token: its type ends at the first colon. */
  lemma EntityOfToken(token: string) returns (e: Entity)
    requires '|' !in token && ':' in token
    ensures Delimited(e) && Token(e) == token
  {
    var n := 0;
    while token[n] != ':'
      invariant n < |token| && ':' !in token[..n]
      decreases |token| - n
    {
      assert n + 1 < |token| by { assert token == token[..n] + [token[n]] + token[n + 1..]; }
      assert token[..n + 1] == token[..n] + [token[n]];
      n := n + 1;
    }
    e := Entity(token[..n], token[n + 1..]);
    assert token == token[..n] + [token[n]] + token[n + 1..];
  }

  lemma {:induction false} EntitiesOfTokens(tokens: seq<string>) returns (es: seq<Entity>)
    requires forall i :: 0 <= i < |tokens| ==> '|' !in tokens[i] && ':' in tokens[i]
    ensures |es| == |tokens| && forall i :: 0 <= i < |es| ==> Delimited(es[i]) && Token(es[i]) == tokens[i]
  {
    if tokens == [] {
      es := [];
    } else {
      var first := EntityOfToken(tokens[0]);
      var rest := EntitiesOfTokens(tokens[1..]);
      es := [first] + rest;
    }
  }

  /**
   For an entity without wildcards and escapes the test decides membership among delimited entities if
   and only if the entity is delimited, or some part of its text between bars holds no colon.
   */
  lemma LiteralTestExactness(e: Entity)
    requires LiteralEntity(e)
    ensures TellsAmongDelimited(e) <==> Delimited(e) || HasBareSegment(e)
  {
    if Delimited(e) {
      VisitedTestExactness(e);
    } else if HasBareSegment(e) {
      forall es: seq<Entity> | es != [] && forall f :: f in es ==> Delimited(f)
        ensures Contains(Visited(es), Needle(e)) <==> e in es
      {
        VisitedTestDecides(es, e);
        BareSegmentNeverMatches(e, es);
      }
    } else {
      NeedleFenced(e);
      var es := EntitiesOfTokens(Parts(e));
      DelimitedSegments(es);
      assert RunAt(Parts(e), Segments(es), 0);
      VisitedTestDecides(es, e);
      assert e !in es;
    }
  }

  lemma OccursMatches(es: seq<Entity>, e: Entity, k: nat)
    requires es != [] && LiteralEntity(e) && OccursAt(Visited(es), Needle(e), k)
    ensures Contains(Visited(es), Needle(e))
  {
    NeedleLiteral(e);
    OccurrenceMatches(Visited(es), Needle(e));
  }

  /** What stands behind a bar in a visited id looks visited. */
  lemma BehindBarMatches(f: Entity, head: string, e: Entity)
    requires LiteralEntity(e) && f.id == head + "|" + Token(e)
    ensures Contains(Visited([f]), Needle(e)) && e != f
  {
    var before := "|" + f.kind + ":" + head;
    assert Visited([f]) == before + Needle(e);
    OccursMatches([f], e, |before|);
    assert |f.id| > |e.id|;
  }

  /** So does what stands before one. */
  lemma BeforeBarMatches(f: Entity, e: Entity, tail: string)
    requires LiteralEntity(e) && f == Entity(e.kind, e.id + "|" + tail)
    ensures Contains(Visited([f]), Needle(e)) && e != f
  {
    assert Visited([f]) == Needle(e) + tail + "|";
    OccursMatches([f], e, 0);
    assert |f.id| > |e.id|;
  }

  /** Not confined to delimited entities, the test is membership for no entity: some list it is not on contains it. */
  lemma EveryEntityMisread(e: Entity) returns (es: seq<Entity>)
    ensures es != [] && e !in es && Contains(Visited(es), Needle(e))
  {
    if LiteralEntity(e) {
      var f := Entity("", "" + "|" + Token(e));
      BehindBarMatches(f, "", e);
      es := [f];
    } else {
      var other := Entity(Instance(e.kind), Instance(e.id));
      InstanceDiffers(e.kind);
      InstanceDiffers(e.id);
      InstanceText(e);
      es := [other];
    }
  }

  // ----- Concrete misreadings -----

  /** A bar inside an id splits it into what looks like two visited entities. */
  lemma BarInIdentifierMisread()
    ensures var e := Entity("fact", "a|fact:b");
            var es := [Entity("fact", "a"), Entity("fact", "b")];
            LiteralEntity(e) && Contains(Visited(es), Needle(e)) && e !in es
  {
    var e := Entity("fact", "a|fact:b");
    var es := [Entity("fact", "a"), Entity("fact", "b")];
    assert es[..1] == [Entity("fact", "a")];
    assert Visited(es) == Needle(Entity("fact", "a")) + "fact:b" + "|" == Needle(e);
    OccursMatches(es, e, 0);
  }

  /** A bar inside the id of a visited entity hides a delimited one that was not visited. */
  lemma VisitedBarMisread()
    ensures var e, f := Entity("fact", "b"), Entity("fact", "a|fact:b");
            Delimited(e) && LiteralEntity(e) && Contains(Visited([f]), Needle(e)) && e !in [f]
  {
    var e, f := Entity("fact", "b"), Entity("fact", "a|fact:b");
    assert f.id == "a" + "|" + Token(e);
    BehindBarMatches(f, "a", e);
  }

  /** So does a colon inside the type of a visited entity. */
  lemma VisitedColonMisread()
    ensures var e, f := Entity("a", "b:c"), Entity("a:b", "c");
            Delimited(e) && LiteralEntity(e) && Contains(Visited([f]), Needle(e)) && e !in [f]
  {
    var e, f := Entity("a", "b:c"), Entity("a:b", "c");
    assert Needle(e) == "|a:b:c|" == Needle(f) == Visited([f]);
    OccursMatches([f], e, 0);
  }

  lemma BareTail(e: Entity, head: string, tail: string)
    requires Token(e) == head + ['|'] + tail && '|' !in head && '|' !in tail && ':' !in tail
    ensures HasBareSegment(e)
  {
    SplitFirst(head, tail, '|');
    SplitWhole(tail, '|');
    assert Parts(e)[1] == tail;
  }

  /**
   A bare segment protects an entity among delimited ones only: `a|b` is taken for visited where
   `a|b|c` of the same type was.
   */
  lemma BareSegmentMisread(kind: string, a: string, b: string, c: string)
    requires Literal(kind) && Literal(a) && Literal(b)
    requires '|' !in kind && '|' !in a && '|' !in b && ':' !in b
    ensures var e, f := Entity(kind, a + "|" + b), Entity(kind, a + "|" + b + "|" + c);
            HasBareSegment(e) && LiteralEntity(e) && Contains(Visited([f]), Needle(e)) && e !in [f]
  {
    var e, f := Entity(kind, a + "|" + b), Entity(kind, a + "|" + b + "|" + c);
    assert Token(e) == (kind + ":" + a) + ['|'] + b;
    BareTail(e, kind + ":" + a, b);
    BeforeBarMatches(f, e, c);
  }
}
