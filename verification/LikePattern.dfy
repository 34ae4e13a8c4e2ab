/**
 The visited test of the recursive query. The set of visited entities is carried as text,
 `|kind:id|kind:id|`, and tested with SQL LIKE, so wildcards and the escape character in an
 identifier change what the test means.
 */
module LikePattern {

  /** PostgreSQL LIKE: `%` is any run, `_` any one character, a backslash quotes the next one. */
  predicate Like(text: string, pattern: string)
    decreases |pattern|, |text|
  {
    if pattern == "" then text == ""
    else if pattern[0] == '%' then Like(text, pattern[1..]) || (text != "" && Like(text[1..], pattern))
    else if text == "" then false
    else if pattern[0] == '_' then Like(text[1..], pattern[1..])
    else if pattern[0] == '\\' && |pattern| > 1 then
      text[0] == pattern[1] && Like(text[1..], pattern[2..])
    else text[0] == pattern[0] && Like(text[1..], pattern[1..])
  }

  /** What `column.contains(value)` renders to when no escaping is asked for. */
  predicate Contains(text: string, value: string) {
    Like(text, "%" + value + "%")
  }

  ghost predicate OccursAt(text: string, value: string, k: int) {
    0 <= k && k + |value| <= |text| && text[k..k + |value|] == value
  }

  ghost predicate Occurs(text: string, value: string) {
    exists k :: OccursAt(text, value, k)
  }

  predicate Unescaped(value: string) { '\\' !in value }

  predicate Literal(value: string) { Unescaped(value) && '%' !in value && '_' !in value }

  lemma PercentMatchesAll(text: string)
    ensures Like(text, "%")
  {
    if text != "" { PercentMatchesAll(text[1..]); }
  }

  /** Without a backslash a value always matches its own text, wildcards or not. */
  lemma {:induction false} SelfPrefixMatches(value: string, rest: string)
    requires Unescaped(value)
    ensures Like(value + rest, value + "%")
    decreases |value|
  {
    if value == "" {
      assert value + rest == rest && value + "%" == "%";
      PercentMatchesAll(rest);
    } else {
      var text, pattern := value + rest, value + "%";
      SelfPrefixMatches(value[1..], rest);
      assert text[1..] == value[1..] + rest && pattern[1..] == value[1..] + "%";
      assert value[0] in value;
      assert Like(text[1..], pattern[1..]);
      if pattern[0] == '%' {
        assert Like(text[1..], pattern);
      }
    }
  }

  lemma {:induction false} LikeSkipsPrefix(text: string, pattern: string, k: nat)
    requires k <= |text| && pattern != "" && pattern[0] == '%'
    requires Like(text[k..], pattern[1..])
    ensures Like(text, pattern)
  {
    if k == 0 {
      assert text[0..] == text;
    } else {
      assert text[1..][k - 1..] == text[k..];
      LikeSkipsPrefix(text[1..], pattern, k - 1);
    }
  }

  lemma OccurrenceMatches(text: string, value: string)
    requires Unescaped(value) && Occurs(text, value)
    ensures Contains(text, value)
  {
    var k :| OccursAt(text, value, k);
    SelfPrefixMatches(value, text[k + |value|..]);
    assert text[k..] == value + text[k + |value|..];
    var pattern := "%" + value + "%";
    assert pattern[1..] == value + "%";
    LikeSkipsPrefix(text, pattern, k);
  }

  lemma {:induction false} LiteralPrefixOnly(text: string, value: string)
    requires Literal(value) && Like(text, value + "%")
    ensures value <= text
    decreases |value|
  {
    if value != "" {
      var pattern := value + "%";
      assert value[0] in value;
      assert pattern[1..] == value[1..] + "%";
      LiteralPrefixOnly(text[1..], value[1..]);
      assert text == [text[0]] + text[1..];
    }
  }

  lemma OccursShift(text: string, value: string, k: int)
    requires text != "" && OccursAt(text[1..], value, k)
    ensures OccursAt(text, value, k + 1)
  {
    assert text[k + 1..k + 1 + |value|] == text[1..][k..k + |value|];
  }

  lemma {:induction false} MatchOccurs(text: string, value: string)
    requires Literal(value) && Contains(text, value)
    ensures Occurs(text, value)
    decreases |text|
  {
    var pattern := "%" + value + "%";
    assert pattern[1..] == value + "%";
    if Like(text, pattern[1..]) {
      LiteralPrefixOnly(text, value);
      assert OccursAt(text, value, 0);
    } else {
      MatchOccurs(text[1..], value);
      var k :| OccursAt(text[1..], value, k);
      OccursShift(text, value, k);
    }
  }

  /** For values without wildcards or escapes `contains` is exactly the substring test. */
  lemma LiteralContainsIsSubstring(text: string, value: string)
    requires Literal(value)
    ensures Contains(text, value) <==> Occurs(text, value)
  {
    if Contains(text, value) { MatchOccurs(text, value); }
    if Occurs(text, value) { OccurrenceMatches(text, value); }
  }
}
