/** Escaping and reference tokens of RFC 6901, sections 3 and 4. */
module JsonPointer {
  import opened Ordering
  import opened Delimiters

  // ----- Escaping -----

  /** Every `c` becomes `with`, as `str.replace` does for one character. */
  function Replace(s: string, c: char, with: string): string {
    if s == "" then "" else (if s[0] == c then with else [s[0]]) + Replace(s[1..], c, with)
  }

  /** `part.replace("~", "~0").replace("/", "~1")`. */
  function Escape(part: string): string { Replace(Replace(part, '~', "~0"), '/', "~1") }

  /** Every pair `~c` becomes `to`, read from the left. */
  function ReplacePair(s: string, c: char, to: char): string {
    if s == "" then ""
    else if |s| >= 2 && s[0] == '~' && s[1] == c then [to] + ReplacePair(s[2..], c, to)
    else [s[0]] + ReplacePair(s[1..], c, to)
  }

  /** Section 4: first `~1` becomes `/`, then `~0` becomes `~`. */
  function Unescape(token: string): string { ReplacePair(ReplacePair(token, '1', '/'), '0', '~') }

  lemma {:induction false} ReplaceJoins(s: string, t: string, c: char, with: string)
    ensures Replace(s + t, c, with) == Replace(s, c, with) + Replace(t, c, with)
  {
    if s == "" {
      assert s + t == t;
    } else {
      assert (s + t)[1..] == s[1..] + t;
      ReplaceJoins(s[1..], t, c, with);
    }
  }

  /** Both replacements in one pass. */
  function EscapeChar(c: char): string { if c == '~' then "~0" else if c == '/' then "~1" else [c] }

  lemma EscapeFirst(part: string)
    requires part != ""
    ensures Escape(part) == EscapeChar(part[0]) + Escape(part[1..])
  {
    var head := if part[0] == '~' then "~0" else [part[0]];
    ReplaceJoins(head, Replace(part[1..], '~', "~0"), '/', "~1");
    if part[0] == '~' {
      assert head[1..] == "0" && head[1..][1..] == "";
      assert Replace("0", '/', "~1") == "0";
      assert Replace(head, '/', "~1") == "~0";
    } else {
      assert head[1..] == "";
    }
  }

  lemma {:induction false} SlashesFirst(part: string)
    ensures ReplacePair(Escape(part), '1', '/') == Replace(part, '~', "~0")
  {
    if part != "" {
      EscapeFirst(part);
      SlashesFirst(part[1..]);
      var e, rest := Escape(part), Escape(part[1..]);
      if part[0] == '/' {
        assert e[2..] == rest;
      } else if part[0] == '~' {
        assert e[1..] == "0" + rest && e[1..][1..] == rest;
      } else {
        assert e[1..] == rest;
      }
    }
  }

  lemma {:induction false} TildesLast(part: string)
    ensures ReplacePair(Replace(part, '~', "~0"), '0', '~') == part
  {
    if part != "" {
      TildesLast(part[1..]);
      var e, rest := Replace(part, '~', "~0"), Replace(part[1..], '~', "~0");
      if part[0] == '~' { assert e[2..] == rest; } else { assert e[1..] == rest; }
    }
  }

  /** Unescaping undoes escaping, and an escaped token holds no slash. */
  lemma EscapeRoundTrip(part: string)
    ensures Unescape(Escape(part)) == part
    ensures '/' !in Escape(part)
  {
    SlashesFirst(part);
    TildesLast(part);
    EscapedHasNoSlash(part);
  }

  lemma {:induction false} EscapedHasNoSlash(part: string)
    ensures '/' !in Escape(part)
  {
    if part != "" {
      EscapeFirst(part);
      EscapedHasNoSlash(part[1..]);
    }
  }

  // ----- Splitting into tokens -----

  function EscapeAll(path: seq<string>): (r: seq<string>)
    ensures |r| == |path| && forall i :: 0 <= i < |r| ==> r[i] == Escape(path[i])
  {
    seq(|path|, i requires 0 <= i < |path| => Escape(path[i]))
  }

  function UnescapeAll(tokens: seq<string>): (r: seq<string>)
    ensures |r| == |tokens| && forall i :: 0 <= i < |r| ==> r[i] == Unescape(tokens[i])
  {
    seq(|tokens|, i requires 0 <= i < |tokens| => Unescape(tokens[i]))
  }

  /** Section 3: a pointer is empty or a sequence of tokens each after a slash. */
  function Tokens(pointer: string): Option<seq<string>> {
    if pointer == "" then Some([])
    else if pointer[0] == '/' then Some(UnescapeAll(Split(pointer[1..], '/')))
    else None
  }

  /** The pointer the source writes for a path decodes back to it. */
  lemma PointerRoundTrip(path: seq<string>)
    requires path != []
    ensures Tokens("/" + Join(EscapeAll(path), '/')) == Some(path)
  {
    var parts := EscapeAll(path);
    forall i | 0 <= i < |path| ensures '/' !in parts[i] && Unescape(parts[i]) == path[i] {
      EscapeRoundTrip(path[i]);
    }
    SplitJoin(parts, '/');
    assert ("/" + Join(parts, '/'))[1..] == Join(parts, '/');
    assert UnescapeAll(parts) == path;
  }

  // ----- Array indices -----

  function Digit(d: nat): char
    requires d < 10
  {
    "0123456789"[d]
  }

  predicate IsDigit(c: char) { '0' <= c <= '9' }

  function DigitValue(c: char): nat
    requires IsDigit(c)
  {
    c as int - '0' as int
  }

  /** `str(index)`. */
  function Decimal(n: nat): (s: string)
    ensures s != "" && forall i :: 0 <= i < |s| ==> IsDigit(s[i])
  {
    if n < 10 then [Digit(n)] else Decimal(n / 10) + [Digit(n % 10)]
  }

  function Value(s: string): nat
    requires forall i :: 0 <= i < |s| ==> IsDigit(s[i])
  {
    if s == "" then 0 else 10 * Value(s[..|s| - 1]) + DigitValue(s[|s| - 1])
  }

  /** Section 4: an array index is digits without a leading zero. */
  function ArrayIndex(token: string): Option<nat> {
    if token != "" && (forall i :: 0 <= i < |token| ==> IsDigit(token[i])) && (|token| > 1 ==> token[0] != '0')
    then Some(Value(token))
    else None
  }

  lemma DigitRoundTrip(d: nat)
    requires d < 10
    ensures IsDigit(Digit(d)) && DigitValue(Digit(d)) == d
  {}

  lemma {:induction false} DecimalIsIndex(n: nat)
    ensures ArrayIndex(Decimal(n)) == Some(n)
    ensures n > 0 ==> Decimal(n)[0] != '0'
  {
    DigitRoundTrip(n % 10);
    if n < 10 {
      assert Decimal(n)[..0] == "";
      assert Value("") == 0;
    } else {
      DecimalIsIndex(n / 10);
      var s := Decimal(n);
      assert s[..|s| - 1] == Decimal(n / 10);
    }
  }

  lemma {:induction false} IndexIsDecimal(token: string)
    requires ArrayIndex(token).Some?
    ensures Decimal(ArrayIndex(token).value) == token
    ensures token[0] != '0' ==> Value(token) > 0
  {
    var last := |token| - 1;
    var d := DigitValue(token[last]);
    assert Digit(d) == token[last];
    if last == 0 {
      assert token[..0] == "" && Value("") == 0;
      assert token == [Digit(d)];
    } else {
      assert token[..last][0] == token[0];
      IndexIsDecimal(token[..last]);
      assert Value(token) / 10 == Value(token[..last]) && Value(token) % 10 == d;
      assert token == token[..last] + [token[last]];
    }
  }
}
