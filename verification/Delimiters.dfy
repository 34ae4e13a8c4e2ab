/** Text joined and split at one character. */
module Delimiters {

  function Join(parts: seq<string>, c: char): string {
    if parts == [] then "" else if |parts| == 1 then parts[0] else parts[0] + [c] + Join(parts[1..], c)
  }

  /** The parts between delimiters, never none. */
  function Split(s: string, c: char): (parts: seq<string>)
    ensures parts != []
  {
    if s == "" then [""]
    else
      var rest := Split(s[1..], c);
      if s[0] == c then [""] + rest else [[s[0]] + rest[0]] + rest[1..]
  }

  lemma {:induction false} SplitFirst(part: string, s: string, c: char)
    requires c !in part
    ensures Split(part + [c] + s, c) == [part] + Split(s, c)
  {
    if part == "" {
      assert part + [c] + s == [c] + s && ([c] + s)[1..] == s;
    } else {
      assert (part + [c] + s)[1..] == part[1..] + [c] + s;
      SplitFirst(part[1..], s, c);
      assert part == [part[0]] + part[1..];
    }
  }

  lemma {:induction false} SplitWhole(part: string, c: char)
    requires c !in part
    ensures Split(part, c) == [part]
  {
    if part != "" {
      SplitWhole(part[1..], c);
      assert part == [part[0]] + part[1..];
    }
  }

  /** Parts without the delimiter come back from their join. */
  lemma {:induction false} SplitJoin(parts: seq<string>, c: char)
    requires parts != [] && forall i :: 0 <= i < |parts| ==> c !in parts[i]
    ensures Split(Join(parts, c), c) == parts
  {
    if |parts| == 1 {
      SplitWhole(parts[0], c);
    } else {
      SplitFirst(parts[0], Join(parts[1..], c), c);
      SplitJoin(parts[1..], c);
    }
  }

  /** Splitting loses nothing, and no part holds the delimiter. */
  lemma {:induction false} JoinSplit(s: string, c: char)
    ensures Join(Split(s, c), c) == s
    ensures forall i :: 0 <= i < |Split(s, c)| ==> c !in Split(s, c)[i]
  {
    if s != "" {
      JoinSplit(s[1..], c);
      var parts, rest := Split(s, c), Split(s[1..], c);
      assert s == [s[0]] + s[1..];
      if s[0] == c {
        assert parts[1..] == rest;
        assert Join(parts, c) == "" + [c] + Join(rest, c);
      } else {
        assert parts[0] == [s[0]] + rest[0] && parts[1..] == rest[1..];
        assert Join(parts, c) == [s[0]] + Join(rest, c);
      }
    }
  }
}
