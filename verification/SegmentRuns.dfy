/** Lists of parts fenced by bars, `|a|b|c|`, and where one such text occurs in another. */
module SegmentRuns {
  import opened LikePattern
  import opened Delimiters

  function Fenced(parts: seq<string>): (text: string)
    ensures text != "" && text[0] == '|'
    ensures parts != [] ==> |text| >= 2
  {
    if parts == [] then "|" else ['|'] + (parts[0] + Fenced(parts[1..]))
  }

  predicate Barless(parts: seq<string>) { forall i :: 0 <= i < |parts| ==> '|' !in parts[i] }

  ghost predicate RunAt(run: seq<string>, all: seq<string>, i: int) {
    0 <= i && i + |run| <= |all| && all[i..i + |run|] == run
  }

  /** The parts stand next to each other somewhere in the list. */
  ghost predicate IsRun(run: seq<string>, all: seq<string>) {
    exists i :: RunAt(run, all, i)
  }

  lemma FencedStep(part: string, rest: seq<string>)
    ensures Fenced([part] + rest) == ['|'] + (part + Fenced(rest))
    ensures Fenced([part] + rest)[1..] == part + Fenced(rest)
  {
    assert ([part] + rest)[1..] == rest;
  }

  /** A split text between bars is its fenced parts. */
  lemma {:induction false} SplitFenced(s: string)
    ensures Fenced(Split(s, '|')) == ['|'] + (s + "|") && Barless(Split(s, '|'))
  {
    JoinSplit(s, '|');
    if s == "" {
      FencedStep("", []);
    } else {
      SplitFenced(s[1..]);
      SplitFencedStep(s, Split(s[1..], '|'));
    }
  }

  lemma SplitFencedStep(s: string, rest: seq<string>)
    requires s != "" && rest == Split(s[1..], '|') && Fenced(rest) == ['|'] + (s[1..] + "|")
    ensures Fenced(Split(s, '|')) == ['|'] + (s + "|")
  {
    assert rest == [rest[0]] + rest[1..];
    FencedStep(rest[0], rest[1..]);
    assert rest[0] + Fenced(rest[1..]) == s[1..] + "|";
    if s[0] == '|' {
      FencedStep("", rest);
      assert "" + Fenced(rest) == s + "|";
    } else {
      FencedStep([s[0]] + rest[0], rest[1..]);
      assert ([s[0]] + rest[0]) + Fenced(rest[1..]) == [s[0]] + (s[1..] + "|") == s + "|";
    }
  }

  lemma {:induction false} FencedAppend(before: seq<string>, after: seq<string>)
    ensures Fenced(before + after)[1..] == Fenced(before)[1..] + Fenced(after)[1..]
  {
    if before == [] {
      assert before + after == after;
    } else {
      var rest := before[1..];
      FencedAppend(rest, after);
      assert before + after == [before[0]] + (rest + after);
      FencedStep(before[0], rest + after);
      AppendedTails(before[0], Fenced(rest + after), Fenced(rest), Fenced(after));
    }
  }

  lemma AppendedTails(part: string, all: string, rest: string, after: string)
    requires all != "" && rest != "" && after != "" && all[0] == rest[0] && all[1..] == rest[1..] + after[1..]
    ensures part + all == (part + rest) + after[1..]
  {
    assert all == [all[0]] + all[1..] && rest == [rest[0]] + rest[1..];
  }

  lemma {:induction false} PrefixFenced(run: seq<string>, all: seq<string>)
    requires run <= all
    ensures Fenced(run) <= Fenced(all)
  {
    if run != [] {
      assert run[1..] <= all[1..];
      PrefixFenced(run[1..], all[1..]);
    }
  }

  lemma {:induction false} RunOccurs(run: seq<string>, all: seq<string>, i: nat)
    requires RunAt(run, all, i)
    ensures Occurs(Fenced(all), Fenced(run))
  {
    if i == 0 {
      PrefixFenced(run, all);
      assert OccursAt(Fenced(all), Fenced(run), 0);
    } else {
      assert all[1..][i - 1..i - 1 + |run|] == all[i..i + |run|];
      RunOccurs(run, all[1..], i - 1);
      var k :| OccursAt(Fenced(all[1..]), Fenced(run), k);
      assert Fenced(all) == ("|" + all[0]) + Fenced(all[1..]);
      OccursAfter("|" + all[0], Fenced(all[1..]), Fenced(run), k);
    }
  }

  lemma OccursAfter(head: string, text: string, value: string, k: int)
    ensures OccursAt(text, value, k) ==> OccursAt(head + text, value, |head| + k)
    ensures OccursAt(head + text, value, k) && |head| <= k ==> OccursAt(text, value, k - |head|)
  {
    var all := head + text;
    if OccursAt(text, value, k) { assert all[|head| + k..|head| + k + |value|] == text[k..k + |value|]; }
    if OccursAt(all, value, k) && |head| <= k { assert all[k..k + |value|] == text[k - |head|..k - |head| + |value|]; }
  }

  /** Barless parts that start alike and end at bars are equal. */
  lemma SameHead(a: string, b: string, s: string, t: string)
    requires '|' !in a && '|' !in b && s != "" && t != "" && s[0] == t[0] == '|'
    requires a + s <= b + t
    ensures a == b && s <= t
  {
    var x, y := a + s, b + t;
    assert x[|a|] == '|' && y[|b|] == '|';
    assert forall i :: 0 <= i < |a| ==> x[i] == a[i] && a[i] in a;
    assert forall i :: 0 <= i < |b| ==> y[i] == b[i] && b[i] in b;
    assert |a| == |b|;
    assert a == x[..|a|] == y[..|b|] == b;
    assert s == x[|a|..] && t == y[|b|..];
  }

  lemma {:induction false} FencedPrefix(run: seq<string>, all: seq<string>)
    requires Barless(run) && Barless(all) && Fenced(run) <= Fenced(all)
    ensures run <= all
  {
    if run != [] {
      assert all != [];
      var r, a := Fenced(run[1..]), Fenced(all[1..]);
      assert Fenced(run) == "|" + (run[0] + r) && Fenced(all) == "|" + (all[0] + a);
      assert run[0] + r == Fenced(run)[1..] && all[0] + a == Fenced(all)[1..];
      SameHead(run[0], all[0], r, a);
      FencedPrefix(run[1..], all[1..]);
      assert run == [run[0]] + run[1..] && all == [all[0]] + all[1..];
    }
  }

  lemma BarsStartParts(part: string, rest: string, k: nat)
    requires '|' !in part && 0 < k < 1 + |part| + |rest| && ("|" + part + rest)[k] == '|'
    ensures 1 + |part| <= k
  {
    assert forall i :: 0 < i < 1 + |part| ==> ("|" + part + rest)[i] == part[i - 1] && part[i - 1] in part;
  }

  lemma {:induction false} OccurrenceIsRun(run: seq<string>, all: seq<string>, k: int) returns (i: nat)
    requires run != [] && Barless(run) && Barless(all) && OccursAt(Fenced(all), Fenced(run), k)
    ensures RunAt(run, all, i)
  {
    if k == 0 {
      assert Fenced(run) <= Fenced(all);
      FencedPrefix(run, all);
      i := 0;
    } else {
      var head := "|" + all[0];
      assert Fenced(all) == head + Fenced(all[1..]);
      BarsStartParts(all[0], Fenced(all[1..]), k);
      OccursAfter(head, Fenced(all[1..]), Fenced(run), k);
      var j := OccurrenceIsRun(run, all[1..], k - |head|);
      i := j + 1;
      assert all[i..i + |run|] == all[1..][j..j + |run|];
    }
  }

  /** One fenced text occurs in another exactly where its parts stand next to each other. */
  lemma FencedOccursIff(run: seq<string>, all: seq<string>)
    requires run != [] && Barless(run) && Barless(all)
    ensures Occurs(Fenced(all), Fenced(run)) <==> IsRun(run, all)
  {
    if Occurs(Fenced(all), Fenced(run)) {
      var k :| OccursAt(Fenced(all), Fenced(run), k);
      var i := OccurrenceIsRun(run, all, k);
    }
    if i: nat :| RunAt(run, all, i) { RunOccurs(run, all, i); }
  }
}
