/** Grouping of text lines into paragraphs with line ranges. */
module Paragraphs {
  import opened BlankText

  /** Lines `first` to `last`, counted from one. */
  datatype Paragraph = Paragraph(first: nat, last: nat, lines: seq<string>)

  predicate BlankLine(line: string) { Strip(line) == "" }

  /** A paragraph is a maximal run of lines that are not blank. */
  ghost predicate MaximalRun(lines: seq<string>, p: Paragraph) {
    && 1 <= p.first <= p.last <= |lines| && p.lines == lines[p.first - 1..p.last]
    && (forall i :: p.first - 1 <= i < p.last ==> !BlankLine(lines[i]))
    && (p.first == 1 || BlankLine(lines[p.first - 2]))
    && (p.last == |lines| || BlankLine(lines[p.last]))
  }

  ghost predicate Covered(ps: seq<Paragraph>, i: nat) {
    exists k :: 0 <= k < |ps| && ps[k].first - 1 <= i < ps[k].last
  }

  ghost predicate InOrder(ps: seq<Paragraph>) {
    forall k, l :: 0 <= k < l < |ps| ==> ps[k].last + 1 < ps[l].first
  }

  /** The paragraphs of the lines before `start`, a place where none continues. */
  ghost predicate Closed(lines: seq<string>, start: nat, ps: seq<Paragraph>)
    requires start <= |lines|
  {
    && (forall k :: 0 <= k < |ps| ==> MaximalRun(lines, ps[k]) && ps[k].last < start)
    && InOrder(ps)
    && (forall i :: 0 <= i < start && !BlankLine(lines[i]) ==> Covered(ps, i))
    && (start > 0 ==> BlankLine(lines[start - 1]))
  }

  ghost predicate Open(lines: seq<string>, start: nat, n: nat)
    requires start <= n <= |lines|
  {
    forall i :: start <= i < n ==> !BlankLine(lines[i])
  }

  lemma BlockCovers(lines: seq<string>, ps: seq<Paragraph>, p: Paragraph, start: nat, n: nat)
    requires start < n <= |lines| && p.first == start + 1 && p.last == n
    requires forall i :: 0 <= i < start && !BlankLine(lines[i]) ==> Covered(ps, i)
    ensures forall i :: 0 <= i < n && !BlankLine(lines[i]) ==> Covered(ps + [p], i)
  {
    forall i | 0 <= i < n && !BlankLine(lines[i]) ensures Covered(ps + [p], i) {
      if i < start {
        var k :| 0 <= k < |ps| && ps[k].first - 1 <= i < ps[k].last;
        assert (ps + [p])[k] == ps[k];
      } else {
        assert (ps + [p])[|ps|] == p;
      }
    }
  }

  lemma BlockCloses(lines: seq<string>, start: nat, n: nat, ps: seq<Paragraph>, p: Paragraph)
    requires start < n <= |lines| && Closed(lines, start, ps) && Open(lines, start, n)
    requires n == |lines| || BlankLine(lines[n])
    requires p == Paragraph(start + 1, n, lines[start..n])
    ensures n < |lines| ==> Closed(lines, n + 1, ps + [p])
    ensures n == |lines| ==> IsGrouping(lines, ps + [p])
  {
    BlockCovers(lines, ps, p, start, n);
    assert MaximalRun(lines, p);
    BlockFollows(lines, start, ps, p);
  }

  lemma BlockFollows(lines: seq<string>, start: nat, ps: seq<Paragraph>, p: Paragraph)
    requires start < |lines| && Closed(lines, start, ps) && p.first == start + 1 <= p.last && MaximalRun(lines, p)
    ensures forall k :: 0 <= k < |ps| + 1 ==> MaximalRun(lines, (ps + [p])[k]) && (ps + [p])[k].last <= p.last
    ensures InOrder(ps + [p])
  {}

  /** The block being collected is lines `start` to n. */
  ghost predicate Reading(lines: seq<string>, n: nat, start: nat, ps: seq<Paragraph>, block: seq<string>,
                          blockStart: nat)
    requires n <= |lines|
  {
    && start <= n && Closed(lines, start, ps) && Open(lines, start, n)
    && block == lines[start..n] && (block != [] ==> blockStart == start + 1)
  }

  lemma TextRead(lines: seq<string>, n: nat, start: nat, ps: seq<Paragraph>, block: seq<string>, blockStart: nat)
    requires n < |lines| && Reading(lines, n, start, ps, block, blockStart) && !BlankLine(lines[n])
    ensures Reading(lines, n + 1, start, ps, block + [lines[n]], if block == [] then n + 1 else blockStart)
  {
    SliceOneMore(lines, start, n);
  }

  lemma SliceOneMore(lines: seq<string>, start: nat, n: nat)
    requires start <= n < |lines|
    ensures lines[start..n + 1] == lines[start..n] + [lines[n]]
  {}

  lemma BlankRead(lines: seq<string>, n: nat, start: nat, ps: seq<Paragraph>, block: seq<string>, blockStart: nat)
    requires n < |lines| && Reading(lines, n, start, ps, block, blockStart) && BlankLine(lines[n])
    ensures Reading(lines, n + 1, n + 1, if block == [] then ps else ps + [Paragraph(blockStart, n, block)], [],
                    blockStart)
  {
    if block != [] { BlockCloses(lines, start, n, ps, Paragraph(blockStart, n, block)); }
    assert lines[n + 1..n + 1] == [];
  }

  lemma LastBlock(lines: seq<string>, start: nat, ps: seq<Paragraph>, block: seq<string>, blockStart: nat)
    requires Reading(lines, |lines|, start, ps, block, blockStart)
    ensures IsGrouping(lines, if block == [] then ps else ps + [Paragraph(blockStart, |lines|, block)])
  {
    if block != [] { BlockCloses(lines, start, |lines|, ps, Paragraph(blockStart, |lines|, block)); }
  }

  method ReadLine(lines: seq<string>, n: nat, ghost start: nat, before: seq<Paragraph>, collected: seq<string>,
                  since: nat)
    returns (ghost next: nat, ps: seq<Paragraph>, block: seq<string>, blockStart: nat)
    requires n < |lines| && Reading(lines, n, start, before, collected, since)
    ensures Reading(lines, n + 1, next, ps, block, blockStart)
  {
    next, ps, block, blockStart := start, before, collected, since;
    if BlankLine(lines[n]) {
      BlankRead(lines, n, start, before, collected, since);
      if block != [] { ps := ps + [Paragraph(blockStart, n, block)]; }
      block, next := [], n + 1;
    } else {
      TextRead(lines, n, start, before, collected, since);
      if block == [] { blockStart := n + 1; }
      block := block + [lines[n]];
    }
  }

  /** `block` collects the lines of the open block. */
  method Group(lines: seq<string>) returns (ps: seq<Paragraph>)
    ensures IsGrouping(lines, ps)
  {
    ps := [];
    var block: seq<string> := [];
    ghost var start := 0;
    var blockStart := 0;
    for n := 0 to |lines|
      invariant Reading(lines, n, start, ps, block, blockStart)
    {
      start, ps, block, blockStart := ReadLine(lines, n, start, ps, block, blockStart);
    }
    LastBlock(lines, start, ps, block, blockStart);
    if block != [] { ps := ps + [Paragraph(blockStart, |lines|, block)]; }
  }

  /** Maximal runs in order, with every line that is not blank in one of them. */
  ghost predicate IsGrouping(lines: seq<string>, ps: seq<Paragraph>) {
    && (forall k :: 0 <= k < |ps| ==> MaximalRun(lines, ps[k]))
    && InOrder(ps)
    && (forall i :: 0 <= i < |lines| && !BlankLine(lines[i]) ==> Covered(ps, i))
  }

  /** Two maximal runs with a line in common are one. */
  lemma RunsAgree(lines: seq<string>, p: Paragraph, q: Paragraph, i: nat)
    requires MaximalRun(lines, p) && MaximalRun(lines, q)
    requires p.first - 1 <= i < p.last && q.first - 1 <= i < q.last
    ensures p == q
  {
    StaysInside(lines, p, q, i);
    StaysInside(lines, q, p, i);
  }

  lemma StaysInside(lines: seq<string>, p: Paragraph, q: Paragraph, i: nat)
    requires MaximalRun(lines, p) && MaximalRun(lines, q)
    requires p.first - 1 <= i < p.last && q.first - 1 <= i < q.last
    ensures p.first <= q.first && q.last <= p.last
  {
    if p.first > 1 {
      assert BlankLine(lines[p.first - 2]);
      assert !(q.first - 1 <= p.first - 2 < q.last);
    }
    if p.last < |lines| {
      assert BlankLine(lines[p.last]);
      assert !(q.first - 1 <= p.last < q.last);
    }
  }

  /** The paragraphs are exactly the maximal runs, each listed once. */
  lemma EveryRunOnce(lines: seq<string>, ps: seq<Paragraph>, p: Paragraph)
    requires IsGrouping(lines, ps)
    ensures MaximalRun(lines, p) <==> p in ps
    ensures forall k, l :: 0 <= k < l < |ps| ==> ps[k] != ps[l]
  {
    if MaximalRun(lines, p) {
      assert !BlankLine(lines[p.first - 1]);
      var k :| 0 <= k < |ps| && ps[k].first - 1 <= p.first - 1 < ps[k].last;
      RunsAgree(lines, p, ps[k], p.first - 1);
    }
  }
}
