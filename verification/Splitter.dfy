/** Splitting sanitized text into overlapping windows of bounded size. */
module Splitter {
  import opened Ordering
  import opened BlankText

  // ----- Settings -----

  datatype Tool = Tool(enabled: bool, chunkSize: Option<int>, overlap: Option<int>)

  datatype Settings = Settings(size: int, overlap: int)

  const DEFAULT_SIZE := 1200
  const DEFAULT_OVERLAP := 120

  predicate Usable(s: Settings) { s.size >= 1 && s.overlap >= 0 }

  /** `value or default`: an absent option and a zero both give the default. */
  function OrDefault(option: Option<int>, default: int): int {
    if option.None? || option.value == 0 then default else option.value
  }

  /** An option that is there and not zero counts, but not below the least value; otherwise the default does. */
  function Chosen(option: Option<int>, default: int, least: int): int {
    match option
    case None => default
    case Some(value) => if value == 0 then default else if value < least then least else value
  }

  function Max(a: int, b: int): int { if a >= b then a else b }

  predicate Configures(t: Tool) { t.enabled && (t.chunkSize.Some? || t.overlap.Some?) }

  /** Settings come from the first enabled tool that names either option. */
  ghost predicate FirstConfigured(tools: seq<Tool>, i: nat) {
    i < |tools| && Configures(tools[i]) && forall j :: 0 <= j < i ==> !Configures(tools[j])
  }

  method FromProfile(tools: seq<Tool>) returns (s: Settings)
    ensures Usable(s)
    ensures forall i: nat :: FirstConfigured(tools, i) ==>
              && s.size == Chosen(tools[i].chunkSize, 1200, 1) && s.overlap == Chosen(tools[i].overlap, 120, 0)
    ensures (forall i :: 0 <= i < |tools| ==> !Configures(tools[i])) ==> s == Settings(1200, 120)
  {
    for i := 0 to |tools|
      invariant forall j :: 0 <= j < i ==> !Configures(tools[j])
    {
      if Configures(tools[i]) {
        return Settings(Max(1, OrDefault(tools[i].chunkSize, DEFAULT_SIZE)),
                        Max(0, OrDefault(tools[i].overlap, DEFAULT_OVERLAP)));
      }
    }
    return Settings(DEFAULT_SIZE, DEFAULT_OVERLAP);
  }

  // ----- Windows -----

  function Overlap(s: Settings): nat
    requires Usable(s)
  {
    if s.overlap <= s.size - 1 then s.overlap else s.size - 1
  }

  datatype Window = Window(start: nat, end: nat)

  /**
   Windows from the start of the text to its end, each full but the last, each starting `overlap` before the
   last end.
   */
  ghost predicate Covers(ws: seq<Window>, s: Settings, n: nat)
    requires Usable(s)
  {
    && ws != [] && ws[0].start == 0 && ws[|ws| - 1].end == n
    && (forall i :: 0 <= i < |ws| ==> ws[i].start < ws[i].end <= n && ws[i].end - ws[i].start <= s.size)
    && (forall i :: 0 <= i < |ws| - 1 ==> ws[i].end - ws[i].start == s.size && ws[i].end < n)
    && (forall i :: 0 <= i < |ws| - 1 ==> ws[i + 1].start == ws[i].end - Overlap(s))
  }

  /** The windows while the loop has not reached the end. */
  ghost predicate CoversTo(ws: seq<Window>, s: Settings, n: nat, start: nat)
    requires Usable(s)
  {
    && (forall i :: 0 <= i < |ws| ==> ws[i].start < ws[i].end < n && ws[i].end - ws[i].start == s.size)
    && (forall i :: 0 <= i < |ws| - 1 ==> ws[i + 1].start == ws[i].end - Overlap(s))
    && (ws != [] ==> ws[0].start == 0)
    && start == if ws == [] then 0 else ws[|ws| - 1].end - Overlap(s)
  }

  ghost predicate Stripped(parts: seq<string>, text: string, ws: seq<Window>) {
    && |parts| == |ws|
    && forall i :: 0 <= i < |ws| ==>
         ws[i].start <= ws[i].end <= |text| && parts[i] == Strip(text[ws[i].start..ws[i].end])
  }

  method SplitText(text: string, s: Settings) returns (parts: seq<string>, ghost ws: seq<Window>)
    requires Usable(s)
    ensures |Strip(text)| <= s.size ==> parts == [Strip(text)]
    ensures |Strip(text)| > s.size ==> Covers(ws, s, |Strip(text)|) && Stripped(parts, Strip(text), ws)
  {
    var normalized := Strip(text);
    parts, ws := [], [];
    if |normalized| <= s.size { return [normalized], ws; }
    var start := 0;
    while start < |normalized|
      invariant 0 <= start && SplitTo(parts, ws, s, normalized, start)
      decreases |normalized| - start
    {
      var end := if |normalized| < start + s.size then |normalized| else start + s.size;
      SplitNext(parts, ws, s, normalized, start, end);
      parts := parts + [Strip(normalized[start..end])];
      ws := ws + [Window(start, end)];
      if end == |normalized| { return; }
      start := end - Overlap(s);
    }
  }

  /** The parts and windows made before the one that begins at `start`. */
  ghost predicate SplitTo(parts: seq<string>, ws: seq<Window>, s: Settings, text: string, start: nat)
    requires Usable(s)
  {
    start < |text| && CoversTo(ws, s, |text|, start) && Stripped(parts, text, ws)
  }

  lemma SplitNext(parts: seq<string>, ws: seq<Window>, s: Settings, text: string, start: nat, end: nat)
    requires Usable(s) && SplitTo(parts, ws, s, text, start)
    requires end == if |text| < start + s.size then |text| else start + s.size
    ensures var more, windows := parts + [Strip(text[start..end])], ws + [Window(start, end)];
            && (end < |text| ==> start < end - Overlap(s) && SplitTo(more, windows, s, text, end - Overlap(s)))
            && (end == |text| ==> Covers(windows, s, |text|) && Stripped(more, text, windows))
  {
    WindowAdded(ws, s, |text|, start, end);
    PartAdded(parts, text, ws, start, end);
  }

  lemma PartAdded(parts: seq<string>, text: string, ws: seq<Window>, start: nat, end: nat)
    requires Stripped(parts, text, ws) && start <= end <= |text|
    ensures Stripped(parts + [Strip(text[start..end])], text, ws + [Window(start, end)])
  {}

  lemma WindowAdded(ws: seq<Window>, s: Settings, n: nat, start: nat, end: nat)
    requires Usable(s) && start < n && CoversTo(ws, s, n, start)
    requires end == if n < start + s.size then n else start + s.size
    ensures end < n ==> CoversTo(ws + [Window(start, end)], s, n, end - Overlap(s))
    ensures end == n ==> Covers(ws + [Window(start, end)], s, n)
  {
    var more := ws + [Window(start, end)];
    assert forall i :: 0 <= i < |ws| ==> more[i] == ws[i];
    assert more[|ws|] == Window(start, end);
    forall i | 0 <= i < |more| - 1 ensures more[i + 1].start == more[i].end - Overlap(s) {
      assert i < |ws| - 1 ==> ws[i + 1].start == ws[i].end - Overlap(s);
    }
  }

  // ----- What the windows keep -----

  /** Put windows together, leaving out of each after the first what it shares with the one before. */
  function Rebuild(windows: seq<string>, overlap: nat): string {
    if windows == [] then ""
    else
      var last := windows[|windows| - 1];
      Rebuild(windows[..|windows| - 1], overlap)
      + if |windows| == 1 || |last| < overlap then last else last[overlap..]
  }

  function Texts(text: string, ws: seq<Window>): (r: seq<string>)
    requires forall i :: 0 <= i < |ws| ==> ws[i].start <= ws[i].end <= |text|
    ensures |r| == |ws| && forall i :: 0 <= i < |ws| ==> r[i] == text[ws[i].start..ws[i].end]
  {
    seq(|ws|, i requires 0 <= i < |ws| => text[ws[i].start..ws[i].end])
  }

  lemma {:induction false} WindowsRebuildTo(text: string, s: Settings, ws: seq<Window>, n: nat)
    requires Usable(s) && Covers(ws, s, |text|) && 0 < n <= |ws|
    ensures Rebuild(Texts(text, ws)[..n], Overlap(s)) == text[..ws[n - 1].end]
  {
    var ts := Texts(text, ws)[..n];
    assert ts[n - 1] == text[ws[n - 1].start..ws[n - 1].end];
    assert ts[..n - 1] == Texts(text, ws)[..n - 1];
    if n == 1 {
      assert Rebuild(ts[..0], Overlap(s)) == "";
    } else {
      WindowsRebuildTo(text, s, ws, n - 1);
      var w := ws[n - 1];
      assert ws[(n - 2) + 1].start == ws[n - 2].end - Overlap(s);
      assert Overlap(s) < s.size;
      assert w.end > ws[n - 2].end by { LaterEndsLater(s, ws, |text|, n - 2); }
      assert ts[n - 1][Overlap(s)..] == text[ws[n - 2].end..w.end];
      assert text[..w.end] == text[..ws[n - 2].end] + text[ws[n - 2].end..w.end];
    }
  }

  /** Every window adds text. */
  lemma LaterEndsLater(s: Settings, ws: seq<Window>, n: nat, i: nat)
    requires Usable(s) && Covers(ws, s, n) && i + 1 < |ws|
    ensures ws[i].end < ws[i + 1].end && ws[i].start < ws[i + 1].start
  {
    assert ws[i + 1].start == ws[i].end - Overlap(s);
  }

  /** The windows overlap by the set amount, or all but one character of a window, and put together give the text. */
  lemma WindowsRebuildText(text: string, s: Settings, ws: seq<Window>)
    requires Usable(s) && Covers(ws, s, |text|)
    ensures Rebuild(Texts(text, ws), Overlap(s)) == text
    ensures Overlap(s) <= s.overlap && Overlap(s) < s.size && (Overlap(s) == s.overlap || Overlap(s) == s.size - 1)
    ensures forall i :: 0 <= i < |ws| - 1 ==> ws[i].end - ws[i + 1].start == Overlap(s)
  {
    WindowsRebuildTo(text, s, ws, |ws|);
    assert Texts(text, ws)[..|ws|] == Texts(text, ws);
    assert text[..|text|] == text;
  }

  /** Character k of the text stands in the stripped part of window i. */
  ghost predicate Shows(parts: seq<string>, text: string, ws: seq<Window>, k: nat, i: nat) {
    && k < |text| && i < |ws| && |parts| == |ws| && ws[i].start <= k < ws[i].end <= |text|
    && var skip := ws[i].start + Leading(text[ws[i].start..ws[i].end]);
       skip <= k < skip + |parts[i]| && parts[i][k - skip] == text[k]
  }

  lemma {:induction false} WindowOf(s: Settings, ws: seq<Window>, n: nat, k: nat, m: nat) returns (i: nat)
    requires Usable(s) && Covers(ws, s, n) && 0 < m <= |ws| && k < ws[m - 1].end
    ensures i < m && ws[i].start <= k < ws[i].end
  {
    if ws[m - 1].start <= k {
      i := m - 1;
    } else {
      assert ws[(m - 2) + 1].start == ws[m - 2].end - Overlap(s);
      i := WindowOf(s, ws, n, k, m - 1);
    }
  }

  /** No character but blanks is lost by stripping the windows. */
  lemma NoTextLost(text: string, s: Settings, ws: seq<Window>, parts: seq<string>, k: nat)
    requires Usable(s) && Covers(ws, s, |text|) && Stripped(parts, text, ws)
    requires k < |text| && !Blank(text[k])
    ensures exists i: nat :: Shows(parts, text, ws, k, i)
  {
    var i := WindowOf(s, ws, |text|, k, |ws|);
    PartShows(parts, text, ws, k, i);
  }

  lemma PartShows(parts: seq<string>, text: string, ws: seq<Window>, k: nat, i: nat)
    requires i < |ws| && Stripped(parts, text, ws) && ws[i].start <= k < ws[i].end <= |text| && !Blank(text[k])
    ensures Shows(parts, text, ws, k, i)
  {
    var t := text[ws[i].start..ws[i].end];
    assert t[k - ws[i].start] == text[k];
    StripKeepsPlace(t, k - ws[i].start);
  }

  /** A part is empty exactly when its window is blank; the first and the last never are. */
  lemma EmptyPartIff(text: string, s: Settings, ws: seq<Window>, parts: seq<string>, i: nat)
    requires Usable(s) && Strip(text) == text && Covers(ws, s, |text|) && Stripped(parts, text, ws) && i < |ws|
    ensures parts[i] == "" <==> AllBlank(text[ws[i].start..ws[i].end])
    ensures i == 0 || i == |ws| - 1 ==> parts[i] != ""
    ensures |parts[i]| <= s.size
  {
    var w := ws[i];
    var t := text[w.start..w.end];
    assert w.start < w.end <= |text| && w.end - w.start <= s.size && parts[i] == Strip(t);
    StripEmptyIff(t);
    StrippedEnds(text, text);
    assert i == 0 ==> t[0] == text[0];
    assert i == |ws| - 1 ==> t[|t| - 1] == text[|text| - 1];
  }

  const ONE_BY_ONE := [Window(0, 1), Window(1, 2), Window(2, 3)]

  lemma BlankMiddle(text: string)
    requires |text| == 3 && !Blank(text[0]) && Blank(text[1]) && !Blank(text[2])
    ensures Strip(text) == text && Covers(ONE_BY_ONE, Settings(1, 0), 3)
    ensures forall parts :: Stripped(parts, text, ONE_BY_ONE) ==> |parts| == 3 && parts[1] == ""
  {
    assert Leading(text) == 0 && Trailing(text) == 3 && text[0..3] == text;
    StripEmptyIff(text[1..2]);
  }

  /** Cut one by one, the blank in the middle becomes an empty part. */
  lemma EmptyPartShown() returns (text: string)
    ensures text == "a b" && Usable(Settings(1, 0))
    ensures Strip(text) == text && Covers(ONE_BY_ONE, Settings(1, 0), |text|)
    ensures forall parts :: Stripped(parts, text, ONE_BY_ONE) ==> |parts| == 3 && parts[1] == ""
  {
    text := "a b";
    SpaceIsBlank();
    PrintableIsNot('a');
    PrintableIsNot('b');
    BlankMiddle(text);
  }

  /** Each window starts one stride after the one before. */
  lemma {:induction false} WindowStarts(s: Settings, ws: seq<Window>, n: nat, i: nat)
    requires Usable(s) && Covers(ws, s, n) && i < |ws|
    ensures ws[i].start == i * (s.size - Overlap(s))
  {
    if i > 0 {
      WindowStarts(s, ws, n, i - 1);
      assert ws[(i - 1) + 1].start == ws[i - 1].end - Overlap(s);
      assert i * (s.size - Overlap(s)) == (i - 1) * (s.size - Overlap(s)) + (s.size - Overlap(s));
    }
  }

  /** The settings and the length decide the windows. */
  lemma WindowsUnique(s: Settings, n: nat, ws: seq<Window>, others: seq<Window>)
    requires Usable(s) && Covers(ws, s, n) && Covers(others, s, n)
    ensures ws == others
  {
    NoMoreWindows(s, n, ws, others);
    NoMoreWindows(s, n, others, ws);
    forall i | 0 <= i < |ws| ensures ws[i] == others[i] {
      WindowStarts(s, ws, n, i);
      WindowStarts(s, others, n, i);
    }
  }

  lemma NoMoreWindows(s: Settings, n: nat, ws: seq<Window>, others: seq<Window>)
    requires Usable(s) && Covers(ws, s, n) && Covers(others, s, n)
    ensures |others| <= |ws|
  {
    var last := |ws| - 1;
    WindowStarts(s, ws, n, last);
    if last < |others| { WindowStarts(s, others, n, last); }
    assert last < |others| ==> others[last].start == ws[last].start;
  }
}
