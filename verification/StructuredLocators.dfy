/** Locators of the nodes of a structured document. */
module StructuredLocators {
  import opened Ordering
  import opened Delimiters
  import opened JsonPointer

  /** A parsed document whose mappings have string keys. */
  datatype Node = Scalar(text: string) | Object(members: map<string, Node>) | Array(items: seq<Node>)

  datatype CandidateType = ScalarCandidate | ObjectCandidate | ArrayCandidate

  datatype Candidate = Candidate(
    candidateType: CandidateType, text: Option<string>, locator: string, path: seq<string>, length: Option<nat>)

  // ----- Extraction -----

  function Locator(prefix: string, path: seq<string>): string {
    if path == [] then prefix else prefix + "#/" + Join(EscapeAll(path), '/')
  }

  function Self(v: Node, prefix: string, path: seq<string>): Candidate {
    match v
    case Object(_) => Candidate(ObjectCandidate, None, Locator(prefix, path), path, None)
    case Array(items) => Candidate(ArrayCandidate, None, Locator(prefix, path), path, Some(|items|))
    case Scalar(text) => Candidate(ScalarCandidate, Some(text), Locator(prefix, path), path, None)
  }

  /** A node's children, members in key order and items in index order, each with its reference token. */
  function Children(v: Node): (r: seq<(string, Node)>)
    ensures forall i :: 0 <= i < |r| ==> r[i].1 < v
  {
    match v
    case Scalar(_) => []
    case Object(members) =>
      var keys := SortedStrings(members.Keys);
      assert forall i :: 0 <= i < |keys| ==> keys[i] in members by {
        assert forall i :: 0 <= i < |keys| ==> keys[i] in keys;
      }
      seq(|keys|, i requires 0 <= i < |keys| && keys[i] in members => (keys[i], members[keys[i]]))
    case Array(items) => seq(|items|, i requires 0 <= i < |items| => (Decimal(i), items[i]))
  }

  function WithPart(parts: seq<seq<Candidate>>): (seq<Candidate>, nat) -> seq<Candidate> {
    (cs: seq<Candidate>, i: nat) => if i < |parts| then cs + parts[i] else cs
  }

  function Flat(parts: seq<seq<Candidate>>): seq<Candidate> { Fold(WithPart(parts), [], |parts|) }

  /** `iter_structured_candidates`: the node, then each child's candidates. */
  function Candidates(v: Node, prefix: string, path: seq<string>): seq<Candidate>
    decreases v, 1
  {
    [Self(v, prefix, path)] + Flat(Parts(v, prefix, path))
  }

  function Parts(v: Node, prefix: string, path: seq<string>): (parts: seq<seq<Candidate>>)
    ensures |parts| == |Children(v)|
    decreases v, 0
  {
    var children := Children(v);
    seq(|children|, i requires 0 <= i < |children| => Candidates(children[i].1, prefix, path + [children[i].0]))
  }

  // ----- Evaluation of a pointer, section 4 of RFC 6901 -----

  function Child(v: Node, token: string): Option<Node> {
    match v
    case Scalar(_) => None
    case Object(members) => if token in members then Some(members[token]) else None
    case Array(items) =>
      var index := ArrayIndex(token);
      if index.Some? && index.value < |items| then Some(items[index.value]) else None
  }

  function Evaluate(v: Node, tokens: seq<string>): Option<Node> {
    if tokens == [] then Some(v)
    else
      var child := Child(v, tokens[0]);
      if child.None? then None else Evaluate(child.value, tokens[1..])
  }

  /** The children are exactly what the tokens lead to. */
  lemma ChildIsListed(v: Node, token: string)
    ensures Child(v, token).Some? <==> exists i :: 0 <= i < |Children(v)| && Children(v)[i].0 == token
    ensures forall i :: 0 <= i < |Children(v)| && Children(v)[i].0 == token ==>
              Child(v, token) == Some(Children(v)[i].1)
  {
    match v
    case Scalar(_) =>
    case Object(members) =>
      var keys := SortedStrings(members.Keys);
      if token in members {
        assert token in keys;
        var i :| 0 <= i < |keys| && keys[i] == token;
        assert Children(v)[i].0 == token;
      }
    case Array(items) =>
      forall i | 0 <= i < |items| && Decimal(i) == token ensures Child(v, token) == Some(items[i]) {
        DecimalIsIndex(i);
      }
      if Child(v, token).Some? {
        IndexIsDecimal(token);
        assert Children(v)[ArrayIndex(token).value].0 == token;
      }
  }

  lemma ChildTokensDistinct(v: Node, i: nat, j: nat)
    requires i < j < |Children(v)|
    ensures Children(v)[i].0 != Children(v)[j].0
  {
    match v
    case Scalar(_) =>
    case Object(members) =>
      StringLessTotal();
      var keys := SortedStrings(members.Keys);
      assert StringLess(keys[i], keys[j]);
    case Array(items) =>
      DecimalIsIndex(i);
      DecimalIsIndex(j);
  }

  // ----- The candidates are the nodes -----

  /** The candidate describes the node its path, taken from the root at `path`, leads to. */
  ghost predicate Describes(v: Node, prefix: string, path: seq<string>, c: Candidate) {
    && path <= c.path && Evaluate(v, c.path[|path|..]).Some?
    && c == Self(Evaluate(v, c.path[|path|..]).value, prefix, c.path)
  }

  ghost predicate PathsDistinct(cs: seq<Candidate>) {
    forall i, j :: 0 <= i < j < |cs| ==> cs[i].path != cs[j].path
  }

  ghost predicate HasPath(cs: seq<Candidate>, path: seq<string>) {
    exists i :: 0 <= i < |cs| && cs[i].path == path
  }

  /** Each node below the root is listed once, under its own path, and nothing else is. */
  ghost predicate ListsNodes(v: Node, prefix: string, path: seq<string>, cs: seq<Candidate>) {
    && (forall i :: 0 <= i < |cs| ==> Describes(v, prefix, path, cs[i]))
    && (forall rest :: Evaluate(v, rest).Some? ==> HasPath(cs, path + rest))
    && PathsDistinct(cs)
  }

  ghost predicate AmongFirst(v: Node, n: nat, token: string)
    requires n <= |Children(v)|
  {
    exists i :: 0 <= i < n && Children(v)[i].0 == token
  }

  /** The same for the nodes below the first n children. */
  ghost predicate ListsUnder(v: Node, n: nat, prefix: string, path: seq<string>, cs: seq<Candidate>)
    requires n <= |Children(v)|
  {
    DescribeUnder(v, n, prefix, path, cs) && CoverUnder(v, n, path, cs) && PathsDistinct(cs)
  }

  ghost predicate DescribeUnder(v: Node, n: nat, prefix: string, path: seq<string>, cs: seq<Candidate>)
    requires n <= |Children(v)|
  {
    forall i :: 0 <= i < |cs| ==>
      Describes(v, prefix, path, cs[i]) && |cs[i].path| > |path| && AmongFirst(v, n, cs[i].path[|path|])
  }

  ghost predicate CoverUnder(v: Node, n: nat, path: seq<string>, cs: seq<Candidate>)
    requires n <= |Children(v)|
  {
    forall rest :: rest != [] && AmongFirst(v, n, rest[0]) && Evaluate(v, rest).Some? ==> HasPath(cs, path + rest)
  }

  lemma HasPathEither(a: seq<Candidate>, b: seq<Candidate>, path: seq<string>)
    ensures HasPath(a + b, path) <==> HasPath(a, path) || HasPath(b, path)
  {
    var all := a + b;
    if HasPath(a, path) {
      var i :| 0 <= i < |a| && a[i].path == path;
      assert all[i].path == path;
    }
    if HasPath(b, path) {
      var i :| 0 <= i < |b| && b[i].path == path;
      assert all[|a| + i].path == path;
    }
  }

  /** What a child's candidate describes from the child, it describes from the parent. */
  lemma DescribedFromParent(v: Node, k: nat, prefix: string, path: seq<string>, c: Candidate)
    requires k < |Children(v)|
    requires Describes(Children(v)[k].1, prefix, path + [Children(v)[k].0], c)
    ensures Describes(v, prefix, path, c) && |c.path| > |path| && c.path[|path|] == Children(v)[k].0
  {
    var token := Children(v)[k].0;
    ChildIsListed(v, token);
    var rest := c.path[|path|..];
    assert (path + [token])[|path|] == c.path[|path|];
    assert rest[0] == token && rest[1..] == c.path[|path + [token]|..];
    assert path <= path + [token] <= c.path;
  }

  lemma AmongOneMore(v: Node, n: nat)
    requires 0 < n <= |Children(v)|
    ensures forall t :: AmongFirst(v, n, t) <==> AmongFirst(v, n - 1, t) || t == Children(v)[n - 1].0
    ensures !AmongFirst(v, n - 1, Children(v)[n - 1].0)
  {
    forall i | 0 <= i < n - 1 ensures Children(v)[i].0 != Children(v)[n - 1].0 { ChildTokensDistinct(v, i, n - 1); }
  }

  lemma DescribeOneMore(v: Node, n: nat, prefix: string, path: seq<string>, before: seq<Candidate>,
                        more: seq<Candidate>)
    requires 0 < n <= |Children(v)| && DescribeUnder(v, n - 1, prefix, path, before)
    requires ListsNodes(Children(v)[n - 1].1, prefix, path + [Children(v)[n - 1].0], more)
    ensures DescribeUnder(v, n, prefix, path, before + more)
    ensures forall i :: 0 <= i < |more| ==> |more[i].path| > |path| && more[i].path[|path|] == Children(v)[n - 1].0
  {
    AmongOneMore(v, n);
    forall i | 0 <= i < |more|
      ensures Describes(v, prefix, path, more[i]) && |more[i].path| > |path|
                && more[i].path[|path|] == Children(v)[n - 1].0
    {
      DescribedFromParent(v, n - 1, prefix, path, more[i]);
    }
  }

  lemma CoverOneMore(v: Node, n: nat, prefix: string, path: seq<string>, before: seq<Candidate>, more: seq<Candidate>)
    requires 0 < n <= |Children(v)| && CoverUnder(v, n - 1, path, before)
    requires ListsNodes(Children(v)[n - 1].1, prefix, path + [Children(v)[n - 1].0], more)
    ensures CoverUnder(v, n, path, before + more)
  {
    AmongOneMore(v, n);
    var token, child := Children(v)[n - 1].0, Children(v)[n - 1].1;
    ChildIsListed(v, token);
    forall rest | rest != [] && AmongFirst(v, n, rest[0]) && Evaluate(v, rest).Some?
      ensures HasPath(before + more, path + rest)
    {
      HasPathEither(before, more, path + rest);
      if rest[0] == token { ChildCovers(v, child, token, prefix, path, more, rest); }
    }
  }

  lemma ChildCovers(v: Node, child: Node, token: string, prefix: string, path: seq<string>, more: seq<Candidate>,
                    rest: seq<string>)
    requires Child(v, token) == Some(child) && ListsNodes(child, prefix, path + [token], more)
    requires rest != [] && rest[0] == token && Evaluate(v, rest).Some?
    ensures HasPath(more, path + rest)
  {
    assert Evaluate(child, rest[1..]).Some?;
    assert path + rest == (path + [token]) + rest[1..];
  }

  lemma DistinctOneMore(before: seq<Candidate>, more: seq<Candidate>, at: nat, token: string)
    requires PathsDistinct(before) && PathsDistinct(more)
    requires forall i :: 0 <= i < |before| ==> |before[i].path| > at && before[i].path[at] != token
    requires forall i :: 0 <= i < |more| ==> |more[i].path| > at && more[i].path[at] == token
    ensures PathsDistinct(before + more)
  {}

  lemma UnderOneMore(v: Node, n: nat, prefix: string, path: seq<string>, before: seq<Candidate>, more: seq<Candidate>)
    requires 0 < n <= |Children(v)| && ListsUnder(v, n - 1, prefix, path, before)
    requires ListsNodes(Children(v)[n - 1].1, prefix, path + [Children(v)[n - 1].0], more)
    ensures ListsUnder(v, n, prefix, path, before + more)
  {
    DescribeOneMore(v, n, prefix, path, before, more);
    CoverOneMore(v, n, prefix, path, before, more);
    AmongOneMore(v, n);
    DistinctOneMore(before, more, |path|, Children(v)[n - 1].0);
  }

  lemma NodeAndUnder(v: Node, prefix: string, path: seq<string>, under: seq<Candidate>)
    requires ListsUnder(v, |Children(v)|, prefix, path, under)
    ensures ListsNodes(v, prefix, path, [Self(v, prefix, path)] + under)
  {
    var self := Self(v, prefix, path);
    assert self.path == path && path[|path|..] == [];
    forall rest | Evaluate(v, rest).Some? ensures HasPath([self] + under, path + rest) {
      HasPathEither([self], under, path + rest);
      if rest == [] {
        assert [self][0].path == path + rest;
      } else {
        ChildIsListed(v, rest[0]);
        assert AmongFirst(v, |Children(v)|, rest[0]);
      }
    }
  }

  /** Part i holds the nodes below child i. */
  ghost predicate PartLists(v: Node, prefix: string, path: seq<string>, parts: seq<seq<Candidate>>, i: nat)
    requires i < |parts| == |Children(v)|
  {
    ListsNodes(Children(v)[i].1, prefix, path + [Children(v)[i].0], parts[i])
  }

  /** The candidates list what is below the first n children. */
  ghost function ListsBelow(v: Node, prefix: string, path: seq<string>): (seq<Candidate>, nat) -> bool {
    (cs: seq<Candidate>, n: nat) => n <= |Children(v)| && ListsUnder(v, n, prefix, path, cs)
  }

  lemma NoneYet(v: Node, prefix: string, path: seq<string>)
    ensures ListsBelow(v, prefix, path)([], 0)
  {}

  ghost predicate EachPartLists(v: Node, prefix: string, path: seq<string>, parts: seq<seq<Candidate>>) {
    |parts| == |Children(v)| && forall i: nat :: i < |parts| ==> PartLists(v, prefix, path, parts, i)
  }

  lemma NextPartAdded(v: Node, prefix: string, path: seq<string>, parts: seq<seq<Candidate>>, cs: seq<Candidate>,
                      n: nat)
    requires EachPartLists(v, prefix, path, parts) && 0 < n <= |parts| && ListsBelow(v, prefix, path)(cs, n - 1)
    ensures ListsBelow(v, prefix, path)(cs + parts[n - 1], n)
  {
    assert PartLists(v, prefix, path, parts, n - 1);
    UnderOneMore(v, n, prefix, path, cs, parts[n - 1]);
  }

  lemma {:induction false} FirstPartsList(v: Node, prefix: string, path: seq<string>, parts: seq<seq<Candidate>>,
                                          n: nat)
    requires EachPartLists(v, prefix, path, parts) && n <= |parts|
    ensures ListsBelow(v, prefix, path)(Fold(WithPart(parts), [], n), n)
  {
    if n == 0 {
      NoneYet(v, prefix, path);
    } else {
      FirstPartsList(v, prefix, path, parts, n - 1);
      NextPartAdded(v, prefix, path, parts, Fold(WithPart(parts), [], n - 1), n);
    }
  }

  /** The candidates of a document are its nodes. */
  lemma {:induction false} CandidatesList(v: Node, prefix: string, path: seq<string>)
    ensures ListsNodes(v, prefix, path, Candidates(v, prefix, path))
    decreases v
  {
    var parts := Parts(v, prefix, path);
    forall i: nat | i < |parts| ensures PartLists(v, prefix, path, parts, i) {
      CandidatesList(Children(v)[i].1, prefix, path + [Children(v)[i].0]);
    }
    FirstPartsList(v, prefix, path, parts, |parts|);
    NodeAndUnder(v, prefix, path, Flat(parts));
  }

  // ----- Locators -----

  /** The path a locator stands for: nothing after the prefix, or a fragment holding a pointer. */
  function PathOfLocator(prefix: string, locator: string): Option<seq<string>> {
    if locator == prefix then Some([])
    else if prefix + "#" <= locator then Tokens(locator[|prefix| + 1..])
    else None
  }

  lemma FragmentOf(prefix: string, pointer: string)
    ensures PathOfLocator(prefix, prefix + "#" + pointer) == Tokens(pointer)
  {
    var locator := prefix + "#" + pointer;
    assert |locator| > |prefix|;
    assert locator[|prefix| + 1..] == pointer;
  }

  lemma LocatorRoundTrip(prefix: string, path: seq<string>)
    ensures PathOfLocator(prefix, Locator(prefix, path)) == Some(path)
  {
    if path != [] {
      var pointer := "/" + Join(EscapeAll(path), '/');
      PointerRoundTrip(path);
      assert "#/" == "#" + "/";
      assert Locator(prefix, path) == prefix + "#" + pointer;
      FragmentOf(prefix, pointer);
    }
  }

  lemma LocatorLeads(v: Node, prefix: string, c: Candidate)
    requires Describes(v, prefix, [], c)
    ensures LeadsTo(v, prefix, c)
  {
    assert c.path[0..] == c.path;
    LocatorRoundTrip(prefix, c.path);
  }

  lemma LocatorsOfNodes(v: Node, prefix: string, cs: seq<Candidate>)
    requires ListsNodes(v, prefix, [], cs)
    ensures forall i, j :: 0 <= i < j < |cs| ==> cs[i].locator != cs[j].locator
    ensures forall i :: 0 <= i < |cs| ==> LeadsTo(v, prefix, cs[i])
    ensures forall path :: Evaluate(v, path).Some? ==> HasPath(cs, path)
  {
    forall i | 0 <= i < |cs| ensures LeadsTo(v, prefix, cs[i]) { LocatorLeads(v, prefix, cs[i]); }
    forall i, j | 0 <= i < j < |cs| ensures cs[i].locator != cs[j].locator {
      assert LeadsTo(v, prefix, cs[i]) && LeadsTo(v, prefix, cs[j]);
      assert cs[i].path != cs[j].path;
    }
    forall path | Evaluate(v, path).Some? ensures HasPath(cs, path) { assert [] + path == path; }
  }

  /**
   Every candidate of a document has its own locator, which decodes to its path and leads to the node it
   describes.
   */
  lemma LocatorsIdentifyNodes(v: Node, prefix: string)
    ensures forall i, j :: 0 <= i < j < |Candidates(v, prefix, [])| ==>
              Candidates(v, prefix, [])[i].locator != Candidates(v, prefix, [])[j].locator
    ensures forall i :: 0 <= i < |Candidates(v, prefix, [])| ==> LeadsTo(v, prefix, Candidates(v, prefix, [])[i])
    ensures forall path :: Evaluate(v, path).Some? ==> HasPath(Candidates(v, prefix, []), path)
  {
    CandidatesList(v, prefix, []);
    LocatorsOfNodes(v, prefix, Candidates(v, prefix, []));
  }

  ghost predicate LeadsTo(v: Node, prefix: string, c: Candidate) {
    && PathOfLocator(prefix, c.locator) == Some(c.path)
    && Evaluate(v, c.path).Some?
    && c == Self(Evaluate(v, c.path).value, prefix, c.path)
  }

  /** The candidate says of its node what kind it is, and a scalar's text or an array's length. */
  predicate SaysWhatItIs(node: Node, c: Candidate) {
    match c.candidateType
    case ScalarCandidate => c.length == None && c.text.Some? && node == Scalar(c.text.value)
    case ObjectCandidate => c.length == None && c.text == None && node.Object?
    case ArrayCandidate => c.text == None && node.Array? && c.length == Some(|node.items|)
  }

  lemma CandidatesSay(v: Node, prefix: string, c: Candidate)
    requires c in Candidates(v, prefix, [])
    ensures Evaluate(v, c.path).Some? && SaysWhatItIs(Evaluate(v, c.path).value, c)
  {
    LocatorsIdentifyNodes(v, prefix);
    var i :| 0 <= i < |Candidates(v, prefix, [])| && Candidates(v, prefix, [])[i] == c;
    assert LeadsTo(v, prefix, Candidates(v, prefix, [])[i]);
  }
}
