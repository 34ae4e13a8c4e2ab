/** Choosing an extractor through a chain of fallback profiles that may be cyclic. */
module ExtractorFallback {
  import opened Ordering

  datatype Kind = Markdown | Html | Json | Yaml | Toml | Text | SourceCode | OpenApi | JsonSchema

  datatype Tool = Tool(id: string, enabled: bool)

  datatype Profile = Profile(enabled: bool, tools: seq<Tool>, fallback: Option<string>)

  /** Profiles by their id, as the registry holds them. */
  type Profiles = map<string, Profile>

  datatype Artifact = Artifact(suffix: string, role: string, profile: Option<string>)

  datatype LookupError = Cyclic(profile: string) | NoTool(profile: string) | NotRegistered(kind: Kind)

  // ----- One tool, one profile -----

  /** The kind of extractor a tool stands for, if it applies to the artifact. */
  function KindFor(a: Artifact, tool: string): Option<Kind> {
    match tool
    case "builtin-markdown-html" =>
      if a.suffix in {".md", ".mdx"} then Some(Markdown)
      else if a.suffix in {".html", ".htm"} then Some(Html)
      else None
    case "builtin-source-code-splitter" => if a.role == "source_code" then Some(SourceCode) else None
    case "tree-sitter" => if a.role == "source_code" then Some(SourceCode) else None
    case "builtin-structured-files" =>
      if a.role == "json_schema" then Some(JsonSchema)
      else if a.suffix == ".json" then Some(Json)
      else if a.suffix in {".yaml", ".yml"} then Some(Yaml)
      else if a.suffix == ".toml" then Some(Toml)
      else None
    case "builtin-openapi-parser" => if a.role == "openapi_spec" then Some(OpenApi) else None
    case "builtin-text" => Some(Text)
    case "jsonschema" => if a.role == "json_schema" then Some(JsonSchema) else None
    case _ => None
  }

  function Registered(kind: Kind, registered: set<Kind>): Result<Kind, LookupError> {
    if kind in registered then Ok(kind) else Err(NotRegistered(kind))
  }

  /** What the first applicable enabled tool decides; asking for an unregistered extractor is a decision too. */
  function FromTools(a: Artifact, tools: seq<Tool>, registered: set<Kind>): Option<Result<Kind, LookupError>> {
    if tools == [] then None
    else if tools[0].enabled && KindFor(a, tools[0].id).Some? then
      Some(Registered(KindFor(a, tools[0].id).value, registered))
    else FromTools(a, tools[1..], registered)
  }

  function Decision(a: Artifact, p: Profile, registered: set<Kind>): Option<Result<Kind, LookupError>> {
    if p.enabled then FromTools(a, p.tools, registered) else None
  }

  ghost predicate Applies(a: Artifact, tools: seq<Tool>, i: nat) {
    i < |tools| && tools[i].enabled && KindFor(a, tools[i].id).Some?
  }

  /** A profile decides by its first enabled tool that applies. */
  lemma {:induction false} FirstToolDecides(a: Artifact, tools: seq<Tool>, registered: set<Kind>)
    ensures FromTools(a, tools, registered).None? <==> forall i: nat :: !Applies(a, tools, i)
    ensures forall i: nat :: Applies(a, tools, i) && (forall j: nat :: j < i ==> !Applies(a, tools, j)) ==>
              FromTools(a, tools, registered) == Some(Registered(KindFor(a, tools[i].id).value, registered))
  {
    if tools != [] {
      FirstToolDecides(a, tools[1..], registered);
      assert Applies(a, tools, 0) <==> tools[0].enabled && KindFor(a, tools[0].id).Some?;
      forall i: nat ensures Applies(a, tools[1..], i) <==> Applies(a, tools, i + 1) {}
      forall i: nat | Applies(a, tools, i) && (forall j: nat :: j < i ==> !Applies(a, tools, j))
        ensures FromTools(a, tools, registered) == Some(Registered(KindFor(a, tools[i].id).value, registered))
      {
        if i > 0 {
          assert !Applies(a, tools, 0);
          assert Applies(a, tools[1..], i - 1);
          assert forall j: nat :: j < i - 1 ==> !Applies(a, tools[1..], j);
        }
      }
      if forall i: nat :: !Applies(a, tools, i) {
        assert !Applies(a, tools, 0);
        assert forall i: nat :: !Applies(a, tools[1..], i);
      }
      if FromTools(a, tools, registered).None? {
        forall i: nat ensures !Applies(a, tools, i) {
          if i > 0 { assert !Applies(a, tools[1..], i - 1); }
        }
      }
    }
  }

  /** A disabled profile decides nothing, an enabled one by its tools. */
  lemma OnlyEnabledDecides(a: Artifact, p: Profile, registered: set<Kind>)
    ensures Decision(a, p, registered).Some? <==> p.enabled && exists i: nat :: Applies(a, p.tools, i)
  {
    FirstToolDecides(a, p.tools, registered);
  }

  // ----- The fallback chain -----

  /** `_select_from_profile`; `seen` are the profiles tried before. */
  function SelectFrom(a: Artifact, profiles: Profiles, registered: set<Kind>, id: string,
                      seen: set<string>): Result<Kind, LookupError>
    requires id in profiles
    decreases profiles.Keys - seen
  {
    if id in seen then Err(Cyclic(id))
    else
      var p := profiles[id];
      var decision := Decision(a, p, registered);
      if decision.Some? then decision.value
      else if p.fallback.Some? && p.fallback.value in profiles then
        SelectFrom(a, profiles, registered, p.fallback.value, seen + {id})
      else Err(NoTool(id))
  }

  /** The profile after n fallbacks, if the chain is that long. */
  function Chain(profiles: Profiles, id: string, n: nat): Option<string>
    requires id in profiles
    ensures Chain(profiles, id, n).Some? ==> Chain(profiles, id, n).value in profiles
  {
    if n == 0 then Some(id)
    else
      var before := Chain(profiles, id, n - 1);
      if before.Some? && profiles[before.value].fallback.Some? && profiles[before.value].fallback.value in profiles
      then profiles[before.value].fallback
      else None
  }

  predicate Decides(a: Artifact, profiles: Profiles, registered: set<Kind>, start: string, n: nat)
    requires start in profiles
  {
    Chain(profiles, start, n).Some? && Decision(a, profiles[Chain(profiles, start, n).value], registered).Some?
  }

  ghost predicate NoneBefore(a: Artifact, profiles: Profiles, registered: set<Kind>, start: string, n: nat)
    requires start in profiles
  {
    forall m: nat :: m < n ==> Chain(profiles, start, m).Some? && !Decides(a, profiles, registered, start, m)
  }

  /** The profiles met before the n-th. */
  ghost function Met(profiles: Profiles, start: string, n: nat): set<string>
    requires start in profiles
  {
    if n == 0 then {}
    else
      Met(profiles, start, n - 1)
      + if Chain(profiles, start, n - 1).Some? then {Chain(profiles, start, n - 1).value} else {}
  }

  predicate Passes(profiles: Profiles, start: string, n: nat, id: string)
    requires start in profiles
  {
    Chain(profiles, start, n) == Some(id)
  }

  lemma {:induction false} MetAt(profiles: Profiles, start: string, n: nat, id: string)
    requires start in profiles
    ensures id in Met(profiles, start, n) <==> exists m: nat :: m < n && Passes(profiles, start, m, id)
  {
    if n > 0 {
      MetAt(profiles, start, n - 1, id);
      assert id in Met(profiles, start, n) <==> id in Met(profiles, start, n - 1) || Passes(profiles, start, n - 1, id);
    }
  }

  /** Once the chain repeats a profile it goes round for ever. */
  lemma {:induction false} GoesRound(profiles: Profiles, start: string, m: nat, n: nat, k: nat)
    requires start in profiles && m < n && Chain(profiles, start, m) == Chain(profiles, start, n)
    ensures Chain(profiles, start, m + k) == Chain(profiles, start, n + k)
  {
    if k > 0 { GoesRound(profiles, start, m, n, k - 1); }
  }

  /** If nothing decides before a repetition, nothing ever does, and the chain never ends. */
  lemma {:induction false} NeverDecides(a: Artifact, profiles: Profiles, registered: set<Kind>, start: string, m: nat,
                                        n: nat, k: nat)
    requires start in profiles && m < n && Chain(profiles, start, m) == Chain(profiles, start, n)
    requires NoneBefore(a, profiles, registered, start, n)
    ensures Chain(profiles, start, k).Some? && !Decides(a, profiles, registered, start, k)
    decreases k
  {
    if k >= n {
      GoesRound(profiles, start, m, n, k - n);
      NeverDecides(a, profiles, registered, start, m, n, m + (k - n));
      assert Chain(profiles, start, k) == Chain(profiles, start, m + (k - n));
    }
  }

  /** How a search can end. */
  ghost predicate Outcome(a: Artifact, profiles: Profiles, registered: set<Kind>, start: string,
                          r: Result<Kind, LookupError>, n: nat)
    requires start in profiles
  {
    && NoneBefore(a, profiles, registered, start, n) && Chain(profiles, start, n).Some?
    && var id := Chain(profiles, start, n).value;
       if Decides(a, profiles, registered, start, n) then Decision(a, profiles[id], registered) == Some(r)
       else if Chain(profiles, start, n + 1).None? then r == Err(NoTool(id))
       else
         r == Err(Cyclic(id)) && Repeats(profiles, start, n) && Endless(a, profiles, registered, start)
  }

  /** The chain never ends and nothing on it decides. */
  ghost predicate Endless(a: Artifact, profiles: Profiles, registered: set<Kind>, start: string)
    requires start in profiles
  {
    forall n: nat :: Chain(profiles, start, n).Some? && !Decides(a, profiles, registered, start, n)
  }

  /** The n-th profile of the chain is the first that came before. */
  ghost predicate Repeats(profiles: Profiles, start: string, n: nat)
    requires start in profiles
  {
    && (exists m: nat :: m < n && Chain(profiles, start, m) == Chain(profiles, start, n))
    && forall i: nat, j: nat :: i < j < n ==> Chain(profiles, start, i) != Chain(profiles, start, j)
  }

  ghost predicate AllNew(profiles: Profiles, start: string, n: nat)
    requires start in profiles
  {
    forall i: nat, j: nat :: i < j < n ==> Chain(profiles, start, i) != Chain(profiles, start, j)
  }

  lemma {:induction false} SearchFrom(a: Artifact, profiles: Profiles, registered: set<Kind>, start: string, n: nat)
    returns (end: nat)
    requires start in profiles && NoneBefore(a, profiles, registered, start, n) && Chain(profiles, start, n).Some?
    requires AllNew(profiles, start, n)
    ensures Outcome(a, profiles, registered, start,
                    SelectFrom(a, profiles, registered, Chain(profiles, start, n).value, Met(profiles, start, n)), end)
    decreases profiles.Keys - Met(profiles, start, n)
  {
    var id := Chain(profiles, start, n).value;
    MetAt(profiles, start, n, id);
    end := n;
    if id in Met(profiles, start, n) {
      var m: nat :| m < n && Passes(profiles, start, m, id);
      forall k: nat ensures Chain(profiles, start, k).Some? && !Decides(a, profiles, registered, start, k) {
        NeverDecides(a, profiles, registered, start, m, n, k);
      }
      assert Repeats(profiles, start, n);
    } else if !Decides(a, profiles, registered, start, n) && Chain(profiles, start, n + 1).Some? {
      forall i: nat, j: nat | i < j < n + 1 ensures Chain(profiles, start, i) != Chain(profiles, start, j) {
        if j == n { assert !Passes(profiles, start, i, id); }
      }
      assert Met(profiles, start, n + 1) == Met(profiles, start, n) + {id};
      end := SearchFrom(a, profiles, registered, start, n + 1);
    }
  }

  /**
   The search ends on every table, cyclic or not: with the first decision of the chain, at the chain's end,
   or at its first repetition.
   */
  lemma SearchEnds(a: Artifact, profiles: Profiles, registered: set<Kind>, start: string)
    requires start in profiles
    ensures exists n: nat :: Outcome(a, profiles, registered, start, SelectFrom(a, profiles, registered, start, {}), n)
  {
    var n := SearchFrom(a, profiles, registered, start, 0);
  }

  /** A cycle is reported exactly when the chain never ends and no profile on it decides. */
  lemma CyclicIff(a: Artifact, profiles: Profiles, registered: set<Kind>, start: string)
    requires start in profiles
    ensures (exists id :: SelectFrom(a, profiles, registered, start, {}) == Err(Cyclic(id))) <==>
            Endless(a, profiles, registered, start)
  {
    SearchEnds(a, profiles, registered, start);
    var r := SelectFrom(a, profiles, registered, start, {});
    var n: nat :| Outcome(a, profiles, registered, start, r, n);
    DecisionsAreNotCycles(a, profiles[Chain(profiles, start, n).value], registered);
    if Decides(a, profiles, registered, start, n) {
      assert !Endless(a, profiles, registered, start)
          && Decision(a, profiles[Chain(profiles, start, n).value], registered) == Some(r);
      assert r.Ok? || r.error.NotRegistered?;
    } else if Chain(profiles, start, n + 1).None? {
      assert !Endless(a, profiles, registered, start) && r.error.NoTool?;
    } else {
      assert Endless(a, profiles, registered, start) && r == Err(Cyclic(Chain(profiles, start, n).value));
    }
  }

  lemma DecisionsAreNotCycles(a: Artifact, p: Profile, registered: set<Kind>)
    ensures Decision(a, p, registered).Some? ==>
              Decision(a, p, registered).value.Ok? || Decision(a, p, registered).value.error.NotRegistered?
  {
    ToolsAreNotCycles(a, p.tools, registered);
  }

  lemma {:induction false} ToolsAreNotCycles(a: Artifact, tools: seq<Tool>, registered: set<Kind>)
    ensures FromTools(a, tools, registered).Some? ==>
              FromTools(a, tools, registered).value.Ok? || FromTools(a, tools, registered).value.error.NotRegistered?
  {
    if tools != [] { ToolsAreNotCycles(a, tools[1..], registered); }
  }

  /** The first profile of the chain that decides has the last word. */
  lemma FirstDecisionWins(a: Artifact, profiles: Profiles, registered: set<Kind>, start: string, n: nat)
    requires start in profiles && Decides(a, profiles, registered, start, n)
               && NoneBefore(a, profiles, registered, start, n)
    ensures Decision(a, profiles[Chain(profiles, start, n).value], registered)
            == Some(SelectFrom(a, profiles, registered, start, {}))
  {
    assert forall m: nat :: m <= n ==> Chain(profiles, start, m).Some?;
    SearchEnds(a, profiles, registered, start);
    var end: nat :| Outcome(a, profiles, registered, start, SelectFrom(a, profiles, registered, start, {}), end);
  }

  // ----- Selection -----

  function KindByRole(a: Artifact): Kind {
    if a.role == "openapi_spec" then OpenApi
    else if a.role == "json_schema" then JsonSchema
    else if a.role == "source_code" then SourceCode
    else if a.suffix in {".md", ".mdx"} then Markdown
    else if a.suffix in {".html", ".htm"} then Html
    else if a.suffix == ".json" then Json
    else if a.suffix in {".yaml", ".yml"} then Yaml
    else if a.suffix == ".toml" then Toml
    else Text
  }

  const TOOLS := {"builtin-markdown-html", "builtin-source-code-splitter", "tree-sitter", "builtin-structured-files",
                  "builtin-openapi-parser", "builtin-text", "jsonschema"}

  /**
   The tools and the choice without a profile tell kinds alike: some tool gives the kind chosen without one, and
   a tool that gives another is the one for any text or one that goes by the suffix of an artifact with a role.
   */
  lemma TablesAgree(a: Artifact)
    ensures exists tool :: tool in TOOLS && KindFor(a, tool) == Some(KindByRole(a))
    ensures forall tool :: KindFor(a, tool).Some? ==>
              || KindFor(a, tool) == Some(KindByRole(a)) || tool == "builtin-text"
              || (a.role in {"openapi_spec", "json_schema", "source_code"}
                  && tool in {"builtin-markdown-html", "builtin-structured-files"})
  {
    var kind := Some(KindByRole(a));
    assert "builtin-text" in TOOLS && "builtin-openapi-parser" in TOOLS && "jsonschema" in TOOLS;
    assert "tree-sitter" in TOOLS && "builtin-markdown-html" in TOOLS && "builtin-structured-files" in TOOLS;
    assert || KindFor(a, "builtin-text") == kind || KindFor(a, "builtin-openapi-parser") == kind
           || KindFor(a, "jsonschema") == kind || KindFor(a, "tree-sitter") == kind
           || KindFor(a, "builtin-markdown-html") == kind || KindFor(a, "builtin-structured-files") == kind;
  }

  function Select(a: Artifact, profiles: Profiles, registered: set<Kind>): Result<Kind, LookupError> {
    var id := if a.profile.Some? then a.profile.value else "";
    if id in profiles then SelectFrom(a, profiles, registered, id, {})
    else Registered(KindByRole(a), registered)
  }

  /** With every extractor registered, selection by profile fails only at the end of a chain or on a cycle. */
  lemma SelectFailsOnlyInChain(a: Artifact, profiles: Profiles, registered: set<Kind>)
    requires forall kind :: kind in registered
    ensures Select(a, profiles, registered).Err? ==>
              a.profile.None? || a.profile.value in profiles
    ensures Select(a, profiles, registered).Err? ==> !Select(a, profiles, registered).error.NotRegistered?
  {
    var id := if a.profile.Some? then a.profile.value else "";
    if id in profiles {
      SearchEnds(a, profiles, registered, id);
      var n: nat :| Outcome(a, profiles, registered, id, SelectFrom(a, profiles, registered, id, {}), n);
      AllRegistered(a, profiles[Chain(profiles, id, n).value].tools, registered);
    }
  }

  lemma {:induction false} AllRegistered(a: Artifact, tools: seq<Tool>, registered: set<Kind>)
    requires forall kind :: kind in registered
    ensures FromTools(a, tools, registered).Some? ==> FromTools(a, tools, registered).value.Ok?
  {
    if tools != [] { AllRegistered(a, tools[1..], registered); }
  }
}
