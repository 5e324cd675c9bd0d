/**
 * The compliance agent (src/riley-core-agent.ts): a deny-list of vendor and
 * cloud names, checked against the dependency names of `package.json` at
 * start-up and against API names at run time. A hit is reported by throwing,
 * modelled here as `Fail`.
 */
module Compliance {
  import opened Wrappers
  import opened Text

  /** The deny-list `enforceCompliance` scans dependencies with. */
  const ForbiddenDependencies: seq<string> := [
    "copilot", "openai", "tabnine", "claude", "anthropic", "gpt", "pro", "api", "cloud", "saas",
    "bing", "bard", "gemini", "paid", "subscription", "token", "license", "azure", "google", "aws",
    "ibm", "huggingface", "ollama", "replicate"
  ]

  /** The deny-list `refuseForbiddenAPI` checks API names with (a separate literal in the source). */
  const ForbiddenApis: seq<string> := [
    "copilot", "openai", "tabnine", "claude", "anthropic", "gpt", "pro", "api", "cloud", "saas",
    "bing", "bard", "gemini", "paid", "subscription", "token", "license", "azure", "google", "aws",
    "ibm", "huggingface", "ollama", "replicate"
  ]

  datatype ComplianceError =
    | ForbiddenApi(apiName: string)
    | ForbiddenDependency(dep: string, term: string)
      /** `readFileSync` or `JSON.parse` threw, or the document is `null` */
    | UnreadablePackage

  const ApiPrefix := "❌ Forbidden API usage: "
  const DependencyPrefix := "❌ Forbidden dependency detected: "

  /**
   * The text of the `Error` the agent throws for a failure; `None` for an
   * unreadable package, where the error is the one `readFileSync` or
   * `JSON.parse` threw.
   */
  function Message(e: ComplianceError): (m: Option<string>)
    ensures m.Some? <==> !e.UnreadablePackage?
    ensures e.ForbiddenApi? ==> StartsWith(m.value, ApiPrefix) && m.value[|ApiPrefix|..] == e.apiName
    ensures e.ForbiddenDependency? ==>
      && StartsWith(m.value, DependencyPrefix)
      && Contains(m.value, e.dep)
      && Contains(m.value, "'" + e.term + "'")
  {
    match e
    case ForbiddenApi(name) => Some(ApiPrefix + name)
    case ForbiddenDependency(dep, term) =>
      var quoted, tail := "'" + term + "'", ")\nRemove this to comply with FOSS/local-only policy.";
      var text := DependencyPrefix + dep + " (matches " + quoted + tail;
      assert text == DependencyPrefix + dep + (" (matches " + quoted + tail);
      ContainsMiddle(DependencyPrefix, dep, " (matches " + quoted + tail);
      ContainsMiddle(DependencyPrefix + dep + " (matches ", quoted, tail);
      Some(text)
    case UnreadablePackage => None
  }

  /** The two kinds of message are told apart by their opening words. */
  lemma MessagesDistinguishKinds(name: string, dep: string, term: string)
    ensures !StartsWith(Message(ForbiddenApi(name)).value, DependencyPrefix)
    ensures !StartsWith(Message(ForbiddenDependency(dep, term)).value, ApiPrefix)
    ensures Message(ForbiddenApi(name)) != Message(ForbiddenDependency(dep, term))
  {
    var a, d := Message(ForbiddenApi(name)).value, Message(ForbiddenDependency(dep, term)).value;
    assert a[..|ApiPrefix|] == ApiPrefix && d[..|DependencyPrefix|] == DependencyPrefix;
    assert a[2] == ApiPrefix[2] == 'F' && d[2] == DependencyPrefix[2] == 'F';
    assert a[12] == 'A' && d[12] == 'd';
  }

  /**
   * The parsed `package.json`: each of `dependencies` and `devDependencies`
   * is absent or an object, given by its keys in `Object.keys` order.
   */
  datatype PackageJson = PackageJson(dependencies: Option<seq<string>>, devDependencies: Option<seq<string>>)

  /** What `enforceCompliance` finds at `<cwd>/package.json`. */
  datatype PackageFile = Missing | Unreadable | Present(pkg: PackageJson)

  /** `Object.keys(pkg.dependencies || {}).concat(Object.keys(pkg.devDependencies || {}))` */
  function AllDeps(pkg: PackageJson): (deps: seq<string>)
    ensures |deps| == |pkg.dependencies.GetOr([])| + |pkg.devDependencies.GetOr([])|
    ensures forall d :: d in deps <==> d in pkg.dependencies.GetOr([]) || d in pkg.devDependencies.GetOr([])
  {
    pkg.dependencies.GetOr([]) + pkg.devDependencies.GetOr([])
  }

  /** The name matches `term` when its lower-cased form includes the term. */
  predicate Hits(name: string, term: string) {
    Contains(Lower(name), term)
  }

  /** The index of the first term of `terms` that `name` hits, if any. */
  function FirstHit(name: string, terms: seq<string>): (r: Option<nat>) {
    FirstContained(Lower(name), terms)
  }

  /**
   * The first dependency (by index) that hits some term, paired with the
   * index of the first term it hits.
   */
  function FirstOffender(deps: seq<string>, terms: seq<string>): (r: Option<(nat, nat)>)
    ensures r.Some? ==> r.value.0 < |deps| && FirstHit(deps[r.value.0], terms) == Some(r.value.1)
    ensures r.Some? ==> forall k :: 0 <= k < r.value.0 ==> FirstHit(deps[k], terms).None?
    ensures r.None? <==> forall k :: 0 <= k < |deps| ==> FirstHit(deps[k], terms).None?
  {
    if deps == [] then None
    else match FirstHit(deps[0], terms)
      case Some(t) => Some((0, t))
      case None =>
        var rest := deps[1..];
        assert forall k :: 0 <= k < |rest| ==> rest[k] == deps[k + 1];
        match FirstOffender(rest, terms)
        case None => None
        case Some(p) => Some((p.0 + 1, p.1))
  }

  lemma {:induction false} FirstOffenderIs(deps: seq<string>, terms: seq<string>, i: nat, t: nat)
    requires i < |deps| && FirstHit(deps[i], terms) == Some(t)
    requires forall k :: 0 <= k < i ==> FirstHit(deps[k], terms).None?
    ensures FirstOffender(deps, terms) == Some((i, t))
  {
    if i > 0 {
      assert forall k :: 0 <= k < i - 1 ==> deps[1..][k] == deps[k + 1];
      FirstOffenderIs(deps[1..], terms, i - 1, t);
    }
  }

  /** What `refuseForbiddenAPI(apiName)` does. */
  function CheckApi(apiName: string): (r: Outcome<ComplianceError>) {
    if FirstHit(apiName, ForbiddenApis).Some? then Fail(ForbiddenApi(apiName)) else Pass
  }

  /** What `enforceCompliance()` does with the package file it finds. */
  function Scan(file: PackageFile): (r: Outcome<ComplianceError>) {
    match file
    case Missing => Pass
    case Unreadable => Fail(UnreadablePackage)
    case Present(pkg) =>
      var deps := AllDeps(pkg);
      match FirstOffender(deps, ForbiddenDependencies)
      case None => Pass
      case Some(p) => Fail(ForbiddenDependency(deps[p.0], ForbiddenDependencies[p.1]))
  }

  /** The inner loop of both checks: the first term `name` hits, in list order. */
  method FindHit(name: string, terms: seq<string>) returns (r: Option<nat>)
    ensures r == FirstHit(name, terms)
  {
    var lower := Lower(name);
    var j := 0;
    while j < |terms|
      invariant 0 <= j <= |terms|
      invariant forall t :: 0 <= t < j ==> !Contains(lower, terms[t])
    {
      if Contains(lower, terms[j]) {
        FirstContainedIs(lower, terms, j);
        return Some(j);
      }
      j := j + 1;
    }
    return None;
  }

  /** The outer loop of `enforceCompliance`: dependencies in order, each against every term. */
  method FindOffender(deps: seq<string>, terms: seq<string>) returns (r: Option<(nat, nat)>)
    ensures r == FirstOffender(deps, terms)
  {
    var i := 0;
    while i < |deps|
      invariant 0 <= i <= |deps|
      invariant forall k :: 0 <= k < i ==> FirstHit(deps[k], terms).None?
    {
      var hit := FindHit(deps[i], terms);
      if hit.Some? {
        FirstOffenderIs(deps, terms, i, hit.value);
        return Some((i, hit.value));
      }
      i := i + 1;
    }
    return None;
  }

  /** `RileyCoreAgent.refuseForbiddenAPI`: throws on the first deny-list term the name includes. */
  method RefuseForbiddenApi(apiName: string) returns (r: Outcome<ComplianceError>)
    ensures r == CheckApi(apiName)
    ensures r.Fail? ==> Message(r.error) == Some(ApiPrefix + apiName)
  {
    var hit := FindHit(apiName, ForbiddenApis);
    if hit.Some? {
      return Fail(ForbiddenApi(apiName));
    }
    return Pass;
  }

  /** `RileyCoreAgent.enforceCompliance`: the dependency scan run by the constructor. */
  method EnforceCompliance(file: PackageFile) returns (r: Outcome<ComplianceError>)
    ensures r == Scan(file)
    ensures r.Fail? ==> (Message(r.error).Some? <==> file.Present?)
  {
    match file
    case Missing => return Pass;
    case Unreadable => return Fail(UnreadablePackage);
    case Present(pkg) =>
      var allDeps := pkg.dependencies.GetOr([]) + pkg.devDependencies.GetOr([]);
      var offender := FindOffender(allDeps, ForbiddenDependencies);
      match offender
      case None => return Pass;
      case Some(p) => return Fail(ForbiddenDependency(allDeps[p.0], ForbiddenDependencies[p.1]));
  }

  /** The API check refuses exactly the names that include a deny-list term. */
  lemma ApiRefusedIff(apiName: string)
    ensures CheckApi(apiName).Fail? <==> exists t :: t in ForbiddenApis && Contains(Lower(apiName), t)
    ensures CheckApi(apiName).Fail? ==> CheckApi(apiName).error == ForbiddenApi(apiName)
  {
    if r :| r in ForbiddenApis && Hits(apiName, r) {
      var j :| 0 <= j < |ForbiddenApis| && ForbiddenApis[j] == r;
      assert !FirstHit(apiName, ForbiddenApis).None?;
    }
  }

  /** `'copilot'` is refused whatever its casing. */
  lemma CopilotRefused()
    ensures CheckApi("copilot").Fail?
    ensures CheckApi("CoPilot").Fail?
    ensures CheckApi("COPILOT").Fail?
  {
    var lower, mixed, upper := "copilot", "CoPilot", "COPILOT";
    assert forall i :: 0 <= i < 7 ==> LowerChar(mixed[i]) == lower[i] && LowerChar(upper[i]) == lower[i] && LowerChar(lower[i]) == lower[i];
    assert Lower(mixed) == lower;
    assert Lower(upper) == lower;
    assert Lower(lower) == lower;
    CopilotHit(lower);
    CopilotHit(mixed);
    CopilotHit(upper);
  }

  /**
   * `toLowerCase` folds the Kelvin sign to `k`, so `TO\u212AEN` lower-cases
   * to `token` and is refused.
   */
  lemma KelvinSignRefused()
    ensures CheckApi("TO\U{212A}EN").Fail?
  {
    var name, lower := "TO\U{212A}EN", "token";
    assert forall i :: 0 <= i < 5 ==> LowerChar(name[i]) == lower[i];
    assert Lower(name) == lower;
    assert ForbiddenApis[15] == lower;
    ContainsAt(Lower(name), ForbiddenApis[15], 0);
  }

  lemma CopilotHit(name: string)
    requires Lower(name) == "copilot"
    ensures CheckApi(name).Fail?
  {
    ContainsAt(Lower(name), ForbiddenApis[0], 0);
    FirstContainedIs(Lower(name), ForbiddenApis, 0);
  }

  /** The scan of a present `package.json` fails iff some dependency name hits a term. */
  lemma ScanFailsIff(pkg: PackageJson)
    ensures Scan(Present(pkg)).Fail? <==>
      exists d, t :: d in AllDeps(pkg) && t in ForbiddenDependencies && Hits(d, t)
  {
    OffenderIffSomeHit(AllDeps(pkg), ForbiddenDependencies);
  }

  /** There is a first offender exactly when some name hits some term. */
  lemma OffenderIffSomeHit(deps: seq<string>, terms: seq<string>)
    ensures FirstOffender(deps, terms).Some? <==> exists d, t :: d in deps && t in terms && Hits(d, t)
  {
    match FirstOffender(deps, terms)
    case Some(p) =>
      assert deps[p.0] in deps && terms[p.1] in terms;
      assert Hits(deps[p.0], terms[p.1]);
    case None =>
      forall d, t | d in deps && t in terms ensures !Hits(d, t) {
        var k :| 0 <= k < |deps| && deps[k] == d;
        var j :| 0 <= j < |terms| && terms[j] == t;
        assert FirstHit(deps[k], terms).None?;
      }
  }

  /**
   * The reported dependency is the first offending one, dependencies before
   * devDependencies, and the reported term is the first it hits in deny-list order.
   */
  lemma ScanReportsFirst(pkg: PackageJson)
    requires Scan(Present(pkg)).Fail?
    ensures var e := Scan(Present(pkg)).error;
      && e.ForbiddenDependency?
      && exists i, t ::
        && 0 <= i < |AllDeps(pkg)| && 0 <= t < |ForbiddenDependencies|
        && e.dep == AllDeps(pkg)[i] && e.term == ForbiddenDependencies[t]
        && Hits(e.dep, e.term)
        && (forall k, u :: 0 <= k < i && 0 <= u < |ForbiddenDependencies| ==> !Hits(AllDeps(pkg)[k], ForbiddenDependencies[u]))
        && (forall u :: 0 <= u < t ==> !Hits(e.dep, ForbiddenDependencies[u]))
  {
    var deps := AllDeps(pkg);
    var p := FirstOffender(deps, ForbiddenDependencies).value;
    OffenderIsFirst(deps, ForbiddenDependencies);
    assert Scan(Present(pkg)).error == ForbiddenDependency(deps[p.0], ForbiddenDependencies[p.1]);
  }

  /** The offender found comes before every other hit, and its term before every other term it hits. */
  lemma OffenderIsFirst(deps: seq<string>, terms: seq<string>)
    requires FirstOffender(deps, terms).Some?
    ensures var p := FirstOffender(deps, terms).value;
      && p.0 < |deps| && p.1 < |terms| && Hits(deps[p.0], terms[p.1])
      && (forall k, u :: 0 <= k < p.0 && 0 <= u < |terms| ==> !Hits(deps[k], terms[u]))
      && (forall u :: 0 <= u < p.1 ==> !Hits(deps[p.0], terms[u]))
  {
    var p := FirstOffender(deps, terms).value;
    forall k, u | 0 <= k < p.0 && 0 <= u < |terms|
      ensures !Hits(deps[k], terms[u])
    {
      assert FirstHit(deps[k], terms).None?;
    }
  }

  /** Without a `package.json` nothing is checked and the scan succeeds. */
  lemma MissingPackagePasses()
    ensures Scan(Missing) == Pass
  {
  }

  /** Missing `dependencies`/`devDependencies` objects scan like empty ones. */
  lemma MissingMapsAreEmpty(deps: Option<seq<string>>, devDeps: Option<seq<string>>)
    ensures Scan(Present(PackageJson(deps, None))) == Scan(Present(PackageJson(deps, Some([]))))
    ensures Scan(Present(PackageJson(None, devDeps))) == Scan(Present(PackageJson(Some([]), devDeps)))
  {
  }

  /**
   * Start-up and run time apply the same deny-list: a package whose only
   * dependency is `name` is refused iff the API name `name` is.
   */
  lemma DependencyScanAgreesWithApiCheck(name: string)
    ensures Scan(Present(PackageJson(Some([name]), None))).Fail? <==> CheckApi(name).Fail?
  {
    assert ForbiddenDependencies == ForbiddenApis;
    assert AllDeps(PackageJson(Some([name]), None)) == [name];
  }

  /** `RileyCoreAgent.isFOSSCompliant`: reached only when no scan threw, so always true. */
  function IsFossCompliant(): (r: bool)
    ensures r
  {
    true
  }

  /** The contents of `.riley-agent.json`. */
  datatype ComplianceLock = ComplianceLock(complianceLockPrompt: string, initiationPrompt: string)

  class RileyCoreAgent {
    /** Set once by the constructor, never written again. */
    const config: ComplianceLock

    /** The field assignment of the constructor; `Create` adds the scan that may throw. */
    constructor (lock: ComplianceLock)
      ensures config == lock
    {
      config := lock;
    }

    /** `new RileyCoreAgent()`: keep the lock, then run the dependency scan, which may throw. */
    static method Create(lock: ComplianceLock, file: PackageFile) returns (agent: RileyCoreAgent?, r: Outcome<ComplianceError>)
      ensures r == Scan(file)
      ensures agent != null <==> r.Pass?
      ensures agent != null ==> fresh(agent) && agent.config == lock
    {
      r := EnforceCompliance(file);
      if r.Pass? {
        agent := new RileyCoreAgent(lock);
      } else {
        agent := null;
      }
    }

    /** `getPrompt()` */
    function GetPrompt(): (p: string)
      ensures p == config.complianceLockPrompt
    {
      config.complianceLockPrompt
    }

    /** `getInitPrompt()` */
    function GetInitPrompt(): (p: string)
      ensures p == config.initiationPrompt
    {
      config.initiationPrompt
    }
  }
}
