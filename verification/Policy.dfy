/** src/policy.cpp and include/fileguard/policy.hpp: the path-level policy. */
module Policies {
  import opened Common

  // Scoped enums with a fixed underlying type can hold any byte, which is why
  // the source checks for values other than the named ones.
  datatype Operation = Open | OtherOperation(code: nat)
  datatype Action = Allow | Deny
  datatype ProcessIdentityType = ExePath | OtherIdentityType(code: nat)

  datatype ProcessIdentity = ProcessIdentity(kind: ProcessIdentityType, value: string)
  datatype ResourceIdentity = ResourceIdentity(path: string, operation: Option<Operation>)
  datatype PolicyRule = PolicyRule(
    id: string,
    resource: ResourceIdentity,
    process: ProcessIdentity,
    operation: Operation,
    action: Action)
  datatype Policy = Policy(
    version: i32,
    defaultAction: Action,
    protectedResources: seq<ResourceIdentity>,
    rules: seq<PolicyRule>)

  datatype PolicyError =
    | NegativeVersion
    | EmptyProtectedPath
    | RelativeProtectedPath(path: string)
    | UnsupportedProtectedOperation(path: string)
    | DuplicateProtected(path: string)
    | EmptyRuleId
    | DuplicateRuleId(id: string)
    | RelativeRuleResource(id: string)
    | RuleResourceUnprotected(id: string, path: string)
    | UnsupportedIdentityType(id: string)
    | EmptyProcessPath(id: string)
    | UnsupportedRuleOperation(id: string)

  predicate Absolute(path: string) {
    |path| > 0 && path[0] == '/'
  }

  // ---------------------------------------------------------------- validation

  ghost predicate Listed(resources: seq<ResourceIdentity>, path: string) {
    exists i :: 0 <= i < |resources| && resources[i].path == path
  }

  ghost predicate UniquePaths(resources: seq<ResourceIdentity>) {
    forall i, j :: 0 <= i < j < |resources| ==> resources[i].path != resources[j].path
  }

  ghost predicate UniqueIds(rules: seq<PolicyRule>) {
    forall i, j :: 0 <= i < j < |rules| ==> rules[i].id != rules[j].id
  }

  ghost predicate ResourceOk(res: ResourceIdentity) {
    Absolute(res.path) && (res.operation.Some? ==> res.operation.value == Open)
  }

  ghost predicate RuleOk(resources: seq<ResourceIdentity>, rule: PolicyRule) {
    && rule.id != ""
    && Absolute(rule.resource.path)
    && Listed(resources, rule.resource.path)
    && rule.process.kind == ExePath
    && rule.process.value != ""
    && rule.operation == Open
  }

  // The documented validity rules, with no reference to how they are checked.
  ghost predicate WellFormed(p: Policy) {
    && p.version >= 0
    && (forall i :: 0 <= i < |p.protectedResources| ==> ResourceOk(p.protectedResources[i]))
    && UniquePaths(p.protectedResources)
    && (forall i :: 0 <= i < |p.rules| ==> RuleOk(p.protectedResources, p.rules[i]))
    && UniqueIds(p.rules)
  }

  // Not a rule of validate; the parser adds it.
  ghost predicate AbsoluteProcesses(p: Policy) {
    forall i :: 0 <= i < |p.rules| ==> Absolute(p.rules[i].process.value)
  }

  // What each error message claims about the policy it rejects.
  ghost predicate Describes(e: PolicyError, p: Policy) {
    match e
    case NegativeVersion => p.version < 0
    case EmptyProtectedPath => Listed(p.protectedResources, "")
    case RelativeProtectedPath(path) => !Absolute(path) && path != "" && Listed(p.protectedResources, path)
    case UnsupportedProtectedOperation(path) =>
      exists res :: res in p.protectedResources && res.path == path && res.operation.Some? && res.operation.value != Open
    case DuplicateProtected(path) =>
      exists i, j :: 0 <= i < j < |p.protectedResources| && p.protectedResources[i].path == path == p.protectedResources[j].path
    case EmptyRuleId => exists rule :: rule in p.rules && rule.id == ""
    case DuplicateRuleId(id) => exists i, j :: 0 <= i < j < |p.rules| && p.rules[i].id == id == p.rules[j].id
    case RelativeRuleResource(id) => exists rule :: rule in p.rules && rule.id == id && !Absolute(rule.resource.path)
    case RuleResourceUnprotected(id, path) =>
      !Listed(p.protectedResources, path) && exists rule :: rule in p.rules && rule.id == id && rule.resource.path == path
    case UnsupportedIdentityType(id) => exists rule :: rule in p.rules && rule.id == id && rule.process.kind != ExePath
    case EmptyProcessPath(id) => exists rule :: rule in p.rules && rule.id == id && rule.process.value == ""
    case UnsupportedRuleOperation(id) => exists rule :: rule in p.rules && rule.id == id && rule.operation != Open
  }

  // First pass of validate; hands its hash set to the second.
  method ValidateResources(p: Policy) returns (r: Result<set<string>, PolicyError>)
    ensures r.Success? <==>
      && (forall i :: 0 <= i < |p.protectedResources| ==> ResourceOk(p.protectedResources[i]))
      && UniquePaths(p.protectedResources)
    ensures r.Success? ==> forall path :: path in r.value <==> Listed(p.protectedResources, path)
    ensures r.Failure? ==> Describes(r.error, p)
  {
    var protectedPaths: set<string> := {};
    for i := 0 to |p.protectedResources|
      invariant forall k :: 0 <= k < i ==> ResourceOk(p.protectedResources[k])
      invariant forall j, k :: 0 <= j < k < i ==> p.protectedResources[j].path != p.protectedResources[k].path
      invariant forall path :: path in protectedPaths <==> exists k :: 0 <= k < i && p.protectedResources[k].path == path
    {
      var res := p.protectedResources[i];
      if res.path == "" {
        return Failure(EmptyProtectedPath);
      }
      if res.path[0] != '/' {
        return Failure(RelativeProtectedPath(res.path));
      }
      if res.operation.Some? && res.operation.value != Open {
        return Failure(UnsupportedProtectedOperation(res.path));
      }
      if res.path in protectedPaths {
        return Failure(DuplicateProtected(res.path));
      }
      protectedPaths := protectedPaths + {res.path};
    }
    return Success(protectedPaths);
  }

  // Second pass of validate.
  method ValidateRules(p: Policy, protectedPaths: set<string>) returns (r: Result<(), PolicyError>)
    requires forall path :: path in protectedPaths <==> Listed(p.protectedResources, path)
    ensures r.Success? <==>
      && (forall i :: 0 <= i < |p.rules| ==> RuleOk(p.protectedResources, p.rules[i]))
      && UniqueIds(p.rules)
    ensures r.Failure? ==> Describes(r.error, p)
  {
    var ruleIds: set<string> := {};
    for i := 0 to |p.rules|
      invariant forall k :: 0 <= k < i ==> RuleOk(p.protectedResources, p.rules[k])
      invariant forall j, k :: 0 <= j < k < i ==> p.rules[j].id != p.rules[k].id
      invariant forall id :: id in ruleIds <==> exists k :: 0 <= k < i && p.rules[k].id == id
    {
      var rule := p.rules[i];
      if rule.id == "" {
        return Failure(EmptyRuleId);
      }
      if rule.id in ruleIds {
        return Failure(DuplicateRuleId(rule.id));
      }
      ruleIds := ruleIds + {rule.id};
      if rule.resource.path == "" || rule.resource.path[0] != '/' {
        return Failure(RelativeRuleResource(rule.id));
      }
      if rule.resource.path !in protectedPaths {
        return Failure(RuleResourceUnprotected(rule.id, rule.resource.path));
      }
      if rule.process.kind != ExePath {
        return Failure(UnsupportedIdentityType(rule.id));
      }
      if rule.process.value == "" {
        return Failure(EmptyProcessPath(rule.id));
      }
      if rule.operation != Open {
        return Failure(UnsupportedRuleOperation(rule.id));
      }
    }
    return Success(());
  }

  /** Policy::validate: two passes that accumulate hash sets. */
  method Validate(p: Policy) returns (r: Result<(), PolicyError>)
    ensures r.Success? <==> WellFormed(p)
    ensures r.Failure? ==> Describes(r.error, p)
  {
    if p.version < 0 {
      return Failure(NegativeVersion);
    }
    var protectedPaths :- ValidateResources(p);
    r := ValidateRules(p, protectedPaths);
  }

  // ---------------------------------------------------------------- lookups

  predicate Matches(rule: PolicyRule, path: string, process: ProcessIdentity, op: Operation) {
    rule.resource.path == path && rule.process == process && rule.operation == op
  }

  /** The index of the first element satisfying f. */
  function FirstIndex<T>(s: seq<T>, f: T -> bool): (r: Option<nat>)
    ensures r.Some? ==> r.value < |s| && f(s[r.value]) && forall k :: 0 <= k < r.value ==> !f(s[k])
    ensures r.None? ==> forall k :: 0 <= k < |s| ==> !f(s[k])
  {
    if s == [] then None
    else if f(s[0]) then Some(0)
    else
      match FirstIndex(s[1..], f)
      case None => None
      case Some(k) => Some(k + 1)
  }

  function IsProtected(p: Policy, path: string): (b: bool)
    ensures b <==> Listed(p.protectedResources, path)
  {
    exists i :: 0 <= i < |p.protectedResources| && p.protectedResources[i].path == path
  }

  function FindRule(p: Policy, path: string, process: ProcessIdentity, op: Operation): (r: Option<nat>)
    ensures r.Some? ==> r.value < |p.rules| && Matches(p.rules[r.value], path, process, op)
    ensures r.Some? ==> forall k :: 0 <= k < r.value ==> !Matches(p.rules[k], path, process, op)
    ensures r.None? ==> forall k :: 0 <= k < |p.rules| ==> !Matches(p.rules[k], path, process, op)
  {
    FirstIndex(p.rules, (rule: PolicyRule) => Matches(rule, path, process, op))
  }

  /** Policy::is_protected as the scan the source runs. */
  method IsProtectedScan(p: Policy, path: string) returns (b: bool)
    ensures b <==> IsProtected(p, path)
  {
    for i := 0 to |p.protectedResources|
      invariant forall k :: 0 <= k < i ==> p.protectedResources[k].path != path
    {
      if p.protectedResources[i].path == path {
        return true;
      }
    }
    return false;
  }

  /** Policy::find_rule as the scan the source runs; a null pointer is None. */
  method FindRuleScan(p: Policy, path: string, process: ProcessIdentity, op: Operation) returns (r: Option<nat>)
    ensures r == FindRule(p, path, process, op)
  {
    for i := 0 to |p.rules|
      invariant forall k :: 0 <= k < i ==> !Matches(p.rules[k], path, process, op)
    {
      if Matches(p.rules[i], path, process, op) {
        return Some(i);
      }
    }
    return None;
  }
}
