/** src/policy_compiler.cpp: paths to inode identities. */
module Compiler {
  import opened Common
  import opened FileIdentity
  import opened Policies

  // The injected FileResolver, taken to be fixed during one compilation.
  type FileResolver = string -> Result<FileId, string>

  datatype CompiledRule = CompiledRule(
    ruleId: u32,
    resource: FileId,
    process: FileId,
    operation: Operation,
    action: Action)
  datatype CompiledPolicy = CompiledPolicy(
    version: i32,
    protectedResources: seq<FileId>,
    rules: seq<CompiledRule>)

  datatype CompileError =
    | InvalidPolicy(error: PolicyError)
    | CannotResolve(path: string, message: string)
    | ZeroInode(path: string)
    | UnresolvedResource(ruleId: string)

  predicate Resolves(fs: FileResolver, path: string) {
    fs(path).Success? && fs(path).value.Valid()
  }

  function IdOf(fs: FileResolver, path: string): (id: FileId)
    ensures fs(path) == Success(id) || (fs(path).Failure? && id == FileId(0, 0, 0))
  {
    if fs(path).Success? then fs(path).value else NO_FILE
  }

  ghost predicate Compilable(p: Policy, fs: FileResolver) {
    && WellFormed(p)
    && (forall i :: 0 <= i < |p.protectedResources| ==> Resolves(fs, p.protectedResources[i].path))
    && (forall i :: 0 <= i < |p.rules| ==> Resolves(fs, p.rules[i].process.value))
  }

  // Rules are numbered from 1 in a counter that is 32 bits wide.
  function RuleNumber(i: nat): u32 {
    (i + 1) % TWO_32
  }

  function CompileRule(rule: PolicyRule, i: nat, fs: FileResolver): CompiledRule {
    CompiledRule(RuleNumber(i), IdOf(fs, rule.resource.path), IdOf(fs, rule.process.value), rule.operation, rule.action)
  }

  function CompiledForm(p: Policy, fs: FileResolver): (c: CompiledPolicy)
    ensures |c.protectedResources| == |p.protectedResources| && |c.rules| == |p.rules|
  {
    CompiledPolicy(
      p.version,
      seq(|p.protectedResources|, i requires 0 <= i < |p.protectedResources| => IdOf(fs, p.protectedResources[i].path)),
      seq(|p.rules|, i requires 0 <= i < |p.rules| => CompileRule(p.rules[i], i, fs)))
  }

  /** What compiling means: the same version, and entry by entry the identities the
      resolver gives for the paths, the same operation and action, and numbers from 1. */
  ghost predicate Translates(p: Policy, fs: FileResolver, c: CompiledPolicy) {
    && c.version == p.version
    && |c.protectedResources| == |p.protectedResources|
    && (forall i :: 0 <= i < |p.protectedResources| ==>
          fs(p.protectedResources[i].path) == Success(c.protectedResources[i]))
    && |c.rules| == |p.rules|
    && (forall i :: 0 <= i < |p.rules| ==> TranslatesRule(p.rules[i], i, fs, c.rules[i]))
  }

  ghost predicate TranslatesRule(rule: PolicyRule, i: nat, fs: FileResolver, c: CompiledRule) {
    && fs(rule.resource.path) == Success(c.resource)
    && fs(rule.process.value) == Success(c.process)
    && c.operation == rule.operation
    && c.action == rule.action
    && c.ruleId == (i + 1) % 0x1_0000_0000
  }

  lemma CompiledFormTranslates(p: Policy, fs: FileResolver)
    requires Compilable(p, fs)
    ensures Translates(p, fs, CompiledForm(p, fs))
  {
    forall i | 0 <= i < |p.rules| ensures TranslatesRule(p.rules[i], i, fs, CompiledForm(p, fs).rules[i]) {
      assert RuleOk(p.protectedResources, p.rules[i]);
      var j :| 0 <= j < |p.protectedResources| && p.protectedResources[j].path == p.rules[i].resource.path;
      assert Resolves(fs, p.protectedResources[j].path);
    }
  }

  lemma TranslationUnique(p: Policy, fs: FileResolver, c: CompiledPolicy, d: CompiledPolicy)
    requires Translates(p, fs, c) && Translates(p, fs, d)
    ensures c == d
  {
    forall i | 0 <= i < |p.protectedResources| ensures c.protectedResources[i] == d.protectedResources[i] {
      assert fs(p.protectedResources[i].path) == Success(c.protectedResources[i]);
    }
    forall i | 0 <= i < |p.rules| ensures c.rules[i] == d.rules[i] {
      assert TranslatesRule(p.rules[i], i, fs, c.rules[i]) && TranslatesRule(p.rules[i], i, fs, d.rules[i]);
    }
  }

  // What a compile error claims about the policy and the file system.
  ghost predicate Explains(e: CompileError, p: Policy, fs: FileResolver) {
    match e
    case InvalidPolicy(error) => Describes(error, p)
    case CannotResolve(path, message) => Mentioned(p, path) && fs(path) == Failure(message)
    case ZeroInode(path) => Mentioned(p, path) && fs(path).Success? && !fs(path).value.Valid()
    case UnresolvedResource(_) => false
  }

  ghost predicate Mentioned(p: Policy, path: string) {
    || Listed(p.protectedResources, path)
    || exists rule :: rule in p.rules && rule.process.value == path
  }

  // Phase 1: every protected resource is resolved once.
  method ResolveResources(p: Policy, fs: FileResolver) returns (r: Result<seq<(string, FileId)>, CompileError>)
    requires WellFormed(p)
    ensures r.Success? <==> forall k :: 0 <= k < |p.protectedResources| ==> Resolves(fs, p.protectedResources[k].path)
    ensures r.Success? ==> Resolved(p, fs, r.value)
    ensures r.Failure? ==> Explains(r.error, p, fs)
  {
    var resolved: seq<(string, FileId)> := [];
    for i := 0 to |p.protectedResources|
      invariant |resolved| == i
      invariant forall k :: 0 <= k < i ==> Resolves(fs, p.protectedResources[k].path)
      invariant forall k :: 0 <= k < i ==>
        resolved[k] == (p.protectedResources[k].path, IdOf(fs, p.protectedResources[k].path))
    {
      var path := p.protectedResources[i].path;
      var id :- fs(path).MapFailure((message: string) => CannotResolve(path, message));
      if !id.Valid() {
        return Failure(ZeroInode(path));
      }
      resolved := resolved + [(path, id)];
    }
    return Success(resolved);
  }

  ghost predicate Resolved(p: Policy, fs: FileResolver, resolved: seq<(string, FileId)>) {
    && |resolved| == |p.protectedResources|
    && forall k :: 0 <= k < |resolved| ==>
      resolved[k] == (p.protectedResources[k].path, IdOf(fs, p.protectedResources[k].path))
  }

  // The inner search of phase 2: the id recorded for the first entry with this path.
  method FindResolved(p: Policy, fs: FileResolver, resolved: seq<(string, FileId)>, path: string) returns (id: Option<FileId>)
    requires Resolved(p, fs, resolved)
    ensures id == if Listed(p.protectedResources, path) then Some(IdOf(fs, path)) else None
  {
    for j := 0 to |resolved|
      invariant forall k :: 0 <= k < j ==> resolved[k].0 != path
    {
      if resolved[j].0 == path {
        return Some(resolved[j].1);
      }
    }
    return None;
  }

  /** PolicyCompiler::compile. It succeeds exactly on valid policies whose paths all
      resolve to a real inode; its "unresolved protected resource" error never happens. */
  method Compile(p: Policy, fs: FileResolver) returns (r: Result<CompiledPolicy, CompileError>)
    ensures r.Success? <==> Compilable(p, fs)
    ensures r.Success? ==> Translates(p, fs, r.value)
    ensures r.Success? ==> r.value == CompiledForm(p, fs)
    ensures r.Failure? ==> Explains(r.error, p, fs)
  {
    var v := Validate(p);
    var _ :- v.MapFailure((e: PolicyError) => InvalidPolicy(e));
    var resolved :- ResolveResources(p, fs);

    var rules: seq<CompiledRule> := [];
    var ruleIndex: u32 := 1;
    for i := 0 to |p.rules|
      invariant ruleIndex == RuleNumber(i)
      invariant |rules| == i
      invariant forall k :: 0 <= k < i ==> Resolves(fs, p.rules[k].process.value)
      invariant forall k :: 0 <= k < i ==> rules[k] == CompileRule(p.rules[k], k, fs)
    {
      var rule := p.rules[i];
      assert RuleOk(p.protectedResources, rule);
      var resId := FindResolved(p, fs, resolved, rule.resource.path);
      if resId.None? {
        assert false;
        return Failure(UnresolvedResource(rule.id));
      }
      var path := rule.process.value;
      var procId :- fs(path).MapFailure((message: string) => CannotResolve(path, message));
      if !procId.Valid() {
        return Failure(ZeroInode(path));
      }
      rules := rules + [CompiledRule(ruleIndex, resId.value, procId, rule.operation, rule.action)];
      ruleIndex := (ruleIndex + 1) % TWO_32;
    }
    var ids := seq(|resolved|, k requires 0 <= k < |resolved| => resolved[k].1);
    assert ids == CompiledForm(p, fs).protectedResources;
    assert rules == CompiledForm(p, fs).rules;
    CompiledFormTranslates(p, fs);
    return Success(CompiledPolicy(p.version, ids, rules));
  }

  /** Nothing that reaches the kernel maps carries a zero inode. */
  lemma CompiledIdsValid(p: Policy, fs: FileResolver)
    requires Compilable(p, fs)
    ensures forall i :: 0 <= i < |p.protectedResources| ==> CompiledForm(p, fs).protectedResources[i].Valid()
    ensures forall i :: 0 <= i < |p.rules| ==>
      CompiledForm(p, fs).rules[i].resource.Valid() && CompiledForm(p, fs).rules[i].process.Valid()
    ensures forall i :: 0 <= i < |p.rules| ==>
      CompiledForm(p, fs).rules[i].resource in CompiledForm(p, fs).protectedResources
  {
    var c := CompiledForm(p, fs);
    forall i | 0 <= i < |p.rules|
      ensures c.rules[i].resource.Valid() && c.rules[i].process.Valid() && c.rules[i].resource in c.protectedResources
    {
      assert RuleOk(p.protectedResources, p.rules[i]);
      var j :| 0 <= j < |p.protectedResources| && p.protectedResources[j].path == p.rules[i].resource.path;
      assert Resolves(fs, p.protectedResources[j].path);
      assert c.protectedResources[j] == c.rules[i].resource;
    }
  }
}
