/** src/controller.cpp: loading a policy as a transaction over the kernel, the userspace
    policy and the table that turns identities back into paths. */
module Controllers {
  import opened Common
  import opened FileIdentity
  import opened Policies
  import opened DecisionEngine
  import opened Compiler
  import opened KernelProgram
  import opened MeaningPreservation
  import opened UpdateProtocol
  import opened EbpfManager
  import ConsumerLoops

  // ------------------------------------------------------------ event enrichment

  // The (identity, path) pairs in the order load_policy adds them.
  function EnrichmentPairs(p: Policy, c: CompiledPolicy): (pairs: seq<(FileId, string)>)
    requires |c.protectedResources| == |p.protectedResources| && |c.rules| == |p.rules|
    ensures |pairs| == |p.protectedResources| + |p.rules|
  {
    seq(|p.protectedResources|, i requires 0 <= i < |p.protectedResources| =>
      (c.protectedResources[i], p.protectedResources[i].path)) +
    seq(|p.rules|, i requires 0 <= i < |p.rules| => (c.rules[i].process, p.rules[i].process.value))
  }

  /** The table after adding every pair in order: the last path of an identity stays. */
  function Overwrite(pairs: seq<(FileId, string)>): map<FileId, string> {
    if pairs == [] then map[]
    else Overwrite(pairs[..|pairs| - 1])[Last(pairs).0 := Last(pairs).1]
  }

  lemma {:induction false} OverwriteLastWins(pairs: seq<(FileId, string)>, id: FileId)
    ensures id in Overwrite(pairs) <==> exists i :: 0 <= i < |pairs| && pairs[i].0 == id
    ensures id in Overwrite(pairs) ==>
      exists i :: 0 <= i < |pairs| && pairs[i] == (id, Overwrite(pairs)[id]) &&
                  forall j :: i < j < |pairs| ==> pairs[j].0 != id
  {
    if pairs != [] {
      var n := |pairs| - 1;
      var front := pairs[..n];
      OverwriteLastWins(front, id);
      if Last(pairs).0 == id {
        assert pairs[n] == (id, Overwrite(pairs)[id]);
      } else if id in Overwrite(front) {
        var i :| 0 <= i < n && front[i] == (id, Overwrite(front)[id]) && forall j :: i < j < n ==> front[j].0 != id;
        assert pairs[i] == (id, Overwrite(pairs)[id]);
        assert forall j :: i < j < n ==> pairs[j] == front[j];
      }
    }
  }

  function EnrichmentTable(p: Policy, fs: FileResolver): map<FileId, string> {
    Overwrite(EnrichmentPairs(p, CompiledForm(p, fs)))
  }

  lemma PairAt(p: Policy, c: CompiledPolicy, i: nat)
    requires |c.protectedResources| == |p.protectedResources| && |c.rules| == |p.rules|
    ensures i < |p.protectedResources| ==>
      EnrichmentPairs(p, c)[i] == (c.protectedResources[i], p.protectedResources[i].path)
    ensures i < |p.rules| ==>
      EnrichmentPairs(p, c)[|p.protectedResources| + i] == (c.rules[i].process, p.rules[i].process.value)
  {
  }

  lemma PairFaithful(p: Policy, fs: FileResolver, i: nat)
    ensures var pairs := EnrichmentPairs(p, CompiledForm(p, fs));
            i < |pairs| ==> Mentioned(p, pairs[i].1) && IdOf(fs, pairs[i].1) == pairs[i].0
  {
    var c, m := CompiledForm(p, fs), |p.protectedResources|;
    if i < m {
      PairAt(p, c, i);
    } else if i < m + |p.rules| {
      PairAt(p, c, i - m);
      assert p.rules[i - m] in p.rules;
    }
  }

  /** A known identity is rendered as a configured path that resolves to it, and every
      compiled identity is known. */
  lemma EnrichmentFaithful(p: Policy, fs: FileResolver, id: FileId)
    ensures var t := EnrichmentTable(p, fs);
            id in t ==> Mentioned(p, t[id]) && IdOf(fs, t[id]) == id
    ensures id in EnrichmentTable(p, fs) <==>
      || id in CompiledForm(p, fs).protectedResources
      || exists r :: r in CompiledForm(p, fs).rules && r.process == id
  {
    var c := CompiledForm(p, fs);
    var pairs := EnrichmentPairs(p, c);
    OverwriteLastWins(pairs, id);
    if id in EnrichmentTable(p, fs) {
      var i :| 0 <= i < |pairs| && pairs[i] == (id, Overwrite(pairs)[id]);
      PairFaithful(p, fs, i);
    }
    PairIds(p, c, id);
  }

  lemma PairIds(p: Policy, c: CompiledPolicy, id: FileId)
    requires |c.protectedResources| == |p.protectedResources| && |c.rules| == |p.rules|
    ensures var pairs := EnrichmentPairs(p, c);
            (exists i :: 0 <= i < |pairs| && pairs[i].0 == id) <==>
            id in c.protectedResources || exists r :: r in c.rules && r.process == id
  {
    var pairs, m := EnrichmentPairs(p, c), |p.protectedResources|;
    if i :| 0 <= i < |pairs| && pairs[i].0 == id {
      if i < m {
        PairAt(p, c, i);
      } else {
        PairAt(p, c, i - m);
        assert c.rules[i - m] in c.rules;
      }
    }
    if id in c.protectedResources {
      var i :| 0 <= i < m && c.protectedResources[i] == id;
      PairAt(p, c, i);
      assert pairs[i].0 == id;
    }
    if r :| r in c.rules && r.process == id {
      var i :| 0 <= i < |c.rules| && c.rules[i] == r;
      PairAt(p, c, i);
      assert pairs[m + i].0 == id;
    }
  }

  // The last entry with an identity.
  ghost predicate LastWith<A>(s: seq<A>, idOf: A -> FileId, id: FileId, i: int) {
    0 <= i < |s| && idOf(s[i]) == id && forall j :: i < j < |s| ==> idOf(s[j]) != id
  }

  /** Which path that is, when several have the identity: the last process path of the
      rules, and only without one the last protected path. */
  lemma EnrichmentExact(p: Policy, fs: FileResolver, id: FileId, i: int)
    ensures LastWith(p.rules, (r: PolicyRule) => IdOf(fs, r.process.value), id, i) ==>
      id in EnrichmentTable(p, fs) && EnrichmentTable(p, fs)[id] == p.rules[i].process.value
    ensures LastWith(p.protectedResources, (r: ResourceIdentity) => IdOf(fs, r.path), id, i) &&
            (forall r :: r in p.rules ==> IdOf(fs, r.process.value) != id) ==>
      id in EnrichmentTable(p, fs) && EnrichmentTable(p, fs)[id] == p.protectedResources[i].path
  {
    var c, m := CompiledForm(p, fs), |p.protectedResources|;
    var pairs := EnrichmentPairs(p, c);
    forall k | 0 <= k < m ensures pairs[k] == (IdOf(fs, p.protectedResources[k].path), p.protectedResources[k].path) {
      PairAt(p, c, k);
    }
    forall k | 0 <= k < |p.rules| ensures pairs[m + k] == (IdOf(fs, p.rules[k].process.value), p.rules[k].process.value) {
      PairAt(p, c, k);
    }
    if LastWith(p.rules, (r: PolicyRule) => IdOf(fs, r.process.value), id, i) {
      assert forall k :: m + i < k < |pairs| ==> pairs[k].0 == IdOf(fs, p.rules[k - m].process.value);
      LastPairStays(pairs, id, m + i);
    }
    if LastWith(p.protectedResources, (r: ResourceIdentity) => IdOf(fs, r.path), id, i) &&
       forall r :: r in p.rules ==> IdOf(fs, r.process.value) != id {
      forall k | i < k < |pairs| ensures pairs[k].0 != id {
        if k >= m {
          assert pairs[m + (k - m)] == (IdOf(fs, p.rules[k - m].process.value), p.rules[k - m].process.value);
        }
      }
      LastPairStays(pairs, id, i);
    }
  }

  /** Under the table of a policy, an event on a known file, or of a known program, names it
      by a configured path that resolves to it. */
  lemma EventNamesFiles(p: Policy, fs: FileResolver, raw: ConsumerLoops.RawEvent,
                        e: ConsumerLoops.SecurityEvent, time: string)
    requires ConsumerLoops.Reports(e, raw, time, Some(EnrichmentTable(p, fs)))
    ensures raw.resource in CompiledForm(p, fs).protectedResources ==>
      Mentioned(p, e.resourcePath) && IdOf(fs, e.resourcePath) == raw.resource
    ensures (exists r :: r in CompiledForm(p, fs).rules && r.process == raw.process) ==>
      Mentioned(p, e.processPath) && IdOf(fs, e.processPath) == raw.process
  {
    EnrichmentFaithful(p, fs, raw.resource);
    EnrichmentFaithful(p, fs, raw.process);
  }

  lemma LastPairStays(pairs: seq<(FileId, string)>, id: FileId, i: nat)
    requires i < |pairs| && pairs[i].0 == id && forall j :: i < j < |pairs| ==> pairs[j].0 != id
    ensures id in Overwrite(pairs) && Overwrite(pairs)[id] == pairs[i].1
  {
    OverwriteLastWins(pairs, id);
  }

  /** Events name files unambiguously exactly when no configured path imitates the
      rendering of an identity outside the policy. */
  lemma EnrichmentUnambiguousIff(p: Policy, fs: FileResolver)
    ensures InjectiveOnAllIds(EnrichmentTable(p, fs)) <==> NoTextCollision(EnrichmentTable(p, fs))
  {
    var t := EnrichmentTable(p, fs);
    forall a, b | a in t && b in t && t[a] == t[b] ensures a == b {
      EnrichmentFaithful(p, fs, a);
      EnrichmentFaithful(p, fs, b);
    }
    UnambiguousIff(t);
  }

  /** The parser only accepts absolute process paths, which rules such imitations out. */
  lemma ParsedPoliciesUnambiguous(p: Policy, fs: FileResolver)
    requires WellFormed(p) && AbsoluteProcesses(p)
    ensures InjectiveOnAllIds(EnrichmentTable(p, fs))
  {
    var t := EnrichmentTable(p, fs);
    forall known, id: FileId | known in t && id !in t ensures t[known] != id.ToText() {
      EnrichmentFaithful(p, fs, known);
      RenderedIsNotAbsolute(id);
    }
    EnrichmentUnambiguousIff(p, fs);
  }

  /** validate alone does not: it accepts a process path spelled like an identity. */
  lemma ValidatedPolicyCanCollide()
    ensures exists p: Policy, fs: FileResolver :: Compilable(p, fs) && !InjectiveOnAllIds(EnrichmentTable(p, fs))
  {
    var other := FileId(0, 0, 9);
    var text := other.ToText();
    var rule := PolicyRule("r", ResourceIdentity("/a", None), ProcessIdentity(ExePath, text), Open, Allow);
    var p := Policy(1, Deny, [ResourceIdentity("/a", None)], [rule]);
    var fs: FileResolver := (path: string) => Success(FileId(8, 1, if path == text then 2 else 1));
    assert p.protectedResources[0].path == "/a";
    assert Compilable(p, fs);
    var known := FileId(8, 1, 2);
    var t, c := EnrichmentTable(p, fs), CompiledForm(p, fs);
    assert c.rules[0].process == known && c.rules[0] in c.rules;
    EnrichmentFaithful(p, fs, known);
    assert IdOf(fs, "/a") != known;
    assert t[known] == text;
    EnrichmentFaithful(p, fs, other);
    assert other !in t;
    assert Resolve(t, known) == Resolve(t, other);
  }

  lemma OverwriteStep(pairs: seq<(FileId, string)>, n: nat)
    requires n < |pairs|
    ensures Overwrite(pairs[..n + 1]) == Overwrite(pairs[..n])[pairs[n].0 := pairs[n].1]
  {
    assert pairs[..n + 1][..n] == pairs[..n];
  }

  lemma AddResource(p: Policy, c: CompiledPolicy, i: nat)
    requires |c.protectedResources| == |p.protectedResources| && |c.rules| == |p.rules| && i < |p.protectedResources|
    ensures var pairs := EnrichmentPairs(p, c);
            Overwrite(pairs[..i + 1]) == Overwrite(pairs[..i])[c.protectedResources[i] := p.protectedResources[i].path]
  {
    PairAt(p, c, i);
    OverwriteStep(EnrichmentPairs(p, c), i);
  }

  lemma AddProcess(p: Policy, c: CompiledPolicy, i: nat)
    requires |c.protectedResources| == |p.protectedResources| && |c.rules| == |p.rules| && i < |p.rules|
    ensures var pairs, m := EnrichmentPairs(p, c), |p.protectedResources|;
            Overwrite(pairs[..m + (i + 1)]) == Overwrite(pairs[..m + i])[c.rules[i].process := p.rules[i].process.value]
  {
    PairAt(p, c, i);
    OverwriteStep(EnrichmentPairs(p, c), |p.protectedResources| + i);
  }

  // The reverse table, built by walking compiled and source lists in step.
  method BuildResolver(p: Policy, c: CompiledPolicy) returns (resolver: PathResolver)
    requires |c.protectedResources| == |p.protectedResources| && |c.rules| == |p.rules|
    ensures fresh(resolver) && resolver.table == Overwrite(EnrichmentPairs(p, c))
  {
    ghost var pairs := EnrichmentPairs(p, c);
    resolver := new PathResolver();
    assert pairs[..0] == [];
    var i := 0;
    while i < |p.protectedResources| && i < |c.protectedResources|
      invariant i <= |p.protectedResources| && resolver.table == Overwrite(pairs[..i])
    {
      AddResource(p, c, i);
      resolver.Add(c.protectedResources[i], p.protectedResources[i].path);
      i := i + 1;
    }
    i := 0;
    while i < |p.rules| && i < |c.rules|
      invariant i <= |p.rules| && resolver.table == Overwrite(pairs[..|p.protectedResources| + i])
    {
      AddProcess(p, c, i);
      resolver.Add(c.rules[i].process, p.rules[i].process.value);
      i := i + 1;
    }
    assert pairs[..|pairs|] == pairs;
  }

  // ------------------------------------------------------------ the current policy

  /** Owns the single current policy. */
  class PolicyManager {
    var current: Option<Policy>

    constructor ()
      ensures current == None
    {
      current := None;
    }

    // None stands for a null pointer.
    method InstallPolicy(policy: Option<Policy>) returns (r: Result<(), Option<PolicyError>>)
      modifies this
      ensures r.Success? <==> policy.Some? && WellFormed(policy.value)
      ensures current == if r.Success? then policy else old(current)
    {
      if policy.None? {
        return Failure(None);
      }
      var v := Validate(policy.value);
      var _ :- v.MapFailure((e: PolicyError) => Some(e));
      current := policy;
      return Success(());
    }
  }

  datatype LoadError =
    | NullPolicy
    | Invalid(policyError: PolicyError)
    | CompileFailed(compileError: CompileError)
    | KernelInstallFailed(enforcerError: EnforcerError)
    | InstallRejected

  // Version and counts are those of the policy.
  predicate DescribesPolicy(s: EnforcerStatus, p: Policy) {
    s.policyVersion == p.version && s.protectedCount == |p.protectedResources| && s.ruleCount == |p.rules|
  }

  datatype LoadRequest = LoadRequest(policy: Option<Policy>, fs: FileResolver)

  // The policy in force after some loads succeeded and others did not.
  ghost function LastLoaded(before: Option<Policy>, requests: seq<LoadRequest>, loaded: seq<bool>): Option<Policy>
    requires |loaded| == |requests|
  {
    if |requests| == 0 then before
    else if Last(loaded) then Last(requests).policy
    else LastLoaded(before, requests[..|requests| - 1], loaded[..|loaded| - 1])
  }

  class Controller {
    const policyManager: PolicyManager
    const enforcer: LinuxEBPFEnforcer?
    var resolver: PathResolver?
    // The path resolution the current policy was compiled with.
    ghost var resolution: FileResolver

    ghost predicate Valid()
      reads this, policyManager, enforcer, resolver
    {
      && (resolver != null <==> policyManager.current.Some?)
      && (policyManager.current.Some? ==>
            && Compilable(policyManager.current.value, resolution)
            && resolver.table == EnrichmentTable(policyManager.current.value, resolution))
      && (enforcer != null ==> enforcer.Valid())
      && (enforcer != null && enforcer.kernel.config.enabled ==>
            && policyManager.current.Some?
            && enforcer.Applied() == Some(CompiledForm(policyManager.current.value, resolution))
            && enforcer.kernel == Installed(CompiledForm(policyManager.current.value, resolution)))
    }

    // What start has done when it turns to the startup policy.
    constructor (enforcer: LinuxEBPFEnforcer?)
      requires enforcer != null ==> enforcer.Valid() && !enforcer.kernel.config.enabled
      ensures Valid() && this.enforcer == enforcer && policyManager.current == None && fresh(policyManager)
    {
      this.enforcer := enforcer;
      policyManager := new PolicyManager();
      resolver := null;
    }

    /** load_policy. Either everything changes to the new policy, or the userspace side
        stays as it was and the kernel is untouched or paused. */
    method LoadPolicy(policy: Option<Policy>, fs: FileResolver, mayFail: bool) returns (r: Result<(), LoadError>)
      requires Valid()
      modifies this, policyManager, enforcer
      ensures Valid()
      ensures r.Success? ==>
        && policy.Some? && policyManager.current == policy && resolution == fs
        && (enforcer != null ==> enforcer.kernel == Installed(CompiledForm(policy.value, fs)))
        && (enforcer != null ==> enforcer.kernel.config == Config(policy.value.version, true))
        && (enforcer != null ==> enforcer.status.enforcing && DescribesPolicy(enforcer.status, policy.value))
      ensures r.Failure? ==>
        && unchanged(this) && unchanged(policyManager)
        && (enforcer != null ==> enforcer.kernel == old(enforcer.kernel) || !enforcer.kernel.config.enabled)
      // Whatever fails, it is not the last validation.
      ensures r.Failure? ==> r.error != InstallRejected
      ensures r.Failure? && !r.error.KernelInstallFailed? && enforcer != null ==> unchanged(enforcer)
      // Without faults, a load succeeds exactly if the policy compiles and fits the maps.
      ensures !mayFail && enforcer != null && old(enforcer.kernel.attached) ==>
        (r.Success? <==> policy.Some? && Compilable(policy.value, fs) && Fits(CompiledForm(policy.value, fs), enforcer.capacity))
    {
      if policy.None? {
        return Failure(NullPolicy);
      }
      var v := Validate(policy.value);
      var _ :- v.MapFailure((e: PolicyError) => Invalid(e));
      var c := Compile(policy.value, fs);
      var compiled :- c.MapFailure((e: CompileError) => CompileFailed(e));
      if enforcer != null {
        var a := enforcer.ApplyPolicy(compiled, mayFail);
        var _ :- a.MapFailure((e: EnforcerError) => KernelInstallFailed(e));
      }
      var table := BuildResolver(policy.value, compiled);
      resolver := table;
      resolution := fs;
      var installed := policyManager.InstallPolicy(policy);
      if installed.Failure? {
        assert false;
        return Failure(InstallRejected);
      }
      return Success(());
    }

    /** status: what the enforcer reports; without one, that nothing is attached. */
    method Status(lookupFails: bool) returns (s: EnforcerStatus)
      requires Valid()
      ensures enforcer == null ==> s == EnforcerStatus(false, false, 0, 0, 0)
      // Unless the config map cannot be read, an enforcing report is about the current policy.
      ensures s.enforcing && !lookupFails ==>
        policyManager.current.Some? && DescribesPolicy(s, policyManager.current.value)
      ensures enforcer != null && enforcer.kernel.config.enabled && !lookupFails ==> s.enforcing
    {
      if enforcer == null {
        return EnforcerStatus(false, false, 0, 0, 0);
      }
      s := enforcer.Status(lookupFails);
    }

    /** Any serialized sequence of loads: the policy in force is the last that loaded. */
    method LoadAll(requests: seq<LoadRequest>, mayFail: bool) returns (loaded: seq<bool>)
      requires Valid()
      modifies this, policyManager, enforcer
      ensures Valid() && |loaded| == |requests|
      ensures policyManager.current == LastLoaded(old(policyManager.current), requests, loaded)
    {
      loaded := [];
      for i := 0 to |requests|
        invariant Valid() && |loaded| == i
        invariant policyManager.current == LastLoaded(old(policyManager.current), requests[..i], loaded)
      {
        var r := LoadPolicy(requests[i].policy, requests[i].fs, mayFail);
        assert requests[..i + 1][..i] == requests[..i];
        assert (loaded + [r.Success?])[..i] == loaded;
        loaded := loaded + [r.Success?];
      }
      assert requests[..|requests|] == requests;
    }
  }

  /** While enforcement is on, every open is decided as the current policy prescribes for
      the two files, and an event names the opened file by a configured path of it. */
  lemma CurrentPolicyEnforced(c: Controller, res: FileId, proc: FileId, slot: bool)
    requires c.Valid() && c.enforcer != null && c.enforcer.kernel.config.enabled
    ensures c.policyManager.current.Some? && c.resolver != null
    ensures c.enforcer.kernel.config == Config(c.policyManager.current.value.version, true)
    ensures var p, fs := c.policyManager.current.value, c.resolution;
            var o := QuietOpen(c.enforcer.kernel, res, proc, slot);
            && o == PrescribedById(p, fs, res, proc, slot)
            && (o.event.Some? ==>
                  var path := Resolve(c.resolver.table, o.event.value.resource);
                  Mentioned(p, path) && IdOf(fs, path) == res)
  {
    var p, fs := c.policyManager.current.value, c.resolution;
    KernelFollowsPolicyById(p, fs, res, proc, slot);
    EnrichmentFaithful(p, fs, res);
    if ProtectedById(p, fs, res) {
      var i :| 0 <= i < |p.protectedResources| && IdOf(fs, p.protectedResources[i].path) == res;
      assert CompiledForm(p, fs).protectedResources[i] == res;
    }
  }

  /** For a default-DENY policy whose paths are told apart by their inodes, that is the
      decision of the path-level engine. */
  lemma CurrentPolicyDecides(c: Controller, resPath: string, procPath: string, slot: bool)
    requires c.Valid() && c.enforcer != null && c.enforcer.kernel.config.enabled
    requires c.policyManager.current.value.defaultAction == Deny
    requires Injective(c.policyManager.current.value, c.resolution, resPath, procPath)
    ensures var p, fs := c.policyManager.current.value, c.resolution;
            QuietOpen(c.enforcer.kernel, IdOf(fs, resPath), IdOf(fs, procPath), slot).ret == 0 <==>
            Evaluate(p, OpenRequest(resPath, procPath)).action == Allow
  {
    var p, fs := c.policyManager.current.value, c.resolution;
    CurrentPolicyEnforced(c, IdOf(fs, resPath), IdOf(fs, procPath), slot);
    CurrentPolicyEnforced(c, IdOf(fs, resPath), IdOf(fs, procPath), true);
    AgreementUnlessDefaultAllow(p, fs, resPath, procPath);
  }
}
