/** The kernel program over the installed maps against the path-level engine. */
module MeaningPreservation {
  import opened Common
  import opened FileIdentity
  import opened Policies
  import opened DecisionEngine
  import opened Compiler
  import opened BpfMap
  import opened KernelProgram

  // ------------------------------------------------ what a compiled policy installs

  function ProtectedItems(c: CompiledPolicy): (items: seq<(FileId, ())>)
    ensures |items| == |c.protectedResources|
  {
    seq(|c.protectedResources|, i requires 0 <= i < |c.protectedResources| => (c.protectedResources[i], ()))
  }

  function RuleItem(r: CompiledRule): (RuleKey, RuleVal) {
    (RuleKey(r.resource, r.process), RuleVal(r.ruleId, r.action, r.operation))
  }

  function RuleItems(c: CompiledPolicy): (items: seq<(RuleKey, RuleVal)>)
    ensures |items| == |c.rules|
  {
    seq(|c.rules|, i requires 0 <= i < |c.rules| => RuleItem(c.rules[i]))
  }

  function ConfigFor(c: CompiledPolicy): Config {
    Config(ToU32(c.version), true)
  }

  /** The kernel after a complete update to c. */
  function Installed(c: CompiledPolicy): Kernel {
    Kernel(true, ConfigFor(c), Install(ProtectedItems(c)), Install(RuleItems(c)))
  }

  // ------------------------------------------------ the policy read through identities

  ghost predicate ProtectedById(p: Policy, fs: FileResolver, res: FileId) {
    exists i :: 0 <= i < |p.protectedResources| && IdOf(fs, p.protectedResources[i].path) == res
  }

  predicate MatchesById(rule: PolicyRule, fs: FileResolver, res: FileId, proc: FileId) {
    IdOf(fs, rule.resource.path) == res && IdOf(fs, rule.process.value) == proc
  }

  // The first policy rule whose resolved ids match.
  function FirstById(p: Policy, fs: FileResolver, res: FileId, proc: FileId): Option<nat> {
    FirstIndex(p.rules, (rule: PolicyRule) => MatchesById(rule, fs, res, proc))
  }

  /** The outcome the policy prescribes for a pair of identities, stated on its rules. */
  ghost function PrescribedById(p: Policy, fs: FileResolver, res: FileId, proc: FileId, slot: bool): Outcome {
    if !ProtectedById(p, fs, res) then Outcome(0, None)
    else
      match FirstById(p, fs, res, proc)
      case Some(i) =>
        var action := p.rules[i].action;
        Outcome(if action == Allow then 0 else -EACCES,
                if slot then Some(Event(res, Open, action, PolicyRuleHit, Some(RuleNumber(i)))) else None)
      case None =>
        Outcome(-EACCES,
                if slot then Some(Event(res, Open, Deny, if proc.ino == 0 then UnknownProcess else DefaultDeny, None))
                else None)
  }

  lemma ProtectedInstall(p: Policy, fs: FileResolver, res: FileId)
    ensures res in Install(ProtectedItems(CompiledForm(p, fs))) <==> ProtectedById(p, fs, res)
  {
    var c := CompiledForm(p, fs);
    var items := ProtectedItems(c);
    InstallKeys(items);
    if ProtectedById(p, fs, res) {
      var i :| 0 <= i < |p.protectedResources| && IdOf(fs, p.protectedResources[i].path) == res;
      assert items[i].0 == res;
    }
  }

  /** First insert wins: each id pair keeps the first policy rule that resolves to it. */
  lemma RulesInstall(p: Policy, fs: FileResolver, res: FileId, proc: FileId)
    ensures var m := Install(RuleItems(CompiledForm(p, fs)));
            match FirstById(p, fs, res, proc)
            case Some(i) => RuleKey(res, proc) in m &&
              m[RuleKey(res, proc)] == RuleVal(RuleNumber(i), p.rules[i].action, p.rules[i].operation)
            case None => RuleKey(res, proc) !in m
  {
    var items := RuleItems(CompiledForm(p, fs));
    assert forall i :: 0 <= i < |items| ==> items[i] == RuleItem(CompileRule(p.rules[i], i, fs));
    assert forall i :: 0 <= i < |items| ==> (items[i].0 == RuleKey(res, proc) <==> MatchesById(p.rules[i], fs, res, proc));
    match FirstById(p, fs, res, proc)
    case Some(i) =>
      FirstWins(items, i);
    case None =>
      InstallKeys(items);
  }

  /** Meaning preservation for any resolver, any two identities and any policy that
      compiles: the kernel does what the first rule with matching resolved ids says. The
      early exits for zero inodes are part of the program and change nothing. */
  lemma KernelFollowsPolicyById(p: Policy, fs: FileResolver, res: FileId, proc: FileId, slot: bool)
    requires Compilable(p, fs)
    ensures QuietOpen(Installed(CompiledForm(p, fs)), res, proc, slot) == PrescribedById(p, fs, res, proc, slot)
  {
    ProtectedInstall(p, fs, res);
    RulesInstall(p, fs, res, proc);
    CompiledIdsValid(p, fs);
    assert res.ino == 0 ==> !ProtectedById(p, fs, res) by {
      assert forall i :: 0 <= i < |p.protectedResources| ==>
        CompiledForm(p, fs).protectedResources[i] == IdOf(fs, p.protectedResources[i].path);
    }
    assert proc.ino == 0 ==> FirstById(p, fs, res, proc).None? by {
      assert forall i :: 0 <= i < |p.rules| ==> CompiledForm(p, fs).rules[i].process == IdOf(fs, p.rules[i].process.value);
    }
  }

  /** The decision with the two zero-inode exits taken out. */
  predicate AllowedByLookups(k: Kernel, res: FileId, proc: FileId) {
    res in k.protected ==> RuleKey(res, proc) in k.rules && k.rules[RuleKey(res, proc)].action == Allow
  }

  lemma EarlyExitsChangeNothing(p: Policy, fs: FileResolver, res: FileId, proc: FileId, slot: bool)
    requires Compilable(p, fs)
    ensures var k := Installed(CompiledForm(p, fs));
            QuietOpen(k, res, proc, slot).ret == 0 <==> AllowedByLookups(k, res, proc)
  {
    KernelFollowsPolicyById(p, fs, res, proc, slot);
    ProtectedInstall(p, fs, res);
    RulesInstall(p, fs, res, proc);
  }

  // ------------------------------------------------ against DecisionEngine::evaluate

  ghost predicate KernelAllows(p: Policy, fs: FileResolver, resPath: string, procPath: string) {
    QuietOpen(Installed(CompiledForm(p, fs)), IdOf(fs, resPath), IdOf(fs, procPath), true).ret == 0
  }

  predicate EngineAllows(p: Policy, resPath: string, procPath: string) {
    Evaluate(p, OpenRequest(resPath, procPath)).action == Allow
  }

  // No two of the paths involved share an inode.
  ghost predicate Injective(p: Policy, fs: FileResolver, resPath: string, procPath: string) {
    && (forall i :: 0 <= i < |p.protectedResources| && IdOf(fs, p.protectedResources[i].path) == IdOf(fs, resPath)
          ==> p.protectedResources[i].path == resPath)
    && (forall i :: 0 <= i < |p.rules| && IdOf(fs, p.rules[i].process.value) == IdOf(fs, procPath)
          ==> p.rules[i].process.value == procPath)
  }

  // On valid policies two lookups coincide when the ids tell the paths apart.
  lemma SameLookups(p: Policy, fs: FileResolver, resPath: string, procPath: string)
    requires Compilable(p, fs) && Injective(p, fs, resPath, procPath)
    ensures ProtectedById(p, fs, IdOf(fs, resPath)) <==> IsProtected(p, resPath)
    ensures FirstById(p, fs, IdOf(fs, resPath), IdOf(fs, procPath))
         == FindRule(p, resPath, ProcessIdentity(ExePath, procPath), Open)
  {
    var process := ProcessIdentity(ExePath, procPath);
    forall i | 0 <= i < |p.rules|
      ensures MatchesById(p.rules[i], fs, IdOf(fs, resPath), IdOf(fs, procPath)) <==>
              Matches(p.rules[i], resPath, process, Open)
    {
      assert RuleOk(p.protectedResources, p.rules[i]);
      var j :| 0 <= j < |p.protectedResources| && p.protectedResources[j].path == p.rules[i].resource.path;
    }
  }

  /** With distinct inodes for distinct paths, kernel and engine agree exactly unless the
      request falls through to a default action of ALLOW, which is never compiled. */
  lemma AgreementUnlessDefaultAllow(p: Policy, fs: FileResolver, resPath: string, procPath: string)
    requires Compilable(p, fs) && Injective(p, fs, resPath, procPath)
    ensures (KernelAllows(p, fs, resPath, procPath) <==> EngineAllows(p, resPath, procPath)) <==>
            || p.defaultAction == Deny
            || !IsProtected(p, resPath)
            || FindRule(p, resPath, ProcessIdentity(ExePath, procPath), Open).Some?
    // Whatever the default, the kernel never allows more than the engine.
    ensures KernelAllows(p, fs, resPath, procPath) ==> EngineAllows(p, resPath, procPath)
  {
    KernelFollowsPolicyById(p, fs, IdOf(fs, resPath), IdOf(fs, procPath), true);
    SameLookups(p, fs, resPath, procPath);
  }

  /** Compilation preserves meaning: for a default-DENY policy the kernel outcome is the
      engine's decision, reason included, and a reported rule number k names the rule
      rules()[k-1] whose id the engine reports. */
  lemma CompilationPreservesMeaning(p: Policy, fs: FileResolver, resPath: string, procPath: string, slot: bool)
    requires Compilable(p, fs) && p.defaultAction == Deny
    requires Injective(p, fs, resPath, procPath)
    requires Resolves(fs, procPath) && |p.rules| < TWO_32
    ensures var o := QuietOpen(Installed(CompiledForm(p, fs)), IdOf(fs, resPath), IdOf(fs, procPath), slot);
            var d := Evaluate(p, OpenRequest(resPath, procPath));
            && (o.ret == 0 <==> d.action == Allow)
            && (o.event.Some? <==> slot && d.reason != ResourceUnprotected)
            && (o.event.Some? ==> o.event.value.action == d.action && o.event.value.reason == d.reason)
            && (o.event.Some? && d.reason == PolicyRuleHit ==>
                  && o.event.value.ruleId.Some?
                  && var k := o.event.value.ruleId.value;
                     1 <= k <= |p.rules| && p.rules[k - 1].id == d.matchedRuleId)
  {
    var res, proc := IdOf(fs, resPath), IdOf(fs, procPath);
    KernelFollowsPolicyById(p, fs, res, proc, slot);
    SameLookups(p, fs, resPath, procPath);
    if ProtectedById(p, fs, res) {
      match FirstById(p, fs, res, proc)
      case Some(i) =>
        RuleNumberExact(i);
      case None =>
    }
  }

  const DEFAULT_ALLOW_POLICY := Policy(1, Allow, [ResourceIdentity("/secret", None)], [])
  const TWO_FILES: FileResolver := (path: string) => Success(FileId(8, 1, if path == "/secret" then 1 else 2))

  /** Such a request exists: under a default of ALLOW and without rules, the engine allows
      the one protected file and the kernel denies it. */
  lemma DefaultAllowDisagreement()
    ensures Compilable(DEFAULT_ALLOW_POLICY, TWO_FILES)
    ensures Injective(DEFAULT_ALLOW_POLICY, TWO_FILES, "/secret", "/bin/cat")
    ensures !KernelAllows(DEFAULT_ALLOW_POLICY, TWO_FILES, "/secret", "/bin/cat")
    ensures EngineAllows(DEFAULT_ALLOW_POLICY, "/secret", "/bin/cat")
  {
    var p := DEFAULT_ALLOW_POLICY;
    assert p.protectedResources[0].path == "/secret";
    assert IsProtected(p, "/secret");
    AgreementUnlessDefaultAllow(p, TWO_FILES, "/secret", "/bin/cat");
  }

  /** Rule numbers name their rule exactly as long as the 32-bit counter has not wrapped. */
  lemma RuleNumberExact(i: nat)
    ensures RuleNumber(i) - 1 == i <==> i + 1 < TWO_32
  {
    if i + 1 >= TWO_32 {
      assert RuleNumber(i) < TWO_32;
    }
  }

  // ------------------------------------------------ without injectivity

  // What the chosen rule says; no rule denies.
  predicate RuleAllows(p: Policy, choice: Option<nat>)
    requires choice.Some? ==> choice.value < |p.rules|
  {
    choice.Some? && p.rules[choice.value].action == Allow
  }

  /** Request by request, for default DENY: the two agree unless the path is an unlisted
      name of a protected file whose first rule by identity does not allow, or a listed
      path for which the first rule by identity is not the first by path and says otherwise. */
  lemma AgreementPerRequest(p: Policy, fs: FileResolver, resPath: string, procPath: string)
    requires Compilable(p, fs) && p.defaultAction == Deny
    ensures var byId := FirstById(p, fs, IdOf(fs, resPath), IdOf(fs, procPath));
            var byPath := FindRule(p, resPath, ProcessIdentity(ExePath, procPath), Open);
            (KernelAllows(p, fs, resPath, procPath) <==> EngineAllows(p, resPath, procPath)) <==>
            if IsProtected(p, resPath) then
              byId == byPath || RuleAllows(p, byId) == RuleAllows(p, byPath)
            else
              !ProtectedById(p, fs, IdOf(fs, resPath)) || RuleAllows(p, byId)
  {
    KernelFollowsPolicyById(p, fs, IdOf(fs, resPath), IdOf(fs, procPath), true);
  }

  // Paths that are the same file get the same answer from the path-level engine.
  ghost predicate AliasInvariant(p: Policy, fs: FileResolver) {
    forall res, res', proc, proc' ::
      SameFile(fs, res, res') && SameFile(fs, proc, proc') ==>
      EngineAllows(p, res, proc) == EngineAllows(p, res', proc')
  }

  ghost predicate SameFile(fs: FileResolver, a: string, b: string) {
    Resolves(fs, a) && Resolves(fs, b) && IdOf(fs, a) == IdOf(fs, b)
  }

  ghost predicate AgreesEverywhere(p: Policy, fs: FileResolver) {
    forall res, proc :: Resolves(fs, res) && Resolves(fs, proc) ==>
      (KernelAllows(p, fs, res, proc) <==> EngineAllows(p, res, proc))
  }

  // A rule found by identity is found by path under its own spelling.
  lemma RuleSpelling(p: Policy, fs: FileResolver, r: FileId, q: FileId, i: nat)
    requires Compilable(p, fs) && FirstById(p, fs, r, q) == Some(i)
    ensures i < |p.rules| && IsProtected(p, p.rules[i].resource.path)
    ensures FindRule(p, p.rules[i].resource.path, ProcessIdentity(ExePath, p.rules[i].process.value), Open) == Some(i)
    ensures Resolves(fs, p.rules[i].resource.path) && IdOf(fs, p.rules[i].resource.path) == r
    ensures Resolves(fs, p.rules[i].process.value) && IdOf(fs, p.rules[i].process.value) == q
  {
    var rule := p.rules[i];
    assert RuleOk(p.protectedResources, rule);
    var j :| 0 <= j < |p.protectedResources| && p.protectedResources[j].path == rule.resource.path;
    assert Resolves(fs, p.protectedResources[j].path);
    assert Matches(rule, rule.resource.path, ProcessIdentity(ExePath, rule.process.value), Open);
    var found := FindRule(p, rule.resource.path, ProcessIdentity(ExePath, rule.process.value), Open);
    assert found.Some? && MatchesById(p.rules[found.value], fs, r, q);
  }

  // Each verdict of the kernel is the engine's verdict on some spelling of the request.
  lemma SpellingForVerdict(p: Policy, fs: FileResolver, res: string, proc: string) returns (res': string, proc': string)
    requires Compilable(p, fs) && p.defaultAction == Deny
    requires Resolves(fs, res) && Resolves(fs, proc)
    ensures SameFile(fs, res, res') && SameFile(fs, proc, proc')
    ensures KernelAllows(p, fs, res, proc) <==> EngineAllows(p, res', proc')
  {
    var r, q := IdOf(fs, res), IdOf(fs, proc);
    KernelFollowsPolicyById(p, fs, r, q, true);
    res', proc' := res, proc;
    if ProtectedById(p, fs, r) {
      match FirstById(p, fs, r, q)
      case Some(i) =>
        RuleSpelling(p, fs, r, q, i);
        res', proc' := p.rules[i].resource.path, p.rules[i].process.value;
      case None =>
        var j :| 0 <= j < |p.protectedResources| && IdOf(fs, p.protectedResources[j].path) == r;
        assert Resolves(fs, p.protectedResources[j].path);
        res' := p.protectedResources[j].path;
        assert FindRule(p, res', ProcessIdentity(ExePath, proc'), Open).None? by {
          assert forall i :: 0 <= i < |p.rules| ==> !MatchesById(p.rules[i], fs, r, q);
        }
    }
  }

  /** For a default-DENY policy, kernel and engine agree on every request exactly when
      the engine itself treats hard links and symlinks to one file alike. */
  lemma AgreementIffAliasInvariant(p: Policy, fs: FileResolver)
    requires Compilable(p, fs) && p.defaultAction == Deny
    ensures AgreesEverywhere(p, fs) <==> AliasInvariant(p, fs)
  {
    if AliasInvariant(p, fs) {
      forall res, proc | Resolves(fs, res) && Resolves(fs, proc)
        ensures KernelAllows(p, fs, res, proc) <==> EngineAllows(p, res, proc)
      {
        var res', proc' := SpellingForVerdict(p, fs, res, proc);
      }
    }
    if AgreesEverywhere(p, fs) {
      forall res, res', proc, proc' | SameFile(fs, res, res') && SameFile(fs, proc, proc')
        ensures EngineAllows(p, res, proc) == EngineAllows(p, res', proc')
      {
        assert KernelAllows(p, fs, res, proc) <==> KernelAllows(p, fs, res', proc');
      }
    }
  }

  // "/secret" is protected, and "/link" is another name for it.
  const LINKED_POLICY := Policy(1, Deny, [ResourceIdentity("/secret", None)], [])
  const LINKED_FILES: FileResolver := (path: string) => Success(FileId(8, 1, if path == "/bin/cat" then 2 else 1))

  lemma LinkedKernelDenies()
    ensures Compilable(LINKED_POLICY, LINKED_FILES)
    ensures !KernelAllows(LINKED_POLICY, LINKED_FILES, "/link", "/bin/cat")
  {
    KernelFollowsPolicyById(LINKED_POLICY, LINKED_FILES, FileId(8, 1, 1), FileId(8, 1, 2), true);
    assert IdOf(LINKED_FILES, LINKED_POLICY.protectedResources[0].path) == FileId(8, 1, 1);
  }

  lemma LinkedEngineAllows()
    ensures EngineAllows(LINKED_POLICY, "/link", "/bin/cat")
  {
    assert "/secret"[1] != "/link"[1];
    assert !IsProtected(LINKED_POLICY, "/link");
  }

  /** The condition can fail: with a second name for a protected file the engine calls the
      alias unprotected and allows it, while the kernel denies it. */
  lemma HardLinkDisagreement()
    ensures exists p: Policy, fs: FileResolver ::
      Compilable(p, fs) && p.defaultAction == Deny && !AgreesEverywhere(p, fs)
  {
    LinkedKernelDenies();
    LinkedEngineAllows();
    assert Resolves(LINKED_FILES, "/link") && Resolves(LINKED_FILES, "/bin/cat");
    assert !AgreesEverywhere(LINKED_POLICY, LINKED_FILES);
  }
}
