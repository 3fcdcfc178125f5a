/** The policy update of src/ebpf_manager_linux.cpp as individual map writes, with opens
    of ebpf/fileguard.bpf.c reading the maps between any two of them. */
module UpdateProtocol {
  import opened Common
  import opened FileIdentity
  import opened Policies
  import opened DecisionEngine
  import opened Compiler
  import opened BpfMap
  import opened KernelProgram
  import opened MeaningPreservation

  // Where the updater, which holds state_mu_, is.
  datatype Phase =
    | Idle
    | ClearingProtected(target: CompiledPolicy)
    | ClearingRules(target: CompiledPolicy)
    | InsertingProtected(target: CompiledPolicy, done: nat)
    | InsertingRules(target: CompiledPolicy, done: nat)

  // given: every policy an update was started for; lastApplied: the last one enabled.
  datatype System = System(
    kernel: Kernel,
    phase: Phase,
    given: seq<CompiledPolicy>,
    lastApplied: Option<CompiledPolicy>)

  datatype Step =
    | Load
    | Detach
    | Pause(target: CompiledPolicy)
    | DeleteProtected(id: FileId)
    | ProtectedCleared
    | DeleteRule(key: RuleKey)
    | RulesCleared
    | InsertProtected
    | ProtectedInserted
    | InsertRule
    | Enable
    | Abort

  const OFF := Config(0, false)
  const UNLOADED := Kernel(false, OFF, map[], map[])
  const INITIAL := System(UNLOADED, Idle, [], None)

  function WithProtected(s: System, m: map<FileId, ()>): System {
    s.(kernel := s.kernel.(protected := m))
  }

  function WithRules(s: System, m: map<RuleKey, RuleVal>): System {
    s.(kernel := s.kernel.(rules := m))
  }

  predicate Enabled(s: System, step: Step) {
    match step
    case Load => s.phase.Idle? && !s.kernel.attached
    case Detach => s.phase.Idle? && s.kernel.attached
    case Pause(_) => s.phase.Idle? && s.kernel.attached
    case DeleteProtected(id) => s.phase.ClearingProtected? && id in s.kernel.protected
    case ProtectedCleared => s.phase.ClearingProtected? && s.kernel.protected == map[]
    case DeleteRule(key) => s.phase.ClearingRules? && key in s.kernel.rules
    case RulesCleared => s.phase.ClearingRules? && s.kernel.rules == map[]
    case InsertProtected => s.phase.InsertingProtected? && s.phase.done < |s.phase.target.protectedResources|
    case ProtectedInserted => s.phase.InsertingProtected? && s.phase.done == |s.phase.target.protectedResources|
    case InsertRule => s.phase.InsertingRules? && s.phase.done < |s.phase.target.rules|
    case Enable => s.phase.InsertingRules? && s.phase.done == |s.phase.target.rules|
    case Abort => !s.phase.Idle?
  }

  function Do(s: System, step: Step): System
    requires Enabled(s, step)
  {
    var k := s.kernel;
    match step
    case Load => s.(kernel := UNLOADED.(attached := true))
    case Detach => s.(kernel := UNLOADED)
    case Pause(p) => s.(kernel := k.(config := OFF), phase := ClearingProtected(p), given := s.given + [p])
    case DeleteProtected(id) => WithProtected(s, k.protected - {id})
    case ProtectedCleared => s.(phase := ClearingRules(s.phase.target))
    case DeleteRule(key) => WithRules(s, k.rules - {key})
    case RulesCleared => s.(phase := InsertingProtected(s.phase.target, 0))
    case InsertProtected =>
      var InsertingProtected(p, n) := s.phase;
      WithProtected(s, Insert(k.protected, ProtectedItems(p)[n])).(phase := InsertingProtected(p, n + 1))
    case ProtectedInserted => s.(phase := InsertingRules(s.phase.target, 0))
    case InsertRule =>
      var InsertingRules(p, n) := s.phase;
      WithRules(s, Insert(k.rules, RuleItems(p)[n])).(phase := InsertingRules(p, n + 1))
    case Enable =>
      s.(kernel := k.(config := ConfigFor(s.phase.target)), phase := Idle, lastApplied := Some(s.phase.target))
    case Abort => s.(phase := Idle)
  }

  // The state a history of steps leads to; a step that is not possible does nothing.
  function After(steps: seq<Step>): System {
    if steps == [] then INITIAL
    else
      var s := After(steps[..|steps| - 1]);
      if Enabled(s, Last(steps)) then Do(s, Last(steps)) else s
  }

  predicate Legal(steps: seq<Step>) {
    steps == [] || (Legal(steps[..|steps| - 1]) && Enabled(After(steps[..|steps| - 1]), Last(steps)))
  }

  lemma Extend(steps: seq<Step>, step: Step)
    requires Legal(steps) && Enabled(After(steps), step)
    ensures Legal(steps + [step]) && After(steps + [step]) == Do(After(steps), step)
  {
    assert (steps + [step])[..|steps|] == steps;
  }

  lemma {:induction false} LegalPrefix(steps: seq<Step>, i: nat)
    requires Legal(steps) && i <= |steps|
    ensures Legal(steps[..i])
  {
    if i < |steps| {
      assert steps[..|steps| - 1][..i] == steps[..i];
      LegalPrefix(steps[..|steps| - 1], i);
    } else {
      assert steps[..i] == steps;
    }
  }

  // The state after the first i steps.
  function At(steps: seq<Step>, i: nat): System
    requires i <= |steps|
  {
    After(steps[..i])
  }

  // ------------------------------------------------------------ runs of one kind of step

  function Repeat(step: Step, n: nat): (steps: seq<Step>)
    ensures |steps| == n
  {
    seq(n, _ => step)
  }

  function ProtectedDeletions(ids: seq<FileId>): (steps: seq<Step>)
    ensures |steps| == |ids|
  {
    seq(|ids|, i requires 0 <= i < |ids| => DeleteProtected(ids[i]))
  }

  function RuleDeletions(keys: seq<RuleKey>): (steps: seq<Step>)
    ensures |steps| == |keys|
  {
    seq(|keys|, i requires 0 <= i < |keys| => DeleteRule(keys[i]))
  }

  lemma {:induction false} RunProtectedDeletions(steps: seq<Step>, ids: seq<FileId>)
    requires Legal(steps) && After(steps).phase.ClearingProtected?
    requires Deletable(After(steps).kernel.protected, ids)
    ensures Legal(steps + ProtectedDeletions(ids))
    ensures After(steps + ProtectedDeletions(ids))
         == WithProtected(After(steps), Remaining(After(steps).kernel.protected, ids))
    decreases |ids|
  {
    if ids == [] {
      assert steps + ProtectedDeletions(ids) == steps;
    } else {
      var first := DeleteProtected(ids[0]);
      var next := steps + [first];
      Extend(steps, first);
      assert After(next) == WithProtected(After(steps), After(steps).kernel.protected - {ids[0]});
      RunProtectedDeletions(next, ids[1..]);
      assert ProtectedDeletions(ids) == [first] + ProtectedDeletions(ids[1..]);
      assert steps + ProtectedDeletions(ids) == next + ProtectedDeletions(ids[1..]);
    }
  }

  lemma {:induction false} RunRuleDeletions(steps: seq<Step>, keys: seq<RuleKey>)
    requires Legal(steps) && After(steps).phase.ClearingRules?
    requires Deletable(After(steps).kernel.rules, keys)
    ensures Legal(steps + RuleDeletions(keys))
    ensures After(steps + RuleDeletions(keys))
         == WithRules(After(steps), Remaining(After(steps).kernel.rules, keys))
    decreases |keys|
  {
    if keys == [] {
      assert steps + RuleDeletions(keys) == steps;
    } else {
      var first := DeleteRule(keys[0]);
      var next := steps + [first];
      Extend(steps, first);
      assert After(next) == WithRules(After(steps), After(steps).kernel.rules - {keys[0]});
      RunRuleDeletions(next, keys[1..]);
      assert RuleDeletions(keys) == [first] + RuleDeletions(keys[1..]);
      assert steps + RuleDeletions(keys) == next + RuleDeletions(keys[1..]);
    }
  }

  lemma OneProtectedInsertion(s: System, p: CompiledPolicy, n: nat)
    requires s.phase == InsertingProtected(p, n) && n < |p.protectedResources| && s.kernel.protected == Install(ProtectedItems(p)[..n])
    ensures Enabled(s, InsertProtected)
    ensures Do(s, InsertProtected) == WithProtected(s, Install(ProtectedItems(p)[..n + 1])).(phase := InsertingProtected(p, n + 1))
  {
    InstallStep(ProtectedItems(p), n);
  }

  lemma {:induction false} RunProtectedInsertions(steps: seq<Step>, p: CompiledPolicy, n: nat)
    requires Legal(steps) && After(steps).phase == InsertingProtected(p, 0) && After(steps).kernel.protected == map[]
    requires n <= |p.protectedResources|
    ensures Legal(steps + Repeat(InsertProtected, n))
    ensures After(steps + Repeat(InsertProtected, n))
         == WithProtected(After(steps), Install(ProtectedItems(p)[..n])).(phase := InsertingProtected(p, n))
  {
    if n == 0 {
      assert steps + Repeat(InsertProtected, n) == steps;
    } else {
      RunProtectedInsertions(steps, p, n - 1);
      var before := steps + Repeat(InsertProtected, n - 1);
      assert steps + Repeat(InsertProtected, n) == before + [InsertProtected];
      OneProtectedInsertion(After(before), p, n - 1);
      Extend(before, InsertProtected);
    }
  }

  lemma OneRuleInsertion(s: System, p: CompiledPolicy, n: nat)
    requires s.phase == InsertingRules(p, n) && n < |p.rules| && s.kernel.rules == Install(RuleItems(p)[..n])
    ensures Enabled(s, InsertRule)
    ensures Do(s, InsertRule) == WithRules(s, Install(RuleItems(p)[..n + 1])).(phase := InsertingRules(p, n + 1))
  {
    InstallStep(RuleItems(p), n);
  }

  lemma {:induction false} RunRuleInsertions(steps: seq<Step>, p: CompiledPolicy, n: nat)
    requires Legal(steps) && After(steps).phase == InsertingRules(p, 0) && After(steps).kernel.rules == map[]
    requires n <= |p.rules|
    ensures Legal(steps + Repeat(InsertRule, n))
    ensures After(steps + Repeat(InsertRule, n))
         == WithRules(After(steps), Install(RuleItems(p)[..n])).(phase := InsertingRules(p, n))
  {
    if n == 0 {
      assert steps + Repeat(InsertRule, n) == steps;
    } else {
      RunRuleInsertions(steps, p, n - 1);
      var before := steps + Repeat(InsertRule, n - 1);
      assert steps + Repeat(InsertRule, n) == before + [InsertRule];
      OneRuleInsertion(After(before), p, n - 1);
      Extend(before, InsertRule);
    }
  }

  // ------------------------------------------------------------ invariants

  // The map is empty or part of the full install of one of the policies.
  ghost predicate ProtectedFrom(policies: seq<CompiledPolicy>, m: map<FileId, ()>) {
    m == map[] || exists p :: p in policies && Submap(m, Installed(p).protected)
  }

  ghost predicate RulesFrom(policies: seq<CompiledPolicy>, m: map<RuleKey, RuleVal>) {
    m == map[] || exists p :: p in policies && Submap(m, Installed(p).rules)
  }

  // Each map comes from one policy given after the first n.
  ghost predicate Covered(s: System, n: nat)
    requires n <= |s.given|
  {
    ProtectedFrom(s.given[n..], s.kernel.protected) && RulesFrom(s.given[n..], s.kernel.rules)
  }

  // While enabled, the kernel holds exactly the last applied policy, which is also the
  // last one an update was started for.
  ghost predicate Whole(s: System) {
    s.kernel.config.enabled ==>
      s.phase.Idle? && |s.given| > 0 && s.lastApplied == Some(Last(s.given)) && s.kernel == Installed(Last(s.given))
  }

  ghost predicate Progress(s: System) {
    && (!s.phase.Idle? ==>
          s.kernel.attached && s.kernel.config == OFF && |s.given| > 0 && s.phase.target == Last(s.given))
    && match s.phase
       case Idle => true
       case ClearingProtected(_) => true
       case ClearingRules(_) => s.kernel.protected == map[]
       case InsertingProtected(p, n) =>
         n <= |p.protectedResources| && s.kernel.rules == map[] && s.kernel.protected == Install(ProtectedItems(p)[..n])
       case InsertingRules(p, n) =>
         && n <= |p.rules|
         && s.kernel.protected == Install(ProtectedItems(p))
         && s.kernel.rules == Install(RuleItems(p)[..n])
  }

  ghost predicate Inv(s: System) {
    Progress(s) && Whole(s) && Covered(s, 0)
  }

  lemma ProgressStep(s: System, step: Step)
    requires Progress(s) && Whole(s) && Enabled(s, step)
    ensures Progress(Do(s, step)) && Whole(Do(s, step))
  {
    match step
    case InsertProtected =>
      InstallStep(ProtectedItems(s.phase.target), s.phase.done);
    case InsertRule =>
      InstallStep(RuleItems(s.phase.target), s.phase.done);
    case ProtectedInserted =>
      assert ProtectedItems(s.phase.target)[..s.phase.done] == ProtectedItems(s.phase.target);
    case Enable =>
      assert RuleItems(s.phase.target)[..s.phase.done] == RuleItems(s.phase.target);
    case _ =>
  }

  lemma MorePolicies(policies: seq<CompiledPolicy>, p: CompiledPolicy, k: Kernel)
    requires ProtectedFrom(policies, k.protected) && RulesFrom(policies, k.rules)
    ensures ProtectedFrom(policies + [p], k.protected) && RulesFrom(policies + [p], k.rules)
  {
    assert forall q :: q in policies ==> q in policies + [p];
  }

  /** What each map is part of survives every step, counted from any policy on that was
      given before an update under way. */
  lemma CoveredStep(s: System, step: Step, n: nat)
    requires Progress(s) && Whole(s) && Enabled(s, step)
    requires n == 0 || n < |s.given|
    requires Covered(s, n)
    ensures n <= |Do(s, step).given| && Covered(Do(s, step), n)
  {
    var s' := Do(s, step);
    match step
    case Pause(p) =>
      MorePolicies(s.given[n..], p, s.kernel);
      assert s'.given[n..] == s.given[n..] + [p];
    case InsertProtected =>
      ProgressStep(s, step);
      InstallGrows(ProtectedItems(s.phase.target), s'.phase.done);
      assert s.phase.target in s.given[n..];
    case InsertRule =>
      ProgressStep(s, step);
      InstallGrows(RuleItems(s.phase.target), s'.phase.done);
      assert s.phase.target in s.given[n..];
    case _ =>
  }

  /** The invariant holds after every history, failures and unloads included. */
  lemma {:induction false} Invariant(steps: seq<Step>)
    requires Legal(steps)
    ensures Inv(After(steps))
  {
    if steps != [] {
      var front := steps[..|steps| - 1];
      Invariant(front);
      ProgressStep(After(front), Last(steps));
      CoveredStep(After(front), Last(steps), 0);
    }
  }

  // ------------------------------------------------------------ opens

  /** An open whose three lookups happen after i, j and k steps of the history. */
  function OpenDuring(steps: seq<Step>, i: nat, j: nat, k: nat, res: FileId, proc: FileId, slot: bool): Outcome
    requires Legal(steps) && i <= j <= k <= |steps|
  {
    FileOpen(At(steps, i).kernel.config, At(steps, j).kernel.protected, At(steps, k).kernel.rules, res, proc, slot)
  }

  // Every policy is closed when it comes from the compiler: ids are real, rules protected.
  ghost predicate Closed(c: CompiledPolicy) {
    && (forall id :: id in c.protectedResources ==> id.Valid())
    && (forall r :: r in c.rules ==> r.resource in c.protectedResources && r.process.Valid())
  }

  lemma CompiledIsClosed(p: Policy, fs: FileResolver)
    requires Compilable(p, fs)
    ensures Closed(CompiledForm(p, fs))
  {
    CompiledIdsValid(p, fs);
  }

  /** The maps stand still unless enforcement is paused or removed first. */
  lemma EnabledStandsStill(steps: seq<Step>, i: nat)
    requires Legal(steps) && i < |steps| && At(steps, i).kernel.config.enabled
    ensures steps[i].Pause? || steps[i].Detach?
  {
    LegalPrefix(steps, i);
    LegalPrefix(steps, i + 1);
    Invariant(steps[..i]);
    assert steps[..i + 1][..i] == steps[..i];
  }

  lemma QuietVerdict(s: System, res: FileId, proc: FileId, slot: bool)
    requires Whole(s) && s.kernel.config.enabled
    ensures FileOpen(s.kernel.config, s.kernel.protected, s.kernel.rules, res, proc, slot)
         == QuietOpen(Installed(s.lastApplied.value), res, proc, slot)
  {
    var k := Installed(s.lastApplied.value);
    assert s.kernel.config == k.config && s.kernel.protected == k.protected && s.kernel.rules == k.rules;
  }

  /** Opens with no pause inside: pass-through, or the verdict of one complete policy, the
      one whose version the config map shows. */
  lemma WholePolicyOpen(steps: seq<Step>, i: nat, j: nat, k: nat, res: FileId, proc: FileId, slot: bool)
    requires Legal(steps) && i <= j <= k <= |steps|
    requires forall m :: i <= m < k ==> !steps[m].Pause? && !steps[m].Detach?
    ensures var s := At(steps, i);
            var o := OpenDuring(steps, i, j, k, res, proc, slot);
            if s.kernel.config.enabled then
              && s.lastApplied.Some? && s.lastApplied.value in s.given
              && s.kernel.config.policyVersion == ToU32(s.lastApplied.value.version)
              && o == QuietOpen(Installed(s.lastApplied.value), res, proc, slot)
            else o == Outcome(0, None)
  {
    LegalPrefix(steps, i);
    Invariant(steps[..i]);
    var s := At(steps, i);
    if s.kernel.config.enabled {
      if i < k {
        EnabledStandsStill(steps, i);
        assert false;
      }
      assert j == i && k == i;
      QuietVerdict(s, res, proc, slot);
      assert OpenDuring(steps, i, j, k, res, proc, slot)
          == FileOpen(s.kernel.config, s.kernel.protected, s.kernel.rules, res, proc, slot);
    } else {
      assert OpenDuring(steps, i, j, k, res, proc, slot) == Outcome(0, None);
    }
  }

  // ------------------------------------------------------------ opens overlapping updates

  /** The policies an open may be judged by when it reads "enabled" after i steps and is
      done after k: the one in force at that read, and those whose update began since. */
  function InPlay(steps: seq<Step>, i: nat, k: nat): seq<CompiledPolicy>
    requires i <= k <= |steps|
  {
    var n := |At(steps, i).given|;
    if 0 < n <= |At(steps, k).given| then At(steps, k).given[n - 1..] else []
  }

  lemma {:induction false} GivenGrows(steps: seq<Step>, i: nat, j: nat)
    requires Legal(steps) && i <= j <= |steps|
    ensures At(steps, i).given <= At(steps, j).given
  {
    if i < j {
      GivenGrows(steps, i, j - 1);
      LegalPrefix(steps, j);
      assert steps[..j][..j - 1] == steps[..j - 1];
    }
  }

  lemma {:induction false} WindowCovered(steps: seq<Step>, i: nat, j: nat)
    requires Legal(steps) && i <= j <= |steps| && At(steps, i).kernel.config.enabled
    ensures 0 < |At(steps, i).given| <= |At(steps, j).given|
    ensures Covered(At(steps, j), |At(steps, i).given| - 1)
  {
    if i == j {
      LegalPrefix(steps, i);
      Invariant(steps[..i]);
      var s := At(steps, i);
      assert Last(s.given) in s.given[|s.given| - 1..];
    } else {
      WindowCovered(steps, i, j - 1);
      GivenGrows(steps, i, j);
      LegalPrefix(steps, j - 1);
      LegalPrefix(steps, j);
      assert steps[..j][..j - 1] == steps[..j - 1];
      Invariant(steps[..j - 1]);
      CoveredStep(At(steps, j - 1), steps[j - 1], |At(steps, i).given| - 1);
    }
  }

  lemma MapsInPlay(steps: seq<Step>, i: nat, j: nat, k: nat)
    requires Legal(steps) && i <= j <= k <= |steps| && At(steps, i).kernel.config.enabled
    ensures ProtectedFrom(InPlay(steps, i, k), At(steps, j).kernel.protected)
    ensures RulesFrom(InPlay(steps, i, k), At(steps, j).kernel.rules)
    ensures |InPlay(steps, i, k)| > 0
  {
    WindowCovered(steps, i, j);
    GivenGrows(steps, i, k);
    GivenGrows(steps, j, k);
    var n, now, all := |At(steps, i).given| - 1, At(steps, j).given, At(steps, k).given;
    assert all == now + all[|now|..];
    assert all[n..] == now[n..] + all[|now|..];
    assert forall p :: p in now[n..] ==> p in all[n..];
  }

  ghost predicate SomePolicySays(policies: seq<CompiledPolicy>, o: Outcome, res: FileId, proc: FileId) {
    exists p :: p in policies && o == QuietOpen(Installed(p), res, proc, true)
  }

  ghost predicate SomePolicyHasNoRule(policies: seq<CompiledPolicy>, res: FileId, proc: FileId) {
    exists p :: p in policies && res in Installed(p).protected && RuleKey(res, proc) !in Installed(p).rules
  }

  ghost predicate SomePolicyLeavesOpen(policies: seq<CompiledPolicy>, res: FileId) {
    exists p :: p in policies && res !in Installed(p).protected
  }

  lemma ClosedInstall(c: CompiledPolicy, res: FileId, proc: FileId)
    requires Closed(c)
    ensures res in Installed(c).protected <==> res in c.protectedResources
    ensures RuleKey(res, proc) in Installed(c).rules ==> res in Installed(c).protected && res.Valid() && proc.Valid()
  {
    InstallKeys(ProtectedItems(c));
    InstallKeys(RuleItems(c));
    if res in c.protectedResources {
      var i :| 0 <= i < |c.protectedResources| && c.protectedResources[i] == res;
      assert ProtectedItems(c)[i].0 == res;
    }
    if RuleKey(res, proc) in Installed(c).rules {
      var i :| 0 <= i < |c.rules| && RuleItems(c)[i].0 == RuleKey(res, proc);
      assert c.rules[i] in c.rules;
    }
  }

  /** An open overlapping updates never denies a file that no policy in play protects, and
      never acts on a rule that no policy in play contains. */
  lemma OverlappingOpenSound(steps: seq<Step>, i: nat, j: nat, k: nat, res: FileId, proc: FileId)
    requires Legal(steps) && i <= j <= k <= |steps|
    ensures var o := OpenDuring(steps, i, j, k, res, proc, true);
            && (o.ret != 0 ==> exists p :: p in InPlay(steps, i, k) && res in Installed(p).protected)
            && (o.event.Some? && o.event.value.reason == PolicyRuleHit ==>
                  exists p :: p in InPlay(steps, i, k) && GivesRule(Installed(p).rules, RuleKey(res, proc), o.event.value))
  {
    if At(steps, i).kernel.config.enabled {
      MapsInPlay(steps, i, j, k);
      MapsInPlay(steps, i, k, k);
    }
  }

  predicate GivesRule(rules: map<RuleKey, RuleVal>, key: RuleKey, e: Event) {
    key in rules && e.ruleId == Some(rules[key].ruleId) && e.action == rules[key].action
  }

  /** Exactly when an open that read "enabled" is decided as some complete policy in play
      decides it. If it finds the file protected: its rule lookup hits, or the process is
      unknown anyway, or a policy in play has no rule for the process either. If it misses
      the file: a policy in play does not protect it. */
  lemma OverlappingOpenExact(steps: seq<Step>, i: nat, j: nat, k: nat, res: FileId, proc: FileId)
    requires Legal(steps) && i <= j <= k <= |steps|
    requires forall p :: p in After(steps).given ==> Closed(p)
    requires At(steps, i).kernel.config.enabled
    ensures var policies := InPlay(steps, i, k);
            SomePolicySays(policies, OpenDuring(steps, i, j, k, res, proc, true), res, proc) <==>
            if res in At(steps, j).kernel.protected then
              RuleKey(res, proc) in At(steps, k).kernel.rules || proc.ino == 0 || SomePolicyHasNoRule(policies, res, proc)
            else
              SomePolicyLeavesOpen(policies, res)
  {
    MapsInPlay(steps, i, j, k);
    MapsInPlay(steps, i, k, k);
    GivenGrows(steps, k, |steps|);
    assert steps[..|steps|] == steps;
    var policies := InPlay(steps, i, k);
    assert forall p :: p in policies ==> p in After(steps).given;
    if res in At(steps, j).kernel.protected {
      FoundOpenExact(policies, At(steps, i).kernel.config, At(steps, j).kernel.protected, At(steps, k).kernel.rules, res, proc);
    } else {
      MissedOpenExact(policies, At(steps, i).kernel.config, At(steps, j).kernel.protected, At(steps, k).kernel.rules, res, proc);
    }
  }

  lemma FoundOpenExact(policies: seq<CompiledPolicy>, config: Config, protected: map<FileId, ()>,
                       rules: map<RuleKey, RuleVal>, res: FileId, proc: FileId)
    requires forall p :: p in policies ==> Closed(p)
    requires config.enabled && res in protected && ProtectedFrom(policies, protected) && RulesFrom(policies, rules)
    ensures SomePolicySays(policies, FileOpen(config, protected, rules, res, proc, true), res, proc) <==>
            RuleKey(res, proc) in rules || proc.ino == 0 || SomePolicyHasNoRule(policies, res, proc)
  {
    var o, key := FileOpen(config, protected, rules, res, proc, true), RuleKey(res, proc);
    var q :| q in policies && Submap(protected, Installed(q).protected);
    ClosedInstall(q, res, proc);
    if proc.ino == 0 {
      assert o == QuietOpen(Installed(q), res, proc, true);
    } else if key in rules {
      var p :| p in policies && Submap(rules, Installed(p).rules);
      ClosedInstall(p, res, proc);
      assert o == QuietOpen(Installed(p), res, proc, true);
    } else if SomePolicyHasNoRule(policies, res, proc) {
      var p :| p in policies && res in Installed(p).protected && key !in Installed(p).rules;
      assert o == QuietOpen(Installed(p), res, proc, true);
    } else {
      forall p | p in policies ensures o != QuietOpen(Installed(p), res, proc, true) {
        ClosedInstall(p, res, proc);
      }
    }
  }

  lemma MissedOpenExact(policies: seq<CompiledPolicy>, config: Config, protected: map<FileId, ()>,
                        rules: map<RuleKey, RuleVal>, res: FileId, proc: FileId)
    requires forall p :: p in policies ==> Closed(p)
    requires res !in protected
    ensures SomePolicySays(policies, FileOpen(config, protected, rules, res, proc, true), res, proc) <==>
            SomePolicyLeavesOpen(policies, res)
  {
    var o := FileOpen(config, protected, rules, res, proc, true);
    assert o == Outcome(0, None);
    if SomePolicyLeavesOpen(policies, res) {
      var p :| p in policies && res !in Installed(p).protected;
      assert o == QuietOpen(Installed(p), res, proc, true);
    }
    if SomePolicySays(policies, o, res, proc) {
      var p :| p in policies && o == QuietOpen(Installed(p), res, proc, true);
      ClosedInstall(p, res, proc);
    }
  }

  lemma FirstClear(p: CompiledPolicy) returns (steps: seq<Step>)
    ensures Legal(steps) && After(steps) == System(UNLOADED.(attached := true), InsertingProtected(p, 0), [p], None)
  {
    steps := [];
    Extend(steps, Load);
    steps := steps + [Load];
    Extend(steps, Pause(p));
    steps := steps + [Pause(p)];
    Extend(steps, ProtectedCleared);
    steps := steps + [ProtectedCleared];
    Extend(steps, RulesCleared);
    steps := steps + [RulesCleared];
  }

  // A first complete update of a freshly loaded program.
  lemma FirstUpdate(p: CompiledPolicy) returns (steps: seq<Step>)
    ensures Legal(steps) && After(steps) == System(Installed(p), Idle, [p], Some(p))
  {
    steps := FirstClear(p);
    RunProtectedInsertions(steps, p, |p.protectedResources|);
    steps := steps + Repeat(InsertProtected, |p.protectedResources|);
    Extend(steps, ProtectedInserted);
    steps := steps + [ProtectedInserted];
    RunRuleInsertions(steps, p, |p.rules|);
    steps := steps + Repeat(InsertRule, |p.rules|);
    Extend(steps, Enable);
    steps := steps + [Enable];
    assert ProtectedItems(p)[..|p.protectedResources|] == ProtectedItems(p);
    assert RuleItems(p)[..|p.rules|] == RuleItems(p);
  }

  lemma {:induction false} WalkIsDeletable<K, V>(order: seq<K>, m: map<K, V>)
    requires WalkOrder(order, m)
    ensures Deletable(m, order) && Remaining(m, order) == map[]
  {
    if order != [] {
      WalkIsDeletable(order[1..], m - {order[0]});
    }
  }

  // A policy in force and the clearing of its protected entries by a reload.
  lemma ReloadCleared(p: CompiledPolicy, protectedOrder: seq<FileId>) returns (before: seq<Step>, steps: seq<Step>)
    requires WalkOrder(protectedOrder, Installed(p).protected)
    ensures before <= steps && Legal(before) && Legal(steps)
    ensures After(before) == System(Installed(p), Idle, [p], Some(p))
    ensures After(steps) ==
      System(Installed(p).(config := OFF, protected := map[]), ClearingRules(p), [p, p], Some(p))
  {
    before := FirstUpdate(p);
    Extend(before, Pause(p));
    steps := before + [Pause(p)];
    WalkIsDeletable(protectedOrder, Installed(p).protected);
    RunProtectedDeletions(steps, protectedOrder);
    steps := steps + ProtectedDeletions(protectedOrder);
    Extend(steps, ProtectedCleared);
    steps := steps + [ProtectedCleared];
  }

  /** Merely reloading the policy in force can deny any open on a protected file it
      allows: the open reads "enabled" and finds its file before the pause, and looks for
      its rule once the rules are cleared. */
  lemma ReloadCanDenyAllowedOpen(p: CompiledPolicy, res: FileId, proc: FileId,
                                 protectedOrder: seq<FileId>, ruleOrder: seq<RuleKey>)
    returns (steps: seq<Step>, i: nat, k: nat)
    requires QuietOpen(Installed(p), res, proc, true).ret == 0 && res in Installed(p).protected && res.Valid()
    requires WalkOrder(protectedOrder, Installed(p).protected) && WalkOrder(ruleOrder, Installed(p).rules)
    ensures Legal(steps) && i <= k <= |steps|
    ensures InPlay(steps, i, k) == [p, p]
    ensures OpenDuring(steps, i, i, k, res, proc, true).ret == -EACCES
  {
    var before;
    before, steps := ReloadCleared(p, protectedOrder);
    i := |before|;
    WalkIsDeletable(ruleOrder, Installed(p).rules);
    RunRuleDeletions(steps, ruleOrder);
    steps := steps + RuleDeletions(ruleOrder);
    k := |steps|;
    assert steps[..i] == before && steps[..k] == steps;
  }

  /** It can also allow any open it denies: the open reads "enabled" before the pause and
      looks for its file once the protected entries are cleared. */
  lemma ReloadCanAllowDeniedOpen(p: CompiledPolicy, res: FileId, proc: FileId, protectedOrder: seq<FileId>)
    returns (steps: seq<Step>, i: nat, k: nat)
    requires QuietOpen(Installed(p), res, proc, true).ret != 0
    requires WalkOrder(protectedOrder, Installed(p).protected)
    ensures Legal(steps) && i <= k <= |steps|
    ensures InPlay(steps, i, k) == [p, p]
    ensures OpenDuring(steps, i, k, k, res, proc, true) == Outcome(0, None)
  {
    var before;
    before, steps := ReloadCleared(p, protectedOrder);
    i, k := |before|, |steps|;
    assert steps[..i] == before && steps[..k] == steps;
  }
}
