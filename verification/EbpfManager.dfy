/** src/ebpf_manager_linux.cpp: the enforcer object. Its methods perform the steps of
    UpdateProtocol; a ghost history records them, so that everything proved about
    histories holds of every instant of every call. */
module EbpfManager {
  import opened Common
  import opened FileIdentity
  import opened Policies
  import opened Compiler
  import opened BpfMap
  import opened KernelProgram
  import opened MeaningPreservation
  import opened UpdateProtocol

  datatype EnforcerStatus = EnforcerStatus(
    attached: bool,
    enforcing: bool,
    policyVersion: i32,
    protectedCount: nat,
    ruleCount: nat)

  datatype EnforcerError =
    | AlreadyLoaded
    | OpenFailed
    | LoadFailed
    | AttachFailed
    | LsmListUnreadable
    | BpfLsmDisabled(lsms: string)
    | NoRingBuffer
    | NotLoaded
    | CannotPause
    | CannotClear
    | CannotInsertProtected
    | CannotInsertRule
    | CannotEnable

  // What the calls made by load report; lsms is the text of /sys/kernel/security/lsm.
  datatype LoadCalls = LoadCalls(opens: bool, loads: bool, attaches: bool, lsms: Option<string>, ringBuffer: bool)

  // std::string::find.
  predicate Contains(s: string, part: string) {
    part <= s || (s != "" && Contains(s[1..], part))
  }

  lemma {:induction false} ContainsMeans(s: string, part: string)
    ensures Contains(s, part) <==> exists before, after :: s == before + part + after
  {
    if part <= s {
      assert s == "" + part + s[|part|..];
    } else if s != "" {
      ContainsMeans(s[1..], part);
      if Contains(s[1..], part) {
        var before, after :| s[1..] == before + part + after;
        assert s == ([s[0]] + before) + part + after;
      }
    }
    forall before, after | s == before + part + after ensures Contains(s, part) {
      if before == "" {
        assert s == part + after;
      } else {
        assert s[1..] == before[1..] + part + after;
      }
    }
  }

  // The status fields taken from a policy when it is applied.
  predicate Reflects(s: EnforcerStatus, c: CompiledPolicy) {
    s.policyVersion == c.version && s.protectedCount == |c.protectedResources| && s.ruleCount == |c.rules|
  }

  // Distinct keys are what takes up room in a map.
  ghost predicate Fits(c: CompiledPolicy, capacity: nat) {
    |KeysOf(ProtectedItems(c))| <= capacity && |KeysOf(RuleItems(c))| <= capacity
  }

  // What the map writes of an update do not touch.
  function Bookkeeping(s: System): (seq<CompiledPolicy>, Option<CompiledPolicy>) {
    (s.given, s.lastApplied)
  }

  // ------------------------------------------------------------ staleness, on the history

  // An update has completed since the program was last loaded or detached.
  predicate AppliedSinceLoad(steps: seq<Step>) {
    if steps == [] then false
    else
      match Last(steps)
      case Enable => true
      case Load => false
      case Detach => false
      case _ => AppliedSinceLoad(steps[..|steps| - 1])
  }

  // The last step that touched the switch in the config map.
  function LatestSwitch(steps: seq<Step>): Option<Step> {
    if steps == [] then None
    else
      match Last(steps)
      case Enable => Some(Enable)
      case Pause(p) => Some(Pause(p))
      case Load => Some(Load)
      case Detach => Some(Detach)
      case _ => LatestSwitch(steps[..|steps| - 1])
  }

  lemma {:induction false} SwitchDecides(steps: seq<Step>)
    requires Legal(steps)
    ensures After(steps).kernel.config.enabled <==> LatestSwitch(steps) == Some(Enable)
    ensures LatestSwitch(steps) == Some(Enable) ==> AppliedSinceLoad(steps)
    ensures AppliedSinceLoad(steps) ==>
      LatestSwitch(steps).Some? && (LatestSwitch(steps).value == Enable || LatestSwitch(steps).value.Pause?)
  {
    if steps != [] {
      SwitchDecides(steps[..|steps| - 1]);
    }
  }

  /** An update was paused and given up after another had completed. */
  predicate PausedOver(steps: seq<Step>) {
    AppliedSinceLoad(steps) && LatestSwitch(steps).Some? && LatestSwitch(steps).value.Pause?
  }

  // A run of steps that neither load nor enable nor pause changes neither.
  predicate KeepsSwitch(step: Step) {
    !step.Enable? && !step.Pause? && !step.Load? && !step.Detach?
  }

  lemma {:induction false} SwitchKept(steps: seq<Step>, more: seq<Step>)
    requires forall i :: 0 <= i < |more| ==> KeepsSwitch(more[i])
    ensures AppliedSinceLoad(steps + more) == AppliedSinceLoad(steps)
    ensures LatestSwitch(steps + more) == LatestSwitch(steps)
  {
    if more == [] {
      assert steps + more == steps;
    } else {
      var n := |more| - 1;
      SwitchKept(steps, more[..n]);
      assert (steps + more)[..|steps| + n] == steps + more[..n];
    }
  }

  function Switches(steps: seq<Step>): (bool, Option<Step>) {
    (AppliedSinceLoad(steps), LatestSwitch(steps))
  }

  function SwitchesThen(before: (bool, Option<Step>), step: Step): (bool, Option<Step>) {
    if KeepsSwitch(step) then before
    else (if step.Pause? then before.0 else step.Enable?, Some(step))
  }

  lemma SwitchExtend(steps: seq<Step>, step: Step)
    ensures Switches(steps + [step]) == SwitchesThen(Switches(steps), step)
  {
    assert (steps + [step])[..|steps|] == steps;
  }

  // ------------------------------------------------------------ the enforcer

  class LinuxEBPFEnforcer {
    const capacity: nat
    var kernel: Kernel
    var status: EnforcerStatus
    ghost var history: seq<Step>

    // The last policy whose update completed.
    ghost function Applied(): Option<CompiledPolicy>
      reads this
    {
      After(history).lastApplied
    }

    ghost predicate Valid()
      reads this
    {
      && Legal(history)
      && After(history).kernel == kernel
      && After(history).phase == Idle
      && status.attached == kernel.attached
      && (status.enforcing ==> Applied().Some? && Reflects(status, Applied().value))
      && (kernel.config.enabled ==> status.enforcing)
      && (status.enforcing ==> kernel.attached)
      && status.enforcing == AppliedSinceLoad(history)
    }

    constructor (capacity: nat)
      ensures Valid() && history == [] && kernel == UNLOADED && this.capacity == capacity
    {
      this.capacity := capacity;
      kernel := UNLOADED;
      status := EnforcerStatus(false, false, 0, 0, 0);
      history := [];
    }

    // Appends one protocol step to the history.
    ghost method Record(step: Step)
      requires Legal(history) && Enabled(After(history), step)
      modifies this`history
      ensures Legal(history) && old(history) <= history
      ensures After(history) == Do(old(After(history)), step)
      ensures Switches(history) == SwitchesThen(old(Switches(history)), step)
    {
      Extend(history, step);
      SwitchExtend(history, step);
      history := history + [step];
    }

    /** load: open, load and attach the program, and refuse a kernel that would never call
        it. The first failing call decides; a failure leaves no trace. */
    method LoadProgram(calls: LoadCalls) returns (r: Result<(), EnforcerError>)
      requires Valid()
      modifies this
      ensures Valid() && old(history) <= history && Applied() == old(Applied())
      ensures r.Success? <==>
        && !old(kernel).attached && calls.opens && calls.loads && calls.attaches
        && calls.lsms.Some? && Contains(calls.lsms.value, "bpf") && calls.ringBuffer
      ensures r.Success? ==> kernel == Kernel(true, Config(0, false), map[], map[])
      ensures r.Success? ==> status == old(status).(attached := true, enforcing := false)
      ensures r.Success? ==> !AppliedSinceLoad(history)
      ensures r.Failure? ==> unchanged(this)
    {
      if kernel.attached {
        return Failure(AlreadyLoaded);
      }
      if !calls.opens {
        return Failure(OpenFailed);
      }
      if !calls.loads {
        return Failure(LoadFailed);
      }
      if !calls.attaches {
        return Failure(AttachFailed);
      }
      if calls.lsms.None? {
        return Failure(LsmListUnreadable);
      }
      if !Contains(calls.lsms.value, "bpf") {
        return Failure(BpfLsmDisabled(calls.lsms.value));
      }
      if !calls.ringBuffer {
        return Failure(NoRingBuffer);
      }
      Record(Load);
      kernel := UNLOADED.(attached := true);
      status := status.(attached := true, enforcing := false);
      return Success(());
    }

    method DetachProgram()
      requires Valid()
      modifies this
      ensures Valid() && old(history) <= history && Applied() == old(Applied())
      ensures !kernel.attached && !kernel.config.enabled
      ensures status == old(status).(attached := false, enforcing := false, policyVersion := 0)
    {
      if kernel.attached {
        Record(Detach);
        kernel := UNLOADED;
      } else {
        Invariant(history);
      }
      status := status.(attached := false, enforcing := false, policyVersion := 0);
    }

    // clear_map on the protected map, during phase 2 of an update.
    method ClearProtected(target: CompiledPolicy, mayFail: bool) returns (ok: bool)
      requires Legal(history) && After(history).kernel == kernel
      requires After(history).phase == ClearingProtected(target)
      modifies this`kernel, this`history
      ensures Legal(history) && old(history) <= history && After(history).kernel == kernel
      ensures Bookkeeping(After(history)) == old(Bookkeeping(After(history))) && Switches(history) == old(Switches(history))
      ensures kernel == old(kernel).(protected := kernel.protected)
      ensures ok ==> kernel.protected == map[] && After(history).phase == ClearingRules(target)
      ensures !ok ==> !After(history).phase.Idle?
      ensures !mayFail ==> ok
    {
      var order := AnyWalkOrder(kernel.protected);
      var m, visited;
      ok, m, visited := ClearMap(kernel.protected, order, mayFail);
      RunProtectedDeletions(history, visited);
      SwitchKept(history, ProtectedDeletions(visited));
      history := history + ProtectedDeletions(visited);
      kernel := kernel.(protected := m);
      if ok {
        Record(ProtectedCleared);
      }
    }

    // clear_map on the rules map, during phase 2 of an update.
    method ClearRules(target: CompiledPolicy, mayFail: bool) returns (ok: bool)
      requires Legal(history) && After(history).kernel == kernel
      requires After(history).phase == ClearingRules(target)
      modifies this`kernel, this`history
      ensures Legal(history) && old(history) <= history && After(history).kernel == kernel
      ensures Bookkeeping(After(history)) == old(Bookkeeping(After(history))) && Switches(history) == old(Switches(history))
      ensures kernel == old(kernel).(rules := kernel.rules)
      ensures ok ==> kernel.rules == map[] && After(history).phase == InsertingProtected(target, 0)
      ensures !ok ==> !After(history).phase.Idle?
      ensures !mayFail ==> ok
    {
      var order := AnyWalkOrder(kernel.rules);
      var m, visited;
      ok, m, visited := ClearMap(kernel.rules, order, mayFail);
      RunRuleDeletions(history, visited);
      SwitchKept(history, RuleDeletions(visited));
      history := history + RuleDeletions(visited);
      kernel := kernel.(rules := m);
      if ok {
        Record(RulesCleared);
      }
    }

    // The insertion loop over the protected resources.
    method InsertProtectedResources(target: CompiledPolicy, mayFail: bool) returns (ok: bool)
      requires Legal(history) && After(history).kernel == kernel
      requires After(history).phase == InsertingProtected(target, 0) && kernel.protected == map[]
      modifies this`kernel, this`history
      ensures Legal(history) && old(history) <= history && After(history).kernel == kernel
      ensures Bookkeeping(After(history)) == old(Bookkeeping(After(history))) && Switches(history) == old(Switches(history))
      ensures kernel == old(kernel).(protected := kernel.protected)
      ensures ok ==> kernel.protected == Install(ProtectedItems(target)) && After(history).phase == InsertingRules(target, 0)
      ensures !ok ==> !After(history).phase.Idle?
      ensures !mayFail ==> (ok <==> |KeysOf(ProtectedItems(target))| <= capacity)
    {
      var m, done;
      ok, m, done := InsertAll(ProtectedItems(target), capacity, mayFail);
      RunProtectedInsertions(history, target, done);
      SwitchKept(history, Repeat(InsertProtected, done));
      history := history + Repeat(InsertProtected, done);
      kernel := kernel.(protected := m);
      if ok {
        assert ProtectedItems(target)[..done] == ProtectedItems(target);
        Record(ProtectedInserted);
      }
    }

    // The insertion loop over the rules.
    method InsertRules(target: CompiledPolicy, mayFail: bool) returns (ok: bool)
      requires Legal(history) && After(history).kernel == kernel
      requires After(history).phase == InsertingRules(target, 0) && kernel.rules == map[]
      modifies this`kernel, this`history
      ensures Legal(history) && old(history) <= history && After(history).kernel == kernel
      ensures Bookkeeping(After(history)) == old(Bookkeeping(After(history))) && Switches(history) == old(Switches(history))
      ensures kernel == old(kernel).(rules := kernel.rules)
      ensures ok ==> kernel.rules == Install(RuleItems(target)) && After(history).phase == InsertingRules(target, |target.rules|)
      ensures !ok ==> !After(history).phase.Idle?
      ensures !mayFail ==> (ok <==> |KeysOf(RuleItems(target))| <= capacity)
    {
      var m, done;
      ok, m, done := InsertAll(RuleItems(target), capacity, mayFail);
      RunRuleInsertions(history, target, done);
      SwitchKept(history, Repeat(InsertRule, done));
      history := history + Repeat(InsertRule, done);
      kernel := kernel.(rules := m);
      if ok {
        assert RuleItems(target)[..done] == RuleItems(target);
      }
    }

    // A failure return of apply_policy: the mutex is released, the maps stay as they are.
    ghost method GiveUp()
      requires Legal(history) && After(history).kernel == kernel && !After(history).phase.Idle?
      modifies this`history
      ensures Legal(history) && old(history) <= history && After(history).kernel == kernel
      ensures Bookkeeping(After(history)) == old(Bookkeeping(After(history))) && Switches(history) == old(Switches(history))
      ensures After(history).phase == Idle
    {
      Record(Abort);
    }

    // Both clear_map calls.
    method ClearMaps(target: CompiledPolicy, mayFail: bool) returns (ok: bool)
      requires Legal(history) && After(history).kernel == kernel
      requires After(history).phase == ClearingProtected(target)
      modifies this`kernel, this`history
      ensures Legal(history) && old(history) <= history && After(history).kernel == kernel
      ensures Bookkeeping(After(history)) == old(Bookkeeping(After(history))) && Switches(history) == old(Switches(history))
      ensures kernel == old(kernel).(protected := kernel.protected, rules := kernel.rules)
      ensures ok ==> kernel.protected == map[] && kernel.rules == map[]
      ensures ok ==> After(history).phase == InsertingProtected(target, 0)
      ensures !ok ==> !After(history).phase.Idle?
      ensures !mayFail ==> ok
    {
      ok := ClearProtected(target, mayFail);
      if ok {
        ok := ClearRules(target, mayFail);
      }
    }

    // Phase 2: replace the map contents. A failure releases the mutex.
    method ReplaceMaps(target: CompiledPolicy, mayFail: bool) returns (r: Result<(), EnforcerError>)
      requires Legal(history) && After(history).kernel == kernel
      requires After(history).phase == ClearingProtected(target)
      modifies this`kernel, this`history
      ensures Legal(history) && old(history) <= history && After(history).kernel == kernel
      ensures Bookkeeping(After(history)) == old(Bookkeeping(After(history))) && Switches(history) == old(Switches(history))
      ensures kernel == old(kernel).(protected := kernel.protected, rules := kernel.rules)
      ensures r.Success? ==> After(history).phase == InsertingRules(target, |target.rules|)
      ensures r.Success? ==> kernel.protected == Install(ProtectedItems(target)) && kernel.rules == Install(RuleItems(target))
      ensures r.Failure? ==> After(history).phase == Idle
      ensures r.Failure? ==> r.error in {CannotClear, CannotInsertProtected, CannotInsertRule}
      ensures !mayFail ==> (r.Success? <==> Fits(target, capacity))
      ensures !mayFail && r.Failure? ==> r.error in {CannotInsertProtected, CannotInsertRule}
    {
      var ok := ClearMaps(target, mayFail);
      if !ok {
        GiveUp();
        return Failure(CannotClear);
      }
      ok := InsertProtectedResources(target, mayFail);
      if !ok {
        GiveUp();
        return Failure(CannotInsertProtected);
      }
      ok := InsertRules(target, mayFail);
      if !ok {
        GiveUp();
        return Failure(CannotInsertRule);
      }
      return Success(());
    }

    /** apply_policy. mayFail tells whether system calls may fail for reasons other than a
        full map. */
    method ApplyPolicy(policy: CompiledPolicy, mayFail: bool) returns (r: Result<(), EnforcerError>)
      requires Valid()
      modifies this
      ensures Valid() && old(history) <= history
      ensures r.Success? ==> kernel == Installed(policy) && Applied() == Some(policy)
      // A failure is either noticed before anything changed, or leaves enforcement paused.
      ensures r.Failure? ==> status == old(status) && Applied() == old(Applied())
      ensures r.Failure? && r.error in {NotLoaded, CannotPause} ==> unchanged(this)
      ensures r.Failure? && r.error !in {NotLoaded, CannotPause} ==> kernel.attached && kernel.config == Config(0, false)
      ensures r.Success? ==> Reflects(status, policy)
      ensures r.Success? ==> old(kernel).attached
      ensures After(history).given == old(After(history)).given +
                (if r.Failure? && r.error in {NotLoaded, CannotPause} then [] else [policy])
      // With no other faults, success depends on the capacity alone.
      ensures !mayFail && old(kernel).attached ==> (r.Success? <==> Fits(policy, capacity))
      ensures !mayFail && old(kernel).attached && r.Failure? ==> r.error in {CannotInsertProtected, CannotInsertRule}
    {
      if !kernel.attached {
        return Failure(NotLoaded);
      }
      var fault: bool := *;
      if mayFail && fault {
        return Failure(CannotPause);
      }
      Record(Pause(policy));
      kernel := kernel.(config := OFF);

      r := ReplaceMaps(policy, mayFail);
      if r.Failure? {
        return;
      }
      fault := *;
      if mayFail && fault {
        GiveUp();
        return Failure(CannotEnable);
      }
      Record(Enable);
      kernel := kernel.(config := ConfigFor(policy));
      status := status.(policyVersion := policy.version, protectedCount := |policy.protectedResources|,
                        ruleCount := |policy.rules|, enforcing := true);
    }

    /** status: the cached fields, with enforcing and version overridden from the config
        map when it can be read. */
    method Status(lookupFails: bool) returns (s: EnforcerStatus)
      requires Valid()
      // Version and counts of an enforcing status come from one applied policy.
      ensures s.enforcing ==> Applied().Some? && Reflects(s, Applied().value)
      // It is the policy in the kernel, unless the config map could not be read.
      ensures s.enforcing && !lookupFails ==> kernel == Installed(Applied().value)
      ensures !lookupFails ==> (s.enforcing <==> kernel.config.enabled)
      ensures kernel.config.enabled ==> s.enforcing
      ensures s.attached == kernel.attached
      ensures s.protectedCount == status.protectedCount && s.ruleCount == status.ruleCount
      ensures !lookupFails && kernel.attached ==> s.policyVersion == ToI32(kernel.config.policyVersion)
      ensures lookupFails ==> s == status
      // It claims an enforcement that is off exactly when the config map cannot be read
      // and the last update was given up after an earlier one had completed.
      ensures s.enforcing && !kernel.config.enabled <==> lookupFails && PausedOver(history)
    {
      Invariant(history);
      SwitchDecides(history);
      s := status;
      if kernel.attached && !lookupFails {
        s := s.(enforcing := kernel.config.enabled, policyVersion := ToI32(kernel.config.policyVersion));
      }
    }
  }

  /** Any policy too large for the maps does it: its update fails with enforcement paused,
      and without the config map the report still says enforcing. */
  method StaleStatus(e: LinuxEBPFEnforcer, policy: CompiledPolicy) returns (cached: EnforcerStatus, actual: EnforcerStatus)
    requires e.Valid() && e.kernel.config.enabled && !Fits(policy, e.capacity)
    modifies e
    ensures !e.kernel.config.enabled && cached.enforcing && !actual.enforcing
    ensures e.Valid() && PausedOver(e.history)
  {
    Invariant(e.history);
    var r := e.ApplyPolicy(policy, false);
    cached := e.Status(true);
    actual := e.Status(false);
  }

  /** A whole run that gets there: maps of one entry, an empty policy, then one of two files. */
  method StaleStatusRun() returns (e: LinuxEBPFEnforcer, cached: EnforcerStatus, actual: EnforcerStatus)
    ensures e.Valid() && !e.kernel.config.enabled && cached.enforcing && !actual.enforcing
  {
    e := new LinuxEBPFEnforcer(1);
    var loaded := e.LoadProgram(LoadCalls(true, true, true, Some("bpf"), true));
    var small := CompiledPolicy(1, [], []);
    assert KeysOf(ProtectedItems(small)) == {} && KeysOf(RuleItems(small)) == {};
    var applied := e.ApplyPolicy(small, false);
    var a, b := FileId(8, 1, 1), FileId(8, 1, 2);
    var large := CompiledPolicy(2, [a, b], []);
    TwoKeys(large, a, b);
    cached, actual := StaleStatus(e, large);
  }

  lemma TwoKeys(c: CompiledPolicy, a: FileId, b: FileId)
    requires c.protectedResources == [a, b] && a != b
    ensures !Fits(c, 1)
  {
    var items := ProtectedItems(c);
    assert items[0].0 == a && items[1].0 == b;
    assert KeysOf(items) == {a, b};
  }
}
