/** ebpf/fileguard.bpf.c: the decision taken for each open, as map lookups. */
module KernelProgram {
  import opened Common
  import opened FileIdentity
  import opened Policies
  import opened DecisionEngine

  const EACCES := 13

  datatype RuleKey = RuleKey(res: FileId, proc: FileId)
  datatype RuleVal = RuleVal(ruleId: u32, action: Action, operation: Operation)
  datatype Config = Config(policyVersion: u32, enabled: bool)

  // attached: the program is loaded and its hook runs. The value of a protected entry
  // carries nothing; only its presence matters.
  datatype Kernel = Kernel(
    attached: bool,
    config: Config,
    protected: map<FileId, ()>,
    rules: map<RuleKey, RuleVal>)

  // ruleId is None where the program leaves the field unwritten.
  datatype Event = Event(
    resource: FileId,
    operation: Operation,
    action: Action,
    reason: Reason,
    ruleId: Option<u32>)

  datatype Verdict = Verdict(ret: int, action: Action, reason: Reason, ruleId: Option<u32>)
  datatype Outcome = Outcome(ret: int, event: Option<Event>)

  /** fg_decision: the result for a protected resource and what it writes to the event. A
      rule is copied at the lookup; the program keeps a pointer to it and reads the fields
      next, so the model assumes that the entry is not reused in between. */
  function FgDecision(rules: map<RuleKey, RuleVal>, res: FileId, proc: FileId): (v: Verdict)
    ensures v.ret == (if v.action == Allow then 0 else -EACCES)
    ensures v.reason == UnknownProcess <==> !proc.Valid()
    ensures v.reason == PolicyRuleHit <==> proc.Valid() && RuleKey(res, proc) in rules
    ensures v.reason == PolicyRuleHit ==> v.action == rules[RuleKey(res, proc)].action
    ensures v.reason != PolicyRuleHit ==> v.action == Deny
    ensures v.ruleId.Some? <==> v.reason == PolicyRuleHit
    ensures v.ruleId.Some? ==> v.ruleId.value == rules[RuleKey(res, proc)].ruleId
    ensures v.reason != ResourceUnprotected
  {
    if proc.ino == 0 then
      Verdict(-EACCES, Deny, UnknownProcess, None)
    else if RuleKey(res, proc) in rules then
      var rule := rules[RuleKey(res, proc)];
      Verdict(if rule.action == Allow then 0 else -EACCES, rule.action, PolicyRuleHit, Some(rule.ruleId))
    else
      Verdict(-EACCES, Deny, DefaultDeny, None)
  }

  /** fg_file_open. The three lookups take their maps as separate arguments because
      other writes may fall between them; slot tells whether an event could be reserved. */
  function FileOpen(config: Config, protected: map<FileId, ()>, rules: map<RuleKey, RuleVal>,
                    res: FileId, proc: FileId, slot: bool): (o: Outcome)
    // Denied exactly if enforced, protected and not allowed by a rule for the process.
    ensures o.ret != 0 <==>
      && config.enabled && res.Valid() && res in protected
      && !(proc.Valid() && RuleKey(res, proc) in rules && rules[RuleKey(res, proc)].action == Allow)
    ensures o.ret == 0 || o.ret == -13
    // Reported exactly if a protected file is decided on and there is room.
    ensures o.event.Some? <==> slot && config.enabled && res.Valid() && res in protected
    ensures o.event.Some? ==>
      && o.event.value.resource == res && o.event.value.operation == Open
      && (o.ret == 0 <==> o.event.value.action == Allow)
      && (o.event.value.reason == PolicyRuleHit <==> proc.Valid() && RuleKey(res, proc) in rules)
  {
    if !config.enabled then Outcome(0, None)
    else if res.ino == 0 then Outcome(0, None)
    else if res !in protected then Outcome(0, None)
    else
      var v := FgDecision(rules, res, proc);
      Outcome(v.ret, if slot then Some(Event(res, Open, v.action, v.reason, v.ruleId)) else None)
  }

  /** An open that no map write interrupts. */
  function QuietOpen(k: Kernel, res: FileId, proc: FileId, slot: bool): (o: Outcome)
    ensures o.ret != 0 || o.event.Some? ==> k.attached && k.config.enabled && res in k.protected
  {
    if !k.attached then Outcome(0, None) else FileOpen(k.config, k.protected, k.rules, res, proc, slot)
  }
}
