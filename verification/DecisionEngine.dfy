/** src/decision_engine.cpp: the path-level decision the kernel path must agree with. */
module DecisionEngine {
  import opened Common
  import opened Policies

  datatype Reason = PolicyRuleHit | DefaultDeny | UnknownProcess | ResourceUnprotected

  datatype AccessRequest = AccessRequest(resourcePath: string, process: ProcessIdentity, operation: Operation)

  // matchedRuleId is the empty string when no rule matched.
  datatype Decision = Decision(action: Action, reason: Reason, matchedRuleId: string)

  predicate Asks(rule: PolicyRule, request: AccessRequest) {
    Matches(rule, request.resourcePath, request.process, request.operation)
  }

  // Some rule matches, none before it does, and it carries this action and id.
  ghost predicate Decides(rules: seq<PolicyRule>, request: AccessRequest, action: Action, id: string) {
    exists i :: 0 <= i < |rules| && Asks(rules[i], request) && rules[i].action == action && rules[i].id == id &&
                forall k :: 0 <= k < i ==> !Asks(rules[k], request)
  }

  /** DecisionEngine::evaluate. */
  function Evaluate(p: Policy, request: AccessRequest): (d: Decision)
    ensures d.reason == ResourceUnprotected <==> !Listed(p.protectedResources, request.resourcePath)
    ensures d.reason == PolicyRuleHit <==>
      Listed(p.protectedResources, request.resourcePath) && exists rule :: rule in p.rules && Asks(rule, request)
    ensures d.reason == ResourceUnprotected ==> d.action == Allow && d.matchedRuleId == ""
    ensures d.reason == PolicyRuleHit ==> Decides(p.rules, request, d.action, d.matchedRuleId)
    ensures d.reason == DefaultDeny ==> d.action == p.defaultAction && d.matchedRuleId == ""
    ensures d.reason != UnknownProcess
  {
    if !IsProtected(p, request.resourcePath) then
      Decision(Allow, ResourceUnprotected, "")
    else
      match FindRule(p, request.resourcePath, request.process, request.operation)
      case Some(i) =>
        assert Asks(p.rules[i], request);
        Decision(p.rules[i].action, PolicyRuleHit, p.rules[i].id)
      // The source labels a default of ALLOW with the same reason.
      case None => Decision(p.defaultAction, DefaultDeny, "")
  }

  function OpenRequest(resourcePath: string, processPath: string): AccessRequest {
    AccessRequest(resourcePath, ProcessIdentity(ExePath, processPath), Open)
  }
}
