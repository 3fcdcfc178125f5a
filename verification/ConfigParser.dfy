/** src/config_parser.cpp: from a JSON tree to a policy. */
module ConfigParsers {
  import opened Common
  import opened Policies

  datatype Json =
    | Null
    | Bool(b: bool)
    | Number(n: int)
    | Str(s: string)
    | Arr(items: seq<Json>)
    | Obj(fields: map<string, Json>)

  // Thrown: json::value found a field of the wrong type, and the exception leaves the parser.
  datatype Outcome<+T> = Got(value: T) | Rejected | Thrown {
    predicate IsFailure() {
      !Got?
    }

    function PropagateFailure<U>(): Outcome<U>
      requires IsFailure()
    {
      if Rejected? then Rejected else Thrown
    }

    function Extract(): T
      requires !IsFailure()
    {
      value
    }
  }

  // ------------------------------------------------------------ single values

  // json::value(key, "").
  function TextField(fields: map<string, Json>, key: string): Outcome<string> {
    if key !in fields then Got("")
    else if fields[key].Str? then Got(fields[key].s)
    else Thrown
  }

  // json::value("version", 0): the number is cast to 32 bits.
  function ReadVersion(fields: map<string, Json>): Outcome<i32> {
    if "version" !in fields then Got(0)
    else if fields["version"].Number? then Got(ToI32(fields["version"].n % TWO_32))
    else Thrown
  }

  function ReadOperation(j: Json): Outcome<Operation> {
    if j == Str("OPEN") then Got(Open) else Rejected
  }

  function ReadAction(j: Json): Outcome<Action> {
    if j == Str("ALLOW") then Got(Allow)
    else if j == Str("DENY") then Got(Deny)
    else Rejected
  }

  function ReadProcess(j: Json): Outcome<ProcessIdentity> {
    if !j.Obj? then Rejected
    else
      var kind :- TextField(j.fields, "type");
      if kind != "exe_path" then Rejected
      else if "value" !in j.fields || !j.fields["value"].Str? then Rejected
      else if !Absolute(j.fields["value"].s) then Rejected
      else Got(ProcessIdentity(ExePath, j.fields["value"].s))
  }

  // ------------------------------------------------------------ list elements

  function ReadResource(j: Json): Outcome<ResourceIdentity> {
    if !j.Obj? then Rejected
    else
      var path :- TextField(j.fields, "path");
      if !Absolute(path) then Rejected
      else if "operation" !in j.fields then Got(ResourceIdentity(path, None))
      else
        var op :- ReadOperation(j.fields["operation"]);
        Got(ResourceIdentity(path, Some(op)))
  }

  function ReadRule(j: Json): Outcome<PolicyRule> {
    if !j.Obj? then Rejected
    else
      var id :- TextField(j.fields, "id");
      var path :- TextField(j.fields, "resource");
      var op :- if "operation" in j.fields then ReadOperation(j.fields["operation"]) else Got(Open);
      var process :- if "process" in j.fields then ReadProcess(j.fields["process"]) else Got(ProcessIdentity(ExePath, ""));
      var action :- if "action" in j.fields then ReadAction(j.fields["action"]) else Got(Allow);
      Got(PolicyRule(id, ResourceIdentity(path, None), process, op, action))
  }

  /** Reading a list stops at the first element that cannot be read. */
  function ReadEach<T>(items: seq<Json>, read: Json -> Outcome<T>): Outcome<seq<T>> {
    if items == [] then Got([])
    else
      var first :- read(items[0]);
      var rest :- ReadEach(items[1..], read);
      Got([first] + rest)
  }

  function ReadList<T>(fields: map<string, Json>, key: string, read: Json -> Outcome<T>): Outcome<seq<T>> {
    if key !in fields then Got([])
    else if !fields[key].Arr? then Rejected
    else ReadEach(fields[key].items, read)
  }

  // ------------------------------------------------------------ the whole tree

  function ReadDefaults(fields: map<string, Json>): Outcome<Action> {
    if "defaults" !in fields then Got(Deny)
    else if !fields["defaults"].Obj? then Rejected
    else if "action" !in fields["defaults"].fields then Got(Deny)
    else ReadAction(fields["defaults"].fields["action"])
  }

  function Read(root: Json): Outcome<Policy> {
    if !root.Obj? then Rejected
    else
      var version :- ReadVersion(root.fields);
      var defaultAction :- ReadDefaults(root.fields);
      var resources :- ReadList(root.fields, "protected_resources", ReadResource);
      var rules :- ReadList(root.fields, "rules", ReadRule);
      Got(Policy(version, defaultAction, resources, rules))
  }

  ghost function Parsed(root: Json): Outcome<Policy> {
    var p :- Read(root);
    if WellFormed(p) then Got(p) else Rejected
  }

  // ------------------------------------------------------------ what a tree says

  // A text field that may be absent.
  ghost predicate SaysText(fields: map<string, Json>, key: string, text: string) {
    if key in fields then fields[key] == Str(text) else text == ""
  }

  ghost predicate SaysAction(fields: map<string, Json>, action: Action, absent: Action) {
    if "action" !in fields then action == absent
    else (fields["action"] == Str("ALLOW") && action == Allow) || (fields["action"] == Str("DENY") && action == Deny)
  }

  ghost predicate SaysOpen(fields: map<string, Json>) {
    "operation" in fields ==> fields["operation"] == Str("OPEN")
  }

  ghost predicate SaysVersion(fields: map<string, Json>, version: i32) {
    if "version" !in fields then version == 0
    else fields["version"].Number? && (fields["version"].n - version) % 0x1_0000_0000 == 0
  }

  ghost predicate SaysDefault(fields: map<string, Json>, action: Action) {
    if "defaults" !in fields then action == Deny
    else fields["defaults"].Obj? && SaysAction(fields["defaults"].fields, action, Deny)
  }

  ghost predicate SaysResource(j: Json, r: ResourceIdentity) {
    && j.Obj? && SaysText(j.fields, "path", r.path) && Absolute(r.path)
    && SaysOpen(j.fields)
    && r.operation == if "operation" in j.fields then Some(Open) else None
  }

  ghost predicate SaysProcess(j: Json, process: ProcessIdentity) {
    && j.Obj? && "type" in j.fields && j.fields["type"] == Str("exe_path") && process.kind == ExePath
    && "value" in j.fields && j.fields["value"] == Str(process.value) && Absolute(process.value)
  }

  ghost predicate SaysRule(j: Json, r: PolicyRule) {
    && j.Obj?
    && SaysText(j.fields, "id", r.id)
    && SaysText(j.fields, "resource", r.resource.path) && r.resource.operation == None
    && SaysOpen(j.fields) && r.operation == Open
    && (if "process" in j.fields then SaysProcess(j.fields["process"], r.process)
        else r.process == ProcessIdentity(ExePath, ""))
    && SaysAction(j.fields, r.action, Allow)
  }

  ghost predicate SaysResources(fields: map<string, Json>, resources: seq<ResourceIdentity>) {
    if "protected_resources" !in fields then resources == []
    else
      fields["protected_resources"].Arr? &&
      var items := fields["protected_resources"].items;
      |items| == |resources| && forall i :: 0 <= i < |items| ==> SaysResource(items[i], resources[i])
  }

  ghost predicate SaysRules(fields: map<string, Json>, rules: seq<PolicyRule>) {
    if "rules" !in fields then rules == []
    else
      fields["rules"].Arr? &&
      var items := fields["rules"].items;
      |items| == |rules| && forall i :: 0 <= i < |items| ==> SaysRule(items[i], rules[i])
  }

  /** The policy a tree describes, field by field, with the documented defaults; nothing
      here says how it is read. */
  ghost predicate Says(root: Json, p: Policy) {
    && root.Obj?
    && SaysVersion(root.fields, p.version)
    && SaysDefault(root.fields, p.defaultAction)
    && SaysResources(root.fields, p.protectedResources)
    && SaysRules(root.fields, p.rules)
  }

  lemma ResourceSays(j: Json, r: ResourceIdentity)
    ensures ReadResource(j) == Got(r) <==> SaysResource(j, r)
  {
  }

  lemma ProcessSays(j: Json, process: ProcessIdentity)
    ensures ReadProcess(j) == Got(process) <==> SaysProcess(j, process)
  {
  }

  lemma RuleSays(j: Json, r: PolicyRule)
    ensures ReadRule(j) == Got(r) <==> SaysRule(j, r)
  {
    if j.Obj? && "process" in j.fields {
      ProcessSays(j.fields["process"], r.process);
    }
  }

  lemma VersionSays(fields: map<string, Json>, version: i32)
    ensures ReadVersion(fields) == Got(version) <==> SaysVersion(fields, version)
  {
  }

  lemma DefaultSays(fields: map<string, Json>, action: Action)
    ensures ReadDefaults(fields) == Got(action) <==> SaysDefault(fields, action)
  {
  }

  lemma ResourcesSay(fields: map<string, Json>, resources: seq<ResourceIdentity>)
    ensures ReadList(fields, "protected_resources", ReadResource) == Got(resources) <==> SaysResources(fields, resources)
  {
    if "protected_resources" in fields && fields["protected_resources"].Arr? {
      var items := fields["protected_resources"].items;
      ReadEachIs(items, ReadResource, resources);
      forall i | 0 <= i < |items| && |items| == |resources|
        ensures ReadResource(items[i]) == Got(resources[i]) <==> SaysResource(items[i], resources[i])
      {
        ResourceSays(items[i], resources[i]);
      }
    }
  }

  lemma RulesSay(fields: map<string, Json>, rules: seq<PolicyRule>)
    ensures ReadList(fields, "rules", ReadRule) == Got(rules) <==> SaysRules(fields, rules)
  {
    if "rules" in fields && fields["rules"].Arr? {
      var items := fields["rules"].items;
      ReadEachIs(items, ReadRule, rules);
      forall i | 0 <= i < |items| && |items| == |rules|
        ensures ReadRule(items[i]) == Got(rules[i]) <==> SaysRule(items[i], rules[i])
      {
        RuleSays(items[i], rules[i]);
      }
    }
  }

  lemma {:induction false} ReadEachIs<T>(items: seq<Json>, read: Json -> Outcome<T>, values: seq<T>)
    ensures ReadEach(items, read) == Got(values) <==>
      |items| == |values| && forall i :: 0 <= i < |items| ==> read(items[i]) == Got(values[i])
  {
    if items != [] && values != [] {
      ReadEachIs(items[1..], read, values[1..]);
      assert values == [values[0]] + values[1..];
      assert forall i :: 1 <= i < |items| ==> items[i] == items[1..][i - 1];
      assert forall i :: 1 <= i < |values| ==> values[i] == values[1..][i - 1];
      assert forall i :: 0 <= i < |items| - 1 ==> items[1..][i] == items[i + 1];
      assert forall i :: 0 <= i < |values| - 1 ==> values[1..][i] == values[i + 1];
    }
  }

  /** Reading gets exactly what the tree says. */
  lemma ReadIsSaid(root: Json, p: Policy)
    ensures Read(root) == Got(p) <==> Says(root, p)
  {
    if root.Obj? {
      VersionSays(root.fields, p.version);
      DefaultSays(root.fields, p.defaultAction);
      ResourcesSay(root.fields, p.protectedResources);
      RulesSay(root.fields, p.rules);
    }
  }

  // ------------------------------------------------------------ what makes the library throw

  // Every field read with json::value has the type of its default.
  ghost predicate TextOrAbsent(fields: map<string, Json>, key: string) {
    key in fields ==> fields[key].Str?
  }

  ghost predicate TypedRule(j: Json) {
    j.Obj? ==>
      && TextOrAbsent(j.fields, "id") && TextOrAbsent(j.fields, "resource")
      && ("process" in j.fields && j.fields["process"].Obj? ==> TextOrAbsent(j.fields["process"].fields, "type"))
  }

  ghost predicate TypedResource(j: Json) {
    j.Obj? ==> TextOrAbsent(j.fields, "path")
  }

  ghost predicate EachTyped(fields: map<string, Json>, key: string, typed: Json -> bool) {
    key in fields && fields[key].Arr? ==> forall i :: 0 <= i < |fields[key].items| ==> typed(fields[key].items[i])
  }

  ghost predicate WellTyped(root: Json) {
    root.Obj? ==>
      && ("version" in root.fields ==> root.fields["version"].Number?)
      && EachTyped(root.fields, "protected_resources", j => TypedResource(j))
      && EachTyped(root.fields, "rules", j => TypedRule(j))
  }

  lemma {:induction false} EachNotThrown<T>(items: seq<Json>, read: Json -> Outcome<T>)
    requires forall i :: 0 <= i < |items| ==> !read(items[i]).Thrown?
    ensures !ReadEach(items, read).Thrown?
  {
    if items != [] {
      EachNotThrown(items[1..], read);
    }
  }

  lemma TypedNotThrown(root: Json)
    requires WellTyped(root)
    ensures !Read(root).Thrown?
  {
    if root.Obj? {
      var f := root.fields;
      if "protected_resources" in f && f["protected_resources"].Arr? {
        forall i | 0 <= i < |f["protected_resources"].items| ensures !ReadResource(f["protected_resources"].items[i]).Thrown? {
          assert TypedResource(f["protected_resources"].items[i]);
        }
        EachNotThrown(f["protected_resources"].items, ReadResource);
      }
      if "rules" in f && f["rules"].Arr? {
        forall i | 0 <= i < |f["rules"].items| ensures !ReadRule(f["rules"].items[i]).Thrown? {
          assert TypedRule(f["rules"].items[i]);
        }
        EachNotThrown(f["rules"].items, ReadRule);
      }
    }
  }

  // ------------------------------------------------------------ the parser

  function After<T>(done: seq<T>, rest: Outcome<seq<T>>): Outcome<seq<T>> {
    if rest.Got? then Got(done + rest.value) else rest
  }

  lemma AfterNone<T>(o: Outcome<seq<T>>)
    ensures After([], o) == o
  {
    assert o.Got? ==> [] + o.value == o.value;
  }

  lemma ReadOneMore<T>(done: seq<T>, items: seq<Json>, read: Json -> Outcome<T>)
    requires |items| > 0
    ensures After(done, ReadEach(items, read)) ==
      if read(items[0]).Got? then After(done + [read(items[0]).value], ReadEach(items[1..], read))
      else read(items[0]).PropagateFailure()
  {
    var rest := ReadEach(items[1..], read);
    assert read(items[0]).Got? && rest.Got? ==>
      done + ([read(items[0]).value] + rest.value) == done + [read(items[0]).value] + rest.value;
  }

  // The loop over either list: elements are appended until one cannot be read.
  method ReadItems<T>(items: seq<Json>, read: Json -> Outcome<T>) returns (r: Outcome<seq<T>>)
    ensures r == ReadEach(items, read)
  {
    var done: seq<T> := [];
    assert items[0..] == items;
    assert After(done, ReadEach(items, read)) == ReadEach(items, read) by {
      AfterNone(ReadEach(items, read));
    }
    for i := 0 to |items|
      invariant After(done, ReadEach(items[i..], read)) == ReadEach(items, read)
    {
      ReadOneMore(done, items[i..], read);
      assert items[i..][1..] == items[i + 1..];
      var item := read(items[i]);
      if item.IsFailure() {
        return item.PropagateFailure();
      }
      done := done + [item.value];
    }
    assert done + [] == done;
    return Got(done);
  }

  /** ConfigParser::from_json on a tree. */
  method FromJson(root: Json) returns (r: Outcome<Policy>)
    // It gets a policy exactly if the tree says that policy and the policy is valid,
    ensures forall p :: r == Got(p) <==> Says(root, p) && WellFormed(p)
    // and every other tree of well-typed fields is rejected.
    ensures WellTyped(root) ==> r != Thrown
    ensures r == Parsed(root)
  {
    forall p ensures Parsed(root) == Got(p) <==> Says(root, p) && WellFormed(p) {
      ReadIsSaid(root, p);
    }
    if WellTyped(root) {
      TypedNotThrown(root);
    }
    if !root.Obj? {
      return Rejected;
    }
    var version :- ReadVersion(root.fields);
    var defaultAction :- ReadDefaults(root.fields);
    var resources: seq<ResourceIdentity> := [];
    if "protected_resources" in root.fields {
      if !root.fields["protected_resources"].Arr? {
        return Rejected;
      }
      resources :- ReadItems(root.fields["protected_resources"].items, ReadResource);
    }
    var rules: seq<PolicyRule> := [];
    if "rules" in root.fields {
      if !root.fields["rules"].Arr? {
        return Rejected;
      }
      rules :- ReadItems(root.fields["rules"].items, ReadRule);
    }
    var p := Policy(version, defaultAction, resources, rules);
    var v := Validate(p);
    return if v.Success? then Got(p) else Rejected;
  }

  // ------------------------------------------------------------ soundness

  lemma {:induction false} ReadEachMeans<T>(items: seq<Json>, read: Json -> Outcome<T>)
    ensures match ReadEach(items, read)
            case Got(values) => |values| == |items| && forall i :: 0 <= i < |items| ==> read(items[i]) == Got(values[i])
            case _ => exists i :: 0 <= i < |items| && read(items[i]).IsFailure()
  {
    if items != [] {
      ReadEachMeans(items[1..], read);
      assert forall i :: 1 <= i < |items| ==> items[i] == items[1..][i - 1];
    }
  }

  // What the documented schema can say.
  ghost predicate Expressible(p: Policy) {
    && WellFormed(p)
    && AbsoluteProcesses(p)
    && forall i :: 0 <= i < |p.rules| ==> p.rules[i].resource.operation.None?
  }

  /** Every accepted tree yields a valid policy whose process paths are absolute. */
  lemma ParseSound(root: Json)
    requires Parsed(root).Got?
    ensures Expressible(Parsed(root).value)
  {
    var p := Parsed(root).value;
    if "rules" in root.fields {
      ReadEachMeans(root.fields["rules"].items, ReadRule);
    }
    forall i | 0 <= i < |p.rules| ensures Absolute(p.rules[i].process.value) && p.rules[i].resource.operation.None? {
      var j := root.fields["rules"].items[i];
      assert ReadRule(j) == Got(p.rules[i]);
      assert RuleOk(p.protectedResources, p.rules[i]);
    }
  }

  // Names outside the vocabulary.
  ghost predicate UnknownAction(fields: map<string, Json>) {
    "action" in fields && fields["action"] != Str("ALLOW") && fields["action"] != Str("DENY")
  }

  ghost predicate UnknownOperation(fields: map<string, Json>) {
    "operation" in fields && fields["operation"] != Str("OPEN")
  }

  ghost predicate UnknownProcess(fields: map<string, Json>) {
    && "process" in fields && fields["process"].Obj?
    && ("type" !in fields["process"].fields || fields["process"].fields["type"] != Str("exe_path"))
  }

  // An element of a list that is an object.
  ghost predicate HasItem(fields: map<string, Json>, key: string, i: nat) {
    key in fields && fields[key].Arr? && i < |fields[key].items| && fields[key].items[i].Obj?
  }

  ghost predicate HasUnknown(fields: map<string, Json>, i: nat) {
    || ("defaults" in fields && fields["defaults"].Obj? && UnknownAction(fields["defaults"].fields))
    || (HasItem(fields, "protected_resources", i) && UnknownOperation(fields["protected_resources"].items[i].fields))
    || (HasItem(fields, "rules", i) &&
        var rule := fields["rules"].items[i].fields;
        UnknownAction(rule) || UnknownOperation(rule) || UnknownProcess(rule))
  }

  lemma UnknownInResource(fields: map<string, Json>, i: nat, resources: seq<ResourceIdentity>)
    requires HasItem(fields, "protected_resources", i) && UnknownOperation(fields["protected_resources"].items[i].fields)
    ensures !SaysResources(fields, resources)
  {
    if |fields["protected_resources"].items| == |resources| {
      assert !SaysResource(fields["protected_resources"].items[i], resources[i]);
    }
  }

  lemma UnknownInRule(fields: map<string, Json>, i: nat, rules: seq<PolicyRule>)
    requires HasItem(fields, "rules", i)
    requires var rule := fields["rules"].items[i].fields;
             UnknownAction(rule) || UnknownOperation(rule) || UnknownProcess(rule)
    ensures !SaysRules(fields, rules)
  {
    if |fields["rules"].items| == |rules| {
      assert !SaysRule(fields["rules"].items[i], rules[i]);
    }
  }

  /** Nothing outside the vocabulary is let through: an unknown default action, an unknown
      operation of a protected resource, or an unknown action, operation or identity type
      of a rule makes the parser reject the tree. */
  lemma UnknownNamesRejected(root: Json, i: nat)
    requires root.Obj? && WellTyped(root) && HasUnknown(root.fields, i)
    ensures Parsed(root) == Rejected
  {
    TypedNotThrown(root);
    var f := root.fields;
    forall p ensures !Says(root, p) {
      if HasItem(f, "protected_resources", i) && UnknownOperation(f["protected_resources"].items[i].fields) {
        UnknownInResource(f, i, p.protectedResources);
      } else if !("defaults" in f && f["defaults"].Obj? && UnknownAction(f["defaults"].fields)) {
        UnknownInRule(f, i, p.rules);
      }
    }
    if Read(root).Got? {
      ReadIsSaid(root, Read(root).value);
    }
  }

  // ------------------------------------------------------------ completeness

  // The documented schema. A terse rendering leaves out what the defaults supply.
  function RenderAction(a: Action): Json {
    Str(if a == Allow then "ALLOW" else "DENY")
  }

  function RenderResource(r: ResourceIdentity): Json {
    Obj(map["path" := Str(r.path)] + if r.operation.Some? then map["operation" := Str("OPEN")] else map[])
  }

  function RenderRule(r: PolicyRule, terse: bool): Json {
    Obj(map["id" := Str(r.id), "resource" := Str(r.resource.path),
            "process" := Obj(map["type" := Str("exe_path"), "value" := Str(r.process.value)])]
        + (if terse then map[] else map["operation" := Str("OPEN")])
        + (if terse && r.action == Allow then map[] else map["action" := RenderAction(r.action)]))
  }

  function RenderEach<T>(values: seq<T>, render: T -> Json): seq<Json> {
    if values == [] then [] else [render(values[0])] + RenderEach(values[1..], render)
  }

  function Render(p: Policy, terse: bool): Json {
    Obj(map["version" := Number(p.version),
            "protected_resources" := Arr(RenderEach(p.protectedResources, RenderResource)),
            "rules" := Arr(RenderEach(p.rules, (r: PolicyRule) => RenderRule(r, terse)))]
        + (if terse && p.defaultAction == Deny then map[]
           else map["defaults" := Obj(map["action" := RenderAction(p.defaultAction)])]))
  }

  lemma ResourceRoundTrip(r: ResourceIdentity)
    requires ResourceOk(r)
    ensures ReadResource(RenderResource(r)) == Got(r)
  {
  }

  lemma RuleRoundTrip(resources: seq<ResourceIdentity>, r: PolicyRule, terse: bool)
    requires RuleOk(resources, r) && Absolute(r.process.value) && r.resource.operation.None?
    ensures ReadRule(RenderRule(r, terse)) == Got(r)
  {
    assert ReadProcess(RenderRule(r, terse).fields["process"]) == Got(r.process);
  }

  lemma {:induction false} ReadRendered<T>(values: seq<T>, render: T -> Json, read: Json -> Outcome<T>)
    requires forall v :: v in values ==> read(render(v)) == Got(v)
    ensures ReadEach(RenderEach(values, render), read) == Got(values)
  {
    if values != [] {
      ReadRendered(values[1..], render, read);
      ReadEachCons(render(values[0]), RenderEach(values[1..], render), read);
      assert values == [values[0]] + values[1..];
    }
  }

  lemma ReadEachCons<T>(j: Json, items: seq<Json>, read: Json -> Outcome<T>)
    requires read(j).Got? && ReadEach(items, read).Got?
    ensures ReadEach([j] + items, read) == Got([read(j).value] + ReadEach(items, read).value)
  {
    assert ([j] + items)[1..] == items;
  }

  /** Rendering an expressible policy and parsing it gives the policy back. */
  lemma ParseRender(p: Policy, terse: bool)
    requires Expressible(p)
    ensures Parsed(Render(p, terse)) == Got(p)
  {
    forall r | r in p.protectedResources ensures ReadResource(RenderResource(r)) == Got(r) {
      ResourceRoundTrip(r);
    }
    forall r | r in p.rules ensures ReadRule(RenderRule(r, terse)) == Got(r) {
      RuleRoundTrip(p.protectedResources, r, terse);
    }
    ReadRendered(p.protectedResources, RenderResource, ReadResource);
    ReadRendered(p.rules, (r: PolicyRule) => RenderRule(r, terse), ReadRule);
    RenderedFields(p, terse);
  }

  lemma RenderedFields(p: Policy, terse: bool)
    ensures var fields := Render(p, terse).fields;
            && ReadVersion(fields) == Got(p.version)
            && ReadDefaults(fields) == Got(p.defaultAction)
            && ReadList(fields, "protected_resources", ReadResource) == ReadEach(RenderEach(p.protectedResources, RenderResource), ReadResource)
            && ReadList(fields, "rules", ReadRule) == ReadEach(RenderEach(p.rules, (r: PolicyRule) => RenderRule(r, terse)), ReadRule)
  {
  }

  /** The policies the parser can produce are exactly the expressible ones. */
  lemma ParserImage(p: Policy)
    ensures (exists root :: Parsed(root) == Got(p)) <==> Expressible(p)
  {
    if Expressible(p) {
      ParseRender(p, false);
    }
    forall root | Parsed(root) == Got(p) ensures Expressible(p) {
      ParseSound(root);
    }
  }

  // The tree with its version field set to a number.
  function WithVersion(fields: map<string, Json>, n: int): Json {
    Obj(fields["version" := Number(n)])
  }

  /** A version is cut to 32 bits without a range check. Any tree is accepted with a version
      n exactly if it is accepted at all, with 0, and the low 32 bits of n are a non-negative
      number, which becomes the version; nothing else of the policy depends on it. */
  lemma VersionWraps(fields: map<string, Json>, n: int)
    requires -0x8000_0000_0000_0000 <= n < 0x1_0000_0000_0000_0000
    ensures var low, zero, r := n % TWO_32, Parsed(WithVersion(fields, 0)), Parsed(WithVersion(fields, n));
            && (r.Got? <==> zero.Got? && low < 0x8000_0000)
            && (r.Got? ==> r.value == zero.value.(version := low))
  {
    SameButVersion(fields, n);
    var zero, r := Read(WithVersion(fields, 0)), Read(WithVersion(fields, n));
    if zero.Got? {
      assert r.value == zero.value.(version := ToI32(n % TWO_32));
    }
  }

  lemma SameButVersion(fields: map<string, Json>, n: int)
    ensures var zero, r := Read(WithVersion(fields, 0)), Read(WithVersion(fields, n));
            && (r.Got? <==> zero.Got?)
            && (r.Got? ==> r.value == zero.value.(version := ToI32(n % TWO_32)))
  {
    var a, b := WithVersion(fields, 0).fields, WithVersion(fields, n).fields;
    assert ReadDefaults(a) == ReadDefaults(b);
    assert ReadList(a, "protected_resources", ReadResource) == ReadList(b, "protected_resources", ReadResource);
    assert ReadList(a, "rules", ReadRule) == ReadList(b, "rules", ReadRule);
  }

  /** For instance, 2^32 + 1 is accepted as version 1. */
  lemma VersionPastRangeAccepted()
    ensures Parsed(WithVersion(map[], TWO_32 + 1)) == Got(Policy(1, Deny, [], []))
  {
    VersionWraps(map[], TWO_32 + 1);
    assert Read(WithVersion(map[], 0)) == Got(Policy(0, Deny, [], []));
  }
}
