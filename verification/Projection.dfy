/** The projection of a route object, against the Gateway, class and Service stores, to cached attributes. */
module Projection {
  import opened Types

  datatype ParentReference = ParentReference(
    group: Option<string>,
    kind: Option<string>,
    ns: Option<string>,
    name: string,
    sectionName: Option<string>,
    port: Option<int>)

  datatype BackendRef = BackendRef(group: Option<string>, kind: Option<string>, ns: Option<string>, name: string)

  datatype Rule = Rule(name: Option<string>, backendRefs: seq<BackendRef>)

  datatype Condition = Condition(kind: string, isTrue: bool)

  /** An HTTPRoute or GRPCRoute object; `status` lists each parent's conditions. */
  datatype RouteObject = RouteObject(
    grpc: bool,
    ns: string,
    name: string,
    uid: string,
    parentRefs: seq<ParentReference>,
    rules: seq<Rule>,
    status: seq<seq<Condition>>)

  function ObjectKey(o: RouteObject): RouteKey {
    RouteKey(o.grpc, o.ns, o.name)
  }

  datatype Gateway = Gateway(ns: string, name: string, uid: string, className: string)

  /**
    What a projection reads. `synced` is the Gateway informers' HasSynced flag;
    it says nothing about which handlers have already filled `gateways`.
   */
  datatype Stores = Stores(gateways: map<NsName, Gateway>, classes: map<string, string>, services: set<NsName>, synced: bool)

  /** A projection reads the stores one at a time: `sees(t)` is their state at its t-th read. */
  type Sightings = nat -> Stores

  /**
    What those reads amount to: the Gateway store first; then the class of the
    Gateway found, or the sync flag when none is; the Service names last.
   */
  function Seen(sees: Sightings): Stores {
    Stores(sees(0).gateways, sees(1).classes, sees(2).services, sees(1).synced)
  }

  datatype Config = Config(waypointClasses: seq<string>, classifyRole: bool, inferServiceParent: bool, emitStatus: bool)

  // ----- parent references -----

  function OrElse(o: Option<string>, default: string): string {
    if o.Some? && o.value != "" then o.value else default
  }

  function ParentNs(pr: ParentReference, routeNs: string): string {
    OrElse(pr.ns, routeNs)
  }

  predicate CoreGroup(group: Option<string>) {
    group.None? || group.value == ""
  }

  predicate IsServiceParent(pr: ParentReference) {
    CoreGroup(pr.group) && pr.kind == Some("Service")
  }

  predicate IsNilKindCoreParent(pr: ParentReference) {
    CoreGroup(pr.group) && (pr.kind.None? || pr.kind.value == "")
  }

  function ParentKindOf(pr: ParentReference): string {
    OrElse(pr.kind, "Gateway")
  }

  const GATEWAY_GROUP := "gateway.networking.k8s.io"

  /** A Service prints the core group whatever its group says; other kinds print theirs. */
  function PrintedGroup(pr: ParentReference): string {
    if ParentKindOf(pr) == "Service" then ""
    else if pr.group.Some? then pr.group.value
    else GATEWAY_GROUP
  }

  function FormatParentRef(pr: ParentReference, routeNs: string): string {
    PrintedGroup(pr) + "/" + ParentKindOf(pr) + "/" + ParentNs(pr, routeNs) + "/" + pr.name
  }

  predicate Contains(s: string, sub: string) {
    exists i | 0 <= i <= |s| :: sub <= s[i..]
  }

  function WaypointImplForClass(cfg: Config, className: string): string {
    if className == "" || className !in cfg.waypointClasses then ""
    else if Contains(className, "eastwest") || Contains(className, "east-west") then "istio-eastwest"
    else if Contains(className, "kgateway") then "kgateway"
    else "istio-ambient"
  }

  // ----- the first parent reference -----

  /** The guarded reclassification of a parent reference that resolved to no Gateway. */
  predicate Infers(cfg: Config, stores: Stores, pr: ParentReference, parentNs: string) {
    cfg.inferServiceParent && IsNilKindCoreParent(pr) && stores.synced && NsName(parentNs, pr.name) in stores.services
  }

  function WithRole(ra: RouteAttributes, routeNs: string, cfg: Config): RouteAttributes {
    if !cfg.classifyRole || ra.parentServiceNs == "" then ra
    else ra.(routeRole := if routeNs == ra.parentServiceNs then ROLE_PRODUCER else ROLE_CONSUMER)
  }

  function WithServiceParent(ra: RouteAttributes, pr: ParentReference, parentNs: string, routeNs: string, cfg: Config): RouteAttributes {
    WithRole(
      ra.(routeMode := MODE_MESH,
          parentServiceName := pr.name,
          parentServiceNs := parentNs,
          parentServicePort := if pr.port.Some? then pr.port.value else ra.parentServicePort),
      routeNs, cfg)
  }

  function WithGateway(ra: RouteAttributes, pr: ParentReference, gw: Gateway, classes: map<string, string>, cfg: Config): RouteAttributes {
    var ra' := ra.(
      gatewayName := gw.name,
      gatewayNs := gw.ns,
      gatewayUid := gw.uid,
      gatewayListener := if pr.sectionName.Some? then pr.sectionName.value else ra.gatewayListener,
      gatewayClass := gw.className,
      gatewayController := if gw.className in classes then classes[gw.className] else ra.gatewayController);
    var impl := WaypointImplForClass(cfg, gw.className);
    if impl == "" then ra'
    else ra'.(routeMode := MODE_MESH, waypointImpl := impl, waypointName := gw.name, waypointNs := gw.ns)
  }

  function WithParent(ra: RouteAttributes, pr: ParentReference, routeNs: string, stores: Stores, cfg: Config): RouteAttributes {
    var ra' := ra.(parentRef := FormatParentRef(pr, routeNs), parentKind := ParentKindOf(pr));
    var parent := NsName(ParentNs(pr, routeNs), pr.name);
    if IsServiceParent(pr) then WithServiceParent(ra', pr, parent.ns, routeNs, cfg)
    else if parent in stores.gateways then WithGateway(ra', pr, stores.gateways[parent], stores.classes, cfg)
    else if Infers(cfg, stores, pr, parent.ns)
    then WithServiceParent(ra'.(parentKind := "Service"), pr, parent.ns, routeNs, cfg)
    else ra'
  }

  // ----- the whole route -----

  function Blank(grpc: bool, ns: string, name: string, uid: string): RouteAttributes {
    RouteAttributes(
      if grpc then GRPCRoute else HTTPRoute, name, ns, uid, "", None, None, "", "", "", "", "", "", "", MODE_INGRESS,
      "", "", 0, "", "", "", "", [], [])
  }

  function RuleNames(rules: seq<Rule>): seq<string> {
    if exists r | r in rules :: OrElse(r.name, "") != ""
    then seq(|rules|, i requires 0 <= i < |rules| => OrElse(rules[i].name, ""))
    else []
  }

  /** The source's loop over rules: no list at all when no rule carries a name. */
  method RuleNamesScan(rules: seq<Rule>) returns (names: seq<string>)
    ensures names == RuleNames(rules)
  {
    names := [];
    var named := false;
    for i := 0 to |rules|
      invariant names == seq(i, j requires 0 <= j < i => OrElse(rules[j].name, ""))
      invariant named <==> exists j | 0 <= j < i :: OrElse(rules[j].name, "") != ""
    {
      if rules[i].name.Some? && rules[i].name.value != "" {
        names := names + [rules[i].name.value];
        named := true;
      } else {
        names := names + [""];
      }
    }
    if !named {
      names := [];
    }
  }

  /** The last condition of the given type among one parent's, or among all parents'. */
  function LastCondition(conds: seq<Condition>, kind: string, flag: Option<bool>): Option<bool> {
    if conds == [] then flag
    else LastCondition(conds[1..], kind, if conds[0].kind == kind then Some(conds[0].isTrue) else flag)
  }

  function StatusFlag(parents: seq<seq<Condition>>, kind: string, flag: Option<bool>): Option<bool> {
    if parents == [] then flag else StatusFlag(parents[1..], kind, LastCondition(parents[0], kind, flag))
  }

  /** Condition `j` of parent `i` is the last of its kind, parents in order and each parent's conditions in order. */
  ghost predicate LastOfKind(parents: seq<seq<Condition>>, kind: string, i: int, j: int) {
    && 0 <= i < |parents| && 0 <= j < |parents[i]|
    && parents[i][j].kind == kind
    && (forall j' | j < j' < |parents[i]| :: parents[i][j'].kind != kind)
    && (forall i', j' | i < i' < |parents| && 0 <= j' < |parents[i']| :: parents[i'][j'].kind != kind)
  }

  /** `flag` is what the last condition of the kind says, or None when there is no such condition. */
  ghost predicate SaysLast(parents: seq<seq<Condition>>, kind: string, flag: Option<bool>) {
    match flag
    case Some(b) => exists i, j :: LastOfKind(parents, kind, i, j) && parents[i][j].isTrue == b
    case None => forall i, j | 0 <= i < |parents| && 0 <= j < |parents[i]| :: parents[i][j].kind != kind
  }

  /** Index `j` is the last of its kind among one parent's conditions. */
  ghost predicate LastHere(conds: seq<Condition>, kind: string, j: int) {
    0 <= j < |conds| && conds[j].kind == kind && forall j' | j < j' < |conds| :: conds[j'].kind != kind
  }

  lemma {:induction false} LastConditionAbsent(conds: seq<Condition>, kind: string, flag: Option<bool>)
    requires forall j | 0 <= j < |conds| :: conds[j].kind != kind
    ensures LastCondition(conds, kind, flag) == flag
  {
    if conds != [] {
      LastConditionAbsent(conds[1..], kind, flag);
    }
  }

  lemma {:induction false} LastConditionAt(conds: seq<Condition>, kind: string, flag: Option<bool>, j: int)
    requires LastHere(conds, kind, j)
    ensures LastCondition(conds, kind, flag) == Some(conds[j].isTrue)
  {
    var rest := conds[1..];
    if j == 0 {
      LastConditionAbsent(rest, kind, Some(conds[0].isTrue));
    } else {
      assert LastHere(rest, kind, j - 1);
      LastConditionAt(rest, kind, if conds[0].kind == kind then Some(conds[0].isTrue) else flag, j - 1);
    }
  }

  /** The last of a kind among one parent's conditions, if any. */
  lemma LastAmong(conds: seq<Condition>, kind: string) returns (j: int)
    ensures j == -1 ==> forall j' | 0 <= j' < |conds| :: conds[j'].kind != kind
    ensures j != -1 ==> 0 <= j < |conds| && conds[j].kind == kind && forall j' | j < j' < |conds| :: conds[j'].kind != kind
  {
    j := |conds| - 1;
    while j >= 0 && conds[j].kind != kind
      invariant -1 <= j < |conds| && forall j' | j < j' < |conds| :: conds[j'].kind != kind
    {
      j := j - 1;
    }
  }

  lemma {:induction false} StatusFlagAbsent(parents: seq<seq<Condition>>, kind: string, flag: Option<bool>)
    requires SaysLast(parents, kind, None)
    ensures StatusFlag(parents, kind, flag) == flag
  {
    if parents != [] {
      LastConditionAbsent(parents[0], kind, flag);
      StatusFlagAbsent(parents[1..], kind, flag);
    }
  }

  lemma {:induction false} StatusFlagAt(parents: seq<seq<Condition>>, kind: string, flag: Option<bool>, i: int, j: int)
    requires LastOfKind(parents, kind, i, j)
    ensures StatusFlag(parents, kind, flag) == Some(parents[i][j].isTrue)
  {
    var rest := parents[1..];
    if i == 0 {
      LastConditionAt(parents[0], kind, flag, j);
      StatusFlagAbsent(rest, kind, Some(parents[0][j].isTrue));
    } else {
      assert LastOfKind(rest, kind, i - 1, j);
      StatusFlagAt(rest, kind, LastCondition(parents[0], kind, flag), i - 1, j);
    }
  }

  lemma {:induction false} SomeLast(parents: seq<seq<Condition>>, kind: string)
    ensures SaysLast(parents, kind, None) || exists i, j :: LastOfKind(parents, kind, i, j)
  {
    if parents != [] {
      var n := |parents| - 1;
      var j := LastAmong(parents[n], kind);
      if j != -1 {
        assert LastOfKind(parents, kind, n, j);
      } else {
        SomeLast(parents[..n], kind);
        if i', j' :| LastOfKind(parents[..n], kind, i', j') {
          forall a, b | i' < a < |parents| && 0 <= b < |parents[a]| ensures parents[a][b].kind != kind {
            assert a < n ==> parents[a] == parents[..n][a];
          }
          assert LastOfKind(parents, kind, i', j');
        } else {
          forall a, b | 0 <= a < |parents| && 0 <= b < |parents[a]| ensures parents[a][b].kind != kind {
            assert a < n ==> parents[a] == parents[..n][a];
          }
        }
      }
    }
  }

  lemma LastIsOne(parents: seq<seq<Condition>>, kind: string, i: int, j: int)
    requires LastOfKind(parents, kind, i, j)
    ensures forall i', j' | LastOfKind(parents, kind, i', j') :: i' == i && j' == j
  {
  }

  /** A status flag is exactly what the last condition of its kind says. */
  lemma StatusFlagIff(parents: seq<seq<Condition>>, kind: string, flag: Option<bool>)
    ensures StatusFlag(parents, kind, None) == flag <==> SaysLast(parents, kind, flag)
  {
    SomeLast(parents, kind);
    if SaysLast(parents, kind, None) {
      StatusFlagAbsent(parents, kind, None);
    } else {
      var i, j :| LastOfKind(parents, kind, i, j);
      StatusFlagAt(parents, kind, None, i, j);
      LastIsOne(parents, kind, i, j);
    }
  }

  /** The source's loop over parents and their conditions, both flags at once. */
  method StatusFlags(parents: seq<seq<Condition>>) returns (accepted: Option<bool>, resolved: Option<bool>)
    ensures SaysLast(parents, "Accepted", accepted) && SaysLast(parents, "ResolvedRefs", resolved)
    ensures accepted == StatusFlag(parents, "Accepted", None) && resolved == StatusFlag(parents, "ResolvedRefs", None)
  {
    accepted, resolved := None, None;
    assert "Accepted"[0] != "ResolvedRefs"[0];
    for i := 0 to |parents|
      invariant StatusFlag(parents[i..], "Accepted", accepted) == StatusFlag(parents, "Accepted", None)
      invariant StatusFlag(parents[i..], "ResolvedRefs", resolved) == StatusFlag(parents, "ResolvedRefs", None)
    {
      var conds := parents[i];
      ghost var was, was' := accepted, resolved;
      for j := 0 to |conds|
        invariant LastCondition(conds[j..], "Accepted", accepted) == LastCondition(conds, "Accepted", was)
        invariant LastCondition(conds[j..], "ResolvedRefs", resolved) == LastCondition(conds, "ResolvedRefs", was')
      {
        if conds[j].kind == "Accepted" {
          accepted := Some(conds[j].isTrue);
        } else if conds[j].kind == "ResolvedRefs" {
          resolved := Some(conds[j].isTrue);
        }
        assert conds[j..][1..] == conds[j + 1..];
      }
      assert parents[i..][1..] == parents[i + 1..];
    }
    StatusFlagIff(parents, "Accepted", accepted);
    StatusFlagIff(parents, "ResolvedRefs", resolved);
  }

  function Project(o: RouteObject, stores: Stores, cfg: Config): RouteAttributes {
    var blank := Blank(o.grpc, o.ns, o.name, o.uid);
    var ra := if o.parentRefs == [] then blank else WithParent(blank, o.parentRefs[0], o.ns, stores, cfg);
    ra.(ruleNames := RuleNames(o.rules),
        accepted := if cfg.emitStatus then StatusFlag(o.status, "Accepted", None) else None,
        resolvedRefs := if cfg.emitStatus then StatusFlag(o.status, "ResolvedRefs", None) else None)
  }

  // ----- backend references -----

  predicate IsServiceBackend(b: BackendRef) {
    CoreGroup(b.group) && (b.kind.None? || b.kind.value == "Service")
  }

  function RuleRefs(backends: seq<BackendRef>, ns: string): seq<NsName> {
    if backends == [] then []
    else (if IsServiceBackend(backends[0]) then [NsName(OrElse(backends[0].ns, ns), backends[0].name)] else []) + RuleRefs(backends[1..], ns)
  }

  function RulesRefs(rules: seq<Rule>, ns: string): seq<NsName> {
    if rules == [] then [] else RuleRefs(rules[0].backendRefs, ns) + RulesRefs(rules[1..], ns)
  }

  function ParentRefs(parents: seq<ParentReference>, ns: string): seq<NsName> {
    if parents == [] then []
    else (if IsServiceParent(parents[0]) then [NsName(ParentNs(parents[0], ns), parents[0].name)] else []) + ParentRefs(parents[1..], ns)
  }

  /** The backend Services a route is indexed under: rule backends, then explicit Service parents. */
  function RefsOf(o: RouteObject): seq<NsName> {
    RulesRefs(o.rules, o.ns) + ParentRefs(o.parentRefs, o.ns)
  }

  lemma {:induction false} RuleRefsIff(backends: seq<BackendRef>, ns: string, n: NsName)
    ensures n in RuleRefs(backends, ns) <==>
            exists b :: b in backends && IsServiceBackend(b) && n == NsName(OrElse(b.ns, ns), b.name)
  {
    if backends != [] {
      RuleRefsIff(backends[1..], ns, n);
      assert forall b :: b in backends <==> b == backends[0] || b in backends[1..];
    }
  }

  lemma {:induction false} RulesRefsIff(rules: seq<Rule>, ns: string, n: NsName)
    ensures n in RulesRefs(rules, ns) <==>
            exists r, b :: r in rules && b in r.backendRefs && IsServiceBackend(b) && n == NsName(OrElse(b.ns, ns), b.name)
  {
    if rules != [] {
      RuleRefsIff(rules[0].backendRefs, ns, n);
      RulesRefsIff(rules[1..], ns, n);
      assert forall r :: r in rules <==> r == rules[0] || r in rules[1..];
    }
  }

  lemma {:induction false} ParentRefsIff(parents: seq<ParentReference>, ns: string, n: NsName)
    ensures n in ParentRefs(parents, ns) <==>
            exists p :: p in parents && IsServiceParent(p) && n == NsName(ParentNs(p, ns), p.name)
  {
    if parents != [] {
      ParentRefsIff(parents[1..], ns, n);
      assert forall p :: p in parents <==> p == parents[0] || p in parents[1..];
    }
  }

  lemma CollectedStep(out: seq<NsName>, rules: seq<Rule>, i: nat, ns: string)
    requires i < |rules|
    ensures out + RulesRefs(rules[i..], ns) == out + RuleRefs(rules[i].backendRefs, ns) + RulesRefs(rules[i + 1..], ns)
  {
    assert rules[i..][0] == rules[i] && rules[i..][1..] == rules[i + 1..];
  }

  /** The nested collection loops of the source. */
  method BackendRefsFrom(o: RouteObject) returns (out: seq<NsName>)
    ensures out == RefsOf(o)
  {
    out := [];
    for i := 0 to |o.rules|
      invariant out + RulesRefs(o.rules[i..], o.ns) == RulesRefs(o.rules, o.ns)
    {
      var refs := CollectRule(o.rules[i].backendRefs, o.ns);
      CollectedStep(out, o.rules, i, o.ns);
      out := out + refs;
    }
    assert out == RulesRefs(o.rules, o.ns);
    var parents := CollectParents(o.parentRefs, o.ns);
    out := out + parents;
  }

  method CollectRule(backends: seq<BackendRef>, ns: string) returns (out: seq<NsName>)
    ensures out == RuleRefs(backends, ns)
  {
    out := [];
    for j := 0 to |backends|
      invariant out + RuleRefs(backends[j..], ns) == RuleRefs(backends, ns)
    {
      if IsServiceBackend(backends[j]) {
        out := out + [NsName(OrElse(backends[j].ns, ns), backends[j].name)];
      }
      assert backends[j..][1..] == backends[j + 1..];
    }
  }

  method CollectParents(parents: seq<ParentReference>, ns: string) returns (out: seq<NsName>)
    ensures out == ParentRefs(parents, ns)
  {
    out := [];
    for i := 0 to |parents|
      invariant out + ParentRefs(parents[i..], ns) == ParentRefs(parents, ns)
    {
      if IsServiceParent(parents[i]) {
        out := out + [NsName(ParentNs(parents[i], ns), parents[i].name)];
      }
      assert parents[i..][1..] == parents[i + 1..];
    }
  }

  // ----- the projection as the source runs it -----

  /** The inference hook: a decision plus a self-telemetry counter. */
  class ParentInferrer {
    var inferred: nat

    constructor ()
      ensures inferred == 0
    {
      inferred := 0;
    }

    /** The flag is read second, the Service names last. */
    method MaybeInferServiceParent(cfg: Config, sees: Sightings, pr: ParentReference, parentNs: string) returns (fires: bool)
      modifies this
      ensures fires == Infers(cfg, Seen(sees), pr, parentNs)
      ensures inferred == old(inferred) + if fires then 1 else 0
    {
      fires := false;
      if !cfg.inferServiceParent || !IsNilKindCoreParent(pr) || !sees(1).synced {
        return;
      }
      if NsName(parentNs, pr.name) !in sees(2).services {
        return;
      }
      inferred := inferred + 1;
      fires := true;
    }
  }

  /** The attributes under construction, filled through a pointer. */
  class Draft {
    var ra: RouteAttributes

    constructor (ra: RouteAttributes)
      ensures this.ra == ra
    {
      this.ra := ra;
    }

    method ClassifyRouteRole(routeNs: string, cfg: Config)
      modifies this
      ensures ra == WithRole(old(ra), routeNs, cfg)
    {
      if !cfg.classifyRole || ra.parentServiceNs == "" {
        return;
      }
      if routeNs == ra.parentServiceNs {
        ra := ra.(routeRole := ROLE_PRODUCER);
      } else {
        ra := ra.(routeRole := ROLE_CONSUMER);
      }
    }

    method ApplyServiceParent(pr: ParentReference, parentNs: string, routeNs: string, cfg: Config)
      modifies this
      ensures ra == WithServiceParent(old(ra), pr, parentNs, routeNs, cfg)
    {
      ra := ra.(routeMode := MODE_MESH);
      ra := ra.(parentServiceName := pr.name);
      ra := ra.(parentServiceNs := parentNs);
      if pr.port.Some? {
        ra := ra.(parentServicePort := pr.port.value);
      }
      ClassifyRouteRole(routeNs, cfg);
    }

    method ApplyGateway(pr: ParentReference, gw: Gateway, classes: map<string, string>, cfg: Config)
      modifies this
      ensures ra == WithGateway(old(ra), pr, gw, classes, cfg)
    {
      ra := ra.(gatewayName := gw.name, gatewayNs := gw.ns, gatewayUid := gw.uid);
      if pr.sectionName.Some? {
        ra := ra.(gatewayListener := pr.sectionName.value);
      }
      ra := ra.(gatewayClass := gw.className);
      if ra.gatewayClass in classes {
        ra := ra.(gatewayController := classes[ra.gatewayClass]);
      }
      var impl := WaypointImplForClass(cfg, ra.gatewayClass);
      if impl != "" {
        ra := ra.(routeMode := MODE_MESH, waypointImpl := impl);
        ra := ra.(waypointName := gw.name, waypointNs := gw.ns);
      }
    }

    /** The Gateway store is read first; what is read next depends on what was found there. */
    method ApplyParentRef(pr: ParentReference, routeNs: string, sees: Sightings, cfg: Config, inferrer: ParentInferrer)
      modifies this, inferrer
      ensures ra == WithParent(old(ra), pr, routeNs, Seen(sees), cfg)
      ensures inferrer.inferred == old(inferrer.inferred) + if InferredParent(pr, routeNs, Seen(sees), cfg) then 1 else 0
    {
      ra := ra.(parentRef := FormatParentRef(pr, routeNs));
      ra := ra.(parentKind := ParentKindOf(pr));
      var ns := routeNs;
      if pr.ns.Some? && pr.ns.value != "" {
        ns := pr.ns.value;
      }
      if IsServiceParent(pr) {
        ApplyServiceParent(pr, ns, routeNs, cfg);
        return;
      }
      if NsName(ns, pr.name) !in sees(0).gateways {
        var fires := inferrer.MaybeInferServiceParent(cfg, sees, pr, ns);
        if fires {
          ra := ra.(parentKind := "Service");
          ApplyServiceParent(pr, ns, routeNs, cfg);
        }
        return;
      }
      ApplyGateway(pr, sees(0).gateways[NsName(ns, pr.name)], sees(1).classes, cfg);
    }
  }

  /** Both route kinds share this projection. */
  method RouteToAttrs(o: RouteObject, sees: Sightings, cfg: Config, inferrer: ParentInferrer) returns (ra: RouteAttributes)
    modifies inferrer
    ensures ra == Project(o, Seen(sees), cfg)
    ensures inferrer.inferred == old(inferrer.inferred) + if InferredMesh(o, Seen(sees), cfg) then 1 else 0
  {
    var draft := new Draft(Blank(o.grpc, o.ns, o.name, o.uid));
    if o.parentRefs != [] {
      draft.ApplyParentRef(o.parentRefs[0], o.ns, sees, cfg, inferrer);
    }
    var names := RuleNamesScan(o.rules);
    ra := draft.ra.(ruleNames := names);
    if cfg.emitStatus {
      var accepted, resolved := StatusFlags(o.status);
      ra := ra.(accepted := accepted, resolvedRefs := resolved);
    } else {
      ra := ra.(accepted := None, resolvedRefs := None);
    }
  }

  // ----- what the projection guarantees -----

  /** The first parent is reclassified by inference: nil kind, core group, no Gateway stored, Service known, synced. */
  predicate InferredParent(pr: ParentReference, routeNs: string, stores: Stores, cfg: Config) {
    var parent := NsName(ParentNs(pr, routeNs), pr.name);
    parent !in stores.gateways && Infers(cfg, stores, pr, parent.ns)
  }

  predicate InferredMesh(o: RouteObject, stores: Stores, cfg: Config) {
    o.parentRefs != [] && InferredParent(o.parentRefs[0], o.ns, stores, cfg)
  }

  predicate WaypointParent(pr: ParentReference, routeNs: string, stores: Stores, cfg: Config) {
    var parent := NsName(ParentNs(pr, routeNs), pr.name);
    !IsServiceParent(pr) && parent in stores.gateways && WaypointImplForClass(cfg, stores.gateways[parent].className) != ""
  }

  /** A projection is looked up under the object's own identity. */
  lemma ProjectKeepsIdentity(o: RouteObject, stores: Stores, cfg: Config)
    ensures KeyOf(Project(o, stores, cfg)) == ObjectKey(o)
  {
    if o.parentRefs != [] {
      ParentKeepsIdentity(Blank(o.grpc, o.ns, o.name, o.uid), o.parentRefs[0], o.ns, stores, cfg);
    }
  }

  /** The projection leaves policies to the read-time overlay. */
  lemma ProjectHasNoPolicies(o: RouteObject, stores: Stores, cfg: Config)
    ensures Project(o, stores, cfg).policies == []
  {
    if o.parentRefs != [] {
      ParentAddsNoPolicies(Blank(o.grpc, o.ns, o.name, o.uid), o.parentRefs[0], o.ns, stores, cfg);
    }
  }

  lemma ParentAddsNoPolicies(ra: RouteAttributes, pr: ParentReference, routeNs: string, stores: Stores, cfg: Config)
    ensures WithParent(ra, pr, routeNs, stores, cfg).policies == ra.policies
  {
  }

  lemma ParentKeepsIdentity(ra: RouteAttributes, pr: ParentReference, routeNs: string, stores: Stores, cfg: Config)
    ensures KeyOf(WithParent(ra, pr, routeNs, stores, cfg)) == KeyOf(ra)
  {
  }

  /** A route is mesh iff its first parent is an explicit Service, a waypoint Gateway, or inferred. */
  lemma MeshIff(o: RouteObject, stores: Stores, cfg: Config)
    ensures Project(o, stores, cfg).routeMode == MODE_MESH <==>
            && o.parentRefs != []
            && var pr := o.parentRefs[0];
               IsServiceParent(pr) || WaypointParent(pr, o.ns, stores, cfg) || InferredParent(pr, o.ns, stores, cfg)
  {
    assert MODE_MESH[0] != MODE_INGRESS[0];
  }

  /** Each Gateway is stored under its own name. */
  ghost predicate Keyed(stores: Stores) {
    forall n | n in stores.gateways :: NsName(stores.gateways[n].ns, stores.gateways[n].name) == n
  }

  /** Gateway attribution names the first parent, with the uid and class of the Gateway stored under it. */
  lemma GatewayAttribution(o: RouteObject, stores: Stores, cfg: Config)
    requires Keyed(stores) && Project(o, stores, cfg).gatewayName != ""
    ensures o.parentRefs != []
    ensures var n := NsName(ParentNs(o.parentRefs[0], o.ns), o.parentRefs[0].name);
      var ra := Project(o, stores, cfg);
      && n in stores.gateways
      && ra.gatewayName == n.name && ra.gatewayNs == n.ns
      && ra.gatewayUid == stores.gateways[n].uid && ra.gatewayClass == stores.gateways[n].className
      && (ra.waypointImpl != "" ==> ra.waypointName == n.name && ra.waypointNs == n.ns)
  {
  }

  /** A route has a role iff its first parent is a Service, explicit or inferred; producer means same namespace. */
  lemma RoleIff(o: RouteObject, stores: Stores, cfg: Config)
    requires o.parentRefs != []
    ensures var pr := o.parentRefs[0];
      var hasRole := cfg.classifyRole && ParentNs(pr, o.ns) != "" && (IsServiceParent(pr) || InferredParent(pr, o.ns, stores, cfg));
      && (Project(o, stores, cfg).routeRole == ROLE_PRODUCER <==> hasRole && ParentNs(pr, o.ns) == o.ns)
      && (Project(o, stores, cfg).routeRole == ROLE_CONSUMER <==> hasRole && ParentNs(pr, o.ns) != o.ns)
      && (Project(o, stores, cfg).routeRole == "" <==> !hasRole)
  {
    assert ROLE_PRODUCER[0] != ROLE_CONSUMER[0] && |ROLE_PRODUCER| > 0 && |ROLE_CONSUMER| > 0;
  }

  /** An explicit kind other than Service is never mesh when no such Gateway is stored. */
  lemma DanglingExplicitParentIsIngress(o: RouteObject, stores: Stores, cfg: Config)
    requires o.parentRefs != []
    requires var pr := o.parentRefs[0]; pr.kind.Some? && pr.kind.value !in {"", "Service"}
    requires NsName(ParentNs(o.parentRefs[0], o.ns), o.parentRefs[0].name) !in stores.gateways
    ensures Project(o, stores, cfg).routeMode == MODE_INGRESS
    ensures Project(o, stores, cfg).parentServiceName == "" && Project(o, stores, cfg).gatewayName == ""
  {
  }

  /** The projected flags are what the object's last conditions of their kinds say, when flags are configured. */
  lemma StatusIff(o: RouteObject, stores: Stores, cfg: Config, flag: Option<bool>)
    ensures Project(o, stores, cfg).accepted == flag <==> if cfg.emitStatus then SaysLast(o.status, "Accepted", flag) else flag == None
    ensures Project(o, stores, cfg).resolvedRefs == flag <==> if cfg.emitStatus then SaysLast(o.status, "ResolvedRefs", flag) else flag == None
  {
    StatusFlagIff(o.status, "Accepted", flag);
    StatusFlagIff(o.status, "ResolvedRefs", flag);
  }

  /** The same route with its first parent's kind spelled out as Service. */
  function WithExplicitService(o: RouteObject): RouteObject
    requires o.parentRefs != []
  {
    o.(parentRefs := o.parentRefs[0 := o.parentRefs[0].(kind := Some("Service"))])
  }

  /**
    Inference yields the attributes of the explicit spelling in every field but
    one: the parent-reference string keeps the nil-kind spelling it was printed with.
   */
  lemma InferredEqualsExplicit(o: RouteObject, stores: Stores, cfg: Config)
    requires InferredMesh(o, stores, cfg)
    ensures var explicit := Project(WithExplicitService(o), stores, cfg);
      Project(o, stores, cfg) == explicit.(parentRef := FormatParentRef(o.parentRefs[0], o.ns))
  {
    var pr' := o.parentRefs[0].(kind := Some("Service"));
    assert WithExplicitService(o).parentRefs[0] == pr';
    ParentsAgree(Blank(o.grpc, o.ns, o.name, o.uid), o.parentRefs[0], pr', o.ns, stores, cfg);
  }

  lemma ParentsAgree(ra: RouteAttributes, pr: ParentReference, pr': ParentReference, routeNs: string, stores: Stores, cfg: Config)
    requires InferredParent(pr, routeNs, stores, cfg) && pr' == pr.(kind := Some("Service"))
    ensures WithParent(ra, pr, routeNs, stores, cfg) ==
            WithParent(ra, pr', routeNs, stores, cfg).(parentRef := FormatParentRef(pr, routeNs))
  {
    assert IsServiceParent(pr') && !IsServiceParent(pr);
    assert ParentKindOf(pr') == "Service" && ParentNs(pr', routeNs) == ParentNs(pr, routeNs);
  }

  /** The string a core Service of the reference's namespace and name prints as. */
  predicate PrintsAsService(pr: ParentReference, routeNs: string) {
    FormatParentRef(pr, routeNs) == "/" + "Service" + "/" + ParentNs(pr, routeNs) + "/" + pr.name
  }

  /** A reference prints as a core Service iff its kind is Service; a nil kind prints as a Gateway. */
  lemma ParentRefSpelling(pr: ParentReference, routeNs: string)
    ensures PrintsAsService(pr, routeNs) <==> pr.kind == Some("Service")
    ensures IsNilKindCoreParent(pr) ==>
              FormatParentRef(pr, routeNs) ==
              (if pr.group.None? then GATEWAY_GROUP else "") + "/" + "Gateway" + "/" + ParentNs(pr, routeNs) + "/" + pr.name
  {
    if PrintsAsService(pr, routeNs) {
      var head, rest := PrintedGroup(pr) + "/" + ParentKindOf(pr), "/" + ParentNs(pr, routeNs) + "/" + pr.name;
      assert FormatParentRef(pr, routeNs) == head + rest;
      assert "/" + "Service" + "/" + ParentNs(pr, routeNs) + "/" + pr.name == "/" + "Service" + rest;
      SlashSplits(PrintedGroup(pr), ParentKindOf(pr), rest, "Service");
      assert "Gateway"[0] != "Service"[0];
    }
  }

  /** A group and a kind that print as "/<service>" are the empty group and that kind. */
  lemma SlashSplits(group: string, kind: string, rest: string, service: string)
    requires '/' !in service
    requires group + "/" + kind + rest == "/" + service + rest
    ensures group == "" && kind == service
  {
    var s := group + "/" + kind;
    assert s == (s + rest)[..|s|] == ("/" + service + rest)[..|service| + 1] == "/" + service;
    assert s[|group|] == '/';
    assert kind == s[|group| + 1..];
  }

  /**
    So the printed string and the Service test agree on a reference iff it is not a
    Service of another API group.
   */
  lemma SpellingAgreesIff(pr: ParentReference, routeNs: string)
    ensures (PrintsAsService(pr, routeNs) <==> IsServiceParent(pr)) <==>
            !(pr.kind == Some("Service") && !CoreGroup(pr.group))
  {
    ParentRefSpelling(pr, routeNs);
  }

  /** Spelling the kind out adds the Service to the indexed backends; inference does not. */
  lemma InferenceAddsNoBackend(o: RouteObject, stores: Stores, cfg: Config)
    requires InferredMesh(o, stores, cfg)
    ensures var parent := NsName(ParentNs(o.parentRefs[0], o.ns), o.parentRefs[0].name);
      && RefsOf(o) == RulesRefs(o.rules, o.ns) + ParentRefs(o.parentRefs[1..], o.ns)
      && RefsOf(WithExplicitService(o)) == RulesRefs(o.rules, o.ns) + ([parent] + ParentRefs(o.parentRefs[1..], o.ns))
  {
    var e := WithExplicitService(o);
    assert e.parentRefs[1..] == o.parentRefs[1..];
    assert ParentRefs(o.parentRefs, o.ns) == ParentRefs(o.parentRefs[1..], o.ns);
  }
}
