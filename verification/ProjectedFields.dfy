/**
  What a projection says, field by field, in terms of the fields of the route
  object and of the stores alone.
 */
module ProjectedFields {
  import opened Types
  import opened Projection

  // ----- references, read off their fields -----

  predicate InCore(group: Option<string>) {
    group == None || group == Some("")
  }

  /** `full` is the given namespace, or the referrer's own when none is given. */
  predicate Qualifies(given: Option<string>, own: string, full: string) {
    if given == None || given == Some("") then full == own else given == Some(full)
  }

  predicate Refers(pr: ParentReference, routeNs: string, n: NsName) {
    n.name == pr.name && Qualifies(pr.ns, routeNs, n.ns)
  }

  predicate NamesService(pr: ParentReference) {
    InCore(pr.group) && pr.kind == Some("Service")
  }

  predicate Kindless(pr: ParentReference) {
    InCore(pr.group) && (pr.kind == None || pr.kind == Some(""))
  }

  /** Every guard of inference holds of the first parent `n`. */
  predicate Inferable(pr: ParentReference, n: NsName, stores: Stores, cfg: Config) {
    cfg.inferServiceParent && Kindless(pr) && n !in stores.gateways && stores.synced && n in stores.services
  }

  ghost predicate Has(s: string, part: string) {
    exists before, after :: s == before + (part + after)
  }

  lemma HasIff(s: string, part: string)
    ensures Has(s, part) <==> Contains(s, part)
  {
    if before, after :| s == before + (part + after) {
      assert s[|before|..] == part + after;
    }
    if i :| 0 <= i <= |s| && part <= s[i..] {
      assert s == s[..i] + (part + s[i..][|part|..]);
    }
  }

  /** The waypoint implementation of a Gateway class: none unless configured, then by the vendor token it embeds. */
  ghost predicate IsImplementation(cfg: Config, className: string, impl: string) {
    if className == "" || (forall i | 0 <= i < |cfg.waypointClasses| :: cfg.waypointClasses[i] != className) then impl == ""
    else if Has(className, "eastwest") || Has(className, "east-west") then impl == "istio-eastwest"
    else if Has(className, "kgateway") then impl == "kgateway"
    else impl == "istio-ambient"
  }

  lemma WaypointImplIff(cfg: Config, className: string, impl: string)
    ensures WaypointImplForClass(cfg, className) == impl <==> IsImplementation(cfg, className, impl)
  {
    HasIff(className, "eastwest");
    HasIff(className, "east-west");
    HasIff(className, "kgateway");
  }

  // ----- the fields -----

  predicate NoGateway(ra: RouteAttributes) {
    && ra.gatewayName == "" && ra.gatewayNs == "" && ra.gatewayUid == "" && ra.gatewayListener == ""
    && ra.gatewayClass == "" && ra.gatewayController == ""
    && ra.waypointImpl == "" && ra.waypointName == "" && ra.waypointNs == ""
  }

  predicate NoService(ra: RouteAttributes) {
    ra.parentServiceName == "" && ra.parentServiceNs == "" && ra.parentServicePort == 0 && ra.routeRole == ""
  }

  lemma OwnFields(o: RouteObject, stores: Stores, cfg: Config)
    ensures var ra := Project(o, stores, cfg);
      ra.kind == (if o.grpc then GRPCRoute else HTTPRoute) && ra.name == o.name && ra.ns == o.ns && ra.uid == o.uid
  {
    if o.parentRefs != [] {
      ParentKeepsOwn(Blank(o.grpc, o.ns, o.name, o.uid), o.parentRefs[0], o.ns, stores, cfg);
    }
  }

  lemma ParentKeepsOwn(ra: RouteAttributes, pr: ParentReference, routeNs: string, stores: Stores, cfg: Config)
    ensures var ra' := WithParent(ra, pr, routeNs, stores, cfg);
      ra'.kind == ra.kind && ra'.name == ra.name && ra'.ns == ra.ns && ra'.uid == ra.uid
  {
  }

  lemma ParentKindField(o: RouteObject, stores: Stores, cfg: Config, n: NsName)
    requires o.parentRefs != [] && Refers(o.parentRefs[0], o.ns, n)
    ensures var pr := o.parentRefs[0];
      Project(o, stores, cfg).parentKind ==
      if Inferable(pr, n, stores, cfg) then "Service"
      else if pr.kind == None || pr.kind == Some("") then "Gateway"
      else pr.kind.value
  {
  }

  /** A Service parent, named or inferred: mesh, with that Service's name, namespace and port, and nothing of a Gateway. */
  lemma ServiceParentFields(o: RouteObject, stores: Stores, cfg: Config, n: NsName)
    requires o.parentRefs != [] && Refers(o.parentRefs[0], o.ns, n)
    requires NamesService(o.parentRefs[0]) || Inferable(o.parentRefs[0], n, stores, cfg)
    ensures var ra := Project(o, stores, cfg);
      && ra.routeMode == "mesh" && NoGateway(ra)
      && ra.parentServiceName == n.name && ra.parentServiceNs == n.ns
      && ra.parentServicePort == (match o.parentRefs[0].port case Some(p) => p case None => 0)
  {
  }

  /** A stored Gateway parent: its identity, the section as listener, its class with the controller stored for it. */
  lemma GatewayParentFields(o: RouteObject, stores: Stores, cfg: Config, n: NsName)
    requires o.parentRefs != [] && Refers(o.parentRefs[0], o.ns, n)
    requires !NamesService(o.parentRefs[0]) && n in stores.gateways
    ensures var ra, pr, gw := Project(o, stores, cfg), o.parentRefs[0], stores.gateways[n];
      && NoService(ra)
      && ra.gatewayName == gw.name && ra.gatewayNs == gw.ns && ra.gatewayUid == gw.uid && ra.gatewayClass == gw.className
      && ra.gatewayListener == (match pr.sectionName case Some(s) => s case None => "")
      && ra.gatewayController == if gw.className in stores.classes then stores.classes[gw.className] else ""
  {
    var pr := o.parentRefs[0];
    GatewayBranch(Blank(o.grpc, o.ns, o.name, o.uid), pr, o.ns, n, stores, cfg);
  }

  lemma GatewayBranch(ra: RouteAttributes, pr: ParentReference, routeNs: string, n: NsName, stores: Stores, cfg: Config)
    requires Refers(pr, routeNs, n) && !NamesService(pr) && n in stores.gateways
    ensures var ra' := ra.(parentRef := FormatParentRef(pr, routeNs), parentKind := ParentKindOf(pr));
      WithParent(ra, pr, routeNs, stores, cfg) == WithGateway(ra', pr, stores.gateways[n], stores.classes, cfg)
  {
    assert NsName(ParentNs(pr, routeNs), pr.name) == n;
  }

  /** Whether that Gateway is a waypoint, and of which implementation. */
  lemma WaypointFields(o: RouteObject, stores: Stores, cfg: Config, n: NsName)
    requires o.parentRefs != [] && Refers(o.parentRefs[0], o.ns, n)
    requires !NamesService(o.parentRefs[0]) && n in stores.gateways
    ensures var ra, gw := Project(o, stores, cfg), stores.gateways[n];
      && IsImplementation(cfg, gw.className, ra.waypointImpl)
      && ra.routeMode == (if ra.waypointImpl == "" then "ingress" else "mesh")
      && ra.waypointName == (if ra.waypointImpl == "" then "" else gw.name)
      && ra.waypointNs == (if ra.waypointImpl == "" then "" else gw.ns)
  {
    WaypointImplIff(cfg, stores.gateways[n].className, Project(o, stores, cfg).waypointImpl);
  }

  /** Any other parent, or none: ingress, with nothing of a Gateway or a Service. */
  lemma UnresolvedParentFields(o: RouteObject, stores: Stores, cfg: Config, n: NsName)
    requires o.parentRefs != [] ==>
               && Refers(o.parentRefs[0], o.ns, n) && !NamesService(o.parentRefs[0])
               && n !in stores.gateways && !Inferable(o.parentRefs[0], n, stores, cfg)
    ensures var ra := Project(o, stores, cfg); ra.routeMode == "ingress" && NoGateway(ra) && NoService(ra)
  {
  }

  // ----- the printed parent reference -----

  /** The group a parent reference prints: none for a Service, otherwise its own, the Gateway API's when it gives none. */
  predicate PrintsGroup(pr: ParentReference, group: string) {
    if pr.kind == Some("Service") then group == ""
    else match pr.group case Some(g) => group == g case None => group == "gateway.networking.k8s.io"
  }

  lemma ParentRefField(o: RouteObject, stores: Stores, cfg: Config, n: NsName, group: string)
    requires o.parentRefs != [] && Refers(o.parentRefs[0], o.ns, n) && PrintsGroup(o.parentRefs[0], group)
    ensures var pr := o.parentRefs[0];
      var kind := if pr.kind == None || pr.kind == Some("") then "Gateway" else pr.kind.value;
      Project(o, stores, cfg).parentRef == group + "/" + kind + "/" + n.ns + "/" + n.name
  {
    ParentRefIsPrinted(o, stores, cfg);
    PrintedParts(o.parentRefs[0], o.ns, n, group);
  }

  lemma ParentRefIsPrinted(o: RouteObject, stores: Stores, cfg: Config)
    requires o.parentRefs != []
    ensures Project(o, stores, cfg).parentRef == FormatParentRef(o.parentRefs[0], o.ns)
  {
  }

  lemma PrintedParts(pr: ParentReference, routeNs: string, n: NsName, group: string)
    requires Refers(pr, routeNs, n) && PrintsGroup(pr, group)
    ensures PrintedGroup(pr) == group && ParentNs(pr, routeNs) == n.ns
    ensures ParentKindOf(pr) == if pr.kind == None || pr.kind == Some("") then "Gateway" else pr.kind.value
  {
    assert "Gateway"[0] != "Service"[0];
  }

  // ----- rule names -----

  predicate RuleNamed(r: Rule, name: string) {
    match r.name case Some(s) => name == s case None => name == ""
  }

  /** Rule names are listed by position, unnamed rules as "", and not at all when every rule is unnamed. */
  lemma RuleNamesByPosition(o: RouteObject, stores: Stores, cfg: Config)
    ensures var names := Project(o, stores, cfg).ruleNames;
      if (forall i | 0 <= i < |o.rules| :: RuleNamed(o.rules[i], "")) then names == []
      else |names| == |o.rules| && forall i | 0 <= i < |o.rules| :: RuleNamed(o.rules[i], names[i])
  {
    if i :| 0 <= i < |o.rules| && !RuleNamed(o.rules[i], "") {
      assert o.rules[i] in o.rules && OrElse(o.rules[i].name, "") != "";
    }
  }

  // ----- the indexed backends -----

  predicate BackendRefers(b: BackendRef, routeNs: string, n: NsName) {
    InCore(b.group) && (b.kind == None || b.kind == Some("Service")) && n.name == b.name && Qualifies(b.ns, routeNs, n.ns)
  }

  /** A route is indexed under a Service iff some rule's backend, or some parent, names it with its kind and core group. */
  lemma RefsIff(o: RouteObject, n: NsName)
    ensures n in RefsOf(o) <==>
            || (exists r, b :: r in o.rules && b in r.backendRefs && BackendRefers(b, o.ns, n))
            || (exists p :: p in o.parentRefs && NamesService(p) && Refers(p, o.ns, n))
  {
    RulesRefsIff(o.rules, o.ns, n);
    ParentRefsIff(o.parentRefs, o.ns, n);
    forall b: BackendRef ensures BackendRefers(b, o.ns, n) <==> IsServiceBackend(b) && n == NsName(OrElse(b.ns, o.ns), b.name) {
    }
    forall p: ParentReference ensures NamesService(p) && Refers(p, o.ns, n) <==> IsServiceParent(p) && n == NsName(ParentNs(p, o.ns), p.name) {
    }
  }
}
