/**
  Stamping loses nothing: whatever the record held before, every attribute of a
  route can be read back off it under its own key, because no two stamped keys
  collide, and a key the route has no value for keeps its former value.
 */
module StampReadBack {
  import opened Types
  import opened Attributes
  import opened Resolution
  import opened Enrichment
  import opened EnrichmentLaws

  // ----- tables with distinct keys -----

  ghost predicate Distinct(t: seq<Entry>) {
    forall i, j | 0 <= i < j < |t| :: t[i].key != t[j].key
  }

  lemma {:induction false} ApplyAt(m: Attrs, t: seq<Entry>, i: nat)
    requires Distinct(t) && i < |t|
    ensures Get(Apply(m, t), t[i].key) == ValueOver(m, t[i].key, t[i].val)
  {
    var n := |t| - 1;
    if i < n {
      ApplyAt(m, t[..n], i);
    } else {
      ApplyIsMerge(m, t[..n]);
      AppliedKeys(t[..n]);
    }
  }

  /** Of two tables, the later one that uses a key decides it. */
  lemma LastPutWins(a: seq<Entry>, b: seq<Entry>, k: string)
    ensures Get(Apply(map[], a + b), k) == Get(Apply(map[], if k in KeysOf(b) then b else a), k)
  {
    ApplyConcat(map[], a, b);
    ApplyIsMerge(Apply(map[], a), b);
    AppliedKeys(b);
  }

  /** What a key reads after an optional put of `v` on a record that was `before`: its former value when there is none. */
  function ValueOver(before: Attrs, key: string, v: Option<Value>): Option<Value> {
    if v.Some? then v else Get(before, key)
  }

  /** Empty text is never put. */
  function TextOver(before: Attrs, key: string, s: string): Option<Value> {
    ValueOver(before, key, if s == "" then None else Some(Str(s)))
  }

  // ----- the key groups -----

  lemma IngressDistinct(ra: RouteAttributes)
    ensures Distinct(GatewayTable(ra))
  {
    assert |ROUTE_MODE| == 36 && |GATEWAY_NAME| == 16 && |GATEWAY_NAMESPACE| == 21 && |GATEWAY_UID| == 15;
    assert |GATEWAY_LISTENER| == 25 && |CLASS_NAME| == 21 && |CLASS_CONTROLLER| == 27;
    assert GATEWAY_NAMESPACE[11] != CLASS_NAME[11];
  }

  lemma ParentDistinct(ra: RouteAttributes)
    ensures Distinct(MeshTable(ra))
  {
    assert |PARENT_SERVICE_NAME| == 23 && |PARENT_SERVICE_NAMESPACE| == 28 && |PARENT_SERVICE_PORT| == 23;
    assert |ROUTE_ROLE| == 25 && PARENT_SERVICE_NAME[19] != PARENT_SERVICE_PORT[19];
  }

  lemma WaypointDistinct(s: Snapshot, ra: RouteAttributes)
    ensures Distinct(WaypointTable(s, ra))
  {
    assert |WAYPOINT_IMPLEMENTATION| == 38 && |WAYPOINT_NAME| == 28 && |WAYPOINT_NAMESPACE| == 33;
  }

  lemma PolicyDistinct(ra: RouteAttributes)
    ensures Distinct(PoliciesTable(ra))
  {
    assert |POLICY_NAMES| == 27 && |POLICY_KINDS| == 27 && |POLICY_NAMESPACES| == 32 && |POLICY_GROUPS| == 28;
    assert |POLICY_TARGET_KIND| == 33 && POLICY_NAMES[22] != POLICY_KINDS[22];
  }

  const PARENT_KEYS := {PARENT_SERVICE_NAME, PARENT_SERVICE_NAMESPACE, PARENT_SERVICE_PORT, ROUTE_ROLE}
  const WAYPOINT_KEYS := {WAYPOINT_IMPLEMENTATION, WAYPOINT_NAME, WAYPOINT_NAMESPACE}

  /** A few characters tell the four groups apart. */
  function Group(k: string): nat {
    if |k| <= 14 then 0
    else if k[0] == 'g' || k[11] == 'c' || (k[4] == 'g' && k[11] == '.') then 1
    else if k[4] == 's' || (|k| > 15 && k[15] == 'r') then 2
    else if |k| > 15 && k[15] == 'w' then 3
    else if |k| > 15 && k[15] == 'p' then 4
    else 0
  }

  lemma IngressGroup(k: string)
    requires k in INGRESS_KEYS
    ensures Group(k) == 1
  {
  }

  lemma ParentGroup(k: string)
    requires k in PARENT_KEYS
    ensures Group(k) == 2
  {
  }

  lemma WaypointGroup(k: string)
    requires k in WAYPOINT_KEYS
    ensures Group(k) == 3
  {
  }

  lemma PolicyGroup(k: string)
    requires k in POLICY_KEYS
    ensures Group(k) == 4
  {
  }

  ghost predicate InGroup(t: seq<Entry>, g: nat) {
    forall e | e in t :: Group(e.key) == g && e.key in ROUTE_INFO_KEYS
  }

  lemma IngressTableGroup(ra: RouteAttributes)
    ensures InGroup(GatewayTable(ra), 1)
  {
    forall e | e in GatewayTable(ra) ensures Group(e.key) == 1 && e.key in ROUTE_INFO_KEYS {
      assert e.key in INGRESS_KEYS;
      IngressGroup(e.key);
    }
  }

  lemma MeshTableGroup(ra: RouteAttributes)
    ensures InGroup(MeshTable(ra), 2)
  {
    forall e | e in MeshTable(ra) ensures Group(e.key) == 2 && e.key in ROUTE_INFO_KEYS {
      assert e.key in PARENT_KEYS && e.key in MESH_KEYS;
      ParentGroup(e.key);
    }
  }

  lemma WaypointTableGroup(s: Snapshot, ra: RouteAttributes)
    ensures InGroup(WaypointTable(s, ra), 3)
  {
    forall e | e in WaypointTable(s, ra) ensures Group(e.key) == 3 && e.key in ROUTE_INFO_KEYS {
      assert e.key in WAYPOINT_KEYS && e.key in MESH_KEYS;
      WaypointGroup(e.key);
    }
  }

  lemma PolicyTableGroup(ra: RouteAttributes)
    ensures InGroup(PoliciesTable(ra), 4)
  {
    forall e | e in PoliciesTable(ra) ensures Group(e.key) == 4 && e.key in ROUTE_INFO_KEYS {
      assert e.key in POLICY_KEYS;
      PolicyGroup(e.key);
    }
  }

  lemma TablesInGroups(s: Snapshot, ra: RouteAttributes)
    ensures InGroup(GatewayTable(ra), 1) && InGroup(MeshTable(ra), 2)
    ensures InGroup(WaypointTable(s, ra), 3) && InGroup(PoliciesTable(ra), 4)
  {
    IngressTableGroup(ra);
    MeshTableGroup(ra);
    WaypointTableGroup(s, ra);
    PolicyTableGroup(ra);
  }

  // ----- reading a group back off the whole record -----

  /** The kind-specific part of the stamp. */
  function KindTable(cfg: Config, ra: RouteAttributes): seq<Entry> {
    CrIdentityTable(ra) + StatusTable(cfg, ra)
  }

  lemma KindKeysAreNotInfo(cfg: Config, ra: RouteAttributes)
    ensures KeysOf(KindTable(cfg, ra)) !! ROUTE_INFO_KEYS
  {
    CrIdentityWithin(ra);
    StatusWithin(cfg, ra);
    forall k | k in KeysOf(KindTable(cfg, ra)) ensures k !in ROUTE_INFO_KEYS {
      KindKeysApart(IsGrpc(ra), k);
    }
  }

  lemma GroupDecides(t: seq<Entry>, g: nat, k: string)
    requires InGroup(t, g) && Group(k) != g
    ensures k !in KeysOf(t)
  {
  }

  /** A key no table after `t` uses, and none before, reads as if only `t` had been applied. */
  lemma OnlyReader(before: seq<Entry>, t: seq<Entry>, k: string)
    requires k !in KeysOf(before)
    ensures Get(Apply(map[], before + t), k) == Get(Apply(map[], t), k)
  {
    LastPutWins(before, t, k);
    AppliedKeys(before);
    AppliedKeys(t);
  }

  lemma KeysOfConcat(a: seq<Entry>, b: seq<Entry>)
    ensures KeysOf(a + b) == KeysOf(a) + KeysOf(b)
  {
    assert forall e :: e in a + b <==> e in a || e in b;
  }

  /** A key of one group reads as if only that group's table had been applied. */
  lemma MiddleReads(t0: seq<Entry>, t1: seq<Entry>, t2: seq<Entry>, t3: seq<Entry>, t4: seq<Entry>, k: string)
    requires k !in KeysOf(t0) && InGroup(t1, 1) && InGroup(t2, 2) && InGroup(t3, 3) && InGroup(t4, 4)
    ensures var m := Apply(map[], t0 + t1 + t2 + t3 + t4);
      && (Group(k) == 1 ==> Get(m, k) == Get(Apply(map[], t1), k))
      && (Group(k) == 2 ==> Get(m, k) == Get(Apply(map[], t2), k))
      && (Group(k) == 3 ==> Get(m, k) == Get(Apply(map[], t3), k))
      && (Group(k) == 4 ==> Get(m, k) == Get(Apply(map[], t4), k))
  {
    if Group(k) != 1 {
      GroupDecides(t1, 1, k);
    }
    if Group(k) != 2 {
      GroupDecides(t2, 2, k);
    }
    if Group(k) != 3 {
      GroupDecides(t3, 3, k);
    }
    if Group(k) != 4 {
      GroupDecides(t4, 4, k);
    }
    PeelTables(t0, t1, t2, t3, t4, k);
  }

  lemma PeelTables(t0: seq<Entry>, t1: seq<Entry>, t2: seq<Entry>, t3: seq<Entry>, t4: seq<Entry>, k: string)
    requires k !in KeysOf(t0)
    ensures var m := Apply(map[], t0 + t1 + t2 + t3 + t4);
      && (k !in KeysOf(t2) + KeysOf(t3) + KeysOf(t4) ==> Get(m, k) == Get(Apply(map[], t1), k))
      && (k !in KeysOf(t1) + KeysOf(t3) + KeysOf(t4) ==> Get(m, k) == Get(Apply(map[], t2), k))
      && (k !in KeysOf(t1) + KeysOf(t2) + KeysOf(t4) ==> Get(m, k) == Get(Apply(map[], t3), k))
      && (k !in KeysOf(t1) + KeysOf(t2) + KeysOf(t3) ==> Get(m, k) == Get(Apply(map[], t4), k))
  {
    LastPutWins(t0 + t1 + t2 + t3, t4, k);
    LastPutWins(t0 + t1 + t2, t3, k);
    LastPutWins(t0 + t1, t2, k);
    OnlyReader(t0, t1, k);
    KeysOfConcat(t0, t1);
    KeysOfConcat(t0 + t1, t2);
    KeysOfConcat(t0 + t1 + t2, t3);
    if k !in KeysOf(t1) {
      OnlyReader(t0 + t1, t2, k);
      if k !in KeysOf(t2) {
        OnlyReader(t0 + t1 + t2, t3, k);
        if k !in KeysOf(t3) {
          OnlyReader(t0 + t1 + t2 + t3, t4, k);
        }
      }
    }
  }

  lemma GroupReads(cfg: Config, s: Snapshot, ra: RouteAttributes, k: string)
    requires k in ROUTE_INFO_KEYS
    ensures var m := Apply(map[], AttrsTable(cfg, s, ra));
      && (Group(k) == 1 ==> Get(m, k) == Get(Apply(map[], GatewayTable(ra)), k))
      && (Group(k) == 2 ==> Get(m, k) == Get(Apply(map[], MeshTable(ra)), k))
      && (Group(k) == 3 ==> Get(m, k) == Get(Apply(map[], WaypointTable(s, ra)), k))
      && (Group(k) == 4 ==> Get(m, k) == Get(Apply(map[], PoliciesTable(ra)), k))
  {
    TablesInGroups(s, ra);
    KindKeysAreNotInfo(cfg, ra);
    MiddleReads(KindTable(cfg, ra), GatewayTable(ra), MeshTable(ra), WaypointTable(s, ra), PoliciesTable(ra), k);
  }

  /** Tables that agree at a key on the empty record agree there on every record. */
  lemma AgreeOnAnyRecord(m: Attrs, t: seq<Entry>, t': seq<Entry>, k: string)
    requires Get(Apply(map[], t), k) == Get(Apply(map[], t'), k)
    ensures Get(Apply(m, t), k) == Get(Apply(m, t'), k)
  {
    ApplyIsMerge(m, t);
    ApplyIsMerge(m, t');
  }

  // ----- Gateway and mesh attribution -----

  /** `after` is `before` with the Gateway and class attribution of `ra` put over it. */
  ghost predicate ShowsGateway(after: Attrs, before: Attrs, ra: RouteAttributes) {
    && Get(after, ROUTE_MODE) == Some(Str(if ra.routeMode == "" then "ingress" else ra.routeMode))
    && Get(after, GATEWAY_NAME) == TextOver(before, GATEWAY_NAME, ra.gatewayName)
    && Get(after, GATEWAY_NAMESPACE) == TextOver(before, GATEWAY_NAMESPACE, ra.gatewayNs)
    && Get(after, GATEWAY_UID) == TextOver(before, GATEWAY_UID, ra.gatewayUid)
    && Get(after, GATEWAY_LISTENER) == TextOver(before, GATEWAY_LISTENER, ra.gatewayListener)
    && Get(after, CLASS_NAME) == TextOver(before, CLASS_NAME, ra.gatewayClass)
    && Get(after, CLASS_CONTROLLER) == TextOver(before, CLASS_CONTROLLER, ra.gatewayController)
  }

  ghost predicate ShowsMesh(after: Attrs, before: Attrs, ra: RouteAttributes) {
    && Get(after, PARENT_SERVICE_NAME) == TextOver(before, PARENT_SERVICE_NAME, ra.parentServiceName)
    && Get(after, PARENT_SERVICE_NAMESPACE) == TextOver(before, PARENT_SERVICE_NAMESPACE, ra.parentServiceNs)
    && Get(after, PARENT_SERVICE_PORT) ==
       ValueOver(before, PARENT_SERVICE_PORT, if ra.parentServicePort > 0 then Some(Int(ra.parentServicePort)) else None)
    && Get(after, ROUTE_ROLE) == TextOver(before, ROUTE_ROLE, ra.routeRole)
  }

  lemma GatewayTableReads(m: Attrs, ra: RouteAttributes)
    ensures ShowsGateway(Apply(m, GatewayTable(ra)), m, ra)
  {
    IngressDistinct(ra);
    var t := GatewayTable(ra);
    ApplyAt(m, t, 0);
    ApplyAt(m, t, 1);
    ApplyAt(m, t, 2);
    ApplyAt(m, t, 3);
    ApplyAt(m, t, 4);
    ApplyAt(m, t, 5);
    ApplyAt(m, t, 6);
  }

  lemma IngressReads(m: Attrs, cfg: Config, s: Snapshot, ra: RouteAttributes, k: string)
    requires k in INGRESS_KEYS
    ensures Get(Apply(m, AttrsTable(cfg, s, ra)), k) == Get(Apply(m, GatewayTable(ra)), k)
  {
    IngressGroup(k);
    GroupReads(cfg, s, ra, k);
    AgreeOnAnyRecord(m, AttrsTable(cfg, s, ra), GatewayTable(ra), k);
  }

  /** On any record, the Gateway and class attribution reads back field by field. */
  lemma GatewayReadsBack(m: Attrs, cfg: Config, s: Snapshot, ra: RouteAttributes)
    ensures ShowsGateway(Apply(m, AttrsTable(cfg, s, ra)), m, ra)
  {
    GatewayTableReads(m, ra);
    forall k | k in INGRESS_KEYS ensures Get(Apply(m, AttrsTable(cfg, s, ra)), k) == Get(Apply(m, GatewayTable(ra)), k) {
      IngressReads(m, cfg, s, ra, k);
    }
  }

  lemma MeshTableReads(m: Attrs, ra: RouteAttributes)
    ensures ShowsMesh(Apply(m, MeshTable(ra)), m, ra)
  {
    ParentDistinct(ra);
    var t := MeshTable(ra);
    ApplyAt(m, t, 0);
    ApplyAt(m, t, 1);
    ApplyAt(m, t, 2);
    ApplyAt(m, t, 3);
  }

  lemma ParentReads(m: Attrs, cfg: Config, s: Snapshot, ra: RouteAttributes, k: string)
    requires k in PARENT_KEYS
    ensures Get(Apply(m, AttrsTable(cfg, s, ra)), k) == Get(Apply(m, MeshTable(ra)), k)
  {
    ParentGroup(k);
    GroupReads(cfg, s, ra, k);
    AgreeOnAnyRecord(m, AttrsTable(cfg, s, ra), MeshTable(ra), k);
  }

  /** So does the mesh attribution, the port only when positive. */
  lemma MeshReadsBack(m: Attrs, cfg: Config, s: Snapshot, ra: RouteAttributes)
    ensures ShowsMesh(Apply(m, AttrsTable(cfg, s, ra)), m, ra)
  {
    MeshTableReads(m, ra);
    forall k | k in PARENT_KEYS ensures Get(Apply(m, AttrsTable(cfg, s, ra)), k) == Get(Apply(m, MeshTable(ra)), k) {
      ParentReads(m, cfg, s, ra, k);
    }
  }

  // ----- identity and status -----

  lemma KindDistinct(cfg: Config, ra: RouteAttributes)
    ensures Distinct(KindTable(cfg, ra))
  {
    var grpc := IsGrpc(ra);
    assert |RouteAttr(grpc, "uid")| == 17 && |RouteAttr(grpc, "parent_ref")| == 24 && |RouteAttr(grpc, "parent.kind")| == 25;
    assert |RouteAttr(grpc, "accepted")| == 22 && |RouteAttr(grpc, "resolved_refs")| == 27;
  }

  /** Keys of the route's kind are decided by the kind-specific table alone. */
  lemma KindReads(m: Attrs, cfg: Config, s: Snapshot, ra: RouteAttributes, k: string)
    requires k in RouteKeys(IsGrpc(ra))
    ensures Get(Apply(m, AttrsTable(cfg, s, ra)), k) == Get(Apply(m, KindTable(cfg, ra)), k)
  {
    var t := KindTable(cfg, ra);
    KindKeysApart(IsGrpc(ra), k);
    TablesInGroups(s, ra);
    LastPutWins(t + GatewayTable(ra) + MeshTable(ra) + WaypointTable(s, ra), PoliciesTable(ra), k);
    LastPutWins(t + GatewayTable(ra) + MeshTable(ra), WaypointTable(s, ra), k);
    LastPutWins(t + GatewayTable(ra), MeshTable(ra), k);
    LastPutWins(t, GatewayTable(ra), k);
    AgreeOnAnyRecord(m, AttrsTable(cfg, s, ra), t, k);
  }

  /** On any record, identity reads back under the keys of the route's kind. */
  lemma IdentityReadsBack(m: Attrs, cfg: Config, s: Snapshot, ra: RouteAttributes)
    ensures var after, grpc := Apply(m, AttrsTable(cfg, s, ra)), IsGrpc(ra);
      && Get(after, RouteAttr(grpc, "uid")) == TextOver(m, RouteAttr(grpc, "uid"), ra.uid)
      && Get(after, RouteAttr(grpc, "parent_ref")) == TextOver(m, RouteAttr(grpc, "parent_ref"), ra.parentRef)
      && Get(after, RouteAttr(grpc, "parent.kind")) == TextOver(m, RouteAttr(grpc, "parent.kind"), ra.parentKind)
  {
    var t, grpc := KindTable(cfg, ra), IsGrpc(ra);
    FieldIsRouteKey(grpc, "uid");
    FieldIsRouteKey(grpc, "parent_ref");
    FieldIsRouteKey(grpc, "parent.kind");
    KindReads(m, cfg, s, ra, RouteAttr(grpc, "uid"));
    KindReads(m, cfg, s, ra, RouteAttr(grpc, "parent_ref"));
    KindReads(m, cfg, s, ra, RouteAttr(grpc, "parent.kind"));
    assert t[..3] == CrIdentityTable(ra);
    KindDistinct(cfg, ra);
    ApplyAt(m, t, 0);
    ApplyAt(m, t, 1);
    ApplyAt(m, t, 2);
  }

  /** What a status flag reads after stamping: the projected flag when configured and known. */
  function FlagOver(before: Attrs, key: string, cfg: Config, flag: Option<bool>): Option<Value> {
    ValueOver(before, key, if cfg.emitStatus && flag.Some? then Some(Bool(flag.value)) else None)
  }

  lemma StatusTableReads(m: Attrs, cfg: Config, ra: RouteAttributes)
    ensures var after, grpc := Apply(m, KindTable(cfg, ra)), IsGrpc(ra);
      && Get(after, RouteAttr(grpc, "accepted")) == FlagOver(m, RouteAttr(grpc, "accepted"), cfg, ra.accepted)
      && Get(after, RouteAttr(grpc, "resolved_refs")) == FlagOver(m, RouteAttr(grpc, "resolved_refs"), cfg, ra.resolvedRefs)
  {
    var t, grpc := KindTable(cfg, ra), IsGrpc(ra);
    if cfg.emitStatus {
      assert t[3..] == StatusTable(cfg, ra);
      KindDistinct(cfg, ra);
      ApplyAt(m, t, 3);
      ApplyAt(m, t, 4);
    } else {
      assert |RouteAttr(grpc, "uid")| == 17 && |RouteAttr(grpc, "parent_ref")| == 24 && |RouteAttr(grpc, "parent.kind")| == 25;
      assert |RouteAttr(grpc, "accepted")| == 22 && |RouteAttr(grpc, "resolved_refs")| == 27;
      assert t == CrIdentityTable(ra);
      ApplyIsMerge(m, t);
      AppliedKeys(t);
    }
  }

  /** So do the status flags, and without the option they are left as they were. */
  lemma StatusReadsBack(m: Attrs, cfg: Config, s: Snapshot, ra: RouteAttributes)
    ensures var after, grpc := Apply(m, AttrsTable(cfg, s, ra)), IsGrpc(ra);
      && Get(after, RouteAttr(grpc, "accepted")) == FlagOver(m, RouteAttr(grpc, "accepted"), cfg, ra.accepted)
      && Get(after, RouteAttr(grpc, "resolved_refs")) == FlagOver(m, RouteAttr(grpc, "resolved_refs"), cfg, ra.resolvedRefs)
  {
    var grpc := IsGrpc(ra);
    FieldIsRouteKey(grpc, "accepted");
    FieldIsRouteKey(grpc, "resolved_refs");
    KindReads(m, cfg, s, ra, RouteAttr(grpc, "accepted"));
    KindReads(m, cfg, s, ra, RouteAttr(grpc, "resolved_refs"));
    StatusTableReads(m, cfg, ra);
  }

  // ----- policies -----

  /** The attached policies, as the record's four parallel arrays spell them. */
  function PoliciesAt(m: Attrs): seq<PolicyRef> {
    Recombine(ColumnAt(m, POLICY_NAMES), ColumnAt(m, POLICY_KINDS), ColumnAt(m, POLICY_NAMESPACES), ColumnAt(m, POLICY_GROUPS))
  }

  function Recombine(names: seq<string>, kinds: seq<string>, namespaces: seq<string>, groups: seq<string>): seq<PolicyRef> {
    if |names| == |kinds| == |namespaces| == |groups|
    then seq(|names|, i requires 0 <= i < |names| => PolicyRef(names[i], namespaces[i], kinds[i], groups[i]))
    else []
  }

  lemma ColumnsRecombine(refs: seq<PolicyRef>)
    ensures Recombine(Column(refs, ByName).ss, Column(refs, ByKind).ss, Column(refs, ByNamespace).ss, Column(refs, ByGroup).ss) == refs
  {
  }

  function ColumnAt(m: Attrs, key: string): seq<string> {
    if key in m && m[key].Strs? then m[key].ss else []
  }

  lemma PoliciesTableReads(m: Attrs, ra: RouteAttributes)
    requires ra.policies != []
    ensures var after := Apply(m, PoliciesTable(ra));
      && Get(after, POLICY_NAMES) == Some(Column(ra.policies, ByName))
      && Get(after, POLICY_KINDS) == Some(Column(ra.policies, ByKind))
      && Get(after, POLICY_NAMESPACES) == Some(Column(ra.policies, ByNamespace))
      && Get(after, POLICY_GROUPS) == Some(Column(ra.policies, ByGroup))
      && Get(after, POLICY_TARGET_KIND) == Some(Str(if ra.kind == GRPCRoute then "GRPCRoute" else "HTTPRoute"))
  {
    PolicyDistinct(ra);
    var t := PoliciesTable(ra);
    ApplyAt(m, t, 0);
    ApplyAt(m, t, 1);
    ApplyAt(m, t, 2);
    ApplyAt(m, t, 3);
    ApplyAt(m, t, 4);
  }

  lemma PolicyReads(m: Attrs, cfg: Config, s: Snapshot, ra: RouteAttributes, k: string)
    requires k in POLICY_KEYS
    ensures Get(Apply(m, AttrsTable(cfg, s, ra)), k) == Get(Apply(m, PoliciesTable(ra)), k)
  {
    PolicyGroup(k);
    GroupReads(cfg, s, ra, k);
    AgreeOnAnyRecord(m, AttrsTable(cfg, s, ra), PoliciesTable(ra), k);
  }

  /** On any record, a policy list reads back whole and in order; an empty one leaves the former arrays in place. */
  lemma PoliciesReadBack(m: Attrs, cfg: Config, s: Snapshot, ra: RouteAttributes)
    ensures ra.policies != [] ==> PoliciesAt(Apply(m, AttrsTable(cfg, s, ra))) == ra.policies
    ensures ra.policies != [] ==>
              Get(Apply(m, AttrsTable(cfg, s, ra)), POLICY_TARGET_KIND) == Some(Str(if ra.kind == GRPCRoute then "GRPCRoute" else "HTTPRoute"))
    ensures ra.policies == [] ==> forall k | k in POLICY_KEYS :: Get(Apply(m, AttrsTable(cfg, s, ra)), k) == Get(m, k)
  {
    forall k | k in POLICY_KEYS ensures Get(Apply(m, AttrsTable(cfg, s, ra)), k) == Get(Apply(m, PoliciesTable(ra)), k) {
      PolicyReads(m, cfg, s, ra, k);
    }
    if ra.policies != [] {
      PoliciesTableReads(m, ra);
      ColumnsRecombine(ra.policies);
    }
  }

  // ----- the waypoint -----

  /**
    The waypoint a route stamps: the projected one when there is one, otherwise the
    live label of the parent Service of a mesh route, if any.
   */
  function StampedWaypoint(s: Snapshot, ra: RouteAttributes): Option<WaypointInfo> {
    var live := if s.waypoints.Some? then Get(s.waypoints.value, NsName(ra.parentServiceNs, ra.parentServiceName)) else None;
    if ra.waypointImpl != "" then Some(WaypointInfo(ra.waypointImpl, ra.waypointName, ra.waypointNs))
    else if ra.routeMode == MODE_MESH && ra.parentServiceName != "" && live.Some? && live.value.implementation != "" then live
    else None
  }

  lemma WaypointTableReads(m: Attrs, s: Snapshot, ra: RouteAttributes, w: WaypointInfo)
    requires StampedWaypoint(s, ra) == Some(w)
    ensures var after := Apply(m, WaypointTable(s, ra));
      && Get(after, WAYPOINT_IMPLEMENTATION) == Some(Str(w.implementation))
      && Get(after, WAYPOINT_NAME) == TextOver(m, WAYPOINT_NAME, w.name)
      && Get(after, WAYPOINT_NAMESPACE) == TextOver(m, WAYPOINT_NAMESPACE, w.ns)
  {
    WaypointDistinct(s, ra);
    var t := WaypointTable(s, ra);
    assert t == [Entry(WAYPOINT_IMPLEMENTATION, Some(Str(w.implementation))), TextEntry(WAYPOINT_NAME, w.name), TextEntry(WAYPOINT_NAMESPACE, w.ns)];
    ApplyAt(m, t, 0);
    ApplyAt(m, t, 1);
    ApplyAt(m, t, 2);
  }

  lemma WaypointReads(m: Attrs, cfg: Config, s: Snapshot, ra: RouteAttributes, k: string)
    requires k in WAYPOINT_KEYS
    ensures Get(Apply(m, AttrsTable(cfg, s, ra)), k) == Get(Apply(m, WaypointTable(s, ra)), k)
  {
    WaypointGroup(k);
    GroupReads(cfg, s, ra, k);
    AgreeOnAnyRecord(m, AttrsTable(cfg, s, ra), WaypointTable(s, ra), k);
  }

  /** On any record, the stamped waypoint reads back; when there is none, a former one survives. */
  lemma WaypointReadsBack(m: Attrs, cfg: Config, s: Snapshot, ra: RouteAttributes)
    ensures var after := Apply(m, AttrsTable(cfg, s, ra));
      match StampedWaypoint(s, ra)
      case None => forall k | k in WAYPOINT_KEYS :: Get(after, k) == Get(m, k)
      case Some(w) =>
        && Get(after, WAYPOINT_IMPLEMENTATION) == Some(Str(w.implementation))
        && Get(after, WAYPOINT_NAME) == TextOver(m, WAYPOINT_NAME, w.name)
        && Get(after, WAYPOINT_NAMESPACE) == TextOver(m, WAYPOINT_NAMESPACE, w.ns)
  {
    forall k | k in WAYPOINT_KEYS ensures Get(Apply(m, AttrsTable(cfg, s, ra)), k) == Get(Apply(m, WaypointTable(s, ra)), k) {
      WaypointReads(m, cfg, s, ra, k);
    }
    match StampedWaypoint(s, ra)
    case None => assert WaypointTable(s, ra) == [];
    case Some(w) => WaypointTableReads(m, s, ra, w);
  }
}
