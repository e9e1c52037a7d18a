/**
  Enriching one record: the parser's verdict, the fallback when there is none,
  and the stamping of route attributes into the record's attribute map.
 */
module Enrichment {
  import opened Types
  import opened EnvoyRoute
  import opened Attributes
  import opened Resolution

  datatype Signal = Traces | Logs | Metrics

  datatype Config = Config(
    fallbackEnabled: bool,
    sourceAttributes: seq<string>,
    sourceAttribute: string,
    emitStatus: bool,
    passthroughKey: string,
    excludedFromMetrics: seq<string>)

  /**
    The parts of the pipeline this model takes as given: how non-string values
    render, the libraries of the address decoder, and the parser chain, which is
    some function of the attribute view.
   */
  datatype Env = Env(render: Value -> string, libs: Libs, parse: View -> Option<ParseResult>)

  function AsString(env: Env, v: Value): string {
    if v.Str? then v.s else env.render(v)
  }

  /** Record attributes first, then resource attributes. */
  function ViewOf(env: Env, record: Attrs, resource: Attrs): View {
    map k | k in record.Keys + resource.Keys :: AsString(env, if k in record then record[k] else resource[k])
  }

  // ----- configured source attributes -----

  function Extend(keys: seq<string>, k: string): seq<string> {
    if k == "" || k in keys then keys else keys + [k]
  }

  function ExtendAll(keys: seq<string>, more: seq<string>): seq<string> {
    if more == [] then keys else Extend(ExtendAll(keys, more[..|more| - 1]), more[|more| - 1])
  }

  function SourceKeys(cfg: Config): seq<string> {
    Extend(ExtendAll([], cfg.sourceAttributes), cfg.sourceAttribute)
  }

  /** The list-and-seen-set loop. */
  method EffectiveSourceAttrs(cfg: Config) returns (out: seq<string>)
    ensures out == SourceKeys(cfg)
  {
    var all := cfg.sourceAttributes + [cfg.sourceAttribute];
    var seen: set<string> := {};
    out := [];
    for i := 0 to |all|
      invariant out == ExtendAll([], all[..i]) && seen == set k | k in out
    {
      var k := all[i];
      assert all[..i + 1][..i] == all[..i];
      if k != "" && k !in seen {
        seen, out := seen + {k}, out + [k];
      }
    }
    assert all[..|all|] == all;
    assert all[..|all| - 1] == cfg.sourceAttributes;
  }

  /** Position of the first occurrence. */
  ghost predicate FirstAt(all: seq<string>, k: string, i: int) {
    0 <= i < |all| && all[i] == k && k !in all[..i]
  }

  /** The effective keys are the distinct non-empty configured keys in order of first mention. */
  lemma {:induction false} ExtendAllIsDistinct(all: seq<string>)
    ensures forall k :: k in ExtendAll([], all) <==> k in all && k != ""
    ensures forall i, j | 0 <= i < j < |ExtendAll([], all)| :: ExtendAll([], all)[i] != ExtendAll([], all)[j]
  {
    if all != [] {
      var n := |all| - 1;
      ExtendAllIsDistinct(all[..n]);
      assert forall k :: k in all <==> k in all[..n] || k == all[n];
    }
  }

  /** In particular for the effective keys of a configuration, the legacy single key last. */
  lemma SourceKeysAreConfigured(cfg: Config)
    ensures forall k :: k in SourceKeys(cfg) <==> k != "" && (k in cfg.sourceAttributes || k == cfg.sourceAttribute)
    ensures SourceKeys(cfg) == ExtendAll([], cfg.sourceAttributes + [cfg.sourceAttribute])
  {
    var all := cfg.sourceAttributes + [cfg.sourceAttribute];
    assert all[..|all| - 1] == cfg.sourceAttributes && all[|all| - 1] == cfg.sourceAttribute;
    ExtendAllIsDistinct(all);
    forall k ensures k in SourceKeys(cfg) <==> k != "" && (k in cfg.sourceAttributes || k == cfg.sourceAttribute) {
      assert k in all <==> k in cfg.sourceAttributes || k == cfg.sourceAttribute;
    }
  }

  lemma {:induction false} ExtendAllKeepsOrder(all: seq<string>, i: int, j: int, p: int, q: int)
    requires 0 <= i < j < |ExtendAll([], all)|
    requires FirstAt(all, ExtendAll([], all)[i], p) && FirstAt(all, ExtendAll([], all)[j], q)
    ensures p < q
  {
    var n := |all| - 1;
    var out, out' := ExtendAll([], all[..n]), ExtendAll([], all);
    ExtendAllIsDistinct(all[..n]);
    assert out'[i] in all[..n] by {
      assert out'[i] == out[i] && out[i] in out;
    }
    assert p < n;
    assert FirstAt(all[..n], out'[i], p) by {
      assert all[..n][..p] == all[..p];
    }
    if j < |out| {
      assert out[j] in out;
      assert FirstAt(all[..n], out'[j], q) by {
        assert all[..n][..q] == all[..q];
      }
      ExtendAllKeepsOrder(all[..n], i, j, p, q);
    } else {
      assert out'[j] !in all[..n];
      assert forall r | 0 <= r < n :: all[..n][r] == all[r];
    }
  }

  // ----- what gets stamped -----

  /** Identity straight from the parser result. */
  function IdentityTable(pr: ParseResult): seq<Entry> {
    if pr.kind == "GRPCRoute" then
      [Entry(RouteAttr(true, "name"), Some(Str(pr.name))), Entry(RouteAttr(true, "namespace"), Some(Str(pr.ns)))]
    else
      [Entry(RouteAttr(false, "name"), Some(Str(pr.name))), Entry(RouteAttr(false, "namespace"), Some(Str(pr.ns)))] +
      [NumberEntry(RouteAttr(false, "rule_index"), pr.ruleIndex >= 0, pr.ruleIndex)] +
      [NumberEntry(RouteAttr(false, "match_index"), pr.matchIndex >= 0, pr.matchIndex)]
  }

  predicate IsGrpc(ra: RouteAttributes) {
    ra.kind == GRPCRoute
  }

  function RuleNameTable(ra: RouteAttributes, ruleIndex: int): seq<Entry> {
    if 0 <= ruleIndex < |ra.ruleNames| then [TextEntry(RouteAttr(IsGrpc(ra), "rule.name"), ra.ruleNames[ruleIndex])] else []
  }

  function CrIdentityTable(ra: RouteAttributes): seq<Entry> {
    [TextEntry(RouteAttr(IsGrpc(ra), "uid"), ra.uid), TextEntry(RouteAttr(IsGrpc(ra), "parent_ref"), ra.parentRef),
     TextEntry(RouteAttr(IsGrpc(ra), "parent.kind"), ra.parentKind)]
  }

  function StatusTable(cfg: Config, ra: RouteAttributes): seq<Entry> {
    if cfg.emitStatus
    then [FlagEntry(RouteAttr(IsGrpc(ra), "accepted"), ra.accepted), FlagEntry(RouteAttr(IsGrpc(ra), "resolved_refs"), ra.resolvedRefs)]
    else []
  }

  function GatewayTable(ra: RouteAttributes): seq<Entry> {
    [Entry(ROUTE_MODE, Some(Str(CandidateMode(ra)))), TextEntry(GATEWAY_NAME, ra.gatewayName),
     TextEntry(GATEWAY_NAMESPACE, ra.gatewayNs), TextEntry(GATEWAY_UID, ra.gatewayUid),
     TextEntry(GATEWAY_LISTENER, ra.gatewayListener), TextEntry(CLASS_NAME, ra.gatewayClass),
     TextEntry(CLASS_CONTROLLER, ra.gatewayController)]
  }

  function MeshTable(ra: RouteAttributes): seq<Entry> {
    [TextEntry(PARENT_SERVICE_NAME, ra.parentServiceName), TextEntry(PARENT_SERVICE_NAMESPACE, ra.parentServiceNs),
     NumberEntry(PARENT_SERVICE_PORT, ra.parentServicePort > 0, ra.parentServicePort), TextEntry(ROUTE_ROLE, ra.routeRole)]
  }

  /** The live waypoint label of the parent Service, consulted only when the projection found no waypoint. */
  function LabelWaypoint(s: Snapshot, ra: RouteAttributes): Option<WaypointInfo> {
    if ra.waypointImpl == "" && ra.routeMode == MODE_MESH && ra.parentServiceName != "" && s.waypoints.Some?
    then Get(s.waypoints.value, NsName(ra.parentServiceNs, ra.parentServiceName))
    else None
  }

  function WaypointTable(s: Snapshot, ra: RouteAttributes): seq<Entry> {
    var w := match LabelWaypoint(s, ra)
             case Some(w) => w
             case None => WaypointInfo(ra.waypointImpl, ra.waypointName, ra.waypointNs);
    if w.implementation == "" then []
    else
      [Entry(WAYPOINT_IMPLEMENTATION, Some(Str(w.implementation))), TextEntry(WAYPOINT_NAME, w.name),
       TextEntry(WAYPOINT_NAMESPACE, w.ns)]
  }

  datatype PolicyField = ByName | ByKind | ByNamespace | ByGroup

  function FieldOf(p: PolicyRef, f: PolicyField): string {
    match f
    case ByName => p.name
    case ByKind => p.kind
    case ByNamespace => p.ns
    case ByGroup => p.group
  }

  function Column(refs: seq<PolicyRef>, f: PolicyField): Value {
    Strs(seq(|refs|, i requires 0 <= i < |refs| => FieldOf(refs[i], f)))
  }

  /** Four parallel arrays: element i of each describes the same policy. */
  function PoliciesTable(ra: RouteAttributes): seq<Entry> {
    if ra.policies == [] then []
    else
      [Entry(POLICY_NAMES, Some(Column(ra.policies, ByName))), Entry(POLICY_KINDS, Some(Column(ra.policies, ByKind))),
       Entry(POLICY_NAMESPACES, Some(Column(ra.policies, ByNamespace))), Entry(POLICY_GROUPS, Some(Column(ra.policies, ByGroup))),
       Entry(POLICY_TARGET_KIND, Some(Str(if IsGrpc(ra) then "GRPCRoute" else "HTTPRoute")))]
  }

  function AttrsTable(cfg: Config, s: Snapshot, ra: RouteAttributes): seq<Entry> {
    CrIdentityTable(ra) + StatusTable(cfg, ra) + GatewayTable(ra) + MeshTable(ra) + WaypointTable(s, ra) + PoliciesTable(ra)
  }

  function ParserTable(cfg: Config, pr: ParseResult): seq<Entry> {
    (if cfg.passthroughKey == "" || pr.rawRouteName == "" then [] else [TextEntry(cfg.passthroughKey, pr.rawRouteName)]) +
    [TextEntry(PARSER, pr.parserName)]
  }

  /** The route a parsed identity is looked up under. */
  function ParsedKey(pr: ParseResult): RouteKey {
    RouteKeyOf(if pr.kind == "GRPCRoute" then GRPCRoute else HTTPRoute, pr.ns, pr.name)
  }

  /** CR metadata for a parsed identity: a route read at `at`, a waypoint read after it. */
  function CrTable(cfg: Config, sees: Reads, at: nat, pr: ParseResult): seq<Entry> {
    match LookupRoute(sees(at).state, ParsedKey(pr))
    case None => []
    case Some(ra) => AttrsTable(cfg, sees(at + 1).state, ra) + RuleNameTable(ra, pr.ruleIndex)
  }

  function ParsedTable(cfg: Config, sees: Reads, at: nat, pr: ParseResult): seq<Entry> {
    if pr.ns == "" || pr.name == "" then ParserTable(cfg, pr)
    else ParserTable(cfg, pr) + IdentityTable(pr) + CrTable(cfg, sees, at, pr)
  }

  const FALLBACK_PARSER := "backendref_fallback"

  /** The parser result the fallback synthesises for its winner. */
  function Synthesized(ra: RouteAttributes): ParseResult {
    ParseResult(ra.ns, ra.name, if IsGrpc(ra) then "GRPCRoute" else "HTTPRoute", -1, -1, "", FALLBACK_PARSER)
  }

  function FallbackTable(cfg: Config, s: Snapshot, ra: RouteAttributes): seq<Entry> {
    IdentityTable(Synthesized(ra)) + AttrsTable(cfg, s, ra) + [Entry(PARSER, Some(Str(FALLBACK_PARSER)))]
  }

  /** What one enrichment puts into the record, or None when nothing matched. */
  function RecordTable(env: Env, cfg: Config, sees: Reads, view: View): Option<seq<Entry>> {
    match env.parse(view)
    case Some(pr) => Some(ParsedTable(cfg, sees, 0, pr))
    case None =>
      if !cfg.fallbackEnabled then None
      else
        match Scan(env.libs, view, sees, SourceKeys(cfg))
        case None => None
        case Some(ra) => Some(FallbackTable(cfg, sees(READS_PER_KEY * |SourceKeys(cfg)|).state, ra))
  }

  function Excluded(cfg: Config): set<string> {
    set k | k in cfg.excludedFromMetrics
  }

  function Stripped(cfg: Config, signal: Signal, m: Attrs): Attrs {
    if signal == Metrics then m - Excluded(cfg) else m
  }

  /** The record after enrichment. */
  function Enriched(env: Env, cfg: Config, sees: Reads, record: Attrs, resource: Attrs, signal: Signal): Attrs {
    match RecordTable(env, cfg, sees, ViewOf(env, record, resource))
    case None => record
    case Some(t) => Stripped(cfg, signal, Apply(record, t))
  }

  // ----- the stamping as the source runs it -----

  method StampRouteIdentity(attrs: AttrMap, pr: ParseResult)
    modifies attrs
    ensures attrs.m == Apply(old(attrs.m), IdentityTable(pr))
  {
    attrs.PutAll(IdentityTable(pr));
  }

  method StampPolicyAttrs(attrs: AttrMap, ra: RouteAttributes)
    modifies attrs
    ensures attrs.m == Apply(old(attrs.m), PoliciesTable(ra))
  {
    if ra.policies == [] {
      return;
    }
    var names, kinds, namespaces, groups := [], [], [], [];
    for i := 0 to |ra.policies|
      invariant Strs(names) == Column(ra.policies[..i], ByName)
      invariant Strs(kinds) == Column(ra.policies[..i], ByKind)
      invariant Strs(namespaces) == Column(ra.policies[..i], ByNamespace)
      invariant Strs(groups) == Column(ra.policies[..i], ByGroup)
    {
      var p := ra.policies[i];
      names, kinds, namespaces, groups := names + [p.name], kinds + [p.kind], namespaces + [p.ns], groups + [p.group];
    }
    assert ra.policies[..|ra.policies|] == ra.policies;
    attrs.PutAll(
      [Entry(POLICY_NAMES, Some(Strs(names))), Entry(POLICY_KINDS, Some(Strs(kinds))),
       Entry(POLICY_NAMESPACES, Some(Strs(namespaces))), Entry(POLICY_GROUPS, Some(Strs(groups))),
       Entry(POLICY_TARGET_KIND, Some(Str(if IsGrpc(ra) then "GRPCRoute" else "HTTPRoute")))]);
  }

  method StampWaypoint(attrs: AttrMap, s: Snapshot, ra: RouteAttributes)
    modifies attrs
    ensures attrs.m == Apply(old(attrs.m), WaypointTable(s, ra))
  {
    var w := WaypointInfo(ra.waypointImpl, ra.waypointName, ra.waypointNs);
    if w.implementation == "" && ra.routeMode == MODE_MESH && ra.parentServiceName != "" && s.waypoints.Some? {
      var n := NsName(ra.parentServiceNs, ra.parentServiceName);
      if n in s.waypoints.value {
        w := s.waypoints.value[n];
      }
    }
    if w.implementation != "" {
      attrs.PutAll(
        [Entry(WAYPOINT_IMPLEMENTATION, Some(Str(w.implementation))), TextEntry(WAYPOINT_NAME, w.name),
         TextEntry(WAYPOINT_NAMESPACE, w.ns)]);
    }
  }

  method StampRouteAttrs(attrs: AttrMap, cfg: Config, s: Snapshot, ra: RouteAttributes)
    modifies attrs
    ensures attrs.m == Apply(old(attrs.m), AttrsTable(cfg, s, ra))
  {
    ghost var m := attrs.m;
    attrs.PutAll(CrIdentityTable(ra));
    ghost var t := CrIdentityTable(ra);
    if cfg.emitStatus {
      attrs.PutAll(StatusTable(cfg, ra));
    }
    ApplyConcat(m, t, StatusTable(cfg, ra));
    t := t + StatusTable(cfg, ra);
    attrs.PutAll(GatewayTable(ra));
    ApplyConcat(m, t, GatewayTable(ra));
    t := t + GatewayTable(ra);
    attrs.PutAll(MeshTable(ra));
    ApplyConcat(m, t, MeshTable(ra));
    t := t + MeshTable(ra);
    StampWaypoint(attrs, s, ra);
    ApplyConcat(m, t, WaypointTable(s, ra));
    t := t + WaypointTable(s, ra);
    StampPolicyAttrs(attrs, ra);
    ApplyConcat(m, t, PoliciesTable(ra));
  }

  method StampCrMetadata(attrs: AttrMap, cfg: Config, sees: Reads, at: nat, pr: ParseResult)
    modifies attrs
    ensures attrs.m == Apply(old(attrs.m), CrTable(cfg, sees, at, pr))
  {
    var r := LookupRoute(sees(at).state, ParsedKey(pr));
    if r.None? {
      return;
    }
    var s, ra := sees(at + 1).state, r.value;
    ApplyConcat(attrs.m, AttrsTable(cfg, s, ra), RuleNameTable(ra, pr.ruleIndex));
    StampRouteAttrs(attrs, cfg, s, ra);
    attrs.PutAll(RuleNameTable(ra, pr.ruleIndex));
  }

  method MaybeStripMetrics(attrs: AttrMap, cfg: Config, signal: Signal)
    modifies attrs
    ensures attrs.m == Stripped(cfg, signal, old(attrs.m))
  {
    if signal != Metrics {
      return;
    }
    for i := 0 to |cfg.excludedFromMetrics|
      invariant attrs.m == old(attrs.m) - set k | k in cfg.excludedFromMetrics[..i]
    {
      attrs.Remove(cfg.excludedFromMetrics[i]);
    }
    assert cfg.excludedFromMetrics[..|cfg.excludedFromMetrics|] == cfg.excludedFromMetrics;
  }

  method ApplyBackendRefFallback(env: Env, cfg: Config, sees: Reads, view: View, attrs: AttrMap, signal: Signal)
    modifies attrs
    ensures attrs.m ==
            match Scan(env.libs, view, sees, SourceKeys(cfg))
            case None => old(attrs.m)
            case Some(ra) =>
              Stripped(cfg, signal, Apply(old(attrs.m), FallbackTable(cfg, sees(READS_PER_KEY * |SourceKeys(cfg)|).state, ra)))
  {
    var keys := EffectiveSourceAttrs(cfg);
    var r := ScanSources(env.libs, view, sees, keys);
    if r.None? {
      return;
    }
    var ra, pr := r.value, Synthesized(r.value);
    var s := sees(READS_PER_KEY * |keys|).state;
    ApplyConcat(attrs.m, IdentityTable(pr), AttrsTable(cfg, s, ra));
    ApplyConcat(attrs.m, IdentityTable(pr) + AttrsTable(cfg, s, ra), [Entry(PARSER, Some(Str(FALLBACK_PARSER)))]);
    StampRouteIdentity(attrs, pr);
    StampRouteAttrs(attrs, cfg, s, ra);
    attrs.PutAll([Entry(PARSER, Some(Str(pr.parserName)))]);
    MaybeStripMetrics(attrs, cfg, signal);
  }

  /** The single enrichment path shared by all three signals. */
  method Enrich(env: Env, cfg: Config, sees: Reads, resource: Attrs, attrs: AttrMap, signal: Signal)
    modifies attrs
    ensures attrs.m == Enriched(env, cfg, sees, old(attrs.m), resource, signal)
  {
    var view := ViewOf(env, attrs.m, resource);
    var matched := env.parse(view);
    if matched.None? {
      if cfg.fallbackEnabled {
        ApplyBackendRefFallback(env, cfg, sees, view, attrs, signal);
      }
      return;
    }
    var pr := matched.value;
    ApplyConcat(attrs.m, ParserTable(cfg, pr), IdentityTable(pr));
    ApplyConcat(attrs.m, ParserTable(cfg, pr) + IdentityTable(pr), CrTable(cfg, sees, 0, pr));
    attrs.PutAll(ParserTable(cfg, pr));
    if pr.ns != "" && pr.name != "" {
      StampRouteIdentity(attrs, pr);
      StampCrMetadata(attrs, cfg, sees, 0, pr);
    }
    MaybeStripMetrics(attrs, cfg, signal);
  }
}
