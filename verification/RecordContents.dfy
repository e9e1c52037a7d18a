/** What an enriched record shows, read off the record's keys, on either path. */
module RecordContents {
  import opened Types
  import opened EnvoyRoute
  import opened Attributes
  import opened Resolution
  import opened Enrichment
  import opened EnrichmentLaws
  import opened StampReadBack
  import opened ParsedIdentity
  import opened SourceAddresses

  // ----- identity keys -----

  /** The record once a configured passthrough key has taken the raw route name, when there is one. */
  function Passed(cfg: Config, pr: ParseResult, m: Attrs): Attrs {
    if cfg.passthroughKey != "" && pr.rawRouteName != "" then m[cfg.passthroughKey := Str(pr.rawRouteName)] else m
  }

  /** Before the route is looked at, only the passthrough and the parser key are put. */
  lemma ParserReads(m: Attrs, cfg: Config, pr: ParseResult, k: string)
    requires k != PARSER
    ensures Get(Apply(m, ParserTable(cfg, pr)), k) == Get(Passed(cfg, pr, m), k)
  {
    var pass := if cfg.passthroughKey == "" || pr.rawRouteName == "" then [] else [TextEntry(cfg.passthroughKey, pr.rawRouteName)];
    var last := TextEntry(PARSER, pr.parserName);
    ApplyConcat(m, pass, [last]);
    if last.val.Some? {
      ApplyOne(Apply(m, pass), last);
    } else {
      assert [last][..0] == [];
    }
    if pass != [] {
      ApplyOne(m, pass[0]);
    }
  }

  /** Outside the identity table, nothing after the parser's own puts touches an identity key. */
  lemma IdentityKeyIsFree(cfg: Config, sees: Reads, pr: ParseResult, grpc: bool, f: string)
    requires f in IDENTITY_FIELDS
    ensures RouteAttr(grpc, f) !in KeysOf(CrTable(cfg, sees, 0, pr)) && RouteAttr(grpc, f) != PARSER
  {
    var k := RouteAttr(grpc, f);
    IdentityKeyIsNotMetadata(grpc, f);
    CrTableIsMetadata(cfg, sees, 0, pr);
    NotAmongMetadata(CrTable(cfg, sees, 0, pr), k);
    FieldIsRouteKey(grpc, f);
    KindKeysApart(grpc, k);
  }

  lemma FallbackKeyIsFree(cfg: Config, s: Snapshot, ra: RouteAttributes, grpc: bool, f: string)
    requires f in IDENTITY_FIELDS
    ensures var k := RouteAttr(grpc, f); k !in KeysOf(AttrsTable(cfg, s, ra)) && k != PARSER
  {
    var k := RouteAttr(grpc, f);
    IdentityKeyIsNotMetadata(grpc, f);
    AttrsAreMetadata(cfg, s, ra);
    NotAmongMetadata(AttrsTable(cfg, s, ra), k);
    FieldIsRouteKey(grpc, f);
    KindKeysApart(grpc, k);
  }

  /** The index a route of the given kind shows: an HTTPRoute's when there is one. */
  function ShownIndex(grpc: bool, index: int): Option<Value> {
    if grpc || index < 0 then None else Some(Int(index))
  }

  /** What an identity puts under an identity key of either kind. */
  function IdentityValue(grpc: bool, ns: string, name: string, ruleIndex: int, matchIndex: int, keyGrpc: bool, f: string): Option<Value> {
    if keyGrpc != grpc then None
    else if f == "name" then Some(Str(name))
    else if f == "namespace" then Some(Str(ns))
    else if f == "rule_index" then ShownIndex(grpc, ruleIndex)
    else if f == "match_index" then ShownIndex(grpc, matchIndex)
    else None
  }

  lemma FieldsDiffer()
    ensures |"name"| == 4 && |"namespace"| == 9 && |"rule_index"| == 10 && |"match_index"| == 11
  {
  }

  /** Under the keys of its own kind, the identity table puts exactly that. */
  lemma OwnIdentityReads(m: Attrs, pr: ParseResult, f: string)
    requires f in IDENTITY_FIELDS
    ensures var grpc := pr.kind == "GRPCRoute";
      var v := IdentityValue(grpc, pr.ns, pr.name, pr.ruleIndex, pr.matchIndex, grpc, f);
      Get(Apply(m, IdentityTable(pr)), RouteAttr(grpc, f)) == ValueOver(m, RouteAttr(grpc, f), v)
  {
    var grpc, t := pr.kind == "GRPCRoute", IdentityTable(pr);
    IdentityDistinct(pr);
    FieldsDiffer();
    if f == "name" {
      ApplyAt(m, t, 0);
    } else if f == "namespace" {
      ApplyAt(m, t, 1);
    } else if grpc {
      GrpcHasNoIndex(pr, f);
      ApplyIsMerge(m, t);
      AppliedKeys(t);
    } else {
      ApplyAt(m, t, if f == "rule_index" then 2 else 3);
    }
  }

  lemma GrpcHasNoIndex(pr: ParseResult, f: string)
    requires pr.kind == "GRPCRoute" && f in {"rule_index", "match_index"}
    ensures RouteAttr(true, f) !in KeysOf(IdentityTable(pr))
  {
    assert |RouteAttr(true, "name")| == 18 && |RouteAttr(true, "namespace")| == 23;
    assert |RouteAttr(true, "rule_index")| == 24 && |RouteAttr(true, "match_index")| == 25;
  }

  lemma OtherIdentityReads(m: Attrs, pr: ParseResult, f: string)
    requires f in IDENTITY_FIELDS
    ensures var k := RouteAttr(pr.kind != "GRPCRoute", f); Get(Apply(m, IdentityTable(pr)), k) == Get(m, k)
  {
    var grpc := pr.kind == "GRPCRoute";
    IdentityWithin(pr);
    FieldIsRouteKey(!grpc, f);
    KindKeysApart(!grpc, RouteAttr(!grpc, f));
    ApplyIsMerge(m, IdentityTable(pr));
    AppliedKeys(IdentityTable(pr));
  }

  lemma IdentityReads(m: Attrs, pr: ParseResult, grpc: bool, f: string)
    requires f in IDENTITY_FIELDS
    ensures var v := IdentityValue(pr.kind == "GRPCRoute", pr.ns, pr.name, pr.ruleIndex, pr.matchIndex, grpc, f);
      Get(Apply(m, IdentityTable(pr)), RouteAttr(grpc, f)) == ValueOver(m, RouteAttr(grpc, f), v)
  {
    if grpc == (pr.kind == "GRPCRoute") {
      OwnIdentityReads(m, pr, f);
    } else {
      OtherIdentityReads(m, pr, f);
    }
  }

  /** A key nothing later touches reads as the table before left it. */
  lemma ThenNothing(m: Attrs, before: seq<Entry>, t: seq<Entry>, after: seq<Entry>, k: string)
    requires k !in KeysOf(after)
    ensures Get(Apply(m, before + t + after), k) == Get(Apply(Apply(m, before), t), k)
  {
    ApplyConcat(m, before + t, after);
    ApplyIsMerge(Apply(m, before + t), after);
    AppliedKeys(after);
    ApplyConcat(m, before, t);
  }

  lemma ParsedIdentityReads(m: Attrs, cfg: Config, sees: Reads, pr: ParseResult, grpc: bool, f: string)
    requires pr.ns != "" && pr.name != "" && f in IDENTITY_FIELDS
    ensures var k := RouteAttr(grpc, f);
      var v := IdentityValue(pr.kind == "GRPCRoute", pr.ns, pr.name, pr.ruleIndex, pr.matchIndex, grpc, f);
      Get(Apply(m, ParsedTable(cfg, sees, 0, pr)), k) == ValueOver(Passed(cfg, pr, m), k, v)
  {
    var k := RouteAttr(grpc, f);
    IdentityKeyIsFree(cfg, sees, pr, grpc, f);
    ThenNothing(m, ParserTable(cfg, pr), IdentityTable(pr), CrTable(cfg, sees, 0, pr), k);
    IdentityReads(Apply(m, ParserTable(cfg, pr)), pr, grpc, f);
    ParserReads(m, cfg, pr, k);
  }

  /**
    Every record whose parser names a route shows that name and namespace under the
    keys of the parsed kind, an HTTPRoute's indices when it gives them, and gains
    nothing under any other identity key, unless that is the passthrough key.
   */
  lemma ParsedIdentityOnRecord(env: Env, cfg: Config, sees: Reads, record: Attrs, resource: Attrs, signal: Signal, pr: ParseResult, grpc: bool, f: string)
    requires env.parse(ViewOf(env, record, resource)) == Some(pr) && pr.ns != "" && pr.name != ""
    requires f in IDENTITY_FIELDS
    ensures var k := RouteAttr(grpc, f);
      var v := IdentityValue(pr.kind == "GRPCRoute", pr.ns, pr.name, pr.ruleIndex, pr.matchIndex, grpc, f);
      && (k in Added(env, cfg, sees, record, resource) <==> v.Some? || k in Passed(cfg, pr, map[]))
      && ReadsUnlessStripped(
           Enriched(env, cfg, sees, record, resource, signal), StrippedKeys(cfg, signal), k, ValueOver(Passed(cfg, pr, record), k, v))
  {
    ParsedIdentityReads(record, cfg, sees, pr, grpc, f);
    ParsedIdentityReads(map[], cfg, sees, pr, grpc, f);
    StampedWith(env, cfg, sees, record, resource, signal, ParsedTable(cfg, sees, 0, pr), RouteAttr(grpc, f));
  }

  /** And so does every record the fallback enriches, of the winning route, without any index. */
  lemma FallbackIdentityOnRecord(env: Env, cfg: Config, sees: Reads, record: Attrs, resource: Attrs, signal: Signal, ra: RouteAttributes, grpc: bool, f: string)
    requires env.parse(ViewOf(env, record, resource)) == None && cfg.fallbackEnabled
    requires Scan(env.libs, ViewOf(env, record, resource), sees, SourceKeys(cfg)) == Some(ra)
    requires f in IDENTITY_FIELDS
    ensures var k := RouteAttr(grpc, f);
      var v := IdentityValue(ra.kind == GRPCRoute, ra.ns, ra.name, -1, -1, grpc, f);
      && (k in Added(env, cfg, sees, record, resource) <==> v.Some?)
      && ReadsUnlessStripped(Enriched(env, cfg, sees, record, resource, signal), StrippedKeys(cfg, signal), k, ValueOver(record, k, v))
  {
    var s, k := sees(READS_PER_KEY * |SourceKeys(cfg)|).state, RouteAttr(grpc, f);
    FallbackIdentityReads(record, cfg, s, ra, grpc, f);
    FallbackIdentityReads(map[], cfg, s, ra, grpc, f);
    StampedWith(env, cfg, sees, record, resource, signal, FallbackTable(cfg, s, ra), k);
  }

  lemma FallbackIdentityReads(m: Attrs, cfg: Config, s: Snapshot, ra: RouteAttributes, grpc: bool, f: string)
    requires f in IDENTITY_FIELDS
    ensures var v := IdentityValue(ra.kind == GRPCRoute, ra.ns, ra.name, -1, -1, grpc, f);
      Get(Apply(m, FallbackTable(cfg, s, ra)), RouteAttr(grpc, f)) == ValueOver(m, RouteAttr(grpc, f), v)
  {
    var last := [Entry(PARSER, Some(Str(FALLBACK_PARSER)))];
    SynthesizedKind(ra);
    FallbackKeyIsFree(cfg, s, ra, grpc, f);
    AfterOnly(m, IdentityTable(Synthesized(ra)), AttrsTable(cfg, s, ra), last, RouteAttr(grpc, f));
    IdentityReads(m, Synthesized(ra), grpc, f);
  }

  lemma AfterOnly(m: Attrs, t: seq<Entry>, after: seq<Entry>, last: seq<Entry>, k: string)
    requires k !in KeysOf(after) && k !in KeysOf(last)
    ensures Get(Apply(m, t + after + last), k) == Get(Apply(m, t), k)
  {
    ApplyConcat(m, t + after, last);
    ApplyIsMerge(Apply(m, t + after), last);
    AppliedKeys(last);
    ApplyConcat(m, t, after);
    ApplyIsMerge(Apply(m, t), after);
    AppliedKeys(after);
  }

  lemma SynthesizedKind(ra: RouteAttributes)
    ensures Synthesized(ra).kind == "GRPCRoute" <==> ra.kind == GRPCRoute
  {
    KindsDiffer();
  }

  // ----- the route's own attributes -----

  /** `after` agrees with `shown`, and `before` with `base`, on every key a route's attributes use whatever its kind. */
  ghost predicate SameInfo(after: Attrs, shown: Attrs, before: Attrs, base: Attrs) {
    forall k | k in ROUTE_INFO_KEYS :: Get(after, k) == Get(shown, k) && Get(before, k) == Get(base, k)
  }

  lemma ShownAlike(after: Attrs, shown: Attrs, before: Attrs, base: Attrs, ra: RouteAttributes)
    requires SameInfo(after, shown, before, base)
    ensures ShowsGateway(shown, base, ra) ==> ShowsGateway(after, before, ra)
    ensures ShowsMesh(shown, base, ra) ==> ShowsMesh(after, before, ra)
    ensures PoliciesAt(after) == PoliciesAt(shown) && Get(after, POLICY_TARGET_KIND) == Get(shown, POLICY_TARGET_KIND)
  {
    SameAt(after, shown, before, base, INGRESS_KEYS);
    SameAt(after, shown, before, base, MESH_KEYS);
    SameAt(after, shown, before, base, POLICY_KEYS);
  }

  lemma SameAt(after: Attrs, shown: Attrs, before: Attrs, base: Attrs, keys: set<string>)
    requires SameInfo(after, shown, before, base) && keys <= ROUTE_INFO_KEYS
    ensures forall k | k in keys :: Get(after, k) == Get(shown, k) && Get(before, k) == Get(base, k)
    ensures forall k | k in keys :: ColumnAt(after, k) == ColumnAt(shown, k)
  {
    forall k | k in keys ensures ColumnAt(after, k) == ColumnAt(shown, k) {
      assert Get(after, k) == Get(shown, k);
    }
  }

  /** The same of a shown waypoint. */
  ghost predicate ShowsWaypoint(after: Attrs, before: Attrs, s: Snapshot, ra: RouteAttributes) {
    match StampedWaypoint(s, ra)
    case None => forall k | k in WAYPOINT_KEYS :: Get(after, k) == Get(before, k)
    case Some(w) =>
      && Get(after, WAYPOINT_IMPLEMENTATION) == Some(Str(w.implementation))
      && Get(after, WAYPOINT_NAME) == TextOver(before, WAYPOINT_NAME, w.name)
      && Get(after, WAYPOINT_NAMESPACE) == TextOver(before, WAYPOINT_NAMESPACE, w.ns)
  }

  /** `after` shows the attributes of `ra` over what `before` held. */
  ghost predicate ShowsRoute(after: Attrs, before: Attrs, s: Snapshot, ra: RouteAttributes) {
    && ShowsGateway(after, before, ra)
    && ShowsMesh(after, before, ra)
    && ShowsWaypoint(after, before, s, ra)
    && (ra.policies != [] ==>
          PoliciesAt(after) == ra.policies &&
          Get(after, POLICY_TARGET_KIND) == Some(Str(if ra.kind == GRPCRoute then "GRPCRoute" else "HTTPRoute")))
  }

  lemma StampShowsRoute(m: Attrs, cfg: Config, s: Snapshot, ra: RouteAttributes)
    ensures ShowsRoute(Apply(m, AttrsTable(cfg, s, ra)), m, s, ra)
  {
    GatewayReadsBack(m, cfg, s, ra);
    MeshReadsBack(m, cfg, s, ra);
    WaypointReadsBack(m, cfg, s, ra);
    PoliciesReadBack(m, cfg, s, ra);
  }

  lemma RouteShownAlike(after: Attrs, shown: Attrs, before: Attrs, base: Attrs, s: Snapshot, ra: RouteAttributes)
    requires SameInfo(after, shown, before, base) && ShowsRoute(shown, base, s, ra)
    ensures ShowsRoute(after, before, s, ra)
  {
    ShownAlike(after, shown, before, base, ra);
    SameAt(after, shown, before, base, MESH_KEYS);
  }

  lemma InfoKeyIsFree(pr: ParseResult, k: string)
    requires k in ROUTE_INFO_KEYS
    ensures k != PARSER && k !in KeysOf(IdentityTable(pr))
    ensures forall grpc, f | f in ROUTE_FIELDS :: k != RouteAttr(grpc, f)
  {
    SharedKeysShape(k);
    forall grpc, f | f in ROUTE_FIELDS ensures k != RouteAttr(grpc, f) {
      FieldIsRouteKey(grpc, f);
      KindKeysApart(grpc, RouteAttr(grpc, f));
    }
    IdentityWithin(pr);
    if k in KeysOf(IdentityTable(pr)) {
      KindKeysApart(pr.kind == "GRPCRoute", k);
    }
  }

  lemma NotPut(m: Attrs, t: seq<Entry>, k: string)
    requires k !in KeysOf(t)
    ensures Get(Apply(m, t), k) == Get(m, k)
  {
    ApplyIsMerge(m, t);
    AppliedKeys(t);
  }

  /** A parsed route found in the index is shown on the record, over what the record held. */
  lemma ParsedRouteReads(m: Attrs, cfg: Config, sees: Reads, pr: ParseResult, ra: RouteAttributes)
    requires pr.ns != "" && pr.name != ""
    requires LookupRoute(sees(0).state, RouteKey(pr.kind == "GRPCRoute", pr.ns, pr.name)) == Some(ra)
    ensures ShowsRoute(Apply(m, ParsedTable(cfg, sees, 0, pr)), Passed(cfg, pr, m), sees(1).state, ra)
  {
    var s, id, rule := sees(1).state, ParserTable(cfg, pr) + IdentityTable(pr), RuleNameTable(ra, pr.ruleIndex);
    var attrs := AttrsTable(cfg, s, ra);
    assert ParsedTable(cfg, sees, 0, pr) == id + attrs + rule;
    StampShowsRoute(Apply(m, id), cfg, s, ra);
    forall k | k in ROUTE_INFO_KEYS
      ensures Get(Apply(m, id + attrs + rule), k) == Get(Apply(Apply(m, id), attrs), k)
      ensures Get(Passed(cfg, pr, m), k) == Get(Apply(m, id), k)
    {
      InfoKeyIsFree(pr, k);
      ThenNothing(m, id, attrs, rule, k);
      ApplyConcat(m, ParserTable(cfg, pr), IdentityTable(pr));
      NotPut(Apply(m, ParserTable(cfg, pr)), IdentityTable(pr), k);
      ParserReads(m, cfg, pr, k);
    }
    RouteShownAlike(Apply(m, id + attrs + rule), Apply(Apply(m, id), attrs), Passed(cfg, pr, m), Apply(m, id), s, ra);
  }

  /** So is the fallback's winner. */
  lemma FallbackRouteReads(m: Attrs, cfg: Config, s: Snapshot, ra: RouteAttributes)
    ensures ShowsRoute(Apply(m, FallbackTable(cfg, s, ra)), m, s, ra)
  {
    var pr, attrs, last := Synthesized(ra), AttrsTable(cfg, s, ra), [Entry(PARSER, Some(Str(FALLBACK_PARSER)))];
    var id := IdentityTable(pr);
    StampShowsRoute(Apply(m, id), cfg, s, ra);
    forall k | k in ROUTE_INFO_KEYS
      ensures Get(Apply(m, id + attrs + last), k) == Get(Apply(Apply(m, id), attrs), k)
      ensures Get(m, k) == Get(Apply(m, id), k)
    {
      InfoKeyIsFree(pr, k);
      ThenNothing(m, id, attrs, last, k);
      NotPut(m, id, k);
    }
    RouteShownAlike(Apply(m, id + attrs + last), Apply(Apply(m, id), attrs), m, Apply(m, id), s, ra);
  }

  lemma RuleTable(cfg: Config, sees: Reads, pr: ParseResult, ra: RouteAttributes) returns (front: seq<Entry>)
    requires pr.ns != "" && pr.name != ""
    requires LookupRoute(sees(0).state, RouteKey(pr.kind == "GRPCRoute", pr.ns, pr.name)) == Some(ra)
    requires 0 <= pr.ruleIndex < |ra.ruleNames|
    ensures ParsedTable(cfg, sees, 0, pr) == front + [TextEntry(RouteAttr(ra.kind == GRPCRoute, "rule.name"), ra.ruleNames[pr.ruleIndex])]
  {
    front := ParserTable(cfg, pr) + IdentityTable(pr) + AttrsTable(cfg, sees(1).state, ra);
  }

  lemma LastReads(m: Attrs, front: seq<Entry>, e: Entry)
    requires e.val.Some?
    ensures Get(Apply(m, front + [e]), e.key) == e.val
  {
    ApplyConcat(m, front, [e]);
    ApplyOne(Apply(m, front), e);
  }

  /** The matched rule's name is stamped by position, over anything else. */
  lemma RuleNameOnRecord(env: Env, cfg: Config, sees: Reads, record: Attrs, resource: Attrs, signal: Signal, pr: ParseResult, ra: RouteAttributes)
    requires env.parse(ViewOf(env, record, resource)) == Some(pr) && pr.ns != "" && pr.name != ""
    requires LookupRoute(sees(0).state, RouteKey(pr.kind == "GRPCRoute", pr.ns, pr.name)) == Some(ra)
    requires 0 <= pr.ruleIndex < |ra.ruleNames| && ra.ruleNames[pr.ruleIndex] != ""
    ensures ReadsUnlessStripped(
              Enriched(env, cfg, sees, record, resource, signal), StrippedKeys(cfg, signal),
              RouteAttr(ra.kind == GRPCRoute, "rule.name"), Some(Str(ra.ruleNames[pr.ruleIndex])))
  {
    var front := RuleTable(cfg, sees, pr, ra);
    var e := TextEntry(RouteAttr(ra.kind == GRPCRoute, "rule.name"), ra.ruleNames[pr.ruleIndex]);
    LastReads(record, front, e);
    StampedWith(env, cfg, sees, record, resource, signal, front + [e], e.key);
  }

  // ----- the route's own attributes under the keys of its kind -----

  /** `after` shows the kind-specific attributes of `ra` over what `before` held. */
  ghost predicate ShowsOwn(after: Attrs, before: Attrs, cfg: Config, ra: RouteAttributes) {
    var grpc := ra.kind == GRPCRoute;
    && Get(after, RouteAttr(grpc, "uid")) == TextOver(before, RouteAttr(grpc, "uid"), ra.uid)
    && Get(after, RouteAttr(grpc, "parent_ref")) == TextOver(before, RouteAttr(grpc, "parent_ref"), ra.parentRef)
    && Get(after, RouteAttr(grpc, "parent.kind")) == TextOver(before, RouteAttr(grpc, "parent.kind"), ra.parentKind)
    && Get(after, RouteAttr(grpc, "accepted")) == FlagOver(before, RouteAttr(grpc, "accepted"), cfg, ra.accepted)
    && Get(after, RouteAttr(grpc, "resolved_refs")) == FlagOver(before, RouteAttr(grpc, "resolved_refs"), cfg, ra.resolvedRefs)
  }

  const OWN_FIELDS := {"uid", "parent_ref", "parent.kind", "accepted", "resolved_refs"}

  lemma OwnKeyIsFree(pr: ParseResult, ra: RouteAttributes, f: string)
    requires f in OWN_FIELDS
    ensures var k := RouteAttr(ra.kind == GRPCRoute, f);
      k != PARSER && k !in KeysOf(IdentityTable(pr)) && k !in KeysOf(RuleNameTable(ra, pr.ruleIndex))
  {
    var grpc := ra.kind == GRPCRoute;
    var k := RouteAttr(grpc, f);
    FieldIsRouteKey(grpc, f);
    KindKeysApart(grpc, k);
    NotAnIdentityKey(pr, grpc, f);
    OwnLengths(grpc, f);
    assert |RouteAttr(grpc, "rule.name")| == 23;
  }

  lemma OwnLengths(grpc: bool, f: string)
    requires f in OWN_FIELDS
    ensures |RouteAttr(grpc, f)| != 23
  {
  }

  lemma NotAnIdentityKey(pr: ParseResult, grpc: bool, f: string)
    requires f in OWN_FIELDS
    ensures RouteAttr(grpc, f) !in KeysOf(IdentityTable(pr))
  {
    assert IsMetadataKey(RouteAttr(grpc, f));
    IdentityKeyIsNotMetadata(pr.kind == "GRPCRoute", "name");
    IdentityKeyIsNotMetadata(pr.kind == "GRPCRoute", "namespace");
    IdentityKeyIsNotMetadata(pr.kind == "GRPCRoute", "rule_index");
    IdentityKeyIsNotMetadata(pr.kind == "GRPCRoute", "match_index");
  }

  lemma OwnShownAlike(after: Attrs, shown: Attrs, before: Attrs, base: Attrs, cfg: Config, ra: RouteAttributes)
    requires ShowsOwn(shown, base, cfg, ra)
    requires forall f | f in OWN_FIELDS ::
               var k := RouteAttr(ra.kind == GRPCRoute, f); Get(after, k) == Get(shown, k) && Get(before, k) == Get(base, k)
    ensures ShowsOwn(after, before, cfg, ra)
  {
  }

  lemma ParsedOwnReads(m: Attrs, cfg: Config, sees: Reads, pr: ParseResult, ra: RouteAttributes)
    requires pr.ns != "" && pr.name != ""
    requires LookupRoute(sees(0).state, RouteKey(pr.kind == "GRPCRoute", pr.ns, pr.name)) == Some(ra)
    ensures ShowsOwn(Apply(m, ParsedTable(cfg, sees, 0, pr)), Passed(cfg, pr, m), cfg, ra)
  {
    var id, rule := ParserTable(cfg, pr) + IdentityTable(pr), RuleNameTable(ra, pr.ruleIndex);
    var attrs := AttrsTable(cfg, sees(1).state, ra);
    assert ParsedTable(cfg, sees, 0, pr) == id + attrs + rule;
    IdentityReadsBack(Apply(m, id), cfg, sees(1).state, ra);
    StatusReadsBack(Apply(m, id), cfg, sees(1).state, ra);
    forall f | f in OWN_FIELDS
      ensures var k := RouteAttr(ra.kind == GRPCRoute, f);
        Get(Apply(m, id + attrs + rule), k) == Get(Apply(Apply(m, id), attrs), k) && Get(Passed(cfg, pr, m), k) == Get(Apply(m, id), k)
    {
      var k := RouteAttr(ra.kind == GRPCRoute, f);
      OwnKeyIsFree(pr, ra, f);
      ThenNothing(m, id, attrs, rule, k);
      ApplyConcat(m, ParserTable(cfg, pr), IdentityTable(pr));
      NotPut(Apply(m, ParserTable(cfg, pr)), IdentityTable(pr), k);
      ParserReads(m, cfg, pr, k);
    }
    OwnShownAlike(Apply(m, id + attrs + rule), Apply(Apply(m, id), attrs), Passed(cfg, pr, m), Apply(m, id), cfg, ra);
  }

  lemma FallbackOwnReads(m: Attrs, cfg: Config, s: Snapshot, ra: RouteAttributes)
    ensures ShowsOwn(Apply(m, FallbackTable(cfg, s, ra)), m, cfg, ra)
  {
    var pr, attrs, last := Synthesized(ra), AttrsTable(cfg, s, ra), [Entry(PARSER, Some(Str(FALLBACK_PARSER)))];
    var id := IdentityTable(pr);
    IdentityReadsBack(Apply(m, id), cfg, s, ra);
    StatusReadsBack(Apply(m, id), cfg, s, ra);
    forall f | f in OWN_FIELDS
      ensures var k := RouteAttr(ra.kind == GRPCRoute, f);
        Get(Apply(m, id + attrs + last), k) == Get(Apply(Apply(m, id), attrs), k) && Get(m, k) == Get(Apply(m, id), k)
    {
      var k := RouteAttr(ra.kind == GRPCRoute, f);
      OwnKeyIsFree(pr, ra, f);
      ThenNothing(m, id, attrs, last, k);
      NotPut(m, id, k);
    }
    OwnShownAlike(Apply(m, id + attrs + last), Apply(Apply(m, id), attrs), m, Apply(m, id), cfg, ra);
  }

  /**
    End to end, on traces and logs: a record whose parser names a stored route shows
    that route's attributes, and a fallback record the winner's. On metrics the
    excluded keys are missing: `MetricsLoseExcluded`.
   */
  lemma RouteOnRecord(env: Env, cfg: Config, sees: Reads, record: Attrs, resource: Attrs, pr: ParseResult, ra: RouteAttributes)
    requires env.parse(ViewOf(env, record, resource)) == Some(pr) && pr.ns != "" && pr.name != ""
    requires LookupRoute(sees(0).state, RouteKey(pr.kind == "GRPCRoute", pr.ns, pr.name)) == Some(ra)
    ensures ShowsRoute(Enriched(env, cfg, sees, record, resource, Traces), Passed(cfg, pr, record), sees(1).state, ra)
    ensures ShowsOwn(Enriched(env, cfg, sees, record, resource, Traces), Passed(cfg, pr, record), cfg, ra)
  {
    TracesKeepAll(env, cfg, sees, record, resource, ParsedTable(cfg, sees, 0, pr));
    ParsedRouteReads(record, cfg, sees, pr, ra);
    ParsedOwnReads(record, cfg, sees, pr, ra);
  }

  lemma WinnerOnRecord(env: Env, cfg: Config, sees: Reads, record: Attrs, resource: Attrs, ra: RouteAttributes)
    requires env.parse(ViewOf(env, record, resource)) == None && cfg.fallbackEnabled
    requires Scan(env.libs, ViewOf(env, record, resource), sees, SourceKeys(cfg)) == Some(ra)
    ensures ShowsRoute(Enriched(env, cfg, sees, record, resource, Traces), record, sees(READS_PER_KEY * |SourceKeys(cfg)|).state, ra)
    ensures ShowsOwn(Enriched(env, cfg, sees, record, resource, Traces), record, cfg, ra)
  {
    var s := sees(READS_PER_KEY * |SourceKeys(cfg)|).state;
    TracesKeepAll(env, cfg, sees, record, resource, FallbackTable(cfg, s, ra));
    FallbackRouteReads(record, cfg, s, ra);
    FallbackOwnReads(record, cfg, s, ra);
  }

  lemma TracesKeepAll(env: Env, cfg: Config, sees: Reads, record: Attrs, resource: Attrs, t: seq<Entry>)
    requires RecordTable(env, cfg, sees, ViewOf(env, record, resource)) == Some(t)
    ensures Enriched(env, cfg, sees, record, resource, Traces) == Apply(record, t)
  {
  }

  // ----- what the configuration decides -----

  /** Where record and resource both have an attribute, only the record's counts. */
  lemma RecordShadowsResource(env: Env, cfg: Config, sees: Reads, record: Attrs, resource: Attrs, signal: Signal, k: string, v: Value)
    requires k in record
    ensures Enriched(env, cfg, sees, record, resource[k := v], signal) == Enriched(env, cfg, sees, record, resource, signal)
  {
    assert ViewOf(env, record, resource[k := v]) == ViewOf(env, record, resource);
  }

  /** And a resource attribute the record lacks counts as if the record had it, for what gets stamped. */
  lemma ResourceIsRead(env: Env, cfg: Config, sees: Reads, record: Attrs, resource: Attrs, k: string)
    requires k in resource && k !in record
    ensures Added(env, cfg, sees, record, resource) == Added(env, cfg, sees, record[k := resource[k]], resource)
  {
    assert ViewOf(env, record[k := resource[k]], resource) == ViewOf(env, record, resource);
  }

  /** Text reaches the parsers and the decoder as it is. */
  lemma TextIsRead(env: Env, record: Attrs, resource: Attrs, k: string, s: string)
    requires Get(record, k) == Some(Str(s)) || (k !in record && Get(resource, k) == Some(Str(s)))
    ensures Get(ViewOf(env, record, resource), k) == Some(s)
  {
  }

  /** Without a parsed route, a record is left alone when the fallback is off or settles on nothing. */
  lemma NothingMatches(env: Env, cfg: Config, sees: Reads, record: Attrs, resource: Attrs, signal: Signal)
    requires env.parse(ViewOf(env, record, resource)) == None
    requires !cfg.fallbackEnabled || Scan(env.libs, ViewOf(env, record, resource), sees, SourceKeys(cfg)) == None
    ensures Enriched(env, cfg, sees, record, resource, signal) == record
  {
  }

  /** A matched metric record lacks exactly the configured keys. */
  lemma MetricsLoseExcluded(env: Env, cfg: Config, sees: Reads, record: Attrs, resource: Attrs, k: string)
    requires var view := ViewOf(env, record, resource);
      env.parse(view).Some? || (cfg.fallbackEnabled && Scan(env.libs, view, sees, SourceKeys(cfg)).Some?)
    ensures Get(Enriched(env, cfg, sees, record, resource, Metrics), k) ==
            if k in cfg.excludedFromMetrics then None else Get(Enriched(env, cfg, sees, record, resource, Traces), k)
  {
  }

  /** A parsed result without namespace or name stamps the raw name and the parser, and stops there. */
  lemma PassthroughStops(env: Env, cfg: Config, sees: Reads, record: Attrs, resource: Attrs, signal: Signal, pr: ParseResult, k: string)
    requires env.parse(ViewOf(env, record, resource)) == Some(pr) && (pr.ns == "" || pr.name == "")
    ensures k != PARSER ==>
              ReadsUnlessStripped(Enriched(env, cfg, sees, record, resource, signal), StrippedKeys(cfg, signal), k, Get(Passed(cfg, pr, record), k))
  {
    if k != PARSER {
      ParserReads(record, cfg, pr, k);
    }
  }

  lemma ParserIsNamed(m: Attrs, cfg: Config, sees: Reads, pr: ParseResult)
    ensures Get(Apply(m, ParsedTable(cfg, sees, 0, pr)), PARSER) ==
            if pr.parserName != "" then Some(Str(pr.parserName)) else Get(Passed(cfg, pr, m), PARSER)
  {
    ParserKeyReads(m, cfg, pr);
    if pr.ns != "" && pr.name != "" {
      ParserNotInIdentity(pr);
      ParserNotInCr(cfg, sees, pr);
      ApplyConcat(m, ParserTable(cfg, pr), IdentityTable(pr));
      ThenNothing(m, ParserTable(cfg, pr), IdentityTable(pr), CrTable(cfg, sees, 0, pr), PARSER);
      NotPut(Apply(m, ParserTable(cfg, pr)), IdentityTable(pr), PARSER);
    }
  }

  lemma ParserKeyReads(m: Attrs, cfg: Config, pr: ParseResult)
    ensures Get(Apply(m, ParserTable(cfg, pr)), PARSER) ==
            if pr.parserName != "" then Some(Str(pr.parserName)) else Get(Passed(cfg, pr, m), PARSER)
  {
    var pass := if cfg.passthroughKey == "" || pr.rawRouteName == "" then [] else [TextEntry(cfg.passthroughKey, pr.rawRouteName)];
    var last := TextEntry(PARSER, pr.parserName);
    ApplyConcat(m, pass, [last]);
    if last.val.Some? {
      ApplyOne(Apply(m, pass), last);
    } else {
      assert [last][..0] == [];
    }
    if pass != [] {
      ApplyOne(m, pass[0]);
    }
  }

  lemma ParserNotInIdentity(pr: ParseResult)
    ensures PARSER !in KeysOf(IdentityTable(pr))
  {
    IdentityWithin(pr);
    ParserKeyFree(pr.kind == "GRPCRoute");
  }

  lemma ParserNotInCr(cfg: Config, sees: Reads, pr: ParseResult)
    ensures PARSER !in KeysOf(CrTable(cfg, sees, 0, pr))
  {
    var r := LookupRoute(sees(0).state, ParsedKey(pr));
    if r.Some? {
      AttrsWithin(cfg, sees(1).state, r.value);
      FieldIsRouteKey(IsGrpc(r.value), "rule.name");
      ParserKeyFree(IsGrpc(r.value));
    }
  }

  lemma FallbackIsNamed(m: Attrs, cfg: Config, s: Snapshot, ra: RouteAttributes)
    ensures Get(Apply(m, FallbackTable(cfg, s, ra)), PARSER) == Some(Str("backendref_fallback"))
  {
    var front, e := IdentityTable(Synthesized(ra)) + AttrsTable(cfg, s, ra), Entry(PARSER, Some(Str(FALLBACK_PARSER)));
    ApplyConcat(m, front, [e]);
    ApplyOne(Apply(m, front), e);
  }

  /** The parser is named on every matched record, the fallback as one, unless the signal strips the key. */
  lemma ParserOnRecord(env: Env, cfg: Config, sees: Reads, record: Attrs, resource: Attrs, signal: Signal)
    requires RecordTable(env, cfg, sees, ViewOf(env, record, resource)).Some?
    ensures ReadsUnlessStripped(
              Enriched(env, cfg, sees, record, resource, signal), StrippedKeys(cfg, signal), PARSER,
              match env.parse(ViewOf(env, record, resource))
              case Some(pr) => if pr.parserName != "" then Some(Str(pr.parserName)) else Get(Passed(cfg, pr, record), PARSER)
              case None => Some(Str("backendref_fallback")))
  {
    var t := RecordTable(env, cfg, sees, ViewOf(env, record, resource)).value;
    match env.parse(ViewOf(env, record, resource)) {
      case Some(pr) => ParserIsNamed(record, cfg, sees, pr);
      case None =>
        var ra := Scan(env.libs, ViewOf(env, record, resource), sees, SourceKeys(cfg)).value;
        FallbackIsNamed(record, cfg, sees(READS_PER_KEY * |SourceKeys(cfg)|).state, ra);
    }
    StampedWith(env, cfg, sees, record, resource, signal, t, PARSER);
  }

  // ----- an address, from the attribute to the stamp -----

  /** No source attribute before the `i`-th leads anywhere. */
  ghost predicate FirstToLead(env: Env, cfg: Config, sees: Reads, view: View, i: nat) {
    forall j: nat, n, ra | j < i :: !Leads(env.libs, view, sees, SourceKeys(cfg), j, n, ra)
  }

  /**
    A ClusterIP in a source attribute: when its Service resolves to a route, and no
    earlier attribute leads anywhere, the record shows that route, however the
    literal is spelled.
   */
  lemma AddressIsStamped(env: Env, cfg: Config, sees: Reads, record: Attrs, resource: Attrs, signal: Signal,
                         i: nat, lit: string, ip: string, n: NsName, ra: RouteAttributes)
    requires env.parse(ViewOf(env, record, resource)) == None && cfg.fallbackEnabled
    requires var view, keys := ViewOf(env, record, resource), SourceKeys(cfg);
      && i < |keys| && keys[i] != "http.url" && keys[i] != "url.full"
      && keys[i] in view && SpellsLiteral(view[keys[i]], lit) && lit != "" && env.libs.canon(lit) == Some(ip)
      && FirstToLead(env, cfg, sees, view, i)
    requires AddressOf(sees(READS_PER_KEY * i).state, sees(READS_PER_KEY * i + 1).state, ip, n)
    requires Resolve(ViewOf(env, record, resource), sees(READS_PER_KEY * i + 2), sees(READS_PER_KEY * i + 3), n) == Some(ra)
    ensures Scan(env.libs, ViewOf(env, record, resource), sees, SourceKeys(cfg)) == Some(ra)
    ensures var after, stripped := Enriched(env, cfg, sees, record, resource, signal), StrippedKeys(cfg, signal);
      && ReadsUnlessStripped(after, stripped, RouteAttr(ra.kind == GRPCRoute, "name"), Some(Str(ra.name)))
      && ReadsUnlessStripped(after, stripped, RouteAttr(ra.kind == GRPCRoute, "namespace"), Some(Str(ra.ns)))
  {
    var view, keys := ViewOf(env, record, resource), SourceKeys(cfg);
    LiteralLeadsToHolder(env.libs, view, sees, keys, i, lit, ip, n, ra);
    assert FirstLeads(env.libs, view, sees, keys, i, n, ra);
    ScanIff(env.libs, view, sees, keys, ra);
    FieldsDiffer();
    FallbackIdentityOnRecord(env, cfg, sees, record, resource, signal, ra, ra.kind == GRPCRoute, "name");
    FallbackIdentityOnRecord(env, cfg, sees, record, resource, signal, ra, ra.kind == GRPCRoute, "namespace");
  }
}
