/** What enrichment guarantees across calls, signals and paths. */
module EnrichmentLaws {
  import opened Types
  import opened RouteIndex
  import opened EnvoyRoute
  import opened Attributes
  import opened Resolution
  import opened Enrichment

  // ----- which keys are stamped -----

  ghost predicate Within(t: seq<Entry>, keys: set<string>) {
    forall e | e in t :: e.key in keys
  }

  /** The keys one kind of route can stamp. */
  function KindKeys(cfg: Config, grpc: bool): set<string> {
    RouteKeys(grpc) + SHARED_KEYS + if cfg.passthroughKey == "" then {} else {cfg.passthroughKey}
  }

  function StampedKeys(cfg: Config): set<string> {
    KindKeys(cfg, false) + KindKeys(cfg, true)
  }

  lemma FieldIsRouteKey(grpc: bool, field: string)
    requires field in ROUTE_FIELDS
    ensures RouteAttr(grpc, field) in RouteKeys(grpc)
  {
  }

  lemma IdentityWithin(pr: ParseResult)
    ensures Within(IdentityTable(pr), RouteKeys(pr.kind == "GRPCRoute"))
  {
    var grpc := pr.kind == "GRPCRoute";
    FieldIsRouteKey(grpc, "name");
    FieldIsRouteKey(grpc, "namespace");
    FieldIsRouteKey(grpc, "rule_index");
    FieldIsRouteKey(grpc, "match_index");
  }

  lemma CrIdentityWithin(ra: RouteAttributes)
    ensures Within(CrIdentityTable(ra), RouteKeys(IsGrpc(ra)))
  {
    FieldIsRouteKey(IsGrpc(ra), "uid");
    FieldIsRouteKey(IsGrpc(ra), "parent_ref");
    FieldIsRouteKey(IsGrpc(ra), "parent.kind");
  }

  lemma StatusWithin(cfg: Config, ra: RouteAttributes)
    ensures Within(StatusTable(cfg, ra), RouteKeys(IsGrpc(ra)))
  {
    FieldIsRouteKey(IsGrpc(ra), "accepted");
    FieldIsRouteKey(IsGrpc(ra), "resolved_refs");
  }

  lemma InfoWithin(s: Snapshot, ra: RouteAttributes)
    ensures Within(GatewayTable(ra), INGRESS_KEYS) && Within(MeshTable(ra), MESH_KEYS)
    ensures Within(WaypointTable(s, ra), MESH_KEYS) && Within(PoliciesTable(ra), POLICY_KEYS)
  {
  }

  /** A route's attributes only use its own kind's keys and the shared ones other than the parser key. */
  lemma AttrsWithin(cfg: Config, s: Snapshot, ra: RouteAttributes)
    ensures Within(AttrsTable(cfg, s, ra), RouteKeys(IsGrpc(ra)) + ROUTE_INFO_KEYS)
  {
    CrIdentityWithin(ra);
    StatusWithin(cfg, ra);
    InfoWithin(s, ra);
  }

  lemma FallbackWithin(cfg: Config, s: Snapshot, ra: RouteAttributes)
    ensures Within(FallbackTable(cfg, s, ra), KindKeys(cfg, IsGrpc(ra)))
  {
    IdentityWithin(Synthesized(ra));
    AttrsWithin(cfg, s, ra);
  }

  lemma ParserWithin(cfg: Config, pr: ParseResult, grpc: bool)
    ensures Within(ParserTable(cfg, pr), KindKeys(cfg, grpc))
  {
  }

  /** Without assuming anything of the index, everything stamped is a stamped key. */
  lemma ParsedWithinStamped(cfg: Config, sees: Reads, pr: ParseResult)
    ensures Within(ParsedTable(cfg, sees, 0, pr), StampedKeys(cfg))
  {
    ParserWithin(cfg, pr, false);
    IdentityWithin(pr);
    var r := LookupRoute(sees(0).state, ParsedKey(pr));
    if r.Some? {
      AttrsWithin(cfg, sees(1).state, r.value);
      FieldIsRouteKey(IsGrpc(r.value), "rule.name");
    }
  }

  lemma RecordWithinStamped(env: Env, cfg: Config, sees: Reads, view: View)
    ensures RecordTable(env, cfg, sees, view).Some? ==> Within(RecordTable(env, cfg, sees, view).value, StampedKeys(cfg))
  {
    match env.parse(view)
    case Some(pr) => ParsedWithinStamped(cfg, sees, pr);
    case None =>
      var r := Scan(env.libs, view, sees, SourceKeys(cfg));
      if r.Some? {
        FallbackWithin(cfg, sees(READS_PER_KEY * |SourceKeys(cfg)|).state, r.value);
      }
  }

  // ----- one route kind per record -----

  /** On a well-keyed index, the CR metadata of a parsed identity is of the parsed kind. */
  lemma CrWithinKind(cfg: Config, sees: Reads, pr: ParseResult)
    requires Sane(sees)
    ensures Within(CrTable(cfg, sees, 0, pr), RouteKeys(pr.kind == "GRPCRoute") + ROUTE_INFO_KEYS)
  {
    var r := LookupRoute(sees(0).state, ParsedKey(pr));
    if r.Some? {
      LatestIsWellKeyed(sees(0).state.routes, ParsedKey(pr));
      AttrsWithin(cfg, sees(1).state, r.value);
      FieldIsRouteKey(IsGrpc(r.value), "rule.name");
    }
  }

  lemma ParsedWithinKind(cfg: Config, sees: Reads, pr: ParseResult)
    requires Sane(sees)
    ensures Within(ParsedTable(cfg, sees, 0, pr), KindKeys(cfg, pr.kind == "GRPCRoute"))
  {
    ParserWithin(cfg, pr, pr.kind == "GRPCRoute");
    IdentityWithin(pr);
    CrWithinKind(cfg, sees, pr);
  }

  /** Every record is stamped as one kind of route. */
  lemma RecordWithinKind(env: Env, cfg: Config, sees: Reads, view: View) returns (grpc: bool)
    requires Sane(sees) && RecordTable(env, cfg, sees, view).Some?
    ensures Within(RecordTable(env, cfg, sees, view).value, KindKeys(cfg, grpc))
  {
    match env.parse(view) {
      case Some(pr) =>
        grpc := pr.kind == "GRPCRoute";
        ParsedWithinKind(cfg, sees, pr);
      case None =>
        var ra := Scan(env.libs, view, sees, SourceKeys(cfg)).value;
        grpc := IsGrpc(ra);
        FallbackWithin(cfg, sees(READS_PER_KEY * |SourceKeys(cfg)|).state, ra);
    }
  }

  /** The keys enrichment writes into the record. */
  function Added(env: Env, cfg: Config, sees: Reads, record: Attrs, resource: Attrs): set<string> {
    match RecordTable(env, cfg, sees, ViewOf(env, record, resource))
    case None => {}
    case Some(t) => KeysOf(t)
  }

  /**
    One enrichment never adds keys of both route kinds (a configured passthrough
    key aside), whatever events land between its reads.
   */
  lemma NeverBothKinds(env: Env, cfg: Config, sees: Reads, record: Attrs, resource: Attrs)
    requires Sane(sees)
    ensures var added := Added(env, cfg, sees, record, resource) - {cfg.passthroughKey};
      added !! RouteKeys(false) || added !! RouteKeys(true)
  {
    var view := ViewOf(env, record, resource);
    var t := RecordTable(env, cfg, sees, view);
    if t.Some? {
      var grpc := RecordWithinKind(env, cfg, sees, view);
      forall k | k in KeysOf(t.value) && k != cfg.passthroughKey ensures k !in RouteKeys(!grpc) {
        var e :| e in t.value && e.key == k;
        assert k in KindKeys(cfg, grpc);
        if k in RouteKeys(!grpc) {
          KindKeysApart(!grpc, k);
        }
      }
    }
  }

  // ----- the two paths agree -----

  /**
    On a fixed, well-keyed state, a fallback record is stamped exactly like a
    record whose parser named the winning route without a rule index.
   */
  lemma FallbackEqualsDirect(env: Env, cfg: Config, sees: Reads, s: Snapshot, view: View)
    requires Fixed(sees, s) && WellKeyed(s.routes)
    requires env.parse(view) == None && cfg.fallbackEnabled
    requires Scan(env.libs, view, sees, SourceKeys(cfg)).Some?
    ensures var ra := Scan(env.libs, view, sees, SourceKeys(cfg)).value;
      && LookupRoute(s, KeyOf(ra)) == Some(ra)
      && (ra.ns != "" && ra.name != "" ==>
            RecordTable(env, cfg, sees, view).Some? &&
            Apply(map[], RecordTable(env, cfg, sees, view).value) == Apply(map[], ParsedTable(cfg, sees, 0, Synthesized(ra))))
  {
    WinnerIsIdentityLookup(env.libs, view, sees, s, SourceKeys(cfg));
    var ra := Scan(env.libs, view, sees, SourceKeys(cfg)).value;
    var pr := Synthesized(ra);
    assert ParsedKey(pr) == KeyOf(ra);
    if ra.ns != "" && ra.name != "" {
      var body := IdentityTable(pr) + AttrsTable(cfg, s, ra);
      assert CrTable(cfg, sees, 0, pr) == AttrsTable(cfg, s, ra);
      assert ParsedTable(cfg, sees, 0, pr) == ParserTable(cfg, pr) + body;
      ParserAnywhere(cfg, s, ra);
    }
  }

  /** Stamping the parser name first or last makes no difference: no route attribute uses its key. */
  lemma ParserAnywhere(cfg: Config, s: Snapshot, ra: RouteAttributes)
    ensures var body := IdentityTable(Synthesized(ra)) + AttrsTable(cfg, s, ra);
      Apply(map[], ParserTable(cfg, Synthesized(ra)) + body) == Apply(map[], body + [Entry(PARSER, Some(Str(FALLBACK_PARSER)))])
  {
    var e := Entry(PARSER, Some(Str(FALLBACK_PARSER)));
    assert |FALLBACK_PARSER| > 0;
    assert ParserTable(cfg, Synthesized(ra)) == [e];
    NoParserEntry(cfg, s, ra);
    PutMoves(e, IdentityTable(Synthesized(ra)) + AttrsTable(cfg, s, ra));
  }

  lemma NoParserEntry(cfg: Config, s: Snapshot, ra: RouteAttributes)
    ensures PARSER !in KeysOf(IdentityTable(Synthesized(ra)) + AttrsTable(cfg, s, ra))
  {
    var grpc := IsGrpc(ra);
    IdentityWithin(Synthesized(ra));
    AttrsWithin(cfg, s, ra);
    ParserKeyFree(grpc);
  }

  lemma ParserKeyFree(grpc: bool)
    ensures PARSER !in RouteKeys(grpc) + ROUTE_INFO_KEYS
  {
    SharedKeysShape(PARSER);
    if PARSER in RouteKeys(grpc) {
      KindKeysApart(grpc, PARSER);
    }
  }

  // ----- across signals -----

  /**
    Metrics enrichment is trace enrichment followed by removing the excluded keys
    when something matched, and does nothing at all otherwise.
   */
  lemma MetricsAreStrippedTraces(env: Env, cfg: Config, sees: Reads, record: Attrs, resource: Attrs)
    ensures var matched := RecordTable(env, cfg, sees, ViewOf(env, record, resource)).Some?;
      && Enriched(env, cfg, sees, record, resource, Logs) == Enriched(env, cfg, sees, record, resource, Traces)
      && Enriched(env, cfg, sees, record, resource, Metrics) ==
         if matched then Enriched(env, cfg, sees, record, resource, Traces) - Excluded(cfg) else record
  {
  }

  // ----- idempotence -----

  /** The parser chain looks at these keys only. */
  ghost predicate ParsesOnly(env: Env, keys: set<string>) {
    forall v: View, v': View | AgreeOn(v, v', keys) :: env.parse(v) == env.parse(v')
  }

  /** Everything enrichment reads off a record. */
  function ReadKeys(cfg: Config, parserKeys: set<string>): set<string> {
    parserKeys + (set k | k in SourceKeys(cfg)) + {NAMESPACE_KEY}
  }

  /** On a fixed state, what gets stamped is a function of the keys that are read. */
  lemma RecordTableFixed(env: Env, cfg: Config, sees: Reads, sees': Reads, s: Snapshot, view: View, view': View, parserKeys: set<string>)
    requires Fixed(sees, s) && Fixed(sees', s) && ParsesOnly(env, parserKeys)
    requires AgreeOn(view, view', ReadKeys(cfg, parserKeys))
    ensures RecordTable(env, cfg, sees, view) == RecordTable(env, cfg, sees', view')
  {
    assert AgreeOn(view, view', parserKeys);
    ScanFixed(env.libs, view, view', sees, sees', s, SourceKeys(cfg), 0);
  }

  /** Enrichment leaves alone what it neither stamps nor strips. */
  lemma Untouched(env: Env, cfg: Config, sees: Reads, record: Attrs, resource: Attrs, signal: Signal, k: string)
    requires k !in Added(env, cfg, sees, record, resource) && (signal == Metrics ==> k !in Excluded(cfg))
    ensures Get(Enriched(env, cfg, sees, record, resource, signal), k) == Get(record, k)
  {
    var t := RecordTable(env, cfg, sees, ViewOf(env, record, resource));
    if t.Some? {
      ApplyIsMerge(record, t.value);
      AppliedKeys(t.value);
    }
  }

  lemma SameReadings(env: Env, cfg: Config, sees: Reads, record: Attrs, resource: Attrs, signal: Signal, keys: set<string>)
    requires keys !! Added(env, cfg, sees, record, resource) && (signal == Metrics ==> keys !! Excluded(cfg))
    ensures AgreeOn(ViewOf(env, record, resource), ViewOf(env, Enriched(env, cfg, sees, record, resource, signal), resource), keys)
  {
    var once := Enriched(env, cfg, sees, record, resource, signal);
    var view, view' := ViewOf(env, record, resource), ViewOf(env, once, resource);
    forall k | k in keys ensures Get(view, k) == Get(view', k) {
      Untouched(env, cfg, sees, record, resource, signal, k);
      assert Get(once, k) == Get(record, k);
    }
  }

  lemma StampTwice(cfg: Config, signal: Signal, m: Attrs, t: seq<Entry>)
    ensures Stripped(cfg, signal, Apply(Stripped(cfg, signal, Apply(m, t)), t)) == Stripped(cfg, signal, Apply(m, t))
  {
    ApplyIsMerge(m, t);
    ApplyIsMerge(Stripped(cfg, signal, Apply(m, t)), t);
  }

  /**
    Enriching twice is enriching once, for a fixed index state and any owner-set
    iteration orders, whenever this record's enrichment neither stamps nor strips
    a key that enrichment reads.
   */
  lemma EnrichIsIdempotent(env: Env, cfg: Config, sees: Reads, sees': Reads, s: Snapshot, record: Attrs, resource: Attrs, signal: Signal, parserKeys: set<string>)
    requires Fixed(sees, s) && Fixed(sees', s) && ParsesOnly(env, parserKeys)
    requires ReadKeys(cfg, parserKeys) !! Added(env, cfg, sees, record, resource)
    requires signal == Metrics ==> ReadKeys(cfg, parserKeys) !! Excluded(cfg)
    ensures var once := Enriched(env, cfg, sees, record, resource, signal);
      Enriched(env, cfg, sees', once, resource, signal) == once
  {
    var once := Enriched(env, cfg, sees, record, resource, signal);
    var view, view' := ViewOf(env, record, resource), ViewOf(env, once, resource);
    SameReadings(env, cfg, sees, record, resource, signal, ReadKeys(cfg, parserKeys));
    RecordTableFixed(env, cfg, sees, sees', s, view, view', parserKeys);
    var t := RecordTable(env, cfg, sees, view);
    if t.Some? {
      StampTwice(cfg, signal, record, t.value);
    }
  }

  /** Nothing outside the configuration's stamped keys is ever added. */
  lemma AddedAreStamped(env: Env, cfg: Config, sees: Reads, record: Attrs, resource: Attrs)
    ensures Added(env, cfg, sees, record, resource) <= StampedKeys(cfg)
  {
    RecordWithinStamped(env, cfg, sees, ViewOf(env, record, resource));
  }

  // ----- the default configuration -----

  const DEFAULT_CONFIG := Config(
    true,
    ["server.address", "net.peer.name", "http.host", "url.full", "http.url"],
    "",
    true,
    "k8s.gatewayapi.raw_route_name",
    ["k8s.httproute.uid", "k8s.grpcroute.uid", "k8s.gateway.uid", "k8s.gatewayapi.raw_route_name",
     "k8s.service.parent.port", "k8s.httproute.rule.name", "k8s.grpcroute.rule.name"])

  /** The labels the default parser chain reads. */
  const DEFAULT_PARSER_KEYS := {"route_name", "route_kind", "route_namespace"}

  predicate StampShape(k: string) {
    |k| > 5 && (k[0] == 'g' || (k[0] == 'k' && k[4] in {'h', 'g', 's'}))
  }

  lemma StampedShape(k: string)
    requires k in StampedKeys(DEFAULT_CONFIG)
    ensures StampShape(k)
  {
    if k in SHARED_KEYS {
      SharedKeysShape(k);
    } else if k in RouteKeys(false) {
      KindKeysApart(false, k);
    } else if k in RouteKeys(true) {
      KindKeysApart(true, k);
    } else {
      PassthroughShape();
    }
  }

  lemma PassthroughShape()
    ensures StampShape(DEFAULT_CONFIG.passthroughKey)
  {
  }

  lemma SourceAttributeShape(k: string)
    requires k in DEFAULT_CONFIG.sourceAttributes
    ensures !StampShape(k)
  {
  }

  lemma ReadKeyShape(k: string)
    requires k in ReadKeys(DEFAULT_CONFIG, DEFAULT_PARSER_KEYS)
    ensures !StampShape(k)
  {
    if k in SourceKeys(DEFAULT_CONFIG) {
      ExtendAllIsDistinct(DEFAULT_CONFIG.sourceAttributes);
      SourceAttributeShape(k);
    }
  }

  lemma ExcludedShape(k: string)
    requires k in Excluded(DEFAULT_CONFIG)
    ensures StampShape(k)
  {
  }

  /** The default configuration reads nothing it stamps or strips. */
  lemma DefaultsAreApart()
    ensures ReadKeys(DEFAULT_CONFIG, DEFAULT_PARSER_KEYS) !! StampedKeys(DEFAULT_CONFIG)
    ensures ReadKeys(DEFAULT_CONFIG, DEFAULT_PARSER_KEYS) !! Excluded(DEFAULT_CONFIG)
  {
    forall k | k in ReadKeys(DEFAULT_CONFIG, DEFAULT_PARSER_KEYS)
      ensures k !in StampedKeys(DEFAULT_CONFIG) && k !in Excluded(DEFAULT_CONFIG)
    {
      ReadKeyShape(k);
      if k in StampedKeys(DEFAULT_CONFIG) {
        StampedShape(k);
      }
      if k in Excluded(DEFAULT_CONFIG) {
        ExcludedShape(k);
      }
    }
  }

  /** So under the default configuration enrichment is idempotent on every record and signal. */
  lemma DefaultsAreIdempotent(env: Env, sees: Reads, sees': Reads, s: Snapshot, record: Attrs, resource: Attrs, signal: Signal)
    requires Fixed(sees, s) && Fixed(sees', s) && ParsesOnly(env, DEFAULT_PARSER_KEYS)
    ensures var once := Enriched(env, DEFAULT_CONFIG, sees, record, resource, signal);
      Enriched(env, DEFAULT_CONFIG, sees', once, resource, signal) == once
  {
    DefaultsAreApart();
    AddedAreStamped(env, DEFAULT_CONFIG, sees, record, resource);
    EnrichIsIdempotent(env, DEFAULT_CONFIG, sees, sees', s, record, resource, signal, DEFAULT_PARSER_KEYS);
  }
}
