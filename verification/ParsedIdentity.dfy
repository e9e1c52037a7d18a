/**
  From a route-name string to the record: the identity a parser extracts is what
  the enriched record shows, whatever the lookups that follow find.
 */
module ParsedIdentity {
  import opened Types
  import opened EnvoyRoute
  import opened Attributes
  import opened Resolution
  import opened Enrichment
  import opened EnrichmentLaws
  import opened StampReadBack

  const IDENTITY_FIELDS := {"name", "namespace", "rule_index", "match_index"}
  const METADATA_FIELDS := {"uid", "parent_ref", "parent.kind", "rule.name", "accepted", "resolved_refs"}

  ghost predicate IsMetadataKey(k: string) {
    k in ROUTE_INFO_KEYS || exists grpc, f :: f in METADATA_FIELDS && k == RouteAttr(grpc, f)
  }

  lemma FieldsApart(f: string, f': string)
    requires f in IDENTITY_FIELDS && f' in METADATA_FIELDS
    ensures f != f'
  {
    assert |f'| == 9 ==> f'[0] == 'r';
    assert |f'| == 10 ==> f'[0] == 'p';
    assert |f'| == 11 ==> f'[0] == 'p';
    assert |f'| != 4;
  }

  /** No metadata key is an identity key. */
  lemma IdentityKeyIsNotMetadata(grpc: bool, f: string)
    requires f in IDENTITY_FIELDS
    ensures !IsMetadataKey(RouteAttr(grpc, f))
  {
    var k := RouteAttr(grpc, f);
    FieldIsRouteKey(grpc, f);
    KindKeysApart(grpc, k);
    forall grpc', f' | f' in METADATA_FIELDS ensures k != RouteAttr(grpc', f') {
      FieldsApart(f, f');
      if grpc == grpc' {
        assert k[14..] == f && RouteAttr(grpc', f')[14..] == f';
      } else {
        FieldIsRouteKey(grpc', f');
      }
    }
  }

  ghost predicate Metadata(t: seq<Entry>) {
    forall e | e in t :: IsMetadataKey(e.key)
  }

  lemma KindTableIsMetadata(cfg: Config, ra: RouteAttributes)
    ensures Metadata(KindTable(cfg, ra))
  {
    var grpc := IsGrpc(ra);
    assert IsMetadataKey(RouteAttr(grpc, "uid")) && IsMetadataKey(RouteAttr(grpc, "parent_ref"));
    assert IsMetadataKey(RouteAttr(grpc, "parent.kind"));
    assert IsMetadataKey(RouteAttr(grpc, "accepted")) && IsMetadataKey(RouteAttr(grpc, "resolved_refs"));
  }

  lemma RuleNameIsMetadata(ra: RouteAttributes, ruleIndex: int)
    ensures Metadata(RuleNameTable(ra, ruleIndex))
  {
    assert IsMetadataKey(RouteAttr(IsGrpc(ra), "rule.name"));
  }

  lemma AttrsAreMetadata(cfg: Config, s: Snapshot, ra: RouteAttributes)
    ensures Metadata(AttrsTable(cfg, s, ra))
  {
    KindTableIsMetadata(cfg, ra);
    TablesInGroups(s, ra);
  }

  lemma CrTableIsMetadata(cfg: Config, sees: Reads, at: nat, pr: ParseResult)
    ensures Metadata(CrTable(cfg, sees, at, pr))
  {
    var r := LookupRoute(sees(at).state, ParsedKey(pr));
    if r.Some? {
      AttrsAreMetadata(cfg, sees(at + 1).state, r.value);
      RuleNameIsMetadata(r.value, pr.ruleIndex);
    }
  }

  lemma IdentityDistinct(pr: ParseResult)
    ensures Distinct(IdentityTable(pr))
  {
    var grpc := pr.kind == "GRPCRoute";
    assert |RouteAttr(grpc, "name")| == 18 && |RouteAttr(grpc, "namespace")| == 23;
    assert |RouteAttr(grpc, "rule_index")| == 24 && |RouteAttr(grpc, "match_index")| == 25;
  }

  /** An entry of a distinct table survives whatever comes before it, and whatever after does not use its key. */
  lemma Survives(m: Attrs, before: seq<Entry>, t: seq<Entry>, after: seq<Entry>, i: nat)
    requires Distinct(t) && i < |t| && t[i].val.Some? && t[i].key !in KeysOf(after)
    ensures Get(Apply(m, before + t + after), t[i].key) == t[i].val
  {
    ApplyConcat(m, before + t, after);
    ApplyConcat(m, before, t);
    ApplyAt(Apply(m, before), t, i);
    ApplyIsMerge(Apply(m, before + t), after);
    AppliedKeys(after);
  }

  lemma NotAmongMetadata(t: seq<Entry>, k: string)
    requires Metadata(t) && !IsMetadataKey(k)
    ensures k !in KeysOf(t)
  {
  }

  /** The keys this signal's records lose after stamping. */
  function StrippedKeys(cfg: Config, signal: Signal): set<string> {
    if signal == Metrics then Excluded(cfg) else {}
  }

  /** Key `k` reads `v`, unless the signal strips it. */
  predicate ReadsUnlessStripped(m: Attrs, stripped: set<string>, k: string, v: Option<Value>) {
    Get(m, k) == if k in stripped then None else v
  }

  /** A record stamped with table `t` reads and gains what the table alone says. */
  lemma StampedWith(env: Env, cfg: Config, sees: Reads, record: Attrs, resource: Attrs, signal: Signal, t: seq<Entry>, k: string)
    requires RecordTable(env, cfg, sees, ViewOf(env, record, resource)) == Some(t)
    ensures k in Added(env, cfg, sees, record, resource) <==> Get(Apply(map[], t), k).Some?
    ensures ReadsUnlessStripped(
              Enriched(env, cfg, sees, record, resource, signal), StrippedKeys(cfg, signal), k, Get(Apply(record, t), k))
  {
    AppliedKeys(t);
  }

  /** No metadata stamped after the identity overwrites it, on any signal. */
  lemma IdentitySurvives(env: Env, cfg: Config, sees: Reads, record: Attrs, resource: Attrs, signal: Signal, pr: ParseResult, i: nat, grpc: bool, f: string)
    requires env.parse(ViewOf(env, record, resource)) == Some(pr)
    requires pr.ns != "" && pr.name != ""
    requires i < |IdentityTable(pr)| && IdentityTable(pr)[i].val.Some?
    requires f in IDENTITY_FIELDS && IdentityTable(pr)[i].key == RouteAttr(grpc, f)
    ensures ReadsUnlessStripped(Enriched(env, cfg, sees, record, resource, signal), StrippedKeys(cfg, signal),
                                RouteAttr(grpc, f), IdentityTable(pr)[i].val)
  {
    var after := CrTable(cfg, sees, 0, pr);
    IdentityKeyIsNotMetadata(grpc, f);
    CrTableIsMetadata(cfg, sees, 0, pr);
    NotAmongMetadata(after, RouteAttr(grpc, f));
    IdentityDistinct(pr);
    Survives(record, ParserTable(cfg, pr), IdentityTable(pr), after, i);
  }

  /** The record shows an identity under the HTTPRoute keys it is not stripped of. */
  ghost predicate ShowsIdentity(m: Attrs, stripped: set<string>, ns: string, name: string, ruleIndex: int, matchIndex: int) {
    && ReadsUnlessStripped(m, stripped, RouteAttr(false, "name"), Some(Str(name)))
    && ReadsUnlessStripped(m, stripped, RouteAttr(false, "namespace"), Some(Str(ns)))
    && (ruleIndex >= 0 ==> ReadsUnlessStripped(m, stripped, RouteAttr(false, "rule_index"), Some(Int(ruleIndex))))
    && (matchIndex >= 0 ==> ReadsUnlessStripped(m, stripped, RouteAttr(false, "match_index"), Some(Int(matchIndex))))
  }

  /** A parsed HTTPRoute identity, field by field. */
  lemma HTTPIdentityIsStamped(env: Env, cfg: Config, sees: Reads, record: Attrs, resource: Attrs, signal: Signal, pr: ParseResult)
    requires env.parse(ViewOf(env, record, resource)) == Some(pr)
    requires pr.ns != "" && pr.name != "" && pr.kind != "GRPCRoute"
    ensures ShowsIdentity(Enriched(env, cfg, sees, record, resource, signal), StrippedKeys(cfg, signal),
                          pr.ns, pr.name, pr.ruleIndex, pr.matchIndex)
  {
    var t := IdentityTable(pr);
    assert t[0].key == RouteAttr(false, "name") && t[1].key == RouteAttr(false, "namespace");
    assert t[2].key == RouteAttr(false, "rule_index") && t[3].key == RouteAttr(false, "match_index");
    IdentitySurvives(env, cfg, sees, record, resource, signal, pr, 0, false, "name");
    IdentitySurvives(env, cfg, sees, record, resource, signal, pr, 1, false, "namespace");
    if pr.ruleIndex >= 0 {
      IdentitySurvives(env, cfg, sees, record, resource, signal, pr, 2, false, "rule_index");
    }
    if pr.matchIndex >= 0 {
      IdentitySurvives(env, cfg, sees, record, resource, signal, pr, 3, false, "match_index");
    }
  }

  lemma KindsDiffer()
    ensures "HTTPRoute" != "GRPCRoute"
  {
    assert "HTTPRoute"[0] != "GRPCRoute"[0];
  }

  /**
    A record whose parsed route name is a printed route reference shows exactly
    that reference: namespace, name and the indices that fit Go's int, each unless
    the record is a metric's and the key is configured away from metrics.
   */
  lemma EnvoyNameIsStamped(env: Env, cfg: Config, sees: Reads, record: Attrs, resource: Attrs, signal: Signal,
                           parserName: string, ns: string, name: string, rule: Option<nat>, matchNo: Option<nat>)
    requires Segment(ns) && Segment(name)
    requires env.parse(ViewOf(env, record, resource)) == Parse(parserName, Some(Print(ns, name, rule, matchNo)))
    ensures ShowsIdentity(Enriched(env, cfg, sees, record, resource, signal), StrippedKeys(cfg, signal),
                          ns, name, Bounded(rule), Bounded(matchNo))
  {
    ParsePrinted(parserName, ns, name, rule, matchNo);
    KindsDiffer();
    var raw := Print(ns, name, rule, matchNo);
    var pr := ParseResult(ns, name, "HTTPRoute", Bounded(rule), Bounded(matchNo), raw, parserName);
    HTTPIdentityIsStamped(env, cfg, sees, record, resource, signal, pr);
  }
}
