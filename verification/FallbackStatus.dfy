/** Status flags on records the fallback enriches, which the architecture document says get none. */
module FallbackStatus {
  import opened Types
  import opened Attributes
  import opened Resolution
  import opened Enrichment
  import opened EnrichmentLaws
  import opened StampReadBack
  import opened ParsedIdentity

  /** The two flags a route's status carries. */
  datatype StatusField = Accepted | ResolvedRefs

  function StatusKey(ra: RouteAttributes, f: StatusField): string {
    RouteAttr(IsGrpc(ra), if f.Accepted? then "accepted" else "resolved_refs")
  }

  function FlagOf(ra: RouteAttributes, f: StatusField): Option<bool> {
    if f.Accepted? then ra.accepted else ra.resolvedRefs
  }

  /** The lengths of the identity keys. */
  lemma IdentityKeyLengths(ra: RouteAttributes)
    ensures forall e | e in IdentityTable(Synthesized(ra)) :: |e.key| == 18 || 23 <= |e.key| <= 25
  {
    var grpc := Synthesized(ra).kind == "GRPCRoute";
    assert |RouteAttr(grpc, "name")| == 18 && |RouteAttr(grpc, "namespace")| == 23;
    assert |RouteAttr(grpc, "rule_index")| == 24 && |RouteAttr(grpc, "match_index")| == 25;
  }

  lemma StatusKeyLength(ra: RouteAttributes, f: StatusField)
    ensures |StatusKey(ra, f)| == if f.Accepted? then 22 else 27
  {
    assert |RouteAttr(IsGrpc(ra), "accepted")| == 22 && |RouteAttr(IsGrpc(ra), "resolved_refs")| == 27;
  }

  /** Neither the identity before it nor the parser name after it touches a status key. */
  lemma StatusKeyIsFree(ra: RouteAttributes, f: StatusField)
    ensures StatusKey(ra, f) != PARSER && StatusKey(ra, f) !in KeysOf(IdentityTable(Synthesized(ra)))
  {
    IdentityKeyLengths(ra);
    StatusKeyLength(ra, f);
    assert |PARSER| == 21;
  }

  /** A key used neither before nor after `t` reads as `t` alone puts it. */
  lemma ReadsBetween(m: Attrs, before: seq<Entry>, t: seq<Entry>, after: Entry, k: string)
    requires k !in KeysOf(before) && after.val.Some? && after.key != k
    ensures Get(Apply(m, before + t + [after]), k) == Get(Apply(Apply(m, before), t), k)
    ensures Get(Apply(m, before), k) == Get(m, k)
  {
    ApplyConcat(m, before + t, [after]);
    ApplyOne(Apply(m, before + t), after);
    ApplyConcat(m, before, t);
    ApplyIsMerge(m, before);
    AppliedKeys(before);
  }

  /** So a fallback record reads at a status key what the route's own attributes put there. */
  lemma FallbackReads(m: Attrs, cfg: Config, s: Snapshot, ra: RouteAttributes, f: StatusField)
    ensures Get(Apply(m, FallbackTable(cfg, s, ra)), StatusKey(ra, f)) == FlagOver(m, StatusKey(ra, f), cfg, FlagOf(ra, f))
  {
    var id := IdentityTable(Synthesized(ra));
    StatusKeyIsFree(ra, f);
    ReadsBetween(m, id, AttrsTable(cfg, s, ra), Entry(PARSER, Some(Str(FALLBACK_PARSER))), StatusKey(ra, f));
    StatusReadsBack(Apply(m, id), cfg, s, ra);
  }

  /**
    For both flags: the fallback stamps it iff flags are configured and the winning
    route's is known; the record then shows it, and otherwise what it held before,
    unless the signal strips the key.
   */
  lemma FallbackStampsStatusIff(env: Env, cfg: Config, sees: Reads, record: Attrs, resource: Attrs, signal: Signal, ra: RouteAttributes, f: StatusField)
    requires env.parse(ViewOf(env, record, resource)) == None && cfg.fallbackEnabled
    requires Scan(env.libs, ViewOf(env, record, resource), sees, SourceKeys(cfg)) == Some(ra)
    ensures StatusKey(ra, f) in Added(env, cfg, sees, record, resource) <==> cfg.emitStatus && FlagOf(ra, f).Some?
    ensures ReadsUnlessStripped(
              Enriched(env, cfg, sees, record, resource, signal), StrippedKeys(cfg, signal),
              StatusKey(ra, f), FlagOver(record, StatusKey(ra, f), cfg, FlagOf(ra, f)))
  {
    var s := sees(READS_PER_KEY * |SourceKeys(cfg)|).state;
    StampedWith(env, cfg, sees, record, resource, signal, FallbackTable(cfg, s, ra), StatusKey(ra, f));
    FallbackReads(map[], cfg, s, ra, f);
    FallbackReads(record, cfg, s, ra, f);
  }
}
