/**
  The backend-reference fallback: from a record's source attributes to at most
  one route. Its lookups are separate locked reads, so informer events may land
  between any two of them; `sees(t)` is whatever the t-th read finds.
 */
module Resolution {
  import opened Types
  import opened History
  import opened RouteRuns
  import opened RouteIndex
  import opened HostNames
  import Services = ServiceIPIndex
  import Pods = PodIPIndex

  /** The state of all indexes at one moment; the address and waypoint indexes may be switched off. */
  datatype Snapshot = Snapshot(
    routes: RouteRun,
    policies: PolicyMap,
    services: Option<Services.ServiceRun>,
    slices: Option<Pods.SliceRun>,
    waypoints: Option<map<NsName, WaypointInfo>>)

  /** One locked read: the state it sees, and the order in which it ranges over an owner set. */
  datatype Read = Read(state: Snapshot, order: set<RouteKey> -> seq<RouteKey>)

  type Reads = nat -> Read

  ghost predicate Orders(r: Read) {
    forall owners :: Enumerates(r.order(owners), owners)
  }

  function LookupRoute(s: Snapshot, k: RouteKey): Option<RouteAttributes> {
    RouteView(s.routes, s.policies, k)
  }

  function LookupByBackend(s: Snapshot, b: NsName): Option<RouteAttributes> {
    BackendView(s.routes, s.policies, b)
  }

  function Owners(s: Snapshot, b: NsName): set<RouteKey> {
    CellAt(s.routes, b).owners
  }

  function Candidate(s: Snapshot, k: RouteKey): RouteAttributes {
    match LookupRoute(s, k) case Some(ra) => ra case None => ZERO_ATTRS
  }

  function CandidatesOf(s: Snapshot, keys: seq<RouteKey>): seq<RouteAttributes> {
    seq(|keys|, i requires 0 <= i < |keys| => Candidate(s, keys[i]))
  }

  function Candidates(r: Read, b: NsName): seq<RouteAttributes> {
    CandidatesOf(r.state, r.order(Owners(r.state, b)))
  }

  // ----- the binary disambiguator -----

  const NAMESPACE_KEY := "k8s.namespace.name"

  type View = map<string, string>

  function CandidateMode(ra: RouteAttributes): string {
    if ra.routeMode == "" then MODE_INGRESS else ra.routeMode
  }

  /** Mesh when the span runs in the namespace of the mesh route's parent Service, ingress otherwise. */
  function Choose(ns: Option<string>, mesh: RouteAttributes, ingress: RouteAttributes): RouteAttributes {
    if mesh.parentServiceNs != "" && ns == Some(mesh.parentServiceNs) then mesh else ingress
  }

  ghost predicate IsPair(cands: seq<RouteAttributes>, mesh: RouteAttributes, ingress: RouteAttributes) {
    && (cands == [mesh, ingress] || cands == [ingress, mesh])
    && mesh.routeMode == "mesh"
    && (ingress.routeMode == "" || ingress.routeMode == "ingress")
  }

  method DisambiguateScan(ns: Option<string>, cands: seq<RouteAttributes>) returns (r: Option<RouteAttributes>)
    ensures r == Disambiguate(ns, cands)
  {
    if |cands| != 2 {
      return None;
    }
    var mesh: Option<RouteAttributes>, ingress: Option<RouteAttributes> := None, None;
    assert MODE_MESH[0] != MODE_INGRESS[0];
    for i := 0 to |cands|
      invariant i == 0 ==> mesh.None? && ingress.None?
      invariant i == 1 ==>
                  && mesh == (if CandidateMode(cands[0]) == MODE_MESH then Some(cands[0]) else None)
                  && ingress == (if CandidateMode(cands[0]) == MODE_INGRESS then Some(cands[0]) else None)
      invariant i == 2 ==> (mesh.Some? && ingress.Some? <==> Disambiguate(ns, cands).Some?)
      invariant i == 2 && mesh.Some? && ingress.Some? ==> Disambiguate(ns, cands) == Some(Choose(ns, mesh.value, ingress.value))
    {
      if CandidateMode(cands[i]) == MODE_MESH {
        if mesh.Some? {
          return None;
        }
        mesh := Some(cands[i]);
      } else if CandidateMode(cands[i]) == MODE_INGRESS {
        if ingress.Some? {
          return None;
        }
        ingress := Some(cands[i]);
      }
    }
    if mesh.None? || ingress.None? {
      return None;
    }
    r := Some(Choose(ns, mesh.value, ingress.value));
  }

  function Disambiguate(ns: Option<string>, cands: seq<RouteAttributes>): Option<RouteAttributes> {
    if |cands| != 2 then None
    else if CandidateMode(cands[0]) == MODE_MESH && CandidateMode(cands[1]) == MODE_INGRESS
    then Some(Choose(ns, cands[0], cands[1]))
    else if CandidateMode(cands[0]) == MODE_INGRESS && CandidateMode(cands[1]) == MODE_MESH
    then Some(Choose(ns, cands[1], cands[0]))
    else None
  }

  /** The disambiguator answers exactly when there is one mesh and one ingress candidate. */
  lemma DisambiguatesPairs(ns: Option<string>, cands: seq<RouteAttributes>)
    ensures Disambiguate(ns, cands).Some? <==> exists mesh, ingress :: IsPair(cands, mesh, ingress)
  {
    assert MODE_MESH[0] != MODE_INGRESS[0];
    if Disambiguate(ns, cands).Some? {
      assert cands == [cands[0], cands[1]];
      assert IsPair(cands, cands[0], cands[1]) || IsPair(cands, cands[1], cands[0]);
    }
  }

  /**
    It then answers with the mesh candidate when the span runs in the namespace of
    that candidate's parent Service, and with the ingress candidate otherwise.
   */
  lemma DisambiguateByNamespace(ns: Option<string>, cands: seq<RouteAttributes>, mesh: RouteAttributes, ingress: RouteAttributes)
    requires IsPair(cands, mesh, ingress)
    ensures Disambiguate(ns, cands) == Some(mesh) <==> mesh.parentServiceNs != "" && ns == Some(mesh.parentServiceNs)
    ensures Disambiguate(ns, cands) == Some(ingress) <==> mesh.parentServiceNs == "" || ns != Some(mesh.parentServiceNs)
  {
    assert MODE_MESH[0] != MODE_INGRESS[0];
  }

  /** Two orders of the same owners disambiguate alike. */
  lemma OrderIsIrrelevant(ns: Option<string>, s: Snapshot, ks: seq<RouteKey>, ks': seq<RouteKey>, owners: set<RouteKey>)
    requires Enumerates(ks, owners) && Enumerates(ks', owners)
    ensures Disambiguate(ns, CandidatesOf(s, ks)) == Disambiguate(ns, CandidatesOf(s, ks'))
    ensures |ks| == |ks'|
  {
    EnumerationSize(ks, owners);
    EnumerationSize(ks', owners);
    assert MODE_MESH[0] != MODE_INGRESS[0];
    if |ks| == 2 {
      assert ks[0] in ks && ks[1] in ks && ks'[0] in ks' && ks'[1] in ks';
      assert ks'[0] in ks && ks'[1] in ks;
    }
  }

  // ----- one backend -----

  function Namespace(view: View): Option<string> {
    Get(view, NAMESPACE_KEY)
  }

  /** The fast path, then the full owner set: two reads. */
  function Resolve(view: View, fast: Read, slow: Read, b: NsName): Option<RouteAttributes> {
    match LookupByBackend(fast.state, b)
    case Some(ra) => Some(ra)
    case None =>
      var cands := Candidates(slow, b);
      if |cands| < 2 then None else Disambiguate(Namespace(view), cands)
  }

  /** The index's own state as a snapshot. */
  ghost function SnapshotOf(idx: RouteIndex): Snapshot
    requires idx.policies.Shaped()
    reads idx, idx.policies`slices, idx.policies.Storage()
  {
    Snapshot(idx.run, idx.PolicyView(), None, None, None)
  }

  lemma ViewsAreCandidates(s: Snapshot, out: seq<RouteAttributes>, keys: seq<RouteKey>)
    requires ViewsOf(out, s.routes, s.policies, keys)
    ensures out == CandidatesOf(s, keys)
  {
    forall i | 0 <= i < |out| ensures out[i] == CandidatesOf(s, keys)[i] {
      assert Some(out[i]) == RouteView(s.routes, s.policies, keys[i]);
    }
  }

  /**
    The resolver over the live index. Informer events may land between its two
    lookups, so the second is made on `later`, the index as it then is; when none
    do, that is `idx` itself.
   */
  method ResolveByBackend(idx: RouteIndex, later: RouteIndex, view: View, ns: string, svc: string) returns (r: Option<RouteAttributes>)
    requires idx.Valid() && later.Valid()
    modifies idx.policies`handedOut, later.policies`handedOut
    ensures idx.Valid() && later.Valid()
    ensures forall fast: Read, slow: Read |
              fast.state == old(SnapshotOf(idx)) && slow.state == old(SnapshotOf(later)) && Orders(slow) ::
              r == Resolve(view, fast, slow, NsName(ns, svc))
  {
    var b := NsName(ns, svc);
    ghost var s, s' := SnapshotOf(idx), SnapshotOf(later);
    r := FastPath(idx, later, b);
    if r.Some? {
      return;
    }
    ghost var keys;
    r, keys := SlowPath(idx, later, view, b);
    AnyOrderResolves(view, s, s', keys, b, r);
  }

  /** The single-candidate lookup; it leaves both views as they were. */
  method FastPath(idx: RouteIndex, later: RouteIndex, b: NsName) returns (r: Option<RouteAttributes>)
    requires idx.Valid() && later.Valid()
    modifies idx.policies`handedOut
    ensures idx.Valid() && later.Valid() && SnapshotOf(later) == old(SnapshotOf(later))
    ensures r == LookupByBackend(old(SnapshotOf(idx)), b)
  {
    var snapshot;
    r, snapshot := idx.LookupByBackendService(b.ns, b.name);
  }

  method SlowPath(idx: RouteIndex, later: RouteIndex, view: View, b: NsName) returns (r: Option<RouteAttributes>, ghost keys: seq<RouteKey>)
    requires idx.Valid() && later.Valid()
    modifies later.policies`handedOut
    ensures idx.Valid() && later.Valid()
    ensures Enumerates(keys, Owners(old(SnapshotOf(later)), b))
    ensures r == if |keys| < 2 then None else Disambiguate(Namespace(view), CandidatesOf(old(SnapshotOf(later)), keys))
  {
    r, keys := ResolveAmong(later, view, b.ns, b.name);
  }

  /** The slow path: disambiguate among every owner. */
  method ResolveAmong(idx: RouteIndex, view: View, ns: string, svc: string) returns (r: Option<RouteAttributes>, ghost keys: seq<RouteKey>)
    requires idx.Valid()
    modifies idx.policies`handedOut
    ensures idx.Valid() && SnapshotOf(idx) == old(SnapshotOf(idx))
    ensures Enumerates(keys, Owners(SnapshotOf(idx), NsName(ns, svc)))
    ensures r == if |keys| < 2 then None else Disambiguate(Namespace(view), CandidatesOf(SnapshotOf(idx), keys))
  {
    ghost var s := SnapshotOf(idx);
    var cands;
    cands, keys := idx.LookupByBackendServiceWithParents(ns, svc);
    ViewsAreCandidates(s, cands, keys);
    r := None;
    if |cands| >= 2 {
      r := DisambiguateScan(Get(view, NAMESPACE_KEY), cands);
    }
  }

  lemma AnyOrderResolves(view: View, s: Snapshot, s': Snapshot, keys: seq<RouteKey>, b: NsName, r: Option<RouteAttributes>)
    requires LookupByBackend(s, b) == None && Enumerates(keys, Owners(s', b))
    requires r == if |keys| < 2 then None else Disambiguate(Namespace(view), CandidatesOf(s', keys))
    ensures forall fast: Read, slow: Read | fast.state == s && slow.state == s' && Orders(slow) :: r == Resolve(view, fast, slow, b)
  {
    forall fast: Read, slow: Read | fast.state == s && slow.state == s' && Orders(slow) ensures r == Resolve(view, fast, slow, b) {
      OrderIsIrrelevant(Namespace(view), s', keys, slow.order(Owners(s', b)), Owners(s', b));
    }
  }

  /** Some live route listed `b` in state `s`, and `ra` is how identity lookup shows it there. */
  ghost predicate Attributes(s: Snapshot, b: NsName, ra: RouteAttributes) {
    exists k :: Lists(s.routes, k, b) && LookupRoute(s, k) == Some(ra) && KeyOf(ra) == k
  }

  /** Whatever a backend resolves to was live and listed it in the state one of the two reads saw. */
  lemma ResolveIsSound(view: View, fast: Read, slow: Read, b: NsName)
    requires WellKeyed(fast.state.routes) && WellKeyed(slow.state.routes) && Orders(slow)
    requires Resolve(view, fast, slow, b).Some?
    ensures var ra := Resolve(view, fast, slow, b).value;
      Attributes(fast.state, b, ra) || Attributes(slow.state, b, ra)
  {
    if LookupByBackend(fast.state, b).Some? {
      FastPathAgreesWithIdentity(fast.state.routes, fast.state.policies, b);
    } else {
      var s := slow.state;
      var keys := slow.order(Owners(s, b));
      forall i | 0 <= i < |keys| ensures Attributes(s, b, Candidates(slow, b)[i]) {
        assert keys[i] in keys;
        OwnersAreListers(s.routes, b, keys[i]);
        LatestIsWellKeyed(s.routes, keys[i]);
      }
    }
  }

  /**
    A dual-mode backend (one mesh owner, one ingress owner) resolves as the
    disambiguator decides iff the fast path is empty or its claimant is the
    disambiguator's choice anyway: a republished claimant bypasses the decision.
   */
  lemma DualModeIff(view: View, r: Read, b: NsName, choice: RouteAttributes)
    requires WellKeyed(r.state.routes) && Orders(r)
    requires Disambiguate(Namespace(view), Candidates(r, b)) == Some(choice)
    ensures Resolve(view, r, r, b) == Some(choice) <==>
            CellAt(r.state.routes, b).entry == None || CellAt(r.state.routes, b).claim == Some(KeyOf(choice))
  {
    var s := r.state;
    var keys := r.order(Owners(s, b));
    var i := if choice == Candidates(r, b)[0] then 0 else 1;
    assert choice == Candidate(s, keys[i]) && keys[i] in keys;
    OwnersAreListers(s.routes, b, keys[i]);
    LatestIsWellKeyed(s.routes, keys[i]);
    assert KeyOf(choice) == keys[i] && LookupRoute(s, keys[i]) == Some(choice);
    if LookupByBackend(s, b).Some? {
      FastPathAgreesWithIdentity(s.routes, s.policies, b);
    }
  }

  /** The route run after which a dual-mode backend's ingress claimant has republished itself. */
  function RepublishedDual(ingress: RouteAttributes, mesh: RouteAttributes, b: NsName): RouteRun {
    var ua, ub := Upsert(KeyOf(ingress), Revision(ingress, [b])), Upsert(KeyOf(mesh), Revision(mesh, [b]));
    [ua, ub, ua]
  }

  /**
    Such a claimant bypasses the decision: the disambiguator picks the mesh route
    for a span in its parent Service's namespace, the resolver answers the ingress route.
   */
  lemma RepublishedClaimantBypasses(view: View, r: Read, b: NsName, ingress: RouteAttributes, mesh: RouteAttributes)
    requires r.state.routes == RepublishedDual(ingress, mesh, b) && r.state.policies == map[] && Orders(r)
    requires ingress.routeMode == MODE_INGRESS && mesh.routeMode == MODE_MESH && KeyOf(ingress) != KeyOf(mesh)
    requires mesh.parentServiceNs != "" && Namespace(view) == Some(mesh.parentServiceNs)
    ensures Disambiguate(Namespace(view), Candidates(r, b)) == Some(mesh)
    ensures Resolve(view, r, r, b) == Some(ingress)
  {
    var a, c := KeyOf(ingress), KeyOf(mesh);
    RepublishedCell(ingress, mesh, b);
    var keys := r.order({a, c});
    EnumerationSize(keys, {a, c});
    assert keys[0] in keys && keys[1] in keys && keys[0] != keys[1];
    assert MODE_MESH[0] != MODE_INGRESS[0];
  }

  lemma RepublishedCell(ingress: RouteAttributes, mesh: RouteAttributes, b: NsName)
    requires KeyOf(ingress) != KeyOf(mesh)
    ensures var run := RepublishedDual(ingress, mesh, b);
      && CellAt(run, b) == Cell(Some(KeyOf(ingress)), Some(ingress), {KeyOf(ingress), KeyOf(mesh)})
      && Latest(run, KeyOf(ingress)) == Some(Revision(ingress, [b]))
      && Latest(run, KeyOf(mesh)) == Some(Revision(mesh, [b]))
  {
    var a, c := KeyOf(ingress), KeyOf(mesh);
    var ua, ub := Upsert(a, Revision(ingress, [b])), Upsert(c, Revision(mesh, [b]));
    CellAtStep([], ua, b);
    CellAtStep([ua], ub, b);
    CellAtStep([ua, ub], ua, b);
    LatestStep([ua, ub], ua, a);
    LatestStep([ua, ub], ua, c);
    LatestStep([ua], ub, c);
    assert [] + [ua] == [ua] && [ua] + [ub] == [ua, ub] && [ua, ub] + [ua] == [ua, ub, ua];
  }

  /** One mesh and one ingress route own the backend, as identity lookup shows them. */
  ghost predicate DualOwners(s: Snapshot, b: NsName) {
    exists m, i :: IsDual(s, b, m, i)
  }

  ghost predicate IsDual(s: Snapshot, b: NsName, m: RouteKey, i: RouteKey) {
    && m != i
    && Owners(s, b) == {m, i}
    && Candidate(s, m).routeMode == "mesh"
    && Candidate(s, i).routeMode in {"", "ingress"}
  }

  /**
    For any owners and any events between the two reads: a backend resolves iff, at
    the first, some route held its claim and mentioned it last, or, at the second,
    its owners are exactly one mesh and one ingress route.
   */
  lemma ResolvesIff(view: View, fast: Read, slow: Read, b: NsName)
    requires Orders(slow)
    ensures Resolve(view, fast, slow, b).Some? <==>
            (exists k :: Resolves(fast.state.routes, b, k)) || DualOwners(slow.state, b)
  {
    EntryPresence(fast.state.routes, b);
    if LookupByBackend(fast.state, b).None? {
      DualIff(Namespace(view), slow.state, slow.order(Owners(slow.state, b)), b);
    }
  }

  lemma DualIff(ns: Option<string>, s: Snapshot, keys: seq<RouteKey>, b: NsName)
    requires Enumerates(keys, Owners(s, b))
    ensures |keys| >= 2 && Disambiguate(ns, CandidatesOf(s, keys)).Some? <==> DualOwners(s, b)
  {
    EnumerationSize(keys, Owners(s, b));
    assert MODE_MESH[0] != MODE_INGRESS[0];
    if |keys| == 2 {
      assert keys[0] in keys && keys[1] in keys && keys == [keys[0], keys[1]];
      assert Owners(s, b) == {keys[0], keys[1]};
      assert IsDual(s, b, keys[0], keys[1]) || IsDual(s, b, keys[1], keys[0]) <== Disambiguate(ns, CandidatesOf(s, keys)).Some?;
    }
    if m, i :| IsDual(s, b, m, i) {
      assert |{m, i}| == 2;
    }
  }

  /** A backend with a single owner resolves iff that owner holds the claim and mentioned it last. */
  lemma SoleOwnerResolvesIff(view: View, r: Read, b: NsName, k: RouteKey)
    requires Orders(r) && Owners(r.state, b) == {k}
    ensures Resolve(view, r, r, b).Some? <==>
            CellAt(r.state.routes, b).claim == Some(k) && LastMentionIs(r.state.routes, b, k)
  {
    SoleOwnerVisibleIff(r.state.routes, b, k);
    EnumerationSize(r.order({k}), {k});
  }

  // ----- one source attribute -----

  /** The libraries the decoding calls: IP canonicalisation and URL host extraction. */
  datatype Libs = Libs(canon: Services.Canon, urlHost: string -> string)

  function NormalizeSourceAddr(libs: Libs, key: string, raw: string): string {
    if key == "http.url" || key == "url.full" then libs.urlHost(raw) else StripPort(raw)
  }

  datatype Target = Nothing | Address(ip: string) | Backend(b: NsName)

  /** What a source attribute points at. IP literals never reach the DNS splitter. */
  function Decode(libs: Libs, view: View, key: string): Target {
    if key !in view || view[key] == "" then Nothing
    else
      var addr := NormalizeSourceAddr(libs, key, view[key]);
      if addr == "" then Nothing
      else if libs.canon(addr).Some? then Address(libs.canon(addr).value)
      else
        match SplitAddress(addr)
        case Some(b) => Backend(b)
        case None =>
          if '.' !in addr && Namespace(view).Some? && Namespace(view).value != ""
          then Backend(NsName(Namespace(view).value, addr))
          else Nothing
  }

  /** ClusterIP index first, then pod addresses: two reads. */
  function ServiceByIP(clusterIPs: Snapshot, podIPs: Snapshot, ip: string): Option<NsName> {
    var held := if clusterIPs.services.Some? then Services.HolderAt(clusterIPs.services.value, ip) else None;
    if held.Some? then held
    else if podIPs.slices.None? then None
    else
      match Pods.HoldingAt(podIPs.slices.value, ip)
      case Some(h) => Some(h.service)
      case None => None
  }

  const READS_PER_KEY := 4

  /** The backend one source attribute names, using reads t and t+1. */
  function NamedBackend(libs: Libs, view: View, sees: Reads, t: nat, key: string): Option<NsName> {
    match Decode(libs, view, key)
    case Nothing => None
    case Address(ip) => ServiceByIP(sees(t).state, sees(t + 1).state, ip)
    case Backend(b) => Some(b)
  }

  /** One source attribute, using reads t to t+3. */
  function Attempt(libs: Libs, view: View, sees: Reads, t: nat, key: string): Option<RouteAttributes> {
    match NamedBackend(libs, view, sees, t, key)
    case None => None
    case Some(b) => Resolve(view, sees(t + 2), sees(t + 3), b)
  }

  // ----- the scan over source attributes -----

  function ScanFrom(libs: Libs, view: View, sees: Reads, keys: seq<string>, i: nat): Option<RouteAttributes>
    decreases |keys| - i
  {
    if i >= |keys| then None
    else
      match Attempt(libs, view, sees, READS_PER_KEY * i, keys[i])
      case Some(ra) => Some(ra)
      case None => ScanFrom(libs, view, sees, keys, i + 1)
  }

  function Scan(libs: Libs, view: View, sees: Reads, keys: seq<string>): Option<RouteAttributes> {
    ScanFrom(libs, view, sees, keys, 0)
  }

  method ScanSources(libs: Libs, view: View, sees: Reads, keys: seq<string>) returns (r: Option<RouteAttributes>)
    ensures r == Scan(libs, view, sees, keys)
  {
    r := None;
    for i := 0 to |keys|
      invariant r == None && Scan(libs, view, sees, keys) == ScanFrom(libs, view, sees, keys, i)
    {
      r := Attempt(libs, view, sees, READS_PER_KEY * i, keys[i]);
      if r.Some? {
        return;
      }
    }
  }

  /** Attribute `i` resolves to `ra` and no earlier one resolves. */
  ghost predicate FirstToResolve(libs: Libs, view: View, sees: Reads, keys: seq<string>, i: nat, ra: RouteAttributes) {
    && i < |keys|
    && Attempt(libs, view, sees, READS_PER_KEY * i, keys[i]) == Some(ra)
    && forall j: nat | j < i :: Attempt(libs, view, sees, READS_PER_KEY * j, keys[j]) == None
  }

  lemma {:induction false} ScanFromIsFirst(libs: Libs, view: View, sees: Reads, keys: seq<string>, i: nat, ra: RouteAttributes)
    requires i <= |keys| && forall j: nat | j < i :: Attempt(libs, view, sees, READS_PER_KEY * j, keys[j]) == None
    ensures ScanFrom(libs, view, sees, keys, i) == Some(ra) <==> exists n :: FirstToResolve(libs, view, sees, keys, n, ra)
    decreases |keys| - i
  {
    if i < |keys| {
      var a := Attempt(libs, view, sees, READS_PER_KEY * i, keys[i]);
      if a.Some? {
        if a == Some(ra) {
          assert FirstToResolve(libs, view, sees, keys, i, ra);
        }
        if n: nat :| FirstToResolve(libs, view, sees, keys, n, ra) {
          assert n == i;
        }
      } else {
        ScanFromIsFirst(libs, view, sees, keys, i + 1, ra);
      }
    }
  }

  /** The fallback's winner is the first configured attribute that resolves. */
  lemma ScanIsFirstToResolve(libs: Libs, view: View, sees: Reads, keys: seq<string>, ra: RouteAttributes)
    ensures Scan(libs, view, sees, keys) == Some(ra) <==> exists n :: FirstToResolve(libs, view, sees, keys, n, ra)
  {
    ScanFromIsFirst(libs, view, sees, keys, 0, ra);
  }

  /** Every read sees a state its handlers can produce, and ranges over owner sets somehow. */
  ghost predicate Sane(sees: Reads) {
    forall t :: WellKeyed(sees(t).state.routes) && Orders(sees(t))
  }

  /** The evidence behind a stamped fallback route. */
  ghost predicate Evidence(libs: Libs, view: View, sees: Reads, keys: seq<string>, i: nat, b: NsName, ra: RouteAttributes) {
    var t := READS_PER_KEY * i;
    && FirstToResolve(libs, view, sees, keys, i, ra)
    && NamedBackend(libs, view, sees, t, keys[i]) == Some(b)
    && (Attributes(sees(t + 2).state, b, ra) || Attributes(sees(t + 3).state, b, ra))
  }

  /**
    End-to-end soundness under interleaving: whatever informer events land between
    its sees, a route the fallback settles on was live, listed the backend the
    winning attribute names, and looked exactly so, in a state one of its reads saw.
   */
  lemma FallbackIsSound(libs: Libs, view: View, sees: Reads, keys: seq<string>)
    requires Sane(sees) && Scan(libs, view, sees, keys).Some?
    ensures exists i, b :: Evidence(libs, view, sees, keys, i, b, Scan(libs, view, sees, keys).value)
  {
    var ra := Scan(libs, view, sees, keys).value;
    ScanIsFirstToResolve(libs, view, sees, keys, ra);
    var i: nat :| FirstToResolve(libs, view, sees, keys, i, ra);
    var t := READS_PER_KEY * i;
    var b := NamedBackend(libs, view, sees, t, keys[i]).value;
    ResolveIsSound(view, sees(t + 2), sees(t + 3), b);
    assert Evidence(libs, view, sees, keys, i, b, ra);
  }

  /** Some live slice of the Service lists the address. */
  ghost predicate PodEvidence(run: Pods.SliceRun, ip: string, n: NsName) {
    exists s :: Pods.LiveLister(run, s, ip) && n == NsName(s.ns, Latest(run, s).value.service)
  }

  /** An address resolves only to a Service that announces it, or whose slice lists it, when read. */
  lemma AddressEvidence(clusterIPs: Snapshot, podIPs: Snapshot, ip: string)
    requires ServiceByIP(clusterIPs, podIPs, ip).Some?
    ensures var n := ServiceByIP(clusterIPs, podIPs, ip).value;
      || (clusterIPs.services.Some? && Services.LiveAnnouncer(clusterIPs.services.value, n, ip))
      || (podIPs.slices.Some? && PodEvidence(podIPs.slices.value, ip, n))
  {
    if clusterIPs.services.Some? {
      Services.HolderIsLive(clusterIPs.services.value, ip);
    }
    if podIPs.slices.Some? {
      Pods.HoldingIsCurrent(podIPs.slices.value, ip);
    }
  }

  /** A Service's own DNS spelling names that Service, unless it happens to be an IP literal. */
  lemma DnsNameNamesService(libs: Libs, view: View, sees: Reads, t: nat, key: string, svc: string, ns: string, suffix: string, port: Option<string>)
    requires DnsLabel(svc) && DnsLabel(ns) && ':' !in svc && ':' !in ns && svc[0] != '['
    requires ':' !in suffix && (suffix == "" || suffix[0] == '.')
    requires port.Some? ==> ':' !in port.value
    requires key !in {"http.url", "url.full"} && key in view
    requires view[key] == (if port.Some? then svc + "." + ns + suffix + ([':'] + port.value) else svc + "." + ns + suffix)
    requires libs.canon(StripPort(view[key])).None?
    ensures NamedBackend(libs, view, sees, t, key) == Some(NsName(ns, svc))
  {
    ServiceAddressRoundTrip(svc, ns, suffix, port);
  }

  /** A bare host name is qualified by the workload's namespace. */
  lemma BareNameNamesService(libs: Libs, view: View, sees: Reads, t: nat, key: string, svc: string, ns: string)
    requires DnsLabel(svc) && ':' !in svc && svc[0] != '[' && ns != ""
    requires key !in {"http.url", "url.full"} && Get(view, key) == Some(svc) && Get(view, NAMESPACE_KEY) == Some(ns)
    requires libs.canon(svc).None?
    ensures NamedBackend(libs, view, sees, t, key) == Some(NsName(ns, svc))
  {
    StripPortDropsPort(svc, "");
    if SplitAddress(svc).Some? {
      SplitAddressIff(svc, SplitAddress(svc).value.name, SplitAddress(svc).value.ns);
    }
  }

  // ----- fixed lookups -----

  /** No informer event lands between the reads; iteration orders may still differ. */
  ghost predicate Fixed(sees: Reads, s: Snapshot) {
    forall t :: sees(t).state == s && Orders(sees(t))
  }

  /** On a fixed state, a backend resolves the same way at any reads. */
  lemma ResolveFixed(view: View, view': View, s: Snapshot, f: Read, g: Read, f': Read, g': Read, b: NsName)
    requires f.state == s && g.state == s && f'.state == s && g'.state == s
    requires Orders(g) && Orders(g') && Namespace(view) == Namespace(view')
    ensures Resolve(view, f, g, b) == Resolve(view', f', g', b)
  {
    OrderIsIrrelevant(Namespace(view), s, g.order(Owners(s, b)), g'.order(Owners(s, b)), Owners(s, b));
  }

  ghost predicate AgreeOn(view: View, view': View, keys: set<string>) {
    forall k | k in keys :: Get(view, k) == Get(view', k)
  }

  lemma AttemptFixed(libs: Libs, view: View, view': View, sees: Reads, sees': Reads, s: Snapshot, t: nat, t': nat, key: string)
    requires Fixed(sees, s) && Fixed(sees', s) && AgreeOn(view, view', {key, NAMESPACE_KEY})
    ensures Attempt(libs, view, sees, t, key) == Attempt(libs, view', sees', t', key)
  {
    assert Get(view, key) == Get(view', key) && Get(view, NAMESPACE_KEY) == Get(view', NAMESPACE_KEY);
    assert Decode(libs, view, key) == Decode(libs, view', key);
    assert NamedBackend(libs, view, sees, t, key) == NamedBackend(libs, view', sees', t', key);
    var b := NamedBackend(libs, view, sees, t, key);
    if b.Some? {
      ResolveFixed(view, view', s, sees(t + 2), sees(t + 3), sees'(t' + 2), sees'(t' + 3), b.value);
    }
  }

  /** On a fixed state the scan is a function of the view's source attributes and namespace. */
  lemma {:induction false} ScanFixed(libs: Libs, view: View, view': View, sees: Reads, sees': Reads, s: Snapshot, keys: seq<string>, i: nat)
    requires Fixed(sees, s) && Fixed(sees', s)
    requires AgreeOn(view, view', (set k | k in keys) + {NAMESPACE_KEY})
    ensures ScanFrom(libs, view, sees, keys, i) == ScanFrom(libs, view', sees', keys, i)
    decreases |keys| - i
  {
    if i < |keys| {
      AttemptFixed(libs, view, view', sees, sees', s, READS_PER_KEY * i, READS_PER_KEY * i, keys[i]);
      ScanFixed(libs, view, view', sees, sees', s, keys, i + 1);
    }
  }

  /** On a fixed state, identity lookup of the fallback's winner returns the winner. */
  lemma WinnerIsIdentityLookup(libs: Libs, view: View, sees: Reads, s: Snapshot, keys: seq<string>)
    requires Fixed(sees, s) && WellKeyed(s.routes) && Scan(libs, view, sees, keys).Some?
    ensures var ra := Scan(libs, view, sees, keys).value; LookupRoute(s, KeyOf(ra)) == Some(ra)
  {
    FallbackIsSound(libs, view, sees, keys);
    var ra := Scan(libs, view, sees, keys).value;
    var i: nat, b :| Evidence(libs, view, sees, keys, i, b, ra);
  }
}
