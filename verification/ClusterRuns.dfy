/**
  Runs of the whole informer set: Gateway, class, Service and route events in any
  interleaving. A route handler reads the stores one at a time and upserts later,
  so each route event carries the moments its reads were made at.
 */
module ClusterRuns {
  import opened Types
  import opened History
  import opened RouteRuns
  import PolicyRuns
  import opened RouteIndex
  import opened Projection

  /**
    When a projection made its reads, as numbers of events handled by then:
    `gateway` for the Gateway store, `next` for the class of the Gateway found or
    else for the sync flag, `service` for the Service names.
   */
  datatype Moments = Moments(gateway: nat, next: nat, service: nat)

  /** The Gateway and class handlers look for the object itself and ignore a tombstone. */
  datatype ClusterEvent =
    | RouteStored(route: RouteObject, at: Moments)
    | RouteGone(key: RouteKey)
    | GatewayStored(gw: Gateway)
    | GatewayGone(gateway: NsName, tombstone: bool)
    | ClassStored(className: string, controller: string)
    | ClassGone(className: string, tombstone: bool)
    | ServiceStored(service: NsName)
    | ServiceGone(service: NsName)
    | GatewaysSynced

  type ClusterRun = seq<ClusterEvent>

  const EMPTY_STORES := Stores(map[], map[], {}, false)

  function NameOf(gw: Gateway): NsName {
    NsName(gw.ns, gw.name)
  }

  function StoresStep(s: Stores, e: ClusterEvent): Stores {
    match e
    case GatewayStored(gw) => s.(gateways := s.gateways[NameOf(gw) := gw])
    case GatewayGone(n, tombstone) => if tombstone then s else s.(gateways := s.gateways - {n})
    case ClassStored(c, ctl) => s.(classes := s.classes[c := ctl])
    case ClassGone(c, tombstone) => if tombstone then s else s.(classes := s.classes - {c})
    case ServiceStored(n) => s.(services := s.services + {n})
    case ServiceGone(n) => s.(services := s.services - {n})
    case GatewaysSynced => s.(synced := true)
    case RouteStored(_, _) => s
    case RouteGone(_) => s
  }

  function StoresAt(run: ClusterRun): Stores {
    if run == [] then EMPTY_STORES else StoresStep(StoresAt(run[..|run| - 1]), run[|run| - 1])
  }

  lemma StoresAtStep(run: ClusterRun, e: ClusterEvent)
    ensures StoresAt(run + [e]) == StoresStep(StoresAt(run), e)
  {
    assert (run + [e])[..|run|] == run;
  }

  /** The stores once `n` events of the run have been handled. */
  function StoresBy(run: ClusterRun, n: nat): Stores {
    StoresAt(if n <= |run| then run[..n] else run)
  }

  /** What a projection with these moments finds. */
  function SeenBy(run: ClusterRun, at: Moments): Stores {
    Seen(t => StoresBy(run, if t == 0 then at.gateway else if t == 1 then at.next else at.service))
  }

  /** A handler makes its reads in program order, before it upserts. */
  predicate InOrder(at: Moments, now: nat) {
    at.gateway <= at.next <= at.service <= now
  }

  ghost predicate Timed(run: ClusterRun) {
    forall i | 0 <= i < |run| && run[i].RouteStored? :: InOrder(run[i].at, i)
  }

  function Projected(o: RouteObject, stores: Stores, cfg: Config): Revision {
    Revision(Project(o, stores, cfg), RefsOf(o))
  }

  /** The call a route handler makes on the index for one event; other handlers make none. */
  function CallsFor(front: ClusterRun, e: ClusterEvent, cfg: Config): RouteRun {
    match e
    case RouteStored(o, at) => [Upsert(ObjectKey(o), Projected(o, SeenBy(front, at), cfg))]
    case RouteGone(k) => [Delete(k)]
    case _ => []
  }

  /** The calls the route handlers make on the index. */
  function Delivered(run: ClusterRun, cfg: Config): RouteRun {
    if run == [] then []
    else
      var front, e := run[..|run| - 1], run[|run| - 1];
      Delivered(front, cfg) + CallsFor(front, e, cfg)
  }

  predicate IsAbout(e: ClusterEvent, k: RouteKey) {
    match e
    case RouteStored(o, _) => ObjectKey(o) == k
    case RouteGone(k') => k' == k
    case _ => false
  }

  /** Event `i` stored the current revision of route `k`. */
  ghost predicate StoredAt(run: ClusterRun, k: RouteKey, i: int) {
    && 0 <= i < |run|
    && run[i].RouteStored?
    && ObjectKey(run[i].route) == k
    && forall j | i < j < |run| :: !IsAbout(run[j], k)
  }

  lemma StoredAtStep(front: ClusterRun, e: ClusterEvent, k: RouteKey, i: int)
    ensures StoredAt(front + [e], k, i) <==>
            if IsAbout(e, k) then i == |front| && e.RouteStored? else StoredAt(front, k, i)
  {
    var run := front + [e];
    if 0 <= i < |front| {
      assert IsAbout(e, k) ==> IsAbout(run[|front|], k);
      assert forall j | i < j < |front| :: run[j] == front[j];
      if StoredAt(run, k, i) {
        forall j | i < j < |front| ensures !IsAbout(front[j], k) {
          assert !IsAbout(run[j], k);
        }
      }
    }
  }

  /** What event `i`'s projection found. */
  function SeenAt(run: ClusterRun, i: int): Stores
    requires 0 <= i < |run| && run[i].RouteStored?
  {
    SeenBy(run[..i], run[i].at)
  }

  /** What a route's cached revision amounts to: its last store event, projected on what that event's reads found. */
  ghost predicate ProjectedAt(run: ClusterRun, cfg: Config, k: RouteKey, rev: Revision, i: int) {
    StoredAt(run, k, i) && rev == Projected(run[i].route, SeenAt(run, i), cfg)
  }

  lemma ProjectedAtStep(front: ClusterRun, e: ClusterEvent, cfg: Config, k: RouteKey, rev: Revision, i: int)
    ensures ProjectedAt(front + [e], cfg, k, rev, i) <==>
            if IsAbout(e, k) then i == |front| && e.RouteStored? && rev == Projected(e.route, SeenBy(front, e.at), cfg)
            else ProjectedAt(front, cfg, k, rev, i)
  {
    StoredAtStep(front, e, k, i);
    if 0 <= i <= |front| {
      assert (front + [e])[..i] == front[..i];
      assert front[..|front|] == front;
    }
  }

  /**
    The index holds exactly the live routes, each as projected from what the
    separate reads of its latest delivery found.
   */
  lemma {:induction false} CacheIsLastProjection(run: ClusterRun, cfg: Config, k: RouteKey, rev: Revision)
    ensures Latest(Delivered(run, cfg), k) == Some(rev) <==> exists i :: ProjectedAt(run, cfg, k, rev, i)
  {
    if run != [] {
      var n := |run| - 1;
      var front, e := run[..n], run[n];
      assert run == front + [e];
      CacheIsLastProjection(front, cfg, k, rev);
      DeliveredStep(front, e, cfg, k);
      forall i ensures ProjectedAt(run, cfg, k, rev, i) <==>
                       if IsAbout(e, k) then i == n && e.RouteStored? && rev == Projected(e.route, SeenBy(front, e.at), cfg)
                       else ProjectedAt(front, cfg, k, rev, i) {
        ProjectedAtStep(front, e, cfg, k, rev, i);
      }
      if IsAbout(e, k) && e.RouteStored? {
        assert ProjectedAt(run, cfg, k, rev, n) <==> rev == Projected(e.route, SeenBy(front, e.at), cfg);
      }
    }
  }

  lemma DeliveredStep(front: ClusterRun, e: ClusterEvent, cfg: Config, k: RouteKey)
    ensures Latest(Delivered(front + [e], cfg), k) ==
            if !IsAbout(e, k) then Latest(Delivered(front, cfg), k)
            else if e.RouteStored? then Some(Projected(e.route, SeenBy(front, e.at), cfg))
            else None
  {
    var d := Delivered(front, cfg);
    assert (front + [e])[..|front|] == front;
    match e
    case RouteStored(o, at) => LatestStep(d, Upsert(ObjectKey(o), Projected(o, SeenBy(front, at), cfg)), k);
    case RouteGone(k') => LatestStep(d, Delete(k'), k);
    case _ => assert d + [] == d;
  }

  /** Handlers only ever upsert under the key the attributes name. */
  lemma {:induction false} HandlersAreWellKeyed(run: ClusterRun, cfg: Config)
    ensures WellKeyed(Delivered(run, cfg))
  {
    if run != [] {
      var front, e := run[..|run| - 1], run[|run| - 1];
      HandlersAreWellKeyed(front, cfg);
      if e.RouteStored? {
        ProjectKeepsIdentity(e.route, SeenBy(front, e.at), cfg);
      }
    }
  }

  lemma CachedWithoutPolicies(run: ClusterRun, cfg: Config, k: RouteKey)
    requires Latest(Delivered(run, cfg), k).Some?
    ensures Latest(Delivered(run, cfg), k).value.attrs.policies == []
  {
    var rev := Latest(Delivered(run, cfg), k).value;
    CacheIsLastProjection(run, cfg, k, rev);
    var i :| ProjectedAt(run, cfg, k, rev, i);
    ProjectHasNoPolicies(run[i].route, SeenAt(run, i), cfg);
  }

  /**
    Over all informers' runs, however their handlers interleave: of the policies of
    an informer between two handlers, identity lookup of a cached route carries
    exactly those that are live, accepted and name it.
   */
  lemma LookupIsExact(run: ClusterRun, cfg: Config, steps: PolicyRuns.Steps, mine: PolicyRuns.Mine,
                      events: seq<PolicyRuns.PolicyEvent>, k: RouteKey, r: PolicyRef)
    requires PolicyRuns.Faithful(events) && PolicyRuns.Served(steps, mine, events) && mine(r)
    requires Latest(Delivered(run, cfg), k).Some?
    ensures AttachedView(Delivered(run, cfg), steps, k).Some?
    ensures r in AttachedView(Delivered(run, cfg), steps, k).value.policies <==>
            exists p :: AttachesTo(events, r, p, k)
    ensures var ra := Latest(Delivered(run, cfg), k).value.attrs;
      AttachedView(Delivered(run, cfg), steps, k).value == ra.(policies := PolicyRuns.ListAt(steps, k))
  {
    CachedWithoutPolicies(run, cfg, k);
    LookupShowsLivePolicies(Delivered(run, cfg), steps, mine, events, k, r);
  }

  /**
    A cached route's status flags are what the last conditions of their kinds on its
    last stored object say, and nothing when flags are off.
   */
  lemma CachedStatusIff(run: ClusterRun, cfg: Config, k: RouteKey, i: int, flag: Option<bool>)
    requires StoredAt(run, k, i)
    ensures Latest(Delivered(run, cfg), k).Some?
    ensures Latest(Delivered(run, cfg), k).value.attrs.accepted == flag <==>
            if cfg.emitStatus then SaysLast(run[i].route.status, "Accepted", flag) else flag == None
    ensures Latest(Delivered(run, cfg), k).value.attrs.resolvedRefs == flag <==>
            if cfg.emitStatus then SaysLast(run[i].route.status, "ResolvedRefs", flag) else flag == None
  {
    var rev := Projected(run[i].route, SeenAt(run, i), cfg);
    assert ProjectedAt(run, cfg, k, rev, i);
    CacheIsLastProjection(run, cfg, k, rev);
    StatusIff(run[i].route, SeenAt(run, i), cfg, flag);
  }

  // ----- the stores -----

  /** A Service is known iff some event stored it and none after it withdrew it. */
  lemma {:induction false} ServiceKnownIff(run: ClusterRun, n: NsName)
    ensures n in StoresAt(run).services <==> exists j :: KnownSince(run, n, j)
  {
    if run != [] {
      var front, e := run[..|run| - 1], run[|run| - 1];
      assert run == front + [e];
      ServiceKnownIff(front, n);
      forall j ensures KnownSince(run, n, j) <==>
                       (j == |front| && e == ServiceStored(n)) || (e != ServiceGone(n) && KnownSince(front, n, j)) {
        KnownSinceStep(front, e, n, j);
      }
      if e == ServiceStored(n) {
        assert KnownSince(run, n, |front|);
      }
    }
  }

  ghost predicate KnownSince(run: ClusterRun, n: NsName, j: int) {
    0 <= j < |run| && run[j] == ServiceStored(n) && forall d | j < d < |run| :: run[d] != ServiceGone(n)
  }

  lemma KnownSinceStep(front: ClusterRun, e: ClusterEvent, n: NsName, j: int)
    ensures KnownSince(front + [e], n, j) <==>
            (j == |front| && e == ServiceStored(n)) || (e != ServiceGone(n) && KnownSince(front, n, j))
  {
    var run := front + [e];
    assert run[|front|] == e;
    if 0 <= j < |front| && KnownSince(run, n, j) {
      forall d | j < d < |front| ensures front[d] != ServiceGone(n) {
        assert run[d] == front[d];
      }
    }
  }

  /** A class has a controller stored iff some event stored it and none after it stored another or was handled as its deletion. */
  lemma {:induction false} ClassStoredIff(run: ClusterRun, c: string, ctl: string)
    ensures Get(StoresAt(run).classes, c) == Some(ctl) <==> exists j :: HeldSince(run, c, ctl, j)
  {
    if run != [] {
      var front, e := run[..|run| - 1], run[|run| - 1];
      assert run == front + [e];
      ClassStoredIff(front, c, ctl);
      forall j ensures HeldSince(run, c, ctl, j) <==>
                       (j == |front| && e == ClassStored(c, ctl)) || (!Replaces(e, c) && HeldSince(front, c, ctl, j)) {
        HeldSinceStep(front, e, c, ctl, j);
      }
      if e == ClassStored(c, ctl) {
        assert HeldSince(run, c, ctl, |front|);
      }
    }
  }

  predicate Replaces(e: ClusterEvent, c: string) {
    (e.ClassStored? && e.className == c) || e == ClassGone(c, false)
  }

  ghost predicate HeldSince(run: ClusterRun, c: string, ctl: string, j: int) {
    0 <= j < |run| && run[j] == ClassStored(c, ctl) && forall d | j < d < |run| :: !Replaces(run[d], c)
  }

  lemma HeldSinceStep(front: ClusterRun, e: ClusterEvent, c: string, ctl: string, j: int)
    ensures HeldSince(front + [e], c, ctl, j) <==>
            (j == |front| && e == ClassStored(c, ctl)) || (!Replaces(e, c) && HeldSince(front, c, ctl, j))
  {
    var run := front + [e];
    assert run[|front|] == e;
    if 0 <= j < |front| && HeldSince(run, c, ctl, j) {
      forall d | j < d < |front| ensures !Replaces(front[d], c) {
        assert run[d] == front[d];
      }
    }
  }

  // ----- the sync flag and the Gateway store -----

  /** The sync flag stays up, and is up exactly once the informers have reported. */
  lemma {:induction false} SyncedIff(run: ClusterRun)
    ensures StoresAt(run).synced <==> GatewaysSynced in run
  {
    if run != [] {
      var n := |run| - 1;
      SyncedIff(run[..n]);
      assert run == run[..n] + [run[n]];
    }
  }

  lemma SyncedStays(run: ClusterRun, m: nat)
    requires StoresBy(run, m).synced
    ensures StoresAt(run).synced
  {
    var front := if m <= |run| then run[..m] else run;
    SyncedIff(front);
    SyncedIff(run);
    assert forall e | e in front :: e in run;
  }

  /** The Gateway store holds each Gateway under its own name. */
  lemma {:induction false} GatewaysAreKeyed(run: ClusterRun)
    ensures Keyed(StoresAt(run))
  {
    if run != [] {
      GatewaysAreKeyed(run[..|run| - 1]);
    }
  }

  /** The name of a route's first parent. */
  function FirstParent(o: RouteObject): NsName
    requires o.parentRefs != []
  {
    NsName(ParentNs(o.parentRefs[0], o.ns), o.parentRefs[0].name)
  }

  /** Before the informers report sync, no cached projection is an inferred one. */
  lemma NoInferenceBeforeSync(run: ClusterRun, cfg: Config, k: RouteKey, rev: Revision)
    requires GatewaysSynced !in run && Latest(Delivered(run, cfg), k) == Some(rev)
    ensures exists i :: ProjectedAt(run, cfg, k, rev, i) && !InferredMesh(run[i].route, SeenAt(run, i), cfg)
  {
    CacheIsLastProjection(run, cfg, k, rev);
    var i :| ProjectedAt(run, cfg, k, rev, i);
    if SeenAt(run, i).synced {
      SyncedStays(run[..i], run[i].at.next);
      SyncedIff(run[..i]);
    }
  }

  // ----- what a cached attribution rests on -----

  lemma SeenInOrder(run: ClusterRun, i: int)
    requires Timed(run) && 0 <= i < |run| && run[i].RouteStored?
    ensures var at := run[i].at;
      SeenAt(run, i) ==
      Stores(StoresAt(run[..at.gateway]).gateways, StoresAt(run[..at.next]).classes,
             StoresAt(run[..at.service]).services, StoresAt(run[..at.next]).synced)
  {
    var front, at := run[..i], run[i].at;
    assert front[..at.gateway] == run[..at.gateway] && StoresBy(front, at.gateway) == StoresAt(run[..at.gateway]);
    assert front[..at.next] == run[..at.next] && StoresBy(front, at.next) == StoresAt(run[..at.next]);
    assert front[..at.service] == run[..at.service] && StoresBy(front, at.service) == StoresAt(run[..at.service]);
  }

  /** Event `i`'s projection found no Gateway at its first read, the flag up at its second, the Service at its third. */
  ghost predicate GuardedAt(run: ClusterRun, cfg: Config, i: int)
    requires Timed(run)
  {
    && 0 <= i < |run| && run[i].RouteStored?
    && var o, at := run[i].route, run[i].at;
       && o.parentRefs != []
       && cfg.inferServiceParent && IsNilKindCoreParent(o.parentRefs[0])
       && FirstParent(o) !in StoresAt(run[..at.gateway]).gateways
       && GatewaysSynced in run[..at.next]
       && FirstParent(o) in StoresAt(run[..at.service]).services
  }

  lemma GuardedIff(run: ClusterRun, cfg: Config, i: int)
    requires Timed(run) && 0 <= i < |run| && run[i].RouteStored?
    ensures GuardedAt(run, cfg, i) <==> InferredMesh(run[i].route, SeenAt(run, i), cfg)
  {
    SeenInOrder(run, i);
    SyncedIff(run[..run[i].at.next]);
  }

  /** Event `i`'s first parent was a stored waypoint Gateway at its first read. */
  ghost predicate WaypointAt(run: ClusterRun, cfg: Config, i: int)
    requires Timed(run)
  {
    && 0 <= i < |run| && run[i].RouteStored?
    && var o := run[i].route;
       && o.parentRefs != []
       && !IsServiceParent(o.parentRefs[0])
       && var gateways := StoresAt(run[..run[i].at.gateway]).gateways;
          FirstParent(o) in gateways && WaypointImplForClass(cfg, gateways[FirstParent(o)].className) != ""
  }

  /**
    A route is cached as mesh iff, when its current revision was projected, its
    first parent was an explicit Service, a waypoint Gateway stored at the Gateway
    read, or passed all the guards of inference, each at its own read.
   */
  lemma InferenceIsGuarded(run: ClusterRun, cfg: Config, k: RouteKey, i: int)
    requires Timed(run) && StoredAt(run, k, i)
    ensures Latest(Delivered(run, cfg), k).Some?
    ensures Latest(Delivered(run, cfg), k).value.attrs.routeMode == MODE_MESH <==>
            && run[i].route.parentRefs != []
            && (IsServiceParent(run[i].route.parentRefs[0]) || WaypointAt(run, cfg, i) || GuardedAt(run, cfg, i))
  {
    var rev := Projected(run[i].route, SeenAt(run, i), cfg);
    assert ProjectedAt(run, cfg, k, rev, i);
    CacheIsLastProjection(run, cfg, k, rev);
    MeshIff(run[i].route, SeenAt(run, i), cfg);
    GuardedIff(run, cfg, i);
    SeenInOrder(run, i);
  }

  /** `attrs` carries the identity of the Gateway stored under the route's first parent. */
  ghost predicate NamesGateway(attrs: RouteAttributes, o: RouteObject, gateways: map<NsName, Gateway>) {
    && o.parentRefs != []
    && var n := FirstParent(o);
       && n in gateways
       && attrs.gatewayName == n.name && attrs.gatewayNs == n.ns
       && attrs.gatewayUid == gateways[n].uid && attrs.gatewayClass == gateways[n].className
       && (attrs.waypointImpl != "" ==> attrs.waypointName == n.name && attrs.waypointNs == n.ns)
  }

  /**
    A cached route with Gateway attribution carries the identity its first parent
    names, and the class and uid of the Gateway stored under it at the Gateway read.
   */
  lemma GatewayIdentityMatchesParent(run: ClusterRun, cfg: Config, k: RouteKey, i: int)
    requires Timed(run) && StoredAt(run, k, i)
    requires Latest(Delivered(run, cfg), k).Some? && Latest(Delivered(run, cfg), k).value.attrs.gatewayName != ""
    ensures NamesGateway(Latest(Delivered(run, cfg), k).value.attrs, run[i].route, StoresAt(run[..run[i].at.gateway]).gateways)
  {
    var rev := Projected(run[i].route, SeenAt(run, i), cfg);
    assert ProjectedAt(run, cfg, k, rev, i);
    CacheIsLastProjection(run, cfg, k, rev);
    SeenInOrder(run, i);
    GatewaysAreKeyed(run[..run[i].at.gateway]);
    GatewayAttribution(run[i].route, SeenAt(run, i), cfg);
  }
}
