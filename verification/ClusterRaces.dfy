/**
  How far a cached inference can be trusted: its guards are read one at a time, it
  is cached, and the Gateway store it consulted misses tombstoned deletions.
 */
module ClusterRaces {
  import opened Types
  import opened History
  import opened Projection
  import opened ClusterRuns

  // ----- the Gateway store, said of the run -----

  predicate StoresGateway(e: ClusterEvent, n: NsName) {
    e.GatewayStored? && NameOf(e.gw) == n
  }

  predicate IsAboutGateway(e: ClusterEvent, n: NsName) {
    StoresGateway(e, n) || (e.GatewayGone? && e.gateway == n)
  }

  /** Event `j` was the last to store Gateway `n`, and nothing but tombstones has been heard of it since. */
  ghost predicate KeptSince(run: ClusterRun, n: NsName, j: int) {
    && 0 <= j < |run|
    && StoresGateway(run[j], n)
    && forall d | j < d < |run| && IsAboutGateway(run[d], n) :: run[d] == GatewayGone(n, true)
  }

  lemma KeptSinceStep(front: ClusterRun, e: ClusterEvent, n: NsName, j: int)
    ensures KeptSince(front + [e], n, j) <==>
            if StoresGateway(e, n) then j == |front|
            else if e == GatewayGone(n, false) then false
            else KeptSince(front, n, j)
  {
    var run := front + [e];
    assert run[|front|] == e;
    if 0 <= j < |front| {
      if KeptSince(run, n, j) {
        forall d | j < d < |front| && IsAboutGateway(front[d], n) ensures front[d] == GatewayGone(n, true) {
          assert run[d] == front[d];
        }
      }
      if KeptSince(front, n, j) && !StoresGateway(e, n) && e != GatewayGone(n, false) {
        forall d | j < d < |run| && IsAboutGateway(run[d], n) ensures run[d] == GatewayGone(n, true) {
          assert d < |front| ==> run[d] == front[d];
        }
      }
    }
  }

  /** The Gateway store holds `gw` under `n` iff some event stored it and was not overtaken by a handled event. */
  lemma {:induction false} GatewayStoredIff(run: ClusterRun, n: NsName, gw: Gateway)
    ensures Get(StoresAt(run).gateways, n) == Some(gw) <==> exists j :: KeptSince(run, n, j) && run[j].gw == gw
  {
    if run != [] {
      var front, e := run[..|run| - 1], run[|run| - 1];
      assert run == front + [e];
      GatewayStoredIff(front, n, gw);
      forall j ensures KeptSince(run, n, j) <==>
                       if StoresGateway(e, n) then j == |front| else if e == GatewayGone(n, false) then false else KeptSince(front, n, j) {
        KeptSinceStep(front, e, n, j);
      }
      if StoresGateway(e, n) {
        assert KeptSince(run, n, |front|);
      } else if e != GatewayGone(n, false) {
        assert Get(StoresAt(run).gateways, n) == Get(StoresAt(front).gateways, n);
        if j :| KeptSince(front, n, j) && front[j].gw == gw {
          assert KeptSince(run, n, j) && run[j].gw == gw;
        }
        if j :| KeptSince(run, n, j) && run[j].gw == gw {
          assert KeptSince(front, n, j) && front[j].gw == gw;
        }
      }
    }
  }

  lemma GatewayInStoreIff(run: ClusterRun, n: NsName)
    ensures n in StoresAt(run).gateways <==> exists j :: KeptSince(run, n, j)
  {
    if n in StoresAt(run).gateways {
      GatewayStoredIff(run, n, StoresAt(run).gateways[n]);
    }
    if j :| KeptSince(run, n, j) {
      GatewayStoredIff(run, n, run[j].gw);
    }
  }

  // ----- guards read one at a time -----

  /** A Gateway named `n` was stored at or after moment `g` and is still there. */
  ghost predicate AppearedSince(run: ClusterRun, n: NsName, g: nat) {
    exists j :: g <= j && KeptSince(run, n, j)
  }

  /** A Gateway absent at moment `g` is stored later iff it appeared since. */
  lemma AbsentUntilAppears(run: ClusterRun, n: NsName, g: nat)
    requires g <= |run| && n !in StoresAt(run[..g]).gateways
    ensures n in StoresAt(run).gateways <==> AppearedSince(run, n, g)
  {
    GatewayInStoreIff(run, n);
    GatewayInStoreIff(run[..g], n);
    if j :| KeptSince(run, n, j) {
      KeptInPrefix(run, n, g, j);
    }
  }

  lemma KeptInPrefix(run: ClusterRun, n: NsName, g: nat, j: int)
    requires KeptSince(run, n, j) && g <= |run|
    ensures j < g ==> KeptSince(run[..g], n, j)
  {
    assert forall d | 0 <= d < g :: run[..g][d] == run[d];
  }

  /** All of inference's guards hold of event `i`'s route in the stores of moment `m`. */
  ghost predicate InferredIn(run: ClusterRun, cfg: Config, i: int, m: nat)
    requires 0 <= i < |run| && run[i].RouteStored? && m <= |run|
  {
    InferredMesh(run[i].route, StoresAt(run[..m]), cfg)
  }

  /**
    The guards of an inference are read at three moments, so they need never have
    held together. They hold together when the last of them is read iff no Gateway
    of that name has appeared since the first.
   */
  lemma GuardsHoldTogetherIff(run: ClusterRun, cfg: Config, i: int)
    requires Timed(run) && GuardedAt(run, cfg, i)
    ensures InferredIn(run, cfg, i, run[i].at.service) <==>
            !AppearedSince(run[..run[i].at.service], FirstParent(run[i].route), run[i].at.gateway)
  {
    var at, n := run[i].at, FirstParent(run[i].route);
    var front := run[..at.service];
    assert front[..at.gateway] == run[..at.gateway];
    AbsentUntilAppears(front, n, at.gateway);
    SyncedIff(run[..at.next]);
    assert front[..at.next] == run[..at.next];
    SyncedStays(front, at.next);
  }

  /** At moment `m` the informers have reported, and of `n` a Service is known and no Gateway has appeared since `g`. */
  ghost predicate WindowAt(run: ClusterRun, n: NsName, g: nat, m: nat)
    requires m <= |run|
  {
    GatewaysSynced in run[..m] && n in StoresAt(run[..m]).services && !AppearedSince(run[..m], n, g)
  }

  /**
    They held together at some moment of the projection iff the run has a moment
    between its first and last read, after the sync report, at which the Service is
    known and no Gateway of that name has appeared since the first read.
   */
  lemma GuardsEverHoldTogetherIff(run: ClusterRun, cfg: Config, i: int)
    requires Timed(run) && GuardedAt(run, cfg, i)
    ensures var at := run[i].at;
      (exists m | at.gateway <= m <= at.service :: InferredIn(run, cfg, i, m)) <==>
      exists m | at.gateway <= m <= at.service :: WindowAt(run, FirstParent(run[i].route), at.gateway, m)
  {
    var at, n := run[i].at, FirstParent(run[i].route);
    forall m | at.gateway <= m <= at.service ensures InferredIn(run, cfg, i, m) <==> WindowAt(run, n, at.gateway, m) {
      assert run[..m][..at.gateway] == run[..at.gateway];
      AbsentUntilAppears(run[..m], n, at.gateway);
      SyncedIff(run[..m]);
    }
  }

  /**
    The race: the Gateway lookup misses, the Gateway arrives, the informers report,
    and the flag and the Service are found. The route is cached as inferred mesh
    although no state of the run satisfies the guards.
   */
  lemma GatewayArrivesBetweenReads(o: RouteObject, gw: Gateway, cfg: Config)
    requires o.parentRefs != [] && cfg.inferServiceParent && IsNilKindCoreParent(o.parentRefs[0])
    requires NameOf(gw) == FirstParent(o)
    ensures var run := RacingRun(o, gw);
      && Timed(run) && GuardedAt(run, cfg, 3)
      && Latest(Delivered(run, cfg), ObjectKey(o)).Some?
      && Latest(Delivered(run, cfg), ObjectKey(o)).value.attrs.routeMode == MODE_MESH
      && forall m | 0 <= m <= |run| :: !InferredIn(run, cfg, 3, m)
  {
    var run := RacingRun(o, gw);
    RacingStores(o, gw);
    assert GatewaysSynced == run[..3][2];
    assert GuardedAt(run, cfg, 3);
    InferenceIsGuarded(run, cfg, ObjectKey(o), 3);
    forall m | 0 <= m <= |run| ensures !InferredIn(run, cfg, 3, m) {
      if m <= 2 {
        assert !StoresAt(run[..m]).synced;
      } else {
        assert NameOf(gw) in StoresAt(run[..m]).gateways;
      }
    }
  }

  function RacingRun(o: RouteObject, gw: Gateway): ClusterRun {
    [ServiceStored(NameOf(gw)), GatewayStored(gw), GatewaysSynced, RouteStored(o, Moments(1, 3, 3))]
  }

  lemma RacingStores(o: RouteObject, gw: Gateway)
    ensures var run := RacingRun(o, gw);
      && (forall m | 0 <= m <= 2 :: !StoresAt(run[..m]).synced)
      && StoresAt(run[..1]).gateways == map[]
      && (forall m | 2 <= m <= 4 :: NameOf(gw) in StoresAt(run[..m]).gateways)
      && NameOf(gw) in StoresAt(run[..3]).services
  {
    var run := RacingRun(o, gw);
    PrefixStep(run, 0);
    PrefixStep(run, 1);
    PrefixStep(run, 2);
    PrefixStep(run, 3);
    assert StoresAt(run[..0]) == EMPTY_STORES;
  }

  lemma PrefixStep(run: ClusterRun, m: nat)
    requires m < |run|
    ensures StoresAt(run[..m + 1]) == StoresStep(StoresAt(run[..m]), run[m])
  {
    assert run[..m + 1][..m] == run[..m];
  }

  // ----- an inference outlives its reasons -----

  /**
    For every cached inference: projecting the route again would infer again iff
    the store still lacks the Gateway and still has the Service. It would stop
    being mesh iff the parent is now a stored Gateway of no waypoint class, or
    neither a Gateway nor a Service.
   */
  lemma InferenceStandsIff(run: ClusterRun, cfg: Config, k: RouteKey, i: int)
    requires StoredAt(run, k, i) && InferredMesh(run[i].route, SeenAt(run, i), cfg)
    ensures Latest(Delivered(run, cfg), k).Some? && Latest(Delivered(run, cfg), k).value.attrs.routeMode == MODE_MESH
    ensures var o, now, parent := run[i].route, StoresAt(run), FirstParent(run[i].route);
      && (InferredMesh(o, now, cfg) <==> parent !in now.gateways && parent in now.services)
      && (Project(o, now, cfg).routeMode != MODE_MESH <==>
          if parent in now.gateways then WaypointImplForClass(cfg, now.gateways[parent].className) == ""
          else parent !in now.services)
  {
    var o, rev := run[i].route, Projected(run[i].route, SeenAt(run, i), cfg);
    assert ProjectedAt(run, cfg, k, rev, i);
    CacheIsLastProjection(run, cfg, k, rev);
    MeshIff(o, SeenAt(run, i), cfg);
    MeshIff(o, StoresAt(run), cfg);
    FlagWasUp(run, cfg, i);
  }

  lemma FlagWasUp(run: ClusterRun, cfg: Config, i: int)
    requires 0 <= i < |run| && run[i].RouteStored? && InferredMesh(run[i].route, SeenAt(run, i), cfg)
    ensures StoresAt(run).synced
  {
    SyncedStays(run[..i], run[i].at.next);
    SyncedIff(run[..i]);
    SyncedIff(run);
    assert forall e | e in run[..i] :: e in run;
  }

  /**
    The first way to stop standing needs no Gateway to be created: the flag is about
    informers, not handlers, so a route projected after sync but before its
    Gateway's handler ran is cached as mesh although the Gateway exists.
   */
  lemma SyncFlagRunsAheadOfStore(o: RouteObject, gw: Gateway, cfg: Config)
    requires o.parentRefs != [] && cfg.inferServiceParent && IsNilKindCoreParent(o.parentRefs[0])
    requires NameOf(gw) == FirstParent(o)
    requires WaypointImplForClass(cfg, gw.className) == ""
    ensures var run := [ServiceStored(NameOf(gw)), GatewaysSynced, RouteStored(o, Moments(2, 2, 2)), GatewayStored(gw)];
      && Latest(Delivered(run, cfg), ObjectKey(o)).Some?
      && Latest(Delivered(run, cfg), ObjectKey(o)).value.attrs.routeMode == MODE_MESH
      && Project(o, StoresAt(run), cfg).routeMode == MODE_INGRESS
  {
    var run := [ServiceStored(NameOf(gw)), GatewaysSynced, RouteStored(o, Moments(2, 2, 2)), GatewayStored(gw)];
    PrefixStep(run, 0);
    PrefixStep(run, 1);
    PrefixStep(run, 3);
    assert run[..4] == run;
    assert GatewaysSynced == run[..2][1];
    assert GuardedAt(run, cfg, 2);
    GuardedIff(run, cfg, 2);
    InferenceStandsIff(run, cfg, ObjectKey(o), 2);
    MeshIff(o, StoresAt(run), cfg);
  }

  // ----- tombstones -----

  /** What the informers announce about Gateways, tombstones included. */
  function GatewayNews(run: ClusterRun): seq<Event<NsName, Gateway>> {
    if run == [] then []
    else
      GatewayNews(run[..|run| - 1]) +
      match run[|run| - 1]
      case GatewayStored(gw) => [Upsert(NameOf(gw), gw)]
      case GatewayGone(n, _) => [Delete(n)]
      case _ => []
  }

  lemma NewsStep(front: ClusterRun, e: ClusterEvent, n: NsName)
    ensures Latest(GatewayNews(front + [e]), n) ==
            if StoresGateway(e, n) then Some(e.gw)
            else if IsAboutGateway(e, n) then None
            else Latest(GatewayNews(front), n)
  {
    assert (front + [e])[..|front|] == front;
    match e
    case GatewayStored(gw) => LatestStep(GatewayNews(front), Upsert(NameOf(gw), gw), n);
    case GatewayGone(n', _) => LatestStep(GatewayNews(front), Delete(n'), n);
    case _ => assert GatewayNews(front) + [] == GatewayNews(front);
  }

  /** Gateway `n` was deleted since it was last stored, and every such deletion was a tombstone. */
  ghost predicate LeftBehind(run: ClusterRun, n: NsName) {
    exists j, d :: KeptSince(run, n, j) && j < d < |run| && run[d] == GatewayGone(n, true)
  }

  lemma LeftBehindStep(front: ClusterRun, e: ClusterEvent, n: NsName)
    ensures LeftBehind(front + [e], n) <==>
            if e == GatewayGone(n, true) then n in StoresAt(front).gateways
            else !IsAboutGateway(e, n) && LeftBehind(front, n)
  {
    var run := front + [e];
    GatewayInStoreIff(front, n);
    forall j ensures KeptSince(run, n, j) <==>
                     if StoresGateway(e, n) then j == |front| else if e == GatewayGone(n, false) then false else KeptSince(front, n, j) {
      KeptSinceStep(front, e, n, j);
    }
    if e == GatewayGone(n, true) {
      if j :| KeptSince(front, n, j) {
        assert KeptSince(run, n, j) && run[|front|] == e;
      }
    } else if j, d :| KeptSince(front, n, j) && j < d < |front| && front[d] == GatewayGone(n, true) {
      assert run[d] == front[d];
      if !IsAboutGateway(e, n) {
        assert KeptSince(run, n, j);
      }
    }
  }

  /**
    The Gateway store shows what the informers announced about a Gateway iff that
    Gateway was not left behind by a tombstone, which its delete handler ignores.
   */
  lemma {:induction false} StoreIsExactIff(run: ClusterRun, n: NsName)
    ensures Get(StoresAt(run).gateways, n) == Latest(GatewayNews(run), n) <==> !LeftBehind(run, n)
  {
    if run != [] {
      var front, e := run[..|run| - 1], run[|run| - 1];
      assert run == front + [e];
      StoreIsExactIff(front, n);
      NewsStep(front, e, n);
      LeftBehindStep(front, e, n);
      StoreStep(front, e, n);
    }
  }

  lemma StoreStep(front: ClusterRun, e: ClusterEvent, n: NsName)
    ensures Get(StoresAt(front + [e]).gateways, n) ==
            if StoresGateway(e, n) then Some(e.gw)
            else if e == GatewayGone(n, false) then None
            else Get(StoresAt(front).gateways, n)
  {
    StoresAtStep(front, e);
  }

  /** The shortest such run: a Gateway stored, then deleted by a tombstone, is still stored. */
  lemma TombstoneWitness(gw: Gateway)
    ensures var run, n := [GatewayStored(gw), GatewayGone(NameOf(gw), true)], NameOf(gw);
      && LeftBehind(run, n)
      && Get(StoresAt(run).gateways, n) == Some(gw)
      && Latest(GatewayNews(run), n) == None
  {
    var run, n := [GatewayStored(gw), GatewayGone(NameOf(gw), true)], NameOf(gw);
    assert KeptSince(run, n, 0) && run[1] == GatewayGone(n, true);
    GatewayStoredIff(run, n, gw);
    LeftBehindIsGone(run, n);
  }

  lemma LeftBehindIsStored(run: ClusterRun, n: NsName)
    requires LeftBehind(run, n)
    ensures n in StoresAt(run).gateways && Latest(GatewayNews(run), n) == None
  {
    GatewayInStoreIff(run, n);
    LeftBehindIsGone(run, n);
  }

  lemma {:induction false} LeftBehindIsGone(run: ClusterRun, n: NsName)
    requires LeftBehind(run, n)
    ensures Latest(GatewayNews(run), n) == None
  {
    var front, e := run[..|run| - 1], run[|run| - 1];
    assert run == front + [e];
    NewsStep(front, e, n);
    LeftBehindStep(front, e, n);
    if !IsAboutGateway(e, n) {
      LeftBehindIsGone(front, n);
    }
  }
}
