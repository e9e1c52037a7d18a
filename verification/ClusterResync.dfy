/**
  What a resync makes of a whole run. All informers resync on one period, so the
  redelivered routes come mixed with redelivered Gateways, classes and Services,
  and with whatever else happens to those meanwhile.
 */
module ClusterResync {
  import opened Types
  import opened History
  import opened RouteRuns
  import opened RouteResync
  import opened Projection
  import opened ClusterRuns
  import opened ClusterRaces

  /** The live object of route `k`. */
  ghost predicate LiveObject(run: ClusterRun, k: RouteKey, o: RouteObject) {
    exists i :: StoredAt(run, k, i) && run[i].route == o
  }

  /** Live route objects delivered once more, unchanged, in any order, amid any events of the stores. */
  ghost predicate PartialResync(run: ClusterRun, again: ClusterRun) {
    && (forall i | 0 <= i < |again| :: !again[i].RouteGone?)
    && (forall i | 0 <= i < |again| && again[i].RouteStored? :: LiveObject(run, ObjectKey(again[i].route), again[i].route))
    && (forall i, j | 0 <= i < j < |again| && again[i].RouteStored? && again[j].RouteStored? ::
          ObjectKey(again[i].route) != ObjectKey(again[j].route))
  }

  predicate Redelivers(e: ClusterEvent, k: RouteKey) {
    e.RouteStored? && ObjectKey(e.route) == k
  }

  ghost predicate Covers(again: ClusterRun, k: RouteKey) {
    exists i | 0 <= i < |again| :: Redelivers(again[i], k)
  }

  /** Every live route object among them. */
  ghost predicate Resync(run: ClusterRun, again: ClusterRun) {
    && PartialResync(run, again)
    && (forall k, o | LiveObject(run, k, o) :: Covers(again, k))
  }

  // ----- the calls of a resync -----

  /** The calls made on the index while `again` is handled after `run`. */
  function CallsDuring(run: ClusterRun, again: ClusterRun, cfg: Config): RouteRun {
    if again == [] then []
    else
      var front, e := again[..|again| - 1], again[|again| - 1];
      CallsDuring(run, front, cfg) + CallsFor(run + front, e, cfg)
  }

  lemma {:induction false} DeliveredDuring(run: ClusterRun, again: ClusterRun, cfg: Config)
    ensures Delivered(run + again, cfg) == Delivered(run, cfg) + CallsDuring(run, again, cfg)
  {
    if again == [] {
      assert run + again == run;
    } else {
      var front, e := again[..|again| - 1], again[|again| - 1];
      assert again == front + [e];
      DeliveredDuring(run, front, cfg);
      DeliverOne(run, front, e, cfg, Delivered(run, cfg));
    }
  }

  lemma DeliverOne(run: ClusterRun, front: ClusterRun, e: ClusterEvent, cfg: Config, d: RouteRun)
    requires Delivered(run + front, cfg) == d + CallsDuring(run, front, cfg)
    ensures Delivered(run + (front + [e]), cfg) == d + CallsDuring(run, front + [e], cfg)
  {
    var all := run + (front + [e]);
    assert all[..|all| - 1] == run + front && all[|all| - 1] == e;
    assert (front + [e])[..|front|] == front;
    assert Delivered(all, cfg) == d + CallsDuring(run, front, cfg) + CallsFor(run + front, e, cfg);
  }

  lemma LiveObjectIsCached(run: ClusterRun, cfg: Config, k: RouteKey, o: RouteObject)
    requires LiveObject(run, k, o)
    ensures Latest(Delivered(run, cfg), k).Some? && Latest(Delivered(run, cfg), k).value.refs == RefsOf(o)
  {
    var i :| StoredAt(run, k, i) && run[i].route == o;
    assert ProjectedAt(run, cfg, k, Projected(o, SeenAt(run, i), cfg), i);
    CacheIsLastProjection(run, cfg, k, Projected(o, SeenAt(run, i), cfg));
  }

  lemma PartialResyncFront(run: ClusterRun, again: ClusterRun)
    requires PartialResync(run, again) && again != []
    ensures PartialResync(run, again[..|again| - 1])
    ensures var e := again[|again| - 1]; e.RouteStored? ==> !Covers(again[..|again| - 1], ObjectKey(e.route))
  {
  }

  lemma CoversStep(front: ClusterRun, e: ClusterEvent, k: RouteKey)
    ensures Covers(front + [e], k) <==> Redelivers(e, k) || Covers(front, k)
  {
    var again := front + [e];
    assert again[|front|] == e;
    if i :| 0 <= i < |front| && Redelivers(front[i], k) {
      assert Redelivers(again[i], k);
    }
    if i :| 0 <= i < |again| && Redelivers(again[i], k) {
      assert i < |front| ==> Redelivers(front[i], k);
    }
  }

  lemma UpsertedStep(front: RouteRun, e: RouteEvent, k: RouteKey)
    ensures UpsertedIn(front + [e], k) <==> e.key == k || UpsertedIn(front, k)
  {
    var round := front + [e];
    assert round[|front|] == e;
    if i :| 0 <= i < |front| && front[i].key == k {
      assert round[i].key == k;
    }
    if i :| 0 <= i < |round| && round[i].key == k {
      assert i < |front| ==> front[i].key == k;
    }
  }

  /** The calls of a resync visit each redelivered route once, with the refs it already had. */
  lemma {:induction false} CallsAreRound(run: ClusterRun, again: ClusterRun, cfg: Config)
    requires PartialResync(run, again)
    ensures PartialRound(Delivered(run, cfg), CallsDuring(run, again, cfg))
    ensures forall k :: UpsertedIn(CallsDuring(run, again, cfg), k) <==> Covers(again, k)
  {
    if again != [] {
      var front, e := again[..|again| - 1], again[|again| - 1];
      assert again == front + [e];
      PartialResyncFront(run, again);
      CallsAreRound(run, front, cfg);
      forall k ensures Covers(again, k) <==> Redelivers(e, k) || Covers(front, k) {
        CoversStep(front, e, k);
      }
      if e.RouteStored? {
        OneMoreCall(run, front, e, cfg);
      } else {
        assert CallsDuring(run, again, cfg) == CallsDuring(run, front, cfg);
      }
    }
  }

  lemma OneMoreCall(run: ClusterRun, front: ClusterRun, e: ClusterEvent, cfg: Config)
    requires e.RouteStored? && LiveObject(run, ObjectKey(e.route), e.route)
    requires PartialRound(Delivered(run, cfg), CallsDuring(run, front, cfg))
    requires !UpsertedIn(CallsDuring(run, front, cfg), ObjectKey(e.route))
    ensures PartialRound(Delivered(run, cfg), CallsDuring(run, front + [e], cfg))
    ensures forall k :: UpsertedIn(CallsDuring(run, front + [e], cfg), k) <==>
                        Redelivers(e, k) || UpsertedIn(CallsDuring(run, front, cfg), k)
  {
    var before := CallsDuring(run, front, cfg);
    var call := Upsert(ObjectKey(e.route), Projected(e.route, SeenBy(run + front, e.at), cfg));
    assert (front + [e])[..|front|] == front;
    assert CallsDuring(run, front + [e], cfg) == before + [call];
    LiveObjectIsCached(run, cfg, ObjectKey(e.route), e.route);
    assert SameRefs(Delivered(run, cfg), call);
    RoundExtends(Delivered(run, cfg), before, call);
    forall k ensures UpsertedIn(before + [call], k) <==> Redelivers(e, k) || UpsertedIn(before, k) {
      UpsertedStep(before, call, k);
    }
  }

  lemma RoundExtends(d: RouteRun, round: RouteRun, e: RouteEvent)
    requires PartialRound(d, round) && SameRefs(d, e) && !UpsertedIn(round, e.key)
    ensures PartialRound(d, round + [e])
  {
  }

  /** Whatever happens to the stores meanwhile, a resync is a full round of the route index. */
  lemma ResyncIsFullRound(run: ClusterRun, again: ClusterRun, cfg: Config)
    requires Resync(run, again)
    ensures FullRound(Delivered(run, cfg), CallsDuring(run, again, cfg))
    ensures Delivered(run + again, cfg) == Delivered(run, cfg) + CallsDuring(run, again, cfg)
  {
    CallsAreRound(run, again, cfg);
    DeliveredDuring(run, again, cfg);
    var d := Delivered(run, cfg);
    forall k | Latest(d, k).Some? ensures UpsertedIn(CallsDuring(run, again, cfg), k) {
      CacheIsLastProjection(run, cfg, k, Latest(d, k).value);
      var i :| ProjectedAt(run, cfg, k, Latest(d, k).value, i);
      assert LiveObject(run, k, run[i].route);
    }
  }

  // ----- what each route is cached as -----

  lemma LiveObjectIsUnique(run: ClusterRun, k: RouteKey, o: RouteObject, o': RouteObject)
    requires LiveObject(run, k, o) && LiveObject(run, k, o')
    ensures o == o'
  {
    var i :| StoredAt(run, k, i) && run[i].route == o;
    var i' :| StoredAt(run, k, i') && run[i'].route == o';
    assert IsAbout(run[i], k) && IsAbout(run[i'], k);
  }

  /** Event `j` of the resync redelivered `o`, and route `k` is cached as that delivery's reads project it. */
  ghost predicate RefreshedAt(run: ClusterRun, again: ClusterRun, cfg: Config, k: RouteKey, o: RouteObject, j: int) {
    && 0 <= j < |again| && again[j].RouteStored? && again[j].route == o
    && Latest(Delivered(run + again, cfg), k) == Some(Projected(o, SeenBy(run + again[..j], again[j].at), cfg))
  }

  /** A resync caches every live route as projected, during the resync, from what its separate reads found. */
  lemma ResyncRefreshes(run: ClusterRun, again: ClusterRun, cfg: Config, k: RouteKey, o: RouteObject)
    requires Resync(run, again) && LiveObject(run, k, o)
    ensures exists j :: RefreshedAt(run, again, cfg, k, o, j)
  {
    assert Covers(again, k);
    var j :| 0 <= j < |again| && Redelivers(again[j], k);
    LiveObjectIsUnique(run, k, o, again[j].route);
    RedeliveredLast(run, again, k, j);
    var i := |run| + j;
    assert (run + again)[..i] == run + again[..j];
    var rev := Projected(o, SeenAt(run + again, i), cfg);
    assert ProjectedAt(run + again, cfg, k, rev, i);
    CacheIsLastProjection(run + again, cfg, k, rev);
    assert RefreshedAt(run, again, cfg, k, o, j);
  }

  lemma RedeliveredLast(run: ClusterRun, again: ClusterRun, k: RouteKey, j: int)
    requires PartialResync(run, again) && 0 <= j < |again| && Redelivers(again[j], k)
    ensures StoredAt(run + again, k, |run| + j)
  {
    var all := run + again;
    forall i | |run| + j < i < |all| ensures !IsAbout(all[i], k) {
      assert all[i] == again[i - |run|];
    }
  }

  /** A backend listed by one live object has that object's route as its only owner. */
  lemma SoleListerOwns(run: ClusterRun, cfg: Config, b: NsName, o: RouteObject)
    requires LiveObject(run, ObjectKey(o), o) && b in RefsOf(o)
    requires forall k, o' :: LiveObject(run, k, o') && b in RefsOf(o') ==> k == ObjectKey(o)
    ensures CellAt(Delivered(run, cfg), b).owners == {ObjectKey(o)}
  {
    var d := Delivered(run, cfg);
    LiveObjectIsCached(run, cfg, ObjectKey(o), o);
    forall k ensures k in CellAt(d, b).owners <==> k == ObjectKey(o) {
      OwnersAreListers(d, b, k);
      if Lists(d, k, b) {
        CacheIsLastProjection(run, cfg, k, Latest(d, k).value);
        var i :| ProjectedAt(run, cfg, k, Latest(d, k).value, i);
        assert LiveObject(run, k, run[i].route);
      }
    }
  }

  /** After any resync a backend listed by one live route resolves to what that route is now cached as. */
  lemma ResyncResolvesSoleOwners(run: ClusterRun, again: ClusterRun, cfg: Config, b: NsName, o: RouteObject)
    requires Resync(run, again) && LiveObject(run, ObjectKey(o), o)
    requires b in RefsOf(o)
    requires forall k, o' :: LiveObject(run, k, o') && b in RefsOf(o') ==> k == ObjectKey(o)
    ensures var d, k := Delivered(run + again, cfg), ObjectKey(o);
      && Latest(d, k).Some?
      && CellAt(d, b) == Cell(Some(k), Some(Latest(d, k).value.attrs), {k})
  {
    var d, k, round := Delivered(run, cfg), ObjectKey(o), CallsDuring(run, again, cfg);
    ResyncIsFullRound(run, again, cfg);
    SoleListerOwns(run, cfg, b, o);
    ResyncRepairsSoleOwners(d, round, b, k);
    RoundProjectsAfresh(d, round);
  }

  // ----- a resync that finds the stores as they were -----

  /** All of a delivery's reads come after the first `n` events. */
  predicate ReadsFrom(at: Moments, n: nat) {
    n <= at.gateway && n <= at.next && n <= at.service
  }

  ghost predicate ReadsDuring(run: ClusterRun, again: ClusterRun) {
    forall i | 0 <= i < |again| && again[i].RouteStored? :: ReadsFrom(again[i].at, |run|)
  }

  /** No event of the resync changes what the stores held before it. */
  predicate Quiet(run: ClusterRun, again: ClusterRun) {
    forall i | 0 <= i < |again| :: StoresStep(StoresAt(run), again[i]) == StoresAt(run)
  }

  /** `e` delivers once more what the stores hold. */
  predicate IsHeld(s: Stores, e: ClusterEvent) {
    match e
    case GatewayStored(gw) => Get(s.gateways, NameOf(gw)) == Some(gw)
    case ClassStored(c, ctl) => Get(s.classes, c) == Some(ctl)
    case ServiceStored(n) => n in s.services
    case GatewaysSynced => s.synced
    case RouteStored(_, _) => true
    case _ => false
  }

  /** Redelivering Gateways, classes and Services as they are held changes no store. */
  lemma RedeliveriesAreQuiet(run: ClusterRun, again: ClusterRun)
    requires forall i | 0 <= i < |again| :: IsHeld(StoresAt(run), again[i])
    ensures Quiet(run, again)
  {
    var s := StoresAt(run);
    forall i | 0 <= i < |again| ensures StoresStep(s, again[i]) == s {
      HeldChangesNothing(s, again[i]);
    }
  }

  lemma HeldChangesNothing(s: Stores, e: ClusterEvent)
    requires IsHeld(s, e)
    ensures StoresStep(s, e) == s
  {
    match e
    case GatewayStored(gw) => assert s.gateways[NameOf(gw) := gw] == s.gateways;
    case ClassStored(c, ctl) => assert s.classes[c := ctl] == s.classes;
    case ServiceStored(n) => assert s.services + {n} == s.services;
    case _ =>
  }

  lemma {:induction false} QuietKeepsStores(run: ClusterRun, again: ClusterRun)
    requires Quiet(run, again)
    ensures StoresAt(run + again) == StoresAt(run)
  {
    if again == [] {
      assert run + again == run;
    } else {
      var front, e := again[..|again| - 1], again[|again| - 1];
      QuietKeepsStores(run, front);
      StoresAtStep(run + front, e);
      assert run + front + [e] == run + again;
    }
  }

  /** From `run` on, a moment's stores are those of some part of what follows. */
  lemma StoresLater(run: ClusterRun, more: ClusterRun, m: nat) returns (j: nat)
    requires |run| <= m
    ensures j <= |more| && StoresBy(run + more, m) == StoresAt(run + more[..j])
  {
    j := if m <= |run + more| then m - |run| else |more|;
    assert (if m <= |run + more| then (run + more)[..m] else run + more) == run + more[..j];
  }

  lemma QuietReads(run: ClusterRun, more: ClusterRun, m: nat)
    requires Quiet(run, more) && |run| <= m
    ensures StoresBy(run + more, m) == StoresAt(run)
  {
    var j := StoresLater(run, more, m);
    QuietKeepsStores(run, more[..j]);
  }

  lemma QuietSightings(run: ClusterRun, more: ClusterRun, at: Moments)
    requires Quiet(run, more) && ReadsFrom(at, |run|)
    ensures SeenBy(run + more, at) == StoresAt(run)
  {
    QuietReads(run, more, at.gateway);
    QuietReads(run, more, at.next);
    QuietReads(run, more, at.service);
  }

  /**
    Resync convergence, end to end: whatever happened before, after a resync that
    finds and leaves the stores as they are, every live route is cached as its
    projection against them, so inference deferred during startup has now been
    decided on what the stores hold.
   */
  lemma ResyncProjectsAfresh(run: ClusterRun, again: ClusterRun, cfg: Config, k: RouteKey, o: RouteObject)
    requires Resync(run, again) && ReadsDuring(run, again) && Quiet(run, again)
    requires LiveObject(run, k, o)
    ensures Latest(Delivered(run + again, cfg), k) == Some(Projected(o, StoresAt(run), cfg))
  {
    ResyncRefreshes(run, again, cfg, k, o);
    var j :| RefreshedAt(run, again, cfg, k, o, j);
    QuietSightings(run, again[..j], again[j].at);
  }

  // ----- a Gateway left behind -----

  lemma {:induction false} UnheardGatewayStays(run: ClusterRun, more: ClusterRun, n: NsName)
    requires forall e | e in more :: !IsAboutGateway(e, n)
    ensures Get(StoresAt(run + more).gateways, n) == Get(StoresAt(run).gateways, n)
  {
    if more == [] {
      assert run + more == run;
    } else {
      var front, e := more[..|more| - 1], more[|more| - 1];
      UnheardGatewayStays(run, front, n);
      StoreStep(run + front, e, n);
      assert e in more && run + front + [e] == run + more;
    }
  }

  /**
    A Gateway left behind by a tombstone is in no informer's store, so no resync
    mentions it, and it outlives them all: whatever else a resync brings, a route
    whose first parent names it keeps its attribution and is not inferred, though
    the informers have announced the Gateway gone.
   */
  lemma LeftBehindBlocksInference(run: ClusterRun, again: ClusterRun, cfg: Config, k: RouteKey, o: RouteObject)
    requires Resync(run, again) && ReadsDuring(run, again) && LiveObject(run, k, o)
    requires o.parentRefs != [] && !IsServiceParent(o.parentRefs[0]) && LeftBehind(run, FirstParent(o))
    requires forall e | e in again :: !IsAboutGateway(e, FirstParent(o))
    ensures Latest(GatewayNews(run), FirstParent(o)) == None
    ensures Latest(Delivered(run + again, cfg), k).Some?
    ensures var attrs := Latest(Delivered(run + again, cfg), k).value.attrs;
      && NamesGateway(attrs, o, StoresAt(run).gateways)
      && attrs.parentServiceName == ""
      && (attrs.routeMode == MODE_MESH <==>
          WaypointImplForClass(cfg, StoresAt(run).gateways[FirstParent(o)].className) != "")
  {
    var n := FirstParent(o);
    LeftBehindIsStored(run, n);
    ResyncRefreshes(run, again, cfg, k, o);
    var j :| RefreshedAt(run, again, cfg, k, o, j);
    var i := StoresLater(run, again[..j], again[j].at.gateway);
    UnheardGatewayStays(run, again[..j][..i], n);
    GatewaysAreKeyed(run);
    AttributedToStored(o, SeenBy(run + again[..j], again[j].at), StoresAt(run).gateways, cfg);
  }

  /** A route whose non-Service parent is a stored Gateway is projected as that Gateway's. */
  lemma AttributedToStored(o: RouteObject, seen: Stores, gateways: map<NsName, Gateway>, cfg: Config)
    requires o.parentRefs != [] && !IsServiceParent(o.parentRefs[0]) && FirstParent(o) in gateways
    requires Get(seen.gateways, FirstParent(o)) == Get(gateways, FirstParent(o))
    requires NameOf(gateways[FirstParent(o)]) == FirstParent(o)
    ensures NamesGateway(Project(o, seen, cfg), o, gateways)
    ensures Project(o, seen, cfg).parentServiceName == ""
    ensures Project(o, seen, cfg).routeMode == MODE_MESH <==> WaypointImplForClass(cfg, gateways[FirstParent(o)].className) != ""
  {
    MeshIff(o, seen, cfg);
  }
}
