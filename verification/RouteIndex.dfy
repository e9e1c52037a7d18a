/**
  The in-memory route index. Its maps are mutated in place by the informer
  handlers, each under one lock and so one atomic step; `Valid` ties them to the
  run of events handled so far.
 */
module RouteIndex {
  import opened Types
  import opened History
  import opened RouteRuns
  import opened PolicyRuns
  import opened PolicyTable

  /** The read-time overlay on a route's attributes. */
  function Overlaid(ra: RouteAttributes, policies: seq<PolicyRef>): RouteAttributes {
    if policies == [] then ra else ra.(policies := policies)
  }

  type PolicyMap = map<RouteKey, seq<PolicyRef>>

  function PoliciesOf(m: PolicyMap, k: RouteKey): seq<PolicyRef> {
    if k in m then m[k] else []
  }

  /** What the index answers for an identity. */
  function RouteView(run: RouteRun, policies: PolicyMap, k: RouteKey): Option<RouteAttributes> {
    match Latest(run, k)
    case None => None
    case Some(rev) => Some(Overlaid(rev.attrs, PoliciesOf(policies, k)))
  }

  /** What the single-candidate lookup answers: the overlay key is rebuilt from the cached attributes. */
  function BackendView(run: RouteRun, policies: PolicyMap, b: NsName): Option<RouteAttributes> {
    match CellAt(run, b).entry
    case None => None
    case Some(ra) => Some(Overlaid(ra, PoliciesOf(policies, KeyOf(ra))))
  }

  /** `keys` lists the set `owners`, each element once. */
  ghost predicate Enumerates(keys: seq<RouteKey>, owners: set<RouteKey>) {
    && (forall k :: k in keys <==> k in owners)
    && (forall i, j | 0 <= i < j < |keys| :: keys[i] != keys[j])
  }

  /** Every enumeration of a set has its size. */
  lemma {:induction false} EnumerationSize(ks: seq<RouteKey>, owners: set<RouteKey>)
    requires Enumerates(ks, owners)
    ensures |ks| == |owners|
  {
    if ks == [] {
      assert owners == {};
    } else {
      var n := |ks| - 1;
      forall k ensures k in ks[..n] <==> k in owners - {ks[n]} {
        assert k in ks <==> k in ks[..n] || k == ks[n];
      }
      assert ks[n] in ks;
      EnumerationSize(ks[..n], owners - {ks[n]});
    }
  }

  /** `out` holds the view of each owner once, in some order. */
  ghost predicate ListsOwners(out: seq<RouteAttributes>, run: RouteRun, policies: PolicyMap, owners: set<RouteKey>) {
    exists keys :: Enumerates(keys, owners) && ViewsOf(out, run, policies, keys)
  }

  ghost predicate ViewsOf(out: seq<RouteAttributes>, run: RouteRun, policies: PolicyMap, keys: seq<RouteKey>) {
    |out| == |keys| && forall i | 0 <= i < |out| :: Some(out[i]) == RouteView(run, policies, keys[i])
  }

  /** The handlers upsert each route under the key its own attributes name. */
  ghost predicate WellKeyed(run: RouteRun) {
    forall i | 0 <= i < |run| && run[i].Upsert? :: KeyOf(run[i].value.attrs) == run[i].key
  }

  lemma {:induction false} LatestIsWellKeyed(run: RouteRun, k: RouteKey)
    requires WellKeyed(run)
    ensures Latest(run, k).Some? ==> KeyOf(Latest(run, k).value.attrs) == k
  {
    if run != [] {
      LatestIsWellKeyed(run[..|run| - 1], k);
    }
  }

  /**
    The fast path answers what the identity lookup answers, policies included:
    a backend resolves to some live route that currently lists it, viewed as
    `LookupRoute` views it.
   */
  lemma FastPathAgreesWithIdentity(run: RouteRun, policies: PolicyMap, b: NsName)
    requires WellKeyed(run) && BackendView(run, policies, b).Some?
    ensures CellAt(run, b).claim.Some?
    ensures var k := CellAt(run, b).claim.value;
            && Lists(run, k, b)
            && KeyOf(BackendView(run, policies, b).value) == k
            && BackendView(run, policies, b) == RouteView(run, policies, k)
  {
    FastPathCoherent(run, b);
    LatestIsWellKeyed(run, CellAt(run, b).claim.value);
  }

  // ----- routes and policies together -----

  /** What an identity lookup shows after a run of route events and a run of policy steps. */
  function AttachedView(run: RouteRun, steps: Steps, k: RouteKey): Option<RouteAttributes> {
    match Latest(run, k)
    case None => None
    case Some(rev) => Some(Overlaid(rev.attrs, ListAt(steps, k)))
  }

  /** Policy `p` is live under identity `r`, shows acceptance, and points at route `k`. */
  ghost predicate AttachesTo(events: seq<PolicyEvent>, r: PolicyRef, p: Policy, k: RouteKey) {
    Identifies(r, p) && Live(events, r) == Some(p) && ShowsAccepted(p) && NamesRoute(p, k)
  }

  /**
    Of the policies of an informer between two handlers, whatever the others are
    doing, a looked-up route carries exactly the live, accepted ones that name it.
   */
  lemma LookupShowsLivePolicies(run: RouteRun, steps: Steps, mine: Mine, events: seq<PolicyEvent>, k: RouteKey, r: PolicyRef)
    requires Faithful(events) && Served(steps, mine, events) && mine(r)
    requires AttachedView(run, steps, k).Some? && Latest(run, k).value.attrs.policies == []
    ensures r in AttachedView(run, steps, k).value.policies <==> exists p :: AttachesTo(events, r, p, k)
    ensures AttachedView(run, steps, k).value == Latest(run, k).value.attrs.(policies := ListAt(steps, k))
  {
    AttachmentsOnFields(steps, mine, events, k, r);
    if r in ListAt(steps, k) {
      var p :| Identifies(r, p) && Live(events, r) == Some(p) && ShowsAccepted(p) && NamesRoute(p, k);
      assert AttachesTo(events, r, p, k);
    }
  }

  class RouteIndex {
    var routes: map<RouteKey, RouteAttributes>
    var backendIndex: map<NsName, RouteAttributes>
    var claimedBackends: map<NsName, RouteKey>
    var backendOwners: map<NsName, set<RouteKey>>
    const policies: PolicyTable
    ghost var run: RouteRun  // the route events handled so far

    ghost function CellOf(b: NsName): Cell
      reads this
    {
      Cell(Get(claimedBackends, b), Get(backendIndex, b), if b in backendOwners then backendOwners[b] else {})
    }

    /** Every map is what the run prescribes, and no empty owner set is kept. */
    ghost predicate RoutesValid()
      reads this
    {
      && (forall k :: Get(routes, k) == match Latest(run, k) case None => None case Some(rev) => Some(rev.attrs))
      && (forall b :: CellOf(b) == CellAt(run, b))
      && (forall b | b in backendOwners :: backendOwners[b] != {})
    }

    ghost predicate Valid()
      reads this, policies, policies.Storage()
    {
      RoutesValid() && policies.Valid()
    }

    ghost function PolicyView(): PolicyMap
      requires policies.Shaped()
      reads policies`slices, policies.Storage()
    {
      map k | k in policies.slices :: policies.Contents(k)
    }

    /** The overlay is a function of the policy steps taken so far. */
    lemma PolicyViewFollowsSteps(k: RouteKey)
      requires Valid()
      ensures RouteView(run, PolicyView(), k) == AttachedView(run, policies.steps, k)
    {
      assert policies.Contents(k) == ListAt(policies.steps, k);
    }

    constructor ()
      ensures Valid() && run == [] && fresh(policies) && policies.steps == []
    {
      routes, backendIndex, claimedBackends, backendOwners, run := map[], map[], map[], map[], [];
      policies := new PolicyTable();
    }

    // ----- writers -----

    /** Both sweeps range over a map in arbitrary order, deleting as they go. */
    method ReleaseStale(owner: RouteKey, wanted: set<NsName>)
      requires forall b | b in backendOwners :: backendOwners[b] != {}
      modifies this`claimedBackends, this`backendIndex, this`backendOwners
      ensures forall b | b in backendOwners :: backendOwners[b] != {}
      ensures forall b :: CellOf(b) == if b in wanted then old(CellOf(b)) else Released(old(CellOf(b)), owner)
    {
      var todo := claimedBackends.Keys;
      while todo != {}
        invariant todo <= old(claimedBackends.Keys) && backendOwners == old(backendOwners)
        invariant forall b :: CellOf(b) ==
                    var c := old(CellOf(b));
                    if b !in todo && b !in wanted && c.claim == Some(owner) then Cell(None, None, c.owners) else c
      {
        var bkey :| bkey in todo;
        todo := todo - {bkey};
        if claimedBackends[bkey] == owner && bkey !in wanted {
          claimedBackends := claimedBackends - {bkey};
          backendIndex := backendIndex - {bkey};
        }
      }
      ReleaseOwnership(owner, wanted);
    }

    method ReleaseOwnership(owner: RouteKey, wanted: set<NsName>)
      requires forall b | b in backendOwners :: backendOwners[b] != {}
      modifies this`backendOwners
      ensures forall b | b in backendOwners :: backendOwners[b] != {}
      ensures forall b :: CellOf(b) ==
                var c := old(CellOf(b));
                if b in wanted then c else Cell(c.claim, c.entry, c.owners - {owner})
    {
      var todo := backendOwners.Keys;
      while todo != {}
        invariant todo <= backendOwners.Keys <= old(backendOwners.Keys)
        invariant forall b | b in backendOwners :: backendOwners[b] != {}
        invariant forall b :: CellOf(b) ==
                    var c := old(CellOf(b));
                    if b in todo || b in wanted then c else Cell(c.claim, c.entry, c.owners - {owner})
      {
        var bkey :| bkey in todo;
        todo := todo - {bkey};
        if owner in backendOwners[bkey] && bkey !in wanted {
          var owners := backendOwners[bkey] - {owner};
          backendOwners := if owners == {} then backendOwners - {bkey} else backendOwners[bkey := owners];
        }
      }
    }

    method Reindex(owner: RouteKey, ra: RouteAttributes, refs: seq<NsName>)
      requires forall b | b in backendOwners :: backendOwners[b] != {}
      modifies this`claimedBackends, this`backendIndex, this`backendOwners
      ensures forall b | b in backendOwners :: backendOwners[b] != {}
      ensures forall b :: CellOf(b) == CellStep(old(CellOf(b)), Upsert(owner, Revision(ra, refs)), b)
    {
      var wanted := set b | b in refs;
      ReleaseStale(owner, wanted);
      label Released:
      for i := 0 to |refs|
        invariant forall b | b in backendOwners :: backendOwners[b] != {}
        invariant forall b :: CellOf(b) ==
                    if b in refs[..i] then CellStep(old@Released(CellOf(b)), Upsert(owner, Revision(ra, refs)), b)
                    else old@Released(CellOf(b))
      {
        var bkey := refs[i];
        backendOwners := backendOwners[bkey := (if bkey in backendOwners then backendOwners[bkey] else {}) + {owner}];
        if bkey in claimedBackends && claimedBackends[bkey] != owner {
          backendIndex := backendIndex - {bkey};
        } else {
          claimedBackends := claimedBackends[bkey := owner];
          backendIndex := backendIndex[bkey := ra];
        }
      }
    }

    method Store(grpc: bool, ra: RouteAttributes, refs: seq<NsName>)
      requires RoutesValid()
      modifies this
      ensures RoutesValid()
      ensures run == old(run) + [Upsert(RouteKey(grpc, ra.ns, ra.name), Revision(ra, refs))]
    {
      var key := RouteKey(grpc, ra.ns, ra.name);
      routes := routes[key := ra];
      Reindex(key, ra, refs);
      Record(Upsert(key, Revision(ra, refs)), old(routes));
    }

    method UpsertHTTPRoute(ra: RouteAttributes, refs: seq<NsName>)
      requires RoutesValid()
      modifies this
      ensures RoutesValid()
      ensures run == old(run) + [Upsert(RouteKeyOf(HTTPRoute, ra.ns, ra.name), Revision(ra, refs))]
    {
      Store(false, ra, refs);
    }

    method UpsertGRPCRoute(ra: RouteAttributes, refs: seq<NsName>)
      requires RoutesValid()
      modifies this
      ensures RoutesValid()
      ensures run == old(run) + [Upsert(RouteKeyOf(GRPCRoute, ra.ns, ra.name), Revision(ra, refs))]
    {
      Store(true, ra, refs);
    }

    method DeleteRoute(kind: RouteKind, ns: string, name: string)
      requires RoutesValid()
      modifies this
      ensures RoutesValid()
      ensures run == old(run) + [Delete(RouteKeyOf(kind, ns, name))]
    {
      var key := RouteKeyOf(kind, ns, name);
      routes := routes - {key};
      ReleaseStale(key, {});
      Record(Delete(key), old(routes));
    }

    /** Appends a handled event to the run, once its effect on every map is in place. */
    ghost method Record(e: RouteEvent, before: map<RouteKey, RouteAttributes>)
      requires forall k :: Get(before, k) == match Latest(run, k) case None => None case Some(rev) => Some(rev.attrs)
      requires routes == if e.Upsert? then before[e.key := e.value.attrs] else before - {e.key}
      requires forall b :: CellOf(b) == CellStep(CellAt(run, b), e, b)
      requires forall b | b in backendOwners :: backendOwners[b] != {}
      modifies this`run
      ensures RoutesValid() && run == old(run) + [e]
    {
      run := run + [e];
      forall k ensures Get(routes, k) == match Latest(run, k) case None => None case Some(rev) => Some(rev.attrs) {
        LatestStep(old(run), e, k);
        assert Get(before, k) == match Latest(old(run), k) case None => None case Some(rev) => Some(rev.attrs);
      }
      forall b ensures CellOf(b) == CellAt(run, b) {
        CellAtStep(old(run), e, b);
        assert old(CellOf(b)) == CellStep(CellAt(old(run), b), e, b);
      }
    }

    // ----- readers -----

    /** Attaches a private copy of the route's policies; the copy is never index storage. */
    method OverlayPolicies(key: RouteKey, ra: RouteAttributes) returns (ra': RouteAttributes, slice: array?<PolicyRef>)
      requires Valid()
      modifies policies`handedOut
      ensures Valid() && ra' == Overlaid(ra, policies.Contents(key))
      ensures slice != null ==> fresh(slice) && slice !in policies.Storage() && ra'.policies == slice[..]
    {
      slice := policies.Overlay(key);
      ra' := if slice == null then ra else ra.(policies := slice[..]);
    }

    method LookupRoute(kind: RouteKind, ns: string, name: string) returns (r: Option<RouteAttributes>, slice: array?<PolicyRef>)
      requires Valid()
      modifies policies`handedOut
      ensures Valid()
      ensures r == RouteView(run, PolicyView(), RouteKeyOf(kind, ns, name))
      ensures r == AttachedView(run, policies.steps, RouteKeyOf(kind, ns, name))
      ensures slice != null ==> fresh(slice) && slice !in policies.Storage() && r.Some? && r.value.policies == slice[..]
    {
      var key := RouteKeyOf(kind, ns, name);
      assert Get(routes, key) == match Latest(run, key) case None => None case Some(rev) => Some(rev.attrs);
      r, slice := None, null;
      if key in routes {
        var ra;
        ra, slice := OverlayPolicies(key, routes[key]);
        r := Some(ra);
      }
      PolicyViewFollowsSteps(key);
    }

    method LookupByBackendService(ns: string, svc: string) returns (r: Option<RouteAttributes>, slice: array?<PolicyRef>)
      requires Valid()
      modifies policies`handedOut
      ensures Valid()
      ensures r == BackendView(run, PolicyView(), NsName(ns, svc))
      ensures slice != null ==> fresh(slice) && slice !in policies.Storage() && r.Some? && r.value.policies == slice[..]
    {
      var b := NsName(ns, svc);
      assert CellOf(b) == CellAt(run, b);
      r, slice := None, null;
      if b in backendIndex {
        var ra;
        ra, slice := OverlayPolicies(KeyOf(backendIndex[b]), backendIndex[b]);
        r := Some(ra);
      }
    }

    /** Every current owner once, with its latest attributes, in arbitrary order. */
    method LookupByBackendServiceWithParents(ns: string, svc: string) returns (out: seq<RouteAttributes>, ghost keys: seq<RouteKey>)
      requires Valid()
      modifies policies`handedOut
      ensures Valid() && PolicyView() == old(PolicyView())
      ensures Enumerates(keys, CellAt(run, NsName(ns, svc)).owners) && ViewsOf(out, run, PolicyView(), keys)
    {
      var b := NsName(ns, svc);
      assert CellOf(b) == CellAt(run, b);
      var owners := if b in backendOwners then backendOwners[b] else {};
      var todo := owners;
      ghost var view := PolicyView();
      out, keys := [], [];
      while todo != {}
        invariant Valid() && PolicyView() == view && todo <= owners
        invariant Enumerates(keys, owners - todo)
        invariant ViewsOf(out, run, view, keys)
      {
        var key :| key in todo;
        assert key !in keys;
        todo := todo - {key};
        var ra := OwnerAttributes(b, key);
        out, keys := out + [ra], keys + [key];
        assert owners - todo == owners - (todo + {key}) + {key};
      }
      assert Enumerates(keys, owners) && ViewsOf(out, run, PolicyView(), keys);
    }

    method OwnerAttributes(b: NsName, key: RouteKey) returns (ra: RouteAttributes)
      requires Valid() && key in CellAt(run, b).owners
      modifies policies`handedOut
      ensures Valid() && PolicyView() == old(PolicyView())
      ensures Some(ra) == RouteView(run, PolicyView(), key)
    {
      OwnersAreListers(run, b, key);
      assert Get(routes, key) == match Latest(run, key) case None => None case Some(rev) => Some(rev.attrs);
      var snapshot;
      ra, snapshot := OverlayPolicies(key, routes[key]);
    }
  }

  /** The two release sweeps at one key. */
  function Released(c: Cell, owner: RouteKey): Cell {
    if c.claim == Some(owner) then Cell(None, None, c.owners - {owner}) else Cell(c.claim, c.entry, c.owners - {owner})
  }
}
