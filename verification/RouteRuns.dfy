/**
  The specification of the route index: for each backend Service key, an
  automaton folded over the run of route upserts and deletes, and what the state
  it reaches says about the run itself.
 */
module RouteRuns {
  import opened Types
  import opened History

  /** One upsert's payload: the projected attributes and the flattened backend refs. */
  datatype Revision = Revision(attrs: RouteAttributes, refs: seq<NsName>)

  type RouteEvent = Event<RouteKey, Revision>
  type RouteRun = seq<RouteEvent>

  predicate Mentions(e: RouteEvent, b: NsName) {
    e.Upsert? && b in e.value.refs
  }

  /** The three backend maps, read at one key. */
  datatype Cell = Cell(claim: Option<RouteKey>, entry: Option<RouteAttributes>, owners: set<RouteKey>)

  const FREE := Cell(None, None, {})

  function CellStep(c: Cell, e: RouteEvent, b: NsName): Cell {
    if Mentions(e, b) then
      if c.claim.Some? && c.claim.value != e.key
      then Cell(c.claim, None, c.owners + {e.key})
      else Cell(Some(e.key), Some(e.value.attrs), c.owners + {e.key})
    else if c.claim == Some(e.key)
    then Cell(None, None, c.owners - {e.key})
    else Cell(c.claim, c.entry, c.owners - {e.key})
  }

  function CellAt(run: RouteRun, b: NsName): Cell {
    if run == [] then FREE else CellStep(CellAt(run[..|run| - 1], b), run[|run| - 1], b)
  }

  lemma CellAtStep(run: RouteRun, e: RouteEvent, b: NsName)
    ensures CellAt(run + [e], b) == CellStep(CellAt(run, b), e, b)
  {
    assert (run + [e])[..|run|] == run;
  }

  /** Route `k` is live and its latest revision lists backend `b`. */
  predicate Lists(run: RouteRun, k: RouteKey, b: NsName) {
    Latest(run, k).Some? && b in Latest(run, k).value.refs
  }

  // ----- the owner sets -----

  /** The owner set of a backend is exactly the live routes whose latest revision lists it. */
  lemma {:induction false} OwnersAreListers(run: RouteRun, b: NsName, k: RouteKey)
    ensures k in CellAt(run, b).owners <==> Lists(run, k, b)
  {
    if run != [] {
      OwnersAreListers(run[..|run| - 1], b, k);
    }
  }

  /** Said of events: a route owns a backend iff its last event upserts it with that backend listed. */
  lemma OwnerIsLastLister(run: RouteRun, b: NsName, k: RouteKey)
    ensures k in CellAt(run, b).owners <==> exists i :: IsLastAbout(run, k, i) && Mentions(run[i], b)
  {
    OwnersAreListers(run, b, k);
    if Lists(run, k, b) {
      LatestIsLastWord(run, k, Latest(run, k).value);
    }
    if i :| IsLastAbout(run, k, i) && Mentions(run[i], b) {
      LatestIsLastWord(run, k, run[i].value);
    }
  }

  /** Owner sets forget everything but the last event per route. */
  lemma OwnersDependOnLastEvents(run: RouteRun, run': RouteRun, b: NsName)
    requires forall k :: Latest(run, k) == Latest(run', k)
    ensures CellAt(run, b).owners == CellAt(run', b).owners
  {
    forall k ensures k in CellAt(run, b).owners <==> k in CellAt(run', b).owners {
      OwnersAreListers(run, b, k);
      OwnersAreListers(run', b, k);
      assert Latest(run, k) == Latest(run', k);
    }
  }

  // ----- the claim -----

  /** From event `i` on, every event of route `k` keeps backend `b` listed. */
  ghost predicate KeepsListing(run: RouteRun, k: RouteKey, b: NsName, i: int) {
    0 <= i <= |run| && forall j | i <= j < |run| && run[j].key == k :: Mentions(run[j], b)
  }

  /** Event `i` is route `k` listing `b` while nobody holds the claim, and `k` never let go since. */
  ghost predicate ClaimedFrom(run: RouteRun, k: RouteKey, b: NsName, i: int) {
    && 0 <= i < |run|
    && run[i].key == k
    && Mentions(run[i], b)
    && CellAt(run[..i], b).claim == None
    && KeepsListing(run, k, b, i)
  }

  /** The claim belongs to the first route to list the backend since the claim was last released. */
  lemma {:induction false} ClaimIsFirstSinceRelease(run: RouteRun, b: NsName, k: RouteKey)
    ensures CellAt(run, b).claim == Some(k) <==> exists i :: ClaimedFrom(run, k, b, i)
  {
    if run != [] {
      var n := |run| - 1;
      var front := run[..n];
      ClaimIsFirstSinceRelease(front, b, k);
      if CellAt(run, b).claim == Some(k) {
        if CellAt(front, b).claim == Some(k) {
          var i :| ClaimedFrom(front, k, b, i);
          assert run[..i] == front[..i];
          assert ClaimedFrom(run, k, b, i);
        } else {
          assert ClaimedFrom(run, k, b, n);
        }
      }
      if i :| ClaimedFrom(run, k, b, i) {
        if i < n {
          assert run[..i] == front[..i];
          assert forall j | 0 <= j < n :: front[j] == run[j];
          assert ClaimedFrom(front, k, b, i);
        }
      }
    }
  }

  /** The claimant is one of the backend's owners. */
  lemma {:induction false} ClaimantOwns(run: RouteRun, b: NsName)
    ensures CellAt(run, b).claim.Some? ==> CellAt(run, b).claim.value in CellAt(run, b).owners
  {
    if run != [] {
      ClaimantOwns(run[..|run| - 1], b);
    }
  }

  // ----- the single-candidate entry -----

  /** The most recent upsert mentioning `b` was route `k`'s. */
  ghost predicate LastMentionIs(run: RouteRun, b: NsName, k: RouteKey) {
    exists i :: MentionedLastAt(run, b, k, i)
  }

  ghost predicate MentionedLastAt(run: RouteRun, b: NsName, k: RouteKey, i: int) {
    0 <= i < |run| && run[i].key == k && Mentions(run[i], b) && forall j | i < j < |run| :: !Mentions(run[j], b)
  }

  lemma LastMentionStep(run: RouteRun, e: RouteEvent, b: NsName, k: RouteKey)
    ensures LastMentionIs(run + [e], b, k) <==> if Mentions(e, b) then e.key == k else LastMentionIs(run, b, k)
  {
    var run' := run + [e];
    if Mentions(e, b) {
      if e.key == k {
        assert MentionedLastAt(run', b, k, |run|);
      }
      if i :| MentionedLastAt(run', b, k, i) {
        assert Mentions(run'[|run|], b);
      }
    } else {
      if i :| MentionedLastAt(run, b, k, i) {
        assert MentionedLastAt(run', b, k, i);
      }
      if i :| MentionedLastAt(run', b, k, i) {
        forall j | i < j < |run| ensures !Mentions(run[j], b) {
          assert run'[j] == run[j];
        }
        assert MentionedLastAt(run, b, k, i);
      }
    }
  }

  /** The route a single-candidate lookup of `b` answers with, said of the run alone. */
  ghost predicate Resolves(run: RouteRun, b: NsName, k: RouteKey) {
    CellAt(run, b).claim == Some(k) && LastMentionIs(run, b, k)
  }

  /**
    The single-candidate entry is present iff some route holds the claim and the
    most recent upsert mentioning the backend was that route's own; and it then
    holds that route's latest attributes.
   */
  lemma {:induction false} EntryIsClaimantsLastMention(run: RouteRun, b: NsName, ra: RouteAttributes)
    ensures CellAt(run, b).entry == Some(ra) <==>
            exists k :: Resolves(run, b, k) && Latest(run, k).Some? && Latest(run, k).value.attrs == ra
  {
    if run != [] {
      var n := |run| - 1;
      var front, e := run[..n], run[n];
      assert run == front + [e];
      EntryIsClaimantsLastMention(front, b, ra);
      ClaimantOwns(run, b);
      var c := CellAt(run, b);
      if c.claim.Some? {
        var k := c.claim.value;
        LastMentionStep(front, e, b, k);
        OwnersAreListers(run, b, k);
        LatestStep(front, e, k);
        if e.key != k && !Mentions(e, b) {
          assert Resolves(front, b, k) <==> LastMentionIs(run, b, k);
        }
        assert Resolves(run, b, k) <==> LastMentionIs(run, b, k);
      }
    }
  }

  /** Presence alone, for every state. */
  lemma EntryPresence(run: RouteRun, b: NsName)
    ensures CellAt(run, b).entry.Some? <==> exists k :: Resolves(run, b, k)
  {
    var c := CellAt(run, b);
    if c.entry.Some? {
      EntryIsClaimantsLastMention(run, b, c.entry.value);
    }
    if k :| Resolves(run, b, k) {
      ClaimantOwns(run, b);
      OwnersAreListers(run, b, k);
      EntryIsClaimantsLastMention(run, b, Latest(run, k).value.attrs);
    }
  }

  /** Coherence of the fast path with the owner sets and the route store. */
  lemma FastPathCoherent(run: RouteRun, b: NsName)
    requires CellAt(run, b).entry.Some?
    ensures CellAt(run, b).claim.Some?
    ensures var k := CellAt(run, b).claim.value;
            && k in CellAt(run, b).owners
            && Lists(run, k, b)
            && Latest(run, k).value.attrs == CellAt(run, b).entry.value
  {
    var c := CellAt(run, b);
    EntryIsClaimantsLastMention(run, b, c.entry.value);
    ClaimantOwns(run, b);
    OwnersAreListers(run, b, c.claim.value);
  }

  // ----- what "ambiguous" amounts to -----

  /**
    The index promises that a backend with several owners has no single-candidate
    entry. How many owners there are does not decide it: there is none iff whoever
    took the claim while it was free, and kept listing the backend since, did not
    make the latest mention. A pinned claimant upserted again republishes itself.
   */
  lemma BackendHiddenIff(run: RouteRun, b: NsName)
    ensures CellAt(run, b).entry == None <==>
            forall k, i | ClaimedFrom(run, k, b, i) :: !LastMentionIs(run, b, k)
  {
    EntryPresence(run, b);
    if k :| Resolves(run, b, k) {
      ClaimIsFirstSinceRelease(run, b, k);
      var i :| ClaimedFrom(run, k, b, i);
      assert LastMentionIs(run, b, k);
    }
    forall k, i | ClaimedFrom(run, k, b, i) ensures Resolves(run, b, k) <==> LastMentionIs(run, b, k) {
      ClaimIsFirstSinceRelease(run, b, k);
    }
  }

  /**
    The fallback resolver assumes that a backend with one owner always has an
    entry. It has one iff that owner holds the claim and made the latest mention.
   */
  lemma SoleOwnerVisibleIff(run: RouteRun, b: NsName, k: RouteKey)
    requires CellAt(run, b).owners == {k}
    ensures CellAt(run, b).entry.Some? <==> CellAt(run, b).claim == Some(k) && LastMentionIs(run, b, k)
    ensures CellAt(run, b).entry.Some? ==> Latest(run, k).Some? && CellAt(run, b).entry.value == Latest(run, k).value.attrs
  {
    EntryPresence(run, b);
    if CellAt(run, b).entry.Some? {
      FastPathCoherent(run, b);
    }
    if CellAt(run, b).claim == Some(k) && LastMentionIs(run, b, k) {
      assert Resolves(run, b, k);
    }
  }

  /** Re-upserting the sole owner always repairs its entry. */
  lemma SoleOwnerRepairs(run: RouteRun, b: NsName, k: RouteKey, rev: Revision)
    requires CellAt(run, b).owners <= {k} && b in rev.refs
    ensures CellAt(run + [Upsert(k, rev)], b) == Cell(Some(k), Some(rev.attrs), {k})
  {
    ClaimantOwns(run, b);
    CellAtStep(run, Upsert(k, rev), b);
  }

  /** And the repair lasts, whatever other routes do, while none of them lists the backend. */
  lemma {:induction false} SoleOwnerStays(run: RouteRun, b: NsName, k: RouteKey, rev: Revision, more: RouteRun)
    requires CellAt(run, b).owners <= {k} && b in rev.refs
    requires forall e | e in more :: e.key != k && !Mentions(e, b)
    ensures CellAt(run + [Upsert(k, rev)] + more, b) == Cell(Some(k), Some(rev.attrs), {k})
  {
    var start := run + [Upsert(k, rev)];
    if more == [] {
      assert start + more == start;
      SoleOwnerRepairs(run, b, k, rev);
    } else {
      var front, e := more[..|more| - 1], more[|more| - 1];
      SoleOwnerStays(run, b, k, rev, front);
      CellAtStep(start + front, e, b);
      assert e in more && start + front + [e] == start + more;
    }
  }

  /** A{b} B{b} A{b} is ambiguous yet visible: the pinned claimant republishes itself. */
  lemma RepublishWitness(a: RouteKey, b: RouteKey, ra: RouteAttributes, svc: NsName)
    requires a != b
    ensures var ua, ub := Upsert(a, Revision(ra, [svc])), Upsert(b, Revision(ra, [svc]));
      && CellAt([ua, ub], svc) == Cell(Some(a), None, {a, b})
      && CellAt([ua, ub, ua], svc) == Cell(Some(a), Some(ra), {a, b})
  {
    var ua, ub := Upsert(a, Revision(ra, [svc])), Upsert(b, Revision(ra, [svc]));
    CellAtStep([], ua, svc);
    assert [] + [ua] == [ua];
    CellAtStep([ua], ub, svc);
    assert [ua] + [ub] == [ua, ub];
    CellAtStep([ua, ub], ua, svc);
    assert [ua, ub] + [ua] == [ua, ub, ua];
  }

  /** A{b} B{b} then A deleted leaves the sole owner B invisible; a later C{b} is visible with two owners. */
  lemma OrphanWitness(a: RouteKey, b: RouteKey, c: RouteKey, ra: RouteAttributes, svc: NsName)
    requires a != b && b != c && a != c
    ensures var ua, ub, uc := Upsert(a, Revision(ra, [svc])), Upsert(b, Revision(ra, [svc])), Upsert(c, Revision(ra, [svc]));
      && CellAt([ua, ub, Delete(a)], svc) == Cell(None, None, {b})
      && CellAt([ua, ub, Delete(a), uc], svc) == Cell(Some(c), Some(ra), {b, c})
  {
    var ua, ub, uc := Upsert(a, Revision(ra, [svc])), Upsert(b, Revision(ra, [svc])), Upsert(c, Revision(ra, [svc]));
    RepublishWitness(a, b, ra, svc);
    CellAtStep([ua, ub], Delete(a), svc);
    assert [ua, ub] + [Delete(a)] == [ua, ub, Delete(a)];
    CellAtStep([ua, ub, Delete(a)], uc, svc);
    assert [ua, ub, Delete(a)] + [uc] == [ua, ub, Delete(a), uc];
  }
}
