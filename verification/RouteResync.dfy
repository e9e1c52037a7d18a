/**
  What the informers' periodic resync does to the route index: every live route
  is upserted once more, in any order, with the refs it already had and with
  freshly projected attributes.
 */
module RouteResync {
  import opened Types
  import opened History
  import opened RouteRuns

  /** `e` upserts a live route without changing which backends it lists. */
  ghost predicate SameRefs(run: RouteRun, e: RouteEvent) {
    && e.Upsert?
    && Latest(run, e.key).Some?
    && forall b :: b in e.value.refs <==> Lists(run, e.key, b)
  }

  ghost predicate PartialRound(run: RouteRun, round: RouteRun) {
    && (forall i | 0 <= i < |round| :: SameRefs(run, round[i]))
    && (forall i, j | 0 <= i < j < |round| :: round[i].key != round[j].key)
  }

  ghost predicate UpsertedIn(round: RouteRun, k: RouteKey) {
    exists i | 0 <= i < |round| :: round[i].key == k
  }

  ghost predicate FullRound(run: RouteRun, round: RouteRun) {
    && PartialRound(run, round)
    && (forall k | Latest(run, k).Some? :: UpsertedIn(round, k))
  }

  lemma PartialRoundFront(run: RouteRun, round: RouteRun)
    requires PartialRound(run, round) && round != []
    ensures PartialRound(run, round[..|round| - 1])
  {
  }

  /** A round gives every route it visits its fresh revision and leaves every other route alone. */
  lemma RoundProjectsAfresh(run: RouteRun, round: RouteRun)
    requires PartialRound(run, round)
    ensures forall i | 0 <= i < |round| :: Latest(run + round, round[i].key) == Some(round[i].value)
    ensures forall k | !UpsertedIn(round, k) :: Latest(run + round, k) == Latest(run, k)
  {
    forall i | 0 <= i < |round| ensures Latest(run + round, round[i].key) == Some(round[i].value) {
      LatestStep(run + round[..i], round[i], round[i].key);
      LatestSkips(run + round[..i] + [round[i]], round[i + 1..], round[i].key);
      assert run + round[..i] + [round[i]] + round[i + 1..] == run + round;
    }
    forall k | !UpsertedIn(round, k) ensures Latest(run + round, k) == Latest(run, k) {
      LatestSkips(run, round, k);
    }
  }

  /** A round moves no route in or out of any owner set. */
  lemma {:induction false} RoundKeepsOwners(run: RouteRun, round: RouteRun, b: NsName)
    requires PartialRound(run, round)
    ensures CellAt(run + round, b).owners == CellAt(run, b).owners
  {
    if round == [] {
      assert run + round == run;
    } else {
      var n := |round| - 1;
      PartialRoundFront(run, round);
      RoundKeepsOwners(run, round[..n], b);
      CellAtStep(run + round[..n], round[n], b);
      assert run + round[..n] + [round[n]] == run + round;
      assert SameRefs(run, round[n]);
      OwnersAreListers(run, b, round[n].key);
    }
  }

  ghost predicate Mentioned(round: RouteRun, b: NsName) {
    exists i | 0 <= i < |round| :: Mentions(round[i], b)
  }

  /** Event `i` of the round is the first to mention `b`. */
  ghost predicate FirstMention(round: RouteRun, b: NsName, i: int) {
    0 <= i < |round| && Mentions(round[i], b) && forall j | 0 <= j < i :: !Mentions(round[j], b)
  }

  ghost predicate FirstMentioner(round: RouteRun, b: NsName, k: RouteKey) {
    exists i :: FirstMention(round, b, i) && round[i].key == k
  }

  /** A round never takes a claim away; an unclaimed backend goes to the first owner visited. */
  lemma {:induction false} RoundClaims(run: RouteRun, round: RouteRun, b: NsName)
    requires PartialRound(run, round)
    ensures CellAt(run, b).claim.Some? ==> CellAt(run + round, b).claim == CellAt(run, b).claim
    ensures CellAt(run, b).claim.None? && !Mentioned(round, b) ==> CellAt(run + round, b).claim.None?
    ensures CellAt(run, b).claim.None? && Mentioned(round, b) ==>
              && CellAt(run + round, b).claim.Some?
              && FirstMentioner(round, b, CellAt(run + round, b).claim.value)
  {
    if round == [] {
      assert run + round == run;
    } else {
      var n := |round| - 1;
      var front, e := round[..n], round[n];
      PartialRoundFront(run, round);
      RoundClaims(run, front, b);
      RoundKeepsOwners(run, front, b);
      ClaimantOwns(run + front, b);
      CellAtStep(run + front, e, b);
      assert run + front + [e] == run + round;
      assert SameRefs(run, e);
      OwnersAreListers(run, b, e.key);
      var before, after := CellAt(run + front, b).claim, CellAt(run + round, b).claim;
      assert before.Some? ==> after == before;
      if Mentioned(front, b) {
        assert Mentioned(round, b) by {
          var i :| 0 <= i < |front| && Mentions(front[i], b);
          assert Mentions(round[i], b);
        }
        if CellAt(run, b).claim.None? {
          var i :| FirstMention(front, b, i) && front[i].key == before.value;
          assert forall j | 0 <= j < n :: front[j] == round[j];
          assert FirstMention(round, b, i);
        }
      } else {
        assert forall j | 0 <= j < n :: front[j] == round[j];
        if Mentions(e, b) {
          assert FirstMention(round, b, n);
        } else {
          assert !Mentioned(round, b);
        }
      }
    }
  }

  /** Once the round mentions a backend, its last mention overall is the round's. */
  lemma {:induction false} LastMentionInRound(run: RouteRun, round: RouteRun, b: NsName, k: RouteKey)
    requires Mentioned(round, b)
    ensures LastMentionIs(run + round, b, k) <==> LastMentionIs(round, b, k)
  {
    var n := |round| - 1;
    var front, e := round[..n], round[n];
    LastMentionStep(run + front, e, b, k);
    LastMentionStep(front, e, b, k);
    assert run + front + [e] == run + round && front + [e] == round;
    if !Mentions(e, b) {
      var i :| 0 <= i < |round| && Mentions(round[i], b);
      assert Mentions(front[i], b);
      LastMentionInRound(run, front, b, k);
    }
  }

  lemma OwnedIsMentioned(run: RouteRun, round: RouteRun, b: NsName)
    requires FullRound(run, round) && CellAt(run, b).owners != {}
    ensures Mentioned(round, b)
  {
    var k :| k in CellAt(run, b).owners;
    OwnersAreListers(run, b, k);
    assert UpsertedIn(round, k);
    var i :| 0 <= i < |round| && round[i].key == k;
    assert SameRefs(run, round[i]) && Mentions(round[i], b);
  }

  /**
    Resync convergence. From any reachable state, one full round in any order
    leaves every owned backend claimed by one of its unchanged owners, and its
    single-candidate entry present iff that claimant was the last of the owners
    to be visited; the entry then carries the claimant's fresh projection.
   */
  lemma ResyncConverges(run: RouteRun, round: RouteRun, b: NsName)
    requires FullRound(run, round) && CellAt(run, b).owners != {}
    ensures CellAt(run + round, b).owners == CellAt(run, b).owners
    ensures CellAt(run + round, b).claim.Some?
    ensures CellAt(run + round, b).claim.value in CellAt(run, b).owners
    ensures CellAt(run + round, b).entry.Some? <==>
            LastMentionIs(round, b, CellAt(run + round, b).claim.value)
    ensures forall i | MentionedLastAt(round, b, CellAt(run + round, b).claim.value, i) ::
              CellAt(run + round, b).entry == Some(round[i].value.attrs)
  {
    OwnedIsMentioned(run, round, b);
    RoundKeepsOwners(run, round, b);
    RoundClaims(run, round, b);
    ClaimantOwns(run + round, b);
    var k := CellAt(run + round, b).claim.value;
    LastMentionInRound(run, round, b, k);
    EntryPresence(run + round, b);
    if LastMentionIs(round, b, k) {
      assert Resolves(run + round, b, k);
    }
    forall i | MentionedLastAt(round, b, k, i)
      ensures CellAt(run + round, b).entry == Some(round[i].value.attrs)
    {
      assert LastMentionIs(round, b, k) && Resolves(run + round, b, k);
      RoundProjectsAfresh(run, round);
      EntryIsClaimantsLastMention(run + round, b, round[i].value.attrs);
    }
  }

  /** After a full round every single-owner backend resolves to its owner's fresh projection. */
  lemma ResyncRepairsSoleOwners(run: RouteRun, round: RouteRun, b: NsName, k: RouteKey)
    requires FullRound(run, round) && CellAt(run, b).owners == {k}
    ensures exists i | 0 <= i < |round| :: round[i].key == k && CellAt(run + round, b) == Cell(Some(k), Some(round[i].value.attrs), {k})
  {
    ResyncConverges(run, round, b);
    OwnersAreListers(run, b, k);
    assert UpsertedIn(round, k);
    var i :| 0 <= i < |round| && round[i].key == k;
    assert SameRefs(run, round[i]) && Mentions(round[i], b);
    forall j | i < j < |round| ensures !Mentions(round[j], b) {
      assert SameRefs(run, round[j]);
      OwnersAreListers(run, b, round[j].key);
    }
    assert MentionedLastAt(round, b, k, i);
  }

  /** A route listing nothing it did not own keeps unowned backends free through a round. */
  lemma ResyncClaimsNothingNew(run: RouteRun, round: RouteRun, b: NsName)
    requires PartialRound(run, round) && CellAt(run, b).owners == {}
    ensures CellAt(run + round, b) == FREE
  {
    RoundKeepsOwners(run, round, b);
    ClaimantOwns(run + round, b);
    EntryPresence(run + round, b);
    var c := CellAt(run + round, b);
    if c.entry.Some? {
      FastPathCoherent(run + round, b);
    }
  }
}
