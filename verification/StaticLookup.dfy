/**
  The in-memory lookup used without Kubernetes and by fixtures, and how far its
  backend index simulates the informer-fed one.
 */
module StaticLookup {
  import opened Types
  import opened History
  import opened RouteRuns
  import opened RouteIndex

  datatype Put = Put(backend: NsName, attrs: RouteAttributes)

  /** The three backend maps, read at one key. */
  datatype Slot = Slot(entry: Option<RouteAttributes>, all: seq<RouteAttributes>, dropped: bool)

  function SlotStep(s: Slot, p: Put, b: NsName): Slot {
    if p.backend != b then s
    else if s.dropped then Slot(s.entry, s.all + [p.attrs], true)
    else if s.entry.Some? then Slot(None, s.all + [p.attrs], true)
    else Slot(Some(p.attrs), s.all + [p.attrs], false)
  }

  function SlotAt(puts: seq<Put>, b: NsName): Slot {
    if puts == [] then Slot(None, [], false) else SlotStep(SlotAt(puts[..|puts| - 1], b), puts[|puts| - 1], b)
  }

  lemma SlotAtStep(puts: seq<Put>, p: Put, b: NsName)
    ensures SlotAt(puts + [p], b) == SlotStep(SlotAt(puts, b), p, b)
  {
    assert (puts + [p])[..|puts|] == puts;
  }

  class StaticLookup {
    var backendIndex: map<NsName, RouteAttributes>
    var backendIndexAll: map<NsName, seq<RouteAttributes>>
    var backendIndexDropped: set<NsName>
    ghost var puts: seq<Put>

    ghost function SlotOf(b: NsName): Slot
      reads this
    {
      Slot(Get(backendIndex, b), if b in backendIndexAll then backendIndexAll[b] else [], b in backendIndexDropped)
    }

    ghost predicate Valid()
      reads this
    {
      && (forall b :: SlotOf(b) == SlotAt(puts, b))
      && (forall b | b in backendIndexAll :: backendIndexAll[b] != [])
    }

    constructor ()
      ensures Valid() && puts == []
    {
      backendIndex, backendIndexAll, backendIndexDropped, puts := map[], map[], {}, [];
    }

    method PutBackend(ns: string, svc: string, attrs: RouteAttributes)
      requires Valid()
      modifies this
      ensures Valid() && puts == old(puts) + [Put(NsName(ns, svc), attrs)]
    {
      var b := NsName(ns, svc);
      assert SlotOf(b) == SlotAt(puts, b);
      backendIndexAll := backendIndexAll[b := (if b in backendIndexAll then backendIndexAll[b] else []) + [attrs]];
      if b !in backendIndexDropped {
        if b in backendIndex {
          backendIndex := backendIndex - {b};
          backendIndexDropped := backendIndexDropped + {b};
        } else {
          backendIndex := backendIndex[b := attrs];
        }
      }
      puts := puts + [Put(b, attrs)];
      forall b' ensures SlotOf(b') == SlotAt(puts, b') {
        assert old(SlotOf(b')) == SlotAt(old(puts), b');
        SlotAtStep(old(puts), Put(b, attrs), b');
      }
    }

    method LookupByBackendService(ns: string, svc: string) returns (r: Option<RouteAttributes>)
      requires Valid()
      ensures r == SlotAt(puts, NsName(ns, svc)).entry
    {
      assert SlotOf(NsName(ns, svc)) == SlotAt(puts, NsName(ns, svc));
      r := Get(backendIndex, NsName(ns, svc));
    }

    method LookupByBackendServiceWithParents(ns: string, svc: string) returns (r: seq<RouteAttributes>)
      requires Valid()
      ensures r == SlotAt(puts, NsName(ns, svc)).all
    {
      var b := NsName(ns, svc);
      assert SlotOf(b) == SlotAt(puts, b);
      r := if b in backendIndexAll then backendIndexAll[b] else [];
    }
  }

  // ----- simulation -----

  /** A fixture only ever adds routes. */
  ghost predicate UpsertOnly(run: RouteRun) {
    forall i | 0 <= i < |run| :: run[i].Upsert?
  }

  /** A fixture run: distinct routes, each upserted once. */
  ghost predicate FixtureRun(run: RouteRun) {
    && UpsertOnly(run)
    && (forall i, j | 0 <= i < j < |run| :: run[i].key != run[j].key)
  }

  /** For each event, its distinct backend refs in some order. */
  ghost predicate DistinctRefs(run: RouteRun, refs: seq<seq<NsName>>) {
    |refs| == |run| &&
    forall i | 0 <= i < |run| && run[i].Upsert? ::
      && (forall b :: b in refs[i] <==> b in run[i].value.refs)
      && (forall j, k | 0 <= j < k < |refs[i]| :: refs[i][j] != refs[i][k])
  }

  function PutAll(bs: seq<NsName>, ra: RouteAttributes): seq<Put> {
    seq(|bs|, i requires 0 <= i < |bs| => Put(bs[i], ra))
  }

  /** One put per distinct backend ref, route by route. */
  function PutsOf(run: RouteRun, refs: seq<seq<NsName>>): seq<Put>
    requires |refs| == |run| && forall i | 0 <= i < |run| :: run[i].Upsert?
  {
    if run == [] then []
    else var n := |run| - 1; PutsOf(run[..n], refs[..n]) + PutAll(refs[n], run[n].value.attrs)
  }

  /** The attributes of every upsert mentioning `b`, in order. */
  function MentionAttrs(run: RouteRun, b: NsName): seq<RouteAttributes> {
    if run == [] then []
    else var n := |run| - 1; MentionAttrs(run[..n], b) + if Mentions(run[n], b) then [run[n].value.attrs] else []
  }

  /** The keys of the routes mentioning `b`, in order. */
  function Mentioners(run: RouteRun, b: NsName): seq<RouteKey> {
    if run == [] then []
    else var n := |run| - 1; Mentioners(run[..n], b) + if Mentions(run[n], b) then [run[n].key] else []
  }

  function AttrsOf(run: RouteRun, k: RouteKey): RouteAttributes {
    match Latest(run, k) case Some(rev) => rev.attrs case None => ZERO_ATTRS
  }

  function MapAttrs(run: RouteRun, keys: seq<RouteKey>): seq<RouteAttributes> {
    seq(|keys|, i requires 0 <= i < |keys| => AttrsOf(run, keys[i]))
  }

  lemma {:induction false} PutAllOnce(puts: seq<Put>, bs: seq<NsName>, ra: RouteAttributes, b: NsName)
    requires forall j, k | 0 <= j < k < |bs| :: bs[j] != bs[k]
    ensures SlotAt(puts + PutAll(bs, ra), b) == if b in bs then SlotStep(SlotAt(puts, b), Put(b, ra), b) else SlotAt(puts, b)
  {
    if bs == [] {
      assert puts + PutAll(bs, ra) == puts;
    } else {
      var n := |bs| - 1;
      var front, last := bs[..n], Put(bs[n], ra);
      PutAllOnce(puts, front, ra, b);
      SlotAtStep(puts + PutAll(front, ra), last, b);
      PutAllStep(bs, ra);
      assert puts + (PutAll(front, ra) + [last]) == puts + PutAll(front, ra) + [last];
      assert b in bs <==> b in front || b == bs[n];
    }
  }

  lemma PutAllStep(bs: seq<NsName>, ra: RouteAttributes)
    requires bs != []
    ensures PutAll(bs, ra) == PutAll(bs[..|bs| - 1], ra) + [Put(bs[|bs| - 1], ra)]
  {
  }

  lemma DistinctRefsFront(run: RouteRun, refs: seq<seq<NsName>>)
    requires UpsertOnly(run) && DistinctRefs(run, refs) && run != []
    ensures UpsertOnly(run[..|run| - 1]) && DistinctRefs(run[..|run| - 1], refs[..|run| - 1])
  {
  }

  /** A slot keeps every mention, and an entry while there has been exactly one. */
  lemma {:induction false} SlotOfPuts(run: RouteRun, refs: seq<seq<NsName>>, b: NsName)
    requires UpsertOnly(run) && DistinctRefs(run, refs)
    ensures var s, attrs := SlotAt(PutsOf(run, refs), b), MentionAttrs(run, b);
      && s.all == attrs
      && s.entry == (if |attrs| == 1 then Some(attrs[0]) else None)
      && s.dropped == (|attrs| > 1)
  {
    if run != [] {
      var n := |run| - 1;
      DistinctRefsFront(run, refs);
      SlotOfPuts(run[..n], refs[..n], b);
      PutAllOnce(PutsOf(run[..n], refs[..n]), refs[n], run[n].value.attrs, b);
    }
  }

  /** In a fixture run nothing overwrites a route, so mentioners keep their attributes. */
  lemma MentionersStay(run: RouteRun, b: NsName)
    requires FixtureRun(run) && run != []
    ensures var n := |run| - 1;
      MapAttrs(run, Mentioners(run, b)) ==
      MapAttrs(run[..n], Mentioners(run[..n], b)) + if Mentions(run[n], b) then [run[n].value.attrs] else []
  {
    var n := |run| - 1;
    var front := run[..n];
    MentionersAreKeys(front, b);
    forall i | 0 <= i < |Mentioners(front, b)| ensures AttrsOf(run, Mentioners(front, b)[i]) == AttrsOf(front, Mentioners(front, b)[i]) {
      assert Mentioners(front, b)[i] in Mentioners(front, b);
    }
  }

  lemma {:induction false} MentionersAreKeys(run: RouteRun, b: NsName)
    ensures forall k | k in Mentioners(run, b) :: exists i | 0 <= i < |run| :: run[i].key == k
  {
    if run != [] {
      var n := |run| - 1;
      MentionersAreKeys(run[..n], b);
      forall k | k in Mentioners(run, b) ensures exists i | 0 <= i < |run| :: run[i].key == k {
        if k in Mentioners(run[..n], b) {
          var i :| 0 <= i < n && run[..n][i].key == k;
          assert run[i].key == k;
        } else {
          assert run[n].key == k;
        }
      }
    }
  }

  /** In a fixture run the owner set is the mentioners, once each, and the claim is the first of them. */
  lemma {:induction false} FixtureCell(run: RouteRun, b: NsName)
    requires FixtureRun(run)
    ensures Enumerates(Mentioners(run, b), CellAt(run, b).owners)
    ensures var ms := Mentioners(run, b);
      && CellAt(run, b).claim == (if ms == [] then None else Some(ms[0]))
      && CellAt(run, b).entry == (if |ms| == 1 then Some(MapAttrs(run, ms)[0]) else None)
  {
    if run != [] {
      var n := |run| - 1;
      var front, e := run[..n], run[n];
      FixtureCell(front, b);
      MentionersStay(run, b);
      MentionersAreKeys(front, b);
      assert e.key !in Mentioners(front, b);
      var ms, ms' := Mentioners(front, b), Mentioners(run, b);
      if ms != [] {
        assert ms[0] in ms;
      }
      assert ms' == ms + if Mentions(e, b) then [e.key] else [];
      assert |MapAttrs(run, ms')| == |ms'|;
    }
  }

  /** In a fixture run the mentions are the mentioners' own attributes. */
  lemma {:induction false} FixtureAttrs(run: RouteRun, b: NsName)
    requires FixtureRun(run)
    ensures MapAttrs(run, Mentioners(run, b)) == MentionAttrs(run, b)
  {
    if run != [] {
      FixtureAttrs(run[..|run| - 1], b);
      MentionersStay(run, b);
    }
  }

  /** Two enumerations of the same owners carry the same attributes up to order. */
  lemma {:induction false} EnumerationsAgree(run: RouteRun, ks: seq<RouteKey>, ks': seq<RouteKey>, owners: set<RouteKey>)
    requires Enumerates(ks, owners) && Enumerates(ks', owners)
    ensures multiset(MapAttrs(run, ks)) == multiset(MapAttrs(run, ks'))
  {
    EnumerationSize(ks, owners);
    EnumerationSize(ks', owners);
    if ks != [] {
      var k := ks[0];
      assert k in ks && k in ks';
      var j :| 0 <= j < |ks'| && ks'[j] == k;
      DropOne(ks, 0, owners);
      DropOne(ks', j, owners);
      SplitOff(run, ks, 0);
      SplitOff(run, ks', j);
      EnumerationsAgree(run, ks[..0] + ks[1..], ks'[..j] + ks'[j + 1..], owners - {k});
    }
  }

  lemma SplitOff(run: RouteRun, ks: seq<RouteKey>, j: nat)
    requires j < |ks|
    ensures multiset(MapAttrs(run, ks)) == multiset{AttrsOf(run, ks[j])} + multiset(MapAttrs(run, ks[..j] + ks[j + 1..]))
  {
    var m := MapAttrs(run, ks);
    assert m == m[..j] + [m[j]] + m[j + 1..];
    assert MapAttrs(run, ks[..j] + ks[j + 1..]) == m[..j] + m[j + 1..];
  }

  lemma DropOne(ks: seq<RouteKey>, j: nat, owners: set<RouteKey>)
    requires Enumerates(ks, owners) && j < |ks|
    ensures Enumerates(ks[..j] + ks[j + 1..], owners - {ks[j]})
  {
    var rest := ks[..j] + ks[j + 1..];
    assert forall i | 0 <= i < |rest| :: rest[i] == ks[if i < j then i else i + 1];
    forall k ensures k in rest <==> k in owners - {ks[j]} {
      if k in owners - {ks[j]} {
        assert k in ks;
        var i :| 0 <= i < |ks| && ks[i] == k;
        assert rest[if i < j then i else i - 1] == k;
      }
    }
  }

  /**
    For distinct routes upserted once, the fixture and the index agree on every
    single-candidate lookup and on the candidates, up to order.
   */
  lemma FixtureSimulatesIndex(run: RouteRun, refs: seq<seq<NsName>>, b: NsName, out: seq<RouteAttributes>)
    requires FixtureRun(run) && DistinctRefs(run, refs)
    requires ListsOwners(out, run, map[], CellAt(run, b).owners)
    ensures SlotAt(PutsOf(run, refs), b).entry == BackendView(run, map[], b)
    ensures multiset(SlotAt(PutsOf(run, refs), b).all) == multiset(out)
  {
    FixtureCell(run, b);
    SlotOfPuts(run, refs, b);
    FixtureAttrs(run, b);
    var keys :| Enumerates(keys, CellAt(run, b).owners) && ViewsOf(out, run, map[], keys);
    assert out == MapAttrs(run, keys);
    EnumerationsAgree(run, Mentioners(run, b), keys, CellAt(run, b).owners);
  }

  // ----- routes upserted more than once -----

  /** Event `i` is the only one to mention `b`. */
  ghost predicate SoleMention(run: RouteRun, b: NsName, i: int) {
    0 <= i < |run| && Mentions(run[i], b) && forall j | 0 <= j < |run| && j != i :: !Mentions(run[j], b)
  }

  ghost predicate NoMention(run: RouteRun, b: NsName) {
    forall i | 0 <= i < |run| :: !Mentions(run[i], b)
  }

  lemma SoleMentionStep(front: RouteRun, e: RouteEvent, b: NsName, i: int)
    ensures SoleMention(front + [e], b, i) <==>
            if Mentions(e, b) then i == |front| && NoMention(front, b) else SoleMention(front, b, i)
  {
    var run := front + [e];
    assert run[|front|] == e && forall j | 0 <= j < |front| :: run[j] == front[j];
    if SoleMention(run, b, i) {
      forall j | 0 <= j < |front| && j != i ensures !Mentions(front[j], b) {
        assert !Mentions(run[j], b);
      }
    }
  }

  lemma {:induction false} MentionsCounted(run: RouteRun, b: NsName)
    ensures MentionAttrs(run, b) == [] <==> NoMention(run, b)
    ensures |MentionAttrs(run, b)| == 1 <==> exists i :: SoleMention(run, b, i)
    ensures forall i | SoleMention(run, b, i) :: MentionAttrs(run, b) == [run[i].value.attrs]
  {
    if run != [] {
      var n := |run| - 1;
      var front, e := run[..n], run[n];
      assert run == front + [e];
      MentionsCounted(front, b);
      forall i ensures SoleMention(run, b, i) <==> if Mentions(e, b) then i == n && NoMention(front, b) else SoleMention(front, b, i) {
        SoleMentionStep(front, e, b, i);
      }
      assert NoMention(run, b) <==> NoMention(front, b) && !Mentions(e, b) by {
        assert forall j | 0 <= j < n :: run[j] == front[j];
      }
      if Mentions(e, b) {
        assert SoleMention(run, b, n) <==> NoMention(front, b);
      } else if i :| SoleMention(front, b, i) {
        assert SoleMention(run, b, i);
      }
    }
  }

  /** A backend mentioned once has an entry iff that mention is still its route's last event. */
  lemma SoleMentionEntry(run: RouteRun, b: NsName, i: int)
    requires SoleMention(run, b, i)
    ensures CellAt(run, b).entry == if IsLastAbout(run, run[i].key, i) then Some(run[i].value.attrs) else None
  {
    var k := run[i].key;
    if CellAt(run, b).entry.Some? {
      EntryIsLastWord(run, b, i);
    }
    if IsLastAbout(run, k, i) {
      UnclaimedBefore(run[..i], b);
      assert ClaimedFrom(run, k, b, i);
      ClaimIsFirstSinceRelease(run, b, k);
      assert MentionedLastAt(run, b, k, i);
      LatestIsLastWord(run, k, run[i].value);
      assert Resolves(run, b, k);
      EntryIsClaimantsLastMention(run, b, run[i].value.attrs);
    }
  }

  lemma EntryIsLastWord(run: RouteRun, b: NsName, i: int)
    requires SoleMention(run, b, i) && CellAt(run, b).entry.Some?
    ensures IsLastAbout(run, run[i].key, i)
  {
    FastPathCoherent(run, b);
    var k := CellAt(run, b).claim.value;
    OwnerIsLastLister(run, b, k);
    var i' :| IsLastAbout(run, k, i') && Mentions(run[i'], b);
  }

  lemma UnclaimedBefore(run: RouteRun, b: NsName)
    requires NoMention(run, b)
    ensures CellAt(run, b).claim == None
  {
    ClaimantOwns(run, b);
    if k :| CellAt(run, b).claim == Some(k) {
      OwnerIsLastLister(run, b, k);
    }
  }

  /**
    For any upserts, repeated or not, fixture and index agree on a backend's
    single-candidate lookup iff: when it was mentioned once, its route has not been
    heard of since; otherwise, nobody who claimed it made the latest mention.
   */
  lemma SlotAgreesIff(run: RouteRun, refs: seq<seq<NsName>>, b: NsName)
    requires UpsertOnly(run) && DistinctRefs(run, refs)
    ensures SlotAt(PutsOf(run, refs), b).entry == BackendView(run, map[], b) <==>
            if exists i :: SoleMention(run, b, i)
            then exists i :: SoleMention(run, b, i) && IsLastAbout(run, run[i].key, i)
            else forall k, i | ClaimedFrom(run, k, b, i) :: !LastMentionIs(run, b, k)
  {
    SlotOfPuts(run, refs, b);
    MentionsCounted(run, b);
    assert BackendView(run, map[], b) == CellAt(run, b).entry;
    if i :| SoleMention(run, b, i) {
      SoleMentionEntry(run, b, i);
    } else {
      BackendHiddenIff(run, b);
    }
  }

  lemma DropIsSticky(ra: RouteAttributes, b: NsName)
    ensures SlotAt([Put(b, ra), Put(b, ra), Put(b, ra)], b) == Slot(None, [ra, ra, ra], true)
  {
    var p := Put(b, ra);
    SlotAtStep([], p, b);
    SlotAtStep([p], p, b);
    SlotAtStep([p, p], p, b);
    assert [] + [p] == [p] && [p] + [p] == [p, p] && [p, p] + [p] == [p, p, p];
  }

  /** The fixture's drop is sticky; the index's is not: re-upserting the claimant separates them. */
  lemma ReupsertSeparates(a: RouteKey, c: RouteKey, ra: RouteAttributes, b: NsName)
    requires a != c
    ensures var ua, uc := Upsert(a, Revision(ra, [b])), Upsert(c, Revision(ra, [b]));
      CellAt([ua, uc, ua], b).entry == Some(ra) && SlotAt([Put(b, ra), Put(b, ra), Put(b, ra)], b).entry == None
  {
    RepublishWitness(a, c, ra, b);
    DropIsSticky(ra, b);
  }
}
