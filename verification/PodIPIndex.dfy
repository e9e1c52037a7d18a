/**
  The pod-address reverse index, fed by EndpointSlices. Its conflict rule is the
  opposite of the ClusterIP index's: the last slice to list an address takes it.
 */
module PodIPIndex {
  import opened Types
  import opened History
  import ServiceIPIndex

  type Canon = ServiceIPIndex.Canon

  datatype AddressType = IPv4 | IPv6 | FQDN

  datatype Endpoint = Endpoint(ready: Option<bool>, addresses: seq<string>)

  datatype OwnerReference = OwnerReference(kind: string, name: string)

  datatype EndpointSlice = EndpointSlice(
    ns: string,
    name: string,
    serviceLabel: Option<string>,
    ownerReferences: seq<OwnerReference>,
    addressType: AddressType,
    endpoints: seq<Endpoint>)

  function FirstServiceOwner(refs: seq<OwnerReference>): string {
    if refs == [] then ""
    else if refs[0].kind == "Service" && refs[0].name != "" then refs[0].name
    else FirstServiceOwner(refs[1..])
  }

  /** The owning Service: the non-empty service-name label, else the first named Service owner, else "". */
  function ServiceOwnerOf(es: EndpointSlice): string {
    if es.serviceLabel.Some? && es.serviceLabel.value != "" then es.serviceLabel.value
    else FirstServiceOwner(es.ownerReferences)
  }

  /** Endpoints not explicitly unready are in the routing path. */
  predicate InPath(ep: Endpoint) {
    ep.ready != Some(false)
  }

  function AddressesOf(canon: Canon, eps: seq<Endpoint>): set<string> {
    set ep, raw | ep in eps && InPath(ep) && raw in ep.addresses && canon(raw).Some? :: canon(raw).value
  }

  function SliceIPs(canon: Canon, es: EndpointSlice): set<string> {
    if es.addressType == FQDN then {} else AddressesOf(canon, es.endpoints)
  }

  // ----- the same, read off the object's fields -----

  /** An IP-typed slice lists `ip` when an endpoint that is ready, or does not say, has an address spelling it. */
  ghost predicate ListsAddress(canon: Canon, es: EndpointSlice, ip: string) {
    && (es.addressType == IPv4 || es.addressType == IPv6)
    && exists i, j :: ListsAt(canon, es, ip, i, j)
  }

  ghost predicate ListsAt(canon: Canon, es: EndpointSlice, ip: string, i: int, j: int) {
    && 0 <= i < |es.endpoints| && 0 <= j < |es.endpoints[i].addresses|
    && (es.endpoints[i].ready == None || es.endpoints[i].ready == Some(true))
    && canon(es.endpoints[i].addresses[j]) == Some(ip)
  }

  predicate IsServiceOwner(ref: OwnerReference) {
    ref.kind == "Service" && ref.name != ""
  }

  /** The slice's Service: its service-name label unless absent or empty, else its first named Service owner. */
  ghost predicate ServedBy(es: EndpointSlice, svc: string) {
    && svc != ""
    && if es.serviceLabel == None || es.serviceLabel == Some("")
       then exists j :: FirstOwner(es.ownerReferences, j) && es.ownerReferences[j].name == svc
       else es.serviceLabel == Some(svc)
  }

  ghost predicate FirstOwner(refs: seq<OwnerReference>, j: int) {
    0 <= j < |refs| && IsServiceOwner(refs[j]) && forall j' | 0 <= j' < j :: !IsServiceOwner(refs[j'])
  }

  lemma NotUnready(ready: Option<bool>)
    requires ready != Some(false)
    ensures ready == None || ready == Some(true)
  {
    match ready
    case None =>
    case Some(b) => assert b;
  }

  lemma ListsAddressIff(canon: Canon, es: EndpointSlice, ip: string)
    ensures ip in SliceIPs(canon, es) <==> ListsAddress(canon, es, ip)
  {
    if ip in SliceIPs(canon, es) {
      var ep, raw :| ep in es.endpoints && InPath(ep) && raw in ep.addresses && canon(raw).Some? && canon(raw).value == ip;
      var i :| 0 <= i < |es.endpoints| && es.endpoints[i] == ep;
      var j :| 0 <= j < |ep.addresses| && ep.addresses[j] == raw;
      NotUnready(ep.ready);
      assert ListsAt(canon, es, ip, i, j);
    }
    if ListsAddress(canon, es, ip) {
      var i, j :| ListsAt(canon, es, ip, i, j);
      var ep, raw := es.endpoints[i], es.endpoints[i].addresses[j];
      assert ep in es.endpoints && InPath(ep) && raw in ep.addresses && canon(raw).Some? && canon(raw).value == ip;
    }
  }

  lemma {:induction false} FirstOwnerIs(refs: seq<OwnerReference>)
    ensures forall j | FirstOwner(refs, j) :: FirstServiceOwner(refs) == refs[j].name
    ensures FirstServiceOwner(refs) != "" ==> exists j :: FirstOwner(refs, j)
  {
    if refs != [] {
      var rest := refs[1..];
      FirstOwnerIs(rest);
      if IsServiceOwner(refs[0]) {
        assert FirstOwner(refs, 0);
      } else {
        forall j | FirstOwner(refs, j) ensures FirstServiceOwner(refs) == refs[j].name {
          assert FirstOwner(rest, j - 1);
        }
        if j :| FirstOwner(rest, j) {
          assert FirstOwner(refs, j + 1);
        }
      }
    }
  }

  lemma ServedByIff(es: EndpointSlice, svc: string)
    ensures ServedBy(es, svc) <==> svc != "" && ServiceOwnerOf(es) == svc
  {
    FirstOwnerIs(es.ownerReferences);
  }

  method EndpointSliceIPSet(canon: Canon, es: EndpointSlice) returns (out: set<string>)
    ensures out == SliceIPs(canon, es)
    ensures forall ip :: ip in out <==> ListsAddress(canon, es, ip)
  {
    forall ip ensures ip in SliceIPs(canon, es) <==> ListsAddress(canon, es, ip) {
      ListsAddressIff(canon, es, ip);
    }
    out := {};
    if es.addressType == FQDN { return; }
    for i := 0 to |es.endpoints|
      invariant out == AddressesOf(canon, es.endpoints[..i])
    {
      var ep := es.endpoints[i];
      ghost var before := out;
      if InPath(ep) {
        for j := 0 to |ep.addresses|
          invariant out == before + set raw | raw in ep.addresses[..j] && canon(raw).Some? :: canon(raw).value
        {
          if canon(ep.addresses[j]).Some? {
            out := out + {canon(ep.addresses[j]).value};
          }
        }
      }
      assert es.endpoints[..i + 1] == es.endpoints[..i] + [ep];
    }
    assert es.endpoints[..|es.endpoints|] == es.endpoints;
  }

  /** What a slice revision contributes: nothing unless it has an owning Service. */
  datatype SliceClaim = SliceClaim(service: string, ips: set<string>)

  function ClaimOf(canon: Canon, es: EndpointSlice): SliceClaim {
    var svc := ServiceOwnerOf(es);
    SliceClaim(svc, if svc == "" then {} else SliceIPs(canon, es))
  }

  type SliceEvent = Event<NsName, SliceClaim>
  type SliceRun = seq<SliceEvent>

  predicate Announces(e: SliceEvent, ip: string) {
    e.Upsert? && ip in e.value.ips
  }

  datatype Holding = Holding(slice: NsName, service: NsName)

  function HoldingOf(e: SliceEvent): Holding
    requires e.Upsert?
  {
    Holding(e.key, NsName(e.key.ns, e.value.service))
  }

  function HoldingStep(h: Option<Holding>, e: SliceEvent, ip: string): Option<Holding> {
    if Announces(e, ip) then Some(HoldingOf(e))
    else if h.Some? && h.value.slice == e.key then None
    else h
  }

  function HoldingAt(run: SliceRun, ip: string): Option<Holding> {
    if run == [] then None else HoldingStep(HoldingAt(run[..|run| - 1], ip), run[|run| - 1], ip)
  }

  lemma HoldingAtStep(run: SliceRun, e: SliceEvent, ip: string)
    ensures HoldingAt(run + [e], ip) == HoldingStep(HoldingAt(run, ip), e, ip)
  {
    assert (run + [e])[..|run|] == run;
  }

  /** Event `i` is the last upsert listing `ip`, and its slice has not been heard of since. */
  ghost predicate LastListing(run: SliceRun, ip: string, i: int) {
    && 0 <= i < |run|
    && Announces(run[i], ip)
    && forall j | i < j < |run| :: !Announces(run[j], ip) && run[j].key != run[i].key
  }

  /**
    Exactly when a pod address resolves, and to what: the most recent upsert
    listing it decides, unless that slice has since been updated or deleted.
   */
  lemma {:induction false} HoldingIsLastListing(run: SliceRun, ip: string, h: Holding)
    ensures HoldingAt(run, ip) == Some(h) <==> exists i :: LastListing(run, ip, i) && HoldingOf(run[i]) == h
  {
    if run != [] {
      var n := |run| - 1;
      var front := run[..n];
      HoldingIsLastListing(front, ip, h);
      if HoldingAt(run, ip) == Some(h) {
        if Announces(run[n], ip) {
          assert LastListing(run, ip, n);
        } else {
          var i :| LastListing(front, ip, i) && HoldingOf(front[i]) == h;
          assert LastListing(run, ip, i);
        }
      }
      if i :| LastListing(run, ip, i) && HoldingOf(run[i]) == h {
        if i < n {
          forall j | i < j < n ensures !Announces(front[j], ip) && front[j].key != front[i].key {
            assert front[j] == run[j];
          }
          assert LastListing(front, ip, i);
          assert !Announces(run[n], ip) && run[n].key != run[i].key;
        }
      }
    }
  }

  /** Slice `s` is live and its latest revision lists `ip`. */
  predicate LiveLister(run: SliceRun, s: NsName, ip: string) {
    Latest(run, s).Some? && ip in Latest(run, s).value.ips
  }

  /** The holder is live, lists the address now, and the answer is its current owning Service. */
  lemma {:induction false} HoldingIsCurrent(run: SliceRun, ip: string)
    ensures var h := HoldingAt(run, ip);
      h.Some? ==>
        && LiveLister(run, h.value.slice, ip)
        && h.value.service == NsName(h.value.slice.ns, Latest(run, h.value.slice).value.service)
  {
    if run != [] {
      HoldingIsCurrent(run[..|run| - 1], ip);
    }
  }

  /** One resync round: every live slice upserted once more, unchanged, in any order. */
  ghost predicate FullRound(run: SliceRun, round: SliceRun) {
    && (forall i | 0 <= i < |round| :: round[i].Upsert? && Latest(run, round[i].key) == Some(round[i].value))
    && (forall i, j | 0 <= i < j < |round| :: round[i].key != round[j].key)
    && (forall s | Latest(run, s).Some? :: exists i | 0 <= i < |round| :: round[i].key == s)
  }

  /** After a full round, each listed address resolves to the last slice of the round listing it. */
  lemma ResyncConverges(run: SliceRun, round: SliceRun, ip: string, i: int)
    requires FullRound(run, round)
    requires 0 <= i < |round| && Announces(round[i], ip) && forall j | i < j < |round| :: !Announces(round[j], ip)
    ensures HoldingAt(run + round, ip) == Some(HoldingOf(round[i]))
  {
    var all := run + round;
    var at := |run| + i;
    forall j | at < j < |all| ensures !Announces(all[j], ip) && all[j].key != all[at].key {
      assert all[j] == round[j - |run|];
    }
    assert all[at] == round[i];
    assert LastListing(all, ip, at);
    HoldingIsLastListing(all, ip, HoldingOf(round[i]));
  }

  /** After a full round an address resolves iff some live slice lists it. */
  lemma ResyncIsComplete(run: SliceRun, round: SliceRun, ip: string)
    requires FullRound(run, round)
    ensures HoldingAt(run + round, ip).Some? <==> exists s :: LiveLister(run, s, ip)
  {
    if s :| LiveLister(run, s, ip) {
      var i :| 0 <= i < |round| && round[i].key == s;
      assert Latest(run, round[i].key) == Some(round[i].value);
      LastLister(round, ip, i);
      var l :| i <= l < |round| && Announces(round[l], ip) && forall j | l < j < |round| :: !Announces(round[j], ip);
      ResyncConverges(run, round, ip, l);
    }
    if HoldingAt(run + round, ip).Some? {
      HoldingIsCurrent(run + round, ip);
      var s := HoldingAt(run + round, ip).value.slice;
      RoundKeepsRevisions(run, round, s);
      assert LiveLister(run, s, ip);
    }
  }

  lemma RoundKeepsRevisions(run: SliceRun, round: SliceRun, s: NsName)
    requires FullRound(run, round)
    ensures Latest(run + round, s) == Latest(run, s)
  {
    if i :| 0 <= i < |round| && round[i].key == s {
      LatestStep(run + round[..i], round[i], s);
      LatestSkips(run + round[..i] + [round[i]], round[i + 1..], s);
      assert run + round[..i] + [round[i]] + round[i + 1..] == run + round;
    } else {
      LatestSkips(run, round, s);
    }
  }

  /** The last element from `i` on that lists `ip`. */
  lemma {:induction false} LastLister(round: SliceRun, ip: string, i: int)
    requires 0 <= i < |round| && Announces(round[i], ip)
    ensures exists l :: i <= l < |round| && Announces(round[l], ip) && forall j | l < j < |round| :: !Announces(round[j], ip)
    decreases |round| - i
  {
    if j :| i < j < |round| && Announces(round[j], ip) {
      LastLister(round, ip, j);
    }
  }

  /** Last-writer-wins loses the earlier lister: deleting the winner leaves a listed address unresolved. */
  lemma LastWriterWitness(a: NsName, b: NsName, ip: string, c: SliceClaim)
    requires a != b && ip in c.ips
    ensures var run := [Upsert(a, c), Upsert(b, c), Delete(b)];
      HoldingAt(run, ip) == None && LiveLister(run, a, ip)
  {
    var ua, ub, db := Event.Upsert(a, c), Event.Upsert(b, c), Event<NsName, SliceClaim>.Delete(b);
    HoldingAtStep([ua], ub, ip);
    assert [ua] + [ub] == [ua, ub];
    HoldingAtStep([ua, ub], db, ip);
    assert [ua, ub] + [db] == [ua, ub, db];
    LatestSkips([ua], [ub, db], a);
    assert [ua] + [ub, db] == [ua, ub, db];
  }

  // ----- over runs of EndpointSlice objects -----

  type SliceObjects = seq<Event<NsName, EndpointSlice>>

  function ClaimEvent(canon: Canon, e: Event<NsName, EndpointSlice>): SliceEvent {
    match e
    case Upsert(k, es) => Upsert(k, ClaimOf(canon, es))
    case Delete(k) => Delete(k)
  }

  function Claims(canon: Canon, objects: SliceObjects): SliceRun {
    seq(|objects|, i requires 0 <= i < |objects| => ClaimEvent(canon, objects[i]))
  }

  /** Each object is stored under its own name. */
  ghost predicate Named(objects: SliceObjects) {
    forall i | 0 <= i < |objects| && objects[i].Upsert? :: objects[i].key == NsName(objects[i].value.ns, objects[i].value.name)
  }

  /** The event stores a slice that lists `ip` and belongs to some Service. */
  ghost predicate Contributes(canon: Canon, e: Event<NsName, EndpointSlice>, ip: string) {
    e.Upsert? && ListsAddress(canon, e.value, ip) && exists svc :: ServedBy(e.value, svc)
  }

  lemma ContributesIff(canon: Canon, e: Event<NsName, EndpointSlice>, ip: string)
    ensures Contributes(canon, e, ip) <==> Announces(ClaimEvent(canon, e), ip)
  {
    if e.Upsert? {
      ListsAddressIff(canon, e.value, ip);
      ServedByIff(e.value, ServiceOwnerOf(e.value));
      if svc :| ServedBy(e.value, svc) {
        ServedByIff(e.value, svc);
      }
    }
  }

  /** Event `i` contributes `ip`; nothing later contributes it or is about that slice. */
  ghost predicate LastContribution(canon: Canon, objects: SliceObjects, ip: string, i: int) {
    && 0 <= i < |objects|
    && Contributes(canon, objects[i], ip)
    && forall j | i < j < |objects| :: !Contributes(canon, objects[j], ip) && objects[j].key != objects[i].key
  }

  lemma LastContributionIff(canon: Canon, objects: SliceObjects, ip: string, i: int)
    ensures LastContribution(canon, objects, ip, i) <==> LastListing(Claims(canon, objects), ip, i)
  {
    var run := Claims(canon, objects);
    forall j | 0 <= j < |objects| ensures Contributes(canon, objects[j], ip) <==> Announces(run[j], ip) {
      ContributesIff(canon, objects[j], ip);
    }
  }

  /** `n` is the Service of event `i`'s slice, in the slice's namespace. */
  ghost predicate AnswersWith(objects: SliceObjects, i: int, n: NsName) {
    0 <= i < |objects| && objects[i].Upsert? && n.ns == objects[i].value.ns && ServedBy(objects[i].value, n.name)
  }

  /** The index answers `n` for `ip`. */
  predicate Resolves(run: SliceRun, ip: string, n: NsName) {
    HoldingAt(run, ip).Some? && HoldingAt(run, ip).value.service == n
  }

  /**
    Over every run of slice objects, an address resolves to a Service iff the last
    slice stored that lists it, through an endpoint not said to be unready, belongs
    to that Service and has not been heard of since.
   */
  lemma PodResolvesIff(canon: Canon, objects: SliceObjects, ip: string, n: NsName)
    requires Named(objects)
    ensures Resolves(Claims(canon, objects), ip, n) <==>
            exists i :: LastContribution(canon, objects, ip, i) && AnswersWith(objects, i, n)
  {
    var run := Claims(canon, objects);
    if Resolves(run, ip, n) {
      HoldingIsLastListing(run, ip, HoldingAt(run, ip).value);
      var i :| LastListing(run, ip, i) && HoldingOf(run[i]) == HoldingAt(run, ip).value;
      LastContributionIff(canon, objects, ip, i);
      ServedByIff(objects[i].value, n.name);
      assert AnswersWith(objects, i, n);
    }
    if i :| LastContribution(canon, objects, ip, i) && AnswersWith(objects, i, n) {
      LastContributionIff(canon, objects, ip, i);
      ServedByIff(objects[i].value, n.name);
      HoldingIsLastListing(run, ip, HoldingOf(run[i]));
    }
  }

  class PodIPIndex {
    const canon: Canon
    var m: map<string, NsName>
    var owner: map<string, NsName>
    ghost var objects: SliceObjects  // the EndpointSlice events handled so far

    ghost function At(ip: string): Option<Holding>
      reads this
    {
      if ip in owner && ip in m then Some(Holding(owner[ip], m[ip])) else None
    }

    /** Both maps are what the run prescribes. */
    ghost predicate Valid()
      reads this
    {
      owner.Keys == m.Keys && Named(objects) && forall ip :: At(ip) == HoldingAt(Claims(canon, objects), ip)
    }

    constructor (canon: Canon)
      ensures Valid() && objects == [] && this.canon == canon
    {
      this.canon := canon;
      m, owner, objects := map[], map[], [];
    }

    /** Drops the claims of `s` outside `want`, in arbitrary map order. */
    method Withdraw(s: NsName, want: set<string>)
      requires owner.Keys == m.Keys
      modifies this`m, this`owner
      ensures owner.Keys == m.Keys
      ensures forall ip :: At(ip) ==
                var h := old(At(ip));
                if h.Some? && h.value.slice == s && ip !in want then None else h
    {
      var todo := owner.Keys;
      while todo != {}
        invariant todo <= owner.Keys == m.Keys
        invariant forall ip :: At(ip) ==
                    var h := old(At(ip));
                    if ip !in todo && h.Some? && h.value.slice == s && ip !in want then None else h
      {
        var ip :| ip in todo;
        todo := todo - {ip};
        if owner[ip] == s && ip !in want {
          owner, m := owner - {ip}, m - {ip};
        }
      }
    }

    method UpsertEndpointSlice(es: EndpointSlice)
      requires Valid()
      modifies this`m, this`owner, this`objects
      ensures Valid()
      ensures objects == old(objects) + [Upsert(NsName(es.ns, es.name), es)]
    {
      var key := NsName(es.ns, es.name);
      var svc := ServiceOwnerOf(es);
      var want := {};
      if svc != "" {
        want := EndpointSliceIPSet(canon, es);
      }
      Withdraw(key, want);
      if svc != "" && want != {} {
        Claim(key, NsName(es.ns, svc), want);
      }
      Record(Upsert(key, es));
    }

    /** Takes every wanted address, in arbitrary order, whoever held it. */
    method Claim(key: NsName, service: NsName, want: set<string>)
      requires owner.Keys == m.Keys
      modifies this`m, this`owner
      ensures owner.Keys == m.Keys
      ensures forall ip :: At(ip) == if ip in want then Some(Holding(key, service)) else old(At(ip))
    {
      var todo := want;
      while todo != {}
        invariant todo <= want && owner.Keys == m.Keys
        invariant forall ip :: At(ip) == if ip in want - todo then Some(Holding(key, service)) else old(At(ip))
      {
        var ip :| ip in todo;
        todo := todo - {ip};
        owner, m := owner[ip := key], m[ip := service];
      }
    }

    method DeleteEndpointSlice(ns: string, name: string)
      requires Valid()
      modifies this`m, this`owner, this`objects
      ensures Valid()
      ensures objects == old(objects) + [Delete(NsName(ns, name))]
    {
      Withdraw(NsName(ns, name), {});
      Record(Delete(NsName(ns, name)));
    }

    ghost method Record(e: Event<NsName, EndpointSlice>)
      requires owner.Keys == m.Keys && Named(objects + [e])
      requires forall ip :: At(ip) == HoldingStep(HoldingAt(Claims(canon, objects), ip), ClaimEvent(canon, e), ip)
      modifies this`objects
      ensures Valid() && objects == old(objects) + [e]
    {
      ghost var run := Claims(canon, objects);
      objects := objects + [e];
      assert Claims(canon, objects) == run + [ClaimEvent(canon, e)];
      forall ip ensures At(ip) == HoldingAt(Claims(canon, objects), ip) {
        HoldingAtStep(run, ClaimEvent(canon, e), ip);
        assert old(At(ip)) == HoldingStep(HoldingAt(run, ip), ClaimEvent(canon, e), ip);
      }
    }

    method LookupPodIP(ip: string) returns (r: Option<NsName>)
      requires Valid()
      ensures r.Some? ==> ip != "" && canon(ip).Some?
      ensures forall n | ip != "" && canon(ip).Some? ::
                r == Some(n) <==> exists i :: LastContribution(canon, objects, canon(ip).value, i) && AnswersWith(objects, i, n)
    {
      r := None;
      if ip != "" && canon(ip).Some? {
        ghost var c := canon(ip).value;
        assert At(c) == HoldingAt(Claims(canon, objects), c);
        r := Get(m, canon(ip).value);
        assert r == match HoldingAt(Claims(canon, objects), c) case None => None case Some(h) => Some(h.service);
        forall n ensures r == Some(n) <==> exists i :: LastContribution(canon, objects, c, i) && AnswersWith(objects, i, n) {
          PodResolvesIff(canon, objects, c, n);
          assert r == Some(n) <==> Resolves(Claims(canon, objects), c, n);
        }
      }
    }
  }
}
