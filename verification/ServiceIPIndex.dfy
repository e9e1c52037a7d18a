/**
  The ClusterIP reverse index. When a Service announces an address another
  Service holds, the entry is dropped and the claim with it.
 */
module ServiceIPIndex {
  import opened Types
  import opened History

  /** The canonical spelling of an IP literal, or None when the value is not one. */
  type Canon = string -> Option<string>

  datatype Service = Service(ns: string, name: string, clusterIP: string, clusterIPs: seq<string>)

  predicate Usable(canon: Canon, raw: string) {
    raw != "" && raw != "None" && canon(raw).Some?
  }

  /** The canonical addresses a Service announces. */
  function IPSet(canon: Canon, svc: Service): set<string> {
    set raw | raw in [svc.clusterIP] + svc.clusterIPs && Usable(canon, raw) :: canon(raw).value
  }

  predicate Spells(canon: Canon, raw: string, ip: string) {
    raw != "" && raw != "None" && canon(raw) == Some(ip)
  }

  /** Read off the object: its clusterIP, or any entry of its clusterIPs, spells the address. */
  ghost predicate HasAddress(canon: Canon, svc: Service, ip: string) {
    Spells(canon, svc.clusterIP, ip) || exists i | 0 <= i < |svc.clusterIPs| :: Spells(canon, svc.clusterIPs[i], ip)
  }

  lemma HasAddressIff(canon: Canon, svc: Service, ip: string)
    ensures ip in IPSet(canon, svc) <==> HasAddress(canon, svc, ip)
  {
    if ip in IPSet(canon, svc) {
      var raw :| raw in [svc.clusterIP] + svc.clusterIPs && Usable(canon, raw) && canon(raw).value == ip;
      assert raw == svc.clusterIP || raw in svc.clusterIPs;
      if raw in svc.clusterIPs {
        var i :| 0 <= i < |svc.clusterIPs| && svc.clusterIPs[i] == raw;
        assert Spells(canon, svc.clusterIPs[i], ip);
      }
    }
    if Spells(canon, svc.clusterIP, ip) {
      assert svc.clusterIP in [svc.clusterIP] + svc.clusterIPs;
    }
    if i :| 0 <= i < |svc.clusterIPs| && Spells(canon, svc.clusterIPs[i], ip) {
      assert svc.clusterIPs[i] in [svc.clusterIP] + svc.clusterIPs;
    }
  }

  method ServiceIPSet(canon: Canon, svc: Service) returns (out: set<string>)
    ensures out == IPSet(canon, svc)
    ensures forall ip :: ip in out <==> HasAddress(canon, svc, ip)
  {
    forall ip ensures ip in IPSet(canon, svc) <==> HasAddress(canon, svc, ip) {
      HasAddressIff(canon, svc, ip);
    }
    var raws := [svc.clusterIP] + svc.clusterIPs;
    out := {};
    for i := 0 to |raws|
      invariant out == set raw | raw in raws[..i] && Usable(canon, raw) :: canon(raw).value
    {
      if Usable(canon, raws[i]) {
        out := out + {canon(raws[i]).value};
      }
    }
    assert raws[..|raws|] == raws;
  }

  /** A run of Service events, each upsert carrying the announced addresses. */
  type ServiceRun = seq<Event<NsName, set<string>>>

  predicate Announces(e: Event<NsName, set<string>>, ip: string) {
    e.Upsert? && ip in e.value
  }

  function HolderStep(h: Option<NsName>, e: Event<NsName, set<string>>, ip: string): Option<NsName> {
    if Announces(e, ip) then
      if h.None? || h.value == e.key then Some(e.key) else None
    else if h == Some(e.key) then None
    else h
  }

  function HolderAt(run: ServiceRun, ip: string): Option<NsName> {
    if run == [] then None else HolderStep(HolderAt(run[..|run| - 1], ip), run[|run| - 1], ip)
  }

  lemma HolderAtStep(run: ServiceRun, e: Event<NsName, set<string>>, ip: string)
    ensures HolderAt(run + [e], ip) == HolderStep(HolderAt(run, ip), e, ip)
  {
    assert (run + [e])[..|run|] == run;
  }

  /** Service `s` is live and its latest revision announces `ip`. */
  predicate LiveAnnouncer(run: ServiceRun, s: NsName, ip: string) {
    Latest(run, s).Some? && ip in Latest(run, s).value
  }

  /** Every held address is announced by the live Service holding it. */
  lemma {:induction false} HolderIsLive(run: ServiceRun, ip: string)
    ensures HolderAt(run, ip).Some? ==> LiveAnnouncer(run, HolderAt(run, ip).value, ip)
  {
    if run != [] {
      HolderIsLive(run[..|run| - 1], ip);
    }
  }

  /** At event `i`, `s` took `ip` while it was free; since then `s` kept it and nobody else announced it. */
  ghost predicate UncontestedSince(run: ServiceRun, s: NsName, ip: string, i: int) {
    && 0 <= i < |run|
    && run[i].key == s
    && HolderAt(run[..i], ip) == None
    && forall j | i <= j < |run| :: Announces(run[j], ip) <==> run[j].key == s
  }

  /** Exactly when an address resolves, and to whom. */
  lemma {:induction false} HolderIsUncontested(run: ServiceRun, ip: string, s: NsName)
    ensures HolderAt(run, ip) == Some(s) <==> exists i :: UncontestedSince(run, s, ip, i)
  {
    if run != [] {
      var n := |run| - 1;
      var front := run[..n];
      HolderIsUncontested(front, ip, s);
      if HolderAt(run, ip) == Some(s) {
        if HolderAt(front, ip) == Some(s) {
          var i :| UncontestedSince(front, s, ip, i);
          assert run[..i] == front[..i];
          assert UncontestedSince(run, s, ip, i);
        } else {
          assert UncontestedSince(run, s, ip, n);
        }
      }
      if i :| UncontestedSince(run, s, ip, i) {
        assert Announces(run[n], ip) <==> run[n].key == s;
        if i < n {
          assert run[..i] == front[..i];
          forall j | i <= j < n ensures Announces(front[j], ip) <==> front[j].key == s {
            assert front[j] == run[j];
          }
          assert UncontestedSince(front, s, ip, i);
        }
      }
    }
  }

  /** An address announced by a single live Service resolves to it after that Service's next upsert. */
  lemma SoleAnnouncerResolves(run: ServiceRun, ip: string, s: NsName, ips: set<string>)
    requires forall s' :: LiveAnnouncer(run, s', ip) ==> s' == s
    requires ip in ips
    ensures HolderAt(run, ip) == None || HolderAt(run, ip) == Some(s)
    ensures HolderAt(run + [Upsert(s, ips)], ip) == Some(s)
  {
    HolderIsLive(run, ip);
    HolderAtStep(run, Upsert(s, ips), ip);
  }

  /** At no point of the run do two live Services announce `ip`: what the API server enforces. */
  ghost predicate UniquelyAnnounced(run: ServiceRun, ip: string) {
    forall n, s, s' | 0 <= n <= |run| && LiveAnnouncer(run[..n], s, ip) && LiveAnnouncer(run[..n], s', ip) :: s == s'
  }

  /** On such a run the index is an exact view of the cluster. */
  lemma {:induction false} UniqueAddressesAreExact(run: ServiceRun, ip: string, s: NsName)
    requires UniquelyAnnounced(run, ip)
    ensures HolderAt(run, ip) == Some(s) <==> LiveAnnouncer(run, s, ip)
  {
    if run != [] {
      var n := |run| - 1;
      var front, e := run[..n], run[n];
      assert run[..n + 1] == run;
      forall m | 0 <= m <= n ensures front[..m] == run[..m] {}
      UniqueAddressesAreExact(front, ip, s);
      UniqueAddressesAreExact(front, ip, e.key);
      HolderIsLive(run, ip);
      HolderIsLive(front, ip);
      if Announces(e, ip) {
        assert LiveAnnouncer(run, e.key, ip);
        if HolderAt(front, ip).Some? && HolderAt(front, ip).value != e.key {
          assert LiveAnnouncer(run, HolderAt(front, ip).value, ip);
        }
      }
    }
  }

  /** Two upserts by the newcomer take over a contested address; the route index would keep the first claimant. */
  lemma ConflictFreesWitness(a: NsName, b: NsName, ip: string)
    requires a != b
    ensures HolderAt([Upsert(a, {ip}), Upsert(b, {ip})], ip) == None
    ensures HolderAt([Upsert(a, {ip}), Upsert(b, {ip}), Upsert(b, {ip})], ip) == Some(b)
  {
    var ua, ub := Event.Upsert(a, {ip}), Event.Upsert(b, {ip});
    HolderAtStep([], ua, ip);
    assert [] + [ua] == [ua];
    HolderAtStep([ua], ub, ip);
    assert [ua] + [ub] == [ua, ub];
    HolderAtStep([ua, ub], ub, ip);
    assert [ua, ub] + [ub] == [ua, ub, ub];
  }

  // ----- over runs of Service objects -----

  type ServiceObjects = seq<Event<NsName, Service>>

  function AddressEvent(canon: Canon, e: Event<NsName, Service>): Event<NsName, set<string>> {
    match e
    case Upsert(k, svc) => Upsert(k, IPSet(canon, svc))
    case Delete(k) => Delete(k)
  }

  function Addresses(canon: Canon, objects: ServiceObjects): ServiceRun {
    seq(|objects|, i requires 0 <= i < |objects| => AddressEvent(canon, objects[i]))
  }

  ghost predicate StoresAddress(canon: Canon, e: Event<NsName, Service>, ip: string) {
    e.Upsert? && HasAddress(canon, e.value, ip)
  }

  /** At event `i`, Service `n` took `ip` while it was free; since then `n` kept it and nobody else had it. */
  ghost predicate HeldSince(canon: Canon, objects: ServiceObjects, n: NsName, ip: string, i: int) {
    && 0 <= i < |objects|
    && objects[i].key == n
    && HolderAt(Addresses(canon, objects[..i]), ip) == None
    && forall j | i <= j < |objects| :: StoresAddress(canon, objects[j], ip) <==> objects[j].key == n
  }

  /** Over every run of Service objects: exactly when an address resolves, and to whom. */
  lemma AddressResolvesIff(canon: Canon, objects: ServiceObjects, ip: string, n: NsName)
    ensures HolderAt(Addresses(canon, objects), ip) == Some(n) <==> exists i :: HeldSince(canon, objects, n, ip, i)
  {
    var run := Addresses(canon, objects);
    HolderIsUncontested(run, ip, n);
    forall i ensures HeldSince(canon, objects, n, ip, i) <==> UncontestedSince(run, n, ip, i) {
      HeldSinceIff(canon, objects, n, ip, i);
    }
  }

  lemma HeldSinceIff(canon: Canon, objects: ServiceObjects, n: NsName, ip: string, i: int)
    ensures HeldSince(canon, objects, n, ip, i) <==> UncontestedSince(Addresses(canon, objects), n, ip, i)
  {
    var run := Addresses(canon, objects);
    forall j | 0 <= j < |objects| ensures StoresAddress(canon, objects[j], ip) <==> Announces(run[j], ip) {
      if objects[j].Upsert? {
        HasAddressIff(canon, objects[j].value, ip);
      }
    }
    if 0 <= i < |objects| {
      assert Addresses(canon, objects[..i]) == run[..i];
    }
  }

  class ServiceIPIndex {
    const canon: Canon
    var m: map<string, NsName>
    var owner: map<string, NsName>
    ghost var objects: ServiceObjects  // the Service events handled so far

    /** Both maps are what the run prescribes; in particular they have the same domain. */
    ghost predicate Valid()
      reads this
    {
      forall ip :: Get(owner, ip) == Get(m, ip) == HolderAt(Addresses(canon, objects), ip)
    }

    constructor (canon: Canon)
      ensures Valid() && objects == [] && this.canon == canon
    {
      this.canon := canon;
      m, owner, objects := map[], map[], [];
    }

    /** Drops the claims of `s` outside `want`, in arbitrary map order. */
    method Withdraw(s: NsName, want: set<string>)
      requires m == owner
      modifies this`m, this`owner
      ensures m == owner
      ensures forall ip :: Get(owner, ip) ==
                if old(Get(owner, ip)) == Some(s) && ip !in want then None else old(Get(owner, ip))
    {
      var todo := owner.Keys;
      while todo != {}
        invariant todo <= owner.Keys && m == owner
        invariant forall ip :: Get(owner, ip) ==
                    if ip !in todo && old(Get(owner, ip)) == Some(s) && ip !in want then None else old(Get(owner, ip))
      {
        var ip :| ip in todo;
        todo := todo - {ip};
        if owner[ip] == s && ip !in want {
          owner, m := owner - {ip}, m - {ip};
        }
      }
    }

    method UpsertService(svc: Service)
      requires Valid()
      modifies this`m, this`owner, this`objects
      ensures Valid()
      ensures objects == old(objects) + [Upsert(NsName(svc.ns, svc.name), svc)]
    {
      var want := ServiceIPSet(canon, svc);
      var key := NsName(svc.ns, svc.name);
      SameMaps();
      Withdraw(key, want);
      label Withdrawn:
      var todo := want;
      while todo != {}
        invariant todo <= want && m == owner && objects == old(objects)
        invariant forall ip :: Get(owner, ip) ==
                    if ip in want - todo then HolderStep(old(Get(owner, ip)), Upsert(key, want), ip)
                    else old@Withdrawn(Get(owner, ip))
      {
        var ip :| ip in todo;
        todo := todo - {ip};
        if ip in owner && owner[ip] != key {
          owner, m := owner - {ip}, m - {ip};
        } else {
          owner, m := owner[ip := key], m[ip := key];
        }
      }
      Record(Upsert(key, svc), old(owner));
    }

    method DeleteService(ns: string, name: string)
      requires Valid()
      modifies this`m, this`owner, this`objects
      ensures Valid()
      ensures objects == old(objects) + [Delete(NsName(ns, name))]
    {
      SameMaps();
      Withdraw(NsName(ns, name), {});
      Record(Delete(NsName(ns, name)), old(owner));
    }

    lemma SameMaps()
      requires Valid()
      ensures m == owner
    {
      assert forall ip :: Get(m, ip) == Get(owner, ip);
      assert forall ip :: ip in m <==> Get(m, ip).Some?;
      assert forall ip :: ip in owner <==> Get(owner, ip).Some?;
    }

    ghost method Record(e: Event<NsName, Service>, before: map<string, NsName>)
      requires m == owner
      requires forall ip :: Get(before, ip) == HolderAt(Addresses(canon, objects), ip)
      requires forall ip :: Get(owner, ip) == HolderStep(Get(before, ip), AddressEvent(canon, e), ip)
      modifies this`objects
      ensures Valid() && objects == old(objects) + [e]
    {
      ghost var run := Addresses(canon, objects);
      objects := objects + [e];
      assert Addresses(canon, objects) == run + [AddressEvent(canon, e)];
      forall ip ensures Get(owner, ip) == HolderAt(Addresses(canon, objects), ip) {
        HolderAtStep(run, AddressEvent(canon, e), ip);
        assert Get(before, ip) == HolderAt(run, ip);
      }
    }

    method LookupServiceByIP(ip: string) returns (r: Option<NsName>)
      requires Valid()
      ensures r.Some? ==> ip != "" && canon(ip).Some?
      ensures forall n | ip != "" && canon(ip).Some? ::
                r == Some(n) <==> exists i :: HeldSince(canon, objects, n, canon(ip).value, i)
    {
      r := None;
      if ip != "" && canon(ip).Some? {
        r := Get(m, canon(ip).value);
        forall n ensures HolderAt(Addresses(canon, objects), canon(ip).value) == Some(n) <==>
                         exists i :: HeldSince(canon, objects, n, canon(ip).value, i) {
          AddressResolvesIff(canon, objects, canon(ip).value, n);
        }
      }
    }
  }
}
