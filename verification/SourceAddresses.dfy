/**
  What a source attribute names, in terms of the attribute's text, the libraries'
  verdict on it and the address indexes: the decoding as a whole.
 */
module SourceAddresses {
  import opened Types
  import opened HostNames
  import opened Resolution
  import Services = ServiceIPIndex
  import Pods = PodIPIndex

  /** The host a source attribute carries: the URL host of the two URL keys, otherwise the value without its port. */
  ghost predicate CarriesHost(libs: Libs, view: View, key: string, host: string) {
    && key in view && view[key] != "" && host != ""
    && if key == "http.url" || key == "url.full" then host == libs.urlHost(view[key]) else HostPart(view[key], host)
  }

  /** At its read, the ClusterIP index is on and holds `ip` for `n`. */
  predicate ClusterIPOf(s: Snapshot, ip: string, n: NsName) {
    s.services.Some? && Services.HolderAt(s.services.value, ip) == Some(n)
  }

  predicate PodIPOf(s: Snapshot, ip: string, n: NsName) {
    s.slices.Some? && Pods.Resolves(s.slices.value, ip, n)
  }

  /** The Service of an address: the ClusterIP holder, or, when nobody holds it as ClusterIP, the pod address's. */
  ghost predicate AddressOf(clusterIPs: Snapshot, podIPs: Snapshot, ip: string, n: NsName) {
    ClusterIPOf(clusterIPs, ip, n) || ((forall n' :: !ClusterIPOf(clusterIPs, ip, n')) && PodIPOf(podIPs, ip, n))
  }

  /** The Service a host that is no address names: its first two labels, or a bare name in the workload's namespace. */
  ghost predicate HostOf(view: View, host: string, n: NsName) {
    || Labelled(host, n.name, n.ns)
    || ('.' !in host && n.name == host && n.ns != "" && Get(view, "k8s.namespace.name") == Some(n.ns))
  }

  /** What attribute `key` names at reads `t` and `t + 1`. An address literal is never read as a name. */
  ghost predicate Names(libs: Libs, view: View, sees: Reads, t: nat, key: string, n: NsName) {
    exists host :: CarriesHost(libs, view, key, host) &&
      match libs.canon(host)
      case Some(ip) => AddressOf(sees(t).state, sees(t + 1).state, ip, n)
      case None => HostOf(view, host, n)
  }

  lemma NormalizedIff(libs: Libs, view: View, key: string, host: string)
    requires key in view && view[key] != ""
    ensures NormalizeSourceAddr(libs, key, view[key]) == host && host != "" <==> CarriesHost(libs, view, key, host)
  {
    StripPortIff(view[key], host);
  }

  lemma AddressOfIff(clusterIPs: Snapshot, podIPs: Snapshot, ip: string, n: NsName)
    ensures ServiceByIP(clusterIPs, podIPs, ip) == Some(n) <==> AddressOf(clusterIPs, podIPs, ip, n)
  {
    var held := if clusterIPs.services.Some? then Services.HolderAt(clusterIPs.services.value, ip) else None;
    if held.Some? {
      assert ClusterIPOf(clusterIPs, ip, held.value);
    }
  }

  lemma HostOfIff(view: View, host: string, n: NsName)
    requires host != ""
    ensures HostOf(view, host, n) <==>
            match SplitAddress(host)
            case Some(b) => b == n
            case None => '.' !in host && Namespace(view).Some? && Namespace(view).value != "" && n == NsName(Namespace(view).value, host)
  {
    SplitAddressIff(host, n.name, n.ns);
    if SplitAddress(host).Some? {
      var b := SplitAddress(host).value;
      SplitAddressIff(host, b.name, b.ns);
      LabelledHasDot(host, b.name, b.ns);
    }
  }

  lemma LabelledHasDot(addr: string, svc: string, ns: string)
    requires Labelled(addr, svc, ns)
    ensures '.' in addr
  {
    assert addr[|svc|] == (svc + "." + ns)[|svc|] == '.';
  }

  /** The decoding names a Service iff the attribute does. */
  lemma NamesIff(libs: Libs, view: View, sees: Reads, t: nat, key: string, n: NsName)
    ensures NamedBackend(libs, view, sees, t, key) == Some(n) <==> Names(libs, view, sees, t, key, n)
  {
    if key in view && view[key] != "" {
      var host := NormalizeSourceAddr(libs, key, view[key]);
      forall h ensures CarriesHost(libs, view, key, h) <==> h == host && host != "" {
        NormalizedIff(libs, view, key, h);
      }
      if host != "" {
        if libs.canon(host).Some? {
          AddressOfIff(sees(t).state, sees(t + 1).state, libs.canon(host).value, n);
        } else {
          HostOfIff(view, host, n);
        }
      }
    }
  }

  // ----- address literals -----

  /** The ways a source spells an address literal: in brackets, raw with several colons, or plain, a port allowed unless raw. */
  ghost predicate SpellsLiteral(raw: string, lit: string) {
    || (']' !in lit && exists rest :: raw == "[" + lit + "]" + rest)
    || (lit != "" && lit[0] != '[' && SeveralColons(lit) && raw == lit)
    || (lit != "" && lit[0] != '[' && ':' !in lit && (raw == lit || exists port :: ':' !in port && raw == lit + ([':'] + port)))
  }

  lemma LiteralIsHost(raw: string, lit: string)
    requires SpellsLiteral(raw, lit)
    ensures HostPart(raw, lit)
  {
    StripPortIff(raw, lit);
    if ']' !in lit && exists rest :: raw == "[" + lit + "]" + rest {
      var rest :| raw == "[" + lit + "]" + rest;
      StripPortUnbrackets(lit, rest);
    } else if lit[0] != '[' && ':' !in lit {
      var port := if raw == lit then "" else var port :| ':' !in port && raw == lit + ([':'] + port); port;
      StripPortDropsPort(lit, port);
    }
  }

  /**
    However spelled, an address literal names the Service the indexes hold it for and
    nothing else; in particular never the pair its first two dotted parts would make.
   */
  lemma LiteralNamesHolder(libs: Libs, view: View, sees: Reads, t: nat, key: string, lit: string, ip: string, n: NsName)
    requires key != "http.url" && key != "url.full" && key in view && SpellsLiteral(view[key], lit)
    requires lit != "" && libs.canon(lit) == Some(ip)
    ensures NamedBackend(libs, view, sees, t, key) == Some(n) <==> AddressOf(sees(t).state, sees(t + 1).state, ip, n)
  {
    NamesIff(libs, view, sees, t, key, n);
    LiteralIsHost(view[key], lit);
    StripPortIff(view[key], lit);
    forall host | HostPart(view[key], host) ensures host == lit {
      StripPortIff(view[key], host);
    }
    assert CarriesHost(libs, view, key, lit);
  }

  // ----- the scan -----

  /** Source attribute `i` names some Service that resolves to `ra` at the reads after. */
  ghost predicate Leads(libs: Libs, view: View, sees: Reads, keys: seq<string>, i: nat, n: NsName, ra: RouteAttributes) {
    var t := READS_PER_KEY * i;
    i < |keys| && Names(libs, view, sees, t, keys[i], n) && Resolve(view, sees(t + 2), sees(t + 3), n) == Some(ra)
  }

  lemma AttemptIff(libs: Libs, view: View, sees: Reads, keys: seq<string>, i: nat, ra: RouteAttributes)
    requires i < |keys|
    ensures Attempt(libs, view, sees, READS_PER_KEY * i, keys[i]) == Some(ra) <==> exists n :: Leads(libs, view, sees, keys, i, n, ra)
  {
    var t := READS_PER_KEY * i;
    var named := NamedBackend(libs, view, sees, t, keys[i]);
    forall n ensures named == Some(n) <==> Names(libs, view, sees, t, keys[i], n) {
      NamesIff(libs, view, sees, t, keys[i], n);
    }
    if Attempt(libs, view, sees, t, keys[i]) == Some(ra) {
      assert Leads(libs, view, sees, keys, i, named.value, ra);
    }
  }

  /** The first source attribute that leads anywhere leads to `ra`. */
  ghost predicate FirstLeads(libs: Libs, view: View, sees: Reads, keys: seq<string>, i: nat, n: NsName, ra: RouteAttributes) {
    && Leads(libs, view, sees, keys, i, n, ra)
    && forall j: nat, n', ra' | j < i :: !Leads(libs, view, sees, keys, j, n', ra')
  }

  /** The fallback settles on a route iff the first source attribute that leads anywhere leads to it. */
  lemma ScanIff(libs: Libs, view: View, sees: Reads, keys: seq<string>, ra: RouteAttributes)
    ensures Scan(libs, view, sees, keys) == Some(ra) <==> exists i: nat, n :: FirstLeads(libs, view, sees, keys, i, n, ra)
  {
    ScanIsFirstToResolve(libs, view, sees, keys, ra);
    if i: nat :| FirstToResolve(libs, view, sees, keys, i, ra) {
      AttemptIff(libs, view, sees, keys, i, ra);
      var n :| Leads(libs, view, sees, keys, i, n, ra);
      forall j: nat, n', ra' | j < i ensures !Leads(libs, view, sees, keys, j, n', ra') {
        AttemptIff(libs, view, sees, keys, j, ra');
      }
      assert FirstLeads(libs, view, sees, keys, i, n, ra);
    }
    if i: nat, n :| FirstLeads(libs, view, sees, keys, i, n, ra) {
      AttemptIff(libs, view, sees, keys, i, ra);
      forall j: nat | j < i ensures Attempt(libs, view, sees, READS_PER_KEY * j, keys[j]) == None {
        var a := Attempt(libs, view, sees, READS_PER_KEY * j, keys[j]);
        if a.Some? {
          AttemptIff(libs, view, sees, keys, j, a.value);
        }
      }
      assert FirstToResolve(libs, view, sees, keys, i, ra);
    }
  }

  /** A source that spells an address literal leads only to routes of the Service holding that address. */
  lemma LiteralLeadsToHolder(libs: Libs, view: View, sees: Reads, keys: seq<string>, i: nat, lit: string, ip: string, n: NsName, ra: RouteAttributes)
    requires i < |keys| && keys[i] != "http.url" && keys[i] != "url.full"
    requires keys[i] in view && SpellsLiteral(view[keys[i]], lit) && lit != "" && libs.canon(lit) == Some(ip)
    ensures var t := READS_PER_KEY * i;
      Leads(libs, view, sees, keys, i, n, ra) <==>
      AddressOf(sees(t).state, sees(t + 1).state, ip, n) && Resolve(view, sees(t + 2), sees(t + 3), n) == Some(ra)
  {
    var t := READS_PER_KEY * i;
    LiteralNamesHolder(libs, view, sees, t, keys[i], lit, ip, n);
    NamesIff(libs, view, sees, t, keys[i], n);
  }
}
