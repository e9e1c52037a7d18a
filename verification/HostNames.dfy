/** Decoding a source address into a Service name: port stripping and DNS label splitting. */
module HostNames {
  import opened Types
  import opened Text

  function Count(s: string, c: char): nat {
    if s == "" then 0 else (if s[0] == c then 1 else 0) + Count(s[1..], c)
  }

  /** The last position of `c` in `s`, or -1. */
  function LastIndexOf(s: string, c: char): (i: int)
    ensures -1 <= i < |s| && (i >= 0 ==> s[i] == c) && c !in s[i + 1..]
  {
    if s == "" then -1 else if s[|s| - 1] == c then |s| - 1 else LastIndexOf(s[..|s| - 1], c)
  }

  function StripPort(host: string): string {
    if "[" <= host then
      var i := IndexOf(host, ']');
      if i < |host| then host[1..i] else host
    else if Count(host, ':') > 1 then host
    else
      var i := LastIndexOf(host, ':');
      if i > 0 then host[..i] else host
  }

  /** The first two DNS labels, as (namespace, service); None where the source answers ("", ""). */
  function SplitAddress(addr: string): Option<NsName> {
    var dot := IndexOf(addr, '.');
    if dot == 0 || dot >= |addr| - 1 then None
    else
      var rest := addr[dot + 1..];
      var ns := rest[..IndexOf(rest, '.')];
      if ns == "" then None else Some(NsName(ns, addr[..dot]))
  }

  /** The scanning loop both halves of the source's splitter use. */
  method ScanDot(s: string) returns (i: nat)
    ensures i == IndexOf(s, '.')
  {
    i := 0;
    while i < |s|
      invariant 0 <= i <= |s| && '.' !in s[..i]
    {
      if s[i] == '.' {
        break;
      }
      i := i + 1;
    }
    assert s == s[..i] + s[i..];
    IndexOfAt(s[..i], '.', s[i..]);
  }

  method SplitAddressScan(addr: string) returns (r: Option<NsName>)
    ensures r == SplitAddress(addr)
  {
    r := None;
    var dot := ScanDot(addr);
    if dot == 0 || dot >= |addr| - 1 {
      return;
    }
    var rest := addr[dot + 1..];
    var end := ScanDot(rest);
    if end != 0 {
      r := Some(NsName(rest[..end], addr[..dot]));
    }
  }

  predicate DnsLabel(s: string) {
    s != "" && '.' !in s
  }

  /** `addr` begins with the labels `svc` and `ns`, and the second label ends there. */
  predicate Labelled(addr: string, svc: string, ns: string) {
    var head := svc + "." + ns;
    DnsLabel(svc) && DnsLabel(ns) && head <= addr && (|addr| == |head| || addr[|head|] == '.')
  }

  lemma LabelledSplits(addr: string, svc: string, ns: string)
    requires Labelled(addr, svc, ns)
    ensures SplitAddress(addr) == Some(NsName(ns, svc))
  {
    var tail := addr[|svc + "." + ns|..];
    var rest := ns + tail;
    assert addr == svc + ("." + rest);
    IndexOfAt(svc, '.', "." + rest);
    assert addr[|svc| + 1..] == rest;
    IndexOfAt(ns, '.', tail);
  }

  lemma SplitsLabelled(addr: string)
    requires SplitAddress(addr).Some?
    ensures Labelled(addr, SplitAddress(addr).value.name, SplitAddress(addr).value.ns)
  {
    var NsName(ns, svc) := SplitAddress(addr).value;
    var rest := addr[|svc| + 1..];
    assert addr == svc + "." + rest;
    assert rest == ns + rest[|ns|..];
    assert addr == svc + "." + ns + rest[|ns|..];
  }

  /** The splitter answers (ns, svc) exactly when those are the first two labels of its input. */
  lemma SplitAddressIff(addr: string, svc: string, ns: string)
    ensures SplitAddress(addr) == Some(NsName(ns, svc)) <==> Labelled(addr, svc, ns)
  {
    if Labelled(addr, svc, ns) {
      LabelledSplits(addr, svc, ns);
    }
    if SplitAddress(addr) == Some(NsName(ns, svc)) {
      SplitsLabelled(addr);
    }
  }

  // ----- ports -----

  lemma {:induction false} CountAbsent(s: string, c: char)
    requires c !in s
    ensures Count(s, c) == 0
  {
    if s != "" {
      CountAbsent(s[1..], c);
    }
  }

  lemma {:induction false} CountConcat(s: string, t: string, c: char)
    ensures Count(s + t, c) == Count(s, c) + Count(t, c)
  {
    if s == "" {
      assert s + t == t;
    } else {
      CountConcat(s[1..], t, c);
      assert (s + t)[1..] == s[1..] + t;
    }
  }

  lemma LastIndexAt(s: string, c: char, t: string)
    requires c !in t
    ensures LastIndexOf(s + ([c] + t), c) == |s|
  {
    var w := s + ([c] + t);
    assert w[|s| + 1..] == t;
    assert w[|s|] == c;
    assert LastIndexOf(w, c) >= 0;
  }

  /** host[:port] (RFC 3986, sections 3.2.2 and 3.2.3) for hosts that are neither bracketed nor coloned. */
  lemma StripPortDropsPort(host: string, port: string)
    requires ':' !in host && ':' !in port && host != "" && host[0] != '['
    ensures StripPort(host + ([':'] + port)) == host
    ensures StripPort(host) == host
  {
    var whole := host + ([':'] + port);
    CountConcat(host, [':'] + port, ':');
    CountConcat([':'], port, ':');
    CountAbsent(host, ':');
    CountAbsent(port, ':');
    LastIndexAt(host, ':', port);
    assert whole[0] == host[0];
    assert whole[..|host|] == host;
    assert Count([':'], ':') == 1;
  }

  /** A bracketed IPv6 literal comes back without its brackets, whatever follows them. */
  lemma StripPortUnbrackets(literal: string, rest: string)
    requires ']' !in literal
    ensures StripPort("[" + literal + "]" + rest) == literal
  {
    var s := "[" + literal + "]" + rest;
    assert s == ("[" + literal) + ("]" + rest);
    IndexOfAt("[" + literal, ']', "]" + rest);
  }

  // ----- every host -----

  ghost predicate SeveralColons(s: string) {
    exists i | 0 <= i < |s| :: s[i] == ':' && ':' in s[i + 1..]
  }

  ghost predicate FirstAt(s: string, c: char, i: int) {
    0 < i < |s| && s[i] == c && forall j | 0 <= j < i :: s[j] != c
  }

  /**
    What is left of a source value once a port is dropped: what brackets enclose; a
    raw IPv6 address as it is; otherwise what precedes the only colon, unless nothing does.
   */
  ghost predicate HostPart(raw: string, host: string) {
    if raw != "" && raw[0] == '[' then
      if ']' in raw then exists i :: FirstAt(raw, ']', i) && host == raw[1..i]
      else host == raw
    else if SeveralColons(raw) then host == raw
    else if ':' in raw && raw[0] != ':' then exists i :: FirstAt(raw, ':', i) && host == raw[..i]
    else host == raw
  }

  lemma {:induction false} CountSome(s: string, c: char)
    requires c in s
    ensures Count(s, c) >= 1
  {
    if s[0] != c {
      CountSome(s[1..], c);
    }
  }

  lemma {:induction false} CountTwo(s: string, c: char, i: int)
    requires 0 <= i < |s| && s[i] == c && c in s[i + 1..]
    ensures Count(s, c) > 1
  {
    if i == 0 {
      CountSome(s[1..], c);
    } else {
      assert s[1..][i..] == s[i + 1..];
      CountTwo(s[1..], c, i - 1);
    }
  }

  lemma {:induction false} CountOne(s: string, c: char)
    requires forall i | 0 <= i < |s| && s[i] == c :: c !in s[i + 1..]
    ensures Count(s, c) <= 1
  {
    if s != "" {
      if s[0] == c {
        CountAbsent(s[1..], c);
      } else {
        forall i | 0 <= i < |s[1..]| && s[1..][i] == c ensures c !in s[1..][i + 1..] {
          assert s[1..][i + 1..] == s[i + 2..] && s[i + 1] == c;
        }
        CountOne(s[1..], c);
      }
    }
  }

  lemma SeveralColonsIff(s: string)
    ensures SeveralColons(s) <==> Count(s, ':') > 1
  {
    if i :| 0 <= i < |s| && s[i] == ':' && ':' in s[i + 1..] {
      CountTwo(s, ':', i);
    } else {
      CountOne(s, ':');
    }
  }

  lemma BracketedHost(raw: string, host: string)
    requires raw != "" && raw[0] == '[' && ']' in raw
    ensures StripPort(raw) == host <==> exists i :: FirstAt(raw, ']', i) && host == raw[1..i]
  {
    var i := IndexOf(raw, ']');
    assert i < |raw| by {
      assert raw[..|raw|] == raw;
    }
    assert forall j | 0 <= j < i :: raw[..i][j] == raw[j];
    assert FirstAt(raw, ']', i);
  }

  lemma PortedHost(raw: string, host: string)
    requires raw != "" && raw[0] != '[' && raw[0] != ':' && ':' in raw && !SeveralColons(raw)
    ensures StripPort(raw) == host <==> exists i :: FirstAt(raw, ':', i) && host == raw[..i]
  {
    SeveralColonsIff(raw);
    var i := LastIndexOf(raw, ':');
    assert i >= 0 by {
      assert raw[0..] == raw;
    }
    assert forall j | 0 <= j < i :: raw[j] != ':';
    assert FirstAt(raw, ':', i);
  }

  lemma UnclosedHost(raw: string)
    requires raw != "" && raw[0] == '[' && ']' !in raw
    ensures StripPort(raw) == raw
  {
    assert raw[..IndexOf(raw, ']')] <= raw;
  }

  lemma BracketCase(raw: string, host: string)
    requires raw != "" && raw[0] == '['
    ensures StripPort(raw) == host <==> HostPart(raw, host)
  {
    if ']' in raw {
      BracketedHost(raw, host);
    } else {
      UnclosedHost(raw);
    }
  }

  lemma ColonedHost(raw: string)
    requires raw != "" && raw[0] != '[' && Count(raw, ':') > 1
    ensures StripPort(raw) == raw
  {
  }

  lemma SeveralCase(raw: string, host: string)
    requires raw != "" && raw[0] != '[' && SeveralColons(raw)
    ensures StripPort(raw) == host <==> HostPart(raw, host)
  {
    SeveralColonsIff(raw);
    ColonedHost(raw);
  }

  lemma UnportedHost(raw: string)
    requires raw != "" ==> raw[0] != '[' && LastIndexOf(raw, ':') <= 0
    ensures StripPort(raw) == raw
  {
  }

  lemma UnportedCase(raw: string, host: string)
    requires !SeveralColons(raw)
    requires raw != "" ==> raw[0] != '[' && LastIndexOf(raw, ':') <= 0 && (':' !in raw || raw[0] == ':')
    ensures StripPort(raw) == host <==> HostPart(raw, host)
  {
    UnportedHost(raw);
  }

  lemma ColonAfterFirst(raw: string)
    requires raw != "" && (':' !in raw || raw[0] == ':') && LastIndexOf(raw, ':') > 0
    ensures SeveralColons(raw)
  {
    var i := LastIndexOf(raw, ':');
    assert raw[1..][i - 1] == ':';
    assert raw[0] == ':' && ':' in raw[0 + 1..];
  }

  /** The port-stripping branch decides every host exactly so. */
  lemma StripPortIff(raw: string, host: string)
    ensures StripPort(raw) == host <==> HostPart(raw, host)
  {
    if raw != "" && raw[0] == '[' {
      BracketCase(raw, host);
    } else if raw != "" && SeveralColons(raw) {
      SeveralCase(raw, host);
    } else if raw != "" && ':' in raw && raw[0] != ':' {
      PortedHost(raw, host);
    } else {
      if raw != "" && LastIndexOf(raw, ':') > 0 {
        ColonAfterFirst(raw);
      }
      UnportedCase(raw, host);
    }
  }

  /** Any in-cluster spelling of a Service decodes to that Service. */
  lemma ServiceAddressRoundTrip(svc: string, ns: string, suffix: string, port: Option<string>)
    requires DnsLabel(svc) && DnsLabel(ns) && ':' !in svc && ':' !in ns && svc[0] != '['
    requires ':' !in suffix && (suffix == "" || suffix[0] == '.')
    requires port.Some? ==> ':' !in port.value
    ensures var host := svc + "." + ns + suffix;
      SplitAddress(StripPort(if port.Some? then host + ([':'] + port.value) else host)) == Some(NsName(ns, svc))
  {
    var host := svc + "." + ns + suffix;
    assert host[0] == svc[0];
    StripPortDropsPort(host, if port.Some? then port.value else "");
    SplitAddressIff(host, svc, ns);
  }
}
