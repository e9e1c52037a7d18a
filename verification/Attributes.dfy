/** A record's attribute map, and the attribute keys the processor stamps. */
module Attributes {
  import opened Types

  datatype Value = Str(s: string) | Int(i: int) | Bool(b: bool) | Strs(ss: seq<string>)

  type Attrs = map<string, Value>

  class AttrMap {
    var m: Attrs

    constructor (m: Attrs)
      ensures this.m == m
    {
      this.m := m;
    }

    /** A run of guarded puts, in order. */
    method PutAll(t: seq<Entry>)
      modifies this
      ensures m == Apply(old(m), t)
    {
      for i := 0 to |t|
        invariant m == Apply(old(m), t[..i])
      {
        if t[i].val.Some? {
          m := m[t[i].key := t[i].val.value];
        }
        assert t[..i + 1][..i] == t[..i];
      }
      assert t[..|t|] == t;
    }

    method Remove(key: string)
      modifies this
      ensures m == old(m) - {key}
    {
      m := m - {key};
    }
  }

  /** One guarded put: nothing happens when there is no value. */
  datatype Entry = Entry(key: string, val: Option<Value>)

  function TextEntry(key: string, s: string): Entry {
    Entry(key, if s == "" then None else Some(Str(s)))
  }

  function FlagEntry(key: string, flag: Option<bool>): Entry {
    Entry(key, if flag.Some? then Some(Bool(flag.value)) else None)
  }

  function NumberEntry(key: string, wanted: bool, n: int): Entry {
    Entry(key, if wanted then Some(Int(n)) else None)
  }

  function Apply(m: Attrs, t: seq<Entry>): Attrs {
    if t == [] then m
    else
      var n := |t| - 1;
      var m' := Apply(m, t[..n]);
      if t[n].val.Some? then m'[t[n].key := t[n].val.value] else m'
  }

  lemma {:induction false} ApplyConcat(m: Attrs, a: seq<Entry>, b: seq<Entry>)
    ensures Apply(m, a + b) == Apply(Apply(m, a), b)
  {
    if b == [] {
      assert a + b == a;
    } else {
      var n := |b| - 1;
      ApplyConcat(m, a, b[..n]);
      assert (a + b)[..|a + b| - 1] == a + b[..n];
    }
  }

  /** Puts overwrite; they never look at what is there. */
  lemma {:induction false} ApplyIsMerge(m: Attrs, t: seq<Entry>)
    ensures Apply(m, t) == m + Apply(map[], t)
  {
    if t != [] {
      ApplyIsMerge(m, t[..|t| - 1]);
    }
  }

  function KeysOf(t: seq<Entry>): set<string> {
    set e | e in t && e.val.Some? :: e.key
  }

  lemma {:induction false} AppliedKeys(t: seq<Entry>)
    ensures Apply(map[], t).Keys == KeysOf(t)
  {
    if t != [] {
      var n := |t| - 1;
      AppliedKeys(t[..n]);
      assert forall e :: e in t <==> e in t[..n] || e == t[n];
    }
  }

  /** An entry whose key nothing else uses may be put first or last. */
  lemma PutMoves(e: Entry, t: seq<Entry>)
    requires e.val.Some? && e.key !in KeysOf(t)
    ensures Apply(map[], [e] + t) == Apply(map[], t + [e])
  {
    ApplyConcat(map[], [e], t);
    ApplyConcat(map[], t, [e]);
    ApplyIsMerge(Apply(map[], [e]), t);
    AppliedKeys(t);
    ApplyOne(map[], e);
    ApplyOne(Apply(map[], t), e);
  }

  lemma ApplyOne(m: Attrs, e: Entry)
    requires e.val.Some?
    ensures Apply(m, [e]) == m[e.key := e.val.value]
  {
    assert [e][..0] == [];
  }

  const HTTP_PREFIX := "k8s.httproute."
  const GRPC_PREFIX := "k8s.grpcroute."

  /** k8s.httproute.<field> or k8s.grpcroute.<field>. */
  function RouteAttr(grpc: bool, field: string): string {
    (if grpc then GRPC_PREFIX else HTTP_PREFIX) + field
  }

  /** How the keys of a kind read. */
  lemma RouteAttrSpelling(field: string)
    ensures RouteAttr(false, field) == "k8s.httproute." + field
    ensures RouteAttr(true, field) == "k8s.grpcroute." + field
  {
  }

  const ROUTE_FIELDS := {
    "name", "namespace", "uid", "rule_index", "match_index", "parent_ref", "parent.kind", "rule.name", "accepted",
    "resolved_refs"}

  const GATEWAY_NAME := "k8s.gateway.name"
  const GATEWAY_NAMESPACE := "k8s.gateway.namespace"
  const GATEWAY_UID := "k8s.gateway.uid"
  const GATEWAY_LISTENER := "k8s.gateway.listener.name"
  const CLASS_NAME := "k8s.gatewayclass.name"
  const CLASS_CONTROLLER := "k8s.gatewayclass.controller"
  const ROUTE_MODE := "gateway.networking.k8s.io/route-mode"
  const PARENT_SERVICE_NAME := "k8s.service.parent.name"
  const PARENT_SERVICE_NAMESPACE := "k8s.service.parent.namespace"
  const PARENT_SERVICE_PORT := "k8s.service.parent.port"
  const WAYPOINT_IMPLEMENTATION := "k8s.gatewayapi.waypoint.implementation"
  const WAYPOINT_NAME := "k8s.gatewayapi.waypoint.name"
  const WAYPOINT_NAMESPACE := "k8s.gatewayapi.waypoint.namespace"
  const ROUTE_ROLE := "k8s.gatewayapi.route.role"
  const PARSER := "k8s.gatewayapi.parser"
  const POLICY_NAMES := "k8s.gatewayapi.policy.names"
  const POLICY_KINDS := "k8s.gatewayapi.policy.kinds"
  const POLICY_NAMESPACES := "k8s.gatewayapi.policy.namespaces"
  const POLICY_GROUPS := "k8s.gatewayapi.policy.groups"
  const POLICY_TARGET_KIND := "k8s.gatewayapi.policy.target_kind"

  const INGRESS_KEYS := {
    ROUTE_MODE, GATEWAY_NAME, GATEWAY_NAMESPACE, GATEWAY_UID, GATEWAY_LISTENER, CLASS_NAME, CLASS_CONTROLLER}

  const MESH_KEYS := {
    PARENT_SERVICE_NAME, PARENT_SERVICE_NAMESPACE, PARENT_SERVICE_PORT, ROUTE_ROLE, WAYPOINT_IMPLEMENTATION,
    WAYPOINT_NAME, WAYPOINT_NAMESPACE}

  const POLICY_KEYS := {POLICY_NAMES, POLICY_KINDS, POLICY_NAMESPACES, POLICY_GROUPS, POLICY_TARGET_KIND}

  /** What a route's attributes stamp under kind-independent keys. */
  const ROUTE_INFO_KEYS := INGRESS_KEYS + MESH_KEYS + POLICY_KEYS

  /** The stamped keys that do not depend on the route kind. */
  const SHARED_KEYS := ROUTE_INFO_KEYS + {PARSER}

  function RouteKeys(grpc: bool): set<string> {
    set f | f in ROUTE_FIELDS :: RouteAttr(grpc, f)
  }

  // ----- key shapes -----

  /** The fifth and sixth characters already tell a shared key from a route-kind key. */
  predicate SharedShape(k: string) {
    |k| > 5 && k[4] != 'h' && k[5] != 'r' && (k[0] == 'g' || (k[0] == 'k' && k[3] == '.' && k[4] in {'g', 's'}))
  }

  lemma IngressKeysShape(k: string)
    requires k in INGRESS_KEYS
    ensures SharedShape(k) && k != PARSER
  {
    assert SharedShape(ROUTE_MODE) && SharedShape(GATEWAY_NAME) && SharedShape(GATEWAY_NAMESPACE);
    assert SharedShape(GATEWAY_UID) && SharedShape(GATEWAY_LISTENER);
    assert SharedShape(CLASS_NAME) && SharedShape(CLASS_CONTROLLER);
    assert !ParserShape(k) && ParserShape(PARSER);
  }

  lemma MeshKeysShape(k: string)
    requires k in MESH_KEYS
    ensures SharedShape(k) && k != PARSER
  {
    assert SharedShape(PARENT_SERVICE_NAME) && SharedShape(PARENT_SERVICE_NAMESPACE) && SharedShape(PARENT_SERVICE_PORT);
    assert SharedShape(ROUTE_ROLE) && SharedShape(WAYPOINT_IMPLEMENTATION);
    assert SharedShape(WAYPOINT_NAME) && SharedShape(WAYPOINT_NAMESPACE);
    assert !ParserShape(k) && ParserShape(PARSER);
  }

  lemma PolicyKeysShape(k: string)
    requires k in POLICY_KEYS
    ensures SharedShape(k) && k != PARSER
  {
    assert SharedShape(POLICY_NAMES) && SharedShape(POLICY_KINDS) && SharedShape(POLICY_NAMESPACES);
    assert SharedShape(POLICY_GROUPS) && SharedShape(POLICY_TARGET_KIND);
    assert !ParserShape(k) && ParserShape(PARSER);
  }

  lemma SharedKeysShape(k: string)
    requires k in SHARED_KEYS
    ensures SharedShape(k) && (k in ROUTE_INFO_KEYS ==> k != PARSER)
  {
    if k in INGRESS_KEYS {
      IngressKeysShape(k);
    } else if k in MESH_KEYS {
      MeshKeysShape(k);
    } else if k in POLICY_KEYS {
      PolicyKeysShape(k);
    }
  }

  /** Length and twelfth character single out the parser key. */
  predicate ParserShape(k: string) {
    |k| == 21 && k[11] == 'a'
  }

  /** A key of one route kind is neither shared nor a key of the other kind. */
  lemma KindKeysApart(grpc: bool, k: string)
    requires k in RouteKeys(grpc)
    ensures !SharedShape(k) && k !in SHARED_KEYS && k !in RouteKeys(!grpc)
    ensures |k| > 5 && k[0] == 'k' && k[4] == (if grpc then 'g' else 'h')
  {
    var f :| f in ROUTE_FIELDS && k == RouteAttr(grpc, f);
    assert k[0] == 'k' && k[4] == (if grpc then 'g' else 'h') && k[5] == (if grpc then 'r' else 't');
    if k in SHARED_KEYS {
      SharedKeysShape(k);
    }
    forall f' | f' in ROUTE_FIELDS ensures RouteAttr(!grpc, f') != k {
      assert RouteAttr(!grpc, f')[4] == (if grpc then 'h' else 'g');
    }
  }
}
