/** Entities shared by the indexes, the route projection and the enrichment path. */
module Types {

  datatype Option<+T> = None | Some(value: T)

  /** `map[k]` with Go's comma-ok reading. */
  function Get<K, V>(m: map<K, V>, k: K): Option<V> {
    if k in m then Some(m[k]) else None
  }

  datatype RouteKind = UnknownKind | HTTPRoute | GRPCRoute

  /** The identity "<kind>|<ns>/<name>": any kind other than GRPCRoute prints as HTTPRoute. */
  datatype RouteKey = RouteKey(grpc: bool, ns: string, name: string)

  function RouteKeyOf(kind: RouteKind, ns: string, name: string): RouteKey {
    RouteKey(kind == GRPCRoute, ns, name)
  }

  /** The identity "<ns>/<name>" of a Service, an EndpointSlice or a Gateway. */
  datatype NsName = NsName(ns: string, name: string)

  /** A policy by name and CRD identity; the source leaves its UID out deliberately. */
  datatype PolicyRef = PolicyRef(name: string, ns: string, kind: string, group: string)

  datatype RouteAttributes = RouteAttributes(
    kind: RouteKind,
    name: string,
    ns: string,
    uid: string,
    parentRef: string,
    accepted: Option<bool>,
    resolvedRefs: Option<bool>,
    gatewayName: string,
    gatewayNs: string,
    gatewayUid: string,
    gatewayListener: string,
    gatewayClass: string,
    gatewayController: string,
    parentKind: string,
    routeMode: string,
    parentServiceName: string,
    parentServiceNs: string,
    parentServicePort: int,
    routeRole: string,
    waypointImpl: string,
    waypointName: string,
    waypointNs: string,
    ruleNames: seq<string>,
    policies: seq<PolicyRef>)

  /** Go's zero value. */
  const ZERO_ATTRS := RouteAttributes(
    UnknownKind, "", "", "", "", None, None, "", "", "", "", "", "", "", "", "", "", 0, "", "", "", "", [], [])

  /** The key a RouteAttributes value is looked up under. */
  function KeyOf(ra: RouteAttributes): RouteKey {
    RouteKeyOf(ra.kind, ra.ns, ra.name)
  }

  const MODE_INGRESS := "ingress"
  const MODE_MESH := "mesh"
  const ROLE_PRODUCER := "producer"
  const ROLE_CONSUMER := "consumer"

  datatype WaypointInfo = WaypointInfo(implementation: string, name: string, ns: string)
}
