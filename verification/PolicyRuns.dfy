/**
  Policy attachment: which route keys a policy object stamps, the locked steps its
  informer's add, update and delete handlers take, and the proof that the lists
  these steps leave behind agree with recomputing attachments from the live
  policies, however the handlers of several informers interleave.
 */
module PolicyRuns {
  import opened Types

  datatype Condition = Condition(kind: string, status: string)

  /** One entry of status.ancestors; entries without a condition list carry None. */
  datatype Ancestor = Ancestor(conditions: Option<seq<Condition>>)

  datatype Status = Status(conditions: Option<seq<Condition>>, ancestors: Option<seq<Ancestor>>)

  datatype TargetRef = TargetRef(group: string, kind: string, name: string, ns: string)

  /** A policy object; `group` is the configured group of the informer that delivers it. */
  datatype Policy = Policy(
    group: string,
    kind: string,
    ns: string,
    name: string,
    status: Option<Status>,
    targetRefs: Option<seq<TargetRef>>,
    targetRef: Option<TargetRef>)

  function RefOf(p: Policy): PolicyRef {
    PolicyRef(p.name, p.ns, p.kind, p.group)
  }

  predicate AcceptedTrue(conds: seq<Condition>) {
    exists c | c in conds :: c.kind == "Accepted" && c.status == "True"
  }

  /** Accepted at the top level, by some ancestor (GEP-2648), or not reconciled yet. */
  predicate Accepted(p: Policy) {
    match p.status
    case None => true
    case Some(s) =>
      || (s.conditions.Some? && AcceptedTrue(s.conditions.value))
      || (s.ancestors.Some? && exists a | a in s.ancestors.value :: a.conditions.Some? && AcceptedTrue(a.conditions.value))
  }

  const GATEWAY_GROUP := "gateway.networking.k8s.io"

  /** Unicode simple case folding of `c` onto the lower-case ASCII character `lower`. */
  predicate FoldsTo(c: char, lower: char) {
    || c == lower
    || ('a' <= lower <= 'z' && c as int == lower as int - 32)
    || (lower == 'k' && c == '\U{212A}')
    || (lower == 's' && c == '\U{17F}')
  }

  predicate EqualFold(s: string, lower: string) {
    |s| == |lower| && forall i | 0 <= i < |s| :: FoldsTo(s[i], lower[i])
  }

  /** spec.targetRefs when present, otherwise the singular spec.targetRef of early controllers. */
  function TargetRefsOf(p: Policy): seq<TargetRef> {
    match (p.targetRefs, p.targetRef)
    case (Some(refs), _) => refs
    case (None, Some(ref)) => [ref]
    case (None, None) => []
  }

  predicate InScope(t: TargetRef) {
    t.name != "" && EqualFold(t.group, GATEWAY_GROUP) && t.kind in {"HTTPRoute", "GRPCRoute"}
  }

  function TargetKey(policyNs: string, t: TargetRef): RouteKey {
    RouteKey(t.kind == "GRPCRoute", if t.ns == "" then policyNs else t.ns, t.name)
  }

  /** The route keys of the in-scope target references, in spec order. */
  function TargetList(ns: string, refs: seq<TargetRef>): seq<RouteKey> {
    if refs == [] then []
    else
      var n := |refs| - 1;
      TargetList(ns, refs[..n]) + if InScope(refs[n]) then [TargetKey(ns, refs[n])] else []
  }

  /** The routes a policy object names. */
  function Targets(p: Policy): set<RouteKey> {
    set t | t in TargetRefsOf(p) && InScope(t) :: TargetKey(p.ns, t)
  }

  /** The routes a policy object stamps: what it names while it is accepted. */
  function Effective(p: Policy): set<RouteKey> {
    if Accepted(p) then Targets(p) else {}
  }

  // ----- the same, read off the object's fields -----

  /** Some condition of the list is of type Accepted with status True. */
  ghost predicate AcceptsIn(conds: Option<seq<Condition>>) {
    conds.Some? && exists i | 0 <= i < |conds.value| :: conds.value[i].kind == "Accepted" && conds.value[i].status == "True"
  }

  /** No status yet, or acceptance among its own conditions or among some ancestor's. */
  ghost predicate ShowsAccepted(p: Policy) {
    match p.status
    case None => true
    case Some(s) =>
      || AcceptsIn(s.conditions)
      || (s.ancestors.Some? && exists a | 0 <= a < |s.ancestors.value| :: AcceptsIn(s.ancestors.value[a].conditions))
  }

  lemma AcceptedIff(p: Policy)
    ensures Accepted(p) <==> ShowsAccepted(p)
  {
    if p.status.Some? && p.status.value.ancestors.Some? {
      var ancestors := p.status.value.ancestors.value;
      forall a | 0 <= a < |ancestors| ensures ancestors[a] in ancestors {}
    }
  }

  /** Unicode simple case folding, down to ASCII. */
  function Lower(c: char): char {
    if 'A' <= c <= 'Z' then c + ' '
    else if c == '\U{212A}' then 'k'
    else if c == '\U{17F}' then 's'
    else c
  }

  function Lowered(s: string): string {
    seq(|s|, i requires 0 <= i < |s| => Lower(s[i]))
  }

  /** The reference names an HTTPRoute or GRPCRoute of the Gateway API group, in its own namespace or else the policy's. */
  predicate PointsAt(t: TargetRef, policyNs: string, k: RouteKey) {
    && t.name != "" && t.name == k.name
    && t.kind == (if k.grpc then "GRPCRoute" else "HTTPRoute")
    && Lowered(t.group) == "gateway.networking.k8s.io"
    && k.ns == (if t.ns == "" then policyNs else t.ns)
  }

  /** Some target reference points at the route; a lone targetRef counts when there is no targetRefs. */
  ghost predicate NamesRoute(p: Policy, k: RouteKey) {
    match p.targetRefs
    case Some(refs) => exists j | 0 <= j < |refs| :: PointsAt(refs[j], p.ns, k)
    case None => match p.targetRef case Some(t) => PointsAt(t, p.ns, k) case None => false
  }

  lemma FoldsIff(c: char, lower: char)
    requires 'a' <= lower <= 'z' || lower == '.' || lower == '8'
    ensures FoldsTo(c, lower) <==> Lower(c) == lower
  {
  }

  lemma GroupCharacters(i: int)
    requires 0 <= i < |GATEWAY_GROUP|
    ensures 'a' <= GATEWAY_GROUP[i] <= 'z' || GATEWAY_GROUP[i] == '.' || GATEWAY_GROUP[i] == '8'
  {
  }

  lemma GroupIff(group: string)
    ensures EqualFold(group, GATEWAY_GROUP) <==> Lowered(group) == GATEWAY_GROUP
  {
    forall i | 0 <= i < |group| && |group| == |GATEWAY_GROUP| ensures FoldsTo(group[i], GATEWAY_GROUP[i]) <==> Lowered(group)[i] == GATEWAY_GROUP[i] {
      GroupCharacters(i);
      FoldsIff(group[i], GATEWAY_GROUP[i]);
    }
    if |group| == |GATEWAY_GROUP| && forall i | 0 <= i < |group| :: Lowered(group)[i] == GATEWAY_GROUP[i] {
      assert Lowered(group) == GATEWAY_GROUP;
    }
  }

  lemma PointsAtIff(t: TargetRef, policyNs: string, k: RouteKey)
    ensures PointsAt(t, policyNs, k) <==> InScope(t) && TargetKey(policyNs, t) == k
  {
    GroupIff(t.group);
    assert "GRPCRoute"[0] != "HTTPRoute"[0];
  }

  lemma NamesRouteIff(p: Policy, k: RouteKey)
    ensures k in Targets(p) <==> NamesRoute(p, k)
  {
    var refs := TargetRefsOf(p);
    forall t ensures PointsAt(t, p.ns, k) <==> InScope(t) && TargetKey(p.ns, t) == k {
      PointsAtIff(t, p.ns, k);
    }
    assert k in Targets(p) <==> exists j | 0 <= j < |refs| :: PointsAt(refs[j], p.ns, k);
    if p.targetRefs.None? && p.targetRef.Some? {
      assert refs == [p.targetRef.value];
      assert refs[0] == p.targetRef.value;
    }
  }

  // ----- the locked steps -----

  /** One locked call on the index: `ref` is attached to or detached from route `key`. */
  datatype PolicyStep = Apply(key: RouteKey, ref: PolicyRef) | Remove(key: RouteKey, ref: PolicyRef)

  type Steps = seq<PolicyStep>

  function Attach(l: seq<PolicyRef>, r: PolicyRef): seq<PolicyRef> {
    if r in l then l else l + [r]
  }

  /** Drops the first occurrence of `r`. */
  function Detach(l: seq<PolicyRef>, r: PolicyRef): seq<PolicyRef> {
    if l == [] then [] else if l[0] == r then l[1..] else [l[0]] + Detach(l[1..], r)
  }

  /** What one step does to the list of route `k`. */
  function ListStep(l: seq<PolicyRef>, s: PolicyStep, k: RouteKey): seq<PolicyRef> {
    if s.key != k then l else if s.Apply? then Attach(l, s.ref) else Detach(l, s.ref)
  }

  /** The list of route `k` after a run of steps. */
  function ListAt(steps: Steps, k: RouteKey): seq<PolicyRef> {
    if steps == [] then [] else ListStep(ListAt(steps[..|steps| - 1], k), steps[|steps| - 1], k)
  }

  lemma ListAtStep(steps: Steps, s: PolicyStep, k: RouteKey)
    ensures ListAt(steps + [s], k) == ListStep(ListAt(steps, k), s, k)
  {
    assert (steps + [s])[..|steps|] == steps;
  }

  // ----- lists -----

  ghost predicate NoDuplicates(l: seq<PolicyRef>) {
    forall i, j | 0 <= i < j < |l| :: l[i] != l[j]
  }

  /** Detaching keeps the order of everything else: it closes the gap at the ref's position. */
  lemma {:induction false} DetachAt(l: seq<PolicyRef>, i: int)
    requires 0 <= i < |l| && l[i] !in l[..i]
    ensures Detach(l, l[i]) == l[..i] + l[i + 1..]
  {
    if i > 0 {
      assert l[0] in l[..i];
      assert l[1..][..i - 1] == l[..i][1..];
      DetachAt(l[1..], i - 1);
      assert l[1..][i - 1] == l[i];
      assert [l[0]] + l[1..][..i - 1] == l[..i];
      assert l[1..][i..] == l[i + 1..];
    }
  }

  lemma {:induction false} DetachAbsent(l: seq<PolicyRef>, r: PolicyRef)
    requires r !in l
    ensures Detach(l, r) == l
  {
    if l != [] {
      DetachAbsent(l[1..], r);
    }
  }

  /** Closing the gap at position `i` of a duplicate-free list removes just that ref. */
  lemma CloseGap(l: seq<PolicyRef>, i: int)
    requires NoDuplicates(l) && 0 <= i < |l|
    ensures NoDuplicates(l[..i] + l[i + 1..])
    ensures forall x :: x in l[..i] + l[i + 1..] <==> x in l && x != l[i]
  {
    var d := l[..i] + l[i + 1..];
    assert forall a | 0 <= a < |d| :: d[a] == l[if a < i then a else a + 1];
    forall x ensures x in d <==> x in l && x != l[i] {
      if x in l && x != l[i] {
        var j :| 0 <= j < |l| && l[j] == x;
        assert d[if j < i then j else j - 1] == x;
      }
    }
  }

  /** On a duplicate-free list, detaching removes exactly `r`. */
  lemma DetachRemoves(l: seq<PolicyRef>, r: PolicyRef)
    requires NoDuplicates(l)
    ensures NoDuplicates(Detach(l, r))
    ensures forall x :: x in Detach(l, r) <==> x in l && x != r
  {
    if r in l {
      var i :| 0 <= i < |l| && l[i] == r;
      DetachAt(l, i);
      CloseGap(l, i);
    } else {
      DetachAbsent(l, r);
    }
  }

  lemma {:induction false} ListsHaveNoDuplicates(steps: Steps, k: RouteKey)
    ensures NoDuplicates(ListAt(steps, k))
  {
    if steps != [] {
      var front, s := steps[..|steps| - 1], steps[|steps| - 1];
      ListsHaveNoDuplicates(front, k);
      DetachRemoves(ListAt(front, k), s.ref);
    }
  }

  /** On any run, a step decides the membership of its own ref at its own key and of nothing else. */
  lemma MembershipStep(steps: Steps, s: PolicyStep, k: RouteKey, r: PolicyRef)
    ensures r in ListAt(steps + [s], k) <==>
            if s.key == k && s.ref == r then s.Apply? else r in ListAt(steps, k)
  {
    ListAtStep(steps, s, k);
    ListsHaveNoDuplicates(steps, k);
    DetachRemoves(ListAt(steps, k), s.ref);
  }

  // ----- the informers' handlers -----

  datatype PolicyEvent = Added(p: Policy) | Updated(before: Option<Policy>, p: Policy) | Deleted(p: Policy)

  function Applies(keys: seq<RouteKey>, r: PolicyRef): Steps {
    seq(|keys|, i requires 0 <= i < |keys| => Apply(keys[i], r))
  }

  function Removes(keys: seq<RouteKey>, r: PolicyRef): Steps {
    seq(|keys|, i requires 0 <= i < |keys| => Remove(keys[i], r))
  }

  /** `keys` lists a set, each element once. */
  ghost predicate ListsOnce(keys: seq<RouteKey>, s: set<RouteKey>) {
    (forall k :: k in keys <==> k in s) && forall i, j | 0 <= i < j < |keys| :: keys[i] != keys[j]
  }

  function EffectiveBefore(before: Option<Policy>): set<RouteKey> {
    if before.Some? then Effective(before.value) else {}
  }

  /**
    The steps a handler takes for one event: an addition stamps its targets in spec
    order; an update withdraws the targets that disappeared, then stamps those that
    appeared, each in the order its map is ranged over; a deletion withdraws in spec order.
   */
  ghost predicate Script(e: PolicyEvent, s: Steps) {
    match e
    case Added(p) => s == if Accepted(p) then Applies(TargetList(p.ns, TargetRefsOf(p)), RefOf(p)) else []
    case Updated(before, p) => exists gone, came :: IsUpdate(before, p, gone, came) && s == Removes(gone, RefOf(p)) + Applies(came, RefOf(p))
    case Deleted(p) => s == Removes(TargetList(p.ns, TargetRefsOf(p)), RefOf(p))
  }

  ghost predicate IsUpdate(before: Option<Policy>, p: Policy, gone: seq<RouteKey>, came: seq<RouteKey>) {
    ListsOnce(gone, EffectiveBefore(before) - Effective(p)) && ListsOnce(came, Effective(p) - EffectiveBefore(before))
  }

  /** The keys an event attaches, and those it detaches. */
  function Attached(e: PolicyEvent): set<RouteKey> {
    match e
    case Added(p) => Effective(p)
    case Updated(before, p) => Effective(p) - EffectiveBefore(before)
    case Deleted(_) => {}
  }

  function Detached(e: PolicyEvent): set<RouteKey> {
    match e
    case Added(_) => {}
    case Updated(before, p) => EffectiveBefore(before) - Effective(p)
    case Deleted(p) => Targets(p)
  }

  lemma {:induction false} TargetListIff(ns: string, refs: seq<TargetRef>, k: RouteKey)
    ensures k in TargetList(ns, refs) <==> exists t :: t in refs && InScope(t) && TargetKey(ns, t) == k
  {
    if refs != [] {
      var n := |refs| - 1;
      TargetListIff(ns, refs[..n], k);
      assert forall t :: t in refs <==> t in refs[..n] || t == refs[n];
    }
  }

  lemma TargetsAreListed(p: Policy, k: RouteKey)
    ensures k in TargetList(p.ns, TargetRefsOf(p)) <==> k in Targets(p)
  {
    TargetListIff(p.ns, TargetRefsOf(p), k);
  }

  /** Whatever its order, a script holds exactly the event's attachments and detachments, all of its own policy. */
  lemma ScriptSteps(e: PolicyEvent, s: Steps)
    requires Script(e, s)
    ensures forall x | x in s :: x.ref == RefOf(e.p)
    ensures forall k :: Apply(k, RefOf(e.p)) in s <==> k in Attached(e)
    ensures forall k :: Remove(k, RefOf(e.p)) in s <==> k in Detached(e)
  {
    var r := RefOf(e.p);
    var list := TargetList(e.p.ns, TargetRefsOf(e.p));
    forall k ensures k in list <==> k in Targets(e.p) {
      TargetsAreListed(e.p, k);
    }
    match e
    case Added(p) => StepsOver(list, [], r);
    case Updated(before, p) =>
      var gone, came :| IsUpdate(before, p, gone, came) && s == Removes(gone, r) + Applies(came, r);
      StepsOver(came, gone, r);
    case Deleted(_) => StepsOver([], list, r);
      assert s == Removes(list, r) + Applies([], r);
  }

  lemma StepsOver(came: seq<RouteKey>, gone: seq<RouteKey>, r: PolicyRef)
    ensures var s := Removes(gone, r) + Applies(came, r);
      && (forall x | x in s :: x.ref == r)
      && (forall k :: Apply(k, r) in s <==> k in came)
      && (forall k :: Remove(k, r) in s <==> k in gone)
  {
    var s := Removes(gone, r) + Applies(came, r);
    forall k ensures Apply(k, r) in s <==> k in came {
      if k in came {
        var i :| 0 <= i < |came| && came[i] == k;
        assert s[|gone| + i] == Apply(k, r);
      }
    }
    forall k ensures Remove(k, r) in s <==> k in gone {
      if k in gone {
        var i :| 0 <= i < |gone| && gone[i] == k;
        assert s[i] == Remove(k, r);
      }
    }
    assert gone == [] ==> s == Applies(came, r);
  }

  lemma {:induction false} AppliesAt(steps: Steps, keys: seq<RouteKey>, r: PolicyRef, k: RouteKey)
    ensures ListAt(steps + Applies(keys, r), k) == if k in keys then Attach(ListAt(steps, k), r) else ListAt(steps, k)
  {
    if keys == [] {
      assert steps + Applies(keys, r) == steps;
    } else {
      var n := |keys| - 1;
      AppliesAt(steps, keys[..n], r, k);
      ListAtStep(steps + Applies(keys[..n], r), Apply(keys[n], r), k);
      assert Applies(keys, r) == Applies(keys[..n], r) + [Apply(keys[n], r)];
      assert steps + Applies(keys[..n], r) + [Apply(keys[n], r)] == steps + (Applies(keys[..n], r) + [Apply(keys[n], r)]);
      assert k in keys <==> k in keys[..n] || k == keys[n];
    }
  }

  lemma {:induction false} RemovesAt(steps: Steps, keys: seq<RouteKey>, r: PolicyRef, k: RouteKey)
    ensures ListAt(steps + Removes(keys, r), k) == if k in keys then Detach(ListAt(steps, k), r) else ListAt(steps, k)
  {
    if keys == [] {
      assert steps + Removes(keys, r) == steps;
    } else {
      var n := |keys| - 1;
      RemovesAt(steps, keys[..n], r, k);
      ListAtStep(steps + Removes(keys[..n], r), Remove(keys[n], r), k);
      assert Removes(keys, r) == Removes(keys[..n], r) + [Remove(keys[n], r)];
      assert steps + Removes(keys[..n], r) + [Remove(keys[n], r)] == steps + (Removes(keys[..n], r) + [Remove(keys[n], r)]);
      assert k in keys <==> k in keys[..n] || k == keys[n];
      ListsHaveNoDuplicates(steps, k);
      DetachRemoves(ListAt(steps, k), r);
      DetachAbsent(Detach(ListAt(steps, k), r), r);
    }
  }

  /** Taken without interruption, a handler's steps do to each list what the event says, whatever their order. */
  lemma HandlerAlone(steps: Steps, e: PolicyEvent, s: Steps, k: RouteKey)
    requires Script(e, s)
    ensures ListAt(steps + s, k) ==
            if k in Detached(e) then Detach(ListAt(steps, k), RefOf(e.p))
            else if k in Attached(e) then Attach(ListAt(steps, k), RefOf(e.p))
            else ListAt(steps, k)
  {
    var r, list := RefOf(e.p), TargetList(e.p.ns, TargetRefsOf(e.p));
    TargetsAreListed(e.p, k);
    match e
    case Added(p) =>
      AppliesAt(steps, list, r, k);
      assert !Accepted(p) ==> steps + s == steps;
    case Updated(before, p) =>
      var gone, came :| IsUpdate(before, p, gone, came) && s == Removes(gone, r) + Applies(came, r);
      MovesAt(steps, gone, came, r, k);
    case Deleted(_) => RemovesAt(steps, list, r, k);
  }

  lemma MovesAt(steps: Steps, gone: seq<RouteKey>, came: seq<RouteKey>, r: PolicyRef, k: RouteKey)
    requires k in gone ==> k !in came
    ensures ListAt(steps + (Removes(gone, r) + Applies(came, r)), k) ==
            if k in gone then Detach(ListAt(steps, k), r)
            else if k in came then Attach(ListAt(steps, k), r)
            else ListAt(steps, k)
  {
    RemovesAt(steps, gone, r, k);
    AppliesAt(steps + Removes(gone, r), came, r, k);
    assert steps + Removes(gone, r) + Applies(came, r) == steps + (Removes(gone, r) + Applies(came, r));
  }

  /** An accepted revision naming the route: what a handler compares across revisions. */
  ghost predicate Stamps(p: Policy, k: RouteKey) {
    ShowsAccepted(p) && NamesRoute(p, k)
  }

  lemma StampsIff(p: Policy, k: RouteKey)
    ensures k in Effective(p) <==> Stamps(p, k)
  {
    AcceptedIff(p);
    NamesRouteIff(p, k);
  }

  /**
    The steps of a script, read off the objects: an addition attaches what it stamps,
    an update the difference either way, a deletion detaches all it names, accepted or not.
   */
  lemma ScriptOnFields(e: PolicyEvent, s: Steps, k: RouteKey)
    requires Script(e, s)
    ensures Apply(k, RefOf(e.p)) in s <==>
            match e
            case Added(p) => Stamps(p, k)
            case Updated(before, p) => Stamps(p, k) && !(before.Some? && Stamps(before.value, k))
            case Deleted(_) => false
    ensures Remove(k, RefOf(e.p)) in s <==>
            match e
            case Added(_) => false
            case Updated(before, p) => before.Some? && Stamps(before.value, k) && !Stamps(p, k)
            case Deleted(p) => NamesRoute(p, k)
  {
    ScriptSteps(e, s);
    StampsIff(e.p, k);
    NamesRouteIff(e.p, k);
    if e.Updated? && e.before.Some? {
      StampsIff(e.before.value, k);
    }
  }

  // ----- interleaving -----

  /** The policies of one informer. */
  type Mine = PolicyRef -> bool

  /** An informer seen as serving one policy. */
  function Only(r: PolicyRef): Mine {
    x => x == r
  }

  /** The steps taken for an informer's own policies, others' steps left out. */
  function Own(steps: Steps, mine: Mine): Steps {
    if steps == [] then []
    else
      var n := |steps| - 1;
      Own(steps[..n], mine) + if mine(steps[n].ref) then [steps[n]] else []
  }

  lemma {:induction false} OwnConcat(a: Steps, b: Steps, mine: Mine)
    ensures Own(a + b, mine) == Own(a, mine) + Own(b, mine)
  {
    if b == [] {
      assert a + b == a;
    } else {
      var n := |b| - 1;
      OwnConcat(a, b[..n], mine);
      assert (a + b)[..|a + b| - 1] == a + b[..n];
    }
  }

  lemma {:induction false} OwnOnly(steps: Steps, mine: Mine, all: bool)
    requires forall s | s in steps :: mine(s.ref) == all
    ensures Own(steps, mine) == if all then steps else []
  {
    if steps != [] {
      var n := |steps| - 1;
      OwnOnly(steps[..n], mine, all);
      assert steps == steps[..n] + [steps[n]];
    }
  }

  /** However steps interleave, which lists hold a policy is decided by its informer's own steps. */
  lemma {:induction false} OwnDecides(steps: Steps, mine: Mine, k: RouteKey, r: PolicyRef)
    requires mine(r)
    ensures r in ListAt(steps, k) <==> r in ListAt(Own(steps, mine), k)
  {
    if steps != [] {
      var front, s := steps[..|steps| - 1], steps[|steps| - 1];
      assert steps == front + [s];
      OwnDecides(front, mine, k, r);
      MembershipStep(front, s, k, r);
      MembershipStep(Own(front, mine), s, k, r);
      assert Own(steps, mine) == if mine(s.ref) then Own(front, mine) + [s] else Own(front, mine);
    }
  }

  function Flatten(scripts: seq<Steps>): Steps {
    if scripts == [] then [] else Flatten(scripts[..|scripts| - 1]) + scripts[|scripts| - 1]
  }

  lemma FlattenStep(scripts: seq<Steps>, s: Steps)
    ensures Flatten(scripts + [s]) == Flatten(scripts) + s
  {
    assert (scripts + [s])[..|scripts|] == scripts;
  }

  /** One script per event. */
  ghost predicate Scripts(scripts: seq<Steps>, events: seq<PolicyEvent>) {
    |scripts| == |events| && forall i | 0 <= i < |events| :: Script(events[i], scripts[i])
  }

  ghost predicate OwnedBy(events: seq<PolicyEvent>, mine: Mine) {
    forall e | e in events :: mine(RefOf(e.p))
  }

  /**
    An informer between two handlers: its own steps are those of its handlers for
    `events`, one after the other, whatever others did before, between and after.
   */
  ghost predicate Served(steps: Steps, mine: Mine, events: seq<PolicyEvent>) {
    OwnedBy(events, mine) && exists scripts :: Scripts(scripts, events) && Own(steps, mine) == Flatten(scripts)
  }

  /** Having handled `events`, an informer has taken the steps `part` for `e` and has `rest` still to take. */
  ghost predicate Amid(own: Steps, scripts: seq<Steps>, events: seq<PolicyEvent>, e: PolicyEvent, part: Steps, rest: Steps) {
    Scripts(scripts, events) && Script(e, part + rest) && own == Flatten(scripts) + part
  }

  ghost predicate Serving(steps: Steps, mine: Mine, events: seq<PolicyEvent>, e: PolicyEvent) {
    OwnedBy(events + [e], mine) && exists scripts, part, rest :: Amid(Own(steps, mine), scripts, events, e, part, rest)
  }

  /** An informer that takes all the steps of its next event has served one event more. */
  lemma ServesOneMore(steps: Steps, steps': Steps, mine: Mine, events: seq<PolicyEvent>, e: PolicyEvent, s: Steps)
    requires Served(steps, mine, events) && mine(RefOf(e.p))
    requires Script(e, s) && Own(steps', mine) == Own(steps, mine) + s
    ensures Served(steps', mine, events + [e])
  {
    var scripts :| Scripts(scripts, events) && Own(steps, mine) == Flatten(scripts);
    FlattenStep(scripts, s);
    ScriptsOneMore(scripts, events, e, s);
    OwnedOneMore(events, e, mine);
  }

  lemma ScriptsOneMore(scripts: seq<Steps>, events: seq<PolicyEvent>, e: PolicyEvent, s: Steps)
    requires Scripts(scripts, events) && Script(e, s)
    ensures Scripts(scripts + [s], events + [e])
  {
    var scripts', events' := scripts + [s], events + [e];
    forall i | 0 <= i < |events'| ensures Script(events'[i], scripts'[i]) {
      if i < |events| {
        assert events'[i] == events[i] && scripts'[i] == scripts[i];
      } else {
        assert events'[i] == e && scripts'[i] == s;
      }
    }
  }

  lemma OwnedOneMore(events: seq<PolicyEvent>, e: PolicyEvent, mine: Mine)
    requires OwnedBy(events, mine) && mine(RefOf(e.p))
    ensures OwnedBy(events + [e], mine)
  {
  }

  // ----- the informer protocol -----

  /** The live revision of the policy known as `r`. */
  function Live(run: seq<PolicyEvent>, r: PolicyRef): Option<Policy> {
    if run == [] then None
    else
      var e := run[|run| - 1];
      if RefOf(e.p) != r then Live(run[..|run| - 1], r)
      else if e.Deleted? then None
      else Some(e.p)
  }

  /**
    What a shared informer guarantees of its next event: additions are of objects
    it does not hold, updates carry the revision it holds, and deletions carry a
    last known object that still names every route the held revision stamped.
   */
  ghost predicate Follows(run: seq<PolicyEvent>, e: PolicyEvent) {
    var held := Live(run, RefOf(e.p));
    match e
    case Added(_) => held == None
    case Updated(before, _) => held.Some? && before == held
    case Deleted(p) => held.Some? && Effective(held.value) <= Targets(p)
  }

  ghost predicate Faithful(run: seq<PolicyEvent>) {
    forall i | 0 <= i < |run| :: Follows(run[..i], run[i])
  }

  /** Handing the held revision itself to the delete handler is always enough. */
  lemma LastKnownObjectSuffices(run: seq<PolicyEvent>, p: Policy)
    requires Live(run, RefOf(p)) == Some(p)
    ensures Follows(run, Deleted(p))
  {
  }

  lemma FaithfulFront(run: seq<PolicyEvent>)
    requires Faithful(run) && run != []
    ensures Faithful(run[..|run| - 1]) && Follows(run[..|run| - 1], run[|run| - 1])
  {
    var front := run[..|run| - 1];
    forall i | 0 <= i < |front| ensures Follows(front[..i], front[i]) {
      assert front[..i] == run[..i];
    }
  }

  lemma {:induction false} LiveHasItsName(run: seq<PolicyEvent>, r: PolicyRef)
    ensures Live(run, r).Some? ==> RefOf(Live(run, r).value) == r
  {
    if run != [] {
      LiveHasItsName(run[..|run| - 1], r);
    }
  }

  /** Policy `r` is live, accepted, and names route `k`. */
  predicate ShouldAttach(run: seq<PolicyEvent>, r: PolicyRef, k: RouteKey) {
    Live(run, r).Some? && k in Effective(Live(run, r).value)
  }

  // ----- exactness -----

  /** What a run of steps on one policy that never both attaches and detaches a key does to that key. */
  lemma {:induction false} StepsDecide(own: Steps, s: Steps, k: RouteKey, r: PolicyRef)
    requires !(Apply(k, r) in s && Remove(k, r) in s)
    ensures r in ListAt(own + s, k) <==>
            if Apply(k, r) in s then true else if Remove(k, r) in s then false else r in ListAt(own, k)
  {
    if s == [] {
      assert own + s == own;
    } else {
      var n := |s| - 1;
      StepsDecide(own, s[..n], k, r);
      MembershipStep(own + s[..n], s[n], k, r);
      assert own + s[..n] + [s[n]] == own + s;
      assert forall x :: x in s <==> x in s[..n] || x == s[n];
    }
  }

  /** A whole handler moves exactly the event's keys. */
  lemma HandlerDecides(own: Steps, e: PolicyEvent, s: Steps, k: RouteKey, r: PolicyRef)
    requires Script(e, s)
    ensures r in ListAt(own + s, k) <==>
            if RefOf(e.p) != r then r in ListAt(own, k)
            else k in Attached(e) || (k !in Detached(e) && r in ListAt(own, k))
  {
    ScriptSteps(e, s);
    assert RefOf(e.p) != r ==> Apply(k, r) !in s && Remove(k, r) !in s;
    StepsDecide(own, s, k, r);
  }

  lemma HandlerIsExact(own: Steps, s: Steps, front: seq<PolicyEvent>, e: PolicyEvent, k: RouteKey, r: PolicyRef)
    requires Follows(front, e) && Script(e, s)
    requires r in ListAt(own, k) <==> ShouldAttach(front, r, k)
    ensures r in ListAt(own + s, k) <==> ShouldAttach(front + [e], r, k)
  {
    HandlerDecides(own, e, s, k, r);
    ShouldAttachStep(front, e, k, r);
  }

  lemma OneMoreHandler(scripts: seq<Steps>, s: Steps, front: seq<PolicyEvent>, e: PolicyEvent, k: RouteKey, r: PolicyRef)
    requires Follows(front, e) && Script(e, s)
    requires r in ListAt(Flatten(scripts), k) <==> ShouldAttach(front, r, k)
    ensures r in ListAt(Flatten(scripts + [s]), k) <==> ShouldAttach(front + [e], r, k)
  {
    FlattenStep(scripts, s);
    HandlerIsExact(Flatten(scripts), s, front, e, k, r);
  }

  lemma ScriptsFront(scripts: seq<Steps>, events: seq<PolicyEvent>)
    requires Scripts(scripts, events) && events != []
    ensures var n := |events| - 1;
      && Scripts(scripts[..n], events[..n]) && Script(events[n], scripts[n])
      && scripts == scripts[..n] + [scripts[n]] && events == events[..n] + [events[n]]
  {
    var front, before := events[..|events| - 1], scripts[..|events| - 1];
    forall i | 0 <= i < |front| ensures Script(front[i], before[i]) {
      assert Script(events[i], scripts[i]);
    }
  }

  lemma {:induction false} HandlersAreExact(scripts: seq<Steps>, events: seq<PolicyEvent>, k: RouteKey, r: PolicyRef)
    requires Faithful(events) && Scripts(scripts, events)
    ensures r in ListAt(Flatten(scripts), k) <==> ShouldAttach(events, r, k)
  {
    if events != [] {
      var n := |events| - 1;
      FaithfulFront(events);
      ScriptsFront(scripts, events);
      HandlersAreExact(scripts[..n], events[..n], k, r);
      OneMoreHandler(scripts[..n], scripts[n], events[..n], events[n], k, r);
    }
  }

  /** What an informer's next event does to where a policy should be attached. */
  lemma ShouldAttachStep(front: seq<PolicyEvent>, e: PolicyEvent, k: RouteKey, r: PolicyRef)
    requires Follows(front, e)
    ensures ShouldAttach(front + [e], r, k) <==>
            if RefOf(e.p) != r then ShouldAttach(front, r, k)
            else k in Attached(e) || (k !in Detached(e) && ShouldAttach(front, r, k))
  {
    assert (front + [e])[..|front|] == front;
  }

  /**
    Incremental maintenance is exact: however the locked steps of other informers'
    handlers fall between its own, once an informer is between two handlers the
    list of a route holds one of its policies iff that policy is live, accepted
    and targets the route.
   */
  lemma AttachmentsAreExact(steps: Steps, mine: Mine, events: seq<PolicyEvent>, k: RouteKey, r: PolicyRef)
    requires Faithful(events) && Served(steps, mine, events) && mine(r)
    ensures r in ListAt(steps, k) <==> ShouldAttach(events, r, k)
  {
    OwnDecides(steps, mine, k, r);
    var scripts :| Scripts(scripts, events) && Own(steps, mine) == Flatten(scripts);
    HandlersAreExact(scripts, events, k, r);
  }

  /** The identity a policy object is listed under. */
  predicate Identifies(r: PolicyRef, p: Policy) {
    r.name == p.name && r.ns == p.ns && r.kind == p.kind && r.group == p.group
  }

  /**
    The same on the objects' fields: a route lists the policy iff its live revision
    shows acceptance and has a target reference pointing at the route.
   */
  lemma AttachmentsOnFields(steps: Steps, mine: Mine, events: seq<PolicyEvent>, k: RouteKey, r: PolicyRef)
    requires Faithful(events) && Served(steps, mine, events) && mine(r)
    ensures r in ListAt(steps, k) <==> exists p :: Identifies(r, p) && Live(events, r) == Some(p) && ShowsAccepted(p) && NamesRoute(p, k)
  {
    AttachmentsAreExact(steps, mine, events, k, r);
    LiveHasItsName(events, r);
    if Live(events, r).Some? {
      StampsIff(Live(events, r).value, k);
    }
  }

  lemma PartDecides(own: Steps, e: PolicyEvent, part: Steps, rest: Steps, k: RouteKey, r: PolicyRef)
    requires Script(e, part + rest)
    ensures r in ListAt(own + part, k) ==> r in ListAt(own, k) || r in ListAt(own + (part + rest), k)
    ensures r in ListAt(own, k) && r in ListAt(own + (part + rest), k) ==> r in ListAt(own + part, k)
  {
    ScriptSteps(e, part + rest);
    assert RefOf(e.p) != r ==> Apply(k, r) !in part + rest && Remove(k, r) !in part + rest;
    assert forall x | x in part :: x in part + rest;
    StepsDecide(own, part + rest, k, r);
    StepsDecide(own, part, k, r);
  }

  /** While it is inside a handler, each of its policies shows at each route as before the event or as after it. */
  lemma BeforeOrAfter(steps: Steps, mine: Mine, events: seq<PolicyEvent>, e: PolicyEvent, k: RouteKey, r: PolicyRef)
    requires Faithful(events + [e]) && Serving(steps, mine, events, e) && mine(r)
    ensures r in ListAt(steps, k) ==> ShouldAttach(events, r, k) || ShouldAttach(events + [e], r, k)
    ensures ShouldAttach(events, r, k) && ShouldAttach(events + [e], r, k) ==> r in ListAt(steps, k)
  {
    var scripts, part, rest :| Amid(Own(steps, mine), scripts, events, e, part, rest);
    FaithfulFront(events + [e]);
    assert (events + [e])[..|events|] == events;
    OwnDecides(steps, mine, k, r);
    HandlersAreExact(scripts, events, k, r);
    HandlerIsExact(Flatten(scripts), part + rest, events, e, k, r);
    PartDecides(Flatten(scripts), e, part, rest, k, r);
  }

  lemma LastServed(steps: Steps, mine: Mine, events: seq<PolicyEvent>, e: PolicyEvent) returns (before: seq<Steps>, last: Steps)
    requires Served(steps, mine, events + [e])
    ensures mine(RefOf(e.p)) && Scripts(before, events) && Script(e, last) && Own(steps, mine) == Flatten(before) + last
  {
    var all := events + [e];
    var scripts :| Scripts(scripts, all) && Own(steps, mine) == Flatten(scripts);
    before, last := scripts[..|events|], scripts[|events|];
    assert all[|events|] == e && e in all;
    forall i | 0 <= i < |events| ensures Script(events[i], before[i]) {
      assert Script(all[i], scripts[i]);
    }
  }

  ghost predicate Drained(steps: Steps, r: PolicyRef) {
    forall k :: r !in ListAt(steps, k)
  }

  /**
    Once the delete handler is done, the policy is off every route iff the object
    it was handed still names all the routes the last held revision stamped.
   */
  lemma DeleteDrainsIff(steps: Steps, mine: Mine, events: seq<PolicyEvent>, p: Policy)
    requires Faithful(events) && Served(steps, mine, events + [Deleted(p)]) && Live(events, RefOf(p)).Some?
    ensures Drained(steps, RefOf(p)) <==> Effective(Live(events, RefOf(p)).value) <= Targets(p)
  {
    var r, q := RefOf(p), Live(events, RefOf(p)).value;
    var before, last := LastServed(steps, mine, events, Deleted(p));
    forall k ensures r in ListAt(steps, k) <==> k in Effective(q) && k !in Targets(p) {
      OwnDecides(steps, mine, k, r);
      HandlersAreExact(before, events, k, r);
      HandlerDecides(Flatten(before), Deleted(p), last, k, r);
    }
    if k :| k in Effective(q) && k !in Targets(p) {
      assert r in ListAt(steps, k);
    }
  }

  // ----- discovery order -----

  /** The step that started the current attachment of `r` to `k`. */
  function AttachedSince(steps: Steps, k: RouteKey, r: PolicyRef): int {
    if steps == [] || r !in ListAt(steps, k) then -1
    else if r in ListAt(steps[..|steps| - 1], k) then AttachedSince(steps[..|steps| - 1], k, r)
    else |steps| - 1
  }

  lemma {:induction false} AttachedSinceBounded(steps: Steps, k: RouteKey, r: PolicyRef)
    ensures AttachedSince(steps, k, r) < |steps|
  {
    if steps != [] {
      AttachedSinceBounded(steps[..|steps| - 1], k, r);
    }
  }

  lemma GapKeepsOrder(l: seq<PolicyRef>, g: int, i: int, j: int) returns (i': int, j': int)
    requires 0 <= g < |l| && 0 <= i < j < |l| - 1
    ensures var d := l[..g] + l[g + 1..]; 0 <= i' < j' < |l| && l[i'] == d[i] && l[j'] == d[j]
  {
    i', j' := if i < g then i else i + 1, if j < g then j else j + 1;
  }

  /** One step keeps the relative order of what it leaves and puts a new ref last. */
  lemma StepKeepsOrder(l: seq<PolicyRef>, s: PolicyStep, k: RouteKey, i: int, j: int) returns (i': int, j': int)
    requires NoDuplicates(l) && 0 <= i < j < |ListStep(l, s, k)|
    ensures var l' := ListStep(l, s, k);
      l'[i] in l && (l'[j] in l ==> 0 <= i' < j' < |l| && l[i'] == l'[i] && l[j'] == l'[j])
  {
    i', j' := i, j;
    if s.key == k && s.Remove? {
      if s.ref in l {
        var g :| 0 <= g < |l| && l[g] == s.ref;
        assert l[g] !in l[..g];
        DetachAt(l, g);
        i', j' := GapKeepsOrder(l, g, i, j);
      } else {
        DetachAbsent(l, s.ref);
      }
    }
  }

  /** Each route's list is in discovery order, whatever has been detached in between. */
  lemma {:induction false} ListsAreInDiscoveryOrder(steps: Steps, k: RouteKey, i: int, j: int)
    requires 0 <= i < j < |ListAt(steps, k)|
    ensures AttachedSince(steps, k, ListAt(steps, k)[i]) < AttachedSince(steps, k, ListAt(steps, k)[j])
  {
    var front, s := steps[..|steps| - 1], steps[|steps| - 1];
    ListsHaveNoDuplicates(front, k);
    AttachedSinceBounded(front, k, ListAt(steps, k)[i]);
    var i', j' := StepKeepsOrder(ListAt(front, k), s, k, i, j);
    if ListAt(steps, k)[j] in ListAt(front, k) {
      ListsAreInDiscoveryOrder(front, k, i', j');
    }
  }

  /**
    That order is per route: when two additions naming the same two routes
    interleave, the routes list the policies in opposite orders, which neither
    order of whole handlers can produce.
   */
  lemma {:induction false} InterleavingWitness(p: PolicyRef, q: PolicyRef, a: RouteKey, b: RouteKey)
    requires p != q && a != b
    ensures var steps := [Apply(a, p), Apply(a, q), Apply(b, q), Apply(b, p)];
      && Own(steps, Only(p)) == Applies([a, b], p) && Own(steps, Only(q)) == Applies([a, b], q)
      && ListAt(steps, a) == [p, q] && ListAt(steps, b) == [q, p]
  {
    var w, x, y, z := Apply(a, p), Apply(a, q), Apply(b, q), Apply(b, p);
    FourSteps(w, x, y, z, a);
    FourSteps(w, x, y, z, b);
    OwnOfFour(w, x, y, z, Only(p));
    OwnOfFour(w, x, y, z, Only(q));
  }

  /** One whole addition after another lists them in the same order at both routes. */
  lemma {:induction false} WholeHandlersWitness(p: PolicyRef, q: PolicyRef, a: RouteKey, b: RouteKey)
    requires p != q && a != b
    ensures var steps := Applies([a, b], p) + Applies([a, b], q);
      ListAt(steps, a) == [p, q] && ListAt(steps, b) == [p, q]
  {
    var steps := Applies([a, b], p) + Applies([a, b], q);
    assert steps == [Apply(a, p), Apply(b, p), Apply(a, q), Apply(b, q)];
    FourSteps(Apply(a, p), Apply(b, p), Apply(a, q), Apply(b, q), a);
    FourSteps(Apply(a, p), Apply(b, p), Apply(a, q), Apply(b, q), b);
  }

  lemma TwoSteps(steps: Steps, s: PolicyStep, s': PolicyStep, k: RouteKey)
    ensures ListAt(steps + [s, s'], k) == ListStep(ListStep(ListAt(steps, k), s, k), s', k)
  {
    ListAtStep(steps, s, k);
    ListAtStep(steps + [s], s', k);
    assert steps + [s] + [s'] == steps + [s, s'];
  }

  lemma FourSteps(w: PolicyStep, x: PolicyStep, y: PolicyStep, z: PolicyStep, k: RouteKey)
    ensures ListAt([w, x, y, z], k) == ListStep(ListStep(ListStep(ListStep([], w, k), x, k), y, k), z, k)
  {
    TwoSteps([], w, x, k);
    assert [] + [w, x] == [w, x];
    TwoSteps([w, x], y, z, k);
    assert [w, x] + [y, z] == [w, x, y, z];
  }

  lemma OwnOfFour(w: PolicyStep, x: PolicyStep, y: PolicyStep, z: PolicyStep, mine: Mine)
    requires mine(w.ref) != mine(x.ref) && mine(x.ref) == mine(y.ref) && mine(w.ref) == mine(z.ref)
    ensures Own([w, x, y, z], mine) == if mine(w.ref) then [w, z] else [x, y]
  {
    OwnStep([w, x, y], z, mine);
    OwnStep([w, x], y, mine);
    OwnStep([w], x, mine);
    OwnStep([], w, mine);
    assert [w, x, y] + [z] == [w, x, y, z] && [w, x] + [y] == [w, x, y] && [w] + [x] == [w, x] && [] + [w] == [w];
  }

  lemma OwnStep(steps: Steps, s: PolicyStep, mine: Mine)
    ensures Own(steps + [s], mine) == Own(steps, mine) + if mine(s.ref) then [s] else []
  {
    assert (steps + [s])[..|steps|] == steps;
  }
}
