/**
  The `policies` map of the route index, with its slices as real storage: each
  list is a prefix of a shared-capacity array that appends write into and
  removals shift in place, while readers keep the snapshots they were handed.
 */
module PolicyTable {
  import opened Types
  import opened PolicyRuns

  /** A Go slice: the first `len` elements of a backing array. */
  datatype Slice = Slice(data: array<PolicyRef>, len: nat)

  class PolicyTable {
    var slices: map<RouteKey, Slice>
    ghost var steps: Steps  // the locked steps taken so far, whichever handler took them
    ghost var handedOut: set<array<PolicyRef>>  // every snapshot a reader has been given

    ghost function Storage(): set<array<PolicyRef>>
      reads this`slices
    {
      set k | k in slices :: slices[k].data
    }

    /** No empty list is kept and no two lists share an array. */
    ghost predicate Shaped()
      reads this`slices, Storage()
    {
      && (forall k | k in slices :: 0 < slices[k].len <= slices[k].data.Length)
      && (forall k, k' | k in slices && k' in slices && k != k' :: slices[k].data != slices[k'].data)
    }

    /** Moreover, no snapshot ever handed out is index storage. */
    ghost predicate Apart()
      reads this`slices, this`handedOut, Storage()
    {
      Shaped() && Storage() !! handedOut
    }

    ghost function Contents(k: RouteKey): (l: seq<PolicyRef>)
      requires Shaped()
      reads this`slices, Storage()
    {
      if k in slices then slices[k].data[..slices[k].len] else []
    }

    /** And every list is what the steps taken so far prescribe. */
    ghost predicate Valid()
      reads this, Storage()
    {
      Apart() && forall k :: Contents(k) == ListAt(steps, k)
    }

    constructor ()
      ensures Valid() && steps == [] && handedOut == {} && slices == map[]
    {
      slices, steps, handedOut := map[], [], {};
    }

    /** Appends a step to those taken, once its effect is in place. */
    ghost method Record(s: PolicyStep)
      requires Apart() && forall k :: Contents(k) == ListStep(ListAt(steps, k), s, k)
      modifies this`steps
      ensures Valid() && steps == old(steps) + [s]
    {
      steps := steps + [s];
      forall k ensures Contents(k) == ListAt(steps, k) {
        ListAtStep(old(steps), s, k);
      }
    }

    method IndexOf(k: RouteKey, p: PolicyRef) returns (i: int)
      requires Apart()
      ensures i == -1 ==> p !in Contents(k)
      ensures i != -1 ==> k in slices && 0 <= i < slices[k].len && slices[k].data[i] == p && p !in slices[k].data[..i]
    {
      if k in slices {
        var s := slices[k];
        i := 0;
        while i < s.len
          invariant 0 <= i <= s.len
          invariant p !in s.data[..i]
        {
          if s.data[i] == p { return; }
          i := i + 1;
        }
      }
      i := -1;
    }

    /** append(s, p): in place while capacity lasts, otherwise into an array of any larger capacity. */
    method Append(k: RouteKey, p: PolicyRef)
      requires Apart() && p !in Contents(k)
      modifies this`slices, Storage()
      ensures Apart() && fresh(Storage() - old(Storage()))
      ensures Contents(k) == old(Contents(k)) + [p]
      ensures forall k' | k' != k :: Contents(k') == old(Contents(k'))
    {
      var n: nat := if k in slices then slices[k].len else 0;
      var data := Room(k, n);
      PutLast(k, data, n, p);
    }

    /** Writes past the end of a list whose elements `data` already holds, and makes `data` its array. */
    method PutLast(k: RouteKey, data: array<PolicyRef>, n: nat, p: PolicyRef)
      requires Apart() && n < data.Length && data[..n] == Contents(k)
      requires data !in handedOut && forall k' | k' in slices && k' != k :: slices[k'].data != data
      modifies this`slices, data
      ensures Apart() && Storage() <= old(Storage()) + {data}
      ensures Contents(k) == old(Contents(k)) + [p]
      ensures forall k' | k' != k :: Contents(k') == old(Contents(k'))
    {
      ghost var before := Contents(k);
      data[n] := p;
      assert data[..n + 1] == before + [p];
      slices := slices[k := Slice(data, n + 1)];
    }

    /** The backing array the next append writes to. */
    method Room(k: RouteKey, n: nat) returns (data: array<PolicyRef>)
      requires Apart() && n == |Contents(k)|
      ensures n < data.Length && data[..n] == Contents(k)
      ensures fresh(data) || (k in slices && data == slices[k].data)
    {
      if k in slices && n < slices[k].data.Length {
        data := slices[k].data;
      } else {
        var spare :| 0 <= spare;
        data := new PolicyRef[n + 1 + spare](_ => PolicyRef("", "", "", ""));
        if k in slices {
          CopyPrefix(slices[k], data);
        }
      }
    }

    method CopyPrefix(s: Slice, data: array<PolicyRef>)
      requires s.len <= s.data.Length && s.len <= data.Length && s.data != data
      modifies data
      ensures data[..s.len] == s.data[..s.len]
    {
      for i := 0 to s.len
        invariant data[..i] == s.data[..i]
      {
        data[i] := s.data[i];
      }
    }

    method ApplyPolicy(k: RouteKey, p: PolicyRef)
      requires Valid()
      modifies this`slices, this`steps, Storage()
      ensures Valid() && steps == old(steps) + [Apply(k, p)]
      ensures fresh(Storage() - old(Storage()))
      ensures Contents(k) == Attach(old(Contents(k)), p)
      ensures forall k' | k' != k :: Contents(k') == old(Contents(k'))
      ensures forall a | a in old(handedOut) :: a[..] == old(a[..])
    {
      var i := IndexOf(k, p);
      if i == -1 {
        Append(k, p);
      }
      Record(Apply(k, p));
    }

    /** append(pols[:i], pols[i+1:]...): shifts the tail down one place inside the same array. */
    method ShiftDown(s: Slice, i: nat)
      requires i < s.len <= s.data.Length
      modifies s.data
      ensures s.data[..s.len - 1] == old(s.data[..i] + s.data[i + 1..s.len])
    {
      ghost var l := s.data[..];
      var j := i;
      while j < s.len - 1
        invariant i <= j <= s.len - 1
        invariant forall m | 0 <= m < i || j < m < s.len :: s.data[m] == l[m]
        invariant forall m | i <= m < j :: s.data[m] == l[m + 1]
      {
        s.data[j] := s.data[j + 1];
        j := j + 1;
      }
      ghost var shifted := l[..i] + l[i + 1..s.len];
      assert forall m | 0 <= m < s.len - 1 :: s.data[m] == shifted[m];
      assert l[..i] == old(s.data[..i]) && l[i + 1..s.len] == old(s.data[i + 1..s.len]);
    }

    method RemoveAt(k: RouteKey, i: nat)
      requires Apart() && k in slices && i < slices[k].len
      modifies this`slices, slices[k].data
      ensures Apart() && Storage() <= old(Storage())
      ensures Contents(k) == old(Contents(k)[..i] + Contents(k)[i + 1..])
      ensures forall k' | k' != k :: Contents(k') == old(Contents(k'))
    {
      var s := slices[k];
      ghost var l := s.data[..s.len];
      ShiftDown(s, i);
      assert s.data[..s.len - 1] == l[..i] + l[i + 1..];
      if s.len == 1 {
        slices := slices - {k};
      } else {
        slices := slices[k := Slice(s.data, s.len - 1)];
      }
    }

    method RemovePolicy(k: RouteKey, p: PolicyRef)
      requires Valid()
      modifies this`slices, this`steps, Storage()
      ensures Valid() && steps == old(steps) + [Remove(k, p)]
      ensures Storage() <= old(Storage())
      ensures Contents(k) == Detach(old(Contents(k)), p)
      ensures forall k' | k' != k :: Contents(k') == old(Contents(k'))
      ensures forall a | a in old(handedOut) :: a[..] == old(a[..])
    {
      var i := IndexOf(k, p);
      if i == -1 {
        DetachAbsent(Contents(k), p);
      } else {
        assert Contents(k)[..i] == slices[k].data[..i];
        DetachAt(Contents(k), i);
        RemoveAt(k, i);
      }
      Record(Remove(k, p));
    }

    /**
      The read-time overlay: a copy of the current list, or null when there is
      none. The copy is recorded as handed out, so `Valid` keeps every snapshot
      ever returned apart from index storage; no writer above can modify it.
     */
    method Overlay(k: RouteKey) returns (snapshot: array?<PolicyRef>)
      requires Valid()
      modifies this`handedOut
      ensures Valid()
      ensures snapshot == null <==> Contents(k) == []
      ensures snapshot != null ==>
                fresh(snapshot) && snapshot !in Storage() && snapshot[..] == Contents(k) && handedOut == old(handedOut) + {snapshot}
      ensures snapshot == null ==> handedOut == old(handedOut)
    {
      snapshot := null;
      if k in slices {
        var s := slices[k];
        snapshot := new PolicyRef[s.len](i requires 0 <= i < s.len && s.len <= s.data.Length reads s.data => s.data[i]);
        handedOut := handedOut + {snapshot};
        assert snapshot[..] == s.data[..s.len];
      }
    }

    // ----- the informers' handlers -----

    method Take(s: PolicyStep)
      requires Valid()
      modifies this`slices, this`steps, Storage()
      ensures Valid() && steps == old(steps) + [s]
      ensures fresh(Storage() - old(Storage()))
    {
      if s.Apply? {
        ApplyPolicy(s.key, s.ref);
      } else {
        RemovePolicy(s.key, s.ref);
      }
    }

    /** Other informers' handlers at work while this one holds no lock. */
    method Others(others: Steps)
      requires Valid()
      modifies this`slices, this`steps, Storage()
      ensures Valid() && steps == old(steps) + others
      ensures fresh(Storage() - old(Storage()))
    {
      for i := 0 to |others|
        invariant Valid() && steps == old(steps) + others[..i]
        invariant fresh(Storage() - old(Storage()))
      {
        Take(others[i]);
        assert others[..i + 1] == others[..i] + [others[i]];
      }
      assert others[..|others|] == others;
    }

    /** One locked step of an informer's handler, after whatever others did before it. */
    method Step(s: PolicyStep, ghost mine: Mine, before: Steps)
      requires Valid() && mine(s.ref) && forall x | x in before :: !mine(x.ref)
      modifies this`slices, this`steps, Storage()
      ensures Valid() && Own(steps, mine) == Own(old(steps), mine) + [s]
      ensures fresh(Storage() - old(Storage()))
    {
      Others(before);
      Take(s);
      OwnAfterOthers(old(steps), before, s, mine);
    }

    method ApplyAll(targets: seq<RouteKey>, ref: PolicyRef, ghost mine: Mine, others: Meanwhile)
      requires Valid() && mine(ref) && Foreign(others, mine)
      modifies this`slices, this`steps, Storage()
      ensures Valid() && Own(steps, mine) == Own(old(steps), mine) + Applies(targets, ref)
      ensures fresh(Storage() - old(Storage()))
    {
      for i := 0 to |targets|
        invariant Valid() && Own(steps, mine) == Own(old(steps), mine) + Applies(targets[..i], ref)
        invariant fresh(Storage() - old(Storage()))
      {
        Step(Apply(targets[i], ref), mine, others(i));
        assert Applies(targets[..i + 1], ref) == Applies(targets[..i], ref) + [Apply(targets[i], ref)];
      }
      assert targets[..|targets|] == targets;
    }

    method RemoveAll(targets: seq<RouteKey>, ref: PolicyRef, ghost mine: Mine, others: Meanwhile)
      requires Valid() && mine(ref) && Foreign(others, mine)
      modifies this`slices, this`steps, Storage()
      ensures Valid() && Own(steps, mine) == Own(old(steps), mine) + Removes(targets, ref)
      ensures fresh(Storage() - old(Storage()))
    {
      for i := 0 to |targets|
        invariant Valid() && Own(steps, mine) == Own(old(steps), mine) + Removes(targets[..i], ref)
        invariant fresh(Storage() - old(Storage()))
      {
        Step(Remove(targets[i], ref), mine, others(i));
        assert Removes(targets[..i + 1], ref) == Removes(targets[..i], ref) + [Remove(targets[i], ref)];
      }
      assert targets[..|targets|] == targets;
    }

    /** Visits the old targets in an arbitrary order; `t` counts the steps taken. */
    method WithdrawGone(oldSet: set<RouteKey>, newSet: set<RouteKey>, ref: PolicyRef, ghost mine: Mine, others: Meanwhile)
        returns (t: nat, ghost gone: seq<RouteKey>)
      requires Valid() && mine(ref) && Foreign(others, mine)
      modifies this`slices, this`steps, Storage()
      ensures Valid() && ListsOnce(gone, oldSet - newSet)
      ensures Own(steps, mine) == Own(old(steps), mine) + Removes(gone, ref)
      ensures fresh(Storage() - old(Storage()))
    {
      var todo := oldSet;
      t, gone := 0, [];
      while todo != {}
        invariant todo <= oldSet && Valid() && ListsOnce(gone, oldSet - todo - newSet)
        invariant Own(steps, mine) == Own(old(steps), mine) + Removes(gone, ref)
        invariant fresh(Storage() - old(Storage()))
      {
        var key :| key in todo;
        todo := todo - {key};
        if key !in newSet {
          Step(Remove(key, ref), mine, others(t));
          assert Removes(gone + [key], ref) == Removes(gone, ref) + [Remove(key, ref)];
          ListsOnceMore(gone, oldSet - (todo + {key}) - newSet, key);
          assert oldSet - todo - newSet == oldSet - (todo + {key}) - newSet + {key};
          t, gone := t + 1, gone + [key];
        }
      }
    }

    /** Visits the new targets in an arbitrary order. */
    method StampNew(oldSet: set<RouteKey>, newSet: set<RouteKey>, ref: PolicyRef, ghost mine: Mine, others: Meanwhile, t0: nat)
        returns (ghost came: seq<RouteKey>)
      requires Valid() && mine(ref) && Foreign(others, mine)
      modifies this`slices, this`steps, Storage()
      ensures Valid() && ListsOnce(came, newSet - oldSet)
      ensures Own(steps, mine) == Own(old(steps), mine) + Applies(came, ref)
      ensures fresh(Storage() - old(Storage()))
    {
      var todo, t := newSet, t0;
      came := [];
      while todo != {}
        invariant todo <= newSet && Valid() && ListsOnce(came, newSet - todo - oldSet)
        invariant Own(steps, mine) == Own(old(steps), mine) + Applies(came, ref)
        invariant fresh(Storage() - old(Storage()))
      {
        var key :| key in todo;
        todo := todo - {key};
        if key !in oldSet {
          Step(Apply(key, ref), mine, others(t));
          assert Applies(came + [key], ref) == Applies(came, ref) + [Apply(key, ref)];
          ListsOnceMore(came, newSet - (todo + {key}) - oldSet, key);
          assert newSet - todo - oldSet == newSet - (todo + {key}) - oldSet + {key};
          t, came := t + 1, came + [key];
        }
      }
    }

    method PolicyAdd(u: Policy, ghost mine: Mine, others: Meanwhile) returns (ghost script: Steps)
      requires Valid() && mine(RefOf(u)) && Foreign(others, mine)
      modifies this`slices, this`steps, Storage()
      ensures Valid() && Script(Added(u), script) && Own(steps, mine) == Own(old(steps), mine) + script
      ensures forall k :: Apply(k, RefOf(u)) in script <==> ShowsAccepted(u) && NamesRoute(u, k)
      ensures fresh(Storage() - old(Storage()))
      ensures forall a | a in old(handedOut) :: a[..] == old(a[..])
    {
      script := [];
      var accepted := PolicyAccepted(u);
      if accepted {
        var targets := TargetsFromPolicy(u);
        ApplyAll(targets, RefOf(u), mine, others);
        script := Applies(targets, RefOf(u));
      }
      forall k ensures Apply(k, RefOf(u)) in script <==> ShowsAccepted(u) && NamesRoute(u, k) {
        ScriptOnFields(Added(u), script, k);
      }
    }

    /** The script depends on the order either loop visits its set in; which keys it moves does not. */
    method PolicyUpdate(before: Option<Policy>, u: Policy, ghost mine: Mine, others: Meanwhile) returns (ghost script: Steps)
      requires Valid() && mine(RefOf(u)) && Foreign(others, mine)
      modifies this`slices, this`steps, Storage()
      ensures Valid() && Script(Updated(before, u), script) && Own(steps, mine) == Own(old(steps), mine) + script
      ensures forall k :: Apply(k, RefOf(u)) in script <==> Stamps(u, k) && !(before.Some? && Stamps(before.value, k))
      ensures forall k :: Remove(k, RefOf(u)) in script <==> before.Some? && Stamps(before.value, k) && !Stamps(u, k)
      ensures fresh(Storage() - old(Storage()))
      ensures forall a | a in old(handedOut) :: a[..] == old(a[..])
    {
      var oldSet := EffectiveTargets(before);
      var newSet := EffectiveTargets(Some(u));
      script := MoveTargets(oldSet, newSet, RefOf(u), mine, others);
      UpdateScript(before, u, script);
    }

    /** Withdraws, then stamps. */
    method MoveTargets(oldSet: set<RouteKey>, newSet: set<RouteKey>, ref: PolicyRef, ghost mine: Mine, others: Meanwhile)
        returns (ghost moves: Steps)
      requires Valid() && mine(ref) && Foreign(others, mine)
      modifies this`slices, this`steps, Storage()
      ensures Valid() && Own(steps, mine) == Own(old(steps), mine) + moves
      ensures Moves(moves, oldSet, newSet, ref)
      ensures fresh(Storage() - old(Storage()))
    {
      var t;
      ghost var gone, came;
      t, gone := WithdrawGone(oldSet, newSet, ref, mine, others);
      came := StampNew(oldSet, newSet, ref, mine, others, t);
      moves := Removes(gone, ref) + Applies(came, ref);
    }

    method PolicyDelete(u: Policy, ghost mine: Mine, others: Meanwhile) returns (ghost script: Steps)
      requires Valid() && mine(RefOf(u)) && Foreign(others, mine)
      modifies this`slices, this`steps, Storage()
      ensures Valid() && Script(Deleted(u), script) && Own(steps, mine) == Own(old(steps), mine) + script
      ensures forall k :: Remove(k, RefOf(u)) in script <==> NamesRoute(u, k)
      ensures fresh(Storage() - old(Storage()))
      ensures forall a | a in old(handedOut) :: a[..] == old(a[..])
    {
      var targets := TargetsFromPolicy(u);
      RemoveAll(targets, RefOf(u), mine, others);
      script := Removes(targets, RefOf(u));
      forall k ensures Remove(k, RefOf(u)) in script <==> NamesRoute(u, k) {
        ScriptOnFields(Deleted(u), script, k);
      }
    }
  }

  /** The steps other informers' handlers take before this one's `t`-th step. */
  type Meanwhile = nat -> Steps

  ghost predicate Foreign(others: Meanwhile, mine: Mine) {
    forall t: nat, s | s in others(t) :: !mine(s.ref)
  }

  lemma ListsOnceMore(keys: seq<RouteKey>, s: set<RouteKey>, k: RouteKey)
    requires ListsOnce(keys, s) && k !in s
    ensures ListsOnce(keys + [k], s + {k})
  {
    assert forall i | 0 <= i < |keys| :: keys[i] in keys;
    assert forall x :: x in keys + [k] <==> x in keys || x == k;
  }

  lemma OwnAfterOthers(steps: Steps, before: Steps, s: PolicyStep, mine: Mine)
    requires mine(s.ref) && forall x | x in before :: !mine(x.ref)
    ensures Own(steps + before + [s], mine) == Own(steps, mine) + [s]
  {
    OwnStep(steps + before, s, mine);
    OwnConcat(steps, before, mine);
    OwnOnly(before, mine, false);
  }

  /** The moved targets, each once: the vanished ones withdrawn, then the new ones stamped. */
  ghost predicate Moves(moves: Steps, oldSet: set<RouteKey>, newSet: set<RouteKey>, ref: PolicyRef) {
    exists gone, came :: ListsOnce(gone, oldSet - newSet) && ListsOnce(came, newSet - oldSet) &&
                         moves == Removes(gone, ref) + Applies(came, ref)
  }

  lemma UpdateScript(before: Option<Policy>, u: Policy, script: Steps)
    requires Moves(script, EffectiveBefore(before), EffectiveBefore(Some(u)), RefOf(u))
    ensures Script(Updated(before, u), script)
    ensures forall k :: Apply(k, RefOf(u)) in script <==> Stamps(u, k) && !(before.Some? && Stamps(before.value, k))
    ensures forall k :: Remove(k, RefOf(u)) in script <==> before.Some? && Stamps(before.value, k) && !Stamps(u, k)
  {
    var gone, came :| ListsOnce(gone, EffectiveBefore(before) - Effective(u)) && ListsOnce(came, Effective(u) - EffectiveBefore(before)) &&
                      script == Removes(gone, RefOf(u)) + Applies(came, RefOf(u));
    assert IsUpdate(before, u, gone, came);
    UpdateOnFields(before, u, script);
  }

  lemma UpdateOnFields(before: Option<Policy>, u: Policy, script: Steps)
    requires Script(Updated(before, u), script)
    ensures forall k :: Apply(k, RefOf(u)) in script <==> Stamps(u, k) && !(before.Some? && Stamps(before.value, k))
    ensures forall k :: Remove(k, RefOf(u)) in script <==> before.Some? && Stamps(before.value, k) && !Stamps(u, k)
  {
    forall k
      ensures Apply(k, RefOf(u)) in script <==> Stamps(u, k) && !(before.Some? && Stamps(before.value, k))
      ensures Remove(k, RefOf(u)) in script <==> before.Some? && Stamps(before.value, k) && !Stamps(u, k)
    {
      ScriptOnFields(Updated(before, u), script, k);
    }
  }

  method ConditionsHaveAcceptedTrue(conds: seq<Condition>) returns (ok: bool)
    ensures ok <==> AcceptsIn(Some(conds))
  {
    ok := false;
    for i := 0 to |conds|
      invariant !ok && forall j | 0 <= j < i :: !(conds[j].kind == "Accepted" && conds[j].status == "True")
    {
      if conds[i].kind == "Accepted" && conds[i].status == "True" {
        return true;
      }
    }
  }

  /** The acceptance gate: absent status, top-level conditions, then each ancestor's. */
  method PolicyAccepted(p: Policy) returns (ok: bool)
    ensures ok <==> ShowsAccepted(p)
    ensures ok == Accepted(p)
  {
    AcceptedIff(p);
    if p.status.None? {
      return true;
    }
    var s := p.status.value;
    if s.conditions.Some? {
      ok := ConditionsHaveAcceptedTrue(s.conditions.value);
      if ok {
        return;
      }
    }
    ok := false;
    if s.ancestors.Some? {
      for a := 0 to |s.ancestors.value|
        invariant !ok && forall j | 0 <= j < a :: !AcceptsIn(s.ancestors.value[j].conditions)
      {
        var conds := s.ancestors.value[a].conditions;
        if conds.Some? {
          ok := ConditionsHaveAcceptedTrue(conds.value);
          if ok {
            return;
          }
        }
      }
    }
  }

  /** The target set of one side of an update: empty when absent or not accepted. */
  method EffectiveTargets(p: Option<Policy>) returns (targets: set<RouteKey>)
    ensures targets == EffectiveBefore(p)
  {
    targets := {};
    if p.Some? {
      var accepted := PolicyAccepted(p.value);
      if accepted {
        var ts := TargetsFromPolicy(p.value);
        targets := set t | t in ts;
      }
    }
  }

  /** The target list of a policy object, in spec order, out-of-scope references skipped. */
  method TargetsFromPolicy(u: Policy) returns (targets: seq<RouteKey>)
    ensures targets == TargetList(u.ns, TargetRefsOf(u))
    ensures forall k :: k in targets <==> k in Targets(u)
  {
    var refs := TargetRefsOf(u);
    targets := [];
    for i := 0 to |refs|
      invariant targets == TargetList(u.ns, refs[..i])
    {
      if InScope(refs[i]) {
        targets := targets + [TargetKey(u.ns, refs[i])];
      }
      assert refs[..i + 1][..i] == refs[..i];
    }
    assert refs[..|refs|] == refs;
    forall k ensures k in targets <==> k in Targets(u) {
      TargetsAreListed(u, k);
    }
  }
}
