/**
  Runs of informer events. Every index below is fed by one informer per object
  kind, whose handlers reduce to "this object now looks like this" and "this
  object is gone"; an index is specified by a fold over such a run.
 */
module History {
  import opened Types

  datatype Event<K, V> = Upsert(key: K, value: V) | Delete(key: K)

  /** What the cluster holds under `k` after the run: its last announced revision. */
  function Latest<K(==), V>(run: seq<Event<K, V>>, k: K): Option<V> {
    if run == [] then None
    else
      var e := run[|run| - 1];
      if e.key != k then Latest(run[..|run| - 1], k)
      else if e.Upsert? then Some(e.value)
      else None
  }

  /** Event `i` is the last word about object `k`. */
  ghost predicate IsLastAbout<K, V>(run: seq<Event<K, V>>, k: K, i: int) {
    0 <= i < |run| && run[i].key == k && forall j | i < j < |run| :: run[j].key != k
  }

  /** `Latest` reads exactly the last event about `k`. */
  lemma {:induction false} LatestIsLastWord<K, V>(run: seq<Event<K, V>>, k: K, v: V)
    ensures Latest(run, k) == Some(v) <==> exists i :: IsLastAbout(run, k, i) && run[i] == Upsert(k, v)
  {
    if run != [] {
      var n := |run| - 1;
      var front := run[..n];
      if run[n].key == k {
        assert IsLastAbout(run, k, n);
      } else {
        LatestIsLastWord(front, k, v);
        if i :| IsLastAbout(front, k, i) && front[i] == Upsert(k, v) {
          assert IsLastAbout(run, k, i) && run[i] == Upsert(k, v);
        }
        if i :| IsLastAbout(run, k, i) && run[i] == Upsert(k, v) {
          assert IsLastAbout(front, k, i) && front[i] == Upsert(k, v);
        }
      }
    }
  }

  /** Extending a run by one event. */
  lemma LatestStep<K, V>(run: seq<Event<K, V>>, e: Event<K, V>, k: K)
    ensures Latest(run + [e], k) ==
            if e.key != k then Latest(run, k) else if e.Upsert? then Some(e.value) else None
  {
    assert (run + [e])[..|run|] == run;
  }

  /** Events about other objects do not disturb `k`. */
  lemma {:induction false} LatestSkips<K, V>(run: seq<Event<K, V>>, more: seq<Event<K, V>>, k: K)
    requires forall e | e in more :: e.key != k
    ensures Latest(run + more, k) == Latest(run, k)
  {
    if more == [] {
      assert run + more == run;
    } else {
      var n := |more| - 1;
      LatestSkips(run, more[..n], k);
      LatestStep(run + more[..n], more[n], k);
      assert run + more[..n] + [more[n]] == run + more;
    }
  }
}
