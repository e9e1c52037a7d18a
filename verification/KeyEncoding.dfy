/**
  The string keys of the source's maps. The indexes below use structured keys;
  these lemmas justify that for namespaces without a slash, which is what the
  Kubernetes API server accepts.
 */
module KeyEncoding {
  import opened Types

  function PrintNsName(n: NsName): string {
    n.ns + "/" + n.name
  }

  function PrintRouteKey(k: RouteKey): string {
    (if k.grpc then "GRPCRoute" else "HTTPRoute") + "|" + PrintNsName(NsName(k.ns, k.name))
  }

  /** The diff key of a policy target: its numeric kind, then its name. */
  function PrintTarget(k: RouteKey): string {
    (if k.grpc then "2" else "1") + "|" + PrintNsName(NsName(k.ns, k.name))
  }

  /** Two spellings split at the same first slash. */
  lemma SplitAtFirstSlash(x: string, y: string, x': string, y': string)
    requires '/' !in x && '/' !in x'
    requires x + "/" + y == x' + "/" + y'
    ensures x == x' && y == y'
  {
    var s := x + "/" + y;
    assert s[|x|] == '/' && s[|x'|] == '/';
    assert forall i | 0 <= i < |x| :: s[i] == x[i];
    assert forall i | 0 <= i < |x'| :: s[i] == x'[i];
    assert |x| == |x'|;
    assert x == s[..|x|] && x' == s[..|x'|];
    assert y == s[|x| + 1..] && y' == s[|x'| + 1..];
  }

  lemma NsNameInjective(a: NsName, b: NsName)
    requires '/' !in a.ns && '/' !in b.ns
    ensures PrintNsName(a) == PrintNsName(b) <==> a == b
  {
    if PrintNsName(a) == PrintNsName(b) {
      SplitAtFirstSlash(a.ns, a.name, b.ns, b.name);
    }
  }

  lemma RouteKeyInjective(a: RouteKey, b: RouteKey)
    requires '/' !in a.ns && '/' !in b.ns
    ensures PrintRouteKey(a) == PrintRouteKey(b) <==> a == b
    ensures PrintTarget(a) == PrintTarget(b) <==> a == b
  {
    var an, bn := NsName(a.ns, a.name), NsName(b.ns, b.name);
    if PrintRouteKey(a) == PrintRouteKey(b) {
      assert PrintRouteKey(a)[0] == PrintRouteKey(b)[0];
      assert PrintRouteKey(a)[10..] == PrintNsName(an) && PrintRouteKey(b)[10..] == PrintNsName(bn);
      NsNameInjective(an, bn);
    }
    if PrintTarget(a) == PrintTarget(b) {
      assert PrintTarget(a)[0] == PrintTarget(b)[0];
      assert PrintTarget(a)[2..] == PrintNsName(an) && PrintTarget(b)[2..] == PrintNsName(bn);
      NsNameInjective(an, bn);
    }
  }

  /** A slash in a namespace is enough to make two different keys collide. */
  lemma SlashCollides()
    ensures PrintNsName(NsName("a/b", "c")) == PrintNsName(NsName("a", "b/c"))
    ensures NsName("a/b", "c") != NsName("a", "b/c")
  {
    assert "a/b" + "/" + "c" == "a" + "/" + "b/c";
    assert |"a/b"| != |"a"|;
  }
}
