/**
  The Envoy-family route-name parser under its default format, a pattern
  anchored at the start only:
  httproute/<ns>/<name>, then optionally /rule/<digits>, then optionally /match/<digits>.
 */
module EnvoyRoute {
  import opened Types
  import opened Text

  /** What a parser of the chain extracts; -1 stands for an absent index. */
  datatype ParseResult = ParseResult(
    ns: string,
    name: string,
    kind: string,
    ruleIndex: int,
    matchIndex: int,
    rawRouteName: string,
    parserName: string)

  const PREFIX := "httproute/"
  const RULE := "/rule/"
  const MATCH := "/match/"
  const MAX_INT := 0x7fff_ffff_ffff_ffff  // Go's int on 64-bit platforms

  /** An optional labelled number: its digits ("" when absent) and what follows. */
  function OptionalNumber(prefix: string, s: string): (r: (string, string))
    ensures AllDigits(r.0)
    ensures if r.0 == "" then r.1 == s else s == prefix + (r.0 + r.1)
  {
    if prefix <= s then
      var body := s[|prefix|..];
      var n := DigitRun(body);
      if n == 0 then ("", s) else (body[..n], body[n..])
    else ("", s)
  }

  /** An optional capture as an index: -1 when absent or beyond Go's int. */
  function CapturedInt(digits: string): int
    requires AllDigits(digits)
  {
    if digits == "" || DecimalValue(digits) > MAX_INT then -1 else DecimalValue(digits)
  }

  datatype Named = Named(ns: string, name: string, tail: string)

  /** The mandatory part of the pattern: the prefix and the two segments. */
  function SplitNames(raw: string): Option<Named> {
    if !(PREFIX <= raw) then None
    else
      var rest := raw[|PREFIX|..];
      var i := IndexOf(rest, '/');
      if i == 0 || i == |rest| then None
      else
        var rest' := rest[i + 1..];
        var j := IndexOf(rest', '/');
        if j == 0 then None else Some(Named(rest[..i], rest'[..j], rest'[j..]))
  }

  function Parse(parserName: string, source: Option<string>): Option<ParseResult> {
    if source.None? then None
    else
      match SplitNames(source.value)
      case None => None
      case Some(named) =>
        var (rule, tail) := OptionalNumber(RULE, named.tail);
        var (matchNo, _) := OptionalNumber(MATCH, tail);
        Some(ParseResult(named.ns, named.name, "HTTPRoute", CapturedInt(rule), CapturedInt(matchNo), source.value, parserName))
  }

  predicate Segment(s: string) {
    s != "" && '/' !in s
  }

  /** `raw` is the prefix, the two segments, and a tail that does not extend the second. */
  predicate Composes(raw: string, n: Named) {
    && Segment(n.ns) && Segment(n.name) && (n.tail == "" || n.tail[0] == '/')
    && raw == PREFIX + (n.ns + ("/" + (n.name + n.tail)))
  }

  lemma SplitComposed(raw: string, n: Named)
    requires Composes(raw, n)
    ensures SplitNames(raw) == Some(n)
  {
    var rest := raw[|PREFIX|..];
    assert rest == n.ns + ("/" + (n.name + n.tail));
    IndexOfAt(n.ns, '/', "/" + (n.name + n.tail));
    assert rest[|n.ns| + 1..] == n.name + n.tail;
    IndexOfAt(n.name, '/', n.tail);
  }

  /** The first cut: up to a slash, and what follows it. */
  lemma CutAtSlash(s: string, i: nat)
    requires i < |s| && s[i] == '/'
    ensures s == s[..i] + ("/" + s[i + 1..])
  {
  }

  /** The second cut: up to the next slash or the end, slash kept. */
  lemma CutBeforeSlash(s: string, j: nat)
    requires 0 < j <= |s| && '/' !in s[..j] && (j < |s| ==> s[j] == '/')
    ensures s == s[..j] + s[j..] && Segment(s[..j])
    ensures s[j..] == "" || s[j..][0] == '/'
  {
    assert |s[..j]| == j && |s[j..]| == |s| - j;
  }

  lemma ComposeSplit(raw: string)
    requires SplitNames(raw).Some?
    ensures Composes(raw, SplitNames(raw).value)
  {
    var n := SplitNames(raw).value;
    var rest := raw[|PREFIX|..];
    var rest' := rest[|n.ns| + 1..];
    CutAtSlash(rest, |n.ns|);
    CutBeforeSlash(rest', IndexOf(rest', '/'));
    PutTogether(raw, rest, rest', n);
  }

  lemma PutTogether(raw: string, rest: string, rest': string, n: Named)
    requires PREFIX <= raw && rest == raw[|PREFIX|..]
    requires rest == n.ns + ("/" + rest') && rest' == n.name + n.tail
    ensures raw == PREFIX + (n.ns + ("/" + (n.name + n.tail)))
  {
  }

  /** Parsing, once the string is taken apart. */
  lemma ParseComposed(parserName: string, raw: string, n: Named)
    requires Composes(raw, n)
    ensures Parse(parserName, Some(raw)) ==
      Some(ParseResult(
        n.ns, n.name, "HTTPRoute",
        CapturedInt(OptionalNumber(RULE, n.tail).0), CapturedInt(OptionalNumber(MATCH, OptionalNumber(RULE, n.tail).1).0),
        raw, parserName))
  {
    SplitComposed(raw, n);
  }

  /** The parser accepts exactly the strings that name a route, and reads off that name. */
  lemma ParseAcceptsIff(parserName: string, raw: string, ns: string, name: string)
    ensures (exists tail :: Composes(raw, Named(ns, name, tail))) <==>
            exists r :: Parse(parserName, Some(raw)) == Some(r) && r.ns == ns && r.name == name
  {
    if tail :| Composes(raw, Named(ns, name, tail)) {
      SplitComposed(raw, Named(ns, name, tail));
      assert Parse(parserName, Some(raw)).Some?;
    }
    if r :| Parse(parserName, Some(raw)) == Some(r) && r.ns == ns && r.name == name {
      ComposeSplit(raw);
      assert Composes(raw, Named(ns, name, SplitNames(raw).value.tail));
    }
  }

  // ----- round trip -----

  function PrintNumber(prefix: string, n: Option<nat>): string {
    if n.None? then "" else prefix + Decimal(n.value)
  }

  function Print(ns: string, name: string, rule: Option<nat>, matchNo: Option<nat>): string {
    "httproute/" + (ns + ("/" + (name + (PrintNumber("/rule/", rule) + PrintNumber("/match/", matchNo)))))
  }

  /** The index a printed number comes back as. */
  function Bounded(n: Option<nat>): int {
    if n.None? || n.value > 9_223_372_036_854_775_807 then -1 else n.value
  }

  lemma CapturedDecimal(n: nat)
    ensures AllDigits(Decimal(n)) && CapturedInt(Decimal(n)) == Bounded(Some(n))
  {
    DecimalRoundTrip(n);
  }

  lemma PrintedNumber(prefix: string, n: nat, rest: string)
    requires rest == "" || !IsDigit(rest[0])
    ensures OptionalNumber(prefix, prefix + Decimal(n) + rest) == (Decimal(n), rest)
  {
    var s := prefix + Decimal(n) + rest;
    DecimalRoundTrip(n);
    assert s[|prefix|..] == Decimal(n) + rest;
    DigitRunAt(Decimal(n), rest);
  }

  /** The printed indices come back digit for digit. */
  lemma PrintedTail(rule: Option<nat>, matchNo: Option<nat>)
    ensures var m := PrintNumber(MATCH, matchNo);
      && OptionalNumber(RULE, PrintNumber(RULE, rule) + m) == (if rule.None? then "" else Decimal(rule.value), m)
      && OptionalNumber(MATCH, m).0 == if matchNo.None? then "" else Decimal(matchNo.value)
  {
    var m := PrintNumber(MATCH, matchNo);
    if rule.Some? {
      PrintedNumber(RULE, rule.value, m);
    } else {
      assert PrintNumber(RULE, rule) + m == m;
      assert RULE[1] == 'r' && MATCH[1] == 'm';
    }
    if matchNo.Some? {
      PrintedNumber(MATCH, matchNo.value, "");
      assert m == MATCH + Decimal(matchNo.value) + "";
    }
  }

  /** Printing a route reference and parsing it back loses nothing but indices beyond Go's int. */
  lemma ParsePrinted(parserName: string, ns: string, name: string, rule: Option<nat>, matchNo: Option<nat>)
    requires Segment(ns) && Segment(name)
    ensures var raw := Print(ns, name, rule, matchNo);
      Parse(parserName, Some(raw)) ==
      Some(ParseResult(ns, name, "HTTPRoute", Bounded(rule), Bounded(matchNo), raw, parserName))
  {
    var tail := PrintNumber(RULE, rule) + PrintNumber(MATCH, matchNo);
    PrintedTail(rule, matchNo);
    ParseComposed(parserName, Print(ns, name, rule, matchNo), Named(ns, name, tail));
    if rule.Some? {
      CapturedDecimal(rule.value);
    }
    if matchNo.Some? {
      CapturedDecimal(matchNo.value);
    }
  }
}
