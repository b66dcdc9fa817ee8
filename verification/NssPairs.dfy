/**
 * `parse_nss_map` (src/nss_parser.cpp:32-90): the NSS as a free-order sequence
 * of key:value pairs.
 */
module NssPairs {
  import opened Errors
  import opened Names
  import opened Text
  import opened Wrappers

  datatype Pair = Pair(key: string, value: string)

  type Components = map<Component, string>

  /** A pair that may stand in an NSS: NSS bytes throughout, no known key in another case. */
  predicate GoodPair(p: Pair) {
    && p.key != "" && AllNss(p.key)
    && p.value != "" && AllNss(p.value)
    && (ComponentOf(p.key).Some? || ComponentOf(ToLower(p.key)).None?)
  }

  /** The same once more over the keys as texts: a key that is known in another case is refused. */
  lemma GoodPairWrittenOut(p: Pair)
    ensures GoodPair(p) <==>
            && p.key != "" && AllNss(p.key) && p.value != "" && AllNss(p.value)
            && (ToLower(p.key) in ["nt", "ci", "ct", "dt", "dp", "aa", "af", "ap", "as", "wt", "wi"] ==>
                  p.key in ["nt", "ci", "ct", "dt", "dp", "aa", "af", "ap", "as", "wt", "wi"])
  {
    KeysListed(p.key);
    KeysListed(ToLower(p.key));
  }

  predicate Known(p: Pair) {
    ComponentOf(p.key).Some?
  }

  /** The text of a pair sequence: all tokens joined by ':'. */
  function Tokens(ps: seq<Pair>): (tokens: seq<string>)
    ensures |tokens| == 2 * |ps|
  {
    seq(2 * |ps|, i requires 0 <= i < 2 * |ps| => if i % 2 == 0 then ps[i / 2].key else ps[i / 2].value)
  }

  function NssText(ps: seq<Pair>): string {
    if ps == [] then "" else Join(Tokens(ps), ':')
  }

  lemma NssTextOne(p: Pair)
    ensures NssText([p]) == p.key + ":" + p.value
  {
    assert Tokens([p]) == [p.key, p.value];
    assert [p.key, p.value][1..] == [p.value];
    assert Join([p.value], ':') == p.value;
    assert NssText([p]) == Join([p.key, p.value], ':') == p.key + [':'] + Join([p.value], ':');
  }

  lemma NssTextAppend(ps: seq<Pair>, p: Pair)
    requires ps != []
    ensures NssText(ps + [p]) == NssText(ps) + ":" + p.key + ":" + p.value
  {
    assert Tokens(ps + [p]) == Tokens(ps) + [p.key] + [p.value];
    JoinAppend(Tokens(ps), p.key, ':');
    JoinAppend(Tokens(ps) + [p.key], p.value, ':');
  }

  function PairUp(tokens: seq<string>): (ps: seq<Pair>)
    requires |tokens| % 2 == 0
    ensures |ps| == |tokens| / 2
  {
    seq(|tokens| / 2, i requires 0 <= i < |tokens| / 2 => Pair(tokens[2 * i], tokens[2 * i + 1]))
  }

  lemma PairUpTokens(tokens: seq<string>)
    requires |tokens| % 2 == 0
    ensures Tokens(PairUp(tokens)) == tokens
  {
  }

  lemma TokensPairUp(ps: seq<Pair>)
    ensures PairUp(Tokens(ps)) == ps
  {
  }

  // ---- the parser ---------------------------------------------------------

  /** One pass over the pairs: the first bad pair or repeated known key refuses them all. */
  function Collect(ps: seq<Pair>): Option<Components> {
    if ps == [] then Some(map[])
    else
      var last := ps[|ps| - 1];
      match Collect(ps[..|ps| - 1])
      case None => None
      case Some(m) =>
        if !GoodPair(last) then None
        else match ComponentOf(last.key)
             case None => Some(m)
             case Some(c) => if c in m then None else Some(m[c := last.value])
  }

  function ParseNss(nss: string): Result<Components> {
    if nss == "" then Ok(map[])
    else if !NoRqf(nss) then Err(InvalidNss)
    else
      var parts := Split(nss, ':');
      if |parts| % 2 != 0 then Err(InvalidNss)
      else match Collect(PairUp(parts))
           case None => Err(InvalidNss)
           case Some(m) => Ok(m)
  }

  method AllNssBytes(s: string) returns (r: bool)
    ensures r == AllNss(s)
  {
    for i := 0 to |s|
      invariant forall k :: 0 <= k < i ==> NssByte(s[k])
    {
      var ok := ComputeNssByte(s[i]);
      if !ok {
        return false;
      }
    }
    return true;
  }

  lemma {:induction false} CollectPrefix(ps: seq<Pair>, k: nat)
    requires k <= |ps| && Collect(ps[..k]).None?
    ensures Collect(ps).None?
  {
    if k < |ps| {
      assert ps[..|ps| - 1][..k] == ps[..k];
      CollectPrefix(ps[..|ps| - 1], k);
    } else {
      assert ps[..k] == ps;
    }
  }

  /** The tests on one pair, in the order of the source. */
  method CheckPair(p: Pair) returns (good: bool)
    ensures good == GoodPair(p)
  {
    if p.key == "" {
      return false;
    }
    var keyBytes := AllNssBytes(p.key);
    if !keyBytes || p.value == "" {
      return false;
    }
    var valueBytes := AllNssBytes(p.value);
    if !valueBytes {
      return false;
    }
    if ComponentOf(p.key).None? {
      var lowered := ComputeToLower(p.key);
      return ComponentOf(lowered).None?;
    }
    return true;
  }

  lemma CollectNext(ps: seq<Pair>, k: nat, m: Components)
    requires k < |ps| && Collect(ps[..k]) == Some(m)
    ensures var c := ComponentOf(ps[k].key);
            if !GoodPair(ps[k]) || (c.Some? && c.value in m) then Collect(ps).None?
            else Collect(ps[..k + 1]) == Some(if c.Some? then m[c.value := ps[k].value] else m)
  {
    assert ps[..k + 1][..k] == ps[..k];
    if Collect(ps[..k + 1]).None? {
      CollectPrefix(ps, k + 1);
    }
  }

  /** The stepping loop over the tokens, which fills the map in place and stops at the first fault. */
  method ComputeCollect(parts: seq<string>) returns (r: Option<Components>)
    requires |parts| % 2 == 0
    ensures r == Collect(PairUp(parts))
  {
    ghost var ps := PairUp(parts);
    var out: Components := map[];
    var i := 0;
    while i < |parts|
      invariant 0 <= i <= |parts| && i % 2 == 0
      invariant Collect(ps[..i / 2]) == Some(out)
    {
      var p := Pair(parts[i], parts[i + 1]);
      ghost var k := i / 2;
      assert i == 2 * k && ps[k] == p;
      CollectNext(ps, k, out);
      var good := CheckPair(p);
      if !good {
        return None;
      }
      var known := ComponentOf(p.key);
      if known.Some? {
        if known.value in out {
          return None;
        }
        out := out[known.value := p.value];
      }
      i := i + 2;
      assert i / 2 == k + 1;
    }
    assert ps[..i / 2] == ps;
    return Some(out);
  }

  method ComputeParseNss(nss: string) returns (r: Result<Components>)
    ensures r == ParseNss(nss)
  {
    if nss == "" {
      return Ok(map[]);
    }
    if !NoRqf(nss) {
      return Err(InvalidNss);
    }
    var parts := ComputeSplit(nss, ':');
    if |parts| % 2 != 0 {
      return Err(InvalidNss);
    }
    var collected := ComputeCollect(parts);
    return if collected.Some? then Ok(collected.value) else Err(InvalidNss);
  }

  // ---- which sequences are accepted --------------------------------------

  /** No known key stands twice. */
  predicate NoRepeats(ps: seq<Pair>) {
    forall i, j :: 0 <= i < j < |ps| && ps[i].key == ps[j].key ==> !Known(ps[i])
  }

  predicate WellFormed(ps: seq<Pair>) {
    (forall i :: 0 <= i < |ps| ==> GoodPair(ps[i])) && NoRepeats(ps)
  }

  /** `m` holds the value of every known pair and nothing else. */
  predicate Holds(m: Components, ps: seq<Pair>) {
    && (forall i :: 0 <= i < |ps| && Known(ps[i]) ==>
          ComponentOf(ps[i].key).value in m && m[ComponentOf(ps[i].key).value] == ps[i].value)
    && (forall c :: c in m ==> exists i :: 0 <= i < |ps| && ComponentOf(ps[i].key) == Some(c))
  }

  /** The pass accepts exactly the well-formed sequences, and keeps exactly their known pairs. */
  lemma {:induction false} CollectMeans(ps: seq<Pair>)
    ensures Collect(ps).Some? <==> WellFormed(ps)
    ensures Collect(ps).Some? ==> Holds(Collect(ps).value, ps)
  {
    if ps != [] {
      var init, last := ps[..|ps| - 1], ps[|ps| - 1];
      assert ps == init + [last];
      CollectMeans(init);
      CollectMeansNext(init, last);
    }
  }

  lemma CollectMeansNext(init: seq<Pair>, last: Pair)
    requires Collect(init).Some? <==> WellFormed(init)
    requires Collect(init).Some? ==> Holds(Collect(init).value, init)
    ensures Collect(init + [last]).Some? <==> WellFormed(init + [last])
    ensures Collect(init + [last]).Some? ==> Holds(Collect(init + [last]).value, init + [last])
  {
    CollectAppend(init, last);
    if WellFormed(init) {
      AppendWellFormed(init, last, Collect(init).value);
      AppendHolds(init, last, Collect(init).value);
    } else {
      IllFormedStays(init, last);
    }
  }

  lemma CollectAppend(init: seq<Pair>, last: Pair)
    ensures Collect(init + [last]) ==
            match Collect(init)
            case None => None
            case Some(m) =>
              if !GoodPair(last) then None
              else match ComponentOf(last.key)
                   case None => Some(m)
                   case Some(c) => if c in m then None else Some(m[c := last.value])
  {
    assert (init + [last])[..|init|] == init;
  }

  lemma IllFormedStays(init: seq<Pair>, last: Pair)
    requires !WellFormed(init)
    ensures !WellFormed(init + [last])
  {
    var ps := init + [last];
    assert forall i :: 0 <= i < |init| ==> ps[i] == init[i];
  }

  lemma AppendWellFormed(init: seq<Pair>, last: Pair, m: Components)
    requires WellFormed(init) && Holds(m, init)
    ensures WellFormed(init + [last]) <==> GoodPair(last) && (Known(last) ==> ComponentOf(last.key).value !in m)
  {
    var ps := init + [last];
    assert forall i :: 0 <= i < |init| ==> ps[i] == init[i];
    assert ps[|init|] == last;
    if Known(last) && ComponentOf(last.key).value in m {
      var i :| 0 <= i < |init| && ComponentOf(init[i].key) == ComponentOf(last.key);
      ComponentKeys(ComponentOf(last.key).value, last.key);
      ComponentKeys(ComponentOf(last.key).value, init[i].key);
      assert ps[i].key == ps[|init|].key && Known(ps[i]);
      assert !NoRepeats(ps);
    }
  }

  lemma AppendHolds(init: seq<Pair>, last: Pair, m: Components)
    requires Holds(m, init)
    ensures var c := ComponentOf(last.key);
            && (c.None? ==> Holds(m, init + [last]))
            && (c.Some? && c.value !in m ==> Holds(m[c.value := last.value], init + [last]))
  {
    var ps := init + [last];
    assert forall i :: 0 <= i < |init| ==> ps[i] == init[i];
    assert ps[|init|] == last;
  }

  // ---- tokens -------------------------------------------------------------

  /** Pairs whose tokens hold no separator: those that a text can carry. */
  predicate Separable(ps: seq<Pair>) {
    forall i :: 0 <= i < |ps| ==> Free(ps[i].key, ':') && Free(ps[i].value, ':')
  }

  lemma WellFormedSeparable(ps: seq<Pair>)
    requires WellFormed(ps)
    ensures Separable(ps)
  {
    forall i | 0 <= i < |ps| ensures Free(ps[i].key, ':') && Free(ps[i].value, ':') {
      assert GoodPair(ps[i]);
    }
  }

  lemma {:induction false} JoinNoRqf(parts: seq<string>)
    requires parts != [] && forall i :: 0 <= i < |parts| ==> AllNss(parts[i])
    ensures NoRqf(Join(parts, ':'))
  {
    if |parts| > 1 {
      JoinNoRqf(parts[1..]);
      assert NoRqf(parts[0]);
    } else {
      assert AllNss(parts[0]);
    }
  }

  lemma WellFormedNoRqf(ps: seq<Pair>)
    requires WellFormed(ps)
    ensures NoRqf(NssText(ps))
  {
    if ps != [] {
      forall i | 0 <= i < 2 * |ps| ensures AllNss(Tokens(ps)[i]) {
        assert GoodPair(ps[i / 2]);
      }
      JoinNoRqf(Tokens(ps));
    }
  }

  lemma TextSplits(ps: seq<Pair>)
    requires Separable(ps) && ps != []
    ensures Split(NssText(ps), ':') == Tokens(ps) && NssText(ps) != ""
  {
    forall i | 0 <= i < 2 * |ps| ensures Free(Tokens(ps)[i], ':') {
      assert Free(ps[i / 2].key, ':') && Free(ps[i / 2].value, ':');
    }
    SplitJoin(Tokens(ps), ':');
  }

  /** On the text of any separable pairs the parser answers for exactly those pairs. */
  lemma ParsePairs(ps: seq<Pair>)
    requires Separable(ps)
    ensures ParseNss(NssText(ps)) == match Collect(ps) case Some(m) => Ok(m) case None => Err(InvalidNss)
  {
    if ps != [] {
      TextSplits(ps);
      TokensPairUp(ps);
      CollectMeans(ps);
      if WellFormed(ps) {
        WellFormedNoRqf(ps);
      }
    }
  }

  /** A text is accepted exactly when it spells a well-formed pair sequence. */
  lemma ParseAcceptsWellFormed(nss: string)
    ensures ParseNss(nss).Ok? <==> exists ps :: WellFormed(ps) && nss == NssText(ps)
  {
    if nss == "" {
      assert WellFormed([]) && NssText([]) == nss;
    } else if ParseNss(nss).Ok? {
      var ps := PairUp(Split(nss, ':'));
      CollectMeans(ps);
      JoinSplit(nss, ':');
      PairUpTokens(Split(nss, ':'));
      assert WellFormed(ps) && nss == NssText(ps);
    }
    if exists ps :: WellFormed(ps) && nss == NssText(ps) {
      var ps :| WellFormed(ps) && nss == NssText(ps);
      WellFormedSeparable(ps);
      ParsePairs(ps);
      CollectMeans(ps);
    }
  }

  /** There is one code for every malformed NSS. */
  lemma RefusedNss(nss: string)
    ensures ParseNss(nss).Err? ==> ParseNss(nss) == Err(InvalidNss)
  {
  }

  /** One pair in another case, wherever it stands, spoils a whole NSS. */
  lemma CaseRule(ps: seq<Pair>, i: nat)
    requires Separable(ps) && i < |ps|
    requires ToLower(ps[i].key) in ["nt", "ci", "ct", "dt", "dp", "aa", "af", "ap", "as", "wt", "wi"]
    requires ps[i].key !in ["nt", "ci", "ct", "dt", "dp", "aa", "af", "ap", "as", "wt", "wi"]
    ensures ParseNss(NssText(ps)) == Err(InvalidNss)
  {
    GoodPairWrittenOut(ps[i]);
    ParsePairs(ps);
    CollectMeans(ps);
  }

  /** Every value that the parser keeps is a non-empty text of NSS bytes. */
  lemma KeptValues(nss: string, c: Component)
    requires ParseNss(nss).Ok? && c in ParseNss(nss).value
    ensures ParseNss(nss).value[c] != "" && AllNss(ParseNss(nss).value[c])
  {
    var ps := PairUp(Split(nss, ':'));
    CollectMeans(ps);
    var i :| 0 <= i < |ps| && ComponentOf(ps[i].key) == Some(c);
    assert GoodPair(ps[i]);
  }

  // ---- order independence -------------------------------------------------

  lemma {:induction false} CountedTwice<T>(s: seq<T>, x: T)
    ensures multiset(s)[x] >= 2 <==> exists i, j :: 0 <= i < j < |s| && s[i] == x && s[j] == x
  {
    if s != [] {
      var init, last := s[..|s| - 1], s[|s| - 1];
      assert s == init + [last];
      CountedTwice(init, x);
      if multiset(s)[x] >= 2 {
        if last == x {
          assert x in multiset(init);
          var i :| 0 <= i < |init| && init[i] == x;
          assert s[i] == x && s[|s| - 1] == x;
        } else {
          var i, j :| 0 <= i < j < |init| && init[i] == x && init[j] == x;
          assert s[i] == x && s[j] == x;
        }
      }
      if i, j :| 0 <= i < j < |s| && s[i] == x && s[j] == x {
        assert init[i] == x;
        assert x in multiset(init);
        if j < |init| {
          assert init[j] == x;
        }
      }
    }
  }

  lemma PermutedRepeats(ps: seq<Pair>, qs: seq<Pair>)
    requires multiset(ps) == multiset(qs) && NoRepeats(qs)
    ensures NoRepeats(ps)
  {
    forall i, j | 0 <= i < j < |ps| && ps[i].key == ps[j].key ensures !Known(ps[i]) {
      assert ps[i] in multiset(qs) && ps[j] in multiset(qs);
      if ps[i] == ps[j] {
        CountedTwice(ps, ps[i]);
        CountedTwice(qs, ps[i]);
        var i', j' :| 0 <= i' < j' < |qs| && qs[i'] == ps[i] && qs[j'] == ps[i];
        assert !Known(qs[i']);
      } else {
        var i' :| 0 <= i' < |qs| && qs[i'] == ps[i];
        var j' :| 0 <= j' < |qs| && qs[j'] == ps[j];
        assert i' != j' && qs[i'].key == qs[j'].key;
      }
    }
  }

  lemma PermutedWellFormed(ps: seq<Pair>, qs: seq<Pair>)
    requires multiset(ps) == multiset(qs) && WellFormed(qs)
    ensures WellFormed(ps)
  {
    PermutedRepeats(ps, qs);
    forall i | 0 <= i < |ps| ensures GoodPair(ps[i]) {
      assert ps[i] in multiset(qs);
    }
  }

  lemma PermutedHolds(ps: seq<Pair>, qs: seq<Pair>, m: Components)
    requires multiset(ps) == multiset(qs) && Holds(m, qs)
    ensures Holds(m, ps)
  {
    forall i | 0 <= i < |ps| && Known(ps[i])
      ensures ComponentOf(ps[i].key).value in m && m[ComponentOf(ps[i].key).value] == ps[i].value
    {
      assert ps[i] in multiset(qs);
    }
    forall c | c in m ensures exists i :: 0 <= i < |ps| && ComponentOf(ps[i].key) == Some(c) {
      var j :| 0 <= j < |qs| && ComponentOf(qs[j].key) == Some(c);
      assert qs[j] in multiset(ps);
    }
  }

  lemma HoldsUnique(ps: seq<Pair>, m: Components, n: Components)
    requires Holds(m, ps) && Holds(n, ps)
    ensures m == n
  {
    forall c | c in m ensures c in n && n[c] == m[c] {
      var i :| 0 <= i < |ps| && ComponentOf(ps[i].key) == Some(c);
    }
    forall c | c in n ensures c in m {
      var i :| 0 <= i < |ps| && ComponentOf(ps[i].key) == Some(c);
    }
  }

  /** The pass does not depend on the order of the pairs. */
  lemma CollectPermuted(ps: seq<Pair>, qs: seq<Pair>)
    requires multiset(ps) == multiset(qs)
    ensures Collect(ps) == Collect(qs)
  {
    CollectMeans(ps);
    CollectMeans(qs);
    if WellFormed(ps) {
      PermutedWellFormed(qs, ps);
      PermutedHolds(ps, qs, Collect(qs).value);
      HoldsUnique(ps, Collect(ps).value, Collect(qs).value);
    } else if WellFormed(qs) {
      PermutedWellFormed(ps, qs);
    }
  }

  /** The pairs with a known key, in their order. */
  function KnownPairs(ps: seq<Pair>): seq<Pair> {
    if ps == [] then []
    else KnownPairs(ps[..|ps| - 1]) + if Known(ps[|ps| - 1]) then [ps[|ps| - 1]] else []
  }

  predicate UnknownAreGood(ps: seq<Pair>) {
    forall i :: 0 <= i < |ps| && !Known(ps[i]) ==> GoodPair(ps[i])
  }

  lemma {:induction false} CollectKnown(ps: seq<Pair>)
    requires UnknownAreGood(ps)
    ensures Collect(ps) == Collect(KnownPairs(ps))
    ensures Separable(ps) ==> Separable(KnownPairs(ps))
  {
    if ps != [] {
      var init, last := ps[..|ps| - 1], ps[|ps| - 1];
      CollectKnown(init);
      if Known(last) {
        assert KnownPairs(ps)[..|KnownPairs(ps)| - 1] == KnownPairs(init);
      } else {
        assert KnownPairs(ps) == KnownPairs(init);
        assert GoodPair(last);
      }
    }
  }

  /**
   * Two texts give the same map, or are both refused, whenever their known pairs are the same up to
   * order: well-formed unknown pairs may stand anywhere.
   */
  lemma OrderIndependence(ps: seq<Pair>, qs: seq<Pair>)
    requires Separable(ps) && Separable(qs)
    requires UnknownAreGood(ps) && UnknownAreGood(qs)
    requires multiset(KnownPairs(ps)) == multiset(KnownPairs(qs))
    ensures ParseNss(NssText(ps)) == ParseNss(NssText(qs))
  {
    ParsePairs(ps);
    ParsePairs(qs);
    CollectKnown(ps);
    CollectKnown(qs);
    CollectPermuted(KnownPairs(ps), KnownPairs(qs));
  }

  /** Any order of the same pairs gives the same answer, malformed pairs included. */
  lemma PermutationIndependence(ps: seq<Pair>, qs: seq<Pair>)
    requires Separable(ps) && multiset(ps) == multiset(qs)
    ensures ParseNss(NssText(ps)) == ParseNss(NssText(qs))
  {
    forall i | 0 <= i < |qs| ensures Free(qs[i].key, ':') && Free(qs[i].value, ':') {
      assert qs[i] in multiset(ps);
    }
    ParsePairs(ps);
    ParsePairs(qs);
    CollectPermuted(ps, qs);
  }
}
