/**
 * Printing and parsing of whole addresses: URN normalisation, the chain key at
 * the head of every NSS, and the round trip of the canonical form.
 */
module RoundTrips {
  import opened Addresses
  import opened ChainTheorems
  import opened Chains
  import opened Errors
  import opened Levels
  import opened Names
  import opened NssPairs
  import opened Numbers
  import opened Paths
  import opened Text
  import opened Wrappers

  // ---- URN normalisation --------------------------------------------------

  lemma PrefixEnds(p: string, nss: string)
    requires ToLower(p) == URN_PREFIX && Trimmed(nss)
    ensures |p| == 9 && p + nss != "" && Trimmed(p + nss) && !IsSpace((p + nss)[0])
  {
    assert ToLower(p)[0] == 'u' && ToLower(p)[8] == ':';
    assert (p + nss)[0] == p[0];
    assert (p + nss)[|p + nss| - 1] == if nss == "" then p[8] else nss[|nss| - 1];
  }

  /** What is left of the URN once the whitespace around it is trimmed. */
  lemma ParseTrimmed(src: string, p: string, nss: string, w: string, tail: string)
    requires ToLower(p) == URN_PREFIX && NoRqf(nss) && AllSpace(w)
    requires nss == "" || !IsSpace(nss[|nss| - 1])
    requires tail == "" || OpensRqf(tail[0])
    requires Trim(src) == p + (nss + w + tail)
    ensures ParseUrn(src) == ParseAddressNss(nss)
  {
    var t := Trim(src);
    assert |p| == 9 && t[..9] == p && t[9..] == nss + w + tail;
    StripRqfAt(nss + w, tail);
    TrimRightPad(nss, w);
  }

  lemma TailStays(tail: string, r: string) returns (t: string, r': string)
    requires tail != "" && OpensRqf(tail[0]) && AllSpace(r)
    ensures tail + r == t + r' && AllSpace(r') && t != "" && t[0] == tail[0] && !IsSpace(t[|t| - 1])
  {
    r' := TrimRightPart(tail + r);
    t := TrimRight(tail + r);
    assert (tail + r)[0] == tail[0];
    TrimRightKeeps(tail + r);
    assert t[0] == (t + r')[0];
  }

  /**
   * Whitespace around a URN, the case of its prefix, and an r/q/f part with whitespace before it change
   * neither the address nor the error code.
   */
  lemma UrnNormalisation(l: string, p: string, nss: string, w: string, tail: string, r: string)
    requires AllSpace(l) && AllSpace(w) && AllSpace(r)
    requires ToLower(p) == URN_PREFIX
    requires Trimmed(nss) && NoRqf(nss)
    requires tail == "" || OpensRqf(tail[0])
    ensures ParseUrn(l + p + nss + w + tail + r) == ParseNssText(nss)
  {
    var src := l + p + nss + w + tail + r;
    TrimFixed(nss);
    PrefixEnds(p, nss);
    if tail == "" {
      assert src == l + (p + nss) + (w + r);
      TrimSandwich(l, p + nss, w + r);
      assert p + nss == p + (nss + "" + "");
      ParseTrimmed(src, p, nss, "", "");
    } else {
      var t, r' := TailStays(tail, r);
      var core := p + (nss + w + t);
      assert src == l + p + nss + w + (tail + r);
      assert src == l + core + r';
      assert core[0] == (p + nss)[0] && core[|core| - 1] == t[|t| - 1];
      TrimSandwich(l, core, r');
      ParseTrimmed(src, p, nss, w, t);
    }
  }

  lemma UrnOfNss(nss: string)
    requires Trimmed(nss) && NoRqf(nss)
    ensures ParseUrn(URN_PREFIX + nss) == ParseAddressNss(nss)
  {
    assert ToLower(URN_PREFIX) == URN_PREFIX;
    assert URN_PREFIX + nss == "" + URN_PREFIX + nss + "" + "" + "";
    UrnNormalisation("", URN_PREFIX, nss, "", "", "");
    TrimFixed(nss);
  }

  lemma DerivationNotBlamed(a: AddressState, kind: DerivationType, dp: string)
    ensures SetDerivationTo(a, kind, dp) != Err(InvalidUrn)
  {
  }

  lemma FormatDomainNotBlamed(a: AddressState, m: Components)
    ensures SetFormatDomain(a, m) != Err(InvalidUrn)
  {
  }

  lemma ComponentsNotBlamed(m: Components)
    ensures FromComponents(m) != Err(InvalidUrn)
  {
    if BuildChain(m).Ok? {
      var s0 := DEFAULT_ADDRESS.(chain := BuildChain(m).value);
      DerivationNotBlamed(s0, NamedType(Get(m, DT)), Get(m, DP));
      var s1 := SetDerivation(s0, Get(m, DT), Get(m, DP));
      if s1.Ok? {
        FormatDomainNotBlamed(s1.value, m);
      }
    }
  }

  /** The parser blames the prefix exactly when the trimmed text lacks it. */
  lemma InvalidUrnExactly(src: string)
    ensures ParseUrn(src) == Err(InvalidUrn) <==> !exists p :: ToLower(p) == URN_PREFIX && p <= Trim(src)
  {
    var t := Trim(src);
    assert ToLower(URN_PREFIX) == URN_PREFIX;
    if HasPrefixFold(t, URN_PREFIX) {
      assert ToLower(t[..9]) == URN_PREFIX && t[..9] <= t;
      var nss := TrimRight(StripRqf(t[9..]));
      if ParseNss(nss).Ok? {
        ComponentsNotBlamed(ParseNss(nss).value);
      }
    }
    if p :| ToLower(p) == URN_PREFIX && p <= t {
      assert |p| == 9 && t[..9] == p;
    }
  }

  // ---- the chain key heads the NSS ---------------------------------------

  lemma {:induction false} FieldsDelimited(a: AddressState, cs: seq<Component>)
    ensures PrintedFields(a, cs) == "" || PrintedFields(a, cs)[0] == ':'
  {
    if cs != [] {
      FieldsDelimited(a, cs[..|cs| - 1]);
    }
  }

  /** `key` followed by the end of `nss` or by a separator. */
  ghost predicate DelimitedHead(key: string, nss: string) {
    exists rest :: nss == key + rest && (rest == "" || rest[0] == ':')
  }

  /** The NSS of an address starts with the key of its chain and of no other chain. */
  lemma NssNamesOneChain(a: AddressState, c: ChainState)
    requires ChainOk(a.chain) && ChainOk(c)
    ensures DelimitedHead(Key(c), Nss(a)) <==> c.network == a.chain.network && c.id == a.chain.id
  {
    FieldsDelimited(a, OPTIONAL);
    var fields := PrintedFields(a, OPTIONAL);
    if c.network == a.chain.network && c.id == a.chain.id {
      assert Key(c) == Key(a.chain);
      assert Nss(a) == Key(c) + fields;
    }
    if DelimitedHead(Key(c), Nss(a)) {
      var rest :| Nss(a) == Key(c) + rest && (rest == "" || rest[0] == ':');
      OneDelimitedKey(a.chain, c, fields, rest);
    }
  }

  // ---- the printed pairs --------------------------------------------------

  lemma ShownIsNss(a: AddressState, c: Component)
    requires AddressOk(a)
    ensures AllNss(Shown(a, c))
  {
    match c {
      case NT =>
        if a.chain.network.IsValid() {
          NetworkTypeSpelling(a.chain.network);
        }
      case CT =>
        if a.chain.coin.Some? {
          DecimalSound(a.chain.coin.value);
        }
      case DT =>
        if !IsRoot(a) {
          DerivationTypeSpelling(a.path.value.kind);
        }
      case DP =>
        if !IsRoot(a) {
          TemplateAgrees(a.path.value);
          FormatIsName(a.path.value.levels);
        }
      case AA =>
        if a.algorithm.IsValid() {
          AlgorithmSpelling(a.algorithm);
        }
      case AF =>
        if a.format.IsValid() {
          FormatSpelling(a.format);
        }
      case _ =>
    }
  }

  /** The pairs that the canonical form prints: the identity, then every set component of `cs`. */
  function PrintedPairs(a: AddressState, cs: seq<Component>): (ps: seq<Pair>)
    ensures ps != []
  {
    if cs == [] then KeyPairs(a.chain)
    else
      var c := cs[|cs| - 1];
      PrintedPairs(a, cs[..|cs| - 1]) + if Shown(a, c) == "" then [] else [Pair(c.Key(), Shown(a, c))]
  }

  lemma FieldAppended(head: string, fields: string, k: string, v: string)
    ensures head + fields + ":" + k + ":" + v == head + (fields + (":" + k + ":" + v))
  {
  }

  lemma {:induction false} PrintedText(a: AddressState, cs: seq<Component>)
    ensures NssText(PrintedPairs(a, cs)) == Key(a.chain) + PrintedFields(a, cs)
  {
    var head := Key(a.chain);
    if cs == [] {
      KeyIsText(a.chain);
      assert PrintedFields(a, cs) == "";
    } else {
      var init, c := cs[..|cs| - 1], cs[|cs| - 1];
      var ps, fields := PrintedPairs(a, init), PrintedFields(a, init);
      PrintedText(a, init);
      if Shown(a, c) == "" {
        assert PrintedPairs(a, cs) == ps && PrintedFields(a, cs) == fields;
      } else {
        var p := Pair(c.Key(), Shown(a, c));
        assert PrintedPairs(a, cs) == ps + [p] && PrintedFields(a, cs) == fields + (":" + p.key + ":" + p.value);
        NssTextAppend(ps, p);
        FieldAppended(head, fields, p.key, p.value);
      }
    }
  }

  predicate NoneTwice(cs: seq<Component>) {
    forall i, j :: 0 <= i < j < |cs| ==> cs[i] != cs[j]
  }

  /** The map that holds every component of `cs` that is shown. */
  function ShownMap(a: AddressState, cs: seq<Component>): Components {
    map c | c in cs && Shown(a, c) != "" :: Shown(a, c)
  }

  lemma {:induction false} PrintedCollect(a: AddressState, cs: seq<Component>)
    requires AddressOk(a) && Complete(a.chain)
    requires NoneTwice([NT, CI] + cs)
    ensures Collect(PrintedPairs(a, cs)) == Some(ShownMap(a, [NT, CI] + cs))
  {
    if cs == [] {
      PrintedKeyCollects(a);
      assert [NT, CI] + cs == [NT, CI];
    } else {
      var init, c := cs[..|cs| - 1], cs[|cs| - 1];
      LastApart([NT, CI], cs);
      NoneTwiceInit([NT, CI] + init, c);
      PrintedCollect(a, init);
      PrintedCollectNext(a, init, c);
    }
  }

  lemma LastApart(head: seq<Component>, cs: seq<Component>)
    requires cs != []
    ensures cs == cs[..|cs| - 1] + [cs[|cs| - 1]]
    ensures head + cs == head + cs[..|cs| - 1] + [cs[|cs| - 1]]
  {
  }

  lemma PrintedKeyCollects(a: AddressState)
    requires Complete(a.chain)
    ensures Collect(PrintedPairs(a, [])) == Some(ShownMap(a, [NT, CI]))
  {
    KeyCollects(a.chain);
    NetworkTypeSpelling(a.chain.network);
    assert ShownMap(a, [NT, CI]) == map[NT := a.chain.network.Str(), CI := a.chain.id];
  }

  lemma NoneTwiceInit(head: seq<Component>, c: Component)
    requires NoneTwice(head + [c])
    ensures NoneTwice(head) && c !in head
  {
    var all := head + [c];
    assert forall i :: 0 <= i < |head| ==> all[i] == head[i];
    assert all[|head|] == c;
  }

  lemma PrintedCollectNext(a: AddressState, init: seq<Component>, c: Component)
    requires AddressOk(a)
    requires c !in [NT, CI] + init
    requires Collect(PrintedPairs(a, init)) == Some(ShownMap(a, [NT, CI] + init))
    ensures Collect(PrintedPairs(a, init + [c])) == Some(ShownMap(a, [NT, CI] + init + [c]))
  {
    var ps := PrintedPairs(a, init);
    assert (init + [c])[..|init|] == init;
    ShownMapNext(a, [NT, CI] + init, c);
    if Shown(a, c) == "" {
      assert PrintedPairs(a, init + [c]) == ps + [] == ps;
    } else {
      assert PrintedPairs(a, init + [c]) == ps + [Pair(c.Key(), Shown(a, c))];
      ShownPairCollects(a, ps, ShownMap(a, [NT, CI] + init), c);
    }
  }

  lemma ShownMapNext(a: AddressState, cs: seq<Component>, c: Component)
    ensures ShownMap(a, cs + [c]) ==
            if Shown(a, c) == "" then ShownMap(a, cs) else ShownMap(a, cs)[c := Shown(a, c)]
  {
  }

  lemma ShownPairCollects(a: AddressState, ps: seq<Pair>, m: Components, c: Component)
    requires AddressOk(a) && Shown(a, c) != "" && c !in m && Collect(ps) == Some(m)
    ensures Collect(ps + [Pair(c.Key(), Shown(a, c))]) == Some(m[c := Shown(a, c)])
  {
    var p := Pair(c.Key(), Shown(a, c));
    ComponentKeys(c, c.Key());
    ShownIsNss(a, c);
    assert (ps + [p])[..|ps|] == ps;
  }

  /** The components of a printed NSS are exactly those that it shows. */
  lemma NssParses(a: AddressState)
    requires AddressOk(a) && Complete(a.chain)
    ensures ParseNss(Nss(a)) == Ok(ShownMap(a, [NT, CI] + OPTIONAL))
    ensures Shows(ShownMap(a, [NT, CI] + OPTIONAL), a)
  {
    NssIsPlain(a);
    OrderIsDistinct();
    PrintedCollect(a, OPTIONAL);
    PrintedText(a, OPTIONAL);
    ParsePairs(PrintedPairs(a, OPTIONAL));
    ShownMapShows(a);
  }

  lemma OrderIsDistinct()
    ensures NoneTwice([NT, CI] + OPTIONAL)
  {
    assert [NT, CI] + OPTIONAL == [NT, CI, CT, DT, DP, AA, AF, AP, AS, WT, WI];
  }

  lemma ShownMapShows(a: AddressState)
    ensures Shows(ShownMap(a, [NT, CI] + OPTIONAL), a)
  {
    forall c ensures c in [NT, CI] + OPTIONAL {
      EveryComponent(c);
    }
  }

  lemma EveryComponent(c: Component)
    ensures c in [NT, CI] + OPTIONAL
  {
    var all := [NT, CI] + OPTIONAL;
    assert all == [NT, CI, CT, DT, DP, AA, AF, AP, AS, WT, WI];
  }

  // ---- every shown component is read back --------------------------------

  /** `m` gives every component the text that `a` shows. */
  predicate Shows(m: Components, a: AddressState) {
    forall c :: Get(m, c) == Shown(a, c) && (c in m <==> Shown(a, c) != "")
  }

  lemma ChainReadBack(a: AddressState, m: Components)
    requires AddressOk(a) && Complete(a.chain) && Shows(m, a)
    ensures BuildChain(m) == Ok(a.chain)
  {
    var nt := a.chain.network;
    NetworkTypeSpelling(nt);
    NetworkTypeNames(nt);
    NameNormalized(nt.Str());
    AllNssTrimmed(a.chain.id);
    assert Get(m, NT) == nt.Str() && Get(m, CI) == a.chain.id;
    assert Get(m, CT) == Shown(a, CT);
    if a.chain.coin.Some? {
      CoinReadBack(a.chain.coin.value);
    }
  }

  lemma CoinReadBack(v: u32)
    ensures Decimal(v) != "" && ParseUint32(Trim(Decimal(v))) == Some(v)
  {
    DecimalSound(v);
    AllNssTrimmed(Decimal(v));
    ParsePrinted(v);
  }

  lemma TypeReadBack(kind: DerivationType)
    requires kind.IsValid()
    ensures NamedType(kind.Str()) == kind
  {
    DerivationTypeSpelling(kind);
    DerivationTypeNames(kind);
    NameNormalized(kind.Str());
  }

  lemma PathTextNormalized(p: Path)
    requires Coherent(p)
    ensures Trim(PathText(p)) == PathText(p) && ToLower(PathText(p)) == PathText(p)
  {
    TemplateAgrees(p);
    FormatIsName(p.levels);
    AllNssTrimmed(PathText(p));
    ToLowerFixed(PathText(p));
  }

  /** Setting type and path together parses the path under the type, from a fresh state. */
  lemma SetDerivationParses(s: AddressState, kind: DerivationType, dp: string)
    requires kind.IsValid()
    ensures SetDerivationTo(s, kind, dp) ==
            if kind.Root? then if Trim(dp) == "" then Ok(s.(path := Some(Empty(Root)))) else Err(InvalidDerivationPath)
            else match ParsePath(kind, ToLower(Trim(dp)))
                 case Ok(p) => Ok(s.(path := Some(p)))
                 case Err(e) => Err(e)
  {
    assert SetTypeTo(DEFAULT_ADDRESS, kind) == Ok(DEFAULT_ADDRESS.(path := Some(Empty(kind))));
  }

  lemma PathReadBack(p: Path, s: AddressState)
    requires Coherent(p) && p.kind.IsValid() && !p.kind.Root?
    ensures SetDerivationTo(s, p.kind, PathText(p)) ==
            if p.levels != [] then Ok(s.(path := Some(p))) else Err(InvalidDerivationPath)
  {
    SetDerivationParses(s, p.kind, PathText(p));
    PathTextNormalized(p);
    RoundTrip(p);
  }

  lemma RootReadBack(s: AddressState)
    ensures SetDerivation(s, "", "") == Ok(s.(path := Some(Empty(Root))))
  {
    assert NamedType("") == Root && Trim("") == "";
    SetDerivationParses(s, Root, "");
  }

  lemma NamedReadBack(p: Path, s: AddressState)
    requires Coherent(p) && p.kind.IsValid() && !p.kind.Root?
    ensures SetDerivation(s, p.kind.Str(), PathText(p)) ==
            if p.levels != [] then Ok(s.(path := Some(p))) else Err(InvalidDerivationPath)
  {
    TypeReadBack(p.kind);
    PathReadBack(p, s);
  }

  lemma RootShows(a: AddressState)
    requires IsRoot(a)
    ensures Shown(a, DT) == "" && Shown(a, DP) == "" && Canonical(a).path == Some(Empty(Root))
  {
  }

  lemma PathShows(a: AddressState)
    requires !IsRoot(a)
    ensures Shown(a, DT) == a.path.value.kind.Str() && Shown(a, DP) == PathText(a.path.value)
    ensures Canonical(a).path == a.path
  {
  }

  lemma DerivationReadBack(a: AddressState, s: AddressState)
    requires AddressOk(a)
    ensures SetDerivation(s, Shown(a, DT), Shown(a, DP)) ==
            if PathIsSet(a) then Ok(s.(path := Canonical(a).path)) else Err(InvalidDerivationPath)
  {
    if IsRoot(a) {
      RootShows(a);
      RootReadBack(s);
    } else {
      PathShows(a);
      NamedReadBack(a.path.value, s);
    }
  }

  /** The algorithm setter reads the name of an algorithm. */
  lemma AlgorithmWritten(s: AddressState, algorithm: Algorithm)
    requires algorithm.Unset? || algorithm.IsValid()
    ensures SetAlgorithm(s, algorithm.Str()) == Ok(s.(algorithm := algorithm))
  {
    if algorithm.IsValid() {
      AlgorithmSpelling(algorithm);
      AlgorithmNames(algorithm);
      NameNormalized(algorithm.Str());
    } else {
      assert Normalize("") == "";
    }
  }

  lemma FormatWritten(s: AddressState, format: Format)
    requires format.Unset? || format.IsValid()
    ensures SetFormat(s, format.Str()) == Ok(s.(format := format))
  {
    if format.IsValid() {
      FormatSpelling(format);
      FormatNames(format);
      NameNormalized(format.Str());
    } else {
      assert Normalize("") == "";
    }
  }

  lemma FormatDomainReadBack(a: AddressState, s: AddressState, m: Components)
    requires AddressOk(a) && Shows(m, a)
    ensures SetFormatDomain(s, m) == Ok(s.(algorithm := a.algorithm, format := a.format))
  {
    assert Get(m, AA) == Shown(a, AA) && Get(m, AF) == Shown(a, AF);
    AlgorithmWritten(s, a.algorithm);
    FormatWritten(s.(algorithm := a.algorithm), a.format);
  }

  lemma FreeFormsReadBack(a: AddressState, s: AddressState, m: Components)
    requires AddressOk(a) && Shows(m, a)
    ensures SetFreeForms(s, m) ==
            Ok(s.(prefix := a.prefix, suffix := a.suffix, walletType := a.walletType, walletId := a.walletId))
  {
    assert Get(m, AP) == a.prefix && Get(m, AS) == a.suffix && Get(m, WT) == a.walletType && Get(m, WI) == a.walletId;
    AllNssTrimmed(a.prefix);
    AllNssTrimmed(a.suffix);
    AllNssTrimmed(a.walletType);
    AllNssTrimmed(a.walletId);
  }

  lemma ComponentsReadBack(a: AddressState, m: Components)
    requires AddressOk(a) && Complete(a.chain) && Shows(m, a)
    ensures FromComponents(m) == if PathIsSet(a) then Ok(Canonical(a)) else Err(InvalidDerivationPath)
  {
    ChainReadBack(a, m);
    assert Get(m, DT) == Shown(a, DT) && Get(m, DP) == Shown(a, DP);
    var s0 := DEFAULT_ADDRESS.(chain := a.chain);
    DerivationReadBack(a, s0);
    if PathIsSet(a) {
      var s1 := s0.(path := Canonical(a).path);
      FormatDomainReadBack(a, s1, m);
      FreeFormsReadBack(a, s1.(algorithm := a.algorithm, format := a.format), m);
    }
  }

  // ---- the round trip -----------------------------------------------------

  /** Only NSS bytes and separators: nothing to trim, strip or refuse for its bytes. */
  predicate PlainText(s: string) {
    forall i :: 0 <= i < |s| ==> NssByte(s[i]) || s[i] == ':'
  }

  lemma PlainEnds(s: string)
    requires PlainText(s)
    ensures Trimmed(s) && NoRqf(s)
  {
  }

  lemma {:induction false} JoinPlain(parts: seq<string>)
    requires parts != [] && forall i :: 0 <= i < |parts| ==> AllNss(parts[i])
    ensures PlainText(Join(parts, ':'))
  {
    assert AllNss(parts[0]);
    if |parts| > 1 {
      JoinPlain(parts[1..]);
    }
  }

  lemma {:induction false} PrintedNss(a: AddressState, cs: seq<Component>)
    requires AddressOk(a)
    ensures forall i :: 0 <= i < |PrintedPairs(a, cs)| ==>
              AllNss(PrintedPairs(a, cs)[i].key) && AllNss(PrintedPairs(a, cs)[i].value)
  {
    if cs == [] {
      ComponentKeys(NT, "nt");
      ComponentKeys(CI, "ci");
      ShownIsNss(a, NT);
    } else {
      PrintedNss(a, cs[..|cs| - 1]);
      var c := cs[|cs| - 1];
      ComponentKeys(c, c.Key());
      ShownIsNss(a, c);
    }
  }

  lemma NssIsPlain(a: AddressState)
    requires AddressOk(a)
    ensures PlainText(Nss(a)) && Separable(PrintedPairs(a, OPTIONAL))
  {
    var ps := PrintedPairs(a, OPTIONAL);
    PrintedText(a, OPTIONAL);
    PrintedNss(a, OPTIONAL);
    forall i | 0 <= i < |Tokens(ps)| ensures AllNss(Tokens(ps)[i]) {
      assert AllNss(ps[i / 2].key) && AllNss(ps[i / 2].value);
    }
    JoinPlain(Tokens(ps));
    forall i | 0 <= i < |ps| ensures Free(ps[i].key, ':') && Free(ps[i].value, ':') {
      assert AllNss(ps[i].key) && AllNss(ps[i].value);
    }
  }

  /** Parsing the URN of a reachable address is parsing its NSS. */
  lemma UrnIsNss(a: AddressState)
    requires AddressOk(a)
    ensures ParseUrn(Urn(a)) == ParseAddressNss(Nss(a)) == ParseNssText(Nss(a))
  {
    NssIsPlain(a);
    PlainEnds(Nss(a));
    UrnOfNss(Nss(a));
    TrimFixed(Nss(a));
  }

  /**
   * A reachable address with both halves of its identity parses back from its URN, to itself in the
   * parser's representation, exactly when its path is set.
   */
  lemma UrnRoundTrip(a: AddressState)
    requires AddressOk(a) && Complete(a.chain)
    ensures ParseUrn(Urn(a)) == if PathIsSet(a) then Ok(Canonical(a)) else Err(InvalidDerivationPath)
  {
    UrnIsNss(a);
    NssParses(a);
    ComponentsReadBack(a, ShownMap(a, [NT, CI] + OPTIONAL));
  }

  lemma {:induction false} IncompleteRefused(a: AddressState, cs: seq<Component>)
    requires AddressOk(a) && !Complete(a.chain)
    ensures Collect(PrintedPairs(a, cs)).None?
  {
    if cs == [] {
      var ps := KeyPairs(a.chain);
      assert !GoodPair(ps[0]) || !GoodPair(ps[1]);
      CollectMeans(ps);
    } else {
      var ps, init := PrintedPairs(a, cs), PrintedPairs(a, cs[..|cs| - 1]);
      IncompleteRefused(a, cs[..|cs| - 1]);
      assert ps == init || ps[..|ps| - 1] == init;
    }
  }

  /** Without a network or without a chain id the printed form does not parse. */
  lemma IncompleteDoesNotParse(a: AddressState)
    requires AddressOk(a) && !Complete(a.chain)
    ensures ParseUrn(Urn(a)) == Err(InvalidNss)
  {
    UrnIsNss(a);
    NssIsPlain(a);
    PrintedText(a, OPTIONAL);
    ParsePairs(PrintedPairs(a, OPTIONAL));
    IncompleteRefused(a, OPTIONAL);
  }

  /** Any address NSS gives back its chain, coin type included. */
  lemma ChainOfNss(a: AddressState)
    requires AddressOk(a) && Complete(a.chain)
    ensures FromNss(Nss(a)) == Ok(a.chain)
  {
    NssIsPlain(a);
    PlainEnds(Nss(a));
    TrimFixed(Nss(a));
    NssParses(a);
    ChainReadBack(a, ShownMap(a, [NT, CI] + OPTIONAL));
  }

  // ---- any order ----------------------------------------------------------

  lemma {:induction false} PrintedAreKnown(a: AddressState, cs: seq<Component>)
    ensures KnownPairs(PrintedPairs(a, cs)) == PrintedPairs(a, cs)
  {
    var ps := PrintedPairs(a, cs);
    if cs == [] {
      ComponentKeys(NT, "nt");
      ComponentKeys(CI, "ci");
      assert ps[..1] == [ps[0]] && ps[..1][..0] == [];
      assert KnownPairs(ps[..1]) == [ps[0]];
    } else {
      var init := PrintedPairs(a, cs[..|cs| - 1]);
      PrintedAreKnown(a, cs[..|cs| - 1]);
      ComponentKeys(cs[|cs| - 1], cs[|cs| - 1].Key());
      assert ps == init || ps[..|ps| - 1] == init;
    }
  }

  lemma WellFormedIsPlain(ps: seq<Pair>)
    requires WellFormed(ps)
    ensures PlainText(NssText(ps))
  {
    if ps != [] {
      forall i | 0 <= i < |Tokens(ps)| ensures AllNss(Tokens(ps)[i]) {
        assert GoodPair(ps[i / 2]);
      }
      JoinPlain(Tokens(ps));
    }
  }

  lemma WellFormedUrn(qs: seq<Pair>)
    requires WellFormed(qs)
    ensures ParseUrn(URN_PREFIX + NssText(qs)) == ParseAddressNss(NssText(qs))
  {
    WellFormedIsPlain(qs);
    PlainEnds(NssText(qs));
    UrnOfNss(NssText(qs));
  }

  lemma SamePairsSameMap(a: AddressState, qs: seq<Pair>)
    requires AddressOk(a)
    requires Separable(qs) && UnknownAreGood(qs)
    requires multiset(KnownPairs(qs)) == multiset(PrintedPairs(a, OPTIONAL))
    ensures ParseNss(NssText(qs)) == ParseNss(Nss(a))
  {
    var ps := PrintedPairs(a, OPTIONAL);
    NssIsPlain(a);
    PrintedText(a, OPTIONAL);
    PrintedAreKnown(a, OPTIONAL);
    forall i | 0 <= i < |ps| ensures Known(ps[i]) {
      AllKnown(ps, i);
    }
    OrderIndependence(qs, ps);
  }

  lemma {:induction false} AllKnown(ps: seq<Pair>, i: nat)
    requires i < |ps| && KnownPairs(ps) == ps
    ensures Known(ps[i])
  {
    var init := ps[..|ps| - 1];
    KnownPairsLength(init);
    assert Known(ps[|ps| - 1]);
    if i < |init| {
      assert KnownPairs(ps)[..|ps| - 1] == KnownPairs(init);
      AllKnown(init, i);
    }
  }

  lemma {:induction false} KnownPairsLength(ps: seq<Pair>)
    ensures |KnownPairs(ps)| <= |ps|
  {
    if ps != [] {
      KnownPairsLength(ps[..|ps| - 1]);
    }
  }

  /** A URN that spells the components of an address in any order, among unknown pairs, is that address. */
  lemma AnyOrderParses(a: AddressState, qs: seq<Pair>)
    requires AddressOk(a) && Complete(a.chain)
    requires Separable(qs) && UnknownAreGood(qs)
    requires multiset(KnownPairs(qs)) == multiset(PrintedPairs(a, OPTIONAL))
    ensures ParseUrn(URN_PREFIX + NssText(qs)) == ParseUrn(Urn(a))
  {
    UrnIsNss(a);
    SamePairsSameMap(a, qs);
    assert WellFormed(qs) by {
      NssParses(a);
      ParsePairs(qs);
      CollectMeans(qs);
    }
    WellFormedUrn(qs);
  }
}
