/**
 * The texts that the parsers accept (src/parser.cpp, src/chain.cpp) and what each of them means, described
 * without running a parser.
 */
module Languages {
  import opened Addresses
  import opened Chains
  import opened Errors
  import Levels
  import opened Names
  import opened NssPairs
  import opened Numbers
  import PathShapes
  import opened Paths
  import opened RoundTrips
  import opened Runs
  import opened Text
  import opened Verdicts
  import opened Wrappers

  // ---- the components -----------------------------------------------------

  /** A value of the parsed map: not empty, and of NSS bytes, so that there is nothing to trim. */
  predicate Kept(m: Components) {
    forall c :: c in m ==> m[c] != "" && AllNss(m[c])
  }

  predicate GoodChain(m: Components) {
    && NT in m && NetworkTypeOf(ToLower(m[NT])).IsValid()
    && CI in m
    && (CT in m ==> ParseUint32(m[CT]).Some?)
  }

  /** The derivation type that the map names; without one it is root. */
  function NamedKind(m: Components): DerivationType {
    if DT in m then DerivationTypeOf(ToLower(m[DT])) else Root
  }

  /** A registered type, and a path of its grammar in any case, which is missing exactly for root. */
  ghost predicate GoodDerivation(m: Components) {
    var kind := NamedKind(m);
    && kind.IsValid()
    && (kind.Root? <==> DP !in m)
    && (DP in m ==> PathShapes.InLanguage(kind, ToLower(m[DP])))
  }

  predicate GoodFormatDomain(m: Components) {
    && (AA in m ==> AlgorithmOf(ToLower(m[AA])).IsValid())
    && (AF in m ==> FormatOf(ToLower(m[AF])).IsValid())
  }

  ghost predicate GoodComponents(m: Components) {
    GoodChain(m) && GoodDerivation(m) && GoodFormatDomain(m)
  }

  lemma KeptValue(m: Components, c: Component)
    requires Kept(m)
    ensures Trim(Get(m, c)) == Get(m, c) && AllNss(Get(m, c)) && (Get(m, c) == "" <==> c !in m)
    ensures Normalize(Get(m, c)) == ToLower(Get(m, c))
  {
    AllNssTrimmed(Get(m, c));
  }

  lemma ChainAccepted(m: Components)
    requires Kept(m)
    ensures BuildChain(m).Ok? <==> GoodChain(m)
  {
    KeptValue(m, NT);
    KeptValue(m, CI);
    KeptValue(m, CT);
  }

  lemma KindNamed(m: Components)
    requires Kept(m)
    ensures NamedType(Get(m, DT)) == NamedKind(m)
  {
    KeptValue(m, DT);
  }

  lemma EmptyPathRefused(kind: DerivationType)
    requires kind.IsValid() && !kind.Root?
    ensures !PathShapes.InLanguage(kind, "")
  {
    PathShapes.LanguageIsValidated(kind, "");
    assert Levels.ParseLevels("").None?;
  }

  lemma PathAccepted(a: AddressState, kind: DerivationType, dp: string)
    requires kind.IsValid() && Trim(dp) == dp
    ensures SetDerivationTo(a, kind, dp).Ok? <==>
            if kind.Root? then dp == "" else PathShapes.InLanguage(kind, ToLower(dp))
  {
    SetDerivationParses(a, kind, dp);
    if !kind.Root? {
      ParseAcceptsLanguage(kind, ToLower(dp));
    }
  }

  lemma UnregisteredRefused(a: AddressState, kind: DerivationType, dp: string)
    requires !kind.IsValid()
    ensures SetDerivationTo(a, kind, dp).Err?
  {
  }

  lemma DerivationAccepted(a: AddressState, m: Components)
    requires Kept(m)
    ensures SetDerivation(a, Get(m, DT), Get(m, DP)).Ok? <==> GoodDerivation(m)
  {
    var kind, dp := NamedKind(m), Get(m, DP);
    KindNamed(m);
    KeptValue(m, DP);
    if kind.IsValid() {
      PathAccepted(a, kind, dp);
      if !kind.Root? {
        EmptyPathRefused(kind);
      }
    } else {
      UnregisteredRefused(a, kind, dp);
    }
  }

  lemma AlgorithmAccepted(a: AddressState, m: Components)
    requires Kept(m)
    ensures SetAlgorithm(a, Get(m, AA)).Ok? <==> (AA in m ==> AlgorithmOf(ToLower(m[AA])).IsValid())
  {
    KeptValue(m, AA);
  }

  lemma FormatAccepted(a: AddressState, m: Components)
    requires Kept(m)
    ensures SetFormat(a, Get(m, AF)).Ok? <==> (AF in m ==> FormatOf(ToLower(m[AF])).IsValid())
  {
    KeptValue(m, AF);
  }

  lemma FormatDomainAccepted(a: AddressState, m: Components)
    requires Kept(m)
    ensures SetFormatDomain(a, m).Ok? <==> GoodFormatDomain(m)
  {
    AlgorithmAccepted(a, m);
    if SetAlgorithm(a, Get(m, AA)).Ok? {
      FormatAccepted(SetAlgorithm(a, Get(m, AA)).value, m);
    }
  }

  lemma FreeFormsAccepted(a: AddressState, m: Components)
    requires Kept(m)
    ensures SetFreeForms(a, m).Ok?
  {
    KeptValue(m, AP);
    KeptValue(m, AS);
    KeptValue(m, WT);
    KeptValue(m, WI);
  }

  /** The maps of which an address is built. */
  lemma ComponentsAccepted(m: Components)
    requires Kept(m)
    ensures FromComponents(m).Ok? <==> GoodComponents(m)
  {
    ChainAccepted(m);
    if BuildChain(m).Ok? {
      var s0 := DEFAULT_ADDRESS.(chain := BuildChain(m).value);
      DerivationAccepted(s0, m);
      var s1 := SetDerivation(s0, Get(m, DT), Get(m, DP));
      if s1.Ok? {
        FormatDomainAccepted(s1.value, m);
        if SetFormatDomain(s1.value, m).Ok? {
          FreeFormsAccepted(SetFormatDomain(s1.value, m).value, m);
        }
      }
    }
  }

  // ---- what the components mean -------------------------------------------

  /** The chain that good components name. */
  function ReadChain(m: Components): ChainState
    requires GoodChain(m)
  {
    ChainState(NetworkTypeOf(ToLower(m[NT])), m[CI], if CT in m then ParseUint32(m[CT]) else None)
  }

  /** The path that good components name: the levels that the folded dp spells. */
  function ReadPath(m: Components): Path {
    if DP !in m then Empty(Root)
    else match ReadLevels(NamedKind(m), ToLower(m[DP]))
         case Some(levels) => PathOf(NamedKind(m), levels)
         case None => Empty(Root)
  }

  /** The address that good components name, field by field; the free forms stand verbatim. */
  function Reading(m: Components): AddressState
    requires GoodChain(m)
  {
    AddressState(
      ReadChain(m), Some(ReadPath(m)), AlgorithmOf(ToLower(Get(m, AA))), FormatOf(ToLower(Get(m, AF))),
      Get(m, AP), Get(m, AS), Get(m, WT), Get(m, WI))
  }

  lemma ChainRead(m: Components)
    requires Kept(m) && GoodChain(m)
    ensures BuildChain(m) == Ok(ReadChain(m))
  {
    KeptValue(m, NT);
    KeptValue(m, CI);
    KeptValue(m, CT);
  }

  lemma PathRead(a: AddressState, kind: DerivationType, dp: string)
    requires kind.IsValid() && !kind.Root? && Trim(dp) == dp && PathShapes.InLanguage(kind, ToLower(dp))
    ensures ReadLevels(kind, ToLower(dp)).Some?
    ensures SetDerivationTo(a, kind, dp) ==
            Ok(a.(path := Some(PathOf(kind, ReadLevels(kind, ToLower(dp)).value))))
  {
    SetDerivationParses(a, kind, dp);
    ParseAcceptsLanguage(kind, ToLower(dp));
  }

  lemma DerivationRead(a: AddressState, m: Components)
    requires Kept(m) && GoodDerivation(m)
    ensures SetDerivation(a, Get(m, DT), Get(m, DP)) == Ok(a.(path := Some(ReadPath(m))))
  {
    KindNamed(m);
    KeptValue(m, DP);
    if NamedKind(m).Root? {
      SetDerivationParses(a, Root, "");
    } else {
      PathRead(a, NamedKind(m), m[DP]);
    }
  }

  lemma AlgorithmRead(a: AddressState, m: Components)
    requires Kept(m) && (AA in m ==> AlgorithmOf(ToLower(m[AA])).IsValid())
    ensures SetAlgorithm(a, Get(m, AA)) == Ok(a.(algorithm := AlgorithmOf(ToLower(Get(m, AA)))))
  {
    KeptValue(m, AA);
  }

  lemma FormatRead(a: AddressState, m: Components)
    requires Kept(m) && (AF in m ==> FormatOf(ToLower(m[AF])).IsValid())
    ensures SetFormat(a, Get(m, AF)) == Ok(a.(format := FormatOf(ToLower(Get(m, AF)))))
  {
    KeptValue(m, AF);
  }

  lemma FreeFormsRead(a: AddressState, m: Components)
    requires Kept(m)
    ensures SetFreeForms(a, m) ==
            Ok(a.(prefix := Get(m, AP), suffix := Get(m, AS), walletType := Get(m, WT), walletId := Get(m, WI)))
  {
    KeptValue(m, AP);
    KeptValue(m, AS);
    KeptValue(m, WT);
    KeptValue(m, WI);
  }

  /** The address that the parser builds is the one that the components name. */
  lemma ComponentsRead(m: Components)
    requires Kept(m) && GoodComponents(m)
    ensures FromComponents(m) == Ok(Reading(m))
  {
    ChainRead(m);
    var s0 := DEFAULT_ADDRESS.(chain := ReadChain(m));
    DerivationRead(s0, m);
    var s1 := s0.(path := Some(ReadPath(m)));
    AlgorithmRead(s1, m);
    var s2 := s1.(algorithm := AlgorithmOf(ToLower(Get(m, AA))));
    FormatRead(s2, m);
    FreeFormsRead(s2.(format := FormatOf(ToLower(Get(m, AF)))), m);
  }

  // ---- which fault is reported --------------------------------------------

  lemma ChainFault(m: Components)
    requires Kept(m)
    ensures BuildChain(m) ==
            if NT !in m then Err(MissingNetworkType)
            else if !NetworkTypeOf(ToLower(m[NT])).IsValid() then Err(InvalidNetworkType)
            else if CI !in m then Err(MissingChainId)
            else if CT in m && ParseUint32(m[CT]).None? then Err(InvalidCoinType)
            else Ok(ReadChain(m))
  {
    KeptValue(m, NT);
    KeptValue(m, CI);
    KeptValue(m, CT);
  }

  lemma RefusedDerivation(a: AddressState, kind: DerivationType, dp: string)
    requires SetDerivationTo(a, kind, dp).Err?
    ensures SetDerivationTo(a, kind, dp) == Err(if kind.IsValid() then InvalidDerivationPath else InvalidDerivationType)
  {
    if kind.IsValid() {
      SetDerivationParses(a, kind, dp);
    }
  }

  lemma DerivationFault(a: AddressState, m: Components)
    requires Kept(m)
    ensures SetDerivation(a, Get(m, DT), Get(m, DP)) ==
            if !NamedKind(m).IsValid() then Err(InvalidDerivationType)
            else if !GoodDerivation(m) then Err(InvalidDerivationPath)
            else Ok(a.(path := Some(ReadPath(m))))
  {
    DerivationAccepted(a, m);
    KindNamed(m);
    if GoodDerivation(m) {
      DerivationRead(a, m);
    } else {
      RefusedDerivation(a, NamedKind(m), Get(m, DP));
    }
  }

  lemma AlgorithmFault(a: AddressState, m: Components)
    requires Kept(m)
    ensures SetAlgorithm(a, Get(m, AA)) ==
            if AA in m && !AlgorithmOf(ToLower(m[AA])).IsValid() then Err(InvalidAlgorithm)
            else Ok(a.(algorithm := AlgorithmOf(ToLower(Get(m, AA)))))
  {
    KeptValue(m, AA);
  }

  lemma FormatFault(a: AddressState, m: Components)
    requires Kept(m)
    ensures SetFormat(a, Get(m, AF)) ==
            if AF in m && !FormatOf(ToLower(m[AF])).IsValid() then Err(InvalidFormat)
            else Ok(a.(format := FormatOf(ToLower(Get(m, AF)))))
  {
    KeptValue(m, AF);
  }

  lemma FormatDomainFault(a: AddressState, m: Components)
    requires Kept(m)
    ensures SetFormatDomain(a, m) ==
            if AA in m && !AlgorithmOf(ToLower(m[AA])).IsValid() then Err(InvalidAlgorithm)
            else if AF in m && !FormatOf(ToLower(m[AF])).IsValid() then Err(InvalidFormat)
            else Ok(a.(algorithm := AlgorithmOf(ToLower(Get(m, AA))), format := FormatOf(ToLower(Get(m, AF)))))
  {
    AlgorithmFault(a, m);
    FormatFault(a.(algorithm := AlgorithmOf(ToLower(Get(m, AA)))), m);
  }

  /** The answer to every map of components: the first fault in this order, or the address that they name. */
  lemma ComponentsAnswer(m: Components)
    requires Kept(m)
    ensures FromComponents(m) ==
            if NT !in m then Err(MissingNetworkType)
            else if !NetworkTypeOf(ToLower(m[NT])).IsValid() then Err(InvalidNetworkType)
            else if CI !in m then Err(MissingChainId)
            else if CT in m && ParseUint32(m[CT]).None? then Err(InvalidCoinType)
            else if !NamedKind(m).IsValid() then Err(InvalidDerivationType)
            else if !GoodDerivation(m) then Err(InvalidDerivationPath)
            else if AA in m && !AlgorithmOf(ToLower(m[AA])).IsValid() then Err(InvalidAlgorithm)
            else if AF in m && !FormatOf(ToLower(m[AF])).IsValid() then Err(InvalidFormat)
            else Ok(Reading(m))
  {
    ChainFault(m);
    if GoodChain(m) {
      var s0 := DEFAULT_ADDRESS.(chain := ReadChain(m));
      DerivationFault(s0, m);
      if GoodDerivation(m) {
        FormatDomainFault(s0.(path := Some(ReadPath(m))), m);
        if GoodFormatDomain(m) {
          ComponentsRead(m);
        }
      }
    }
  }

  // ---- the texts ----------------------------------------------------------

  /** The text of well-formed pairs, whatever their order, whose known ones are good components. */
  ghost predicate SpellsAddress(nss: string, ps: seq<Pair>, m: Components) {
    WellFormed(ps) && nss == NssText(ps) && Holds(m, ps) && GoodComponents(m)
  }

  lemma HeldIsKept(ps: seq<Pair>, m: Components)
    requires WellFormed(ps) && Holds(m, ps)
    ensures Kept(m)
  {
    forall c | c in m ensures m[c] != "" && AllNss(m[c]) {
      var i :| 0 <= i < |ps| && ComponentOf(ps[i].key) == Some(c);
      assert GoodPair(ps[i]);
    }
  }

  lemma SpelledParses(nss: string, ps: seq<Pair>, m: Components)
    requires WellFormed(ps) && nss == NssText(ps) && Holds(m, ps)
    ensures ParseAddressNss(nss) == FromComponents(m)
  {
    CollectMeans(ps);
    HoldsUnique(ps, m, Collect(ps).value);
    WellFormedSeparable(ps);
    ParsePairs(ps);
  }

  lemma ParsedIsSpelled(nss: string) returns (ps: seq<Pair>, m: Components)
    requires ParseNss(nss).Ok?
    ensures WellFormed(ps) && nss == NssText(ps) && Holds(m, ps)
  {
    ParseAcceptsWellFormed(nss);
    ps :| WellFormed(ps) && nss == NssText(ps);
    CollectMeans(ps);
    m := Collect(ps).value;
  }

  lemma SpelledAccepted(nss: string, ps: seq<Pair>, m: Components)
    requires WellFormed(ps) && nss == NssText(ps) && Holds(m, ps)
    ensures ParseAddressNss(nss).Ok? <==> GoodComponents(m)
  {
    SpelledParses(nss, ps, m);
    HeldIsKept(ps, m);
    ComponentsAccepted(m);
  }

  lemma AcceptedHasMap(nss: string)
    requires ParseAddressNss(nss).Ok?
    ensures ParseNss(nss).Ok?
  {
  }

  lemma AcceptedIsSpelled(nss: string) returns (ps: seq<Pair>, m: Components)
    requires ParseAddressNss(nss).Ok?
    ensures SpellsAddress(nss, ps, m)
  {
    AcceptedHasMap(nss);
    ps, m := ParsedIsSpelled(nss);
    SpelledAccepted(nss, ps, m);
  }

  /** `parse_address_nss` accepts a text exactly when it spells good components. */
  lemma NssLanguage(nss: string)
    ensures ParseAddressNss(nss).Ok? <==> exists ps, m :: SpellsAddress(nss, ps, m)
  {
    if ParseAddressNss(nss).Ok? {
      var ps, m := AcceptedIsSpelled(nss);
    }
    if ps, m :| SpellsAddress(nss, ps, m) {
      SpelledAccepted(nss, ps, m);
    }
  }

  /** The answer to every NSS: that to the components it spells, or the one code of malformed texts. */
  lemma NssAnswer(nss: string)
    ensures (exists ps :: WellFormed(ps) && nss == NssText(ps)) || ParseAddressNss(nss) == Err(InvalidNss)
    ensures forall ps, m :: WellFormed(ps) && nss == NssText(ps) && Holds(m, ps) ==>
              ParseAddressNss(nss) == FromComponents(m)
  {
    ParseAcceptsWellFormed(nss);
    RefusedNss(nss);
    forall ps, m | WellFormed(ps) && nss == NssText(ps) && Holds(m, ps)
      ensures ParseAddressNss(nss) == FromComponents(m)
    {
      SpelledParses(nss, ps, m);
    }
  }

  /** What may stand around an NSS in a URN: the prefix in any case, space, and an r/q/f part. */
  predicate Frames(text: string, p: string, nss: string, w: string, tail: string) {
    && text == p + nss + w + tail
    && ToLower(p) == URN_PREFIX
    && AllSpace(w)
    && (tail == "" || OpensRqf(tail[0]))
  }

  /** An NSS that keeps no space at its end and no r/q/f part. */
  predicate Bare(nss: string) {
    NoRqf(nss) && (nss == "" || !IsSpace(nss[|nss| - 1]))
  }

  lemma {:induction false} StripRqfPart(s: string) returns (tail: string)
    ensures s == StripRqf(s) + tail && NoRqf(StripRqf(s)) && (tail == "" || OpensRqf(tail[0]))
  {
    if s == "" || OpensRqf(s[0]) {
      tail := s;
    } else {
      tail := StripRqfPart(s[1..]);
      assert s == [s[0]] + s[1..];
    }
  }

  lemma PrefixFound(t: string) returns (p: string)
    requires HasPrefixFold(t, URN_PREFIX)
    ensures |t| >= 9 && p == t[..9] && ToLower(p) == URN_PREFIX
  {
    p := t[..9];
    assert ToLower(URN_PREFIX) == URN_PREFIX;
  }

  lemma BareFound(s: string) returns (w: string)
    requires NoRqf(s)
    ensures Bare(TrimRight(s)) && AllSpace(w) && s == TrimRight(s) + w
  {
    w := TrimRightPart(s);
    assert s[..|TrimRight(s)|] == TrimRight(s);
  }

  lemma FramesFound(src: string) returns (p: string, nss: string, w: string, tail: string)
    requires HasPrefixFold(Trim(src), URN_PREFIX)
    ensures Frames(Trim(src), p, nss, w, tail)
    ensures nss == TrimRight(StripRqf(Trim(src)[9..])) && Bare(nss)
  {
    var t := Trim(src);
    p := PrefixFound(t);
    var rest := t[9..];
    tail := StripRqfPart(rest);
    w := BareFound(StripRqf(rest));
    nss := TrimRight(StripRqf(rest));
    assert t == p + rest;
  }

  lemma UnprefixedRefused(src: string)
    ensures ParseUrn(src) ==
            if HasPrefixFold(Trim(src), URN_PREFIX) then ParseAddressNss(TrimRight(StripRqf(Trim(src)[9..])))
            else Err(InvalidUrn)
  {
  }

  lemma FramesParse(src: string, p: string, nss: string, w: string, tail: string)
    requires Frames(Trim(src), p, nss, w, tail) && Bare(nss)
    ensures ParseUrn(src) == ParseAddressNss(nss)
  {
    assert Trim(src) == p + (nss + w + tail);
    ParseTrimmed(src, p, nss, w, tail);
  }

  /** The answer to every text: that to the NSS it frames, and the code of invalid URNs if it frames none. */
  lemma UrnAnswer(src: string)
    ensures forall p, nss, w, tail :: Frames(Trim(src), p, nss, w, tail) && Bare(nss) ==>
              ParseUrn(src) == ParseAddressNss(nss)
    ensures (exists p, nss, w, tail :: Frames(Trim(src), p, nss, w, tail) && Bare(nss)) ||
            ParseUrn(src) == Err(InvalidUrn)
  {
    forall p, nss, w, tail | Frames(Trim(src), p, nss, w, tail) && Bare(nss)
      ensures ParseUrn(src) == ParseAddressNss(nss)
    {
      FramesParse(src, p, nss, w, tail);
    }
    if HasPrefixFold(Trim(src), URN_PREFIX) {
      var p, nss, w, tail := FramesFound(src);
      assert Frames(Trim(src), p, nss, w, tail) && Bare(nss);
    } else {
      UnprefixedRefused(src);
    }
  }

  /**
   * `parse_urn` accepts exactly the texts that are, between whitespace: the prefix in any case, the text of
   * good components in any order among unknown pairs, then perhaps space and an r/q/f part.
   */
  lemma UrnLanguage(src: string)
    ensures ParseUrn(src).Ok? <==>
            exists p, nss, w, tail, ps, m :: Frames(Trim(src), p, nss, w, tail) && SpellsAddress(nss, ps, m)
  {
    UnprefixedRefused(src);
    if ParseUrn(src).Ok? {
      var p, nss, w, tail := FramesFound(src);
      NssLanguage(nss);
      var ps, m :| SpellsAddress(nss, ps, m);
      assert Frames(Trim(src), p, nss, w, tail) && SpellsAddress(nss, ps, m);
    }
    if p, nss, w, tail, ps, m :| Frames(Trim(src), p, nss, w, tail) && SpellsAddress(nss, ps, m) {
      WellFormedIsPlain(ps);
      PlainEnds(nss);
      FramesParse(src, p, nss, w, tail);
      NssLanguage(nss);
    }
  }

  /** `src` spells the components `m` as a URN. */
  ghost predicate SpellsUrn(src: string, m: Components) {
    exists p, nss, w, tail, ps :: Frames(Trim(src), p, nss, w, tail) && SpellsAddress(nss, ps, m)
  }

  lemma SpelledUrnParses(src: string, m: Components)
    requires SpellsUrn(src, m)
    ensures Kept(m) && GoodComponents(m) && ParseUrn(src) == FromComponents(m)
  {
    var p, nss, w, tail, ps :| Frames(Trim(src), p, nss, w, tail) && SpellsAddress(nss, ps, m);
    WellFormedIsPlain(ps);
    PlainEnds(nss);
    FramesParse(src, p, nss, w, tail);
    SpelledParses(nss, ps, m);
    HeldIsKept(ps, m);
  }

  /** What `parse_urn` returns: the reading of the components that the text spells. */
  lemma UrnMeaning(src: string, a: AddressState)
    ensures ParseUrn(src) == Ok(a) <==> exists m :: SpellsUrn(src, m) && a == Reading(m)
  {
    if ParseUrn(src) == Ok(a) {
      UrnLanguage(src);
      var p, nss, w, tail, ps, m :| Frames(Trim(src), p, nss, w, tail) && SpellsAddress(nss, ps, m);
      assert SpellsUrn(src, m);
      SpelledUrnParses(src, m);
      ComponentsRead(m);
    }
    if m :| SpellsUrn(src, m) && a == Reading(m) {
      SpelledUrnParses(src, m);
      ComponentsRead(m);
    }
  }

  // ---- strict validation of components ------------------------------------

  /** The conditions of the strict parser on good components. */
  predicate StrictComponents(m: Components)
    requires GoodChain(m)
  {
    var a := Reading(m);
    if DP !in m then GoodRoot(a.chain.network, NamedAlgorithm(a), NamedFormat(a))
    else GoodPath(a.chain.network, ReadPath(m), NamedAlgorithm(a), NamedFormat(a))
  }

  lemma ReadingIsOk(m: Components)
    requires Kept(m) && GoodComponents(m)
    ensures AddressOk(Reading(m)) && !Reading(m).chain.network.Unset? && PathIsSet(Reading(m))
  {
    ComponentsRead(m);
    ParsedIsOk(m);
  }

  lemma PathOfKind(kind: DerivationType, levels: seq<Levels.Level>)
    ensures PathOf(kind, levels).kind == kind
  {
  }

  lemma ReadPathKind(m: Components)
    requires GoodDerivation(m)
    ensures ReadPath(m).kind == NamedKind(m)
  {
    if DP in m {
      PathShapes.LanguageIsValidated(NamedKind(m), ToLower(m[DP]));
      PathOfKind(NamedKind(m), ReadLevels(NamedKind(m), ToLower(m[DP])).value);
    }
  }

  lemma ReadingRoot(m: Components)
    requires GoodComponents(m)
    ensures IsRoot(Reading(m)) <==> DP !in m
  {
    ReadPathKind(m);
  }

  lemma StrictReading(m: Components)
    requires Kept(m) && GoodComponents(m)
    ensures Validate(Reading(m)) == None <==> StrictComponents(m)
  {
    ReadingIsOk(m);
    ReadingRoot(m);
    VerdictWrittenOut(Reading(m));
  }

  /** What `parse_urn_strict` accepts and returns. */
  lemma StrictUrnMeaning(src: string, a: AddressState)
    ensures ParseUrnStrict(src) == Ok(a) <==>
            exists m :: SpellsUrn(src, m) && StrictComponents(m) && a == Reading(m)
  {
    UrnMeaning(src, a);
    if ParseUrnStrict(src) == Ok(a) {
      var m :| SpellsUrn(src, m) && a == Reading(m);
      SpelledUrnParses(src, m);
      StrictReading(m);
    }
    if m :| SpellsUrn(src, m) && StrictComponents(m) && a == Reading(m) {
      SpelledUrnParses(src, m);
      StrictReading(m);
    }
  }

  lemma StrictCode(m: Components)
    requires Kept(m) && GoodComponents(m)
    ensures Validate(Reading(m)) == if StrictComponents(m) then None else Some(Incompatible)
  {
    ReadingIsOk(m);
    ReadingRoot(m);
    VerdictWrittenOut(Reading(m));
  }

  /** And the answer to every other text: incompatible if it spells good components, else that of `parse_urn`. */
  lemma StrictAnswer(src: string)
    ensures ParseUrn(src).Err? ==> ParseUrnStrict(src) == ParseUrn(src)
    ensures forall m :: SpellsUrn(src, m) && !StrictComponents(m) ==> ParseUrnStrict(src) == Err(Incompatible)
  {
    forall m | SpellsUrn(src, m) && !StrictComponents(m) ensures ParseUrnStrict(src) == Err(Incompatible) {
      SpelledUrnParses(src, m);
      ComponentsRead(m);
      StrictCode(m);
    }
  }

  // ---- a chain in an NSS --------------------------------------------------

  /** The text of well-formed pairs whose components name a chain; the others may be anything. */
  ghost predicate SpellsChain(nss: string, ps: seq<Pair>, m: Components) {
    WellFormed(ps) && nss == NssText(ps) && Holds(m, ps) && GoodChain(m)
  }

  lemma SpelledChain(nss: string, ps: seq<Pair>, m: Components)
    requires WellFormed(ps) && Trim(nss) == NssText(ps) && Holds(m, ps)
    ensures FromNss(nss).Ok? <==> GoodChain(m)
    ensures GoodChain(m) ==> FromNss(nss) == Ok(ReadChain(m))
  {
    CollectMeans(ps);
    HoldsUnique(ps, m, Collect(ps).value);
    WellFormedSeparable(ps);
    ParsePairs(ps);
    HeldIsKept(ps, m);
    ChainAccepted(m);
    if GoodChain(m) {
      ChainRead(m);
    }
  }

  /** What `from_nss` accepts and returns. */
  lemma FromNssMeaning(nss: string, c: ChainState)
    ensures FromNss(nss) == Ok(c) <==> exists ps, m :: SpellsChain(Trim(nss), ps, m) && c == ReadChain(m)
  {
    if FromNss(nss) == Ok(c) {
      var ps, m := ParsedIsSpelled(Trim(nss));
      SpelledChain(nss, ps, m);
      assert SpellsChain(Trim(nss), ps, m);
    }
    if ps, m :| SpellsChain(Trim(nss), ps, m) && c == ReadChain(m) {
      SpelledChain(nss, ps, m);
    }
  }

  /** The answer of `from_nss` to every text: to a sequence of pairs the fault of its chain, if any. */
  lemma FromNssAnswer(nss: string)
    ensures (exists ps :: WellFormed(ps) && Trim(nss) == NssText(ps)) || FromNss(nss) == Err(InvalidNss)
    ensures forall ps, m :: WellFormed(ps) && Trim(nss) == NssText(ps) && Holds(m, ps) ==>
              FromNss(nss) ==
              if NT !in m then Err(MissingNetworkType)
              else if !NetworkTypeOf(ToLower(m[NT])).IsValid() then Err(InvalidNetworkType)
              else if CI !in m then Err(MissingChainId)
              else if CT in m && ParseUint32(m[CT]).None? then Err(InvalidCoinType)
              else Ok(ReadChain(m))
  {
    ParseAcceptsWellFormed(Trim(nss));
    RefusedNss(Trim(nss));
    forall ps, m | WellFormed(ps) && Trim(nss) == NssText(ps) && Holds(m, ps) ensures FromNss(nss) == BuildChain(m) {
      SpelledMap(Trim(nss), ps, m);
    }
    forall ps, m | WellFormed(ps) && Trim(nss) == NssText(ps) && Holds(m, ps)
      ensures FromNss(nss) ==
              if NT !in m then Err(MissingNetworkType)
              else if !NetworkTypeOf(ToLower(m[NT])).IsValid() then Err(InvalidNetworkType)
              else if CI !in m then Err(MissingChainId)
              else if CT in m && ParseUint32(m[CT]).None? then Err(InvalidCoinType)
              else Ok(ReadChain(m))
    {
      HeldIsKept(ps, m);
      ChainFault(m);
    }
  }

  lemma KeyComponentsAnswer(m: Components, text: string)
    requires Kept(m)
    ensures FromKeyComponents(m, text) ==
            if CT in m then Err(CoinTypeInChainKey)
            else if exists c :: c in m && c != NT && c != CI then Err(InvalidChainKey)
            else if NT !in m then Err(MissingNetworkType)
            else if !NetworkTypeOf(ToLower(m[NT])).IsValid() then Err(InvalidNetworkType)
            else if CI !in m then Err(MissingChainId)
            else if text != "nt:" + ToLower(m[NT]) + ":ci:" + m[CI] then Err(InvalidChainKey)
            else Ok(ChainState(NetworkTypeOf(ToLower(m[NT])), m[CI], None))
  {
    ChainFault(m);
    if NT in m {
      NetworkTypeIsText(ToLower(m[NT]));
    }
  }

  lemma KeyOfMap(key: string, m: Components)
    requires ParseNss(Trim(key)) == Ok(m) && (Trim(key) == "" || Count(Trim(key), ':') % 2 == 1)
    ensures FromKey(key) == FromKeyComponents(m, Trim(key))
  {
  }

  /** The answer of `from_key` to a text that spells components, fault by fault. */
  lemma KeyAnswer(key: string, ps: seq<Pair>, m: Components)
    requires WellFormed(ps) && Trim(key) == NssText(ps) && Holds(m, ps)
    ensures FromKey(key) ==
            if CT in m then Err(CoinTypeInChainKey)
            else if exists c :: c in m && c != NT && c != CI then Err(InvalidChainKey)
            else if NT !in m then Err(MissingNetworkType)
            else if !NetworkTypeOf(ToLower(m[NT])).IsValid() then Err(InvalidNetworkType)
            else if CI !in m then Err(MissingChainId)
            else if Trim(key) != "nt:" + ToLower(m[NT]) + ":ci:" + m[CI] then Err(InvalidChainKey)
            else Ok(ChainState(NetworkTypeOf(ToLower(m[NT])), m[CI], None))
  {
    SpelledMap(Trim(key), ps, m);
    HeldIsKept(ps, m);
    KeyParity(key, ps);
    KeyOfMap(key, m);
    KeyComponentsAnswer(m, Trim(key));
  }

  lemma SpelledMap(nss: string, ps: seq<Pair>, m: Components)
    requires WellFormed(ps) && nss == NssText(ps) && Holds(m, ps)
    ensures ParseNss(nss) == Ok(m)
  {
    CollectMeans(ps);
    HoldsUnique(ps, m, Collect(ps).value);
    WellFormedSeparable(ps);
    ParsePairs(ps);
  }

  /** The parity test of `from_key` passes on every sequence of pairs. */
  lemma KeyParity(key: string, ps: seq<Pair>)
    requires WellFormed(ps) && Trim(key) == NssText(ps)
    ensures Trim(key) == "" || Count(Trim(key), ':') % 2 == 1
  {
    if ps != [] {
      WellFormedSeparable(ps);
      TextSplits(ps);
      SplitCount(NssText(ps), ':');
    }
  }

  /** And to a text that spells none: an odd number of tokens is an ill-formed key, the rest an ill-formed NSS. */
  lemma KeyUnspelled(key: string)
    requires !exists ps :: WellFormed(ps) && Trim(key) == NssText(ps)
    ensures FromKey(key) ==
            Err(if Trim(key) != "" && |Split(Trim(key), ':')| % 2 == 1 then InvalidChainKey else InvalidNss)
  {
    ParseAcceptsWellFormed(Trim(key));
    RefusedNss(Trim(key));
    SplitCount(Trim(key), ':');
  }

  /** Any NSS of an address gives its chain, whoever printed it. */
  lemma FromNssOfAddress(nss: string)
    ensures match ParseNssText(nss)
            case Ok(a) => FromNss(nss) == Ok(a.chain)
            case Err(_) => true
  {
    if ParseNssText(nss).Ok? {
      var ps, m := AcceptedIsSpelled(Trim(nss));
      SpelledParses(Trim(nss), ps, m);
      HeldIsKept(ps, m);
      ComponentsRead(m);
      SpelledChain(nss, ps, m);
    }
  }

  /** `parse_nss` accepts exactly the texts of good components, between whitespace. */
  lemma NssTextLanguage(nss: string)
    ensures ParseNssText(nss).Ok? <==> exists ps, m :: SpellsAddress(Trim(nss), ps, m)
  {
    NssLanguage(Trim(nss));
  }
}
