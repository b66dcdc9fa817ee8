/**
 * What the setters and constructors store and refuse (src/address.cpp:27-170, src/chain.cpp:64-84), written out,
 * and that setting a component on an address is parsing the address with that component.
 */
module Setters {
  import opened Addresses
  import opened Chains
  import opened Errors
  import opened Languages
  import opened Levels
  import opened Names
  import opened NssPairs
  import opened Numbers
  import opened Paths
  import opened RoundTrips
  import opened Text
  import opened Wrappers

  // ---- the coin type ------------------------------------------------------

  /** A printed number between whitespace is stored as the coin type. */
  lemma CoinStored(a: AddressState, l: string, v: u32, r: string)
    requires AllSpace(l) && AllSpace(r)
    ensures SetCoinType(a, l + Decimal(v) + r) == Ok(a.(chain := a.chain.(coin := Some(v))))
  {
    CoinReadBack(v);
    DecimalSound(v);
    AllNssTrimmed(Decimal(v));
    TrimSandwich(l, Decimal(v), r);
  }

  /** Whitespace alone clears the coin type, and what is no 32-bit number is refused. */
  lemma CoinClearedOrRefused(a: AddressState, ct: string)
    ensures AllSpace(ct) ==> SetCoinType(a, ct) == Ok(a.(chain := a.chain.(coin := None)))
    ensures !AllSpace(ct) ==>
              SetCoinType(a, ct) == match ParseUint32(Trim(ct))
                                    case Some(v) => Ok(a.(chain := a.chain.(coin := Some(v))))
                                    case None => Err(InvalidCoinType)
  {
    TrimEmpty(ct);
  }

  lemma TrimEmpty(s: string)
    ensures Trim(s) == "" <==> AllSpace(s)
  {
    if AllSpace(s) {
      assert s == "" + "" + s;
      TrimSandwich("", "", s);
    } else {
      var l, r := TrimPadding(s);
      assert Trim(s) == "" ==> s == l + r;
    }
  }

  // ---- names and free forms -----------------------------------------------

  lemma AlgorithmStored(a: AddressState, aa: string)
    ensures SetAlgorithm(a, aa) ==
            if AllSpace(aa) then Ok(a.(algorithm := Algorithm.Unset))
            else if AlgorithmOf(ToLower(Trim(aa))).IsValid() then Ok(a.(algorithm := AlgorithmOf(ToLower(Trim(aa)))))
            else Err(InvalidAlgorithm)
  {
    TrimEmpty(aa);
  }

  lemma FormatStored(a: AddressState, af: string)
    ensures SetFormat(a, af) ==
            if AllSpace(af) then Ok(a.(format := Format.Unset))
            else if FormatOf(ToLower(Trim(af))).IsValid() then Ok(a.(format := FormatOf(ToLower(Trim(af)))))
            else Err(InvalidFormat)
  {
    TrimEmpty(af);
  }

  /** Each free form goes to its own field, trimmed, or is refused for a byte. */
  lemma FreeFormsStored(a: AddressState, v: string)
    ensures SetPrefix(a, v) == if AllNss(Trim(v)) then Ok(a.(prefix := Trim(v))) else Err(InvalidValue)
    ensures SetSuffix(a, v) == if AllNss(Trim(v)) then Ok(a.(suffix := Trim(v))) else Err(InvalidValue)
    ensures SetWalletType(a, v) == if AllNss(Trim(v)) then Ok(a.(walletType := Trim(v))) else Err(InvalidValue)
    ensures SetWalletId(a, v) == if AllNss(Trim(v)) then Ok(a.(walletId := Trim(v))) else Err(InvalidValue)
  {
  }

  // ---- type and path ------------------------------------------------------

  /** The type that a text names; whitespace alone names root. */
  function TypeNamed(dt: string): DerivationType {
    if AllSpace(dt) then Root else DerivationTypeOf(ToLower(Trim(dt)))
  }

  lemma TypeNamedAgrees(dt: string)
    ensures NamedType(dt) == TypeNamed(dt)
  {
    TrimEmpty(dt);
    assert ToLower("") == "";
  }

  /** A new type takes the place of the whole path, the same type leaves it. */
  lemma TypeStored(a: AddressState, dt: string)
    ensures SetDerivationType(a, dt) ==
            if !TypeNamed(dt).IsValid() then Err(InvalidDerivationType)
            else if a.path.Some? && a.path.value.kind == TypeNamed(dt) then Ok(a)
            else Ok(a.(path := Some(Path(TypeNamed(dt), 0, 0, 0, Level(0, false), false, []))))
  {
    TypeNamedAgrees(dt);
  }

  /** A path is parsed under the type that is set; root and no type take none. */
  lemma PathStored(a: AddressState, dp: string)
    ensures SetDerivationPath(a, dp) ==
            if a.path.None? then
              (a.(path := Some(Path(DerivationType.Unset, 0, 0, 0, Level(0, false), false, []))),
               if AllSpace(dp) then None else Some(InvalidDerivationPath))
            else if a.path.value.kind.Unset? || a.path.value.kind.Root? then
              (a, if AllSpace(dp) then None else Some(InvalidDerivationPath))
            else match ParsePath(a.path.value.kind, ToLower(Trim(dp)))
                 case Ok(p) => (a.(path := Some(p)), None)
                 case Err(e) => (a, Some(e))
  {
    TrimEmpty(dp);
  }

  /** Both at once, from nothing: what was set before has no influence. */
  lemma DerivationStored(a: AddressState, dt: string, dp: string)
    ensures SetDerivation(a, dt, dp) ==
            if !TypeNamed(dt).IsValid() then Err(InvalidDerivationType)
            else if TypeNamed(dt).Root? then
              if AllSpace(dp) then Ok(a.(path := Some(Path(Root, 0, 0, 0, Level(0, false), false, []))))
              else Err(InvalidDerivationPath)
            else match ParsePath(TypeNamed(dt), ToLower(Trim(dp)))
                 case Ok(p) => Ok(a.(path := Some(p)))
                 case Err(e) => Err(e)
  {
    TypeNamedAgrees(dt);
    TrimEmpty(dp);
    if TypeNamed(dt).IsValid() {
      SetDerivationParses(a, TypeNamed(dt), dp);
    } else {
      UnregisteredRefused(a, TypeNamed(dt), dp);
      RefusedDerivation(a, TypeNamed(dt), dp);
    }
  }

  // ---- chains -------------------------------------------------------------

  lemma ChainStored(c: ChainState, nt: NetworkType, ci: string)
    ensures SetNetwork(c, nt) == if nt.IsValid() then Ok(c.(network := nt)) else Err(InvalidNetworkType)
    ensures SetChainId(c, ci) ==
            if AllSpace(ci) then Err(MissingChainId)
            else if AllNss(Trim(ci)) then Ok(c.(id := Trim(ci)))
            else Err(InvalidValue)
    ensures MakeChain(nt, ci) ==
            if !nt.IsValid() then Err(InvalidNetworkType)
            else if AllSpace(ci) then Err(MissingChainId)
            else if AllNss(Trim(ci)) then Ok(ChainState(nt, Trim(ci), None))
            else Err(InvalidValue)
  {
    TrimEmpty(ci);
  }

  // ---- constructors -------------------------------------------------------

  lemma DefaultsWrittenOut()
    ensures DEFAULT_CHAIN == ChainState(NetworkType.Unset, "", None)
    ensures DEFAULT_ADDRESS ==
            AddressState(ChainState(NetworkType.Unset, "", None), None, Algorithm.Unset, Format.Unset, "", "", "", "")
  {
  }

  /** A text that names no algorithm; whitespace alone names the unset one. */
  predicate BadAlgorithm(aa: string) {
    !AllSpace(aa) && !AlgorithmOf(ToLower(Trim(aa))).IsValid()
  }

  predicate BadFormat(af: string) {
    !AllSpace(af) && !FormatOf(ToLower(Trim(af))).IsValid()
  }

  lemma GivenNames(a: AddressState, aa: string, af: string)
    requires a.algorithm.Unset? && a.format.Unset?
    ensures GivenFormat(a, aa, af) ==
            if BadAlgorithm(aa) then Err(InvalidAlgorithm)
            else if BadFormat(af) then Err(InvalidFormat)
            else Ok(a.(algorithm := AlgorithmOf(ToLower(Trim(aa))), format := FormatOf(ToLower(Trim(af)))))
  {
    AlgorithmStored(a, aa);
    var b := a.(algorithm := AlgorithmOf(ToLower(Trim(aa))));
    FormatStored(b, af);
    TrimEmpty(aa);
    TrimEmpty(af);
    assert ToLower("") == "";
  }

  lemma GivenTexts(a: AddressState, ap: string, as_: string)
    requires a.prefix == "" && a.suffix == ""
    ensures GivenAffixes(a, ap, as_) ==
            if !AllNss(Trim(ap)) || !AllNss(Trim(as_)) then Err(InvalidValue)
            else Ok(a.(prefix := Trim(ap), suffix := Trim(as_)))
  {
    FreeFormsStored(a, ap);
    FreeFormsStored(a.(prefix := Trim(ap)), as_);
    TrimEmpty("");
  }

  /** The constructor: which argument goes where, and which fault it reports. */
  lemma Constructed(c: ChainState, p: Option<Path>, aa: string, af: string, ap: string, as_: string)
    ensures Construct(c, p, aa, af, ap, as_) ==
            if BadAlgorithm(aa) then Err(InvalidAlgorithm)
            else if BadFormat(af) then Err(InvalidFormat)
            else if !AllNss(Trim(ap)) || !AllNss(Trim(as_)) then Err(InvalidValue)
            else Ok(AddressState(
              c, p, AlgorithmOf(ToLower(Trim(aa))), FormatOf(ToLower(Trim(af))), Trim(ap), Trim(as_), "", ""))
  {
    var a := DEFAULT_ADDRESS.(chain := c, path := p);
    GivenNames(a, aa, af);
    if !BadAlgorithm(aa) && !BadFormat(af) {
      GivenTexts(
        a.(algorithm := AlgorithmOf(ToLower(Trim(aa))), format := FormatOf(ToLower(Trim(af)))), ap, as_);
    }
  }

  // ---- setting is parsing -------------------------------------------------

  /** The components with one replaced, or taken out when the value is empty. */
  function With(m: Components, c: Component, v: string): (n: Components)
    ensures forall d :: Get(n, d) == if d == c then v else Get(m, d)
    ensures forall d :: d in n <==> if d == c then v != "" else d in m
  {
    if v == "" then m - {c} else m[c := v]
  }

  lemma WithKept(m: Components, c: Component, v: string)
    requires Kept(m) && AllNss(v)
    ensures Kept(With(m, c, v))
  {
    var n := With(m, c, v);
    forall d | d in n ensures n[d] != "" && AllNss(n[d]) {
      assert n[d] == Get(n, d) == if d == c then v else Get(m, d);
    }
  }

  lemma WithOthers(m: Components, c: Component, v: string, d: Component)
    requires d != c
    ensures d in With(m, c, v) <==> d in m
    ensures d in m ==> With(m, c, v)[d] == m[d]
  {
    assert Get(With(m, c, v), d) == Get(m, d);
  }

  lemma WithGood(m: Components, c: Component, v: string)
    requires Kept(m) && GoodComponents(m)
    ensures c != NT && c != CI && c != CT ==>
              GoodChain(With(m, c, v)) && ReadChain(With(m, c, v)) == ReadChain(m)
    ensures c != DT && c != DP ==> GoodDerivation(With(m, c, v)) && ReadPath(With(m, c, v)) == ReadPath(m)
    ensures c != AA && c != AF ==> GoodFormatDomain(With(m, c, v))
  {
    forall d | d != c ensures d in With(m, c, v) <==> d in m ensures d in m ==> With(m, c, v)[d] == m[d] {
      WithOthers(m, c, v, d);
    }
  }

  /** Setting the coin type of a parsed address, or clearing it, is parsing with that ct, or without. */
  lemma CoinSetterParses(m: Components, ct: string)
    requires Kept(m) && GoodComponents(m) && AllNss(ct)
    ensures FromComponents(With(m, CT, ct)) == SetCoinType(Reading(m), ct)
  {
    var n := With(m, CT, ct);
    WithKept(m, CT, ct);
    WithGood(m, CT, ct);
    ComponentsAnswer(n);
    CoinClearedOrRefused(Reading(m), ct);
    AllNssTrimmed(ct);
    NoSpaces(ct);
    assert Get(n, NT) == Get(m, NT) && Get(n, CI) == Get(m, CI) && Get(n, CT) == ct;
    SameRest(m, n);
  }

  /** The components of `m` and `n` that are no part of the chain read alike. */
  lemma SameRest(m: Components, n: Components)
    requires GoodChain(m)
    requires forall c :: c != CT ==> Get(n, c) == Get(m, c)
    requires ReadPath(n) == ReadPath(m)
    ensures GoodChain(n) ==> Reading(n) == Reading(m).(chain := ReadChain(n))
  {
  }

  lemma AlgorithmSetterParses(m: Components, aa: string)
    requires Kept(m) && GoodComponents(m) && AllNss(aa)
    ensures FromComponents(With(m, AA, aa)) == SetAlgorithm(Reading(m), aa)
  {
    var n := With(m, AA, aa);
    WithKept(m, AA, aa);
    WithGood(m, AA, aa);
    ComponentsAnswer(n);
    AlgorithmStored(Reading(m), aa);
    AllNssTrimmed(aa);
    assert Get(n, AA) == aa && Get(n, AF) == Get(m, AF);
    NoSpaces(aa);
  }

  lemma FormatSetterParses(m: Components, af: string)
    requires Kept(m) && GoodComponents(m) && AllNss(af)
    ensures FromComponents(With(m, AF, af)) == SetFormat(Reading(m), af)
  {
    var n := With(m, AF, af);
    WithKept(m, AF, af);
    WithGood(m, AF, af);
    ComponentsAnswer(n);
    FormatStored(Reading(m), af);
    AllNssTrimmed(af);
    assert Get(n, AF) == af && Get(n, AA) == Get(m, AA);
    NoSpaces(af);
  }

  lemma NoSpaces(s: string)
    requires AllNss(s)
    ensures AllSpace(s) <==> s == ""
    ensures ToLower(s) == "" <==> s == ""
  {
    if s != "" {
      assert NssByte(s[0]);
    }
  }

  /** An address with the free form of a component replaced. */
  function WithFreeForm(a: AddressState, c: Component, v: string): AddressState {
    match c
    case AP => a.(prefix := v)
    case AS => a.(suffix := v)
    case WT => a.(walletType := v)
    case WI => a.(walletId := v)
    case _ => a
  }

  lemma FreeFormReads(m: Components, n: Components, c: Component, v: string)
    requires GoodChain(m) && GoodChain(n) && ReadChain(m) == ReadChain(n) && ReadPath(m) == ReadPath(n)
    requires c.AP? || c.AS? || c.WT? || c.WI?
    requires forall d :: Get(n, d) == if d == c then v else Get(m, d)
    ensures Reading(n) == WithFreeForm(Reading(m), c, v)
  {
    assert Get(n, AA) == Get(m, AA) && Get(n, AF) == Get(m, AF);
  }

  lemma FreeFormParses(m: Components, c: Component, v: string)
    requires Kept(m) && GoodComponents(m) && AllNss(v) && (c.AP? || c.AS? || c.WT? || c.WI?)
    ensures FromComponents(With(m, c, v)) == Ok(WithFreeForm(Reading(m), c, v))
  {
    WithKept(m, c, v);
    WithGood(m, c, v);
    ComponentsRead(With(m, c, v));
    FreeFormReads(m, With(m, c, v), c, v);
  }

  /** The setter of each free form. */
  function SetFreeForm(a: AddressState, c: Component, v: string): Result<AddressState>
    requires c.AP? || c.AS? || c.WT? || c.WI?
  {
    match c
    case AP => SetPrefix(a, v)
    case AS => SetSuffix(a, v)
    case WT => SetWalletType(a, v)
    case WI => SetWalletId(a, v)
  }

  lemma FreeFormStored(a: AddressState, c: Component, v: string)
    requires (c.AP? || c.AS? || c.WT? || c.WI?) && AllNss(v)
    ensures SetFreeForm(a, c, v) == Ok(WithFreeForm(a, c, v))
  {
    FreeFormsStored(a, v);
    AllNssTrimmed(v);
  }

  /** The same for the free forms, each with its own component. */
  lemma FreeFormSetterParses(m: Components, c: Component, v: string)
    requires Kept(m) && GoodComponents(m) && AllNss(v) && (c.AP? || c.AS? || c.WT? || c.WI?)
    ensures FromComponents(With(m, c, v)) == SetFreeForm(Reading(m), c, v)
  {
    FreeFormParses(m, c, v);
    FreeFormStored(Reading(m), c, v);
  }

  /** Type and path are set together as they are parsed together. */
  lemma DerivationSetterParses(m: Components, dt: string, dp: string)
    requires Kept(m) && GoodComponents(m) && AllNss(dt) && AllNss(dp)
    ensures FromComponents(With(With(m, DT, dt), DP, dp)) == SetDerivation(Reading(m), dt, dp)
  {
    var n := With(With(m, DT, dt), DP, dp);
    WithKept(m, DT, dt);
    WithKept(With(m, DT, dt), DP, dp);
    assert Get(n, DT) == dt && Get(n, DP) == dp;
    assert forall c :: c != DT && c != DP ==> Get(n, c) == Get(m, c) && (c in n <==> c in m);
    DerivationFault(Reading(m), n);
    ComponentsAnswer(n);
    OtherComponents(m, n);
  }

  lemma OtherComponents(m: Components, n: Components)
    requires GoodComponents(m)
    requires forall c :: c != DT && c != DP ==> Get(n, c) == Get(m, c) && (c in n <==> c in m)
    ensures GoodChain(n) && GoodFormatDomain(n)
    ensures Reading(n) == Reading(m).(path := Some(ReadPath(n)))
  {
    assert forall c :: c in n && c != DT && c != DP ==> n[c] == Get(n, c) == Get(m, c) == m[c];
  }
}
