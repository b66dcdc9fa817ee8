/**
 * What a caller can find out about an address. Its text determines every later text and verdict, but for
 * whether it holds an empty path object; texts, verdicts and the answers to calls together determine its state.
 */
module Observations {
  import opened Addresses
  import opened ChainTheorems
  import opened Errors
  import opened Names
  import opened NssPairs
  import opened Numbers
  import opened Paths
  import opened RoundTrips
  import opened Runs
  import opened Wrappers
  import Text

  // ---- the text determines what is shown ----------------------------------

  lemma {:induction false} PrintedPairShows(a: AddressState, cs: seq<Component>, p: Pair) returns (c: Component)
    requires p in PrintedPairs(a, cs)
    ensures p == Pair(c.Key(), Shown(a, c))
  {
    if cs == [] {
      c := if p == Pair("nt", a.chain.network.Str()) then NT else CI;
    } else if p in PrintedPairs(a, cs[..|cs| - 1]) {
      c := PrintedPairShows(a, cs[..|cs| - 1], p);
    } else {
      c := cs[|cs| - 1];
    }
  }

  lemma {:induction false} ShownIsPrinted(a: AddressState, cs: seq<Component>, c: Component)
    requires c in [NT, CI] + cs && Shown(a, c) != ""
    ensures Pair(c.Key(), Shown(a, c)) in PrintedPairs(a, cs)
  {
    if cs == [] {
      assert KeyPairs(a.chain)[0] == Pair("nt", Shown(a, NT)) && KeyPairs(a.chain)[1] == Pair("ci", Shown(a, CI));
    } else if c != cs[|cs| - 1] {
      ShownIsPrinted(a, cs[..|cs| - 1], c);
    }
  }

  lemma ShownBoth(a: AddressState, b: AddressState, c: Component)
    requires PrintedPairs(a, OPTIONAL) == PrintedPairs(b, OPTIONAL) && Shown(a, c) != ""
    ensures Shown(a, c) == Shown(b, c)
  {
    EveryComponent(c);
    ShownIsPrinted(a, OPTIONAL, c);
    var d := PrintedPairShows(b, OPTIONAL, Pair(c.Key(), Shown(a, c)));
    ComponentKeys(c, c.Key());
    ComponentKeys(d, d.Key());
  }

  lemma PairsOfText(a: AddressState)
    requires AddressOk(a)
    ensures Text.Split(Nss(a), ':') == Tokens(PrintedPairs(a, OPTIONAL))
  {
    NssIsPlain(a);
    PrintedText(a, OPTIONAL);
    TextSplits(PrintedPairs(a, OPTIONAL));
  }

  lemma SameTextShowsSame(a: AddressState, b: AddressState, c: Component)
    requires AddressOk(a) && AddressOk(b) && Nss(a) == Nss(b)
    ensures Shown(a, c) == Shown(b, c)
  {
    PairsOfText(a);
    PairsOfText(b);
    TokensPairUp(PrintedPairs(a, OPTIONAL));
    TokensPairUp(PrintedPairs(b, OPTIONAL));
    if Shown(a, c) != "" {
      ShownBoth(a, b, c);
    } else if Shown(b, c) != "" {
      ShownBoth(b, a, c);
    }
  }

  // ---- what is shown determines the address -------------------------------

  lemma ShownCoin(a: AddressState, b: AddressState)
    requires Shown(a, CT) == Shown(b, CT)
    ensures a.chain.coin == b.chain.coin
  {
    if a.chain.coin.Some? {
      DecimalSound(a.chain.coin.value);
    }
    if b.chain.coin.Some? {
      DecimalSound(b.chain.coin.value);
    }
  }

  lemma ShownKind(a: AddressState, b: AddressState)
    requires AddressOk(a) && AddressOk(b) && Shown(a, DT) == Shown(b, DT)
    ensures IsRoot(a) <==> IsRoot(b)
    ensures !IsRoot(a) ==> a.path.value.kind == b.path.value.kind
  {
    if !IsRoot(a) {
      DerivationTypeSpelling(a.path.value.kind);
      DerivationTypeNames(a.path.value.kind);
    }
    if !IsRoot(b) {
      DerivationTypeSpelling(b.path.value.kind);
      DerivationTypeNames(b.path.value.kind);
    }
  }

  lemma SamePathText(p: Path, q: Path)
    requires Coherent(p) && Coherent(q) && p.kind == q.kind && p.kind.IsValid() && PathText(p) == PathText(q)
    ensures p == q
  {
    RoundTrip(p);
    RoundTrip(q);
    if p.levels == [] && !p.kind.Root? {
      TemplateAgrees(p);
    }
    if q.levels == [] && !q.kind.Root? {
      TemplateAgrees(q);
    }
  }

  lemma ShownNames(a: AddressState, b: AddressState)
    requires AddressOk(a) && AddressOk(b) && Shown(a, AA) == Shown(b, AA) && Shown(a, AF) == Shown(b, AF)
    ensures a.algorithm == b.algorithm && a.format == b.format
  {
    if a.algorithm.IsValid() { AlgorithmNames(a.algorithm); }
    if b.algorithm.IsValid() { AlgorithmNames(b.algorithm); }
    if a.format.IsValid() { FormatNames(a.format); }
    if b.format.IsValid() { FormatNames(b.format); }
  }

  /** Any two reachable addresses, complete or not, print alike exactly when they are one address. */
  lemma SameTextSameAddress(a: AddressState, b: AddressState)
    requires AddressOk(a) && AddressOk(b)
    ensures Nss(a) == Nss(b) <==> Canonical(a) == Canonical(b)
    ensures Urn(a) == Urn(b) <==> Canonical(a) == Canonical(b)
  {
    CanonicalIsSame(a);
    CanonicalIsSame(b);
    if Urn(a) == Urn(b) {
      SamePrefix(URN_PREFIX, Nss(a), Nss(b));
    }
    if Nss(a) == Nss(b) {
      forall c ensures Shown(a, c) == Shown(b, c) {
        SameTextShowsSame(a, b, c);
      }
      SameShownSameAddress(a, b);
    }
  }

  lemma SameShownSameAddress(a: AddressState, b: AddressState)
    requires AddressOk(a) && AddressOk(b) && forall c :: Shown(a, c) == Shown(b, c)
    ensures Canonical(a) == Canonical(b)
  {
    assert Shown(a, NT) == Shown(b, NT) && Shown(a, CI) == Shown(b, CI);
    NetworkTextInjective(a.chain.network, b.chain.network);
    assert Shown(a, CT) == Shown(b, CT);
    ShownCoin(a, b);
    assert Shown(a, DT) == Shown(b, DT) && Shown(a, DP) == Shown(b, DP);
    ShownKind(a, b);
    if !IsRoot(a) {
      SamePathText(a.path.value, b.path.value);
    }
    assert Shown(a, AA) == Shown(b, AA) && Shown(a, AF) == Shown(b, AF);
    ShownNames(a, b);
    assert Shown(a, AP) == Shown(b, AP) && Shown(a, AS) == Shown(b, AS);
    assert Shown(a, WT) == Shown(b, WT) && Shown(a, WI) == Shown(b, WI);
  }

  // ---- observers ----------------------------------------------------------

  /** The same canonical form, and a path object in both or in neither. */
  predicate Twins(a: AddressState, b: AddressState) {
    Canonical(a) == Canonical(b) && (a.path.Some? <==> b.path.Some?)
  }

  ghost predicate AlikeForever(a: AddressState, b: AddressState) {
    forall ops :: Alike(RunFrom(a, ops), RunFrom(b, ops))
  }

  lemma TwinsStayAlike(a: AddressState, b: AddressState)
    requires AddressOk(a) && AddressOk(b) && Twins(a, b)
    ensures AlikeForever(a, b)
  {
    forall ops ensures Alike(RunFrom(a, ops), RunFrom(b, ops)) {
      RunsRespectCanonical(a, b, ops);
      CanonicalIsSame(RunFrom(a, ops));
      CanonicalIsSame(RunFrom(b, ops));
    }
  }

  lemma AlikeAtOnce(a: AddressState, b: AddressState)
    requires AddressOk(a) && AddressOk(b) && AlikeForever(a, b)
    ensures Canonical(a) == Canonical(b)
  {
    assert Alike(RunFrom(a, []), RunFrom(b, []));
    SameTextSameAddress(a, b);
  }

  lemma AlikeAfterEdit(a: AddressState, b: AddressState)
    requires AddressOk(a) && AddressOk(b) && Canonical(a) == Canonical(b) && AlikeForever(a, b)
    ensures a.path.Some? <==> b.path.Some?
  {
    var edit := EditPath(PathSetType(Bip44));
    assert Alike(RunFrom(a, [edit]), RunFrom(b, [edit]));
    RunOne(a, edit);
    RunOne(b, edit);
    SameRootness(a, b);
    if IsRoot(a) {
      EditSeesPath(a);
      EditSeesPath(b);
    }
  }

  /**
   * Two reachable addresses stay alike under every run exactly when they have the same canonical form and
   * hold a path object both or neither.
   */
  lemma AlikeForeverExactly(a: AddressState, b: AddressState)
    requires AddressOk(a) && AddressOk(b)
    ensures AlikeForever(a, b) <==> Twins(a, b)
  {
    if Twins(a, b) {
      TwinsStayAlike(a, b);
    }
    if AlikeForever(a, b) {
      AlikeAtOnce(a, b);
      AlikeAfterEdit(a, b);
    }
  }

  // ---- answers ------------------------------------------------------------

  lemma OneOutcome(a: AddressState, op: AddressOp)
    ensures Outcomes(a, [op]) == [Apply(a, op).1]
  {
    OutcomeAt(a, [op], 0);
    assert [op][..0] == [] && RunFrom(a, [op][..0]) == a;
  }

  lemma UntypedExample()
    ensures Run([CallSetDerivationPath("x")]) == DEFAULT_ADDRESS.(path := Some(Empty(DerivationType.Unset)))
  {
    RunOne(DEFAULT_ADDRESS, CallSetDerivationPath("x"));
    FailedPathExample();
    FailedPath(DEFAULT_ADDRESS, "x");
  }

  lemma RootExample()
    ensures Run([CallSetDerivationType("")]) == DEFAULT_ADDRESS.(path := Some(Empty(Root)))
  {
    RunOne(DEFAULT_ADDRESS, CallSetDerivationType(""));
    assert NamedType("") == Root by {
      assert Text.Normalize("") == "";
    }
  }

  /** Twins can still be told apart, by the answer to a parse through `path()`. */
  lemma TwinsExample()
    ensures var a, b := Run([CallSetDerivationPath("x")]), Run([CallSetDerivationType("")]);
            && Twins(a, b)
            && Apply(a, EditPath(PathParsePath(""))).1 == Some(InvalidDerivationType)
            && Apply(b, EditPath(PathParsePath(""))).1 == None
  {
    UntypedExample();
    RootExample();
  }

  lemma TwinsAnsweredAlike(a: AddressState, b: AddressState)
    requires AddressOk(a) && AddressOk(b) && Twins(a, b)
    requires Apply(a, EditPath(PathParsePath(""))).1 == Apply(b, EditPath(PathParsePath(""))).1
    ensures a == b
  {
    CallsRespectCanonical(a, b, EditPath(PathParsePath("")));
    SameRootness(a, b);
  }

  /** No run tells the two addresses apart, by a text, a verdict or an answer. */
  ghost predicate Indistinguishable(a: AddressState, b: AddressState) {
    forall ops :: AlikeAfter(a, b, ops)
  }

  lemma IndistinguishableAreTwins(a: AddressState, b: AddressState)
    requires AddressOk(a) && AddressOk(b) && Indistinguishable(a, b)
    ensures Twins(a, b)
  {
    forall ops ensures Alike(RunFrom(a, ops), RunFrom(b, ops)) {
      assert AlikeAfter(a, b, ops);
    }
    AlikeForeverExactly(a, b);
  }

  lemma IndistinguishableAnswer(a: AddressState, b: AddressState, op: AddressOp)
    requires Indistinguishable(a, b)
    ensures Apply(a, op).1 == Apply(b, op).1
  {
    assert AlikeAfter(a, b, [op]);
    OneOutcome(a, op);
    OneOutcome(b, op);
  }

  /** Two reachable addresses are told apart by some run exactly if they are not one state. */
  lemma IndistinguishableExactly(a: AddressState, b: AddressState)
    requires AddressOk(a) && AddressOk(b)
    ensures Indistinguishable(a, b) <==> a == b
  {
    if Indistinguishable(a, b) {
      IndistinguishableAreTwins(a, b);
      IndistinguishableAnswer(a, b, EditPath(PathParsePath("")));
      TwinsAnsweredAlike(a, b);
    }
  }
}
