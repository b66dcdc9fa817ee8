/** Strict validation: one key has one spelling, and acceptance survives printing and default expansion. */
module Strict {
  import opened Addresses
  import opened Chains
  import opened Compatibility
  import opened Errors
  import opened Levels
  import opened Names
  import opened Numbers
  import opened Paths
  import opened PathShapes
  import opened RoundTrips
  import opened Runs
  import opened Wrappers

  // ---- keys ---------------------------------------------------------------

  /** The BIP-32 child number of a level: the hardened flag is its top bit. */
  function ChildNumber(level: Level): nat {
    level.index + if level.hardened then LEVEL_LIMIT else 0
  }

  function ChildNumbers(levels: seq<Level>): (numbers: seq<nat>)
    ensures |numbers| == |levels|
  {
    seq(|levels|, i requires 0 <= i < |levels| => ChildNumber(levels[i]))
  }

  /** Below 2^31 the child numbers determine the levels. */
  lemma ChildNumbersInjective(ls: seq<Level>, ms: seq<Level>)
    requires Below(ls) && Below(ms) && ChildNumbers(ls) == ChildNumbers(ms)
    ensures ls == ms
  {
    forall i | 0 <= i < |ls| ensures ls[i] == ms[i] {
      assert ChildNumbers(ls)[i] == ChildNumbers(ms)[i];
    }
  }

  /** Without the bound they do not: m/2147483648 and m/0' would be one key. */
  lemma ChildNumbersNeedTheBound()
    ensures ChildNumber(Level(0x8000_0000, false)) == ChildNumber(Level(0, true))
  {
  }

  // ---- what strict acceptance says of a path -----------------------------

  predicate AllHardened(levels: seq<Level>) {
    forall i :: 0 <= i < |levels| ==> levels[i].hardened
  }

  /** The conditions of `validate` on the path, the network and the algorithm. */
  predicate Permits(nt: NetworkType, kind: DerivationType, levels: seq<Level>, algorithm: Algorithm) {
    && NetworkAllowsDerivation(nt, kind)
    && NetworkAllowsAlgorithm(nt, algorithm)
    && (!DerivationAlgorithm(nt, kind).Unset? ==> DerivationAlgorithm(nt, kind) == algorithm)
    && (algorithm.Ed25519? && !kind.Cip1852? ==> AllHardened(levels))
    && (nt.Cosmos? && kind.Bip44? ==> |levels| == 5 && levels[1].index != 118)
  }

  lemma AcceptedPermits(a: AddressState)
    requires AddressOk(a) && !IsRoot(a) && Validate(a) == None
    ensures Shape(a.path.value.kind, a.path.value.levels)
    ensures Permits(a.chain.network, a.path.value.kind, a.path.value.levels, ResolvedAlgorithm(a))
  {
    var p := a.path.value;
    if p.kind.Bip44? {
      assert |p.levels| == 5;
    }
  }

  /** The purpose of the types that fix one. */
  function Purpose(kind: DerivationType): Option<u32> {
    match kind
    case Bip44 => Some(44)
    case Bip49 => Some(49)
    case Bip54 => Some(54)
    case Bip74 => Some(74)
    case Bip84 => Some(84)
    case Bip86 => Some(86)
    case Cip11 => Some(44)
    case Cip1852 => Some(1852)
    case _ => None
  }

  /** What tells the shapes apart: the depth, the purpose, the fixed coin, and a level that is never hardened. */
  lemma ShapeFacts(kind: DerivationType, levels: seq<Level>)
    requires Shape(kind, levels)
    ensures Purpose(kind).Some? ==>
              |levels| == 5 && levels[0].index == Purpose(kind).value && !levels[3].hardened && !AllHardened(levels)
    ensures kind.Bip32? ==> |levels| == 3 && !levels[1].hardened && !AllHardened(levels)
    ensures kind.Cip11? ==> levels[1].index == 118
  {
    if !kind.Root? {
      var slots := Template(kind, |levels|).value;
      if Purpose(kind).Some? {
        assert Holds(slots[0], levels[0]) && Holds(slots[1], levels[1]) && Holds(slots[3], levels[3]);
      } else if kind.Bip32? {
        assert Holds(slots[1], levels[1]);
      }
    }
  }

  /**
   * Which other types the levels of a path also fit: any path is a slip10 path, and bip44 and cip11 share
   * those with coin 118 and charge 0 or 1. These are the pairs that strict validation has to keep apart.
   */
  lemma SharedShapes(k: DerivationType, k': DerivationType, levels: seq<Level>)
    requires Shape(k, levels) && !k.Root? && !k.Slip10?
    requires k' != k && k'.IsValid() && !k'.Root?
    ensures Shape(k', levels) <==>
            || k'.Slip10?
            || (k.Bip44? && k'.Cip11? && levels[1].index == 118)
            || (k.Cip11? && k'.Bip44? && levels[3].index <= 1)
  {
    HoldsEach(Template(k, |levels|).value, levels);
    if k'.Slip10? {
      ShapeIsBelow(k, levels);
    } else if Template(k', |levels|).Some? {
      HoldsEach(Template(k', |levels|).value, levels);
    }
  }

  /** What is left of the matrix when the path rules are applied: per network, the types and their one algorithm. */
  predicate Scheme(nt: NetworkType, kind: DerivationType, algorithm: Algorithm) {
    match nt
    case Bitcoin => algorithm.Secp256k1? && (kind.Bip32? || kind.Bip44? || kind.Bip49? || kind.Bip84? || kind.Bip86?)
    case EthereumVM => algorithm.Secp256k1? && (kind.Bip32? || kind.Bip44?)
    case AvalancheVM => algorithm.Secp256k1? && kind.Bip44?
    case TronVM => algorithm.Secp256k1? && kind.Bip44?
    case XrpLedger => algorithm.Secp256k1? && kind.Bip44?
    case Cosmos => algorithm.Secp256k1? && (kind.Bip44? || kind.Cip11?)
    case NearProtocol => (algorithm.Ed25519? && kind.Slip10?) || (algorithm.Secp256k1? && kind.Bip44?)
    case Aptos => (algorithm.Ed25519? && kind.Slip10?) || (algorithm.Secp256k1? && kind.Bip44?)
    case Sui =>
      || (algorithm.Ed25519? && kind.Slip10?)
      || (algorithm.Secp256k1? && kind.Bip54?)
      || (algorithm.Secp256r1? && kind.Bip74?)
    case Cardano => algorithm.Ed25519? && kind.Cip1852?
    case Unset => false
    case Other(_) => false
    case _ => algorithm.Ed25519? && kind.Slip10?
  }

  lemma PermittedScheme(nt: NetworkType, kind: DerivationType, levels: seq<Level>, algorithm: Algorithm)
    requires Permits(nt, kind, levels, algorithm) && !kind.Root?
    requires Purpose(kind).Some? || kind.Bip32? ==> !AllHardened(levels)
    ensures Scheme(nt, kind, algorithm)
  {
  }

  /** A path of the type with every level hardened that may be. */
  function SampleLevels(kind: DerivationType): seq<Level> {
    match kind
    case Bip32 => [Level(0, true), Level(0, false), Level(0, true)]
    case Slip10 => [Level(0, true)]
    case Cip11 => [Level(44, true), Level(118, true), Level(0, true), Level(0, false), Level(0, true)]
    case Cip1852 => [Level(1852, true), Level(1815, true), Level(0, true), Level(0, false), Level(0, true)]
    case _ =>
      var purpose := if Purpose(kind).Some? then Purpose(kind).value else 0;
      [Level(purpose, true), Level(60, true), Level(0, true), Level(0, false), Level(0, true)]
  }

  lemma SampleShape(kind: DerivationType)
    requires Purpose(kind).Some? || kind.Bip32? || kind.Slip10?
    ensures Shape(kind, SampleLevels(kind))
  {
  }

  /** The format is not resolved, or the network uses it and the purpose of the path allows it. */
  predicate FormatFits(nt: NetworkType, kind: DerivationType, format: Format) {
    format.Unset? || (NetworkAllowsFormat(nt, format) && DerivationAllowsFormat(nt, kind, format))
  }

  /** What strict validation asks of an address with a path, read off the table. */
  predicate StrictPath(nt: NetworkType, p: Path, algorithm: Algorithm, format: Format) {
    && Scheme(nt, p.kind, algorithm)
    && (p.kind.Slip10? ==> AllHardened(p.levels))
    && (nt.Cosmos? && p.kind.Bip44? ==> p.coin != 118)
    && FormatFits(nt, p.kind, format)
  }

  /** Hardened levels only are asked of ed25519 paths, which on the table are the slip10 ones and those of cip1852. */
  lemma SchemeCurves(nt: NetworkType, kind: DerivationType, algorithm: Algorithm)
    requires Scheme(nt, kind, algorithm)
    ensures algorithm.Ed25519? && !kind.Cip1852? <==> kind.Slip10?
    ensures nt.IsValid() && !kind.Root? && NetworkAllowsDerivation(nt, kind) && NetworkAllowsAlgorithm(nt, algorithm)
    ensures DerivationAlgorithm(nt, kind).Unset? || DerivationAlgorithm(nt, kind) == algorithm
  {
  }

  lemma AcceptedIsStrict(nt: NetworkType, p: Path, algorithm: Algorithm, format: Format)
    requires Shape(p.kind, p.levels) && !p.kind.Root? && NetworkAllowsAlgorithm(nt, algorithm)
    requires p.kind.Bip44? ==> p.levels[1].index == p.coin && |p.levels| == 5
    requires format.Unset? || NetworkAllowsFormat(nt, format)
    requires ValidatePath(nt, p, algorithm, format) == None
    ensures StrictPath(nt, p, algorithm, format)
  {
    ShapeFacts(p.kind, p.levels);
    PermittedScheme(nt, p.kind, p.levels, algorithm);
    SchemeCurves(nt, p.kind, algorithm);
  }

  lemma StrictIsAccepted(nt: NetworkType, p: Path, algorithm: Algorithm, format: Format)
    requires StrictPath(nt, p, algorithm, format)
    ensures ValidatePath(nt, p, algorithm, format) == None
  {
    SchemeCurves(nt, p.kind, algorithm);
  }

  /** The verdict and the error code on every reachable address with a path, by the table instead of the matrix. */
  lemma StrictExactly(a: AddressState)
    requires AddressOk(a) && !IsRoot(a)
    ensures Validate(a) ==
            if a.chain.network.Unset? then Some(UninitializedAddress)
            else if a.path.value.levels == [] then Some(InvalidDerivationPath)
            else if StrictPath(a.chain.network, a.path.value, ResolvedAlgorithm(a), ResolvedFormat(a)) then None
            else Some(Incompatible)
  {
    var nt, algorithm, format := a.chain.network, ResolvedAlgorithm(a), ResolvedFormat(a);
    if !nt.Unset? && a.path.value.levels != [] {
      if Validate(a) == None {
        AcceptedIsStrict(nt, a.path.value, algorithm, format);
      }
      if StrictPath(nt, a.path.value, algorithm, format) {
        StrictIsAccepted(nt, a.path.value, algorithm, format);
        SchemeCurves(nt, a.path.value.kind, algorithm);
      }
    }
  }

  /** A strictly valid address of a network, a derivation type and an algorithm. */
  predicate Uses(a: AddressState, nt: NetworkType, kind: DerivationType, algorithm: Algorithm) {
    && !IsRoot(a) && Validate(a) == None
    && a.chain.network == nt && a.path.value.kind == kind && ResolvedAlgorithm(a) == algorithm
  }

  /** An address with the levels given, the algorithm named, and no format named. */
  function Named(nt: NetworkType, kind: DerivationType, levels: seq<Level>, algorithm: Algorithm): AddressState {
    DEFAULT_ADDRESS.(
      chain := ChainState(nt, "1", None), path := Some(PathOf(kind, levels)), algorithm := algorithm)
  }

  lemma NamedIsOk(nt: NetworkType, kind: DerivationType, levels: seq<Level>, algorithm: Algorithm)
    requires nt.IsValid() && algorithm.IsValid() && Shape(kind, levels) && !kind.Root?
    ensures AddressOk(Named(nt, kind, levels, algorithm)) && Complete(Named(nt, kind, levels, algorithm).chain)
  {
    PopulateShaped(kind, levels);
    PathReplacedOk(DEFAULT_ADDRESS, Some(PathOf(kind, levels)));
  }

  lemma DefaultFormatFits(nt: NetworkType, kind: DerivationType)
    ensures FormatFits(nt, kind, DefaultFormat(nt))
  {
  }

  lemma NamedIsUsed(nt: NetworkType, kind: DerivationType, levels: seq<Level>, algorithm: Algorithm)
    requires nt.IsValid() && algorithm.IsValid() && Shape(kind, levels) && !kind.Root?
    requires StrictPath(nt, PathOf(kind, levels), algorithm, DefaultFormat(nt))
    ensures Uses(Named(nt, kind, levels, algorithm), nt, kind, algorithm)
  {
    NamedIsOk(nt, kind, levels, algorithm);
    ShapeIsBelow(kind, levels);
    StrictExactly(Named(nt, kind, levels, algorithm));
  }

  lemma SampleIsStrict(nt: NetworkType, kind: DerivationType, algorithm: Algorithm)
    requires Scheme(nt, kind, algorithm)
    ensures Shape(kind, SampleLevels(kind)) && !kind.Root? && nt.IsValid() && algorithm.IsValid()
    ensures StrictPath(nt, PathOf(kind, SampleLevels(kind)), algorithm, DefaultFormat(nt))
  {
    SchemeCurves(nt, kind, algorithm);
    SampleShape(kind);
    DefaultFormatFits(nt, kind);
  }

  lemma UsedIsScheme(a: AddressState, nt: NetworkType, kind: DerivationType, algorithm: Algorithm)
    requires AddressOk(a) && Uses(a, nt, kind, algorithm)
    ensures Scheme(nt, kind, algorithm)
  {
    StrictExactly(a);
  }

  /** The table is exact: a network, a type and an algorithm go together on some strictly valid address or on none. */
  lemma SchemesExactly(nt: NetworkType, kind: DerivationType, algorithm: Algorithm)
    ensures Scheme(nt, kind, algorithm) <==>
            exists a :: AddressOk(a) && Complete(a.chain) && Uses(a, nt, kind, algorithm)
  {
    if Scheme(nt, kind, algorithm) {
      var levels := SampleLevels(kind);
      SampleIsStrict(nt, kind, algorithm);
      NamedIsOk(nt, kind, levels, algorithm);
      NamedIsUsed(nt, kind, levels, algorithm);
    }
    if a :| AddressOk(a) && Complete(a.chain) && Uses(a, nt, kind, algorithm) {
      UsedIsScheme(a, nt, kind, algorithm);
    }
  }

  /** An address without a path is accepted on every network with that network's algorithms and formats. */
  lemma RootExactly(a: AddressState)
    requires AddressOk(a) && IsRoot(a) && !a.chain.network.Unset?
    ensures Validate(a) ==
            if && (a.algorithm.Unset? || NetworkAllowsAlgorithm(a.chain.network, a.algorithm))
               && (a.format.Unset? || NetworkAllowsFormat(a.chain.network, a.format))
            then None else Some(Incompatible)
  {
    MatrixIsClosed(a.chain.network);
    DefaultsAreNames(a.chain.network);
  }

  /** On each network the levels of a permitted path leave one type and one algorithm. */
  lemma PermittedOnce(
    nt: NetworkType, levels: seq<Level>, k: DerivationType, x: Algorithm, k': DerivationType, x': Algorithm)
    requires Shape(k, levels) && Shape(k', levels) && !k.Root? && !k'.Root?
    requires Permits(nt, k, levels, x) && Permits(nt, k', levels, x')
    ensures k == k' && x == x'
  {
    ShapeFacts(k, levels);
    ShapeFacts(k', levels);
    PermittedScheme(nt, k, levels, x);
    PermittedScheme(nt, k', levels, x');
    SchemesApart(nt, levels, k, x, k', x');
  }

  lemma SchemesApart(
    nt: NetworkType, levels: seq<Level>, k: DerivationType, x: Algorithm, k': DerivationType, x': Algorithm)
    requires Shape(k, levels) && Shape(k', levels)
    requires Scheme(nt, k, x) && Scheme(nt, k', x')
    requires k.Slip10? || k'.Slip10? ==> AllHardened(levels)
    requires nt.Cosmos? && (k.Bip44? || k'.Bip44?) ==> |levels| == 5 && levels[1].index != 118
    ensures k == k' && x == x'
  {
    ShapeFacts(k, levels);
    ShapeFacts(k', levels);
  }

  /** Both have a path on the same network, with the same child numbers: one key of one master seed. */
  predicate SameKey(a: AddressState, b: AddressState) {
    && !IsRoot(a) && !IsRoot(b)
    && a.chain.network == b.chain.network
    && ChildNumbers(a.path.value.levels) == ChildNumbers(b.path.value.levels)
  }

  /**
   * One key, one spelling: on a network the child numbers of a strictly valid path determine its
   * derivation type, the algorithm, every field of the path, and its text.
   */
  lemma OneKeyOneSpelling(a: AddressState, b: AddressState)
    requires AddressOk(a) && AddressOk(b)
    requires Validate(a) == None && Validate(b) == None
    requires SameKey(a, b)
    ensures a.path == b.path && ResolvedAlgorithm(a) == ResolvedAlgorithm(b)
    ensures Shown(a, DT) == Shown(b, DT) && Shown(a, DP) == Shown(b, DP)
  {
    AcceptedPermits(a);
    AcceptedPermits(b);
    var p, q := a.path.value, b.path.value;
    ShapeIsBelow(p.kind, p.levels);
    ShapeIsBelow(q.kind, q.levels);
    ChildNumbersInjective(p.levels, q.levels);
    PermittedOnce(a.chain.network, p.levels, p.kind, ResolvedAlgorithm(a), q.kind, ResolvedAlgorithm(b));
  }

  /** The same over strictly parsed texts. */
  lemma OneKeyOneUrn(s: string, t: string)
    ensures match (ParseUrnStrict(s), ParseUrnStrict(t))
            case (Ok(a), Ok(b)) =>
              SameKey(a, b) ==>
                a.path == b.path && ResolvedAlgorithm(a) == ResolvedAlgorithm(b) && Shown(a, DP) == Shown(b, DP)
            case _ => true
  {
    ParsedUrnIsOk(s);
    ParsedUrnIsOk(t);
    if ParseUrnStrict(s).Ok? && ParseUrnStrict(t).Ok? && SameKey(ParseUrnStrict(s).value, ParseUrnStrict(t).value) {
      OneKeyOneSpelling(ParseUrnStrict(s).value, ParseUrnStrict(t).value);
    }
  }

  // ---- closure ------------------------------------------------------------

  /** The verdict on an address is the verdict of the strict parser on its URN. */
  lemma StrictClosure(a: AddressState)
    requires AddressOk(a) && Complete(a.chain)
    ensures ParseUrnStrict(Urn(a)) ==
            match Validate(a) case None => Ok(Canonical(a)) case Some(e) => Err(e)
  {
    UrnRoundTrip(a);
    CanonicalIsSame(a);
  }

  lemma StrictClosureOverRuns(ops: seq<AddressOp>)
    requires !Run(ops).chain.network.Unset? && Run(ops).chain.id != ""
    ensures ParseUrnStrict(Urn(Run(ops))) ==
            match Validate(Run(ops)) case None => Ok(Canonical(Run(ops))) case Some(e) => Err(e)
  {
    ReachableAddresses(ops);
    StrictClosure(Run(ops));
  }

  /** The long form: the resolved algorithm and format written out through the setters. */
  function Expanded(a: AddressState): Result<AddressState> {
    var b :- SetAlgorithm(a, ResolvedAlgorithm(a).Str());
    SetFormat(b, ResolvedFormat(a).Str())
  }

  lemma ExpandedFields(a: AddressState)
    requires AddressOk(a)
    ensures Expanded(a) == Ok(a.(algorithm := ResolvedAlgorithm(a), format := ResolvedFormat(a)))
  {
    DefaultsAreNames(a.chain.network);
    AlgorithmWritten(a, ResolvedAlgorithm(a));
    FormatWritten(a.(algorithm := ResolvedAlgorithm(a)), ResolvedFormat(a));
  }

  lemma DefaultsAreNames(nt: NetworkType)
    ensures DefaultAlgorithm(nt).Unset? || DefaultAlgorithm(nt).IsValid()
    ensures DefaultFormat(nt).Unset? || DefaultFormat(nt).IsValid()
  {
  }

  /** A short form is validated as if rewritten in long form. */
  lemma ExpansionKeepsVerdict(a: AddressState)
    requires AddressOk(a)
    ensures Expanded(a).Ok? && AddressOk(Expanded(a).value)
    ensures Validate(Expanded(a).value) == Validate(a)
  {
    ExpandedFields(a);
    WrittenDefaultsKeepVerdict(a);
    DefaultsAreNames(a.chain.network);
  }

  lemma WrittenDefaultsKeepVerdict(a: AddressState)
    ensures Validate(a.(algorithm := ResolvedAlgorithm(a), format := ResolvedFormat(a))) == Validate(a)
  {
    var b := a.(algorithm := ResolvedAlgorithm(a), format := ResolvedFormat(a));
    assert ResolvedAlgorithm(b) == ResolvedAlgorithm(a) && ResolvedFormat(b) == ResolvedFormat(a);
  }

  /** Strict acceptance of a URN is stable under printing and under default expansion. */
  lemma StrictAcceptanceIsStable(text: string)
    ensures match ParseUrnStrict(text)
            case Ok(a) =>
              && ParseUrnStrict(Urn(a)) == Ok(a)
              && Expanded(a).Ok? && ParseUrnStrict(Urn(Expanded(a).value)) == Expanded(a)
            case Err(_) => true
  {
    ParsedUrnIsOk(text);
    if ParseUrnStrict(text).Ok? {
      AcceptedIsStable(ParseUrnStrict(text).value);
    }
  }

  lemma AcceptedIsStable(a: AddressState)
    requires AsParsed(a) && Validate(a) == None
    ensures ParseUrnStrict(Urn(a)) == Ok(a)
    ensures Expanded(a).Ok? && ParseUrnStrict(Urn(Expanded(a).value)) == Expanded(a)
  {
    StrictClosure(a);
    ExpansionKeepsVerdict(a);
    ExpandedFields(a);
    StrictClosure(Expanded(a).value);
  }

  /** Strict acceptance is not empty: a short Ethereum address of the path m/44'/60'/0'/0/0. */
  lemma SomeUrnIsAccepted()
    ensures exists text :: ParseUrnStrict(text).Ok? && !IsRoot(ParseUrnStrict(text).value)
  {
    var levels := [Level(44, true), Level(60, true), Level(0, true), Level(0, false), Level(0, false)];
    HoldsEach(Bip44Slots(44), levels);
    var a := DEFAULT_ADDRESS.(chain := ChainState(EthereumVM, "1", None), path := Some(PathOf(Bip44, levels)));
    assert Validate(a) == None;
    StrictClosure(a);
    assert ParseUrnStrict(Urn(a)) == Ok(a);
  }
}
