/**
 * Whole runs: any sequence of constructions, setter calls (successful or
 * failed) and edits through the mutable chain and path accessors.
 */
module Runs {
  import opened Addresses
  import opened ChainTheorems
  import opened Chains
  import opened Errors
  import opened Names
  import opened NssPairs
  import opened Paths
  import opened RoundTrips
  import opened Text
  import opened Wrappers

  /** What a caller can do with an address. Chains and paths that are passed in come from runs of their own. */
  datatype AddressOp =
    | New
    | NewFrom(chain: seq<ChainOp>, path: Option<seq<PathOp>>)
    | NewWith(chain: seq<ChainOp>, path: Option<seq<PathOp>>, aa: string, af: string, ap: string, as_: string)
    | CallSetDerivationType(dt: string)
    | CallSetDerivationPath(dp: string)
    | CallSetDerivation(dt: string, dp: string)
    | CallSetCoinType(ct: string)
    | CallSetAlgorithm(aa: string)
    | CallSetFormat(af: string)
    | CallSetPrefix(ap: string)
    | CallSetSuffix(as_: string)
    | CallSetWalletType(wt: string)
    | CallSetWalletId(wi: string)
    | EditChain(chainOp: ChainOp)                // through get_chain()
    | EditPath(pathOp: PathOp)                   // through *path(), when there is one
    | AssignPath(newPath: Option<seq<PathOp>>)   // through path()
    | Unmarshal(text: string)

  function RunOptional(ops: Option<seq<PathOp>>): Option<Path> {
    if ops.Some? then Some(RunPath(ops.value)) else None
  }

  function Apply(a: AddressState, op: AddressOp): (AddressState, Option<ErrorCode>) {
    match op
    case New => (DEFAULT_ADDRESS, None)
    case NewFrom(c, p) => (DEFAULT_ADDRESS.(chain := RunChain(c), path := RunOptional(p)), None)
    case NewWith(c, p, aa, af, ap, as_) => Keep(a, Construct(RunChain(c), RunOptional(p), aa, af, ap, as_))
    case CallSetDerivationType(dt) => Keep(a, SetDerivationType(a, dt))
    case CallSetDerivationPath(dp) => SetDerivationPath(a, dp)
    case CallSetDerivation(dt, dp) => Keep(a, SetDerivation(a, dt, dp))
    case CallSetCoinType(ct) => Keep(a, SetCoinType(a, ct))
    case CallSetAlgorithm(aa) => Keep(a, SetAlgorithm(a, aa))
    case CallSetFormat(af) => Keep(a, SetFormat(a, af))
    case CallSetPrefix(ap) => Keep(a, SetPrefix(a, ap))
    case CallSetSuffix(as_) => Keep(a, SetSuffix(a, as_))
    case CallSetWalletType(wt) => Keep(a, SetWalletType(a, wt))
    case CallSetWalletId(wi) => Keep(a, SetWalletId(a, wi))
    case EditChain(op) => var (c, err) := ApplyChain(a.chain, op); (a.(chain := c), err)
    case EditPath(op) =>
      if a.path.None? then (a, None)
      else var (p, err) := ApplyPath(a.path.value, op); (a.(path := Some(p)), err)
    case AssignPath(p) => (a.(path := RunOptional(p)), None)
    case Unmarshal(text) => Keep(a, ParseUrn(text))
  }

  /** The state after a run from `a`. */
  function RunFrom(a: AddressState, ops: seq<AddressOp>): AddressState {
    if ops == [] then a else Apply(RunFrom(a, ops[..|ops| - 1]), ops[|ops| - 1]).0
  }

  /** The state after a run of a program that starts with a default address. */
  function Run(ops: seq<AddressOp>): AddressState {
    RunFrom(DEFAULT_ADDRESS, ops)
  }

  // ---- the invariant ------------------------------------------------------

  lemma SetTypeToOk(a: AddressState, kind: DerivationType)
    requires AddressOk(a)
    ensures SetTypeTo(a, kind).Ok? ==> AddressOk(SetTypeTo(a, kind).value)
  {
  }

  lemma SetDerivationPathOk(a: AddressState, dp: string)
    requires AddressOk(a)
    ensures AddressOk(SetDerivationPath(a, dp).0)
  {
    var kind, text := PathOrFresh(a).kind, ToLower(Trim(dp));
    if ParsePath(kind, text).Ok? {
      ParsedIsCoherent(kind, text);
    }
  }

  lemma SetDerivationToOk(a: AddressState, kind: DerivationType, dp: string)
    requires AddressOk(a) && SetDerivationTo(a, kind, dp).Ok?
    ensures var b := SetDerivationTo(a, kind, dp).value;
            AddressOk(b) && b.chain == a.chain && PathIsSet(b) && Canonical(b) == b
  {
    SetDerivationParses(a, kind, dp);
    if !kind.Root? {
      ParsedIsCoherent(kind, ToLower(Trim(dp)));
    }
  }

  lemma SetAlgorithmOk(a: AddressState, aa: string)
    requires AddressOk(a) && SetAlgorithm(a, aa).Ok?
    ensures AddressOk(SetAlgorithm(a, aa).value)
    ensures SetAlgorithm(a, aa).value == a.(algorithm := SetAlgorithm(a, aa).value.algorithm)
  {
  }

  lemma SetFormatOk(a: AddressState, af: string)
    requires AddressOk(a) && SetFormat(a, af).Ok?
    ensures AddressOk(SetFormat(a, af).value)
    ensures SetFormat(a, af).value == a.(format := SetFormat(a, af).value.format)
  {
  }

  lemma SetFreeFormsOk(a: AddressState, m: Components)
    requires AddressOk(a) && SetFreeForms(a, m).Ok?
    ensures var b := SetFreeForms(a, m).value;
            AddressOk(b) && b.chain == a.chain && b.path == a.path
  {
  }

  lemma GivenFormatOk(a: AddressState, aa: string, af: string)
    requires AddressOk(a) && GivenFormat(a, aa, af).Ok?
    ensures AddressOk(GivenFormat(a, aa, af).value)
  {
    if aa != "" {
      SetAlgorithmOk(a, aa);
    }
    var b := if aa == "" then a else SetAlgorithm(a, aa).value;
    if af != "" {
      SetFormatOk(b, af);
    }
  }

  lemma GivenAffixesOk(a: AddressState, ap: string, as_: string)
    requires AddressOk(a) && GivenAffixes(a, ap, as_).Ok?
    ensures AddressOk(GivenAffixes(a, ap, as_).value)
  {
  }

  lemma ConstructOk(c: ChainState, p: Option<Path>, aa: string, af: string, ap: string, as_: string)
    requires ChainOk(c) && (p.Some? ==> Coherent(p.value))
    requires Construct(c, p, aa, af, ap, as_).Ok?
    ensures AddressOk(Construct(c, p, aa, af, ap, as_).value)
  {
    var a := DEFAULT_ADDRESS.(chain := c, path := p);
    GivenFormatOk(a, aa, af);
    GivenAffixesOk(GivenFormat(a, aa, af).value, ap, as_);
  }

  /** A parsed address is complete, has its path set, and is in the parser's own representation. */
  predicate AsParsed(a: AddressState) {
    AddressOk(a) && Complete(a.chain) && PathIsSet(a) && Canonical(a) == a
  }

  lemma ParsedIsOk(m: Components)
    requires FromComponents(m).Ok?
    ensures AsParsed(FromComponents(m).value)
  {
    var c := BuildChain(m).value;
    BuiltIsComplete(m);
    var s0 := DEFAULT_ADDRESS.(chain := c);
    SetDerivationToOk(s0, NamedType(Get(m, DT)), Get(m, DP));
    var s1 := SetDerivation(s0, Get(m, DT), Get(m, DP)).value;
    SetAlgorithmOk(s1, Get(m, AA));
    var s2 := SetAlgorithm(s1, Get(m, AA)).value;
    SetFormatOk(s2, Get(m, AF));
    SetFreeFormsOk(SetFormat(s2, Get(m, AF)).value, m);
  }

  lemma ParsedUrnIsOk(text: string)
    ensures ParseUrn(text).Ok? ==> AsParsed(ParseUrn(text).value)
  {
    if ParseUrn(text).Ok? {
      ParsedIsOk(ParseNss(TrimRight(StripRqf(Trim(text)[9..]))).value);
    }
  }

  lemma RunOptionalOk(ops: Option<seq<PathOp>>)
    ensures RunOptional(ops).Some? ==> Coherent(RunOptional(ops).value)
  {
    if ops.Some? {
      ReachablePaths(ops.value);
    }
  }

  lemma ConstructionOk(a: AddressState, op: AddressOp)
    requires AddressOk(a) && (op.New? || op.NewFrom? || op.NewWith?)
    ensures AddressOk(Apply(a, op).0)
  {
    if !op.New? {
      ReachableChains(op.chain);
      RunOptionalOk(op.path);
    }
    if op.NewWith? && Construct(RunChain(op.chain), RunOptional(op.path), op.aa, op.af, op.ap, op.as_).Ok? {
      ConstructOk(RunChain(op.chain), RunOptional(op.path), op.aa, op.af, op.ap, op.as_);
    }
  }

  lemma FreeFormCallOk(a: AddressState, op: AddressOp)
    requires AddressOk(a) && (op.CallSetPrefix? || op.CallSetSuffix? || op.CallSetWalletType? || op.CallSetWalletId?)
    ensures AddressOk(Apply(a, op).0)
  {
  }

  lemma DerivationCallOk(a: AddressState, op: AddressOp)
    requires AddressOk(a) && (op.CallSetDerivationType? || op.CallSetDerivationPath? || op.CallSetDerivation?)
    ensures AddressOk(Apply(a, op).0)
  {
    match op {
      case CallSetDerivationType(dt) => SetTypeToOk(a, NamedType(dt));
      case CallSetDerivationPath(dp) => SetDerivationPathOk(a, dp);
      case CallSetDerivation(dt, dp) =>
        if SetDerivation(a, dt, dp).Ok? {
          SetDerivationToOk(a, NamedType(dt), dp);
        }
    }
  }

  lemma ChainReplacedOk(a: AddressState, c: ChainState)
    requires AddressOk(a) && ChainOk(c)
    ensures AddressOk(a.(chain := c))
  {
  }

  lemma PathReplacedOk(a: AddressState, p: Option<Path>)
    requires AddressOk(a) && (p.Some? ==> Coherent(p.value))
    ensures AddressOk(a.(path := p))
  {
  }

  lemma ChainEditStep(a: AddressState, op: ChainOp)
    ensures Apply(a, EditChain(op)).0 == a.(chain := ApplyChain(a.chain, op).0)
  {
  }

  lemma PathEditStep(a: AddressState, op: PathOp)
    requires a.path.Some?
    ensures Apply(a, EditPath(op)).0 == a.(path := Some(ApplyPath(a.path.value, op).0))
  {
  }

  lemma ChainEditOk(a: AddressState, op: ChainOp)
    requires AddressOk(a)
    ensures AddressOk(Apply(a, EditChain(op)).0)
  {
    ChainEditStep(a, op);
    ApplyChainOk(a.chain, op);
    ChainReplacedOk(a, ApplyChain(a.chain, op).0);
  }

  lemma PathEditOk(a: AddressState, op: PathOp)
    requires AddressOk(a)
    ensures AddressOk(Apply(a, EditPath(op)).0)
  {
    if a.path.Some? {
      PathEditStep(a, op);
      ApplyPathCoherent(a.path.value, op);
      PathReplacedOk(a, Some(ApplyPath(a.path.value, op).0));
    }
  }

  lemma PathAssignedOk(a: AddressState, p: Option<seq<PathOp>>)
    requires AddressOk(a)
    ensures AddressOk(Apply(a, AssignPath(p)).0)
  {
    RunOptionalOk(p);
    PathReplacedOk(a, RunOptional(p));
  }

  lemma UnmarshalOk(a: AddressState, text: string)
    requires AddressOk(a)
    ensures AddressOk(Apply(a, Unmarshal(text)).0)
  {
    ParsedUrnIsOk(text);
  }

  lemma ApplyOk(a: AddressState, op: AddressOp)
    requires AddressOk(a)
    ensures AddressOk(Apply(a, op).0)
  {
    match op {
      case New => ConstructionOk(a, op);
      case NewFrom(_, _) => ConstructionOk(a, op);
      case NewWith(_, _, _, _, _, _) => ConstructionOk(a, op);
      case CallSetDerivationType(_) => DerivationCallOk(a, op);
      case CallSetDerivationPath(_) => DerivationCallOk(a, op);
      case CallSetDerivation(_, _) => DerivationCallOk(a, op);
      case CallSetCoinType(_) =>
      case CallSetAlgorithm(aa) =>
        if SetAlgorithm(a, aa).Ok? {
          SetAlgorithmOk(a, aa);
        }
      case CallSetFormat(af) =>
        if SetFormat(a, af).Ok? {
          SetFormatOk(a, af);
        }
      case CallSetPrefix(_) => FreeFormCallOk(a, op);
      case CallSetSuffix(_) => FreeFormCallOk(a, op);
      case CallSetWalletType(_) => FreeFormCallOk(a, op);
      case CallSetWalletId(_) => FreeFormCallOk(a, op);
      case EditChain(op) => ChainEditOk(a, op);
      case EditPath(op) => PathEditOk(a, op);
      case AssignPath(p) => PathAssignedOk(a, p);
      case Unmarshal(text) => UnmarshalOk(a, text);
    }
  }

  lemma {:induction false} RunFromOk(a: AddressState, ops: seq<AddressOp>)
    requires AddressOk(a)
    ensures AddressOk(RunFrom(a, ops))
  {
    if ops != [] {
      RunFromOk(a, ops[..|ops| - 1]);
      ApplyOk(RunFrom(a, ops[..|ops| - 1]), ops[|ops| - 1]);
    }
  }

  lemma ReachableAddresses(ops: seq<AddressOp>)
    ensures AddressOk(Run(ops))
  {
    RunFromOk(DEFAULT_ADDRESS, ops);
  }

  lemma RunStep(a: AddressState, ops: seq<AddressOp>, op: AddressOp)
    ensures RunFrom(a, ops + [op]) == Apply(RunFrom(a, ops), op).0
  {
    assert (ops + [op])[..|ops|] == ops;
  }

  lemma PathIsReached(p: Option<Path>) returns (ops: Option<seq<PathOp>>)
    requires p.Some? ==> Coherent(p.value)
    ensures RunOptional(ops) == p
  {
    if p.None? {
      ops := None;
    } else {
      CoherentIsReached(p.value);
      var path :| RunPath(path) == p.value;
      ops := Some(path);
    }
  }

  lemma AlgorithmSet(ops: seq<AddressOp>, algorithm: Algorithm)
    requires algorithm.Unset? || algorithm.IsValid()
    ensures Run(ops + [CallSetAlgorithm(algorithm.Str())]) == Run(ops).(algorithm := algorithm)
  {
    AlgorithmWritten(Run(ops), algorithm);
    RunStep(DEFAULT_ADDRESS, ops, CallSetAlgorithm(algorithm.Str()));
  }

  lemma FormatSet(ops: seq<AddressOp>, format: Format)
    requires format.Unset? || format.IsValid()
    ensures Run(ops + [CallSetFormat(format.Str())]) == Run(ops).(format := format)
  {
    FormatWritten(Run(ops), format);
    RunStep(DEFAULT_ADDRESS, ops, CallSetFormat(format.Str()));
  }

  lemma PrefixSet(ops: seq<AddressOp>, v: string)
    requires AllNss(v)
    ensures Run(ops + [CallSetPrefix(v)]) == Run(ops).(prefix := v)
  {
    AllNssTrimmed(v);
    RunStep(DEFAULT_ADDRESS, ops, CallSetPrefix(v));
  }

  lemma SuffixSet(ops: seq<AddressOp>, v: string)
    requires AllNss(v)
    ensures Run(ops + [CallSetSuffix(v)]) == Run(ops).(suffix := v)
  {
    AllNssTrimmed(v);
    RunStep(DEFAULT_ADDRESS, ops, CallSetSuffix(v));
  }

  lemma WalletTypeSet(ops: seq<AddressOp>, v: string)
    requires AllNss(v)
    ensures Run(ops + [CallSetWalletType(v)]) == Run(ops).(walletType := v)
  {
    AllNssTrimmed(v);
    RunStep(DEFAULT_ADDRESS, ops, CallSetWalletType(v));
  }

  lemma WalletIdSet(ops: seq<AddressOp>, v: string)
    requires AllNss(v)
    ensures Run(ops + [CallSetWalletId(v)]) == Run(ops).(walletId := v)
  {
    AllNssTrimmed(v);
    RunStep(DEFAULT_ADDRESS, ops, CallSetWalletId(v));
  }

  lemma OkIsReached(a: AddressState) returns (ops: seq<AddressOp>)
    requires AddressOk(a)
    ensures Run(ops) == a
  {
    var c := OkChainIsReached(a.chain);
    var p := PathIsReached(a.path);
    RunOne(DEFAULT_ADDRESS, NewFrom(c, p));
    ops := [NewFrom(c, p)];
    AlgorithmSet(ops, a.algorithm);
    ops := ops + [CallSetAlgorithm(a.algorithm.Str())];
    FormatSet(ops, a.format);
    ops := ops + [CallSetFormat(a.format.Str())];
    PrefixSet(ops, a.prefix);
    ops := ops + [CallSetPrefix(a.prefix)];
    SuffixSet(ops, a.suffix);
    ops := ops + [CallSetSuffix(a.suffix)];
    WalletTypeSet(ops, a.walletType);
    ops := ops + [CallSetWalletType(a.walletType)];
    WalletIdSet(ops, a.walletId);
    ops := ops + [CallSetWalletId(a.walletId)];
  }

  /** The invariant is exact: the addresses that keep it are those that some run reaches. */
  lemma ReachableAddressesExactly(a: AddressState)
    ensures AddressOk(a) <==> exists ops :: Run(ops) == a
  {
    if AddressOk(a) {
      var ops := OkIsReached(a);
    }
    if ops :| Run(ops) == a {
      ReachableAddresses(ops);
    }
  }

  // ---- the theorem --------------------------------------------------------

  lemma {:induction false} SameFields(a: AddressState, b: AddressState, cs: seq<Component>)
    requires forall c :: Shown(a, c) == Shown(b, c)
    ensures PrintedFields(a, cs) == PrintedFields(b, cs)
  {
    if cs != [] {
      SameFields(a, b, cs[..|cs| - 1]);
    }
  }

  /** The parser's representation of an address is the same address to every observer. */
  lemma CanonicalIsSame(a: AddressState)
    ensures Nss(Canonical(a)) == Nss(a) && Urn(Canonical(a)) == Urn(a)
    ensures GetDerivationType(Canonical(a)) == GetDerivationType(a)
    ensures ResolvedAlgorithm(Canonical(a)) == ResolvedAlgorithm(a)
    ensures ResolvedFormat(Canonical(a)) == ResolvedFormat(a)
    ensures Validate(Canonical(a)) == Validate(a)
  {
    forall c ensures Shown(Canonical(a), c) == Shown(a, c) {
    }
    SameFields(Canonical(a), a, OPTIONAL);
  }

  /**
   * After any run the printed URN parses exactly when the network, the chain id and the path are set,
   * and then gives the address back: chain, coin, derivation type, levels, shortcuts and all the rest.
   */
  lemma WholeRunRoundTrip(ops: seq<AddressOp>)
    ensures var a := Run(ops);
            ParseUrn(Urn(a)) ==
            if a.chain.network.Unset? || a.chain.id == "" then Err(InvalidNss)
            else if !PathIsSet(a) then Err(InvalidDerivationPath)
            else Ok(Canonical(a))
  {
    var a := Run(ops);
    ReachableAddresses(ops);
    if Complete(a.chain) {
      UrnRoundTrip(a);
    } else {
      IncompleteDoesNotParse(a);
    }
  }

  /** Marshalled text comes back whenever the chain has an id; the marshaller itself does not ask for one. */
  lemma MarshalRoundTrip(ops: seq<AddressOp>)
    requires MarshalText(Run(ops)).Ok?
    ensures ParseUrn(MarshalText(Run(ops)).value).Ok? <==> Run(ops).chain.id != ""
  {
    WholeRunRoundTrip(ops);
  }

  /** The id really can be missing: a default chain whose network is set marshals, but its text does not parse. */
  lemma MarshalWithoutId()
    ensures var a := Run([EditChain(ChainSetNetwork(EthereumVM))]);
            MarshalText(a).Ok? && ParseUrn(Urn(a)) == Err(InvalidNss)
  {
    var op := EditChain(ChainSetNetwork(EthereumVM));
    RunOne(DEFAULT_ADDRESS, op);
    ChainEditStep(DEFAULT_ADDRESS, op.chainOp);
    assert ApplyChain(DEFAULT_CHAIN, op.chainOp).0 == DEFAULT_CHAIN.(network := EthereumVM);
    WholeRunRoundTrip([op]);
  }

  lemma RunOne(a: AddressState, op: AddressOp)
    ensures RunFrom(a, [op]) == Apply(a, op).0
  {
    assert [op][..0] == [];
    assert RunFrom(a, [op][..0]) == a;
  }

  /** Whatever text was parsed, printing and parsing again changes nothing. */
  lemma ParsedIsFixpoint(text: string)
    ensures match ParseUrn(text)
            case Ok(a) => ParseUrn(Urn(a)) == Ok(a)
            case Err(_) => true
  {
    ParsedUrnIsOk(text);
    if ParseUrn(text).Ok? {
      UrnRoundTrip(ParseUrn(text).value);
    }
  }

  /** After any run the NSS starts with the key of the address's own chain and of no other reachable chain. */
  lemma WholeRunIdentity(ops: seq<AddressOp>, others: seq<ChainOp>)
    ensures DelimitedHead(Key(RunChain(others)), Nss(Run(ops))) <==>
            RunChain(others).network == Run(ops).chain.network && RunChain(others).id == Run(ops).chain.id
  {
    ReachableAddresses(ops);
    ReachableChains(others);
    NssNamesOneChain(Run(ops), RunChain(others));
  }

  // ---- failures -----------------------------------------------------------

  /** What a caller can tell about an address from its text and its verdicts. */
  predicate Alike(a: AddressState, b: AddressState) {
    && Nss(a) == Nss(b)
    && ResolvedAlgorithm(a) == ResolvedAlgorithm(b)
    && ResolvedFormat(a) == ResolvedFormat(b)
    && GetDerivationType(a) == GetDerivationType(b)
    && Validate(a) == Validate(b)
  }

  lemma FailureKeeps(a: AddressState, op: AddressOp)
    requires AddressOk(a) && Apply(a, op).1.Some? && !op.CallSetDerivationPath?
    ensures Apply(a, op).0 == a
  {
    if op.EditChain? {
      ApplyChainOk(a.chain, op.chainOp);
    }
    if op.EditPath? {
      ApplyPathCoherent(a.path.value, op.pathOp);
    }
  }

  /** A failed call leaves the address as it was; only a failed path may have allocated an untyped path. */
  lemma FailureChangesNothing(a: AddressState, op: AddressOp)
    requires AddressOk(a) && Apply(a, op).1.Some?
    ensures Alike(Apply(a, op).0, a) && Canonical(Apply(a, op).0) == Canonical(a)
    ensures !op.CallSetDerivationPath? ==> Apply(a, op).0 == a
  {
    var b := Apply(a, op).0;
    assert Canonical(b) == Canonical(a) by {
      if op.CallSetDerivationPath? {
        FailedPath(a, op.dp);
      } else {
        FailureKeeps(a, op);
      }
    }
    if !op.CallSetDerivationPath? {
      FailureKeeps(a, op);
    }
    CanonicalIsSame(a);
    CanonicalIsSame(b);
  }

  lemma FailedPath(a: AddressState, dp: string)
    requires SetDerivationPath(a, dp).1.Some?
    ensures Canonical(SetDerivationPath(a, dp).0) == Canonical(a)
    ensures SetDerivationPath(a, dp).0 == if a.path.None? then a.(path := Some(Empty(DerivationType.Unset))) else a
  {
  }

  /** Every operation but an edit of the path object itself, which must exist to be edited. */
  predicate IsCall(op: AddressOp) {
    !op.EditPath?
  }

  lemma SameRootness(a: AddressState, b: AddressState)
    requires AddressOk(a) && AddressOk(b) && Canonical(a) == Canonical(b)
    ensures IsRoot(a) <==> IsRoot(b)
    ensures !IsRoot(a) ==> a == b
    ensures IsRoot(a) ==> a.path.Some? ==> a.path.value == Empty(a.path.value.kind)
  {
  }

  lemma TypeRespectsCanonical(a: AddressState, b: AddressState, kind: DerivationType)
    requires AddressOk(a) && AddressOk(b) && Canonical(a) == Canonical(b)
    ensures SetTypeTo(a, kind).Ok? <==> SetTypeTo(b, kind).Ok?
    ensures SetTypeTo(a, kind).Err? ==> SetTypeTo(a, kind) == SetTypeTo(b, kind)
    ensures SetTypeTo(a, kind).Ok? ==> Canonical(SetTypeTo(a, kind).value) == Canonical(SetTypeTo(b, kind).value)
  {
    SameRootness(a, b);
  }

  lemma PathRespectsCanonical(a: AddressState, b: AddressState, dp: string)
    requires AddressOk(a) && AddressOk(b) && Canonical(a) == Canonical(b)
    ensures SetDerivationPath(a, dp).1 == SetDerivationPath(b, dp).1
    ensures Canonical(SetDerivationPath(a, dp).0) == Canonical(SetDerivationPath(b, dp).0)
  {
    SameRootness(a, b);
  }

  lemma FieldCallsRespectPath(a: AddressState, p: Option<Path>, op: AddressOp)
    requires IsRoot(a) && IsRoot(a.(path := p)) && IsCall(op)
    requires !op.CallSetDerivationType? && !op.CallSetDerivationPath?
    ensures Apply(a, op).1 == Apply(a.(path := p), op).1
    ensures Canonical(Apply(a, op).0) == Canonical(Apply(a.(path := p), op).0)
  {
  }

  /** A parse through `path()`, the one operation whose answer tells an untyped path from a root path. */
  predicate ParsesPath(op: AddressOp) {
    op.EditPath? && op.pathOp.PathParsePath?
  }

  /** Two path objects without levels answer a parse with different codes, or only the root one accepts it. */
  lemma ParseTellsKind(a: AddressState, b: AddressState, text: string)
    requires AddressOk(a) && AddressOk(b) && Canonical(a) == Canonical(b) && a.path.Some? && b.path.Some?
    ensures Apply(a, EditPath(PathParsePath(text))).1 == Apply(b, EditPath(PathParsePath(text))).1 <==> a.path == b.path
  {
    SameRootness(a, b);
  }

  /** An edit finds a path object in both, or in neither. */
  lemma EditsRespectPath(a: AddressState, b: AddressState, op: PathOp)
    requires AddressOk(a) && AddressOk(b) && Canonical(a) == Canonical(b) && (a.path.Some? <==> b.path.Some?)
    ensures Canonical(Apply(a, EditPath(op)).0) == Canonical(Apply(b, EditPath(op)).0)
    ensures !op.PathParsePath? ==> Apply(a, EditPath(op)).1 == Apply(b, EditPath(op)).1
  {
    SameRootness(a, b);
  }

  /**
   * Two addresses with the same canonical form come out of every operation with the same canonical form, and
   * but for an edit of a path object that only one of them has they are given the same answer, exactly unless
   * the operation parses into path objects that differ.
   */
  lemma CallsRespectCanonical(a: AddressState, b: AddressState, op: AddressOp)
    requires AddressOk(a) && AddressOk(b) && Canonical(a) == Canonical(b)
    requires IsCall(op) || (a.path.Some? <==> b.path.Some?)
    ensures Canonical(Apply(a, op).0) == Canonical(Apply(b, op).0)
    ensures Apply(a, op).1 == Apply(b, op).1 <==> !(ParsesPath(op) && a.path != b.path)
  {
    SameRootness(a, b);
    if a != b {
      assert b == a.(path := b.path);
      match op {
        case CallSetDerivationType(dt) => TypeRespectsCanonical(a, b, NamedType(dt));
        case CallSetDerivationPath(dp) => PathRespectsCanonical(a, b, dp);
        case EditPath(op) =>
          EditsRespectPath(a, b, op);
          if op.PathParsePath? {
            ParseTellsKind(a, b, op.text);
          }
        case _ => FieldCallsRespectPath(a, b.path, op);
      }
    }
  }

  /** Whether there is a path object afterwards depends on the operation, its outcome and whether there was one. */
  function HasPathAfter(had: bool, op: AddressOp, outcome: Option<ErrorCode>): bool {
    match op
    case New => false
    case NewFrom(_, p) => p.Some?
    case NewWith(_, p, _, _, _, _) => if outcome.None? then p.Some? else had
    case CallSetDerivationType(_) => outcome.None? || had
    case CallSetDerivationPath(_) => true
    case CallSetDerivation(_, _) => outcome.None? || had
    case AssignPath(p) => p.Some?
    case Unmarshal(_) => outcome.None? || had
    case _ => had
  }

  lemma DerivationHasPath(a: AddressState, kind: DerivationType, dp: string)
    ensures SetDerivationTo(a, kind, dp).Ok? ==> SetDerivationTo(a, kind, dp).value.path.Some?
  {
  }

  lemma ConstructedPath(c: ChainState, p: Option<Path>, aa: string, af: string, ap: string, as_: string)
    ensures Construct(c, p, aa, af, ap, as_).Ok? ==> Construct(c, p, aa, af, ap, as_).value.path == p
  {
  }

  lemma PathPresence(a: AddressState, op: AddressOp)
    ensures Apply(a, op).0.path.Some? <==> HasPathAfter(a.path.Some?, op, Apply(a, op).1)
  {
    match op {
      case NewWith(c, p, aa, af, ap, as_) => ConstructedPath(RunChain(c), RunOptional(p), aa, af, ap, as_);
      case CallSetDerivation(dt, dp) => DerivationHasPath(a, NamedType(dt), dp);
      case Unmarshal(text) => ParsedUrnIsOk(text);
      case _ =>
    }
  }

  lemma PresenceRespected(a: AddressState, b: AddressState, op: AddressOp)
    requires AddressOk(a) && AddressOk(b) && Canonical(a) == Canonical(b) && (a.path.Some? <==> b.path.Some?)
    ensures Apply(a, op).0.path.Some? <==> Apply(b, op).0.path.Some?
  {
    PathPresence(a, op);
    PathPresence(b, op);
    CallsRespectCanonical(a, b, op);
  }

  /** Every run keeps the canonical forms the same, under the same proviso. */
  lemma {:induction false} RunsRespectCanonical(a: AddressState, b: AddressState, ops: seq<AddressOp>)
    requires AddressOk(a) && AddressOk(b) && Canonical(a) == Canonical(b)
    requires (forall i :: 0 <= i < |ops| ==> IsCall(ops[i])) || (a.path.Some? <==> b.path.Some?)
    ensures Canonical(RunFrom(a, ops)) == Canonical(RunFrom(b, ops))
    ensures (a.path.Some? <==> b.path.Some?) ==> (RunFrom(a, ops).path.Some? <==> RunFrom(b, ops).path.Some?)
  {
    if ops != [] {
      var init, op := ops[..|ops| - 1], ops[|ops| - 1];
      RunsRespectCanonical(a, b, init);
      RunFromOk(a, init);
      RunFromOk(b, init);
      CallsRespectCanonical(RunFrom(a, init), RunFrom(b, init), op);
      if a.path.Some? <==> b.path.Some? {
        PresenceRespected(RunFrom(a, init), RunFrom(b, init), op);
      }
    }
  }

  /** What the calls of a run answer: nothing, or the code of the exception. */
  function Outcomes(a: AddressState, ops: seq<AddressOp>): (outcomes: seq<Option<ErrorCode>>)
    ensures |outcomes| == |ops|
  {
    if ops == [] then []
    else Outcomes(a, ops[..|ops| - 1]) + [Apply(RunFrom(a, ops[..|ops| - 1]), ops[|ops| - 1]).1]
  }

  lemma {:induction false} OutcomeAt(a: AddressState, ops: seq<AddressOp>, i: nat)
    requires i < |ops|
    ensures Outcomes(a, ops)[i] == Apply(RunFrom(a, ops[..i]), ops[i]).1
  {
    var init := ops[..|ops| - 1];
    if i < |init| {
      OutcomeAt(a, init, i);
      assert init[..i] == ops[..i];
    }
  }

  /** A step of two runs at which they are answered alike. */
  predicate SameAnswer(a: AddressState, b: AddressState, ops: seq<AddressOp>, i: nat)
    requires i < |ops|
  {
    !(ParsesPath(ops[i]) && RunFrom(a, ops[..i]).path != RunFrom(b, ops[..i]).path)
  }

  lemma OutcomeRespected(a: AddressState, b: AddressState, ops: seq<AddressOp>, i: nat)
    requires AddressOk(a) && AddressOk(b) && Canonical(a) == Canonical(b) && i < |ops|
    requires (forall i :: 0 <= i < |ops| ==> IsCall(ops[i])) || (a.path.Some? <==> b.path.Some?)
    ensures Outcomes(a, ops)[i] == Outcomes(b, ops)[i] <==> SameAnswer(a, b, ops, i)
  {
    OutcomeAt(a, ops, i);
    OutcomeAt(b, ops, i);
    RunsRespectCanonical(a, b, ops[..i]);
    RunFromOk(a, ops[..i]);
    RunFromOk(b, ops[..i]);
    CallsRespectCanonical(RunFrom(a, ops[..i]), RunFrom(b, ops[..i]), ops[i]);
  }

  /** The answers over a run agree exactly if no step parses into path objects that differ by then. */
  lemma OutcomesRespectCanonical(a: AddressState, b: AddressState, ops: seq<AddressOp>)
    requires AddressOk(a) && AddressOk(b) && Canonical(a) == Canonical(b)
    requires (forall i :: 0 <= i < |ops| ==> IsCall(ops[i])) || (a.path.Some? <==> b.path.Some?)
    ensures Outcomes(a, ops) == Outcomes(b, ops) <==> forall i :: 0 <= i < |ops| ==> SameAnswer(a, b, ops, i)
  {
    forall i | 0 <= i < |ops| ensures Outcomes(a, ops)[i] == Outcomes(b, ops)[i] <==> SameAnswer(a, b, ops, i) {
      OutcomeRespected(a, b, ops, i);
    }
  }

  /** After `ops` the addresses are alike, and the calls on the way were answered alike. */
  predicate AlikeAfter(a: AddressState, b: AddressState, ops: seq<AddressOp>) {
    Alike(RunFrom(a, ops), RunFrom(b, ops)) && Outcomes(a, ops) == Outcomes(b, ops)
  }

  /** A failed call is as if it had not been made, as long as nobody edits the path object. */
  lemma FailureIsForgottenByCalls(before: seq<AddressOp>, failed: AddressOp, after: seq<AddressOp>)
    requires Apply(Run(before), failed).1.Some?
    requires forall i :: 0 <= i < |after| ==> IsCall(after[i])
    ensures AlikeAfter(Apply(Run(before), failed).0, Run(before), after)
  {
    var a := Run(before);
    var b := Apply(a, failed).0;
    ReachableAddresses(before);
    ApplyOk(a, failed);
    FailureChangesNothing(a, failed);
    RunsRespectCanonical(b, a, after);
    OutcomesRespectCanonical(b, a, after);
    CanonicalIsSame(RunFrom(a, after));
    CanonicalIsSame(RunFrom(b, after));
  }

  lemma OtherTypeIsSeen(a: AddressState, b: AddressState)
    requires GetDerivationType(a) != GetDerivationType(b)
    ensures !Alike(a, b)
  {
  }

  /** Where there is a path object an edit can give it a type, and where there is none it cannot. */
  lemma EditSeesPath(a: AddressState)
    requires IsRoot(a)
    ensures GetDerivationType(Apply(a, EditPath(PathSetType(Bip44))).0) == if a.path.Some? then Bip44 else Root
  {
  }

  /** The path object that a failed path leaves behind can be given a type; without it there is nothing to edit. */
  lemma FailedPathCanBeTold(a: AddressState, failed: AddressOp)
    requires failed.CallSetDerivationPath? && a.path.None? && Apply(a, failed).1.Some?
    ensures var after := [EditPath(PathSetType(Bip44))];
            !Alike(RunFrom(Apply(a, failed).0, after), RunFrom(a, after))
  {
    var edit := EditPath(PathSetType(Bip44));
    RunOne(Apply(a, failed).0, edit);
    RunOne(a, edit);
    FailedPath(a, failed.dp);
    EditSeesPath(a);
    EditSeesPath(Apply(a, failed).0);
    OtherTypeIsSeen(Apply(Apply(a, failed).0, edit).0, Apply(a, edit).0);
  }

  /** There is such a call: on a new address the path "x" is refused. */
  lemma FailedPathExample()
    ensures Run([]).path.None?
    ensures Apply(Run([]), CallSetDerivationPath("x")).1 == Some(InvalidDerivationPath)
  {
    TrimFixed("x");
  }

  /**
   * When a failed call is as if it had never been made, whatever is done later: always, unless it is a path
   * set on an address without a path object.
   */
  lemma FailureIsForgotten(before: seq<AddressOp>, failed: AddressOp)
    requires Apply(Run(before), failed).1.Some?
    ensures (forall after :: AlikeAfter(Apply(Run(before), failed).0, Run(before), after)) <==>
            !(failed.CallSetDerivationPath? && Run(before).path.None?)
  {
    var a := Run(before);
    ReachableAddresses(before);
    if failed.CallSetDerivationPath? && a.path.None? {
      FailedPathCanBeTold(a, failed);
      assert !AlikeAfter(Apply(a, failed).0, a, [EditPath(PathSetType(Bip44))]);
    } else if failed.CallSetDerivationPath? {
      FailedPath(a, failed.dp);
    } else {
      FailureKeeps(a, failed);
    }
  }

  // ---- the case of a path -------------------------------------------------

  lemma {:induction false} TrimLeftLowered(s: string)
    ensures TrimLeft(ToLower(s)) == ToLower(TrimLeft(s))
  {
    if s != "" && IsSpace(s[0]) {
      TrimLeftLowered(s[1..]);
      assert ToLower(s)[1..] == ToLower(s[1..]);
    }
  }

  lemma {:induction false} TrimRightLowered(s: string)
    ensures TrimRight(ToLower(s)) == ToLower(TrimRight(s))
  {
    if s != "" && IsSpace(s[|s| - 1]) {
      TrimRightLowered(s[..|s| - 1]);
      assert ToLower(s)[..|s| - 1] == ToLower(s[..|s| - 1]);
    }
  }

  /** An address folds the case of a path before parsing it; the path's own parser does not. */
  lemma PathCaseFolds(a: AddressState, dp: string, dp': string)
    requires ToLower(dp) == ToLower(dp')
    ensures SetDerivationPath(a, dp) == SetDerivationPath(a, dp')
  {
    TrimLeftLowered(dp);
    TrimRightLowered(TrimLeft(dp));
    TrimLeftLowered(dp');
    TrimRightLowered(TrimLeft(dp'));
    assert ToLower(Trim(dp)) == ToLower(Trim(dp'));
  }

  lemma CapitalPathRefused(kind: DerivationType, text: string)
    requires kind.IsValid()
    ensures ParsePath(kind, "M" + text) == Err(InvalidDerivationPath)
  {
    assert ("M" + text)[0] == 'M';
  }
}
