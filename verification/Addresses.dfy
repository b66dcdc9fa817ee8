/**
 * The address (src/address.cpp) as a value, and the specification of its
 * setters, printers and parsers (src/parser.cpp).
 */
module Addresses {
  import opened Chains
  import opened Compatibility
  import opened Errors
  import opened Names
  import opened NssPairs
  import opened Numbers
  import opened Paths
  import opened Text
  import opened Wrappers

  datatype AddressState = AddressState(
    chain: ChainState,
    path: Option<Path>,
    algorithm: Algorithm,
    format: Format,
    prefix: string,
    suffix: string,
    walletType: string,
    walletId: string)

  const DEFAULT_ADDRESS := AddressState(DEFAULT_CHAIN, None, Algorithm.Unset, Format.Unset, "", "", "", "")

  /** No path, a path without a type and a root path are one thing: the form without a path. */
  predicate IsRoot(a: AddressState) {
    a.path.None? || a.path.value.kind.Unset? || a.path.value.kind.Root?
  }

  function GetDerivationType(a: AddressState): DerivationType {
    if a.path.None? || a.path.value.kind.Unset? then Root else a.path.value.kind
  }

  function ResolvedAlgorithm(a: AddressState): Algorithm {
    if !a.algorithm.Unset? then a.algorithm else DefaultAlgorithm(a.chain.network)
  }

  function ResolvedFormat(a: AddressState): Format {
    if !a.format.Unset? then a.format else DefaultFormat(a.chain.network)
  }

  // ---- setters ------------------------------------------------------------

  /** The path that a setter works on: a fresh one is allocated if there is none. */
  function PathOrFresh(a: AddressState): Path {
    if a.path.Some? then a.path.value else Empty(DerivationType.Unset)
  }

  function NamedType(dt: string): DerivationType {
    if Normalize(dt) == "" then Root else DerivationTypeOf(Normalize(dt))
  }

  function SetDerivationType(a: AddressState, dt: string): Result<AddressState> {
    SetTypeTo(a, NamedType(dt))
  }

  function SetTypeTo(a: AddressState, kind: DerivationType): Result<AddressState> {
    var p :- SetType(PathOrFresh(a), kind);
    Ok(a.(path := Some(p)))
  }

  /** The one setter whose failure may change the state: it has allocated the path by then. */
  function SetDerivationPath(a: AddressState, dp: string): (AddressState, Option<ErrorCode>) {
    var p := PathOrFresh(a);
    if p.kind.Root? || p.kind.Unset? then
      (a.(path := Some(p)), if Trim(dp) != "" then Some(InvalidDerivationPath) else None)
    else
      var (q, err) := Keep(p, ParsePath(p.kind, ToLower(Trim(dp))));
      (a.(path := Some(q)), err)
  }

  function SetDerivation(a: AddressState, dt: string, dp: string): Result<AddressState> {
    SetDerivationTo(a, NamedType(dt), dp)
  }

  /** Type and path are tried on a scratch address, and only its path is taken over. */
  function SetDerivationTo(a: AddressState, kind: DerivationType, dp: string): Result<AddressState> {
    var scratch :- SetTypeTo(DEFAULT_ADDRESS, kind);
    var (done, err) := SetDerivationPath(scratch, dp);
    match err
    case None => Ok(a.(path := done.path))
    case Some(e) => Err(e)
  }

  function SetCoinType(a: AddressState, ct: string): Result<AddressState> {
    if Trim(ct) == "" then Ok(a.(chain := a.chain.(coin := None)))
    else match ParseUint32(Trim(ct))
         case None => Err(InvalidCoinType)
         case Some(v) => Ok(a.(chain := a.chain.(coin := Some(v))))
  }

  function SetAlgorithm(a: AddressState, aa: string): Result<AddressState> {
    var next := AlgorithmOf(Normalize(aa));
    if next.Unset? || next.IsValid() then Ok(a.(algorithm := next)) else Err(InvalidAlgorithm)
  }

  function SetFormat(a: AddressState, af: string): Result<AddressState> {
    var next := FormatOf(Normalize(af));
    if next.Unset? || next.IsValid() then Ok(a.(format := next)) else Err(InvalidFormat)
  }

  /** A free-form value, trimmed, if all its bytes may stand in an NSS. */
  function FreeForm(v: string): Result<string> {
    if AllNss(Trim(v)) then Ok(Trim(v)) else Err(InvalidValue)
  }

  function SetPrefix(a: AddressState, ap: string): Result<AddressState> {
    var v :- FreeForm(ap);
    Ok(a.(prefix := v))
  }

  function SetSuffix(a: AddressState, as_: string): Result<AddressState> {
    var v :- FreeForm(as_);
    Ok(a.(suffix := v))
  }

  function SetWalletType(a: AddressState, wt: string): Result<AddressState> {
    var v :- FreeForm(wt);
    Ok(a.(walletType := v))
  }

  function SetWalletId(a: AddressState, wi: string): Result<AddressState> {
    var v :- FreeForm(wi);
    Ok(a.(walletId := v))
  }

  /** The constructor with string parameters; empty ones are unset. */
  function Construct(c: ChainState, p: Option<Path>, aa: string, af: string, ap: string, as_: string)
    : Result<AddressState>
  {
    var a :- GivenFormat(DEFAULT_ADDRESS.(chain := c, path := p), aa, af);
    GivenAffixes(a, ap, as_)
  }

  function GivenFormat(a: AddressState, aa: string, af: string): Result<AddressState> {
    var b :- if aa == "" then Ok(a) else SetAlgorithm(a, aa);
    if af == "" then Ok(b) else SetFormat(b, af)
  }

  function GivenAffixes(a: AddressState, ap: string, as_: string): Result<AddressState> {
    var b :- if ap == "" then Ok(a) else SetPrefix(a, ap);
    if as_ == "" then Ok(b) else SetSuffix(b, as_)
  }

  // ---- printing -----------------------------------------------------------

  /** The text that the canonical form gives to a component; empty when the component is not printed. */
  function Shown(a: AddressState, c: Component): string {
    match c
    case NT => a.chain.network.Str()
    case CI => a.chain.id
    case CT => if a.chain.coin.Some? then Decimal(a.chain.coin.value) else ""
    case DT => if IsRoot(a) then "" else a.path.value.kind.Str()
    case DP => if IsRoot(a) then "" else PathText(a.path.value)
    case AA => a.algorithm.Str()
    case AF => a.format.Str()
    case AP => a.prefix
    case AS => a.suffix
    case WT => a.walletType
    case WI => a.walletId
  }

  /** The canonical order of the components after the chain identity. */
  const OPTIONAL: seq<Component> := [CT, DT, DP, AA, AF, AP, AS, WT, WI]

  function Field(a: AddressState, c: Component): string {
    if Shown(a, c) == "" then "" else ":" + c.Key() + ":" + Shown(a, c)
  }

  function PrintedFields(a: AddressState, cs: seq<Component>): string {
    if cs == [] then "" else PrintedFields(a, cs[..|cs| - 1]) + Field(a, cs[|cs| - 1])
  }

  /** The canonical NSS: the chain key, then every set component in the canonical order. */
  function Nss(a: AddressState): string {
    Key(a.chain) + PrintedFields(a, OPTIONAL)
  }

  const URN_PREFIX := "urn:mhda:"

  function Urn(a: AddressState): string {
    URN_PREFIX + Nss(a)
  }

  /** A derivation type set without a path names no key. */
  predicate PathIsSet(a: AddressState) {
    IsRoot(a) || a.path.value.levels != []
  }

  function MarshalText(a: AddressState): Result<string> {
    if a.chain.network.Unset? then Err(UninitializedAddress)
    else if !PathIsSet(a) then Err(InvalidDerivationPath)
    else Ok(Urn(a))
  }

  // ---- strict validation --------------------------------------------------

  /** `validate`, test by test; None is acceptance. */
  function Validate(a: AddressState): Option<ErrorCode> {
    var nt := a.chain.network;
    var algorithm, format := ResolvedAlgorithm(a), ResolvedFormat(a);
    if nt.Unset? then Some(UninitializedAddress)
    else if !PathIsSet(a) then Some(InvalidDerivationPath)
    else if !NetworkIsRegistered(nt) then Some(Incompatible)
    else if algorithm.Unset? || !NetworkAllowsAlgorithm(nt, algorithm) then Some(Incompatible)
    else if !format.Unset? && !NetworkAllowsFormat(nt, format) then Some(Incompatible)
    else if IsRoot(a) then None
    else ValidatePath(nt, a.path.value, algorithm, format)
  }

  /** The tests on a path: the matrix, the bindings of its type, and the two rules against second spellings. */
  function ValidatePath(nt: NetworkType, p: Path, algorithm: Algorithm, format: Format): Option<ErrorCode> {
    var want := DerivationAlgorithm(nt, p.kind);
    if !NetworkAllowsDerivation(nt, p.kind) then Some(Incompatible)
    else if !want.Unset? && want != algorithm then Some(Incompatible)
    else if !format.Unset? && !DerivationAllowsFormat(nt, p.kind, format) then Some(Incompatible)
    else if algorithm.Ed25519? && !p.kind.Cip1852? && !(forall i :: 0 <= i < |p.levels| ==> p.levels[i].hardened)
    then Some(Incompatible)
    else if nt.Cosmos? && p.kind.Bip44? && p.coin == 118 then Some(Incompatible)
    else None
  }

  // ---- parsing ------------------------------------------------------------

  /** The value of a component, or nothing. */
  function Get(m: Components, c: Component): string {
    if c in m then m[c] else ""
  }

  function FromComponents(m: Components): Result<AddressState> {
    var c :- BuildChain(m);
    var a :- SetDerivation(DEFAULT_ADDRESS.(chain := c), Get(m, DT), Get(m, DP));
    var b :- SetFormatDomain(a, m);
    SetFreeForms(b, m)
  }

  function SetFormatDomain(a: AddressState, m: Components): Result<AddressState> {
    var b :- SetAlgorithm(a, Get(m, AA));
    SetFormat(b, Get(m, AF))
  }

  function SetFreeForms(a: AddressState, m: Components): Result<AddressState> {
    var b :- SetPrefix(a, Get(m, AP));
    var c :- SetSuffix(b, Get(m, AS));
    var d :- SetWalletType(c, Get(m, WT));
    SetWalletId(d, Get(m, WI))
  }

  function ParseAddressNss(nss: string): Result<AddressState> {
    var m :- ParseNss(nss);
    FromComponents(m)
  }

  function ParseNssText(nss: string): Result<AddressState> {
    ParseAddressNss(Trim(nss))
  }

  function ParseUrn(src: string): Result<AddressState> {
    var trimmed := Trim(src);
    if !HasPrefixFold(trimmed, URN_PREFIX) then Err(InvalidUrn)
    else ParseAddressNss(TrimRight(StripRqf(trimmed[|URN_PREFIX|..])))
  }

  function ParseUrnStrict(src: string): Result<AddressState> {
    var a :- ParseUrn(src);
    match Validate(a)
    case None => Ok(a)
    case Some(e) => Err(e)
  }

  // ---- the invariant ------------------------------------------------------

  /** What every reachable address satisfies. */
  predicate AddressOk(a: AddressState) {
    && ChainOk(a.chain)
    && (a.path.Some? ==> Coherent(a.path.value))
    && (a.algorithm.Unset? || a.algorithm.IsValid())
    && (a.format.Unset? || a.format.IsValid())
    && AllNss(a.prefix) && AllNss(a.suffix) && AllNss(a.walletType) && AllNss(a.walletId)
  }

  /** The address as the parser would hold it: the form without a path is always a root path. */
  function Canonical(a: AddressState): AddressState {
    a.(path := Some(if IsRoot(a) then Empty(Root) else a.path.value))
  }
}
