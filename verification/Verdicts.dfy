/**
 * Strict validation without the matrix: what each network uses, listed by algorithm and by format, and the
 * verdict of `validate` (src/address.cpp:255-324) on every address in those terms.
 */
module Verdicts {
  import opened Addresses
  import opened Compatibility
  import opened Errors
  import opened Names
  import opened Paths
  import opened Strict
  import opened Wrappers

  // ---- what the networks use ----------------------------------------------

  predicate UsesAlgorithm(nt: NetworkType, algorithm: Algorithm) {
    match algorithm
    case Secp256k1 =>
      nt in {Bitcoin, EthereumVM, AvalancheVM, TronVM, Cosmos, XrpLedger, NearProtocol, Aptos, Sui}
    case Ed25519 =>
      nt in {Cosmos, Solana, XrpLedger, Stellar, NearProtocol, Aptos, Sui, Cardano, Algorand, Toncoin}
    case Secp256r1 => nt.Sui?
    case _ => false
  }

  predicate UsesFormat(nt: NetworkType, format: Format) {
    match format
    case Hex => nt in {EthereumVM, AvalancheVM, NearProtocol, Aptos, Sui, Toncoin}
    case P2pkh => nt.Bitcoin?
    case P2sh => nt.Bitcoin?
    case P2wpkh => nt.Bitcoin?
    case P2wsh => nt.Bitcoin?
    case P2tr => nt.Bitcoin?
    case Bech32 => nt in {Bitcoin, AvalancheVM, Cosmos, Cardano}
    case Bech32m => nt.Bitcoin?
    case Base58 => nt in {TronVM, Solana, XrpLedger, Cardano}
    case Base32 => nt.Algorand?
    case Strkey => nt.Stellar?
    case Base64url => nt.Toncoin?
    case _ => false
  }

  /** The formats that the purpose of a Bitcoin path allows; elsewhere, and for bip32, a path allows every format. */
  predicate PurposeAllows(nt: NetworkType, kind: DerivationType, format: Format) {
    nt.Bitcoin? ==>
      && (kind.Bip44? ==> format.P2pkh?)
      && (kind.Bip49? ==> format.P2sh?)
      && (kind.Bip84? ==> format.P2wpkh? || format.Bech32?)
      && (kind.Bip86? ==> format.P2tr? || format.Bech32m?)
  }

  /** The algorithm of an address that names none. */
  function UsualAlgorithm(nt: NetworkType): Algorithm {
    if nt in {Bitcoin, EthereumVM, AvalancheVM, TronVM, Cosmos, XrpLedger} then Secp256k1
    else if nt.IsValid() then Ed25519
    else Algorithm.Unset
  }

  /** The format of an address that names none; two networks have no usual one. */
  function UsualFormat(nt: NetworkType): Format {
    if nt in {EthereumVM, NearProtocol, Aptos, Sui} then Hex
    else if nt in {TronVM, Solana, XrpLedger} then Base58
    else if nt in {Cosmos, Cardano} then Bech32
    else if nt.Stellar? then Strkey
    else if nt.Algorand? then Base32
    else if nt.Toncoin? then Base64url
    else Format.Unset
  }

  function NamedAlgorithm(a: AddressState): Algorithm {
    if a.algorithm.Unset? then UsualAlgorithm(a.chain.network) else a.algorithm
  }

  function NamedFormat(a: AddressState): Format {
    if a.format.Unset? then UsualFormat(a.chain.network) else a.format
  }

  // ---- the matrix agrees --------------------------------------------------

  lemma AlgorithmsAgree(nt: NetworkType, algorithm: Algorithm)
    ensures NetworkAllowsAlgorithm(nt, algorithm) <==> UsesAlgorithm(nt, algorithm)
    ensures DefaultAlgorithm(nt) == UsualAlgorithm(nt)
  {
  }

  lemma FormatsAgree(nt: NetworkType, format: Format)
    ensures NetworkAllowsFormat(nt, format) <==> UsesFormat(nt, format)
    ensures DefaultFormat(nt) == UsualFormat(nt)
  {
  }

  lemma PurposesAgree(nt: NetworkType, kind: DerivationType, format: Format)
    requires NetworkAllowsFormat(nt, format)
    ensures DerivationAllowsFormat(nt, kind, format) <==> PurposeAllows(nt, kind, format)
  {
  }

  /** What an address resolves to when it names nothing, and that a name it has stands. */
  lemma ResolvedWrittenOut(a: AddressState)
    ensures ResolvedAlgorithm(a) == NamedAlgorithm(a)
    ensures ResolvedFormat(a) == NamedFormat(a)
  {
    AlgorithmsAgree(a.chain.network, a.algorithm);
    FormatsAgree(a.chain.network, a.format);
  }

  lemma FormatFitsAgrees(nt: NetworkType, kind: DerivationType, format: Format)
    ensures FormatFits(nt, kind, format) <==>
            format.Unset? || (UsesFormat(nt, format) && PurposeAllows(nt, kind, format))
  {
    FormatsAgree(nt, format);
    if NetworkAllowsFormat(nt, format) {
      PurposesAgree(nt, kind, format);
    }
  }

  // ---- the verdict --------------------------------------------------------

  /** What strict validation asks of a path: the scheme, three rules, and a format that the purpose allows. */
  predicate GoodPath(nt: NetworkType, p: Path, algorithm: Algorithm, format: Format) {
    && Scheme(nt, p.kind, algorithm)
    && (p.kind.Slip10? ==> AllHardened(p.levels))
    && (nt.Cosmos? && p.kind.Bip44? ==> p.coin != 118)
    && (format.Unset? || (UsesFormat(nt, format) && PurposeAllows(nt, p.kind, format)))
  }

  predicate GoodRoot(nt: NetworkType, algorithm: Algorithm, format: Format) {
    UsesAlgorithm(nt, algorithm) && (format.Unset? || UsesFormat(nt, format))
  }

  lemma UsualIsUsed(nt: NetworkType)
    requires nt.IsValid()
    ensures UsesAlgorithm(nt, UsualAlgorithm(nt))
    ensures UsualFormat(nt).Unset? || UsesFormat(nt, UsualFormat(nt))
  {
  }

  lemma RootVerdict(a: AddressState)
    requires AddressOk(a) && IsRoot(a) && !a.chain.network.Unset?
    ensures Validate(a) ==
            if GoodRoot(a.chain.network, NamedAlgorithm(a), NamedFormat(a)) then None else Some(Incompatible)
  {
    RootExactly(a);
    UsualIsUsed(a.chain.network);
    AlgorithmsAgree(a.chain.network, a.algorithm);
    FormatsAgree(a.chain.network, a.format);
  }

  lemma PathVerdict(a: AddressState)
    requires AddressOk(a) && !IsRoot(a)
    ensures StrictPath(a.chain.network, a.path.value, ResolvedAlgorithm(a), ResolvedFormat(a)) <==>
            GoodPath(a.chain.network, a.path.value, NamedAlgorithm(a), NamedFormat(a))
  {
    ResolvedWrittenOut(a);
    FormatFitsAgrees(a.chain.network, a.path.value.kind, NamedFormat(a));
  }

  /** The verdict and the error code on every reachable address. */
  lemma VerdictWrittenOut(a: AddressState)
    requires AddressOk(a)
    ensures Validate(a) ==
            if a.chain.network.Unset? then Some(UninitializedAddress)
            else if IsRoot(a) then
              if GoodRoot(a.chain.network, NamedAlgorithm(a), NamedFormat(a)) then None else Some(Incompatible)
            else if a.path.value.levels == [] then Some(InvalidDerivationPath)
            else if GoodPath(a.chain.network, a.path.value, NamedAlgorithm(a), NamedFormat(a)) then None
            else Some(Incompatible)
  {
    if !a.chain.network.Unset? && IsRoot(a) {
      RootVerdict(a);
    }
    if !IsRoot(a) {
      StrictExactly(a);
      PathVerdict(a);
    }
  }
}
