/** The compatibility matrix and its lookups (src/compatibility.cpp). */
module Compatibility {
  import opened Names
  import opened Wrappers

  /** One row of the matrix. */
  datatype NetworkCompat = NetworkCompat(
    algorithms: set<Algorithm>,
    formats: set<Format>,
    derivations: set<DerivationType>,
    defaultAlgorithm: Algorithm,
    defaultFormat: Format,
    derivationAlgorithm: map<DerivationType, Algorithm>,
    derivationFormats: map<DerivationType, set<Format>>)

  function Row(nt: NetworkType): Option<NetworkCompat> {
    match nt
    case Bitcoin => Some(NetworkCompat(
      {Secp256k1}, {P2pkh, P2sh, P2wpkh, P2wsh, P2tr, Bech32, Bech32m},
      {Bip32, Bip44, Bip49, Bip84, Bip86}, Secp256k1, Format.Unset,
      map[],
      map[Bip44 := {P2pkh}, Bip49 := {P2sh}, Bip84 := {P2wpkh, Bech32}, Bip86 := {P2tr, Bech32m}]))
    case EthereumVM => Some(NetworkCompat({Secp256k1}, {Hex}, {Bip32, Bip44}, Secp256k1, Hex, map[], map[]))
    case AvalancheVM => Some(NetworkCompat({Secp256k1}, {Hex, Bech32}, {Bip44}, Secp256k1, Format.Unset, map[], map[]))
    case TronVM => Some(NetworkCompat({Secp256k1}, {Base58}, {Bip44}, Secp256k1, Base58, map[], map[]))
    case Cosmos => Some(NetworkCompat({Secp256k1, Ed25519}, {Bech32}, {Bip44, Cip11}, Secp256k1, Bech32, map[], map[]))
    case Solana => Some(NetworkCompat({Ed25519}, {Base58}, {Slip10}, Ed25519, Base58, map[], map[]))
    case XrpLedger => Some(NetworkCompat({Secp256k1, Ed25519}, {Base58}, {Bip44}, Secp256k1, Base58, map[], map[]))
    case Stellar => Some(NetworkCompat({Ed25519}, {Strkey}, {Slip10}, Ed25519, Strkey, map[], map[]))
    case NearProtocol => Some(NetworkCompat(
      {Ed25519, Secp256k1}, {Hex}, {Slip10, Bip44}, Ed25519, Hex, map[Slip10 := Ed25519, Bip44 := Secp256k1], map[]))
    case Aptos => Some(NetworkCompat(
      {Ed25519, Secp256k1}, {Hex}, {Slip10, Bip44}, Ed25519, Hex, map[Slip10 := Ed25519, Bip44 := Secp256k1], map[]))
    case Sui => Some(NetworkCompat(
      {Ed25519, Secp256k1, Secp256r1}, {Hex}, {Slip10, Bip54, Bip74}, Ed25519, Hex,
      map[Slip10 := Ed25519, Bip54 := Secp256k1, Bip74 := Secp256r1], map[]))
    case Cardano => Some(NetworkCompat({Ed25519}, {Bech32, Base58}, {Cip1852}, Ed25519, Bech32, map[], map[]))
    case Algorand => Some(NetworkCompat({Ed25519}, {Base32}, {Slip10}, Ed25519, Base32, map[], map[]))
    case Toncoin => Some(NetworkCompat({Ed25519}, {Base64url, Hex}, {Slip10}, Ed25519, Base64url, map[], map[]))
    case _ => None
  }

  function DefaultAlgorithm(nt: NetworkType): Algorithm {
    match Row(nt) case Some(row) => row.defaultAlgorithm case None => Algorithm.Unset
  }

  function DefaultFormat(nt: NetworkType): Format {
    match Row(nt) case Some(row) => row.defaultFormat case None => Format.Unset
  }

  predicate NetworkIsRegistered(nt: NetworkType) {
    Row(nt).Some?
  }

  predicate NetworkAllowsAlgorithm(nt: NetworkType, algorithm: Algorithm) {
    Row(nt).Some? && algorithm in Row(nt).value.algorithms
  }

  predicate NetworkAllowsFormat(nt: NetworkType, format: Format) {
    Row(nt).Some? && format in Row(nt).value.formats
  }

  predicate NetworkAllowsDerivation(nt: NetworkType, kind: DerivationType) {
    Row(nt).Some? && (kind.Root? || kind in Row(nt).value.derivations)
  }

  /** The one algorithm that a type derives on a network, or none when the network does not bind the type. */
  function DerivationAlgorithm(nt: NetworkType, kind: DerivationType): Algorithm {
    if Row(nt).Some? && kind in Row(nt).value.derivationAlgorithm
    then Row(nt).value.derivationAlgorithm[kind]
    else Algorithm.Unset
  }

  predicate DerivationAllowsFormat(nt: NetworkType, kind: DerivationType, format: Format) {
    Row(nt).Some? && kind in Row(nt).value.derivationFormats ==> format in Row(nt).value.derivationFormats[kind]
  }

  /** The matrix covers exactly the registered networks, and its defaults and bindings lie inside its own sets. */
  lemma MatrixIsClosed(nt: NetworkType)
    ensures NetworkIsRegistered(nt) <==> nt.IsValid()
    ensures nt.IsValid() ==>
              var row := Row(nt).value;
              && row.defaultAlgorithm in row.algorithms
              && (row.defaultFormat.Unset? || row.defaultFormat in row.formats)
              && (forall k :: k in row.derivationAlgorithm ==>
                    k in row.derivations && row.derivationAlgorithm[k] in row.algorithms)
              && (forall k :: k in row.derivationFormats ==>
                    k in row.derivations && row.derivationFormats[k] <= row.formats)
  {
  }
}
