/**
 * The closed registries of names (src/network_type.cpp, src/algorithm.cpp,
 * src/format.cpp, src/derivation_type.cpp) and the known component keys
 * (src/nss_parser.hpp). The C++ wrappers hold a string and compare strings; a
 * registered string is one constructor here, so equality is the same.
 */
module Names {
  import opened Text
  import opened Wrappers

  /** A non-empty lowercase text of NSS bytes: nothing to trim or fold. */
  predicate IsName(s: string) {
    s != "" && AllNss(s) && NoUpper(s)
  }

  lemma NameNormalized(s: string)
    requires IsName(s)
    ensures Normalize(s) == s && Trim(s) == s && ToLower(s) == s
  {
    NormalizeFixed(s);
    AllNssTrimmed(s);
  }

  /** A network: registered, unset, or a text outside the registry. */
  datatype NetworkType =
    | Unset
    | Bitcoin | EthereumVM | AvalancheVM | TronVM | Cosmos | Solana | XrpLedger | Stellar
    | NearProtocol | Aptos | Sui | Cardano | Algorand | Toncoin
    | Other(name: string)
  {
    function Str(): string {
      match this
      case Unset => ""
      case Bitcoin => "bitcoin"
      case EthereumVM => "evm"
      case AvalancheVM => "avalanche"
      case TronVM => "tron"
      case Cosmos => "cosmos"
      case Solana => "solana"
      case XrpLedger => "xrpl"
      case Stellar => "stellar"
      case NearProtocol => "near"
      case Aptos => "aptos"
      case Sui => "sui"
      case Cardano => "cardano"
      case Algorand => "algorand"
      case Toncoin => "ton"
      case Other(n) => n
    }

    predicate IsValid() {
      !Unset? && !Other?
    }
  }

  /** The network type of a text; every unregistered text is an `Other`. */
  function NetworkTypeOf(s: string): NetworkType {
    if s == "" then NetworkType.Unset
    else if s == "bitcoin" then Bitcoin
    else if s == "evm" then EthereumVM
    else if s == "avalanche" then AvalancheVM
    else if s == "tron" then TronVM
    else if s == "cosmos" then Cosmos
    else if s == "solana" then Solana
    else if s == "xrpl" then XrpLedger
    else if s == "stellar" then Stellar
    else if s == "near" then NearProtocol
    else if s == "aptos" then Aptos
    else if s == "sui" then Sui
    else if s == "cardano" then Cardano
    else if s == "algorand" then Algorand
    else if s == "ton" then Toncoin
    else NetworkType.Other(s)
  }

  /** A registered network type is written as a lowercase name, and no two alike. */
  lemma NetworkTypeNames(t: NetworkType)
    requires t.IsValid()
    ensures NetworkTypeOf(t.Str()) == t
  {
  }

  lemma NetworkTypeSpelling(t: NetworkType)
    requires t.IsValid()
    ensures IsName(t.Str())
  {
  }

  /** A signature algorithm. */
  datatype Algorithm =
    | Unset
    | Secp256k1 | Ed25519 | Sr25519 | Secp256r1 | Secp384r1 | Secp521r1 | Prime256v1
    | Other(name: string)
  {
    function Str(): string {
      match this
      case Unset => ""
      case Secp256k1 => "secp256k1"
      case Ed25519 => "ed25519"
      case Sr25519 => "sr25519"
      case Secp256r1 => "secp256r1"
      case Secp384r1 => "secp384r1"
      case Secp521r1 => "secp521r1"
      case Prime256v1 => "prime256v1"
      case Other(n) => n
    }

    predicate IsValid() {
      !Unset? && !Other?
    }
  }

  /** The algorithm of a text; every unregistered text is an `Other`. */
  function AlgorithmOf(s: string): Algorithm {
    if s == "" then Algorithm.Unset
    else if s == "secp256k1" then Secp256k1
    else if s == "ed25519" then Ed25519
    else if s == "sr25519" then Sr25519
    else if s == "secp256r1" then Secp256r1
    else if s == "secp384r1" then Secp384r1
    else if s == "secp521r1" then Secp521r1
    else if s == "prime256v1" then Prime256v1
    else Algorithm.Other(s)
  }

  /** A registered algorithm is written as a lowercase name, and no two alike. */
  lemma AlgorithmNames(t: Algorithm)
    requires t.IsValid()
    ensures AlgorithmOf(t.Str()) == t
  {
  }

  lemma AlgorithmSpelling(t: Algorithm)
    requires t.IsValid()
    ensures IsName(t.Str())
  {
  }

  /** An address format. */
  datatype Format =
    | Unset
    | Hex | P2pkh | P2sh | P2wpkh | P2wsh | P2tr | Bech32 | Bech32m | Base58 | Base32
    | Strkey | Base64url | Ss58
    | Other(name: string)
  {
    function Str(): string {
      match this
      case Unset => ""
      case Hex => "hex"
      case P2pkh => "p2pkh"
      case P2sh => "p2sh"
      case P2wpkh => "p2wpkh"
      case P2wsh => "p2wsh"
      case P2tr => "p2tr"
      case Bech32 => "bech32"
      case Bech32m => "bech32m"
      case Base58 => "base58"
      case Base32 => "base32"
      case Strkey => "strkey"
      case Base64url => "base64url"
      case Ss58 => "ss58"
      case Other(n) => n
    }

    predicate IsValid() {
      !Unset? && !Other?
    }
  }

  /** The address format of a text; every unregistered text is an `Other`. */
  function FormatOf(s: string): Format {
    if s == "" then Format.Unset
    else if s == "hex" then Hex
    else if s == "p2pkh" then P2pkh
    else if s == "p2sh" then P2sh
    else if s == "p2wpkh" then P2wpkh
    else if s == "p2wsh" then P2wsh
    else if s == "p2tr" then P2tr
    else if s == "bech32" then Bech32
    else if s == "bech32m" then Bech32m
    else if s == "base58" then Base58
    else if s == "base32" then Base32
    else if s == "strkey" then Strkey
    else if s == "base64url" then Base64url
    else if s == "ss58" then Ss58
    else Format.Other(s)
  }

  /** A registered address format is written as a lowercase name, and no two alike. */
  lemma FormatNames(t: Format)
    requires t.IsValid()
    ensures FormatOf(t.Str()) == t
  {
  }

  lemma FormatSpelling(t: Format)
    requires t.IsValid()
    ensures IsName(t.Str())
  {
  }

  /** A derivation scheme; `Root` is the form without a path. */
  datatype DerivationType =
    | Unset
    | Root | Bip32 | Bip44 | Bip49 | Bip54 | Bip74 | Bip84 | Bip86 | Slip10 | Cip11
    | Cip1852 | Zip32
    | Other(name: string)
  {
    function Str(): string {
      match this
      case Unset => ""
      case Root => "root"
      case Bip32 => "bip32"
      case Bip44 => "bip44"
      case Bip49 => "bip49"
      case Bip54 => "bip54"
      case Bip74 => "bip74"
      case Bip84 => "bip84"
      case Bip86 => "bip86"
      case Slip10 => "slip10"
      case Cip11 => "cip11"
      case Cip1852 => "cip1852"
      case Zip32 => "zip32"
      case Other(n) => n
    }

    predicate IsValid() {
      !Unset? && !Other?
    }
  }

  /** The derivation type of a text; every unregistered text is an `Other`. */
  function DerivationTypeOf(s: string): DerivationType {
    if s == "" then DerivationType.Unset
    else if s == "root" then Root
    else if s == "bip32" then Bip32
    else if s == "bip44" then Bip44
    else if s == "bip49" then Bip49
    else if s == "bip54" then Bip54
    else if s == "bip74" then Bip74
    else if s == "bip84" then Bip84
    else if s == "bip86" then Bip86
    else if s == "slip10" then Slip10
    else if s == "cip11" then Cip11
    else if s == "cip1852" then Cip1852
    else if s == "zip32" then Zip32
    else DerivationType.Other(s)
  }

  /** A registered derivation type is written as a lowercase name, and no two alike. */
  lemma DerivationTypeNames(t: DerivationType)
    requires t.IsValid()
    ensures DerivationTypeOf(t.Str()) == t
  {
  }

  lemma DerivationTypeSpelling(t: DerivationType)
    requires t.IsValid()
    ensures IsName(t.Str())
  {
  }

  // The registries once more, as lists of texts.

  lemma NetworkTypeRegistry(s: string)
    ensures [
        Bitcoin.Str(), EthereumVM.Str(), AvalancheVM.Str(), TronVM.Str(), Cosmos.Str(), Solana.Str(),
        XrpLedger.Str(), Stellar.Str(), NearProtocol.Str(), Aptos.Str(), Sui.Str(), Cardano.Str(),
        Algorand.Str(), Toncoin.Str()
      ] == [
        "bitcoin", "evm", "avalanche", "tron", "cosmos", "solana", "xrpl", "stellar", "near", "aptos", "sui",
        "cardano", "algorand", "ton"
      ]
    ensures NetworkTypeOf(s).IsValid() <==> s in [
        "bitcoin", "evm", "avalanche", "tron", "cosmos", "solana", "xrpl", "stellar", "near", "aptos", "sui",
        "cardano", "algorand", "ton"
      ]
  {
    var names := [
        "bitcoin", "evm", "avalanche", "tron", "cosmos", "solana", "xrpl", "stellar", "near", "aptos", "sui",
        "cardano", "algorand", "ton"
      ];
    assert names[0] == "bitcoin";
    assert names[1] == "evm";
    assert names[2] == "avalanche";
    assert names[3] == "tron";
    assert names[4] == "cosmos";
    assert names[5] == "solana";
    assert names[6] == "xrpl";
    assert names[7] == "stellar";
    assert names[8] == "near";
    assert names[9] == "aptos";
    assert names[10] == "sui";
    assert names[11] == "cardano";
    assert names[12] == "algorand";
    assert names[13] == "ton";
  }

  lemma AlgorithmRegistry(s: string)
    ensures [
        Secp256k1.Str(), Ed25519.Str(), Sr25519.Str(), Secp256r1.Str(), Secp384r1.Str(), Secp521r1.Str(),
        Prime256v1.Str()
      ] == [
        "secp256k1", "ed25519", "sr25519", "secp256r1", "secp384r1", "secp521r1", "prime256v1"
      ]
    ensures AlgorithmOf(s).IsValid() <==> s in [
        "secp256k1", "ed25519", "sr25519", "secp256r1", "secp384r1", "secp521r1", "prime256v1"
      ]
  {
    var names := [
        "secp256k1", "ed25519", "sr25519", "secp256r1", "secp384r1", "secp521r1", "prime256v1"
      ];
    assert names[0] == "secp256k1";
    assert names[1] == "ed25519";
    assert names[2] == "sr25519";
    assert names[3] == "secp256r1";
    assert names[4] == "secp384r1";
    assert names[5] == "secp521r1";
    assert names[6] == "prime256v1";
  }

  lemma FormatRegistry(s: string)
    ensures [
        Hex.Str(), P2pkh.Str(), P2sh.Str(), P2wpkh.Str(), P2wsh.Str(), P2tr.Str(), Bech32.Str(),
        Bech32m.Str(), Base58.Str(), Base32.Str(), Strkey.Str(), Base64url.Str(), Ss58.Str()
      ] == [
        "hex", "p2pkh", "p2sh", "p2wpkh", "p2wsh", "p2tr", "bech32", "bech32m", "base58", "base32", "strkey",
        "base64url", "ss58"
      ]
    ensures FormatOf(s).IsValid() <==> s in [
        "hex", "p2pkh", "p2sh", "p2wpkh", "p2wsh", "p2tr", "bech32", "bech32m", "base58", "base32", "strkey",
        "base64url", "ss58"
      ]
  {
    var names := [
        "hex", "p2pkh", "p2sh", "p2wpkh", "p2wsh", "p2tr", "bech32", "bech32m", "base58", "base32", "strkey",
        "base64url", "ss58"
      ];
    assert names[0] == "hex";
    assert names[1] == "p2pkh";
    assert names[2] == "p2sh";
    assert names[3] == "p2wpkh";
    assert names[4] == "p2wsh";
    assert names[5] == "p2tr";
    assert names[6] == "bech32";
    assert names[7] == "bech32m";
    assert names[8] == "base58";
    assert names[9] == "base32";
    assert names[10] == "strkey";
    assert names[11] == "base64url";
    assert names[12] == "ss58";
  }

  lemma DerivationTypeRegistry(s: string)
    ensures [
        Root.Str(), Bip32.Str(), Bip44.Str(), Bip49.Str(), Bip54.Str(), Bip74.Str(), Bip84.Str(),
        Bip86.Str(), Slip10.Str(), Cip11.Str(), Cip1852.Str(), Zip32.Str()
      ] == [
        "root", "bip32", "bip44", "bip49", "bip54", "bip74", "bip84", "bip86", "slip10", "cip11", "cip1852",
        "zip32"
      ]
    ensures DerivationTypeOf(s).IsValid() <==> s in [
        "root", "bip32", "bip44", "bip49", "bip54", "bip74", "bip84", "bip86", "slip10", "cip11", "cip1852",
        "zip32"
      ]
  {
    var names := [
        "root", "bip32", "bip44", "bip49", "bip54", "bip74", "bip84", "bip86", "slip10", "cip11", "cip1852",
        "zip32"
      ];
    assert names[0] == "root";
    assert names[1] == "bip32";
    assert names[2] == "bip44";
    assert names[3] == "bip49";
    assert names[4] == "bip54";
    assert names[5] == "bip74";
    assert names[6] == "bip84";
    assert names[7] == "bip86";
    assert names[8] == "slip10";
    assert names[9] == "cip11";
    assert names[10] == "cip1852";
    assert names[11] == "zip32";
  }

  /** The wrappers hold a string and compare strings; their models compare and print as that string too. */
  lemma WrappersAreTexts(s: string, t: string)
    ensures NetworkTypeOf(s).Str() == s && (NetworkTypeOf(s) == NetworkTypeOf(t) <==> s == t)
    ensures AlgorithmOf(s).Str() == s && (AlgorithmOf(s) == AlgorithmOf(t) <==> s == t)
    ensures FormatOf(s).Str() == s && (FormatOf(s) == FormatOf(t) <==> s == t)
    ensures DerivationTypeOf(s).Str() == s && (DerivationTypeOf(s) == DerivationTypeOf(t) <==> s == t)
  {
    NetworkTypeIsText(s);
    NetworkTypeIsText(t);
    AlgorithmIsText(s);
    AlgorithmIsText(t);
    FormatIsText(s);
    FormatIsText(t);
    DerivationTypeIsText(s);
    DerivationTypeIsText(t);
  }

  lemma NetworkTypeIsText(s: string)
    ensures NetworkTypeOf(s).Str() == s
  {
    match NetworkTypeOf(s)
    case Other(n) =>
    case _ =>
  }

  lemma AlgorithmIsText(s: string)
    ensures AlgorithmOf(s).Str() == s
  {
  }

  lemma FormatIsText(s: string)
    ensures FormatOf(s).Str() == s
  {
  }

  lemma DerivationTypeIsText(s: string)
    ensures DerivationTypeOf(s).Str() == s
  {
  }

  /** The keys that `parse_nss_map` keeps. */
  datatype Component = NT | CI | CT | DT | DP | AA | AF | AP | AS | WT | WI
  {
    function Key(): string {
      match this
      case NT => "nt"
      case CI => "ci"
      case CT => "ct"
      case DT => "dt"
      case DP => "dp"
      case AA => "aa"
      case AF => "af"
      case AP => "ap"
      case AS => "as"
      case WT => "wt"
      case WI => "wi"
    }
  }

  /** The known component that a key names, if it names one. */
  function ComponentOf(key: string): Option<Component> {
    if |key| != 2 then None
    else if key[0] == 'n' && key[1] == 't' then Some(NT)
    else if key[0] == 'c' && key[1] == 'i' then Some(CI)
    else if key[0] == 'c' && key[1] == 't' then Some(CT)
    else if key[0] == 'd' && key[1] == 't' then Some(DT)
    else if key[0] == 'd' && key[1] == 'p' then Some(DP)
    else if key[0] == 'a' && key[1] == 'a' then Some(AA)
    else if key[0] == 'a' && key[1] == 'f' then Some(AF)
    else if key[0] == 'a' && key[1] == 'p' then Some(AP)
    else if key[0] == 'a' && key[1] == 's' then Some(AS)
    else if key[0] == 'w' && key[1] == 't' then Some(WT)
    else if key[0] == 'w' && key[1] == 'i' then Some(WI)
    else None
  }

  /** The keys are the eleven texts above and no others. */
  lemma ComponentKeys(c: Component, key: string)
    ensures ComponentOf(key) == Some(c) <==> key == c.Key()
    ensures IsName(c.Key())
  {
    var k := c.Key();
    assert |k| == 2;
    if ComponentOf(key) == Some(c) {
      assert key == [key[0], key[1]] && k == [k[0], k[1]];
    }
  }

  lemma KeysListed(key: string)
    ensures [
        NT.Key(), CI.Key(), CT.Key(), DT.Key(), DP.Key(), AA.Key(), AF.Key(), AP.Key(), AS.Key(), WT.Key(), WI.Key()
      ] == ["nt", "ci", "ct", "dt", "dp", "aa", "af", "ap", "as", "wt", "wi"]
    ensures ComponentOf(key).Some? <==> key in ["nt", "ci", "ct", "dt", "dp", "aa", "af", "ap", "as", "wt", "wi"]
  {
    var keys := ["nt", "ci", "ct", "dt", "dp", "aa", "af", "ap", "as", "wt", "wi"];
    if ComponentOf(key).Some? {
      var c := ComponentOf(key).value;
      ComponentKeys(c, key);
      KeyInList(c, keys);
    }
    if key in keys {
      var i :| 0 <= i < |keys| && keys[i] == key;
      ComponentKeys([NT, CI, CT, DT, DP, AA, AF, AP, AS, WT, WI][i], key);
    }
  }

  lemma KeyInList(c: Component, keys: seq<string>)
    requires keys == ["nt", "ci", "ct", "dt", "dp", "aa", "af", "ap", "as", "wt", "wi"]
    ensures c.Key() in keys
  {
    var i := match c
      case NT => 0 case CI => 1 case CT => 2 case DT => 3 case DP => 4 case AA => 5
      case AF => 6 case AP => 7 case AS => 8 case WT => 9 case WI => 10;
    assert keys[i] == c.Key();
  }
}
