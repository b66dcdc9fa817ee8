/**
 * The chain (src/chain.cpp): the identity pair (network type, chain id) with the
 * optional coin type, as a value, and the specification of every operation on it.
 */
module Chains {
  import opened Errors
  import opened Names
  import opened NssPairs
  import opened Numbers
  import opened Text
  import opened Wrappers

  datatype ChainState = ChainState(network: NetworkType, id: string, coin: Option<u32>)

  const DEFAULT_CHAIN := ChainState(NetworkType.Unset, "", None)

  /** `str` and `key`: the coin type is no part of the identity. */
  function Key(c: ChainState): string {
    "nt:" + c.network.Str() + ":ci:" + c.id
  }

  /** What every reachable chain satisfies; either half of the identity may still be missing. */
  predicate ChainOk(c: ChainState) {
    (c.network.Unset? || c.network.IsValid()) && AllNss(c.id)
  }

  /** A chain whose key is a chain key: both halves are there. */
  predicate Complete(c: ChainState) {
    ChainOk(c) && c.network.IsValid() && c.id != ""
  }

  // ---- operations ---------------------------------------------------------

  function SetNetwork(c: ChainState, nt: NetworkType): Result<ChainState> {
    if !nt.IsValid() then Err(InvalidNetworkType) else Ok(c.(network := nt))
  }

  function SetChainId(c: ChainState, ci: string): Result<ChainState> {
    if Trim(ci) == "" then Err(MissingChainId)
    else if !AllNss(Trim(ci)) then Err(InvalidValue)
    else Ok(c.(id := Trim(ci)))
  }

  function MakeChain(nt: NetworkType, ci: string): Result<ChainState> {
    var named :- SetNetwork(DEFAULT_CHAIN, nt);
    SetChainId(named, ci)
  }

  /** `build_chain`: the chain components of a parsed NSS. */
  function BuildChain(m: Components): Result<ChainState> {
    if NT !in m || Normalize(m[NT]) == "" then Err(MissingNetworkType)
    else if !NetworkTypeOf(Normalize(m[NT])).IsValid() then Err(InvalidNetworkType)
    else if CI !in m || Trim(m[CI]) == "" then Err(MissingChainId)
    else
      var c :- MakeChain(NetworkTypeOf(Normalize(m[NT])), Trim(m[CI]));
      if CT !in m then Ok(c)
      else match ParseUint32(Trim(m[CT]))
           case None => Err(InvalidCoinType)
           case Some(v) => Ok(c.(coin := Some(v)))
  }

  function FromNss(nss: string): Result<ChainState> {
    var m :- ParseNss(Trim(nss));
    BuildChain(m)
  }

  function FromKey(key: string): Result<ChainState> {
    var trimmed := Trim(key);
    if trimmed != "" && Count(trimmed, ':') % 2 == 0 then Err(InvalidChainKey)
    else
      var m :- ParseNss(trimmed);
      FromKeyComponents(m, trimmed)
  }

  /** The tests of `from_key` on the components that it finds in a text. */
  function FromKeyComponents(m: Components, trimmed: string): Result<ChainState> {
    if CT in m then Err(CoinTypeInChainKey)
    else if exists c :: c in m && c != NT && c != CI then Err(InvalidChainKey)
    else
      var c :- BuildChain(m);
      if Key(c) != trimmed then Err(InvalidChainKey) else Ok(c)
  }
}
