/** The class `chain` (src/chain.cpp): its fields and the methods that change them, against `Chains`. */
module ChainObjects {
  import opened Errors
  import opened Names
  import opened NssPairs
  import opened Numbers
  import opened Text
  import opened Wrappers
  import Chains

  class Chain {
    var network: NetworkType
    var id: string
    var coin: Option<u32>

    function View(): Chains.ChainState
      reads this
    {
      Chains.ChainState(network, id, coin)
    }

    ghost predicate Valid()
      reads this
    {
      Chains.ChainOk(View())
    }

    constructor ()
      ensures Valid() && View() == Chains.DEFAULT_CHAIN
    {
      network, id, coin := NetworkType.Unset, "", None;
    }

    method Assign(other: Chain)
      modifies this
      ensures View() == old(other.View())
    {
      network, id, coin := other.network, other.id, other.coin;
    }

    /** The constructor from a network type and an id, which may throw. */
    static method Create(nt: NetworkType, ci: string) returns (c: Chain?, err: Option<ErrorCode>)
      ensures match Chains.MakeChain(nt, ci)
              case Ok(v) => err == None && c != null && fresh(c) && c.Valid() && c.View() == v
              case Err(e) => err == Some(e) && c == null
    {
      c := new Chain();
      err := c.SetNetwork(nt);
      if err.None? {
        err := c.SetChainId(ci);
      }
      if err.Some? {
        c := null;
      }
    }

    method SetNetwork(nt: NetworkType) returns (err: Option<ErrorCode>)
      requires Valid()
      modifies this
      ensures Valid()
      ensures match Chains.SetNetwork(old(View()), nt)
              case Ok(v) => err == None && View() == v
              case Err(e) => err == Some(e) && View() == old(View())
    {
      if !nt.IsValid() {
        return Some(InvalidNetworkType);
      }
      network := nt;
      return None;
    }

    method SetChainId(ci: string) returns (err: Option<ErrorCode>)
      requires Valid()
      modifies this
      ensures Valid()
      ensures match Chains.SetChainId(old(View()), ci)
              case Ok(v) => err == None && View() == v
              case Err(e) => err == Some(e) && View() == old(View())
    {
      var trimmed := ComputeTrim(ci);
      if trimmed == "" {
        return Some(MissingChainId);
      }
      var allowed := AllNssBytes(trimmed);
      if !allowed {
        return Some(InvalidValue);
      }
      id := trimmed;
      return None;
    }

    method SetCoin(ct: u32)
      modifies this
      ensures View() == old(View()).(coin := Some(ct))
    {
      coin := Some(ct);
    }

    method ClearCoin()
      modifies this
      ensures View() == old(View()).(coin := None)
    {
      coin := None;
    }

    method Str() returns (out: string)
      ensures out == Chains.Key(View())
    {
      out := "nt:";
      out := out + network.Str();
      out := out + ":ci:";
      out := out + id;
    }

    static method Build(m: Components) returns (c: Chain?, err: Option<ErrorCode>)
      ensures match Chains.BuildChain(m)
              case Ok(v) => err == None && c != null && fresh(c) && c.Valid() && c.View() == v
              case Err(e) => err == Some(e) && c == null
    {
      if NT !in m {
        return null, Some(MissingNetworkType);
      }
      var trimmedName := ComputeTrim(m[NT]);
      var name := ComputeToLower(trimmedName);
      if name == "" {
        return null, Some(MissingNetworkType);
      }
      var nt := NetworkTypeOf(name);
      if !nt.IsValid() {
        return null, Some(InvalidNetworkType);
      }
      if CI !in m {
        return null, Some(MissingChainId);
      }
      var ci := ComputeTrim(m[CI]);
      if ci == "" {
        return null, Some(MissingChainId);
      }
      c, err := Create(nt, ci);
      if err.None? && CT in m {
        var ct := ComputeTrim(m[CT]);
        var coinType := ComputeParseUint32(ct);
        if coinType.None? {
          return null, Some(InvalidCoinType);
        }
        c.SetCoin(coinType.value);
      }
    }

    static method FromNss(nss: string) returns (c: Chain?, err: Option<ErrorCode>)
      ensures match Chains.FromNss(nss)
              case Ok(v) => err == None && c != null && fresh(c) && c.Valid() && c.View() == v
              case Err(e) => err == Some(e) && c == null
    {
      var trimmed := ComputeTrim(nss);
      var m := ComputeParseNss(trimmed);
      if m.Err? {
        return null, Some(m.error);
      }
      if NT !in m.value {
        return null, Some(MissingNetworkType);
      }
      c, err := Build(m.value);
    }

    static method FromKey(key: string) returns (c: Chain?, err: Option<ErrorCode>)
      ensures match Chains.FromKey(key)
              case Ok(v) => err == None && c != null && fresh(c) && c.Valid() && c.View() == v
              case Err(e) => err == Some(e) && c == null
    {
      var trimmed := ComputeTrim(key);
      var colons := CountColons(trimmed);
      if trimmed != "" && colons % 2 == 0 {
        return null, Some(InvalidChainKey);
      }
      var m := ComputeParseNss(trimmed);
      if m.Err? {
        return null, Some(m.error);
      }
      if CT in m.value {
        return null, Some(CoinTypeInChainKey);
      }
      var stray := HasStrayKey(m.value);
      if stray {
        return null, Some(InvalidChainKey);
      }
      if NT !in m.value {
        return null, Some(MissingNetworkType);
      }
      c, err := Build(m.value);
      if err.None? {
        var text := c.Str();
        if text != trimmed {
          return null, Some(InvalidChainKey);
        }
      }
    }
  }

  method CountColons(s: string) returns (n: nat)
    ensures n == Count(s, ':')
  {
    n := 0;
    for i := 0 to |s|
      invariant n + Count(s[i..], ':') == Count(s, ':')
    {
      assert s[i..][1..] == s[i + 1..];
      if s[i] == ':' {
        n := n + 1;
      }
    }
  }

  /** The loop over the unordered map; any order of iteration gives this answer. */
  method HasStrayKey(m: Components) returns (r: bool)
    ensures r <==> exists c :: c in m && c != NT && c != CI
  {
    var rest := m.Keys;
    while rest != {}
      invariant rest <= m.Keys
      invariant forall c :: c in m && c !in rest ==> c == NT || c == CI
      decreases rest
    {
      var c :| c in rest;
      if c != NT && c != CI {
        return true;
      }
      rest := rest - {c};
    }
    return false;
  }
}
