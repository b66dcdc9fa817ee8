/**
 * The class `address` (src/address.cpp) and the parser that builds one
 * (src/parser.cpp), proved against `Addresses`. An address owns its chain and
 * its path; a caller may also change those two directly, through the accessors.
 */
module AddressObjects {
  import opened Compatibility
  import opened ChainObjects
  import opened DerivationPaths
  import opened Errors
  import opened Names
  import opened NssPairs
  import opened Numbers
  import opened Text
  import opened Wrappers
  import opened Chains
  import A = Addresses

  class Address {
    const chain: Chain
    var path: DerivationPath?
    var algorithm: Algorithm
    var format: Format
    var prefix: string
    var suffix: string
    var walletType: string
    var walletId: string

    function View(): A.AddressState
      reads this, chain, path
    {
      A.AddressState(
        chain.View(), if path == null then None else Some(path.View()),
        algorithm, format, prefix, suffix, walletType, walletId)
    }

    ghost predicate Valid()
      reads this, chain, path
    {
      A.AddressOk(View())
    }

    constructor ()
      ensures Valid() && View() == A.DEFAULT_ADDRESS
      ensures fresh(chain) && path == null
    {
      chain := new Chain();
      path := null;
      algorithm, format := Algorithm.Unset, Format.Unset;
      prefix, suffix, walletType, walletId := "", "", "", "";
    }

    /** An address of a chain and an optional path, which are copied. */
    constructor Of(c: Chain, p: DerivationPath?)
      requires c.Valid() && (p != null ==> p.Valid())
      ensures Valid() && fresh(chain) && (path != null ==> fresh(path))
      ensures View() == A.DEFAULT_ADDRESS.(chain := c.View(), path := if p == null then None else Some(p.View()))
    {
      chain := new Chain();
      path := null;
      algorithm, format := Algorithm.Unset, Format.Unset;
      prefix, suffix, walletType, walletId := "", "", "", "";
      new;
      chain.Assign(c);
      if p != null {
        path := new DerivationPath();
        path.Assign(p);
      }
    }

    /** The constructor with string parameters, which may throw. */
    static method Create(c: Chain, p: DerivationPath?, aa: string, af: string, ap: string, as_: string)
      returns (a: Address?, err: Option<ErrorCode>)
      requires c.Valid() && (p != null ==> p.Valid())
      ensures match A.Construct(c.View(), if p == null then None else Some(p.View()), aa, af, ap, as_)
              case Ok(v) => err == None && a != null && fresh(a) && a.Valid() && a.View() == v
                            && fresh(a.chain) && (a.path != null ==> fresh(a.path))
              case Err(e) => err == Some(e) && a == null
    {
      a := new Address.Of(c, p);
      err := a.SetGivenFormat(aa, af);
      if err.None? {
        err := a.SetGivenAffixes(ap, as_);
      }
      if err.Some? {
        a := null;
      }
    }

    method SetGivenFormat(aa: string, af: string) returns (err: Option<ErrorCode>)
      requires Valid()
      modifies this`algorithm, this`format
      ensures Valid()
      ensures match A.GivenFormat(old(View()), aa, af)
              case Ok(v) => err == None && View() == v
              case Err(e) => err == Some(e)
    {
      err := None;
      if aa != "" {
        err := SetAddressAlgorithm(aa);
      }
      if err.None? && af != "" {
        err := SetAddressFormat(af);
      }
    }

    method SetGivenAffixes(ap: string, as_: string) returns (err: Option<ErrorCode>)
      requires Valid()
      modifies this`prefix, this`suffix
      ensures Valid()
      ensures match A.GivenAffixes(old(View()), ap, as_)
              case Ok(v) => err == None && View() == v
              case Err(e) => err == Some(e)
    {
      err := None;
      if ap != "" {
        err := SetAddressPrefix(ap);
      }
      if err.None? && as_ != "" {
        err := SetAddressSuffix(as_);
      }
    }

    // ---- queries ----------------------------------------------------------

    method GetDerivationType() returns (kind: DerivationType)
      ensures kind == A.GetDerivationType(View())
    {
      if path == null || path.kind.Unset? {
        return Root;
      }
      return path.kind;
    }

    method ResolvedAlgorithm() returns (r: Algorithm)
      ensures r == A.ResolvedAlgorithm(View())
    {
      return if !algorithm.Unset? then algorithm else DefaultAlgorithm(chain.network);
    }

    method ResolvedFormat() returns (r: Format)
      ensures r == A.ResolvedFormat(View())
    {
      return if !format.Unset? then format else DefaultFormat(chain.network);
    }

    // ---- setters ----------------------------------------------------------

    method SetDerivationType(dt: string) returns (err: Option<ErrorCode>)
      requires Valid()
      modifies this`path, path
      ensures Valid() && (path == old(path) || fresh(path))
      ensures (View(), err) == Keep(old(View()), A.SetDerivationType(old(View()), dt))
    {
      var trimmed := ComputeTrim(dt);
      var lowered := ComputeToLower(trimmed);
      var next := Root;
      if lowered != "" {
        next := DerivationTypeOf(lowered);
        if !next.IsValid() {
          return Some(InvalidDerivationType);
        }
      }
      if path == null {
        path := new DerivationPath();
      }
      err := path.SetType(next);
    }

    method SetDerivationPath(dp: string) returns (err: Option<ErrorCode>)
      requires Valid()
      modifies this`path, path
      ensures Valid() && (path == old(path) || fresh(path))
      ensures (View(), err) == A.SetDerivationPath(old(View()), dp)
    {
      if path == null {
        path := new DerivationPath();
      }
      var trimmed := ComputeTrim(dp);
      if path.kind.Root? || path.kind.Unset? {
        return if trimmed != "" then Some(InvalidDerivationPath) else None;
      }
      var lowered := ComputeToLower(trimmed);
      err := path.ParsePath(lowered);
    }

    /** Tries both on a scratch address and takes over its path only when both are valid. */
    method SetDerivation(dt: string, dp: string) returns (err: Option<ErrorCode>)
      requires Valid()
      modifies this`path
      ensures Valid() && (path == old(path) || fresh(path))
      ensures (View(), err) == Keep(old(View()), A.SetDerivation(old(View()), dt, dp))
    {
      var scratch: Address?;
      scratch, err := TryDerivation(dt, dp);
      PathTakenOver(View(), A.NamedType(dt), dp);
      if err.Some? {
        return;
      }
      path := scratch.path;
    }

    /** The scratch address of `set_derivation`. */
    static method TryDerivation(dt: string, dp: string) returns (scratch: Address?, err: Option<ErrorCode>)
      ensures match A.SetDerivationTo(A.DEFAULT_ADDRESS, A.NamedType(dt), dp)
              case Ok(v) => err == None && scratch != null && fresh(scratch) && scratch.Valid() && scratch.View() == v
                            && scratch.path != null && fresh(scratch.path)
              case Err(e) => err == Some(e)
    {
      scratch := new Address();
      err := scratch.SetDerivationType(dt);
      if err.Some? {
        return;
      }
      ghost var typed := scratch.View();
      assert A.SetTypeTo(A.DEFAULT_ADDRESS, A.NamedType(dt)) == Ok(typed);
      err := scratch.SetDerivationPath(dp);
      assert (scratch.View(), err) == A.SetDerivationPath(typed, dp);
    }

    method SetCoinType(ct: string) returns (err: Option<ErrorCode>)
      requires Valid()
      modifies chain
      ensures Valid() && (View(), err) == Keep(old(View()), A.SetCoinType(old(View()), ct))
    {
      var trimmed := ComputeTrim(ct);
      if trimmed == "" {
        chain.ClearCoin();
        return None;
      }
      var v := ComputeParseUint32(trimmed);
      if v.None? {
        return Some(InvalidCoinType);
      }
      chain.SetCoin(v.value);
      return None;
    }

    method SetAddressAlgorithm(aa: string) returns (err: Option<ErrorCode>)
      requires Valid()
      modifies this`algorithm
      ensures Valid() && (View(), err) == Keep(old(View()), A.SetAlgorithm(old(View()), aa))
    {
      var trimmed := ComputeTrim(aa);
      var lowered := ComputeToLower(trimmed);
      if lowered == "" {
        algorithm := Algorithm.Unset;
        return None;
      }
      var next := AlgorithmOf(lowered);
      if !next.IsValid() {
        return Some(InvalidAlgorithm);
      }
      algorithm := next;
      return None;
    }

    method SetAddressFormat(af: string) returns (err: Option<ErrorCode>)
      requires Valid()
      modifies this`format
      ensures Valid() && (View(), err) == Keep(old(View()), A.SetFormat(old(View()), af))
    {
      var trimmed := ComputeTrim(af);
      var lowered := ComputeToLower(trimmed);
      if lowered == "" {
        format := Format.Unset;
        return None;
      }
      var next := FormatOf(lowered);
      if !next.IsValid() {
        return Some(InvalidFormat);
      }
      format := next;
      return None;
    }

    method SetAddressPrefix(ap: string) returns (err: Option<ErrorCode>)
      requires Valid()
      modifies this`prefix
      ensures Valid() && (View(), err) == Keep(old(View()), A.SetPrefix(old(View()), ap))
    {
      var v := ValidateFreeForm(ap);
      if v.Err? {
        return Some(v.error);
      }
      prefix := v.value;
      return None;
    }

    method SetAddressSuffix(as_: string) returns (err: Option<ErrorCode>)
      requires Valid()
      modifies this`suffix
      ensures Valid() && (View(), err) == Keep(old(View()), A.SetSuffix(old(View()), as_))
    {
      var v := ValidateFreeForm(as_);
      if v.Err? {
        return Some(v.error);
      }
      suffix := v.value;
      return None;
    }

    method SetWalletType(wt: string) returns (err: Option<ErrorCode>)
      requires Valid()
      modifies this`walletType
      ensures Valid() && (View(), err) == Keep(old(View()), A.SetWalletType(old(View()), wt))
    {
      var v := ValidateFreeForm(wt);
      if v.Err? {
        return Some(v.error);
      }
      walletType := v.value;
      return None;
    }

    method SetWalletId(wi: string) returns (err: Option<ErrorCode>)
      requires Valid()
      modifies this`walletId
      ensures Valid() && (View(), err) == Keep(old(View()), A.SetWalletId(old(View()), wi))
    {
      var v := ValidateFreeForm(wi);
      if v.Err? {
        return Some(v.error);
      }
      walletId := v.value;
      return None;
    }

    // ---- printing ---------------------------------------------------------

    method Nss() returns (out: string)
      requires Valid()
      ensures out == A.Nss(View())
    {
      ghost var a := View();
      ghost var head := Key(a.chain);
      out := PrintKey();
      out := PrintCoin(out, a, chain.coin);
      out := PrintDerivation(out, head, CT_DONE);
      out := PrintFormat(out, head, a, CT_DONE + [DT] + [DP], algorithm, format);
      out := PrintAffixes(out, head, a, AF_DONE, prefix, suffix);
      out := PrintWallet(out, head, a, AF_DONE + [AP] + [AS], walletType, walletId);
      AllDone();
    }

    method PrintKey() returns (out: string)
      ensures out == Key(chain.View())
    {
      out := "nt:";
      out := out + chain.network.Str();
      out := out + ":ci:";
      out := out + chain.id;
    }

    method PrintDerivation(start: string, ghost head: string, ghost done: seq<Component>) returns (out: string)
      requires Valid() && Printed(start, head, View(), done)
      ensures Printed(out, head, View(), done + [DT] + [DP])
    {
      var dt, dp := DerivationTexts();
      out := PrintField(start, head, View(), done, DT, dt);
      out := PrintField(out, head, View(), done + [DT], DP, dp);
    }

    /** The texts of dt and dp; both are empty on the form without a path. */
    method DerivationTexts() returns (dt: string, dp: string)
      requires Valid()
      ensures dt == A.Shown(View(), DT) && dp == A.Shown(View(), DP)
    {
      if path == null || path.kind.Unset? || path.kind.Root? {
        return "", "";
      }
      dt := path.kind.Str();
      dp := path.Str();
    }

    method Str() returns (out: string)
      requires Valid()
      ensures out == A.Urn(View())
    {
      out := "urn:mhda:";
      var nss := Nss();
      out := out + nss;
    }

    method CheckPathSet() returns (err: Option<ErrorCode>)
      ensures err == if A.PathIsSet(View()) then None else Some(InvalidDerivationPath)
    {
      if path != null && !path.kind.Unset? && !path.kind.Root? && path.levels == [] {
        return Some(InvalidDerivationPath);
      }
      return None;
    }

    method MarshalText() returns (r: Result<string>)
      requires Valid()
      ensures r == A.MarshalText(View())
    {
      if chain.network.Unset? {
        return Err(UninitializedAddress);
      }
      var err := CheckPathSet();
      if err.Some? {
        return Err(err.value);
      }
      var out := Str();
      return Ok(out);
    }

    /** `*this = other`, for a parsed address that nobody else holds. */
    method TakeOver(other: Address)
      requires other.chain != chain && other != this && other.Valid()
      modifies this, chain
      ensures Valid() && View() == old(other.View()) && path == old(other.path)
    {
      chain.Assign(other.chain);
      path := other.path;
      algorithm, format := other.algorithm, other.format;
      prefix, suffix := other.prefix, other.suffix;
      walletType, walletId := other.walletType, other.walletId;
    }

    /** Replaces this address by the parsed one, or leaves it unchanged. */
    method UnmarshalText(text: string) returns (err: Option<ErrorCode>)
      requires Valid()
      modifies this, chain
      ensures Valid() && (path == null || path == old(path) || fresh(path))
      ensures match A.ParseUrn(text)
              case Ok(v) => err == None && View() == v
              case Err(e) => err == Some(e) && View() == old(View())
    {
      var parsed;
      parsed, err := ParseUrn(text);
      if err.Some? {
        return;
      }
      TakeOver(parsed);
    }

    // ---- strict validation ------------------------------------------------

    method Validate() returns (err: Option<ErrorCode>)
      requires Valid()
      ensures err == A.Validate(View())
    {
      var nt := chain.network;
      if nt.Unset? {
        return Some(UninitializedAddress);
      }
      err := CheckPathSet();
      if err.Some? {
        return;
      }
      if !NetworkIsRegistered(nt) {
        return Some(Incompatible);
      }
      var algo := ResolvedAlgorithm();
      if algo.Unset? || !NetworkAllowsAlgorithm(nt, algo) {
        return Some(Incompatible);
      }
      var fmt := ResolvedFormat();
      if !fmt.Unset? && !NetworkAllowsFormat(nt, fmt) {
        return Some(Incompatible);
      }
      if path == null || path.kind.Unset? || path.kind.Root? {
        return None;
      }
      err := ValidatePath(algo, fmt);
    }

    /** The tests of `validate` on an address with a path. */
    method ValidatePath(algo: Algorithm, fmt: Format) returns (err: Option<ErrorCode>)
      requires path != null
      ensures err == A.ValidatePath(chain.network, path.View(), algo, fmt)
    {
      var nt, kind := chain.network, path.kind;
      if !NetworkAllowsDerivation(nt, kind) {
        return Some(Incompatible);
      }
      var want := DerivationAlgorithm(nt, kind);
      if !want.Unset? && want != algo {
        return Some(Incompatible);
      }
      if !fmt.Unset? && !DerivationAllowsFormat(nt, kind, fmt) {
        return Some(Incompatible);
      }
      if algo.Ed25519? && !kind.Cip1852? {
        for i := 0 to |path.levels|
          invariant forall k :: 0 <= k < i ==> path.levels[k].hardened
        {
          if !path.levels[i].hardened {
            return Some(Incompatible);
          }
        }
      }
      if nt.Cosmos? && kind.Bip44? && path.coin == 118 {
        return Some(Incompatible);
      }
      return None;
    }

    // ---- parsing ----------------------------------------------------------

    static method FromComponents(m: Components) returns (a: Address?, err: Option<ErrorCode>)
      ensures match A.FromComponents(m)
              case Ok(v) => err == None && a != null && fresh(a) && a.Valid() && a.View() == v
                            && fresh(a.chain) && (a.path != null ==> fresh(a.path))
              case Err(e) => err == Some(e) && a == null
    {
      a := null;
      var c;
      c, err := Chain.Build(m);
      if err.Some? {
        return;
      }
      var addr := new Address.Of(c, null);
      err := addr.SetDerivation(A.Get(m, DT), A.Get(m, DP));
      if err.Some? {
        return;
      }
      err := addr.SetFormatDomain(m);
      if err.Some? {
        return;
      }
      err := addr.SetFreeForms(m);
      if err.None? {
        a := addr;
      }
    }

    /** The algorithm and format calls of `parse_address_from_components`. */
    method SetFormatDomain(m: Components) returns (err: Option<ErrorCode>)
      requires Valid()
      modifies this`algorithm, this`format
      ensures Valid()
      ensures match A.SetFormatDomain(old(View()), m)
              case Ok(v) => err == None && View() == v
              case Err(e) => err == Some(e)
    {
      err := SetAddressAlgorithm(A.Get(m, AA));
      if err.None? {
        err := SetAddressFormat(A.Get(m, AF));
      }
    }

    /** The free-form calls of `parse_address_from_components`. */
    method SetFreeForms(m: Components) returns (err: Option<ErrorCode>)
      requires Valid()
      modifies this`prefix, this`suffix, this`walletType, this`walletId
      ensures Valid()
      ensures match A.SetFreeForms(old(View()), m)
              case Ok(v) => err == None && View() == v
              case Err(e) => err == Some(e)
    {
      err := SetAddressPrefix(A.Get(m, AP));
      if err.None? {
        err := SetAddressSuffix(A.Get(m, AS));
      }
      if err.None? {
        err := SetWalletType(A.Get(m, WT));
      }
      if err.None? {
        err := SetWalletId(A.Get(m, WI));
      }
    }

    static method ParseAddressNss(nss: string) returns (a: Address?, err: Option<ErrorCode>)
      ensures match A.ParseAddressNss(nss)
              case Ok(v) => err == None && a != null && fresh(a) && a.Valid() && a.View() == v
                            && fresh(a.chain) && (a.path != null ==> fresh(a.path))
              case Err(e) => err == Some(e) && a == null
    {
      var m := ComputeParseNss(nss);
      if m.Err? {
        return null, Some(m.error);
      }
      if NT !in m.value {
        return null, Some(MissingNetworkType);
      }
      a, err := FromComponents(m.value);
    }

    static method ParseUrn(src: string) returns (a: Address?, err: Option<ErrorCode>)
      ensures match A.ParseUrn(src)
              case Ok(v) => err == None && a != null && fresh(a) && a.Valid() && a.View() == v
                            && fresh(a.chain) && (a.path != null ==> fresh(a.path))
              case Err(e) => err == Some(e) && a == null
    {
      var trimmed := ComputeTrim(src);
      if |trimmed| < |A.URN_PREFIX| {
        return null, Some(InvalidUrn);
      }
      var prefixed := EqualAsciiFold(trimmed[..|A.URN_PREFIX|], A.URN_PREFIX);
      if !prefixed {
        return null, Some(InvalidUrn);
      }
      var nss := ComputeTrimRight(StripRqf(trimmed[|A.URN_PREFIX|..]));
      a, err := ParseAddressNss(nss);
    }

    static method ParseUrnStrict(src: string) returns (a: Address?, err: Option<ErrorCode>)
      ensures match A.ParseUrnStrict(src)
              case Ok(v) => err == None && a != null && fresh(a) && a.Valid() && a.View() == v
              case Err(e) => err == Some(e) && a == null
    {
      a, err := ParseUrn(src);
      if err.None? {
        err := a.Validate();
        if err.Some? {
          a := null;
        }
      }
    }

    static method ParseNssText(nss: string) returns (a: Address?, err: Option<ErrorCode>)
      ensures match A.ParseNssText(nss)
              case Ok(v) => err == None && a != null && fresh(a) && a.Valid() && a.View() == v
              case Err(e) => err == Some(e) && a == null
    {
      var trimmed := ComputeTrim(nss);
      a, err := ParseAddressNss(trimmed);
    }
  }

  /** Setting type and path on an address is setting them on a default one and taking over the path. */
  lemma PathTakenOver(a: A.AddressState, kind: DerivationType, dp: string)
    ensures A.SetDerivationTo(a, kind, dp) ==
            match A.SetDerivationTo(A.DEFAULT_ADDRESS, kind, dp)
            case Ok(v) => Ok(a.(path := v.path))
            case Err(e) => Err(e)
  {
  }

  const CT_DONE: seq<Component> := [CT]
  const AF_DONE: seq<Component> := CT_DONE + [DT] + [DP] + [AA] + [AF]

  lemma AllDone()
    ensures AF_DONE + [AP] + [AS] + [WT] + [WI] == A.OPTIONAL
  {
  }

  /** How far the text of an address has been printed: its key and the components `done`. */
  ghost predicate Printed(out: string, head: string, a: A.AddressState, done: seq<Component>) {
    out == head + A.PrintedFields(a, done)
  }

  lemma FieldsNext(a: A.AddressState, done: seq<Component>, c: Component)
    ensures A.PrintedFields(a, done + [c]) == A.PrintedFields(a, done) + A.Field(a, c)
  {
    assert (done + [c])[..|done|] == done;
  }

  lemma Appended(head: string, fields: string, field: string)
    ensures head + fields + field == head + (fields + field)
  {
  }

  lemma PrintedNext(out: string, head: string, a: A.AddressState, done: seq<Component>, c: Component)
    requires Printed(out, head, a, done)
    ensures Printed(out + A.Field(a, c), head, a, done + [c])
  {
    FieldsNext(a, done, c);
    Appended(head, A.PrintedFields(a, done), A.Field(a, c));
  }

  /** Emits a component when it is set. */
  method PrintField(
    start: string, ghost head: string, ghost a: A.AddressState, ghost done: seq<Component>, c: Component, value: string)
    returns (out: string)
    requires value == A.Shown(a, c) && Printed(start, head, a, done)
    ensures Printed(out, head, a, done + [c])
  {
    PrintedNext(start, head, a, done, c);
    if value == "" {
      assert start + "" == start;
      return start;
    }
    return start + (":" + c.Key() + ":" + value);
  }

  method PrintFormat(
    start: string, ghost head: string, ghost a: A.AddressState, ghost done: seq<Component>,
    algorithm: Algorithm, format: Format)
    returns (out: string)
    requires algorithm == a.algorithm && format == a.format && Printed(start, head, a, done)
    ensures Printed(out, head, a, done + [AA] + [AF])
  {
    out := PrintField(start, head, a, done, AA, algorithm.Str());
    out := PrintField(out, head, a, done + [AA], AF, format.Str());
  }

  method PrintAffixes(
    start: string, ghost head: string, ghost a: A.AddressState, ghost done: seq<Component>,
    prefix: string, suffix: string)
    returns (out: string)
    requires prefix == a.prefix && suffix == a.suffix && Printed(start, head, a, done)
    ensures Printed(out, head, a, done + [AP] + [AS])
  {
    out := PrintField(start, head, a, done, AP, prefix);
    out := PrintField(out, head, a, done + [AP], AS, suffix);
  }

  method PrintWallet(
    start: string, ghost head: string, ghost a: A.AddressState, ghost done: seq<Component>,
    walletType: string, walletId: string)
    returns (out: string)
    requires walletType == a.walletType && walletId == a.walletId && Printed(start, head, a, done)
    ensures Printed(out, head, a, done + [WT] + [WI])
  {
    out := PrintField(start, head, a, done, WT, walletType);
    out := PrintField(out, head, a, done + [WT], WI, walletId);
  }

  /** Emits the coin type, through its own digit buffer, when there is one. */
  method PrintCoin(key: string, ghost a: A.AddressState, coin: Option<u32>) returns (out: string)
    requires coin == a.chain.coin
    ensures Printed(out, key, a, [CT])
  {
    PrintedNext(key, key, a, [], CT);
    assert [] + [CT] == [CT];
    CoinField(a);
    if coin.None? {
      assert key + "" == key;
      return key;
    }
    out := key + ":ct:";
    out := PushUint32(out, coin.value);
    Appended(key, ":ct:", Decimal(coin.value));
  }

  lemma CoinField(a: A.AddressState)
    ensures A.Field(a, CT) == if a.chain.coin.Some? then ":ct:" + Decimal(a.chain.coin.value) else ""
  {
    if a.chain.coin.Some? {
      DecimalSound(a.chain.coin.value);
      assert ":" + "ct" + ":" == ":ct:";
    }
  }

  /** `trim` followed by `validate_free_form_value`. */
  method ValidateFreeForm(v: string) returns (r: Result<string>)
    ensures r == A.FreeForm(v)
  {
    var trimmed := ComputeTrim(v);
    var allowed := AllNssBytes(trimmed);
    return if allowed then Ok(trimmed) else Err(InvalidValue);
  }
}
