/** The canonical texts written out piece by piece (src/address.cpp:172-249, src/chain.cpp:128-134). */
module Printed {
  import opened Addresses
  import opened Chains
  import opened Errors
  import opened Levels
  import opened Names
  import opened Numbers
  import opened Paths
  import opened RoundTrips

  /** A component with its key, or nothing when it is not set. */
  function Piece(key: string, value: string): string {
    if value == "" then "" else ":" + key + ":" + value
  }

  /** An address with a derivation type of its own; the three forms of root have none. */
  predicate Derived(a: AddressState) {
    a.path.Some? && !a.path.value.kind.Unset? && !a.path.value.kind.Root?
  }

  lemma CoinWritten(a: AddressState)
    ensures Field(a, CT) == if a.chain.coin.Some? then ":ct:" + Decimal(a.chain.coin.value) else ""
  {
    if a.chain.coin.Some? {
      DecimalSound(a.chain.coin.value);
      assert ":" + "ct" + ":" == ":ct:";
    }
  }

  lemma DerivationWritten(a: AddressState)
    requires AddressOk(a)
    ensures Field(a, DT) == if Derived(a) then Piece("dt", a.path.value.kind.Str()) else ""
    ensures Field(a, DP) ==
            if Derived(a) && a.path.value.levels != [] then ":dp:" + FormatLevels(a.path.value.levels) else ""
  {
    if IsRoot(a) {
      RootShows(a);
    } else {
      PathShows(a);
      TemplateAgrees(a.path.value);
      assert ":" + "dp" + ":" == ":dp:";
    }
  }

  lemma NamesWritten(a: AddressState)
    ensures Field(a, AA) == Piece("aa", a.algorithm.Str()) && Field(a, AF) == Piece("af", a.format.Str())
  {
  }

  lemma FreeFormsWritten(a: AddressState)
    ensures Field(a, AP) == Piece("ap", a.prefix) && Field(a, AS) == Piece("as", a.suffix)
    ensures Field(a, WT) == Piece("wt", a.walletType) && Field(a, WI) == Piece("wi", a.walletId)
  {
  }

  lemma FieldsAppend(head: string, a: AddressState, cs: seq<Component>, c: Component)
    ensures head + PrintedFields(a, cs + [c]) == head + PrintedFields(a, cs) + Field(a, c)
  {
    assert (cs + [c])[..|cs|] == cs;
    assert head + (PrintedFields(a, cs) + Field(a, c)) == head + PrintedFields(a, cs) + Field(a, c);
  }

  lemma EveryField(head: string, a: AddressState)
    ensures head + PrintedFields(a, [CT] + [DT] + [DP] + [AA] + [AF] + [AP] + [AS] + [WT] + [WI]) ==
            head + Field(a, CT) + Field(a, DT) + Field(a, DP) + Field(a, AA) + Field(a, AF)
            + Field(a, AP) + Field(a, AS) + Field(a, WT) + Field(a, WI)
  {
    assert [] + [CT] == [CT] && head + PrintedFields(a, []) == head;
    FieldsAppend(head, a, [], CT);
    FieldsAppend(head, a, [CT], DT);
    FieldsAppend(head, a, [CT] + [DT], DP);
    FieldsAppend(head, a, [CT] + [DT] + [DP], AA);
    FieldsAppend(head, a, [CT] + [DT] + [DP] + [AA], AF);
    FieldsAppend(head, a, [CT] + [DT] + [DP] + [AA] + [AF], AP);
    FieldsAppend(head, a, [CT] + [DT] + [DP] + [AA] + [AF] + [AP], AS);
    FieldsAppend(head, a, [CT] + [DT] + [DP] + [AA] + [AF] + [AP] + [AS], WT);
    FieldsAppend(head, a, [CT] + [DT] + [DP] + [AA] + [AF] + [AP] + [AS] + [WT], WI);
  }

  lemma OrderWritten()
    ensures [CT] + [DT] + [DP] + [AA] + [AF] + [AP] + [AS] + [WT] + [WI] == OPTIONAL
  {
  }

  /** The canonical form of every reachable address: the chain key, then every set component in this order. */
  lemma NssWrittenOut(a: AddressState)
    requires AddressOk(a)
    ensures Nss(a) ==
            "nt:" + a.chain.network.Str() + ":ci:" + a.chain.id
            + (if a.chain.coin.Some? then ":ct:" + Decimal(a.chain.coin.value) else "")
            + (if Derived(a) then Piece("dt", a.path.value.kind.Str()) else "")
            + (if Derived(a) && a.path.value.levels != [] then ":dp:" + FormatLevels(a.path.value.levels) else "")
            + Piece("aa", a.algorithm.Str()) + Piece("af", a.format.Str())
            + Piece("ap", a.prefix) + Piece("as", a.suffix)
            + Piece("wt", a.walletType) + Piece("wi", a.walletId)
  {
    OrderWritten();
    EveryField(Key(a.chain), a);
    CoinWritten(a);
    DerivationWritten(a);
    NamesWritten(a);
    FreeFormsWritten(a);
  }

  /** The URN is the NSS after this prefix, and when it is given out as the marshalled text. */
  lemma MarshalWrittenOut(a: AddressState)
    ensures Urn(a) == "urn:mhda:" + Nss(a)
    ensures MarshalText(a) ==
            if a.chain.network.Unset? then Err(UninitializedAddress)
            else if Derived(a) && a.path.value.levels == [] then Err(InvalidDerivationPath)
            else Ok("urn:mhda:" + Nss(a))
  {
  }

  /** The key of a chain leaves out its coin type. */
  lemma KeyWrittenOut(c: ChainState)
    ensures Key(c) == "nt:" + c.network.Str() + ":ci:" + c.id
  {
  }
}
