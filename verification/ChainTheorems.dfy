/** What holds of every reachable chain, of chain keys, and of the texts that are chain keys. */
module ChainTheorems {
  import opened Chains
  import opened Errors
  import opened Names
  import opened NssPairs
  import opened Numbers
  import opened Text
  import opened Wrappers

  // ---- identity -----------------------------------------------------------

  lemma NetworkTextFree(nt: NetworkType)
    requires nt.Unset? || nt.IsValid()
    ensures Free(nt.Str(), ':')
  {
    if nt.IsValid() {
      NetworkTypeSpelling(nt);
    }
  }

  lemma FirstPart(a: string, r: string)
    requires Free(a, ':') && (r == "" || r[0] == ':')
    ensures Split(a + r, ':')[0] == a
  {
    if r == "" {
      assert a + r == a;
      SplitOne(a, ':');
    } else {
      assert a + r == a + [':'] + r[1..];
      SplitFirst(a, r[1..], ':');
    }
  }

  lemma SamePrefix(p: string, x: string, y: string)
    requires p + x == p + y
    ensures x == y
  {
    assert x == (p + x)[|p|..] && y == (p + y)[|p|..];
  }

  /** Texts without a separator are determined by what they delimit. */
  lemma DelimitedEqual(a: string, b: string, r: string, s: string)
    requires Free(a, ':') && Free(b, ':')
    requires (r == "" || r[0] == ':') && (s == "" || s[0] == ':')
    requires a + r == b + s
    ensures a == b && r == s
  {
    FirstPart(a, r);
    FirstPart(b, s);
    SamePrefix(a, r, s);
  }

  lemma NetworkTextInjective(a: NetworkType, b: NetworkType)
    requires (a.Unset? || a.IsValid()) && (b.Unset? || b.IsValid()) && a.Str() == b.Str()
    ensures a == b
  {
    if a.IsValid() {
      NetworkTypeNames(a);
    }
    if b.IsValid() {
      NetworkTypeNames(b);
    }
  }

  lemma KeyTail(c: ChainState, r: string)
    ensures Key(c) + r == "nt:" + (c.network.Str() + (":ci:" + (c.id + r)))
  {
  }

  /**
   * A text starts with at most one chain key that ends at its end or at a ':'; in particular equal keys
   * mean equal identities, complete or not.
   */
  lemma OneDelimitedKey(c: ChainState, d: ChainState, r: string, s: string)
    requires ChainOk(c) && ChainOk(d)
    requires (r == "" || r[0] == ':') && (s == "" || s[0] == ':')
    requires Key(c) + r == Key(d) + s
    ensures c.network == d.network && c.id == d.id && r == s
  {
    NetworkTextFree(c.network);
    NetworkTextFree(d.network);
    KeyTail(c, r);
    KeyTail(d, s);
    var n, n' := c.network.Str(), d.network.Str();
    SamePrefix("nt:", n + (":ci:" + (c.id + r)), n' + (":ci:" + (d.id + s)));
    DelimitedEqual(n, n', ":ci:" + (c.id + r), ":ci:" + (d.id + s));
    SamePrefix(":ci:", c.id + r, d.id + s);
    DelimitedEqual(c.id, d.id, r, s);
    NetworkTextInjective(c.network, d.network);
  }

  lemma KeysInjective(c: ChainState, d: ChainState)
    requires ChainOk(c) && ChainOk(d)
    ensures Key(c) == Key(d) <==> c.network == d.network && c.id == d.id
  {
    if Key(c) == Key(d) {
      assert Key(c) + "" == Key(d) + "";
      OneDelimitedKey(c, d, "", "");
    }
  }

  // ---- the key language ---------------------------------------------------

  function KeyPairs(c: ChainState): seq<Pair> {
    [Pair("nt", c.network.Str()), Pair("ci", c.id)]
  }

  lemma KeyIsText(c: ChainState)
    ensures Key(c) == NssText(KeyPairs(c))
  {
    NssTextOne(Pair("nt", c.network.Str()));
    assert KeyPairs(c) == [Pair("nt", c.network.Str())] + [Pair("ci", c.id)];
    NssTextAppend([Pair("nt", c.network.Str())], Pair("ci", c.id));
  }

  lemma KeyParses(c: ChainState)
    requires Complete(c)
    ensures ParseNss(Key(c)) == Ok(map[NT := c.network.Str(), CI := c.id])
    ensures Count(Key(c), ':') == 3 && Trim(Key(c)) == Key(c)
  {
    var ps := KeyPairs(c);
    KeyCollects(c);
    CollectMeans(ps);
    WellFormedSeparable(ps);
    ParsePairs(ps);
    KeyIsText(c);
    TextSplits(ps);
    SplitCount(Key(c), ':');
    KeyTrimmed(c);
  }

  lemma KeyCollects(c: ChainState)
    requires Complete(c)
    ensures Collect(KeyPairs(c)) == Some(map[NT := c.network.Str(), CI := c.id])
  {
    NetworkTypeSpelling(c.network);
    ComponentKeys(NT, "nt");
    ComponentKeys(CI, "ci");
    var first, both := [Pair("nt", c.network.Str())], KeyPairs(c);
    assert first[..0] == [] && both[..1] == first;
    assert Collect(first) == Some(map[NT := c.network.Str()]);
  }

  lemma KeyTrimmed(c: ChainState)
    requires Complete(c)
    ensures Trim(Key(c)) == Key(c)
  {
    assert Key(c)[0] == 'n' && Key(c)[|Key(c)| - 1] == c.id[|c.id| - 1];
    TrimFixed(Key(c));
  }

  lemma BuildFromKey(c: ChainState)
    requires Complete(c)
    ensures BuildChain(map[NT := c.network.Str(), CI := c.id]) == Ok(c.(coin := None))
  {
    NetworkTypeSpelling(c.network);
    NetworkTypeNames(c.network);
    NameNormalized(c.network.Str());
    AllNssTrimmed(c.id);
  }

  lemma BuiltIsComplete(m: Components)
    requires BuildChain(m).Ok?
    ensures Complete(BuildChain(m).value)
    ensures CT !in m ==> BuildChain(m).value.coin == None
  {
  }

  lemma KeyComponentsAccepted(c: ChainState)
    requires Complete(c) && c.coin == None
    ensures FromKeyComponents(map[NT := c.network.Str(), CI := c.id], Key(c)) == Ok(c)
  {
    BuildFromKey(c);
  }

  lemma FromKeyParsed(key: string, m: Components)
    requires Count(Trim(key), ':') % 2 == 1 && ParseNss(Trim(key)) == Ok(m)
    ensures FromKey(key) == FromKeyComponents(m, Trim(key))
  {
  }

  lemma CanonicalKeyAccepted(key: string, c: ChainState)
    requires Complete(c) && c.coin == None && Trim(key) == Key(c)
    ensures FromKey(key) == Ok(c)
  {
    KeyParses(c);
    FromKeyParsed(key, map[NT := c.network.Str(), CI := c.id]);
    KeyComponentsAccepted(c);
  }

  lemma AcceptedKeyCanonical(key: string)
    requires FromKey(key).Ok?
    ensures var c := FromKey(key).value;
            Complete(c) && c.coin == None && Trim(key) == Key(c)
  {
    BuiltIsComplete(ParseNss(Trim(key)).value);
  }

  /** `from_key` accepts exactly the canonical keys, between whitespace, and returns the chain they spell. */
  lemma FromKeyExactly(key: string, c: ChainState)
    ensures FromKey(key) == Ok(c) <==> Complete(c) && c.coin == None && Trim(key) == Key(c)
  {
    if Complete(c) && c.coin == None && Trim(key) == Key(c) {
      CanonicalKeyAccepted(key, c);
    }
    if FromKey(key).Ok? {
      AcceptedKeyCanonical(key);
    }
  }

  /** After the colon-parity test the tokens always pair up, so that fault of the NSS parser cannot occur. */
  lemma ColonParity(trimmed: string)
    ensures Count(trimmed, ':') % 2 == 1 <==> |Split(trimmed, ':')| % 2 == 0
  {
    SplitCount(trimmed, ':');
  }

  /** A chain is found in the NSS of any address whose chain components are those of the chain. */
  lemma FromNssOfKey(c: ChainState)
    requires Complete(c)
    ensures FromNss(Key(c)) == Ok(c.(coin := None))
  {
    KeyParses(c);
    BuildFromKey(c);
  }

  // ---- runs ---------------------------------------------------------------

  datatype ChainOp =
    | ChainDefault
    | ChainMake(nt: NetworkType, ci: string)
    | ChainFromNss(nss: string)
    | ChainFromKey(key: string)
    | ChainSetNetwork(nt: NetworkType)
    | ChainSetId(ci: string)
    | ChainSetCoin(ct: u32)
    | ChainClearCoin

  function ApplyChain(c: ChainState, op: ChainOp): (ChainState, Option<ErrorCode>) {
    match op
    case ChainDefault => (DEFAULT_CHAIN, None)
    case ChainMake(nt, ci) => Keep(c, MakeChain(nt, ci))
    case ChainFromNss(nss) => Keep(c, FromNss(nss))
    case ChainFromKey(key) => Keep(c, FromKey(key))
    case ChainSetNetwork(nt) => Keep(c, SetNetwork(c, nt))
    case ChainSetId(ci) => Keep(c, SetChainId(c, ci))
    case ChainSetCoin(ct) => (c.(coin := Some(ct)), None)
    case ChainClearCoin => (c.(coin := None), None)
  }

  function RunChain(ops: seq<ChainOp>): ChainState {
    if ops == [] then DEFAULT_CHAIN else ApplyChain(RunChain(ops[..|ops| - 1]), ops[|ops| - 1]).0
  }

  lemma ApplyChainOk(c: ChainState, op: ChainOp)
    requires ChainOk(c)
    ensures ChainOk(ApplyChain(c, op).0)
    ensures ApplyChain(c, op).1.Some? ==> ApplyChain(c, op).0 == c
  {
    match op {
      case ChainFromNss(nss) =>
        if FromNss(nss).Ok? {
          BuiltIsComplete(ParseNss(Trim(nss)).value);
        }
      case ChainFromKey(key) =>
        if FromKey(key).Ok? {
          BuiltIsComplete(ParseNss(Trim(key)).value);
        }
      case _ =>
    }
  }

  lemma {:induction false} ReachableChains(ops: seq<ChainOp>)
    ensures ChainOk(RunChain(ops))
  {
    if ops != [] {
      ReachableChains(ops[..|ops| - 1]);
      ApplyChainOk(RunChain(ops[..|ops| - 1]), ops[|ops| - 1]);
    }
  }

  lemma RunChainStep(ops: seq<ChainOp>, op: ChainOp)
    ensures RunChain(ops + [op]) == ApplyChain(RunChain(ops), op).0
  {
    assert (ops + [op])[..|ops|] == ops;
  }

  lemma NetworkReached(nt: NetworkType) returns (ops: seq<ChainOp>)
    requires nt.Unset? || nt.IsValid()
    ensures RunChain(ops) == DEFAULT_CHAIN.(network := nt)
  {
    ops := [];
    if !nt.Unset? {
      RunChainStep(ops, ChainSetNetwork(nt));
      ops := ops + [ChainSetNetwork(nt)];
    }
  }

  lemma IdReached(before: seq<ChainOp>, id: string) returns (ops: seq<ChainOp>)
    requires AllNss(id) && RunChain(before).id == ""
    ensures RunChain(ops) == RunChain(before).(id := id)
  {
    ops := before;
    if id != "" {
      AllNssTrimmed(id);
      RunChainStep(before, ChainSetId(id));
      ops := before + [ChainSetId(id)];
    }
  }

  /** Three optional calls reach any chain that keeps the invariant. */
  lemma OkChainIsReached(c: ChainState) returns (ops: seq<ChainOp>)
    requires ChainOk(c)
    ensures RunChain(ops) == c
  {
    ops := NetworkReached(c.network);
    ops := IdReached(ops, c.id);
    if c.coin.Some? {
      RunChainStep(ops, ChainSetCoin(c.coin.value));
      ops := ops + [ChainSetCoin(c.coin.value)];
    }
  }

  /** The invariant is exact: the chains that keep it are those that some run reaches. */
  lemma ReachableChainsExactly(c: ChainState)
    ensures ChainOk(c) <==> exists ops :: RunChain(ops) == c
  {
    if ChainOk(c) {
      var ops := OkChainIsReached(c);
    }
    if ops :| RunChain(ops) == c {
      ReachableChains(ops);
    }
  }

  /** Over all runs: equal keys mean equal identities. */
  lemma ReachableKeysInjective(ops: seq<ChainOp>, ops': seq<ChainOp>)
    requires Key(RunChain(ops)) == Key(RunChain(ops'))
    ensures RunChain(ops).network == RunChain(ops').network && RunChain(ops).id == RunChain(ops').id
  {
    ReachableChains(ops);
    ReachableChains(ops');
    KeysInjective(RunChain(ops), RunChain(ops'));
  }
}
