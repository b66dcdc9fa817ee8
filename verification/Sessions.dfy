/**
 * Runs on the objects: every sequence of calls on the classes `chain`, `derivation_path` and `address` leaves them in
 * the state, and is answered, as the run on values says. The theorems about runs are theorems about the objects.
 */
module Sessions {
  import opened AddressObjects
  import opened Addresses
  import opened ChainObjects
  import opened ChainTheorems
  import opened DerivationPaths
  import opened Errors
  import opened Paths
  import opened Runs
  import opened Wrappers

  // ---- chains -------------------------------------------------------------

  method CallChain(c: Chain, op: ChainOp) returns (err: Option<ErrorCode>)
    requires c.Valid()
    modifies c
    ensures c.Valid() && (c.View(), err) == ApplyChain(old(c.View()), op)
  {
    ApplyChainOk(c.View(), op);
    err := None;
    var made: Chain? := null;
    if op.ChainDefault? {
      made := new Chain();
    }
    match op {
      case ChainDefault =>
      case ChainMake(nt, ci) => made, err := Chain.Create(nt, ci);
      case ChainFromNss(nss) => made, err := Chain.FromNss(nss);
      case ChainFromKey(key) => made, err := Chain.FromKey(key);
      case ChainSetNetwork(nt) => err := c.SetNetwork(nt);
      case ChainSetId(ci) => err := c.SetChainId(ci);
      case ChainSetCoin(ct) => c.SetCoin(ct);
      case ChainClearCoin => c.ClearCoin();
    }
    if made != null {
      c.Assign(made);
    }
  }

  method ChainSession(ops: seq<ChainOp>) returns (c: Chain)
    ensures fresh(c) && c.Valid() && c.View() == RunChain(ops)
  {
    c := new Chain();
    for i := 0 to |ops|
      invariant fresh(c) && c.Valid() && c.View() == RunChain(ops[..i])
    {
      assert ops[..i + 1][..i] == ops[..i];
      var _ := CallChain(c, ops[i]);
    }
    assert ops[..|ops|] == ops;
  }

  // ---- paths --------------------------------------------------------------

  method CallPath(p: DerivationPath, op: PathOp) returns (err: Option<ErrorCode>)
    requires p.Valid()
    modifies p
    ensures p.Valid() && (p.View(), err) == ApplyPath(old(p.View()), op)
  {
    ApplyPathCoherent(p.View(), op);
    err := None;
    var made: DerivationPath? := null;
    if op.PathDefault? {
      made := new DerivationPath();
    }
    match op {
      case PathDefault =>
      case PathMake(kind, coin, account, charge, index) =>
        made, err := DerivationPath.Create(kind, coin, account, charge, index);
      case PathFromLevels(kind, levels) => made, err := DerivationPath.FromLevels(kind, levels);
      case PathParse(kind, text) => made, err := DerivationPath.Parse(kind, text);
      case PathSetType(kind) => err := p.SetType(kind);
      case PathParsePath(text) => err := p.ParsePath(text);
    }
    if made != null {
      p.Assign(made);
    }
  }

  method PathSession(ops: seq<PathOp>) returns (p: DerivationPath)
    ensures fresh(p) && p.Valid() && p.View() == RunPath(ops)
  {
    p := new DerivationPath();
    for i := 0 to |ops|
      invariant fresh(p) && p.Valid() && p.View() == RunPath(ops[..i])
    {
      assert ops[..i + 1][..i] == ops[..i];
      var _ := CallPath(p, ops[i]);
    }
    assert ops[..|ops|] == ops;
  }

  method OptionalPathSession(ops: Option<seq<PathOp>>) returns (p: DerivationPath?)
    ensures p == null || (fresh(p) && p.Valid())
    ensures (if p == null then None else Some(p.View())) == RunOptional(ops)
  {
    p := null;
    if ops.Some? {
      p := PathSession(ops.value);
    }
  }

  // ---- addresses ----------------------------------------------------------

  /** What a constructor is answered with, and the address it makes. */
  ghost predicate Made(made: Address?, err: Option<ErrorCode>, op: AddressOp)
    reads if made == null then {} else {made, made.chain}
    reads if made == null || made.path == null then {} else {made.path}
  {
    && (made == null <==> err.Some?)
    && forall a :: Apply(a, op) == (if made == null then a else made.View(), err)
  }

  /** The constructors, with the arguments built by runs of their own. */
  method Construct(op: AddressOp) returns (made: Address?, err: Option<ErrorCode>)
    requires op.New? || op.NewFrom? || op.NewWith?
    ensures Made(made, err, op)
    ensures made != null ==>
              fresh(made) && made.Valid() && fresh(made.chain) && (made.path == null || fresh(made.path))
  {
    err := None;
    if op.New? {
      made := new Address();
    } else {
      var c := ChainSession(op.chain);
      var p := OptionalPathSession(op.path);
      if op.NewFrom? {
        made := new Address.Of(c, p);
      } else {
        made, err := Address.Create(c, p, op.aa, op.af, op.ap, op.as_);
      }
    }
  }

  /** `a = address(...)`. */
  method CallConstructor(a: Address, op: AddressOp) returns (err: Option<ErrorCode>)
    requires a.Valid() && (op.New? || op.NewFrom? || op.NewWith?)
    modifies a, a.chain
    ensures a.Valid() && (a.View(), err) == Apply(old(a.View()), op)
    ensures a.path == null || a.path == old(a.path) || fresh(a.path)
  {
    var made;
    made, err := Construct(op);
    if made != null {
      a.TakeOver(made);
    }
  }

  method CallSetter(a: Address, op: AddressOp) returns (err: Option<ErrorCode>)
    requires a.Valid()
    requires op.CallSetCoinType? || op.CallSetAlgorithm? || op.CallSetFormat? || op.CallSetPrefix?
          || op.CallSetSuffix? || op.CallSetWalletType? || op.CallSetWalletId?
    modifies a, a.chain
    ensures a.Valid() && a.path == old(a.path) && (a.View(), err) == Apply(old(a.View()), op)
  {
    match op {
      case CallSetCoinType(ct) => err := a.SetCoinType(ct);
      case CallSetAlgorithm(aa) => err := a.SetAddressAlgorithm(aa);
      case CallSetFormat(af) => err := a.SetAddressFormat(af);
      case CallSetPrefix(ap) => err := a.SetAddressPrefix(ap);
      case CallSetSuffix(as_) => err := a.SetAddressSuffix(as_);
      case CallSetWalletType(wt) => err := a.SetWalletType(wt);
      case CallSetWalletId(wi) => err := a.SetWalletId(wi);
    }
  }

  method CallDerivation(a: Address, op: AddressOp) returns (err: Option<ErrorCode>)
    requires a.Valid()
    requires op.CallSetDerivationType? || op.CallSetDerivationPath? || op.CallSetDerivation?
    modifies a, a.path
    ensures a.Valid() && (a.View(), err) == Apply(old(a.View()), op)
    ensures a.path == null || a.path == old(a.path) || fresh(a.path)
  {
    match op {
      case CallSetDerivationType(dt) => err := a.SetDerivationType(dt);
      case CallSetDerivationPath(dp) => err := a.SetDerivationPath(dp);
      case CallSetDerivation(dt, dp) => err := a.SetDerivation(dt, dp);
    }
  }

  /** Through `get_chain()`. */
  method CallChainOf(a: Address, op: AddressOp) returns (err: Option<ErrorCode>)
    requires a.Valid() && op.EditChain?
    modifies a.chain
    ensures a.Valid() && a.path == old(a.path) && (a.View(), err) == Apply(old(a.View()), op)
  {
    err := CallChain(a.chain, op.chainOp);
  }

  /** Through `*path()`, when there is one. */
  method CallPathOf(a: Address, op: AddressOp) returns (err: Option<ErrorCode>)
    requires a.Valid() && op.EditPath?
    modifies a.path
    ensures a.Valid() && (a.View(), err) == Apply(old(a.View()), op)
  {
    err := None;
    if a.path != null {
      err := CallPath(a.path, op.pathOp);
    }
  }

  /** `path() = ...`. */
  method CallAssignPath(a: Address, op: AddressOp)
    requires a.Valid() && op.AssignPath?
    modifies a`path
    ensures a.Valid() && (a.View(), None) == Apply(old(a.View()), op)
    ensures a.path == null || fresh(a.path)
  {
    a.path := OptionalPathSession(op.newPath);
  }

  method CallUnmarshal(a: Address, op: AddressOp) returns (err: Option<ErrorCode>)
    requires a.Valid() && op.Unmarshal?
    modifies a, a.chain
    ensures a.Valid() && (a.View(), err) == Apply(old(a.View()), op)
    ensures a.path == null || a.path == old(a.path) || fresh(a.path)
  {
    err := a.UnmarshalText(op.text);
  }

  method Call(a: Address, op: AddressOp) returns (err: Option<ErrorCode>)
    requires a.Valid()
    modifies a, a.chain, a.path
    ensures a.Valid() && (a.View(), err) == Apply(old(a.View()), op)
    ensures a.path == null || a.path == old(a.path) || fresh(a.path)
  {
    if op.New? || op.NewFrom? || op.NewWith? {
      err := CallConstructor(a, op);
    } else if op.CallSetDerivationType? || op.CallSetDerivationPath? || op.CallSetDerivation? {
      err := CallDerivation(a, op);
    } else if op.EditChain? {
      err := CallChainOf(a, op);
    } else if op.EditPath? {
      err := CallPathOf(a, op);
    } else if op.AssignPath? {
      CallAssignPath(a, op);
      err := None;
    } else if op.Unmarshal? {
      err := CallUnmarshal(a, op);
    } else {
      err := CallSetter(a, op);
    }
  }

  lemma NextStep(ops: seq<AddressOp>, i: nat)
    requires i < |ops|
    ensures Run(ops[..i + 1]) == Apply(Run(ops[..i]), ops[i]).0
    ensures Outcomes(DEFAULT_ADDRESS, ops[..i + 1]) ==
            Outcomes(DEFAULT_ADDRESS, ops[..i]) + [Apply(Run(ops[..i]), ops[i]).1]
  {
    assert ops[..i + 1][..i] == ops[..i];
  }

  /** The address after a sequence of calls on a default one. */
  method Session(ops: seq<AddressOp>) returns (a: Address, errs: seq<Option<ErrorCode>>)
    ensures fresh(a) && a.Valid() && a.View() == Run(ops)
    ensures errs == Outcomes(DEFAULT_ADDRESS, ops)
  {
    a := new Address();
    errs := [];
    for i := 0 to |ops|
      invariant fresh(a) && fresh(a.chain) && (a.path == null || fresh(a.path))
      invariant a.Valid() && a.View() == Run(ops[..i]) && errs == Outcomes(DEFAULT_ADDRESS, ops[..i])
    {
      NextStep(ops, i);
      var err := Call(a, ops[i]);
      errs := errs + [err];
    }
    assert ops[..|ops|] == ops;
  }

  /** Print and parse after any session: the objects come back alike, or the code tells what was missing. */
  method PrintAndParse(ops: seq<AddressOp>) returns (a: Address, b: Address?, err: Option<ErrorCode>)
    ensures fresh(a) && a.Valid() && a.View() == Run(ops)
    ensures err ==
            if a.chain.network.Unset? || a.chain.id == "" then Some(InvalidNss)
            else if !PathIsSet(a.View()) then Some(InvalidDerivationPath)
            else None
    ensures b == null <==> err.Some?
    ensures b != null ==> fresh(b) && b.Valid() && b.View() == Canonical(a.View())
  {
    var answers;
    a, answers := Session(ops);
    var text := a.Str();
    b, err := Address.ParseUrn(text);
    WholeRunRoundTrip(ops);
  }
}
