/**
 * The path shapes. The validators of src/derivation_path.cpp:77-198 are kept
 * as the source has them; the reference is the grammar of section 3 of the MHDA specification,
 * written as templates of slots, and the two are proved to be one language.
 */
module PathShapes {
  import opened Levels
  import opened Names
  import opened Numbers
  import opened Text
  import opened Wrappers

  // ---- the validators of the source ---------------------------------------

  predicate ExpectPurpose(raws: seq<RawLevel>, purpose: u32) {
    raws != [] && raws[0].index == purpose && raws[0].hardened && raws[0].exact
  }

  predicate ExpectCoin(raws: seq<RawLevel>, coin: u32) {
    |raws| >= 2 && raws[1].index == coin && raws[1].hardened && raws[1].exact
  }

  predicate ValidateBip44Family(raws: seq<RawLevel>, purpose: u32) {
    && |raws| == 5
    && ExpectPurpose(raws, purpose)
    && raws[1].hardened
    && raws[2].hardened
    && !raws[3].hardened && raws[3].index <= 1 && raws[3].exact
  }

  predicate ValidateBip32(raws: seq<RawLevel>) {
    && |raws| == 3
    && raws[0].hardened
    && !raws[1].hardened && raws[1].index <= 1 && raws[1].exact
  }

  const MAX_SLIP10_DEPTH := 255

  predicate ValidateSlip10(raws: seq<RawLevel>) {
    raws != [] && |raws| <= MAX_SLIP10_DEPTH
  }

  predicate ValidateCip11(raws: seq<RawLevel>) {
    && |raws| == 5
    && ExpectPurpose(raws, 44) && ExpectCoin(raws, 118)
    && raws[2].hardened && !raws[3].hardened
  }

  predicate ValidateCip1852(raws: seq<RawLevel>) {
    && |raws| == 5
    && ExpectPurpose(raws, 1852) && ExpectCoin(raws, 1815)
    && raws[2].hardened && !raws[3].hardened
  }

  predicate ValidateZip32(raws: seq<RawLevel>) {
    && (|raws| == 3 || |raws| == 4)
    && ExpectPurpose(raws, 32) && ExpectCoin(raws, 133)
    && raws[2].hardened
  }

  predicate ValidateLevels(kind: DerivationType, raws: seq<RawLevel>) {
    match kind
    case Root => raws == []
    case Bip32 => ValidateBip32(raws)
    case Bip44 => ValidateBip44Family(raws, 44)
    case Bip49 => ValidateBip44Family(raws, 49)
    case Bip54 => ValidateBip44Family(raws, 54)
    case Bip74 => ValidateBip44Family(raws, 74)
    case Bip84 => ValidateBip44Family(raws, 84)
    case Bip86 => ValidateBip44Family(raws, 86)
    case Slip10 => ValidateSlip10(raws)
    case Cip11 => ValidateCip11(raws)
    case Cip1852 => ValidateCip1852(raws)
    case Zip32 => ValidateZip32(raws)
    case Unset => false
    case Other(_) => false
  }

  /** `validate_derivation_path`, the pre-flight check on a text. */
  method ValidateDerivationPath(kind: DerivationType, path: string) returns (r: bool)
    ensures r <==> InLanguage(kind, path)
  {
    LanguageIsValidated(kind, path);
    if !kind.IsValid() {
      return false;
    }
    if kind.Root? {
      return path == "";
    }
    var raws := ComputeParseLevels(path);
    if raws.None? {
      return false;
    }
    return ValidateLevels(kind, raws.value);
  }

  // ---- the grammar --------------------------------------------------------

  datatype Hardening = Hard | Soft | Either

  /** One place of a path template. */
  datatype Slot =
    | Literal(n: u32)       // the digits of n, hardened
    | Bit                   // 0 or 1, never hardened
    | Number(rule: Hardening)  // any digits, leading zeros included, of a value below 2^31

  function Bip44Slots(purpose: u32): seq<Slot> {
    [Literal(purpose), Number(Hard), Number(Hard), Bit, Number(Either)]
  }

  /** The template of a type for a given number of levels, if it has one. */
  function Template(kind: DerivationType, depth: nat): (slots: Option<seq<Slot>>)
    ensures slots.Some? ==> |slots.value| == depth > 0 && kind.IsValid() && !kind.Root?
  {
    match kind
    case Bip32 => AtDepth(depth, [Number(Hard), Bit, Number(Either)])
    case Bip44 => AtDepth(depth, Bip44Slots(44))
    case Bip49 => AtDepth(depth, Bip44Slots(49))
    case Bip54 => AtDepth(depth, Bip44Slots(54))
    case Bip74 => AtDepth(depth, Bip44Slots(74))
    case Bip84 => AtDepth(depth, Bip44Slots(84))
    case Bip86 => AtDepth(depth, Bip44Slots(86))
    case Slip10 => if 1 <= depth <= 255 then Some(seq(depth, _ => Number(Either))) else None
    case Cip11 => AtDepth(depth, [Literal(44), Literal(118), Number(Hard), Number(Soft), Number(Either)])
    case Cip1852 => AtDepth(depth, [Literal(1852), Literal(1815), Number(Hard), Number(Soft), Number(Either)])
    case Zip32 =>
      if depth == 3 then Some([Literal(32), Literal(133), Number(Hard)])
      else AtDepth(depth, [Literal(32), Literal(133), Number(Hard), Number(Either)])
    case _ => None
  }

  function AtDepth(depth: nat, slots: seq<Slot>): Option<seq<Slot>> {
    if |slots| == depth then Some(slots) else None
  }

  predicate Hardens(rule: Hardening, hardened: bool) {
    match rule
    case Hard => hardened
    case Soft => !hardened
    case Either => true
  }

  predicate Numeral(s: string) {
    s != "" && AllDigits(s, 10) && Value(s, 10) < LEVEL_LIMIT
  }

  /** The segment texts that a slot stands for. */
  predicate Spells(slot: Slot, seg: string) {
    match slot
    case Literal(n) => Marked(seg) && Unmarked(seg) == Decimal(n)
    case Bit => seg == "0" || seg == "1"
    case Number(rule) => Numeral(Unmarked(seg)) && Hardens(rule, Marked(seg))
  }

  predicate SpelledBy(slots: seq<Slot>, segs: seq<string>) {
    |slots| == |segs| && forall i :: 0 <= i < |segs| ==> Spells(slots[i], segs[i])
  }

  /** `path` is "m" followed by the segments of a template of `kind`. */
  ghost predicate SpellsPath(kind: DerivationType, path: string, segs: seq<string>) {
    && Template(kind, |segs|).Some?
    && SpelledBy(Template(kind, |segs|).value, segs)
    && path == "m/" + Join(segs, '/')
  }

  ghost predicate InLanguage(kind: DerivationType, path: string) {
    if kind.Root? then path == "" else exists segs :: SpellsPath(kind, path, segs)
  }

  // ---- slots and parsed segments -----------------------------------------

  predicate Fits(slot: Slot, raw: RawLevel) {
    match slot
    case Literal(n) => raw == RawLevel(n, true, true)
    case Bit => raw.index <= 1 && !raw.hardened && raw.exact
    case Number(rule) => Hardens(rule, raw.hardened)
  }

  predicate FitsAll(slots: seq<Slot>, raws: seq<RawLevel>) {
    |slots| == |raws| && forall i :: 0 <= i < |raws| ==> Fits(slots[i], raws[i])
  }

  lemma OneDigit(s: string)
    requires s == "0" || s == "1"
    ensures Numeral(s) && Value(s, 10) <= 1 && !Marked(s)
  {
    assert Value(s, 10) == Value(s[..0], 10) * 10 + DigitValue(s[0], 10);
  }

  lemma SmallNumeral(s: string)
    requires CanonicalNumeral(s) && Value(s, 10) <= 1
    ensures s == "0" || s == "1"
  {
    DecimalComplete(s);
    assert Digits(1) == Digits(0) + "1";
  }

  /** A slot spells a segment exactly when the parser reads a level that fits the slot. */
  lemma SpellsIffFits(slot: Slot, seg: string)
    requires slot.Literal? ==> slot.n < LEVEL_LIMIT
    ensures Spells(slot, seg) <==> ParseSegment(seg).Some? && Fits(slot, ParseSegment(seg).value)
  {
    var digits := Unmarked(seg);
    match slot {
      case Literal(n) =>
        DecimalSound(n);
        if ParseSegment(seg).Some? && Fits(slot, ParseSegment(seg).value) {
          DecimalComplete(digits);
        }
      case Bit =>
        if seg == "0" || seg == "1" {
          OneDigit(seg);
        }
        if ParseSegment(seg).Some? && Fits(slot, ParseSegment(seg).value) {
          SmallNumeral(digits);
        }
      case Number(_) =>
    }
  }

  /** A spelled segment has no separator in it and is not empty. */
  lemma SpelledSegment(slot: Slot, seg: string)
    requires Spells(slot, seg)
    ensures seg != "" && Free(seg, '/')
  {
    if slot.Literal? {
      DecimalSound(slot.n);
    }
    if !slot.Bit? {
      assert AllDigits(Unmarked(seg), 10);
      assert forall i :: 0 <= i < |Unmarked(seg)| ==> seg[i] == Unmarked(seg)[i];
    }
  }

  /** The hand-written validators accept exactly the levels that fit a template. */
  lemma ValidatorsFollowTemplates(kind: DerivationType, raws: seq<RawLevel>)
    requires kind.IsValid() && !kind.Root?
    ensures ValidateLevels(kind, raws) <==>
            Template(kind, |raws|).Some? && FitsAll(Template(kind, |raws|).value, raws)
  {
    var t := Template(kind, |raws|);
    if t.Some? && !kind.Slip10? {
      assert |raws| == 3 || |raws| == 4 || |raws| == 5;
      assert FitsAll(t.value, raws) <==>
             Fits(t.value[0], raws[0]) && Fits(t.value[1], raws[1]) && Fits(t.value[2], raws[2])
             && (|raws| >= 4 ==> Fits(t.value[3], raws[3])) && (|raws| >= 5 ==> Fits(t.value[4], raws[4]));
    }
  }

  lemma LiteralsAreSmall(kind: DerivationType, depth: nat)
    requires Template(kind, depth).Some?
    ensures SmallLiterals(Template(kind, depth).value)
  {
  }

  /** The parser and the validators of the source, on a whole text. */
  predicate Validated(kind: DerivationType, path: string) {
    && kind.IsValid()
    && if kind.Root? then path == ""
       else ParseLevels(path).Some? && ValidateLevels(kind, ParseLevels(path).value)
  }

  predicate SmallLiterals(slots: seq<Slot>) {
    forall i :: 0 <= i < |slots| && slots[i].Literal? ==> slots[i].n < LEVEL_LIMIT
  }

  lemma SegmentsFit(slots: seq<Slot>, segs: seq<string>)
    requires SpelledBy(slots, segs) && SmallLiterals(slots)
    ensures AllSegmentsParse(segs) && FitsAll(slots, ParseSegments(segs))
    ensures forall i :: 0 <= i < |segs| ==> segs[i] != "" && Free(segs[i], '/')
  {
    forall i | 0 <= i < |segs|
      ensures segs[i] != "" && Free(segs[i], '/')
      ensures ParseSegment(segs[i]).Some? && Fits(slots[i], ParseSegment(segs[i]).value)
    {
      SpelledSegment(slots[i], segs[i]);
      SpellsIffFits(slots[i], segs[i]);
    }
  }

  lemma JoinedPathSplits(segs: seq<string>)
    requires segs != []
    requires forall i :: 0 <= i < |segs| ==> segs[i] != "" && Free(segs[i], '/')
    ensures SplitPath("m/" + Join(segs, '/')) == Some(segs)
  {
    SplitJoin(segs, '/');
    JoinNonEmpty(segs, '/');
    assert ("m/" + Join(segs, '/'))[2..] == Join(segs, '/');
  }

  lemma SpelledIsValidated(kind: DerivationType, path: string, segs: seq<string>)
    requires !kind.Root? && SpellsPath(kind, path, segs)
    ensures Validated(kind, path)
  {
    var slots := Template(kind, |segs|).value;
    assert SmallLiterals(slots) by { LiteralsAreSmall(kind, |segs|); }
    SegmentsFit(slots, segs);
    var raws := ParseSegments(segs);
    assert ParseLevels(path) == Some(raws) by { JoinedPathSplits(segs); }
    assert ValidateLevels(kind, raws) by { ValidatorsFollowTemplates(kind, raws); }
  }

  lemma ValidatedIsSpelled(kind: DerivationType, path: string)
    requires !kind.Root? && Validated(kind, path)
    ensures exists segs :: SpellsPath(kind, path, segs)
  {
    var raws := ParseLevels(path).value;
    ValidatorsFollowTemplates(kind, raws);
    var segs := SplitPath(path).value;
    var slots := Template(kind, |raws|).value;
    assert |path| > 2;
    JoinSplit(path[2..], '/');
    assert path == "m/" + path[2..];
    LiteralsAreSmall(kind, |raws|);
    forall i | 0 <= i < |segs| ensures Spells(slots[i], segs[i]) {
      SpellsIffFits(slots[i], segs[i]);
    }
    assert SpellsPath(kind, path, segs);
  }

  /** The accepted texts are exactly those of the grammar. */
  lemma LanguageIsValidated(kind: DerivationType, path: string)
    ensures Validated(kind, path) <==> InLanguage(kind, path)
  {
    if !kind.Root? {
      if Validated(kind, path) {
        ValidatedIsSpelled(kind, path);
      }
      if InLanguage(kind, path) {
        var segs :| SpellsPath(kind, path, segs);
        SpelledIsValidated(kind, path, segs);
      }
    }
  }

  // ---- shapes of levels ---------------------------------------------------

  /** A level that a slot may hold, however it was spelled. */
  predicate Holds(slot: Slot, level: Level) {
    && level.index < LEVEL_LIMIT
    && match slot
       case Literal(n) => level == Level(n, true)
       case Bit => level.index <= 1 && !level.hardened
       case Number(rule) => Hardens(rule, level.hardened)
  }

  /** The levels form a path of the type. */
  predicate Shape(kind: DerivationType, levels: seq<Level>) {
    if kind.Root? then levels == []
    else
      Template(kind, |levels|).Some? && HoldsAll(Template(kind, |levels|).value, levels)
  }

  predicate HoldsAll(slots: seq<Slot>, levels: seq<Level>) {
    |slots| == |levels| && forall i :: 0 <= i < |levels| ==> Holds(slots[i], levels[i])
  }

  lemma ShapeIsBelow(kind: DerivationType, levels: seq<Level>)
    requires Shape(kind, levels)
    ensures Below(levels) && kind.IsValid()
  {
  }

  lemma HoldsEach(slots: seq<Slot>, levels: seq<Level>)
    requires |slots| == |levels| && 3 <= |levels| <= 5
    ensures HoldsAll(slots, levels) <==>
            Holds(slots[0], levels[0]) && Holds(slots[1], levels[1]) && Holds(slots[2], levels[2])
            && (|levels| >= 4 ==> Holds(slots[3], levels[3])) && (|levels| >= 5 ==> Holds(slots[4], levels[4]))
  {
  }

  // The shapes once more, as conditions on the levels.

  /** Five levels under the purpose and a hardened coin and account; the fourth is never hardened. */
  predicate FiveLevels(levels: seq<Level>, purpose: u32) {
    && |levels| == 5 && Below(levels)
    && levels[0] == Level(purpose, true)
    && levels[1].hardened && levels[2].hardened && !levels[3].hardened
  }

  lemma FiveShape(kind: DerivationType, purpose: u32, levels: seq<Level>)
    requires (kind, purpose) in
               [(Bip44, 44), (Bip49, 49), (Bip54, 54), (Bip74, 74), (Bip84, 84), (Bip86, 86)]
    ensures Shape(kind, levels) <==> FiveLevels(levels, purpose) && levels[3].index <= 1
  {
    if |levels| == 5 {
      HoldsEach(Bip44Slots(purpose), levels);
    }
  }

  lemma CosmosCardanoShapes(levels: seq<Level>)
    ensures Shape(Cip11, levels) <==> FiveLevels(levels, 44) && levels[1].index == 118
    ensures Shape(Cip1852, levels) <==> FiveLevels(levels, 1852) && levels[1].index == 1815
  {
    if |levels| == 5 {
      HoldsEach(Template(Cip11, 5).value, levels);
      HoldsEach(Template(Cip1852, 5).value, levels);
    }
  }

  lemma OtherShapes(levels: seq<Level>)
    ensures Shape(Root, levels) <==> levels == []
    ensures Shape(Bip32, levels) <==>
            |levels| == 3 && Below(levels) && levels[0].hardened && !levels[1].hardened && levels[1].index <= 1
    ensures Shape(Zip32, levels) <==>
            && 3 <= |levels| <= 4 && Below(levels)
            && levels[0] == Level(32, true) && levels[1] == Level(133, true) && levels[2].hardened
    ensures Shape(Slip10, levels) <==> 1 <= |levels| <= 255 && Below(levels)
  {
    if 3 <= |levels| <= 4 {
      HoldsEach(Template(Zip32, |levels|).value, levels);
    }
    if |levels| == 3 {
      HoldsEach(Template(Bip32, 3).value, levels);
    }
  }

  lemma FittingIsHeld(slots: seq<Slot>, raws: seq<RawLevel>)
    requires FitsAll(slots, raws) && Below(Plain(raws))
    ensures HoldsAll(slots, Plain(raws))
  {
    assert forall i :: 0 <= i < |raws| ==> Fits(slots[i], raws[i]) && Plain(raws)[i] == raws[i].Plain();
  }

  lemma ParsedBelow(path: string)
    requires ParseLevels(path).Some?
    ensures Below(Plain(ParseLevels(path).value))
  {
    var segs, raws := SplitPath(path).value, ParseLevels(path).value;
    forall i | 0 <= i < |raws| ensures raws[i].index < LEVEL_LIMIT {
      assert ParseSegment(segs[i]) == Some(raws[i]);
    }
  }

  /** What validates has the shape of its type. */
  lemma ValidatedShape(kind: DerivationType, path: string)
    requires Validated(kind, path) && !kind.Root?
    ensures Shape(kind, Plain(ParseLevels(path).value))
  {
    var raws := ParseLevels(path).value;
    ParsedBelow(path);
    assert Template(kind, |raws|).Some? && FitsAll(Template(kind, |raws|).value, raws) by {
      ValidatorsFollowTemplates(kind, raws);
    }
    FittingIsHeld(Template(kind, |raws|).value, raws);
  }

  lemma FitsIffHolds(slots: seq<Slot>, levels: seq<Level>)
    requires SmallLiterals(slots) && |slots| == |levels| && Below(levels)
    ensures FitsAll(slots, Exact(levels)) <==> HoldsAll(slots, levels)
  {
    assert forall i :: 0 <= i < |levels| ==> (Fits(slots[i], Exact(levels)[i]) <==> Holds(slots[i], levels[i]));
  }

  /** Levels print to a valid text exactly when they have the shape, and are read back unchanged. */
  lemma PrintedValidates(kind: DerivationType, levels: seq<Level>)
    requires kind.IsValid() && !kind.Root? && levels != []
    ensures Validated(kind, FormatLevels(levels)) <==> Shape(kind, levels)
    ensures Shape(kind, levels) ==> Plain(ParseLevels(FormatLevels(levels)).value) == levels
  {
    ParseFormatted(levels);
    PlainExact(levels);
    ValidatorsFollowTemplates(kind, Exact(levels));
    if Template(kind, |levels|).Some? && Below(levels) {
      LiteralsAreSmall(kind, |levels|);
      FitsIffHolds(Template(kind, |levels|).value, levels);
    }
  }
}
