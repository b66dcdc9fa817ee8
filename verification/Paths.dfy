/**
 * The state of a derivation path as a value, and the specification of every
 * operation on it. `PathOf` is the one account of how shortcuts follow from
 * levels; the field extraction, the shortcut population, the level rebuild and
 * the printing template of src/derivation_path.cpp are all proved to agree with it.
 */
module Paths {
  import opened Errors
  import opened Levels
  import opened Names
  import opened Numbers
  import opened PathShapes
  import opened Wrappers

  datatype Path = Path(
    kind: DerivationType, coin: u32, account: u32, charge: u32, index: Level, hasIndex: bool, levels: seq<Level>)

  const NO_INDEX := Level(0, false)

  function Empty(kind: DerivationType): Path {
    Path(kind, 0, 0, 0, NO_INDEX, false, [])
  }

  /** The types with five levels: purpose, coin, account, charge and index. */
  predicate FiveLevelled(kind: DerivationType) {
    || kind.Bip44? || kind.Bip49? || kind.Bip54? || kind.Bip74? || kind.Bip84? || kind.Bip86?
    || kind.Cip11? || kind.Cip1852?
  }

  /** The path of a type with the given levels: each shortcut is the level at its place. */
  function PathOf(kind: DerivationType, levels: seq<Level>): Path {
    if kind.Bip32? && |levels| == 3 then
      Path(kind, 0, levels[0].index, levels[1].index, levels[2], true, levels)
    else if FiveLevelled(kind) && |levels| == 5 then
      Path(kind, levels[1].index, levels[2].index, levels[3].index, levels[4], true, levels)
    else if kind.Zip32? && |levels| == 3 then
      Path(kind, levels[1].index, levels[2].index, 0, NO_INDEX, false, levels)
    else if kind.Zip32? && |levels| == 4 then
      Path(kind, levels[1].index, levels[2].index, 0, levels[3], true, levels)
    else
      Path(kind, 0, 0, 0, NO_INDEX, kind.Slip10? && levels != [], levels)
  }

  /** The class invariant: either no levels and no shortcuts, or levels of the type's shape with their shortcuts. */
  predicate Coherent(p: Path) {
    && p == PathOf(p.kind, p.levels)
    && (p.kind.Unset? || p.kind.IsValid())
    && (p.levels != [] ==> Shape(p.kind, p.levels))
  }

  /** The shortcuts of a coherent path are the levels at these places. */
  lemma ShortcutsAreLevels(p: Path)
    requires Coherent(p) && p.levels != []
    ensures FiveLevelled(p.kind) ==>
              |p.levels| == 5 && p == Path(
                p.kind, p.levels[1].index, p.levels[2].index, p.levels[3].index, p.levels[4], true, p.levels)
    ensures p.kind.Bip32? ==>
              |p.levels| == 3 && p == Path(p.kind, 0, p.levels[0].index, p.levels[1].index, p.levels[2], true, p.levels)
    ensures p.kind.Zip32? ==>
              3 <= |p.levels| <= 4 && p == Path(
                p.kind, 133, p.levels[2].index, 0,
                if |p.levels| == 4 then p.levels[3] else Level(0, false), |p.levels| == 4, p.levels)
    ensures p.kind.Slip10? ==> p == Path(p.kind, 0, 0, 0, Level(0, false), true, p.levels)
  {
    if p.kind.Zip32? {
      OtherShapes(p.levels);
    }
  }

  // ---- the printing template ----------------------------------------------

  /** `fixed_prefix`: the purpose and coin that a type prints. */
  function FixedPrefix(p: Path): Option<(u32, u32)> {
    match p.kind
    case Bip44 => Some((44, p.coin))
    case Bip49 => Some((49, p.coin))
    case Bip54 => Some((54, p.coin))
    case Bip74 => Some((74, p.coin))
    case Bip84 => Some((84, p.coin))
    case Bip86 => Some((86, p.coin))
    case Cip11 => Some((44, 118))
    case Cip1852 => Some((1852, 1815))
    case Zip32 => Some((32, 133))
    case _ => None
  }

  /** The levels that the shortcuts stand for: what `rebuild_levels` stores and `str` prints. */
  function TemplateLevels(p: Path): seq<Level> {
    match FixedPrefix(p)
    case Some((purpose, coin)) =>
      [Level(purpose, true), Level(coin, true), Level(p.account, true)]
      + (if p.kind.Zip32? then (if p.hasIndex then [p.index] else [])
         else [Level(p.charge, false), p.index])
    case None =>
      if p.kind.Bip32? then [Level(p.account, true), Level(p.charge, false), p.index]
      else if p.kind.Root? then []
      else p.levels
  }

  /** `str`. */
  function PathText(p: Path): string {
    if p.levels == [] || p.kind.Root? || !p.kind.IsValid() then "" else FormatLevels(TemplateLevels(p))
  }

  lemma TemplateOfShape(kind: DerivationType, levels: seq<Level>)
    requires Shape(kind, levels) && levels != []
    ensures TemplateLevels(PathOf(kind, levels)) == levels
  {
    var slots := Template(kind, |levels|).value;
    assert HoldsAll(slots, levels);
    if !kind.Slip10? {
      assert Holds(slots[0], levels[0]) && Holds(slots[1], levels[1]) && Holds(slots[2], levels[2]);
      assert |slots| == 5 ==> Holds(slots[3], levels[3]);
    }
  }

  /** On every coherent path the template, the levels and the text say the same. */
  lemma TemplateAgrees(p: Path)
    requires Coherent(p)
    ensures p.levels != [] ==> TemplateLevels(p) == p.levels && PathText(p) == FormatLevels(p.levels) && Below(p.levels)
    ensures p.levels == [] ==> PathText(p) == "" && p == Empty(p.kind)
    ensures p.kind.Slip10? ==> p.coin == p.account == p.charge == 0 && p.index == NO_INDEX
  {
    if p.levels != [] {
      ShapeIsBelow(p.kind, p.levels);
      TemplateOfShape(p.kind, p.levels);
    }
  }

  // ---- parsing ------------------------------------------------------------

  function ReadLevels(kind: DerivationType, text: string): Option<seq<Level>> {
    if !Validated(kind, text) then None
    else Some(if kind.Root? then [] else Plain(ParseLevels(text).value))
  }

  function ParsePath(kind: DerivationType, text: string): Result<Path> {
    if !kind.IsValid() then Err(InvalidDerivationType)
    else match ReadLevels(kind, text)
         case None => Err(InvalidDerivationPath)
         case Some(levels) => Ok(PathOf(kind, levels))
  }

  lemma ParsedIsCoherent(kind: DerivationType, text: string)
    ensures match ParsePath(kind, text)
            case Ok(p) => Coherent(p) && p.kind == kind && (p.levels == [] <==> kind.Root?)
            case Err(_) => true
  {
    if !kind.Root? && Validated(kind, text) {
      ValidatedShape(kind, text);
    }
  }

  /** `parse` accepts exactly the grammar. */
  lemma ParseAcceptsLanguage(kind: DerivationType, text: string)
    requires kind.IsValid()
    ensures ParsePath(kind, text).Ok? <==> InLanguage(kind, text)
    ensures ParsePath(kind, text).Err? ==> ParsePath(kind, text) == Err(InvalidDerivationPath)
  {
    LanguageIsValidated(kind, text);
  }

  /** What parsing the printed form of any state gives back: the template's levels, if they form a path. */
  lemma PrintedParses(p: Path)
    requires p.kind.IsValid() && !p.kind.Root?
    ensures ParsePath(p.kind, PathText(p)) ==
            if p.levels != [] && Shape(p.kind, TemplateLevels(p))
            then Ok(PathOf(p.kind, TemplateLevels(p)))
            else Err(InvalidDerivationPath)
  {
    if p.levels == [] {
      assert ParseLevels("").None?;
    } else {
      PrintedValidates(p.kind, TemplateLevels(p));
    }
  }

  /** A path with levels is exactly what the parser gives back for its own text. */
  lemma RoundTrip(p: Path)
    requires Coherent(p) && p.kind.IsValid()
    ensures p.levels != [] || p.kind.Root? ==> ParsePath(p.kind, PathText(p)) == Ok(p)
    ensures p.levels == [] && !p.kind.Root? ==> ParsePath(p.kind, PathText(p)) == Err(InvalidDerivationPath)
  {
    TemplateAgrees(p);
    if !p.kind.Root? {
      PrintedParses(p);
    }
  }

  /** The printed path is a fixpoint of parsing, whatever spelling was parsed first. */
  lemma ParseIsFixpoint(kind: DerivationType, text: string)
    ensures match ParsePath(kind, text)
            case Ok(p) => ParsePath(kind, PathText(p)) == Ok(p)
                          && (!kind.Root? ==> ParseLevels(PathText(p)) == Some(Exact(p.levels)))
            case Err(_) => true
  {
    if ParsePath(kind, text).Ok? {
      ParsedIsCoherent(kind, text);
      PrintedFixpoint(ParsePath(kind, text).value);
    }
  }

  lemma PrintedFixpoint(p: Path)
    requires Coherent(p) && p.kind.IsValid() && (p.levels != [] || p.kind.Root?)
    ensures ParsePath(p.kind, PathText(p)) == Ok(p)
    ensures !p.kind.Root? ==> ParseLevels(PathText(p)) == Some(Exact(p.levels))
  {
    RoundTrip(p);
    TemplateAgrees(p);
    if !p.kind.Root? {
      ParseFormatted(p.levels);
    }
  }

  // ---- the constructors ---------------------------------------------------

  /** `reparsed`: the path parsed back from `p`, refused unless it has the given levels. */
  function Reparsed(p: Path, levels: seq<Level>): Result<Path> {
    match ParsePath(p.kind, PathText(p))
    case Ok(out) => if out.levels == levels then Ok(out) else Err(InvalidDerivationPath)
    case Err(e) => Err(e)
  }

  /** `from_levels`: exactly the levels that form a path of the type. */
  function FromLevels(kind: DerivationType, levels: seq<Level>): Result<Path> {
    if !kind.IsValid() then Err(InvalidDerivationType)
    else if Shape(kind, levels) then Ok(PathOf(kind, levels))
    else Err(InvalidDerivationPath)
  }

  /** `populate_shortcuts_from_levels` on a fresh path: the shortcuts of however many levels there are. */
  function Populate(kind: DerivationType, levels: seq<Level>): Path {
    var p := Empty(kind).(levels := levels);
    if kind.Bip32? then
      if |levels| >= 3 then PathOf(kind, levels[..3]).(levels := levels) else p
    else if FiveLevelled(kind) then
      if |levels| >= 5 then PathOf(kind, levels[..5]).(levels := levels) else p
    else if kind.Zip32? then
      if |levels| >= 4 then PathOf(kind, levels[..4]).(levels := levels)
      else if |levels| == 3 then PathOf(kind, levels) else p
    else p.(hasIndex := kind.Slip10? && levels != [])
  }

  lemma PopulateShaped(kind: DerivationType, levels: seq<Level>)
    requires Shape(kind, levels) && !kind.Root?
    ensures Populate(kind, levels) == PathOf(kind, levels) && Coherent(PathOf(kind, levels))
  {
    ShapeIsBelow(kind, levels);
    assert levels[..|levels|] == levels;
  }

  /** Populating, printing and parsing back accepts the levels of a path and nothing else. */
  lemma FromLevelsIsReparsed(kind: DerivationType, levels: seq<Level>)
    requires kind.IsValid()
    ensures Reparsed(Populate(kind, levels), levels) == FromLevels(kind, levels)
  {
    if !kind.Root? {
      var p := Populate(kind, levels);
      assert p.kind == kind && p.levels == levels;
      PrintedParses(p);
      if Shape(kind, levels) {
        assert levels != [] && TemplateLevels(p) == levels && p == PathOf(kind, levels) by {
          PopulateShaped(kind, levels);
          TemplateAgrees(p);
        }
      } else {
        assert forall l :: PathOf(kind, l).levels == l;
      }
    }
  }

  /** The fields of a path before its levels are rebuilt, as the five-field constructor stores them. */
  function Fields(kind: DerivationType, coin: u32, account: u32, charge: u32, index: Level): Path {
    Path(kind, coin, account, charge, index, !kind.Root?, [])
  }

  /** The five-field constructor. */
  function MakePath(kind: DerivationType, coin: u32, account: u32, charge: u32, index: Level): Result<Path> {
    if !kind.IsValid() then Err(InvalidDerivationType)
    else if kind.Slip10? then Err(InvalidArgument)
    else FromLevels(kind, TemplateLevels(Fields(kind, coin, account, charge, index)))
  }

  lemma MakePathIsReparsed(kind: DerivationType, coin: u32, account: u32, charge: u32, index: Level)
    requires kind.IsValid() && !kind.Slip10?
    ensures var p := Fields(kind, coin, account, charge, index);
            Reparsed(p.(levels := TemplateLevels(p)), TemplateLevels(p)) == MakePath(kind, coin, account, charge, index)
  {
    var p := Fields(kind, coin, account, charge, index);
    var q := p.(levels := TemplateLevels(p));
    assert TemplateLevels(q) == TemplateLevels(p);
    if !kind.Root? {
      PrintedParses(q);
    }
  }

  predicate UsesCoin(kind: DerivationType) {
    FiveLevelled(kind) && !kind.Cip11? && !kind.Cip1852?
  }

  /** The fields that the type uses are in range. */
  predicate InRange(kind: DerivationType, coin: u32, account: u32, charge: u32, index: Level) {
    kind.Root? || (
      && account < LEVEL_LIMIT && index.index < LEVEL_LIMIT
      && (UsesCoin(kind) ==> coin < LEVEL_LIMIT)
      && (UsesCoin(kind) || kind.Bip32? ==> charge <= 1)
      && (kind.Cip11? || kind.Cip1852? ==> charge < LEVEL_LIMIT))
  }

  lemma TemplateShape(kind: DerivationType, coin: u32, account: u32, charge: u32, index: Level)
    requires kind.IsValid() && !kind.Slip10?
    ensures Shape(kind, TemplateLevels(Fields(kind, coin, account, charge, index)))
            <==> InRange(kind, coin, account, charge, index)
  {
    if !kind.Root? {
      var levels := TemplateLevels(Fields(kind, coin, account, charge, index));
      HoldsEach(Template(kind, |levels|).value, levels);
    }
  }

  lemma MadePathParses(kind: DerivationType, coin: u32, account: u32, charge: u32, index: Level)
    requires MakePath(kind, coin, account, charge, index).Ok?
    ensures var r := MakePath(kind, coin, account, charge, index);
            Coherent(r.value) && ParsePath(kind, PathText(r.value)) == r
  {
    FromLevelsCoherent(kind, TemplateLevels(Fields(kind, coin, account, charge, index)));
    RoundTrip(MakePath(kind, coin, account, charge, index).value);
  }

  lemma MadePathKeeps(kind: DerivationType, coin: u32, account: u32, charge: u32, index: Level)
    requires MakePath(kind, coin, account, charge, index).Ok? && !kind.Root?
    ensures var p := MakePath(kind, coin, account, charge, index).value;
            && p.account == account && p.index == index && p.hasIndex
            && (UsesCoin(kind) ==> p.coin == coin)
            && (!kind.Zip32? ==> p.charge == charge)
  {
  }

  /** The constructor succeeds exactly in range, keeps the used fields, and its path parses back from its text. */
  lemma MakePathCharacterised(kind: DerivationType, coin: u32, account: u32, charge: u32, index: Level)
    requires kind.IsValid() && !kind.Slip10?
    ensures var r := MakePath(kind, coin, account, charge, index);
            && (r.Ok? <==> InRange(kind, coin, account, charge, index))
            && (r.Ok? ==> Coherent(r.value) && ParsePath(kind, PathText(r.value)) == r)
            && (r.Ok? && !kind.Root? ==>
                  && r.value.account == account && r.value.index == index && r.value.hasIndex
                  && (UsesCoin(kind) ==> r.value.coin == coin)
                  && (!kind.Zip32? ==> r.value.charge == charge))
  {
    TemplateShape(kind, coin, account, charge, index);
    if InRange(kind, coin, account, charge, index) {
      MadePathParses(kind, coin, account, charge, index);
      if !kind.Root? {
        MadePathKeeps(kind, coin, account, charge, index);
      }
    }
  }

  /** The two argument lists agree on the fields that the type uses. */
  predicate SameUsedFields(
    kind: DerivationType,
    coin: u32, account: u32, charge: u32, index: Level,
    coin': u32, account': u32, charge': u32, index': Level)
  {
    && (UsesCoin(kind) ==> coin == coin')
    && (!kind.Root? ==> account == account' && index == index')
    && (!kind.Root? && !kind.Zip32? ==> charge == charge')
  }

  /** A field that the type does not use has no influence. */
  lemma MakePathIgnores(
    kind: DerivationType,
    coin: u32, account: u32, charge: u32, index: Level,
    coin': u32, account': u32, charge': u32, index': Level)
    requires SameUsedFields(kind, coin, account, charge, index, coin', account', charge', index')
    ensures MakePath(kind, coin, account, charge, index) == MakePath(kind, coin', account', charge', index')
  {
    if kind.IsValid() && !kind.Slip10? {
      SameTemplate(kind, coin, account, charge, index, coin', account', charge', index');
    }
  }

  lemma SameTemplate(
    kind: DerivationType,
    coin: u32, account: u32, charge: u32, index: Level,
    coin': u32, account': u32, charge': u32, index': Level)
    requires kind.IsValid() && !kind.Slip10?
    requires SameUsedFields(kind, coin, account, charge, index, coin', account', charge', index')
    ensures TemplateLevels(Fields(kind, coin, account, charge, index))
            == TemplateLevels(Fields(kind, coin', account', charge', index'))
  {
  }

  /** What the constructors, the parser and the type setter answer, with the code of each refusal. */
  lemma PathAnswers(kind: DerivationType, levels: seq<Level>, text: string, p: Path)
    ensures FromLevels(kind, levels) ==
            if !kind.IsValid() then Err(InvalidDerivationType)
            else if Shape(kind, levels) then Ok(PathOf(kind, levels)) else Err(InvalidDerivationPath)
    ensures ParsePath(kind, text).Err? ==>
              ParsePath(kind, text) == Err(if kind.IsValid() then InvalidDerivationPath else InvalidDerivationType)
    ensures SetType(p, kind) ==
            if !kind.IsValid() then Err(InvalidDerivationType)
            else if kind == p.kind then Ok(p) else Ok(Path(kind, 0, 0, 0, Level(0, false), false, []))
  {
  }

  lemma MakePathAnswers(kind: DerivationType, coin: u32, account: u32, charge: u32, index: Level)
    ensures var r := MakePath(kind, coin, account, charge, index);
            && (!kind.IsValid() ==> r == Err(InvalidDerivationType))
            && (kind.Slip10? ==> r == Err(InvalidArgument))
            && (kind.IsValid() && !kind.Slip10? && !InRange(kind, coin, account, charge, index) ==>
                  r == Err(InvalidDerivationPath))
  {
    if kind.IsValid() && !kind.Slip10? {
      TemplateShape(kind, coin, account, charge, index);
    }
  }

  /** Whichever of ' h H mark the hardened levels, the path is the same. */
  lemma PathIgnoresMarkers(kind: DerivationType, s: string, t: string)
    requires SameButMarkers(s, t)
    ensures ParsePath(kind, s) == ParsePath(kind, t)
  {
    LevelsIgnoreMarkers(s, t);
  }

  // ---- runs ---------------------------------------------------------------

  /** What a caller can do with a path: replace it by a constructed one, or change it in place. */
  datatype PathOp =
    | PathDefault
    | PathMake(kind: DerivationType, coin: u32, account: u32, charge: u32, index: Level)
    | PathFromLevels(kind: DerivationType, levels: seq<Level>)
    | PathParse(kind: DerivationType, text: string)
    | PathSetType(kind: DerivationType)
    | PathParsePath(text: string)

  function SetType(p: Path, kind: DerivationType): Result<Path> {
    if !kind.IsValid() then Err(InvalidDerivationType)
    else Ok(if kind == p.kind then p else Empty(kind))
  }

  function ApplyPath(p: Path, op: PathOp): (Path, Option<ErrorCode>) {
    match op
    case PathDefault => (Empty(DerivationType.Unset), None)
    case PathMake(kind, coin, account, charge, index) => Keep(p, MakePath(kind, coin, account, charge, index))
    case PathFromLevels(kind, levels) => Keep(p, FromLevels(kind, levels))
    case PathParse(kind, text) => Keep(p, ParsePath(kind, text))
    case PathSetType(kind) => Keep(p, SetType(p, kind))
    case PathParsePath(text) => Keep(p, ParsePath(p.kind, text))
  }

  function RunPath(ops: seq<PathOp>): Path {
    if ops == [] then Empty(DerivationType.Unset) else ApplyPath(RunPath(ops[..|ops| - 1]), ops[|ops| - 1]).0
  }

  lemma FromLevelsCoherent(kind: DerivationType, levels: seq<Level>)
    requires FromLevels(kind, levels).Ok?
    ensures Coherent(FromLevels(kind, levels).value)
  {
  }

  lemma ApplyPathCoherent(p: Path, op: PathOp)
    requires Coherent(p)
    ensures Coherent(ApplyPath(p, op).0)
    ensures ApplyPath(p, op).1.Some? ==> ApplyPath(p, op).0 == p
  {
    match op {
      case PathMake(kind, coin, account, charge, index) =>
        if MakePath(kind, coin, account, charge, index).Ok? {
          FromLevelsCoherent(kind, TemplateLevels(Fields(kind, coin, account, charge, index)));
        }
      case PathParse(kind, text) =>
        if ParsePath(kind, text).Ok? {
          ParsedIsCoherent(kind, text);
        }
      case PathParsePath(text) =>
        if ParsePath(p.kind, text).Ok? {
          ParsedIsCoherent(p.kind, text);
        }
      case _ =>
    }
  }

  /** Every reachable path is coherent, so its text, levels and shortcuts describe one path. */
  lemma {:induction false} ReachablePaths(ops: seq<PathOp>)
    ensures Coherent(RunPath(ops))
  {
    if ops != [] {
      ReachablePaths(ops[..|ops| - 1]);
      ApplyPathCoherent(RunPath(ops[..|ops| - 1]), ops[|ops| - 1]);
    }
  }

  lemma RunPathOne(op: PathOp)
    ensures RunPath([op]) == ApplyPath(Empty(DerivationType.Unset), op).0
  {
    assert [op][..0] == [] && RunPath([op][..0]) == Empty(DerivationType.Unset);
  }

  lemma CoherentIsReached(p: Path)
    requires Coherent(p)
    ensures exists ops :: RunPath(ops) == p
  {
    if p.levels != [] {
      var op := PathFromLevels(p.kind, p.levels);
      RunPathOne(op);
      assert RunPath([op]) == p;
    } else if p.kind.Unset? {
      assert RunPath([]) == p;
    } else {
      var op := PathSetType(p.kind);
      RunPathOne(op);
      assert RunPath([op]) == p;
    }
  }

  /** The invariant is exact: the coherent paths are those that some run reaches. */
  lemma ReachableExactly(p: Path)
    ensures Coherent(p) <==> exists ops :: RunPath(ops) == p
  {
    if Coherent(p) {
      CoherentIsReached(p);
    }
    if ops :| RunPath(ops) == p {
      ReachablePaths(ops);
    }
  }

  /** The class invariant, read out: text, levels and shortcuts of every reachable path. */
  lemma ReachablePathsAgree(ops: seq<PathOp>)
    ensures var p := RunPath(ops);
            && p == PathOf(p.kind, p.levels)
            && (p.levels != [] ==>
                  PathText(p) == FormatLevels(p.levels) && Below(p.levels) && ParsePath(p.kind, PathText(p)) == Ok(p))
            && (p.levels == [] ==> PathText(p) == "" && p == Empty(p.kind))
            && (p.kind.Slip10? ==> p.coin == p.account == p.charge == 0 && p.index == NO_INDEX)
  {
    ReachablePaths(ops);
    TemplateAgrees(RunPath(ops));
    if RunPath(ops).kind.IsValid() {
      RoundTrip(RunPath(ops));
    }
  }
}
