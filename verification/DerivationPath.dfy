/**
 * The class `derivation_path` (src/derivation_path.cpp:175-507): its fields and
 * the methods that change them, each proved against the specification in `Paths`.
 */
module DerivationPaths {
  import opened Errors
  import opened Levels
  import opened Names
  import opened Numbers
  import opened PathShapes
  import opened Wrappers
  import Paths

  class DerivationPath {
    var kind: DerivationType
    var coin: u32
    var account: u32
    var charge: u32
    var index: Level
    var hasIndex: bool
    var levels: seq<Level>

    /** The state as a value. */
    function View(): Paths.Path
      reads this
    {
      Paths.Path(kind, coin, account, charge, index, hasIndex, levels)
    }

    /** What holds between calls; the private steps below also run on half-built paths. */
    ghost predicate Valid()
      reads this
    {
      Paths.Coherent(View())
    }

    constructor ()
      ensures Valid() && View() == Paths.Empty(DerivationType.Unset)
    {
      kind, coin, account, charge := DerivationType.Unset, 0, 0, 0;
      index, hasIndex, levels := Paths.NO_INDEX, false, [];
    }

    /** `*this = other`. */
    method Assign(other: DerivationPath)
      modifies this
      ensures View() == old(other.View())
    {
      kind, coin, account, charge := other.kind, other.coin, other.account, other.charge;
      index, hasIndex, levels := other.index, other.hasIndex, other.levels;
    }

    // ---- construction -----------------------------------------------------

    static method Create(kind: DerivationType, coin: u32, account: u32, charge: u32, index: Level)
      returns (dp: DerivationPath?, err: Option<ErrorCode>)
      ensures match Paths.MakePath(kind, coin, account, charge, index)
              case Ok(p) => err == None && dp != null && fresh(dp) && dp.Valid() && dp.View() == p
              case Err(e) => err == Some(e) && dp == null
    {
      if !kind.IsValid() {
        return null, Some(InvalidDerivationType);
      }
      if kind.Slip10? {
        return null, Some(InvalidArgument);
      }
      var raw := new DerivationPath();
      raw.kind, raw.coin, raw.account, raw.charge, raw.index := kind, coin, account, charge, index;
      raw.hasIndex := !kind.Root?;
      raw.RebuildLevels();
      Paths.MakePathIsReparsed(kind, coin, account, charge, index);
      dp, err := Reparsed(raw, raw.levels);
    }

    static method FromLevels(kind: DerivationType, levels: seq<Level>)
      returns (dp: DerivationPath?, err: Option<ErrorCode>)
      ensures match Paths.FromLevels(kind, levels)
              case Ok(p) => err == None && dp != null && fresh(dp) && dp.Valid() && dp.View() == p
              case Err(e) => err == Some(e) && dp == null
    {
      if !kind.IsValid() {
        return null, Some(InvalidDerivationType);
      }
      var raw := new DerivationPath();
      raw.kind := kind;
      raw.levels := levels;
      raw.PopulateShortcuts();
      Paths.FromLevelsIsReparsed(kind, levels);
      dp, err := Reparsed(raw, raw.levels);
    }

    static method Parse(kind: DerivationType, text: string) returns (dp: DerivationPath?, err: Option<ErrorCode>)
      ensures match Paths.ParsePath(kind, text)
              case Ok(p) => err == None && dp != null && fresh(dp) && dp.Valid() && dp.View() == p
              case Err(e) => err == Some(e) && dp == null
    {
      if !kind.IsValid() {
        return null, Some(InvalidDerivationType);
      }
      var raw := new DerivationPath();
      raw.kind := kind;
      err := raw.ParsePath(text);
      dp := if err.None? then raw else null;
    }

    static method Reparsed(raw: DerivationPath, levels: seq<Level>)
      returns (dp: DerivationPath?, err: Option<ErrorCode>)
      ensures match Paths.Reparsed(raw.View(), levels)
              case Ok(p) => err == None && dp != null && fresh(dp) && dp.Valid() && dp.View() == p
              case Err(e) => err == Some(e) && dp == null
    {
      var text := raw.Str();
      dp, err := Parse(raw.kind, text);
      if dp != null && dp.levels != levels {
        return null, Some(InvalidDerivationPath);
      }
    }

    // ---- changes in place -------------------------------------------------

    method SetType(to: DerivationType) returns (err: Option<ErrorCode>)
      requires Valid()
      modifies this
      ensures Valid() && (View(), err) == Keep(old(View()), Paths.SetType(old(View()), to))
    {
      if !to.IsValid() {
        return Some(InvalidDerivationType);
      }
      if to == kind {
        return None;
      }
      var empty := new DerivationPath();
      empty.kind := to;
      Assign(empty);
      return None;
    }

    /** Parses into a fresh path and replaces this one only on success. */
    method ParsePath(text: string) returns (err: Option<ErrorCode>)
      modifies this
      ensures (View(), err) == Keep(old(View()), Paths.ParsePath(old(kind), text))
      ensures err.None? || old(Valid()) ==> Valid()
    {
      var empty := new DerivationPath();
      empty.kind := kind;
      err := empty.ParseFresh(text);
      if err.None? {
        Paths.ParsedIsCoherent(kind, text);
        Assign(empty);
      }
    }

    /** The field extraction of each type, on a path with nothing but its type. */
    method ParseFresh(text: string) returns (err: Option<ErrorCode>)
      requires View() == Paths.Empty(kind)
      modifies this
      ensures match Paths.ParsePath(old(kind), text)
              case Ok(p) => err == None && View() == p
              case Err(e) => err == Some(e) && View() == old(View())
    {
      if !kind.IsValid() {
        return Some(InvalidDerivationType);
      }
      if kind.Root? {
        if text != "" {
          return Some(InvalidDerivationPath);
        }
        levels, hasIndex := [], false;
        return None;
      }
      var parsed := ComputeParseLevels(text);
      if parsed.None? || !ValidateLevels(kind, parsed.value) {
        return Some(InvalidDerivationPath);
      }
      var raws := parsed.value;
      ExtractFields(raws);
      if !kind.Slip10? {
        RebuildLevels();
      }
      ExtractionAgrees(kind, raws);
      return None;
    }

    /** The if-chain of `parse_fresh`; its final branch cannot be reached. */
    method ExtractFields(raws: seq<RawLevel>)
      requires View() == Paths.Empty(kind) && !kind.Root? && ValidateLevels(kind, raws)
      modifies this
      ensures View() == Extracted(old(kind), raws)
    {
      if kind.Bip32? {
        account, charge := raws[0].index, raws[1].index;
        index, hasIndex := Level(raws[2].index, raws[2].hardened), true;
      } else if kind.Bip44? || kind.Bip49? || kind.Bip54? || kind.Bip74? || kind.Bip84? || kind.Bip86? {
        coin, account, charge := raws[1].index, raws[2].index, raws[3].index;
        index, hasIndex := Level(raws[4].index, raws[4].hardened), true;
      } else if kind.Cip11? {
        coin, account, charge := 118, raws[2].index, raws[3].index;
        index, hasIndex := Level(raws[4].index, raws[4].hardened), true;
      } else if kind.Cip1852? {
        coin, account, charge := 1815, raws[2].index, raws[3].index;
        index, hasIndex := Level(raws[4].index, raws[4].hardened), true;
      } else if kind.Slip10? {
        levels := [];
        for i := 0 to |raws|
          invariant View() == Paths.Empty(kind).(levels := levels) && kind == old(kind)
          invariant levels == Plain(raws[..i])
        {
          levels := levels + [Level(raws[i].index, raws[i].hardened)];
        }
        assert raws[..|raws|] == raws;
        hasIndex := levels != [];
      } else if kind.Zip32? {
        coin, account := 133, raws[2].index;
        if |raws| == 4 {
          index, hasIndex := Level(raws[3].index, raws[3].hardened), true;
        } else {
          index, hasIndex := Paths.NO_INDEX, false;
        }
      } else {
        assert false;
      }
    }

    method PopulateShortcuts()
      requires View() == Paths.Empty(kind).(levels := levels)
      modifies this
      ensures View() == Paths.Populate(old(kind), old(levels))
    {
      if kind.Bip32? {
        if |levels| >= 3 {
          account, charge, index, hasIndex := levels[0].index, levels[1].index, levels[2], true;
        }
      } else if kind.Bip44? || kind.Bip49? || kind.Bip54? || kind.Bip74? || kind.Bip84? || kind.Bip86?
                || kind.Cip11? || kind.Cip1852? {
        if |levels| >= 5 {
          coin, account, charge := levels[1].index, levels[2].index, levels[3].index;
          index, hasIndex := levels[4], true;
        }
      } else if kind.Zip32? {
        if |levels| >= 3 {
          coin, account := levels[1].index, levels[2].index;
        }
        if |levels| >= 4 {
          index, hasIndex := levels[3], true;
        }
      } else if kind.Slip10? {
        hasIndex := levels != [];
      }
    }

    method RebuildLevels()
      modifies this`levels
      ensures levels == Paths.TemplateLevels(old(View()))
    {
      if kind.Root? {
        levels := [];
        return;
      }
      if kind.Slip10? {
        return;
      }
      if kind.Bip32? {
        levels := [];
        levels := levels + [Level(account, true)];
        levels := levels + [Level(charge, false)];
        levels := levels + [index];
        return;
      }
      var prefix := Paths.FixedPrefix(View());
      if prefix.None? {
        return;
      }
      var (purpose, prefixCoin) := prefix.value;
      levels := [];
      levels := levels + [Level(purpose, true)];
      levels := levels + [Level(prefixCoin, true)];
      levels := levels + [Level(account, true)];
      if kind.Zip32? {
        if hasIndex {
          levels := levels + [index];
        }
        return;
      }
      levels := levels + [Level(charge, false)];
      levels := levels + [index];
    }

    // ---- printing ---------------------------------------------------------

    /** The field templates of `str`; on a valid path the text is that of its levels. */
    method Str() returns (out: string)
      ensures out == Paths.PathText(View())
      ensures Valid() ==> out == if levels == [] then "" else FormatLevels(levels)
    {
      if Valid() {
        Paths.TemplateAgrees(View());
      }
      if levels == [] {
        return "";
      }
      if kind.Slip10? {
        out := ComputeFormatLevels(levels);
        return;
      }
      if kind.Bip32? {
        out := PrintBip32(account, charge, index);
        return;
      }
      var prefix := Paths.FixedPrefix(View());
      if prefix.None? {
        return "";
      }
      var (purpose, prefixCoin) := prefix.value;
      if kind.Zip32? {
        out := PrintZip32(purpose, prefixCoin, account, if hasIndex then Some(index) else None);
      } else {
        out := PrintFive(purpose, prefixCoin, account, charge, index);
      }
    }
  }

  // ---- the three printing templates of `str` ------------------------------

  lemma FormatMore(levels: seq<Level>, level: Level, out: string)
    requires out == FormatLevels(levels) + "/"
    ensures out + Decimal(level.index) + (if level.hardened then "'" else "") == FormatLevels(levels + [level])
  {
    FormatAppend(levels, level);
  }

  method PrintBip32(account: u32, charge: u32, index: Level) returns (out: string)
    ensures out == FormatLevels([Level(account, true), Level(charge, false), index])
  {
    out := "m/";
    FormatMore([], Level(account, true), out);
    out := AppendUint32(out, account);
    out := out + "'/";
    FormatMore([Level(account, true)], Level(charge, false), out);
    out := AppendUint32(out, charge);
    out := out + "/";
    assert [Level(account, true)] + [Level(charge, false)] == [Level(account, true), Level(charge, false)];
    FormatMore([Level(account, true), Level(charge, false)], index, out);
    out := AppendUint32(out, index.index);
    if index.hardened {
      out := out + "'";
    }
    assert [Level(account, true), Level(charge, false)] + [index]
        == [Level(account, true), Level(charge, false), index];
  }

  /** The start that the other two templates share: "m/purpose'/coin'/account'". */
  method PrintPrefix(purpose: u32, coin: u32, account: u32) returns (out: string)
    ensures out == FormatLevels([Level(purpose, true), Level(coin, true), Level(account, true)])
  {
    out := "m/";
    FormatMore([], Level(purpose, true), out);
    out := AppendUint32(out, purpose);
    out := out + "'/";
    FormatMore([Level(purpose, true)], Level(coin, true), out);
    out := AppendUint32(out, coin);
    out := out + "'/";
    assert [Level(purpose, true)] + [Level(coin, true)] == [Level(purpose, true), Level(coin, true)];
    FormatMore([Level(purpose, true), Level(coin, true)], Level(account, true), out);
    out := AppendUint32(out, account);
    out := out + "'";
    assert [Level(purpose, true), Level(coin, true)] + [Level(account, true)]
        == [Level(purpose, true), Level(coin, true), Level(account, true)];
  }

  method PrintZip32(purpose: u32, coin: u32, account: u32, index: Option<Level>) returns (out: string)
    ensures out == FormatLevels([Level(purpose, true), Level(coin, true), Level(account, true)]
                                + if index.Some? then [index.value] else [])
  {
    ghost var first := [Level(purpose, true), Level(coin, true), Level(account, true)];
    assert first + [] == first;
    out := PrintPrefix(purpose, coin, account);
    if index.None? {
      return;
    }
    out := out + "/";
    FormatMore(first, index.value, out);
    out := AppendUint32(out, index.value.index);
    if index.value.hardened {
      out := out + "'";
    }
  }

  method PrintFive(purpose: u32, coin: u32, account: u32, charge: u32, index: Level) returns (out: string)
    ensures out == FormatLevels([Level(purpose, true), Level(coin, true), Level(account, true)]
                                + [Level(charge, false), index])
  {
    ghost var first := [Level(purpose, true), Level(coin, true), Level(account, true)];
    out := PrintPrefix(purpose, coin, account);
    out := out + "/";
    FormatMore(first, Level(charge, false), out);
    out := AppendUint32(out, charge);
    out := out + "/";
    FormatMore(first + [Level(charge, false)], index, out);
    out := AppendUint32(out, index.index);
    if index.hardened {
      out := out + "'";
    }
    assert first + [Level(charge, false)] + [index] == first + [Level(charge, false), index];
  }

  // ---- the extraction -----------------------------------------------------

  /** What the extraction stores before the levels are rebuilt. */
  function Extracted(kind: DerivationType, raws: seq<RawLevel>): Paths.Path
    requires !kind.Root? && ValidateLevels(kind, raws)
  {
    Paths.PathOf(kind, Plain(raws)).(levels := if kind.Slip10? then Plain(raws) else [])
  }

  /** Extracted fields rebuild the levels that were read. */
  lemma ExtractionAgrees(kind: DerivationType, raws: seq<RawLevel>)
    requires !kind.Root? && !kind.Unset? && !kind.Other? && ValidateLevels(kind, raws)
    ensures Paths.TemplateLevels(Extracted(kind, raws)) == Plain(raws)
  {
  }
}
