/**
 * The levels of a derivation path: reading one from its text, reading a whole
 * path, and printing levels (src/derivation_path.cpp:15-75, 433-456).
 */
module Levels {
  import opened Numbers
  import opened Text
  import opened Wrappers

  /** `address_index`: one level, with the hardening flag apart from the index. */
  datatype Level = Level(index: u32, hardened: bool)

  /** `raw_level`: a level as spelled; `exact` is false when its digits carry a leading zero. */
  datatype RawLevel = RawLevel(index: u32, hardened: bool, exact: bool)
  {
    function Plain(): Level {
      Level(index, hardened)
    }
  }

  function Plain(raws: seq<RawLevel>): (levels: seq<Level>)
    ensures |levels| == |raws|
  {
    seq(|raws|, i requires 0 <= i < |raws| => raws[i].Plain())
  }

  predicate IsMarker(c: char) {
    c == '\'' || c == 'h' || c == 'H'
  }

  predicate Marked(seg: string) {
    seg != "" && IsMarker(seg[|seg| - 1])
  }

  /** A segment without its hardening marker. */
  function Unmarked(seg: string): string {
    if Marked(seg) then seg[..|seg| - 1] else seg
  }

  function ParseSegment(seg: string): Option<RawLevel> {
    var digits := Unmarked(seg);
    match ParseUint31(digits)
    case None => None
    case Some(v) => Some(RawLevel(v, Marked(seg), |digits| == 1 || digits[0] != '0'))
  }

  method ComputeParseSegment(seg: string) returns (r: Option<RawLevel>)
    ensures r == ParseSegment(seg)
  {
    var hardened := false;
    var digits := seg;
    if digits != "" && IsMarker(digits[|digits| - 1]) {
      hardened := true;
      digits := digits[..|digits| - 1];
    }
    var value := ComputeParseUint31(digits);
    if value.None? {
      return None;
    }
    return Some(RawLevel(value.value, hardened, |digits| == 1 || digits[0] != '0'));
  }

  // The markers once more, as characters.

  /** A number with one more character is a level exactly if the character is another digit or one of ' h H. */
  lemma MarkerChars(n: u32, c: char)
    requires n < 2147483648 && !IsDigit(c, 10)
    ensures ParseSegment(Decimal(n) + [c]) ==
            if c == '\'' || c == 'h' || c == 'H' then Some(RawLevel(n, true, true)) else None
  {
    var seg := Decimal(n) + [c];
    assert seg[..|seg| - 1] == Decimal(n) && seg[|seg| - 1] == c;
    DecimalSound(n);
    ParsePrinted(n);
    if c != '\'' && c != 'h' && c != 'H' {
      assert !AllDigits(seg, 10);
    }
  }

  /** The two texts differ at most in which of ' h H stands where. */
  predicate SameButMarkers(s: string, t: string) {
    && |s| == |t|
    && forall i :: 0 <= i < |s| ==> s[i] == t[i] || (s[i] in "'hH" && t[i] in "'hH")
  }

  lemma MarkerSet(c: char)
    ensures c in "'hH" <==> c == '\'' || c == 'h' || c == 'H'
  {
    assert "'hH"[0] == '\'' && "'hH"[1] == 'h' && "'hH"[2] == 'H';
  }

  lemma UnmarkedAlike(s: string, t: string)
    requires SameButMarkers(s, t)
    ensures Marked(s) == Marked(t)
    ensures |Unmarked(s)| == |Unmarked(t)|
    ensures forall i :: 0 <= i < |Unmarked(s)| && IsDigit(Unmarked(s)[i], 10) ==> Unmarked(t)[i] == Unmarked(s)[i]
  {
    forall i | 0 <= i < |s| ensures s[i] == t[i] || (IsMarker(s[i]) && IsMarker(t[i])) {
      MarkerSet(s[i]);
      MarkerSet(t[i]);
    }
  }

  lemma DigitsAlike(s: string, t: string)
    requires SameButMarkers(s, t) && AllDigits(Unmarked(s), 10)
    ensures ParseSegment(s) == ParseSegment(t)
  {
    UnmarkedAlike(s, t);
    assert Unmarked(s) == Unmarked(t);
  }

  lemma SegmentMarkers(s: string, t: string)
    requires SameButMarkers(s, t)
    ensures ParseSegment(s) == ParseSegment(t)
  {
    if AllDigits(Unmarked(s), 10) {
      DigitsAlike(s, t);
    } else if AllDigits(Unmarked(t), 10) {
      DigitsAlike(t, s);
    }
  }

  /** The segments of "m/<seg>/<seg>/..."; a bare "m" has none. */
  function SplitPath(path: string): Option<seq<string>> {
    if path == "" || path[0] != 'm' then None
    else if |path| == 1 then Some([])
    else if path[1] != '/' || |path| == 2 then None
    else
      var segs := Split(path[2..], '/');
      if "" in segs then None else Some(segs)
  }

  method ComputeSplitPath(path: string) returns (r: Option<seq<string>>)
    ensures r == SplitPath(path)
  {
    if path == "" || path[0] != 'm' {
      return None;
    }
    if |path| == 1 {
      return Some([]);
    }
    if path[1] != '/' {
      return None;
    }
    var rest := path[2..];
    if rest == "" {
      return None;
    }
    var segs := ComputeSplit(rest, '/');
    for i := 0 to |segs|
      invariant forall k :: 0 <= k < i ==> segs[k] != ""
    {
      if segs[i] == "" {
        return None;
      }
    }
    return Some(segs);
  }

  predicate AllSegmentsParse(segs: seq<string>) {
    forall i :: 0 <= i < |segs| ==> ParseSegment(segs[i]).Some?
  }

  function ParseSegments(segs: seq<string>): (raws: seq<RawLevel>)
    requires AllSegmentsParse(segs)
    ensures |raws| == |segs|
    ensures forall i :: 0 <= i < |segs| ==> ParseSegment(segs[i]) == Some(raws[i])
  {
    seq(|segs|, i requires 0 <= i < |segs| => ParseSegment(segs[i]).value)
  }

  function ParseLevels(path: string): Option<seq<RawLevel>> {
    match SplitPath(path)
    case None => None
    case Some(segs) => if AllSegmentsParse(segs) then Some(ParseSegments(segs)) else None
  }

  lemma {:induction false} SplitMarkers(s: string, t: string)
    requires SameButMarkers(s, t)
    ensures |Split(s, '/')| == |Split(t, '/')|
    ensures forall i :: 0 <= i < |Split(s, '/')| ==> SameButMarkers(Split(s, '/')[i], Split(t, '/')[i])
  {
    if s != "" {
      MarkerSet(s[0]);
      MarkerSet(t[0]);
      SplitMarkers(s[1..], t[1..]);
      assert (s[0] == '/') == (t[0] == '/');
    }
  }

  /** Whichever markers a path text uses, it is read as the same levels. */
  lemma LevelsIgnoreMarkers(s: string, t: string)
    requires SameButMarkers(s, t)
    ensures ParseLevels(s) == ParseLevels(t)
  {
    if |s| > 2 {
      MarkerSet(s[0]);
      MarkerSet(t[0]);
      MarkerSet(s[1]);
      MarkerSet(t[1]);
      SplitMarkers(s[2..], t[2..]);
      SegmentsIgnoreMarkers(Split(s[2..], '/'), Split(t[2..], '/'));
    }
  }

  lemma SegmentsIgnoreMarkers(ss: seq<string>, ts: seq<string>)
    requires |ss| == |ts| && forall i :: 0 <= i < |ss| ==> SameButMarkers(ss[i], ts[i])
    ensures "" in ss <==> "" in ts
    ensures AllSegmentsParse(ss) <==> AllSegmentsParse(ts)
    ensures AllSegmentsParse(ss) ==> ParseSegments(ss) == ParseSegments(ts)
  {
    forall i | 0 <= i < |ss| ensures ParseSegment(ss[i]) == ParseSegment(ts[i]) && (ss[i] == "" <==> ts[i] == "") {
      SegmentMarkers(ss[i], ts[i]);
    }
  }

  method ComputeParseLevels(path: string) returns (r: Option<seq<RawLevel>>)
    ensures r == ParseLevels(path)
  {
    var segs := ComputeSplitPath(path);
    if segs.None? {
      return None;
    }
    var raws := [];
    for i := 0 to |segs.value|
      invariant |raws| == i
      invariant forall k :: 0 <= k < i ==> ParseSegment(segs.value[k]) == Some(raws[k])
    {
      var raw := ComputeParseSegment(segs.value[i]);
      if raw.None? {
        return None;
      }
      raws := raws + [raw.value];
    }
    assert raws == ParseSegments(segs.value);
    return Some(raws);
  }

  // ---- printing -----------------------------------------------------------

  function LevelText(level: Level): string {
    Decimal(level.index) + if level.hardened then "'" else ""
  }

  function LevelTexts(levels: seq<Level>): (texts: seq<string>)
    ensures |texts| == |levels|
    ensures forall i :: 0 <= i < |levels| ==> texts[i] == LevelText(levels[i])
  {
    seq(|levels|, i requires 0 <= i < |levels| => LevelText(levels[i]))
  }

  function FormatLevels(levels: seq<Level>): string {
    if levels == [] then "m" else "m/" + Join(LevelTexts(levels), '/')
  }

  /** A level prints as its number and, if hardened, an apostrophe; the path starts with m. */
  lemma LevelTextSpelled(n: u32)
    ensures LevelText(Level(n, true)) == Decimal(n) + "'" && LevelText(Level(n, false)) == Decimal(n)
    ensures FormatLevels([]) == "m"
  {
  }

  lemma FormatAppend(levels: seq<Level>, last: Level)
    ensures FormatLevels(levels + [last]) == FormatLevels(levels) + "/" + LevelText(last)
  {
    if levels == [] {
      assert LevelTexts([last]) == [LevelText(last)];
    } else {
      assert LevelTexts(levels + [last]) == LevelTexts(levels) + [LevelText(last)];
      JoinAppend(LevelTexts(levels), LevelText(last), '/');
    }
  }

  method ComputeFormatLevels(levels: seq<Level>) returns (out: string)
    ensures out == FormatLevels(levels)
  {
    out := "m";
    for i := 0 to |levels|
      invariant out == FormatLevels(levels[..i])
    {
      var l := levels[i];
      assert levels[..i + 1] == levels[..i] + [l];
      FormatAppend(levels[..i], l);
      out := out + "/";
      out := AppendUint32(out, l.index);
      if l.hardened {
        out := out + "'";
      }
    }
    assert levels[..|levels|] == levels;
  }

  // ---- printing then reading ---------------------------------------------

  predicate Below(levels: seq<Level>) {
    forall i :: 0 <= i < |levels| ==> levels[i].index < LEVEL_LIMIT
  }

  function Exact(levels: seq<Level>): (raws: seq<RawLevel>)
    ensures |raws| == |levels|
  {
    seq(|levels|, i requires 0 <= i < |levels| => RawLevel(levels[i].index, levels[i].hardened, true))
  }

  lemma LevelTextChars(level: Level)
    ensures LevelText(level) != "" && Free(LevelText(level), '/')
    ensures AllNss(LevelText(level)) && NoUpper(LevelText(level))
  {
    DecimalSound(level.index);
    assert forall i :: 0 <= i < |LevelText(level)| ==> IsDigit(LevelText(level)[i], 10) || LevelText(level)[i] == '\'';
  }

  lemma LevelTextParts(level: Level)
    ensures Marked(LevelText(level)) == level.hardened && Unmarked(LevelText(level)) == Decimal(level.index)
    ensures |Decimal(level.index)| == 1 || Decimal(level.index)[0] != '0'
  {
    DecimalSound(level.index);
    var d := Decimal(level.index);
    assert IsDigit(d[|d| - 1], 10);
    if level.hardened {
      assert LevelText(level) == d + "'";
    } else {
      assert LevelText(level) == d;
    }
  }

  lemma ParseLevelText(level: Level)
    ensures ParseSegment(LevelText(level)) ==
            if level.index < LEVEL_LIMIT then Some(RawLevel(level.index, level.hardened, true)) else None
  {
    LevelTextParts(level);
    ParsePrinted(level.index);
  }

  /** Printed levels are read back exactly, unless one does not fit 31 bits. */
  lemma ParseFormatted(levels: seq<Level>)
    requires levels != []
    ensures ParseLevels(FormatLevels(levels)) == if Below(levels) then Some(Exact(levels)) else None
  {
    var texts := LevelTexts(levels);
    forall i | 0 <= i < |texts| ensures texts[i] != "" && Free(texts[i], '/') {
      LevelTextChars(levels[i]);
    }
    SplitJoin(texts, '/');
    var path := FormatLevels(levels);
    assert path[2..] == Join(texts, '/');
    JoinNonEmpty(texts, '/');
    assert SplitPath(path) == Some(texts);
    forall i | 0 <= i < |levels|
      ensures ParseSegment(texts[i]) == if levels[i].index < LEVEL_LIMIT then Some(Exact(levels)[i]) else None
    {
      ParseLevelText(levels[i]);
    }
    if Below(levels) {
      assert ParseSegments(texts) == Exact(levels);
    } else {
      var i :| 0 <= i < |levels| && levels[i].index >= LEVEL_LIMIT;
      assert ParseSegment(texts[i]).None?;
    }
  }

  lemma JoinNonEmpty(parts: seq<string>, sep: char)
    requires parts != [] && parts[0] != ""
    ensures Join(parts, sep) != ""
  {
  }

  lemma PlainExact(levels: seq<Level>)
    ensures Plain(Exact(levels)) == levels
  {
  }

  predicate PlainName(s: string) {
    AllNss(s) && NoUpper(s)
  }

  lemma PlainConcat(s: string, t: string, u: string)
    requires PlainName(s) && PlainName(t) && PlainName(u)
    ensures PlainName(s + t + u)
  {
  }

  /** Printed levels are NSS bytes without capitals. */
  lemma {:induction false} FormatIsName(levels: seq<Level>)
    ensures AllNss(FormatLevels(levels)) && NoUpper(FormatLevels(levels))
  {
    if levels != [] {
      var init, last := levels[..|levels| - 1], levels[|levels| - 1];
      FormatIsName(init);
      FormatAppend(init, last);
      assert levels == init + [last];
      LevelTextChars(last);
      PlainConcat(FormatLevels(init), "/", LevelText(last));
    }
  }
}
