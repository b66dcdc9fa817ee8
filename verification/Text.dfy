/**
 * Byte-level text helpers of src/detail.hpp: trimming, splitting, case folding
 * and the NSS byte set.
 *
 * A C++ byte string is a Dafny `string`, one `char` per byte. Nothing here
 * looks at a char above 255, so the functions are total over all strings and
 * the lemmas cover every byte string.
 */
module Text {

  // ---- characters ---------------------------------------------------------

  /** The six ASCII whitespace characters, and no Unicode space. */
  predicate IsSpace(c: char) {
    c == ' ' || c == '\t' || c == '\n' || c == '\U{0B}' || c == '\U{0C}' || c == '\r'
  }

  /** An RFC 3986 pchar or '/', except ':' and '%'. */
  predicate NssByte(c: char) {
    || 'a' <= c <= 'z' || 'A' <= c <= 'Z' || '0' <= c <= '9'
    || c == '-' || c == '.' || c == '_' || c == '~' || c == '!' || c == '$'
    || c == '&' || c == '\'' || c == '(' || c == ')' || c == '*' || c == '+'
    || c == ',' || c == ';' || c == '=' || c == '@' || c == '/'
  }

  const NSS_PUNCTUATION := "-._~!$&'()*+,;=@/"

  /** The table scan of `nss_byte`. */
  method ComputeNssByte(c: char) returns (r: bool)
    ensures r == NssByte(c)
  {
    if 'a' <= c <= 'z' || 'A' <= c <= 'Z' || '0' <= c <= '9' {
      return true;
    }
    for i := 0 to |NSS_PUNCTUATION|
      invariant forall j :: 0 <= j < i ==> c != NSS_PUNCTUATION[j]
    {
      if c == NSS_PUNCTUATION[i] {
        return true;
      }
    }
    assert
      && NSS_PUNCTUATION[0] == '-' && NSS_PUNCTUATION[1] == '.' && NSS_PUNCTUATION[2] == '_'
      && NSS_PUNCTUATION[3] == '~' && NSS_PUNCTUATION[4] == '!' && NSS_PUNCTUATION[5] == '$'
      && NSS_PUNCTUATION[6] == '&' && NSS_PUNCTUATION[7] == '\'' && NSS_PUNCTUATION[8] == '('
      && NSS_PUNCTUATION[9] == ')' && NSS_PUNCTUATION[10] == '*' && NSS_PUNCTUATION[11] == '+'
      && NSS_PUNCTUATION[12] == ',' && NSS_PUNCTUATION[13] == ';' && NSS_PUNCTUATION[14] == '='
      && NSS_PUNCTUATION[15] == '@' && NSS_PUNCTUATION[16] == '/';
    return false;
  }

  // The byte sets once more, by code and by what they leave out.

  lemma SpaceCodes(c: char)
    ensures IsSpace(c) <==> 9 <= c as int <= 13 || c as int == 32
  {
  }

  /** The visible ASCII characters but for these fifteen. */
  lemma NssByteCodes(c: char)
    ensures NssByte(c) <==> '!' <= c <= '~' && c !in "\"#%:<>?[\\]^`{|}"
  {
    var out := "\"#%:<>?[\\]^`{|}";
    assert
      && out[0] == '"' && out[1] == '#' && out[2] == '%' && out[3] == ':' && out[4] == '<' && out[5] == '>'
      && out[6] == '?' && out[7] == '[' && out[8] == '\\' && out[9] == ']' && out[10] == '^' && out[11] == '`'
      && out[12] == '{' && out[13] == '|' && out[14] == '}';
  }

  predicate AllSpace(s: string) {
    forall i :: 0 <= i < |s| ==> IsSpace(s[i])
  }

  predicate AllNss(s: string) {
    forall i :: 0 <= i < |s| ==> NssByte(s[i])
  }

  lemma AllNssConcat(a: string, b: string)
    requires AllNss(a) && AllNss(b)
    ensures AllNss(a + b)
  {
  }

  // ---- trimming -----------------------------------------------------------

  function TrimLeft(s: string): string {
    if s != "" && IsSpace(s[0]) then TrimLeft(s[1..]) else s
  }

  function TrimRight(s: string): string {
    if s != "" && IsSpace(s[|s| - 1]) then TrimRight(s[..|s| - 1]) else s
  }

  function Trim(s: string): string {
    TrimRight(TrimLeft(s))
  }

  /** No whitespace at either end. */
  predicate Trimmed(s: string) {
    s == "" || (!IsSpace(s[0]) && !IsSpace(s[|s| - 1]))
  }

  lemma {:induction false} TrimLeftPad(l: string, t: string)
    requires AllSpace(l)
    ensures TrimLeft(l + t) == TrimLeft(t)
  {
    if l == "" {
      assert l + t == t;
    } else {
      assert (l + t)[1..] == l[1..] + t;
      TrimLeftPad(l[1..], t);
    }
  }

  lemma {:induction false} TrimRightPad(t: string, r: string)
    requires AllSpace(r)
    ensures TrimRight(t + r) == TrimRight(t)
  {
    if r == "" {
      assert t + r == t;
    } else {
      assert (t + r)[..|t + r| - 1] == t + r[..|r| - 1];
      TrimRightPad(t, r[..|r| - 1]);
    }
  }

  lemma {:induction false} TrimLeftPart(s: string) returns (l: string)
    ensures AllSpace(l) && s == l + TrimLeft(s)
    ensures TrimLeft(s) == "" || !IsSpace(TrimLeft(s)[0])
  {
    if s != "" && IsSpace(s[0]) {
      var l' := TrimLeftPart(s[1..]);
      l := [s[0]] + l';
      assert s == [s[0]] + s[1..];
    } else {
      l := "";
    }
  }

  lemma {:induction false} TrimRightPart(s: string) returns (r: string)
    ensures AllSpace(r) && s == TrimRight(s) + r
    ensures TrimRight(s) == "" || !IsSpace(TrimRight(s)[|TrimRight(s)| - 1])
  {
    if s != "" && IsSpace(s[|s| - 1]) {
      var r' := TrimRightPart(s[..|s| - 1]);
      r := r' + [s[|s| - 1]];
      assert s == s[..|s| - 1] + [s[|s| - 1]];
    } else {
      r := "";
    }
  }

  lemma TrimPadding(s: string) returns (l: string, r: string)
    ensures AllSpace(l) && AllSpace(r) && s == l + Trim(s) + r
    ensures Trimmed(Trim(s))
  {
    l := TrimLeftPart(s);
    r := TrimRightPart(TrimLeft(s));
    if Trim(s) != "" {
      assert TrimLeft(s)[0] == Trim(s)[0];
    }
  }

  lemma TrimSandwich(l: string, t: string, r: string)
    requires AllSpace(l) && AllSpace(r) && Trimmed(t)
    ensures Trim(l + t + r) == t
  {
    assert l + t + r == l + (t + r);
    TrimLeftPad(l, t + r);
    if t == "" {
      assert t + r == r + "" && TrimLeft("") == "";
      TrimLeftPad(r, "");
    } else {
      assert TrimLeft(t + r) == t + r;
      TrimRightPad(t, r);
    }
  }

  /** `Trim(s)` is the one text without outer whitespace that padding turns into `s`. */
  lemma TrimUnique(s: string, t: string)
    ensures Trim(s) == t <==>
            Trimmed(t) && exists l, r :: AllSpace(l) && AllSpace(r) && s == l + t + r
  {
    var l, r := TrimPadding(s);
    if Trimmed(t) && exists l, r :: AllSpace(l) && AllSpace(r) && s == l + t + r {
      var l', r' :| AllSpace(l') && AllSpace(r') && s == l' + t + r';
      TrimSandwich(l', t, r');
    }
  }

  lemma {:induction false} TrimRightKeeps(s: string)
    requires s != "" && !IsSpace(s[0])
    ensures TrimRight(s) != ""
  {
    if IsSpace(s[|s| - 1]) {
      TrimRightKeeps(s[..|s| - 1]);
    }
  }

  lemma TrimFixed(t: string)
    requires Trimmed(t)
    ensures Trim(t) == t && TrimRight(t) == t
  {
    if t != "" {
      assert TrimLeft(t) == t;
    }
  }

  lemma AllNssTrimmed(s: string)
    requires AllNss(s)
    ensures Trimmed(s) && Trim(s) == s
  {
    TrimFixed(s);
  }

  /** The two index loops of `trim`. */
  method ComputeTrim(s: string) returns (t: string)
    ensures t == Trim(s)
  {
    var i := 0;
    while i < |s| && IsSpace(s[i])
      invariant i <= |s|
      invariant TrimLeft(s[i..]) == TrimLeft(s)
    {
      assert s[i..][1..] == s[i + 1..];
      i := i + 1;
    }
    assert TrimLeft(s) == s[i..];
    var j := |s|;
    assert s[i..j] == s[i..];
    while j > i && IsSpace(s[j - 1])
      invariant i <= j <= |s|
      invariant TrimRight(s[i..j]) == TrimRight(s[i..])
    {
      assert s[i..j][..|s[i..j]| - 1] == s[i..j - 1];
      j := j - 1;
    }
    return s[i..j];
  }

  method ComputeTrimRight(s: string) returns (t: string)
    ensures t == TrimRight(s)
  {
    var j := |s|;
    assert s[..j] == s;
    while j > 0 && IsSpace(s[j - 1])
      invariant 0 <= j <= |s|
      invariant TrimRight(s[..j]) == TrimRight(s)
    {
      assert s[..j][..|s[..j]| - 1] == s[..j - 1];
      j := j - 1;
    }
    return s[..j];
  }

  // ---- ASCII case ---------------------------------------------------------

  function AsciiLower(c: char): char {
    if 'A' <= c <= 'Z' then (c as int + 32) as char else c
  }

  /** Folding turns the capital alphabet into the small one and leaves everything else alone. */
  lemma LowerTable(c: char)
    ensures forall i :: 0 <= i < 26 ==>
              AsciiLower("ABCDEFGHIJKLMNOPQRSTUVWXYZ"[i]) == "abcdefghijklmnopqrstuvwxyz"[i]
    ensures c !in "ABCDEFGHIJKLMNOPQRSTUVWXYZ" ==> AsciiLower(c) == c
  {
    var upper := "ABCDEFGHIJKLMNOPQRSTUVWXYZ";
    assert forall i :: 0 <= i < 26 ==> upper[i] as int == 'A' as int + i;
    if 'A' <= c <= 'Z' {
      assert upper[c as int - 'A' as int] == c;
    }
  }

  function ToLower(s: string): (r: string)
    ensures |r| == |s|
    ensures forall i :: 0 <= i < |s| ==> r[i] == AsciiLower(s[i])
  {
    seq(|s|, i requires 0 <= i < |s| => AsciiLower(s[i]))
  }

  predicate NoUpper(s: string) {
    forall i :: 0 <= i < |s| ==> !('A' <= s[i] <= 'Z')
  }

  lemma ToLowerFixed(s: string)
    ensures ToLower(s) == s <==> NoUpper(s)
  {
    if ToLower(s) == s {
      forall i | 0 <= i < |s| ensures !('A' <= s[i] <= 'Z') {
        assert s[i] == AsciiLower(s[i]);
      }
    }
  }

  function Normalize(s: string): string {
    ToLower(Trim(s))
  }

  lemma NormalizeFixed(s: string)
    requires AllNss(s) && NoUpper(s)
    ensures Normalize(s) == s
  {
    AllNssTrimmed(s);
    ToLowerFixed(s);
  }

  method ComputeToLower(s: string) returns (out: string)
    ensures out == ToLower(s)
  {
    out := "";
    for i := 0 to |s|
      invariant |out| == i
      invariant forall k :: 0 <= k < i ==> out[k] == AsciiLower(s[k])
    {
      out := out + [AsciiLower(s[i])];
    }
  }

  function HasPrefixFold(s: string, prefix: string): bool {
    |s| >= |prefix| && ToLower(s[..|prefix|]) == ToLower(prefix)
  }

  method EqualAsciiFold(a: string, b: string) returns (r: bool)
    ensures r <==> ToLower(a) == ToLower(b)
  {
    if |a| != |b| {
      return false;
    }
    for i := 0 to |a|
      invariant forall k :: 0 <= k < i ==> AsciiLower(a[k]) == AsciiLower(b[k])
    {
      if AsciiLower(a[i]) != AsciiLower(b[i]) {
        assert ToLower(a)[i] != ToLower(b)[i];
        return false;
      }
    }
    assert ToLower(a) == ToLower(b);
    return true;
  }

  // ---- r/q/f components ---------------------------------------------------

  /** '?' and '#' open the RFC 8141 r-, q- and f-components. */
  predicate OpensRqf(c: char) {
    c == '?' || c == '#'
  }

  lemma OpenerCodes(c: char)
    ensures OpensRqf(c) <==> c as int == 63 || c as int == 35
  {
  }

  predicate NoRqf(s: string) {
    forall i :: 0 <= i < |s| ==> !OpensRqf(s[i])
  }

  function StripRqf(s: string): string {
    if s == "" || OpensRqf(s[0]) then "" else [s[0]] + StripRqf(s[1..])
  }

  lemma {:induction false} StripRqfAt(a: string, tail: string)
    requires NoRqf(a)
    requires tail == "" || OpensRqf(tail[0])
    ensures StripRqf(a + tail) == a
  {
    if a == "" {
      assert a + tail == tail;
    } else {
      assert (a + tail)[1..] == a[1..] + tail;
      StripRqfAt(a[1..], tail);
    }
  }

  // ---- splitting ----------------------------------------------------------

  function Split(s: string, sep: char): (parts: seq<string>)
    ensures parts != []
  {
    if s == "" then [""]
    else
      var rest := Split(s[1..], sep);
      if s[0] == sep then [""] + rest
      else [[s[0]] + rest[0]] + rest[1..]
  }

  function Join(parts: seq<string>, sep: char): string
    requires parts != []
  {
    if |parts| == 1 then parts[0] else parts[0] + [sep] + Join(parts[1..], sep)
  }

  predicate Free(s: string, c: char) {
    forall i :: 0 <= i < |s| ==> s[i] != c
  }

  lemma {:induction false} SplitOne(t: string, sep: char)
    requires Free(t, sep)
    ensures Split(t, sep) == [t]
  {
    if t != "" {
      SplitOne(t[1..], sep);
      assert t == [t[0]] + t[1..];
    }
  }

  lemma {:induction false} SplitFirst(t: string, rest: string, sep: char)
    requires Free(t, sep)
    ensures Split(t + [sep] + rest, sep) == [t] + Split(rest, sep)
  {
    var s := t + [sep] + rest;
    if t == "" {
      assert s[1..] == rest;
    } else {
      assert s[1..] == t[1..] + [sep] + rest;
      SplitFirst(t[1..], rest, sep);
      assert t == [t[0]] + t[1..];
    }
  }

  /** Splitting undoes joining when no part holds the separator. */
  lemma {:induction false} SplitJoin(parts: seq<string>, sep: char)
    requires parts != []
    requires forall i :: 0 <= i < |parts| ==> Free(parts[i], sep)
    ensures Split(Join(parts, sep), sep) == parts
  {
    if |parts| == 1 {
      SplitOne(parts[0], sep);
    } else {
      SplitJoin(parts[1..], sep);
      SplitFirst(parts[0], Join(parts[1..], sep), sep);
    }
  }

  /** Joining undoes splitting, and no part holds the separator. */
  lemma {:induction false} JoinSplit(s: string, sep: char)
    ensures Join(Split(s, sep), sep) == s
    ensures forall i :: 0 <= i < |Split(s, sep)| ==> Free(Split(s, sep)[i], sep)
  {
    if s != "" {
      JoinSplit(s[1..], sep);
      var rest := Split(s[1..], sep);
      assert s == [s[0]] + s[1..];
      if s[0] == sep {
        assert Split(s, sep)[1..] == rest;
      } else {
        assert Split(s, sep)[1..] == rest[1..];
        assert |rest| > 1 ==>
            [s[0]] + (rest[0] + [sep] + Join(rest[1..], sep)) == ([s[0]] + rest[0]) + [sep] + Join(rest[1..], sep);
      }
    }
  }

  lemma {:induction false} JoinAppend(parts: seq<string>, last: string, sep: char)
    requires parts != []
    ensures Join(parts + [last], sep) == Join(parts, sep) + [sep] + last
  {
    if |parts| > 1 {
      assert (parts + [last])[1..] == parts[1..] + [last];
      JoinAppend(parts[1..], last, sep);
    }
  }

  function Count(s: string, c: char): nat {
    if s == "" then 0 else (if s[0] == c then 1 else 0) + Count(s[1..], c)
  }

  lemma {:induction false} SplitCount(s: string, sep: char)
    ensures |Split(s, sep)| == Count(s, sep) + 1
  {
    if s != "" {
      SplitCount(s[1..], sep);
    }
  }

  lemma SplitSegment(s: string, sep: char, start: nat, i: nat)
    requires start <= i <= |s|
    requires forall k :: start <= k < i ==> s[k] != sep
    requires i == |s| || s[i] == sep
    ensures Split(s[start..], sep) == [s[start..i]] + if i == |s| then [] else Split(s[i + 1..], sep)
  {
    if i == |s| {
      assert s[start..i] == s[start..];
      SplitOne(s[start..], sep);
    } else {
      assert s[start..] == s[start..i] + [sep] + s[i + 1..];
      SplitFirst(s[start..i], s[i + 1..], sep);
    }
  }

  lemma SplitPushed(out: seq<string>, part: string, rest: seq<string>)
    ensures out + ([part] + rest) == out + [part] + rest
  {
  }

  /** `out` holds the parts of `s` before `start`, and no separator stands between `start` and `i`. */
  predicate SplitSoFar(s: string, sep: char, out: seq<string>, start: nat, i: nat) {
    && start <= i <= |s|
    && out + Split(s[start..], sep) == Split(s, sep)
    && forall k :: start <= k < i ==> s[k] != sep
  }

  /** The accumulating loop of `split`. */
  method ComputeSplit(s: string, sep: char) returns (out: seq<string>)
    ensures out == Split(s, sep)
  {
    out := [];
    var start: nat := 0;
    assert s[start..] == s && out + Split(s, sep) == Split(s, sep);
    for i := 0 to |s| + 1
      invariant if i <= |s| then SplitSoFar(s, sep, out, start, i) else out == Split(s, sep)
    {
      if i == |s| || s[i] == sep {
        SplitSegment(s, sep, start, i);
        SplitPushed(out, s[start..i], if i == |s| then [] else Split(s[i + 1..], sep));
        out := out + [s[start..i]];
        start := i + 1;
      }
    }
  }
}
