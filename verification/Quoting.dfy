/**
 * `quote` of src/detail.cpp: the double-quoted form in which error messages show
 * an input. The decoder below is the specification's own: it reads the escapes back.
 */
module Quoting {
  import opened Wrappers
  import opened Numbers

  predicate IsByte(c: char) {
    c as int < 256
  }

  predicate AllBytes(s: string) {
    forall i :: 0 <= i < |s| ==> IsByte(s[i])
  }

  predicate Printable(c: char) {
    ' ' <= c <= '~'
  }

  function Escape(c: char): string
    requires IsByte(c)
  {
    if c == '"' then "\\\""
    else if c == '\\' then "\\\\"
    else if c == '\n' then "\\n"
    else if c == '\r' then "\\r"
    else if c == '\t' then "\\t"
    else if !Printable(c) then "\\x" + [HEX[c as int / 16], HEX[c as int % 16]]
    else [c]
  }

  /** The escapes, written out; the two digits of a byte without its own are its hexadecimal value. */
  lemma EscapeTable(c: char)
    requires IsByte(c)
    ensures Escape('"') == "\\\"" && Escape('\\') == "\\\\"
    ensures Escape('\n') == "\\n" && Escape('\r') == "\\r" && Escape('\t') == "\\t"
    ensures 32 <= c as int <= 126 && c != '"' && c != '\\' ==> Escape(c) == [c]
    ensures (c as int < 32 || c as int > 126) && c != '\n' && c != '\r' && c != '\t' ==>
              && Escape(c) == "\\x" + ["0123456789abcdef"[c as int / 16], "0123456789abcdef"[c as int % 16]]
  {
  }

  function EscapeAll(s: string): string
    requires AllBytes(s)
  {
    if s == "" then "" else EscapeAll(s[..|s| - 1]) + Escape(s[|s| - 1])
  }

  function Quote(s: string): string
    requires AllBytes(s)
  {
    "\"" + EscapeAll(s) + "\""
  }

  method AppendEscaped(out: string, c: char) returns (r: string)
    requires IsByte(c)
    ensures r == out + Escape(c)
  {
    r := out;
    match c {
      case '"' => r := r + "\\\"";
      case '\\' => r := r + "\\\\";
      case '\n' => r := r + "\\n";
      case '\r' => r := r + "\\r";
      case '\t' => r := r + "\\t";
      case _ =>
        if c as int < 0x20 || c as int > 0x7e {
          r := r + "\\x";
          r := r + [HEX[c as int / 16]];
          r := r + [HEX[c as int % 16]];
        } else {
          r := r + [c];
        }
    }
  }

  lemma QuotedNext(s: string, i: nat)
    requires i < |s| && AllBytes(s)
    ensures "\"" + EscapeAll(s[..i]) + Escape(s[i]) == "\"" + EscapeAll(s[..i + 1])
  {
    assert s[..i + 1][..i] == s[..i];
  }

  /** The per-byte loop of `quote`. */
  method ComputeQuote(s: string) returns (out: string)
    requires AllBytes(s)
    ensures out == Quote(s)
  {
    out := "\"";
    for i := 0 to |s|
      invariant out == "\"" + EscapeAll(s[..i])
    {
      QuotedNext(s, i);
      out := AppendEscaped(out, s[i]);
    }
    assert s[..|s|] == s;
    out := out + "\"";
  }

  // ---- reading a quoted text back ----------------------------------------

  /** The byte that an escape sequence at the head of `s` stands for, and its length. */
  function ReadEscape(s: string): Option<(char, nat)> {
    if |s| < 2 || s[0] != '\\' then None
    else if s[1] == '"' then Some(('"', 2))
    else if s[1] == '\\' then Some(('\\', 2))
    else if s[1] == 'n' then Some(('\n', 2))
    else if s[1] == 'r' then Some(('\r', 2))
    else if s[1] == 't' then Some(('\t', 2))
    else if s[1] == 'x' && |s| >= 4 && IsDigit(s[2], 16) && IsDigit(s[3], 16)
    then Some(((DigitValue(s[2], 16) * 16 + DigitValue(s[3], 16)) as char, 4))
    else None
  }

  /** Decodes the text after an opening quote up to the first unescaped quote, which must end it. */
  function ReadQuoted(s: string): Option<string> {
    if s == "" then None
    else if s[0] == '"' then (if |s| == 1 then Some("") else None)
    else if s[0] == '\\' then
      match ReadEscape(s)
      case None => None
      case Some((c, n)) =>
        if n > |s| then None
        else Prepend([c], ReadQuoted(s[n..]))
    else
      Prepend([s[0]], ReadQuoted(s[1..]))
  }

  function Prepend(s: string, r: Option<string>): Option<string> {
    match r case Some(t) => Some(s + t) case None => None
  }

  function Unquote(q: string): Option<string> {
    if q != "" && q[0] == '"' then ReadQuoted(q[1..]) else None
  }

  lemma PrependPrepend(a: string, b: string, r: Option<string>)
    ensures Prepend(a, Prepend(b, r)) == Prepend(a + b, r)
    ensures Prepend("", r) == r
  {
    if r.Some? {
      assert a + (b + r.value) == a + b + r.value;
      assert "" + r.value == r.value;
    }
  }

  lemma HexRead(d: nat)
    requires d < 16
    ensures IsDigit(HEX[d], 16) && DigitValue(HEX[d], 16) == d && Printable(HEX[d])
  {
  }

  lemma ReadOne(c: char, rest: string)
    requires IsByte(c)
    ensures ReadQuoted(Escape(c) + rest) == Prepend([c], ReadQuoted(rest))
  {
    var e := Escape(c);
    HexRead(c as int / 16);
    HexRead(c as int % 16);
    assert (e + rest)[|e|..] == rest;
    if e[0] == '\\' {
      assert ReadEscape(e + rest) == Some((c, |e|));
    }
  }

  lemma {:induction false} ReadAll(s: string, rest: string)
    requires AllBytes(s)
    ensures ReadQuoted(EscapeAll(s) + rest) == Prepend(s, ReadQuoted(rest))
  {
    if s == "" {
      assert EscapeAll(s) + rest == rest;
      PrependPrepend("", "", ReadQuoted(rest));
    } else {
      var t, c := s[..|s| - 1], s[|s| - 1];
      assert EscapeAll(s) + rest == EscapeAll(t) + (Escape(c) + rest);
      ReadAll(t, Escape(c) + rest);
      ReadOne(c, rest);
      assert s == t + [c];
      PrependPrepend(t, [c], ReadQuoted(rest));
    }
  }

  /** `Unquote` stops at the first unescaped quote, so the quoted text has none inside. */
  lemma UnquoteQuote(s: string)
    requires AllBytes(s)
    ensures Unquote(Quote(s)) == Some(s)
  {
    assert Quote(s)[1..] == EscapeAll(s) + "\"";
    ReadAll(s, "\"");
    assert s + "" == s;
  }

  lemma QuoteInjective(s: string, t: string)
    requires AllBytes(s) && AllBytes(t)
    ensures Quote(s) == Quote(t) ==> s == t
  {
    UnquoteQuote(s);
    UnquoteQuote(t);
  }

  lemma {:induction false} EscapeAllPrintable(s: string)
    requires AllBytes(s)
    ensures forall i :: 0 <= i < |EscapeAll(s)| ==> Printable(EscapeAll(s)[i])
  {
    if s != "" {
      EscapeAllPrintable(s[..|s| - 1]);
      var c := s[|s| - 1];
      HexRead(c as int / 16);
      HexRead(c as int % 16);
      assert forall i :: 0 <= i < |Escape(c)| ==> Printable(Escape(c)[i]);
    }
  }

  /** A quoted text is one line of printable ASCII, whatever bytes it quotes. */
  lemma QuotePrintable(s: string)
    requires AllBytes(s)
    ensures forall i :: 0 <= i < |Quote(s)| ==> Printable(Quote(s)[i])
  {
    EscapeAllPrintable(s);
  }
}
