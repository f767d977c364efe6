/** The escape chain of gen_ts (tools/parser_gen/parser_gen.h:50-57): how
    one terminal character is written as a C++ character constant, and a
    reader of C++ character constants to check the writing against. */
module Escape {
  import opened Text
  import opened Grammar
  import opened Interner

  /** The six characters the chain escapes. */
  predicate IsSpecial(c: char)
  {
    c == NUL || c == '\r' || c == '\n' || c == '\t' || c == '\\' || c == '\''
  }

  /** The text between the quotes of the constant for `c`. */
  function EscapeChar(c: char): (s: string)
    ensures |s| == (if IsSpecial(c) then 2 else 1)
    ensures (s[0] == '\\') == IsSpecial(c)
    ensures IsSpecial(c) ==> EscapeCode(s[1]) == Some(c)
    ensures !IsSpecial(c) ==> s == [c]
  {
    if c == NUL then "\\0"
    else if c == '\r' then "\\r"
    else if c == '\n' then "\\n"
    else if c == '\t' then "\\t"
    else if c == '\\' then "\\\\"
    else if c == '\'' then "\\'"
    else [c]
  }

  /** `U'…'` in `char32_t` mode, `'…'` otherwise (parser_gen.h:41, 50, 57). */
  function CharLiteral(c: char, mode: CharMode): (s: string)
  {
    Prefix(mode) + "'" + EscapeChar(c) + "'"
  }

  /** The character a C++ simple escape sequence `\x` stands for; `\0` read
      as the octal escape for zero. */
  function EscapeCode(x: char): (r: Option<char>)
  {
    match x
    case '0' => Some(NUL)
    case 'a' => Some(7 as char)
    case 'b' => Some(8 as char)
    case 't' => Some('\t')
    case 'n' => Some('\n')
    case 'v' => Some(11 as char)
    case 'f' => Some(12 as char)
    case 'r' => Some('\r')
    case '\'' => Some('\'')
    case '"' => Some('"')
    case '?' => Some('?')
    case '\\' => Some('\\')
    case _ => None
  }

  /** A character a C++ character constant may hold unescaped. */
  predicate IsPlainCChar(c: char)
  {
    c != '\'' && c != '\\' && c != '\n'
  }

  /** Reads the body of a character constant: one plain character, or a
      backslash and a simple escape code. */
  function DecodeBody(s: string): (r: Option<char>)
  {
    if |s| == 1 && IsPlainCChar(s[0]) then Some(s[0])
    else if |s| == 2 && s[0] == '\\' then EscapeCode(s[1])
    else None
  }

  /** The chain is total and every constant it writes reads back as the
      character it was written for. */
  lemma EscapeRoundTrip(c: char)
    ensures DecodeBody(EscapeChar(c)) == Some(c)
  {
  }

  /** The six escapes, each read back as a C++ compiler reads it. */
  lemma SpecialEscapes()
    ensures EscapeChar(NUL) == "\\0" && EscapeCode('0') == Some(NUL)
    ensures EscapeChar('\r') == "\\r" && EscapeCode('r') == Some('\r')
    ensures EscapeChar('\n') == "\\n" && EscapeCode('n') == Some('\n')
    ensures EscapeChar('\t') == "\\t" && EscapeCode('t') == Some('\t')
    ensures EscapeChar('\\') == "\\\\" && EscapeCode('\\') == Some('\\')
    ensures EscapeChar('\'') == "\\'" && EscapeCode('\'') == Some('\'')
  {
  }

  /** Different characters get different constants. */
  lemma EscapeInjective(c: char, d: char)
    requires EscapeChar(c) == EscapeChar(d)
    ensures c == d
  {
    EscapeRoundTrip(c);
    EscapeRoundTrip(d);
  }

  /** Reads a character constant (with the `U` prefix in `char32_t` mode)
      from the front of `s`; returns the character and the text after it. */
  function DecodeLiteral(s: string, mode: CharMode): (r: Option<(char, string)>)
    ensures r.Some? ==> |r.value.1| < |s|
  {
    var u := Prefix(mode);
    if !StartsWith(s, u + "'") then None
    else
      var t := s[|u| + 1..];
      if |t| >= 3 && t[0] == '\\' && t[2] == '\'' then
        match DecodeBody(t[..2])
        case None => None
        case Some(c) => Some((c, t[3..]))
      else if |t| >= 2 && t[1] == '\'' then
        match DecodeBody(t[..1])
        case None => None
        case Some(c) => Some((c, t[2..]))
      else None
  }

  /** The pieces of a constant's body followed by its closing quote. */
  lemma ClosedBody(e: string, rest: string)
    ensures var w := e + ("'" + rest);
      w[..|e|] == e && w[|e|] == '\'' && w[|e| + 1..] == rest
  {
    var w := e + ("'" + rest);
    assert w[..|e|] == e;
    assert w[|e|..] == "'" + rest;
  }

  lemma CharLiteralFront(c: char, mode: CharMode, rest: string)
    ensures CharLiteral(c, mode) + rest == (Prefix(mode) + "'") + (EscapeChar(c) + ("'" + rest))
  {
    var u := Prefix(mode);
    var e := EscapeChar(c);
    Regroup(u + "'" + e, "'", rest);
    Regroup(u + "'", e, "'" + rest);
  }

  lemma DecodeLiteralRoundTrip(c: char, mode: CharMode, rest: string)
    ensures DecodeLiteral(CharLiteral(c, mode) + rest, mode) == Some((c, rest))
  {
    var e := EscapeChar(c);
    CharLiteralFront(c, mode, rest);
    StartsWithConcat(Prefix(mode) + "'", e + ("'" + rest));
    ClosedBody(e, rest);
    EscapeRoundTrip(c);
  }
}
