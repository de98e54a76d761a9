/** The escapes of the CEF and LEEF record formats: chains of replacements that work like one pass over the text. */
module Escaping {
  import opened Options
  import opened Text

  datatype Style = Cef | Leef

  /** The letter that stands for a special character after a backslash. */
  function Letter(style: Style, c: char): Option<char> {
    if c == '\\' then Some('\\')
    else if c == '\n' then Some('n')
    else if c == '\r' then Some('r')
    else if style.Cef? && (c == '|' || c == '=') then Some(c)
    else if style.Leef? && c == '\t' then Some('t')
    else None
  }

  /** What a letter after a backslash stands for; a letter without a meaning stands for itself. */
  function Meaning(style: Style, c: char): char {
    if c == 'n' then '\n'
    else if c == 'r' then '\r'
    else if style.Leef? && c == 't' then '\t'
    else c
  }

  function EscapeChar(style: Style, c: char): string {
    if Letter(style, c).Some? then ['\\', Letter(style, c).value] else [c]
  }

  /** The escape in one pass, character by character. */
  function OnePass(style: Style, s: string): string {
    if s == "" then "" else EscapeChar(style, s[0]) + OnePass(style, s[1..])
  }

  function Unescape(style: Style, s: string): string {
    if s == "" then ""
    else if s[0] == '\\' && |s| > 1 then [Meaning(style, s[1])] + Unescape(style, s[2..])
    else [s[0]] + Unescape(style, s[1..])
  }

  /** Replaces every occurrence of a character. */
  function ReplaceAll(s: string, c: char, with: string): string {
    if s == "" then "" else (if s[0] == c then with else [s[0]]) + ReplaceAll(s[1..], c, with)
  }

  function CefEscape(s: string): string {
    var s1 := ReplaceAll(s, '\\', "\\\\");
    var s2 := ReplaceAll(s1, '|', "\\|");
    var s3 := ReplaceAll(s2, '=', "\\=");
    var s4 := ReplaceAll(s3, '\n', "\\n");
    ReplaceAll(s4, '\r', "\\r")
  }

  function LeefEscape(s: string): string {
    var s1 := ReplaceAll(s, '\\', "\\\\");
    var s2 := ReplaceAll(s1, '\t', "\\t");
    var s3 := ReplaceAll(s2, '\n', "\\n");
    ReplaceAll(s3, '\r', "\\r")
  }

  function Escape(style: Style, s: string): string {
    match style
    case Cef => CefEscape(s)
    case Leef => LeefEscape(s)
  }

  lemma {:induction false} ReplaceAllConcat(a: string, b: string, c: char, with: string)
    ensures ReplaceAll(a + b, c, with) == ReplaceAll(a, c, with) + ReplaceAll(b, c, with)
  {
    if a == "" {
      assert a + b == b;
    } else {
      hide ReplaceAll;
      ReplaceAllConcat(a[1..], b, c, with);
      ReplaceAllFirst(a, c, with);
      ReplaceAllFirst(a + b, c, with);
      RestOfConcat(a, b);
      Associate(if a[0] == c then with else [a[0]], ReplaceAll(a[1..], c, with), ReplaceAll(b, c, with));
    }
  }

  lemma ReplaceAllFirst(s: string, c: char, with: string)
    requires s != ""
    ensures ReplaceAll(s, c, with) == (if s[0] == c then with else [s[0]]) + ReplaceAll(s[1..], c, with)
  {
  }

  lemma CefEscapeConcat(a: string, b: string)
    ensures CefEscape(a + b) == CefEscape(a) + CefEscape(b)
  {
    hide ReplaceAll;
    ReplaceAllConcat(a, b, '\\', "\\\\");
    var a1, b1 := ReplaceAll(a, '\\', "\\\\"), ReplaceAll(b, '\\', "\\\\");
    ReplaceAllConcat(a1, b1, '|', "\\|");
    var a2, b2 := ReplaceAll(a1, '|', "\\|"), ReplaceAll(b1, '|', "\\|");
    ReplaceAllConcat(a2, b2, '=', "\\=");
    var a3, b3 := ReplaceAll(a2, '=', "\\="), ReplaceAll(b2, '=', "\\=");
    ReplaceAllConcat(a3, b3, '\n', "\\n");
    ReplaceAllConcat(ReplaceAll(a3, '\n', "\\n"), ReplaceAll(b3, '\n', "\\n"), '\r', "\\r");
  }

  lemma LeefEscapeConcat(a: string, b: string)
    ensures LeefEscape(a + b) == LeefEscape(a) + LeefEscape(b)
  {
    hide ReplaceAll;
    ReplaceAllConcat(a, b, '\\', "\\\\");
    var a1, b1 := ReplaceAll(a, '\\', "\\\\"), ReplaceAll(b, '\\', "\\\\");
    ReplaceAllConcat(a1, b1, '\t', "\\t");
    var a2, b2 := ReplaceAll(a1, '\t', "\\t"), ReplaceAll(b1, '\t', "\\t");
    ReplaceAllConcat(a2, b2, '\n', "\\n");
    ReplaceAllConcat(ReplaceAll(a2, '\n', "\\n"), ReplaceAll(b2, '\n', "\\n"), '\r', "\\r");
  }

  lemma ReplaceAllOne(x: char, c: char, with: string)
    ensures ReplaceAll([x], c, with) == if x == c then with else [x]
  {
    assert [x][1..] == "";
  }

  lemma ReplaceAllTwo(x: char, y: char, c: char, with: string)
    requires x != c && y != c
    ensures ReplaceAll([x, y], c, with) == [x, y]
  {
    assert [x, y][1..] == [y];
    ReplaceAllOne(y, c, with);
  }

  lemma EscapeOne(style: Style, c: char)
    ensures Escape(style, [c]) == EscapeChar(style, c)
  {
    hide ReplaceAll;
    forall x, d, with
      ensures ReplaceAll([x], d, with) == if x == d then with else [x]
    {
      ReplaceAllOne(x, d, with);
    }
    forall x, y, d, with | x != d && y != d
      ensures ReplaceAll([x, y], d, with) == [x, y]
    {
      ReplaceAllTwo(x, y, d, with);
    }
  }

  /** The chain of replacements escapes every character once: no step disturbs what another step produced. */
  lemma {:induction false} EscapeIsOnePass(style: Style, s: string)
    ensures Escape(style, s) == OnePass(style, s)
  {
    hide CefEscape, LeefEscape;
    if s == "" {
      assert ReplaceAll("", '\\', "\\\\") == "";
      EscapeEmpty(style);
    } else {
      EscapeIsOnePass(style, s[1..]);
      EscapeOne(style, s[0]);
      assert s == [s[0]] + s[1..];
      CefEscapeConcat([s[0]], s[1..]);
      LeefEscapeConcat([s[0]], s[1..]);
    }
  }

  lemma EscapeEmpty(style: Style)
    ensures Escape(style, "") == ""
  {
  }

  lemma {:induction false} UnescapeOnePass(style: Style, s: string)
    ensures Unescape(style, OnePass(style, s)) == s
  {
    if s != "" {
      UnescapeOnePass(style, s[1..]);
      var t, rest := OnePass(style, s), OnePass(style, s[1..]);
      if Letter(style, s[0]).Some? {
        assert t[2..] == rest;
      } else {
        assert t[1..] == rest;
      }
    }
  }

  /** Escaping loses nothing. */
  lemma RoundTrip(style: Style, s: string)
    ensures Unescape(style, Escape(style, s)) == s
  {
    EscapeIsOnePass(style, s);
    UnescapeOnePass(style, s);
  }

  lemma Injective(style: Style, a: string, b: string)
    requires Escape(style, a) == Escape(style, b)
    ensures a == b
  {
    RoundTrip(style, a);
    RoundTrip(style, b);
  }

  /** Line ends are always escaped, and so are tabs in LEEF. */
  lemma {:induction false} EscapeRemoves(style: Style, s: string, c: char)
    requires c == '\n' || c == '\r' || (style.Leef? && c == '\t')
    ensures c !in Escape(style, s)
  {
    EscapeIsOnePass(style, s);
    OnePassRemoves(style, s, c);
  }

  lemma {:induction false} OnePassRemoves(style: Style, s: string, c: char)
    requires c == '\n' || c == '\r' || (style.Leef? && c == '\t')
    ensures c !in OnePass(style, s)
  {
    if s != "" {
      OnePassRemoves(style, s[1..], c);
    }
  }

  /** What an escape looks like: a text piece by piece, and each character with a meaning by its own pair. */
  lemma EscapesAre(style: Style, a: string, b: string, c: char)
    ensures Escape(style, a + b) == Escape(style, a) + Escape(style, b) && Escape(style, "") == ""
    ensures Escape(style, "\\") == "\\\\" && Escape(style, "\n") == "\\n" && Escape(style, "\r") == "\\r"
    ensures CefEscape("|") == "\\|" && CefEscape("=") == "\\=" && LeefEscape("\t") == "\\t"
    ensures c != '\\' && c != '\n' && c != '\r' && c != '|' && c != '=' ==> CefEscape([c]) == [c]
    ensures c != '\\' && c != '\n' && c != '\r' && c != '\t' ==> LeefEscape([c]) == [c]
  {
    hide CefEscape, LeefEscape, ReplaceAll;
    CefEscapeConcat(a, b);
    LeefEscapeConcat(a, b);
    EscapeEmpty(style);
    forall d: char, other: Style
      ensures Escape(other, [d]) == EscapeChar(other, d)
    {
      EscapeOne(other, d);
    }
    assert Escape(Cef, ['|']) == CefEscape(['|']) && Escape(Cef, ['=']) == CefEscape(['=']);
    assert Escape(Leef, ['\t']) == LeefEscape(['\t']);
    assert Escape(Cef, [c]) == CefEscape([c]) && Escape(Leef, [c]) == LeefEscape([c]);
  }
}
