/** `shell_escape`: a value quoted for a POSIX shell, as one single-quoted word in which
    every `'` is written `'\''` (close the quotes, an escaped quote, reopen). */
module ShellEscape {
  import opened Basics
  import opened Text

  /** What an embedded quote becomes: `'\''`. */
  const QuoteEscape: string := "'\\''"

  /** The escaping, character by character. */
  function EscapeChars(s: string): (r: string)
    ensures |r| >= |s|
  {
    if s == [] then [] else (if s[0] == '\'' then QuoteEscape else [s[0]]) + EscapeChars(s[1..])
  }

  /** `s.replace("'", "'\\''")` is the character-by-character escaping. */
  lemma {:induction false} ReplaceIsEscape(s: string)
    ensures Replace(s, "'", QuoteEscape) == EscapeChars(s)
  {
    if s != [] {
      assert s[..1] == [s[0]];
      ReplaceIsEscape(s[1..]);
    }
  }

  /** `shell_escape(value)`: `""` for `None`, otherwise the quoted word. */
  function ShellEscape(value: Option<string>): (r: string)
    ensures value.None? ==> r == ""
    ensures value.Some? ==> |r| >= 2 && r[0] == '\'' && r[|r| - 1] == '\''
  {
    if value.None? then "" else "'" + Replace(value.value, "'", QuoteEscape) + "'"
  }

  /** Without a quote in it, a string is just wrapped. */
  lemma NoQuoteWrapped(s: string)
    requires !HasChar(s, '\'')
    ensures ShellEscape(Some(s)) == "'" + s + "'"
  {
    ContainsOne(s, '\'');
    ReplaceAbsent(s, "'", QuoteEscape);
  }

  function Cons(c: char, o: Option<string>): Option<string> {
    if o.Some? then Some([c] + o.value) else None
  }

  /** How a POSIX shell reads one word made of single-quoted pieces and backslash-escaped
      characters: `None` for an unterminated quote, a dangling backslash or any other
      unquoted character. */
  function ReadWord(w: string, quoted: bool): Option<string>
    decreases |w|
  {
    if w == [] then (if quoted then None else Some(""))
    else if quoted then (if w[0] == '\'' then ReadWord(w[1..], false) else Cons(w[0], ReadWord(w[1..], true)))
    else if w[0] == '\'' then ReadWord(w[1..], true)
    else if w[0] == '\\' && |w| >= 2 then Cons(w[1], ReadWord(w[2..], false))
    else None
  }

  lemma {:induction false} ReadEscaped(s: string, rest: string)
    ensures ReadWord(EscapeChars(s) + rest, true) == if ReadWord(rest, true).Some? then Some(s + ReadWord(rest, true).value) else None
  {
    if s != [] {
      ReadEscaped(s[1..], rest);
      ReadEscapedHead(s, rest);
      var r := ReadWord(rest, true);
      if r.Some? {
        assert [s[0]] + (s[1..] + r.value) == s + r.value;
      }
    } else {
      assert EscapeChars(s) + rest == rest;
      assert ReadWord(rest, true).Some? ==> s + ReadWord(rest, true).value == ReadWord(rest, true).value;
    }
  }

  /** Inside quotes the shell reads the first escaped character back and goes on. */
  lemma ReadEscapedHead(s: string, rest: string)
    requires s != []
    ensures ReadWord(EscapeChars(s) + rest, true) == Cons(s[0], ReadWord(EscapeChars(s[1..]) + rest, true))
  {
    var tail := EscapeChars(s[1..]) + rest;
    if s[0] == '\'' {
      assert EscapeChars(s) + rest == QuoteEscape + tail;
      ReadQuoteEscape(tail);
    } else {
      var w := EscapeChars(s) + rest;
      assert w == [s[0]] + tail && w[1..] == tail;
    }
  }

  /** `'\''` inside quotes closes them, reads an escaped quote and opens them again. */
  lemma ReadQuoteEscape(tail: string)
    ensures ReadWord(QuoteEscape + tail, true) == Cons('\'', ReadWord(tail, true))
  {
    var w := QuoteEscape + tail;
    assert w == "'" + "\\" + "'" + "'" + tail;
    assert w[1..] == "\\" + "'" + "'" + tail;
    assert w[1..][2..] == "'" + tail;
    assert ("'" + tail)[1..] == tail;
    assert ReadWord(w, true) == ReadWord(w[1..], false);
    assert ReadWord(w[1..], false) == Cons('\'', ReadWord("'" + tail, false));
    assert ReadWord("'" + tail, false) == ReadWord(tail, true);
  }

  /** The shell reads the escaped word back as the original string. */
  lemma EscapeRoundTrip(s: string)
    ensures ReadWord(ShellEscape(Some(s)), false) == Some(s)
  {
    ReplaceIsEscape(s);
    var w := ShellEscape(Some(s));
    assert w[1..] == EscapeChars(s) + "'";
    ReadEscaped(s, "'");
    assert ReadWord("'", true) == ReadWord("", false);
    assert s + "" == s;
  }
}
