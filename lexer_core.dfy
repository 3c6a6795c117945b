/** The lexer's token record, its validation and its two text renderings. */
module LexerCore {
  import opened Basics
  import opened Text

  datatype TokenType = STEP | ACTION_ONLY | ACTION_RESULT | RESULT_ONLY | COMMENT | TEXT | EMPTY | ERROR

  /** `TokenType.X.name`. */
  function TypeName(t: TokenType): string {
    match t
    case STEP => "STEP"
    case ACTION_ONLY => "ACTION_ONLY"
    case ACTION_RESULT => "ACTION_RESULT"
    case RESULT_ONLY => "RESULT_ONLY"
    case COMMENT => "COMMENT"
    case TEXT => "TEXT"
    case EMPTY => "EMPTY"
    case ERROR => "ERROR"
  }

  /** The member whose name this is, if any: the inverse of `TypeName`. */
  function TypeNamed(name: string): (r: Option<TokenType>)
    ensures r.Some? ==> TypeName(r.value) == name
  {
    if name == "STEP" then Some(STEP)
    else if name == "ACTION_ONLY" then Some(ACTION_ONLY)
    else if name == "ACTION_RESULT" then Some(ACTION_RESULT)
    else if name == "RESULT_ONLY" then Some(RESULT_ONLY)
    else if name == "COMMENT" then Some(COMMENT)
    else if name == "TEXT" then Some(TEXT)
    else if name == "EMPTY" then Some(EMPTY)
    else if name == "ERROR" then Some(ERROR)
    else None
  }

  /** Every member's name reads back as that member, so two tokens have the same kind
      exactly when they have the same type. */
  lemma TypeNameRoundTrip(t: TokenType)
    ensures TypeNamed(TypeName(t)) == Some(t)
  {
  }

  lemma KindInjective(a: TokenType, b: TokenType)
    ensures TypeName(a) == TypeName(b) <==> a == b
  {
    TypeNameRoundTrip(a);
    TypeNameRoundTrip(b);
  }

  /** A token. `column` is `None` when the caller passed `column=None`; the free-form
      `metadata` dictionary is not modelled. */
  datatype Token = Token(ttype: TokenType, value: string, lineno: int, column: Option<int>,
                         result: Option<string>, original: Option<string>)
  {
    /** The `kind` property. */
    function Kind(): string { TypeName(ttype) }
  }

  /** What the caller passed as `type`: a `TokenType` member, or some other object,
      shown by its `str`. */
  datatype TypeArg = Member(t: TokenType) | NotMember(shown: string)

  predicate ValidToken(t: Token) {
    t.lineno >= 1 && (t.column.Some? ==> t.column.value >= 0)
  }

  /** `Token(...)` with the checks of `__post_init__`, in their order. */
  function MakeToken(ttype: TypeArg, value: string, lineno: int, column: Option<int>,
                     result: Option<string>, original: Option<string>): (r: Result<Token>)
    ensures r.Ok? <==> ttype.Member? && lineno >= 1 && (column.Some? ==> column.value >= 0)
    ensures r.Ok? ==> ValidToken(r.value) && r.value == Token(ttype.t, value, lineno, column, result, original)
    ensures ttype.NotMember? ==> r == Fail(ValueError("Invalid token type: " + ttype.shown))
    ensures ttype.Member? && lineno < 1
            ==> r == Fail(ValueError("Line number must be >= 1, got " + IntToString(lineno)))
  {
    if ttype.NotMember? then Fail(ValueError("Invalid token type: " + ttype.shown))
    else if lineno < 1 then Fail(ValueError("Line number must be >= 1, got " + IntToString(lineno)))
    else if column.Some? && column.value < 0 then Fail(ValueError("Column must be >= 0, got " + IntToString(column.value)))
    else Ok(Token(ttype.t, value, lineno, column, result, original))
  }

  /** The column as an f-string shows it. */
  function ColumnText(c: Option<int>): string {
    if c.Some? then IntToString(c.value) else "None"
  }

  /** `str(token)`: `TYPE@line:col 'value'`, and ` -> 'result'` when the result is a
      non-empty string. */
  function TokenStr(t: Token): string {
    var head := TypeName(t.ttype) + "@" + IntToString(t.lineno) + ":" + ColumnText(t.column) + " '" + t.value + "'";
    if t.result.Some? && t.result.value != "" then head + " -> '" + t.result.value + "'" else head
  }

  /** The rendering starts with the kind, the line and the column, and carries the result
      part exactly when a non-empty result is set. */
  lemma TokenStrShape(t: Token)
    ensures StartsWith(TokenStr(t), t.Kind() + "@" + IntToString(t.lineno) + ":" + ColumnText(t.column) + " '")
    ensures t.result.Some? && t.result.value != ""
            ==> EndsWith(TokenStr(t), "' -> '" + t.result.value + "'")
    ensures !(t.result.Some? && t.result.value != "")
            ==> TokenStr(t) == t.Kind() + "@" + IntToString(t.lineno) + ":" + ColumnText(t.column) + " '" + t.value + "'"
  {
    var pre := t.Kind() + "@" + IntToString(t.lineno) + ":" + ColumnText(t.column) + " '";
    var head := pre + t.value + "'";
    assert TokenStr(t)[..|pre|] == pre by {
      if t.result.Some? && t.result.value != "" {
        assert TokenStr(t) == pre + (t.value + "'" + " -> '" + t.result.value + "'");
      } else {
        assert TokenStr(t) == pre + (t.value + "'");
      }
    }
    if t.result.Some? && t.result.value != "" {
      var s := TokenStr(t);
      var tail := "' -> '" + t.result.value + "'";
      assert s == (pre + t.value) + tail;
      assert s[|s| - |tail|..] == tail;
    }
  }

  // ---------------------------------------------------------------- LexerError

  /** `Lexer error at line L`, with `, column C` when the column is above 0. */
  function ErrorLocation(lineno: int, column: int): string {
    "Lexer error at line " + IntToString(lineno) + (if column > 0 then ", column " + IntToString(column) else "")
  }

  /** The source line and, below it, the caret, when a non-empty line is given. */
  function ErrorLine(column: int, line: Option<string>): string {
    if line.Some? && line.value != "" then
      "\nLine: " + line.value + (if column > 0 then "\n" + Spaces(column - 1) + "^" else "")
    else ""
  }

  /** `LexerError(...)._format_message()`. */
  function LexerErrorMessage(message: string, lineno: int, column: int, line: Option<string>): string {
    ErrorLocation(lineno, column) + ": " + message + ErrorLine(column, line)
  }

  function Spaces(n: nat): (s: string)
    ensures |s| == n && forall i :: 0 <= i < n ==> s[i] == ' '
  {
    if n == 0 then "" else Spaces(n - 1) + " "
  }

  /** The column is mentioned exactly when it is above 0. */
  lemma LexerErrorMentionsColumn(message: string, lineno: int, column: int, line: Option<string>)
    ensures StartsWith(LexerErrorMessage(message, lineno, column, line),
                       "Lexer error at line " + IntToString(lineno) + ", column ")
            <==> column > 0
  {
    var s := LexerErrorMessage(message, lineno, column, line);
    var pre := "Lexer error at line " + IntToString(lineno);
    var want := pre + ", column ";
    var loc := ErrorLocation(lineno, column);
    ConcatEnds(loc + ": " + message, ErrorLine(column, line));
    ConcatEnds(loc + ": ", message);
    ConcatEnds(loc, ": ");
    StartsWithTrans(s, loc + ": " + message, loc + ": ");
    if column > 0 {
      var c := IntToString(column);
      assert loc == pre + (", column " + c);
      assert loc == want + c;
      ConcatEnds(want, c);
      StartsWithTrans(s, loc + ": ", loc);
      StartsWithTrans(s, loc, want);
    } else {
      assert loc == pre;
      assert s[|pre|] == (loc + ": ")[|pre|] == ':';
      assert want[|pre|] == ',';
    }
  }

  /** With a source line and a positive column, the message ends with a caret under that
      column: `column - 1` spaces, then `^`. */
  lemma LexerErrorCaret(message: string, lineno: int, column: int, line: string)
    requires line != "" && column > 0
    ensures EndsWith(LexerErrorMessage(message, lineno, column, Some(line)), "\n" + Spaces(column - 1) + "^")
  {
    var caret := "\n" + Spaces(column - 1) + "^";
    var tail := ErrorLine(column, Some(line));
    assert tail == "\nLine: " + line + caret;
    ConcatEnds("\nLine: " + line, caret);
    ConcatEnds(ErrorLocation(lineno, column) + ": " + message, tail);
    EndsWithTrans(LexerErrorMessage(message, lineno, column, Some(line)), tail, caret);
  }

  /** Without a source line the message ends with the error text itself. */
  lemma LexerErrorNoLine(message: string, lineno: int, column: int)
    ensures EndsWith(LexerErrorMessage(message, lineno, column, None), ": " + message)
  {
    var loc := ErrorLocation(lineno, column);
    assert LexerErrorMessage(message, lineno, column, None) == loc + (": " + message);
    ConcatEnds(loc, ": " + message);
  }
}
