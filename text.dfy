/** Python's `str` operations that the modelled code relies on, on `seq<char>`. */
module Text {
  import opened Basics
  import opened CaseMap

  /** `str.isspace()` for one character: the code points Python treats as whitespace,
      which are also the ones `strip()`, `split()` and the regex class `\s` use. */
  predicate IsSpace(c: char) {
    c == ' ' || ('\t' <= c <= '\r') || ('\U{1c}' <= c <= '\U{1f}') || c == '\U{85}'
    || c == '\U{a0}' || c == '\U{1680}' || ('\U{2000}' <= c <= '\U{200a}')
    || c == '\U{2028}' || c == '\U{2029}' || c == '\U{202f}' || c == '\U{205f}'
    || c == '\U{3000}'
  }

  /** The regex class `\w` on `str` patterns: letters, digits and `_`. ASCII and Latin-1
      are exact; every code point above U+00FF except whitespace is taken as a word
      character. */
  predicate IsWordChar(c: char) {
    ('a' <= c <= 'z') || ('A' <= c <= 'Z') || ('0' <= c <= '9') || c == '_'
    || c == '\U{aa}' || c == '\U{b2}' || c == '\U{b3}' || c == '\U{b5}' || c == '\U{b9}' || c == '\U{ba}'
    || ('\U{bc}' <= c <= '\U{be}') || ('\U{c0}' <= c <= '\U{d6}') || ('\U{d8}' <= c <= '\U{f6}')
    || ('\U{f8}' <= c <= '\U{ff}') || (c > '\U{ff}' && !IsSpace(c))
  }

  predicate NoSpace(s: string) {
    forall i :: 0 <= i < |s| ==> !IsSpace(s[i])
  }

  predicate IsStripped(s: string) {
    s == [] || (!IsSpace(s[0]) && !IsSpace(s[|s| - 1]))
  }

  /** `s.lstrip()`: drops the leading whitespace, and only that. */
  function LStrip(s: string): (r: string)
    ensures |r| <= |s| && r == s[|s| - |r|..]
    ensures r == [] || !IsSpace(r[0])
    ensures forall i :: 0 <= i < |s| - |r| ==> IsSpace(s[i])
  {
    if |s| > 0 && IsSpace(s[0]) then LStrip(s[1..]) else s
  }

  /** `s.rstrip()`: drops the trailing whitespace, and only that. */
  function RStrip(s: string): (r: string)
    ensures |r| <= |s| && r == s[..|r|]
    ensures r == [] || !IsSpace(r[|r| - 1])
    ensures forall i :: |r| <= i < |s| ==> IsSpace(s[i])
  {
    if |s| > 0 && IsSpace(s[|s| - 1]) then RStrip(s[..|s| - 1]) else s
  }

  /** `s.strip()`. */
  function Strip(s: string): (r: string)
    ensures IsStripped(r)
  {
    RStrip(LStrip(s))
  }

  /** `s.rstrip(chars)` for an explicit set of characters. */
  function RStripChars(s: string, chars: set<char>): (r: string)
    ensures |r| <= |s| && r == s[..|r|]
    ensures r == [] || r[|r| - 1] !in chars
    ensures forall i :: |r| <= i < |s| ==> s[i] in chars
  {
    if |s| > 0 && s[|s| - 1] in chars then RStripChars(s[..|s| - 1], chars) else s
  }

  /** Stripping is idempotent and keeps a string that has nothing to strip. */
  lemma StripOfStripped(s: string)
    requires IsStripped(s)
    ensures Strip(s) == s
  {
  }

  lemma StripIdempotent(s: string)
    ensures Strip(Strip(s)) == Strip(s)
  {
    StripOfStripped(Strip(s));
  }

  predicate StartsWith(s: string, prefix: string) {
    |prefix| <= |s| && s[..|prefix|] == prefix
  }

  predicate EndsWith(s: string, suffix: string) {
    |suffix| <= |s| && s[|s| - |suffix|..] == suffix
  }

  /** A concatenation starts with its left part and ends with its right part. */
  lemma ConcatEnds(a: string, b: string)
    ensures StartsWith(a + b, a) && EndsWith(a + b, b)
  {
    assert (a + b)[..|a|] == a;
    assert (a + b)[|a + b| - |b|..] == b;
  }

  lemma StartsWithTrans(s: string, p: string, q: string)
    requires StartsWith(s, p) && StartsWith(p, q)
    ensures StartsWith(s, q)
  {
    assert s[..|q|] == s[..|p|][..|q|];
  }

  lemma EndsWithTrans(s: string, p: string, q: string)
    requires EndsWith(s, p) && EndsWith(p, q)
    ensures EndsWith(s, q)
  {
    assert s[|s| - |q|..] == s[|s| - |p|..][|p| - |q|..];
  }

  /** `sub in s` for strings. */
  predicate Contains(s: string, sub: string) {
    exists i :: 0 <= i <= |s| - |sub| && OccursAt(s, sub, i)
  }

  predicate OccursAt(s: string, sub: string, i: int) {
    0 <= i <= |s| - |sub| && s[i..i + |sub|] == sub
  }

  /** What the tail of a string contains, the string contains. */
  lemma ContainsInTail(s: string, sub: string)
    requires s != [] && Contains(s[1..], sub)
    ensures Contains(s, sub)
  {
    var i :| 0 <= i <= |s[1..]| - |sub| && OccursAt(s[1..], sub, i);
    assert s[i + 1..i + 1 + |sub|] == s[1..][i..i + |sub|];
    assert OccursAt(s, sub, i + 1);
  }

  /** `c in s` for one character. */
  predicate HasChar(s: string, c: char) {
    exists i :: 0 <= i < |s| && s[i] == c
  }

  /** A one-character substring test is a character test. */
  lemma ContainsOne(s: string, c: char)
    ensures Contains(s, [c]) <==> HasChar(s, c)
  {
    if HasChar(s, c) {
      var j :| 0 <= j < |s| && s[j] == c;
      assert OccursAt(s, [c], j);
    }
    if Contains(s, [c]) {
      var j :| 0 <= j <= |s| - 1 && OccursAt(s, [c], j);
      assert s[j] == s[j..j + 1][0];
    }
  }

  /** The simple lower-case mapping on characters. */
  function LowerChar(c: char): (r: char)
    ensures 'A' <= c <= 'Z' ==> r as int == c as int + 32
    ensures c as int < 0x80 && !('A' <= c <= 'Z') ==> r == c
  {
    if c as int < 0x80 then (if 'A' <= c <= 'Z' then (c as int + 32) as char else c)
    else LowerWide(c)
  }

  /** The simple lower-case mapping on characters outside ASCII. */
  function LowerWide(c: char): (r: char)
    requires c as int >= 0x80
  {
    if c as int < 0xD800 then LowerCode(c as int) as char else c
  }

  /** `str.lower()` on one character out of context: the simple mapping, except that U+0130
      (capital I with dot above) becomes `i` followed by U+0307 (combining dot above). */
  function LowerOf(c: char): (r: string)
    ensures c != '\U{0130}' ==> r == [LowerChar(c)]
  {
    if c == '\U{0130}' then "i\U{0307}" else [LowerChar(c)]
  }

  /** Lower-casing character by character, each character out of context. */
  function LowerChars(s: string): (r: string)
    ensures |r| >= |s|
    ensures '\U{0130}' !in s ==> |r| == |s| && forall i :: 0 <= i < |s| ==> r[i] == LowerChar(s[i])
  {
    if s == [] then [] else LowerOf(s[0]) + LowerChars(s[1..])
  }

  lemma {:induction false} LowerCharsAppend(a: string, b: string)
    ensures LowerChars(a + b) == LowerChars(a) + LowerChars(b)
  {
    if a == [] {
      assert a + b == b;
    } else {
      var ab := a + b;
      assert ab[0] == a[0] && ab[1..] == a[1..] + b;
      LowerCharsAppend(a[1..], b);
      calc {
        LowerChars(ab);
        LowerOf(a[0]) + LowerChars(a[1..] + b);
        LowerOf(a[0]) + (LowerChars(a[1..]) + LowerChars(b));
        (LowerOf(a[0]) + LowerChars(a[1..])) + LowerChars(b);
      }
    }
  }

  predicate CaseIgnorable(c: char) {
    CaseIgnorableCode(c as int)
  }

  predicate Cased(c: char) {
    CasedCode(c as int)
  }

  /** Going back from position `i` over case-ignorable characters, the first other
      character is cased. */
  predicate CasedBefore(s: string, i: int)
    requires 0 <= i <= |s|
    decreases i
  {
    i > 0 && if CaseIgnorable(s[i - 1]) then CasedBefore(s, i - 1) else Cased(s[i - 1])
  }

  /** Going forward from position `i` over case-ignorable characters, the first other
      character is cased. */
  predicate CasedAfter(s: string, i: int)
    requires 0 <= i <= |s|
    decreases |s| - i
  {
    i < |s| && if CaseIgnorable(s[i]) then CasedAfter(s, i + 1) else Cased(s[i])
  }

  /** The Final_Sigma context of a capital sigma at position `i`: a cased letter comes
      before it and none comes after it, case-ignorable characters skipped both ways. */
  predicate FinalSigma(s: string, i: int)
    requires 0 <= i < |s|
  {
    CasedBefore(s, i) && !CasedAfter(s, i + 1)
  }

  /** The small sigma a capital sigma at position `i` lowers to: final `ς` in the
      Final_Sigma context, `σ` elsewhere. */
  function SigmaAt(s: string, i: int): char
    requires 0 <= i < |s|
  {
    if FinalSigma(s, i) then '\U{03C2}' else '\U{03C3}'
  }

  /** `str.lower()` on the character at position `i`, in the context of the whole string. */
  function LowerAt(s: string, i: int): string
    requires 0 <= i < |s|
  {
    if s[i] == '\U{03A3}' then [SigmaAt(s, i)] else LowerOf(s[i])
  }

  /** `str.lower()` on the characters from position `i` on. */
  function LowerFrom(s: string, i: int): string
    requires 0 <= i <= |s|
    decreases |s| - i
  {
    if i == |s| then [] else LowerAt(s, i) + LowerFrom(s, i + 1)
  }

  /** `s` with every capital sigma replaced by the small sigma its context calls for. */
  function Sigmas(s: string): (r: string)
    ensures |r| == |s|
    ensures forall i :: 0 <= i < |s| ==> r[i] == if s[i] == '\U{03A3}' then SigmaAt(s, i) else s[i]
  {
    seq(|s|, i requires 0 <= i < |s| => if s[i] == '\U{03A3}' then SigmaAt(s, i) else s[i])
  }

  lemma SmallSigmas()
    ensures LowerChar('\U{03C2}') == '\U{03C2}' && LowerChar('\U{03C3}') == '\U{03C3}'
    ensures LowerChar('\U{03A3}') == '\U{03C3}'
  {
  }

  /** Lowering in context is lowering character by character once every capital sigma
      has been replaced by the small sigma of its context. */
  lemma {:induction false} LowerFromChars(s: string, i: int)
    requires 0 <= i <= |s|
    ensures LowerFrom(s, i) == LowerChars(Sigmas(s)[i..])
    decreases |s| - i
  {
    if i < |s| {
      var t := Sigmas(s);
      LowerFromChars(s, i + 1);
      assert t[i..][0] == t[i] && t[i..][1..] == t[i + 1..];
      SmallSigmas();
    }
  }

  /** `str.lower()`. */
  function Lower(s: string): (r: string)
    ensures |r| >= |s|
    ensures '\U{0130}' !in s ==> |r| == |s| && forall i :: 0 <= i < |s| ==>
              r[i] == if s[i] == '\U{03A3}' then SigmaAt(s, i) else LowerChar(s[i])
  {
    LowerFromChars(s, 0);
    SmallSigmas();
    assert Sigmas(s)[0..] == Sigmas(s);
    assert '\U{0130}' !in s ==> '\U{0130}' !in Sigmas(s);
    LowerFrom(s, 0)
  }

  lemma LowerCharIdempotent(c: char)
    ensures LowerChar(LowerChar(c)) == LowerChar(c)
  {
    if c as int < 0xD800 {
      LowerCodeIdempotent(c as int);
    }
  }

  lemma {:induction false} LowerCharsIdempotent(s: string)
    ensures LowerChars(LowerChars(s)) == LowerChars(s)
  {
    if s != [] {
      LowerCharsIdempotent(s[1..]);
      LowerCharsAppend(LowerOf(s[0]), LowerChars(s[1..]));
      if s[0] == '\U{0130}' {
        assert LowerChars("i\U{0307}") == "i\U{0307}";
      } else {
        LowerCharIdempotent(s[0]);
        assert LowerChars([LowerChar(s[0])]) == [LowerChar(LowerChar(s[0]))];
      }
    }
  }

  /** No character lowers to a capital sigma. */
  lemma {:induction false} LowerCharsNoSigma(s: string)
    ensures '\U{03A3}' !in LowerChars(s)
  {
    if s != [] {
      LowerCharsNoSigma(s[1..]);
      if s[0] != '\U{0130}' {
        LowerCharIdempotent(s[0]);
        SmallSigmas();
      }
    }
  }

  /** A string without a capital sigma is its own `Sigmas`. */
  lemma SigmasNone(s: string)
    requires '\U{03A3}' !in s
    ensures Sigmas(s) == s
  {
  }

  /** Lower-casing twice is lower-casing once. */
  lemma LowerIdempotent(s: string)
    ensures Lower(Lower(s)) == Lower(s)
  {
    var t := Sigmas(s);
    LowerFromChars(s, 0);
    assert t[0..] == t;
    LowerCharsNoSigma(t);
    SigmasNone(LowerChars(t));
    LowerFromChars(LowerChars(t), 0);
    assert Sigmas(LowerChars(t))[0..] == LowerChars(t);
    LowerCharsIdempotent(t);
  }

  /** Accented capitals are lower-cased too: a French word written in capitals has the
      lower case of the same word written in small letters. */
  lemma LowerAccented()
    ensures Lower("CRÉER") == Lower("créer")
  {
    assert '\U{0130}' !in "CRÉER" && '\U{0130}' !in "créer";
    assert '\U{03A3}' !in "CRÉER" && '\U{03A3}' !in "créer";
    assert LowerChar('É') == 'é' && LowerChar('é') == 'é';
  }

  /** A capital sigma at the end of a word lowers to the final sigma, elsewhere to the
      small sigma: `"ΟΣ"` gives `"ος"`, `"ΣΟ"` gives `"σο"`, and `"ΟΣ."` keeps its final
      sigma because the full stop is case-ignorable. */
  lemma LowerFinalSigma()
    ensures Lower("\U{039F}\U{03A3}") == "\U{03BF}\U{03C2}"
    ensures Lower("\U{03A3}\U{039F}") == "\U{03C3}\U{03BF}"
    ensures Lower("\U{039F}\U{03A3}\U{039F}") == "\U{03BF}\U{03C3}\U{03BF}"
    ensures Lower("\U{039F}\U{03A3}.") == "\U{03BF}\U{03C2}."
  {
    var a, b, c, d := "\U{039F}\U{03A3}", "\U{03A3}\U{039F}", "\U{039F}\U{03A3}\U{039F}", "\U{039F}\U{03A3}.";
    assert FinalSigma(a, 1);
    assert !FinalSigma(b, 0);
    assert CasedAfter(c, 2) && !FinalSigma(c, 1);
    assert !CasedAfter(d, 3) && !CasedAfter(d, 2) && FinalSigma(d, 1);
    assert LowerChar('\U{039F}') == '\U{03BF}';
  }

  /** A character below U+0080. */
  predicate IsAscii(c: char) {
    c as int < 0x80
  }

  /** Lower-casing of the letters `A` to `Z` only, every other character kept. */
  function AsciiLowerChar(c: char): (r: char)
    ensures 'A' <= c <= 'Z' ==> r as int == c as int + 32
    ensures !('A' <= c <= 'Z') ==> r == c
  {
    if 'A' <= c <= 'Z' then (c as int + 32) as char else c
  }

  /** Lower-casing of the letters `A` to `Z` only, in a string. */
  function AsciiLower(s: string): (r: string)
    ensures |r| == |s|
    ensures forall i :: 0 <= i < |s| ==> r[i] == AsciiLowerChar(s[i])
  {
    if s == [] then [] else [AsciiLowerChar(s[0])] + AsciiLower(s[1..])
  }

  /** Only U+0130 lowers to something that starts with an ASCII character, and it
      brings U+0307 along. */
  lemma LowerOfAscii(c: char)
    ensures IsAscii(c) ==> LowerOf(c) == [AsciiLowerChar(c)]
    ensures !IsAscii(c) ==> c == '\U{0130}' || forall k :: 0 <= k < |LowerOf(c)| ==> !IsAscii(LowerOf(c)[k])
    ensures '\U{0307}' in LowerOf(c) || IsAscii(c) == IsAscii(LowerChar(c))
  {
  }

  /** The character-by-character lowering compared with an ASCII word. */
  lemma {:induction false} LowerCharsToAscii(t: string, w: string)
    requires forall k :: 0 <= k < |w| ==> IsAscii(w[k])
    ensures LowerChars(t) == w <==> AsciiLower(t) == w
  {
    if t == [] {
    } else {
      var head := LowerOf(t[0]);
      LowerOfAscii(t[0]);
      assert LowerChars(t) == head + LowerChars(t[1..]);
      if IsAscii(t[0]) {
        if w != [] {
          assert LowerChars(t) == w <==> head[0] == w[0] && LowerChars(t[1..]) == w[1..];
          assert AsciiLower(t) == w <==> head[0] == w[0] && AsciiLower(t[1..]) == w[1..];
          LowerCharsToAscii(t[1..], w[1..]);
        }
      } else {
        assert AsciiLower(t)[0] == t[0];
        if t[0] == '\U{0130}' {
          assert LowerChars(t)[1] == '\U{0307}';
        } else {
          assert !IsAscii(LowerChars(t)[0]);
        }
      }
    }
  }

  /** Replacing capital sigmas by small ones changes no comparison of the `A`-to-`Z`
      lowering with an ASCII word: both sides hold a non-ASCII character there. */
  lemma SigmasToAscii(t: string, w: string)
    requires forall k :: 0 <= k < |w| ==> IsAscii(w[k])
    ensures AsciiLower(Sigmas(t)) == w <==> AsciiLower(t) == w
  {
    if '\U{03A3}' in t {
      var i :| 0 <= i < |t| && t[i] == '\U{03A3}';
      assert !IsAscii(AsciiLower(t)[i]) && !IsAscii(AsciiLower(Sigmas(t))[i]);
    } else {
      SigmasNone(t);
    }
  }

  /** When the lower case of `t` is to be compared with an ASCII word, the full
      lower-casing and the `A`-to-`Z` one give the same answer. */
  lemma LowerToAscii(t: string, w: string)
    requires forall k :: 0 <= k < |w| ==> IsAscii(w[k])
    ensures Lower(t) == w <==> AsciiLower(t) == w
  {
    LowerFromChars(t, 0);
    assert Sigmas(t)[0..] == Sigmas(t);
    LowerCharsToAscii(Sigmas(t), w);
    SigmasToAscii(t, w);
  }

  /** `sep.join(parts)`. */
  function Join(sep: string, parts: seq<string>): string {
    if parts == [] then ""
    else if |parts| == 1 then parts[0]
    else parts[0] + sep + Join(sep, parts[1..])
  }

  /** Joining a list that grows by one element adds the separator and the element. */
  lemma {:induction false} JoinSnoc(sep: string, parts: seq<string>, x: string)
    requires parts != []
    ensures Join(sep, parts + [x]) == Join(sep, parts) + sep + x
  {
    if |parts| == 1 {
      assert parts + [x] == [parts[0], x];
    } else {
      assert (parts + [x])[1..] == parts[1..] + [x];
      JoinSnoc(sep, parts[1..], x);
    }
  }

  /** `"".join` of a list that grows by one element. */
  lemma JoinNothingSnoc(parts: seq<string>, x: string)
    ensures Join("", parts + [x]) == Join("", parts) + x
  {
    if parts == [] {
      assert parts + [x] == [x];
    } else {
      JoinSnoc("", parts, x);
    }
  }

  /** Joining two non-empty lists one after the other puts one separator between them. */
  lemma {:induction false} JoinAppend(sep: string, a: seq<string>, b: seq<string>)
    requires a != [] && b != []
    ensures Join(sep, a + b) == Join(sep, a) + sep + Join(sep, b)
  {
    if |a| == 1 {
      assert (a + b)[1..] == b;
    } else {
      assert (a + b)[1..] == a[1..] + b;
      JoinAppend(sep, a[1..], b);
    }
  }

  /** `s.split()` with no argument: the maximal runs of non-whitespace, in order. */
  function SplitWhitespace(s: string): seq<string>
    decreases |s|
  {
    var t := LStrip(s);
    if t == [] then []
    else
      var n := WordLength(t);
      [t[..n]] + SplitWhitespace(t[n..])
  }

  /** Every part of `s.split()` is a non-empty run without whitespace. */
  lemma {:induction false} SplitWhitespaceWords(s: string)
    ensures forall k :: 0 <= k < |SplitWhitespace(s)| ==> SplitWhitespace(s)[k] != [] && NoSpace(SplitWhitespace(s)[k])
    decreases |s|
  {
    var t := LStrip(s);
    if t != [] {
      var n := WordLength(t);
      var w := t[..n];
      assert n > 0 by { assert !IsSpace(t[0]); }
      assert NoSpace(w) by { assert forall i :: 0 <= i < n ==> w[i] == t[i]; }
      SplitWhitespaceWords(t[n..]);
      var rest := SplitWhitespace(t[n..]);
      var parts := [w] + rest;
      assert SplitWhitespace(s) == parts;
      forall k | 0 <= k < |parts| ensures parts[k] != [] && NoSpace(parts[k]) {
        if k > 0 {
          assert parts[k] == rest[k - 1];
        }
      }
    }
  }

  /** `s.split()` is empty exactly when `s` is blank. */
  lemma SplitWhitespaceBlank(s: string)
    ensures SplitWhitespace(s) == [] <==> Blank(s)
  {
    var t := LStrip(s);
    if t != [] {
      assert !IsSpace(s[|s| - |t|]);
    }
  }

  lemma {:induction false} WordLengthOf(w: string, rest: string)
    requires NoSpace(w) && (rest == [] || IsSpace(rest[0]))
    ensures WordLength(w + rest) == |w|
  {
    if w != [] {
      assert (w + rest)[1..] == w[1..] + rest;
      WordLengthOf(w[1..], rest);
    } else {
      assert w + rest == rest;
    }
  }

  /** A word, then whitespace or nothing: `split()` gives the word first. */
  lemma SplitWord(w: string, rest: string)
    requires w != [] && NoSpace(w) && (rest == [] || IsSpace(rest[0]))
    ensures SplitWhitespace(w + rest) == [w] + SplitWhitespace(rest)
  {
    WordLengthOf(w, rest);
    assert (w + rest)[..|w|] == w && (w + rest)[|w|..] == rest;
  }

  lemma SplitLeadingSpace(rest: string)
    ensures SplitWhitespace(" " + rest) == SplitWhitespace(rest)
  {
    assert (" " + rest)[1..] == rest;
    assert LStrip(" " + rest) == LStrip(rest);
  }

  /** Words without whitespace, joined by single spaces, split back into the words. */
  lemma {:induction false} SplitWhitespaceJoin(words: seq<string>)
    requires forall k :: 0 <= k < |words| ==> words[k] != [] && NoSpace(words[k])
    ensures SplitWhitespace(Join(" ", words)) == words
  {
    if |words| == 1 {
      assert Join(" ", words) == words[0];
      SplitWord(words[0], "");
      assert words[0] + "" == words[0];
    } else if |words| > 1 {
      var tail := words[1..];
      forall k | 0 <= k < |tail| ensures tail[k] != [] && NoSpace(tail[k]) {
        assert tail[k] == words[k + 1];
      }
      SplitWhitespaceJoin(tail);
      assert words[0] != [] && NoSpace(words[0]);
      SplitJoinStep(words);
    }
  }

  lemma SplitJoinStep(words: seq<string>)
    requires |words| > 1 && words[0] != [] && NoSpace(words[0])
    requires SplitWhitespace(Join(" ", words[1..])) == words[1..]
    ensures SplitWhitespace(Join(" ", words)) == words
  {
    var rest := Join(" ", words[1..]);
    assert Join(" ", words) == words[0] + (" " + rest);
    SplitWord(words[0], " " + rest);
    SplitLeadingSpace(rest);
    HeadTail(words);
  }

  /** Length of the leading run of non-whitespace characters. */
  function WordLength(s: string): (n: nat)
    ensures n <= |s|
    ensures forall i :: 0 <= i < n ==> !IsSpace(s[i])
    ensures n < |s| ==> IsSpace(s[n])
  {
    if s == [] || IsSpace(s[0]) then 0 else 1 + WordLength(s[1..])
  }

  /** `s.replace(pat, rep)`: every non-overlapping occurrence, scanning left to right. */
  function Replace(s: string, pat: string, rep: string): (r: string)
    decreases |s|
  {
    if pat == [] then ReplaceEmpty(s, rep)
    else if |s| < |pat| then s
    else if s[..|pat|] == pat then rep + Replace(s[|pat|..], pat, rep)
    else [s[0]] + Replace(s[1..], pat, rep)
  }

  /** `s.replace("", rep)` puts `rep` before every character and at the end. */
  function ReplaceEmpty(s: string, rep: string): string {
    if s == [] then rep else rep + [s[0]] + ReplaceEmpty(s[1..], rep)
  }

  /** A string with no occurrence of `pat` comes out of `replace` unchanged. */
  lemma {:induction false} ReplaceAbsent(s: string, pat: string, rep: string)
    requires pat != [] && !Contains(s, pat)
    ensures Replace(s, pat, rep) == s
  {
    if |s| >= |pat| {
      assert s[0..|pat|] == s[..|pat|];
      assert !OccursAt(s, pat, 0);
      forall i | OccursAt(s[1..], pat, i) ensures false {
        assert s[1..][i..i + |pat|] == s[i + 1..i + 1 + |pat|];
        assert OccursAt(s, pat, i + 1);
      }
      assert !Contains(s[1..], pat);
      ReplaceAbsent(s[1..], pat, rep);
      assert s == [s[0]] + s[1..];
    }
  }

  // ----- decimal numbers -----

  function DigitChar(d: nat): char
    requires d < 10
  {
    ('0' as int + d) as char
  }

  predicate IsDigit(c: char) { '0' <= c <= '9' }

  /** `str(n)` for a natural number. */
  function NatToString(n: nat): (r: string)
    ensures r != [] && forall i :: 0 <= i < |r| ==> IsDigit(r[i])
    ensures |r| > 1 ==> r[0] != '0'
  {
    if n < 10 then [DigitChar(n)] else NatToString(n / 10) + [DigitChar(n % 10)]
  }

  /** `str(i)` for an integer. */
  function IntToString(i: int): (r: string)
    ensures r != []
  {
    if i < 0 then "-" + NatToString(-i) else NatToString(i)
  }

  /** The value of a string of decimal digits. */
  function DigitsValue(s: string): nat
    requires forall i :: 0 <= i < |s| ==> IsDigit(s[i])
  {
    if s == [] then 0
    else
      var d := s[|s| - 1] as int - '0' as int;
      assert IsDigit(s[|s| - 1]);
      DigitsValue(s[..|s| - 1]) * 10 + d
  }

  predicate AllDigits(s: string) {
    s != [] && forall i :: 0 <= i < |s| ==> IsDigit(s[i])
  }

  /** `int(s)` on ASCII decimal text: surrounding whitespace and one sign are accepted;
      anything else is the `ValueError` Python raises. */
  function ParseInt(s: string): Result<int> {
    var t := Strip(s);
    if AllDigits(t) then Ok(DigitsValue(t))
    else if |t| > 1 && (t[0] == '-' || t[0] == '+') && AllDigits(t[1..]) then
      var v: int := DigitsValue(t[1..]);
      Ok(if t[0] == '-' then -v else v)
    else Fail(ValueError("invalid literal for int() with base 10: '" + s + "'"))
  }

  lemma {:induction false} NatToStringValue(n: nat)
    ensures DigitsValue(NatToString(n)) == n
  {
    if n >= 10 {
      var r := NatToString(n);
      assert r[..|r| - 1] == NatToString(n / 10);
      NatToStringValue(n / 10);
    }
  }

  /** `int(str(i)) == i`, the partner of `IntToString`. */
  lemma IntToStringRoundTrip(i: int)
    ensures ParseInt(IntToString(i)) == Ok(i)
  {
    var r := IntToString(i);
    assert IsStripped(r);
    StripOfStripped(r);
    if i < 0 {
      var d := NatToString(-i);
      NatToStringValue(-i);
      assert r == "-" + d && r[1..] == d;
      assert !IsDigit(r[0]);
    } else {
      NatToStringValue(i);
    }
  }

  /** Distinct integers print differently. */
  lemma IntToStringInjective(i: int, j: int)
    requires i != j
    ensures IntToString(i) != IntToString(j)
  {
    IntToStringRoundTrip(i);
    IntToStringRoundTrip(j);
  }

  /** Only whitespace: what `not s.strip()` tests. */
  predicate Blank(s: string) {
    forall i :: 0 <= i < |s| ==> IsSpace(s[i])
  }

  /** `s.strip()` is empty exactly when `s` is blank. */
  lemma BlankIsStripEmpty(s: string)
    ensures Blank(s) <==> Strip(s) == ""
  {
  }

  lemma StripNothing()
    ensures Strip("") == ""
  {
    assert LStrip("") == "";
    assert RStrip("") == "";
  }

  /** The test `s.strip() == ""`. */
  method StripsToEmpty(s: string) returns (b: bool)
    ensures b <==> Blank(s)
  {
    b := Strip(s) == "";
    BlankIsStripEmpty(s);
  }

  /** Stripping a string does not change whether it is blank. */
  lemma BlankStrip(s: string)
    ensures Blank(Strip(s)) <==> Blank(s)
  {
    BlankIsStripEmpty(s);
    BlankIsStripEmpty(Strip(s));
    StripIdempotent(s);
  }

  /** `s.split(c)` for a one-character separator: the pieces between the separators,
      empty ones included; never an empty list. */
  function SplitOn(s: string, c: char): (parts: seq<string>)
    ensures parts != []
    decreases |s|
  {
    if s == [] then [""]
    else if s[0] == c then [""] + SplitOn(s[1..], c)
    else
      var r := SplitOn(s[1..], c);
      [[s[0]] + r[0]] + r[1..]
  }

  lemma JoinCons(sep: string, x: string, r: seq<string>)
    requires r != []
    ensures Join(sep, [x + r[0]] + r[1..]) == x + Join(sep, r)
  {
    if |r| > 1 {
      assert ([x + r[0]] + r[1..])[1..] == r[1..];
    }
  }

  /** Joining the pieces with the separator gives the string back. */
  lemma {:induction false} JoinSplit(s: string, c: char)
    ensures Join([c], SplitOn(s, c)) == s
    decreases |s|
  {
    if s != [] {
      var r := SplitOn(s[1..], c);
      JoinSplit(s[1..], c);
      if s[0] == c {
        assert ([""] + r)[1..] == r;
        assert s == [c] + s[1..];
      } else {
        JoinCons([c], [s[0]], r);
        assert s == [s[0]] + s[1..];
      }
    }
  }

  /** Splitting lines joined by a separator no line contains gives the lines back. */
  lemma {:induction false} SplitJoin(parts: seq<string>, c: char)
    requires parts != []
    requires forall k :: 0 <= k < |parts| ==> c !in parts[k]
    ensures SplitOn(Join([c], parts), c) == parts
  {
    if |parts| == 1 {
      SplitPlain(parts[0], c);
    } else {
      SplitJoin(parts[1..], c);
      SplitPrefix(parts[0], Join([c], parts[1..]), c);
      assert Join([c], parts) == parts[0] + [c] + Join([c], parts[1..]);
      assert parts == [parts[0]] + parts[1..];
    }
  }

  lemma {:induction false} SplitPlain(p: string, c: char)
    requires c !in p
    ensures SplitOn(p, c) == [p]
  {
    if p != [] {
      SplitPlain(p[1..], c);
      assert p == [p[0]] + p[1..];
    }
  }

  lemma {:induction false} SplitPrefix(p: string, rest: string, c: char)
    requires c !in p
    ensures SplitOn(p + [c] + rest, c) == [p] + SplitOn(rest, c)
  {
    if p == [] {
      assert p + [c] + rest == [c] + rest;
      assert ([c] + rest)[1..] == rest;
    } else {
      SplitPrefix(p[1..], rest, c);
      var w := p + [c] + rest;
      assert w[0] == p[0] && w[1..] == p[1..] + [c] + rest;
      assert p == [p[0]] + p[1..];
    }
  }
}
