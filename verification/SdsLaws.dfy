/** What lines mean to sdssplitargs of deps/hiredis/sds.c when they are not quoted by
    sdscatrepr: plain words, single quotes, quotes that are left open. */
module SdsLaws {
  import opened Options
  import opened SdsQuote

  // ------------------------------------------------------------- plain words

  /** A character that a plain word is made of. */
  predicate IsWordChar(c: char)
  {
    c != NUL && c !in {' ', '\n', '\r', '\t', '"', '\''}
  }

  /** A word that begins a token; the first character is no blank of any kind. */
  ghost predicate IsWord(w: string)
  {
    w != [] && !IsSpace(w[0]) && forall i :: 0 <= i < |w| ==> IsWordChar(w[i])
  }

  /** Blanks behind a word: the first one must end it, which a vertical tab or a form feed
      does not. */
  ghost predicate IsGap(g: string)
  {
    g != [] && g[0] in {' ', '\n', '\r', '\t'} && Blank(g)
  }

  ghost predicate Blank(g: string)
  {
    forall i :: 0 <= i < |g| ==> IsSpace(g[i])
  }

  /** Plain characters are read as they are. */
  lemma {:induction false} PlainStep(w: string, t: string, current: string)
    requires forall i :: 0 <= i < |w| ==> IsWordChar(w[i])
    ensures ReadToken(w + t, Plain, current) == ReadToken(t, Plain, current + w)
    decreases |w|
  {
    if w == [] {
      assert w + t == t && current + w == current;
    } else {
      assert (w + t)[0] == w[0] && (w + t)[1..] == w[1..] + t;
      PlainStep(w[1..], t, current + [w[0]]);
      assert current + [w[0]] + w[1..] == current + w;
    }
  }

  lemma {:induction false} SkipGap(g: string, t: string)
    requires Blank(g)
    ensures SkipBlanks(g + t) == SkipBlanks(t) && Split(g + t) == Split(t)
    decreases |g|
  {
    if g == [] {
      assert g + t == t;
    } else {
      assert (g + t)[0] == g[0] && (g + t)[1..] == g[1..] + t;
      SkipGap(g[1..], t);
    }
  }

  /** A word before a blank or the end is a token. */
  lemma WordToken(w: string, g: string, t: string)
    requires IsWord(w) && (IsGap(g) || (g == [] && t == []))
    ensures Split(w + (g + t)) == match Split(t) case None => None case Some(vs) => Some([w] + vs)
  {
    var s := w + (g + t);
    assert s[0] == w[0];
    PlainStep(w, g + t, "");
    assert "" + w == w;
    if g != [] {
      assert (g + t)[0] == g[0] && (g + t)[1..] == g[1..] + t;
      SkipGap(g[1..], t);
    }
  }

  /** Words with a gap behind each. */
  function Spaced(words: seq<string>, gaps: seq<string>): string
    requires |words| == |gaps|
  {
    if words == [] then "" else words[0] + (gaps[0] + Spaced(words[1..], gaps[1..]))
  }

  /** The words of the front of a line are its first tokens. */
  lemma {:induction false} SplitFront(words: seq<string>, gaps: seq<string>, t: string)
    requires |words| == |gaps| && forall i :: 0 <= i < |words| ==> IsWord(words[i]) && IsGap(gaps[i])
    ensures Split(Spaced(words, gaps) + t) == match Split(t) case None => None case Some(vs) => Some(words + vs)
    decreases |words|
  {
    if words == [] {
      assert Spaced(words, gaps) + t == t;
      match Split(t) case None => {} case Some(vs) => assert words + vs == vs;
    } else {
      var rest := Spaced(words[1..], gaps[1..]) + t;
      assert Spaced(words, gaps) + t == words[0] + (gaps[0] + rest);
      SplitFront(words[1..], gaps[1..], t);
      WordToken(words[0], gaps[0], rest);
      match Split(t) case None => {} case Some(vs) => assert [words[0]] + (words[1..] + vs) == words + vs;
    }
  }

  /** Plain words with blanks before, between and, if one likes, behind them split into
      exactly those words. */
  lemma SplitWords(before: string, words: seq<string>, gaps: seq<string>, last: string)
    requires Blank(before) && IsWord(last)
    requires |words| == |gaps| && forall i :: 0 <= i < |words| ==> IsWord(words[i]) && IsGap(gaps[i])
    ensures Split(before + Spaced(words, gaps)) == Some(words)
    ensures Split(before + (Spaced(words, gaps) + last)) == Some(words + [last])
  {
    SkipGap(before, Spaced(words, gaps));
    SkipGap(before, Spaced(words, gaps) + last);
    SplitFront(words, gaps, "");
    SplitFront(words, gaps, last);
    assert Spaced(words, gaps) + "" == Spaced(words, gaps) && words + [] == words;
    WordToken(last, "", "");
    assert last + ("" + "") == last && [last] + [] == [last];
  }

  // ---------------------------------------------------------- single quotes

  /** A string between single quotes, where a single quote is escaped. */
  function InSingle(p: string): string
  {
    if p == [] then "" else (if p[0] == '\'' then ['\\', '\''] else [p[0]]) + InSingle(p[1..])
  }

  ghost predicate NoNul(p: string)
  {
    forall i :: 0 <= i < |p| ==> p[i] != NUL
  }

  /** Inside single quotes everything but an escaped quote is read as it is. */
  lemma {:induction false} SingleStep(p: string, t: string, current: string)
    requires NoNul(p) && (p != [] && p[|p| - 1] == '\\' ==> At(t, 0) != '\'')
    ensures ReadToken(InSingle(p) + t, SingleQuoted, current) == ReadToken(t, SingleQuoted, current + p)
    decreases |p|
  {
    if p == [] {
      assert InSingle(p) + t == t && current + p == current;
    } else {
      var u := InSingle(p[1..]) + t;
      SingleHead(p[1..], t);
      if p[0] == '\'' {
        assert InSingle(p) + t == ['\\', '\''] + u;
        assert (['\\', '\''] + u)[2..] == u;
      } else {
        assert InSingle(p) + t == [p[0]] + u;
        assert ([p[0]] + u)[1..] == u;
      }
      SingleStep(p[1..], t, current + [p[0]]);
      assert current + [p[0]] + p[1..] == current + p;
    }
  }

  /** The quotes of the string do not come first. */
  lemma SingleHead(p: string, t: string)
    ensures p != [] ==> At(InSingle(p) + t, 0) != '\''
    ensures p == [] ==> At(InSingle(p) + t, 0) == At(t, 0)
  {
    assert p == [] ==> InSingle(p) + t == t;
  }

  /** A string in single quotes splits into itself, unless its last character is a
      backslash: then that escapes the closing quote, and the line is unbalanced. */
  lemma SplitSingle(p: string)
    requires NoNul(p)
    ensures Split(['\''] + (InSingle(p) + ['\''])) ==
            if p != [] && p[|p| - 1] == '\\' then None else Some([p])
  {
    var u := InSingle(p) + ['\''];
    EnterSingle(u);
    ReadSingle(p, u);
    if p != [] && p[|p| - 1] == '\\' { NoToken(['\''] + u); } else { OneToken(['\''] + u, p); }
  }

  lemma ReadSingle(p: string, u: string)
    requires NoNul(p) && u == InSingle(p) + ['\'']
    ensures ReadToken(u, SingleQuoted, "") == if p != [] && p[|p| - 1] == '\\' then Unbalanced else Token(p, "")
  {
    if p != [] && p[|p| - 1] == '\\' {
      var q := p[..|p| - 1];
      assert q + ['\\'] == p;
      SingleLast(q);
      SingleStep(q, ['\\', '\''], "");
      EndSingle("" + q);
    } else {
      SingleStep(p, ['\''], "");
      EndSingle("" + p);
      assert "" + p == p;
    }
  }

  lemma EnterSingle(u: string)
    ensures ReadToken(['\''] + u, Plain, "") == ReadToken(u, SingleQuoted, "")
  {
    assert (['\''] + u)[0] == '\'' && (['\''] + u)[1..] == u;
  }

  lemma EndSingle(current: string)
    ensures ReadToken(['\''], SingleQuoted, current) == Token(current, "")
    ensures ReadToken(['\\', '\''], SingleQuoted, current) == Unbalanced
  {
    assert (['\''])[1..] == "" && (['\\', '\''])[2..] == "";
  }

  lemma OneToken(s: string, p: string)
    requires At(s, 0) == '\'' && ReadToken(s, Plain, "") == Token(p, "")
    ensures Split(s) == Some([p])
  {
    assert SkipBlanks(s) == s && Split("") == Some([]) && [p] + [] == [p];
  }

  lemma NoToken(s: string)
    requires At(s, 0) == '\'' && ReadToken(s, Plain, "") == Unbalanced
    ensures Split(s) == None
  {
    assert SkipBlanks(s) == s;
  }

  lemma {:induction false} SingleLast(q: string)
    ensures InSingle(q + ['\\']) + ['\''] == InSingle(q) + ['\\', '\'']
  {
    if q == [] {
      assert (q + ['\\'])[1..] == [];
    } else {
      var h := if q[0] == '\'' then ['\\', '\''] else [q[0]];
      assert (q + ['\\'])[0] == q[0] && (q + ['\\'])[1..] == q[1..] + ['\\'];
      SingleLast(q[1..]);
      assert h + InSingle(q[1..] + ['\\']) + ['\''] == h + (InSingle(q[1..] + ['\\']) + ['\'']);
    }
  }

  // ------------------------------------------------------------ open quotes

  lemma {:induction false} OpenQuote(body: string, current: string)
    ensures '"' !in body ==> ReadToken(body, Quoted, current) == Unbalanced
    ensures '\'' !in body ==> ReadToken(body, SingleQuoted, current) == Unbalanced
    decreases |body|
  {
    if body != [] {
      if IsHexEscape(body) {
        OpenQuote(body[4..], current + [(HexValue(body[2]) * 16 + HexValue(body[3])) as char]);
      } else if body[0] == '\\' && At(body, 1) != NUL {
        OpenQuote(body[2..], current + [Unescape(body[1])]);
      }
      OpenQuote(body[1..], current + [body[0]]);
    }
  }

  /** A quote that is opened, at the beginning of a word or inside one, and never closed
      makes the line unbalanced, whatever words there are before. */
  lemma SplitOpen(words: seq<string>, gaps: seq<string>, w: string, quote: char, body: string)
    requires |words| == |gaps| && forall i :: 0 <= i < |words| ==> IsWord(words[i]) && IsGap(gaps[i])
    requires (w == [] || IsWord(w)) && quote in {'"', '\''} && quote !in body
    ensures Split(Spaced(words, gaps) + (w + ([quote] + body))) == None
  {
    var t := w + ([quote] + body);
    SplitFront(words, gaps, t);
    PlainStep(w, [quote] + body, "");
    assert t[0] == if w == [] then quote else w[0];
    assert ([quote] + body)[1..] == body;
    OpenQuote(body, "" + w);
  }

  /** Neither may a closing quote be followed by anything but a blank. */
  lemma SplitGlued(p: string, c: char, t: string)
    requires Octets(p) && c != NUL && !IsSpace(c)
    ensures Split(Repr(p) + ([c] + t)) == None
  {
    var s := Repr(p) + ([c] + t);
    assert s[0] == '"' && s[1..] == EscapeAll(p) + ("\"" + ([c] + t));
    EscapeAllStep(p, "\"" + ([c] + t), "");
  }

  // ---------------------------------------------------------------- escapes

  /** Any other escaped character stands for itself, and both cases of hexadecimal digits
      are read. */
  lemma OtherEscapes(c: char, t: string, current: string)
    requires c != NUL && c !in {'n', 'r', 't', 'b', 'a'}
    requires !(c == 'x' && IsHexDigit(At(t, 0)) && IsHexDigit(At(t, 1)))
    ensures ReadToken(['\\', c] + t, Quoted, current) == ReadToken(t, Quoted, current + [c])
  {
    var s := ['\\', c] + t;
    assert At(s, 2) == At(t, 0) && At(s, 3) == At(t, 1) && s[2..] == t;
  }

  lemma ControlEscapes(t: string, current: string)
    ensures ReadToken(['\\', 'n'] + t, Quoted, current) == ReadToken(t, Quoted, current + [10 as char])
    ensures ReadToken(['\\', 'r'] + t, Quoted, current) == ReadToken(t, Quoted, current + [13 as char])
    ensures ReadToken(['\\', 't'] + t, Quoted, current) == ReadToken(t, Quoted, current + [9 as char])
    ensures ReadToken(['\\', 'b'] + t, Quoted, current) == ReadToken(t, Quoted, current + [8 as char])
    ensures ReadToken(['\\', 'a'] + t, Quoted, current) == ReadToken(t, Quoted, current + [7 as char])
  {
    assert (['\\', 'n'] + t)[2..] == t && (['\\', 'r'] + t)[2..] == t && (['\\', 't'] + t)[2..] == t;
    assert (['\\', 'b'] + t)[2..] == t && (['\\', 'a'] + t)[2..] == t;
  }

  lemma HexEscape(hi: char, lo: char, t: string, current: string)
    requires IsHexDigit(hi) && IsHexDigit(lo)
    ensures ReadToken(['\\', 'x', hi, lo] + t, Quoted, current) ==
            ReadToken(t, Quoted, current + [(16 * Nibble(hi) + Nibble(lo)) as char])
  {
    var s := ['\\', 'x', hi, lo] + t;
    assert s[4..] == t;
  }

  function Nibble(c: char): (n: nat)
    requires IsHexDigit(c)
    ensures n < 16
  {
    if c <= '9' then c as int - 48 else if c <= 'F' then c as int - 55 else c as int - 87
  }

  /** What sdscatrepr writes for an octet: sds.c:556-572. */
  lemma WritesOctet(c: char)
    requires IsOctet(c)
    ensures c == '\\' || c == '"' ==> Escape(c) == ['\\', c]
    ensures c as int == 10 ==> Escape(c) == "\\n"
    ensures c as int == 13 ==> Escape(c) == "\\r"
    ensures c as int == 9 ==> Escape(c) == "\\t"
    ensures c as int == 7 ==> Escape(c) == "\\a"
    ensures c as int == 8 ==> Escape(c) == "\\b"
    ensures 32 <= c as int <= 126 && c != '\\' && c != '"' ==> Escape(c) == [c]
    ensures (c as int < 32 || 126 < c as int) && c as int !in {7, 8, 9, 10, 13} ==>
              var e := Escape(c);
              && |e| == 4 && e[0] == '\\' && e[1] == 'x' && 16 * LowerNibble(e[2]) + LowerNibble(e[3]) == c as int
  {}

  /** The value of a digit as %x prints it. */
  function LowerNibble(c: char): int
  {
    if '0' <= c <= '9' then c as int - 48 else if 'a' <= c <= 'f' then c as int - 87 else 256
  }
}
