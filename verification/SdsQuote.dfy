/** Quoting and splitting of deps/hiredis/sds.c: sdscatrepr and sdssplitargs.
    Characters stand for bytes; the character classes are those of the C locale. */
module SdsQuote {
  import opened Options

  predicate IsOctet(c: char) { c as int < 256 }

  ghost predicate Octets(s: string)
  {
    forall i :: 0 <= i < |s| ==> IsOctet(s[i])
  }

  predicate IsPrint(c: char) { ' ' <= c <= '~' }

  predicate IsSpace(c: char) { c == ' ' || 9 <= c as int <= 13 }

  const BELL := 7 as char
  const BACKSPACE := 8 as char
  const NUL := '\0'

  // --------------------------------------------------------------- hex digits

  /** is_hex_digit, sds.c:580-583. */
  predicate IsHexDigit(c: char)
  {
    ('0' <= c <= '9') || ('a' <= c <= 'f') || ('A' <= c <= 'F')
  }

  /** hex_digit_to_int, sds.c:587-607. */
  function HexValue(c: char): (n: nat)
    ensures n < 16
  {
    if '0' <= c <= '9' then c as int - '0' as int
    else if 'a' <= c <= 'f' then c as int - 'a' as int + 10
    else if 'A' <= c <= 'F' then c as int - 'A' as int + 10
    else 0
  }

  /** A digit as %x prints it. */
  function HexDigit(n: nat): (c: char)
    requires n < 16
    ensures IsHexDigit(c) && HexValue(c) == n
  {
    if n < 10 then ('0' as int + n) as char else ('a' as int + n - 10) as char
  }

  // -------------------------------------------------------------------- quote

  /** sds.c:556-572. */
  function Escape(c: char): (s: string)
    requires IsOctet(c)
  {
    if c == '\\' || c == '"' then ['\\', c]
    else if c == '\n' then "\\n"
    else if c == '\r' then "\\r"
    else if c == '\t' then "\\t"
    else if c == BELL then "\\a"
    else if c == BACKSPACE then "\\b"
    else if IsPrint(c) then [c]
    else ['\\', 'x', HexDigit(c as int / 16), HexDigit(c as int % 16)]
  }

  function EscapeAll(s: string): string
    requires Octets(s)
  {
    if s == [] then [] else Escape(s[0]) + EscapeAll(s[1..])
  }

  function Repr(s: string): string
    requires Octets(s)
  {
    "\"" + EscapeAll(s) + "\""
  }

  /** sdscatrepr, sds.c:553-576. */
  method CatRepr(s: string, p: string) returns (r: string)
    requires Octets(p)
    ensures r == s + Repr(p)
  {
    r := s + "\"";
    var i := 0;
    assert p[..0] == [];
    while i < |p|
      invariant i <= |p| && r == s + "\"" + EscapeAll(p[..i])
    {
      assert p[..i + 1] == p[..i] + [p[i]];
      EscapeAppend(p[..i], p[i]);
      r := r + Escape(p[i]);
      i := i + 1;
    }
    assert p[..|p|] == p;
    r := r + "\"";
  }

  lemma {:induction false} EscapeAppend(s: string, c: char)
    requires Octets(s) && IsOctet(c)
    ensures EscapeAll(s + [c]) == EscapeAll(s) + Escape(c)
    decreases |s|
  {
    if s == [] {
      assert [c][1..] == [];
    } else {
      assert (s + [c])[1..] == s[1..] + [c];
      EscapeAppend(s[1..], c);
    }
  }

  // -------------------------------------------------------------------- split

  /** The character at an index of a line that ends in a NUL. */
  function At(s: string, i: nat): char { if i < |s| then s[i] else NUL }

  datatype Mode = Plain | Quoted | SingleQuoted

  datatype TokenResult = Token(value: string, rest: string) | Unbalanced

  function Unescape(c: char): char
  {
    match c
    case 'n' => '\n'
    case 'r' => '\r'
    case 't' => '\t'
    case 'b' => BACKSPACE
    case 'a' => BELL
    case _ => c
  }

  predicate IsHexEscape(s: string)
  {
    At(s, 0) == '\\' && At(s, 1) == 'x' && IsHexDigit(At(s, 2)) && IsHexDigit(At(s, 3))
  }

  /** A closing quote must be followed by a space or nothing at all. */
  function CloseQuote(s: string, current: string): TokenResult
    requires |s| > 0
  {
    if At(s, 1) != NUL && !IsSpace(At(s, 1)) then Unbalanced else Token(current, s[1..])
  }

  /** One token, from the middle of it on. */
  function ReadToken(s: string, mode: Mode, current: string): (r: TokenResult)
    ensures r.Token? ==> |r.rest| <= |s|
    decreases |s|
  {
    var c := At(s, 0);
    match mode
    case Quoted =>
      if IsHexEscape(s) then
        ReadToken(s[4..], Quoted, current + [(HexValue(s[2]) * 16 + HexValue(s[3])) as char])
      else if c == '\\' && At(s, 1) != NUL then ReadToken(s[2..], Quoted, current + [Unescape(s[1])])
      else if c == '"' then CloseQuote(s, current)
      else if c == NUL then Unbalanced
      else ReadToken(s[1..], Quoted, current + [c])
    case SingleQuoted =>
      if c == '\\' && At(s, 1) == '\'' then ReadToken(s[2..], SingleQuoted, current + "'")
      else if c == '\'' then CloseQuote(s, current)
      else if c == NUL then Unbalanced
      else ReadToken(s[1..], SingleQuoted, current + [c])
    case Plain =>
      if c == NUL then Token(current, s)
      else if c in " \n\r\t" then Token(current, s[1..])
      else if c == '"' then ReadToken(s[1..], Quoted, current)
      else if c == '\'' then ReadToken(s[1..], SingleQuoted, current)
      else ReadToken(s[1..], Plain, current + [c])
  }

  function SkipBlanks(s: string): (r: string)
    ensures |r| <= |s| && !(At(r, 0) != NUL && IsSpace(At(r, 0)))
    decreases |s|
  {
    if At(s, 0) != NUL && IsSpace(s[0]) then SkipBlanks(s[1..]) else s
  }

  /** The tokens of a line, or None for unbalanced quotes. */
  function Split(s: string): Option<seq<string>>
    decreases |s|
  {
    var t := SkipBlanks(s);
    if At(t, 0) == NUL then Some([])
    else
      match ReadToken(t, Plain, "")
      case Unbalanced => None
      case Token(value, rest) =>
        Progress(t, Plain, "");
        match Split(rest)
        case None => None
        case Some(values) => Some([value] + values)
  }

  /** A token that does not start at a blank consumes something. */
  lemma Progress(s: string, mode: Mode, current: string)
    requires At(s, 0) != NUL && !IsSpace(At(s, 0))
    ensures var r := ReadToken(s, mode, current); r.Token? ==> |r.rest| < |s|
  {}

  // --------------------------------------------------------------- round trip

  /** Inside quotes, an escape stands for its character. */
  lemma EscapeStep(c: char, t: string, current: string)
    requires IsOctet(c)
    ensures ReadToken(Escape(c) + t, Quoted, current) == ReadToken(t, Quoted, current + [c])
  {
    match |Escape(c)|
    case 1 => EscapeOne(c, t, current);
    case 2 => EscapeTwo(c, t, current);
    case _ => EscapeFour(c, t, current);
  }

  lemma EscapeOne(c: char, t: string, current: string)
    requires IsOctet(c) && |Escape(c)| == 1
    ensures ReadToken(Escape(c) + t, Quoted, current) == ReadToken(t, Quoted, current + [c])
  {
    assert Escape(c) == [c] && ([c] + t)[1..] == t;
  }

  lemma EscapeTwo(c: char, t: string, current: string)
    requires IsOctet(c) && |Escape(c)| == 2
    ensures ReadToken(Escape(c) + t, Quoted, current) == ReadToken(t, Quoted, current + [c])
  {
    var s := Escape(c) + t;
    assert s[0] == Escape(c)[0] && s[1] == Escape(c)[1] && s[2..] == t;
  }

  lemma EscapeFour(c: char, t: string, current: string)
    requires IsOctet(c) && |Escape(c)| > 2
    ensures ReadToken(Escape(c) + t, Quoted, current) == ReadToken(t, Quoted, current + [c])
  {
    var e := Escape(c);
    var s := e + t;
    assert |e| == 4 && s[0] == e[0] && s[1] == e[1] && s[2] == e[2] && s[3] == e[3] && s[4..] == t;
    assert HexValue(s[2]) * 16 + HexValue(s[3]) == c as int;
  }

  lemma {:induction false} EscapeAllStep(p: string, t: string, current: string)
    requires Octets(p)
    ensures ReadToken(EscapeAll(p) + t, Quoted, current) == ReadToken(t, Quoted, current + p)
    decreases |p|
  {
    if p == [] {
      assert EscapeAll(p) + t == t && current + p == current;
    } else {
      assert EscapeAll(p) + t == Escape(p[0]) + (EscapeAll(p[1..]) + t);
      EscapeStep(p[0], EscapeAll(p[1..]) + t, current);
      EscapeAllStep(p[1..], t, current + [p[0]]);
      assert current + [p[0]] + p[1..] == current + p;
    }
  }

  /** A quoted string before a blank, or at the end, is one token. */
  lemma ReprToken(p: string, t: string)
    requires Octets(p) && (At(t, 0) == NUL || IsSpace(At(t, 0)))
    ensures ReadToken(Repr(p) + t, Plain, "") == Token(p, t)
  {
    var s := Repr(p) + t;
    assert s[0] == '"' && s[1..] == EscapeAll(p) + ("\"" + t);
    EscapeAllStep(p, "\"" + t, "");
    assert "" + p == p && ("\"" + t)[1..] == t;
  }

  function JoinReprs(args: seq<string>): string
    requires forall i :: 0 <= i < |args| ==> Octets(args[i])
  {
    if args == [] then ""
    else if |args| == 1 then Repr(args[0])
    else Repr(args[0]) + (" " + JoinReprs(args[1..]))
  }

  /** sdssplitargs undoes sdscatrepr, for every list of byte strings. */
  lemma {:induction false} SplitJoin(args: seq<string>)
    requires forall i :: 0 <= i < |args| ==> Octets(args[i])
    ensures Split(JoinReprs(args)) == Some(args)
    decreases |args|
  {
    if args == [] {
    } else {
      var s := JoinReprs(args);
      var t := if |args| == 1 then "" else " " + JoinReprs(args[1..]);
      assert s == Repr(args[0]) + t;
      assert s[0] == '"';
      ReprToken(args[0], t);
      SplitJoin(args[1..]);
      if |args| > 1 {
        assert t[1..] == JoinReprs(args[1..]);
        SplitBlank(JoinReprs(args[1..]));
      }
      assert [args[0]] + args[1..] == args;
    }
  }

  lemma SplitBlank(s: string)
    ensures Split(" " + s) == Split(s)
  {
    assert (" " + s)[1..] == s;
  }

  // ------------------------------------------------------------ the C function

  /** sdssplitargs, sds.c:628-736. */
  method SplitArgs(line: string) returns (r: Option<seq<string>>)
    ensures r == Split(line)
  {
    var p := 0;
    var vector: seq<string> := [];
    assert line[0..] == line;
    PrependEmpty(Split(line));
    while true
      invariant p <= |line|
      invariant Split(line) == Prepend(vector, Split(line[p..]))
      decreases |line| - p
    {
      ghost var p0 := p;
      while At(line, p) != NUL && IsSpace(At(line, p))
        invariant p0 <= p <= |line| && SkipBlanks(line[p0..]) == SkipBlanks(line[p..])
        decreases |line| - p
      {
        assert line[p..][1..] == line[p + 1..];
        p := p + 1;
      }
      assert SkipBlanks(line[p..]) == line[p..];
      if At(line, p) == NUL {
        assert vector + [] == vector;
        return Some(vector);
      }
      Progress(line[p..], Plain, "");
      var token;
      token, p := GetToken(line, p);
      match token {
        case None => return None;
        case Some(current) =>
          ghost var before := vector;
          vector := vector + [current];
          PrependOne(before, current, Split(line[p..]));
      }
    }
  }

  function Prepend(vs: seq<string>, r: Option<seq<string>>): Option<seq<string>>
  {
    match r case None => None case Some(ws) => Some(vs + ws)
  }

  lemma PrependEmpty(r: Option<seq<string>>)
    ensures Prepend([], r) == r
  {
    if r.Some? { assert [] + r.value == r.value; }
  }

  lemma PrependOne(vs: seq<string>, v: string, r: Option<seq<string>>)
    ensures Prepend(vs, Prepend([v], r)) == Prepend(vs + [v], r)
  {
    if r.Some? { assert vs + ([v] + r.value) == vs + [v] + r.value; }
  }

  /** The loop over one token, sds.c:639-716. */
  method GetToken(line: string, p0: nat) returns (r: Option<string>, p: nat)
    requires p0 <= |line|
    ensures p <= |line|
    ensures match ReadToken(line[p0..], Plain, "")
            case Unbalanced => r == None
            case Token(value, rest) => r == Some(value) && rest == line[p..]
  {
    var inq, insq, done := false, false, false;
    var current := "";
    p := p0;
    while !done
      invariant p <= |line| && !(inq && insq)
      invariant !done ==>
        ReadToken(line[p0..], Plain, "")
          == ReadToken(line[p..], if inq then Quoted else if insq then SingleQuoted else Plain, current)
      invariant done ==> ReadToken(line[p0..], Plain, "") == Token(current, line[p..])
      decreases !done, |line| - p
    {
      var bad := false;
      if inq {
        bad, done, p, current := QuotedStep(line, p, current);
      } else if insq {
        bad, done, p, current := SingleQuotedStep(line, p, current);
      } else {
        var c := At(line, p);
        assert At(line[p..], 0) == c && (c != NUL ==> line[p..][1..] == line[p + 1..]);
        if c in " \n\r\t" || c == NUL {
          done := true;
        } else if c == '"' {
          inq := true;
        } else if c == '\'' {
          insq := true;
        } else {
          current := current + [c];
        }
        if c != NUL { p := p + 1; }
      }
      if bad { return None, p0; }
    }
    return Some(current), p;
  }

  /** What one round of the loop does to a token in the given mode. */
  ghost predicate Stepped(line: string, mode: Mode, p0: nat, current0: string, bad: bool, done: bool, p: nat,
                          current: string)
    requires p0 <= |line|
  {
    var r := ReadToken(line[p0..], mode, current0);
    if bad then r == Unbalanced
    else
      && p0 < p <= |line|
      && if done then r == Token(current, line[p..]) else r == ReadToken(line[p..], mode, current)
  }

  /** sds.c:645-679 and 715. */
  method QuotedStep(line: string, p0: nat, current0: string) returns (bad: bool, done: bool, p: nat, current: string)
    requires p0 <= |line|
    ensures Stepped(line, Quoted, p0, current0, bad, done, p, current)
  {
    bad, done, p, current := false, false, p0, current0;
    Shifted(line, p);
    if At(line, p) == '\\' && At(line, p + 1) == 'x' && IsHexDigit(At(line, p + 2)) && IsHexDigit(At(line, p + 3)) {
      var byte := HexValue(At(line, p + 2)) * 16 + HexValue(At(line, p + 3));
      current := current + [byte as char];
      p := p + 3;
    } else if At(line, p) == '\\' && At(line, p + 1) != NUL {
      p := p + 1;
      current := current + [Unescape(At(line, p))];
    } else if At(line, p) == '"' {
      if At(line, p + 1) != NUL && !IsSpace(At(line, p + 1)) { bad := true; return; }
      done := true;
    } else if At(line, p) == NUL {
      bad := true;
      return;
    } else {
      current := current + [At(line, p)];
    }
    assert At(line, p) != NUL;
    p := p + 1;
    assert line[p0..][p - p0..] == line[p..];
  }

  /** sds.c:680-694 and 715. */
  method SingleQuotedStep(line: string, p0: nat, current0: string)
    returns (bad: bool, done: bool, p: nat, current: string)
    requires p0 <= |line|
    ensures Stepped(line, SingleQuoted, p0, current0, bad, done, p, current)
  {
    bad, done, p, current := false, false, p0, current0;
    Shifted(line, p);
    if At(line, p) == '\\' && At(line, p + 1) == '\'' {
      p := p + 1;
      current := current + "'";
    } else if At(line, p) == '\'' {
      if At(line, p + 1) != NUL && !IsSpace(At(line, p + 1)) { bad := true; return; }
      done := true;
    } else if At(line, p) == NUL {
      bad := true;
      return;
    } else {
      current := current + [At(line, p)];
    }
    p := p + 1;
    assert line[p0..][p - p0..] == line[p..];
  }

  lemma Shifted(line: string, p: nat)
    requires p <= |line|
    ensures At(line[p..], 0) == At(line, p) && At(line[p..], 1) == At(line, p + 1)
    ensures At(line[p..], 2) == At(line, p + 2) && At(line[p..], 3) == At(line, p + 3)
  {}
}
