/** The protocol in terms of its own octets: what deps/hiredis/hiredis.c makes of each
    kind of header, what it prints, and that no input is misread for being incomplete. */
module RespLaws {
  import opened Options
  import opened RespSpec
  import opened RespFormat
  import opened RespReader

  // ----------------------------------------------------------------- numbers

  function Power(n: nat): nat { if n == 0 then 1 else 10 * Power(n - 1) }

  /** The value of a string of decimal digits by their places. */
  function PlaceValue(s: string): int
  {
    if s == [] then 0 else (s[0] as int - 48) * Power(|s| - 1) + PlaceValue(s[1..])
  }

  /** The accumulating loop computes it: hiredis.c:301-309. */
  lemma {:induction false} ReadsPlaces(s: string, v: int)
    requires Digits(s)
    ensures ReadDigits(s, v) == Some(v * Power(|s|) + PlaceValue(s))
    decreases |s|
  {
    if s != [] {
      var d := s[0] as int - 48;
      ReadsPlaces(s[1..], v * 10 + d);
      Carry(v, d, Power(|s| - 1));
    }
  }

  lemma Carry(v: int, d: int, p: int)
    ensures (v * 10 + d) * p == v * (10 * p) + d * p
  {}

  /** A number with digits only, or behind a sign; anything else is -1. */
  lemma ReadsNumber(s: string)
    requires Digits(s)
    ensures ReadNumber(s) == PlaceValue(s)
    ensures ReadNumber(['-'] + s) == -PlaceValue(s) && ReadNumber(['+'] + s) == PlaceValue(s)
  {
    ReadsPlaces(s, 0);
    assert (['-'] + s)[1..] == s && (['+'] + s)[1..] == s;
  }

  lemma {:induction false} NoNumber(s: string, c: char, t: string, v: int)
    requires Digits(s) && !('0' <= c <= '9') && c != '\r'
    ensures ReadDigits(s + [c] + t, v) == None
    decreases |s|
  {
    if s == [] {
      assert (s + [c] + t)[0] == c;
    } else {
      assert (s + [c] + t)[0] == s[0] && (s + [c] + t)[1..] == s[1..] + [c] + t;
      NoNumber(s[1..], c, t, v * 10 + (s[0] as int - 48));
    }
  }

  /** What is printed for a number that is not negative: its decimal digits, without
      leading zeros. */
  lemma {:induction false} PrintsPlaces(n: nat)
    ensures Digits(Decimal(n)) && PlaceValue(Decimal(n)) == n
    ensures |Decimal(n)| > 1 ==> Decimal(n)[0] != '0'
  {
    DecimalDigits(n);
    ReadDecimal(n);
    ReadsPlaces(Decimal(n), 0);
    NoLeadingZero(n);
  }

  lemma {:induction false} NoLeadingZero(n: nat)
    ensures n > 0 ==> Decimal(n)[0] != '0'
    ensures |Decimal(n)| > 1 ==> n >= 10
  {
    if n >= 10 {
      NoLeadingZero(n / 10);
      assert Decimal(n)[0] == Decimal(n / 10)[0];
    } else if n > 0 {
      assert Digit(DigitChar(n)) == n;
    }
  }

  // ----------------------------------------------------------------- headers

  /** A line behind a type byte. */
  function Line(c: char, line: string, rest: string): string
  {
    [c] + line + ['\r', '\n'] + rest
  }

  lemma LineParts(c: char, line: string, rest: string)
    requires FindNewline(line) < 0
    ensures var t := Line(c, line, rest)[1..];
            Line(c, line, rest)[0] == c && FindNewline(t) == |line| && t[..|line|] == line && t[|line| + 2..] == rest
  {
    LineTail(c, line, rest);
    AfterLine(line, rest);
    NewlineAfter(line, rest);
  }

  lemma LineTail(c: char, line: string, rest: string)
    ensures Line(c, line, rest)[0] == c && Line(c, line, rest)[1..] == line + (CRLF + rest)
  {
    assert Line(c, line, rest) == [c] + (line + (CRLF + rest));
  }

  lemma AfterLine(line: string, rest: string)
    ensures (line + (CRLF + rest))[..|line|] == line && (line + (CRLF + rest))[|line| + 2..] == rest
  {
    assert (CRLF + rest)[2..] == rest;
  }

  /** Status, error and integer lines: hiredis.c:355-387 and 518-533. */
  lemma ReadsLine(line: string, rest: string, depth: nat)
    requires FindNewline(line) < 0
    ensures Parse(Unknown, Line('+', line, rest), depth) == Got(Status(line), rest)
    ensures Parse(Unknown, Line('-', line, rest), depth) == Got(Error(line), rest)
    ensures Parse(Unknown, Line(':', line, rest), depth) == Got(Integer(ReadNumber(line)), rest)
  {
    LineParts('+', line, rest);
    LineParts('-', line, rest);
    LineParts(':', line, rest);
  }

  lemma DigitsLine(s: string)
    requires Digits(s)
    ensures FindNewline(s) < 0 && FindNewline(['-'] + s) < 0
  {
    NoNewline(s);
    NoNewline(['-'] + s);
  }

  /** An integer is the number on its line, with its sign. */
  lemma ReadsInteger(digits: string, rest: string, depth: nat)
    requires Digits(digits)
    ensures Parse(Unknown, Line(':', digits, rest), depth) == Got(Integer(PlaceValue(digits)), rest)
    ensures Parse(Unknown, Line(':', ['-'] + digits, rest), depth) == Got(Integer(-PlaceValue(digits)), rest)
  {
    DigitsLine(digits);
    ReadsNumber(digits);
    ReadsLine(digits, rest, depth);
    ReadsLine(['-'] + digits, rest, depth);
  }

  lemma MinusOne()
    ensures FindNewline("-1") < 0 && ReadNumber("-1") == -1
    ensures FindNewline("0") < 0 && ReadNumber("0") == 0
  {
    DigitsLine("1");
    DigitsLine("0");
    ReadsNumber("1");
    ReadsNumber("0");
    assert "-1" == ['-'] + "1";
    assert Power(0) == 1 && PlaceValue("1") == 1 && PlaceValue("0") == 0;
  }

  /** The headers without contents: hiredis.c:402-406 and 460-470. */
  lemma ReadsNil(rest: string, depth: nat)
    ensures Parse(Unknown, "$-1\r\n" + rest, depth) == Got(Nil, rest)
    ensures depth < 8 ==> Parse(Unknown, "*-1\r\n" + rest, depth) == Got(Nil, rest)
    ensures depth < 8 ==> Parse(Unknown, "*0\r\n" + rest, depth) == Got(Array([]), rest)
  {
    MinusOne();
    assert "$-1\r\n" + rest == Line('$', "-1", rest) && "*-1\r\n" + rest == Line('*', "-1", rest);
    assert "*0\r\n" + rest == Line('*', "0", rest);
    LineParts('$', "-1", rest);
    LineParts('*', "-1", rest);
    LineParts('*', "0", rest);
  }

  /** A bulk string is as many characters as its header says, whatever they are, and two
      more: hiredis.c:407-418. */
  lemma ReadsBulk(digits: string, s: string, a: char, b: char, rest: string, depth: nat)
    requires Digits(digits) && PlaceValue(digits) == |s|
    ensures Parse(Unknown, Line('$', digits, s + [a, b] + rest), depth) == Got(Str(s), rest)
  {
    DigitsLine(digits);
    ReadsNumber(digits);
    LineParts('$', digits, s + [a, b] + rest);
    var t := Line('$', digits, s + [a, b] + rest)[1..];
    var u := t[|digits| + 2..];
    assert u[..|s|] == s && u[|s| + 2..] == rest;
    assert t[|digits| + 2..|digits| + 2 + |s|] == u[..|s|];
    assert t[|digits| + 2 + |s| + 2..] == u[|s| + 2..];
  }

  /** An array is as many replies as its header says: hiredis.c:472-493. */
  lemma ReadsArray(digits: string, rest: string, depth: nat)
    requires Digits(digits) && PlaceValue(digits) > 0 && depth < 8
    ensures Parse(Unknown, Line('*', digits, rest), depth) ==
            match ParseMany(rest, PlaceValue(digits), depth + 1)
            case Got(vs, rest') => Got(Array(vs), rest')
            case More => More
            case Bad(e) => Bad(e)
  {
    DigitsLine(digits);
    ReadsNumber(digits);
    LineParts('*', digits, rest);
  }

  /** The two errors: hiredis.c:449-453 and 530-533. */
  lemma ReadsErrors(c: char, rest: string, depth: nat)
    ensures c !in {'+', '-', ':', '$', '*'} ==> Parse(Unknown, [c] + rest, depth) == Bad(TypeByte(c))
    ensures Parse(Unknown, ['*'] + rest, 8) == Bad(TooDeep)
  {
    assert ([c] + rest)[0] == c && (['*'] + rest)[0] == '*';
  }

  /** What is printed for a bulk string: the length in digits, and CR LF behind the header
      and behind the string. */
  lemma PrintsBulk(s: string)
    ensures var h := |Decimal(|s|)|; var e := Encode(Str(s));
            && |e| == 1 + h + 2 + |s| + 2 && e[0] == '$' && e[1..1 + h] == Decimal(|s|)
            && e[1 + h..1 + h + 2] == ['\r', '\n'] && e[1 + h + 2..1 + h + 2 + |s|] == s
            && e[1 + h + 2 + |s|..] == ['\r', '\n']
  {
    var e := "$" + Decimal(|s|) + CRLF + s + CRLF;
    assert Encode(Str(s)) == e;
  }

  /** And for a command: the number of arguments, and each of them. */
  lemma PrintsCommand(argv: seq<string>)
    ensures Encode(Array(Command(argv))) == ['*'] + Decimal(|argv|) + ['\r', '\n'] + Joined(argv)
  {
    JoinedAll(argv);
  }

  function Joined(argv: seq<string>): string
  {
    if argv == [] then "" else Encode(Str(argv[0])) + Joined(argv[1..])
  }

  lemma {:induction false} JoinedAll(argv: seq<string>)
    ensures EncodeAll(Command(argv)) == Joined(argv)
  {
    if argv != [] {
      assert Command(argv)[1..] == Command(argv[1..]);
      JoinedAll(argv[1..]);
    }
  }

  // -------------------------------------------------------- incomplete input

  /** What has been read stays read, and an error stays one, whatever follows. */
  lemma {:induction false} ParseExtend(typ: ItemType, s: string, t: string, depth: nat)
    ensures var r := Parse(typ, s, depth);
            && (r.Got? ==> Parse(typ, s + t, depth) == Got(r.value, r.rest + t))
            && (r.Bad? ==> Parse(typ, s + t, depth) == r)
    decreases |s|, 1
  {
    match typ
    case Unknown =>
      if s != [] {
        assert (s + t)[0] == s[0] && (s + t)[1..] == s[1..] + t;
        if TypeOf(s[0]) != Unknown { ParseExtend(TypeOf(s[0]), s[1..], t, depth); }
      }
    case StringItem => if ParseBulk(s).Got? { ParseBulkExtend(s, t); }
    case ArrayItem => ArrayExtend(s, t, depth);
    case _ => if ParseLine(typ, s).Got? { ParseLineExtend(typ, s, t); }
  }

  lemma {:induction false} ArrayExtend(s: string, t: string, depth: nat)
    ensures var r := Parse(ArrayItem, s, depth);
            && (r.Got? ==> Parse(ArrayItem, s + t, depth) == Got(r.value, r.rest + t))
            && (r.Bad? ==> Parse(ArrayItem, s + t, depth) == r)
    decreases |s|, 0
  {
    var n := FindNewline(s);
    if depth != MAX_DEPTH && n >= 0 {
      FindNewlineExtend(s, t);
      assert (s + t)[..n] == s[..n] && (s + t)[n + 2..] == s[n + 2..] + t;
      if ReadNumber(s[..n]) > 0 { ManyExtend(s[n + 2..], t, ReadNumber(s[..n]), depth + 1); }
    }
  }

  lemma {:induction false} ManyExtend(s: string, t: string, count: nat, depth: nat)
    ensures var r := ParseMany(s, count, depth);
            && (r.Got? ==> ParseMany(s + t, count, depth) == Got(r.value, r.rest + t))
            && (r.Bad? ==> ParseMany(s + t, count, depth) == r)
    decreases |s|, 2, count
  {
    if count > 0 {
      ParseExtend(Unknown, s, t, depth);
      var r := Parse(Unknown, s, depth);
      if r.Got? {
        ManyExtend(r.rest, t, count - 1, depth);
        MoreExtend(s, t, count, depth, r);
      }
    }
  }

  /** One reply more in front. */
  lemma MoreExtend(s: string, t: string, count: nat, depth: nat, r: Result<Reply>)
    requires count > 0 && r.Got? && Parse(Unknown, s, depth) == r
    requires Parse(Unknown, s + t, depth) == Got(r.value, r.rest + t) && |r.rest| < |s|
    requires var q := ParseMany(r.rest, count - 1, depth);
             && (q.Got? ==> ParseMany(r.rest + t, count - 1, depth) == Got(q.value, q.rest + t))
             && (q.Bad? ==> ParseMany(r.rest + t, count - 1, depth) == q)
    ensures var q := ParseMany(s, count, depth);
            && (q.Got? ==> ParseMany(s + t, count, depth) == Got(q.value, q.rest + t))
            && (q.Bad? ==> ParseMany(s + t, count, depth) == q)
  {}

  /** Less than all of a reply asks for more input: it is neither read nor an error. */
  lemma PrefixAsksForMore(r: Reply, s: string, t: string)
    requires Encodable(r, 0) && t != [] && s + t == Encode(r)
    ensures Parse(Unknown, s, 0) == More
  {
    RoundTrip(r, "", 0);
    assert Encode(r) + "" == s + t;
    ParseExtend(Unknown, s, t, 0);
  }

  /** A stream of replies is read back as it is. */
  lemma {:induction false} StreamRoundTrip(rs: seq<Reply>)
    requires AllEncodable(rs, 0)
    ensures ParseAll(EncodeAll(rs)) == Stream(rs, None)
  {
    if rs != [] {
      RoundTrip(rs[0], EncodeAll(rs[1..]), 0);
      StreamRoundTrip(rs[1..]);
      assert [rs[0]] + rs[1..] == rs;
    }
  }

  // ------------------------------------------------------------- the reader

  /** A new reader that is fed a stream replies with what the stream begins with. */
  method FirstReply(s: string, ghost v: Reply, ghost rest: string) returns (r: Option<Reply>)
    requires Parse(Unknown, s, 0) == Got(v, rest)
    ensures r == Some(v)
  {
    var reader := new Reader();
    var _ := reader.Feed(s);
    BeginsWith(s, v, rest);
    assert reader.fed == [] + s == s;
    var _, first := reader.GetReply();
    EmittedFirst(reader);
    return first;
  }

  lemma BeginsWith(s: string, v: Reply, rest: string)
    requires Parse(Unknown, s, 0) == Got(v, rest)
    ensures ParseAll(s).replies != [] && ParseAll(s).replies[0] == v
  {}

  /** What was emitted is what the stream begins with. */
  lemma EmittedFirst(reader: Reader)
    requires reader.Valid()
    ensures reader.emitted <= ParseAll(reader.fed).replies
  {
    assert reader.fed + [] == reader.fed;
  }

  /** hiredis.c:460-470: a nil array is no empty array. */
  method NilReplies() returns (bulk: Option<Reply>, multi: Option<Reply>, empty: Option<Reply>)
    ensures bulk == multi == Some(Nil) && empty == Some(Array([]))
  {
    ReadsNil("", 0);
    assert "$-1\r\n" + "" == "$-1\r\n" && "*-1\r\n" + "" == "*-1\r\n" && "*0\r\n" + "" == "*0\r\n";
    bulk := FirstReply("$-1\r\n", Nil, "");
    multi := FirstReply("*-1\r\n", Nil, "");
    empty := FirstReply("*0\r\n", Array([]), "");
  }
}
