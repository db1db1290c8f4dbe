/** Writing the protocol: intlen, bulklen and redisFormatCommandArgv of
    deps/hiredis/hiredis.c, and the round trip through the reader. */
module RespFormat {
  import opened Options
  import opened RespSpec

  // ----------------------------------------------------------------- numbers

  function DigitChar(d: nat): (c: char)
    requires d < 10
    ensures '0' <= c <= '9' && Digit(c) == d
  {
    ('0' as int + d) as char
  }

  /** What %d and %zu print. */
  function Decimal(n: nat): (s: string)
    ensures |s| > 0 && '0' <= s[0] <= '9'
  {
    if n < 10 then [DigitChar(n)] else Decimal(n / 10) + [DigitChar(n % 10)]
  }

  function Signed(n: int): string
  {
    if n < 0 then "-" + Decimal(-n) else Decimal(n)
  }

  ghost predicate Digits(s: string)
  {
    forall i :: 0 <= i < |s| ==> '0' <= s[i] <= '9'
  }

  lemma {:induction false} DecimalDigits(n: nat)
    ensures Digits(Decimal(n))
  {
    if n < 10 {
    } else {
      DecimalDigits(n / 10);
    }
  }

  lemma {:induction false} ReadDigitsAppend(s: string, c: char, v: int)
    requires Digits(s) && '0' <= c <= '9'
    ensures ReadDigits(s, v).Some? && ReadDigits(s + [c], v) == Some(ReadDigits(s, v).value * 10 + Digit(c))
    decreases |s|
  {
    if s == [] {
      assert (s + [c])[1..] == [];
    } else {
      assert (s + [c])[1..] == s[1..] + [c];
      ReadDigitsAppend(s[1..], c, v * 10 + Digit(s[0]));
    }
  }

  lemma {:induction false} ReadDecimal(n: nat)
    ensures ReadDigits(Decimal(n), 0) == Some(n)
  {
    if n < 10 {
      assert Decimal(n)[1..] == [];
    } else {
      ReadDecimal(n / 10);
      DecimalDigits(n / 10);
      ReadDigitsAppend(Decimal(n / 10), DigitChar(n % 10), 0);
    }
  }

  /** Numbers read back. */
  lemma ReadSigned(n: int)
    ensures ReadNumber(Signed(n)) == n
  {
    if n < 0 {
      assert Signed(n)[1..] == Decimal(-n);
      ReadDecimal(-n);
    } else {
      ReadDecimal(n);
    }
  }

  // ------------------------------------------------------------------- lines

  const CRLF := "\r\n"

  /** A line ends at the CR LF appended to it exactly when it holds none itself. */
  lemma {:induction false} NewlineAfter(line: string, rest: string)
    ensures FindNewline(line + (CRLF + rest)) == |line| <==> FindNewline(line) < 0
    ensures FindNewline(line) >= 0 ==> FindNewline(line + (CRLF + rest)) == FindNewline(line)
    decreases |line|
  {
    var s := line + (CRLF + rest);
    if line == [] {
    } else {
      assert s[1..] == line[1..] + (CRLF + rest);
      NewlineAfter(line[1..], rest);
    }
  }

  lemma {:induction false} NoNewline(s: string)
    requires forall i :: 0 <= i < |s| ==> s[i] != '\r'
    ensures FindNewline(s) < 0
    decreases |s|
  {
    if |s| >= 2 { NoNewline(s[1..]); }
  }

  lemma SignedLine(n: int, rest: string)
    ensures FindNewline(Signed(n) + (CRLF + rest)) == |Signed(n)|
  {
    DecimalDigits(if n < 0 then -n else n);
    NoNewline(Signed(n));
    NewlineAfter(Signed(n), rest);
  }

  // ------------------------------------------------------------------ replies

  function Encode(r: Reply): string
  {
    match r
    case Str(s) => "$" + Signed(|s|) + CRLF + s + CRLF
    case Array(elements) => "*" + Signed(|elements|) + CRLF + EncodeAll(elements)
    case NegativeArray(count) => "*" + Signed(count) + CRLF
    case Integer(value) => ":" + Signed(value) + CRLF
    case Nil => "$" + Signed(-1) + CRLF
    case Status(s) => "+" + s + CRLF
    case Error(s) => "-" + s + CRLF
  }

  function EncodeAll(rs: seq<Reply>): string
  {
    if rs == [] then "" else Encode(rs[0]) + EncodeAll(rs[1..])
  }

  /** What the protocol can carry: lines without CR LF, and arrays nested no
      deeper than the reader's stack. */
  predicate Encodable(r: Reply, depth: nat)
  {
    match r
    case Array(elements) => depth < MAX_DEPTH && AllEncodable(elements, depth + 1)
    case NegativeArray(count) => depth < MAX_DEPTH && count < -1
    case Status(s) => FindNewline(s) < 0
    case Error(s) => FindNewline(s) < 0
    case _ => true
  }

  predicate AllEncodable(rs: seq<Reply>, depth: nat)
  {
    rs == [] || (Encodable(rs[0], depth) && AllEncodable(rs[1..], depth))
  }

  lemma Header(c: char, typ: ItemType, n: int, rest: string, depth: nat)
    requires TypeOf(c) == typ != Unknown
    ensures var s := [c] + Signed(n) + CRLF + rest; var t := Signed(n) + (CRLF + rest);
            && Parse(Unknown, s, depth) == Parse(typ, t, depth)
            && FindNewline(t) == |Signed(n)| && t[..|Signed(n)|] == Signed(n) && t[|Signed(n)| + 2..] == rest
            && ReadNumber(Signed(n)) == n
  {
    assert ([c] + Signed(n) + CRLF + rest)[1..] == Signed(n) + (CRLF + rest);
    SignedLine(n, rest);
    ReadSigned(n);
  }

  lemma LineRoundTrip(c: char, typ: ItemType, line: string, rest: string, depth: nat)
    requires TypeOf(c) == typ && typ in {StatusItem, ErrorItem} && FindNewline(line) < 0
    ensures Parse(Unknown, [c] + line + CRLF + rest, depth) == Got(LineReply(typ, line), rest)
  {
    var s, t := [c] + line + CRLF + rest, line + (CRLF + rest);
    assert s[1..] == t;
    NewlineAfter(line, rest);
    assert t[..|line|] == line && t[|line| + 2..] == rest;
  }

  lemma BulkBody(t: string, n: nat, s: string, rest: string)
    requires n + 2 <= |t| && FindNewline(t) == n && ReadNumber(t[..n]) == |s| && t[n + 2..] == s + CRLF + rest
    ensures ParseBulk(t) == Got(Str(s), rest)
  {
    Pieces(t, n + 2, s, rest);
    assert n + 2 + |s| + 2 <= |t| && t[n + 2..n + 2 + |s|] == s && t[n + 2 + |s| + 2..] == rest;
  }

  lemma Pieces(t: string, n: nat, s: string, rest: string)
    requires n <= |t| && t[n..] == s + CRLF + rest
    ensures n + |s| + 2 <= |t| && t[n..n + |s|] == s && t[n + |s| + 2..] == rest
  {
    var u := t[n..];
    assert u[..|s|] == s && u[|s| + 2..] == rest;
    assert t[n..n + |s|] == u[..|s|];
    assert t[n + |s| + 2..] == u[|s| + 2..];
  }

  lemma BulkRoundTrip(s: string, rest: string, depth: nat)
    ensures Parse(Unknown, Encode(Str(s)) + rest, depth) == Got(Str(s), rest)
  {
    var tail := s + CRLF + rest;
    assert Encode(Str(s)) + rest == ['$'] + Signed(|s|) + CRLF + tail;
    Header('$', StringItem, |s|, tail, depth);
    var t := Signed(|s|) + (CRLF + tail);
    assert Parse(StringItem, t, depth) == ParseBulk(t);
    BulkBody(t, |Signed(|s|)|, s, rest);
  }

  lemma NilRoundTrip(rest: string, depth: nat)
    ensures Parse(Unknown, Encode(Nil) + rest, depth) == Got(Nil, rest)
  {
    assert Encode(Nil) + rest == ['$'] + Signed(-1) + CRLF + rest;
    Header('$', StringItem, -1, rest, depth);
  }

  lemma IntegerRoundTrip(value: int, rest: string, depth: nat)
    ensures Parse(Unknown, Encode(Integer(value)) + rest, depth) == Got(Integer(value), rest)
  {
    assert Encode(Integer(value)) + rest == [':'] + Signed(value) + CRLF + rest;
    Header(':', IntegerItem, value, rest, depth);
  }

  /** What the header of an array leads to. */
  lemma ArrayHeader(count: int, rest: string, depth: nat)
    ensures Parse(Unknown, ['*'] + Signed(count) + CRLF + rest, depth) ==
            if depth == MAX_DEPTH then Bad(TooDeep)
            else if count <= 0 then Got(EmptyArray(count), rest)
            else match ParseMany(rest, count, depth + 1)
                 case Got(vs, rest') => Got(Array(vs), rest')
                 case More => More
                 case Bad(e) => Bad(e)
  {
    Header('*', ArrayItem, count, rest, depth);
  }

  lemma ArrayText(elements: seq<Reply>, rest: string)
    ensures Encode(Array(elements)) + rest == ['*'] + Signed(|elements|) + CRLF + (EncodeAll(elements) + rest)
  {}

  lemma NegativeText(count: int, rest: string)
    ensures Encode(NegativeArray(count)) + rest == ['*'] + Signed(count) + CRLF + rest
  {}

  lemma LineText(c: char, s: string, rest: string)
    ensures c == '+' ==> Encode(Status(s)) + rest == [c] + s + CRLF + rest
    ensures c == '-' ==> Encode(Error(s)) + rest == [c] + s + CRLF + rest
  {}

  /** Every reply that the protocol can carry is read back, whatever follows it. */
  lemma {:induction false} RoundTrip(r: Reply, rest: string, depth: nat)
    requires Encodable(r, depth)
    ensures Parse(Unknown, Encode(r) + rest, depth) == Got(r, rest)
    decreases r, 0
  {
    match r {
      case Str(s) => BulkRoundTrip(s, rest, depth);
      case Array(elements) =>
        ArrayText(elements, rest);
        ArrayHeader(|elements|, EncodeAll(elements) + rest, depth);
        RoundTripAll(elements, rest, depth + 1);
      case NegativeArray(count) =>
        NegativeText(count, rest);
        ArrayHeader(count, rest, depth);
      case Integer(value) => IntegerRoundTrip(value, rest, depth);
      case Nil => NilRoundTrip(rest, depth);
      case Status(s) =>
        LineText('+', s, rest);
        LineRoundTrip('+', StatusItem, s, rest, depth);
      case Error(s) =>
        LineText('-', s, rest);
        LineRoundTrip('-', ErrorItem, s, rest, depth);
    }
  }

  lemma {:induction false} RoundTripAll(rs: seq<Reply>, rest: string, depth: nat)
    requires AllEncodable(rs, depth)
    ensures ParseMany(EncodeAll(rs) + rest, |rs|, depth) == Got(rs, rest)
    decreases rs, 1
  {
    if rs == [] {
      assert EncodeAll(rs) + rest == rest;
    } else {
      assert EncodeAll(rs) + rest == Encode(rs[0]) + (EncodeAll(rs[1..]) + rest);
      RoundTrip(rs[0], EncodeAll(rs[1..]) + rest, depth);
      RoundTripAll(rs[1..], rest, depth);
      assert rs == [rs[0]] + rs[1..];
    }
  }

  /** Nothing else is read back: reading the value again is possible only for
      what the protocol can carry. */
  lemma {:induction false} RoundTripOnly(r: Reply, rest: string, depth: nat)
    requires depth <= MAX_DEPTH
    requires var p := Parse(Unknown, Encode(r) + rest, depth); p.Got? && p.value == r
    ensures Encodable(r, depth)
    decreases r, 0
  {
    match r {
      case Array(elements) =>
        ArrayText(elements, rest);
        ArrayHeader(|elements|, EncodeAll(elements) + rest, depth);
        if |elements| > 0 { RoundTripAllOnly(elements, rest, depth + 1); }
      case NegativeArray(count) =>
        NegativeText(count, rest);
        ArrayHeader(count, rest, depth);
      case Status(s) =>
        LineText('+', s, rest);
        LineOnly('+', StatusItem, s, rest, depth);
      case Error(s) =>
        LineText('-', s, rest);
        LineOnly('-', ErrorItem, s, rest, depth);
      case _ =>
    }
  }

  lemma LineOnly(c: char, typ: ItemType, line: string, rest: string, depth: nat)
    requires TypeOf(c) == typ && typ in {StatusItem, ErrorItem}
    requires var p := Parse(Unknown, [c] + line + CRLF + rest, depth); p.Got? && p.value == LineReply(typ, line)
    ensures FindNewline(line) < 0
  {
    var s, t := [c] + line + CRLF + rest, line + (CRLF + rest);
    assert s[1..] == t;
    NewlineAfter(line, rest);
    var n := FindNewline(t);
    assert |t[..n]| == n;
  }

  lemma {:induction false} RoundTripAllOnly(rs: seq<Reply>, rest: string, depth: nat)
    requires depth <= MAX_DEPTH
    requires var p := ParseMany(EncodeAll(rs) + rest, |rs|, depth); p.Got? && p.value == rs
    ensures AllEncodable(rs, depth)
    decreases rs, 1
  {
    if rs == [] {
    } else {
      var tail := EncodeAll(rs[1..]) + rest;
      assert EncodeAll(rs) + rest == Encode(rs[0]) + tail;
      RoundTripOnly(rs[0], tail, depth);
      RoundTrip(rs[0], tail, depth);
      assert [rs[0]] + rs[1..] == rs;
      var q := ParseMany(tail, |rs| - 1, depth);
      assert ([rs[0]] + q.value)[1..] == q.value;
      RoundTripAllOnly(rs[1..], rest, depth);
    }
  }

  // ----------------------------------------------------------------- commands

  const INT_MAX := 0x7fff_ffff

  /** An int of 32 bits, and the conversion of a size_t to it. */
  type Int = i: int | -INT_MAX - 1 <= i <= INT_MAX

  function ToInt(n: int): (i: Int)
    ensures n <= INT_MAX && -INT_MAX - 1 <= n ==> i == n
  {
    (n + INT_MAX + 1) % (2 * (INT_MAX + 1)) - INT_MAX - 1
  }

  /** intlen, hiredis.c:668-679. */
  method IntLen(i0: Int) returns (len: nat)
    ensures len == |Signed(i0)|
  {
    len := 0;
    var i: int := i0;
    if i < 0 {
      len := len + 1;
      i := -i;
    }
    ghost var all := |Decimal(i)| + len;
    len := len + 1;
    while i >= 10
      invariant i >= 0 && all == len - 1 + |Decimal(i)|
    {
      len := len + 1;
      i := i / 10;
    }
  }

  /** bulklen, hiredis.c:682-684, for a size_t that intlen takes as an int. */
  method BulkLen(len: nat) returns (n: nat)
    ensures len <= INT_MAX ==> forall s: string :: |s| == len ==> n == |Encode(Str(s))|
  {
    var digits := IntLen(ToInt(len));
    n := 1 + digits + 2 + len + 2;
  }

  /** A command is the array of its arguments. */
  function Command(argv: seq<string>): seq<Reply>
  {
    seq(|argv|, i requires 0 <= i < |argv| => Str(argv[i]))
  }

  lemma {:induction false} EncodeAllAppend(rs: seq<Reply>, r: Reply)
    ensures EncodeAll(rs + [r]) == EncodeAll(rs) + Encode(r)
    decreases |rs|
  {
    if rs == [] {
      assert [r][1..] == [] && EncodeAll([r]) == Encode(r) + "";
    } else {
      assert (rs + [r])[1..] == rs[1..] + [r];
      EncodeAllAppend(rs[1..], r);
    }
  }

  lemma CommandAppend(argv: seq<string>, j: nat)
    requires j < |argv|
    ensures EncodeAll(Command(argv[..j + 1])) == EncodeAll(Command(argv[..j])) + Encode(Str(argv[j]))
  {
    assert Command(argv[..j + 1]) == Command(argv[..j]) + [Str(argv[j])];
    EncodeAllAppend(Command(argv[..j]), Str(argv[j]));
  }

  /** The first pass, hiredis.c:946-950.  The int it counts in is right exactly when the
      command is not longer than an int can say. */
  method CommandLength(argv: seq<string>) returns (totlen: Int)
    requires |argv| <= INT_MAX
    ensures totlen == |Encode(Array(Command(argv)))| <==> |Encode(Array(Command(argv)))| <= INT_MAX
  {
    var digits := IntLen(|argv|);
    totlen := ToInt(1 + digits + 2);
    ghost var all := 1 + digits + 2;
    var j := 0;
    assert Command(argv[..0]) == [];
    while j < |argv|
      invariant j <= |argv| && all == 1 + digits + 2 + |EncodeAll(Command(argv[..j]))|
      invariant all <= INT_MAX ==> totlen == all
    {
      var n := BulkLen(|argv[j]|);
      CommandAppend(argv, j);
      BulkLonger(argv[j]);
      all := all + |Encode(Str(argv[j]))|;
      totlen := ToInt(totlen + n);
      j := j + 1;
    }
    assert argv[..|argv|] == argv;
  }

  lemma BulkLonger(s: string)
    ensures |s| <= |Encode(Str(s))|
  {}

  /** redisFormatCommandArgv, hiredis.c:939-971: a first pass computes the length,
      a second one fills a buffer of exactly that length and a final NUL.  Null stands
      for a buffer whose size is no int: the code has no such outcome, and what follows
      is not modelled. */
  method FormatCommandArgv(argv: seq<string>) returns (cmd: array?<char>, totlen: Int)
    requires |argv| <= INT_MAX
    ensures cmd != null <==> |Encode(Array(Command(argv)))| + 1 <= INT_MAX
    ensures cmd != null ==> fresh(cmd) && 0 <= totlen && cmd.Length == totlen + 1 && cmd[totlen] == '\0'
    ensures cmd != null ==> cmd[..totlen] == Encode(Array(Command(argv)))
  {
    totlen := CommandLength(argv);
    if |Encode(Array(Command(argv)))| + 1 > INT_MAX { return null, totlen; }
    cmd := new char[totlen + 1];
    var pos := Print(cmd, 0, "*" + Signed(|argv|) + CRLF);
    pos := PrintArguments(cmd, pos, argv);
    assert pos == totlen;
    cmd[pos] := '\0';
  }

  /** The second pass, hiredis.c:958-965. */
  method PrintArguments(cmd: array<char>, pos0: nat, argv: seq<string>) returns (pos: nat)
    requires pos0 + |EncodeAll(Command(argv))| <= cmd.Length
    modifies cmd
    ensures pos == pos0 + |EncodeAll(Command(argv))|
    ensures cmd[..pos] == old(cmd[..pos0]) + EncodeAll(Command(argv))
  {
    pos := pos0;
    var j := 0;
    assert Command(argv[..0]) == [];
    while j < |argv|
      invariant j <= |argv| && pos == pos0 + |EncodeAll(Command(argv[..j]))| <= cmd.Length
      invariant cmd[..pos] == old(cmd[..pos0]) + EncodeAll(Command(argv[..j]))
    {
      CommandAppend(argv, j);
      EncodeAllGrows(argv, j + 1);
      pos := PrintBulk(cmd, pos, argv[j]);
      j := j + 1;
    }
    assert argv[..|argv|] == argv;
  }

  /** One argument, hiredis.c:960-964. */
  method PrintBulk(cmd: array<char>, pos0: nat, arg: string) returns (pos: nat)
    requires pos0 + |Encode(Str(arg))| <= cmd.Length
    modifies cmd
    ensures pos == pos0 + |Encode(Str(arg))| && cmd[..pos] == old(cmd[..pos0]) + Encode(Str(arg))
  {
    pos := Print(cmd, pos0, "$" + Signed(|arg|) + CRLF);
    pos := Print(cmd, pos, arg);
    pos := Print(cmd, pos, CRLF);
  }

  lemma {:induction false} EncodeAllGrows(argv: seq<string>, j: nat)
    requires j <= |argv|
    ensures |EncodeAll(Command(argv[..j]))| <= |EncodeAll(Command(argv))|
    decreases |argv| - j
  {
    if j == |argv| {
      assert argv[..j] == argv;
    } else {
      CommandAppend(argv, j);
      EncodeAllGrows(argv, j + 1);
    }
  }

  /** sprintf or memcpy at a position. */
  method Print(cmd: array<char>, pos0: nat, s: string) returns (pos: nat)
    requires pos0 + |s| <= cmd.Length
    modifies cmd
    ensures pos == pos0 + |s| && cmd[..pos] == old(cmd[..pos0]) + s
  {
    var i := 0;
    while i < |s|
      invariant i <= |s| && cmd[..pos0 + i] == old(cmd[..pos0]) + s[..i]
    {
      cmd[pos0 + i] := s[i];
      assert s[..i + 1] == s[..i] + [s[i]];
      assert cmd[..pos0 + i + 1] == cmd[..pos0 + i] + [s[i]];
      i := i + 1;
    }
    pos := pos0 + |s|;
    assert s[..|s|] == s;
  }

  /** A formatted command is read back as the array of exactly its arguments,
      whatever bytes they hold. */
  lemma CommandRoundTrip(argv: seq<string>, rest: string)
    ensures Parse(Unknown, Encode(Array(Command(argv))) + rest, 0) == Got(Array(Command(argv)), rest)
  {
    StringsEncodable(Command(argv), 1);
    RoundTrip(Array(Command(argv)), rest, 0);
  }

  lemma {:induction false} StringsEncodable(rs: seq<Reply>, depth: nat)
    requires forall i :: 0 <= i < |rs| ==> rs[i].Str?
    ensures AllEncodable(rs, depth)
    decreases |rs|
  {
    if rs == [] {
    } else {
      StringsEncodable(rs[1..], depth);
    }
  }
}
