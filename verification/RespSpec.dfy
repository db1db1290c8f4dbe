/** The reply protocol as a recursive-descent parser: what deps/hiredis/hiredis.c
    reads, without its stack, its buffer and its interruptions.  Lengths and
    counts are unbounded integers. */
module RespSpec {
  import opened Options

  datatype ItemType = Unknown | ErrorItem | StatusItem | IntegerItem | StringItem | ArrayItem

  datatype Reply =
    | Str(s: string)
    | Array(elements: seq<Reply>)
    | NegativeArray(count: int)
    | Integer(value: int)
    | Nil
    | Status(s: string)
    | Error(s: string)

  datatype ProtocolError = TypeByte(c: char) | TooDeep

  /** A parse has a value and leaves a rest, needs more input, or is an error. */
  datatype Result<T> = Got(value: T, rest: string) | More | Bad(error: ProtocolError)

  const MAX_DEPTH := 8

  // ------------------------------------------------------------------- lines

  /** The index of the first CR LF, or -1. */
  function FindNewline(s: string): (n: int)
    ensures -1 <= n && (n >= 0 ==> n + 2 <= |s| && s[n] == '\r' && s[n + 1] == '\n')
  {
    if |s| < 2 then -1
    else if s[0] == '\r' && s[1] == '\n' then 0
    else
      var n := FindNewline(s[1..]);
      if n < 0 then -1 else n + 1
  }

  /** No CR LF lies before the one that is found, and none is missed. */
  lemma {:induction false} FirstNewline(s: string, i: nat)
    requires i + 1 < |s| && s[i] == '\r' && s[i + 1] == '\n'
    ensures 0 <= FindNewline(s) <= i
    decreases i
  {
    if i > 0 {
      FirstNewline(s[1..], i - 1);
    }
  }

  function Digit(c: char): int { c as int - '0' as int }

  /** The digits up to the first CR, on top of v; -1 for anything else. */
  function ReadDigits(s: string, v: int): Option<int>
  {
    if s == [] || s[0] == '\r' then Some(v)
    else if '0' <= s[0] <= '9' then ReadDigits(s[1..], v * 10 + Digit(s[0]))
    else None
  }

  /** readLongLong, hiredis.c:288-313. */
  function ReadNumber(s: string): int
  {
    var (sign, t) := if s != [] && s[0] == '-' then (-1, s[1..])
                     else if s != [] && s[0] == '+' then (1, s[1..]) else (1, s);
    match ReadDigits(t, 0)
    case Some(v) => sign * v
    case None => -1
  }

  // ------------------------------------------------------------------- items

  function TypeOf(c: char): ItemType
  {
    match c
    case '-' => ErrorItem
    case '+' => StatusItem
    case ':' => IntegerItem
    case '$' => StringItem
    case '*' => ArrayItem
    case _ => Unknown
  }

  function LineReply(typ: ItemType, line: string): Reply
  {
    if typ == IntegerItem then Integer(ReadNumber(line))
    else if typ == StatusItem then Status(line) else Error(line)
  }

  function ParseLine(typ: ItemType, s: string): (r: Result<Reply>)
    ensures r.Got? ==> |r.rest| < |s|
  {
    var n := FindNewline(s);
    if n < 0 then More else Got(LineReply(typ, s[..n]), s[n + 2..])
  }

  function ParseBulk(s: string): (r: Result<Reply>)
    ensures r.Got? ==> |r.rest| < |s|
  {
    var n := FindNewline(s);
    if n < 0 then More
    else
      var len := ReadNumber(s[..n]);
      if len < 0 then Got(Nil, s[n + 2..])
      else if n + 2 + len + 2 > |s| then More
      else Got(Str(s[n + 2..n + 2 + len]), s[n + 2 + len + 2..])
  }

  /** An item whose type is known, or still to be read, at a nesting depth. */
  function Parse(typ: ItemType, s: string, depth: nat): (r: Result<Reply>)
    ensures r.Got? ==> |r.rest| < |s|
    decreases |s|, 0
  {
    match typ
    case Unknown =>
      if s == [] then More
      else if TypeOf(s[0]) == Unknown then Bad(TypeByte(s[0]))
      else Parse(TypeOf(s[0]), s[1..], depth)
    case StringItem => ParseBulk(s)
    case ArrayItem =>
      if depth == MAX_DEPTH then Bad(TooDeep)
      else
        var n := FindNewline(s);
        if n < 0 then More
        else
          var count := ReadNumber(s[..n]);
          if count <= 0 then Got(EmptyArray(count), s[n + 2..])
          else
            (match ParseMany(s[n + 2..], count, depth + 1)
             case Got(vs, rest) => Got(Array(vs), rest)
             case More => More
             case Bad(e) => Bad(e))
    case _ => ParseLine(typ, s)
  }

  /** What an array header without elements stands for. */
  function EmptyArray(count: int): Reply
    requires count <= 0
  {
    if count == -1 then Nil else if count == 0 then Array([]) else NegativeArray(count)
  }

  function ParseMany(s: string, count: nat, depth: nat): (r: Result<seq<Reply>>)
    ensures r.Got? ==> |r.rest| <= |s| && |r.value| == count
    decreases |s|, 1
  {
    if count == 0 then Got([], s)
    else
      match Parse(Unknown, s, depth)
      case More => More
      case Bad(e) => Bad(e)
      case Got(v, rest) =>
        match ParseMany(rest, count - 1, depth)
        case Got(vs, rest') => Got([v] + vs, rest')
        case More => More
        case Bad(e) => Bad(e)
  }

  // ------------------------------------------------------------------ stream

  /** The replies in a stream, and the error that ends it, if any. */
  datatype Stream = Stream(replies: seq<Reply>, error: Option<ProtocolError>)

  function ParseAll(s: string): Stream
    decreases |s|
  {
    match Parse(Unknown, s, 0)
    case More => Stream([], None)
    case Bad(e) => Stream([], Some(e))
    case Got(v, rest) => Prepend([v], ParseAll(rest))
  }

  function Prepend(vs: seq<Reply>, st: Stream): Stream
  {
    Stream(vs + st.replies, st.error)
  }

  // ----------------------------------------------------- more input is no harm

  lemma {:induction false} FindNewlineExtend(s: string, t: string)
    ensures FindNewline(s) >= 0 ==> FindNewline(s + t) == FindNewline(s)
    decreases |s|
  {
    if |s| >= 2 && !(s[0] == '\r' && s[1] == '\n') {
      assert (s + t)[1..] == s[1..] + t;
      FindNewlineExtend(s[1..], t);
    }
  }

  lemma ParseLineExtend(typ: ItemType, s: string, t: string)
    requires ParseLine(typ, s).Got?
    ensures var r := ParseLine(typ, s); ParseLine(typ, s + t) == Got(r.value, r.rest + t)
  {
    FindNewlineExtend(s, t);
    var n := FindNewline(s);
    assert (s + t)[..n] == s[..n] && (s + t)[n + 2..] == s[n + 2..] + t;
  }

  lemma ParseBulkExtend(s: string, t: string)
    requires ParseBulk(s).Got?
    ensures var r := ParseBulk(s); ParseBulk(s + t) == Got(r.value, r.rest + t)
  {
    FindNewlineExtend(s, t);
    var n := FindNewline(s);
    assert (s + t)[..n] == s[..n] && (s + t)[n + 2..] == s[n + 2..] + t;
    var len := ReadNumber(s[..n]);
    if len >= 0 {
      assert (s + t)[n + 2..n + 2 + len] == s[n + 2..n + 2 + len];
      assert (s + t)[n + 2 + len + 2..] == s[n + 2 + len + 2..] + t;
    }
  }
}
