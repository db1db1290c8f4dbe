/** The resumable reply reader of deps/hiredis/hiredis.c:244-554 and 585-665: a
    stack machine over a buffer that is fed in fragments. */
module RespReader {
  import opened Options
  import opened RespSpec

  /** A level of the reader's stack; `obj` holds the elements that an array has
      received so far. */
  datatype Task = Task(typ: ItemType, elements: int, idx: int, obj: seq<Reply>)

  const FRESH := Task(Unknown, -1, 0, [])

  // --------------------------------------------------- meaning of the stack

  /** What becomes of the root reply once the item below the open arrays
      `frames` has the value v. */
  function Climb(frames: seq<Task>, v: Reply, rest: string): (r: Result<Reply>)
    requires forall i :: 0 <= i < |frames| ==> |frames[i].obj| < frames[i].elements
    ensures r.Got? ==> |r.rest| <= |rest|
    decreases |frames|
  {
    if frames == [] then Got(v, rest)
    else
      var f := frames[|frames| - 1];
      match ParseMany(rest, f.elements - |f.obj| - 1, |frames|)
      case Got(vs, rest') => Climb(frames[..|frames| - 1], Array(f.obj + [v] + vs), rest')
      case More => More
      case Bad(e) => Bad(e)
  }

  /** What becomes of the root reply from a stack and the unread input. */
  function Resume(frames: seq<Task>, typ: ItemType, s: string): (r: Result<Reply>)
    requires forall i :: 0 <= i < |frames| ==> |frames[i].obj| < frames[i].elements
    ensures r.Got? ==> |r.rest| < |s|
  {
    match Parse(typ, s, |frames|)
    case Got(v, rest) => Climb(frames, v, rest)
    case More => More
    case Bad(e) => Bad(e)
  }

  /** An open array waits for at least one more element; the task above it reads
      element number |obj|. */
  ghost predicate StackOk(rstack: seq<Task>, ridx: int)
  {
    && |rstack| == MAX_DEPTH + 1 && -1 <= ridx <= MAX_DEPTH
    && (forall i :: 0 <= i < ridx ==>
          rstack[i].typ == ArrayItem && |rstack[i].obj| < rstack[i].elements && rstack[i + 1].idx == |rstack[i].obj|)
  }

  /** The fields of the reader that decide, with the unread input, what it will
      emit; `reply` is a finished root reply that is not emitted yet. */
  datatype Machine = Machine(err: Option<ProtocolError>, reply: Option<Reply>, rstack: seq<Task>, ridx: int) {
    ghost predicate Ok()
    {
      && StackOk(rstack, ridx)
      && (reply.Some? ==> ridx == -1) && (err.Some? ==> ridx == -1 && reply.None?)
    }

    /** The replies still to come, and the error after them. */
    function Outcome(s: string): Stream
      requires Ok()
    {
      if err.Some? then Stream([], err)
      else if reply.Some? then Prepend([reply.value], ParseAll(s))
      else if ridx == -1 then ParseAll(s)
      else
        match Resume(rstack[..ridx], rstack[ridx].typ, s)
        case Got(v, rest) => Prepend([v], ParseAll(rest))
        case More => Stream([], None)
        case Bad(e) => Stream([], Some(e))
    }
  }

  /** No matter what input follows, the two situations have the same outcome. */
  ghost predicate Equivalent(m: Machine, s: string, m': Machine, s': string)
  {
    && m.Ok() && m'.Ok()
    && forall t: string :: m.Outcome(s + t) == m'.Outcome(s' + t)
  }

  // ------------------------------------------------------------------ steps

  /** Reading the type byte. */
  lemma TypeStep(frames: seq<Task>, s: string, t: string)
    requires forall i :: 0 <= i < |frames| ==> |frames[i].obj| < frames[i].elements
    requires s != []
    ensures Resume(frames, Unknown, s + t) ==
            if TypeOf(s[0]) == Unknown then Bad(TypeByte(s[0])) else Resume(frames, TypeOf(s[0]), s[1..] + t)
  {
    assert (s + t)[0] == s[0] && (s + t)[1..] == s[1..] + t;
  }

  ghost predicate Open(frames: seq<Task>)
  {
    forall i :: 0 <= i < |frames| ==> |frames[i].obj| < frames[i].elements
  }

  /** What becomes of the root reply once the elements `r` complete the array
      `obj` above the open arrays `frames`. */
  function Fill(frames: seq<Task>, obj: seq<Reply>, r: Result<seq<Reply>>): Result<Reply>
    requires forall i :: 0 <= i < |frames| ==> |frames[i].obj| < frames[i].elements
  {
    match r
    case Got(vs, rest) => Climb(frames, Array(obj + vs), rest)
    case More => More
    case Bad(e) => Bad(e)
  }

  lemma ClimbUnfold(frames: seq<Task>, f: Task, v: Reply, s: string)
    requires Open(frames) && |f.obj| < f.elements
    ensures Open(frames + [f])
    ensures Climb(frames + [f], v, s) == Fill(frames, f.obj + [v], ParseMany(s, f.elements - |f.obj| - 1, |frames| + 1))
  {
    assert (frames + [f])[..|frames|] == frames;
  }

  /** Reading the next element of the innermost array reads all that it lacks. */
  lemma FillNext(frames: seq<Task>, f: Task, s: string)
    requires Open(frames) && |f.obj| < f.elements
    ensures Open(frames + [f])
    ensures Resume(frames + [f], Unknown, s) == Fill(frames, f.obj, ParseMany(s, f.elements - |f.obj|, |frames| + 1))
  {
    var first := Parse(Unknown, s, |frames| + 1);
    if first.Got? {
      ClimbUnfold(frames, f, first.value, first.rest);
      var others := ParseMany(first.rest, f.elements - |f.obj| - 1, |frames| + 1);
      if others.Got? {
        assert f.obj + [first.value] + others.value == f.obj + ([first.value] + others.value);
      }
    }
  }

  /** The last element of an array closes it. */
  lemma CloseStep(frames: seq<Task>, f: Task, v: Reply, s: string)
    requires Open(frames) && |f.obj| + 1 == f.elements
    ensures Open(frames + [f]) && Climb(frames + [f], v, s) == Climb(frames, Array(f.obj + [v]), s)
  {
    ClimbUnfold(frames, f, v, s);
    assert f.obj + [v] + [] == f.obj + [v];
  }

  /** Any other element makes room for the next one. */
  lemma NextStep(frames: seq<Task>, f: Task, v: Reply, s: string)
    requires Open(frames) && |f.obj| + 1 < f.elements
    ensures var f' := f.(obj := f.obj + [v]);
            Open(frames + [f]) && Open(frames + [f']) && Climb(frames + [f], v, s) == Resume(frames + [f'], Unknown, s)
  {
    ClimbUnfold(frames, f, v, s);
    FillNext(frames, f.(obj := f.obj + [v]), s);
  }

  /** The header of a non-empty array opens a level. */
  lemma OpenStep(frames: seq<Task>, task: Task, s: string, t: string)
    requires Open(frames)
    requires |frames| < MAX_DEPTH && FindNewline(s) >= 0 && ReadNumber(s[..FindNewline(s)]) > 0
    requires task.elements == ReadNumber(s[..FindNewline(s)]) && task.obj == []
    ensures Open(frames + [task])
    ensures Resume(frames, ArrayItem, s + t) == Resume(frames + [task], Unknown, s[FindNewline(s) + 2..] + t)
  {
    var n := FindNewline(s);
    FindNewlineExtend(s, t);
    assert (s + t)[..n] == s[..n] && (s + t)[n + 2..] == s[n + 2..] + t;
    FillNext(frames, task, s[n + 2..] + t);
    var r := ParseMany(s[n + 2..] + t, task.elements, |frames| + 1);
    if r.Got? { assert [] + r.value == r.value; }
  }

  // ----------------------------------------------------------- seekNewline

  /** The character at an index of the buffer, which ends in a NUL. */
  function At(s: string, i: nat): char { if i < |s| then s[i] else '\0' }

  /** seekNewline, hiredis.c:260-284. */
  method SeekNewline(s: string) returns (r: int)
    ensures r == FindNewline(s)
  {
    var pos := 0;
    var len := |s| - 1;
    while pos < len
      invariant 0 <= pos && (pos <= len || len < 0 || pos == len + 1)
      invariant FindNewline(s) == Later(pos, s)
      decreases len - pos
    {
      while pos < len && At(s, pos) != '\r'
        invariant 0 <= pos <= len && FindNewline(s) == Later(pos, s)
      {
        LaterStep(pos, s);
        pos := pos + 1;
      }
      if At(s, pos) != '\r' {
        return -1;
      } else if At(s, pos + 1) == '\n' {
        return pos;
      } else {
        LaterStep(pos, s);
        pos := pos + 1;
      }
    }
    return -1;
  }

  /** The first CR LF at or after pos. */
  function Later(pos: nat, s: string): int
  {
    if pos > |s| then -1
    else
      var n := FindNewline(s[pos..]);
      if n < 0 then -1 else pos + n
  }

  lemma LaterStep(pos: nat, s: string)
    requires pos < |s| && !(s[pos] == '\r' && At(s, pos + 1) == '\n')
    ensures Later(pos, s) == Later(pos + 1, s)
  {
    assert s[pos..][1..] == s[pos + 1..];
  }

  // ----------------------------------------------------------------- reader

  /** A header without elements, whatever comes behind it. */
  lemma NoElements(p: string, n: int, depth: nat)
    requires depth < MAX_DEPTH && n == FindNewline(p) >= 0 && ReadNumber(p[..n]) <= 0
    ensures forall t: string :: Parse(ArrayItem, p + t, depth) == Got(EmptyArray(ReadNumber(p[..n])), p[n + 2..] + t)
  {
    forall t: string
      ensures Parse(ArrayItem, p + t, depth) == Got(EmptyArray(ReadNumber(p[..n])), p[n + 2..] + t)
    {
      FindNewlineExtend(p, t);
      assert (p + t)[..n] == p[..n] && (p + t)[n + 2..] == p[n + 2..] + t;
    }
  }

  class Reader {
    var err: Option<ProtocolError>
    var buf: string
    var pos: nat
    /** rstack[9], of which 0 to ridx are in use. */
    var rstack: seq<Task>
    var ridx: int
    var reply: Option<Reply>
    /** Everything fed, and everything emitted, so far. */
    ghost var fed: string
    ghost var emitted: seq<Reply>

    ghost function M(): Machine
      reads this
    {
      Machine(err, reply, rstack, ridx)
    }

    ghost function Unread(): string
      requires pos <= |buf|
      reads this
    {
      buf[pos..]
    }

    ghost predicate Inner()
      reads this
    {
      pos <= |buf| && M().Ok() && (err.Some? ==> buf == [] && pos == 0)
    }

    /** Between calls: what was emitted and what is still to come make up the
        replies of everything fed, now and after any further input. */
    ghost predicate Valid()
      reads this
    {
      && Inner() && reply.None? && (ridx == MAX_DEPTH ==> rstack[ridx].typ != ArrayItem)
      && forall t: string :: ParseAll(fed + t) == Prepend(emitted, M().Outcome(Unread() + t))
    }

    /** redisReaderCreate, hiredis.c:556-575. */
    constructor ()
      ensures Valid() && err.None? && fed == [] && emitted == []
    {
      err, buf, pos, reply := None, [], 0, None;
      rstack := seq(MAX_DEPTH + 1, _ => FRESH);
      ridx := -1;
      fed, emitted := [], [];
    }

    /** __redisReaderSetError, hiredis.c:186-210. */
    method SetError(e: ProtocolError)
      requires Inner()
      modifies `err, `buf, `pos, `ridx, `reply
      ensures Inner() && err == Some(e) && reply.None?
    {
      reply, buf, pos, ridx, err := None, [], 0, -1, Some(e);
    }

    /** moveToNextTask, hiredis.c:330-353, for a finished item v: closes the arrays
        that v completes. */
    method MoveToNextTask(v0: Reply)
      requires StackOk(rstack, ridx) && 0 <= ridx
      modifies `rstack, `ridx, `reply
      ensures StackOk(rstack, ridx)
      ensures ridx == -1 ==> reply.Some?
      ensures ridx == -1 ==> forall s: string :: Climb(old(rstack[..ridx]), v0, s) == Got(reply.value, s)
      ensures ridx >= 0 ==> reply == old(reply) && rstack[ridx].typ == Unknown
      ensures ridx >= 0 ==> forall s: string :: Climb(old(rstack[..ridx]), v0, s) == Resume(rstack[..ridx], Unknown, s)
    {
      var v := v0;
      ghost var frames0 := rstack[..ridx];
      while true
        invariant StackOk(rstack, ridx) && 0 <= ridx && reply == old(reply)
        invariant forall s: string :: Climb(frames0, v0, s) == Climb(rstack[..ridx], v, s)
        decreases ridx
      {
        if ridx == 0 {
          reply := Some(v);
          ridx := ridx - 1;
          return;
        }
        var cur, prv := rstack[ridx], rstack[ridx - 1];
        assert prv.typ == ArrayItem;
        ghost var frames := rstack[..ridx - 1];
        assert rstack[..ridx] == frames + [prv];
        rstack := rstack[ridx - 1 := prv.(obj := prv.obj + [v])];
        if cur.idx == prv.elements - 1 {
          forall s: string ensures Climb(frames + [prv], v, s) == Climb(frames, Array(prv.obj + [v]), s) {
            CloseStep(frames, prv, v, s);
          }
          assert rstack[..ridx - 1] == frames;
          v := Array(prv.obj + [v]);
          ridx := ridx - 1;
        } else {
          assert cur.idx < prv.elements;
          rstack := rstack[ridx := cur.(typ := Unknown, elements := -1, idx := cur.idx + 1)];
          assert rstack[..ridx] == frames + [prv.(obj := prv.obj + [v])];
          forall s: string ensures Climb(frames + [prv], v, s) == Resume(rstack[..ridx], Unknown, s) {
            NextStep(frames, prv, v, s);
          }
          return;
        }
      }
    }

    /** A finished item: the input behind it is consumed and the stack moves on. */
    method FinishItem(v: Reply, consumed: nat)
      requires Reading() && consumed <= |Unread()|
      requires forall t: string ::
          Parse(rstack[ridx].typ, Unread() + t, ridx) == Got(v, Unread()[consumed..] + t)
      modifies `pos, `rstack, `ridx, `reply
      ensures Inner() && pos == old(pos) + consumed && (if ridx == -1 then reply.Some? else rstack[ridx].typ == Unknown)
      ensures Equivalent(old(M()), old(Unread()), M(), Unread())
    {
      ghost var m, u := M(), Unread();
      ghost var frames := rstack[..ridx];
      pos := pos + consumed;
      assert Unread() == u[consumed..];
      MoveToNextTask(v);
      forall t: string ensures m.Outcome(u + t) == M().Outcome(Unread() + t) {
        assert Resume(frames, m.rstack[m.ridx].typ, u + t) == Climb(frames, v, Unread() + t);
      }
    }

    /** An item is being read. */
    ghost predicate Reading()
      reads this
    {
      Inner() && 0 <= ridx && err.None? && reply.None?
    }

    /** processLineItem, hiredis.c:355-387. */
    method ProcessLineItem() returns (ok: bool)
      requires Reading() && rstack[ridx].typ in {ErrorItem, StatusItem, IntegerItem}
      modifies `pos, `rstack, `ridx, `reply
      ensures Inner() && Equivalent(old(M()), old(Unread()), M(), Unread())
      ensures ok ==> pos > old(pos) && (if ridx == -1 then reply.Some? else rstack[ridx].typ == Unknown)
      ensures !ok ==> pos == old(pos) && M() == old(M()) && M().Outcome(Unread()) == Stream([], None)
    {
      var p := buf[pos..];
      var len := SeekNewline(p);
      ok := len >= 0;
      if ok {
        forall t: string
          ensures ParseLine(rstack[ridx].typ, p + t) == Got(LineReply(rstack[ridx].typ, p[..len]), p[len + 2..] + t)
        {
          ParseLineExtend(rstack[ridx].typ, p, t);
        }
        FinishItem(LineReply(rstack[ridx].typ, p[..len]), len + 2);
      }
    }

    /** processBulkItem, hiredis.c:389-440. */
    method ProcessBulkItem() returns (ok: bool)
      requires Reading() && rstack[ridx].typ == StringItem
      modifies `pos, `rstack, `ridx, `reply
      ensures Inner() && Equivalent(old(M()), old(Unread()), M(), Unread())
      ensures ok ==> pos > old(pos) && (if ridx == -1 then reply.Some? else rstack[ridx].typ == Unknown)
      ensures !ok ==> pos == old(pos) && M() == old(M()) && M().Outcome(Unread()) == Stream([], None)
    {
      var p := buf[pos..];
      var s := SeekNewline(p);
      if s < 0 { return false; }
      var bytelen := s + 2;
      var len := ReadNumber(p[..s]);
      var obj := Nil;
      if len >= 0 {
        bytelen := bytelen + len + 2;
        if pos + bytelen > |buf| { return false; }
        obj := Str(p[s + 2..s + 2 + len]);
      }
      assert ParseBulk(p) == Got(obj, p[bytelen..]);
      forall t: string ensures ParseBulk(p + t) == Got(obj, p[bytelen..] + t) {
        ParseBulkExtend(p, t);
      }
      FinishItem(obj, bytelen);
      return true;
    }

    /** processMultiBulkItem, hiredis.c:442-505. */
    method ProcessMultiBulkItem() returns (ok: bool)
      requires Reading() && rstack[ridx].typ == ArrayItem
      modifies `pos, `rstack, `ridx, `reply, `buf, `err
      ensures Inner() && Equivalent(old(M()), old(Unread()), M(), Unread())
      ensures ok ==>
                err.None? && pos > old(pos) && buf == old(buf)
                  && (if ridx == -1 then reply.Some? else rstack[ridx].typ == Unknown)
      ensures !ok ==> err.Some? || (pos == old(pos) && buf == old(buf) && M() == old(M()) && ridx < MAX_DEPTH)
      ensures !ok && err.None? ==> M().Outcome(Unread()) == Stream([], None)
    {
      if ridx == 8 {
        SetError(TooDeep);
        return false;
      }
      var p := buf[pos..];
      var n := SeekNewline(p);
      if n < 0 { return false; }
      var elements := ReadNumber(p[..n]);
      if elements <= 0 {
        NoElements(p, n, ridx);
        FinishItem(EmptyArray(elements), n + 2);
      } else {
        OpenArray(elements, n);
      }
      return true;
    }

    /** hiredis.c:484-493. */
    method OpenArray(elements: int, n: int)
      requires Reading() && rstack[ridx].typ == ArrayItem && ridx < MAX_DEPTH
      requires n == FindNewline(Unread()) >= 0 && elements == ReadNumber(Unread()[..n]) > 0
      modifies `pos, `rstack, `ridx
      ensures Reading() && pos == old(pos) + n + 2 && rstack[ridx].typ == Unknown
      ensures Equivalent(old(M()), old(Unread()), M(), Unread())
    {
      ghost var m, u := M(), Unread();
      ghost var frames := rstack[..ridx];
      var task := rstack[ridx].(elements := elements, obj := []);
      rstack := rstack[ridx := task];
      ridx := ridx + 1;
      rstack := rstack[ridx := FRESH];
      pos := pos + n + 2;
      assert rstack[..ridx] == frames + [task] && Unread() == u[n + 2..];
      forall t: string ensures m.Outcome(u + t) == M().Outcome(Unread() + t) {
        OpenStep(frames, task, u, t);
      }
    }

    /** hiredis.c:512-538.  Fails for want of input, or with an error. */
    method ReadType() returns (ok: bool)
      requires Reading() && rstack[ridx].typ == Unknown
      modifies `pos, `rstack, `ridx, `reply, `buf, `err
      ensures Inner() && Equivalent(old(M()), old(Unread()), M(), Unread())
      ensures ok ==> Reading() && rstack[ridx].typ != Unknown && pos == old(pos) + 1 && buf == old(buf)
      ensures !ok ==> err.Some? || (pos == old(pos) && buf == old(buf) && M() == old(M()) && Unread() == [])
    {
      ghost var m, u := M(), Unread();
      ghost var frames := rstack[..ridx];
      if |buf| - pos < 1 { return false; }
      var c := buf[pos];
      pos := pos + 1;
      assert Unread() == u[1..] && c == u[0];
      forall t: string ensures Resume(frames, Unknown, u + t) ==
          if TypeOf(c) == Unknown then Bad(TypeByte(c)) else Resume(frames, TypeOf(c), u[1..] + t)
      {
        TypeStep(frames, u, t);
      }
      if TypeOf(c) == Unknown {
        SetError(TypeByte(c));
        return false;
      }
      rstack := rstack[ridx := rstack[ridx].(typ := TypeOf(c))];
      assert rstack[..ridx] == frames;
      return true;
    }

    /** processItem, hiredis.c:507-554. */
    method ProcessItem() returns (ok: bool)
      requires Reading() && (ridx == MAX_DEPTH ==> rstack[ridx].typ != ArrayItem)
      modifies `pos, `rstack, `ridx, `reply, `buf, `err
      ensures Inner() && Equivalent(old(M()), old(Unread()), M(), Unread())
      ensures err.None? ==> buf == old(buf) && (ridx == MAX_DEPTH ==> rstack[ridx].typ != ArrayItem)
      ensures ok ==> err.None? && pos > old(pos) && (ridx == -1 ==> reply.Some?)
      ensures !ok && err.None? ==> Reading() && M().Outcome(Unread()) == Stream([], None)
    {
      if rstack[ridx].typ == Unknown {
        ok := ReadType();
        if !ok { return; }
      }
      ok := ProcessTyped();
    }

    /** hiredis.c:540-553: an item whose type is known. */
    method ProcessTyped() returns (ok: bool)
      requires Reading() && rstack[ridx].typ != Unknown
      modifies `pos, `rstack, `ridx, `reply, `buf, `err
      ensures Inner() && Equivalent(old(M()), old(Unread()), M(), Unread())
      ensures err.None? ==> buf == old(buf) && (ridx == MAX_DEPTH ==> rstack[ridx].typ != ArrayItem)
      ensures ok ==> err.None? && pos > old(pos) && (ridx == -1 ==> reply.Some?)
      ensures !ok && err.None? ==> Reading() && M().Outcome(Unread()) == Stream([], None)
    {
      match rstack[ridx].typ {
        case StringItem => ok := ProcessBulkItem();
        case ArrayItem => ok := ProcessMultiBulkItem();
        case ErrorItem => ok := ProcessLineItem();
        case StatusItem => ok := ProcessLineItem();
        case IntegerItem => ok := ProcessLineItem();
        case Unknown => assert false;
      }
    }

    /** redisReaderFeed, hiredis.c:585-615. */
    method Feed(input: string) returns (ok: bool)
      requires Valid()
      modifies `buf, `fed
      ensures Valid() && (ok <==> err.None?)
      ensures fed == if ok then old(fed) + input else old(fed)
    {
      if err.Some? { return false; }
      ghost var u := Unread();
      buf := buf + input;
      fed := fed + input;
      assert Unread() == u + input;
      forall t: string ensures ParseAll(fed + t) == Prepend(emitted, M().Outcome(Unread() + t)) {
        assert fed + t == old(fed) + (input + t) && Unread() + t == u + (input + t);
      }
      return true;
    }

    /** The loop of hiredis.c:630-644: starts a root task and processes items until
        one fails or the root is complete. */
    method ProcessItems()
      requires Inner() && err.None? && reply.None? && (ridx == MAX_DEPTH ==> rstack[ridx].typ != ArrayItem)
      modifies `pos, `rstack, `ridx, `reply, `buf, `err
      ensures Inner() && Equivalent(old(M()), old(Unread()), M(), Unread())
      ensures err.None? ==> (ridx == MAX_DEPTH ==> rstack[ridx].typ != ArrayItem) && (ridx == -1 ==> reply.Some?)
      ensures err.None? && reply.None? ==> M().Outcome(Unread()) == Stream([], None)
    {
      ghost var m, u := M(), Unread();
      if ridx == -1 {
        rstack := rstack[0 := Task(Unknown, -1, -1, [])];
        ridx := 0;
        assert rstack[..0] == [];
      }
      while ridx >= 0
        invariant Inner() && Equivalent(m, u, M(), Unread())
        invariant err.None? && (ridx == MAX_DEPTH ==> rstack[ridx].typ != ArrayItem)
        invariant ridx == -1 ==> reply.Some?
        decreases |buf| - pos
      {
        var ok := ProcessItem();
        if !ok { return; }
      }
    }

    /** redisReaderGetReply, hiredis.c:617-665.  Without a reply, everything fed so
        far has been parsed: what was emitted is exactly what a parse of all the
        input in one piece yields, and so is the error. */
    method GetReply() returns (ok: bool, r: Option<Reply>)
      requires Valid()
      modifies this
      ensures Valid() && (ok <==> err.None?) && fed == old(fed) && (old(err).Some? ==> err == old(err))
      ensures emitted == old(emitted) + (if r.Some? then [r.value] else [])
      ensures r.None? ==> ParseAll(fed) == Stream(emitted, err)
    {
      r := None;
      assert fed + [] == fed && Unread() + [] == Unread();
      if err.Some? { return false, r; }
      if |buf| == 0 { return true, r; }
      ghost var m, u := M(), Unread();
      ProcessItems();
      assert Unread() + [] == Unread() && u + [] == u;
      if err.Some? { return false, r; }
      if pos >= 1024 {
        ghost var before := Unread();
        buf, pos := buf[pos..], 0;
        assert Unread() == before;
      }
      if ridx == -1 { r := Emit(); }
      return true, r;
    }

    /** hiredis.c:658-663: the root reply is handed to the caller. */
    method Emit() returns (r: Option<Reply>)
      requires Inner() && ridx == -1 && reply.Some? && err.None?
      requires forall t: string :: ParseAll(fed + t) == Prepend(emitted, M().Outcome(Unread() + t))
      modifies `reply, `emitted
      ensures Valid() && r == old(reply) && emitted == old(emitted) + [r.value]
    {
      r := reply;
      EmitValid(fed, emitted, r.value, Unread());
      reply, emitted := None, emitted + [r.value];
    }
  }

  function Flatten(chunks: seq<string>): string
  {
    if chunks == [] then [] else Flatten(chunks[..|chunks| - 1]) + chunks[|chunks| - 1]
  }

  /** The reader has been offered `stream`; after an error it ignores input. */
  ghost predicate Offered(reader: Reader, stream: string)
    reads reader
  {
    reader.Valid() && reader.fed <= stream && (reader.err.None? ==> reader.fed == stream)
  }

  lemma OfferedStream(reader: Reader, stream: string)
    requires Offered(reader, stream)
    ensures ParseAll(stream) == Prepend(reader.emitted, reader.M().Outcome(reader.Unread() + stream[|reader.fed|..]))
  {
    assert stream == reader.fed + stream[|reader.fed|..];
  }

  lemma FlattenNext(chunks: seq<string>, j: nat)
    requires j < |chunks|
    ensures Flatten(chunks[..j + 1]) == Flatten(chunks[..j]) + chunks[j]
  {
    assert chunks[..j + 1][..j] == chunks[..j];
  }

  /** One more feed. */
  method Offer(reader: Reader, chunk: string, ghost stream: string)
    requires Offered(reader, stream)
    modifies reader
    ensures Offered(reader, stream + chunk) && reader.emitted == old(reader.emitted)
  {
    var _ := reader.Feed(chunk);
    assert stream <= stream + chunk;
  }

  /** Some calls of GetReply. */
  method Poll(reader: Reader, calls: nat, ghost stream: string) returns (replies: seq<Reply>)
    requires Offered(reader, stream)
    modifies reader
    ensures Offered(reader, stream) && reader.emitted == old(reader.emitted) + replies
  {
    replies := [];
    var n := 0;
    while n < calls
      invariant n <= calls && Offered(reader, stream) && reader.emitted == old(reader.emitted) + replies
    {
      var _, r := reader.GetReply();
      if r.Some? { replies := replies + [r.value]; }
      n := n + 1;
    }
  }

  /** Calls of GetReply until there is no reply. */
  method Drain(reader: Reader, ghost stream: string) returns (replies: seq<Reply>)
    requires Offered(reader, stream)
    modifies reader
    ensures reader.emitted == old(reader.emitted) + replies
    ensures ParseAll(stream) == Stream(reader.emitted, reader.err)
  {
    replies := [];
    OfferedStream(reader, stream);
    while true
      invariant Offered(reader, stream) && reader.emitted == old(reader.emitted) + replies
      invariant |reader.emitted| <= |ParseAll(stream).replies|
      decreases |ParseAll(stream).replies| - |reader.emitted|
    {
      var _, r := reader.GetReply();
      OfferedStream(reader, stream);
      if r.None? { return; }
      replies := replies + [r.value];
    }
  }

  /** Fragmentation does not matter: for every way of cutting a stream into feeds,
      with any number of GetReply calls after each, the replies and the error are
      those of the stream parsed in one piece. */
  method Deliver(chunks: seq<string>, calls: seq<nat>) returns (replies: seq<Reply>, error: Option<ProtocolError>)
    requires |calls| == |chunks|
    ensures Stream(replies, error) == ParseAll(Flatten(chunks))
  {
    var reader := new Reader();
    replies := [];
    var j := 0;
    while j < |chunks|
      invariant j <= |chunks| && fresh(reader) && replies == reader.emitted
      invariant Offered(reader, Flatten(chunks[..j]))
    {
      FlattenNext(chunks, j);
      Offer(reader, chunks[j], Flatten(chunks[..j]));
      var some := Poll(reader, calls[j], Flatten(chunks[..j + 1]));
      replies := replies + some;
      j := j + 1;
    }
    assert chunks[..|chunks|] == chunks;
    var rest := Drain(reader, Flatten(chunks));
    return replies + rest, reader.err;
  }

  lemma EmitValid(fed: string, emitted: seq<Reply>, v: Reply, s: string)
    requires forall t: string :: ParseAll(fed + t) == Prepend(emitted, Prepend([v], ParseAll(s + t)))
    ensures forall t: string :: ParseAll(fed + t) == Prepend(emitted + [v], ParseAll(s + t))
  {
    forall t: string ensures ParseAll(fed + t) == Prepend(emitted + [v], ParseAll(s + t)) {
      var st := ParseAll(s + t);
      assert emitted + ([v] + st.replies) == emitted + [v] + st.replies;
    }
  }
}
