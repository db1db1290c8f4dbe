/** The LZF codec: src/lzf_c.c, src/lzf_d.c and src/lzfP.h.

    Compressed format (lzf_c.c:89-96):

      000LLLLL <L+1>               literal run of L+1 octets
      LLLooooo oooooooo            back reference of L+2 octets
      111ooooo LLLLLLLL oooooooo   back reference of L+9 octets

    Pointers are positions relative to the start of their buffer. */
module Lzf {

  type Byte = b: int | 0 <= b < 256

  const HSIZE := 0x1_0000
  const MAX_LIT := 32
  const MAX_OFF := 0x2000
  const MAX_REF := 264
  const TWO_TO_THE_64 := 0x1_0000_0000_0000_0000

  /** A pointer less the address of in_data.  The hash table is never cleared, so
      its slots hold arbitrary 64-bit values; this type has all of them when the
      input does not lie in the first MAX_OFF addresses. */
  type Position = p: int | -0x1_0000_0000_0000_0000 < p < 0x1_0000_0000_0000_0000 - 0x2000

  datatype Error = E2Big | EInval

  datatype Outcome = Done(output: seq<Byte>) | Fail(error: Error)

  // ---------------------------------------------------------------- format

  /** Appends n octets, each a copy of the one `back` places before it.  The
      source and the destination overlap when back < n. */
  function CopyBack(out: seq<Byte>, back: nat, n: nat): (r: seq<Byte>)
    requires 0 < back <= |out|
    ensures |r| == |out| + n && r[..|out|] == out
    ensures forall i :: |out| <= i < |r| ==> r[i] == r[i - back]
    decreases n
  {
    if n == 0 then out else CopyBack(out + [out[|out| - back]], back, n - 1)
  }

  /** What the first instruction of a stream does to `out`, when at most `room`
      octets may be produced in all. */
  datatype Effect = Grow(consumed: nat, output: seq<Byte>) | Stop(error: Error)

  function Step(s: seq<Byte>, out: seq<Byte>, room: nat): (e: Effect)
    requires |s| > 0
    ensures e.Grow? ==> 0 < e.consumed <= |s| && |out| < |e.output| <= room
  {
    if s[0] < 32 then
      var n := s[0] as int + 1;
      if |out| + n > room then Stop(E2Big)
      else if 1 + n > |s| then Stop(EInval)
      else Grow(1 + n, out + s[1..1 + n])
    else if |s| < HeaderSize(s[0]) then Stop(EInval)
    else if |out| + RefLength(s) > room then Stop(E2Big)
    else if |out| < RefDistance(s) then Stop(EInval)
    else Grow(HeaderSize(s[0]), CopyBack(out, RefDistance(s), RefLength(s)))
  }

  /** The meaning of a compressed stream that follows the output `out`. */
  function Decode(s: seq<Byte>, out: seq<Byte>, room: nat): Outcome
    decreases |s|
  {
    if s == [] then Done(out)
    else match Step(s, out, room)
      case Stop(e) => Fail(e)
      case Grow(n, next) => Decode(s[n..], next, room)
  }

  function HeaderSize(ctrl: Byte): (h: nat)
  {
    if ctrl / 32 == 7 then 3 else 2
  }

  function RefLength(s: seq<Byte>): (n: nat)
    requires |s| > 0 && 32 <= s[0] && |s| >= HeaderSize(s[0])
  {
    var ctrl: int := s[0];
    if ctrl / 32 == 7 then s[1] as int + 9 else ctrl / 32 + 2
  }

  function RefDistance(s: seq<Byte>): (d: nat)
    requires |s| > 0 && |s| >= HeaderSize(s[0])
    ensures 1 <= d <= MAX_OFF
  {
    var ctrl: int := s[0];
    (ctrl % 32) * 256 + 1 + s[HeaderSize(ctrl) - 1]
  }

  // -------------------------------------------------- properties of Decode

  /** Octets behind a complete instruction do not change what it does. */
  lemma StepConcat(s: seq<Byte>, t: seq<Byte>, out: seq<Byte>, room: nat)
    requires |s| > 0 && Step(s, out, room).Grow?
    ensures Step(s + t, out, room) == Step(s, out, room)
  {
    var u := s + t;
    if s[0] < 32 {
      var n := s[0] as int + 1;
      assert u[1..1 + n] == s[1..1 + n];
    } else {
      assert u[0] == s[0] && u[1] == s[1] && u[HeaderSize(s[0]) - 1] == s[HeaderSize(s[0]) - 1];
    }
  }

  /** Decoding resumes where the first part of a stream stopped. */
  lemma {:induction false} DecodeConcat(s: seq<Byte>, t: seq<Byte>, out: seq<Byte>, room: nat)
    requires Decode(s, out, room).Done?
    ensures Decode(s + t, out, room) == Decode(t, Decode(s, out, room).output, room)
    decreases |s|
  {
    if s == [] {
      assert s + t == t;
    } else {
      StepConcat(s, t, out, room);
      var e := Step(s, out, room);
      assert (s + t)[e.consumed..] == s[e.consumed..] + t;
      DecodeConcat(s[e.consumed..], t, e.output, room);
    }
  }

  /** A stream that decodes needs exactly as much room as its output takes: with
      less the outcome is E2BIG, and with more it is the same output. */
  lemma {:induction false} DecodeRoom(s: seq<Byte>, out: seq<Byte>, enough: nat, room: nat)
    requires Decode(s, out, enough).Done?
    requires |out| <= room
    ensures |out| <= |Decode(s, out, enough).output|
    ensures var x := Decode(s, out, enough).output;
            Decode(s, out, room) == if |x| <= room then Done(x) else Fail(E2Big)
    decreases |s|
  {
    if s == [] {
    } else {
      var e := Step(s, out, enough);
      DecodeRoom(s[e.consumed..], e.output, enough, if |e.output| <= room then room else |e.output|);
    }
  }

  // ----------------------------------------------------------- decompressor

  /** lzf_decompress, with CHECK_INPUT.  Errors are reported by returning 0 and
      setting errno; on success errno keeps a value that means nothing. */
  method Decompress(input: seq<Byte>, out: array<Byte>) returns (n: nat, errno: Error)
    requires |input| > 0
    modifies out
    ensures match Decode(input, [], out.Length)
            case Done(x) => n == |x| > 0 && n <= out.Length && out[..n] == x
            case Fail(e) => n == 0 && errno == e
  {
    var ip, op, ok := 0, 0, true;
    errno := EInval;
    while true
      invariant 0 <= ip < |input| && 0 <= op <= out.Length
      invariant Decode(input, [], out.Length) == Decode(input[ip..], out[..op], out.Length)
      decreases |input| - ip
    {
      ghost var ip0 := ip;
      if input[ip] < 32 {
        ok, errno, ip, op := LiteralRun(input, ip, out, op);
      } else {
        ok, errno, ip, op := BackReference(input, ip, out, op);
      }
      if !ok { return 0, errno; }
      assert input[ip0..][ip - ip0..] == input[ip..];
      if ip >= |input| { break; }
    }
    return op, errno;
  }

  /** What a decoder branch that starts at ip0 and op0 must have done. */
  twostate predicate Decoded(input: seq<Byte>, ip0: nat, out: array<Byte>, op0: nat,
                             ok: bool, errno: Error, ip: nat, op: nat)
    requires ip0 < |input| && op0 <= out.Length
    reads out
  {
    match Step(input[ip0..], old(out[..op0]), out.Length)
    case Grow(n, next) => ok && ip == ip0 + n && op == |next| && op <= out.Length && out[..op] == next
    case Stop(e) => !ok && errno == e
  }

  /** lzf_d.c:70-91. */
  method LiteralRun(input: seq<Byte>, ip0: nat, out: array<Byte>, op0: nat)
    returns (ok: bool, errno: Error, ip: nat, op: nat)
    requires ip0 < |input| && op0 <= out.Length && input[ip0] < 32
    modifies out
    ensures Decoded(input, ip0, out, op0, ok, errno, ip, op)
  {
    ip, op := ip0 + 1, op0;
    var ctrl := input[ip0] as int + 1;
    if op + ctrl > out.Length { return false, E2Big, ip, op; }
    if ip + ctrl > |input| { return false, EInval, ip, op; }
    ip, op := CopyLiterals(input, ip, out, op, ctrl);
    assert input[ip0..][1..1 + ctrl] == input[ip0 + 1..ip];
    return true, EInval, ip, op;
  }

  /** lzf_d.c:96-142. */
  method BackReference(input: seq<Byte>, ip0: nat, out: array<Byte>, op0: nat)
    returns (ok: bool, errno: Error, ip: nat, op: nat)
    requires ip0 < |input| && op0 <= out.Length && input[ip0] >= 32
    modifies out
    ensures Decoded(input, ip0, out, op0, ok, errno, ip, op)
  {
    ip, op := ip0 + 1, op0;
    var ctrl: int := input[ip0];
    var len := ctrl / 32;
    var ref := op - (ctrl % 32) * 256 - 1;
    if ip >= |input| { return false, EInval, ip, op; }
    if len == 7 {
      len := len + input[ip];
      ip := ip + 1;
      if ip >= |input| { return false, EInval, ip, op; }
    }
    ref := ref - input[ip];
    ip := ip + 1;
    ghost var rest := input[ip0..];
    assert op - ref == RefDistance(rest) && len + 2 == RefLength(rest);
    if op + len + 2 > out.Length { return false, E2Big, ip, op; }
    if ref < 0 { return false, EInval, ip, op; }
    op := CopyReference(out, ref, op, len + 2);
    return true, EInval, ip, op;
  }

  /** The literal loop of lzf_d.c:89-91. */
  method CopyLiterals(input: seq<Byte>, ip0: nat, out: array<Byte>, op0: nat, count: nat) returns (ip: nat, op: nat)
    requires 0 < count && ip0 + count <= |input| && op0 + count <= out.Length
    modifies out
    ensures ip == ip0 + count && op == op0 + count
    ensures out[..op] == old(out[..op0]) + input[ip0..ip]
  {
    ip, op := ip0, op0;
    var ctrl := count;
    while ctrl > 0
      invariant 0 <= ctrl <= count && ip == ip0 + count - ctrl && op == op0 + count - ctrl
      invariant out[..op] == old(out[..op0]) + input[ip0..ip]
    {
      out[op] := input[ip];
      assert out[..op + 1] == out[..op] + [input[ip]];
      ip, op, ctrl := ip + 1, op + 1, ctrl - 1;
    }
  }

  /** The possibly overlapping copy of lzf_d.c:137-142. */
  method CopyReference(out: array<Byte>, ref0: nat, op0: nat, count: nat) returns (op: nat)
    requires ref0 < op0 && op0 + count <= out.Length
    modifies out
    ensures op == op0 + count
    ensures out[..op] == CopyBack(old(out[..op0]), op0 - ref0, count)
  {
    op := op0;
    var ref, len := ref0, count;
    while len > 0
      invariant 0 <= len <= count && op == op0 + count - len && op - ref == op0 - ref0
      invariant CopyBack(old(out[..op0]), op0 - ref0, count) == CopyBack(out[..op], op0 - ref0, len)
    {
      ghost var before := out[..op];
      assert before[|before| - (op0 - ref0)] == out[ref];
      out[op] := out[ref];
      assert out[..op + 1] == before + [out[op]];
      op, ref, len := op + 1, ref + 1, len - 1;
    }
  }

  // ------------------------------------------------------------- compressor

  /** What holds of the output between two steps of the compressor: `lit`
      pending literals end at op behind a reserved control octet, and everything
      before that octet decodes to the input before them. */
  ghost predicate Pending(buf: seq<Byte>, op: int, lit: int, input: seq<Byte>, ip: int)
  {
    && 0 <= lit <= MAX_LIT && lit <= ip <= |input| && lit + 1 <= op <= |buf|
    && buf[op - lit..op] == input[ip - lit..ip]
    && Decode(buf[..op - lit - 1], [], |input|) == Done(input[..ip - lit])
    && 32 * (op - lit - 1) <= 33 * (ip - lit)
  }

  /** What holds once the pending run is closed. */
  ghost predicate Closed(buf: seq<Byte>, op: int, input: seq<Byte>, ip: int)
  {
    && 0 <= ip <= |input| && 0 <= op <= |buf|
    && Decode(buf[..op], [], |input|) == Done(input[..ip])
  }

  lemma AppendLiteral(buf: seq<Byte>, op: int, lit: int, input: seq<Byte>, ip: int)
    requires Pending(buf, op, lit, input, ip) && lit < MAX_LIT && ip < |input| && op < |buf|
    ensures Pending(buf[op := input[ip]], op + 1, lit + 1, input, ip + 1)
  {
    var after := buf[op := input[ip]];
    assert after[..op - lit - 1] == buf[..op - lit - 1];
    assert after[op - lit..op + 1] == buf[op - lit..op] + [input[ip]];
    assert input[ip - lit..ip + 1] == input[ip - lit..ip] + [input[ip]];
  }

  /** Storing the run length in the reserved octet makes the run decodable. */
  lemma CloseRun(buf: seq<Byte>, op: int, lit: int, input: seq<Byte>, ip: int)
    requires Pending(buf, op, lit, input, ip) && 0 < lit
    ensures Closed(buf[op - lit - 1 := lit - 1], op, input, ip)
    ensures 32 * op <= 33 * ip + 32 - lit
  {
    var c := op - lit - 1;
    var after := buf[c := lit - 1];
    var run := after[c..op];
    assert after[..op] == buf[..c] + run;
    assert run[1..1 + lit] == input[ip - lit..ip];
    assert run[1 + lit..] == [];
    assert input[..ip - lit] + input[ip - lit..ip] == input[..ip];
    DecodeConcat(buf[..c], run, [], |input|);
  }

  /** Reserving the control octet of the next, still empty, run. */
  lemma StartRun(buf: seq<Byte>, op: int, input: seq<Byte>, ip: int)
    requires Closed(buf, op, input, ip) && op < |buf| && 32 * op <= 33 * ip
    ensures Pending(buf, op + 1, 0, input, ip)
  {
    assert buf[op + 1..op + 1] == input[ip..ip];
  }

  ghost predicate Matches(input: seq<Byte>, ref: int, ip: int, n: int)
  {
    && 0 <= ref < ip && 0 <= n && ip + n <= |input|
    && forall i :: ip <= i < ip + n ==> input[i] == input[i - (ip - ref)]
  }

  /** Copying from `ref` reproduces the octets that matched there. */
  lemma {:induction false} CopyBackMatch(input: seq<Byte>, ref: nat, ip: nat, n: nat)
    requires ref < ip && ip + n <= |input|
    requires Matches(input, ref, ip, n)
    ensures CopyBack(input[..ip], ip - ref, n) == input[..ip + n]
    decreases n
  {
    if n == 0 {
    } else {
      assert input[..ip] + [input[..ip][ip - (ip - ref)]] == input[..ip + 1];
      CopyBackMatch(input, ref + 1, ip + 1, n - 1);
    }
  }

  /** The octets emitted for a back reference of `octets` octets at distance
      off + 1. */
  function EncodeRef(off: int, octets: int): (s: seq<Byte>)
    requires 0 <= off < MAX_OFF && 3 <= octets <= MAX_REF
    ensures |s| >= 2 && |s| == HeaderSize(s[0]) && 32 <= s[0]
    ensures RefDistance(s) == off + 1 && RefLength(s) == octets
  {
    var len := octets - 2;
    if len < 7 then [off / 256 + len * 32, off % 256]
    else [off / 256 + 7 * 32, len - 7, off % 256]
  }

  lemma AppendReference(buf: seq<Byte>, op: int, input: seq<Byte>, ref: int, ip: int, octets: int, after: seq<Byte>)
    requires Closed(buf, op, input, ip)
    requires 0 <= ref < ip && ip - ref - 1 < MAX_OFF && 3 <= octets <= MAX_REF && ip + octets <= |input|
    requires Matches(input, ref, ip, octets)
    requires var code := EncodeRef(ip - ref - 1, octets);
             op + |code| <= |after| && after[..op + |code|] == buf[..op] + code
    ensures Closed(after, op + |EncodeRef(ip - ref - 1, octets)|, input, ip + octets)
    ensures 32 * op <= 33 * ip + 31 ==> 32 * (op + |EncodeRef(ip - ref - 1, octets)|) <= 33 * (ip + octets)
  {
    var code := EncodeRef(ip - ref - 1, octets);
    assert code[HeaderSize(code[0])..] == [];
    CopyBackMatch(input, ref, ip, octets);
    DecodeConcat(buf[..op], code, [], |input|);
  }

  /** FRST and NEXT on a 32-bit hval, and IDX with HLOG == 16 and VERY_FAST. */
  function First(input: seq<Byte>, p: int): (h: nat)
    requires 0 <= p && p + 1 < |input|
  {
    input[p] as int * 256 + input[p + 1]
  }

  function Next(h: nat, input: seq<Byte>, p: int): (r: nat)
    requires 0 <= p && p + 2 < |input|
  {
    (h * 256) % 0x1_0000_0000 + input[p + 2]
  }

  function Idx(h: nat): (i: nat)
    ensures i < HSIZE
  {
    (h / 256 - h * 5) % HSIZE
  }

  /** Whether the compressor takes the match it looked up at `ref`. */
  ghost predicate Usable(input: seq<Byte>, ref: int, ip: int) {
    0 < ref && ip - ref - 1 < MAX_OFF && ip + 4 < |input| && Matches(input, ref, ip, 3)
  }

  /** `n` octets match, and it stops there only at the longest reference, at a
      difference, or within two octets of the end of the input. */
  ghost predicate Longest(input: seq<Byte>, ref: int, ip: int, n: int) {
    && 3 <= n <= MAX_REF && Matches(input, ref, ip, n)
    && (n < MAX_REF && ip + n + 2 < |input| ==> input[ref + n] != input[ip + n])
  }

  /** The length of the match of `ip` at `ref`: lzf_c.c:169-209.  The sixteen
      unrolled probes run without testing maxlen. */
  method ExtendMatch(input: seq<Byte>, ref: int, ip: int) returns (len: int)
    requires ip + 4 < |input| && Matches(input, ref, ip, 3)
    ensures Longest(input, ref, ip, len)
  {
    len := 2;
    var maxlen := |input| - ip - len;
    maxlen := if maxlen > MAX_REF then MAX_REF else maxlen;
    if maxlen > 16 {
      var probe := 0;
      while probe < 16
        invariant 0 <= probe <= 16 && len == 2 + probe
        invariant Matches(input, ref, ip, len + 1)
      {
        len := len + 1;
        if input[ref + len] != input[ip + len] { return; }
        probe := probe + 1;
      }
    }
    len := len + 1;
    while len < maxlen && input[ref + len] == input[ip + len]
      invariant 3 <= len <= maxlen || len == 19
      invariant Matches(input, ref, ip, len)
      decreases maxlen - len
    {
      len := len + 1;
    }
  }

  /** The octets of a back reference stored at op: lzf_c.c:211-224. */
  method EmitReference(out: array<Byte>, op0: nat, off: int, octets: int) returns (op: nat)
    requires 0 <= off < MAX_OFF && 3 <= octets <= MAX_REF && op0 + 3 <= out.Length
    modifies out
    ensures var code := EncodeRef(off, octets);
            op == op0 + |code| && out[..op] == old(out[..op0]) + code
  {
    op := op0;
    var len := octets - 2;
    if len < 7 {
      out[op] := off / 256 + len * 32;
      op := op + 1;
    } else {
      out[op] := off / 256 + 7 * 32;
      out[op + 1] := len - 7;
      op := op + 2;
    }
    out[op] := off % 256;
    op := op + 1;
  }

  /** Looks the next three octets up and replaces their slot: lzf_c.c:147-166. */
  method FindMatch(input: seq<Byte>, ip: int, hval0: nat, htab: array<Position>)
    returns (hval: nat, found: bool, ref: Position)
    requires |input| < 0x1_0000_0000 && htab.Length == HSIZE && 0 <= ip < |input| - 2
    modifies htab
    ensures hval == Next(hval0, input, ip) && ref == old(htab[Idx(hval)])
    ensures htab[..] == old(htab[..])[Idx(hval) := ip]
    ensures found <==> Usable(input, ref, ip)
  {
    hval := Next(hval0, input, ip);
    ref := htab[Idx(hval)];
    htab[Idx(hval)] := ip;
    var off := (ip - ref - 1) % TWO_TO_THE_64;
    found := off < MAX_OFF && ip + 4 < |input| && ref > 0
      && input[ref] == input[ip] && input[ref + 1] == input[ip + 1] && input[ref + 2] == input[ip + 2];
  }

  /** Enters the last two positions of a match in the table: lzf_c.c:233-246. */
  method HashSkipped(input: seq<Byte>, ip: int, htab: array<Position>) returns (hval: nat)
    requires |input| < 0x1_0000_0000 && htab.Length == HSIZE && 2 <= ip < |input| - 2
    modifies htab
    ensures var h := Next(First(input, ip - 2), input, ip - 2);
            hval == Next(h, input, ip - 1) && htab[..] == old(htab[..])[Idx(h) := ip - 2][Idx(hval) := ip - 1]
  {
    hval := Next(First(input, ip - 2), input, ip - 2);
    htab[Idx(hval)] := ip - 2;
    hval := Next(hval, input, ip - 1);
    htab[Idx(hval)] := ip - 1;
  }

  /** One octet over and over. */
  ghost predicate Uniform(input: seq<Byte>)
  {
    input != [] && forall i :: 0 <= i < |input| ==> input[i] == input[0]
  }

  /** The slot of three octets c. */
  function Slot(c: Byte): (i: nat)
    ensures i < HSIZE
  {
    Idx(0x1_0101 * c as int)
  }

  /** Two octets c in hval. */
  function Pair(c: Byte): (h: nat)
  {
    0x101 * c as int
  }

  /** Only the last 24 bits of hval choose the slot. */
  lemma IdxLow(h: nat)
    ensures Idx(h) == Idx(h % 0x100_0000)
  {
    var a, b := h / 0x100_0000, h % 0x100_0000;
    assert h / 256 - h * 5 == (b / 256 - b * 5) + (a - a * 1280) * HSIZE;
    ModAdd(b / 256 - b * 5, a - a * 1280);
  }

  lemma ModAdd(x: int, k: int)
    ensures (x + k * HSIZE) % HSIZE == x % HSIZE
  {
    assert x + k * HSIZE == (x / HSIZE + k) * HSIZE + x % HSIZE;
  }

  lemma UniformNext(h: nat, input: seq<Byte>, p: int)
    requires Uniform(input) && 0 <= p < |input| - 2 && h % 0x1_0000 == Pair(input[0])
    ensures Next(h, input, p) % 0x1_0000 == Pair(input[0]) && Idx(Next(h, input, p)) == Slot(input[0])
  {
    NextBits(h, input[0]);
    assert input[p + 2] == input[0];
    IdxLow(Next(h, input, p));
  }

  lemma NextBits(h: nat, c: nat)
    requires h % 0x1_0000 == 0x101 * c && c < 256
    ensures ((h * 256) % 0x1_0000_0000 + c) % 0x100_0000 == 0x1_0101 * c
    ensures ((h * 256) % 0x1_0000_0000 + c) % 0x1_0000 == 0x101 * c
  {
    var a := h / 0x1_0000;
    assert h * 256 == 0x1_0000_0000 * (a / 256) + (0x100_0000 * (a % 256) + 0x1_0100 * c);
    assert (h * 256) % 0x1_0000_0000 == 0x100_0000 * (a % 256) + 0x1_0100 * c;
    assert 0x100_0000 * (a % 256) + 0x1_0101 * c == 0x1_0000 * (256 * (a % 256) + c) + 0x101 * c;
  }

  /** What holds between two steps when the input is one octet over and over: the slot of
      its next three octets leads one place back, and from the third octet on every 264
      octets have taken three, but for the last ones. */
  ghost predicate Steady(input: seq<Byte>, ip: int, op: int, lit: int, hval: nat, htab: seq<Position>)
  {
    && Uniform(input) && 0 <= lit <= ip <= |input| && |htab| == HSIZE
    && (ip < |input| - 2 ==> hval % 0x1_0000 == Pair(input[0]) && (ip > 0 ==> htab[Slot(input[0])] == ip - 1))
    && Thrifty(|input|, ip, op, lit)
  }

  /** Before the first match, behind the last, or between two with at most two literals,
      which are among the last four octets. */
  predicate Thrifty(n: int, ip: int, op: int, lit: int)
  {
    || (lit == ip && op == ip + 1 && (ip <= 2 || n <= 6))
    || (lit == 0 && ip >= n - 2 && 88 * (op - 7) <= ip - 2)
    || (2 <= ip - lit && lit <= 2 && (lit > 0 ==> ip - lit >= n - 4) && 88 * (op - lit - 4) <= ip - lit - 2)
  }

  /** In a uniform input the look-up finds a match from the third octet on. */
  lemma SteadyMatch(input: seq<Byte>, ip: int, op: int, lit: int, hval: nat, htab: seq<Position>)
    requires Steady(input, ip, op, lit, hval, htab) && ip < |input| - 2
    ensures Idx(Next(hval, input, ip)) == Slot(input[0])
    ensures Usable(input, htab[Slot(input[0])], ip) <==> 2 <= ip && ip + 4 < |input|
  {
    UniformNext(hval, input, ip);
  }

  /** A literal. */
  lemma SteadyLiteral(input: seq<Byte>, ip: int, op: int, lit: int, hval: nat, htab: seq<Position>,
                      hval': nat, htab': seq<Position>)
    requires |input| < 0x1_0000_0000
    requires Steady(input, ip, op, lit, hval, htab) && ip < |input| - 2 && (ip < 2 || ip + 4 >= |input|)
    requires hval' == Next(hval, input, ip) && htab' == htab[Idx(hval') := ip]
    ensures Steady(input, ip + 1, op + 1, lit + 1, hval', htab')
  {
    UniformNext(hval, input, ip);
  }

  /** A match. */
  lemma SteadyReference(input: seq<Byte>, ip: int, op: int, lit: int, hval: nat, htab: seq<Position>,
                        ref: int, ip': int, op': int, hval': nat, htab': seq<Position>)
    requires Steady(input, ip, op, lit, hval, htab) && 2 <= ip && ip + 4 < |input|
    requires Longest(input, ref, ip, ip' - ip) && op' <= op + (if lit == 0 then 3 else 4) && |htab'| == HSIZE
    requires ip' < |input| - 2 ==>
               hval' == Next(Next(First(input, ip' - 2), input, ip' - 2), input, ip' - 1)
                 && htab'[Idx(hval')] == ip' - 1
    ensures Steady(input, ip', op', 0, hval', htab')
  {
    if ip' < |input| - 2 { UniformTwice(input, ip'); }
    Thriftier(|input|, ip, op, lit, ip', op');
  }

  lemma UniformTwice(input: seq<Byte>, ip: int)
    requires Uniform(input) && 2 <= ip < |input| - 2
    ensures var h := Next(Next(First(input, ip - 2), input, ip - 2), input, ip - 1);
            h % 0x1_0000 == Pair(input[0]) && Idx(h) == Slot(input[0])
  {
    assert First(input, ip - 2) == Pair(input[0]);
    UniformNext(First(input, ip - 2), input, ip - 2);
    UniformNext(Next(First(input, ip - 2), input, ip - 2), input, ip - 1);
  }

  lemma Thriftier(n: int, ip: int, op: int, lit: int, ip': int, op': int)
    requires Thrifty(n, ip, op, lit) && 2 <= ip && ip + 4 < n && 0 <= lit && op' <= op + (if lit == 0 then 3 else 4)
    requires ip < ip' && (ip' == ip + MAX_REF || ip' + 2 >= n)
    ensures Thrifty(n, ip', op', 0)
  {}

  /** lzf_compress.  `htab` has arbitrary contents on entry; `out` has one octet
      beyond out_len because lzf_c.c:173 stores before it tests for space.  One octet over
      and over takes three octets for every 264. */
  method Compress(input: seq<Byte>, out: array<Byte>, outLen: nat, htab: array<Position>) returns (k: nat)
    requires |input| < 0x1_0000_0000
    requires out.Length == outLen + 1 && htab.Length == HSIZE
    modifies out, htab
    ensures k <= outLen && k <= |input| + |input| / 32 + 1
    ensures k > 0 ==> Decode(out[..k], [], |input|) == Done(input)
    ensures input != [] && outLen >= |input| + |input| / 32 + 4 ==> k > 0
    ensures input == [] || outLen == 0 ==> k == 0
    ensures Uniform(input) ==> k <= |input| / 88 + 9
  {
    if |input| == 0 || outLen == 0 { return 0; }
    var ip, op, lit := 0, 0, 0;
    StartRun(out[..], 0, input, 0);
    op := op + 1;
    var hval: nat := if |input| >= 2 then First(input, ip) else 0;
    while ip < |input| - 2
      invariant lit < MAX_LIT && Pending(out[..], op, lit, input, ip)
      invariant Uniform(input) ==> Steady(input, ip, op, lit, hval, htab[..])
      decreases |input| - ip
    {
      var ok;
      ok, ip, op, lit, hval := CompressStep(input, ip, out, op, lit, outLen, hval, htab);
      if !ok { return 0; }
    }
    k := Finish(input, ip, out, op, lit, outLen);
  }

  /** One round of the main loop. */
  method CompressStep(input: seq<Byte>, ip0: int, out: array<Byte>, op0: int, lit0: int, outLen: nat,
                      hval0: nat, htab: array<Position>)
    returns (ok: bool, ip: int, op: int, lit: int, hval: nat)
    requires |input| < 0x1_0000_0000 && htab.Length == HSIZE && out.Length == outLen + 1
    requires ip0 < |input| - 2 && lit0 < MAX_LIT && Pending(out[..], op0, lit0, input, ip0)
    modifies out, htab
    ensures ok ==> ip0 < ip && lit < MAX_LIT && Pending(out[..], op, lit, input, ip)
    ensures var ref := old(htab[Idx(Next(hval0, input, ip0))]);
            ok ==> if Usable(input, ref, ip0) then lit == 0 && Longest(input, ref, ip0, ip - ip0) else ip == ip0 + 1
    ensures outLen >= |input| + |input| / 32 + 4 ==> ok
    ensures ok && Steady(input, ip0, op0, lit0, hval0, old(htab[..])) ==> Steady(input, ip, op, lit, hval, htab[..])
  {
    ghost var slots := htab[..];
    ok, ip, op, lit, hval := MatchOrLiteral(input, ip0, out, op0, lit0, outLen, hval0, htab);
    if ok && Steady(input, ip0, op0, lit0, hval0, slots) {
      SteadyMatch(input, ip0, op0, lit0, hval0, slots);
      if 2 <= ip0 && ip0 + 4 < |input| {
        SteadyReference(input, ip0, op0, lit0, hval0, slots, slots[Slot(input[0])], ip, op, hval, htab[..]);
      } else {
        SteadyLiteral(input, ip0, op0, lit0, hval0, slots, hval, htab[..]);
      }
    }
  }

  /** One round of the main loop, lzf_c.c:147-273: a match or one more literal.
      Fails when the output does not have room for it. */
  method MatchOrLiteral(input: seq<Byte>, ip0: int, out: array<Byte>, op0: int, lit0: int, outLen: nat,
                      hval0: nat, htab: array<Position>)
    returns (ok: bool, ip: int, op: int, lit: int, hval: nat)
    requires |input| < 0x1_0000_0000 && htab.Length == HSIZE && out.Length == outLen + 1
    requires ip0 < |input| - 2 && lit0 < MAX_LIT && Pending(out[..], op0, lit0, input, ip0)
    modifies out, htab
    ensures ok ==> ip0 < ip && lit < MAX_LIT && Pending(out[..], op, lit, input, ip)
    ensures var ref := old(htab[Idx(Next(hval0, input, ip0))]);
            ok ==> if Usable(input, ref, ip0) then lit == 0 && Longest(input, ref, ip0, ip - ip0) else ip == ip0 + 1
    ensures var ref := old(htab[Idx(Next(hval0, input, ip0))]);
            ok && Usable(input, ref, ip0) ==> op <= op0 + if lit0 == 0 then 3 else 4
    ensures var ref := old(htab[Idx(Next(hval0, input, ip0))]);
            ok && Usable(input, ref, ip0) && ip < |input| - 2 ==>
              hval == Next(Next(First(input, ip - 2), input, ip - 2), input, ip - 1) && htab[Idx(hval)] == ip - 1
    ensures var ref := old(htab[Idx(Next(hval0, input, ip0))]);
            ok && !Usable(input, ref, ip0) ==>
              && hval == Next(hval0, input, ip0) && htab[..] == old(htab[..])[Idx(hval) := ip0]
              && (lit0 + 1 < MAX_LIT ==> lit == lit0 + 1 && op == op0 + 1)
    ensures outLen >= |input| + |input| / 32 + 4 ==> ok
  {
    var found, ref;
    hval, found, ref := FindMatch(input, ip0, hval0, htab);
    ip, op, lit := ip0, op0, lit0;
    if found {
      ok, ip, op := PushMatch(input, ref, ip, out, op, lit, outLen);
      lit := 0;
      if ok && ip < |input| - 2 {
        hval := HashSkipped(input, ip, htab);
      }
    } else {
      if op >= outLen { return false, ip, op, lit, hval; }
      ok := true;
      ip, op, lit := PushLiteral(input, ip, out, op, lit);
    }
  }

  /** The last one or two literals: lzf_c.c:276-293. */
  method Finish(input: seq<Byte>, ip0: int, out: array<Byte>, op0: int, lit0: int, outLen: nat) returns (k: nat)
    requires out.Length == outLen + 1 && lit0 < MAX_LIT && Pending(out[..], op0, lit0, input, ip0)
    requires 0 < |input| <= ip0 + 2
    modifies out
    ensures k == 0 <==> op0 + 3 > outLen
    ensures k <= outLen && 32 * k <= 33 * |input| + 31
    ensures k > 0 ==> Decode(out[..k], [], |input|) == Done(input)
    ensures lit0 + 2 < MAX_LIT ==> k <= op0 + (|input| - ip0)
  {
    var ip, op, lit := ip0, op0, lit0;
    if op + 3 > outLen { return 0; }
    while ip < |input|
      invariant lit < MAX_LIT && Pending(out[..], op, lit, input, ip)
      invariant ip0 <= ip
      invariant op - op0 == ip - ip0 || (op - op0 == ip - ip0 + 1 && lit < ip - ip0)
      invariant lit0 + 2 < MAX_LIT ==> lit == lit0 + (ip - ip0) && op - op0 == ip - ip0
    {
      ip, op, lit := PushLiteral(input, ip, out, op, lit);
    }
    op := StopRun(input, ip, out, op, lit);
    assert input[..ip] == input;
    return op;
  }

  /** Closing the pending run and emitting the match found at `ref`:
      lzf_c.c:168-227.  Gives up when fewer than five octets are left. */
  method PushMatch(input: seq<Byte>, ref: int, ip0: int, out: array<Byte>, op0: int, lit: int, outLen: nat)
    returns (ok: bool, ip: int, op: int)
    requires out.Length == outLen + 1 && lit < MAX_LIT && Pending(out[..], op0, lit, input, ip0)
    requires 0 <= ref < ip0 && ip0 - ref - 1 < MAX_OFF && ip0 + 4 < |input| && Matches(input, ref, ip0, 3)
    modifies out
    ensures ok == (op0 - (if lit == 0 then 1 else 0) + 4 < outLen)
    ensures ok ==> Longest(input, ref, ip0, ip - ip0) && op <= outLen && Pending(out[..], op, 0, input, ip)
    ensures ok ==> op <= op0 + if lit == 0 then 3 else 4
  {
    ip := ip0;
    op := StopRun(input, ip, out, op0, lit);
    if op + 3 + 1 >= outLen { return false, ip, op; }
    ip, op := PushReference(input, ref, ip, out, op);
    return true, ip, op;
  }

  /** lzf_c.c:179-227. */
  method PushReference(input: seq<Byte>, ref: int, ip0: int, out: array<Byte>, op0: int) returns (ip: int, op: int)
    requires ip0 + 4 < |input| && Matches(input, ref, ip0, 3) && ip0 - ref - 1 < MAX_OFF
    requires op0 + 4 < out.Length && Closed(out[..], op0, input, ip0) && 32 * op0 <= 33 * ip0 + 31
    modifies out
    ensures Longest(input, ref, ip0, ip - ip0) && op <= op0 + 4 && Pending(out[..], op, 0, input, ip)
  {
    ghost var closed := out[..];
    var len := ExtendMatch(input, ref, ip0);
    op := EmitReference(out, op0, ip0 - ref - 1, len);
    AppendReference(closed, op0, input, ref, ip0, len, out[..]);
    ip := ip0 + len;
    StartRun(out[..], op, input, ip);
    op := op + 1;
  }

  /** Storing the length of the pending run, and undoing the run when it is
      empty: lzf_c.c:173-174 and 290-291. */
  method StopRun(input: seq<Byte>, ip: int, out: array<Byte>, op0: int, lit: int) returns (op: int)
    requires Pending(out[..], op0, lit, input, ip)
    modifies out
    ensures op == op0 - (if lit == 0 then 1 else 0)
    ensures 0 <= op <= out.Length && Closed(out[..], op, input, ip)
    ensures 32 * op <= 33 * ip + (if lit == 0 then 0 else 32 - lit)
  {
    op := op0;
    if lit > 0 {
      CloseRun(out[..], op, lit, input, ip);
      out[op - lit - 1] := lit - 1;
    } else {
      out[op - 1] := 255; // lit - 1 in eight bits
      op := op - 1;
    }
  }

  /** One more literal, closing the run when it is full: lzf_c.c:266-272. */
  method PushLiteral(input: seq<Byte>, ip0: int, out: array<Byte>, op0: int, lit0: int)
    returns (ip: int, op: int, lit: int)
    requires lit0 < MAX_LIT && Pending(out[..], op0, lit0, input, ip0) && ip0 < |input| && op0 + 1 < out.Length
    modifies out
    ensures ip == ip0 + 1
    ensures if lit0 + 1 == MAX_LIT then lit == 0 && op == op0 + 2 else lit == lit0 + 1 && op == op0 + 1
    ensures Pending(out[..], op, lit, input, ip)
  {
    AppendLiteral(out[..], op0, lit0, input, ip0);
    lit := lit0 + 1;
    out[op0] := input[ip0];
    ip, op := ip0 + 1, op0 + 1;
    if lit == MAX_LIT {
      CloseRun(out[..], op, lit, input, ip);
      out[op - lit - 1] := lit - 1;
      StartRun(out[..], op, input, ip);
      lit := 0;
      op := op + 1;
    }
  }

  /** Compression and decompression in one go, for every initial content of
      the table: what was compressed decompresses to the input when there is room
      for it, and reports E2BIG when there is not. */
  method RoundTrip(input: seq<Byte>, out: array<Byte>, outLen: nat, htab: array<Position>, back: array<Byte>)
    returns (k: nat, n: nat, errno: Error)
    requires |input| < 0x1_0000_0000
    requires out.Length == outLen + 1 && htab.Length == HSIZE && back != out
    modifies out, htab, back
    ensures k > 0 && back.Length >= |input| ==> n == |input| && back[..n] == input
    ensures k > 0 && back.Length < |input| ==> n == 0 && errno == E2Big
  {
    n, errno := 0, EInval;
    k := Compress(input, out, outLen, htab);
    if k > 0 {
      DecodeRoom(out[..k], [], |input|, back.Length);
      n, errno := Decompress(out[..k], back);
    }
  }
}
