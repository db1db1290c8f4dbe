/** The octets of the compressed format, as lzf_c.c:89-96 lists them. */
module LzfLaws {
  import opened Lzf

  /** A control octet L below 32 stands for the L + 1 octets x behind it. */
  lemma LiteralOctets(l: Byte, x: seq<Byte>, rest: seq<Byte>, out: seq<Byte>, room: nat)
    requires l < 32 && |x| == l as int + 1
    ensures Decode([l] + x + rest, out, room) ==
            if |out| + |x| > room then Fail(E2Big) else Decode(rest, out + x, room)
  {
    var s := [l] + x + rest;
    assert s[0] == l && s[1..1 + |x|] == x && s[1 + |x|..] == rest;
  }

  /** The octets x repeat what stands `back` places before them. */
  predicate Repeats(out: seq<Byte>, x: seq<Byte>, back: nat)
  {
    0 < back <= |out| && forall i :: 0 <= i < |x| ==> x[i] == (out + x)[|out| + i - back]
  }

  lemma {:induction false} CopyRepeats(out: seq<Byte>, x: seq<Byte>, back: nat)
    requires Repeats(out, x, back)
    ensures CopyBack(out, back, |x|) == out + x
    decreases |x|
  {
    if x == [] {
      assert out + x == out;
    } else {
      FirstRepeats(out, x, back);
      CopyRepeats(out + [x[0]], x[1..], back);
    }
  }

  lemma FirstRepeats(out: seq<Byte>, x: seq<Byte>, back: nat)
    requires Repeats(out, x, back) && x != []
    ensures x[0] == out[|out| - back] && (out + [x[0]]) + x[1..] == out + x
    ensures Repeats(out + [x[0]], x[1..], back)
  {
    assert (out + [x[0]]) + x[1..] == out + x;
    assert x[0] == (out + x)[|out| - back];
  }

  /** What becomes of a reference by its length and distance. */
  lemma Reference(s: seq<Byte>, h: nat, x: seq<Byte>, back: nat, rest: seq<Byte>, out: seq<Byte>, room: nat)
    requires |s| >= h > 0 && 32 <= s[0] && HeaderSize(s[0]) == h && s[h..] == rest
    requires RefLength(s) == |x| && RefDistance(s) == back
    ensures |out| + |x| > room ==> Decode(s, out, room) == Fail(E2Big)
    ensures |out| + |x| <= room && |out| < back ==> Decode(s, out, room) == Fail(EInval)
    ensures |out| + |x| <= room && Repeats(out, x, back) ==> Decode(s, out, room) == Decode(rest, out + x, room)
  {
    if Repeats(out, x, back) { CopyRepeats(out, x, back); }
  }

  /** Octets 32 l + hi and lo, l from 1 to 6, stand for l + 2 octets that repeat those
      256 hi + lo + 1 places back. */
  lemma ShortReference(l: nat, hi: nat, lo: Byte, x: seq<Byte>, rest: seq<Byte>, out: seq<Byte>, room: nat)
    requires 1 <= l <= 6 && hi < 32 && |x| == l + 2
    ensures |out| + |x| > room ==> Decode([32 * l + hi, lo] + rest, out, room) == Fail(E2Big)
    ensures |out| + |x| <= room && |out| < 256 * hi + lo + 1 ==>
              Decode([32 * l + hi, lo] + rest, out, room) == Fail(EInval)
    ensures |out| + |x| <= room && Repeats(out, x, 256 * hi + lo + 1) ==>
              Decode([32 * l + hi, lo] + rest, out, room) == Decode(rest, out + x, room)
  {
    var s := [32 * l + hi, lo] + rest;
    ControlOctet(l, hi);
    assert s[0] == 32 * l + hi && s[1] == lo && s[2..] == rest;
    Reference(s, 2, x, 256 * hi + lo + 1, rest, out, room);
  }

  /** Octets 224 + hi, n and lo stand for n + 9 octets. */
  lemma LongReference(hi: nat, n: Byte, lo: Byte, x: seq<Byte>, rest: seq<Byte>, out: seq<Byte>, room: nat)
    requires hi < 32 && |x| == n as int + 9
    ensures |out| + |x| > room ==> Decode([224 + hi, n, lo] + rest, out, room) == Fail(E2Big)
    ensures |out| + |x| <= room && |out| < 256 * hi + lo + 1 ==>
              Decode([224 + hi, n, lo] + rest, out, room) == Fail(EInval)
    ensures |out| + |x| <= room && Repeats(out, x, 256 * hi + lo + 1) ==>
              Decode([224 + hi, n, lo] + rest, out, room) == Decode(rest, out + x, room)
  {
    var s := [224 + hi, n, lo] + rest;
    ControlOctet(7, hi);
    assert s[0] == 224 + hi && s[1] == n && s[2] == lo && s[3..] == rest;
    Reference(s, 3, x, 256 * hi + lo + 1, rest, out, room);
  }

  lemma ControlOctet(l: nat, hi: nat)
    requires l < 8 && hi < 32
    ensures (32 * l + hi) / 32 == l && (32 * l + hi) % 32 == hi && 32 * l + hi < 256
  {}

  /** An instruction that is cut short is an error: without room for its literals E2BIG,
      otherwise EINVAL. */
  lemma CutShort(c: Byte, x: seq<Byte>, out: seq<Byte>, room: nat)
    requires |x| < if c < 32 then c as int + 1 else if c < 224 then 1 else 2
    ensures Decode([c] + x, out, room) ==
            Fail(if c < 32 && |out| + c as int + 1 > room then E2Big else EInval)
  {
    assert ([c] + x)[0] == c;
  }

  /** An empty stream stands for nothing. */
  lemma EmptyStream(out: seq<Byte>, room: nat)
    ensures Decode([], out, room) == Done(out)
  {}

  /** Octets that stand for y, which repeats octets 256 hi + lo + 1 places back. */
  function Repeating(y: seq<Byte>, hi: nat, lo: Byte): seq<Byte>
    requires hi < 32 && 3 <= |y| <= 264
  {
    if |y| < 9 then [32 * (|y| - 2) + hi, lo] else [224 + hi, |y| - 9, lo]
  }

  lemma RepeatingMeans(y: seq<Byte>, hi: nat, lo: Byte, x: seq<Byte>, room: nat)
    requires hi < 32 && 3 <= |y| <= 264 && Repeats(x, y, 256 * hi + lo + 1) && room >= |x| + |y|
    ensures Decode(Repeating(y, hi, lo), x, room) == Done(x + y)
  {
    var code := Repeating(y, hi, lo);
    EmptyStream(x + y, room);
    assert code + [] == code;
    if |y| < 9 {
      ShortReference(|y| - 2, hi, lo, y, [], x, room);
    } else {
      LongReference(hi, |y| - 9, lo, y, [], x, room);
    }
  }

  lemma LiteralThenReference(l: Byte, x: seq<Byte>, hi: nat, lo: Byte, y: seq<Byte>, room: nat)
    requires l < 32 && |x| == l as int + 1 && hi < 32 && Repeats(x, y, 256 * hi + lo + 1)
    requires 3 <= |y| <= 264 && room >= |x| + |y|
    ensures Decode([l] + x + Repeating(y, hi, lo), [], room) == Done(x + y)
  {
    var code := Repeating(y, hi, lo);
    RepeatingMeans(y, hi, lo, x, room);
    LiteralOctets(l, x, code, [], room);
    assert [] + x == x;
  }

  /** Decompression of literals and a reference, into any array that is large enough. */
  method Unpack(l: Byte, x: seq<Byte>, hi: nat, lo: Byte, y: seq<Byte>, out: array<Byte>)
    returns (n: nat, errno: Error)
    requires l < 32 && |x| == l as int + 1 && hi < 32 && Repeats(x, y, 256 * hi + lo + 1)
    requires 3 <= |y| <= 264 && out.Length >= |x| + |y|
    modifies out
    ensures n == |x| + |y| && out[..n] == x + y
  {
    LiteralThenReference(l, x, hi, lo, y, out.Length);
    n, errno := Decompress([l] + x + Repeating(y, hi, lo), out);
  }
}
