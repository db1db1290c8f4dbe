/** The HyperLogLog string object and the commands that act on it:
    hyperloglog.c:182-192, 485-498, 568-620, 638-882, 967-995, 1027-1343.  An
    element is represented by what hllPatLen makes of its hash. */
module HllCommands {
  import opened HllBits
  import opened HllSpec
  import Dense = HllDense
  import Sparse = HllSparse
  import Walk = HllWalk

  datatype Encoding = DenseEncoding | SparseEncoding

  /** The reply of an addition that has the code store a register behind the last one
      while it promotes: the code has no such reply, and what follows is not modelled. */
  const STRAY := -2

  // ------------------------------------------------------------ cached value

  /** HLL_VALID_CACHE.  The comment at hyperloglog.c:84 puts the flag in the most
      significant byte; the macros use card[0], the least significant one. */
  predicate CacheValid(card: seq<Byte>)
    requires |card| == 8
  {
    card[0] & 0x80 == 0
  }

  /** HLL_INVALIDATE_CACHE. */
  function Invalidate(card: seq<Byte>): (c: seq<Byte>)
    requires |card| == 8
    ensures |c| == 8 && !CacheValid(c)
  {
    SetFlag(card[0]);
    card[0 := card[0] | 0x80]
  }

  lemma SetFlag(b: Byte)
    ensures (b | 0x80) & 0x80 != 0
  {}

  type Card = n: nat | n < 0x1_0000_0000_0000_0000

  function Pow256(k: nat): nat { if k == 0 then 1 else 256 * Pow256(k - 1) }

  /** The k low bytes of a number, least significant first: with k == 8, what
      hyperloglog.c:1265-1272 store. */
  function StoreCard(n: nat, k: nat): (c: seq<Byte>)
    ensures |c| == k
    decreases k
  {
    if k == 0 then [] else [ToByte(n % 256)] + StoreCard(n / 256, k - 1)
  }

  /** hyperloglog.c:1249-1256; the bytes or-ed together do not overlap. */
  function LoadCard(c: seq<Byte>): nat
  {
    if c == [] then 0 else c[0] as nat + 256 * LoadCard(c[1..])
  }

  lemma {:induction false} LoadStore(n: nat, k: nat)
    requires n < Pow256(k)
    ensures LoadCard(StoreCard(n, k)) == n
    decreases k
  {
    if k == 0 {
    } else {
      LoadStore(n / 256, k - 1);
      assert StoreCard(n, k)[1..] == StoreCard(n / 256, k - 1);
    }
  }

  lemma EightBytes()
    ensures Pow256(8) == 0x1_0000_0000_0000_0000
  {
    assert Pow256(4) == 0x1_0000_0000;
  }

  /** A cardinality with bit 7 set never yields a valid cache: it is computed
      anew at each PFCOUNT. */
  lemma StoredCacheValid(n: nat)
    ensures CacheValid(StoreCard(n, 8)) <==> n % 256 < 128
  {
    HighBit(ToByte(n % 256));
  }

  // ------------------------------------------------------------------ object

  /** The string of an object behind its header.  `tail` is the byte behind the data: the
      terminating zero, until hllSparseAdd mistakes it for an opcode. */
  datatype Content = Content(encoding: Encoding, data: seq<Byte>, tail: Byte) {
    /** What every object keeps, even one whose stream does not cover the registers
        exactly. */
    ghost predicate Loose()
    {
      match encoding
      case DenseEncoding => |data| == Dense.DENSE_BYTES && tail == 0
      case SparseEncoding => Sparse.WellFormed(data) && Sparse.Tail(tail)
    }

    ghost function Registers(): (r: seq<Byte>)
      requires Loose()
    {
      if encoding.DenseEncoding? then Dense.Decode(data) else Sparse.Decode(data)
    }

    /** All the registers are there. */
    ghost predicate Full()
      requires Loose()
    {
      |Registers()| == REGISTERS
    }

    /** The object is sparse and its data, though not empty, do not reach the register
        of an element that could be added to them. */
    ghost predicate Behind(e: Element)
      requires Loose()
    {
      encoding.SparseEncoding? && data != [] && e.count <= VAL_MAX_VALUE && |Registers()| <= e.index
    }

    /** The addition would make the stream too long. */
    ghost predicate Outgrows(e: Element, maxBytes: nat)
      requires Loose() && e.Valid()
    {
      encoding.SparseEncoding? && e.count <= VAL_MAX_VALUE && Sparse.AddOutgrows(data, e.index, e.count, maxBytes)
    }

    /** The addition needs the dense representation. */
    ghost predicate Promotes(e: Element, maxBytes: nat)
      requires Loose() && e.Valid()
    {
      encoding.SparseEncoding? && (e.count > VAL_MAX_VALUE || Outgrows(e, maxBytes))
    }

    /** hllSparseAdd reports a corrupted object: the stream is empty, or one that does
        not cover the registers exactly was about to be promoted. */
    ghost predicate Fails(e: Element, maxBytes: nat)
      requires Loose() && e.Valid()
    {
      encoding.SparseEncoding? && (data == [] || (Promotes(e, maxBytes) && Ends() == Walk.Corrupt))
    }

    /** The promotion stores a register behind the last one. */
    ghost predicate Strays(e: Element, maxBytes: nat)
      requires Loose() && e.Valid()
    {
      Promotes(e, maxBytes) && Ends() == Walk.Stray
    }

    /** What promotion and the addition behind it return. */
    ghost function PromotionReply(): int
      requires Loose()
    {
      match Ends() case Done => 1 case Corrupt => -1 case Stray => STRAY
    }

    /** How a walk over the registers ends. */
    ghost function Ends(): Walk.Outcome
      requires Loose()
    {
      Walk.Ends(Registers())
    }

    /** An addition that is reported as a change: it raises a register, or overwrites the
        byte behind a stream that does not reach the register. */
    ghost predicate Changes(e: Element)
      requires Loose()
    {
      Raise(Registers(), e) != Registers() || (Behind(e) && Sparse.Overwrites(tail, e.count))
    }

    /** What hllAdd returns. */
    ghost function Reply(e: Element, maxBytes: nat): (r: int)
      requires Loose() && e.Valid()
    {
      if Strays(e, maxBytes) then STRAY else if Fails(e, maxBytes) then -1 else if Changes(e) then 1 else 0
    }
  }

  /** An addition that is reported as a change, though no register changes: to a stream of
      one ZERO opcode for one register, of an element for another register. */
  lemma SilentAddition(maxBytes: nat)
    ensures var c, e := Content(SparseEncoding, [0], 0), Element(1, 1);
            && c.Loose() && !c.Fails(e, maxBytes) && !c.Strays(e, maxBytes)
            && c.Changes(e) && Raise(c.Registers(), e) == c.Registers()
  {
    var s: seq<Byte> := [0];
    assert IsZero(0) && ZeroLen(0) == 1;
    Sparse.Single(s);
    var c := Content(SparseEncoding, s, 0);
    assert c.Loose() && c.Registers() == [0];
  }

  /** Editing the stream of an object is adding to its registers. */
  lemma EditMeans(c: Content, e: Element, maxBytes: nat, edit: Sparse.Edit)
    requires c.Loose() && c.encoding.SparseEncoding? && e.Valid() && e.count <= VAL_MAX_VALUE
    requires Sparse.Edits(c.data, c.tail, e.index, e.count, maxBytes, edit)
    ensures edit.Invalid? <==> c.data == []
    ensures edit.TooLarge? <==> c.Outgrows(e, maxBytes)
    ensures edit.TooLarge? ==> c.Changes(e) && (c.Full() ==> e.count > c.Registers()[e.index])
    ensures edit.Same? ==> !c.Changes(e) && Raise(c.Registers(), e) == c.Registers()
    ensures edit.Edited? ==> c.Changes(e)
  {
    RaiseCases(c.Registers(), e);
  }

  /** What it makes hllSparseAdd return. */
  lemma EditReply(c: Content, e: Element, maxBytes: nat, edit: Sparse.Edit)
    requires c.Loose() && c.encoding.SparseEncoding? && e.Valid() && e.count <= VAL_MAX_VALUE
    requires Sparse.Edits(c.data, c.tail, e.index, e.count, maxBytes, edit)
    ensures edit.TooLarge? <==> c.Promotes(e, maxBytes)
    ensures edit.TooLarge? && c.Full() ==> e.count > c.Registers()[e.index]
    ensures edit.Same? ==> Raise(c.Registers(), e) == c.Registers()
    ensures edit.Invalid? || edit.TooLarge? ==> !c.Behind(e)
    ensures c.Reply(e, maxBytes) == match edit
                                    case Invalid => -1
                                    case Same => 0
                                    case TooLarge => c.PromotionReply()
                                    case Edited(_, _) => 1
  {
    EditMeans(c, e, maxBytes, edit);
  }

  lemma EditKeeps(c: Content, e: Element, maxBytes: nat, edit: Sparse.Edit)
    requires c.Loose() && c.encoding.SparseEncoding? && e.Valid() && e.count <= VAL_MAX_VALUE
    requires Sparse.Edits(c.data, c.tail, e.index, e.count, maxBytes, edit) && edit.Edited?
    ensures var d := c.(data := edit.stream, tail := edit.tail);
            && d.Loose() && d.Registers() == Raise(c.Registers(), e)
            && (HDR_SIZE + |d.data| <= maxBytes || |d.data| <= |c.data|)
            && (c.Behind(e) ==> d.data == c.data && d.tail == ValSet(e.count, 1))
  {
    RaiseCases(c.Registers(), e);
  }

  /** How hllSparseAdd, which returns r, turns the content c into d. */
  ghost predicate AddStep(c: Content, e: Element, maxBytes: nat, r: int, d: Content)
    requires c.Loose() && e.Valid()
  {
    && d.Loose() && r == c.Reply(e, maxBytes) && (r != 1 ==> d == c)
    && (r >= 0 ==> d.Registers() == Raise(c.Registers(), e))
    && (r == 1 && c.Behind(e) ==> d.data == c.data && d.tail == ValSet(e.count, 1))
    && (d.encoding.DenseEncoding? <==> r == 1 && c.Promotes(e, maxBytes))
    && (d.encoding.SparseEncoding? ==> HDR_SIZE + |d.data| <= maxBytes || |d.data| <= |c.data|)
  }

  lemma StillStep(c: Content, e: Element, maxBytes: nat, edit: Sparse.Edit)
    requires c.Loose() && c.encoding.SparseEncoding? && e.Valid() && e.count <= VAL_MAX_VALUE
    requires Sparse.Edits(c.data, c.tail, e.index, e.count, maxBytes, edit) && (edit.Invalid? || edit.Same?)
    ensures AddStep(c, e, maxBytes, if edit.Invalid? then -1 else 0, c)
  {
    EditReply(c, e, maxBytes, edit);
  }

  lemma EditedStep(c: Content, e: Element, maxBytes: nat, edit: Sparse.Edit)
    requires c.Loose() && c.encoding.SparseEncoding? && e.Valid() && e.count <= VAL_MAX_VALUE
    requires Sparse.Edits(c.data, c.tail, e.index, e.count, maxBytes, edit) && edit.Edited?
    ensures AddStep(c, e, maxBytes, 1, c.(data := edit.stream, tail := edit.tail))
  {
    EditReply(c, e, maxBytes, edit);
    EditKeeps(c, e, maxBytes, edit);
  }

  lemma PromotedStep(c: Content, e: Element, maxBytes: nat, r: int, d: Content)
    requires c.Loose() && e.Valid() && c.Promotes(e, maxBytes) && !c.Behind(e) && d.Loose()
    requires r == c.PromotionReply() == c.Reply(e, maxBytes) && (r != 1 ==> d == c)
    requires r == 1 ==> d.encoding.DenseEncoding? && d.Registers() == Raise(c.Registers(), e)
    ensures AddStep(c, e, maxBytes, r, d)
  {}

  /** What a promotion returns for an element that an opcode could not hold. */
  lemma PromotesReply(c: Content, e: Element, maxBytes: nat)
    requires c.Loose() && c.encoding.SparseEncoding? && e.Valid() && e.count > VAL_MAX_VALUE
    ensures c.Promotes(e, maxBytes) && !c.Behind(e) && c.Reply(e, maxBytes) == c.PromotionReply()
    ensures c.Full() ==> e.count > c.Registers()[e.index]
  {
    DataCover(c);
    RaiseCases(c.Registers(), e);
    if c.Full() { Sparse.DecodeBound(c.data, e.index); }
  }

  /** How the loop of PFADD has changed the content `before` when it has added j elements. */
  ghost predicate Added(before: Content, es: seq<Element>, j: nat, maxBytes: nat, created: bool, c: Content,
                        updated: bool)
  {
    && before.Loose() && c.Loose() && j <= |es| && c.Registers() == RaiseAll(before.Registers(), es[..j])
    && Told(before.Registers(), c.Registers(), created || AnyBehind(before, es), created, updated)
    && (c.encoding.SparseEncoding? ==> before.encoding.SparseEncoding?)
    && AddedFirst(before, es, j, maxBytes, created, c, updated)
  }

  /** A change of registers r to t, and creation, are told of; otherwise only what may be. */
  predicate Told(r: seq<Byte>, t: seq<Byte>, may: bool, created: bool, updated: bool)
  {
    (created || t != r ==> updated) && (updated ==> may || t != r)
  }

  /** The stream does not reach the register of one of the elements. */
  ghost predicate AnyBehind(c: Content, es: seq<Element>)
    requires c.Loose()
  {
    exists e :: e in es && c.Behind(e)
  }

  /** For the first element the reply is exact. */
  ghost predicate AddedFirst(before: Content, es: seq<Element>, j: nat, maxBytes: nat, created: bool, c: Content,
                             updated: bool)
    requires before.Loose() && j <= |es|
  {
    && (j == 0 ==> updated == created && c == before)
    && (j == 1 && es[0].Valid() ==>
          before.Reply(es[0], maxBytes) >= 0 && updated == (created || before.Reply(es[0], maxBytes) == 1))
  }

  lemma FirstNext(before: Content, es: seq<Element>, j: nat, maxBytes: nat, created: bool, c: Content, updated: bool,
                  d: Content)
    requires before.Loose() && c.Loose() && j < |es| && es[j].Valid() && c.Reply(es[j], maxBytes) >= 0
    requires AddedFirst(before, es, j, maxBytes, created, c, updated)
    ensures AddedFirst(before, es, j + 1, maxBytes, created, d, updated || c.Reply(es[j], maxBytes) == 1)
  {}

  /** A reply of 1 is a change. */
  lemma ReplyChanges(c: Content, e: Element, maxBytes: nat)
    requires c.Loose() && e.Valid() && c.Reply(e, maxBytes) >= 0
    ensures Raise(c.Registers(), e) != c.Registers() ==> c.Reply(e, maxBytes) == 1
    ensures c.Reply(e, maxBytes) == 1 ==> Raise(c.Registers(), e) != c.Registers() || c.Behind(e)
  {}

  lemma AddedNext(before: Content, es: seq<Element>, j: nat, maxBytes: nat, created: bool, c: Content, updated: bool,
                  d: Content)
    requires Added(before, es, j, maxBytes, created, c, updated) && j < |es| && es[j].Valid()
    requires d.Loose() && c.Reply(es[j], maxBytes) >= 0 && d.Registers() == Raise(c.Registers(), es[j])
    requires c.encoding.DenseEncoding? ==> d.encoding.DenseEncoding?
    ensures Added(before, es, j + 1, maxBytes, created, d, updated || c.Reply(es[j], maxBytes) == 1)
  {
    var r0, r1, r2, e := before.Registers(), c.Registers(), d.Registers(), es[j];
    assert es[..j + 1][..j] == es[..j] && r2 == RaiseAll(r0, es[..j + 1]);
    FirstNext(before, es, j, maxBytes, created, c, updated, d);
    ReplyChanges(c, e, maxBytes);
    StillBehind(before, es, j, c);
    StaysChanged(r0, es, j);
    ToldNext(r0, r1, r2, created || AnyBehind(before, es), created, updated, c.Reply(e, maxBytes) == 1);
  }

  lemma ToldNext(r0: seq<Byte>, r1: seq<Byte>, r2: seq<Byte>, may: bool, created: bool, updated: bool, changed: bool)
    requires Told(r0, r1, may, created, updated)
    requires (r2 != r1 ==> changed) && (changed ==> may || r2 != r1) && (r1 != r0 || r2 != r1 ==> r2 != r0)
    ensures Told(r0, r2, may, created, updated || changed)
  {}

  /** What a later content lacks, the first one lacked. */
  lemma StillBehind(before: Content, es: seq<Element>, j: nat, c: Content)
    requires before.Loose() && c.Loose() && j < |es| && |before.Registers()| == |c.Registers()|
    requires c.encoding.SparseEncoding? ==> before.encoding.SparseEncoding?
    ensures c.Behind(es[j]) ==> AnyBehind(before, es)
  {
    DataCover(before);
    DataCover(c);
    if c.Behind(es[j]) { assert before.Behind(es[j]) && es[j] in es; }
  }

  /** Registers that have been raised never become what they were. */
  lemma StaysChanged(r: seq<Byte>, es: seq<Element>, j: nat)
    requires j < |es|
    ensures RaiseAll(r, es[..j]) != r || Raise(RaiseAll(r, es[..j]), es[j]) != RaiseAll(r, es[..j]) ==>
              RaiseAll(r, es[..j + 1]) != r
  {
    var a, b := RaiseAll(r, es[..j]), RaiseAll(r, es[..j + 1]);
    assert es[..j + 1][..j] == es[..j];
    RaiseAllGrows(r, es[..j]);
    if a != r {
      var i :| 0 <= i < |r| && a[i] != r[i];
      assert b[i] >= a[i] > r[i];
    } else if Raise(a, es[j]) != a {
      RaiseChanges(a, es[j]);
    }
  }

  /** An object whose promotion stores a register behind the last one. */
  lemma StrayAddition(e: Element, maxBytes: nat)
    requires e.Valid() && e.count > VAL_MAX_VALUE
    ensures var c := Content(SparseEncoding, Sparse.ZeroOp(XZERO_MAX_LEN) + Sparse.ValOp(1, 1), 0);
            c.Loose() && c.Strays(e, maxBytes)
  {
    Walk.StrayStream();
    var c := Content(SparseEncoding, Sparse.ZeroOp(XZERO_MAX_LEN) + Sparse.ValOp(1, 1), 0);
    assert c.Loose() && c.Ends() == Walk.Stray && c.Promotes(e, maxBytes);
  }

  /** A stream is empty if and only if it covers nothing. */
  lemma DataCover(c: Content)
    requires c.Loose()
    ensures c.data == [] <==> c.Registers() == []
  {
    if c.encoding.SparseEncoding? && c.data != [] { Sparse.Unfold(c.data); }
  }

  /** The cache holds the cardinality if it claims to, or is about to be invalidated. */
  ghost predicate Settled(c: Content, card: seq<Byte>, estimate: (real, nat) -> Card, updated: bool)
  {
    && |card| == 8 && c.Loose()
    && ((CacheValid(card) ==> LoadCard(card) == estimate(Sum(c.Registers()), ZeroCount(c.Registers())))
        || (c.encoding.DenseEncoding? && updated))
  }

  /** An addition that returns r and turns c into d keeps it so. */
  lemma SettledNext(c: Content, card: seq<Byte>, d: Content, card': seq<Byte>, estimate: (real, nat) -> Card,
                    updated: bool, r: int)
    requires Settled(c, card, estimate, updated) && d.Loose() && (r != 1 ==> d == c)
    requires card' == if r == 1 && d.encoding.SparseEncoding? then Invalidate(card) else card
    requires c.encoding.DenseEncoding? ==> d.encoding.DenseEncoding?
    ensures Settled(d, card', estimate, updated || r == 1)
  {}

  lemma NewContent(c: Content)
    requires c == Content(SparseEncoding, Sparse.ZeroOp(XZERO_MAX_LEN), 0)
    ensures c.Loose() && c.Registers() == Run(REGISTERS, 0) && Represents(c.Registers(), {})
    ensures Sum(c.Registers()) == 16384.0 && ZeroCount(c.Registers()) == 16384
  {
    EmptyRepresents();
    SumRun(REGISTERS, 0);
    assert InvPow(0) == 1.0;
  }

  class HllObject {
    var encoding: Encoding
    var card: seq<Byte>
    /** The data bytes behind the header, without the terminating zero. */
    var data: seq<Byte>
    var tail: Byte
    /** Everything that was ever added or merged in. */
    ghost var elements: set<Element>
    /** What hllCount makes of the harmonic sum and the number of zero registers. */
    const estimate: (real, nat) -> Card

    ghost function Now(): Content
      reads this
    {
      Content(encoding, data, tail)
    }

    ghost predicate Loose()
      reads this
    {
      |card| == 8 && Now().Loose()
    }

    ghost function Registers(): (r: seq<Byte>)
      requires Loose()
      reads this
    {
      Now().Registers()
    }

    /** How a walk over the registers ends. */
    ghost function End(): Walk.Outcome
      reads this
      ensures End() == Walk.Done <==> Valid()
    {
      if Loose() then Now().Ends() else Walk.Corrupt
    }

    ghost predicate Valid()
      reads this
    {
      Loose() && |Registers()| == REGISTERS
    }

    /** The registers, when they are all there, are the pointwise maximum over the
        tracked elements. */
    ghost predicate Tracks()
      reads this
    {
      Loose() && (Valid() ==> Represents(Registers(), elements))
    }

    /** The value hllCount computes for the current registers. */
    ghost function Cardinality(): Card
      requires Loose()
      reads this
    {
      estimate(Sum(Registers()), ZeroCount(Registers()))
    }

    /** A cache that claims to be valid holds the current cardinality. */
    ghost predicate Coherent()
      reads this
    {
      Loose() && (CacheValid(card) ==> LoadCard(card) == Cardinality())
    }

    /** createHLLObject, hyperloglog.c:1089-1119. */
    constructor (estimate: (real, nat) -> Card)
      requires estimate(16384.0, 16384) == 0
      ensures Valid() && Coherent() && Registers() == Run(REGISTERS, 0)
      ensures encoding.SparseEncoding? && this.estimate == estimate && elements == {} && Tracks()
      ensures CacheValid(card) && LoadCard(card) == 0 && tail == 0
    {
      this.estimate := estimate;
      encoding := SparseEncoding;
      card := [0, 0, 0, 0, 0, 0, 0, 0];
      data, tail := Sparse.ZeroOp(XZERO_MAX_LEN), 0;
      elements := {};
      new;
      NewContent(Now());
      ZeroCard();
    }

    /** hllDenseAdd, hyperloglog.c:485-498. */
    method DenseAdd(e: Element) returns (r: int)
      requires Loose() && encoding.DenseEncoding? && e.Valid()
      modifies `data
      ensures Loose() && Registers() == Raise(old(Registers()), e)
      ensures r == if Registers() == old(Registers()) then 0 else 1
      ensures r == 0 ==> data == old(data)
    {
      var oldcount := Dense.Get(data, e.index);
      if e.count > oldcount {
        Dense.DecodeSet(data, e.index, e.count);
        data := Dense.Set(data, e.index, e.count);
        assert Registers()[e.index] != old(Registers())[e.index];
        return 1;
      } else {
        return 0;
      }
    }

    /** hllSparseToDense, hyperloglog.c:568-620.  Fails, and changes nothing, when
        the stream does not cover the registers exactly. */
    method SparseToDense() returns (r: Walk.Outcome)
      requires Loose()
      modifies `data, `encoding, `tail
      ensures Loose() && r == old(Now()).Ends() && Registers() == old(Registers())
      ensures r == Walk.Done ==> encoding.DenseEncoding?
      ensures r != Walk.Done ==> Now() == old(Now())
    {
      if encoding == DenseEncoding { return Walk.Done; }
      var dense, idx, inside := Walk.Expand(data);
      if !inside { return Walk.Stray; }
      if idx != REGISTERS { return Walk.Corrupt; }
      encoding, data, tail := DenseEncoding, dense, 0;
      return Walk.Done;
    }

    /** hllSparseAdd, hyperloglog.c:638-882.  Promotion leaves the cached
        cardinality alone; every other change invalidates it. */
    method SparseAdd(e: Element, maxBytes: nat) returns (r: int)
      requires Loose() && encoding.SparseEncoding? && e.Valid()
      modifies `data, `encoding, `card, `tail
      ensures Loose() && r == old(Now()).Reply(e, maxBytes)
      ensures r != 1 ==> Now() == old(Now())
      ensures r >= 0 ==> Registers() == Raise(old(Registers()), e)
      ensures r == 1 && old(Now()).Behind(e) ==> data == old(data) && tail == ValSet(e.count, 1)
      ensures encoding.DenseEncoding? <==> r == 1 && old(Now()).Promotes(e, maxBytes)
      ensures card == if r == 1 && encoding.SparseEncoding? then Invalidate(old(card)) else old(card)
      ensures encoding.SparseEncoding? ==> HDR_SIZE + |data| <= maxBytes || |data| <= old(|data|)
    {
      if e.count > VAL_MAX_VALUE {
        ghost var c := Now();
        PromotesReply(c, e, maxBytes);
        r := Promote(e);
        PromotedStep(c, e, maxBytes, r, Now());
      } else {
        r := EditAdd(e, maxBytes);
      }
    }

    /** hyperloglog.c:656-866: the element's count fits an opcode. */
    method EditAdd(e: Element, maxBytes: nat) returns (r: int)
      requires Loose() && encoding.SparseEncoding? && e.Valid() && e.count <= VAL_MAX_VALUE
      modifies `data, `encoding, `card, `tail
      ensures Loose() && AddStep(old(Now()), e, maxBytes, r, Now())
      ensures card == if r == 1 && encoding.SparseEncoding? then Invalidate(old(card)) else old(card)
    {
      var edit := Sparse.EditStream(data, tail, e.index, e.count, maxBytes);
      ghost var c := Now();
      match edit {
        case Invalid =>
          StillStep(c, e, maxBytes, edit);
          return -1;
        case Same =>
          StillStep(c, e, maxBytes, edit);
          return 0;
        case TooLarge =>
          EditReply(c, e, maxBytes, edit);
          r := Promote(e);
          PromotedStep(c, e, maxBytes, r, Now());
        case Edited(stream, b) =>
          EditedStep(c, e, maxBytes, edit);
          Store(stream, b);
          return 1;
      }
    }

    /** The string after an edit, whose length has been set; the cache is invalidated:
        hyperloglog.c:863-866. */
    method Store(stream: seq<Byte>, b: Byte)
      requires |card| == 8
      modifies `data, `tail, `card
      ensures Now() == old(Now()).(data := stream, tail := b) && card == Invalidate(old(card))
    {
      data, tail := stream, b;
      card := Invalidate(card);
    }

    /** `promote:`, hyperloglog.c:868-881.  The assertion there holds because
        promotion is only tried for an element that raises its register. */
    method Promote(e: Element) returns (r: int)
      requires Loose() && encoding.SparseEncoding? && e.Valid()
      requires Valid() ==> e.count > Registers()[e.index]
      modifies `data, `encoding, `tail
      ensures Loose()
      ensures r == old(Now()).PromotionReply()
      ensures r != 1 ==> Now() == old(Now())
      ensures r == 1 ==> encoding.DenseEncoding? && Registers() == Raise(old(Registers()), e) != old(Registers())
    {
      ghost var before := Registers();
      var ended := SparseToDense();
      match ended {
        case Stray =>
          return STRAY;
        case Corrupt =>
          return -1;
        case Done =>
          r := DenseAdd(e);
          assert Registers()[e.index] != before[e.index];
      }
    }

    /** hllAdd, hyperloglog.c:1027-1034. */
    method Add(e: Element, maxBytes: nat) returns (r: int)
      requires Loose() && e.Valid()
      modifies `data, `encoding, `card, `tail
      ensures Loose() && r == old(Now()).Reply(e, maxBytes)
      ensures r != 1 ==> Now() == old(Now())
      ensures r >= 0 ==> Registers() == Raise(old(Registers()), e)
      ensures card == if r == 1 && encoding.SparseEncoding? then Invalidate(old(card)) else old(card)
      ensures old(encoding).DenseEncoding? ==> encoding.DenseEncoding?
    {
      match encoding {
        case DenseEncoding => r := DenseAdd(e);
        case SparseEncoding => r := SparseAdd(e, maxBytes);
      }
    }

    /** pfaddCommand, hyperloglog.c:1155-1192, on an object that was looked up or,
        when `created`, has just been made.  Where it stops, the elements before have
        been added. */
    method PfAdd(es: seq<Element>, maxBytes: nat, created: bool) returns (r: int)
      requires Coherent() && Tracks() && forall e :: e in es ==> e.Valid()
      modifies this
      ensures Coherent() && Tracks()
      ensures r in {0, 1, -1, STRAY} && (old(Valid()) ==> r >= 0 && Valid())
      ensures r >= 0 ==> Registers() == RaiseAll(old(Registers()), es)
      ensures r >= 0 && (created || Registers() != old(Registers())) ==> r == 1
      ensures r == 1 ==>
                created || Registers() != old(Registers()) || exists e :: e in es && old(Now()).Behind(e)
      ensures r < 0 ==> exists j :: 0 <= j < |es| && Registers() == RaiseAll(old(Registers()), es[..j])
                                    && Now().Reply(es[j], maxBytes) == r
      ensures |es| == 1 ==>
                r == if created && old(Now()).Reply(es[0], maxBytes) == 0 then 1 else old(Now()).Reply(es[0], maxBytes)
      ensures elements == old(elements) + (if r < 0 then {} else set e | e in es)
    {
      ghost var before := Registers();
      var status, updated;
      ghost var stop;
      status, updated, stop := AddAll(es, maxBytes, created);
      if status < 0 { return status; }
      if updated { card := Invalidate(card); }
      elements := elements + (set e | e in es);
      if Represents(before, old(elements)) { RaiseAllRepresents(before, old(elements), es); }
      return if updated then 1 else 0;
    }

    /** The loop of hyperloglog.c:1172-1183; the status is 0 when all elements were added.
        Where it stops, the object is still sparse and its cache was invalidated by every
        change. */
    method AddAll(es: seq<Element>, maxBytes: nat, created: bool)
      returns (status: int, updated: bool, ghost stop: nat)
      requires Coherent() && forall e :: e in es ==> e.Valid()
      modifies `data, `encoding, `card, `tail
      ensures Loose() && |Registers()| == |old(Registers())|
      ensures Coherent() || (status == 0 && updated)
      ensures status in {0, -1, STRAY} && (old(Valid()) ==> status == 0)
      ensures status == 0 ==> Registers() == RaiseAll(old(Registers()), es)
      ensures status == 0 && (created || Registers() != old(Registers())) ==> updated
      ensures status == 0 && updated ==>
                created || Registers() != old(Registers()) || exists e :: e in es && old(Now()).Behind(e)
      ensures status < 0 ==> stop < |es| && Registers() == RaiseAll(old(Registers()), es[..stop])
      ensures status < 0 ==> Now().Reply(es[stop], maxBytes) == status
      ensures |es| == 1 ==> (if status == 0 then old(Now()).Reply(es[0], maxBytes) >= 0
                               && updated == (created || old(Now()).Reply(es[0], maxBytes) == 1)
                             else old(Now()).Reply(es[0], maxBytes) == status)
    {
      ghost var before := Now();
      status, updated, stop := AddLoop(es, maxBytes, created);
      if status == 0 { assert es[..|es|] == es; }
    }

    method AddLoop(es: seq<Element>, maxBytes: nat, created: bool)
      returns (status: int, updated: bool, ghost stop: nat)
      requires Coherent() && forall e :: e in es ==> e.Valid()
      modifies `data, `encoding, `card, `tail
      ensures Settled(Now(), card, estimate, updated) && status in {0, -1, STRAY}
      ensures status == 0 ==> Added(old(Now()), es, |es|, maxBytes, created, Now(), updated)
      ensures status < 0 ==> stop < |es| && Added(old(Now()), es, stop, maxBytes, created, Now(), updated)
      ensures status < 0 ==> Now().Reply(es[stop], maxBytes) == status
    {
      ghost var before := Now();
      status, updated := 0, created;
      var j := 0;
      while j < |es|
        invariant j <= |es| && status == 0 && Settled(Now(), card, estimate, updated)
        invariant Added(before, es, j, maxBytes, created, Now(), updated)
      {
        status, updated := AddNext(before, es, j, maxBytes, created, updated);
        if status < 0 { return status, updated, j; }
        j := j + 1;
      }
      stop := j;
    }

    /** One round of the loop. */
    method AddNext(ghost before: Content, es: seq<Element>, j: nat, maxBytes: nat, ghost created: bool, updated0: bool)
      returns (status: int, updated: bool)
      requires j < |es| && es[j].Valid() && Settled(Now(), card, estimate, updated0)
      requires Added(before, es, j, maxBytes, created, Now(), updated0)
      modifies `data, `encoding, `card, `tail
      ensures status in {0, -1, STRAY} && Settled(Now(), card, estimate, updated)
      ensures if status == 0 then Added(before, es, j + 1, maxBytes, created, Now(), updated)
              else Added(before, es, j, maxBytes, created, Now(), updated) && Now().Reply(es[j], maxBytes) == status
    {
      ghost var c, was := Now(), card;
      var retval := Add(es[j], maxBytes);
      ghost var d := Now();
      SettledNext(c, was, d, card, estimate, updated0, retval);
      if retval < 0 { return retval, updated0; }
      AddedNext(before, es, j, maxBytes, created, c, updated0, d);
      return 0, updated0 || retval == 1;
    }

    lemma RegistersBounded()
      requires Loose()
      ensures Bounded(Registers())
    {
      if encoding.SparseEncoding? {
        forall i | 0 <= i < |Registers()| ensures Registers()[i] <= REGISTER_MAX {
          Sparse.DecodeBound(data, i);
        }
      }
    }

    /** hllCount, hyperloglog.c:967-995 and 1005-1023 behind `estimate`. */
    method Count() returns (valid: bool, c: Card)
      requires Loose()
      ensures valid <==> Valid()
      ensures c == Cardinality()
    {
      var E, ez;
      valid := true;
      match encoding {
        case DenseEncoding => E, ez := Walk.DenseSum(data);
        case SparseEncoding => E, ez, valid := Walk.SparseSum(data);
      }
      c := estimate(E, ez);
    }

    /** pfcountCommand for one key, hyperloglog.c:1242-1280.  Whatever it replies
        is the cardinality of the current registers. */
    method PfCount() returns (ok: bool, c: Card)
      requires Coherent()
      modifies `card
      ensures Coherent() && (ok ==> c == Cardinality())
      ensures !ok <==> !Valid() && !CacheValid(old(card))
      ensures ok && CacheValid(old(card)) ==> card == old(card)
      ensures ok && !CacheValid(old(card)) ==> LoadCard(card) == c && (CacheValid(card) <==> c % 256 < 128)
    {
      if CacheValid(card) { return true, LoadCard(card); }
      ok, c := Count();
      if ok { Cache(c); }
    }

    method Cache(c: Card)
      requires Loose() && c == Cardinality()
      modifies `card
      ensures Coherent() && LoadCard(card) == c && (CacheValid(card) <==> c % 256 < 128)
    {
      card := StoreCard(c, 8);
      EightBytes();
      LoadStore(c, 8);
      StoredCacheValid(c);
    }

    /** hllMerge, hyperloglog.c:1044-1083. */
    method MergeInto(max: array<Byte>) returns (r: Walk.Outcome)
      requires Loose() && max.Length == REGISTERS
      modifies max
      ensures r == Now().Ends()
      ensures r == Walk.Done ==> Valid() && max[..] == Join(old(max[..]), Registers())
    {
      match encoding {
        case DenseEncoding =>
          Walk.MergeDense(max, data);
          r := Walk.Done;
        case SparseEncoding =>
          r := Walk.MergeSparse(max, data);
      }
    }

    /** The last part of pfmergeCommand, hyperloglog.c:1323-1335: stores the merged
        registers in this object, as dense ones, and invalidates its cache. */
    method Assign(max: array<Byte>) returns (r: Walk.Outcome)
      requires Loose() && max.Length == REGISTERS && Bounded(max[..])
      modifies this
      ensures r == old(Now()).Ends() && (r != Walk.Done ==> Now() == old(Now()) && card == old(card))
      ensures r == Walk.Done ==> Valid() && encoding.DenseEncoding? && Registers() == max[..] && !CacheValid(card)
      ensures Loose() && elements == old(elements)
    {
      r := SparseToDense();
      if r != Walk.Done { return; }
      StoreAll(max);
      ghost var c := Now();
      card := Invalidate(card);
      assert Now() == c;
    }

    /** hyperloglog.c:1332-1334. */
    method StoreAll(max: array<Byte>)
      requires Loose() && encoding.DenseEncoding? && max.Length == REGISTERS && Bounded(max[..])
      modifies `data
      ensures Loose() && Registers() == max[..]
    {
      var j := 0;
      while j < REGISTERS
        invariant j <= REGISTERS && Loose()
        invariant forall i :: 0 <= i < j ==> Dense.Decode(data)[i] == max[i]
      {
        Dense.DecodeSet(data, j, max[j]);
        data := Dense.Set(data, j, max[j]);
        j := j + 1;
      }
    }
  }

  // -------------------------------------------------------- several objects

  ghost function AllElements(objs: seq<HllObject>): set<Element>
    reads objs
  {
    set o, e | o in objs && e in o.elements :: e
  }

  /** How merging each of the objects ends. */
  ghost function Endings(objs: seq<HllObject>): (os: seq<Walk.Outcome>)
    reads objs
    ensures |os| == |objs| && forall i :: 0 <= i < |objs| ==> os[i] == objs[i].End()
  {
    seq(|objs|, i requires 0 <= i < |objs| reads objs => objs[i].End())
  }

  /** The first that is not Done. */
  function FirstEnd(os: seq<Walk.Outcome>): Walk.Outcome
  {
    if os == [] then Walk.Done else if os[0] != Walk.Done then os[0] else FirstEnd(os[1..])
  }

  lemma {:induction false} FirstEndAt(os: seq<Walk.Outcome>, j: nat)
    requires j <= |os| && forall i :: 0 <= i < j ==> os[i] == Walk.Done
    requires j < |os| ==> os[j] != Walk.Done
    ensures FirstEnd(os) == if j < |os| then os[j] else Walk.Done
  {
    if j > 0 { FirstEndAt(os[1..], j - 1); }
  }

  /** There is none exactly when all are. */
  lemma {:induction false} AllDone(os: seq<Walk.Outcome>)
    ensures FirstEnd(os) == Walk.Done <==> forall i :: 0 <= i < |os| ==> os[i] == Walk.Done
  {
    if os != [] {
      AllDone(os[1..]);
      assert os == [os[0]] + os[1..];
    }
  }

  /** The merge loop of pfcountCommand and pfmergeCommand, hyperloglog.c:1209-1225
      and 1293-1306; keys that do not exist contribute nothing and are left out of
      `objs`.  Stops at the first object that does not cover all the registers. */
  method MergeAll(objs: seq<HllObject>) returns (r: Walk.Outcome, max: array<Byte>)
    requires forall i :: 0 <= i < |objs| ==> objs[i].Tracks()
    ensures fresh(max) && max.Length == REGISTERS
    ensures r == FirstEnd(old(Endings(objs)))
    ensures r == Walk.Done ==> Represents(max[..], old(AllElements(objs))) && Bounded(max[..])
  {
    ghost var os := Endings(objs);
    ghost var els := Shares(objs);
    max := new Byte[REGISTERS](_ => 0);
    assert max[..] == Run(REGISTERS, 0);
    EmptyRepresents();
    r := Walk.Done;
    var j := 0;
    while j < |objs|
      invariant j <= |objs| && fresh(max) && r == Walk.Done
      invariant forall i :: 0 <= i < j ==> os[i] == Walk.Done
      invariant Bounded(max[..]) && Represents(max[..], Together(els[..j]))
    {
      r := MergeOne(max, objs[j], Together(els[..j]));
      if r != Walk.Done { break; }
      TogetherStep(els, j);
      j := j + 1;
    }
    FirstEndAt(os, j);
    assert j == |objs| ==> els[..j] == els;
  }

  /** What each of the objects was built from. */
  ghost function Shares(objs: seq<HllObject>): (els: seq<set<Element>>)
    reads objs
    ensures |els| == |objs| && forall i :: 0 <= i < |objs| ==> els[i] == objs[i].elements
    ensures Together(els) == AllElements(objs)
  {
    var els := seq(|objs|, i requires 0 <= i < |objs| reads objs => objs[i].elements);
    assert forall e :: e in Together(els) ==> e in AllElements(objs);
    assert forall o :: o in objs ==> exists i :: 0 <= i < |els| && o == objs[i] && els[i] == o.elements;
    els
  }

  ghost function Together(els: seq<set<Element>>): set<Element>
  {
    set i, e | 0 <= i < |els| && e in els[i] :: e
  }

  lemma TogetherStep(els: seq<set<Element>>, j: nat)
    requires j < |els|
    ensures Together(els[..j + 1]) == Together(els[..j]) + els[j]
  {
    assert forall i :: 0 <= i < j ==> els[..j + 1][i] == els[..j][i];
    assert els[..j + 1][j] == els[j];
  }

  ghost predicate Bounded(r: seq<Byte>)
  {
    forall i :: 0 <= i < |r| ==> r[i] <= REGISTER_MAX
  }

  method MergeOne(max: array<Byte>, o: HllObject, ghost es: set<Element>) returns (r: Walk.Outcome)
    requires o.Tracks() && max.Length == REGISTERS && Bounded(max[..]) && Represents(max[..], es)
    modifies max
    ensures r == o.End()
    ensures r == Walk.Done ==> Bounded(max[..]) && Represents(max[..], es + o.elements)
  {
    ghost var before := max[..];
    r := o.MergeInto(max);
    if r == Walk.Done {
      o.RegistersBounded();
      JoinRepresents(before, es, o.Registers(), o.elements);
      assert max[..] == Join(before, o.Registers());
    }
  }

  /** pfcountCommand for several keys, hyperloglog.c:1204-1230. */
  method PfCountAll(objs: seq<HllObject>, estimate: (real, nat) -> Card) returns (r: Walk.Outcome, c: Card)
    requires forall i :: 0 <= i < |objs| ==> objs[i].Tracks()
    ensures r == FirstEnd(old(Endings(objs)))
    ensures r == Walk.Done ==> forall t :: Represents(t, old(AllElements(objs))) ==> c == estimate(Sum(t), ZeroCount(t))
  {
    c := 0;
    var max;
    r, max := MergeAll(objs);
    if r != Walk.Done { return; }
    var E, ez := Walk.RawSum(max[..]);
    c := estimate(E, ez);
    forall t | Represents(t, old(AllElements(objs))) ensures t == max[..] {
      RepresentsUnique(t, max[..], old(AllElements(objs)));
    }
  }

  /** pfmergeCommand, hyperloglog.c:1285-1343; `dest` is among the sources when it
      existed before.  Merging makes the destination track the union. */
  method PfMerge(dest: HllObject, objs: seq<HllObject>) returns (r: Walk.Outcome)
    requires dest in objs && forall i :: 0 <= i < |objs| ==> objs[i].Tracks()
    modifies dest
    ensures r == FirstEnd(old(Endings(objs)))
            && (r == Walk.Done <==> old(forall i :: 0 <= i < |objs| ==> objs[i].Valid()))
    ensures r != Walk.Done ==> unchanged(dest)
    ensures r == Walk.Done ==> dest.Coherent() && dest.Valid() && dest.Tracks()
    ensures r == Walk.Done ==> dest.elements == old(AllElements(objs))
  {
    var max;
    AllDone(Endings(objs));
    r, max := MergeAll(objs);
    if r != Walk.Done { return; }
    ghost var i :| 0 <= i < |objs| && objs[i] == dest;
    assert objs[i].Valid();
    ghost var union := AllElements(objs);
    r := dest.Assign(max);
    dest.elements := union;
  }

  lemma RaiseCases(r: seq<Byte>, e: Element)
    ensures Raise(r, e) == if e.index < |r| && r[e.index] < e.count then r[e.index := e.count] else r
    ensures Raise(r, e) != r <==> e.index < |r| && r[e.index] < e.count
  {
    if e.index < |r| && r[e.index] < e.count {
      assert Raise(r, e)[e.index] != r[e.index];
    }
  }

  lemma RaiseChanges(r: seq<Byte>, e: Element)
    requires Raise(r, e) != r
    ensures e.index < |r| && Raise(r, e)[e.index] > r[e.index]
  {}

  lemma ZeroCard()
    ensures var c: seq<Byte> := [0, 0, 0, 0, 0, 0, 0, 0]; CacheValid(c) && LoadCard(c) == 0
  {}

  /** Adding a list of elements one after the other. */
  function RaiseAll(r: seq<Byte>, es: seq<Element>): (t: seq<Byte>)
    ensures |t| == |r|
  {
    if es == [] then r
    else Raise(RaiseAll(r, es[..|es| - 1]), es[|es| - 1])
  }

  lemma {:induction false} RaiseAllGrows(r: seq<Byte>, es: seq<Element>)
    ensures forall i :: 0 <= i < |r| ==> r[i] <= RaiseAll(r, es)[i]
    decreases |es|
  {
    if es == [] {
    } else {
      RaiseAllGrows(r, es[..|es| - 1]);
    }
  }

  /** The registers after a list of additions depend only on the set of elements
      in the list: neither order nor repetition matters. */
  lemma {:induction false} RaiseAllRepresents(r: seq<Byte>, fs: set<Element>, es: seq<Element>)
    requires Represents(r, fs) && forall e :: e in es ==> e.Valid()
    ensures Represents(RaiseAll(r, es), fs + (set e | e in es))
    decreases |es|
  {
    if es == [] {
      assert fs + (set e | e in es) == fs;
    } else {
      var rest, last := es[..|es| - 1], es[|es| - 1];
      RaiseAllRepresents(r, fs, rest);
      RaiseRepresents(RaiseAll(r, rest), fs + (set e | e in rest), last);
      assert es == rest + [last];
      assert fs + (set e | e in es) == fs + (set e | e in rest) + {last};
    }
  }
}
