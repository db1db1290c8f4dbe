/** The life of profiling contexts in deps/jemalloc/src/prof.c: a state machine
    whose steps are the sections that run under bt2ctx_mtx or a context's lock, and
    the thread-local code between them, in any interleaving. */
module ProfCtx {
  import opened Options

  type Tid = nat
  type Cid = nat
  type Object = nat
  type Backtrace = seq<nat>

  /** prof_cnt_t, prof.h:67-81.  The counter of one thread may be negative. */
  datatype Cnt = Cnt(curobjs: int, curbytes: int, accumobjs: int)

  const ZERO := Cnt(0, 0, 0)

  /** prof_ctx_t; cnts holds each thread's counter if it is in cnts_ql.  The program
      stores neither `leaked`, how many increments of nlimbo nobody will undo, nor
      `frees`, how often the context was released. */
  datatype Ctx = Ctx(bt: Backtrace, nlimbo: int, merged: Cnt, cnts: seq<Option<Cnt>>, leaked: nat, frees: nat) {
    /** Thread t has a counter in cnts_ql. */
    predicate Has(t: Tid) {
      t < |cnts| && cnts[t].Some?
    }

    predicate NoCounters() {
      forall t :: 0 <= t < |cnts| ==> cnts[t] == None
    }
  }

  /** A sampled object, whose header points to a context. */
  datatype Sampled = Sampled(ctx: Cid, size: nat, alive: bool)

  /** Where a thread stands in prof_lookup. */
  datatype Lookup = Idle | Entered(bt: Backtrace) | Found(ctx: Cid) | Limbo(ctx: Cid, isNew: bool) | Failed

  /** Where it stands in prof_ctx_merge and prof_ctx_destroy, which prof_lookup and
      prof_tdata_cleanup call. */
  datatype Work = Rest | Merging(ctx: Cid) | Waiting(ctx: Cid) | Checking(ctx: Cid) | Releasing(ctx: Cid)

  datatype Thread = Thread(cache: map<Backtrace, Cid>, lookup: Lookup, work: Work, freeing: Option<Object>)

  /** `table` is bt2ctx and `holder` the owner of bt2ctx_mtx. */
  datatype State = State(accum: bool, table: map<Backtrace, Cid>, holder: Option<Tid>,
                         ctxs: seq<Ctx>, objects: seq<Sampled>, threads: seq<Thread>)

  /** The events with `lost` are insertions into bt2ctx and bt2cnt that fail: ckh_insert
      (ckh.c:454-476) drops the entry that is in flight then, which need not be the
      one it was given. */
  datatype Event =
    | Enter(bt: Backtrace) | Search | Create | CreateFails | CreateLoses(lost: Backtrace)
    | Increment | Link | LinkFails | LinkLoses(lost: Backtrace)
    | Evict(bt: Backtrace) | Merge | EnterDestroy | Destroy | Release
    | Sample(bt: Backtrace, size: nat) | StartFree(object: Object) | NoLookup | Uncharge | UnchargeMerged

  const NEW_THREAD := Thread(map[], Idle, Rest, None)

  ghost predicate Init(s: State)
  {
    && s.table == map[] && s.holder == None && s.ctxs == [] && s.objects == []
    && forall t :: 0 <= t < |s.threads| ==> s.threads[t] == NEW_THREAD
  }

  // ------------------------------------------------------------------- steps

  /** A sampled object of this size is allocated: prof.h:448-453. */
  function Charged(x: Cnt, size: nat, accum: bool): Cnt
  {
    Cnt(x.curobjs + 1, x.curbytes + size, x.accumobjs + if accum then 1 else 0)
  }

  /** And freed: prof.h:557-558 and 572-573. */
  function Uncharged(x: Cnt, size: nat): Cnt
  {
    Cnt(x.curobjs - 1, x.curbytes - size, x.accumobjs)
  }

  /** What the program counter, the mutex and the caller allow thread t to do.  No
      guard asks whether a context still exists. */
  ghost predicate Enabled(s: State, t: Tid, e: Event)
  {
    && t < |s.threads|
    && var th := s.threads[t];
    match e
    case Enter(bt) =>
      && s.holder == None && th.work == Rest && th.lookup == Idle && bt !in th.cache
      && (th.freeing.Some? ==> FreedCtx(s, t) < |s.ctxs| && bt == s.ctxs[FreedCtx(s, t)].bt)
    case Search => th.lookup.Entered? && th.lookup.bt in s.table
    case Create => th.lookup.Entered? && th.lookup.bt !in s.table
    case CreateFails => th.lookup.Entered? && th.lookup.bt !in s.table
    case CreateLoses(lost) => th.lookup.Entered? && th.lookup.bt !in s.table
      && (lost == th.lookup.bt || lost in s.table)
    case Increment => th.lookup.Found?
    case Link => th.work == Rest && th.lookup.Limbo?
    case LinkFails => th.work == Rest && th.lookup.Limbo?
    case LinkLoses(lost) =>
      && th.work == Rest && th.lookup.Limbo? && th.lookup.ctx < |s.ctxs|
      && (lost == s.ctxs[th.lookup.ctx].bt || lost in th.cache)
    case Evict(bt) => th.work == Rest && bt in th.cache
      && (th.lookup.Limbo? || (th.lookup == Idle && th.freeing == None))
    case Merge => th.work.Merging?
    case EnterDestroy => s.holder == None && th.work.Waiting?
    case Destroy => th.work.Checking?
    case Release => th.work.Releasing?
    case Sample(bt, size) => th.work == Rest && th.lookup == Idle && th.freeing == None && bt in th.cache
    case StartFree(o) =>
      && th.work == Rest && th.lookup == Idle && th.freeing == None && o < |s.objects| && s.objects[o].alive
      && forall u :: 0 <= u < |s.threads| ==> s.threads[u].freeing != Some(o)
    case NoLookup => th.work == Rest && th.lookup == Idle && th.freeing.Some?
    case Uncharge =>
      && th.work == Rest && th.lookup == Idle && th.freeing.Some?
      && FreedCtx(s, t) < |s.ctxs| && s.ctxs[FreedCtx(s, t)].bt in th.cache
    case UnchargeMerged => th.work == Rest && th.lookup == Failed && th.freeing.Some?
  }

  /** The context of the object that thread t is freeing. */
  function FreedCtx(s: State, t: Tid): Cid
    requires t < |s.threads|
  {
    var f := s.threads[t].freeing;
    if f.Some? && f.value < |s.objects| then s.objects[f.value].ctx else 0
  }

  /** The contexts thread t holds pointers to. */
  function Pointers(s: State, t: Tid): set<Cid>
    requires t < |s.threads|
  {
    var th := s.threads[t];
    th.cache.Values
    + (if th.lookup.Found? || th.lookup.Limbo? then {th.lookup.ctx} else {})
    + (if th.work == Rest then {} else {th.work.ctx})
    + (if th.freeing.Some? then {FreedCtx(s, t)} else {})
  }

  /** Pointers lead to memory that was a context at some time, a thread's counters
      are in the lists of their contexts, and freed objects were allocated. */
  ghost predicate Grounded(s: State, t: Tid)
  {
    && t < |s.threads|
    && var th := s.threads[t];
    && (th.lookup.Found? || th.lookup.Limbo? ==> th.lookup.ctx < |s.ctxs| && t < |s.ctxs[th.lookup.ctx].cnts|)
    && (th.work != Rest ==> th.work.ctx < |s.ctxs|)
    && (th.work.Merging? ==> s.ctxs[th.work.ctx].Has(t))
    && (th.freeing.Some? ==> th.freeing.value < |s.objects| && FreedCtx(s, t) < |s.ctxs|)
    && (forall bt :: bt in th.cache ==> th.cache[bt] < |s.ctxs| && s.ctxs[th.cache[bt]].Has(t))
  }

  function WithThread(s: State, t: Tid, th: Thread): State
    requires t < |s.threads|
  {
    s.(threads := s.threads[t := th])
  }

  function WithCtx(s: State, c: Cid, x: Ctx): State
    requires c < |s.ctxs|
  {
    s.(ctxs := s.ctxs[c := x])
  }

  /** prof_lookup gives up: only prof_free goes on without a counter. */
  function GiveUp(th: Thread): Thread
  {
    th.(lookup := if th.freeing.Some? then Failed else Idle)
  }

  // prof_lookup, prof.c:431-553

  /** Takes bt2ctx_mtx: prof.c:461. */
  function AfterEnter(s: State, t: Tid, bt: Backtrace): State
    requires t < |s.threads|
  {
    WithThread(s, t, s.threads[t].(lookup := Entered(bt))).(holder := Some(t))
  }

  function AfterSearch(s: State, t: Tid): State
    requires t < |s.threads| && s.threads[t].lookup.Entered? && s.threads[t].lookup.bt in s.table
  {
    WithThread(s, t, s.threads[t].(lookup := Found(s.table[s.threads[t].lookup.bt])))
  }

  function NewCtx(bt: Backtrace, threads: nat): Ctx
  {
    Ctx(bt, 1, ZERO, seq(threads, _ => None), 0, 0)
  }

  /** prof.c:462-490. */
  function AfterCreate(s: State, t: Tid): State
    requires t < |s.threads| && s.threads[t].lookup.Entered?
  {
    var c, bt := |s.ctxs|, s.threads[t].lookup.bt;
    WithThread(s, t, s.threads[t].(lookup := Limbo(c, true)))
    .(holder := None, ctxs := s.ctxs + [NewCtx(bt, |s.threads|)], table := s.table[bt := c])
  }

  /** No memory for the context or its key: prof.c:465-474. */
  function AfterCreateFails(s: State, t: Tid): State
    requires t < |s.threads|
  {
    WithThread(s, t, GiveUp(s.threads[t])).(holder := None)
  }

  /** prof.c:484-490: the context is released, but it is in bt2ctx unless it is the
      entry that was lost. */
  function AfterCreateLoses(s: State, t: Tid, lost: Backtrace): State
    requires t < |s.threads| && s.threads[t].lookup.Entered?
  {
    var c, bt := |s.ctxs|, s.threads[t].lookup.bt;
    WithThread(s, t, GiveUp(s.threads[t]))
    .(holder := None, ctxs := s.ctxs + [NewCtx(bt, |s.threads|).(frees := 1)], table := s.table[bt := c] - {lost})
  }

  /** prof.c:492-502.  The mutex goes with the increment: nothing else happens
      while it is still held. */
  function AfterIncrement(s: State, t: Tid): State
    requires Grounded(s, t) && s.threads[t].lookup.Found?
  {
    var c := s.threads[t].lookup.ctx;
    var x := s.ctxs[c];
    WithThread(WithCtx(s, c, x.(nlimbo := x.nlimbo + 1)), t, s.threads[t].(lookup := Limbo(c, false))).(holder := None)
  }

  /** prof.c:531-545. */
  function AfterLink(s: State, t: Tid): State
    requires Grounded(s, t) && s.threads[t].lookup.Limbo?
  {
    var th := s.threads[t];
    var c := th.lookup.ctx;
    var x := s.ctxs[c];
    WithThread(WithCtx(s, c, x.(cnts := x.cnts[t := Some(ZERO)], nlimbo := x.nlimbo - 1)), t,
               th.(cache := th.cache[x.bt := c], lookup := Idle))
  }

  /** No memory for the counter: prof.c:522-527.  Only the creator passes its increment
      on to prof_ctx_destroy. */
  function AfterLinkFails(s: State, t: Tid): State
    requires Grounded(s, t) && s.threads[t].lookup.Limbo?
  {
    var th := s.threads[t];
    var c := th.lookup.ctx;
    var x := s.ctxs[c];
    if th.lookup.isNew then WithThread(s, t, GiveUp(th).(work := Waiting(c)))
    else WithThread(WithCtx(s, c, x.(leaked := x.leaked + 1)), t, GiveUp(th))
  }

  /** prof.c:535-540: the counter is freed, but it is in bt2cnt unless it is the entry
      that was lost. */
  function AfterLinkLoses(s: State, t: Tid, lost: Backtrace): State
    requires Grounded(s, t) && s.threads[t].lookup.Limbo?
  {
    var c, r := s.threads[t].lookup.ctx, AfterLinkFails(s, t);
    WithThread(r, t, r.threads[t].(cache := r.threads[t].cache[s.ctxs[c].bt := c] - {lost}))
  }

  /** prof.c:505-517 in prof_lookup and 1169-1172 in prof_tdata_cleanup. */
  function AfterEvict(s: State, t: Tid, bt: Backtrace): State
    requires t < |s.threads| && bt in s.threads[t].cache
  {
    var th := s.threads[t];
    WithThread(s, t, th.(cache := th.cache - {bt}, work := Merging(th.cache[bt])))
  }

  // prof_ctx_merge and prof_ctx_destroy, prof.c:674-752

  /** prof.c:723-749: the context, and whether the caller is to destroy it. */
  function MergeCounter(x: Ctx, t: Tid, accum: bool): (Ctx, bool)
    requires x.Has(t)
  {
    var m, n := x.merged, x.cnts[t].value;
    var y := x.(merged := Cnt(m.curobjs + n.curobjs, m.curbytes + n.curbytes, m.accumobjs + n.accumobjs),
                cnts := x.cnts[t := None]);
    if !accum && y.NoCounters() && y.merged.curobjs == 0 && y.nlimbo == 0 then (y.(nlimbo := y.nlimbo + 1), true)
    else (y, false)
  }

  function AfterMerge(s: State, t: Tid): State
    requires Grounded(s, t) && s.threads[t].work.Merging?
  {
    var c := s.threads[t].work.ctx;
    var (y, destroy) := MergeCounter(s.ctxs[c], t, s.accum);
    WithThread(WithCtx(s, c, y), t, s.threads[t].(work := if destroy then Waiting(c) else Rest))
  }

  function AfterEnterDestroy(s: State, t: Tid): State
    requires t < |s.threads| && s.threads[t].work.Waiting?
  {
    WithThread(s, t, s.threads[t].(work := Checking(s.threads[t].work.ctx))).(holder := Some(t))
  }

  /** The test of prof.c:692-693. */
  predicate Destroyable(x: Ctx)
  {
    x.NoCounters() && x.merged.curobjs == 0 && x.nlimbo == 1
  }

  /** prof.c:690-714. */
  function AfterDestroy(s: State, t: Tid): State
    requires Grounded(s, t) && s.threads[t].work.Checking?
  {
    var c := s.threads[t].work.ctx;
    var x := s.ctxs[c];
    if Destroyable(x)
      then WithThread(s, t, s.threads[t].(work := Releasing(c))).(table := s.table - {x.bt}, holder := None)
    else WithThread(WithCtx(s, c, x.(nlimbo := x.nlimbo - 1)), t, s.threads[t].(work := Rest)).(holder := None)
  }

  /** prof.c:702-704. */
  function AfterRelease(s: State, t: Tid): State
    requires Grounded(s, t) && s.threads[t].work.Releasing?
  {
    var c := s.threads[t].work.ctx;
    WithThread(WithCtx(s, c, s.ctxs[c].(frees := s.ctxs[c].frees + 1)), t, s.threads[t].(work := Rest))
  }

  // prof_malloc and prof_free, prof.h:420-463 and 540-577

  function AfterSample(s: State, t: Tid, bt: Backtrace, size: nat): State
    requires Grounded(s, t) && bt in s.threads[t].cache
  {
    var c := s.threads[t].cache[bt];
    var x := s.ctxs[c];
    WithCtx(s, c, x.(cnts := x.cnts[t := Some(Charged(x.cnts[t].value, size, s.accum))]))
    .(objects := s.objects + [Sampled(c, size, true)])
  }

  function AfterStartFree(s: State, t: Tid, o: Object): State
    requires t < |s.threads|
  {
    WithThread(s, t, s.threads[t].(freeing := Some(o)))
  }

  function AfterNoLookup(s: State, t: Tid): State
    requires t < |s.threads|
  {
    WithThread(s, t, s.threads[t].(lookup := Failed))
  }

  /** The freed object and its thread. */
  function Freed(s: State, t: Tid): State
    requires Grounded(s, t) && s.threads[t].freeing.Some?
  {
    var o := s.threads[t].freeing.value;
    WithThread(s, t,
               s.threads[t].(freeing := None,
                             lookup := Idle)).(objects := s.objects[o := s.objects[o].(alive := false)])
  }

  /** The counter is the one that prof_lookup returned. */
  function AfterUncharge(s: State, t: Tid): State
    requires Grounded(s, t) && s.threads[t].freeing.Some? && s.ctxs[FreedCtx(s, t)].bt in s.threads[t].cache
  {
    var d := s.threads[t].cache[s.ctxs[FreedCtx(s, t)].bt];
    var y := s.ctxs[d];
    var size := s.objects[s.threads[t].freeing.value].size;
    WithCtx(Freed(s, t), d, y.(cnts := y.cnts[t := Some(Uncharged(y.cnts[t].value, size))]))
  }

  function AfterUnchargeMerged(s: State, t: Tid): State
    requires Grounded(s, t) && s.threads[t].freeing.Some?
  {
    var c := FreedCtx(s, t);
    var x := s.ctxs[c];
    var size := s.objects[s.threads[t].freeing.value].size;
    WithCtx(Freed(s, t), c, x.(merged := Uncharged(x.merged, size)))
  }

  /** One step of thread t. */
  ghost function Do(s: State, t: Tid, e: Event): State
    requires Enabled(s, t, e) && Grounded(s, t)
  {
    match e
    case Enter(bt) => AfterEnter(s, t, bt)
    case Search => AfterSearch(s, t)
    case Create => AfterCreate(s, t)
    case CreateFails => AfterCreateFails(s, t)
    case CreateLoses(lost) => AfterCreateLoses(s, t, lost)
    case Increment => AfterIncrement(s, t)
    case Link => AfterLink(s, t)
    case LinkFails => AfterLinkFails(s, t)
    case LinkLoses(lost) => AfterLinkLoses(s, t, lost)
    case Evict(bt) => AfterEvict(s, t, bt)
    case Merge => AfterMerge(s, t)
    case EnterDestroy => AfterEnterDestroy(s, t)
    case Destroy => AfterDestroy(s, t)
    case Release => AfterRelease(s, t)
    case Sample(bt, size) => AfterSample(s, t, bt, size)
    case StartFree(o) => AfterStartFree(s, t, o)
    case NoLookup => AfterNoLookup(s, t)
    case Uncharge => AfterUncharge(s, t)
    case UnchargeMerged => AfterUnchargeMerged(s, t)
  }

  // --------------------------------------------------------------- invariant

  /** bt2ctx leads to the context. */
  predicate Linked(s: State, c: Cid)
  {
    c < |s.ctxs| && s.ctxs[c].bt in s.table && s.table[s.ctxs[c].bt] == c
  }

  /** How many increments of the context's nlimbo the thread is going to undo. */
  function Held(th: Thread, c: Cid): nat
  {
    (if th.lookup.Limbo? && th.lookup.ctx == c then 1 else 0)
    + (if (th.work.Waiting? || th.work.Checking?) && th.work.ctx == c then 1 else 0)
  }

  function Refs(threads: seq<Thread>, c: Cid): nat
  {
    if threads == [] then 0 else Held(threads[0], c) + Refs(threads[1..], c)
  }

  function Of(x: Option<Cnt>): Cnt
  {
    if x.Some? then x.value else ZERO
  }

  /** The sum of the counters in cnts_ql. */
  function Sum(cnts: seq<Option<Cnt>>): Cnt
  {
    if cnts == [] then ZERO else
      var x, y := Of(cnts[0]), Sum(cnts[1..]);
      Cnt(x.curobjs + y.curobjs, x.curbytes + y.curbytes, x.accumobjs + y.accumobjs)
  }

  function Owed(x: Sampled, c: Cid): Cnt
  {
    if x.ctx != c then ZERO else if x.alive then Cnt(1, x.size, 1) else Cnt(0, 0, 1)
  }

  /** What the live sampled objects of a context amount to, and how many objects were
      ever sampled into it. */
  function Live(objects: seq<Sampled>, c: Cid): Cnt
  {
    if objects == [] then ZERO else
      var x, y := Owed(objects[0], c), Live(objects[1..], c);
      Cnt(x.curobjs + y.curobjs, x.curbytes + y.curbytes, x.accumobjs + y.accumobjs)
  }

  /** The counters account for the sampled objects that are alive. */
  predicate Balanced(x: Ctx, live: Cnt, accum: bool)
  {
    var y := Sum(x.cnts);
    && x.merged.curobjs + y.curobjs == live.curobjs
    && x.merged.curbytes + y.curbytes == live.curbytes
    && x.merged.accumobjs + y.accumobjs == if accum then live.accumobjs else 0
  }

  /** Every counter in cnts_ql is in its thread's cache or about to be merged. */
  ghost predicate Listed(s: State, c: Cid)
    requires c < |s.ctxs|
  {
    var x := s.ctxs[c];
    && |x.cnts| == |s.threads|
    && forall t :: 0 <= t < |s.threads| && x.Has(t) ==>
      s.threads[t].work == Merging(c) || (x.bt in s.threads[t].cache && s.threads[t].cache[x.bt] == c)
  }

  ghost predicate CtxOk(s: State, c: Cid)
    requires c < |s.ctxs|
  {
    var x := s.ctxs[c];
    if Linked(s, c) then
      x.nlimbo == Refs(s.threads, c) + x.leaked && x.frees == 0 && Balanced(x, Live(s.objects, c), s.accum)
        && Listed(s, c)
    else x.frees <= 1
  }

  ghost predicate LookupOk(s: State, t: Tid)
    requires t < |s.threads|
  {
    var th := s.threads[t];
    match th.lookup
    case Idle => true
    case Failed => true
    case Entered(bt) => s.holder == Some(t) && bt !in th.cache && th.work == Rest
    case Found(c) => s.holder == Some(t) && Linked(s, c) && !s.ctxs[c].Has(t) && th.work == Rest
    case Limbo(c, _) => Linked(s, c) && !s.ctxs[c].Has(t)
  }

  ghost predicate WorkOk(s: State, t: Tid)
    requires t < |s.threads|
  {
    var th := s.threads[t];
    match th.work
    case Rest => true
    case Merging(c) => Linked(s, c) && s.ctxs[c].Has(t) && s.ctxs[c].bt !in th.cache
    case Waiting(c) => Linked(s, c)
    case Checking(c) => s.holder == Some(t) && Linked(s, c)
    case Releasing(c) => c < |s.ctxs| && !Linked(s, c) && s.ctxs[c].frees == 0
  }

  ghost predicate ThreadOk(s: State, t: Tid)
    requires t < |s.threads|
  {
    var th := s.threads[t];
    && LookupOk(s, t) && WorkOk(s, t)
    && (forall bt :: bt in th.cache ==>
        Linked(s, th.cache[bt]) && s.ctxs[th.cache[bt]].bt == bt && s.ctxs[th.cache[bt]].Has(t))
    && (th.freeing.Some? ==> th.freeing.value < |s.objects| && s.objects[th.freeing.value].alive)
  }

  /** No two threads free the same object or release the same context. */
  ghost predicate Exclusive(threads: seq<Thread>)
  {
    forall t, u :: 0 <= t < u < |threads| ==>
      && (threads[t].freeing.Some? ==> threads[t].freeing != threads[u].freeing)
      && (threads[t].work.Releasing? ==> threads[t].work != threads[u].work)
  }

  ghost predicate TableOk(s: State)
  {
    && (forall bt :: bt in s.table ==> s.table[bt] < |s.ctxs| && s.ctxs[s.table[bt]].bt == bt)
    && (forall o :: 0 <= o < |s.objects| ==>
        s.objects[o].ctx < |s.ctxs| && (s.objects[o].alive ==> Linked(s, s.objects[o].ctx)))
  }

  ghost predicate Inv(s: State)
  {
    && TableOk(s) && Exclusive(s.threads)
    && (forall c :: 0 <= c < |s.ctxs| ==> CtxOk(s, c))
    && (forall t :: 0 <= t < |s.threads| ==> ThreadOk(s, t))
  }

  // -------------------------------------------------------------------- sums

  lemma {:induction false} RefsUpdate(threads: seq<Thread>, t: Tid, th: Thread, c: Cid)
    requires t < |threads|
    ensures Refs(threads[t := th], c) == Refs(threads, c) - Held(threads[t], c) + Held(th, c)
  {
    if t > 0 {
      RefsUpdate(threads[1..], t - 1, th, c);
      assert threads[t := th][1..] == threads[1..][t - 1 := th];
    }
  }

  /** nlimbo counts every thread in limbo. */
  lemma RefsBound(threads: seq<Thread>, t: Tid, c: Cid)
    requires t < |threads|
    ensures Refs(threads, c) >= Held(threads[t], c)
  {
    RefsUpdate(threads, t, NEW_THREAD, c);
  }

  /** A thread in limbo leaves this many increments to the others. */
  lemma RefsOthers(threads: seq<Thread>, t: Tid, u: Tid, c: Cid)
    requires t < |threads| && u < |threads| && t != u
    ensures Refs(threads, c) >= Held(threads[t], c) + Held(threads[u], c)
  {
    RefsUpdate(threads, t, NEW_THREAD, c);
    RefsBound(threads[t := NEW_THREAD], u, c);
  }

  lemma {:induction false} RefsNone(threads: seq<Thread>, c: Cid)
    requires forall t :: 0 <= t < |threads| ==> Held(threads[t], c) == 0
    ensures Refs(threads, c) == 0
  {
    if threads != [] { RefsNone(threads[1..], c); }
  }

  /** r is x with `less` taken away and `more` added. */
  predicate Moved(r: Cnt, x: Cnt, less: Cnt, more: Cnt)
  {
    && r.curobjs == x.curobjs - less.curobjs + more.curobjs
    && r.curbytes == x.curbytes - less.curbytes + more.curbytes
    && r.accumobjs == x.accumobjs - less.accumobjs + more.accumobjs
  }

  lemma {:induction false} SumUpdate(cnts: seq<Option<Cnt>>, t: Tid, x: Option<Cnt>)
    requires t < |cnts|
    ensures Moved(Sum(cnts[t := x]), Sum(cnts), Of(cnts[t]), Of(x))
  {
    if t > 0 {
      SumUpdate(cnts[1..], t - 1, x);
      assert cnts[t := x][1..] == cnts[1..][t - 1 := x];
    }
  }

  lemma {:induction false} SumNone(cnts: seq<Option<Cnt>>)
    requires forall t :: 0 <= t < |cnts| ==> cnts[t] == None
    ensures Sum(cnts) == ZERO
  {
    if cnts != [] { SumNone(cnts[1..]); }
  }

  lemma {:induction false} LiveUpdate(objects: seq<Sampled>, o: Object, x: Sampled, c: Cid)
    requires o < |objects|
    ensures Moved(Live(objects[o := x], c), Live(objects, c), Owed(objects[o], c), Owed(x, c))
  {
    if o > 0 {
      LiveUpdate(objects[1..], o - 1, x, c);
      assert objects[o := x][1..] == objects[1..][o - 1 := x];
    }
  }

  lemma {:induction false} LiveAppend(objects: seq<Sampled>, x: Sampled, c: Cid)
    ensures Moved(Live(objects + [x], c), Live(objects, c), ZERO, Owed(x, c))
  {
    if objects != [] {
      LiveAppend(objects[1..], x, c);
      assert (objects + [x])[1..] == objects[1..] + [x];
    }
  }

  /** Where curobjs is zero, no object is alive and curbytes is zero; where accumobjs
      is, there never was one. */
  lemma {:induction false} LiveNone(objects: seq<Sampled>, c: Cid)
    ensures Live(objects, c).curobjs >= 0 && Live(objects, c).accumobjs >= 0
    ensures Live(objects, c).curobjs == 0 ==> Live(objects, c).curbytes == 0
    ensures Live(objects, c).accumobjs == 0 <==> forall o :: 0 <= o < |objects| ==> objects[o].ctx != c
    ensures Live(objects, c).curobjs == 0 ==> forall o :: 0 <= o < |objects| && objects[o].alive ==> objects[o].ctx != c
  {
    if objects != [] { LiveNone(objects[1..], c); }
  }

  lemma {:induction false} LiveUnknown(objects: seq<Sampled>, c: Cid)
    requires forall o :: 0 <= o < |objects| ==> objects[o].ctx != c
    ensures Live(objects, c) == ZERO
  {
    if objects != [] { LiveUnknown(objects[1..], c); }
  }

  lemma InvGrounded(s: State, t: Tid)
    requires Inv(s) && t < |s.threads|
    ensures Grounded(s, t)
  {
    assert ThreadOk(s, t);
    var th := s.threads[t];
    if th.lookup.Limbo? || th.lookup.Found? { assert CtxOk(s, th.lookup.ctx); }
  }

  lemma InitInv(s: State)
    requires Init(s)
    ensures Inv(s)
  {}

  // ------------------------------------------------------------------- frame

  /** A step of thread t that changes no context but c and leaves bt2ctx alone. */
  ghost predicate Local(s: State, r: State, t: Tid, c: Cid)
  {
    && t < |s.threads| && |r.threads| == |s.threads| && r.threads == s.threads[t := r.threads[t]]
    && r.accum == s.accum && r.table == s.table
    && (s.holder == r.holder || s.holder == None || s.holder == Some(t))
    && c < |s.ctxs| && |r.ctxs| == |s.ctxs| && r.ctxs == s.ctxs[c := r.ctxs[c]]
    && var x, y := s.ctxs[c], r.ctxs[c];
    && x.bt == y.bt && |x.cnts| == |y.cnts|
    && (forall u :: u != t ==> (x.Has(u) <==> y.Has(u)))
    && (x.frees == y.frees || s.threads[t].work == Releasing(c))
  }

  /** Only the object that thread t frees dies and only objects of c are born. */
  ghost predicate Ownership(s: State, r: State, t: Tid, c: Cid)
    requires t < |s.threads|
  {
    && |s.objects| <= |r.objects|
    && (forall o :: 0 <= o < |s.objects| && s.threads[t].freeing != Some(o) ==> r.objects[o] == s.objects[o])
    && (forall o :: 0 <= o < |r.objects| ==>
          if o < |s.objects| then (r.objects[o].alive ==> s.objects[o].alive) && s.objects[o].ctx == r.objects[o].ctx
          else r.objects[o].ctx == c)
  }

  /** What thread t knows and holds of the other contexts does not change. */
  ghost predicate Elsewhere(a: Thread, b: Thread, c: Cid)
  {
    && (forall d :: d != c ==> Held(a, d) == Held(b, d))
    && (forall bt :: bt in a.cache && a.cache[bt] != c ==> bt in b.cache && b.cache[bt] == a.cache[bt])
    && (a.work.Merging? ==> a.work == b.work || a.work.ctx == c)
    && (b.freeing.Some? ==> a.freeing == b.freeing)
    && (b.work.Releasing? ==> a.work == b.work)
  }

  ghost predicate Kept(s: State, r: State, t: Tid, c: Cid)
  {
    && Local(s, r, t, c) && Elsewhere(s.threads[t], r.threads[t], c) && ThreadOk(r, t) && CtxOk(r, c) && Linked(s, c)
    && (r.objects == s.objects ||
        (Ownership(s, r, t, c) && forall d :: d != c ==> Live(r.objects, d) == Live(s.objects, d)))
  }

  /** Such a step keeps what is known of the other threads. */
  lemma OtherThreads(s: State, r: State, t: Tid, c: Cid, u: Tid)
    requires Local(s, r, t, c) && (r.objects == s.objects || Ownership(s, r, t, c))
    requires Exclusive(s.threads) && u != t && u < |s.threads| && ThreadOk(s, u) && ThreadOk(s, t)
    ensures ThreadOk(r, u)
  {}

  lemma OtherContexts(s: State, r: State, t: Tid, c: Cid, d: Cid)
    requires Local(s, r, t, c) && Elsewhere(s.threads[t], r.threads[t], c)
    requires d != c && d < |s.ctxs| && CtxOk(s, d) && Live(r.objects, d) == Live(s.objects, d)
    ensures CtxOk(r, d)
  {
    RefsUpdate(s.threads, t, r.threads[t], d);
  }

  lemma Frame(s: State, r: State, t: Tid, c: Cid)
    requires Inv(s) && Kept(s, r, t, c)
    ensures Inv(r)
  {
    forall u | 0 <= u < |r.threads| ensures ThreadOk(r, u) {
      if u != t { OtherThreads(s, r, t, c, u); }
    }
    forall d | 0 <= d < |r.ctxs| ensures CtxOk(r, d) {
      if d != c { OtherContexts(s, r, t, c, d); }
    }
  }

  /** A step of thread t that touches no context. */
  lemma ThreadFrame(s: State, r: State, t: Tid)
    requires Inv(s) && t < |s.threads| && |r.threads| == |s.threads|
             && r == s.(threads := s.threads[t := r.threads[t]], holder := r.holder)
    requires s.holder == r.holder || s.holder == None || s.holder == Some(t)
    requires forall d :: Held(r.threads[t], d) == Held(s.threads[t], d)
    requires r.threads[t].cache == s.threads[t].cache && ThreadOk(r, t) && Exclusive(r.threads)
    requires s.threads[t].work.Merging? ==> r.threads[t].work == s.threads[t].work
    ensures Inv(r)
  {
    forall u | 0 <= u < |r.threads| ensures ThreadOk(r, u) {
      if u != t { OtherThread(s, r, t, u); }
    }
    forall d | 0 <= d < |r.ctxs| ensures CtxOk(r, d) {
      assert CtxOk(s, d);
      RefsUpdate(s.threads, t, r.threads[t], d);
    }
  }

  lemma OtherThread(s: State, r: State, t: Tid, u: Tid)
    requires t < |s.threads| && |r.threads| == |s.threads|
             && r == s.(threads := s.threads[t := r.threads[t]], holder := r.holder)
    requires s.holder == r.holder || s.holder == None || s.holder == Some(t)
    requires u != t && u < |s.threads| && ThreadOk(s, u)
    ensures ThreadOk(r, u)
  {}

  // ------------------------------------------------------------------- steps

  lemma EnterStep(s: State, t: Tid, bt: Backtrace)
    requires Inv(s) && Grounded(s, t)
    requires s.holder == None && s.threads[t].work == Rest && s.threads[t].lookup == Idle && bt !in s.threads[t].cache
    ensures Inv(AfterEnter(s, t, bt))
  {
    assert ThreadOk(s, t);
    ThreadFrame(s, AfterEnter(s, t, bt), t);
  }

  lemma SearchStep(s: State, t: Tid)
    requires Inv(s) && Grounded(s, t)
    requires s.threads[t].lookup.Entered? && s.threads[t].lookup.bt in s.table
    ensures Inv(AfterSearch(s, t))
  {
    assert ThreadOk(s, t);
    assert CtxOk(s, s.table[s.threads[t].lookup.bt]);
    ThreadFrame(s, AfterSearch(s, t), t);
  }

  lemma CreateFailsStep(s: State, t: Tid)
    requires Inv(s) && Grounded(s, t)
    requires s.threads[t].lookup.Entered?
    ensures Inv(AfterCreateFails(s, t))
  {
    assert ThreadOk(s, t);
    ThreadFrame(s, AfterCreateFails(s, t), t);
  }

  lemma EnterDestroyStep(s: State, t: Tid)
    requires Inv(s) && Grounded(s, t)
    requires s.holder == None && s.threads[t].work.Waiting?
    ensures Inv(AfterEnterDestroy(s, t))
  {
    assert ThreadOk(s, t);
    ThreadFrame(s, AfterEnterDestroy(s, t), t);
  }

  lemma StartFreeStep(s: State, t: Tid, o: Object)
    requires Inv(s) && Grounded(s, t)
    requires s.threads[t].work == Rest && s.threads[t].lookup == Idle && s.threads[t].freeing == None
             && o < |s.objects| && s.objects[o].alive
    requires forall u :: 0 <= u < |s.threads| ==> s.threads[u].freeing != Some(o)
    ensures Inv(AfterStartFree(s, t, o))
  {
    assert ThreadOk(s, t);
    ThreadFrame(s, AfterStartFree(s, t, o), t);
  }

  lemma NoLookupStep(s: State, t: Tid)
    requires Inv(s) && Grounded(s, t)
    requires s.threads[t].work == Rest && s.threads[t].lookup == Idle
    ensures Inv(AfterNoLookup(s, t))
  {
    assert ThreadOk(s, t);
    ThreadFrame(s, AfterNoLookup(s, t), t);
  }

  lemma IncrementKept(s: State, t: Tid, c: Cid)
    requires Grounded(s, t) && ThreadOk(s, t)
    requires s.threads[t].lookup.Found?
    requires c == s.threads[t].lookup.ctx && CtxOk(s, c)
    ensures Kept(s, AfterIncrement(s, t), t, c)
  {
    var r := AfterIncrement(s, t);
    RefsUpdate(s.threads, t, r.threads[t], c);
  }

  lemma LinkKept(s: State, t: Tid, c: Cid)
    requires Grounded(s, t) && ThreadOk(s, t)
    requires s.threads[t].work == Rest && s.threads[t].lookup.Limbo?
    requires c == s.threads[t].lookup.ctx && CtxOk(s, c)
    ensures Kept(s, AfterLink(s, t), t, c)
  {
    var r := AfterLink(s, t);
    RefsUpdate(s.threads, t, r.threads[t], c);
    SumUpdate(s.ctxs[c].cnts, t, Some(ZERO));
  }

  lemma CreatorFailsKept(s: State, t: Tid, c: Cid)
    requires Grounded(s, t) && ThreadOk(s, t)
    requires s.threads[t].work == Rest && s.threads[t].lookup.Limbo? && s.threads[t].lookup.isNew
    requires c == s.threads[t].lookup.ctx && CtxOk(s, c)
    ensures Kept(s, AfterLinkFails(s, t), t, c)
  {
    var r := AfterLinkFails(s, t);
    RefsUpdate(s.threads, t, r.threads[t], c);
  }

  lemma VisitorFailsKept(s: State, t: Tid, c: Cid)
    requires Grounded(s, t) && ThreadOk(s, t)
    requires s.threads[t].work == Rest && s.threads[t].lookup.Limbo? && !s.threads[t].lookup.isNew
    requires c == s.threads[t].lookup.ctx && CtxOk(s, c)
    ensures Kept(s, AfterLinkFails(s, t), t, c)
  {
    var r := AfterLinkFails(s, t);
    RefsUpdate(s.threads, t, r.threads[t], c);
  }

  lemma EvictKept(s: State, t: Tid, bt: Backtrace, c: Cid)
    requires Grounded(s, t) && ThreadOk(s, t)
    requires s.threads[t].work == Rest && bt in s.threads[t].cache && !s.threads[t].lookup.Entered?
             && !s.threads[t].lookup.Found?
    requires c == s.threads[t].cache[bt] && CtxOk(s, c)
    ensures Kept(s, AfterEvict(s, t, bt), t, c)
  {
    var r := AfterEvict(s, t, bt);
    RefsUpdate(s.threads, t, r.threads[t], c);
  }

  lemma MergeKept(s: State, t: Tid, c: Cid)
    requires Grounded(s, t) && ThreadOk(s, t)
    requires s.threads[t].work.Merging?
    requires c == s.threads[t].work.ctx && CtxOk(s, c)
    ensures Kept(s, AfterMerge(s, t), t, c)
  {
    MergeCtx(s, t, c);
  }

  lemma MergeCtx(s: State, t: Tid, c: Cid)
    requires Grounded(s, t) && ThreadOk(s, t) && s.threads[t].work.Merging? && c == s.threads[t].work.ctx && CtxOk(s, c)
    ensures CtxOk(AfterMerge(s, t), c)
  {
    RefsUpdate(s.threads, t, AfterMerge(s, t).threads[t], c);
    SumUpdate(s.ctxs[c].cnts, t, None);
  }

  lemma DestroyKept(s: State, t: Tid, c: Cid)
    requires Grounded(s, t) && ThreadOk(s, t)
    requires s.threads[t].work.Checking? && !Destroyable(s.ctxs[s.threads[t].work.ctx])
    requires c == s.threads[t].work.ctx && CtxOk(s, c)
    ensures Kept(s, AfterDestroy(s, t), t, c)
  {
    var r := AfterDestroy(s, t);
    RefsUpdate(s.threads, t, r.threads[t], c);
  }

  lemma SampleKept(s: State, t: Tid, bt: Backtrace, size: nat, c: Cid)
    requires Grounded(s, t) && ThreadOk(s, t)
    requires s.threads[t].work == Rest && s.threads[t].lookup == Idle && s.threads[t].freeing == None
             && bt in s.threads[t].cache
    requires c == s.threads[t].cache[bt] && CtxOk(s, c)
    ensures Kept(s, AfterSample(s, t, bt, size), t, c)
  {
    var r := AfterSample(s, t, bt, size);
    RefsUpdate(s.threads, t, r.threads[t], c);
    SumUpdate(s.ctxs[c].cnts, t, r.ctxs[c].cnts[t]);
    forall d ensures Moved(Live(r.objects, d), Live(s.objects, d), ZERO, if d == c then Cnt(1, size, 1) else ZERO) {
      LiveAppend(s.objects, Sampled(c, size, true), d);
    }
  }

  lemma FreedLive(s: State, t: Tid)
    requires Grounded(s, t) && s.threads[t].freeing.Some? && ThreadOk(s, t)
    ensures var x := s.objects[s.threads[t].freeing.value];
            forall d :: Moved(Live(Freed(s, t).objects, d), Live(s.objects, d), if d == x.ctx then Cnt(1, x.size, 0)
                              else ZERO, ZERO)
  {
    var o := s.threads[t].freeing.value;
    forall d
      ensures Moved(Live(Freed(s, t).objects, d), Live(s.objects, d), Owed(s.objects[o], d),
                    Owed(s.objects[o].(alive := false), d)) {
      LiveUpdate(s.objects, o, s.objects[o].(alive := false), d);
    }
  }

  lemma UnchargeKept(s: State, t: Tid, c: Cid)
    requires Grounded(s, t) && ThreadOk(s, t) && TableOk(s)
    requires s.threads[t].work == Rest && s.threads[t].lookup == Idle && s.threads[t].freeing.Some?
             && s.ctxs[FreedCtx(s, t)].bt in s.threads[t].cache
    requires c == FreedCtx(s, t) && CtxOk(s, c)
    ensures Kept(s, AfterUncharge(s, t), t, c)
  {
    var r := AfterUncharge(s, t);
    RefsUpdate(s.threads, t, r.threads[t], c);
    SumUpdate(s.ctxs[c].cnts, t, r.ctxs[c].cnts[t]);
    FreedLive(s, t);
  }

  lemma UnchargeMergedKept(s: State, t: Tid, c: Cid)
    requires Grounded(s, t) && ThreadOk(s, t) && TableOk(s)
    requires s.threads[t].work == Rest && s.threads[t].lookup == Failed && s.threads[t].freeing.Some?
    requires c == FreedCtx(s, t) && CtxOk(s, c)
    ensures Kept(s, AfterUnchargeMerged(s, t), t, c)
  {
    UnchargeMergedCtx(s, t, c);
    FreedLive(s, t);
  }

  lemma UnchargeMergedCtx(s: State, t: Tid, c: Cid)
    requires Grounded(s, t) && ThreadOk(s, t) && s.threads[t].work == Rest && s.threads[t].lookup == Failed
             && s.threads[t].freeing.Some?
    requires c == FreedCtx(s, t) && CtxOk(s, c)
    ensures CtxOk(AfterUnchargeMerged(s, t), c)
  {
    RefsUpdate(s.threads, t, AfterUnchargeMerged(s, t).threads[t], c);
    FreedLive(s, t);
  }

  lemma CreateThread(s: State, t: Tid, u: Tid)
    requires Grounded(s, t) && s.threads[t].lookup.Entered? && s.threads[t].lookup.bt !in s.table && ThreadOk(s, t)
    requires u < |s.threads| && ThreadOk(s, u)
    ensures ThreadOk(AfterCreate(s, t), u) && Held(s.threads[u], |s.ctxs|) == 0
  {}

  lemma CreateCtx(s: State, t: Tid, d: Cid)
    requires Grounded(s, t) && s.threads[t].lookup.Entered? && s.threads[t].lookup.bt !in s.table && ThreadOk(s, t)
    requires if d < |s.ctxs| then CtxOk(s, d)
             else d == |s.ctxs| && Refs(s.threads, d) == 0 && Live(s.objects, d) == ZERO
    ensures CtxOk(AfterCreate(s, t), d)
  {
    RefsUpdate(s.threads, t, AfterCreate(s, t).threads[t], d);
    SumNone(NewCtx(s.threads[t].lookup.bt, |s.threads|).cnts);
  }

  lemma CreateStep(s: State, t: Tid)
    requires Inv(s) && Grounded(s, t) && s.threads[t].lookup.Entered? && s.threads[t].lookup.bt !in s.table
    ensures Inv(AfterCreate(s, t))
  {
    forall u | 0 <= u < |s.threads| ensures ThreadOk(AfterCreate(s, t), u) && Held(s.threads[u], |s.ctxs|) == 0 {
      CreateThread(s, t, u);
    }
    RefsNone(s.threads, |s.ctxs|);
    LiveUnknown(s.objects, |s.ctxs|);
    forall d | 0 <= d <= |s.ctxs| ensures CtxOk(AfterCreate(s, t), d) {
      CreateCtx(s, t, d);
    }
  }

  ghost predicate NeverSampled(s: State, c: Cid)
  {
    forall o :: 0 <= o < |s.objects| ==> s.objects[o].ctx != c
  }

  /** A context that passes the test has no objects: the assertions of
      prof.c:694-695, the second one unless opt_prof_accum is set and an object was
      ever sampled into it. */
  lemma DestroyAsserts(s: State, t: Tid, c: Cid)
    requires t < |s.threads| && s.threads[t].work == Checking(c) && Linked(s, c) && CtxOk(s, c)
             && Destroyable(s.ctxs[c])
    ensures forall o :: 0 <= o < |s.objects| && s.objects[o].alive ==> s.objects[o].ctx != c
    ensures s.ctxs[c].merged.curbytes == 0 && (s.ctxs[c].merged.accumobjs == 0 <==> !s.accum || NeverSampled(s, c))
    ensures s.ctxs[c].leaked == 0 && (s.threads[t].lookup.Limbo? ==> s.threads[t].lookup.ctx != c)
  {
    SumNone(s.ctxs[c].cnts);
    LiveNone(s.objects, c);
    RefsBound(s.threads, t, c);
  }

  lemma Unreferenced(s: State, t: Tid, c: Cid, u: Tid)
    requires t < |s.threads| && s.threads[t].work == Checking(c) && ThreadOk(s, t) && CtxOk(s, c)
             && Destroyable(s.ctxs[c])
    requires forall o :: 0 <= o < |s.objects| && s.objects[o].alive ==> s.objects[o].ctx != c
    requires u < |s.threads| && u != t && ThreadOk(s, u)
    ensures c !in Pointers(s, u)
  {
    RefsOthers(s.threads, t, u, c);
  }

  lemma DestroyThread(s: State, t: Tid, c: Cid, u: Tid)
    requires Grounded(s, t) && s.threads[t].work == Checking(c) && ThreadOk(s, t) && CtxOk(s, c)
             && Destroyable(s.ctxs[c])
    requires u < |s.threads| && ThreadOk(s, u) && (u == t || c !in Pointers(s, u))
    requires s.threads[t].lookup.Limbo? ==> s.threads[t].lookup.ctx != c
    ensures ThreadOk(AfterDestroy(s, t), u)
  {}

  lemma DestroyCtx(s: State, t: Tid, c: Cid, d: Cid)
    requires Grounded(s, t) && s.threads[t].work == Checking(c) && ThreadOk(s, t) && Destroyable(s.ctxs[c])
    requires d < |s.ctxs| && CtxOk(s, d) && s.ctxs[c].frees == 0
    ensures CtxOk(AfterDestroy(s, t), d)
  {
    RefsUpdate(s.threads, t, AfterDestroy(s, t).threads[t], d);
  }

  lemma DestroyExclusive(s: State, t: Tid, c: Cid)
    requires Grounded(s, t) && s.threads[t].work == Checking(c) && Destroyable(s.ctxs[c]) && Exclusive(s.threads)
    requires forall u :: 0 <= u < |s.threads| && u != t ==> c !in Pointers(s, u)
    ensures Exclusive(AfterDestroy(s, t).threads)
  {
    forall u | 0 <= u < |s.threads| && u != t ensures s.threads[u].work != Releasing(c) {
      assert c !in Pointers(s, u);
    }
  }

  lemma DestroyStep(s: State, t: Tid, c: Cid)
    requires Inv(s) && Grounded(s, t) && s.threads[t].work == Checking(c) && Destroyable(s.ctxs[c])
    ensures Inv(AfterDestroy(s, t))
  {
    assert ThreadOk(s, t) && CtxOk(s, c);
    DestroyAsserts(s, t, c);
    forall d | 0 <= d < |s.ctxs| ensures CtxOk(AfterDestroy(s, t), d) {
      DestroyCtx(s, t, c, d);
    }
    forall u | 0 <= u < |s.threads| && u != t ensures c !in Pointers(s, u) {
      Unreferenced(s, t, c, u);
    }
    forall u | 0 <= u < |s.threads| ensures ThreadOk(AfterDestroy(s, t), u) {
      DestroyThread(s, t, c, u);
    }
    DestroyExclusive(s, t, c);
  }

  lemma ReleaseLocal(s: State, t: Tid, c: Cid)
    requires Grounded(s, t) && s.threads[t].work == Releasing(c) && ThreadOk(s, t) && CtxOk(s, c)
    ensures Local(s, AfterRelease(s, t), t, c) && Elsewhere(s.threads[t], AfterRelease(s, t).threads[t], c)
    ensures ThreadOk(AfterRelease(s, t), t) && CtxOk(AfterRelease(s, t), c)
  {}

  lemma ReleaseStep(s: State, t: Tid)
    requires Inv(s) && Grounded(s, t) && s.threads[t].work.Releasing?
    ensures Inv(AfterRelease(s, t))
  {
    var r, c := AfterRelease(s, t), s.threads[t].work.ctx;
    assert ThreadOk(s, t) && CtxOk(s, c);
    ReleaseLocal(s, t, c);
    forall u | 0 <= u < |r.threads| ensures ThreadOk(r, u) {
      if u != t { OtherThreads(s, r, t, c, u); }
    }
    forall d | 0 <= d < |r.ctxs| ensures CtxOk(r, d) {
      if d != c { OtherContexts(s, r, t, c, d); }
    }
  }

  // ------------------------------------------------------- failed insertions

  lemma LosesCtx(s: State, t: Tid, d: Cid)
    requires Grounded(s, t) && s.threads[t].lookup.Entered? && s.threads[t].lookup.bt !in s.table && ThreadOk(s, t)
    requires d <= |s.ctxs| && (d < |s.ctxs| ==> CtxOk(s, d))
    ensures CtxOk(AfterCreateLoses(s, t, s.threads[t].lookup.bt), d)
  {
    var bt := s.threads[t].lookup.bt;
    assert s.table[bt := |s.ctxs|] - {bt} == s.table;
    RefsUpdate(s.threads, t, AfterCreateLoses(s, t, bt).threads[t], d);
  }

  /** A failed insertion that loses the new context is harmless. */
  lemma CreateLosesStep(s: State, t: Tid)
    requires Inv(s) && Grounded(s, t) && s.threads[t].lookup.Entered? && s.threads[t].lookup.bt !in s.table
    ensures Inv(AfterCreateLoses(s, t, s.threads[t].lookup.bt))
  {
    var bt := s.threads[t].lookup.bt;
    var r := AfterCreateLoses(s, t, bt);
    assert s.table[bt := |s.ctxs|] - {bt} == s.table;
    forall d | 0 <= d < |r.ctxs| ensures CtxOk(r, d) {
      if d < |s.ctxs| { assert CtxOk(s, d); }
      assert ThreadOk(s, t);
      LosesCtx(s, t, d);
    }
    forall u | 0 <= u < |r.threads| ensures ThreadOk(r, u) {
      assert ThreadOk(s, u) && ThreadOk(s, t);
    }
  }

  /** A failed insertion that loses the new counter is as if it had not been tried. */
  lemma LinkLosesNothing(s: State, t: Tid)
    requires Inv(s) && Grounded(s, t) && s.threads[t].lookup.Limbo?
    ensures AfterLinkLoses(s, t, s.ctxs[s.threads[t].lookup.ctx].bt) == AfterLinkFails(s, t)
  {
    var th := s.threads[t];
    var bt := s.ctxs[th.lookup.ctx].bt;
    assert ThreadOk(s, t);
    assert bt !in th.cache;
    assert th.cache[bt := th.lookup.ctx] - {bt} == th.cache;
    var r := AfterLinkFails(s, t);
    assert r.threads[t := r.threads[t]] == r.threads;
  }

  /** Every failed insertion loses what it was given. */
  ghost predicate Clean(s: State, t: Tid, e: Event)
    requires Enabled(s, t, e)
  {
    match e
    case CreateLoses(lost) => lost == s.threads[t].lookup.bt
    case LinkLoses(lost) => lost == s.ctxs[s.threads[t].lookup.ctx].bt
    case _ => true
  }

  /** bt2ctx leads to contexts that have not been released, and the threads' caches to
      counters that are in the lists of such contexts. */
  ghost predicate Sound(s: State)
  {
    && (forall bt :: bt in s.table ==> s.table[bt] < |s.ctxs| && s.ctxs[s.table[bt]].frees == 0)
    && (forall t, bt :: 0 <= t < |s.threads| && bt in s.threads[t].cache ==>
          s.threads[t].cache[bt] < |s.ctxs| && s.ctxs[s.threads[t].cache[bt]].Has(t)
            && s.ctxs[s.threads[t].cache[bt]].frees == 0)
  }

  lemma InvSound(s: State)
    requires Inv(s)
    ensures Sound(s)
  {
    forall bt | bt in s.table ensures s.table[bt] < |s.ctxs| && s.ctxs[s.table[bt]].frees == 0 {
      assert CtxOk(s, s.table[bt]);
    }
    forall t, bt | 0 <= t < |s.threads| && bt in s.threads[t].cache
      ensures s.threads[t].cache[bt] < |s.ctxs| && s.ctxs[s.threads[t].cache[bt]].Has(t)
              && s.ctxs[s.threads[t].cache[bt]].frees == 0
    {
      assert ThreadOk(s, t) && CtxOk(s, s.threads[t].cache[bt]);
    }
  }

  /** A failed insertion that loses another entry leaves the new one behind: a
      released context in bt2ctx, or a freed counter in the thread's cache. */
  lemma Unsound(s: State, t: Tid, e: Event)
    requires Inv(s) && Grounded(s, t) && Enabled(s, t, e) && !Clean(s, t, e)
    ensures !Sound(Do(s, t, e))
  {
    var r, th := Do(s, t, e), s.threads[t];
    assert ThreadOk(s, t);
    if e.CreateLoses? {
      assert r.table[th.lookup.bt] == |s.ctxs| && r.ctxs[|s.ctxs|].frees == 1;
    } else {
      var c := th.lookup.ctx;
      assert r.threads[t].cache[s.ctxs[c].bt] == c && !r.ctxs[c].Has(t);
    }
  }

  // -------------------------------------------------------------------- runs

  /** Every step of every thread keeps the invariant and finds what it points to. */
  lemma StepInv(s: State, t: Tid, e: Event)
    requires Inv(s) && Enabled(s, t, e) && Clean(s, t, e)
    ensures Grounded(s, t) && Inv(Do(s, t, e))
  {
    InvGrounded(s, t);
    assert ThreadOk(s, t);
    var r := Do(s, t, e);
    match e
    case Enter(bt) => EnterStep(s, t, bt);
    case Search => SearchStep(s, t);
    case Create => CreateStep(s, t);
    case CreateFails => CreateFailsStep(s, t);
    case CreateLoses(_) => CreateLosesStep(s, t);
    case Increment => IncrementKept(s, t, s.threads[t].lookup.ctx); Frame(s, r, t, s.threads[t].lookup.ctx);
    case Link => LinkKept(s, t, s.threads[t].lookup.ctx); Frame(s, r, t, s.threads[t].lookup.ctx);
    case LinkFails => LinkFailsStep(s, t);
    case LinkLoses(_) => LinkLosesNothing(s, t); LinkFailsStep(s, t);
    case Evict(bt) => EvictKept(s, t, bt, s.threads[t].cache[bt]); Frame(s, r, t, s.threads[t].cache[bt]);
    case Merge => MergeKept(s, t, s.threads[t].work.ctx); Frame(s, r, t, s.threads[t].work.ctx);
    case EnterDestroy => EnterDestroyStep(s, t);
    case Destroy =>
      var c := s.threads[t].work.ctx;
      if Destroyable(s.ctxs[c]) { DestroyStep(s, t, c); } else { DestroyKept(s, t, c); Frame(s, r, t, c); }
    case Release => ReleaseStep(s, t);
    case Sample(bt, size) => SampleKept(s, t, bt, size, s.threads[t].cache[bt]); Frame(s, r, t, s.threads[t].cache[bt]);
    case StartFree(o) => StartFreeStep(s, t, o);
    case NoLookup => NoLookupStep(s, t);
    case Uncharge => UnchargeKept(s, t, FreedCtx(s, t)); Frame(s, r, t, FreedCtx(s, t));
    case UnchargeMerged => UnchargeMergedKept(s, t, FreedCtx(s, t)); Frame(s, r, t, FreedCtx(s, t));
  }

  lemma LinkFailsStep(s: State, t: Tid)
    requires Inv(s) && Grounded(s, t) && s.threads[t].work == Rest && s.threads[t].lookup.Limbo?
    ensures Inv(AfterLinkFails(s, t))
  {
    var c := s.threads[t].lookup.ctx;
    assert ThreadOk(s, t);
    if s.threads[t].lookup.isNew { CreatorFailsKept(s, t, c); } else { VisitorFailsKept(s, t, c); }
    Frame(s, AfterLinkFails(s, t), t, c);
  }

  datatype Run = Start | Then(before: Run, thread: Tid, event: Event)

  /** The state a run ends in, if all its steps are enabled. */
  ghost function Exec(s: State, run: Run): Option<State>
  {
    match run
    case Start => Some(s)
    case Then(before, t, e) =>
      var m := Exec(s, before);
      if m.Some? && Enabled(m.value, t, e) && Grounded(m.value, t) then Some(Do(m.value, t, e)) else None
  }

  /** No insertion of the run that fails loses anything but what it was given. */
  ghost predicate CleanRun(s: State, run: Run)
    requires Exec(s, run).Some?
  {
    run.Then? ==> CleanRun(s, run.before) && Clean(Exec(s, run.before).value, run.thread, run.event)
  }

  lemma {:induction false} RunInv(s: State, run: Run)
    requires Init(s) && Exec(s, run).Some? && CleanRun(s, run)
    ensures Inv(Exec(s, run).value)
  {
    if run.Then? {
      RunInv(s, run.before);
      StepInv(Exec(s, run.before).value, run.thread, run.event);
    } else {
      InitInv(s);
    }
  }

  /** bt2ctx and the caches have led to live memory at every moment of the run. */
  ghost predicate SoundRun(s: State, run: Run)
    requires Exec(s, run).Some?
  {
    Sound(Exec(s, run).value) && (run.Then? ==> SoundRun(s, run.before))
  }

  /** They do so in exactly the clean runs. */
  lemma {:induction false} SoundExactly(s: State, run: Run)
    requires Init(s) && Exec(s, run).Some?
    ensures SoundRun(s, run) <==> CleanRun(s, run)
  {
    if run.Then? { SoundExactly(s, run.before); }
    if CleanRun(s, run) {
      RunInv(s, run);
      InvSound(Exec(s, run).value);
    } else if CleanRun(s, run.before) {
      RunInv(s, run.before);
      Unsound(Exec(s, run.before).value, run.thread, run.event);
    }
  }

  /** What a thread points to is in bt2ctx, unless the thread is the one that took it
      out, and then no other thread points to it. */
  lemma NoDangling(s: State, t: Tid, c: Cid)
    requires Inv(s) && t < |s.threads| && c in Pointers(s, t)
    ensures Linked(s, c) || s.threads[t].work == Releasing(c)
    ensures !Linked(s, c) ==> forall u :: 0 <= u < |s.threads| && u != t ==> c !in Pointers(s, u)
  {
    assert ThreadOk(s, t);
    forall u | 0 <= u < |s.threads| && u != t && !Linked(s, c) ensures c !in Pointers(s, u) {
      assert ThreadOk(s, u);
    }
  }

  lemma {:induction false} LimboThreads(threads: seq<Thread>, c: Cid)
    ensures |set t | 0 <= t < |threads| && Held(threads[t], c) > 0| <= Refs(threads, c)
  {
    if threads != [] {
      var n := |threads| - 1;
      var a := set t | 0 <= t < n && Held(threads[..n][t], c) > 0;
      var b := set t | 0 <= t < |threads| && Held(threads[t], c) > 0;
      LimboThreads(threads[..n], c);
      RefsLast(threads, c);
      assert forall t :: 0 <= t < n ==> threads[..n][t] == threads[t];
      assert n !in a;
      assert b == if Held(threads[n], c) > 0 then a + {n} else a;
    }
  }

  lemma {:induction false} RefsLast(threads: seq<Thread>, c: Cid)
    requires threads != []
    ensures Refs(threads, c) == Refs(threads[..|threads| - 1], c) + Held(threads[|threads| - 1], c)
  {
    var n := |threads| - 1;
    if n > 0 {
      RefsLast(threads[1..], c);
      assert threads[1..][..n - 1] == threads[..n][1..];
    }
  }

  /** Whatever the interleaving of a clean run: no thread points to a context that another has
      taken out of bt2ctx, no context is released twice, and nlimbo is at least the
      number of threads in limbo; it is more exactly when an increment was leaked
      or a thread holds two. */
  lemma Safety(s0: State, run: Run, t: Tid, c: Cid)
    requires Init(s0) && Exec(s0, run).Some? && CleanRun(s0, run)
    ensures var s := Exec(s0, run).value;
            && (t < |s.threads| && c in Pointers(s, t) ==>
                  c < |s.ctxs| && s.ctxs[c].frees == 0 && (Linked(s, c) || s.threads[t].work == Releasing(c)))
            && (c < |s.ctxs| ==> s.ctxs[c].frees <= 1)
            && (Linked(s, c) ==>
                  && s.ctxs[c].nlimbo == Refs(s.threads, c) + s.ctxs[c].leaked
                  && s.ctxs[c].nlimbo >= |set u | 0 <= u < |s.threads| && Held(s.threads[u], c) > 0|)
  {
    RunInv(s0, run);
    var s := Exec(s0, run).value;
    LimboThreads(s.threads, c);
    if t < |s.threads| && c in Pointers(s, t) { NoDangling(s, t, c); assert ThreadOk(s, t); }
    if c < |s.ctxs| { assert CtxOk(s, c); }
  }

  /** The assertions of prof_ctx_destroy, prof.c:694-699, in every clean run: the one on
      accumobjs holds exactly without opt_prof_accum or for a context that no object
      was ever sampled into. */
  lemma DestroyAssertsHold(s0: State, run: Run, t: Tid, c: Cid)
    requires Init(s0) && Exec(s0, run).Some? && CleanRun(s0, run)
    requires var s := Exec(s0, run).value;
             t < |s.threads| && s.threads[t].work == Checking(c) && c < |s.ctxs| && Destroyable(s.ctxs[c])
    ensures var s := Exec(s0, run).value;
            && Linked(s, c) && s.ctxs[c].merged.curbytes == 0
            && (s.ctxs[c].merged.accumobjs == 0 <==> !s.accum || NeverSampled(s, c))
            && forall o :: 0 <= o < |s.objects| && s.objects[o].alive ==> s.objects[o].ctx != c
  {
    RunInv(s0, run);
    var s := Exec(s0, run).value;
    assert ThreadOk(s, t) && CtxOk(s, c);
    DestroyAsserts(s, t, c);
  }

  /** Thread t, which did not create context c, gives up on it without undoing its
      increment of nlimbo: prof.c:522-540. */
  ghost predicate Leaks(s: State, t: Tid, e: Event, c: Cid)
  {
    t < |s.threads| && s.threads[t].lookup == Limbo(c, false) && (e.LinkFails? || e.LinkLoses?)
  }

  /** How often that has happened in the run. */
  ghost function LeaksOf(s: State, run: Run, c: Cid): nat
    requires Exec(s, run).Some?
  {
    if run.Start? then 0
    else LeaksOf(s, run.before, c) + if Leaks(Exec(s, run.before).value, run.thread, run.event, c) then 1 else 0
  }

  lemma LeakStep(s: State, t: Tid, e: Event, c: Cid)
    requires Grounded(s, t) && Enabled(s, t, e)
    ensures c < |s.ctxs| ==>
              && c < |Do(s, t, e).ctxs|
              && Do(s, t, e).ctxs[c].leaked == s.ctxs[c].leaked + if Leaks(s, t, e, c) then 1 else 0
    ensures |s.ctxs| <= c ==> !Leaks(s, t, e, c) && (c < |Do(s, t, e).ctxs| ==> Do(s, t, e).ctxs[c].leaked == 0)
  {}

  lemma {:induction false} LeakedCounts(s: State, run: Run, c: Cid)
    requires Init(s) && Exec(s, run).Some?
    ensures var r := Exec(s, run).value;
            LeaksOf(s, run, c) == if c < |r.ctxs| then r.ctxs[c].leaked else 0
  {
    if run.Then? {
      LeakedCounts(s, run.before, c);
      LeakStep(Exec(s, run.before).value, run.thread, run.event, c);
    }
  }

  /** In a clean run nlimbo of a context in bt2ctx is the number of increments that threads
      are going to undo and of the lookups that gave up on it without having created it:
      it is more than the former exactly when there was such a lookup. */
  lemma LimboCounts(s0: State, run: Run, c: Cid)
    requires Init(s0) && Exec(s0, run).Some? && CleanRun(s0, run) && Linked(Exec(s0, run).value, c)
    ensures var s := Exec(s0, run).value;
            && s.ctxs[c].nlimbo == Refs(s.threads, c) + LeaksOf(s0, run, c)
            && (s.ctxs[c].nlimbo > Refs(s.threads, c) <==> Gave(s0, run, c))
  {
    RunInv(s0, run);
    assert CtxOk(Exec(s0, run).value, c);
    LeakedCounts(s0, run, c);
    GaveUp(s0, run, c);
  }

  /** At some moment of the run a lookup gave up on the context. */
  ghost predicate Gave(s: State, run: Run, c: Cid)
    requires Exec(s, run).Some?
  {
    run.Then? && (Leaks(Exec(s, run.before).value, run.thread, run.event, c) || Gave(s, run.before, c))
  }

  lemma {:induction false} GaveUp(s: State, run: Run, c: Cid)
    requires Exec(s, run).Some?
    ensures LeaksOf(s, run, c) > 0 <==> Gave(s, run, c)
  {
    if run.Then? { GaveUp(s, run.before, c); }
  }

  lemma LeakedSurvives(s: State, t: Tid, c: Cid)
    requires Inv(s) && Grounded(s, t) && s.threads[t].work.Checking? && Linked(s, c) && s.ctxs[c].leaked > 0
    ensures Linked(AfterDestroy(s, t), c) && AfterDestroy(s, t).ctxs[c].leaked > 0
  {
    assert ThreadOk(s, t);
    var d := s.threads[t].work.ctx;
    if Destroyable(s.ctxs[d]) {
      assert CtxOk(s, d);
      DestroyAsserts(s, t, d);
    }
  }

  /** A lookup that runs out of memory on a context it did not create leaks its
      increment, and a context with a leaked increment is never destroyed. */
  lemma LeakedForever(s: State, t: Tid, e: Event, c: Cid)
    requires Inv(s) && Enabled(s, t, e) && Clean(s, t, e) && Linked(s, c) && s.ctxs[c].leaked > 0
    ensures Grounded(s, t) && Linked(Do(s, t, e), c) && Do(s, t, e).ctxs[c].leaked > 0
  {
    InvGrounded(s, t);
    if e == Destroy { LeakedSurvives(s, t, c); }
    else if InLookup(e) { LookupEvents(s, t, e, c); }
    else { OtherEvents(s, t, e, c); }
  }

  predicate InLookup(e: Event)
  {
    e.Enter? || e.Search? || e.Create? || e.CreateFails? || e.CreateLoses? || e.Increment? || e.Link? || e.LinkFails?
      || e.LinkLoses?
  }

  lemma LookupEvents(s: State, t: Tid, e: Event, c: Cid)
    requires Grounded(s, t) && Enabled(s, t, e) && Clean(s, t, e) && InLookup(e) && Linked(s, c) && s.ctxs[c].leaked > 0
    ensures Linked(Do(s, t, e), c) && Do(s, t, e).ctxs[c].leaked > 0
  {}

  lemma OtherEvents(s: State, t: Tid, e: Event, c: Cid)
    requires Grounded(s, t) && Enabled(s, t, e) && e != Destroy && !InLookup(e) && Linked(s, c) && s.ctxs[c].leaked > 0
    ensures Linked(Do(s, t, e), c) && Do(s, t, e).ctxs[c].leaked > 0
  {}

  // ------------------------------------------------------ a failing assertion

  const BT: Backtrace := [1]

  /** A state of two threads and one context. */
  function Scenery(holder: Option<Tid>, nlimbo: int, merged: Cnt, cnt: Option<Cnt>, objects: seq<Sampled>, a: Thread,
                   b: Thread): State
  {
    State(true, map[BT := 0], holder, [Ctx(BT, nlimbo, merged, [None, cnt], 0, 0)], objects, [a, b])
  }

  /** Thread 0 creates the context and stays in limbo; thread 1 joins it, samples an
      object, frees it and merges its counter; then thread 0 runs out of memory. */
  function Scene(k: nat, z: nat): State
  {
    var creator := NEW_THREAD.(lookup := Limbo(0, true));
    var cached := NEW_THREAD.(cache := map[BT := 0]);
    var gone := [Sampled(0, z, false)];
    match k
    case 0 => State(true, map[], None, [], [], [NEW_THREAD, NEW_THREAD])
    case 1 => State(true, map[], Some(0), [], [], [NEW_THREAD.(lookup := Entered(BT)), NEW_THREAD])
    case 2 => Scenery(None, 1, ZERO, None, [], creator, NEW_THREAD)
    case 3 => Scenery(Some(1), 1, ZERO, None, [], creator, NEW_THREAD.(lookup := Entered(BT)))
    case 4 => Scenery(Some(1), 1, ZERO, None, [], creator, NEW_THREAD.(lookup := Found(0)))
    case 5 => Scenery(None, 2, ZERO, None, [], creator, NEW_THREAD.(lookup := Limbo(0, false)))
    case 6 => Scenery(None, 1, ZERO, Some(ZERO), [], creator, cached)
    case 7 => Scenery(None, 1, ZERO, Some(Cnt(1, z, 1)), [Sampled(0, z, true)], creator, cached)
    case 8 => Scenery(None, 1, ZERO, Some(Cnt(1, z, 1)), [Sampled(0, z, true)], creator, cached.(freeing := Some(0)))
    case 9 => Scenery(None, 1, ZERO, Some(Cnt(0, 0, 1)), gone, creator, cached)
    case 10 => Scenery(None, 1, ZERO, Some(Cnt(0, 0, 1)), gone, creator, NEW_THREAD.(work := Merging(0)))
    case 11 => Scenery(None, 1, Cnt(0, 0, 1), None, gone, creator, NEW_THREAD)
    case 12 => Scenery(None, 1, Cnt(0, 0, 1), None, gone, NEW_THREAD.(work := Waiting(0)), NEW_THREAD)
    case _ => Scenery(Some(0), 1, Cnt(0, 0, 1), None, gone, NEW_THREAD.(work := Checking(0)), NEW_THREAD)
  }

  function Cue(k: nat, z: nat): (Tid, Event)
  {
    match k
    case 0 => (0, Enter(BT))
    case 1 => (0, Create)
    case 2 => (1, Enter(BT))
    case 3 => (1, Search)
    case 4 => (1, Increment)
    case 5 => (1, Link)
    case 6 => (1, Sample(BT, z))
    case 7 => (1, StartFree(0))
    case 8 => (1, Uncharge)
    case 9 => (1, Evict(BT))
    case 10 => (1, Merge)
    case 11 => (0, LinkFails)
    case _ => (0, EnterDestroy)
  }

  ghost predicate Hop(k: nat, z: nat)
  {
    var s, t, e := Scene(k, z), Cue(k, z).0, Cue(k, z).1;
    Enabled(s, t, e) && Grounded(s, t) && Do(s, t, e) == Scene(k + 1, z)
  }

  lemma Entering(z: nat)
    ensures Hop(0, z) && Hop(2, z)
  {}

  lemma Creating(z: nat)
    ensures Hop(1, z)
  {
    assert NewCtx(BT, 2).cnts == [None, None];
  }

  lemma Finding(z: nat)
    ensures Hop(3, z) && Hop(4, z)
  {}

  lemma Linking(z: nat)
    ensures Hop(5, z)
  {
    SameScene(AfterLink(Scene(5, z), 1), Scene(6, z));
  }

  lemma Joining(k: nat, z: nat)
    requires k < 6
    ensures Hop(k, z)
  {
    Entering(z);
    Creating(z);
    Finding(z);
    Linking(z);
  }

  /** Equality of scenes, field by field. */
  lemma SameScene(s: State, r: State)
    requires s.accum == r.accum && s.table == r.table && s.holder == r.holder && s.objects == r.objects
    requires |s.ctxs| == |r.ctxs| == 1 && |s.threads| == |r.threads| == 2
    requires s.ctxs[0].(cnts := []) == r.ctxs[0].(cnts := []) && s.ctxs[0].cnts == r.ctxs[0].cnts
    requires s.threads[0] == r.threads[0] && s.threads[1] == r.threads[1]
    ensures s == r
  {
    assert s.ctxs == r.ctxs && s.threads == r.threads;
  }


  lemma Sampling(z: nat)
    ensures Hop(6, z)
  {
    SameScene(AfterSample(Scene(6, z), 1, BT, z), Scene(7, z));
  }

  lemma FreeStarts(z: nat)
    ensures Hop(7, z)
  {
    SameScene(AfterStartFree(Scene(7, z), 1, 0), Scene(8, z));
  }

  lemma Freeing(s: State, z: nat)
    requires s == Scene(8, z)
    ensures Enabled(s, 1, Uncharge) && Grounded(s, 1) && AfterUncharge(s, 1) == Scene(9, z)
  {
    SameScene(AfterUncharge(s, 1), Scene(9, z));
  }

  lemma Evicting(z: nat)
    ensures Hop(9, z)
  {
    assert map[BT := 0] - {BT} == map[];
  }

  lemma Merged(z: nat)
    ensures Hop(10, z)
  {
    assert [None, Some(Cnt(0, 0, 1))][1 := None] == [None, None];
  }

  lemma GivingUp(z: nat)
    ensures Hop(11, z) && Hop(12, z)
  {}

  lemma Leaving(k: nat, z: nat)
    requires 9 <= k < 13
    ensures Hop(k, z)
  {
    Evicting(z);
    Merged(z);
    GivingUp(z);
  }

  function Script(k: nat, z: nat): Run
  {
    if k == 0 then Start else Then(Script(k - 1, z), Cue(k - 1, z).0, Cue(k - 1, z).1)
  }

  /** One more step of a run. */
  lemma Onward(s0: State, run: Run, m: State, t: Tid, e: Event)
    requires Exec(s0, run) == Some(m) && Enabled(m, t, e) && Grounded(m, t)
    ensures Exec(s0, Then(run, t, e)) == Some(Do(m, t, e))
  {}

  lemma Hops(k: nat, z: nat)
    requires k < 13
    ensures Hop(k, z)
  {
    if k < 6 { Joining(k, z); } else if k == 6 { Sampling(z); } else if k == 7 { FreeStarts(z); }
      else if k == 8 { Freeing(Scene(8, z), z); } else { Leaving(k, z); }
  }

  lemma {:induction false} Play(k: nat, z: nat)
    requires k <= 13
    ensures Exec(Scene(0, z), Script(k, z)) == Some(Scene(k, z))
  {
    if k > 0 {
      Play(k - 1, z);
      Hops(k - 1, z);
      Onward(Scene(0, z), Script(k - 1, z), Scene(k - 1, z), Cue(k - 1, z).0, Cue(k - 1, z).1);
    }
  }

  lemma {:induction false} PlayClean(s0: State, k: nat, z: nat)
    requires k <= 13 && s0 == Scene(0, z)
    ensures Exec(s0, Script(k, z)).Some? && CleanRun(s0, Script(k, z))
  {
    Play(k, z);
    if k > 0 {
      PlayClean(s0, k - 1, z);
      OtherCues(k - 1, z);
    }
  }

  lemma OtherCues(k: nat, z: nat)
    ensures !Cue(k, z).1.CreateLoses? && !Cue(k, z).1.LinkLoses?
  {}

  lemma LastScene(s: State, z: nat)
    requires s == Scene(13, z)
    ensures |s.threads| == 2 && s.threads[0].work == Checking(0) && Linked(s, 0)
    ensures Destroyable(s.ctxs[0]) && s.ctxs[0].merged.accumobjs != 0
  {}

  lemma Performance(k: nat, z: nat) returns (s0: State, run: Run, s: State)
    requires k <= 13
    ensures Init(s0) && s0.accum && s == Scene(k, z) && Exec(s0, run) == Some(s) && CleanRun(s0, run)
  {
    Play(k, z);
    PlayClean(Scene(0, z), k, z);
    s0, run, s := Scene(0, z), Script(k, z), Scene(k, z);
  }

  /** With opt_prof_accum the assertion of prof_ctx_destroy at prof.c:695 can fail,
      and the context goes away with its accumulated count. */
  lemma AccumAssertFails(z: nat) returns (s0: State, run: Run, s: State)
    ensures Init(s0) && s0.accum && Exec(s0, run) == Some(s) && CleanRun(s0, run)
    ensures |s.threads| == 2 && s.threads[0].work == Checking(0) && Linked(s, 0)
    ensures Destroyable(s.ctxs[0]) && s.ctxs[0].merged.accumobjs != 0
  {
    s0, run, s := Performance(13, z);
    LastScene(s, z);
  }

  /** A clean run that leaks: thread 1 joins the context and runs out of memory, and
      nlimbo is 2 while thread 0 alone is in limbo. */
  lemma LeakingRun(z: nat) returns (s0: State, run: Run, s: State)
    ensures Init(s0) && Exec(s0, run) == Some(s) && CleanRun(s0, run)
    ensures Linked(s, 0) && s.ctxs[0].nlimbo == 2 && LeaksOf(s0, run, 0) == 1
    ensures |s.threads| == 2 && Refs(s.threads, 0) == 1 && s.threads[0].lookup == Limbo(0, true)
            && s.threads[1] == NEW_THREAD
  {
    var m, before;
    s0, before, m := Performance(5, z);
    run := Then(before, 1, LinkFails);
    GivesUp(m, z);
    s := AfterLinkFails(m, 1);
    FailingStep(s0, before, m, 1, s);
  }

  lemma FailingStep(s0: State, before: Run, m: State, t: Tid, s: State)
    requires Init(s0) && Exec(s0, before) == Some(m) && CleanRun(s0, before)
    requires Enabled(m, t, LinkFails) && Grounded(m, t) && s == AfterLinkFails(m, t) && s.ctxs != []
    ensures var run := Then(before, t, LinkFails);
            Exec(s0, run) == Some(s) && CleanRun(s0, run) && LeaksOf(s0, run, 0) == s.ctxs[0].leaked
  {
    Onward(s0, before, m, t, LinkFails);
    LeakedCounts(s0, Then(before, t, LinkFails), 0);
  }

  lemma GivesUp(m: State, z: nat)
    requires m == Scene(5, z)
    ensures Enabled(m, 1, LinkFails) && Grounded(m, 1)
    ensures var s := AfterLinkFails(m, 1);
            && Linked(s, 0) && s.ctxs[0].nlimbo == 2 && s.ctxs[0].leaked == 1 && Refs(s.threads, 0) == 1
            && |s.threads| == 2 && s.threads[0].lookup == Limbo(0, true) && s.threads[1] == NEW_THREAD
  {
    var s := AfterLinkFails(m, 1);
    assert s.threads[1..] == [NEW_THREAD] && s.threads[1..][1..] == [];
    assert Refs(s.threads[1..], 0) == 0;
  }

  // ------------------------------------------------- a failed insertion at large

  function TableOf(n: nat): map<Backtrace, Cid>
  {
    if n == 0 then map[] else TableOf(n - 1)[[n - 1] := n - 1]
  }

  lemma {:induction false} InTable(n: nat, k: nat)
    ensures [k] in TableOf(n) <==> k < n
    ensures k < n ==> TableOf(n)[[k]] == k
  {
    if n > 0 {
      assert [k] == [n - 1] <==> k == n - 1 by {
        assert [k][0] == k && [n - 1][0] == n - 1;
      }
      InTable(n - 1, k);
    }
  }

  function CtxsOf(n: nat): seq<Ctx>
  {
    if n == 0 then [] else CtxsOf(n - 1) + [Ctx([n - 1], 0, ZERO, [Some(ZERO)], 0, 0)]
  }

  lemma {:induction false} CountCtxs(n: nat)
    ensures |CtxsOf(n)| == n
  {
    if n > 0 { CountCtxs(n - 1); }
  }

  /** A thread that has looked up n different backtraces. */
  function Stocked(n: nat): State
  {
    State(false, TableOf(n), None, CtxsOf(n), [], [NEW_THREAD.(cache := TableOf(n))])
  }

  function Stock(n: nat): Run
  {
    if n == 0 then Start else StockMore(Stock(n - 1), n - 1)
  }

  function Asking(n: nat): State
  {
    Stocked(n).(holder := Some(0), threads := [NEW_THREAD.(cache := TableOf(n), lookup := Entered([n]))])
  }

  function Making(n: nat): State
  {
    Stocked(n).(table := TableOf(n + 1), ctxs := CtxsOf(n) + [NewCtx([n], 1)],
                threads := [NEW_THREAD.(cache := TableOf(n), lookup := Limbo(n, true))])
  }

  lemma StockGrounded(n: nat, s: State)
    requires |s.threads| == 1 && s.threads[0].cache == TableOf(n) && s.threads[0].work == Rest
             && s.threads[0].freeing == None
    requires s.threads[0].lookup == Idle || s.threads[0].lookup == Entered([n]) || s.threads[0].lookup == Limbo(n, true)
    requires |s.ctxs| >= n && forall k :: 0 <= k < n ==> s.ctxs[k].Has(0)
    requires s.threads[0].lookup.Limbo? ==> |s.ctxs| > n && |s.ctxs[n].cnts| == 1
    ensures Grounded(s, 0)
  {
    InTableOnly(n);
  }

  lemma {:induction false} InTableOnly(n: nat)
    ensures forall bt :: bt in TableOf(n) ==> TableOf(n)[bt] < n
  {
    if n > 0 { InTableOnly(n - 1); }
  }

  lemma {:induction false} CtxsHave(n: nat)
    ensures |CtxsOf(n)| == n && forall k :: 0 <= k < n ==> CtxsOf(n)[k].Has(0)
  {
    if n > 0 { CtxsHave(n - 1); }
  }

  lemma Ask(n: nat)
    ensures Enabled(Stocked(n), 0, Enter([n])) && Grounded(Stocked(n), 0) && AfterEnter(Stocked(n), 0, [n]) == Asking(n)
  {
    CtxsHave(n);
    InTable(n, n);
    StockGrounded(n, Stocked(n));
  }

  lemma Make(n: nat)
    ensures Enabled(Asking(n), 0, Create) && Grounded(Asking(n), 0) && AfterCreate(Asking(n), 0) == Making(n)
  {
    CtxsHave(n);
    InTable(n, n);
    StockGrounded(n, Asking(n));
  }

  lemma Join(n: nat)
    ensures Enabled(Making(n), 0, Link) && Grounded(Making(n), 0) && AfterLink(Making(n), 0) == Stocked(n + 1)
  {
    CtxsHave(n);
    StockGrounded(n, Making(n));
    assert NewCtx([n], 1).cnts[0 := Some(ZERO)] == [Some(ZERO)];
    assert AfterLink(Making(n), 0).ctxs == CtxsOf(n + 1);
    assert AfterLink(Making(n), 0).threads == Stocked(n + 1).threads;
  }

  function StockMore(run: Run, n: nat): Run
  {
    Then(Then(Then(run, 0, Enter([n])), 0, Create), 0, Link)
  }

  lemma Round(s0: State, run: Run, n: nat, a: State, b: State, c: State, d: State)
    requires Exec(s0, run) == Some(a)
    requires Enabled(a, 0, Enter([n])) && Grounded(a, 0) && AfterEnter(a, 0, [n]) == b
    requires Enabled(b, 0, Create) && Grounded(b, 0) && AfterCreate(b, 0) == c
    requires Enabled(c, 0, Link) && Grounded(c, 0) && AfterLink(c, 0) == d
    ensures Exec(s0, StockMore(run, n)) == Some(d)
  {
    Onward(s0, run, a, 0, Enter([n]));
    Onward(s0, Then(run, 0, Enter([n])), b, 0, Create);
    Onward(s0, Then(Then(run, 0, Enter([n])), 0, Create), c, 0, Link);
  }

  lemma {:induction false} StockRun(s0: State, n: nat)
    requires s0 == Stocked(0)
    ensures Init(s0) && Exec(s0, Stock(n)) == Some(Stocked(n))
  {
    if n > 0 {
      StockRun(s0, n - 1);
      StockRound(s0, Stock(n - 1), n - 1);
    }
  }

  lemma StockRound(s0: State, run: Run, n: nat)
    requires Exec(s0, run) == Some(Stocked(n))
    ensures Exec(s0, StockMore(run, n)) == Some(Stocked(n + 1))
  {
    Ask(n);
    Make(n);
    Join(n);
    Round(s0, run, n, Stocked(n), Asking(n), Making(n), Stocked(n + 1));
  }

  /** However many contexts there are, but four at least: when the insertion of one more into bt2ctx fails
      and the entry of another is lost, bt2ctx leads to a released context, and a thread
      still uses one that bt2ctx has forgotten.  An insertion fails only when a bucket of
      four cells is full; that the hash values fill one is left open. */
  lemma DanglingEntry(n: nat, lost: nat) returns (s0: State, run: Run, s: State)
    requires lost < n && 4 <= n
    ensures Init(s0) && Exec(s0, run) == Some(s) && !SoundRun(s0, run)
    ensures [n] in s.table && s.table[[n]] < |s.ctxs| && s.ctxs[s.table[[n]]].frees == 1
    ensures |s.threads| == 1 && lost in Pointers(s, 0) && !Linked(s, lost)
  {
    s0, s := Stocked(0), AfterCreateLoses(Asking(n), 0, [lost]);
    var asking := Then(Stock(n), 0, Enter([n]));
    run := Then(asking, 0, CreateLoses([lost]));
    StockRun(s0, n);
    Ask(n);
    Onward(s0, Stock(n), Stocked(n), 0, Enter([n]));
    Make(n);
    InTable(n, lost);
    Onward(s0, asking, Asking(n), 0, CreateLoses([lost]));
    Dangling(n, lost, s);
  }

  lemma Dangling(n: nat, lost: nat, s: State)
    requires lost < n && s == AfterCreateLoses(Asking(n), 0, [lost])
    ensures [n] in s.table && s.table[[n]] < |s.ctxs| && s.ctxs[s.table[[n]]].frees == 1 && !Sound(s)
    ensures |s.threads| == 1 && lost in Pointers(s, 0) && !Linked(s, lost)
  {
    CountCtxs(n);
    InTable(n, lost);
    BtOf(n, lost);
    assert [lost][0] == lost && [n][0] == n;
    assert s.threads[0].cache[[lost]] == lost;
    assert lost in s.threads[0].cache.Values;
    assert s.table[[n]] == n;
  }

  lemma {:induction false} BtOf(n: nat, k: nat)
    requires k < n
    ensures |CtxsOf(n)| == n && CtxsOf(n)[k].bt == [k]
  {
    CountCtxs(n - 1);
    if k < n - 1 { BtOf(n - 1, k); }
  }
}
