/** What profiling contexts are for: lookups give counters, frees are counted, and a context
    that nobody needs any more goes away. */
module ProfLaws {
  import opened Options
  import opened ProfCtx

  // ------------------------------------------------------------ reclamation

  /** A thread other than t has a counter in the context. */
  predicate Shared(s: State, t: Tid, c: Cid)
    requires c < |s.ctxs|
  {
    exists u :: 0 <= u < |s.ctxs[c].cnts| && u != t && s.ctxs[c].Has(u)
  }

  /** The counters amount to the living objects. */
  lemma Accounts(s: State, c: Cid)
    requires Inv(s) && Linked(s, c)
    ensures s.ctxs[c].merged.curobjs + Sum(s.ctxs[c].cnts).curobjs == Live(s.objects, c).curobjs
    ensures s.ctxs[c].nlimbo == Refs(s.threads, c) + s.ctxs[c].leaked && s.ctxs[c].frees == 0
    ensures |s.ctxs[c].cnts| == |s.threads|
  {
    assert CtxOk(s, c);
  }

  lemma Unshared(x: Ctx, t: Tid)
    requires x.Has(t)
    ensures x.(cnts := x.cnts[t := None]).NoCounters() <==> forall u :: 0 <= u < |x.cnts| && u != t ==> !x.Has(u)
  {
    var y := x.(cnts := x.cnts[t := None]);
    assert y.cnts[t] == None;
    assert forall u :: 0 <= u < |x.cnts| && u != t ==> y.cnts[u] == x.cnts[u] && (x.Has(u) <==> x.cnts[u] != None);
  }

  lemma NoneHas(x: Ctx)
    ensures x.NoCounters() <==> forall u :: 0 <= u < |x.cnts| ==> !x.Has(u)
  {
    assert forall u :: 0 <= u < |x.cnts| ==> (x.Has(u) <==> x.cnts[u] != None);
  }

  /** The objects that are alive when t's counter was the last one. */
  lemma LastCounter(s: State, t: Tid, c: Cid)
    requires Inv(s) && Linked(s, c) && s.ctxs[c].Has(t) && !Shared(s, t, c)
    ensures s.ctxs[c].merged.curobjs + s.ctxs[c].cnts[t].value.curobjs == Live(s.objects, c).curobjs
  {
    var x := s.ctxs[c];
    Accounts(s, c);
    Unshared(x, t);
    SumUpdate(x.cnts, t, None);
    SumNone(x.cnts[t := None]);
  }

  /** What a merge may do: it ends at once, or goes on to destroy the context. */
  ghost predicate AfterMerging(s: State, r: State, t: Tid, c: Cid, ends: bool)
    requires Linked(s, c) && t < |s.threads|
  {
    && Inv(r) && Linked(r, c) && r.ctxs[c].bt == s.ctxs[c].bt && !r.ctxs[c].Has(t)
    && t < |r.threads| && r.threads[t] == s.threads[t].(work := if ends then Rest else Waiting(c))
    && r.ctxs[c].nlimbo == s.ctxs[c].nlimbo + (if ends then 0 else 1)
    && |r.ctxs[c].cnts| == |s.ctxs[c].cnts|
    && (forall u :: 0 <= u < |r.ctxs[c].cnts| && u != t ==> r.ctxs[c].cnts[u] == s.ctxs[c].cnts[u])
    && r.table == s.table && r.objects == s.objects && r.holder == s.holder
  }

  /** A merge ends without destroying the context exactly when opt_prof_accum is set,
      another thread has a counter in it, an object of it is alive, or a thread is or was
      in limbo. */
  lemma MergeEnds(s: State, t: Tid, c: Cid)
    requires Inv(s) && t < |s.threads| && s.threads[t].work == Merging(c)
    ensures Enabled(s, t, Merge) && Grounded(s, t) && Linked(s, c)
    ensures var ends := s.accum || Shared(s, t, c) || Live(s.objects, c).curobjs != 0 || s.ctxs[c].nlimbo != 0;
            AfterMerging(s, Do(s, t, Merge), t, c, ends)
  {
    InvGrounded(s, t);
    assert ThreadOk(s, t);
    StepInv(s, t, Merge);
    Unshared(s.ctxs[c], t);
    if !Shared(s, t, c) { LastCounter(s, t, c); }
  }

  /** A context is destroyed exactly when nobody has a counter, no object is alive and the
      thread is alone in limbo. */
  lemma DestroyEnds(s: State, t: Tid, c: Cid)
    requires Inv(s) && t < |s.threads| && s.threads[t].work == Checking(c)
    ensures Enabled(s, t, Destroy) && Grounded(s, t) && Linked(s, c)
    ensures var x, r := s.ctxs[c], Do(s, t, Destroy);
            var gone := x.nlimbo == 1 && Live(s.objects, c).curobjs == 0
                        && forall u :: 0 <= u < |x.cnts| ==> !x.Has(u);
            && Inv(r) && r.holder == None && t < |r.threads| && c < |r.ctxs| && r.ctxs[c].bt == x.bt
            && r.threads[t] == s.threads[t].(work := if gone then Releasing(c) else Rest)
            && r.table == (if gone then s.table - {x.bt} else s.table)
            && r.ctxs[c].frees == 0 && (!gone ==> r.ctxs[c].nlimbo == x.nlimbo - 1)
  {
    InvGrounded(s, t);
    assert ThreadOk(s, t);
    StepInv(s, t, Destroy);
    Accounts(s, c);
    NoneHas(s.ctxs[c]);
    if s.ctxs[c].NoCounters() { SumNone(s.ctxs[c].cnts); }
  }

  lemma EnterDestroyEnds(s: State, t: Tid, c: Cid)
    requires Inv(s) && t < |s.threads| && s.threads[t].work == Waiting(c) && s.holder == None
    ensures Enabled(s, t, EnterDestroy) && Grounded(s, t)
    ensures var r := Do(s, t, EnterDestroy);
            && Inv(r) && r == s.(holder := Some(t), threads := s.threads[t := s.threads[t].(work := Checking(c))])
  {
    InvGrounded(s, t);
    StepInv(s, t, EnterDestroy);
  }

  lemma ReleaseEnds(s: State, t: Tid, c: Cid)
    requires Inv(s) && t < |s.threads| && s.threads[t].work == Releasing(c)
    ensures Enabled(s, t, Release) && Grounded(s, t)
    ensures var r := Do(s, t, Release);
            && Inv(r) && c < |r.ctxs| && r.ctxs[c].frees == 1 && r.table == s.table && r.holder == s.holder
            && t < |r.threads| && r.threads[t] == s.threads[t].(work := Rest)
  {
    InvGrounded(s, t);
    assert ThreadOk(s, t);
    StepInv(s, t, Release);
  }

  /** Nobody but t needs the context. */
  ghost predicate Unneeded(s: State, t: Tid, c: Cid)
    requires c < |s.ctxs|
  {
    !s.accum && !Shared(s, t, c) && Live(s.objects, c).curobjs == 0 && s.ctxs[c].nlimbo == 0
  }

  /** It has left bt2ctx and was released once; the other entries are still there. */
  ghost predicate Reclaimed(s: State, r: State, t: Tid, c: Cid)
    requires t < |s.threads| && c < |s.ctxs|
  {
    && Inv(r) && r.table == s.table - {s.ctxs[c].bt} && c < |r.ctxs| && r.ctxs[c].frees == 1 && !Linked(r, c)
    && t < |r.threads| && r.threads[t].work == Rest && r.holder == None
  }

  function Destroying(before: Run, t: Tid): Run
  {
    Then(Then(Then(Then(before, t, Merge), t, EnterDestroy), t, Destroy), t, Release)
  }

  /** The last thread that has a counter in a context without objects reclaims it. */
  lemma Reclaim(s0: State, before: Run, s: State, t: Tid, c: Cid)
    requires Exec(s0, before) == Some(s)
    requires Inv(s) && t < |s.threads| && s.threads[t].work == Merging(c) && s.holder == None
    requires c < |s.ctxs| && Unneeded(s, t, c)
    ensures Exec(s0, Destroying(before, t)).Some?
    ensures Reclaimed(s, Exec(s0, Destroying(before, t)).value, t, c)
  {
    MergeEnds(s, t, c);
    var a := Do(s, t, Merge);
    Onward(s0, before, s, t, Merge);
    NoneHas(a.ctxs[c]);
    DestroyAll(s0, Then(before, t, Merge), a, t, c);
  }

  /** From the decision to destroy on, when nothing comes between. */
  lemma DestroyAll(s0: State, before: Run, a: State, t: Tid, c: Cid)
    requires Exec(s0, before) == Some(a) && Inv(a) && t < |a.threads| && a.threads[t].work == Waiting(c)
    requires a.holder == None && c < |a.ctxs| && a.ctxs[c].nlimbo == 1 && Live(a.objects, c).curobjs == 0
    requires forall u :: 0 <= u < |a.ctxs[c].cnts| ==> !a.ctxs[c].Has(u)
    ensures var run := Then(Then(Then(before, t, EnterDestroy), t, Destroy), t, Release);
            Exec(s0, run).Some? && Reclaimed(a, Exec(s0, run).value, t, c)
  {
    EnterDestroyEnds(a, t, c);
    var b := Do(a, t, EnterDestroy);
    Onward(s0, before, a, t, EnterDestroy);
    DestroyEnds(b, t, c);
    var d := Do(b, t, Destroy);
    Onward(s0, Then(before, t, EnterDestroy), b, t, Destroy);
    ReleaseEnds(d, t, c);
    Onward(s0, Then(Then(before, t, EnterDestroy), t, Destroy), d, t, Release);
  }

  /** The same for a thread that flushes its counter, as an exiting thread does with all
      of them: prof.c:1169-1172. */
  lemma EvictReclaims(s: State, t: Tid, bt: Backtrace)
    requires Inv(s) && t < |s.threads| && bt in s.threads[t].cache && s.holder == None
    requires s.threads[t].work == Rest && s.threads[t].lookup == Idle && s.threads[t].freeing == None
    ensures var c := s.threads[t].cache[bt]; c < |s.ctxs| && s.ctxs[c].bt == bt
    ensures var c := s.threads[t].cache[bt]; var run := Destroying(Then(Start, t, Evict(bt)), t);
            Unneeded(s, t, c) ==> Exec(s, run).Some? && Reclaimed(s, Exec(s, run).value, t, c)
  {
    var c := s.threads[t].cache[bt];
    assert ThreadOk(s, t);
    InvGrounded(s, t);
    StepInv(s, t, Evict(bt));
    var r := Do(s, t, Evict(bt));
    Onward(s, Start, s, t, Evict(bt));
    if Unneeded(s, t, c) { Reclaim(s, Then(Start, t, Evict(bt)), r, t, c); }
  }

  // ------------------------------------------------------ nothing is forgotten

  /** Somebody will see to the context: a thread has a counter in it, is going to undo an
      increment of its nlimbo, or has leaked one, or it has a living object. */
  predicate Remembered(s: State, c: Cid)
    requires c < |s.ctxs|
  {
    !s.ctxs[c].NoCounters() || Refs(s.threads, c) > 0 || s.ctxs[c].leaked > 0 || Live(s.objects, c).curobjs != 0
  }

  ghost predicate AllRemembered(s: State)
  {
    forall c :: 0 <= c < |s.ctxs| && Linked(s, c) ==> Remembered(s, c)
  }

  /** What a step of thread t leaves alone of a context. */
  ghost predicate Untouched(s: State, r: State, t: Tid, d: Cid)
  {
    && t < |s.threads| && |r.threads| == |s.threads| && r.threads == s.threads[t := r.threads[t]]
    && d < |s.ctxs| && d < |r.ctxs| && (Linked(r, d) ==> Linked(s, d))
    && r.ctxs[d].cnts == s.ctxs[d].cnts && r.ctxs[d].leaked == s.ctxs[d].leaked
    && Held(r.threads[t], d) == Held(s.threads[t], d) && Live(r.objects, d).curobjs == Live(s.objects, d).curobjs
  }

  lemma UntouchedRemembered(s: State, r: State, t: Tid, d: Cid)
    requires Untouched(s, r, t, d) && AllRemembered(s)
    ensures Linked(r, d) ==> Remembered(r, d)
  {
    RefsUpdate(s.threads, t, r.threads[t], d);
  }

  lemma HolderRemembers(s: State, t: Tid, c: Cid)
    requires t < |s.threads| && c < |s.ctxs| && Held(s.threads[t], c) > 0
    ensures Remembered(s, c)
  {
    RefsBound(s.threads, t, c);
  }

  lemma CounterRemembers(s: State, t: Tid, c: Cid)
    requires c < |s.ctxs| && s.ctxs[c].Has(t)
    ensures Remembered(s, c)
  {}

  /** A step that keeps the invariant and touches one context. */
  lemma OthersRemembered(s: State, r: State, t: Tid, c: Cid)
    requires Kept(s, r, t, c) && AllRemembered(s) && Remembered(r, c)
    ensures AllRemembered(r)
  {
    forall d | 0 <= d < |r.ctxs| && Linked(r, d) ensures Remembered(r, d) {
      if d != c { UntouchedRemembered(s, r, t, d); }
    }
  }

  /** A step that touches none. */
  lemma NoneTouched(s: State, r: State, t: Tid)
    requires AllRemembered(s) && t < |s.threads| && |r.threads| == |s.threads|
    requires r.threads == s.threads[t := r.threads[t]] && r.ctxs == s.ctxs && r.objects == s.objects
    requires r.table == s.table
    requires forall d :: Held(r.threads[t], d) == Held(s.threads[t], d)
    ensures AllRemembered(r)
  {
    forall d | 0 <= d < |r.ctxs| && Linked(r, d) ensures Remembered(r, d) {
      UntouchedRemembered(s, r, t, d);
    }
  }

  lemma CreateRemembers(s: State, t: Tid)
    requires Inv(s) && Grounded(s, t) && s.threads[t].lookup.Entered? && s.threads[t].lookup.bt !in s.table
    requires AllRemembered(s)
    ensures AllRemembered(AfterCreate(s, t))
  {
    var r := AfterCreate(s, t);
    assert ThreadOk(s, t);
    forall d | 0 <= d < |r.ctxs| && Linked(r, d) ensures Remembered(r, d) {
      if d < |s.ctxs| { UntouchedRemembered(s, r, t, d); } else { HolderRemembers(r, t, d); }
    }
  }

  lemma CreateLosesRemembers(s: State, t: Tid)
    requires Inv(s) && Grounded(s, t) && s.threads[t].lookup.Entered? && s.threads[t].lookup.bt !in s.table
    requires AllRemembered(s)
    ensures AllRemembered(AfterCreateLoses(s, t, s.threads[t].lookup.bt))
  {
    var bt := s.threads[t].lookup.bt;
    var r := AfterCreateLoses(s, t, bt);
    assert ThreadOk(s, t);
    assert s.table[bt := |s.ctxs|] - {bt} == s.table;
    forall d | 0 <= d < |r.ctxs| && Linked(r, d) ensures Remembered(r, d) {
      assert d < |s.ctxs|;
      UntouchedRemembered(s, r, t, d);
    }
  }

  lemma LinkFailsRemembers(s: State, t: Tid)
    requires Inv(s) && Grounded(s, t) && s.threads[t].work == Rest && s.threads[t].lookup.Limbo? && AllRemembered(s)
    ensures AllRemembered(AfterLinkFails(s, t))
  {
    var r, c := AfterLinkFails(s, t), s.threads[t].lookup.ctx;
    assert ThreadOk(s, t);
    assert CtxOk(s, c);
    if s.threads[t].lookup.isNew {
      CreatorFailsKept(s, t, c);
      HolderRemembers(r, t, c);
    } else {
      VisitorFailsKept(s, t, c);
    }
    OthersRemembered(s, r, t, c);
  }

  lemma MergeRemembers(s: State, t: Tid)
    requires Inv(s) && Grounded(s, t) && s.threads[t].work.Merging? && !s.accum && AllRemembered(s)
    ensures AllRemembered(Do(s, t, Merge))
  {
    var r, c := Do(s, t, Merge), s.threads[t].work.ctx;
    assert ThreadOk(s, t);
    assert CtxOk(s, c);
    MergeKept(s, t, c);
    MergeEnds(s, t, c);
    if r.threads[t].work == Rest {
      MergeLeaves(s, r, t, c);
    } else {
      HolderRemembers(r, t, c);
    }
    OthersRemembered(s, r, t, c);
  }

  lemma MergeLeaves(s: State, r: State, t: Tid, c: Cid)
    requires Inv(s) && t < |s.threads| && s.threads[t].work == Merging(c) && Linked(s, c) && !s.accum
    requires AfterMerging(s, r, t, c, true)
    requires Shared(s, t, c) || Live(s.objects, c).curobjs != 0 || s.ctxs[c].nlimbo != 0
    ensures Remembered(r, c)
  {
    Accounts(r, c);
    if Shared(s, t, c) {
      var u :| 0 <= u < |s.ctxs[c].cnts| && u != t && s.ctxs[c].Has(u);
      CounterRemembers(r, u, c);
    }
  }

  lemma DestroyRemembers(s: State, t: Tid)
    requires Inv(s) && Grounded(s, t) && s.threads[t].work.Checking? && AllRemembered(s)
    ensures AllRemembered(Do(s, t, Destroy))
  {
    var r, c := Do(s, t, Destroy), s.threads[t].work.ctx;
    assert ThreadOk(s, t);
    DestroyEnds(s, t, c);
    forall d | 0 <= d < |r.ctxs| && Linked(r, d) ensures Remembered(r, d) {
      if d != c { UntouchedRemembered(s, r, t, d); } else { DestroyLeaves(s, r, t, c); }
    }
  }

  /** A context that is not destroyed has another counter, object or thread. */
  lemma DestroyLeaves(s: State, r: State, t: Tid, c: Cid)
    requires Inv(s) && Grounded(s, t) && s.threads[t].work == Checking(c) && r == AfterDestroy(s, t)
    requires Inv(r) && Linked(r, c)
    ensures Remembered(r, c)
  {
    assert ThreadOk(s, t);
    Accounts(s, c);
    RefsBound(s.threads, t, c);
    Accounts(r, c);
    if s.ctxs[c].NoCounters() { SumNone(s.ctxs[c].cnts); }
  }

  lemma ReleaseRemembers(s: State, t: Tid)
    requires Inv(s) && Grounded(s, t) && s.threads[t].work.Releasing? && AllRemembered(s)
    ensures AllRemembered(Do(s, t, Release))
  {
    var r := Do(s, t, Release);
    assert ThreadOk(s, t);
    forall d | 0 <= d < |r.ctxs| && Linked(r, d) ensures Remembered(r, d) {
      UntouchedRemembered(s, r, t, d);
    }
  }

  lemma SampleRemembers(s: State, t: Tid, bt: Backtrace, size: nat)
    requires Inv(s) && Grounded(s, t) && Enabled(s, t, Sample(bt, size)) && AllRemembered(s)
    ensures AllRemembered(Do(s, t, Sample(bt, size)))
  {
    var c, r := s.threads[t].cache[bt], Do(s, t, Sample(bt, size));
    assert ThreadOk(s, t) && CtxOk(s, c);
    SampleKept(s, t, bt, size, c);
    CounterRemembers(r, t, c);
    OthersRemembered(s, r, t, c);
  }

  lemma UnchargeRemembers(s: State, t: Tid)
    requires Inv(s) && Grounded(s, t) && Enabled(s, t, Uncharge) && AllRemembered(s)
    ensures AllRemembered(Do(s, t, Uncharge))
  {
    var c, r := FreedCtx(s, t), Do(s, t, Uncharge);
    assert ThreadOk(s, t) && CtxOk(s, c);
    UnchargeKept(s, t, c);
    CounterRemembers(r, t, c);
    OthersRemembered(s, r, t, c);
  }

  lemma LinkRemembers(s: State, t: Tid)
    requires Inv(s) && Grounded(s, t) && Enabled(s, t, Link) && AllRemembered(s)
    ensures AllRemembered(Do(s, t, Link))
  {
    var c, r := s.threads[t].lookup.ctx, Do(s, t, Link);
    assert ThreadOk(s, t) && CtxOk(s, c);
    LinkKept(s, t, c);
    CounterRemembers(r, t, c);
    OthersRemembered(s, r, t, c);
  }

  lemma IncrementRemembers(s: State, t: Tid)
    requires Inv(s) && Grounded(s, t) && Enabled(s, t, Increment) && AllRemembered(s)
    ensures AllRemembered(Do(s, t, Increment))
  {
    var c, r := s.threads[t].lookup.ctx, Do(s, t, Increment);
    assert ThreadOk(s, t) && CtxOk(s, c);
    IncrementKept(s, t, c);
    HolderRemembers(r, t, c);
    OthersRemembered(s, r, t, c);
  }

  /** Without opt_prof_accum no step forgets a context, but the one that uncharges an
      object without a counter. */
  lemma StepRemembers(s: State, t: Tid, e: Event)
    requires Inv(s) && Enabled(s, t, e) && Clean(s, t, e) && AllRemembered(s) && !s.accum && e != UnchargeMerged
    ensures Grounded(s, t) && AllRemembered(Do(s, t, e))
  {
    InvGrounded(s, t);
    assert ThreadOk(s, t);
    var r := Do(s, t, e);
    match e
    case Create => CreateRemembers(s, t);
    case CreateLoses(_) => CreateLosesRemembers(s, t);
    case Increment => IncrementRemembers(s, t);
    case Link => LinkRemembers(s, t);
    case LinkFails => LinkFailsRemembers(s, t);
    case LinkLoses(_) => LinkLosesNothing(s, t); LinkFailsRemembers(s, t);
    case Merge => MergeRemembers(s, t);
    case Destroy => DestroyRemembers(s, t);
    case Release => ReleaseRemembers(s, t);
    case Sample(bt, size) => SampleRemembers(s, t, bt, size);
    case Uncharge => UnchargeRemembers(s, t);
    case _ => NoneTouched(s, r, t);
  }

  /** That one forgets it exactly when the object was the last one, no thread has a
      counter, and none is or was in limbo. */
  lemma UnchargeForgets(s: State, t: Tid)
    requires Inv(s) && Enabled(s, t, UnchargeMerged)
    ensures Grounded(s, t) && FreedCtx(s, t) < |s.ctxs|
    ensures var c, r := FreedCtx(s, t), Do(s, t, UnchargeMerged);
            && Linked(r, c)
            && (!Remembered(r, c) <==>
                s.ctxs[c].NoCounters() && s.ctxs[c].nlimbo == 0 && Live(s.objects, c).curobjs == 1)
  {
    InvGrounded(s, t);
    var c, r := FreedCtx(s, t), Do(s, t, UnchargeMerged);
    assert ThreadOk(s, t) && CtxOk(s, c);
    UnchargeMergedKept(s, t, c);
    FreedLive(s, t);
    RefsUpdate(s.threads, t, r.threads[t], c);
  }

  /** No object is freed by a thread that cannot have a counter for it. */
  ghost predicate Counted(run: Run)
  {
    run.Then? ==> run.event != UnchargeMerged && Counted(run.before)
  }

  /** Whatever the interleaving: a context in bt2ctx that nobody remembers was kept for
      opt_prof_accum, or an object was freed without a counter. */
  lemma {:induction false} NothingForgotten(s0: State, run: Run)
    requires Init(s0) && !s0.accum && Exec(s0, run).Some? && CleanRun(s0, run) && Counted(run)
    ensures var s := Exec(s0, run).value; !s.accum && Inv(s) && AllRemembered(s)
  {
    if run.Then? {
      NothingForgotten(s0, run.before);
      var m := Exec(s0, run.before).value;
      StepRemembers(m, run.thread, run.event);
      StepInv(m, run.thread, run.event);
      AccumStays(m, run.thread, run.event);
    } else {
      InitInv(s0);
    }
  }

  lemma AccumStays(s: State, t: Tid, e: Event)
    requires Enabled(s, t, e) && Grounded(s, t)
    ensures Do(s, t, e).accum == s.accum
  {}

  /** So when all threads have come to rest with empty caches and every object is freed,
      bt2ctx is empty, but for contexts with a leaked increment. */
  lemma AllReclaimed(s0: State, run: Run, c: Cid)
    requires Init(s0) && !s0.accum && Exec(s0, run).Some? && CleanRun(s0, run) && Counted(run)
    requires var s := Exec(s0, run).value;
             && (forall t :: 0 <= t < |s.threads| ==> s.threads[t] == NEW_THREAD)
             && forall o :: 0 <= o < |s.objects| ==> !s.objects[o].alive
    ensures var s := Exec(s0, run).value; Linked(s, c) ==> LeaksOf(s0, run, c) > 0
  {
    var s := Exec(s0, run).value;
    NothingForgotten(s0, run);
    LeakedCounts(s0, run, c);
    if Linked(s, c) { OnlyLeaked(s, c); }
  }

  lemma OnlyLeaked(s: State, c: Cid)
    requires Inv(s) && Linked(s, c) && Remembered(s, c)
    requires forall t :: 0 <= t < |s.threads| ==> s.threads[t] == NEW_THREAD
    requires forall o :: 0 <= o < |s.objects| ==> !s.objects[o].alive
    ensures s.ctxs[c].leaked > 0
  {
    assert CtxOk(s, c);
    RefsNone(s.threads, c);
    DeadObjects(s.objects, c);
    NoneHas(s.ctxs[c]);
  }

  lemma {:induction false} DeadObjects(objects: seq<Sampled>, c: Cid)
    requires forall o :: 0 <= o < |objects| ==> !objects[o].alive
    ensures Live(objects, c).curobjs == 0
  {
    if objects != [] { DeadObjects(objects[1..], c); }
  }

  // ------------------------------------------------------ lookups and objects

  /** A thread that is not in the middle of anything, unless it frees an object. */
  predicate Ready(th: Thread)
  {
    th.work == Rest && th.lookup == Idle
  }

  /** One more step of a run that keeps the invariant. */
  lemma Advance(s0: State, before: Run, s: State, t: Tid, e: Event)
    requires Exec(s0, before) == Some(s) && Inv(s) && Enabled(s, t, e) && Clean(s, t, e)
    ensures Grounded(s, t) && Inv(Do(s, t, e)) && Exec(s0, Then(before, t, e)) == Some(Do(s, t, e))
  {
    StepInv(s, t, e);
    Onward(s0, before, s, t, e);
  }

  /** The way of a thread through prof_lookup for a backtrace that its cache lacks. */
  function Looking(before: Run, t: Tid, bt: Backtrace, known: bool): Run
  {
    var entered := Then(before, t, Enter(bt));
    Then(if known then Then(Then(entered, t, Search), t, Increment) else Then(entered, t, Create), t, Link)
  }

  /** The cache leads to a fresh counter of the thread in the context of the backtrace, which
      is the one that was there, if there was one, and nobody is in limbo who was not
      before. */
  ghost predicate LookedUp(s: State, r: State, t: Tid, bt: Backtrace)
    requires t < |s.threads|
  {
    && Inv(r) && t < |r.threads| && r.threads[t].(cache := map[]) == s.threads[t].(cache := map[])
    && bt in r.threads[t].cache && r.threads[t].cache - {bt} == s.threads[t].cache - {bt}
    && var c := r.threads[t].cache[bt];
    && Linked(r, c) && r.ctxs[c].bt == bt && r.ctxs[c].Has(t) && r.ctxs[c].cnts[t] == Some(ZERO)
    && (if bt in s.table then c == s.table[bt] && c < |s.ctxs| && r.ctxs[c].nlimbo == s.ctxs[c].nlimbo
        else c == |s.ctxs| && r.ctxs[c].nlimbo == 0)
    && r.objects == s.objects && r.holder == None && r.accum == s.accum
    && |r.threads| == |s.threads| && forall u :: 0 <= u < |s.threads| && u != t ==> r.threads[u] == s.threads[u]
  }

  /** When the mutex is free and there is memory, a lookup gives the thread a counter. */
  lemma LookupCompletes(s0: State, before: Run, s: State, t: Tid, bt: Backtrace)
    requires Exec(s0, before) == Some(s) && Inv(s)
    requires t < |s.threads| && Ready(s.threads[t]) && s.holder == None && bt !in s.threads[t].cache
    requires s.threads[t].freeing.Some? ==> FreedCtx(s, t) < |s.ctxs| && bt == s.ctxs[FreedCtx(s, t)].bt
    ensures Exec(s0, Looking(before, t, bt, bt in s.table)).Some?
    ensures LookedUp(s, Exec(s0, Looking(before, t, bt, bt in s.table)).value, t, bt)
  {
    InvGrounded(s, t);
    Advance(s0, before, s, t, Enter(bt));
    var a, entered := AfterEnter(s, t, bt), Then(before, t, Enter(bt));
    if bt in s.table {
      KnownCompletes(s0, entered, a, t, bt);
    } else {
      NewCompletes(s0, entered, a, t, bt);
    }
  }

  lemma KnownCompletes(s0: State, before: Run, s: State, t: Tid, bt: Backtrace)
    requires Exec(s0, before) == Some(s) && Inv(s) && t < |s.threads| && bt in s.table
    requires s.threads[t].work == Rest && s.threads[t].lookup == Entered(bt)
    ensures var run := Then(Then(Then(before, t, Search), t, Increment), t, Link);
            && Exec(s0, run).Some?
            && LookedUp(s.(threads := s.threads[t := s.threads[t].(lookup := Idle)]), Exec(s0, run).value, t, bt)
  {
    InvGrounded(s, t);
    assert ThreadOk(s, t);
    Advance(s0, before, s, t, Search);
    FoundCompletes(s0, Then(before, t, Search), AfterSearch(s, t), t, s.threads[t].(lookup := Idle), bt);
  }

  lemma FoundCompletes(s0: State, before: Run, s: State, t: Tid, th: Thread, bt: Backtrace)
    requires Exec(s0, before) == Some(s) && Inv(s) && t < |s.threads| && bt in s.table
    requires s.threads[t] == th.(lookup := Found(s.table[bt])) && th.work == Rest && th.lookup == Idle
    ensures var run := Then(Then(before, t, Increment), t, Link);
            Exec(s0, run).Some? && LookedUp(s.(threads := s.threads[t := th]), Exec(s0, run).value, t, bt)
  {
    InvGrounded(s, t);
    assert ThreadOk(s, t);
    Advance(s0, before, s, t, Increment);
    var a := AfterIncrement(s, t);
    LinkCompletes(s0, Then(before, t, Increment), a, t);
    LinkedUp(s, a, Exec(s0, Then(Then(before, t, Increment), t, Link)).value, t, th, bt);
  }

  lemma LinkedUp(s: State, a: State, r: State, t: Tid, th: Thread, bt: Backtrace)
    requires Inv(s) && t < |s.threads| && bt in s.table && th.work == Rest && th.lookup == Idle
    requires s.threads[t] == th.(lookup := Found(s.table[bt])) && Grounded(s, t) && a == AfterIncrement(s, t)
    requires bt !in th.cache
    requires var c := s.table[bt];
             && Inv(r) && Linked(r, c) && r.ctxs[c].bt == bt && r.ctxs[c].Has(t)
             && r.ctxs[c].cnts[t] == Some(ZERO) && c < |a.ctxs| && r.ctxs[c].nlimbo == a.ctxs[c].nlimbo - 1
             && r == a.(ctxs := r.ctxs, threads := a.threads[t := th.(cache := th.cache[bt := c])])
    ensures LookedUp(s.(threads := s.threads[t := th]), r, t, bt)
  {}

  lemma NewCompletes(s0: State, before: Run, s: State, t: Tid, bt: Backtrace)
    requires Exec(s0, before) == Some(s) && Inv(s) && t < |s.threads| && bt !in s.table
    requires s.threads[t].work == Rest && s.threads[t].lookup == Entered(bt)
    ensures var run := Then(Then(before, t, Create), t, Link);
            && Exec(s0, run).Some?
            && LookedUp(s.(threads := s.threads[t := s.threads[t].(lookup := Idle)]), Exec(s0, run).value, t, bt)
  {
    InvGrounded(s, t);
    assert ThreadOk(s, t);
    Advance(s0, before, s, t, Create);
    LinkCompletes(s0, Then(before, t, Create), AfterCreate(s, t), t);
  }

  /** The end of a lookup. */
  lemma LinkCompletes(s0: State, before: Run, s: State, t: Tid)
    requires Exec(s0, before) == Some(s) && Inv(s) && t < |s.threads| && s.threads[t].work == Rest
    requires s.threads[t].lookup.Limbo? && s.holder == None
    ensures var run, c := Then(before, t, Link), s.threads[t].lookup.ctx;
            && Exec(s0, run).Some? && c < |s.ctxs| && s.ctxs[c].bt !in s.threads[t].cache
            && var r := Exec(s0, run).value;
            && Inv(r) && Linked(r, c) && r.ctxs[c].bt == s.ctxs[c].bt && r.ctxs[c].Has(t)
            && r.ctxs[c].cnts[t] == Some(ZERO) && r.ctxs[c].nlimbo == s.ctxs[c].nlimbo - 1
            && r == s.(ctxs := r.ctxs, threads := s.threads[t := s.threads[t].(
                       lookup := Idle, cache := s.threads[t].cache[s.ctxs[c].bt := c])])
  {
    InvGrounded(s, t);
    assert ThreadOk(s, t);
    Advance(s0, before, s, t, Link);
    var r := AfterLink(s, t);
    assert ThreadOk(r, t);
  }

  /** A sampled object is counted: one object more, of its size, in its context only. */
  lemma SampleCounts(s: State, t: Tid, bt: Backtrace, size: nat)
    requires Inv(s) && t < |s.threads| && Ready(s.threads[t]) && s.threads[t].freeing == None
    requires bt in s.threads[t].cache
    ensures Enabled(s, t, Sample(bt, size)) && Grounded(s, t)
    ensures var r, c := Do(s, t, Sample(bt, size)), s.threads[t].cache[bt];
            && Inv(r) && c < |s.ctxs| && s.ctxs[c].bt == bt
            && |r.objects| == |s.objects| + 1 && r.objects[|s.objects|].alive && r.objects[..|s.objects|] == s.objects
            && forall d :: Moved(Live(r.objects, d), Live(s.objects, d), ZERO,
                                 if d == c then Cnt(1, size, 1) else ZERO)
  {
    InvGrounded(s, t);
    assert ThreadOk(s, t);
    StepInv(s, t, Sample(bt, size));
    var r, c := Do(s, t, Sample(bt, size)), s.threads[t].cache[bt];
    forall d ensures Moved(Live(r.objects, d), Live(s.objects, d), ZERO, if d == c then Cnt(1, size, 1) else ZERO) {
      LiveAppend(s.objects, Sampled(c, size, true), d);
    }
  }

  /** The way of a thread through prof_free. */
  function Freeing(before: Run, t: Tid, o: Object, bt: Backtrace, cached: bool, known: bool): Run
  {
    var started := Then(before, t, StartFree(o));
    Then(if cached then started else Looking(started, t, bt, known), t, Uncharge)
  }

  /** The object is dead, and nothing else: its context counts one object less. */
  ghost predicate FreedObject(s: State, r: State, t: Tid, o: Object)
    requires o < |s.objects| && t < |s.threads|
  {
    && Inv(r) && |r.objects| == |s.objects| && !r.objects[o].alive
    && (forall p :: 0 <= p < |s.objects| && p != o ==> r.objects[p] == s.objects[p])
    && (forall d :: Moved(Live(r.objects, d), Live(s.objects, d),
                          if d == s.objects[o].ctx then Cnt(1, s.objects[o].size, 0) else ZERO, ZERO))
    && t < |r.threads| && Ready(r.threads[t]) && r.threads[t].freeing == None && r.holder == None
  }

  /** When the mutex is free and there is memory, a free uncharges the object. */
  lemma FreeCompletes(s0: State, before: Run, s: State, t: Tid, o: Object)
    requires Exec(s0, before) == Some(s) && Inv(s)
    requires t < |s.threads| && Ready(s.threads[t]) && s.threads[t].freeing == None && s.holder == None
    requires o < |s.objects| && s.objects[o].alive
    requires forall u :: 0 <= u < |s.threads| ==> s.threads[u].freeing != Some(o)
    ensures s.objects[o].ctx < |s.ctxs|
    ensures var bt := s.ctxs[s.objects[o].ctx].bt;
            var run := Freeing(before, t, o, bt, bt in s.threads[t].cache, bt in s.table);
            Exec(s0, run).Some? && FreedObject(s, Exec(s0, run).value, t, o)
  {
    InvGrounded(s, t);
    Advance(s0, before, s, t, StartFree(o));
    var a, started := AfterStartFree(s, t, o), Then(before, t, StartFree(o));
    var bt := s.ctxs[s.objects[o].ctx].bt;
    if bt in s.threads[t].cache {
      UnchargeCompletes(s0, started, a, t, o);
    } else {
      LookupCompletes(s0, started, a, t, bt);
      var run := Looking(started, t, bt, bt in s.table);
      var b := Exec(s0, run).value;
      UnchargeCompletes(s0, run, b, t, o);
    }
  }

  lemma UnchargeCompletes(s0: State, before: Run, s: State, t: Tid, o: Object)
    requires Exec(s0, before) == Some(s) && Inv(s) && t < |s.threads| && Ready(s.threads[t]) && s.holder == None
    requires s.threads[t].freeing == Some(o) && o < |s.objects| && s.objects[o].ctx < |s.ctxs|
    requires s.ctxs[s.objects[o].ctx].bt in s.threads[t].cache
    ensures Exec(s0, Then(before, t, Uncharge)).Some?
    ensures FreedObject(s, Exec(s0, Then(before, t, Uncharge)).value, t, o)
  {
    InvGrounded(s, t);
    assert ThreadOk(s, t);
    Advance(s0, before, s, t, Uncharge);
    FreedLive(s, t);
  }
}
