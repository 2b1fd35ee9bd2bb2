/** How crash replay ends: a pin is given up only by a replay that looks while its version's
    slot is not live; without such a look every pin taken is given back, once, and no count
    is left (crates/shm-artifact/src/artifact.rs, release_leaked_pin;
    crates/shm-artifact/src/head.rs, try_unpin). */
module ReplayEnds {
  import opened Common
  import opened Replay

  /** The next step is a replay that looks for its version's slot while that is not live. */
  predicate Misses(s: State, a: Act) {
    a.Go? && ThreadOf(s, a.t).pc.ReplayFind? && ThreadOf(s, a.t).pin.v in s.freeing
  }

  lemma LeakFacts(s: State, t: nat)
    requires !ThreadOf(s, t).pc.Idle?
    ensures Act1(ThreadOf(s, t), ViewOf(s, ThreadOf(s, t))).leaks <==> Misses(s, Go(t))
  {
  }

  /** A pin is given up exactly when a replay looks while the slot is not live. */
  lemma LeaksIff(s: State, a: Act)
    ensures Step(s, a).leaked ==
            if Misses(s, a) then s.leaked + multiset{ThreadOf(s, a.t).pin.v} else s.leaked
  {
    if a.Go? && !ThreadOf(s, a.t).pc.Idle? {
      LeakFacts(s, a.t);
      hide Act1;
    }
  }

  // ---- Where every pin is ----

  ghost predicate Owned(s: State, id: nat) {
    exists t: nat :: OwnsPin(ThreadOf(s, t), id)
  }

  predicate OwnsPin(th: Thread, id: nat) {
    Owns(th) && th.pin.id == id
  }

  ghost predicate Recorded(s: State, id: nat) {
    exists r: nat :: r in s.bits && EntryAt(s, r).id == id
  }

  /** Every pin ever taken is owned by a thread or a set bit, or was given back. */
  ghost predicate Complete(s: State) {
    forall id: nat :: id < s.next ==> Placed(s, id)
  }

  ghost predicate Placed(s: State, id: nat) {
    Owned(s, id) || Recorded(s, id) || id in s.spent
  }

  lemma GoPlaced(s: State, t: nat, id: nat)
    requires Positive(s) && Same(s) && !ThreadOf(s, t).pc.Idle? && Placed(s, id) && !Misses(s, Go(t))
    ensures Placed(OpStep(s, t), id)
  {
    LeakFacts(s, t);
    var e := GoFacts(s, t);
    var th, s' := ThreadOf(s, t), OpStep(s, t);
    GoesOn(s, t, e);
    hide OpStep, Act1;
    if Owned(s, id) {
      var u: nat :| OwnsPin(ThreadOf(s, u), id);
      assert u != t ==> OwnsPin(ThreadOf(s', u), id);
      if u == t && Owns(e.th) {
        assert OwnsPin(ThreadOf(s', t), id);
      }
    } else if Recorded(s, id) {
      var r: nat :| r in s.bits && EntryAt(s, r).id == id;
      if e.clears && th.r == r {
        assert th.pin == EntryAt(s, r);
        assert OwnsPin(ThreadOf(s', t), id);
      } else {
        assert r in s'.bits && EntryAt(s', r).id == id;
      }
    }
  }

  lemma GoesOn(s: State, t: nat, e: Effect)
    requires OpStep(s, t) == Apply(s, t, ThreadOf(s, t), e)
    ensures var s', th := OpStep(s, t), ThreadOf(s, t);
            && s'.entries == s.entries && s'.next == s.next
            && s'.bits == (if e.clears then s.bits - {th.r} else s.bits)
            && s'.spent == (if e.gives then s.spent + [th.pin.id] else s.spent)
            && e.leaks == Act1(th, ViewOf(s, th)).leaks
  {
    var th := ThreadOf(s, t);
    var f := Act1(th, ViewOf(s, th));
    hide Act1;
    assert Apply(s, t, th, e).leaked == Apply(s, t, th, f).leaked;
  }

  /** A pin given up is nowhere any more. */
  lemma MissLoses(s: State, t: nat)
    requires Ledger(s) && Misses(s, Go(t))
    ensures ThreadOf(s, t).pin.id < OpStep(s, t).next && !Placed(OpStep(s, t), ThreadOf(s, t).pin.id)
  {
    var th, s', id := ThreadOf(s, t), OpStep(s, t), ThreadOf(s, t).pin.id;
    assert s'.threads == s.threads[t := RESTING] && s'.bits == s.bits && s'.entries == s.entries && s'.spent == s.spent;
    ThreadsAfter(s, s', t, RESTING);
    assert Works(th) && Owns(th);
    assert forall r: nat {:trigger EntryAt(s', r)} :: EntryAt(s', r) == EntryAt(s, r);
    hide OpStep, Private, Same;
  }

  lemma OtherPlaced(s: State, a: Act, id: nat)
    requires !a.Go? && id < Step(s, a).next && (id < s.next ==> Placed(s, id))
    ensures Placed(Step(s, a), id)
  {
    var s' := Step(s, a);
    if a.Take? && s' != s && id == s.next {
      assert OwnsPin(ThreadOf(s', a.t), id);
    } else if Owned(s, id) {
      var u: nat :| OwnsPin(ThreadOf(s, u), id);
      if Records(s, a) && u == a.t {
        assert a.r in s'.bits && EntryAt(s', a.r).id == id;
      } else {
        assert OwnsPin(ThreadOf(s', u), id);
      }
    } else if Recorded(s, id) {
      var r: nat :| r in s.bits && EntryAt(s, r).id == id;
      assert r in s'.bits && EntryAt(s', r).id == id;
    }
  }

  /** Every pin stays accounted for over a step exactly when the step is not a miss. */
  lemma CompleteStep(s: State, a: Act)
    requires Positive(s) && Ledger(s) && Complete(s)
    ensures Complete(Step(s, a)) <==> !Misses(s, a)
  {
    hide Placed, OpStep, Positive, Issued, Single, Same, Private;
    if Misses(s, a) {
      MissLoses(s, a.t);
    } else if a.Go? {
      if !ThreadOf(s, a.t).pc.Idle? {
        GoNext(s, a.t);
        forall id: nat | id < s.next
          ensures Placed(OpStep(s, a.t), id)
        {
          GoPlaced(s, a.t, id);
        }
      }
    } else {
      forall id: nat | id < Step(s, a).next
        ensures Placed(Step(s, a), id)
      {
        OtherPlaced(s, a, id);
      }
    }
  }

  lemma GoNext(s: State, t: nat)
    ensures OpStep(s, t).next == s.next
  {
  }

  // ---- Whole runs ----

  /** No replay ever looks while its version's slot is not live. */
  ghost predicate NeverMisses(acts: seq<Act>) {
    |acts| == 0
    || (NeverMisses(acts[..|acts| - 1]) && !Misses(Run(START, acts[..|acts| - 1]), acts[|acts| - 1]))
  }

  lemma UntakenIsClean(s: State, a: Act)
    requires Untaken(s, a)
    ensures Clean(s, a)
  {
  }

  lemma {:induction false} UntakenRunsClean(acts: seq<Act>)
    requires UntakenRun(acts)
    ensures CleanRun(acts)
  {
    hide Untaken, Clean, Step;
    if |acts| > 0 {
      UntakenRunsClean(acts[..|acts| - 1]);
      UntakenIsClean(Run(START, acts[..|acts| - 1]), acts[|acts| - 1]);
    }
  }

  lemma {:induction false} LeakedIff(acts: seq<Act>)
    ensures Run(START, acts).leaked == multiset{} <==> NeverMisses(acts)
  {
    hide Step, Misses;
    if |acts| > 0 {
      LeakedIff(acts[..|acts| - 1]);
      LeaksIff(Run(START, acts[..|acts| - 1]), acts[|acts| - 1]);
    }
  }

  lemma {:induction false} RunComplete(acts: seq<Act>)
    requires UntakenRun(acts) && NeverMisses(acts)
    ensures Complete(Run(START, acts))
  {
    hide Step, Complete, Ledger, Inv, Misses, Untaken;
    if |acts| == 0 {
      NothingTaken();
    } else {
      var before := acts[..|acts| - 1];
      RunComplete(before);
      RunLedger(before);
      UntakenRunsClean(before);
      RunInv(before);
      HasPositive(Run(START, before));
      CompleteStep(Run(START, before), acts[|acts| - 1]);
    }
  }

  lemma NothingTaken()
    ensures Complete(START)
  {
  }

  lemma HasPositive(s: State)
    requires Inv(s)
    ensures Positive(s)
  {
  }

  lemma IdleMeansSpent(s: State, id: nat)
    requires Complete(s) && Manned(s) && id < s.next && forall t: nat :: ThreadOf(s, t).pc.Idle?
    ensures id in s.spent
  {
    assert Placed(s, id);
    assert s.bits == {};
  }

  /** Once every thread is done, in a run that records no index someone names: no count is
      left exactly when no replay missed its slot, and then every pin ever taken was given
      back, and given back once. */
  lemma AllGivenBack(acts: seq<Act>)
    requires UntakenRun(acts) && forall t: nat :: ThreadOf(Run(START, acts), t).pc.Idle?
    ensures (forall v: nat :: PinsOf(Run(START, acts), v) == 0) <==> NeverMisses(acts)
    ensures NeverMisses(acts) ==>
              var s := Run(START, acts);
              Distinct(s.spent) && forall id: nat :: id < s.next <==> id in s.spent
  {
    hide Step, Complete, Manned, Misses, Untaken;
    var s := Run(START, acts);
    UntakenRunsClean(acts);
    LeakedIff(acts);
    forall v: nat
      ensures PinsOf(s, v) == s.leaked[v]
    {
      OnlyMissesLeak(acts, v);
    }
    if !NeverMisses(acts) {
      var v :| v in s.leaked;
      assert PinsOf(s, v) == s.leaked[v] > 0;
    } else {
      RunKept(acts);
      RunComplete(acts);
      RunLedger(acts);
      SpentIssued(s);
      forall id: nat | id < s.next
        ensures id in s.spent
      {
        IdleMeansSpent(s, id);
      }
    }
  }

  lemma SpentIssued(s: State)
    requires Ledger(s)
    ensures Distinct(s.spent) && forall id: nat :: id in s.spent ==> id < s.next
  {
  }

  // ---- One replay, alone ----

  function Gone(s: State, t: nat, k: nat): State {
    if k == 0 then s else Step(Gone(s, t, k - 1), Go(t))
  }

  function At(s: State, t: nat, th: Thread): State {
    s.(threads := s.threads[t := th])
  }

  lemma Goes(s: State, t: nat, th: Thread)
    requires !th.pc.Idle?
    ensures var e := Act1(th, ViewOf(s, th));
            Step(At(s, t, th), Go(t)) ==
            At(Apply(s, t, th, e).(threads := s.threads), t, e.th)
  {
    hide Act1;
    var e := Act1(th, ViewOf(s, th));
    assert ThreadOf(At(s, t, th), t) == th;
    assert EntryAt(At(s, t, th), th.r) == EntryAt(s, th.r);
    assert s.threads[t := th][t := e.th] == s.threads[t := e.th];
  }

  /** A replay of a dead actor's index that nobody disturbs gives the pin back, whatever the
      count: the bit is cleared, the count goes down by one, and the pin is on record. */
  lemma ReplayAlone(s: State, t: nat, r: nat)
    requires Inv(s) && ThreadOf(s, t).pc.Idle? && r in s.dead && r in s.bits && EntryAt(s, r).v !in s.freeing
    ensures var pin := EntryAt(s, r);
            Gone(Step(s, Reap(t, r)), t, 5) ==
            At(s.(pins := s.pins[pin.v := PinsOf(s, pin.v) - 1], bits := s.bits - {r}, spent := s.spent + [pin.id]), t, RESTING)
  {
    hide *;
    var pin, th := EntryAt(s, r), Thread(ReplayRead, Pin(0, 0), r, 0);
    var s1 := s.(bits := s.bits - {r});
    RecordCounted(s, r);
    Reaps(s, t, r);
    SameCount(s, s1, pin.v);
    Clears(s, t, r);
    Unpins(At(s, t, th), s1, t, Thread(ReplayFind, pin, r, 0));
  }

  lemma Reaps(s: State, t: nat, r: nat)
    requires ThreadOf(s, t).pc.Idle? && r in s.dead && r in s.bits
    ensures Step(s, Reap(t, r)) == At(s, t, Thread(ReplayRead, Pin(0, 0), r, 0))
  {
  }

  lemma SameCount(s: State, s': State, v: nat)
    requires s'.pins == s.pins
    ensures PinsOf(s', v) == PinsOf(s, v)
  {
  }

  lemma Clears(s: State, t: nat, r: nat)
    requires r in s.bits
    ensures Gone(At(s, t, Thread(ReplayRead, Pin(0, 0), r, 0)), t, 2)
            == At(s.(bits := s.bits - {r}), t, Thread(ReplayFind, EntryAt(s, r), r, 0))
  {
    var s0, th := At(s, t, Thread(ReplayRead, Pin(0, 0), r, 0)), Thread(ReplayClear, EntryAt(s, r), r, 0);
    hide Step;
    assert Gone(s0, t, 0) == s0;
    Goes(s, t, Thread(ReplayRead, Pin(0, 0), r, 0));
    assert Gone(s0, t, 1) == At(s, t, th);
    Goes(s, t, th);
  }

  lemma Unpins(s0: State, s: State, t: nat, th: Thread)
    requires Gone(s0, t, 2) == At(s, t, th) && th.pc.ReplayFind? && th.pin.v !in s.freeing && PinsOf(s, th.pin.v) != 0
    ensures Gone(s0, t, 5) ==
            At(s.(pins := s.pins[th.pin.v := PinsOf(s, th.pin.v) - 1], spent := s.spent + [th.pin.id]), t, RESTING)
  {
    hide Step;
    var n := PinsOf(s, th.pin.v);
    Goes(s, t, th);
    assert Gone(s0, t, 3) == At(s, t, th.(pc := ReplayLoad));
    Goes(s, t, th.(pc := ReplayLoad));
    assert Gone(s0, t, 4) == At(s, t, th.(pc := ReplaySwap, seen := n));
    Goes(s, t, th.(pc := ReplaySwap, seen := n));
  }

  lemma RecordCounted(s: State, r: nat)
    requires Inv(s) && r in s.bits
    ensures PinsOf(s, EntryAt(s, r).v) > 0
  {
    var v := EntryAt(s, r).v;
    assert r in BitsOn(s, v);
    assert PinsOf(s, v) == Owed(s, v);
  }

  /** A holder's drop that nobody forestalled gives its pin back in the same way. */
  lemma DropAlone(s: State, t: nat, th: Thread)
    requires th.pc.Reading? && th.r in s.bits
    ensures Gone(At(s, t, th), t, 2) ==
            At(s.(pins := s.pins[th.pin.v := PinsOf(s, th.pin.v) - 1], bits := s.bits - {th.r}, spent := s.spent + [th.pin.id]),
               t, RESTING)
  {
    var s0, s1 := At(s, t, th), s.(bits := s.bits - {th.r});
    assert Gone(s0, t, 0) == s0;
    Goes(s, t, th);
    assert Gone(s0, t, 1) == At(s1, t, th.(pc := Won));
    Goes(s1, t, th.(pc := Won));
  }
}
