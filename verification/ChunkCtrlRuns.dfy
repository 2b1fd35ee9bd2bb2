/** A run of the control word, from a chunk never used, in which a reclaim overtaken between
    its two loads frees the next occupancy under its owner. */
module ChunkCtrlRuns {
  import opened Common
  import opened ChunkCtrl

  ghost predicate Reached(s: State) {
    exists sched: Schedule :: Run(Fresh(0), sched) == s
  }

  /** Thread t leaves `th` and the control word `c`. */
  function With(s: State, c: Ctrl, t: nat, th: Thread): State {
    State(c, s.threads[t := th])
  }

  lemma Then(s: State, t: nat, a: Act, c: Ctrl, th: Thread)
    requires Reached(s) && Act1(ThreadOf(s, t), s.ctrl, a) == Effect(th, c)
    ensures Reached(With(s, c, t, th))
  {
    hide Act1;
    var sched :| Run(Fresh(0), sched) == s;
    var longer := sched + [(t, a)];
    assert longer[..|longer| - 1] == sched;
    assert Run(Fresh(0), longer) == With(s, c, t, th);
  }

  function At(pc: Pc): Thread {
    RESTING.(pc := pc)
  }

  /** Thread t steps on, having put `pc` in the state before. */
  lemma Hop(s: State, c0: Ctrl, t: nat, th0: Thread, a: Act, c: Ctrl, th: Thread)
    requires Reached(With(s, c0, t, th0)) && Act1(th0, c0, a) == Effect(th, c)
    ensures Reached(With(s, c, t, th))
  {
    hide Act1, Reached;
    Then(With(s, c0, t, th0), t, a, c, th);
    assert s.threads[t := th0][t := th] == s.threads[t := th];
  }

  /** An idle thread loans a free chunk, publishes it, and owns it. */
  lemma Occupies(s: State, t: nat)
    requires Reached(s) && ThreadOf(s, t) == RESTING && s.ctrl.word == EMPTY && !s.ctrl.owned
    ensures Reached(With(s, s.ctrl.(word := Word(Published, 0), owned := true, loans := s.ctrl.loans + 1), t, At(OwnerHeld)))
  {
    hide Reached;
    var c := s.ctrl;
    var loaned := c.(word := Word(Loaned, 0), loans := c.loans + 1);
    var owned := loaned.(owned := true);
    Then(s, t, Loan, c, At(LoanSwap));
    Hop(s, c, t, At(LoanSwap), Go, loaned, At(LoanOwner));
    Hop(s, loaned, t, At(LoanOwner), Go, owned, At(LoanHeld));
    Hop(s, owned, t, At(LoanHeld), Publish, owned, At(PublishSwap).(seen := Word(Loaned, 0)));
    Hop(s, owned, t, At(PublishSwap).(seen := Word(Loaned, 0)), Go, owned.(word := Word(Published, 0)), At(OwnerHeld));
  }

  /** An idle thread takes and gives back the only reference to an owned chunk: it goes on
      to look whether it should reclaim. */
  lemma BorrowsAndReleases(s: State, t: nat)
    requires Reached(s) && ThreadOf(s, t) == RESTING && s.ctrl.word == Word(Published, 0) && s.ctrl.owned
    ensures Reached(With(s, s.ctrl, t, At(ReclaimOwner)))
  {
    hide Reached;
    var c, one := s.ctrl, Word(Published, 1);
    var held := c.(word := one);
    Then(s, t, Borrow, c, At(BorrowLoad));
    Hop(s, c, t, At(BorrowLoad), Go, c, At(BorrowSwap).(seen := c.word));
    Hop(s, c, t, At(BorrowSwap).(seen := c.word), Go, held, At(RefHeld));
    Hop(s, held, t, At(RefHeld), Go, held, At(ReleaseOwner).(seen := one));
    Hop(s, held, t, At(ReleaseOwner).(seen := one), Go, held, At(ReleaseSwap).(seen := one));
    Hop(s, held, t, At(ReleaseSwap).(seen := one), Go, c, At(ReclaimOwner));
  }

  /** The owner leaves; thread 1 sees it gone; the owner reclaims first. */
  lemma Overtaken(s: State)
    requires Reached(s) && s.ctrl.word == Word(Published, 0) && s.ctrl.owned
    requires ThreadOf(s, 0) == At(OwnerHeld) && ThreadOf(s, 1) == At(ReclaimOwner)
    ensures var c := s.ctrl.(word := EMPTY, owned := false, generation := s.ctrl.generation + 1, frees := s.ctrl.frees + 1);
            Reached(State(c, s.threads[1 := At(ReclaimSwap)][0 := RESTING]))
  {
    hide Reached;
    var left := s.ctrl.(owned := false);
    var freed := left.(word := EMPTY, frees := s.ctrl.frees + 1);
    Then(s, 0, Go, left, At(ReclaimOwner));
    Then(With(s, left, 0, At(ReclaimOwner)), 1, Go, left, At(ReclaimSwap));
    var r := With(s, left, 1, At(ReclaimSwap));
    assert s.threads[0 := At(ReclaimOwner)][1 := At(ReclaimSwap)] == r.threads[0 := At(ReclaimOwner)];
    Hop(r, left, 0, At(ReclaimOwner), Go, left, At(ReclaimSwap));
    Hop(r, left, 0, At(ReclaimSwap), Go, freed, At(Bump));
    Hop(r, freed, 0, At(Bump), Go, freed.(generation := s.ctrl.generation + 1), RESTING);
  }

  /** A chunk can be freed under its owner: thread 1's reclaim, overtaken by the first owner's,
      frees the occupancy thread 2 published and still owns. */
  lemma FreedUnderOwner() returns (sched: Schedule)
    ensures var s := Run(Fresh(0), sched);
            s.ctrl.word == EMPTY && s.ctrl.owned && ThreadOf(s, 2).pc.OwnerHeld?
    ensures !CleanRun(Fresh(0), sched)
  {
    var s := Frees();
    sched :| Run(Fresh(0), sched) == s;
    NotClean(sched);
  }

  lemma NotClean(sched: Schedule)
    requires var s := Run(Fresh(0), sched); s.ctrl.word == EMPTY && ThreadOf(s, 2).pc.OwnerHeld?
    ensures !CleanRun(Fresh(0), sched)
  {
    hide Run, CleanRun, Inv, Fresh;
    if CleanRun(Fresh(0), sched) {
      FreshInv(0);
      RunInv(Fresh(0), sched);
      OwnerThere(Run(Fresh(0), sched), 2);
    }
  }

  lemma OwnerThere(s: State, t: nat)
    requires Inv(s) && ThreadOf(s, t).pc.OwnerHeld?
    ensures s.ctrl.word.state.Published?
  {
    assert LocalOk(ThreadOf(s, t), s.ctrl);
  }

  lemma Frees() returns (s: State)
    ensures Reached(s) && s.ctrl.word == EMPTY && s.ctrl.owned && ThreadOf(s, 2).pc.OwnerHeld?
  {
    assert Run(Fresh(0), []) == Fresh(0);
    assert Reached(Fresh(0));
    hide Reached;
    Occupies(Fresh(0), 0);
    var s1 := With(Fresh(0), Ctrl(Word(Published, 0), true, 0, 1, 0), 0, At(OwnerHeld));
    BorrowsAndReleases(s1, 1);
    var s2 := With(s1, s1.ctrl, 1, At(ReclaimOwner));
    Overtaken(s2);
    var s3 := State(Ctrl(EMPTY, false, 1, 1, 1), s2.threads[1 := At(ReclaimSwap)][0 := RESTING]);
    Occupies(s3, 2);
    var s4 := With(s3, Ctrl(Word(Published, 0), true, 1, 2, 1), 2, At(OwnerHeld));
    s := With(s4, Ctrl(EMPTY, true, 1, 2, 2), 1, At(Bump));
    Then(s4, 1, Go, s.ctrl, At(Bump));
  }
}
