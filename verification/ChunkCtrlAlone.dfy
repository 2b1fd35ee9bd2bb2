/** What each operation on a chunk's control word does when nobody interferes. */
module ChunkCtrlAlone {
  import opened Common
  import opened ChunkCtrl

  /** Thread t at `pc`, and the control word as given. */
  function At(s: State, t: nat, pc: Pc, c: Ctrl): State {
    State(c, s.threads[t := RESTING.(pc := pc)])
  }

  /** Thread t's next step, from th over c. */
  lemma Steps(s: State, t: nat, th: Thread, c: Ctrl, a: Act)
    ensures var e := Act1(th, c, a);
            Step(State(c, s.threads[t := th]), t, a) == State(e.ctrl, s.threads[t := e.th])
  {
    hide Act1;
    assert s.threads[t := th][t := Act1(th, c, a).th] == s.threads[t := Act1(th, c, a).th];
  }

  /** A borrow of a published chunk succeeds whatever its count, and adds one reference; any
      other borrow leaves no trace. */
  lemma BorrowAlone(s: State, t: nat)
    requires ThreadOf(s, t).pc.Idle?
    ensures var c := s.ctrl;
            Step(Step(Step(s, t, Borrow), t, Go), t, Go) ==
            if c.word.state.Published? then At(s, t, RefHeld, c.(word := Word(Published, c.word.refs + 1)))
            else At(s, t, Idle, c)
  {
    var c := s.ctrl;
    var th := RESTING.(pc := BorrowLoad);
    assert Step(s, t, Borrow) == State(c, s.threads[t := th]);
    Steps(s, t, th, c, Go);
    Steps(s, t, th.(pc := BorrowSwap, seen := c.word), c, Go);
  }

  /** A loan of a free chunk succeeds and takes ownership; any other leaves no trace. */
  lemma LoanAlone(s: State, t: nat)
    requires ThreadOf(s, t).pc.Idle?
    ensures var c, s1 := s.ctrl, Step(Step(s, t, Loan), t, Go);
            if c.word == EMPTY then
              Step(s1, t, Go) == At(s, t, LoanHeld, c.(word := Word(Loaned, 0), owned := true, loans := c.loans + 1))
            else s1 == At(s, t, Idle, c)
  {
    var c := s.ctrl;
    assert Step(s, t, Loan) == State(c, s.threads[t := RESTING.(pc := LoanSwap)]);
    Steps(s, t, RESTING.(pc := LoanSwap), c, Go);
    Steps(s, t, RESTING.(pc := LoanOwner), c.(word := Word(Loaned, 0), loans := c.loans + 1), Go);
  }

  /** A loan holder publishes its chunk and stays its owner. */
  lemma PublishAlone(s: State, t: nat, c: Ctrl)
    requires c.word.state.Loaned?
    ensures Step(Step(At(s, t, LoanHeld, c), t, Publish), t, Go)
            == At(s, t, OwnerHeld, c.(word := Word(Published, c.word.refs)))
  {
    hide Step;
    Steps(s, t, RESTING.(pc := LoanHeld), c, Publish);
    Steps(s, t, RESTING.(pc := PublishSwap, seen := c.word), c, Go);
  }

  /** The chunk is free again, under the next generation. */
  function Recycled(c: Ctrl): Ctrl {
    c.(word := EMPTY, frees := c.frees + 1, generation := c.generation + 1)
  }

  /** A loan dropped without publishing frees the chunk. */
  lemma DropAlone(s: State, t: nat, c: Ctrl)
    requires c.word.state.Loaned?
    ensures Step(Step(Step(Step(At(s, t, LoanHeld, c), t, DropLoan), t, Go), t, Go), t, Go)
            == At(s, t, Idle, Recycled(c).(owned := false))
  {
    hide Step;
    var freed := c.(word := EMPTY, frees := c.frees + 1);
    Steps(s, t, RESTING.(pc := LoanHeld), c, DropLoan);
    Steps(s, t, RESTING.(pc := DropSwap, seen := c.word), c, Go);
    Steps(s, t, RESTING.(pc := DropOwner), freed, Go);
    Steps(s, t, RESTING.(pc := Bump), freed.(owned := false), Go);
  }

  /** A reader gives its reference back: the count goes down by one, and the last reference
      of a chunk without an owner frees it. */
  lemma ReleaseAlone(s: State, t: nat, c: Ctrl)
    requires c.word.state.Published? && c.word.refs > 0
    ensures var s1 := Step(Step(Step(At(s, t, RefHeld, c), t, Go), t, Go), t, Go);
            var less := c.(word := Word(Published, c.word.refs - 1));
            if c.word.refs > 1 then s1 == At(s, t, Idle, less)
            else Step(s1, t, Go) == At(s, t, Idle, if c.owned then less else Recycled(c))
  {
    hide Step;
    var th := RESTING.(pc := ReleaseOwner, seen := c.word);
    Steps(s, t, RESTING.(pc := RefHeld), c, Go);
    Steps(s, t, th, c, Go);
    Steps(s, t, th.(pc := ReleaseSwap, gone := !c.owned), c, Go);
    Steps(s, t, RESTING.(pc := Bump), c.(word := EMPTY, frees := c.frees + 1), Go);
    Steps(s, t, RESTING.(pc := ReclaimOwner), c.(word := Word(Published, 0)), Go);
  }

  /** The owner lets go: a chunk nobody else references is freed, any other is left to the
      last reader. */
  lemma DisownAlone(s: State, t: nat, c: Ctrl)
    ensures var s1 := Step(Step(Step(At(s, t, OwnerHeld, c), t, Go), t, Go), t, Go);
            var left := c.(owned := false);
            if c.word == Word(Published, 0) then Step(s1, t, Go) == At(s, t, Idle, Recycled(left))
            else s1 == At(s, t, Idle, left)
  {
    hide Step;
    var left := c.(owned := false);
    Steps(s, t, RESTING.(pc := OwnerHeld), c, Go);
    Steps(s, t, RESTING.(pc := ReclaimOwner), left, Go);
    Steps(s, t, RESTING.(pc := ReclaimSwap), left, Go);
    Steps(s, t, RESTING.(pc := Bump), left.(word := EMPTY, frees := c.frees + 1), Go);
  }

  // ---- Why a borrow gives up ----

  predicate Trying(pc: Pc) {
    pc.BorrowLoad? || pc.BorrowSwap?
  }

  /** Thread t is borrowing all along the schedule. */
  ghost predicate Tries(s: State, sched: Schedule, t: nat) {
    Trying(ThreadOf(Run(s, sched), t).pc) && (|sched| > 0 ==> Tries(s, sched[..|sched| - 1], t))
  }

  /** Somewhere along it, t stepped while the chunk was not published. */
  ghost predicate SawUnpublished(s: State, sched: Schedule, t: nat) {
    |sched| > 0
    && (var before, last := sched[..|sched| - 1], sched[|sched| - 1];
        SawUnpublished(s, before, t) || (last.0 == t && !Run(s, before).ctrl.word.state.Published?))
  }

  lemma TryStep(s: State, u: nat, a: Act, t: nat)
    requires Trying(ThreadOf(s, t).pc)
    ensures var th, th' := ThreadOf(s, t), ThreadOf(Step(s, u, a), t);
            && (Trying(th'.pc) ==> th' == th || (u == t && th'.pc.BorrowSwap? && th'.seen == s.ctrl.word))
            && (!Trying(th'.pc) ==> u == t && (th'.pc.RefHeld? || (th'.pc.Idle? && !th.seen.state.Published?)))
            && (th.pc.BorrowLoad? ==> Trying(th'.pc))
  {
  }

  lemma {:induction false} SeenUnpublished(s: State, sched: Schedule, t: nat)
    requires ThreadOf(s, t).pc.BorrowLoad? && Tries(s, sched, t)
    ensures var th := ThreadOf(Run(s, sched), t);
            th.pc.BorrowSwap? && !th.seen.state.Published? ==> SawUnpublished(s, sched, t)
  {
    hide Step;
    if |sched| > 0 {
      var before, last := sched[..|sched| - 1], sched[|sched| - 1];
      SeenUnpublished(s, before, t);
      TryStep(Run(s, before), last.0, last.1, t);
    }
  }

  /** In every schedule, a borrow ends with a reference, or it looked while the chunk was not
      published: losing a race to another thread only makes it look again. */
  lemma BorrowEnds(s: State, sched: Schedule, t: nat, u: nat, a: Act)
    requires ThreadOf(s, t).pc.BorrowLoad? && Tries(s, sched, t)
    requires !Trying(ThreadOf(Step(Run(s, sched), u, a), t).pc)
    ensures ThreadOf(Step(Run(s, sched), u, a), t).pc.RefHeld? || SawUnpublished(s, sched, t)
  {
    hide Step;
    SeenUnpublished(s, sched, t);
    TryStep(Run(s, sched), u, a, t);
  }

  /** Whatever the others do, a publish or a drop under way ends with its own transition, or
      after it saw the word not LOANED: losing a race only makes it look again. */
  lemma OwnerEnds(s: State, t: nat, u: nat, a: Act)
    requires ThreadOf(s, t).pc.PublishSwap? || ThreadOf(s, t).pc.DropSwap?
    ensures var th, th', s' := ThreadOf(s, t), ThreadOf(Step(s, u, a), t), Step(s, u, a);
            if th'.pc == th.pc then th' == th || (u == t && th' == th.(seen := s.ctrl.word))
            else if th'.pc.Idle? then !th.seen.state.Loaned? && s'.ctrl == s.ctrl
            else
              && u == t && s.ctrl.word == th.seen
              && s'.ctrl.word == (if th.pc.PublishSwap? then Word(Published, s.ctrl.word.refs) else EMPTY)
              && th'.pc == (if th.pc.PublishSwap? then OwnerHeld else DropOwner)
  {
  }
}
