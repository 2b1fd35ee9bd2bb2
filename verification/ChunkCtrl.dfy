/** One chunk's control word: state and reference count in a single atomic, the
    owner and the generation beside it; every load, store and compare-exchange is a
    step of its own (crates/shm-core/src/ctrl.rs). */
module ChunkCtrl {
  import opened Common

  datatype ChunkState = Free | Loaned | Published

  datatype Word = Word(state: ChunkState, refs: int)

  /** The instruction a thread is about to execute, or what it holds. */
  datatype Pc =
    | Idle | LoanSwap | LoanOwner | LoanHeld | PublishSwap | DropSwap | DropOwner | OwnerHeld
    | BorrowLoad | BorrowSwap | RefHeld | ReleaseOwner | ReleaseSwap | ReclaimOwner | ReclaimSwap | Bump

  /** A thread's instruction, the word it last saw, and whether it saw the owner
      gone. */
  datatype Thread = Thread(pc: Pc, seen: Word, gone: bool)

  /** `loans` counts the transitions out of FREE, one per occupancy; `frees` those back. */
  datatype Ctrl = Ctrl(word: Word, owned: bool, generation: nat, loans: nat, frees: nat)

  datatype State = State(ctrl: Ctrl, threads: map<nat, Thread>)

  /** What an idle thread starts, and what a loan holder does next. */
  datatype Act = Go | Loan | Borrow | Publish | DropLoan

  const RESTING: Thread := Thread(Idle, Word(Free, 0), false)
  const EMPTY: Word := Word(Free, 0)

  datatype Effect = Effect(th: Thread, ctrl: Ctrl)

  function To(pc: Pc, c: Ctrl): Effect {
    Effect(RESTING.(pc := pc), c)
  }

  /** The loan side: FREE to LOANED, then published or dropped. */
  function OwnerStep(th: Thread, c: Ctrl, a: Act): Effect {
    match th.pc
    case LoanSwap => if c.word == EMPTY then To(LoanOwner, c.(word := Word(Loaned, 0), loans := c.loans + 1)) else To(Idle, c)
    case LoanOwner => To(LoanHeld, c.(owned := true))
    case LoanHeld => Effect(th.(pc := if a.DropLoan? then DropSwap else PublishSwap, seen := c.word), c)
    case PublishSwap =>
      if th.seen.state != Loaned then To(Idle, c)
      else if c.word == th.seen then To(OwnerHeld, c.(word := Word(Published, th.seen.refs)))
      else Effect(th.(seen := c.word), c)
    case DropSwap =>
      if th.seen.state != Loaned then To(Idle, c)
      else if c.word == th.seen then To(DropOwner, c.(word := EMPTY, frees := c.frees + 1))
      else Effect(th.(seen := c.word), c)
    case DropOwner => To(Bump, c.(owned := false))
    case OwnerHeld => To(ReclaimOwner, c.(owned := false))
    case _ => Effect(th, c)
  }

  /** Taking and giving back a shared reference. The last release frees if it saw the
      owner gone; a release that reached zero otherwise tries to reclaim. */
  function SharedStep(th: Thread, c: Ctrl): Effect {
    match th.pc
    case BorrowLoad => Effect(th.(pc := BorrowSwap, seen := c.word), c)
    case BorrowSwap =>
      if th.seen.state != Published then To(Idle, c)
      else if c.word == th.seen then To(RefHeld, c.(word := Word(Published, th.seen.refs + 1)))
      else Effect(th.(seen := c.word), c)
    case RefHeld => Effect(th.(pc := ReleaseOwner, seen := c.word), c)
    case ReleaseOwner => Effect(th.(pc := ReleaseSwap, gone := !c.owned), c)
    case ReleaseSwap =>
      if c.word != th.seen then Effect(th.(pc := ReleaseOwner, seen := c.word), c)
      else if th.seen.refs == 1 && th.gone then To(Bump, c.(word := EMPTY, frees := c.frees + 1))
      else
        To(if th.seen.refs == 1 then ReclaimOwner else Idle, c.(word := Word(Published, th.seen.refs - 1)))
    case _ => Effect(th, c)
  }

  /** Reclaim an unreferenced chunk whose owner is gone, and bump the generation. */
  function ReclaimStep(th: Thread, c: Ctrl): Effect {
    match th.pc
    case ReclaimOwner => To(if c.owned then Idle else ReclaimSwap, c)
    case ReclaimSwap =>
      if c.word == Word(Published, 0) then To(Bump, c.(word := EMPTY, frees := c.frees + 1)) else To(Idle, c)
    case Bump => To(Idle, c.(generation := c.generation + 1))
    case _ => Effect(th, c)
  }

  function StartStep(th: Thread, c: Ctrl, a: Act): Effect {
    if a.Loan? then To(LoanSwap, c) else if a.Borrow? then To(BorrowLoad, c) else Effect(th, c)
  }

  predicate Owning(pc: Pc) {
    pc.LoanSwap? || pc.LoanOwner? || pc.LoanHeld? || pc.PublishSwap? || pc.DropSwap? || pc.DropOwner? || pc.OwnerHeld?
  }

  predicate Sharing(pc: Pc) {
    pc.BorrowLoad? || pc.BorrowSwap? || pc.RefHeld? || pc.ReleaseOwner? || pc.ReleaseSwap?
  }

  predicate Reclaiming(pc: Pc) {
    pc.ReclaimOwner? || pc.ReclaimSwap? || pc.Bump?
  }

  function Act1(th: Thread, c: Ctrl, a: Act): Effect {
    if Owning(th.pc) then OwnerStep(th, c, a)
    else if Sharing(th.pc) then SharedStep(th, c)
    else if Reclaiming(th.pc) then ReclaimStep(th, c)
    else StartStep(th, c, a)
  }

  function ThreadOf(s: State, t: nat): Thread {
    if t in s.threads then s.threads[t] else RESTING
  }

  /** One atomic step of thread t. */
  function Step(s: State, t: nat, a: Act): State {
    var e := Act1(ThreadOf(s, t), s.ctrl, a);
    State(e.ctrl, s.threads[t := e.th])
  }

  type Schedule = seq<(nat, Act)>

  function Run(s: State, sched: Schedule): State {
    if |sched| == 0 then s
    else
      var last := sched[|sched| - 1];
      Step(Run(s, sched[..|sched| - 1]), last.0, last.1)
  }

  // ---- The word's shape, in every run ----

  predicate Holding(pc: Pc) {
    pc.RefHeld? || pc.ReleaseOwner? || pc.ReleaseSwap?
  }

  predicate Bumping(pc: Pc) {
    pc.DropOwner? || pc.Bump?
  }

  function Holders(threads: map<nat, Thread>): set<nat> {
    set t | t in threads && Holding(threads[t].pc)
  }

  function Bumpers(threads: map<nat, Thread>): set<nat> {
    set t | t in threads && Bumping(threads[t].pc)
  }

  /** FREE and LOANED words count nothing, a PUBLISHED word exactly the outstanding
      references; every occupancy but the present one was freed once, and every transition
      to FREE bumps the generation once. */
  ghost predicate Shape(s: State) {
    && s.ctrl.word.refs == |Holders(s.threads)|
    && (!s.ctrl.word.state.Published? ==> s.ctrl.word.refs == 0)
    && s.ctrl.loans == s.ctrl.frees + One(!s.ctrl.word.state.Free?)
    && s.ctrl.generation + |Bumpers(s.threads)| == s.ctrl.frees
  }

  function One(b: bool): nat {
    if b then 1 else 0
  }

  predicate ShapeFacts(th: Thread, c: Ctrl, e: Effect) {
    && e.ctrl.word.refs == c.word.refs - One(Holding(th.pc)) + One(Holding(e.th.pc))
    && (!e.ctrl.word.state.Published? ==> e.ctrl.word.refs == 0)
    && e.ctrl.loans + c.frees == c.loans + e.ctrl.frees - One(!c.word.state.Free?) + One(!e.ctrl.word.state.Free?)
    && e.ctrl.generation + One(Bumping(e.th.pc)) + c.frees == e.ctrl.frees + One(Bumping(th.pc)) + c.generation
  }

  /** What the shape tells a thread. */
  predicate WordOk(th: Thread, c: Ctrl) {
    && c.word.refs >= 0
    && (!c.word.state.Published? ==> c.word.refs == 0)
    && (Holding(th.pc) ==> c.word.refs > 0)
  }

  lemma OwnerShape(th: Thread, c: Ctrl, a: Act)
    requires Owning(th.pc) && WordOk(th, c)
    ensures ShapeFacts(th, c, OwnerStep(th, c, a))
  {
  }

  lemma SharedShape(th: Thread, c: Ctrl)
    requires Sharing(th.pc) && WordOk(th, c)
    ensures ShapeFacts(th, c, SharedStep(th, c))
  {
  }

  lemma ReclaimShape(th: Thread, c: Ctrl)
    requires Reclaiming(th.pc) && WordOk(th, c)
    ensures ShapeFacts(th, c, ReclaimStep(th, c))
  {
  }

  lemma ActShape(th: Thread, c: Ctrl, a: Act)
    requires WordOk(th, c)
    ensures ShapeFacts(th, c, Act1(th, c, a))
  {
    hide OwnerStep, SharedStep, ReclaimStep;
    if Owning(th.pc) {
      OwnerShape(th, c, a);
    } else if Sharing(th.pc) {
      SharedShape(th, c);
    } else if Reclaiming(th.pc) {
      ReclaimShape(th, c);
    }
  }

  lemma HoldersMove(threads: map<nat, Thread>, t: nat, th: Thread)
    ensures |Holders(threads[t := th])|
            == |Holders(threads)| - One(t in threads && Holding(threads[t].pc)) + One(Holding(th.pc))
  {
    var before, after := Holders(threads), Holders(threads[t := th]);
    if Holding(th.pc) {
      assert after == before + {t};
    } else {
      assert after == before - {t};
    }
  }

  lemma BumpersMove(threads: map<nat, Thread>, t: nat, th: Thread)
    ensures |Bumpers(threads[t := th])|
            == |Bumpers(threads)| - One(t in threads && Bumping(threads[t].pc)) + One(Bumping(th.pc))
  {
    var before, after := Bumpers(threads), Bumpers(threads[t := th]);
    if Bumping(th.pc) {
      assert after == before + {t};
    } else {
      assert after == before - {t};
    }
  }

  lemma ShapeStep(s: State, t: nat, a: Act)
    requires Shape(s)
    ensures Shape(Step(s, t, a))
  {
    hide Act1;
    var th := ThreadOf(s, t);
    if Holding(th.pc) {
      assert t in Holders(s.threads);
    }
    ActShape(th, s.ctrl, a);
    HoldersMove(s.threads, t, Act1(th, s.ctrl, a).th);
    BumpersMove(s.threads, t, Act1(th, s.ctrl, a).th);
  }

  /** In every run from any well-shaped state, with any number of threads loaning,
      publishing, borrowing, releasing and reclaiming. */
  lemma {:induction false} WordShape(s: State, sched: Schedule)
    requires Shape(s)
    ensures Shape(Run(s, sched))
  {
    hide Shape, Step;
    if |sched| > 0 {
      var last := sched[|sched| - 1];
      WordShape(s, sched[..|sched| - 1]);
      ShapeStep(Run(s, sched[..|sched| - 1]), last.0, last.1);
    }
  }

  // ---- Who frees an occupancy, and when ----

  predicate Reclaims(pc: Pc) {
    pc.ReclaimOwner? || pc.ReclaimSwap?
  }

  /** The loan is taken and not yet published or dropped. */
  predicate Loaning(pc: Pc) {
    pc.LoanOwner? || pc.LoanHeld? || pc.PublishSwap? || pc.DropSwap?
  }

  /** The occupancy's owner, whether or not the owner word names it yet. */
  predicate Tenant(pc: Pc) {
    Loaning(pc) || pc.OwnerHeld?
  }

  /** The thread saw the owner gone and is about to free. */
  predicate SawGone(th: Thread) {
    th.pc.ReclaimSwap? || (th.pc.ReleaseSwap? && th.gone)
  }

  /** What a thread may rely on: a tenant has the chunk and, from its store on, the owner
      word; a dropper's chunk is free and the owner word still its own; and whoever saw the
      owner of a published chunk gone saw right. */
  predicate LocalOk(th: Thread, c: Ctrl) {
    && (Loaning(th.pc) ==> c.word.state.Loaned?)
    && (th.pc.OwnerHeld? ==> c.word.state.Published?)
    && (Tenant(th.pc) ==> (c.owned <==> !th.pc.LoanOwner?))
    && (th.pc.PublishSwap? || th.pc.DropSwap? ==> th.seen == Word(Loaned, 0))
    && (th.pc.DropOwner? ==> c.word.state.Free? && c.owned)
    && (SawGone(th) && c.word.state.Published? ==> !c.owned)
  }

  /** Two threads that may meet: there is one tenant or dropper at a time. */
  predicate Compatible(th: Thread, other: Thread) {
    !((Tenant(th.pc) || th.pc.DropOwner?) && (Tenant(other.pc) || other.pc.DropOwner?))
  }

  /** A loaned chunk has its tenant, a named owner is its tenant or dropper, and an
      unreferenced, unowned chunk has someone about to reclaim it. */
  ghost predicate Attended(s: State) {
    && (s.ctrl.word.state.Loaned? ==> exists t: nat :: Loaning(ThreadOf(s, t).pc))
    && (s.ctrl.owned ==> exists t: nat :: OwnerNamed(ThreadOf(s, t).pc))
    && (s.ctrl.word == Word(Published, 0) && !s.ctrl.owned ==> exists t: nat :: Reclaims(ThreadOf(s, t).pc))
  }

  predicate OwnerNamed(pc: Pc) {
    (Tenant(pc) && !pc.LoanOwner?) || pc.DropOwner?
  }

  ghost predicate Locals(s: State) {
    && (forall t: nat :: LocalOk(ThreadOf(s, t), s.ctrl))
    && (forall t: nat, u: nat :: t != u ==> Compatible(ThreadOf(s, t), ThreadOf(s, u)))
  }

  ghost predicate Inv(s: State) {
    Shape(s) && Locals(s) && Attended(s)
  }

  /** The step takes a loan. */
  predicate TakesLoan(th: Thread, c: Ctrl) {
    th.pc.LoanSwap? && c.word == EMPTY
  }

  /** The step publishes. */
  predicate Publishes(th: Thread, c: Ctrl) {
    th.pc.PublishSwap? && th.seen.state.Loaned? && c.word == th.seen
  }

  /** No loan is taken while a dropper has yet to clear the owner word, and nothing is
      published while a reclaim that saw an owner gone has yet to try its exchange. */
  ghost predicate Clean(s: State, t: nat) {
    && (TakesLoan(ThreadOf(s, t), s.ctrl) ==> forall u: nat :: !ThreadOf(s, u).pc.DropOwner?)
    && (Publishes(ThreadOf(s, t), s.ctrl) ==> forall u: nat :: !ThreadOf(s, u).pc.ReclaimSwap?)
  }

  /** What a step makes of the chunk, for everyone else. */
  predicate StepOk(th: Thread, c: Ctrl, e: Effect) {
    && LocalOk(e.th, e.ctrl)
    && (Tenant(e.th.pc) || e.th.pc.DropOwner? ==> Tenant(th.pc) || th.pc.DropOwner? || TakesLoan(th, c))
    && (e.ctrl.word.state.Loaned? <==> if TakesLoan(th, c) then true else c.word.state.Loaned? && (Loaning(th.pc) ==> Loaning(e.th.pc)))
    && (e.ctrl.owned <==> if th.pc.LoanOwner? then true else c.owned && !th.pc.OwnerHeld? && !th.pc.DropOwner?)
    && (c.word.state.Published? && !e.ctrl.word.state.Published? ==> !c.owned && e.ctrl.word.state.Free?)
    && (!c.word.state.Published? && e.ctrl.word.state.Published? ==> Publishes(th, c))
    && (c.word.state.Free? && !e.ctrl.word.state.Free? ==> TakesLoan(th, c))
    && (OwnerNamed(th.pc) && e.ctrl.owned ==> OwnerNamed(e.th.pc))
    && (e.ctrl.word == Word(Published, 0) && !e.ctrl.owned ==>
          || Reclaims(e.th.pc)
          || (c.word == Word(Published, 0) && !c.owned && !Reclaims(th.pc)))
  }

  /** What the whole state tells a thread about itself. */
  predicate Knows(th: Thread, c: Ctrl) {
    && LocalOk(th, c) && WordOk(th, c)
    && (Holding(th.pc) ==> c.word.state.Published?)
    && (TakesLoan(th, c) ==> !c.owned)
  }

  lemma OwnerOk(th: Thread, c: Ctrl, a: Act)
    requires Owning(th.pc) && Knows(th, c)
    ensures StepOk(th, c, OwnerStep(th, c, a))
  {
  }

  lemma SharedOk(th: Thread, c: Ctrl)
    requires Sharing(th.pc) && Knows(th, c)
    ensures StepOk(th, c, SharedStep(th, c))
  {
  }

  lemma ReclaimOk(th: Thread, c: Ctrl)
    requires Reclaiming(th.pc) && Knows(th, c)
    ensures StepOk(th, c, ReclaimStep(th, c))
  {
  }

  lemma ActOk(th: Thread, c: Ctrl, a: Act)
    requires Knows(th, c)
    ensures StepOk(th, c, Act1(th, c, a))
  {
    hide OwnerStep, SharedStep, ReclaimStep;
    if Owning(th.pc) {
      OwnerOk(th, c, a);
    } else if Sharing(th.pc) {
      SharedOk(th, c);
    } else if Reclaiming(th.pc) {
      ReclaimOk(th, c);
    }
  }

  /** What the invariant tells the thread about to step, and what its step does. */
  lemma StepFacts(s: State, t: nat, a: Act) returns (e: Effect)
    requires Inv(s) && Clean(s, t)
    ensures Knows(ThreadOf(s, t), s.ctrl) && StepOk(ThreadOf(s, t), s.ctrl, e)
    ensures Step(s, t, a) == State(e.ctrl, s.threads[t := e.th])
    ensures forall u: nat {:trigger ThreadOf(Step(s, t, a), u)} ::
              ThreadOf(Step(s, t, a), u) == if u == t then e.th else ThreadOf(s, u)
  {
    hide Act1;
    var th := ThreadOf(s, t);
    e := Act1(th, s.ctrl, a);
    if Holding(th.pc) {
      assert t in Holders(s.threads);
    }
    ActOk(th, s.ctrl, a);
  }

  /** The other threads are none the worse for a clean step. */
  lemma OtherOk(th: Thread, c: Ctrl, e: Effect, other: Thread)
    requires Knows(th, c) && StepOk(th, c, e) && LocalOk(other, c) && Compatible(th, other)
    requires Holding(other.pc) ==> e.ctrl.word.state.Published? && c.word.state.Published?
    requires TakesLoan(th, c) ==> !other.pc.DropOwner?
    requires Publishes(th, c) ==> !other.pc.ReclaimSwap?
    ensures LocalOk(other, e.ctrl) && Compatible(e.th, other)
  {
  }

  lemma LocalsStep(s: State, t: nat, a: Act)
    requires Inv(s) && Clean(s, t)
    ensures Locals(Step(s, t, a))
  {
    var e := StepFacts(s, t, a);
    ShapeStep(s, t, a);
    var s', th := Step(s, t, a), ThreadOf(s, t);
    hide Step, StepOk, LocalOk, Compatible, Knows;
    forall u: nat
      ensures LocalOk(ThreadOf(s', u), s'.ctrl)
      ensures u != t ==> Compatible(ThreadOf(s', t), ThreadOf(s', u)) && Compatible(ThreadOf(s', u), ThreadOf(s', t))
    {
      if u == t {
        OwnOk(th, s.ctrl, e);
      } else {
        HeldPublished(s, u);
        HeldPublished(s', u);
        OtherOk(th, s.ctrl, e, ThreadOf(s, u));
        Symmetric(e.th, ThreadOf(s, u));
      }
    }
    forall u: nat, w: nat | u != w
      ensures Compatible(ThreadOf(s', u), ThreadOf(s', w))
    {
      assert Compatible(ThreadOf(s, u), ThreadOf(s, w));
    }
  }

  lemma OwnOk(th: Thread, c: Ctrl, e: Effect)
    requires StepOk(th, c, e)
    ensures LocalOk(e.th, e.ctrl)
  {
  }

  lemma Symmetric(th: Thread, other: Thread)
    requires Compatible(th, other)
    ensures Compatible(other, th)
  {
  }

  lemma HeldPublished(s: State, t: nat)
    requires Shape(s)
    ensures Holding(ThreadOf(s, t).pc) ==> s.ctrl.word.state.Published?
  {
    if Holding(ThreadOf(s, t).pc) {
      assert t in Holders(s.threads);
    }
  }

  lemma AttendedStep(s: State, t: nat, a: Act)
    requires Inv(s) && Clean(s, t)
    ensures Attended(Step(s, t, a))
  {
    var e := StepFacts(s, t, a);
    var s', th := Step(s, t, a), ThreadOf(s, t);
    hide Step;
    assert ThreadOf(s', t) == e.th;
    if s.ctrl.word.state.Loaned? {
      var u: nat :| Loaning(ThreadOf(s, u).pc);
      assert u != t ==> ThreadOf(s', u) == ThreadOf(s, u);
      assert u != t ==> Compatible(th, ThreadOf(s, u));
    }
    if s.ctrl.owned {
      var u: nat :| OwnerNamed(ThreadOf(s, u).pc);
      assert u != t ==> ThreadOf(s', u) == ThreadOf(s, u);
    }
    if s.ctrl.word == Word(Published, 0) && !s.ctrl.owned {
      var u: nat :| Reclaims(ThreadOf(s, u).pc);
      assert u != t ==> ThreadOf(s', u) == ThreadOf(s, u);
    }
  }

  /** The books survive a step exactly when it is clean. */
  lemma InvStep(s: State, t: nat, a: Act)
    requires Inv(s)
    ensures Inv(Step(s, t, a)) <==> Clean(s, t)
  {
    ShapeStep(s, t, a);
    if Clean(s, t) {
      LocalsStep(s, t, a);
      AttendedStep(s, t, a);
    } else {
      Unclean(s, t, a);
    }
    hide *;
  }

  /** A loan taken over a dropper leaves it about to clear the new owner; a publish past a
      reclaim leaves it about to free under the owner. */
  lemma Unclean(s: State, t: nat, a: Act)
    requires Inv(s) && !Clean(s, t)
    ensures !Locals(Step(s, t, a))
  {
    var th, s' := ThreadOf(s, t), Step(s, t, a);
    if TakesLoan(th, s.ctrl) && exists u: nat :: ThreadOf(s, u).pc.DropOwner? {
      var u: nat :| ThreadOf(s, u).pc.DropOwner?;
      assert ThreadOf(s', u) == ThreadOf(s, u);
      assert !LocalOk(ThreadOf(s', u), s'.ctrl);
    } else {
      var u: nat :| ThreadOf(s, u).pc.ReclaimSwap?;
      assert LocalOk(th, s.ctrl);
      assert ThreadOf(s', u) == ThreadOf(s, u);
      assert !LocalOk(ThreadOf(s', u), s'.ctrl);
    }
  }

  /** What an unclean publish costs: the stale reclaim's next step frees the chunk its new
      owner still holds. */
  lemma StaleReclaim(s: State, t: nat, a: Act, u: nat)
    requires Inv(s) && Publishes(ThreadOf(s, t), s.ctrl) && ThreadOf(s, u).pc.ReclaimSwap?
    ensures var r := Step(Step(s, t, a), u, Go);
            r.ctrl.word == EMPTY && r.ctrl.owned && ThreadOf(r, t).pc.OwnerHeld?
  {
    assert LocalOk(ThreadOf(s, t), s.ctrl);
    var s1 := Step(s, t, a);
    assert ThreadOf(s1, t).pc.OwnerHeld? && ThreadOf(s1, u) == ThreadOf(s, u);
  }

  /** What an unclean loan costs: once the new owner has stored its name, the dropper clears
      it. */
  lemma StaleDrop(s: State, t: nat, a: Act, u: nat)
    requires Inv(s) && TakesLoan(ThreadOf(s, t), s.ctrl) && ThreadOf(s, u).pc.DropOwner?
    ensures var r := Step(Step(Step(s, t, a), t, a), u, Go);
            r.ctrl.word.state.Loaned? && !r.ctrl.owned && ThreadOf(r, t).pc.LoanHeld?
  {
    var s1 := Step(s, t, a);
    assert ThreadOf(s1, t).pc.LoanOwner? && ThreadOf(s1, u) == ThreadOf(s, u);
    var s2 := Step(s1, t, a);
    assert ThreadOf(s2, t).pc.LoanHeld? && ThreadOf(s2, u) == ThreadOf(s, u);
  }

  // ---- Whole runs, over any number of occupancies ----

  ghost predicate CleanRun(s: State, sched: Schedule) {
    |sched| == 0
    || (CleanRun(s, sched[..|sched| - 1]) && Clean(Run(s, sched[..|sched| - 1]), sched[|sched| - 1].0))
  }

  /** A chunk never used. */
  function Fresh(generation: nat): State {
    State(Ctrl(EMPTY, false, generation, generation, generation), map[])
  }

  lemma FreshInv(generation: nat)
    ensures Inv(Fresh(generation))
  {
    assert Holders(Fresh(generation).threads) == {} && Bumpers(Fresh(generation).threads) == {};
  }

  lemma {:induction false} RunInv(s: State, sched: Schedule)
    requires Inv(s) && CleanRun(s, sched)
    ensures Inv(Run(s, sched))
  {
    hide Inv, Step, Clean;
    if |sched| > 0 {
      var last := sched[|sched| - 1];
      RunInv(s, sched[..|sched| - 1]);
      InvStep(Run(s, sched[..|sched| - 1]), last.0, last.1);
    }
  }

  /** A published chunk is freed only when its owner is gone and nobody else holds it, and
      while anyone holds it or owns it, it is there. */
  lemma FreedWhenDone(s: State, sched: Schedule, t: nat, a: Act, u: nat)
    requires Inv(s) && CleanRun(s, sched) && Clean(Run(s, sched), t)
    ensures var r, r' := Run(s, sched), Step(Run(s, sched), t, a);
            && (Holding(ThreadOf(r, u).pc) || ThreadOf(r, u).pc.OwnerHeld? ==> r.ctrl.word.state.Published?)
            && (r.ctrl.word.state.Published? && !r'.ctrl.word.state.Published? ==>
                  && r'.ctrl.word == EMPTY && r'.ctrl.frees == r.ctrl.frees + 1
                  && !r.ctrl.owned && !Tenant(ThreadOf(r, u).pc) && (Holding(ThreadOf(r, u).pc) ==> u == t))
  {
    hide *;
    RunInv(s, sched);
    FreesDone(Run(s, sched), t, a, u);
  }

  lemma FreesDone(r: State, t: nat, a: Act, u: nat)
    requires Inv(r) && Clean(r, t)
    ensures var r' := Step(r, t, a);
            && (Holding(ThreadOf(r, u).pc) || ThreadOf(r, u).pc.OwnerHeld? ==> r.ctrl.word.state.Published?)
            && (r.ctrl.word.state.Published? && !r'.ctrl.word.state.Published? ==>
                  && r'.ctrl.word == EMPTY && r'.ctrl.frees == r.ctrl.frees + 1
                  && !r.ctrl.owned && !Tenant(ThreadOf(r, u).pc) && (Holding(ThreadOf(r, u).pc) ==> u == t))
  {
    HeldPublished(r, u);
    ShapeStep(r, t, a);
    var e := StepFacts(r, t, a);
    if r.ctrl.word.state.Published? && Step(r, t, a).ctrl.word.state.Free? {
      FreeCounted(r, t, a);
    }
    assert LocalOk(ThreadOf(r, u), r.ctrl);
    var r' := Step(r, t, a);
    hide Step, Shape, Clean, Locals, Attended;
    assert u != t ==> ThreadOf(r', u) == ThreadOf(r, u);
    HeldPublished(r', u);
  }

  lemma FreeCounted(r: State, t: nat, a: Act)
    requires Shape(r) && Shape(Step(r, t, a)) && r.ctrl.word.state.Published? && Step(r, t, a).ctrl.word.state.Free?
    ensures Step(r, t, a).ctrl.frees == r.ctrl.frees + 1 && Step(r, t, a).ctrl.word == EMPTY
  {
  }

  /** Single freer: whatever the interleaving, over any number of occupancies, once every
      owner and every holder has released the chunk is FREE, and it went there exactly once
      for every loan, with one bump of the generation each time. */
  lemma EveryOccupancyFreed(s: State, sched: Schedule)
    requires Inv(s) && CleanRun(s, sched)
    requires forall t: nat :: ThreadOf(Run(s, sched), t).pc.Idle?
    ensures var c := Run(s, sched).ctrl;
            c.word == EMPTY && !c.owned && c.frees == c.loans == c.generation
  {
    RunInv(s, sched);
    var r := Run(s, sched);
    hide Run, CleanRun;
    assert Holders(r.threads) == {} by {
      forall t | t in r.threads
        ensures !Holding(r.threads[t].pc)
      {
        assert ThreadOf(r, t).pc.Idle?;
      }
    }
    assert Bumpers(r.threads) == {} by {
      forall t | t in r.threads
        ensures !Bumping(r.threads[t].pc)
      {
        assert ThreadOf(r, t).pc.Idle?;
      }
    }
  }

  // ---- One occupancy ----

  /** A published chunk owned by thread 0, every other thread idle or holding a
      shared reference. */
  ghost predicate Occupied(s: State) {
    && Shape(s) && s.ctrl.word.state.Published? && s.ctrl.owned
    && ThreadOf(s, 0).pc.OwnerHeld?
    && (forall t: nat :: t != 0 ==> ThreadOf(s, t).pc.Idle? || ThreadOf(s, t).pc.RefHeld?)
  }

  /** Nobody starts a new loan. */
  predicate NoLoans(sched: Schedule) {
    forall i :: 0 <= i < |sched| ==> !sched[i].1.Loan?
  }

  /** Nobody is on the way to one. */
  ghost predicate Settled(s: State) {
    forall t: nat :: !ThreadOf(s, t).pc.LoanSwap? && !Loaning(ThreadOf(s, t).pc)
  }

  lemma SettledStep(s: State, t: nat, a: Act)
    requires Settled(s) && !a.Loan?
    ensures Settled(Step(s, t, a)) && Clean(s, t) && Step(s, t, a).ctrl.loans == s.ctrl.loans
  {
    var s' := Step(s, t, a);
    assert forall u: nat {:trigger ThreadOf(s', u)} ::
      ThreadOf(s', u) == if u == t then Act1(ThreadOf(s, t), s.ctrl, a).th else ThreadOf(s, u);
    assert !ThreadOf(s, t).pc.LoanSwap? && !Loaning(ThreadOf(s, t).pc);
  }

  lemma {:induction false} SettledRun(s: State, sched: Schedule)
    requires Settled(s) && NoLoans(sched)
    ensures Settled(Run(s, sched)) && CleanRun(s, sched) && Run(s, sched).ctrl.loans == s.ctrl.loans
  {
    hide Settled, Step, Clean;
    if |sched| > 0 {
      var last := sched[|sched| - 1];
      SettledRun(s, sched[..|sched| - 1]);
      SettledStep(Run(s, sched[..|sched| - 1]), last.0, last.1);
    }
  }

  lemma OccupiedInv(s: State)
    requires Occupied(s)
    ensures Inv(s) && Settled(s)
  {
    forall t: nat
      ensures t != 0 ==> ThreadOf(s, t).pc.Idle? || ThreadOf(s, t).pc.RefHeld?
      ensures LocalOk(ThreadOf(s, t), s.ctrl)
    {
    }
    assert OwnerNamed(ThreadOf(s, 0).pc);
  }

  /** One occupancy, with no premise on the interleaving: once the owner and every holder
      have released, and whoever else borrowed on the way, the chunk is FREE, it went there
      once, and its generation was bumped once. */
  lemma SingleFreer(s: State, sched: Schedule)
    requires Occupied(s) && NoLoans(sched)
    requires forall t: nat :: ThreadOf(Run(s, sched), t).pc.Idle?
    ensures var c := Run(s, sched).ctrl;
            c.word == EMPTY && !c.owned && c.frees == s.ctrl.frees + 1 && c.generation == s.ctrl.generation + 1
  {
    hide Run, CleanRun, Inv, Settled;
    assert Bumpers(s.threads) == {} by {
      forall t | t in s.threads
        ensures !Bumping(s.threads[t].pc)
      {
        assert ThreadOf(s, t).pc.OwnerHeld? || ThreadOf(s, t).pc.Idle? || ThreadOf(s, t).pc.RefHeld?;
      }
    }
    OccupiedInv(s);
    SettledRun(s, sched);
    EveryOccupancyFreed(s, sched);
  }
}
