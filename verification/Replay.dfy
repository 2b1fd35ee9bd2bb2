/** Crash replay of journaled version pins: clearing the journal bit elects who gives
    the pin back, the holder's drop or the coordinator's replay
    (crates/shm-core/src/journal.rs, release; crates/shm-runtime/src/coordinator.rs,
    reclaim_dead; crates/shm-artifact/src/artifact.rs, release_leaked_pin and
    PinState::drop; crates/shm-artifact/src/head.rs, try_unpin).

    A journal index may be recorded again as soon as its bit is clear, also while the
    holder it was taken from still names it. */
module Replay {
  import opened Common

  /** A pin: the version it is on, and an identity no two pins share. */
  datatype Pin = Pin(v: nat, id: nat)

  /** A holder bumps, journals its pin (or not), reads, and on drop clears its bit and
      gives the pin back if it won the bit. A replaying coordinator reads the record,
      clears the bit, finds the version's slot and decrements unless the count is zero. */
  datatype Pc = Idle | Bumped | Plain | Reading | Won | ReplayRead | ReplayClear | ReplayFind | ReplayLoad | ReplaySwap

  /** A thread: the pin it works for, the journal index it names, and the count it loaded. */
  datatype Thread = Thread(pc: Pc, pin: Pin, r: nat, seen: int)

  /** Each version's pin count; the versions whose slot is not LIVE right now; the journal
      slots' contents and set bits; the indices of actors declared dead; the versions of
      pins given up because a replay found no live slot; the pins given back, in order. */
  datatype State = State(
    pins: map<nat, int>, freeing: set<nat>, entries: map<nat, Pin>, bits: set<nat>, dead: set<nat>,
    leaked: multiset<nat>, spent: seq<nat>, next: nat, threads: map<nat, Thread>)

  datatype Act =
    | Go(t: nat) | Take(t: nat, v: nat) | Journal(t: nat, r: nat) | Declare(r: nat) | Reap(t: nat, r: nat) | Flip(v: nat)

  const RESTING: Thread := Thread(Idle, Pin(0, 0), 0, 0)

  function ThreadOf(s: State, t: nat): Thread {
    if t in s.threads then s.threads[t] else RESTING
  }

  function PinsOf(s: State, v: nat): int {
    if v in s.pins then s.pins[v] else 0
  }

  function EntryAt(s: State, r: nat): Pin {
    if r in s.entries then s.entries[r] else Pin(0, 0)
  }

  function Put(s: State, t: nat, th: Thread): State {
    s.(threads := s.threads[t := th])
  }

  /** What a thread sees: whether the bit it names is set, the record there, whether its
      version's slot is live, and its version's count. */
  datatype View = View(marked: bool, entry: Pin, live: bool, count: int)

  /** What a step does: the thread after it, and whether it clears the bit the thread names,
      gives its pin back, or gives up on it. */
  datatype Effect = Effect(th: Thread, clears: bool, gives: bool, leaks: bool)

  function Quietly(th: Thread): Effect {
    Effect(th, false, false, false)
  }

  function Act1(th: Thread, view: View): Effect {
    match th.pc
    case Idle => Quietly(th)
    case Bumped => Quietly(th.(pc := Plain))
    case Plain => Effect(RESTING, false, true, false)
    case Reading => if view.marked then Effect(th.(pc := Won), true, false, false) else Quietly(RESTING)
    case Won => Effect(RESTING, false, true, false)
    case ReplayRead => Quietly(th.(pc := ReplayClear, pin := view.entry))
    case ReplayClear => if view.marked then Effect(th.(pc := ReplayFind), true, false, false) else Quietly(RESTING)
    case ReplayFind => if view.live then Quietly(th.(pc := ReplayLoad)) else Effect(RESTING, false, false, true)
    case ReplayLoad => Quietly(th.(pc := ReplaySwap, seen := view.count))
    case ReplaySwap =>
      if th.seen == 0 then Quietly(RESTING)
      else if view.count == th.seen then Effect(RESTING, false, true, false)
      else Quietly(th.(seen := view.count))
  }

  function ViewOf(s: State, th: Thread): View {
    View(th.r in s.bits, EntryAt(s, th.r), th.pin.v !in s.freeing, PinsOf(s, th.pin.v))
  }

  function Apply(s: State, t: nat, th: Thread, e: Effect): State {
    State(if e.gives then s.pins[th.pin.v := PinsOf(s, th.pin.v) - 1] else s.pins,
          s.freeing, s.entries,
          if e.clears then s.bits - {th.r} else s.bits,
          s.dead,
          if e.leaks then s.leaked + multiset{th.pin.v} else s.leaked,
          if e.gives then s.spent + [th.pin.id] else s.spent,
          s.next, s.threads[t := e.th])
  }

  /** A thread's next step. */
  function OpStep(s: State, t: nat): State {
    var th := ThreadOf(s, t);
    Apply(s, t, th, Act1(th, ViewOf(s, th)))
  }

  /** The journal takes any index whose bit is clear. */
  predicate Records(s: State, a: Act) {
    a.Journal? && ThreadOf(s, a.t).pc.Bumped? && a.r !in s.bits
  }

  /** A step of a thread; a new pin; a pin journaled at a clear index; an actor declared
      dead; a replay of a dead actor's index; or a reclaimer coming and going. */
  function Step(s: State, a: Act): State {
    match a
    case Go(t) => if ThreadOf(s, t).pc.Idle? then s else OpStep(s, t)
    case Take(t, v) =>
      if ThreadOf(s, t).pc.Idle?
      then Put(s.(pins := s.pins[v := PinsOf(s, v) + 1], next := s.next + 1), t, Thread(Bumped, Pin(v, s.next), 0, 0))
      else s
    case Journal(t, r) =>
      if Records(s, a)
      then Put(s.(entries := s.entries[r := ThreadOf(s, t).pin], bits := s.bits + {r}), t, ThreadOf(s, t).(pc := Reading, r := r))
      else s
    case Declare(r) => s.(dead := s.dead + {r})
    case Reap(t, r) =>
      if ThreadOf(s, t).pc.Idle? && r in s.dead && r in s.bits then Put(s, t, Thread(ReplayRead, Pin(0, 0), r, 0)) else s
    case Flip(v) => s.(freeing := if v in s.freeing then s.freeing - {v} else s.freeing + {v})
  }

  /** The thread may still clear index r for the pin it works for: a holder not dropped
      yet, or a replay that has read the record. */
  predicate Names(th: Thread, r: nat) {
    (th.pc.Reading? || th.pc.ReplayClear?) && th.r == r
  }

  // ---- Holders not declared dead ----

  /** A holder not declared dead has its bit to itself; a replay stands only at an index
      of an actor declared dead. */
  ghost predicate Kept(s: State) {
    && (forall t: nat :: (ThreadOf(s, t).pc.Reading? && ThreadOf(s, t).r !in s.dead ==> ThreadOf(s, t).r in s.bits))
    && (forall t: nat, u: nat ::
          (Names(ThreadOf(s, t), ThreadOf(s, u).r) && ThreadOf(s, u).pc.Reading? && ThreadOf(s, u).r !in s.dead ==> t == u))
    && (forall t: nat :: (ThreadOf(s, t).pc.ReplayRead? || ThreadOf(s, t).pc.ReplayClear? ==> ThreadOf(s, t).r in s.dead))
  }

  lemma ThreadsAfter(s: State, s': State, t: nat, th: Thread)
    requires s'.threads == s.threads[t := th]
    ensures forall u: nat {:trigger ThreadOf(s', u)} :: ThreadOf(s', u) == if u == t then th else ThreadOf(s, u)
  {
  }

  /** What a step does to the thread, and what it takes. */
  predicate StepOk(th: Thread, view: View, e: Effect) {
    && (e.clears <==> Names(th, th.r) && view.marked)
    && (e.gives || e.leaks ==> Owns(th) && !Owns(e.th)) && !(e.gives && e.leaks)
    && (Owns(e.th) ==> e.th.pin == th.pin && (Owns(th) || e.clears))
    && (Owns(th) && !Owns(e.th) ==> e.gives || e.leaks || (th.pc.ReplaySwap? && th.seen == 0))
    && (e.clears ==> Owns(e.th) && !Owns(th) && e.th.r == th.r)
    && !e.th.pc.Reading? && !e.th.pc.Bumped? && !e.th.pc.ReplayRead?
    && (e.th.pc.ReplayClear? ==> th.pc.ReplayRead? && e.th.r == th.r && e.th.pin == view.entry)
    && (Works(e.th) ==> e.th.pin == th.pin || (th.pc.ReplayRead? && e.th.pin == view.entry))
    && (e.th.pc.ReplaySwap? ==> Owns(th) && (e.th.seen == view.count || (e.th.seen == th.seen && th.pc.ReplaySwap?)))
  }

  lemma ActOk(th: Thread, view: View)
    requires !th.pc.Idle?
    ensures StepOk(th, view, Act1(th, view))
  {
  }

  /** The effect of a thread's next step, and the threads after it. */
  lemma GoFacts(s: State, t: nat) returns (e: Effect)
    requires !ThreadOf(s, t).pc.Idle?
    ensures StepOk(ThreadOf(s, t), ViewOf(s, ThreadOf(s, t)), e)
    ensures OpStep(s, t) == Apply(s, t, ThreadOf(s, t), e)
    ensures forall u: nat {:trigger ThreadOf(OpStep(s, t), u)} ::
              ThreadOf(OpStep(s, t), u) == if u == t then e.th else ThreadOf(s, u)
  {
    hide Act1;
    var th := ThreadOf(s, t);
    e := Act1(th, ViewOf(s, th));
    ActOk(th, ViewOf(s, th));
    ThreadsAfter(s, OpStep(s, t), t, e.th);
  }

  lemma KeptStep(s: State, a: Act)
    requires Kept(s)
    ensures Kept(Step(s, a))
  {
    var s' := Step(s, a);
    if a.Go? {
      if !ThreadOf(s, a.t).pc.Idle? {
        var e := GoFacts(s, a.t);
        hide OpStep;
      }
    } else if (a.Take? || a.Journal? || a.Reap?) && s' != s {
      ThreadsAfter(s, s', a.t, ThreadOf(s', a.t));
    } else {
      assert forall u: nat {:trigger ThreadOf(s', u)} :: ThreadOf(s', u) == ThreadOf(s, u);
    }
  }

  /** Every set bit has a holder that names it. */
  ghost predicate Manned(s: State) {
    forall r: nat :: (r in s.bits ==> exists t: nat :: ThreadOf(s, t).pc.Reading? && ThreadOf(s, t).r == r)
  }

  lemma MannedStep(s: State, a: Act)
    requires Manned(s)
    ensures Manned(Step(s, a))
  {
    var s' := Step(s, a);
    forall r: nat | r in s'.bits
      ensures exists t: nat :: ThreadOf(s', t).pc.Reading? && ThreadOf(s', t).r == r
    {
      if r in s.bits {
        var t: nat :| ThreadOf(s, t).pc.Reading? && ThreadOf(s, t).r == r;
        if a.Go? && !ThreadOf(s, a.t).pc.Idle? {
          var e := GoFacts(s, a.t);
          hide OpStep;
        }
        assert ThreadOf(s', t) == ThreadOf(s, t);
      } else {
        assert Records(s, a) by {
          if a.Go? && !ThreadOf(s, a.t).pc.Idle? {
            var e := GoFacts(s, a.t);
            hide OpStep;
          }
        }
        assert ThreadOf(s', a.t).pc.Reading? && ThreadOf(s', a.t).r == r;
      }
    }
  }

  // ---- Every pin of a version is counted ----

  /** Threads that own a pin themselves: not yet journaled, never journaled, or
      entitled to give it back by having won the bit. */
  predicate Owns(th: Thread) {
    th.pc.Bumped? || th.pc.Plain? || Entitled(th)
  }

  /** Won the bit of its record and has not given the pin back yet. */
  predicate Entitled(th: Thread) {
    th.pc.Won? || th.pc.ReplayFind? || th.pc.ReplayLoad? || th.pc.ReplaySwap?
  }

  predicate OwnsOn(th: Thread, v: nat) {
    Owns(th) && th.pin.v == v
  }

  function Owners(threads: map<nat, Thread>, v: nat): set<nat> {
    set t | t in threads && OwnsOn(threads[t], v)
  }

  function BitsOn(s: State, v: nat): set<nat> {
    set r | r in s.bits && EntryAt(s, r).v == v
  }

  /** What a version's count should be: the pins owned by threads, those owned by set
      journal bits, and those leaked. */
  function Owed(s: State, v: nat): nat {
    |Owners(s.threads, v)| + |BitsOn(s, v)| + s.leaked[v]
  }

  ghost predicate Balanced(s: State) {
    forall v: nat :: PinsOf(s, v) == Owed(s, v)
  }

  /** Whoever still names a set index works for the version recorded there. */
  ghost predicate Agrees(s: State) {
    forall t: nat, r: nat :: (r in s.bits && Names(ThreadOf(s, t), r) ==> ThreadOf(s, t).pin.v == EntryAt(s, r).v)
  }

  /** The count a replay is about to swap was never zero: it still owns a pin. */
  ghost predicate Positive(s: State) {
    forall t: nat :: (ThreadOf(s, t).pc.ReplaySwap? ==> ThreadOf(s, t).seen > 0)
  }

  ghost predicate Inv(s: State) {
    Kept(s) && Balanced(s) && Agrees(s) && Positive(s)
  }

  /** The next step does not record an index over someone who still names it for another
      version. */
  ghost predicate Clean(s: State, a: Act) {
    Records(s, a) ==> forall u: nat :: (Names(ThreadOf(s, u), a.r) ==> ThreadOf(s, u).pin.v == ThreadOf(s, a.t).pin.v)
  }

  lemma OwnersMove(threads: map<nat, Thread>, t: nat, th: Thread, v: nat)
    ensures var was, now := t in threads && OwnsOn(threads[t], v), OwnsOn(th, v);
            |Owners(threads[t := th], v)| == |Owners(threads, v)| - (if was then 1 else 0) + (if now then 1 else 0)
  {
    var before, after := Owners(threads, v), Owners(threads[t := th], v);
    if OwnsOn(th, v) {
      assert after == before + {t};
    } else {
      assert after == before - {t};
    }
  }

  lemma BitCleared(s: State, s': State, r: nat, v: nat)
    requires s'.entries == s.entries && s'.bits == s.bits - {r} && r in s.bits
    ensures |BitsOn(s', v)| == |BitsOn(s, v)| - if EntryAt(s, r).v == v then 1 else 0
  {
    if EntryAt(s, r).v == v {
      assert BitsOn(s', v) == BitsOn(s, v) - {r};
    } else {
      assert BitsOn(s', v) == BitsOn(s, v);
    }
  }

  lemma BitSet(s: State, s': State, r: nat, pin: Pin, v: nat)
    requires s'.entries == s.entries[r := pin] && s'.bits == s.bits + {r} && r !in s.bits
    ensures |BitsOn(s', v)| == |BitsOn(s, v)| + if pin.v == v then 1 else 0
  {
    if pin.v == v {
      assert BitsOn(s', v) == BitsOn(s, v) + {r};
    } else {
      assert BitsOn(s', v) == BitsOn(s, v);
    }
  }

  lemma SameBits(s: State, s': State, v: nat)
    requires s'.entries == s.entries && s'.bits == s.bits
    ensures BitsOn(s', v) == BitsOn(s, v)
  {
  }

  /** How a thread's step moves its pin between thread, journal, leak and the count. */
  lemma GoBalanced(s: State, t: nat, v: nat)
    requires PinsOf(s, v) == Owed(s, v) && Agrees(s) && Positive(s) && !ThreadOf(s, t).pc.Idle?
    ensures PinsOf(OpStep(s, t), v) == Owed(OpStep(s, t), v)
  {
    hide Owners, BitsOn, OpStep;
    var e := GoFacts(s, t);
    var s', th := OpStep(s, t), ThreadOf(s, t);
    OwnersMove(s.threads, t, e.th, v);
    if e.clears {
      BitCleared(s, s', th.r, v);
    } else {
      SameBits(s, s', v);
    }
  }

  lemma BalancedStep(s: State, a: Act)
    requires Balanced(s) && Agrees(s) && Positive(s)
    ensures Balanced(Step(s, a))
  {
    var s' := Step(s, a);
    forall v: nat
      ensures PinsOf(s', v) == Owed(s', v)
    {
      if a.Go? {
        if !ThreadOf(s, a.t).pc.Idle? {
          GoBalanced(s, a.t, v);
        }
      } else if s' != s {
        OtherBalanced(s, a, v);
      }
    }
  }

  lemma OtherBalanced(s: State, a: Act, v: nat)
    requires PinsOf(s, v) == Owed(s, v) && !a.Go? && Step(s, a) != s
    ensures PinsOf(Step(s, a), v) == Owed(Step(s, a), v)
  {
    var s' := Step(s, a);
    if a.Journal? {
      OwnersMove(s.threads, a.t, ThreadOf(s', a.t), v);
      BitSet(s, s', a.r, ThreadOf(s, a.t).pin, v);
    } else {
      SameBits(s, s', v);
      if a.Take? || a.Reap? {
        OwnersMove(s.threads, a.t, ThreadOf(s', a.t), v);
      }
    }
    hide Owners, BitsOn;
  }

  lemma PositiveStep(s: State, a: Act)
    requires Balanced(s) && Positive(s)
    ensures Positive(Step(s, a))
  {
    var s' := Step(s, a);
    if a.Go? && !ThreadOf(s, a.t).pc.Idle? {
      var e := GoFacts(s, a.t);
      var v := ThreadOf(s, a.t).pin.v;
      hide OpStep;
      if e.th.pc.ReplaySwap? {
        assert a.t in Owners(s.threads, v);
        assert PinsOf(s, v) == Owed(s, v);
      }
    } else if (a.Take? || a.Journal? || a.Reap?) && s' != s {
      ThreadsAfter(s, s', a.t, ThreadOf(s', a.t));
    } else {
      assert forall u: nat {:trigger ThreadOf(s', u)} :: ThreadOf(s', u) == ThreadOf(s, u);
    }
  }

  lemma AgreesStep(s: State, a: Act)
    requires Agrees(s)
    ensures Agrees(Step(s, a)) <==> Clean(s, a)
  {
    var s' := Step(s, a);
    if a.Go? && !ThreadOf(s, a.t).pc.Idle? {
      var e := GoFacts(s, a.t);
      hide OpStep;
    } else if Records(s, a) {
      ThreadsAfter(s, s', a.t, ThreadOf(s', a.t));
      assert a.r in s'.bits && EntryAt(s', a.r) == ThreadOf(s, a.t).pin;
      if Agrees(s') {
        forall u: nat | Names(ThreadOf(s, u), a.r)
          ensures ThreadOf(s, u).pin.v == ThreadOf(s, a.t).pin.v
        {
          assert ThreadOf(s', u) == ThreadOf(s, u);
        }
      }
    } else if (a.Take? || a.Reap?) && s' != s {
      ThreadsAfter(s, s', a.t, ThreadOf(s', a.t));
    } else {
      assert forall u: nat {:trigger ThreadOf(s', u)} :: ThreadOf(s', u) == ThreadOf(s, u);
    }
  }

  /** The accounting survives a step exactly when the step is clean. */
  lemma InvStep(s: State, a: Act)
    requires Inv(s)
    ensures Inv(Step(s, a)) <==> Clean(s, a)
  {
    hide Step, Kept, Balanced, Agrees, Positive, Clean;
    KeptStep(s, a);
    BalancedStep(s, a);
    PositiveStep(s, a);
    AgreesStep(s, a);
  }

  /** A step that is not clean steals: whoever named the index may next win a bit that
      stands for another version's pin, and then the count of its own version is one
      below what is owed. */
  lemma UncleanSteals(s: State, a: Act, u: nat)
    requires Inv(s) && Records(s, a) && Names(ThreadOf(s, u), a.r) && ThreadOf(s, u).pin.v != ThreadOf(s, a.t).pin.v
    ensures var s2, v := Step(Step(s, a), Go(u)), ThreadOf(s, u).pin.v;
            Entitled(ThreadOf(s2, u)) && PinsOf(s2, v) == Owed(s2, v) - 1
  {
    var s1, v := Step(s, a), ThreadOf(s, u).pin.v;
    BalancedStep(s, a);
    ThreadsAfter(s, s1, a.t, ThreadOf(s1, a.t));
    assert ThreadOf(s1, u) == ThreadOf(s, u);
    var e := GoFacts(s1, u);
    var s2 := OpStep(s1, u);
    hide OpStep;
    OwnersMove(s1.threads, u, e.th, v);
    BitCleared(s1, s2, a.r, v);
    assert PinsOf(s1, v) == Owed(s1, v);
    hide Owners, BitsOn;
  }

  /** An actor not declared dead only ever records cleanly. */
  lemma LiveRecordsCleanly(s: State, a: Act)
    requires Kept(s) && Records(s, a) && a.r !in s.dead
    ensures Untaken(s, a) && Clean(s, a)
  {
    forall u: nat
      ensures !Names(ThreadOf(s, u), a.r)
    {
      var th := ThreadOf(s, u);
      assert th.pc.Reading? && th.r !in s.dead ==> th.r in s.bits;
    }
  }

  // ---- Every pin is given back once ----

  /** The next step does not record an index someone still names. */
  ghost predicate Untaken(s: State, a: Act) {
    Records(s, a) ==> forall u: nat :: !Names(ThreadOf(s, u), a.r)
  }

  /** Threads working for a pin, however they came by it. */
  predicate Works(th: Thread) {
    !th.pc.Idle? && !th.pc.ReplayRead?
  }

  /** Every pin in sight was taken. */
  ghost predicate Issued(s: State) {
    && (forall t: nat :: (Works(ThreadOf(s, t)) ==> ThreadOf(s, t).pin.id < s.next))
    && (forall t: nat :: (ThreadOf(s, t).pc.ReplayRead? ==> ThreadOf(s, t).r in s.entries))
    && (forall r: nat :: (r in s.bits ==> r in s.entries))
    && (forall r: nat :: (r in s.entries ==> EntryAt(s, r).id < s.next))
    && (forall k :: 0 <= k < |s.spent| ==> s.spent[k] < s.next)
  }

  /** A pin has at most one owner: a thread, a set bit, or the record of having been given
      back. */
  ghost predicate Single(s: State) {
    && (forall t: nat, u: nat ::
          (Owns(ThreadOf(s, t)) && Owns(ThreadOf(s, u)) && ThreadOf(s, t).pin.id == ThreadOf(s, u).pin.id ==> t == u))
    && (forall t: nat, r: nat :: (Owns(ThreadOf(s, t)) && r in s.bits ==> EntryAt(s, r).id != ThreadOf(s, t).pin.id))
    && (forall r: nat, q: nat :: (r in s.bits && q in s.bits && EntryAt(s, r).id == EntryAt(s, q).id ==> r == q))
    && (forall t: nat :: (Owns(ThreadOf(s, t)) ==> ThreadOf(s, t).pin.id !in s.spent))
    && (forall r: nat :: (r in s.bits ==> EntryAt(s, r).id !in s.spent))
    && Distinct(s.spent)
  }

  ghost predicate Distinct(ids: seq<nat>) {
    forall j, k :: 0 <= j < k < |ids| ==> ids[j] != ids[k]
  }

  /** Whoever still names a set index works for the very pin recorded there. */
  ghost predicate Same(s: State) {
    forall t: nat, r: nat :: (r in s.bits && Names(ThreadOf(s, t), r) ==> ThreadOf(s, t).pin == EntryAt(s, r))
  }

  /** A pin not journaled yet is known to its holder alone. */
  ghost predicate Private(s: State) {
    && (forall t: nat, u: nat ::
          (ThreadOf(s, t).pc.Bumped? && Works(ThreadOf(s, u)) && ThreadOf(s, t).pin.id == ThreadOf(s, u).pin.id ==> t == u))
    && (forall t: nat, r: nat :: (ThreadOf(s, t).pc.Bumped? && r in s.entries ==> EntryAt(s, r).id != ThreadOf(s, t).pin.id))
  }

  ghost predicate Ledger(s: State) {
    Issued(s) && Single(s) && Same(s) && Private(s)
  }

  lemma GoIssued(s: State, t: nat)
    requires Issued(s) && Private(s) && !ThreadOf(s, t).pc.Idle?
    ensures Issued(OpStep(s, t)) && Private(OpStep(s, t))
  {
    var e := GoFacts(s, t);
    hide OpStep;
    var s' := OpStep(s, t);
    assert forall r: nat :: EntryAt(s', r) == EntryAt(s, r);
  }

  lemma GoSingle(s: State, t: nat)
    requires Single(s) && Same(s) && !ThreadOf(s, t).pc.Idle?
    ensures Single(OpStep(s, t)) && Same(OpStep(s, t))
  {
    var e := GoFacts(s, t);
    hide OpStep;
    var s' := OpStep(s, t);
    assert forall r: nat :: EntryAt(s', r) == EntryAt(s, r);
    if e.clears {
      assert ThreadOf(s, t).pin == EntryAt(s, ThreadOf(s, t).r);
    }
  }

  lemma RecordsFacts(s: State, a: Act)
    requires Records(s, a)
    ensures var s', th := Step(s, a), ThreadOf(s, a.t);
            && s'.spent == s.spent && s'.next == s.next && s'.bits == s.bits + {a.r} && s'.entries == s.entries[a.r := th.pin]
            && (forall u: nat {:trigger ThreadOf(s', u)} ::
                  ThreadOf(s', u) == if u == a.t then th.(pc := Reading, r := a.r) else ThreadOf(s, u))
            && (forall r: nat {:trigger EntryAt(s', r)} :: EntryAt(s', r) == if r == a.r then th.pin else EntryAt(s, r))
  {
    ThreadsAfter(s, Step(s, a), a.t, ThreadOf(Step(s, a), a.t));
  }

  lemma RecordsIssued(s: State, a: Act)
    requires Issued(s) && Private(s) && Records(s, a)
    ensures Issued(Step(s, a)) && Private(Step(s, a))
  {
    RecordsFacts(s, a);
    hide Step;
  }

  lemma RecordsSingle(s: State, a: Act)
    requires Single(s) && Records(s, a)
    ensures Single(Step(s, a))
  {
    RecordsFacts(s, a);
    hide Step;
  }

  lemma RecordsSame(s: State, a: Act)
    requires Same(s) && Private(s) && Records(s, a)
    ensures Same(Step(s, a)) <==> Untaken(s, a)
  {
    RecordsFacts(s, a);
    hide Step;
    var s' := Step(s, a);
    if Same(s') {
      forall u: nat
        ensures !Names(ThreadOf(s, u), a.r)
      {
        assert u != a.t ==> ThreadOf(s', u) == ThreadOf(s, u);
      }
    }
  }

  /** A thread that starts on a pin nobody has seen, or on none yet. */
  lemma StartLedger(s: State, s': State, t: nat, th: Thread)
    requires Ledger(s) && ThreadOf(s, t).pc.Idle?
    requires s'.threads == s.threads[t := th] && s'.entries == s.entries && s'.bits == s.bits && s'.spent == s.spent
    requires (th.pc.Bumped? && th.pin.id == s.next && s'.next == s.next + 1)
          || (th.pc.ReplayRead? && th.r in s.bits && s'.next == s.next)
    ensures Ledger(s')
  {
    ThreadsAfter(s, s', t, th);
    assert forall r: nat :: EntryAt(s', r) == EntryAt(s, r);
    StartIssued(s, s', t, th);
    StartSingle(s, s', t, th);
  }

  lemma StartIssued(s: State, s': State, t: nat, th: Thread)
    requires Issued(s) && Private(s) && ThreadOf(s, t).pc.Idle?
    requires s'.threads == s.threads[t := th] && s'.entries == s.entries && s'.bits == s.bits && s'.spent == s.spent
    requires (th.pc.Bumped? && th.pin.id == s.next && s'.next == s.next + 1)
          || (th.pc.ReplayRead? && th.r in s.bits && s'.next == s.next)
    ensures Issued(s') && Private(s')
  {
    ThreadsAfter(s, s', t, th);
    assert forall r: nat :: EntryAt(s', r) == EntryAt(s, r);
  }

  lemma StartSingle(s: State, s': State, t: nat, th: Thread)
    requires Issued(s) && Single(s) && ThreadOf(s, t).pc.Idle?
    requires s'.threads == s.threads[t := th] && s'.entries == s.entries && s'.bits == s.bits && s'.spent == s.spent
    requires (th.pc.Bumped? && th.pin.id == s.next) || th.pc.ReplayRead?
    ensures Single(s')
  {
    ThreadsAfter(s, s', t, th);
    assert forall r: nat :: EntryAt(s', r) == EntryAt(s, r);
    StartOwners(s, s', t, th);
    hide ThreadOf, EntryAt, Owns, Works, Distinct;
    StartBits(s, s', t, th);
  }

  lemma StartOwners(s: State, s': State, t: nat, th: Thread)
    requires Issued(s) && Single(s) && ThreadOf(s, t).pc.Idle?
    requires s'.threads == s.threads[t := th]
    requires (th.pc.Bumped? && th.pin.id == s.next) || th.pc.ReplayRead?
    ensures forall t: nat, u: nat ::
              (Owns(ThreadOf(s', t)) && Owns(ThreadOf(s', u)) && ThreadOf(s', t).pin.id == ThreadOf(s', u).pin.id ==> t == u)
  {
    hide Distinct, EntryAt;
    ThreadsAfter(s, s', t, th);
  }

  lemma StartBits(s: State, s': State, t: nat, th: Thread)
    requires Issued(s) && Single(s) && ThreadOf(s, t).pc.Idle?
    requires s'.threads == s.threads[t := th] && s'.entries == s.entries && s'.bits == s.bits && s'.spent == s.spent
    requires (th.pc.Bumped? && th.pin.id == s.next) || th.pc.ReplayRead?
    ensures forall t: nat, r: nat :: (Owns(ThreadOf(s', t)) && r in s'.bits ==> EntryAt(s', r).id != ThreadOf(s', t).pin.id)
    ensures forall t: nat :: (Owns(ThreadOf(s', t)) ==> ThreadOf(s', t).pin.id !in s'.spent)
  {
    hide Distinct;
    ThreadsAfter(s, s', t, th);
    assert forall r: nat :: EntryAt(s', r) == EntryAt(s, r);
  }

  lemma SameLedger(s: State, s': State)
    requires Ledger(s)
    requires s'.threads == s.threads && s'.entries == s.entries && s'.bits == s.bits && s'.spent == s.spent && s'.next == s.next
    ensures Ledger(s')
  {
    assert forall u: nat {:trigger ThreadOf(s', u)} :: ThreadOf(s', u) == ThreadOf(s, u);
    assert forall r: nat {:trigger EntryAt(s', r)} :: EntryAt(s', r) == EntryAt(s, r);
    SameParts(s, s');
  }

  lemma SameParts(s: State, s': State)
    requires Single(s) && Private(s)
    requires s'.threads == s.threads && s'.entries == s.entries && s'.bits == s.bits && s'.spent == s.spent
    ensures Single(s') && Private(s')
  {
    assert forall u: nat {:trigger ThreadOf(s', u)} :: ThreadOf(s', u) == ThreadOf(s, u);
    assert forall r: nat {:trigger EntryAt(s', r)} :: EntryAt(s', r) == EntryAt(s, r);
  }

  lemma OtherLedger(s: State, a: Act)
    requires Ledger(s) && !a.Go? && !Records(s, a)
    ensures Ledger(Step(s, a))
  {
    hide Ledger;
    var s' := Step(s, a);
    if (a.Take? || a.Reap?) && s' != s {
      StartLedger(s, s', a.t, ThreadOf(s', a.t));
    } else {
      SameLedger(s, s');
    }
  }

  /** The ledger of pins survives a step exactly when the step records an index nobody
      names. */
  lemma LedgerStep(s: State, a: Act)
    requires Ledger(s)
    ensures Ledger(Step(s, a)) <==> Untaken(s, a)
  {
    hide Issued, Single, Same, Private, OpStep;
    if a.Go? {
      if !ThreadOf(s, a.t).pc.Idle? {
        GoIssued(s, a.t);
        GoSingle(s, a.t);
      }
    } else if Records(s, a) {
      RecordsIssued(s, a);
      RecordsSingle(s, a);
      RecordsSame(s, a);
    } else {
      OtherLedger(s, a);
    }
  }

  // ---- Whole runs ----

  function Run(s: State, acts: seq<Act>): State {
    if |acts| == 0 then s else Step(Run(s, acts[..|acts| - 1]), acts[|acts| - 1])
  }

  const START: State := State(map[], {}, map[], {}, {}, multiset{}, [], 0, map[])

  ghost predicate CleanRun(acts: seq<Act>) {
    |acts| == 0
    || (CleanRun(acts[..|acts| - 1]) && Clean(Run(START, acts[..|acts| - 1]), acts[|acts| - 1]))
  }

  ghost predicate UntakenRun(acts: seq<Act>) {
    |acts| == 0
    || (UntakenRun(acts[..|acts| - 1]) && Untaken(Run(START, acts[..|acts| - 1]), acts[|acts| - 1]))
  }

  /** No actor records anything once it is declared dead. */
  ghost predicate DeadRecordNothing(acts: seq<Act>) {
    |acts| == 0
    || (DeadRecordNothing(acts[..|acts| - 1])
        && (Records(Run(START, acts[..|acts| - 1]), acts[|acts| - 1]) ==>
              acts[|acts| - 1].r !in Run(START, acts[..|acts| - 1]).dead))
  }

  lemma StartInv()
    ensures Inv(START) && Ledger(START)
  {
    forall v: nat
      ensures PinsOf(START, v) == Owed(START, v)
    {
      assert Owners(START.threads, v) == {} && BitsOn(START, v) == {};
    }
  }

  lemma {:induction false} RunKept(acts: seq<Act>)
    ensures Kept(Run(START, acts)) && Manned(Run(START, acts))
  {
    hide Step, Kept;
    if |acts| == 0 {
      StartInv();
    } else {
      RunKept(acts[..|acts| - 1]);
      KeptStep(Run(START, acts[..|acts| - 1]), acts[|acts| - 1]);
      MannedStep(Run(START, acts[..|acts| - 1]), acts[|acts| - 1]);
    }
  }

  lemma {:induction false} RunInv(acts: seq<Act>)
    requires CleanRun(acts)
    ensures Inv(Run(START, acts))
  {
    hide Step, Inv, Clean;
    if |acts| == 0 {
      StartInv();
    } else {
      RunInv(acts[..|acts| - 1]);
      InvStep(Run(START, acts[..|acts| - 1]), acts[|acts| - 1]);
    }
  }

  lemma {:induction false} RunLedger(acts: seq<Act>)
    requires UntakenRun(acts)
    ensures Ledger(Run(START, acts))
  {
    hide Step, Ledger, Untaken;
    if |acts| == 0 {
      StartInv();
    } else {
      RunLedger(acts[..|acts| - 1]);
      LedgerStep(Run(START, acts[..|acts| - 1]), acts[|acts| - 1]);
    }
  }

  /** It is enough that actors declared dead record nothing. */
  lemma {:induction false} DeadRunsClean(acts: seq<Act>)
    requires DeadRecordNothing(acts)
    ensures CleanRun(acts) && UntakenRun(acts)
  {
    hide Step, Kept, Clean, Untaken;
    if |acts| > 0 {
      var s, a := Run(START, acts[..|acts| - 1]), acts[|acts| - 1];
      DeadRunsClean(acts[..|acts| - 1]);
      RunKept(acts[..|acts| - 1]);
      if Records(s, a) {
        LiveRecordsCleanly(s, a);
      } else {
        RecordsNothing(s, a);
      }
    }
  }

  lemma RecordsNothing(s: State, a: Act)
    requires !Records(s, a)
    ensures Clean(s, a) && Untaken(s, a)
  {
  }

  /** Readers holding version v: before journaling, without a journal, or journaled
      by an actor not declared dead. */
  predicate Live(s: State, th: Thread, v: nat) {
    (th.pc.Bumped? || th.pc.Plain? || (th.pc.Reading? && th.r !in s.dead)) && th.pin.v == v
  }

  function LiveReaders(s: State, v: nat): set<nat> {
    set t | t in s.threads && Live(s, s.threads[t], v)
  }

  function Journaled(s: State, v: nat): set<nat> {
    set t | t in s.threads && s.threads[t].pc.Reading? && s.threads[t].r !in s.dead && s.threads[t].pin.v == v
  }

  /** Distinct holders with their bits set are no more than the set bits. */
  lemma {:induction false} HoldersWithin(s: State, holders: set<nat>, bits: set<nat>)
    requires forall t :: t in holders ==> t in s.threads && s.threads[t].r in bits
    requires forall t, u :: t in holders && u in holders && s.threads[t].r == s.threads[u].r ==> t == u
    ensures |holders| <= |bits|
    decreases holders
  {
    if holders != {} {
      var t :| t in holders;
      HoldersWithin(s, holders - {t}, bits - {s.threads[t].r});
    }
  }

  lemma Split(s: State, v: nat)
    ensures |LiveReaders(s, v)| <= |Owners(s.threads, v)| + |Journaled(s, v)|
  {
    var owners, journaled := Owners(s.threads, v), Journaled(s, v);
    assert LiveReaders(s, v) <= owners + journaled;
    Subset(LiveReaders(s, v), owners + journaled);
    assert |owners + journaled| <= |owners| + |journaled|;
  }

  lemma {:induction false} Subset(a: set<nat>, b: set<nat>)
    requires a <= b
    ensures |a| <= |b|
    decreases a
  {
    if a != {} {
      var x :| x in a;
      Subset(a - {x}, b - {x});
    }
  }

  /** Crash replay never steals a live pin: in every clean run, with holders stopped at any
      step and replays racing their drops, each version's count is at least the number of
      its live readers, and exactly what is owed. */
  lemma NeverSteals(acts: seq<Act>, v: nat)
    requires CleanRun(acts)
    ensures var s := Run(START, acts);
            PinsOf(s, v) == Owed(s, v) && PinsOf(s, v) >= |LiveReaders(s, v)|
  {
    RunInv(acts);
    var s := Run(START, acts);
    Enough(s, v);
  }

  lemma Enough(s: State, v: nat)
    requires Inv(s)
    ensures PinsOf(s, v) == Owed(s, v) && PinsOf(s, v) >= |LiveReaders(s, v)|
  {
    var journaled, bits := Journaled(s, v), BitsOn(s, v);
    forall t | t in journaled
      ensures s.threads[t].r in bits
    {
      assert Names(ThreadOf(s, t), ThreadOf(s, t).r);
    }
    forall t, u | t in journaled && u in journaled && s.threads[t].r == s.threads[u].r
      ensures t == u
    {
      assert Names(ThreadOf(s, t), ThreadOf(s, u).r);
    }
    HoldersWithin(s, journaled, bits);
    Split(s, v);
  }

  /** Each pin is given back at most once, by its holder and the coordinator together:
      nobody is given back twice, nobody is entitled to what was given back, and no two are
      entitled to the same. */
  lemma AtMostOnce(acts: seq<Act>, t: nat, u: nat)
    requires UntakenRun(acts)
    ensures var s := Run(START, acts);
            && Distinct(s.spent)
            && (Owns(ThreadOf(s, t)) ==> ThreadOf(s, t).pin.id !in s.spent)
            && (Owns(ThreadOf(s, t)) && Owns(ThreadOf(s, u)) && ThreadOf(s, t).pin.id == ThreadOf(s, u).pin.id ==> t == u)
  {
    RunLedger(acts);
  }

  /** What is left of a version when every thread is done is exactly what replays gave up
      on because the slot was not live at the moment they looked. */
  lemma OnlyMissesLeak(acts: seq<Act>, v: nat)
    requires CleanRun(acts) && forall t: nat :: ThreadOf(Run(START, acts), t).pc.Idle?
    ensures PinsOf(Run(START, acts), v) == Run(START, acts).leaked[v]
  {
    RunInv(acts);
    RunKept(acts);
    var s := Run(START, acts);
    assert Owners(s.threads, v) == {} by {
      forall t | t in s.threads
        ensures !Owns(s.threads[t])
      {
        assert ThreadOf(s, t).pc.Idle?;
      }
    }
    assert s.bits == {};
    assert BitsOn(s, v) == {};
    assert PinsOf(s, v) == Owed(s, v);
  }
}
