/** The tagged Treiber free list of a pool size class, step by step: load the head,
    read or write a link, compare-and-swap (crates/shm-core/src/pool.rs,
    treiber_pop and treiber_push). Links live in the chunks' own payload, so
    whoever holds a chunk may overwrite its link at any time. */
module Treiber {
  import opened Common

  /** Tags are 32 bits wide; a compare-and-swap sees them modulo this. */
  const TAGS: nat := 0x1_0000_0000

  datatype Pc = Idle | PopRead | PopSwap | Holding | PushLink | PushSwap

  /** A thread's instruction, the head it loaded, the slot it works on, and the link
      it read. */
  datatype Thread = Thread(pc: Pc, tag: nat, top: nat, slot: nat, next: nat)

  /** The head as tag and top slot (|links| when empty), every slot's link word, and
      the threads. Tags count all swaps ever made. */
  datatype State = State(tag: nat, top: nat, links: seq<nat>, threads: map<nat, Thread>)

  /** What a thread may choose: pop when idle, write or push what it holds, or have
      a weak compare-and-swap fail for no reason. */
  datatype Act = Go | Write(value: nat) | Spurious

  const RESTING: Thread := Thread(Idle, 0, 0, 0, 0)

  function ThreadOf(s: State, t: nat): Thread {
    if t in s.threads then s.threads[t] else RESTING
  }

  function Put(s: State, t: nat, th: Thread): State {
    s.(threads := s.threads[t := th])
  }

  function SetLink(s: State, slot: nat, value: nat): State {
    if slot < |s.links| then s.(links := s.links[slot := value]) else s
  }

  function LinkOf(s: State, slot: nat): nat {
    if slot < |s.links| then s.links[slot] else 0
  }

  /** The packed head a thread loaded compares equal to the packed head now. */
  predicate Swaps(s: State, th: Thread) {
    th.tag % TAGS == s.tag % TAGS && th.top == s.top
  }

  /** One atomic step of thread t. */
  function Step(s: State, t: nat, a: Act): State {
    var th := ThreadOf(s, t);
    match th.pc
    case Idle =>
      if s.top == |s.links| then s else Put(s, t, Thread(PopRead, s.tag, s.top, s.top, 0))
    case PopRead => Put(s, t, th.(pc := PopSwap, next := LinkOf(s, th.slot)))
    case PopSwap =>
      if Swaps(s, th) && !a.Spurious? then Put(s.(tag := s.tag + 1, top := th.next), t, th.(pc := Holding))
      else Put(s, t, RESTING)
    case Holding =>
      if a.Write? then SetLink(s, th.slot, a.value)
      else Put(s, t, th.(pc := PushLink, tag := s.tag, top := s.top))
    case PushLink => Put(SetLink(s, th.slot, th.top), t, th.(pc := PushSwap))
    case PushSwap =>
      if Swaps(s, th) && !a.Spurious? then Put(s.(tag := s.tag + 1, top := th.slot), t, RESTING)
      else Put(s, t, th.(pc := Holding))
  }

  /** A pop is about to install a link that is not the top slot's. */
  predicate Stale(s: State, t: nat, a: Act) {
    var th := ThreadOf(s, t);
    th.pc.PopSwap? && Swaps(s, th) && !a.Spurious? && th.next != LinkOf(s, s.top)
  }

  /** Fewer than 2^32 swaps happened since a thread about to swap loaded the head. */
  predicate InWindow(s: State, t: nat) {
    var th := ThreadOf(s, t);
    th.pc.PopSwap? || th.pc.PushSwap? ==> s.tag < th.tag + TAGS
  }

  predicate Holds(th: Thread) {
    th.pc.Holding? || th.pc.PushLink? || th.pc.PushSwap?
  }

  // ---- The abstract stack ----

  /** The links, followed from `top`, list exactly `free`. */
  predicate Listed(s: State, top: nat, free: seq<nat>)
    decreases |free|
  {
    if |free| == 0 then top == |s.links|
    else top == free[0] < |s.links| && Listed(s, s.links[free[0]], free[1..])
  }

  /** The abstract stack after the step: a successful pop takes the first slot, a
      successful push adds the thread's slot, and nothing else changes it. */
  function Abstract(s: State, t: nat, a: Act, free: seq<nat>): seq<nat> {
    var th := ThreadOf(s, t);
    if a.Spurious? || !Swaps(s, th) then free
    else if th.pc.PopSwap? && |free| > 0 then free[1..]
    else if th.pc.PushSwap? then [th.slot] + free
    else free
  }

  ghost predicate Apart(s: State, free: seq<nat>) {
    && (forall i, j :: 0 <= i < j < |free| ==> free[i] != free[j])
    && (forall t: nat :: Holds(ThreadOf(s, t)) ==> ThreadOf(s, t).slot < |s.links| && ThreadOf(s, t).slot !in free)
    && (forall t: nat, u: nat ::
          Holds(ThreadOf(s, t)) && Holds(ThreadOf(s, u)) && ThreadOf(s, t).slot == ThreadOf(s, u).slot ==> t == u)
    && (forall k: nat :: k < |s.links| && k !in free ==> exists t: nat :: HoldsSlot(ThreadOf(s, t), k))
  }

  predicate HoldsSlot(th: Thread, k: nat) {
    Holds(th) && th.slot == k
  }

  /** A loaded head that has not moved still describes the list, link included. */
  predicate Loaded(s: State, th: Thread) {
    && (th.pc.PopRead? || th.pc.PopSwap? || th.pc.PushLink? || th.pc.PushSwap? ==> th.tag <= s.tag)
    && ((th.pc.PopRead? || th.pc.PopSwap?) ==> th.slot == th.top < |s.links|)
    && (th.tag == s.tag && (th.pc.PopRead? || th.pc.PopSwap?) ==> th.top == s.top < |s.links|)
    && (th.tag == s.tag && th.pc.PopSwap? ==> th.next == LinkOf(s, s.top))
    && (th.tag == s.tag && (th.pc.PushLink? || th.pc.PushSwap?) ==> th.top == s.top)
    && (th.pc.PushSwap? ==> LinkOf(s, th.slot) == th.top)
  }

  ghost predicate Inv(s: State, free: seq<nat>) {
    Listed(s, s.top, free) && Apart(s, free) && forall t: nat :: Loaded(s, ThreadOf(s, t))
  }

  lemma {:induction false} ListedFrame(s: State, s': State, top: nat, free: seq<nat>)
    requires |s'.links| == |s.links| && Listed(s, top, free)
    requires forall i :: 0 <= i < |free| ==> LinkOf(s', free[i]) == LinkOf(s, free[i])
    ensures Listed(s', top, free)
    decreases |free|
  {
    if |free| > 0 {
      assert LinkOf(s', free[0]) == LinkOf(s, free[0]);
      ListedFrame(s, s', s.links[free[0]], free[1..]);
    }
  }

  /** Within the window a successful swap means the head never moved. */
  lemma NeverMoved(s: State, th: Thread)
    requires Swaps(s, th) && th.tag <= s.tag < th.tag + TAGS
    ensures th.tag == s.tag
  {
  }

  lemma ThreadsAfter(s: State, s': State, t: nat, th: Thread)
    requires s'.threads == s.threads[t := th]
    ensures forall u: nat {:trigger ThreadOf(s', u)} :: ThreadOf(s', u) == if u == t then th else ThreadOf(s, u)
  {
  }

  /** A thread moved without touching head, links or holdings. */
  lemma MovedOnly(s: State, t: nat, th: Thread, free: seq<nat>)
    requires Inv(s, free) && Loaded(s, th)
    requires Holds(th) <==> Holds(ThreadOf(s, t))
    requires Holds(th) ==> th.slot == ThreadOf(s, t).slot
    ensures Inv(Put(s, t, th), free)
  {
    var s' := Put(s, t, th);
    ThreadsAfter(s, s', t, th);
    ListedFrame(s, s', s.top, free);
    forall k: nat | k < |s.links| && k !in free
      ensures exists u: nat :: HoldsSlot(ThreadOf(s', u), k)
    {
      var u: nat :| HoldsSlot(ThreadOf(s, u), k);
      assert HoldsSlot(ThreadOf(s', u), k);
    }
  }

  /** A holder overwrote the link of its own slot. */
  lemma WroteOwn(s: State, t: nat, value: nat, free: seq<nat>)
    requires Inv(s, free) && Holds(ThreadOf(s, t)) && !ThreadOf(s, t).pc.PushSwap?
    ensures Inv(SetLink(s, ThreadOf(s, t).slot, value), free)
  {
    var s' := SetLink(s, ThreadOf(s, t).slot, value);
    assert forall u: nat {:trigger ThreadOf(s', u)} :: ThreadOf(s', u) == ThreadOf(s, u);
    ListedFrame(s, s', s.top, free);
    forall k: nat | k < |s.links| && k !in free
      ensures exists u: nat :: HoldsSlot(ThreadOf(s', u), k)
    {
      var u: nat :| HoldsSlot(ThreadOf(s, u), k);
      assert HoldsSlot(ThreadOf(s', u), k);
    }
    forall u: nat
      ensures Loaded(s', ThreadOf(s', u))
    {
      assert Loaded(s, ThreadOf(s, u));
      TopListed(s, free);
    }
  }

  lemma TopListed(s: State, free: seq<nat>)
    requires Listed(s, s.top, free)
    ensures s.top < |s.links| <==> |free| > 0
    ensures |free| > 0 ==> s.top == free[0]
  {
  }

  lemma Popped(s: State, t: nat, free: seq<nat>)
    requires Inv(s, free) && ThreadOf(s, t).pc.PopSwap?
    requires ThreadOf(s, t).top == s.top && ThreadOf(s, t).next == LinkOf(s, s.top)
    ensures |free| > 0 && ThreadOf(s, t).slot == free[0]
    ensures Inv(Put(s.(tag := s.tag + 1, top := ThreadOf(s, t).next), t, ThreadOf(s, t).(pc := Holding)), free[1..])
  {
    var th := ThreadOf(s, t);
    assert Loaded(s, th);
    TopListed(s, free);
    var s', rest := Put(s.(tag := s.tag + 1, top := th.next), t, th.(pc := Holding)), free[1..];
    ThreadsAfter(s, s', t, th.(pc := Holding));
    ListedFrame(s, s', th.next, rest);
    assert forall k :: k in rest ==> k in free;
    assert free[0] !in rest;
    forall k: nat | k < |s.links| && k !in rest
      ensures exists u: nat :: HoldsSlot(ThreadOf(s', u), k)
    {
      if k == free[0] {
        assert HoldsSlot(ThreadOf(s', t), k);
      } else {
        assert k !in free;
        var u: nat :| HoldsSlot(ThreadOf(s, u), k);
        assert HoldsSlot(ThreadOf(s', u), k);
      }
    }
  }

  lemma Pushed(s: State, t: nat, free: seq<nat>)
    requires Inv(s, free) && ThreadOf(s, t).pc.PushSwap? && ThreadOf(s, t).top == s.top
    ensures Inv(Put(s.(tag := s.tag + 1, top := ThreadOf(s, t).slot), t, RESTING), [ThreadOf(s, t).slot] + free)
  {
    var th := ThreadOf(s, t);
    assert Loaded(s, th);
    var s', more := Put(s.(tag := s.tag + 1, top := th.slot), t, RESTING), [th.slot] + free;
    ThreadsAfter(s, s', t, RESTING);
    ListedFrame(s, s', s.top, free);
    assert more[1..] == free;
    forall k: nat | k < |s.links| && k !in more
      ensures exists u: nat :: HoldsSlot(ThreadOf(s', u), k)
    {
      assert k !in free;
      var u: nat :| HoldsSlot(ThreadOf(s, u), k);
      assert u != t;
      assert HoldsSlot(ThreadOf(s', u), k);
    }
    assert forall k :: k in more <==> k == th.slot || k in free;
  }

  /** A stale link leads somewhere else than the rest of the list. */
  lemma StalePop(s: State, t: nat, a: Act, free: seq<nat>)
    requires Inv(s, free) && Stale(s, t, a)
    ensures !Inv(Step(s, t, a), Abstract(s, t, a, free))
  {
    assert Loaded(s, ThreadOf(s, t));
    TopListed(s, free);
    var s', rest := Step(s, t, a), free[1..];
    assert Listed(s, s.links[s.top], rest);
    hide Apart;
    if Listed(s', s'.top, rest) {
      HeadListed(s, s.links[s.top], s', s'.top, rest);
    }
  }

  lemma HeadListed(s: State, top: nat, s': State, top': nat, free: seq<nat>)
    requires Listed(s, top, free) && Listed(s', top', free) && |s.links| == |s'.links|
    ensures top == top'
  {
  }

  /** Every step refines one step, or none, of the atomic stack, exactly when it does
      not install a stale link. */
  lemma StepRefinesIff(s: State, t: nat, a: Act, free: seq<nat>)
    requires Inv(s, free)
    ensures Inv(Step(s, t, a), Abstract(s, t, a, free)) <==> !Stale(s, t, a)
  {
    hide *;
    if Stale(s, t, a) {
      StalePop(s, t, a, free);
    } else {
      StepRefines(s, t, a, free);
    }
  }

  lemma StepRefines(s: State, t: nat, a: Act, free: seq<nat>)
    requires Inv(s, free) && !Stale(s, t, a)
    ensures Inv(Step(s, t, a), Abstract(s, t, a, free))
  {
    var th := ThreadOf(s, t);
    assert Loaded(s, th);
    TopListed(s, free);
    hide Inv;
    match th.pc
    case Idle =>
      if s.top != |s.links| {
        MovedOnly(s, t, Thread(PopRead, s.tag, s.top, s.top, 0), free);
      }
    case PopRead => MovedOnly(s, t, th.(pc := PopSwap, next := LinkOf(s, th.slot)), free);
    case PopSwap =>
      if Swaps(s, th) && !a.Spurious? {
        Popped(s, t, free);
      } else {
        MovedOnly(s, t, RESTING, free);
      }
    case Holding =>
      if a.Write? {
        WroteOwn(s, t, a.value, free);
      } else {
        MovedOnly(s, t, th.(pc := PushLink, tag := s.tag, top := s.top), free);
      }
    case PushLink =>
      WroteOwn(s, t, th.top, free);
      MovedOnly(SetLink(s, th.slot, th.top), t, th.(pc := PushSwap), free);
    case PushSwap =>
      if Swaps(s, th) && !a.Spurious? {
        Pushed(s, t, free);
      } else {
        MovedOnly(s, t, th.(pc := Holding), free);
      }
  }

  /** Within the window no link goes stale: one read from a slot that was popped meanwhile
      is never installed. */
  lemma WindowNotStale(s: State, t: nat, a: Act, free: seq<nat>)
    requires Inv(s, free) && InWindow(s, t)
    ensures !Stale(s, t, a)
  {
    var th := ThreadOf(s, t);
    assert Loaded(s, th);
    if Swaps(s, th) && th.pc.PopSwap? {
      NeverMoved(s, th);
    }
  }

  // ---- Whole runs ----

  /** A fresh class of n chunks: every slot links the next one. */
  function Init(n: nat): State {
    State(0, 0, seq(n, i => i + 1), map[])
  }

  function Upto(i: nat, n: nat): seq<nat>
    requires i <= n
    decreases n - i
  {
    if i == n then [] else [i] + Upto(i + 1, n)
  }

  type Schedule = seq<(nat, Act)>

  function Run(s: State, sched: Schedule): State {
    if |sched| == 0 then s
    else
      var last := sched[|sched| - 1];
      Step(Run(s, sched[..|sched| - 1]), last.0, last.1)
  }

  /** The atomic stack driven by the same schedule. */
  function AbstractRun(s: State, sched: Schedule, free: seq<nat>): seq<nat> {
    if |sched| == 0 then free
    else
      var last, before := sched[|sched| - 1], sched[..|sched| - 1];
      Abstract(Run(s, before), last.0, last.1, AbstractRun(s, before, free))
  }

  /** No step installs a stale link. */
  predicate NeverStale(s: State, sched: Schedule) {
    |sched| == 0
    || (var last, before := sched[|sched| - 1], sched[..|sched| - 1];
        NeverStale(s, before) && !Stale(Run(s, before), last.0, last.1))
  }

  /** The list and the atomic stack agree all along the schedule. */
  ghost predicate Refines(s: State, sched: Schedule, free: seq<nat>) {
    Inv(Run(s, sched), AbstractRun(s, sched, free)) && (|sched| == 0 || Refines(s, sched[..|sched| - 1], free))
  }

  /** No thread is overtaken by 2^32 swaps between its load and its swap. */
  predicate Unwrapped(s: State, sched: Schedule) {
    |sched| == 0
    || (Unwrapped(s, sched[..|sched| - 1]) && InWindow(Run(s, sched[..|sched| - 1]), sched[|sched| - 1].0))
  }

  lemma {:induction false} UptoAt(i: nat, n: nat, k: nat)
    requires i <= n
    ensures |Upto(i, n)| == n - i
    ensures k < n - i ==> Upto(i, n)[k] == i + k
    decreases n - i
  {
    if i < n {
      UptoAt(i + 1, n, if k > 0 then k - 1 else 0);
      UptoAt(i + 1, n, 0);
    }
  }

  lemma {:induction false} FreshListed(n: nat, i: nat)
    requires i <= n
    ensures Listed(Init(n), i, Upto(i, n))
    decreases n - i
  {
    if i < n {
      FreshListed(n, i + 1);
      assert ([i] + Upto(i + 1, n))[1..] == Upto(i + 1, n);
    }
  }

  lemma InitInv(n: nat)
    ensures Inv(Init(n), Upto(0, n))
  {
    FreshListed(n, 0);
    var free := Upto(0, n);
    forall k: nat
      ensures |free| == n && (k < n ==> free[k] == k)
    {
      UptoAt(0, n, k);
    }
    forall k: nat | k < n
      ensures k in free
    {
      assert free[k] == k;
    }
  }

  /** The tagged list refines an atomic stack all along a schedule of any number of
      threads exactly when no step installs a stale link. */
  lemma {:induction false} RefinesStack(n: nat, sched: Schedule)
    ensures Refines(Init(n), sched, Upto(0, n)) <==> NeverStale(Init(n), sched)
  {
    hide Inv, Step, Abstract, Stale, Init;
    if |sched| == 0 {
      InitInv(n);
    } else {
      var last, before := sched[|sched| - 1], sched[..|sched| - 1];
      RefinesStack(n, before);
      if Refines(Init(n), before, Upto(0, n)) {
        StepRefinesIff(Run(Init(n), before), last.0, last.1, AbstractRun(Init(n), before, Upto(0, n)));
      }
    }
  }

  /** As long as no thread is overtaken by a whole turn of the tag, the list refines the
      stack. */
  lemma {:induction false} WindowRefines(n: nat, sched: Schedule)
    requires Unwrapped(Init(n), sched)
    ensures NeverStale(Init(n), sched) && Refines(Init(n), sched, Upto(0, n))
  {
    hide Inv, Step, Abstract, Stale, InWindow, Init;
    if |sched| > 0 {
      var last, before := sched[|sched| - 1], sched[..|sched| - 1];
      WindowRefines(n, before);
      WindowNotStale(Run(Init(n), before), last.0, last.1, AbstractRun(Init(n), before, Upto(0, n)));
    }
    RefinesStack(n, sched);
  }

  /** Every slot is on the free list exactly once or held by exactly one thread. */
  lemma EverySlotOnce(n: nat, sched: Schedule, k: nat)
    requires NeverStale(Init(n), sched) && k < |Run(Init(n), sched).links|
    ensures var s, free := Run(Init(n), sched), AbstractRun(Init(n), sched, Upto(0, n));
            if k in free then
              (forall i, j :: 0 <= i < |free| && 0 <= j < |free| && free[i] == free[j] == k ==> i == j)
              && forall t: nat :: !HoldsSlot(ThreadOf(s, t), k)
            else
              (exists t: nat :: HoldsSlot(ThreadOf(s, t), k))
              && forall t: nat, u: nat :: HoldsSlot(ThreadOf(s, t), k) && HoldsSlot(ThreadOf(s, u), k) ==> t == u
  {
    RefinesStack(n, sched);
  }

  /** The window is needed: one whole turn of the tag after its load, a stale pop
      whose link names a slot someone holds succeeds and puts that slot on the list. */
  lemma WrapInstallsHeld(s: State, t: nat, u: nat)
    requires ThreadOf(s, t).pc.PopSwap? && ThreadOf(s, t).tag + TAGS == s.tag && ThreadOf(s, t).top == s.top
    requires u != t && HoldsSlot(ThreadOf(s, u), ThreadOf(s, t).next)
    requires ThreadOf(s, t).next < |s.links|
    ensures forall free :: !Inv(Step(s, t, Go), free)
  {
    var th, s' := ThreadOf(s, t), Step(s, t, Go);
    assert Swaps(s, th);
    assert HoldsSlot(ThreadOf(s', u), s'.top);
    forall free: seq<nat>
      ensures !Inv(s', free)
    {
      if Listed(s', s'.top, free) {
        TopListed(s', free);
      }
    }
  }
}
