/** The recycle handshake of a head region: an operation registers first (a pin, a
    slot claim or the write lease) and then checks the incarnation; a sweep retires
    the incarnation first and then scans for registrations, word by word
    (crates/shm-artifact/src/head.rs, retire, is_quiescent, revalidate_incarnation,
    init_at and commission; crates/shm-artifact/src/artifact.rs, pin_inner, the
    claim check and install of a commit, open_exclusive, evict_all and commission_head). */
module Recycle {
  import opened Common

  datatype Slot = Slot(live: bool, pins: int, version: nat)

  /** An operation's next instruction; Pinned, Claimed and Leased have passed their
      incarnation check. */
  datatype Pc =
    | Idle | PinBump | PinCheck | Pinned | PinUndo | ClaimSwap | ClaimCheck | Claimed | ClaimUndo
    | LeaseSwap | LeaseCheck | Leased | LeaseUndo

  /** A thread, the incarnation its handle adopted, its slot, and the version it commits. */
  datatype Thread = Thread(pc: Pc, inc: nat, i: nat, v: nat)

  datatype Sweep =
    | Resting | ScanCurrent | ScanLease | ScanState(k: nat) | ScanPins(k: nat) | Aborted | Quiet | Fresh

  /** The head: incarnation in service (0 for none), the current version (0 for none), the
      lease's holder (thread + 1, or 0), and the slots; then the sweep and the incarnation
      it took out of service, how many incarnations were issued, and the threads. */
  datatype State = State(
    inc: nat, current: nat, lease: nat, slots: seq<Slot>, sweep: Sweep, retired: nat, issued: nat, threads: map<nat, Thread>)

  const RESTING: Thread := Thread(Idle, 0, 0, 0)
  const EMPTY: Slot := Slot(false, 0, 0)

  datatype Kind = Pin | Claim | Lease

  /** A thread step; a fresh operation with any handle ever issued; a claim that tries to
      install; any slot freed, by a retire, an evictor or a stale election; the current word
      cleared or the lease revoked by an evictor; or a step of the sweep. */
  datatype Act =
    | Go(t: nat) | Start(t: nat, kind: Kind, handle: nat, i: nat, v: nat) | Install(t: nat) | FreeSlot(i: nat) | Evict
    | Revoke | Sweeping

  function ThreadOf(s: State, t: nat): Thread {
    if t in s.threads then s.threads[t] else RESTING
  }

  function SlotAt(s: State, i: nat): Slot {
    if i < |s.slots| then s.slots[i] else EMPTY
  }

  function SetSlot(s: State, i: nat, slot: Slot): State {
    if i < |s.slots| then s.(slots := s.slots[i := slot]) else s
  }

  function Put(s: State, t: nat, th: Thread): State {
    s.(threads := s.threads[t := th])
  }

  function Freed(slot: Slot): Slot {
    slot.(live := false, version := 0)
  }

  /** An operation's next step: register, check, and give up or carry on; from Pinned,
      Claimed and Leased the step is the one that deregisters. A commit that lost its
      install frees its slot only if the slot still carries its version. */
  function OpStep(s: State, t: nat): State {
    var th := ThreadOf(s, t);
    var slot := SlotAt(s, th.i);
    match th.pc
    case Idle => s
    case PinBump => Put(SetSlot(s, th.i, slot.(pins := slot.pins + 1)), t, th.(pc := PinCheck))
    case PinCheck => Put(s, t, th.(pc := if s.inc == th.inc then Pinned else PinUndo))
    case Pinned => Put(SetSlot(s, th.i, slot.(pins := slot.pins - 1)), t, RESTING)
    case PinUndo => Put(SetSlot(s, th.i, slot.(pins := slot.pins - 1)), t, RESTING)
    case ClaimSwap =>
      if slot.live then Put(s, t, RESTING)
      else Put(SetSlot(s, th.i, slot.(live := true, version := th.v)), t, th.(pc := ClaimCheck))
    case ClaimCheck => Put(s, t, th.(pc := if s.inc == th.inc then Claimed else ClaimUndo))
    case Claimed => Put(if slot.live && slot.version == th.v then SetSlot(s, th.i, Freed(slot)) else s, t, RESTING)
    case ClaimUndo => Put(SetSlot(s, th.i, Freed(slot)), t, RESTING)
    case LeaseSwap => if s.lease != 0 then Put(s, t, RESTING) else Put(s.(lease := t + 1), t, th.(pc := LeaseCheck))
    case LeaseCheck => Put(s, t, th.(pc := if s.inc == th.inc then Leased else LeaseUndo))
    case Leased => Put(if s.lease == t + 1 then s.(lease := 0) else s, t, RESTING)
    case LeaseUndo => Put(if s.lease == t + 1 then s.(lease := 0) else s, t, RESTING)
  }

  /** The sweep: retire, scan every word, and only then initialise the region afresh
      and put it into service under a new incarnation; a scan that finds something puts
      the old incarnation back. */
  function SweepStep(s: State): State {
    match s.sweep
    case Resting => s.(inc := 0, retired := s.inc, sweep := ScanCurrent)
    case ScanCurrent => s.(sweep := if s.current != 0 then Aborted else ScanLease)
    case ScanLease => s.(sweep := if s.lease != 0 then Aborted else ScanState(0))
    case ScanState(k) =>
      s.(sweep := if k >= |s.slots| then Quiet else if s.slots[k].live then Aborted else ScanPins(k))
    case ScanPins(k) => s.(sweep := if SlotAt(s, k).pins != 0 then Aborted else ScanState(k + 1))
    case Aborted => s.(inc := s.retired, sweep := Resting)
    case Quiet => s.(current := 0, lease := 0, slots := seq(|s.slots|, _ => EMPTY), sweep := Fresh)
    case Fresh => s.(inc := s.issued + 1, retired := 0, issued := s.issued + 1, sweep := Resting)
  }

  function Step(s: State, a: Act): State {
    match a
    case Go(t) => OpStep(s, t)
    case Start(t, kind, handle, i, v) =>
      if !ThreadOf(s, t).pc.Idle? || i >= |s.slots| || handle == 0 || handle > s.issued then s
      else Put(s, t, Thread(if kind.Pin? then PinBump else if kind.Claim? then ClaimSwap else LeaseSwap, handle, i, v))
    case Install(t) =>
      if ThreadOf(s, t).pc.Claimed? && s.current + 1 == ThreadOf(s, t).v
      then Put(s.(current := ThreadOf(s, t).v), t, RESTING)
      else s
    case FreeSlot(i) => SetSlot(s, i, Freed(SlotAt(s, i)))
    case Evict => s.(current := 0)
    case Revoke => s.(lease := 0)
    case Sweeping => SweepStep(s)
  }

  /** Some thread's claim of slot i is outstanding. */
  predicate Owned(s: State, i: nat) {
    exists t :: t in s.threads && Claims(s.threads[t]) && s.threads[t].i == i
  }

  predicate Claims(th: Thread) {
    th.pc.ClaimCheck? || th.pc.Claimed? || th.pc.ClaimUndo?
  }

  predicate Bumps(th: Thread) {
    th.pc.PinCheck? || th.pc.Pinned? || th.pc.PinUndo?
  }

  // ---- What keeps the books ----

  predicate Initialises(s: State, a: Act) {
    a.Sweeping? && s.sweep.Quiet?
  }

  /** The head is not initialised under an outstanding pin. */
  ghost predicate SparesPins(s: State, a: Act) {
    Initialises(s, a) ==> forall t: nat :: !Bumps(ThreadOf(s, t))
  }

  /** Nor under an outstanding claim, and no claimed slot is freed by anyone else. */
  ghost predicate SparesClaims(s: State, a: Act) {
    && (Initialises(s, a) ==> forall t: nat :: !Claims(ThreadOf(s, t)))
    && (a.FreeSlot? ==> !Owned(s, a.i))
  }

  ghost predicate Clean(s: State, a: Act) {
    SparesPins(s, a) && SparesClaims(s, a)
  }

  function Bumpers(threads: map<nat, Thread>, i: nat): set<nat> {
    set t | t in threads && Bumps(threads[t]) && threads[t].i == i
  }

  /** A slot's pin count is exactly the registrations outstanding on it. */
  ghost predicate Counts(s: State) {
    forall k: nat :: k < |s.slots| ==> SlotAt(s, k).pins == |Bumpers(s.threads, k)|
  }

  /** An outstanding claim keeps its slot live, under its version, and to itself. */
  ghost predicate ClaimsHeld(s: State) {
    && (forall t: nat :: Claims(ThreadOf(s, t)) ==>
          SlotAt(s, ThreadOf(s, t).i).live && SlotAt(s, ThreadOf(s, t).i).version == ThreadOf(s, t).v)
    && (forall t: nat, u: nat ::
          Claims(ThreadOf(s, t)) && Claims(ThreadOf(s, u)) && ThreadOf(s, t).i == ThreadOf(s, u).i ==> t == u)
  }

  ghost predicate InTable(s: State) {
    forall t: nat :: !ThreadOf(s, t).pc.Idle? ==> ThreadOf(s, t).i < |s.slots| && 0 < ThreadOf(s, t).inc <= s.issued
  }

  /** Either nothing is in service or the latest incarnation is; a scan runs only
      while nothing is, and can only put back the latest. */
  predicate Service(s: State) {
    && (s.inc == 0 || s.inc == s.issued)
    && (!s.sweep.Resting? ==> s.inc == 0)
    && (s.retired == 0 || s.retired == s.issued)
  }

  /** The scan has yet to load the word that registers a pin (claim, lease) of slot i. */
  predicate PinsAhead(w: Sweep, i: nat) {
    w.Resting? || w.Aborted? || w.ScanCurrent? || w.ScanLease? || ((w.ScanState? || w.ScanPins?) && w.k <= i)
  }

  predicate StateAhead(w: Sweep, i: nat) {
    w.Resting? || w.Aborted? || w.ScanCurrent? || w.ScanLease? || (w.ScanState? && w.k <= i) || (w.ScanPins? && w.k < i)
  }

  predicate LeaseAhead(w: Sweep) {
    w.Resting? || w.Aborted? || w.ScanCurrent? || w.ScanLease?
  }

  /** An operation that passed its check is of the incarnation in service, or the
      scan has yet to come to it. */
  predicate PinPass(s: State, t: nat) {
    var th := ThreadOf(s, t);
    && (th.pc.Pinned? ==> th.inc == s.inc || PinsAhead(s.sweep, th.i))
    && (th.pc.Leased? && s.lease == t + 1 ==> th.inc == s.inc || LeaseAhead(s.sweep))
  }

  predicate ClaimPass(s: State, t: nat) {
    ThreadOf(s, t).pc.Claimed? ==> ThreadOf(s, t).inc == s.inc || StateAhead(s.sweep, ThreadOf(s, t).i)
  }

  /** The books of pins and leases. */
  ghost predicate PinBooks(s: State) {
    InTable(s) && Service(s) && Counts(s) && forall t: nat :: PinPass(s, t)
  }

  /** The books of claims. */
  ghost predicate ClaimBooks(s: State) {
    InTable(s) && Service(s) && ClaimsHeld(s) && forall t: nat :: ClaimPass(s, t)
  }

  ghost predicate Inv(s: State) {
    PinBooks(s) && ClaimBooks(s)
  }

  lemma ThreadsAfter(s: State, s': State, t: nat, th: Thread)
    requires s'.threads == s.threads[t := th]
    ensures forall u: nat {:trigger ThreadOf(s', u)} :: ThreadOf(s', u) == if u == t then th else ThreadOf(s, u)
  {
  }

  lemma BumpersMove(threads: map<nat, Thread>, t: nat, th: Thread, i: nat)
    ensures var was := t in threads && Bumps(threads[t]) && threads[t].i == i;
            var now := Bumps(th) && th.i == i;
            |Bumpers(threads[t := th], i)| == |Bumpers(threads, i)| - (if was then 1 else 0) + (if now then 1 else 0)
  {
    var before, after := Bumpers(threads, i), Bumpers(threads[t := th], i);
    if Bumps(th) && th.i == i {
      assert after == before + {t};
    } else {
      assert after == before - {t};
    }
  }

  // ---- One thread's step ----

  /** A step that moves only thread t, its slot and perhaps the lease. */
  ghost predicate OpFacts(s: State, s': State, t: nat, th: Thread, slot: Slot) {
    var was := ThreadOf(s, t);
    && !was.pc.Idle? && was.i < |s.slots|
    && s'.threads == s.threads[t := th] && s'.slots == s.slots[was.i := slot]
    && s'.inc == s.inc && s'.sweep == s.sweep && s'.issued == s.issued && s'.retired == s.retired
    && (s'.lease == s.lease || s'.lease == 0 || (s'.lease == t + 1 && !th.pc.Leased?))
    && (!th.pc.Idle? ==> th.i == was.i && th.inc == was.inc && th.v == was.v)
    && slot.pins == SlotAt(s, was.i).pins - (if Bumps(was) then 1 else 0) + (if Bumps(th) then 1 else 0)
    && (th.pc.Pinned? || th.pc.Claimed? || th.pc.Leased? ==> th.inc == s.inc)
  }

  /** What the step does to its slot's state and version. */
  ghost predicate ClaimFacts(s: State, t: nat, th: Thread, slot: Slot) {
    var was := ThreadOf(s, t);
    && (Claims(th) ==> slot.live && slot.version == th.v)
    && (Claims(th) && !Claims(was) ==> !SlotAt(s, was.i).live)
    && (!Claims(th) && !Claims(was) ==> slot.live == SlotAt(s, was.i).live && slot.version == SlotAt(s, was.i).version)
  }

  lemma GoFacts(s: State, t: nat)
    requires InTable(s) && !ThreadOf(s, t).pc.Idle?
    ensures var s' := OpStep(s, t); OpFacts(s, s', t, ThreadOf(s', t), SlotAt(s', ThreadOf(s, t).i))
  {
    assert s.slots[ThreadOf(s, t).i := SlotAt(s, ThreadOf(s, t).i)] == s.slots;
  }

  lemma GoClaims(s: State, t: nat)
    requires InTable(s) && ClaimsHeld(s) && !ThreadOf(s, t).pc.Idle?
    ensures var s' := OpStep(s, t); ClaimFacts(s, t, ThreadOf(s', t), SlotAt(s', ThreadOf(s, t).i))
  {
  }

  lemma OpTable(s: State, s': State, t: nat, th: Thread, slot: Slot)
    requires InTable(s) && Service(s) && OpFacts(s, s', t, th, slot)
    ensures InTable(s') && Service(s')
  {
    ThreadsAfter(s, s', t, th);
  }

  lemma OpPins(s: State, s': State, t: nat, th: Thread, slot: Slot)
    requires PinBooks(s) && OpFacts(s, s', t, th, slot)
    ensures PinBooks(s')
  {
    OpTable(s, s', t, th, slot);
    ThreadsAfter(s, s', t, th);
    forall k: nat | k < |s.slots|
      ensures SlotAt(s', k).pins == |Bumpers(s'.threads, k)|
    {
      BumpersMove(s.threads, t, th, k);
    }
    forall u: nat
      ensures PinPass(s', u)
    {
      assert PinPass(s, u);
    }
  }

  lemma OpClaims(s: State, s': State, t: nat, th: Thread, slot: Slot)
    requires ClaimBooks(s) && OpFacts(s, s', t, th, slot) && ClaimFacts(s, t, th, slot)
    ensures ClaimBooks(s')
  {
    OpTable(s, s', t, th, slot);
    ThreadsAfter(s, s', t, th);
    forall u: nat
      ensures ClaimPass(s', u)
      ensures Claims(ThreadOf(s', u)) ==>
                SlotAt(s', ThreadOf(s', u).i).live && SlotAt(s', ThreadOf(s', u).i).version == ThreadOf(s', u).v
    {
      assert ClaimPass(s, u);
      OtherClaim(s, s', t, th, slot, u);
    }
  }

  lemma OtherClaim(s: State, s': State, t: nat, th: Thread, slot: Slot, u: nat)
    requires InTable(s) && ClaimsHeld(s) && OpFacts(s, s', t, th, slot) && ClaimFacts(s, t, th, slot)
    ensures Claims(ThreadOf(s', u)) ==>
              SlotAt(s', ThreadOf(s', u).i).live && SlotAt(s', ThreadOf(s', u).i).version == ThreadOf(s', u).v
  {
    ThreadsAfter(s, s', t, th);
    var other := ThreadOf(s, u);
    if u != t && Claims(other) && other.i == ThreadOf(s, t).i {
      assert SlotAt(s, other.i).live;
      assert !Claims(ThreadOf(s, t)) && !Claims(th);
    }
  }

  lemma GoBooks(s: State, t: nat)
    requires !ThreadOf(s, t).pc.Idle?
    ensures PinBooks(s) ==> PinBooks(OpStep(s, t))
    ensures ClaimBooks(s) ==> ClaimBooks(OpStep(s, t))
  {
    var s', th := OpStep(s, t), ThreadOf(s, t);
    if InTable(s) {
      GoFacts(s, t);
      if ClaimBooks(s) {
        GoClaims(s, t);
      }
    }
    hide OpFacts, ClaimFacts, OpStep;
    if PinBooks(s) {
      OpPins(s, s', t, ThreadOf(s', t), SlotAt(s', th.i));
    }
    if ClaimBooks(s) {
      OpClaims(s, s', t, ThreadOf(s', t), SlotAt(s', th.i));
    }
  }

  // ---- The other steps ----

  /** A thread that starts, or installs: no registration of a pin changes, and no claim
      is taken. */
  lemma MoveBooks(s: State, s': State, t: nat, th: Thread)
    requires s'.threads == s.threads[t := th] && s'.slots == s.slots && s'.inc == s.inc && s'.sweep == s.sweep
    requires s'.issued == s.issued && s'.retired == s.retired && s'.lease == s.lease
    requires !Bumps(ThreadOf(s, t)) && !Bumps(th) && !Claims(th) && !th.pc.Leased?
    requires th.pc.Idle? || (th.i < |s.slots| && 0 < th.inc <= s.issued)
    ensures PinBooks(s) ==> PinBooks(s')
    ensures ClaimBooks(s) ==> ClaimBooks(s')
  {
    ThreadsAfter(s, s', t, th);
    assert forall k: nat {:trigger SlotAt(s', k)} :: SlotAt(s', k) == SlotAt(s, k);
    if PinBooks(s) {
      forall k: nat | k < |s.slots|
        ensures SlotAt(s', k).pins == |Bumpers(s'.threads, k)|
      {
        BumpersMove(s.threads, t, th, k);
      }
      forall u: nat
        ensures PinPass(s', u)
      {
        assert PinPass(s, u);
      }
    }
    if ClaimBooks(s) {
      forall u: nat
        ensures ClaimPass(s', u)
      {
        assert ClaimPass(s, u);
      }
    }
  }

  lemma WordBooks(s: State, current: nat, lease: nat)
    requires lease == s.lease || lease == 0
    ensures PinBooks(s) ==> PinBooks(s.(current := current, lease := lease))
    ensures ClaimBooks(s) ==> ClaimBooks(s.(current := current, lease := lease))
  {
    var s' := s.(current := current, lease := lease);
    assert forall u: nat {:trigger ThreadOf(s', u)} :: ThreadOf(s', u) == ThreadOf(s, u);
    assert forall k: nat {:trigger SlotAt(s', k)} :: SlotAt(s', k) == SlotAt(s, k);
    forall u: nat
      ensures PinPass(s, u) ==> PinPass(s', u)
      ensures ClaimPass(s, u) ==> ClaimPass(s', u)
    {
    }
  }

  /** Freeing a slot keeps the pins' books, and the claims' exactly when it is not claimed. */
  lemma FreeBooks(s: State, i: nat)
    ensures PinBooks(s) ==> PinBooks(Step(s, FreeSlot(i)))
    ensures ClaimBooks(s) ==> (ClaimBooks(Step(s, FreeSlot(i))) <==> !Owned(s, i))
  {
    var s' := Step(s, FreeSlot(i));
    assert forall u: nat {:trigger ThreadOf(s', u)} :: ThreadOf(s', u) == ThreadOf(s, u);
    assert forall k: nat {:trigger SlotAt(s', k)} :: SlotAt(s', k) == if k == i then Freed(SlotAt(s, k)) else SlotAt(s, k);
    forall u: nat
      ensures PinPass(s, u) ==> PinPass(s', u)
      ensures ClaimPass(s, u) ==> ClaimPass(s', u)
      ensures !Owned(s, i) && Claims(ThreadOf(s, u)) ==> ThreadOf(s, u).i != i
    {
      if Claims(ThreadOf(s, u)) {
        assert u in s.threads;
      }
    }
    if Owned(s, i) {
      FreedClaim(s, s', i);
    }
  }

  /** A claimed slot that reads free breaks the claims' books. */
  lemma FreedClaim(s: State, s': State, i: nat)
    requires Owned(s, i) && s'.threads == s.threads && !SlotAt(s', i).live
    ensures !ClaimsHeld(s')
  {
    var t :| t in s.threads && Claims(s.threads[t]) && s.threads[t].i == i;
    var th := ThreadOf(s', t);
    assert Claims(th) && !SlotAt(s', th.i).live;
  }

  lemma BumpCounted(s: State, t: nat)
    requires Counts(s) && Bumps(ThreadOf(s, t)) && ThreadOf(s, t).i < |s.slots|
    ensures SlotAt(s, ThreadOf(s, t).i).pins > 0
  {
    assert t in Bumpers(s.threads, ThreadOf(s, t).i);
  }

  /** A scan step other than the initialisation. */
  lemma ScanPinBooks(s: State)
    requires PinBooks(s) && !s.sweep.Quiet?
    ensures PinBooks(SweepStep(s))
  {
    var s' := SweepStep(s);
    assert forall u: nat {:trigger ThreadOf(s', u)} :: ThreadOf(s', u) == ThreadOf(s, u);
    assert forall k: nat {:trigger SlotAt(s', k)} :: SlotAt(s', k) == SlotAt(s, k);
    forall u: nat
      ensures PinPass(s', u)
    {
      assert PinPass(s, u);
      if ThreadOf(s, u).pc.Pinned? {
        BumpCounted(s, u);
      }
    }
  }

  lemma ScanClaimBooks(s: State)
    requires ClaimBooks(s) && !s.sweep.Quiet?
    ensures ClaimBooks(SweepStep(s))
  {
    var s' := SweepStep(s);
    assert forall u: nat {:trigger ThreadOf(s', u)} :: ThreadOf(s', u) == ThreadOf(s, u);
    assert forall k: nat {:trigger SlotAt(s', k)} :: SlotAt(s', k) == SlotAt(s, k);
    forall u: nat
      ensures ClaimPass(s', u)
    {
      assert ClaimPass(s, u);
      assert ThreadOf(s, u).pc.Claimed? ==> SlotAt(s, ThreadOf(s, u).i).live;
    }
  }

  /** The initialisation keeps each of the books exactly when none of its registrations is
      outstanding. */
  lemma InitClaims(s: State)
    requires ClaimBooks(s) && s.sweep.Quiet?
    ensures ClaimBooks(SweepStep(s)) <==> SparesClaims(s, Sweeping)
  {
    var s' := SweepStep(s);
    assert forall u: nat {:trigger ThreadOf(s', u)} :: ThreadOf(s', u) == ThreadOf(s, u);
    assert forall k: nat {:trigger SlotAt(s', k)} :: SlotAt(s', k) == EMPTY;
    if SparesClaims(s, Sweeping) {
      forall u: nat
        ensures ClaimPass(s', u)
      {
        assert ClaimPass(s, u);
      }
    } else {
      var t: nat :| Claims(ThreadOf(s, t));
      assert t in s.threads && Owned(s, ThreadOf(s, t).i);
      FreedClaim(s, s', ThreadOf(s, t).i);
    }
  }

  lemma InitPins(s: State)
    requires PinBooks(s) && s.sweep.Quiet?
    ensures PinBooks(SweepStep(s)) <==> SparesPins(s, Sweeping)
  {
    var s' := SweepStep(s);
    assert forall u: nat {:trigger ThreadOf(s', u)} :: ThreadOf(s', u) == ThreadOf(s, u);
    assert forall k: nat {:trigger SlotAt(s', k)} :: SlotAt(s', k) == EMPTY;
    if SparesPins(s, Sweeping) {
      forall k: nat
        ensures Bumpers(s'.threads, k) == {}
      {
        assert forall t :: t in s.threads ==> !Bumps(ThreadOf(s, t));
      }
      forall u: nat
        ensures PinPass(s', u)
      {
        assert PinPass(s, u);
      }
    } else {
      var t: nat :| Bumps(ThreadOf(s, t));
      if Counts(s') {
        BumpCounted(s', t);
      }
    }
  }

  lemma SweepBooks(s: State)
    ensures PinBooks(s) ==> (PinBooks(SweepStep(s)) <==> SparesPins(s, Sweeping))
    ensures ClaimBooks(s) ==> (ClaimBooks(SweepStep(s)) <==> SparesClaims(s, Sweeping))
  {
    hide PinBooks, ClaimBooks, SweepStep;
    if PinBooks(s) {
      if s.sweep.Quiet? {
        InitPins(s);
      } else {
        ScanPinBooks(s);
      }
    }
    if ClaimBooks(s) {
      if s.sweep.Quiet? {
        InitClaims(s);
      } else {
        ScanClaimBooks(s);
      }
    }
  }

  /** The books survive a step exactly when it neither initialises the head under a
      registration nor frees a claimed slot: the pins' and leases' by the first half alone,
      the claims' by both. */
  lemma StepInvIff(s: State, a: Act)
    ensures PinBooks(s) ==> (PinBooks(Step(s, a)) <==> SparesPins(s, a))
    ensures ClaimBooks(s) ==> (ClaimBooks(Step(s, a)) <==> SparesClaims(s, a))
    ensures Inv(s) ==> (Inv(Step(s, a)) <==> Clean(s, a))
  {
    hide PinBooks, ClaimBooks;
    match a
    case Go(t) =>
      if !ThreadOf(s, t).pc.Idle? {
        GoBooks(s, t);
      }
    case Start(t, kind, handle, i, v) =>
      if Step(s, a) != s {
        MoveBooks(s, Step(s, a), t, ThreadOf(Step(s, a), t));
      }
    case Install(t) =>
      if Step(s, a) != s {
        WordBooks(s, ThreadOf(s, t).v, s.lease);
        MoveBooks(s.(current := ThreadOf(s, t).v), Step(s, a), t, RESTING);
      }
    case FreeSlot(i) => FreeBooks(s, i);
    case Evict => WordBooks(s, 0, s.lease);
    case Revoke => WordBooks(s, s.current, 0);
    case Sweeping =>
      SweepBooks(s);
  }

  // ---- Whole runs ----

  /** A head of n slots in service under its first incarnation. */
  function Init(n: nat): State {
    State(1, 0, 0, seq(n, _ => EMPTY), Resting, 0, 1, map[])
  }

  function Run(s: State, acts: seq<Act>): State {
    if |acts| == 0 then s else Step(Run(s, acts[..|acts| - 1]), acts[|acts| - 1])
  }

  ghost predicate PinsSpared(s: State, acts: seq<Act>) {
    |acts| == 0 || (PinsSpared(s, acts[..|acts| - 1]) && SparesPins(Run(s, acts[..|acts| - 1]), acts[|acts| - 1]))
  }

  ghost predicate ClaimsSpared(s: State, acts: seq<Act>) {
    |acts| == 0 || (ClaimsSpared(s, acts[..|acts| - 1]) && SparesClaims(Run(s, acts[..|acts| - 1]), acts[|acts| - 1]))
  }

  lemma InitInv(n: nat)
    ensures Inv(Init(n))
  {
    var s := Init(n);
    assert forall k: nat {:trigger SlotAt(s, k)} :: SlotAt(s, k) == EMPTY;
    forall k: nat
      ensures Bumpers(s.threads, k) == {}
    {
    }
  }

  lemma {:induction false} RunPins(n: nat, acts: seq<Act>)
    requires PinsSpared(Init(n), acts)
    ensures PinBooks(Run(Init(n), acts))
  {
    hide PinBooks, ClaimBooks, Step, Init, SparesPins, SparesClaims;
    if |acts| == 0 {
      InitInv(n);
    } else {
      RunPins(n, acts[..|acts| - 1]);
      StepInvIff(Run(Init(n), acts[..|acts| - 1]), acts[|acts| - 1]);
    }
  }

  lemma {:induction false} RunClaims(n: nat, acts: seq<Act>)
    requires ClaimsSpared(Init(n), acts)
    ensures ClaimBooks(Run(Init(n), acts))
  {
    hide PinBooks, ClaimBooks, Step, Init, SparesPins, SparesClaims;
    if |acts| == 0 {
      InitInv(n);
    } else {
      RunClaims(n, acts[..|acts| - 1]);
      StepInvIff(Run(Init(n), acts[..|acts| - 1]), acts[|acts| - 1]);
    }
  }

  /** A registered operation that passed its incarnation check. */
  predicate Operating(s: State, t: nat) {
    var th := ThreadOf(s, t);
    th.pc.Pinned? || th.pc.Claimed? || (th.pc.Leased? && s.lease == t + 1)
  }

  /** The recycle handshake: when the sweep's scan comes back quiet, no pin and no lease
      that passed its check is still registered, as long as no initialisation came under a
      pin; and no claim is, as long as none came under a claim and no claimed slot was
      freed. */
  lemma QuietMeansQuiet(n: nat, acts: seq<Act>, t: nat)
    ensures var s, th := Run(Init(n), acts), ThreadOf(Run(Init(n), acts), t);
            s.sweep.Quiet? || s.sweep.Fresh? ==>
              && (PinsSpared(Init(n), acts) ==> !th.pc.Pinned? && !(th.pc.Leased? && s.lease == t + 1))
              && (ClaimsSpared(Init(n), acts) ==> !th.pc.Claimed?)
  {
    var s := Run(Init(n), acts);
    if PinsSpared(Init(n), acts) {
      RunPins(n, acts);
      assert PinPass(s, t);
    }
    if ClaimsSpared(Init(n), acts) {
      RunClaims(n, acts);
      assert ClaimPass(s, t);
    }
    hide PinsSpared, ClaimsSpared, Run;
  }

  lemma {:induction false} ServiceRun(n: nat, acts: seq<Act>)
    ensures Service(Run(Init(n), acts))
  {
    if |acts| > 0 {
      ServiceRun(n, acts[..|acts| - 1]);
      ServiceStep(Run(Init(n), acts[..|acts| - 1]), acts[|acts| - 1]);
    }
  }

  lemma ServiceStep(s: State, a: Act)
    requires Service(s)
    ensures Service(Step(s, a))
  {
  }

  predicate Checking(pc: Pc) {
    pc.PinCheck? || pc.ClaimCheck? || pc.LeaseCheck?
  }

  /** Once a newer incarnation was issued, no handle of an older one ever passes its
      check again, in any run. */
  lemma OldHandlesFail(n: nat, acts: seq<Act>, t: nat)
    ensures var s := Run(Init(n), acts);
            var th := ThreadOf(s, t);
            Checking(th.pc) && 0 < th.inc < s.issued ==> !Operating(OpStep(s, t), t)
  {
    ServiceRun(n, acts);
  }

  // ---- What a sweeper and a freer can check ----

  /** Every slot still reads empty when the head is initialised. */
  predicate ReadsEmpty(s: State, a: Act) {
    Initialises(s, a) ==> forall k :: 0 <= k < |s.slots| ==> s.slots[k] == EMPTY
  }

  /** The words decide: an initialisation spares the pins exactly when every count reads
      zero; it spares the claims exactly when no slot is claimed, and a claimed slot reads
      live. */
  lemma CleanIffWords(s: State)
    requires Inv(s) && s.sweep.Quiet?
    ensures SparesPins(s, Sweeping) <==> forall k: nat :: k < |s.slots| ==> SlotAt(s, k).pins == 0
    ensures SparesClaims(s, Sweeping) <==> forall k: nat :: k < |s.slots| ==> !Owned(s, k)
    ensures forall k: nat :: k < |s.slots| && Owned(s, k) ==> SlotAt(s, k).live
    ensures ReadsEmpty(s, Sweeping) ==> Clean(s, Sweeping)
  {
    forall t: nat
      ensures Bumps(ThreadOf(s, t)) ==> ThreadOf(s, t).i < |s.slots| && SlotAt(s, ThreadOf(s, t).i).pins > 0
      ensures Claims(ThreadOf(s, t)) ==> ThreadOf(s, t).i < |s.slots| && Owned(s, ThreadOf(s, t).i)
    {
      if Bumps(ThreadOf(s, t)) {
        BumpCounted(s, t);
      }
      if Claims(ThreadOf(s, t)) {
        assert t in s.threads;
      }
    }
    forall k: nat | k < |s.slots|
      ensures Owned(s, k) ==> SlotAt(s, k).live
      ensures SparesPins(s, Sweeping) ==> SlotAt(s, k).pins == 0
      ensures SparesClaims(s, Sweeping) ==> !Owned(s, k)
    {
      SlotClaimed(s, k);
      if SparesPins(s, Sweeping) {
        assert forall t :: t in s.threads ==> !Bumps(ThreadOf(s, t));
        assert Bumpers(s.threads, k) == {};
      }
    }
  }

  lemma SlotClaimed(s: State, k: nat)
    requires ClaimsHeld(s) && k < |s.slots|
    ensures Owned(s, k) ==> SlotAt(s, k).live && exists t: nat :: Claims(ThreadOf(s, t))
  {
    if Owned(s, k) {
      var t :| t in s.threads && Claims(s.threads[t]) && s.threads[t].i == k;
      assert Claims(ThreadOf(s, t));
    }
  }

  /** Initialisations only over empty words, and nobody frees a claimed slot. */
  ghost predicate CarefulRun(s: State, acts: seq<Act>) {
    |acts| == 0
    || (&& CarefulRun(s, acts[..|acts| - 1])
        && ReadsEmpty(Run(s, acts[..|acts| - 1]), acts[|acts| - 1])
        && (acts[|acts| - 1].FreeSlot? ==> !Owned(Run(s, acts[..|acts| - 1]), acts[|acts| - 1].i)))
  }

  /** A sweeper that reads every slot once more and initialises only over empty words is
      safe, as long as freers leave claimed slots alone: all such runs spare everyone. */
  lemma {:induction false} CarefulRunsSpare(n: nat, acts: seq<Act>)
    requires CarefulRun(Init(n), acts)
    ensures PinsSpared(Init(n), acts) && ClaimsSpared(Init(n), acts)
  {
    if |acts| > 0 {
      var s, a := Run(Init(n), acts[..|acts| - 1]), acts[|acts| - 1];
      hide PinBooks, ClaimBooks, Step, Init, ReadsEmpty;
      CarefulRunsSpare(n, acts[..|acts| - 1]);
      RunPins(n, acts[..|acts| - 1]);
      RunClaims(n, acts[..|acts| - 1]);
      if Initialises(s, a) {
        CleanIffWords(s);
      }
    }
  }
}
