/** No lost reclamation. A retire elects itself with a compare-exchange on the
    slot's state alone, so it may win a slot that was freed and claimed again since
    it was found. Over every schedule in which no election is stale in that way,
    pins freeze their slot, the current version's slot stays live, nothing is
    leaked, and at rest every live slot is current or pinned. */
module Reclamation {
  import opened Common
  import opened PinProtocol
  import opened PinSafety

  /** The next step of t is not an election of a slot that has moved on, or of a
      version not superseded yet. */
  ghost predicate Fresh(s: State, t: nat) {
    FreshHere(ThreadOf(s, t), SlotAt(s, ThreadOf(s, t).i), s.current)
  }

  predicate FreshHere(th: Thread, slot: Slot, current: nat) {
    th.pc.TElect? && slot.state == Live ==> slot.version == th.v && 0 < th.v < current
  }

  ghost predicate FreshRun(n: nat, sched: Schedule) {
    |sched| == 0
    || (FreshRun(n, sched[..|sched| - 1])
        && Fresh(Run(Init(n), sched[..|sched| - 1]), sched[|sched| - 1].0))
  }

  // ---- What a thread knows about its own slot ----

  /** The reader confirmed the slot's version. */
  predicate Confirmed(pc: Pc) {
    pc.RDesc? || pc.RManifest? || pc.RRead? || pc.Held?
  }

  predicate ReaderOk(th: Thread, slot: Slot) {
    && (Seeking(th.pc) || Accepting(th.pc) || th.pc.Held? ==> th.v > 0)
    && (Confirmed(th.pc) ==> slot.version == th.v)
    && (Reads(th.pc) ==> slot.manifest == th.m)
  }

  predicate ReclaimOk(th: Thread, slot: Slot, current: nat) {
    && (Elected(th.pc) ==> slot.state == Freeing && 0 < th.v < current)
    && (Elected(th.pc) && !th.pc.TClearManifest? && !th.pc.TFree? ==> slot.version == th.v)
    && (th.pc.TRelease? ==> slot.manifest == th.m)
    && (th.pc.TClearManifest? || th.pc.TFree? ==> slot.version == 0)
    && (th.pc.TFree? ==> slot.manifest == 0)
    && (th.pc.TFindManifest? ==> th.bits.Some?)
  }

  predicate CommitOk(th: Thread, slot: Slot, current: nat, desc: nat) {
    && (Committing(th.pc) ==> th.v == if th.pc.CDesc? then current else current + 1)
    && (Committing(th.pc) && !th.pc.CClaim? ==>
          && slot.state == Live
          && slot.version == (if th.pc.CManifest? || th.pc.CVersion? then 0 else th.v)
          && slot.manifest == (if th.pc.CManifest? then 0 else th.m))
    && (th.pc.CInstall? || th.pc.CDesc? ==> th.bits == Some(desc))
  }

  predicate LocalOk(th: Thread, slot: Slot, current: nat, desc: nat) {
    ReaderOk(th, slot) && ReclaimOk(th, slot, current) && CommitOk(th, slot, current, desc)
  }

  predicate SlotOk(slot: Slot) {
    slot.state == Free ==> slot.version == 0 && slot.manifest == 0
  }

  /** Two threads that may stand at the same slot. */
  predicate Compatible(th: Thread, other: Thread) {
    && !(Elected(th.pc) && Elected(other.pc))
    && !(Committing(th.pc) && Committing(other.pc))
    && !(Reclaiming(th.pc) && Shielded(other.pc))
  }

  /** What the step leaves of the thread's slot, seen from wherever it stands now. */
  predicate OwnOk(th: Thread, slot: Slot, view: View, e: Effect) {
    && SlotOk(e.slot)
    && (e.th.i == th.i ==> LocalOk(e.th, e.slot, e.current, e.desc))
    && (e.th.i != th.i ==> !AtSlot(e.th.pc) || e.th.pc.Idle?)
    && (Seeking(e.th.pc) ==> e.th.v > 0)
    && (e.th.pc.CClaim? ==> e.th.v == e.current + 1)
    && (e.current == (if th.pc.CInstall? then th.v else view.current))
    && (e.desc == (if th.pc.CDesc? then th.m else view.desc))
  }

  lemma SeekOwn(th: Thread, slot: Slot, view: View)
    requires Seeking(th.pc) && LocalOk(th, slot, view.current, view.desc) && SlotOk(slot)
    ensures OwnOk(th, slot, view, SeekStep(th, slot, view))
  {
  }

  lemma SeekOther(th: Thread, slot: Slot, view: View, other: Thread)
    requires Seeking(th.pc) && LocalOk(th, slot, view.current, view.desc) && SlotOk(slot)
    requires LocalOk(other, slot, view.current, view.desc) && Compatible(th, other)
    ensures LocalOk(other, SeekStep(th, slot, view).slot, SeekStep(th, slot, view).current, SeekStep(th, slot, view).desc)
  {
  }

  lemma AcceptOwn(th: Thread, slot: Slot, view: View)
    requires Accepting(th.pc) && LocalOk(th, slot, view.current, view.desc) && SlotOk(slot)
    ensures OwnOk(th, slot, view, AcceptStep(th, slot, view))
  {
  }

  lemma AcceptOther(th: Thread, slot: Slot, view: View, other: Thread)
    requires Accepting(th.pc) && LocalOk(th, slot, view.current, view.desc) && SlotOk(slot)
    requires LocalOk(other, slot, view.current, view.desc) && Compatible(th, other)
    ensures LocalOk(other, AcceptStep(th, slot, view).slot, AcceptStep(th, slot, view).current, AcceptStep(th, slot, view).desc)
  {
  }

  lemma UnpinOwn(th: Thread, slot: Slot, view: View)
    requires Unpinning(th.pc) && LocalOk(th, slot, view.current, view.desc) && SlotOk(slot)
    ensures OwnOk(th, slot, view, UnpinStep(th, slot, view))
  {
  }

  lemma UnpinOther(th: Thread, slot: Slot, view: View, other: Thread)
    requires Unpinning(th.pc) && LocalOk(th, slot, view.current, view.desc) && SlotOk(slot)
    requires LocalOk(other, slot, view.current, view.desc) && Compatible(th, other)
    ensures LocalOk(other, UnpinStep(th, slot, view).slot, UnpinStep(th, slot, view).current, UnpinStep(th, slot, view).desc)
  {
  }

  lemma FindOwn(th: Thread, slot: Slot, view: View)
    requires Finding(th.pc) && LocalOk(th, slot, view.current, view.desc) && SlotOk(slot)
    ensures OwnOk(th, slot, view, FindStep(th, slot, view))
  {
  }

  lemma FindOther(th: Thread, slot: Slot, view: View, other: Thread)
    requires Finding(th.pc) && LocalOk(th, slot, view.current, view.desc) && SlotOk(slot)
    requires LocalOk(other, slot, view.current, view.desc) && Compatible(th, other)
    ensures LocalOk(other, FindStep(th, slot, view).slot, FindStep(th, slot, view).current, FindStep(th, slot, view).desc)
  {
  }

  lemma ElectOwn(th: Thread, slot: Slot, view: View)
    requires Electing(th.pc) && LocalOk(th, slot, view.current, view.desc) && SlotOk(slot) && FreshHere(th, slot, view.current)
    ensures OwnOk(th, slot, view, ElectStep(th, slot, view))
  {
  }

  lemma ElectOther(th: Thread, slot: Slot, view: View, other: Thread)
    requires Electing(th.pc) && LocalOk(th, slot, view.current, view.desc) && SlotOk(slot) && FreshHere(th, slot, view.current)
    requires LocalOk(other, slot, view.current, view.desc) && Compatible(th, other)
    ensures LocalOk(other, ElectStep(th, slot, view).slot, ElectStep(th, slot, view).current, ElectStep(th, slot, view).desc)
  {
  }

  lemma FreeOwn(th: Thread, slot: Slot, view: View)
    requires Reclaiming(th.pc) && LocalOk(th, slot, view.current, view.desc) && SlotOk(slot)
    ensures OwnOk(th, slot, view, FreeStep(th, slot, view))
  {
  }

  lemma FreeOther(th: Thread, slot: Slot, view: View, other: Thread)
    requires Reclaiming(th.pc) && LocalOk(th, slot, view.current, view.desc) && SlotOk(slot)
    requires LocalOk(other, slot, view.current, view.desc) && Compatible(th, other)
    ensures LocalOk(other, FreeStep(th, slot, view).slot, FreeStep(th, slot, view).current, FreeStep(th, slot, view).desc)
  {
  }

  lemma CommitOwn(th: Thread, slot: Slot, view: View)
    requires Committing(th.pc) && LocalOk(th, slot, view.current, view.desc) && SlotOk(slot)
    ensures OwnOk(th, slot, view, CommitStep(th, slot, view))
  {
  }

  lemma CommitOther(th: Thread, slot: Slot, view: View, other: Thread)
    requires Committing(th.pc) && LocalOk(th, slot, view.current, view.desc) && SlotOk(slot)
    requires LocalOk(other, slot, view.current, view.desc) && Compatible(th, other)
    ensures LocalOk(other, CommitStep(th, slot, view).slot, CommitStep(th, slot, view).current, CommitStep(th, slot, view).desc)
  {
  }

  lemma StartOwn(th: Thread, slot: Slot, view: View, a: Act)
    requires th.pc.Idle? && SlotOk(slot)
    ensures OwnOk(th, slot, view, StartStep(th, slot, view, a))
  {
  }

  lemma ActOwn(th: Thread, slot: Slot, view: View, a: Act)
    requires LocalOk(th, slot, view.current, view.desc) && SlotOk(slot) && FreshHere(th, slot, view.current)
    ensures OwnOk(th, slot, view, Act1(th, slot, view, a))
  {
    hide OwnOk, LocalOk, StartStep, SeekStep, AcceptStep, UnpinStep, FindStep, ElectStep, FreeStep, CommitStep;
    if th.pc.Idle? {
      StartOwn(th, slot, view, a);
    } else if Seeking(th.pc) {
      SeekOwn(th, slot, view);
    } else if Accepting(th.pc) {
      AcceptOwn(th, slot, view);
    } else if Unpinning(th.pc) {
      UnpinOwn(th, slot, view);
    } else if Finding(th.pc) {
      FindOwn(th, slot, view);
    } else if Electing(th.pc) {
      ElectOwn(th, slot, view);
    } else if Reclaiming(th.pc) {
      FreeOwn(th, slot, view);
    } else {
      CommitOwn(th, slot, view);
    }
  }

  lemma ActOther(th: Thread, slot: Slot, view: View, a: Act, other: Thread)
    requires LocalOk(th, slot, view.current, view.desc) && SlotOk(slot) && FreshHere(th, slot, view.current)
    requires LocalOk(other, slot, view.current, view.desc) && Compatible(th, other)
    ensures var e := Act1(th, slot, view, a); LocalOk(other, e.slot, e.current, e.desc)
  {
    hide LocalOk, SeekStep, AcceptStep, UnpinStep, FindStep, ElectStep, FreeStep, CommitStep, Compatible;
    if th.pc.Idle? {
      assert StartStep(th, slot, view, a).slot == slot;
    } else if Seeking(th.pc) {
      SeekOther(th, slot, view, other);
    } else if Accepting(th.pc) {
      AcceptOther(th, slot, view, other);
    } else if Unpinning(th.pc) {
      UnpinOther(th, slot, view, other);
    } else if Finding(th.pc) {
      FindOther(th, slot, view, other);
    } else if Electing(th.pc) {
      ElectOther(th, slot, view, other);
    } else if Reclaiming(th.pc) {
      FreeOther(th, slot, view, other);
    } else {
      CommitOther(th, slot, view, other);
    }
  }

  /** A thread at another slot only sees the shared words move. */
  lemma Elsewhere(th: Thread, slot: Slot, view: View, e: Effect, other: Thread, otherSlot: Slot)
    requires OwnOk(th, slot, view, e) && LocalOk(th, slot, view.current, view.desc)
    requires LocalOk(other, otherSlot, view.current, view.desc) && !(Committing(th.pc) && Committing(other.pc))
    ensures LocalOk(other, otherSlot, e.current, e.desc)
  {
  }

  // ---- Over the whole table ----

  ghost predicate Locals(s: State) {
    && (forall t: nat :: LocalOk(ThreadOf(s, t), SlotAt(s, ThreadOf(s, t).i), s.current, s.desc))
    && (forall k: nat :: k < |s.slots| ==> SlotOk(SlotAt(s, k)))
  }

  lemma LocalsStep(s: State, t: nat, a: Act)
    requires Inv(s) && Locals(s) && Fresh(s, t)
    ensures Locals(Step(s, t, a))
  {
    hide Act1, LocalOk, Compatible, FreshHere, SlotOk, Names, Readers, Contents, Counts;
    var s', th, e := Step(s, t, a), ThreadOf(s, t), EffectOf(s, t, a);
    StepOwn(s, t, a);
    forall u: nat
      ensures LocalOk(ThreadOf(s', u), SlotAt(s', ThreadOf(s', u).i), s'.current, s'.desc)
    {
      if u != t {
        StepOther(s, t, a, u);
      } else {
        StepSelf(s, t, a);
      }
    }
    forall k: nat | k < |s'.slots|
      ensures SlotOk(SlotAt(s', k))
    {
      StepSlot(s, t, a, k);
    }
  }

  lemma StepOwn(s: State, t: nat, a: Act)
    requires Locals(s) && Fresh(s, t)
    ensures var th := ThreadOf(s, t);
            OwnOk(th, SlotAt(s, th.i), ViewOf(s, th, a), EffectOf(s, t, a))
  {
    hide OwnOk, LocalOk, Act1, FreshHere;
    var th := ThreadOf(s, t);
    ActOwn(th, SlotAt(s, th.i), ViewOf(s, th, a), a);
  }

  lemma StepSelf(s: State, t: nat, a: Act)
    requires Inv(s) && Locals(s) && Fresh(s, t)
    ensures var s' := Step(s, t, a);
            LocalOk(ThreadOf(s', t), SlotAt(s', ThreadOf(s', t).i), s'.current, s'.desc)
  {
    hide Act1, FreshHere, Names, Readers, Contents, Counts, PinFacts, StateFacts, WordFacts;
    StepOwn(s, t, a);
    StepFacts(s, t, a);
    StepThread(s, t, a, t);
    if ThreadOf(s, t).i < |s.slots| {
      StepSlot(s, t, a, ThreadOf(s, t).i);
    }
  }

  lemma StepOther(s: State, t: nat, a: Act, u: nat)
    requires Inv(s) && Locals(s) && Fresh(s, t) && u != t
    ensures var s' := Step(s, t, a);
            LocalOk(ThreadOf(s', u), SlotAt(s', ThreadOf(s', u).i), s'.current, s'.desc)
  {
    hide Act1, FreshHere, LocalOk, OwnOk, Names, Readers, Contents, Counts;
    StepThread(s, t, a, u);
    StepOwn(s, t, a);
    var th, other := ThreadOf(s, t), ThreadOf(s, u);
    var slot, e := SlotAt(s, th.i), EffectOf(s, t, a);
    if other.i < |s.slots| {
      StepSlot(s, t, a, other.i);
    }
    if other.i == th.i < |s.slots| {
      ActOther(th, slot, ViewOf(s, th, a), a, other);
    } else {
      Elsewhere(th, slot, ViewOf(s, th, a), e, other, SlotAt(s, other.i));
    }
  }

  // ---- Versions, claims and elections, slot by slot ----

  predicate Retiring(pc: Pc) {
    Finding(pc) || Electing(pc)
  }

  /** How a step changes its slot's version and state, and where a thread in charge
      of a slot goes. */
  predicate TableFacts(th: Thread, slot: Slot, view: View, e: Effect) {
    && e.slot.version == (if th.pc.CVersion? then th.v else if th.pc.TClearVersion? then 0 else slot.version)
    && (if th.pc.TElect? && slot.state == Live then e.slot.state == Freeing && e.th == th.(pc := TScan)
        else if th.pc.TRevert? then e.slot.state == Live && e.th == th.(pc := TRescan)
        else if th.pc.TFree? then e.slot.state == Free && e.th == RESTING
        else if th.pc.CClaim? && th.i < view.n && slot.state == Free then
          e.slot.state == Live && e.th == th.(pc := CManifest)
        else e.slot.state == slot.state)
    && (th.pc.TScan? || th.pc.TLoad? || th.pc.TRelease? || th.pc.TClearVersion? || th.pc.TClearManifest? ==>
          Elected(e.th.pc) && e.th.i == th.i)
    && (th.pc.CManifest? ==> e.th == th.(pc := CVersion))
    && (th.pc.CVersion? ==> e.th == th.(pc := CPrior))
    && (th.pc.CPrior? ==> e.th == th.(pc := CInstall, bits := Some(view.desc)))
    && (th.pc.CInstall? ==> e.th == th.(pc := CDesc))
    && (e.th.pc.CDesc? ==> th.pc.CInstall?)
    && (e.th.bits.Some? && Retiring(e.th.pc) ==>
          e.th.bits == th.bits
          && ((Retiring(th.pc) && e.th.v == th.v) || (th.pc.CDesc? && th.v == e.th.v + 1 > 1)))
  }

  lemma SeekTable(th: Thread, slot: Slot, view: View)
    requires Seeking(th.pc)
    ensures TableFacts(th, slot, view, SeekStep(th, slot, view))
  {
  }

  lemma AcceptTable(th: Thread, slot: Slot, view: View)
    requires Accepting(th.pc)
    ensures TableFacts(th, slot, view, AcceptStep(th, slot, view))
  {
  }

  lemma UnpinTable(th: Thread, slot: Slot, view: View)
    requires Unpinning(th.pc)
    ensures TableFacts(th, slot, view, UnpinStep(th, slot, view))
  {
  }

  lemma FindTable(th: Thread, slot: Slot, view: View)
    requires Finding(th.pc)
    ensures TableFacts(th, slot, view, FindStep(th, slot, view))
  {
  }

  lemma ElectTable(th: Thread, slot: Slot, view: View)
    requires Electing(th.pc)
    ensures TableFacts(th, slot, view, ElectStep(th, slot, view))
  {
  }

  lemma FreeTable(th: Thread, slot: Slot, view: View)
    requires Reclaiming(th.pc)
    ensures TableFacts(th, slot, view, FreeStep(th, slot, view))
  {
  }

  lemma CommitTable(th: Thread, slot: Slot, view: View)
    requires Committing(th.pc)
    ensures TableFacts(th, slot, view, CommitStep(th, slot, view))
  {
  }

  lemma StepTable(s: State, t: nat, a: Act)
    ensures var th := ThreadOf(s, t);
            TableFacts(th, SlotAt(s, th.i), ViewOf(s, th, a), EffectOf(s, t, a))
  {
    hide TableFacts, SeekStep, AcceptStep, UnpinStep, FindStep, ElectStep, FreeStep, CommitStep;
    var th := ThreadOf(s, t);
    var slot, view := SlotAt(s, th.i), ViewOf(s, th, a);
    if th.pc.Idle? {
      StartTable(th, slot, view, a);
    } else if Seeking(th.pc) {
      SeekTable(th, slot, view);
    } else if Accepting(th.pc) {
      AcceptTable(th, slot, view);
    } else if Unpinning(th.pc) {
      UnpinTable(th, slot, view);
    } else if Finding(th.pc) {
      FindTable(th, slot, view);
    } else if Electing(th.pc) {
      ElectTable(th, slot, view);
    } else if Reclaiming(th.pc) {
      FreeTable(th, slot, view);
    } else {
      CommitTable(th, slot, view);
    }
  }

  lemma StartTable(th: Thread, slot: Slot, view: View, a: Act)
    requires th.pc.Idle?
    ensures TableFacts(th, slot, view, StartStep(th, slot, view, a))
  {
  }

  predicate Claims(th: Thread, k: nat) {
    (th.pc.CManifest? || th.pc.CVersion?) && th.i == k
  }

  predicate Installs(th: Thread, k: nat) {
    (th.pc.CPrior? || th.pc.CInstall?) && th.i == k
  }

  predicate Frees(th: Thread, k: nat) {
    Elected(th.pc) && th.i == k
  }

  /** A version beyond the current one is being installed. */
  ghost predicate Installing(s: State, k: nat) {
    SlotAt(s, k).version > s.current ==> exists t: nat :: Installs(ThreadOf(s, t), k)
  }

  /** A live slot without a version is being claimed. */
  ghost predicate Claiming(s: State, k: nat) {
    SlotAt(s, k).state == Live && SlotAt(s, k).version == 0 ==> exists t: nat :: Claims(ThreadOf(s, t), k)
  }

  /** A slot marked FREEING has its reclaimer. */
  ghost predicate Freed(s: State, k: nat) {
    SlotAt(s, k).state == Freeing ==> exists t: nat :: Frees(ThreadOf(s, t), k)
  }

  ghost predicate Occupancy(s: State) {
    && (forall k: nat {:trigger SlotAt(s, k)} :: k < |s.slots| ==> Installing(s, k) && Claiming(s, k) && Freed(s, k))
    && (forall k: nat, l: nat ::
          k < |s.slots| && l < |s.slots| && SlotAt(s, k).version == SlotAt(s, l).version != 0 ==> k == l)
  }

  lemma InstallingStep(s: State, t: nat, a: Act, k: nat)
    requires Inv(s) && Locals(s) && Fresh(s, t) && Occupancy(s) && k < |s.slots|
    ensures Installing(Step(s, t, a), k)
  {
    hide Act1, FreshHere, Inv, ReaderOk, ReclaimOk;
    StepTable(s, t, a);
    StepOwn(s, t, a);
    StepSlot(s, t, a, k);
    StepThread(s, t, a, t);
    var s' := Step(s, t, a);
    assert Installs(EffectOf(s, t, a).th, k) ==> Installs(ThreadOf(s', t), k);
    if SlotAt(s, k).version > s.current {
      var u: nat :| Installs(ThreadOf(s, u), k);
      StepThread(s, t, a, u);
      assert u != t ==> Installs(ThreadOf(s', u), k);
    }
  }

  lemma ClaimingStep(s: State, t: nat, a: Act, k: nat)
    requires Inv(s) && Locals(s) && Fresh(s, t) && Occupancy(s) && k < |s.slots|
    ensures Claiming(Step(s, t, a), k)
  {
    hide Act1, FreshHere, Inv, ReaderOk;
    StepTable(s, t, a);
    StepOwn(s, t, a);
    StepSlot(s, t, a, k);
    StepThread(s, t, a, t);
    var s' := Step(s, t, a);
    assert Claims(EffectOf(s, t, a).th, k) ==> Claims(ThreadOf(s', t), k);
    if SlotAt(s, k).state == Live && SlotAt(s, k).version == 0 {
      var u: nat :| Claims(ThreadOf(s, u), k);
      StepThread(s, t, a, u);
      assert u != t ==> Claims(ThreadOf(s', u), k);
    }
  }

  lemma FreedStep(s: State, t: nat, a: Act, k: nat)
    requires Inv(s) && Locals(s) && Fresh(s, t) && Occupancy(s) && k < |s.slots|
    ensures Freed(Step(s, t, a), k)
  {
    hide Act1, FreshHere, Inv, ReaderOk, CommitOk, ReclaimOk;
    StepTable(s, t, a);
    StepSlot(s, t, a, k);
    StepThread(s, t, a, t);
    var s' := Step(s, t, a);
    assert Frees(EffectOf(s, t, a).th, k) ==> Frees(ThreadOf(s', t), k);
    if SlotAt(s, k).state == Freeing {
      var u: nat :| Frees(ThreadOf(s, u), k);
      StepThread(s, t, a, u);
      assert u != t ==> Frees(ThreadOf(s', u), k);
    }
  }

  /** A version once cleared or superseded never comes back. */
  lemma VersionStep(s: State, t: nat, a: Act, k: nat)
    requires Inv(s) && Locals(s) && Occupancy(s) && k < |s.slots|
    ensures var th, v' := ThreadOf(s, t), SlotAt(Step(s, t, a), k).version;
            || v' == SlotAt(s, k).version
            || v' == 0
            || (th.pc.CVersion? && th.i == k && v' == s.current + 1
                && forall l: nat :: l < |s.slots| ==> SlotAt(s, l).version <= s.current)
  {
    hide Act1, Names, Readers, Contents, Counts, Hazard, ReaderOk, ReclaimOk;
    StepTable(s, t, a);
    StepSlot(s, t, a, k);
    var th := ThreadOf(s, t);
    if th.pc.CVersion? && th.i == k {
      forall l: nat | l < |s.slots|
        ensures SlotAt(s, l).version <= s.current
      {
      }
    }
  }

  lemma OccupancyStep(s: State, t: nat, a: Act)
    requires Inv(s) && Locals(s) && Occupancy(s) && Fresh(s, t)
    ensures Occupancy(Step(s, t, a))
  {
    hide Act1, FreshHere, Inv, LocalOk, Installing, Claiming, Freed;
    var s' := Step(s, t, a);
    forall k: nat | k < |s'.slots|
      ensures Installing(s', k) && Claiming(s', k) && Freed(s', k)
    {
      InstallingStep(s, t, a, k);
      ClaimingStep(s, t, a, k);
      FreedStep(s, t, a, k);
    }
    forall k: nat, l: nat |
      k < |s'.slots| && l < |s'.slots| && SlotAt(s', k).version == SlotAt(s', l).version != 0
      ensures k == l
    {
      VersionStep(s, t, a, k);
      VersionStep(s, t, a, l);
    }
  }

  // ---- The current version, and what a retire insists on ----

  /** The current version's slot is live and its manifest is the one the head
      endorses, except while the committer is about to store it. */
  ghost predicate Current(s: State) {
    && (s.current > 0 ==> exists k: nat :: k < |s.slots| && SlotAt(s, k).state == Live && SlotAt(s, k).version == s.current)
    && (forall k: nat :: k < |s.slots| && SlotAt(s, k).version == s.current > 0 && SlotAt(s, k).manifest != s.desc ==>
          exists t: nat :: ThreadOf(s, t).pc.CDesc?)
  }

  /** A retire that insists on a manifest insists on the right one. */
  ghost predicate Insists(s: State) {
    forall t: nat :: ThreadOf(s, t).bits.Some? && (Retiring(ThreadOf(s, t).pc) || ThreadOf(s, t).pc.CDesc?) ==>
      var th := ThreadOf(s, t);
      var v := if th.pc.CDesc? then th.v - 1 else th.v;
      v < s.current && forall k: nat :: k < |s.slots| && SlotAt(s, k).version == v > 0 ==> th.bits == Some(SlotAt(s, k).manifest)
  }

  /** A settled version keeps its manifest. */
  lemma ManifestStep(s: State, t: nat, a: Act, k: nat)
    requires Inv(s) && Locals(s) && Occupancy(s) && Fresh(s, t) && k < |s.slots|
    requires 0 < SlotAt(Step(s, t, a), k).version <= s.current
    ensures SlotAt(s, k).version == SlotAt(Step(s, t, a), k).version
    ensures SlotAt(s, k).manifest == SlotAt(Step(s, t, a), k).manifest
  {
    hide Act1, Names, Readers, Contents, Counts, Hazard, ReaderOk, FreshHere, PinFacts, StateFacts;
    StepFacts(s, t, a);
    VersionStep(s, t, a, k);
    StepSlot(s, t, a, k);
  }

  lemma CurrentStep(s: State, t: nat, a: Act)
    requires Inv(s) && Locals(s) && Occupancy(s) && Fresh(s, t) && Current(s)
    ensures Current(Step(s, t, a))
  {
    hide Act1, Inv, ReaderOk, Occupancy;
    StepTable(s, t, a);
    StepOwn(s, t, a);
    StepThread(s, t, a, t);
    var s', th := Step(s, t, a), ThreadOf(s, t);
    if s.current > 0 {
      var k: nat :| k < |s.slots| && SlotAt(s, k).state == Live && SlotAt(s, k).version == s.current;
      StepSlot(s, t, a, k);
    }
    if th.pc.CInstall? {
      InstallLands(s, t, a);
    }
    forall k: nat | k < |s.slots| && SlotAt(s', k).version == s'.current > 0 && SlotAt(s', k).manifest != s'.desc
      ensures exists u: nat :: ThreadOf(s', u).pc.CDesc?
    {
      EndorsedStep(s, t, a, k);
    }
  }

  lemma InstallLands(s: State, t: nat, a: Act)
    requires Inv(s) && Locals(s) && Fresh(s, t) && ThreadOf(s, t).pc.CInstall?
    ensures var s', k := Step(s, t, a), ThreadOf(s, t).i;
            k < |s.slots| && SlotAt(s', k).state == Live && SlotAt(s', k).version == s'.current
  {
    hide Act1, Names, Readers, Contents, Counts, Hazard, ReaderOk, ReclaimOk;
    StepTable(s, t, a);
    StepOwn(s, t, a);
    StepSlot(s, t, a, ThreadOf(s, t).i);
  }

  lemma EndorsedStep(s: State, t: nat, a: Act, k: nat)
    requires Inv(s) && Locals(s) && Occupancy(s) && Fresh(s, t) && Current(s) && k < |s.slots|
    requires var s' := Step(s, t, a); SlotAt(s', k).version == s'.current > 0 && SlotAt(s', k).manifest != s'.desc
    ensures exists u: nat :: ThreadOf(Step(s, t, a), u).pc.CDesc?
  {
    hide Act1, Names, Readers, Contents, Counts, Hazard, ReaderOk, ReclaimOk, FreshHere;
    StepTable(s, t, a);
    StepOwn(s, t, a);
    StepThread(s, t, a, t);
    var s', th := Step(s, t, a), ThreadOf(s, t);
    if th.pc.CInstall? {
      assert ThreadOf(s', t).pc.CDesc?;
    } else {
      ManifestStep(s, t, a, k);
      assert !th.pc.CDesc?;
      var u: nat :| ThreadOf(s, u).pc.CDesc?;
      StepThread(s, t, a, u);
      assert ThreadOf(s', u).pc.CDesc?;
    }
  }

  lemma InsistsStep(s: State, t: nat, a: Act)
    requires Inv(s) && Locals(s) && Occupancy(s) && Fresh(s, t) && Current(s) && Insists(s)
    ensures Insists(Step(s, t, a))
  {
    hide Act1, Names, Readers, Contents, Counts, Hazard, ReaderOk, ReclaimOk, FreshHere;
    StepTable(s, t, a);
    StepOwn(s, t, a);
    var s' := Step(s, t, a);
    forall u: nat | ThreadOf(s', u).bits.Some? && (Retiring(ThreadOf(s', u).pc) || ThreadOf(s', u).pc.CDesc?)
      ensures var th := ThreadOf(s', u);
              var v := if th.pc.CDesc? then th.v - 1 else th.v;
              v < s'.current && forall k: nat :: k < |s.slots| && SlotAt(s', k).version == v > 0 ==> th.bits == Some(SlotAt(s', k).manifest)
    {
      StepThread(s, t, a, u);
      var th := ThreadOf(s', u);
      var v := if th.pc.CDesc? then th.v - 1 else th.v;
      forall k: nat | k < |s.slots| && SlotAt(s', k).version == v > 0
        ensures th.bits == Some(SlotAt(s', k).manifest)
      {
        ManifestStep(s, t, a, k);
      }
    }
  }

  // ---- Nothing is leaked ----

  /** Every outstanding version reference is held by a slot or being staged. */
  ghost predicate Held1(s: State, m: nat) {
    || (exists k: nat :: k < |s.slots| && Word(s, k) == m)
    || (exists t: nat :: Staging(ThreadOf(s, t).pc) && ThreadOf(s, t).m == m)
  }

  ghost predicate Unleaked(s: State) {
    forall m :: m in s.owned ==> Held1(s, m)
  }

  // ---- Someone is responsible for every superseded, unpinned slot ----

  predicate Responsible(th: Thread, k: nat, w: nat) {
    || (th.pc.UndoVersion? && th.i == k)
    || (th.pc.UndoCurrent? && th.v == w)
    || ((th.pc.TFindState? || th.pc.TFindVersion?) && th.v == w && th.i <= k)
    || ((th.pc.TFindManifest? || th.pc.TCurrent? || th.pc.TElect? || th.pc.TRescan?) && th.v == w && th.i == k)
    || (th.pc.CDesc? && th.v == w + 1)
  }

  /** Slot k holds a superseded version nobody pins. */
  predicate Reclaimable(s: State, k: nat) {
    SlotAt(s, k).state == Live && 0 < SlotAt(s, k).version < s.current && SlotAt(s, k).pins == 0
  }

  ghost predicate Looked(s: State) {
    forall k: nat {:trigger SlotAt(s, k)} :: k < |s.slots| && Reclaimable(s, k) ==>
      exists t: nat :: Responsible(ThreadOf(s, t), k, SlotAt(s, k).version)
  }

  /** A responsible thread stays responsible until it wins the slot. */
  predicate StaysResponsible(th: Thread, slot: Slot, view: View, e: Effect, k: nat, w: nat) {
    Responsible(th, k, w) && 0 < w < view.current && k < view.n
    && (th.i == k ==> slot.version == w && slot.state == Live && slot.pins == 0)
    && (th.i != k ==> slot.version != w)
    && (th.i == k && th.pc.TFindManifest? ==> th.bits == Some(slot.manifest))
    ==> Responsible(e.th, k, w) || (th.i == k && e.slot.state == Freeing)
  }

  predicate LastUnpin(th: Thread, slot: Slot, e: Effect) {
    Bumping(th.pc) && !Bumping(e.th.pc) && slot.pins == 1 ==>
      || (e.th.pc.UndoVersion? && e.th.i == th.i)
      || (e.th.pc.UndoCurrent? && e.th.v == th.v && th.pc.Held?)
  }

  lemma UnpinResponsible(th: Thread, slot: Slot, view: View, k: nat, w: nat)
    requires Unpinning(th.pc)
    ensures StaysResponsible(th, slot, view, UnpinStep(th, slot, view), k, w)
  {
  }

  lemma FindResponsible(th: Thread, slot: Slot, view: View, k: nat, w: nat)
    requires Finding(th.pc)
    ensures StaysResponsible(th, slot, view, FindStep(th, slot, view), k, w)
  {
  }

  lemma ElectResponsible(th: Thread, slot: Slot, view: View, k: nat, w: nat)
    requires Electing(th.pc)
    ensures StaysResponsible(th, slot, view, ElectStep(th, slot, view), k, w)
  {
  }

  lemma CommitResponsible(th: Thread, slot: Slot, view: View, k: nat, w: nat)
    requires Committing(th.pc)
    ensures StaysResponsible(th, slot, view, CommitStep(th, slot, view), k, w)
  {
  }

  lemma UnpinsLast(th: Thread, slot: Slot, view: View, a: Act)
    ensures LastUnpin(th, slot, Act1(th, slot, view, a))
  {
  }

  lemma ActResponsible(th: Thread, slot: Slot, view: View, a: Act, k: nat, w: nat)
    ensures StaysResponsible(th, slot, view, Act1(th, slot, view, a), k, w)
  {
    hide UnpinStep, FindStep, ElectStep, CommitStep;
    if Unpinning(th.pc) {
      UnpinResponsible(th, slot, view, k, w);
    } else if Finding(th.pc) {
      FindResponsible(th, slot, view, k, w);
    } else if Electing(th.pc) {
      ElectResponsible(th, slot, view, k, w);
    } else if Committing(th.pc) {
      CommitResponsible(th, slot, view, k, w);
    }
  }

  lemma ResponsibleStep(s: State, t: nat, a: Act, k: nat)
    requires Inv(s) && Locals(s) && Occupancy(s) && Insists(s)
    requires k < |s.slots| && Reclaimable(s, k) && Responsible(ThreadOf(s, t), k, SlotAt(s, k).version)
    requires SlotAt(Step(s, t, a), k).state != Freeing
    ensures Responsible(ThreadOf(Step(s, t, a), t), k, SlotAt(s, k).version)
  {
    hide Act1, Names, Readers, Contents, Counts, Hazard, ReaderOk, CommitOk;
    var th := ThreadOf(s, t);
    ActResponsible(th, SlotAt(s, th.i), ViewOf(s, th, a), a, k, SlotAt(s, k).version);
    StepThread(s, t, a, t);
    StepSlot(s, t, a, k);
  }

  /** A slot becomes reclaimable only at the hands of someone responsible for it. */
  lemma BecomesReclaimable(s: State, t: nat, a: Act, k: nat)
    requires Inv(s) && Locals(s) && Occupancy(s) && Fresh(s, t) && k < |s.slots|
    requires !Reclaimable(s, k) && Reclaimable(Step(s, t, a), k)
    ensures Responsible(ThreadOf(Step(s, t, a), t), k, SlotAt(Step(s, t, a), k).version)
  {
    hide Act1, Names, Readers, Contents, Hazard, WordFacts, FreshHere;
    var th := ThreadOf(s, t);
    StepOwn(s, t, a);
    StepTable(s, t, a);
    StepFacts(s, t, a);
    UnpinsLast(th, SlotAt(s, th.i), ViewOf(s, th, a), a);
    StepThread(s, t, a, t);
    StepSlot(s, t, a, k);
  }

  lemma LookedStep(s: State, t: nat, a: Act)
    requires Inv(s) && Locals(s) && Occupancy(s) && Insists(s) && Fresh(s, t) && Looked(s)
    ensures Looked(Step(s, t, a))
  {
    hide Act1, Inv, Locals, Occupancy, Insists, FreshHere, Responsible;
    var s' := Step(s, t, a);
    forall k: nat | k < |s'.slots| && Reclaimable(s', k)
      ensures exists u: nat :: Responsible(ThreadOf(s', u), k, SlotAt(s', k).version)
    {
      if !Reclaimable(s, k) {
        BecomesReclaimable(s, t, a, k);
      } else {
        var u: nat :| Responsible(ThreadOf(s, u), k, SlotAt(s, k).version);
        VersionKept(s, t, a, k);
        StepThread(s, t, a, u);
        if u == t {
          ResponsibleStep(s, t, a, k);
        }
        assert Responsible(ThreadOf(s', u), k, SlotAt(s', k).version);
      }
    }
  }

  lemma VersionKept(s: State, t: nat, a: Act, k: nat)
    requires Inv(s) && Locals(s) && Occupancy(s) && k < |s.slots|
    requires 0 < SlotAt(s, k).version && 0 < SlotAt(Step(s, t, a), k).version
    ensures SlotAt(Step(s, t, a), k).version == SlotAt(s, k).version
  {
    hide Act1, Names, Readers, Contents, Counts, Hazard, ReaderOk, ReclaimOk;
    StepTable(s, t, a);
    StepSlot(s, t, a, k);
  }

  // ---- No reference is lost ----

  lemma UnleakedStep(s: State, t: nat, a: Act)
    requires Inv(s) && Locals(s) && Fresh(s, t) && Unleaked(s)
    ensures Unleaked(Step(s, t, a))
  {
    hide Act1, Inv, Locals, FreshHere, Held1;
    var s' := Step(s, t, a);
    forall m | m in s'.owned
      ensures Held1(s', m)
    {
      HeldStep(s, t, a, m);
    }
  }

  lemma HeldStep(s: State, t: nat, a: Act, m: nat)
    requires Inv(s) && Locals(s) && Fresh(s, t) && Unleaked(s) && m in Step(s, t, a).owned
    ensures Held1(Step(s, t, a), m)
  {
    hide Act1, Word, Readers, Contents, Counts, Hazard, FreshHere, PinFacts, StateFacts;
    var s', th, e := Step(s, t, a), ThreadOf(s, t), EffectOf(s, t, a);
    StepFacts(s, t, a);
    StepThread(s, t, a, t);
    if e.staged == Some(m) {
      assert Staging(ThreadOf(s', t).pc) && ThreadOf(s', t).m == m;
    } else if k: nat :| k < |s.slots| && Word(s, k) == m {
      WordStays(s, t, a, k);
    } else {
      var u: nat :| Staging(ThreadOf(s, u).pc) && ThreadOf(s, u).m == m;
      StepThread(s, t, a, u);
      if u == t && !Staging(ThreadOf(s', t).pc) {
        StoresWord(s, t, a);
      } else {
        assert Staging(ThreadOf(s', u).pc) && ThreadOf(s', u).m == m;
      }
    }
  }

  /** A slot's word is only given up by releasing it. */
  lemma WordStays(s: State, t: nat, a: Act, k: nat)
    requires Inv(s) && Locals(s) && Fresh(s, t) && k < |s.slots| && Word(s, k) in Step(s, t, a).owned
    requires Word(s, k) != 0
    ensures Word(Step(s, t, a), k) == Word(s, k)
  {
    hide Act1, Readers, Contents, Counts, Hazard, FreshHere, PinFacts, StateFacts, ReaderOk;
    StepFacts(s, t, a);
    StepSlot(s, t, a, k);
    SpentStep(s, t, a, k);
    StepThread(s, t, a, t);
  }

  lemma StoresWord(s: State, t: nat, a: Act)
    requires Inv(s) && Locals(s) && Fresh(s, t) && ThreadOf(s, t).pc.CManifest?
    ensures ThreadOf(s, t).i < |s.slots| && Word(Step(s, t, a), ThreadOf(s, t).i) == ThreadOf(s, t).m
  {
    hide Act1, Readers, Contents, Counts, Hazard, FreshHere, PinFacts, StateFacts, ReaderOk;
    StepFacts(s, t, a);
    StepSlot(s, t, a, ThreadOf(s, t).i);
    SpentStep(s, t, a, ThreadOf(s, t).i);
  }

  // ---- Every fresh run ----

  ghost predicate Settled(s: State) {
    Locals(s) && Occupancy(s) && Current(s) && Insists(s) && Unleaked(s) && Looked(s)
  }

  lemma SettledStep(s: State, t: nat, a: Act)
    requires Inv(s) && Settled(s) && Fresh(s, t)
    ensures Settled(Step(s, t, a))
  {
    LocalsStep(s, t, a);
    OccupancyStep(s, t, a);
    CurrentStep(s, t, a);
    InsistsStep(s, t, a);
    UnleakedStep(s, t, a);
    LookedStep(s, t, a);
    hide *;
  }

  lemma ElectsOnly(th: Thread, slot: Slot, view: View, a: Act)
    requires th.pc.TElect?
    ensures Act1(th, slot, view, a).current == view.current
  {
  }

  /** A stale election leaves its retire at a slot that is not its version's, or of a version
      not superseded. */
  lemma StaleUnsettles(s: State, t: nat, a: Act)
    requires Inv(s) && !Fresh(s, t)
    ensures !Locals(Step(s, t, a))
  {
    hide Act1, Names, Readers, Contents, Counts, Hazard;
    var th, s' := ThreadOf(s, t), Step(s, t, a);
    StepTable(s, t, a);
    StepThread(s, t, a, t);
    StepSlot(s, t, a, th.i);
    ElectsOnly(th, SlotAt(s, th.i), ViewOf(s, th, a), a);
    assert !ReclaimOk(ThreadOf(s', t), SlotAt(s', ThreadOf(s', t).i), s'.current);
  }

  /** The books survive a step exactly when it is not a stale election. */
  lemma SettledIffFresh(s: State, t: nat, a: Act)
    requires Inv(s) && Settled(s)
    ensures Settled(Step(s, t, a)) <==> Fresh(s, t)
  {
    if Fresh(s, t) {
      SettledStep(s, t, a);
    } else {
      StaleUnsettles(s, t, a);
    }
    hide Locals, Occupancy, Current, Insists, Unleaked, Looked, Step, Fresh;
  }

  lemma InitSettled(n: nat)
    ensures Settled(Init(n))
  {
    var s := Init(n);
    assert forall k: nat :: SlotAt(s, k) == FreshSlot();
    assert forall t: nat :: ThreadOf(s, t) == RESTING;
    AllFresh(s);
    hide Occupancy, Looked;
  }

  lemma AllFresh(s: State)
    requires forall k: nat :: SlotAt(s, k) == FreshSlot()
    ensures Occupancy(s) && Looked(s)
  {
    forall k: nat
      ensures Installing(s, k) && Claiming(s, k) && Freed(s, k) && !Reclaimable(s, k)
    {
      assert SlotAt(s, k) == FreshSlot();
    }
  }

  lemma {:induction false} RunSettled(n: nat, sched: Schedule)
    requires FreshRun(n, sched)
    ensures Inv(Run(Init(n), sched)) && Settled(Run(Init(n), sched))
  {
    hide Inv, Init, Step, Settled, Fresh;
    RunInv(n, sched);
    if |sched| == 0 {
      InitSettled(n);
    } else {
      var last := sched[|sched| - 1];
      RunSettled(n, sched[..|sched| - 1]);
      SettledStep(Run(Init(n), sched[..|sched| - 1]), last.0, last.1);
    }
  }

  /** An accepted pin freezes its slot: same version, same manifest. */
  lemma PinFreezesSlot(n: nat, sched: Schedule, t: nat)
    requires FreshRun(n, sched)
    ensures var s := Run(Init(n), sched);
            var th := ThreadOf(s, t);
            th.pc.Held? ==> SlotAt(s, th.i).version == th.v && SlotAt(s, th.i).manifest == th.m
  {
    RunSettled(n, sched);
  }

  /** The current version can always be pinned: its slot is live, and no reclaimer
      is at work there. */
  lemma CurrentStaysLive(n: nat, sched: Schedule)
    requires FreshRun(n, sched)
    ensures var s := Run(Init(n), sched);
            s.current > 0 ==>
              exists k: nat :: k < n && SlotAt(s, k).state == Live && SlotAt(s, k).version == s.current
  {
    RunSettled(n, sched);
    SlotCount(n, sched);
  }

  /** No operation in flight. */
  ghost predicate Quiet(s: State) {
    forall t: nat :: ThreadOf(s, t).pc.Idle? || ThreadOf(s, t).pc.Held?
  }

  /** No lost reclamation: at rest every slot is free or live, a live slot holds the
      current version or one some reader still pins, and the outstanding version
      references are exactly the live slots' manifests. */
  lemma NoLostReclamation(n: nat, sched: Schedule)
    requires FreshRun(n, sched) && Quiet(Run(Init(n), sched))
    ensures var s := Run(Init(n), sched);
            && (forall k: nat :: k < n ==>
                  && SlotAt(s, k).state != Freeing
                  && (SlotAt(s, k).state == Live ==>
                        0 < SlotAt(s, k).version <= s.current
                        && (SlotAt(s, k).version == s.current || SlotAt(s, k).pins > 0)))
            && (forall m: nat :: m in s.owned <==>
                  m != 0 && exists k: nat :: k < n && SlotAt(s, k).state == Live && SlotAt(s, k).manifest == m)
  {
    RunSettled(n, sched);
    SlotCount(n, sched);
    var s := Run(Init(n), sched);
    forall k: nat | k < n
      ensures SlotAt(s, k).state != Freeing
      ensures SlotAt(s, k).state == Live ==>
                0 < SlotAt(s, k).version <= s.current
                && (SlotAt(s, k).version == s.current || SlotAt(s, k).pins > 0)
    {
      SlotAtRest(s, k);
    }
    forall m: nat
      ensures m in s.owned <==>
                m != 0 && exists k: nat :: k < n && SlotAt(s, k).state == Live && SlotAt(s, k).manifest == m
    {
      OwnedAtRest(s, m);
    }
  }

  lemma SlotAtRest(s: State, k: nat)
    requires Inv(s) && Settled(s) && Quiet(s) && k < |s.slots|
    ensures SlotAt(s, k).state != Freeing
    ensures SlotAt(s, k).state == Live ==>
              0 < SlotAt(s, k).version <= s.current
              && (SlotAt(s, k).version == s.current || SlotAt(s, k).pins > 0)
  {
    hide Names, Readers, Contents, Hazard, Locals, Current, Insists, Unleaked;
  }

  lemma OwnedAtRest(s: State, m: nat)
    requires Inv(s) && Settled(s) && Quiet(s)
    ensures m in s.owned <==>
              m != 0 && exists k: nat :: k < |s.slots| && SlotAt(s, k).state == Live && SlotAt(s, k).manifest == m
  {
    hide Readers, Contents, Hazard, Counts, Current, Insists, Looked, LocalOk;
    forall k: nat | k < |s.slots|
      ensures Word(s, k) == SlotAt(s, k).manifest
      ensures SlotAt(s, k).manifest != 0 ==> SlotAt(s, k).state == Live
    {
    }
  }
}
