/** What a stale election costs. A retire that found its version's slot and was
    overtaken may elect the slot's next occupant. Left to finish alone on an
    unpinned slot it frees whatever is there; this destroys the current version
    exactly when the current version is what is there. Having found the slot pinned it
    reverts instead; if the pin is gone by then, the slot's version is forgotten exactly
    when the retire was for another version and nobody else is on its way there. */
module StaleElection {
  import opened Common
  import opened PinProtocol
  import opened PinSafety
  import opened Reclamation

  /** Thread t runs alone for k steps. */
  function Solo(s: State, t: nat, k: nat): State {
    if k == 0 then s else Step(Solo(s, t, k - 1), t, Go)
  }

  /** The current version has a slot, free of any reclaimer. */
  ghost predicate CurrentPresent(s: State) {
    exists k: nat :: k < |s.slots| && SlotAt(s, k).state == Live && SlotAt(s, k).version == s.current
  }

  /** Thread t is about to elect an unpinned slot. */
  predicate ElectsUnpinned(s: State, t: nat) {
    var th := ThreadOf(s, t);
    th.pc.TElect? && th.i < |s.slots| && SlotAt(s, th.i).state == Live && SlotAt(s, th.i).pins == 0
  }

  /** The state once t has elected, scanned zero and freed the slot. */
  function Reclaimed(s: State, t: nat): State {
    var i := ThreadOf(s, t).i;
    State(s.current, s.desc, if i < |s.slots| then s.slots[i := FreshSlot()] else s.slots,
          s.owned - {SlotAt(s, i).manifest}, s.content, s.leased, s.threads[t := RESTING])
  }

  /** `s` with thread t, the slot it stands at, and the references replaced. */
  function Stand(s: State, t: nat, i: nat, th: Thread, slot: Slot, owned: map<nat, nat>): State
    requires i < |s.slots|
  {
    State(s.current, s.desc, s.slots[i := slot], owned, s.content, s.leased, s.threads[t := th])
  }

  lemma StandStep(s: State, t: nat, i: nat, th: Thread, slot: Slot, owned: map<nat, nat>)
    requires i < |s.slots| && th.i == i && (Electing(th.pc) || Reclaiming(th.pc))
    ensures var here := Stand(s, t, i, th, slot, owned);
            var e := EffectOf(here, t, Go);
            && e == Act1(th, slot, ViewOf(here, th, Go), Go)
            && (e.staged.None? && e.current == s.current && e.desc == s.desc && e.leased == s.leased ==>
                  Step(here, t, Go)
                  == Stand(s, t, i, e.th, e.slot,
                           if e.released.Some? then owned - {e.released.value} else owned))
  {
    hide Act1;
  }

  lemma SoloFrees(s: State, t: nat)
    requires ElectsUnpinned(s, t)
    ensures Solo(s, t, 7) == Reclaimed(s, t)
  {
    hide Step, EffectOf, StartStep, SeekStep, AcceptStep, UnpinStep, FindStep, ElectStep, CommitStep;
    SoloElects(s, t);
    SoloReleases(s, t);
    var i, slot := ThreadOf(s, t).i, SlotAt(s, ThreadOf(s, t).i);
    var th := ThreadOf(s, t).(pc := TClearVersion, m := slot.manifest);
    var owned, freeing := s.owned - {slot.manifest}, slot.(state := Freeing);
    assert Solo(s, t, 5) == Stand(s, t, i, th.(pc := TClearManifest), freeing.(version := 0), owned) by {
      StandStep(s, t, i, th, freeing, owned);
    }
    assert Solo(s, t, 6) == Stand(s, t, i, th.(pc := TFree), freeing.(version := 0, manifest := 0), owned) by {
      StandStep(s, t, i, th.(pc := TClearManifest), freeing.(version := 0), owned);
    }
    StandStep(s, t, i, th.(pc := TFree), freeing.(version := 0, manifest := 0), owned);
  }

  lemma SoloElects(s: State, t: nat)
    requires ElectsUnpinned(s, t)
    ensures var th, slot := ThreadOf(s, t), SlotAt(s, ThreadOf(s, t).i);
            Solo(s, t, 2) == Stand(s, t, th.i, th.(pc := TLoad), slot.(state := Freeing), s.owned)
  {
    hide Step, EffectOf, StartStep, SeekStep, AcceptStep, UnpinStep, FindStep, FreeStep, CommitStep;
    var th := ThreadOf(s, t);
    var i, slot := th.i, SlotAt(s, th.i);
    assert Solo(s, t, 1) == Stand(s, t, i, th.(pc := TScan), slot.(state := Freeing), s.owned) by {
      assert Stand(s, t, i, th, slot, s.owned) == s by {
        assert s.slots[i := slot] == s.slots;
        Unmoved(s, t);
      }
      StandStep(s, t, i, th, slot, s.owned);
    }
    StandStep(s, t, i, th.(pc := TScan), slot.(state := Freeing), s.owned);
  }

  lemma SoloReleases(s: State, t: nat)
    requires ElectsUnpinned(s, t)
    ensures var th, slot := ThreadOf(s, t), SlotAt(s, ThreadOf(s, t).i);
            Solo(s, t, 4) == Stand(s, t, th.i, th.(pc := TClearVersion, m := slot.manifest), slot.(state := Freeing),
                                   s.owned - {slot.manifest})
  {
    hide Step, EffectOf, StartStep, SeekStep, AcceptStep, UnpinStep, FindStep, ElectStep, CommitStep;
    SoloElects(s, t);
    var th := ThreadOf(s, t);
    var i, slot := th.i, SlotAt(s, th.i);
    var freeing := slot.(state := Freeing);
    assert Solo(s, t, 3) == Stand(s, t, i, th.(pc := TRelease, m := slot.manifest), freeing, s.owned) by {
      StandStep(s, t, i, th.(pc := TLoad), freeing, s.owned);
    }
    StandStep(s, t, i, th.(pc := TRelease, m := slot.manifest), freeing, s.owned);
  }

  lemma Unmoved(s: State, t: nat)
    requires t in s.threads
    ensures s.threads[t := ThreadOf(s, t)] == s.threads
  {
  }

  /** From any settled state, letting the elected retire finish leaves the current
      version in place exactly when the slot it elected is not the current one's. */
  lemma FreesCurrentIff(s: State, t: nat)
    requires Inv(s) && Settled(s) && s.current > 0 && ElectsUnpinned(s, t)
    ensures CurrentPresent(Solo(s, t, 7)) <==> SlotAt(s, ThreadOf(s, t).i).version != s.current
  {
    hide Inv, Locals, Insists, Unleaked, Looked, Solo;
    SoloFrees(s, t);
    var i, s' := ThreadOf(s, t).i, Reclaimed(s, t);
    assert forall l: nat :: l < |s.slots| ==> SlotAt(s', l) == if l == i then FreshSlot() else SlotAt(s, l);
    var k: nat :| k < |s.slots| && SlotAt(s, k).state == Live && SlotAt(s, k).version == s.current;
    if SlotAt(s, i).version != s.current {
      assert SlotAt(s', k) == SlotAt(s, k);
    } else {
      assert forall l: nat :: l < |s.slots| && l != i ==> SlotAt(s, l).version != s.current;
    }
  }

  /** A retire that reverts hands the slot back unpinned and superseded: someone is on the
      way to reclaim it exactly when the retire was for that version itself, or someone else
      already was. */
  lemma RevertLeaksIff(s: State, t: nat)
    requires Inv(s) && ThreadOf(s, t).pc.TRevert?
    requires var slot := SlotAt(s, ThreadOf(s, t).i); slot.pins == 0 && 0 < slot.version < s.current
    ensures var k, w, s' := ThreadOf(s, t).i, SlotAt(s, ThreadOf(s, t).i).version, Step(s, t, Go);
            && k < |s.slots| && Reclaimable(s', k) && SlotAt(s', k).version == w
            && ((exists u: nat :: Responsible(ThreadOf(s', u), k, w)) <==>
                  ThreadOf(s, t).v == w || exists u: nat :: u != t && Responsible(ThreadOf(s, u), k, w))
  {
    hide Names, Readers, Contents, Counts, Hazard, StartStep, SeekStep, AcceptStep, UnpinStep, FindStep, FreeStep, CommitStep;
    var th, s' := ThreadOf(s, t), Step(s, t, Go);
    var k, w := th.i, SlotAt(s, th.i).version;
    StepSlot(s, t, Go, k);
    StepThread(s, t, Go, t);
    assert ThreadOf(s', t) == th.(pc := TRescan);
    if th.v == w {
      assert Responsible(ThreadOf(s', t), k, w);
    }
    forall u: nat
      ensures u != t ==> ThreadOf(s', u) == ThreadOf(s, u)
    {
      StepThread(s, t, Go, u);
    }
    if u: nat :| u != t && Responsible(ThreadOf(s, u), k, w) {
      assert Responsible(ThreadOf(s', u), k, w);
    }
    if u: nat :| Responsible(ThreadOf(s', u), k, w) {
      assert u != t ==> Responsible(ThreadOf(s, u), k, w);
    }
  }

  // ---- Forgotten for good ----

  /** The thread works for other versions, and does not stand at slot k. */
  predicate Aloof(th: Thread, k: nat, w: nat) {
    && (!th.pc.Idle? ==> th.v != w)
    && (AtSlot(th.pc) && !th.pc.RFindVersion? && !th.pc.TFindVersion? ==> th.i != k)
    && (Committing(th.pc) ==> th.v > w + 1)
  }

  /** Slot k holds superseded version w, unpinned, and nobody works for it. */
  ghost predicate Forgotten(s: State, k: nat, w: nat) {
    && k < |s.slots| && Reclaimable(s, k) && SlotAt(s, k).version == w
    && (forall l: nat :: l < |s.slots| && l != k ==> SlotAt(s, l).version != w)
    && (forall t: nat :: Aloof(ThreadOf(s, t), k, w))
  }

  predicate StaysAloof(th: Thread, slot: Slot, e: Effect, k: nat, w: nat) {
    && Aloof(e.th, k, w) && e.current > w
    && if th.i == k then e.slot == slot else e.slot.version != w
  }

  /** What such a thread meets: version w at slot k, and only there. */
  predicate Meets(th: Thread, slot: Slot, view: View, k: nat, w: nat) {
    && Aloof(th, k, w) && 0 < w < view.current
    && if th.i == k then slot.version == w && slot.state == Live else slot.version != w
  }

  lemma ReaderAloof(th: Thread, slot: Slot, view: View, k: nat, w: nat)
    requires Meets(th, slot, view, k, w)
    ensures Seeking(th.pc) ==> StaysAloof(th, slot, SeekStep(th, slot, view), k, w)
    ensures Accepting(th.pc) ==> StaysAloof(th, slot, AcceptStep(th, slot, view), k, w)
    ensures Unpinning(th.pc) ==> StaysAloof(th, slot, UnpinStep(th, slot, view), k, w)
  {
  }

  lemma RetireAloof(th: Thread, slot: Slot, view: View, k: nat, w: nat)
    requires Meets(th, slot, view, k, w)
    ensures Finding(th.pc) ==> StaysAloof(th, slot, FindStep(th, slot, view), k, w)
    ensures Electing(th.pc) ==> StaysAloof(th, slot, ElectStep(th, slot, view), k, w)
    ensures Reclaiming(th.pc) ==> StaysAloof(th, slot, FreeStep(th, slot, view), k, w)
  {
  }

  lemma WriterAloof(th: Thread, slot: Slot, view: View, a: Act, k: nat, w: nat)
    requires Meets(th, slot, view, k, w) && a != Retire(w)
    ensures Committing(th.pc) ==> StaysAloof(th, slot, CommitStep(th, slot, view), k, w)
    ensures th.pc.Idle? ==> StaysAloof(th, slot, StartStep(th, slot, view, a), k, w)
  {
  }

  lemma ActAloof(th: Thread, slot: Slot, view: View, a: Act, k: nat, w: nat)
    requires Meets(th, slot, view, k, w) && a != Retire(w)
    ensures StaysAloof(th, slot, Act1(th, slot, view, a), k, w)
  {
    hide SeekStep, AcceptStep, UnpinStep, FindStep, ElectStep, FreeStep, CommitStep, StartStep, StaysAloof;
    ReaderAloof(th, slot, view, k, w);
    RetireAloof(th, slot, view, k, w);
    WriterAloof(th, slot, view, a, k, w);
  }

  lemma ForgottenStep(s: State, t: nat, a: Act, k: nat, w: nat)
    requires Forgotten(s, k, w) && a != Retire(w)
    ensures Forgotten(Step(s, t, a), k, w)
  {
    hide Act1;
    var th, s', e := ThreadOf(s, t), Step(s, t, a), EffectOf(s, t, a);
    ActAloof(th, SlotAt(s, th.i), ViewOf(s, th, a), a, k, w);
    forall l: nat
      ensures l < |s.slots| ==> SlotAt(s', l) == if l == th.i then e.slot else SlotAt(s, l)
    {
    }
    forall u: nat
      ensures Aloof(ThreadOf(s', u), k, w)
    {
      StepThread(s, t, a, u);
    }
  }

  /** A forgotten version is never reclaimed: in every later run that does not retire it by
      number, its slot stays live, unpinned and superseded. */
  lemma {:induction false} ForgottenForever(s: State, sched: Schedule, k: nat, w: nat)
    requires Forgotten(s, k, w) && forall i :: 0 <= i < |sched| ==> sched[i].1 != Retire(w)
    ensures Forgotten(Run(s, sched), k, w)
  {
    hide Forgotten, Step;
    if |sched| > 0 {
      var last := sched[|sched| - 1];
      ForgottenForever(s, sched[..|sched| - 1], k, w);
      ForgottenStep(Run(s, sched[..|sched| - 1]), last.0, last.1, k, w);
    }
  }
}
