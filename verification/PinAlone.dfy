/** What each operation of the pin protocol does when nobody interferes: a pin finds its
    version in whatever slot it is, a commit installs and retires its predecessor, a retire
    frees exactly an unpinned version's slot, and a drop reclaims behind itself
    (crates/shm-artifact/src/artifact.rs, pin_inner, commit_staged_inner_j,
    try_retire_version_at and PinState::drop; crates/shm-artifact/src/head.rs,
    find_slot, find_slot_with_manifest and claim_slot). */
module PinAlone {
  import opened Common
  import opened PinProtocol
  import S = PinSafety
  import R = Reclamation
  import N = NoLeak

  /** Thread t takes k steps and nobody else any. */
  function Alone(s: State, t: nat, k: nat): State {
    if k == 0 then s else Step(Alone(s, t, k - 1), t, Go)
  }

  /** Thread t, stepping alone from s, comes to s'. */
  ghost predicate Leads(s: State, t: nat, s': State) {
    exists k: nat :: Alone(s, t, k) == s'
  }

  lemma Here(s: State, t: nat)
    ensures Leads(s, t, s)
  {
    assert Alone(s, t, 0) == s;
  }

  lemma Then(s: State, t: nat, r: State, r': State)
    requires Leads(s, t, r) && Step(r, t, Go) == r'
    ensures Leads(s, t, r')
  {
    var k: nat :| Alone(s, t, k) == r;
    assert Alone(s, t, k + 1) == r';
  }

  /** Thread t stands at th. */
  function At(s: State, t: nat, th: Thread): State {
    s.(threads := s.threads[t := th])
  }

  function Sees(s: State, th: Thread): Effect {
    Act1(th, SlotAt(s, th.i), ViewOf(s, th, Go), Go)
  }

  /** Everything but the threads, after a step at slot i. */
  function Shared(s: State, i: nat, e: Effect): State {
    var kept := if e.released.Some? then s.owned - {e.released.value} else s.owned;
    State(e.current, e.desc,
          if i < |s.slots| then s.slots[i := e.slot] else s.slots,
          if e.staged.Some? then kept[e.staged.value := e.th.v] else kept,
          if e.staged.Some? then s.content[e.staged.value := e.th.v] else s.content,
          e.leased, s.threads)
  }

  lemma StepAt(s: State, t: nat, th: Thread)
    ensures Step(At(s, t, th), t, Go) == At(Shared(s, th.i, Sees(s, th)), t, Sees(s, th).th)
  {
    hide Act1;
    var e := Sees(s, th);
    assert ThreadOf(At(s, t, th), t) == th;
    assert s.threads[t := th][t := e.th] == s.threads[t := e.th];
  }

  /** Slot k holds `slot`. */
  function On(s: State, k: nat, slot: Slot): State
    requires k < |s.slots|
  {
    s.(slots := s.slots[k := slot])
  }

  lemma OnSame(s: State, k: nat)
    requires k < |s.slots|
    ensures On(s, k, s.slots[k]) == s
  {
    assert s.slots[k := s.slots[k]] == s.slots;
  }

  /** One step of t at a slot: it moves on, and leaves slot' there. */
  lemma Goes(s0: State, s: State, t: nat, th: Thread, slot: Slot, slot': Slot, th': Thread)
    requires th.i < |s.slots| && Leads(s0, t, At(On(s, th.i, slot), t, th))
    requires Act1(th, slot, ViewOf(s, th, Go), Go) == Effect(th', slot', s.current, s.desc, s.leased, None, None)
    ensures Leads(s0, t, At(On(s, th.i, slot'), t, th'))
  {
    hide Act1;
    StepAt(On(s, th.i, slot), t, th);
    assert s.slots[th.i := slot][th.i := slot'] == s.slots[th.i := slot'];
    Then(s0, t, At(On(s, th.i, slot), t, th), At(On(s, th.i, slot'), t, th'));
  }

  /** The step of a reclaimer that releases its manifest. */
  lemma Releases(s0: State, s: State, t: nat, th: Thread, slot: Slot)
    requires th.i < |s.slots| && th.pc.TRelease? && Leads(s0, t, At(On(s, th.i, slot), t, th))
    ensures Leads(s0, t, At(On(s.(owned := s.owned - {th.m}), th.i, slot), t, th.(pc := TClearVersion)))
  {
    ReleaseEffect(th, slot, ViewOf(s, th, Go));
    hide Act1, Leads;
    StepAt(On(s, th.i, slot), t, th);
    assert s.slots[th.i := slot][th.i := slot] == s.slots[th.i := slot];
    Then(s0, t, At(On(s, th.i, slot), t, th), At(On(s.(owned := s.owned - {th.m}), th.i, slot), t, th.(pc := TClearVersion)));
  }

  lemma ReleaseEffect(th: Thread, slot: Slot, view: View)
    requires th.pc.TRelease?
    ensures Act1(th, slot, view, Go) == Local(th.(pc := TClearVersion), slot, view).(released := Some(th.m))
  {
  }

  /** One step of t that only looks. */
  lemma Looks(s0: State, s: State, t: nat, th: Thread, th': Thread)
    requires Leads(s0, t, At(s, t, th))
    requires Sees(s, th) == Effect(th', SlotAt(s, th.i), s.current, s.desc, s.leased, None, None)
    ensures Leads(s0, t, At(s, t, th'))
  {
    hide Act1;
    StepAt(s, t, th);
    if th.i < |s.slots| {
      assert s.slots[th.i := s.slots[th.i]] == s.slots;
    }
    assert Shared(s, th.i, Sees(s, th)) == s;
    Then(s0, t, At(s, t, th), At(s, t, th'));
  }

  // ---- Pinning ----

  predicate Carries(slot: Slot, v: nat) {
    slot.state == Live && slot.version == v
  }

  /** Slots that do not carry the version are passed over. */
  lemma {:induction false} SeeksTo(s0: State, s: State, t: nat, th: Thread, k: nat)
    requires th.pc.RFindState? && th.i <= k <= |s.slots|
    requires forall j :: th.i <= j < k ==> !Carries(s.slots[j], th.v)
    requires Leads(s0, t, At(s, t, th))
    ensures Leads(s0, t, At(s, t, th.(i := k)))
    decreases k - th.i
  {
    hide Leads;
    if th.i < k {
      var next := th.(i := th.i + 1);
      if SlotAt(s, th.i).state == Live {
        Looks(s0, s, t, th, th.(pc := RFindVersion));
        Looks(s0, s, t, th.(pc := RFindVersion), next);
      } else {
        Looks(s0, s, t, th, next);
      }
      SeeksTo(s0, s, t, next, k);
    }
  }

  /** The table with one more pin on slot k. */
  function Bumped(s: State, k: nat): State
    requires k < |s.slots|
  {
    On(s, k, s.slots[k].(pins := s.slots[k].pins + 1))
  }

  /** At its slot, a reader bumps, checks and holds. */
  lemma Accepts(s0: State, s: State, t: nat, th: Thread)
    requires th.pc.RFindState? && th.i < |s.slots| && Carries(s.slots[th.i], th.v)
    requires s.slots[th.i].manifest == s.desc && s.desc in s.content && s.content[s.desc] == th.v
    requires Leads(s0, t, At(s, t, th))
    ensures Leads(s0, t, At(Bumped(s, th.i), t, th.(pc := Held, m := s.desc)))
  {
    hide Leads, On, At;
    var slot := s.slots[th.i];
    var more := slot.(pins := slot.pins + 1);
    OnSame(s, th.i);
    Goes(s0, s, t, th, slot, slot, th.(pc := RFindVersion));
    Goes(s0, s, t, th.(pc := RFindVersion), slot, slot, th.(pc := RPublish));
    Goes(s0, s, t, th.(pc := RPublish), slot, more, th.(pc := RAcceptState));
    Goes(s0, s, t, th.(pc := RAcceptState), more, more, th.(pc := RAcceptVersion));
    Goes(s0, s, t, th.(pc := RAcceptVersion), more, more, th.(pc := RDesc));
    Goes(s0, s, t, th.(pc := RDesc), more, more, th.(pc := RManifest, m := s.desc));
    Goes(s0, s, t, th.(pc := RManifest, m := s.desc), more, more, th.(pc := RRead, m := s.desc));
    Goes(s0, s, t, th.(pc := RRead, m := s.desc), more, more, th.(pc := Held, m := s.desc));
  }

  /** A pin that nobody disturbs finds the current version in whatever slot it is, and holds
      it: one more pin there, and nothing else changed. If no live slot carries it, the pin
      gives up without a trace. */
  lemma PinAlone(s: State, t: nat, k: nat)
    requires ThreadOf(s, t).pc.Idle? && s.current > 0 && k <= |s.slots|
    requires forall j :: 0 <= j < k ==> !Carries(s.slots[j], s.current)
    ensures k < |s.slots| && Carries(s.slots[k], s.current) && s.slots[k].manifest == s.desc
            && s.desc in s.content && s.content[s.desc] == s.current ==>
              Leads(Step(s, t, Pin), t, At(Bumped(s, k), t, Thread(Held, s.current, k, s.desc, None)))
    ensures k == |s.slots| ==> Leads(Step(s, t, Pin), t, At(s, t, RESTING))
  {
    var s0, th := Step(s, t, Pin), Thread(RFindState, s.current, 0, 0, None);
    StartsPin(s, t);
    Here(s0, t);
    SeeksTo(s0, s, t, th, k);
    hide Leads;
    if k == |s.slots| {
      Looks(s0, s, t, th.(i := k), RESTING);
    } else if Carries(s.slots[k], s.current) && s.slots[k].manifest == s.desc
              && s.desc in s.content && s.content[s.desc] == s.current {
      Accepts(s0, s, t, th.(i := k));
    }
  }

  lemma StartsPin(s: State, t: nat)
    requires ThreadOf(s, t).pc.Idle? && s.current > 0
    ensures Step(s, t, Pin) == At(s, t, Thread(RFindState, s.current, 0, 0, None))
  {
    var i := ThreadOf(s, t).i;
    if i < |s.slots| {
      assert s.slots[i := s.slots[i]] == s.slots;
    }
  }

  // ---- Retiring ----

  /** The slot a retire is for. */
  predicate Wanted(slot: Slot, v: nat, bits: Option<nat>) {
    Carries(slot, v) && (bits.Some? ==> bits.value == slot.manifest)
  }

  lemma {:induction false} FindsTo(s0: State, s: State, t: nat, th: Thread, k: nat)
    requires th.pc.TFindState? && th.i <= k <= |s.slots|
    requires forall j :: th.i <= j < k ==> !Wanted(s.slots[j], th.v, th.bits)
    requires Leads(s0, t, At(s, t, th))
    ensures Leads(s0, t, At(s, t, th.(i := k)))
    decreases k - th.i
  {
    hide Leads;
    if th.i < k {
      var next := th.(i := th.i + 1);
      if SlotAt(s, th.i).state != Live {
        Looks(s0, s, t, th, next);
      } else {
        Looks(s0, s, t, th, th.(pc := TFindVersion));
        if SlotAt(s, th.i).version != th.v {
          Looks(s0, s, t, th.(pc := TFindVersion), next);
        } else {
          Looks(s0, s, t, th.(pc := TFindVersion), th.(pc := TFindManifest));
          Looks(s0, s, t, th.(pc := TFindManifest), next);
        }
      }
      FindsTo(s0, s, t, next, k);
    }
  }

  /** The table with slot k freed, and its version's reference released. */
  function Reclaimed(s: State, k: nat): State
    requires k < |s.slots|
  {
    On(s.(owned := s.owned - {s.slots[k].manifest}), k, Slot(0, 0, s.slots[k].pins, Free))
  }

  /** What a retire comes to, given the slot it is for: nothing for the current version or a
      pinned one, and a free slot otherwise. */
  function Outcome(s: State, v: nat, k: nat): State
    requires k <= |s.slots|
  {
    if k == |s.slots| || s.current == v || s.slots[k].pins != 0 then s else Reclaimed(s, k)
  }

  /** Found, a version is reclaimed if it is not current and not pinned. */
  lemma Elects(s0: State, s: State, t: nat, th: Thread)
    requires th.pc.TElect? && th.i < |s.slots| && s.slots[th.i].state == Live && s.current != th.v
    requires Leads(s0, t, At(s, t, th))
    ensures Leads(s0, t, At(Outcome(s, th.v, th.i), t, RESTING))
  {
    hide Leads, On, At;
    var slot := s.slots[th.i];
    var busy := slot.(state := Freeing);
    OnSame(s, th.i);
    Goes(s0, s, t, th, slot, busy, th.(pc := TScan));
    if slot.pins != 0 {
      Goes(s0, s, t, th.(pc := TScan), busy, busy, th.(pc := TRevert));
      Goes(s0, s, t, th.(pc := TRevert), busy, slot, th.(pc := TRescan));
      Goes(s0, s, t, th.(pc := TRescan), slot, slot, RESTING);
    } else {
      Goes(s0, s, t, th.(pc := TScan), busy, busy, th.(pc := TLoad));
      Goes(s0, s, t, th.(pc := TLoad), busy, busy, th.(pc := TRelease, m := slot.manifest));
      Frees(s0, s, t, th.(pc := TRelease, m := slot.manifest), busy);
    }
  }

  lemma Frees(s0: State, s: State, t: nat, th: Thread, slot: Slot)
    requires th.pc.TRelease? && th.i < |s.slots| && th.m == s.slots[th.i].manifest && slot.pins == s.slots[th.i].pins
    requires Leads(s0, t, At(On(s, th.i, slot), t, th))
    ensures Leads(s0, t, At(Reclaimed(s, th.i), t, RESTING))
  {
    hide Leads, On, At;
    Releases(s0, s, t, th, slot);
    var r, blank := s.(owned := s.owned - {th.m}), slot.(version := 0);
    Goes(s0, r, t, th.(pc := TClearVersion), slot, blank, th.(pc := TClearManifest));
    Goes(s0, r, t, th.(pc := TClearManifest), blank, blank.(manifest := 0), th.(pc := TFree));
    Goes(s0, r, t, th.(pc := TFree), blank.(manifest := 0), Slot(0, 0, slot.pins, Free), RESTING);
  }

  /** A retire that nobody disturbs frees exactly the slot it is for, if that is neither
      the current version's nor pinned. */
  lemma RetireAlone(s0: State, s: State, t: nat, v: nat, bits: Option<nat>, k: nat)
    requires Leads(s0, t, At(s, t, StartRetire(v, bits))) && k <= |s.slots|
    requires forall j :: 0 <= j < k ==> !Wanted(s.slots[j], v, bits)
    requires k < |s.slots| ==> Wanted(s.slots[k], v, bits)
    ensures Leads(s0, t, At(Outcome(s, v, k), t, RESTING))
  {
    hide Leads, At;
    var th := StartRetire(v, bits).(i := k);
    FindsTo(s0, s, t, StartRetire(v, bits), k);
    if k == |s.slots| {
      Looks(s0, s, t, th, RESTING);
    } else {
      Looks(s0, s, t, th, th.(pc := TFindVersion));
      if bits.Some? {
        Looks(s0, s, t, th.(pc := TFindVersion), th.(pc := TFindManifest));
        Looks(s0, s, t, th.(pc := TFindManifest), th.(pc := TCurrent));
      } else {
        Looks(s0, s, t, th.(pc := TFindVersion), th.(pc := TCurrent));
      }
      if s.current == v {
        Looks(s0, s, t, th.(pc := TCurrent), RESTING);
      } else {
        Looks(s0, s, t, th.(pc := TCurrent), th.(pc := TElect));
        Elects(s0, s, t, th.(pc := TElect));
      }
    }
  }

  /** A drop gives one pin back, and the last one of a superseded version reclaims it. */
  lemma DropAlone(s: State, t: nat, th: Thread, k: nat)
    requires th.pc.Held? && th.i < |s.slots| && k <= |s.slots|
    requires forall j :: 0 <= j < k ==> !Carries(s.slots[j], th.v)
    requires k < |s.slots| ==> Carries(s.slots[k], th.v)
    ensures var slot := s.slots[th.i];
            var left := On(s, th.i, slot.(pins := slot.pins - 1));
            Leads(At(s, t, th), t, At(if slot.pins == 1 then Outcome(left, th.v, k) else left, t, RESTING))
  {
    var slot := s.slots[th.i];
    var s0, left := At(s, t, th), On(s, th.i, slot.(pins := slot.pins - 1));
    Here(s0, t);
    OnSame(s, th.i);
    hide Leads, At;
    if slot.pins != 1 {
      Goes(s0, s, t, th, slot, slot.(pins := slot.pins - 1), RESTING);
    } else {
      var out := th.(pc := UndoCurrent);
      Goes(s0, s, t, th, slot, slot.(pins := 0), out);
      if left.current == th.v {
        Looks(s0, left, t, out, RESTING);
      } else {
        Looks(s0, left, t, out, StartRetire(th.v, None));
        RetireAlone(s0, left, t, th.v, None, k);
      }
    }
  }

  // ---- Committing ----

  lemma {:induction false} ClaimsTo(s0: State, s: State, t: nat, th: Thread, k: nat)
    requires th.pc.CClaim? && th.i <= k <= |s.slots|
    requires forall j :: th.i <= j < k ==> s.slots[j].state != Free
    requires Leads(s0, t, At(s, t, th))
    ensures Leads(s0, t, At(s, t, th.(i := k)))
    decreases k - th.i
  {
    hide Leads;
    if th.i < k {
      Looks(s0, s, t, th, th.(i := th.i + 1));
      ClaimsTo(s0, s, t, th.(i := th.i + 1), k);
    }
  }

  /** A commit of manifest m has started. */
  function Begun(s: State, m: nat): State {
    s.(leased := true, owned := s.owned[m := s.current + 1], content := s.content[m := s.current + 1])
  }

  /** It is installed in slot k. */
  function Installed(s: State, m: nat, k: nat): State
    requires k < |s.slots|
  {
    var v := s.current + 1;
    s.(current := v, desc := m, slots := s.slots[k := Slot(v, m, s.slots[k].pins, Live)],
       owned := s.owned[m := v], content := s.content[m := v], leased := false)
  }

  lemma StartsCommit(s: State, t: nat, m: nat)
    requires ThreadOf(s, t).pc.Idle? && !s.leased && m != 0 && m !in s.owned
    ensures Step(s, t, Commit(m)) == At(Begun(s, m), t, Thread(CClaim, s.current + 1, 0, m, None))
  {
    var i := ThreadOf(s, t).i;
    if i < |s.slots| {
      assert s.slots[i := s.slots[i]] == s.slots;
    }
  }

  lemma Installs(s0: State, s: State, t: nat, m: nat, k: nat)
    requires k < |s.slots| && s.slots[k].state == Free
    requires Leads(s0, t, At(Begun(s, m), t, Thread(CClaim, s.current + 1, k, m, None)))
    ensures var th := if s.current > 0 then StartRetire(s.current, Some(s.desc)) else RESTING;
            Leads(s0, t, At(Installed(s, m, k), t, th))
  {
    hide Leads, On, At;
    var v, slot := s.current + 1, s.slots[k];
    var s1, th := Begun(s, m), Thread(CClaim, v, k, m, None);
    OnSame(s1, k);
    Goes(s0, s1, t, th, slot, slot.(state := Live), th.(pc := CManifest));
    Goes(s0, s1, t, th.(pc := CManifest), slot.(state := Live), slot.(state := Live, manifest := m), th.(pc := CVersion));
    Goes(s0, s1, t, th.(pc := CVersion), slot.(state := Live, manifest := m), Slot(v, m, slot.pins, Live), th.(pc := CPrior));
    Goes(s0, s1, t, th.(pc := CPrior), Slot(v, m, slot.pins, Live), Slot(v, m, slot.pins, Live),
         th.(pc := CInstall, bits := Some(s.desc)));
    Publishes(s0, s, t, th.(pc := CInstall, bits := Some(s.desc)), Slot(v, m, slot.pins, Live));
  }

  /** Making the version current, and its manifest the one to read. */
  lemma Publishes(s0: State, s: State, t: nat, th: Thread, slot: Slot)
    requires th.i < |s.slots| && th == Thread(CInstall, s.current + 1, th.i, th.m, Some(s.desc))
    requires slot == Slot(th.v, th.m, s.slots[th.i].pins, Live)
    requires Leads(s0, t, At(On(Begun(s, th.m), th.i, slot), t, th))
    ensures Leads(s0, t, At(Installed(s, th.m, th.i), t, if s.current > 0 then StartRetire(s.current, Some(s.desc)) else RESTING))
  {
    hide Leads;
    var s4 := On(Begun(s, th.m), th.i, slot);
    MakesCurrent(s0, s4, t, th, slot);
    MakesDesc(s0, s4.(current := th.v), t, th.(pc := CDesc), slot);
  }

  lemma MakesCurrent(s0: State, s: State, t: nat, th: Thread, slot: Slot)
    requires th.pc.CInstall? && th.i < |s.slots| && s.slots[th.i] == slot && Leads(s0, t, At(s, t, th))
    ensures Leads(s0, t, At(s.(current := th.v), t, th.(pc := CDesc)))
  {
    hide Leads;
    StepAt(s, t, th);
    assert s.slots[th.i := slot] == s.slots;
    Then(s0, t, At(s, t, th), At(s.(current := th.v), t, th.(pc := CDesc)));
  }

  lemma MakesDesc(s0: State, s: State, t: nat, th: Thread, slot: Slot)
    requires th.pc.CDesc? && th.i < |s.slots| && s.slots[th.i] == slot && Leads(s0, t, At(s, t, th))
    ensures var th' := if th.v > 1 then StartRetire(th.v - 1, th.bits) else RESTING;
            Leads(s0, t, At(s.(desc := th.m, leased := false), t, th'))
  {
    hide Leads;
    StepAt(s, t, th);
    assert s.slots[th.i := slot] == s.slots;
    var th' := if th.v > 1 then StartRetire(th.v - 1, th.bits) else RESTING;
    Then(s0, t, At(s, t, th), At(s.(desc := th.m, leased := false), t, th'));
  }

  /** A commit that nobody disturbs installs the next version in the first free slot and
      retires its predecessor, found by version and manifest; in a full table it leaves
      nothing but what the manifest's bytes say. */
  lemma CommitAlone(s: State, t: nat, m: nat, k: nat, q: nat)
    requires ThreadOf(s, t).pc.Idle? && !s.leased && m != 0 && m !in s.owned && k <= |s.slots|
    requires forall j :: 0 <= j < k ==> s.slots[j].state != Free
    requires k < |s.slots| ==> s.slots[k].state == Free
    requires q <= |s.slots|
    requires k < |s.slots| ==> forall j :: 0 <= j < q ==> !Wanted(Installed(s, m, k).slots[j], s.current, Some(s.desc))
    requires k < |s.slots| && q < |s.slots| ==> Wanted(Installed(s, m, k).slots[q], s.current, Some(s.desc))
    ensures k < |s.slots| ==>
              var s1 := Installed(s, m, k);
              Leads(Step(s, t, Commit(m)), t, At(if s.current > 0 then Outcome(s1, s.current, q) else s1, t, RESTING))
    ensures k == |s.slots| ==>
              Leads(Step(s, t, Commit(m)), t, At(s.(content := s.content[m := s.current + 1]), t, RESTING))
  {
    var s0, s1, th := Step(s, t, Commit(m)), Begun(s, m), Thread(CClaim, s.current + 1, 0, m, None);
    StartsCommit(s, t, m);
    Here(s0, t);
    hide Leads, Act1, At, Outcome, Wanted;
    ClaimsTo(s0, s1, t, th, k);
    if k < |s.slots| {
      Installs(s0, s, t, m, k);
      if s.current > 0 {
        RetireAlone(s0, Installed(s, m, k), t, s.current, Some(s.desc), q);
      }
    } else {
      Abandons(s0, s, t, m);
    }
  }

  /** A full table. */
  lemma Abandons(s0: State, s: State, t: nat, m: nat)
    requires !s.leased && m !in s.owned
    requires Leads(s0, t, At(Begun(s, m), t, Thread(CClaim, s.current + 1, |s.slots|, m, None)))
    ensures Leads(s0, t, At(s.(content := s.content[m := s.current + 1]), t, RESTING))
  {
    hide Leads;
    var th := Thread(CClaim, s.current + 1, |s.slots|, m, None);
    StepAt(Begun(s, m), t, th);
    assert s.owned[m := s.current + 1] - {m} == s.owned;
    Then(s0, t, At(Begun(s, m), t, th), At(s.(content := s.content[m := s.current + 1]), t, RESTING));
  }

  // ---- In every run ----

  lemma {:induction false} RunTagged(n: nat, sched: Schedule)
    requires R.FreshRun(n, sched)
    ensures N.Settled(Run(Init(n), sched))
  {
    hide N.Settled, N.Tagged, S.Inv, R.Settled, R.Fresh, Step, Init;
    if |sched| == 0 {
      N.InitSettled(n);
    } else {
      var before, last := sched[..|sched| - 1], sched[|sched| - 1];
      RunTagged(n, before);
      OneMore(Run(Init(n), before), last.0, last.1);
    }
  }

  lemma OneMore(s: State, t: nat, a: Act)
    requires N.Settled(s) && R.Fresh(s, t)
    ensures N.Settled(Step(s, t, a))
  {
    hide S.Inv, R.Settled, N.Tagged, R.Fresh, Step;
    S.InvStep(s, t, a);
    R.SettledStep(s, t, a);
    N.HasLocals(s);
    N.TaggedStep(s, t, a);
  }

  /** Whenever a version is current and its commit is done, a thread at rest that pins and
      is not disturbed holds that version, whatever other operations are under way and
      wherever in the table it is. */
  lemma PinSucceeds(n: nat, sched: Schedule, t: nat) returns (k: nat)
    requires R.FreshRun(n, sched)
    requires var s := Run(Init(n), sched);
             s.current > 0 && ThreadOf(s, t).pc.Idle? && forall u: nat :: !ThreadOf(s, u).pc.CDesc?
    ensures var s := Run(Init(n), sched);
            && k < |s.slots|
            && Leads(Step(s, t, Pin), t, At(Bumped(s, k), t, Thread(Held, s.current, k, s.desc, None)))
  {
    RunTagged(n, sched);
    var s := Run(Init(n), sched);
    k := CurrentSlot(s);
    hide Leads;
    PinAlone(s, t, k);
  }

  /** The current version's slot, once its commit is done. */
  lemma CurrentSlot(s: State) returns (k: nat)
    requires N.Settled(s) && s.current > 0 && forall u: nat :: !ThreadOf(s, u).pc.CDesc?
    ensures k < |s.slots| && Carries(s.slots[k], s.current) && s.slots[k].manifest == s.desc
    ensures s.desc in s.content && s.content[s.desc] == s.current
    ensures forall j :: 0 <= j < k ==> !Carries(s.slots[j], s.current)
  {
    hide S.Names, S.Readers, S.Contents, S.Counts, S.Hazard, R.Insists, R.Unleaked, R.Looked;
    k :| k < |s.slots| && SlotAt(s, k).state == Live && SlotAt(s, k).version == s.current;
    assert SlotAt(s, k).manifest == s.desc;
    assert N.TaggedAt(s, k);
    NotSpent(s, k);
    forall j | 0 <= j < k
      ensures !Carries(s.slots[j], s.current)
    {
      assert SlotAt(s, j) == s.slots[j];
    }
  }

  /** A live slot's reference is not released. */
  lemma NotSpent(s: State, k: nat)
    requires S.Elections(s) && SlotAt(s, k).state == Live
    ensures !S.Spent(s, k)
  {
  }

  // ---- Why a pin gives up ----

  /** Thread t looks at slot j, and what it sees sends it on. */
  predicate LooksAway(s: State, t: nat, j: nat) {
    var th, slot := ThreadOf(s, t), SlotAt(s, j);
    th.i == j && ((th.pc.RFindState? && slot.state != Live) || (th.pc.RFindVersion? && slot.version != th.v))
  }

  /** Somewhere along the schedule it did. */
  ghost predicate LookedAway(s: State, sched: Schedule, t: nat, j: nat) {
    |sched| > 0
    && (var before, last := sched[..|sched| - 1], sched[|sched| - 1];
        LookedAway(s, before, t, j) || (last.0 == t && LooksAway(Run(s, before), t, j)))
  }

  /** Thread t is looking for a slot all along the schedule. */
  ghost predicate Seeks(s: State, sched: Schedule, t: nat) {
    Seeking(ThreadOf(Run(s, sched), t).pc) && (|sched| > 0 ==> Seeks(s, sched[..|sched| - 1], t))
  }

  /** Every slot a seeking reader has passed sent it on. */
  lemma {:induction false} PassedAll(s: State, sched: Schedule, t: nat, j: nat)
    requires ThreadOf(s, t).pc.RFindState? && ThreadOf(s, t).i == 0 && Seeks(s, sched, t)
    ensures ThreadOf(Run(s, sched), t).v == ThreadOf(s, t).v && |Run(s, sched).slots| == |s.slots|
    ensures j < ThreadOf(Run(s, sched), t).i ==> LookedAway(s, sched, t, j)
  {
    hide Step, Act1;
    if |sched| > 0 {
      var before, last := sched[..|sched| - 1], sched[|sched| - 1];
      PassedAll(s, before, t, j);
      SeekMoves(Run(s, before), last.0, last.1, t);
    }
  }

  lemma SeekMoves(s: State, u: nat, a: Act, t: nat)
    requires Seeking(ThreadOf(s, t).pc)
    ensures |Step(s, u, a).slots| == |s.slots|
    ensures var th, th' := ThreadOf(s, t), ThreadOf(Step(s, u, a), t);
            && (Seeking(th'.pc) ==>
                  && th'.v == th.v
                  && (th'.i == th.i || (u == t && th'.i == th.i + 1 && LooksAway(s, t, th.i))))
            && (th'.pc.Idle? ==> th.i >= |s.slots|)
  {
    S.StepThread(s, u, a, t);
    if u == t {
      SeekEnds(ThreadOf(s, t), SlotAt(s, ThreadOf(s, t).i), ViewOf(s, ThreadOf(s, t), a));
    }
  }

  lemma SeekEnds(th: Thread, slot: Slot, view: View)
    requires Seeking(th.pc)
    ensures var e := SeekStep(th, slot, view);
            && (Seeking(e.th.pc) ==>
                  && e.th.v == th.v
                  && (e.th.i == th.i
                      || (e.th.i == th.i + 1
                          && ((th.pc.RFindState? && slot.state != Live) || (th.pc.RFindVersion? && slot.version != th.v)))))
            && (e.th.pc.Idle? ==> th.i >= view.n)
  {
  }

  /** In every schedule, a pin gives up before it has bumped only after it has looked at
      every slot, and each, when it looked, was not live or of another version. */
  lemma GivesUpAfterAll(s: State, sched: Schedule, t: nat, u: nat, a: Act, j: nat)
    requires ThreadOf(s, t).pc.RFindState? && ThreadOf(s, t).i == 0 && Seeks(s, sched, t)
    requires ThreadOf(Step(Run(s, sched), u, a), t).pc.Idle?
    ensures j < |s.slots| ==> LookedAway(s, sched, t, j)
  {
    hide Step, Act1;
    PassedAll(s, sched, t, j);
    SeekMoves(Run(s, sched), u, a, t);
  }
}
