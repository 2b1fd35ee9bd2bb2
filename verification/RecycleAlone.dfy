/** What the recycle handshake's operations come to when nobody interferes: a current handle
    gets in and a stale one does not, and a sweep renews the head or puts it back into
    service; and in every run, outside a sweep the latest incarnation is in service. */
module RecycleAlone {
  import opened Common
  import opened Recycle

  // ---- In service ----

  /** Outside a scan the latest incarnation is in service; during one, it is out of service
      but remembered. */
  predicate InService(s: State) {
    && s.issued > 0
    && (s.sweep.Resting? ==> s.inc == s.issued)
    && (!s.sweep.Resting? ==> s.inc == 0)
    && (!s.sweep.Resting? && !s.sweep.Fresh? ==> s.retired == s.issued)
  }

  lemma InServiceStep(s: State, a: Act)
    requires InService(s)
    ensures InService(Step(s, a))
  {
  }

  /** In every run, whatever a scan finds, outside one the head is in service under the latest
      incarnation, and under no other at any time. */
  lemma {:induction false} HeadInService(n: nat, acts: seq<Act>)
    ensures InService(Run(Init(n), acts))
  {
    hide Step, InService;
    if |acts| == 0 {
      AtFirst(n);
    } else {
      HeadInService(n, acts[..|acts| - 1]);
      InServiceStep(Run(Init(n), acts[..|acts| - 1]), acts[|acts| - 1]);
    }
  }

  lemma AtFirst(n: nat)
    ensures InService(Init(n))
  {
  }

  // ---- A sweep ----

  function Sweeps(s: State, k: nat): State {
    if k == 0 then s else SweepStep(Sweeps(s, k - 1))
  }

  ghost predicate Leads(s: State, s': State) {
    exists k: nat :: Sweeps(s, k) == s'
  }

  lemma Then(s: State, r: State)
    requires Leads(s, r)
    ensures Leads(s, SweepStep(r))
  {
    var k: nat :| Sweeps(s, k) == r;
    assert Sweeps(s, k + 1) == SweepStep(r);
  }

  /** The head with its incarnation taken out of service. */
  function Retired(s: State): State {
    s.(inc := 0, retired := s.inc)
  }

  predicate Blank(slot: Slot) {
    !slot.live && slot.pins == 0
  }

  /** The scan reads slots in order as long as they are blank. */
  lemma {:induction false} ScansTo(s0: State, s: State, k: nat)
    requires k <= |s.slots| && forall j :: 0 <= j < k ==> Blank(s.slots[j])
    requires Leads(s0, s.(sweep := ScanState(0)))
    ensures Leads(s0, s.(sweep := ScanState(k)))
  {
    hide Leads;
    if k > 0 {
      ScansTo(s0, s, k - 1);
      Then(s0, s.(sweep := ScanState(k - 1)));
      Then(s0, s.(sweep := ScanPins(k - 1)));
    }
  }

  /** Nothing is registered on the head. */
  predicate Unused(s: State) {
    s.current == 0 && s.lease == 0 && forall k :: 0 <= k < |s.slots| ==> Blank(s.slots[k])
  }

  /** The first slot that is not blank. */
  function FirstUsed(slots: seq<Slot>): (k: nat)
    ensures k <= |slots| && (forall j :: 0 <= j < k ==> Blank(slots[j])) && (k < |slots| ==> !Blank(slots[k]))
  {
    if |slots| == 0 then 0
    else
      var k := FirstUsed(slots[..|slots| - 1]);
      if k < |slots| - 1 then k else if Blank(slots[|slots| - 1]) then |slots| else |slots| - 1
  }

  /** A scan that found something puts the old incarnation back. */
  lemma Aborts(s0: State, s: State)
    requires s.sweep.Resting? && Leads(s0, Retired(s).(sweep := Aborted))
    ensures Leads(s0, s.(retired := s.inc))
  {
    hide Leads;
    Then(s0, Retired(s).(sweep := Aborted));
  }

  /** The region afresh, under a new incarnation. */
  function Renewed(s: State): State {
    s.(inc := s.issued + 1, current := 0, lease := 0, slots := seq(|s.slots|, _ => EMPTY), retired := 0, issued := s.issued + 1)
  }

  /** A sweep that nobody disturbs renews a head nothing is registered on, and otherwise puts
      it back into service as it was. */
  lemma SweepAlone(s: State)
    requires s.sweep.Resting?
    ensures Leads(s, if Unused(s) then Renewed(s) else s.(retired := s.inc))
  {
    assert Sweeps(s, 0) == s;
    hide Leads;
    var r := Retired(s);
    Then(s, s);
    Then(s, r.(sweep := ScanCurrent));
    if s.current != 0 {
      Aborts(s, s);
    } else {
      Then(s, r.(sweep := ScanLease));
      if s.lease != 0 {
        Aborts(s, s);
      } else {
        ScanAlone(s);
      }
    }
  }

  lemma ScanAlone(s: State)
    requires s.sweep.Resting? && s.current == 0 && s.lease == 0 && Leads(s, Retired(s).(sweep := ScanState(0)))
    ensures Leads(s, if Unused(s) then Renewed(s) else s.(retired := s.inc))
  {
    hide Leads;
    var r, k := Retired(s), FirstUsed(s.slots);
    ScansTo(s, r, k);
    Then(s, r.(sweep := ScanState(k)));
    if k == |s.slots| {
      Then(s, r.(sweep := Quiet));
      var blank := r.(current := 0, lease := 0, slots := seq(|s.slots|, _ => EMPTY), sweep := Fresh);
      Then(s, blank);
    } else if s.slots[k].live {
      Aborts(s, s);
    } else {
      Then(s, r.(sweep := ScanPins(k)));
      Aborts(s, s);
    }
  }

  // ---- Operations ----

  lemma Puts(s: State, t: nat, th: Thread)
    ensures ThreadOf(Put(s, t, th), t) == th
    ensures forall u: Thread {:trigger Put(Put(s, t, th), t, u)} :: Put(Put(s, t, th), t, u) == Put(s, t, u)
  {
    forall u: Thread
      ensures Put(Put(s, t, th), t, u) == Put(s, t, u)
    {
      assert s.threads[t := th][t := u] == s.threads[t := u];
    }
  }

  /** A pin with a handle of the incarnation in service gets in and is counted; with any other
      handle it backs out, and leaves the count as it was. */
  lemma PinAlone(s: State, t: nat, handle: nat, i: nat, v: nat)
    requires ThreadOf(s, t).pc.Idle? && i < |s.slots| && 0 < handle <= s.issued
    ensures var s2 := OpStep(OpStep(Step(s, Start(t, Pin, handle, i, v)), t), t);
            if s.inc == handle
            then s2 == Put(SetSlot(s, i, s.slots[i].(pins := s.slots[i].pins + 1)), t, Thread(Pinned, handle, i, v))
            else OpStep(s2, t) == Put(s, t, RESTING)
  {
    var th, slot := Thread(PinBump, handle, i, v), s.slots[i];
    var s1 := SetSlot(s, i, slot.(pins := slot.pins + 1));
    Puts(s, t, th);
    Puts(s1, t, th);
    Puts(s1, t, th.(pc := PinCheck));
    Puts(s1, t, th.(pc := PinUndo));
    Puts(s, t, th.(pc := PinUndo));
    assert Step(s, Start(t, Pin, handle, i, v)) == Put(s, t, th);
    assert OpStep(Put(s, t, th), t) == Put(s1, t, th.(pc := PinCheck));
    assert s1.slots[i := slot] == s.slots;
  }

  /** A claim of a free slot with a current handle gets it, one with any other handle backs
      out; a slot in use is refused. */
  lemma ClaimAlone(s: State, t: nat, handle: nat, i: nat, v: nat)
    requires ThreadOf(s, t).pc.Idle? && i < |s.slots| && 0 < handle <= s.issued
    ensures var s1 := OpStep(Step(s, Start(t, Claim, handle, i, v)), t);
            var held := SetSlot(s, i, s.slots[i].(live := true, version := v));
            if s.slots[i].live then s1 == Put(s, t, RESTING)
            else if s.inc == handle then OpStep(s1, t) == Put(held, t, Thread(Claimed, handle, i, v))
            else OpStep(OpStep(s1, t), t) == Put(SetSlot(s, i, Freed(s.slots[i])), t, RESTING)
  {
    var th, slot := Thread(ClaimSwap, handle, i, v), s.slots[i];
    var s1 := SetSlot(s, i, slot.(live := true, version := v));
    Puts(s, t, th);
    Puts(s1, t, th);
    Puts(s1, t, th.(pc := ClaimCheck));
    var undone := SetSlot(s, i, Freed(slot));
    Puts(s1, t, th.(pc := ClaimUndo));
    Puts(undone, t, th.(pc := ClaimUndo));
    assert Step(s, Start(t, Claim, handle, i, v)) == Put(s, t, th);
    assert s1.slots[i := Freed(slot)] == undone.slots;
  }

  /** A claim ends in one of two ways: it becomes current, exactly when it is the version
      after the current one, or it gives up and frees its slot, unless that is no longer
      its own. */
  lemma ClaimEnds(s: State, t: nat, th: Thread)
    requires th.pc.Claimed? && th.i < |s.slots|
    ensures Step(Put(s, t, th), Install(t)) ==
            if s.current + 1 == th.v then Put(s.(current := th.v), t, RESTING) else Put(s, t, th)
    ensures OpStep(Put(s, t, th), t) ==
            if s.slots[th.i].live && s.slots[th.i].version == th.v
            then Put(SetSlot(s, th.i, Slot(false, s.slots[th.i].pins, 0)), t, RESTING)
            else Put(s, t, RESTING)
  {
    Puts(s, t, th);
    Puts(s.(current := th.v), t, th);
    Puts(SetSlot(s, th.i, Slot(false, s.slots[th.i].pins, 0)), t, th);
  }

  /** The lease of a head is acquired with a current handle and given back on a drop; with any
      other handle the acquisition backs out, and a held lease is refused. */
  lemma LeaseAlone(s: State, t: nat, handle: nat, i: nat, v: nat)
    requires ThreadOf(s, t).pc.Idle? && i < |s.slots| && 0 < handle <= s.issued
    ensures var s1 := OpStep(Step(s, Start(t, Lease, handle, i, v)), t);
            if s.lease != 0 then s1 == Put(s, t, RESTING)
            else
              && (s.inc == handle ==> OpStep(s1, t) == Put(s.(lease := t + 1), t, Thread(Leased, handle, i, v)))
              && OpStep(OpStep(s1, t), t) == Put(s, t, RESTING)
  {
    var th, held := Thread(LeaseSwap, handle, i, v), s.(lease := t + 1);
    Puts(s, t, th);
    Puts(held, t, th);
    Puts(held, t, th.(pc := LeaseCheck));
    Puts(held, t, th.(pc := LeaseUndo));
    Puts(held, t, th.(pc := Leased));
    Puts(s, t, th.(pc := LeaseUndo));
    Puts(s, t, th.(pc := Leased));
    assert Step(s, Start(t, Lease, handle, i, v)) == Put(s, t, th);
  }
}
