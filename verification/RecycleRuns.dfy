/** Runs in which the recycle handshake fails. In the first two the head is initialised under
    a registration: the scan had passed the slot, the registration's undo then undoes the
    next occupant's, and the next scan comes back quiet over an operation that passed its
    check. In the third an evictor frees a claimed slot: the scan comes back quiet over the
    claim, the head is reused, and the old occupant's commit installs onto the new one. */
module RecycleRuns {
  import opened Common
  import opened Recycle

  ghost predicate Reached(s: State) {
    exists acts: seq<Act> :: Run(Init(1), acts) == s
  }

  lemma Then(s: State, a: Act, s': State)
    requires Reached(s) && Step(s, a) == s'
    ensures Reached(s')
  {
    var acts :| Run(Init(1), acts) == s;
    var longer := acts + [a];
    assert longer[..|longer| - 1] == acts;
    assert Run(Init(1), longer) == s';
  }

  /** A region of one slot, with no version and no lease. */
  predicate Bare(s: State) {
    |s.slots| == 1 && s.current == 0 && s.lease == 0
  }

  const SERVED: State := State(1, 0, 0, [EMPTY], Resting, 0, 1, map[])

  lemma Started()
    ensures Reached(SERVED)
  {
    assert seq(1, _ => EMPTY) == [EMPTY];
    assert Run(Init(1), []) == SERVED;
  }

  /** A scan of an empty region, up to its last look at the slot. */
  lemma Scans(s: State)
    requires Reached(s) && Bare(s) && s.slots[0] == EMPTY && s.sweep.Resting?
    ensures Reached(s.(inc := 0, retired := s.inc, sweep := ScanState(1)))
  {
    hide Reached;
    var r := s.(inc := 0, retired := s.inc);
    Then(s, Sweeping, r.(sweep := ScanCurrent));
    Then(r.(sweep := ScanCurrent), Sweeping, r.(sweep := ScanLease));
    Then(r.(sweep := ScanLease), Sweeping, r.(sweep := ScanState(0)));
    Then(r.(sweep := ScanState(0)), Sweeping, r.(sweep := ScanPins(0)));
    Then(r.(sweep := ScanPins(0)), Sweeping, r.(sweep := ScanState(1)));
  }

  /** The scan ends quiet, and the region goes back into service. */
  lemma Renews(s: State)
    requires Reached(s) && Bare(s) && s.sweep == ScanState(1)
    ensures Reached(s.(slots := [EMPTY], inc := s.issued + 1, retired := 0, issued := s.issued + 1, sweep := Resting))
  {
    hide Reached;
    var blank := s.(slots := [EMPTY], sweep := Fresh);
    Then(s, Sweeping, s.(sweep := Quiet));
    assert seq(|s.slots|, _ => EMPTY) == [EMPTY];
    Then(s.(sweep := Quiet), Sweeping, blank);
    Then(blank, Sweeping, blank.(inc := s.issued + 1, retired := 0, issued := s.issued + 1, sweep := Resting));
  }

  /** A thread's step that changes its slot and itself only. */
  lemma Moves(s: State, t: nat, th: Thread, slot: Slot)
    requires Reached(s) && |s.slots| == 1 && OpStep(s, t) == Put(s.(slots := [slot]), t, th)
    ensures Reached(Put(s.(slots := [slot]), t, th))
  {
    Then(s, Go(t), Put(s.(slots := [slot]), t, th));
  }

  // ---- Initialised under a registration ----

  /** Thread 0's operation of the first incarnation is about to register when the scan has
      passed its slot. */
  lemma Passed(kind: Kind, pc: Pc)
    requires (kind.Pin? && pc.PinBump?) || (kind.Claim? && pc.ClaimSwap?)
    ensures Reached(State(0, 0, 0, [EMPTY], ScanState(1), 1, 1, map[0 := Thread(pc, 1, 0, 1)]))
  {
    Started();
    Then(SERVED, Start(0, kind, 1, 0, 1), Put(SERVED, 0, Thread(pc, 1, 0, 1)));
    Scans(Put(SERVED, 0, Thread(pc, 1, 0, 1)));
  }

  function Renewed(slot: Slot, threads: map<nat, Thread>): State {
    State(2, 0, 0, [slot], Resting, 0, 2, threads)
  }

  /** A pin that registered behind the scan: the region is renewed under it, thread 1 pins
      the new occupant, and thread 0's undo takes that pin's count. */
  lemma PinLost()
    ensures Reached(Renewed(EMPTY, map[0 := RESTING, 1 := Thread(Pinned, 2, 0, 1)]))
  {
    hide Reached;
    Passed(Pin, PinBump);
    var s, a := State(0, 0, 0, [EMPTY], ScanState(1), 1, 1, map[0 := Thread(PinBump, 1, 0, 1)]), Thread(PinCheck, 1, 0, 1);
    Moves(s, 0, a, Slot(false, 1, 0));
    Renews(Put(s.(slots := [Slot(false, 1, 0)]), 0, a));
    assert Put(s, 0, a).threads == map[0 := a];
    PinSteals(a);
  }

  lemma PinSteals(a: Thread)
    requires a == Thread(PinCheck, 1, 0, 1) && Reached(Renewed(EMPTY, map[0 := a]))
    ensures Reached(Renewed(EMPTY, map[0 := RESTING, 1 := Thread(Pinned, 2, 0, 1)]))
  {
    hide Reached;
    var s, b, slot := Renewed(EMPTY, map[0 := a]), Thread(PinBump, 2, 0, 1), Slot(false, 1, 0);
    Then(s, Start(1, Pin, 2, 0, 1), Put(s, 1, b));
    var one := s.(slots := [slot]);
    Moves(Put(s, 1, b), 1, b.(pc := PinCheck), slot);
    Moves(Put(one, 1, b.(pc := PinCheck)), 1, b.(pc := Pinned), slot);
    Moves(Put(one, 1, b.(pc := Pinned)), 0, a.(pc := PinUndo), slot);
    Moves(Put(Put(one, 1, b.(pc := Pinned)), 0, a.(pc := PinUndo)), 0, RESTING, EMPTY);
    assert s.threads[1 := b.(pc := Pinned)][0 := a.(pc := PinUndo)][0 := RESTING] == map[0 := RESTING, 1 := b.(pc := Pinned)];
  }

  /** The scan can come back quiet over a pin that passed its check. */
  lemma QuietOverPin() returns (acts: seq<Act>)
    ensures var s := Run(Init(1), acts);
            s.sweep.Quiet? && Operating(s, 1) && ThreadOf(s, 1).pc.Pinned?
    ensures !PinsSpared(Init(1), acts)
  {
    PinLost();
    var s := Renewed(EMPTY, map[0 := RESTING, 1 := Thread(Pinned, 2, 0, 1)]);
    Scans(s);
    var r := s.(inc := 0, retired := 2, sweep := ScanState(1));
    Then(r, Sweeping, r.(sweep := Quiet));
    acts :| Run(Init(1), acts) == r.(sweep := Quiet);
    NotSpared(acts, 1);
  }

  lemma NotSpared(acts: seq<Act>, t: nat)
    requires Run(Init(1), acts).sweep.Quiet?
    ensures ThreadOf(Run(Init(1), acts), t).pc.Pinned? ==> !PinsSpared(Init(1), acts)
    ensures ThreadOf(Run(Init(1), acts), t).pc.Claimed? ==> !ClaimsSpared(Init(1), acts)
  {
    hide *;
    QuietMeansQuiet(1, acts, t);
  }

  /** A claim that registered behind the scan, in the same way: its back-out frees the slot
      thread 1 claimed for the new occupant. */
  lemma ClaimLost()
    ensures Reached(Renewed(EMPTY, map[0 := RESTING, 1 := Thread(Claimed, 2, 0, 1)]))
  {
    hide Reached;
    Passed(Claim, ClaimSwap);
    var s, a := State(0, 0, 0, [EMPTY], ScanState(1), 1, 1, map[0 := Thread(ClaimSwap, 1, 0, 1)]), Thread(ClaimCheck, 1, 0, 1);
    Moves(s, 0, a, Slot(true, 0, 1));
    Renews(Put(s.(slots := [Slot(true, 0, 1)]), 0, a));
    assert Put(s, 0, a).threads == map[0 := a];
    ClaimSteals(a);
  }

  lemma ClaimSteals(a: Thread)
    requires a == Thread(ClaimCheck, 1, 0, 1) && Reached(Renewed(EMPTY, map[0 := a]))
    ensures Reached(Renewed(EMPTY, map[0 := RESTING, 1 := Thread(Claimed, 2, 0, 1)]))
  {
    hide Reached;
    var s, b, slot := Renewed(EMPTY, map[0 := a]), Thread(ClaimSwap, 2, 0, 1), Slot(true, 0, 1);
    Then(s, Start(1, Claim, 2, 0, 1), Put(s, 1, b));
    var one := s.(slots := [slot]);
    Moves(Put(s, 1, b), 1, b.(pc := ClaimCheck), slot);
    Moves(Put(one, 1, b.(pc := ClaimCheck)), 1, b.(pc := Claimed), slot);
    Moves(Put(one, 1, b.(pc := Claimed)), 0, a.(pc := ClaimUndo), slot);
    Moves(Put(Put(one, 1, b.(pc := Claimed)), 0, a.(pc := ClaimUndo)), 0, RESTING, EMPTY);
    assert s.threads[1 := b.(pc := Claimed)][0 := a.(pc := ClaimUndo)][0 := RESTING] == map[0 := RESTING, 1 := b.(pc := Claimed)];
  }

  /** The scan can come back quiet over a claim that passed its check. */
  lemma QuietOverClaim() returns (acts: seq<Act>)
    ensures var s := Run(Init(1), acts);
            s.sweep.Quiet? && Operating(s, 1) && ThreadOf(s, 1).pc.Claimed?
    ensures !ClaimsSpared(Init(1), acts)
  {
    ClaimLost();
    var s := Renewed(EMPTY, map[0 := RESTING, 1 := Thread(Claimed, 2, 0, 1)]);
    Scans(s);
    var r := s.(inc := 0, retired := 2, sweep := ScanState(1));
    Then(r, Sweeping, r.(sweep := Quiet));
    acts :| Run(Init(1), acts) == r.(sweep := Quiet);
    NotSpared(acts, 1);
  }

  // ---- A claimed slot freed ----

  /** Thread 0's commit claimed the slot and passed its check; thread 1 evicts under the
      lease, and frees the slot with everything else. */
  lemma Evicted()
    ensures Reached(SERVED.(threads := map[0 := Thread(Claimed, 1, 0, 1), 1 := RESTING]))
  {
    Started();
    hide Reached;
    var a, b, slot := Thread(ClaimSwap, 1, 0, 1), Thread(LeaseSwap, 1, 0, 1), Slot(true, 0, 1);
    Then(SERVED, Start(0, Claim, 1, 0, 1), Put(SERVED, 0, a));
    var one := SERVED.(slots := [slot]);
    Moves(Put(SERVED, 0, a), 0, a.(pc := ClaimCheck), slot);
    Moves(Put(one, 0, a.(pc := ClaimCheck)), 0, a.(pc := Claimed), slot);
    var s := one.(threads := map[0 := a.(pc := Claimed)]);
    assert Put(Put(one, 0, a.(pc := ClaimCheck)).(slots := [slot]), 0, a.(pc := Claimed)).threads == s.threads;
    Evicts(s, a.(pc := Claimed), b, slot);
  }

  lemma Evicts(s: State, a: Thread, b: Thread, slot: Slot)
    requires s == SERVED.(slots := [slot], threads := map[0 := a]) && b == Thread(LeaseSwap, 1, 0, 1) && slot == Slot(true, 0, 1)
    requires Reached(s)
    ensures Reached(SERVED.(threads := map[0 := a, 1 := RESTING]))
  {
    hide Reached;
    var held := s.(lease := 2);
    Then(s, Start(1, Lease, 1, 0, 1), Put(s, 1, b));
    Then(Put(s, 1, b), Go(1), Put(Put(held, 1, b), 1, b.(pc := LeaseCheck)));
    var t := Put(held, 1, b.(pc := LeaseCheck));
    assert Put(Put(held, 1, b), 1, b.(pc := LeaseCheck)).threads == t.threads;
    Then(t, Go(1), Put(t, 1, b.(pc := Leased)));
    var u := Put(held, 1, b.(pc := Leased));
    assert Put(t, 1, b.(pc := Leased)).threads == u.threads;
    Then(u, Evict, u);
    Then(u, FreeSlot(0), u.(slots := [EMPTY]));
    Then(u.(slots := [EMPTY]), Go(1), Put(u.(slots := [EMPTY], lease := 0), 1, RESTING));
    assert Put(u, 1, RESTING).threads == map[0 := a, 1 := RESTING];
  }

  /** With no initialisation at all yet, the scan can come back quiet over a claim that
      passed its check: an evictor freed its slot. */
  lemma QuietOverFreedClaim() returns (acts: seq<Act>)
    ensures var s := Run(Init(1), acts);
            s.issued == 1 && s.sweep.Quiet? && Operating(s, 0) && ThreadOf(s, 0).pc.Claimed?
    ensures !ClaimsSpared(Init(1), acts)
  {
    Evicted();
    var s := SERVED.(threads := map[0 := Thread(Claimed, 1, 0, 1), 1 := RESTING]);
    Scans(s);
    var r := s.(inc := 0, retired := 1, sweep := ScanState(1));
    Then(r, Sweeping, r.(sweep := Quiet));
    acts :| Run(Init(1), acts) == r.(sweep := Quiet);
    NotSpared(acts, 0);
  }

  /** And a commit can install onto a reclaimed head: the region is in service under
      incarnation 2, no slot is live, and the next step of a commit of incarnation 1 makes
      its version current there. */
  lemma InstallsOntoNext() returns (acts: seq<Act>)
    ensures var s := Run(Init(1), acts);
            && s.inc == 2 && s.current == 0 && s.slots == [EMPTY]
            && ThreadOf(s, 0).pc.Claimed? && ThreadOf(s, 0).inc == 1
            && Step(s, Install(0)).current == 1 && Step(s, Install(0)).inc == 2
  {
    Evicted();
    var s := SERVED.(threads := map[0 := Thread(Claimed, 1, 0, 1), 1 := RESTING]);
    Scans(s);
    Renews(s.(inc := 0, retired := 1, sweep := ScanState(1)));
    acts :| Run(Init(1), acts) == s.(inc := 2, issued := 2);
  }
}
