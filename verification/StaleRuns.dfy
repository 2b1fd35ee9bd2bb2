/** Two runs of the pin protocol in which an election is stale. In the first a version is
    leaked: at rest it is live, unpinned and superseded. In the second the version about
    to be installed is freed: at rest the current version has no slot. Both use two
    slots and three threads, and start nothing but pins and commits. */
module StaleRuns {
  import opened Common
  import opened PinProtocol
  import opened PinSafety
  import opened Reclamation
  import opened StaleElection

  /** The machine with two slots and three threads, where manifest m is version m's. */
  datatype Small = Small(
    current: nat, desc: nat, a: Slot, b: Slot, leased: bool, staged: nat, t0: Thread, t1: Thread, t2: Thread)

  function SmallThread(m: Small, t: nat): Thread {
    if t == 0 then m.t0 else if t == 1 then m.t1 else m.t2
  }

  function SmallSlot(m: Small, i: nat): Slot {
    if i == 0 then m.a else if i == 1 then m.b else FreshSlot()
  }

  function SmallView(m: Small, th: Thread): View {
    View(2, m.current, m.desc, m.leased, 1 <= th.m <= m.staged && th.m == th.v, false)
  }

  function SmallStep(m: Small, t: nat, act: Act): Small {
    var th := SmallThread(m, t);
    var e := Act1(th, SmallSlot(m, th.i), SmallView(m, th), act);
    With(m, t, e.th, th.i, e.slot)
    .(current := e.current, desc := e.desc, leased := e.leased, staged := if e.staged.Some? then e.staged.value else m.staged)
  }

  /** `m` with thread t and the slot at i replaced. */
  function With(m: Small, t: nat, th: Thread, i: nat, slot: Slot): Small {
    Small(m.current, m.desc, if i == 0 then slot else m.a, if i == 1 then slot else m.b, m.leased, m.staged,
          if t == 0 then th else m.t0, if t == 1 then th else m.t1, if t == 2 then th else m.t2)
  }

  ghost predicate Shows(s: State, m: Small) {
    && s.current == m.current && s.desc == m.desc && s.leased == m.leased && s.slots == [m.a, m.b]
    && (forall t: nat {:trigger ThreadOf(s, t)} :: ThreadOf(s, t) == if t < 3 then SmallThread(m, t) else RESTING)
    && (forall k: nat :: k in s.content <==> 1 <= k <= m.staged)
    && (forall k: nat :: k in s.content ==> s.content[k] == k)
    && (forall k: nat :: k in s.owned ==> 1 <= k <= m.staged)
  }

  /** Some schedule leads to the state m shows. */
  ghost predicate Reached(m: Small) {
    exists sched: Schedule :: Shows(Run(Init(2), sched), m)
  }

  predicate Playable(m: Small, t: nat, act: Act) {
    t < 3 && !act.Retire? && (act.Commit? ==> SmallThread(m, t).pc.Idle? && act.manifest == m.staged + 1 == m.current + 1)
  }

  lemma StagedOnlyByCommit(th: Thread, slot: Slot, view: View, act: Act)
    ensures var e := Act1(th, slot, view, act);
            e.staged.Some? ==> th.pc.Idle? && act.Commit? && e.staged.value == act.manifest && e.th.v == view.current + 1
  {
  }

  lemma SameEffect(s: State, m: Small, t: nat, act: Act)
    requires Shows(s, m) && Playable(m, t, act)
    ensures var th := SmallThread(m, t);
            ThreadOf(s, t) == th && EffectOf(s, t, act) == Act1(th, SmallSlot(m, th.i), SmallView(m, th), act)
  {
    hide Act1;
    var th := ThreadOf(s, t);
    assert ViewOf(s, th, act) == SmallView(m, th);
    assert SlotAt(s, th.i) == SmallSlot(m, th.i);
  }

  lemma ShowsApply(s: State, m: Small, t: nat, e: Effect)
    requires Shows(s, m) && t < 3
    requires e.staged.Some? ==> e.staged.value == e.th.v == m.staged + 1
    ensures Shows(Apply(s, t, e),
                  With(m, t, e.th, SmallThread(m, t).i, e.slot)
                  .(current := e.current, desc := e.desc, leased := e.leased,
                    staged := if e.staged.Some? then e.staged.value else m.staged))
  {
    var s' := Apply(s, t, e);
    assert ThreadOf(s, t) == SmallThread(m, t);
    assert forall u: nat {:trigger ThreadOf(s', u)} :: ThreadOf(s', u) == if u == t then e.th else ThreadOf(s, u);
  }

  lemma ShowsStep(s: State, m: Small, t: nat, act: Act)
    requires Shows(s, m) && Playable(m, t, act)
    ensures Shows(Step(s, t, act), SmallStep(m, t, act))
  {
    hide Shows, Act1, Apply;
    SameEffect(s, m, t, act);
    var th := SmallThread(m, t);
    StagedOnlyByCommit(th, SmallSlot(m, th.i), SmallView(m, th), act);
    ShowsApply(s, m, t, EffectOf(s, t, act));
  }

  lemma Extend(m: Small, t: nat, act: Act)
    requires Reached(m) && Playable(m, t, act)
    ensures Reached(SmallStep(m, t, act))
  {
    var sched: Schedule :| Shows(Run(Init(2), sched), m);
    ShowsStep(Run(Init(2), sched), m, t, act);
    var longer := sched + [(t, act)];
    assert longer[..|longer| - 1] == sched;
    assert Run(Init(2), longer) == Step(Run(Init(2), sched), t, act);
  }

  const START: Small := Small(0, 0, Slot(0, 0, 0, Free), Slot(0, 0, 0, Free), false, 0, RESTING, RESTING, RESTING)

  lemma Started()
    ensures Reached(START)
  {
    assert Shows(Run(Init(2), []), START);
  }

  /** A step of t that touches nothing but its slot. */
  lemma Hop(m: Small, t: nat, i: nat, th: Thread, slot: Slot, e: Effect)
    requires t < 3 && i < 2 && th.i == i && Reached(With(m, t, th, i, slot))
    requires Act1(th, slot, SmallView(m, th), Go) == e
    requires e.(released := None) == Local(e.th, e.slot, SmallView(m, th))
    ensures Reached(With(m, t, e.th, i, e.slot))
  {
    hide Act1, Reached;
    Extend(With(m, t, th, i, slot), t, Go);
  }

  lemma HopElect(m: Small, t: nat, i: nat, th: Thread, slot: Slot, th2: Thread, slot2: Slot)
    requires t < 3 && i < 2 && th.i == i && Reached(With(m, t, th, i, slot))
    requires Electing(th.pc) && ElectStep(th, slot, SmallView(m, th)) == Local(th2, slot2, SmallView(m, th))
    ensures Reached(With(m, t, th2, i, slot2))
  {
    hide Reached, With, ElectStep, SmallView;
    Hop(m, t, i, th, slot, ElectStep(th, slot, SmallView(m, th)));
  }

  lemma HopFree(m: Small, t: nat, i: nat, th: Thread, slot: Slot, th2: Thread, slot2: Slot)
    requires t < 3 && i < 2 && th.i == i && Reached(With(m, t, th, i, slot))
    requires Reclaiming(th.pc) && FreeStep(th, slot, SmallView(m, th)).(released := None) == Local(th2, slot2, SmallView(m, th))
    ensures Reached(With(m, t, th2, i, slot2))
  {
    hide Reached, With, FreeStep, SmallView;
    Hop(m, t, i, th, slot, FreeStep(th, slot, SmallView(m, th)));
  }

  lemma HopSeek(m: Small, t: nat, i: nat, th: Thread, slot: Slot, th2: Thread, slot2: Slot)
    requires t < 3 && i < 2 && th.i == i && Reached(With(m, t, th, i, slot))
    requires Seeking(th.pc) && SeekStep(th, slot, SmallView(m, th)) == Local(th2, slot2, SmallView(m, th))
    ensures Reached(With(m, t, th2, i, slot2))
  {
    hide Reached, With, SeekStep, SmallView;
    Hop(m, t, i, th, slot, SeekStep(th, slot, SmallView(m, th)));
  }

  lemma HopAccept(m: Small, t: nat, i: nat, th: Thread, slot: Slot, th2: Thread, slot2: Slot)
    requires t < 3 && i < 2 && th.i == i && Reached(With(m, t, th, i, slot))
    requires Accepting(th.pc) && AcceptStep(th, slot, SmallView(m, th)) == Local(th2, slot2, SmallView(m, th))
    ensures Reached(With(m, t, th2, i, slot2))
  {
    hide Reached, With, AcceptStep, SmallView;
    Hop(m, t, i, th, slot, AcceptStep(th, slot, SmallView(m, th)));
  }

  lemma HopUnpin(m: Small, t: nat, i: nat, th: Thread, slot: Slot, th2: Thread, slot2: Slot)
    requires t < 3 && i < 2 && th.i == i && Reached(With(m, t, th, i, slot))
    requires Unpinning(th.pc) && UnpinStep(th, slot, SmallView(m, th)) == Local(th2, slot2, SmallView(m, th))
    ensures Reached(With(m, t, th2, i, slot2))
  {
    hide Reached, With, UnpinStep, SmallView;
    Hop(m, t, i, th, slot, UnpinStep(th, slot, SmallView(m, th)));
  }

  lemma HopFind(m: Small, t: nat, i: nat, th: Thread, slot: Slot, th2: Thread, slot2: Slot)
    requires t < 3 && i < 2 && th.i == i && Reached(With(m, t, th, i, slot))
    requires Finding(th.pc) && FindStep(th, slot, SmallView(m, th)) == Local(th2, slot2, SmallView(m, th))
    ensures Reached(With(m, t, th2, i, slot2))
  {
    hide Reached, With, FindStep, SmallView;
    Hop(m, t, i, th, slot, FindStep(th, slot, SmallView(m, th)));
  }

  lemma HopCommit(m: Small, t: nat, i: nat, th: Thread, slot: Slot, th2: Thread, slot2: Slot)
    requires t < 3 && i < 2 && th.i == i && Reached(With(m, t, th, i, slot))
    requires Committing(th.pc) && CommitStep(th, slot, SmallView(m, th)) == Local(th2, slot2, SmallView(m, th))
    ensures Reached(With(m, t, th2, i, slot2))
  {
    hide Reached, With, CommitStep, SmallView;
    Hop(m, t, i, th, slot, CommitStep(th, slot, SmallView(m, th)));
  }

  // ---- Stretches of a run ----

  /** From its election on, a lone retire of an unpinned slot frees it. */
  lemma Frees(m: Small, t: nat, i: nat, th: Thread, slot: Slot)
    requires t < 3 && i < 2 && Reached(With(m, t, th, i, slot))
    requires th.pc.TElect? && th.i == i && slot.state == Live && slot.pins == 0
    ensures Reached(With(m, t, RESTING, i, FreshSlot()))
  {
    hide Reached, With, SmallView;
    var freeing, last := slot.(state := Freeing), th.(m := slot.manifest);
    HopElect(m, t, i, th, slot, th.(pc := TScan), freeing);
    HopElect(m, t, i, th.(pc := TScan), freeing, th.(pc := TLoad), freeing);
    HopFree(m, t, i, th.(pc := TLoad), freeing, last.(pc := TRelease), freeing);
    HopFree(m, t, i, last.(pc := TRelease), freeing, last.(pc := TClearVersion), freeing);
    HopFree(m, t, i, last.(pc := TClearVersion), freeing, last.(pc := TClearManifest), freeing.(version := 0));
    HopFree(m, t, i, last.(pc := TClearManifest), freeing.(version := 0), last.(pc := TFree), freeing.(version := 0, manifest := 0));
    HopFree(m, t, i, last.(pc := TFree), freeing.(version := 0, manifest := 0), RESTING, FreshSlot());
  }

  /** A retire passes the first slot when it does not hold its version. */
  lemma Passes(m: Small, t: nat, v: nat, bits: Option<nat>)
    requires t < 3 && Reached(With(m, t, StartRetire(v, bits), 0, m.a)) && (m.a.state != Live || m.a.version != v)
    ensures Reached(With(m, t, Thread(TFindState, v, 1, 0, bits), 1, m.b))
  {
    hide Reached;
    var th, next := StartRetire(v, bits), Thread(TFindState, v, 1, 0, bits);
    if m.a.state != Live {
      HopFind(m, t, 0, th, m.a, next, m.a);
    } else {
      HopFind(m, t, 0, th, m.a, th.(pc := TFindVersion), m.a);
      HopFind(m, t, 0, th.(pc := TFindVersion), m.a, next, m.a);
    }
    assert With(m, t, next, 0, m.a) == With(m, t, next, 1, m.b);
  }

  /** A retire that finds its superseded version's slot stands before its election. */
  lemma Finds(m: Small, t: nat, i: nat, v: nat, bits: Option<nat>)
    requires t < 3 && i < 2 && Reached(With(m, t, StartRetire(v, bits), i, SmallSlot(m, i)))
    requires SmallSlot(m, i).state == Live && SmallSlot(m, i).version == v && m.current != v
    requires bits.Some? ==> bits.value == SmallSlot(m, i).manifest
    requires i == 1 ==> m.a.state != Live || m.a.version != v
    ensures Reached(With(m, t, Thread(TElect, v, i, 0, bits), i, SmallSlot(m, i)))
  {
    hide Reached;
    var th, slot := Thread(TFindState, v, i, 0, bits), SmallSlot(m, i);
    if i == 1 {
      assert With(m, t, StartRetire(v, bits), 1, slot) == With(m, t, StartRetire(v, bits), 0, m.a);
      Passes(m, t, v, bits);
    }
    hide With;
    HopFind(m, t, i, th, slot, th.(pc := TFindVersion), slot);
    if bits.Some? {
      HopFind(m, t, i, th.(pc := TFindVersion), slot, th.(pc := TFindManifest), slot);
      HopFind(m, t, i, th.(pc := TFindManifest), slot, th.(pc := TCurrent), slot);
    } else {
      HopFind(m, t, i, th.(pc := TFindVersion), slot, th.(pc := TCurrent), slot);
    }
    HopFind(m, t, i, th.(pc := TCurrent), slot, th.(pc := TElect), slot);
  }

  /** A retire whose version is in neither slot gives up. */
  lemma Misses(m: Small, t: nat, v: nat, bits: Option<nat>)
    requires t < 3 && Reached(With(m, t, StartRetire(v, bits), 0, m.a))
    requires (m.a.state != Live || m.a.version != v) && (m.b.state != Live || m.b.version != v)
    ensures Reached(With(m, t, RESTING, 1, m.b))
  {
    hide Reached;
    Passes(m, t, v, bits);
    var th := Thread(TFindState, v, 1, 0, bits);
    var end := th.(i := 2);
    if m.b.state != Live {
      HopFind(m, t, 1, th, m.b, end, m.b);
    } else {
      HopFind(m, t, 1, th, m.b, th.(pc := TFindVersion), m.b);
      HopFind(m, t, 1, th.(pc := TFindVersion), m.b, end, m.b);
    }
    Extend(With(m, t, end, 1, m.b), t, Go);
  }

  /** Two steps of a drop by the last reader of a superseded version start a retire. */
  lemma Drops(m: Small, t: nat, i: nat, th: Thread, slot: Slot)
    requires t < 3 && i < 2 && Reached(With(m, t, th, i, slot))
    requires th.pc.Held? && th.i == i && slot.pins == 1 && m.current != th.v
    ensures Reached(With(m, t, StartRetire(th.v, None), i, slot.(pins := 0)))
  {
    hide Reached, With;
    HopUnpin(m, t, i, th, slot, th.(pc := UndoCurrent), slot.(pins := 0));
    HopUnpin(m, t, i, th.(pc := UndoCurrent), slot.(pins := 0), StartRetire(th.v, None), slot.(pins := 0));
  }

  /** A pin up to its bump: the reader stands at the current version's slot. */
  lemma Seeks(m: Small, t: nat)
    requires t < 3 && Reached(With(m, t, RESTING, 0, m.a))
    requires m.current > 0 && m.a.state == Live && m.a.version == m.current
    ensures Reached(With(m, t, Thread(RPublish, m.current, 0, 0, None), 0, m.a))
  {
    hide Reached;
    Extend(With(m, t, RESTING, 0, m.a), t, Pin);
    var th := Thread(RFindState, m.current, 0, 0, None);
    assert SmallStep(With(m, t, RESTING, 0, m.a), t, Pin) == With(m, t, th, 0, m.a);
    hide With;
    HopSeek(m, t, 0, th, m.a, th.(pc := RFindVersion), m.a);
    HopSeek(m, t, 0, th.(pc := RFindVersion), m.a, th.(pc := RPublish), m.a);
  }

  /** A pin of the current version, alone. */
  lemma Pins(m: Small, t: nat)
    requires t < 3 && Reached(With(m, t, RESTING, 0, m.a))
    requires 0 < m.current == m.desc == m.a.manifest == m.a.version <= m.staged && m.a.state == Live
    ensures Reached(With(m, t, Thread(Held, m.current, 0, m.current, None), 0, m.a.(pins := m.a.pins + 1)))
  {
    hide Reached, With;
    Seeks(m, t);
    var th, slot := Thread(RPublish, m.current, 0, 0, None), m.a.(pins := m.a.pins + 1);
    var last := th.(m := m.current);
    HopSeek(m, t, 0, th, m.a, th.(pc := RAcceptState), slot);
    HopAccept(m, t, 0, th.(pc := RAcceptState), slot, th.(pc := RAcceptVersion), slot);
    HopAccept(m, t, 0, th.(pc := RAcceptVersion), slot, th.(pc := RDesc), slot);
    HopAccept(m, t, 0, th.(pc := RDesc), slot, last.(pc := RManifest), slot);
    HopAccept(m, t, 0, last.(pc := RManifest), slot, last.(pc := RRead), slot);
    HopAccept(m, t, 0, last.(pc := RRead), slot, last.(pc := Held), slot);
  }

  /** The slot a commit of version v claims. */
  function Claimed(v: nat, pins: int): Slot {
    Slot(v, v, pins, Live)
  }

  /** A commit starts, and comes to the first free slot. */
  lemma Opens(m: Small, t: nat, i: nat)
    requires t < 3 && i < 2 && Reached(With(m, t, RESTING, i, SmallSlot(m, i)))
    requires !m.leased && m.staged == m.current
    requires SmallSlot(m, i) == FreshSlot() && (i == 1 ==> m.a.state != Free)
    ensures Reached(With(m.(leased := true, staged := m.current + 1), t,
                         Thread(CClaim, m.current + 1, i, m.current + 1, None), i, FreshSlot()))
  {
    hide Reached;
    var v := m.current + 1;
    var m1, th := m.(leased := true, staged := v), Thread(CClaim, v, i, v, None);
    Extend(With(m, t, RESTING, i, SmallSlot(m, i)), t, Commit(v));
    assert SmallStep(With(m, t, RESTING, i, SmallSlot(m, i)), t, Commit(v)) == With(m1, t, th.(i := 0), 0, m.a);
    if i == 1 {
      hide SmallStep;
      HopCommit(m1, t, 0, th.(i := 0), m.a, th, m.a);
      assert With(m1, t, th, 0, m.a) == With(m1, t, th, 1, m.b);
    }
  }

  /** A commit up to its install: the slot is claimed, live, and names the next version. */
  lemma Claims(m: Small, t: nat, i: nat)
    requires t < 3 && i < 2 && Reached(With(m, t, RESTING, i, SmallSlot(m, i)))
    requires !m.leased && m.staged == m.current
    requires SmallSlot(m, i) == FreshSlot() && (i == 1 ==> m.a.state != Free)
    ensures Reached(With(m.(leased := true, staged := m.current + 1), t,
                         Thread(CPrior, m.current + 1, i, m.current + 1, None), i, Claimed(m.current + 1, 0)))
  {
    hide Reached, With;
    Opens(m, t, i);
    var v := m.current + 1;
    var m1, th, slot := m.(leased := true, staged := v), Thread(CClaim, v, i, v, None), FreshSlot().(state := Live);
    HopCommit(m1, t, i, th, FreshSlot(), th.(pc := CManifest), slot);
    HopCommit(m1, t, i, th.(pc := CManifest), slot, th.(pc := CVersion), slot.(manifest := v));
    HopCommit(m1, t, i, th.(pc := CVersion), slot.(manifest := v), th.(pc := CPrior), Claimed(v, 0));
  }

  /** The install of a claimed version: it becomes current, and its predecessor's retire starts. */
  lemma Installs(m: Small, t: nat, i: nat, slot: Slot)
    requires t < 3 && i < 2 && m.leased
    requires Reached(With(m, t, Thread(CPrior, m.current + 1, i, m.current + 1, None), i, slot))
    ensures Reached(With(m.(leased := false, current := m.current + 1, desc := m.current + 1), t,
                         if m.current == 0 then RESTING else StartRetire(m.current, Some(m.desc)), i, slot))
  {
    hide Reached;
    var v, th := m.current + 1, Thread(CInstall, m.current + 1, i, m.current + 1, Some(m.desc));
    HopCommit(m, t, i, th.(pc := CPrior, bits := None), slot, th, slot);
    HopInstall(m, t, i, th, slot);
    HopDesc(m.(current := v), t, i, th.(pc := CDesc), slot);
  }

  lemma HopInstall(m: Small, t: nat, i: nat, th: Thread, slot: Slot)
    requires t < 3 && i < 2 && th.i == i && th.pc.CInstall? && Reached(With(m, t, th, i, slot))
    ensures Reached(With(m.(current := th.v), t, th.(pc := CDesc), i, slot))
  {
    hide Reached;
    Extend(With(m, t, th, i, slot), t, Go);
    assert SmallStep(With(m, t, th, i, slot), t, Go) == With(m.(current := th.v), t, th.(pc := CDesc), i, slot);
  }

  lemma HopDesc(m: Small, t: nat, i: nat, th: Thread, slot: Slot)
    requires t < 3 && i < 2 && th.i == i && th.pc.CDesc? && th.v > 0 && Reached(With(m, t, th, i, slot))
    ensures Reached(With(m.(desc := th.m, leased := false), t, if th.v == 1 then RESTING else StartRetire(th.v - 1, th.bits), i, slot))
  {
    hide Reached;
    Extend(With(m, t, th, i, slot), t, Go);
  }

  // ---- A version leaked ----

  /** A machine at rest between commits: the current version, and both slots. */
  function Rest(current: nat, a: Slot, b: Slot): Small {
    Small(current, current, a, b, false, current, RESTING, RESTING, RESTING)
  }

  /** Alone, a commit of the next version into slot i, up to the start of its retire. */
  lemma Commits(m: Small, t: nat, i: nat)
    requires t < 3 && i < 2 && Reached(m) && SmallThread(m, t) == RESTING
    requires !m.leased && m.staged == m.current == m.desc
    requires SmallSlot(m, i) == FreshSlot() && (i == 1 ==> m.a.state != Free)
    ensures Reached(With(m.(current := m.current + 1, desc := m.current + 1, staged := m.current + 1), t,
                         if m.current == 0 then RESTING else StartRetire(m.current, Some(m.current)), i, Claimed(m.current + 1, 0)))
  {
    hide Reached;
    assert With(m, t, RESTING, i, SmallSlot(m, i)) == m;
    Claims(m, t, i);
    Installs(m.(leased := true, staged := m.current + 1), t, i, Claimed(m.current + 1, 0));
  }

  /** Version 2 is committed over a pinned version 1; its retire of version 1 stands before
      its election. Then version 1's reader drops and frees the slot itself. */
  lemma Overtaken()
    ensures Reached(Rest(2, FreshSlot(), Claimed(2, 0)).(t0 := Thread(TElect, 1, 0, 0, Some(1))))
  {
    hide Reached;
    Started();
    Commits(START, 0, 0);
    var one := Rest(1, Claimed(1, 0), FreshSlot());
    Pins(one, 1);
    var held := With(one, 1, Thread(Held, 1, 0, 1, None), 0, Claimed(1, 1));
    Commits(held, 0, 1);
    var two := With(held.(current := 2, desc := 2, staged := 2), 0, StartRetire(1, Some(1)), 1, Claimed(2, 0));
    Finds(two, 0, 0, 1, Some(1));
    var stale := two.(t0 := Thread(TElect, 1, 0, 0, Some(1)));
    Drops(stale, 1, 0, stale.t1, stale.a);
    var dropped := stale.(t1 := StartRetire(1, None), a := Claimed(1, 0));
    Finds(dropped, 1, 0, 1, None);
    Frees(dropped, 1, 0, Thread(TElect, 1, 0, 0, None), Claimed(1, 0));
  }

  /** Versions 3 and 4 follow; version 3 is pinned, so the retire of version 3 backs off. */
  lemma BackedOff()
    ensures Reached(Rest(4, Claimed(3, 1), Claimed(4, 0)).(t0 := Thread(TElect, 1, 0, 0, Some(1)), t1 := Thread(Held, 3, 0, 3, None)))
  {
    hide Reached;
    Overtaken();
    var stale := Rest(2, FreshSlot(), Claimed(2, 0)).(t0 := Thread(TElect, 1, 0, 0, Some(1)));
    Commits(stale, 2, 0);
    var three := stale.(current := 3, desc := 3, staged := 3, a := Claimed(3, 0), t2 := StartRetire(2, Some(2)));
    Finds(three, 2, 1, 2, Some(2));
    Frees(three, 2, 1, Thread(TElect, 2, 1, 0, Some(2)), Claimed(2, 0));
    var calm := three.(b := FreshSlot(), t2 := RESTING);
    Pins(calm, 1);
    var held := calm.(a := Claimed(3, 1), t1 := Thread(Held, 3, 0, 3, None));
    Commits(held, 2, 1);
    var four := held.(current := 4, desc := 4, staged := 4, b := Claimed(4, 0), t2 := StartRetire(3, Some(3)));
    Finds(four, 2, 0, 3, Some(3));
    BacksOff(four, 2, Thread(TElect, 3, 0, 0, Some(3)), Claimed(3, 1));
  }

  lemma BacksOff(m: Small, t: nat, th: Thread, slot: Slot)
    requires t < 3 && Reached(With(m, t, th, 0, slot))
    requires th.pc.TElect? && th.i == 0 && slot.state == Live && slot.pins > 0
    ensures Reached(With(m, t, RESTING, 0, slot))
  {
    hide Reached, With;
    var freeing := slot.(state := Freeing);
    HopElect(m, t, 0, th, slot, th.(pc := TScan), freeing);
    HopElect(m, t, 0, th.(pc := TScan), freeing, th.(pc := TRevert), freeing);
    HopElect(m, t, 0, th.(pc := TRevert), freeing, th.(pc := TRescan), slot);
    HopElect(m, t, 0, th.(pc := TRescan), slot, RESTING, slot);
  }

  /** The stale retire of version 1 elects version 3's slot; its last reader drops meanwhile
      and finds nothing live to retire; the stale retire reverts, and looks for version 1. */
  lemma Leaks()
    ensures Reached(Rest(4, Claimed(3, 0), Claimed(4, 0)))
  {
    hide Reached;
    BackedOff();
    var th := Thread(TElect, 1, 0, 0, Some(1));
    var m := Rest(4, Claimed(3, 1), Claimed(4, 0)).(t0 := th, t1 := Thread(Held, 3, 0, 3, None));
    var freeing := Claimed(3, 1).(state := Freeing);
    HopElect(m, 0, 0, th, Claimed(3, 1), th.(pc := TScan), freeing);
    HopElect(m, 0, 0, th.(pc := TScan), freeing, th.(pc := TRevert), freeing);
    var elected := m.(t0 := th.(pc := TRevert), a := freeing);
    Drops(elected, 1, 0, elected.t1, freeing);
    var free := freeing.(pins := 0);
    Misses(elected.(a := free), 1, 3, None);
    var alone := elected.(a := free, t1 := RESTING);
    HopElect(alone, 0, 0, th.(pc := TRevert), free, th.(pc := TRescan), Claimed(3, 0));
    HopElect(alone, 0, 0, th.(pc := TRescan), Claimed(3, 0), StartRetire(1, Some(1)), Claimed(3, 0));
    Misses(alone.(a := Claimed(3, 0)), 0, 1, Some(1));
  }

  /** Without fresh elections reclamation can be lost: at rest, with version 4 current,
      version 3 is still live, no one pins it, and no one ever comes back for it. */
  lemma LeakedVersion() returns (sched: Schedule)
    ensures var s := Run(Init(2), sched);
            && Quiet(s) && s.current == 4
            && SlotAt(s, 0) == Slot(3, 3, 0, Live) && SlotAt(s, 1) == Slot(4, 4, 0, Live)
            && Forgotten(s, 0, 3)
    ensures !FreshRun(2, sched)
  {
    Leaks();
    sched :| Shows(Run(Init(2), sched), Rest(4, Claimed(3, 0), Claimed(4, 0)));
    hide *;
    LeakShown(Run(Init(2), sched));
    LeakNotFresh(sched);
  }

  lemma LeakShown(s: State)
    requires Shows(s, Rest(4, Claimed(3, 0), Claimed(4, 0)))
    ensures && Quiet(s) && s.current == 4
            && SlotAt(s, 0) == Slot(3, 3, 0, Live) && SlotAt(s, 1) == Slot(4, 4, 0, Live)
            && Forgotten(s, 0, 3)
  {
  }

  lemma LeakNotFresh(sched: Schedule)
    requires var s := Run(Init(2), sched); Quiet(s) && s.current == 4 && SlotAt(s, 0) == Slot(3, 3, 0, Live)
    ensures !FreshRun(2, sched)
  {
    hide *;
    if FreshRun(2, sched) {
      NoLostReclamation(2, sched);
    }
  }

  // ---- The current version destroyed ----

  /** A reader about to bump version 1's slot is overtaken: the slot is freed, and claimed
      for version 3. */
  lemma Reclaimed()
    ensures Reached(Rest(2, Claimed(3, 0), Claimed(2, 0))
                    .(leased := true, staged := 3, t0 := Thread(CPrior, 3, 0, 3, None), t1 := Thread(RPublish, 1, 0, 0, None)))
  {
    hide Reached;
    Started();
    Commits(START, 0, 0);
    var one := Rest(1, Claimed(1, 0), FreshSlot());
    Seeks(one, 1);
    var seeking := one.(t1 := Thread(RPublish, 1, 0, 0, None));
    Commits(seeking, 0, 1);
    var two := seeking.(current := 2, desc := 2, staged := 2, b := Claimed(2, 0), t0 := StartRetire(1, Some(1)));
    Finds(two, 0, 0, 1, Some(1));
    Frees(two, 0, 0, Thread(TElect, 1, 0, 0, Some(1)), Claimed(1, 0));
    Claims(two.(a := FreshSlot(), t0 := RESTING), 0, 0);
  }

  /** It bumps, backs off, reads version 3 from the slot, and retires that. */
  lemma Misled()
    ensures Reached(Rest(2, FreshSlot(), Claimed(2, 0)).(leased := true, staged := 3, t0 := Thread(CPrior, 3, 0, 3, None)))
  {
    hide Reached;
    Reclaimed();
    var th := Thread(RPublish, 1, 0, 0, None);
    var m := Rest(2, Claimed(3, 0), Claimed(2, 0)).(leased := true, staged := 3, t0 := Thread(CPrior, 3, 0, 3, None), t1 := th);
    HopSeek(m, 1, 0, th, Claimed(3, 0), th.(pc := RAcceptState), Claimed(3, 1));
    HopAccept(m, 1, 0, th.(pc := RAcceptState), Claimed(3, 1), th.(pc := RAcceptVersion), Claimed(3, 1));
    HopAccept(m, 1, 0, th.(pc := RAcceptVersion), Claimed(3, 1), th.(pc := Undo), Claimed(3, 1));
    HopUnpin(m, 1, 0, th.(pc := Undo), Claimed(3, 1), th.(pc := UndoVersion), Claimed(3, 0));
    HopUnpin(m, 1, 0, th.(pc := UndoVersion), Claimed(3, 0), th.(pc := UndoCurrent, v := 3), Claimed(3, 0));
    HopUnpin(m, 1, 0, th.(pc := UndoCurrent, v := 3), Claimed(3, 0), StartRetire(3, None), Claimed(3, 0));
    Finds(m, 1, 0, 3, None);
    Frees(m, 1, 0, Thread(TElect, 3, 0, 0, None), Claimed(3, 0));
  }

  /** Without fresh elections the current version can be destroyed: at rest version 3 is
      current and no slot is live. */
  lemma DestroyedCurrent() returns (sched: Schedule)
    ensures var s := Run(Init(2), sched);
            && Quiet(s) && s.current == 3
            && SlotAt(s, 0) == FreshSlot() && SlotAt(s, 1) == FreshSlot()
    ensures !FreshRun(2, sched)
  {
    DestroysCurrent();
    sched :| Shows(Run(Init(2), sched), Rest(3, FreshSlot(), FreshSlot()));
    hide Run, FreshRun;
    if FreshRun(2, sched) {
      CurrentStaysLive(2, sched);
    }
  }

  lemma DestroysCurrent()
    ensures Reached(Rest(3, FreshSlot(), FreshSlot()))
  {
    hide Reached;
    Misled();
    var m := Rest(2, FreshSlot(), Claimed(2, 0)).(leased := true, staged := 3, t0 := Thread(CPrior, 3, 0, 3, None));
    Installs(m, 0, 0, FreshSlot());
    var three := m.(leased := false, current := 3, desc := 3, t0 := StartRetire(2, Some(2)));
    Finds(three, 0, 1, 2, Some(2));
    Frees(three, 0, 1, Thread(TElect, 2, 1, 0, Some(2)), Claimed(2, 0));
  }
}
