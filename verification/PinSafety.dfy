/** Pin hazard safety, over every schedule of every number of threads: an accepted
    pin's slot is never freed under it, and its version keeps its manifest. */
module PinSafety {
  import opened Common
  import opened PinProtocol

  /** A thread whose pin count increment is outstanding. */
  predicate Bumping(pc: Pc) {
    pc.RAcceptState? || pc.RAcceptVersion? || pc.RDesc? || pc.RManifest? || pc.RRead? || pc.Held? || pc.Undo?
  }

  /** A reader that saw its slot live after publishing its pin. */
  predicate Shielded(pc: Pc) {
    pc.RAcceptVersion? || pc.RDesc? || pc.RManifest? || pc.RRead? || pc.Held?
  }

  /** The reclaimer that won a slot's election and has not left it yet. */
  predicate Elected(pc: Pc) {
    pc.TScan? || pc.TRevert? || Reclaiming(pc)
  }

  /** Instructions that need the slot register to name a slot. */
  predicate AtSlot(pc: Pc) {
    !pc.Idle? && !pc.RFindState? && !pc.TFindState? && !pc.CClaim? && !pc.UndoCurrent?
  }

  function One(b: bool): nat {
    if b then 1 else 0
  }

  // ---- What one step may do to its thread and slot ----

  /** The slot register stays in the table, and changes only between scans. */
  predicate PlaceFacts(th: Thread, slot: Slot, n: nat, e: Effect) {
    && (AtSlot(e.th.pc) ==> e.th.i < n)
    && (Bumping(e.th.pc) || Elected(e.th.pc) ==> e.th.i == th.i)
  }

  predicate PinFacts(th: Thread, slot: Slot, e: Effect) {
    e.slot.pins == slot.pins - One(Bumping(th.pc)) + One(Bumping(e.th.pc))
  }

  /** A slot leaves FREEING only through its elected reclaimer, is freed only past
      the scan, and a scan of zero is what starts a reclaim. */
  predicate StateFacts(th: Thread, slot: Slot, e: Effect) {
    && (slot.state == Freeing && !Elected(th.pc) ==> e.slot.state == Freeing)
    && (e.slot.state == Free && slot.state != Free ==> Reclaiming(th.pc))
    && (Elected(e.th.pc) ==> e.slot.state == Freeing && (Elected(th.pc) || slot.state == Live))
    && (Reclaiming(e.th.pc) ==> Elected(th.pc) && (Reclaiming(th.pc) || e.slot.pins == 0))
    && (Shielded(e.th.pc) ==> Shielded(th.pc) || e.slot.state == Live)
  }

  /** Who names a manifest: slot words, a reclaimer about to release one, and the
      committer until it stored its own. */
  predicate Staging(pc: Pc) {
    pc.CClaim? || pc.CManifest?
  }

  predicate Reads(pc: Pc) {
    pc.RRead? || pc.Held?
  }

  predicate Clearing(pc: Pc) {
    pc.TClearVersion? || pc.TClearManifest?
  }

  /** How manifests change hands. */
  predicate WordFacts(th: Thread, slot: Slot, view: View, e: Effect) {
    && (th.pc.CManifest? ==> e.slot.manifest == th.m && !Staging(e.th.pc))
    && (th.pc.TClearManifest? ==> e.slot.manifest == 0)
    && (!th.pc.CManifest? && !th.pc.TClearManifest? ==> e.slot.manifest == slot.manifest)
    && (th.pc.TRelease? ==> e.released == Some(th.m) && e.th.pc.TClearVersion?)
    && (th.pc.TClearVersion? ==> e.th.pc.TClearManifest?)
    && (Clearing(e.th.pc) ==> th.pc.TRelease? || th.pc.TClearVersion?)
    && (e.th.pc.TRelease? ==> th.pc.TLoad? && e.th.m == slot.manifest)
    && (e.released.Some? ==> e.released.value == th.m && (th.pc.TRelease? || (th.pc.CClaim? && !Staging(e.th.pc))))
    && (e.staged.Some? ==> th.pc.Idle? && !view.taken && e.th.pc.CClaim? && e.th.m == e.staged.value != 0)
    && (Staging(e.th.pc) ==> (Staging(th.pc) && e.th.m == th.m && e.released.None?) || e.staged.Some?)
    && (Staging(th.pc) && !Staging(e.th.pc) ==> th.pc.CManifest? || e.released == Some(th.m))
    && (e.th.pc.RRead? ==> th.pc.RManifest? && e.th.m == th.m == slot.manifest && e.th.i == th.i)
    && (e.th.pc.Held? ==> th.pc.RRead? && view.matches && e.th == th.(pc := Held))
  }

  predicate LeaseFacts(th: Thread, view: View, e: Effect) {
    && (Committing(e.th.pc) ==> e.leased && (Committing(th.pc) || !view.leased))
    && (view.leased && !e.leased ==> Committing(th.pc) && !Committing(e.th.pc))
  }

  predicate Facts(th: Thread, slot: Slot, view: View, e: Effect) {
    PlaceFacts(th, slot, view.n, e) && PinFacts(th, slot, e) && StateFacts(th, slot, e) && LeaseFacts(th, view, e)
  }

  predicate Placed(th: Thread, slot: Slot, view: View) {
    && (AtSlot(th.pc) ==> th.i < view.n)
    && (Elected(th.pc) ==> slot.state == Freeing)
    && (Committing(th.pc) ==> view.leased)
  }

  lemma SeekFacts(th: Thread, slot: Slot, view: View)
    requires Seeking(th.pc) && Placed(th, slot, view)
    ensures Facts(th, slot, view, SeekStep(th, slot, view))
    ensures WordFacts(th, slot, view, SeekStep(th, slot, view))
  {
  }

  lemma AcceptFacts(th: Thread, slot: Slot, view: View)
    requires Accepting(th.pc) && Placed(th, slot, view)
    ensures Facts(th, slot, view, AcceptStep(th, slot, view))
    ensures WordFacts(th, slot, view, AcceptStep(th, slot, view))
  {
  }

  lemma UnpinFacts(th: Thread, slot: Slot, view: View)
    requires Unpinning(th.pc) && Placed(th, slot, view)
    ensures Facts(th, slot, view, UnpinStep(th, slot, view))
    ensures WordFacts(th, slot, view, UnpinStep(th, slot, view))
  {
  }

  lemma FindFacts(th: Thread, slot: Slot, view: View)
    requires Finding(th.pc) && Placed(th, slot, view)
    ensures Facts(th, slot, view, FindStep(th, slot, view))
    ensures WordFacts(th, slot, view, FindStep(th, slot, view))
  {
  }

  lemma ElectFacts(th: Thread, slot: Slot, view: View)
    requires Electing(th.pc) && Placed(th, slot, view)
    ensures Facts(th, slot, view, ElectStep(th, slot, view))
    ensures WordFacts(th, slot, view, ElectStep(th, slot, view))
  {
  }

  lemma FreeFacts(th: Thread, slot: Slot, view: View)
    requires Reclaiming(th.pc) && Placed(th, slot, view)
    ensures Facts(th, slot, view, FreeStep(th, slot, view))
    ensures WordFacts(th, slot, view, FreeStep(th, slot, view))
  {
  }

  lemma CommitFacts(th: Thread, slot: Slot, view: View)
    requires Committing(th.pc) && Placed(th, slot, view)
    ensures Facts(th, slot, view, CommitStep(th, slot, view))
    ensures WordFacts(th, slot, view, CommitStep(th, slot, view))
  {
  }

  lemma StartFacts(th: Thread, slot: Slot, view: View, a: Act)
    requires th.pc.Idle?
    ensures Facts(th, slot, view, StartStep(th, slot, view, a))
    ensures WordFacts(th, slot, view, StartStep(th, slot, view, a))
  {
  }

  lemma ActFacts(th: Thread, slot: Slot, view: View, a: Act)
    requires Placed(th, slot, view)
    ensures Facts(th, slot, view, Act1(th, slot, view, a))
    ensures WordFacts(th, slot, view, Act1(th, slot, view, a))
  {
    hide Facts, WordFacts, StartStep, SeekStep, AcceptStep, UnpinStep, FindStep, ElectStep, FreeStep, CommitStep;
    if th.pc.Idle? {
      StartFacts(th, slot, view, a);
    } else if Seeking(th.pc) {
      SeekFacts(th, slot, view);
    } else if Accepting(th.pc) {
      AcceptFacts(th, slot, view);
    } else if Unpinning(th.pc) {
      UnpinFacts(th, slot, view);
    } else if Finding(th.pc) {
      FindFacts(th, slot, view);
    } else if Electing(th.pc) {
      ElectFacts(th, slot, view);
    } else if Reclaiming(th.pc) {
      FreeFacts(th, slot, view);
    } else {
      CommitFacts(th, slot, view);
    }
  }

  // ---- What every run keeps ----

  /** Threads whose bump of slot i is outstanding. */
  function Bumpers(threads: map<nat, Thread>, i: nat): set<nat> {
    set t | t in threads && Bumping(threads[t].pc) && threads[t].i == i
  }

  ghost predicate InTable(s: State) {
    forall t: nat :: AtSlot(ThreadOf(s, t).pc) ==> ThreadOf(s, t).i < |s.slots|
  }

  /** A slot's pin count is exactly its outstanding bumps. */
  ghost predicate Counts(s: State) {
    forall k: nat :: k < |s.slots| ==> SlotAt(s, k).pins == |Bumpers(s.threads, k)|
  }

  /** Only the one elected reclaimer of a slot is between election and exit, and
      the slot says so. */
  ghost predicate Elections(s: State) {
    && (forall t: nat :: Elected(ThreadOf(s, t).pc) ==> SlotAt(s, ThreadOf(s, t).i).state == Freeing)
    && (forall t: nat, u: nat ::
          Elected(ThreadOf(s, t).pc) && Elected(ThreadOf(s, u).pc) && ThreadOf(s, t).i == ThreadOf(s, u).i ==> t == u)
  }

  /** The handshake: a shielded reader's slot is not free, and no reclaimer is past
      its scan there. */
  ghost predicate Hazard(s: State) {
    && (forall t: nat :: Shielded(ThreadOf(s, t).pc) ==> SlotAt(s, ThreadOf(s, t).i).state != Free)
    && (forall t: nat, u: nat ::
          Shielded(ThreadOf(s, t).pc) && Reclaiming(ThreadOf(s, u).pc) ==> ThreadOf(s, t).i != ThreadOf(s, u).i)
  }

  /** At most one commit is under way, and it holds the lease. */
  ghost predicate Leasing(s: State) {
    && (forall t: nat :: Committing(ThreadOf(s, t).pc) ==> s.leased)
    && (forall t: nat, u: nat :: Committing(ThreadOf(s, t).pc) && Committing(ThreadOf(s, u).pc) ==> t == u)
  }

  lemma StepThread(s: State, t: nat, a: Act, u: nat)
    ensures ThreadOf(Step(s, t, a), u) == if u == t then EffectOf(s, t, a).th else ThreadOf(s, u)
  {
  }

  lemma StepSlot(s: State, t: nat, a: Act, k: nat)
    requires k < |s.slots|
    ensures SlotAt(Step(s, t, a), k) == if k == ThreadOf(s, t).i then EffectOf(s, t, a).slot else SlotAt(s, k)
  {
  }

  lemma StepFacts(s: State, t: nat, a: Act)
    requires InTable(s) && Elections(s) && Leasing(s)
    ensures var th := ThreadOf(s, t);
            && Facts(th, SlotAt(s, th.i), ViewOf(s, th, a), EffectOf(s, t, a))
            && WordFacts(th, SlotAt(s, th.i), ViewOf(s, th, a), EffectOf(s, t, a))
  {
    hide Facts, WordFacts;
    var th := ThreadOf(s, t);
    ActFacts(th, SlotAt(s, th.i), ViewOf(s, th, a), a);
  }

  lemma InTableStep(s: State, t: nat, a: Act)
    requires InTable(s) && Elections(s) && Leasing(s)
    ensures InTable(Step(s, t, a))
  {
    hide Act1, WordFacts, StateFacts, PinFacts, LeaseFacts;
    StepFacts(s, t, a);
    forall u: nat
      ensures AtSlot(ThreadOf(Step(s, t, a), u).pc) ==> ThreadOf(Step(s, t, a), u).i < |s.slots|
    {
      StepThread(s, t, a, u);
    }
  }

  lemma ElectionsStep(s: State, t: nat, a: Act)
    requires InTable(s) && Elections(s) && Leasing(s)
    ensures Elections(Step(s, t, a))
  {
    hide Act1, WordFacts, PinFacts, LeaseFacts;
    StepFacts(s, t, a);
    var s' := Step(s, t, a);
    forall u: nat, w: nat
      ensures Elected(ThreadOf(s', u).pc) ==> SlotAt(s', ThreadOf(s', u).i).state == Freeing
      ensures Elected(ThreadOf(s', u).pc) && Elected(ThreadOf(s', w).pc) && ThreadOf(s', u).i == ThreadOf(s', w).i
              ==> u == w
    {
      StepThread(s, t, a, u);
      StepThread(s, t, a, w);
      if Elected(ThreadOf(s', u).pc) {
        StepSlot(s, t, a, ThreadOf(s', u).i);
      }
    }
  }

  lemma BumpersMove(threads: map<nat, Thread>, t: nat, th: Thread, i: nat)
    ensures var was := t in threads && Bumping(threads[t].pc) && threads[t].i == i;
            var now := Bumping(th.pc) && th.i == i;
            |Bumpers(threads[t := th], i)| == |Bumpers(threads, i)| - One(was) + One(now)
  {
    var before, after := Bumpers(threads, i), Bumpers(threads[t := th], i);
    if Bumping(th.pc) && th.i == i {
      assert after == before + {t};
    } else {
      assert after == before - {t};
    }
  }

  lemma CountsStep(s: State, t: nat, a: Act)
    requires InTable(s) && Elections(s) && Leasing(s) && Counts(s)
    ensures Counts(Step(s, t, a))
  {
    hide Act1, WordFacts, StateFacts, LeaseFacts;
    StepFacts(s, t, a);
    var s', th := Step(s, t, a), ThreadOf(s, t);
    forall k: nat | k < |s.slots|
      ensures SlotAt(s', k).pins == |Bumpers(s'.threads, k)|
    {
      StepSlot(s, t, a, k);
      BumpersMove(s.threads, t, EffectOf(s, t, a).th, k);
    }
  }

  lemma BumpCounted(s: State, t: nat)
    requires Counts(s) && Bumping(ThreadOf(s, t).pc) && ThreadOf(s, t).i < |s.slots|
    ensures SlotAt(s, ThreadOf(s, t).i).pins > 0
  {
    assert t in Bumpers(s.threads, ThreadOf(s, t).i);
  }

  lemma HazardStep(s: State, t: nat, a: Act)
    requires InTable(s) && Elections(s) && Leasing(s) && Counts(s) && Hazard(s)
    ensures Hazard(Step(s, t, a))
  {
    hide Act1, WordFacts, LeaseFacts, Counts;
    StepFacts(s, t, a);
    InTableStep(s, t, a);
    CountsStep(s, t, a);
    var s' := Step(s, t, a);
    forall u: nat, w: nat
      ensures Shielded(ThreadOf(s', u).pc) ==> SlotAt(s', ThreadOf(s', u).i).state != Free
      ensures Shielded(ThreadOf(s', u).pc) && Reclaiming(ThreadOf(s', w).pc) ==> ThreadOf(s', u).i != ThreadOf(s', w).i
    {
      StepThread(s, t, a, u);
      StepThread(s, t, a, w);
      if Shielded(ThreadOf(s', u).pc) {
        StepSlot(s, t, a, ThreadOf(s', u).i);
        BumpCounted(s', u);
      }
    }
  }

  lemma LeasingStep(s: State, t: nat, a: Act)
    requires InTable(s) && Elections(s) && Leasing(s)
    ensures Leasing(Step(s, t, a))
  {
    hide Act1, WordFacts, PinFacts, StateFacts, PlaceFacts;
    StepFacts(s, t, a);
    var s' := Step(s, t, a);
    forall u: nat, w: nat
      ensures Committing(ThreadOf(s', u).pc) ==> s'.leased
      ensures Committing(ThreadOf(s', u).pc) && Committing(ThreadOf(s', w).pc) ==> u == w
    {
      StepThread(s, t, a, u);
      StepThread(s, t, a, w);
    }
  }

  // ---- Who still names a manifest ----

  /** The slot's reclaimer has released its manifest. */
  ghost predicate Spent(s: State, k: nat) {
    exists t: nat :: Clearing(ThreadOf(s, t).pc) && ThreadOf(s, t).i == k
  }

  /** The manifest a slot still holds the version reference of; 0 for none. */
  ghost function Word(s: State, k: nat): nat {
    if Spent(s, k) then 0 else SlotAt(s, k).manifest
  }

  /** Slot words, manifests about to be released and the one being staged are all
      different and all still owned. */
  ghost predicate Names(s: State) {
    && 0 !in s.owned
    && (forall k: nat :: k < |s.slots| && Word(s, k) != 0 ==> Word(s, k) in s.owned)
    && (forall k: nat, l: nat :: k < |s.slots| && l < |s.slots| && Word(s, k) == Word(s, l) != 0 ==> k == l)
    && (forall t: nat :: ThreadOf(s, t).pc.TRelease? ==> ReleaseApart(s, t, ThreadOf(s, t)))
    && (forall t: nat :: Staging(ThreadOf(s, t).pc) ==> StagedApart(s, ThreadOf(s, t).m))
  }

  ghost predicate ReleaseApart(s: State, t: nat, th: Thread) {
    th.m != 0 ==>
      && th.m in s.owned
      && (forall k: nat :: k < |s.slots| && Word(s, k) == th.m ==> k == th.i)
      && (forall u: nat :: ThreadOf(s, u).pc.TRelease? && ThreadOf(s, u).m == th.m ==> u == t)
  }

  ghost predicate StagedApart(s: State, m: nat) {
    && m in s.owned
    && (forall k: nat :: k < |s.slots| ==> Word(s, k) != m)
    && (forall u: nat :: ThreadOf(s, u).pc.TRelease? ==> ThreadOf(s, u).m != m)
  }

  /** A manifest being read is held by nothing but its reader's own slot, and no
      reclaimer is about to release it. */
  ghost predicate ReadApart(s: State, i: nat, m: nat) {
    && m in s.owned
    && (forall k: nat :: k < |s.slots| && Word(s, k) == m ==> k == i)
    && (forall u: nat :: ThreadOf(s, u).pc.TRelease? || Staging(ThreadOf(s, u).pc) ==> ThreadOf(s, u).m != m)
  }

  ghost predicate Readers(s: State) {
    forall t: nat :: Reads(ThreadOf(s, t).pc) && ThreadOf(s, t).m != 0 ==>
      ReadApart(s, ThreadOf(s, t).i, ThreadOf(s, t).m)
  }

  /** A manifest's bytes name the version whose reference is outstanding on it, and
      so does every accepted pin. */
  ghost predicate Contents(s: State) {
    && (forall m :: m in s.owned ==> m in s.content && s.content[m] == s.owned[m])
    && 0 !in s.content
    && (forall t: nat :: ThreadOf(s, t).pc.Held? ==>
          ThreadOf(s, t).m in s.content && s.content[ThreadOf(s, t).m] == ThreadOf(s, t).v)
  }

  ghost predicate Base(s: State) {
    InTable(s) && Elections(s) && Leasing(s) && Counts(s) && Hazard(s)
  }

  ghost predicate Inv(s: State) {
    Base(s) && Names(s) && Readers(s) && Contents(s)
  }

  lemma BaseStep(s: State, t: nat, a: Act)
    requires Base(s)
    ensures Base(Step(s, t, a))
  {
    InTableStep(s, t, a);
    ElectionsStep(s, t, a);
    LeasingStep(s, t, a);
    CountsStep(s, t, a);
    HazardStep(s, t, a);
    hide *;
  }

  lemma SpentStep(s: State, t: nat, a: Act, k: nat)
    requires InTable(s) && Elections(s) && Leasing(s)
    ensures var th := ThreadOf(s, t);
            && (Spent(s, k) ==> Spent(Step(s, t, a), k) || (th.pc.TClearManifest? && th.i == k))
            && (Spent(Step(s, t, a), k) ==> Spent(s, k) || (th.pc.TRelease? && th.i == k))
  {
    hide Act1, PinFacts, StateFacts, LeaseFacts;
    StepFacts(s, t, a);
    var s', th := Step(s, t, a), ThreadOf(s, t);
    if Spent(s, k) {
      var u: nat :| Clearing(ThreadOf(s, u).pc) && ThreadOf(s, u).i == k;
      StepThread(s, t, a, u);
      assert Clearing(ThreadOf(s', u).pc) ==> Spent(s', k);
    }
    if Spent(s', k) {
      var u: nat :| Clearing(ThreadOf(s', u).pc) && ThreadOf(s', u).i == k;
      StepThread(s, t, a, u);
    }
  }

  /** A slot's word is kept, given up, or newly stored by the committer. */
  lemma WordStep(s: State, t: nat, a: Act, k: nat)
    requires InTable(s) && Elections(s) && Leasing(s) && k < |s.slots|
    ensures var th, w' := ThreadOf(s, t), Word(Step(s, t, a), k);
            && (w' == Word(s, k) || w' == 0 || (th.pc.CManifest? && th.i == k && w' == th.m))
            && (th.pc.TRelease? && th.i == k ==> w' == 0)
  {
    hide Act1, PinFacts, StateFacts, LeaseFacts;
    StepFacts(s, t, a);
    StepThread(s, t, a, t);
    StepSlot(s, t, a, k);
    SpentStep(s, t, a, k);
    var s', th := Step(s, t, a), ThreadOf(s, t);
    if th.pc.TRelease? && th.i == k {
      assert Clearing(ThreadOf(s', t).pc) && ThreadOf(s', t).i == k;
    }
  }

  /** Only what the step releases stops being owned. */
  lemma OwnedStep(s: State, t: nat, a: Act, m: nat)
    requires m in s.owned && EffectOf(s, t, a).released != Some(m)
    ensures m in Step(s, t, a).owned
  {
  }

  lemma StagedFresh(s: State, t: nat, a: Act)
    requires EffectOf(s, t, a).staged.Some?
    requires var th := ThreadOf(s, t); WordFacts(th, SlotAt(s, th.i), ViewOf(s, th, a), EffectOf(s, t, a))
    ensures EffectOf(s, t, a).staged.value !in s.owned
    ensures EffectOf(s, t, a).staged.value in Step(s, t, a).owned
  {
  }

  lemma WordsStayOwned(s: State, t: nat, a: Act, k: nat)
    requires Base(s) && Names(s) && k < |s.slots| && Word(Step(s, t, a), k) != 0
    ensures Word(Step(s, t, a), k) in Step(s, t, a).owned
  {
    hide Act1, PinFacts, StateFacts, LeaseFacts, Word;
    StepFacts(s, t, a);
    WordStep(s, t, a, k);
    OwnedStep(s, t, a, Word(Step(s, t, a), k));
  }

  lemma WordsStayApart(s: State, t: nat, a: Act, k: nat, l: nat)
    requires Base(s) && Names(s) && k < |s.slots| && l < |s.slots|
    requires Word(Step(s, t, a), k) == Word(Step(s, t, a), l) != 0
    ensures k == l
  {
    hide Act1, Word;
    WordStep(s, t, a, k);
    WordStep(s, t, a, l);
  }

  /** A reclaimer's slot is not yet spent when it loads the manifest. */
  lemma LoadsWord(s: State, t: nat)
    requires Elections(s) && ThreadOf(s, t).pc.TLoad?
    ensures Word(s, ThreadOf(s, t).i) == SlotAt(s, ThreadOf(s, t).i).manifest
  {
  }

  /** A slot some reader is shielded at is not spent. */
  lemma ShieldedWord(s: State, t: nat)
    requires Hazard(s) && Shielded(ThreadOf(s, t).pc)
    ensures Word(s, ThreadOf(s, t).i) == SlotAt(s, ThreadOf(s, t).i).manifest
  {
  }

  lemma ReleaseStep(s: State, t: nat, a: Act, u: nat)
    requires Base(s) && Names(s) && ThreadOf(Step(s, t, a), u).pc.TRelease?
    ensures ReleaseApart(Step(s, t, a), u, ThreadOf(Step(s, t, a), u))
  {
    hide Act1, Word, PinFacts, LeaseFacts, Counts, Hazard;
    StepFacts(s, t, a);
    StepThread(s, t, a, u);
    var s' := Step(s, t, a);
    var th := ThreadOf(s', u);
    if u == t {
      LoadsWord(s, t);
    }
    if th.m != 0 {
      OwnedStep(s, t, a, th.m);
      forall k: nat | k < |s.slots| && Word(s', k) == th.m
        ensures k == th.i
      {
        WordStep(s, t, a, k);
      }
      forall w: nat | ThreadOf(s', w).pc.TRelease? && ThreadOf(s', w).m == th.m
        ensures w == u
      {
        StepThread(s, t, a, w);
        if w == t {
          LoadsWord(s, t);
        }
      }
    }
  }

  lemma StagedStep(s: State, t: nat, a: Act, u: nat)
    requires Base(s) && Names(s) && Staging(ThreadOf(Step(s, t, a), u).pc)
    ensures StagedApart(Step(s, t, a), ThreadOf(Step(s, t, a), u).m)
  {
    hide Act1, Word, PinFacts, StateFacts, Counts, Hazard;
    StepFacts(s, t, a);
    StepThread(s, t, a, u);
    var s' := Step(s, t, a);
    var m := ThreadOf(s', u).m;
    if EffectOf(s, t, a).staged.Some? {
      StagedFresh(s, t, a);
    }
    assert m in s'.owned;
    forall k: nat | k < |s.slots|
      ensures Word(s', k) != m
    {
      WordStep(s, t, a, k);
    }
    forall w: nat | ThreadOf(s', w).pc.TRelease?
      ensures ThreadOf(s', w).m != m
    {
      StepThread(s, t, a, w);
      if w == t {
        LoadsWord(s, t);
      }
    }
  }

  lemma NamesStep(s: State, t: nat, a: Act)
    requires Base(s) && Names(s)
    ensures Names(Step(s, t, a))
  {
    hide Act1, Word, PinFacts, StateFacts, PlaceFacts, LeaseFacts, ReleaseApart, StagedApart, Base;
    var s' := Step(s, t, a);
    ZeroStep(s, t, a);
    forall k: nat | k < |s.slots| && Word(s', k) != 0
      ensures Word(s', k) in s'.owned
    {
      WordsStayOwned(s, t, a, k);
    }
    forall k: nat, l: nat | k < |s.slots| && l < |s.slots| && Word(s', k) == Word(s', l) != 0
      ensures k == l
    {
      WordsStayApart(s, t, a, k, l);
    }
    forall u: nat | ThreadOf(s', u).pc.TRelease?
      ensures ReleaseApart(s', u, ThreadOf(s', u))
    {
      ReleaseStep(s, t, a, u);
    }
    forall u: nat | Staging(ThreadOf(s', u).pc)
      ensures StagedApart(s', ThreadOf(s', u).m)
    {
      StagedStep(s, t, a, u);
    }
  }

  lemma ZeroStep(s: State, t: nat, a: Act)
    requires Base(s) && Names(s)
    ensures 0 !in Step(s, t, a).owned && |Step(s, t, a).slots| == |s.slots|
  {
    hide Act1, Word, PinFacts, StateFacts, PlaceFacts, LeaseFacts;
    StepFacts(s, t, a);
  }

  lemma ReadersStep(s: State, t: nat, a: Act)
    requires Base(s) && Names(s) && Readers(s)
    ensures Readers(Step(s, t, a))
  {
    hide Act1, Word, ReadApart, Base;
    var s' := Step(s, t, a);
    forall u: nat | Reads(ThreadOf(s', u).pc) && ThreadOf(s', u).m != 0
      ensures ReadApart(s', ThreadOf(s', u).i, ThreadOf(s', u).m)
    {
      ReadApartStep(s, t, a, u);
    }
  }

  /** A manifest is apart from the moment its reader matched it to the slot. */
  lemma ReadableNow(s: State, t: nat, a: Act, u: nat)
    requires Base(s) && Names(s) && Readers(s)
    requires Reads(ThreadOf(Step(s, t, a), u).pc) && ThreadOf(Step(s, t, a), u).m != 0
    ensures var th := ThreadOf(Step(s, t, a), u);
            ReadApart(s, th.i, th.m) && Shielded(ThreadOf(s, u).pc) && ThreadOf(s, u).i == th.i
  {
    hide Act1, Word, PinFacts, LeaseFacts, StateFacts, Counts;
    StepFacts(s, t, a);
    StepThread(s, t, a, u);
    if u == t && ThreadOf(s, t).pc.RManifest? {
      ShieldedWord(s, t);
    }
  }

  lemma ReadApartStep(s: State, t: nat, a: Act, u: nat)
    requires Base(s) && Names(s) && Readers(s)
    requires Reads(ThreadOf(Step(s, t, a), u).pc) && ThreadOf(Step(s, t, a), u).m != 0
    ensures ReadApart(Step(s, t, a), ThreadOf(Step(s, t, a), u).i, ThreadOf(Step(s, t, a), u).m)
  {
    hide Act1, Word, PinFacts, LeaseFacts, Counts;
    StepFacts(s, t, a);
    ReadableNow(s, t, a, u);
    var s' := Step(s, t, a);
    var i, m := ThreadOf(s', u).i, ThreadOf(s', u).m;
    OwnedStep(s, t, a, m);
    forall k: nat | k < |s.slots| && Word(s', k) == m
      ensures k == i
    {
      WordStep(s, t, a, k);
    }
    forall w: nat | ThreadOf(s', w).pc.TRelease? || Staging(ThreadOf(s', w).pc)
      ensures ThreadOf(s', w).m != m
    {
      StepThread(s, t, a, w);
      if EffectOf(s, t, a).staged.Some? {
        StagedFresh(s, t, a);
      }
      if w == t && ThreadOf(s', w).pc.TRelease? {
        LoadsWord(s, t);
        assert ThreadOf(s, t).i != i;
      }
    }
  }

  lemma ContentsStep(s: State, t: nat, a: Act)
    requires Inv(s)
    ensures Contents(Step(s, t, a))
  {
    hide Act1, Word, PinFacts, LeaseFacts, StateFacts, PlaceFacts, Counts, Hazard, Names;
    StepFacts(s, t, a);
    var s' := Step(s, t, a);
    forall u: nat | ThreadOf(s', u).pc.Held?
      ensures ThreadOf(s', u).m in s'.content && s'.content[ThreadOf(s', u).m] == ThreadOf(s', u).v
    {
      StepThread(s, t, a, u);
      if EffectOf(s, t, a).staged.Some? {
        StagedFresh(s, t, a);
      }
    }
  }

  lemma InvStep(s: State, t: nat, a: Act)
    requires Inv(s)
    ensures Inv(Step(s, t, a))
  {
    BaseStep(s, t, a);
    NamesStep(s, t, a);
    ReadersStep(s, t, a);
    ContentsStep(s, t, a);
    hide *;
  }

  lemma InitInv(n: nat)
    ensures Inv(Init(n))
  {
    var s := Init(n);
    forall k: nat | k < n
      ensures Bumpers(s.threads, k) == {}
    {
    }
  }

  lemma {:induction false} RunInv(n: nat, sched: Schedule)
    ensures Inv(Run(Init(n), sched))
  {
    hide Inv, Init, Step;
    if |sched| == 0 {
      InitInv(n);
    } else {
      var last := sched[|sched| - 1];
      RunInv(n, sched[..|sched| - 1]);
      InvStep(Run(Init(n), sched[..|sched| - 1]), last.0, last.1);
    }
  }

  /** An accepted pin's version reference is outstanding. */
  lemma HeldOwned(s: State, t: nat)
    requires Inv(s) && ThreadOf(s, t).pc.Held?
    ensures ThreadOf(s, t).m in s.owned && s.owned[ThreadOf(s, t).m] == ThreadOf(s, t).v
  {
  }

  /** Pin hazard safety: whatever the schedule, a thread holding an accepted pin has
      its slot neither free nor past a reclaimer's scan, and its version's
      reference on the manifest it read is still outstanding. */
  lemma PinHazardSafety(n: nat, sched: Schedule, t: nat)
    ensures var s := Run(Init(n), sched);
            var th := ThreadOf(s, t);
            th.pc.Held? ==>
              && th.i < n
              && SlotAt(s, th.i).state != Free
              && SlotAt(s, th.i).pins > 0
              && (forall u: nat :: Reclaiming(ThreadOf(s, u).pc) ==> ThreadOf(s, u).i != th.i)
              && th.m in s.owned && s.owned[th.m] == th.v
  {
    RunInv(n, sched);
    SlotCount(n, sched);
    var s := Run(Init(n), sched);
    if ThreadOf(s, t).pc.Held? {
      BumpCounted(s, t);
      HeldOwned(s, t);
    }
  }

  lemma {:induction false} SlotCount(n: nat, sched: Schedule)
    ensures |Run(Init(n), sched).slots| == n
  {
    if |sched| > 0 {
      SlotCount(n, sched[..|sched| - 1]);
    }
  }
}
