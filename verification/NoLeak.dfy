/** Nothing is lost: over every schedule without a stale election, once nothing is in flight
    a chunk is published exactly when it can be reached from the current version or from one
    a reader still holds. */
module NoLeak {
  import opened Common
  import P = PinProtocol
  import S = PinSafety
  import R = Reclamation
  import opened References
  import opened PinnedData

  // ---- Slots name the versions their manifests were staged for ----

  ghost predicate Tagged(p: P.State) {
    && (forall t: nat :: P.Committing(P.ThreadOf(p, t).pc) ==> Says(p, P.ThreadOf(p, t).m, P.ThreadOf(p, t).v))
    && (forall k: nat :: k < |p.slots| ==> TaggedAt(p, k))
  }

  ghost predicate TaggedAt(p: P.State, k: nat) {
    P.SlotAt(p, k).version != 0 && !S.Spent(p, k) ==> Says(p, P.SlotAt(p, k).manifest, P.SlotAt(p, k).version)
  }

  /** Manifest m's bytes name version v. */
  predicate Says(p: P.State, m: nat, v: nat) {
    m in p.content && p.content[m] == v
  }

  lemma CommitterTagged(p: P.State, t: nat, a: P.Act, u: nat)
    requires S.Inv(p) && Tagged(p) && P.Committing(P.ThreadOf(P.Step(p, t, a), u).pc)
    ensures Says(P.Step(p, t, a), P.ThreadOf(P.Step(p, t, a), u).m, P.ThreadOf(P.Step(p, t, a), u).v)
  {
    hide P.Act1, S.Names, S.Readers, S.Contents, S.Counts, S.Hazard, S.Elections, S.Word;
    StepBooks(p, t, a);
    S.StepThread(p, t, a, u);
  }

  /** A slot's manifest is not staged again while the slot holds its reference. */
  lemma NotRestaged(p: P.State, t: nat, a: P.Act, k: nat)
    requires S.Inv(p) && k < |p.slots| && !S.Spent(p, k) && P.SlotAt(p, k).manifest in p.content
    ensures P.EffectOf(p, t, a).staged != Some(P.SlotAt(p, k).manifest)
  {
    hide P.Act1, S.Readers, S.Counts, S.Hazard;
    S.StepFacts(p, t, a);
    assert S.Word(p, k) == P.SlotAt(p, k).manifest != 0;
    if P.EffectOf(p, t, a).staged.Some? {
      S.StagedFresh(p, t, a);
    }
  }

  lemma SlotTagged(p: P.State, t: nat, a: P.Act, k: nat)
    requires S.Inv(p) && R.Locals(p) && R.Fresh(p, t) && Tagged(p) && k < |p.slots|
    ensures TaggedAt(P.Step(p, t, a), k)
  {
    hide P.Act1, S.Names, S.Readers, S.Contents, S.Counts, S.Hazard, S.Spent, R.FreshHere, R.ReaderOk;
    var p', th := P.Step(p, t, a), P.ThreadOf(p, t);
    StepBooks(p, t, a);
    R.StepTable(p, t, a);
    S.StepFacts(p, t, a);
    S.StepSlot(p, t, a, k);
    S.SpentStep(p, t, a, k);
    assert R.LocalOk(th, P.SlotAt(p, th.i), p.current, p.desc);
    assert TaggedAt(p, k);
    if P.SlotAt(p, k).version != 0 && !S.Spent(p, k) {
      NotRestaged(p, t, a, k);
    }
  }

  lemma TaggedStep(p: P.State, t: nat, a: P.Act)
    requires S.Inv(p) && R.Locals(p) && R.Fresh(p, t) && Tagged(p)
    ensures Tagged(P.Step(p, t, a))
  {
    hide P.Act1, S.Inv, R.Locals, R.Fresh, Says, TaggedAt;
    var p' := P.Step(p, t, a);
    forall u: nat | P.Committing(P.ThreadOf(p', u).pc)
      ensures Says(p', P.ThreadOf(p', u).m, P.ThreadOf(p', u).v)
    {
      CommitterTagged(p, t, a, u);
    }
    forall k: nat | k < |p'.slots|
      ensures TaggedAt(p', k)
    {
      SlotTagged(p, t, a, k);
    }
  }

  // ---- Fresh runs ----

  ghost predicate FreshRun(n: nat, pool: set<nat>, sched: Schedule) {
    |sched| == 0
    || (var last, before := sched[|sched| - 1], sched[..|sched| - 1];
        FreshRun(n, pool, before) && (last.1.Loan? || R.Fresh(Run(Init(n, pool), before).p, last.0)))
  }

  ghost predicate Settled(p: P.State) {
    S.Inv(p) && R.Settled(p) && Tagged(p)
  }

  lemma SettledStep(s: State, t: nat, a: Act)
    requires Settled(s.p) && (a.Loan? || R.Fresh(s.p, t))
    ensures Settled(Step(s, t, a).p)
  {
    hide S.Inv, R.Settled, Tagged, R.Fresh, P.Apply, P.EffectOf, ReleaseChain;
    ProtocolStep(s, t, a);
    if !a.Loan? {
      S.InvStep(s.p, t, ActOf(a));
      R.SettledStep(s.p, t, ActOf(a));
      HasLocals(s.p);
      TaggedStep(s.p, t, ActOf(a));
    }
  }

  lemma HasLocals(p: P.State)
    requires R.Settled(p)
    ensures R.Locals(p)
  {
  }

  lemma ProtocolStep(s: State, t: nat, a: Act)
    ensures Step(s, t, a).p == s.p || (!a.Loan? && Step(s, t, a).p == P.Step(s.p, t, ActOf(a)))
  {
    hide P.Apply, P.EffectOf, Ready;
  }

  lemma {:induction false} RunSettled(n: nat, pool: set<nat>, sched: Schedule)
    requires FreshRun(n, pool, sched)
    ensures Settled(Run(Init(n, pool), sched).p)
  {
    hide Settled, Step, R.Fresh;
    if |sched| == 0 {
      InitSettled(n);
    } else {
      var last := sched[|sched| - 1];
      RunSettled(n, pool, sched[..|sched| - 1]);
      SettledStep(Run(Init(n, pool), sched[..|sched| - 1]), last.0, last.1);
    }
  }

  lemma InitSettled(n: nat)
    ensures Settled(P.Init(n))
  {
    S.InitInv(n);
    R.InitSettled(n);
    hide S.Inv, R.Settled;
  }

  // ---- At rest ----

  /** Version v is current, or a reader holds a pin of it. */
  ghost predicate Wanted(p: P.State, v: nat) {
    v == p.current || exists t: nat :: Holding(P.ThreadOf(p, t), v)
  }

  predicate Holding(th: P.Thread, v: nat) {
    th.pc.Held? && th.v == v
  }

  /** Chunk c is on the chain of version v, at version i. */
  predicate OnChain(vs: seq<Version>, v: nat, i: nat, c: nat) {
    1 <= v <= |vs| && Chained(vs, i, v - 1) && (c == vs[i].manifest || c in vs[i].chunks)
  }

  /** At rest a slot with a version holds that version's manifest. */
  lemma SlotSays(p: P.State, k: nat)
    requires Settled(p) && R.Quiet(p) && k < |p.slots| && P.SlotAt(p, k).version != 0
    ensures var slot := P.SlotAt(p, k);
            slot.manifest in p.owned && p.owned[slot.manifest] == slot.version
  {
    hide S.Readers, S.Base, R.Settled;
    assert TaggedAt(p, k);
    assert !S.Spent(p, k);
    assert S.Word(p, k) == P.SlotAt(p, k).manifest != 0;
  }

  /** A live version is wanted. */
  lemma LiveWanted(s: State, n: nat)
    requires Inv(s) && Settled(s.p) && R.Quiet(s.p) && n < |s.vs| && s.vs[n].live
    ensures Wanted(s.p, n + 1)
  {
    var p, m := s.p, s.vs[n].manifest;
    assert m in p.owned && p.owned[m] == n + 1;
    R.OwnedAtRest(p, m);
    var k: nat :| k < |p.slots| && P.SlotAt(p, k).state == P.Live && P.SlotAt(p, k).manifest == m;
    R.SlotAtRest(p, k);
    SlotSays(p, k);
    if P.SlotAt(p, k).version != p.current {
      Pinner(p, k);
    }
  }

  lemma Pinner(p: P.State, k: nat)
    requires S.Counts(p) && R.Locals(p) && R.Quiet(p) && k < |p.slots| && P.SlotAt(p, k).pins > 0
    ensures exists t: nat :: Holding(P.ThreadOf(p, t), P.SlotAt(p, k).version)
  {
    var ts := S.Bumpers(p.threads, k);
    assert |ts| > 0;
    var t: nat :| t in ts;
    assert P.ThreadOf(p, t).pc.Held? && P.ThreadOf(p, t).i == k;
    assert R.LocalOk(P.ThreadOf(p, t), P.SlotAt(p, k), p.current, p.desc);
    assert Holding(P.ThreadOf(p, t), P.SlotAt(p, k).version);
  }

  /** An unfreed manifest is on the chain of a live version. */
  lemma {:induction false} UnfreedChained(vs: seq<Version>, i: nat) returns (n: nat)
    requires Tidy(vs) && i < |vs| && !vs[i].freed
    ensures i <= n < |vs| && vs[n].live && Chained(vs, i, n)
    decreases |vs| - i
  {
    assert Needed(vs, i);
    if vs[i].live {
      n := i;
    } else {
      n := UnfreedChained(vs, i + 1);
    }
  }

  lemma {:induction false} SomeHolds(vs: seq<Version>, n: nat, c: nat) returns (i: nat)
    requires n <= |vs| && Held(vs, n, c) > 0
    ensures i < n && Holds(vs, i, c) > 0
  {
    i := n - 1;
    if Holds(vs, i, c) == 0 {
      i := SomeHolds(vs, n - 1, c);
    }
  }

  lemma OwedChained(vs: seq<Version>, c: nat) returns (v: nat, i: nat)
    requires Tidy(vs) && Owed(vs, c) > 0
    ensures OnChain(vs, v, i, c) && vs[v - 1].live
  {
    var k := SomeHolds(vs, |vs|, c);
    OccursIn(vs[k].chunks, c);
    if vs[k].live && vs[k].manifest == c {
      v, i := k + 1, k;
    } else {
      var n := UnfreedChained(vs, k);
      v, i := n + 1, if c in vs[k].chunks then k else k - 1;
    }
  }

  lemma PublishedOwed(ctrl: map<nat, Ctrl>, vs: seq<Version>, c: nat)
    requires Accounts(ctrl, vs, [], []) && c in ctrl && ctrl[c].Published?
    ensures Owed(vs, c) > 0
  {
  }

  /** No leak and no loss: without stale elections, once nothing is in flight, a chunk is
      published if and only if it is on the chain of the current version or of one a
      reader holds. */
  lemma PublishedIffWanted(n: nat, pool: set<nat>, sched: Schedule, c: nat)
    requires FreshRun(n, pool, sched) && R.Quiet(Run(Init(n, pool), sched).p)
    ensures var s := Run(Init(n, pool), sched);
            c in s.ctrl && s.ctrl[c].Published? <==>
            exists v: nat, i: nat :: OnChain(s.vs, v, i, c) && Wanted(s.p, v)
  {
    hide *;
    RunInv(n, pool, sched);
    RunSettled(n, pool, sched);
    var s := Run(Init(n, pool), sched);
    BooksOf(s);
    if c in s.ctrl && s.ctrl[c].Published? {
      PublishedOwed(s.ctrl, s.vs, c);
      var v, i := OwedChained(s.vs, c);
      LiveWanted(s, v - 1);
    }
    forall v: nat, i: nat | OnChain(s.vs, v, i, c) && Wanted(s.p, v)
      ensures c in s.ctrl && s.ctrl[c].Published?
    {
      WantedPublished(s, v, i, c);
    }
  }

  lemma WantedPublished(s: State, v: nat, i: nat, c: nat)
    requires Inv(s) && Settled(s.p) && R.Quiet(s.p) && OnChain(s.vs, v, i, c) && Wanted(s.p, v)
    ensures c in s.ctrl && s.ctrl[c].Published?
  {
    hide Inv, Settled, R.Quiet, Accounts, Tidy, Ties, Wanted, Chained;
    BooksOf(s);
    WantedLive(s, v);
    ChainPublished(s.ctrl, s.vs, i, v - 1, c);
  }

  /** What is wanted is live. */
  lemma WantedLive(s: State, v: nat)
    requires Inv(s) && Settled(s.p) && R.Quiet(s.p) && 1 <= v <= |s.vs| && Wanted(s.p, v)
    ensures s.vs[v - 1].live
  {
    hide S.Inv, R.Settled, R.Quiet, Tagged, Balanced, InStep;
    var p := s.p;
    if v == p.current {
      var m := CurrentOwned(p);
    } else {
      var t: nat :| Holding(P.ThreadOf(p, t), v);
      S.HeldOwned(p, t);
    }
  }

  lemma CurrentOwned(p: P.State) returns (m: nat)
    requires Settled(p) && R.Quiet(p) && p.current > 0
    ensures m in p.owned && p.owned[m] == p.current
  {
    hide S.Inv, R.Quiet, Tagged, R.Locals, R.Occupancy, R.Insists, R.Unleaked, R.Looked;
    var k: nat :| k < |p.slots| && P.SlotAt(p, k).version == p.current;
    SlotSays(p, k);
    m := P.SlotAt(p, k).manifest;
  }
}
