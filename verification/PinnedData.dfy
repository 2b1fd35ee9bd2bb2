/** What an accepted pin keeps: not only its slot and its own manifest, but every manifest
    its version's chain links and every chunk they list. The pin protocol runs together
    with the control words: a commit takes its references where it stages its manifest, and
    whoever releases a version's reference follows what that frees. */
module PinnedData {
  import opened Common
  import P = PinProtocol
  import S = PinSafety
  import opened References
  import opened Ledger

  /** What a thread at rest starts; a commit says what it stages and what it keeps of its
      predecessor. A chunk may be loaned to a committer at any time. */
  datatype Act =
    | Go | Pin | Retire(version: nat) | Commit(manifest: nat, kind: Kind, staged: seq<nat>, kept: seq<nat>)
    | Loan(chunk: nat)

  /** The protocol, the control words, and every version so far with what it references. */
  datatype State = State(p: P.State, ctrl: map<nat, Ctrl>, vs: seq<Version>)

  function ActOf(a: Act): P.Act {
    match a
    case Pin => P.Pin
    case Retire(v) => P.Retire(v)
    case Commit(m, _, _, _) => P.Commit(m)
    case _ => P.Go
  }

  function Prior(vs: seq<Version>): Option<nat> {
    if |vs| > 0 then Some(|vs| - 1) else None
  }

  function Link(kind: Kind, vs: seq<Version>): Option<nat> {
    if kind.Append? then Prior(vs) else None
  }

  function Relist(kind: Kind, vs: seq<Version>, kept: seq<nat>): seq<nat> {
    if kind.Rewindow? && |vs| > 0 then kept else []
  }

  /** A commit can take its references: its chunks are loaned and its manifest chunk free,
      and unless it replaces, its predecessor is still there to take over from. */
  ghost predicate Ready(s: State, a: Act)
    requires a.Commit?
  {
    && Loans(s.ctrl, a.staged) && a.manifest in s.ctrl && s.ctrl[a.manifest].Free?
    && (!a.kind.Replace? && |s.vs| > 0 ==> s.vs[|s.vs| - 1].live)
    && Listed(s.vs, Relist(a.kind, s.vs, a.kept))
  }

  function Staged(s: State, a: Act, p: P.State): State
    requires a.Commit?
  {
    State(p,
          Take(s.ctrl, s.vs, a.staged, Relist(a.kind, s.vs, a.kept), Link(a.kind, s.vs), a.manifest),
          s.vs + [NewVersion(a.kind, a.staged, a.kept, a.manifest, Prior(s.vs))])
  }

  /** Version v's reference is given back; an abandoned commit leaves no version. */
  function GivenBack(s: State, p: P.State, v: nat, abandoned: bool): State {
    if v == 0 || v > |s.vs| then s.(p := p)
    else
      var (left, us) := ReleaseChain(s.ctrl, s.vs[v - 1 := s.vs[v - 1].(live := false)], v - 1);
      State(p, left, if abandoned && |us| > 0 then us[..|us| - 1] else us)
  }

  /** One atomic step of thread t; a commit that cannot take its references is refused. */
  ghost function Step(s: State, t: nat, a: Act): State {
    var e := P.EffectOf(s.p, t, ActOf(a));
    var p := P.Apply(s.p, t, e);
    if a.Loan? then
      if a.chunk in s.ctrl && s.ctrl[a.chunk].Free? then s.(ctrl := s.ctrl[a.chunk := Loaned]) else s
    else if e.staged.Some? then
      if a.Commit? && Ready(s, a) then Staged(s, a, p) else s
    else if e.released.Some? && e.released.value in s.p.owned then
      GivenBack(s, p, s.p.owned[e.released.value], P.ThreadOf(s.p, t).pc.CClaim?)
    else s.(p := p)
  }

  // ---- What every run keeps ----

  ghost predicate Balanced(ctrl: map<nat, Ctrl>, vs: seq<Version>) {
    Accounts(ctrl, vs, [], []) && Apart(vs) && Tidy(vs)
  }

  /** The version references outstanding in the protocol are exactly the live slots' here. */
  ghost predicate Ties(owned: map<nat, nat>, vs: seq<Version>) {
    && (forall m :: m in owned ==> 1 <= owned[m] <= |vs| && vs[owned[m] - 1].live && vs[owned[m] - 1].manifest == m)
    && (forall i :: 0 <= i < |vs| && vs[i].live ==> vs[i].manifest in owned && owned[vs[i].manifest] == i + 1)
  }

  predicate Abreast(owned: map<nat, nat>, current: nat, th: P.Thread, n: nat) {
    && (P.Committing(th.pc) ==> th.v == n && n == current + if th.pc.CDesc? then 0 else 1)
    && (S.Staging(th.pc) ==> th.m in owned && owned[th.m] == th.v)
  }

  /** There is one version more than installed while a commit is on its way. */
  ghost predicate InStep(p: P.State, n: nat) {
    (!p.leased ==> n == p.current) && forall t: nat :: Abreast(p.owned, p.current, P.ThreadOf(p, t), n)
  }

  ghost predicate Inv(s: State) {
    S.Inv(s.p) && Balanced(s.ctrl, s.vs) && Ties(s.p.owned, s.vs) && InStep(s.p, |s.vs|)
  }

  /** Who moves versions and references, and when. */
  predicate BookFacts(th: P.Thread, view: P.View, e: P.Effect) {
    && e.current == (if th.pc.CInstall? then th.v else view.current)
    && (e.staged.Some? ==>
          && th.pc.Idle? && !view.leased && !view.taken && e.leased && e.released.None?
          && e.th.pc.CClaim? && e.th.v == view.current + 1 && e.th.m == e.staged.value)
    && (e.staged.None? && P.Committing(e.th.pc) ==>
          && P.Committing(th.pc) && e.th.v == th.v && e.th.m == th.m && e.released.None?
          && (e.th.pc.CDesc? <==> th.pc.CInstall?))
    && (e.staged.None? && S.Staging(e.th.pc) ==> S.Staging(th.pc))
    && (e.staged.None? && e.leased != view.leased ==> view.leased && (th.pc.CDesc? || (th.pc.CClaim? && e.released.Some?)))
    && (e.released.Some? ==> e.released.value == th.m && (th.pc.TRelease? || (th.pc.CClaim? && !P.Committing(e.th.pc) && !e.leased)))
    && (th.pc.TRelease? || th.pc.CDesc? ==> !P.Committing(e.th.pc))
  }

  lemma CommitBooks(th: P.Thread, slot: P.Slot, view: P.View)
    requires P.Committing(th.pc)
    ensures BookFacts(th, view, P.CommitStep(th, slot, view))
  {
  }

  lemma StartBooks(th: P.Thread, slot: P.Slot, view: P.View, a: P.Act)
    requires th.pc.Idle?
    ensures BookFacts(th, view, P.StartStep(th, slot, view, a))
  {
  }

  /** A step that leaves commits and the shared words alone. */
  predicate Aside(th: P.Thread, view: P.View, e: P.Effect) {
    && !P.Committing(th.pc) && !P.Committing(e.th.pc) && e.current == view.current && e.leased == view.leased
    && e.staged.None? && (e.released.Some? ==> th.pc.TRelease? && e.released.value == th.m)
  }

  lemma ReadBooks(th: P.Thread, slot: P.Slot, view: P.View)
    ensures P.Seeking(th.pc) ==> Aside(th, view, P.SeekStep(th, slot, view))
    ensures P.Accepting(th.pc) ==> Aside(th, view, P.AcceptStep(th, slot, view))
    ensures P.Unpinning(th.pc) ==> Aside(th, view, P.UnpinStep(th, slot, view))
  {
  }

  lemma RetireBooks(th: P.Thread, slot: P.Slot, view: P.View)
    ensures P.Finding(th.pc) ==> Aside(th, view, P.FindStep(th, slot, view))
    ensures P.Electing(th.pc) ==> Aside(th, view, P.ElectStep(th, slot, view))
    ensures P.Reclaiming(th.pc) ==> Aside(th, view, P.FreeStep(th, slot, view))
  {
  }

  lemma AsideBooks(th: P.Thread, view: P.View, e: P.Effect)
    requires Aside(th, view, e)
    ensures BookFacts(th, view, e)
  {
  }

  lemma ActBooks(th: P.Thread, slot: P.Slot, view: P.View, a: P.Act)
    ensures BookFacts(th, view, P.Act1(th, slot, view, a))
  {
    hide BookFacts, Aside, P.StartStep, P.SeekStep, P.AcceptStep, P.UnpinStep, P.FindStep, P.ElectStep, P.FreeStep, P.CommitStep;
    if th.pc.Idle? {
      StartBooks(th, slot, view, a);
    } else if P.Committing(th.pc) {
      CommitBooks(th, slot, view);
    } else {
      ReadBooks(th, slot, view);
      RetireBooks(th, slot, view);
      AsideBooks(th, view, P.Act1(th, slot, view, a));
    }
  }

  lemma StepBooks(p: P.State, t: nat, a: P.Act)
    ensures BookFacts(P.ThreadOf(p, t), P.ViewOf(p, P.ThreadOf(p, t), a), P.EffectOf(p, t, a))
  {
    hide BookFacts, P.Act1;
    var th := P.ThreadOf(p, t);
    ActBooks(th, P.SlotAt(p, th.i), P.ViewOf(p, th, a), a);
  }

  // ---- The protocol's side of a step ----

  /** How many versions there are after the step. */
  function Next(e: P.Effect, th: P.Thread, n: nat): int {
    if e.staged.Some? then n + 1 else if e.released.Some? && th.pc.CClaim? then n - 1 else n
  }

  lemma StepInStep(p: P.State, t: nat, a: P.Act, n: nat)
    requires S.Inv(p) && InStep(p, n)
    ensures var n' := Next(P.EffectOf(p, t, a), P.ThreadOf(p, t), n);
            n' >= 0 && InStep(P.Step(p, t, a), n')
  {
    hide P.Act1, S.Readers, S.Contents, S.Word, Abreast;
    StepBooks(p, t, a);
    var p', n' := P.Step(p, t, a), Next(P.EffectOf(p, t, a), P.ThreadOf(p, t), n);
    SharedInStep(p, t, a, n);
    forall u: nat
      ensures Abreast(p'.owned, p'.current, P.ThreadOf(p', u), n')
    {
      ThreadInStep(p, t, a, n, u);
    }
  }

  lemma SharedInStep(p: P.State, t: nat, a: P.Act, n: nat)
    requires S.Leasing(p) && InStep(p, n)
    ensures var n' := Next(P.EffectOf(p, t, a), P.ThreadOf(p, t), n);
            n' >= 0 && (!P.Step(p, t, a).leased ==> n' == P.Step(p, t, a).current)
  {
    hide P.Act1;
    StepBooks(p, t, a);
    assert Abreast(p.owned, p.current, P.ThreadOf(p, t), n);
  }

  lemma ThreadInStep(p: P.State, t: nat, a: P.Act, n: nat, u: nat)
    requires S.Inv(p) && InStep(p, n)
    ensures var n' := Next(P.EffectOf(p, t, a), P.ThreadOf(p, t), n);
            n' >= 0 && Abreast(P.Step(p, t, a).owned, P.Step(p, t, a).current, P.ThreadOf(P.Step(p, t, a), u), n')
  {
    hide P.Act1, S.Readers, S.Contents, S.Word, S.Counts, S.Hazard, S.Elections, S.InTable;
    SharedInStep(p, t, a, n);
    StepBooks(p, t, a);
    S.StepThread(p, t, a, u);
    S.NamesStep(p, t, a);
    var p' := P.Step(p, t, a);
    assert Abreast(p.owned, p.current, P.ThreadOf(p, t), n);
    assert Abreast(p.owned, p.current, P.ThreadOf(p, u), n);
    assert S.Staging(P.ThreadOf(p', u).pc) ==> P.ThreadOf(p', u).m in p'.owned by {
      assert S.Staging(P.ThreadOf(p', u).pc) ==> S.StagedApart(p', P.ThreadOf(p', u).m);
    }
  }

  // ---- The books' side of a step ----

  lemma LoanBalanced(ctrl: map<nat, Ctrl>, vs: seq<Version>, c: nat)
    requires Balanced(ctrl, vs) && c in ctrl && ctrl[c].Free?
    ensures Balanced(ctrl[c := Loaned], vs)
  {
    hide Owed, Apart, Tidy;
  }

  /** Giving a version's reference back keeps the books balanced and tied. */
  lemma GiveBackBooks(ctrl: map<nat, Ctrl>, vs: seq<Version>, owned: map<nat, nat>, m: nat)
    requires Balanced(ctrl, vs) && Ties(owned, vs) && m in owned
    ensures 1 <= owned[m] <= |vs|
    ensures var n := owned[m] - 1;
            var (left, us) := ReleaseChain(ctrl, vs[n := vs[n].(live := false)], n);
            && Balanced(left, us) && Ties(owned - {m}, us) && |us| == |vs| && !us[n].live
            && forall i :: 0 <= i < |vs| && i != n ==> us[i] == vs[i].(freed := us[i].freed)
  {
    var n := owned[m] - 1;
    var ws := vs[n := vs[n].(live := false)];
    GiveBackBalanced(ctrl, vs, n);
    hide Balanced, ReleaseChain, Cascade;
    CascadeFrame(ws, n);
    TiesWithout(owned, vs, ws, Cascade(ws, n), m);
  }

  lemma GiveBackBalanced(ctrl: map<nat, Ctrl>, vs: seq<Version>, n: nat)
    requires Balanced(ctrl, vs) && n < |vs| && vs[n].live
    ensures var ws := vs[n := vs[n].(live := false)];
            var (left, us) := ReleaseChain(ctrl, ws, n);
            Balanced(left, us) && us == Cascade(ws, n)
  {
    hide Accounts, Apart, Tidy, ReleaseChain, Cascade, TidyBut, NoManifests;
    Unslot(ctrl, vs, n);
    ChainReleased(ctrl, vs[n := vs[n].(live := false)], n);
  }

  lemma TiesWithout(owned: map<nat, nat>, vs: seq<Version>, ws: seq<Version>, us: seq<Version>, m: nat)
    requires Ties(owned, vs) && m in owned && |us| == |vs|
    requires var n := owned[m] - 1; ws == vs[n := vs[n].(live := false)]
    requires forall i :: 0 <= i < |us| ==> us[i] == ws[i].(freed := us[i].freed)
    ensures Ties(owned - {m}, us)
  {
  }

  /** A version nobody needs, at the end, may be forgotten. */
  lemma DropLast(ctrl: map<nat, Ctrl>, us: seq<Version>, owned: map<nat, nat>)
    requires Balanced(ctrl, us) && Ties(owned, us) && |us| > 0 && !us[|us| - 1].live
    ensures Balanced(ctrl, us[..|us| - 1]) && Ties(owned, us[..|us| - 1])
  {
    var n, rest := |us| - 1, us[..|us| - 1];
    assert us == rest + [us[n]];
    assert !Needed(us, n);
    forall c: nat
      ensures Owed(us, c) == Owed(rest, c)
    {
      HeldSnoc(rest, us[n], n, c);
    }
    SameOwed(ctrl, us, rest);
    forall i | 0 <= i < n
      ensures !rest[i].freed <==> Needed(rest, i)
    {
      assert !us[i].freed <==> Needed(us, i);
    }
    hide Owed, Accounts;
  }

  /** What a commit takes is what its version holds. */
  lemma StagedBooks(s: State, a: Act, p: P.State)
    requires a.Commit? && Ready(s, a) && Balanced(s.ctrl, s.vs)
    ensures Balanced(Staged(s, a, p).ctrl, Staged(s, a, p).vs)
  {
    hide Accounts, Apart, Tidy, Loans, Listed, Take, Taken;
    var relist, link := Relist(a.kind, s.vs, a.kept), Link(a.kind, s.vs);
    TakeAccounts(s.ctrl, s.vs, a.staged, relist, link, a.manifest);
    NewBooks(s.ctrl, Take(s.ctrl, s.vs, a.staged, relist, link, a.manifest), s.vs, a.staged, relist, link, a.manifest);
  }

  lemma TiesWith(owned: map<nat, nat>, vs: seq<Version>, v: Version)
    requires Ties(owned, vs) && v.live && v.manifest !in owned
    ensures Ties(owned[v.manifest := |vs| + 1], vs + [v])
  {
  }

  // ---- Together ----

  lemma StagedInv(s: State, t: nat, a: Act)
    requires Inv(s) && a.Commit? && P.EffectOf(s.p, t, ActOf(a)).staged.Some?
    ensures Inv(Step(s, t, a))
  {
    hide P.Act1, S.Inv, Balanced, Ties, InStep, Ready, NewVersion, Take;
    StepBooks(s.p, t, ActOf(a));
    S.InvStep(s.p, t, ActOf(a));
    StepInStep(s.p, t, ActOf(a), |s.vs|);
    if Ready(s, a) {
      StagedBooks(s, a, P.Step(s.p, t, ActOf(a)));
      StagedTies(s, t, a);
    }
  }

  lemma StagedTies(s: State, t: nat, a: Act)
    requires Inv(s) && a.Commit? && P.EffectOf(s.p, t, ActOf(a)).staged.Some?
    ensures Ties(P.Step(s.p, t, ActOf(a)).owned, s.vs + [NewVersion(a.kind, a.staged, a.kept, a.manifest, Prior(s.vs))])
  {
    hide S.Inv, Balanced, Ties;
    StepBooks(s.p, t, ActOf(a));
    TiesWith(s.p.owned, s.vs, NewVersion(a.kind, a.staged, a.kept, a.manifest, Prior(s.vs)));
  }

  lemma ReleasedInv(s: State, t: nat, a: Act)
    requires Inv(s) && !a.Loan? && P.EffectOf(s.p, t, ActOf(a)).staged.None?
    requires var r := P.EffectOf(s.p, t, ActOf(a)).released; r.Some? && r.value in s.p.owned
    ensures Inv(Step(s, t, a))
  {
    hide P.Act1, S.Inv, Balanced, Ties, ReleaseChain;
    StepBooks(s.p, t, ActOf(a));
    S.InvStep(s.p, t, ActOf(a));
    StepInStep(s.p, t, ActOf(a), |s.vs|);
    var th, e := P.ThreadOf(s.p, t), P.EffectOf(s.p, t, ActOf(a));
    assert Abreast(s.p.owned, s.p.current, th, |s.vs|);
    var m := e.released.value;
    GiveBackBooks(s.ctrl, s.vs, s.p.owned, m);
    var n := s.p.owned[m] - 1;
    var (left, us) := ReleaseChain(s.ctrl, s.vs[n := s.vs[n].(live := false)], n);
    if th.pc.CClaim? {
      DropLast(left, us, s.p.owned - {m});
    }
    hide InStep;
  }

  lemma OtherInv(s: State, t: nat, a: Act)
    requires Inv(s) && !a.Loan? && P.EffectOf(s.p, t, ActOf(a)).staged.None?
    requires var r := P.EffectOf(s.p, t, ActOf(a)).released; !(r.Some? && r.value in s.p.owned)
    ensures Inv(Step(s, t, a))
  {
    hide P.Act1, S.Inv, Balanced, Ties;
    StepBooks(s.p, t, ActOf(a));
    S.InvStep(s.p, t, ActOf(a));
    StepInStep(s.p, t, ActOf(a), |s.vs|);
    assert Abreast(s.p.owned, s.p.current, P.ThreadOf(s.p, t), |s.vs|);
    assert P.Step(s.p, t, ActOf(a)).owned == s.p.owned;
    hide InStep;
  }

  /** Every step keeps the books: counts exact, exactly the needed manifests unfreed, and
      the protocol's outstanding references exactly the live slots'. */
  lemma StepInv(s: State, t: nat, a: Act)
    requires Inv(s)
    ensures Inv(Step(s, t, a))
  {
    var e := P.EffectOf(s.p, t, ActOf(a));
    if a.Loan? {
      if a.chunk in s.ctrl && s.ctrl[a.chunk].Free? {
        LoanBalanced(s.ctrl, s.vs, a.chunk);
      }
      hide *;
    } else if e.staged.Some? {
      StartsCommit(s, t, a);
      StagedInv(s, t, a);
    } else if e.released.Some? && e.released.value in s.p.owned {
      ReleasedInv(s, t, a);
    } else {
      OtherInv(s, t, a);
    }
  }

  lemma StartsCommit(s: State, t: nat, a: Act)
    requires P.EffectOf(s.p, t, ActOf(a)).staged.Some?
    ensures a.Commit?
  {
    StepBooks(s.p, t, ActOf(a));
  }

  // ---- Whole runs ----

  /** A table of n slots over a pool with every chunk free. */
  function Init(n: nat, pool: set<nat>): State {
    State(P.Init(n), map c | c in pool :: Free, [])
  }

  type Schedule = seq<(nat, Act)>

  ghost function Run(s: State, sched: Schedule): State {
    if |sched| == 0 then s
    else
      var last := sched[|sched| - 1];
      Step(Run(s, sched[..|sched| - 1]), last.0, last.1)
  }

  lemma InitInv(n: nat, pool: set<nat>)
    ensures Inv(Init(n, pool))
  {
    S.InitInv(n);
    hide S.Inv;
  }

  lemma {:induction false} RunInv(n: nat, pool: set<nat>, sched: Schedule)
    ensures Inv(Run(Init(n, pool), sched))
  {
    hide Inv, Init, Step;
    if |sched| == 0 {
      InitInv(n, pool);
    } else {
      var last := sched[|sched| - 1];
      RunInv(n, pool, sched[..|sched| - 1]);
      StepInv(Run(Init(n, pool), sched[..|sched| - 1]), last.0, last.1);
    }
  }

  /** Version n's chain reaches back to version i. */
  predicate Chained(vs: seq<Version>, i: nat, n: nat) {
    i <= n < |vs| && forall j :: i < j <= n ==> vs[j].linked
  }

  /** Everything on a live version's chain is published. */
  lemma ChainPublished(ctrl: map<nat, Ctrl>, vs: seq<Version>, i: nat, n: nat, c: nat)
    requires Accounts(ctrl, vs, [], []) && Tidy(vs) && Chained(vs, i, n) && vs[n].live
    requires c == vs[i].manifest || c in vs[i].chunks
    ensures !vs[i].freed && c in ctrl && ctrl[c].Published? && ctrl[c].refs > 0
  {
    ChainStays(vs, i, n);
    if c in vs[i].chunks {
      OccursIn(vs[i].chunks, c);
      HeldPositive(vs, |vs|, i, c);
    } else {
      assert Needed(vs, i);
      HeldPositive(vs, |vs|, if vs[i].live then i else i + 1, c);
    }
  }

  /** Only an abandoned commit's version is ever forgotten, and nobody holds a pin of it. */
  lemma HeldNotAbandoned(s: State, t: nat, a: Act, u: nat)
    requires Inv(s) && P.ThreadOf(s.p, u).pc.Held?
    requires P.ThreadOf(s.p, t).pc.CClaim? && P.EffectOf(s.p, t, ActOf(a)).released.Some?
    ensures 1 <= P.ThreadOf(s.p, u).v < |s.vs|
  {
    hide P.Act1, S.Base, S.Names, Balanced;
    var th, held := P.ThreadOf(s.p, t), P.ThreadOf(s.p, u);
    StepBooks(s.p, t, ActOf(a));
    S.HeldOwned(s.p, u);
    assert S.ReadApart(s.p, held.i, held.m);
    assert Abreast(s.p.owned, s.p.current, th, |s.vs|);
  }

  lemma BooksOf(s: State)
    requires Inv(s)
    ensures Accounts(s.ctrl, s.vs, [], []) && Tidy(s.vs) && Ties(s.p.owned, s.vs)
  {
  }

  /** A held version is live. */
  lemma HeldLive(s: State, t: nat)
    requires Inv(s) && P.ThreadOf(s.p, t).pc.Held?
    ensures var th := P.ThreadOf(s.p, t);
            1 <= th.v <= |s.vs| && s.vs[th.v - 1].manifest == th.m && s.vs[th.v - 1].live
  {
    hide S.Inv, Balanced, InStep;
    S.HeldOwned(s.p, t);
  }

  /** What a pin reaches does not change under it: as long as a thread holds its pin, no step
      of any thread changes which chunks its chain lists, or what it links. */
  lemma PinnedChainFixed(s: State, t: nat, a: Act, u: nat, i: nat)
    requires Inv(s) && P.ThreadOf(s.p, u).pc.Held? && i < P.ThreadOf(s.p, u).v
    ensures i < |s.vs| && i < |Step(s, t, a).vs| && Same(Step(s, t, a).vs[i], s.vs[i])
  {
    hide P.EffectOf, P.Apply, P.ThreadOf, Inv, GivenBack, Take, Ready;
    HeldLive(s, u);
    var e := P.EffectOf(s.p, t, ActOf(a));
    if !a.Loan? && e.staged.None? && e.released.Some? && e.released.value in s.p.owned {
      GivenBackFixed(s, t, a, u, i);
    }
  }

  /** Two records of one version, perhaps with less left of it. */
  predicate Same(v: Version, w: Version) {
    v.manifest == w.manifest && v.chunks == w.chunks && v.linked == w.linked
  }

  lemma GivenBackFixed(s: State, t: nat, a: Act, u: nat, i: nat)
    requires Inv(s) && P.ThreadOf(s.p, u).pc.Held? && i < P.ThreadOf(s.p, u).v <= |s.vs|
    requires var e := P.EffectOf(s.p, t, ActOf(a)); e.released.Some? && e.released.value in s.p.owned
    ensures var e := P.EffectOf(s.p, t, ActOf(a));
            var us := GivenBack(s, P.Apply(s.p, t, e), s.p.owned[e.released.value], P.ThreadOf(s.p, t).pc.CClaim?).vs;
            i < |us| && Same(us[i], s.vs[i])
  {
    hide P.EffectOf, P.Apply, Inv, ReleaseChain;
    if P.ThreadOf(s.p, t).pc.CClaim? {
      HeldNotAbandoned(s, t, a, u);
    }
    var v := s.p.owned[P.EffectOf(s.p, t, ActOf(a)).released.value];
    if 0 < v <= |s.vs| {
      GiveBackFrame(s.ctrl, s.vs, v - 1);
    }
  }

  lemma {:induction false} ReleaseFrame(ctrl: map<nat, Ctrl>, vs: seq<Version>, n: nat)
    requires n < |vs|
    ensures var (_, us) := ReleaseChain(ctrl, vs, n);
            |us| == |vs| && forall i :: 0 <= i < |vs| ==> us[i] == vs[i].(freed := us[i].freed)
    decreases n
  {
    hide Dec, DecAll;
    var m := vs[n].manifest;
    if m in ctrl && ctrl[m].Published? && ctrl[m].refs <= 1 && vs[n].linked && n > 0 {
      ReleaseFrame(DecAll(Dec(ctrl, m), vs[n].chunks), vs[n := vs[n].(freed := true)], n - 1);
    }
  }

  lemma GiveBackFrame(ctrl: map<nat, Ctrl>, vs: seq<Version>, n: nat)
    requires n < |vs|
    ensures var (_, us) := ReleaseChain(ctrl, vs[n := vs[n].(live := false)], n);
            && |us| == |vs|
            && forall i :: 0 <= i < |vs| ==> Same(us[i], vs[i])
  {
    hide ReleaseChain;
    ReleaseFrame(ctrl, vs[n := vs[n].(live := false)], n);
  }

  /** In every run the books are exact: a control word counts one reference per unfreed
      manifest that lists its chunk, per live slot and per link; exactly the needed
      manifests are unfreed; and the live slots are the protocol's outstanding references. */
  lemma BooksStay(n: nat, pool: set<nat>, sched: Schedule)
    ensures var s := Run(Init(n, pool), sched);
            Accounts(s.ctrl, s.vs, [], []) && Tidy(s.vs) && Ties(s.p.owned, s.vs)
  {
    hide Run, Init, Inv;
    RunInv(n, pool, sched);
    BooksOf(Run(Init(n, pool), sched));
  }

  /** Whatever the schedule, everything a thread with an accepted pin can reach is there: its
      version's manifest, every manifest the chain links, and every chunk they list. */
  lemma PinnedDataStays(n: nat, pool: set<nat>, sched: Schedule, t: nat, i: nat, c: nat)
    ensures var s := Run(Init(n, pool), sched);
            var th := P.ThreadOf(s.p, t);
            th.pc.Held? ==>
              && 1 <= th.v <= |s.vs| && s.vs[th.v - 1].manifest == th.m && s.vs[th.v - 1].live
              && (Chained(s.vs, i, th.v - 1) && (c == s.vs[i].manifest || c in s.vs[i].chunks) ==>
                    !s.vs[i].freed && c in s.ctrl && s.ctrl[c].Published? && s.ctrl[c].refs > 0)
  {
    hide Run, Init, Inv, Accounts, Tidy, Ties, P.ThreadOf;
    RunInv(n, pool, sched);
    var s := Run(Init(n, pool), sched);
    var th := P.ThreadOf(s.p, t);
    if th.pc.Held? {
      HeldLive(s, t);
      BooksOf(s);
      if Chained(s.vs, i, th.v - 1) && (c == s.vs[i].manifest || c in s.vs[i].chunks) {
        ChainPublished(s.ctrl, s.vs, i, th.v - 1, c);
      }
    }
  }
}
