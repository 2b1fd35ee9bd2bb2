/** Reference accounting of one artifact: every data chunk is referenced by the
    unfreed manifests that list it, every manifest by its live slot and by an
    unfreed successor that links it, and by nothing else
    (crates/shm-artifact/src/artifact.rs, commit_staged_inner_j, rollback_staged,
    release_manifest_ref, try_retire_version_at, PinState::drop and evict_all). */
module References {
  import opened Common

  /** A chunk's control word. */
  datatype Ctrl = Free | Loaned | Published(refs: nat)

  /** One version: its manifest chunk, the data chunks its manifest lists, whether
      the manifest links the predecessor's, whether its slot is live and how often
      it is pinned, and whether the manifest was freed. */
  datatype Version = Version(manifest: nat, chunks: seq<nat>, linked: bool, live: bool, pins: nat, freed: bool)

  function One(b: bool): nat {
    if b then 1 else 0
  }

  /** How often chunk c occurs in a list. */
  function Occurs(list: seq<nat>, c: nat): nat {
    if |list| == 0 then 0 else Occurs(list[..|list| - 1], c) + One(list[|list| - 1] == c)
  }

  /** References version i holds on chunk c: its slot's on its manifest, and its
      unfreed manifest's on what it lists and links. */
  function Holds(vs: seq<Version>, i: nat, c: nat): nat
    requires i < |vs|
  {
    var v := vs[i];
    One(v.live && v.manifest == c)
    + if v.freed then 0 else Occurs(v.chunks, c) + One(v.linked && i > 0 && vs[i - 1].manifest == c)
  }

  /** References the first n versions hold on chunk c. */
  function Held(vs: seq<Version>, n: nat, c: nat): nat
    requires n <= |vs|
  {
    if n == 0 then 0 else Held(vs, n - 1, c) + Holds(vs, n - 1, c)
  }

  function Owed(vs: seq<Version>, c: nat): nat {
    Held(vs, |vs|, c)
  }

  function Refs(w: Ctrl): nat {
    if w.Published? then w.refs else 0
  }

  /** Every control word counts exactly the references owed on its chunk, plus one
      per entry of `extra` and less one per entry of `gone`. */
  ghost predicate Accounts(ctrl: map<nat, Ctrl>, vs: seq<Version>, extra: seq<nat>, gone: seq<nat>) {
    && (forall c :: c in ctrl ==> Refs(ctrl[c]) + Occurs(gone, c) == Owed(vs, c) + Occurs(extra, c))
    && (forall c :: c in ctrl && ctrl[c].Published? ==> ctrl[c].refs > 0)
    && (forall c :: Owed(vs, c) + Occurs(extra, c) > 0 ==> c in ctrl)
  }

  /** Unfreed manifests occupy chunks of their own. */
  ghost predicate Apart(vs: seq<Version>) {
    && (forall i, j :: 0 <= i < j < |vs| && !vs[i].freed && !vs[j].freed ==> vs[i].manifest != vs[j].manifest)
    && (forall i, j :: 0 <= i < |vs| && 0 <= j < |vs| && !vs[i].freed && !vs[j].freed ==> vs[i].manifest !in vs[j].chunks)
  }

  /** A version's manifest is needed by its live slot or by an unfreed successor
      that links it. */
  ghost predicate Needed(vs: seq<Version>, i: nat)
    requires i < |vs|
  {
    vs[i].live || (i + 1 < |vs| && vs[i + 1].linked && !vs[i + 1].freed)
  }

  /** Exactly the needed manifests are not freed. */
  ghost predicate Tidy(vs: seq<Version>) {
    forall i :: 0 <= i < |vs| ==> (!vs[i].freed <==> Needed(vs, i))
  }

  // ---- Changing one version ----

  /** Replacing version i changes only what it holds, as long as its manifest chunk
      stays put. */
  lemma {:induction false} HeldUpdate(vs: seq<Version>, i: nat, v: Version, n: nat, c: nat)
    requires i < |vs| && n <= |vs| && v.manifest == vs[i].manifest
    ensures n <= i ==> Held(vs[i := v], n, c) == Held(vs, n, c)
    ensures n > i ==> Held(vs[i := v], n, c) + Holds(vs, i, c) == Held(vs, n, c) + Holds(vs[i := v], i, c)
    decreases n
  {
    if n > 0 {
      HeldUpdate(vs, i, v, n - 1, c);
    }
  }

  lemma {:induction false} HeldSnoc(vs: seq<Version>, v: Version, n: nat, c: nat)
    requires n <= |vs|
    ensures Held(vs + [v], n, c) == Held(vs, n, c)
    decreases n
  {
    if n > 0 {
      HeldSnoc(vs, v, n - 1, c);
    }
  }

  lemma {:induction false} OccursConcat(a: seq<nat>, b: seq<nat>, c: nat)
    ensures Occurs(a + b, c) == Occurs(a, c) + Occurs(b, c)
    decreases |b|
  {
    if |b| == 0 {
      Unit(a);
    } else {
      TakeConcat(a, b, 1);
      OccursConcat(a, b[..|b| - 1], c);
    }
  }

  lemma {:induction false} OccursIn(list: seq<nat>, c: nat)
    ensures Occurs(list, c) > 0 <==> c in list
  {
    if |list| > 0 {
      OccursIn(list[..|list| - 1], c);
    }
  }

  lemma {:induction false} HeldPositive(vs: seq<Version>, n: nat, i: nat, c: nat)
    requires i < n <= |vs|
    ensures Holds(vs, i, c) <= Held(vs, n, c)
    decreases n
  {
    if i < n - 1 {
      HeldPositive(vs, n - 1, i, c);
    }
  }

  // ---- Releasing a manifest ----

  /** The versions once the references a released manifest held are followed: it is
      freed if nothing needs it any more, and then so is what it linked. */
  function Cascade(vs: seq<Version>, n: nat): (r: seq<Version>)
    requires n < |vs|
    ensures |r| == |vs|
    decreases n
  {
    if vs[n].live || (n + 1 < |vs| && vs[n + 1].linked && !vs[n + 1].freed) then vs
    else
      var freed := vs[n := vs[n].(freed := true)];
      if vs[n].linked && n > 0 then Cascade(freed, n - 1) else freed
  }

  /** Each listed chunk is published with one reference. */
  function PublishEach(ctrl: map<nat, Ctrl>, list: seq<nat>): map<nat, Ctrl> {
    if |list| == 0 then ctrl else PublishEach(ctrl, list[..|list| - 1])[list[|list| - 1] := Published(1)]
  }

  /** One reference more on chunk c, if it is published. */
  function Borrow(ctrl: map<nat, Ctrl>, c: nat): map<nat, Ctrl> {
    if c in ctrl && ctrl[c].Published? then ctrl[c := Published(ctrl[c].refs + 1)] else ctrl
  }

  function BorrowEach(ctrl: map<nat, Ctrl>, list: seq<nat>): map<nat, Ctrl> {
    if |list| == 0 then ctrl else Borrow(BorrowEach(ctrl, list[..|list| - 1]), list[|list| - 1])
  }

  /** One reference on chunk c is given back; the last one frees it. */
  function Dec(ctrl: map<nat, Ctrl>, c: nat): map<nat, Ctrl> {
    if c !in ctrl || !ctrl[c].Published? then ctrl
    else ctrl[c := if ctrl[c].refs <= 1 then Free else Published(ctrl[c].refs - 1)]
  }

  function DecAll(ctrl: map<nat, Ctrl>, list: seq<nat>): map<nat, Ctrl> {
    if |list| == 0 then ctrl else Dec(DecAll(ctrl, list[..|list| - 1]), list[|list| - 1])
  }

  /** The control words and the versions once one reference on version n's manifest is
      given back: whoever gives back the last gives back what the manifest references. */
  function ReleaseChain(ctrl: map<nat, Ctrl>, vs: seq<Version>, n: nat): (map<nat, Ctrl>, seq<Version>)
    requires n < |vs|
    decreases n
  {
    var m := vs[n].manifest;
    if !(m in ctrl && ctrl[m].Published? && ctrl[m].refs <= 1) then (Dec(ctrl, m), vs)
    else
      var left, freed := DecAll(Dec(ctrl, m), vs[n].chunks), vs[n := vs[n].(freed := true)];
      if vs[n].linked && n > 0 then ReleaseChain(left, freed, n - 1) else (left, freed)
  }

  /** All manifests are freed exactly when unneeded, except that version n may have
      just lost a reference. */
  ghost predicate TidyBut(vs: seq<Version>, n: nat) {
    && (forall i :: 0 <= i < |vs| && i != n ==> (!vs[i].freed <==> Needed(vs, i)))
    && n < |vs| && !vs[n].freed
  }

  /** How a commit ends: where it is refused, or installed. The numbers say how far
      publishing the staged chunks, or borrowing the kept ones, had come;
      NotInstalled is a full slot table, a recycled head or a lost install. */
  datatype Outcome =
    | Fenced | PublishFails(published: nat) | PriorGone | LinkGone | WindowGone(borrowed: nat) | NoManifest
    | NotInstalled | Installed

  datatype Kind = Replace | Append | Rewindow

  /** Whether a commit of this kind can fail this way at all. */
  predicate Applies(kind: Kind, outcome: Outcome, current: Option<nat>) {
    match outcome
    case PriorGone => !kind.Replace? && current.Some?
    case LinkGone => kind.Append? && current.Some?
    case WindowGone(_) => kind.Rewindow? && current.Some?
    case _ => true
  }

  /** References a commit holds on the way: published and kept chunks, the link's on
      the prior manifest, and the new manifest's. */
  function Taken(vs: seq<Version>, staged: seq<nat>, kept: seq<nat>, link: Option<nat>, manifest: Option<nat>): seq<nat>
    requires link.Some? ==> link.value < |vs|
  {
    var data := staged + kept;
    var linked := if link.Some? then data + [vs[link.value].manifest] else data;
    if manifest.Some? then linked + [manifest.value] else linked
  }

  function NewVersion(kind: Kind, staged: seq<nat>, kept: seq<nat>, manifest: nat, prior: Option<nat>): Version {
    Version(manifest, (if kind.Rewindow? && prior.Some? then kept else []) + staged,
            kind.Append? && prior.Some?, true, 0, false)
  }

  /** The control words with the staged chunks given back. */
  function Returned(ctrl: map<nat, Ctrl>, staged: seq<nat>): map<nat, Ctrl> {
    map c | c in ctrl :: if c in staged then Free else ctrl[c]
  }

  /** Chunks listed by unfreed manifests. */
  ghost predicate Listed(vs: seq<Version>, kept: seq<nat>) {
    forall c :: c in kept ==> exists i :: 0 <= i < |vs| && !vs[i].freed && c in vs[i].chunks
  }

  class Store {
    var ctrl: map<nat, Ctrl>
    var versions: seq<Version>
    var current: Option<nat>

    constructor (pool: set<nat>)
      ensures Valid() && versions == [] && current == None
      ensures ctrl == map c | c in pool :: Free
    {
      ctrl := map c | c in pool :: Free;
      versions := [];
      current := None;
    }

    /** The books balance: control words count what is owed, manifests are apart, and
        exactly the needed ones are unfreed. */
    ghost predicate Sound()
      reads this
    {
      && Accounts(ctrl, versions, [], []) && Apart(versions) && Tidy(versions)
      && (current.Some? ==> current.value + 1 == |versions| && versions[current.value].live)
      && (forall i :: 0 <= i < |versions| && versions[i].pins > 0 ==> versions[i].live)
    }

    /** At rest every live version is current or pinned. */
    ghost predicate Valid()
      reads this
    {
      Sound() && forall i :: 0 <= i < |versions| && versions[i].live ==> current == Some(i) || versions[i].pins > 0
    }

    /** Release one reference; true when it was the last and the chunk was freed. */
    method Release(c: nat) returns (last: bool)
      modifies this`ctrl
      ensures last <==> c in old(ctrl) && old(ctrl)[c].Published? && old(ctrl)[c].refs <= 1
      ensures ctrl == Dec(old(ctrl), c)
    {
      if c !in ctrl || !ctrl[c].Published? {
        return false;
      }
      var refs := ctrl[c].refs;
      last := refs <= 1;
      ctrl := ctrl[c := if last then Free else Published(refs - 1)];
    }

    /** Release one reference on each listed chunk. */
    method ReleaseAll(list: seq<nat>, ghost extra: seq<nat>)
      requires Accounts(ctrl, versions, extra + list, [])
      modifies this`ctrl
      ensures Accounts(ctrl, versions, extra, []) && ctrl == DecAll(old(ctrl), list)
      ensures ctrl.Keys == old(ctrl).Keys
      ensures forall c :: c in ctrl && c !in list ==> ctrl[c] == old(ctrl)[c]
      ensures forall c :: c in ctrl ==> (ctrl[c].Loaned? <==> old(ctrl)[c].Loaned?)
    {
      hide Accounts;
      for i := 0 to |list|
        invariant Accounts(ctrl, versions, extra + list, list[..i]) && ctrl == DecAll(old(ctrl), list[..i])
        invariant ctrl.Keys == old(ctrl).Keys
        invariant forall c :: c in ctrl && c !in list[..i] ==> ctrl[c] == old(ctrl)[c]
        invariant forall c :: c in ctrl ==> (ctrl[c].Loaned? <==> old(ctrl)[c].Loaned?)
      {
        StillCounted(ctrl, versions, extra, list, i);
        ReleasedOne(ctrl, versions, extra + list, list, i);
        assert list[..i + 1] == list[..i] + [list[i]];
        var _ := Release(list[i]);
      }
      assert list[..|list|] == list;
      AllGone(ctrl, versions, extra, list);
    }

    /** Release one reference on version n0's manifest; whoever releases the last one
        releases what the manifest itself references, and so on down the chain. */
    method ReleaseManifest(n0: nat, ghost extra: seq<nat>)
      requires TidyBut(versions, n0) && Apart(versions) && NoManifests(versions, extra)
      requires Accounts(ctrl, versions, extra + [versions[n0].manifest], [])
      modifies this`ctrl, this`versions
      ensures Accounts(ctrl, versions, extra, []) && Apart(versions) && Tidy(versions)
      ensures versions == Cascade(old(versions), n0)
      ensures (ctrl, versions) == ReleaseChain(old(ctrl), old(versions), n0)
      ensures ctrl.Keys == old(ctrl).Keys
      ensures forall c :: c in ctrl ==> (ctrl[c].Loaned? <==> old(ctrl)[c].Loaned?)
    {
      hide Accounts, Apart, Tidy, Cascade, Needed, NoManifests;
      var n: nat := n0;
      while true
        invariant TidyBut(versions, n) && Apart(versions) && NoManifests(versions, extra)
        invariant Accounts(ctrl, versions, extra + [versions[n].manifest], [])
        invariant Cascade(old(versions), n0) == Cascade(versions, n)
        invariant ReleaseChain(old(ctrl), old(versions), n0) == ReleaseChain(ctrl, versions, n)
        invariant ctrl.Keys == old(ctrl).Keys
        invariant forall c :: c in ctrl ==> (ctrl[c].Loaned? <==> old(ctrl)[c].Loaned?)
        decreases n
      {
        var v := versions[n];
        ManifestCounted(ctrl, versions, n, extra);
        ReleasedLast(ctrl, versions, extra, v.manifest);
        var last := Release(v.manifest);
        if !last {
          StillNeeded(versions, n);
          return;
        }
        FreeOne(ctrl, versions, n, extra);
        versions := versions[n := v.(freed := true)];
        var follow := v.linked && n > 0;
        ReleaseAll(v.chunks, extra + if follow then [versions[n - 1].manifest] else []);
        if !follow {
          Unit(extra);
          return;
        }
        n := n - 1;
      }
    }

    /** Retire version n if its slot is live, it is not current and nobody pins it. */
    method TryRetire(n: nat)
      requires Sound() && n < |versions|
      modifies this`ctrl, this`versions
      ensures Sound()
      ensures versions == Retired(old(versions), n, current)
      ensures ctrl.Keys == old(ctrl).Keys
      ensures forall c :: c in ctrl ==> (ctrl[c].Loaned? <==> old(ctrl)[c].Loaned?)
    {
      var v := versions[n];
      if !v.live || current == Some(n) || v.pins > 0 {
        return;
      }
      Unslot(ctrl, versions, n);
      CascadeFrame(versions[n := v.(live := false)], n);
      versions := versions[n := v.(live := false)];
      Unit([v.manifest]);
      ReleaseManifest(n, []);
    }

    /** Pin the current version. */
    method Pin() returns (pinned: Option<nat>)
      requires Valid()
      modifies this`versions
      ensures Valid() && pinned == current
      ensures match pinned
              case None => versions == old(versions)
              case Some(n) => n < |old(versions)| && versions == old(versions)[n := old(versions)[n].(pins := old(versions)[n].pins + 1)]
    {
      pinned := current;
      if pinned.Some? {
        var n := pinned.value;
        PinsOnly(ctrl, versions, n, versions[n].pins + 1);
        versions := versions[n := versions[n].(pins := versions[n].pins + 1)];
      }
    }

    /** Drop a pin of version n; the last one out reclaims a superseded version. */
    method Drop(n: nat)
      requires Valid() && n < |versions| && versions[n].pins > 0
      modifies this`ctrl, this`versions
      ensures Valid()
      ensures versions == Retired(old(versions)[n := old(versions)[n].(pins := old(versions)[n].pins - 1)], n, current)
    {
      PinsOnly(ctrl, versions, n, versions[n].pins - 1);
      versions := versions[n := versions[n].(pins := versions[n].pins - 1)];
      CascadeFrame(versions[n := versions[n].(live := false)], n);
      TryRetire(n);
    }

    /** Publish the first k staged chunks, one version reference each. */
    method PublishAll(staged: seq<nat>, k: nat)
      requires k <= |staged| && Loans(ctrl, staged) && Accounts(ctrl, versions, [], [])
      modifies this`ctrl
      ensures Accounts(ctrl, versions, staged[..k], []) && ctrl == PublishEach(old(ctrl), staged[..k])
      ensures ctrl.Keys == old(ctrl).Keys
      ensures forall c :: c in ctrl ==> ctrl[c] == if c in staged[..k] then Published(1) else old(ctrl)[c]
    {
      hide Accounts;
      for i := 0 to k
        invariant Accounts(ctrl, versions, staged[..i], []) && ctrl == PublishEach(old(ctrl), staged[..i])
        invariant ctrl.Keys == old(ctrl).Keys
        invariant forall c :: c in ctrl ==> ctrl[c] == if c in staged[..i] then Published(1) else old(ctrl)[c]
      {
        assert staged[i] !in staged[..i];
        TakenOne(ctrl, versions, staged, i);
        assert staged[..i + 1] == staged[..i] + [staged[i]];
        ctrl := ctrl[staged[i] := Published(1)];
      }
    }

    /** Return still loaned chunks to the pool. */
    method FreeLoaned(staged: seq<nat>)
      requires Accounts(ctrl, versions, [], []) && forall c :: c in staged ==> c in ctrl
      modifies this`ctrl
      ensures Accounts(ctrl, versions, [], [])
      ensures ctrl.Keys == old(ctrl).Keys
      ensures forall c :: c in ctrl ==> ctrl[c] == if c in staged && old(ctrl)[c].Loaned? then Free else old(ctrl)[c]
    {
      for i := 0 to |staged|
        invariant Accounts(ctrl, versions, [], [])
        invariant ctrl.Keys == old(ctrl).Keys
        invariant forall c :: c in ctrl ==>
          ctrl[c] == if c in staged[..i] && old(ctrl)[c].Loaned? then Free else old(ctrl)[c]
      {
        assert staged[..i + 1] == staged[..i] + [staged[i]];
        if ctrl[staged[i]].Loaned? {
          ctrl := ctrl[staged[i] := Free];
        }
      }
      assert staged[..|staged|] == staged;
    }

    /** Borrow the first k of the listed chunks, all of them published. */
    method BorrowAll(list: seq<nat>, k: nat, ghost extra: seq<nat>)
      requires k <= |list| && Accounts(ctrl, versions, extra, [])
      requires forall c :: c in list ==> c in ctrl && ctrl[c].Published?
      modifies this`ctrl
      ensures Accounts(ctrl, versions, extra + list[..k], []) && ctrl == BorrowEach(old(ctrl), list[..k])
      ensures ctrl.Keys == old(ctrl).Keys
      ensures forall c :: c in ctrl ==> (ctrl[c].Loaned? <==> old(ctrl)[c].Loaned?)
      ensures forall c :: c in ctrl && c !in list ==> ctrl[c] == old(ctrl)[c]
    {
      hide Accounts;
      Unit(extra);
      for i := 0 to k
        invariant Accounts(ctrl, versions, extra + list[..i], []) && ctrl == BorrowEach(old(ctrl), list[..i])
        invariant ctrl.Keys == old(ctrl).Keys
        invariant forall c :: c in ctrl && c !in list ==> ctrl[c] == old(ctrl)[c]
        invariant forall c :: c in list ==> c in ctrl && ctrl[c].Published?
        invariant forall c :: c in ctrl ==> (ctrl[c].Loaned? <==> old(ctrl)[c].Loaned?)
      {
        BorrowedOne(ctrl, versions, extra + list[..i], list[i]);
        assert list[..i + 1] == list[..i] + [list[i]];
        assert extra + list[..i + 1] == extra + list[..i] + [list[i]];
        ctrl := ctrl[list[i] := Published(ctrl[list[i]].refs + 1)];
      }
    }

    /** Undo a failed commit: the new manifest, the link, the kept chunks and the
        published ones, in that order. */
    method Rollback(staged: seq<nat>, kept: seq<nat>, link: Option<nat>, manifest: Option<nat>)
      requires Apart(versions) && Tidy(versions) && NoManifests(versions, staged + kept)
      requires link.Some? ==> link.value < |versions| && versions[link.value].live
      requires manifest.Some? ==> manifest.value in ctrl && ctrl[manifest.value].Published?
      requires Accounts(ctrl, versions, Taken(versions, staged, kept, link, manifest), [])
      modifies this`ctrl, this`versions
      ensures versions == old(versions) && Accounts(ctrl, versions, [], [])
      ensures ctrl.Keys == old(ctrl).Keys
      ensures forall c :: c in ctrl ==> (ctrl[c].Loaned? <==> old(ctrl)[c].Loaned?)
    {
      hide Accounts, Apart, Tidy, NoManifests;
      ghost var held := Taken(versions, staged, kept, link, None);
      if manifest.Some? {
        ReleasedLast(ctrl, versions, held, manifest.value);
        var _ := Release(manifest.value);
      }
      if link.Some? {
        LiveStays(versions, link.value);
        ReleaseManifest(link.value, staged + kept);
      }
      ReleaseAll(kept, staged);
      Unit(staged);
      ReleaseAll(staged, []);
    }

    /** Publish what was staged, or give all of it back. */
    method PublishStaged(staged: seq<nat>, outcome: Outcome) returns (ok: bool)
      requires Sound() && Loans(ctrl, staged)
      requires outcome.PublishFails? ==> outcome.published < |staged|
      modifies this`ctrl
      ensures ok <==> !outcome.Fenced? && !outcome.PublishFails?
      ensures !ok ==> ctrl == Returned(old(ctrl), staged) && Accounts(ctrl, versions, [], [])
      ensures ok ==>
                && Accounts(ctrl, versions, staged, [])
                && ctrl.Keys == old(ctrl).Keys
                && forall c :: c in ctrl ==> ctrl[c] == if c in staged then Published(1) else old(ctrl)[c]
    {
      hide Accounts, Apart, Tidy, Returned;
      ghost var before := ctrl;
      if outcome.Fenced? {
        FreeLoaned(staged);
        RolledBack(before, ctrl, versions, staged);
        return false;
      }
      if outcome.PublishFails? {
        PublishAll(staged, outcome.published);
        Unit(staged[..outcome.published]);
        ReleaseAll(staged[..outcome.published], []);
        FreeLoaned(staged);
        RolledBack(before, ctrl, versions, staged);
        return false;
      }
      PublishAll(staged, |staged|);
      assert staged[..|staged|] == staged;
      return true;
    }

    /** Borrow what the new version takes over: the prior manifest for an append, the
        kept chunks for a re-rooting commit. On failure roll everything back. */
    method TakePrior(kind: Kind, staged: seq<nat>, kept: seq<nat>, outcome: Outcome)
      returns (ok: bool, link: Option<nat>, relist: seq<nat>)
      requires Apart(versions) && Tidy(versions) && NoManifests(versions, staged)
      requires Accounts(ctrl, versions, staged, [])
      requires current.Some? ==> current.value < |versions| && versions[current.value].live
      requires kind.Rewindow? && current.Some? ==> Listed(versions, kept)
      requires outcome.WindowGone? ==> outcome.borrowed <= |kept|
      modifies this`ctrl, this`versions
      ensures versions == old(versions) && ctrl.Keys == old(ctrl).Keys
      ensures forall c :: c in ctrl ==> (ctrl[c].Loaned? <==> old(ctrl)[c].Loaned?)
      ensures ok <==> !((outcome.PriorGone? || outcome.LinkGone? || outcome.WindowGone?) && Applies(kind, outcome, current))
      ensures !ok ==> Accounts(ctrl, versions, [], [])
      ensures ok ==>
                && link == (if kind.Append? then current else None)
                && relist == (if kind.Rewindow? && current.Some? then kept else [])
                && NoManifests(versions, staged + relist)
                && Accounts(ctrl, versions, Taken(versions, staged, relist, link, None), [])
                && forall c :: c in ctrl && old(ctrl)[c].Free? ==> ctrl[c].Free?
    {
      hide Accounts, Apart, Tidy;
      link, relist := None, [];
      Unit(staged);
      if current.None? || kind.Replace? {
        return true, link, relist;
      }
      if outcome.PriorGone? {
        Rollback(staged, [], None, None);
        return false, link, relist;
      }
      if kind.Append? {
        link := current;
        var m := versions[current.value].manifest;
        LiveCounted(ctrl, versions, current.value, staged);
        BorrowedOne(ctrl, versions, staged, m);
        ctrl := ctrl[m := Published(ctrl[m].refs + 1)];
        if outcome.LinkGone? {
          Rollback(staged, [], link, None);
          return false, link, relist;
        }
      } else {
        ListedCounted(ctrl, versions, kept, staged);
        if outcome.WindowGone? {
          BorrowAll(kept, outcome.borrowed, staged);
          ListedApart(versions, staged, kept, outcome.borrowed);
          Rollback(staged, kept[..outcome.borrowed], None, None);
          return false, link, relist;
        }
        BorrowAll(kept, |kept|, staged);
        assert kept[..|kept|] == kept;
        ListedApart(versions, staged, kept, |kept|);
        relist := kept;
      }
      return true, link, relist;
    }

    /** Install the new version and retire the one it supersedes. */
    method Install(staged: seq<nat>, relist: seq<nat>, link: Option<nat>, manifest: nat, ghost before: map<nat, Ctrl>)
      requires Accounts(before, versions, [], []) && Apart(versions) && Tidy(versions)
      requires Loans(before, staged) && manifest in before && before[manifest].Free?
      requires relist == [] || Listed(versions, relist)
      requires link.Some? ==> link == current
      requires current.Some? ==> current.value + 1 == |versions| && versions[current.value].live
      requires Accounts(ctrl, versions, Taken(versions, staged, relist, link, Some(manifest)), [])
      requires forall i :: 0 <= i < |versions| && versions[i].pins > 0 ==> versions[i].live
      requires forall i :: 0 <= i < |versions| && versions[i].live ==> current == Some(i) || versions[i].pins > 0
      modifies this
      ensures Valid()
      ensures var n := |old(versions)|;
              var vs := old(versions) + [Version(manifest, relist + staged, link.Some?, true, 0, false)];
              && current == Some(n)
              && versions == if old(current).Some? then Retired(vs, n - 1, Some(n)) else vs
    {
      hide Accounts, Apart, Tidy, Retired, Taken, Loans, Listed;
      NewBooks(before, ctrl, versions, staged, relist, link, manifest);
      var prior := current;
      versions := versions + [Version(manifest, relist + staged, link.Some?, true, 0, false)];
      current := Some(|versions| - 1);
      if prior.Some? {
        RetiredFrame(versions, prior.value, current);
        TryRetire(prior.value);
      }
    }

    /** The commit path past its early returns, ending as `outcome` says. Whatever the
        failure, every staged chunk is returned and nothing else has changed. */
    method Commit(kind: Kind, staged: seq<nat>, kept: seq<nat>, manifest: nat, outcome: Outcome) returns (ok: bool)
      requires Valid() && Loans(ctrl, staged) && manifest in ctrl && ctrl[manifest].Free?
      requires kind.Rewindow? && current.Some? ==> Listed(versions, kept)
      requires outcome.PublishFails? ==> outcome.published < |staged|
      requires outcome.WindowGone? ==> outcome.borrowed <= |kept|
      modifies this
      ensures Valid()
      ensures ok <==> outcome.Installed? || !Applies(kind, outcome, old(current))
      ensures !ok ==> versions == old(versions) && current == old(current) && ctrl == Returned(old(ctrl), staged)
      ensures ok ==>
                var n := |old(versions)|;
                var v := NewVersion(kind, staged, kept, manifest, old(current));
                && current == Some(n)
                && versions == if old(current).Some? then Retired(old(versions) + [v], n - 1, Some(n)) else old(versions) + [v]
    {
      hide Accounts, Apart, Tidy, Returned, Retired, NoManifests, Loans, Taken, Listed;
      ghost var before := ctrl;
      LoansAre(ctrl, staged);
      StagedApart(ctrl, versions, staged);
      ok := PublishStaged(staged, outcome);
      if !ok {
        return;
      }
      var link, relist;
      ok, link, relist := TakePrior(kind, staged, kept, outcome);
      if !ok {
        RolledBack(before, ctrl, versions, staged);
        return;
      }
      if outcome.NoManifest? {
        Rollback(staged, relist, link, None);
        RolledBack(before, ctrl, versions, staged);
        return false;
      }
      ManifestTaken(ctrl, versions, staged, relist, link, manifest);
      ctrl := ctrl[manifest := Published(1)];
      if outcome.NotInstalled? {
        Rollback(staged, relist, link, Some(manifest));
        RolledBack(before, ctrl, versions, staged);
        return false;
      }
      Install(staged, relist, link, manifest, before);
      return true;
    }

    /** Tear everything down; without pins, nothing stays referenced. */
    method EvictAll()
      requires Valid()
      modifies this
      ensures Valid() && current == None
      ensures |versions| == |old(versions)| && ctrl.Keys == old(ctrl).Keys
      ensures forall i :: 0 <= i < |versions| ==> versions[i].pins == old(versions)[i].pins
      ensures (forall i :: 0 <= i < |versions| ==> versions[i].pins == 0) ==>
                forall c :: c in ctrl ==> ctrl[c].Free? || old(ctrl)[c].Loaned?
    {
      hide Accounts, Apart, Tidy, Retired;
      current := None;
      var i := 0;
      while i < |versions|
        invariant 0 <= i <= |versions| == |old(versions)|
        invariant Sound() && current == None
        invariant forall k :: 0 <= k < |versions| ==> versions[k].pins == old(versions)[k].pins
        invariant forall k :: 0 <= k < i && versions[k].live ==> versions[k].pins > 0
        invariant ctrl.Keys == old(ctrl).Keys
        invariant forall c :: c in ctrl ==> (ctrl[c].Loaned? <==> old(ctrl)[c].Loaned?)
      {
        RetiredFrame(versions, i, current);
        TryRetire(i);
        i := i + 1;
      }
      if forall k :: 0 <= k < |versions| ==> versions[k].pins == 0 {
        NothingOwed(ctrl, versions);
      }
    }
  }

  /** Version n with its slot freed and what that released followed, if it may be
      reclaimed at all. */
  function Retired(vs: seq<Version>, n: nat, current: Option<nat>): seq<Version>
    requires n < |vs|
  {
    if !vs[n].live || current == Some(n) || vs[n].pins > 0 then vs
    else Cascade(vs[n := vs[n].(live := false)], n)
  }

  /** None of the listed chunks is an unfreed manifest. */
  ghost predicate NoManifests(vs: seq<Version>, list: seq<nat>) {
    forall i :: 0 <= i < |vs| && !vs[i].freed ==> vs[i].manifest !in list
  }

  lemma ReleasedLast(ctrl: map<nat, Ctrl>, vs: seq<Version>, extra: seq<nat>, m: nat)
    requires Accounts(ctrl, vs, extra + [m], []) && m in ctrl && ctrl[m].Published?
    ensures Accounts(Dec(ctrl, m), vs, extra, [])
  {
    ReleasedOne(ctrl, vs, extra + [m], [m], 0);
    assert [m][..1] == [m];
    AllGone(Dec(ctrl, m), vs, extra, [m]);
  }

  lemma StillNeeded(vs: seq<Version>, n: nat)
    requires TidyBut(vs, n) && Needed(vs, n)
    ensures Tidy(vs) && Cascade(vs, n) == vs
  {
  }

  /** Version n with its manifest freed. */
  function Freed(vs: seq<Version>, n: nat): seq<Version>
    requires n < |vs|
  {
    vs[n := vs[n].(freed := true)]
  }

  lemma ReleasedOne(ctrl: map<nat, Ctrl>, vs: seq<Version>, extra: seq<nat>, list: seq<nat>, i: nat)
    requires i < |list| && Accounts(ctrl, vs, extra, list[..i])
    requires list[i] in ctrl && ctrl[list[i]].Published?
    ensures Accounts(Dec(ctrl, list[i]), vs, extra, list[..i + 1])
  {
    OneGone(list, i);
  }

  /** What version i holds on the manifest of version n. */
  lemma HoldsManifest(vs: seq<Version>, n: nat, i: nat)
    requires TidyBut(vs, n) && Apart(vs) && i < |vs|
    ensures Holds(vs, i, vs[n].manifest)
            == One(i == n && vs[n].live) + One(i == n + 1 && vs[i].linked && !vs[i].freed)
  {
    var m := vs[n].manifest;
    if !vs[i].freed {
      OccursIn(vs[i].chunks, m);
      assert vs[i].linked && i > 0 ==> !vs[i - 1].freed by {
        assert vs[i].linked && i > 0 ==> Needed(vs, i - 1);
      }
    } else {
      assert !Needed(vs, i);
    }
  }

  lemma {:induction false} HeldManifest(vs: seq<Version>, n: nat, k: nat)
    requires TidyBut(vs, n) && Apart(vs) && k <= |vs|
    ensures Held(vs, k, vs[n].manifest)
            == One(n < k && vs[n].live) + One(n + 1 < k && vs[n + 1].linked && !vs[n + 1].freed)
    decreases k
  {
    hide TidyBut, Apart, Holds;
    if k > 0 {
      HoldsManifest(vs, n, k - 1);
      HeldManifest(vs, n, k - 1);
    }
  }

  /** The reference being released is the manifest's last exactly when nothing needs
      the manifest. */
  lemma ManifestCounted(ctrl: map<nat, Ctrl>, vs: seq<Version>, n: nat, extra: seq<nat>)
    requires TidyBut(vs, n) && Apart(vs) && NoManifests(vs, extra)
    requires Accounts(ctrl, vs, extra + [vs[n].manifest], [])
    ensures var m := vs[n].manifest;
            m in ctrl && ctrl[m].Published? && (ctrl[m].refs <= 1 <==> !Needed(vs, n))
  {
    var m := vs[n].manifest;
    HeldManifest(vs, n, |vs|);
    OccursConcat(extra, [m], m);
    OccursIn(extra, m);
    assert [m][..0] == [];
  }

  lemma OneGone(list: seq<nat>, i: nat)
    requires i < |list|
    ensures forall c :: Occurs(list[..i + 1], c) == Occurs(list[..i], c) + One(list[i] == c)
  {
    assert list[..i + 1][..i] == list[..i];
  }

  lemma {:induction false} OccursPrefix(list: seq<nat>, i: nat, c: nat)
    requires i <= |list|
    ensures Occurs(list[..i], c) <= Occurs(list, c)
    ensures i < |list| && list[i] == c ==> Occurs(list[..i], c) < Occurs(list, c)
    decreases |list| - i
  {
    if i < |list| {
      OneGone(list, i);
      OccursPrefix(list, i + 1, c);
    } else {
      assert list[..i] == list;
    }
  }

  /** The next chunk to release still has a reference. */
  lemma StillCounted(ctrl: map<nat, Ctrl>, vs: seq<Version>, extra: seq<nat>, list: seq<nat>, i: nat)
    requires i < |list| && Accounts(ctrl, vs, extra + list, list[..i])
    ensures list[i] in ctrl && ctrl[list[i]].Published?
  {
    OccursConcat(extra, list, list[i]);
    OccursPrefix(list, i, list[i]);
  }

  lemma AllGone(ctrl: map<nat, Ctrl>, vs: seq<Version>, extra: seq<nat>, list: seq<nat>)
    requires Accounts(ctrl, vs, extra + list, list)
    ensures Accounts(ctrl, vs, extra, [])
  {
    forall c: nat
      ensures Occurs(extra + list, c) == Occurs(extra, c) + Occurs(list, c)
    {
      OccursConcat(extra, list, c);
    }
  }

  /** Freeing an unneeded manifest turns what it held into references to release. */
  lemma FreeOne(ctrl: map<nat, Ctrl>, vs: seq<Version>, n: nat, extra: seq<nat>)
    requires TidyBut(vs, n) && Apart(vs) && NoManifests(vs, extra) && !Needed(vs, n)
    requires Accounts(ctrl, vs, extra, [])
    ensures var follow := vs[n].linked && n > 0;
            var next := if follow then [vs[n - 1].manifest] else [];
            && Accounts(ctrl, Freed(vs, n), extra + next + vs[n].chunks, [])
            && Apart(Freed(vs, n)) && NoManifests(Freed(vs, n), extra)
            && (if follow then TidyBut(Freed(vs, n), n - 1) else Tidy(Freed(vs, n)))
            && Cascade(vs, n) == if follow then Cascade(Freed(vs, n), n - 1) else Freed(vs, n)
  {
    var next := if vs[n].linked && n > 0 then [vs[n - 1].manifest] else [];
    FreedCounts(vs, n, next);
    FreedTidy(vs, n);
    forall c: nat
      ensures Occurs(extra + next + vs[n].chunks, c) == Occurs(extra, c) + Occurs(next + vs[n].chunks, c)
    {
      Assoc(extra, next, vs[n].chunks);
      OccursConcat(extra, next + vs[n].chunks, c);
    }
    hide Owed, Occurs;
  }

  lemma FreedCounts(vs: seq<Version>, n: nat, extra: seq<nat>)
    requires n < |vs| && !vs[n].freed && !vs[n].live
    requires extra == if vs[n].linked && n > 0 then [vs[n - 1].manifest] else []
    ensures forall c :: Owed(vs, c) == Owed(Freed(vs, n), c) + Occurs(extra + vs[n].chunks, c)
  {
    forall c: nat
      ensures Owed(vs, c) == Owed(Freed(vs, n), c) + Occurs(extra + vs[n].chunks, c)
    {
      HeldUpdate(vs, n, vs[n].(freed := true), |vs|, c);
      OccursConcat(extra, vs[n].chunks, c);
      if extra != [] {
        assert extra[..0] == [];
      }
    }
  }

  lemma FreedTidy(vs: seq<Version>, n: nat)
    requires TidyBut(vs, n) && !Needed(vs, n)
    ensures if vs[n].linked && n > 0 then TidyBut(Freed(vs, n), n - 1) else Tidy(Freed(vs, n))
  {
    var fs := Freed(vs, n);
    forall i | 0 <= i < |vs| && i != n
      ensures (i == n - 1 && vs[n].linked) || (!fs[i].freed <==> Needed(fs, i))
    {
      assert !vs[i].freed <==> Needed(vs, i);
    }
    assert !Needed(fs, n);
    if vs[n].linked && n > 0 {
      assert Needed(vs, n - 1);
    }
  }

  /** A cascade only frees manifests. */
  lemma {:induction false} CascadeFrame(vs: seq<Version>, n: nat)
    requires n < |vs|
    ensures forall i :: 0 <= i < |vs| ==> Cascade(vs, n)[i] == vs[i].(freed := Cascade(vs, n)[i].freed)
    decreases n
  {
    if !(vs[n].live || (n + 1 < |vs| && vs[n + 1].linked && !vs[n + 1].freed)) && vs[n].linked && n > 0 {
      CascadeFrame(Freed(vs, n), n - 1);
    }
  }

  /** Retiring touches no pin, and takes down no slot but its own. */
  lemma RetiredFrame(vs: seq<Version>, n: nat, current: Option<nat>)
    requires n < |vs|
    ensures var us := Retired(vs, n, current);
            && |us| == |vs|
            && (forall i :: 0 <= i < |vs| ==> us[i].pins == vs[i].pins && (i != n ==> us[i].live == vs[i].live))
            && (us[n].live ==> current == Some(n) || vs[n].pins > 0)
  {
    CascadeFrame(vs[n := vs[n].(live := false)], n);
  }

  /** Giving up a slot leaves its reference to be released. */
  lemma Unslot(ctrl: map<nat, Ctrl>, vs: seq<Version>, n: nat)
    requires Accounts(ctrl, vs, [], []) && Apart(vs) && Tidy(vs) && n < |vs| && vs[n].live
    ensures var us := vs[n := vs[n].(live := false)];
            Accounts(ctrl, us, [vs[n].manifest], []) && Apart(us) && TidyBut(us, n) && NoManifests(us, [])
  {
    var us, m := vs[n := vs[n].(live := false)], vs[n].manifest;
    forall c: nat
      ensures Owed(vs, c) == Owed(us, c) + Occurs([m], c)
    {
      HeldUpdate(vs, n, us[n], |vs|, c);
      assert [m][..0] == [];
    }
    forall i | 0 <= i < |us| && i != n
      ensures !us[i].freed <==> Needed(us, i)
    {
      assert !vs[i].freed <==> Needed(vs, i);
    }
    assert Needed(vs, n);
  }

  /** Pin counts hold no references. */
  lemma PinsOnly(ctrl: map<nat, Ctrl>, vs: seq<Version>, n: nat, pins: nat)
    requires Accounts(ctrl, vs, [], []) && Apart(vs) && Tidy(vs) && n < |vs|
    ensures var us := vs[n := vs[n].(pins := pins)];
            Accounts(ctrl, us, [], []) && Apart(us) && Tidy(us)
  {
    var us := vs[n := vs[n].(pins := pins)];
    forall c: nat
      ensures Owed(vs, c) == Owed(us, c)
    {
      HeldUpdate(vs, n, us[n], |vs|, c);
    }
    SameOwed(ctrl, vs, us);
    SameNeeds(vs, n, pins);
    hide Accounts, Owed, Tidy;
  }

  lemma SameOwed(ctrl: map<nat, Ctrl>, vs: seq<Version>, us: seq<Version>)
    requires Accounts(ctrl, vs, [], []) && forall c :: Owed(vs, c) == Owed(us, c)
    ensures Accounts(ctrl, us, [], [])
  {
    hide Owed;
  }

  lemma SameNeeds(vs: seq<Version>, n: nat, pins: nat)
    requires Tidy(vs) && n < |vs|
    ensures Tidy(vs[n := vs[n].(pins := pins)])
  {
    var us := vs[n := vs[n].(pins := pins)];
    forall i | 0 <= i < |us|
      ensures !us[i].freed <==> Needed(us, i)
    {
      assert !vs[i].freed <==> Needed(vs, i);
    }
  }

  /** Without a live slot every manifest is freed, newest first. */
  lemma {:induction false} AllFreed(vs: seq<Version>, i: nat)
    requires Tidy(vs) && i < |vs| && forall k :: 0 <= k < |vs| ==> !vs[k].live
    ensures vs[i].freed
    decreases |vs| - i
  {
    if i + 1 < |vs| {
      AllFreed(vs, i + 1);
    }
    assert !Needed(vs, i);
  }

  lemma {:induction false} HoldsNothing(vs: seq<Version>, n: nat, c: nat)
    requires n <= |vs| && forall k :: 0 <= k < |vs| ==> vs[k].freed && !vs[k].live
    ensures Held(vs, n, c) == 0
  {
    if n > 0 {
      HoldsNothing(vs, n - 1, c);
    }
  }

  lemma NothingOwed(ctrl: map<nat, Ctrl>, vs: seq<Version>)
    requires Accounts(ctrl, vs, [], []) && Tidy(vs) && forall k :: 0 <= k < |vs| ==> !vs[k].live
    ensures forall c :: c in ctrl ==> !ctrl[c].Published?
  {
    forall k | 0 <= k < |vs|
      ensures vs[k].freed
    {
      AllFreed(vs, k);
    }
    forall c: nat
      ensures Owed(vs, c) == 0
    {
      HoldsNothing(vs, |vs|, c);
    }
  }

  /** Distinct chunks, all loaned to the committer. */
  ghost predicate Loans(ctrl: map<nat, Ctrl>, staged: seq<nat>) {
    && (forall i, j :: 0 <= i < j < |staged| ==> staged[i] != staged[j])
    && (forall c :: c in staged ==> c in ctrl && ctrl[c].Loaned?)
  }

  lemma TakenOne(ctrl: map<nat, Ctrl>, vs: seq<Version>, staged: seq<nat>, i: nat)
    requires i < |staged| && Accounts(ctrl, vs, staged[..i], [])
    requires staged[i] in ctrl && ctrl[staged[i]].Loaned?
    ensures Accounts(ctrl[staged[i] := Published(1)], vs, staged[..i + 1], [])
  {
    OneGone(staged, i);
    hide Owed;
  }

  lemma BorrowedOne(ctrl: map<nat, Ctrl>, vs: seq<Version>, extra: seq<nat>, c: nat)
    requires Accounts(ctrl, vs, extra, []) && c in ctrl && ctrl[c].Published?
    ensures Accounts(Borrow(ctrl, c), vs, extra + [c], [])
  {
    forall d: nat
      ensures Occurs(extra + [c], d) == Occurs(extra, d) + One(c == d)
    {
      OccursConcat(extra, [c], d);
      assert [c][..0] == [];
    }
    hide Owed;
  }

  lemma LiveStays(vs: seq<Version>, n: nat)
    requires Tidy(vs) && n < |vs| && vs[n].live
    ensures TidyBut(vs, n) && Cascade(vs, n) == vs
  {
    assert Needed(vs, n);
  }

  /** Two balanced books over the same versions agree on every chunk that is not on
      loan, so a failed commit leaves no trace but the returned chunks. */
  lemma RolledBack(before: map<nat, Ctrl>, ctrl: map<nat, Ctrl>, vs: seq<Version>, staged: seq<nat>)
    requires Accounts(before, vs, [], []) && Accounts(ctrl, vs, [], []) && ctrl.Keys == before.Keys
    requires Loans(before, staged)
    requires forall c :: c in ctrl ==> (ctrl[c].Loaned? <==> before[c].Loaned? && c !in staged)
    ensures ctrl == Returned(before, staged)
  {
    hide Owed;
    forall c | c in ctrl
      ensures ctrl[c] == if c in staged then Free else before[c]
    {
      assert Refs(ctrl[c]) == Refs(before[c]);
    }
  }

  /** An unfreed manifest is counted, so it is no chunk on loan. */
  lemma UnfreedCounted(vs: seq<Version>, i: nat)
    requires Apart(vs) && Tidy(vs) && i < |vs| && !vs[i].freed
    ensures Owed(vs, vs[i].manifest) > 0
  {
    assert Needed(vs, i);
    HeldManifest(vs, i, |vs|);
  }

  lemma StagedApart(ctrl: map<nat, Ctrl>, vs: seq<Version>, staged: seq<nat>)
    requires Accounts(ctrl, vs, [], []) && Apart(vs) && Tidy(vs) && Loans(ctrl, staged)
    ensures NoManifests(vs, staged)
  {
    hide Owed, Apart, Tidy;
    forall i | 0 <= i < |vs| && !vs[i].freed
      ensures vs[i].manifest !in staged
    {
      UnfreedCounted(vs, i);
    }
  }

  lemma LiveCounted(ctrl: map<nat, Ctrl>, vs: seq<Version>, n: nat, extra: seq<nat>)
    requires Accounts(ctrl, vs, extra, []) && Apart(vs) && Tidy(vs) && n < |vs| && vs[n].live
    ensures vs[n].manifest in ctrl && ctrl[vs[n].manifest].Published?
  {
    assert Needed(vs, n);
    UnfreedCounted(vs, n);
  }

  lemma ListedCounted(ctrl: map<nat, Ctrl>, vs: seq<Version>, kept: seq<nat>, extra: seq<nat>)
    requires Accounts(ctrl, vs, extra, []) && Listed(vs, kept)
    ensures forall c :: c in kept ==> c in ctrl && ctrl[c].Published?
  {
    forall c | c in kept
      ensures c in ctrl && ctrl[c].Published?
    {
      var i :| 0 <= i < |vs| && !vs[i].freed && c in vs[i].chunks;
      OccursIn(vs[i].chunks, c);
      HeldPositive(vs, |vs|, i, c);
    }
  }

  lemma ListedApart(vs: seq<Version>, staged: seq<nat>, kept: seq<nat>, k: nat)
    requires Apart(vs) && NoManifests(vs, staged) && Listed(vs, kept) && k <= |kept|
    ensures NoManifests(vs, staged + kept[..k])
  {
    assert forall c :: c in kept[..k] ==> c in kept;
  }

  /** Whatever a live version's manifest chain links is still there. */
  lemma {:induction false} ChainStays(vs: seq<Version>, i: nat, n: nat)
    requires Tidy(vs) && i <= n < |vs| && vs[n].live
    requires forall j :: i < j <= n ==> vs[j].linked
    ensures !vs[i].freed
    decreases n - i
  {
    if i < n {
      ChainStays(vs, i + 1, n);
    }
    assert Needed(vs, i);
  }

  lemma ManifestTaken(ctrl: map<nat, Ctrl>, vs: seq<Version>, staged: seq<nat>, kept: seq<nat>, link: Option<nat>,
                      manifest: nat)
    requires link.Some? ==> link.value < |vs|
    requires Accounts(ctrl, vs, Taken(vs, staged, kept, link, None), []) && manifest in ctrl && ctrl[manifest].Free?
    ensures Accounts(ctrl[manifest := Published(1)], vs, Taken(vs, staged, kept, link, Some(manifest)), [])
  {
    var held := Taken(vs, staged, kept, link, None);
    forall d: nat
      ensures Occurs(held + [manifest], d) == Occurs(held, d) + One(manifest == d)
    {
      OccursConcat(held, [manifest], d);
      assert [manifest][..0] == [];
    }
    hide Owed;
  }

  /** The references a commit took are exactly what its new version holds. */
  lemma NewBooks(before: map<nat, Ctrl>, ctrl: map<nat, Ctrl>, vs: seq<Version>, staged: seq<nat>, kept: seq<nat>,
                 link: Option<nat>, manifest: nat)
    requires Accounts(before, vs, [], []) && Apart(vs) && Tidy(vs)
    requires Loans(before, staged) && manifest in before && before[manifest].Free?
    requires kept == [] || Listed(vs, kept)
    requires link.Some? ==> link.value + 1 == |vs| && vs[link.value].live
    requires Accounts(ctrl, vs, Taken(vs, staged, kept, link, Some(manifest)), [])
    ensures var us := vs + [Version(manifest, kept + staged, link.Some?, true, 0, false)];
            Accounts(ctrl, us, [], []) && Apart(us) && Tidy(us)
  {
    NewCounts(vs, staged, kept, link, manifest);
    NewApart(before, vs, staged, kept, link.Some?, manifest);
    NewTidy(vs, staged, kept, link, manifest);
    hide Owed, Apart, Tidy, Occurs;
  }

  lemma NewCounts(vs: seq<Version>, staged: seq<nat>, kept: seq<nat>, link: Option<nat>, manifest: nat)
    requires link.Some? ==> link.value + 1 == |vs|
    ensures var us := vs + [Version(manifest, kept + staged, link.Some?, true, 0, false)];
            forall c :: Owed(us, c) == Owed(vs, c) + Occurs(Taken(vs, staged, kept, link, Some(manifest)), c)
  {
    var us := vs + [Version(manifest, kept + staged, link.Some?, true, 0, false)];
    var held := Taken(vs, staged, kept, link, None);
    forall c: nat
      ensures Owed(us, c) == Owed(vs, c) + Occurs(Taken(vs, staged, kept, link, Some(manifest)), c)
    {
      HeldSnoc(vs, us[|vs|], |vs|, c);
      OccursConcat(kept, staged, c);
      OccursConcat(staged, kept, c);
      OccursConcat(held, [manifest], c);
      assert [manifest][..0] == [];
      if link.Some? {
        OccursConcat(staged + kept, [vs[link.value].manifest], c);
        assert [vs[link.value].manifest][..0] == [];
      }
    }
  }

  lemma NewApart(before: map<nat, Ctrl>, vs: seq<Version>, staged: seq<nat>, kept: seq<nat>, linked: bool, manifest: nat)
    requires Accounts(before, vs, [], []) && Apart(vs) && Tidy(vs)
    requires Loans(before, staged) && manifest in before && before[manifest].Free?
    requires kept == [] || Listed(vs, kept)
    ensures Apart(vs + [Version(manifest, kept + staged, linked, true, 0, false)])
  {
    hide Owed, Tidy;
    var us := vs + [Version(manifest, kept + staged, linked, true, 0, false)];
    StagedApart(before, vs, staged);
    if kept != [] {
      ListedApart(vs, staged, kept, |kept|);
      assert kept[..|kept|] == kept;
      ListedCounted(before, vs, kept, []);
    }
    forall i | 0 <= i < |vs| && !vs[i].freed
      ensures vs[i].manifest != manifest && manifest !in vs[i].chunks && vs[i].manifest !in kept + staged
    {
      UnfreedCounted(vs, i);
      OneListed(before, vs, i, manifest);
    }
    assert manifest !in kept + staged;
  }

  lemma OneListed(before: map<nat, Ctrl>, vs: seq<Version>, i: nat, c: nat)
    requires Accounts(before, vs, [], []) && i < |vs| && !vs[i].freed && c in before && !before[c].Published?
    ensures c !in vs[i].chunks
  {
    OccursIn(vs[i].chunks, c);
    HeldPositive(vs, |vs|, i, c);
  }

  lemma NewTidy(vs: seq<Version>, staged: seq<nat>, kept: seq<nat>, link: Option<nat>, manifest: nat)
    requires Tidy(vs) && (link.Some? ==> link.value + 1 == |vs| && vs[link.value].live)
    ensures Tidy(vs + [Version(manifest, kept + staged, link.Some?, true, 0, false)])
  {
    var us := vs + [Version(manifest, kept + staged, link.Some?, true, 0, false)];
    forall i | 0 <= i < |us|
      ensures !us[i].freed <==> Needed(us, i)
    {
      if i < |vs| {
        assert !vs[i].freed <==> Needed(vs, i);
      }
    }
  }

  lemma LoansAre(ctrl: map<nat, Ctrl>, staged: seq<nat>)
    requires Loans(ctrl, staged)
    ensures forall c :: c in staged ==> c in ctrl && ctrl[c].Loaned?
  {
  }
}
