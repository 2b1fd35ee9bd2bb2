/** The books as functions: taking and giving back references one by one, as a commit and a
    release do, keeps every count what is owed (crates/shm-artifact/src/artifact.rs,
    commit_staged_inner_j and release_manifest_ref). */
module Ledger {
  import opened Common
  import opened References

  // ---- Giving back ----

  lemma {:induction false} DecAllAccounts(ctrl: map<nat, Ctrl>, vs: seq<Version>, extra: seq<nat>, list: seq<nat>, i: nat)
    requires i <= |list| && Accounts(ctrl, vs, extra + list, [])
    ensures Accounts(DecAll(ctrl, list[..i]), vs, extra + list, list[..i])
    decreases i
  {
    hide Accounts, Dec;
    if i == 0 {
      assert list[..0] == [];
    } else {
      DecAllAccounts(ctrl, vs, extra, list, i - 1);
      var left := DecAll(ctrl, list[..i - 1]);
      StillCounted(left, vs, extra, list, i - 1);
      ReleasedOne(left, vs, extra + list, list, i - 1);
      assert list[..i][..i - 1] == list[..i - 1];
    }
  }

  lemma AllReleased(ctrl: map<nat, Ctrl>, vs: seq<Version>, extra: seq<nat>, list: seq<nat>)
    requires Accounts(ctrl, vs, extra + list, [])
    ensures Accounts(DecAll(ctrl, list), vs, extra, [])
  {
    hide Accounts, DecAll;
    DecAllAccounts(ctrl, vs, extra, list, |list|);
    assert list[..|list|] == list;
    AllGone(DecAll(ctrl, list), vs, extra, list);
  }

  /** The last reference frees the manifest, and leaves what it links to be released. */
  lemma LastReleased(ctrl: map<nat, Ctrl>, vs: seq<Version>, n: nat)
    requires TidyBut(vs, n) && Apart(vs) && Accounts(ctrl, vs, [vs[n].manifest], []) && !Needed(vs, n)
    ensures var left, us := DecAll(Dec(ctrl, vs[n].manifest), vs[n].chunks), Freed(vs, n);
            if vs[n].linked && n > 0 then
              && TidyBut(us, n - 1) && Apart(us) && Accounts(left, us, [us[n - 1].manifest], [])
              && Cascade(vs, n) == Cascade(us, n - 1)
            else
              Accounts(left, us, [], []) && Apart(us) && Tidy(us) && Cascade(vs, n) == us
  {
    Counted(ctrl, vs, n);
    hide *;
    var m := vs[n].manifest;
    var next := if vs[n].linked && n > 0 then [vs[n - 1].manifest] else [];
    FreeOne(Dec(ctrl, m), vs, n, []);
    Unit(next);
    AllReleased(Dec(ctrl, m), Freed(vs, n), next, vs[n].chunks);
    FreedElsewhere(vs, n);
  }

  lemma FreedElsewhere(vs: seq<Version>, n: nat)
    requires n < |vs|
    ensures |Freed(vs, n)| == |vs| && (n > 0 ==> Freed(vs, n)[n - 1] == vs[n - 1])
  {
  }

  /** Following a released reference down the chain frees exactly what nothing needs. */
  lemma {:induction false} ChainReleased(ctrl: map<nat, Ctrl>, vs: seq<Version>, n: nat)
    requires TidyBut(vs, n) && Apart(vs) && Accounts(ctrl, vs, [vs[n].manifest], [])
    ensures var (left, us) := ReleaseChain(ctrl, vs, n);
            Accounts(left, us, [], []) && Apart(us) && Tidy(us) && us == Cascade(vs, n)
    decreases n
  {
    hide Accounts, Apart, TidyBut, Tidy, Cascade, Needed, Dec, DecAll;
    Counted(ctrl, vs, n);
    var m := vs[n].manifest;
    if ctrl[m].refs <= 1 {
      LastReleased(ctrl, vs, n);
      if vs[n].linked && n > 0 {
        ChainReleased(DecAll(Dec(ctrl, m), vs[n].chunks), Freed(vs, n), n - 1);
      }
    } else {
      StillNeeded(vs, n);
    }
  }

  lemma Counted(ctrl: map<nat, Ctrl>, vs: seq<Version>, n: nat)
    requires TidyBut(vs, n) && Apart(vs) && Accounts(ctrl, vs, [vs[n].manifest], [])
    ensures n < |vs| && NoManifests(vs, [])
    ensures var m := vs[n].manifest;
            && m in ctrl && ctrl[m].Published? && (ctrl[m].refs <= 1 <==> !Needed(vs, n))
            && Accounts(Dec(ctrl, m), vs, [], [])
  {
    var m := vs[n].manifest;
    Unit([m]);
    ManifestCounted(ctrl, vs, n, []);
    ReleasedLast(ctrl, vs, [], m);
  }

  // ---- Taking ----

  lemma {:induction false} PublishEachAccounts(ctrl: map<nat, Ctrl>, vs: seq<Version>, staged: seq<nat>, i: nat)
    requires i <= |staged| && Loans(ctrl, staged) && Accounts(ctrl, vs, [], [])
    ensures var now := PublishEach(ctrl, staged[..i]);
            && Accounts(now, vs, staged[..i], []) && now.Keys == ctrl.Keys
            && forall c :: c in ctrl ==> now[c] == if c in staged[..i] then Published(1) else ctrl[c]
    decreases i
  {
    hide Accounts;
    if i == 0 {
      assert staged[..0] == [];
    } else {
      PublishEachAccounts(ctrl, vs, staged, i - 1);
      assert staged[..i][..i - 1] == staged[..i - 1];
      assert staged[..i] == staged[..i - 1] + [staged[i - 1]];
      assert staged[i - 1] !in staged[..i - 1];
      TakenOne(PublishEach(ctrl, staged[..i - 1]), vs, staged, i - 1);
    }
  }

  lemma {:induction false} BorrowEachAccounts(ctrl: map<nat, Ctrl>, vs: seq<Version>, extra: seq<nat>, list: seq<nat>, i: nat)
    requires i <= |list| && Accounts(ctrl, vs, extra, [])
    requires forall c :: c in list ==> c in ctrl && ctrl[c].Published?
    ensures var now := BorrowEach(ctrl, list[..i]);
            && Accounts(now, vs, extra + list[..i], []) && now.Keys == ctrl.Keys
            && (forall c :: c in ctrl ==> (now[c].Published? <==> ctrl[c].Published?))
            && forall c :: c in ctrl && !ctrl[c].Published? ==> now[c] == ctrl[c]
    decreases i
  {
    hide Accounts;
    if i == 0 {
      assert list[..0] == [];
      Unit(extra);
    } else {
      BorrowEachAccounts(ctrl, vs, extra, list, i - 1);
      assert list[..i][..i - 1] == list[..i - 1];
      BorrowedOne(BorrowEach(ctrl, list[..i - 1]), vs, extra + list[..i - 1], list[i - 1]);
      assert extra + list[..i] == extra + list[..i - 1] + [list[i - 1]];
    }
  }

  /** The control words once a commit has taken all its references: the staged chunks', the
      kept chunks', the link's on the prior manifest, and its own manifest's. */
  function Take(ctrl: map<nat, Ctrl>, vs: seq<Version>, staged: seq<nat>, kept: seq<nat>, link: Option<nat>, manifest: nat):
    map<nat, Ctrl>
    requires link.Some? ==> link.value < |vs|
  {
    var data := BorrowEach(PublishEach(ctrl, staged), kept);
    (if link.Some? then Borrow(data, vs[link.value].manifest) else data)[manifest := Published(1)]
  }

  lemma TakeAccounts(ctrl: map<nat, Ctrl>, vs: seq<Version>, staged: seq<nat>, kept: seq<nat>, link: Option<nat>, manifest: nat)
    requires Accounts(ctrl, vs, [], []) && Apart(vs) && Tidy(vs)
    requires Loans(ctrl, staged) && manifest in ctrl && ctrl[manifest].Free?
    requires Listed(vs, kept)
    requires link.Some? ==> link.value < |vs| && vs[link.value].live
    ensures Accounts(Take(ctrl, vs, staged, kept, link, manifest), vs, Taken(vs, staged, kept, link, Some(manifest)), [])
  {
    hide Accounts, Apart, Tidy, PublishEach, BorrowEach, Listed;
    var published := PublishEach(ctrl, staged);
    assert staged[..|staged|] == staged && kept[..|kept|] == kept;
    PublishEachAccounts(ctrl, vs, staged, |staged|);
    ListedCounted(published, vs, kept, staged);
    BorrowEachAccounts(published, vs, staged, kept, |kept|);
    var data := BorrowEach(published, kept);
    if link.Some? {
      LiveCounted(data, vs, link.value, staged + kept);
      BorrowedOne(data, vs, staged + kept, vs[link.value].manifest);
    }
    ManifestTaken(if link.Some? then Borrow(data, vs[link.value].manifest) else data, vs, staged, kept, link, manifest);
  }
}
