/** Two commits that lose a batch: the second re-roots over a table whose only batch has no
    chunks, and the shortcut for an empty chunk list drops that batch's span
    (crates/shm-artifact/src/artifact.rs, commit_staged_inner_j). */
module ChunklessBatch {
  import opened Common
  import opened Manifests
  import opened ChainWalk
  import opened Window
  import opened Lineage
  import opened Delta
  import opened Rewindow
  import opened Commits

  lemma {:induction false} RunsWithin(kept: seq<Kept>, top: nat)
    requires RunsOk(kept, top)
    ensures |kept| <= KeptSum(kept)
  {
    if |kept| > 0 {
      RunsWithin(kept[..|kept| - 1], kept[|kept| - 1].version - 1);
    }
  }

  /** The history of one version with one batch without chunks. */
  const FIRST: History := [Entry(Replace, [[]])]

  const M0: Manifest := Manifest(1, 1, 1, [], [0], None, 0, 1, 0, [])
  const S0: Staged := Staged(1, 1, [], [0], 1, 1)

  lemma Staged0()
    ensures Sum(S0.spans) == |S0.chunks| && Group(S0.chunks, S0.spans) == [[]]
  {
    var none: seq<ChunkDesc>, spans: seq<nat> := [], [];
    GroupSnoc(none, spans, none);
    Unit(none);
    assert spans + [0] == S0.spans;
    hide Group, Sum;
  }

  lemma First(resolve: Resolver)
    ensures Sum(S0.spans) == |S0.chunks| && EntryOf(Replace, S0) == FIRST[0]
    ensures NextManifest(None, Replace, S0, resolve) == Ok(M0)
    ensures Represents(FIRST, [M0]) && Faithful(FIRST, [M0], 1, resolve) && Countable(FIRST)
  {
    Staged0();
    hide Group, Sum;
    assert NextManifest(None, Replace, S0, resolve) == Ok(M0);
    NothingCommitted();
    assert Countable([]);
    hide NextManifest, Represents, Countable;
    CommitRepresents([], [], Replace, S0, resolve, M0);
    assert [] + [EntryOf(Replace, S0)] == FIRST && [] + [M0] == [M0];
    FirstTable();
    NothingToResolve(resolve);
  }

  lemma NothingToResolve(resolve: Resolver)
    ensures Faithful(FIRST, [M0], 1, resolve)
  {
    assert Root(FIRST, 1) == 1;
  }

  lemma FirstTable()
    ensures |Table(FIRST, 1)| == 1 && BatchesOf(Table(FIRST, 1)) == [[]]
    ensures Countable(FIRST) && !Whole(Last(Table(FIRST, 1), 1))
  {
    OwnVersions(FIRST, 1);
    OwnCount(FIRST, 1);
    assert Kind(FIRST, 1) == Replace;
    assert Table(FIRST, 1) == Own(FIRST, 1);
    hide Own, BatchesOf;
    assert Countable(FIRST);
    hide Table;
    LastAll(Table(FIRST, 1), 1);
    hide Last, Countable;
    LoneBatch(Table(FIRST, 1));
  }

  lemma LoneBatch(items: seq<Item>)
    requires |items| == 1 && BatchesOf(items) == [[]]
    ensures !Whole(items)
  {
    hide BatchesOf;
    var none: seq<Batch> := [];
    CountSnoc(none, []);
    assert none + [[]] == BatchesOf(items);
    hide ChunkCount;
    NoneCounted();
  }

  lemma NoneCounted()
    ensures ChunkCount([]) == 0
  {
  }

  /** The shortcut does lose batches: after a version of one chunkless batch, a re-rooting
      commit that keeps it is accepted, and its manifest no longer represents the history. */
  lemma ChunklessBatchLost(s: Staged, resolve: Resolver) returns (m: Manifest)
    requires s.artifactId == 1 && s.schemaId == 1 && Sum(s.spans) == |s.chunks| <= U32_MAX && 1 <= |s.spans| <= U32_MAX
    ensures NextManifest(Some(M0), Rewindow(1), s, resolve) == Ok(m)
    ensures var h := FIRST + [EntryOf(Rewindow(1), s)];
            |Table(h, 2)| == 1 + |s.spans| && m.spans == s.spans && !Represents(h, [M0, m])
  {
    hide *;
    First(resolve);
    FirstTable();
    OneVersion();
    var w := WindowIsExact(FIRST, [M0], 1, 1, resolve);
    Refit(w, resolve, s);
    Accepted(w, s, resolve);
    m := NextManifest(Some(M0), Rewindow(1), s, resolve).value;
    Rebuilt(w, s, resolve, m);
  }

  lemma OneVersion()
    ensures |FIRST| == 1 && |[M0]| == 1 && At([M0], 1) == M0 && Newest([M0]) == Some(M0) && M0.version == 1
    ensures |Table(FIRST, 1)| <= U32_MAX
  {
    FirstTable();
  }

  lemma Accepted(w: WindowSet, s: Staged, resolve: Resolver)
    requires s.artifactId == 1 && s.schemaId == 1 && Sum(s.spans) == |s.chunks| <= U32_MAX && 1 <= |s.spans| <= U32_MAX
    requires WindowFor(M0, 1, resolve) == Ok(w) && OwnLists(w, s) == (s.chunks, s.spans) && |w.members| <= 1
    ensures NextManifest(Some(M0), Rewindow(1), s, resolve).Ok?
  {
    First(resolve);
    FirstTable();
    OneVersion();
    hide NextManifest, WindowFor, Table, Whole, Represents, Faithful, Countable, OwnLists, Last;
    LastOfOne(Table(FIRST, 1));
    RefusedOnlyFor(FIRST, [M0], Rewindow(1), s, resolve);
  }

  lemma LastOfOne(items: seq<Item>)
    requires |items| == 1
    ensures |Last(items, 1)| == 1
  {
  }

  /** The accepted manifest lists the staged batches alone. */
  lemma Rebuilt(w: WindowSet, s: Staged, resolve: Resolver, m: Manifest)
    requires Sum(s.spans) == |s.chunks| && WindowFor(M0, 1, resolve) == Ok(w) && w.base >= 0
    requires OwnLists(w, s) == (s.chunks, s.spans)
    requires NextManifest(Some(M0), Rewindow(1), s, resolve) == Ok(m)
    ensures var h := FIRST + [EntryOf(Rewindow(1), s)];
            |Table(h, 2)| == 1 + |s.spans| && m.spans == s.spans && !Represents(h, [M0, m])
  {
    First(resolve);
    FirstTable();
    OneVersion();
    var e := EntryOf(Rewindow(1), s);
    TwoTables(e);
    hide NextManifest, WindowFor, Table, Whole, Represents, Faithful, Countable, OwnLists, Last;
    RewindowWrites([M0], 1, s, resolve, w, m);
    CommitRepresents(FIRST, [M0], Rewindow(1), s, resolve, m);
    assert [M0] + [m] == [M0, m];
  }

  lemma TwoTables(e: Entry)
    requires e.commit == Rewindow(1)
    ensures |Table(FIRST + [e], 2)| == 1 + |e.batches|
  {
    FirstTable();
    TableStable(FIRST, e, 1);
    OwnCount(FIRST + [e], 2);
    LastOfOne(Table(FIRST, 1));
    hide Last, Own;
    assert Kind(FIRST + [e], 2) == Rewindow(1);
  }

  lemma Refit(w: WindowSet, resolve: Resolver, s: Staged)
    requires WindowKeeps(FIRST, 1, w, Last(Table(FIRST, 1), 1)) && !Whole(Last(Table(FIRST, 1), 1))
    requires |Table(FIRST, 1)| == 1
    ensures OwnLists(w, s) == (s.chunks, s.spans) && |w.members| <= 1 && w.base >= 0
  {
    var items := Last(Table(FIRST, 1), 1);
    WholeIff(FIRST, 1, w, items);
    KeptAre(FIRST, 1, w, items);
    RunsWithin(w.members, 1);
  }
}
