/** What a commit writes: the manifest of the next version, from the prior one
    (crates/shm-artifact/src/artifact.rs, commit_staged_inner_j, and
    crates/shm-artifact/src/manifest.rs, write_manifest), and the proof that every
    run of commits keeps the manifests representing the history. */
module Commits {
  import opened Common
  import opened Manifests
  import opened ChainWalk
  import opened Window
  import opened Lineage
  import opened Delta
  import opened Rewindow

  /** What the committer brings to a commit. */
  datatype Staged = Staged(
    artifactId: nat, schemaId: nat, chunks: seq<ChunkDesc>, spans: seq<nat>, mref: nat, generation: nat)

  /** A manifest as it reads back once written; the totals are 32-bit. */
  function Write(s: Staged, version: nat, chunks: seq<ChunkDesc>, spans: seq<nat>,
                 link: Option<Link>, window: Option<(nat, seq<Kept>)>): Result<Manifest, Error>
  {
    var base := if window.Some? then window.value.0 else 0;
    var kept := if window.Some? then window.value.1 else [];
    if |chunks| > U32_MAX || |spans| > U32_MAX || |kept| > U32_MAX then Err(Unsupported)
    else if link.Some? then
      var l := link.value;
      if l.version >= version || l.version == 0 || l.mref == 0 || window.Some? || l.depth >= U32_MAX then
        Err(Unsupported)
      else
        var total := Min(U32_MAX, |spans| + l.total);
        Ok(Manifest(s.artifactId, version, s.schemaId, chunks, spans,
                    Some(Link(l.version, l.mref, l.generation, l.depth, total - |spans|)),
                    l.depth + 1, total, 0, []))
    else if !WindowOk(version, base, kept, |spans|) then Err(Unsupported)
    else Ok(Manifest(s.artifactId, version, s.schemaId, chunks, spans, None, 0, |spans|, base, kept))
  }

  /** Kept batches first, then the staged ones; nothing kept, nothing prepended. */
  function OwnLists(w: WindowSet, s: Staged): (seq<ChunkDesc>, seq<nat>) {
    if w.chunks == [] then (s.chunks, s.spans) else (w.chunks + s.chunks, w.spans + s.spans)
  }

  /** The manifest of the version after `prior`. */
  function NextManifest(prior: Option<Manifest>, commit: Commit, s: Staged, resolve: Resolver): Result<Manifest, Error> {
    if prior.None? then Write(s, 1, s.chunks, s.spans, None, None)
    else
      var p := prior.value;
      match commit
      case Replace => Write(s, p.version + 1, s.chunks, s.spans, None, None)
      case Append =>
        if p.artifactId != s.artifactId then Err(Conflict)
        else if p.schemaId != s.schemaId then Err(Unsupported)
        else Write(s, p.version + 1, s.chunks, s.spans, Some(p.LinkFrom(s.mref, s.generation)), None)
      case Rewindow(keep) =>
        if p.artifactId != s.artifactId then Err(Conflict)
        else if p.schemaId != s.schemaId then Err(Unsupported)
        else match WindowFor(p, keep, resolve)
          case Err(_) => Err(Conflict)
          case Ok(w) =>
            if w.base < 0 then Err(Unsupported)
            else
              var own := OwnLists(w, s);
              Write(s, p.version + 1, own.0, own.1, None, Some((w.base, w.members)))
  }

  /** The commit path up to the install: resolve the link or collect the window,
      lay out the lists, validate and write. */
  method ComposeManifest(prior: Option<Manifest>, commit: Commit, s: Staged, resolve: Resolver)
    returns (r: Result<Manifest, Error>)
    ensures r == NextManifest(prior, commit, s, resolve)
  {
    var link: Option<Link> := None;
    var window: Option<(nat, seq<Kept>)> := None;
    var chunks, spans := s.chunks, s.spans;
    var version := 1;
    if prior.Some? {
      var p := prior.value;
      version := p.version + 1;
      if commit.Append? {
        if p.artifactId != s.artifactId {
          return Err(Conflict);
        }
        if p.schemaId != s.schemaId {
          return Err(Unsupported);
        }
        link := Some(p.LinkFrom(s.mref, s.generation));
      }
      if commit.Rewindow? {
        if p.artifactId != s.artifactId {
          return Err(Conflict);
        }
        if p.schemaId != s.schemaId {
          return Err(Unsupported);
        }
        var collected := CollectWindow(p, commit.keep, resolve);
        if collected.Err? {
          return Err(Conflict);
        }
        var w := collected.value;
        if w.base < 0 {
          return Err(Unsupported);
        }
        window := Some((w.base as nat, w.members));
        if w.chunks != [] {
          chunks, spans := w.chunks + s.chunks, w.spans + s.spans;
        }
      }
    }
    return Write(s, version, chunks, spans, link, window);
  }

  // ---- A longer history agrees with its prefix ----

  lemma KindStable(h: History, e: Entry, n: nat)
    requires 1 <= n <= |h|
    ensures Kind(h + [e], n) == Kind(h, n)
    ensures Own(h + [e], n) == Own(h, n)
    ensures Linked(h + [e], n) == Linked(h, n)
    ensures PlainRoot(h + [e], n) == PlainRoot(h, n)
  {
    assert (h + [e])[n - 1] == h[n - 1];
  }

  lemma {:induction false} TableStable(h: History, e: Entry, n: nat)
    requires n <= |h|
    ensures Table(h + [e], n) == Table(h, n)
  {
    hide Own, Last, Kind;
    if n > 0 {
      KindStable(h, e, n);
      TableStable(h, e, n - 1);
    }
  }

  lemma {:induction false} AddedStable(h: History, e: Entry, s: nat, n: nat)
    requires n <= |h|
    ensures Added(h + [e], s, n) == Added(h, s, n)
  {
    if n > s {
      KindStable(h, e, n);
      AddedStable(h, e, s, n - 1);
    }
  }

  lemma ExactStable(h: History, e: Entry, s: nat, n: nat, items: seq<Item>)
    requires n <= |h|
    ensures Exact(h + [e], s, n, items) <==> Exact(h, s, n, items)
  {
    AddedStable(h, e, s, n);
    assert NoReplace(h + [e], s, n) <==> NoReplace(h, s, n) by {
      forall v | s < v <= n
        ensures Kind(h + [e], v) == Kind(h, v)
      {
        KindStable(h, e, v);
      }
    }
  }

  lemma AtStable(ms: seq<Manifest>, m: Manifest, n: nat)
    requires 1 <= n <= |ms|
    ensures At(ms + [m], n) == At(ms, n)
  {
  }

  /** Older versions stay represented. */
  lemma OlderStay(h: History, ms: seq<Manifest>, e: Entry, m: Manifest, n: nat)
    requires Represents(h, ms) && 1 <= n <= |h|
    ensures RepresentsAt(h + [e], ms + [m], n)
  {
    assert RepresentsAt(h, ms, n);
    KindStable(h, e, n);
    AtStable(ms, m, n);
    assert (h + [e])[n - 1] == h[n - 1];
    if Linked(h, n) {
      AtStable(ms, m, n - 1);
    } else {
      TableStable(h, e, n);
      ExactStable(h, e, At(ms, n).windowBase, n, Table(h, n));
    }
  }

  lemma RepresentsSnoc(h: History, ms: seq<Manifest>, e: Entry, m: Manifest)
    requires Represents(h, ms)
    requires RepresentsAt(h + [e], ms + [m], |h| + 1)
    ensures Represents(h + [e], ms + [m])
  {
    forall n | 1 <= n <= |h + [e]|
      ensures RepresentsAt(h + [e], ms + [m], n)
    {
      if n <= |h| {
        OlderStay(h, ms, e, m, n);
      }
    }
  }

  // ---- The three kinds of commit ----

  ghost function EntryOf(commit: Commit, s: Staged): Entry
    requires Sum(s.spans) == |s.chunks|
  {
    Entry(commit, Group(s.chunks, s.spans))
  }

  /** A first or replacing version. */
  lemma PlainCommit(h: History, ms: seq<Manifest>, commit: Commit, s: Staged, m: Manifest)
    requires |ms| == |h| && Sum(s.spans) == |s.chunks|
    requires |h| == 0 || commit.Replace?
    requires Write(s, |h| + 1, s.chunks, s.spans, None, None) == Ok(m)
    ensures RepresentsAt(h + [EntryOf(commit, s)], ms + [m], |h| + 1)
  {
    var h', n := h + [EntryOf(commit, s)], |h| + 1;
    OwnVersions(h', n);
    PlainTable(h', n);
    assert Table(h', n)[..0] == [];
    Unit(Own(h', n));
  }

  lemma PlainTable(h: History, n: nat)
    requires 1 <= n <= |h| && PlainRoot(h, n)
    ensures Table(h, n) == Own(h, n)
  {
    Unit(Own(h, n));
    if n == 1 && Kind(h, 1).Rewindow? {
      assert Last(Table(h, 0), Kind(h, 1).keep) == [];
    }
  }

  lemma AppendCommit(h: History, ms: seq<Manifest>, s: Staged, m: Manifest)
    requires Represents(h, ms) && |h| > 0 && Sum(s.spans) == |s.chunks|
    requires var p := At(ms, |h|);
             && p.artifactId == s.artifactId && p.schemaId == s.schemaId
             && Write(s, |h| + 1, s.chunks, s.spans, Some(p.LinkFrom(s.mref, s.generation)), None) == Ok(m)
    ensures RepresentsAt(h + [EntryOf(Append, s)], ms + [m], |h| + 1)
  {
    LinkVersion(h, ms, |h|);
    AtStable(ms, m, |h|);
  }

  // ---- Re-rooting commits ----

  /** The chunks of a list of batches. */
  function ChunkCount(batches: seq<Batch>): nat {
    if |batches| == 0 then 0 else ChunkCount(batches[..|batches| - 1]) + |batches[|batches| - 1]|
  }

  lemma {:induction false} GroupCount(chunks: seq<ChunkDesc>, spans: seq<nat>)
    requires Sum(spans) == |chunks|
    ensures ChunkCount(Group(chunks, spans)) == |chunks|
    decreases |spans|
  {
    if |spans| > 0 {
      var k := spans[|spans| - 1];
      GroupCount(chunks[..|chunks| - k], spans[..|spans| - 1]);
      CountSnoc(Group(chunks[..|chunks| - k], spans[..|spans| - 1]), Last(chunks, k));
    }
  }

  lemma CountSnoc(batches: seq<Batch>, batch: Batch)
    ensures ChunkCount(batches + [batch]) == ChunkCount(batches) + |batch|
  {
    assert (batches + [batch])[..|batches|] == batches;
  }

  /** The batches are none, or hold some chunk between them. */
  predicate Whole(items: seq<Item>) {
    items == [] || ChunkCount(BatchesOf(items)) > 0
  }

  /** The commit does not re-root over batches that have no chunk between them. */
  ghost predicate KeepsChunks(h: History, commit: Commit) {
    |h| > 0 && commit.Rewindow? ==> Whole(Last(Table(h, |h|), commit.keep))
  }

  /** No commit of the history does. */
  ghost predicate Chunked(h: History) {
    forall n :: 1 < n <= |h| && Kind(h, n).Rewindow? ==> Whole(Last(Table(h, n - 1), Kind(h, n).keep))
  }

  /** A window lists no chunks exactly when what it keeps has none. */
  lemma WholeIff(h: History, v: nat, w: WindowSet, items: seq<Item>)
    requires 1 <= v <= |h| && WindowKeeps(h, v, w, items)
    ensures |w.spans| == |items| && (Whole(items) <==> w.chunks != [] || w.spans == [])
  {
    GroupCount(w.chunks, w.spans);
    hide BaseOk, RunsOk;
  }

  /** The shortcut for an empty kept list loses batches exactly when the window
      kept some that have no chunks at all. */
  lemma ShortcutLoses(w: WindowSet, s: Staged)
    requires Sum(w.spans) == |w.chunks|
    ensures OwnLists(w, s).1 == w.spans + s.spans <==> w.chunks != [] || w.spans == []
  {
    if w.spans == [] {
      Unit(s.spans);
    }
  }

  lemma OwnListsAre(h: History, v: nat, w: WindowSet, items: seq<Item>, s: Staged)
    requires 1 <= v <= |h| && WindowKeeps(h, v, w, items) && Whole(items)
    requires Sum(s.spans) == |s.chunks|
    ensures var own := OwnLists(w, s);
            && Sum(own.1) == |own.0|
            && Group(own.0, own.1) == BatchesOf(items) + Group(s.chunks, s.spans)
            && |own.1| == |items| + |s.spans|
  {
    WholeIff(h, v, w, items);
    if w.chunks == [] {
      Unit(Group(s.chunks, s.spans));
    } else {
      GroupConcat(w.chunks, w.spans, s.chunks, s.spans);
    }
  }

  /** What a window keeps always passes the validator for the next version. */
  lemma WindowAlwaysOk(h: History, v: nat, w: WindowSet, items: seq<Item>, batchCount: nat)
    requires 1 <= v <= |h| && WindowKeeps(h, v, w, items) && |items| <= batchCount
    ensures WindowOk(v + 1, w.base, w.members, batchCount)
  {
    var kept := w.members;
    forall i | 0 <= i < |kept|
      ensures kept[i].batches > 0 && kept[i].pad == 0 && kept[i].version < v + 1
    {
      RunsBound(kept, v, i);
    }
    forall i, j | 0 <= i < j < |kept|
      ensures kept[i].version < kept[j].version
    {
      RunsIncrease(kept, v, i, j);
    }
    assert |Expand(kept)| == |Tags(items)|;
  }

  lemma RewindowCommit(h: History, ms: seq<Manifest>, keep: nat, w: WindowSet, s: Staged, m: Manifest)
    requires |ms| == |h| > 0 && Sum(s.spans) == |s.chunks|
    requires WindowKeeps(h, |h|, w, Last(Table(h, |h|), keep)) && Whole(Last(Table(h, |h|), keep))
    requires var own := OwnLists(w, s);
             Write(s, |h| + 1, own.0, own.1, None, Some((w.base, w.members))) == Ok(m)
    ensures RepresentsAt(h + [EntryOf(Rewindow(keep), s)], ms + [m], |h| + 1)
  {
    hide Table, Last, Exact, WindowOk, RootWindow, RunsOk, Whole;
    var e, n, items := EntryOf(Rewindow(keep), s), |h| + 1, Last(Table(h, |h|), keep);
    OwnListsAre(h, |h|, w, items, s);
    Rewindowed(h, e, items, w.base);
    NewRoot(h + [e], n, m, items, w);
  }

  /** A re-rooting version's table, and what it is exact for. */
  lemma Rewindowed(h: History, e: Entry, items: seq<Item>, base: nat)
    requires |h| > 0 && e.commit.Rewindow? && items == Last(Table(h, |h|), e.commit.keep)
    requires 1 <= base <= |h| && Exact(h, base, |h|, items)
    ensures var h', n := h + [e], |h| + 1;
            && Table(h', n) == items + Own(h', n) && BatchesOf(Table(h', n)) == BatchesOf(items) + e.batches
            && Exact(h', base, n, items + Own(h', n))
  {
    var h', n := h + [e], |h| + 1;
    TableStable(h, e, |h|);
    OwnVersions(h', n);
    BatchesOfConcat(items, Own(h', n));
    ExactStable(h, e, base, |h|, items);
    ExactExtend(h', base, n, items);
  }

  /** The window a re-rooting commit writes is right for its version. */
  lemma NewRoot(h: History, n: nat, m: Manifest, items: seq<Item>, w: WindowSet)
    requires 1 < n <= |h| && Kind(h, n).Rewindow? && Table(h, n) == items + Own(h, n)
    requires Expand(w.members) == Tags(items) && RunsOk(w.members, n - 1)
    requires m.kept == w.members && 1 <= w.base == m.windowBase < n && (w.members != [] ==> w.base <= w.members[0].version)
    requires Exact(h, w.base, n, items + Own(h, n))
    ensures RootWindow(h, m, n)
  {
    hide Exact, Table, RunsOk, Own;
    NewWindow(h, n, items, w);
  }

  lemma NewWindow(h: History, n: nat, items: seq<Item>, w: WindowSet)
    requires 1 < n <= |h| && Table(h, n) == items + Own(h, n)
    requires Expand(w.members) == Tags(items) && RunsOk(w.members, n - 1)
    ensures KeptSum(w.members) == |items|
    ensures Table(h, n)[..KeptSum(w.members)] == items
  {
    assert |Expand(w.members)| == |items|;
  }

  // ---- Runs of commits ----

  /** One successful commit: its kind, what was staged, and how links resolved. */
  datatype Step = Step(commit: Commit, staged: Staged, resolve: Resolver)

  ghost predicate Partitions(steps: seq<Step>) {
    forall i :: 0 <= i < |steps| ==> Sum(steps[i].staged.spans) == |steps[i].staged.chunks|
  }

  /** The history a run of commits makes. */
  ghost function HistoryOf(steps: seq<Step>): (h: History)
    requires Partitions(steps)
    ensures |h| == |steps|
  {
    if |steps| == 0 then []
    else
      var step := steps[|steps| - 1];
      HistoryOf(steps[..|steps| - 1]) + [EntryOf(step.commit, step.staged)]
  }

  function Newest(ms: seq<Manifest>): Option<Manifest> {
    if |ms| == 0 then None else Some(ms[|ms| - 1])
  }

  /** `ms` are the manifests the commits of a run wrote, one after the other, each
      resolving the links of the chain it read. */
  ghost predicate Wrote(steps: seq<Step>, ms: seq<Manifest>)
    requires Partitions(steps)
  {
    |ms| == |steps|
    && (|steps| > 0 ==>
          var n := |steps| - 1;
          var step := steps[n];
          && Wrote(steps[..n], ms[..n])
          && (n > 0 ==> Faithful(HistoryOf(steps[..n]), ms[..n], n, step.resolve))
          && NextManifest(Newest(ms[..n]), step.commit, step.staged, step.resolve) == Ok(ms[n]))
  }

  /** No table outgrows the 32-bit batch counter. */
  ghost predicate Countable(h: History) {
    forall n :: 0 <= n <= |h| ==> |Table(h, n)| <= U32_MAX
  }

  lemma PrefixRules(h: History, e: Entry)
    requires Chunked(h + [e]) && Countable(h + [e])
    ensures Chunked(h) && Countable(h) && KeepsChunks(h, e.commit)
  {
    hide Whole, Table, Last;
    forall n | 0 <= n <= |h|
      ensures |Table(h, n)| <= U32_MAX
    {
      TableStable(h, e, n);
    }
    forall n | 1 < n <= |h| && Kind(h, n).Rewindow?
      ensures Whole(Last(Table(h, n - 1), Kind(h, n).keep))
    {
      KindStable(h, e, n);
      TableStable(h, e, n - 1);
    }
    TableStable(h, e, |h|);
    assert |h| > 0 ==> Kind(h + [e], |h| + 1) == e.commit;
  }

  /** A re-rooting commit that keeps chunkless batches loses them. */
  lemma ChunklessLost(h: History, ms: seq<Manifest>, keep: nat, w: WindowSet, s: Staged, m: Manifest)
    requires |ms| == |h| > 0 && Sum(s.spans) == |s.chunks|
    requires WindowKeeps(h, |h|, w, Last(Table(h, |h|), keep)) && !Whole(Last(Table(h, |h|), keep))
    requires m.spans == OwnLists(w, s).1
    ensures !RepresentsAt(h + [EntryOf(Rewindow(keep), s)], ms + [m], |h| + 1)
  {
    hide Last, Exact, RunsOk, BaseOk, RootWindow;
    var e, n, items := EntryOf(Rewindow(keep), s), |h| + 1, Last(Table(h, |h|), keep);
    WholeIff(h, |h|, w, items);
    TableStable(h, e, |h|);
    var h' := h + [e];
    assert |Table(h', n)| == |items| + |Own(h', n)|;
    OwnCount(h', n);
  }

  lemma OwnCount(h: History, n: nat)
    requires 1 <= n <= |h|
    ensures |Own(h, n)| == |h[n - 1].batches|
  {
    OwnVersions(h, n);
  }

  /** A commit keeps the manifests representing the history exactly when it does not re-root
      over chunkless batches. */
  lemma CommitRepresents(h: History, ms: seq<Manifest>, commit: Commit, s: Staged, resolve: Resolver, m: Manifest)
    requires Represents(h, ms) && Sum(s.spans) == |s.chunks|
    requires |h| > 0 ==> Faithful(h, ms, |h|, resolve)
    requires Countable(h)
    requires NextManifest(Newest(ms), commit, s, resolve) == Ok(m)
    ensures Represents(h + [EntryOf(commit, s)], ms + [m]) <==> KeepsChunks(h, commit)
  {
    var n := |h|;
    if n > 0 {
      LinkVersion(h, ms, n);
    }
    if n == 0 || commit.Replace? {
      PlainCommit(h, ms, commit, s, m);
      RepresentsSnoc(h, ms, EntryOf(commit, s), m);
    } else if commit.Append? {
      AppendCommit(h, ms, s, m);
      RepresentsSnoc(h, ms, EntryOf(commit, s), m);
    } else {
      RewindowIff(h, ms, commit.keep, s, resolve, m);
    }
  }

  lemma RewindowIff(h: History, ms: seq<Manifest>, keep: nat, s: Staged, resolve: Resolver, m: Manifest)
    requires Represents(h, ms) && |h| > 0 && Sum(s.spans) == |s.chunks|
    requires Faithful(h, ms, |h|, resolve) && Countable(h)
    requires NextManifest(Newest(ms), Rewindow(keep), s, resolve) == Ok(m)
    ensures Represents(h + [EntryOf(Rewindow(keep), s)], ms + [m]) <==> Whole(Last(Table(h, |h|), keep))
  {
    var e := EntryOf(Rewindow(keep), s);
    LinkVersion(h, ms, |h|);
    OneManifestEach(h, ms);
    var w := WindowIsExact(h, ms, |h|, keep, resolve);
    RewindowWrites(ms, keep, s, resolve, w, m);
    hide Table, Last, WindowKeeps, RepresentsAt, Whole, NextManifest, Write, WindowFor;
    if Whole(Last(Table(h, |h|), keep)) {
      RewindowCommit(h, ms, keep, w, s, m);
      RepresentsSnoc(h, ms, e, m);
    } else {
      ChunklessLost(h, ms, keep, w, s, m);
    }
  }

  lemma RewindowWrites(ms: seq<Manifest>, keep: nat, s: Staged, resolve: Resolver, w: WindowSet, m: Manifest)
    requires |ms| > 0 && ms[|ms| - 1].version == |ms| && w.base >= 0
    requires WindowFor(ms[|ms| - 1], keep, resolve) == Ok(w)
    requires NextManifest(Newest(ms), Rewindow(keep), s, resolve) == Ok(m)
    ensures var own := OwnLists(w, s);
            m.spans == own.1 && Write(s, |ms| + 1, own.0, own.1, None, Some((w.base, w.members))) == Ok(m)
  {
    hide WindowFor, WindowOk, OwnLists;
  }

  /** A run's last commit, after the run before it. */
  lemma LastCommit(steps: seq<Step>, ms: seq<Manifest>)
    requires Partitions(steps) && Wrote(steps, ms) && |steps| > 0
    ensures var n := |steps| - 1;
            var step := steps[n];
            && |ms| == |steps| && ms == ms[..n] + [ms[n]]
            && Partitions(steps[..n]) && Wrote(steps[..n], ms[..n]) && Sum(step.staged.spans) == |step.staged.chunks|
            && HistoryOf(steps) == HistoryOf(steps[..n]) + [EntryOf(step.commit, step.staged)]
            && (n > 0 ==> Faithful(HistoryOf(steps[..n]), ms[..n], n, step.resolve))
            && NextManifest(Newest(ms[..n]), step.commit, step.staged, step.resolve) == Ok(ms[n])
  {
    hide Faithful, NextManifest, Newest, EntryOf, Sum;
  }

  /** Every run of commits writes manifests that represent its history. */
  lemma {:induction false} RunRepresents(steps: seq<Step>, ms: seq<Manifest>)
    requires Partitions(steps) && Wrote(steps, ms)
    requires Chunked(HistoryOf(steps)) && Countable(HistoryOf(steps))
    ensures Represents(HistoryOf(steps), ms)
    decreases |steps|
  {
    if |steps| == 0 {
      NothingCommitted();
      return;
    }
    hide *;
    LastCommit(steps, ms);
    var n := |steps| - 1;
    var step, h := steps[n], HistoryOf(steps[..n]);
    EntryCommit(step.commit, step.staged);
    PrefixRules(h, EntryOf(step.commit, step.staged));
    RunRepresents(steps[..n], ms[..n]);
    CommitRepresents(h, ms[..n], step.commit, step.staged, step.resolve, ms[n]);
  }

  lemma EntryCommit(commit: Commit, s: Staged)
    requires Sum(s.spans) == |s.chunks|
    ensures EntryOf(commit, s).commit == commit
  {
  }

  lemma NothingCommitted()
    ensures Represents([], [])
  {
  }

  /** Exact delta over every run: any sequence of replacing, appending and re-rooting
      commits, and any reader. What it gets is what was added since, in order, and that
      rebuilds the table up to a forgotten prefix; or it is told it lost its place and gets
      the whole table. */
  lemma EveryRunDelta(steps: seq<Step>, ms: seq<Manifest>, v: nat, since: nat, resolve: Resolver)
    requires Partitions(steps) && Wrote(steps, ms)
    requires Chunked(HistoryOf(steps)) && Countable(HistoryOf(steps))
    requires 1 <= v <= |steps| && Faithful(HistoryOf(steps), ms, v, resolve)
    ensures var h := HistoryOf(steps);
            && ReadDelta(At(ms, v), since, resolve) == Ok(Owed(h, ms, v, since))
            && (0 < since <= v && !Truncates(h, ms, v, since) ==>
                  && Exact(h, since, v, Table(h, v))
                  && Suffix(Table(h, v), Table(h, since) + Added(h, since, v)))
  {
    RunRepresents(steps, ms);
    ExactDelta(HistoryOf(steps), ms, v, since, resolve);
    hide ReadDelta, Owed, Table, Added, Suffix, Exact, Truncates, Chunked, Wrote;
  }

  /** On a represented history a commit is refused only for a schema or identity mismatch
      with the version it extends, a missing predecessor reference, a list or chain too long
      for its 32-bit count, or a window of chunkless batches larger than what is staged. */
  lemma RefusedOnlyFor(h: History, ms: seq<Manifest>, commit: Commit, s: Staged, resolve: Resolver)
    requires Represents(h, ms) && |h| > 0 && Sum(s.spans) == |s.chunks|
    requires Faithful(h, ms, |h|, resolve)
    requires Countable(h)
    ensures commit.Rewindow? ==> WindowFor(At(ms, |h|), commit.keep, resolve).Ok?
    ensures NextManifest(Newest(ms), commit, s, resolve).Ok? <==>
              var p := At(ms, |h|);
              match commit
              case Replace => |s.chunks| <= U32_MAX && |s.spans| <= U32_MAX
              case Append =>
                && p.artifactId == s.artifactId && p.schemaId == s.schemaId
                && |s.chunks| <= U32_MAX && |s.spans| <= U32_MAX
                && s.mref != 0 && p.depth < U32_MAX
              case Rewindow(keep) =>
                && p.artifactId == s.artifactId && p.schemaId == s.schemaId
                && WindowFor(p, keep, resolve).Ok?
                && (var items := Last(Table(h, |h|), keep); Whole(items) || |items| <= |s.spans|)
                && var w := WindowFor(p, keep, resolve).value;
                   var own := OwnLists(w, s);
                   |own.0| <= U32_MAX && |own.1| <= U32_MAX && |w.members| <= U32_MAX
  {
    LinkVersion(h, ms, |h|);
    OneManifestEach(h, ms);
    if commit.Rewindow? {
      WindowAccepted(h, ms, commit.keep, s, resolve);
    }
    hide Represents, WindowFor, WindowOk, Countable, Faithful, OwnLists, Table, Last, Whole;
  }

  lemma WindowAccepted(h: History, ms: seq<Manifest>, keep: nat, s: Staged, resolve: Resolver)
    requires Represents(h, ms) && |h| > 0 && Sum(s.spans) == |s.chunks|
    requires Faithful(h, ms, |h|, resolve)
    requires Countable(h)
    ensures WindowFor(At(ms, |h|), keep, resolve).Ok?
    ensures var w, items := WindowFor(At(ms, |h|), keep, resolve).value, Last(Table(h, |h|), keep);
            w.base >= 0 && (WindowOk(|h| + 1, w.base, w.members, |OwnLists(w, s).1|) <==> Whole(items) || |items| <= |s.spans|)
  {
    var n, items := |h|, Last(Table(h, |h|), keep);
    var w := WindowIsExact(h, ms, n, keep, resolve);
    WholeIff(h, n, w, items);
    KeptAre(h, n, w, items);
    assert w.base >= 0;
    if |items| <= |OwnLists(w, s).1| {
      WindowAlwaysOk(h, n, w, items, |OwnLists(w, s).1|);
    }
    hide Represents, Table, Last, WindowFor, WindowKeeps, Whole;
  }

  lemma KeptAre(h: History, v: nat, w: WindowSet, items: seq<Item>)
    requires 1 <= v <= |h| && WindowKeeps(h, v, w, items)
    ensures KeptSum(w.members) == |items|
  {
    assert |Expand(w.members)| == |Tags(items)|;
  }

  /** Why a commit on a represented history is refused: as a conflict exactly when it is not
      a replacement and is of another artifact, and otherwise as unsupported. */
  lemma RefusalKinds(h: History, ms: seq<Manifest>, commit: Commit, s: Staged, resolve: Resolver)
    requires Represents(h, ms) && |h| > 0 && Sum(s.spans) == |s.chunks|
    requires Faithful(h, ms, |h|, resolve)
    requires Countable(h)
    requires NextManifest(Newest(ms), commit, s, resolve).Err?
    ensures |ms| == |h|
    ensures NextManifest(Newest(ms), commit, s, resolve).error
            == if !commit.Replace? && At(ms, |h|).artifactId != s.artifactId then Conflict else Unsupported
  {
    OneManifestEach(h, ms);
    if commit.Rewindow? {
      WindowAccepted(h, ms, commit.keep, s, resolve);
    }
    hide Represents, WindowFor, WindowOk, Countable, Faithful, OwnLists, Table, Last, Whole;
  }
}
