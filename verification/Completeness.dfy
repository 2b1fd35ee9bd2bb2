/** When truncation is exact: a delta read falls back to the whole table though the
    batches added since the reader's version are all still there to be listed exactly when
    nothing was added between that version and the base. */
module Completeness {
  import opened Common
  import opened Manifests
  import opened ChainWalk
  import opened Window
  import opened Lineage
  import opened Delta
  import opened Rewindow
  import opened Commits

  /** A reader before the base who missed something up to it could not be caught up. */
  ghost predicate Tight(h: History, since: nat, base: int, n: nat, items: seq<Item>)
    requires n <= |h|
  {
    1 <= since < base <= n && Added(h, since, base) != [] ==> !Exact(h, since, n, items)
  }

  ghost predicate TightRoots(h: History, ms: seq<Manifest>, since: nat)
    requires |ms| == |h|
  {
    forall n :: 1 <= n <= |h| && !Linked(h, n) && !PlainRoot(h, n) ==>
      Tight(h, since, At(ms, n).windowBase, n, Table(h, n))
  }

  /** Dropping nothing changes nothing. */
  lemma {:induction false} AfterLength(items: seq<Item>, s: nat)
    ensures |After(items, s)| <= |items|
    ensures |After(items, s)| == |items| ==> After(items, s) == items
  {
    if |items| > 0 {
      AfterLength(items[..|items| - 1], s);
    }
  }

  /** Dropping a prefix drops no more than what is dropped after any version. */
  lemma AfterSuffix(older: seq<Item>, newer: seq<Item>, s: nat)
    ensures |After(older + newer, s)| == |After(older, s)| + |After(newer, s)|
  {
    AfterConcat(older, newer, s);
  }

  /** A table holds no more after `s` than was added after `s`. */
  lemma {:induction false} TableWithin(h: History, s: nat, n: nat)
    requires s <= n <= |h|
    ensures |After(Table(h, n), s)| <= |Added(h, s, n)|
    decreases n
  {
    if n == s {
      TableTags(h, n);
      AfterOld(Table(h, n), s);
    } else {
      TableWithin(h, s, n - 1);
      var prior, own, kind := Table(h, n - 1), Own(h, n), Kind(h, n);
      if kind.Replace? {
        AfterLength(own, s);
      } else {
        var kept := TableStep(h, n);
        var p :| prior == p + kept;
        AfterSuffix(p, kept, s);
        AfterSuffix(kept, own, s);
        AfterLength(own, s);
      }
    }
  }

  /** Everything kept is newer than the base: one version further back there is
      something the window does not hold. */
  lemma TightWhole(h: History, b: nat, n: nat, items: seq<Item>, since: nat)
    requires 1 <= b <= n <= |h|
    requires Exact(h, b, n, items) && |After(items, b)| == |items|
    ensures Tight(h, since, b, n, items)
  {
    if since < b {
      AddedSplit(h, since, b, n);
      AfterLength(items, since);
    }
  }

  /** A batch of the base version itself was dropped. */
  lemma TightPartial(h: History, b: nat, n: nat, dropped: seq<Item>, items: seq<Item>, since: nat)
    requires 1 <= b <= n <= |h|
    requires Table(h, n) == dropped + items
    requires |After(dropped, b - 1)| > 0
    ensures Tight(h, since, b, n, items)
  {
    if since < b {
      TableWithin(h, since, n);
      AfterSuffix(dropped, items, since);
      AfterAfter(dropped, since, b - 1);
      AfterLength(After(dropped, since), b - 1);
    }
  }

  /** Tightness survives appending later versions. */
  lemma TightExtend(h: History, base: int, o: nat, n: nat, items: seq<Item>, since: nat)
    requires 1 <= base <= o <= n <= |h| && Tight(h, since, base, o, items)
    ensures Tight(h, since, base, n, items + Added(h, o, n))
  {
    if since < base && Exact(h, since, n, items + Added(h, o, n)) {
      var newer := Added(h, o, n);
      NoReplaceBelow(h, since, o, n);
      AfterConcat(items, newer, since);
      AddedTags(h, o, n);
      assert forall i :: 0 <= i < |newer| ==> newer[i] in newer;
      AfterAll(newer, since);
      AddedSplit(h, since, o, n);
      Cancel(After(items, since), Added(h, since, o), newer);
    }
  }

  lemma Cancel<T>(a: seq<T>, b: seq<T>, c: seq<T>)
    requires a + c == b + c
    ensures a == b
  {
    assert |a + c| == |b + c|;
    assert a == (a + c)[..|a|] && b == (b + c)[..|a|];
  }

  lemma NoReplaceBelow(h: History, s: nat, o: nat, n: nat)
    requires o <= n <= |h| && NoReplace(h, s, n)
    ensures NoReplace(h, s, o)
  {
    forall v | s < v <= o
      ensures Kind(h, v) != Replace
    {
      assert Kind(h, v) != Replace;
    }
  }

  lemma OwnAfter(h: History, o: nat, b: nat)
    requires 1 <= o <= |h| && b < o
    ensures |After(Own(h, o), b)| == |Own(h, o)|
  {
    OwnVersions(h, o);
    AfterAll(Own(h, o), b);
  }

  /** Cutting the inherited runs either drops a batch of the base version, or keeps
      only versions after the base. */
  lemma {:induction false} RunBaseTight(kept: seq<Kept>, top: nat, items: seq<Item>, need: nat, windowBase: nat, acc: int)
    returns (dropped: seq<Item>)
    requires RunsOk(kept, top) && Tags(items) == Expand(kept) && 0 < need < |items|
    ensures items == dropped + Last(items, need)
    ensures var b := RunBase(kept, need, windowBase, acc);
            && b >= 1
            && (|After(dropped, b - 1)| > 0 || |After(Last(items, need), b)| == need)
    decreases |kept|
  {
    hide Tags, Expand, InheritedRun, After, Last;
    RunBaseBounds(kept, top, need, windowBase, acc);
    RunsBound(kept, top, 0);
    var k, pre := kept[|kept| - 1], kept[..|kept| - 1];
    var older, newer := SplitRun(kept, items);
    if need > k.batches {
      var c := if |kept| == 1 && windowBase == k.version then k.version else k.version - 1;
      RunBaseBounds(pre, k.version - 1, need - k.batches, windowBase, c);
      dropped := RunBaseTight(pre, k.version - 1, older, need - k.batches, windowBase, c);
      CutOlder(items, older, newer, need, RunBase(kept, need, windowBase, acc), dropped);
    } else {
      dropped := CutInto(items, older, newer, need, k.version);
    }
  }

  lemma CutOlder(items: seq<Item>, older: seq<Item>, newer: seq<Item>, need: nat, b: nat, dropped: seq<Item>)
    requires items == older + newer && need > |newer| && need < |items|
    requires older == dropped + Last(older, need - |newer|)
    requires forall i :: 0 <= i < |newer| ==> newer[i].version > b
    ensures items == dropped + Last(items, need)
    ensures |After(Last(older, need - |newer|), b)| == need - |newer| ==> |After(Last(items, need), b)| == need
  {
    LastConcat(older, newer, need);
    Assoc(dropped, Last(older, need - |newer|), newer);
    AfterConcat(Last(older, need - |newer|), newer, b);
    AfterAll(newer, b);
  }

  lemma CutInto(items: seq<Item>, older: seq<Item>, newer: seq<Item>, need: nat, v: nat) returns (dropped: seq<Item>)
    requires items == older + newer && 0 < need <= |newer| && 1 <= v
    requires forall i :: 0 <= i < |newer| ==> newer[i].version == v
    ensures items == dropped + Last(items, need)
    ensures need < |newer| ==> |After(dropped, v - 1)| > 0
    ensures need == |newer| ==> |After(Last(items, need), v - 1)| == need
  {
    LastConcat(older, newer, need);
    LastSplit(newer, need);
    var cut := newer[..|newer| - need];
    dropped := older + cut;
    Assoc(older, cut, Last(newer, need));
    AfterConcat(older, cut, v - 1);
    AfterAll(cut, v - 1);
    if need == |newer| {
      LastAll(newer, need);
      AfterAll(newer, v - 1);
    }
  }

  lemma DeepTight(h: History, ms: seq<Manifest>, o: nat, inherited: seq<Item>, need: nat, items: seq<Item>, since: nat)
    requires Represents(h, ms) && TightRoots(h, ms, since) && 1 <= o <= |h|
    requires OwnItems(h, o) == inherited + Own(h, o)
    requires Tags(inherited) == Expand(At(ms, o).kept)
    requires RunsOk(At(ms, o).kept, o - 1)
    requires 0 < need <= |inherited|
    requires items == Last(inherited, need) + Own(h, o)
    ensures var m := At(ms, o);
            var base := if AllInherited(m.kept, need) then m.windowBase
                        else RunBase(m.kept, need, m.windowBase, m.windowBase);
            Tight(h, since, base, o, items)
  {
    hide *;
    OneManifestEach(h, ms);
    var m := At(ms, o);
    InheritsMeansTight(h, ms, o, inherited, since);
    AllInheritedIff(m.kept, o - 1, need);
    if need == |inherited| {
      LastAll(inherited, need);
    } else {
      DeepBase(h, ms, o, inherited, need, items);
      BaseExact(h, o, InheritedRun(m.kept, need), RunBase(m.kept, need, m.windowBase, m.windowBase), items);
      RunBaseBounds(m.kept, o - 1, need, m.windowBase, m.windowBase);
      DeepCut(h, m, o, inherited, need, items, since);
    }
  }

  lemma DeepCut(h: History, m: Manifest, o: nat, inherited: seq<Item>, need: nat, items: seq<Item>, since: nat)
    requires 1 <= o <= |h| && Table(h, o) == inherited + Own(h, o)
    requires Tags(inherited) == Expand(m.kept) && |inherited| == KeptSum(m.kept) && RunsOk(m.kept, o - 1)
    requires 0 < need < |inherited| && items == Last(inherited, need) + Own(h, o)
    requires 1 <= RunBase(m.kept, need, m.windowBase, m.windowBase) < o
    requires Exact(h, RunBase(m.kept, need, m.windowBase, m.windowBase), o, items)
    ensures Tight(h, since, RunBase(m.kept, need, m.windowBase, m.windowBase), o, items)
  {
    hide *;
    var b := RunBase(m.kept, need, m.windowBase, m.windowBase);
    var dropped, newest := Cut(m, o - 1, inherited, need, b);
    CutTight(h, o, inherited, need, items, dropped, newest, b, since);
  }

  lemma Cut(m: Manifest, top: nat, inherited: seq<Item>, need: nat, b: int) returns (dropped: seq<Item>, newest: seq<Item>)
    requires Tags(inherited) == Expand(m.kept) && RunsOk(m.kept, top) && 0 < need < |inherited|
    requires b == RunBase(m.kept, need, m.windowBase, m.windowBase) >= 1
    ensures newest == Last(inherited, need) && |newest| == need && inherited == dropped + newest
    ensures |After(dropped, b - 1)| > 0 || |After(newest, b)| == need
  {
    hide *;
    dropped := RunBaseTight(m.kept, top, inherited, need, m.windowBase, m.windowBase);
    newest := Last(inherited, need);
  }

  lemma BaseExact(h: History, o: nat, run: seq<Kept>, base: int, items: seq<Item>)
    requires 1 <= o <= |h| && BaseOk(h, o, run, base, items)
    ensures 1 <= base <= o && Exact(h, base, o, items)
  {
  }

  lemma InheritsMeansTight(h: History, ms: seq<Manifest>, o: nat, inherited: seq<Item>, since: nat)
    requires Represents(h, ms) && TightRoots(h, ms, since) && 1 <= o <= |h|
    requires OwnItems(h, o) == inherited + Own(h, o)
    requires Tags(inherited) == Expand(At(ms, o).kept) && inherited != []
    ensures |inherited| == KeptSum(At(ms, o).kept) && At(ms, o).kept != []
    ensures OwnItems(h, o) == Table(h, o) && !Linked(h, o) && !PlainRoot(h, o)
    ensures Tight(h, since, At(ms, o).windowBase, o, Table(h, o))
  {
    InheritsMeansWindowed(h, ms, o);
    hide Represents, Tight;
  }

  lemma InheritsMeansWindowed(h: History, ms: seq<Manifest>, o: nat)
    requires Represents(h, ms) && 1 <= o <= |h|
    ensures Linked(h, o) || PlainRoot(h, o) ==> At(ms, o).kept == []
  {
    if Linked(h, o) {
      LinkedBare(h, ms, o);
    } else {
      WindowFacts(h, ms, o);
    }
  }

  lemma CutTight(h: History, o: nat, inherited: seq<Item>, need: nat, items: seq<Item>, dropped: seq<Item>,
                 newest: seq<Item>, b: nat, since: nat)
    requires 1 <= b < o <= |h| && |newest| == need
    requires Table(h, o) == inherited + Own(h, o) && inherited == dropped + newest
    requires items == newest + Own(h, o)
    requires |After(dropped, b - 1)| > 0 || |After(newest, b)| == need
    requires Exact(h, b, o, items)
    ensures Tight(h, since, b, o, items)
  {
    if |After(dropped, b - 1)| > 0 {
      Assoc(dropped, newest, Own(h, o));
      TightPartial(h, b, o, dropped, items, since);
    } else {
      AfterSuffix(newest, Own(h, o), b);
      OwnAfter(h, o, b);
      TightWhole(h, b, o, items, since);
    }
  }

  lemma ShallowTight(h: History, ms: seq<Manifest>, o: nat, inherited: seq<Item>, take: nat, items: seq<Item>, since: nat)
    requires Represents(h, ms) && 1 <= o <= |h| && take <= |Own(h, o)|
    requires OwnItems(h, o) == inherited + Own(h, o)
    requires items == Last(OwnItems(h, o), take)
    ensures var m := At(ms, o);
            var plain := m.prev.None? && !m.IsWindowRoot();
            var base := if take < |Own(h, o)| || plain then o else o - 1;
            Tight(h, since, base, o, items)
  {
    var m, own := At(ms, o), Own(h, o);
    LastConcat(inherited, own, take);
    if take < |own| {
      CutOwn(h, o, items, since);
    } else if m.prev.None? && !m.IsWindowRoot() {
      PlainMeansReplaced(h, ms, o);
      ReplacedTight(h, o, items, since);
    } else {
      NotReplaced(h, ms, o);
      LastAll(own, take);
      WholeOwn(h, o, items, since);
    }
    hide Represents, Table, Last, Own, Exact;
  }

  lemma CutOwn(h: History, o: nat, items: seq<Item>, since: nat)
    requires 1 <= o <= |h| && |items| < |Own(h, o)|
    ensures Tight(h, since, o, o, items)
  {
    AfterLength(items, since);
  }

  lemma ReplacedTight(h: History, o: nat, items: seq<Item>, since: nat)
    requires 1 <= o <= |h| && (o == 1 || Kind(h, o) == Replace)
    ensures Tight(h, since, o, o, items)
  {
  }

  lemma WholeOwn(h: History, o: nat, items: seq<Item>, since: nat)
    requires 1 < o <= |h| && Kind(h, o) != Replace && items == Own(h, o)
    ensures Tight(h, since, o - 1, o, items)
  {
    ExactOwn(h, o);
    OwnAfter(h, o, o - 1);
    TightWhole(h, o - 1, o, items, since);
  }

  lemma PlainMeansReplaced(h: History, ms: seq<Manifest>, o: nat)
    requires Represents(h, ms) && 1 <= o <= |h|
    requires At(ms, o).prev.None? && !At(ms, o).IsWindowRoot()
    ensures o == 1 || Kind(h, o) == Replace
  {
    LinkVersion(h, ms, o);
    WindowFacts(h, ms, o);
  }

  lemma PartTight(h: History, ms: seq<Manifest>, o: nat, take: nat, items: seq<Item>, since: nat)
    requires Represents(h, ms) && TightRoots(h, ms, since) && 1 <= o <= |h| && take <= |OwnItems(h, o)|
    requires items == Last(OwnItems(h, o), take)
    ensures Tight(h, since, PartBase(Part(At(ms, o), take)), o, items)
  {
    hide *;
    OneManifestEach(h, ms);
    var inherited := OwnSplit(h, ms, o);
    PartBaseCases(At(ms, o), take);
    if take <= |Own(h, o)| {
      ShallowTight(h, ms, o, inherited, take, items, since);
    } else {
      LastConcat(inherited, Own(h, o), take);
      DeepTight(h, ms, o, inherited, take - |Own(h, o)|, items, since);
    }
  }

  // ---- Every run ----

  lemma WindowIsTight(h: History, ms: seq<Manifest>, v: nat, keep: nat, resolve: Resolver, w: WindowSet, since: nat)
    requires Represents(h, ms) && TightRoots(h, ms, since) && 1 <= v <= |h|
    requires Faithful(h, ms, v, resolve)
    requires |Table(h, v)| <= U32_MAX
    requires WindowFor(At(ms, v), keep, resolve) == Ok(w)
    ensures Tight(h, since, w.base, v, Last(Table(h, v), keep))
  {
    if keep == 0 {
      LinkVersion(h, ms, v);
    } else {
      WalkFromHead(h, ms, resolve, EnoughFor(keep), v);
      WindowStops(h, ms, v, keep);
      var o := StopAt(h, ms, EnoughFor(keep), v, v);
      var items := Last(Table(h, v), keep);
      TightFrom(h, ms, v, o, keep, w, items, since);
    }
  }

  lemma TightFrom(h: History, ms: seq<Manifest>, v: nat, o: nat, keep: nat, w: WindowSet, items: seq<Item>, since: nat)
    requires Represents(h, ms) && TightRoots(h, ms, since)
    requires 1 <= v <= |h| && Root(h, v) <= o <= v
    requires OwnTotal(Segment(ms, v, o + 1)) < keep
    requires Linked(h, o) ==> keep <= OwnTotal(Segment(ms, v, o))
    requires WindowOf(At(ms, v), Segment(ms, v, o), keep) == Ok(w)
    requires items == Last(Table(h, v), keep)
    ensures Tight(h, since, w.base, v, items)
  {
    hide *;
    var take := OldestTake(h, ms, v, o, keep);
    var first := Last(OwnItems(h, o), take);
    OldestBase(ms, v, o, keep, take, w);
    PartTight(h, ms, o, take, first, since);
    PartBaseWithin(h, ms, o, take, first);
    TightExtend(h, w.base, o, v, first, since);
  }

  lemma OldestBase(ms: seq<Manifest>, v: nat, o: nat, keep: nat, take: nat, w: WindowSet)
    requires 1 <= o <= v <= |ms|
    requires Reverse(Parts(Segment(ms, v, o), keep)) == WindowParts(ms, o, take, v)
    requires WindowOf(At(ms, v), Segment(ms, v, o), keep) == Ok(w)
    ensures w.base == PartBase(Part(At(ms, o), take))
  {
    hide Parts, Segment, Reverse, WholeParts, PartBase, AllFit;
  }

  lemma PartBaseWithin(h: History, ms: seq<Manifest>, o: nat, take: nat, items: seq<Item>)
    requires Represents(h, ms) && 1 <= o <= |h| && |ms| == |h| && take <= |OwnItems(h, o)|
    requires items == Last(OwnItems(h, o), take)
    ensures 1 <= PartBase(Part(At(ms, o), take)) <= o
  {
    PartBaseIs(h, ms, o, take, items);
  }

  lemma TightStable(h: History, e: Entry, base: int, n: nat, items: seq<Item>, since: nat)
    requires n <= |h|
    ensures Tight(h + [e], since, base, n, items) <==> Tight(h, since, base, n, items)
  {
    ExactStable(h, e, since, n, items);
    if since < base <= n {
      AddedStable(h, e, since, base);
    }
  }

  /** A re-rooting commit writes a tight base. */
  lemma NewRootTight(h: History, e: Entry, base: int, items: seq<Item>, since: nat)
    requires |h| > 0 && e.commit.Rewindow?
    requires items == Last(Table(h, |h|), e.commit.keep)
    requires 1 <= base <= |h| && Tight(h, since, base, |h|, items)
    ensures Tight(h + [e], since, base, |h| + 1, Table(h + [e], |h| + 1))
  {
    var h', n := h + [e], |h| + 1;
    TableStable(h, e, |h|);
    TightStable(h, e, base, |h|, items, since);
    TightExtend(h', base, |h|, n, items, since);
    AddedFrom(h', n, n);
    Unit(Own(h', n));
  }

  /** Every commit keeps the windowed roots tight. */
  lemma CommitTight(h: History, ms: seq<Manifest>, commit: Commit, s: Staged, resolve: Resolver, m: Manifest, since: nat)
    requires Represents(h, ms) && TightRoots(h, ms, since) && Sum(s.spans) == |s.chunks|
    requires |h| > 0 ==> Faithful(h, ms, |h|, resolve)
    requires Countable(h)
    requires NextManifest(Newest(ms), commit, s, resolve) == Ok(m)
    ensures TightRoots(h + [EntryOf(commit, s)], ms + [m], since)
  {
    hide Represents, Faithful, Countable, NextManifest, Tight, Table, Sum;
    OneManifestEach(h, ms);
    var e := EntryOf(commit, s);
    hide EntryOf;
    forall n | 1 <= n <= |h + [e]| && !Linked(h + [e], n) && !PlainRoot(h + [e], n)
      ensures Tight(h + [e], since, At(ms + [m], n).windowBase, n, Table(h + [e], n))
    {
      RootTight(h, ms, commit, s, resolve, m, e, n, since);
    }
  }

  lemma RootTight(h: History, ms: seq<Manifest>, commit: Commit, s: Staged, resolve: Resolver, m: Manifest, e: Entry, n: nat, since: nat)
    requires Represents(h, ms) && TightRoots(h, ms, since) && Sum(s.spans) == |s.chunks|
    requires |h| > 0 ==> Faithful(h, ms, |h|, resolve)
    requires Countable(h)
    requires NextManifest(Newest(ms), commit, s, resolve) == Ok(m) && e == EntryOf(commit, s)
    requires |ms| == |h| && 1 <= n <= |h| + 1 && !Linked(h + [e], n) && !PlainRoot(h + [e], n)
    ensures Tight(h + [e], since, At(ms + [m], n).windowBase, n, Table(h + [e], n))
  {
    hide Represents, TightRoots, Faithful, Countable, NextManifest, Tight, Table, Sum;
    if n <= |h| {
      OlderTight(h, ms, e, m, n, since);
    } else {
      LastTight(h, ms, commit, s, resolve, m, since);
    }
  }

  lemma OlderTight(h: History, ms: seq<Manifest>, e: Entry, m: Manifest, n: nat, since: nat)
    requires |ms| == |h| && TightRoots(h, ms, since) && 1 <= n <= |h|
    requires !Linked(h + [e], n) && !PlainRoot(h + [e], n)
    ensures Tight(h + [e], since, At(ms + [m], n).windowBase, n, Table(h + [e], n))
  {
    KindStable(h, e, n);
    AtStable(ms, m, n);
    TableStable(h, e, n);
    TightStable(h, e, At(ms, n).windowBase, n, Table(h, n), since);
  }

  lemma LastTight(h: History, ms: seq<Manifest>, commit: Commit, s: Staged, resolve: Resolver, m: Manifest, since: nat)
    requires Represents(h, ms) && TightRoots(h, ms, since) && Sum(s.spans) == |s.chunks|
    requires |h| > 0 && Faithful(h, ms, |h|, resolve)
    requires Countable(h)
    requires commit.Rewindow?
    requires NextManifest(Newest(ms), commit, s, resolve) == Ok(m)
    ensures Tight(h + [EntryOf(commit, s)], since, m.windowBase, |h| + 1, Table(h + [EntryOf(commit, s)], |h| + 1))
  {
    hide *;
    OneManifestEach(h, ms);
    CountableNow(h);
    var w := WindowIsExact(h, ms, |h|, commit.keep, resolve);
    RewindowBase(ms, commit, s, resolve, m, w);
    KeepsBase(h, |h|, w, Last(Table(h, |h|), commit.keep));
    WindowIsTight(h, ms, |h|, commit.keep, resolve, w, since);
    EntryCommit(commit, s);
    NewRootTight(h, EntryOf(commit, s), w.base, Last(Table(h, |h|), commit.keep), since);
  }

  lemma CountableNow(h: History)
    requires Countable(h)
    ensures |Table(h, |h|)| <= U32_MAX
  {
  }

  lemma EntryCommit(commit: Commit, s: Staged)
    requires Sum(s.spans) == |s.chunks|
    ensures EntryOf(commit, s).commit == commit
  {
  }

  lemma KeepsBase(h: History, v: nat, w: WindowSet, items: seq<Item>)
    requires 1 <= v <= |h| && WindowKeeps(h, v, w, items)
    ensures 1 <= w.base <= v
  {
  }

  lemma RewindowBase(ms: seq<Manifest>, commit: Commit, s: Staged, resolve: Resolver, m: Manifest, w: WindowSet)
    requires |ms| > 0 && commit.Rewindow? && NextManifest(Newest(ms), commit, s, resolve) == Ok(m)
    requires WindowFor(At(ms, |ms|), commit.keep, resolve) == Ok(w)
    ensures m.windowBase == w.base
  {
    hide WindowFor, OwnLists;
  }

  lemma {:induction false} RunTight(steps: seq<Step>, ms: seq<Manifest>, since: nat)
    requires Partitions(steps) && Wrote(steps, ms)
    requires Chunked(HistoryOf(steps)) && Countable(HistoryOf(steps))
    ensures TightRoots(HistoryOf(steps), ms, since)
    decreases |steps|
  {
    if |steps| == 0 {
      return;
    }
    hide *;
    LastCommit(steps, ms);
    var n := |steps| - 1;
    var step, h := steps[n], HistoryOf(steps[..n]);
    PrefixRules(h, EntryOf(step.commit, step.staged));
    RunTight(steps[..n], ms[..n], since);
    RunRepresents(steps[..n], ms[..n]);
    CommitTight(h, ms[..n], step.commit, step.staged, step.resolve, ms[n], since);
  }

  /** The oldest version a reader of v may be at. */
  ghost function Base(h: History, ms: seq<Manifest>, v: nat): int
    requires |ms| == |h| && 1 <= v <= |h|
  {
    var r := Root(h, v);
    if PlainRoot(h, r) then r else At(ms, r).windowBase
  }

  lemma BaseWithin(h: History, ms: seq<Manifest>, v: nat, since: nat)
    requires Represents(h, ms) && 1 <= v <= |h|
    ensures |ms| == |h| && 1 <= Base(h, ms, v) <= Root(h, v)
    ensures Truncates(h, ms, v, since) <==> 1 <= since < Base(h, ms, v)
  {
    var r := Root(h, v);
    RootNotLinked(h, v);
    hide Table, Represents;
    WindowFacts(h, ms, r);
  }

  /** A reader is turned away though it could have been caught up exactly when it is before
      the base, and between the two nothing was replaced and nothing added. */
  lemma TurnedAwayIff(steps: seq<Step>, ms: seq<Manifest>, v: nat, since: nat)
    requires Partitions(steps) && Wrote(steps, ms)
    requires Chunked(HistoryOf(steps)) && Countable(HistoryOf(steps))
    requires 1 <= since <= v <= |steps|
    ensures var h := HistoryOf(steps);
            && |h| == |ms| == |steps| && 1 <= Base(h, ms, v) <= v
            && (Truncates(h, ms, v, since) && Exact(h, since, v, Table(h, v)) <==>
                since < Base(h, ms, v) && NoReplace(h, since, Base(h, ms, v)) && Added(h, since, Base(h, ms, v)) == [])
  {
    hide *;
    var h := HistoryOf(steps);
    RunRepresents(steps, ms);
    RunTight(steps, ms, since);
    OneManifestEach(h, ms);
    BaseWithin(h, ms, v, since);
    var base := Base(h, ms, v);
    if since < base {
      if Exact(h, since, v, Table(h, v)) {
        CaughtUpMeansIdle(h, ms, v, since);
      } else if NoReplace(h, since, base) && Added(h, since, base) == [] {
        IdleMeansCaughtUp(h, ms, v, since);
      }
    }
  }

  lemma CaughtUpMeansIdle(h: History, ms: seq<Manifest>, v: nat, since: nat)
    requires Represents(h, ms) && TightRoots(h, ms, since)
    requires 1 <= v <= |h| && 1 <= since < Base(h, ms, v) <= Root(h, v)
    requires Exact(h, since, v, Table(h, v))
    ensures NoReplace(h, since, Base(h, ms, v)) && Added(h, since, Base(h, ms, v)) == []
  {
    var r, base := Root(h, v), Base(h, ms, v);
    RootNotLinked(h, v);
    NoReplaceBelow(h, since, base, v);
    hide Table, Represents;
    if !PlainRoot(h, r) {
      assert Tight(h, since, base, r, Table(h, r));
      TightExtend(h, base, r, v, Table(h, r), since);
      TableAbove(h, r, v);
    }
  }

  lemma IdleMeansCaughtUp(h: History, ms: seq<Manifest>, v: nat, since: nat)
    requires Represents(h, ms) && 1 <= v <= |h| && 1 <= since < Base(h, ms, v) <= Root(h, v)
    requires NoReplace(h, since, Base(h, ms, v)) && Added(h, since, Base(h, ms, v)) == []
    ensures Exact(h, since, v, Table(h, v))
  {
    var t, base := Table(h, v), Base(h, ms, v);
    BaseWithin(h, ms, v, base);
    DeltaExact(h, ms, v, base);
    AddedSplit(h, since, base, v);
    TableWithin(h, since, v);
    AfterAfter(t, since, base);
    AfterLength(After(t, since), base);
    hide Table, Represents, Base, Truncates;
    NoReplaceAcross(h, since, base, v);
    Prefixless(Added(h, base, v));
  }

  lemma Prefixless<T>(a: seq<T>)
    ensures [] + a == a
  {
  }

  lemma NoReplaceAcross(h: History, s: nat, o: nat, n: nat)
    requires s <= o <= n <= |h| && NoReplace(h, s, o) && NoReplace(h, o, n)
    ensures NoReplace(h, s, n)
  {
  }

  /** Every reader is told it lost its place exactly when it cannot be caught up, if and
      only if the base is the first version or was replaced in or added something. */
  lemma TruncatesIffLost(steps: seq<Step>, ms: seq<Manifest>, v: nat)
    requires Partitions(steps) && Wrote(steps, ms)
    requires Chunked(HistoryOf(steps)) && Countable(HistoryOf(steps))
    requires 1 <= v <= |steps|
    ensures var h := HistoryOf(steps);
            && |h| == |ms| == |steps| && 1 <= Base(h, ms, v) <= v
            && ((forall since: nat :: 1 <= since <= v ==>
                   (Truncates(h, ms, v, since) <==> !Exact(h, since, v, Table(h, v)))) <==>
                (Base(h, ms, v) == 1 || Kind(h, Base(h, ms, v)) == Replace || Own(h, Base(h, ms, v)) != []))
  {
    hide *;
    var h := HistoryOf(steps);
    RunRepresents(steps, ms);
    TurnedAwayIff(steps, ms, v, 1);
    var b := Base(h, ms, v);
    if b > 1 && Kind(h, b) != Replace && Own(h, b) == [] {
      TurnedAwayIff(steps, ms, v, b - 1);
      IdleBase(h, b);
    } else {
      forall since: nat | 1 <= since <= v
        ensures Truncates(h, ms, v, since) <==> !Exact(h, since, v, Table(h, v))
      {
        TurnedAwayIff(steps, ms, v, since);
        if !Truncates(h, ms, v, since) {
          DeltaExact(h, ms, v, since);
        } else {
          BusyBase(h, since, b);
        }
      }
    }
  }

  lemma IdleBase(h: History, b: nat)
    requires 1 < b <= |h| && Kind(h, b) != Replace && Own(h, b) == []
    ensures NoReplace(h, b - 1, b) && Added(h, b - 1, b) == []
  {
  }

  lemma BusyBase(h: History, since: nat, b: nat)
    requires 1 <= b <= |h| && (b == 1 || Kind(h, b) == Replace || Own(h, b) != [])
    ensures 1 <= since < b ==> !(NoReplace(h, since, b) && Added(h, since, b) == [])
  {
  }

  /** Such a base is written: re-rooting with nothing kept
      right after an empty appended version turns away the reader just before it,
      though that reader could have been caught up exactly. */
  lemma EmptyVersionTruncates(h: History, ms: seq<Manifest>, s: Staged, resolve: Resolver, m: Manifest)
    requires Represents(h, ms) && |h| > 1 && Sum(s.spans) == |s.chunks|
    requires |Own(h, |h|)| == 0 && Kind(h, |h|) != Replace
    requires NextManifest(Newest(ms), Rewindow(0), s, resolve) == Ok(m)
    ensures var h', v, since := h + [EntryOf(Rewindow(0), s)], |h| + 1, |h| - 1;
            Truncates(h', ms + [m], v, since) && Exact(h', since, v, Table(h', v))
  {
    var e, n := EntryOf(Rewindow(0), s), |h|;
    var h' := h + [e];
    LinkVersion(h, ms, n);
    var w := EmptyWindow(h, ms, n, resolve);
    assert m.windowBase == n;
    KindStable(h, e, n);
    AddedFrom(h', n, n);
    Unit(Own(h', n + 1));
    assert Exact(h', n - 1, n, []);
    ExactExtend(h', n - 1, n + 1, []);
  }
}
