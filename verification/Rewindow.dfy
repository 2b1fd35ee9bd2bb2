/** The window a re-rooting commit keeps, on a represented history: the newest
    `keep` batches of the prior table, each tagged with the version that added it,
    and a base every later reader can be caught up from exactly
    (crates/shm-artifact/src/artifact.rs, collect_window). */
module Rewindow {
  import opened Common
  import opened Manifests
  import opened ChainWalk
  import opened Window
  import opened Lineage
  import opened Delta

  // ---- Shape of the gathered parts ----

  /** Whole members a, .., b, oldest first. */
  function WholeParts(ms: seq<Manifest>, a: nat, b: nat): (r: seq<Part>)
    requires 1 <= a <= b + 1 && b <= |ms|
    ensures |r| == b + 1 - a
  {
    if b < a then [] else WholeParts(ms, a, b - 1) + [Part(At(ms, b), |At(ms, b).spans|)]
  }

  lemma {:induction false} WholePartsCons(ms: seq<Manifest>, a: nat, b: nat)
    requires 1 <= a <= b <= |ms|
    ensures WholeParts(ms, a, b) == [Part(At(ms, a), |At(ms, a).spans|)] + WholeParts(ms, a + 1, b)
    decreases b
  {
    if a < b {
      WholePartsCons(ms, a, b - 1);
      Assoc([Part(At(ms, a), |At(ms, a).spans|)], WholeParts(ms, a + 1, b - 1),
            [Part(At(ms, b), |At(ms, b).spans|)]);
    }
  }

  lemma OwnTotalSnoc(members: seq<Manifest>, m: Manifest)
    ensures OwnTotal(members + [m]) == OwnTotal(members) + |m.spans|
  {
    TakeConcat(members, [m], 1);
    Unit(members);
  }

  lemma PartsSnoc(members: seq<Manifest>, m: Manifest, keep: nat)
    ensures Parts(members + [m], keep)
            == if keep <= OwnTotal(members) then Parts(members, keep)
               else Parts(members, keep) + [Part(m, Min(keep - OwnTotal(members), |m.spans|))]
  {
    TakeConcat(members, [m], 1);
    Unit(members);
  }

  lemma ReverseSnoc<T>(s: seq<T>, x: T)
    ensures Reverse(s + [x]) == [x] + Reverse(s)
  {
    TakeConcat(s, [x], 1);
    Unit(s);
  }

  /** Members after the oldest contribute whole, the oldest what is still missing. */
  lemma {:induction false} PartsAre(ms: seq<Manifest>, v: nat, o: nat, keep: nat)
    requires 1 <= o <= v <= |ms|
    requires OwnTotal(Segment(ms, v, o + 1)) < keep
    ensures Reverse(Parts(Segment(ms, v, o), keep))
            == [Part(At(ms, o), Min(keep - OwnTotal(Segment(ms, v, o + 1)), |At(ms, o).spans|))]
               + WholeParts(ms, o + 1, v)
    decreases v - o
  {
    hide Parts, Reverse, WholeParts, OwnTotal, Segment;
    var newer := Segment(ms, v, o + 1);
    SegmentSnoc(ms, v, o);
    PartsSnoc(newer, At(ms, o), keep);
    ReverseSnoc(Parts(newer, keep), Part(At(ms, o), Min(keep - OwnTotal(newer), |At(ms, o).spans|)));
    if o < v {
      SegmentSnoc(ms, v, o + 1);
      OwnTotalSnoc(Segment(ms, v, o + 2), At(ms, o + 1));
      PartsAre(ms, v, o + 1, keep);
      WholePartsCons(ms, o + 1, v);
    } else {
      NoNewer(ms, v, keep);
    }
  }

  lemma NoNewer(ms: seq<Manifest>, v: nat, keep: nat)
    requires 1 <= v <= |ms|
    ensures Reverse(Parts(Segment(ms, v, v + 1), keep)) == [] == WholeParts(ms, v + 1, v)
  {
  }

  lemma SegmentSnoc(ms: seq<Manifest>, v: nat, o: nat)
    requires 1 <= o <= v <= |ms|
    ensures Segment(ms, v, o) == Segment(ms, v, o + 1) + [At(ms, o)]
  {
  }

  lemma {:induction false} OwnTotalIs(h: History, ms: seq<Manifest>, v: nat, o: nat)
    requires Represents(h, ms) && 1 <= v <= |h| && Root(h, v) <= o <= v
    ensures OwnTotal(Segment(ms, v, o + 1)) == |Added(h, o, v)|
    ensures OwnTotal(Segment(ms, v, o)) == |Added(h, o, v)| + |OwnItems(h, o)|
    decreases v - o
  {
    hide *;
    OneManifestEach(h, ms);
    if o < v {
      OwnTotalIs(h, ms, v, o + 1);
      RootBelow(h, v, o + 1);
      AddedFrom(h, o + 1, v);
      LinkedItems(h, o + 1);
    } else {
      NothingNewer(h, ms, v);
    }
    SegmentSnoc(ms, v, o);
    OwnTotalSnoc(Segment(ms, v, o + 1), At(ms, o));
    SpanCount(h, ms, o);
    LinkedItems(h, o);
  }

  lemma LinkedItems(h: History, o: nat)
    requires 1 <= o <= |h|
    ensures OwnItems(h, o) == if Linked(h, o) then Own(h, o) else Table(h, o)
  {
  }

  lemma NothingNewer(h: History, ms: seq<Manifest>, v: nat)
    requires 1 <= v <= |h| == |ms|
    ensures OwnTotal(Segment(ms, v, v + 1)) == 0 && Added(h, v, v) == []
  {
  }

  // ---- What one part contributes ----

  /** Part `p` lists exactly `items`, run by run. */
  ghost predicate PartGathers(p: Part, items: seq<Item>, top: nat) {
    && PartFits(p)
    && Sum(PartSpans(p)) == |PartChunks(p)|
    && Group(PartChunks(p), PartSpans(p)) == BatchesOf(items)
    && Expand(PartRun(p)) == Tags(items)
    && RunsOk(PartRun(p), top)
  }

  lemma {:induction false} LastRepeat(v: nat, n: nat, k: nat)
    requires k <= n
    ensures Last(Repeat(v, n), k) == Repeat(v, k)
  {
    if k > 0 {
      TakeConcat(Repeat(v, n - 1), [v], 1);
      Unit(Repeat(v, n - 1));
      LastRepeat(v, n - 1, k - 1);
    }
  }

  lemma OwnTags(h: History, o: nat, k: nat)
    requires 1 <= o <= |h| && k <= |Own(h, o)|
    ensures Tags(Last(Own(h, o), k)) == Repeat(o, k)
  {
    OwnVersions(h, o);
    SplitProjections(Own(h, o), k);
    LastRepeat(o, |Own(h, o)|, k);
  }

  /** A manifest's items are what it inherited, tagged by its kept runs, and then
      what its own version added. */
  lemma OwnSplit(h: History, ms: seq<Manifest>, o: nat) returns (inherited: seq<Item>)
    requires Represents(h, ms) && 1 <= o <= |h|
    ensures OwnItems(h, o) == inherited + Own(h, o)
    ensures Tags(inherited) == Expand(At(ms, o).kept)
    ensures RunsOk(At(ms, o).kept, o - 1)
    ensures At(ms, o).version == o
    ensures OwnNew(At(ms, o)) == |Own(h, o)|
  {
    LinkVersion(h, ms, o);
    SpanCount(h, ms, o);
    if Linked(h, o) {
      inherited := [];
      LinkedBare(h, ms, o);
      Unit(Own(h, o));
    } else {
      WindowFacts(h, ms, o);
      inherited := Table(h, o)[..KeptSum(At(ms, o).kept)];
    }
  }

  lemma LinkedBare(h: History, ms: seq<Manifest>, o: nat)
    requires Represents(h, ms) && 1 <= o <= |h| && Linked(h, o)
    ensures At(ms, o).kept == []
  {
    assert RepresentsAt(h, ms, o);
  }

  lemma PartBatches(h: History, ms: seq<Manifest>, o: nat, take: nat)
    requires Represents(h, ms) && 1 <= o <= |h| && take <= |OwnItems(h, o)|
    ensures var p := Part(At(ms, o), take);
            && PartFits(p)
            && Sum(PartSpans(p)) == |PartChunks(p)|
            && Group(PartChunks(p), PartSpans(p)) == BatchesOf(Last(OwnItems(h, o), take))
  {
    var m := At(ms, o);
    SpanCount(h, ms, o);
    GroupLast(m.chunks, m.spans, take);
    SplitProjections(OwnItems(h, o), take);
  }

  lemma OneRun(v: nat, n: nat, top: nat)
    requires 1 <= v <= top
    ensures var run := if n > 0 then [Kept(v, n, 0)] else [];
            Expand(run) == Repeat(v, n) && RunsOk(run, top)
  {
    ExpandOne(v, n);
    if n > 0 {
      assert [Kept(v, n, 0)][..0] == [];
    }
  }

  lemma NothingTaken(kept: seq<Kept>, items: seq<Item>, need: nat)
    requires Tags(items) == Expand(kept) && need <= |items| && (|kept| == 0 || need == 0)
    ensures Expand(InheritedRun(kept, need)) == Tags(Last(items, need))
  {
  }

  /** Taking the newest `need` batches of a run-length table takes the newest
      `need` items. */
  lemma {:induction false} InheritedRunIs(kept: seq<Kept>, items: seq<Item>, need: nat)
    requires Tags(items) == Expand(kept) && need <= |items|
    ensures Expand(InheritedRun(kept, need)) == Tags(Last(items, need))
    decreases |kept|
  {
    hide Last, Tags, KeptSum, Expand;
    if |kept| == 0 || need == 0 {
      NothingTaken(kept, items, need);
      return;
    }
    var k := kept[|kept| - 1];
    var pre, t := kept[..|kept| - 1], Min(need, k.batches);
    var older, newer := SplitRun(kept, items);
    InheritedRunIs(pre, older, need - t);
    TakeRun(InheritedRun(pre, need - t), Kept(k.version, t, 0), older, newer, need, Last(items, need));
  }

  lemma TakeRun(runs: seq<Kept>, k: Kept, older: seq<Item>, newer: seq<Item>, need: nat, items: seq<Item>)
    requires items == Last(older + newer, need) && need <= |older| + |newer|
    requires k.batches == Min(need, |newer|) && k.pad == 0
    requires forall i :: 0 <= i < |newer| ==> newer[i].version == k.version
    requires Expand(runs) == Tags(Last(older, need - k.batches))
    ensures Expand(runs + [k]) == Tags(items)
  {
    LastOfConcat(older, newer, need);
    RunTags(newer, k.version, k.batches);
    RunSnoc(runs, k, Last(older, need - k.batches), Last(newer, k.batches), items);
  }

  lemma RunSnoc(runs: seq<Kept>, k: Kept, older: seq<Item>, newer: seq<Item>, items: seq<Item>)
    requires items == older + newer
    requires Expand(runs) == Tags(older) && Tags(newer) == Repeat(k.version, k.batches) && k.pad == 0
    ensures Expand(runs + [k]) == Tags(items)
  {
    TagsConcat(older, newer);
    ExpandConcat(runs, [k]);
    ExpandOne(k.version, k.batches);
  }

  lemma {:induction false} InheritedRunOk(kept: seq<Kept>, top: nat, need: nat)
    requires RunsOk(kept, top)
    ensures RunsOk(InheritedRun(kept, need), top)
    decreases |kept|
  {
    if |kept| > 0 && need > 0 {
      var k := kept[|kept| - 1];
      var pre, t := kept[..|kept| - 1], Min(need, k.batches);
      InheritedRunOk(pre, k.version - 1, need - t);
      RunsSnoc(InheritedRun(pre, need - t), Kept(k.version, t, 0), top);
    }
  }

  lemma {:induction false} RunTags(items: seq<Item>, v: nat, k: nat)
    requires k <= |items|
    requires forall i :: 0 <= i < |items| ==> items[i].version == v
    ensures Tags(Last(items, k)) == Repeat(v, k)
  {
    if k > 0 {
      RunTags(items[..|items| - 1], v, k - 1);
      TakeConcat(Last(items[..|items| - 1], k - 1), [items[|items| - 1]], 1);
      Unit(Last(items[..|items| - 1], k - 1));
    }
  }

  lemma PartRunIs(h: History, ms: seq<Manifest>, o: nat, take: nat, items: seq<Item>, runs: seq<Kept>)
    requires Represents(h, ms) && 1 <= o <= |h| && take <= |OwnItems(h, o)|
    requires items == Last(OwnItems(h, o), take)
    requires runs == PartRun(Part(At(ms, o), take))
    ensures Expand(runs) == Tags(items)
    ensures RunsOk(runs, o)
  {
    var inherited := OwnSplit(h, ms, o);
    if take <= |Own(h, o)| {
      ShallowRun(h, o, inherited, take, items, runs);
    } else {
      DeepRun(h, o, At(ms, o).kept, inherited, take, items, runs);
    }
  }

  lemma ShallowRun(h: History, o: nat, inherited: seq<Item>, take: nat, items: seq<Item>, runs: seq<Kept>)
    requires 1 <= o <= |h| && take <= |Own(h, o)|
    requires items == Last(inherited + Own(h, o), take)
    requires runs == if take > 0 then [Kept(o, take, 0)] else []
    ensures Expand(runs) == Tags(items) && RunsOk(runs, o)
  {
    LastConcat(inherited, Own(h, o), take);
    OwnTags(h, o, take);
    OneRun(o, take, o);
  }

  /** The runs of a part that reaches into the inherited batches. */
  lemma DeepRun(h: History, o: nat, kept: seq<Kept>, inherited: seq<Item>, take: nat, items: seq<Item>, runs: seq<Kept>)
    requires 1 <= o <= |h| && |Own(h, o)| <= take <= |inherited| + |Own(h, o)|
    requires RunsOk(kept, o - 1) && Tags(inherited) == Expand(kept)
    requires items == Last(inherited + Own(h, o), take)
    requires runs == InheritedRun(kept, take - |Own(h, o)|)
                     + (if |Own(h, o)| > 0 then [Kept(o, |Own(h, o)|, 0)] else [])
    ensures Expand(runs) == Tags(items) && RunsOk(runs, o)
  {
    hide Last, Tags, Expand, RunsOk, InheritedRun;
    var n := |Own(h, o)|;
    var older := InheritedRun(kept, take - n);
    LastConcat(inherited, Own(h, o), take);
    InheritedRunIs(kept, inherited, take - n);
    InheritedRunOk(kept, o - 1, take - n);
    if n > 0 {
      OwnVersions(h, o);
      RunSnoc(older, Kept(o, n, 0), Last(inherited, take - n), Own(h, o), items);
      RunsSnoc(older, Kept(o, n, 0), o);
    } else {
      Unit(older);
      Unit(Last(inherited, take));
      RunsRaise(older, o - 1, o);
    }
  }

  lemma PartIs(h: History, ms: seq<Manifest>, o: nat, take: nat)
    requires Represents(h, ms) && 1 <= o <= |h| && take <= |OwnItems(h, o)|
    ensures PartGathers(Part(At(ms, o), take), Last(OwnItems(h, o), take), o)
  {
    PartBatches(h, ms, o, take);
    PartRunIs(h, ms, o, take, Last(OwnItems(h, o), take), PartRun(Part(At(ms, o), take)));
  }

  // ---- The base of the oldest part ----

  lemma {:induction false} AllInheritedIff(kept: seq<Kept>, top: nat, need: nat)
    requires RunsOk(kept, top) && need <= KeptSum(kept)
    ensures AllInherited(kept, need) <==> need == KeptSum(kept)
    decreases |kept|
  {
    if |kept| > 0 {
      var k := kept[|kept| - 1];
      if k.batches <= need {
        AllInheritedIff(kept[..|kept| - 1], k.version - 1, need - k.batches);
      }
    }
  }

  lemma {:induction false} InheritedFirst(kept: seq<Kept>, top: nat, need: nat)
    requires RunsOk(kept, top) && 0 < need && |kept| > 0
    ensures |InheritedRun(kept, need)| > 0
    ensures kept[0].version <= InheritedRun(kept, need)[0].version
    decreases |kept|
  {
    var k := kept[|kept| - 1];
    var pre, t := kept[..|kept| - 1], Min(need, k.batches);
    if |pre| > 0 {
      RunsBound(pre, k.version - 1, 0);
      if need - t > 0 {
        InheritedFirst(pre, k.version - 1, need - t);
      }
    }
  }

  /** When part of the inherited run is dropped, the base lies between the oldest
      inherited version and the oldest version kept. */
  lemma {:induction false} RunBaseBounds(kept: seq<Kept>, top: nat, need: nat, windowBase: nat, acc: int)
    requires RunsOk(kept, top) && 0 < need < KeptSum(kept)
    ensures |InheritedRun(kept, need)| > 0
    ensures kept[0].version <= RunBase(kept, need, windowBase, acc) <= InheritedRun(kept, need)[0].version
    ensures RunBase(kept, need, windowBase, acc) <= top
    decreases |kept|
  {
    var k := kept[|kept| - 1];
    var pre, t := kept[..|kept| - 1], Min(need, k.batches);
    if |pre| > 0 {
      RunsBound(pre, k.version - 1, 0);
    }
    if need > k.batches {
      var b := if |kept| == 1 && windowBase == k.version then k.version else k.version - 1;
      RunBaseBounds(pre, k.version - 1, need - t, windowBase, b);
    }
  }

  lemma {:induction false} RunsBelow(kept: seq<Kept>, top: nat, items: seq<Item>, b: nat)
    requires RunsOk(kept, top) && Tags(items) == Expand(kept) && top <= b
    ensures After(items, b) == []
    decreases |kept|
  {
    if |kept| > 0 {
      var k := kept[|kept| - 1];
      var older, newer := SplitRun(kept, items);
      RunsBelow(kept[..|kept| - 1], k.version - 1, older, b);
      AfterNone(newer, b);
      AfterConcat(older, newer, b);
    }
  }

  lemma DropOlder(items: seq<Item>, older: seq<Item>, newer: seq<Item>, k: nat, b: nat)
    requires items == older + newer && k >= |newer|
    requires After(older, b) == After(Last(older, k - |newer|), b)
    ensures After(items, b) == After(Last(items, k), b)
  {
    LastConcat(older, newer, k);
    AfterConcat(older, newer, b);
    AfterConcat(Last(older, k - |newer|), newer, b);
  }

  lemma DropInto(items: seq<Item>, older: seq<Item>, newer: seq<Item>, k: nat, b: nat)
    requires items == older + newer && k <= |newer| && After(older, b) == []
    requires k < |newer| ==> After(newer, b) == []
    ensures After(items, b) == After(Last(items, k), b)
  {
    LastConcat(older, newer, k);
    AfterConcat(older, newer, b);
    if k < |newer| {
      LastSplit(newer, k);
      AfterConcat(newer[..|newer| - k], Last(newer, k), b);
    } else {
      LastAll(newer, k);
    }
  }

  /** Everything dropped was added at or before the base. */
  lemma {:induction false} RunBaseDrops(kept: seq<Kept>, top: nat, items: seq<Item>, need: nat, windowBase: nat, acc: int)
    requires RunsOk(kept, top) && Tags(items) == Expand(kept) && 0 < need < |items|
    ensures var b := RunBase(kept, need, windowBase, acc);
            b >= 0 && After(items, b) == After(Last(items, need), b)
    decreases |kept|
  {
    hide Last, After, InheritedRun, RunsOk, Tags, Expand, KeptSum;
    TagCount(items, kept);
    RunBaseBounds(kept, top, need, windowBase, acc);
    var b := RunBase(kept, need, windowBase, acc);
    var k, pre := kept[|kept| - 1], kept[..|kept| - 1];
    RunsButLast(kept, top);
    var older, newer := SplitRun(kept, items);
    if need > k.batches {
      var c := if |kept| == 1 && windowBase == k.version then k.version else k.version - 1;
      RunBaseDrops(pre, k.version - 1, older, need - k.batches, windowBase, c);
      DropOlder(items, older, newer, need, b);
    } else {
      RunsBelow(pre, k.version - 1, older, b);
      if need < k.batches {
        AfterNone(newer, b);
      }
      DropInto(items, older, newer, need, b);
    }
  }

  lemma TagCount(items: seq<Item>, kept: seq<Kept>)
    requires Tags(items) == Expand(kept)
    ensures |items| == KeptSum(kept) && (|items| > 0 ==> |kept| > 0)
  {
  }

  lemma RunsButLast(kept: seq<Kept>, top: nat)
    requires RunsOk(kept, top) && |kept| > 0
    ensures var k := kept[|kept| - 1]; 1 <= k.version <= top && RunsOk(kept[..|kept| - 1], k.version - 1)
  {
  }

  lemma ExactSelf(h: History, o: nat, take: nat)
    requires 1 <= o <= |h|
    ensures Exact(h, o, o, Last(OwnItems(h, o), take))
  {
    TableTags(h, o);
    OwnVersions(h, o);
    var all := OwnItems(h, o);
    var items := Last(all, take);
    forall x | x in items
      ensures x.version <= o
    {
      LastMember(all, take, x);
    }
    AfterOld(items, o);
  }

  lemma ExactOwn(h: History, o: nat)
    requires 1 < o <= |h| && Kind(h, o) != Replace
    ensures Exact(h, o - 1, o, Own(h, o))
  {
    ExactExtend(h, o - 1, o, []);
    Unit(Own(h, o));
  }

  /** The items of version o that the oldest part keeps, and the base it yields. */
  ghost predicate BaseOk(h: History, o: nat, run: seq<Kept>, base: int, items: seq<Item>)
    requires 1 <= o <= |h|
  {
    && 1 <= base <= o
    && (run != [] ==> base <= run[0].version)
    && Exact(h, base, o, items)
  }

  lemma PartBaseIs(h: History, ms: seq<Manifest>, o: nat, take: nat, items: seq<Item>)
    requires Represents(h, ms) && 1 <= o <= |h| && take <= |OwnItems(h, o)|
    requires items == Last(OwnItems(h, o), take)
    ensures var p := Part(At(ms, o), take); BaseOk(h, o, PartRun(p), PartBase(p), items)
  {
    hide *;
    OneManifestEach(h, ms);
    var inherited := OwnSplit(h, ms, o);
    var m := At(ms, o);
    PartBaseCases(m, take);
    if take <= |Own(h, o)| {
      ShallowBase(h, ms, o, inherited, take, items);
    } else {
      LastConcat(inherited, Own(h, o), take);
      var need := take - |Own(h, o)|;
      DeepBase(h, ms, o, inherited, need, items);
      LongerRun(h, o, InheritedRun(m.kept, need), if OwnNew(m) > 0 then [Kept(m.version, OwnNew(m), 0)] else [],
                PartBase(Part(m, take)), items);
    }
  }

  lemma LongerRun(h: History, o: nat, run: seq<Kept>, more: seq<Kept>, base: int, items: seq<Item>)
    requires 1 <= o <= |h| && BaseOk(h, o, run, base, items) && run != []
    ensures BaseOk(h, o, run + more, base, items)
  {
  }

  lemma PartBaseCases(m: Manifest, take: nat)
    ensures take <= OwnNew(m) ==>
              && PartRun(Part(m, take)) == (if take > 0 then [Kept(m.version, take, 0)] else [])
              && PartBase(Part(m, take)) ==
                 if take < OwnNew(m) || (m.prev.None? && !m.IsWindowRoot()) then m.version else m.version - 1
    ensures take > OwnNew(m) ==>
              && PartRun(Part(m, take)) == InheritedRun(m.kept, take - OwnNew(m))
                                           + (if OwnNew(m) > 0 then [Kept(m.version, OwnNew(m), 0)] else [])
              && PartBase(Part(m, take)) ==
                 if AllInherited(m.kept, take - OwnNew(m)) then m.windowBase
                 else RunBase(m.kept, take - OwnNew(m), m.windowBase, m.windowBase)
  {
  }

  lemma ShallowBase(h: History, ms: seq<Manifest>, o: nat, inherited: seq<Item>, take: nat, items: seq<Item>)
    requires Represents(h, ms) && 1 <= o <= |h| && take <= |Own(h, o)|
    requires OwnItems(h, o) == inherited + Own(h, o)
    requires items == Last(OwnItems(h, o), take)
    ensures var m := At(ms, o);
            var plain := m.prev.None? && !m.IsWindowRoot();
            var run := if take > 0 then [Kept(o, take, 0)] else [];
            var base := if take < |Own(h, o)| || plain then o else o - 1;
            BaseOk(h, o, run, base, items)
  {
    var m, own := At(ms, o), Own(h, o);
    if take < |own| || (m.prev.None? && !m.IsWindowRoot()) {
      ExactSelf(h, o, take);
    } else {
      NotReplaced(h, ms, o);
      ExactOwn(h, o);
      LastConcat(inherited, own, take);
      LastAll(own, take);
    }
  }

  lemma NotReplaced(h: History, ms: seq<Manifest>, o: nat)
    requires Represents(h, ms) && 1 <= o <= |h|
    requires At(ms, o).prev.Some? || At(ms, o).IsWindowRoot()
    ensures o > 1 && Kind(h, o) != Replace
  {
    if !Linked(h, o) {
      WindowFacts(h, ms, o);
    }
  }

  lemma DeepBase(h: History, ms: seq<Manifest>, o: nat, inherited: seq<Item>, need: nat, items: seq<Item>)
    requires Represents(h, ms) && 1 <= o <= |h|
    requires OwnItems(h, o) == inherited + Own(h, o)
    requires Tags(inherited) == Expand(At(ms, o).kept)
    requires RunsOk(At(ms, o).kept, o - 1)
    requires 0 < need <= |inherited|
    requires items == Last(inherited, need) + Own(h, o)
    ensures var m := At(ms, o);
            var base := if AllInherited(m.kept, need) then m.windowBase
                        else RunBase(m.kept, need, m.windowBase, m.windowBase);
            && InheritedRun(m.kept, need) != []
            && BaseOk(h, o, InheritedRun(m.kept, need), base, items)
  {
    var m := At(ms, o);
    InheritedWindow(h, ms, o, inherited);
    AllInheritedIff(m.kept, o - 1, need);
    InheritedFirst(m.kept, o - 1, need);
    if need == |inherited| {
      LastAll(inherited, need);
    } else {
      RunBaseBounds(m.kept, o - 1, need, m.windowBase, m.windowBase);
      RunBaseDrops(m.kept, o - 1, inherited, need, m.windowBase, m.windowBase);
      ShrinkExact(h, o, inherited, need, m.windowBase, RunBase(m.kept, need, m.windowBase, m.windowBase));
    }
  }

  /** Only a windowed root inherits. */
  lemma InheritedWindow(h: History, ms: seq<Manifest>, o: nat, inherited: seq<Item>)
    requires Represents(h, ms) && 1 <= o <= |h|
    requires OwnItems(h, o) == inherited + Own(h, o) && |inherited| > 0
    requires Tags(inherited) == Expand(At(ms, o).kept)
    ensures At(ms, o).kept != []
    ensures 1 <= At(ms, o).windowBase < o
    ensures At(ms, o).windowBase <= At(ms, o).kept[0].version
    ensures Exact(h, At(ms, o).windowBase, o, inherited + Own(h, o))
  {
    if !Linked(h, o) {
      WindowFacts(h, ms, o);
    }
  }

  lemma ShrinkExact(h: History, o: nat, inherited: seq<Item>, need: nat, base: nat, b: nat)
    requires 1 <= o <= |h| && base <= b <= o
    requires Exact(h, base, o, inherited + Own(h, o))
    requires After(inherited, b) == After(Last(inherited, need), b)
    ensures Exact(h, b, o, Last(inherited, need) + Own(h, o))
  {
    ExactLater(h, base, b, o, inherited + Own(h, o));
    AfterConcat(inherited, Own(h, o), b);
    AfterConcat(Last(inherited, need), Own(h, o), b);
  }

  // ---- The whole window ----

  /** The parts together list exactly `items`, run by run. */
  ghost predicate Gathers(parts: seq<Part>, items: seq<Item>, top: nat) {
    && AllFit(parts)
    && Sum(AllSpans(parts)) == |AllChunks(parts)|
    && Group(AllChunks(parts), AllSpans(parts)) == BatchesOf(items)
    && Expand(AllRuns(parts)) == Tags(items)
    && RunsOk(AllRuns(parts), top)
  }

  lemma AllSnoc(parts: seq<Part>, p: Part)
    requires AllFit(parts) && PartFits(p)
    ensures AllFit(parts + [p])
    ensures AllChunks(parts + [p]) == AllChunks(parts) + PartChunks(p)
    ensures AllSpans(parts + [p]) == AllSpans(parts) + PartSpans(p)
    ensures AllRuns(parts + [p]) == AllRuns(parts) + PartRun(p)
  {
    TakeConcat(parts, [p], 1);
    Unit(parts);
  }

  lemma GathersSnoc(parts: seq<Part>, items: seq<Item>, mid: nat, p: Part, own: seq<Item>, top: nat)
    requires Gathers(parts, items, mid) && PartGathers(p, own, top) && mid <= top
    requires forall i :: 0 <= i < |PartRun(p)| ==> mid < PartRun(p)[i].version
    ensures Gathers(parts + [p], items + own, top)
  {
    AllSnoc(parts, p);
    GroupConcat(AllChunks(parts), AllSpans(parts), PartChunks(p), PartSpans(p));
    BatchesOfConcat(items, own);
    ExpandConcat(AllRuns(parts), PartRun(p));
    TagsConcat(items, own);
    RunsConcat(AllRuns(parts), PartRun(p), mid, top);
  }

  lemma OldestGathers(h: History, ms: seq<Manifest>, o: nat, take: nat)
    requires Represents(h, ms) && 1 <= o <= |h| && take <= |OwnItems(h, o)|
    ensures Gathers([Part(At(ms, o), take)], Last(OwnItems(h, o), take), o)
    ensures AllRuns([Part(At(ms, o), take)]) == PartRun(Part(At(ms, o), take))
  {
    var p, items := Part(At(ms, o), take), Last(OwnItems(h, o), take);
    PartIs(h, ms, o, take);
    forall i | 0 <= i < |PartRun(p)|
      ensures 0 < PartRun(p)[i].version
    {
      RunsBound(PartRun(p), o, i);
    }
    assert Gathers([], [], 0);
    AllSnoc([], p);
    GathersSnoc([], [], 0, p, items, o);
    Unit([p]);
    Unit(items);
    Unit(PartRun(p));
  }

  lemma LinkedPart(h: History, ms: seq<Manifest>, n: nat)
    requires Represents(h, ms) && 1 <= n <= |h| && Linked(h, n)
    ensures var p := Part(At(ms, n), |At(ms, n).spans|);
            && PartGathers(p, Own(h, n), n)
            && (forall i :: 0 <= i < |PartRun(p)| ==> PartRun(p)[i].version == n)
  {
    SpanCount(h, ms, n);
    LinkVersion(h, ms, n);
    LinkedBare(h, ms, n);
    PartIs(h, ms, n, |Own(h, n)|);
    LastAll(Own(h, n), |Own(h, n)|);
  }

  /** The oldest part of version o and the whole members after it. */
  ghost function WindowParts(ms: seq<Manifest>, o: nat, take: nat, v: nat): seq<Part>
    requires 1 <= o <= v <= |ms|
  {
    [Part(At(ms, o), take)] + WholeParts(ms, o + 1, v)
  }

  lemma {:induction false} WindowGathers(h: History, ms: seq<Manifest>, o: nat, take: nat, v: nat, base: int,
                                         parts: seq<Part>, items: seq<Item>)
    requires Represents(h, ms) && 1 <= v <= |h| && Root(h, v) <= o <= v
    requires take <= |OwnItems(h, o)|
    requires BaseOk(h, o, PartRun(Part(At(ms, o), take)), base, Last(OwnItems(h, o), take))
    requires parts == WindowParts(ms, o, take, v)
    requires items == Last(OwnItems(h, o), take) + Added(h, o, v)
    ensures Gathers(parts, items, v)
    ensures BaseOk(h, v, AllRuns(parts), base, items)
    decreases v
  {
    hide *;
    OneManifestEach(h, ms);
    var first := Last(OwnItems(h, o), take);
    if o == v {
      OldestAlone(h, ms, o, take, base, parts, items);
    } else {
      RootBelow(h, v, v);
      RootBelow(h, v, v - 1);
      AddedLast(h, o, v);
      var olderParts, older := WindowParts(ms, o, take, v - 1), first + Added(h, o, v - 1);
      WindowGathers(h, ms, o, take, v - 1, base, olderParts, older);
      WindowPartsSnoc(ms, o, take, v, parts);
      Assoc(first, Added(h, o, v - 1), Own(h, v));
      WindowNext(h, ms, v, olderParts, older, base, parts, items);
    }
  }

  lemma WindowPartsSnoc(ms: seq<Manifest>, o: nat, take: nat, v: nat, parts: seq<Part>)
    requires 1 <= o < v <= |ms| && parts == WindowParts(ms, o, take, v)
    ensures parts == WindowParts(ms, o, take, v - 1) + [Part(At(ms, v), |At(ms, v).spans|)]
  {
    Assoc([Part(At(ms, o), take)], WholeParts(ms, o + 1, v - 1), [Part(At(ms, v), |At(ms, v).spans|)]);
  }

  lemma OldestAlone(h: History, ms: seq<Manifest>, o: nat, take: nat, base: int, parts: seq<Part>, items: seq<Item>)
    requires Represents(h, ms) && 1 <= o <= |h|
    requires take <= |OwnItems(h, o)|
    requires BaseOk(h, o, PartRun(Part(At(ms, o), take)), base, Last(OwnItems(h, o), take))
    requires parts == WindowParts(ms, o, take, o)
    requires items == Last(OwnItems(h, o), take) + Added(h, o, o)
    ensures Gathers(parts, items, o)
    ensures BaseOk(h, o, AllRuns(parts), base, items)
  {
    OldestGathers(h, ms, o, take);
    Unit([Part(At(ms, o), take)]);
    Unit(Last(OwnItems(h, o), take));
  }

  /** One more linked member. */
  lemma WindowNext(h: History, ms: seq<Manifest>, v: nat, older: seq<Part>, olderItems: seq<Item>, base: int,
                   parts: seq<Part>, items: seq<Item>)
    requires Represents(h, ms) && 1 < v <= |h| && Linked(h, v)
    requires Gathers(older, olderItems, v - 1)
    requires BaseOk(h, v - 1, AllRuns(older), base, olderItems)
    requires parts == older + [Part(At(ms, v), |At(ms, v).spans|)]
    requires items == olderItems + Own(h, v)
    ensures Gathers(parts, items, v)
    ensures BaseOk(h, v, AllRuns(parts), base, items)
  {
    var p := Part(At(ms, v), |At(ms, v).spans|);
    LinkedPart(h, ms, v);
    GathersSnoc(older, olderItems, v - 1, p, Own(h, v), v);
    AllSnoc(older, p);
    ExactExtend(h, base, v, olderItems);
  }

  /** A window is right for the items it keeps of version v's table. */
  ghost predicate WindowKeeps(h: History, v: nat, w: WindowSet, items: seq<Item>)
    requires 1 <= v <= |h|
  {
    && Sum(w.spans) == |w.chunks|
    && Group(w.chunks, w.spans) == BatchesOf(items)
    && Expand(w.members) == Tags(items)
    && RunsOk(w.members, v)
    && BaseOk(h, v, w.members, w.base, items)
  }

  /** Where the window walk stops, the newest `keep` items are a tail of that
      member's items followed by everything added after it. */
  lemma KeptItems(h: History, v: nat, o: nat, keep: nat)
    requires 1 <= v <= |h| && Root(h, v) <= o <= v
    requires |Added(h, o, v)| <= keep
    requires Linked(h, o) ==> keep <= |Added(h, o, v)| + |Own(h, o)|
    ensures var take := Min(keep - |Added(h, o, v)|, |OwnItems(h, o)|);
            Last(Table(h, v), keep) == Last(OwnItems(h, o), take) + Added(h, o, v)
  {
    var rest := keep - |Added(h, o, v)|;
    TableAbove(h, o, v);
    LastConcat(Table(h, o), Added(h, o, v), keep);
    if Linked(h, o) {
      assert Table(h, o) == Table(h, o - 1) + Own(h, o);
      LastConcat(Table(h, o - 1), Own(h, o), rest);
    } else if rest > |Table(h, o)| {
      LastAll(Table(h, o), rest);
      LastAll(Table(h, o), |Table(h, o)|);
    }
  }

  lemma WindowStops(h: History, ms: seq<Manifest>, v: nat, keep: nat)
    requires Represents(h, ms) && 1 <= v <= |h| && keep > 0
    ensures var o := StopAt(h, ms, EnoughFor(keep), v, v);
            && OwnTotal(Segment(ms, v, o + 1)) < keep
            && (Linked(h, o) ==> keep <= OwnTotal(Segment(ms, v, o)))
  {
    hide Represents, OwnTotal, Segment, Root, Linked;
    OneManifestEach(h, ms);
    var o := StopAt(h, ms, EnoughFor(keep), v, v);
    StopAtIs(h, ms, EnoughFor(keep), v, v);
    RootNotLinked(h, v);
    NothingNewer(h, ms, v);
  }

  /** The window collected for a re-rooting commit over any represented history
      keeps exactly the newest `keep` batches of the prior table, names the version
      of every one of them, and its base is a version from which every later reader
      can be caught up exactly. */
  lemma WindowIsExact(h: History, ms: seq<Manifest>, v: nat, keep: nat, resolve: Resolver) returns (w: WindowSet)
    requires Represents(h, ms) && 1 <= v <= |h|
    requires Faithful(h, ms, v, resolve)
    requires |Table(h, v)| <= U32_MAX
    ensures WindowFor(At(ms, v), keep, resolve) == Ok(w)
    ensures WindowKeeps(h, v, w, Last(Table(h, v), keep))
  {
    hide *;
    OneManifestEach(h, ms);
    if keep == 0 {
      w := EmptyWindow(h, ms, v, resolve);
      NoneLast(Table(h, v));
    } else {
      var o := StopAt(h, ms, EnoughFor(keep), v, v);
      WalkFromHead(h, ms, resolve, EnoughFor(keep), v);
      WindowStops(h, ms, v, keep);
      w := WindowFrom(h, ms, v, o, keep);
      WindowWalks(At(ms, v), keep, resolve, Segment(ms, v, o));
    }
  }

  lemma NoneLast(items: seq<Item>)
    ensures Last(items, 0) == []
  {
  }

  lemma WindowWalks(prior: Manifest, keep: nat, resolve: Resolver, members: seq<Manifest>)
    requires keep > 0 && Walk(prior, resolve, EnoughFor(keep), prior, []) == Ok(members)
    ensures WindowFor(prior, keep, resolve) == WindowOf(prior, members, keep)
  {
    hide Walk, WindowOf;
  }

  lemma EmptyWindow(h: History, ms: seq<Manifest>, v: nat, resolve: Resolver) returns (w: WindowSet)
    requires Represents(h, ms) && 1 <= v <= |h|
    ensures WindowFor(At(ms, v), 0, resolve) == Ok(w)
    ensures WindowKeeps(h, v, w, [])
  {
    LinkVersion(h, ms, v);
    w := WindowSet([], [], [], v);
    assert Exact(h, v, v, []);
  }

  lemma WindowFrom(h: History, ms: seq<Manifest>, v: nat, o: nat, keep: nat) returns (w: WindowSet)
    requires Represents(h, ms) && 1 <= v <= |h| && Root(h, v) <= o <= v
    requires OwnTotal(Segment(ms, v, o + 1)) < keep
    requires Linked(h, o) ==> keep <= OwnTotal(Segment(ms, v, o))
    ensures WindowOf(At(ms, v), Segment(ms, v, o), keep) == Ok(w)
    ensures WindowKeeps(h, v, w, Last(Table(h, v), keep))
  {
    hide *;
    var take := OldestTake(h, ms, v, o, keep);
    var parts := WindowParts(ms, o, take, v);
    w := OldestAndRest(h, ms, v, o, take, parts, Last(Table(h, v), keep));
    WindowOfParts(At(ms, v), Segment(ms, v, o), keep, parts);
  }

  lemma WindowOfParts(prior: Manifest, members: seq<Manifest>, keep: nat, parts: seq<Part>)
    requires parts == Reverse(Parts(members, keep)) && AllFit(parts) && |parts| > 0
    ensures WindowOf(prior, members, keep)
            == Ok(WindowSet(AllChunks(parts), AllSpans(parts), AllRuns(parts), PartBase(parts[0])))
  {
    hide AllFit, AllChunks, AllSpans, AllRuns, PartBase, Reverse, Parts;
  }

  /** How much of the oldest member the window takes. */
  lemma OldestTake(h: History, ms: seq<Manifest>, v: nat, o: nat, keep: nat) returns (take: nat)
    requires Represents(h, ms) && 1 <= v <= |h| && Root(h, v) <= o <= v
    requires OwnTotal(Segment(ms, v, o + 1)) < keep
    requires Linked(h, o) ==> keep <= OwnTotal(Segment(ms, v, o))
    ensures take <= |OwnItems(h, o)| && |ms| == |h|
    ensures Reverse(Parts(Segment(ms, v, o), keep)) == WindowParts(ms, o, take, v)
    ensures Last(Table(h, v), keep) == Last(OwnItems(h, o), take) + Added(h, o, v)
  {
    hide Represents, Table, Last, Parts, Reverse, Own, Added, OwnTotal, Segment, WholeParts;
    OneManifestEach(h, ms);
    OwnTotalIs(h, ms, v, o);
    SpanCount(h, ms, o);
    take := Min(keep - |Added(h, o, v)|, |OwnItems(h, o)|);
    PartsAre(ms, v, o, keep);
    KeptItems(h, v, o, keep);
  }

  lemma OldestAndRest(h: History, ms: seq<Manifest>, v: nat, o: nat, take: nat, parts: seq<Part>, items: seq<Item>)
    returns (w: WindowSet)
    requires Represents(h, ms) && 1 <= v <= |h| && Root(h, v) <= o <= v
    requires take <= |OwnItems(h, o)|
    requires parts == WindowParts(ms, o, take, v)
    requires items == Last(OwnItems(h, o), take) + Added(h, o, v)
    ensures AllFit(parts) && |parts| > 0
    ensures w == WindowSet(AllChunks(parts), AllSpans(parts), AllRuns(parts), PartBase(parts[0]))
    ensures WindowKeeps(h, v, w, items)
  {
    PartBaseIs(h, ms, o, take, Last(OwnItems(h, o), take));
    WindowGathers(h, ms, o, take, v, PartBase(Part(At(ms, o), take)), parts, items);
    w := WindowSet(AllChunks(parts), AllSpans(parts), AllRuns(parts), PartBase(parts[0]));
  }
}
