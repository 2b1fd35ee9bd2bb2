/** Commit histories and the tables they denote.

    A history is the list of commits of one artifact; version n is the n-th
    commit. `Table` says what version n's table is without mentioning manifests,
    chains or windows, and `Represents` says when a list of manifests is what the
    commit path wrote for that history. */
module Lineage {
  import opened Common
  import opened Manifests
  import opened ChainWalk
  import opened Window

  datatype Commit = Replace | Append | Rewindow(keep: nat)

  datatype Entry = Entry(commit: Commit, batches: seq<Batch>)

  /** A batch together with the version that added it. */
  datatype Item = Item(version: nat, batch: Batch)

  type History = seq<Entry>

  function Tagged(v: nat, batches: seq<Batch>): (r: seq<Item>)
    ensures |r| == |batches|
  {
    if |batches| == 0 then []
    else Tagged(v, batches[..|batches| - 1]) + [Item(v, batches[|batches| - 1])]
  }

  /** The items version n itself adds. */
  function Own(h: History, n: nat): seq<Item>
    requires 1 <= n <= |h|
  {
    Tagged(n, h[n - 1].batches)
  }

  /** The table of version n. */
  function Table(h: History, n: nat): seq<Item>
    requires n <= |h|
  {
    if n == 0 then []
    else match Kind(h, n)
      case Replace => Own(h, n)
      case Append => Table(h, n - 1) + Own(h, n)
      case Rewindow(keep) => Last(Table(h, n - 1), keep) + Own(h, n)
  }

  /** Everything the versions after `s`, up to `n`, added. */
  function Added(h: History, s: nat, n: nat): seq<Item>
    requires n <= |h|
  {
    if n <= s then [] else Added(h, s, n - 1) + Own(h, n)
  }

  /** How version v was committed. */
  function Kind(h: History, v: nat): Commit
    requires 1 <= v <= |h|
  {
    h[v - 1].commit
  }

  ghost predicate NoReplace(h: History, s: nat, n: nat)
    requires n <= |h|
  {
    forall v :: s < v <= n ==> Kind(h, v) != Replace
  }

  /** The items added after version `s`. */
  function After(items: seq<Item>, s: nat): seq<Item> {
    if |items| == 0 then []
    else
      var x := items[|items| - 1];
      After(items[..|items| - 1], s) + (if x.version > s then [x] else [])
  }

  function BatchesOf(items: seq<Item>): (r: seq<Batch>)
    ensures |r| == |items|
  {
    if |items| == 0 then [] else BatchesOf(items[..|items| - 1]) + [items[|items| - 1].batch]
  }

  function Tags(items: seq<Item>): (r: seq<nat>)
    ensures |r| == |items|
  {
    if |items| == 0 then [] else Tags(items[..|items| - 1]) + [items[|items| - 1].version]
  }

  /** A reader at version `s` can be caught up exactly from `items`: nothing was
      replaced since, and all that was added since is still there. */
  ghost predicate Exact(h: History, s: nat, n: nat, items: seq<Item>)
    requires n <= |h|
  {
    NoReplace(h, s, n) && After(items, s) == Added(h, s, n)
  }

  // ---- Projections of items ----

  lemma {:induction false} BatchesOfConcat(a: seq<Item>, b: seq<Item>)
    ensures BatchesOf(a + b) == BatchesOf(a) + BatchesOf(b)
    decreases |b|
  {
    if |b| == 0 {
      assert a + b == a;
    } else {
      TakeConcat(a, b, 1);
      BatchesOfConcat(a, b[..|b| - 1]);
    }
  }

  lemma {:induction false} TagsConcat(a: seq<Item>, b: seq<Item>)
    ensures Tags(a + b) == Tags(a) + Tags(b)
    decreases |b|
  {
    if |b| == 0 {
      assert a + b == a;
    } else {
      TakeConcat(a, b, 1);
      TagsConcat(a, b[..|b| - 1]);
    }
  }

  /** Projections commute with keeping a prefix, skipping one, and keeping a suffix. */
  lemma SplitProjections(items: seq<Item>, k: nat)
    requires k <= |items|
    ensures BatchesOf(Skip(items, k)) == Skip(BatchesOf(items), k)
    ensures BatchesOf(Last(items, k)) == Last(BatchesOf(items), k)
    ensures Tags(items[..k]) == Tags(items)[..k]
    ensures Tags(Last(items, k)) == Last(Tags(items), k)
  {
    SkipProjections(items, k);
    LastSplit(items, k);
    var newer := Last(items, k);
    var older := items[..|items| - k];
    BatchesOfConcat(older, newer);
    TagsConcat(older, newer);
    LastConcat(BatchesOf(older), BatchesOf(newer), k);
    LastConcat(Tags(older), Tags(newer), k);
    LastAll(BatchesOf(newer), k);
    LastAll(Tags(newer), k);
  }

  lemma {:induction false} SkipProjections(items: seq<Item>, k: nat)
    ensures BatchesOf(Skip(items, k)) == Skip(BatchesOf(items), k)
    ensures k <= |items| ==> Tags(items[..k]) == Tags(items)[..k]
  {
    if |items| > k {
      SkipProjections(items[..|items| - 1], k);
      assert Skip(items, k)[..|items| - 1 - k] == Skip(items[..|items| - 1], k);
      assert BatchesOf(items)[..|items| - 1] == BatchesOf(items[..|items| - 1]);
      assert items[..|items| - 1][..k] == items[..k];
      assert Tags(items)[..|items| - 1][..k] == Tags(items)[..k];
    } else if |items| == k {
      assert items[..k] == items && Tags(items)[..k] == Tags(items);
    }
  }

  lemma {:induction false} TaggedIs(v: nat, batches: seq<Batch>)
    ensures BatchesOf(Tagged(v, batches)) == batches
    ensures Tags(Tagged(v, batches)) == Repeat(v, |batches|)
  {
    if |batches| > 0 {
      var n := |batches| - 1;
      TaggedIs(v, batches[..n]);
      assert Tagged(v, batches)[..n] == Tagged(v, batches[..n]);
    }
  }

  lemma {:induction false} TagAt(items: seq<Item>, i: nat)
    requires i < |items|
    ensures Tags(items)[i] == items[i].version
  {
    if i < |items| - 1 {
      TagAt(items[..|items| - 1], i);
    }
  }

  lemma OwnVersions(h: History, n: nat)
    requires 1 <= n <= |h|
    ensures forall i :: 0 <= i < |Own(h, n)| ==> Own(h, n)[i].version == n
    ensures BatchesOf(Own(h, n)) == h[n - 1].batches
    ensures Tags(Own(h, n)) == Repeat(n, |h[n - 1].batches|)
  {
    TaggedIs(n, h[n - 1].batches);
    forall i | 0 <= i < |Own(h, n)|
      ensures Own(h, n)[i].version == n
    {
      TagAt(Own(h, n), i);
    }
  }

  // ---- After and Added ----

  lemma {:induction false} AfterConcat(a: seq<Item>, b: seq<Item>, s: nat)
    ensures After(a + b, s) == After(a, s) + After(b, s)
    decreases |b|
  {
    if |b| == 0 {
      assert a + b == a;
    } else {
      TakeConcat(a, b, 1);
      AfterConcat(a, b[..|b| - 1], s);
      var x := b[|b| - 1];
      Assoc(After(a, s), After(b[..|b| - 1], s), if x.version > s then [x] else []);
    }
  }

  lemma {:induction false} AfterAll(items: seq<Item>, s: nat)
    requires forall i :: 0 <= i < |items| ==> items[i].version > s
    ensures After(items, s) == items
  {
    if |items| > 0 {
      AfterAll(items[..|items| - 1], s);
    }
  }

  lemma {:induction false} AfterNone(items: seq<Item>, s: nat)
    requires forall i :: 0 <= i < |items| ==> items[i].version <= s
    ensures After(items, s) == []
  {
    if |items| > 0 {
      AfterNone(items[..|items| - 1], s);
    }
  }

  lemma {:induction false} AfterAfter(items: seq<Item>, s: nat, t: nat)
    requires s <= t
    ensures After(After(items, s), t) == After(items, t)
  {
    if |items| > 0 {
      var x := items[|items| - 1];
      AfterAfter(items[..|items| - 1], s, t);
      AfterConcat(After(items[..|items| - 1], s), if x.version > s then [x] else [], t);
      assert After([x], t) == if x.version > t then [x] else [] by {
        assert [x][..0] == [];
      }
    }
  }

  lemma {:induction false} AddedTags(h: History, s: nat, n: nat)
    requires n <= |h|
    ensures forall x :: x in Added(h, s, n) ==> s < x.version <= n
  {
    if n > s {
      AddedTags(h, s, n - 1);
      OwnVersions(h, n);
    }
  }

  lemma {:induction false} AfterAdded(h: History, s: nat, t: nat, n: nat)
    requires s <= t <= n <= |h|
    ensures After(Added(h, s, n), t) == Added(h, t, n)
    decreases n
  {
    if n == t {
      AddedTags(h, s, n);
      AfterOld(Added(h, s, n), t);
    } else {
      AfterAdded(h, s, t, n - 1);
      AfterOwn(h, Added(h, s, n - 1), n, t);
    }
  }

  lemma AfterOld(items: seq<Item>, s: nat)
    requires forall x :: x in items ==> x.version <= s
    ensures After(items, s) == []
  {
    assert forall i :: 0 <= i < |items| ==> items[i] in items;
    AfterNone(items, s);
  }

  lemma AfterOwn(h: History, items: seq<Item>, n: nat, s: nat)
    requires s < n <= |h|
    ensures After(items + Own(h, n), s) == After(items, s) + Own(h, n)
  {
    AfterConcat(items, Own(h, n), s);
    OwnVersions(h, n);
    AfterAll(Own(h, n), s);
  }

  /** Catching up exactly from `s` lets every later reader catch up exactly too. */
  lemma ExactLater(h: History, s: nat, t: nat, n: nat, items: seq<Item>)
    requires s <= t <= n <= |h|
    requires Exact(h, s, n, items)
    ensures Exact(h, t, n, items)
  {
    AfterAfter(items, s, t);
    AfterAdded(h, s, t, n);
  }

  /** One more non-replacing version extends exactness. */
  lemma ExactExtend(h: History, s: nat, n: nat, items: seq<Item>)
    requires s < n <= |h|
    requires Exact(h, s, n - 1, items)
    requires Kind(h, n) != Replace
    ensures Exact(h, s, n, items + Own(h, n))
  {
    AfterOwn(h, items, n, s);
  }

  lemma {:induction false} TableTags(h: History, n: nat)
    requires n <= |h|
    ensures forall x :: x in Table(h, n) ==> 1 <= x.version <= n
  {
    if n > 0 {
      TableTags(h, n - 1);
      OwnVersions(h, n);
      if Kind(h, n).Rewindow? {
        var prior := Table(h, n - 1);
        var kept := Last(prior, Kind(h, n).keep);
        forall x | x in kept
          ensures x in prior
        {
          LastMember(prior, Kind(h, n).keep, x);
        }
      }
    }
  }

  /** What a non-replacing commit keeps of its predecessor's table. */
  lemma TableStep(h: History, n: nat) returns (kept: seq<Item>)
    requires 1 <= n <= |h| && Kind(h, n) != Replace
    ensures Suffix(kept, Table(h, n - 1))
    ensures Table(h, n) == kept + Own(h, n)
  {
    var commit := Kind(h, n);
    if commit.Rewindow? {
      kept := Last(Table(h, n - 1), commit.keep);
      LastIsSuffix(Table(h, n - 1), commit.keep);
    } else {
      kept := Table(h, n - 1);
      assert kept == [] + kept;
    }
  }

  /** Without a replacement in between, the newer table is what a reader gets by
      appending what was added and forgetting a prefix. */
  lemma {:induction false} TableIsSuffix(h: History, s: nat, n: nat)
    requires s <= n <= |h|
    requires NoReplace(h, s, n)
    ensures Suffix(Table(h, n), Table(h, s) + Added(h, s, n))
    decreases n
  {
    var base, table, added := Table(h, s), Table(h, n), Added(h, s, n);
    if n == s {
      assert base + added == table;
      assert table == [] + table;
    } else {
      assert Kind(h, n) != Replace;
      TableIsSuffix(h, s, n - 1);
      var kept := TableStep(h, n);
      var prior, older, own := Table(h, n - 1), Added(h, s, n - 1), Own(h, n);
      Assoc(base, older, own);
      SuffixAppend(kept, prior, base + older, own);
    }
  }

  // ---- Kept tables as run-length encodings of versions ----

  function Repeat(v: nat, n: nat): (r: seq<nat>)
    ensures |r| == n
    ensures forall i :: 0 <= i < n ==> r[i] == v
  {
    if n == 0 then [] else Repeat(v, n - 1) + [v]
  }

  function Expand(kept: seq<Kept>): (r: seq<nat>)
    ensures |r| == KeptSum(kept)
  {
    if |kept| == 0 then []
    else Expand(kept[..|kept| - 1]) + Repeat(kept[|kept| - 1].version, kept[|kept| - 1].batches)
  }

  lemma ExpandNone()
    ensures Expand([]) == []
  {
  }

  lemma ExpandLast(kept: seq<Kept>)
    requires |kept| > 0
    ensures var k := kept[|kept| - 1]; Expand(kept) == Expand(kept[..|kept| - 1]) + Repeat(k.version, k.batches)
  {
  }

  lemma {:induction false} ExpandConcat(a: seq<Kept>, b: seq<Kept>)
    ensures Expand(a + b) == Expand(a) + Expand(b)
    decreases |b|
  {
    hide Expand, Repeat;
    if |b| == 0 {
      Unit(a);
      ExpandNone();
      Unit(Expand(a));
    } else {
      var k, pre := b[|b| - 1], b[..|b| - 1];
      TakeConcat(a, b, 1);
      ExpandConcat(a, pre);
      ExpandLast(b);
      ExpandLast(a + b);
      Assoc(Expand(a), Expand(pre), Repeat(k.version, k.batches));
    }
  }

  lemma ExpandOne(v: nat, n: nat)
    ensures Expand([Kept(v, n, 0)]) == Repeat(v, n)
  {
    assert [Kept(v, n, 0)][..0] == [];
  }

  /** Runs are non-empty and their versions strictly increase, none beyond `top`. */
  ghost predicate RunsOk(kept: seq<Kept>, top: nat) {
    |kept| == 0
    || var k := kept[|kept| - 1];
       0 < k.batches && k.pad == 0 && 1 <= k.version <= top && RunsOk(kept[..|kept| - 1], k.version - 1)
  }

  lemma {:induction false} RunsRaise(kept: seq<Kept>, top: nat, top': nat)
    requires RunsOk(kept, top) && top <= top'
    ensures RunsOk(kept, top')
  {
  }

  lemma RunsSnoc(runs: seq<Kept>, k: Kept, top: nat)
    requires 0 < k.batches && k.pad == 0 && 1 <= k.version <= top
    requires RunsOk(runs, k.version - 1)
    ensures RunsOk(runs + [k], top)
  {
    TakeConcat(runs, [k], 1);
    Unit(runs);
  }

  lemma {:induction false} RunsBound(kept: seq<Kept>, top: nat, i: nat)
    requires RunsOk(kept, top) && i < |kept|
    ensures 0 < kept[i].batches && kept[i].pad == 0 && 1 <= kept[i].version <= top
    decreases |kept|
  {
    var n := |kept| - 1;
    if i < n {
      RunsBound(kept[..n], kept[n].version - 1, i);
    }
  }

  /** The table rules as the validator states them. */
  lemma {:induction false} RunsIncrease(kept: seq<Kept>, top: nat, i: nat, j: nat)
    requires RunsOk(kept, top) && i < j < |kept|
    ensures kept[i].version < kept[j].version
    decreases |kept|
  {
    var n := |kept| - 1;
    if j < n {
      RunsIncrease(kept[..n], kept[n].version - 1, i, j);
    } else {
      RunsBound(kept[..n], kept[n].version - 1, i);
    }
  }

  lemma {:induction false} RunsConcat(a: seq<Kept>, b: seq<Kept>, mid: nat, top: nat)
    requires RunsOk(a, mid) && RunsOk(b, top)
    requires forall i :: 0 <= i < |b| ==> mid < b[i].version
    requires mid <= top
    ensures RunsOk(a + b, top)
    decreases |b|
  {
    if |b| == 0 {
      assert a + b == a;
      RunsRaise(a, mid, top);
    } else {
      var n := |b| - 1;
      assert (a + b)[..|a + b| - 1] == a + b[..n];
      RunsConcat(a, b[..n], mid, b[n].version - 1);
    }
  }

  /** Splitting off the newest run. */
  lemma SplitRun(kept: seq<Kept>, items: seq<Item>) returns (older: seq<Item>, newer: seq<Item>)
    requires |kept| > 0 && Tags(items) == Expand(kept)
    ensures items == older + newer
    ensures Tags(older) == Expand(kept[..|kept| - 1])
    ensures |newer| == kept[|kept| - 1].batches
    ensures forall i :: 0 <= i < |newer| ==> newer[i].version == kept[|kept| - 1].version
  {
    var k := kept[|kept| - 1];
    older, newer := items[..|items| - k.batches], Last(items, k.batches);
    LastSplit(items, k.batches);
    TagsConcat(older, newer);
    var a, b := Expand(kept[..|kept| - 1]), Repeat(k.version, k.batches);
    assert Tags(older) == (a + b)[..|a|] == a;
    forall i | 0 <= i < |newer|
      ensures newer[i].version == k.version
    {
      TagAt(newer, i);
      assert Tags(newer)[i] == (Tags(older) + Tags(newer))[|a| + i] == b[i];
    }
  }

  /** Skipping the kept batches of members at or before `since` leaves exactly
      the items added after `since`. */
  lemma {:induction false} KeptSkip(kept: seq<Kept>, top: nat, items: seq<Item>, since: nat)
    requires RunsOk(kept, top)
    requires Tags(items) == Expand(kept)
    ensures KeptUpTo(kept, since) <= |items|
    ensures Skip(items, KeptUpTo(kept, since)) == After(items, since)
    decreases |kept|
  {
    if |kept| > 0 {
      var k := kept[|kept| - 1];
      var pre := kept[..|kept| - 1];
      var older, newer := SplitRun(kept, items);
      KeptSkip(pre, k.version - 1, older, since);
      if k.version <= since {
        KeptWhole(pre, k.version - 1, older, since);
      }
      SkipRun(older, newer, KeptUpTo(pre, since), k.version, since);
    }
  }

  /** One more run after a skipped prefix. */
  lemma SkipRun(older: seq<Item>, newer: seq<Item>, u: nat, v: nat, since: nat)
    requires u <= |older| && Skip(older, u) == After(older, since)
    requires forall i :: 0 <= i < |newer| ==> newer[i].version == v
    requires v <= since ==> u == |older|
    ensures var w := u + (if v <= since then |newer| else 0);
            w <= |older + newer| && Skip(older + newer, w) == After(older + newer, since)
  {
    AfterConcat(older, newer, since);
    if v <= since {
      AfterNone(newer, since);
    } else {
      AfterAll(newer, since);
      SkipConcat(older, newer, u);
    }
  }

  /** Runs at or before `since` are skipped whole. */
  lemma {:induction false} KeptWhole(kept: seq<Kept>, top: nat, items: seq<Item>, since: nat)
    requires RunsOk(kept, top) && top <= since
    requires Tags(items) == Expand(kept)
    ensures KeptUpTo(kept, since) == |items|
  {
    if |kept| > 0 {
      var k := kept[|kept| - 1];
      var older, newer := SplitRun(kept, items);
      KeptWhole(kept[..|kept| - 1], k.version - 1, older, since);
    }
  }

  // ---- Manifests that represent a history ----

  /** The version of the chain root version n hangs from. */
  function Root(h: History, n: nat): (r: nat)
    requires 1 <= n <= |h|
    ensures 1 <= r <= n
  {
    if n == 1 || !Kind(h, n).Append? then n else Root(h, n - 1)
  }

  ghost predicate Linked(h: History, n: nat)
    requires 1 <= n <= |h|
  {
    n > 1 && Kind(h, n).Append?
  }

  ghost predicate PlainRoot(h: History, n: nat)
    requires 1 <= n <= |h|
  {
    n == 1 || Kind(h, n).Replace?
  }

  ghost predicate LinkedManifest(h: History, prior: Manifest, m: Manifest, n: nat)
    requires 1 < n <= |h|
  {
    && m.prev.Some?
    && m.prev.value.version == n - 1
    && m.prev.value.depth == prior.depth
    && m.prev.value.total == m.total - |m.spans|
    && m.depth == prior.depth + 1
    && m.total == Min(U32_MAX, |m.spans| + prior.total)
    && m.artifactId == prior.artifactId
    && m.schemaId == prior.schemaId
    && m.kept == [] && m.windowBase == 0
    && Partitioned(m) && Batches(m) == h[n - 1].batches
  }

  /** The window of a root: its kept runs name the version of every leading batch,
      and its base is a version every later reader can be caught up from. */
  ghost predicate RootWindow(h: History, m: Manifest, n: nat)
    requires 1 <= n <= |h|
  {
    var t := Table(h, n);
    && RunsOk(m.kept, n - 1)
    && KeptSum(m.kept) <= |t|
    && Tags(t[..KeptSum(m.kept)]) == Expand(m.kept)
    && t[..KeptSum(m.kept)] + Own(h, n) == t
    && if PlainRoot(h, n) then m.kept == [] && m.windowBase == 0
       else
         && 1 <= m.windowBase < n
         && (m.kept != [] ==> m.windowBase <= m.kept[0].version)
         && Exact(h, m.windowBase, n, t)
  }

  ghost predicate RootManifest(h: History, m: Manifest, n: nat)
    requires 1 <= n <= |h|
  {
    && m.prev.None?
    && m.depth == 0
    && m.total == |m.spans|
    && Partitioned(m) && Batches(m) == BatchesOf(Table(h, n))
    && RootWindow(h, m, n)
  }

  function At(ms: seq<Manifest>, n: nat): Manifest
    requires 1 <= n <= |ms|
  {
    ms[n - 1]
  }

  ghost predicate RepresentsAt(h: History, ms: seq<Manifest>, n: nat)
    requires |ms| == |h| && 1 <= n <= |h|
  {
    var m := At(ms, n);
    && m.version == n
    && |m.spans| <= U32_MAX
    && if Linked(h, n) then LinkedManifest(h, At(ms, n - 1), m, n) else RootManifest(h, m, n)
  }

  ghost predicate Represents(h: History, ms: seq<Manifest>) {
    |ms| == |h| && forall n :: 1 <= n <= |h| ==> RepresentsAt(h, ms, n)
  }

  /** Every link on version n's chain still resolves to the manifest it named. */
  ghost predicate Faithful(h: History, ms: seq<Manifest>, v: nat, resolve: Resolver)
    requires |ms| == |h| && 1 <= v <= |h|
  {
    forall c: nat, n: nat ::
      Root(h, v) < n <= v ==>
        && At(ms, n).prev.Some?
        && resolve(c, At(ms, n).prev.value) == Ok(At(ms, n - 1))
  }
}
