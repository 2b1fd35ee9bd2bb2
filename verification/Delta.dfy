/** Walks over represented histories, and the delta read
    (crates/shm-artifact/src/artifact.rs, batches_since and batches_of). */
module Delta {
  import opened Common
  import opened Manifests
  import opened ChainWalk
  import opened Window
  import opened Lineage

  /** Manifests of versions v, v-1, .., o. */
  function Segment(ms: seq<Manifest>, v: nat, o: nat): (r: seq<Manifest>)
    requires 1 <= o && o <= v + 1 && v <= |ms|
    ensures |r| == v + 1 - o
    decreases v + 1 - o
  {
    if v < o then [] else Segment(ms, v, o + 1) + [At(ms, o)]
  }

  /** Manifests of versions o, .., v. */
  function Chain(ms: seq<Manifest>, o: nat, v: nat): (r: seq<Manifest>)
    requires 1 <= o && o <= v + 1 && v <= |ms|
    ensures |r| == v + 1 - o
  {
    if v < o then [] else Chain(ms, o, v - 1) + [At(ms, v)]
  }

  lemma {:induction false} ChainCons(ms: seq<Manifest>, o: nat, v: nat)
    requires 1 <= o <= v <= |ms|
    ensures Chain(ms, o, v) == [At(ms, o)] + Chain(ms, o + 1, v)
    decreases v
  {
    if o < v {
      ChainCons(ms, o, v - 1);
      Assoc([At(ms, o)], Chain(ms, o + 1, v - 1), [At(ms, v)]);
    }
  }

  lemma {:induction false} OldestFirst(ms: seq<Manifest>, v: nat, o: nat)
    requires 1 <= o <= v + 1 && v <= |ms|
    ensures Reverse(Segment(ms, v, o)) == Chain(ms, o, v)
    decreases v + 1 - o
  {
    if o <= v {
      OldestFirst(ms, v, o + 1);
      var newer := Segment(ms, v, o + 1);
      assert (newer + [At(ms, o)])[..|newer|] == newer;
      ChainCons(ms, o, v);
    }
  }

  /** The version a walk from v stops at, having come down to n. */
  ghost function StopAt(h: History, ms: seq<Manifest>, stop: Stop, v: nat, n: nat): (o: nat)
    requires |ms| == |h| && 1 <= v <= |h| && Root(h, v) <= n <= v
    ensures Root(h, v) <= o <= n
    decreases n
  {
    if n == Root(h, v) || stop(Segment(ms, v, n)) then n else StopAt(h, ms, stop, v, n - 1)
  }

  /** The walk stops no earlier than it must. */
  lemma {:induction false} StopAtIs(h: History, ms: seq<Manifest>, stop: Stop, v: nat, n: nat)
    requires |ms| == |h| && 1 <= v <= |h| && Root(h, v) <= n <= v
    ensures var o := StopAt(h, ms, stop, v, n);
            && (o == Root(h, v) || stop(Segment(ms, v, o)))
            && (o < n ==> !stop(Segment(ms, v, o + 1)))
    decreases n
  {
    if n != Root(h, v) && !stop(Segment(ms, v, n)) {
      StopAtIs(h, ms, stop, v, n - 1);
    }
  }

  lemma {:induction false} RootBelow(h: History, v: nat, n: nat)
    requires 1 <= v <= |h| && Root(h, v) <= n <= v
    ensures Root(h, n) == Root(h, v)
    ensures n > Root(h, v) ==> Linked(h, n)
    decreases v
  {
    if n < v {
      RootBelow(h, v - 1, n);
    }
  }

  lemma RootNotLinked(h: History, v: nat)
    requires 1 <= v <= |h|
    ensures !Linked(h, Root(h, v))
  {
    RootBelow(h, v, Root(h, v));
  }

  lemma {:induction false} ChainFacts(h: History, ms: seq<Manifest>, n: nat)
    requires Represents(h, ms) && 1 <= n <= |h|
    ensures At(ms, n).depth == n - Root(h, n)
    ensures At(ms, n).artifactId == At(ms, Root(h, n)).artifactId
    ensures At(ms, n).schemaId == At(ms, Root(h, n)).schemaId
    ensures |Table(h, n)| <= U32_MAX ==> At(ms, n).total == |Table(h, n)|
    decreases n
  {
    assert RepresentsAt(h, ms, n);
    if Linked(h, n) {
      ChainFacts(h, ms, n - 1);
      assert |At(ms, n).spans| == |Own(h, n)|;
    }
  }

  lemma SpanCount(h: History, ms: seq<Manifest>, n: nat)
    requires Represents(h, ms) && 1 <= n <= |h|
    ensures |At(ms, n).spans| == if Linked(h, n) then |Own(h, n)| else |Table(h, n)|
    ensures Partitioned(At(ms, n))
    ensures Batches(At(ms, n)) == if Linked(h, n) then BatchesOf(Own(h, n)) else BatchesOf(Table(h, n))
  {
    assert RepresentsAt(h, ms, n);
    OwnVersions(h, n);
  }

  lemma {:induction false} TableGrows(h: History, n: nat, v: nat)
    requires 1 <= v <= |h| && Root(h, v) <= n <= v
    ensures |Table(h, n)| <= |Table(h, v)|
    decreases v
  {
    if n < v {
      RootBelow(h, v, v);
      TableGrows(h, n, v - 1);
    }
  }

  /** On a represented history with no saturated total, the walk succeeds against
      any faithful resolver and gathers the expected members. */
  lemma {:induction false} WalkFinds(h: History, ms: seq<Manifest>, resolve: Resolver, stop: Stop, v: nat, n: nat)
    requires Represents(h, ms) && 1 <= v <= |h| && Root(h, v) <= n <= v
    requires Faithful(h, ms, v, resolve)
    requires |Table(h, v)| <= U32_MAX
    requires |Segment(ms, v, n + 1)| <= At(ms, v).depth
    ensures Walk(At(ms, v), resolve, stop, At(ms, n), Segment(ms, v, n + 1))
            == Ok(Segment(ms, v, StopAt(h, ms, stop, v, n)))
    decreases n
  {
    assert |ms| == |h|;
    var cur, done := At(ms, n), Segment(ms, v, n + 1);
    hide Represents, Table, Root;
    StepFacts(h, ms, v, n);
    if n > Root(h, v) {
      assert resolve(|done|, cur.prev.value) == Ok(At(ms, n - 1));
      if !stop(done + [cur]) {
        WalkFinds(h, ms, resolve, stop, v, n - 1);
      }
    }
  }

  /** Every check the walk makes at version n passes. */
  lemma StepFacts(h: History, ms: seq<Manifest>, v: nat, n: nat)
    requires Represents(h, ms) && 1 <= v <= |h| && Root(h, v) <= n <= v
    requires |Table(h, v)| <= U32_MAX
    ensures var head, cur := At(ms, v), At(ms, n);
            && v - n <= head.depth
            && OwnOk(head, cur)
            && (n == Root(h, v) ==> cur.prev.None? && RootOk(head, cur, v - n))
            && (n > Root(h, v) ==>
                  && cur.prev.Some?
                  && LinkOk(head, cur, cur.prev.value, v - n)
                  && Matches(cur.prev.value, At(ms, n - 1)))
  {
    assert |ms| == |h|;
    hide Represents, Table, Root, Own, Kind, Linked, Batches, BatchesOf, Partitioned;
    RootBelow(h, v, n);
    TableGrows(h, n, v);
    ChainFacts(h, ms, n);
    ChainFacts(h, ms, v);
    SpanCount(h, ms, n);
    MemberFacts(h, ms, n);
    if n == Root(h, v) {
      RootNotLinked(h, v);
    } else {
      RootBelow(h, v, n - 1);
      TableGrows(h, n - 1, v);
      ChainFacts(h, ms, n - 1);
      MemberFacts(h, ms, n - 1);
      OwnWithin(h, n);
    }
  }

  /** What a member's own checks look at. */
  lemma MemberFacts(h: History, ms: seq<Manifest>, n: nat)
    requires Represents(h, ms) && 1 <= n <= |h|
    ensures At(ms, n).version == n && |At(ms, n).spans| <= U32_MAX
    ensures Linked(h, n) ==>
              && n > 1 && At(ms, n).prev.Some? && At(ms, n).prev.value.version == n - 1
              && At(ms, n).prev.value.depth == At(ms, n - 1).depth
              && At(ms, n).prev.value.total == At(ms, n).total - |At(ms, n).spans|
    ensures !Linked(h, n) ==> At(ms, n).prev.None? && At(ms, n).total == |At(ms, n).spans|
  {
    assert RepresentsAt(h, ms, n);
  }

  lemma OwnWithin(h: History, n: nat)
    requires 1 < n <= |h| && Linked(h, n)
    ensures |Table(h, n)| == |Table(h, n - 1)| + |Own(h, n)|
  {
  }

  lemma WalkFromHead(h: History, ms: seq<Manifest>, resolve: Resolver, stop: Stop, v: nat)
    requires Represents(h, ms) && 1 <= v <= |h|
    requires Faithful(h, ms, v, resolve)
    requires |Table(h, v)| <= U32_MAX
    ensures Walk(At(ms, v), resolve, stop, At(ms, v), []) == Ok(Segment(ms, v, StopAt(h, ms, stop, v, v)))
  {
    assert Segment(ms, v, v + 1) == [];
    StepFacts(h, ms, v, v);
    WalkFinds(h, ms, resolve, stop, v, v);
  }

  // ---- The delta read ----

  datatype DeltaRead = DeltaRead(batches: seq<Batch>, fromVersion: nat, truncated: bool)

  /** Stop at the first manifest whose predecessor is `since` or older. */
  function SinceStop(since: nat): Stop {
    (chain: seq<Manifest>) =>
      |chain| > 0
      && var m := chain[|chain| - 1];
         m.prev.None? || m.prev.value.version <= since
  }

  /** The batches among a manifest's first `i`, after the first `skip`; None when
      their spans overrun its chunk list. */
  function BatchesUpTo(m: Manifest, skip: nat, i: nat): Option<seq<Batch>>
    requires i <= |m.spans|
  {
    if i <= skip then Some([])
    else
      var older := BatchesUpTo(m, skip, i - 1);
      var end := Sum(m.spans[..i]);
      if older.None? || end > |m.chunks| then None
      else Some(older.value + [Last(m.chunks[..end], m.spans[i - 1])])
  }

  function ManifestBatches(m: Manifest, skip: nat): Option<seq<Batch>> {
    BatchesUpTo(m, skip, |m.spans|)
  }

  /** Batches of a chain, oldest member first, skipping only in the oldest. */
  function ChainBatches(chain: seq<Manifest>, skip: nat): Option<seq<Batch>> {
    if |chain| == 0 then Some([])
    else
      var older := ChainBatches(chain[..|chain| - 1], skip);
      var own := ManifestBatches(chain[|chain| - 1], if |chain| == 1 then skip else 0);
      if older.None? || own.None? then None else Some(older.value + own.value)
  }

  /** How many leading batches of the oldest walked manifest the reader holds. */
  function HeldBatches(oldest: Manifest, since: nat): Option<nat> {
    if since == 0 || oldest.prev.Some? then Some(0) else oldest.KeptBatchesBefore(since)
  }

  /** The delta of a walked chain, oldest member first. */
  function DeltaOf(chain: seq<Manifest>, since: nat): Result<DeltaRead, Error> {
    if |chain| == 0 then Err(VersionGone)
    else
      var held := HeldBatches(chain[0], since);
      var b := ChainBatches(chain, if held.Some? then held.value else 0);
      if b.None? then Err(VersionGone) else Ok(DeltaRead(b.value, chain[0].version, held.None?))
  }

  function ReadDelta(head: Manifest, since: nat, resolve: Resolver): Result<DeltaRead, Error> {
    if head.version <= since then Ok(DeltaRead([], head.version, false))
    else match Walk(head, resolve, SinceStop(since), head, [])
      case Err(e) => Err(e)
      case Ok(walked) => DeltaOf(Reverse(walked), since)
  }

  lemma {:induction false} SumPrefix(s: seq<nat>, i: nat)
    requires i <= |s|
    ensures Sum(s[..i]) <= Sum(s)
    ensures i < |s| ==> Sum(s[..i + 1]) == Sum(s[..i]) + s[i]
    decreases |s| - i
  {
    if i < |s| {
      assert s[..i + 1][..i] == s[..i];
      SumPrefix(s, i + 1);
    } else {
      assert s[..i] == s;
    }
  }

  /** One more batch of a manifest, after the first `skip`. */
  lemma GroupNext(chunks: seq<ChunkDesc>, spans: seq<nat>, i: nat, skip: nat)
    requires skip <= i < |spans| && Sum(spans[..i]) + spans[i] <= |chunks|
    ensures Sum(spans[..i + 1]) == Sum(spans[..i]) + spans[i]
    ensures var a, b := Sum(spans[..i]), Sum(spans[..i + 1]);
            Skip(Group(chunks[..b], spans[..i + 1]), skip)
            == Skip(Group(chunks[..a], spans[..i]), skip) + [Last(chunks[..b], spans[i])]
  {
    SumPrefix(spans, i);
    var a, b := Sum(spans[..i]), Sum(spans[..i + 1]);
    var batch := Last(chunks[..b], spans[i]);
    LastSplit(chunks[..b], spans[i]);
    assert chunks[..b][..a] == chunks[..a];
    assert spans[..i + 1] == spans[..i] + [spans[i]];
    GroupSnoc(chunks[..a], spans[..i], batch);
    SkipConcat(Group(chunks[..a], spans[..i]), [batch], skip);
  }

  /** Of a well-formed manifest they are its batches, the first `skip` left out. */
  lemma {:induction false} BatchesUpToIs(m: Manifest, skip: nat, i: nat)
    requires Partitioned(m) && i <= |m.spans|
    ensures Sum(m.spans[..i]) <= |m.chunks|
    ensures BatchesUpTo(m, skip, i) == Some(Skip(Group(m.chunks[..Sum(m.spans[..i])], m.spans[..i]), skip))
  {
    SumPrefix(m.spans, i);
    if i > skip {
      SumPrefix(m.spans, i - 1);
      BatchesUpToIs(m, skip, i - 1);
      GroupNext(m.chunks, m.spans, i - 1, skip);
    }
  }

  lemma {:induction false} OverrunStays(m: Manifest, skip: nat, i: nat, j: nat)
    requires i <= j <= |m.spans| && BatchesUpTo(m, skip, i).None?
    ensures BatchesUpTo(m, skip, j).None?
    decreases j
  {
    if i < j {
      OverrunStays(m, skip, i, j - 1);
    }
  }

  /** One manifest's batches, by the running chunk index of the source loop. */
  method ReadManifestBatches(m: Manifest, skip: nat) returns (r: Option<seq<Batch>>)
    ensures r == ManifestBatches(m, skip)
  {
    var out: seq<Batch> := [];
    var idx := 0;
    var i := 0;
    while i < |m.spans|
      invariant 0 <= i <= |m.spans|
      invariant idx == Sum(m.spans[..i])
      invariant BatchesUpTo(m, skip, i) == Some(out)
    {
      var span := m.spans[i];
      SumPrefix(m.spans, i);
      if i >= skip {
        if idx + span > |m.chunks| {
          OverrunStays(m, skip, i + 1, |m.spans|);
          return None;
        }
        out := out + [Last(m.chunks[..idx + span], span)];
      }
      idx := idx + span;
      i := i + 1;
    }
    return Some(out);
  }

  method BatchesOfChain(chain: seq<Manifest>, skip: nat) returns (r: Option<seq<Batch>>)
    ensures r == ChainBatches(chain, skip)
  {
    var out: seq<Batch> := [];
    for i := 0 to |chain|
      invariant ChainBatches(chain[..i], skip) == Some(out)
    {
      assert chain[..i + 1][..i] == chain[..i];
      var own := ReadManifestBatches(chain[i], if i == 0 then skip else 0);
      if own.None? {
        NoneStays(chain, i + 1, skip);
        return None;
      }
      out := out + own.value;
    }
    assert chain[..|chain|] == chain;
    return Some(out);
  }

  lemma {:induction false} NoneStays(chain: seq<Manifest>, i: nat, skip: nat)
    requires i <= |chain| && ChainBatches(chain[..i], skip).None?
    ensures ChainBatches(chain, skip).None?
    decreases |chain| - i
  {
    if i < |chain| {
      assert chain[..i + 1][..i] == chain[..i];
      NoneStays(chain, i + 1, skip);
    } else {
      assert chain[..i] == chain;
    }
  }

  /** The delta read of a pinned head. */
  method BatchesSince(head: Manifest, since: nat, resolve: Resolver) returns (r: Result<DeltaRead, Error>)
    ensures r == ReadDelta(head, since, resolve)
  {
    if head.version <= since {
      return Ok(DeltaRead([], head.version, false));
    }
    var walked, _ := WalkNewestFirst(head, resolve, SinceStop(since));
    if walked.Err? {
      return Err(walked.error);
    }
    var chain := Reverse(walked.value);
    if |chain| == 0 {
      return Err(VersionGone);
    }
    var oldest := chain[0];
    var skip, truncated := 0, false;
    if since != 0 && oldest.prev.None? {
      var held := oldest.KeptBatchesBefore(since);
      if held.Some? {
        skip := held.value;
      } else {
        truncated := true;
      }
    }
    var batches := BatchesOfChain(chain, skip);
    if batches.None? {
      return Err(VersionGone);
    }
    return Ok(DeltaRead(batches.value, oldest.version, truncated));
  }

  lemma {:induction false} AddedSplit(h: History, s: nat, o: nat, n: nat)
    requires s <= o <= n <= |h|
    ensures Added(h, s, n) == Added(h, s, o) + Added(h, o, n)
    decreases n
  {
    if o < n {
      AddedSplit(h, s, o, n - 1);
    }
  }

  /** Above the root the table only grows by what was added. */
  lemma {:induction false} TableAbove(h: History, o: nat, v: nat)
    requires 1 <= v <= |h| && Root(h, v) <= o <= v
    ensures Table(h, v) == Table(h, o) + Added(h, o, v)
    decreases v
  {
    if o < v {
      RootBelow(h, v, v);
      TableAbove(h, o, v - 1);
      Assoc(Table(h, o), Added(h, o, v - 1), Own(h, v));
      assert Table(h, v) == Table(h, v - 1) + Own(h, v);
    } else {
      assert Table(h, o) + [] == Table(h, o);
    }
  }

  lemma AppendsAbove(h: History, o: nat, v: nat)
    requires 1 <= v <= |h| && Root(h, v) <= o <= v
    ensures NoReplace(h, o, v)
  {
    forall n | o < n <= v
      ensures Kind(h, n) != Replace
    {
      RootBelow(h, v, n);
    }
  }

  /** The items a version's own manifest lists. */
  ghost function OwnItems(h: History, n: nat): seq<Item>
    requires 1 <= n <= |h|
  {
    if Linked(h, n) then Own(h, n) else Table(h, n)
  }

  lemma WholeManifest(h: History, ms: seq<Manifest>, n: nat, skip: nat)
    requires Represents(h, ms) && 1 <= n <= |h| && skip <= |OwnItems(h, n)|
    ensures ManifestBatches(At(ms, n), skip) == Some(BatchesOf(Skip(OwnItems(h, n), skip)))
  {
    var m := At(ms, n);
    SpanCount(h, ms, n);
    BatchesUpToIs(m, skip, |m.spans|);
    assert m.spans[..|m.spans|] == m.spans && m.chunks[..|m.chunks|] == m.chunks;
    SplitProjections(OwnItems(h, n), skip);
  }

  /** The batches of versions o..v, the first `skip` of the oldest left out. */
  lemma {:induction false} ChainBatchesAre(h: History, ms: seq<Manifest>, v: nat, o: nat, skip: nat)
    requires Represents(h, ms) && 1 <= v <= |h| && Root(h, v) <= o <= v
    requires skip <= |OwnItems(h, o)|
    ensures ChainBatches(Chain(ms, o, v), skip) == Some(BatchesOf(Skip(OwnItems(h, o), skip) + Added(h, o, v)))
    decreases v
  {
    hide *;
    OneManifestEach(h, ms);
    var first := Skip(OwnItems(h, o), skip);
    if o == v {
      SingleBatches(h, ms, v, skip);
      AddedNone(h, v);
      Unit(first);
    } else {
      RootBelow(h, v, v);
      RootBelow(h, v, v - 1);
      ChainBatchesAre(h, ms, v - 1, o, skip);
      AddedLast(h, o, v);
      ChainLast(ms, o, v);
      var older, own := first + Added(h, o, v - 1), Own(h, v);
      ChainSnoc(Chain(ms, o, v - 1), At(ms, v), skip);
      LinkedBatches(h, ms, v);
      BatchesOfConcat(older, own);
      Assoc(first, Added(h, o, v - 1), own);
    }
  }

  lemma AddedNone(h: History, v: nat)
    requires v <= |h|
    ensures Added(h, v, v) == []
  {
  }

  lemma AddedLast(h: History, o: nat, v: nat)
    requires o < v <= |h|
    ensures Added(h, o, v) == Added(h, o, v - 1) + Own(h, v)
  {
  }

  lemma ChainLast(ms: seq<Manifest>, o: nat, v: nat)
    requires 1 <= o <= v <= |ms|
    ensures Chain(ms, o, v) == Chain(ms, o, v - 1) + [At(ms, v)]
  {
  }

  lemma SingleBatches(h: History, ms: seq<Manifest>, v: nat, skip: nat)
    requires Represents(h, ms) && 1 <= v <= |h| && skip <= |OwnItems(h, v)|
    ensures ChainBatches(Chain(ms, v, v), skip) == Some(BatchesOf(Skip(OwnItems(h, v), skip)))
  {
    hide *;
    OneManifestEach(h, ms);
    WholeManifest(h, ms, v, skip);
    OneChain(ms, v);
    OneBatches(At(ms, v), skip, BatchesOf(Skip(OwnItems(h, v), skip)));
  }

  lemma OneChain(ms: seq<Manifest>, v: nat)
    requires 1 <= v <= |ms|
    ensures Chain(ms, v, v) == [At(ms, v)]
  {
  }

  lemma OneBatches(m: Manifest, skip: nat, own: seq<Batch>)
    requires ManifestBatches(m, skip) == Some(own)
    ensures ChainBatches([m], skip) == Some(own)
  {
    hide ManifestBatches;
    assert [m][..0] == [];
    Unit(own);
  }

  lemma LinkedBatches(h: History, ms: seq<Manifest>, v: nat)
    requires Represents(h, ms) && 1 <= v <= |h| && Linked(h, v)
    ensures ManifestBatches(At(ms, v), 0) == Some(BatchesOf(Own(h, v)))
  {
    WholeManifest(h, ms, v, 0);
    SkipNone(Own(h, v));
  }

  lemma ChainSnoc(chain: seq<Manifest>, m: Manifest, skip: nat)
    requires |chain| > 0
    ensures ChainBatches(chain + [m], skip)
            == var older, own := ChainBatches(chain, skip), ManifestBatches(m, 0);
               if older.None? || own.None? then None else Some(older.value + own.value)
  {
    assert (chain + [m])[..|chain|] == chain;
  }

  /** The window facts of a re-rooted version. */
  lemma WindowFacts(h: History, ms: seq<Manifest>, o: nat)
    requires Represents(h, ms) && 1 <= o <= |h| && !Linked(h, o)
    ensures RootWindow(h, At(ms, o), o)
    ensures At(ms, o).prev.None?
    ensures At(ms, o).IsWindowRoot() <==> !PlainRoot(h, o)
  {
    assert RepresentsAt(h, ms, o);
  }

  /** Skipping the member batches of a windowed root leaves what was added. */
  lemma RootSkip(h: History, ms: seq<Manifest>, o: nat, since: nat)
    requires Represents(h, ms) && 1 <= o <= |h| && !Linked(h, o) && !PlainRoot(h, o)
    requires At(ms, o).windowBase <= since < o
    ensures var skip := KeptUpTo(At(ms, o).kept, since);
            && skip <= |Table(h, o)|
            && Skip(Table(h, o), skip) == Added(h, since, o)
            && Exact(h, since, o, Table(h, o))
  {
    WindowFacts(h, ms, o);
    OwnVersions(h, o);
    var m, t := At(ms, o), Table(h, o);
    ExactLater(h, m.windowBase, since, o, t);
    SkipThenOwn(m.kept, o, t[..KeptSum(m.kept)], Own(h, o), since);
  }

  lemma SkipThenOwn(runs: seq<Kept>, o: nat, kept: seq<Item>, own: seq<Item>, since: nat)
    requires since < o && RunsOk(runs, o - 1) && Tags(kept) == Expand(runs)
    requires forall i :: 0 <= i < |own| ==> own[i].version == o
    ensures KeptUpTo(runs, since) <= |kept|
    ensures Skip(kept + own, KeptUpTo(runs, since)) == After(kept + own, since)
  {
    KeptSkip(runs, o - 1, kept, since);
    SkipRun(kept, own, KeptUpTo(runs, since), o, since);
  }

  /** Where the delta walk stops: at the reader's successor, or at the root. */
  lemma StopsAt(h: History, ms: seq<Manifest>, v: nat, since: nat)
    requires Represents(h, ms) && 1 <= v <= |h| && since < v
    ensures var o := StopAt(h, ms, SinceStop(since), v, v);
            && since < o
            && (Linked(h, o) ==> since == o - 1)
            && (!Linked(h, o) ==> o == Root(h, v))
  {
    var stop := SinceStop(since);
    var o := StopAt(h, ms, stop, v, v);
    StopAtIs(h, ms, stop, v, v);
    RootNotLinked(h, v);
    RootBelow(h, v, o);
    if o < v {
      RootBelow(h, v, o + 1);
      LinkVersion(h, ms, o + 1);
    }
    if Linked(h, o) {
      LinkVersion(h, ms, o);
    }
  }

  lemma LinkVersion(h: History, ms: seq<Manifest>, n: nat)
    requires Represents(h, ms) && 1 <= n <= |h|
    ensures At(ms, n).version == n
    ensures Linked(h, n) ==> At(ms, n).prev.Some? && At(ms, n).prev.value.version == n - 1
    ensures !Linked(h, n) ==> At(ms, n).prev.None?
  {
    assert RepresentsAt(h, ms, n);
  }

  /** A delta read falls back to the whole table exactly when its chain hangs from
      a root the reader has not reached: a plain one, or a windowed one whose base
      is still ahead of the reader. */
  ghost predicate Truncates(h: History, ms: seq<Manifest>, v: nat, since: nat)
    requires |ms| == |h| && 1 <= v <= |h|
  {
    var r := Root(h, v);
    0 < since < r && (PlainRoot(h, r) || since < At(ms, r).windowBase)
  }

  /** What a delta read owes a reader at version `since`. */
  ghost function Owed(h: History, ms: seq<Manifest>, v: nat, since: nat): DeltaRead
    requires |ms| == |h| && 1 <= v <= |h|
  {
    if v <= since then DeltaRead([], v, false)
    else
      var whole := since == 0 || Truncates(h, ms, v, since);
      DeltaRead(BatchesOf(if whole then Table(h, v) else Added(h, since, v)),
                Max(Root(h, v), since + 1), Truncates(h, ms, v, since))
  }

  /** Exact delta: over any history of replacing, appending and re-rooting commits,
      with any number of batches each, a reader at any earlier version gets exactly
      the batches added since, in order, and they rebuild the table up to a
      forgotten prefix; or it is told it lost its place and gets the whole table. */
  lemma ExactDelta(h: History, ms: seq<Manifest>, v: nat, since: nat, resolve: Resolver)
    requires Represents(h, ms) && 1 <= v <= |h|
    requires Faithful(h, ms, v, resolve)
    requires |Table(h, v)| <= U32_MAX
    ensures ReadDelta(At(ms, v), since, resolve) == Ok(Owed(h, ms, v, since))
    ensures 0 < since <= v && !Truncates(h, ms, v, since) ==>
              && Exact(h, since, v, Table(h, v))
              && Suffix(Table(h, v), Table(h, since) + Added(h, since, v))
  {
    hide *;
    OneManifestEach(h, ms);
    if since < v {
      var o := StopAt(h, ms, SinceStop(since), v, v);
      DeltaIs(h, ms, v, since, resolve);
      StopsAt(h, ms, v, since);
      if Linked(h, o) {
        DeltaLinked(h, ms, v, o);
      } else {
        DeltaRoot(h, ms, v, since);
      }
    } else {
      ReadPast(h, ms, v, since, resolve);
    }
    if 0 < since <= v && !Truncates(h, ms, v, since) {
      DeltaExact(h, ms, v, since);
    }
  }

  lemma OneManifestEach(h: History, ms: seq<Manifest>)
    requires Represents(h, ms)
    ensures |ms| == |h|
  {
  }

  lemma ReadPast(h: History, ms: seq<Manifest>, v: nat, since: nat, resolve: Resolver)
    requires Represents(h, ms) && |ms| == |h| && 1 <= v <= |h| && v <= since
    ensures ReadDelta(At(ms, v), since, resolve) == Ok(Owed(h, ms, v, since))
  {
    LinkVersion(h, ms, v);
    hide Represents;
  }

  lemma DeltaIs(h: History, ms: seq<Manifest>, v: nat, since: nat, resolve: Resolver)
    requires Represents(h, ms) && 1 <= v <= |h| && since < v
    requires Faithful(h, ms, v, resolve)
    requires |Table(h, v)| <= U32_MAX
    ensures ReadDelta(At(ms, v), since, resolve)
            == DeltaOf(Chain(ms, StopAt(h, ms, SinceStop(since), v, v), v), since)
  {
    LinkVersion(h, ms, v);
    WalkFromHead(h, ms, resolve, SinceStop(since), v);
    OldestFirst(ms, v, StopAt(h, ms, SinceStop(since), v, v));
  }

  /** The walk stopped at the reader's successor: every later version appended. */
  lemma DeltaLinked(h: History, ms: seq<Manifest>, v: nat, o: nat)
    requires Represents(h, ms) && 1 <= v <= |h| && Root(h, v) <= o <= v && Linked(h, o)
    ensures DeltaOf(Chain(ms, o, v), o - 1) == Ok(Owed(h, ms, v, o - 1))
  {
    assert |ms| == |h|;
    hide Represents, Table, Own, Kind, Added, Chain, ChainBatches, Skip, BatchesOf, DeltaOf, Owed, Root;
    LinkVersion(h, ms, o);
    ChainCons(ms, o, v);
    ChainBatchesAre(h, ms, v, o, 0);
    SkipNone(Own(h, o));
    AddedFrom(h, o, v);
    DeltaFrom(Chain(ms, o, v), At(ms, o), o - 1, BatchesOf(Added(h, o - 1, v)));
    OwedLinked(h, ms, v, o);
  }

  lemma DeltaFrom(chain: seq<Manifest>, m: Manifest, since: nat, batches: seq<Batch>)
    requires |chain| > 0 && chain[0] == m && m.prev.Some? && ChainBatches(chain, 0) == Some(batches)
    ensures DeltaOf(chain, since) == Ok(DeltaRead(batches, m.version, false))
  {
    hide ChainBatches;
  }

  lemma OwedLinked(h: History, ms: seq<Manifest>, v: nat, o: nat)
    requires |ms| == |h| && 1 <= v <= |h| && Root(h, v) <= o <= v && Linked(h, o)
    ensures Owed(h, ms, v, o - 1) == DeltaRead(BatchesOf(Added(h, o - 1, v)), o, false)
  {
    RootNotLinked(h, v);
    hide Root, Table, Added, BatchesOf;
  }

  lemma AddedFrom(h: History, o: nat, v: nat)
    requires 1 <= o <= v <= |h|
    ensures Added(h, o - 1, v) == Own(h, o) + Added(h, o, v)
  {
    AddedSplit(h, o - 1, o, v);
    assert Added(h, o - 1, o) == [] + Own(h, o);
  }

  /** The walk ran into the root. */
  lemma DeltaRoot(h: History, ms: seq<Manifest>, v: nat, since: nat)
    requires Represents(h, ms) && 1 <= v <= |h| && since < Root(h, v)
    ensures DeltaOf(Chain(ms, Root(h, v), v), since) == Ok(Owed(h, ms, v, since))
  {
    var o := Root(h, v);
    RootNotLinked(h, v);
    WindowShape(h, ms, o);
    LinkVersion(h, ms, o);
    ChainCons(ms, o, v);
    if since == 0 || Truncates(h, ms, v, since) {
      RootBatches(h, ms, v);
    } else {
      WindowBatches(h, ms, v, since);
    }
  }

  lemma RootBatches(h: History, ms: seq<Manifest>, v: nat)
    requires Represents(h, ms) && 1 <= v <= |h|
    ensures ChainBatches(Chain(ms, Root(h, v), v), 0) == Some(BatchesOf(Table(h, v)))
  {
    var o := Root(h, v);
    RootNotLinked(h, v);
    ChainBatchesAre(h, ms, v, o, 0);
    SkipNone(Table(h, o));
    TableAbove(h, o, v);
  }

  lemma WindowBatches(h: History, ms: seq<Manifest>, v: nat, since: nat)
    requires Represents(h, ms) && 1 <= v <= |h|
    requires var o := Root(h, v); !PlainRoot(h, o) && At(ms, o).windowBase <= since < o
    ensures ChainBatches(Chain(ms, Root(h, v), v), KeptUpTo(At(ms, Root(h, v)).kept, since))
            == Some(BatchesOf(Added(h, since, v)))
  {
    var o := Root(h, v);
    RootNotLinked(h, v);
    RootSkip(h, ms, o, since);
    ChainBatchesAre(h, ms, v, o, KeptUpTo(At(ms, o).kept, since));
    AddedSplit(h, since, o, v);
  }

  lemma DeltaExact(h: History, ms: seq<Manifest>, v: nat, since: nat)
    requires Represents(h, ms) && 1 <= v <= |h| && 0 < since <= v
    requires !Truncates(h, ms, v, since)
    ensures Exact(h, since, v, Table(h, v))
    ensures Suffix(Table(h, v), Table(h, since) + Added(h, since, v))
  {
    var o := Root(h, v);
    if since < o {
      RootNotLinked(h, v);
      RootSkip(h, ms, o, since);
      WindowExact(h, since, o, v);
    } else {
      LinkedExact(h, since, v);
    }
  }

  lemma WindowShape(h: History, ms: seq<Manifest>, o: nat)
    requires Represents(h, ms) && 1 <= o <= |h| && !Linked(h, o)
    ensures At(ms, o).prev.None?
    ensures At(ms, o).IsWindowRoot() <==> !PlainRoot(h, o)
  {
    WindowFacts(h, ms, o);
  }

  lemma LinkedExact(h: History, since: nat, v: nat)
    requires 1 <= v <= |h| && Root(h, v) <= since <= v
    ensures Exact(h, since, v, Table(h, v))
    ensures Suffix(Table(h, v), Table(h, since) + Added(h, since, v))
  {
    TableAbove(h, since, v);
    AppendsAbove(h, since, v);
    AfterConcat(Table(h, since), Added(h, since, v), since);
    TableTags(h, since);
    AfterOld(Table(h, since), since);
    AfterAdded(h, since, since, v);
    TableIsSuffix(h, since, v);
  }

  lemma WindowExact(h: History, since: nat, o: nat, v: nat)
    requires 1 <= v <= |h| && o == Root(h, v) && since < o
    requires Exact(h, since, o, Table(h, o))
    ensures Exact(h, since, v, Table(h, v))
    ensures Suffix(Table(h, v), Table(h, since) + Added(h, since, v))
  {
    TableAbove(h, o, v);
    AppendsAbove(h, o, v);
    AfterConcat(Table(h, o), Added(h, o, v), since);
    AddedSplit(h, since, o, v);
    AddedTags(h, o, v);
    assert forall i :: 0 <= i < |Added(h, o, v)| ==> Added(h, o, v)[i] in Added(h, o, v);
    AfterAll(Added(h, o, v), since);
    TableIsSuffix(h, since, v);
  }
}
