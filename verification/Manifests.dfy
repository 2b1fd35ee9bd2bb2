/** The version manifest: an immutable record naming the data chunks one version
    added, linked to its predecessor's manifest or, for a windowed root, carrying
    the table of versions its leading batches were kept from
    (crates/shm-artifact/src/manifest.rs). */
module Manifests {
  import opened Common

  datatype Error =
    | VersionGone
    | BadMagic
    | StaleManifest
    | Unsupported
    | Conflict
    | Fenced
    | Stale
    | ChunkTooSmall
    | PoolExhausted
    | InvalidState

  datatype ChunkDesc = ChunkDesc(
    segmentId: nat, generation: nat, offset: nat, len: nat, schemaId: nat, pad: nat)

  /** A run of a windowed root's leading batches and the version that added them. */
  datatype Kept = Kept(version: nat, batches: nat, pad: nat)

  /** What a manifest records about its predecessor. */
  datatype Link = Link(version: nat, mref: nat, generation: nat, depth: nat, total: nat)

  datatype Manifest = Manifest(
    artifactId: nat,
    version: nat,
    schemaId: nat,
    chunks: seq<ChunkDesc>,
    spans: seq<nat>,
    prev: Option<Link>,
    depth: nat,
    total: nat,
    windowBase: nat,
    kept: seq<Kept>)
  {
    predicate IsWindowRoot() {
      prev.None? && (windowBase != 0 || kept != [])
    }

    function Inherited(): nat {
      KeptSum(kept)
    }

    /** How many leading own batches a reader at `since` already holds; None when
        the reader is behind the window base. */
    function KeptBatchesBefore(since: nat): Option<nat> {
      if !IsWindowRoot() || since < windowBase then None
      else Some(KeptUpTo(kept, since))
    }

    function LinkFrom(mref: nat, generation: nat): Link {
      Link(version, mref, generation, depth, total)
    }
  }

  function KeptSum(kept: seq<Kept>): nat {
    if |kept| == 0 then 0 else KeptSum(kept[..|kept| - 1]) + kept[|kept| - 1].batches
  }

  function KeptUpTo(kept: seq<Kept>, since: nat): nat {
    if |kept| == 0 then 0
    else
      var k := kept[|kept| - 1];
      KeptUpTo(kept[..|kept| - 1], since) + (if k.version <= since then k.batches else 0)
  }

  /** The structural rules of a root's window, as one statement about the table. */
  predicate WindowOk(version: nat, windowBase: nat, kept: seq<Kept>, batchCount: nat) {
    && windowBase < version
    && (forall i :: 0 <= i < |kept| ==> kept[i].batches > 0 && kept[i].pad == 0 && kept[i].version < version)
    && (forall i, j :: 0 <= i < j < |kept| ==> kept[i].version < kept[j].version)
    && KeptSum(kept) <= batchCount
    && (kept != [] ==> windowBase <= kept[0].version)
  }

  /** The validator shared by the writer and the parser decides exactly WindowOk. */
  method CheckWindow(version: nat, windowBase: nat, kept: seq<Kept>, batchCount: nat) returns (ok: bool)
    ensures ok <==> WindowOk(version, windowBase, kept, batchCount)
  {
    if windowBase >= version {
      return false;
    }
    var prev: Option<nat> := None;
    var total := 0;
    for i := 0 to |kept|
      invariant total == KeptSum(kept[..i])
      invariant i == 0 <==> prev.None?
      invariant i > 0 ==> prev == Some(kept[i - 1].version)
      invariant forall a :: 0 <= a < i ==> kept[a].batches > 0 && kept[a].pad == 0 && kept[a].version < version
      invariant forall a, b :: 0 <= a < b < i ==> kept[a].version < kept[b].version
    {
      var k := kept[i];
      if k.batches == 0 || k.pad != 0 || k.version >= version {
        return false;
      }
      if prev.Some? && k.version <= prev.value {
        return false;
      }
      assert kept[..i + 1][..i] == kept[..i];
      prev := Some(k.version);
      total := total + k.batches;
    }
    assert kept[..|kept|] == kept;
    if total > batchCount {
      return false;
    }
    return |kept| == 0 || windowBase <= kept[0].version;
  }

  type Batch = seq<ChunkDesc>

  /** Partition a flat chunk list into batches by its spans. */
  function Group(chunks: seq<ChunkDesc>, spans: seq<nat>): (r: seq<Batch>)
    requires Sum(spans) == |chunks|
    ensures |r| == |spans|
    decreases |spans|
  {
    if |spans| == 0 then []
    else
      var s := spans[|spans| - 1];
      Group(chunks[..|chunks| - s], spans[..|spans| - 1]) + [Last(chunks, s)]
  }

  lemma GroupSnoc(chunks: seq<ChunkDesc>, spans: seq<nat>, batch: Batch)
    requires Sum(spans) == |chunks|
    ensures Sum(spans + [|batch|]) == |chunks + batch|
    ensures Group(chunks + batch, spans + [|batch|]) == Group(chunks, spans) + [batch]
  {
    TakeConcat(spans, [|batch|], 1);
    TakeConcat(chunks, batch, |batch|);
    Unit(spans);
    Unit(chunks);
    LastConcat(chunks, batch, |batch|);
    LastAll(batch, |batch|);
  }

  lemma {:induction false} GroupConcat(c1: seq<ChunkDesc>, s1: seq<nat>, c2: seq<ChunkDesc>, s2: seq<nat>)
    requires Sum(s1) == |c1| && Sum(s2) == |c2|
    ensures Sum(s1 + s2) == |c1 + c2|
    ensures Group(c1 + c2, s1 + s2) == Group(c1, s1) + Group(c2, s2)
    decreases |s2|
  {
    if |s2| == 0 {
      Unit(s1);
      Unit(c1);
      Unit(Group(c1, s1));
    } else {
      var n := s2[|s2| - 1];
      var s2', c2', batch := s2[..|s2| - 1], c2[..|c2| - n], Last(c2, n);
      LastSplit(c2, n);
      GroupConcat(c1, s1, c2', s2');
      GroupSnoc(c1 + c2', s1 + s2', batch);
      Assoc(c1, c2', batch);
      Assoc(s1, s2', [n]);
      assert s2 == s2' + [n];
      Assoc(Group(c1, s1), Group(c2', s2'), [batch]);
    }
  }

  /** The chunks of the newest `k` batches. */
  lemma {:induction false} GroupLast(chunks: seq<ChunkDesc>, spans: seq<nat>, k: nat)
    requires Sum(spans) == |chunks| && k <= |spans|
    ensures Sum(Last(spans, k)) <= |chunks|
    ensures Group(Last(chunks, Sum(Last(spans, k))), Last(spans, k)) == Last(Group(chunks, spans), k)
  {
    LastSplit(spans, k);
    var older, newer := spans[..|spans| - k], Last(spans, k);
    SumConcat(older, newer);
    var n := Sum(newer);
    LastSplit(chunks, n);
    var oldChunks, newChunks := chunks[..|chunks| - n], Last(chunks, n);
    GroupConcat(oldChunks, older, newChunks, newer);
    LastConcat(Group(oldChunks, older), Group(newChunks, newer), k);
    LastAll(Group(newChunks, newer), k);
  }

  /** A manifest's own batches. */
  ghost predicate Partitioned(m: Manifest) {
    Sum(m.spans) == |m.chunks|
  }

  function Batches(m: Manifest): seq<Batch>
    requires Partitioned(m)
  {
    Group(m.chunks, m.spans)
  }
}
