/** Gathering the window a re-rooting commit keeps from its predecessor's table:
    the newest batches, the member table naming the version of each run, and the
    window base (crates/shm-artifact/src/artifact.rs, collect_window). */
module Window {
  import opened Common
  import opened Manifests
  import opened ChainWalk

  datatype WindowSet = WindowSet(chunks: seq<ChunkDesc>, spans: seq<nat>, members: seq<Kept>, base: int)

  /** One chain member and how many of its newest batches are kept. */
  datatype Part = Part(m: Manifest, take: nat)

  function OwnTotal(chain: seq<Manifest>): nat {
    if |chain| == 0 then 0 else OwnTotal(chain[..|chain| - 1]) + |chain[|chain| - 1].spans|
  }

  /** The window walk stops once the gathered members hold `keep` batches. */
  function EnoughFor(keep: nat): Stop {
    (chain: seq<Manifest>) => OwnTotal(chain) >= keep
  }

  /** Newest first: the tail batches of each member until the window is full. */
  function Parts(members: seq<Manifest>, keep: nat): seq<Part> {
    if |members| == 0 then []
    else
      var older := members[..|members| - 1];
      var m := members[|members| - 1];
      var remaining := SatSub(keep, OwnTotal(older));
      if remaining == 0 then Parts(older, keep)
      else Parts(older, keep) + [Part(m, Min(remaining, |m.spans|))]
  }

  function Reverse<T>(s: seq<T>): (r: seq<T>)
    ensures |r| == |s|
  {
    if |s| == 0 then [] else [s[|s| - 1]] + Reverse(s[..|s| - 1])
  }

  lemma {:induction false} ReverseMember<T>(s: seq<T>, x: T)
    requires x in Reverse(s)
    ensures x in s
  {
    if x != s[|s| - 1] {
      ReverseMember(s[..|s| - 1], x);
    }
  }

  predicate PartFits(p: Part) {
    p.take <= |p.m.spans| && Sum(PartSpans(p)) <= |p.m.chunks|
  }

  function PartSpans(p: Part): seq<nat>
    requires p.take <= |p.m.spans|
  {
    Last(p.m.spans, p.take)
  }

  function PartChunks(p: Part): seq<ChunkDesc>
    requires PartFits(p)
  {
    Last(p.m.chunks, Sum(PartSpans(p)))
  }

  /** The newest `need` batches of a kept table. */
  function InheritedRun(kept: seq<Kept>, need: nat): seq<Kept> {
    if |kept| == 0 || need == 0 then []
    else
      var k := kept[|kept| - 1];
      var t := Min(need, k.batches);
      InheritedRun(kept[..|kept| - 1], need - t) + [Kept(k.version, t, 0)]
  }

  predicate AllInherited(kept: seq<Kept>, need: nat) {
    |kept| == 0
    || (need > 0
        && var k := kept[|kept| - 1];
           k.batches <= need && AllInherited(kept[..|kept| - 1], need - k.batches))
  }

  /** The base left by the last run taken. */
  function RunBase(kept: seq<Kept>, need: nat, windowBase: nat, acc: int): int {
    if |kept| == 0 || need == 0 then acc
    else
      var k := kept[|kept| - 1];
      var t := Min(need, k.batches);
      var b := if t < k.batches || (|kept| == 1 && windowBase == k.version) then k.version else k.version - 1;
      RunBase(kept[..|kept| - 1], need - t, windowBase, b)
  }

  function OwnNew(m: Manifest): nat {
    SatSub(|m.spans|, m.Inherited())
  }

  /** The member runs one part contributes. */
  function PartRun(p: Part): seq<Kept> {
    var ownNew := OwnNew(p.m);
    if p.take <= ownNew then
      if p.take > 0 then [Kept(p.m.version, p.take, 0)] else []
    else
      InheritedRun(p.m.kept, p.take - ownNew)
      + (if ownNew > 0 then [Kept(p.m.version, ownNew, 0)] else [])
  }

  /** The window base when this part is the oldest one. */
  function PartBase(p: Part): int {
    var ownNew := OwnNew(p.m);
    if p.take <= ownNew then
      if p.take < ownNew || (p.m.prev.None? && !p.m.IsWindowRoot()) then p.m.version else p.m.version - 1
    else if AllInherited(p.m.kept, p.take - ownNew) then p.m.windowBase
    else RunBase(p.m.kept, p.take - ownNew, p.m.windowBase, p.m.windowBase)
  }

  predicate AllFit(parts: seq<Part>) {
    forall i :: 0 <= i < |parts| ==> PartFits(parts[i])
  }

  function AllChunks(parts: seq<Part>): seq<ChunkDesc>
    requires AllFit(parts)
  {
    if |parts| == 0 then [] else AllChunks(parts[..|parts| - 1]) + PartChunks(parts[|parts| - 1])
  }

  function AllSpans(parts: seq<Part>): seq<nat>
    requires AllFit(parts)
  {
    if |parts| == 0 then [] else AllSpans(parts[..|parts| - 1]) + PartSpans(parts[|parts| - 1])
  }

  function AllRuns(parts: seq<Part>): seq<Kept> {
    if |parts| == 0 then [] else AllRuns(parts[..|parts| - 1]) + PartRun(parts[|parts| - 1])
  }

  function WindowMembers(prior: Manifest, keep: nat, resolve: Resolver): Result<seq<Manifest>, Error> {
    if keep == 0 then Ok([]) else Walk(prior, resolve, EnoughFor(keep), prior, [])
  }

  /** The window of `keep` batches, as a function of the walked members. */
  function WindowOf(prior: Manifest, members: seq<Manifest>, keep: nat): Result<WindowSet, Error> {
    var parts := Reverse(Parts(members, keep));
    if !AllFit(parts) then Err(VersionGone)
    else
      Ok(WindowSet(AllChunks(parts), AllSpans(parts), AllRuns(parts),
                   if |parts| == 0 then prior.version else PartBase(parts[0])))
  }

  /** The window of the newest `keep` batches of the prior table. */
  function WindowFor(prior: Manifest, keep: nat, resolve: Resolver): Result<WindowSet, Error> {
    match WindowMembers(prior, keep, resolve)
    case Err(e) => Err(e)
    case Ok(members) => WindowOf(prior, members, keep)
  }

  /** Once the window is full no further member contributes. */
  lemma {:induction false} PartsFull(members: seq<Manifest>, keep: nat, i: nat)
    requires i <= |members| && OwnTotal(members[..i]) >= keep
    ensures Parts(members, keep) == Parts(members[..i], keep)
    ensures OwnTotal(members) >= keep
    decreases |members| - i
  {
    if i < |members| {
      assert members[..i + 1][..i] == members[..i];
      PartsFull(members, keep, i + 1);
    } else {
      assert members[..i] == members;
    }
  }

  /** Newest-first parts, gathered by the loop. */
  method GatherParts(members: seq<Manifest>, keep: nat) returns (parts: seq<Part>)
    ensures parts == Parts(members, keep)
    ensures forall p :: p in parts ==> p.take <= |p.m.spans|
  {
    parts := [];
    var remaining: nat := keep;
    var i := 0;
    while i < |members|
      invariant 0 <= i <= |members|
      invariant parts == Parts(members[..i], keep)
      invariant remaining == SatSub(keep, OwnTotal(members[..i]))
      invariant forall p :: p in parts ==> p.take <= |p.m.spans|
    {
      if remaining == 0 {
        PartsFull(members, keep, i);
        return;
      }
      assert members[..i + 1][..i] == members[..i];
      var take := Min(remaining, |members[i].spans|);
      parts := parts + [Part(members[i], take)];
      remaining := remaining - take;
      i := i + 1;
    }
    assert members[..i] == members;
  }

  /** The member accounting of one part that reaches into an inherited run. */
  method TakeInherited(m: Manifest, need0: nat) returns (run: seq<Kept>, base: int)
    ensures run == InheritedRun(m.kept, need0)
    ensures base == if AllInherited(m.kept, need0) then m.windowBase
                    else RunBase(m.kept, need0, m.windowBase, m.windowBase)
  {
    var need: nat := need0;
    run := [];
    var all := true;
    var runBase: int := m.windowBase;
    var j := |m.kept|;
    assert m.kept[..j] == m.kept;
    while j > 0
      invariant 0 <= j <= |m.kept|
      invariant InheritedRun(m.kept, need0) == InheritedRun(m.kept[..j], need) + run
      invariant AllInherited(m.kept, need0) == (all && AllInherited(m.kept[..j], need))
      invariant RunBase(m.kept, need0, m.windowBase, m.windowBase) == RunBase(m.kept[..j], need, m.windowBase, runBase)
      invariant !all ==> need == 0
    {
      if need == 0 {
        all := false;
        break;
      }
      var k := m.kept[j - 1];
      var t := Min(need, k.batches);
      assert m.kept[..j][..j - 1] == m.kept[..j - 1];
      run := [Kept(k.version, t, 0)] + run;
      need := need - t;
      var partialInM := j - 1 == 0 && m.windowBase == k.version;
      if t < k.batches {
        all := false;
        runBase := k.version;
      } else if partialInM {
        runBase := k.version;
      } else {
        runBase := k.version - 1;
      }
      j := j - 1;
    }
    base := if all then m.windowBase else runBase;
  }

  /** Member accounting of one part: its runs, and the base it gives the window
      when it is the oldest part. */
  method AccountPart(p: Part) returns (run: seq<Kept>, base: int)
    ensures run == PartRun(p) && base == PartBase(p)
  {
    var ownNew := OwnNew(p.m);
    if p.take <= ownNew {
      run := if p.take > 0 then [Kept(p.m.version, p.take, 0)] else [];
      base := if p.take < ownNew || (p.m.prev.None? && !p.m.IsWindowRoot())
              then p.m.version else p.m.version - 1;
    } else {
      run, base := TakeInherited(p.m, p.take - ownNew);
      if ownNew > 0 {
        run := run + [Kept(p.m.version, ownNew, 0)];
      }
    }
  }

  lemma AllFitExtend(parts: seq<Part>, i: nat)
    requires i < |parts| && AllFit(parts[..i]) && PartFits(parts[i])
    ensures AllFit(parts[..i + 1])
    ensures AllChunks(parts[..i + 1]) == AllChunks(parts[..i]) + PartChunks(parts[i])
    ensures AllSpans(parts[..i + 1]) == AllSpans(parts[..i]) + PartSpans(parts[i])
    ensures AllRuns(parts[..i + 1]) == AllRuns(parts[..i]) + PartRun(parts[i])
  {
    assert parts[..i + 1][..i] == parts[..i];
    assert forall k :: 0 <= k < i ==> PartFits(parts[..i][k]);
  }

  /** Assemble the window from its parts, oldest first. */
  method AssembleParts(prior: Manifest, parts: seq<Part>) returns (r: Result<WindowSet, Error>)
    requires forall p :: p in parts ==> p.take <= |p.m.spans|
    ensures r == if !AllFit(parts) then Err(VersionGone)
                 else Ok(WindowSet(AllChunks(parts), AllSpans(parts), AllRuns(parts),
                                   if |parts| == 0 then prior.version else PartBase(parts[0])))
  {
    var base: int := prior.version;
    var kept: seq<Kept> := [];
    var chunks: seq<ChunkDesc> := [];
    var spans: seq<nat> := [];
    for i := 0 to |parts|
      invariant AllFit(parts[..i])
      invariant chunks == AllChunks(parts[..i])
      invariant spans == AllSpans(parts[..i])
      invariant kept == AllRuns(parts[..i])
      invariant base == if i == 0 then prior.version else PartBase(parts[0])
    {
      var p := parts[i];
      if Sum(PartSpans(p)) > |p.m.chunks| {
        return Err(VersionGone);
      }
      AllFitExtend(parts, i);
      chunks := chunks + PartChunks(p);
      spans := spans + PartSpans(p);
      var run, partBase := AccountPart(p);
      kept := kept + run;
      if i == 0 {
        base := partBase;
      }
    }
    assert parts[..|parts|] == parts;
    return Ok(WindowSet(chunks, spans, kept, base));
  }

  /** The window a re-rooting commit keeps: walk, gather, assemble. */
  method CollectWindow(prior: Manifest, keep: nat, resolve: Resolver) returns (r: Result<WindowSet, Error>)
    ensures r == WindowFor(prior, keep, resolve)
  {
    var members: seq<Manifest> := [];
    if keep > 0 {
      var walked, _ := WalkNewestFirst(prior, resolve, EnoughFor(keep));
      if walked.Err? {
        return Err(walked.error);
      }
      members := walked.value;
    }
    var newestFirst := GatherParts(members, keep);
    var parts := Reverse(newestFirst);
    forall p | p in parts
      ensures p.take <= |p.m.spans|
    {
      ReverseMember(newestFirst, p);
    }
    r := AssembleParts(prior, parts);
  }
}
