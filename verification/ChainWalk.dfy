/** Walking a manifest chain newest-first against an arbitrary link resolver
    (crates/shm-artifact/src/manifest.rs, walk_chain_with and
    walk_chain_newest_first). The resolver is a function of the call index and
    the link, so it may answer differently each time it is asked. */
module ChainWalk {
  import opened Common
  import opened Manifests

  type Resolver = (nat, Link) -> Result<Manifest, Error>

  /** Early stop, decided from the members gathered so far (newest first). */
  type Stop = seq<Manifest> -> bool

  function NeverStop(): Stop {
    (_: seq<Manifest>) => false
  }

  /** Own consistency of one visited manifest against the head. */
  predicate OwnOk(head: Manifest, cur: Manifest) {
    && |cur.spans| <= U32_MAX
    && |cur.spans| <= cur.total
    && cur.artifactId == head.artifactId
    && cur.schemaId == head.schemaId
  }

  predicate RootOk(head: Manifest, cur: Manifest, hops: nat) {
    cur.depth == 0 && hops == head.depth && cur.total == |cur.spans|
  }

  predicate LinkOk(head: Manifest, cur: Manifest, link: Link, hops: nat)
    requires OwnOk(head, cur)
  {
    && hops < head.depth
    && cur.depth > 0
    && link.version < cur.version
    && link.depth == cur.depth - 1
    && link.total == cur.total - |cur.spans|
  }

  predicate Matches(link: Link, m: Manifest) {
    m.version == link.version && m.depth == link.depth && m.total == link.total
  }

  /** The walk from `cur`, with `done` already gathered. */
  function Walk(head: Manifest, resolve: Resolver, stop: Stop, cur: Manifest, done: seq<Manifest>)
    : Result<seq<Manifest>, Error>
    requires |done| <= head.depth
    decreases head.depth - |done|
  {
    if !OwnOk(head, cur) then Err(VersionGone)
    else if cur.prev.None? then
      if RootOk(head, cur, |done|) then Ok(done + [cur]) else Err(VersionGone)
    else
      var link := cur.prev.value;
      if !LinkOk(head, cur, link, |done|) then Err(VersionGone)
      else if stop(done + [cur]) then Ok(done + [cur])
      else
        var r := resolve(|done|, link);
        if r.Err? then Err(r.error)
        else if !Matches(link, r.value) then Err(VersionGone)
        else Walk(head, resolve, stop, r.value, done + [cur])
  }

  /** The loop computes the recursive walk and asks the resolver at most
      `head.depth` times, whatever the resolver answers. */
  method WalkNewestFirst(head: Manifest, resolve: Resolver, stop: Stop)
    returns (r: Result<seq<Manifest>, Error>, calls: nat)
    ensures r == Walk(head, resolve, stop, head, [])
    ensures calls <= head.depth
  {
    var chain: seq<Manifest> := [];
    var cur := head;
    var hops := 0;
    calls := 0;
    while true
      invariant hops == |chain| == calls <= head.depth
      invariant Walk(head, resolve, stop, head, []) == Walk(head, resolve, stop, cur, chain)
      decreases head.depth - hops
    {
      if |cur.spans| > U32_MAX || cur.total < |cur.spans| {
        return Err(VersionGone), calls;
      }
      if cur.artifactId != head.artifactId || cur.schemaId != head.schemaId {
        return Err(VersionGone), calls;
      }
      match cur.prev {
        case None =>
          if cur.depth != 0 || hops != head.depth || cur.total != |cur.spans| {
            return Err(VersionGone), calls;
          }
          return Ok(chain + [cur]), calls;
        case Some(link) =>
          if hops >= head.depth || cur.depth == 0 {
            return Err(VersionGone), calls;
          }
          if link.version >= cur.version
            || link.depth != cur.depth - 1
            || link.total != cur.total - |cur.spans|
          {
            return Err(VersionGone), calls;
          }
          chain := chain + [cur];
          if stop(chain) {
            return Ok(chain), calls;
          }
          var answer := resolve(hops, link);
          calls := calls + 1;
          if answer.Err? {
            return Err(answer.error), calls;
          }
          if !Matches(link, answer.value) {
            return Err(VersionGone), calls;
          }
          cur := answer.value;
          hops := hops + 1;
      }
    }
  }

  function OwnCounts(chain: seq<Manifest>): (r: seq<nat>)
    ensures |r| == |chain|
  {
    if |chain| == 0 then [] else OwnCounts(chain[..|chain| - 1]) + [|chain[|chain| - 1].spans|]
  }

  /** Everything a gathered prefix guarantees, whatever resolver produced it. */
  ghost predicate Gathered(head: Manifest, resolve: Resolver, chain: seq<Manifest>) {
    && 0 < |chain| <= head.depth + 1
    && chain[0] == head
    && (forall i :: 0 <= i < |chain| ==> OwnOk(head, chain[i]) && chain[i].depth == head.depth - i)
    && (forall i :: 0 <= i < |chain| - 1 ==> Hop(resolve, i, chain[i], chain[i + 1]))
    && head.total == Sum(OwnCounts(chain[..|chain| - 1])) + chain[|chain| - 1].total
  }

  /** `next` is what the resolver answered for `cur`'s link. */
  ghost predicate Hop(resolve: Resolver, i: nat, cur: Manifest, next: Manifest) {
    && cur.prev.Some?
    && next.version < cur.version
    && Matches(cur.prev.value, next)
    && resolve(i, cur.prev.value) == Ok(next)
  }

  /** A prefix being extended by `cur`. */
  ghost predicate Partial(head: Manifest, resolve: Resolver, done: seq<Manifest>, cur: Manifest) {
    && |done| <= head.depth
    && (done == [] ==> cur == head)
    && (done != [] ==> Gathered(head, resolve, done) && Hop(resolve, |done| - 1, done[|done| - 1], cur)
                       && done[|done| - 1].total == |done[|done| - 1].spans| + cur.total
                       && cur.depth == head.depth - |done|)
  }

  lemma ExtendGathered(head: Manifest, resolve: Resolver, done: seq<Manifest>, cur: Manifest)
    requires Partial(head, resolve, done, cur)
    requires OwnOk(head, cur)
    ensures Gathered(head, resolve, done + [cur])
  {
    var chain := done + [cur];
    assert chain[..|chain| - 1] == done;
    if done != [] {
      assert OwnCounts(done) == OwnCounts(done[..|done| - 1]) + [|done[|done| - 1].spans|];
      SumConcat(OwnCounts(done[..|done| - 1]), [|done[|done| - 1].spans|]);
      assert Sum([|done[|done| - 1].spans|]) == |done[|done| - 1].spans| by {
        assert [|done[|done| - 1].spans|][..0] == [];
      }
      forall i | 0 <= i < |chain| - 1
        ensures Hop(resolve, i, chain[i], chain[i + 1])
      {
        if i < |done| - 1 {
          assert Hop(resolve, i, done[i], done[i + 1]);
        }
      }
    }
  }

  /** A successful walk, for any resolver and stop rule: every member was named by
      the link before it, and the walk ended either at a root exactly `depth` hops
      in or where the stop rule fired. */
  lemma {:induction false} WalkSound(head: Manifest, resolve: Resolver, stop: Stop, cur: Manifest, done: seq<Manifest>)
    requires Partial(head, resolve, done, cur)
    requires Walk(head, resolve, stop, cur, done).Ok?
    ensures var chain := Walk(head, resolve, stop, cur, done).value;
            && Gathered(head, resolve, chain)
            && (var last := chain[|chain| - 1];
                if last.prev.None? then RootOk(head, last, |chain| - 1) else stop(chain))
    decreases head.depth - |done|
  {
    ExtendGathered(head, resolve, done, cur);
    if cur.prev.Some? && !stop(done + [cur]) {
      var link := cur.prev.value;
      var next := resolve(|done|, link).value;
      WalkSound(head, resolve, stop, next, done + [cur]);
    }
  }

  lemma {:induction false} VersionsDecrease(head: Manifest, resolve: Resolver, chain: seq<Manifest>, i: nat, j: nat)
    requires Gathered(head, resolve, chain)
    requires i < j < |chain|
    ensures chain[i].version > chain[j].version
    decreases j
  {
    assert Hop(resolve, j - 1, chain[j - 1], chain[j]);
    if i < j - 1 {
      VersionsDecrease(head, resolve, chain, i, j - 1);
    }
  }

  /** The full walk of a head against an adversarial resolver: on success it has
      depth + 1 members, strictly falling versions, one artifact and schema id,
      and own batch counts summing to the head's total. */
  lemma FullWalk(head: Manifest, resolve: Resolver)
    requires Walk(head, resolve, NeverStop(), head, []).Ok?
    ensures var chain := Walk(head, resolve, NeverStop(), head, []).value;
            && |chain| == head.depth + 1
            && chain[0] == head
            && (forall i, j :: 0 <= i < j < |chain| ==> chain[i].version > chain[j].version)
            && (forall i :: 0 <= i < |chain| ==> chain[i].artifactId == head.artifactId && chain[i].schemaId == head.schemaId)
            && chain[head.depth].prev.None?
            && Sum(OwnCounts(chain)) == head.total
  {
    var chain := Walk(head, resolve, NeverStop(), head, []).value;
    WalkSound(head, resolve, NeverStop(), head, []);
    forall i, j | 0 <= i < j < |chain|
      ensures chain[i].version > chain[j].version
    {
      VersionsDecrease(head, resolve, chain, i, j);
    }
    var n := |chain| - 1;
    assert chain[n].prev.None?;
    SumConcat(OwnCounts(chain[..n]), [|chain[n].spans|]);
    assert Sum([|chain[n].spans|]) == |chain[n].spans| by {
      assert [|chain[n].spans|][..0] == [];
    }
  }

  /** A walk fails with an error the resolver gave for the link it asked about, or because
      the chain does not hold together; and then the version is reported gone. */
  lemma {:induction false} WalkErrors(head: Manifest, resolve: Resolver, stop: Stop, cur: Manifest, done: seq<Manifest>)
    requires |done| <= head.depth && Walk(head, resolve, stop, cur, done).Err?
    ensures var e := Walk(head, resolve, stop, cur, done).error;
            e == VersionGone || exists c: nat, link: Link :: resolve(c, link) == Err(e)
    decreases head.depth - |done|
  {
    if OwnOk(head, cur) && cur.prev.Some? && LinkOk(head, cur, cur.prev.value, |done|) && !stop(done + [cur]) {
      var r := resolve(|done|, cur.prev.value);
      if r.Ok? && Matches(cur.prev.value, r.value) {
        WalkErrors(head, resolve, stop, r.value, done + [cur]);
      } else if r.Err? {
        assert resolve(|done|, cur.prev.value) == Err(r.error);
      }
    }
  }
}
