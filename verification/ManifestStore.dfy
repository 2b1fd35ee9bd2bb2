/** Manifests where they are: each commit writes its manifest into a chunk, links name the
    predecessor's chunk and the generation it had, and a reader follows a link by looking the
    chunk up and comparing (crates/shm-artifact/src/artifact.rs, commit_staged_inner_j,
    collect_window and batches_since; crates/shm-artifact/src/manifest.rs, link_from and
    read_manifest_checked). Chunks are used again under later generations. */
module ManifestStore {
  import opened Common
  import opened Manifests
  import opened ChainWalk
  import opened Window
  import opened Lineage
  import opened Delta
  import opened Rewindow
  import opened Commits

  /** A commit, what it brings, and the chunk its manifest goes to: the reference and the
      generation the chunk has then. */
  datatype Put = Put(
    commit: Commit, artifactId: nat, schemaId: nat, chunks: seq<ChunkDesc>, spans: seq<nat>, mref: nat, generation: nat)

  /** What a manifest chunk holds. */
  datatype Cell = Cell(generation: nat, manifest: Manifest)

  type Store = map<nat, Cell>

  /** Following a link: the chunk must have the generation the link recorded, and the
      manifest in it must be the one the link says. */
  function Lookup(store: Store, artifactId: nat): Resolver {
    (_: nat, link: Link) =>
      if link.mref !in store || store[link.mref].generation != link.generation then Err(VersionGone)
      else if store[link.mref].manifest.artifactId != artifactId || store[link.mref].manifest.version != link.version
      then Err(StaleManifest)
      else Ok(store[link.mref].manifest)
  }

  /** The chunks after the manifests are written, each over whatever its chunk held. */
  function StoreOf(puts: seq<Put>, ms: seq<Manifest>): Store
    requires |puts| == |ms|
  {
    if |puts| == 0 then map[]
    else
      var n := |puts| - 1;
      StoreOf(puts[..n], ms[..n])[puts[n].mref := Cell(puts[n].generation, ms[n])]
  }

  /** What the last commit stages: its own lists, and where the manifest before it is. */
  function StagedLast(puts: seq<Put>): Staged
    requires |puts| > 0
  {
    var n, p := |puts| - 1, puts[|puts| - 1];
    Staged(p.artifactId, p.schemaId, p.chunks, p.spans,
           if n > 0 then puts[n - 1].mref else 0, if n > 0 then puts[n - 1].generation else 0)
  }

  ghost predicate Cut(puts: seq<Put>) {
    forall i :: 0 <= i < |puts| ==> Sum(puts[i].spans) == |puts[i].chunks|
  }

  ghost function HistoryFrom(puts: seq<Put>): (h: History)
    requires Cut(puts)
    ensures |h| == |puts|
  {
    if |puts| == 0 then []
    else
      var n := |puts| - 1;
      HistoryFrom(puts[..n]) + [Entry(puts[n].commit, Group(puts[n].chunks, puts[n].spans))]
  }

  /** The chunk version k's manifest went to. */
  function PlaceOf(puts: seq<Put>, k: nat): nat
    requires 1 <= k <= |puts|
  {
    puts[k - 1].mref
  }

  /** The pool hands out a chunk that nothing on the head's chain is in, under a generation
      it has not had before. */
  ghost predicate Allocated(puts: seq<Put>)
    requires Cut(puts) && |puts| > 0
  {
    var n := |puts| - 1;
    && puts[n].mref != 0
    && (forall k :: 0 <= k < n && puts[k].mref == puts[n].mref ==> puts[k].generation < puts[n].generation)
    && (n > 0 ==> forall k :: Root(HistoryFrom(puts[..n]), n) <= k <= n ==> PlaceOf(puts, k) != puts[n].mref)
  }

  /** The artifact the newest manifest is of. */
  function Artifact(ms: seq<Manifest>): nat {
    if |ms| == 0 then 0 else ms[|ms| - 1].artifactId
  }

  /** The manifests a run of commits writes, each commit following links through the chunks
      as they are then. */
  ghost predicate Ran(puts: seq<Put>, ms: seq<Manifest>)
    requires Cut(puts)
  {
    |ms| == |puts|
    && (|puts| > 0 ==>
          var n := |puts| - 1;
          && Ran(puts[..n], ms[..n]) && Allocated(puts)
          && NextManifest(Newest(ms[..n]), puts[n].commit, StagedLast(puts), Lookup(StoreOf(puts[..n], ms[..n]), Artifact(ms[..n])))
             == Ok(ms[n]))
  }

  // ---- What a link names ----

  /** An accepted append links the manifest it was given, where it was given. */
  lemma AppendLinks(p: Manifest, s: Staged, resolve: Resolver, m: Manifest)
    requires NextManifest(Some(p), Append, s, resolve) == Ok(m)
    ensures m.prev.Some? && m.prev.value.mref == s.mref != 0 && m.prev.value.generation == s.generation
    ensures m.prev.value.version == p.version && m.artifactId == p.artifactId
  {
  }

  lemma OthersLinkNothing(prior: Option<Manifest>, commit: Commit, s: Staged, resolve: Resolver, m: Manifest)
    requires NextManifest(prior, commit, s, resolve) == Ok(m) && (prior.None? || !commit.Append?)
    ensures m.prev.None?
  {
    hide WindowFor, WindowOk, OwnLists;
  }

  /** Every link names the chunk and the generation of the manifest before it. */
  lemma {:induction false} LinksName(puts: seq<Put>, ms: seq<Manifest>, n: nat)
    requires Cut(puts) && Ran(puts, ms) && 1 <= n <= |ms| && At(ms, n).prev.Some?
    ensures n > 1
    ensures At(ms, n).prev.value.mref == puts[n - 2].mref && At(ms, n).prev.value.generation == puts[n - 2].generation
    decreases |puts|
  {
    hide NextManifest, StoreOf, Allocated, Lookup;
    var k := |puts| - 1;
    if n == |puts| {
      var resolve := Lookup(StoreOf(puts[..k], ms[..k]), Artifact(ms[..k]));
      LinkOfLast(Newest(ms[..k]), puts[k].commit, StagedLast(puts), resolve, ms[k]);
    } else {
      LinksName(puts[..k], ms[..k], n);
    }
  }

  lemma LinkOfLast(prior: Option<Manifest>, commit: Commit, s: Staged, resolve: Resolver, m: Manifest)
    requires NextManifest(prior, commit, s, resolve) == Ok(m) && m.prev.Some?
    ensures prior.Some? && m.prev.value.mref == s.mref && m.prev.value.generation == s.generation
  {
    if prior.None? || !commit.Append? {
      OthersLinkNothing(prior, commit, s, resolve, m);
    } else {
      AppendLinks(prior.value, s, resolve, m);
    }
  }

  // ---- What is still there ----

  /** No later manifest went to the chunk of version k's. */
  ghost predicate Resident(puts: seq<Put>, k: nat) {
    1 <= k <= |puts| && forall j :: k < j <= |puts| ==> PlaceOf(puts, j) != PlaceOf(puts, k)
  }

  /** A resident manifest is found where it was written; a chunk used again has a later
      generation. */
  lemma {:induction false} StoreHolds(puts: seq<Put>, ms: seq<Manifest>, k: nat)
    requires Cut(puts) && Ran(puts, ms) && 1 <= k <= |puts|
    ensures PlaceOf(puts, k) in StoreOf(puts, ms)
    ensures var cell, generation := StoreOf(puts, ms)[PlaceOf(puts, k)], puts[k - 1].generation;
            if Resident(puts, k) then cell == Cell(generation, At(ms, k)) else cell.generation > generation
    decreases |puts|
  {
    hide NextManifest, Lookup, Root, HistoryFrom;
    var n := |puts| - 1;
    if k <= n {
      StoreHolds(puts[..n], ms[..n], k);
      OneLater(puts, k);
    }
  }

  lemma OneLater(puts: seq<Put>, k: nat)
    requires 1 <= k < |puts|
    ensures var n := |puts| - 1;
            PlaceOf(puts[..n], k) == PlaceOf(puts, k)
            && (Resident(puts, k) <==> Resident(puts[..n], k) && puts[n].mref != PlaceOf(puts, k))
  {
    var n := |puts| - 1;
    assert PlaceOf(puts, n + 1) == puts[n].mref;
    forall j | 1 <= j <= n
      ensures PlaceOf(puts[..n], j) == PlaceOf(puts, j)
    {
    }
  }

  /** A link is never followed to the wrong manifest: it leads to the one it named while that
      is there, and is refused as gone afterwards. */
  lemma NeverLies(puts: seq<Put>, ms: seq<Manifest>, n: nat, c: nat)
    requires Cut(puts) && Ran(puts, ms) && 1 <= n <= |ms| && At(ms, n).prev.Some?
    requires n > 1 ==> At(ms, n - 1).artifactId == At(ms, n).artifactId && At(ms, n).prev.value.version == At(ms, n - 1).version
    ensures n > 1
    ensures Lookup(StoreOf(puts, ms), At(ms, n).artifactId)(c, At(ms, n).prev.value)
            == if Resident(puts, n - 1) then Ok(At(ms, n - 1)) else Err(VersionGone)
  {
    LinksName(puts, ms, n);
    StoreHolds(puts, ms, n - 1);
    hide Ran, StoreOf, Cut;
  }

  /** All of a version's chain is still where it was written. */
  ghost predicate ChainResident(h: History, puts: seq<Put>, v: nat)
    requires |h| == |puts| && 1 <= v <= |h|
  {
    forall k :: Root(h, v) <= k < v ==> Resident(puts, k)
  }

  /** Links are followed rightly down a version's chain exactly while all of the chain is
      there. */
  lemma FaithfulIffResident(h: History, puts: seq<Put>, ms: seq<Manifest>, v: nat)
    requires Cut(puts) && Ran(puts, ms) && |h| == |puts| && Represents(h, ms) && 1 <= v <= |h|
    ensures |ms| == |h|
    ensures Faithful(h, ms, v, Lookup(StoreOf(puts, ms), At(ms, v).artifactId)) <==> ChainResident(h, puts, v)
  {
    hide *;
    OneManifestEach(h, ms);
    var resolve := Lookup(StoreOf(puts, ms), At(ms, v).artifactId);
    if Faithful(h, ms, v, resolve) {
      FaithfulResident(h, puts, ms, v);
    }
    if ChainResident(h, puts, v) {
      ResidentFaithful(h, puts, ms, v);
    }
  }

  lemma FaithfulResident(h: History, puts: seq<Put>, ms: seq<Manifest>, v: nat)
    requires Cut(puts) && Ran(puts, ms) && |ms| == |h| == |puts| && Represents(h, ms) && 1 <= v <= |h|
    requires Faithful(h, ms, v, Lookup(StoreOf(puts, ms), At(ms, v).artifactId))
    ensures ChainResident(h, puts, v)
  {
    hide Represents, Ran, Lookup, StoreOf, Root, Resident, Cut, At, Faithful;
    var resolve := Lookup(StoreOf(puts, ms), At(ms, v).artifactId);
    forall k | Root(h, v) <= k < v
      ensures Resident(puts, k)
    {
      LinkFollowed(h, puts, ms, v, k + 1, 0);
      FaithfulAt(h, ms, v, resolve, 0, k + 1);
    }
  }

  lemma FaithfulAt(h: History, ms: seq<Manifest>, v: nat, resolve: Resolver, c: nat, n: nat)
    requires |ms| == |h| && 1 <= v <= |h| && Faithful(h, ms, v, resolve) && Root(h, v) < n <= v
    ensures At(ms, n).prev.Some? && resolve(c, At(ms, n).prev.value) == Ok(At(ms, n - 1))
  {
  }

  lemma ResidentFaithful(h: History, puts: seq<Put>, ms: seq<Manifest>, v: nat)
    requires Cut(puts) && Ran(puts, ms) && |ms| == |h| == |puts| && Represents(h, ms) && 1 <= v <= |h|
    requires ChainResident(h, puts, v)
    ensures Faithful(h, ms, v, Lookup(StoreOf(puts, ms), At(ms, v).artifactId))
  {
    hide Represents, Ran, Lookup, StoreOf, Root, Resident, Cut;
    forall c: nat, n: nat | Root(h, v) < n <= v
      ensures Follows(ms, Lookup(StoreOf(puts, ms), At(ms, v).artifactId), c, n)
    {
      LinkFollowed(h, puts, ms, v, n, c);
      assert Resident(puts, n - 1);
    }
    AllFollow(h, ms, v, Lookup(StoreOf(puts, ms), At(ms, v).artifactId));
  }

  /** Version n's link leads to the version before it. */
  ghost predicate Follows(ms: seq<Manifest>, resolve: Resolver, c: nat, n: nat) {
    1 < n <= |ms| && At(ms, n).prev.Some? && resolve(c, At(ms, n).prev.value) == Ok(At(ms, n - 1))
  }

  lemma AllFollow(h: History, ms: seq<Manifest>, v: nat, resolve: Resolver)
    requires |ms| == |h| && 1 <= v <= |h|
    requires forall c: nat, n: nat :: Root(h, v) < n <= v ==> Follows(ms, resolve, c, n)
    ensures Faithful(h, ms, v, resolve)
  {
    forall n: nat | Root(h, v) < n <= v
      ensures At(ms, n).prev.Some?
    {
      assert Follows(ms, resolve, 0, n);
    }
    forall c: nat, n: nat | Root(h, v) < n <= v
      ensures resolve(c, At(ms, n).prev.value) == Ok(At(ms, n - 1))
    {
      assert Follows(ms, resolve, c, n);
    }
  }

  lemma LinkFollowed(h: History, puts: seq<Put>, ms: seq<Manifest>, v: nat, n: nat, c: nat)
    requires Cut(puts) && Ran(puts, ms) && |h| == |puts| && |ms| == |h| && Represents(h, ms)
    requires 1 <= v <= |h| && Root(h, v) < n <= v
    ensures At(ms, n).prev.Some?
    ensures Lookup(StoreOf(puts, ms), At(ms, v).artifactId)(c, At(ms, n).prev.value)
            == if Resident(puts, n - 1) then Ok(At(ms, n - 1)) else Err(VersionGone)
  {
    hide Represents, Ran, Lookup, StoreOf, Root, Resident;
    RootBelow(h, v, n);
    RootBelow(h, v, n - 1);
    LinkVersion(h, ms, n);
    LinkVersion(h, ms, n - 1);
    ChainFacts(h, ms, v);
    ChainFacts(h, ms, n);
    ChainFacts(h, ms, n - 1);
    NeverLies(puts, ms, n, c);
  }

  // ---- Every run ----

  lemma {:induction false} HistoryPrefix(puts: seq<Put>, n: nat)
    requires Cut(puts) && n <= |puts|
    ensures Cut(puts[..n]) && HistoryFrom(puts)[..n] == HistoryFrom(puts[..n])
    decreases |puts|
  {
    if n == |puts| {
      assert puts[..n] == puts;
    } else {
      var k := |puts| - 1;
      HistoryPrefix(puts[..k], n);
      assert puts[..k][..n] == puts[..n];
    }
  }

  lemma {:induction false} RootPrefix(h: History, n: nat, v: nat)
    requires 1 <= v <= n <= |h|
    ensures Root(h[..n], v) == Root(h, v)
    decreases v
  {
    if v > 1 {
      RootPrefix(h, n, v - 1);
    }
  }

  /** Nothing on the head's chain is ever overwritten. */
  lemma {:induction false} HeadResident(puts: seq<Put>, ms: seq<Manifest>, k: nat)
    requires Cut(puts) && Ran(puts, ms) && |puts| > 0 && Root(HistoryFrom(puts), |puts|) <= k <= |puts|
    ensures Resident(puts, k)
    decreases |puts|
  {
    hide NextManifest, Lookup, StoreOf;
    var n, h := |puts| - 1, HistoryFrom(puts);
    if k <= n {
      RootBelow(h, n + 1, n);
      HistoryPrefix(puts, n);
      RootPrefix(h, n, n);
      HeadResident(puts[..n], ms[..n], k);
      OneLater(puts, k);
    }
  }

  /** The steps of the run, with the links followed through the chunks. */
  ghost function StepsOf(puts: seq<Put>, ms: seq<Manifest>): (steps: seq<Step>)
    requires |puts| == |ms|
    ensures |steps| == |puts|
  {
    if |puts| == 0 then []
    else
      var n := |puts| - 1;
      StepsOf(puts[..n], ms[..n])
      + [Step(puts[n].commit, StagedLast(puts), Lookup(StoreOf(puts[..n], ms[..n]), Artifact(ms[..n])))]
  }

  lemma {:induction false} SameHistory(puts: seq<Put>, ms: seq<Manifest>)
    requires Cut(puts) && |puts| == |ms|
    ensures Partitions(StepsOf(puts, ms)) && HistoryOf(StepsOf(puts, ms)) == HistoryFrom(puts)
    decreases |puts|
  {
    if |puts| > 0 {
      var n := |puts| - 1;
      SameHistory(puts[..n], ms[..n]);
      var steps := StepsOf(puts, ms);
      assert steps[..n] == StepsOf(puts[..n], ms[..n]);
    }
  }

  /** Every commit of such a run follows links rightly, so the run writes manifests that
      represent its history. */
  lemma {:induction false} RunWrote(puts: seq<Put>, ms: seq<Manifest>)
    requires Cut(puts) && Ran(puts, ms) && Chunked(HistoryFrom(puts)) && Countable(HistoryFrom(puts))
    ensures Partitions(StepsOf(puts, ms)) && Wrote(StepsOf(puts, ms), ms) && Represents(HistoryFrom(puts), ms)
    decreases |puts|
  {
    hide *;
    SameLength(puts, ms);
    SameHistory(puts, ms);
    if |puts| == 0 {
      NothingRan(puts, ms);
    } else {
      var n := |puts| - 1;
      LastPut(puts, ms);
      PrefixRules(HistoryFrom(puts[..n]), Entry(puts[n].commit, Group(puts[n].chunks, puts[n].spans)));
      RunWrote(puts[..n], ms[..n]);
      if n > 0 {
        HeadFaithful(puts[..n], ms[..n]);
      }
      SameHistory(puts[..n], ms[..n]);
      WroteSnoc(puts, ms);
    }
    RunRepresents(StepsOf(puts, ms), ms);
  }

  lemma SameLength(puts: seq<Put>, ms: seq<Manifest>)
    requires Cut(puts) && Ran(puts, ms)
    ensures |ms| == |puts|
  {
  }

  lemma NothingRan(puts: seq<Put>, ms: seq<Manifest>)
    requires Cut(puts) && Ran(puts, ms) && |puts| == 0
    ensures Partitions(StepsOf(puts, ms)) && Wrote(StepsOf(puts, ms), ms)
  {
  }

  lemma LastPut(puts: seq<Put>, ms: seq<Manifest>)
    requires Cut(puts) && Ran(puts, ms) && |puts| > 0
    ensures var n := |puts| - 1;
            && |ms| == |puts| && Cut(puts[..n]) && Ran(puts[..n], ms[..n]) && Sum(puts[n].spans) == |puts[n].chunks|
            && HistoryFrom(puts) == HistoryFrom(puts[..n]) + [Entry(puts[n].commit, Group(puts[n].chunks, puts[n].spans))]
  {
    hide NextManifest, Allocated, Sum, Group;
  }

  /** The head's links are followed rightly. */
  lemma HeadFaithful(puts: seq<Put>, ms: seq<Manifest>)
    requires Cut(puts) && Ran(puts, ms) && |puts| > 0 && Represents(HistoryFrom(puts), ms)
    ensures |ms| == |puts|
    ensures Faithful(HistoryFrom(puts), ms, |puts|, Lookup(StoreOf(puts, ms), Artifact(ms)))
  {
    var h := HistoryFrom(puts);
    SameLength(puts, ms);
    hide Represents, Ran, Cut, HistoryFrom, Root, Resident, StoreOf, Lookup, Faithful;
    forall k | Root(h, |puts|) <= k < |puts|
      ensures Resident(puts, k)
    {
      HeadResident(puts, ms, k);
    }
    FaithfulIffResident(h, puts, ms, |puts|);
  }

  lemma WroteSnoc(puts: seq<Put>, ms: seq<Manifest>)
    requires Cut(puts) && Ran(puts, ms) && |puts| > 0 && |ms| == |puts|
    requires Partitions(StepsOf(puts, ms))
    requires var n := |puts| - 1;
             && Cut(puts[..n]) && Partitions(StepsOf(puts[..n], ms[..n])) && Wrote(StepsOf(puts[..n], ms[..n]), ms[..n])
             && HistoryOf(StepsOf(puts[..n], ms[..n])) == HistoryFrom(puts[..n])
             && (n > 0 ==> Faithful(HistoryFrom(puts[..n]), ms[..n], n, Lookup(StoreOf(puts[..n], ms[..n]), Artifact(ms[..n]))))
    ensures Wrote(StepsOf(puts, ms), ms)
  {
    hide NextManifest, Allocated, Faithful, Lookup, HistoryFrom, HistoryOf, StoreOf, Cut, StagedLast;
    var n, steps := |puts| - 1, StepsOf(puts, ms);
    assert steps[..n] == StepsOf(puts[..n], ms[..n]);
  }

  /** Exact delta, with links followed through the chunks as they are: any run of commits,
      any version whose chain is still there (the newest one's always is), any reader. */
  lemma EveryStoredDelta(puts: seq<Put>, ms: seq<Manifest>, v: nat, since: nat)
    requires Cut(puts) && Ran(puts, ms) && Chunked(HistoryFrom(puts)) && Countable(HistoryFrom(puts))
    requires 1 <= v <= |puts|
    ensures var h := HistoryFrom(puts);
            && |ms| == |puts|
            && (v == |puts| ==> ChainResident(h, puts, v))
            && (ChainResident(h, puts, v) ==>
                  ReadDelta(At(ms, v), since, Lookup(StoreOf(puts, ms), At(ms, v).artifactId)) == Ok(Owed(h, ms, v, since)))
            && (0 < since <= v && !Truncates(h, ms, v, since) ==>
                  && Exact(h, since, v, Table(h, v))
                  && Suffix(Table(h, v), Table(h, since) + Added(h, since, v)))
  {
    hide *;
    var h := HistoryFrom(puts);
    SameLength(puts, ms);
    RunWrote(puts, ms);
    CountableAt(h, v);
    if v == |puts| {
      NewestResident(puts, ms);
    }
    if ChainResident(h, puts, v) {
      FaithfulIffResident(h, puts, ms, v);
      ExactDelta(h, ms, v, since, Lookup(StoreOf(puts, ms), At(ms, v).artifactId));
    }
    if 0 < since <= v && !Truncates(h, ms, v, since) {
      DeltaExact(h, ms, v, since);
    }
  }

  lemma NewestResident(puts: seq<Put>, ms: seq<Manifest>)
    requires Cut(puts) && Ran(puts, ms) && |puts| > 0
    ensures ChainResident(HistoryFrom(puts), puts, |puts|)
  {
    hide Ran, Cut, HistoryFrom, Root, Resident;
    forall k | Root(HistoryFrom(puts), |puts|) <= k < |puts|
      ensures Resident(puts, k)
    {
      HeadResident(puts, ms, k);
    }
  }

  lemma CountableAt(h: History, v: nat)
    requires Countable(h) && v <= |h|
    ensures |Table(h, v)| <= U32_MAX
  {
  }

  /** The window a re-rooting commit would keep next, with links followed through the chunks. */
  lemma StoredWindow(puts: seq<Put>, ms: seq<Manifest>, keep: nat) returns (w: WindowSet)
    requires Cut(puts) && Ran(puts, ms) && Chunked(HistoryFrom(puts)) && Countable(HistoryFrom(puts)) && |puts| > 0
    ensures |ms| == |puts|
    ensures WindowFor(At(ms, |ms|), keep, Lookup(StoreOf(puts, ms), Artifact(ms))) == Ok(w)
    ensures WindowKeeps(HistoryFrom(puts), |puts|, w, Last(Table(HistoryFrom(puts), |puts|), keep))
  {
    hide *;
    var h := HistoryFrom(puts);
    SameLength(puts, ms);
    RunWrote(puts, ms);
    HeadFaithful(puts, ms);
    CountableAt(h, |puts|);
    w := WindowIsExact(h, ms, |puts|, keep, Lookup(StoreOf(puts, ms), Artifact(ms)));
  }
}
