/** The window policy: re-root once the chain is deep enough, append otherwise
    (crates/shm-artifact/src/artifact.rs, WindowPolicy and commit_windowed). */
module Policy {
  import opened Common
  import opened Manifests
  import opened Window
  import opened Lineage
  import opened Delta

  datatype WindowPolicy = WindowPolicy(keep: nat, maxDepth: nat) {
    /** The depth at which the next commit re-roots; 0 counts as 1. */
    function Limit(): nat {
      Max(1, maxDepth)
    }

    function CommitForDepth(depth: Option<nat>): Commit {
      if depth.Some? && Min(U32_MAX, depth.value + 1) < Limit() then Append else Rewindow(keep)
    }
  }

  /** Links between version n and its chain root. */
  function Depth(h: History, n: nat): nat
    requires 1 <= n <= |h|
  {
    n - Root(h, n)
  }

  /** One-batch commits, each of the kind the policy chose for the current head. */
  ghost predicate Follows(p: WindowPolicy, h: History) {
    forall n :: 1 <= n <= |h| ==>
      && |Own(h, n)| == 1
      && Kind(h, n) == p.CommitForDepth(if n == 1 then None else Some(Depth(h, n - 1)))
  }

  /** Every run of windowed one-batch commits keeps the chain shallow and the table
      bounded, and never loses a batch it still had room to keep. */
  lemma {:induction false} PolicyBound(p: WindowPolicy, h: History, n: nat)
    requires Follows(p, h) && 1 <= n <= |h| && p.maxDepth <= U32_MAX
    ensures Depth(h, n) < p.Limit()
    ensures Min(n, p.keep + 1) <= |Table(h, n)| <= p.keep + 1 + Depth(h, n)
    ensures |Table(h, n)| <= p.keep + p.Limit()
  {
    hide Follows, Own;
    KindFollows(p, h, n);
    if n > 1 {
      PolicyBound(p, h, n - 1);
    }
  }

  /** The rhythm of such a run: depths count up from zero and start over, so exactly every
      Limit()-th commit re-roots, beginning with the first, and the others append. */
  lemma {:induction false} RerootsEvery(p: WindowPolicy, h: History, n: nat)
    requires Follows(p, h) && 1 <= n <= |h| && p.maxDepth <= U32_MAX
    ensures Depth(h, n) == Wrap(n - 1, p.Limit())
    ensures Kind(h, n) == if Wrap(n - 1, p.Limit()) == 0 then Rewindow(p.keep) else Append
  {
    hide Follows, Depth, Wrap, Own, Table;
    KindFollows(p, h, n);
    if n == 1 {
      FirstRoots(h, p.Limit());
    } else {
      RerootsEvery(p, h, n - 1);
      NextWrap(n - 2, p.Limit());
      DepthStep(h, n);
    }
  }

  lemma KindFollows(p: WindowPolicy, h: History, n: nat)
    requires Follows(p, h) && 1 <= n <= |h|
    ensures |Own(h, n)| == 1
    ensures Kind(h, n) == p.CommitForDepth(if n == 1 then None else Some(Depth(h, n - 1)))
  {
  }

  lemma FirstRoots(h: History, limit: nat)
    requires |h| > 0 && limit > 0
    ensures Depth(h, 1) == 0 == Wrap(0, limit)
  {
  }

  lemma DepthStep(h: History, n: nat)
    requires 1 < n <= |h|
    ensures Depth(h, n) == if Kind(h, n).Append? then Depth(h, n - 1) + 1 else 0
  {
  }

  /** A manifest's recorded depth is the depth the policy reads. */
  lemma PolicyReadsDepth(h: History, ms: seq<Manifest>, n: nat)
    requires Represents(h, ms) && 1 <= n <= |h|
    ensures At(ms, n).depth == Depth(h, n)
  {
    ChainFacts(h, ms, n);
  }
}
