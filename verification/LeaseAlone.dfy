/** What the lease operations do when nobody interferes. */
module LeaseAlone {
  import opened Common
  import opened Lease

  lemma Puts(s: State, t: nat, th: Thread)
    ensures ThreadOf(Put(s, t, th), t) == th
    ensures forall u: Thread {:trigger Put(Put(s, t, th), t, u)} :: Put(Put(s, t, th), t, u) == Put(s, t, u)
  {
    forall u: Thread
      ensures Put(Put(s, t, th), t, u) == Put(s, t, u)
    {
      assert s.threads[t := th][t := u] == s.threads[t := u];
    }
  }

  /** A free lease is acquired under its present fence, a held one is not, and the reserved
      owner id gets none. */
  lemma AcquireAlone(s: State, t: nat, owner: nat)
    requires ThreadOf(s, t).pc.Idle?
    ensures Step(Step(s, t, Acquire(owner)), t, Go) ==
            if s.word.owner != 0 || owner == 0 then s
            else Put(s.(word := Word(owner, s.word.fence)), t, Thread(Committer, s.word, owner, s.word.fence))
  {
    if s.word.owner == 0 && owner != 0 {
      var th := Thread(AcquireSwap, s.word, owner, 0);
      Puts(s, t, th);
      Puts(s.(word := Word(owner, s.word.fence)), t, th);
    }
  }

  /** A committer that acquired and drops leaves the lease free, one fence on. */
  lemma DropAlone(s: State, t: nat, owner: nat)
    requires ThreadOf(s, t).pc.Idle? && s.word.owner == 0 && owner != 0
    ensures Step(Step(Step(s, t, Acquire(owner)), t, Go), t, Go) == Put(s.(word := Word(0, s.word.fence + 1)), t, RESTING)
  {
    AcquireAlone(s, t, owner);
    var th, w := Thread(Committer, s.word, owner, s.word.fence), Word(owner, s.word.fence);
    Puts(s.(word := w), t, th);
    Puts(s.(word := Released(w)), t, th);
  }

  /** A forced release of a held lease fences its holder out. */
  lemma ForceAlone(s: State, t: nat)
    requires ThreadOf(s, t).pc.Idle? && s.word.owner != 0
    ensures Step(Step(s, t, Force), t, Go) == Put(s.(word := Word(0, s.word.fence + 1)), t, RESTING)
  {
    var th := Thread(ForceSwap, s.word, 0, 0);
    Puts(s, t, th);
    Puts(s.(word := Released(s.word)), t, th);
  }

  /** Whatever the others do, an acquisition under way gives up only while the lease is held,
      and a forced release only once it is free: losing a race only makes either look again. */
  lemma GivesUpOnlyIf(s: State, t: nat, u: nat, a: Act)
    requires ThreadOf(s, t).pc.AcquireSwap? || ThreadOf(s, t).pc.ForceSwap?
    ensures var th, th', s' := ThreadOf(s, t), ThreadOf(Step(s, u, a), t), Step(s, u, a);
            if th'.pc == th.pc then th' == th || (u == t && th' == th.(seen := s.word))
            else
              && u == t
              && (th.pc.AcquireSwap? ==>
                    if th'.pc.Committer? then s'.word == Word(th.owner, s.word.fence) && th'.token == s.word.fence
                    else s.word.owner != 0 && s' == Put(s, t, RESTING))
              && (th.pc.ForceSwap? ==>
                    th' == RESTING && s'.word == if SamePacked(s.word, th.seen) then Word(0, s.word.fence + 1) else s.word)
              && (th.pc.ForceSwap? && !SamePacked(s.word, th.seen) ==> s.word.owner == 0)
  {
  }
}
