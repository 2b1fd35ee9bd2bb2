/** The fenced write lease: owner and fence packed into one word, acquired and
    released by compare-exchange, every release advancing the fence
    (crates/shm-artifact/src/head.rs, acquire_write_lease, lease_held_by,
    release_write_lease and force_release_write_lease;
    crates/shm-artifact/src/artifact.rs, Committer's drop). */
module Lease {
  import opened Common

  /** Fences are 32 bits wide; the packed word sees them modulo this. */
  const FENCES: nat := 0x1_0000_0000

  /** The lease word: owner 0 is free; `fence` counts all releases ever made. */
  datatype Word = Word(owner: nat, fence: nat)

  datatype Pc = Idle | AcquireSwap | Committer | ForceSwap

  /** A thread: the word it loaded, the owner id it acts as, and the token it
      acquired under. */
  datatype Thread = Thread(pc: Pc, seen: Word, owner: nat, token: nat)

  datatype State = State(word: Word, threads: map<nat, Thread>)

  /** Begin an acquisition as some owner or a forced release; take the next step. A
      committer's next step is its drop. */
  datatype Act = Acquire(owner: nat) | Force | Go

  const RESTING: Thread := Thread(Idle, Word(0, 0), 0, 0)

  function ThreadOf(s: State, t: nat): Thread {
    if t in s.threads then s.threads[t] else RESTING
  }

  function Put(s: State, t: nat, th: Thread): State {
    s.(threads := s.threads[t := th])
  }

  /** Two packed words compare equal. */
  predicate SamePacked(a: Word, b: Word) {
    a.owner == b.owner && a.fence % FENCES == b.fence % FENCES
  }

  predicate HeldBy(s: State, owner: nat, token: nat) {
    SamePacked(s.word, Word(owner, token))
  }

  function Released(w: Word): Word {
    Word(0, w.fence + 1)
  }

  /** One atomic step of thread t. */
  function Step(s: State, t: nat, a: Act): State {
    var th := ThreadOf(s, t);
    match th.pc
    case Idle =>
      (match a
       case Acquire(owner) =>
         if s.word.owner != 0 || owner == 0 then s else Put(s, t, Thread(AcquireSwap, s.word, owner, 0))
       case Force => if s.word.owner == 0 then s else Put(s, t, Thread(ForceSwap, s.word, 0, 0))
       case Go => s)
    case AcquireSwap =>
      if SamePacked(s.word, th.seen) then
        Put(s.(word := s.word.(owner := th.owner)), t, th.(pc := Committer, token := s.word.fence))
      else if s.word.owner != 0 then Put(s, t, RESTING)
      else Put(s, t, th.(seen := s.word))
    case Committer =>
      Put(if HeldBy(s, th.owner, th.token) then s.(word := Released(s.word)) else s, t, RESTING)
    case ForceSwap =>
      if SamePacked(s.word, th.seen) then Put(s.(word := Released(s.word)), t, RESTING)
      else if s.word.owner == 0 then Put(s, t, RESTING)
      else Put(s, t, th.(seen := s.word))
  }

  /** No thread is overtaken by 2^32 releases. */
  ghost predicate InWindow(s: State) {
    forall t: nat :: ThreadOf(s, t).pc.Committer? ==> s.word.fence < ThreadOf(s, t).token + FENCES
  }

  type Schedule = seq<(nat, Act)>

  function Run(s: State, sched: Schedule): State {
    if |sched| == 0 then s
    else
      var last := sched[|sched| - 1];
      Step(Run(s, sched[..|sched| - 1]), last.0, last.1)
  }

  ghost predicate Unwrapped(s: State, sched: Schedule) {
    InWindow(Run(s, sched)) && (|sched| > 0 ==> Unwrapped(s, sched[..|sched| - 1]))
  }

  /** Tokens never run ahead of the fence, the one at the fence belongs to the single
      committer the word names, and a free lease has none. */
  ghost predicate Inv(s: State) {
    && (forall t: nat :: ThreadOf(s, t).pc.Committer? ==>
          && ThreadOf(s, t).owner != 0
          && ThreadOf(s, t).token <= s.word.fence
          && (ThreadOf(s, t).token == s.word.fence ==> s.word.owner == ThreadOf(s, t).owner))
    && (forall t: nat, u: nat ::
          (&& ThreadOf(s, t).pc.Committer? && ThreadOf(s, u).pc.Committer?
           && ThreadOf(s, t).token == ThreadOf(s, u).token == s.word.fence) ==> t == u)
    && (forall t: nat :: ThreadOf(s, t).pc.AcquireSwap? ==> ThreadOf(s, t).seen.owner == 0 && ThreadOf(s, t).owner != 0)
    && (forall t: nat :: ThreadOf(s, t).pc.ForceSwap? ==> ThreadOf(s, t).seen.owner != 0)
  }

  /** The committer's token is the lease now in force. */
  predicate Current(s: State, t: nat) {
    ThreadOf(s, t).pc.Committer? && HeldBy(s, ThreadOf(s, t).owner, ThreadOf(s, t).token)
  }

  /** Within the window a token is in force only at its own fence. */
  lemma InForce(s: State, t: nat)
    requires Inv(s) && InWindow(s) && Current(s, t)
    ensures ThreadOf(s, t).token == s.word.fence
  {
    var th := ThreadOf(s, t);
    SameFence(s.word.fence, th.token);
  }

  lemma SameFence(a: nat, b: nat)
    requires b <= a < b + FENCES && a % FENCES == b % FENCES
    ensures a == b
  {
  }

  lemma StepInv(s: State, t: nat, a: Act)
    requires Inv(s) && InWindow(s)
    ensures Inv(Step(s, t, a))
  {
    var s', th := Step(s, t, a), ThreadOf(s, t);
    assert forall u: nat {:trigger ThreadOf(s', u)} :: u != t ==> ThreadOf(s', u) == ThreadOf(s, u);
    if Current(s, t) {
      InForce(s, t);
    }
  }

  lemma {:induction false} RunInv(sched: Schedule)
    requires Unwrapped(State(Word(0, 0), map[]), sched)
    ensures Inv(Run(State(Word(0, 0), map[]), sched))
  {
    hide Step;
    if |sched| > 0 {
      var last := sched[|sched| - 1];
      RunInv(sched[..|sched| - 1]);
      StepInv(Run(State(Word(0, 0), map[]), sched[..|sched| - 1]), last.0, last.1);
    }
  }

  /** At most one committer's token is in force, even among equal owner ids. */
  lemma OneCommitter(sched: Schedule, t: nat, u: nat)
    requires Unwrapped(State(Word(0, 0), map[]), sched)
    ensures var s := Run(State(Word(0, 0), map[]), sched);
            Current(s, t) && Current(s, u) ==> t == u
  {
    RunInv(sched);
    var s := Run(State(Word(0, 0), map[]), sched);
    if Current(s, t) && Current(s, u) {
      InForce(s, t);
      InForce(s, u);
    }
  }

  /** A committer's drop never touches another's lease, equal owner ids included: whoever
      else's token is in force, the word stays, and so does that token. */
  lemma StaleDrop(sched: Schedule, t: nat, u: nat)
    requires Unwrapped(State(Word(0, 0), map[]), sched) && t != u
    ensures var s := Run(State(Word(0, 0), map[]), sched);
            Current(s, u) && ThreadOf(s, t).pc.Committer? ==>
              Step(s, t, Go).word == s.word && Current(Step(s, t, Go), u)
  {
    OneCommitter(sched, t, u);
  }

  /** The fence never goes back. */
  lemma FenceGrows(s: State, t: nat, a: Act)
    ensures s.word.fence <= Step(s, t, a).word.fence
  {
  }

  /** Once a token is behind the fence it is never in force again: not for its
      committer, and not for anyone presenting the same owner and token. */
  lemma {:induction false} NeverAgain(s: State, sched: Schedule, owner: nat, token: nat)
    requires token < s.word.fence && Run(s, sched).word.fence < token + FENCES
    ensures !HeldBy(Run(s, sched), owner, token)
    ensures s.word.fence <= Run(s, sched).word.fence
  {
    RunGrows(s, sched);
    var now := Run(s, sched).word.fence;
    if now % FENCES == token % FENCES {
      SameFence(now, token);
    }
  }

  lemma {:induction false} RunGrows(s: State, sched: Schedule)
    ensures s.word.fence <= Run(s, sched).word.fence
  {
    if |sched| > 0 {
      var last := sched[|sched| - 1];
      RunGrows(s, sched[..|sched| - 1]);
      FenceGrows(Run(s, sched[..|sched| - 1]), last.0, last.1);
    }
  }

  /** Once a committer's token is behind the fence, its drop changes nothing, however much
      later it comes. */
  lemma LateDrop(s: State, sched: Schedule, t: nat)
    requires ThreadOf(Run(s, sched), t).pc.Committer? && ThreadOf(Run(s, sched), t).token < s.word.fence
    requires Run(s, sched).word.fence < ThreadOf(Run(s, sched), t).token + FENCES
    ensures Step(Run(s, sched), t, Go).word == Run(s, sched).word
  {
    var th := ThreadOf(Run(s, sched), t);
    NeverAgain(s, sched, th.owner, th.token);
  }

  /** Past the window: a token behind the fence is in force again exactly when its owner id
      holds the lease a multiple of 2^32 releases later. */
  lemma AgainIffWrapped(s: State, owner: nat, token: nat)
    requires token < s.word.fence
    ensures HeldBy(s, owner, token) <==> s.word.owner == owner && (s.word.fence - token) % FENCES == 0
  {
    Congruent(s.word.fence, token);
  }

  lemma Congruent(a: nat, b: nat)
    requires b <= a
    ensures a % FENCES == b % FENCES <==> (a - b) % FENCES == 0
  {
    var q, r := a / FENCES, b / FENCES;
    assert a == q * FENCES + a % FENCES && b == r * FENCES + b % FENCES;
    if (a - b) % FENCES == 0 {
      var k := (a - b) / FENCES;
      assert a - b == k * FENCES;
      assert a % FENCES - b % FENCES == (k - q + r) * FENCES;
    } else {
      assert a % FENCES == b % FENCES ==> a - b == (q - r) * FENCES;
    }
  }

  // ---- A wrapped fence ----

  ghost predicate Reached(s: State) {
    exists sched: Schedule :: Run(State(Word(0, 0), map[]), sched) == s
  }

  lemma Then(s: State, t: nat, a: Act, s': State)
    requires Reached(s) && Step(s, t, a) == s'
    ensures Reached(s')
  {
    var sched :| Run(State(Word(0, 0), map[]), sched) == s;
    var longer := sched + [(t, a)];
    assert longer[..|longer| - 1] == sched;
    assert Run(State(Word(0, 0), map[]), longer) == s';
  }

  /** Thread 3 acquires a free lease as owner 7. */
  lemma Acquires(s: State)
    requires Reached(s) && s.word.owner == 0 && ThreadOf(s, 3).pc.Idle?
    ensures Reached(Put(s.(word := Word(7, s.word.fence)), 3, Thread(Committer, s.word, 7, s.word.fence)))
  {
    hide Reached;
    var th := Thread(AcquireSwap, s.word, 7, 0);
    Then(s, 3, Acquire(7), Put(s, 3, th));
    Then(Put(s, 3, th), 3, Go, Put(s.(word := Word(7, s.word.fence)), 3, th.(pc := Committer, token := s.word.fence)));
  }

  /** Any number of acquisitions and drops by thread 3. */
  lemma {:induction false} Rounds(s: State, k: nat)
    requires Reached(s) && s.word.owner == 0 && ThreadOf(s, 3) == RESTING && 3 in s.threads
    ensures Reached(s.(word := Word(0, s.word.fence + k)))
  {
    if k > 0 {
      Rounds(s, k - 1);
      var r := s.(word := Word(0, s.word.fence + k - 1));
      Acquires(r);
      hide Reached;
      var held := Put(r.(word := Word(7, r.word.fence)), 3, Thread(Committer, r.word, 7, r.word.fence));
      Then(held, 3, Go, Put(held.(word := Word(0, r.word.fence + 1)), 3, RESTING));
      assert held.threads[3 := RESTING] == s.threads;
    }
  }

  /** The window is needed: after 2^32 releases a fenced-out committer's drop releases the
      lease a successor with the same owner id holds. */
  lemma WrappedDrop() returns (sched: Schedule)
    ensures var s := Run(State(Word(0, 0), map[]), sched);
            Current(s, 3) && ThreadOf(s, 1).pc.Committer? && Step(s, 1, Go).word == Word(0, FENCES + 1)
  {
    var s := Wraps();
    sched :| Run(State(Word(0, 0), map[]), sched) == s;
  }

  lemma Wraps() returns (s: State)
    ensures Reached(s) && Current(s, 3) && ThreadOf(s, 1).pc.Committer? && Step(s, 1, Go).word == Word(0, FENCES + 1)
  {
    var s0, th := State(Word(0, 0), map[]), Thread(AcquireSwap, Word(0, 0), 7, 0);
    assert Run(s0, []) == s0;
    assert Reached(s0);
    hide Reached;
    var s1 := State(Word(7, 0), map[1 := th.(pc := Committer)]);
    Then(s0, 1, Acquire(7), Put(s0, 1, th));
    Then(Put(s0, 1, th), 1, Go, s1);
    var force := Thread(ForceSwap, Word(7, 0), 0, 0);
    Then(s1, 3, Force, Put(s1, 3, force));
    var s2 := Put(s1.(word := Word(0, 1)), 3, RESTING);
    Then(Put(s1, 3, force), 3, Go, s2);
    Rounds(s2, FENCES - 1);
    var s3 := s2.(word := Word(0, FENCES));
    Acquires(s3);
    s := Put(s3.(word := Word(7, FENCES)), 3, Thread(Committer, Word(0, FENCES), 7, FENCES));
  }
}
