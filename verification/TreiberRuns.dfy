/** A run of 2^32 swaps after which a stale pop puts a held slot on the free list. */
module TreiberRuns {
  import opened Common
  import opened Treiber

  ghost predicate Reached(s: State) {
    exists sched: Schedule :: Run(Init(3), sched) == s
  }

  lemma Then(s: State, t: nat, s': State)
    requires Reached(s) && Step(s, t, Go) == s'
    ensures Reached(s')
  {
    var sched :| Run(Init(3), sched) == s;
    var longer := sched + [(t, Go)];
    assert longer[..|longer| - 1] == sched;
    assert Run(Init(3), longer) == s';
  }

  /** A step of t that only moves t, from one place to the next. */
  lemma Hop(s: State, t: nat, th: Thread, th': Thread)
    requires Reached(Put(s, t, th)) && Step(Put(s, t, th), t, Go) == Put(Put(s, t, th), t, th')
    ensures Reached(Put(s, t, th'))
  {
    Then(Put(s, t, th), t, Put(Put(s, t, th), t, th'));
    assert s.threads[t := th][t := th'] == s.threads[t := th'];
  }

  /** A thread at rest loads a head and its link. */
  lemma Loads(s: State, t: nat)
    requires Reached(s) && ThreadOf(s, t) == RESTING && s.top < |s.links|
    ensures Reached(Put(s, t, Thread(PopSwap, s.tag, s.top, s.top, s.links[s.top])))
  {
    hide Reached;
    var th := Thread(PopRead, s.tag, s.top, s.top, 0);
    Then(s, t, Put(s, t, th));
    Hop(s, t, th, th.(pc := PopSwap, next := s.links[s.top]));
  }

  /** It goes on to pop the top slot, alone. */
  lemma Pops(s: State, t: nat)
    requires Reached(s) && ThreadOf(s, t) == RESTING && s.top < |s.links|
    ensures Reached(Put(s.(tag := s.tag + 1, top := s.links[s.top]), t, Thread(Holding, s.tag, s.top, s.top, s.links[s.top])))
  {
    Loads(s, t);
    hide Reached;
    var th := Thread(PopSwap, s.tag, s.top, s.top, s.links[s.top]);
    var popped := s.(tag := s.tag + 1, top := s.links[s.top]);
    Then(Put(s, t, th), t, Put(Put(popped, t, th), t, th.(pc := Holding)));
    assert popped.threads[t := th][t := th.(pc := Holding)] == popped.threads[t := th.(pc := Holding)];
  }

  /** A holder pushes its slot back, alone. */
  lemma Pushes(s: State, t: nat, th: Thread)
    requires Reached(Put(s, t, th)) && th.pc.Holding? && th.slot < |s.links|
    ensures Reached(Put(s.(tag := s.tag + 1, top := th.slot, links := s.links[th.slot := s.top]), t, RESTING))
  {
    hide Reached;
    var loaded, linked := th.(pc := PushLink, tag := s.tag, top := s.top), s.(links := s.links[th.slot := s.top]);
    Hop(s, t, th, loaded);
    var swap := loaded.(pc := PushSwap);
    Then(Put(s, t, loaded), t, Put(Put(linked, t, loaded), t, swap));
    assert linked.threads[t := loaded][t := swap] == linked.threads[t := swap];
    var pushed := linked.(tag := s.tag + 1, top := th.slot);
    Then(Put(linked, t, swap), t, Put(Put(pushed, t, swap), t, RESTING));
    assert pushed.threads[t := swap][t := RESTING] == pushed.threads[t := RESTING];
  }

  /** Thread 2 pops and pushes slot 0, any number of times. */
  lemma {:induction false} Rounds(s: State, k: nat)
    requires Reached(s) && 2 in s.threads && s.threads[2] == RESTING && s.top == 0 && s.links == [3, 2, 3]
    ensures Reached(s.(tag := s.tag + 2 * k))
  {
    if k > 0 {
      Rounds(s, k - 1);
      var r := s.(tag := s.tag + 2 * (k - 1));
      Pops(r, 2);
      var held, th := r.(tag := r.tag + 1, top := 3), Thread(Holding, r.tag, 0, 0, 3);
      Pushes(held, 2, th);
      hide Reached;
      assert held.links[0 := 3] == s.links && s.threads[2 := RESTING] == s.threads;
    }
  }

  /** Thread 1 has loaded slot 0 and its link to slot 1; thread 3 holds slot 1, thread 4
      slot 2, and slot 0 is back. */
  lemma Overtaken() returns (s: State)
    ensures Reached(s) && s.tag == 4 && s.top == 0 && s.links == [3, 2, 3] && 2 in s.threads && s.threads[2] == RESTING
    ensures ThreadOf(s, 1) == Thread(PopSwap, 0, 0, 0, 1) && HoldsSlot(ThreadOf(s, 3), 1)
  {
    var s0 := State(0, 0, [1, 2, 3], map[]);
    assert Run(Init(3), []) == s0 by {
      assert seq(3, i => i + 1) == [1, 2, 3];
    }
    assert Reached(s0);
    hide Reached;
    Loads(s0, 1);
    var s1 := Put(s0, 1, Thread(PopSwap, 0, 0, 0, 1));
    Pops(s1, 2);
    var s2 := Put(s1.(tag := 1, top := 1), 2, Thread(Holding, 0, 0, 0, 1));
    Pops(s2, 3);
    var s3 := Put(s2.(tag := 2, top := 2), 3, Thread(Holding, 1, 1, 1, 2));
    Pops(s3, 4);
    var s4 := Put(s3.(tag := 3, top := 3), 4, Thread(Holding, 2, 2, 2, 3));
    assert s4.threads[2 := ThreadOf(s4, 2)] == s4.threads;
    Pushes(s4, 2, ThreadOf(s4, 2));
    s := Put(s4.(tag := 4, top := 0, links := s4.links[0 := 3]), 2, RESTING);
  }

  /** The window is needed: 2^32 swaps after its load, a stale pop installs a slot another
      thread holds, and the list is no free list any more. */
  lemma WrappedTag() returns (sched: Schedule)
    ensures forall free :: !Inv(Run(Init(3), sched), free)
    ensures !NeverStale(Init(3), sched) && !Unwrapped(Init(3), sched)
  {
    var s := Overtaken();
    Rounds(s, (TAGS - 4) / 2);
    var r := s.(tag := TAGS);
    WrapInstallsHeld(r, 1, 3);
    Then(r, 1, Step(r, 1, Go));
    sched :| Run(Init(3), sched) == Step(r, 1, Go);
    NotRefined(sched);
  }

  lemma NotRefined(sched: Schedule)
    requires forall free :: !Inv(Run(Init(3), sched), free)
    ensures !NeverStale(Init(3), sched) && !Unwrapped(Init(3), sched)
  {
    hide Inv, Init, Run, AbstractRun, Upto, NeverStale, Unwrapped;
    RefinesStack(3, sched);
    if Unwrapped(Init(3), sched) {
      WindowRefines(3, sched);
    }
  }
}
