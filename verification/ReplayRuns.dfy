/** Two runs of crash replay that go wrong: a live pin stolen after an index was recorded
    over a holder that still names it, and a pin leaked by a replay that looked while the
    slot was not live. */
module ReplayRuns {
  import opened Common
  import opened Replay

  ghost predicate Reached(s: State) {
    exists acts: seq<Act> :: Run(START, acts) == s
  }

  lemma Then(s: State, a: Act, s': State)
    requires Reached(s) && Step(s, a) == s'
    ensures Reached(s')
  {
    var acts :| Run(START, acts) == s;
    var longer := acts + [a];
    assert longer[..|longer| - 1] == acts;
    assert Run(START, longer) == s';
  }

  /** Version 1 pinned by thread 1 without a journal, and by thread 2 at index 0. */
  const TWO: State :=
    State(map[1 := 2], {}, map[0 := Pin(1, 1)], {0}, {}, multiset{}, [], 2,
          map[1 := Thread(Bumped, Pin(1, 0), 0, 0), 2 := Thread(Reading, Pin(1, 1), 0, 0)])

  lemma TwoReaders()
    ensures Reached(TWO)
  {
    assert Run(START, []) == START;
    var a, b := Thread(Bumped, Pin(1, 0), 0, 0), Thread(Bumped, Pin(1, 1), 0, 0);
    var s1 := START.(pins := map[1 := 1], next := 1, threads := map[1 := a]);
    var s2 := s1.(pins := map[1 := 2], next := 2, threads := map[1 := a, 2 := b]);
    Then(START, Take(1, 1), s1);
    Then(s1, Take(2, 1), s2);
    Then(s2, Journal(2, 0), TWO);
  }

  /** Thread 2's actor is declared dead; thread 3 replays its record. */
  lemma Replayed()
    ensures Reached(TWO.(pins := map[1 := 1], bits := {}, dead := {0}, spent := [1], threads := TWO.threads[3 := RESTING]))
  {
    TwoReaders();
    hide Reached;
    var s, th := TWO.(dead := {0}), Thread(ReplayRead, Pin(0, 0), 0, 0);
    Then(TWO, Declare(0), s);
    Then(s, Reap(3, 0), Put(s, 3, th));
    ReplaySteps(s, th);
  }

  lemma ReplaySteps(s: State, th: Thread)
    requires s == TWO.(dead := {0}) && th == Thread(ReplayRead, Pin(0, 0), 0, 0) && Reached(Put(s, 3, th))
    ensures Reached(s.(pins := map[1 := 1], bits := {}, spent := [1], threads := s.threads[3 := RESTING]))
  {
    hide Reached;
    var p, q := th.(pin := Pin(1, 1)), s.(bits := {});
    Then(Put(s, 3, th), Go(3), Put(s, 3, p.(pc := ReplayClear)));
    Then(Put(s, 3, p.(pc := ReplayClear)), Go(3), Put(q, 3, p.(pc := ReplayFind)));
    GivesBack(q, p);
  }

  lemma GivesBack(q: State, p: Thread)
    requires q == TWO.(dead := {0}, bits := {}) && p.pin == Pin(1, 1) && Reached(Put(q, 3, p.(pc := ReplayFind)))
    ensures Reached(Put(q.(pins := map[1 := 1], spent := [1]), 3, RESTING))
  {
    hide Reached;
    Then(Put(q, 3, p.(pc := ReplayFind)), Go(3), Put(q, 3, p.(pc := ReplayLoad)));
    Then(Put(q, 3, p.(pc := ReplayLoad)), Go(3), Put(q, 3, p.(pc := ReplaySwap, seen := 2)));
    Then(Put(q, 3, p.(pc := ReplaySwap, seen := 2)), Go(3), Put(q.(pins := map[1 := 1], spent := [1]), 3, RESTING));
  }

  /** Replay can steal a live pin: thread 2's actor, declared dead but still running, pins
      version 2 and records it at the index its first pin still names; that pin's drop then
      wins the new record's bit and gives version 1 back a second time, under thread 1. */
  lemma StolenPin() returns (acts: seq<Act>)
    ensures var s := Run(START, acts);
            && PinsOf(s, 1) == 0 && LiveReaders(s, 1) == {1}
            && s.spent == [1, 1]
    ensures !CleanRun(acts) && !UntakenRun(acts)
  {
    var end := Steals();
    acts :| Run(START, acts) == end;
    hide *;
    NotClean(acts);
    NotUntaken(acts);
  }

  lemma NotClean(acts: seq<Act>)
    requires PinsOf(Run(START, acts), 1) < |LiveReaders(Run(START, acts), 1)|
    ensures !CleanRun(acts)
  {
    hide *;
    if CleanRun(acts) {
      NeverSteals(acts, 1);
    }
  }

  lemma NotUntaken(acts: seq<Act>)
    requires Run(START, acts).spent == [1, 1]
    ensures !UntakenRun(acts)
  {
    hide *;
    Repeated(Run(START, acts).spent);
    if UntakenRun(acts) {
      AtMostOnce(acts, 0, 0);
    }
  }

  lemma Repeated(ids: seq<nat>)
    requires ids == [1, 1]
    ensures !Distinct(ids)
  {
    assert ids[0] == ids[1];
  }

  lemma Steals() returns (end: State)
    ensures Reached(end) && PinsOf(end, 1) == 0 && LiveReaders(end, 1) == {1} && end.spent == [1, 1]
  {
    Replayed();
    hide Reached;
    var w := TWO.(pins := map[1 := 1], bits := {}, dead := {0}, spent := [1], threads := TWO.threads[3 := RESTING]);
    var x := Put(w.(pins := map[1 := 1, 2 := 1], next := 3), 4, Thread(Bumped, Pin(2, 2), 0, 0));
    var y := Put(x.(entries := map[0 := Pin(2, 2)], bits := {0}), 4, Thread(Reading, Pin(2, 2), 0, 0));
    Then(w, Take(4, 2), x);
    Then(x, Journal(4, 0), y);
    end := DropsTwice(y);
  }

  /** The stale holder drops: it wins the bit at its index. */
  lemma DropsTwice(y: State) returns (end: State)
    requires Reached(y) && ThreadOf(y, 2) == Thread(Reading, Pin(1, 1), 0, 0) && 0 in y.bits
    requires PinsOf(y, 1) == 1 && y.spent == [1] && y.dead == {0} && 2 in y.threads
    requires ThreadOf(y, 1) == Thread(Bumped, Pin(1, 0), 0, 0)
    requires forall t :: t in y.threads && t != 1 && t != 2 ==> y.threads[t].pc.Idle? || y.threads[t].pin.v != 1
    ensures Reached(end) && PinsOf(end, 1) == 0 && LiveReaders(end, 1) == {1} && end.spent == [1, 1]
  {
    hide Reached;
    var z := Put(y.(bits := y.bits - {0}), 2, Thread(Won, Pin(1, 1), 0, 0));
    Then(y, Go(2), z);
    end := Put(z.(pins := z.pins[1 := 0], spent := [1, 1]), 2, RESTING);
    Then(z, Go(2), end);
    assert LiveReaders(end, 1) == {1};
  }

  /** A replay that looks while a reclaimer holds the slot gives up: every thread is done,
      and version 1 stays pinned by nobody. */
  lemma LeakedPin() returns (acts: seq<Act>)
    ensures var s := Run(START, acts);
            && (forall t: nat :: ThreadOf(s, t).pc.Idle?)
            && PinsOf(s, 1) == 1 && s.leaked[1] == 1
  {
    var s := Leaks();
    acts :| Run(START, acts) == s;
  }

  lemma Leaks() returns (s: State)
    ensures Reached(s) && (forall t: nat :: ThreadOf(s, t).pc.Idle?) && PinsOf(s, 1) == 1 && s.leaked[1] == 1
  {
    assert Run(START, []) == START;
    assert Reached(START);
    hide Reached;
    var pin, th := Pin(1, 0), Thread(ReplayRead, Pin(0, 0), 0, 0);
    var s1 := START.(pins := map[1 := 1], next := 1, threads := map[1 := Thread(Bumped, pin, 0, 0)]);
    var s2 := s1.(entries := map[0 := pin], bits := {0}, threads := map[1 := Thread(Reading, pin, 0, 0)]);
    Then(START, Take(1, 1), s1);
    Then(s1, Journal(1, 0), s2);
    Then(s2, Declare(0), s2.(dead := {0}));
    Then(s2.(dead := {0}), Reap(2, 0), Put(s2.(dead := {0}), 2, th));
    s := LeaksOn(s2.(dead := {0}), th);
  }

  lemma LeaksOn(s: State, th: Thread) returns (end: State)
    requires s == State(map[1 := 1], {}, map[0 := Pin(1, 0)], {0}, {0}, multiset{}, [], 1, map[1 := Thread(Reading, Pin(1, 0), 0, 0)])
    requires th == Thread(ReplayRead, Pin(0, 0), 0, 0) && Reached(Put(s, 2, th))
    ensures Reached(end) && (forall t: nat :: ThreadOf(end, t).pc.Idle?) && PinsOf(end, 1) == 1 && end.leaked[1] == 1
  {
    hide Reached;
    var p, q := th.(pin := Pin(1, 0)), s.(bits := {});
    Then(Put(s, 2, th), Go(2), Put(s, 2, p.(pc := ReplayClear)));
    Then(Put(s, 2, p.(pc := ReplayClear)), Go(2), Put(q, 2, p.(pc := ReplayFind)));
    Then(Put(q, 2, p.(pc := ReplayFind)), Flip(1), Put(q.(freeing := {1}), 2, p.(pc := ReplayFind)));
    var gone := Put(q.(freeing := {1}, leaked := multiset{1}), 2, RESTING);
    Then(Put(q.(freeing := {1}), 2, p.(pc := ReplayFind)), Go(2), gone);
    end := Put(gone, 1, RESTING);
    Then(gone, Go(1), end);
  }
}
