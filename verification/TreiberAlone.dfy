/** What a pop and a push do when nobody interferes, and that one undoes the other. */
module TreiberAlone {
  import opened Common
  import opened Treiber

  /** Thread t at th. */
  lemma Steps(s: State, t: nat, th: Thread)
    ensures ThreadOf(Put(s, t, th), t) == th
    ensures forall u: Thread {:trigger Put(Put(s, t, th), t, u)} :: Put(Put(s, t, th), t, u) == Put(s, t, u)
  {
    forall u: Thread
      ensures Put(Put(s, t, th), t, u) == Put(s, t, u)
    {
      assert s.threads[t := th][t := u] == s.threads[t := u];
    }
  }

  function Thrice(s: State, t: nat): State {
    Step(Step(Step(s, t, Go), t, Go), t, Go)
  }

  /** A pop of a list that is not empty takes the top slot and leaves the rest; a pop of an
      empty list changes nothing. */
  lemma PopAlone(s: State, t: nat)
    requires ThreadOf(s, t).pc.Idle?
    ensures s.top == |s.links| ==> Thrice(s, t) == s
    ensures s.top < |s.links| ==>
              Thrice(s, t) ==
              Put(s.(tag := s.tag + 1, top := s.links[s.top]), t, Thread(Holding, s.tag, s.top, s.top, s.links[s.top]))
  {
    if s.top < |s.links| {
      var th := Thread(PopRead, s.tag, s.top, s.top, 0);
      Steps(s, t, th);
      assert Step(s, t, Go) == Put(s, t, th);
      var th2 := th.(pc := PopSwap, next := s.links[s.top]);
      Steps(s, t, th2);
      assert Step(Put(s, t, th), t, Go) == Put(s, t, th2);
      var popped, held := s.(tag := s.tag + 1, top := s.links[s.top]), th2.(pc := Holding);
      assert Step(Put(s, t, th2), t, Go) == Put(Put(popped, t, th2), t, held);
      Steps(popped, t, th2);
    }
  }

  /** A push puts the held slot on top of the list. */
  lemma PushAlone(s: State, t: nat, th: Thread)
    requires th.pc.Holding? && th.slot < |s.links|
    ensures Thrice(Put(s, t, th), t) ==
            Put(s.(tag := s.tag + 1, top := th.slot, links := s.links[th.slot := s.top]), t, RESTING)
  {
    var th1 := th.(pc := PushLink, tag := s.tag, top := s.top);
    Steps(s, t, th);
    assert Step(Put(s, t, th), t, Go) == Put(s, t, th1);
    Steps(s, t, th1);
    var linked, th2 := s.(links := s.links[th.slot := s.top]), th1.(pc := PushSwap);
    Steps(linked, t, th1);
    assert Step(Put(s, t, th1), t, Go) == Put(linked, t, th2);
    Steps(linked, t, th2);
    var pushed := linked.(tag := s.tag + 1, top := th.slot);
    Steps(pushed, t, th2);
    assert Step(Put(linked, t, th2), t, Go) == Put(Put(pushed, t, th2), t, RESTING);
  }

  /** A push undoes a pop: same top, same links. */
  lemma PushUndoesPop(s: State, t: nat)
    requires ThreadOf(s, t).pc.Idle? && s.top < |s.links|
    ensures Thrice(Thrice(s, t), t) == Put(s.(tag := s.tag + 2), t, RESTING)
  {
    PopAlone(s, t);
    hide Thrice;
    var popped, held := s.(tag := s.tag + 1, top := s.links[s.top]), Thread(Holding, s.tag, s.top, s.top, s.links[s.top]);
    PushAlone(popped, t, held);
    assert s.links[s.top := s.links[s.top]] == s.links;
  }
}
