/** What a subscriber receives when nobody interferes: no more than a lap behind, or less than
    one while the producer stores, every message up to the head, in order, with no loss
    reported. */
module RingAlone {
  import opened Common
  import opened Ring

  /** Subscriber t loads k times, and nobody else does anything. */
  function Loads(s: State, t: nat, k: nat): (r: State)
    requires Inv(s)
    ensures Inv(r)
  {
    if k == 0 then s
    else
      var before := Loads(s, t, k - 1);
      StepInv(before, Load(t));
      Step(before, Load(t))
  }

  /** A subscriber after k loads from an unchanging ring. */
  function Reads(s: State, sub: Sub, k: nat): (r: Sub)
    requires Inv(s) && SubOk(s, sub)
    ensures SubOk(s, r)
  {
    if k == 0 then sub
    else
      var before := Reads(s, sub, k - 1);
      ReceiveOk(s, before);
      Receive(s, before)
  }

  /** A subscriber that loads alone sees an unchanging ring. */
  lemma {:induction false} LoadsAre(s: State, t: nat, k: nat)
    requires Inv(s) && t in s.subs
    ensures SubOk(s, s.subs[t]) && Loads(s, t, k) == s.(subs := s.subs[t := Reads(s, s.subs[t], k)])
  {
    assert SubOk(s, SubOf(s, t));
    if k == 0 {
      assert s.subs[t := s.subs[t]] == s.subs;
    } else {
      LoadsAre(s, t, k - 1);
      var sub := Reads(s, s.subs[t], k - 1);
      OneLoad(s, t, sub);
    }
  }

  lemma OneLoad(s: State, t: nat, sub: Sub)
    requires Inv(s) && Inv(s.(subs := s.subs[t := sub])) && SubOk(s, sub)
    ensures Step(s.(subs := s.subs[t := sub]), Load(t)) == s.(subs := s.subs[t := Receive(s, sub)])
  {
    var r := s.(subs := s.subs[t := sub]);
    assert SubOf(r, t) == sub;
    SameRing(s, r, sub);
    assert s.subs[t := sub][t := Receive(s, sub)] == s.subs[t := Receive(s, sub)];
  }

  lemma SameRing(s: State, r: State, sub: Sub)
    requires Inv(s) && Inv(r) && r == s.(subs := r.subs) && sub.cursor >= 0
    ensures Receive(r, sub) == Receive(s, sub)
  {
    assert SlotFor(r, sub.cursor) == SlotFor(s, sub.cursor);
  }

  lemma {:induction false} ReadsMore(s: State, sub: Sub, j: nat, k: nat)
    requires Inv(s) && SubOk(s, sub)
    ensures Reads(s, Reads(s, sub, j), k) == Reads(s, sub, j + k)
  {
    hide Inv, SubOk, Receive;
    if k > 0 {
      ReadsMore(s, sub, j, k - 1);
    }
  }

  lemma Once(s: State, sub: Sub, j: nat, was: Sub)
    requires Inv(s) && SubOk(s, sub) && Reads(s, sub, j) == was
    ensures was.cursor >= 0 && Reads(s, sub, j + 1) == Receive(s, was)
  {
    hide Inv, Receive;
  }

  /** A subscriber at a message that is not overwritten yet. */
  ghost predicate Due(s: State, sub: Sub) {
    Inv(s) && SubOk(s, sub) && sub.pc.Idle? && 0 <= sub.cursor < s.head < sub.cursor + Reach(s)
  }

  lemma InSlot(s: State, sub: Sub)
    requires Due(s, sub)
    ensures |s.log[sub.cursor]| == s.width && SlotFor(s, sub.cursor) == Slot(sub.cursor, s.log[sub.cursor])
  {
  }

  lemma {:induction false} Copies(s: State, sub: Sub, k: nat)
    requires Due(s, sub) && k <= s.width
    ensures |s.log[sub.cursor]| == s.width
    ensures Reads(s, sub, 2 + k) == sub.(pc := ReadDesc, buf := s.log[sub.cursor][..k])
  {
    InSlot(s, sub);
    var m := s.log[sub.cursor];
    hide Inv, SubOk, Reads, SlotFor;
    if k == 0 {
      Begins(s, sub);
      assert m[..0] == [];
    } else {
      Copies(s, sub, k - 1);
      var was := sub.(pc := ReadDesc, buf := m[..k - 1]);
      Once(s, sub, 1 + k, was);
      assert m[..k] == m[..k - 1] + [m[k - 1]];
    }
  }

  lemma Begins(s: State, sub: Sub)
    requires Due(s, sub) && SlotFor(s, sub.cursor).sequence == sub.cursor
    ensures Reads(s, sub, 2) == sub.(pc := ReadDesc, buf := [])
  {
    hide Inv, SubOk, SlotFor;
    assert Reads(s, sub, 0) == sub;
    Once(s, sub, 0, sub);
    Once(s, sub, 1, sub.(pc := CheckSeq));
  }

  /** A subscriber that has received one more message. */
  function Next(sub: Sub, m: Message): Sub {
    sub.(cursor := sub.cursor + 1, buf := m, samples := sub.samples + 1)
  }

  /** One message: checked, copied word by word, checked again and received. */
  lemma ReceivesOne(s: State, sub: Sub)
    requires Due(s, sub)
    ensures Reads(s, sub, s.width + 4) == Next(sub, s.log[sub.cursor])
  {
    hide *;
    DueFacts(s, sub);
    var m := s.log[sub.cursor];
    Copies(s, sub, s.width);
    assert m[..s.width] == m;
    var was := sub.(pc := ReadDesc, buf := m);
    Once(s, sub, 2 + s.width, was);
    EndsCopy(s, was);
    Once(s, sub, 3 + s.width, was.(pc := Recheck));
    EndsCheck(s, was.(pc := Recheck));
    NextIs(sub, m);
  }

  lemma DueFacts(s: State, sub: Sub)
    requires Due(s, sub)
    ensures Inv(s) && SubOk(s, sub) && sub.pc.Idle? && 0 <= sub.cursor < |s.log| && s.head <= |s.log|
    ensures Shaped(s) && |s.log[sub.cursor]| == s.width && SlotFor(s, sub.cursor).sequence == sub.cursor
  {
    InSlot(s, sub);
  }

  lemma EndsCopy(s: State, sub: Sub)
    requires Shaped(s) && sub.cursor >= 0 && sub.pc.ReadDesc? && |sub.buf| == s.width
    ensures Receive(s, sub) == sub.(pc := Recheck)
  {
  }

  lemma EndsCheck(s: State, sub: Sub)
    requires Shaped(s) && sub.cursor >= 0 && sub.pc.Recheck? && SlotFor(s, sub.cursor).sequence == sub.cursor
    ensures Receive(s, sub) == sub.(pc := Idle, cursor := sub.cursor + 1, samples := sub.samples + 1)
  {
  }

  lemma NextIs(sub: Sub, m: Message)
    requires sub.pc.Idle?
    ensures Next(sub, m) == sub.(pc := Idle, cursor := sub.cursor + 1, buf := m, samples := sub.samples + 1)
  {
  }

  /** Loads for n messages. */
  function Rounds(width: nat, n: nat): nat {
    if n == 0 then 0 else Rounds(width, n - 1) + (width + 4)
  }

  /** Within reach, a subscriber that reads an unchanging ring receives message
      after message, and reports no loss. */
  lemma {:induction false} ReadsAll(s: State, sub: Sub, n: nat)
    requires Due(s, sub) && 0 < n <= s.head - sub.cursor
    ensures Reads(s, sub, Rounds(s.width, n)) ==
            sub.(cursor := sub.cursor + n, buf := s.log[sub.cursor + n - 1], samples := sub.samples + n)
    decreases n
  {
    hide Inv, SubOk, Reads;
    if n == 1 {
      ReceivesOne(s, sub);
      assert Rounds(s.width, 0) == 0;
    } else {
      ReadsAll(s, sub, n - 1);
      var mid := Reads(s, sub, Rounds(s.width, n - 1));
      StaysOk(s, sub, Rounds(s.width, n - 1));
      ReceivesOne(s, mid);
      ReadsMore(s, sub, Rounds(s.width, n - 1), s.width + 4);
    }
  }

  lemma StaysOk(s: State, sub: Sub, k: nat)
    requires Inv(s) && SubOk(s, sub)
    ensures SubOk(s, Reads(s, sub, k))
  {
  }

  /** In every run, a subscriber between two messages and within reach that loads
      alone receives every message from its cursor to the head, the n-th after n rounds of
      loads, and reports no loss. */
  lemma ReceivesAll(capacity: nat, width: nat, acts: seq<Act>, t: nat, n: nat)
    requires capacity > 0 && Fits(acts, width)
    ensures Inv(Init(capacity, width))
    ensures var s := Run(Init(capacity, width), acts);
            var sub := SubOf(s, t);
            t in s.subs && sub.pc.Idle? && s.head < sub.cursor + Reach(s) && 0 < n <= s.head - sub.cursor ==>
              && 0 <= sub.cursor < |s.log|
              && Loads(s, t, Rounds(width, n)).subs ==
                 s.subs[t := sub.(cursor := sub.cursor + n, buf := s.log[sub.cursor + n - 1], samples := sub.samples + n)]
  {
    hide Inv, Run, Fits, Loads, Reads, Due, SubOk, SubOf, Shaped, Rounds;
    InitInv(capacity, width);
    var s := Run(Init(capacity, width), acts);
    var sub := SubOf(s, t);
    if t in s.subs && sub.pc.Idle? && s.head < sub.cursor + Reach(s) && 0 < n <= s.head - sub.cursor {
      IsDue(s, t);
      DueFacts(s, sub);
      ReadsAll(s, sub, n);
      LoadsAre(s, t, Rounds(width, n));
    }
  }

  lemma IsDue(s: State, t: nat)
    requires Inv(s) && t in s.subs && SubOf(s, t).pc.Idle? && SubOf(s, t).cursor < s.head < SubOf(s, t).cursor + Reach(s)
    ensures Due(s, SubOf(s, t)) && SubOf(s, t) == s.subs[t]
  {
    assert SubOk(s, SubOf(s, t));
  }
}
