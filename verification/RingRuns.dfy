/** The edge of the ring's fidelity. Exactly a lap behind the head a sample can be torn:
    the producer stores a descriptor's words before its sequence, and a subscriber that
    reads in between accepts a mixture of two messages. */
module RingRuns {
  import opened Common
  import opened Ring

  ghost predicate Reached(capacity: nat, width: nat, s: State)
    requires capacity > 0
  {
    Inv(Init(capacity, width)) && exists acts: seq<Act> :: Fits(acts, width) && Run(Init(capacity, width), acts) == s
  }

  lemma Then(capacity: nat, width: nat, s: State, a: Act, s': State)
    requires capacity > 0 && Reached(capacity, width, s) && (a.Publish? ==> |a.m| == width)
    ensures Inv(s) && s.width == width && s.capacity == capacity
    ensures Step(s, a) == s' ==> Reached(capacity, width, s')
  {
    var acts :| Fits(acts, width) && Run(Init(capacity, width), acts) == s;
    RunSnoc(Init(capacity, width), acts, a);
    if Step(s, a) == s' {
      assert Run(Init(capacity, width), acts + [a]) == s';
    }
  }

  lemma Facts(capacity: nat, width: nat, s: State)
    requires capacity > 0 && Reached(capacity, width, s)
    ensures Inv(s) && s.width == width && s.capacity == capacity
  {
  }

  // ---- Publishing a whole message ----

  /** Message m is on its way: k of its words are stored. */
  function Midway(s: State, m: Message, k: nat): State
    requires Shaped(s) && |m| == s.width && k <= s.width
  {
    SetSlot(s, s.head, Slot(SlotFor(s, s.head).sequence, m[..k] + SlotFor(s, s.head).desc[k..]))
      .(log := s.log + [m], producer := WriteDesc, written := k)
  }

  /** Message m is published. */
  function Published(s: State, m: Message): State
    requires Shaped(s) && |m| == s.width
  {
    SetSlot(s, s.head, Slot(s.head, m)).(log := s.log + [m], head := s.head + 1, written := s.width)
  }

  lemma Begins(capacity: nat, width: nat, s: State, m: Message)
    requires capacity > 0 && Reached(capacity, width, s) && s.producer.Ready? && |m| == width
    ensures Inv(s) && s.width == width && s.capacity == capacity && Reached(capacity, width, Midway(s, m, 0))
  {
    Facts(capacity, width, s);
    var slot := SlotFor(s, s.head);
    assert m[..0] + slot.desc[0..] == slot.desc;
    assert s.slots[Index(s, s.head) := slot] == s.slots;
    Then(capacity, width, s, Publish(m), Midway(s, m, 0));
  }

  lemma {:induction false} Words(capacity: nat, width: nat, s: State, m: Message, k: nat)
    requires capacity > 0 && Inv(s) && s.width == width && s.capacity == capacity && |m| == width && k <= width
    requires s.producer.Ready? && Reached(capacity, width, Midway(s, m, 0))
    ensures Reached(capacity, width, Midway(s, m, k))
  {
    if k > 0 {
      Words(capacity, width, s, m, k - 1);
      StoresWord(s, m, k - 1);
      Then(capacity, width, Midway(s, m, k - 1), Store, Midway(s, m, k));
    }
  }

  lemma StoresWord(s: State, m: Message, k: nat)
    requires Inv(s) && s.producer.Ready? && |m| == s.width && k < s.width && Inv(Midway(s, m, k))
    ensures Step(Midway(s, m, k), Store) == Midway(s, m, k + 1)
  {
    var was, here, next := SlotFor(s, s.head), SlotFor(Midway(s, m, k), s.head), SlotFor(Midway(s, m, k + 1), s.head);
    assert here.desc[k := m[k]] == next.desc;
    assert Midway(s, m, k).slots[Index(s, s.head) := next] == Midway(s, m, k + 1).slots;
  }

  lemma Publishes(capacity: nat, width: nat, s: State, m: Message)
    requires capacity > 0 && Reached(capacity, width, s) && s.producer.Ready? && |m| == width
    ensures Inv(s) && s.width == width && Reached(capacity, width, Published(s, m))
  {
    Begins(capacity, width, s, m);
    Words(capacity, width, s, m, width);
    hide Reached;
    var full := Midway(s, m, width);
    var slot := SlotFor(s, s.head);
    assert m[..width] + slot.desc[width..] == m;
    var sealed := SetSlot(full, s.head, Slot(s.head, m)).(producer := WriteHead);
    Then(capacity, width, full, Store, full.(producer := WriteSeq));
    Then(capacity, width, full.(producer := WriteSeq), Store, sealed);
    assert full.slots[Index(s, s.head) := Slot(s.head, m)] == s.slots[Index(s, s.head) := Slot(s.head, m)];
    Then(capacity, width, sealed, Store, Published(s, m));
  }

  // ---- A full ring ----

  function Old(width: nat): Message { seq(width, _ => 1) }

  function New(width: nat): Message { seq(width, _ => 2) }

  /** k messages are published, the first of them in the first slot. */
  predicate Filled(s: State, k: nat) {
    && Shaped(s) && s.head == |s.log| == k && s.producer.Ready? && s.subs == map[]
    && (k > 0 ==> s.slots[0] == Slot(0, Old(s.width)) && s.log[0] == Old(s.width))
  }

  lemma {:induction false} Fills(capacity: nat, width: nat, k: nat) returns (s: State)
    requires k <= capacity && capacity > 0
    ensures Reached(capacity, width, s) && s.width == width && s.capacity == capacity && Filled(s, k)
  {
    if k == 0 {
      InitInv(capacity, width);
      s := Init(capacity, width);
      assert Fits([], width) && Run(s, []) == s;
    } else {
      var r := Fills(capacity, width, k - 1);
      var m := if k == 1 then Old(width) else New(width);
      hide Reached;
      Publishes(capacity, width, r, m);
      s := Published(r, m);
      assert Index(r, k - 1) == k - 1;
    }
  }

  // ---- The torn read ----

  /** Subscriber 0 at the first message, with the given words copied. */
  function At(s: State, pc: Pc, buf: Message): State {
    s.(subs := map[0 := Sub(pc, 0, 0, buf, 0, 0)])
  }

  /** Subscriber 0 has passed its check a full lap behind. */
  lemma Checks(capacity: nat, width: nat, s: State)
    requires capacity > 0 && Reached(capacity, width, s) && Filled(s, capacity)
    ensures Reached(capacity, width, At(s, ReadDesc, []))
  {
    Facts(capacity, width, s);
    hide Reached;
    assert Index(s, 0) == 0;
    Then(capacity, width, s, Subscribe(0, 0), At(s, Idle, []));
    assert At(s, Idle, []).subs[0 := Sub(CheckSeq, 0, 0, [], 0, 0)] == At(s, CheckSeq, []).subs;
    Then(capacity, width, At(s, Idle, []), Load(0), At(s, CheckSeq, []));
    assert At(s, CheckSeq, []).subs[0 := Sub(ReadDesc, 0, 0, [], 0, 0)] == At(s, ReadDesc, []).subs;
    Then(capacity, width, At(s, CheckSeq, []), Load(0), At(s, ReadDesc, []));
  }

  lemma {:induction false} Copies(capacity: nat, width: nat, s: State, k: nat)
    requires capacity > 0 && Shaped(s) && s.width == width && k <= width
    requires Reached(capacity, width, At(s, ReadDesc, []))
    ensures Reached(capacity, width, At(s, ReadDesc, s.slots[0].desc[..k]))
  {
    var d := s.slots[0].desc;
    if k == 0 {
      assert d[..0] == [];
    } else {
      Copies(capacity, width, s, k - 1);
      hide Reached;
      var before, after := At(s, ReadDesc, d[..k - 1]), At(s, ReadDesc, d[..k]);
      Facts(capacity, width, before);
      assert Index(before, 0) == 0;
      assert d[..k] == d[..k - 1] + [d[k - 1]];
      assert before.subs[0 := after.subs[0]] == after.subs;
      Then(capacity, width, before, Load(0), after);
    }
  }

  /** The first word of the next message is stored over the first message. */
  predicate Torn(s: State) {
    && Shaped(s) && s.width > 0 && s.head == s.capacity && |s.log| == s.capacity + 1
    && s.log[0] == Old(s.width) && s.log[s.capacity] == New(s.width)
    && s.slots[0] == Slot(0, New(s.width)[..1] + Old(s.width)[1..])
  }

  lemma FullLap(capacity: nat)
    requires capacity > 0
    ensures Wrap(capacity, capacity) == 0
  {
    assert Wrap(0, capacity) == 0;
  }

  lemma Tears(capacity: nat, width: nat) returns (s: State)
    requires capacity > 0 && width > 0
    ensures s.width == width && s.capacity == capacity && Torn(s)
    ensures Reached(capacity, width, At(s, ReadDesc, []))
  {
    hide Reached;
    var full := Fills(capacity, width, capacity);
    Checks(capacity, width, full);
    var r := At(full, ReadDesc, []);
    Begins(capacity, width, r, New(width));
    Words(capacity, width, r, New(width), 1);
    s := Midway(r, New(width), 1);
    FullLap(capacity);
    assert At(s, ReadDesc, []) == s;
    hide *;
    TornSlot(full, s);
  }

  lemma TornSlot(full: State, s: State)
    requires Filled(full, full.capacity) && full.capacity > 0 && full.width > 0
    requires s == Midway(At(full, ReadDesc, []), New(full.width), 1)
    ensures Torn(s)
  {
    FullLap(full.capacity);
  }

  /** Subscriber 0 reads it all, and checks again. */
  lemma ReadsTorn(capacity: nat, width: nat, s: State)
    requires capacity > 0 && Torn(s) && s.width == width && Reached(capacity, width, At(s, ReadDesc, []))
    ensures Reached(capacity, width, At(s, Recheck, s.slots[0].desc))
  {
    hide Reached;
    var d := s.slots[0].desc;
    Copies(capacity, width, s, width);
    assert d[..width] == d;
    var last, end := At(s, ReadDesc, d), At(s, Recheck, d);
    assert last.subs[0 := end.subs[0]] == end.subs;
    Facts(capacity, width, last);
    Then(capacity, width, last, Load(0), end);
  }

  /** On a ring of any capacity, with descriptors of any positive width: exactly a lap
      behind, a subscriber accepts the next message's first word with the old one's rest. */
  lemma TornSample(capacity: nat, width: nat) returns (acts: seq<Act>)
    requires capacity > 0 && width > 0
    ensures Inv(Init(capacity, width)) && Fits(acts, width)
    ensures var s := Run(Init(capacity, width), acts);
            var sub := SubOf(s, 0);
            && sub.cursor == 0 && Accepts(s, sub) && s.head == capacity && |s.log| == capacity + 1
            && sub.buf == s.log[capacity][..1] + s.log[0][1..] && sub.buf != s.log[0]
            && (width > 1 ==> sub.buf != s.log[capacity])
  {
    var s := Tears(capacity, width);
    ReadsTorn(capacity, width, s);
    var end := At(s, Recheck, s.slots[0].desc);
    acts :| Fits(acts, width) && Run(Init(capacity, width), acts) == end;
    hide Run, Init, Inv;
    Mixture(s);
  }

  lemma Mixture(s: State)
    requires Torn(s)
    ensures s.slots[0].desc[0] != s.log[0][0]
    ensures s.width > 1 ==> s.slots[0].desc[1] != s.log[s.capacity][1]
    ensures Index(s, 0) == 0
  {
  }

  // ---- The bound ----

  /** A sample accepted at most d behind the head is the message at the cursor. */
  predicate ExactAt(s: State, sub: Sub, d: nat)
    requires Shaped(s) && s.head <= |s.log|
  {
    0 <= sub.cursor < s.head <= sub.cursor + d && Accepts(s, sub) ==> sub.buf == s.log[sub.cursor]
  }

  ghost predicate ExactWithin(capacity: nat, width: nat, d: nat)
    requires capacity > 0 && Inv(Init(capacity, width))
  {
    forall acts: seq<Act>, t: nat :: Fits(acts, width) ==>
      ExactAt(Run(Init(capacity, width), acts), SubOf(Run(Init(capacity, width), acts), t), d)
  }

  /** Every accepted sample no more than d behind the head is exact, in every run, exactly
      when d is less than the capacity (or there is nothing to tear). */
  lemma LapIsTheBound(capacity: nat, width: nat, d: nat)
    requires capacity > 0
    ensures Inv(Init(capacity, width))
    ensures ExactWithin(capacity, width, d) <==> d < capacity || width == 0
  {
    InitInv(capacity, width);
    hide Inv, Run, Init, Fits;
    if d < capacity || width == 0 {
      forall acts: seq<Act>, t: nat | Fits(acts, width)
        ensures ExactAt(Run(Init(capacity, width), acts), SubOf(Run(Init(capacity, width), acts), t), d)
      {
        SampleIsExact(capacity, width, acts, t);
        NothingToTear(capacity, width, acts, t);
      }
    } else {
      var acts := TornSample(capacity, width);
      assert !ExactAt(Run(Init(capacity, width), acts), SubOf(Run(Init(capacity, width), acts), 0), d);
    }
  }

  lemma NothingToTear(capacity: nat, width: nat, acts: seq<Act>, t: nat)
    requires capacity > 0 && Inv(Init(capacity, width)) && Fits(acts, width)
    ensures var s := Run(Init(capacity, width), acts);
            var sub := SubOf(s, t);
            && s.capacity == capacity
            && (width == 0 && 0 <= sub.cursor < s.head && Accepts(s, sub) ==> sub.buf == s.log[sub.cursor])
  {
    var s := Run(Init(capacity, width), acts);
    assert SubOk(s, SubOf(s, t));
  }
}
