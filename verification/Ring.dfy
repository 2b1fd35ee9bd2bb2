/** The broadcast ring: one producer, any number of subscribers, interleaved store
    by store (crates/shm-ring/src/ring.rs, publish and read_at;
    crates/shm-ring/src/subscribe.rs, try_recv). The producer writes a slot's
    descriptor word by word, then its sequence, then the head; it never waits. */
module Ring {
  import opened Common

  type Message = seq<nat>

  datatype Slot = Slot(sequence: int, desc: Message)

  datatype ProducerPc = Ready | WriteDesc | WriteSeq | WriteHead

  datatype Pc = Idle | CheckSeq | ReadDesc | Recheck | Lag

  /** A subscriber: where it started, its cursor, the descriptor words copied so far,
      and its running totals of samples received and messages reported lost. */
  datatype Sub = Sub(pc: Pc, start: nat, cursor: int, buf: Message, samples: nat, lost: int)

  /** `log` lists every message whose publication began; `width` is the number of
      descriptor words. */
  datatype State = State(
    capacity: nat, width: nat, head: nat, slots: seq<Slot>, log: seq<Message>,
    producer: ProducerPc, written: nat, subs: map<nat, Sub>)

  predicate Shaped(s: State) {
    && s.capacity > 0 && |s.slots| == s.capacity
    && (forall i :: 0 <= i < |s.slots| ==> |s.slots[i].desc| == s.width)
    && (forall i :: 0 <= i < |s.log| ==> |s.log[i]| == s.width)
  }

  /** The slot of sequence n: n modulo the capacity. */
  function Index(s: State, n: nat): nat
    requires s.capacity > 0
  {
    Wrap(n, s.capacity)
  }

  function SlotFor(s: State, n: nat): Slot
    requires Shaped(s)
  {
    s.slots[Index(s, n)]
  }

  function SetSlot(s: State, n: nat, slot: Slot): State
    requires Shaped(s)
  {
    s.(slots := s.slots[Index(s, n) := slot])
  }

  /** Start publishing a message. */
  function Begin(s: State, m: Message): State
    requires Shaped(s) && |m| == s.width
  {
    if s.producer.Ready? then s.(log := s.log + [m], producer := WriteDesc, written := 0) else s
  }

  /** The producer's next store. */
  function Produce(s: State): State
    requires Shaped(s) && s.head < |s.log|
  {
    var slot, m := SlotFor(s, s.head), s.log[s.head];
    match s.producer
    case Ready => s
    case WriteDesc =>
      if s.written < s.width then
        SetSlot(s, s.head, slot.(desc := slot.desc[s.written := m[s.written]])).(written := s.written + 1)
      else s.(producer := WriteSeq)
    case WriteSeq => SetSlot(s, s.head, slot.(sequence := s.head)).(producer := WriteHead)
    case WriteHead => s.(head := s.head + 1, producer := Ready)
  }

  function SubOf(s: State, t: nat): Sub {
    if t in s.subs then s.subs[t] else Sub(Idle, 0, 0, [], 0, 0)
  }

  /** The subscriber resynchronises to the oldest message a full lap behind the head;
      the loss it reports saturates at zero. */
  function Lapped(s: State, sub: Sub): Sub {
    var oldest := s.head - s.capacity;
    sub.(pc := Idle, cursor := oldest, lost := sub.lost + Max(0, oldest - sub.cursor))
  }

  /** A subscriber's next load. */
  function Receive(s: State, sub: Sub): Sub
    requires Shaped(s) && sub.cursor >= 0
  {
    match sub.pc
    case Idle =>
      if sub.cursor >= s.head then sub
      else if s.head - sub.cursor > s.capacity then Lapped(s, sub)
      else sub.(pc := CheckSeq)
    case CheckSeq =>
      if SlotFor(s, sub.cursor).sequence != sub.cursor then sub.(pc := Lag) else sub.(pc := ReadDesc, buf := [])
    case ReadDesc =>
      if |sub.buf| < s.width then sub.(buf := sub.buf + [SlotFor(s, sub.cursor).desc[|sub.buf|]])
      else sub.(pc := Recheck)
    case Recheck =>
      if SlotFor(s, sub.cursor).sequence != sub.cursor then sub.(pc := Lag)
      else sub.(pc := Idle, cursor := sub.cursor + 1, samples := sub.samples + 1)
    case Lag => Lapped(s, sub)
  }

  /** Start a publication, let the producer store, subscribe from any sequence, or
      let a subscriber load. */
  datatype Act = Publish(m: Message) | Store | Subscribe(t: nat, start: nat) | Load(t: nat)

  function Step(s: State, a: Act): State
    requires Inv(s) && (a.Publish? ==> |a.m| == s.width)
  {
    match a
    case Publish(m) => Begin(s, m)
    case Store => if s.producer.Ready? then s else Produce(s)
    case Subscribe(t, start) => if t in s.subs then s else s.(subs := s.subs[t := Sub(Idle, start, start, [], 0, 0)])
    case Load(t) => s.(subs := s.subs[t := Receive(s, SubOf(s, t))])
  }

  // ---- Invariants ----

  /** The producer's own slot holds what it has written so far. */
  predicate ProducerOk(s: State)
    requires Shaped(s)
  {
    && |s.log| == s.head + (if s.producer.Ready? then 0 else 1)
    && s.written <= s.width
    && (s.producer.WriteDesc? ==> SlotFor(s, s.head).desc[..s.written] == s.log[s.head][..s.written])
    && (s.producer.WriteSeq? || s.producer.WriteHead? ==> SlotFor(s, s.head).desc == s.log[s.head])
    && (s.producer.WriteHead? ==> SlotFor(s, s.head).sequence == s.head)
  }

  /** How far back messages are intact: a lap, or just under one once the producer has
      begun to store the next message over the oldest. */
  function Reach(s: State): nat {
    if s.producer.Ready? || (s.producer.WriteDesc? && s.written == 0) then s.capacity + 1 else s.capacity
  }

  /** A message within reach is intact in its slot, and no slot's sequence
      falls behind a message published to it. */
  ghost predicate SlotsOk(s: State)
    requires Shaped(s) && s.head <= |s.log|
  {
    && (forall n: nat :: n < s.head < n + Reach(s) ==> SlotFor(s, n) == Slot(n, s.log[n]))
    && (forall n: nat :: n < s.head ==> SlotFor(s, n).sequence >= n)
  }

  /** What a subscriber may rely on between its loads. */
  predicate SubOk(s: State, sub: Sub)
    requires s.head <= |s.log|
  {
    && sub.cursor >= sub.start
    && sub.samples + sub.lost == sub.cursor - sub.start
    && (!sub.pc.Idle? ==> sub.cursor < s.head)
    && (sub.pc.Lag? ==> s.head >= sub.cursor + s.capacity)
    && (sub.pc.ReadDesc? || sub.pc.Recheck? ==>
          |sub.buf| <= s.width
          && (s.head < sub.cursor + s.capacity && |s.log[sub.cursor]| == s.width ==>
                sub.buf == s.log[sub.cursor][..|sub.buf|]))
    && (sub.pc.Recheck? ==> |sub.buf| == s.width)
  }

  ghost predicate Inv(s: State) {
    Shaped(s) && ProducerOk(s) && SlotsOk(s) && forall t: nat :: SubOk(s, SubOf(s, t))
  }

  // ---- Slots of different messages ----

  lemma {:induction false} Apart(a: nat, b: nat, capacity: nat)
    requires 0 < capacity && a < b < a + capacity
    ensures Wrap(a, capacity) != Wrap(b, capacity)
  {
    if a >= capacity {
      Apart(a - capacity, b - capacity, capacity);
    }
  }

  /** Storing into the producer's slot leaves every live message alone. */
  lemma StoreKeeps(s: State, slot: Slot, n: nat)
    requires Inv(s) && |slot.desc| == s.width && n < s.head
    ensures Shaped(SetSlot(s, s.head, slot))
    ensures n < s.head < n + s.capacity ==> SlotFor(SetSlot(s, s.head, slot), n) == Slot(n, s.log[n])
    ensures slot.sequence >= SlotFor(s, s.head).sequence || slot.sequence >= s.head ==>
              SlotFor(SetSlot(s, s.head, slot), n).sequence >= n
  {
    if s.head < n + s.capacity {
      Apart(n, s.head, s.capacity);
      assert SlotFor(s, n) == Slot(n, s.log[n]);
    }
    assert SlotFor(s, n).sequence >= n;
  }

  lemma StoreInv(s: State, slot: Slot, producer: ProducerPc, written: nat)
    requires Inv(s) && |slot.desc| == s.width && !s.producer.Ready?
    requires slot.sequence == SlotFor(s, s.head).sequence || slot.sequence == s.head
    requires !producer.Ready? && (producer.WriteDesc? ==> written > 0)
    requires ProducerOk(SetSlot(s, s.head, slot).(producer := producer, written := written))
    ensures Inv(SetSlot(s, s.head, slot).(producer := producer, written := written))
  {
    var s' := SetSlot(s, s.head, slot).(producer := producer, written := written);
    assert forall t: nat {:trigger SubOf(s', t)} :: SubOf(s', t) == SubOf(s, t);
    forall n: nat | n < s.head
      ensures n < s.head < n + s.capacity ==> SlotFor(s', n) == Slot(n, s.log[n])
      ensures SlotFor(s', n).sequence >= n
    {
      StoreKeeps(s, slot, n);
    }
  }

  lemma WriteDescInv(s: State)
    requires Inv(s) && s.producer.WriteDesc?
    ensures Inv(Produce(s))
  {
    var slot, m := SlotFor(s, s.head), s.log[s.head];
    if s.written < s.width {
      var slot' := slot.(desc := slot.desc[s.written := m[s.written]]);
      assert slot'.desc[..s.written + 1] == slot.desc[..s.written] + [m[s.written]];
      assert m[..s.written + 1] == m[..s.written] + [m[s.written]];
      StoreInv(s, slot', WriteDesc, s.written + 1);
    } else {
      assert slot.desc[..s.width] == slot.desc && m[..s.width] == m;
      assert s.slots[Index(s, s.head) := slot] == s.slots;
      StoreInv(s, slot, WriteSeq, s.written);
    }
  }

  lemma WriteSeqInv(s: State)
    requires Inv(s) && s.producer.WriteSeq?
    ensures Inv(Produce(s))
  {
    StoreInv(s, SlotFor(s, s.head).(sequence := s.head), WriteHead, s.written);
  }

  lemma WriteHeadInv(s: State)
    requires Inv(s) && s.producer.WriteHead?
    ensures Inv(Produce(s))
  {
    var s' := Produce(s);
    assert forall t: nat {:trigger SubOf(s', t)} :: SubOf(s', t) == SubOf(s, t);
    forall n: nat | n < s'.head
      ensures n < s'.head < n + Reach(s') ==> SlotFor(s', n) == Slot(n, s'.log[n])
      ensures SlotFor(s', n).sequence >= n
    {
      assert SlotFor(s', n) == SlotFor(s, n);
    }
  }

  lemma BeginInv(s: State, m: Message)
    requires Inv(s) && |m| == s.width
    ensures Inv(Begin(s, m))
  {
    var s' := Begin(s, m);
    assert forall t: nat :: SubOf(s', t) == SubOf(s, t);
    forall n: nat | n < s.head < n + Reach(s')
      ensures SlotFor(s', n) == Slot(n, s'.log[n])
    {
      assert SlotFor(s, n) == Slot(n, s.log[n]);
    }
    forall n: nat | n < s.head
      ensures SlotFor(s', n).sequence >= n
    {
      assert SlotFor(s, n).sequence >= n;
    }
  }

  /** A subscriber's load keeps its books, and never moves its cursor back. */
  lemma ReceiveOk(s: State, sub: Sub)
    requires Inv(s) && SubOk(s, sub)
    ensures SubOk(s, Receive(s, sub))
    ensures Receive(s, sub).cursor >= sub.cursor
  {
    var sub' := Receive(s, sub);
    if !sub.pc.Idle? && s.head < sub.cursor + s.capacity {
      assert SlotFor(s, sub.cursor) == Slot(sub.cursor, s.log[sub.cursor]);
      if sub.pc.ReadDesc? && |sub.buf| < s.width {
        assert s.log[sub.cursor][..|sub.buf| + 1] == s.log[sub.cursor][..|sub.buf|] + [s.log[sub.cursor][|sub.buf|]];
      }
    }
  }

  lemma StepInv(s: State, a: Act)
    requires Inv(s) && (a.Publish? ==> |a.m| == s.width)
    ensures Inv(Step(s, a))
  {
    match a
    case Publish(m) => BeginInv(s, m);
    case Store =>
      if s.producer.WriteDesc? {
        WriteDescInv(s);
      } else if s.producer.WriteSeq? {
        WriteSeqInv(s);
      } else if s.producer.WriteHead? {
        WriteHeadInv(s);
      }
    case Subscribe(t, start) => OtherSubs(s, t, Sub(Idle, start, start, [], 0, 0));
    case Load(t) =>
      ReceiveOk(s, SubOf(s, t));
      OtherSubs(s, t, Receive(s, SubOf(s, t)));
  }

  lemma OtherSubs(s: State, t: nat, sub: Sub)
    requires Inv(s) && SubOk(s, sub)
    ensures Inv(s.(subs := s.subs[t := sub]))
  {
    var s' := s.(subs := s.subs[t := sub]);
    assert forall u: nat {:trigger SubOf(s', u)} :: SubOf(s', u) == if u == t then sub else SubOf(s, u);
    assert forall n: nat :: n < s.head ==> SlotFor(s', n) == SlotFor(s, n);
  }

  // ---- Whole runs ----

  /** A fresh ring; no slot's sequence is one a subscriber could ask for. */
  function Init(capacity: nat, width: nat): State
    requires capacity > 0
  {
    State(capacity, width, 0, seq(capacity, _ => Slot(U64_MAX, seq(width, _ => 0))), [], Ready, 0, map[])
  }

  predicate Fits(acts: seq<Act>, width: nat) {
    forall i :: 0 <= i < |acts| && acts[i].Publish? ==> |acts[i].m| == width
  }

  lemma StepShape(s: State, a: Act)
    requires Inv(s) && (a.Publish? ==> |a.m| == s.width)
    ensures Step(s, a).width == s.width && Step(s, a).capacity == s.capacity && s.head <= Step(s, a).head
  {
  }

  ghost function Run(s: State, acts: seq<Act>): (r: State)
    requires Inv(s) && Fits(acts, s.width)
    ensures Inv(r) && r.width == s.width && r.capacity == s.capacity
  {
    if |acts| == 0 then s
    else
      var before, last := Run(s, acts[..|acts| - 1]), acts[|acts| - 1];
      StepInv(before, last);
      StepShape(before, last);
      Step(before, last)
  }

  lemma InitInv(capacity: nat, width: nat)
    requires capacity > 0
    ensures Inv(Init(capacity, width))
  {
  }

  /** Conservation: in every run, what a subscriber received and what it was told it
      lost add up to how far its cursor moved; the cursor never moves back, and the
      resynchronising subtraction never underflows. */
  lemma Conservation(capacity: nat, width: nat, acts: seq<Act>, t: nat)
    requires capacity > 0 && Fits(acts, width)
    ensures Inv(Init(capacity, width))
    ensures var s := Run(Init(capacity, width), acts);
            var sub := SubOf(s, t);
            && sub.samples + sub.lost == sub.cursor - sub.start
            && sub.cursor >= sub.start
            && (sub.pc.Lag? ==> s.head - s.capacity >= sub.cursor >= 0)
            && Receive(s, sub).cursor >= sub.cursor
  {
    InitInv(capacity, width);
    var s := Run(Init(capacity, width), acts);
    assert SubOk(s, SubOf(s, t));
    ReceiveOk(s, SubOf(s, t));
  }

  /** Where a lagging subscriber resumes: in every run, a load reports loss exactly when it
      looks at the head and finds it more than a lap ahead; it then resumes exactly a lap
      behind, so every message it skips is more than a lap old, and it reports just those.
      A subscriber that is on its way to look at the head saw its slot's sequence move on. */
  lemma LossIsLap(capacity: nat, width: nat, acts: seq<Act>, t: nat)
    requires capacity > 0 && Fits(acts, width)
    ensures Inv(Init(capacity, width))
    ensures var s := Run(Init(capacity, width), acts);
            var sub := SubOf(s, t);
            && sub.cursor >= 0
            && var sub' := Receive(s, sub);
               && (sub'.lost > sub.lost <==> (sub.pc.Idle? || sub.pc.Lag?) && s.head > sub.cursor + capacity)
               && (sub'.lost > sub.lost ==>
                     && sub'.pc.Idle? && sub'.cursor + capacity == s.head
                     && sub'.lost - sub.lost == sub'.cursor - sub.cursor && sub'.samples == sub.samples)
               && (sub.pc.Idle? ==> (sub'.pc.CheckSeq? <==> sub.cursor < s.head <= sub.cursor + capacity))
               && (sub'.pc.Lag? ==> (sub.pc.CheckSeq? || sub.pc.Recheck?) && SlotFor(s, sub.cursor).sequence > sub.cursor)
               && (sub'.cursor > sub.cursor && sub'.lost == sub.lost ==>
                     sub'.cursor == sub.cursor + 1 && sub'.samples == sub.samples + 1)
  {
    InitInv(capacity, width);
    var s := Run(Init(capacity, width), acts);
    var sub := SubOf(s, t);
    assert SubOk(s, sub);
    if !sub.pc.Idle? {
      assert SlotFor(s, sub.cursor).sequence >= sub.cursor;
    }
  }

  /** More than a lap behind, a message's slot carries a later sequence. */
  lemma Overtaken(s: State, n: nat)
    requires Inv(s) && s.head > n + s.capacity
    ensures SlotFor(s, n).sequence > n
  {
    assert SlotFor(s, n + s.capacity).sequence >= n + s.capacity;
  }

  /** A subscriber whose next load receives a sample. */
  predicate Accepts(s: State, sub: Sub)
    requires Shaped(s) && sub.cursor >= 0
  {
    Receive(s, sub).samples > sub.samples
  }

  /** Fidelity: a sample accepted while the head is less than a lap ahead is the
      message published at the cursor, and acceptance is never more than exactly a
      lap behind. */
  lemma SampleIsExact(capacity: nat, width: nat, acts: seq<Act>, t: nat)
    requires capacity > 0 && Fits(acts, width)
    ensures Inv(Init(capacity, width))
    ensures var s := Run(Init(capacity, width), acts);
            var sub := SubOf(s, t);
            && sub.cursor >= 0
            && (Accepts(s, sub) ==>
                  sub.cursor < s.head <= sub.cursor + s.capacity && SlotFor(s, sub.cursor).sequence == sub.cursor)
            && (Accepts(s, sub) && s.head < sub.cursor + s.capacity ==> sub.buf == s.log[sub.cursor])
  {
    InitInv(capacity, width);
    var s := Run(Init(capacity, width), acts);
    var sub := SubOf(s, t);
    assert SubOk(s, sub);
    if Accepts(s, sub) {
      if s.head > sub.cursor + s.capacity {
        Overtaken(s, sub.cursor);
      }
      if s.head < sub.cursor + s.capacity {
        assert s.log[sub.cursor][..s.width] == s.log[sub.cursor];
      }
    }
  }

  lemma RunSnoc(s: State, acts: seq<Act>, a: Act)
    requires Inv(s) && Fits(acts, s.width) && (a.Publish? ==> |a.m| == s.width)
    ensures Fits(acts + [a], s.width)
    ensures Run(s, acts + [a]) == Step(Run(s, acts), a)
  {
    assert (acts + [a])[..|acts|] == acts;
  }
}
