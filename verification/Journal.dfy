/** The borrow journal: a bitmap of occupied slots over an array of entries
    (crates/shm-core/src/journal.rs). A 64-bit bitmap word is the set of its one bits. */
module Journal {
  import opened Common
  import opened Manifests

  const WORD: nat := 0x1_0000_0000

  datatype Error = JournalFull | OutOfBounds

  datatype Entry = Entry(kind: nat, w0: nat, w1: nat, w2: nat, w3: nat, w4: nat, w5: nat)

  datatype Record =
    | ChunkPin(desc: ChunkDesc)
    | ArtifactPin(artifactId: nat, incarnation: nat, version: nat)
    | WriteLease(artifactId: nat, incarnation: nat, fence: nat)
    | StagedManifest(artifactId: nat, incarnation: nat, manifest: nat, generation: nat)

  // ---- Entries ----

  function Encode(r: Record): Entry {
    match r
    case ChunkPin(d) => Entry(1, d.segmentId, d.generation, d.offset, d.len, d.schemaId, d.pad)
    case ArtifactPin(a, inc, v) => Entry(2, a, v % WORD, v / WORD % WORD, inc, 0, 0)
    case WriteLease(a, inc, fence) => Entry(3, a, fence, inc, 0, 0, 0)
    case StagedManifest(a, inc, m, gen) => Entry(4, a, inc, m % WORD, m / WORD % WORD, gen, 0)
  }

  function ToRecord(e: Entry): Option<Record> {
    if e.kind == 1 then Some(ChunkPin(ChunkDesc(e.w0, e.w1, e.w2, e.w3, e.w4, e.w5)))
    else if e.kind == 2 then Some(ArtifactPin(e.w0, e.w3, e.w1 + WORD * e.w2))
    else if e.kind == 3 then Some(WriteLease(e.w0, e.w2, e.w1))
    else if e.kind == 4 then Some(StagedManifest(e.w0, e.w1, e.w2 + WORD * e.w3, e.w4))
    else None
  }

  /** A record decodes to itself exactly when its 64-bit field fits 64 bits. */
  lemma EntryRoundTrip(r: Record)
    ensures ToRecord(Encode(r)) == Some(r) <==>
            (r.ArtifactPin? ==> r.version <= U64_MAX) && (r.StagedManifest? ==> r.manifest <= U64_MAX)
  {
    match r
    case ArtifactPin(_, _, v) => Halves(v);
    case StagedManifest(_, _, m, _) => Halves(m);
    case _ =>
  }

  lemma Halves(v: nat)
    ensures v % WORD + WORD * (v / WORD % WORD) == v <==> v <= U64_MAX
  {
    var hi := v / WORD;
    assert v == v % WORD + WORD * hi;
    assert hi < WORD <==> v <= U64_MAX;
  }

  // ---- Bitmap words ----

  function Below(n: nat): (r: set<nat>)
    ensures forall b: nat :: b in r <==> b < n
  {
    if n == 0 then {} else Below(n - 1) + {n - 1}
  }

  function WordCount(capacity: nat): nat {
    (capacity + 63) / 64
  }

  /** The bits of word w that stand for slots; the last word may be partial. */
  function ValidMask(capacity: nat, w: nat): (r: set<nat>)
    requires w < WordCount(capacity)
    ensures r <= Below(64)
  {
    if w + 1 < WordCount(capacity) then Below(64)
    else
      var bits := capacity - (WordCount(capacity) - 1) * 64;
      if bits == 64 then Below(64) else Below(bits)
  }

  lemma ValidMaskIs(capacity: nat, w: nat, b: nat)
    requires w < WordCount(capacity)
    ensures b in ValidMask(capacity, w) <==> b < 64 && w * 64 + b < capacity
  {
  }

  /** The position of the lowest one bit. */
  method TrailingZeros(bits: set<nat>) returns (b: nat)
    requires bits != {} && bits <= Below(64)
    ensures b in bits && forall x :: x in bits ==> b <= x
  {
    b := 0;
    while b !in bits
      invariant forall x :: x in bits ==> b <= x
      invariant b < 64
      decreases 64 - b
    {
      var x :| x in bits;
      assert b < x < 64;
      b := b + 1;
    }
  }

  // ---- What the journal holds ----

  ghost function OccupiedOf(words: seq<set<nat>>, capacity: nat): set<nat>
    requires |words| == WordCount(capacity)
  {
    set i: nat | i < capacity && i % 64 in words[i / 64]
  }

  /** The decoded entries of the occupied slots below n, in slot order. */
  ghost function Held(occupied: set<nat>, slots: seq<Entry>, n: nat): seq<(nat, Record)>
    requires n <= |slots|
  {
    if n == 0 then []
    else
      var rest := Held(occupied, slots, n - 1);
      if n - 1 in occupied && ToRecord(slots[n - 1]).Some? then rest + [(n - 1, ToRecord(slots[n - 1]).value)] else rest
  }

  lemma HeldNext(occupied: set<nat>, slots: seq<Entry>, i: nat)
    requires i < |slots| && i in occupied
    ensures var rec := ToRecord(slots[i]);
            Held(occupied, slots, i + 1) == Held(occupied, slots, i) + if rec.Some? then [(i, rec.value)] else []
  {
    Unit(Held(occupied, slots, i));
    hide ToRecord;
  }

  lemma {:induction false} HeldSkips(occupied: set<nat>, slots: seq<Entry>, a: nat, b: nat)
    requires a <= b <= |slots| && forall i :: a <= i < b ==> i !in occupied
    ensures Held(occupied, slots, b) == Held(occupied, slots, a)
    decreases b
  {
    if a < b {
      HeldSkips(occupied, slots, a, b - 1);
    }
  }

  /** The list holds each decodable occupied slot, once, in order, and nothing else. */
  lemma {:induction false} HeldExactly(occupied: set<nat>, slots: seq<Entry>, n: nat)
    requires n <= |slots|
    ensures var list := Held(occupied, slots, n);
            && (forall i: nat, r :: (i, r) in list <==> i < n && i in occupied && ToRecord(slots[i]) == Some(r))
            && (forall a, b :: 0 <= a < b < |list| ==> list[a].0 < list[b].0)
  {
    if n > 0 {
      HeldExactly(occupied, slots, n - 1);
      var rest, list := Held(occupied, slots, n - 1), Held(occupied, slots, n);
      forall k | 0 <= k < |rest|
        ensures rest[k].0 < n - 1
      {
        assert (rest[k].0, rest[k].1) in rest;
      }
    }
  }

  /** What is left of a word from bit k up. */
  ghost predicate Rest(bits: set<nat>, word: set<nat>, k: nat) {
    forall b :: b in bits <==> b in word && b >= k
  }

  lemma RestWithin(bits: set<nat>, word: set<nat>, mask: set<nat>, k: nat)
    requires Rest(bits, word, k) && word <= mask <= Below(64)
    ensures bits <= Below(64)
  {
    forall b | b in bits
      ensures b in Below(64)
    {
      assert b in word;
    }
  }

  /** Take the lowest of the remaining bits: it is an occupied slot, and the first one. */
  method NextBit(bits: set<nat>, ghost words: seq<set<nat>>, ghost capacity: nat, ghost w: nat, ghost k: nat)
    returns (bit: nat, rest: set<nat>)
    requires |words| == WordCount(capacity) && w < |words| && words[w] <= ValidMask(capacity, w)
    requires bits != {} && Rest(bits, words[w], k)
    ensures k <= bit < 64 && w * 64 + bit < capacity && Rest(rest, words[w], bit + 1)
    ensures w * 64 + bit in OccupiedOf(words, capacity)
    ensures forall i :: w * 64 + k <= i < w * 64 + bit ==> i !in OccupiedOf(words, capacity)
  {
    hide OccupiedOf, ValidMask;
    RestWithin(bits, words[w], ValidMask(capacity, w), k);
    bit := TrailingZeros(bits);
    rest := bits - {bit};
    BitSlot(words, capacity, w, bit);
    Gap(words, capacity, w, k, bit);
  }

  /** Append what word w holds, lowest bit first. */
  method ReplayWord(words: seq<set<nat>>, slots: seq<Entry>, w: nat, before: seq<(nat, Record)>)
    returns (out: seq<(nat, Record)>)
    requires |words| == WordCount(|slots|) && w < |words| && words[w] <= ValidMask(|slots|, w) && w * 64 <= |slots|
    requires before == Held(OccupiedOf(words, |slots|), slots, w * 64)
    ensures out == Held(OccupiedOf(words, |slots|), slots, Min((w + 1) * 64, |slots|))
  {
    hide OccupiedOf, ValidMask, ToRecord, Below, Held, WordCount;
    ghost var occupied, k := OccupiedOf(words, |slots|), 0;
    var bits := words[w] * ValidMask(|slots|, w);
    out := before;
    while bits != {}
      invariant k <= 64 && w * 64 + k <= |slots|
      invariant Rest(bits, words[w], k)
      invariant out == Held(occupied, slots, w * 64 + k)
      decreases 64 - k
    {
      var bit;
      bit, bits := NextBit(bits, words, |slots|, w, k);
      var idx := w * 64 + bit;
      HeldSkips(occupied, slots, w * 64 + k, idx);
      HeldNext(occupied, slots, idx);
      var rec := ToRecord(slots[idx]);
      if rec.Some? {
        out := out + [(idx, rec.value)];
      }
      k := bit + 1;
    }
    Gap(words, |slots|, w, k, 64);
    HeldSkips(occupied, slots, w * 64 + k, Min((w + 1) * 64, |slots|));
  }

  class BorrowJournal {
    const capacity: nat
    const words: array<set<nat>>
    const slots: array<Entry>
    var hint: nat

    ghost predicate Valid()
      reads this, words
    {
      && capacity > 0 && words.Length == WordCount(capacity) && slots.Length == capacity
      && forall w :: 0 <= w < words.Length ==> words[w] <= ValidMask(capacity, w)
    }

    ghost function Occupied(): set<nat>
      requires Valid()
      reads this, words
    {
      OccupiedOf(words[..], capacity)
    }

    /** The finite map the journal stands for. */
    ghost function Entries(): map<nat, Entry>
      requires Valid()
      reads this, words, slots
    {
      map i | i in Occupied() :: slots[i]
    }

    constructor (capacity: nat)
      requires capacity > 0
      ensures Valid() && this.capacity == capacity && Entries() == map[]
      ensures fresh(words) && fresh(slots)
    {
      this.capacity := capacity;
      this.words := new set<nat>[WordCount(capacity)](_ => {});
      this.slots := new Entry[capacity](_ => Entry(0, 0, 0, 0, 0, 0, 0));
      this.hint := 0;
    }

    /** Put an entry in a free slot: the result was free, or every slot was taken. */
    method RecordEntry(e: Entry) returns (r: Result<nat, Error>)
      requires Valid()
      modifies this, words, slots
      ensures Valid()
      ensures r.Ok? <==> old(Occupied()) != Below(capacity)
      ensures r.Ok? ==> r.value < capacity && r.value !in old(Occupied()) && Entries() == old(Entries())[r.value := e]
      ensures r.Err? ==> r == Err(JournalFull) && Entries() == old(Entries())
    {
      hide OccupiedOf, ValidMask, Below;
      var n := words.Length;
      var start := hint / 64 % n;
      for step := 0 to n
        invariant forall s :: 0 <= s < step ==> Full(words[..], capacity, Wrapped(start, s, n))
        invariant words[..] == old(words[..]) && slots[..] == old(slots[..])
      {
        var w := Wrapped(start, step, n);
        var valid := ValidMask(capacity, w);
        if words[w] * valid != valid {
          ghost var before := words[..];
          SomeFree(words[w], valid);
          var bit := TrailingZeros(valid - words[w]);
          ValidMaskIs(capacity, w, bit);
          var idx := w * 64 + bit;
          slots[idx] := e;
          words[w] := words[w] + {bit};
          hint := (idx + 1) % WORD;
          Marked(before, words[..], capacity, w, bit);
          return Ok(idx);
        }
      }
      AllFull(words[..], capacity, start);
      return Err(JournalFull);
    }

    /** Free a slot, and say whether it was this call that freed it. */
    method Release(slot: nat) returns (r: Result<bool, Error>)
      requires Valid()
      modifies this, words
      ensures Valid()
      ensures slot >= capacity ==> r == Err(OutOfBounds) && Entries() == old(Entries())
      ensures slot < capacity ==> r == Ok(slot in old(Entries())) && Entries() == old(Entries()) - {slot}
    {
      hide OccupiedOf, ValidMask;
      if slot >= capacity {
        return Err(OutOfBounds);
      }
      var w, bit := slot / 64, slot % 64;
      ghost var before := words[..];
      var prev := words[w];
      words[w] := words[w] - {bit};
      hint := slot % WORD;
      Cleared(before, words[..], capacity, w, bit);
      return Ok(bit in prev);
    }

    /** List what the journal holds, for a replayer to reclaim. */
    method ReplayIndexed() returns (out: seq<(nat, Record)>)
      requires Valid()
      ensures out == Held(Occupied(), slots[..], capacity)
    {
      out := [];
      for w := 0 to words.Length
        invariant out == Held(Occupied(), slots[..], Min(w * 64, capacity))
      {
        out := ReplayWord(words[..], slots[..], w, out);
      }
    }
  }

  /** A one bit within the mask is an occupied slot. */
  lemma BitSlot(words: seq<set<nat>>, capacity: nat, w: nat, b: nat)
    requires |words| == WordCount(capacity) && w < |words| && words[w] <= ValidMask(capacity, w) && b in words[w]
    ensures b < 64 && w * 64 + b < capacity && w * 64 + b in OccupiedOf(words, capacity)
  {
    ValidMaskIs(capacity, w, b);
  }

  /** (start + step) mod n, for a start and a step below n. */
  function Wrapped(start: nat, step: nat, n: nat): (w: nat)
    requires start < n && step < n
    ensures w < n
  {
    if start + step < n then start + step else start + step - n
  }

  ghost predicate Full(words: seq<set<nat>>, capacity: nat, w: nat)
    requires |words| == WordCount(capacity) && w < |words|
  {
    ValidMask(capacity, w) <= words[w]
  }

  lemma AllFull(words: seq<set<nat>>, capacity: nat, start: nat)
    requires |words| == WordCount(capacity) && start < |words|
    requires forall s :: 0 <= s < |words| ==> Full(words, capacity, Wrapped(start, s, |words|))
    ensures OccupiedOf(words, capacity) == Below(capacity)
  {
    forall i: nat | i < capacity
      ensures i % 64 in words[i / 64]
    {
      var w := i / 64;
      var s := if start <= w then w - start else w + |words| - start;
      assert Wrapped(start, s, |words|) == w;
      ValidMaskIs(capacity, w, i % 64);
    }
  }

  lemma SomeFree(word: set<nat>, valid: set<nat>)
    requires word * valid != valid
    ensures valid - word != {}
  {
    if valid - word == {} {
      forall x | x in valid
        ensures x in word
      {
        assert x !in valid - word;
      }
    }
  }

  /** A stretch of zero bits is a stretch of free slots. */
  lemma Gap(words: seq<set<nat>>, capacity: nat, w: nat, from: nat, to: nat)
    requires |words| == WordCount(capacity) && w < |words| && to <= 64
    requires forall b :: from <= b < to ==> b !in words[w]
    ensures forall i :: w * 64 + from <= i < w * 64 + to ==> i !in OccupiedOf(words, capacity)
  {
    forall i | w * 64 + from <= i < w * 64 + to
      ensures i !in OccupiedOf(words, capacity)
    {
      assert i / 64 == w && i % 64 == i - w * 64;
    }
  }

  /** Setting a bit adds its slot. */
  lemma Marked(before: seq<set<nat>>, after: seq<set<nat>>, capacity: nat, w: nat, bit: nat)
    requires |before| == WordCount(capacity) && w < |before| && bit < 64 && w * 64 + bit < capacity
    requires after == before[w := before[w] + {bit}]
    ensures OccupiedOf(after, capacity) == OccupiedOf(before, capacity) + {w * 64 + bit}
    ensures w * 64 + bit in OccupiedOf(before, capacity) <==> bit in before[w]
  {
  }

  /** Clearing a bit removes its slot. */
  lemma Cleared(before: seq<set<nat>>, after: seq<set<nat>>, capacity: nat, w: nat, bit: nat)
    requires |before| == WordCount(capacity) && w < |before| && bit < 64 && w * 64 + bit < capacity
    requires after == before[w := before[w] - {bit}]
    ensures OccupiedOf(after, capacity) == OccupiedOf(before, capacity) - {w * 64 + bit}
    ensures w * 64 + bit in OccupiedOf(before, capacity) <==> bit in before[w]
  {
  }
}
