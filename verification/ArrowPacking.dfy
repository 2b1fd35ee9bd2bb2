/** Packing a batch's buffers into chunks (crates/shm-arrow/src/write.rs, pack and
    serialized_len; crates/shm-arrow/src/layout.rs). */
module ArrowPacking {
  import opened Common
  import opened ArrowTree

  const HEADER: nat := 32
  const NODE: nat := 24
  const ENTRY: nat := 12

  function BuffersOffset(nodes: nat): nat {
    HEADER + NODE * nodes
  }

  function PayloadStart(nodes: nat, buffers: nat): (r: nat)
    ensures BuffersOffset(nodes) + ENTRY * buffers <= r && r % 64 == 0
  {
    Align64(BuffersOffset(nodes) + ENTRY * buffers)
  }

  datatype Loc = Loc(chunk: nat, offset: nat)

  /** Where each buffer went, and the bytes used in each chunk. The last chunk is the one
      being filled, and its used bytes are the cursor. */
  datatype Packing = Packing(locs: seq<Loc>, used: seq<nat>)

  function Place(p: Packing, len: nat, cap: nat): (r: Packing)
    requires p.used != []
    ensures r.used != []
  {
    var last := |p.used| - 1;
    var off := Align64(p.used[last]);
    if off + len > cap then Packing(p.locs + [Loc(last + 1, 0)], p.used + [len])
    else Packing(p.locs + [Loc(last, off)], p.used[last := off + len])
  }

  function PlaceAll(start: nat, lens: seq<nat>, cap: nat): (r: Packing)
    ensures r.used != []
  {
    if |lens| == 0 then Packing([], [start])
    else Place(PlaceAll(start, lens[..|lens| - 1], cap), lens[|lens| - 1], cap)
  }

  /** A packing that keeps every buffer whole, aligned, inside its chunk, behind the tables
      and clear of every other buffer. */
  ghost predicate Sound(p: Packing, start: nat, lens: seq<nat>, cap: nat) {
    && |p.locs| == |lens| && 1 <= |p.used| <= |lens| + 1
    && start <= p.used[0]
    && (forall c :: 0 <= c < |p.used| ==> p.used[c] <= cap)
    && (forall i :: 0 <= i < |lens| ==>
          && p.locs[i].chunk < |p.used| && p.locs[i].offset % 64 == 0
          && p.locs[i].offset + lens[i] <= p.used[p.locs[i].chunk]
          && (p.locs[i].chunk == 0 ==> start <= p.locs[i].offset))
    && (forall i, j :: 0 <= i < j < |lens| ==>
          && p.locs[i].chunk <= p.locs[j].chunk
          && (p.locs[i].chunk == p.locs[j].chunk ==> p.locs[i].offset + lens[i] <= p.locs[j].offset))
  }

  lemma PlaceSound(p: Packing, start: nat, lens: seq<nat>, len: nat, cap: nat)
    requires Sound(p, start, lens, cap) && len <= cap
    ensures Sound(Place(p, len, cap), start, lens + [len], cap)
  {
    var off := Align64(p.used[|p.used| - 1]);
    assert p.used[|p.used| - 1] <= off;
  }

  lemma {:induction false} PackSound(start: nat, lens: seq<nat>, cap: nat)
    requires start <= cap && forall i :: 0 <= i < |lens| ==> lens[i] <= cap
    ensures Sound(PlaceAll(start, lens, cap), start, lens, cap)
  {
    if |lens| > 0 {
      var init, len := lens[..|lens| - 1], lens[|lens| - 1];
      PackSound(start, init, cap);
      PlaceSound(PlaceAll(start, init, cap), start, init, len, cap);
      assert lens == init + [len];
    }
  }

  /** Where the buffers before the i-th end: their chunk, and the first byte after them. */
  function Cursor(p: Packing, start: nat, lens: seq<nat>, i: nat): Loc
    requires i <= |lens| == |p.locs|
  {
    if i == 0 then Loc(0, start) else Loc(p.locs[i - 1].chunk, p.locs[i - 1].offset + lens[i - 1])
  }

  /** Buffer i goes to the first aligned byte after the buffer before it if it fits that
      chunk, and opens the next chunk only if it does not. */
  predicate NextFitAt(p: Packing, start: nat, lens: seq<nat>, cap: nat, i: nat)
    requires i < |lens| == |p.locs|
  {
    var at := Cursor(p, start, lens, i);
    p.locs[i] == if Align64(at.offset) + lens[i] <= cap then Loc(at.chunk, Align64(at.offset)) else Loc(at.chunk + 1, 0)
  }

  /** The packing wastes nothing but alignment: no buffer opens a chunk while it fits the one
      being filled, and the last chunk's used bytes end with the last buffer. */
  lemma {:induction false} NextFit(start: nat, lens: seq<nat>, cap: nat, i: nat)
    ensures var p := PlaceAll(start, lens, cap);
            && |p.locs| == |lens|
            && Cursor(p, start, lens, |lens|) == Loc(|p.used| - 1, p.used[|p.used| - 1])
            && (i < |lens| ==> NextFitAt(p, start, lens, cap, i))
  {
    if |lens| > 0 {
      var n := |lens| - 1;
      var before, p := PlaceAll(start, lens[..n], cap), PlaceAll(start, lens, cap);
      NextFit(start, lens[..n], cap, i);
      assert p.locs[..n] == before.locs;
      assert forall j :: 0 <= j <= n ==> Cursor(p, start, lens, j) == Cursor(before, start, lens[..n], j);
      hide Align64;
      if i < n {
        assert NextFitAt(before, start, lens[..n], cap, i);
      }
    }
  }

  /** The bytes of the batch laid out in one chunk. */
  function SerializedLen(start: nat, lens: seq<nat>): (r: nat)
    ensures r >= start
  {
    if |lens| == 0 then start else Align64(SerializedLen(start, lens[..|lens| - 1])) + lens[|lens| - 1]
  }

  lemma {:induction false} LensWithin(start: nat, lens: seq<nat>, i: nat)
    requires i < |lens|
    ensures lens[i] <= SerializedLen(start, lens)
  {
    if i < |lens| - 1 {
      LensWithin(start, lens[..|lens| - 1], i);
    }
  }

  /** A batch packs into a single chunk exactly when its serialized length fits one. */
  lemma {:induction false} OneChunk(start: nat, lens: seq<nat>, cap: nat)
    requires start <= cap
    ensures |PlaceAll(start, lens, cap).used| == 1 <==> SerializedLen(start, lens) <= cap
    ensures |PlaceAll(start, lens, cap).used| == 1 ==> PlaceAll(start, lens, cap).used[0] == SerializedLen(start, lens)
  {
    if |lens| > 0 {
      OneChunk(start, lens[..|lens| - 1], cap);
    }
  }

  predicate Packable(nodes: nat, lens: seq<nat>, cap: nat) {
    PayloadStart(nodes, |lens|) <= cap && forall i :: 0 <= i < |lens| ==> lens[i] <= cap
  }

  /** The single-chunk writer accepts a batch exactly when its serialized length fits. */
  lemma FitsOneChunk(nodes: nat, lens: seq<nat>, cap: nat)
    ensures var start := PayloadStart(nodes, |lens|);
            Packable(nodes, lens, cap) && |PlaceAll(start, lens, cap).used| == 1 <==> SerializedLen(start, lens) <= cap
  {
    var start := PayloadStart(nodes, |lens|);
    if start <= cap {
      OneChunk(start, lens, cap);
      forall i | 0 <= i < |lens|
        ensures lens[i] <= SerializedLen(start, lens)
      {
        LensWithin(start, lens, i);
      }
    }
  }

  /** The packer succeeds exactly when the tables and every single buffer fit a chunk; it
      then gives a sound packing, in one chunk exactly when the whole batch fits one. */
  method Pack(nodes: nat, lens: seq<nat>, cap: nat) returns (r: Result<Packing, Error>)
    ensures r == if PayloadStart(nodes, |lens|) > cap then Err(ChunkTooSmall)
                 else if !Packable(nodes, lens, cap) then Err(Unsupported)
                 else Ok(PlaceAll(PayloadStart(nodes, |lens|), lens, cap))
    ensures r.Ok? ==> Sound(r.value, PayloadStart(nodes, |lens|), lens, cap)
    ensures r.Ok? ==> (|r.value.used| == 1 <==> SerializedLen(PayloadStart(nodes, |lens|), lens) <= cap)
  {
    var start := PayloadStart(nodes, |lens|);
    if start > cap {
      return Err(ChunkTooSmall);
    }
    var locs: seq<Loc>, used: seq<nat> := [], [start];
    var cur, cursor := 0, start;
    for i := 0 to |lens|
      invariant cur == |used| - 1 && used[cur] == cursor
      invariant Packing(locs, used) == PlaceAll(start, lens[..i], cap)
      invariant forall j :: 0 <= j < i ==> lens[j] <= cap
    {
      if lens[i] > cap {
        return Err(Unsupported);
      }
      var off := Align64(cursor);
      if off + lens[i] > cap {
        cur, used, off := cur + 1, used + [0], 0;
      }
      locs := locs + [Loc(cur, off)];
      cursor := off + lens[i];
      used := used[cur := cursor];
      assert lens[..i + 1][..i] == lens[..i];
    }
    assert lens[..|lens|] == lens;
    PackSound(start, lens, cap);
    OneChunk(start, lens, cap);
    return Ok(Packing(locs, used));
  }

  method ComputeSerializedLen(nodes: nat, lens: seq<nat>) returns (cursor: nat)
    ensures cursor == SerializedLen(PayloadStart(nodes, |lens|), lens)
  {
    cursor := PayloadStart(nodes, |lens|);
    for i := 0 to |lens|
      invariant cursor == SerializedLen(PayloadStart(nodes, |lens|), lens[..i])
    {
      cursor := Align64(cursor) + lens[i];
      assert lens[..i + 1][..i] == lens[..i];
    }
    assert lens[..|lens|] == lens;
  }
}
