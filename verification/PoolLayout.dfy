/** The byte layout of a size-class pool and the way back from an offset to its chunk
    (crates/shm-core/src/pool.rs, compute_layout, create, alloc and locate). */
module PoolLayout {
  import opened Common

  const SEGMENT_HEADER: nat := 64
  const POOL_HEADER: nat := 24
  const CLASS_HEADER: nat := 32
  const CTRL: nat := 16
  const WORD: nat := 0x1_0000_0000

  datatype Error = OutOfBounds | Misaligned

  datatype SizeClass = SizeClass(size: nat, count: nat)

  /** What the pool stores of a class; the offsets are 32-bit. */
  datatype ClassHeader = ClassHeader(size: nat, count: nat, base: nat, data: nat)

  /** The chunks of the first i classes: the global index of class i's first chunk. */
  function Base(cs: seq<SizeClass>, i: nat): nat
    requires i <= |cs|
  {
    if i == 0 then 0 else Base(cs, i - 1) + cs[i - 1].count
  }

  function CtrlOffset(cs: seq<SizeClass>): nat {
    Align8(POOL_HEADER + CLASS_HEADER * |cs|)
  }

  function CtrlEnd(cs: seq<SizeClass>): nat {
    CtrlOffset(cs) + CTRL * Base(cs, |cs|)
  }

  /** Where the chunks of the first i classes end. */
  function End(cs: seq<SizeClass>, i: nat): nat
    requires i <= |cs|
  {
    if i == 0 then CtrlEnd(cs) else Align64(End(cs, i - 1)) + cs[i - 1].count * cs[i - 1].size
  }

  function Data(cs: seq<SizeClass>, i: nat): nat
    requires i < |cs|
  {
    Align64(End(cs, i))
  }

  /** The payload offset of chunk `local` of class i. */
  function ChunkAt(cs: seq<SizeClass>, i: nat, local: nat): nat
    requires i < |cs|
  {
    Data(cs, i) + local * cs[i].size
  }

  /** The whole layout can be addressed with 32-bit offsets. */
  predicate Addressable(cs: seq<SizeClass>) {
    SEGMENT_HEADER + End(cs, |cs|) < WORD
  }

  // ---- Arithmetic of equal strides ----

  lemma {:induction false} Stride(a: nat, b: nat, size: nat)
    requires a < b
    ensures a * size + size <= b * size
    decreases b
  {
    assert (b - 1) * size + size == b * size;
    if a < b - 1 {
      Stride(a, b - 1, size);
    }
  }

  lemma {:induction false} NonNegative(a: nat, b: nat)
    ensures a * b >= 0
  {
    if a > 0 {
      Stride(0, a, b);
    }
  }

  lemma StrideBack(local: nat, size: nat)
    requires size > 0
    ensures (local * size) % size == 0 && (local * size) / size == local
  {
    var q, r := (local * size) / size, (local * size) % size;
    assert q * size + r == local * size;
    if q < local {
      Stride(q, local, size);
    } else if local < q {
      Stride(local, q, size);
    }
  }

  lemma StrideOf(rel: nat, size: nat)
    requires size > 0 && rel % size == 0
    ensures (rel / size) * size == rel
  {
  }

  lemma StrideBelow(local: nat, count: nat, size: nat)
    requires local * size < count * size
    ensures local < count
  {
    if count < local {
      Stride(count, local, size);
    }
  }

  lemma StrideAligned(local: nat, size: nat)
    requires size % 64 == 0
    ensures (local * size) % 64 == 0
  {
    var k := size / 64;
    assert local * size == 64 * (local * k);
  }

  // ---- Order of the regions ----

  lemma {:induction false} EndGrows(cs: seq<SizeClass>, i: nat, j: nat)
    requires i <= j <= |cs|
    ensures End(cs, i) <= End(cs, j)
    decreases j
  {
    if i < j {
      EndGrows(cs, i, j - 1);
      NonNegative(cs[j - 1].count, cs[j - 1].size);
    }
  }

  lemma {:induction false} BaseGrows(cs: seq<SizeClass>, i: nat, j: nat)
    requires i <= j <= |cs|
    ensures Base(cs, i) <= Base(cs, j)
    decreases j
  {
    if i < j {
      BaseGrows(cs, i, j - 1);
    }
  }

  lemma ChunkWithin(cs: seq<SizeClass>, i: nat, local: nat)
    requires i < |cs| && local < cs[i].count
    ensures Data(cs, i) <= ChunkAt(cs, i, local)
    ensures ChunkAt(cs, i, local) + cs[i].size <= End(cs, i + 1)
  {
    hide Align64, CtrlEnd;
    Stride(local, cs[i].count, cs[i].size);
  }

  lemma ChunkAligned(cs: seq<SizeClass>, i: nat, local: nat)
    requires i < |cs| && cs[i].size % 64 == 0
    ensures ChunkAt(cs, i, local) % 64 == 0
  {
    var data, step := Data(cs, i), local * cs[i].size;
    StrideAligned(local, cs[i].size);
    assert data % 64 == 0;
    hide *;
    assert (data + step) % 64 == 0;
  }

  /** Chunks are behind every header and control word and inside the layout, with a global
      index below the total, and 64-aligned if their size is. */
  lemma ChunkClear(cs: seq<SizeClass>, i: nat, local: nat)
    requires i < |cs| && local < cs[i].count
    ensures cs[i].size % 64 == 0 ==> ChunkAt(cs, i, local) % 64 == 0
    ensures CtrlEnd(cs) <= ChunkAt(cs, i, local)
    ensures ChunkAt(cs, i, local) + cs[i].size <= End(cs, |cs|)
    ensures Base(cs, i) + local < Base(cs, |cs|)
  {
    hide ChunkAt, Align64, CtrlEnd;
    if cs[i].size % 64 == 0 {
      ChunkAligned(cs, i, local);
    }
    ChunkWithin(cs, i, local);
    EndGrows(cs, 0, i);
    EndGrows(cs, i + 1, |cs|);
    BaseGrows(cs, i + 1, |cs|);
  }

  // ---- Headers and control words ----

  /** Where the header of class i stands. */
  function HeaderAt(i: nat): nat {
    POOL_HEADER + CLASS_HEADER * i
  }

  /** Where the control word of chunk g stands. */
  function CtrlAt(cs: seq<SizeClass>, g: nat): nat {
    CtrlOffset(cs) + CTRL * g
  }

  /** The regions in order, in bytes: the pool's header, one header per class, one control
      word per chunk from the first 8-aligned byte after them, and then the chunks. Headers
      and control words are 8-aligned, and each ends where the next begins. */
  lemma RegionsInOrder(cs: seq<SizeClass>, i: nat, g: nat)
    requires i < |cs| && g < Base(cs, |cs|)
    ensures HeaderAt(i) == 24 + 32 * i && HeaderAt(i) % 8 == 0 && HeaderAt(i + 1) == HeaderAt(i) + CLASS_HEADER
    ensures 24 + 32 * |cs| <= CtrlAt(cs, 0) < 24 + 32 * |cs| + 8
    ensures CtrlAt(cs, g) % 8 == 0 && CtrlAt(cs, g + 1) == CtrlAt(cs, g) + CTRL && CTRL == 16
    ensures HeaderAt(i) + CLASS_HEADER <= CtrlAt(cs, g)
    ensures CtrlAt(cs, g) + CTRL <= CtrlEnd(cs)
  {
    hide Base, Align8;
    Multiple8(Align8(POOL_HEADER + CLASS_HEADER * |cs|), g);
  }

  lemma Multiple8(x: nat, g: nat)
    requires x % 8 == 0
    ensures (x + 16 * g) % 8 == 0
  {
  }

  /** Different headers, and different control words, occupy different bytes. */
  lemma WordsApart(cs: seq<SizeClass>, i: nat, j: nat)
    requires i < j
    ensures HeaderAt(i) + CLASS_HEADER <= HeaderAt(j) && CtrlAt(cs, i) + CTRL <= CtrlAt(cs, j)
  {
  }

  /** Every chunk is clear of every class header and every control word, its own and other
      chunks', and its class starts at the first 64-aligned byte it can. */
  lemma ChunkBehindAll(cs: seq<SizeClass>, i: nat, local: nat, j: nat, g: nat)
    requires i < |cs| && local < cs[i].count && j < |cs| && g < Base(cs, |cs|)
    ensures HeaderAt(j) + CLASS_HEADER <= CtrlAt(cs, g) < CtrlAt(cs, g) + CTRL <= ChunkAt(cs, i, local)
    ensures End(cs, i) <= Data(cs, i) < End(cs, i) + 64 && Data(cs, i) % 64 == 0
  {
    RegionsInOrder(cs, j, g);
    ChunkClear(cs, i, local);
    hide ChunkAt, CtrlAt, CtrlEnd, HeaderAt, End;
  }

  lemma ChunksApart(cs: seq<SizeClass>, i: nat, local: nat, j: nat, other: nat)
    requires i < |cs| && local < cs[i].count && j < |cs| && other < cs[j].count
    requires i < j || (i == j && local < other)
    ensures ChunkAt(cs, i, local) + cs[i].size <= ChunkAt(cs, j, other)
    ensures Base(cs, i) + local < Base(cs, j) + other
  {
    if i == j {
      Stride(local, other, cs[i].size);
    } else {
      ChunkWithin(cs, i, local);
      ChunkWithin(cs, j, other);
      EndGrows(cs, i + 1, j);
      BaseGrows(cs, i + 1, j);
    }
  }

  // ---- Creating, allocating, locating ----

  /** The low 32 bits. */
  function Low32(x: nat): (r: nat)
    ensures x < WORD ==> r == x
  {
    x % WORD
  }

  /** The class headers a pool of these classes is created with. */
  ghost predicate Created(cs: seq<SizeClass>, hs: seq<ClassHeader>) {
    && |hs| == |cs|
    && forall i :: 0 <= i < |hs| ==> hs[i] == ClassHeader(cs[i].size, cs[i].count, Base(cs, i), Low32(Data(cs, i)))
  }

  /** The offset alloc hands out for a popped chunk. */
  function AllocOffset(hs: seq<ClassHeader>, i: nat, local: nat): nat
    requires i < |hs|
  {
    Low32(SEGMENT_HEADER + hs[i].data + local * hs[i].size)
  }

  predicate Covers(h: ClassHeader, payload: nat) {
    h.data <= payload < h.data + h.count * h.size
  }

  function LocateFrom(hs: seq<ClassHeader>, offset: nat, i: nat): Result<(nat, nat, nat), Error>
    requires i <= |hs| && SEGMENT_HEADER <= offset
    decreases |hs| - i
  {
    if i == |hs| then Err(OutOfBounds)
    else
      var payload := offset - SEGMENT_HEADER;
      if !Covers(hs[i], payload) then LocateFrom(hs, offset, i + 1)
      else
        var rel := payload - hs[i].data;
        if hs[i].size == 0 || rel % hs[i].size != 0 then Err(Misaligned)
        else Ok((i, rel / hs[i].size, hs[i].base + rel / hs[i].size))
  }

  method Locate(hs: seq<ClassHeader>, offset: nat) returns (r: Result<(nat, nat, nat), Error>)
    ensures r == if offset < SEGMENT_HEADER then Err(OutOfBounds) else LocateFrom(hs, offset, 0)
  {
    if offset < SEGMENT_HEADER {
      return Err(OutOfBounds);
    }
    var payload := offset - SEGMENT_HEADER;
    for i := 0 to |hs|
      invariant LocateFrom(hs, offset, 0) == LocateFrom(hs, offset, i)
    {
      if Covers(hs[i], payload) {
        var rel := payload - hs[i].data;
        if hs[i].size == 0 || rel % hs[i].size != 0 {
          return Err(Misaligned);
        }
        return Ok((i, rel / hs[i].size, hs[i].base + rel / hs[i].size));
      }
    }
    return Err(OutOfBounds);
  }

  lemma DataFits(cs: seq<SizeClass>, i: nat)
    requires Addressable(cs) && i < |cs|
    ensures Data(cs, i) + cs[i].count * cs[i].size + SEGMENT_HEADER < WORD && Low32(Data(cs, i)) == Data(cs, i)
  {
    EndGrows(cs, i + 1, |cs|);
  }

  lemma ClassOrder(cs: seq<SizeClass>, i: nat, j: nat)
    requires i < j < |cs|
    ensures Data(cs, i) + cs[i].count * cs[i].size <= Data(cs, j)
  {
    EndGrows(cs, i + 1, j);
  }

  /** Only the class that owns a payload offset covers it. */
  lemma OneCover(cs: seq<SizeClass>, hs: seq<ClassHeader>, i: nat, j: nat, payload: nat)
    requires Addressable(cs) && Created(cs, hs) && i < |cs| && j < |cs|
    requires Covers(hs[i], payload) && Covers(hs[j], payload)
    ensures i == j
  {
    hide End, Data, Base, Low32, Addressable;
    DataFits(cs, i);
    DataFits(cs, j);
    if i < j {
      ClassOrder(cs, i, j);
    } else if j < i {
      ClassOrder(cs, j, i);
    }
  }

  lemma SameCount(cs: seq<SizeClass>, hs: seq<ClassHeader>)
    requires Created(cs, hs)
    ensures |hs| == |cs|
  {
  }

  lemma {:induction false} LocateCovering(cs: seq<SizeClass>, hs: seq<ClassHeader>, offset: nat, i: nat, k: nat)
    requires Addressable(cs) && Created(cs, hs) && k <= i < |cs|
    requires SEGMENT_HEADER <= offset && Covers(hs[i], offset - SEGMENT_HEADER)
    ensures LocateFrom(hs, offset, k) == LocateFrom(hs, offset, i)
    decreases i - k
  {
    hide Addressable, Created, Covers;
    SameCount(cs, hs);
    if k < i {
      if Covers(hs[k], offset - SEGMENT_HEADER) {
        OneCover(cs, hs, k, i, offset - SEGMENT_HEADER);
      } else {
        LocateCovering(cs, hs, offset, i, k + 1);
      }
    }
  }

  lemma {:induction false} LocateFinds(hs: seq<ClassHeader>, offset: nat, k: nat)
    requires k <= |hs| && SEGMENT_HEADER <= offset && LocateFrom(hs, offset, k).Ok?
    ensures var (i, _, _) := LocateFrom(hs, offset, k).value;
            k <= i < |hs| && Covers(hs[i], offset - SEGMENT_HEADER) && LocateFrom(hs, offset, k) == LocateFrom(hs, offset, i)
    decreases |hs| - k
  {
    if !Covers(hs[k], offset - SEGMENT_HEADER) {
      LocateFinds(hs, offset, k + 1);
    }
  }

  /** locate inverts alloc: an offset resolves to a chunk exactly when it is the offset alloc
      hands out for that chunk, and then with its own global index. Chunks of no size are
      never found. */
  lemma LocateExact(cs: seq<SizeClass>, hs: seq<ClassHeader>, offset: nat, i: nat, local: nat, global: nat)
    requires Addressable(cs) && Created(cs, hs) && SEGMENT_HEADER <= offset
    ensures LocateFrom(hs, offset, 0) == Ok((i, local, global)) <==>
            && i < |cs| && cs[i].size > 0 && local < cs[i].count
            && offset == AllocOffset(hs, i, local) && global == Base(cs, i) + local
  {
    hide End, Data, Low32, Addressable, Covers, AllocOffset, LocateFrom;
    if i < |cs| && cs[i].size > 0 && local < cs[i].count && offset == AllocOffset(hs, i, local) {
      AllocLocates(cs, hs, i, local);
    }
    if LocateFrom(hs, offset, 0) == Ok((i, local, global)) {
      LocateFinds(hs, offset, 0);
      LocatedGlobal(hs, offset, i, local, global);
      LocatedIs(cs, hs, offset, i, local);
    }
  }

  /** Why an offset is refused: out of bounds exactly when no class's region covers it, and
      misaligned exactly when one does but no chunk of the class starts there. */
  lemma {:induction false} LocateRefuses(hs: seq<ClassHeader>, offset: nat, k: nat)
    requires k <= |hs| && SEGMENT_HEADER <= offset
    ensures var payload := offset - SEGMENT_HEADER;
            LocateFrom(hs, offset, k) == Err(OutOfBounds) <==> forall i :: k <= i < |hs| ==> !Covers(hs[i], payload)
    ensures LocateFrom(hs, offset, k) == Err(Misaligned) ==>
              exists i :: k <= i < |hs| && Covers(hs[i], offset - SEGMENT_HEADER) && OffChunk(hs[i], offset - SEGMENT_HEADER)
    decreases |hs| - k
  {
    if k < |hs| && !Covers(hs[k], offset - SEGMENT_HEADER) {
      LocateRefuses(hs, offset, k + 1);
    }
  }

  /** No chunk of the class starts there. */
  predicate OffChunk(h: ClassHeader, payload: nat) {
    payload < h.data || h.size == 0 || (payload - h.data) % h.size != 0
  }

  lemma LocatedGlobal(hs: seq<ClassHeader>, offset: nat, i: nat, local: nat, global: nat)
    requires i < |hs| && SEGMENT_HEADER <= offset && Covers(hs[i], offset - SEGMENT_HEADER)
    requires LocateFrom(hs, offset, i) == Ok((i, local, global))
    ensures global == hs[i].base + local
  {
  }

  lemma LocatedIs(cs: seq<SizeClass>, hs: seq<ClassHeader>, offset: nat, i: nat, local: nat)
    requires Addressable(cs) && Created(cs, hs) && i < |cs|
    requires SEGMENT_HEADER <= offset && Covers(hs[i], offset - SEGMENT_HEADER)
    requires LocateFrom(hs, offset, i) == Ok((i, local, hs[i].base + local))
    ensures cs[i].size > 0 && local < cs[i].count && offset == AllocOffset(hs, i, local)
  {
    hide End, Data, Base, Low32, Addressable;
    DataFits(cs, i);
    var rel := offset - SEGMENT_HEADER - hs[i].data;
    var size, count := cs[i].size, cs[i].count;
    LocatedRel(hs, offset, i, local, rel);
    StrideOf(rel, size);
    StrideBelow(local, count, size);
    Low32Small(offset);
  }

  lemma LocatedRel(hs: seq<ClassHeader>, offset: nat, i: nat, local: nat, rel: nat)
    requires i < |hs| && SEGMENT_HEADER <= offset && Covers(hs[i], offset - SEGMENT_HEADER)
    requires rel == offset - SEGMENT_HEADER - hs[i].data
    requires LocateFrom(hs, offset, i) == Ok((i, local, hs[i].base + local))
    ensures hs[i].size > 0 && rel % hs[i].size == 0 && local == rel / hs[i].size
    ensures rel < hs[i].count * hs[i].size
  {
  }

  lemma Low32Small(x: nat)
    ensures x < WORD ==> Low32(x) == x
  {
  }

  lemma LocateHere(hs: seq<ClassHeader>, offset: nat, i: nat, local: nat)
    requires i < |hs| && hs[i].size > 0 && local < hs[i].count
    requires offset == SEGMENT_HEADER + hs[i].data + local * hs[i].size
    ensures Covers(hs[i], offset - SEGMENT_HEADER)
    ensures LocateFrom(hs, offset, i) == Ok((i, local, hs[i].base + local))
  {
    Stride(local, hs[i].count, hs[i].size);
    StrideBack(local, hs[i].size);
  }

  lemma AllocLocates(cs: seq<SizeClass>, hs: seq<ClassHeader>, i: nat, local: nat)
    requires Addressable(cs) && Created(cs, hs) && i < |cs| && cs[i].size > 0 && local < cs[i].count
    ensures SEGMENT_HEADER <= AllocOffset(hs, i, local) == SEGMENT_HEADER + ChunkAt(cs, i, local)
    ensures LocateFrom(hs, AllocOffset(hs, i, local), 0) == Ok((i, local, Base(cs, i) + local))
  {
    hide End, Data, Base, Low32, LocateFrom, Addressable, Covers;
    DataFits(cs, i);
    Stride(local, cs[i].count, cs[i].size);
    var offset := SEGMENT_HEADER + ChunkAt(cs, i, local);
    LocateHere(hs, offset, i, local);
    LocateCovering(cs, hs, offset, i, 0);
  }

  // ---- Beyond 32 bits ----

  lemma WholeTurn(x: nat, turns: nat)
    ensures Low32(x + WORD * turns) == Low32(x)
  {
  }

  /** The offset handed out for a chunk is its true offset modulo 2^32, and so the true one
      exactly when that fits 32 bits; nothing in the layout computation makes sure it does. */
  lemma AllocTruncates(cs: seq<SizeClass>, hs: seq<ClassHeader>, i: nat, local: nat)
    requires Created(cs, hs) && i < |cs|
    ensures AllocOffset(hs, i, local) == Low32(SEGMENT_HEADER + ChunkAt(cs, i, local)) < WORD
    ensures AllocOffset(hs, i, local) == SEGMENT_HEADER + ChunkAt(cs, i, local) <==>
            SEGMENT_HEADER + ChunkAt(cs, i, local) < WORD
  {
    var data := Data(cs, i);
    hide Data;
    var step := local * cs[i].size;
    NonNegative(local, cs[i].size);
    WholeTurn(SEGMENT_HEADER + Low32(data) + step, data / WORD);
  }

  /** Chunks a whole number of turns apart are handed out at one offset. */
  lemma AllocAliases(hs: seq<ClassHeader>, i: nat, local: nat, other: nat, turns: nat)
    requires i < |hs| && other * hs[i].size == local * hs[i].size + WORD * turns
    ensures AllocOffset(hs, i, other) == AllocOffset(hs, i, local)
  {
    NonNegative(local, hs[i].size);
    WholeTurn(SEGMENT_HEADER + hs[i].data + local * hs[i].size, turns);
  }

  /** A class can be that large: of 2^26 + 1 chunks of 64 bytes, the first and the last are
      handed out at one offset, though they are different chunks of the layout. */
  lemma LargeClassAliases(hs: seq<ClassHeader>)
    requires Created([SizeClass(64, 0x400_0001)], hs)
    ensures AllocOffset(hs, 0, 0x400_0000) == AllocOffset(hs, 0, 0)
    ensures ChunkAt([SizeClass(64, 0x400_0001)], 0, 0x400_0000) != ChunkAt([SizeClass(64, 0x400_0001)], 0, 0)
  {
    AllocAliases(hs, 0, 0, 0x400_0000, 1);
  }

  method ComputeBases(cs: seq<SizeClass>) returns (bases: seq<nat>, chunks: nat)
    ensures |bases| == |cs| && forall i :: 0 <= i < |cs| ==> bases[i] == Base(cs, i)
    ensures chunks == Base(cs, |cs|)
  {
    bases, chunks := [], 0;
    for i := 0 to |cs|
      invariant |bases| == i && chunks == Base(cs, i)
      invariant forall j :: 0 <= j < i ==> bases[j] == Base(cs, j)
    {
      bases := bases + [chunks];
      chunks := chunks + cs[i].count;
    }
  }

  /** The layout computation: one pass for the indices, one for the regions. */
  method ComputeLayout(cs: seq<SizeClass>) returns (bases: seq<nat>, datas: seq<nat>, chunks: nat, bytes: nat)
    ensures |bases| == |cs| && |datas| == |cs|
    ensures forall i :: 0 <= i < |cs| ==> bases[i] == Base(cs, i) && datas[i] == Data(cs, i)
    ensures chunks == Base(cs, |cs|) && bytes == End(cs, |cs|)
  {
    hide Align64, Align8, Base;
    bases, chunks := ComputeBases(cs);
    datas := [];
    bytes := CtrlOffset(cs) + CTRL * chunks;
    for i := 0 to |cs|
      invariant |datas| == i && bytes == End(cs, i)
      invariant forall j :: 0 <= j < i ==> datas[j] == Data(cs, j)
    {
      var data := Align64(bytes);
      datas := datas + [data];
      bytes := data + cs[i].count * cs[i].size;
    }
  }

  /** The class an allocation of `size` bytes uses: the first whose chunks are large enough. */
  method FindClass(cs: seq<SizeClass>, size: nat) returns (r: Option<nat>)
    ensures r.None? <==> forall i :: 0 <= i < |cs| ==> cs[i].size < size
    ensures r.Some? ==> r.value < |cs| && cs[r.value].size >= size && forall j :: 0 <= j < r.value ==> cs[j].size < size
  {
    for i := 0 to |cs|
      invariant forall j :: 0 <= j < i ==> cs[j].size < size
    {
      if cs[i].size >= size {
        return Some(i);
      }
    }
    return None;
  }
}
