/** A record batch in the bytes of its chunks: header, node table and buffer table in the
    primary chunk, buffers wherever the packing put them (crates/shm-arrow/src/write.rs,
    write_batch_chunks, and crates/shm-arrow/src/read.rs, read_batch_chunks). */
module ArrowBatch {
  import opened Common
  import opened Bytes
  import opened ArrowTree
  import opened ArrowPacking

  const MAGIC: nat := 3626596520990427219
  const FORMAT: nat := 2

  datatype Header = Header(
    magic: nat, format: nat, schemaId: nat, rowCount: nat, nodeCount: nat, bufferCount: nat, chunkCount: nat)

  datatype BufferEntry = BufferEntry(chunk: nat, offset: nat, len: nat)

  /** A chunk of the mapped segment. */
  datatype Chunk = Chunk(offset: nat, len: nat, schemaId: nat)

  // ---- Records ----

  function EncodeHeader(h: Header): (r: seq<Byte>)
    ensures |r| == HEADER
  {
    LE(h.magic, 8) + LE(h.format, 4) + LE(h.schemaId, 4) + LE(h.rowCount, 4) + LE(h.nodeCount, 4)
    + LE(h.bufferCount, 4) + LE(h.chunkCount, 4)
  }

  function ReadHeader(b: seq<Byte>): Header
    requires |b| >= HEADER
  {
    Header(Read(b, 0, 8), Read(b, 8, 4), Read(b, 12, 4), Read(b, 16, 4), Read(b, 20, 4), Read(b, 24, 4), Read(b, 28, 4))
  }

  function EncodeNode(e: NodeEntry): (r: seq<Byte>)
    ensures |r| == NODE
  {
    LE(e.len, 4) + LE(e.nullCount, 4) + LE(e.hasValidity, 4) + LE(e.dataBuffers, 4) + LE(e.childCount, 4) + LE(e.pad, 4)
  }

  function ReadNode(b: seq<Byte>, off: nat): NodeEntry
    requires off + NODE <= |b|
  {
    NodeEntry(Read(b, off, 4), Read(b, off + 4, 4), Read(b, off + 8, 4), Read(b, off + 12, 4), Read(b, off + 16, 4),
              Read(b, off + 20, 4))
  }

  function EncodeEntry(e: BufferEntry): (r: seq<Byte>)
    ensures |r| == ENTRY
  {
    LE(e.chunk, 4) + LE(e.offset, 4) + LE(e.len, 4)
  }

  function ReadEntry(b: seq<Byte>, off: nat): BufferEntry
    requires off + ENTRY <= |b|
  {
    BufferEntry(Read(b, off, 4), Read(b, off + 4, 4), Read(b, off + 8, 4))
  }

  predicate U32(n: nat) {
    n < Pow(4)
  }

  predicate HeaderFits(h: Header) {
    && h.magic < Pow(8) && U32(h.format) && U32(h.schemaId) && U32(h.rowCount) && U32(h.nodeCount)
    && U32(h.bufferCount) && U32(h.chunkCount)
  }

  predicate NodeFits(e: NodeEntry) {
    U32(e.len) && U32(e.nullCount) && U32(e.hasValidity) && U32(e.dataBuffers) && U32(e.childCount) && U32(e.pad)
  }

  predicate EntryFits(e: BufferEntry) {
    U32(e.chunk) && U32(e.offset) && U32(e.len)
  }

  lemma HeaderReads(b: seq<Byte>, h: Header)
    requires Has(b, 0, EncodeHeader(h)) && HeaderFits(h)
    ensures |b| >= HEADER && ReadHeader(b) == h
  {
    hide Has, LE, Read, Pow;
    var p2 := LE(h.magic, 8) + LE(h.format, 4);
    var p4 := p2 + LE(h.schemaId, 4) + LE(h.rowCount, 4);
    var p6 := p4 + LE(h.nodeCount, 4) + LE(h.bufferCount, 4);
    LastField(b, 0, p6, h.chunkCount, 4);
    LastField(b, 0, p4 + LE(h.nodeCount, 4), h.bufferCount, 4);
    LastField(b, 0, p4, h.nodeCount, 4);
    LastField(b, 0, p2 + LE(h.schemaId, 4), h.rowCount, 4);
    LastField(b, 0, p2, h.schemaId, 4);
    LastField(b, 0, LE(h.magic, 8), h.format, 4);
    FirstField(b, 0, h.magic, 8);
  }

  lemma NodeReads(b: seq<Byte>, off: nat, e: NodeEntry)
    requires Has(b, off, EncodeNode(e)) && NodeFits(e)
    ensures off + NODE <= |b| && ReadNode(b, off) == e
  {
    hide Has, LE, Read, Pow;
    var p2 := LE(e.len, 4) + LE(e.nullCount, 4);
    var p4 := p2 + LE(e.hasValidity, 4) + LE(e.dataBuffers, 4);
    LastField(b, off, p4 + LE(e.childCount, 4), e.pad, 4);
    LastField(b, off, p4, e.childCount, 4);
    LastField(b, off, p2 + LE(e.hasValidity, 4), e.dataBuffers, 4);
    LastField(b, off, p2, e.hasValidity, 4);
    LastField(b, off, LE(e.len, 4), e.nullCount, 4);
    FirstField(b, off, e.len, 4);
  }

  lemma EntryReads(b: seq<Byte>, off: nat, e: BufferEntry)
    requires Has(b, off, EncodeEntry(e)) && EntryFits(e)
    ensures off + ENTRY <= |b| && ReadEntry(b, off) == e
  {
    hide Has, LE, Read, Pow;
    LastField(b, off, LE(e.chunk, 4) + LE(e.offset, 4), e.len, 4);
    LastField(b, off, LE(e.chunk, 4), e.offset, 4);
    FirstField(b, off, e.chunk, 4);
  }

  // ---- Tables ----

  function NodeTable(nodes: seq<NodeEntry>): (r: seq<Byte>)
    ensures |r| == NODE * |nodes|
  {
    if |nodes| == 0 then [] else NodeTable(nodes[..|nodes| - 1]) + EncodeNode(nodes[|nodes| - 1])
  }

  function EntryTable(entries: seq<BufferEntry>): (r: seq<Byte>)
    ensures |r| == ENTRY * |entries|
  {
    if |entries| == 0 then [] else EntryTable(entries[..|entries| - 1]) + EncodeEntry(entries[|entries| - 1])
  }

  function ReadNodes(b: seq<Byte>, off: nat, n: nat): (r: seq<NodeEntry>)
    requires off + NODE * n <= |b|
    ensures |r| == n
  {
    if n == 0 then [] else ReadNodes(b, off, n - 1) + [ReadNode(b, off + NODE * (n - 1))]
  }

  function ReadEntries(b: seq<Byte>, off: nat, n: nat): (r: seq<BufferEntry>)
    requires off + ENTRY * n <= |b|
    ensures |r| == n
  {
    if n == 0 then [] else ReadEntries(b, off, n - 1) + [ReadEntry(b, off + ENTRY * (n - 1))]
  }

  lemma {:induction false} NodesRead(b: seq<Byte>, off: nat, nodes: seq<NodeEntry>)
    requires Has(b, off, NodeTable(nodes)) && forall i :: 0 <= i < |nodes| ==> NodeFits(nodes[i])
    ensures off + NODE * |nodes| <= |b| && ReadNodes(b, off, |nodes|) == nodes
  {
    if |nodes| == 0 {
      return;
    }
    hide ReadNode, EncodeNode, Has, NodeFits;
    var init, last := nodes[..|nodes| - 1], nodes[|nodes| - 1];
    HasConcat(b, off, NodeTable(init), EncodeNode(last));
    NodesRead(b, off, init);
    NodeReads(b, off + NODE * |init|, last);
    assert nodes == init + [last];
  }

  lemma {:induction false} EntriesRead(b: seq<Byte>, off: nat, entries: seq<BufferEntry>)
    requires Has(b, off, EntryTable(entries)) && forall i :: 0 <= i < |entries| ==> EntryFits(entries[i])
    ensures off + ENTRY * |entries| <= |b| && ReadEntries(b, off, |entries|) == entries
  {
    if |entries| == 0 {
      return;
    }
    hide ReadEntry, EncodeEntry, Has, EntryFits;
    var init, last := entries[..|entries| - 1], entries[|entries| - 1];
    HasConcat(b, off, EntryTable(init), EncodeEntry(last));
    EntriesRead(b, off, init);
    EntryReads(b, off + ENTRY * |init|, last);
    assert entries == init + [last];
  }

  // ---- Reading ----

  /** The chunks lie inside the mapping, each clear of the others. */
  ghost predicate Mapped(chunks: seq<Chunk>, size: nat) {
    && (forall c :: 0 <= c < |chunks| ==> chunks[c].offset + chunks[c].len <= size)
    && (forall c, d :: 0 <= c < d < |chunks| ==>
          (chunks[c].offset + chunks[c].len <= chunks[d].offset || chunks[d].offset + chunks[d].len <= chunks[c].offset))
  }

  predicate InBounds(chunks: seq<Chunk>, size: nat) {
    forall c :: 0 <= c < |chunks| ==> chunks[c].offset + chunks[c].len <= size
  }

  predicate EntryOk(e: BufferEntry, chunks: seq<Chunk>) {
    e.chunk < |chunks| && e.offset + e.len <= chunks[e.chunk].len
  }

  /** The header and both tables of a primary chunk, once everything in them is checked. */
  function LayoutOf(primary: seq<Byte>, chunks: seq<Chunk>): (r: Result<(Header, seq<NodeEntry>, seq<BufferEntry>), Error>)
    ensures r.Ok? ==> forall i :: 0 <= i < |r.value.2| ==> EntryOk(r.value.2[i], chunks)
  {
    if |primary| < HEADER then Err(Layout)
    else
      var h := ReadHeader(primary);
      if h.magic != MAGIC || h.format != FORMAT then Err(BadMagic)
      else if h.chunkCount != |chunks| then Err(Layout)
      else if BuffersOffset(h.nodeCount) + ENTRY * h.bufferCount > |primary| then Err(Layout)
      else
        var entries := ReadEntries(primary, BuffersOffset(h.nodeCount), h.bufferCount);
        if exists i :: 0 <= i < |entries| && !EntryOk(entries[i], chunks) then Err(Layout)
        else Ok((h, ReadNodes(primary, HEADER, h.nodeCount), entries))
  }

  /** The bytes each entry names. */
  function BytesOf(mem: seq<Byte>, chunks: seq<Chunk>, entries: seq<BufferEntry>): (r: seq<seq<Byte>>)
    requires InBounds(chunks, |mem|) && forall i :: 0 <= i < |entries| ==> EntryOk(entries[i], chunks)
    ensures |r| == |entries|
  {
    if |entries| == 0 then []
    else
      var e := entries[|entries| - 1];
      assert EntryOk(e, chunks);
      BytesOf(mem, chunks, entries[..|entries| - 1]) + [Run(mem, chunks[e.chunk].offset + e.offset, e.len)]
  }

  /** The forest the chunks hold for a schema. */
  function BatchOf(mem: seq<Byte>, chunks: seq<Chunk>, ts: Types): Result<Forest, Error>
    requires InBounds(chunks, |mem|)
  {
    if chunks == [] then Err(Layout)
    else
      var parsed := LayoutOf(Run(mem, chunks[0].offset, chunks[0].len), chunks);
      if parsed.Err? then Err(parsed.error)
      else
        var (h, nodes, entries) := parsed.value;
        if h.schemaId != chunks[0].schemaId then Err(SchemaMismatch)
        else
          var built := Build(ts, nodes, 0, BytesOf(mem, chunks, entries), 0);
          if built.Err? then Err(built.error)
          else if built.value.1 != h.nodeCount || built.value.2 != h.bufferCount then Err(Layout)
          else Ok(built.value.0)
  }

  // ---- What is written reads back ----

  function EntriesOf(locs: seq<Loc>, buffers: seq<seq<Byte>>): (r: seq<BufferEntry>)
    requires |locs| == |buffers|
    ensures |r| == |locs|
    ensures forall i :: 0 <= i < |r| ==> r[i] == BufferEntry(locs[i].chunk, locs[i].offset, |buffers[i]|)
  {
    seq(|locs|, i requires 0 <= i < |locs| => BufferEntry(locs[i].chunk, locs[i].offset, |buffers[i]|))
  }

  function Lengths(buffers: seq<seq<Byte>>): (r: seq<nat>)
    ensures |r| == |buffers| && forall i :: 0 <= i < |r| ==> r[i] == |buffers[i]|
  {
    seq(|buffers|, i requires 0 <= i < |buffers| => |buffers[i]|)
  }

  function Address(chunks: seq<Chunk>, e: BufferEntry): nat
    requires e.chunk < |chunks|
  {
    chunks[e.chunk].offset + e.offset
  }

  /** The buffer stands in the bytes its entry names. */
  ghost predicate Holds(mem: seq<Byte>, chunks: seq<Chunk>, e: BufferEntry, buffer: seq<Byte>) {
    EntryOk(e, chunks) && e.len == |buffer| && Has(mem, Address(chunks, e), buffer)
  }

  /** The header, the tables and every buffer stand where they belong. */
  ghost predicate Stored(mem: seq<Byte>, chunks: seq<Chunk>, h: Header, nodes: seq<NodeEntry>,
                         entries: seq<BufferEntry>, buffers: seq<seq<Byte>>) {
    && chunks != [] && |entries| == |buffers|
    && Has(mem, chunks[0].offset, EncodeHeader(h))
    && Has(mem, chunks[0].offset + HEADER, NodeTable(nodes))
    && Has(mem, chunks[0].offset + BuffersOffset(|nodes|), EntryTable(entries))
    && forall i :: 0 <= i < |entries| ==> Holds(mem, chunks, entries[i], buffers[i])
  }

  lemma SliceHas(mem: seq<Byte>, base: nat, len: nat, off: nat, x: seq<Byte>)
    requires base + len <= |mem| && off + |x| <= len && Has(mem, base + off, x)
    ensures Has(Run(mem, base, len), off, x)
  {
    forall i | 0 <= i < |x|
      ensures Run(mem, base, len)[off + i] == x[i]
    {
      assert mem[base + off + i] == x[i];
    }
  }

  lemma SliceIs(mem: seq<Byte>, at: nat, x: seq<Byte>)
    requires Has(mem, at, x)
    ensures at + |x| <= |mem| && Run(mem, at, |x|) == x
  {
  }

  lemma {:induction false} BytesRead(mem: seq<Byte>, chunks: seq<Chunk>, entries: seq<BufferEntry>, buffers: seq<seq<Byte>>)
    requires InBounds(chunks, |mem|) && |entries| == |buffers|
    requires forall i :: 0 <= i < |entries| ==> Holds(mem, chunks, entries[i], buffers[i])
    ensures forall i :: 0 <= i < |entries| ==> EntryOk(entries[i], chunks)
    ensures BytesOf(mem, chunks, entries) == buffers
  {
    hide Has, Run, InBounds;
    if |entries| > 0 {
      var n := |entries| - 1;
      SliceIs(mem, Address(chunks, entries[n]), buffers[n]);
      BytesRead(mem, chunks, entries[..n], buffers[..n]);
      assert buffers == buffers[..n] + [buffers[n]];
    }
  }

  lemma {:induction false} NodesFit(f: Forest)
    requires Plannable(f)
    ensures forall i :: 0 <= i < |Nodes(f)| ==> NodeFits(Nodes(f)[i])
  {
    PowIs();
    hide Pow;
    if f.Trees? {
      NodesFit(f.root.children);
      NodesFit(f.siblings);
      assert NodeFits(EntryOf(f.root));
    }
  }

  lemma LayoutRead(primary: seq<Byte>, chunks: seq<Chunk>, h: Header, nodes: seq<NodeEntry>, entries: seq<BufferEntry>)
    requires Has(primary, 0, EncodeHeader(h)) && Has(primary, HEADER, NodeTable(nodes))
    requires Has(primary, BuffersOffset(|nodes|), EntryTable(entries))
    requires HeaderFits(h) && h.magic == MAGIC && h.format == FORMAT && h.chunkCount == |chunks|
    requires h.nodeCount == |nodes| && h.bufferCount == |entries|
    requires forall i :: 0 <= i < |nodes| ==> NodeFits(nodes[i])
    requires forall i :: 0 <= i < |entries| ==> EntryFits(entries[i]) && EntryOk(entries[i], chunks)
    ensures LayoutOf(primary, chunks) == Ok((h, nodes, entries))
  {
    hide Has, EncodeHeader, NodeTable, EntryTable, ReadHeader, ReadNodes, ReadEntries, HeaderFits, NodeFits, EntryFits, EntryOk;
    HeaderReads(primary, h);
    NodesRead(primary, HEADER, nodes);
    EntriesRead(primary, BuffersOffset(|nodes|), entries);
  }

  /** Chunks holding a stored batch read back as its forest, and both tables are used up. */
  lemma StoredReads(mem: seq<Byte>, chunks: seq<Chunk>, h: Header, f: Forest, ts: Types, entries: seq<BufferEntry>)
    requires InBounds(chunks, |mem|) && Stored(mem, chunks, h, Nodes(f), entries, Buffers(f))
    requires HeaderFits(h) && h.magic == MAGIC && h.format == FORMAT && h.chunkCount == |chunks|
    requires h.schemaId == chunks[0].schemaId && h.nodeCount == |Nodes(f)| && h.bufferCount == |entries|
    requires BuffersOffset(|Nodes(f)|) + ENTRY * |entries| <= chunks[0].len
    requires forall i :: 0 <= i < |entries| ==> EntryFits(entries[i])
    requires Plannable(f) && WellTyped(f, ts)
    ensures BatchOf(mem, chunks, ts) == Ok(f)
  {
    hide Has, EncodeHeader, NodeTable, EntryTable, HeaderFits, NodeFits, EntryFits, EntryOk, Run, Nodes, Buffers, LayoutOf, BytesOf, Build, Plannable, WellTyped;
    var base, len := chunks[0].offset, chunks[0].len;
    SliceHas(mem, base, len, 0, EncodeHeader(h));
    SliceHas(mem, base, len, HEADER, NodeTable(Nodes(f)));
    SliceHas(mem, base, len, BuffersOffset(|Nodes(f)|), EntryTable(entries));
    NodesFit(f);
    LayoutRead(Run(mem, base, len), chunks, h, Nodes(f), entries);
    BytesRead(mem, chunks, entries, Buffers(f));
    HasSelf(Nodes(f));
    HasSelf(Buffers(f));
    BuildInverts(f, ts, Nodes(f), 0, Buffers(f), 0);
  }

  lemma HasSelf<T>(x: seq<T>)
    ensures Has(x, 0, x)
  {
  }

  // ---- Writing ----

  lemma NodeTableSnoc(nodes: seq<NodeEntry>, e: NodeEntry)
    ensures NodeTable(nodes + [e]) == NodeTable(nodes) + EncodeNode(e)
  {
    hide EncodeNode;
    assert (nodes + [e])[..|nodes|] == nodes;
  }

  lemma EntryTableSnoc(entries: seq<BufferEntry>, e: BufferEntry)
    ensures EntryTable(entries + [e]) == EntryTable(entries) + EncodeEntry(e)
  {
    hide EncodeEntry;
    assert (entries + [e])[..|entries|] == entries;
  }

  method WriteNodes(mem: array<Byte>, at: nat, nodes: seq<NodeEntry>)
    requires at + NODE * |nodes| <= mem.Length
    modifies mem
    ensures Has(mem[..], at, NodeTable(nodes))
    ensures forall i :: 0 <= i < mem.Length && !(at <= i < at + NODE * |nodes|) ==> mem[i] == old(mem[i])
  {
    for i := 0 to |nodes|
      invariant Has(mem[..], at, NodeTable(nodes[..i]))
      invariant forall j :: 0 <= j < mem.Length && !(at <= j < at + NODE * i) ==> mem[j] == old(mem[j])
    {
      hide Has, EncodeNode, NodeTable;
      ghost var before, done := mem[..], NodeTable(nodes[..i]);
      Put(mem, at + NODE * i, EncodeNode(nodes[i]));
      HasSame(before, mem[..], at, done);
      HasConcat(mem[..], at, done, EncodeNode(nodes[i]));
      NodeTableSnoc(nodes[..i], nodes[i]);
      assert nodes[..i + 1] == nodes[..i] + [nodes[i]];
    }
    assert nodes[..|nodes|] == nodes;
  }

  method WriteEntries(mem: array<Byte>, at: nat, entries: seq<BufferEntry>)
    requires at + ENTRY * |entries| <= mem.Length
    modifies mem
    ensures Has(mem[..], at, EntryTable(entries))
    ensures forall i :: 0 <= i < mem.Length && !(at <= i < at + ENTRY * |entries|) ==> mem[i] == old(mem[i])
  {
    for i := 0 to |entries|
      invariant Has(mem[..], at, EntryTable(entries[..i]))
      invariant forall j :: 0 <= j < mem.Length && !(at <= j < at + ENTRY * i) ==> mem[j] == old(mem[j])
    {
      hide Has, EncodeEntry, EntryTable;
      ghost var before, done := mem[..], EntryTable(entries[..i]);
      Put(mem, at + ENTRY * i, EncodeEntry(entries[i]));
      HasSame(before, mem[..], at, done);
      HasConcat(mem[..], at, done, EncodeEntry(entries[i]));
      EntryTableSnoc(entries[..i], entries[i]);
      assert entries[..i + 1] == entries[..i] + [entries[i]];
    }
    assert entries[..|entries|] == entries;
  }

  /** The entries name disjoint stretches of the chunks, behind the tables. */
  ghost predicate Disjoint(entries: seq<BufferEntry>, chunks: seq<Chunk>, start: nat) {
    && (forall i :: 0 <= i < |entries| ==>
          EntryOk(entries[i], chunks) && (entries[i].chunk == 0 ==> start <= entries[i].offset))
    && (forall i, j :: 0 <= i < j < |entries| ==>
          (entries[i].chunk == entries[j].chunk ==> entries[i].offset + entries[i].len <= entries[j].offset))
  }

  /** The byte at k is one a buffer may occupy. */
  ghost predicate Payload(k: int, chunks: seq<Chunk>, start: nat) {
    exists c :: 0 <= c < |chunks| &&
      chunks[c].offset + (if c == 0 then start else 0) <= k < chunks[c].offset + chunks[c].len
  }

  lemma EntriesClear(entries: seq<BufferEntry>, chunks: seq<Chunk>, start: nat, size: nat, i: nat, j: nat)
    requires Disjoint(entries, chunks, start) && Mapped(chunks, size) && i < j < |entries|
    ensures var (a, b) := (Address(chunks, entries[i]), Address(chunks, entries[j]));
            a + entries[i].len <= b || b + entries[j].len <= a
  {
    var (c, d) := (entries[i].chunk, entries[j].chunk);
    assert EntryOk(entries[i], chunks) && EntryOk(entries[j], chunks);
    if c < d {
      assert chunks[c].offset + chunks[c].len <= chunks[d].offset || chunks[d].offset + chunks[d].len <= chunks[c].offset;
    } else if d < c {
      assert chunks[d].offset + chunks[d].len <= chunks[c].offset || chunks[c].offset + chunks[c].len <= chunks[d].offset;
    }
  }

  lemma TablesClear(chunks: seq<Chunk>, start: nat, size: nat, k: int)
    requires Mapped(chunks, size) && chunks != [] && start <= chunks[0].len
    requires chunks[0].offset <= k < chunks[0].offset + start
    ensures !Payload(k, chunks, start)
  {
  }

  method WriteBuffers(mem: array<Byte>, chunks: seq<Chunk>, start: nat, entries: seq<BufferEntry>, buffers: seq<seq<Byte>>)
    requires Mapped(chunks, mem.Length) && Disjoint(entries, chunks, start)
    requires |entries| == |buffers| && forall i :: 0 <= i < |entries| ==> entries[i].len == |buffers[i]|
    modifies mem
    ensures forall i :: 0 <= i < |entries| ==> Holds(mem[..], chunks, entries[i], buffers[i])
    ensures forall k :: 0 <= k < mem.Length && !Payload(k, chunks, start) ==> mem[k] == old(mem[k])
  {
    for i := 0 to |entries|
      invariant forall j :: 0 <= j < i ==> Holds(mem[..], chunks, entries[j], buffers[j])
      invariant forall k :: 0 <= k < mem.Length && !Payload(k, chunks, start) ==> mem[k] == old(mem[k])
    {
      hide Has, Payload;
      var e := entries[i];
      assert EntryOk(e, chunks);
      ghost var before := mem[..];
      Put(mem, Address(chunks, e), buffers[i]);
      forall k | 0 <= k < mem.Length && !Payload(k, chunks, start)
        ensures mem[k] == before[k]
      {
        NotInEntry(e, chunks, start, k);
      }
      forall j | 0 <= j < i
        ensures Holds(mem[..], chunks, entries[j], buffers[j])
      {
        EntriesClear(entries, chunks, start, mem.Length, j, i);
        HasSame(before, mem[..], Address(chunks, entries[j]), buffers[j]);
      }
    }
  }

  lemma NotInEntry(e: BufferEntry, chunks: seq<Chunk>, start: nat, k: int)
    requires EntryOk(e, chunks) && (e.chunk == 0 ==> start <= e.offset) && !Payload(k, chunks, start)
    ensures !(Address(chunks, e) <= k < Address(chunks, e) + e.len)
  {
  }

  // ---- Whole batches ----

  function Start(f: Forest): nat {
    PayloadStart(|Nodes(f)|, |Buffers(f)|)
  }

  function PackingOf(f: Forest, cap: nat): Packing {
    PlaceAll(Start(f), Lengths(Buffers(f)), cap)
  }

  function HeaderFor(f: Forest, rows: nat, schemaId: nat, cap: nat): Header {
    Header(MAGIC, FORMAT, schemaId, rows, |Nodes(f)|, |Buffers(f)|, |PackingOf(f, cap).used|)
  }

  /** What the writer accepts. */
  predicate Writable(f: Forest, rows: nat, cap: nat) {
    && Plannable(f) && Packable(|Nodes(f)|, Lengths(Buffers(f)), cap)
    && rows <= U32_MAX && |Nodes(f)| <= U32_MAX && |Buffers(f)| <= U32_MAX
  }

  /** Chunks large enough for what the packing puts in each. */
  predicate Roomy(chunks: seq<Chunk>, used: seq<nat>) {
    |chunks| >= |used| && forall c :: 0 <= c < |used| ==> used[c] <= chunks[c].len
  }

  /** The batch is in these chunks. */
  ghost predicate Written(mem: seq<Byte>, chunks: seq<Chunk>, f: Forest, rows: nat, schemaId: nat, cap: nat) {
    && Writable(f, rows, cap)
    && |chunks| == |PackingOf(f, cap).used| && Roomy(chunks, PackingOf(f, cap).used)
    && (forall c :: 0 <= c < |chunks| ==> chunks[c].schemaId == schemaId)
    && |PackingOf(f, cap).locs| == |Buffers(f)|
    && Stored(mem, chunks, HeaderFor(f, rows, schemaId, cap), Nodes(f), EntriesOf(PackingOf(f, cap).locs, Buffers(f)), Buffers(f))
  }

  lemma PackingSound(f: Forest, rows: nat, cap: nat)
    requires Writable(f, rows, cap)
    ensures Sound(PackingOf(f, cap), Start(f), Lengths(Buffers(f)), cap)
  {
    hide Sound, Lengths, Plannable;
    PackSound(Start(f), Lengths(Buffers(f)), cap);
  }

  lemma EntriesDisjoint(p: Packing, start: nat, bs: seq<seq<Byte>>, cap: nat, chunks: seq<Chunk>)
    requires Sound(p, start, Lengths(bs), cap) && Roomy(chunks, p.used)
    ensures |p.locs| == |bs| && Disjoint(EntriesOf(p.locs, bs), chunks, start)
  {
    var es, lens := EntriesOf(p.locs, bs), Lengths(bs);
    hide EntriesOf, Lengths;
    forall i | 0 <= i < |es|
      ensures EntryOk(es[i], chunks) && (es[i].chunk == 0 ==> start <= es[i].offset)
    {
      assert p.locs[i].offset + lens[i] <= p.used[p.locs[i].chunk];
    }
    forall i, j | 0 <= i < j < |es| && es[i].chunk == es[j].chunk
      ensures es[i].offset + es[i].len <= es[j].offset
    {
      assert p.locs[i].offset + lens[i] <= p.locs[j].offset;
    }
  }

  lemma EntriesFit(f: Forest, rows: nat, cap: nat)
    requires Writable(f, rows, cap) && cap <= U32_MAX
    ensures |PackingOf(f, cap).locs| == |Buffers(f)| && U32(|PackingOf(f, cap).used|)
    ensures forall i :: 0 <= i < |Buffers(f)| ==> EntryFits(EntriesOf(PackingOf(f, cap).locs, Buffers(f))[i])
  {
    PowIs();
    PackingSound(f, rows, cap);
    var p, bs, start := PackingOf(f, cap), Buffers(f), Start(f);
    assert ENTRY * |bs| <= start <= cap;
    hide PackingOf, Buffers, Start, EntriesOf, Writable, Pow;
    forall i | 0 <= i < |bs|
      ensures EntryFits(EntriesOf(p.locs, bs)[i])
    {
      assert p.locs[i].offset + Lengths(bs)[i] <= p.used[p.locs[i].chunk];
    }
  }

  /** Round trip: every well-typed forest the writer accepts, at any chunk capacity, reads
      back as itself. */
  lemma BatchRoundTrip(mem: seq<Byte>, chunks: seq<Chunk>, f: Forest, ts: Types, rows: nat, schemaId: nat, cap: nat)
    requires InBounds(chunks, |mem|) && Written(mem, chunks, f, rows, schemaId, cap)
    requires cap <= U32_MAX && schemaId <= U32_MAX
    requires WellTyped(f, ts)
    ensures BatchOf(mem, chunks, ts) == Ok(f)
  {
    var h, entries := HeaderFor(f, rows, schemaId, cap), EntriesOf(PackingOf(f, cap).locs, Buffers(f));
    hide Stored, BatchOf, WellTyped, Plannable, EntriesOf, Nodes, Buffers, EntryFits, InBounds;
    PackingSound(f, rows, cap);
    EntriesFit(f, rows, cap);
    assert HeaderFits(h) by {
      PowIs();
    }
    StoredReads(mem, chunks, h, f, ts, entries);
  }

  /** Take the chunks the allocator grants, one per part of the packing. */
  method Take(granted: seq<Chunk>, used: seq<nat>, schemaId: nat) returns (r: Result<seq<Chunk>, Error>)
    ensures r.Ok? <==> Roomy(granted, used)
    ensures r.Ok? ==> |r.value| == |used|
    ensures r.Ok? ==> forall c :: 0 <= c < |used| ==> r.value[c] == granted[c].(schemaId := schemaId)
  {
    var chunks := [];
    for i := 0 to |used|
      invariant |chunks| == i && i <= |granted|
      invariant forall c :: 0 <= c < i ==> used[c] <= granted[c].len && chunks[c] == granted[c].(schemaId := schemaId)
    {
      if i >= |granted| {
        return Err(PoolExhausted);
      }
      if granted[i].len < used[i] {
        return Err(ChunkTooSmall);
      }
      chunks := chunks + [granted[i].(schemaId := schemaId)];
    }
    return Ok(chunks);
  }

  /** Write the tables and the buffers into their chunks, and nothing outside them. */
  method WriteAll(mem: array<Byte>, chunks: seq<Chunk>, h: Header, nodes: seq<NodeEntry>, entries: seq<BufferEntry>,
                  buffers: seq<seq<Byte>>, start: nat)
    requires Mapped(chunks, mem.Length) && Disjoint(entries, chunks, start)
    requires |entries| == |buffers| && forall i :: 0 <= i < |entries| ==> entries[i].len == |buffers[i]|
    requires chunks != [] && BuffersOffset(|nodes|) + ENTRY * |entries| <= start <= chunks[0].len
    modifies mem
    ensures Stored(mem[..], chunks, h, nodes, entries, buffers)
    ensures forall k :: 0 <= k < mem.Length && !Payload(k, chunks, 0) ==> mem[k] == old(mem[k])
  {
    WriteTables(mem, chunks[0].offset, h, nodes, entries);
    ghost var m := mem[..];
    WriteBuffers(mem, chunks, start, entries, buffers);
    hide Has, EncodeHeader, NodeTable, EntryTable, Payload, Disjoint, Holds, Mapped;
    forall k | 0 <= k < mem.Length && chunks[0].offset <= k < chunks[0].offset + start
      ensures mem[k] == m[k]
    {
      TablesClear(chunks, start, mem.Length, k);
    }
    HasSame(m, mem[..], chunks[0].offset, EncodeHeader(h));
    HasSame(m, mem[..], chunks[0].offset + HEADER, NodeTable(nodes));
    HasSame(m, mem[..], chunks[0].offset + BuffersOffset(|nodes|), EntryTable(entries));
    forall k | 0 <= k < mem.Length && !Payload(k, chunks, 0)
      ensures mem[k] == old(mem[k])
    {
      OutsideAll(chunks, start, k);
    }
  }

  lemma OutsideAll(chunks: seq<Chunk>, start: nat, k: int)
    requires chunks != [] && !Payload(k, chunks, 0)
    ensures !Payload(k, chunks, start) && !(chunks[0].offset <= k < chunks[0].offset + chunks[0].len)
  {
  }

  method WriteTables(mem: array<Byte>, base: nat, h: Header, nodes: seq<NodeEntry>, entries: seq<BufferEntry>)
    requires base + BuffersOffset(|nodes|) + ENTRY * |entries| <= mem.Length
    modifies mem
    ensures Has(mem[..], base, EncodeHeader(h)) && Has(mem[..], base + HEADER, NodeTable(nodes))
    ensures Has(mem[..], base + BuffersOffset(|nodes|), EntryTable(entries))
    ensures forall k :: 0 <= k < mem.Length && !(base <= k < base + BuffersOffset(|nodes|) + ENTRY * |entries|) ==>
              mem[k] == old(mem[k])
  {
    hide Has, EncodeHeader, NodeTable, EntryTable;
    Put(mem, base, EncodeHeader(h));
    ghost var m1 := mem[..];
    WriteNodes(mem, base + HEADER, nodes);
    ghost var m2 := mem[..];
    HasSame(m1, m2, base, EncodeHeader(h));
    WriteEntries(mem, base + BuffersOffset(|nodes|), entries);
    HasSame(m2, mem[..], base, EncodeHeader(h));
    HasSame(m2, mem[..], base + HEADER, NodeTable(nodes));
  }

  lemma MappedTake(granted: seq<Chunk>, chunks: seq<Chunk>, size: nat)
    requires Mapped(granted, size) && |chunks| <= |granted|
    requires forall c :: 0 <= c < |chunks| ==> chunks[c].offset == granted[c].offset && chunks[c].len == granted[c].len
    ensures Mapped(chunks, size) && forall k :: Payload(k, chunks, 0) ==> Payload(k, granted, 0)
  {
  }

  /** Plan a forest and pack its buffers. */
  method PlanAndPack(f: Forest, rows: nat, cap: nat) returns (r: Result<(seq<NodeEntry>, seq<seq<Byte>>, Packing), Error>)
    ensures r.Ok? <==> Writable(f, rows, cap)
    ensures r.Ok? ==> r.value == (Nodes(f), Buffers(f), PackingOf(f, cap))
  {
    hide Plannable, Nodes, Buffers, Lengths, Sound, PayloadStart;
    var plan := PlanForest(f, [], []);
    if plan.Err? {
      return Err(plan.error);
    }
    var nodes, buffers := plan.value.0, plan.value.1;
    assert nodes == Nodes(f) && buffers == Buffers(f);
    var packed := Pack(|nodes|, Lengths(buffers), cap);
    if packed.Err? {
      return Err(packed.error);
    }
    if rows > U32_MAX || |nodes| > U32_MAX || |buffers| > U32_MAX {
      return Err(Unsupported);
    }
    return Ok((nodes, buffers, packed.value));
  }

  /** Serialize a forest into the chunks the allocator grants, in order. */
  method WriteBatch(mem: array<Byte>, granted: seq<Chunk>, f: Forest, rows: nat, schemaId: nat, cap: nat)
    returns (r: Result<seq<Chunk>, Error>)
    requires Mapped(granted, mem.Length)
    modifies mem
    ensures r.Ok? <==> Writable(f, rows, cap) && Roomy(granted, PackingOf(f, cap).used)
    ensures r.Ok? ==> InBounds(r.value, mem.Length) && Written(mem[..], r.value, f, rows, schemaId, cap)
    ensures r.Ok? ==> |r.value| <= |granted|
    ensures r.Ok? ==> forall c :: 0 <= c < |r.value| ==> r.value[c] == granted[c].(schemaId := schemaId)
    ensures r.Err? ==> mem[..] == old(mem[..])
    ensures forall k :: 0 <= k < mem.Length && !Payload(k, granted, 0) ==> mem[k] == old(mem[k])
  {
    hide Writable, PackingOf, Nodes, Buffers, Lengths, Sound, PayloadStart, Payload, Disjoint, Stored, EntriesOf;
    var planned := PlanAndPack(f, rows, cap);
    if planned.Err? {
      return Err(planned.error);
    }
    var (nodes, buffers, p) := planned.value;
    var taken := Take(granted, p.used, schemaId);
    if taken.Err? {
      return Err(taken.error);
    }
    var chunks := taken.value;
    MappedTake(granted, chunks, mem.Length);
    PackingSound(f, rows, cap);
    EntriesDisjoint(p, Start(f), buffers, cap, chunks);
    StartFits(p, Start(f), Lengths(buffers), cap);
    var entries := EntriesOf(p.locs, buffers);
    WriteAll(mem, chunks, HeaderFor(f, rows, schemaId, cap), nodes, entries, buffers, Start(f));
    return Ok(chunks);
  }

  lemma StartFits(p: Packing, start: nat, lens: seq<nat>, cap: nat)
    requires Sound(p, start, lens, cap)
    ensures p.used != [] && start <= p.used[0]
  {
  }

  // ---- The reader ----

  method ParseNodes(b: seq<Byte>, n: nat) returns (nodes: seq<NodeEntry>)
    requires HEADER + NODE * n <= |b|
    ensures nodes == ReadNodes(b, HEADER, n)
  {
    nodes := [];
    for i := 0 to n
      invariant nodes == ReadNodes(b, HEADER, i)
    {
      hide ReadNode;
      nodes := nodes + [ReadNode(b, HEADER + NODE * i)];
    }
  }

  method ParseEntries(b: seq<Byte>, at: nat, n: nat) returns (entries: seq<BufferEntry>)
    requires at + ENTRY * n <= |b|
    ensures entries == ReadEntries(b, at, n)
  {
    entries := [];
    for i := 0 to n
      invariant entries == ReadEntries(b, at, i)
    {
      hide ReadEntry;
      entries := entries + [ReadEntry(b, at + ENTRY * i)];
    }
  }

  /** Parse and check the header and the tables of any bytes at all. */
  method ReadLayout(primary: seq<Byte>, chunks: seq<Chunk>)
    returns (r: Result<(Header, seq<NodeEntry>, seq<BufferEntry>), Error>)
    ensures r == LayoutOf(primary, chunks)
  {
    hide ReadHeader, ReadNodes, ReadEntries;
    if |primary| < HEADER {
      return Err(Layout);
    }
    var h := ReadHeader(primary);
    if h.magic != MAGIC || h.format != FORMAT {
      return Err(BadMagic);
    }
    if h.chunkCount != |chunks| {
      return Err(Layout);
    }
    var at := BuffersOffset(h.nodeCount);
    if at + ENTRY * h.bufferCount > |primary| {
      return Err(Layout);
    }
    var nodes := ParseNodes(primary, h.nodeCount);
    var entries := ParseEntries(primary, at, h.bufferCount);
    for i := 0 to |entries|
      invariant forall j :: 0 <= j < i ==> EntryOk(entries[j], chunks)
    {
      if !EntryOk(entries[i], chunks) {
        return Err(Layout);
      }
    }
    return Ok((h, nodes, entries));
  }

  /** Read a batch out of its chunks, whatever bytes are in them. */
  method ReadBatch(mem: seq<Byte>, chunks: seq<Chunk>, ts: Types) returns (r: Result<Forest, Error>)
    requires InBounds(chunks, |mem|)
    ensures r == BatchOf(mem, chunks, ts)
  {
    hide LayoutOf, Run, Build;
    if chunks == [] {
      return Err(Layout);
    }
    var parsed := ReadLayout(Run(mem, chunks[0].offset, chunks[0].len), chunks);
    if parsed.Err? {
      return Err(parsed.error);
    }
    var h, nodes, entries := parsed.value.0, parsed.value.1, parsed.value.2;
    if h.schemaId != chunks[0].schemaId {
      return Err(SchemaMismatch);
    }
    var built := BuildForest(ts, nodes, 0, BytesOf(mem, chunks, entries), 0);
    if built.Err? {
      return Err(built.error);
    }
    if built.value.1 != h.nodeCount || built.value.2 != h.bufferCount {
      return Err(Layout);
    }
    return Ok(built.value.0);
  }

  /** Whatever the chunks hold, a batch that reads is well typed for the schema, and its
      buffers are the ones the table names, each used once and in order. */
  lemma ReadSound(mem: seq<Byte>, chunks: seq<Chunk>, ts: Types)
    requires InBounds(chunks, |mem|) && BatchOf(mem, chunks, ts).Ok?
    ensures var f := BatchOf(mem, chunks, ts).value;
            && WellTyped(f, ts) && chunks != []
            && var parsed := LayoutOf(Run(mem, chunks[0].offset, chunks[0].len), chunks);
               && parsed.Ok? && |Nodes(f)| == |parsed.value.1|
               && Buffers(f) == BytesOf(mem, chunks, parsed.value.2)
  {
    hide WellTyped, Run, Build, BytesOf, ReadHeader, ReadNodes, ReadEntries, Nodes, Buffers;
    var (h, nodes, entries) := LayoutOf(Run(mem, chunks[0].offset, chunks[0].len), chunks).value;
    var bytes := BytesOf(mem, chunks, entries);
    BuildSound(ts, nodes, 0, bytes, 0);
    HasAll(bytes, Buffers(BatchOf(mem, chunks, ts).value));
  }

  lemma HasAll<T>(b: seq<T>, x: seq<T>)
    requires Has(b, 0, x) && |b| == |x|
    ensures b == x
  {
  }
}
