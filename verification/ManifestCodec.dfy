/** The manifest's byte layout: a 64-byte header, the chunk descriptors, the batch
    spans and the kept members (crates/shm-artifact/src/manifest.rs, write_manifest
    and parse_manifest_bytes). */
module ManifestCodec {
  import opened Common
  import opened Bytes
  import opened Manifests
  import opened Commits

  const MAGIC: nat := 3842787943463602259

  const HEADER: nat := 64
  const DESC: nat := 24
  const SPAN: nat := 4
  const MEMBER: nat := 16

  datatype Header = Header(
    magic: nat, version: nat, artifactId: nat, schemaId: nat, chunkCount: nat, batchCount: nat,
    prevVersion: nat, prevRef: nat, prevGen: nat, depth: nat, total: nat, keptCount: nat)

  function HeaderOf(m: Manifest): Header {
    Header(MAGIC, m.version, m.artifactId, m.schemaId, |m.chunks|, |m.spans|,
           if m.prev.Some? then m.prev.value.version else m.windowBase,
           if m.prev.Some? then m.prev.value.mref else 0,
           if m.prev.Some? then m.prev.value.generation else 0,
           m.depth, m.total, |m.kept|)
  }

  // ---- Encoding ----

  function EncodeHeader(h: Header): (r: seq<Byte>)
    ensures |r| == HEADER
  {
    LE(h.magic, 8) + LE(h.version, 8) + LE(h.artifactId, 4) + LE(h.schemaId, 4) + LE(h.chunkCount, 4)
    + LE(h.batchCount, 4) + LE(h.prevVersion, 8) + LE(h.prevRef, 8) + LE(h.prevGen, 4) + LE(h.depth, 4)
    + LE(h.total, 4) + LE(h.keptCount, 4)
  }

  function EncodeDesc(c: ChunkDesc): (r: seq<Byte>)
    ensures |r| == DESC
  {
    LE(c.segmentId, 4) + LE(c.generation, 4) + LE(c.offset, 4) + LE(c.len, 4) + LE(c.schemaId, 4) + LE(c.pad, 4)
  }

  function EncodeDescs(cs: seq<ChunkDesc>): (r: seq<Byte>)
    ensures |r| == DESC * |cs|
  {
    if |cs| == 0 then [] else EncodeDescs(cs[..|cs| - 1]) + EncodeDesc(cs[|cs| - 1])
  }

  function EncodeSpans(spans: seq<nat>): (r: seq<Byte>)
    ensures |r| == SPAN * |spans|
  {
    if |spans| == 0 then [] else EncodeSpans(spans[..|spans| - 1]) + LE(spans[|spans| - 1], 4)
  }

  function EncodeMember(k: Kept): (r: seq<Byte>)
    ensures |r| == MEMBER
  {
    LE(k.version, 8) + LE(k.batches, 4) + LE(k.pad, 4)
  }

  function EncodeMembers(kept: seq<Kept>): (r: seq<Byte>)
    ensures |r| == MEMBER * |kept|
  {
    if |kept| == 0 then [] else EncodeMembers(kept[..|kept| - 1]) + EncodeMember(kept[|kept| - 1])
  }

  function Length(chunks: nat, spans: nat, kept: nat): nat {
    HEADER + DESC * chunks + SPAN * spans + MEMBER * kept
  }

  function Encode(m: Manifest): (r: seq<Byte>)
    ensures |r| == Length(|m.chunks|, |m.spans|, |m.kept|)
  {
    EncodeHeader(HeaderOf(m)) + EncodeDescs(m.chunks) + EncodeSpans(m.spans) + EncodeMembers(m.kept)
  }

  // ---- Decoding ----

  function ReadHeader(b: seq<Byte>): Header
    requires |b| >= HEADER
  {
    Header(Read(b, 0, 8), Read(b, 8, 8), Read(b, 16, 4), Read(b, 20, 4), Read(b, 24, 4), Read(b, 28, 4),
           Read(b, 32, 8), Read(b, 40, 8), Read(b, 48, 4), Read(b, 52, 4), Read(b, 56, 4), Read(b, 60, 4))
  }

  function ReadDesc(b: seq<Byte>, off: nat): ChunkDesc
    requires off + DESC <= |b|
  {
    ChunkDesc(Read(b, off, 4), Read(b, off + 4, 4), Read(b, off + 8, 4), Read(b, off + 12, 4), Read(b, off + 16, 4),
              Read(b, off + 20, 4))
  }

  function ReadDescs(b: seq<Byte>, off: nat, n: nat): (r: seq<ChunkDesc>)
    requires off + DESC * n <= |b|
    ensures |r| == n
  {
    if n == 0 then [] else ReadDescs(b, off, n - 1) + [ReadDesc(b, off + DESC * (n - 1))]
  }

  function ReadSpans(b: seq<Byte>, off: nat, n: nat): (r: seq<nat>)
    requires off + SPAN * n <= |b|
    ensures |r| == n
  {
    if n == 0 then [] else ReadSpans(b, off, n - 1) + [Read(b, off + SPAN * (n - 1), 4)]
  }

  function ReadMember(b: seq<Byte>, off: nat): Kept
    requires off + MEMBER <= |b|
  {
    Kept(Read(b, off, 8), Read(b, off + 8, 4), Read(b, off + 12, 4))
  }

  function ReadMembers(b: seq<Byte>, off: nat, n: nat): (r: seq<Kept>)
    requires off + MEMBER * n <= |b|
    ensures |r| == n
  {
    if n == 0 then [] else ReadMembers(b, off, n - 1) + [ReadMember(b, off + MEMBER * (n - 1))]
  }

  /** The rules a header must meet before anything past it is looked at. */
  predicate HeaderOk(h: Header) {
    var root := h.prevRef == 0;
    && root == (h.depth == 0)
    && (root ==> h.prevGen == 0)
    && (!root ==> h.prevVersion != 0 && h.keptCount == 0)
    && h.prevVersion < h.version
    && h.batchCount <= h.total
  }

  /** The manifest a header and its tables denote. */
  function Assemble(h: Header, chunks: seq<ChunkDesc>, spans: seq<nat>, kept: seq<Kept>): Manifest
    requires HeaderOk(h)
  {
    var root := h.prevRef == 0;
    Manifest(h.artifactId, h.version, h.schemaId, chunks, spans,
             if root then None
             else Some(Link(h.prevVersion, h.prevRef, h.prevGen, h.depth - 1, h.total - h.batchCount)),
             h.depth, h.total, if root then h.prevVersion else 0, kept)
  }

  function Decode(b: seq<Byte>): Result<Manifest, Error> {
    if |b| < HEADER then Err(VersionGone)
    else
      var h := ReadHeader(b);
      if h.magic != MAGIC then Err(BadMagic)
      else if !HeaderOk(h) || Length(h.chunkCount, h.batchCount, h.keptCount) > |b| then Err(VersionGone)
      else
        var spansAt := HEADER + DESC * h.chunkCount;
        var keptAt := spansAt + SPAN * h.batchCount;
        var kept := ReadMembers(b, keptAt, h.keptCount);
        if h.prevRef == 0 && !WindowOk(h.version, h.prevVersion, kept, h.batchCount) then Err(VersionGone)
        else Ok(Assemble(h, ReadDescs(b, HEADER, h.chunkCount), ReadSpans(b, spansAt, h.batchCount), kept))
  }

  // ---- What is written reads back ----

  predicate U32(n: nat) {
    n < Pow(4)
  }

  predicate U64(n: nat) {
    n < Pow(8)
  }

  predicate HeaderFits(h: Header) {
    && U64(h.magic) && U64(h.version) && U32(h.artifactId) && U32(h.schemaId) && U32(h.chunkCount) && U32(h.batchCount)
    && U64(h.prevVersion) && U64(h.prevRef) && U32(h.prevGen) && U32(h.depth) && U32(h.total) && U32(h.keptCount)
  }

  predicate DescFits(c: ChunkDesc) {
    U32(c.segmentId) && U32(c.generation) && U32(c.offset) && U32(c.len) && U32(c.schemaId) && U32(c.pad)
  }

  predicate MemberFits(k: Kept) {
    U64(k.version) && U32(k.batches) && U32(k.pad)
  }

  /** Every field fits the width it is stored in. */
  ghost predicate Fits(m: Manifest) {
    && HeaderFits(HeaderOf(m))
    && (forall i :: 0 <= i < |m.chunks| ==> DescFits(m.chunks[i]))
    && (forall i :: 0 <= i < |m.spans| ==> U32(m.spans[i]))
    && (forall i :: 0 <= i < |m.kept| ==> MemberFits(m.kept[i]))
  }

  lemma HeaderReads(b: seq<Byte>, h: Header)
    requires Has(b, 0, EncodeHeader(h)) && HeaderFits(h)
    ensures |b| >= HEADER && ReadHeader(b) == h
  {
    hide Has, LE, Read, Pow;
    var p2 := LE(h.magic, 8) + LE(h.version, 8);
    var p4 := p2 + LE(h.artifactId, 4) + LE(h.schemaId, 4);
    var p6 := p4 + LE(h.chunkCount, 4) + LE(h.batchCount, 4);
    var p8 := p6 + LE(h.prevVersion, 8) + LE(h.prevRef, 8);
    var p10 := p8 + LE(h.prevGen, 4) + LE(h.depth, 4);
    LastField(b, 0, p10 + LE(h.total, 4), h.keptCount, 4);
    LastField(b, 0, p10, h.total, 4);
    LastField(b, 0, p8 + LE(h.prevGen, 4), h.depth, 4);
    LastField(b, 0, p8, h.prevGen, 4);
    LastField(b, 0, p6 + LE(h.prevVersion, 8), h.prevRef, 8);
    LastField(b, 0, p6, h.prevVersion, 8);
    LastField(b, 0, p4 + LE(h.chunkCount, 4), h.batchCount, 4);
    LastField(b, 0, p4, h.chunkCount, 4);
    LastField(b, 0, p2 + LE(h.artifactId, 4), h.schemaId, 4);
    LastField(b, 0, p2, h.artifactId, 4);
    LastField(b, 0, LE(h.magic, 8), h.version, 8);
    FirstField(b, 0, h.magic, 8);
  }

  lemma DescReads(b: seq<Byte>, off: nat, c: ChunkDesc)
    requires Has(b, off, EncodeDesc(c)) && DescFits(c)
    ensures off + DESC <= |b| && ReadDesc(b, off) == c
  {
    hide Has, LE, Read, Pow;
    var p2 := LE(c.segmentId, 4) + LE(c.generation, 4);
    var p4 := p2 + LE(c.offset, 4) + LE(c.len, 4);
    LastField(b, off, p4 + LE(c.schemaId, 4), c.pad, 4);
    LastField(b, off, p4, c.schemaId, 4);
    LastField(b, off, p2 + LE(c.offset, 4), c.len, 4);
    LastField(b, off, p2, c.offset, 4);
    LastField(b, off, LE(c.segmentId, 4), c.generation, 4);
    FirstField(b, off, c.segmentId, 4);
  }

  lemma {:induction false} DescsRead(b: seq<Byte>, off: nat, cs: seq<ChunkDesc>)
    requires Has(b, off, EncodeDescs(cs)) && forall i :: 0 <= i < |cs| ==> DescFits(cs[i])
    ensures off + DESC * |cs| <= |b| && ReadDescs(b, off, |cs|) == cs
  {
    if |cs| == 0 {
      return;
    }
    hide ReadDesc, EncodeDesc, Has, DescFits;
    var init, last := cs[..|cs| - 1], cs[|cs| - 1];
    HasConcat(b, off, EncodeDescs(init), EncodeDesc(last));
    DescsRead(b, off, init);
    DescReads(b, off + DESC * |init|, last);
    assert cs == init + [last];
  }

  lemma {:induction false} SpansRead(b: seq<Byte>, off: nat, spans: seq<nat>)
    requires Has(b, off, EncodeSpans(spans)) && forall i :: 0 <= i < |spans| ==> U32(spans[i])
    ensures off + SPAN * |spans| <= |b| && ReadSpans(b, off, |spans|) == spans
  {
    if |spans| == 0 {
      return;
    }
    hide Read, LE, Has, Pow;
    var init, last := spans[..|spans| - 1], spans[|spans| - 1];
    LastField(b, off, EncodeSpans(init), last, 4);
    SpansRead(b, off, init);
    assert spans == init + [last];
  }

  lemma MemberReads(b: seq<Byte>, off: nat, k: Kept)
    requires Has(b, off, EncodeMember(k)) && MemberFits(k)
    ensures off + MEMBER <= |b| && ReadMember(b, off) == k
  {
    LastField(b, off, LE(k.version, 8) + LE(k.batches, 4), k.pad, 4);
    LastField(b, off, LE(k.version, 8), k.batches, 4);
    FirstField(b, off, k.version, 8);
  }

  lemma {:induction false} MembersRead(b: seq<Byte>, off: nat, kept: seq<Kept>)
    requires Has(b, off, EncodeMembers(kept))
    requires forall i :: 0 <= i < |kept| ==> MemberFits(kept[i])
    ensures off + MEMBER * |kept| <= |b| && ReadMembers(b, off, |kept|) == kept
  {
    if |kept| == 0 {
      return;
    }
    hide ReadMember, EncodeMember, Has, MemberFits;
    var init, last := kept[..|kept| - 1], kept[|kept| - 1];
    HasConcat(b, off, EncodeMembers(init), EncodeMember(last));
    MembersRead(b, off, init);
    MemberReads(b, off + MEMBER * |init|, last);
    assert kept == init + [last];
  }

  /** A manifest the writer may produce: a root whose window is well formed, or a link
      whose derived depth and total agree with its own. */
  predicate Coherent(m: Manifest) {
    && |m.spans| <= m.total
    && match m.prev
       case None => m.depth == 0 && WindowOk(m.version, m.windowBase, m.kept, |m.spans|)
       case Some(l) =>
         && l.mref != 0 && 0 < l.version < m.version && m.kept == [] && m.windowBase == 0
         && m.depth == l.depth + 1 && l.total == m.total - |m.spans|
  }

  /** The four tables stand one after the other. */
  lemma Laid(m: Manifest, b: seq<Byte>)
    ensures Has(b, 0, Encode(m)) <==>
            && Has(b, 0, EncodeHeader(HeaderOf(m))) && Has(b, HEADER, EncodeDescs(m.chunks))
            && Has(b, HEADER + DESC * |m.chunks|, EncodeSpans(m.spans))
            && Has(b, HEADER + DESC * |m.chunks| + SPAN * |m.spans|, EncodeMembers(m.kept))
  {
    var h := EncodeHeader(HeaderOf(m));
    var hc := h + EncodeDescs(m.chunks);
    var hcs := hc + EncodeSpans(m.spans);
    hide Has, EncodeHeader, EncodeDescs, EncodeSpans, EncodeMembers, HeaderOf;
    HasConcat(b, 0, hcs, EncodeMembers(m.kept));
    HasConcat(b, 0, hc, EncodeSpans(m.spans));
    HasConcat(b, 0, h, EncodeDescs(m.chunks));
  }

  lemma Assembled(m: Manifest)
    requires Coherent(m)
    ensures HeaderOk(HeaderOf(m)) && Assemble(HeaderOf(m), m.chunks, m.spans, m.kept) == m
  {
  }

  /** Round trip: every coherent manifest whose fields fit reads back from its bytes,
      whatever follows them. */
  lemma RoundTrip(m: Manifest, b: seq<Byte>)
    requires Fits(m) && Coherent(m) && Has(b, 0, Encode(m))
    ensures Decode(b) == Ok(m)
  {
    hide Has, Encode, EncodeHeader, EncodeDescs, EncodeSpans, EncodeMembers, ReadHeader, ReadDescs, ReadSpans, ReadMembers, WindowOk, HeaderFits, DescFits, MemberFits;
    Laid(m, b);
    HeaderReads(b, HeaderOf(m));
    DescsRead(b, HEADER, m.chunks);
    SpansRead(b, HEADER + DESC * |m.chunks|, m.spans);
    MembersRead(b, HEADER + DESC * |m.chunks| + SPAN * |m.spans|, m.kept);
    Assembled(m);
    hide HeaderOk, Assemble;
  }

  // ---- What reads is what was written ----

  lemma HeaderWritten(b: seq<Byte>)
    requires |b| >= HEADER
    ensures HeaderFits(ReadHeader(b)) && Has(b, 0, EncodeHeader(ReadHeader(b)))
  {
    WritesBack(b, 0, 8);
    ReadFits(b, 0, 8);
    hide Has, LE, Read, Pow;
    var p1 := LE(Read(b, 0, 8), 8);
    NextField(b, 0, p1, 8, 8);
    var p2 := p1 + LE(Read(b, 8, 8), 8);
    NextField(b, 0, p2, 16, 4);
    var p3 := p2 + LE(Read(b, 16, 4), 4);
    NextField(b, 0, p3, 20, 4);
    var p4 := p3 + LE(Read(b, 20, 4), 4);
    NextField(b, 0, p4, 24, 4);
    var p5 := p4 + LE(Read(b, 24, 4), 4);
    NextField(b, 0, p5, 28, 4);
    var p6 := p5 + LE(Read(b, 28, 4), 4);
    NextField(b, 0, p6, 32, 8);
    var p7 := p6 + LE(Read(b, 32, 8), 8);
    NextField(b, 0, p7, 40, 8);
    var p8 := p7 + LE(Read(b, 40, 8), 8);
    NextField(b, 0, p8, 48, 4);
    var p9 := p8 + LE(Read(b, 48, 4), 4);
    NextField(b, 0, p9, 52, 4);
    var p10 := p9 + LE(Read(b, 52, 4), 4);
    NextField(b, 0, p10, 56, 4);
    NextField(b, 0, p10 + LE(Read(b, 56, 4), 4), 60, 4);
  }

  lemma DescWritten(b: seq<Byte>, off: nat)
    requires off + DESC <= |b|
    ensures DescFits(ReadDesc(b, off)) && Has(b, off, EncodeDesc(ReadDesc(b, off)))
  {
    WritesBack(b, off, 4);
    ReadFits(b, off, 4);
    hide Has, LE, Read, Pow;
    var p1 := LE(Read(b, off, 4), 4);
    NextField(b, off, p1, off + 4, 4);
    var p2 := p1 + LE(Read(b, off + 4, 4), 4);
    NextField(b, off, p2, off + 8, 4);
    var p3 := p2 + LE(Read(b, off + 8, 4), 4);
    NextField(b, off, p3, off + 12, 4);
    var p4 := p3 + LE(Read(b, off + 12, 4), 4);
    NextField(b, off, p4, off + 16, 4);
    NextField(b, off, p4 + LE(Read(b, off + 16, 4), 4), off + 20, 4);
  }

  lemma DescsSnoc(cs: seq<ChunkDesc>, c: ChunkDesc)
    ensures EncodeDescs(cs + [c]) == EncodeDescs(cs) + EncodeDesc(c)
  {
    hide EncodeDesc;
    assert (cs + [c])[..|cs|] == cs;
  }

  lemma MembersSnoc(kept: seq<Kept>, k: Kept)
    ensures EncodeMembers(kept + [k]) == EncodeMembers(kept) + EncodeMember(k)
  {
    hide EncodeMember;
    assert (kept + [k])[..|kept|] == kept;
  }

  lemma SpansSnoc(spans: seq<nat>, n: nat)
    ensures EncodeSpans(spans + [n]) == EncodeSpans(spans) + LE(n, 4)
  {
    hide LE;
    assert (spans + [n])[..|spans|] == spans;
  }

  lemma {:induction false} DescsFit(b: seq<Byte>, off: nat, n: nat)
    requires off + DESC * n <= |b|
    ensures forall i :: 0 <= i < n ==> DescFits(ReadDescs(b, off, n)[i])
  {
    hide ReadDesc, DescFits;
    if n > 0 {
      DescsFit(b, off, n - 1);
      DescWritten(b, off + DESC * (n - 1));
    }
  }

  lemma {:induction false} DescsWritten(b: seq<Byte>, off: nat, n: nat)
    requires off + DESC * n <= |b|
    ensures Has(b, off, EncodeDescs(ReadDescs(b, off, n)))
  {
    hide *;
    if n == 0 {
      NothingWritten(b, off);
    } else {
      DescsWritten(b, off, n - 1);
      OneMoreDesc(b, off, n);
      var init, last := ReadDescs(b, off, n - 1), ReadDesc(b, off + DESC * (n - 1));
      DescWritten(b, off + DESC * (n - 1));
      HasConcat(b, off, EncodeDescs(init), EncodeDesc(last));
      DescsSnoc(init, last);
    }
  }

  lemma {:induction false} SpansWritten(b: seq<Byte>, off: nat, n: nat)
    requires off + SPAN * n <= |b|
    ensures var spans := ReadSpans(b, off, n);
            Has(b, off, EncodeSpans(spans)) && forall i :: 0 <= i < n ==> U32(spans[i])
  {
    if n == 0 {
      return;
    }
    hide Has, Read, LE, Pow, EncodeSpans;
    var init, last := ReadSpans(b, off, n - 1), Read(b, off + SPAN * (n - 1), 4);
    assert ReadSpans(b, off, n) == init + [last];
    hide ReadSpans;
    SpansWritten(b, off, n - 1);
    NextField(b, off, EncodeSpans(init), off + SPAN * (n - 1), 4);
    SpansSnoc(init, last);
  }

  lemma MemberWritten(b: seq<Byte>, off: nat)
    requires off + MEMBER <= |b|
    ensures MemberFits(ReadMember(b, off)) && Has(b, off, EncodeMember(ReadMember(b, off)))
  {
    WritesBack(b, off, 8);
    ReadFits(b, off, 8);
    hide Has, LE, Read, Pow;
    var k := ReadMember(b, off);
    NextField(b, off, LE(k.version, 8), off + 8, 4);
    NextField(b, off, LE(k.version, 8) + LE(k.batches, 4), off + 12, 4);
  }

  lemma {:induction false} MembersWritten(b: seq<Byte>, off: nat, n: nat)
    requires off + MEMBER * n <= |b|
    ensures var kept := ReadMembers(b, off, n);
            Has(b, off, EncodeMembers(kept)) && forall i :: 0 <= i < n ==> MemberFits(kept[i])
  {
    hide *;
    if n == 0 {
      NothingWritten(b, off);
    } else {
      MembersWritten(b, off, n - 1);
      OneMoreMember(b, off, n);
      var init, last := ReadMembers(b, off, n - 1), ReadMember(b, off + MEMBER * (n - 1));
      MemberWritten(b, off + MEMBER * (n - 1));
      HasConcat(b, off, EncodeMembers(init), EncodeMember(last));
      MembersSnoc(init, last);
    }
  }

  lemma NothingWritten(b: seq<Byte>, off: nat)
    requires off <= |b|
    ensures Has(b, off, EncodeMembers(ReadMembers(b, off, 0))) && Has(b, off, EncodeDescs(ReadDescs(b, off, 0)))
  {
  }

  lemma OneMoreMember(b: seq<Byte>, off: nat, n: nat)
    requires n > 0 && off + MEMBER * n <= |b|
    ensures ReadMembers(b, off, n) == ReadMembers(b, off, n - 1) + [ReadMember(b, off + MEMBER * (n - 1))]
  {
  }

  lemma OneMoreDesc(b: seq<Byte>, off: nat, n: nat)
    requires n > 0 && off + DESC * n <= |b|
    ensures ReadDescs(b, off, n) == ReadDescs(b, off, n - 1) + [ReadDesc(b, off + DESC * (n - 1))]
  {
  }

  lemma Disassembled(h: Header, chunks: seq<ChunkDesc>, spans: seq<nat>, kept: seq<Kept>)
    requires HeaderOk(h) && h.magic == MAGIC
    requires h.chunkCount == |chunks| && h.batchCount == |spans| && h.keptCount == |kept|
    requires h.prevRef == 0 ==> WindowOk(h.version, h.prevVersion, kept, |spans|)
    ensures var m := Assemble(h, chunks, spans, kept);
            HeaderOf(m) == h && Coherent(m)
  {
    assert h.prevRef != 0 ==> kept == [];
  }

  /** Whatever parses is exactly the bytes of a coherent manifest that fits. */
  lemma Canonical(b: seq<Byte>)
    requires Decode(b).Ok?
    ensures var m := Decode(b).value;
            Fits(m) && Coherent(m) && Has(b, 0, Encode(m))
  {
    hide Has, Encode, EncodeHeader, EncodeDescs, EncodeSpans, EncodeMembers, ReadHeader, ReadDescs, ReadSpans, ReadMembers, HeaderOf, HeaderFits,
      DescFits, MemberFits, Coherent;
    HeaderWritten(b);
    var h, m := ReadHeader(b), Decode(b).value;
    var spansAt := HEADER + DESC * h.chunkCount;
    var keptAt := spansAt + SPAN * h.batchCount;
    DescsWritten(b, HEADER, h.chunkCount);
    DescsFit(b, HEADER, h.chunkCount);
    SpansWritten(b, spansAt, h.batchCount);
    MembersWritten(b, keptAt, h.keptCount);
    Disassembled(h, m.chunks, m.spans, m.kept);
    Laid(m, b);
    hide *;
  }

  /** The parser accepts exactly the encodings, and reads each as what it encodes. */
  lemma ParsesExactly(m: Manifest, b: seq<Byte>)
    ensures Decode(b) == Ok(m) <==> Fits(m) && Coherent(m) && Has(b, 0, Encode(m))
  {
    if Decode(b) == Ok(m) {
      Canonical(b);
    }
    if Fits(m) && Coherent(m) && Has(b, 0, Encode(m)) {
      RoundTrip(m, b);
    }
    hide *;
  }

  // ---- The writer and the parser ----

  /** The widths of what the writer is given. */
  ghost predicate Sized(s: Staged, version: nat, chunks: seq<ChunkDesc>, spans: seq<nat>,
                        link: Option<Link>, window: Option<(nat, seq<Kept>)>) {
    && U32(s.artifactId) && U32(s.schemaId) && U64(version)
    && (forall i :: 0 <= i < |chunks| ==> DescFits(chunks[i]))
    && (forall i :: 0 <= i < |spans| ==> U32(spans[i]))
    && (link.Some? ==>
          && U64(link.value.version) && U64(link.value.mref) && U32(link.value.generation)
          && U32(link.value.depth) && U32(link.value.total))
    && (window.Some? ==> forall i :: 0 <= i < |window.value.1| ==> MemberFits(window.value.1[i]))
  }

  lemma WrittenFits(s: Staged, version: nat, chunks: seq<ChunkDesc>, spans: seq<nat>,
                    link: Option<Link>, window: Option<(nat, seq<Kept>)>, m: Manifest)
    requires Sized(s, version, chunks, spans, link, window)
    requires Write(s, version, chunks, spans, link, window) == Ok(m)
    ensures Fits(m) && Coherent(m)
  {
    PowIs();
    hide Pow, DescFits, MemberFits;
  }

  /** What write_manifest writes parses back to the same lists, link and window. The link's
      total comes back as it went in exactly when the running total did not saturate. */
  lemma WriteThenParse(s: Staged, version: nat, chunks: seq<ChunkDesc>, spans: seq<nat>,
                       link: Option<Link>, window: Option<(nat, seq<Kept>)>, m: Manifest, b: seq<Byte>)
    requires Sized(s, version, chunks, spans, link, window)
    requires Write(s, version, chunks, spans, link, window) == Ok(m)
    requires Has(b, 0, Encode(m))
    ensures Decode(b) == Ok(m)
    ensures m.artifactId == s.artifactId && m.version == version && m.schemaId == s.schemaId
    ensures m.chunks == chunks && m.spans == spans
    ensures m.prev == link <==> (link.Some? ==> |spans| + link.value.total <= U32_MAX)
    ensures (m.windowBase, m.kept) == if window.Some? then window.value else (0, [])
  {
    hide Has, Encode, Decode, Fits, Coherent, Sized, WindowOk;
    WrittenFits(s, version, chunks, spans, link, window, m);
    RoundTrip(m, b);
  }

  /** Write the manifest of the given lists into a loaned chunk. */
  method WriteManifest(buf: array<Byte>, s: Staged, version: nat, chunks: seq<ChunkDesc>, spans: seq<nat>,
                       link: Option<Link>, window: Option<(nat, seq<Kept>)>)
    returns (r: Result<Manifest, Error>)
    modifies buf
    ensures r == match Write(s, version, chunks, spans, link, window)
                 case Err(e) => Err(e)
                 case Ok(m) => if buf.Length < |Encode(m)| then Err(ChunkTooSmall) else Ok(m)
    ensures r.Err? ==> buf[..] == old(buf[..])
    ensures r.Ok? ==> |Encode(r.value)| <= buf.Length && Has(buf[..], 0, Encode(r.value))
    ensures r.Ok? ==> forall i :: |Encode(r.value)| <= i < buf.Length ==> buf[i] == old(buf[i])
  {
    hide WindowOk, Has, EncodeHeader, EncodeDescs, EncodeSpans, EncodeMembers;
    var windowBase, kept := 0, [];
    if window.Some? {
      windowBase, kept := window.value.0, window.value.1;
    }
    if |chunks| > U32_MAX || |spans| > U32_MAX || |kept| > U32_MAX {
      return Err(Unsupported);
    }
    var prev, depth, total := None, 0, |spans|;
    if link.Some? {
      var l := link.value;
      if l.version >= version || l.version == 0 || l.mref == 0 || window.Some? || l.depth >= U32_MAX {
        return Err(Unsupported);
      }
      depth, total := l.depth + 1, Min(U32_MAX, |spans| + l.total);
      prev := Some(l.(total := total - |spans|));
    } else {
      var ok := CheckWindow(version, windowBase, kept, |spans|);
      if !ok {
        return Err(Unsupported);
      }
    }
    var m := Manifest(s.artifactId, version, s.schemaId, chunks, spans, prev, depth, total, windowBase, kept);
    if buf.Length < Length(|chunks|, |spans|, |kept|) {
      return Err(ChunkTooSmall);
    }
    WriteTables(buf, m);
    return Ok(m);
  }

  method WriteTables(buf: array<Byte>, m: Manifest)
    requires |Encode(m)| <= buf.Length
    modifies buf
    ensures Has(buf[..], 0, Encode(m))
    ensures forall i :: |Encode(m)| <= i < buf.Length ==> buf[i] == old(buf[i])
  {
    var spansAt := HEADER + DESC * |m.chunks|;
    var keptAt := spansAt + SPAN * |m.spans|;
    hide Has, EncodeHeader, EncodeDescs, EncodeSpans, EncodeMembers;
    Put(buf, 0, EncodeHeader(HeaderOf(m)));
    ghost var b1 := buf[..];
    WriteDescs(buf, m.chunks);
    ghost var b2 := buf[..];
    HasSame(b1, b2, 0, EncodeHeader(HeaderOf(m)));
    WriteSpans(buf, spansAt, m.spans);
    ghost var b3 := buf[..];
    HasSame(b2, b3, 0, EncodeHeader(HeaderOf(m)));
    HasSame(b2, b3, HEADER, EncodeDescs(m.chunks));
    WriteMembers(buf, keptAt, m.kept);
    HasSame(b3, buf[..], 0, EncodeHeader(HeaderOf(m)));
    HasSame(b3, buf[..], HEADER, EncodeDescs(m.chunks));
    HasSame(b3, buf[..], spansAt, EncodeSpans(m.spans));
    Laid(m, buf[..]);
  }

  method WriteDescs(buf: array<Byte>, cs: seq<ChunkDesc>)
    requires HEADER + DESC * |cs| <= buf.Length
    modifies buf
    ensures Has(buf[..], HEADER, EncodeDescs(cs))
    ensures forall i :: 0 <= i < buf.Length && !(HEADER <= i < HEADER + DESC * |cs|) ==> buf[i] == old(buf[i])
  {
    for i := 0 to |cs|
      invariant Has(buf[..], HEADER, EncodeDescs(cs[..i]))
      invariant forall j :: 0 <= j < buf.Length && !(HEADER <= j < HEADER + DESC * i) ==> buf[j] == old(buf[j])
    {
      hide Has, EncodeDesc, EncodeDescs;
      ghost var before, done := buf[..], EncodeDescs(cs[..i]);
      Put(buf, HEADER + DESC * i, EncodeDesc(cs[i]));
      HasSame(before, buf[..], HEADER, done);
      HasConcat(buf[..], HEADER, done, EncodeDesc(cs[i]));
      DescsSnoc(cs[..i], cs[i]);
      assert cs[..i + 1] == cs[..i] + [cs[i]];
    }
    assert cs[..|cs|] == cs;
  }

  method WriteSpans(buf: array<Byte>, at: nat, spans: seq<nat>)
    requires at + SPAN * |spans| <= buf.Length
    modifies buf
    ensures Has(buf[..], at, EncodeSpans(spans))
    ensures forall i :: 0 <= i < buf.Length && !(at <= i < at + SPAN * |spans|) ==> buf[i] == old(buf[i])
  {
    for i := 0 to |spans|
      invariant Has(buf[..], at, EncodeSpans(spans[..i]))
      invariant forall j :: 0 <= j < buf.Length && !(at <= j < at + SPAN * i) ==> buf[j] == old(buf[j])
    {
      hide Has, LE, EncodeSpans;
      ghost var before, done := buf[..], EncodeSpans(spans[..i]);
      Put(buf, at + SPAN * i, LE(spans[i], 4));
      HasSame(before, buf[..], at, done);
      HasConcat(buf[..], at, done, LE(spans[i], 4));
      SpansSnoc(spans[..i], spans[i]);
      assert spans[..i + 1] == spans[..i] + [spans[i]];
    }
    assert spans[..|spans|] == spans;
  }

  method WriteMembers(buf: array<Byte>, at: nat, kept: seq<Kept>)
    requires at + MEMBER * |kept| <= buf.Length
    modifies buf
    ensures Has(buf[..], at, EncodeMembers(kept))
    ensures forall i :: 0 <= i < buf.Length && !(at <= i < at + MEMBER * |kept|) ==> buf[i] == old(buf[i])
  {
    for i := 0 to |kept|
      invariant Has(buf[..], at, EncodeMembers(kept[..i]))
      invariant forall j :: 0 <= j < buf.Length && !(at <= j < at + MEMBER * i) ==> buf[j] == old(buf[j])
    {
      hide Has, EncodeMember, EncodeMembers;
      ghost var before, done := buf[..], EncodeMembers(kept[..i]);
      Put(buf, at + MEMBER * i, EncodeMember(kept[i]));
      HasSame(before, buf[..], at, done);
      HasConcat(buf[..], at, done, EncodeMember(kept[i]));
      MembersSnoc(kept[..i], kept[i]);
      assert kept[..i + 1] == kept[..i] + [kept[i]];
    }
    assert kept[..|kept|] == kept;
  }

  method ParseDescs(b: seq<Byte>, n: nat) returns (chunks: seq<ChunkDesc>)
    requires HEADER + DESC * n <= |b|
    ensures chunks == ReadDescs(b, HEADER, n)
  {
    chunks := [];
    for i := 0 to n
      invariant chunks == ReadDescs(b, HEADER, i)
    {
      hide ReadDesc;
      chunks := chunks + [ReadDesc(b, HEADER + DESC * i)];
    }
  }

  method ParseSpans(b: seq<Byte>, at: nat, n: nat) returns (spans: seq<nat>)
    requires at + SPAN * n <= |b|
    ensures spans == ReadSpans(b, at, n)
  {
    spans := [];
    for i := 0 to n
      invariant spans == ReadSpans(b, at, i)
    {
      spans := spans + [Read(b, at + SPAN * i, 4)];
    }
  }

  method ParseMembers(b: seq<Byte>, at: nat, n: nat) returns (kept: seq<Kept>)
    requires at + MEMBER * n <= |b|
    ensures kept == ReadMembers(b, at, n)
  {
    kept := [];
    for i := 0 to n
      invariant kept == ReadMembers(b, at, i)
    {
      kept := kept + [ReadMember(b, at + MEMBER * i)];
    }
  }

  /** Parse a manifest out of any bytes at all. */
  method ParseManifest(b: seq<Byte>) returns (r: Result<Manifest, Error>)
    ensures r == Decode(b)
  {
    hide WindowOk, ReadHeader, ReadDescs, ReadSpans, ReadMembers;
    if |b| < HEADER {
      return Err(VersionGone);
    }
    var h := ReadHeader(b);
    if h.magic != MAGIC {
      return Err(BadMagic);
    }
    if !HeaderOk(h) {
      return Err(VersionGone);
    }
    if Length(h.chunkCount, h.batchCount, h.keptCount) > |b| {
      return Err(VersionGone);
    }
    var spansAt := HEADER + DESC * h.chunkCount;
    var keptAt := spansAt + SPAN * h.batchCount;
    var chunks := ParseDescs(b, h.chunkCount);
    var spans := ParseSpans(b, spansAt, h.batchCount);
    var kept := ParseMembers(b, keptAt, h.keptCount);
    if h.prevRef == 0 {
      var ok := CheckWindow(h.version, h.prevVersion, kept, h.batchCount);
      if !ok {
        return Err(VersionGone);
      }
    }
    return Ok(Assemble(h, chunks, spans, kept));
  }

  /** Why bytes are refused: as another format exactly when a whole header is there and does
      not begin with the magic, and otherwise as a version that is gone. */
  lemma ParseErrors(b: seq<Byte>)
    requires Decode(b).Err?
    ensures Decode(b).error == if |b| >= 64 && Read(b, 0, 8) != MAGIC then BadMagic else VersionGone
  {
    hide Read, ReadDescs, ReadSpans, ReadMembers, WindowOk, HeaderOk;
  }
}
