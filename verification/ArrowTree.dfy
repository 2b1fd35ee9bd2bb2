/** Arrow columns as trees, their flattening into a pre-order node table and a buffer
    list, and the schema-driven walk that rebuilds them (crates/shm-arrow/src/write.rs,
    plan_node, and crates/shm-arrow/src/read.rs, build_node). */
module ArrowTree {
  import opened Common
  import opened Bytes

  datatype Error = Layout | BadMagic | SchemaMismatch | Unsupported | ChunkTooSmall | PoolExhausted

  /** `Exotic` stands for the dictionary, union, map and run-end-encoded types. */
  datatype DataType =
    | Flat(kind: nat)
    | Struct(fields: Types)
    | List(item: DataType)
    | LargeList(item: DataType)
    | FixedSizeList(item: DataType, size: nat)
    | Exotic(kind: nat)

  datatype Types = NoTypes | Types(first: DataType, others: Types)

  /** One normalized array: its own buffers, and its child arrays. */
  datatype Column = Column(
    dt: DataType, len: nat, nullCount: nat, validity: Option<seq<Byte>>, buffers: seq<seq<Byte>>, children: Forest)

  datatype Forest = NoTrees | Trees(root: Column, siblings: Forest)

  datatype NodeEntry = NodeEntry(
    len: nat, nullCount: nat, hasValidity: nat, dataBuffers: nat, childCount: nat, pad: nat)

  /** The child types of a nested type, in field order. */
  function ChildTypes(dt: DataType): (r: Types)
    ensures Weights(r) <= Weight(dt)
  {
    match dt
    case Struct(fields) => fields
    case List(item) => Types(item, NoTypes)
    case LargeList(item) => Types(item, NoTypes)
    case FixedSizeList(item, _) => Types(item, NoTypes)
    case _ => NoTypes
  }

  function Arity(ts: Types): nat {
    match ts
    case NoTypes => 0
    case Types(_, others) => 1 + Arity(others)
  }

  function Count(f: Forest): nat {
    match f
    case NoTrees => 0
    case Trees(_, siblings) => 1 + Count(siblings)
  }

  function Weight(dt: DataType): nat {
    match dt
    case Struct(fields) => 1 + Weights(fields)
    case List(item) => 2 + Weight(item)
    case LargeList(item) => 2 + Weight(item)
    case FixedSizeList(item, _) => 2 + Weight(item)
    case _ => 1
  }

  function Weights(ts: Types): nat {
    match ts
    case NoTypes => 0
    case Types(first, others) => 1 + Weight(first) + Weights(others)
  }

  /** The arrays have the types of the schema, at every depth. */
  predicate WellTyped(f: Forest, ts: Types) {
    match f
    case NoTrees => ts.NoTypes?
    case Trees(c, siblings) =>
      && ts.Types? && c.dt == ts.first
      && WellTyped(c.children, ChildTypes(c.dt))
      && WellTyped(siblings, ts.others)
  }

  lemma {:induction false} TypedCount(f: Forest, ts: Types)
    requires WellTyped(f, ts)
    ensures Count(f) == Arity(ts)
  {
    if f.Trees? {
      TypedCount(f.siblings, ts.others);
    }
  }

  // ---- Flattening ----

  function EntryOf(c: Column): NodeEntry {
    NodeEntry(c.len, c.nullCount, if c.validity.Some? then 1 else 0, |c.buffers|, Count(c.children), 0)
  }

  /** Validity first, then the data buffers. */
  function OwnBuffers(c: Column): seq<seq<Byte>> {
    match c.validity
    case None => c.buffers
    case Some(v) => [v] + c.buffers
  }

  function Nodes(f: Forest): seq<NodeEntry> {
    match f
    case NoTrees => []
    case Trees(c, siblings) => [EntryOf(c)] + Nodes(c.children) + Nodes(siblings)
  }

  function Buffers(f: Forest): seq<seq<Byte>> {
    match f
    case NoTrees => []
    case Trees(c, siblings) => OwnBuffers(c) + Buffers(c.children) + Buffers(siblings)
  }

  /** What the planner accepts: supported types, and counts that fit 32 bits. */
  predicate Plannable(f: Forest) {
    match f
    case NoTrees => true
    case Trees(c, siblings) =>
      && !c.dt.Exotic?
      && c.len <= U32_MAX && c.nullCount <= U32_MAX && |c.buffers| <= U32_MAX && Count(c.children) <= U32_MAX
      && Plannable(c.children) && Plannable(siblings)
  }

  /** No dictionary, union, map or run-end-encoded type at any depth. */
  predicate Supported(ts: Types)
    decreases Weights(ts)
  {
    match ts
    case NoTypes => true
    case Types(first, others) => !first.Exotic? && Supported(ChildTypes(first)) && Supported(others)
  }

  predicate Countable(e: NodeEntry) {
    e.len <= U32_MAX && e.nullCount <= U32_MAX && e.dataBuffers <= U32_MAX && e.childCount <= U32_MAX
  }

  /** The planner refuses a well-typed forest only for an unsupported type in its schema, or
      a count of some array, at any depth, that does not fit its node entry. */
  lemma {:induction false} PlannableIff(f: Forest, ts: Types)
    requires WellTyped(f, ts)
    ensures Plannable(f) <==> Supported(ts) && forall i :: 0 <= i < |Nodes(f)| ==> Countable(Nodes(f)[i])
  {
    if f.Trees? {
      var c := f.root;
      PlannableIff(c.children, ChildTypes(c.dt));
      PlannableIff(f.siblings, ts.others);
      hide Plannable, Supported, Nodes, Countable;
      OneAndRest([EntryOf(c)], Nodes(c.children), Nodes(f.siblings));
      PlanStep(f, ts);
    }
  }

  lemma OneAndRest(a: seq<NodeEntry>, b: seq<NodeEntry>, c: seq<NodeEntry>)
    ensures var all := a + b + c;
            (forall i :: 0 <= i < |all| ==> Countable(all[i])) <==>
            && (forall i :: 0 <= i < |a| ==> Countable(a[i]))
            && (forall i :: 0 <= i < |b| ==> Countable(b[i]))
            && (forall i :: 0 <= i < |c| ==> Countable(c[i]))
  {
    hide Countable;
    var all := a + b + c;
    assert forall i :: 0 <= i < |a| ==> all[i] == a[i];
    assert forall i :: 0 <= i < |b| ==> all[|a| + i] == b[i];
    assert forall i :: 0 <= i < |c| ==> all[|a| + |b| + i] == c[i];
  }

  lemma PlanStep(f: Forest, ts: Types)
    requires f.Trees? && WellTyped(f, ts)
    ensures Nodes(f) == [EntryOf(f.root)] + Nodes(f.root.children) + Nodes(f.siblings)
    ensures Supported(ts) <==> !f.root.dt.Exotic? && Supported(ChildTypes(f.root.dt)) && Supported(ts.others)
    ensures Plannable(f) <==>
              !f.root.dt.Exotic? && Countable([EntryOf(f.root)][0]) && Plannable(f.root.children) && Plannable(f.siblings)
  {
  }

  method PlanForest(f: Forest, nodes: seq<NodeEntry>, buffers: seq<seq<Byte>>)
    returns (r: Result<(seq<NodeEntry>, seq<seq<Byte>>), Error>)
    ensures r == if Plannable(f) then Ok((nodes + Nodes(f), buffers + Buffers(f))) else Err(Unsupported)
    decreases f
  {
    if f.NoTrees? {
      Unit(nodes);
      Unit(buffers);
      return Ok((nodes, buffers));
    }
    var c := f.root;
    if c.dt.Exotic? || c.len > U32_MAX || c.nullCount > U32_MAX || |c.buffers| > U32_MAX || Count(c.children) > U32_MAX {
      return Err(Unsupported);
    }
    var ns, bs := nodes + [EntryOf(c)], buffers;
    if c.validity.Some? {
      bs := bs + [c.validity.value];
    }
    for i := 0 to |c.buffers|
      invariant bs == buffers + (if c.validity.Some? then [c.validity.value] else []) + c.buffers[..i]
    {
      bs := bs + [c.buffers[i]];
    }
    assert bs == buffers + OwnBuffers(c);
    var kids := PlanForest(c.children, ns, bs);
    if kids.Err? {
      return kids;
    }
    r := PlanForest(f.siblings, kids.value.0, kids.value.1);
    Assoc4(nodes, [EntryOf(c)], Nodes(c.children), Nodes(f.siblings));
    Assoc4(buffers, OwnBuffers(c), Buffers(c.children), Buffers(f.siblings));
  }

  lemma Assoc4<T>(a: seq<T>, b: seq<T>, c: seq<T>, d: seq<T>)
    ensures a + b + c + d == a + (b + c + d)
  {
  }

  // ---- Rebuilding ----

  /** The n elements from `from` on. */
  function Run<T>(s: seq<T>, from: nat, n: nat): (r: seq<T>)
    requires from + n <= |s|
    ensures |r| == n
  {
    seq(n, i requires 0 <= i < n => s[from + i])
  }

  /** The lockstep walk over the schema, the node table and the buffers: the forest, and
      both cursors after it. */
  function Build(ts: Types, nodes: seq<NodeEntry>, ni: nat, bytes: seq<seq<Byte>>, bi: nat)
    : (r: Result<(Forest, nat, nat), Error>)
    requires bi <= |bytes|
    ensures r.Ok? ==> r.value.2 <= |bytes|
    decreases Weights(ts)
  {
    match ts
    case NoTypes => Ok((NoTrees, ni, bi))
    case Types(dt, others) =>
      if ni >= |nodes| then Err(Layout)
      else
        var e := nodes[ni];
        var v := if e.hasValidity != 0 then 1 else 0;
        if bi + v + e.dataBuffers > |bytes| || Arity(ChildTypes(dt)) != e.childCount then Err(Layout)
        else
          var kids := Build(ChildTypes(dt), nodes, ni + 1, bytes, bi + v + e.dataBuffers);
          if kids.Err? then Err(kids.error)
          else
            var rest := Build(others, nodes, kids.value.1, bytes, kids.value.2);
            if rest.Err? then Err(rest.error)
            else
              var c := Column(dt, e.len, e.nullCount, if v == 1 then Some(bytes[bi]) else None,
                              Run(bytes, bi + v, e.dataBuffers), kids.value.0);
              Ok((Trees(c, rest.value.0), rest.value.1, rest.value.2))
  }

  method BuildForest(ts: Types, nodes: seq<NodeEntry>, ni0: nat, bytes: seq<seq<Byte>>, bi0: nat)
    returns (r: Result<(Forest, nat, nat), Error>)
    requires bi0 <= |bytes|
    ensures r == Build(ts, nodes, ni0, bytes, bi0)
    decreases Weights(ts)
  {
    if ts.NoTypes? {
      return Ok((NoTrees, ni0, bi0));
    }
    var dt := ts.first;
    if ni0 >= |nodes| {
      return Err(Layout);
    }
    var e := nodes[ni0];
    var bi := bi0;
    var validity, buffers := None, [];
    if e.hasValidity != 0 {
      if bi >= |bytes| {
        return Err(Layout);
      }
      validity := Some(bytes[bi]);
      bi := bi + 1;
    }
    ghost var from := bi;
    for i := 0 to e.dataBuffers
      invariant bi == from + i && from + i <= |bytes|
      invariant buffers == Run(bytes, from, i)
    {
      if bi >= |bytes| {
        return Err(Layout);
      }
      buffers := buffers + [bytes[bi]];
      bi := bi + 1;
    }
    if Arity(ChildTypes(dt)) != e.childCount {
      return Err(Layout);
    }
    var kids := BuildForest(ChildTypes(dt), nodes, ni0 + 1, bytes, bi);
    if kids.Err? {
      return kids;
    }
    var rest := BuildForest(ts.others, nodes, kids.value.1, bytes, kids.value.2);
    if rest.Err? {
      return rest;
    }
    var c := Column(dt, e.len, e.nullCount, validity, buffers, kids.value.0);
    return Ok((Trees(c, rest.value.0), rest.value.1, rest.value.2));
  }

  lemma OwnBuffersRead(c: Column, bytes: seq<seq<Byte>>, bi: nat)
    requires Has(bytes, bi, OwnBuffers(c))
    ensures var v := if c.validity.Some? then 1 else 0;
            && bi + v + |c.buffers| <= |bytes| && Run(bytes, bi + v, |c.buffers|) == c.buffers
            && (c.validity.Some? ==> bytes[bi] == c.validity.value)
  {
    if c.validity.Some? {
      HasConcat(bytes, bi, [c.validity.value], c.buffers);
      assert bytes[bi + 0] == [c.validity.value][0];
    }
  }

  /** The tables of a forest are its first array's entry and buffers, then its children's,
      then its siblings'. */
  lemma FirstNodes(f: Forest, nodes: seq<NodeEntry>, ni: nat)
    requires f.Trees? && Has(nodes, ni, Nodes(f))
    ensures var (c, n) := (f.root, |Nodes(f.root.children)|);
            && |Nodes(f)| == 1 + n + |Nodes(f.siblings)|
            && ni < |nodes| && nodes[ni] == EntryOf(c)
            && Has(nodes, ni + 1, Nodes(c.children)) && Has(nodes, ni + 1 + n, Nodes(f.siblings))
  {
    var c := f.root;
    hide Has, EntryOf;
    HasConcat(nodes, ni, [EntryOf(c)] + Nodes(c.children), Nodes(f.siblings));
    HasConcat(nodes, ni, [EntryOf(c)], Nodes(c.children));
    HasOne(nodes, ni, EntryOf(c));
  }

  lemma FirstBuffers(f: Forest, bytes: seq<seq<Byte>>, bi: nat)
    requires f.Trees? && Has(bytes, bi, Buffers(f))
    ensures var (c, b) := (f.root, |Buffers(f.root.children)|);
            && |Buffers(f)| == |OwnBuffers(c)| + b + |Buffers(f.siblings)|
            && Has(bytes, bi, OwnBuffers(c)) && Has(bytes, bi + |OwnBuffers(c)|, Buffers(c.children))
            && Has(bytes, bi + |OwnBuffers(c)| + b, Buffers(f.siblings))
  {
    var c := f.root;
    hide Has, OwnBuffers;
    HasConcat(bytes, bi, OwnBuffers(c) + Buffers(c.children), Buffers(f.siblings));
    HasConcat(bytes, bi, OwnBuffers(c), Buffers(c.children));
  }

  lemma NothingBuilt(nodes: seq<NodeEntry>, ni: nat, bytes: seq<seq<Byte>>, bi: nat)
    requires Has(bytes, bi, Buffers(NoTrees))
    ensures bi <= |bytes| && Nodes(NoTrees) == [] && Buffers(NoTrees) == []
    ensures Build(NoTypes, nodes, ni, bytes, bi) == Ok((NoTrees, ni, bi))
  {
  }

  /** One step of the walk, given what it makes of the children and the siblings. */
  lemma BuildStep(ts: Types, nodes: seq<NodeEntry>, ni: nat, bytes: seq<seq<Byte>>, bi: nat, f: Forest,
                  n1: nat, b1: nat, n2: nat, b2: nat)
    requires ts.Types? && f.Trees? && f.root.dt == ts.first
    requires ni < |nodes| && nodes[ni] == EntryOf(f.root) && Count(f.root.children) == Arity(ChildTypes(ts.first))
    requires Has(bytes, bi, OwnBuffers(f.root))
    requires Build(ChildTypes(ts.first), nodes, ni + 1, bytes, bi + |OwnBuffers(f.root)|) == Ok((f.root.children, n1, b1))
    requires b1 <= |bytes| && Build(ts.others, nodes, n1, bytes, b1) == Ok((f.siblings, n2, b2))
    ensures Build(ts, nodes, ni, bytes, bi) == Ok((f, n2, b2))
  {
    hide Has, Run, Arity, Count, ChildTypes;
    OwnBuffersRead(f.root, bytes, bi);
  }

  /** The walk undoes the flattening, wherever in the tables the forest's entries stand. */
  lemma {:induction false} BuildInverts(f: Forest, ts: Types, nodes: seq<NodeEntry>, ni: nat, bytes: seq<seq<Byte>>, bi: nat)
    requires WellTyped(f, ts)
    requires Has(nodes, ni, Nodes(f)) && Has(bytes, bi, Buffers(f))
    ensures bi <= |bytes|
    ensures Build(ts, nodes, ni, bytes, bi) == Ok((f, ni + |Nodes(f)|, bi + |Buffers(f)|))
    decreases f
  {
    hide Has, Run, Nodes, Buffers, Build, OwnBuffers, EntryOf, Arity, Count, ChildTypes;
    if f.NoTrees? {
      NothingBuilt(nodes, ni, bytes, bi);
      return;
    }
    var c := f.root;
    FirstNodes(f, nodes, ni);
    FirstBuffers(f, bytes, bi);
    TypedCount(c.children, ChildTypes(c.dt));
    BuildInverts(c.children, ChildTypes(c.dt), nodes, ni + 1, bytes, bi + |OwnBuffers(c)|);
    BuildInverts(f.siblings, ts.others, nodes, ni + 1 + |Nodes(c.children)|, bytes,
                 bi + |OwnBuffers(c)| + |Buffers(c.children)|);
    BuildStep(ts, nodes, ni, bytes, bi, f, ni + 1 + |Nodes(c.children)|, bi + |OwnBuffers(c)| + |Buffers(c.children)|,
              ni + |Nodes(f)|, bi + |Buffers(f)|);
  }

  lemma NothingWalked(nodes: seq<NodeEntry>, ni: nat, bytes: seq<seq<Byte>>, bi: nat)
    requires bi <= |bytes|
    ensures Build(NoTypes, nodes, ni, bytes, bi) == Ok((NoTrees, ni, bi)) && Has(bytes, bi, Buffers(NoTrees))
  {
  }

  /** What one step of the walk put together, and from what. */
  lemma Walked(ts: Types, nodes: seq<NodeEntry>, ni: nat, bytes: seq<seq<Byte>>, bi: nat)
    requires ts.Types? && bi <= |bytes| && Build(ts, nodes, ni, bytes, bi).Ok?
    ensures var (f, n2, b2) := Build(ts, nodes, ni, bytes, bi).value;
            && f.Trees? && f.root.dt == ts.first && Has(bytes, bi, OwnBuffers(f.root))
            && bi + |OwnBuffers(f.root)| <= |bytes|
            && var kids := Build(ChildTypes(ts.first), nodes, ni + 1, bytes, bi + |OwnBuffers(f.root)|);
               && kids.Ok? && kids.value.0 == f.root.children
               && Build(ts.others, nodes, kids.value.1, bytes, kids.value.2) == Ok((f.siblings, n2, b2))
  {
    hide Arity, ChildTypes;
    var c := Build(ts, nodes, ni, bytes, bi).value.0.root;
    if c.validity.Some? {
      HasConcat(bytes, bi, [c.validity.value], c.buffers);
    }
  }

  /** Whatever the tables hold, a forest that comes out is well typed, and the walk has
      used one node entry per array and one buffer per array buffer, in order. */
  lemma {:induction false} BuildSound(ts: Types, nodes: seq<NodeEntry>, ni: nat, bytes: seq<seq<Byte>>, bi: nat)
    requires bi <= |bytes| && Build(ts, nodes, ni, bytes, bi).Ok?
    ensures var (f, n2, b2) := Build(ts, nodes, ni, bytes, bi).value;
            WellTyped(f, ts) && n2 == ni + |Nodes(f)| && b2 == bi + |Buffers(f)| && Has(bytes, bi, Buffers(f))
    decreases Weights(ts)
  {
    hide Has, Build, OwnBuffers, EntryOf;
    if ts.NoTypes? {
      NothingWalked(nodes, ni, bytes, bi);
      return;
    }
    Walked(ts, nodes, ni, bytes, bi);
    var f := Build(ts, nodes, ni, bytes, bi).value.0;
    var own, inner := OwnBuffers(f.root), Buffers(f.root.children);
    var kids := Build(ChildTypes(ts.first), nodes, ni + 1, bytes, bi + |own|).value;
    BuildSound(ChildTypes(ts.first), nodes, ni + 1, bytes, bi + |own|);
    BuildSound(ts.others, nodes, kids.1, bytes, kids.2);
    HasConcat(bytes, bi, own, inner);
    HasConcat(bytes, bi, own + inner, Buffers(f.siblings));
  }
}
