/** Vertex layouts of framework/src/mesh.cpp and include/lith/mesh.h: vertex buffers, the
    attributes that read them, the builder that declares both, the pointer links a copy
    re-establishes and the item counts `upload` derives.  A pointer into the buffer or the
    attribute list is a position in that list, -1 standing for `nullptr`; the names OpenGL
    hands out are parameters. */
module Mesh {
  import opened Wrappers
  import Bytes

  const IntMax: int := 0x7fff_ffff
  const GlArrayBuffer: int := 0x8892
  const GlElementArrayBuffer: int := 0x8893

  datatype Topology = Triangles | TriangleStrip | TriangleFan | Lines | LineStrip | LineLoop | Points

  datatype AttributeType = AttributeFloat | AttributeInt

  /** The bytes of a buffer and the size of one item in them (`ByteVector`). */
  datatype ByteData = ByteData(raw: seq<Bytes.byte>, itemSize: int)

  function Count(d: ByteData): int
  {
    Bytes.ItemCount(|d.raw|, d.itemSize)
  }

  /** `VertexBuffer`: `target` is the GL binding point, `handle` 0 until uploaded. */
  datatype VertexBuffer = VertexBuffer(id: int, target: int, handle: int, data: ByteData,
                                       freeHostAfterUpload: bool,
                                       belongsToInstancedAttribute: bool,
                                       uploadedItemCount: int)

  /** `VertexArrayAttribute`: `buffer` is the cached link to the buffer it reads. */
  datatype VertexAttribute = VertexAttribute(id: int, bufferId: int, instanceStride: nat,
                                             offset: int, componentType: AttributeType,
                                             count: int, buffer: int, uploaded: bool)

  /** `VertexArrayData`: `indexBuffer` is the cached link to the index buffer. */
  datatype VertexArrayData = VertexArrayData(buffers: seq<VertexBuffer>,
                                             attributes: seq<VertexAttribute>,
                                             indexBuffer: int, topology: Topology)

  /** A buffer as `VertexBuffer()` leaves it, with the id and target the builder gives it. */
  function NewBuffer(id: int, target: int): VertexBuffer
  {
    VertexBuffer(id, target, 0, ByteData([], 0), false, false, 0)
  }

  /** The conversion of an `int` to `GLuint`. */
  function Unsigned32(x: int): (u: nat)
    ensures u < 0x1_0000_0000 && (0 <= x < 0x1_0000_0000 ==> u == x)
  {
    x % 0x1_0000_0000
  }

  /** The conversion of a `GLuint` back to `int`. */
  function Signed32(u: nat): int
  {
    if u < 0x8000_0000 then u else u - 0x1_0000_0000
  }

  /** `std::find_if` over the buffers by id: the first buffer with that id, or -1. */
  function FindBuffer(buffers: seq<VertexBuffer>, id: int): (r: int)
    ensures -1 <= r < |buffers|
    ensures r == -1 <==> forall i :: 0 <= i < |buffers| ==> buffers[i].id != id
    ensures r != -1 ==> buffers[r].id == id && forall i :: 0 <= i < r ==> buffers[i].id != id
  {
    if buffers == [] then -1
    else if buffers[0].id == id then 0
    else
      var r := FindBuffer(buffers[1..], id);
      assert forall i :: 1 <= i < |buffers| ==> buffers[i] == buffers[1..][i - 1];
      if r == -1 then -1 else r + 1
  }

  /** Buffers whose ids agree position by position are searched alike. */
  lemma FindBufferIds(a: seq<VertexBuffer>, b: seq<VertexBuffer>, id: int)
    requires |a| == |b| && forall i :: 0 <= i < |a| ==> a[i].id == b[i].id
    ensures FindBuffer(a, id) == FindBuffer(b, id)
  {
  }

  /** Appending a buffer does not move the first buffer with an id already present. */
  lemma FindBufferAppend(bs: seq<VertexBuffer>, b: VertexBuffer, id: int)
    requires FindBuffer(bs, id) != -1
    ensures FindBuffer(bs + [b], id) == FindBuffer(bs, id)
  {
    var r, r' := FindBuffer(bs, id), FindBuffer(bs + [b], id);
    assert (bs + [b])[r] == bs[r];
  }

  /** `getBuffer`: the cached index buffer for id -1 when there is one, otherwise the first
      buffer with the id. */
  function GetBuffer(d: VertexArrayData, bufferId: int): int
  {
    if d.indexBuffer != -1 && bufferId == -1 then d.indexBuffer
    else FindBuffer(d.buffers, bufferId)
  }

  /** The links that `cacheAttributeBufferLinks` leaves behind on a copy: each attribute
      and the index link point at the first buffer with the id they name. */
  predicate Linked(d: VertexArrayData)
  {
    d.indexBuffer == FindBuffer(d.buffers, -1) &&
    forall i :: 0 <= i < |d.attributes| ==>
      d.attributes[i].buffer == FindBuffer(d.buffers, d.attributes[i].bufferId)
  }

  /** Once the links are cached, `getBuffer` answers as a plain search of the buffers does:
      the first buffer with the id, or -1 when none has it. */
  lemma GetBufferLinked(d: VertexArrayData, bufferId: int)
    requires Linked(d)
    ensures GetBuffer(d, bufferId) == FindBuffer(d.buffers, bufferId)
    ensures GetBuffer(d, bufferId) == -1 <==> forall i :: 0 <= i < |d.buffers| ==> d.buffers[i].id != bufferId
  {
  }

  /** `hasIndexBuffer`: some buffer has id -1. */
  function HasIndexBuffer(d: VertexArrayData): (b: bool)
    ensures b <==> exists i :: 0 <= i < |d.buffers| && d.buffers[i].id == -1
  {
    FindBuffer(d.buffers, -1) != -1
  }

  function AnyInstanced(attributes: seq<VertexAttribute>): (b: bool)
    ensures b <==> exists i :: 0 <= i < |attributes| && attributes[i].instanceStride > 0
  {
    if attributes == [] then false
    else if attributes[0].instanceStride > 0 then true
    else
      assert forall i :: 1 <= i < |attributes| ==> attributes[i] == attributes[1..][i - 1];
      AnyInstanced(attributes[1..])
  }

  /** `hasInstancedAttribute`: some attribute has a positive instance stride. */
  function HasInstancedAttribute(d: VertexArrayData): (b: bool)
    ensures b <==> exists i :: 0 <= i < |d.attributes| && d.attributes[i].instanceStride > 0
  {
    AnyInstanced(d.attributes)
  }

  /** `cacheAttributeBufferLinks`: every attribute is linked to `getBuffer` of its buffer id,
      then the index link to `getBuffer(-1)`; nothing else changes. */
  method CacheAttributeBufferLinks(d0: VertexArrayData) returns (d: VertexArrayData)
    ensures d.buffers == d0.buffers && d.topology == d0.topology
    ensures |d.attributes| == |d0.attributes|
    ensures forall i :: 0 <= i < |d.attributes| ==>
      d.attributes[i] == d0.attributes[i].(buffer := GetBuffer(d0, d0.attributes[i].bufferId))
    ensures d.indexBuffer == GetBuffer(d0, -1)
  {
    var attributes := d0.attributes;
    var i := 0;
    while i < |attributes|
      invariant 0 <= i <= |attributes| == |d0.attributes|
      invariant forall k :: 0 <= k < i ==>
        attributes[k] == d0.attributes[k].(buffer := GetBuffer(d0, d0.attributes[k].bufferId))
      invariant forall k :: i <= k < |attributes| ==> attributes[k] == d0.attributes[k]
    {
      attributes := attributes[i := attributes[i].(buffer := GetBuffer(d0, attributes[i].bufferId))];
      i := i + 1;
    }
    d := d0.(attributes := attributes, indexBuffer := GetBuffer(d0, -1));
  }

  /** `copy_from`: the buffers, attributes and topology of `copy`, with every link re-pointed
      at the copy's own buffers: each attribute at the first buffer carrying its buffer id
      (or -1 when there is none), the index link at the first buffer with id -1. */
  method CopyFrom(copy: VertexArrayData) returns (d: VertexArrayData)
    ensures d.buffers == copy.buffers && d.topology == copy.topology
    ensures |d.attributes| == |copy.attributes|
    ensures forall i :: 0 <= i < |d.attributes| ==>
      d.attributes[i] == copy.attributes[i].(buffer := d.attributes[i].buffer)
    ensures Linked(d)
  {
    d := CacheAttributeBufferLinks(copy.(indexBuffer := -1));
  }

  /** Every attribute of `d` names a buffer that exists. */
  predicate Declared(d: VertexArrayData)
  {
    forall i :: 0 <= i < |d.attributes| ==> FindBuffer(d.buffers, d.attributes[i].bufferId) != -1
  }

  /** Every link of `d` can be followed: the pointers `upload` dereferences are never null. */
  predicate Resolved(d: VertexArrayData)
  {
    -1 <= d.indexBuffer < |d.buffers| &&
    forall i :: 0 <= i < |d.attributes| ==> 0 <= d.attributes[i].buffer < |d.buffers|
  }

  /** Linking data whose attributes name existing buffers leaves no null attribute link, and
      the index link is null exactly when there is no index buffer. */
  lemma LinkedResolved(d: VertexArrayData)
    requires Linked(d) && Declared(d)
    ensures Resolved(d)
    ensures d.indexBuffer == -1 <==> !HasIndexBuffer(d)
  {
  }

  // ----- the builder -----

  /** One call on a `VertexArrayBuilder`. */
  datatype Call =
    | TopologyCall(topology: Topology)
    | IndexCall
    | BufferCall(bufferId: int)
    | MapCall(bufferId: int)
    | AttributeCall(attributeId: int)
    | TypeCall(componentType: AttributeType, count: int)
    | HostCall
    | InstancedCall(stride: int)
    | DataCall(data: ByteData)

  /** The builder's fields: the data being built and the current buffer, attribute and
      instance stride. */
  datatype BuilderState = BuilderState(building: VertexArrayData, currentBuffer: int,
                                       currentAttribute: int, currentInstanceStride: int)

  /** A fresh builder. Its current pointers start out null. */
  const InitialBuilder: BuilderState :=
    BuilderState(VertexArrayData([], [], -1, Triangles), -1, -1, 0)

  /** The offset `attribute` gives a new attribute: 0 with no current attribute, otherwise
      just past the current one, whose components are 4 bytes each. */
  function NextOffset(attributes: seq<VertexAttribute>, current: int): int
  {
    if 0 <= current < |attributes| then attributes[current].offset + attributes[current].count * 4
    else 0
  }

  /** The state after replacing the current buffer by `b`. */
  function WithCurrentBuffer(s: BuilderState, b: VertexBuffer): BuilderState
    requires 0 <= s.currentBuffer < |s.building.buffers|
  {
    s.(building := s.building.(buffers := s.building.buffers[s.currentBuffer := b]))
  }

  /** One builder call, or None where the call dereferences a null current pointer. */
  function Step(s: BuilderState, c: Call): Option<BuilderState>
  {
    var d := s.building;
    var hasBuffer := 0 <= s.currentBuffer < |d.buffers|;
    match c
    case TopologyCall(t) => Some(s.(building := d.(topology := t)))
    case IndexCall =>
      Some(s.(building := d.(buffers := d.buffers + [NewBuffer(-1, GlElementArrayBuffer)]),
              currentBuffer := |d.buffers|))
    case BufferCall(id) =>
      Some(s.(building := d.(buffers := d.buffers + [NewBuffer(id, GlArrayBuffer)]),
              currentBuffer := |d.buffers|))
    case MapCall(id) =>
      Some(s.(currentBuffer := FindBuffer(d.buffers, id), currentAttribute := -1,
              currentInstanceStride := 0))
    case AttributeCall(id) =>
      if !hasBuffer then None
      else
        var a := VertexAttribute(id, d.buffers[s.currentBuffer].id,
                                 Unsigned32(s.currentInstanceStride),
                                 NextOffset(d.attributes, s.currentAttribute),
                                 AttributeFloat, 0, -1, false);
        Some(s.(building := d.(attributes := d.attributes + [a]),
                currentAttribute := |d.attributes|))
    case TypeCall(t, n) =>
      if !(0 <= s.currentAttribute < |d.attributes|) then None
      else
        var a := d.attributes[s.currentAttribute].(componentType := t, count := n);
        Some(s.(building := d.(attributes := d.attributes[s.currentAttribute := a])))
    case HostCall =>
      if !hasBuffer then None
      else Some(WithCurrentBuffer(s, d.buffers[s.currentBuffer].(freeHostAfterUpload := false)))
    case InstancedCall(stride) =>
      if !hasBuffer then None
      else
        var b := d.buffers[s.currentBuffer].(belongsToInstancedAttribute := true);
        Some(WithCurrentBuffer(s, b).(currentInstanceStride := stride))
    case DataCall(bytes) =>
      if !hasBuffer then None
      else Some(WithCurrentBuffer(s, d.buffers[s.currentBuffer].(data := bytes)))
  }

  /** The state after a chain of calls on a fresh builder, None once a call dereferences a
      null current pointer. */
  function Run(calls: seq<Call>): Option<BuilderState>
  {
    if calls == [] then Some(InitialBuilder)
    else
      match Run(calls[..|calls| - 1])
      case None => None
      case Some(s) => Step(s, calls[|calls| - 1])
  }

  /** What the builder keeps true: its current pointers are null or valid, the index link of
      the data being built is null, and every attribute names a buffer that exists. */
  predicate WellFormed(s: BuilderState)
  {
    -1 <= s.currentBuffer < |s.building.buffers| &&
    -1 <= s.currentAttribute < |s.building.attributes| &&
    s.building.indexBuffer == -1 &&
    Declared(s.building)
  }

  /** Every builder call keeps the builder well formed. */
  lemma StepWellFormed(s: BuilderState, c: Call)
    requires WellFormed(s) && Step(s, c).Some?
    ensures WellFormed(Step(s, c).value)
  {
    var d := s.building;
    var t := Step(s, c).value;
    match c
    case IndexCall =>
      forall i | 0 <= i < |d.attributes|
        ensures FindBuffer(t.building.buffers, d.attributes[i].bufferId) != -1
      {
        FindBufferAppend(d.buffers, NewBuffer(-1, GlElementArrayBuffer), d.attributes[i].bufferId);
      }
    case BufferCall(id) =>
      forall i | 0 <= i < |d.attributes|
        ensures FindBuffer(t.building.buffers, d.attributes[i].bufferId) != -1
      {
        FindBufferAppend(d.buffers, NewBuffer(id, GlArrayBuffer), d.attributes[i].bufferId);
      }
    case AttributeCall(id) =>
      var a := t.building.attributes;
      forall i | 0 <= i < |a| ensures FindBuffer(d.buffers, a[i].bufferId) != -1
      {
        if i < |d.attributes| { assert a[i] == d.attributes[i]; }
        else { assert a[i].bufferId == d.buffers[s.currentBuffer].id; }
      }
    case TypeCall(_, _) =>
      var a := t.building.attributes;
      assert forall i :: 0 <= i < |a| ==> a[i].bufferId == d.attributes[i].bufferId;
    case HostCall =>
      forall id { FindBufferIds(d.buffers, t.building.buffers, id); }
    case InstancedCall(_) =>
      forall id { FindBufferIds(d.buffers, t.building.buffers, id); }
    case DataCall(_) =>
      forall id { FindBufferIds(d.buffers, t.building.buffers, id); }
    case TopologyCall(_) =>
    case MapCall(_) =>
  }

  /** A chain of builder calls that succeeds leaves the builder well formed. */
  lemma {:induction false} RunWellFormed(calls: seq<Call>)
    requires Run(calls).Some?
    ensures WellFormed(Run(calls).value)
  {
    if calls != [] {
      var init := calls[..|calls| - 1];
      RunWellFormed(init);
      StepWellFormed(Run(init).value, calls[|calls| - 1]);
    }
  }

  /** The ids declared by the `index` and `buffer` calls of a chain, in order. */
  function DeclaredIds(calls: seq<Call>): seq<int>
  {
    if calls == [] then []
    else
      var last := calls[|calls| - 1];
      DeclaredIds(calls[..|calls| - 1]) +
        (if last.IndexCall? then [-1] else if last.BufferCall? then [last.bufferId] else [])
  }

  /** The buffers of a builder are exactly the ones its `index` and `buffer` calls declared,
      in call order, with their ids; an index buffer is bound as element array. */
  lemma {:induction false} RunBuffers(calls: seq<Call>)
    requires Run(calls).Some?
    ensures var bs := Run(calls).value.building.buffers;
      |bs| == |DeclaredIds(calls)| &&
      (forall i :: 0 <= i < |bs| ==> bs[i].id == DeclaredIds(calls)[i]) &&
      (forall i :: 0 <= i < |bs| && bs[i].target == GlElementArrayBuffer ==> bs[i].id == -1)
  {
    if calls != [] {
      var init := calls[..|calls| - 1];
      RunBuffers(init);
      StepBuffers(Run(init).value, calls[|calls| - 1]);
    }
  }

  /** One call keeps the id and binding target of every buffer, and `index` or `buffer`
      appends one. */
  lemma StepBuffers(s: BuilderState, c: Call)
    requires Step(s, c).Some?
    ensures var bs := s.building.buffers;
      var ts := Step(s, c).value.building.buffers;
      |ts| == |bs| + (if c.IndexCall? || c.BufferCall? then 1 else 0) &&
      (forall i :: 0 <= i < |bs| ==> ts[i].id == bs[i].id && ts[i].target == bs[i].target) &&
      (c.IndexCall? ==> ts[|bs|].id == -1 && ts[|bs|].target == GlElementArrayBuffer) &&
      (c.BufferCall? ==> ts[|bs|].id == c.bufferId && ts[|bs|].target == GlArrayBuffer)
  {
  }

  // ----- attribute layouts -----

  /** One `attribute(id).type(componentType, count)` pair of a layout. */
  datatype Layout = Layout(id: int, componentType: AttributeType, count: int)

  /** The calls declaring the attributes of `es`, one pair per attribute. */
  function Pairs(es: seq<Layout>): seq<Call>
  {
    if es == [] then []
    else
      var e := es[|es| - 1];
      Pairs(es[..|es| - 1]) + [AttributeCall(e.id), TypeCall(e.componentType, e.count)]
  }

  /** The bytes the attributes of `es` take, 4 per component. */
  function Footprint(es: seq<Layout>): int
  {
    if es == [] then 0 else Footprint(es[..|es| - 1]) + 4 * es[|es| - 1].count
  }

  /** The attributes a layout is expected to produce: each reads buffer `bufferId` with
      stride `stride`, starting where the previous ones end. */
  function Packed(es: seq<Layout>, bufferId: int, stride: nat): (r: seq<VertexAttribute>)
    ensures |r| == |es|
  {
    seq(|es|, k requires 0 <= k < |es| =>
      VertexAttribute(es[k].id, bufferId, stride, Footprint(es[..k]), es[k].componentType,
                      es[k].count, -1, false))
  }

  /** `t` is what declaring the attributes of `es` after `map` (and optionally `instanced`)
      on `s` gives. */
  predicate LaidOut(s: BuilderState, es: seq<Layout>, t: BuilderState)
    requires 0 <= s.currentBuffer < |s.building.buffers|
  {
    t.building.buffers == s.building.buffers &&
    t.building.topology == s.building.topology &&
    t.building.indexBuffer == s.building.indexBuffer &&
    t.building.attributes == s.building.attributes +
      Packed(es, s.building.buffers[s.currentBuffer].id, Unsigned32(s.currentInstanceStride)) &&
    t.currentBuffer == s.currentBuffer &&
    t.currentInstanceStride == s.currentInstanceStride &&
    t.currentAttribute == (if es == [] then -1 else |t.building.attributes| - 1)
  }

  lemma RunSnoc(x: seq<Call>, c: Call)
    ensures Run(x + [c]) == if Run(x).None? then None else Step(Run(x).value, c)
  {
    assert (x + [c])[..|x|] == x;
  }

  lemma RunSnoc2(x: seq<Call>, a: Call, b: Call)
    requires Run(x).Some? && Step(Run(x).value, a).Some?
    ensures Run(x + [a, b]) == Step(Step(Run(x).value, a).value, b)
  {
    RunSnoc(x, a);
    RunSnoc(x + [a], b);
    assert x + [a, b] == (x + [a]) + [b];
  }

  /** One more pair of calls extends a packed layout by one attribute. */
  lemma PackedStep(s: BuilderState, es: seq<Layout>, t: BuilderState)
    requires es != [] && 0 <= s.currentBuffer < |s.building.buffers|
    requires LaidOut(s, es[..|es| - 1], t)
    ensures Step(t, AttributeCall(es[|es| - 1].id)).Some?
    ensures var u := Step(t, AttributeCall(es[|es| - 1].id)).value;
      Step(u, TypeCall(es[|es| - 1].componentType, es[|es| - 1].count)).Some? &&
      LaidOut(s, es, Step(u, TypeCall(es[|es| - 1].componentType, es[|es| - 1].count)).value)
  {
    var n := |es| - 1;
    var init := es[..n];
    var id := s.building.buffers[s.currentBuffer].id;
    var stride := Unsigned32(s.currentInstanceStride);
    var before := s.building.attributes;
    assert t.building.attributes == before + Packed(init, id, stride);
    var off := NextOffset(t.building.attributes, t.currentAttribute);
    assert off == Footprint(init) by {
      if n > 0 {
        assert init[..n - 1] == es[..n - 1];
        assert t.building.attributes[t.currentAttribute] == Packed(init, id, stride)[n - 1];
        assert init[n - 1] == es[n - 1];
      }
    }
    var final := before + Packed(es, id, stride);
    var a := t.building.attributes + [VertexAttribute(es[n].id, id, stride, off, AttributeFloat, 0, -1, false)];
    var done := a[|a| - 1 := a[|a| - 1].(componentType := es[n].componentType, count := es[n].count)];
    assert done == final by {
      assert |done| == |final|;
      forall k | 0 <= k < |done| ensures done[k] == final[k]
      {
        if k < |before| {
        } else if k < |before| + n {
          assert es[..k - |before|] == init[..k - |before|];
        } else {
          assert es[..n] == init;
        }
      }
    }
  }

  /** After `map` (and optionally `instanced`), a run of `attribute(id).type(t, n)` pairs
      appends attributes that all read the current buffer with the current instance stride
      and lie one after another: each starts where the previous one's 4-byte components end,
      the first at offset 0. */
  lemma {:induction false} PackedRun(pre: seq<Call>, es: seq<Layout>)
    requires Run(pre).Some?
    requires Run(pre).value.currentAttribute == -1
    requires 0 <= Run(pre).value.currentBuffer < |Run(pre).value.building.buffers|
    ensures Run(pre + Pairs(es)).Some?
    ensures LaidOut(Run(pre).value, es, Run(pre + Pairs(es)).value)
  {
    var s := Run(pre).value;
    if es == [] {
      assert pre + Pairs(es) == pre;
      assert Packed(es, s.building.buffers[s.currentBuffer].id, Unsigned32(s.currentInstanceStride)) == [];
    } else {
      var n := |es| - 1;
      PackedRun(pre, es[..n]);
      var x := pre + Pairs(es[..n]);
      var t := Run(x).value;
      PackedStep(s, es, t);
      RunSnoc2(x, AttributeCall(es[n].id), TypeCall(es[n].componentType, es[n].count));
      assert pre + Pairs(es) == x + [AttributeCall(es[n].id), TypeCall(es[n].componentType, es[n].count)];
    }
  }

  /** `map(b)` followed by attribute pairs: the attributes read the first buffer with id `b`,
      are not instanced and are packed from offset 0. */
  lemma MapLayout(pre: seq<Call>, b: int, es: seq<Layout>)
    requires Run(pre).Some? && FindBuffer(Run(pre).value.building.buffers, b) != -1
    ensures Run(pre + [MapCall(b)] + Pairs(es)).Some?
    ensures Run(pre + [MapCall(b)] + Pairs(es)).value.building.attributes ==
      Run(pre).value.building.attributes + Packed(es, b, 0)
    ensures Run(pre + [MapCall(b)] + Pairs(es)).value.building.buffers == Run(pre).value.building.buffers
  {
    assert (pre + [MapCall(b)])[..|pre|] == pre;
    PackedRun(pre + [MapCall(b)], es);
  }

  /** `map(b).instanced(k)` followed by attribute pairs: the attributes read the first buffer
      with id `b` with instance stride `k` (as a `GLuint`), are packed from offset 0, and that
      buffer is flagged as instanced. */
  lemma InstancedLayout(pre: seq<Call>, b: int, k: int, es: seq<Layout>)
    requires Run(pre).Some? && FindBuffer(Run(pre).value.building.buffers, b) != -1
    ensures Run(pre + [MapCall(b), InstancedCall(k)] + Pairs(es)).Some?
    ensures var t := Run(pre + [MapCall(b), InstancedCall(k)] + Pairs(es)).value;
      t.building.attributes == Run(pre).value.building.attributes + Packed(es, b, Unsigned32(k)) &&
      |t.building.buffers| == |Run(pre).value.building.buffers| &&
      t.building.buffers[FindBuffer(Run(pre).value.building.buffers, b)].belongsToInstancedAttribute
  {
    var x := pre + [MapCall(b), InstancedCall(k)];
    assert x[..|pre| + 1] == pre + [MapCall(b)];
    assert (pre + [MapCall(b)])[..|pre|] == pre;
    PackedRun(x, es);
  }

  /** The builder calls of `TextMesh::create` in framework/src/text.cpp. */
  function TextMeshCalls(itemSize: int): seq<Call>
  {
    [TopologyCall(Triangles), BufferCall(0), DataCall(ByteData([], itemSize)), HostCall, MapCall(0)] +
    Pairs([Layout(0, AttributeFloat, 2), Layout(1, AttributeFloat, 2)])
  }

  /** The glyph mesh of framework/src/text.cpp: one host buffer 0 of `itemSize`-byte
      vertices, not flagged as instanced, read by attribute 0 at offset 0 and attribute 1
      at offset 8, two floats each. */
  lemma TextMeshLayout(itemSize: int)
    ensures Run(TextMeshCalls(itemSize)).Some?
    ensures Run(TextMeshCalls(itemSize)).value.building.attributes ==
      [VertexAttribute(0, 0, 0, 0, AttributeFloat, 2, -1, false),
       VertexAttribute(1, 0, 0, 8, AttributeFloat, 2, -1, false)]
    ensures Run(TextMeshCalls(itemSize)).value.building.buffers ==
      [NewBuffer(0, GlArrayBuffer).(data := ByteData([], itemSize))]
  {
    var c0, c1, c2, c3 := TopologyCall(Triangles), BufferCall(0), DataCall(ByteData([], itemSize)), HostCall;
    RunSnoc([], c0);
    assert [] + [c0] == [c0] && Run([c0]).Some?;
    RunSnoc([c0], c1);
    assert [c0] + [c1] == [c0, c1];
    var s1 := Run([c0, c1]).value;
    assert s1.building.buffers == [NewBuffer(0, GlArrayBuffer)] && s1.currentBuffer == 0;
    RunSnoc([c0, c1], c2);
    assert [c0, c1] + [c2] == [c0, c1, c2];
    RunSnoc([c0, c1, c2], c3);
    assert [c0, c1, c2] + [c3] == [c0, c1, c2, c3];
    var pre := [c0, c1, c2, c3];
    assert Run(pre).value.building.buffers == [NewBuffer(0, GlArrayBuffer).(data := ByteData([], itemSize))];
    var es := [Layout(0, AttributeFloat, 2), Layout(1, AttributeFloat, 2)];
    MapLayout(pre, 0, es);
    assert pre + [MapCall(0)] == [TopologyCall(Triangles), BufferCall(0),
                                  DataCall(ByteData([], itemSize)), HostCall, MapCall(0)];
    assert es[..1] == [Layout(0, AttributeFloat, 2)] && es[..0] == [];
    assert Footprint(es[..1]) == 8;
  }

  /** `VertexArrayBuilder`: the data being built and the current pointers. */
  class VertexArrayBuilder {
    var building: VertexArrayData
    var currentBuffer: int
    var currentAttribute: int
    var currentInstanceStride: int

    function State(): BuilderState
      reads this
    {
      BuilderState(building, currentBuffer, currentAttribute, currentInstanceStride)
    }

    constructor ()
      ensures State() == InitialBuilder && WellFormed(State())
    {
      building := InitialBuilder.building;
      currentBuffer, currentAttribute, currentInstanceStride := -1, -1, 0;
    }

    /** `topology(t)`. */
    method SetTopology(t: Topology)
      requires WellFormed(State())
      modifies this
      ensures Step(old(State()), TopologyCall(t)) == Some(State()) && WellFormed(State())
    {
      building := building.(topology := t);
    }

    /** `index()`: appends a buffer with id -1 bound as element array and makes it current. */
    method Index()
      requires WellFormed(State())
      modifies this
      ensures building.buffers == old(building.buffers) + [NewBuffer(-1, GlElementArrayBuffer)]
      ensures currentBuffer == |old(building.buffers)|
      ensures Step(old(State()), IndexCall) == Some(State()) && WellFormed(State())
    {
      StepWellFormed(State(), IndexCall);
      currentBuffer := |building.buffers|;
      building := building.(buffers := building.buffers + [NewBuffer(-1, GlElementArrayBuffer)]);
    }

    /** `buffer(id)`: appends a buffer with that id bound as vertex array and makes it
        current. */
    method Buffer(id: int)
      requires WellFormed(State())
      modifies this
      ensures building.buffers == old(building.buffers) + [NewBuffer(id, GlArrayBuffer)]
      ensures currentBuffer == |old(building.buffers)|
      ensures Step(old(State()), BufferCall(id)) == Some(State()) && WellFormed(State())
    {
      StepWellFormed(State(), BufferCall(id));
      currentBuffer := |building.buffers|;
      building := building.(buffers := building.buffers + [NewBuffer(id, GlArrayBuffer)]);
    }

    /** `map(id)`: the first buffer with that id becomes current (null when there is none);
        no attribute is current and the instance stride is back to 0. */
    method Map(id: int)
      requires WellFormed(State())
      modifies this
      ensures currentBuffer == FindBuffer(building.buffers, id)
      ensures currentAttribute == -1 && currentInstanceStride == 0
      ensures Step(old(State()), MapCall(id)) == Some(State()) && WellFormed(State())
    {
      currentBuffer, currentAttribute, currentInstanceStride := FindBuffer(building.buffers, id), -1, 0;
    }

    /** `attribute(id)`: appends an attribute reading the current buffer with the current
        instance stride, placed just past the current attribute, and makes it current. */
    method Attribute(id: int)
      requires WellFormed(State()) && 0 <= currentBuffer < |building.buffers|
      modifies this
      ensures Step(old(State()), AttributeCall(id)) == Some(State()) && WellFormed(State())
    {
      StepWellFormed(State(), AttributeCall(id));
      var a := VertexAttribute(id, building.buffers[currentBuffer].id, Unsigned32(currentInstanceStride),
                               NextOffset(building.attributes, currentAttribute),
                               AttributeFloat, 0, -1, false);
      currentAttribute := |building.attributes|;
      building := building.(attributes := building.attributes + [a]);
    }

    /** `type(t, n)`: sets the component type and count of the current attribute. */
    method Type(t: AttributeType, n: int)
      requires WellFormed(State()) && 0 <= currentAttribute < |building.attributes|
      modifies this
      ensures Step(old(State()), TypeCall(t, n)) == Some(State()) && WellFormed(State())
    {
      StepWellFormed(State(), TypeCall(t, n));
      var a := building.attributes[currentAttribute].(componentType := t, count := n);
      building := building.(attributes := building.attributes[currentAttribute := a]);
    }

    /** `host()`: the current buffer keeps its bytes after upload. */
    method Host()
      requires WellFormed(State()) && 0 <= currentBuffer < |building.buffers|
      modifies this
      ensures Step(old(State()), HostCall) == Some(State()) && WellFormed(State())
    {
      StepWellFormed(State(), HostCall);
      var b := building.buffers[currentBuffer].(freeHostAfterUpload := false);
      building := building.(buffers := building.buffers[currentBuffer := b]);
    }

    /** `instanced(stride)`: later attributes get this instance stride and the current buffer
        is flagged as instanced. */
    method Instanced(stride: int)
      requires WellFormed(State()) && 0 <= currentBuffer < |building.buffers|
      modifies this
      ensures Step(old(State()), InstancedCall(stride)) == Some(State()) && WellFormed(State())
    {
      StepWellFormed(State(), InstancedCall(stride));
      var b := building.buffers[currentBuffer].(belongsToInstancedAttribute := true);
      building := building.(buffers := building.buffers[currentBuffer := b]);
      currentInstanceStride := stride;
    }

    /** `data(itemSize)`: the current buffer gets an empty byte vector of that item size. */
    method Data(itemSize: int)
      requires WellFormed(State()) && 0 <= currentBuffer < |building.buffers|
      modifies this
      ensures Step(old(State()), DataCall(ByteData([], itemSize))) == Some(State())
      ensures WellFormed(State())
    {
      SetData(ByteData([], itemSize));
    }

    /** `data(itemSize, byteCount, bytes)`: the current buffer holds the first `byteCount`
        bytes, in items of `itemSize`. */
    method DataRaw(itemSize: int, byteCount: int, bytes: seq<Bytes.byte>)
      requires WellFormed(State()) && 0 <= currentBuffer < |building.buffers|
      requires 0 <= byteCount <= |bytes|
      modifies this
      ensures Step(old(State()), DataCall(ByteData(bytes[..byteCount], itemSize))) == Some(State())
      ensures WellFormed(State())
    {
      SetData(ByteData(bytes[..byteCount], itemSize));
    }

    /** `data(list)`: the current buffer holds the images of the list's values, each
        `size` bytes. */
    method DataItems(size: int, items: seq<seq<Bytes.byte>>)
      requires WellFormed(State()) && 0 <= currentBuffer < |building.buffers|
      modifies this
      ensures Step(old(State()), DataCall(ByteData(Bytes.Concat(items), size))) == Some(State())
      ensures WellFormed(State())
    {
      SetData(ByteData(Bytes.Concat(items), size));
    }

    method SetData(bytes: ByteData)
      requires WellFormed(State()) && 0 <= currentBuffer < |building.buffers|
      modifies this
      ensures Step(old(State()), DataCall(bytes)) == Some(State()) && WellFormed(State())
    {
      StepWellFormed(State(), DataCall(bytes));
      var b := building.buffers[currentBuffer].(data := bytes);
      building := building.(buffers := building.buffers[currentBuffer := b]);
    }

    /** `build()`: a vertex array over a copy of the data built so far, whose links can all
        be followed. */
    method Build() returns (va: VertexArray)
      requires WellFormed(State())
      ensures fresh(va) && va.Valid()
      ensures va.data.buffers == building.buffers && va.data.topology == building.topology
    {
      va := new VertexArray.FromData(building);
    }
  }

  // ----- upload -----

  /** A buffer after the buffer loop of `upload`: a buffer with no handle gets `name`, records
      its item count and drops its bytes when it does not keep them on the host; a buffer
      that has a handle and keeps its bytes records their count again. */
  function UploadedBuffer(b: VertexBuffer, name: int): VertexBuffer
  {
    if b.handle == 0 then
      var counted := b.(handle := name, uploadedItemCount := Count(b.data));
      if b.freeHostAfterUpload then counted.(data := b.data.(raw := [])) else counted
    else if !b.freeHostAfterUpload then b.(uploadedItemCount := Count(b.data))
    else b
  }

  /** Uploading a buffer twice changes nothing more than uploading it once, whatever name
      the second upload would have used; an uploaded host buffer counts its own items. */
  lemma UploadIdempotent(b: VertexBuffer, name: int, name': int)
    requires name != 0
    ensures UploadedBuffer(UploadedBuffer(b, name), name') == UploadedBuffer(b, name)
    ensures !b.freeHostAfterUpload ==>
      UploadedBuffer(b, name).uploadedItemCount == Count(UploadedBuffer(b, name).data)
  {
  }

  /** The buffer loop of `upload`, with `names[i]` the name the GL gives buffer `i`. */
  method UploadBuffers(buffers: seq<VertexBuffer>, names: seq<int>) returns (r: seq<VertexBuffer>)
    requires |names| == |buffers|
    ensures |r| == |buffers|
    ensures forall i :: 0 <= i < |r| ==> r[i] == UploadedBuffer(buffers[i], names[i])
  {
    r := buffers;
    var i := 0;
    while i < |r|
      invariant 0 <= i <= |r| == |buffers|
      invariant forall k :: 0 <= k < i ==> r[k] == UploadedBuffer(buffers[k], names[k])
      invariant forall k :: i <= k < |r| ==> r[k] == buffers[k]
    {
      r := r[i := UploadedBuffer(r[i], names[i])];
      i := i + 1;
    }
  }

  /** The vertices attribute `a` finds in its buffer: the buffer's uploaded item count. */
  function VertexItems(buffers: seq<VertexBuffer>, a: VertexAttribute): int
    requires 0 <= a.buffer < |buffers|
  {
    buffers[a.buffer].uploadedItemCount
  }

  /** The instances attribute `a` finds in its buffer: the buffer's item count divided by the
      stride, the division being on `GLuint`. */
  function InstanceItems(buffers: seq<VertexBuffer>, a: VertexAttribute): int
    requires 0 <= a.buffer < |buffers| && a.instanceStride > 0
  {
    Signed32(Unsigned32(Count(buffers[a.buffer].data)) / a.instanceStride)
  }

  /** `m` is the least of `start` and the items of the attributes that `instanced` selects. */
  predicate LeastItems(buffers: seq<VertexBuffer>, attributes: seq<VertexAttribute>,
                       instanced: bool, start: int, m: int)
    requires forall i :: 0 <= i < |attributes| ==> 0 <= attributes[i].buffer < |buffers|
  {
    m <= start &&
    (forall i :: 0 <= i < |attributes| && (attributes[i].instanceStride > 0) == instanced ==>
       m <= Items(buffers, attributes[i])) &&
    (m == start ||
     exists i :: 0 <= i < |attributes| && (attributes[i].instanceStride > 0) == instanced &&
       m == Items(buffers, attributes[i]))
  }

  function Items(buffers: seq<VertexBuffer>, a: VertexAttribute): int
    requires 0 <= a.buffer < |buffers|
  {
    if a.instanceStride == 0 then VertexItems(buffers, a) else InstanceItems(buffers, a)
  }

  /** The attribute loop of `upload`: every attribute is marked uploaded; with at least one
      attribute, the vertex count is the least uploaded item count of the buffers read by
      non-instanced attributes and the instance count the least item count per stride of the
      buffers read by instanced ones, `INT_MAX` when there are none; with no attribute both
      counts are left as they were. */
  method UploadAttributes(buffers: seq<VertexBuffer>, attributes: seq<VertexAttribute>,
                          vertexCount0: int, instanceCount0: int)
    returns (marked: seq<VertexAttribute>, vertexCount: int, instanceCount: int)
    requires forall i :: 0 <= i < |attributes| ==> 0 <= attributes[i].buffer < |buffers|
    ensures |marked| == |attributes|
    ensures forall i :: 0 <= i < |marked| ==> marked[i] == attributes[i].(uploaded := true)
    ensures attributes == [] ==> vertexCount == vertexCount0 && instanceCount == instanceCount0
    ensures attributes != [] ==> LeastItems(buffers, attributes, false, IntMax, vertexCount)
    ensures attributes != [] ==> LeastItems(buffers, attributes, true, IntMax, instanceCount)
  {
    vertexCount, instanceCount := vertexCount0, instanceCount0;
    if |attributes| > 0 {
      vertexCount, instanceCount := IntMax, IntMax;
    }
    marked := attributes;
    var i := 0;
    while i < |attributes|
      invariant 0 <= i <= |attributes| == |marked|
      invariant forall k :: 0 <= k < i ==> marked[k] == attributes[k].(uploaded := true)
      invariant forall k :: i <= k < |marked| ==> marked[k] == attributes[k]
      invariant attributes == [] ==> vertexCount == vertexCount0 && instanceCount == instanceCount0
      invariant attributes != [] ==> LeastItems(buffers, attributes[..i], false, IntMax, vertexCount)
      invariant attributes != [] ==> LeastItems(buffers, attributes[..i], true, IntMax, instanceCount)
    {
      var a := attributes[i];
      marked := marked[i := a.(uploaded := true)];
      if a.instanceStride == 0 {
        vertexCount := if VertexItems(buffers, a) < vertexCount then VertexItems(buffers, a) else vertexCount;
      } else {
        instanceCount := if InstanceItems(buffers, a) < instanceCount then InstanceItems(buffers, a) else instanceCount;
      }
      assert attributes[..i + 1] == attributes[..i] + [a];
      i := i + 1;
    }
    assert attributes[..i] == attributes;
  }

  /** A buffer after `clear` (`all`) or `clearInstances`: its bytes are dropped when it is
      cleared at all, keeping the item size. */
  function Emptied(b: VertexBuffer, all: bool): VertexBuffer
  {
    if all || b.belongsToInstancedAttribute then b.(data := b.data.(raw := [])) else b
  }

  /** `clear` leaves every buffer without items; `clearInstances` leaves exactly the buffers
      flagged as instanced without items and the others unchanged; clearing the instances
      first makes no difference to a later `clear`. */
  lemma EmptiedItems(b: VertexBuffer)
    ensures Count(Emptied(b, true).data) == 0
    ensures b.belongsToInstancedAttribute ==> Count(Emptied(b, false).data) == 0
    ensures !b.belongsToInstancedAttribute ==> Emptied(b, false) == b
    ensures Emptied(Emptied(b, false), true) == Emptied(b, true)
  {
  }

  /** The loops of `clear` (`all`) and `clearInstances`. */
  method ClearBuffers(buffers: seq<VertexBuffer>, all: bool) returns (r: seq<VertexBuffer>)
    ensures |r| == |buffers|
    ensures forall i :: 0 <= i < |r| ==> r[i] == Emptied(buffers[i], all)
  {
    r := buffers;
    var i := 0;
    while i < |r|
      invariant 0 <= i <= |r| == |buffers|
      invariant forall k :: 0 <= k < i ==> r[k] == Emptied(buffers[k], all)
      invariant forall k :: i <= k < |r| ==> r[k] == buffers[k]
    {
      if all || r[i].belongsToInstancedAttribute {
        r := r[i := r[i].(data := r[i].data.(raw := []))];
      }
      i := i + 1;
    }
  }

  /** `VertexArray`: its own copy of the data, the GL handle, the two flags computed at
      construction and the counts `upload` derives. */
  class VertexArray {
    var data: VertexArrayData
    var handle: int
    var hasInstancedAttribute: bool
    var hasIndexBuffer: bool
    var indexCount: int
    var vertexCount: int
    var instanceCount: int

    /** The links of the data can be followed. */
    predicate Valid()
      reads this
    {
      Resolved(data)
    }

    /** `VertexArray(data)`: a linked copy of `d`, the flags read from `d`, no handle and
        zero counts. */
    constructor FromData(d: VertexArrayData)
      requires Declared(d)
      ensures Valid() && Linked(data)
      ensures data.buffers == d.buffers && data.topology == d.topology
      ensures hasInstancedAttribute == HasInstancedAttribute(d)
      ensures hasIndexBuffer == HasIndexBuffer(d)
      ensures handle == 0 && indexCount == 0 && vertexCount == 0 && instanceCount == 0
    {
      var copy := CopyFrom(d);
      assert forall i :: 0 <= i < |copy.attributes| ==> copy.attributes[i].bufferId == d.attributes[i].bufferId;
      LinkedResolved(copy);
      data := copy;
      handle, indexCount, vertexCount, instanceCount := 0, 0, 0, 0;
      hasInstancedAttribute := HasInstancedAttribute(d);
      hasIndexBuffer := HasIndexBuffer(d);
    }

    /** `upload`: the array gets `arrayName` unless it has a handle; each buffer is uploaded
        with its name in `names`; the attributes are marked uploaded and the counts derived
        from them; the index count is the index buffer's uploaded item count when there is
        one. */
    method Upload(arrayName: int, names: seq<int>)
      requires Valid() && |names| == |data.buffers|
      modifies this
      ensures Valid() && |data.buffers| == |old(data.buffers)|
      ensures handle == if old(handle) == 0 then arrayName else old(handle)
      ensures forall i :: 0 <= i < |data.buffers| ==>
        data.buffers[i] == UploadedBuffer(old(data.buffers[i]), names[i])
      ensures data.indexBuffer == old(data.indexBuffer) && data.topology == old(data.topology)
      ensures |data.attributes| == |old(data.attributes)|
      ensures forall i :: 0 <= i < |data.attributes| ==>
        data.attributes[i] == old(data.attributes[i]).(uploaded := true)
      ensures old(data.attributes) == [] ==>
        vertexCount == old(vertexCount) && instanceCount == old(instanceCount)
      ensures old(data.attributes) != [] ==>
        LeastItems(data.buffers, data.attributes, false, IntMax, vertexCount) &&
        LeastItems(data.buffers, data.attributes, true, IntMax, instanceCount)
      ensures indexCount == if data.indexBuffer == -1 then old(indexCount)
                            else data.buffers[data.indexBuffer].uploadedItemCount
      ensures hasInstancedAttribute == old(hasInstancedAttribute)
      ensures hasIndexBuffer == old(hasIndexBuffer)
    {
      var h := if handle == 0 then arrayName else handle;
      var buffers := UploadBuffers(data.buffers, names);
      var marked, vc, ic := UploadAttributes(buffers, data.attributes, vertexCount, instanceCount);
      var ix := if data.indexBuffer == -1 then indexCount else buffers[data.indexBuffer].uploadedItemCount;
      SameItems(buffers, data.attributes, marked);
      handle, vertexCount, instanceCount, indexCount := h, vc, ic, ix;
      data := data.(buffers := buffers, attributes := marked);
    }

    /** `clear`: every buffer loses its bytes. */
    method Clear()
      modifies this
      ensures data == old(data).(buffers := data.buffers) && |data.buffers| == |old(data.buffers)|
      ensures forall i :: 0 <= i < |data.buffers| ==> data.buffers[i] == Emptied(old(data.buffers[i]), true)
      ensures handle == old(handle) && vertexCount == old(vertexCount)
      ensures instanceCount == old(instanceCount) && indexCount == old(indexCount)
    {
      var buffers := ClearBuffers(data.buffers, true);
      data := data.(buffers := buffers);
    }

    /** `clearInstances`: exactly the buffers flagged as instanced lose their bytes. */
    method ClearInstances()
      modifies this
      ensures data == old(data).(buffers := data.buffers) && |data.buffers| == |old(data.buffers)|
      ensures forall i :: 0 <= i < |data.buffers| ==> data.buffers[i] == Emptied(old(data.buffers[i]), false)
      ensures handle == old(handle) && vertexCount == old(vertexCount)
      ensures instanceCount == old(instanceCount) && indexCount == old(indexCount)
    {
      var buffers := ClearBuffers(data.buffers, false);
      data := data.(buffers := buffers);
    }

    /** `free`: the buffers and attributes are dropped and the handle is back to 0; the index
        link and the counts are left as they were. */
    method Free()
      modifies this
      ensures data == old(data).(buffers := [], attributes := []) && handle == 0
      ensures hasInstancedAttribute == old(hasInstancedAttribute) && hasIndexBuffer == old(hasIndexBuffer)
      ensures vertexCount == old(vertexCount) && instanceCount == old(instanceCount)
      ensures indexCount == old(indexCount)
    {
      data := data.(buffers := [], attributes := []);
      handle := 0;
    }
  }

  /** Marking attributes uploaded does not change the items they select. */
  lemma SameItems(buffers: seq<VertexBuffer>, attributes: seq<VertexAttribute>, marked: seq<VertexAttribute>)
    requires |marked| == |attributes|
    requires forall i :: 0 <= i < |attributes| ==> 0 <= attributes[i].buffer < |buffers|
    requires forall i :: 0 <= i < |marked| ==> marked[i] == attributes[i].(uploaded := true)
    ensures forall i :: 0 <= i < |marked| ==> 0 <= marked[i].buffer < |buffers|
    ensures forall instanced, start, m ::
      LeastItems(buffers, attributes, instanced, start, m) ==> LeastItems(buffers, marked, instanced, start, m)
  {
    forall instanced, start, m | LeastItems(buffers, attributes, instanced, start, m)
      ensures LeastItems(buffers, marked, instanced, start, m)
    {
      assert forall i :: 0 <= i < |marked| ==> Items(buffers, marked[i]) == Items(buffers, attributes[i]);
      if m != start {
        var i :| 0 <= i < |attributes| && (attributes[i].instanceStride > 0) == instanced &&
          m == Items(buffers, attributes[i]);
        assert (marked[i].instanceStride > 0) == instanced && m == Items(buffers, marked[i]);
      }
    }
  }
}
