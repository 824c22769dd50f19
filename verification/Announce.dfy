/** From the pool to the socket: every announcement of a bank is a message of the protocol, fits into
    one frame with its descriptors, and tells the receiver plane by plane what each slot is. */
module Announce {
  import opened Common
  import opened Arithmetic
  import opened Bytes
  import opened PoolSpec
  import opened WireSpec
  import opened Messages
  import opened MessageLayout
  import Framing

  const HOST_VISIBLE: nat := 1

  function Strides(ps: seq<Plane>): (s: seq<nat>)
    ensures |s| == |ps| && forall i :: 0 <= i < |ps| ==> s[i] == ps[i].stride
  {
    seq(|ps|, i requires 0 <= i < |ps| => ps[i].stride)
  }

  function Offsets(ps: seq<Plane>): (s: seq<nat>)
    ensures |s| == |ps| && forall i :: 0 <= i < |ps| ==> s[i] == ps[i].offset
  {
    seq(|ps|, i requires 0 <= i < |ps| => ps[i].offset)
  }

  function Sizes(ps: seq<Plane>): (s: seq<nat>)
    ensures |s| == |ps| && forall i :: 0 <= i < |ps| ==> s[i] == ps[i].size
  {
    seq(|ps|, i requires 0 <= i < |ps| => ps[i].size)
  }

  /** The message struct an announcement is sent as; its descriptors travel beside it. */
  function MessageOf(a: Announcement): BufferPool {
    BufferPool(a.generation, if a.hostVisible then HOST_VISIBLE else 0, a.count,
               a.format.fourcc, a.format.modifier, a.format.planeCount, a.extent.width, a.extent.height,
               Strides(a.entries), Offsets(a.entries), Sizes(a.entries))
  }

  /** The widths of the fields a backend fills in. */
  predicate PlaneInRange(p: Plane) { p.stride < U32_LIMIT && p.offset < U32_LIMIT && p.size < U64_LIMIT }

  predicate BankInRange(b: Bank) {
    && b.directive.format.fourcc < U32_LIMIT && b.extent.width < U32_LIMIT && b.extent.height < U32_LIMIT
    && forall i :: 0 <= i < |b.slots| ==> LayoutInRange(b.slots[i])
  }

  predicate LayoutInRange(l: Layout) {
    l.modifier < U64_LIMIT && forall j :: 0 <= j < |l.plane| ==> PlaneInRange(l.plane[j])
  }

  lemma {:induction false} FlatInRange(slots: seq<Layout>, planes: nat, count: nat)
    requires count <= |slots| && planes <= MAX_PLANES
    requires forall i :: 0 <= i < count ==> WellShaped(slots[i]) && LayoutInRange(slots[i])
    ensures forall k :: 0 <= k < |Flatten(slots, planes, count)| ==> PlaneInRange(Flatten(slots, planes, count)[k])
    decreases count
  {
    if count > 0 {
      FlatInRange(slots, planes, count - 1);
      assert WellShaped(slots[count - 1]) && LayoutInRange(slots[count - 1]);
    }
  }

  lemma {:induction false} ItemsSize(ty: Ty, vs: seq<Val>, size: nat)
    requires (ty == U32 && size == 4) || (ty == U64 && size == 8)
    requires forall i :: 0 <= i < |vs| ==> Typed(ty, vs[i])
    ensures |EncodeItems(ty, vs)| == size * |vs|
    decreases |vs|
  {
    if vs != [] { ItemsSize(ty, vs[1..], size); }
  }

  lemma {:induction false} FieldsSize(fields: seq<Ty>, vs: seq<Val>)
    requires fields != [] && |fields| == |vs| && forall i :: 0 <= i < |vs| ==> Typed(fields[i], vs[i])
    ensures forall i :: 0 <= i < |vs| - 1 ==> Typed(fields[1..][i], vs[1..][i])
    ensures |EncodeFields(fields, vs)| == |Encode(fields[0], vs[0])| + |EncodeFields(fields[1..], vs[1..])|
  {
  }

  /** A `bind_buffers` message takes 52 bytes and sixteen for each plane. */
  lemma MessageSize(m: BufferPool)
    requires BufferPoolInRange(m) && |m.strides| == |m.offsets| == |m.sizes|
    ensures Typed(BUFFER_POOL, OfBufferPool(m)) && |Encode(BUFFER_POOL, OfBufferPool(m))| == 52 + 16 * |m.strides|
  {
    hide Fine, EncodeItems, EncodeFields, Numbers, BufferPoolInRange;
    BufferPoolTyped(m);
    var f, v := BUFFER_POOL.fields, OfBufferPool(m).vs;
    ArraySizes(m);
    SmallRecords(m);
    HeadSize(f, v);
  }

  lemma ArraySizes(m: BufferPool)
    requires BufferPoolInRange(m)
    ensures Typed(List(U32), Numbers(m.strides)) && |Encode(List(U32), Numbers(m.strides))| == 4 + 4 * |m.strides|
    ensures Typed(List(U32), Numbers(m.offsets)) && |Encode(List(U32), Numbers(m.offsets))| == 4 + 4 * |m.offsets|
    ensures Typed(List(U64), Numbers(m.sizes)) && |Encode(List(U64), Numbers(m.sizes))| == 4 + 8 * |m.sizes|
  {
    hide EncodeItems;
    BufferPoolArrays(m);
    ItemsSize(U32, Numbers(m.strides).vs, 4);
    ItemsSize(U32, Numbers(m.offsets).vs, 4);
    ItemsSize(U64, Numbers(m.sizes).vs, 8);
  }

  lemma BufferPoolTyped(m: BufferPool)
    requires BufferPoolInRange(m)
    ensures Typed(BUFFER_POOL, OfBufferPool(m))
  {
    BufferPoolFine(m);
  }

  lemma SmallRecords(m: BufferPool)
    requires BufferPoolInRange(m)
    ensures var v := Vals([Num(m.fourcc), Num(m.modifier), Num(m.planes)]);
            Typed(BUFFER_FORMAT, v) && |Encode(BUFFER_FORMAT, v)| == 16
    ensures var v := Vals([Num(m.width), Num(m.height)]);
            Typed(EXTENT, v) && |Encode(EXTENT, v)| == 8
  {
    var f, v := BUFFER_FORMAT.fields, [Num(m.fourcc), Num(m.modifier), Num(m.planes)];
    FormatFine(m.fourcc, m.modifier, m.planes);
    ExtentFine(m.width, m.height);
    FieldsSize(f, v);
    FieldsSize(f[1..], v[1..]);
    FieldsSize(f[2..], v[2..]);
    var g, w := EXTENT.fields, [Num(m.width), Num(m.height)];
    FieldsSize(g, w);
    FieldsSize(g[1..], w[1..]);
  }

  lemma HeadSize(f: seq<Ty>, v: seq<Val>)
    requires |f| == |v| == 8 && forall i :: 0 <= i < 8 ==> Typed(f[i], v[i])
    ensures |EncodeFields(f, v)| ==
            |Encode(f[0], v[0])| + |Encode(f[1], v[1])| + |Encode(f[2], v[2])| + |Encode(f[3], v[3])|
            + |Encode(f[4], v[4])| + |Encode(f[5], v[5])| + |Encode(f[6], v[6])| + |Encode(f[7], v[7])|
  {
    hide Encode, Typed, EncodeFields;
    FourMore(f, v);
    FourMore(f[4..], v[4..]);
    assert f[4..][4..] == [] && v[4..][4..] == [];
    NoFields();
  }

  lemma NoFields()
    ensures EncodeFields([], []) == []
  {
  }

  lemma FourMore(f: seq<Ty>, v: seq<Val>)
    requires |f| == |v| >= 4 && forall i :: 0 <= i < |v| ==> Typed(f[i], v[i])
    ensures forall i :: 0 <= i < |v| - 4 ==> Typed(f[4..][i], v[4..][i])
    ensures |EncodeFields(f, v)| ==
            |Encode(f[0], v[0])| + |Encode(f[1], v[1])| + |Encode(f[2], v[2])| + |Encode(f[3], v[3])|
            + |EncodeFields(f[4..], v[4..])|
  {
    hide Encode, Typed, EncodeFields;
    FieldsSize(f, v);
    FieldsSize(f[1..], v[1..]);
    assert f[1..][1..] == f[2..] && v[1..][1..] == v[2..];
    FieldsSize(f[2..], v[2..]);
    assert f[2..][1..] == f[3..] && v[2..][1..] == v[3..];
    FieldsSize(f[3..], v[3..]);
    assert f[3..][1..] == f[4..] && v[3..][1..] == v[4..];
  }

  /** Entry `at` of every array of a received message, and the descriptor beside it, are those of a plane. */
  predicate Tells(m: BufferPool, fds: seq<int>, at: nat, p: Plane) {
    && at < |m.strides| == |m.offsets| == |m.sizes| == |fds|
    && m.strides[at] == p.stride && m.offsets[at] == p.offset && m.sizes[at] == p.size && fds[at] == p.fd
  }

  function Fds(ps: seq<Plane>): (s: seq<int>)
    ensures |s| == |ps| && forall i :: 0 <= i < |ps| ==> s[i] == ps[i].fd
  {
    seq(|ps|, i requires 0 <= i < |ps| => ps[i].fd)
  }

  /** The bytes are those of the message an announcement is sent as. */
  predicate IsSent(a: Announcement, bytes: seq<byte>) {
    Typed(BUFFER_POOL, OfBufferPool(MessageOf(a))) && bytes == Encode(BUFFER_POOL, OfBufferPool(MessageOf(a)))
  }

  /** What a receiver makes of the bytes of a message. */
  function ReceivedAs(bytes: seq<byte>): (m: BufferPool) {
    match DecodeMessage(BUFFER_POOL, bytes)
    case Got(v, _) => ToBufferPool(v)
    case Bad(_) => BufferPool(0, 0, 0, 0, 0, 0, 0, 0, [], [], [])
  }

  lemma AnnouncedInRange(b: Bank, generation: nat)
    requires BankShape(b) && UniformPlanes(b) && BankInRange(b) && generation < U64_LIMIT
    ensures
      var m := MessageOf(Describe(b, generation));
      && BufferPoolInRange(m) && |m.strides| == |m.offsets| == |m.sizes| == b.count * b.slots[0].planes <= 32
  {
    hide Flatten;
    var planes := b.slots[0].planes;
    FlattenLength(b.slots, planes, b.count);
    FlatInRange(b.slots, planes, b.count);
    MulMono(b.count, MAX_SLOTS, planes);
    assert LayoutInRange(b.slots[0]);
  }

  /** The head of a received message is that of the bank. */
  predicate IsBank(m: BufferPool, b: Bank, generation: nat)
    requires BankShape(b)
  {
    && m.generation == generation && m.count == b.count && m.width == b.extent.width && m.height == b.extent.height
    && m.fourcc == b.directive.format.fourcc && m.modifier == b.slots[0].modifier && m.planes == b.slots[0].planes
    && m.flags == (if b.directive.source == GpuLinear || b.directive.source == DmabufHeap then 1 else 0)
    && |m.strides| == b.count * b.slots[0].planes
  }

  /** What a received message and the descriptors beside it say at `s * planes + pl` is plane `pl` of slot `s`. */
  predicate TellsPlane(m: BufferPool, fds: seq<int>, b: Bank, s: nat, pl: nat)
    requires BankShape(b) && UniformPlanes(b) && s < b.count && pl < b.slots[0].planes
  {
    assert b.slots[s].planes == b.slots[0].planes && WellShaped(b.slots[s]);
    Tells(m, fds, At(s, b.slots[0].planes, pl), b.slots[s].plane[pl])
  }

  function At(s: nat, planes: nat, pl: nat): (at: nat)
    ensures at == s * planes + pl
  {
    s * planes + pl
  }

  /** The announcement of any bank is a message that fits into one frame with its descriptors. */
  lemma AnnouncementFits(b: Bank, generation: nat) returns (bytes: seq<byte>)
    requires BankShape(b) && UniformPlanes(b) && BankInRange(b) && generation < U64_LIMIT
    ensures IsSent(Describe(b, generation), bytes) && |bytes| <= Framing.MAX_BODY
    ensures |Fds(Describe(b, generation).entries)| <= Framing.MAX_FDS
  {
    hide Encode, Typed, Flatten, OfBufferPool, BankShape, UniformPlanes;
    AnnouncedInRange(b, generation);
    var m := MessageOf(Describe(b, generation));
    hide BufferPoolInRange;
    MessageSize(m);
    bytes := Encode(BUFFER_POOL, OfBufferPool(m));
  }

  /** What a receiver reads of its bytes is the bank: generation, count, format, extent, whether the host can see the
      buffers, and of every plane of every slot stride, offset, size and descriptor. */
  lemma AnnouncementTravels(b: Bank, generation: nat, bytes: seq<byte>, s: nat, pl: nat)
    requires BankShape(b) && UniformPlanes(b) && BankInRange(b) && generation < U64_LIMIT
    requires IsSent(Describe(b, generation), bytes) && s < b.count && pl < b.slots[0].planes
    ensures IsBank(ReceivedAs(bytes), b, generation)
    ensures TellsPlane(ReceivedAs(bytes), Fds(Describe(b, generation).entries), b, s, pl)
  {
    hide Encode, Typed, Flatten, DecodeMessage, ToBufferPool, OfBufferPool;
    FlattenAt(b.slots, b.slots[0].planes, b.count, s, pl);
    AnnouncedInRange(b, generation);
    hide BufferPoolInRange;
    BufferPoolTravels(MessageOf(Describe(b, generation)));
  }
}
