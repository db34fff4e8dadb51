/** The packets of the data path and the discriminant rule of the enum codec. */
module Packets {
  import opened Common
  import opened Wire

  datatype FecInfo = FecInfo(batchSize: nat, batchPos: nat, recoveryCount: nat)

  datatype DataPacket = DataPacket(
    version: nat, opts: nat, packetType: nat, batchId: nat, fec: FecInfo,
    sessionId: nat, timestamp: nat, byteRangeStart: nat, payload: seq<byte>)

  datatype RetransmitPacket = RetransmitPacket(
    version: nat, opts: nat, packetType: nat, control: Control, bufferId: Option<nat>,
    sessionId: nat, timestamp: nat, payload: seq<ByteRange>)

  const DATA_HEADER: seq<FieldType> :=
    [Int(2), Int(2), Code(PACKET_TYPES), Int(2), Int(1), Int(1), Int(1), Int(8), Int(8), Int(4)]

  const RETRANSMIT_HEADER: seq<FieldType> :=
    [Int(2), Int(2), Code(PACKET_TYPES), ControlCode, BufferId, Int(8), Int(8)]

  /** Most ranges one request carries: whole strides within the payload limit. */
  const MAX_RANGES: nat := (CHUNK - CHUNK % 6) / STRIDE

  function DataHeader(p: DataPacket): seq<Field> {
    [Num(p.version), Num(p.opts), Num(p.packetType), Num(p.batchId),
     Num(p.fec.batchSize), Num(p.fec.batchPos), Num(p.fec.recoveryCount),
     Num(p.sessionId), Num(p.timestamp), Num(p.byteRangeStart)]
  }

  function RetransmitHeader(p: RetransmitPacket): seq<Field> {
    [Num(p.version), Num(p.opts), Num(p.packetType), Ctl(p.control), Id(p.bufferId),
     Num(p.sessionId), Num(p.timestamp)]
  }

  ghost predicate DataOk(p: DataPacket) { AllTyped(DATA_HEADER, DataHeader(p)) }

  ghost predicate RetransmitOk(p: RetransmitPacket) {
    AllTyped(RETRANSMIT_HEADER, RetransmitHeader(p)) && RangesOk(p.payload)
  }

  function SerializeData(p: DataPacket): seq<byte>
    requires DataOk(p)
  {
    assert AllTyped(DATA_HEADER + [Bytes], DataHeader(p) + [Raw(p.payload)]);
    Encode(DATA_HEADER + [Bytes], DataHeader(p) + [Raw(p.payload)])
  }

  function DeserializeData(bytes: seq<byte>): Option<DataPacket> {
    match Decode(DATA_HEADER + [Bytes], bytes)
    case None => None
    case Some(f) =>
      assert forall k :: 0 <= k < |f| ==> Typed((DATA_HEADER + [Bytes])[k], f[k]);
      Some(DataPacket(f[0].n, f[1].n, f[2].n, f[3].n, FecInfo(f[4].n, f[5].n, f[6].n), f[7].n, f[8].n, f[9].n,
        f[10].bytes))
  }

  function SerializeRetransmit(p: RetransmitPacket): seq<byte>
    requires RetransmitOk(p)
  {
    assert AllTyped(RETRANSMIT_HEADER + [RangeList], RetransmitHeader(p) + [Ranges(p.payload)]);
    Encode(RETRANSMIT_HEADER + [RangeList], RetransmitHeader(p) + [Ranges(p.payload)])
  }

  function DeserializeRetransmit(bytes: seq<byte>): Option<RetransmitPacket> {
    match Decode(RETRANSMIT_HEADER + [RangeList], bytes)
    case None => None
    case Some(f) =>
      assert forall k :: 0 <= k < |f| ==> Typed((RETRANSMIT_HEADER + [RangeList])[k], f[k]);
      Some(RetransmitPacket(f[0].n, f[1].n, f[2].n, f[3].control, f[4].id, f[5].n, f[6].n, f[7].ranges))
  }

  /** A data packet survives the wire; its bytes are its headers and then its payload. */
  lemma DataPacketRoundTrip(p: DataPacket)
    requires DataOk(p)
    ensures DeserializeData(SerializeData(p)) == Some(p)
    ensures SerializeData(p) == Encode(DATA_HEADER, DataHeader(p)) + p.payload
    ensures |SerializeData(p)| == SizeAll(DATA_HEADER, DataHeader(p)) + |p.payload|
  {
    StructRoundTrip(DATA_HEADER, DataHeader(p), Bytes, Raw(p.payload));
  }

  /** A retransmit packet survives the wire exactly when it asks for something. */
  lemma RetransmitPacketRoundTrip(p: RetransmitPacket)
    requires RetransmitOk(p)
    ensures DeserializeRetransmit(SerializeRetransmit(p)) == if p.payload == [] then None else Some(p)
    ensures SerializeRetransmit(p) == Encode(RETRANSMIT_HEADER, RetransmitHeader(p)) + EncodeRanges(p.payload)
    ensures |SerializeRetransmit(p)| == SizeAll(RETRANSMIT_HEADER, RetransmitHeader(p)) + |p.payload| * STRIDE
  {
    if p.payload != [] {
      StructRoundTrip(RETRANSMIT_HEADER, RetransmitHeader(p), RangeList, Ranges(p.payload));
    } else {
      EmptyRequestLost(p);
    }
  }

  lemma EmptyRequestLost(p: RetransmitPacket)
    requires RetransmitOk(p) && p.payload == []
    ensures DeserializeRetransmit(SerializeRetransmit(p)) == None
    ensures SerializeRetransmit(p) == Encode(RETRANSMIT_HEADER, RetransmitHeader(p)) + EncodeRanges(p.payload)
    ensures |SerializeRetransmit(p)| == SizeAll(RETRANSMIT_HEADER, RetransmitHeader(p)) + |p.payload| * STRIDE
  {
    EncodeAppend(RETRANSMIT_HEADER, RetransmitHeader(p), RangeList, Ranges([]));
    DecodePrefix(RETRANSMIT_HEADER, RetransmitHeader(p), [RangeList], []);
  }

  /** The thirty header bytes of a data packet, field by field. */
  lemma DataLayout(p: DataPacket)
    requires DataOk(p)
    ensures
      var bytes := Encode(DATA_HEADER, DataHeader(p));
      && |bytes| == 30
      && bytes[0..2] == EncodeInt(p.version, 2) && bytes[2..4] == EncodeInt(p.opts, 2)
      && bytes[4..5] == EncodeInt(p.packetType, 1) && bytes[5..7] == EncodeInt(p.batchId, 2)
      && bytes[7..8] == EncodeInt(p.fec.batchSize, 1) && bytes[8..9] == EncodeInt(p.fec.batchPos, 1)
      && bytes[9..10] == EncodeInt(p.fec.recoveryCount, 1)
      && bytes[10..18] == EncodeInt(p.sessionId, 8) && bytes[18..26] == EncodeInt(p.timestamp, 8)
      && bytes[26..30] == EncodeInt(p.byteRangeStart, 4)
  {
    DataFieldLies(p, 0);
    DataFieldLies(p, 1);
    DataFieldLies(p, 2);
    DataFieldLies(p, 3);
    DataFieldLies(p, 4);
    DataFieldLies(p, 5);
    DataFieldLies(p, 6);
    DataFieldLies(p, 7);
    DataFieldLies(p, 8);
    DataFieldLies(p, 9);
  }

  /** Where the fields of the headers start, and how long each header is. */
  const DATA_OFFSETS: seq<nat> := [0, 2, 4, 5, 7, 8, 9, 10, 18, 26, 30]
  const RETRANSMIT_OFFSETS: seq<nat> := [0, 2, 4, 5, 6, 8, 16, 24]

  lemma DataFieldLies(p: DataPacket, k: nat)
    requires DataOk(p) && k < 10
    ensures |Encode(DATA_HEADER, DataHeader(p))| == 30 && DATA_OFFSETS[k] <= DATA_OFFSETS[k + 1] <= 30
    ensures Encode(DATA_HEADER, DataHeader(p))[DATA_OFFSETS[k]..DATA_OFFSETS[k + 1]] ==
            EncodeField(DATA_HEADER[k], DataHeader(p)[k])
  {
    FieldLies(DATA_HEADER, DataHeader(p), DATA_OFFSETS, k);
  }

  /** The twenty-four header bytes of a retransmit request, field by field. */
  lemma RetransmitLayout(p: RetransmitPacket)
    requires RetransmitOk(p)
    ensures
      var bytes := Encode(RETRANSMIT_HEADER, RetransmitHeader(p));
      && |bytes| == 24
      && bytes[0..2] == EncodeInt(p.version, 2) && bytes[2..4] == EncodeInt(p.opts, 2)
      && bytes[4..5] == EncodeInt(p.packetType, 1) && bytes[5..6] == EncodeInt(p.control.code, 1)
      && bytes[6..8] == EncodeInt(if p.bufferId.Some? then p.bufferId.value else 0, 2)
      && bytes[8..16] == EncodeInt(p.sessionId, 8) && bytes[16..24] == EncodeInt(p.timestamp, 8)
  {
    RetransmitFieldLies(p, 0);
    RetransmitFieldLies(p, 1);
    RetransmitFieldLies(p, 2);
    RetransmitFieldLies(p, 3);
    RetransmitFieldLies(p, 4);
    RetransmitFieldLies(p, 5);
    RetransmitFieldLies(p, 6);
  }

  lemma RetransmitFieldLies(p: RetransmitPacket, k: nat)
    requires RetransmitOk(p) && k < 7
    ensures |Encode(RETRANSMIT_HEADER, RetransmitHeader(p))| == 24
    ensures RETRANSMIT_OFFSETS[k] <= RETRANSMIT_OFFSETS[k + 1] <= 24
    ensures Encode(RETRANSMIT_HEADER, RetransmitHeader(p))[RETRANSMIT_OFFSETS[k]..RETRANSMIT_OFFSETS[k + 1]] ==
            EncodeField(RETRANSMIT_HEADER[k], RetransmitHeader(p)[k])
  {
    FieldLies(RETRANSMIT_HEADER, RetransmitHeader(p), RETRANSMIT_OFFSETS, k);
  }

  // ------------------------------------------------------- enum discriminants

  /** The variants of an enum in order, each with its explicit discriminant if it has one. */
  type EnumDecl = seq<Option<nat>>

  /** The discriminant the language gives variant `k`: its own, or one more than the previous. */
  function Discriminant(decl: EnumDecl, k: nat): nat
    requires k < |decl|
  {
    if decl[k].Some? then decl[k].value
    else if k == 0 then 0
    else Discriminant(decl, k - 1) + 1
  }

  /** The value the codec compares with for variant `k`: the last explicit one plus a counter stuck at one. */
  function CodecValue(decl: EnumDecl, k: nat): nat
    requires k < |decl|
  {
    if decl[k].Some? then decl[k].value
    else match LastExplicit(decl, k)
      case None => 0
      case Some(e) => e + 1
  }

  function LastExplicit(decl: EnumDecl, k: nat): Option<nat>
    requires k <= |decl|
  {
    if k == 0 then None
    else if decl[k - 1].Some? then decl[k - 1]
    else LastExplicit(decl, k - 1)
  }

  /** The first variant whose codec value is `n`, trying from variant `k`. */
  function DecodeVariant(decl: EnumDecl, n: nat, k: nat): (r: Option<nat>)
    requires k <= |decl|
    ensures r.Some? ==> k <= r.value < |decl| && CodecValue(decl, r.value) == n
    ensures r.Some? ==> forall j :: k <= j < r.value ==> CodecValue(decl, j) != n
    ensures r.None? ==> forall j :: k <= j < |decl| ==> CodecValue(decl, j) != n
    decreases |decl| - k
  {
    if k == |decl| then None
    else if CodecValue(decl, k) == n then Some(k)
    else DecodeVariant(decl, n, k + 1)
  }

  /** Variant `i` is the last explicit one before `k`, and the discriminants run on from it. */
  ghost predicate RunsFrom(decl: EnumDecl, i: nat, k: nat) {
    && i < k < |decl|
    && decl[i].Some? && decl[i] == LastExplicit(decl, k)
    && (forall j :: i < j <= k ==> decl[j].None?)
    && Discriminant(decl, k) == decl[i].value + (k - i)
    && Discriminant(decl, i + 1) == decl[i].value + 1
  }

  /** How far the language's discriminant has run on from the last explicit one. */
  lemma {:induction false} DiscriminantRun(decl: EnumDecl, k: nat)
    requires k < |decl| && decl[k].None?
    ensures LastExplicit(decl, k).None? ==> Discriminant(decl, k) == k
    ensures LastExplicit(decl, k).Some? ==> exists i: nat :: RunsFrom(decl, i, k)
  {
    if k == 0 {
    } else {
      if decl[k - 1].Some? {
        assert RunsFrom(decl, k - 1, k);
      } else {
        DiscriminantRun(decl, k - 1);
        if LastExplicit(decl, k).Some? {
          var i: nat :| RunsFrom(decl, i, k - 1);
          assert RunsFrom(decl, i, k);
        }
      }
    }
  }

  /** Before a variant the codec handles well, no other variant claims its discriminant. */
  lemma NoEarlierMatch(decl: EnumDecl, j: nat, k: nat)
    requires j < k < |decl|
    requires forall i, l :: 0 <= i < l < |decl| ==> Discriminant(decl, i) != Discriminant(decl, l)
    requires decl[k].Some? || decl[k - 1].Some?
    ensures CodecValue(decl, j) != Discriminant(decl, k)
  {
    assert Discriminant(decl, j) != Discriminant(decl, k);
    if decl[j].None? {
      DiscriminantRun(decl, j);
      if LastExplicit(decl, j).Some? {
        var i: nat :| RunsFrom(decl, i, j);
        assert Discriminant(decl, i + 1) != Discriminant(decl, k);
      } else {
        assert Discriminant(decl, 0) != Discriminant(decl, k);
        FirstIsZero(decl, j);
      }
    }
  }

  lemma {:induction false} FirstIsZero(decl: EnumDecl, j: nat)
    requires j < |decl| && decl[j].None? && LastExplicit(decl, j).None?
    ensures Discriminant(decl, 0) == 0
  {
    if j == 0 {
    } else {
      FirstIsZero(decl, j - 1);
    }
  }

  /**
   * A variant survives the codec exactly when it has an explicit discriminant,
   * comes first, or directly follows an explicit one.
   */
  lemma EnumRoundTripIff(decl: EnumDecl, k: nat)
    requires k < |decl|
    requires forall i, j :: 0 <= i < j < |decl| ==> Discriminant(decl, i) != Discriminant(decl, j)
    ensures DecodeVariant(decl, Discriminant(decl, k), 0) == Some(k) <==>
              decl[k].Some? || k == 0 || decl[k - 1].Some?
  {
    if decl[k].None? {
      DiscriminantRun(decl, k);
    }
    if decl[k].Some? || k == 0 || decl[k - 1].Some? {
      assert CodecValue(decl, k) == Discriminant(decl, k);
      forall j | 0 <= j < k ensures CodecValue(decl, j) != Discriminant(decl, k) {
        NoEarlierMatch(decl, j, k);
      }
    }
  }

  /** The error enum: its third variant is written as 3 and read back as nothing. */
  lemma SessionDoesNotExistIsLost()
    ensures
      var decl: EnumDecl := [Some(1), None, None];
      Discriminant(decl, 2) == 3 && DecodeVariant(decl, 3, 0) == None
  {
    var decl: EnumDecl := [Some(1), None, None];
    assert Discriminant(decl, 1) == 2;
    assert LastExplicit(decl, 1) == Some(1) && LastExplicit(decl, 2) == Some(1);
    assert DecodeVariant(decl, 3, 3) == None;
    assert DecodeVariant(decl, 3, 2) == None;
    assert DecodeVariant(decl, 3, 1) == None;
  }
}
