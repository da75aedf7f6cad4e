/**
 The snapshot schema of an IPMI interface (`vmstate_IPMIInterface`).

 The schema is a versioned, ordered list of field descriptors over the
 interface record. The byte encoding belongs to the migration framework and
 is not modelled; what is modelled is which values a snapshot captures, in
 which order, and that those values determine the listed fields exactly.
 */
module Snapshot {
  import opened IpmiTypes
  import opened IpmiInterface

  /** The fields of the interface record a descriptor may name. */
  datatype FieldName =
    | ObfIrqSet | AtnIrqSet | UseIrq | IrqsEnabled | OutPos | OutLen | InMsg | InLen | WriteEnd

  /**
   How a field is saved: a `bool`, a `uint32_t`, or a variable-size byte
   buffer whose length is taken from another `uint32_t` field and whose
   first byte is at offset `start`.
   */
  datatype FieldKind = Bool | Uint32 | VBufferUint32(start: nat, sizeField: FieldName)

  /** One entry of the field list; `version` is the first schema version that has it. */
  datatype FieldDesc = FieldDesc(name: FieldName, kind: FieldKind, version: nat)

  datatype VmStateDescription = VmStateDescription(versionId: nat, minimumVersionId: nat, fields: seq<FieldDesc>)

  /** `vmstate_IPMIInterface`: eight fields, version 1. */
  const InterfaceSchema := VmStateDescription(1, 1, [
    FieldDesc(ObfIrqSet, Bool, 0),
    FieldDesc(AtnIrqSet, Bool, 0),
    FieldDesc(UseIrq, Bool, 0),
    FieldDesc(IrqsEnabled, Bool, 0),
    FieldDesc(OutPos, Uint32, 0),
    FieldDesc(OutLen, Uint32, 0),
    FieldDesc(InMsg, VBufferUint32(0, InLen), 1),
    FieldDesc(WriteEnd, Bool, 0)
  ])

  /** A captured field value. */
  datatype Value = BoolValue(b: bool) | Uint32Value(n: uint32) | BytesValue(bytes: seq<uint8>)

  function BoolOf(s: InterfaceState, name: FieldName): Option<bool> {
    match name
    case ObfIrqSet => Some(s.obfIrqSet)
    case AtnIrqSet => Some(s.atnIrqSet)
    case UseIrq => Some(s.useIrq)
    case IrqsEnabled => Some(s.irqsEnabled)
    case WriteEnd => Some(s.writeEnd)
    case _ => None
  }

  function Uint32Of(s: InterfaceState, name: FieldName): Option<uint32> {
    match name
    case OutPos => Some(s.outPos)
    case OutLen => Some(s.outLen)
    case InLen => Some(s.inLen)
    case _ => None
  }

  function BufferOf(s: InterfaceState, name: FieldName): Option<seq<uint8>> {
    match name
    case InMsg => Some(s.inMsg)
    case _ => None
  }

  /**
   The value one descriptor captures from `s`, or `None` when the descriptor
   does not fit the record: a field of another type, a size field that is
   not a `uint32_t`, or a buffer too short for the size the size field gives.
   */
  function Read(s: InterfaceState, f: FieldDesc): (r: Option<Value>)
    ensures f.kind == Bool ==>
              r == (if BoolOf(s, f.name).Some? then Some(BoolValue(BoolOf(s, f.name).value)) else None)
    ensures f.kind == Uint32 ==>
              r == (if Uint32Of(s, f.name).Some? then Some(Uint32Value(Uint32Of(s, f.name).value)) else None)
    ensures f.kind.VBufferUint32? ==>
              (r.Some? <==> && BufferOf(s, f.name).Some?
                            && Uint32Of(s, f.kind.sizeField).Some?
                            && f.kind.start + Uint32Of(s, f.kind.sizeField).value <= |BufferOf(s, f.name).value|)
    ensures r.Some? && f.kind.VBufferUint32? ==>
              var buf := BufferOf(s, f.name).value;
              var size := Uint32Of(s, f.kind.sizeField).value;
              r.value == BytesValue(buf[f.kind.start..f.kind.start + size])
  {
    match f.kind
    case Bool =>
      (match BoolOf(s, f.name)
       case Some(b) => Some(BoolValue(b))
       case None => None)
    case Uint32 =>
      (match Uint32Of(s, f.name)
       case Some(n) => Some(Uint32Value(n))
       case None => None)
    case VBufferUint32(start, sizeField) =>
      (match (BufferOf(s, f.name), Uint32Of(s, sizeField))
       case (Some(buf), Some(size)) =>
         if start + size <= |buf| then Some(BytesValue(buf[start..start + size])) else None
       case _ => None)
  }

  /** The values a field list captures, in list order, or `None` if some entry does not fit. */
  function Capture(s: InterfaceState, fields: seq<FieldDesc>): (r: Option<seq<Value>>)
    ensures r.Some? ==> |r.value| == |fields|
    ensures r.Some? <==> forall i :: 0 <= i < |fields| ==> Read(s, fields[i]).Some?
    ensures r.Some? ==> forall i :: 0 <= i < |fields| ==> r.value[i] == Read(s, fields[i]).value
  {
    if fields == [] then Some([])
    else match (Read(s, fields[0]), Capture(s, fields[1..]))
      case (Some(v), Some(vs)) => Some([v] + vs)
      case _ => None
  }

  /** The interface record's own invariant on its inbound buffer. */
  predicate BufferFits(s: InterfaceState) {
    s.inLen <= |s.inMsg|
  }

  /**
   Two states agree on everything the schema lists: the four flags, the two
   cursors, the valid part of the inbound message, and the write-end flag.
   */
  predicate SnapshotAgree(s: InterfaceState, t: InterfaceState)
    requires BufferFits(s) && BufferFits(t)
  {
    && s.obfIrqSet == t.obfIrqSet
    && s.atnIrqSet == t.atnIrqSet
    && s.useIrq == t.useIrq
    && s.irqsEnabled == t.irqsEnabled
    && s.outPos == t.outPos
    && s.outLen == t.outLen
    && s.inMsg[..s.inLen] == t.inMsg[..t.inLen]
    && s.writeEnd == t.writeEnd
  }

  /** What each entry of the schema reads from an interface whose buffer holds `inLen` bytes. */
  lemma SchemaReads(s: InterfaceState)
    requires BufferFits(s)
    ensures Read(s, InterfaceSchema.fields[0]) == Some(BoolValue(s.obfIrqSet))
    ensures Read(s, InterfaceSchema.fields[1]) == Some(BoolValue(s.atnIrqSet))
    ensures Read(s, InterfaceSchema.fields[2]) == Some(BoolValue(s.useIrq))
    ensures Read(s, InterfaceSchema.fields[3]) == Some(BoolValue(s.irqsEnabled))
    ensures Read(s, InterfaceSchema.fields[4]) == Some(Uint32Value(s.outPos))
    ensures Read(s, InterfaceSchema.fields[5]) == Some(Uint32Value(s.outLen))
    ensures Read(s, InterfaceSchema.fields[6]) == Some(BytesValue(s.inMsg[..s.inLen]))
    ensures Read(s, InterfaceSchema.fields[7]) == Some(BoolValue(s.writeEnd))
  {
    var fs := InterfaceSchema.fields;
    assert fs[6] == FieldDesc(InMsg, VBufferUint32(0, InLen), 1);
    assert s.inMsg[0..0 + s.inLen] == s.inMsg[..s.inLen];
  }

  /** The schema captures, in order, the eight listed fields and nothing else. */
  lemma CaptureContents(s: InterfaceState)
    requires BufferFits(s)
    ensures Capture(s, InterfaceSchema.fields) == Some([
              BoolValue(s.obfIrqSet), BoolValue(s.atnIrqSet), BoolValue(s.useIrq),
              BoolValue(s.irqsEnabled), Uint32Value(s.outPos), Uint32Value(s.outLen),
              BytesValue(s.inMsg[..s.inLen]), BoolValue(s.writeEnd)])
  {
    var fs := InterfaceSchema.fields;
    SchemaReads(s);
    assert forall i :: 0 <= i < |fs| ==> Read(s, fs[i]).Some? by {
      forall i | 0 <= i < |fs|
        ensures Read(s, fs[i]).Some?
      {
        assert i in {0, 1, 2, 3, 4, 5, 6, 7};
      }
    }
    var c := Capture(s, fs).value;
    var expected := [
      BoolValue(s.obfIrqSet), BoolValue(s.atnIrqSet), BoolValue(s.useIrq),
      BoolValue(s.irqsEnabled), Uint32Value(s.outPos), Uint32Value(s.outLen),
      BytesValue(s.inMsg[..s.inLen]), BoolValue(s.writeEnd)];
    assert |c| == |expected|;
    forall i | 0 <= i < |c|
      ensures c[i] == expected[i]
    {
      assert c[i] == Read(s, fs[i]).value;
      assert i in {0, 1, 2, 3, 4, 5, 6, 7};
    }
    assert c == expected;
  }

  /**
   A snapshot determines the listed fields exactly: two states capture the
   same values if and only if they agree on every listed field. In
   particular the slave address, the threaded flag and the bytes of the
   buffer beyond `inLen` are not part of a snapshot, and `inLen` itself is
   recovered only as the length of the captured buffer.
   */
  lemma CaptureDeterminesFields(s: InterfaceState, t: InterfaceState)
    requires BufferFits(s) && BufferFits(t)
    ensures Capture(s, InterfaceSchema.fields) == Capture(t, InterfaceSchema.fields)
            <==> SnapshotAgree(s, t)
    ensures Capture(s, InterfaceSchema.fields) == Capture(t, InterfaceSchema.fields)
            ==> s.inLen == t.inLen
  {
    CaptureContents(s);
    CaptureContents(t);
    var cs := Capture(s, InterfaceSchema.fields).value;
    var ct := Capture(t, InterfaceSchema.fields).value;
    if cs == ct {
      assert cs[6] == ct[6];
      assert |s.inMsg[..s.inLen]| == |t.inMsg[..t.inLen]|;
    }
  }

  /** The field names of a list, in order. */
  function Names(fields: seq<FieldDesc>): (r: seq<FieldName>)
    ensures |r| == |fields|
    ensures forall i :: 0 <= i < |fields| ==> r[i] == fields[i].name
  {
    if fields == [] then [] else [fields[0].name] + Names(fields[1..])
  }

  /** No name occurs twice in `names`. */
  predicate Distinct(names: seq<FieldName>) {
    forall i, j :: 0 <= i < j < |names| ==> names[i] != names[j]
  }

  /** The order in which the schema lists the interface's fields. */
  const ListedNames := [ObfIrqSet, AtnIrqSet, UseIrq, IrqsEnabled, OutPos, OutLen, InMsg, WriteEnd]

  /**
   The schema is at version 1 and accepts only version 1, and it lists the
   fields in the order obf_irq_set, atn_irq_set, use_irq, irqs_enabled,
   outpos, outlen, inmsg, write_end.
   */
  lemma SchemaOrder()
    ensures InterfaceSchema.versionId == 1 && InterfaceSchema.minimumVersionId == 1
    ensures Names(InterfaceSchema.fields) == ListedNames
  {
    var fs := InterfaceSchema.fields;
    var ns := Names(fs);
    assert |ns| == |ListedNames|;
    forall i | 0 <= i < |ns|
      ensures ns[i] == ListedNames[i]
    {
      assert ns[i] == fs[i].name;
      assert i in {0, 1, 2, 3, 4, 5, 6, 7};
    }
  }

  /**
   The place of each listed name in `ListedNames` (and -1 for the one
   name it leaves out); `SchemaDistinct` checks it against the list.
   */
  function Position(n: FieldName): int {
    match n
    case ObfIrqSet => 0
    case AtnIrqSet => 1
    case UseIrq => 2
    case IrqsEnabled => 3
    case OutPos => 4
    case OutLen => 5
    case InMsg => 6
    case WriteEnd => 7
    case InLen => -1
  }

  /** No field is listed twice, and `inLen` is not listed at all. */
  lemma SchemaDistinct()
    ensures Distinct(Names(InterfaceSchema.fields))
    ensures InLen !in Names(InterfaceSchema.fields)
  {
    SchemaOrder();
    DistinctByPosition(ListedNames);
  }

  /** A list in which every name sits at its own `Position` has no repeats. */
  lemma DistinctByPosition(ns: seq<FieldName>)
    requires |ns| == 8
    requires Position(ns[0]) == 0 && Position(ns[1]) == 1 && Position(ns[2]) == 2
    requires Position(ns[3]) == 3 && Position(ns[4]) == 4 && Position(ns[5]) == 5
    requires Position(ns[6]) == 6 && Position(ns[7]) == 7
    ensures Distinct(ns)
    ensures InLen !in ns
  {
    forall i | 0 <= i < |ns|
      ensures Position(ns[i]) == i
    {
      if i < 4 { assert i == 0 || i == 1 || i == 2 || i == 3; }
      else { assert i == 4 || i == 5 || i == 6 || i == 7; }
    }
  }

  /**
   The inbound buffer starts at offset 0, is sized by `inLen` and appears
   at version 1; no entry is newer than the schema.
   */
  lemma SchemaVersions()
    ensures InterfaceSchema.fields[6] == FieldDesc(InMsg, VBufferUint32(0, InLen), 1)
    ensures forall i :: 0 <= i < |InterfaceSchema.fields| ==>
              InterfaceSchema.fields[i].version <= InterfaceSchema.versionId
  {
    var fs := InterfaceSchema.fields;
    forall i | 0 <= i < |fs|
      ensures fs[i].version <= 1
    {
      assert i in {0, 1, 2, 3, 4, 5, 6, 7};
    }
  }
}
