/**
 * The event-payload decoder of the backend, `LogdataDeserializer`, which
 * reads the fields of a contract event out of its ABI-encoded payload. The
 * decisions `handle_log` takes around it are in `ShardAdd`.
 *
 * The payload is a sequence of 32-byte slots, one per field in declaration
 * order. Only three field types are understood: a `uint` is read from the low
 * eight bytes of its slot, an `address` from the low twenty, and a `string`
 * slot holds the offset of a length word that the bytes follow.
 */
module LogHandler {
  import opened Wrappers
  import opened Primitives
  import opened Sequences
  import opened AbiEncoding

  /** The bytes `start..end` of the payload, as the deserializer caches them per field. */
  datatype Span = Span(start: nat, end: nat)

  /** The big-endian `u64` in the low eight bytes of the 32-byte slot at `at`. */
  function LowWord(data: seq<Byte>, at: nat): (v: nat)
    requires at + 32 <= |data|
    ensures v < U64Modulus
    ensures v == BigEndian(data[at..at + 32]) % U64Modulus
  {
    var word, low := data[at..at + 32], data[at + 24..at + 32];
    assert word[24..] == low && low[..8] == low;
    LowBytesModulo(word);
    var v := ReadU64(low);
    assert BigEndian(BigEndianBytes(v, 8)) == v;
    v
  }

  /**
   * The reads `getStringOffsets` makes stay inside the payload: the pointer
   * slot at `at`, and the length word it points to.
   */
  predicate StringSlotReadable(data: seq<Byte>, at: nat)
  {
    at + 32 <= |data| && LowWord(data, at) + 32 <= |data|
  }

  /**
   * `getStringOffsets`: the pointer in the slot at `at` locates a length word;
   * the string's bytes start right after it and run for that length.
   */
  function GetStringOffsets(data: seq<Byte>, at: nat): (span: Span)
    requires StringSlotReadable(data, at)
    ensures span.start == LowWord(data, at) + 32 <= |data|
    ensures span.end - span.start == LowWord(data, LowWord(data, at))
  {
    var lengthWordAt := LowWord(data, at);
    var length := LowWord(data, lengthWordAt);
    Span(lengthWordAt + 32, lengthWordAt + 32 + length)
  }

  /** The span `findAndStoreOffsets` caches for a field of type `fieldType` whose slot starts at `at`. */
  function SlotOffsets(data: seq<Byte>, fieldType: string, at: nat): (span: Span)
    requires fieldType == "string" ==> StringSlotReadable(data, at)
    ensures fieldType == "uint" ==> span == Span(at + 24, at + 32)
    ensures fieldType == "address" ==> span == Span(at + 12, at + 32)
    ensures fieldType != "uint" && fieldType != "address" && fieldType != "string" ==> span == Span(0, 0)
    ensures span.start <= span.end
  {
    match fieldType
    case "uint" => Span(at + 24, at + 32)
    case "address" => Span(at + 12, at + 32)
    case "string" => GetStringOffsets(data, at)
    case _ => Span(0, 0)
  }

  /**
   * What the constructor needs in order not to panic: every field of `order`
   * has a declared type, and every `string` field's pointer and length word can
   * be read.
   */
  predicate Decodable(data: seq<Byte>, fields: map<string, string>, order: seq<string>)
  {
    forall k :: 0 <= k < |order| ==>
      order[k] in fields && (fields[order[k]] == "string" ==> StringSlotReadable(data, 32 * k))
  }

  lemma {:induction false} DecodablePrefix(data: seq<Byte>, fields: map<string, string>, order: seq<string>, n: nat)
    requires n <= |order| && Decodable(data, fields, order)
    ensures Decodable(data, fields, order[..n])
  {
    forall k | 0 <= k < n
      ensures order[..n][k] in fields
      ensures fields[order[..n][k]] == "string" ==> StringSlotReadable(data, 32 * k)
    {
      assert order[..n][k] == order[k];
    }
  }

  /**
   * The offsets map after walking `order` with a cursor that advances 32 bytes
   * per field: the field at position `k` has its slot at `32 * k`, and a name
   * listed twice keeps the span of its last position (`HashMap::insert`
   * overwrites).
   */
  function OffsetsOf(data: seq<Byte>, fields: map<string, string>, order: seq<string>): (offsets: map<string, Span>)
    requires Decodable(data, fields, order)
    ensures offsets.Keys == set k | 0 <= k < |order| :: order[k]
  {
    if order == [] then map[]
    else
      var n := |order| - 1;
      DecodablePrefix(data, fields, order, n);
      var init := order[..n];
      assert forall k :: 0 <= k < n ==> init[k] == order[k];
      OffsetsOf(data, fields, init)[order[n] := SlotOffsets(data, fields[order[n]], 32 * n)]
  }

  /** One more field of `order` inserts the span of its slot, 32 bytes after the previous one. */
  lemma {:induction false} OffsetsSnoc(data: seq<Byte>, fields: map<string, string>, order: seq<string>, n: nat)
    requires n < |order| && Decodable(data, fields, order)
    ensures Decodable(data, fields, order[..n]) && Decodable(data, fields, order[..n + 1])
    ensures OffsetsOf(data, fields, order[..n + 1])
            == OffsetsOf(data, fields, order[..n])[order[n] := SlotOffsets(data, fields[order[n]], 32 * n)]
  {
    DecodablePrefix(data, fields, order, n);
    DecodablePrefix(data, fields, order, n + 1);
    TakeSnoc(order, n);
  }

  /** The span of a field is the span of its slot at its last position in `order`. */
  lemma {:induction false} FieldOffset(data: seq<Byte>, fields: map<string, string>, order: seq<string>, k: nat)
    requires Decodable(data, fields, order)
    requires k < |order|
    requires forall j :: k < j < |order| ==> order[j] != order[k]
    ensures OffsetsOf(data, fields, order)[order[k]] == SlotOffsets(data, fields[order[k]], 32 * k)
  {
    var n := |order| - 1;
    OffsetsSnoc(data, fields, order, n);
    assert order[..n + 1] == order;
    if k < n {
      var init := order[..n];
      forall j | k < j < |init|
        ensures init[j] != init[k]
      {
        assert init[j] == order[j] && init[k] == order[k];
      }
      FieldOffset(data, fields, init, k);
    }
  }

  /** The span cached for a field lies in the payload and has the width of its type. */
  lemma {:induction false} FieldOffsetWidth(data: seq<Byte>, fields: map<string, string>, order: seq<string>, k: nat)
    requires Decodable(data, fields, order)
    requires k < |order|
    requires forall j :: k < j < |order| ==> order[j] != order[k]
    ensures var span := OffsetsOf(data, fields, order)[order[k]];
      && (fields[order[k]] == "uint" ==> span.start == 32 * k + 24 && span.end - span.start == 8)
      && (fields[order[k]] == "address" ==> span.start == 32 * k + 12 && span.end - span.start == 20)
      && (fields[order[k]] == "string" ==> span.end - span.start == LowWord(data, LowWord(data, 32 * k)))
      && (fields[order[k]] !in {"uint", "address", "string"} ==> span == Span(0, 0))
  {
    FieldOffset(data, fields, order, k);
  }

  class LogdataDeserializer {
    const order: seq<string>
    const fields: map<string, string>
    const data: seq<Byte>
    var offsets: map<string, Span>

    /** The offsets map is the one the walk over `order` computes. */
    ghost predicate Valid()
      reads this
    {
      Decodable(data, fields, order) && offsets == OffsetsOf(data, fields, order)
    }

    /** `LogdataDeserializer::new`: keep the payload and the field table, then compute every field's span. */
    constructor (data: seq<Byte>, fields: map<string, string>, order: seq<string>)
      requires Decodable(data, fields, order)
      ensures Valid()
      ensures this.data == data && this.fields == fields && this.order == order
    {
      this.data := data;
      this.fields := fields;
      this.order := order;
      offsets := map[];
      new;
      FindAndStoreOffsets();
    }

    /**
     * `findAndStoreOffsets`: walk the fields in order with a cursor that
     * advances one 32-byte slot per field, whatever its type, and insert each
     * field's span into the map.
     */
    method FindAndStoreOffsets()
      requires Decodable(data, fields, order)
      modifies this`offsets
      ensures offsets == old(offsets) + OffsetsOf(data, fields, order)
    {
      var currentBlockOffset := 0;
      for k := 0 to |order|
        invariant currentBlockOffset == 32 * k
        invariant Decodable(data, fields, order[..k])
        invariant offsets == old(offsets) + OffsetsOf(data, fields, order[..k])
      {
        var name := order[k];
        var fieldType := fields[name];
        var offsetTuple := SlotOffsets(data, fieldType, currentBlockOffset);
        currentBlockOffset := currentBlockOffset + 32;
        OffsetsSnoc(data, fields, order, k);
        UnionUpdate(old(offsets), OffsetsOf(data, fields, order[..k]), name, offsetTuple);
        offsets := offsets[name := offsetTuple];
      }
      assert order[..|order|] == order;
    }

    /**
     * `get_u64`: the big-endian value of a `uint` field's eight cached bytes,
     * and 0 for a field of another type. Panics (a field that is not in the
     * table, a span outside the payload) are excluded by the precondition.
     */
    function GetU64(fieldName: string): (v: nat)
      reads this
      requires Valid() && fieldName in offsets
      requires fields[fieldName] == "uint" ==> offsets[fieldName].end <= |data|
      ensures v < U64Modulus
      ensures fields[fieldName] != "uint" ==> v == 0
    {
      var span := offsets[fieldName];
      if fields[fieldName] == "uint" then
        FieldSpanOfName(this, fieldName);
        ReadU64(data[span.start..span.end])
      else
        0
    }

    /** `get_address`: the twenty cached bytes of an `address` field, and the zero address for another type. */
    function GetAddress(fieldName: string): (a: Address)
      reads this
      requires Valid() && fieldName in offsets
      requires fields[fieldName] == "address" ==> offsets[fieldName].end <= |data|
      ensures fields[fieldName] != "address" ==> a == ZeroAddress
    {
      var span := offsets[fieldName];
      if fields[fieldName] == "address" then
        FieldSpanOfName(this, fieldName);
        data[span.start..span.end]
      else
        ZeroAddress
    }

    /** `get_str`: the cached bytes of a `string` field, and the empty string for another type. */
    function GetStr(fieldName: string): (s: seq<Byte>)
      reads this
      requires Valid() && fieldName in offsets
      requires fields[fieldName] == "string" ==> offsets[fieldName].end <= |data|
      ensures fields[fieldName] != "string" ==> s == []
    {
      var span := offsets[fieldName];
      if fields[fieldName] == "string" then
        FieldSpanOfName(this, fieldName);
        data[span.start..span.end]
      else
        []
    }
  }

  /** The span cached for a name is that of its last position in `order`, so it is well formed. */
  lemma {:induction false} FieldSpanOfName(d: LogdataDeserializer, fieldName: string)
    requires d.Valid() && fieldName in d.offsets
    ensures fieldName in d.fields
    ensures d.offsets[fieldName].start <= d.offsets[fieldName].end
    ensures d.fields[fieldName] == "uint" ==> d.offsets[fieldName].end - d.offsets[fieldName].start == 8
    ensures d.fields[fieldName] == "address" ==> d.offsets[fieldName].end - d.offsets[fieldName].start == 20
  {
    var k := LastPosition(d.order, fieldName);
    FieldOffset(d.data, d.fields, d.order, k);
  }

  /** The name at position `k` of `order` is listed nowhere after `k`. */
  predicate LastOccurrence(order: seq<string>, k: nat)
  {
    k < |order| && forall j :: k < j < |order| ==> order[j] != order[k]
  }

  /** A `uint` field whose slot lies in the payload reads as the low 64 bits of that slot. */
  lemma {:induction false} GetU64At(d: LogdataDeserializer, k: nat)
    requires d.Valid() && LastOccurrence(d.order, k)
    requires d.fields[d.order[k]] == "uint" && 32 * k + 32 <= |d.data|
    ensures d.order[k] in d.offsets && d.offsets[d.order[k]].end <= |d.data|
    ensures d.GetU64(d.order[k]) == LowWord(d.data, 32 * k)
  {
    FieldOffset(d.data, d.fields, d.order, k);
    var low := d.data[32 * k + 24..32 * k + 32];
    assert low[..8] == low;
    assert BigEndian(BigEndianBytes(ReadU64(low), 8)) == ReadU64(low);
  }

  /** An `address` field whose slot lies in the payload reads as the low twenty bytes of that slot. */
  lemma {:induction false} GetAddressAt(d: LogdataDeserializer, k: nat)
    requires d.Valid() && LastOccurrence(d.order, k)
    requires d.fields[d.order[k]] == "address" && 32 * k + 32 <= |d.data|
    ensures d.order[k] in d.offsets && d.offsets[d.order[k]].end <= |d.data|
    ensures d.GetAddress(d.order[k]) == d.data[32 * k + 12..32 * k + 32]
  {
    FieldOffset(d.data, d.fields, d.order, k);
  }

  /** A `string` field whose bytes lie in the payload reads as the bytes its pointer and length word locate. */
  lemma {:induction false} GetStrAt(d: LogdataDeserializer, k: nat)
    requires d.Valid() && LastOccurrence(d.order, k)
    requires d.fields[d.order[k]] == "string" && GetStringOffsets(d.data, 32 * k).end <= |d.data|
    ensures d.order[k] in d.offsets && d.offsets[d.order[k]].end <= |d.data|
    ensures d.GetStr(d.order[k]) == d.data[LowWord(d.data, 32 * k) + 32..GetStringOffsets(d.data, 32 * k).end]
  {
    FieldOffset(d.data, d.fields, d.order, k);
  }

  lemma {:induction false} UnionUpdate<K, V>(m: map<K, V>, n: map<K, V>, key: K, value: V)
    ensures (m + n)[key := value] == m + n[key := value]
  {
  }

  /** The last position of a name that occurs in `order`. */
  function LastPosition(order: seq<string>, name: string): (k: nat)
    requires name in order
    ensures k < |order| && order[k] == name
    ensures forall j :: k < j < |order| ==> order[j] != name
  {
    if order[|order| - 1] == name then |order| - 1 else LastPosition(order[..|order| - 1], name)
  }
}
