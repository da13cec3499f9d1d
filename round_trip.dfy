/**
 * The decoder in LogHandler read against the encoder in AbiEncoding: a
 * deserializer built over the ABI encoding of a tuple of values, with a field
 * table that declares each value's type, gives every value back (a `uint` as
 * its low 64 bits, which is all `get_u64` keeps).
 */
module RoundTrip {
  import opened Primitives
  import opened Sequences
  import opened AbiEncoding
  import opened LogHandler

  /** `order` names the values of `vs` one to one, and `fields` declares each name with its value's type. */
  predicate Describes(fields: map<string, string>, order: seq<string>, vs: seq<AbiValue>)
  {
    && |order| == |vs|
    && (forall i, j :: 0 <= i < j < |order| ==> order[i] != order[j])
    && (forall k :: 0 <= k < |vs| ==> order[k] in fields && fields[order[k]] == TypeName(vs[k]))
  }

  /** Every tail lies before the end of the payload, so its offset fits in the 64 bits the decoder reads. */
  lemma {:induction false} TailStartBound(vs: seq<AbiValue>, data: seq<Byte>, k: nat)
    requires Encodable(vs) && |data| == EncodedSize(vs) && TailPlaced(vs, data, k)
    ensures TailStart(vs, k) + TailSize(vs[k]) <= |data| < U64Modulus < Word256Modulus
  {
    Pow256Constants();
  }

  /** A slot that holds the word of a value below 2^64 reads as that value. */
  lemma {:induction false} WordSlot(data: seq<Byte>, at: nat, v: nat)
    requires at + 32 <= |data| && v < U64Modulus && data[at..at + 32] == Word(v)
    ensures LowWord(data, at) == v
  {
    Pow256Constants();
    SmallModulo(v, Word256Modulus);
    SmallModulo(v, U64Modulus);
  }

  /** The slot of a `uint` value holds it in full, so its low eight bytes hold it modulo 2^64. */
  lemma {:induction false} UintSlot(vs: seq<AbiValue>, data: seq<Byte>, k: nat)
    requires Encodable(vs) && HeadPlaced(vs, data, k) && vs[k].UintValue?
    ensures 32 * k + 32 <= |data|
    ensures LowWord(data, 32 * k) == vs[k].n % U64Modulus
  {
    SmallModulo(vs[k].n, Word256Modulus);
  }

  /** The slot of an `address` value holds it in its low twenty bytes. */
  lemma {:induction false} AddressSlot(vs: seq<AbiValue>, data: seq<Byte>, k: nat)
    requires HeadPlaced(vs, data, k) && vs[k].AddressValue?
    ensures 32 * k + 32 <= |data|
    ensures data[32 * k + 12..32 * k + 32] == vs[k].a
  {
    SliceOfSlice(data, 32 * k, 32 * k + 32, 12, 32);
  }

  /** The string pointer of the `k`-th slot leads to the string's length word, and the bytes after it are the string. */
  lemma {:induction false} StringSlot(vs: seq<AbiValue>, data: seq<Byte>, k: nat)
    requires Encodable(vs) && |data| == EncodedSize(vs) && HeadPlaced(vs, data, k) && TailPlaced(vs, data, k)
    requires vs[k].StringValue?
    ensures StringSlotReadable(data, 32 * k)
    ensures GetStringOffsets(data, 32 * k) == Span(TailStart(vs, k) + 32, TailStart(vs, k) + 32 + |vs[k].bytes|)
    ensures TailStart(vs, k) + 32 + |vs[k].bytes| <= |data|
    ensures data[TailStart(vs, k) + 32..TailStart(vs, k) + 32 + |vs[k].bytes|] == vs[k].bytes
  {
    TailStartBound(vs, data, k);
    StringPointer(vs, data, k);
    StringLength(vs, data, k);
    StringBytes(vs, data, k);
  }

  /** The head of a string value holds the offset of its tail. */
  lemma {:induction false} StringPointer(vs: seq<AbiValue>, data: seq<Byte>, k: nat)
    requires HeadPlaced(vs, data, k) && vs[k].StringValue? && TailStart(vs, k) < U64Modulus
    ensures LowWord(data, 32 * k) == TailStart(vs, k)
  {
    WordSlot(data, 32 * k, TailStart(vs, k));
  }

  /** The tail of a string value starts with its length word... */
  lemma {:induction false} StringLength(vs: seq<AbiValue>, data: seq<Byte>, k: nat)
    requires TailPlaced(vs, data, k) && vs[k].StringValue? && |data| < U64Modulus
    ensures TailStart(vs, k) + 32 <= |data|
    ensures LowWord(data, TailStart(vs, k)) == |vs[k].bytes|
  {
    var s := vs[k].bytes;
    LengthWord(data, TailStart(vs, k), TailStart(vs, k + 1), s, Zeros(PaddedLength(|s|) - |s|));
  }

  /** ...and the string's bytes follow it. */
  lemma {:induction false} StringBytes(vs: seq<AbiValue>, data: seq<Byte>, k: nat)
    requires TailPlaced(vs, data, k) && vs[k].StringValue?
    ensures TailStart(vs, k) + 32 + |vs[k].bytes| <= |data|
    ensures data[TailStart(vs, k) + 32..TailStart(vs, k) + 32 + |vs[k].bytes|] == vs[k].bytes
  {
    var s := vs[k].bytes;
    BytesAfterLengthWord(data, TailStart(vs, k), TailStart(vs, k + 1), s, Zeros(PaddedLength(|s|) - |s|));
  }

  /** A length word read back. */
  lemma {:induction false} LengthWord(data: seq<Byte>, at: nat, next: nat, s: seq<Byte>, padding: seq<Byte>)
    requires at <= next <= |data| && |s| < U64Modulus
    requires data[at..next] == Word(|s|) + s + padding
    ensures at + 32 <= |data|
    ensures LowWord(data, at) == |s|
  {
    ThreeParts(Word(|s|), s, padding);
    SliceOfSlice(data, at, next, 0, 32);
    WordSlot(data, at, |s|);
  }

  /** The bytes behind a length word. */
  lemma {:induction false} BytesAfterLengthWord(data: seq<Byte>, at: nat, next: nat, s: seq<Byte>, padding: seq<Byte>)
    requires at <= next <= |data|
    requires data[at..next] == Word(|s|) + s + padding
    ensures at + 32 + |s| <= |data|
    ensures data[at + 32..at + 32 + |s|] == s
  {
    ThreeParts(Word(|s|), s, padding);
    SliceOfSlice(data, at, next, 32, 32 + |s|);
  }

  /** A payload laid out as the encoding of values described by the field table can be handed to the constructor. */
  lemma {:induction false} EncodingDecodable(vs: seq<AbiValue>, data: seq<Byte>, fields: map<string, string>, order: seq<string>)
    requires Encodable(vs) && Layout(vs, data) && Describes(fields, order, vs)
    ensures Decodable(data, fields, order)
  {
    forall k | 0 <= k < |order| && fields[order[k]] == "string"
      ensures StringSlotReadable(data, 32 * k)
    {
      assert HeadPlaced(vs, data, k) && TailPlaced(vs, data, k);
      StringSlot(vs, data, k);
    }
  }

  /** `get_u64` on the name of a `uint` value gives the value's low 64 bits. */
  lemma {:induction false} DecodeUint(d: LogdataDeserializer, vs: seq<AbiValue>, k: nat)
    requires d.Valid() && Encodable(vs) && Layout(vs, d.data) && Describes(d.fields, d.order, vs)
    requires k < |vs| && vs[k].UintValue?
    ensures d.order[k] in d.offsets && d.offsets[d.order[k]].end <= |d.data|
    ensures d.GetU64(d.order[k]) == vs[k].n % U64Modulus
  {
    assert HeadPlaced(vs, d.data, k);
    UintSlot(vs, d.data, k);
    GetU64At(d, k);
  }

  /** `get_address` on the name of an `address` value gives the address. */
  lemma {:induction false} DecodeAddress(d: LogdataDeserializer, vs: seq<AbiValue>, k: nat)
    requires d.Valid() && Layout(vs, d.data) && Describes(d.fields, d.order, vs)
    requires k < |vs| && vs[k].AddressValue?
    ensures d.order[k] in d.offsets && d.offsets[d.order[k]].end <= |d.data|
    ensures d.GetAddress(d.order[k]) == vs[k].a
  {
    assert HeadPlaced(vs, d.data, k);
    AddressSlot(vs, d.data, k);
    GetAddressAt(d, k);
  }

  /** `get_str` on the name of a `string` value gives the string's bytes. */
  lemma {:induction false} DecodeString(d: LogdataDeserializer, vs: seq<AbiValue>, k: nat)
    requires d.Valid() && Encodable(vs) && Layout(vs, d.data) && Describes(d.fields, d.order, vs)
    requires k < |vs| && vs[k].StringValue?
    ensures d.order[k] in d.offsets && d.offsets[d.order[k]].end <= |d.data|
    ensures d.GetStr(d.order[k]) == vs[k].bytes
  {
    assert HeadPlaced(vs, d.data, k) && TailPlaced(vs, d.data, k);
    assert LastOccurrence(d.order, k) && d.fields[d.order[k]] == "string";
    StringField(d, vs, k);
  }

  lemma {:induction false} StringField(d: LogdataDeserializer, vs: seq<AbiValue>, k: nat)
    requires d.Valid() && LastOccurrence(d.order, k) && d.fields[d.order[k]] == "string"
    requires Encodable(vs) && |d.data| == EncodedSize(vs) && HeadPlaced(vs, d.data, k) && TailPlaced(vs, d.data, k)
    requires vs[k].StringValue?
    ensures d.order[k] in d.offsets && d.offsets[d.order[k]].end <= |d.data|
    ensures d.GetStr(d.order[k]) == vs[k].bytes
  {
    StringSlot(vs, d.data, k);
    GetStrAt(d, k);
  }

  /**
   * A `ProposalAdded`-shaped payload cut down to `proposalID` and `state`:
   * the values 7 and 2 are read back as 7 and 2.
   */
  method DecodeIdAndState() returns (proposalID: nat, state: nat)
    ensures proposalID == 7 && state == 2
  {
    var vs := [UintValue(7), UintValue(2)];
    var fields := map["proposalID" := "uint", "state" := "uint"];
    var order := ["proposalID", "state"];
    Pow256Constants();
    assert Offset(Tails(vs), 2) == 0 by {
      var ts := Tails(vs);
      assert |ts[0]| == 0 && |ts[1]| == 0;
      assert Offset(ts, 1) == 0;
    }
    assert Encodable(vs);
    assert Describes(fields, order, vs);
    EncodeLayout(vs);
    EncodingDecodable(vs, Encode(vs), fields, order);
    var d := new LogdataDeserializer(Encode(vs), fields, order);
    DecodeUint(d, vs, 0);
    DecodeUint(d, vs, 1);
    proposalID := d.GetU64("proposalID");
    state := d.GetU64("state");
  }
}
