/**
 * The producer side of an event payload: the Solidity contract ABI's encoding
 * of a tuple of `uint256`, `address` and `string` values ("Formal
 * Specification of the Encoding" in the Solidity ABI specification).
 *
 * Every value owns one 32-byte head word, in order. A `uint256` head is the
 * value itself, big-endian; an `address` head is the 20 address bytes behind
 * 12 zero bytes; a `string` head is the byte offset, from the start of the
 * payload, of the string's tail. The tails follow the heads in the same order;
 * a string's tail is a 32-byte length word, the bytes, and zero padding up to a
 * multiple of 32. This is what the decoder in LogHandler reads back.
 */
module AbiEncoding {
  import opened Primitives
  import opened Sequences

  datatype AbiValue = UintValue(n: nat) | AddressValue(a: Address) | StringValue(bytes: seq<Byte>)

  /** The type name the decoder's field table uses for a value of this kind. */
  function TypeName(v: AbiValue): string
  {
    match v
    case UintValue(_) => "uint"
    case AddressValue(_) => "address"
    case StringValue(_) => "string"
  }

  function Zeros(n: nat): (z: seq<Byte>)
    ensures |z| == n && forall i :: 0 <= i < n ==> z[i] == 0
  {
    seq(n, _ => 0 as Byte)
  }

  /** `n` rounded up to a whole number of 32-byte words. */
  function PaddedLength(n: nat): (p: nat)
    ensures n <= p < n + 32 && p % 32 == 0
  {
    (n + 31) / 32 * 32
  }

  /** The number of tail bytes a value occupies. */
  function TailSize(v: AbiValue): nat
  {
    if v.StringValue? then 32 + PaddedLength(|v.bytes|) else 0
  }

  /** The size of the whole encoding: one head word per value, then the tails. */
  function EncodedSize(vs: seq<AbiValue>): nat
  {
    32 * |vs| + Offset(Tails(vs), |vs|)
  }

  /**
   * The values the encoding can carry in a form the decoder reads back:
   * unsigned integers fit in 256 bits, and every offset and length fits in the
   * 64 bits the decoder interprets.
   */
  predicate Encodable(vs: seq<AbiValue>)
  {
    (forall i :: 0 <= i < |vs| && vs[i].UintValue? ==> vs[i].n < Word256Modulus)
    && EncodedSize(vs) < U64Modulus
  }

  /** The 32-byte big-endian word holding `v`, reduced modulo 2^256 as a `uint256` is. */
  function Word(v: nat): (w: seq<Byte>)
    ensures |w| == 32 && BigEndian(w) == v % Word256Modulus
  {
    BigEndianBytes(v % Word256Modulus, 32)
  }

  /** The head word of `v` when its tail, if any, starts at byte `tailAt` of the payload. */
  function HeadWord(v: AbiValue, tailAt: nat): (w: seq<Byte>)
    ensures |w| == 32
  {
    match v
    case UintValue(n) => Word(n)
    case AddressValue(a) => Zeros(12) + a
    case StringValue(_) => Word(tailAt)
  }

  function Tail(v: AbiValue): (t: seq<Byte>)
    ensures |t| == TailSize(v)
  {
    match v
    case StringValue(s) => Word(|s|) + s + Zeros(PaddedLength(|s|) - |s|)
    case _ => []
  }

  /** The tails of the values, one per value and in order (empty for the static types). */
  function Tails(vs: seq<AbiValue>): (ts: seq<seq<Byte>>)
    ensures |ts| == |vs| && forall i :: 0 <= i < |vs| ==> ts[i] == Tail(vs[i])
  {
    seq(|vs|, i requires 0 <= i < |vs| => Tail(vs[i]))
  }

  /** Where the tail of the `k`-th value begins in the payload. */
  function TailStart(vs: seq<AbiValue>, k: nat): nat
    requires k <= |vs|
  {
    32 * |vs| + Offset(Tails(vs), k)
  }

  /** The head words, one per value, in order. */
  function HeadWords(vs: seq<AbiValue>): (ws: seq<seq<Byte>>)
    ensures |ws| == |vs| && forall i :: 0 <= i < |vs| ==> ws[i] == HeadWord(vs[i], TailStart(vs, i))
  {
    seq(|vs|, i requires 0 <= i < |vs| => HeadWord(vs[i], TailStart(vs, i)))
  }

  /** Pieces of one word each start 32 bytes apart. */
  lemma {:induction false} WordOffsets(ws: seq<seq<Byte>>, k: nat)
    requires k <= |ws| && forall i :: 0 <= i < |ws| ==> |ws[i]| == 32
    ensures Offset(ws, k) == 32 * k
  {
    if k > 0 {
      WordOffsets(ws, k - 1);
    }
  }

  /** The head section of the payload: the head words one after another. */
  function Heads(vs: seq<AbiValue>): (h: seq<Byte>)
    ensures |h| == 32 * |vs|
  {
    WordOffsets(HeadWords(vs), |vs|);
    Concat(HeadWords(vs))
  }

  /** The event payload carrying `vs`. */
  function Encode(vs: seq<AbiValue>): (data: seq<Byte>)
    ensures |data| == EncodedSize(vs)
  {
    Heads(vs) + Concat(Tails(vs))
  }

  /** The `k`-th head word of the payload sits in the `k`-th 32-byte slot. */
  lemma {:induction false} HeadAt(vs: seq<AbiValue>, k: nat)
    requires k < |vs|
    ensures Encode(vs)[32 * k..32 * k + 32] == HeadWord(vs[k], TailStart(vs, k))
  {
    var ws := HeadWords(vs);
    PieceAt(ws, k);
    WordOffsets(ws, k);
    WordOffsets(ws, k + 1);
    SliceInPrefix(Heads(vs), Concat(Tails(vs)), 32 * k, 32 * k + 32);
  }

  /** The tail of the `k`-th value sits in the payload at `TailStart(vs, k)`, and the next one follows it. */
  lemma {:induction false} TailAt(vs: seq<AbiValue>, k: nat)
    requires k < |vs|
    ensures TailStart(vs, k + 1) == TailStart(vs, k) + TailSize(vs[k]) <= |Encode(vs)|
    ensures Encode(vs)[TailStart(vs, k)..TailStart(vs, k + 1)] == Tail(vs[k])
  {
    var ts := Tails(vs);
    PieceAt(ts, k);
    SliceAfterPrefix(Heads(vs), Concat(ts), Offset(ts, k), Offset(ts, k + 1), TailStart(vs, k), TailStart(vs, k + 1));
  }

  /** The `k`-th slot of `data` holds the head word of the `k`-th value. */
  predicate HeadPlaced(vs: seq<AbiValue>, data: seq<Byte>, k: nat)
  {
    k < |vs| && 32 * k + 32 <= |data| && data[32 * k..32 * k + 32] == HeadWord(vs[k], TailStart(vs, k))
  }

  /** The tail of the `k`-th value sits in `data` where its head points, and the next tail follows it. */
  predicate TailPlaced(vs: seq<AbiValue>, data: seq<Byte>, k: nat)
  {
    && k < |vs|
    && TailStart(vs, k) + TailSize(vs[k]) == TailStart(vs, k + 1) <= |data|
    && data[TailStart(vs, k)..TailStart(vs, k + 1)] == Tail(vs[k])
  }

  /**
   * `data` has the layout of the encoding of `vs`: the right size, the head
   * words in the slots, and every tail where its head points.
   */
  predicate Layout(vs: seq<AbiValue>, data: seq<Byte>)
  {
    && |data| == EncodedSize(vs)
    && (forall k :: 0 <= k < |vs| ==> HeadPlaced(vs, data, k))
    && (forall k :: 0 <= k < |vs| ==> TailPlaced(vs, data, k))
  }

  /** The encoding has the layout it is meant to have. */
  lemma {:induction false} EncodeLayout(vs: seq<AbiValue>)
    ensures Layout(vs, Encode(vs))
  {
    forall k | 0 <= k < |vs|
      ensures HeadPlaced(vs, Encode(vs), k)
    {
      HeadAt(vs, k);
    }
    forall k | 0 <= k < |vs|
      ensures TailPlaced(vs, Encode(vs), k)
    {
      TailAt(vs, k);
    }
  }
}
