/** The binary frame envelope of `_make_envelope`:
      [4-byte big-endian header length][header bytes][payload bytes]
    The header's compact JSON serialisation is taken as an abstract byte sequence.
    The agent never decodes an envelope; `Split` is the peer's view of the format,
    used to state that nothing is lost in framing. */
module Envelope {
  import opened Common

  const TWO_32: nat := 0x1_0000_0000

  /** `struct.pack(">I", n)`. */
  function PackU32(n: nat): (b: Bytes)
    requires n < TWO_32
    ensures |b| == 4
  {
    [n / 0x100_0000, (n / 0x1_0000) % 0x100, (n / 0x100) % 0x100, n % 0x100]
  }

  /** `struct.unpack(">I", b)[0]`. */
  function UnpackU32(b: Bytes): (n: nat)
    requires |b| == 4
    ensures n < TWO_32
  {
    var b0: int, b1: int, b2: int, b3: int := b[0], b[1], b[2], b[3];
    ((b0 * 0x100 + b1) * 0x100 + b2) * 0x100 + b3
  }

  /** Packing then unpacking gives the number back. */
  lemma UnpackPack(n: nat)
    requires n < TWO_32
    ensures UnpackU32(PackU32(n)) == n
  {
    var b := PackU32(n);
    var b0: int, b1: int, b2: int := b[0], b[1], b[2];
    assert b0 * 0x100 + b1 == n / 0x1_0000;
    assert (b0 * 0x100 + b1) * 0x100 + b2 == n / 0x100;
  }

  /** Unpacking then packing gives the four bytes back: the prefix is a bijection. */
  lemma PackUnpack(b: Bytes)
    requires |b| == 4
    ensures PackU32(UnpackU32(b)) == b
  {
    var n := UnpackU32(b);
    var b0: int, b1: int, b2: int, b3: int := b[0], b[1], b[2], b[3];
    var hi := (b0 * 0x100 + b1) * 0x100 + b2;
    assert n / 0x100 == hi && n % 0x100 == b3;
    assert hi / 0x100 == b0 * 0x100 + b1 && hi % 0x100 == b2;
    assert n / 0x1_0000 == hi / 0x100;
    assert n / 0x100_0000 == (b0 * 0x100 + b1) / 0x100;
  }

  /** `_make_envelope(header, payload)`. `struct.pack(">I", ...)` raises for a
      length of 2^32 or more; that failure is `None`. */
  function MakeEnvelope(header: Bytes, payload: Bytes): (r: Option<Bytes>)
    ensures r.Some? <==> |header| < TWO_32
    ensures r.Some? ==> |r.value| == 4 + |header| + |payload|
    ensures r.Some? ==> UnpackU32(r.value[..4]) == |header|
  {
    if |header| < TWO_32 then
      var e := PackU32(|header|) + header + payload;
      assert e[..4] == PackU32(|header|);
      UnpackPack(|header|);
      Some(e)
    else None
  }

  datatype Malformed = TooShort | LengthExceedsBuffer

  /** The peer's decoder: read the declared header length, then cut. */
  function Split(env: Bytes): Result<(Bytes, Bytes), Malformed> {
    if |env| < 4 then Failure(TooShort)
    else
      var n := UnpackU32(env[..4]);
      if n > |env| - 4 then Failure(LengthExceedsBuffer)
      else Success((env[4..4 + n], env[4 + n..]))
  }

  datatype Result<+R, +E> = Success(value: R) | Failure(error: E)

  /** Round trip: every envelope the agent builds splits back into exactly the
      header bytes and the byte-exact payload (an empty payload included). */
  lemma SplitMakeEnvelope(header: Bytes, payload: Bytes)
    requires |header| < TWO_32
    ensures MakeEnvelope(header, payload).Some?
    ensures Split(MakeEnvelope(header, payload).value) == Success((header, payload))
  {
    var e := MakeEnvelope(header, payload).value;
    assert e == PackU32(|header|) + header + payload;
    assert e[4..4 + |header|] == header;
    assert e[4 + |header|..] == payload;
  }

  /** The converse: every byte string the peer accepts is the envelope of what
      it splits into, so the format has no second encoding of the same frame. */
  lemma MakeEnvelopeSplit(env: Bytes)
    requires Split(env).Success?
    ensures MakeEnvelope(Split(env).value.0, Split(env).value.1) == Some(env)
  {
    var (h, p) := Split(env).value;
    PackUnpack(env[..4]);
    assert env == env[..4] + h + p;
  }
}
