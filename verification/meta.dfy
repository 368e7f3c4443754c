/** `MessageMeta`, the fixed-size envelope stored in front of every payload
    (src/MPMC/Structs/Buffer_Structs.rs), and its byte image: a `repr(C)`
    record of eight little-endian unsigned fields, 36 bytes of fields padded
    to 40 bytes by the 8-byte alignment of its `u64` members. */
module Meta {
  import opened Common

  datatype MessageMeta = MessageMeta(
    messageId: u64,
    timestampNs: u64,
    channelId: u32,
    messageType: u32,
    senderPid: u32,
    senderRuntime: u16,
    flags: u16,
    payloadLen: u32)

  /** `MessageMeta::default()`: every field zero. */
  const DefaultMeta: MessageMeta := MessageMeta(0, 0, 0, 0, 0, 0, 0, 0)

  /** Byte size of the record: 36 bytes of fields rounded up to a multiple of 8. */
  const META_SIZE: nat := 40
  const FIELD_BYTES: nat := 36

  const OFF_MESSAGE_ID: nat := 0
  const OFF_TIMESTAMP_NS: nat := 8
  const OFF_CHANNEL_ID: nat := 16
  const OFF_MESSAGE_TYPE: nat := 20
  const OFF_SENDER_PID: nat := 24
  const OFF_SENDER_RUNTIME: nat := 28
  const OFF_FLAGS: nat := 30
  const OFF_PAYLOAD_LEN: nat := 32

  function Pow256(n: nat): (r: nat)
    ensures r > 0
  {
    if n == 0 then 1 else 256 * Pow256(n - 1)
  }

  lemma Pow256Widths()
    ensures Pow256(2) == 0x1_0000
    ensures Pow256(4) == 0x1_0000_0000
    ensures Pow256(8) == 0x1_0000_0000_0000_0000
  {
    assert Pow256(1) == 256;
    assert Pow256(3) == 256 * Pow256(2);
    assert Pow256(5) == 256 * Pow256(4);
    assert Pow256(6) == 256 * Pow256(5);
    assert Pow256(7) == 256 * Pow256(6);
  }

  /** The `width` low-order bytes of `x`, least significant first. */
  function LittleEndian(x: nat, width: nat): (r: seq<byte>)
    ensures |r| == width
  {
    if width == 0 then [] else [x % 256] + LittleEndian(x / 256, width - 1)
  }

  /** The number whose little-endian image is `s`. */
  function FromLittleEndian(s: seq<byte>): (r: nat)
    ensures r < Pow256(|s|)
  {
    if |s| == 0 then 0 else s[0] + 256 * FromLittleEndian(s[1..])
  }

  lemma {:induction false} LittleEndianRoundTrip(x: nat, width: nat)
    requires x < Pow256(width)
    ensures FromLittleEndian(LittleEndian(x, width)) == x
  {
    if width > 0 {
      LittleEndianRoundTrip(x / 256, width - 1);
      var s := LittleEndian(x, width);
      assert s[1..] == LittleEndian(x / 256, width - 1);
    }
  }

  lemma {:induction false} LittleEndianOfValue(s: seq<byte>)
    ensures LittleEndian(FromLittleEndian(s), |s|) == s
  {
    if |s| > 0 {
      var v := FromLittleEndian(s);
      var rest := FromLittleEndian(s[1..]);
      assert v % 256 == s[0] && v / 256 == rest;
      LittleEndianOfValue(s[1..]);
    }
  }

  lemma {:induction false} LittleEndianZero(width: nat)
    ensures LittleEndian(0, width) == seq(width, _ => 0)
  {
    if width > 0 {
      LittleEndianZero(width - 1);
    }
  }

  /** The 40-byte image of a record: each field little-endian at its offset,
      the four trailing padding bytes zero. */
  function Encode(m: MessageMeta): (r: seq<byte>)
    ensures |r| == META_SIZE
    ensures r[OFF_MESSAGE_ID..OFF_MESSAGE_ID + 8] == LittleEndian(m.messageId, 8)
    ensures r[OFF_TIMESTAMP_NS..OFF_TIMESTAMP_NS + 8] == LittleEndian(m.timestampNs, 8)
    ensures r[OFF_CHANNEL_ID..OFF_CHANNEL_ID + 4] == LittleEndian(m.channelId, 4)
    ensures r[OFF_MESSAGE_TYPE..OFF_MESSAGE_TYPE + 4] == LittleEndian(m.messageType, 4)
    ensures r[OFF_SENDER_PID..OFF_SENDER_PID + 4] == LittleEndian(m.senderPid, 4)
    ensures r[OFF_SENDER_RUNTIME..OFF_SENDER_RUNTIME + 2] == LittleEndian(m.senderRuntime, 2)
    ensures r[OFF_FLAGS..OFF_FLAGS + 2] == LittleEndian(m.flags, 2)
    ensures r[OFF_PAYLOAD_LEN..OFF_PAYLOAD_LEN + 4] == LittleEndian(m.payloadLen, 4)
    ensures r[FIELD_BYTES..META_SIZE] == [0, 0, 0, 0]
  {
    var a := LittleEndian(m.messageId, 8);
    var b := LittleEndian(m.timestampNs, 8);
    var c := LittleEndian(m.channelId, 4);
    var d := LittleEndian(m.messageType, 4);
    var e := LittleEndian(m.senderPid, 4);
    var f := LittleEndian(m.senderRuntime, 2);
    var g := LittleEndian(m.flags, 2);
    var h := LittleEndian(m.payloadLen, 4);
    var r := a + b + c + d + e + f + g + h + [0, 0, 0, 0];
    assert r[0..8] == a;
    assert r[8..16] == b;
    assert r[16..20] == c;
    assert r[20..24] == d;
    assert r[24..28] == e;
    assert r[28..30] == f;
    assert r[30..32] == g;
    assert r[32..36] == h;
    r
  }

  function FieldU64(s: seq<byte>): u64
    requires |s| == 8
  {
    Pow256Widths();
    FromLittleEndian(s)
  }

  function FieldU32(s: seq<byte>): u32
    requires |s| == 4
  {
    Pow256Widths();
    FromLittleEndian(s)
  }

  function FieldU16(s: seq<byte>): u16
    requires |s| == 2
  {
    Pow256Widths();
    FromLittleEndian(s)
  }

  /** Reads a record back from its byte image; the padding bytes are ignored.
      Anything but exactly 40 bytes is not a record. */
  function Decode(s: seq<byte>): (r: Option<MessageMeta>)
    ensures r.Some? <==> |s| == META_SIZE
    ensures r.Some? ==> r.value.payloadLen == FromLittleEndian(s[OFF_PAYLOAD_LEN..OFF_PAYLOAD_LEN + 4])
  {
    if |s| != META_SIZE then None
    else Some(MessageMeta(
      FieldU64(s[OFF_MESSAGE_ID..OFF_MESSAGE_ID + 8]),
      FieldU64(s[OFF_TIMESTAMP_NS..OFF_TIMESTAMP_NS + 8]),
      FieldU32(s[OFF_CHANNEL_ID..OFF_CHANNEL_ID + 4]),
      FieldU32(s[OFF_MESSAGE_TYPE..OFF_MESSAGE_TYPE + 4]),
      FieldU32(s[OFF_SENDER_PID..OFF_SENDER_PID + 4]),
      FieldU16(s[OFF_SENDER_RUNTIME..OFF_SENDER_RUNTIME + 2]),
      FieldU16(s[OFF_FLAGS..OFF_FLAGS + 2]),
      FieldU32(s[OFF_PAYLOAD_LEN..OFF_PAYLOAD_LEN + 4])))
  }

  /** Every record survives a trip through its byte image. */
  lemma DecodeEncode(m: MessageMeta)
    ensures Decode(Encode(m)) == Some(m)
  {
    Pow256Widths();
    LittleEndianRoundTrip(m.messageId, 8);
    LittleEndianRoundTrip(m.timestampNs, 8);
    LittleEndianRoundTrip(m.channelId, 4);
    LittleEndianRoundTrip(m.messageType, 4);
    LittleEndianRoundTrip(m.senderPid, 4);
    LittleEndianRoundTrip(m.senderRuntime, 2);
    LittleEndianRoundTrip(m.flags, 2);
    LittleEndianRoundTrip(m.payloadLen, 4);
  }

  /** Conversely, a 40-byte image with zero padding is the image of the
      record it decodes to. */
  lemma EncodeDecode(s: seq<byte>)
    requires |s| == META_SIZE && s[FIELD_BYTES..META_SIZE] == [0, 0, 0, 0]
    ensures Decode(s).Some? && Encode(Decode(s).value) == s
  {
    var m := Decode(s).value;
    var e := Encode(m);
    LittleEndianOfValue(s[0..8]);
    LittleEndianOfValue(s[8..16]);
    LittleEndianOfValue(s[16..20]);
    LittleEndianOfValue(s[20..24]);
    LittleEndianOfValue(s[24..28]);
    LittleEndianOfValue(s[28..30]);
    LittleEndianOfValue(s[30..32]);
    LittleEndianOfValue(s[32..36]);
    forall i | 0 <= i < META_SIZE
      ensures e[i] == s[i]
    {
      if i < 8 { assert e[i] == e[0..8][i]; assert s[i] == s[0..8][i]; }
      else if i < 16 { assert e[i] == e[8..16][i - 8]; assert s[i] == s[8..16][i - 8]; }
      else if i < 20 { assert e[i] == e[16..20][i - 16]; assert s[i] == s[16..20][i - 16]; }
      else if i < 24 { assert e[i] == e[20..24][i - 20]; assert s[i] == s[20..24][i - 20]; }
      else if i < 28 { assert e[i] == e[24..28][i - 24]; assert s[i] == s[24..28][i - 24]; }
      else if i < 30 { assert e[i] == e[28..30][i - 28]; assert s[i] == s[28..30][i - 28]; }
      else if i < 32 { assert e[i] == e[30..32][i - 30]; assert s[i] == s[30..32][i - 30]; }
      else if i < 36 { assert e[i] == e[32..36][i - 32]; assert s[i] == s[32..36][i - 32]; }
      else { assert e[i] == e[36..40][i - 36]; assert s[i] == s[36..40][i - 36]; }
    }
  }

  /** The default record is forty zero bytes. */
  lemma EncodeDefault()
    ensures Encode(DefaultMeta) == seq(META_SIZE, _ => 0)
  {
    LittleEndianZero(8);
    LittleEndianZero(4);
    LittleEndianZero(2);
    var e := Encode(DefaultMeta);
    forall i | 0 <= i < META_SIZE
      ensures e[i] == 0
    {
      if i < 8 { assert e[i] == e[0..8][i]; }
      else if i < 16 { assert e[i] == e[8..16][i - 8]; }
      else if i < 20 { assert e[i] == e[16..20][i - 16]; }
      else if i < 24 { assert e[i] == e[20..24][i - 20]; }
      else if i < 28 { assert e[i] == e[24..28][i - 24]; }
      else if i < 30 { assert e[i] == e[28..30][i - 28]; }
      else if i < 32 { assert e[i] == e[30..32][i - 30]; }
      else if i < 36 { assert e[i] == e[32..36][i - 32]; }
      else { assert e[i] == e[36..40][i - 36]; }
    }
  }
}
