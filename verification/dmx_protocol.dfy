/** The binary DMX frame and its text transport (`DMXProtocol`).
    A frame is a 2-byte big-endian universe followed by one byte per channel;
    for the text-only Redis channel it travels as standard Base64. */
module DmxProtocol {
  import opened Common
  import opened Base64

  /** Why `struct.pack("!H{n}B", ...)` raises `struct.error`. The universe
      argument is packed first, so it is reported first. */
  datatype PackError = UniverseOutOfRange | ChannelOutOfRange

  /** `base64.b64decode` raising `binascii.Error`. */
  datatype TransportError = MalformedBase64

  /** Range of the `H` (unsigned short) format code. */
  predicate IsUnsignedShort(v: int)
  {
    0 <= v < 65536
  }

  /** Range of the `B` (unsigned char) format code. */
  predicate AllUnsignedChars(channels: seq<int>)
  {
    forall i :: 0 <= i < |channels| ==> 0 <= channels[i] < 256
  }

  /** `pack_frame(universe, channels)`. There is no cap on the number of
      channels: any length packs. */
  function PackFrame(universe: int, channels: seq<int>): (r: Result<seq<Byte>, PackError>)
    ensures r.Ok? <==> IsUnsignedShort(universe) && AllUnsignedChars(channels)
    ensures !IsUnsignedShort(universe) ==> r == Err(UniverseOutOfRange)
    ensures IsUnsignedShort(universe) && !AllUnsignedChars(channels) ==> r == Err(ChannelOutOfRange)
    ensures r.Ok? ==> |r.value| == 2 + |channels|
    ensures r.Ok? ==> r.value[0] == universe / 256 && r.value[1] == universe % 256
    ensures r.Ok? ==> forall i :: 0 <= i < |channels| ==> r.value[i + 2] == channels[i]
  {
    if !IsUnsignedShort(universe) then Err(UniverseOutOfRange)
    else if !AllUnsignedChars(channels) then Err(ChannelOutOfRange)
    else
      var body: seq<Byte> := channels;
      Ok([universe / 256, universe % 256] + body)
  }

  /** Reads a frame back: bytes 0-1 are the universe, bytes 2.. the channels.
      `None` for a buffer too short to hold the universe. */
  function UnpackFrame(frame: seq<Byte>): Option<(int, seq<int>)>
  {
    if |frame| < 2 then None
    else
      var high: int, low: int := frame[0], frame[1];
      Some((high * 256 + low, frame[2..]))
  }

  /** The layout is uniquely decodable: unpacking a packed frame gives back
      the universe and the channels. */
  lemma UnpackPack(universe: int, channels: seq<int>)
    requires PackFrame(universe, channels).Ok?
    ensures UnpackFrame(PackFrame(universe, channels).value) == Some((universe, channels))
  {
    var frame := PackFrame(universe, channels).value;
    assert frame[2..] == channels;
  }

  /** Every buffer of at least two bytes is the frame of what it unpacks to. */
  lemma PackUnpack(frame: seq<Byte>)
    requires |frame| >= 2
    ensures UnpackFrame(frame).Some?
    ensures PackFrame(UnpackFrame(frame).value.0, UnpackFrame(frame).value.1) == Ok(frame)
  {
    var (u, chs) := UnpackFrame(frame).value;
    assert IsUnsignedShort(u);
    assert frame == [u / 256, u % 256] + chs;
  }

  /** Two packings that give the same bytes came from the same arguments. */
  lemma PackInjective(u1: int, c1: seq<int>, u2: int, c2: seq<int>)
    requires PackFrame(u1, c1).Ok? && PackFrame(u1, c1) == PackFrame(u2, c2)
    ensures u1 == u2 && c1 == c2
  {
    UnpackPack(u1, c1);
    UnpackPack(u2, c2);
  }

  /** `to_transport(universe, channels)`: the Base64 text of the frame. */
  function ToTransport(universe: int, channels: seq<int>): (r: Result<string, PackError>)
    ensures r.Ok? <==> PackFrame(universe, channels).Ok?
    ensures r.Err? ==> r.error == PackFrame(universe, channels).error
    ensures r.Ok? ==> |r.value| == 4 * ((2 + |channels| + 2) / 3)
    ensures r.Ok? ==> forall i :: 0 <= i < |r.value| ==>
                        IsAlphabetChar(r.value[i]) || (r.value[i] == Padding && i >= |r.value| - 2)
  {
    match PackFrame(universe, channels)
    case Err(e) => Err(e)
    case Ok(frame) => Ok(Encode(frame))
  }

  /** `from_transport(text)`, restricted to canonical Base64. */
  function FromTransport(text: string): Result<seq<Byte>, TransportError>
  {
    match Decode(text)
    case None => Err(MalformedBase64)
    case Some(frame) => Ok(frame)
  }

  /** The transport round trip is exact, byte for byte:
      `from_transport(to_transport(u, chs)) == pack_frame(u, chs)`. */
  lemma TransportRoundTrip(universe: int, channels: seq<int>)
    requires ToTransport(universe, channels).Ok?
    ensures FromTransport(ToTransport(universe, channels).value) == Ok(PackFrame(universe, channels).value)
  {
    DecodeEncode(PackFrame(universe, channels).value);
  }

  /** Conversely, whatever text `from_transport` accepts is exactly the
      transport form of the bytes it yields. */
  lemma FromTransportCanonical(text: string)
    requires FromTransport(text).Ok?
    ensures Encode(FromTransport(text).value) == text
  {
    EncodeDecode(text);
  }

  /** Universe 0 with channels [255, 0, 0] packs to 00 00 FF 00 00 and
      travels as "AAD/AAA=". */
  lemma RedFrameExample()
    ensures PackFrame(0, [255, 0, 0]) == Ok([0, 0, 255, 0, 0])
    ensures ToTransport(0, [255, 0, 0]) == Ok("AAD/AAA=")
  {
    var channels: seq<int> := [255, 0, 0];
    var frame: seq<Byte> := [0, 0, 255, 0, 0];
    assert AllUnsignedChars(channels);
    var body: seq<Byte> := channels;
    assert [0 / 256, 0 % 256] + body == frame;
    assert frame[3..] == [0, 0];
    assert Encode(frame) == EncodeQuantum(0, 0, 255) + Encode([0, 0]);
    assert EncodeQuantum(0, 0, 255) == "AAD/";
    assert Encode([0, 0]) == "AAA=";
    assert Encode(frame) == "AAD/AAA=";
    assert PackFrame(0, channels) == Ok(frame);
  }

  /** No channel-count limit is enforced: 513 channels pack into a
      515-byte frame. */
  lemma NoChannelCap()
    ensures PackFrame(1, seq(513, i => 0)).Ok?
    ensures |PackFrame(1, seq(513, i => 0)).value| == 515
  {
  }
}
