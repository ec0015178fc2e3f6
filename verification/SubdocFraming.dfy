/** The payload of a subdocument frame: two length bytes, the guid, the update. */
module SubdocFraming {
  import opened Wrappers

  newtype Byte = x: int | 0 <= x < 256

  const MAX_SUBDOC_GUID_BYTES: nat := 65535

  function Payload(guid: seq<Byte>, update: seq<Byte>): seq<Byte>
    requires |guid| <= MAX_SUBDOC_GUID_BYTES
  {
    [(|guid| / 256) as Byte, (|guid| % 256) as Byte] + guid + update
  }

  /** `encodeSubdocPayload`: fills a byte array; a guid of no bytes or too many throws. */
  method EncodeSubdocPayload(guid: seq<Byte>, update: seq<Byte>) returns (r: Option<array<Byte>>)
    ensures r.Some? <==> 1 <= |guid| <= MAX_SUBDOC_GUID_BYTES
    ensures r.Some? ==> fresh(r.value) && r.value[..] == Payload(guid, update)
  {
    if |guid| == 0 || |guid| > MAX_SUBDOC_GUID_BYTES {
      return None;
    }
    var payload := new Byte[2 + |guid| + |update|];
    payload[0] := (|guid| / 256) as Byte;
    payload[1] := (|guid| % 256) as Byte;
    for i := 0 to |guid|
      invariant payload[0] == (|guid| / 256) as Byte && payload[1] == (|guid| % 256) as Byte
      invariant forall k :: 0 <= k < i ==> payload[2 + k] == guid[k]
    {
      payload[2 + i] := guid[i];
    }
    for i := 0 to |update|
      invariant payload[0] == (|guid| / 256) as Byte && payload[1] == (|guid| % 256) as Byte
      invariant forall k :: 0 <= k < |guid| ==> payload[2 + k] == guid[k]
      invariant forall k :: 0 <= k < i ==> payload[2 + |guid| + k] == update[k]
    {
      payload[2 + |guid| + i] := update[i];
    }
    assert payload[..] == Payload(guid, update);
    return Some(payload);
  }

  datatype Frame = Frame(guid: seq<Byte>, update: seq<Byte>)

  /** `decodeSubdocPayload`, up to the bytes of the guid. */
  function Decode(payload: seq<Byte>): Option<Frame> {
    if |payload| < 3 then None
    else
      var guidLength := payload[0] as int * 256 + payload[1] as int;
      if guidLength == 0 || |payload| < 2 + guidLength then None
      else
        var update := payload[2 + guidLength..];
        if update == [] then None else Some(Frame(payload[2..2 + guidLength], update))
  }

  /** Decoding undoes encoding exactly for the frames that can be sent and are not empty. */
  lemma DecodeOfEncoded(guid: seq<Byte>, update: seq<Byte>)
    requires |guid| <= MAX_SUBDOC_GUID_BYTES
    ensures Decode(Payload(guid, update)) == Some(Frame(guid, update)) <==> guid != [] && update != []
  {
    var payload := Payload(guid, update);
    assert payload[0] as int * 256 + payload[1] as int == |guid|;
    assert payload[2..2 + |guid|] == guid && payload[2 + |guid|..] == update;
  }

  /** Every payload the decoder accepts is the encoding of what it returns. */
  lemma EncodedOfDecoded(payload: seq<Byte>)
    requires Decode(payload).Some?
    ensures var frame := Decode(payload).value;
            && 1 <= |frame.guid| <= MAX_SUBDOC_GUID_BYTES && frame.update != []
            && Payload(frame.guid, frame.update) == payload
  {
    var frame := Decode(payload).value;
    assert |frame.guid| == payload[0] as int * 256 + payload[1] as int;
    assert |frame.guid| / 256 == payload[0] as int && |frame.guid| % 256 == payload[1] as int;
    assert payload == payload[..2] + payload[2..2 + |frame.guid|] + payload[2 + |frame.guid|..];
  }
}
