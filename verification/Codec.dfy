/** The encoder and the decoder together, on streams. */
module Codec {
  import opened Options
  import opened Varints
  import opened Proto
  import opened ProtoStream
  import ProtoEncoder
  import ProtoDecoder
  import ProtoRoundTrip
  import SizeBound

  /** A message written into a large enough buffer is read back: unchanged when the
      tags of its type are in order, and in any order as ReadMsg says. */
  method EncodeThenDecode(fs: seq<Field>, m: seq<Slot>, limit: nat) returns (r: Option<seq<Slot>>)
    requires ProtoRoundTrip.Sound(fs, m) && |EncMsg(fs, m)| < TWO_64
    ensures |EncMsg(fs, m)| > limit ==> r == None
    ensures |EncMsg(fs, m)| <= limit ==> r == ProtoRoundTrip.ReadMsg(fs, m)
    ensures |EncMsg(fs, m)| <= limit ==> (r == Some(m) <==> ProtoRoundTrip.KeptMsg(fs, m))
    ensures |EncMsg(fs, m)| <= limit && ProtoRoundTrip.Ordered(fs) ==> r == Some(m)
  {
    hide EncMsg, Decode, TypedMsg, FitsMsg, DescOk, ProtoRoundTrip.ReadMsg, ProtoRoundTrip.KeptMsg,
         ProtoRoundTrip.Ordered;
    var out := new ProtoEncoder.OStream.Onto([], limit);
    var status := ProtoEncoder.EncodeMsg(out, fs, m);
    if status.Failed? {
      return None;
    }
    assert out.buffer == EncMsg(fs, m);
    var input := new IStream(out.buffer);
    ProtoRoundTrip.MsgReadsBack(fs, m);
    ProtoRoundTrip.RoundTripIff(fs, m);
    if ProtoRoundTrip.Ordered(fs) {
      ProtoRoundTrip.MsgRoundTrip(fs, m);
    }
    r := ProtoDecoder.DecodeMessage(input, fs);
  }

  /** A buffer of the generated size is large enough for every message of the
      type that passes the encoder's own checks. */
  method EncodeIntoGeneratedSize(items: seq<SizeBound.GItem>, m: seq<Slot>)
    returns (status: ProtoEncoder.Status, buffer: seq<byte>)
    requires SizeBound.ItemsOk(items) && DescOk(SizeBound.Lower(items)) && TypedMsg(SizeBound.Lower(items), m)
    requires SizeBound.DeclaredMsg(items, m) && SizeBound.MessageSize(items) < TWO_64
    requires |EncMsg(SizeBound.Lower(items), m)| < TWO_64
    ensures status.Done? <==> FitsMsg(SizeBound.Lower(items), m)
    ensures status.Done? ==> buffer == EncMsg(SizeBound.Lower(items), m)
  {
    hide EncMsg, TypedMsg, FitsMsg, DescOk, SizeBound.MessageSize, SizeBound.Lower, SizeBound.DeclaredMsg,
         SizeBound.ItemsOk;
    var fs := SizeBound.Lower(items);
    var out := new ProtoEncoder.OStream.Onto([], SizeBound.MessageSize(items));
    if FitsMsg(fs, m) {
      SizeBound.MessageBound(items, m);
    }
    status := ProtoEncoder.EncodeMsg(out, fs, m);
    buffer := out.buffer;
  }
}
