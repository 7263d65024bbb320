// Encoding a message into a buffer and decoding what was written.
module PbEndToEnd {
  import opened Bits
  import opened Results
  import opened PbDescriptor
  import opened PbEncodeSpec
  import opened PbRoundTrip
  import opened PbOutput
  import opened PbInput
  import PbDecodeSpec
  import PbDecode

  // pb_encode into a buffer and pb_decode of the bytes written.
  method EncodeThenDecode(fs: seq<Field>, m: Msg, buffer: array<byte>)
    returns (encoded: bool, decoded: bool, left: nat, dest: array<Slot>)
    requires DescriptorOk(fs) && MsgOk(fs, m) && SizedMsg(fs, m)
    modifies buffer
    ensures encoded <==> EncMsg(fs, m).Ok? && |EncMsg(fs, m).value| <= buffer.Length
    ensures encoded && MsgShort(fs, m, 0) ==>
              && (decoded <==> MsgFits(fs, m, 0))
              && (decoded ==> dest[..] == NormMsg(fs, m) && left == 0)
  {
    hide EncFrom, MsgOk, NormMsg, MsgFits, MsgShort, DescriptorOk, SizedMsg, PbDecodeSpec.Decode, PbDecode.Searchable;
    dest := new Slot[|fs|](i => Shared);
    decoded, left := false, 0;
    DescriptorOkSizes(fs);
    var out := new OStream.FromBuffer(buffer, 0, buffer.Length);
    encoded := out.Encode(fs, m);
    if !encoded {
      return;
    }
    var written := out.bytesWritten;
    assert written == |EncMsg(fs, m).value| && buffer[..written] == EncMsg(fs, m).value;
    var input := new IStream(buffer[..], 0, written, None);
    assert Left(input.Snap()) == EncMsg(fs, m).value;
    PbDecode.DescriptorOkSearchable(fs);
    if MsgShort(fs, m, 0) {
      MsgDecodes(fs, m);
    }
    decoded := PbDecode.Decode(input, fs, dest);
    left := input.bytesLeft;
  }
}
