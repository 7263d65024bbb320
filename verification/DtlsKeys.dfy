// Which key seals a message of a flight, and when it is sealed.
module DtlsKeys {
  import opened Bits
  import opened Results
  import opened DtlsFragment
  import opened DtlsSender

  // The key of an epoch: the current one, or that of the epoch before.
  datatype Key = Key(cipher: Cipher, next: nat)

  function KeyOf(k: Keys, epoch: nat): Option<Key> {
    if epoch == k.epoch then Some(Key(k.cur, k.curSeq))
    else if epoch + 1 == k.epoch then Some(Key(k.prev, k.prevSeq))
    else None
  }

  // The keys after one record of an epoch.
  function Spent(k: Keys, epoch: nat): Keys {
    if epoch == k.epoch then k.(curSeq := k.curSeq + 1) else k.(prevSeq := k.prevSeq + 1)
  }

  // A ChangeCipherSpec is sealed under the key of its own epoch, whole, if there is room and a
  // record number; under no other key.
  lemma CcsSealed(s: Sender, maxOut: nat)
    requires s.written < |s.flight| && s.flight[s.written].isCcs && maxOut < 0x1_0000
    requires CipherSound(s.keys.cur) && CipherSound(s.keys.prev)
    ensures var key, r := KeyOf(s.keys, s.flight[s.written].epoch), SealMessage(s, maxOut);
            && (key.None? ==> r == SealError(s.keys))
            && (key.Some? && maxOut < 14 + key.value.cipher.maxOverhead ==> r == NoProgress)
            && (key.Some? && maxOut >= 14 + key.value.cipher.maxOverhead ==>
                  if key.value.next < 0xFFFF_FFFF_FFFF
                  then r == Written(Piece(s.written, 0, 0, [1], 13 + key.value.cipher.sealedLen(1)),
                                    Spent(s.keys, s.flight[s.written].epoch), true)
                  else r.SealError?)
  {
  }

  // A handshake message is sealed under the key of its epoch from the offset on, as much of it as
  // the packet has room for, with a header that says which part it is.
  lemma HandshakeSealed(s: Sender, maxOut: nat)
    requires s.written < |s.flight| && !s.flight[s.written].isCcs && maxOut < 0x1_0000
    requires Whole(s.flight[s.written].data).Some? && s.offset <= |Whole(s.flight[s.written].data).value.body|
    requires CipherSound(s.keys.cur) && CipherSound(s.keys.prev)
    ensures var key, r := KeyOf(s.keys, s.flight[s.written].epoch), SealMessage(s, maxOut);
            && (key.None? ==> r == SealError(s.keys))
            && (key.Some? && maxOut < 26 + key.value.cipher.maxOverhead ==> r == NoProgress)
            && (key.Some? && maxOut >= 26 + key.value.cipher.maxOverhead ==>
                  if key.value.next < 0xFFFF_FFFF_FFFF
                  then
                    var f := Whole(s.flight[s.written].data).value;
                    var left, room := |f.body| - s.offset, maxOut - 25 - key.value.cipher.maxOverhead;
                    var n := if left <= room then left else room;
                    r == Written(Piece(s.written, s.offset, n,
                                       PutHeader(f.hdr.(fragOff := s.offset, fragLen := n)) + f.body[s.offset..s.offset + n],
                                       13 + key.value.cipher.sealedLen(12 + n)),
                                 Spent(s.keys, s.flight[s.written].epoch), n == left)
                  else r.SealError?)
  {
    hide PutHeader, ParseFragment;
  }
}
