/** What the tag and the pad of a timed commitment bind (timed_commitments/src/basic_tc.rs). */
module Authenticity {
  import opened Arithmetic
  import opened Bytes
  import opened Outcomes
  import opened HiddenOrder
  import opened TimedCommitments

  /** Two different inputs of the hash with the same digest. */
  predicate Collision<C>(k: Crypto<C>, x: seq<byte>, y: seq<byte>)
  {
    x != y && k.digest(x) == k.digest(y)
  }

  predicate Accepts<C>(k: Crypto<C>, key: seq<byte>, ct: seq<byte>, ad: seq<byte>)
    requires |key| == 32
  {
    |ct| > 32 && ct[|ct| - 32..] == k.digest(key[16..] + ct[..|ct| - 32] + ad)
  }

  /** A ciphertext is accepted exactly when its last 32 bytes are the digest of key half, body and associated data. */
  lemma AcceptedTag<C>(k: Crypto<C>, key: seq<byte>, ct: seq<byte>, ad: seq<byte>)
    requires Sized(k) && |key| == 32
    ensures (Decrypt(k, key, ct, ad).Done? && Decrypt(k, key, ct, ad).value.Some?) <==> Accepts(k, key, ct, ad)
  {
    hide OneTimePad;
  }

  lemma Unpack(a: seq<byte>, b: seq<byte>, c: seq<byte>, a': seq<byte>, b': seq<byte>, c': seq<byte>)
    requires |a| == |a'| && |c| == |c'| && a + b + c == a' + b' + c'
    ensures a == a' && b == b' && c == c'
  {
    var s, s' := a + b + c, a' + b' + c';
    assert |b| == |b'|;
    assert s[..|a|] == a && s'[..|a|] == a';
    assert s[|a|..|a| + |b|] == b && s'[|a|..|a| + |b|] == b';
    assert s[|a| + |b|..] == c && s'[|a| + |b|..] == c';
  }

  /**
   * Integrity: one tag goes with one body, one associated data of its width and one half key, or two different
   * inputs of the hash collide. So an altered ciphertext is turned down.
   */
  lemma TagBinds<C>(k: Crypto<C>, key: seq<byte>, body: seq<byte>, ad: seq<byte>, key': seq<byte>, body': seq<byte>, ad': seq<byte>, tag: seq<byte>)
    returns (x: seq<byte>, y: seq<byte>)
    requires Sized(k) && |key| == |key'| == 32 && |ad| == |ad'| && |tag| == 32
    requires Decrypt(k, key, body + tag, ad).Done? && Decrypt(k, key, body + tag, ad).value.Some?
    requires Decrypt(k, key', body' + tag, ad').Done? && Decrypt(k, key', body' + tag, ad').value.Some?
    ensures Collision(k, x, y) || (body == body' && ad == ad' && key[16..] == key'[16..])
  {
    AcceptedTag(k, key, body + tag, ad);
    AcceptedTag(k, key', body' + tag, ad');
    hide Decrypt, Sized;
    var c, c' := body + tag, body' + tag;
    assert c[..|c| - 32] == body && c[|c| - 32..] == tag;
    assert c'[..|c'| - 32] == body' && c'[|c'| - 32..] == tag;
    x, y := key[16..] + body + ad, key'[16..] + body' + ad';
    if x == y {
      Unpack(key[16..], body, ad, key'[16..], body', ad');
    }
  }

  /** The time parameter is bound: a ciphertext accepted for two 64-bit times shows a collision. */
  lemma TimeBound<C>(k: Crypto<C>, key: seq<byte>, key': seq<byte>, ct: seq<byte>, t: nat, t': nat) returns (x: seq<byte>, y: seq<byte>)
    requires Sized(k) && |key| == |key'| == 32 && t < Pow(256, 8) && t' < Pow(256, 8)
    requires Decrypt(k, key, ct, Ad(t)).Done? && Decrypt(k, key, ct, Ad(t)).value.Some?
    requires Decrypt(k, key', ct, Ad(t')).Done? && Decrypt(k, key', ct, Ad(t')).value.Some?
    ensures Collision(k, x, y) || (t == t' && key[16..] == key'[16..])
  {
    var body, tag := ct[..|ct| - 32], ct[|ct| - 32..];
    assert ct == body + tag;
    BERoundTrip(t, 8);
    BERoundTrip(t', 8);
    hide Decrypt, Pow, Sized;
    x, y := TagBinds(k, key, body, Ad(t), key', body, Ad(t'), tag);
  }

  /** A commitment that is opened to a message for two different times shows a collision. */
  lemma OtherTimeRefused<C>(k: Crypto<C>, pp: TimeParams, pp': TimeParams, c: Comm, m: seq<byte>, o: Opening, m': seq<byte>, o': Opening)
    returns (x: seq<byte>, y: seq<byte>)
    requires Sized(k) && pp.t < Pow(256, 8) && pp'.t < Pow(256, 8) && pp.t != pp'.t
    requires BasicVerOpen(k, pp, c, Some(m), o) == Done(true) && BasicVerOpen(k, pp', c, Some(m'), o') == Done(true)
    ensures Collision(k, x, y)
  {
    hide Pow, Decrypt, OpenedElement, Ad;
    var y1, y2 := OpenedElement(k, pp, c, o).value.0, OpenedElement(k, pp', c, o').value.0;
    x, y := TimeBound(k, KeyOf(k, y1), KeyOf(k, y2), c.ct, pp.t, pp'.t);
  }

  /**
   * The key is bound to the group element: whoever gets a message out of a ciphertext with another element has found
   * a collision, of the hash or of the second half of its digests.
   */
  lemma ElementBound<C>(k: Crypto<C>, y1: int, y2: int, ct: seq<byte>, ad: seq<byte>) returns (x: seq<byte>, y: seq<byte>)
    requires Sized(k)
    requires Decrypt(k, KeyOf(k, y1), ct, ad).Done? && Decrypt(k, KeyOf(k, y1), ct, ad).value.Some?
    requires Decrypt(k, KeyOf(k, y2), ct, ad).Done? && Decrypt(k, KeyOf(k, y2), ct, ad).value.Some?
    ensures Collision(k, x, y) || k.digest(k.encode(y1))[16..] == k.digest(k.encode(y2))[16..]
  {
    var body, tag := ct[..|ct| - 32], ct[|ct| - 32..];
    assert ct == body + tag;
    hide Decrypt;
    x, y := TagBinds(k, KeyOf(k, y1), body, ad, KeyOf(k, y2), body, ad, tag);
  }

  // -------------------------------------------------------------------- the pad

  /** Byte `i` of the stream is byte `i % 32` of the digest of the key with block number `i / 32`, cut to a byte. */
  lemma {:induction false} StreamByte<C>(k: Crypto<C>, key: seq<byte>, from: nat, blocks: nat, i: nat)
    requires Sized(k) && i < 32 * blocks
    ensures |PadStream(k, key, from, blocks)| == 32 * blocks
    ensures PadStream(k, key, from, blocks)[i] == k.digest(key + [(from + i / 32) % 256])[i % 32]
    decreases blocks
  {
    PadLength(k, key, from, blocks);
    PadLength(k, key, from + 1, blocks - 1);
    if i >= 32 {
      StreamByte(k, key, from + 1, blocks - 1, i - 32);
    }
  }

  /** What encryption does to each byte, bit by bit: a bit flips exactly where the block's digest has a one. */
  lemma PadByte<C>(k: Crypto<C>, key: seq<byte>, m: seq<byte>, i: nat, bit: nat)
    requires Sized(k) && i < |m| && bit < 8
    ensures Bit(OneTimePad(k, key, m)[i], bit)
         == if Bit(m[i], bit) == Bit(k.digest(key + [(i / 32) % 256])[i % 32], bit) then 0 else 1
  {
    var pad := PadStream(k, key, 0, Blocks(|m|));
    StreamByte(k, key, 0, Blocks(|m|), i);
    assert OneTimePad(k, key, m)[i] == Xor(m[i], pad[i]);
    EightBits();
    XorBitwise(m[i], pad[i], 8, bit);
  }
}
