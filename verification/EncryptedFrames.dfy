/** Messages cut into chunks, each sealed under its own nonce. */
module EncryptedFrames {
  import opened Events
  import opened Varints
  import opened HeaderCodec

  const MAX_ENCRYPT_SIZE: nat := 1600
  const OVERHEAD: nat := 16

  datatype DecodeError = InvalidMsgSize | TooShort | DecryptionFailed
  datatype Outcome = Message(bytes: Octets) | Failed(why: DecodeError)

  /** Authenticated encryption under a nonce and a key. */
  datatype Box<!K> = Box(seal: (Octets, Octets, K) -> Octets, open: (Octets, Octets, K) -> Option<Octets>)

  /** Opening undoes sealing, and sealing adds a fixed number of bytes. */
  ghost predicate Sound<K(!new)>(box: Box<K>) {
    forall m, nonce, key :: |box.seal(m, nonce, key)| == |m| + OVERHEAD && box.open(box.seal(m, nonce, key), nonce, key) == Some(m)
  }

  function Min(a: nat, b: nat): nat { if a < b then a else b }

  /** The number of the chunk, then zeros. */
  function Nonce(id: nat): (s: Octets)
    ensures |s| == 24
  {
    LE(id, 8) + LE(0, 16)
  }

  lemma NonceInjective(a: nat, b: nat)
    requires a < U64 && b < U64 && Nonce(a) == Nonce(b)
    ensures a == b
  {
    hide LE, FromLE;
    assert Nonce(a)[..8] == LE(a, 8) && Nonce(b)[..8] == LE(b, 8);
    Sizes();
    LERoundTrip(a, 8);
    LERoundTrip(b, 8);
  }

  /** The chunks of `msg`, numbered from `id + 1` on. */
  ghost function Sealed<K>(box: Box<K>, key: K, msg: Octets, id: nat): Octets {
    if msg == [] then [] else
    var k := Min(MAX_ENCRYPT_SIZE, |msg|);
    LE(id + 1, 8) + box.seal(msg[..k], Nonce(id + 1), key) + Sealed(box, key, msg[k..], id + 1)
  }

  function Chunks(n: nat): nat {
    if n == 0 then 0 else 1 + Chunks(n - Min(MAX_ENCRYPT_SIZE, n))
  }

  /** The messages of the chunks one after the other. */
  ghost function Opened<K>(box: Box<K>, key: K, s: Octets): Outcome {
    if s == [] then Message([]) else
    var k := Min(MAX_ENCRYPT_SIZE + 8 + OVERHEAD, |s|);
    if k < 8 then Failed(TooShort) else
    var m := box.open(s[8..k], s[..8] + LE(0, 16), key);
    if m.None? then Failed(DecryptionFailed) else
    var rest := Opened(box, key, s[k..]);
    if rest.Failed? then rest else Message(m.value + rest.bytes)
  }

  /** Every chunk but the last has full size, so the receiver cuts where the sender did. */
  lemma {:induction false} OpenedSealed<K(!new)>(box: Box<K>, key: K, msg: Octets, id: nat)
    requires Sound(box)
    ensures Opened(box, key, Sealed(box, key, msg, id)) == Message(msg)
    ensures msg != [] ==> Sealed(box, key, msg, id) != []
    decreases |msg|
  {
    hide LE, Sound;
    if msg != [] {
      var k := Min(MAX_ENCRYPT_SIZE, |msg|);
      var n, body, rest := LE(id + 1, 8), box.seal(msg[..k], Nonce(id + 1), key), Sealed(box, key, msg[k..], id + 1);
      SoundHere(box, msg[..k], Nonce(id + 1), key);
      OpenedSealed(box, key, msg[k..], id + 1);
      var s := n + body + rest;
      var c := Min(MAX_ENCRYPT_SIZE + 8 + OVERHEAD, |s|);
      assert c == k + 8 + OVERHEAD;
      assert s[..8] == n && s[8..c] == body && s[c..] == rest;
      assert msg[..k] + msg[k..] == msg;
    }
  }

  /** At `at`, a chunk holds its number and `part` sealed under the nonce of that number. */
  ghost predicate ChunkAt<K>(box: Box<K>, key: K, s: Octets, at: nat, id: nat, part: Octets) {
    && at + 8 + OVERHEAD + |part| <= |s| && s[at..at + 8] == LE(id, 8)
    && s[at + 8..at + 8 + OVERHEAD + |part|] == box.seal(part, Nonce(id), key)
  }

  /** Chunk `c` starts after `c` full ones, and holds the part of the message that starts after `c` full parts. */
  lemma {:induction false} ChunkByPosition<K(!new)>(box: Box<K>, key: K, msg: Octets, id: nat, c: nat)
    requires Sound(box) && c < Chunks(|msg|)
    ensures
      var from := 1600 * c;
      from < |msg| &&
      var part := msg[from..from + Min(1600, |msg| - from)];
      && ChunkAt(box, key, Sealed(box, key, msg, id), 1624 * c, id + c + 1, part)
      && (c + 1 == Chunks(|msg|) <==> from + |part| == |msg|)
    decreases c
  {
    hide LE, Sound, Nonce, Sealed, Chunks, ChunkAt;
    var k := Min(1600, |msg|);
    if msg == [] { NoChunks(); }
    var head, rest := LE(id + 1, 8) + box.seal(msg[..k], Nonce(id + 1), key), Sealed(box, key, msg[k..], id + 1);
    FirstChunk(box, key, msg, id);
    ChunksNext(|msg|);
    if |msg| == k { NoChunks(); } else { ChunksNext(|msg| - k); }
    if c == 0 {
      ChunkHere(box, key, msg[..k], id + 1, rest);
    } else {
      SoundHere(box, msg[..k], Nonce(id + 1), key);
      ChunkByPosition(box, key, msg[k..], id + 1, c - 1);
      var from := 1600 * (c - 1);
      var l := Min(1600, |msg| - k - from);
      assert msg[k..][from..from + l] == msg[from + k..from + k + l];
      ChunkShifts(box, key, head, rest, 1624 * (c - 1), id + c + 1, msg[from + k..from + k + l]);
    }
  }

  lemma ChunkHere<K(!new)>(box: Box<K>, key: K, part: Octets, id: nat, rest: Octets)
    requires Sound(box)
    ensures ChunkAt(box, key, LE(id, 8) + box.seal(part, Nonce(id), key) + rest, 0, id, part)
  {
    hide LE, Sound, Nonce;
    SoundHere(box, part, Nonce(id), key);
  }

  lemma ChunkShifts<K>(box: Box<K>, key: K, head: Octets, rest: Octets, at: nat, id: nat, part: Octets)
    requires ChunkAt(box, key, rest, at, id, part)
    ensures ChunkAt(box, key, head + rest, |head| + at, id, part)
  {
    hide LE, Nonce;
    var s, w := head + rest, |head| + at;
    assert s[w..w + 8] == rest[at..at + 8];
    assert s[w + 8..w + 8 + OVERHEAD + |part|] == rest[at + 8..at + 8 + OVERHEAD + |part|];
  }

  lemma FirstChunk<K>(box: Box<K>, key: K, msg: Octets, id: nat)
    requires msg != []
    ensures var k := Min(MAX_ENCRYPT_SIZE, |msg|);
      Sealed(box, key, msg, id) == LE(id + 1, 8) + box.seal(msg[..k], Nonce(id + 1), key) + Sealed(box, key, msg[k..], id + 1)
  {
  }

  lemma SoundHere<K(!new)>(box: Box<K>, m: Octets, nonce: Octets, key: K)
    requires Sound(box)
    ensures |box.seal(m, nonce, key)| == |m| + OVERHEAD && box.open(box.seal(m, nonce, key), nonce, key) == Some(m)
  {
  }

  lemma {:induction false} SealedSize<K(!new)>(box: Box<K>, key: K, msg: Octets, id: nat)
    requires Sound(box)
    ensures |Sealed(box, key, msg, id)| == |msg| + (8 + OVERHEAD) * Chunks(|msg|)
    decreases |msg|
  {
    hide LE, Sound;
    if msg != [] {
      var k := Min(MAX_ENCRYPT_SIZE, |msg|);
      SoundHere(box, msg[..k], Nonce(id + 1), key);
      SealedSize(box, key, msg[k..], id + 1);
    }
  }

  /** The frame with its size in front, if asked for. */
  ghost function Frame<K>(box: Box<K>, key: K, msg: Octets, id: nat, includeSize: bool): Octets {
    var s := Sealed(box, key, msg, id);
    if includeSize then LE(|s| % U32, 4) + s else s
  }

  ghost function Unframe<K>(box: Box<K>, key: K, s: Octets, includeSize: bool): Outcome {
    if includeSize && (|s| < 4 || FromLE(s[..4]) != (|s| - 4) % U32) then Failed(InvalidMsgSize) else
    var body := if includeSize then s[4..] else s;
    if body == [] then Failed(InvalidMsgSize) else Opened(box, key, body)
  }

  /** Under paired keys, decoding what was encoded gives the message back, whatever its length. */
  lemma FrameRoundTrip<K(!new)>(box: Box<K>, key: K, msg: Octets, id: nat, includeSize: bool)
    requires Sound(box) && msg != []
    ensures Unframe(box, key, Frame(box, key, msg, id, includeSize), includeSize) == Message(msg)
  {
    hide LE, FromLE, Sound, Opened, Sealed;
    OpenedSealed(box, key, msg, id);
    var s := Sealed(box, key, msg, id);
    if includeSize {
      var f := Frame(box, key, msg, id, true);
      Sizes();
      LERoundTrip(|s| % U32, 4);
      assert f[..4] == LE(|s| % U32, 4) && f[4..] == s;
    }
  }

  class Encrypter<K(!new)> {
    const box: Box<K>
    const mySharedSecret: K
    const otherSharedSecret: K
    var sendSequenceID: nat
    /** The nonces used so far. */
    ghost var used: seq<Octets>

    ghost predicate Valid()
      reads this
    {
      && Sound(box) && sendSequenceID < U64 - 1
      && |used| == sendSequenceID && forall i :: 0 <= i < |used| ==> used[i] == Nonce(i + 1)
    }

    constructor (box: Box<K>, mine: K, other: K)
      requires Sound(box)
      ensures Valid() && this.box == box && mySharedSecret == mine && otherSharedSecret == other && sendSequenceID == 0
    {
      this.box, mySharedSecret, otherSharedSecret := box, mine, other;
      sendSequenceID, used := 0, [];
    }

    /** No two chunks ever share a nonce. */
    lemma NoncesDiffer(i: nat, j: nat)
      requires Valid() && i < j < |used|
      ensures used[i] != used[j]
    {
      if used[i] == used[j] { NonceInjective(i + 1, j + 1); }
    }

    /** Encrypts a message; the sequence number must not run out. */
    method Encode(message: Octets, includeSize: bool) returns (ret: Octets)
      requires Valid() && message != [] && sendSequenceID + Chunks(|message|) < U64 - 1
      modifies this`sendSequenceID, this`used
      ensures Valid() && ret == Frame(box, mySharedSecret, message, old(sendSequenceID), includeSize)
      ensures sendSequenceID == old(sendSequenceID) + Chunks(|message|)
      ensures old(used) <= used
    {
      hide LE, Sound, FromLE, Nonce, Sealed, Chunks;
      var msg := message;
      var size := |msg| % U32;
      var body: Octets := [];
      while msg != []
        invariant Valid() && old(used) <= used && sendSequenceID + Chunks(|msg|) == old(sendSequenceID) + Chunks(|message|)
        invariant body + Sealed(box, mySharedSecret, msg, sendSequenceID) == Sealed(box, mySharedSecret, message, old(sendSequenceID))
        invariant size == (|body| + |msg|) % U32
        decreases |msg|
      {
        var k := Min(MAX_ENCRYPT_SIZE, |msg|);
        var nxtMsg := msg[..k];
        var id := sendSequenceID + 1;
        SealNext(box, mySharedSecret, msg, sendSequenceID, body);
        SoundHere(box, nxtMsg, Nonce(id), mySharedSecret);
        SizeNext(|body| + |msg|);
        ChunksNext(|msg|);
        msg := msg[k..];
        sendSequenceID := id;
        used := used + [Nonce(id)];
        size := (size + 8 + OVERHEAD) % U32;
        body := body + LE(id, 8) + box.seal(nxtMsg, Nonce(id), mySharedSecret);
      }
      assert body == Sealed(box, mySharedSecret, message, old(sendSequenceID)) by {
        NothingSealed(box, mySharedSecret, sendSequenceID, body);
      }
      NoChunks();
      if includeSize {
        SizeOfSize(|body|);
        ret := LE(size, 4) + body;
        size := (size + 4) % U32;
      } else {
        ret := body;
      }
      // the size that was added up is the length
      assert size == |ret| % U32;
    }

    method Decode(message: Octets, includeSize: bool) returns (r: Outcome)
      requires Valid()
      ensures r == Unframe(box, otherSharedSecret, message, includeSize)
    {
      hide FromLE, Sound, LE;
      var msg := message;
      if includeSize {
        if |msg| < 4 || FromLE(msg[..4]) != (|msg| - 4) % U32 {
          return Failed(InvalidMsgSize);
        }
        msg := msg[4..];
      }
      if msg == [] {
        return Failed(InvalidMsgSize);
      }
      ghost var all := msg;
      var out: Octets := [];
      while msg != []
        invariant Opened(box, otherSharedSecret, all) == Prefixed(out, Opened(box, otherSharedSecret, msg))
        decreases |msg|
      {
        var k := Min(MAX_ENCRYPT_SIZE + 8 + OVERHEAD, |msg|);
        OpenNext(box, otherSharedSecret, msg, out);
        if k < 8 {
          return Failed(TooShort);
        }
        var m := box.open(msg[8..k], msg[..8] + LE(0, 16), otherSharedSecret);
        if m.None? {
          return Failed(DecryptionFailed);
        }
        out, msg := out + m.value, msg[k..];
      }
      r := Message(out);
    }
  }

  function Prefixed(out: Octets, r: Outcome): Outcome {
    if r.Failed? then r else Message(out + r.bytes)
  }

  lemma OpenNext<K>(box: Box<K>, key: K, msg: Octets, out: Octets)
    requires msg != []
    ensures var k := Min(MAX_ENCRYPT_SIZE + 8 + OVERHEAD, |msg|);
      if k < 8 then Prefixed(out, Opened(box, key, msg)) == Failed(TooShort)
      else
        var m := box.open(msg[8..k], msg[..8] + LE(0, 16), key);
        Prefixed(out, Opened(box, key, msg)) == if m.None? then Failed(DecryptionFailed) else Prefixed(out + m.value, Opened(box, key, msg[k..]))
  {
  }

  lemma SealNext<K>(box: Box<K>, key: K, msg: Octets, id: nat, body: Octets)
    requires msg != []
    ensures var k := Min(MAX_ENCRYPT_SIZE, |msg|);
      body + Sealed(box, key, msg, id) == body + LE(id + 1, 8) + box.seal(msg[..k], Nonce(id + 1), key) + Sealed(box, key, msg[k..], id + 1)
  {
  }

  lemma SizeNext(n: nat)
    ensures (n % U32 + 8 + OVERHEAD) % U32 == (n + 8 + OVERHEAD) % U32
  {
  }

  lemma SizeOfSize(n: nat)
    ensures (n % U32 + 4) % U32 == (n + 4) % U32
  {
  }

  lemma ChunksNext(n: nat)
    requires n > 0
    ensures Chunks(n) == 1 + Chunks(n - Min(MAX_ENCRYPT_SIZE, n))
  {
  }

  lemma NoChunks()
    ensures Chunks(0) == 0
  {
  }

  lemma NothingSealed<K>(box: Box<K>, key: K, id: nat, body: Octets)
    ensures body + Sealed(box, key, [], id) == body
  {
  }
}
