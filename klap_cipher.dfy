/**
 * The KLAP session cipher: key, IV base and signature key derived from labelled
 * SHA-256 digests of the local hash (local seed, remote seed and auth hash), a signed
 * 32-bit request counter, and the signed, AES-encrypted request frame.
 */
module KlapCrypto {
  import opened Wrappers
  import opened Binary
  import opened Platform

  /** ASCII bytes of the derivation labels "lsk", "iv" and "ldk". */
  const LskLabel: seq<byte> := [0x6c, 0x73, 0x6b]
  const IvLabel: seq<byte> := [0x69, 0x76]
  const LdkLabel: seq<byte> := [0x6c, 0x64, 0x6b]

  /** The arrays laid end to end, in order. */
  function Concat(arrays: seq<seq<byte>>): seq<byte>
    decreases |arrays|
  {
    if |arrays| == 0 then [] else Concat(arrays[..|arrays| - 1]) + arrays[|arrays| - 1]
  }

  /** `arrays.Sum(arr => arr.Length)`. */
  function TotalLength(arrays: seq<seq<byte>>): nat
    decreases |arrays|
  {
    if |arrays| == 0 then 0 else TotalLength(arrays[..|arrays| - 1]) + |arrays[|arrays| - 1]|
  }

  lemma {:induction false} ConcatLength(arrays: seq<seq<byte>>)
    ensures |Concat(arrays)| == TotalLength(arrays)
    decreases |arrays|
  {
    if |arrays| > 0 {
      ConcatLength(arrays[..|arrays| - 1]);
    }
  }

  lemma ConcatThree(a: seq<byte>, b: seq<byte>, c: seq<byte>)
    ensures Concat([a, b, c]) == a + b + c
  {
    ConcatTwo(a, b);
    assert [a, b, c][..2] == [a, b];
    assert Concat([a, b, c]) == Concat([a, b]) + c;
  }

  lemma ConcatTwo(a: seq<byte>, b: seq<byte>)
    ensures Concat([a, b]) == a + b
  {
    assert [a, b][..1] == [a];
    assert [a][..0] == [];
    assert Concat([a]) == Concat([]) + a == a;
    assert Concat([a, b]) == Concat([a]) + b;
  }

  /**
   * `CombineArrays`: allocates the summed length and copies each array in at an advancing
   * offset; the result is the concatenation, so its length is the sum of the lengths.
   */
  method CombineArrays(arrays: seq<seq<byte>>) returns (result: seq<byte>)
    ensures result == Concat(arrays)
    ensures |result| == TotalLength(arrays)
  {
    var totalLength := TotalLength(arrays);
    var buffer := new byte[totalLength];
    var offset := 0;
    for k := 0 to |arrays|
      invariant offset == TotalLength(arrays[..k])
      invariant offset + TotalLength(arrays[k..]) == totalLength
      invariant buffer[..offset] == Concat(arrays[..k])
    {
      var chunk := arrays[k];
      assert arrays[..k + 1][..k] == arrays[..k];
      TotalLengthSplit(arrays, k);
      forall j | 0 <= j < |chunk| {
        buffer[offset + j] := chunk[j];
      }
      assert buffer[..offset + |chunk|] == buffer[..offset] + chunk;
      offset := offset + |chunk|;
    }
    assert arrays[..|arrays|] == arrays;
    result := buffer[..];
    ConcatLength(arrays);
  }

  lemma {:induction false} TotalLengthSplit(arrays: seq<seq<byte>>, k: nat)
    requires k < |arrays|
    ensures TotalLength(arrays[k..]) == |arrays[k]| + TotalLength(arrays[k + 1..])
    decreases |arrays| - k
  {
    var tail := arrays[k..];
    if k + 1 == |arrays| {
      assert tail[..|tail| - 1] == [];
    } else {
      TotalLengthSplit(arrays, k + 1);
      assert tail[..|tail| - 1] == arrays[k..|arrays| - 1];
      assert arrays[k + 1..][..|arrays| - k - 2] == arrays[k + 1..|arrays| - 1];
      TotalLengthSplit(arrays[..|arrays| - 1], k);
      assert arrays[..|arrays| - 1][k..] == arrays[k..|arrays| - 1];
      assert arrays[..|arrays| - 1][k + 1..] == arrays[k + 1..|arrays| - 1];
    }
  }

  /** `DeriveKey`: the AES key is the first 16 bytes of SHA-256("lsk" ‖ localHash). */
  function DeriveKey(p: Primitives, localHash: seq<byte>): (key: seq<byte>)
    requires Valid(p)
    ensures |key| == 16
    ensures key <= p.sha256(LskLabel + localHash)
  {
    p.sha256(LskLabel + localHash)[..16]
  }

  /**
   * `DeriveIV`: the IV base is the first 12 bytes of h = SHA-256("iv" ‖ localHash), and the
   * initial sequence is the signed counter whose big-endian bytes are h[28..32].
   */
  function DeriveIV(p: Primitives, localHash: seq<byte>): (r: (seq<byte>, int32))
    requires Valid(p)
    ensures |r.0| == 12
    ensures r.0 <= p.sha256(IvLabel + localHash)
    ensures ToBigEndian(r.1) == p.sha256(IvLabel + localHash)[28..32]
  {
    var ivHash := p.sha256(IvLabel + localHash);
    ToFromBigEndian(ivHash[28..32]);
    (ivHash[..12], FromBigEndian(ivHash[28..32]))
  }

  /** `DeriveSignature`: the signature key is the first 28 bytes of SHA-256("ldk" ‖ localHash). */
  function DeriveSignature(p: Primitives, localHash: seq<byte>): (sig: seq<byte>)
    requires Valid(p)
    ensures |sig| == 28
    ensures sig <= p.sha256(LdkLabel + localHash)
  {
    p.sha256(LdkLabel + localHash)[..28]
  }

  /** The per-request IV: the 12-byte base followed by the sequence in network order. */
  function RequestIV(ivBase: seq<byte>, sequence: int32): seq<byte>
  {
    ivBase + ToBigEndian(sequence)
  }

  /** A request IV keeps the base and carries the sequence it was built for. */
  lemma RequestIVLayout(ivBase: seq<byte>, sequence: int32)
    requires |ivBase| == 12
    ensures |RequestIV(ivBase, sequence)| == 16
    ensures RequestIV(ivBase, sequence)[..12] == ivBase
    ensures FromBigEndian(RequestIV(ivBase, sequence)[12..]) == sequence
  {
    assert RequestIV(ivBase, sequence)[12..] == ToBigEndian(sequence);
    FromToBigEndian(sequence);
  }

  /** Distinct sequence numbers never share an IV. */
  lemma RequestIVDistinct(ivBase: seq<byte>, s1: int32, s2: int32)
    requires |ivBase| == 12
    requires s1 != s2
    ensures RequestIV(ivBase, s1) != RequestIV(ivBase, s2)
  {
    if RequestIV(ivBase, s1) == RequestIV(ivBase, s2) {
      assert ToBigEndian(s1) == RequestIV(ivBase, s1)[12..] == RequestIV(ivBase, s2)[12..] == ToBigEndian(s2);
      ToBigEndianInjective(s1, s2);
    }
  }

  /**
   * Builds the IV in a 16-byte array: `Array.Copy` of the base to offset 0 and of the
   * big-endian sequence to offset 12. `Encrypt` and `Decrypt` both build it this way.
   */
  method BuildIV(ivBase: seq<byte>, sequence: int32) returns (iv: seq<byte>)
    requires |ivBase| == 12
    ensures iv == RequestIV(ivBase, sequence)
  {
    var sequenceBytes := ToBigEndian(sequence);
    var buffer := new byte[16];
    forall i | 0 <= i < 12 {
      buffer[i] := ivBase[i];
    }
    forall i | 0 <= i < 4 {
      buffer[12 + i] := sequenceBytes[i];
    }
    iv := buffer[..];
  }

  /** The AES-CBC ciphertext of a request under its own sequence number. */
  function RequestCiphertext(p: Primitives, key: seq<byte>, ivBase: seq<byte>, sequence: int32, data: string): seq<byte>
  {
    p.aesEncrypt(key, RequestIV(ivBase, sequence), data)
  }

  /** The outgoing frame: SHA-256(sig ‖ seqBE ‖ ciphertext) ‖ ciphertext. */
  function RequestFrame(p: Primitives, key: seq<byte>, ivBase: seq<byte>, sig: seq<byte>, sequence: int32, data: string): seq<byte>
  {
    var ct := RequestCiphertext(p, key, ivBase, sequence, data);
    p.sha256(sig + ToBigEndian(sequence) + ct) + ct
  }

  /** Decrypting a response body under a sequence number. */
  function ResponsePlaintext(p: Primitives, key: seq<byte>, ivBase: seq<byte>, sequence: int32, ct: seq<byte>): Option<string>
  {
    p.aesDecrypt(key, RequestIV(ivBase, sequence), ct)
  }

  /** A frame is a 32-byte signature over the signature key, sequence and ciphertext, then the ciphertext. */
  lemma FrameLayout(p: Primitives, key: seq<byte>, ivBase: seq<byte>, sig: seq<byte>, sequence: int32, data: string)
    requires Valid(p)
    ensures var ct := RequestCiphertext(p, key, ivBase, sequence, data);
            var frame := RequestFrame(p, key, ivBase, sig, sequence, data);
            && |frame| == 32 + |ct|
            && frame[..32] == p.sha256(sig + ToBigEndian(sequence) + ct)
            && frame[32..] == ct
  {
  }

  /**
   * Round trip: stripping the 32-byte signature from a frame and decrypting under the same
   * sequence number gives back the request text.
   */
  lemma FrameRoundTrip(p: Primitives, key: seq<byte>, ivBase: seq<byte>, sig: seq<byte>, sequence: int32, data: string)
    requires Valid(p)
    requires |key| == 16 && |ivBase| == 12
    ensures ResponsePlaintext(p, key, ivBase, sequence, RequestFrame(p, key, ivBase, sig, sequence, data)[32..]) == Some(data)
  {
    RequestIVLayout(ivBase, sequence);
    FrameLayout(p, key, ivBase, sig, sequence, data);
  }

  /** `KlapCipher`: immutable keys and a mutable request counter. */
  class KlapCipher {
    const prims: Primitives
    const key: seq<byte>
    const ivBase: seq<byte>
    const sig: seq<byte>
    var sequence: int32

    ghost predicate Valid()
    {
      Platform.Valid(prims) && |key| == 16 && |ivBase| == 12 && |sig| == 28
    }

    /**
     * Derives the keys from localSeed ‖ remoteSeed ‖ authHash; the counter starts at the
     * derived initial sequence unless a nonzero initial sequence is passed, which wins.
     */
    constructor (p: Primitives, localSeed: seq<byte>, remoteSeed: seq<byte>, authHash: seq<byte>, initialSequence: int32)
      requires Platform.Valid(p)
      ensures Valid() && prims == p
      ensures key == DeriveKey(p, localSeed + remoteSeed + authHash)
      ensures ivBase == DeriveIV(p, localSeed + remoteSeed + authHash).0
      ensures sig == DeriveSignature(p, localSeed + remoteSeed + authHash)
      ensures sequence == if initialSequence != 0 then initialSequence
                          else DeriveIV(p, localSeed + remoteSeed + authHash).1
    {
      var localHash := CombineArrays([localSeed, remoteSeed, authHash]);
      ConcatThree(localSeed, remoteSeed, authHash);
      prims := p;
      key := DeriveKey(p, localHash);
      var derived := DeriveIV(p, localHash);
      ivBase := derived.0;
      sequence := derived.1;
      sig := DeriveSignature(p, localHash);
      if initialSequence != 0 {
        sequence := initialSequence;
      }
    }

    /**
     * `Encrypt`: advances the counter by one (wrapping at 2^31) and returns the signed frame
     * for the new sequence number together with that number.
     */
    method Encrypt(data: string) returns (payload: seq<byte>, s: int32)
      requires Valid()
      modifies this
      ensures sequence == Increment(old(sequence)) && s == sequence
      ensures payload == RequestFrame(prims, key, ivBase, sig, s, data)
    {
      sequence := Increment(sequence);
      var sequenceBytes := ToBigEndian(sequence);
      var iv := BuildIV(ivBase, sequence);
      var encryptedData := prims.aesEncrypt(key, iv, data);
      var signatureInput := CombineArrays([sig, sequenceBytes, encryptedData]);
      ConcatThree(sig, sequenceBytes, encryptedData);
      var signature := prims.sha256(signatureInput);
      payload := CombineArrays([signature, encryptedData]);
      ConcatTwo(signature, encryptedData);
      s := sequence;
    }

    /** `Decrypt`: decrypts under the IV of the given sequence; the counter is not touched. */
    method Decrypt(s: int32, encryptedData: seq<byte>) returns (plaintext: Option<string>)
      requires Valid()
      ensures plaintext == ResponsePlaintext(prims, key, ivBase, s, encryptedData)
    {
      var iv := BuildIV(ivBase, s);
      plaintext := prims.aesDecrypt(key, iv, encryptedData);
    }
  }
}
