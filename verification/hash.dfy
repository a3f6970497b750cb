/** The anonymised identifier of a caller: the URL-safe base64 text of the
    SHA3-512 digest (FIPS 202) of the process salt followed by the phone number. */
module Hash {
  import opened Wrappers
  import opened Bytes
  import opened Base64Url

  const DigestLength := 64
  const MinSaltLength := 32

  /** A SHA3-512 digest: 64 bytes. */
  type Digest = s: seq<byte> | |s| == DigestLength witness seq(DigestLength, _ => 0)

  /** The hash function itself, taken as given: any function from byte
      strings to 64-byte digests. */
  type Hasher = seq<byte> -> Digest

  /** A salt long enough for the server to start with it. */
  type Salt = s: seq<byte> | |s| >= MinSaltLength witness seq(MinSaltLength, _ => 0)

  /** `generateID`: the digest of `salt ++ phone`, written in padded
      URL-safe base64. A salt shorter than 32 bytes makes the source panic. */
  function GenerateID(sha3: Hasher, salt: seq<byte>, phone: seq<byte>): (id: string)
    requires |salt| >= MinSaltLength
    ensures |id| == 88
    ensures forall i :: 0 <= i < |id| ==> IsAlphabetChar(id[i]) || id[i] == Pad
    ensures '/' !in id && '+' !in id
    ensures Decode(id) == Some(sha3(salt + phone))
    ensures forall s :: Decode(s) == Some(sha3(salt + phone)) ==> s == id
  {
    var digest := sha3(salt + phone);
    DigestEncoding(digest);
    Encode(digest)
  }

  /** What the encoding of any 64-byte digest looks like. */
  lemma DigestEncoding(digest: Digest)
    ensures |Encode(digest)| == 88
    ensures '/' !in Encode(digest) && '+' !in Encode(digest)
    ensures Decode(Encode(digest)) == Some(digest)
    ensures forall s :: Decode(s) == Some(digest) ==> s == Encode(digest)
  {
    DecodeEncode(digest);
    OnlyEncodingDecodes(digest);
    EncodeAvoidsSlashAndPlus(digest);
  }

  /** Two phone numbers get the same identifier exactly when the salted
      inputs hash to the same digest: the encoding adds no collisions. */
  lemma SameIDIffSameDigest(sha3: Hasher, salt: seq<byte>, p: seq<byte>, q: seq<byte>)
    requires |salt| >= MinSaltLength
    ensures GenerateID(sha3, salt, p) == GenerateID(sha3, salt, q) <==> sha3(salt + p) == sha3(salt + q)
  {
    EncodeInjective(sha3(salt + p), sha3(salt + q));
  }

  /** The identifier ends in the two pad characters a 64-byte input leaves
      (64 = 3 * 21 + 1). */
  lemma IDEndsInPadding(sha3: Hasher, salt: seq<byte>, phone: seq<byte>)
    requires |salt| >= MinSaltLength
    ensures GenerateID(sha3, salt, phone)[86..] == [Pad, Pad]
  {
    var digest := sha3(salt + phone);
    assert GenerateID(sha3, salt, phone) == Encode(digest);
    DigestEncodingEndsInPads(digest);
  }

  lemma DigestEncodingEndsInPads(digest: Digest)
    ensures Encode(digest)[86..] == [Pad, Pad]
  {
    var s := Encode(digest);
    assert |s| == 88;
    EncodeEndsInTwoPads(digest);
    assert s[86..] == s[|s| - 2..];
  }
}
