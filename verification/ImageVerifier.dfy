/** The acceptance of a firmware image: its parts hash to what its metadata says, and the
    signature over its payload holds. Hashing, the DER form and the signature check are
    parameters. */
module ImageVerifier {
  import opened Bytes

  const HASH_TABLE_MAX := 8
  const P384_ECDSA_SIGNATURE_LEN := 96

  type UInt8 = x: int | 0 <= x < 0x100
  type UInt16 = x: int | 0 <= x < 0x1_0000
  type UInt32 = x: int | 0 <= x < 0x1_0000_0000
  const UINT64_LIMIT := 0x1_0000_0000_0000_0000

  datatype HashEntry = HashEntry(offset: UInt32, length: UInt32, hash: seq<Byte>)

  datatype Metadata = Metadata(
    imageOffset: UInt32,
    apFwImagesCnt: UInt8,
    hashTable: seq<HashEntry>,
    nvPayloadSize: UInt16,
    nvSignatureOffset: UInt16)

  /** The hash always gives 48 bytes inside `VerifyApImageHash`; the payload's digest and
      the DER form may come back empty when the library fails. */
  datatype Crypto = Crypto(
    imageHash: seq<Byte> -> seq<Byte>,
    digest: seq<Byte> -> seq<Byte>,
    der: seq<Byte> -> seq<Byte>,
    verifies: (seq<Byte>, seq<Byte>) -> bool)

  ghost predicate WellFormed(m: Metadata) {
    |m.hashTable| == HASH_TABLE_MAX
  }

  function Add64(a: nat, b: nat): nat {
    (a + b) % UINT64_LIMIT
  }

  /** How many entries are looked at: the table has eight, whatever the metadata says. */
  function Count(m: Metadata): nat {
    if m.apFwImagesCnt < HASH_TABLE_MAX then m.apFwImagesCnt else HASH_TABLE_MAX
  }

  /** An image range within the data, compared without wrapping. */
  predicate InBounds(m: Metadata, e: HashEntry, size: nat) {
    m.imageOffset + e.offset + e.length <= size
  }

  ghost predicate EntryMatches(c: Crypto, m: Metadata, image: seq<Byte>, e: HashEntry) {
    && InBounds(m, e, |image|)
    && var start := m.imageOffset + e.offset;
       c.imageHash(image[start..start + e.length]) == e.hash
  }

  ghost predicate HashesMatch(c: Crypto, m: Metadata, image: seq<Byte>)
    requires WellFormed(m)
  {
    forall i: nat | i < Count(m) :: EntryMatches(c, m, image, m.hashTable[i])
  }

  /** What acceptance means: the ranges lie within the image and hash to the table's
      values, the payload has a digest, the signature a DER form, and the check holds. */
  ghost predicate Accepted(c: Crypto, m: Metadata, image: seq<Byte>)
    requires WellFormed(m)
  {
    && HashesMatch(c, m, image)
    && m.nvPayloadSize <= |image|
    && m.nvSignatureOffset + P384_ECDSA_SIGNATURE_LEN <= |image|
    && var digest := c.digest(image[..m.nvPayloadSize]);
       var signature := c.der(image[m.nvSignatureOffset..m.nvSignatureOffset + P384_ECDSA_SIGNATURE_LEN]);
       digest != [] && signature != [] && c.verifies(digest, signature)
  }

  /** Offsets and lengths of 32 bits never wrap in 64, and the two-step comparison is the
      plain one. */
  lemma NoWrap(m: Metadata, e: HashEntry, size: nat)
    requires size < UINT64_LIMIT
    ensures var offset := Add64(m.imageOffset, e.offset);
            && offset == m.imageOffset + e.offset
            && (offset <= size && e.length <= size - offset <==> InBounds(m, e, size))
  {}

  method VerifyApImageHash(c: Crypto, m: Metadata, image: seq<Byte>) returns (ok: bool)
    requires WellFormed(m) && |image| < UINT64_LIMIT
    ensures ok <==> HashesMatch(c, m, image)
  {
    var count := if m.apFwImagesCnt < HASH_TABLE_MAX then m.apFwImagesCnt else HASH_TABLE_MAX;
    for i := 0 to count
      invariant forall k: nat | k < i :: EntryMatches(c, m, image, m.hashTable[k])
    {
      var e := m.hashTable[i];
      var offset := Add64(m.imageOffset, e.offset);
      NoWrap(m, e, |image|);
      if offset <= |image| && e.length <= |image| - offset {
        if c.imageHash(image[offset..offset + e.length]) != e.hash {
          return false;
        }
      } else {
        return false;
      }
    }
    return true;
  }

  method GetDigest(c: Crypto, m: Metadata, image: seq<Byte>) returns (digest: seq<Byte>)
    ensures digest == if m.nvPayloadSize <= |image| then c.digest(image[..m.nvPayloadSize]) else []
  {
    if m.nvPayloadSize > |image| {
      return [];
    }
    return c.digest(image[..m.nvPayloadSize]);
  }

  method GetSignature(c: Crypto, m: Metadata, image: seq<Byte>) returns (signature: seq<Byte>)
    ensures signature
            == if m.nvSignatureOffset + P384_ECDSA_SIGNATURE_LEN <= |image|
               then c.der(image[m.nvSignatureOffset..m.nvSignatureOffset + P384_ECDSA_SIGNATURE_LEN]) else []
  {
    if m.nvSignatureOffset > |image| || |image| - m.nvSignatureOffset < P384_ECDSA_SIGNATURE_LEN {
      return [];
    }
    return c.der(image[m.nvSignatureOffset..m.nvSignatureOffset + P384_ECDSA_SIGNATURE_LEN]);
  }

  /** An image is accepted exactly when it should be. */
  method Verify(c: Crypto, m: Metadata, image: seq<Byte>) returns (ok: bool)
    requires WellFormed(m) && |image| < UINT64_LIMIT
    ensures ok <==> Accepted(c, m, image)
  {
    var hashesOk := VerifyApImageHash(c, m, image);
    if !hashesOk {
      return false;
    }
    var digest := GetDigest(c, m, image);
    var signature := GetSignature(c, m, image);
    if digest == [] || signature == [] {
      return false;
    }
    return c.verifies(digest, signature);
  }

  /** Entries beyond the eighth cannot be asked for: any larger count checks what a count of
      eight does. */
  lemma LargeCountChecksTable(c: Crypto, m: Metadata, image: seq<Byte>)
    requires WellFormed(m) && m.apFwImagesCnt >= HASH_TABLE_MAX
    ensures Accepted(c, m, image) <==> Accepted(c, m.(apFwImagesCnt := HASH_TABLE_MAX), image)
  {
    var eight := m.(apFwImagesCnt := HASH_TABLE_MAX);
    assert forall i: nat | i < HASH_TABLE_MAX ::
      EntryMatches(c, m, image, m.hashTable[i]) <==> EntryMatches(c, eight, image, eight.hashTable[i]);
  }


  /** Acceptance spelled out: of eight table entries those below the count are looked at,
      each within the image behind the image offset; the signature has 96 bytes. */
  lemma AcceptedMeans(c: Crypto, m: Metadata, image: seq<Byte>)
    requires WellFormed(m)
    ensures Accepted(c, m, image) <==>
              && (forall i: nat | i < 8 && i < m.apFwImagesCnt ::
                    var start, size := m.imageOffset + m.hashTable[i].offset, m.hashTable[i].length;
                    start + size <= |image| && c.imageHash(image[start..start + size]) == m.hashTable[i].hash)
              && m.nvPayloadSize <= |image| && m.nvSignatureOffset + 96 <= |image|
              && var digest := c.digest(image[..m.nvPayloadSize]);
                 var signature := c.der(image[m.nvSignatureOffset..m.nvSignatureOffset + 96]);
                 digest != [] && signature != [] && c.verifies(digest, signature)
  {
    hide EntryMatches;
    forall i: nat | i < 8
      ensures EntryMatches(c, m, image, m.hashTable[i]) <==>
                var start, size := m.imageOffset + m.hashTable[i].offset, m.hashTable[i].length;
                start + size <= |image| && c.imageHash(image[start..start + size]) == m.hashTable[i].hash
    {
      EntryMatchesMeans(c, m, image, m.hashTable[i]);
    }
  }

  lemma EntryMatchesMeans(c: Crypto, m: Metadata, image: seq<Byte>, e: HashEntry)
    ensures EntryMatches(c, m, image, e) <==>
              var start := m.imageOffset + e.offset;
              start + e.length <= |image| && c.imageHash(image[start..start + e.length]) == e.hash
  {}
}
