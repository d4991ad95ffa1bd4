// The binary form of a stored entry: one length byte, the key, three 64-bit
// numbers, a 32-bit length, the value.
module EntryCodec {
  import opened Bytes
  import opened Records

  /** A stored entry as a value; key and value are byte strings. */
  datatype StoredEntry = StoredEntry(key: seq<byte>, value: seq<byte>, ttl: int, timestamp: int, lastAccess: int)

  predicate WellTyped(e: StoredEntry) {
    Int64(e.ttl) && Int64(e.timestamp) && Int64(e.lastAccess)
  }

  /** Two's complement, as the conversions between int64 and uint64 do it. */
  function ToUnsigned(x: int): (u: nat)
    requires Int64(x)
    ensures u < TWO_64
  {
    if x < 0 then x + TWO_64 else x
  }

  function ToSigned(u: nat): (x: int)
    requires u < TWO_64
    ensures Int64(x)
  {
    if u > MAX_INT64 then u - TWO_64 else u
  }

  function Word(x: int): (r: seq<byte>)
    requires Int64(x)
    ensures |r| == 8
  {
    BE(ToUnsigned(x), 8)
  }

  /** The length byte and the length word keep only the low bits of the lengths. */
  function Encoded(e: StoredEntry): (r: seq<byte>)
    requires WellTyped(e)
    ensures |r| == 29 + |e.key| + |e.value|
  {
    [|e.key| % 256] + e.key + Word(e.ttl) + Word(e.timestamp) + Word(e.lastAccess) + BE(|e.value|, 4) + e.value
  }

  function SignedAt(buf: seq<byte>, at: nat): (x: int)
    requires at + 8 <= |buf|
  {
    FromBELess(buf[at..at + 8]);
    PowFacts();
    ToSigned(FromBE(buf[at..at + 8]))
  }

  /** None where the code would read out of bounds. */
  function Decoded(buf: seq<byte>): Option<StoredEntry> {
    if |buf| == 0 then None
    else
      var k := buf[0];
      if |buf| < 29 + k then None
      else
        var n := FromBE(buf[k + 25..k + 29]);
        if |buf| < 29 + k + n then None
        else Some(StoredEntry(buf[1..k + 1], buf[k + 29..k + 29 + n],
                         SignedAt(buf, k + 1), SignedAt(buf, k + 9), SignedAt(buf, k + 17)))
  }

  lemma WordRoundTrip(x: int)
    requires Int64(x)
    ensures FromBE(Word(x)) == ToUnsigned(x) && ToSigned(ToUnsigned(x)) == x
  {
    PowFacts();
    BERoundTrip(ToUnsigned(x), 8);
  }

  /** Where the parts of an encoding lie, for a key the length byte can hold. */
  lemma Parts(e: StoredEntry)
    requires WellTyped(e) && |e.key| <= 255
    ensures
      var buf, k := Encoded(e), |e.key|;
      && buf[0] == k && buf[1..k + 1] == e.key
      && buf[k + 1..k + 9] == Word(e.ttl) && buf[k + 9..k + 17] == Word(e.timestamp)
      && buf[k + 17..k + 25] == Word(e.lastAccess)
      && buf[k + 25..k + 29] == BE(|e.value|, 4) && buf[k + 29..] == e.value
  {
    hide Word, BE;
  }

  /** Decoding undoes encoding, with every access in bounds, exactly for entries
      whose key length fits in the length byte and whose value length fits in the
      length word. */
  lemma RoundTripIff(e: StoredEntry)
    requires WellTyped(e)
    ensures Decoded(Encoded(e)) == Some(e) <==> |e.key| <= 255 && |e.value| < TWO_32
  {
    hide Word, BE, FromBE;
    if |e.key| <= 255 {
      Parts(e);
      PowFacts();
      if |e.value| < TWO_32 {
        BERoundTrip(|e.value|, 4);
        SignedParts(e);
        var buf, k := Encoded(e), |e.key|;
        assert buf[k + 29..k + 29 + |e.value|] == buf[k + 29..];
      } else {
        var buf, k := Encoded(e), |e.key|;
        FromBELess(buf[k + 25..k + 29]);
      }
    }
  }

  lemma SignedParts(e: StoredEntry)
    requires WellTyped(e) && |e.key| <= 255
    ensures
      var buf, k := Encoded(e), |e.key|;
      SignedAt(buf, k + 1) == e.ttl && SignedAt(buf, k + 9) == e.timestamp && SignedAt(buf, k + 17) == e.lastAccess
  {
    hide Word, BE, FromBE, Encoded;
    Parts(e);
    WordRoundTrip(e.ttl);
    WordRoundTrip(e.timestamp);
    WordRoundTrip(e.lastAccess);
  }

  class Entry {
    var key: seq<byte>
    var value: seq<byte>
    var ttl: int
    var timestamp: int
    var lastAccess: int

    function View(): StoredEntry
      reads this
    {
      StoredEntry(key, value, ttl, timestamp, lastAccess)
    }

    constructor ()
      ensures View() == StoredEntry([], [], 0, 0, 0)
    {
      key, value, ttl, timestamp, lastAccess := [], [], 0, 0, 0;
    }

    /** Copies bs into the buffer and moves the offset past it. */
    static method Put(buf: array<byte>, offset: nat, bs: seq<byte>) returns (next: nat)
      requires offset + |bs| <= buf.Length
      modifies buf
      ensures next == offset + |bs|
      ensures buf[..next] == old(buf[..offset]) + bs
    {
      var i := 0;
      while i < |bs|
        invariant 0 <= i <= |bs|
        invariant buf[..offset + i] == old(buf[..offset]) + bs[..i]
      {
        buf[offset + i] := bs[i];
        i := i + 1;
      }
      next := offset + i;
      assert bs[..i] == bs;
    }

    method Encode() returns (buf: array<byte>)
      requires WellTyped(View())
      ensures fresh(buf) && buf[..] == Encoded(View())
    {
      buf := new byte[1 + |key| + 8 + 8 + 8 + 4 + |value|];
      buf[0] := |key| % 256;
      var offset := 1;
      offset := Put(buf, offset, key);
      offset := Put(buf, offset, BE(ToUnsigned(ttl), 8));
      offset := Put(buf, offset, BE(ToUnsigned(timestamp), 8));
      offset := Put(buf, offset, BE(ToUnsigned(lastAccess), 8));
      offset := Put(buf, offset, BE(|value|, 4));
      offset := Put(buf, offset, value);
      assert buf[..offset] == buf[..];
    }

    /** Replaces this entry by the encoded one. A buffer with too few bytes, on
        which the reads go out of bounds and the call does not return, gives false. */
    method Decode(buf: seq<byte>) returns (ok: bool)
      modifies this
      ensures ok <==> Decoded(buf).Some?
      ensures ok ==> Decoded(buf) == Some(View())
    {
      if |buf| == 0 {
        return false;
      }
      var offset: nat := 0;
      var keyLen: nat := buf[offset];
      offset := offset + 1;
      if offset + keyLen > |buf| {
        return false;
      }
      key := buf[offset..offset + keyLen];
      offset := offset + keyLen;
      if offset + 28 > |buf| {
        return false;
      }
      ttl := SignedAt(buf, offset);
      offset := offset + 8;
      timestamp := SignedAt(buf, offset);
      offset := offset + 8;
      lastAccess := SignedAt(buf, offset);
      offset := offset + 8;
      var valueLen := FromBE(buf[offset..offset + 4]);
      offset := offset + 4;
      if offset + valueLen > |buf| {
        return false;
      }
      value := buf[offset..offset + valueLen];
      return true;
    }
  }
}
