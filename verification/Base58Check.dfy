/** Checksummed Base58: the version and payload followed by four bytes of their double hash. */
module Base58Check {
  import opened Numerals
  import opened Base58Alphabet
  import opened Base58
  import opened Base58RoundTrip

  type Digest = d: seq<byte> | |d| == 32 witness ZeroBytes(32)

  /** SHA-256 is a parameter of every member; nothing is assumed of it but the length of its result. */
  type Hash = seq<byte> -> Digest

  function Checksum(sha: Hash, payload: seq<byte>): (c: seq<byte>)
    ensures |c| == 4
  {
    sha(sha(payload))[..4]
  }

  function EncodeCheck(sha: Hash, data: seq<byte>, version: seq<byte>): seq<byte>
  {
    Encode(version + data + Checksum(sha, version + data))
  }

  method ToBase58Check(sha: Hash, data: seq<byte>, version: seq<byte>) returns (text: seq<byte>)
    ensures text == EncodeCheck(sha, data, version)
    ensures text == Encode(version + data + sha(sha(version + data))[..4])
  {
    var payload := version + data;
    var checksum := Checksum(sha, payload);
    payload := payload + checksum;
    text := ToBase58(payload);
  }

  /** Slicing the version off a payload that is shorter aborts. */
  function DecodeCheck(sha: Hash, text: seq<byte>, versionBytes: nat): Outcome<(seq<byte>, seq<byte>)>
  {
    match Decode(text)
    case Err(e) => Err(e)
    case Panics => Panics
    case Ok(bytes) =>
      if |bytes| < 5 then Err(InvalidBase58Checksum) else
        var payload, provided := bytes[..|bytes| - 4], bytes[|bytes| - 4..];
        if Checksum(sha, payload) != provided then Err(InvalidBase58Checksum)
        else if |payload| < versionBytes then Panics
        else Ok((payload[..versionBytes], payload[versionBytes..]))
  }

  method FromBase58Check(sha: Hash, text: seq<byte>, versionBytes: nat)
    returns (r: Outcome<(seq<byte>, seq<byte>)>)
    ensures r == DecodeCheck(sha, text, versionBytes)
  {
    var decoded := FromBase58(text);
    match decoded {
      case Err(e) => return Err(e);
      case Panics => return Panics;
      case Ok(bytes) =>
        var payload := bytes;
        if |payload| < 5 {
          return Err(InvalidBase58Checksum);
        }
        var checksumIndex := |payload| - 4;
        var provided := payload[checksumIndex..];
        payload := payload[..checksumIndex];
        var checksum := Checksum(sha, payload);
        if checksum != provided {
          return Err(InvalidBase58Checksum);
        }
        if |payload| < versionBytes {
          return Panics;
        }
        return Ok((payload[..versionBytes], payload[versionBytes..]));
    }
  }

  /** What the checked text of at most 128 bytes holds: them, and the first four bytes of their double hash. */
  lemma CheckedText(sha: Hash, data: seq<byte>, version: seq<byte>)
    ensures Decode(EncodeCheck(sha, data, version)) == Ok(version + data + sha(sha(version + data))[..4])
            <==> |version| + |data| <= BIN_BYTES - 4
  {
    hide Encode, Decode, Capacity, Value;
    DecodeEncode(version + data + sha(sha(version + data))[..4]);
  }

  /**
   A text that decodes passes exactly when it has a byte and the first four bytes of the double hash of
   everything before the last four are those last four; anything else is a wrong checksum. Passing, it is
   split after the version, or aborts if it is shorter than that.
   */
  lemma DecodeCheckIff(sha: Hash, text: seq<byte>, n: nat)
    requires Decode(text).Ok?
    ensures var bytes := Decode(text).value;
            var passes := |bytes| >= 5 && bytes[|bytes| - 4..] == sha(sha(bytes[..|bytes| - 4]))[..4];
            && (DecodeCheck(sha, text, n) == Err(InvalidBase58Checksum) <==> !passes)
            && (DecodeCheck(sha, text, n) == Panics <==> passes && n > |bytes| - 4)
            && (DecodeCheck(sha, text, n).Ok? <==> passes && n <= |bytes| - 4)
            && (passes && n <= |bytes| - 4 ==> DecodeCheck(sha, text, n) == Ok((bytes[..n], bytes[n..|bytes| - 4])))
  {
    hide Decode;
    var bytes := Decode(text).value;
    if n <= |bytes| - 4 {
      assert bytes[..|bytes| - 4][..n] == bytes[..n];
      assert bytes[..|bytes| - 4][n..] == bytes[n..|bytes| - 4];
    }
  }

  /** The errors of decoding itself are passed on. */
  lemma DecodeCheckPasses(sha: Hash, text: seq<byte>, n: nat)
    ensures Decode(text).Err? ==> DecodeCheck(sha, text, n) == Err(Decode(text).error)
    ensures Decode(text).Panics? ==> DecodeCheck(sha, text, n) == Panics
  {
    hide Decode;
  }

  /** Version and data come back exactly when they are not both empty and fit the decoder with the checksum. */
  lemma DecodeEncodeCheck(sha: Hash, data: seq<byte>, version: seq<byte>)
    ensures DecodeCheck(sha, EncodeCheck(sha, data, version), |version|) == Ok((version, data))
            <==> 1 <= |version| + |data| <= BIN_BYTES - 4
  {
    hide Encode, Decode, Capacity, Value;
    var payload := version + data;
    var bytes := payload + Checksum(sha, payload);
    DecodeEncode(bytes);
    assert bytes[..|bytes| - 4] == payload && bytes[|bytes| - 4..] == Checksum(sha, payload);
    assert payload[..|version|] == version && payload[|version|..] == data;
  }

  /** Text that passes the check is the checked encoding of what it yields. */
  lemma EncodeDecodeCheck(sha: Hash, text: seq<byte>, n: nat, version: seq<byte>, data: seq<byte>)
    requires DecodeCheck(sha, text, n) == Ok((version, data))
    ensures |version| == n && EncodeCheck(sha, data, version) == text
  {
    hide Encode, Decode;
    var bytes := Decode(text).value;
    EncodeDecode(text, bytes);
    assert bytes == bytes[..|bytes| - 4] + bytes[|bytes| - 4..];
    assert bytes[..|bytes| - 4] == version + data;
  }
}
