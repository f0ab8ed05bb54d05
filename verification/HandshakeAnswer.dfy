/** websocket.c: the server's opening handshake, section 4.2.2 of RFC 6455. */
module HandshakeAnswer {
  import opened Wrappers
  import Fips180
  import Sha1
  import Rfc4648
  import Base64
  import Handshake
  import ByteInts

  type Byte = bv8

  /** A string of ASCII characters as bytes. */
  function Ascii(s: string): (bs: seq<Byte>)
    ensures |bs| == |s|
  {
    seq(|s|, i requires 0 <= i < |s| => (s[i] as int % 256) as Byte)
  }

  const GUID: seq<Byte> := Ascii("258EAFA5-E914-47DA-95CA-C5AB0DC85B11")

  // The two parts of the format string, with its four names put in
  const BEFORE: seq<Byte> :=
    Ascii("HTTP/1.1 101 Switching Protocols\r\n" + Handshake.UPGRADE_FIELD + Handshake.WEBSOCKET + "\r\n"
          + Handshake.CONNECTION_FIELD + "Upgrade" + "\r\n" + "Sec-WebSocket-Accept: ")
  const AFTER: seq<Byte> := Ascii("\r\n\r\n")

  /** Item 5.4 of section 4.2.2: base64 of the SHA-1 of the key followed by the GUID. */
  function RfcAccept(key: seq<Byte>): seq<Byte>
    requires |key| < 0x1000_0000
  {
    Rfc4648.Encode(Fips180.Digest(key + GUID))
  }

  /** What sha1 writes for a message. */
  function CodeDigest(m: seq<Byte>): (bs: seq<Byte>)
    ensures |bs| == 20
  {
    Fips180.DigestBytes(Fips180.HashWords(Fips180.INITIAL, Sha1.FedWords(m)))
  }

  /** The accept value as the two headers compute it. */
  function Accept(key: seq<Byte>): (a: seq<Byte>) {
    Base64.Text(CodeDigest(key + GUID))
  }

  lemma AcceptLength(key: seq<Byte>)
    ensures |Accept(key)| == 28
  {
    hide CodeDigest, Base64.Text;
    var _ := Base64.Text(CodeDigest(key + GUID));
  }

  function Response(key: seq<Byte>): seq<Byte> {
    BEFORE + Accept(key) + AFTER
  }

  /** For every key shorter than 2^28 bytes the accept value is the one RFC 6455 asks for unless |key| mod 64 is 20. */
  lemma AcceptIsRfc(key: seq<Byte>)
    requires |key| < 0x1000_0000 && |key| % 64 != 20
    ensures Accept(key) == RfcAccept(key)
  {
    hide Fips180.HashWords, Fips180.PaddedWords, Fips180.DigestBytes, Sha1.FedWords, Base64.Text, Rfc4648.Encode;
    Sha1.FedIsPadded(key + GUID);
    Base64.RefinesRfc4648(20);
  }

  /** The response, spelled out, for those keys. */
  lemma ResponseSpelledOut(key: seq<Byte>)
    requires |key| < 0x1000_0000 && |key| % 64 != 20
    ensures Response(key)
         == Ascii("HTTP/1.1 101 Switching Protocols\r\n" + "Upgrade: websocket\r\n" + "Connection: Upgrade\r\n"
                  + "Sec-WebSocket-Accept: ")
            + Rfc4648.Encode(Fips180.Digest(key + Ascii("258EAFA5-E914-47DA-95CA-C5AB0DC85B11")))
            + Ascii("\r\n\r\n")
  {
    hide Accept, Rfc4648.Encode, Fips180.Digest, Ascii;
    AcceptIsRfc(key);
    NamesJoined("HTTP/1.1 101 Switching Protocols\r\n", "Sec-WebSocket-Accept: ");
  }

  lemma NamesJoined(first: string, last: string)
    ensures first + Handshake.UPGRADE_FIELD + Handshake.WEBSOCKET + "\r\n" + Handshake.CONNECTION_FIELD + "Upgrade" + "\r\n" + last
         == first + "Upgrade: websocket\r\n" + "Connection: Upgrade\r\n" + last
  {
    assert "Upgrade: " + "websocket" + "\r\n" == "Upgrade: websocket\r\n";
    assert "Connection: " + "Upgrade" + "\r\n" == "Connection: Upgrade\r\n";
    Regroup(first, "Upgrade: ", "websocket", "\r\n", "Connection: ", "Upgrade", "\r\n", last);
  }

  lemma Regroup(a: string, b: string, c: string, d: string, e: string, f: string, g: string, h: string)
    ensures a + b + c + d + e + f + g + h == a + (b + c + d) + (e + f + g) + h
  {
  }

  /** A character below 128 is the byte with its code. */
  lemma AsciiCodes(s: string, i: nat)
    requires i < |s| && s[i] as int < 128
    ensures Ascii(s)[i] as int == s[i] as int
  {
    ByteInts.ByteValue(s[i] as int);
  }

  /** The blocks that are hashed are the padded message exactly for those keys. */
  lemma FedExactly(key: seq<Byte>)
    requires |key| < 0x1000_0000
    ensures Sha1.FedWords(key + GUID) == Fips180.PaddedWords(key + GUID) <==> |key| % 64 != 20
  {
    hide Fips180.PaddedWords, Sha1.FedWords;
    Sha1.FedIsPadded(key + GUID);
  }

  lemma {:induction false} EncodeHasNoZero(bs: seq<Byte>)
    ensures forall i | 0 <= i < |Rfc4648.Encode(bs)| :: Rfc4648.Encode(bs)[i] != 0
  {
    if |bs| >= 3 {
      EncodeHasNoZero(bs[3..]);
    }
  }

  /** strlen: the bytes before the first zero. */
  function StringAt(bs: seq<Byte>): seq<Byte> {
    if bs == [] || bs[0] == 0 then [] else [bs[0]] + StringAt(bs[1..])
  }

  lemma {:induction false} StringBeforeZero(bs: seq<Byte>, n: nat)
    requires n < |bs| && bs[n] == 0 && forall i | 0 <= i < n :: bs[i] != 0
    ensures StringAt(bs) == bs[..n]
    decreases n
  {
    if n > 0 {
      StringBeforeZero(bs[1..], n - 1);
      assert bs[..n] == [bs[0]] + bs[1..][..n - 1];
    }
  }

  method Copy(dest: array<Byte>, at: nat, source: seq<Byte>)
    requires at + |source| <= dest.Length
    modifies dest
    ensures dest[..at] == old(dest[..at]) && dest[at..at + |source|] == source
    ensures dest[at + |source|..] == old(dest[at + |source|..])
  {
    for i := 0 to |source|
      invariant dest[..at] == old(dest[..at]) && dest[at..at + i] == source[..i]
      invariant dest[at + |source|..] == old(dest[at + |source|..])
    {
      dest[at + i] := source[i];
      assert dest[at..at + i + 1] == dest[at..at + i] + [source[i]];
    }
  }

  /** The length of the key and the GUID is kept in a uint8_t. */
  function KeptLength(key: seq<Byte>): nat {
    (|key| + 36) % 256
  }

  /** The kept length is the length, and the allocated memory holds the copies, exactly for at most 219 bytes. */
  lemma KeptLengthIsLength(key: seq<Byte>)
    ensures KeptLength(key) == |key| + 36 <==> |key| <= 219
    ensures |key| + 36 <= KeptLength(key) <==> |key| <= 219
  {
  }

  /** malloc and the two copies: the key followed by the GUID. Null stands for copies that do not fit. */
  method LoadKey(key: seq<Byte>) returns (responseKey: array?<Byte>)
    ensures responseKey == null <==> |key| > 219
    ensures responseKey != null ==>
              fresh(responseKey) && responseKey.Length == |key| + 36 && responseKey[..] == key + GUID
  {
    assert |GUID| == 36;
    hide GUID;
    KeptLengthIsLength(key);
    var length := KeptLength(key);
    var loaded := new Byte[length];
    if |key| + |GUID| > length {
      return null;
    }
    Copy(loaded, 0, key);
    Copy(loaded, |key|, GUID);
    assert loaded[..] == loaded[..|key|] + loaded[|key|..];
    return loaded;
  }

  lemma TextIsString(text: seq<Byte>, rest: seq<Byte>)
    requires forall i | 0 <= i < |text| :: text[i] != 0
    ensures StringAt(text + [0] + rest) == text
  {
    StringBeforeZero(text + [0] + rest, |text|);
  }

  /** The key buffer is reused for the base64 text of the digest, and ended by a zero. */
  method MakeAccept(key: seq<Byte>) returns (responseKey: array?<Byte>)
    ensures responseKey == null <==> |key| > 219
    ensures responseKey != null ==> fresh(responseKey) && StringAt(responseKey[..]) == Accept(key)
  {
    hide Fips180.HashWords, Fips180.DigestBytes, Sha1.FedWords, Base64.Text, Rfc4648.Encode, StringAt, Fips180.Digest, GUID, Sha1.PaddedRight;
    responseKey := LoadKey(key);
    if responseKey == null {
      return;
    }
    var shaHash := new Byte[20];
    var length := responseKey.Length;
    assert responseKey[..length] == key + GUID;
    Sha1.Sha1(shaHash, responseKey, length);
    assert shaHash[..] == CodeDigest(key + GUID) && shaHash[..20] == shaHash[..];
    var base64Length := Base64.Base64(responseKey, length, shaHash, 20);
    AcceptLength(key);
    ghost var accept := responseKey[..28];
    EncodeHasNoZero(shaHash[..]);
    responseKey[base64Length] := 0;
    assert responseKey[..] == accept + [0] + responseKey[29..];
    TextIsString(accept, responseKey[29..]);
  }

  /** snprintf: reports the whole length but writes at most size - 1 bytes and a zero. */
  method Print(out: array<Byte>, size: nat, text: seq<Byte>) returns (written: nat)
    requires 0 < size <= out.Length
    modifies out
    ensures written == |text|
    ensures var n := if written < size then written else size - 1;
            out[..n] == text[..n] && out[n] == 0 && out[n + 1..] == old(out[n + 1..])
  {
    written := |text|;
    var n := if written < size then written else size - 1;
    Copy(out, 0, text[..n]);
    out[n] := 0;
  }

  /**
   * wsGetHandshakeAnswer. The source asserts afterwards that written <= outLength. None stands for a key
   * that does not fit in the memory allocated for it; then nothing is promised.
   */
  method GetHandshakeAnswer(key: seq<Byte>, outFrame: array<Byte>, outLength: nat) returns (written: Option<nat>)
    requires 0 < outLength <= outFrame.Length
    modifies outFrame
    ensures written == if |key| <= 219 then Some(|Response(key)|) else None
    ensures written.Some? ==>
              var n := if written.value < outLength then written.value else outLength - 1;
              && outFrame[..n] == Response(key)[..n] && outFrame[n] == 0
              && outFrame[n + 1..] == old(outFrame[n + 1..])
    ensures written.Some? && |key| % 64 != 20 && written.value < outLength ==>
              outFrame[..written.value] == BEFORE + RfcAccept(key) + AFTER
  {
    hide Accept, RfcAccept, BEFORE, AFTER, StringAt;
    var responseKey := MakeAccept(key);
    if responseKey == null {
      return None;
    }
    var n := Print(outFrame, outLength, BEFORE + StringAt(responseKey[..]) + AFTER);
    if |key| % 64 != 20 {
      AcceptIsRfc(key);
    }
    return Some(n);
  }
}
