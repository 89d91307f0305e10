/** The byte formats spoken with phones over BLE and NFC: challenges, auth responses, command and response APDUs
    (section 5.1 of ISO/IEC 7816-4), and the byte string that a version 2 signature covers. */
module Codecs {
  import opened Wrappers

  type Byte = x: int | 0 <= x < 256
  type Bytes = seq<Byte>

  const CHALLENGE_SIZE := 52
  const NONCE_SIZE := 32

  // ---- Big-endian integers ----

  function Pow256(n: nat): nat {
    if n == 0 then 1 else 256 * Pow256(n - 1)
  }

  /** The low `n` bytes of `v`, most significant first. */
  function BigEndian(v: nat, n: nat): (r: Bytes)
    ensures |r| == n
  {
    if n == 0 then [] else BigEndian(v / 256, n - 1) + [v % 256]
  }

  function Number(b: Bytes): nat {
    if b == [] then 0 else 256 * Number(b[..|b| - 1]) + b[|b| - 1]
  }

  lemma {:induction false} NumberBound(b: Bytes)
    ensures Number(b) < Pow256(|b|)
  {
    if b != [] {
      NumberBound(b[..|b| - 1]);
    }
  }

  lemma {:induction false} NumberOfBigEndian(v: nat, n: nat)
    requires v < Pow256(n)
    ensures Number(BigEndian(v, n)) == v
  {
    if n > 0 {
      NumberOfBigEndian(v / 256, n - 1);
      assert BigEndian(v, n)[..n - 1] == BigEndian(v / 256, n - 1);
    }
  }

  lemma {:induction false} BigEndianOfNumber(b: Bytes)
    ensures BigEndian(Number(b), |b|) == b
  {
    if b != [] {
      var n := |b| - 1;
      BigEndianOfNumber(b[..n]);
      assert Number(b) / 256 == Number(b[..n]) && Number(b) % 256 == b[n];
    }
  }

  /** binary.BigEndian.PutUint32 and PutUint64: byte by byte, from the least significant end. */
  method PutUint(buf: array<Byte>, offset: nat, width: nat, value: nat)
    requires offset + width <= buf.Length
    modifies buf
    ensures buf[..] == old(buf[..offset]) + BigEndian(value, width) + old(buf[offset + width..])
  {
    var rest := value;
    var i := width;
    while i > 0
      invariant 0 <= i <= width
      invariant buf[..offset + i] == old(buf[..offset + i])
      invariant BigEndian(value, width) == BigEndian(rest, i) + buf[offset + i..offset + width]
      invariant buf[offset + width..] == old(buf[offset + width..])
    {
      ghost var tail := buf[offset + i..offset + width];
      i := i - 1;
      buf[offset + i] := rest % 256;
      assert buf[offset + i..offset + width] == [rest % 256] + tail;
      rest := rest / 256;
    }
    assert buf[..] == buf[..offset] + buf[offset..offset + width] + buf[offset + width..];
  }

  method Copy(buf: array<Byte>, offset: nat, bytes: Bytes)
    requires offset + |bytes| <= buf.Length
    modifies buf
    ensures buf[..] == old(buf[..offset]) + bytes + old(buf[offset + |bytes|..])
  {
    for i := 0 to |bytes|
      invariant buf[..offset] == old(buf[..offset])
      invariant buf[offset..offset + i] == bytes[..i]
      invariant buf[offset + |bytes|..] == old(buf[offset + |bytes|..])
    {
      buf[offset + i] := bytes[i];
    }
    assert buf[..] == buf[..offset] + buf[offset..offset + |bytes|] + buf[offset + |bytes|..];
  }

  // ---- Challenges ----

  newtype int64 = x: int | -0x8000_0000_0000_0000 <= x < 0x8000_0000_0000_0000
  newtype uint32 = x: int | 0 <= x < 0x1_0000_0000

  /** Instants are Unix seconds. */
  datatype Challenge = Challenge(nonce: Bytes, issuedAt: int64, expiresAt: int64, gatewayId: uint32)

  function AsUint64(t: int64): nat {
    if t < 0 then t as int + 0x1_0000_0000_0000_0000 else t as int
  }

  function AsInt64(v: nat): int64
    requires v < 0x1_0000_0000_0000_0000
  {
    (if v >= 0x8000_0000_0000_0000 then v - 0x1_0000_0000_0000_0000 else v) as int64
  }

  /** The 52 bytes of a version 2 challenge. */
  function Layout(c: Challenge): Bytes {
    c.nonce + BigEndian(AsUint64(c.issuedAt), 8) + BigEndian(AsUint64(c.expiresAt), 8)
    + BigEndian(c.gatewayId as int, 4)
  }

  method EncodeChallenge(c: Challenge) returns (out: Bytes)
    requires |c.nonce| == NONCE_SIZE
    ensures out == Layout(c)
  {
    var buf := new Byte[CHALLENGE_SIZE](_ => 0);
    Copy(buf, 0, c.nonce);
    assert buf[..32] == c.nonce;
    PutUint(buf, 32, 8, AsUint64(c.issuedAt));
    assert buf[..40] == c.nonce + BigEndian(AsUint64(c.issuedAt), 8);
    PutUint(buf, 40, 8, AsUint64(c.expiresAt));
    assert buf[..48] == c.nonce + BigEndian(AsUint64(c.issuedAt), 8) + BigEndian(AsUint64(c.expiresAt), 8);
    PutUint(buf, 48, 4, c.gatewayId as int);
    out := buf[..];
  }

  function DecodeChallenge(data: Bytes): Option<Challenge> {
    if |data| != CHALLENGE_SIZE then None
    else
      NumberBound(data[32..40]);
      NumberBound(data[40..48]);
      NumberBound(data[48..52]);
      assert Pow256(8) == 0x1_0000_0000_0000_0000 && Pow256(4) == 0x1_0000_0000;
      Some(Challenge(data[..32], AsInt64(Number(data[32..40])), AsInt64(Number(data[40..48])),
                     Number(data[48..52]) as uint32))
  }

  lemma TwosComplement(t: int64)
    ensures AsUint64(t) < Pow256(8) && AsInt64(AsUint64(t)) == t
  {
    assert Pow256(8) == 0x1_0000_0000_0000_0000;
  }

  /** Decoding gives back every encoded challenge, whatever its times. */
  lemma ChallengeRoundTrip(c: Challenge)
    requires |c.nonce| == NONCE_SIZE
    ensures DecodeChallenge(Layout(c)) == Some(c)
  {
    var data := Layout(c);
    TwosComplement(c.issuedAt);
    TwosComplement(c.expiresAt);
    assert data[..32] == c.nonce;
    assert data[32..40] == BigEndian(AsUint64(c.issuedAt), 8);
    assert data[40..48] == BigEndian(AsUint64(c.expiresAt), 8);
    assert data[48..52] == BigEndian(c.gatewayId as int, 4);
    NumberOfBigEndian(AsUint64(c.issuedAt), 8);
    NumberOfBigEndian(AsUint64(c.expiresAt), 8);
    assert Pow256(4) == 0x1_0000_0000;
    NumberOfBigEndian(c.gatewayId as int, 4);
  }

  /** Every string of 52 bytes, and no other, decodes; and it is the encoding of what it decodes to. */
  lemma ChallengeBytesRoundTrip(data: Bytes)
    ensures DecodeChallenge(data).Some? <==> |data| == CHALLENGE_SIZE
    ensures DecodeChallenge(data).Some? ==>
              |DecodeChallenge(data).value.nonce| == NONCE_SIZE && Layout(DecodeChallenge(data).value) == data
  {
    if |data| == CHALLENGE_SIZE {
      UnsignedBack(data[32..40]);
      UnsignedBack(data[40..48]);
      BigEndianOfNumber(data[32..40]);
      BigEndianOfNumber(data[40..48]);
      BigEndianOfNumber(data[48..52]);
      NumberBound(data[48..52]);
      assert Pow256(4) == 0x1_0000_0000;
      assert data == data[..32] + data[32..40] + data[40..48] + data[48..52];
    }
  }

  lemma UnsignedBack(b: Bytes)
    requires |b| == 8
    ensures Number(b) < 0x1_0000_0000_0000_0000 && AsUint64(AsInt64(Number(b))) == Number(b)
  {
    NumberBound(b);
    assert Pow256(8) == 0x1_0000_0000_0000_0000;
  }

  // ---- Auth responses ----

  datatype AuthResponse = AuthResponse(userId: Bytes, signature: Bytes)

  function EncodeAuthResponse(userId: Bytes, signature: Bytes): Bytes {
    [|userId| % 256] + userId + signature
  }

  /** DecodeBLEAuthResponse. */
  function DecodeBle(data: Bytes): Option<AuthResponse> {
    if |data| < 3 then None
    else
      var n: int := data[0];
      if n == 0 || 1 + n >= |data| then None
      else Some(AuthResponse(data[1..1 + n], data[1 + n..]))
  }

  /** ParseNFCAuthResponse. */
  function DecodeNfc(data: Bytes): Option<AuthResponse> {
    if |data| < 2 then None
    else
      var n: int := data[0];
      if |data| < 1 + n + 1 then None
      else if n > 180 then None
      else if |data[1 + n..]| < 64 then None
      else Some(AuthResponse(data[1..1 + n], data[1 + n..]))
  }

  /** The encoder writes the length as one byte: a response is read back exactly when the user id has 1 to 255
      bytes and the signature is not empty. */
  lemma {:induction false} AuthResponseRoundTrip(userId: Bytes, signature: Bytes)
    ensures DecodeBle(EncodeAuthResponse(userId, signature)) == Some(AuthResponse(userId, signature))
            <==> 1 <= |userId| <= 255 && signature != []
  {
    var data := EncodeAuthResponse(userId, signature);
    var n := |userId|;
    if 1 <= n <= 255 {
      assert data[1..1 + n] == userId;
      assert data[1 + n..] == signature;
    }
  }

  /** Every accepted byte string is the encoding of what it was read as. */
  lemma {:induction false} AuthBytesRoundTrip(data: Bytes)
    requires DecodeBle(data).Some?
    ensures var r := DecodeBle(data).value; EncodeAuthResponse(r.userId, r.signature) == data
  {
    var n := data[0];
    assert data == [data[0]] + data[1..1 + n] + data[1 + n..];
  }

  /** The NFC parser accepts a byte string exactly when the BLE parser reads a user id of at most 180 bytes and a
      signature of at least 64 from it, and then reads the same; except that only it lets a user id be empty. */
  lemma ParsersAgree(data: Bytes)
    ensures var ble, nfc := DecodeBle(data), DecodeNfc(data);
            && (nfc.Some? && ble.Some? ==> nfc == ble)
            && (nfc.Some? <==>
                 || (ble.Some? && |ble.value.userId| <= 180 && |ble.value.signature| >= 64)
                 || (|data| >= 65 && data[0] == 0))
            && (nfc.Some? && ble == None ==> nfc.value == AuthResponse([], data[1..]))
  {
    if |data| >= 65 && data[0] == 0 {
      assert data[1..1] == [];
    }
  }

  // ---- APDUs ----

  function BuildAuthenticate(challenge: Bytes): Option<Bytes> {
    if |challenge| != CHALLENGE_SIZE then None
    else Some([0x80, 0x88, 0x00, 0x00, CHALLENGE_SIZE] + challenge + [0x00])
  }

  datatype Command = Command(cla: Byte, ins: Byte, p1: Byte, p2: Byte, data: Bytes, le: Byte)

  /** A card reading a short command with data and an expected length. */
  function ReadCommand(apdu: Bytes): Option<Command> {
    if |apdu| < 7 || apdu[4] == 0 || |apdu| != 6 + (apdu[4] as int) then None
    else Some(Command(apdu[0], apdu[1], apdu[2], apdu[3], apdu[5..|apdu| - 1], apdu[|apdu| - 1]))
  }

  /** A card reads back from an AUTHENTICATE command exactly the challenge the agent issued. */
  lemma AuthenticateCarriesChallenge(c: Challenge)
    requires |c.nonce| == NONCE_SIZE
    ensures var apdu := BuildAuthenticate(Layout(c));
            && apdu.Some?
            && ReadCommand(apdu.value) == Some(Command(0x80, 0x88, 0, 0, Layout(c), 0))
            && DecodeChallenge(ReadCommand(apdu.value).value.data) == Some(c)
  {
    ChallengeRoundTrip(c);
    ChallengeBytesRoundTrip(Layout(c));
    var apdu := BuildAuthenticate(Layout(c)).value;
    assert apdu[5..|apdu| - 1] == Layout(c);
  }

  /** Nothing but an encoded challenge is ever put into an AUTHENTICATE command. */
  lemma OnlyChallengesAreSent(challenge: Bytes)
    ensures BuildAuthenticate(challenge).Some?
       <==> exists c: Challenge :: |c.nonce| == NONCE_SIZE && challenge == Layout(c)
  {
    ChallengeBytesRoundTrip(challenge);
    if c: Challenge :| |c.nonce| == NONCE_SIZE && challenge == Layout(c) {
      ChallengeRoundTrip(c);
    }
  }

  datatype Response = Response(data: Bytes, status: nat)

  function ParseApduResponse(resp: Bytes): Option<Response> {
    if |resp| < 2 then None
    else Some(Response(resp[..|resp| - 2], Number(resp[|resp| - 2..])))
  }

  /** Data and status word are exactly what the card appended one to the other. */
  lemma ResponseReads(data: Bytes, status: nat, resp: Bytes)
    requires status < 0x10000
    ensures ParseApduResponse(resp) == Some(Response(data, status)) <==> resp == data + BigEndian(status, 2)
  {
    assert Pow256(2) == 0x10000;
    NumberOfBigEndian(status, 2);
    if resp == data + BigEndian(status, 2) {
      assert resp[..|resp| - 2] == data && resp[|resp| - 2..] == BigEndian(status, 2);
    }
    if ParseApduResponse(resp) == Some(Response(data, status)) {
      BigEndianOfNumber(resp[|resp| - 2..]);
      assert resp == resp[..|resp| - 2] + resp[|resp| - 2..];
    }
  }

  // ---- What a signature covers ----

  const BLE_TAG: Bytes := [0x42, 0x4C, 0x45]                              // "BLE"
  const NFC_TAG: Bytes := [0x4E, 0x46, 0x43, 0x5F, 0x48, 0x43, 0x45]      // "NFC_HCE"

  function SignedMessage(nonce: Bytes, userId: Bytes, tag: Bytes): Bytes {
    nonce + userId + tag
  }

  /** For the two transports the message determines nonce, user and transport: no signature made for one
      covers another. */
  lemma SignedMessageInjective(n1: Bytes, u1: Bytes, t1: Bytes, n2: Bytes, u2: Bytes, t2: Bytes)
    requires |n1| == |n2| == NONCE_SIZE && t1 in {BLE_TAG, NFC_TAG} && t2 in {BLE_TAG, NFC_TAG}
    ensures SignedMessage(n1, u1, t1) == SignedMessage(n2, u2, t2) <==> n1 == n2 && u1 == u2 && t1 == t2
  {
    var m1, m2 := SignedMessage(n1, u1, t1), SignedMessage(n2, u2, t2);
    if m1 == m2 {
      assert m1[..32] == n1 && m2[..32] == n2;
      assert m1[|m1| - 3] == t1[|t1| - 3] && m2[|m2| - 3] == t2[|t2| - 3];
      assert t1 == t2;
      assert m1[32..|m1| - |t1|] == u1 && m2[32..|m2| - |t2|] == u2;
    }
  }
}
