/**
 The texts built on base64url: event cursors, CSRF tokens and RS256 JSON web tokens. Keyed hashes,
 signatures and the JSON codec are parameters, so every theorem holds for any of them.
 */
module Tokens {
  import opened Common
  import opened Base64Url
  import opened BigEndian
  import opened DecimalText

  // ----- Splitting -----

  function IndexOf(s: string, c: char): (i: nat)
    ensures i <= |s| && c !in s[..i] && (i < |s| ==> s[i] == c)
  {
    if s == "" || s[0] == c then 0 else 1 + IndexOf(s[1..], c)
  }

  function Split(s: string, c: char): (parts: seq<string>)
    ensures parts != []
  {
    var i := IndexOf(s, c);
    if i == |s| then [s] else [s[..i]] + Split(s[i + 1..], c)
  }

  lemma {:induction false} IndexOfFirst(a: string, c: char, rest: string)
    requires c !in a
    ensures IndexOf(a + [c] + rest, c) == |a|
  {
    if a != "" {
      assert (a + [c] + rest)[1..] == a[1..] + [c] + rest;
      IndexOfFirst(a[1..], c, rest);
    }
  }

  lemma SplitFirst(a: string, c: char, rest: string)
    requires c !in a
    ensures Split(a + [c] + rest, c) == [a] + Split(rest, c)
  {
    IndexOfFirst(a, c, rest);
    var s := a + [c] + rest;
    assert s[..|a|] == a && s[|a| + 1..] == rest;
  }

  lemma SplitLast(a: string, c: char)
    requires c !in a
    ensures Split(a, c) == [a]
  {
    assert IndexOf(a, c) == |a|;
  }

  lemma SplitTwo(b: string, d: string, c: char)
    requires c !in b && c !in d
    ensures Split(b + [c] + d, c) == [b, d]
  {
    SplitFirst(b, c, d);
    SplitLast(d, c);
  }

  lemma SplitOneMore(a: string, rest: string, b: string, d: string, c: char)
    requires c !in a && Split(rest, c) == [b, d]
    ensures Split(a + [c] + rest, c) == [a, b, d]
  {
    SplitFirst(a, c, rest);
  }

  lemma Regroup(a: string, x: string, b: string, d: string)
    ensures a + x + b + x + d == a + x + (b + x + d)
  {
  }

  lemma SplitThree(a: string, b: string, d: string, c: char)
    requires c !in a && c !in b && c !in d
    ensures Split(a + [c] + b + [c] + d, c) == [a, b, d]
  {
    Regroup(a, [c], b, d);
    SplitTwo(b, d, c);
    SplitOneMore(a, b + [c] + d, b, d, c);
  }

  lemma NoDot(b: seq<Byte>)
    ensures '.' !in Encode(b)
  {
    EncodedText(b);
  }

  // ----- ASCII -----

  predicate IsAscii(s: string) { forall i :: 0 <= i < |s| ==> s[i] as int < 128 }

  function ToBytes(s: string): (b: seq<Byte>)
    requires IsAscii(s)
    ensures |b| == |s| && forall i :: 0 <= i < |s| ==> b[i] == s[i] as int
  {
    seq(|s|, i requires 0 <= i < |s| => s[i] as int)
  }

  function FromBytes(b: seq<Byte>): Option<string> {
    if forall i :: 0 <= i < |b| ==> b[i] < 128
    then Some(seq(|b|, i requires 0 <= i < |b| => b[i] as char)) else None
  }

  /** Bytes are text exactly if all of them are below 128, character by character. */
  lemma FromBytesIs(b: seq<Byte>)
    ensures FromBytes(b).Some? <==> forall i :: 0 <= i < |b| ==> b[i] < 0x80
    ensures FromBytes(b).Some? ==>
      |FromBytes(b).value| == |b| && forall i :: 0 <= i < |b| ==> FromBytes(b).value[i] as int == b[i]
  {
  }

  lemma AsciiRoundTrip(s: string)
    requires IsAscii(s)
    ensures FromBytes(ToBytes(s)) == Some(s)
  {
    assert FromBytes(ToBytes(s)).value == s;
  }

  // ----- Event cursors -----

  predicate IsHex(c: char) { '0' <= c <= '9' || 'a' <= c <= 'f' }

  /** A UUID as its 32 lower-case hexadecimal digits. */
  type Uuid = s: string | |s| == 32 && forall i :: 0 <= i < |s| ==> IsHex(s[i]) witness seq(32, _ => '0')

  lemma HexDigits(c: char)
    ensures IsHex(c) <==> c in "0123456789abcdef"
  {
    var digits := "0123456789abcdef";
    assert digits[0] == '0' && digits[1] == '1' && digits[2] == '2' && digits[3] == '3';
    assert digits[4] == '4' && digits[5] == '5' && digits[6] == '6' && digits[7] == '7';
    assert digits[8] == '8' && digits[9] == '9' && digits[10] == 'a' && digits[11] == 'b';
    assert digits[12] == 'c' && digits[13] == 'd' && digits[14] == 'e' && digits[15] == 'f';
  }

  function EncodeEventCursor(time: int, id: Uuid): string {
    var raw := Show(time) + ":" + id;
    assert IsAscii(raw);
    Encode(ToBytes(raw))
  }

  function DecodeEventCursor(cursor: string): Option<(int, Uuid)> {
    match Decode(cursor)
    case None => None
    case Some(bytes) =>
      match FromBytes(bytes)
      case None => None
      case Some(raw) =>
        var i := IndexOf(raw, ':');
        if i == |raw| then None
        else
          var idPart := raw[i + 1..];
          if Read(raw[..i]).Some? && |idPart| == 32 && forall k :: 0 <= k < |idPart| ==> IsHex(idPart[k])
          then Some((Read(raw[..i]).value, idPart)) else None
  }

  /** A cursor gives back the event time and id it was made from. */
  lemma EventCursorRoundTrip(time: int, id: Uuid)
    ensures DecodeEventCursor(EncodeEventCursor(time, id)) == Some((time, id))
  {
    var raw := Show(time) + ":" + id;
    RoundTrip(ToBytes(raw));
    AsciiRoundTrip(raw);
    ReadShow(time);
    IndexOfFirst(Show(time), ':', id);
    assert raw == Show(time) + [':'] + id;
    assert raw[..|Show(time)|] == Show(time) && raw[|Show(time)| + 1..] == id;
  }

  /** Whatever text is presented: it decodes only if it is the base64url of a number, a colon and an id. */
  lemma AcceptedCursor(cursor: string)
    requires DecodeEventCursor(cursor).Some?
    ensures var (time, id) := DecodeEventCursor(cursor).value;
      && Decode(cursor).Some? && FromBytes(Decode(cursor).value).Some?
      && exists n :: && 0 <= n < |FromBytes(Decode(cursor).value).value|
                     && var raw := FromBytes(Decode(cursor).value).value;
                        raw[n] == ':' && ':' !in raw[..n] && Read(raw[..n]) == Some(time) && raw[n + 1..] == id
  {
    var raw := FromBytes(Decode(cursor).value).value;
    var n := IndexOf(raw, ':');
    assert raw[n] == ':';
  }

  // ----- CSRF tokens -----

  const NONCE_BYTES := 16
  const TIME_BYTES := 8

  /** The keyed hash of a byte string. */
  type Mac = seq<Byte> -> seq<Byte>

  lemma EightBytes()
    ensures Pow256(8) == 0x1_0000_0000_0000_0000
  {
    assert Pow256(4) == 0x1_0000_0000;
    assert Pow256(5) == 0x100_0000_0000;
    assert Pow256(6) == 0x1_0000_0000_0000;
    assert Pow256(7) == 0x100_0000_0000_0000;
  }

  predicate FitsTime(t: int) { 0 <= t < 0x1_0000_0000_0000_0000 }

  /** The signed bytes: the nonce, then the issue time in eight bytes. */
  function Payload(nonce: seq<Byte>, issuedAt: int): seq<Byte>
    requires FitsTime(issuedAt)
  {
    EightBytes();
    nonce + ToBigEndian(issuedAt, TIME_BYTES)
  }

  lemma PayloadInjective(nonce: seq<Byte>, issuedAt: int, nonce': seq<Byte>, issuedAt': int)
    requires FitsTime(issuedAt) && FitsTime(issuedAt')
    requires Payload(nonce, issuedAt) == Payload(nonce', issuedAt')
    ensures nonce == nonce' && issuedAt == issuedAt'
  {
    var p := Payload(nonce, issuedAt);
    var n := |p| - TIME_BYTES;
    assert |nonce| == n == |nonce'|;
    assert nonce == p[..n] == nonce';
    assert ToBigEndian(issuedAt, TIME_BYTES) == p[n..] == ToBigEndian(issuedAt', TIME_BYTES);
    BigEndianRoundTrip(issuedAt, TIME_BYTES);
    BigEndianRoundTrip(issuedAt', TIME_BYTES);
  }

  function CsrfText(nonce: seq<Byte>, sig: seq<Byte>, issuedAt: int): string {
    Encode(nonce) + ['.'] + Encode(sig) + ['.'] + Show(issuedAt)
  }

  function GenerateCsrf(nonce: seq<Byte>, issuedAt: nat, mac: Mac): string
    requires FitsTime(issuedAt)
  {
    CsrfText(nonce, mac(Payload(nonce, issuedAt)), issuedAt)
  }

  /** A time outside eight bytes cannot be packed for signing. */
  datatype CsrfError = TimeOverflow

  function CheckCsrf(nonce: seq<Byte>, sig: seq<Byte>, issuedAt: int, now: int, ttl: nat, mac: Mac)
    : Result<bool, CsrfError>
  {
    if |nonce| != NONCE_BYTES || !(0 <= now - issuedAt <= ttl) then Ok(false)
    else if !FitsTime(issuedAt) then Err(TimeOverflow)
    else Ok(mac(Payload(nonce, issuedAt)) == sig)
  }

  function VerifyCsrf(token: string, now: int, ttl: nat, mac: Mac): Result<bool, CsrfError> {
    var parts := Split(token, '.');
    if |parts| != 3 then Ok(false)
    else
      var nonce, sig, issuedAt := Decode(parts[0]), Decode(parts[1]), Read(parts[2]);
      if nonce.None? || sig.None? || issuedAt.None? then Ok(false)
      else CheckCsrf(nonce.value, sig.value, issuedAt.value, now, ttl, mac)
  }

  lemma VerifyCsrfParts(nonce: seq<Byte>, sig: seq<Byte>, issuedAt: int, now: int, ttl: nat, mac: Mac)
    ensures VerifyCsrf(CsrfText(nonce, sig, issuedAt), now, ttl, mac) == CheckCsrf(nonce, sig, issuedAt, now, ttl, mac)
  {
    NoDot(nonce);
    NoDot(sig);
    SplitThree(Encode(nonce), Encode(sig), Show(issuedAt), '.');
    RoundTrip(nonce);
    RoundTrip(sig);
    ReadShow(issuedAt);
  }

  /** A token put together from any parts is accepted exactly when nonce size, age and signature fit,
      and packing the time fails for none at a clock beyond the TTL and within eight bytes. */
  lemma VerifyCsrfText(nonce: seq<Byte>, sig: seq<Byte>, issuedAt: int, now: int, ttl: nat, mac: Mac)
    ensures VerifyCsrf(CsrfText(nonce, sig, issuedAt), now, ttl, mac) == Ok(true)
       <==> && |nonce| == 16 && 0 <= now - issuedAt <= ttl && 0 <= issuedAt < 0x1_0000_0000_0000_0000
            && mac(Payload(nonce, issuedAt)) == sig
    ensures ttl < now < 0x1_0000_0000_0000_0000 ==> VerifyCsrf(CsrfText(nonce, sig, issuedAt), now, ttl, mac).Ok?
  {
    VerifyCsrfParts(nonce, sig, issuedAt, now, ttl, mac);
  }

  /** A minted token verifies exactly while it is 0 to TTL seconds old. */
  lemma CsrfLifetime(nonce: seq<Byte>, issuedAt: nat, now: int, ttl: nat, mac: Mac)
    requires |nonce| == 16 && issuedAt < 0x1_0000_0000_0000_0000
    ensures VerifyCsrf(GenerateCsrf(nonce, issuedAt, mac), now, ttl, mac) == Ok(issuedAt <= now <= issuedAt + ttl)
  {
    VerifyCsrfParts(nonce, mac(Payload(nonce, issuedAt)), issuedAt, now, ttl, mac);
  }

  ghost predicate Injective(mac: Mac) {
    forall a: seq<Byte>, b: seq<Byte> :: mac(a) == mac(b) ==> a == b
  }

  /** A minted signature is bound to its nonce and issue time: under a hash without collisions it
      verifies with no others, because the signed bytes determine both. */
  lemma CsrfBinding(
      nonce: seq<Byte>, issuedAt: nat, nonce': seq<Byte>, issuedAt': int, now: int, ttl: nat, mac: Mac)
    requires Injective(mac) && issuedAt < 0x1_0000_0000_0000_0000
    requires VerifyCsrf(CsrfText(nonce', mac(Payload(nonce, issuedAt)), issuedAt'), now, ttl, mac) == Ok(true)
    ensures nonce' == nonce && issuedAt' == issuedAt
  {
    VerifyCsrfText(nonce', mac(Payload(nonce, issuedAt)), issuedAt', now, ttl, mac);
    PayloadInjective(nonce, issuedAt, nonce', issuedAt');
  }

  /** Whatever text is presented: it is accepted only if it has three parts, a nonce of 16 bytes, an age
      between 0 and the TTL, and the signature of just that nonce and time. */
  lemma AcceptedCsrf(token: string, now: int, ttl: nat, mac: Mac)
    requires VerifyCsrf(token, now, ttl, mac) == Ok(true)
    ensures var parts := Split(token, '.');
      && |parts| == 3 && Decode(parts[0]).Some? && Decode(parts[1]).Some? && Read(parts[2]).Some?
      && var nonce, issuedAt := Decode(parts[0]).value, Read(parts[2]).value;
         && |nonce| == 16 && issuedAt <= now <= issuedAt + ttl && 0 <= issuedAt
         && issuedAt < 0x1_0000_0000_0000_0000
         && mac(nonce + ToBigEndian(issuedAt, 8)) == Decode(parts[1]).value
  {
    EightBytes();
  }

  /** The hypothesis can be met. */
  lemma InjectiveMac() returns (mac: Mac)
    ensures Injective(mac)
  {
    mac := (b: seq<Byte>) => b;
  }

  // ----- JSON web tokens -----

  datatype Json =
    | JNull
    | JInt(n: int)
    | JString(s: string)
    | JList(items: seq<Json>)
    | JObject(fields: map<string, Json>)

  datatype Jwt = Jwt(
    algorithm: string,
    issuer: string,
    dumps: Json -> seq<Byte>,
    loads: seq<Byte> -> Option<Json>,
    sign: string -> seq<Byte>,
    verify: (seq<Byte>, string) -> bool)
  {
    /** Serialising an object loses nothing and yields some bytes. */
    ghost predicate Serialises(j: Json) {
      loads(dumps(j)) == Some(j) && dumps(j) != []
    }

    /** A signature verifies the text it was made for. */
    ghost predicate Signs(text: string) {
      verify(sign(text), text) && sign(text) != []
    }
  }

  const MAX_JWT_BYTES := 8192

  datatype JwtError = TooLarge | MalformedToken | MalformedSegment | WrongAlgorithm | WrongType | BadSignature
                    | BadIssuer | BadExpiry | Expired | BadAudience

  function Get(fields: map<string, Json>, key: string): Json {
    if key in fields then fields[key] else JNull
  }

  function Header(c: Jwt): (h: Json)
    ensures h.JObject?
  {
    JObject(map["alg" := JString(c.algorithm), "typ" := JString("JWT")])
  }

  function SigningInput(c: Jwt, claims: map<string, Json>): string {
    Encode(c.dumps(Header(c))) + ['.'] + Encode(c.dumps(JObject(claims)))
  }

  /** The codec works on this token: its header, its claims and its text. */
  ghost predicate Faithful(c: Jwt, claims: map<string, Json>) {
    c.Serialises(Header(c)) && c.Serialises(JObject(claims)) && c.Signs(SigningInput(c, claims))
  }

  /** The hypothesis can be met, for any claims. */
  lemma FaithfulCodec(claims: map<string, Json>) returns (c: Jwt)
    ensures Faithful(c, claims)
  {
    var header := Header(Jwt("RS256", "", _ => [0], _ => None, _ => [0], (_, _) => true));
    c := Jwt("RS256", "", j => if j == header then [0] else [1],
             b => if b == [0] then Some(header) else Some(JObject(claims)), _ => [0], (_, _) => true);
    assert Header(c) == header;
  }

  function EncodeJwt(c: Jwt, claims: map<string, Json>): string {
    SigningInput(c, claims) + ['.'] + Encode(c.sign(SigningInput(c, claims)))
  }

  function DecodeSegment(s: string): Option<seq<Byte>> {
    if s == "" || !AllInAlphabet(s) then None else Decode(s)
  }

  function DecodeObject(c: Jwt, s: string): Option<map<string, Json>> {
    match DecodeSegment(s)
    case None => None
    case Some(bytes) =>
      match c.loads(bytes)
      case Some(JObject(fields)) => Some(fields)
      case _ => None
  }

  function AudienceMatches(claim: Json, audience: string): bool {
    match claim
    case JString(s) => s == audience
    case JList(items) => (forall i :: 0 <= i < |items| ==> items[i].JString?) && JString(audience) in items
    case _ => false
  }

  /** Issuer, expiry and audience checks, in order. */
  function CheckClaims(c: Jwt, claims: map<string, Json>, audience: Option<string>, now: int): Option<JwtError> {
    if Get(claims, "iss") != JString(c.issuer) then Some(BadIssuer)
    else match Get(claims, "exp")
      case JInt(exp) =>
        if exp <= now then Some(Expired)
        else if audience.Some? && !AudienceMatches(Get(claims, "aud"), audience.value) then Some(BadAudience)
        else None
      case _ => Some(BadExpiry)
  }

  function DecodeParts(c: Jwt, h: string, p: string, sg: string, audience: Option<string>, now: int)
    : Result<map<string, Json>, JwtError>
  {
    var header, claims := DecodeObject(c, h), DecodeObject(c, p);
    if header.None? || claims.None? then Err(MalformedSegment)
    else if Get(header.value, "alg") != JString(c.algorithm) then Err(WrongAlgorithm)
    else if "typ" in header.value && header.value["typ"] != JString("JWT") then Err(WrongType)
    else
      var sig := DecodeSegment(sg);
      if sig.None? then Err(MalformedSegment)
      else if !c.verify(sig.value, h + ['.'] + p) then Err(BadSignature)
      else match CheckClaims(c, claims.value, audience, now)
        case Some(e) => Err(e)
        case None => Ok(claims.value)
  }

  function DecodeJwt(c: Jwt, token: string, audience: Option<string>, now: int): Result<map<string, Json>, JwtError> {
    if |token| > MAX_JWT_BYTES then Err(TooLarge)
    else
      var parts := Split(token, '.');
      if |parts| != 3 then Err(MalformedToken)
      else DecodeParts(c, parts[0], parts[1], parts[2], audience, now)
  }

  lemma SegmentRoundTrip(b: seq<Byte>)
    requires b != []
    ensures DecodeSegment(Encode(b)) == Some(b)
  {
    EncodedText(b);
    RoundTrip(b);
  }

  lemma ObjectRoundTrip(c: Jwt, fields: map<string, Json>)
    requires c.Serialises(JObject(fields))
    ensures DecodeObject(c, Encode(c.dumps(JObject(fields)))) == Some(fields)
  {
    SegmentRoundTrip(c.dumps(JObject(fields)));
  }

  lemma HeaderRoundTrip(c: Jwt)
    requires c.Serialises(Header(c))
    ensures DecodeObject(c, Encode(c.dumps(Header(c)))).Some?
    ensures var h := DecodeObject(c, Encode(c.dumps(Header(c)))).value;
      Get(h, "alg") == JString(c.algorithm) && Get(h, "typ") == JString("JWT")
  {
    ObjectRoundTrip(c, Header(c).fields);
  }

  lemma PartsRoundTrip(c: Jwt, claims: map<string, Json>, audience: Option<string>, now: int)
    requires Faithful(c, claims)
    ensures var text := SigningInput(c, claims);
      DecodeParts(c, Encode(c.dumps(Header(c))), Encode(c.dumps(JObject(claims))), Encode(c.sign(text)),
                  audience, now)
      == match CheckClaims(c, claims, audience, now)
         case Some(e) => Err(e)
         case None => Ok(claims)
  {
    HeaderRoundTrip(c);
    ObjectRoundTrip(c, claims);
    SegmentRoundTrip(c.sign(SigningInput(c, claims)));
  }

  /** Decoding an encoded token gives the claims back, unless it is too large or a claim check refuses. */
  lemma JwtRoundTrip(c: Jwt, claims: map<string, Json>, audience: Option<string>, now: int)
    requires Faithful(c, claims)
    ensures DecodeJwt(c, EncodeJwt(c, claims), audience, now)
         == if |EncodeJwt(c, claims)| > MAX_JWT_BYTES then Err(TooLarge)
            else match CheckClaims(c, claims, audience, now)
                 case Some(e) => Err(e)
                 case None => Ok(claims)
  {
    var h, p, sig := c.dumps(Header(c)), c.dumps(JObject(claims)), c.sign(SigningInput(c, claims));
    NoDot(h);
    NoDot(p);
    NoDot(sig);
    SplitThree(Encode(h), Encode(p), Encode(sig), '.');
    PartsRoundTrip(c, claims, audience, now);
  }

  /** A token with the server's own issuer, under the size cap, decodes exactly until its expiry. */
  lemma JwtLifetime(c: Jwt, claims: map<string, Json>, exp: int, now: int)
    requires Faithful(c, claims) && |EncodeJwt(c, claims)| <= MAX_JWT_BYTES
    requires Get(claims, "iss") == JString(c.issuer) && Get(claims, "exp") == JInt(exp)
    ensures DecodeJwt(c, EncodeJwt(c, claims), None, now) == (if now < exp then Ok(claims) else Err(Expired))
  {
    JwtRoundTrip(c, claims, None, now);
  }

  /** Whatever text is presented: it is accepted only if it is at most 8192 characters in three parts, the
      header names the configured algorithm and no other type, the signature verifies header and payload
      as they were sent, and the claims, which are the payload's, name the server as issuer, have not
      expired and are meant for the given audience. */
  lemma AcceptedJwt(c: Jwt, token: string, audience: Option<string>, now: int)
    requires DecodeJwt(c, token, audience, now).Ok?
    ensures var claims, parts := DecodeJwt(c, token, audience, now).value, Split(token, '.');
      && |token| <= 8192 && |parts| == 3
      && DecodeSegment(parts[0]).Some? && DecodeSegment(parts[1]).Some? && DecodeSegment(parts[2]).Some?
      && c.loads(DecodeSegment(parts[1]).value) == Some(JObject(claims))
      && c.verify(DecodeSegment(parts[2]).value, parts[0] + ['.'] + parts[1])
      && (exists header :: && c.loads(DecodeSegment(parts[0]).value) == Some(JObject(header))
                           && "alg" in header && header["alg"] == JString(c.algorithm)
                           && ("typ" in header ==> header["typ"] == JString("JWT")))
      && "iss" in claims && claims["iss"] == JString(c.issuer)
      && "exp" in claims && claims["exp"].JInt? && now < claims["exp"].n
      && (audience.Some? ==>
            && "aud" in claims
            && (claims["aud"] == JString(audience.value)
                || (claims["aud"].JList? && JString(audience.value) in claims["aud"].items)))
  {
    var parts := Split(token, '.');
    var header := DecodeObject(c, parts[0]).value;
    assert c.loads(DecodeSegment(parts[0]).value) == Some(JObject(header));
  }

  /** A segment is decoded only if it is not empty and stays in the alphabet. */
  lemma SegmentIsClean(s: string)
    ensures DecodeSegment(s).Some? ==> s != "" && AllInAlphabet(s)
    ensures s != "" && AllInAlphabet(s) ==> DecodeSegment(s) == Bytes(Values(s))
  {
    if s != "" && AllInAlphabet(s) { DecodeOfText(s); }
  }

  /** The claims pass exactly if they name the server as issuer, expire in the future and, where an audience
      is asked for, are meant for it alone or name it in a list of texts. */
  lemma ClaimsPassIff(c: Jwt, claims: map<string, Json>, audience: Option<string>, now: int)
    ensures CheckClaims(c, claims, audience, now).None? <==>
      && "iss" in claims && claims["iss"] == JString(c.issuer)
      && "exp" in claims && claims["exp"].JInt? && now < claims["exp"].n
      && (audience.Some? ==>
            && "aud" in claims
            && (claims["aud"] == JString(audience.value)
                || (claims["aud"].JList? && JString(audience.value) in claims["aud"].items
                    && forall j :: j in claims["aud"].items ==> j.JString?)))
    ensures match CheckClaims(c, claims, audience, now)
            case Some(BadIssuer) => "iss" !in claims || claims["iss"] != JString(c.issuer)
            case Some(BadExpiry) => "exp" !in claims || !claims["exp"].JInt?
            case Some(Expired) => "exp" in claims && claims["exp"].JInt? && claims["exp"].n <= now
            case Some(e) => e == BadAudience && audience.Some?
            case None => true
  {
  }

  lemma PartsErrors(c: Jwt, h: string, p: string, sg: string, audience: Option<string>, now: int)
    ensures var r := DecodeParts(c, h, p, sg, audience, now);
      r != Err(TooLarge) && r != Err(MalformedToken)
  {
    var claims := DecodeObject(c, p);
    if claims.Some? { ClaimsPassIff(c, claims.value, audience, now); }
  }

  /** Too large a token, or one that is not in three parts, is refused as such, and no other. */
  lemma MalformedIff(c: Jwt, token: string, audience: Option<string>, now: int)
    ensures DecodeJwt(c, token, audience, now) == Err(TooLarge) <==> |token| > 8192
    ensures DecodeJwt(c, token, audience, now) == Err(MalformedToken) <==> |token| <= 8192 && |Split(token, '.')| != 3
  {
    var parts := Split(token, '.');
    if |parts| == 3 { PartsErrors(c, parts[0], parts[1], parts[2], audience, now); }
  }
}
