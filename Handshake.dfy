/**
 * The one-time handshake `get_session_key` performs: the nonce input, the two request
 * maps, the per-byte XOR derivation of the session key, and the reading of the decrypted
 * configuration document.
 */
module Handshake {
  import opened Wrappers
  import opened Bytes
  import opened Errors
  import opened Foreign
  import opened Base16
  import opened Decimal
  import opened CipherCodec
  import opened Json

  /** Protocol constants shared by both requests; fixed by the remote service. */
  const Version: string := "1"
  const MozartVersion: string := "1"
  const Region: string := "US"
  const ConfigUrl: string := "https://play.hulu.com/config"
  const PlaylistUrl: string := "https://s.hulu.com/playlist"

  /** `random.randrange(1E5, 1E6)` draws from `RandomLow <= v < RandomHigh`. */
  const RandomLow: nat := 100000
  const RandomHigh: nat := 1000000

  /** The device credentials: a code and a secret key. */
  datatype Device = Device(code: string, key: seq<byte>)

  /** What `Device` guarantees once built: a non-empty code and a 16-byte key. */
  predicate ValidDevice(d: Device)
  {
    |d.code| > 0 && |d.key| == 16
  }

  /** Request parameters, as the dict handed to `requests`. */
  type Params = map<string, Value>

  /** The HTTP exchange: the response body text for a request to a URL with parameters. */
  type Transport = (string, Params) -> string

  /** The result of the handshake: the derived session key and the server's `key_id`. */
  datatype Session = Session(key: seq<byte>, keyId: Value)

  /**
   * `'{device_key},{device},{version},{random_value}'` with the key as lower-case hex: the
   * key's hex, a comma, the code, then `,1,` and the decimal digits of the random value.
   */
  function NonceInput(device: Device, randomValue: nat): (s: string)
    ensures |s| == 2 * |device.key| + |device.code| + 4 + |DecimalString(randomValue)|
    ensures s[..2 * |device.key|] == ToHex(device.key) && s[2 * |device.key|] == ','
    ensures s[2 * |device.key| + 1..] == device.code + ",1," + DecimalString(randomValue)
  {
    ToHex(device.key) + "," + device.code + "," + Version + "," + DecimalString(randomValue)
  }

  /** The parameters posted to the configuration endpoint. */
  function ConfigPayload(prims: Primitives, device: Device, randomValue: nat): (p: Params)
    ensures p.Keys == {"rv", "mozart_version", "region", "version", "device", "encrypted_nonce"}
    ensures p["version"] == JString(Version) && p["device"] == JString(device.code)
    ensures p["mozart_version"] == JString(MozartVersion) && p["region"] == JString(Region)
    ensures p["rv"] == JNumber(randomValue)
    ensures p["encrypted_nonce"] == JString(prims.md5HexDigest(NonceInput(device, randomValue)))
  {
    map[
      "rv" := JNumber(randomValue),
      "mozart_version" := JString(MozartVersion),
      "region" := JString(Region),
      "version" := JString(Version),
      "device" := JString(device.code),
      "encrypted_nonce" := JString(prims.md5HexDigest(NonceInput(device, randomValue)))
    ]
  }

  /** The query parameters of the playlist request. */
  function PlaylistParams(deviceCode: string, keyId: Value, videoId: Value): (p: Params)
    ensures p.Keys == {"video_id", "token", "device", "version", "device_id", "kv"}
    ensures p["version"] == JString(Version) && p["device"] == JString(deviceCode)
    ensures p["kv"] == keyId && p["video_id"] == videoId
    ensures p["token"] == JString("") && p["device_id"] == JString("")
  {
    map[
      "video_id" := videoId,
      "token" := JString(""),
      "device" := JString(deviceCode),
      "version" := JString(Version),
      "device_id" := JString(""),
      "kv" := keyId
    ]
  }

  /** Both requests carry the same protocol version and the same device code. */
  lemma RequestsAgree(prims: Primitives, device: Device, randomValue: nat, keyId: Value, videoId: Value)
    ensures ConfigPayload(prims, device, randomValue)["version"] == PlaylistParams(device.code, keyId, videoId)["version"]
    ensures ConfigPayload(prims, device, randomValue)["device"] == PlaylistParams(device.code, keyId, videoId)["device"]
  {
  }

  /**
   * The nonce input is 32 hex digits, the code, "1" and six decimal digits, joined by three
   * commas.
   */
  lemma NonceInputLength(device: Device, randomValue: nat)
    requires ValidDevice(device) && RandomLow <= randomValue < RandomHigh
    ensures |NonceInput(device, randomValue)| == |device.code| + 42
  {
    assert Pow10(5) == RandomLow && Pow10(6) == RandomHigh;
    DecimalLength(randomValue, 6);
  }

  /**
   * The nonce input determines the device and the random value it was built from: the key's
   * hex has a fixed length and the random value's digits hold no comma, so the code is what
   * lies between them. Distinct handshakes hash distinct strings.
   */
  lemma NonceInputInjective(d1: Device, r1: nat, d2: Device, r2: nat)
    requires ValidDevice(d1) && ValidDevice(d2)
    requires NonceInput(d1, r1) == NonceInput(d2, r2)
    ensures d1 == d2 && r1 == r2
  {
    var s := NonceInput(d1, r1);
    ToHexInjective(d1.key, d2.key);
    var digits1, digits2 := DecimalString(r1), DecimalString(r2);
    var head1, head2 := d1.code + ",1", d2.code + ",1";
    assert s[33..] == head1 + [','] + digits1 == head2 + [','] + digits2;
    SplitAtLast(head1, digits1, head2, digits2, ',');
    assert d1.code == head1[..|head1| - 2] == head2[..|head2| - 2] == d2.code;
    DecimalStringInjective(r1, r2);
  }

  /** Splitting at the last separator is unambiguous when the tails hold no separator. */
  lemma SplitAtLast(a: string, b: string, c: string, d: string, sep: char)
    requires sep !in b && sep !in d
    requires a + [sep] + b == c + [sep] + d
    ensures a == c && b == d
  {
    var s := a + [sep] + b;
    assert s[|a|] == sep && s[|c|] == sep;
    assert a == s[..|a|] && c == s[..|c|];
    assert b == s[|a| + 1..] && d == s[|c| + 1..];
  }

  /**
   * The derivation loop: append `device_byte ^ server_byte` for each pair `zip` yields.
   * The result has the shorter input's length and each byte is the XOR of the two at its index.
   */
  method DeriveSessionKey(deviceKey: seq<byte>, serverKey: seq<byte>) returns (derived: seq<byte>)
    ensures |derived| == Min(|deviceKey|, |serverKey|)
    ensures forall i :: 0 <= i < |derived| ==> derived[i] == Xor(deviceKey[i], serverKey[i])
    ensures derived == XorBytes(deviceKey, serverKey)
  {
    derived := [];
    var i := 0;
    while i < |deviceKey| && i < |serverKey|
      invariant i <= |deviceKey| && i <= |serverKey|
      invariant |derived| == i
      invariant forall j :: 0 <= j < i ==> derived[j] == Xor(deviceKey[j], serverKey[j])
    {
      derived := derived + [Xor(deviceKey[i], serverKey[i])];
      i := i + 1;
    }
  }

  /** `config_dict[field]`: a `KeyError` when absent, a `TypeError` when the document is not an object. */
  function ConfigField(config: Value, field: string): (r: Result<Value, Error>)
    ensures r.Success? <==> config.JObject? && field in config.fields
    ensures r.Success? ==> r.value == config.fields[field]
    ensures r.Failure? ==> r.error == ConfigFieldError(field)
  {
    if config.JObject? && field in config.fields then Success(config.fields[field])
    else Failure(ConfigFieldError(field))
  }

  /** `bytes.fromhex(config_dict['key'])`: only a string of hex digits decodes. */
  function DecodeServerKey(key: Value): (r: Result<seq<byte>, Error>)
    ensures r.Success? <==> key.JString? && FromHex(key.s).Some?
    ensures r.Success? ==> r.value == FromHex(key.s).value
    ensures r.Failure? ==> r.error == ServerKeyError
  {
    match key
    case JString(hex) =>
      (match FromHex(hex)
       case Some(b) => Success(b)
       case None => Failure(ServerKeyError))
    case _ => Failure(ServerKeyError)
  }

  /**
   * What `get_session_key` makes of the decrypted configuration document: a session exactly
   * when `key` is a decodable hex string and `key_id` is present; the session key is the
   * zip-truncated XOR of the device key with the server key, and the key id is `key_id`.
   */
  function SessionFromConfig(deviceKey: seq<byte>, config: Value): (r: Result<Session, Error>)
    ensures r.Success? <==> ServerKeyOf(config).Some? && "key_id" in config.fields
    ensures r.Success? ==> r.value.key == XorBytes(deviceKey, ServerKeyOf(config).value)
    ensures r.Success? ==> r.value.keyId == config.fields["key_id"]
    ensures !(config.JObject? && "key" in config.fields) ==> r == Failure(ConfigFieldError("key"))
    ensures config.JObject? && "key" in config.fields && ServerKeyOf(config).None? ==> r == Failure(ServerKeyError)
    ensures ServerKeyOf(config).Some? && "key_id" !in config.fields ==> r == Failure(ConfigFieldError("key_id"))
  {
    match ConfigField(config, "key")
    case Failure(e) => Failure(e)
    case Success(k) =>
      match DecodeServerKey(k)
      case Failure(e) => Failure(e)
      case Success(serverKey) =>
        match ConfigField(config, "key_id")
        case Failure(e) => Failure(e)
        case Success(keyId) => Success(Session(XorBytes(deviceKey, serverKey), keyId))
  }

  /**
   * The whole handshake given the configuration response body: hex decode, decrypt with
   * the device key, then derive the session.
   */
  function EstablishSession(prims: Primitives, device: Device, body: string): (r: Result<Session, Error>)
    ensures FromHex(body).None? ==> r == Failure(HexDecodeError)
    ensures r.Success? ==>
              FromHex(body).Some? && DecryptResponse(prims, device.key, FromHex(body).value).Success?
    ensures FromHex(body).Some? && DecryptResponse(prims, device.key, FromHex(body).value).Failure? ==>
              r == Failure(DecryptResponse(prims, device.key, FromHex(body).value).error)
    ensures r.Success? ==>
              var config := DecryptResponse(prims, device.key, FromHex(body).value).value;
              && ServerKeyOf(config).Some?
              && r.value.key == XorBytes(device.key, ServerKeyOf(config).value)
              && "key_id" in config.fields && r.value.keyId == config.fields["key_id"]
    ensures FromHex(body).Some? && DecryptResponse(prims, device.key, FromHex(body).value).Success? ==>
              r == SessionFromConfig(device.key, DecryptResponse(prims, device.key, FromHex(body).value).value)
  {
    match FromHex(body)
    case None => Failure(HexDecodeError)
    case Some(ct) =>
      match DecryptResponse(prims, device.key, ct)
      case Failure(e) => Failure(e)
      case Success(config) => SessionFromConfig(device.key, config)
  }

  /** The server key a configuration document carries, when it carries a decodable one. */
  function ServerKeyOf(config: Value): Option<seq<byte>>
  {
    match ConfigField(config, "key")
    case Failure(_) => None
    case Success(k) =>
      match DecodeServerKey(k)
      case Failure(_) => None
      case Success(b) => Some(b)
  }

  /**
   * A session derived from a 16-byte device key: each byte is device XOR server, the key is
   * as long as the shorter of the two, it is 16 bytes exactly when the server key has at
   * least 16, and XOR-ing it with the device key again yields the server key's prefix
   * (all of it when the server key has at most 16 bytes).
   */
  lemma SessionKeyRecoversServerKey(deviceKey: seq<byte>, config: Value)
    requires |deviceKey| == 16
    requires SessionFromConfig(deviceKey, config).Success?
    ensures ServerKeyOf(config).Some?
    ensures var s := SessionFromConfig(deviceKey, config).value;
            var serverKey := ServerKeyOf(config).value;
            && |s.key| == Min(16, |serverKey|)
            && (forall i :: 0 <= i < |s.key| ==> s.key[i] == Xor(deviceKey[i], serverKey[i]))
            && (|s.key| == 16 <==> |serverKey| >= 16)
            && XorBytes(s.key, deviceKey) == serverKey[..|s.key|]
            && (|serverKey| <= 16 ==> XorBytes(s.key, deviceKey) == serverKey)
            && s.keyId == config.fields["key_id"]
  {
    var serverKey := ServerKeyOf(config).value;
    XorBytesCancel(deviceKey, serverKey);
  }

  /**
   * A hex error in the configuration body is raised before any decryption: the outcome is
   * the same whatever the cipher and the parser would have done.
   */
  lemma HexErrorPrecedesDecryption(prims1: Primitives, prims2: Primitives, device: Device, body: string)
    requires FromHex(body).None?
    ensures EstablishSession(prims1, device, body) == EstablishSession(prims2, device, body) == Failure(HexDecodeError)
  {
  }

  /**
   * A server key shorter than 16 bytes yields a session key AES rejects, so every later
   * decryption with it fails in `AES.new`, whatever the ciphertext.
   */
  lemma ShortServerKeyBreaksSession(prims: Primitives, device: Device, body: string, config: Value, ct: seq<byte>)
    requires ValidDevice(device)
    requires FromHex(body).Some? && DecryptResponse(prims, device.key, FromHex(body).value) == Success(config)
    requires ServerKeyOf(config).Some? && |ServerKeyOf(config).value| < 16
    requires EstablishSession(prims, device, body).Success?
    ensures DecryptResponse(prims, EstablishSession(prims, device, body).value.key, ct) == Failure(KeyLengthError)
  {
    SessionKeyRecoversServerKey(device.key, config);
  }
}
