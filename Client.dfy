/**
 * `HuluClient`: the handshake runs once while the client is built, and the session key and
 * server key id it yields are the only state `load_playlist` reads afterwards.
 */
module Client {
  import opened Wrappers
  import opened Bytes
  import opened Errors
  import opened Foreign
  import opened Base16
  import opened CipherCodec
  import opened Handshake
  import Json

  class HuluClient {
    const device: Device
    /** `session_key`: the derived key every playlist response is decrypted with. */
    const sessionKey: seq<byte>
    /** `server_key` in Python: the `key_id` of the configuration response, sent back as `kv`. */
    const keyId: Json.Value
    /** The server's decoded `key`, which the session key was derived from. */
    ghost const serverKey: seq<byte>

    /** The handshake's invariant: the session key is the device key XOR the server key. */
    ghost predicate Valid()
    {
      ValidDevice(device) && sessionKey == XorBytes(device.key, serverKey)
    }

    /** A client in the state `__init__` leaves it in once the handshake has succeeded. */
    constructor (device: Device, session: Session, ghost serverKey: seq<byte>)
      requires ValidDevice(device) && session.key == XorBytes(device.key, serverKey)
      ensures Valid()
      ensures this.device == device && sessionKey == session.key && keyId == session.keyId
      ensures this.serverKey == serverKey
    {
      this.device := device;
      sessionKey := session.key;
      keyId := session.keyId;
      this.serverKey := serverKey;
    }

    /**
     * `get_session_key`: post the configuration request, hex-decode the reply, decrypt it
     * with the device key, and XOR the device key with the server's key.
     */
    static method GetSessionKey(prims: Primitives, device: Device, randomValue: nat, post: Transport)
      returns (r: Result<Session, Error>)
      requires ValidDevice(device) && RandomLow <= randomValue < RandomHigh
      ensures r == EstablishSession(prims, device, post(ConfigUrl, ConfigPayload(prims, device, randomValue)))
    {
      var payload := ConfigPayload(prims, device, randomValue);
      var body := post(ConfigUrl, payload);
      var ciphertext := FromHex(body);
      if ciphertext.None? {
        return Failure(HexDecodeError);
      }
      var decrypted := DecryptResponse(prims, device.key, ciphertext.value);
      if decrypted.Failure? {
        return Failure(decrypted.error);
      }
      var config := decrypted.value;
      var key := ConfigField(config, "key");
      if key.Failure? {
        return Failure(key.error);
      }
      var serverKey := DecodeServerKey(key.value);
      if serverKey.Failure? {
        return Failure(serverKey.error);
      }
      var derived := DeriveSessionKey(device.key, serverKey.value);
      var keyId := ConfigField(config, "key_id");
      if keyId.Failure? {
        return Failure(keyId.error);
      }
      r := Success(Session(derived, keyId.value));
    }

    /**
     * `HuluClient(device_code, device_key)`: a client exists only if the handshake succeeds;
     * otherwise its error propagates and nothing is built. The random value and the
     * transport are passed in.
     */
    static method Create(prims: Primitives, device: Device, randomValue: nat, post: Transport)
      returns (r: Result<HuluClient, Error>)
      requires ValidDevice(device) && RandomLow <= randomValue < RandomHigh
      ensures var h := EstablishSession(prims, device, post(ConfigUrl, ConfigPayload(prims, device, randomValue)));
              match h
              case Failure(e) => r == Failure(e)
              case Success(s) =>
                && r.Success? && fresh(r.value) && r.value.Valid()
                && r.value.device == device
                && r.value.sessionKey == s.key && r.value.keyId == s.keyId
                && r.value.serverKey ==
                     ServerKeyOf(DecryptResponse(prims, device.key,
                       FromHex(post(ConfigUrl, ConfigPayload(prims, device, randomValue))).value).value).value
    {
      var session := GetSessionKey(prims, device, randomValue, post);
      if session.Failure? {
        return Failure(session.error);
      }
      ghost var body := post(ConfigUrl, ConfigPayload(prims, device, randomValue));
      ghost var config := DecryptResponse(prims, device.key, FromHex(body).value).value;
      ghost var serverKey := ServerKeyOf(config).value;
      var client := new HuluClient(device, session.value, serverKey);
      r := Success(client);
    }

    /** The query parameters `load_playlist` sends for a video. */
    function PlaylistRequest(videoId: Json.Value): (p: Params)
      ensures "kv" in p && p["kv"] == keyId
      ensures "device" in p && p["device"] == Json.JString(device.code)
      ensures "version" in p && p["version"] == Json.JString(Version)
      ensures "video_id" in p && p["video_id"] == videoId
    {
      PlaylistParams(device.code, keyId, videoId)
    }

    /**
     * `load_playlist(video_id)`: get the playlist, hex-decode the reply, and decrypt it with
     * the session key. A body that is not hex fails before any decryption; the client's
     * state is only read.
     */
    method LoadPlaylist(prims: Primitives, videoId: Json.Value, get: Transport) returns (r: Result<Json.Value, Error>)
      requires Valid()
      ensures var body := get(PlaylistUrl, PlaylistRequest(videoId));
              match FromHex(body)
              case None => r == Failure(HexDecodeError)
              case Some(ct) => r == DecryptResponse(prims, sessionKey, ct)
    {
      var params := PlaylistRequest(videoId);
      var body := get(PlaylistUrl, params);
      var ciphertext := FromHex(body);
      if ciphertext.None? {
        return Failure(HexDecodeError);
      }
      r := DecryptResponse(prims, sessionKey, ciphertext.value);
    }
  }

  /**
   * End to end: a playlist response that the server encrypted under the session key the
   * handshake derived is decrypted to exactly what `json.loads` makes of its plaintext.
   */
  lemma PlaylistRoundTrip(prims: Primitives, encrypt: (seq<byte>, Block) -> Block, client: HuluClient,
                          videoId: Json.Value, get: Transport, plaintext: seq<byte>)
    requires client.Valid() && |client.serverKey| >= 16
    requires forall b: Block :: prims.aesDecryptBlock(client.sessionKey, encrypt(client.sessionKey, b)) == b
    requires get(PlaylistUrl, client.PlaylistRequest(videoId)) == ToHex(EncryptPayload(encrypt, client.sessionKey, plaintext))
    ensures FromHex(get(PlaylistUrl, client.PlaylistRequest(videoId))).Some?
    ensures DecryptResponse(prims, client.sessionKey, FromHex(get(PlaylistUrl, client.PlaylistRequest(videoId))).value) ==
              match prims.jsonLoads(plaintext)
              case Some(v) => Success(v)
              case None => Failure(ParseError)
  {
    assert |client.sessionKey| == 16;
    var ct := EncryptPayload(encrypt, client.sessionKey, plaintext);
    FromHexToHex(ct);
    DecryptResponseRoundTrip(prims, encrypt, client.sessionKey, plaintext);
  }
}
