# pyhulu client core, modelled in Dafny

This project models the handshake and decryption logic of `HuluClient` in `pyhulu/client.py`.

- **Handshake.** Building a client runs a one-time handshake. It posts a configuration request. The request carries an MD5 nonce over `hex(device_key),device_code,1,random_value`. The client hex-decodes the reply and decrypts it with the device key. It then derives the session key by XOR-ing the device key with the server's `key`, byte by byte.
- **Playlist.** `load_playlist` sends the server's `key_id` back as `kv`. It hex-decodes the playlist reply and decrypts it with the session key.
- **Decryption.** Every decryption is AES-CBC with a fixed all-zero IV (section 6.2 of NIST SP 800-38A). Then comes PKCS#7 unpadding to 16 bytes (section 6.3 of RFC 5652), and then `json.loads`.
- **Wire compatibility.** The zero IV, the MD5 nonce and the XOR derivation are fixed by the remote protocol. They are kept for wire compatibility, not chosen for security.

Modules, one per component:

- `Bytes`: bytes as integers 0..255, Python's `^` defined bit by bit, 16-byte blocks, and zip-truncating XOR.
- `Base16`: `bytes.fromhex` and `binascii.hexlify`, as Base16 from section 8 of RFC 4648 with the whitespace skipping of CPython 3.7 and later.
- `Decimal`: `str(int)`.
- `Json`: JSON values.
- `Errors`: the raised exceptions.
- `Foreign`: the library routines the model does not define. These are the AES block function, `json.loads` and MD5, passed in as function values.
- `CipherCodec`: `decrypt_response`.
- `Handshake`: nonce input, request maps, the key-derivation loop, and reading the configuration document.
- `Client`: the `HuluClient` class.

Behaviour of `client.py` worth noting, all of it modelled as written:

- **Session key length.** `zip` stops at the shorter input, so the session key has `min(16, len(server key))` bytes. A server key shorter than 16 bytes yields a session key that `AES.new` rejects at the first playlist decryption (`ShortServerKeyBreaksSession`).
- **Errors.** Every failure is a Python exception with a fixed message. Padding, length and block-alignment failures all become the same `ValueError('Error decrypting response')` (`DecryptError`). A wrong key length is raised by `AES.new` outside the `try` (`KeyLengthError`). A `json.loads` failure is not caught (`ParseError`).
- **Missing or bad fields.** A configuration document without a usable `key` or `key_id` raises `KeyError`, `TypeError` or `ValueError` (`ConfigFieldError`, `ServerKeyError`).
- **Client construction.** A Dafny constructor cannot fail, so `HuluClient.Create` returns a `Result`. It builds the object through the constructor only when the handshake succeeds. `GetSessionKey` is a static method for the same reason: in Python it runs on a half-built object. The client's fields are constants set once by the constructor, as `__init__` assigns them once and `load_playlist` only reads them. The client keeps the decoded server key as a ghost field, so that its invariant can state how the session key was derived.
- **Test arguments.** `tests.py` passes a `cookies` argument that the constructor in `client.py` does not take. The model follows `client.py`.

## Model

| member | source | states |
|---|---|---|
| `Base16.FromHex` | pyhulu/client.py:60 | a decoded result is at most half as long as the text; what whitespace does is stated by the lemmas below |
| `Base16.FromHexSkipsSpace` | pyhulu/client.py:60 | a whitespace character where a pair may start is skipped |
| `Base16.FromHexSplitPairFails` | pyhulu/client.py:60 | a hex digit followed by whitespace is an error: whitespace may not split a pair |
| `Base16.FromHexSpaceBetweenPairs` | pyhulu/client.py:60 | inserting whitespace after any number of complete pairs does not change the outcome |
| `Base16.FromHexStripsSpace` | pyhulu/client.py:60 | any text `fromhex` accepts decodes exactly as the same text with its whitespace removed, which is an even number of hex digits |
| `Base16.ToHex` | pyhulu/client.py:89 | `hexlify` writes two lower-case hex digits per byte, no separators |
| `Base16.ToHexAt` | pyhulu/client.py:89 | byte `i` becomes the characters at `2i` (high nibble) and `2i+1` (low nibble) |
| `Base16.FromHexToHex` | pyhulu/client.py:89 | decoding the hex of the device key gives the key back (round trip) |
| `Base16.ToHexInjective` | pyhulu/client.py:89 | distinct keys have distinct hex text |
| `Base16.FromHexRejectsForeignChar` | pyhulu/client.py:109-121 | one character that is neither a hex digit nor whitespace makes the body undecodable |
| `Base16.FromHexPlainSucceeds` | pyhulu/client.py:110 | without whitespace, decoding succeeds iff the text is an even number of hex digits (RFC 4648 Base16) |
| `Base16.FromHexPlainBytes` | pyhulu/client.py:110 | for such text the result has half as many bytes, and byte `i` is the value of the digit pair at `2i` |
| `Base16.HexPairOfByte` | pyhulu/client.py:89 | the two digits written for a byte denote that byte |
| `Decimal.DecimalString` | pyhulu/client.py:92 | `str(n)` is a non-empty string of decimal digits with no leading zero |
| `Decimal.DecimalRoundTrip` | pyhulu/client.py:92 | reading back `str(random_value)` gives the value |
| `Decimal.DecimalStringInjective` | pyhulu/client.py:92 | distinct random values have distinct decimal text |
| `Decimal.DecimalLength` | pyhulu/client.py:86-92 | a `k`-digit value is written with exactly `k` characters |
| `Bytes.XorNatParity` | pyhulu/client.py:131 | the lowest bit of `a ^ b` is the parity of `a + b` |
| `Bytes.Xor` | pyhulu/client.py:131 | `a ^ b` on bytes is zero exactly when `a == b`, and is symmetric |
| `Bytes.XorBytes` | pyhulu/client.py:128-131 | the XOR over `zip(a, b)` has the shorter input's length, and byte `i` is `a[i] ^ b[i]` |
| `Bytes.XorCancel` | pyhulu/client.py:131 | `^` on bytes cancels: `(a ^ b) ^ b == a` and `(a ^ b) ^ a == b` |
| `Bytes.XorNatBound` | pyhulu/client.py:131 | `^` of two values below `2^k` stays below `2^k`, so XOR of two bytes is a byte |
| `Bytes.XorBytesCancel` | pyhulu/client.py:128-131 | XOR-ing the derived bytes with either input again gives the other input, cut to the shorter length |
| `CipherCodec.CbcDecrypt` | pyhulu/client.py:147-150 | CBC decryption succeeds iff the ciphertext is whole blocks, and then keeps its length |
| `CipherCodec.CbcChain` | pyhulu/client.py:150 | CBC decryption of whole blocks keeps the length of the ciphertext |
| `CipherCodec.CbcChainBlock` | pyhulu/client.py:147-150 | output block `i` is D(c_i) XOR the previous ciphertext block, or XOR the IV for block 0 |
| `CipherCodec.CbcDecryptBlocks` | pyhulu/client.py:147-150 | with the zero IV: output length equals ciphertext length, block 0 is D(c_0), block `i` is D(c_i) XOR c_(i-1) |
| `CipherCodec.CbcRoundTrip` | pyhulu/client.py:147-150 | when D inverts E, CBC decryption inverts CBC encryption under the same IV |
| `CipherCodec.Pad` | pyhulu/client.py:150 | PKCS#7 padding yields whole blocks and adds 1 to 16 bytes |
| `CipherCodec.Unpad` | pyhulu/client.py:150 | `unpad` succeeds iff the buffer is a non-zero number of blocks, ends in `n` in 1..16, and its last `n` bytes equal `n`; it then returns a proper prefix at most 16 bytes shorter |
| `CipherCodec.UnpadResult` | pyhulu/client.py:150 | a successful `unpad` drops exactly the `n` padding bytes, leaving 1..16 bytes fewer, and padding the result rebuilds the buffer |
| `CipherCodec.UnpadPad` | pyhulu/client.py:150 | unpadding a padded message returns the message |
| `CipherCodec.DecryptResponse` | pyhulu/client.py:135-162 | a key that is not 16, 24 or 32 bytes fails in `AES.new`; a ciphertext that is empty, not whole blocks, or badly padded after CBC decryption fails with the decrypting error; a well-padded one gives `json.loads` of the unpadded CBC plaintext, or the parse error when `json.loads` rejects it, and every success is of that form |
| `CipherCodec.DecryptResponseRoundTrip` | pyhulu/client.py:135-162 | decrypting what the server encrypted under the same key gives exactly `json.loads` of the plaintext, or its parse error |
| `Handshake.NonceInput` | pyhulu/client.py:88-93 | the nonce input is the key's hex, a comma, the device code, `,1,` and the random value's digits |
| `Handshake.ConfigPayload` | pyhulu/client.py:97-105 | the configuration request holds exactly `rv`, `mozart_version` '1', `region` 'US', `version` '1', the device code, and the MD5 of the nonce input |
| `Handshake.PlaylistParams` | pyhulu/client.py:47-55 | the playlist request holds exactly the video id, empty `token` and `device_id`, the device code, `version` '1' and `kv` = the key id |
| `Handshake.RequestsAgree` | pyhulu/client.py:98-105 | both requests carry the same version and the same device code |
| `Handshake.NonceInputLength` | pyhulu/client.py:86-93 | for a 16-byte key and `100000 <= rv < 1000000` the nonce input is 42 characters longer than the device code |
| `Handshake.NonceInputInjective` | pyhulu/client.py:88-93 | for valid devices the nonce input determines the device and the random value |
| `Handshake.DeriveSessionKey` | pyhulu/client.py:128-131 | the loop yields `min(len)` bytes, byte `i` being device byte `i` XOR server byte `i` |
| `Handshake.ConfigField` | pyhulu/client.py:130-133 | `config_dict[field]` succeeds iff the document is an object holding the field |
| `Handshake.DecodeServerKey` | pyhulu/client.py:130 | the server key decodes iff it is a string that `fromhex` accepts |
| `Handshake.SessionFromConfig` | pyhulu/client.py:128-133 | a session results iff `key` is a decodable hex string and `key_id` is present; its key is the device key XOR the server key over `zip`, its key id is `key_id`; a missing `key` fails on that field, an undecodable `key` with the server-key error, and a missing `key_id` on that field |
| `Handshake.EstablishSession` | pyhulu/client.py:109-133 | a body that is not hex fails with the hex error; a decryption error under the device key propagates unchanged; a decrypted document yields exactly what `SessionFromConfig` makes of it, so a success holds the device key XOR the decoded server key and the document's `key_id` |
| `Handshake.SessionKeyRecoversServerKey` | pyhulu/client.py:128-133 | the session key has `min(16, len(server key))` bytes of device XOR server, is 16 bytes iff the server key has at least 16, XOR with the device key gives back the server key, and the key id is `key_id` verbatim |
| `Handshake.HexErrorPrecedesDecryption` | pyhulu/client.py:109-126 | with a non-hex configuration body the outcome is the hex error whatever the cipher and parser do, so decryption is never reached |
| `Handshake.ShortServerKeyBreaksSession` | pyhulu/client.py:147 | a server key under 16 bytes yields a session key that fails every later decryption with the key-length error |
| `Client.HuluClient.constructor` | pyhulu/client.py:28-32 | a client holds the device, the session key and the key id of an established session, and its session key is the device key XOR the server key |
| `Client.HuluClient.GetSessionKey` | pyhulu/client.py:75-133 | the method posts the configuration payload and returns exactly the handshake's outcome on the reply |
| `Client.HuluClient.Create` | pyhulu/client.py:28-32 | a client exists iff the handshake succeeds; it then holds the derived key and key id, keeps the decoded server key of the reply, and keeps the derivation invariant; otherwise the handshake's error propagates |
| `Client.HuluClient.PlaylistRequest` | pyhulu/client.py:47-55 | the playlist request sends the stored key id as `kv`, the device code and version '1' |
| `Client.HuluClient.LoadPlaylist` | pyhulu/client.py:34-73 | a non-hex reply fails with the hex error; otherwise the result is decryption with the stored session key; nothing is modified |
| `Client.PlaylistRoundTrip` | pyhulu/client.py:57-73 | for a client whose server key has at least 16 bytes, a playlist reply encrypted under the session key is decoded and decrypted to `json.loads` of its plaintext |

## Left out

- HTTP (`requests.get`, `requests.post`): each exchange is a `Transport` function from URL and parameters to the body text. Status codes and transport errors are not modelled.
- Logging of requests, responses, ciphertexts and keys, the base64 renderings used only for it, and `__repr__`: diagnostics only.
- The AES block function, the MD5 digest and `json.loads` are library calls. They are fields of `Primitives` and are not specified. Every property holds for any choice of them.
- `random.randrange(1E5, 1E6)`: the random value is a parameter with a range precondition.
- `Device` validation: `pyhulu/device.py` is not part of this model. A device is a record, and the client requires a non-empty code and a 16-byte key. A numeric device code is represented by its decimal text.
- Python version: the model follows Python 3.7 through 3.11. From 3.7 on, `bytes.fromhex` skips all six ASCII whitespace characters; before 3.12, `random.randrange` accepts the float bounds `1E5` and `1E6`. The versions 3.3 to 3.6 that `setup.py` lists skip only the space character, so a body ending in a newline fails the hex decode there; that variant is not modelled.
- JSON numbers are modelled as integers. Fractional numbers are not modelled, because no property depends on them.
- Exception classes and messages are collapsed into the `Error` constructors, one per distinct cause.
- `Client.HuluClient.PlaylistRequest`: states only the four parameters the protocol depends on. `Handshake.PlaylistParams` states all six.
