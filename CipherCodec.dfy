/**
 * `decrypt_response`: AES in CBC mode with a fixed all-zero IV (section 6.2 of NIST
 * SP 800-38A), then PKCS#7 unpadding to 16 bytes (section 6.3 of RFC 5652), then `json.loads`.
 * The zero IV is fixed by the remote protocol and is kept for wire compatibility.
 * `CbcEncrypt`, `Pad` and `EncryptPayload` are the server side, there only as the
 * partners the round-trip lemmas need.
 */
module CipherCodec {
  import opened Wrappers
  import opened Bytes
  import opened Errors
  import opened Foreign
  import Json

  const ZeroIv: Block := [0, 0, 0, 0, 0, 0, 0, 0, 0, 0, 0, 0, 0, 0, 0, 0]

  /** The key sizes `AES.new` accepts: AES-128, AES-192 and AES-256. */
  predicate ValidKeyLength(n: nat)
  {
    n == 16 || n == 24 || n == 32
  }

  /** CBC decryption of whole blocks: each plaintext block is D(c_i) XOR c_(i-1), with c_(-1) = `prev`. */
  function CbcChain(decrypt: (seq<byte>, Block) -> Block, key: seq<byte>, prev: Block, ct: seq<byte>): (pt: seq<byte>)
    requires |ct| % 16 == 0
    ensures |pt| == |ct|
    decreases |ct|
  {
    if |ct| == 0 then []
    else
      var c: Block := ct[..16];
      XorBytes(decrypt(key, c), prev) + CbcChain(decrypt, key, c, ct[16..])
  }

  /** `AES.new(key, AES.MODE_CBC, iv=b'\0'*16).decrypt(ct)`; `None` where it raises for a length that is not whole blocks. */
  function CbcDecrypt(decrypt: (seq<byte>, Block) -> Block, key: seq<byte>, ct: seq<byte>): (r: Option<seq<byte>>)
    ensures r.Some? <==> |ct| % 16 == 0
    ensures r.Some? ==> |r.value| == |ct|
  {
    if |ct| % 16 != 0 then None else Some(CbcChain(decrypt, key, ZeroIv, ct))
  }

  /** CBC encryption of whole blocks, each c_i = E(p_i XOR c_(i-1)), with c_(-1) = `prev`. */
  function CbcEncrypt(encrypt: (seq<byte>, Block) -> Block, key: seq<byte>, prev: Block, pt: seq<byte>): (ct: seq<byte>)
    requires |pt| % 16 == 0
    ensures |ct| == |pt|
    decreases |pt|
  {
    if |pt| == 0 then []
    else
      var c := encrypt(key, XorBytes(pt[..16], prev));
      c + CbcEncrypt(encrypt, key, c, pt[16..])
  }

  /** The last `n` bytes of `data` all hold the value `n`. */
  predicate PaddingBytesMatch(data: seq<byte>, n: byte)
    requires n as int <= |data|
  {
    forall j :: |data| - n as int <= j < |data| ==> data[j] == n
  }

  /**
   * `Padding.unpad(data, 16)` in its PKCS#7 style; `None` where it raises `ValueError`.
   * It succeeds exactly on buffers that are a non-zero number of blocks and end in a byte
   * `n` in 1..16 whose last `n` bytes all equal `n`, and then keeps a proper prefix that is
   * at most 16 bytes shorter: bad padding is an error, never a truncation.
   */
  function Unpad(data: seq<byte>): (r: Option<seq<byte>>)
    ensures r.Some? <==>
              |data| > 0 && |data| % 16 == 0 &&
              1 <= data[|data| - 1] as int <= 16 && PaddingBytesMatch(data, data[|data| - 1])
    ensures r.Some? ==> |data| - 16 <= |r.value| < |data| && r.value == data[..|r.value|]
  {
    if |data| == 0 || |data| % 16 != 0 then None
    else
      var n := data[|data| - 1];
      if n < 1 || n > 16 || !PaddingBytesMatch(data, n) then None
      else Some(data[..|data| - n as int])
  }

  /** PKCS#7 padding to 16 bytes: `n = 16 - |m| % 16` copies of the byte `n`. */
  function Pad(m: seq<byte>): (p: seq<byte>)
    ensures |p| % 16 == 0 && |m| < |p| <= |m| + 16
  {
    var n := 16 - |m| % 16;
    m + seq(n, _ => n as byte)
  }

  /** What the server sends: the padded plaintext, CBC-encrypted under the zero IV. */
  function EncryptPayload(encrypt: (seq<byte>, Block) -> Block, key: seq<byte>, plaintext: seq<byte>): (ct: seq<byte>)
    ensures |ct| % 16 == 0 && |ct| > 0
  {
    CbcEncrypt(encrypt, key, ZeroIv, Pad(plaintext))
  }

  /**
   * `decrypt_response(key, ciphertext)`. A bad key length is raised by `AES.new`, before
   * the `try`; a misaligned ciphertext or bad padding raises inside it and becomes
   * `DecryptError`; a plaintext `json.loads` rejects raises after it.
   */
  function DecryptResponse(prims: Primitives, key: seq<byte>, ct: seq<byte>): (r: Result<Json.Value, Error>)
    ensures !ValidKeyLength(|key|) ==> r == Failure(KeyLengthError)
    ensures ValidKeyLength(|key|) && |ct| % 16 != 0 ==> r == Failure(DecryptError)
    ensures ValidKeyLength(|key|) && |ct| == 0 ==> r == Failure(DecryptError)
    ensures ValidKeyLength(|key|) && |ct| % 16 == 0 && Unpad(CbcChain(prims.aesDecryptBlock, key, ZeroIv, ct)).None? ==>
              r == Failure(DecryptError)
    ensures r.Success? ==>
              && |ct| % 16 == 0
              && Unpad(CbcChain(prims.aesDecryptBlock, key, ZeroIv, ct)).Some?
              && prims.jsonLoads(Unpad(CbcChain(prims.aesDecryptBlock, key, ZeroIv, ct)).value) == Some(r.value)
    ensures ValidKeyLength(|key|) && |ct| % 16 == 0 && Unpad(CbcChain(prims.aesDecryptBlock, key, ZeroIv, ct)).Some? ==>
              r == match prims.jsonLoads(Unpad(CbcChain(prims.aesDecryptBlock, key, ZeroIv, ct)).value)
                   case Some(v) => Success(v)
                   case None => Failure(ParseError)
  {
    if !ValidKeyLength(|key|) then Failure(KeyLengthError)
    else
      match CbcDecrypt(prims.aesDecryptBlock, key, ct)
      case None => Failure(DecryptError)
      case Some(padded) =>
        match Unpad(padded)
        case None => Failure(DecryptError)
        case Some(plaintext) =>
          match prims.jsonLoads(plaintext)
          case None => Failure(ParseError)
          case Some(v) => Success(v)
  }

  /**
   * Block `i` of the CBC output: D(c_0) XOR IV for the first block, D(c_i) XOR c_(i-1)
   * after it.
   */
  lemma {:induction false} CbcChainBlock(decrypt: (seq<byte>, Block) -> Block, key: seq<byte>, prev: Block, ct: seq<byte>, i: nat)
    requires |ct| % 16 == 0 && i < |ct| / 16
    decreases i
    ensures CbcChain(decrypt, key, prev, ct)[16 * i..16 * i + 16] ==
            XorBytes(decrypt(key, ct[16 * i..16 * i + 16]),
                     if i == 0 then prev else ct[16 * (i - 1)..16 * i])
  {
    var c: Block := ct[..16];
    var rest := ct[16..];
    var head := XorBytes(decrypt(key, c), prev);
    var tail := CbcChain(decrypt, key, c, rest);
    assert CbcChain(decrypt, key, prev, ct) == head + tail;
    if i == 0 {
      assert (head + tail)[..16] == head;
    } else {
      var lo := 16 * i;
      assert i - 1 < |rest| / 16 && lo <= |rest| by {
        var q := |rest| / 16;
        assert |rest| == 16 * q;
      }
      CbcChainBlock(decrypt, key, c, rest, i - 1);
      var before := if i == 1 then c else rest[lo - 32..lo - 16];
      assert (head + tail)[lo..lo + 16] == tail[lo - 16..lo] by {
        SliceAfterBlock(head, tail, lo, lo + 16);
      }
      assert rest[lo - 16..lo] == ct[lo..lo + 16] by {
        assert ct == c + rest;
        SliceAfterBlock(c, rest, lo, lo + 16);
      }
      assert before == ct[lo - 16..lo] by {
        assert ct == c + rest;
        if i > 1 {
          SliceAfterBlock(c, rest, lo - 16, lo);
        }
      }
    }
  }

  /** Past a leading 16-byte block, a slice of `h + t` is the same slice of `t`, shifted by 16. */
  lemma SliceAfterBlock(h: seq<byte>, t: seq<byte>, lo: nat, hi: nat)
    requires |h| == 16 && 16 <= lo <= hi <= 16 + |t|
    ensures (h + t)[lo..hi] == t[lo - 16..hi - 16]
  {
  }

  /** With the zero IV, plaintext block 0 is D(c_0) itself and block `i > 0` is D(c_i) XOR c_(i-1). */
  lemma CbcDecryptBlocks(decrypt: (seq<byte>, Block) -> Block, key: seq<byte>, ct: seq<byte>, i: nat)
    requires |ct| % 16 == 0 && i < |ct| / 16
    ensures CbcDecrypt(decrypt, key, ct).Some?
    ensures |CbcDecrypt(decrypt, key, ct).value| == |ct|
    ensures i == 0 ==> CbcDecrypt(decrypt, key, ct).value[..16] == decrypt(key, ct[..16])
    ensures i > 0 ==> CbcDecrypt(decrypt, key, ct).value[16 * i..16 * i + 16] ==
                      XorBytes(decrypt(key, ct[16 * i..16 * i + 16]), ct[16 * (i - 1)..16 * i])
  {
    CbcChainBlock(decrypt, key, ZeroIv, ct, i);
    if i == 0 {
      var d := decrypt(key, ct[..16]);
      assert XorBytes(d, ZeroIv) == d;
    }
  }

  /** CBC decryption undoes CBC encryption under the same IV whenever D undoes E on every block. */
  lemma {:induction false} CbcRoundTrip(decrypt: (seq<byte>, Block) -> Block, encrypt: (seq<byte>, Block) -> Block,
                                        key: seq<byte>, prev: Block, pt: seq<byte>)
    requires |pt| % 16 == 0
    requires forall b: Block :: decrypt(key, encrypt(key, b)) == b
    decreases |pt|
    ensures CbcChain(decrypt, key, prev, CbcEncrypt(encrypt, key, prev, pt)) == pt
  {
    if |pt| > 0 {
      var p := pt[..16];
      var x: Block := XorBytes(p, prev);
      var c := encrypt(key, x);
      var ct := CbcEncrypt(encrypt, key, prev, pt);
      assert ct == c + CbcEncrypt(encrypt, key, c, pt[16..]);
      assert ct[..16] == c;
      assert ct[16..] == CbcEncrypt(encrypt, key, c, pt[16..]);
      CbcRoundTrip(decrypt, encrypt, key, c, pt[16..]);
      XorBytesCancel(p, prev);
      assert XorBytes(decrypt(key, c), prev) == p;
      assert p + pt[16..] == pt;
    }
  }

  /** Unpadding a padded message gives the message back. */
  lemma UnpadPad(m: seq<byte>)
    ensures Unpad(Pad(m)) == Some(m)
  {
    var p := Pad(m);
    var n := 16 - |m| % 16;
    assert p[|p| - 1] as int == n;
    assert p[..|p| - n] == m;
  }

  /**
   * A successful `unpad` drops exactly the `n` padding bytes, so the result is 1 to 16
   * bytes shorter, and padding it again rebuilds the buffer: `Pad` and `Unpad` are
   * inverse bijections between messages and well-padded buffers.
   */
  lemma UnpadResult(data: seq<byte>)
    requires Unpad(data).Some?
    ensures Unpad(data).value == data[..|data| - data[|data| - 1] as int]
    ensures |data| - 16 <= |Unpad(data).value| < |data|
    ensures Pad(Unpad(data).value) == data
  {
    var n := data[|data| - 1] as int;
    var m := data[..|data| - n];
    PadLengthAfterUnpad(|data|, n);
    var tail := seq(n, _ => n as byte);
    assert Pad(m) == m + tail;
    assert PaddingBytesMatch(data, data[|data| - 1]);
    assert data[|data| - n..] == tail by {
      forall j | 0 <= j < n ensures data[|data| - n..][j] == tail[j] {
        assert data[|data| - n..][j] == data[|data| - n + j];
      }
    }
    assert m + data[|data| - n..] == data;
  }

  /** Dropping `n` in 1..16 bytes from whole blocks leaves a length whose PKCS#7 pad is `n`. */
  lemma PadLengthAfterUnpad(len: nat, n: nat)
    requires len > 0 && len % 16 == 0 && 1 <= n <= 16
    ensures 16 - (len - n) % 16 == n
  {
    var q := len / 16;
    assert len == 16 * q;
    assert len - n == 16 * (q - 1) + (16 - n);
  }

  /**
   * The round trip a client relies on: decrypting what the server encrypted under the same
   * key yields exactly what `json.loads` makes of the plaintext.
   */
  lemma DecryptResponseRoundTrip(prims: Primitives, encrypt: (seq<byte>, Block) -> Block, key: seq<byte>, plaintext: seq<byte>)
    requires ValidKeyLength(|key|)
    requires forall b: Block :: prims.aesDecryptBlock(key, encrypt(key, b)) == b
    ensures DecryptResponse(prims, key, EncryptPayload(encrypt, key, plaintext)) ==
              match prims.jsonLoads(plaintext)
              case Some(v) => Success(v)
              case None => Failure(ParseError)
  {
    CbcRoundTrip(prims.aesDecryptBlock, encrypt, key, ZeroIv, Pad(plaintext));
    UnpadPad(plaintext);
  }
}
