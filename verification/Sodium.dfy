/**
 The AEAD boundary (src/sodium.rs) as an ideal functionality, the interface of sections 2.1, 2.2
 and 5.2 of RFC 5116.  Encryption is any function that adds a 16-byte tag and that, for a fixed
 key, nonce and associated data, never maps two plaintexts to one ciphertext.  The log holds every
 encryption ever made, by anyone; decryption succeeds exactly on what the log explains.
 */
module Sodium {
  import opened Bytes

  const KEYBYTES := 32
  const NPUBBYTES := 12
  const ABYTES := 16

  type Key = k: Bytes | |k| == KEYBYTES witness Zeros(KEYBYTES)
  type Nonce = n: Bytes | |n| == NPUBBYTES witness Zeros(NPUBBYTES)

  /** Key, nonce, associated data and plaintext to ciphertext and tag. */
  type Cipher = (Key, Nonce, Bytes, Bytes) -> Bytes

  datatype Call = Call(key: Key, nonce: Nonce, aad: Bytes, plain: Bytes)

  type Log = set<Call>

  datatype SodiumError = InvalidLength | AuthFailed

  ghost predicate IsAead(enc: Cipher) {
    && (forall k: Key, n: Nonce, a: Bytes, p: Bytes :: |enc(k, n, a, p)| == |p| + ABYTES)
    && (forall k: Key, n: Nonce, a: Bytes, p: Bytes, q: Bytes ::
          enc(k, n, a, p) == enc(k, n, a, q) ==> p == q)
  }

  /** Whether logged call `c` produced ciphertext `ct` under this key, nonce and associated data. */
  predicate Explains(enc: Cipher, c: Call, key: Key, nonce: Nonce, aad: Bytes, ct: Bytes) {
    c.key == key && c.nonce == nonce && c.aad == aad && enc(key, nonce, aad, c.plain) == ct
  }

  /** The result of authenticated decryption, `None` being a tag mismatch. */
  function Decrypt(enc: Cipher, log: Log, key: Key, nonce: Nonce, aad: Bytes, ct: Bytes): (r: Option<Bytes>)
    requires IsAead(enc)
    ensures forall p: Bytes ::
              r == Some(p) <==> Call(key, nonce, aad, p) in log && enc(key, nonce, aad, p) == ct
    ensures r.Some? ==> |ct| == |r.value| + ABYTES
  {
    if exists c | c in log :: Explains(enc, c, key, nonce, aad, ct) then
      var c :| c in log && Explains(enc, c, key, nonce, aad, ct);
      Some(c.plain)
    else
      None
  }

  /** The library handle: the cipher in use and everything encrypted so far. */
  class Aead {
    const enc: Cipher
    var log: Log

    constructor (enc: Cipher)
      requires IsAead(enc)
      ensures this.enc == enc && log == {}
    {
      this.enc := enc;
      log := {};
    }

    /** `aead_encrypt` into `out[lo..hi]`. */
    method Encrypt(key: Key, nonce: Nonce, aad: Bytes, plain: Bytes, out: array<Byte>, lo: nat, hi: nat)
      returns (r: Result<nat, SodiumError>)
      requires IsAead(enc) && lo <= hi <= out.Length
      modifies this, out
      ensures r.Ok? <==> |plain| + ABYTES <= hi - lo
      ensures r.Err? ==> r.error == InvalidLength && log == old(log) && out[..] == old(out[..])
      ensures r.Ok? ==>
                && r.value == |plain| + ABYTES
                && log == old(log) + {Call(key, nonce, aad, plain)}
                && out[..] == old(out[..lo]) + enc(key, nonce, aad, plain) + old(out[lo + r.value..])
    {
      var needed := |plain| + ABYTES;
      if hi - lo < needed {
        return Err(InvalidLength);
      }
      Store(out, lo, enc(key, nonce, aad, plain));
      log := log + {Call(key, nonce, aad, plain)};
      return Ok(needed);
    }

    /** `aead_decrypt` into `out`; a failed tag check wipes the would-be plaintext region. */
    method Open(key: Key, nonce: Nonce, aad: Bytes, ct: Bytes, out: array<Byte>)
      returns (r: Result<nat, SodiumError>)
      requires IsAead(enc)
      modifies out
      ensures if |ct| < ABYTES || out.Length < |ct| - ABYTES then r == Err(InvalidLength) && out[..] == old(out[..])
              else
                match Decrypt(enc, log, key, nonce, aad, ct)
                case None => r == Err(AuthFailed) && out[..] == Zeros(|ct| - ABYTES) + old(out[|ct| - ABYTES..])
                case Some(plain) => r == Ok(|plain|) && out[..] == plain + old(out[|plain|..])
    {
      if |ct| < ABYTES || out.Length < |ct| - ABYTES {
        return Err(InvalidLength);
      }
      match Decrypt(enc, log, key, nonce, aad, ct) {
        case None =>
          Store(out, 0, Zeros(|ct| - ABYTES));
          r := Err(AuthFailed);
        case Some(plain) =>
          Store(out, 0, plain);
          r := Ok(|plain|);
      }
    }
  }

  /** `copy_from_slice` into `out[at..]`. */
  method Store(out: array<Byte>, at: nat, bytes: Bytes)
    requires at + |bytes| <= out.Length
    modifies out
    ensures out[..] == old(out[..at]) + bytes + old(out[at + |bytes|..])
  {
    var i := 0;
    while i < |bytes|
      invariant 0 <= i <= |bytes|
      invariant out[..] == old(out[..at]) + bytes[..i] + old(out[at + i..])
    {
      out[at + i] := bytes[i];
      i := i + 1;
    }
    assert bytes[..i] == bytes;
  }
}
