/**
 * The eCrypt layer of the masked Xoodoo (abby/firmware/lib/xoodoo/ecrypt-sync.c):
 * the 48-byte global state, set to a fixed value by the key setup whatever
 * the key; the IV, which only seeds the masks; and the encryption of one
 * block: the plaintext absorbed into the state, the state permuted, and
 * its first bytes copied out.
 *
 * The 12-round permutation and the mask initialization are not part of
 * this model: they are parameters. The state is the byte array the C code
 * declares; `Absorb_Block` reads it as 32-bit words, and since XOR works
 * bit by bit, XORing a word is XORing its four bytes, whatever the byte
 * order.
 */
module Xoodoo {
  import opened Common
  import FirmwareMain

  /** The state is 12 words of 4 bytes. */
  const StateBytes: nat := 48

  /** The value `ECRYPT_keysetup` writes, byte by byte, in place of a key. */
  const KeyState: seq<byte> := [
    0xfa, 0x6f, 0x44, 0x1a, 0x3f, 0xeb, 0x90, 0xa0, 0xad, 0x72, 0xb9, 0x6f,
    0xf2, 0xaa, 0x1f, 0xbe, 0xd7, 0x24, 0xce, 0x97, 0x3c, 0x28, 0xb4, 0x93,
    0x03, 0x02, 0x5d, 0x51, 0x4c, 0xa5, 0x8d, 0x3e, 0x0a, 0x02, 0xb1, 0x66,
    0x94, 0x38, 0xcf, 0x10, 0x52, 0xf8, 0x68, 0x67, 0xa2, 0xad, 0xcf, 0x89]

  /** The abstract permutation of the state under the masks. */
  type Permutation = (seq<byte>, seq<bv32>) -> seq<byte>

  /** A permutation keeps the state 48 bytes long. */
  ghost predicate KeepsSize(permute: Permutation)
  {
    forall s, m :: |s| == StateBytes ==> |permute(s, m)| == StateBytes
  }

  /** Word i of a byte sequence, read as the little-endian Cortex-M does. */
  function Word(s: seq<byte>, i: nat): bv32
    requires 4 * i + 4 <= |s|
  {
    (s[4 * i] as bv32) | (s[4 * i + 1] as bv32 << 8) | (s[4 * i + 2] as bv32 << 16) | (s[4 * i + 3] as bv32 << 24)
  }

  /** The state after absorbing a block: its first 16 bytes XORed with the block's. */
  function Absorbed(state: seq<byte>, block: seq<byte>): (r: seq<byte>)
    requires |state| == StateBytes && |block| >= 16
    ensures |r| == StateBytes
    ensures forall j :: 0 <= j < 16 ==> r[j] == Xor(state[j], block[j])
    ensures r[16..] == state[16..]
  {
    seq(StateBytes, j requires 0 <= j < StateBytes => if j < 16 then Xor(state[j], block[j]) else state[j])
  }

  /** XORing four bytes at once is XORing the word they form. */
  lemma WordXor(a: byte, b: byte, c: byte, d: byte, e: byte, f: byte, g: byte, h: byte)
    ensures ((a ^ e) as bv32) | ((b ^ f) as bv32 << 8) | ((c ^ g) as bv32 << 16) | ((d ^ h) as bv32 << 24) ==
      ((a as bv32) | (b as bv32 << 8) | (c as bv32 << 16) | (d as bv32 << 24)) ^
      ((e as bv32) | (f as bv32 << 8) | (g as bv32 << 16) | (h as bv32 << 24))
  {
  }

  /** `Absorb_Block` on words: words 0 to 3 XORed with the block's, words 4 to 11 unchanged. */
  lemma AbsorbedWords(state: seq<byte>, block: seq<byte>)
    requires |state| == StateBytes && |block| >= 16
    ensures forall i :: 0 <= i < 4 ==> Word(Absorbed(state, block), i) == Word(state, i) ^ Word(block, i)
    ensures forall i :: 4 <= i < 12 ==> Word(Absorbed(state, block), i) == Word(state, i)
  {
    var r := Absorbed(state, block);
    forall i | 0 <= i < 4
      ensures Word(r, i) == Word(state, i) ^ Word(block, i)
    {
      WordXor(state[4 * i], state[4 * i + 1], state[4 * i + 2], state[4 * i + 3],
              block[4 * i], block[4 * i + 1], block[4 * i + 2], block[4 * i + 3]);
    }
    forall i | 4 <= i < 12
      ensures Word(r, i) == Word(state, i)
    {
      assert r[4 * i..4 * i + 4] == state[4 * i..4 * i + 4] by {
        assert r[16..][4 * i - 16..4 * i - 12] == state[16..][4 * i - 16..4 * i - 12];
      }
      assert r[4 * i + 1] == r[4 * i..4 * i + 4][1] && r[4 * i + 2] == r[4 * i..4 * i + 4][2];
    }
  }

  /** Absorbing the same block twice gives the state back. */
  lemma {:induction false} AbsorbTwice(state: seq<byte>, block: seq<byte>)
    requires |state| == StateBytes && |block| >= 16
    ensures Absorbed(Absorbed(state, block), block) == state
  {
    var r := Absorbed(Absorbed(state, block), block);
    forall j | 0 <= j < StateBytes
      ensures r[j] == state[j]
    {
      if j < 16 {
        XorCancels(state[j], block[j]);
      } else {
        assert r[16..][j - 16] == state[16..][j - 16];
      }
    }
  }

  /** The block's bytes can be read back from the state before and after. */
  lemma AbsorbRecoversBlock(state: seq<byte>, block: seq<byte>)
    requires |state| == StateBytes && |block| >= 16
    ensures forall j :: 0 <= j < 16 ==> Xor(Absorbed(state, block)[j], state[j]) == block[j]
  {
    forall j | 0 <= j < 16
      ensures Xor(Absorbed(state, block)[j], state[j]) == block[j]
    {
      XorCommutes(state[j], block[j]);
      XorCancels(block[j], state[j]);
    }
  }

  /**
   * The ciphertext of one frame: the fixed key state absorbs the plaintext,
   * is permuted under the masks the IV gives, and its first `n` bytes are
   * the output. The key is not among the arguments: it is never read.
   */
  function FrameCiphertext(iv: seq<byte>, plaintext: seq<byte>, n: nat,
                           permute: Permutation, initializeMasks: seq<byte> -> seq<bv32>): (c: seq<byte>)
    requires |plaintext| >= 16 && n <= StateBytes && KeepsSize(permute)
    ensures |c| == n
  {
    permute(Absorbed(KeyState, plaintext), initializeMasks(iv))[..n]
  }

  /**
   * The glue as the cipher the firmware's main loop calls: a block of 16
   * bytes, the key unused. Main always passes `TEXT_LENGTH` bytes, 16 for
   * this cipher; a shorter cleartext never reaches it.
   */
  function AsEncryptor(permute: Permutation, initializeMasks: seq<byte> -> seq<bv32>): FirmwareMain.Encryptor
    requires KeepsSize(permute)
  {
    (key: seq<byte>, iv: seq<byte>, cleartext: seq<byte>) =>
      if |cleartext| >= 16 then FrameCiphertext(iv, cleartext, 16, permute, initializeMasks) else []
  }

  /**
   * Built for ELMO with this cipher, the board answers a frame with the
   * start byte and the frame's ciphertext, whatever earlier frames left in
   * the buffer.
   */
  lemma Response(key: seq<byte>, iv: seq<byte>, cleartext: seq<byte>, tail: seq<byte>,
                 buffer: seq<byte>, permute: Permutation, initializeMasks: seq<byte> -> seq<bv32>)
    requires KeepsSize(permute) && |cleartext| == |buffer| == 16
    ensures FirmwareMain.Serve([FirmwareMain.StartByte] + key + iv + cleartext + tail, FirmwareMain.Sizes(|key|, |iv|, 16),
                               AsEncryptor(permute, initializeMasks), true, buffer).sent ==
      [FirmwareMain.StartByte] + FrameCiphertext(iv, cleartext, 16, permute, initializeMasks)
  {
    var sz := FirmwareMain.Sizes(|key|, |iv|, 16);
    var encrypt := AsEncryptor(permute, initializeMasks);
    var c := FrameCiphertext(iv, cleartext, 16, permute, initializeMasks);
    FirmwareMain.AnswersFrame(key, iv, cleartext, tail, sz, encrypt, buffer);
    assert encrypt(key, iv, cleartext) == c;
    FirmwareMain.WholeBlockForgetsBuffer(buffer, c);
    assert c[..16] == c;
  }

  /** The key sent in a frame makes no difference to the response: the key setup never reads it. */
  lemma ResponseIgnoresKey(key: seq<byte>, otherKey: seq<byte>, iv: seq<byte>, cleartext: seq<byte>, tail: seq<byte>,
                           buffer: seq<byte>, permute: Permutation, initializeMasks: seq<byte> -> seq<bv32>)
    requires KeepsSize(permute) && |cleartext| == |buffer| == 16 && |otherKey| == |key|
    ensures var sz := FirmwareMain.Sizes(|key|, |iv|, 16);
      var encrypt := AsEncryptor(permute, initializeMasks);
      FirmwareMain.Serve([FirmwareMain.StartByte] + key + iv + cleartext + tail, sz, encrypt, true, buffer).sent ==
      FirmwareMain.Serve([FirmwareMain.StartByte] + otherKey + iv + cleartext + tail, sz, encrypt, true, buffer).sent
  {
    Response(key, iv, cleartext, tail, buffer, permute, initializeMasks);
    Response(otherKey, iv, cleartext, tail, buffer, permute, initializeMasks);
  }

  /** The global variables of the glue: `XoodooState` and `XoodooMask`. */
  class Context {
    const state: array<byte>
    var mask: seq<bv32>

    ghost predicate Valid()
      reads this
    {
      state.Length == StateBytes
    }

    constructor()
      ensures Valid() && fresh(state) && mask == []
    {
      state := new byte[StateBytes](_ => 0);
      mask := [];
    }

    /**
     * `ECRYPT_keysetup`: each of the 48 state bytes takes its fixed value
     * (one store per byte); the key and the sizes are ignored.
     */
    method KeySetup(key: seq<byte>, keySize: nat, ivSize: nat)
      requires Valid()
      modifies state
      ensures state[..] == KeyState
    {
      forall j | 0 <= j < StateBytes {
        state[j] := KeyState[j];
      }
    }

    /** `ECRYPT_ivsetup`: the IV goes to the mask initialization and nowhere else. */
    method IvSetup(iv: seq<byte>, initializeMasks: seq<byte> -> seq<bv32>)
      modifies this
      ensures mask == initializeMasks(iv)
    {
      mask := initializeMasks(iv);
    }

    /** `Xoodoo_Permute_12rounds` on the state, in place. */
    method Permute(permute: Permutation)
      requires Valid() && KeepsSize(permute)
      modifies state
      ensures state[..] == permute(old(state[..]), mask)
    {
      var p := permute(state[..], mask);
      forall j | 0 <= j < StateBytes {
        state[j] := p[j];
      }
    }

    /**
     * `ECRYPT_encrypt_bytes`: absorb the plaintext, permute, then copy the
     * first `BLOCKLENGTH / 8` state bytes out; the message length is ignored.
     */
    method EncryptBytes(plaintext: seq<byte>, ciphertext: array<byte>, msglen: nat,
                        blockLength: nat, permute: Permutation)
      requires Valid() && KeepsSize(permute)
      requires |plaintext| >= 16 && blockLength / 8 <= StateBytes && blockLength / 8 <= ciphertext.Length
      requires ciphertext != state
      modifies state, ciphertext
      ensures state[..] == permute(Absorbed(old(state[..]), plaintext), mask)
      ensures ciphertext[..blockLength / 8] == state[..blockLength / 8]
      ensures ciphertext[blockLength / 8..] == old(ciphertext[blockLength / 8..])
    {
      AbsorbBlock(state, plaintext);
      Permute(permute);
      ghost var permuted := state[..];
      for j := 0 to blockLength / 8
        invariant state[..] == permuted
        invariant ciphertext[..j] == state[..j]
        invariant ciphertext[blockLength / 8..] == old(ciphertext[blockLength / 8..])
      {
        ciphertext[j] := state[j];
      }
    }

    /**
     * The three calls main makes for a frame. Whatever the key and whatever
     * earlier frames left in the state, the ciphertext is the frame's
     * ciphertext for the IV and plaintext alone.
     */
    method Frame(key: seq<byte>, iv: seq<byte>, plaintext: seq<byte>, ciphertext: array<byte>,
                 maxKeySize: nat, maxIvSize: nat, blockLength: nat, permute: Permutation, initializeMasks: seq<byte> -> seq<bv32>)
      requires Valid() && KeepsSize(permute)
      requires |plaintext| >= 16 && blockLength / 8 <= StateBytes && blockLength / 8 <= ciphertext.Length
      requires ciphertext != state
      modifies this, state, ciphertext
      ensures ciphertext[..blockLength / 8] == FrameCiphertext(iv, plaintext, blockLength / 8, permute, initializeMasks)
      ensures ciphertext[blockLength / 8..] == old(ciphertext[blockLength / 8..])
      ensures mask == initializeMasks(iv)
    {
      KeySetup(key, maxKeySize, maxIvSize);
      IvSetup(iv, initializeMasks);
      EncryptBytes(plaintext, ciphertext, |plaintext|, blockLength, permute);
    }
  }

  /** Byte j of the state once its bytes below n have been XORed with the block's. */
  function AbsorbedBelow(state: seq<byte>, block: seq<byte>, n: nat, j: nat): byte
    requires j < |state| && n <= 16 <= |block|
  {
    if j < n then Xor(state[j], block[j]) else state[j]
  }

  /** `state[i] ^= block[i]` for word i, as its four bytes. */
  method XorWord(state: array<byte>, block: seq<byte>, i: nat, ghost s0: seq<byte>)
    requires state.Length == |s0| == StateBytes && i < 4 && |block| >= 16
    requires forall j :: 0 <= j < state.Length ==> state[j] == AbsorbedBelow(s0, block, 4 * i, j)
    modifies state
    ensures forall j :: 0 <= j < state.Length ==> state[j] == AbsorbedBelow(s0, block, 4 * i + 4, j)
  {
    var w := 4 * i;
    state[w] := Xor(state[w], block[w]);
    state[w + 1] := Xor(state[w + 1], block[w + 1]);
    state[w + 2] := Xor(state[w + 2], block[w + 2]);
    state[w + 3] := Xor(state[w + 3], block[w + 3]);
  }

  /** `Absorb_Block`: state words 0 to 3 XORed in place with the block's words. */
  method AbsorbBlock(state: array<byte>, block: seq<byte>)
    requires state.Length == StateBytes && |block| >= 16
    modifies state
    ensures state[..] == Absorbed(old(state[..]), block)
  {
    ghost var s0 := state[..];
    for i := 0 to 4
      invariant forall j :: 0 <= j < state.Length ==> state[j] == AbsorbedBelow(s0, block, 4 * i, j)
    {
      XorWord(state, block, i, s0);
    }
  }
}
