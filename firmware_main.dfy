/**
 * The firmware's main loop (abby/firmware/src/main.c with the constants of
 * abby/firmware/include/main.h): bytes arriving on the serial port are
 * discarded until the start byte; then the key, the IV and the cleartext
 * are read, the cipher is set up and, between a raised and a cleared
 * trigger and 500 NOPs on either side, encrypts; the start byte and the
 * ciphertext are sent back. Built for ELMO, the board handles one frame
 * and ends; otherwise it waits for the next frame forever.
 *
 * The serial port is a finite stream of received bytes: when it runs out
 * the board is left waiting. The eCrypt sizes of the selected cipher and
 * the cipher itself (key setup, IV setup and encryption of one block) are
 * parameters; ecrypt-sync.h is not part of this model.
 */
module FirmwareMain {
  import opened Common
  import Thumbulator
  import GenerateInput
  import BlockCipher

  /** `START_BYTE`. */
  const StartByte: byte := 0xAE

  /** The eCrypt sizes of the selected cipher, in bits. */
  datatype EcryptSizes = EcryptSizes(maxKeySize: nat, maxIvSize: nat, blockLength: nat)

  /** The buffer sizes, in bytes. */
  datatype Sizes = Sizes(keyLength: nat, ivLength: nat, textLength: nat)

  /** `KEY_LENGTH`, `IV_LENGTH` and `TEXT_LENGTH`: each eCrypt bit size divided by 8. */
  function BufferSizes(e: EcryptSizes): (sz: Sizes)
    ensures sz.keyLength * 8 <= e.maxKeySize < sz.keyLength * 8 + 8
    ensures sz.ivLength * 8 <= e.maxIvSize < sz.ivLength * 8 + 8
    ensures sz.textLength * 8 <= e.blockLength < sz.textLength * 8 + 8
  {
    Sizes(e.maxKeySize / 8, e.maxIvSize / 8, e.blockLength / 8)
  }

  /** The bytes read after the start byte. */
  function FrameLength(sz: Sizes): nat
  {
    sz.keyLength + sz.ivLength + sz.textLength
  }

  /**
   * The cipher, as the three eCrypt calls main makes: the bytes encryption
   * writes to the start of the ciphertext buffer for a key, an IV and a
   * cleartext.
   */
  type Encryptor = (seq<byte>, seq<byte>, seq<byte>) -> seq<byte>

  /** What the board does that the bytes it sends do not show. */
  datatype Event =
    | Setup(key: seq<byte>, iv: seq<byte>)
    | SetTrigger
    | Nop
    | Encrypt(cleartext: seq<byte>)
    | ClearTrigger
    | ProgramEnd

  /** `s` written n times in a row. */
  function Repeat<T>(s: seq<T>, n: nat): seq<T>
  {
    if n == 0 then [] else Repeat(s, n - 1) + s
  }

  /** The NOPs in the `asm` statement of `tNOP`. */
  const NopsPerTNop: nat := 10
  /** The `tNOP`s of `hNOP`. */
  const TNopsPerHNop: nat := 10
  /** The `hNOP`s of `WAIT_NOP`. */
  const HNopsPerWait: nat := 5

  /** `tNOP`: one `asm` statement of ten NOPs. */
  function TNop(): seq<Event>
  {
    Repeat([Nop], NopsPerTNop)
  }

  /** `hNOP`: ten `tNOP`s. */
  function HNop(): seq<Event>
  {
    Repeat(TNop(), TNopsPerHNop)
  }

  /** `WAIT_NOP`: five `hNOP`s. */
  function WaitNop(): seq<Event>
  {
    Repeat(HNop(), HNopsPerWait)
  }

  /** Repeating a run of NOPs gives a longer run of NOPs. */
  lemma {:induction false} RepeatNops(s: seq<Event>, n: nat)
    requires forall k :: 0 <= k < |s| ==> s[k] == Nop
    ensures |Repeat(s, n)| == n * |s|
    ensures forall k :: 0 <= k < n * |s| ==> Repeat(s, n)[k] == Nop
  {
    if n > 0 {
      RepeatNops(s, n - 1);
      assert Repeat(s, n) == Repeat(s, n - 1) + s;
      assert (n - 1) * |s| + |s| == n * |s|;
    }
  }

  /** `WAIT_NOP` is exactly 500 NOPs: 5 times 10 times 10. */
  lemma WaitNopIs500()
    ensures |WaitNop()| == 500
    ensures forall k :: 0 <= k < 500 ==> WaitNop()[k] == Nop
  {
    RepeatNops([Nop], NopsPerTNop);
    RepeatNops(TNop(), TNopsPerHNop);
    RepeatNops(HNop(), HNopsPerWait);
  }

  /** What one frame makes the board do, in order. */
  function FrameEvents(key: seq<byte>, iv: seq<byte>, cleartext: seq<byte>): seq<Event>
  {
    [Setup(key, iv), SetTrigger] + WaitNop() + [Encrypt(cleartext)] + WaitNop() + [ClearTrigger]
  }

  /**
   * Between the trigger edges the board runs the encryption alone, padded
   * with 500 NOPs on each side; the setup happens before the trigger.
   */
  lemma TriggerWindow(key: seq<byte>, iv: seq<byte>, cleartext: seq<byte>)
    ensures var e := FrameEvents(key, iv, cleartext);
      |e| == 1004 && e[0] == Setup(key, iv) && e[1] == SetTrigger && e[1003] == ClearTrigger &&
      e[2..1003] == WaitNop() + [Encrypt(cleartext)] + WaitNop()
  {
    WaitNopIs500();
    var head, mid := [Setup(key, iv), SetTrigger], WaitNop() + [Encrypt(cleartext)] + WaitNop();
    assert FrameEvents(key, iv, cleartext) == head + mid + [ClearTrigger] by {
      Associative(head + WaitNop(), [Encrypt(cleartext)], WaitNop());
      Associative(head, WaitNop() + [Encrypt(cleartext)], WaitNop());
      Associative(head, WaitNop(), [Encrypt(cleartext)]);
    }
    assert |mid| == 1001;
    var e := head + mid + [ClearTrigger];
    assert e[2..1003] == mid;
  }

  /** The executed-instruction rows of `n` NOPs. */
  function NopRows<T>(n: nat, fields: T): (rows: seq<Thumbulator.ExecRow<T>>)
    ensures |rows| == n && Thumbulator.AllNop(rows)
  {
    seq(n, _ => Thumbulator.ExecRow(Thumbulator.Nop, fields))
  }

  /**
   * An execution trace of the trigger window, the encryption's rows with
   * the two `WAIT_NOP`s around them, is cropped by the emulator back to the
   * encryption's rows, provided it runs at least one instruction and no NOP.
   */
  lemma WindowCropsToEncryption<T>(body: seq<Thumbulator.ExecRow<T>>, before: T, after: T)
    requires |body| > 0 && forall k :: 0 <= k < |body| ==> body[k].opcode != Thumbulator.Nop
    ensures Thumbulator.CropNop(NopRows(|WaitNop()|, before) + body + NopRows(|WaitNop()|, after)) == Ok(body)
  {
    WaitNopIs500();
    Thumbulator.CropNopPadded(NopRows(500, before), body, NopRows(500, after));
  }

  /**
   * The ciphertext buffer after encryption writes `c` to its start: the
   * bytes it does not reach keep their earlier value, since main zeroes
   * the buffer once, before the loop.
   */
  function Overwrite(buffer: seq<byte>, c: seq<byte>): (r: seq<byte>)
    ensures |r| == |buffer|
    ensures forall j :: 0 <= j < |buffer| ==> r[j] == (if j < |c| then c[j] else buffer[j])
  {
    if |c| >= |buffer| then c[..|buffer|] else c + buffer[|c|..]
  }

  function Zeros(n: nat): (r: seq<byte>)
    ensures |r| == n && forall j :: 0 <= j < n ==> r[j] == 0
  {
    seq(n, _ => 0)
  }

  /** The key, IV and cleartext of a frame that starts at `frame[0]`. */
  datatype Fields = Fields(key: seq<byte>, iv: seq<byte>, cleartext: seq<byte>)

  function ReadFields(frame: seq<byte>, sz: Sizes): (f: Fields)
    requires |frame| >= 1 + FrameLength(sz)
    ensures |f.key| == sz.keyLength && |f.iv| == sz.ivLength && |f.cleartext| == sz.textLength
    ensures frame[..1 + FrameLength(sz)] == frame[..1] + f.key + f.iv + f.cleartext
  {
    var k, v := 1 + sz.keyLength, 1 + sz.keyLength + sz.ivLength;
    var f := Fields(frame[1..k], frame[k..v], frame[v..v + sz.textLength]);
    assert frame[..1 + FrameLength(sz)] == frame[..1] + f.key + f.iv + f.cleartext;
    f
  }

  /** Whole responses, one after the other: each the start byte and `textLength` more bytes. */
  predicate Responses(sent: seq<byte>, textLength: nat)
    decreases |sent|
  {
    sent == [] || (|sent| >= 1 + textLength && sent[0] == StartByte && Responses(sent[1 + textLength..], textLength))
  }

  /** Everything the board sends and does for a stream of received bytes, and what it leaves unread. */
  datatype Outcome = Outcome(sent: seq<byte>, events: seq<Event>, ended: bool, rest: seq<byte>)

  /**
   * The specification of the main loop, given the ciphertext buffer's
   * contents: skip a byte that is not the start byte; at a start byte with
   * a whole frame behind it, answer it and, without ELMO, go on. A stream
   * that runs out leaves the board waiting, with everything read.
   */
  function Serve(input: seq<byte>, sz: Sizes, encrypt: Encryptor, elmo: bool, buffer: seq<byte>): (r: Outcome)
    requires |buffer| == sz.textLength
    ensures !elmo ==> !r.ended && r.rest == []
    ensures !r.ended ==> r.rest == []
    ensures Responses(r.sent, sz.textLength)
    ensures elmo ==> |r.sent| == (if r.ended then 1 + sz.textLength else 0)
    ensures |r.sent| == 0 ==> r.events == (if r.ended then [ProgramEnd] else [])
    decreases |input|
  {
    if input == [] then Outcome([], [], false, [])
    else if input[0] != StartByte then Serve(input[1..], sz, encrypt, elmo, buffer)
    else if |input| < 1 + FrameLength(sz) then Outcome([], [], false, [])
    else
      var f := ReadFields(input, sz);
      var written := Overwrite(buffer, encrypt(f.key, f.iv, f.cleartext));
      var sent := [StartByte] + written;
      var events := FrameEvents(f.key, f.iv, f.cleartext);
      assert |sent| == 1 + sz.textLength && sent[0] == StartByte;
      if elmo then Outcome(sent, events + [ProgramEnd], true, input[1 + FrameLength(sz)..])
      else
        var next := Serve(input[1 + FrameLength(sz)..], sz, encrypt, elmo, written);
        assert (sent + next.sent)[1 + sz.textLength..] == next.sent;
        Outcome(sent + next.sent, events + next.events, next.ended, next.rest)
  }

  /** Bytes before the start byte are discarded: they change nothing. */
  lemma {:induction false} SkipsNoise(noise: seq<byte>, input: seq<byte>, sz: Sizes, encrypt: Encryptor, elmo: bool, buffer: seq<byte>)
    requires |buffer| == sz.textLength
    requires forall k :: 0 <= k < |noise| ==> noise[k] != StartByte
    ensures Serve(noise + input, sz, encrypt, elmo, buffer) == Serve(input, sz, encrypt, elmo, buffer)
  {
    if noise == [] {
      assert noise + input == input;
    } else {
      assert (noise + input)[0] == noise[0] && (noise + input)[1..] == noise[1..] + input;
      SkipsNoise(noise[1..], input, sz, encrypt, elmo, buffer);
    }
  }

  /**
   * One whole frame: the board answers the start byte followed by the
   * ciphertext buffer after encrypting the frame's cleartext with its key
   * and IV; with ELMO it then ends, leaving the rest of the stream unread.
   */
  lemma AnswersFrame(key: seq<byte>, iv: seq<byte>, cleartext: seq<byte>, tail: seq<byte>,
                     sz: Sizes, encrypt: Encryptor, buffer: seq<byte>)
    requires |key| == sz.keyLength && |iv| == sz.ivLength && |cleartext| == sz.textLength == |buffer|
    ensures Serve([StartByte] + key + iv + cleartext + tail, sz, encrypt, true, buffer) ==
      Outcome([StartByte] + Overwrite(buffer, encrypt(key, iv, cleartext)),
              FrameEvents(key, iv, cleartext) + [ProgramEnd], true, tail)
  {
    var input := [StartByte] + key + iv + cleartext + tail;
    FrameFields(key, iv, cleartext, tail, sz);
    ServeFrame(input, sz, encrypt, true, buffer, Overwrite(buffer, encrypt(key, iv, cleartext)));
  }

  /** The fields read from a frame followed by more bytes are the frame's key, IV and cleartext. */
  lemma FrameFields(key: seq<byte>, iv: seq<byte>, cleartext: seq<byte>, tail: seq<byte>, sz: Sizes)
    requires |key| == sz.keyLength && |iv| == sz.ivLength && |cleartext| == sz.textLength
    ensures var input := [StartByte] + key + iv + cleartext + tail;
      |input| >= 1 + FrameLength(sz) && input[0] == StartByte &&
      ReadFields(input, sz) == Fields(key, iv, cleartext) && input[1 + FrameLength(sz)..] == tail
  {
    var input := [StartByte] + key + iv + cleartext + tail;
    var n := 1 + FrameLength(sz);
    assert input[..n] == [StartByte] + key + iv + cleartext;
    var f := ReadFields(input, sz);
    assert input[..n][1..] == key + iv + cleartext == f.key + f.iv + f.cleartext;
    assert f.key == (key + iv + cleartext)[..|key|];
    assert f.iv == (key + iv + cleartext)[|key|..|key| + |iv|];
    assert f.cleartext == (key + iv + cleartext)[|key| + |iv|..];
    assert input[n..] == tail;
  }

  /** A cipher that writes a whole block leaves nothing of earlier frames in the response. */
  lemma WholeBlockForgetsBuffer(buffer: seq<byte>, c: seq<byte>)
    requires |c| >= |buffer|
    ensures Overwrite(buffer, c) == c[..|buffer|]
  {
  }

  /**
   * The input generator's frames fit the firmware when its key length is
   * the cipher's key length, its IV the cipher's IV and mask, and its
   * block the cipher's message: the firmware reads the generator's key
   * and message.
   */
  lemma ReadsGeneratedFrame(frame: seq<byte>, algo: BlockCipher.Cipher, key: seq<byte>, msg: seq<byte>, sz: Sizes)
    requires GenerateInput.Framed(frame, algo, key, msg)
    requires sz == Sizes(algo.keyLength, algo.ivLength + algo.maskLength, algo.msgLength)
    ensures frame[0] == StartByte && |frame| == 1 + FrameLength(sz)
    ensures key != [] ==> ReadFields(frame, sz).key == key[..sz.keyLength]
    ensures msg != [] ==> ReadFields(frame, sz).cleartext == msg[..sz.textLength]
  {
    assert GenerateInput.StartByte == StartByte;
  }

  /**
   * The board: the bytes the serial port has received and not yet given
   * to the firmware, the bytes it has sent, and the record of what the
   * firmware did.
   */
  class Board {
    var input: seq<byte>
    var sent: seq<byte>
    var events: seq<Event>

    constructor(input: seq<byte>)
      ensures this.input == input && sent == [] && events == []
    {
      this.input := input;
      sent := [];
      events := [];
    }

    /**
     * `receive_text(buf, n)`: the next n received bytes into `buf`. When
     * fewer have arrived the firmware blocks for good: the model takes
     * what there is and reports the read as not completed.
     */
    method Receive(buf: array<byte>, n: nat) returns (done: bool)
      requires n <= buf.Length
      modifies this, buf
      ensures done <==> n <= |old(input)|
      ensures done ==> buf[..n] == old(input)[..n] && buf[n..] == old(buf[n..]) && input == old(input)[n..]
      ensures !done ==> input == [] && buf[..] == old(buf[..])
      ensures sent == old(sent) && events == old(events)
    {
      if |input| < n {
        input := [];
        return false;
      }
      forall j | 0 <= j < n {
        buf[j] := input[j];
      }
      input := input[n..];
      return true;
    }

    /** `send_text`: the bytes go out in order. */
    method Send(bytes: seq<byte>)
      modifies this
      ensures sent == old(sent) + bytes && input == old(input) && events == old(events)
    {
      sent := sent + bytes;
    }

    /** The firmware does something the bytes do not show. */
    method Do(e: seq<Event>)
      modifies this
      ensures events == old(events) + e && input == old(input) && sent == old(sent)
    {
      events := events + e;
    }
  }

  /** `ECRYPT_encrypt_bytes` writing its output to the start of the ciphertext buffer. */
  method EncryptInto(ciphertext: array<byte>, c: seq<byte>)
    modifies ciphertext
    ensures ciphertext[..] == Overwrite(old(ciphertext[..]), c)
  {
    forall j | 0 <= j < ciphertext.Length && j < |c| {
      ciphertext[j] := c[j];
    }
  }

  /**
   * The three reads after the start byte: key, IV and cleartext, in that
   * order. It returns false when the stream runs out before they are done.
   */
  method ReadFrame(board: Board, sz: Sizes, key: array<byte>, iv: array<byte>, cleartext: array<byte>)
    returns (done: bool)
    requires key.Length == sz.keyLength && iv.Length == sz.ivLength && cleartext.Length == sz.textLength
    requires key != iv && key != cleartext && iv != cleartext
    modifies board, key, iv, cleartext
    ensures done <==> |old(board.input)| >= FrameLength(sz)
    ensures !done ==> board.input == []
    ensures done ==> Fields(key[..], iv[..], cleartext[..]) == ReadFields([StartByte] + old(board.input), sz)
    ensures done ==> board.input == old(board.input)[FrameLength(sz)..]
    ensures board.sent == old(board.sent) && board.events == old(board.events)
  {
    ghost var input := board.input;
    ghost var k, v := sz.keyLength, sz.keyLength + sz.ivLength;
    done := board.Receive(key, sz.keyLength);
    if !done {
      return;
    }
    assert key[..] == input[..k];
    done := board.Receive(iv, sz.ivLength);
    if !done {
      return;
    }
    assert iv[..] == input[k..v] by {
      assert input[k..][..sz.ivLength] == input[k..v];
    }
    done := board.Receive(cleartext, sz.textLength);
    if !done {
      return;
    }
    assert cleartext[..] == input[v..v + sz.textLength] by {
      assert input[k..][sz.ivLength..] == input[v..];
      assert input[v..][..sz.textLength] == input[v..v + sz.textLength];
    }
    assert board.input == input[v..][sz.textLength..] == input[FrameLength(sz)..];
    FieldsAfterStart(input, sz);
  }

  /** The fields of a frame are the bytes that follow its start byte, in order. */
  lemma FieldsAfterStart(input: seq<byte>, sz: Sizes)
    requires |input| >= FrameLength(sz)
    ensures var k, v := sz.keyLength, sz.keyLength + sz.ivLength;
      ReadFields([StartByte] + input, sz) == Fields(input[..k], input[k..v], input[v..v + sz.textLength])
  {
    var k, v := sz.keyLength, sz.keyLength + sz.ivLength;
    var frame := [StartByte] + input;
    assert frame[1..1 + k] == input[..k];
    assert frame[1 + k..1 + v] == input[k..v];
    assert frame[1 + v..1 + v + sz.textLength] == input[v..v + sz.textLength];
  }

  /**
   * What main does with a frame it has read: the setup, the trigger
   * window with the encryption between two `WAIT_NOP`s, and the response.
   */
  method Answer(board: Board, encrypt: Encryptor, ghost f: Fields, key: array<byte>, iv: array<byte>,
                cleartext: array<byte>, ciphertext: array<byte>)
    requires Fields(key[..], iv[..], cleartext[..]) == f
    requires ciphertext != key && ciphertext != iv && ciphertext != cleartext
    modifies board, ciphertext
    ensures ciphertext[..] == Overwrite(old(ciphertext[..]), encrypt(f.key, f.iv, f.cleartext))
    ensures board.sent == old(board.sent) + ([StartByte] + ciphertext[..])
    ensures board.events == old(board.events) + FrameEvents(f.key, f.iv, f.cleartext)
    ensures board.input == old(board.input)
  {
    var k, v, t := key[..], iv[..], cleartext[..];
    ghost var events0 := board.events;
    board.Do([Setup(k, v)]);
    board.Do([SetTrigger]);
    ghost var done := [Setup(k, v), SetTrigger];
    Associative(events0, [Setup(k, v)], [SetTrigger]);
    assert [Setup(k, v)] + [SetTrigger] == done;
    board.Do(WaitNop());
    Associative(events0, done, WaitNop());
    done := done + WaitNop();
    EncryptInto(ciphertext, encrypt(k, v, t));
    board.Do([Encrypt(t)]);
    Associative(events0, done, [Encrypt(t)]);
    done := done + [Encrypt(t)];
    board.Do(WaitNop());
    Associative(events0, done, WaitNop());
    done := done + WaitNop();
    board.Do([ClearTrigger]);
    Associative(events0, done, [ClearTrigger]);
    done := done + [ClearTrigger];
    assert done == FrameEvents(k, v, t);
    board.Send([StartByte]);
    board.Send(ciphertext[..]);
    Associative(old(board.sent), [StartByte], ciphertext[..]);
  }

  /**
   * The loop invariant of `Run`: serving what is left of the stream, after
   * what has been sent and done so far, is serving the whole stream.
   */
  ghost predicate Remaining(input: seq<byte>, sent: seq<byte>, events: seq<Event>, buffer: seq<byte>,
                            sz: Sizes, encrypt: Encryptor, elmo: bool, sent0: seq<byte>, events0: seq<Event>, goal: Outcome)
  {
    |buffer| == sz.textLength &&
    var r := Serve(input, sz, encrypt, elmo, buffer);
    sent + r.sent == sent0 + goal.sent && events + r.events == events0 + goal.events &&
    r.ended == goal.ended && r.rest == goal.rest
  }

  /** A byte that is not the start byte is skipped. */
  lemma SkipStep(input: seq<byte>, sent: seq<byte>, events: seq<Event>, buffer: seq<byte>,
                 sz: Sizes, encrypt: Encryptor, elmo: bool, sent0: seq<byte>, events0: seq<Event>, goal: Outcome)
    requires Remaining(input, sent, events, buffer, sz, encrypt, elmo, sent0, events0, goal)
    requires input != [] && input[0] != StartByte
    ensures Remaining(input[1..], sent, events, buffer, sz, encrypt, elmo, sent0, events0, goal)
  {
  }

  /** Serving a stream that starts with a whole frame: the frame's answer, then (without ELMO) the rest. */
  lemma ServeFrame(input: seq<byte>, sz: Sizes, encrypt: Encryptor, elmo: bool, buffer: seq<byte>, written: seq<byte>)
    requires |buffer| == sz.textLength
    requires input != [] && input[0] == StartByte && |input| >= 1 + FrameLength(sz)
    requires var f := ReadFields(input, sz); written == Overwrite(buffer, encrypt(f.key, f.iv, f.cleartext))
    ensures var f := ReadFields(input, sz);
      var rest := input[1 + FrameLength(sz)..];
      var frameSent := [StartByte] + written;
      var frameEvents := FrameEvents(f.key, f.iv, f.cleartext);
      var next := Serve(rest, sz, encrypt, elmo, written);
      Serve(input, sz, encrypt, elmo, buffer) ==
        if elmo then Outcome(frameSent, frameEvents + [ProgramEnd], true, rest)
        else Outcome(frameSent + next.sent, frameEvents + next.events, next.ended, next.rest)
  {
    var r := Serve(input, sz, encrypt, elmo, buffer);
    assert input != [] && input[0] == StartByte && !(|input| < 1 + FrameLength(sz));
  }

  /** A stream that runs out before a whole frame leaves nothing more to do. */
  lemma WaitStep(input: seq<byte>, sent: seq<byte>, events: seq<Event>, buffer: seq<byte>,
                 sz: Sizes, encrypt: Encryptor, elmo: bool, sent0: seq<byte>, events0: seq<Event>, goal: Outcome)
    requires Remaining(input, sent, events, buffer, sz, encrypt, elmo, sent0, events0, goal)
    requires input == [] || (input[0] == StartByte && |input| < 1 + FrameLength(sz))
    ensures sent == sent0 + goal.sent && events == events0 + goal.events && !goal.ended && goal.rest == []
  {
  }

  /** An answered frame: the rest of the stream is served with the new buffer. */
  lemma FrameStep(input: seq<byte>, sent: seq<byte>, events: seq<Event>, buffer: seq<byte>, written: seq<byte>,
                  sz: Sizes, encrypt: Encryptor, elmo: bool, sent0: seq<byte>, events0: seq<Event>, goal: Outcome)
    requires Remaining(input, sent, events, buffer, sz, encrypt, elmo, sent0, events0, goal)
    requires input != [] && input[0] == StartByte && |input| >= 1 + FrameLength(sz)
    requires var f := ReadFields(input, sz); written == Overwrite(buffer, encrypt(f.key, f.iv, f.cleartext))
    ensures var f := ReadFields(input, sz);
      var sent' := sent + ([StartByte] + written);
      var events' := events + FrameEvents(f.key, f.iv, f.cleartext);
      if elmo then
        sent' == sent0 + goal.sent && events' + [ProgramEnd] == events0 + goal.events &&
        goal.ended && goal.rest == input[1 + FrameLength(sz)..]
      else Remaining(input[1 + FrameLength(sz)..], sent', events', written, sz, encrypt, elmo, sent0, events0, goal)
  {
    var f := ReadFields(input, sz);
    var rest := input[1 + FrameLength(sz)..];
    var frameSent := [StartByte] + written;
    var frameEvents := FrameEvents(f.key, f.iv, f.cleartext);
    ServeFrame(input, sz, encrypt, elmo, buffer, written);
    if elmo {
      Associative(events, frameEvents, [ProgramEnd]);
    } else {
      var next := Serve(rest, sz, encrypt, elmo, written);
      Associative(sent, frameSent, next.sent);
      Associative(events, frameEvents, next.events);
    }
  }

  /**
   * One pass of `main`'s loop after the start byte: read the frame and, if
   * it is whole, answer it; with ELMO the program then ends. It returns
   * whether the loop stops, and whether `program_end` was reached.
   */
  method ServeFrameAt(board: Board, sz: Sizes, encrypt: Encryptor, elmo: bool,
                      key: array<byte>, iv: array<byte>, cleartext: array<byte>, ciphertext: array<byte>,
                      ghost sent0: seq<byte>, ghost events0: seq<Event>, ghost goal: Outcome)
    returns (stop: bool, ended: bool)
    requires key.Length == sz.keyLength && iv.Length == sz.ivLength && cleartext.Length == sz.textLength
    requires key != iv && key != cleartext && iv != cleartext
    requires ciphertext != key && ciphertext != iv && ciphertext != cleartext
    requires Remaining([StartByte] + board.input, board.sent, board.events, ciphertext[..], sz, encrypt, elmo, sent0, events0, goal)
    modifies board, key, iv, cleartext, ciphertext
    ensures stop ==> Finished(board, goal, sent0, events0, ended)
    ensures !stop ==> |board.input| <= |old(board.input)|
    ensures !stop ==> Remaining(board.input, board.sent, board.events, ciphertext[..], sz, encrypt, elmo, sent0, events0, goal)
  {
    ghost var before := [StartByte] + board.input;
    var got := ReadFrame(board, sz, key, iv, cleartext);
    if !got {
      WaitStep(before, board.sent, board.events, ciphertext[..], sz, encrypt, elmo, sent0, events0, goal);
      return true, false;
    }
    ghost var f := ReadFields(before, sz);
    ghost var sent1, events1, buffer := board.sent, board.events, ciphertext[..];
    Answer(board, encrypt, f, key, iv, cleartext, ciphertext);
    FrameStep(before, sent1, events1, buffer, ciphertext[..], sz, encrypt, elmo, sent0, events0, goal);
    if elmo {
      board.Do([ProgramEnd]);
      return true, true;
    }
    return false, false;
  }

  /** The loop of `main` has stopped with everything the stream asks for done. */
  ghost predicate Finished(board: Board, goal: Outcome, sent0: seq<byte>, events0: seq<Event>, ended: bool)
    reads board
  {
    board.sent == sent0 + goal.sent && board.events == events0 + goal.events &&
    board.input == goal.rest && ended == goal.ended
  }

  /**
   * One pass of `main`'s loop: wait for a byte and skip it unless it is the
   * start byte, then serve the frame behind it.
   */
  method Step(board: Board, sz: Sizes, encrypt: Encryptor, elmo: bool, start: array<byte>,
              key: array<byte>, iv: array<byte>, cleartext: array<byte>, ciphertext: array<byte>,
              ghost sent0: seq<byte>, ghost events0: seq<Event>, ghost goal: Outcome)
    returns (stop: bool, ended: bool)
    requires start.Length == 1
    requires key.Length == sz.keyLength && iv.Length == sz.ivLength && cleartext.Length == sz.textLength
    requires key != iv && key != cleartext && iv != cleartext
    requires ciphertext != key && ciphertext != iv && ciphertext != cleartext
    requires start != key && start != iv && start != cleartext && start != ciphertext
    requires Remaining(board.input, board.sent, board.events, ciphertext[..], sz, encrypt, elmo, sent0, events0, goal)
    modifies board, start, key, iv, cleartext, ciphertext
    ensures stop ==> Finished(board, goal, sent0, events0, ended)
    ensures !stop ==> |board.input| < |old(board.input)|
    ensures !stop ==> Remaining(board.input, board.sent, board.events, ciphertext[..], sz, encrypt, elmo, sent0, events0, goal)
  {
    ghost var before := board.input;
    var got := board.Receive(start, 1);
    if !got {
      WaitStep(before, board.sent, board.events, ciphertext[..], sz, encrypt, elmo, sent0, events0, goal);
      return true, false;
    }
    if start[0] != StartByte {
      SkipStep(before, board.sent, board.events, ciphertext[..], sz, encrypt, elmo, sent0, events0, goal);
      return false, false;
    }
    assert before == [StartByte] + board.input;
    stop, ended := ServeFrameAt(board, sz, encrypt, elmo, key, iv, cleartext, ciphertext, sent0, events0, goal);
  }

  /**
   * `main`: the buffers are allocated once, cleartext and ciphertext
   * zeroed; then frames are served until ELMO's single frame is done or
   * the stream runs out. It returns whether `program_end` was reached.
   */
  method Run(board: Board, sz: Sizes, encrypt: Encryptor, elmo: bool) returns (ended: bool)
    modifies board
    ensures var r := Serve(old(board.input), sz, encrypt, elmo, Zeros(sz.textLength));
      board.sent == old(board.sent) + r.sent && board.events == old(board.events) + r.events &&
      board.input == r.rest && ended == r.ended
  {
    var start := new byte[1];
    var cleartext := new byte[sz.textLength](_ => 0);
    var ciphertext := new byte[sz.textLength](_ => 0);
    var key := new byte[sz.keyLength];
    var iv := new byte[sz.ivLength];
    ghost var sent0, events0 := board.sent, board.events;
    ghost var goal := Serve(board.input, sz, encrypt, elmo, ciphertext[..]);
    assert ciphertext[..] == Zeros(sz.textLength);
    while true
      invariant Remaining(board.input, board.sent, board.events, ciphertext[..], sz, encrypt, elmo, sent0, events0, goal)
      decreases |board.input|
    {
      var stop;
      stop, ended := Step(board, sz, encrypt, elmo, start, key, iv, cleartext, ciphertext, sent0, events0, goal);
      if stop {
        return;
      }
    }
  }
}
