/**
 * The input generator (docs/scripts/generate_input.py): for every chosen
 * cipher, `num` lines of hexadecimal text, each encoding one frame to send
 * to the firmware: the start byte, the key, the initialisation value and
 * mask bytes, and the message. A key or message given on the command line
 * is used, cut to the cipher's length; otherwise, and always for the
 * initialisation value and mask, the bytes are random. In TVLA mode every
 * line is followed by a copy whose message is random.
 *
 * `secrets.token_bytes` is replaced by an entropy stream: `entropy(p)` is
 * the p-th random byte drawn. The command-line parsing and progress bar
 * are not part of this model.
 */
module GenerateInput {
  import opened Common
  import opened BlockCipher

  /** The byte that opens every frame. */
  const StartByte: byte := 0xAE

  /** `token_bytes(n)` after `pos` random bytes have been drawn. */
  function TokenBytes(entropy: nat -> byte, pos: nat, n: nat): (b: seq<byte>)
    ensures |b| == n && forall i :: 0 <= i < n ==> b[i] == entropy(pos + i)
  {
    seq(n, i requires 0 <= i < n => entropy(pos + i))
  }

  /** A key or message given on the command line that is shorter than the cipher needs. */
  predicate TooShort(algo: Cipher, key: seq<byte>, msg: seq<byte>)
  {
    (key != [] && |key| < algo.keyLength) || (msg != [] && |msg| < algo.msgLength)
  }

  /** The failed assertion's message: the key is checked first. */
  function ShortMessage(algo: Cipher, key: seq<byte>): string
  {
    if key != [] && |key| < algo.keyLength then "Key too short" else "Message too short"
  }

  /**
   * A frame for `algo`: the start byte, then the key, then the
   * initialisation value and mask, then the message, each as long as the
   * cipher says; a given key or message appears cut to its length.
   */
  predicate Framed(frame: seq<byte>, algo: Cipher, key: seq<byte>, msg: seq<byte>)
  {
    |frame| == 1 + InputLength(algo) && frame[0] == StartByte &&
    (key != [] ==> |key| >= algo.keyLength && frame[1..1 + algo.keyLength] == key[..algo.keyLength]) &&
    (msg != [] ==> |msg| >= algo.msgLength && frame[|frame| - algo.msgLength..] == msg[..algo.msgLength])
  }

  /** Two frames that differ at most in their last `msgLength` bytes. */
  predicate SameBeforeMessage(a: seq<byte>, b: seq<byte>, msgLength: nat)
  {
    |a| == |b| && msgLength <= |a| && a[..|a| - msgLength] == b[..|b| - msgLength]
  }

  /**
   * The TVLA copy of frame `prev` as the source builds it: a frame with a
   * random message that repeats `prev` up to the message, except that for a
   * cipher without a message the slice `[:-0]` leaves it empty.
   */
  predicate TvlaCopy(prev: seq<byte>, copy: seq<byte>, algo: Cipher, key: seq<byte>)
  {
    if algo.msgLength == 0 then copy == []
    else Framed(copy, algo, key, []) && SameBeforeMessage(prev, copy, algo.msgLength)
  }

  /** Frame j of a cipher is a TVLA copy: the odd frames in TVLA mode. */
  predicate IsCopy(j: nat, tvla: bool)
  {
    tvla && j % 2 == 1
  }

  /**
   * The frames written for one cipher so far: in TVLA mode the odd ones
   * are copies of the frame before them, the others are frames carrying
   * the given key and message.
   */
  predicate FramesOk(frames: seq<seq<byte>>, algo: Cipher, key: seq<byte>, msg: seq<byte>, tvla: bool)
  {
    frames == [] ||
    var n := |frames| - 1;
    FramesOk(frames[..n], algo, key, msg, tvla) &&
    (if IsCopy(n, tvla) then TvlaCopy(frames[n - 1], frames[n], algo, key) else Framed(frames[n], algo, key, msg))
  }

  /** What `FramesOk` says of each frame. */
  lemma {:induction false} FramesOkAt(frames: seq<seq<byte>>, algo: Cipher, key: seq<byte>, msg: seq<byte>, tvla: bool, j: nat)
    requires FramesOk(frames, algo, key, msg, tvla) && j < |frames|
    ensures !IsCopy(j, tvla) ==> Framed(frames[j], algo, key, msg)
    ensures IsCopy(j, tvla) ==> TvlaCopy(frames[j - 1], frames[j], algo, key)
  {
    var n := |frames| - 1;
    if j < n {
      FramesOkAt(frames[..n], algo, key, msg, tvla, j);
      assert frames[..n][j] == frames[j];
      if j > 0 {
        assert frames[..n][j - 1] == frames[j - 1];
      }
    }
  }

  /** All the frames of one cipher: `num` of them, twice as many in TVLA mode. */
  predicate Block(frames: seq<seq<byte>>, algo: Cipher, num: nat, key: seq<byte>, msg: seq<byte>, tvla: bool)
  {
    |frames| == (if tvla then 2 * num else num) && FramesOk(frames, algo, key, msg, tvla)
  }

  /** A line of the output file: `input_text.hex() + "\n"`. */
  function HexLine(frame: seq<byte>): string
  {
    ToHex(frame) + "\n"
  }

  /** The lines of several frames, in order. */
  function HexLines(frames: seq<seq<byte>>): (lines: seq<string>)
    ensures |lines| == |frames|
  {
    if frames == [] then [] else HexLines(frames[..|frames| - 1]) + [HexLine(frames[|frames| - 1])]
  }

  /** The frames of several ciphers, one block after the other. */
  function Flatten(blocks: seq<seq<seq<byte>>>): seq<seq<byte>>
  {
    if blocks == [] then [] else Flatten(blocks[..|blocks| - 1]) + blocks[|blocks| - 1]
  }

  /** A line read back with `bytes.fromhex` gives its frame: the newline is white space. */
  lemma LineDecodes(frame: seq<byte>)
    ensures FromHex(HexLine(frame)) == Ok(frame)
  {
    FromHexToHex(frame, "\n");
  }

  /** Every listed cipher takes a message, so a TVLA copy keeps all bytes before it. */
  lemma MessagesNotEmpty()
    ensures forall i :: 0 <= i < |Blockciphers| ==> Blockciphers[i].msgLength > 0
  {
  }

  /**
   * `input_text[: -algo.msg_length]` as Python evaluates it: a slice bound
   * of -0 is 0, so a message length of zero keeps nothing.
   */
  function DropMessageAsWritten(frame: seq<byte>, msgLength: nat): (r: seq<byte>)
    requires msgLength <= |frame|
    ensures msgLength > 0 ==> r == frame[..|frame| - msgLength]
    ensures msgLength == 0 ==> r == []
  {
    if msgLength == 0 then [] else frame[..|frame| - msgLength]
  }

  /** The bytes before the message, which the TVLA copy keeps. */
  function DropMessage(frame: seq<byte>, msgLength: nat): (r: seq<byte>)
    requires msgLength <= |frame|
    ensures |r| == |frame| - msgLength && r == frame[..|r|]
  {
    frame[..|frame| - msgLength]
  }

  /**
   * For a cipher without a message the source's TVLA copy is empty rather
   * than the frame itself: its line is a bare newline, not a frame.
   */
  lemma EmptyMessageLosesFrame(frame: seq<byte>, algo: Cipher, entropy: nat -> byte, pos: nat)
    requires algo.msgLength == 0 && Framed(frame, algo, [], [])
    ensures DropMessageAsWritten(frame, algo.msgLength) + TokenBytes(entropy, pos, algo.msgLength) == []
    ensures HexLine([]) == "\n" && !Framed([], algo, [], [])
    ensures DropMessage(frame, algo.msgLength) + TokenBytes(entropy, pos, algo.msgLength) == frame
  {
  }

  /**
   * For a listed cipher every frame written is a whole frame: the given
   * message in the originals, a random one in the TVLA copies, which keep
   * everything before it.
   */
  lemma ListedCipherFrames(frames: seq<seq<byte>>, i: nat, key: seq<byte>, msg: seq<byte>, tvla: bool, j: nat)
    requires i < |Blockciphers| && FramesOk(frames, Blockciphers[i], key, msg, tvla) && j < |frames|
    ensures Framed(frames[j], Blockciphers[i], key, if IsCopy(j, tvla) then [] else msg)
    ensures IsCopy(j, tvla) ==> SameBeforeMessage(frames[j - 1], frames[j], Blockciphers[i].msgLength)
  {
    MessagesNotEmpty();
    FramesOkAt(frames, Blockciphers[i], key, msg, tvla, j);
  }

  /** On every listed cipher the source's slice and the corrected one agree. */
  lemma ListedCiphersDropMessage(i: nat, frame: seq<byte>)
    requires i < |Blockciphers| && Blockciphers[i].msgLength <= |frame|
    ensures DropMessageAsWritten(frame, Blockciphers[i].msgLength) == DropMessage(frame, Blockciphers[i].msgLength)
  {
    MessagesNotEmpty();
  }

  /** The text file the lines are written to. */
  class TextFile {
    var lines: seq<string>

    constructor()
      ensures lines == []
    {
      lines := [];
    }

    /** `write(line)`. */
    method Write(line: string)
      modifies this
      ensures lines == old(lines) + [line]
    {
      lines := lines + [line];
    }
  }

  /** The random bytes drawn for the key: none when a key is given. */
  function KeyDraws(algo: Cipher, key: seq<byte>): nat
  {
    if key == [] then algo.keyLength else 0
  }

  /** The random bytes drawn for the message: none when a message is given. */
  function MessageDraws(algo: Cipher, msg: seq<byte>): nat
  {
    if msg == [] then algo.msgLength else 0
  }

  /**
   * One `input_text`, drawing random bytes from `pos` on: fails, as the
   * source's assertions do, when a given key or message is too short.
   */
  method MakeFrame(algo: Cipher, key: seq<byte>, msg: seq<byte>, entropy: nat -> byte, pos: nat)
    returns (r: Result<seq<byte>, string>, next: nat)
    ensures r.Err? <==> TooShort(algo, key, msg)
    ensures r.Err? ==> r.error == ShortMessage(algo, key)
    ensures r.Ok? ==> Framed(r.value, algo, key, msg)
    ensures r.Ok? ==> next == pos + KeyDraws(algo, key) + algo.ivLength + algo.maskLength + MessageDraws(algo, msg)
    ensures r.Ok? && key == [] ==> r.value[1..1 + algo.keyLength] == TokenBytes(entropy, pos, algo.keyLength)
    ensures r.Ok? ==>
      r.value[1 + algo.keyLength..1 + algo.keyLength + algo.ivLength + algo.maskLength] ==
      TokenBytes(entropy, pos + KeyDraws(algo, key), algo.ivLength + algo.maskLength)
    ensures r.Ok? && msg == [] ==>
      r.value[|r.value| - algo.msgLength..] ==
      TokenBytes(entropy, pos + KeyDraws(algo, key) + algo.ivLength + algo.maskLength, algo.msgLength)
    ensures pos <= next
  {
    next := pos;
    var input: seq<byte> := [StartByte];
    if key != [] {
      if |key| < algo.keyLength {
        return Err("Key too short"), next;
      }
      input := input + key[..algo.keyLength];
    } else {
      input := input + TokenBytes(entropy, next, algo.keyLength);
      next := next + algo.keyLength;
    }
    input := input + TokenBytes(entropy, next, algo.ivLength + algo.maskLength);
    next := next + algo.ivLength + algo.maskLength;
    var head := input;
    if msg != [] {
      if |msg| < algo.msgLength {
        return Err("Message too short"), next;
      }
      input := input + msg[..algo.msgLength];
    } else {
      input := input + TokenBytes(entropy, next, algo.msgLength);
      next := next + algo.msgLength;
    }
    assert input[..1 + algo.keyLength] == head[..1 + algo.keyLength];
    assert input[|input| - algo.msgLength..] == input[|head|..];
    assert input[1..1 + algo.keyLength] == head[1..1 + algo.keyLength];
    assert input[1 + algo.keyLength..|head|] == head[1 + algo.keyLength..];
    r := Ok(input);
  }

  /**
   * The TVLA copy of a frame, `input_text[: -algo.msg_length]` followed by
   * a random message: the same bytes with the message replaced by random
   * ones, or nothing for a cipher without a message.
   */
  method RandomMessage(frame: seq<byte>, algo: Cipher, key: seq<byte>, msg: seq<byte>, entropy: nat -> byte, pos: nat)
    returns (copy: seq<byte>, next: nat)
    requires Framed(frame, algo, key, msg)
    ensures TvlaCopy(frame, copy, algo, key)
    ensures algo.msgLength > 0 ==> copy[|copy| - algo.msgLength..] == TokenBytes(entropy, pos, algo.msgLength)
    ensures next == pos + algo.msgLength
  {
    copy := DropMessageAsWritten(frame, algo.msgLength) + TokenBytes(entropy, pos, algo.msgLength);
    next := pos + algo.msgLength;
    if algo.msgLength > 0 {
      assert copy[..1 + algo.keyLength] == frame[..1 + algo.keyLength];
      assert copy[..|copy| - algo.msgLength] == frame[..|frame| - algo.msgLength];
    }
  }

  /** The lines of one cipher: the inner loop of `main`. */
  method WriteBlock(output: TextFile, algo: Cipher, num: nat, key: seq<byte>, msg: seq<byte>, tvla: bool,
                    entropy: nat -> byte, pos: nat)
    returns (r: Result<(), string>, next: nat, ghost frames: seq<seq<byte>>)
    modifies output
    ensures r.Err? <==> num > 0 && TooShort(algo, key, msg)
    ensures r.Err? ==> r.error == ShortMessage(algo, key) && frames == []
    ensures r.Ok? ==> Block(frames, algo, num, key, msg, tvla)
    ensures output.lines == old(output.lines) + HexLines(frames)
  {
    next := pos;
    frames := [];
    r := Ok(());
    ghost var start := output.lines;
    var n := 0;
    while n < num
      invariant 0 <= n <= num
      invariant |frames| == (if tvla then 2 * n else n) && FramesOk(frames, algo, key, msg, tvla)
      invariant output.lines == start + HexLines(frames)
      invariant n > 0 ==> !TooShort(algo, key, msg)
    {
      var frame;
      frame, next := MakeFrame(algo, key, msg, entropy, next);
      if frame.Err? {
        return Err(frame.error), next, [];
      }
      output.Write(HexLine(frame.value));
      assert !IsCopy(|frames|, tvla) by {
        assert tvla ==> |frames| % 2 == 0;
      }
      Extend(start, frames, frame.value, algo, key, msg, tvla);
      frames := frames + [frame.value];
      if tvla {
        assert IsCopy(|frames|, tvla);
        assert frames[|frames| - 1] == frame.value;
        var copy;
        copy, next := RandomMessage(frame.value, algo, key, msg, entropy, next);
        output.Write(HexLine(copy));
        Extend(start, frames, copy, algo, key, msg, tvla);
        frames := frames + [copy];
      }
      n := n + 1;
    }
  }

  /** One more frame, written as one more line, keeps the frames of a cipher in order. */
  lemma Extend(start: seq<string>, frames: seq<seq<byte>>, f: seq<byte>, algo: Cipher, key: seq<byte>, msg: seq<byte>, tvla: bool)
    requires FramesOk(frames, algo, key, msg, tvla)
    requires !IsCopy(|frames|, tvla) ==> Framed(f, algo, key, msg)
    requires IsCopy(|frames|, tvla) ==> TvlaCopy(frames[|frames| - 1], f, algo, key)
    ensures FramesOk(frames + [f], algo, key, msg, tvla)
    ensures start + HexLines(frames) + [HexLine(f)] == start + HexLines(frames + [f])
  {
    var g := frames + [f];
    assert g[..|g| - 1] == frames;
  }

  /** The lines of two runs of frames, one after the other. */
  lemma {:induction false} HexLinesAppend(a: seq<seq<byte>>, b: seq<seq<byte>>)
    ensures HexLines(a + b) == HexLines(a) + HexLines(b)
    decreases |b|
  {
    if b == [] {
      assert a + b == a;
    } else {
      var c := b[..|b| - 1];
      assert (a + b)[..|a + b| - 1] == a + c && (a + b)[|a + b| - 1] == b[|b| - 1];
      HexLinesAppend(a, c);
      Associative(HexLines(a), HexLines(c), [HexLine(b[|b| - 1])]);
    }
  }

  /** Line j is the text of frame j. */
  lemma {:induction false} HexLinesAt(frames: seq<seq<byte>>, j: nat)
    requires j < |frames|
    ensures HexLines(frames)[j] == HexLine(frames[j])
  {
    var n := |frames| - 1;
    if j < n {
      HexLinesAt(frames[..n], j);
    }
  }

  /** The first cipher from index `from` on for which the given key or message is too short. */
  function FirstTooShort(algos: seq<Cipher>, key: seq<byte>, msg: seq<byte>, from: nat): (r: Option<nat>)
    requires from <= |algos|
    ensures r.None? <==> forall i :: from <= i < |algos| ==> !TooShort(algos[i], key, msg)
    ensures r.Some? ==> from <= r.value < |algos| && TooShort(algos[r.value], key, msg)
    ensures r.Some? ==> forall i :: from <= i < r.value ==> !TooShort(algos[i], key, msg)
    decreases |algos| - from
  {
    if from == |algos| then None
    else if TooShort(algos[from], key, msg) then Some(from)
    else FirstTooShort(algos, key, msg, from + 1)
  }

  /** Block i holds the frames of cipher i. */
  predicate Blocks(blocks: seq<seq<seq<byte>>>, algos: seq<Cipher>, num: nat, key: seq<byte>, msg: seq<byte>, tvla: bool)
  {
    |blocks| <= |algos| && forall i :: 0 <= i < |blocks| ==> Block(blocks[i], algos[i], num, key, msg, tvla)
  }

  /** A complete run writes `num` lines per cipher, twice as many in TVLA mode. */
  lemma LineCount(blocks: seq<seq<seq<byte>>>, algos: seq<Cipher>, num: nat, key: seq<byte>, msg: seq<byte>, tvla: bool)
    requires Blocks(blocks, algos, num, key, msg, tvla) && |blocks| == |algos|
    ensures |HexLines(Flatten(blocks))| == |algos| * (if tvla then 2 * num else num)
  {
    FlattenLength(blocks, if tvla then 2 * num else num);
  }

  lemma {:induction false} FlattenLength(blocks: seq<seq<seq<byte>>>, per: nat)
    requires forall i :: 0 <= i < |blocks| ==> |blocks[i]| == per
    ensures |Flatten(blocks)| == |blocks| * per
  {
    if blocks != [] {
      var n := |blocks| - 1;
      FlattenLength(blocks[..n], per);
      assert (n + 1) * per == n * per + per;
    }
  }

  /** The lines of one more block follow those of the blocks before. */
  lemma AppendBlock(start: seq<string>, blocks: seq<seq<seq<byte>>>, frames: seq<seq<byte>>,
                    algos: seq<Cipher>, num: nat, key: seq<byte>, msg: seq<byte>, tvla: bool)
    requires Blocks(blocks, algos, num, key, msg, tvla) && |blocks| < |algos|
    requires Block(frames, algos[|blocks|], num, key, msg, tvla)
    ensures Blocks(blocks + [frames], algos, num, key, msg, tvla)
    ensures start + HexLines(Flatten(blocks)) + HexLines(frames) == start + HexLines(Flatten(blocks + [frames]))
  {
    var b := blocks + [frames];
    assert b[..|b| - 1] == blocks && b[|b| - 1] == frames;
    assert Flatten(b) == Flatten(blocks) + frames;
    HexLinesAppend(Flatten(blocks), frames);
    Associative(start, HexLines(Flatten(blocks)), HexLines(frames));
  }

  /**
   * `main`: for each chosen cipher in order, its block of lines. A key or
   * message too short for one of the ciphers stops the run there, with
   * the lines of the ciphers before it already written.
   */
  method WriteInputs(output: TextFile, algos: seq<Cipher>, num: nat, key: seq<byte>, msg: seq<byte>, tvla: bool,
              entropy: nat -> byte)
    returns (r: Result<(), string>, ghost blocks: seq<seq<seq<byte>>>)
    modifies output
    ensures output.lines == old(output.lines) + HexLines(Flatten(blocks))
    ensures |blocks| <= |algos| && Blocks(blocks, algos, num, key, msg, tvla)
    ensures r.Err? <==> num > 0 && FirstTooShort(algos, key, msg, 0).Some?
    ensures r.Ok? ==> |blocks| == |algos|
    ensures r.Err? ==> FirstTooShort(algos, key, msg, 0) == Some(|blocks|)
    ensures r.Err? ==> r.error == ShortMessage(algos[|blocks|], key)
  {
    ghost var start := output.lines;
    blocks := [];
    var pos := 0;
    var i := 0;
    while i < |algos|
      invariant 0 <= i <= |algos| && |blocks| == i
      invariant Blocks(blocks, algos, num, key, msg, tvla)
      invariant num > 0 ==> FirstTooShort(algos, key, msg, 0) == FirstTooShort(algos, key, msg, i)
      invariant output.lines == start + HexLines(Flatten(blocks))
    {
      var done;
      ghost var frames;
      done, pos, frames := WriteBlock(output, algos[i], num, key, msg, tvla, entropy, pos);
      if done.Err? {
        assert frames == [] && HexLines(frames) == [];
        return done, blocks;
      }
      AppendBlock(start, blocks, frames, algos, num, key, msg, tvla);
      blocks := blocks + [frames];
      i := i + 1;
    }
    r := Ok(());
  }
}
