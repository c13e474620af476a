/**
 * The acquisition script (docs/scripts/trace_acquisition.py), the parts
 * that do not touch hardware: the input text of each trace (read from a
 * file of hexadecimal lines and checked against the cipher's length, or
 * random), the name of the file the trace is saved to and the decision to
 * skip it, the length of the firmware's response, and the processing of
 * the captured trace: one value per clock cycle, the maximum of its
 * samples, centred on their mean, then the NOP padding cropped.
 *
 * The oscilloscope, the serial port, the firmware build and the clock
 * recovery are not part of this model: the captured trace and the cycle
 * indexes are inputs, and random bytes come from an entropy stream as in
 * module GenerateInput.
 */
module TraceAcquisition {
  import opened Common
  import opened BlockCipher
  import Processing
  import GenerateInput

  datatype AcquisitionError =
    | HexError(message: string)
    | IndexError(message: string)
    | NegativeDimensions
    | CropFailed(error: Processing.CropError)

  /** The threshold the script crops with. */
  const CropThreshold: real := 0.005

  /** The message of the `IndexError` raised for an input of the wrong length. */
  function SizeMessage(input: seq<byte>, size: nat): string
  {
    "\nInput text " + ToHex(input) + " does not match size " + NatToString(size)
  }

  /**
   * The input text read from one line of the input file: its bytes, which
   * must be the start byte's one plus the cipher's input length.
   */
  function ReadInput(line: string, algo: Cipher): (r: Result<seq<byte>, AcquisitionError>)
    ensures FromHex(line).Err? ==> r == Err(HexError(FromHex(line).error))
    ensures FromHex(line).Ok? && |FromHex(line).value| != InputLength(algo) + 1 ==>
      r == Err(IndexError(SizeMessage(FromHex(line).value, InputLength(algo) + 1)))
    ensures r.Ok? ==> FromHex(line) == Ok(r.value) && |r.value| == InputLength(algo) + 1
  {
    match FromHex(line)
    case Err(e) => Err(HexError(e))
    case Ok(input) =>
      if |input| != InputLength(algo) + 1 then Err(IndexError(SizeMessage(input, InputLength(algo) + 1)))
      else Ok(input)
  }

  /** Every line the input generator writes for a cipher is read back as the frame it encodes. */
  lemma ReadsGeneratedLine(frame: seq<byte>, algo: Cipher, key: seq<byte>, msg: seq<byte>)
    requires GenerateInput.Framed(frame, algo, key, msg)
    ensures ReadInput(GenerateInput.HexLine(frame), algo) == Ok(frame)
  {
    GenerateInput.LineDecodes(frame);
  }

  /** The random input text: the start byte, then the cipher's input length in random bytes. */
  function RandomInput(algo: Cipher, entropy: nat -> byte, pos: nat): (r: seq<byte>)
    ensures |r| == InputLength(algo) + 1 && r[0] == GenerateInput.StartByte
    ensures r[1..] == GenerateInput.TokenBytes(entropy, pos, InputLength(algo))
  {
    [GenerateInput.StartByte] + GenerateInput.TokenBytes(entropy, pos, InputLength(algo))
  }

  /** A random input text passes the check a file's line goes through. */
  lemma RandomInputAccepted(algo: Cipher, entropy: nat -> byte, pos: nat)
    ensures ReadInput(GenerateInput.HexLine(RandomInput(algo, entropy, pos)), algo) == Ok(RandomInput(algo, entropy, pos))
  {
    FromHexToHex(RandomInput(algo, entropy, pos), "\n");
  }

  /** `f"{board}_{algo}_{input_text.hex()}.npy"`: a cipher prints as its name. */
  function OutputName(board: string, algo: Cipher, input: seq<byte>): (name: string)
    ensures |name| == |board| + 1 + |algo.name| + 1 + 2 * |input| + 4
  {
    board + "_" + algo.name + "_" + ToHex(input) + ".npy"
  }

  /** For one board and cipher, different inputs are saved under different names. */
  lemma OutputNameInjective(board: string, algo: Cipher, a: seq<byte>, b: seq<byte>)
    requires OutputName(board, algo, a) == OutputName(board, algo, b)
    ensures a == b
  {
    var prefix := board + "_" + algo.name + "_";
    var na, nb := OutputName(board, algo, a), OutputName(board, algo, b);
    assert |a| == |b|;
    assert na == prefix + (ToHex(a) + ".npy") && nb == prefix + (ToHex(b) + ".npy");
    assert na[|prefix|..|prefix| + 2 * |a|] == ToHex(a);
    assert nb[|prefix|..|prefix| + 2 * |b|] == ToHex(b);
    FromHexToHex(a, "");
    FromHexToHex(b, "");
    assert ToHex(a) + "" == ToHex(a) && ToHex(b) + "" == ToHex(b);
  }

  /** `output_len`: the response is the start byte and one block of ciphertext. */
  function ResponseLength(algo: Cipher): (n: nat)
    ensures n == 1 + algo.msgLength && n > 0
  {
    1 + algo.msgLength
  }

  /** What one iteration of the acquisition loop does with its input text. */
  datatype Plan =
    | Skip(name: string)
    | Acquire(input: seq<byte>, name: string, responseLength: nat, rebuild: bool)

  /** The input text of one iteration: the file's next line when there is an input file, else random bytes. */
  function InputText(algo: Cipher, line: Option<string>, entropy: nat -> byte, pos: nat): (r: Result<seq<byte>, AcquisitionError>)
    ensures line.None? ==> r == Ok(RandomInput(algo, entropy, pos))
    ensures line.Some? ==> r == ReadInput(line.value, algo)
    ensures r.Ok? ==> |r.value| == InputLength(algo) + 1
  {
    if line.Some? then ReadInput(line.value, algo) else Ok(RandomInput(algo, entropy, pos))
  }

  /**
   * One iteration, before the capture: the input text, the output name
   * made from it, and either skipping when a file of that name exists or
   * capturing that input, rebuilding the firmware first for generated code,
   * whose seed is the input text.
   */
  function PlanTrace(board: string, algo: Cipher, line: Option<string>, entropy: nat -> byte, pos: nat,
                     existing: set<string>): (r: Result<Plan, AcquisitionError>)
    ensures r.Ok? <==> InputText(algo, line, entropy, pos).Ok?
    ensures r.Err? ==> r.error == InputText(algo, line, entropy, pos).error
    ensures r.Ok? ==> r.value.name == OutputName(board, algo, InputText(algo, line, entropy, pos).value)
    ensures r.Ok? ==> (r.value.Skip? <==> r.value.name in existing)
    ensures r.Ok? && r.value.Acquire? ==>
      r.value.input == InputText(algo, line, entropy, pos).value &&
      r.value.responseLength == 1 + algo.msgLength &&
      r.value.rebuild == (algo.name == "generated-code")
  {
    var input := InputText(algo, line, entropy, pos);
    if input.Err? then Err(input.error)
    else
      var name := OutputName(board, algo, input.value);
      if name in existing then Ok(Skip(name))
      else Ok(Acquire(input.value, name, ResponseLength(algo), algo.name == "generated-code"))
  }

  /**
   * When the existing files are the traces of earlier inputs, an input is
   * skipped only when it was itself acquired before, and every other input
   * is captured.
   */
  lemma SkipsOnlyAcquired(board: string, algo: Cipher, line: Option<string>, entropy: nat -> byte, pos: nat,
                          acquired: set<seq<byte>>)
    requires InputText(algo, line, entropy, pos).Ok?
    ensures var existing := set a | a in acquired :: OutputName(board, algo, a);
      var r := PlanTrace(board, algo, line, entropy, pos, existing);
      r.value.Skip? <==> InputText(algo, line, entropy, pos).value in acquired
  {
    var existing := set a | a in acquired :: OutputName(board, algo, a);
    var input := InputText(algo, line, entropy, pos).value;
    var r := PlanTrace(board, algo, line, entropy, pos, existing);
    if r.value.Skip? {
      var a :| a in acquired && OutputName(board, algo, a) == OutputName(board, algo, input);
      OutputNameInjective(board, algo, a, input);
    }
  }

  /** A line of the input generator is captured as the very frame it encodes, unless its trace exists. */
  lemma PlansGeneratedLine(board: string, algo: Cipher, frame: seq<byte>, key: seq<byte>, msg: seq<byte>,
                           entropy: nat -> byte, pos: nat, existing: set<string>)
    requires GenerateInput.Framed(frame, algo, key, msg)
    requires OutputName(board, algo, frame) !in existing
    ensures PlanTrace(board, algo, Some(GenerateInput.HexLine(frame)), entropy, pos, existing) ==
      Ok(Acquire(frame, OutputName(board, algo, frame), 1 + algo.msgLength, algo.name == "generated-code"))
  {
    ReadsGeneratedLine(frame, algo, key, msg);
  }

  /** `np.max(trace[lo:hi])` for a segment that is not empty. */
  function SegmentMax(trace: seq<real>, lo: nat, hi: nat): (m: real)
    requires lo < hi <= |trace|
    ensures forall k :: lo <= k < hi ==> trace[k] <= m
    ensures exists k :: lo <= k < hi && trace[k] == m
    decreases hi - lo
  {
    if hi - lo == 1 then trace[lo]
    else
      var rest := SegmentMax(trace, lo + 1, hi);
      if trace[lo] >= rest then trace[lo] else rest
  }

  /** Cycle indexes as `find_cycles` gives them: increasing, and indexes of the trace. */
  predicate CycleIndexes(trace: seq<real>, cycles: seq<nat>)
  {
    Processing.StrictlyIncreasing(cycles) && forall i :: 0 <= i < |cycles| ==> cycles[i] < |trace|
  }

  /**
   * The falling edges of a clock as long as the trace (the filtered clock
   * keeps the length of the captured one) meet what downsampling needs, and
   * each cycle holds at least two samples.
   */
  lemma FallingEdgesAreCycleIndexes(trace: seq<real>, clock: seq<real>)
    requires |clock| == |trace|
    ensures CycleIndexes(trace, Processing.FallingEdges(clock))
    ensures var c := Processing.FallingEdges(clock);
      forall k :: 0 <= k < |c| - 1 ==> c[k] + 2 <= c[k + 1]
  {
    Processing.FallingEdgesShape(clock);
  }

  /** The maximum of each cycle: from one cycle index up to the next. */
  function Maxima(trace: seq<real>, cycles: seq<nat>): (r: seq<real>)
    requires CycleIndexes(trace, cycles) && |cycles| > 0
    ensures |r| == |cycles| - 1
    ensures forall i :: 0 <= i < |r| ==> r[i] == SegmentMax(trace, cycles[i], cycles[i + 1])
  {
    seq(|cycles| - 1, i requires 0 <= i < |cycles| - 1 => SegmentMax(trace, cycles[i], cycles[i + 1]))
  }

  /** Each value minus their mean; nothing for no values (NumPy's mean of nothing is never used). */
  function Centered(s: seq<real>): (r: seq<real>)
    ensures |r| == |s|
  {
    if s == [] then [] else Shift(s, Mean(s))
  }

  /** Each value minus c. */
  function Shift(s: seq<real>, c: real): (r: seq<real>)
    ensures |r| == |s| && forall i :: 0 <= i < |s| ==> r[i] == s[i] - c
  {
    seq(|s|, i requires 0 <= i < |s| => s[i] - c)
  }

  /** Shifting every value by c shifts their sum by c for each of them. */
  lemma {:induction false} ShiftSum(s: seq<real>, c: real)
    ensures Sum(Shift(s, c)) == Sum(s) - (|s| as real) * c
  {
    if s != [] {
      var n := |s| - 1;
      assert Shift(s, c)[..n] == Shift(s[..n], c);
      ShiftSum(s[..n], c);
    }
  }

  /** The centred values add up to zero. */
  lemma CenteredSumZero(s: seq<real>)
    ensures Sum(Centered(s)) == 0.0
  {
    if s != [] {
      ShiftSum(s, Mean(s));
      assert (|s| as real) * (Sum(s) / (|s| as real)) == Sum(s);
    }
  }

  /** The array of cycle maxima, filled one cycle at a time. */
  method CycleMaxima(trace: seq<real>, cycles: seq<nat>) returns (d: array<real>)
    requires CycleIndexes(trace, cycles) && |cycles| > 0
    ensures fresh(d) && d[..] == Maxima(trace, cycles)
  {
    d := new real[|cycles| - 1];
    for i := 0 to |cycles| - 1
      invariant forall k :: 0 <= k < i ==> d[k] == SegmentMax(trace, cycles[k], cycles[k + 1])
    {
      d[i] := SegmentMax(trace, cycles[i], cycles[i + 1]);
    }
  }

  /** `ds_trace -= mean`: every entry shifted in place. */
  method SubtractInPlace(d: array<real>, c: real)
    modifies d
    ensures d[..] == Shift(old(d[..]), c)
  {
    for i := 0 to d.Length
      invariant forall k :: 0 <= k < i ==> d[k] == old(d[k]) - c
      invariant forall k :: i <= k < d.Length ==> d[k] == old(d[k])
    {
      d[i] := d[i] - c;
    }
  }

  /**
   * The downsampling of the script: one entry per pair of consecutive cycle
   * indexes, the maximum of the samples between them, then the mean of
   * the entries subtracted in place. With no cycle index at all, NumPy
   * refuses the array of length -1.
   */
  method Downsample(trace: seq<real>, cycles: seq<nat>) returns (r: Result<seq<real>, AcquisitionError>)
    requires CycleIndexes(trace, cycles)
    ensures r.Err? <==> |cycles| == 0
    ensures r.Err? ==> r.error == NegativeDimensions
    ensures r.Ok? ==> r.value == Centered(Maxima(trace, cycles))
  {
    if |cycles| == 0 {
      return Err(NegativeDimensions);
    }
    var d := CycleMaxima(trace, cycles);
    if d.Length > 0 {
      var mean := Mean(d[..]);
      SubtractInPlace(d, mean);
    }
    r := Ok(d[..]);
  }

  /** `crop_cycles(t, threshold=0.005)`, its failure reported as a failed crop. */
  function Cropped(t: seq<real>): (r: Result<seq<real>, AcquisitionError>)
    ensures r.Ok? <==> Processing.CropCycles(t, CropThreshold, 1).Ok?
    ensures r.Ok? ==> r.value == Processing.CropCycles(t, CropThreshold, 1).value
    ensures r.Err? ==> r.error == CropFailed(Processing.CropCycles(t, CropThreshold, 1).error)
  {
    match Processing.CropCycles(t, CropThreshold, 1)
    case Ok(c) => Ok(c)
    case Err(e) => Err(CropFailed(e))
  }

  /**
   * The processing of a captured trace: downsampled unless disabled, then
   * cropped at threshold 0.005 unless disabled.
   */
  method Process(trace: seq<real>, cycles: seq<nat>, downsample: bool, crop: bool)
    returns (r: Result<seq<real>, AcquisitionError>)
    requires downsample ==> CycleIndexes(trace, cycles)
    ensures downsample && |cycles| == 0 ==> r == Err(NegativeDimensions)
    ensures !downsample && !crop ==> r == Ok(trace)
    ensures downsample && !crop && |cycles| > 0 ==> r == Ok(Centered(Maxima(trace, cycles)))
    ensures downsample && crop && |cycles| > 0 ==> r == Cropped(Centered(Maxima(trace, cycles)))
    ensures !downsample && crop ==> r == Cropped(trace)
  {
    var t := trace;
    if downsample {
      var d := Downsample(trace, cycles);
      if d.Err? {
        return Err(d.error);
      }
      t := d.value;
    }
    if crop {
      var c := Processing.CropCycles(t, CropThreshold, 1);
      if c.Err? {
        return Err(CropFailed(c.error));
      }
      t := c.value;
    }
    r := Ok(t);
  }
}
