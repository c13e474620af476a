# ABBY core in Dafny

ABBY builds side-channel datasets and leakage models for small embedded
targets. A firmware runs a block cipher between two 500-NOP paddings
while an oscilloscope records its power. Scripts prepare the input
frames, crop and downsample the traces, align them with an emulator's
instruction trace and annotate each instruction with its power. The
resulting models and traces are scored with Welch's t-test, Pearson
correlation and a key-byte brute force.

This project models the deterministic logic of that pipeline. Each
module follows one source file:

| module | source |
|---|---|
| `Common` | shared helpers: results, bytes, sums, decimal and hex text |
| `Processing` | `abby/processing.py`: `crop_cycles`, the falling-edge rule of `find_cycles`, the peak selection of `find_clock_freq_phase` |
| `Evaluation` | `abby/evaluation.py`: `ttest`, `correlation`, `correlation_bruteforce_key_byte` |
| `BuildDataset` | `docs/scripts/build_dataset.py`: the annotation loop and the file pairing |
| `BlockCipher` | `abby/firmware/blockcipher.py`: input lengths, the cipher list, `_remask` and the masked-AES first-round reference |
| `Thumbulator` | `abby/emulator/thumbulator.py`: `crop_nop` |
| `ModelBase` | `abby/model/base.py`: abstract operations, `rsquare`, one-hot encoding on a mutable table |
| `HammingWeightModel` | `abby/model/hamming_weight.py` |
| `ModelDispatch` | `abby/model/__init__.py`: `get_model` |
| `Firmware` | `abby/firmware/__init__.py`: `get_blockcipher` and `pio_run`'s flags, arguments, environment and output path |
| `Generate` | `abby/firmware/generate.py`: operand templates and the generated program |
| `GenerateInput` | `docs/scripts/generate_input.py`: input frames, TVLA mode |
| `TraceAcquisition` | `docs/scripts/trace_acquisition.py`: input check, file naming, downsampling and cropping |
| `FirmwareMain` | `abby/firmware/src/main.c` with `abby/firmware/include/main.h`: the start-byte framing loop on a board with a serial channel |
| `Xoodoo` | `abby/firmware/lib/xoodoo/ecrypt-sync.c`: the eCrypt layer around an abstract Xoodoo permutation |

Conventions:

- Statistics are exact `real`s. A value with a square root in its
  denominator is a `Ratio(num, radicand)`, meaning num / sqrt(radicand).
  A zero radicand with a zero numerator is NaN; with a non-zero
  numerator it is an infinity.
- Python exceptions, failed `assert`s and `max` of an empty selection
  are the `Err` side of a `Result`.
- Random bytes and random choices come from a stream passed in as a
  parameter, so "the same seed" becomes "the same stream".
- The firmware's serial line is a `Board` object holding its unread
  input, the bytes sent and the actions taken (trigger, NOPs,
  encryption, program end).
- The code is followed where its documentation differs:
  - `crop_cycles` looks for quiet windows of 450 samples whatever
    `samples_per_cycle` is. Its docstring speaks of 500 NOPs times
    `samples_per_cycle`.
  - `get_model` rejects "hd", which its docstring offers.
  - The Hamming weight model sums along the axis the code names (see
    Findings).
  - `pio_run` sets the build flags with the defines unseparated, and the
    TVLA copy uses the slice `[: -msg_length]` as written (see Findings).
    The corrected definitions sit beside them, with their intended
    properties proved.
- The dead guard `last_n == row.name` of the annotation loop is
  proved unreachable: that branch of `BuildDataset.Annotate` holds only
  `assert false`.

## Model

| member | source | states |
|---|---|---|
| Processing.RunStartsBelow | abby/processing.py:38-41 | the quiet-window starts below n are exactly the indexes whose 450-sample window (truncated at the end) has no sample above the threshold, in increasing order |
| Processing.Below | abby/processing.py:45 | `index_ts[index_ts < p]` holds exactly the starts below p |
| Processing.Above | abby/processing.py:46 | `index_ts[index_ts > p]` holds exactly the starts above p |
| Processing.SeqMax | abby/processing.py:45 | `max` of a non-empty selection is one of its elements and no element exceeds it |
| Processing.SeqMin | abby/processing.py:46 | `min` of a non-empty selection is one of its elements and no element is below it |
| Processing.CropCycles | abby/processing.py:17-48 | `crop_cycles` succeeds exactly when the quiet-window starts have split points around their mean, and then returns the trace from 450 past the lower one up to the upper one (split points are unique), whatever `samples_per_cycle` is |
| Processing.CropAtSplit | abby/processing.py:44-48 | the split of any list of starts succeeds exactly when it has split points, and cuts the trace at them |
| Processing.SplitPointsUnique | abby/processing.py:44-46 | the greatest start below the mean and the least start above it are unique, so the crop is determined |
| Processing.CropAt | abby/processing.py:44-48 | the split succeeds exactly when there is a start on each side of the mean of the starts; otherwise `max`/`min` of an empty selection raises |
| Processing.CropBounds | abby/processing.py:44-48 | a successful crop is the slice from 450 past the greatest start below the mean to the least start above it |
| Processing.CropIsSlice | abby/processing.py:17-48 | a successful `crop_cycles` returns a contiguous part of the input trace |
| Processing.CropLoudTraceFails | abby/processing.py:38-46 | a trace with no quiet sample has no window start, and cropping it raises |
| Processing.IncreasingUnique | abby/processing.py:39-41 | the list of window starts is determined by its members: two increasing lists with the same elements are equal |
| Processing.PaddedStarts | abby/processing.py:38-41 | for a trace whose quiet samples are two paddings of q >= 450 around a loud section, the window starts are the first q - 449 indexes of each padding |
| Processing.PaddedMean | abby/processing.py:44 | the mean of two runs of n consecutive starts lies halfway between their middles |
| Processing.PaddedSplit | abby/processing.py:44-46 | with two such runs, the last start of the first run is below the mean and the first start of the second run is above it |
| Processing.PaddedBounds | abby/processing.py:45-46 | for two such runs, the greatest start below the mean ends the first run and the least start above it begins the second |
| Processing.CropAtSection | abby/processing.py:44-48 | the split of two padding runs returns exactly the section between the paddings |
| Processing.CropPaddedSection | abby/processing.py:17-48 | a loud section of m > 0 samples between two quiet paddings of at least 450 samples, inside a trace with loud ends, is cropped out exactly, whatever `samples_per_cycle` is |
| Processing.CropExample | abby/processing.py:17-48 | ten loud samples between two 500-sample zero paddings, themselves between loud ends, crop to the ten samples |
| Processing.FallingEdgesBelow | abby/processing.py:126 | the falling edges below n are exactly the indexes i with `clock[i] > 0` and `clock[i+1] < 0`, in increasing order |
| Processing.FallingEdgesShape | abby/processing.py:125-127 | the cycle indexes increase, each leaves room for the next sample, no two are adjacent, and a zero sample is never an edge on either side |
| Processing.CandidatesBelow | abby/processing.py:93-99 | the candidate bins below n are exactly those at or above the threshold and within the precision of the estimate, in increasing order |
| Processing.FindClockFreqPhase | abby/processing.py:97-105 | "Did not find" iff there is no candidate bin, "Found multiple" iff there are two, otherwise the frequency and angle of the single candidate |
| Evaluation.NanToZero | abby/evaluation.py:50 | NaN (0/0) becomes 0 and every other value, infinities included, is left unchanged |
| Evaluation.NanToZeroAll | abby/evaluation.py:50 | the replacement is applied entry by entry and keeps the length |
| Evaluation.DenotesUnique | abby/evaluation.py:45 | a statistic kept as num / sqrt(radicand) stands for at most one real number |
| Evaluation.DenotesBounded | abby/evaluation.py:88 | a ratio whose squared numerator is at most its radicand stands for a number in [-1, 1] |
| Evaluation.CauchySchwarz | abby/evaluation.py:88 | the square of the sum of products is at most the product of the sums of squares, which bounds every correlation |
| Evaluation.Deviations | abby/evaluation.py:45 | each deviation is the sample minus the mean of its sample set |
| Evaluation.NegateDeviations | abby/evaluation.py:88 | negating a sample set negates its mean and its deviations |
| Evaluation.SquaredDeviations | abby/evaluation.py:45 | the sum of squared deviations is never negative |
| Evaluation.Variance | abby/evaluation.py:45 | the unbiased variance of two or more samples is never negative |
| Evaluation.Welch | abby/evaluation.py:45 | Welch's statistic has a non-negative radicand, and is NaN when a set has fewer than two samples |
| Evaluation.WelchAntisymmetric | abby/evaluation.py:45 | swapping the two trace sets negates the statistic |
| Evaluation.WelchConstant | abby/evaluation.py:20-22 | when both sets are constant at an index the statistic is NaN if the means agree and infinite otherwise |
| Evaluation.SpreadPositive | abby/evaluation.py:20-22 | a set with two different samples has a positive spread, so only constant sets divide by zero |
| Evaluation.DeviationsZero | abby/evaluation.py:20-22 | a zero sum of squared deviations forces every deviation to zero |
| Evaluation.Column | abby/evaluation.py:87 | `traces[:, i]` holds the i-th sample of every trace |
| Evaluation.TTest | abby/evaluation.py:17-52 | `ttest_ind` raises ValueError exactly when the two widths differ and neither is 1; otherwise there is one entry per broadcast sample index, and for sets of equal width each is Welch's statistic of the two columns with NaN replaced by 0 |
| Evaluation.TTestBroadcast | abby/evaluation.py:44-45 | a set of width 1 is compared with every column of the other set |
| Evaluation.TTestSwapped | abby/evaluation.py:44-50 | swapping the two sets fails or succeeds alike and negates every entry, the replaced NaN included |
| Evaluation.TTestEntries | abby/evaluation.py:43-50 | a NaN entry becomes 0, an infinite one stays infinite, and a finite one keeps its value |
| Evaluation.WelchPairs | abby/evaluation.py:45 | for two samples per set, the closed form of Welch's statistic |
| Evaluation.TTestExample | abby/evaluation.py:29-34 | the documented example gives 0, 0, 0, 0, -1, 1 |
| Evaluation.PairStats | abby/evaluation.py:45 | the mean and the squared deviations of two samples |
| Evaluation.PearsonRatio | abby/evaluation.py:88 | Pearson's coefficient has a non-negative radicand |
| Evaluation.Pearson | abby/evaluation.py:88 | `pearsonr` fails on samples of different lengths and on fewer than two samples, and otherwise returns the coefficient |
| Evaluation.PearsonBounded | abby/evaluation.py:88 | the coefficient is never infinite and lies in [-1, 1] |
| Evaluation.PearsonSymmetric | abby/evaluation.py:88 | correlating x with y gives the same as y with x |
| Evaluation.PearsonPerfect | abby/evaluation.py:88 | a non-constant sample set correlates 1 with itself and -1 with its negation |
| Evaluation.NegateSquares | abby/evaluation.py:88 | negation keeps the sum of squared deviations |
| Evaluation.PearsonConstantIsNaN | abby/evaluation.py:90-93 | a constant reference gives NaN, the case the replacement by 0 is for |
| Evaluation.ConstantNoSpread | abby/evaluation.py:90-93 | a constant sample set has its value as mean and no spread |
| Evaluation.Correlation | abby/evaluation.py:55-95 | no traces raise on `traces[0]`; a reference of the wrong length or fewer than two traces fail in `pearsonr`; otherwise one entry per sample index, each the coefficient of that column with NaN replaced by 0 |
| Evaluation.PearsonWithExampleReference | abby/evaluation.py:64-72 | the closed form of the coefficient against the documented reference 0, 0, 1 |
| Evaluation.CorrelationExample | abby/evaluation.py:63-72 | the documented example gives -0.5, -0.5, 0.5, -1, -0.5, 1 |
| Evaluation.CorrelationBounded | abby/evaluation.py:86-93 | every entry of a correlation with at least two traces lies in [-1, 1] |
| Evaluation.HammingWeight | abby/evaluation.py:131 | the count of set bits among the low `bits` bits is at most `bits` |
| Evaluation.HammingWeightLowBits | abby/evaluation.py:131 | only the low 16 bits count: adding a multiple of 2^16 changes nothing |
| Evaluation.HammingWeightMinusOne | abby/evaluation.py:131 | -1, whose bits are all set under Python's `>>`, has all 16 bits counted |
| Evaluation.HammingWeightWraps | abby/evaluation.py:131 | 65535 has weight 16 and 65536 has weight 0 |
| Evaluation.HammingWeightOfOne | abby/evaluation.py:67-70 | the docstring's intermediate value 1 has weight 1 |
| Evaluation.Weights | abby/evaluation.py:128-131 | one weight per input, the Hamming weight of the intermediate value for that key, each between 0 and 16 |
| Evaluation.CorrelationBruteforce | abby/evaluation.py:98-134 | the length check fails first, then `pearsonr` on fewer than two samples; otherwise 256 entries, entry k the coefficient against the weights for key byte k, NaN not replaced |
| Evaluation.BruteforceKeepsNaN | abby/evaluation.py:125-134 | a key byte whose weights are all equal leaves NaN in the result, since no replacement follows |
| BuildDataset.ReferenceTrace | docs/scripts/build_dataset.py:33-41 | the reference trace is the simulated power of each row, one sample per instruction, cycle counts ignored, and the rows are kept alongside |
| BuildDataset.Repeats | docs/scripts/build_dataset.py:75-81 | the extra cycles counted for an instruction never exceed the number of path steps looked at |
| BuildDataset.LastRunStart | docs/scripts/build_dataset.py:70-89 | the step whose sample is stored for an instruction is the last step where the warping path enters it, if it is entered at all |
| BuildDataset.Annotated | docs/scripts/build_dataset.py:63-89 | one annotated row per simulated instruction |
| BuildDataset.Annotate | docs/scripts/build_dataset.py:66-89 | the loop over the warping path gives each instruction 1 plus its extra cycles and, if the path enters it, the acquisition sample at the step where the path last enters it |
| BuildDataset.DropNa | docs/scripts/build_dataset.py:91 | dropping incomplete rows never adds rows |
| BuildDataset.DropNaMembers | docs/scripts/build_dataset.py:91 | the rows kept are exactly the complete ones |
| BuildDataset.DropNaAppend | docs/scripts/build_dataset.py:91 | filtering a concatenation filters each part, so the order of rows is kept |
| BuildDataset.DropNaRemoves | docs/scripts/build_dataset.py:91 | an incomplete row is dropped and its neighbours stay in place |
| BuildDataset.DropNaKeeps | docs/scripts/build_dataset.py:91 | a complete row is kept between its filtered neighbours |
| BuildDataset.AcquisitionSimulationToDataset | docs/scripts/build_dataset.py:22-93 | the dataset is the annotated rows without those lacking a power sample |
| BuildDataset.RepeatsOfRun | docs/scripts/build_dataset.py:72-81 | an instruction entered once for a run of steps gets one extra cycle per step after the first |
| BuildDataset.AnnotatedRun | docs/scripts/build_dataset.py:66-89 | an instruction matched by one run of path steps gets that run's length as cycle count and the sample at the run's first step as power |
| BuildDataset.UnvisitedDropped | docs/scripts/build_dataset.py:68-91 | an instruction the path skips keeps 1 cycle and no power, and is dropped |
| BuildDataset.StrLeTotal | docs/scripts/build_dataset.py:104-105 | any two file names are ordered one way or the other |
| BuildDataset.StrLeTransitive | docs/scripts/build_dataset.py:104-105 | the file-name order is transitive |
| BuildDataset.Insert | docs/scripts/build_dataset.py:104-105 | inserting a name into a sorted list keeps it sorted and adds exactly that name |
| BuildDataset.SortNames | docs/scripts/build_dataset.py:104-105 | `sorted` gives a sorted permutation of the names |
| BuildDataset.BaseName | docs/scripts/build_dataset.py:106 | a path's name is its last component, holding no separator |
| BuildDataset.Pairings | docs/scripts/build_dataset.py:102-107 | `zip` pairs the i-th sorted acquisition with the i-th sorted simulation, stops at the shorter list, and writes to the simulation's name in the destination |
| BuildDataset.PairingsSorted | docs/scripts/build_dataset.py:104-107 | jobs come in file-name order of both their acquisition and their simulation |
| BlockCipher.NamesDistinct | abby/firmware/blockcipher.py:279-289 | the nine listed ciphers have pairwise distinct names, so a name selects one cipher |
| BlockCipher.ByteMaskedAesInputLength | abby/firmware/blockcipher.py:24-30 | the masked AES input is key, mask and message: 16 + 10 + 16 = 42 bytes |
| BlockCipher.GfMulTwoThree | abby/firmware/blockcipher.py:71-100 | multiplying by 2 and 3 in GF(2^8) is xtime and xtime xor the operand |
| BlockCipher.Mul2IsXtimeLow | abby/firmware/blockcipher.py:71-84 | for x below 0x80 the `_mul2` entry is x shifted left: FIPS-197 xtime (section 4.2.1) without reduction |
| BlockCipher.Mul2IsXtimeHigh | abby/firmware/blockcipher.py:71-84 | for x from 0x80 the `_mul2` entry is x shifted left and reduced by 0x1b |
| BlockCipher.Mul3IsMul2XorFirst | abby/firmware/blockcipher.py:86-100 | `_mul3[x] == _mul2[x] ^ x` for x below 0x40 |
| BlockCipher.Mul3IsMul2XorSecond | abby/firmware/blockcipher.py:86-100 | `_mul3[x] == _mul2[x] ^ x` for x in 0x40-0x7f |
| BlockCipher.Mul3IsMul2XorThird | abby/firmware/blockcipher.py:86-100 | `_mul3[x] == _mul2[x] ^ x` for x in 0x80-0xbf |
| BlockCipher.Mul3IsMul2XorFourth | abby/firmware/blockcipher.py:86-100 | `_mul3[x] == _mul2[x] ^ x` for x from 0xc0 |
| BlockCipher.TablesAreProducts | abby/firmware/blockcipher.py:71-100 | every entry of the `_mul2` and `_mul3` tables is the GF(2^8) product of its index by 2 and by 3 |
| BlockCipher.SboxExamples | abby/firmware/blockcipher.py:57-70 | the S-box table maps 0x00 to 0x63 and 0x53 to 0xed, as the AES S-box does |
| BlockCipher.InitMaskingIsMixColumn | abby/firmware/blockcipher.py:127-133 | the four extra masks are MixColumns of the first four masks whenever the tables are the GF(2^8) products |
| BlockCipher.AesInitMasking | abby/firmware/blockcipher.py:127-133 | with the cipher's own tables, the mask initialisation is MixColumns of the first four masks |
| BlockCipher.Remasked | abby/firmware/blockcipher.py:102-110 | remasking changes only the first 16 bytes |
| BlockCipher.RemaskedTwice | abby/firmware/blockcipher.py:102-110 | remasking twice with the same masks restores the state |
| BlockCipher.RemaskedCompose | abby/firmware/blockcipher.py:102-110 | two remaskings are one remasking with the xor of their masks |
| BlockCipher.Remask | abby/firmware/blockcipher.py:102-110 | the in-place loop xors byte j of each of the four columns with the pair of masks m(j+1) xor m(j+5), and nothing else changes |
| BlockCipher.RemaskWith | abby/firmware/blockcipher.py:104-110 | the loop over the four columns leaves the array remasked by the given four masks |
| BlockCipher.RemaskLoop | abby/firmware/blockcipher.py:105-109 | after the four column steps every byte of the goal is in place |
| BlockCipher.RemaskBlock | abby/firmware/blockcipher.py:106-109 | one column step puts the next four remasked bytes in place and leaves the rest alone |
| BlockCipher.MaskSbox | abby/firmware/blockcipher.py:135-138 | the masked S-box maps x xor m4 to sbox(x) xor m5 for every byte x |
| BlockCipher.MaskStep | abby/firmware/blockcipher.py:137-138 | one store of the loop keeps the masked entries already written and adds the next |
| BlockCipher.MaskedRound | abby/firmware/blockcipher.py:156-158 | the loop over 16 bytes adds the round key and looks each byte up in the masked S-box under its word mask |
| BlockCipher.MaskedRoundIsReference | abby/firmware/blockcipher.py:124-159 | the masked computation equals the S-box of key xor message masked by mask[5] and the word mask, whatever the inner masks are |
| BlockCipher.FirstRoundReference | abby/firmware/blockcipher.py:112-159 | the reference first-round output has one byte per message byte |
| BlockCipher.GetSboxOutput | abby/firmware/blockcipher.py:112-159 | an input too short for the indexing fails; otherwise the result is the reference S-box output |
| BlockCipher.FirstRoundIgnoresInnerMasks | abby/firmware/blockcipher.py:124-159 | the output depends on the mask only through mask[5] and the word mask: masks 0-4 cancel out |
| BlockCipher.FirstRoundUnmasked | abby/firmware/blockcipher.py:124-159 | with those masks zero, byte i is the plain S-box of key byte xor message byte |
| BlockCipher.VectorSteps | abby/firmware/blockcipher.py:112-159 | each byte of the known vector goes through key ^ message, the tabulated S-box entry and the two output masks to the expected output byte |
| BlockCipher.FirstRoundVector | abby/firmware/blockcipher.py:112-159 | a fixed key, mask and message produce the expected 16 output bytes |
| Thumbulator.LastNopBelow | abby/emulator/thumbulator.py:121-123 | the NOP row chosen as crop start is a NOP below the middle with no NOP between it and the middle; none is returned only when there is no NOP below the middle |
| Thumbulator.FirstNopFrom | abby/emulator/thumbulator.py:122-124 | the NOP row chosen as crop end is the first NOP from the given row on; none only when there is none |
| Thumbulator.CropNop | abby/emulator/thumbulator.py:121-127 | the crop succeeds exactly when there is a NOP strictly before the middle row and one strictly after it; otherwise `max`/`min` of an empty selection raises |
| Thumbulator.CropNopBounds | abby/emulator/thumbulator.py:123-126 | a successful crop is exactly the rows strictly between the last NOP before the middle and the first NOP after it, re-indexed from 0 |
| Thumbulator.CropNopKeepsNoNop | abby/emulator/thumbulator.py:121-126 | the cropped rows are consecutive rows of the input, and the only NOP they can contain is the middle row itself |
| Thumbulator.CropNopExample | abby/emulator/thumbulator.py:121-127 | NOP, instruction, NOP crops to the instruction alone |
| Thumbulator.CropNopPadded | abby/emulator/thumbulator.py:121-127 | a body without NOP between two equally long runs of NOPs is cropped back to exactly that body |
| ModelBase.BaseOperation | abby/model/base.py:41-64 | `predict`, `fit` and `save` of the base class always raise `NotImplementedError` |
| ModelBase.Residuals | abby/model/base.py:78 | `ypred - target` subtracts entry by entry |
| ModelBase.Rsquare | abby/model/base.py:66-81 | a failing prediction propagates its error; lengths that NumPy cannot broadcast (different, neither 1) raise ValueError; otherwise an empty target raises ZeroDivisionError and any other target gives a score |
| ModelBase.RsquareBroadcastPrediction | abby/model/base.py:77-78 | a single prediction is broadcast: it scores as that value predicted for every target entry |
| ModelBase.RsquareBroadcastTarget | abby/model/base.py:77-81 | a single target value is broadcast against the prediction; its sst is 0, so the score is NaN when every prediction equals it and minus infinity otherwise |
| ModelBase.BaseRsquareRaises | abby/model/base.py:66-81 | the base class cannot score: its `predict` raises first |
| ModelBase.RsquareFinite | abby/model/base.py:79-81 | the score is a finite number exactly when the target is not constant |
| ModelBase.RsquareAtMostOne | abby/model/base.py:78-81 | a finite score is at most 1 |
| ModelBase.RsquarePerfect | abby/model/base.py:78-81 | predicting the target exactly scores 1 |
| ModelBase.RsquareOfMean | abby/model/base.py:78-81 | predicting the target's mean everywhere scores 0 |
| ModelBase.RsquareConstantTarget | abby/model/base.py:78-81 | against a constant target, 0/0 gives NaN for an exact prediction and 1 - x/0 gives minus infinity otherwise |
| ModelBase.Label | abby/model/base.py:107 | a one-hot column label is longer than the feature name it starts with |
| ModelBase.LabelInjective | abby/model/base.py:107-110 | two values get the same label only when they print the same |
| ModelBase.Labels | abby/model/base.py:106-107 | one label per possible value, in order |
| ModelBase.AddColumn | abby/model/base.py:107 | assigning a column adds its label once, keeping the column list free of duplicates |
| ModelBase.AddColumns | abby/model/base.py:106-107 | adding several columns gives exactly the old ones and the new labels, without duplicates |
| ModelBase.AddFreshColumns | abby/model/base.py:106-107 | new, distinct labels are appended after the existing columns, in the order of the possible values |
| ModelBase.Remove | abby/model/base.py:112 | dropping a column removes exactly that label |
| ModelBase.RemoveDistinct | abby/model/base.py:112 | dropping a column keeps the remaining labels distinct |
| ModelBase.ZeroColumns | abby/model/base.py:106-107 | the new columns are exactly the labels, each all zeros |
| ModelBase.Dummies | abby/model/base.py:110 | every dummy column is as tall as the encoded feature |
| ModelBase.Overwrite | abby/model/base.py:111 | `update` never adds a column |
| ModelBase.EncodedData | abby/model/base.py:84-114 | the encoded table has the old columns and the labels, and not the encoded feature |
| ModelBase.Frame.constructor | abby/model/base.py:84-114 | a table holds distinct columns, each of the table's height |
| ModelBase.Frame.SetConstant | abby/model/base.py:107 | `features[label] = 0` sets or adds a constant column and nothing else |
| ModelBase.Frame.Update | abby/model/base.py:111 | `update` overwrites existing columns in place and keeps the column list |
| ModelBase.Frame.Drop | abby/model/base.py:112 | dropping a missing column raises `KeyError`; otherwise a new table without that column |
| ModelBase.EncodeCategoricalFeatures | abby/model/base.py:84-114 | the caller's table gains all the zero columns; a missing feature raises `KeyError` after that; otherwise the returned table has the one-hot columns in place of the feature |
| ModelBase.AddZeroColumns | abby/model/base.py:106-107 | the loop adds one zero column per possible value |
| ModelBase.OneHot | abby/model/base.py:106-112 | the column of value v holds 1 on exactly the rows whose feature prints as v |
| ModelBase.UnknownValueAllZero | abby/model/base.py:106-112 | a row whose value is not among the possible values has 0 in every one-hot column |
| ModelBase.NameDropped | abby/model/base.py:112 | the encoded feature is gone from the result |
| ModelBase.EncodedColumnsOrder | abby/model/base.py:103-107 | a table holding only the feature ends up with the labels in the order of the possible values |
| ModelBase.EncodeExample | abby/model/base.py:90-92 | encoding three instruction names gives the expected one-hot columns |
| HammingWeightModel.New | abby/model/hamming_weight.py:20-31 | creating a new Hamming weight model raises `NotImplementedError`; loading one succeeds |
| HammingWeightModel.MissingBit | abby/model/hamming_weight.py:43 | the first missing operand-bit column, if any, and every column before it present |
| HammingWeightModel.PredictAsWritten | abby/model/hamming_weight.py:33-44 | as written: a missing bit column raises `KeyError`; otherwise 32 values, the sum over all rows of each bit column |
| HammingWeightModel.Predict | abby/model/hamming_weight.py:33-44 | intended: a missing bit column raises `KeyError`; otherwise one value per row |
| HammingWeightModel.PredictIsHammingWeight | abby/model/hamming_weight.py:14-18 | on a row holding the 32 bits of a value, the prediction is that value's Hamming weight |
| HammingWeightModel.PredictBounds | abby/model/hamming_weight.py:43 | with 0/1 columns every prediction lies between 0 and 32 |
| HammingWeightModel.PredictAsWrittenBounds | abby/model/hamming_weight.py:43 | as written, each of the 32 values is a count of rows, between 0 and the table height |
| HammingWeightModel.PredictAsWrittenRowOrder | abby/model/hamming_weight.py:43 | as written, the result ignores which row is which: shuffling each column changes nothing |
| HammingWeightModel.WrongAxisCannotScore | abby/model/hamming_weight.py:43 | on a two-row table, the as-written prediction has 32 entries and cannot be scored, while the per-row one can |
| ModelDispatch.NewElmo | abby/model/elmo.py:27-35 | creating a new ELMO model raises `NotImplementedError`; loading one succeeds |
| ModelDispatch.GetModel | abby/model/__init__.py:28-55 | an unrecognised configuration raises `ValueError` with the fixed message; every other error is the model's own `NotImplementedError` |
| ModelDispatch.ExactNames | abby/model/__init__.py:41-44 | "elmo" and "hw" select the ELMO and Hamming weight models |
| ModelDispatch.PrefixedNames | abby/model/__init__.py:45-50 | "xgb,", "catboost," and "mlp," select their model with the rest of the string as path |
| ModelDispatch.BranchesDisjoint | abby/model/__init__.py:41-50 | at most one branch applies to any configuration, so their order does not matter |
| ModelDispatch.HdRejected | abby/model/__init__.py:32-33 | "hd", though the docstring offers it, is rejected |
| Firmware.Find | abby/firmware/__init__.py:186-189 | the search succeeds exactly when some cipher has the name, returns the first such cipher, and otherwise fails with "<name> is not implemented" |
| Firmware.GetBlockcipher | abby/firmware/__init__.py:177-189 | every listed name gives its cipher; any other name raises `ValueError` with the fixed message |
| Firmware.Environ.constructor | abby/firmware/__init__.py:145-147 | the process environment starts as the given variables |
| Firmware.Environ.Set | abby/firmware/__init__.py:145-147 | setting a variable changes that variable only |
| Firmware.GluedDefines | abby/firmware/__init__.py:139-142 | as written, ELMO and QEMU together give the single word "-DELMO-DQEMU", so "-DQEMU" is not passed as a define of its own |
| Firmware.BuildFlagsWords | abby/firmware/__init__.py:127-142 | intended: with ELMO the flags hold the word "-DELMO", with QEMU the word "-DQEMU" |
| Firmware.RunArgs | abby/firmware/__init__.py:149-154 | the PlatformIO arguments start with the environment and project directory, add "-s" unless debugging and end with the upload target when uploading |
| Firmware.OutputName | abby/firmware/__init__.py:169-172 | the built file is "program" exactly for the native environment and "firmware.bin" otherwise |
| Firmware.AsWrittenSingleDefine | abby/firmware/__init__.py:127-142 | as written, with only one of ELMO and QEMU requested, that define is still a word of the flags of its own |
| Firmware.PioRun | abby/firmware/__init__.py:86-174 | for generated code first writes the generated program to the temporary assembly file and otherwise writes nothing there; sets exactly the three PlatformIO variables, the build flags as the source writes them (defines without separator), runs with those arguments and returns workspace/build/env/output name |
| Generate.RandOp | abby/firmware/generate.py:34-53 | each template has one range per operand |
| Generate.CheckedMeans | abby/firmware/generate.py:56-59 | a template that passes the syntactic check names only low registers r1-r7 and immediates below 256 |
| Generate.PossibilitiesOperands | abby/firmware/generate.py:56-107 | every one of the 44 templates uses only r1-r7 (r0 holds the data address) and immediates below 256 |
| Generate.ShiftAndSubtractRanges | abby/firmware/generate.py:69-100 | the shift amounts are 1-32 for `asrs`/`lsrs` and 0-31 for `lsls`, and `subs` takes an immediate of 0-7 |
| Generate.RandRange | abby/firmware/generate.py:50-52 | a draw lands in the half-open range |
| Generate.Operands | abby/firmware/generate.py:49-53 | the three operands each lie in their template's range |
| Generate.Choice | abby/firmware/generate.py:120 | the chosen template is one of the possibilities |
| Generate.Stream.constructor | abby/firmware/generate.py:110-121 | a stream starts empty |
| Generate.Stream.Write | abby/firmware/generate.py:121 | writing appends the text |
| Generate.Generate | abby/firmware/generate.py:110-121 | the stream gains exactly the program the draws determine |
| Generate.Write | abby/firmware/generate.py:119-121 | the loop writes one indented line per instruction, in order |
| Generate.SameDrawsSameProgram | abby/firmware/generate.py:113-118 | the same random draws (the same seed) give the same program |
| Generate.ProgramExtends | abby/firmware/generate.py:119-121 | a shorter program is a prefix of a longer one drawn from the same stream |
| Generate.InstructionOperands | abby/firmware/generate.py:57-59 | every generated instruction's registers are r1-r7 and its immediates are below 256 |
| Generate.RepeatedOperand | abby/firmware/generate.py:64 | `{op1}` used twice prints the same register twice |
| GenerateInput.TokenBytes | docs/scripts/generate_input.py:27-37 | `token_bytes(n)` gives n bytes, the next n of the random stream |
| GenerateInput.FramesOkAt | docs/scripts/generate_input.py:18-46 | every original frame is well formed with the given key and message; in TVLA mode each odd frame is the source's copy of the one before it: the same bytes up to a random message, or empty for a cipher without a message |
| GenerateInput.ListedCipherFrames | docs/scripts/generate_input.py:18-46 | for every listed cipher each frame written is a whole frame, and each TVLA copy repeats the frame before it up to the message |
| GenerateInput.HexLines | docs/scripts/generate_input.py:39-46 | one output line per frame |
| GenerateInput.LineDecodes | docs/scripts/generate_input.py:39 | every line written decodes back to its frame |
| GenerateInput.MessagesNotEmpty | abby/firmware/blockcipher.py:279-289 | every listed cipher has a message of at least one byte |
| GenerateInput.DropMessageAsWritten | docs/scripts/generate_input.py:43 | as written, `input_text[:-n]` drops the last n bytes for n > 0 but is empty for n = 0 |
| GenerateInput.DropMessage | docs/scripts/generate_input.py:43 | intended: the frame without its last `msg_length` bytes, for every length including 0 |
| GenerateInput.EmptyMessageLosesFrame | docs/scripts/generate_input.py:43-46 | as written, a cipher with no message would get an empty TVLA line, which no reader accepts; the intended copy is the frame itself |
| GenerateInput.ListedCiphersDropMessage | docs/scripts/generate_input.py:43 | for every listed cipher the as-written slice and the intended one agree |
| GenerateInput.TextFile.constructor | docs/scripts/generate_input.py:103-109 | the output file starts empty |
| GenerateInput.TextFile.Write | docs/scripts/generate_input.py:39 | writing appends exactly one line |
| GenerateInput.MakeFrame | docs/scripts/generate_input.py:19-37 | the frame fails exactly when a given key or message is too short, with the key checked first; otherwise it is the start byte, the key (given and cut, or the next `key_length` stream bytes), the next `iv_length + mask_length` stream bytes, and the message (given and cut, or the next `msg_length` stream bytes), and the stream advances by exactly the bytes drawn |
| GenerateInput.RandomMessage | docs/scripts/generate_input.py:42-45 | with the source's `[: -msg_length]` slice, the TVLA copy keeps everything before the message and ends with the next `msg_length` random bytes; for a cipher without a message it is empty |
| GenerateInput.WriteBlock | docs/scripts/generate_input.py:18-46 | for one cipher the loop writes `num` frames, two each in TVLA mode with the copy built by the source's slice, or fails on the first frame with nothing written when an argument is too short |
| GenerateInput.FirstTooShort | docs/scripts/generate_input.py:17-37 | the first cipher for which a given key or message is too short, and none before it |
| GenerateInput.LineCount | docs/scripts/generate_input.py:17-46 | a full run writes `num` lines per cipher, doubled in TVLA mode |
| GenerateInput.WriteInputs | docs/scripts/generate_input.py:15-46 | the lines written are the blocks of the ciphers in order; the run stops with the assertion message at the first cipher whose arguments are too short, after the blocks before it |
| TraceAcquisition.ReadInput | docs/scripts/trace_acquisition.py:41-49 | a line of the input file is accepted exactly when it is valid hex of the cipher's input length plus one; invalid hex and a wrong length are the two distinct errors |
| TraceAcquisition.ReadsGeneratedLine | docs/scripts/trace_acquisition.py:41-49 | every frame written by the input generator is read back unchanged |
| Common.FromHexToHex | docs/scripts/trace_acquisition.py:43 | `bytes.fromhex` of a byte string's hex, with trailing whitespace such as the newline, gives the bytes back |
| TraceAcquisition.RandomInput | docs/scripts/trace_acquisition.py:50-53 | a random input is the start byte followed by exactly the cipher's input length of random bytes |
| TraceAcquisition.RandomInputAccepted | docs/scripts/trace_acquisition.py:41-53 | a random input, written as hex, would pass the file-input size check |
| TraceAcquisition.OutputName | docs/scripts/trace_acquisition.py:56 | the trace file name has board, cipher name and the input's hex, so its length is fixed by theirs |
| TraceAcquisition.OutputNameInjective | docs/scripts/trace_acquisition.py:56-58 | two inputs for the same board and cipher never share a file name, so an existing file is only skipped for an input already acquired |
| TraceAcquisition.ResponseLength | docs/scripts/trace_acquisition.py:71 | the expected response is the message plus a one-byte header |
| TraceAcquisition.InputText | docs/scripts/trace_acquisition.py:41-53 | the input text is the checked line of the input file when there is one, and otherwise the start byte plus random bytes; either way it has the cipher's input length plus one |
| TraceAcquisition.PlanTrace | docs/scripts/trace_acquisition.py:41-74 | a bad input line fails with its error; otherwise the file name is made from the input text, the trace is skipped exactly when that name exists, and else that input is acquired with the response length and a firmware rebuild exactly for generated code |
| TraceAcquisition.SkipsOnlyAcquired | docs/scripts/trace_acquisition.py:56-58 | when the existing files are the traces of earlier inputs, an input is skipped exactly when it was itself acquired before |
| TraceAcquisition.PlansGeneratedLine | docs/scripts/trace_acquisition.py:41-74 | a line written by the input generator is acquired as the very frame it encodes, unless its trace already exists |
| TraceAcquisition.SegmentMax | docs/scripts/trace_acquisition.py:82 | the maximum of a cycle is attained in the cycle and bounds every sample of it |
| TraceAcquisition.FallingEdgesAreCycleIndexes | docs/scripts/trace_acquisition.py:78-82 | the clock's falling edges are increasing in-range indexes at least two samples apart, so every cycle slice is non-empty |
| TraceAcquisition.Maxima | docs/scripts/trace_acquisition.py:79-82 | one value per pair of consecutive cycle starts, each the maximum of that cycle |
| TraceAcquisition.Shift | docs/scripts/trace_acquisition.py:83 | subtracting a constant changes every sample by that constant |
| TraceAcquisition.ShiftSum | docs/scripts/trace_acquisition.py:83 | subtracting a constant lowers the sum by length times the constant |
| TraceAcquisition.CenteredSumZero | docs/scripts/trace_acquisition.py:83 | after the mean is subtracted the trace sums to zero |
| TraceAcquisition.CycleMaxima | docs/scripts/trace_acquisition.py:79-82 | the loop fills a fresh array with exactly the per-cycle maxima |
| TraceAcquisition.SubtractInPlace | docs/scripts/trace_acquisition.py:83 | the in-place subtraction leaves the array shifted by the constant |
| TraceAcquisition.Downsample | docs/scripts/trace_acquisition.py:76-84 | with no cycle found the zeros allocation of length -1 fails; otherwise the result is the centred per-cycle maxima |
| TraceAcquisition.Process | docs/scripts/trace_acquisition.py:76-88 | downsampling and cropping are applied in that order, each only when enabled; downsampling fails only without cycle indexes; with cropping on, the result is exactly what `crop_cycles` with threshold 0.005 gives on the (downsampled) trace, its failure reported as a failed crop |
| FirmwareMain.BufferSizes | abby/firmware/include/main.h:9-11 | the key, IV and text buffers hold the eCrypt bit sizes divided by 8, rounded down |
| FirmwareMain.WaitNopIs500 | abby/firmware/include/main.h:13-17 | `WAIT_NOP` is 5 x 10 x 10 = 500 NOP instructions |
| FirmwareMain.TriggerWindow | abby/firmware/src/main.c:28-44 | a frame's events are the setup, the trigger set, 500 NOPs, the encryption, 500 NOPs and the trigger cleared: 1004 in all |
| FirmwareMain.NopRows | abby/firmware/src/main.c:35 | a NOP wait executes as rows that are all NOPs |
| FirmwareMain.WindowCropsToEncryption | abby/firmware/src/main.c:34-41 | cropping the NOPs from an execution of the trigger window leaves exactly the encryption's instructions |
| FirmwareMain.Overwrite | abby/firmware/src/main.c:38 | the output buffer holds the cipher's bytes where it wrote them and its old bytes elsewhere |
| FirmwareMain.Zeros | abby/firmware/src/main.c:8 | the ciphertext buffer starts as zeros |
| FirmwareMain.ReadFields | abby/firmware/src/main.c:23-25 | after the start byte come the key, the IV and the cleartext, each of its buffer's size |
| FirmwareMain.Serve | abby/firmware/src/main.c:15-56 | the board loops forever without ELMO; with ELMO it stops after one answered frame; every response is the start byte and one text-sized ciphertext; with nothing sent, the only event is the final program end, if any |
| FirmwareMain.SkipsNoise | abby/firmware/src/main.c:17-20 | bytes other than the start byte before a frame are skipped and change nothing |
| FirmwareMain.AnswersFrame | abby/firmware/src/main.c:17-56 | under ELMO, a frame is answered with the start byte and the ciphertext buffer after encryption, followed by the program end, and the rest of the input is left unread |
| FirmwareMain.WholeBlockForgetsBuffer | abby/firmware/src/main.c:38 | a cipher that writes a whole block leaves nothing of the previous ciphertext |
| FirmwareMain.ReadsGeneratedFrame | abby/firmware/src/main.c:17-25 | a line from the input generator is one frame of the right length, and given key and message reach the key and cleartext buffers |
| FirmwareMain.Board.constructor | abby/firmware/src/main.c:3-4 | the board starts with its serial input and nothing sent or done |
| FirmwareMain.Board.Receive | abby/firmware/src/main.c:17-25 | `receive_text` fills the buffer with the next n input bytes; with fewer available the input runs dry and the buffer is left as it was, the board blocking there |
| FirmwareMain.Board.Send | abby/firmware/src/main.c:47-48 | `send_text` appends the bytes to the serial output |
| FirmwareMain.Board.Do | abby/firmware/src/main.c:28-44 | a board action is recorded in order |
| FirmwareMain.EncryptInto | abby/firmware/src/main.c:38 | encryption writes its bytes into the ciphertext buffer |
| FirmwareMain.ReadFrame | abby/firmware/src/main.c:23-25 | the three reads fill key, IV and cleartext from the frame and consume exactly its length, or wait forever on a short stream |
| FirmwareMain.Answer | abby/firmware/src/main.c:28-48 | set up, trigger, encrypt, clear the trigger, then send the start byte and the ciphertext buffer |
| FirmwareMain.ServeFrame | abby/firmware/src/main.c:22-53 | serving a complete frame sends its answer and then either stops (ELMO) or serves the rest of the input with the new ciphertext buffer |
| FirmwareMain.Step | abby/firmware/src/main.c:15-53 | one pass of the loop either finishes what the board will do or consumes input and keeps the rest of the run in step with `Serve` |
| FirmwareMain.Run | abby/firmware/src/main.c:3-59 | the board's serial output, its actions, the input left unread and whether it reaches `program_end` are exactly those `Serve` describes |
| Xoodoo.Absorbed | abby/firmware/lib/xoodoo/ecrypt-sync.c:84-88 | absorbing xors the first 16 state bytes with the block and leaves the other 32 |
| Xoodoo.AbsorbedWords | abby/firmware/lib/xoodoo/ecrypt-sync.c:84-88 | word-wise: the first four 32-bit words are xored with the block's and the other eight kept |
| Xoodoo.AbsorbTwice | abby/firmware/lib/xoodoo/ecrypt-sync.c:84-88 | absorbing the same block twice restores the state |
| Xoodoo.AbsorbRecoversBlock | abby/firmware/lib/xoodoo/ecrypt-sync.c:84-88 | the block is the xor of the state before and after absorption |
| Xoodoo.AbsorbBlock | abby/firmware/lib/xoodoo/ecrypt-sync.c:84-88 | the in-place loop over four words leaves the state absorbed |
| Xoodoo.XorWord | abby/firmware/lib/xoodoo/ecrypt-sync.c:86 | one word step xors four more state bytes |
| Xoodoo.FrameCiphertext | abby/firmware/lib/xoodoo/ecrypt-sync.c:21-98 | one block of ciphertext is the first bytes of the permuted state, absorbed from the fixed key state |
| Xoodoo.Response | abby/firmware/src/main.c:17-56 | with the Xoodoo layer, the board answers a frame with the start byte and that ciphertext |
| Xoodoo.ResponseIgnoresKey | abby/firmware/lib/xoodoo/ecrypt-sync.c:21-75 | the key sent to the board does not change its answer: the state starts from a fixed key |
| Xoodoo.Context.constructor | abby/firmware/lib/xoodoo/ecrypt-sync.c:15-17 | the state array is allocated and no mask is set |
| Xoodoo.Context.KeySetup | abby/firmware/lib/xoodoo/ecrypt-sync.c:21-75 | the state becomes the 48 fixed bytes, whatever key is given |
| Xoodoo.Context.IvSetup | abby/firmware/lib/xoodoo/ecrypt-sync.c:77-82 | the mask is the one the IV initialises |
| Xoodoo.Context.Permute | abby/firmware/lib/xoodoo/ecrypt-sync.c:94 | the state is replaced by its permutation under the mask |
| Xoodoo.Context.EncryptBytes | abby/firmware/lib/xoodoo/ecrypt-sync.c:90-98 | absorb, permute, then copy one block of state into the ciphertext, leaving the rest of it alone |
| Xoodoo.Context.Frame | abby/firmware/src/main.c:28-38 | key setup, IV setup and encryption leave the frame's ciphertext in the buffer |

## Left out

- Floating-point signal processing: the FFT, `np.angle` and the Butterworth filter of `find_clock_freq_phase` and `find_cycles` are not modelled. The peak selection takes the spectrum bins as given, and the edge rule takes the filtered clock as given.
- IEEE arithmetic: statistics are exact rationals. `nan_to_num` turning infinities into the largest float is not modelled; infinities stay infinite.
- scipy's `ttest_ind` and `pearsonr` internals are left out: rounding, warnings and their p-values. Only the statistic is modelled.
- Evaluation.TTest: each trace set is taken as a rectangular array of its own width. Ragged lists, which NumPy refuses with an inhomogeneous-shape ValueError, are not modelled.
- Firmware.PioRun: the temporary assembly file is a stream given by the caller, and the seeded generator's choices are the parameter `draws` (see Generate.Generate).
- Dynamic time warping: the `dtw.dtw` call is not modelled. The warping path is an input whose indexes are in range. The `Pool(15)` parallelism and CSV/npy file I/O are left out.
- Hardware: the oscilloscope, the serial port, GPIO triggers and `peripherals.cpp` are not modelled. The board's serial line is an abstract byte channel. The `uint8_t` loop counter of `receive_text`/`send_text` limits a transfer to 255 bytes; the model does not impose that limit.
- FirmwareMain.Board.Receive: on a short stream the model leaves the buffer unchanged and the input empty. The board instead blocks with the bytes it has already received stored.
- Emulators and learned models: QEMU, J-Link, the Thumbulator run itself, ELMO's power column, and the XGBoost, CatBoost and MLP wrappers are not modelled. `get_model` only records the path and the `create` flag it passes on.
- Randomness: `secrets.token_bytes`, `random.randrange` and `random.choice` draw from an explicit stream. The model picks a template as `d % n` and an operand as `lo + d % (hi - lo)`. This is not Python's generator; only the ranges matter.
- Generate.Generate: the stream stands for `random.seed(seed)`, and how Python derives the stream from the seed is not modelled.
- The Xoodoo permutation and `Xoodoo_Initialize_Masks` are function parameters. Only their size is constrained.
- The eCrypt sizes (`ECRYPT_MAXKEYSIZE`, `ECRYPT_MAXIVSIZE`, `ECRYPT_BLOCKLENGTH`) differ per cipher and are parameters.
- The other ciphers' `ecrypt-sync.c` files are not modelled; they only call code outside this model.
- Xoodoo.Context.KeySetup: the 48 constant stores are stated as one postcondition on the whole state. The model does not state the order of the stores.
- Generated-code rebuild: the acquisition plan records whether the firmware must be rebuilt with the input as seed. The rebuild itself, PlatformIO's `cli` and the upload are not modelled.
- Environment and files: `os.environ` is a map on an object. Temporary directories and file names are parameters, and file existence is a set of names. Reading and writing `.npy`, `.csv` and text files, `argparse`, `tqdm`, logging and plotting are not modelled.
- Processing.CropAt: numpy's mean of an empty selection (NaN, with a warning) is not modelled. The model fails at the empty `max`, as the code does next.
- pandas details are left out: dtype handling and index labels. Rows are identified by position, and a missing value is `None`.
- ModelBase.Rsquare: the target is taken to be a NumPy array, as the docstring allows. For a plain list, `target - mean_target` raises TypeError, which is not modelled.
- `get_dummies` label collisions are not modelled: the one-hot labels are assumed distinct from the table's other columns.
- The firmware IV buffer is assumed to hold the generator's IV and mask bytes (`ivLength + maskLength`). The cipher headers that set this are not part of this model.

## Findings

| source | as written | input that shows it | evidently intended | confidence | as-written member | corrected member |
|---|---|---|---|---|---|---|
| abby/model/hamming_weight.py:43 | `np.sum([...32 bit columns...], axis=1)` sums each bit column over all rows, giving 32 values | any table with 2 rows: the prediction has 32 entries, so `rsquare` against a 2-entry target cannot be computed | one Hamming weight per row (`axis=0`), as the class docstring describes | high; not executed | HammingWeightModel.PredictAsWritten, HammingWeightModel.WrongAxisCannotScore | HammingWeightModel.Predict, HammingWeightModel.PredictIsHammingWeight |
| abby/firmware/__init__.py:139-142 | `build_flags += "-DELMO"` then `build_flags += "-DQEMU"` with no separator | `elmo=True, qemu=True` gives the single word `-DELMO-DQEMU`, so `QEMU` is never defined on its own | space-separated defines `-DELMO -DQEMU` | high; not executed | Firmware.BuildFlagsAsWritten, Firmware.GluedDefines, Firmware.PioRun | Firmware.BuildFlags, Firmware.BuildFlagsWords |
| docs/scripts/generate_input.py:43 | `input_text[: -algo.msg_length]` | a cipher with `msg_length` 0: `[:-0]` is empty, so the TVLA line is the empty string | drop exactly the last `msg_length` bytes | medium (no listed cipher has an empty message); not executed | GenerateInput.DropMessageAsWritten, GenerateInput.EmptyMessageLosesFrame, GenerateInput.RandomMessage | GenerateInput.DropMessage, GenerateInput.ListedCiphersDropMessage |
