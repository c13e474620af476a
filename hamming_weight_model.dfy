/**
 * `HammingWeightModel` (abby/model/hamming_weight.py): the power of an
 * instruction predicted as the Hamming weight of its second operand,
 * whose 32 bits are the feature columns `op2_value_current_0` ..
 * `op2_value_current_31` of a data frame.
 *
 * The features are a table: a map from column label to the column's
 * values, every column of the same height. The source's `predict` sums
 * along the wrong axis; `PredictAsWritten` models it as written and
 * `Predict` the per-row Hamming weight its documentation describes.
 */
module HammingWeightModel {
  import opened Common
  import Evaluation
  import ModelBase

  /** The model holds no state: loading is all there is. */
  datatype HwModel = HwModel

  /** `HammingWeightModel(create)`: a model cannot be trained, so creating one raises. */
  function New(create: bool): (r: Result<HwModel, ModelBase.ModelError>)
    ensures r.Err? <==> create
    ensures r.Err? ==> r.error == ModelBase.NotImplementedError
  {
    if create then Err(ModelBase.NotImplementedError) else Ok(HwModel)
  }

  /** `f"op2_value_current_{i}"`. */
  function BitLabel(i: nat): string
  {
    "op2_value_current_" + NatToString(i)
  }

  /** A feature table: every column has `height` values. */
  predicate Table(features: map<string, seq<int>>, height: nat)
  {
    forall c :: c in features ==> |features[c]| == height
  }

  /** The first of the 32 operand-bit columns that the table lacks, if any. */
  function MissingBit(features: map<string, seq<int>>, from: nat): (r: Option<nat>)
    requires from <= 32
    ensures r.Some? ==> from <= r.value < 32 && BitLabel(r.value) !in features
    ensures r.Some? ==> forall i :: from <= i < r.value ==> BitLabel(i) in features
    ensures r.None? ==> forall i :: from <= i < 32 ==> BitLabel(i) in features
    decreases 32 - from
  {
    if from == 32 then None
    else if BitLabel(from) !in features then Some(from)
    else MissingBit(features, from + 1)
  }

  /**
   * `predict` as written: the 32 columns are stacked into a 32 x height
   * array and `np.sum(..., axis=1)` adds up each column, giving one total
   * per bit. Indexing a missing column raises `KeyError` for the first one
   * the comprehension reaches.
   */
  function PredictAsWritten(features: map<string, seq<int>>, height: nat): (r: Result<seq<int>, ModelBase.ModelError>)
    requires Table(features, height)
    ensures r.Err? <==> exists i :: 0 <= i < 32 && BitLabel(i) !in features
    ensures r.Err? ==> exists i :: 0 <= i < 32 && r.error == ModelBase.KeyError(BitLabel(i)) && BitLabel(i) !in features
    ensures r.Ok? ==> |r.value| == 32
    ensures r.Ok? ==> forall i :: 0 <= i < 32 ==> r.value[i] == SumInt(features[BitLabel(i)])
  {
    var missing := MissingBit(features, 0);
    if missing.Some? then Err(ModelBase.KeyError(BitLabel(missing.value)))
    else Ok(seq(32, i requires 0 <= i < 32 => SumInt(features[BitLabel(i)])))
  }

  /** The operand bits of row `r`, bit 0 first. */
  function RowBits(features: map<string, seq<int>>, height: nat, r: nat): (b: seq<int>)
    requires Table(features, height) && r < height
    requires forall i :: 0 <= i < 32 ==> BitLabel(i) in features
    ensures |b| == 32 && forall i :: 0 <= i < 32 ==> b[i] == features[BitLabel(i)][r]
  {
    seq(32, i requires 0 <= i < 32 => features[BitLabel(i)][r])
  }

  /** `predict` as documented: one Hamming weight per row, the sum of that row's 32 bits. */
  function Predict(features: map<string, seq<int>>, height: nat): (r: Result<seq<int>, ModelBase.ModelError>)
    requires Table(features, height)
    ensures r.Err? <==> exists i :: 0 <= i < 32 && BitLabel(i) !in features
    ensures r.Err? ==> exists i :: 0 <= i < 32 && r.error == ModelBase.KeyError(BitLabel(i)) && BitLabel(i) !in features
    ensures r.Ok? ==> |r.value| == height
  {
    var missing := MissingBit(features, 0);
    if missing.Some? then Err(ModelBase.KeyError(BitLabel(missing.value)))
    else Ok(seq(height, r requires 0 <= r < height => SumInt(RowBits(features, height, r))))
  }

  /** Bit i of n, in the same Euclidean halving `Evaluation.HammingWeight` uses. */
  function Bit(n: int, i: nat): (b: int)
    ensures b == 0 || b == 1
    decreases i
  {
    if i == 0 then n % 2 else Bit(n / 2, i - 1)
  }

  /** The Hamming weight of the low k bits adds the top one to that of the low k - 1 bits. */
  lemma {:induction false} HammingWeightTopBit(n: int, k: nat)
    requires k > 0
    ensures Evaluation.HammingWeight(n, k) == Evaluation.HammingWeight(n, k - 1) + Bit(n, k - 1)
    decreases k
  {
    if k > 1 {
      HammingWeightTopBit(n / 2, k - 1);
    }
  }

  /** Adding up bits 0 .. k-1 of n gives the Hamming weight of its low k bits. */
  lemma {:induction false} SumOfBits(n: int, bits: seq<int>, k: nat)
    requires k <= |bits| && forall i :: 0 <= i < k ==> bits[i] == Bit(n, i)
    ensures SumInt(bits[..k]) == Evaluation.HammingWeight(n, k)
  {
    if k > 0 {
      assert bits[..k][..k - 1] == bits[..k - 1];
      SumOfBits(n, bits, k - 1);
      HammingWeightTopBit(n, k);
    }
  }

  /**
   * When the 32 columns of a row hold the bits of a 32-bit value v, the
   * documented prediction for that row is the Hamming weight of v.
   */
  lemma PredictIsHammingWeight(features: map<string, seq<int>>, height: nat, r: nat, v: int)
    requires Table(features, height) && r < height
    requires forall i :: 0 <= i < 32 ==> BitLabel(i) in features && features[BitLabel(i)][r] == Bit(v, i)
    ensures Predict(features, height).Ok?
    ensures Predict(features, height).value[r] == Evaluation.HammingWeight(v, 32)
  {
    var bits := RowBits(features, height, r);
    SumOfBits(v, bits, 32);
    assert bits[..32] == bits;
  }

  /** 0/1 columns give a per-row weight between 0 and 32. */
  lemma PredictBounds(features: map<string, seq<int>>, height: nat)
    requires Table(features, height) && Predict(features, height).Ok?
    requires forall i, r :: 0 <= i < 32 && 0 <= r < height ==> features[BitLabel(i)][r] == 0 || features[BitLabel(i)][r] == 1
    ensures forall r :: 0 <= r < height ==> 0 <= Predict(features, height).value[r] <= 32
  {
    forall r | 0 <= r < height
      ensures 0 <= Predict(features, height).value[r] <= 32
    {
      SumIntBits(RowBits(features, height, r));
    }
  }

  /** As written, 0/1 columns give totals between 0 and the number of rows. */
  lemma PredictAsWrittenBounds(features: map<string, seq<int>>, height: nat)
    requires Table(features, height) && PredictAsWritten(features, height).Ok?
    requires forall i, r :: 0 <= i < 32 && 0 <= r < height ==> features[BitLabel(i)][r] == 0 || features[BitLabel(i)][r] == 1
    ensures forall i :: 0 <= i < 32 ==> 0 <= PredictAsWritten(features, height).value[i] <= height
  {
    forall i | 0 <= i < 32
      ensures 0 <= PredictAsWritten(features, height).value[i] <= height
    {
      SumIntBits(features[BitLabel(i)]);
    }
  }

  /** As written, reordering the rows of the bit columns leaves the totals unchanged. */
  lemma PredictAsWrittenRowOrder(features: map<string, seq<int>>, shuffled: map<string, seq<int>>, height: nat)
    requires Table(features, height) && Table(shuffled, height)
    requires forall i :: 0 <= i < 32 ==> (BitLabel(i) in features <==> BitLabel(i) in shuffled)
    requires forall i :: 0 <= i < 32 && BitLabel(i) in features ==>
      multiset(shuffled[BitLabel(i)]) == multiset(features[BitLabel(i)])
    ensures PredictAsWritten(shuffled, height) == PredictAsWritten(features, height)
  {
    MissingBitAgrees(features, shuffled, 0);
    if PredictAsWritten(features, height).Ok? {
      var a, b := PredictAsWritten(features, height).value, PredictAsWritten(shuffled, height).value;
      forall i | 0 <= i < 32
        ensures a[i] == b[i]
      {
        SumIntPermutation(shuffled[BitLabel(i)], features[BitLabel(i)]);
      }
      assert a == b;
    }
  }

  lemma {:induction false} MissingBitAgrees(a: map<string, seq<int>>, b: map<string, seq<int>>, from: nat)
    requires from <= 32
    requires forall i :: 0 <= i < 32 ==> (BitLabel(i) in a <==> BitLabel(i) in b)
    ensures MissingBit(a, from) == MissingBit(b, from)
    decreases 32 - from
  {
    if from < 32 {
      MissingBitAgrees(a, b, from + 1);
    }
  }

  /** The predictions as `Model.rsquare` receives them. */
  function AsReals(p: Result<seq<int>, ModelBase.ModelError>): (q: Result<seq<real>, ModelBase.ModelError>)
    ensures p.Err? ==> q == Err(p.error)
    ensures p.Ok? ==> q.Ok? && |q.value| == |p.value| && forall i :: 0 <= i < |p.value| ==> q.value[i] == p.value[i] as real
  {
    if p.Err? then Err(p.error)
    else Ok(seq(|p.value|, i requires 0 <= i < |p.value| => p.value[i] as real))
  }

  /**
   * The source's axis: a complete table of two rows predicts 32 totals,
   * which cannot be compared with the two target values, so scoring the
   * model fails. The documented prediction scores.
   */
  lemma WrongAxisCannotScore(features: map<string, seq<int>>, target: seq<real>)
    requires Table(features, 2) && |target| == 2
    requires forall i :: 0 <= i < 32 ==> BitLabel(i) in features
    ensures |PredictAsWritten(features, 2).value| == 32 != |target|
    ensures ModelBase.Rsquare(AsReals(PredictAsWritten(features, 2)), target).Err?
    ensures ModelBase.Rsquare(AsReals(Predict(features, 2)), target).Ok?
  {
  }
}
