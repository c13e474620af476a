/**
 * The base class of the leakage models (abby/model/base.py): the
 * operations every model must override, the r² score of a model's
 * predictions, and the one-hot encoding of a categorical feature, which
 * adds columns to the caller's data frame in place.
 *
 * A data frame is a `Frame` object: its column labels in order, one column
 * of cells per label, all of the same height. Scores are exact reals; a
 * division by a zero total sum of squares gives the IEEE value NumPy
 * produces (NaN for 0/0, minus infinity for 1 - x/0 with x > 0).
 */
module ModelBase {
  import opened Common
  import Evaluation

  datatype ModelError = NotImplementedError | ValueError(message: string) | KeyError(column: string) | ZeroDivisionError

  /** The operations a subclass has to provide. */
  datatype Operation = Predict | Fit | Save

  /** `Model.predict`, `Model.fit` and `Model.save`: the base class implements none of them. */
  function BaseOperation(op: Operation): (r: Result<seq<real>, ModelError>)
    ensures r.Err? && r.error == NotImplementedError
  {
    Err(NotImplementedError)
  }

  // ---------------------------------------------------------------------
  // r² of a prediction.
  // ---------------------------------------------------------------------

  /** A float result, which may be one of the IEEE special values. */
  datatype Score = Finite(value: real) | NegInfinity | NaN

  /** ypred - target, element by element. */
  function Residuals(ypred: seq<real>, target: seq<real>): (e: seq<real>)
    requires |ypred| == |target|
    ensures |e| == |target| && forall i :: 0 <= i < |e| ==> e[i] == ypred[i] - target[i]
  {
    seq(|target|, i requires 0 <= i < |target| => ypred[i] - target[i])
  }

  /** An operand of length 1 repeated to length k; an operand already of length k is kept. */
  function Stretch(a: seq<real>, k: nat): (b: seq<real>)
    requires |a| == k || |a| == 1
    ensures |b| == k
    ensures forall i :: 0 <= i < k ==> b[i] == (if |a| == k then a[i] else a[0])
  {
    if |a| == k then a else seq(k, _ requires |a| == 1 => a[0])
  }

  /**
   * `Model.rsquare`: 1 - sse / sst for the prediction `self.predict` made.
   * `ypred - target` broadcasts an operand of length 1 and raises on any
   * other length mismatch; an empty target divides the integer 0 by 0; a
   * target with sst = 0 (constant, or a single value) makes the float
   * division give NaN or minus infinity.
   */
  function Rsquare(prediction: Result<seq<real>, ModelError>, target: seq<real>): (r: Result<Score, ModelError>)
    ensures prediction.Err? ==> r == Err(prediction.error)
    ensures prediction.Ok? && !Broadcastable(|prediction.value|, |target|) ==>
              r == Err(ValueError("operands could not be broadcast together"))
    ensures prediction.Ok? && Broadcastable(|prediction.value|, |target|) && |target| == 0 ==>
              r == Err(ZeroDivisionError)
    ensures r.Ok? <==> prediction.Ok? && Broadcastable(|prediction.value|, |target|) && |target| > 0
  {
    if prediction.Err? then Err(prediction.error)
    else if !Broadcastable(|prediction.value|, |target|) then Err(ValueError("operands could not be broadcast together"))
    else if |target| == 0 then Err(ZeroDivisionError)
    else
      var k := BroadcastLength(|prediction.value|, |target|);
      var e := Residuals(Stretch(prediction.value, k), Stretch(target, k));
      var sse := Evaluation.Dot(e, e);
      var sst := Evaluation.SquaredDeviations(target);
      if sst > 0.0 then Ok(Finite(1.0 - sse / sst))
      else if sse == 0.0 then Ok(NaN)
      else Ok(NegInfinity)
  }

  /** A single prediction is broadcast: it scores as that value predicted for every target entry. */
  lemma RsquareBroadcastPrediction(y: real, target: seq<real>)
    requires |target| > 1
    ensures Rsquare(Ok([y]), target) == Rsquare(Ok(seq(|target|, _ => y)), target)
  {
    var c := seq(|target|, _ => y);
    assert Stretch([y], |target|) == c;
  }

  /**
   * A single target value is broadcast against the whole prediction; its
   * sum of squares about its own mean is 0, so the score is NaN when every
   * prediction equals it and minus infinity otherwise.
   */
  lemma {:induction false} RsquareBroadcastTarget(ypred: seq<real>, t: real)
    requires |ypred| > 0
    ensures Rsquare(Ok(ypred), [t]) == (if forall i :: 0 <= i < |ypred| ==> ypred[i] == t then Ok(NaN) else Ok(NegInfinity))
  {
    var k := |ypred|;
    Evaluation.ConstantNoSpread([t]);
    var e := Residuals(Stretch(ypred, k), Stretch([t], k));
    if forall i :: 0 <= i < k ==> ypred[i] == t {
      Evaluation.ZeroDot(e);
    } else {
      var i :| 0 <= i < k && ypred[i] != t;
      Evaluation.DotSelfNonNegative(e);
      if Evaluation.Dot(e, e) == 0.0 {
        Evaluation.DeviationsZero(e, i);
        assert false;
      }
    }
  }

  /** The base class cannot score: its `predict` raises first. */
  lemma BaseRsquareRaises(target: seq<real>)
    ensures Rsquare(BaseOperation(Predict), target) == Err(NotImplementedError)
  {
  }

  predicate Constant(t: seq<real>)
  {
    forall i :: 0 <= i < |t| ==> t[i] == t[0]
  }

  /** The score is a finite number exactly when the target is not constant. */
  lemma RsquareFinite(ypred: seq<real>, target: seq<real>)
    requires |ypred| == |target| > 0
    ensures Rsquare(Ok(ypred), target).value.Finite? <==> !Constant(target)
  {
    if Constant(target) {
      Evaluation.ConstantNoSpread(target);
    } else {
      var i :| 0 <= i < |target| && target[i] != target[0];
      Evaluation.SpreadPositive(target, i, 0);
    }
  }

  /** r² is at most 1. */
  lemma RsquareAtMostOne(ypred: seq<real>, target: seq<real>)
    requires |ypred| == |target| > 0
    requires Rsquare(Ok(ypred), target).value.Finite?
    ensures Rsquare(Ok(ypred), target).value.value <= 1.0
  {
    var e := Residuals(ypred, target);
    Evaluation.DotSelfNonNegative(e);
    var sse := Evaluation.Dot(e, e);
    var sst := Evaluation.SquaredDeviations(target);
    assert sse / sst >= 0.0;
  }

  /** Predicting the target exactly scores 1. */
  lemma RsquarePerfect(target: seq<real>)
    requires |target| > 0 && !Constant(target)
    ensures Rsquare(Ok(target), target) == Ok(Finite(1.0))
  {
    RsquareFinite(target, target);
    var e := Residuals(target, target);
    Evaluation.ZeroDot(e);
  }

  /** Predicting the mean of the target everywhere scores 0. */
  lemma RsquareOfMean(target: seq<real>)
    requires |target| > 0 && !Constant(target)
    ensures Rsquare(Ok(seq(|target|, _ => Mean(target))), target) == Ok(Finite(0.0))
  {
    var ypred := seq(|target|, _ => Mean(target));
    RsquareFinite(ypred, target);
    var d := Evaluation.Deviations(target);
    var e := Residuals(ypred, target);
    assert e == Evaluation.Negate(d);
    Evaluation.DotNegate(e, d);
    Evaluation.DotSymmetric(e, d);
    Evaluation.DotNegate(d, d);
    var sst := Evaluation.SquaredDeviations(target);
    assert Evaluation.Dot(e, e) == sst;
    assert sst > 0.0;
    assert sst / sst == 1.0;
  }

  /** On a constant target the score is NaN when the prediction is exact and minus infinity otherwise. */
  lemma RsquareConstantTarget(ypred: seq<real>, target: seq<real>)
    requires |ypred| == |target| > 0 && Constant(target)
    ensures Rsquare(Ok(ypred), target) == (if ypred == target then Ok(NaN) else Ok(NegInfinity))
  {
    Evaluation.ConstantNoSpread(target);
    var e := Residuals(ypred, target);
    if ypred == target {
      Evaluation.ZeroDot(e);
    } else {
      var i :| 0 <= i < |ypred| && ypred[i] != target[i];
      Evaluation.DotSelfNonNegative(e);
      if Evaluation.Dot(e, e) == 0.0 {
        Evaluation.DeviationsZero(e, i);
        assert false;
      }
    }
  }

  // ---------------------------------------------------------------------
  // Data frames and the one-hot encoding of a categorical feature.
  // ---------------------------------------------------------------------

  /** A cell of a data frame. */
  datatype Cell = Int(i: int) | Str(s: string)

  /** Python's `str()` of a cell, as an f-string or a dummy column label writes it. */
  function CellText(c: Cell): string
  {
    match c
    case Str(s) => s
    case Int(i) => if i < 0 then "-" + NatToString(-i) else NatToString(i)
  }

  /** `f"{name}_{value}"`, the label of the dummy column for one value. */
  function Label(name: string, v: Cell): (l: string)
    ensures |l| > |name|
  {
    name + "_" + CellText(v)
  }

  lemma LabelInjective(name: string, a: Cell, b: Cell)
    requires Label(name, a) == Label(name, b)
    ensures CellText(a) == CellText(b)
  {
    assert CellText(a) == Label(name, a)[|name| + 1..];
    assert CellText(b) == Label(name, b)[|name| + 1..];
  }

  function Labels(name: string, values: seq<Cell>): (ls: seq<string>)
    ensures |ls| == |values| && forall i :: 0 <= i < |values| ==> ls[i] == Label(name, values[i])
  {
    seq(|values|, i requires 0 <= i < |values| => Label(name, values[i]))
  }

  predicate Distinct(cols: seq<string>)
  {
    forall i, j :: 0 <= i < j < |cols| ==> cols[i] != cols[j]
  }

  /** `frame[label] = ...` keeps an existing column in its place and appends a new one. */
  function AddColumn(cols: seq<string>, lbl: string): (r: seq<string>)
    ensures forall c :: c in r <==> c in cols || c == lbl
    ensures Distinct(cols) ==> Distinct(r)
  {
    if lbl in cols then cols else cols + [lbl]
  }

  function AddColumns(cols: seq<string>, labels: seq<string>): (r: seq<string>)
    ensures forall c :: c in r <==> c in cols || c in labels
    ensures Distinct(cols) ==> Distinct(r)
  {
    if labels == [] then cols
    else AddColumn(AddColumns(cols, labels[..|labels| - 1]), labels[|labels| - 1])
  }

  /** The column labels without `lbl`, in order. */
  function Remove(cols: seq<string>, lbl: string): (r: seq<string>)
    ensures forall c :: c in r <==> c in cols && c != lbl
  {
    if cols == [] then []
    else Remove(cols[..|cols| - 1], lbl) + (if cols[|cols| - 1] == lbl then [] else [cols[|cols| - 1]])
  }

  lemma {:induction false} RemoveDistinct(cols: seq<string>, lbl: string)
    requires Distinct(cols)
    ensures Distinct(Remove(cols, lbl))
  {
    if cols != [] {
      var init, x := cols[..|cols| - 1], cols[|cols| - 1];
      RemoveDistinct(init, lbl);
      var r0 := Remove(init, lbl);
      assert x !in init;
      if x != lbl {
        var r := r0 + [x];
        forall i, j | 0 <= i < j < |r|
          ensures r[i] != r[j]
        {
          if j == |r| - 1 {
            assert r[i] in r0;
          }
        }
      }
    }
  }

  function Repeat(c: Cell, n: nat): (r: seq<Cell>)
    ensures |r| == n && forall i :: 0 <= i < n ==> r[i] == c
  {
    seq(n, _ => c)
  }

  /** The columns `frame[lbl] = 0` creates for every lbl, `height` rows each. */
  function ZeroColumns(labels: seq<string>, height: nat): (z: map<string, seq<Cell>>)
    ensures forall l :: l in z <==> l in labels
    ensures forall l :: l in z ==> z[l] == Repeat(Int(0), height)
  {
    if labels == [] then map[]
    else ZeroColumns(labels[..|labels| - 1], height)[labels[|labels| - 1] := Repeat(Int(0), height)]
  }

  /** The labels of the values present in a column. */
  function DummyLabels(col: seq<Cell>, name: string): set<string>
  {
    set r | 0 <= r < |col| :: Label(name, col[r])
  }

  /** `pd.get_dummies(column, prefix=name)`: one 0/1 column per value present in the column. */
  function Dummies(col: seq<Cell>, name: string): (d: map<string, seq<Cell>>)
    ensures forall l :: l in d ==> |d[l]| == |col|
  {
    map l | l in DummyLabels(col, name) ::
      seq(|col|, r requires 0 <= r < |col| => if Label(name, col[r]) == l then Int(1) else Int(0))
  }

  /** `frame.update(other)`: columns the frame has take `other`'s values; the rest of `other` is ignored. */
  function Overwrite(data: map<string, seq<Cell>>, other: map<string, seq<Cell>>): (r: map<string, seq<Cell>>)
    ensures r.Keys == data.Keys
  {
    map c | c in data :: if c in other then other[c] else data[c]
  }

  /** The columns of the frame `_encode_categorical_features` returns. */
  function EncodedColumns(cols: seq<string>, name: string, values: seq<Cell>): seq<string>
  {
    Remove(AddColumns(cols, Labels(name, values)), name)
  }

  /** The caller's frame after the zero columns and the update, before the drop. */
  function EncodedInPlace(data: map<string, seq<Cell>>, name: string, values: seq<Cell>, height: nat): map<string, seq<Cell>>
    requires name in data
  {
    Overwrite(data + ZeroColumns(Labels(name, values), height), Dummies(data[name], name))
  }

  /** The data of the frame `_encode_categorical_features` returns. */
  function EncodedData(data: map<string, seq<Cell>>, name: string, values: seq<Cell>, height: nat): (d: map<string, seq<Cell>>)
    requires name in data
    ensures forall l :: l in d <==> (l in data || l in Labels(name, values)) && l != name
  {
    EncodedInPlace(data, name, values, height) - {name}
  }

  /** A data frame, updated in place by column assignment and `update`. */
  class Frame {
    var columns: seq<string>
    var data: map<string, seq<Cell>>
    var height: nat

    ghost predicate Valid()
      reads this
    {
      Distinct(columns) &&
      (forall c :: c in data <==> c in columns) &&
      (forall c :: c in data ==> |data[c]| == height)
    }

    constructor(columns: seq<string>, data: map<string, seq<Cell>>, height: nat)
      requires Distinct(columns) && (forall c :: c in data <==> c in columns)
      requires forall c :: c in data ==> |data[c]| == height
      ensures Valid()
      ensures this.columns == columns && this.data == data && this.height == height
    {
      this.columns := columns;
      this.data := data;
      this.height := height;
    }

    /** `frame[lbl] = value`: every row of that column gets the value. */
    method SetConstant(lbl: string, value: Cell)
      requires Valid()
      modifies this
      ensures Valid() && height == old(height)
      ensures columns == AddColumn(old(columns), lbl)
      ensures data == old(data)[lbl := Repeat(value, old(height))]
    {
      if lbl !in columns {
        columns := columns + [lbl];
      }
      data := data[lbl := Repeat(value, height)];
    }

    /** `frame.update(other)` with an `other` over the same rows and without missing values. */
    method Update(other: map<string, seq<Cell>>)
      requires Valid() && forall c :: c in other ==> |other[c]| == height
      modifies this
      ensures Valid() && columns == old(columns) && height == old(height)
      ensures data == Overwrite(old(data), other)
    {
      data := Overwrite(data, other);
    }

    /** `frame.drop(lbl, axis=1)`: a new frame without that column. */
    method Drop(lbl: string) returns (r: Result<Frame, ModelError>)
      requires Valid()
      ensures lbl !in columns ==> r == Err(KeyError(lbl))
      ensures lbl in columns ==> r.Ok?
      ensures r.Ok? ==> fresh(r.value) && r.value.Valid() && r.value.height == height
      ensures r.Ok? ==> r.value.columns == Remove(columns, lbl) && r.value.data == data - {lbl}
    {
      if lbl !in columns {
        return Err(KeyError(lbl));
      }
      RemoveDistinct(columns, lbl);
      var f := new Frame(Remove(columns, lbl), data - {lbl}, height);
      return Ok(f);
    }
  }

  /**
   * `Model._encode_categorical_features`: a zero column `{name}_{v}` for
   * every possible value v, in order, set on the caller's frame; the
   * dummies of the `name` column written over the columns that exist; then
   * a new frame without `name`. A missing `name` column raises after the
   * zero columns have been added.
   */
  method EncodeCategoricalFeatures(features: Frame, name: string, values: seq<Cell>) returns (r: Result<Frame, ModelError>)
    requires features.Valid()
    modifies features
    ensures features.Valid() && features.height == old(features.height)
    ensures features.columns == AddColumns(old(features.columns), Labels(name, values))
    ensures name !in old(features.columns) <==> r == Err(KeyError(name))
    ensures r.Err? ==> features.data == old(features.data) + ZeroColumns(Labels(name, values), old(features.height))
    ensures r.Ok? ==> (name in old(features.data) &&
      features.data == EncodedInPlace(old(features.data), name, values, old(features.height)))
    ensures r.Ok? ==> (fresh(r.value) && r.value.Valid() &&
      r.value.columns == EncodedColumns(old(features.columns), name, values) &&
      r.value.data == EncodedData(old(features.data), name, values, old(features.height)))
  {
    var labels := Labels(name, values);
    ghost var d0 := features.data;
    AddZeroColumns(features, labels);
    assert name !in labels;
    if name !in features.columns {
      return Err(KeyError(name));
    }
    ZeroColumnsKeepName(d0, labels, features.height, name);
    features.Update(Dummies(features.data[name], name));
    r := features.Drop(name);
  }

  /** `frame[lbl] = 0` for every label in turn. */
  method AddZeroColumns(features: Frame, labels: seq<string>)
    requires features.Valid()
    modifies features
    ensures features.Valid() && features.height == old(features.height)
    ensures features.columns == AddColumns(old(features.columns), labels)
    ensures features.data == old(features.data) + ZeroColumns(labels, old(features.height))
  {
    ghost var d0, c0, h := features.data, features.columns, features.height;
    var i := 0;
    assert labels[..0] == [];
    assert d0 + ZeroColumns([], h) == d0;
    while i < |labels|
      invariant 0 <= i <= |labels|
      invariant features.Valid() && features.height == h
      invariant features.columns == AddColumns(c0, labels[..i])
      invariant features.data == d0 + ZeroColumns(labels[..i], h)
    {
      ghost var before := features.data;
      features.SetConstant(labels[i], Int(0));
      assert features.data == before[labels[i] := Repeat(Int(0), h)];
      ZeroColumnsStep(d0, labels, i, h);
      assert labels[..i + 1][..i] == labels[..i];
      i := i + 1;
    }
    assert labels[..i] == labels;
  }

  lemma ZeroColumnsStep(data: map<string, seq<Cell>>, labels: seq<string>, i: nat, h: nat)
    requires i < |labels|
    ensures (data + ZeroColumns(labels[..i], h))[labels[i] := Repeat(Int(0), h)] == data + ZeroColumns(labels[..i + 1], h)
  {
    assert labels[..i + 1] == labels[..i] + [labels[i]];
    var z, z' := ZeroColumns(labels[..i], h), ZeroColumns(labels[..i + 1], h);
    assert z' == z[labels[i] := Repeat(Int(0), h)];
  }

  /** The zero columns are all dummy labels, so they leave the `name` column alone. */
  lemma ZeroColumnsKeepName(data: map<string, seq<Cell>>, labels: seq<string>, h: nat, name: string)
    requires name in data && name !in labels
    ensures name in data + ZeroColumns(labels, h)
    ensures (data + ZeroColumns(labels, h))[name] == data[name]
  {
  }

  /** Every dummy column of a value holds 1 exactly on the rows with that value. */
  lemma OneHot(data: map<string, seq<Cell>>, name: string, values: seq<Cell>, height: nat, v: Cell, r: nat)
    requires name in data && |data[name]| == height
    requires v in values && r < height
    ensures Label(name, v) in EncodedData(data, name, values, height)
    ensures EncodedData(data, name, values, height)[Label(name, v)] ==
      EncodedInPlace(data, name, values, height)[Label(name, v)]
    ensures |EncodedData(data, name, values, height)[Label(name, v)]| == height
    ensures EncodedData(data, name, values, height)[Label(name, v)][r] ==
      (if CellText(data[name][r]) == CellText(v) then Int(1) else Int(0))
  {
    var l := Label(name, v);
    var col := data[name];
    var dummies := Dummies(col, name);
    assert l in Labels(name, values);
    assert l != name;
    if l in dummies {
      if Label(name, col[r]) == l {
        LabelInjective(name, col[r], v);
      }
    } else {
      assert Label(name, col[r]) != l;
    }
    if CellText(col[r]) == CellText(v) {
      assert Label(name, col[r]) == l;
    }
  }

  /** A value that is not among the possible values leaves its row all zeros. */
  lemma UnknownValueAllZero(data: map<string, seq<Cell>>, name: string, values: seq<Cell>, height: nat, r: nat)
    requires name in data && |data[name]| == height && r < height
    requires forall v :: v in values ==> CellText(v) != CellText(data[name][r])
    ensures forall v :: v in values ==> EncodedData(data, name, values, height)[Label(name, v)][r] == Int(0)
  {
    forall v | v in values
      ensures Label(name, v) in EncodedData(data, name, values, height)
      ensures |EncodedData(data, name, values, height)[Label(name, v)]| == height
      ensures EncodedData(data, name, values, height)[Label(name, v)][r] == Int(0)
    {
      OneHot(data, name, values, height, v, r);
    }
  }

  /** The encoded frame no longer has the `name` column. */
  lemma NameDropped(cols: seq<string>, data: map<string, seq<Cell>>, name: string, values: seq<Cell>, height: nat)
    requires name in data
    ensures name !in EncodedColumns(cols, name, values)
    ensures name !in EncodedData(data, name, values, height)
  {
  }

  /** Labels not already in the frame are appended in the order of the values. */
  lemma {:induction false} AddFreshColumns(cols: seq<string>, labels: seq<string>)
    requires Distinct(labels) && forall l :: l in labels ==> l !in cols
    ensures AddColumns(cols, labels) == cols + labels
  {
    if labels != [] {
      var init := labels[..|labels| - 1];
      assert Distinct(init);
      AddFreshColumns(cols, init);
      assert labels[|labels| - 1] !in init;
      assert init + [labels[|labels| - 1]] == labels;
    }
  }

  lemma {:induction false} RemoveAbsent(cols: seq<string>, lbl: string)
    requires lbl !in cols
    ensures Remove(cols, lbl) == cols
  {
    if cols != [] {
      RemoveAbsent(cols[..|cols| - 1], lbl);
      assert cols[..|cols| - 1] + [cols[|cols| - 1]] == cols;
    }
  }

  lemma {:induction false} RemoveAppend(a: seq<string>, b: seq<string>, lbl: string)
    ensures Remove(a + b, lbl) == Remove(a, lbl) + Remove(b, lbl)
  {
    if b == [] {
      assert a + b == a;
    } else {
      var init := b[..|b| - 1];
      assert (a + b)[..|a + b| - 1] == a + init;
      RemoveAppend(a, init, lbl);
    }
  }

  /**
   * A frame holding only the `name` column gets exactly the dummy columns,
   * in the order of the distinct possible values.
   */
  lemma EncodedColumnsOrder(name: string, values: seq<Cell>)
    requires forall i, j :: 0 <= i < j < |values| ==> CellText(values[i]) != CellText(values[j])
    ensures EncodedColumns([name], name, values) == Labels(name, values)
  {
    var labels := Labels(name, values);
    forall i, j | 0 <= i < j < |labels|
      ensures labels[i] != labels[j]
    {
      if labels[i] == labels[j] {
        LabelInjective(name, values[i], values[j]);
      }
    }
    AddFreshColumns([name], labels);
    RemoveAppend([name], labels, name);
    RemoveAbsent(labels, name);
  }

  /**
   * The repository's example with any three distinct instruction names
   * (STR, LDR, ADD there): a column holding STR, STR, ADD over the
   * possible values STR, LDR, ADD.
   */
  lemma EncodeExample(name: string, str: string, ldr: string, add: string, data: map<string, seq<Cell>>)
    requires str != ldr && str != add && ldr != add
    requires data == map[name := [Str(str), Str(str), Str(add)]]
    ensures EncodedColumns([name], name, [Str(str), Str(ldr), Str(add)]) ==
      [Label(name, Str(str)), Label(name, Str(ldr)), Label(name, Str(add))]
    ensures var e := EncodedData(data, name, [Str(str), Str(ldr), Str(add)], 3);
      Label(name, Str(str)) in e && e[Label(name, Str(str))] == [Int(1), Int(1), Int(0)] &&
      Label(name, Str(ldr)) in e && e[Label(name, Str(ldr))] == [Int(0), Int(0), Int(0)] &&
      Label(name, Str(add)) in e && e[Label(name, Str(add))] == [Int(0), Int(0), Int(1)]
  {
    var values := [Str(str), Str(ldr), Str(add)];
    assert Labels(name, values) == [Label(name, values[0]), Label(name, values[1]), Label(name, values[2])];
    EncodedColumnsOrder(name, values);
    ExampleColumn(data, name, values, Str(str), [Int(1), Int(1), Int(0)]);
    ExampleColumn(data, name, values, Str(ldr), [Int(0), Int(0), Int(0)]);
    ExampleColumn(data, name, values, Str(add), [Int(0), Int(0), Int(1)]);
  }

  lemma ExampleColumn(data: map<string, seq<Cell>>, name: string, values: seq<Cell>, v: Cell, expected: seq<Cell>)
    requires name in data && |data[name]| == 3 == |expected| && v in values
    requires expected[0] == (if CellText(data[name][0]) == CellText(v) then Int(1) else Int(0))
    requires expected[1] == (if CellText(data[name][1]) == CellText(v) then Int(1) else Int(0))
    requires expected[2] == (if CellText(data[name][2]) == CellText(v) then Int(1) else Int(0))
    ensures Label(name, v) in EncodedData(data, name, values, 3)
    ensures EncodedData(data, name, values, 3)[Label(name, v)] == expected
  {
    OneHot(data, name, values, 3, v, 0);
    var col := EncodedData(data, name, values, 3)[Label(name, v)];
    forall r | 0 <= r < 3
      ensures col[r] == expected[r]
    {
      assert r == 0 || r == 1 || r == 2;
      OneHot(data, name, values, 3, v, r);
    }
  }
}
