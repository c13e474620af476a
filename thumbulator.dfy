/**
 * `ThumbulatorEmulator.crop_nop` (abby/emulator/thumbulator.py): an
 * execution trace, one row per executed instruction, is cut down to the
 * instructions between the NOP padding that the firmware runs before and
 * after the cipher.
 *
 * The frame comes from `read_csv`, so its index is 0, 1, ..., n - 1 and a
 * row's label is its position; the rows are a sequence.
 */
module Thumbulator {
  import opened Common

  /** The Thumb encoding of NOP (`mov r8, r8`). */
  const Nop: int := 0x46C0

  /** One executed instruction: its opcode and the other columns. */
  datatype ExecRow<T> = ExecRow(opcode: int, fields: T)

  /** `max()` or `min()` of an empty selection of NOP indexes (a `ValueError`). */
  datatype CropError = EmptySequence

  predicate IsNop<T>(rows: seq<ExecRow<T>>, i: int)
  {
    0 <= i < |rows| && rows[i].opcode == Nop
  }

  /** The greatest NOP index below `below`, if there is one. */
  function LastNopBelow<T>(rows: seq<ExecRow<T>>, below: nat): (r: Option<nat>)
    requires below <= |rows|
    ensures r.Some? ==> r.value < below && IsNop(rows, r.value)
    ensures r.Some? ==> forall k :: r.value < k < below ==> !IsNop(rows, k)
    ensures r.None? ==> forall k :: 0 <= k < below ==> !IsNop(rows, k)
    decreases below
  {
    if below == 0 then None
    else if rows[below - 1].opcode == Nop then Some(below - 1)
    else LastNopBelow(rows, below - 1)
  }

  /** The smallest NOP index at or after `from`, if there is one. */
  function FirstNopFrom<T>(rows: seq<ExecRow<T>>, from: nat): (r: Option<nat>)
    ensures r.Some? ==> from <= r.value && IsNop(rows, r.value)
    ensures r.Some? ==> forall k :: from <= k < r.value ==> !IsNop(rows, k)
    ensures r.None? ==> forall k :: from <= k < |rows| ==> !IsNop(rows, k)
    decreases |rows| - from
  {
    if from >= |rows| then None
    else if rows[from].opcode == Nop then Some(from)
    else FirstNopFrom(rows, from + 1)
  }

  /**
   * `crop_nop`: with middle = len // 2, keep the rows strictly between the
   * last NOP before middle and the first NOP after it, re-indexed from 0.
   */
  function CropNop<T>(rows: seq<ExecRow<T>>): (r: Result<seq<ExecRow<T>>, CropError>)
    ensures r.Ok? <==>
      (exists i :: IsNop(rows, i) && i < |rows| / 2) && (exists j :: IsNop(rows, j) && j > |rows| / 2)
  {
    var middle := |rows| / 2;
    var start := LastNopBelow(rows, middle);
    var end := FirstNopFrom(rows, middle + 1);
    if start.None? || end.None? then Err(EmptySequence)
    else Ok(rows[start.value + 1..end.value])
  }

  /** s is the last NOP before the middle and e the first one after it. */
  predicate NopSplit<T>(rows: seq<ExecRow<T>>, s: nat, e: nat)
  {
    s < |rows| / 2 < e && IsNop(rows, s) && IsNop(rows, e) &&
    (forall k :: IsNop(rows, k) && k < |rows| / 2 ==> k <= s) &&
    (forall k :: IsNop(rows, k) && k > |rows| / 2 ==> e <= k)
  }

  /** A successful crop is the slice strictly between the two bounding NOPs. */
  lemma CropNopBounds<T>(rows: seq<ExecRow<T>>) returns (s: nat, e: nat)
    requires CropNop(rows).Ok?
    ensures NopSplit(rows, s, e)
    ensures CropNop(rows).value == rows[s + 1..e]
  {
    s := LastNopBelow(rows, |rows| / 2).value;
    e := FirstNopFrom(rows, |rows| / 2 + 1).value;
  }

  /** A NOP may remain in the result only at the middle row, which counts for neither side. */
  lemma CropNopKeepsNoNop<T>(rows: seq<ExecRow<T>>) returns (s: nat)
    requires CropNop(rows).Ok?
    ensures s < |rows| / 2 && IsNop(rows, s) && s + 1 + |CropNop(rows).value| < |rows|
    ensures forall k :: 0 <= k < |CropNop(rows).value| ==> CropNop(rows).value[k] == rows[s + 1 + k]
    ensures forall k :: 0 <= k < |CropNop(rows).value| ==>
      (CropNop(rows).value[k].opcode == Nop ==> s + 1 + k == |rows| / 2)
  {
    var e;
    s, e := CropNopBounds(rows);
    var r := CropNop(rows).value;
    forall k | 0 <= k < |r| && r[k].opcode == Nop
      ensures s + 1 + k == |rows| / 2
    {
      assert IsNop(rows, s + 1 + k);
    }
  }

  /** The repository's example: [NOP, other, NOP] crops to exactly the middle row. */
  lemma CropNopExample<T>(a: T, b: T, c: T)
    ensures CropNop([ExecRow(Nop, a), ExecRow(0, b), ExecRow(Nop, c)]) == Ok([ExecRow(0, b)])
  {
    var rows := [ExecRow(Nop, a), ExecRow(0, b), ExecRow(Nop, c)];
    assert LastNopBelow(rows, 1) == Some(0);
    assert FirstNopFrom(rows, 2) == Some(2);
    assert rows[1..2] == [ExecRow(0, b)];
  }

  /** `n` NOP rows. */
  predicate AllNop<T>(rows: seq<ExecRow<T>>)
  {
    forall k :: 0 <= k < |rows| ==> rows[k].opcode == Nop
  }

  /**
   * The shape the firmware produces, the same number of NOPs on both sides
   * of a non-empty NOP-free body: the crop returns exactly the body.
   */
  lemma CropNopPadded<T>(pre: seq<ExecRow<T>>, body: seq<ExecRow<T>>, post: seq<ExecRow<T>>)
    requires |pre| == |post| > 0 && |body| > 0
    requires AllNop(pre) && AllNop(post)
    requires forall k :: 0 <= k < |body| ==> body[k].opcode != Nop
    ensures CropNop(pre + body + post) == Ok(body)
  {
    var rows := pre + body + post;
    var n, b := |pre|, |body|;
    assert |rows| / 2 == n + b / 2;
    assert IsNop(rows, n - 1);
    assert IsNop(rows, n + b);
    var s, e := CropNopBounds(rows);
    assert s == n - 1;
    assert e == n + b;
    assert rows[n..n + b] == body;
  }
}
