/**
 * Dataset building (docs/scripts/build_dataset.py): a simulated instruction
 * trace is annotated with the power samples of an acquisition that Dynamic
 * Time Warping aligned with it, rows that were never matched are dropped,
 * and acquisitions are paired with simulations by sorted file name.
 *
 * The warping path is an input: `xs[i]` is the acquisition index and
 * `ys[i]` the simulation index of step i (`alignment.index1` and
 * `alignment.index2`). The simulation frame is read from CSV, so its row
 * labels are the positions 0, 1, ...; `row.name` is the row's position.
 */
module BuildDataset {
  import opened Common

  /** A CSV field of the simulation: text, a number, or missing (NaN to pandas). */
  datatype Cell = Text(text: string) | Number(value: real) | Missing

  /** One simulated instruction: its other columns, then its `nb_cycles` and `power` columns. */
  datatype SimRow = SimRow(features: seq<Cell>, nbCycles: Cell, power: Cell)

  /** A row of the annotated frame; `None` is the NaN power a row starts with. */
  datatype Row = Row(features: seq<Cell>, nbCycles: nat, power: Option<real>)

  /**
   * The reference series given to DTW and the rows it came from: one power
   * value per simulation row, whatever the row's `nb_cycles`.
   */
  method ReferenceTrace(simulation: seq<SimRow>) returns (trace: seq<Cell>, rows: seq<SimRow>)
    ensures |trace| == |simulation|
    ensures forall i :: 0 <= i < |simulation| ==> trace[i] == simulation[i].power
    ensures rows == simulation
  {
    trace, rows := [], [];
    var i := 0;
    while i < |simulation|
      invariant 0 <= i <= |simulation|
      invariant |trace| == i && forall k :: 0 <= k < i ==> trace[k] == simulation[k].power
      invariant rows == simulation[..i]
    {
      trace := trace + [simulation[i].power];
      rows := rows + [simulation[i]];
      i := i + 1;
    }
  }

  // ---------------------------------------------------------------------
  // What the annotation loop computes, defined over the warping path.
  // ---------------------------------------------------------------------

  /** Every step of the path indexes the acquisition and the simulation. */
  predicate PathInRange(xs: seq<nat>, ys: seq<nat>, samples: nat, rows: nat)
  {
    |xs| == |ys| && forall i :: 0 <= i < |xs| ==> xs[i] < samples && ys[i] < rows
  }

  /** Step i starts a run of simulation row j: it is on j and the previous step was not. */
  predicate RunStart(ys: seq<nat>, i: nat, j: nat)
    requires i < |ys|
  {
    ys[i] == j && (i == 0 || ys[i - 1] != j)
  }

  /** Number of steps among the first k that stay on row j after a step on row j. */
  function Repeats(ys: seq<nat>, k: nat, j: nat): (c: nat)
    requires k <= |ys|
    ensures c <= k
  {
    if k <= 1 then 0 else Repeats(ys, k - 1, j) + (if ys[k - 1] == j && ys[k - 2] == j then 1 else 0)
  }

  /** The last step among the first k that starts a run of row j, if any. */
  function LastRunStart(ys: seq<nat>, k: nat, j: nat): (s: Option<nat>)
    requires k <= |ys|
    ensures s.Some? ==> s.value < k && RunStart(ys, s.value, j)
    ensures s.Some? ==> forall i :: s.value < i < k ==> !RunStart(ys, i, j)
    ensures s.None? ==> forall i :: 0 <= i < k ==> !RunStart(ys, i, j)
  {
    if k == 0 then None
    else if RunStart(ys, k - 1, j) then Some(k - 1)
    else LastRunStart(ys, k - 1, j)
  }

  /** The acquisition sample of a path step, NaN when there is none. */
  function SampleAt(acquisition: seq<real>, xs: seq<nat>, step: Option<nat>): Option<real>
    requires step.Some? ==> step.value < |xs| && xs[step.value] < |acquisition|
  {
    match step
    case None => None
    case Some(i) => Some(acquisition[xs[i]])
  }

  /** The annotated frame: row j counts one cycle plus its repeats, and holds the sample of its last run start. */
  function Annotated(simulation: seq<SimRow>, acquisition: seq<real>, xs: seq<nat>, ys: seq<nat>): (rows: seq<Row>)
    requires PathInRange(xs, ys, |acquisition|, |simulation|)
    ensures |rows| == |simulation|
  {
    seq(|simulation|, j requires 0 <= j < |simulation| =>
      Row(simulation[j].features, 1 + Repeats(ys, |ys|, j), SampleAt(acquisition, xs, LastRunStart(ys, |ys|, j))))
  }

  /**
   * The annotation loop: cells `nb_cycles` and `power` of the frame are
   * updated in place as the path is walked. The `last_n == row.name` guard
   * is dead: `last_n` always equals `last_index1`, and the guard is only
   * reached with a row different from `last_index1`.
   */
  method Annotate(acquisition: seq<real>, n: nat, xs: seq<nat>, ys: seq<nat>) returns (cycles: seq<nat>, power: seq<Option<real>>)
    requires PathInRange(xs, ys, |acquisition|, n)
    ensures |cycles| == n && |power| == n
    ensures forall j :: 0 <= j < n ==> cycles[j] == 1 + Repeats(ys, |ys|, j)
    ensures forall j :: 0 <= j < n ==> power[j] == SampleAt(acquisition, xs, LastRunStart(ys, |ys|, j))
  {
    var nbCycles := new nat[n](_ => 1);
    var pow := new Option<real>[n](_ => None);
    var lastIndex: int := -1;
    var lastN: int := -1;
    var i := 0;
    while i < |xs|
      invariant 0 <= i <= |xs|
      invariant lastIndex == (if i == 0 then -1 else ys[i - 1])
      invariant lastN == lastIndex
      invariant forall j :: 0 <= j < n ==> nbCycles[j] == 1 + Repeats(ys, i, j)
      invariant forall j :: 0 <= j < n ==> pow[j] == SampleAt(acquisition, xs, LastRunStart(ys, i, j))
    {
      var x, index := xs[i], ys[i];
      if index != lastIndex {
        lastIndex := index;
      } else {
        // a further cycle of the previous instruction
        nbCycles[index] := nbCycles[index] + 1;
        i := i + 1;
        continue;
      }
      if lastN == index {
        assert false;
      }
      lastN := index;
      pow[index] := Some(acquisition[x]);
      i := i + 1;
    }
    cycles, power := nbCycles[..], pow[..];
  }

  // ---------------------------------------------------------------------
  // `dropna`: rows with NaN in any column go, the others keep their order.
  // ---------------------------------------------------------------------

  predicate Complete(r: Row)
  {
    r.power.Some? && forall k :: 0 <= k < |r.features| ==> r.features[k] != Missing
  }

  function DropNa(rows: seq<Row>): (r: seq<Row>)
    ensures |r| <= |rows|
  {
    if rows == [] then []
    else
      var rest := DropNa(rows[..|rows| - 1]);
      var last := rows[|rows| - 1];
      if Complete(last) then rest + [last] else rest
  }

  /** `dropna` keeps exactly the rows without NaN. */
  lemma {:induction false} DropNaMembers(rows: seq<Row>, x: Row)
    ensures x in DropNa(rows) <==> x in rows && Complete(x)
  {
    if rows != [] {
      DropNaMembers(rows[..|rows| - 1], x);
      assert rows == rows[..|rows| - 1] + [rows[|rows| - 1]];
    }
  }

  lemma {:induction false} DropNaAppend(a: seq<Row>, b: seq<Row>)
    ensures DropNa(a + b) == DropNa(a) + DropNa(b)
    decreases |b|
  {
    if b == [] {
      assert a + b == a;
    } else {
      assert (a + b)[..|a + b| - 1] == a + b[..|b| - 1];
      DropNaAppend(a, b[..|b| - 1]);
    }
  }

  lemma DropNaSingle(r: Row)
    ensures DropNa([r]) == if Complete(r) then [r] else []
  {
    assert [r][..0] == [];
  }

  /** `dropna` of a frame cut in two at row j. */
  lemma DropNaSplit(rows: seq<Row>, j: nat)
    requires j <= |rows|
    ensures DropNa(rows) == DropNa(rows[..j]) + DropNa(rows[j..])
  {
    assert rows == rows[..j] + rows[j..];
    DropNaAppend(rows[..j], rows[j..]);
  }

  /** `dropna` of a frame with its first row taken apart. */
  lemma DropNaFirst(rows: seq<Row>)
    requires rows != []
    ensures DropNa(rows) == DropNa([rows[0]]) + DropNa(rows[1..])
  {
    assert rows == [rows[0]] + rows[1..];
    DropNaAppend([rows[0]], rows[1..]);
  }

  /** `dropna` of a frame split around row j. */
  lemma DropNaAround(rows: seq<Row>, j: nat)
    requires j < |rows|
    ensures DropNa(rows) == DropNa(rows[..j]) + DropNa([rows[j]]) + DropNa(rows[j + 1..])
  {
    DropNaSplit(rows, j);
    DropNaFirst(rows[j..]);
    assert rows[j..][1..] == rows[j + 1..];
  }

  /** A row with a NaN is removed and the rows around it keep their order. */
  lemma DropNaRemoves(rows: seq<Row>, j: nat)
    requires j < |rows| && !Complete(rows[j])
    ensures DropNa(rows) == DropNa(rows[..j]) + DropNa(rows[j + 1..])
  {
    var r := rows[j];
    DropNaAround(rows, j);
    DropNaSingle(r);
  }

  /** A row without NaN is kept, in its place. */
  lemma DropNaKeeps(rows: seq<Row>, j: nat)
    requires j < |rows| && Complete(rows[j])
    ensures DropNa(rows) == DropNa(rows[..j]) + [rows[j]] + DropNa(rows[j + 1..])
  {
    var r := rows[j];
    DropNaAround(rows, j);
    DropNaSingle(r);
  }

  /**
   * `acquisition_simulation_to_dataset` without the DTW call and the file
   * I/O: annotate the simulation rows along the path and drop NaN rows.
   */
  method AcquisitionSimulationToDataset(acquisition: seq<real>, simulation: seq<SimRow>, xs: seq<nat>, ys: seq<nat>)
    returns (trace: seq<Cell>, dataset: seq<Row>)
    requires PathInRange(xs, ys, |acquisition|, |simulation|)
    ensures |trace| == |simulation| && forall i :: 0 <= i < |simulation| ==> trace[i] == simulation[i].power
    ensures dataset == DropNa(Annotated(simulation, acquisition, xs, ys))
  {
    var rows;
    trace, rows := ReferenceTrace(simulation);
    var cycles, power := Annotate(acquisition, |simulation|, xs, ys);
    var frame := seq(|simulation|, j requires 0 <= j < |simulation| => Row(simulation[j].features, cycles[j], power[j]));
    assert frame == Annotated(simulation, acquisition, xs, ys);
    dataset := DropNa(frame);
  }

  // ---------------------------------------------------------------------
  // What the annotation means for one simulation row.
  // ---------------------------------------------------------------------

  /** The steps on row j are exactly those of [a, b). */
  predicate OneRun(ys: seq<nat>, j: nat, a: nat, b: nat)
  {
    a < b <= |ys| && forall i :: 0 <= i < |ys| ==> (ys[i] == j <==> a <= i < b)
  }

  lemma {:induction false} RepeatsOfRun(ys: seq<nat>, j: nat, a: nat, b: nat, k: nat)
    requires OneRun(ys, j, a, b) && k <= |ys|
    ensures Repeats(ys, k, j) == if k <= a + 1 then 0 else if k <= b then k - a - 1 else b - a - 1
  {
    if k > 1 {
      RepeatsOfRun(ys, j, a, b, k - 1);
    }
  }

  /**
   * When the path visits row j in one contiguous run of steps [a, b), the
   * row holds b - a cycles and the acquisition sample of the run's first step.
   */
  lemma AnnotatedRun(simulation: seq<SimRow>, acquisition: seq<real>, xs: seq<nat>, ys: seq<nat>, j: nat, a: nat, b: nat)
    requires PathInRange(xs, ys, |acquisition|, |simulation|) && j < |simulation|
    requires OneRun(ys, j, a, b)
    ensures Annotated(simulation, acquisition, xs, ys)[j] == Row(simulation[j].features, b - a, Some(acquisition[xs[a]]))
  {
    RepeatsOfRun(ys, j, a, b, |ys|);
    assert RunStart(ys, a, j);
    var s := LastRunStart(ys, |ys|, j);
    assert forall i :: 0 <= i < |ys| && i != a ==> !RunStart(ys, i, j);
  }

  lemma {:induction false} RepeatsUnvisited(ys: seq<nat>, j: nat, k: nat)
    requires k <= |ys| && forall i :: 0 <= i < |ys| ==> ys[i] != j
    ensures Repeats(ys, k, j) == 0
  {
    if k > 1 {
      RepeatsUnvisited(ys, j, k - 1);
    }
  }

  /** A row the path never visits keeps one cycle and NaN power, so `dropna` removes it. */
  lemma UnvisitedDropped(simulation: seq<SimRow>, acquisition: seq<real>, xs: seq<nat>, ys: seq<nat>, j: nat)
    requires PathInRange(xs, ys, |acquisition|, |simulation|) && j < |simulation|
    requires forall i :: 0 <= i < |ys| ==> ys[i] != j
    ensures var rows := Annotated(simulation, acquisition, xs, ys);
      rows[j] == Row(simulation[j].features, 1, None) &&
      DropNa(rows) == DropNa(rows[..j]) + DropNa(rows[j + 1..])
  {
    RepeatsUnvisited(ys, j, |ys|);
    DropNaRemoves(Annotated(simulation, acquisition, xs, ys), j);
  }

  // ---------------------------------------------------------------------
  // Pairing of acquisition and simulation files in `main`.
  // ---------------------------------------------------------------------

  /** Python's string order: code point by code point, a proper prefix first. */
  predicate StrLe(a: string, b: string)
  {
    a == [] || (b != [] && (a[0] < b[0] || (a[0] == b[0] && StrLe(a[1..], b[1..]))))
  }

  lemma {:induction false} StrLeTotal(a: string, b: string)
    ensures StrLe(a, b) || StrLe(b, a)
  {
    if a != [] && b != [] && a[0] == b[0] {
      StrLeTotal(a[1..], b[1..]);
    }
  }

  lemma {:induction false} StrLeTransitive(a: string, b: string, c: string)
    requires StrLe(a, b) && StrLe(b, c)
    ensures StrLe(a, c)
  {
    if a != [] && b != [] && c != [] && a[0] == b[0] == c[0] {
      StrLeTransitive(a[1..], b[1..], c[1..]);
    }
  }

  predicate Sorted(s: seq<string>)
  {
    forall i, k :: 0 <= i < k < |s| ==> StrLe(s[i], s[k])
  }

  /** A name no greater than the first of a sorted list can go in front of it. */
  lemma SortedFront(x: string, s: seq<string>)
    requires Sorted(s) && s != [] && StrLe(x, s[0])
    ensures Sorted([x] + s)
  {
    forall k | 0 < k < |s| ensures StrLe(x, s[k]) {
      StrLeTransitive(x, s[0], s[k]);
    }
  }

  /** The first name of a sorted list goes in front of the rest with another name, greater than it, inserted. */
  lemma SortedBehind(x: string, s: seq<string>, rest: seq<string>)
    requires Sorted(s) && s != [] && !StrLe(x, s[0])
    requires Sorted(rest) && multiset(rest) == multiset(s[1..]) + multiset{x}
    ensures Sorted([s[0]] + rest) && multiset([s[0]] + rest) == multiset(s) + multiset{x}
  {
    StrLeTotal(x, s[0]);
    assert s == [s[0]] + s[1..];
    forall k | 0 <= k < |rest| ensures StrLe(s[0], rest[k]) {
      assert rest[k] in multiset(rest);
      if rest[k] != x {
        assert rest[k] in multiset(s[1..]);
        var i :| 0 <= i < |s[1..]| && s[1..][i] == rest[k];
        assert s[i + 1] == rest[k];
      }
    }
  }

  /** Insert a name into a sorted list of names. */
  function Insert(x: string, s: seq<string>): (r: seq<string>)
    requires Sorted(s)
    ensures Sorted(r) && multiset(r) == multiset(s) + multiset{x} && |r| == |s| + 1
  {
    if s == [] then [x]
    else if StrLe(x, s[0]) then
      SortedFront(x, s);
      [x] + s
    else
      var rest := Insert(x, s[1..]);
      SortedBehind(x, s, rest);
      [s[0]] + rest
  }

  /** Python's `sorted` on file names: sorted and a permutation of its input. */
  function SortNames(s: seq<string>): (r: seq<string>)
    ensures Sorted(r) && multiset(r) == multiset(s) && |r| == |s|
  {
    if s == [] then []
    else
      assert s == s[..|s| - 1] + [s[|s| - 1]];
      Insert(s[|s| - 1], SortNames(s[..|s| - 1]))
  }

  /** `pathlib.Path(p).name`: the text after the last '/'. */
  function BaseName(p: string): (name: string)
    ensures forall k :: 0 <= k < |name| ==> name[k] != '/'
    ensures |name| <= |p| && name == p[|p| - |name|..]
  {
    if p == [] || p[|p| - 1] == '/' then []
    else BaseName(p[..|p| - 1]) + [p[|p| - 1]]
  }

  /** One job: the acquisition, the simulation and the output file. */
  datatype Job = Job(acquisition: string, simulation: string, output: string)

  /** `paths` of `main`: the i-th sorted acquisition with the i-th sorted simulation, as far as the shorter list goes. */
  function Pairings(acquisitions: seq<string>, simulations: seq<string>, dest: string): (jobs: seq<Job>)
    ensures |jobs| == MinNat(|acquisitions|, |simulations|)
    ensures var a, s := SortNames(acquisitions), SortNames(simulations);
      forall i :: 0 <= i < |jobs| ==> jobs[i] == Job(a[i], s[i], dest + "/" + BaseName(s[i]))
  {
    var a, s := SortNames(acquisitions), SortNames(simulations);
    seq(MinNat(|a|, |s|), i requires 0 <= i < MinNat(|a|, |s|) => Job(a[i], s[i], dest + "/" + BaseName(s[i])))
  }

  function MinNat(a: nat, b: nat): nat
  {
    if a <= b then a else b
  }

  /** The jobs come in name order: both their acquisitions and their simulations are sorted. */
  lemma PairingsSorted(acquisitions: seq<string>, simulations: seq<string>, dest: string, i: nat, k: nat)
    requires i < k < |Pairings(acquisitions, simulations, dest)|
    ensures var jobs := Pairings(acquisitions, simulations, dest);
      StrLe(jobs[i].acquisition, jobs[k].acquisition) && StrLe(jobs[i].simulation, jobs[k].simulation)
  {
  }
}
