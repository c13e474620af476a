/**
 * The random assembly generator (abby/firmware/generate.py): each line
 * of the generated file is one Cortex-M0 instruction, a template chosen at
 * random with its operands drawn at random from per-operand ranges.
 *
 * Python's `random` module is replaced by the sequence of numbers it
 * draws: `random.choice(xs)` is `xs[d % |xs|]` and `random.randrange(lo,
 * hi)` is `lo + d % (hi - lo)` for the next number d. Seeding the
 * generator fixes that sequence.
 */
module Generate {
  import opened Common

  /**
   * A piece of an instruction template: literal text, a register operand
   * (`r{opK}`) or an immediate operand (`#{opK}`).
   */
  datatype Piece = Lit(text: string) | Reg(k: Operand) | Imm(k: Operand)

  /** The operands `op1`, `op2` and `op3` of a template. */
  type Operand = k: nat | 1 <= k <= 3 witness 1

  /** The arguments of `random.randrange`: from `lo` up to, not including, `hi`. */
  datatype Range = Range(lo: nat, hi: nat)

  /** An instruction template with the range of each of its three operands. */
  datatype Template = Template(pieces: seq<Piece>, ranges: seq<Range>)

  /** The default range `(256,)`: a byte. */
  const Default := Range(0, 256)

  /** `rand_op(instr, op1_range, op2_range, op3_range)`. */
  function RandOp(pieces: seq<Piece>, r1: Range, r2: Range, r3: Range): (t: Template)
    ensures |t.ranges| == 3
  {
    Template(pieces, [r1, r2, r3])
  }

  // The templates of `possibilities`, named after the mnemonic and the operands.
  const AdcsR1R2 := RandOp([Lit("adcs "), Reg(1), Lit(", "), Reg(2)], Range(1, 8), Range(1, 8), Default)
  const AddR1R1R2 := RandOp([Lit("add "), Reg(1), Lit(", "), Reg(1), Lit(", "), Reg(2)], Range(1, 8), Range(1, 8), Default)
  const AddsR1R1I2 := RandOp([Lit("adds "), Reg(1), Lit(", "), Reg(1), Lit(", "), Imm(2)], Range(1, 8), Range(0, 256), Default)
  const AddsR1R2I3 := RandOp([Lit("adds "), Reg(1), Lit(", "), Reg(2), Lit(", "), Imm(3)], Range(1, 8), Range(1, 8), Range(1, 8))
  const AddsR1R2R3 := RandOp([Lit("adds "), Reg(1), Lit(", "), Reg(2), Lit(", "), Reg(3)], Range(1, 8), Range(1, 8), Range(1, 8))
  const AndsR1R2 := RandOp([Lit("ands "), Reg(1), Lit(", "), Reg(2)], Range(1, 8), Range(1, 8), Default)
  const AsrsR1R2I3 := RandOp([Lit("asrs "), Reg(1), Lit(", "), Reg(2), Lit(", "), Imm(3)], Range(1, 8), Range(1, 8), Range(1, 33))
  const AsrsR1R2 := RandOp([Lit("asrs "), Reg(1), Lit(", "), Reg(2)], Range(1, 8), Range(1, 8), Default)
  const BicsR1R2 := RandOp([Lit("bics "), Reg(1), Lit(", "), Reg(2)], Range(1, 8), Range(1, 8), Default)
  const CmnR1R2 := RandOp([Lit("cmn "), Reg(1), Lit(", "), Reg(2)], Range(1, 8), Range(1, 8), Default)
  const CmpR1I2 := RandOp([Lit("cmp "), Reg(1), Lit(", "), Imm(2)], Range(1, 8), Range(0, 256), Default)
  const CmpR1R2 := RandOp([Lit("cmp "), Reg(1), Lit(", "), Reg(2)], Range(1, 8), Range(1, 8), Default)
  const CpyR1R2 := RandOp([Lit("cpy "), Reg(1), Lit(", "), Reg(2)], Range(1, 8), Range(1, 8), Default)
  const EorsR1R2 := RandOp([Lit("eors "), Reg(1), Lit(", "), Reg(2)], Range(1, 8), Range(1, 8), Default)
  const LdrR1 := RandOp([Lit("ldr "), Reg(1), Lit(", [r0]")], Range(1, 8), Default, Default)
  const LdrbR1 := RandOp([Lit("ldrb "), Reg(1), Lit(", [r0]")], Range(1, 8), Default, Default)
  const LdrhR1 := RandOp([Lit("ldrh "), Reg(1), Lit(", [r0]")], Range(1, 8), Default, Default)
  const LslsR1R2I3 := RandOp([Lit("lsls "), Reg(1), Lit(", "), Reg(2), Lit(", "), Imm(3)], Range(1, 8), Range(1, 8), Range(0, 32))
  const LslsR1R2 := RandOp([Lit("lsls "), Reg(1), Lit(", "), Reg(2)], Range(1, 8), Range(1, 8), Default)
  const LsrsR1R2I3 := RandOp([Lit("lsrs "), Reg(1), Lit(", "), Reg(2), Lit(", "), Imm(3)], Range(1, 8), Range(1, 8), Range(1, 33))
  const LsrsR1R2 := RandOp([Lit("lsrs "), Reg(1), Lit(", "), Reg(2)], Range(1, 8), Range(1, 8), Default)
  const MovR1R2 := RandOp([Lit("mov "), Reg(1), Lit(", "), Reg(2)], Range(1, 8), Range(1, 8), Default)
  const MovsR1I2 := RandOp([Lit("movs "), Reg(1), Lit(", "), Imm(2)], Range(1, 8), Range(0, 256), Default)
  const MovsR1R2 := RandOp([Lit("movs "), Reg(1), Lit(", "), Reg(2)], Range(1, 8), Range(1, 8), Default)
  const MulsR1R2 := RandOp([Lit("muls "), Reg(1), Lit(", "), Reg(2)], Range(1, 8), Range(1, 8), Default)
  const MvnsR1R2 := RandOp([Lit("mvns "), Reg(1), Lit(", "), Reg(2)], Range(1, 8), Range(1, 8), Default)
  const NegsR1R2 := RandOp([Lit("negs "), Reg(1), Lit(", "), Reg(2)], Range(1, 8), Range(1, 8), Default)
  const OrrsR1R2 := RandOp([Lit("orrs "), Reg(1), Lit(", "), Reg(2)], Range(1, 8), Range(1, 8), Default)
  const RevR1R2 := RandOp([Lit("rev "), Reg(1), Lit(", "), Reg(2)], Range(1, 8), Range(1, 8), Default)
  const Rev16R1R2 := RandOp([Lit("rev16 "), Reg(1), Lit(", "), Reg(2)], Range(1, 8), Range(1, 8), Default)
  const RevshR1R2 := RandOp([Lit("revsh "), Reg(1), Lit(", "), Reg(2)], Range(1, 8), Range(1, 8), Default)
  const RorsR1R2 := RandOp([Lit("rors "), Reg(1), Lit(", "), Reg(2)], Range(1, 8), Range(1, 8), Default)
  const SbcsR1R2 := RandOp([Lit("sbcs "), Reg(1), Lit(", "), Reg(2)], Range(1, 8), Range(1, 8), Default)
  const StrR1 := RandOp([Lit("str "), Reg(1), Lit(", [r0]")], Range(1, 8), Default, Default)
  const StrbR1 := RandOp([Lit("strb "), Reg(1), Lit(", [r0]")], Range(1, 8), Default, Default)
  const StrhR1 := RandOp([Lit("strh "), Reg(1), Lit(", [r0]")], Range(1, 8), Default, Default)
  const SubsR1I2 := RandOp([Lit("subs "), Reg(1), Lit(", "), Imm(2)], Range(1, 8), Range(0, 256), Default)
  const SubsR1R2I3 := RandOp([Lit("subs "), Reg(1), Lit(", "), Reg(2), Lit(", "), Imm(3)], Range(1, 8), Range(1, 8), Range(0, 8))
  const SubsR1R2R3 := RandOp([Lit("subs "), Reg(1), Lit(", "), Reg(2), Lit(", "), Reg(3)], Range(1, 8), Range(1, 8), Range(1, 8))
  const SxtbR1R2 := RandOp([Lit("sxtb "), Reg(1), Lit(", "), Reg(2)], Range(1, 8), Range(1, 8), Default)
  const SxthR1R2 := RandOp([Lit("sxth "), Reg(1), Lit(", "), Reg(2)], Range(1, 8), Range(1, 8), Default)
  const TstR1R2 := RandOp([Lit("tst "), Reg(1), Lit(", "), Reg(2)], Range(1, 8), Range(1, 8), Default)
  const UxtbR1R2 := RandOp([Lit("uxtb "), Reg(1), Lit(", "), Reg(2)], Range(1, 8), Range(1, 8), Default)
  const UxthR1R2 := RandOp([Lit("uxth "), Reg(1), Lit(", "), Reg(2)], Range(1, 8), Range(1, 8), Default)

  // `possibilities` in slices, each checked by a lemma of its own below.
  const Possibilities0: seq<Template> := [AdcsR1R2, AddR1R1R2, AddsR1R1I2]
  const Possibilities1: seq<Template> := [AddsR1R2I3, AddsR1R2R3, AndsR1R2]
  const Possibilities2: seq<Template> := [AsrsR1R2I3, AsrsR1R2, BicsR1R2, CmnR1R2, CmpR1I2, CmpR1R2]
  const Possibilities3: seq<Template> := [CpyR1R2, EorsR1R2, LdrR1, LdrbR1, LdrhR1, LslsR1R2I3]
  const Possibilities4: seq<Template> := [LslsR1R2, LsrsR1R2I3, LsrsR1R2, MovR1R2, MovsR1I2, MovsR1R2]
  const Possibilities5: seq<Template> := [MulsR1R2, MvnsR1R2, NegsR1R2, OrrsR1R2, RevR1R2, Rev16R1R2]
  const Possibilities6: seq<Template> := [RevshR1R2, RorsR1R2, SbcsR1R2, StrR1, StrbR1, StrhR1]
  const Possibilities7: seq<Template> := [SubsR1I2, SubsR1R2I3, SubsR1R2R3, SxtbR1R2, SxthR1R2]
  const Possibilities8: seq<Template> := [TstR1R2, UxtbR1R2, UxthR1R2]

  /** `possibilities`, in the order of the list. */
  const Possibilities: seq<Template> :=
    Possibilities0 + Possibilities1 + Possibilities2 + Possibilities3 + Possibilities4 +
    Possibilities5 + Possibilities6 + Possibilities7 + Possibilities8

  /** None of the three ranges is empty: all three operands are drawn, used or not. */
  predicate WellFormed(t: Template)
  {
    |t.ranges| == 3 &&
    t.ranges[0].lo < t.ranges[0].hi && t.ranges[1].lo < t.ranges[1].hi && t.ranges[2].lo < t.ranges[2].hi
  }

  /** Every register operand ranges over r1..r7. */
  predicate RegistersLow(t: Template)
  {
    |t.ranges| == 3 &&
    forall p :: 0 <= p < |t.pieces| && t.pieces[p].Reg? ==> t.ranges[t.pieces[p].k - 1] == Range(1, 8)
  }

  /** Every immediate operand is below 256. */
  predicate ImmediatesBelow256(t: Template)
  {
    |t.ranges| == 3 &&
    forall p :: 0 <= p < |t.pieces| && t.pieces[p].Imm? ==> t.ranges[t.pieces[p].k - 1].hi <= 256
  }

  /** A check of the template piece by piece, which Dafny evaluates on the constant templates. */
  predicate Checked(t: Template)
  {
    |t.ranges| == 3 &&
    t.ranges[0].lo < t.ranges[0].hi && t.ranges[1].lo < t.ranges[1].hi && t.ranges[2].lo < t.ranges[2].hi &&
    PiecesOk(t.pieces, t.ranges)
  }

  predicate PiecesOk(pieces: seq<Piece>, ranges: seq<Range>)
    requires |ranges| == 3
  {
    pieces == [] ||
    (PieceOk(pieces[0], ranges) && PiecesOk(pieces[1..], ranges))
  }

  predicate PieceOk(p: Piece, ranges: seq<Range>)
    requires |ranges| == 3
  {
    match p
    case Lit(_) => true
    case Reg(k) => ranges[k - 1] == Range(1, 8)
    case Imm(k) => ranges[k - 1].hi <= 256
  }

  /** The piece-by-piece check gives the three properties of the template. */
  lemma {:induction false} CheckedMeans(pieces: seq<Piece>, ranges: seq<Range>)
    requires Checked(Template(pieces, ranges))
    ensures WellFormed(Template(pieces, ranges))
    ensures RegistersLow(Template(pieces, ranges)) && ImmediatesBelow256(Template(pieces, ranges))
  {
    if pieces != [] {
      CheckedMeans(pieces[1..], ranges);
      forall p | 0 < p < |pieces|
        ensures pieces[p] == pieces[1..][p - 1]
      {
      }
    }
  }

  lemma OperandsChecked0()
    ensures forall i :: 0 <= i < |Possibilities0| ==> Checked(Possibilities0[i])
  {
  }

  lemma OperandsChecked1()
    ensures forall i :: 0 <= i < |Possibilities1| ==> Checked(Possibilities1[i])
  {
  }

  lemma OperandsChecked2()
    ensures forall i :: 0 <= i < |Possibilities2| ==> Checked(Possibilities2[i])
  {
  }

  lemma OperandsChecked3()
    ensures forall i :: 0 <= i < |Possibilities3| ==> Checked(Possibilities3[i])
  {
  }

  lemma OperandsChecked4()
    ensures forall i :: 0 <= i < |Possibilities4| ==> Checked(Possibilities4[i])
  {
  }

  lemma OperandsChecked5()
    ensures forall i :: 0 <= i < |Possibilities5| ==> Checked(Possibilities5[i])
  {
  }

  lemma OperandsChecked6()
    ensures forall i :: 0 <= i < |Possibilities6| ==> Checked(Possibilities6[i])
  {
  }

  lemma OperandsChecked7()
    ensures forall i :: 0 <= i < |Possibilities7| ==> Checked(Possibilities7[i])
  {
  }

  lemma OperandsChecked8()
    ensures forall i :: 0 <= i < |Possibilities8| ==> Checked(Possibilities8[i])
  {
  }

  /**
   * Every template is well formed; every register operand ranges over
   * r1..r7, so r0 only ever appears literally, as the base of a load or
   * store; every immediate is below 256.
   */
  lemma PossibilitiesOperands()
    ensures forall i :: 0 <= i < |Possibilities| ==>
      WellFormed(Possibilities[i]) && RegistersLow(Possibilities[i]) && ImmediatesBelow256(Possibilities[i])
  {
    OperandsChecked0();
    OperandsChecked1();
    OperandsChecked2();
    OperandsChecked3();
    OperandsChecked4();
    OperandsChecked5();
    OperandsChecked6();
    OperandsChecked7();
    OperandsChecked8();
    assert forall i :: 0 <= i < |Possibilities| ==> Checked(Possibilities[i]);
    forall i | 0 <= i < |Possibilities|
      ensures WellFormed(Possibilities[i]) && RegistersLow(Possibilities[i]) && ImmediatesBelow256(Possibilities[i])
    {
      CheckedMeans(Possibilities[i].pieces, Possibilities[i].ranges);
    }
  }

  /** The shift amounts: 1 to 32 for `asrs` and `lsrs`, 0 to 31 for `lsls`; `subs` takes 0 to 7. */
  lemma ShiftAndSubtractRanges()
    ensures AsrsR1R2I3.ranges[2] == Range(1, 33) && LsrsR1R2I3.ranges[2] == Range(1, 33)
    ensures LslsR1R2I3.ranges[2] == Range(0, 32) && SubsR1R2I3.ranges[2] == Range(0, 8)
    ensures AsrsR1R2I3 in Possibilities && LsrsR1R2I3 in Possibilities && LslsR1R2I3 in Possibilities && SubsR1R2I3 in Possibilities
  {
    assert Possibilities[6] == AsrsR1R2I3;
    assert Possibilities[17] == LslsR1R2I3;
    assert Possibilities[19] == LsrsR1R2I3;
    assert Possibilities[37] == SubsR1R2I3;
  }

  /** `random.randrange(lo, hi)` for the drawn number d. */
  function RandRange(r: Range, d: nat): (v: nat)
    requires r.lo < r.hi
    ensures r.lo <= v < r.hi
  {
    r.lo + d % (r.hi - r.lo)
  }

  /** The text of one piece: a register as "r" and its number, an immediate as "#" and its value. */
  function PieceText(p: Piece, values: seq<nat>): string
    requires |values| == 3
  {
    match p
    case Lit(text) => text
    case Reg(k) => "r" + NatToString(values[k - 1])
    case Imm(k) => "#" + NatToString(values[k - 1])
  }

  /** `instr.format(op1=v1, op2=v2, op3=v3)`: every placeholder replaced by the value of its operand. */
  function Format(pieces: seq<Piece>, values: seq<nat>): string
    requires |values| == 3
  {
    if pieces == [] then ""
    else Format(pieces[..|pieces| - 1], values) + PieceText(pieces[|pieces| - 1], values)
  }

  /** The values drawn for op1, op2 and op3, in that order, each within its range. */
  function Operands(t: Template, d1: nat, d2: nat, d3: nat): (v: seq<nat>)
    requires WellFormed(t)
    ensures |v| == 3 && forall k :: 0 <= k < 3 ==> t.ranges[k].lo <= v[k] < t.ranges[k].hi
  {
    [RandRange(t.ranges[0], d1), RandRange(t.ranges[1], d2), RandRange(t.ranges[2], d3)]
  }

  /** Templates `generate` can choose from: at least one, every one well formed. */
  predicate Choosable(templates: seq<Template>)
  {
    |templates| > 0 && forall i :: 0 <= i < |templates| ==> WellFormed(templates[i])
  }

  /** `random.choice(templates)` for the drawn number d. */
  function Choice(templates: seq<Template>, d: nat): (t: Template)
    requires |templates| > 0
    ensures t in templates
  {
    templates[d % |templates|]
  }

  /**
   * One generated instruction from four draws: the template, then its
   * three operands.
   */
  function Instruction(templates: seq<Template>, d: seq<nat>): string
    requires Choosable(templates) && |d| == 4
  {
    var t := Choice(templates, d[0]);
    Format(t.pieces, Operands(t, d[1], d[2], d[3]))
  }

  /** The line `generate` writes for one instruction: indented by four spaces, ended by a newline. */
  function Line(templates: seq<Template>, d: seq<nat>): string
    requires Choosable(templates) && |d| == 4
  {
    "    " + Instruction(templates, d) + "\n"
  }

  /** The text of `count` instructions, instruction j drawn from draws[4 * j .. 4 * j + 4]. */
  function Program(templates: seq<Template>, draws: seq<nat>, count: nat): string
    requires Choosable(templates) && 4 * count <= |draws|
  {
    if count == 0 then ""
    else Program(templates, draws, count - 1) + Line(templates, draws[4 * (count - 1)..4 * count])
  }

  /** The output stream `generate` writes to. */
  class Stream {
    var text: string

    constructor()
      ensures text == ""
    {
      text := "";
    }

    /** `stream.write(s)`: appends. */
    method Write(s: string)
      modifies this
      ensures text == old(text) + s
    {
      text := text + s;
    }
  }

  /**
   * `generate(stream, seed, count)`, the seeded random numbers given as
   * `draws`: writes `count` lines, each a randomly chosen template of
   * `possibilities` with random operands.
   */
  method Generate(stream: Stream, draws: seq<nat>, count: nat)
    requires 4 * count <= |draws|
    modifies stream
    ensures Choosable(Possibilities)
    ensures stream.text == old(stream.text) + Program(Possibilities, draws, count)
  {
    PossibilitiesChoosable();
    Write(stream, Possibilities, draws, count);
  }

  /** The loop of `generate` over any list of templates. */
  method Write(stream: Stream, templates: seq<Template>, draws: seq<nat>, count: nat)
    requires Choosable(templates) && 4 * count <= |draws|
    modifies stream
    ensures stream.text == old(stream.text) + Program(templates, draws, count)
  {
    ghost var start := stream.text;
    var j := 0;
    while j < count
      invariant 0 <= j <= count
      invariant stream.text == start + Program(templates, draws, j)
    {
      var line := Line(templates, draws[4 * j..4 * j + 4]);
      Associative(start, Program(templates, draws, j), line);
      stream.Write(line);
      j := j + 1;
    }
  }

  lemma PossibilitiesChoosable()
    ensures Choosable(Possibilities)
  {
    PossibilitiesOperands();
  }

  /** The same draws give the same program: a seed reproduces the generated code. */
  lemma {:induction false} SameDrawsSameProgram(templates: seq<Template>, a: seq<nat>, b: seq<nat>, count: nat)
    requires Choosable(templates)
    requires 4 * count <= |a| && 4 * count <= |b| && a[..4 * count] == b[..4 * count]
    ensures Program(templates, a, count) == Program(templates, b, count)
  {
    if count > 0 {
      assert a[..4 * (count - 1)] == a[..4 * count][..4 * (count - 1)];
      assert b[..4 * (count - 1)] == b[..4 * count][..4 * (count - 1)];
      SameDrawsSameProgram(templates, a, b, count - 1);
      assert a[4 * (count - 1)..4 * count] == a[..4 * count][4 * (count - 1)..];
      assert b[4 * (count - 1)..4 * count] == b[..4 * count][4 * (count - 1)..];
    }
  }

  /** `q` is the beginning of `s`. */
  ghost predicate IsPrefix<T>(q: seq<T>, s: seq<T>)
  {
    |q| <= |s| && s[..|q|] == q
  }

  /** Generating more instructions from the same draws only extends the text. */
  lemma {:induction false} ProgramExtends(templates: seq<Template>, draws: seq<nat>, m: nat, n: nat)
    requires Choosable(templates) && m <= n && 4 * n <= |draws|
    ensures IsPrefix(Program(templates, draws, m), Program(templates, draws, n))
    decreases n
  {
    if m < n {
      ProgramExtends(templates, draws, m, n - 1);
      ExtendsOneMore(templates, draws, Program(templates, draws, m), n);
    } else {
      TakeAll(Program(templates, draws, n));
    }
  }

  /** Taking the whole of a sequence gives it back. */
  lemma TakeAll<T>(s: seq<T>)
    ensures IsPrefix(s, s)
  {
  }

  /** A text that begins the program of n - 1 instructions also begins the program of n. */
  lemma ExtendsOneMore(templates: seq<Template>, draws: seq<nat>, q: string, n: nat)
    requires Choosable(templates) && 0 < n && 4 * n <= |draws|
    requires IsPrefix(q, Program(templates, draws, n - 1))
    ensures IsPrefix(q, Program(templates, draws, n))
  {
    var p := Program(templates, draws, n - 1);
    var line := Line(templates, draws[4 * (n - 1)..4 * n]);
    assert Program(templates, draws, n) == p + line;
    TakeAppend(p, line, q);
  }

  /** Appending to a text that begins with `q` gives a text that still begins with `q`. */
  lemma TakeAppend<T>(p: seq<T>, line: seq<T>, q: seq<T>)
    requires |q| <= |p| && p[..|q|] == q
    ensures |q| <= |p + line| && (p + line)[..|q|] == q
  {
    assert (p + line)[..|q|] == p[..|q|];
  }

  /**
   * Whatever is drawn, a register operand of the generated instruction is
   * one of r1..r7 and an immediate is below 256.
   */
  lemma InstructionOperands(d: seq<nat>)
    requires |d| == 4
    ensures var t := Choice(Possibilities, d[0]);
      WellFormed(t) &&
      var v := Operands(t, d[1], d[2], d[3]);
      forall p :: 0 <= p < |t.pieces| ==>
        (t.pieces[p].Reg? ==> 1 <= v[t.pieces[p].k - 1] <= 7) &&
        (t.pieces[p].Imm? ==> v[t.pieces[p].k - 1] < 256)
  {
    PossibilitiesOperands();
    var t := Choice(Possibilities, d[0]);
    var i := d[0] % |Possibilities|;
    assert WellFormed(t) && RegistersLow(t) && ImmediatesBelow256(t);
  }

  /**
   * `add r{op1}, r{op1}, r{op2}` writes the register of op1 in both of its
   * places and leaves op3 unused.
   */
  lemma RepeatedOperand(v: seq<nat>)
    requires |v| == 3
    ensures var r1, r2 := "r" + NatToString(v[0]), "r" + NatToString(v[1]);
      Format(AddR1R1R2.pieces, v) == ("add " + r1) + (", " + r1) + (", " + r2)
  {
    var a, b, c := [Lit("add "), Reg(1)], [Lit(", "), Reg(1)], [Lit(", "), Reg(2)];
    assert AddR1R1R2.pieces == (a + b) + c;
    FormatAppend(a + b, c, v);
    FormatAppend(a, b, v);
    FormatTwo(Lit("add "), Reg(1), v);
    FormatTwo(Lit(", "), Reg(1), v);
    FormatTwo(Lit(", "), Reg(2), v);
  }

  /** Formatting two pieces gives their texts one after the other. */
  lemma FormatTwo(p: Piece, q: Piece, v: seq<nat>)
    requires |v| == 3
    ensures Format([p, q], v) == PieceText(p, v) + PieceText(q, v)
  {
    FormatOne(p, v);
    assert [p, q][..1] == [p];
  }

  /** Formatting one piece gives its text. */
  lemma FormatOne(p: Piece, v: seq<nat>)
    requires |v| == 3
    ensures Format([p], v) == PieceText(p, v)
  {
    assert [p][..0] == [];
  }

  /** Formatting distributes over the concatenation of templates. */
  lemma {:induction false} FormatAppend(ps: seq<Piece>, qs: seq<Piece>, v: seq<nat>)
    requires |v| == 3
    ensures Format(ps + qs, v) == Format(ps, v) + Format(qs, v)
    decreases |qs|
  {
    if qs != [] {
      var q, last := qs[..|qs| - 1], qs[|qs| - 1];
      assert (ps + qs)[..|ps + qs| - 1] == ps + q && (ps + qs)[|ps + qs| - 1] == last;
      FormatAppend(ps, q, v);
      var a, b, c := Format(ps, v), Format(q, v), PieceText(last, v);
      assert Format(ps + qs, v) == (a + b) + c;
      assert Format(qs, v) == b + c;
      assert (a + b) + c == a + (b + c);
    } else {
      assert ps + qs == ps;
    }
  }
}
