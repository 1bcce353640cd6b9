/** One coordinate frame of a simulation and the ASCII Amber restart
    (inpcrd/rst7) format that stores it.

    A file is its sequence of lines on the reading side and its character
    stream on the writing side.  Number parsing (`StringToDouble`) is the
    parameter `parse`, and printf formatting (`%12.7f`, `%5d`) the
    parameters `fmt` and `fmtInt`. */
module AmberCrd {
  import opened Wrappers
  import opened CppArith
  import opened AmberConstants
  import StringManip

  datatype Vec3 = Vec3(x: real, y: real, z: real)

  function Scale(v: Vec3, k: real): Vec3 {
    Vec3(v.x * k, v.y * k, v.z * k)
  }

  /** The frame's state.  `natom` is -1 until the first array or file fixes
      it. */
  datatype Frame = Frame(
    natom: int,
    temp0: real,
    hasRemd: bool,
    boxA: real, boxB: real, boxC: real,
    alpha: real, beta: real, gamma: real,
    positions: seq<Vec3>,
    velocities: seq<Vec3>)

  datatype CrdError =
    | CoordinateSizeMismatch
    | VelocitySizeMismatch
    | TooFewLines
    | UnknownFormat
    | UnknownLineCount
    | BadField
    | LengthError
    | NetcdfUnsupported
    | CannotOpenForWriting

  /** A freshly constructed frame. */
  function NewFrame(): (f: Frame)
    ensures f.natom == -1 && f.temp0 == 0.0 && !f.hasRemd
    ensures f.boxA == 0.0 && f.boxB == 0.0 && f.boxC == 0.0
    ensures f.alpha == 0.0 && f.beta == 0.0 && f.gamma == 0.0
    ensures f.positions == [] && f.velocities == []
    ensures Consistent(f)
  {
    Frame(-1, 0.0, false, 0.0, 0.0, 0.0, 0.0, 0.0, 0.0, [], [])
  }

  /** Positions and velocities never disagree with the atom count: with the
      count unknown both are empty, otherwise each is empty or has exactly
      `natom` entries. */
  predicate Consistent(f: Frame) {
    && (f.natom < 0 ==> f.positions == [] && f.velocities == [])
    && (f.natom >= 0 ==> (|f.positions| == 0 || |f.positions| == f.natom)
                         && (|f.velocities| == 0 || |f.velocities| == f.natom))
  }

  /** The first array fixes the atom count; a later array must match it. */
  function SetPositions(f: Frame, crd: seq<Vec3>): (r: Result<Frame, CrdError>)
    ensures r.Success? <==> f.natom == -1 || f.natom == |crd|
    ensures r.Failure? ==> r.error == CoordinateSizeMismatch
    ensures r.Success? ==> r.value.positions == crd && r.value.natom == |crd|
    ensures r.Success? ==> r.value.(positions := f.positions, natom := f.natom) == f
  {
    if f.natom == -1 then Success(f.(natom := |crd|, positions := crd))
    else if f.natom != |crd| then Failure(CoordinateSizeMismatch)
    else Success(f.(positions := crd))
  }

  function SetVelocities(f: Frame, vel: seq<Vec3>): (r: Result<Frame, CrdError>)
    ensures r.Success? <==> f.natom == -1 || f.natom == |vel|
    ensures r.Failure? ==> r.error == VelocitySizeMismatch
    ensures r.Success? ==> r.value.velocities == vel && r.value.natom == |vel|
    ensures r.Success? ==> r.value.(velocities := f.velocities, natom := f.natom) == f
  {
    if f.natom == -1 then Success(f.(natom := |vel|, velocities := vel))
    else if f.natom != |vel| then Failure(VelocitySizeMismatch)
    else Success(f.(velocities := vel))
  }

  /** Stores the cell lengths and angles; the angles default to 90 degrees. */
  function SetBox(f: Frame, a: real, b: real, c: real,
                  alpha: real := 90.0, beta: real := 90.0, gamma: real := 90.0): (r: Frame)
    ensures r.boxA == a && r.boxB == b && r.boxC == c
    ensures r.alpha == alpha && r.beta == beta && r.gamma == gamma
    ensures r.(boxA := f.boxA, boxB := f.boxB, boxC := f.boxC,
               alpha := f.alpha, beta := f.beta, gamma := f.gamma) == f
  {
    f.(boxA := a, boxB := b, boxC := c, alpha := alpha, beta := beta, gamma := gamma)
  }

  lemma SetBoxDefaultsToRightAngles(f: Frame, a: real, b: real, c: real)
    ensures var r := SetBox(f, a, b, c);
            r.alpha == 90.0 && r.beta == 90.0 && r.gamma == 90.0
  {
  }

  /** One call on the frame's setter interface. */
  datatype FrameOp =
    | SetPositionsOp(crd: seq<Vec3>)
    | SetVelocitiesOp(vel: seq<Vec3>)
    | SetBoxOp(a: real, b: real, c: real, alpha: real, beta: real, gamma: real)

  function Apply(f: Frame, op: FrameOp): Result<Frame, CrdError> {
    match op
    case SetPositionsOp(crd) => SetPositions(f, crd)
    case SetVelocitiesOp(vel) => SetVelocities(f, vel)
    case SetBoxOp(a, b, c, al, be, ga) => Success(SetBox(f, a, b, c, al, be, ga))
  }

  /** A caller issuing setter calls and catching every error: a rejected
      call leaves the frame as it was. */
  function ApplyAll(f: Frame, ops: seq<FrameOp>): Frame
    decreases |ops|
  {
    if ops == [] then f
    else
      var g := match Apply(f, ops[0]) case Success(g) => g case Failure(_) => f;
      ApplyAll(g, ops[1..])
  }

  /** Whatever setter calls are made, positions and velocities never
      disagree in size, and once the atom count is known it never changes. */
  lemma {:induction false} ApplyAllKeepsConsistent(f: Frame, ops: seq<FrameOp>)
    requires Consistent(f) && f.natom >= -1
    ensures Consistent(ApplyAll(f, ops)) && ApplyAll(f, ops).natom >= -1
    ensures f.natom != -1 ==> ApplyAll(f, ops).natom == f.natom
    decreases |ops|
  {
    if ops != [] {
      var g := match Apply(f, ops[0]) case Success(g) => g case Failure(_) => f;
      assert Consistent(g) && g.natom >= -1;
      ApplyAllKeepsConsistent(g, ops[1..]);
    }
  }

  /** A frame built through the setters from a fresh one is consistent. */
  lemma BuiltFrameIsConsistent(ops: seq<FrameOp>)
    ensures Consistent(ApplyAll(NewFrame(), ops))
  {
    ApplyAllKeepsConsistent(NewFrame(), ops);
  }

  // ---------------------------------------------------------------- layout

  /** What a restart file holds besides the header and the coordinates. */
  datatype Layout = Layout(hasVelocities: bool, hasBox: bool)

  /** Lines per coordinate (or velocity) block: two atoms per line. */
  function BlockLines(natom: int): int {
    CDiv(natom + 1, 2)
  }

  /** The number of lines of a file with the given layout. */
  function ExpectedLines(l: Layout, natom: int): int {
    var h := BlockLines(natom);
    h + 2 + (if l.hasVelocities then h else 0) + (if l.hasBox then 1 else 0)
  }

  /** The reader infers the layout from the line count; the four cases are
      tried in a fixed order and the first match wins. */
  function Classify(lineCount: int, natom: int): (r: Option<Layout>)
    ensures r.Some? ==> lineCount == ExpectedLines(r.value, natom)
    ensures r.None? <==> forall l: Layout :: lineCount != ExpectedLines(l, natom)
  {
    var h := BlockLines(natom);
    if lineCount == h + 2 then Some(Layout(false, false))
    else if lineCount == h + 3 then Some(Layout(false, true))
    else if lineCount == h * 2 + 2 then Some(Layout(true, false))
    else if lineCount == h * 2 + 3 then Some(Layout(true, true))
    else
      assert forall l: Layout :: lineCount != ExpectedLines(l, natom) by {
        forall l: Layout ensures lineCount != ExpectedLines(l, natom) {
          assert l == Layout(false, false) || l == Layout(false, true)
              || l == Layout(true, false) || l == Layout(true, true);
        }
      }
      None
  }

  /** Two layouts collide only for one or two atoms, where a velocity block
      takes the single line a box would. */
  predicate Ambiguous(l: Layout, natom: int) {
    l == Layout(true, false) && (natom == 1 || natom == 2)
  }

  /** Classification recognises every layout except the colliding one. */
  lemma ClassifyRecognisesLayout(l: Layout, natom: int)
    requires natom >= 1
    ensures Classify(ExpectedLines(l, natom), natom) == Some(l) <==> !Ambiguous(l, natom)
  {
  }

  /** With one or two atoms, four lines are taken to hold a box. */
  lemma SmallFileWithVelocitiesReadsAsBox(natom: int)
    requires natom == 1 || natom == 2
    ensures ExpectedLines(Layout(true, false), natom) == 4
    ensures Classify(4, natom) == Some(Layout(false, true))
  {
  }

  // ---------------------------------------------------------------- reader

  /** Columns 12k .. 12k+12 of a line, cut short at its end. */
  function Cell(line: string, k: nat): string
    requires 12 * k <= |line|
  {
    line[12 * k..if 12 * k + 12 <= |line| then 12 * k + 12 else |line|]
  }

  /** Field `k` of a line: the twelve characters from column 12k, parsed.
      A line shorter than 12k characters is an out-of-range substring. */
  function Field(line: string, k: nat, parse: string -> Option<real>): (r: Result<real, CrdError>)
    ensures r.Success? <==> 12 * k <= |line| && parse(Cell(line, k)).Some?
    ensures r.Success? ==> parse(Cell(line, k)) == Some(r.value)
    ensures r.Failure? ==> r.error == BadField
  {
    match StringManip.Substr(line, 12 * k, 12)
    case None => Failure(BadField)
    case Some(w) =>
      assert w == Cell(line, k);
      match parse(w)
      case None => Failure(BadField)
      case Some(x) => Success(x)
  }

  /** Three consecutive fields from field `k` on, each multiplied by `scale`. */
  function ReadVec(line: string, k: nat, scale: real, parse: string -> Option<real>): (r: Result<Vec3, CrdError>)
    ensures r.Success? <==> Field(line, k, parse).Success? && Field(line, k + 1, parse).Success?
                            && Field(line, k + 2, parse).Success?
    ensures r.Success? ==> r.value == Scale(Vec3(Field(line, k, parse).value, Field(line, k + 1, parse).value,
                                                 Field(line, k + 2, parse).value), scale)
    ensures r.Failure? ==> r.error == BadField
  {
    match Field(line, k, parse)
    case Failure(e) => Failure(e)
    case Success(x) =>
      match Field(line, k + 1, parse)
      case Failure(e) => Failure(e)
      case Success(y) =>
        match Field(line, k + 2, parse)
        case Failure(e) => Failure(e)
        case Success(z) => Success(Vec3(x * scale, y * scale, z * scale))
  }

  /** Atom `a` of a block that starts at line `start`: line start + a/2,
      fields 0-2 for an even atom and 3-5 for an odd one. */
  function AtomVec(lines: seq<string>, start: nat, a: nat, scale: real, parse: string -> Option<real>): Result<Vec3, CrdError>
    requires start + a / 2 < |lines|
  {
    ReadVec(lines[start + a / 2], if a % 2 == 0 then 0 else 3, scale, parse)
  }

  /** Reads atoms `a`, `a`+1, ... of a block, appending to `acc`, and stops
      at the first bad field.  The source's loop reads the two atoms of one
      line per iteration and skips the second when the count is odd, which
      visits the atoms in this same order. */
  function ReadBlockFrom(lines: seq<string>, start: nat, natom: nat, scale: real,
                         parse: string -> Option<real>, a: nat, acc: seq<Vec3>): (r: (seq<Vec3>, Outcome<CrdError>))
    requires a <= natom && |acc| == a
    requires start + BlockLines(natom) <= |lines|
    ensures a <= |r.0| <= natom && r.0[..a] == acc
    ensures r.1.Pass? <==> forall b :: a <= b < natom ==> AtomVec(lines, start, b, scale, parse).Success?
    ensures r.1.Pass? ==> |r.0| == natom
    ensures r.1.Fail? ==> r.1.error == BadField && |r.0| < natom
                          && AtomVec(lines, start, |r.0|, scale, parse).Failure?
    ensures forall b :: a <= b < |r.0| ==> AtomVec(lines, start, b, scale, parse) == Success(r.0[b])
    decreases natom - a
  {
    if a == natom then (acc, Pass)
    else
      match AtomVec(lines, start, a, scale, parse)
      case Failure(e) => (acc, Fail(e))
      case Success(v) =>
        var r := ReadBlockFrom(lines, start, natom, scale, parse, a + 1, acc + [v]);
        assert r.0[..a] == r.0[..a + 1][..a];
        r
  }

  function ReadBlock(lines: seq<string>, start: nat, natom: nat, scale: real,
                     parse: string -> Option<real>): (r: (seq<Vec3>, Outcome<CrdError>))
    requires start + BlockLines(natom) <= |lines|
  {
    ReadBlockFrom(lines, start, natom, scale, parse, 0, [])
  }

  /** Fields `k` .. `n`-1 of a line, up to the first bad one. */
  function ReadFields(line: string, k: nat, n: nat, parse: string -> Option<real>): (r: (seq<real>, Outcome<CrdError>))
    requires k <= n
    ensures |r.0| <= n - k
    ensures r.1.Pass? <==> |r.0| == n - k
    ensures r.1.Fail? ==> r.1.error == BadField
    decreases n - k
  {
    if k == n then ([], Pass)
    else
      match Field(line, k, parse)
      case Failure(e) => ([], Fail(e))
      case Success(x) =>
        var r := ReadFields(line, k + 1, n, parse);
        ([x] + r.0, r.1)
  }

  /** Every value `ReadFields` returns is the field at its position, and a
      failure stops at the first field that does not parse. */
  lemma {:induction false} ReadFieldsValues(line: string, k: nat, n: nat, parse: string -> Option<real>)
    requires k <= n
    ensures var r := ReadFields(line, k, n, parse);
            && (forall i :: 0 <= i < |r.0| ==> Field(line, k + i, parse) == Success(r.0[i]))
            && (r.1.Fail? ==> Field(line, k + |r.0|, parse).Failure?)
    decreases n - k
  {
    if k < n && Field(line, k, parse).Success? {
      var r := ReadFields(line, k + 1, n, parse);
      ReadFieldsValues(line, k + 1, n, parse);
      var vals := [Field(line, k, parse).value] + r.0;
      assert ReadFields(line, k, n, parse) == (vals, r.1);
      forall i | 1 <= i < |vals| ensures Field(line, k + i, parse) == Success(vals[i]) {
        var i' := i - 1;
        assert k + i == (k + 1) + i' && vals[i] == r.0[i'];
      }
      assert r.1.Fail? ==> k + |vals| == (k + 1) + |r.0|;
    }
  }

  /** The six box values in file order. */
  function BoxValues(f: Frame): seq<real> {
    [f.boxA, f.boxB, f.boxC, f.alpha, f.beta, f.gamma]
  }

  /** Assigns the first |vals| box values, in file order. */
  function SetBoxPrefix(f: Frame, vals: seq<real>): (r: Frame)
    requires |vals| <= 6
    ensures r.(boxA := f.boxA, boxB := f.boxB, boxC := f.boxC,
               alpha := f.alpha, beta := f.beta, gamma := f.gamma) == f
    ensures forall i :: 0 <= i < |vals| ==> BoxValues(r)[i] == vals[i]
    ensures forall i :: |vals| <= i < 6 ==> BoxValues(r)[i] == BoxValues(f)[i]
  {
    var f := if |vals| > 0 then f.(boxA := vals[0]) else f;
    var f := if |vals| > 1 then f.(boxB := vals[1]) else f;
    var f := if |vals| > 2 then f.(boxC := vals[2]) else f;
    var f := if |vals| > 3 then f.(alpha := vals[3]) else f;
    var f := if |vals| > 4 then f.(beta := vals[4]) else f;
    if |vals| > 5 then f.(gamma := vals[5]) else f
  }

  /** The box line: the six values are assigned one by one, so a bad field
      leaves the values before it assigned. */
  function ReadBox(f: Frame, line: string, parse: string -> Option<real>): (r: Step<Frame, CrdError>)
    ensures r.state.(boxA := f.boxA, boxB := f.boxB, boxC := f.boxC,
                     alpha := f.alpha, beta := f.beta, gamma := f.gamma) == f
    ensures r.outcome.Pass? <==> forall k :: 0 <= k < 6 ==> Field(line, k, parse).Success?
    ensures r.outcome.Pass? ==> forall k :: 0 <= k < 6 ==> Field(line, k, parse) == Success(BoxValues(r.state)[k])
    ensures r.outcome.Fail? ==> r.outcome.error == BadField
  {
    var (vals, o) := ReadFields(line, 0, 6, parse);
    ReadFieldsValues(line, 0, 6, parse);
    Step(SetBoxPrefix(f, vals), o)
  }

  /** The atom count on the second line: the first word, read as a double
      and truncated to an int. */
  function HeaderAtoms(words: seq<string>, parse: string -> Option<real>): Option<int>
    requires |words| >= 1
  {
    match parse(words[0])
    case None => None
    case Some(x) => Some(TruncToInt(x))
  }

  /** Reads a restart file into `f`.  Each member of the frame is assigned
      as soon as its value is read, so a failure leaves the members read
      before it updated. */
  function ReadRst7(f: Frame, lines: seq<string>, parse: string -> Option<real>): (r: Step<Frame, CrdError>)
    ensures |lines| < 2 ==> r == Step(f, Fail(TooFewLines))
    ensures |lines| >= 2 && StringManip.SplitWords(lines[1]) == [] ==> r == Step(f, Fail(UnknownFormat))
    ensures r.outcome.Pass? ==> Consistent(r.state) && r.state.natom >= 0
    ensures r.outcome.Pass? ==> Classify(|lines|, r.state.natom).Some?
  {
    if |lines| < 2 then Step(f, Fail(TooFewLines))
    else
      var words := StringManip.SplitWords(lines[1]);
      if |words| == 0 then Step(f, Fail(UnknownFormat))
      else
        var f1 := if |words| > 2 then f.(hasRemd := true) else f;
        match HeaderAtoms(words, parse)
        case None => Step(f1, Fail(BadField))
        case Some(natom) =>
          var f2 := f1.(natom := natom);
          if |words| > 2 && parse(words[2]).None? then Step(f2, Fail(BadField))
          else
            var f3 := if |words| > 2 then f2.(temp0 := parse(words[2]).value) else f2;
            match Classify(|lines|, natom)
            case None => Step(f3, Fail(UnknownLineCount))
            case Some(layout) =>
              var f4 := f3.(positions := [], velocities := []);
              if natom < 0 then Step(f4, Fail(LengthError))
              else ReadBlocks(f4, lines, layout, parse)
  }

  /** The coordinate block of a file whose layout and atom count are known,
      then the rest. */
  function ReadBlocks(f: Frame, lines: seq<string>, layout: Layout, parse: string -> Option<real>): (r: Step<Frame, CrdError>)
    requires f.natom >= 0 && f.positions == [] && f.velocities == []
    requires |lines| == ExpectedLines(layout, f.natom)
    ensures r.state.natom == f.natom
    ensures r.outcome.Pass? ==> Consistent(r.state)
  {
    var (pos, o) := ReadBlock(lines, 2, f.natom, 1.0, parse);
    if o.Fail? then Step(f.(positions := pos), o)
    else ReadVelocities(f.(positions := pos), lines, layout, parse)
  }

  /** The velocity block if the layout has one, then the box line. */
  function ReadVelocities(f: Frame, lines: seq<string>, layout: Layout, parse: string -> Option<real>): (r: Step<Frame, CrdError>)
    requires f.natom >= 0 && |f.positions| == f.natom && f.velocities == []
    requires |lines| == ExpectedLines(layout, f.natom)
    ensures r.state.natom == f.natom && r.state.positions == f.positions
    ensures r.outcome.Pass? ==> Consistent(r.state)
  {
    if !layout.hasVelocities then ReadBoxLine(f, lines, layout, parse)
    else
      var (vel, o) := ReadBlock(lines, 2 + BlockLines(f.natom), f.natom, AMBER_TIME_PER_PS, parse);
      if o.Fail? then Step(f.(velocities := vel), o)
      else ReadBoxLine(f.(velocities := vel), lines, layout, parse)
  }

  /** The box line, the last line of the file, if the layout has one. */
  function ReadBoxLine(f: Frame, lines: seq<string>, layout: Layout, parse: string -> Option<real>): (r: Step<Frame, CrdError>)
    requires f.natom >= 0 && |lines| == ExpectedLines(layout, f.natom)
    ensures !layout.hasBox ==> r == Step(f, Pass)
    ensures layout.hasBox ==> r == ReadBox(f, lines[|lines| - 1], parse)
  {
    var h := BlockLines(f.natom);
    if layout.hasBox then ReadBox(f, lines[2 + h + (if layout.hasVelocities then h else 0)], parse)
    else Step(f, Pass)
  }

  /** `vs` is what the block at line `start` reads as, atom by atom. */
  predicate BlockReadsAs(lines: seq<string>, start: nat, natom: nat, scale: real,
                         parse: string -> Option<real>, vs: seq<Vec3>)
    requires start + BlockLines(natom) <= |lines|
  {
    |vs| == natom && forall a :: 0 <= a < natom ==> AtomVec(lines, start, a, scale, parse) == Success(vs[a])
  }

  /** A block that reads in full yields the atoms its lines hold. */
  lemma ReadBlockPass(lines: seq<string>, start: nat, natom: nat, scale: real, parse: string -> Option<real>)
    requires start + BlockLines(natom) <= |lines|
    ensures var r := ReadBlock(lines, start, natom, scale, parse);
            r.1.Pass? ==> BlockReadsAs(lines, start, natom, scale, parse, r.0)
  {
  }

  /** Conversely, when every atom of a block reads, the block reads in full. */
  lemma ReadBlockReadsAs(lines: seq<string>, start: nat, natom: nat, scale: real,
                         parse: string -> Option<real>, vs: seq<Vec3>)
    requires start + BlockLines(natom) <= |lines|
    requires BlockReadsAs(lines, start, natom, scale, parse, vs)
    ensures ReadBlock(lines, start, natom, scale, parse) == (vs, Pass)
  {
    var r := ReadBlock(lines, start, natom, scale, parse);
    assert r == ReadBlockFrom(lines, start, natom, scale, parse, 0, []);
    forall b | 0 <= b < natom ensures AtomVec(lines, start, b, scale, parse).Success? {
      assert AtomVec(lines, start, b, scale, parse) == Success(vs[b]);
    }
    assert r.1.Pass?;
    forall b | 0 <= b < natom ensures r.0[b] == vs[b] {
      assert AtomVec(lines, start, b, scale, parse) == Success(r.0[b]);
    }
    assert r.0 == vs;
  }

  /** The lines of a well-formed file read back as the given positions,
      velocities and box values: reading succeeds and stores exactly
      those. */
  lemma ReadBlocksReadsAs(f: Frame, lines: seq<string>, layout: Layout, parse: string -> Option<real>,
                          pos: seq<Vec3>, vel: seq<Vec3>, box: seq<real>)
    requires f.natom >= 0 && f.positions == [] && f.velocities == []
    requires |lines| == ExpectedLines(layout, f.natom)
    requires BlockReadsAs(lines, 2, f.natom, 1.0, parse, pos)
    requires layout.hasVelocities ==>
               BlockReadsAs(lines, 2 + BlockLines(f.natom), f.natom, AMBER_TIME_PER_PS, parse, vel)
    requires !layout.hasVelocities ==> vel == []
    requires layout.hasBox ==>
               |box| == 6 && forall k :: 0 <= k < 6 ==> Field(lines[|lines| - 1], k, parse) == Success(box[k])
    requires !layout.hasBox ==> box == []
    ensures ReadBlocks(f, lines, layout, parse)
            == Step(SetBoxPrefix(f.(positions := pos, velocities := vel), box), Pass)
  {
    var h := BlockLines(f.natom);
    ReadBlockReadsAs(lines, 2, f.natom, 1.0, parse, pos);
    var f5 := f.(positions := pos);
    assert ReadBlocks(f, lines, layout, parse) == ReadVelocities(f5, lines, layout, parse);
    ReadVelocitiesReadsAs(f5, lines, layout, parse, vel, box);
  }

  lemma ReadVelocitiesReadsAs(f: Frame, lines: seq<string>, layout: Layout, parse: string -> Option<real>,
                              vel: seq<Vec3>, box: seq<real>)
    requires f.natom >= 0 && |f.positions| == f.natom && f.velocities == []
    requires |lines| == ExpectedLines(layout, f.natom)
    requires layout.hasVelocities ==>
               BlockReadsAs(lines, 2 + BlockLines(f.natom), f.natom, AMBER_TIME_PER_PS, parse, vel)
    requires !layout.hasVelocities ==> vel == []
    requires layout.hasBox ==>
               |box| == 6 && forall k :: 0 <= k < 6 ==> Field(lines[|lines| - 1], k, parse) == Success(box[k])
    requires !layout.hasBox ==> box == []
    ensures ReadVelocities(f, lines, layout, parse) == Step(SetBoxPrefix(f.(velocities := vel), box), Pass)
  {
    if layout.hasVelocities {
      ReadBlockReadsAs(lines, 2 + BlockLines(f.natom), f.natom, AMBER_TIME_PER_PS, parse, vel);
    }
    ReadVelocitiesThenBox(f, lines, layout, parse, vel);
    ReadBoxReadsAs(f.(velocities := vel), lines, layout, parse, box);
  }

  /** Once the velocity block has read as `vel`, what remains is the box line. */
  lemma ReadVelocitiesThenBox(f: Frame, lines: seq<string>, layout: Layout, parse: string -> Option<real>,
                              vel: seq<Vec3>)
    requires f.natom >= 0 && |f.positions| == f.natom && f.velocities == []
    requires |lines| == ExpectedLines(layout, f.natom)
    requires layout.hasVelocities ==>
               ReadBlock(lines, 2 + BlockLines(f.natom), f.natom, AMBER_TIME_PER_PS, parse) == (vel, Pass)
    requires !layout.hasVelocities ==> vel == []
    ensures ReadVelocities(f, lines, layout, parse) == ReadBoxLine(f.(velocities := vel), lines, layout, parse)
  {
    if !layout.hasVelocities {
      assert f.(velocities := vel) == f;
    }
  }

  lemma ReadBoxReadsAs(f: Frame, lines: seq<string>, layout: Layout, parse: string -> Option<real>, box: seq<real>)
    requires f.natom >= 0 && |lines| == ExpectedLines(layout, f.natom)
    requires layout.hasBox ==>
               |box| == 6 && forall k :: 0 <= k < 6 ==> Field(lines[|lines| - 1], k, parse) == Success(box[k])
    requires !layout.hasBox ==> box == []
    ensures ReadBoxLine(f, lines, layout, parse) == Step(SetBoxPrefix(f, box), Pass)
  {
    if layout.hasBox {
      var line := lines[|lines| - 1];
      forall k | 0 <= k < 6 ensures Field(line, k, parse).Success? {
        assert Field(line, k, parse) == Success(box[k]);
      }
      var rf := ReadFields(line, 0, 6, parse);
      ReadFieldsValues(line, 0, 6, parse);
      assert ReadBox(f, line, parse).outcome.Pass?;
      assert rf.1.Pass?;
      forall i | 0 <= i < 6 ensures rf.0[i] == box[i] {
        assert Field(line, i, parse) == Success(rf.0[i]);
      }
      assert rf.0 == box;
    } else {
      assert SetBoxPrefix(f, box) == f;
    }
  }

  /** What a successful read of the velocity block and box line stores. */
  lemma ReadVelocitiesPass(f: Frame, lines: seq<string>, layout: Layout, parse: string -> Option<real>)
    requires f.natom >= 0 && |f.positions| == f.natom && f.velocities == []
    requires |lines| == ExpectedLines(layout, f.natom)
    ensures var r := ReadVelocities(f, lines, layout, parse);
            r.outcome.Pass? ==>
              && r.state.(velocities := [], boxA := f.boxA, boxB := f.boxB, boxC := f.boxC,
                          alpha := f.alpha, beta := f.beta, gamma := f.gamma) == f
              && (layout.hasVelocities ==>
                    ReadBlock(lines, 2 + BlockLines(f.natom), f.natom, AMBER_TIME_PER_PS, parse) == (r.state.velocities, Pass))
              && (!layout.hasVelocities ==> r.state.velocities == [])
              && (layout.hasBox ==>
                    forall k :: 0 <= k < 6 ==> Field(lines[|lines| - 1], k, parse) == Success(BoxValues(r.state)[k]))
              && (!layout.hasBox ==> BoxValues(r.state) == BoxValues(f))
  {
    if layout.hasVelocities {
      var b := ReadBlock(lines, 2 + BlockLines(f.natom), f.natom, AMBER_TIME_PER_PS, parse);
      if b.1.Pass? {
        ReadVelocitiesThenBox(f, lines, layout, parse, b.0);
        BoxAfterVelocities(f, lines, layout, parse, b.0);
      } else {
        ReadVelocitiesBlockFails(f, lines, layout, parse);
      }
    } else {
      ReadVelocitiesThenBox(f, lines, layout, parse, []);
      BoxAfterVelocities(f, lines, layout, parse, []);
    }
  }

  /** What a successful box read after the velocity block `vel` stores. */
  lemma BoxAfterVelocities(f: Frame, lines: seq<string>, layout: Layout, parse: string -> Option<real>,
                           vel: seq<Vec3>)
    requires f.natom >= 0 && f.velocities == [] && |lines| == ExpectedLines(layout, f.natom)
    ensures var r := ReadBoxLine(f.(velocities := vel), lines, layout, parse);
            r.outcome.Pass? ==>
              && r.state.(velocities := [], boxA := f.boxA, boxB := f.boxB, boxC := f.boxC,
                          alpha := f.alpha, beta := f.beta, gamma := f.gamma) == f
              && r.state.velocities == vel
              && (layout.hasBox ==>
                    forall k :: 0 <= k < 6 ==> Field(lines[|lines| - 1], k, parse) == Success(BoxValues(r.state)[k]))
              && (!layout.hasBox ==> BoxValues(r.state) == BoxValues(f))
  {
    var g := f.(velocities := vel);
    ReadBoxLinePass(g, lines, layout, parse);
    var r := ReadBoxLine(g, lines, layout, parse);
    if r.outcome.Pass? {
      VelocitiesAndBoxOnly(f, g, r.state, vel);
    }
  }

  /** A velocity block that does not read fails the whole read. */
  lemma ReadVelocitiesBlockFails(f: Frame, lines: seq<string>, layout: Layout, parse: string -> Option<real>)
    requires f.natom >= 0 && |f.positions| == f.natom && f.velocities == []
    requires |lines| == ExpectedLines(layout, f.natom) && layout.hasVelocities
    requires ReadBlock(lines, 2 + BlockLines(f.natom), f.natom, AMBER_TIME_PER_PS, parse).1.Fail?
    ensures ReadVelocities(f, lines, layout, parse).outcome.Fail?
  {
  }

  /** A frame that differs from `f` only in the velocities and then only in
      the box differs from `f` only in those. */
  lemma VelocitiesAndBoxOnly(f: Frame, g: Frame, s: Frame, vel: seq<Vec3>)
    requires f.velocities == [] && g == f.(velocities := vel)
    requires s.(boxA := g.boxA, boxB := g.boxB, boxC := g.boxC,
                alpha := g.alpha, beta := g.beta, gamma := g.gamma) == g
    ensures s.velocities == vel
    ensures s.(velocities := [], boxA := f.boxA, boxB := f.boxB, boxC := f.boxC,
               alpha := f.alpha, beta := f.beta, gamma := f.gamma) == f
  {
  }

  /** What a successful read of the box line stores. */
  lemma ReadBoxLinePass(g: Frame, lines: seq<string>, layout: Layout, parse: string -> Option<real>)
    requires g.natom >= 0 && |lines| == ExpectedLines(layout, g.natom)
    ensures var r := ReadBoxLine(g, lines, layout, parse);
            r.outcome.Pass? ==>
              && r.state.(boxA := g.boxA, boxB := g.boxB, boxC := g.boxC,
                          alpha := g.alpha, beta := g.beta, gamma := g.gamma) == g
              && (layout.hasBox ==>
                    forall k :: 0 <= k < 6 ==> Field(lines[|lines| - 1], k, parse) == Success(BoxValues(r.state)[k]))
              && (!layout.hasBox ==> BoxValues(r.state) == BoxValues(g))
  {
  }

  /** What a successful read stores: the atoms of the coordinate block, those
      of the velocity block when the layout has one (and none otherwise),
      and the six fields of the box line when it has one (otherwise the box
      is left as it was). */
  lemma ReadBlocksPass(f: Frame, lines: seq<string>, layout: Layout, parse: string -> Option<real>)
    requires f.natom >= 0 && f.positions == [] && f.velocities == []
    requires |lines| == ExpectedLines(layout, f.natom)
    ensures var r := ReadBlocks(f, lines, layout, parse);
            r.outcome.Pass? ==>
              && r.state.(positions := [], velocities := [], boxA := f.boxA, boxB := f.boxB, boxC := f.boxC,
                          alpha := f.alpha, beta := f.beta, gamma := f.gamma) == f
              && BlockReadsAs(lines, 2, f.natom, 1.0, parse, r.state.positions)
              && (layout.hasVelocities ==>
                    BlockReadsAs(lines, 2 + BlockLines(f.natom), f.natom, AMBER_TIME_PER_PS, parse, r.state.velocities))
              && (!layout.hasVelocities ==> r.state.velocities == [])
              && (layout.hasBox ==>
                    forall k :: 0 <= k < 6 ==> Field(lines[|lines| - 1], k, parse) == Success(BoxValues(r.state)[k]))
              && (!layout.hasBox ==> BoxValues(r.state) == BoxValues(f))
  {
    var r := ReadBlocks(f, lines, layout, parse);
    var (pos, o) := ReadBlock(lines, 2, f.natom, 1.0, parse);
    if o.Pass? {
      var f5 := f.(positions := pos);
      assert r == ReadVelocities(f5, lines, layout, parse);
      ReadVelocitiesPass(f5, lines, layout, parse);
      if r.outcome.Pass? {
        BlockReadsAsOfRead(lines, 2, f.natom, 1.0, parse, r.state.positions);
        if layout.hasVelocities {
          BlockReadsAsOfRead(lines, 2 + BlockLines(f.natom), f.natom, AMBER_TIME_PER_PS, parse, r.state.velocities);
        }
      }
    }
  }

  lemma BlockReadsAsOfRead(lines: seq<string>, start: nat, natom: nat, scale: real,
                           parse: string -> Option<real>, vs: seq<Vec3>)
    requires start + BlockLines(natom) <= |lines|
    requires ReadBlock(lines, start, natom, scale, parse) == (vs, Pass)
    ensures BlockReadsAs(lines, start, natom, scale, parse, vs)
  {
    ReadBlockPass(lines, start, natom, scale, parse);
  }

  /** A successful read takes the atom count from the header and the layout
      from the line count, and stores what `ReadBlocksPass` describes; a
      header with more than two words also sets the REMD flag and the
      temperature (the third word). */
  lemma ReadRst7Pass(f: Frame, lines: seq<string>, parse: string -> Option<real>)
    ensures ReadRst7(f, lines, parse).outcome.Pass? ==>
              |lines| >= 2 && |StringManip.SplitWords(lines[1])| >= 1
    ensures ReadRst7(f, lines, parse).outcome.Pass? ==>
            var words := StringManip.SplitWords(lines[1]);
            var r := ReadRst7(f, lines, parse);
            var g := f.(natom := r.state.natom, positions := [], velocities := [],
                        hasRemd := f.hasRemd || |words| > 2,
                        temp0 := if |words| > 2 then parse(words[2]).value else f.temp0);
            && HeaderAtoms(words, parse) == Some(r.state.natom)
            && r.state.natom >= 0
            && (|words| > 2 ==> parse(words[2]).Some?)
            && Classify(|lines|, r.state.natom).Some?
            && r == ReadBlocks(g, lines, Classify(|lines|, r.state.natom).value, parse)
  {
  }

  /** Reading is not atomic: a file whose line count matches no layout still
      sets the atom count, after which the frame's arrays no longer match
      it. */
  lemma ReadRst7KeepsAtomCountOnFailure(f: Frame, lines: seq<string>, parse: string -> Option<real>)
    requires |lines| == 3
    requires StringManip.SplitWords(lines[1]) == ["7"] && parse("7") == Some(7.0)
    ensures var r := ReadRst7(f, lines, parse);
            r.outcome == Fail(UnknownLineCount) && r.state == f.(natom := 7)
  {
    assert TruncToInt(7.0) == 7;
    assert BlockLines(7) == 4;
  }

  // ---------------------------------------------------------------- writer

  /** The three `%12.7f` fields of a vector. */
  function Fmt3(v: Vec3, fmt: real -> string): string {
    fmt(v.x) + fmt(v.y) + fmt(v.z)
  }

  /** The writer's loop from atom `i` on: each atom's three fields, a newline
      after every second atom, and a final newline when the count is odd. */
  function BlockFrom(vs: seq<Vec3>, n: int, i: nat, scale: real, fmt: real -> string): (r: string)
    requires n <= |vs|
    decreases n - i
  {
    if i >= n then (if CMod(n, 2) == 1 then "\n" else "")
    else Fmt3(Scale(vs[i], scale), fmt) + (if i % 2 == 1 then "\n" else "") + BlockFrom(vs, n, i + 1, scale, fmt)
  }

  /** Line `j` of a block: atoms 2j and, if present, 2j+1. */
  function PairLine(vs: seq<Vec3>, n: int, j: nat, scale: real, fmt: real -> string): string
    requires 2 * j < n <= |vs|
  {
    Fmt3(Scale(vs[2 * j], scale), fmt) + (if 2 * j + 1 < n then Fmt3(Scale(vs[2 * j + 1], scale), fmt) else "")
  }

  function PairLinesFrom(vs: seq<Vec3>, n: int, j: nat, scale: real, fmt: real -> string): (r: seq<string>)
    requires n <= |vs|
    ensures 2 * j < n ==> |r| == BlockLines(n) - j
    ensures 2 * j >= n ==> r == []
    ensures forall m :: 0 <= m < |r| ==> 2 * (j + m) < n && r[m] == PairLine(vs, n, j + m, scale, fmt)
    decreases n - 2 * j
  {
    if 2 * j >= n then [] else [PairLine(vs, n, j, scale, fmt)] + PairLinesFrom(vs, n, j + 1, scale, fmt)
  }

  /** Lines as a stream: each line followed by a newline. */
  function JoinLines(ls: seq<string>): string {
    if ls == [] then "" else ls[0] + "\n" + JoinLines(ls[1..])
  }

  lemma {:induction false} JoinLinesAppend(a: seq<string>, b: seq<string>)
    ensures JoinLines(a + b) == JoinLines(a) + JoinLines(b)
    decreases |a|
  {
    if a == [] {
      assert a + b == b;
    } else {
      assert (a + b)[1..] == a[1..] + b;
      JoinLinesAppend(a[1..], b);
    }
  }

  /** Past the last atom of an even or empty block the writer adds nothing. */
  lemma BlockEndsWithoutNewline(vs: seq<Vec3>, n: int, j: nat, scale: real, fmt: real -> string)
    requires n <= |vs| && 2 * j >= n && (j == 0 || 2 * j == n)
    ensures BlockFrom(vs, n, 2 * j, scale, fmt) == ""
  {
    if n > 0 {
      assert CDiv(n, 2) == j;
    }
  }

  /** After the last atom of an odd block the writer ends the line. */
  lemma BlockEndsOddLine(vs: seq<Vec3>, n: int, j: nat, scale: real, fmt: real -> string)
    requires n <= |vs| && 2 * j + 1 == n
    ensures BlockFrom(vs, n, 2 * j + 1, scale, fmt) == "\n"
  {
    assert CDiv(n, 2) == j;
  }

  lemma ConcatRegroup(a: string, b: string, c: string, d: string)
    ensures a + "" + (b + c + d) == a + b + c + d
  {
  }

  /** The writer's per-atom stream is the stream of its per-pair lines: from
      atom `i` = 2`j` on, it is the lines from line `j` on. */
  lemma {:induction false} BlockIsPairLines(vs: seq<Vec3>, n: int, j: nat, i: nat, scale: real, fmt: real -> string)
    requires n <= |vs| && i == 2 * j
    requires j == 0 || i <= n
    ensures BlockFrom(vs, n, i, scale, fmt) == JoinLines(PairLinesFrom(vs, n, j, scale, fmt))
    decreases n - i
  {
    if i >= n {
      BlockEndsWithoutNewline(vs, n, j, scale, fmt);
    } else if i + 1 == n {
      BlockEndsOddLine(vs, n, j, scale, fmt);
      assert PairLinesFrom(vs, n, j + 1, scale, fmt) == [];
      assert JoinLines(PairLinesFrom(vs, n, j, scale, fmt))
          == PairLine(vs, n, j, scale, fmt) + "\n" + JoinLines([]);
    } else {
      BlockIsPairLines(vs, n, j + 1, i + 2, scale, fmt);
      BlockFullPair(vs, n, j, i, scale, fmt);
      JoinLinesCons(PairLine(vs, n, j, scale, fmt), PairLinesFrom(vs, n, j + 1, scale, fmt));
    }
  }

  /** Two more atoms of the writer's stream make one full line. */
  lemma BlockFullPair(vs: seq<Vec3>, n: int, j: nat, i: nat, scale: real, fmt: real -> string)
    requires n <= |vs| && i == 2 * j && i + 1 < n
    ensures BlockFrom(vs, n, i, scale, fmt)
            == PairLine(vs, n, j, scale, fmt) + "\n" + BlockFrom(vs, n, i + 2, scale, fmt)
    ensures PairLinesFrom(vs, n, j, scale, fmt)
            == [PairLine(vs, n, j, scale, fmt)] + PairLinesFrom(vs, n, j + 1, scale, fmt)
  {
    var x := Fmt3(Scale(vs[i], scale), fmt);
    var y := Fmt3(Scale(vs[i + 1], scale), fmt);
    assert i % 2 == 0 && (i + 1) % 2 == 1;
    assert BlockFrom(vs, n, i + 1, scale, fmt) == y + "\n" + BlockFrom(vs, n, i + 2, scale, fmt);
    assert BlockFrom(vs, n, i, scale, fmt) == x + "" + (y + "\n" + BlockFrom(vs, n, i + 2, scale, fmt));
    ConcatRegroup(x, y, "\n", BlockFrom(vs, n, i + 2, scale, fmt));
  }

  lemma JoinLinesCons(l: string, ls: seq<string>)
    ensures JoinLines([l] + ls) == l + "\n" + JoinLines(ls)
  {
    assert ([l] + ls)[1..] == ls;
  }

  function Block(vs: seq<Vec3>, n: int, scale: real, fmt: real -> string): string
    requires n <= |vs|
  {
    BlockFrom(vs, n, 0, scale, fmt)
  }

  function PairLines(vs: seq<Vec3>, n: int, scale: real, fmt: real -> string): seq<string>
    requires n <= |vs|
  {
    PairLinesFrom(vs, n, 0, scale, fmt)
  }

  predicate BoxWritten(f: Frame) {
    f.boxA > 0.0 && f.boxB > 0.0 && f.boxC > 0.0 && f.alpha > 0.0 && f.beta > 0.0 && f.gamma > 0.0
  }

  function BoxLine(f: Frame, fmt: real -> string): string {
    fmt(f.boxA) + fmt(f.boxB) + fmt(f.boxC) + fmt(f.alpha) + fmt(f.beta) + fmt(f.gamma)
  }

  /** What the writer reads of the frame without a check: a coordinate, and
      a velocity when any is stored, for every atom. */
  predicate Writable(f: Frame) {
    f.natom <= |f.positions| && (|f.velocities| > 0 ==> f.natom <= |f.velocities|)
  }

  /** Writes the frame as ASCII restart text.  `canOpen` says whether the
      output file could be opened. */
  function WriteRst7(f: Frame, netcdf: bool, canOpen: bool, fmt: real -> string, fmtInt: int -> string): (r: Result<string, CrdError>)
    requires Writable(f)
  {
    if netcdf then Failure(NetcdfUnsupported)
    else if !canOpen then Failure(CannotOpenForWriting)
    else
      Success("\n" + fmtInt(f.natom) + "\n"
              + Block(f.positions, f.natom, 1.0, fmt)
              + (if |f.velocities| > 0 then Block(f.velocities, f.natom, PS_PER_AMBER_TIME, fmt) else "")
              + (if BoxWritten(f) then BoxLine(f, fmt) + "\n" else ""))
  }

  /** The lines of the text the writer emits. */
  function WrittenLines(f: Frame, fmt: real -> string, fmtInt: int -> string): seq<string>
    requires Writable(f)
  {
    ["", fmtInt(f.natom)]
      + PairLines(f.positions, f.natom, 1.0, fmt)
      + (if |f.velocities| > 0 then PairLines(f.velocities, f.natom, PS_PER_AMBER_TIME, fmt) else [])
      + (if BoxWritten(f) then [BoxLine(f, fmt)] else [])
  }

  /** The writer emits a header (an empty line and the atom count), one line
      per pair of atoms for the coordinates, the same for the velocities if
      there are any, and the box line if every box value is positive. */
  lemma WriteRst7Lines(f: Frame, fmt: real -> string, fmtInt: int -> string)
    requires Writable(f)
    ensures WriteRst7(f, false, true, fmt, fmtInt) == Success(JoinLines(WrittenLines(f, fmt, fmtInt)))
    ensures WriteRst7(f, true, true, fmt, fmtInt) == Failure(NetcdfUnsupported)
    ensures WriteRst7(f, true, false, fmt, fmtInt) == Failure(NetcdfUnsupported)
    ensures WriteRst7(f, false, false, fmt, fmtInt) == Failure(CannotOpenForWriting)
  {
    var hdr := ["", fmtInt(f.natom)];
    var p := PairLines(f.positions, f.natom, 1.0, fmt);
    var v := if |f.velocities| > 0 then PairLines(f.velocities, f.natom, PS_PER_AMBER_TIME, fmt) else [];
    var b := if BoxWritten(f) then [BoxLine(f, fmt)] else [];
    var tp := Block(f.positions, f.natom, 1.0, fmt);
    var tv := if |f.velocities| > 0 then Block(f.velocities, f.natom, PS_PER_AMBER_TIME, fmt) else "";
    var tb := if BoxWritten(f) then BoxLine(f, fmt) + "\n" else "";
    BlockIsPairLines(f.positions, f.natom, 0, 0, 1.0, fmt);
    assert JoinLines(p) == tp;
    if |f.velocities| > 0 {
      BlockIsPairLines(f.velocities, f.natom, 0, 0, PS_PER_AMBER_TIME, fmt);
    }
    assert JoinLines(v) == tv;
    assert JoinLines(b) == tb by {
      if BoxWritten(f) {
        assert JoinLines(b) == BoxLine(f, fmt) + "\n" + JoinLines([]);
      }
    }
    HeaderText(fmtInt(f.natom));
    JoinLinesAppend(hdr, p);
    JoinLinesAppend(hdr + p, v);
    JoinLinesAppend(hdr + p + v, b);
    assert WrittenLines(f, fmt, fmtInt) == hdr + p + v + b;
    assert JoinLines(hdr + p + v + b) == "\n" + fmtInt(f.natom) + "\n" + tp + tv + tb;
  }

  lemma HeaderText(w: string)
    ensures JoinLines(["", w]) == "\n" + w + "\n"
  {
    assert ["", w][1..] == [w];
    assert JoinLines([w]) == w + "\n" + JoinLines([]);
    assert JoinLines(["", w]) == "" + "\n" + JoinLines([w]);
    ConcatRegroup("", "\n", w, "\n");
  }

  /** The writer emits exactly the number of lines the reader expects for
      the frame's layout. */
  lemma WrittenLineCount(f: Frame, fmt: real -> string, fmtInt: int -> string)
    requires Writable(f) && f.natom >= 0
    ensures |WrittenLines(f, fmt, fmtInt)| == ExpectedLines(Layout(|f.velocities| > 0, BoxWritten(f)), f.natom)
  {
    if f.natom == 0 {
      assert BlockLines(0) == 0;
    }
  }

  // ------------------------------------------------------------ round trip

  /** Value `x` is printed twelve characters wide and parses back to
      itself. */
  predicate Lossless(parse: string -> Option<real>, fmt: real -> string, x: real) {
    |fmt(x)| == 12 && parse(fmt(x)) == Some(x)
  }

  /** Every value of `parts` is printed without loss. */
  predicate LosslessAll(parse: string -> Option<real>, fmt: real -> string, parts: seq<real>) {
    forall k :: 0 <= k < |parts| ==> Lossless(parse, fmt, parts[k])
  }

  /** Every component the writer prints for the vectors `vs`, scaled by
      `scale`, is printed without loss. */
  predicate LosslessBlock(parse: string -> Option<real>, fmt: real -> string, vs: seq<Vec3>, scale: real) {
    forall a :: 0 <= a < |vs| ==> LosslessAll(parse, fmt, Components(Scale(vs[a], scale)))
  }

  /** Every value the writer prints for the frame is printed without loss:
      the positions, the velocities in the file's units and the box when it
      is written.  Values the writer does not print are unconstrained. */
  predicate LosslessFrame(parse: string -> Option<real>, fmt: real -> string, f: Frame) {
    && LosslessBlock(parse, fmt, f.positions, 1.0)
    && LosslessBlock(parse, fmt, f.velocities, PS_PER_AMBER_TIME)
    && (BoxWritten(f) ==> LosslessAll(parse, fmt, BoxValues(f)))
  }

  /** The atom-count line is a single word that parses back to the count. */
  predicate IdealHeader(parse: string -> Option<real>, fmtInt: int -> string, natom: int) {
    && |StringManip.SplitWords(fmtInt(natom))| == 1
    && parse(StringManip.SplitWords(fmtInt(natom))[0]) == Some(natom as real)
  }

  /** The fields of a sequence of values, side by side. */
  function FmtAll(parts: seq<real>, fmt: real -> string): string {
    if parts == [] then "" else fmt(parts[0]) + FmtAll(parts[1..], fmt)
  }

  lemma {:induction false} FmtAllAppend(a: seq<real>, b: seq<real>, fmt: real -> string)
    ensures FmtAll(a + b, fmt) == FmtAll(a, fmt) + FmtAll(b, fmt)
    decreases |a|
  {
    if a == [] {
      assert a + b == b;
    } else {
      assert (a + b)[1..] == a[1..] + b;
      FmtAllAppend(a[1..], b, fmt);
    }
  }

  lemma FmtAllOfThree(x: real, y: real, z: real, fmt: real -> string)
    ensures FmtAll([x, y, z], fmt) == fmt(x) + fmt(y) + fmt(z)
  {
    assert [x, y, z][1..] == [y, z];
    assert [y, z][1..] == [z];
    assert [z][1..] == [];
    assert FmtAll([z], fmt) == fmt(z) + FmtAll([], fmt);
    assert FmtAll([y, z], fmt) == fmt(y) + FmtAll([z], fmt);
    assert FmtAll([x, y, z], fmt) == fmt(x) + FmtAll([y, z], fmt);
  }

  /** Field `k` of side-by-side twelve-character fields is value `k`. */
  lemma {:induction false} FmtAllCell(parts: seq<real>, k: nat, fmt: real -> string)
    requires forall i :: 0 <= i < |parts| ==> |fmt(parts[i])| == 12
    requires k < |parts|
    ensures |FmtAll(parts, fmt)| == 12 * |parts|
    ensures 12 * k <= |FmtAll(parts, fmt)| && Cell(FmtAll(parts, fmt), k) == fmt(parts[k])
    decreases |parts|
  {
    var s := FmtAll(parts, fmt);
    var t := FmtAll(parts[1..], fmt);
    assert s == fmt(parts[0]) + t;
    var x0 := parts[0];
    assert |fmt(x0)| == 12;
    if k == 0 {
      if |parts| > 1 {
        FmtAllCell(parts[1..], 0, fmt);
      }
      assert s[0..12] == fmt(x0);
    } else {
      FmtAllCell(parts[1..], k - 1, fmt);
      assert 12 * k == 12 * (k - 1) + 12;
      assert s[12 * k..12 * k + 12] == t[12 * (k - 1)..12 * (k - 1) + 12];
    }
  }

  lemma FieldOfFormatted(parts: seq<real>, k: nat, parse: string -> Option<real>, fmt: real -> string)
    requires LosslessAll(parse, fmt, parts)
    requires k < |parts|
    ensures Field(FmtAll(parts, fmt), k, parse) == Success(parts[k])
  {
    assert forall i :: 0 <= i < |parts| ==> |fmt(parts[i])| == 12 by {
      forall i | 0 <= i < |parts| ensures |fmt(parts[i])| == 12 {
        assert Lossless(parse, fmt, parts[i]);
      }
    }
    FmtAllCell(parts, k, fmt);
    var x := parts[k];
    assert Lossless(parse, fmt, x);
  }

  function Components(v: Vec3): seq<real> {
    [v.x, v.y, v.z]
  }

  /** A written line is the fields of its one or two atoms side by side. */
  lemma PairLineFields(vs: seq<Vec3>, n: int, j: nat, scale: real, fmt: real -> string)
    requires 2 * j < n <= |vs|
    ensures PairLine(vs, n, j, scale, fmt)
            == FmtAll(Components(Scale(vs[2 * j], scale))
                      + (if 2 * j + 1 < n then Components(Scale(vs[2 * j + 1], scale)) else []), fmt)
  {
    var v0 := Scale(vs[2 * j], scale);
    var c0 := Components(v0);
    FmtAllOfThree(v0.x, v0.y, v0.z, fmt);
    if 2 * j + 1 < n {
      var v1 := Scale(vs[2 * j + 1], scale);
      var c1 := Components(v1);
      FmtAllOfThree(v1.x, v1.y, v1.z, fmt);
      FmtAllAppend(c0, c1, fmt);
    } else {
      assert c0 + [] == c0;
    }
  }

  lemma CancelScale(p: real, x: real, wscale: real, rscale: real)
    requires p == x * wscale && wscale * rscale == 1.0
    ensures p * rscale == x
  {
    assert p * rscale == x * (wscale * rscale);
  }

  /** Scaling by `wscale` and then by `rscale` gives the vector back. */
  lemma CancelScaleVec(p: Vec3, v: Vec3, wscale: real, rscale: real)
    requires p == Scale(v, wscale) && wscale * rscale == 1.0
    ensures Scale(p, rscale) == v
  {
    CancelScale(p.x, v.x, wscale, rscale);
    CancelScale(p.y, v.y, wscale, rscale);
    CancelScale(p.z, v.z, wscale, rscale);
  }

  /** Three fields that read as `x`, `y`, `z` read as one scaled vector. */
  lemma ReadVecOfFields(line: string, k: nat, x: real, y: real, z: real, rscale: real,
                        parse: string -> Option<real>)
    requires Field(line, k, parse) == Success(x) && Field(line, k + 1, parse) == Success(y)
    requires Field(line, k + 2, parse) == Success(z)
    ensures ReadVec(line, k, rscale, parse) == Success(Scale(Vec3(x, y, z), rscale))
  {
    var r := ReadVec(line, k, rscale, parse);
    assert r.Success?;
    assert Field(line, k, parse).value == x;
  }

  /** Fields k, k+1, k+2 of side-by-side values read as one vector. */
  lemma ReadVecOfFormatted(parts: seq<real>, k: nat, v: Vec3, wscale: real, rscale: real,
                           parse: string -> Option<real>, fmt: real -> string)
    requires LosslessAll(parse, fmt, parts)
    requires k + 2 < |parts| && parts[k] == v.x * wscale && parts[k + 1] == v.y * wscale
             && parts[k + 2] == v.z * wscale
    requires wscale * rscale == 1.0
    ensures ReadVec(FmtAll(parts, fmt), k, rscale, parse) == Success(v)
  {
    var line := FmtAll(parts, fmt);
    var x, y, z := parts[k], parts[k + 1], parts[k + 2];
    CancelScaleVec(Vec3(x, y, z), v, wscale, rscale);
    FieldOfFormatted(parts, k, parse, fmt);
    FieldOfFormatted(parts, k + 1, parse, fmt);
    FieldOfFormatted(parts, k + 2, parse, fmt);
    ReadVecOfFields(line, k, x, y, z, rscale, parse);
  }

  /** The reader recovers every atom of a block the writer emitted; the
      scalings of writing and reading cancel. */
  lemma ReadBackAtom(lines: seq<string>, start: nat, vs: seq<Vec3>, n: int, a: nat,
                     wscale: real, rscale: real, parse: string -> Option<real>, fmt: real -> string)
    requires LosslessBlock(parse, fmt, vs, wscale)
    requires 0 <= a < n <= |vs| && wscale * rscale == 1.0
    requires start + a / 2 < |lines| && lines[start + a / 2] == PairLine(vs, n, a / 2, wscale, fmt)
    ensures AtomVec(lines, start, a, rscale, parse) == Success(vs[a])
  {
    var j := a / 2;
    var slot := a % 2;
    assert a == 2 * j + slot;
    ReadBackSlot(vs, n, j, slot, wscale, rscale, parse, fmt);
  }

  /** Atom `slot` of written line `j` reads back from fields 3 * slot on. */
  lemma ReadBackSlot(vs: seq<Vec3>, n: int, j: nat, slot: nat, wscale: real, rscale: real,
                     parse: string -> Option<real>, fmt: real -> string)
    requires LosslessBlock(parse, fmt, vs, wscale)
    requires slot < 2 && 2 * j + slot < n <= |vs| && wscale * rscale == 1.0
    ensures ReadVec(PairLine(vs, n, j, wscale, fmt), 3 * slot, rscale, parse) == Success(vs[2 * j + slot])
  {
    var c0 := Components(Scale(vs[2 * j], wscale));
    var c1 := if 2 * j + 1 < n then Components(Scale(vs[2 * j + 1], wscale)) else [];
    PairLineFields(vs, n, j, wscale, fmt);
    LosslessPair(vs, n, j, wscale, parse, fmt);
    ReadVecOfFormatted(c0 + c1, 3 * slot, vs[2 * j + slot], wscale, rscale, parse, fmt);
  }

  /** The values of one written line are printed without loss. */
  lemma LosslessPair(vs: seq<Vec3>, n: int, j: nat, wscale: real, parse: string -> Option<real>, fmt: real -> string)
    requires LosslessBlock(parse, fmt, vs, wscale)
    requires 2 * j < n <= |vs|
    ensures LosslessAll(parse, fmt, Components(Scale(vs[2 * j], wscale))
                                    + (if 2 * j + 1 < n then Components(Scale(vs[2 * j + 1], wscale)) else []))
  {
    var c0 := Components(Scale(vs[2 * j], wscale));
    var c1 := if 2 * j + 1 < n then Components(Scale(vs[2 * j + 1], wscale)) else [];
    assert LosslessAll(parse, fmt, c0);
    assert LosslessAll(parse, fmt, c1);
    forall k | 0 <= k < |c0 + c1| ensures Lossless(parse, fmt, (c0 + c1)[k]) {
      if k < 3 {
        assert (c0 + c1)[k] == c0[k];
      } else {
        assert (c0 + c1)[k] == c1[k - 3];
      }
    }
  }

  /** Every atom of a written block reads back. */
  lemma ReadBackBlock(lines: seq<string>, start: nat, vs: seq<Vec3>, n: nat,
                      wscale: real, rscale: real, parse: string -> Option<real>, fmt: real -> string)
    requires LosslessBlock(parse, fmt, vs, wscale)
    requires n == |vs| && wscale * rscale == 1.0
    requires start + BlockLines(n) <= |lines|
    requires lines[start..start + BlockLines(n)] == PairLines(vs, n, wscale, fmt)
    ensures BlockReadsAs(lines, start, n, rscale, parse, vs)
  {
    forall a | 0 <= a < n ensures AtomVec(lines, start, a, rscale, parse) == Success(vs[a]) {
      assert lines[start + a / 2] == lines[start..start + BlockLines(n)][a / 2];
      ReadBackAtom(lines, start, vs, n, a, wscale, rscale, parse, fmt);
    }
  }

  /** The box line's six fields read back as the six box values. */
  lemma ReadBackBox(f: Frame, parse: string -> Option<real>, fmt: real -> string)
    requires LosslessAll(parse, fmt, BoxValues(f))
    ensures forall k :: 0 <= k < 6 ==> Field(BoxLine(f, fmt), k, parse) == Success(BoxValues(f)[k])
  {
    var parts := BoxValues(f);
    FmtAllOfThree(f.boxA, f.boxB, f.boxC, fmt);
    FmtAllOfThree(f.alpha, f.beta, f.gamma, fmt);
    assert parts == [f.boxA, f.boxB, f.boxC] + [f.alpha, f.beta, f.gamma];
    FmtAllAppend([f.boxA, f.boxB, f.boxC], [f.alpha, f.beta, f.gamma], fmt);
    assert BoxLine(f, fmt) == FmtAll(parts, fmt);
    forall k | 0 <= k < 6 ensures Field(BoxLine(f, fmt), k, parse) == Success(BoxValues(f)[k]) {
      FieldOfFormatted(parts, k, parse, fmt);
    }
  }

  /** The header of a written file reads as the frame's atom count. */
  lemma ReadBackHeader(f: Frame, g: Frame, parse: string -> Option<real>, fmt: real -> string, fmtInt: int -> string)
    requires Writable(f) && f.natom >= 0
    requires IdealHeader(parse, fmtInt, f.natom)
    requires Classify(|WrittenLines(f, fmt, fmtInt)|, f.natom).Some?
    ensures var lines := WrittenLines(f, fmt, fmtInt);
            ReadRst7(g, lines, parse)
            == ReadBlocks(g.(natom := f.natom, positions := [], velocities := []), lines,
                          Classify(|lines|, f.natom).value, parse)
  {
    var lines := WrittenLines(f, fmt, fmtInt);
    assert lines[1] == fmtInt(f.natom);
    assert TruncToInt(f.natom as real) == f.natom;
  }

  /** Where each part of the written file sits among its lines. */
  lemma WrittenLinesShape(f: Frame, fmt: real -> string, fmtInt: int -> string)
    requires Writable(f) && f.natom >= 0
    ensures var lines := WrittenLines(f, fmt, fmtInt);
            var h := BlockLines(f.natom);
            && |lines| == ExpectedLines(Layout(|f.velocities| > 0, BoxWritten(f)), f.natom)
            && lines[1] == fmtInt(f.natom)
            && lines[2..2 + h] == PairLines(f.positions, f.natom, 1.0, fmt)
            && (|f.velocities| > 0 ==> lines[2 + h..2 + h + h] == PairLines(f.velocities, f.natom, PS_PER_AMBER_TIME, fmt))
            && (BoxWritten(f) ==> lines[|lines| - 1] == BoxLine(f, fmt))
  {
    var n := f.natom;
    var h := BlockLines(n);
    var hdr := ["", fmtInt(n)];
    var p := PairLines(f.positions, n, 1.0, fmt);
    var v := if |f.velocities| > 0 then PairLines(f.velocities, n, PS_PER_AMBER_TIME, fmt) else [];
    var b := if BoxWritten(f) then [BoxLine(f, fmt)] else [];
    WrittenLineCount(f, fmt, fmtInt);
    assert |p| == h by {
      if n == 0 {
        assert h == 0;
      }
    }
    assert WrittenLines(f, fmt, fmtInt) == hdr + p + v + b;
    ConcatParts(hdr, p, v, b);
  }

  /** Where each of four concatenated parts sits in the whole. */
  lemma ConcatParts<T>(a: seq<T>, p: seq<T>, v: seq<T>, b: seq<T>)
    ensures (a + p + v + b)[|a|..|a| + |p|] == p
    ensures (a + p + v + b)[|a| + |p|..|a| + |p| + |v|] == v
    ensures |b| == 1 ==> (a + p + v + b)[|a + p + v + b| - 1] == b[0]
  {
    assert a + p + v + b == a + (p + (v + b));
    assert (a + p + v + b)[|a| + |p|..] == v + b;
  }

  /** Both blocks of a written file read back as the frame's positions and
      velocities. */
  lemma ReadBackBlocks(f: Frame, parse: string -> Option<real>, fmt: real -> string, fmtInt: int -> string)
    requires Consistent(f) && f.natom >= 0 && |f.positions| == f.natom
    requires LosslessFrame(parse, fmt, f)
    ensures var lines := WrittenLines(f, fmt, fmtInt);
            var h := BlockLines(f.natom);
            && |lines| == ExpectedLines(Layout(|f.velocities| > 0, BoxWritten(f)), f.natom)
            && BlockReadsAs(lines, 2, f.natom, 1.0, parse, f.positions)
            && (|f.velocities| > 0 ==> BlockReadsAs(lines, 2 + h, f.natom, AMBER_TIME_PER_PS, parse, f.velocities))
  {
    WrittenLinesShape(f, fmt, fmtInt);
    ReciprocalPairs(1.0);
    ReadBackBlocksAt(WrittenLines(f, fmt, fmtInt), f.positions, f.velocities, f.natom,
                     PS_PER_AMBER_TIME, AMBER_TIME_PER_PS, parse, fmt);
  }

  /** The two blocks of any lines laid out as the writer lays them out; the
      velocity block is written with `wscale` and read with `rscale`. */
  lemma ReadBackBlocksAt(lines: seq<string>, pos: seq<Vec3>, vel: seq<Vec3>, n: nat, wscale: real, rscale: real,
                         parse: string -> Option<real>, fmt: real -> string)
    requires LosslessBlock(parse, fmt, pos, 1.0) && LosslessBlock(parse, fmt, vel, wscale)
    requires wscale * rscale == 1.0
    requires |pos| == n && (|vel| > 0 ==> |vel| == n)
    requires 2 + BlockLines(n) <= |lines|
    requires lines[2..2 + BlockLines(n)] == PairLines(pos, n, 1.0, fmt)
    requires |vel| > 0 ==> 2 + BlockLines(n) + BlockLines(n) <= |lines|
                           && lines[2 + BlockLines(n)..2 + BlockLines(n) + BlockLines(n)]
                              == PairLines(vel, n, wscale, fmt)
    ensures BlockReadsAs(lines, 2, n, 1.0, parse, pos)
    ensures |vel| > 0 ==> BlockReadsAs(lines, 2 + BlockLines(n), n, rscale, parse, vel)
  {
    ReadBackBlock(lines, 2, pos, n, 1.0, 1.0, parse, fmt);
    if |vel| > 0 {
      ReadBackBlock(lines, 2 + BlockLines(n), vel, n, wscale, rscale, parse, fmt);
    }
  }

  /** A frame survives writing and reading back: the reader recovers the
      atom count, every position and velocity, and the box when it was
      written; when it was not, the reading frame keeps its own box.  The
      layout the line count cannot tell apart is excluded. */
  lemma RestartRoundTrip(f: Frame, g: Frame, parse: string -> Option<real>, fmt: real -> string, fmtInt: int -> string)
    requires Consistent(f) && f.natom >= 0 && |f.positions| == f.natom
    requires LosslessFrame(parse, fmt, f) && IdealHeader(parse, fmtInt, f.natom)
    requires !Ambiguous(Layout(|f.velocities| > 0, BoxWritten(f)), f.natom)
    ensures var r := ReadRst7(g, WrittenLines(f, fmt, fmtInt), parse);
            && r.outcome.Pass?
            && r.state.natom == f.natom
            && r.state.positions == f.positions
            && r.state.velocities == f.velocities
            && BoxValues(r.state) == (if BoxWritten(f) then BoxValues(f) else BoxValues(g))
  {
    var lines := WrittenLines(f, fmt, fmtInt);
    var n := f.natom;
    var h := BlockLines(n);
    var layout := Layout(|f.velocities| > 0, BoxWritten(f));
    WrittenLinesShape(f, fmt, fmtInt);
    assert Classify(|lines|, n) == Some(layout) by {
      if n == 0 {
        assert h == 0;
      } else {
        ClassifyRecognisesLayout(layout, n);
      }
    }
    ReadBackHeader(f, g, parse, fmt, fmtInt);
    ReadBackBlocks(f, parse, fmt, fmtInt);
    var box := if BoxWritten(f) then BoxValues(f) else [];
    if BoxWritten(f) {
      ReadBackBox(f, parse, fmt);
    }
    ReadBackLines(g, lines, layout, n, f.positions, f.velocities, box, parse);
    SetWholeBox(g.(natom := n, positions := f.positions, velocities := f.velocities), box);
  }

  /** A formatter and a parser that print and read back the values 0 and 1
      exactly, and an atom count printed as "1". */
  function ExampleFmt(x: real): string {
    if x == 1.0 then "111111111111" else "000000000000"
  }

  function ExampleParse(s: string): Option<real> {
    if s == "111111111111" || s == "1" then Some(1.0) else Some(0.0)
  }

  function ExampleFmtInt(i: int): string {
    "1"
  }

  /** One atom with a velocity and a box, every value 0 or 1. */
  function ExampleFrame(): Frame {
    Frame(1, 0.0, false, 1.0, 1.0, 1.0, 1.0, 1.0, 1.0, [Vec3(1.0, 0.0, 1.0)], [Vec3(0.0, 0.0, 0.0)])
  }

  /** The round trip's assumptions can be met: the example frame, written by
      the example formatter, is read back in full by a fresh frame. */
  lemma RestartRoundTripExample()
    ensures var r := ReadRst7(NewFrame(), WrittenLines(ExampleFrame(), ExampleFmt, ExampleFmtInt), ExampleParse);
            && r.outcome.Pass?
            && r.state.natom == 1
            && r.state.positions == [Vec3(1.0, 0.0, 1.0)]
            && r.state.velocities == [Vec3(0.0, 0.0, 0.0)]
            && BoxValues(r.state) == [1.0, 1.0, 1.0, 1.0, 1.0, 1.0]
  {
    var f := ExampleFrame();
    assert Components(Scale(f.positions[0], 1.0)) == [1.0, 0.0, 1.0];
    assert Components(Scale(f.velocities[0], PS_PER_AMBER_TIME)) == [0.0, 0.0, 0.0];
    assert LosslessFrame(ExampleParse, ExampleFmt, f);
    assert StringManip.SplitWords("1") == ["1"] by {
      assert StringManip.CStr(StringManip.WHITESPACE) == StringManip.WHITESPACE;
      assert StringManip.CStr("1") == "1";
      assert StringManip.Join(["1"], ' ') == "1";
      StringManip.TokensOfJoin(["1"], ' ', StringManip.WHITESPACE);
    }
    RestartRoundTrip(f, NewFrame(), ExampleParse, ExampleFmt, ExampleFmtInt);
  }

  /** Assigning no box value or all six: the rest of the frame is kept. */
  lemma SetWholeBox(h: Frame, box: seq<real>)
    requires |box| == 0 || |box| == 6
    ensures var r := SetBoxPrefix(h, box);
            && r.natom == h.natom && r.positions == h.positions && r.velocities == h.velocities
            && BoxValues(r) == (if |box| == 6 then box else BoxValues(h))
  {
    var r := SetBoxPrefix(h, box);
    assert r.(boxA := h.boxA, boxB := h.boxB, boxC := h.boxC,
              alpha := h.alpha, beta := h.beta, gamma := h.gamma) == h;
    if |box| == 6 {
      assert BoxValues(r) == box;
    }
  }

  /** Lines whose header has been read and whose blocks read as `pos`,
      `vel` and `box` are read as exactly those. */
  lemma ReadBackLines(g: Frame, lines: seq<string>, layout: Layout, n: nat, pos: seq<Vec3>, vel: seq<Vec3>,
                      box: seq<real>, parse: string -> Option<real>)
    requires |lines| == ExpectedLines(layout, n)
    requires ReadRst7(g, lines, parse) == ReadBlocks(g.(natom := n, positions := [], velocities := []), lines, layout, parse)
    requires BlockReadsAs(lines, 2, n, 1.0, parse, pos)
    requires layout.hasVelocities ==> BlockReadsAs(lines, 2 + BlockLines(n), n, AMBER_TIME_PER_PS, parse, vel)
    requires !layout.hasVelocities ==> vel == []
    requires layout.hasBox ==>
               |box| == 6 && forall k :: 0 <= k < 6 ==> Field(lines[|lines| - 1], k, parse) == Success(box[k])
    requires !layout.hasBox ==> box == []
    ensures ReadRst7(g, lines, parse) == Step(SetBoxPrefix(g.(natom := n, positions := pos, velocities := vel), box), Pass)
  {
    var g4 := g.(natom := n, positions := [], velocities := []);
    ReadBlocksReadsAs(g4, lines, layout, parse, pos, vel, box);
    assert g4.(positions := pos, velocities := vel) == g.(natom := n, positions := pos, velocities := vel);
  }

  /** With one or two atoms and velocities but no box, the file the writer
      emits is read as coordinates and a box, and the velocity line becomes
      the box. */
  lemma SmallRestartLosesVelocities(f: Frame, g: Frame, parse: string -> Option<real>, fmt: real -> string, fmtInt: int -> string)
    requires Consistent(f) && (f.natom == 1 || f.natom == 2) && |f.positions| == f.natom
    requires |f.velocities| > 0 && !BoxWritten(f)
    requires IdealHeader(parse, fmtInt, f.natom)
    ensures var lines := WrittenLines(f, fmt, fmtInt);
            |lines| == 4 && Classify(|lines|, f.natom) == Some(Layout(false, true))
    ensures ReadRst7(g, WrittenLines(f, fmt, fmtInt), parse).state.velocities == []
  {
    WrittenLineCount(f, fmt, fmtInt);
    SmallFileWithVelocitiesReadsAsBox(f.natom);
    ReadBackHeader(f, g, parse, fmt, fmtInt);
  }
}
