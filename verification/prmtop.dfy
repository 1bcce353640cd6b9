/** Decoding of an Amber parameter/topology (prmtop) file into the topology
    store.  The tokenizer that reads the file is not part of this model: its
    output is the input here, a map from %FLAG name to the section's values,
    together with the tokenizer's exit status. */
module Prmtop {
  import opened Wrappers
  import opened Topology
  import opened CppArith
  import opened AmberParm

  /** The tokenizer's exit status. */
  datatype ExitStatus = Parsed | NoOpen | NoVersion | EmptyInput | ParseErr

  /** A section's values; the format line of the section fixes their kind. */
  datatype Section = Ints(ints: seq<int>) | Reals(reals: seq<real>) | Strings(strs: seq<string>)
  {
    function Size(): nat {
      match this
      case Ints(s) => |s|
      case Reals(s) => |s|
      case Strings(s) => |s|
    }
  }

  type ParmData = map<string, Section>

  const POINTERS: string := "POINTERS"
  const ATOMIC_NUMBER: string := "ATOMIC_NUMBER"
  const ATOM_NAME: string := "ATOM_NAME"
  const AMBER_ATOM_TYPE: string := "AMBER_ATOM_TYPE"
  const RADII: string := "RADII"
  const SCREEN: string := "SCREEN"
  const LJ_ACOEF: string := "LENNARD_JONES_ACOEF"
  const LJ_BCOEF: string := "LENNARD_JONES_BCOEF"
  const ATOM_TYPE_INDEX: string := "ATOM_TYPE_INDEX"
  const NONBONDED_PARM_INDEX: string := "NONBONDED_PARM_INDEX"
  const MASS: string := "MASS"
  const CHARGE: string := "CHARGE"
  const BONDS_WITHOUT_HYDROGEN: string := "BONDS_WITHOUT_HYDROGEN"
  const BONDS_INC_HYDROGEN: string := "BONDS_INC_HYDROGEN"
  const BOND_FORCE_CONSTANT: string := "BOND_FORCE_CONSTANT"
  const BOND_EQUIL_VALUE: string := "BOND_EQUIL_VALUE"
  const ANGLES_WITHOUT_HYDROGEN: string := "ANGLES_WITHOUT_HYDROGEN"
  const ANGLES_INC_HYDROGEN: string := "ANGLES_INC_HYDROGEN"
  const ANGLE_FORCE_CONSTANT: string := "ANGLE_FORCE_CONSTANT"
  const ANGLE_EQUIL_VALUE: string := "ANGLE_EQUIL_VALUE"
  const DIHEDRALS_WITHOUT_HYDROGEN: string := "DIHEDRALS_WITHOUT_HYDROGEN"
  const DIHEDRALS_INC_HYDROGEN: string := "DIHEDRALS_INC_HYDROGEN"
  const DIHEDRAL_FORCE_CONSTANT: string := "DIHEDRAL_FORCE_CONSTANT"
  const DIHEDRAL_PHASE: string := "DIHEDRAL_PHASE"
  const DIHEDRAL_PERIODICITY: string := "DIHEDRAL_PERIODICITY"
  const SCEE_SCALE_FACTOR: string := "SCEE_SCALE_FACTOR"
  const SCNB_SCALE_FACTOR: string := "SCNB_SCALE_FACTOR"

  /** Offsets into the POINTERS section, as laid down by the prmtop format. */
  const NATOM: nat := 0
  const NTYPES: nat := 1
  const NBONH: nat := 2
  const MBONA: nat := 3
  const NTHETH: nat := 4
  const MTHETA: nat := 5
  const NPHIH: nat := 6
  const MPHIA: nat := 7
  const NUMBND: nat := 15
  const NUMANG: nat := 16
  const NPTRA: nat := 17
  const POINTERS_READ: nat := 18

  /** Amber charges are stored multiplied by 18.2223 (the square root of
      Coulomb's constant in kcal·Å/mol/e²). */
  const CHARGE_SCALE: real := 18.2223
  /** An A coefficient below this is treated as a type without a steric size. */
  const LJ_ZERO: real := 0.0000000001
  const DEFAULT_SCEE: real := 1.2
  const DEFAULT_SCNB: real := 2.0

  // ---------------------------------------------------------------- sections

  predicate IntsIfPresent(data: ParmData, flag: string) { flag in data ==> data[flag].Ints? }
  predicate RealsIfPresent(data: ParmData, flag: string) { flag in data ==> data[flag].Reals? }
  predicate StringsIfPresent(data: ParmData, flag: string) { flag in data ==> data[flag].Strings? }

  /** What the decoder takes for granted about the tokenizer's output: each
      section it reads has the kind its format gives, and POINTERS holds
      every count it reads. */
  predicate WellTyped(data: ParmData) {
    && IntsIfPresent(data, POINTERS)
    && (POINTERS in data ==> |data[POINTERS].ints| >= POINTERS_READ)
    && IntsIfPresent(data, ATOMIC_NUMBER) && StringsIfPresent(data, ATOM_NAME)
    && StringsIfPresent(data, AMBER_ATOM_TYPE) && RealsIfPresent(data, RADII)
    && RealsIfPresent(data, SCREEN) && RealsIfPresent(data, LJ_ACOEF)
    && RealsIfPresent(data, LJ_BCOEF) && IntsIfPresent(data, ATOM_TYPE_INDEX)
    && IntsIfPresent(data, NONBONDED_PARM_INDEX) && RealsIfPresent(data, MASS)
    && RealsIfPresent(data, CHARGE)
    && IntsIfPresent(data, BONDS_WITHOUT_HYDROGEN) && IntsIfPresent(data, BONDS_INC_HYDROGEN)
    && RealsIfPresent(data, BOND_FORCE_CONSTANT) && RealsIfPresent(data, BOND_EQUIL_VALUE)
    && IntsIfPresent(data, ANGLES_WITHOUT_HYDROGEN) && IntsIfPresent(data, ANGLES_INC_HYDROGEN)
    && RealsIfPresent(data, ANGLE_FORCE_CONSTANT) && RealsIfPresent(data, ANGLE_EQUIL_VALUE)
    && IntsIfPresent(data, DIHEDRALS_WITHOUT_HYDROGEN) && IntsIfPresent(data, DIHEDRALS_INC_HYDROGEN)
    && RealsIfPresent(data, DIHEDRAL_FORCE_CONSTANT) && RealsIfPresent(data, DIHEDRAL_PHASE)
    && RealsIfPresent(data, DIHEDRAL_PERIODICITY)
    && RealsIfPresent(data, SCEE_SCALE_FACTOR) && RealsIfPresent(data, SCNB_SCALE_FACTOR)
  }

  function Pointer(data: ParmData, offset: nat): int
    requires WellTyped(data) && POINTERS in data && offset < POINTERS_READ
  {
    data[POINTERS].ints[offset]
  }

  /** One presence check of the decoder, with the length the section must
      have when the decoder also checks its size. */
  datatype Check = Check(flag: string, size: Option<int>)

  predicate Satisfied(data: ParmData, c: Check) {
    c.flag in data && (c.size.Some? ==> data[c.flag].Size() == c.size.value)
  }

  predicate AllSatisfied(data: ParmData, checks: seq<Check>) {
    forall k :: 0 <= k < |checks| ==> Satisfied(data, checks[k])
  }

  /** The position of the first check that fails, or `|checks|` when all pass. */
  function FirstFailure(data: ParmData, checks: seq<Check>): (k: nat)
    ensures k <= |checks|
    ensures forall m :: 0 <= m < k ==> Satisfied(data, checks[m])
    ensures k < |checks| ==> !Satisfied(data, checks[k])
    decreases |checks|
  {
    if checks == [] then 0
    else if !Satisfied(data, checks[0]) then 0
    else 1 + FirstFailure(data, checks[1..])
  }

  /** Runs the checks in order and throws for the first one that fails. */
  function Validate(data: ParmData, checks: seq<Check>): (r: Outcome<ParmError>)
    ensures r.Pass? <==> AllSatisfied(data, checks)
    ensures r.Fail? ==> exists k :: 0 <= k < |checks| && r.error == BadSection(checks[k].flag)
                                   && !Satisfied(data, checks[k])
                                   && forall m :: 0 <= m < k ==> Satisfied(data, checks[m])
  {
    var k := FirstFailure(data, checks);
    if k < |checks| then Fail(BadSection(checks[k].flag)) else Pass
  }

  function IntsOf(data: ParmData, flag: string): seq<int>
    requires flag in data && data[flag].Ints?
  {
    data[flag].ints
  }

  function RealsOf(data: ParmData, flag: string): seq<real>
    requires flag in data && data[flag].Reals?
  {
    data[flag].reals
  }

  function StringsOf(data: ParmData, flag: string): seq<string>
    requires flag in data && data[flag].Strings?
  {
    data[flag].strs
  }

  // ------------------------------------------------------------------- atoms

  /** The per-atom sections, each of which must hold exactly `natom` values,
      and the three LJ sections that only need to be present, in the order
      the decoder checks them. */
  function AtomChecks(natom: int): seq<Check> {
    [Check(ATOMIC_NUMBER, Some(natom)), Check(ATOM_NAME, Some(natom)),
     Check(AMBER_ATOM_TYPE, Some(natom)), Check(RADII, Some(natom)),
     Check(SCREEN, Some(natom)), Check(LJ_ACOEF, None), Check(LJ_BCOEF, None),
     Check(ATOM_TYPE_INDEX, Some(natom)), Check(NONBONDED_PARM_INDEX, None),
     Check(MASS, Some(natom)), Check(CHARGE, Some(natom))]
  }

  predicate AtomSectionsValid(data: ParmData) {
    WellTyped(data) && POINTERS in data && AllSatisfied(data, AtomChecks(Pointer(data, NATOM)))
  }

  datatype LjPair = LjPair(rmin: Extended, eps: real)

  function Pow6(x: real): real {
    x * x * x * x * x * x
  }

  /** The (Rmin/2, epsilon) pair of a type from its self-interaction
      coefficients A and B; `root6` stands for `pow(·, 1/6)`.  With A at
      least 1e-10 and B zero the C++ divides by zero: the ratio is infinite,
      so Rmin/2 is +infinity and epsilon is zero. */
  function SelfPair(a: real, b: real, root6: real -> real): (r: LjPair)
    ensures a < LJ_ZERO ==> r == LjPair(Finite(0.5), 0.0)
    ensures r.rmin.PosInfinity? <==> a >= LJ_ZERO && b == 0.0
    ensures a >= LJ_ZERO && b == 0.0 ==> r.eps == 0.0
    ensures a >= LJ_ZERO && b != 0.0 ==> 2.0 * r.rmin.value == root6(2.0 * a / b) && 4.0 * a * r.eps == b * b
  {
    if a < LJ_ZERO then LjPair(Finite(0.5), 0.0)
    else if b == 0.0 then LjPair(PosInfinity, 0.0)
    else
      var factor := 2.0 * a / b;
      assert 4.0 * a * (b * 0.5 / factor) == b * b by {
        assert factor * b == 2.0 * a;
      }
      LjPair(Finite(root6(factor) * 0.5), b * 0.5 / factor)
  }

  /** With a true sixth root, the derived pair reproduces the coefficients
      through the 12-6 identities A = ε·Rmin¹² and B = 2ε·Rmin⁶. */
  lemma SelfPairRecoversCoefficients(a: real, b: real, root6: real -> real)
    requires a >= LJ_ZERO && b != 0.0
    requires Pow6(root6(2.0 * a / b)) == 2.0 * a / b
    ensures var r := SelfPair(a, b, root6);
            a == r.eps * Pow6(2.0 * r.rmin.value) * Pow6(2.0 * r.rmin.value)
            && b == 2.0 * r.eps * Pow6(2.0 * r.rmin.value)
  {
    var r := SelfPair(a, b, root6);
    var f := 2.0 * a / b;
    assert f * b == 2.0 * a;
    assert 2.0 * r.rmin.value == root6(f);
    assert Pow6(2.0 * r.rmin.value) == f;
    assert r.eps * f == b / 2.0 by {
      assert 4.0 * a * r.eps == b * b;
      assert r.eps * f * b == r.eps * 2.0 * a;
      assert r.eps * f * b * 2.0 == b * b;
    }
    assert r.eps * f * f == a by {
      assert r.eps * f * f == (b / 2.0) * f;
    }
  }

  /** Worked cases: equal coefficients give the ratio 2, a negligible A the
      placeholder pair, and a zero B an infinite radius. */
  lemma SelfPairEqualCoefficients(a: real, root6: real -> real)
    requires a >= LJ_ZERO
    ensures SelfPair(a, a, root6) == LjPair(Finite(0.5 * root6(2.0)), a / 4.0)
    ensures SelfPair(0.0, a, root6) == LjPair(Finite(0.5), 0.0)
    ensures SelfPair(a, 0.0, root6) == LjPair(PosInfinity, 0.0)
  {
    assert 2.0 * a / a == 2.0;
  }

  function SelfIndex(ntypes: int, t: int): int {
    ntypes * t + t
  }

  /** The nonbonded index table and coefficient tables are read at type `t`'s
      self-interaction entry without a bounds check. */
  predicate SelfEntryOk(ntypes: int, nbidx: seq<int>, acoef: seq<real>, bcoef: seq<real>, t: int) {
    && 0 <= SelfIndex(ntypes, t) < |nbidx|
    && 0 <= nbidx[SelfIndex(ntypes, t)] - 1 < |acoef|
    && nbidx[SelfIndex(ntypes, t)] - 1 < |bcoef|
  }

  predicate LjInputsOk(ntypes: int, nbidx: seq<int>, acoef: seq<real>, bcoef: seq<real>) {
    forall t :: 0 <= t < ntypes ==> SelfEntryOk(ntypes, nbidx, acoef, bcoef, t)
  }

  function TypePair(ntypes: int, nbidx: seq<int>, acoef: seq<real>, bcoef: seq<real>,
                    root6: real -> real, t: int): LjPair
    requires SelfEntryOk(ntypes, nbidx, acoef, bcoef, t)
  {
    var idx := nbidx[SelfIndex(ntypes, t)] - 1;
    SelfPair(acoef[idx], bcoef[idx], root6)
  }

  /** The first `k` entries of the per-type LJ table. */
  function LjTable(ntypes: int, nbidx: seq<int>, acoef: seq<real>, bcoef: seq<real>,
                   root6: real -> real, k: nat): (r: seq<LjPair>)
    requires (k == 0 || k <= ntypes) && LjInputsOk(ntypes, nbidx, acoef, bcoef)
    ensures |r| == k
    ensures forall t :: 0 <= t < k ==> r[t] == TypePair(ntypes, nbidx, acoef, bcoef, root6, t)
    decreases k
  {
    if k == 0 then []
    else LjTable(ntypes, nbidx, acoef, bcoef, root6, k - 1) + [TypePair(ntypes, nbidx, acoef, bcoef, root6, k - 1)]
  }

  datatype AtomColumns = AtomColumns(
    names: seq<string>, types: seq<string>, elements: seq<int>, masses: seq<real>,
    charges: seq<real>, radii: seq<real>, screens: seq<real>, typeIndex: seq<int>)

  predicate HasRows(c: AtomColumns, n: int) {
    && n <= |c.names| && n <= |c.types| && n <= |c.elements| && n <= |c.masses|
    && n <= |c.charges| && n <= |c.radii| && n <= |c.screens| && n <= |c.typeIndex|
  }

  /** Every atom's 1-based type index selects an entry of a table of `ntable` types. */
  predicate TypesOk(typeIndex: seq<int>, ntable: int) {
    forall i :: 0 <= i < |typeIndex| ==> 1 <= typeIndex[i] <= ntable
  }

  /** Atom `i` of the file, inserted as atom `index` of the store. */
  function AtomFromRow(c: AtomColumns, lj: seq<LjPair>, index: int, i: int): Atom
    requires 0 <= i && HasRows(c, i + 1) && 1 <= c.typeIndex[i] <= |lj|
  {
    var typ := c.typeIndex[i];
    Atom(index, c.names[i], c.types[i], c.elements[i], c.masses[i], c.charges[i] / CHARGE_SCALE,
         lj[typ - 1].rmin, lj[typ - 1].eps, c.radii[i], c.screens[i])
  }

  /** Inserts the first `k` atoms of the file through the field overload. */
  function AddAtoms(p: Parm, c: AtomColumns, lj: seq<LjPair>, k: nat): (q: Parm)
    requires HasRows(c, k) && forall i :: 0 <= i < k ==> 1 <= c.typeIndex[i] <= |lj|
    ensures |q.atoms| == |p.atoms| + k && q.atoms[..|p.atoms|] == p.atoms
    ensures forall j :: |p.atoms| <= j < |q.atoms| ==> q.atoms[j] == AtomFromRow(c, lj, j, j - |p.atoms|)
    ensures q.(atoms := p.atoms) == p
    ensures WellFormed(p) ==> WellFormed(q)
    decreases k
  {
    if k == 0 then p
    else
      var q := AddAtoms(p, c, lj, k - 1);
      var i := k - 1;
      var typ := c.typeIndex[i];
      var r := AddAtomFields(q, c.names[i], c.types[i], c.elements[i], c.masses[i], c.charges[i] / CHARGE_SCALE,
                             lj[typ - 1].rmin, lj[typ - 1].eps, c.radii[i], c.screens[i]);
      assert r.atoms == q.atoms + [r.atoms[|q.atoms|]] && r.(atoms := q.atoms) == q;
      assert r.atoms[|q.atoms|] == AtomFromRow(c, lj, |q.atoms|, i);
      r
  }

  function Columns(data: ParmData): (c: AtomColumns)
    requires AtomSectionsValid(data)
    ensures Pointer(data, NATOM) >= 0 && HasRows(c, Pointer(data, NATOM))
    ensures |c.typeIndex| == Pointer(data, NATOM)
  {
    assert Satisfied(data, AtomChecks(Pointer(data, NATOM))[0]);
    assert Satisfied(data, AtomChecks(Pointer(data, NATOM))[1]);
    assert Satisfied(data, AtomChecks(Pointer(data, NATOM))[2]);
    assert Satisfied(data, AtomChecks(Pointer(data, NATOM))[3]);
    assert Satisfied(data, AtomChecks(Pointer(data, NATOM))[4]);
    assert Satisfied(data, AtomChecks(Pointer(data, NATOM))[7]);
    assert Satisfied(data, AtomChecks(Pointer(data, NATOM))[9]);
    assert Satisfied(data, AtomChecks(Pointer(data, NATOM))[10]);
    AtomColumns(StringsOf(data, ATOM_NAME), StringsOf(data, AMBER_ATOM_TYPE), IntsOf(data, ATOMIC_NUMBER),
                RealsOf(data, MASS), RealsOf(data, CHARGE), RealsOf(data, RADII), RealsOf(data, SCREEN),
                IntsOf(data, ATOM_TYPE_INDEX))
  }

  function NTypesRead(data: ParmData): nat
    requires WellTyped(data) && POINTERS in data
  {
    if Pointer(data, NTYPES) > 0 then Pointer(data, NTYPES) else 0
  }

  /** The nonbonded tables, read without bounds checks, cover every type
      and every atom's type index names a type. */
  predicate AtomTablesUsable(data: ParmData)
    requires AtomSectionsValid(data)
  {
    assert Satisfied(data, AtomChecks(Pointer(data, NATOM))[5]);
    assert Satisfied(data, AtomChecks(Pointer(data, NATOM))[6]);
    assert Satisfied(data, AtomChecks(Pointer(data, NATOM))[8]);
    && LjInputsOk(Pointer(data, NTYPES), IntsOf(data, NONBONDED_PARM_INDEX),
                  RealsOf(data, LJ_ACOEF), RealsOf(data, LJ_BCOEF))
    && TypesOk(Columns(data).typeIndex, NTypesRead(data))
  }

  function LjTableOf(data: ParmData, root6: real -> real): (r: seq<LjPair>)
    requires AtomSectionsValid(data) && AtomTablesUsable(data)
    ensures |r| == NTypesRead(data)
  {
    assert Satisfied(data, AtomChecks(Pointer(data, NATOM))[5]);
    assert Satisfied(data, AtomChecks(Pointer(data, NATOM))[6]);
    assert Satisfied(data, AtomChecks(Pointer(data, NATOM))[8]);
    LjTable(Pointer(data, NTYPES), IntsOf(data, NONBONDED_PARM_INDEX), RealsOf(data, LJ_ACOEF),
            RealsOf(data, LJ_BCOEF), root6, NTypesRead(data))
  }

  /** Atom `i` of the file, with its charge unscaled and its LJ pair taken
      from its type's self-interaction entry, inserted as atom `index`. */
  function FileAtom(data: ParmData, root6: real -> real, index: int, i: int): (a: Atom)
    requires AtomSectionsValid(data) && AtomTablesUsable(data) && 0 <= i < Pointer(data, NATOM)
    ensures var c := Columns(data);
            && a.index == index && a.name == c.names[i] && a.atomType == c.types[i]
            && a.element == c.elements[i] && a.mass == c.masses[i]
            && a.charge == c.charges[i] / CHARGE_SCALE
            && a.gbRadius == c.radii[i] && a.gbScreen == c.screens[i]
    ensures var t := Columns(data).typeIndex[i] - 1;
            0 <= t < NTypesRead(data) && LjPair(a.ljRadius, a.ljEpsilon) == LjTableOf(data, root6)[t]
  {
    AtomFromRow(Columns(data), LjTableOf(data, root6), index, i)
  }

  /** Checks POINTERS and the per-atom sections, derives the LJ table and
      inserts every atom.  Inserting atoms never fails. */
  function AtomStage(p: Parm, data: ParmData, root6: real -> real): (r: Step<Parm, ParmError>)
    requires WellTyped(data)
    requires AtomSectionsValid(data) ==> AtomTablesUsable(data)
    ensures POINTERS !in data ==> r == Step(p, Fail(MissingPointers))
    ensures r.outcome.Pass? <==> AtomSectionsValid(data)
    ensures r.outcome.Fail? ==> r.state == p
    ensures r.state.(atoms := p.atoms) == p
    ensures Extends(p, r.state)
    ensures WellFormed(p) ==> WellFormed(r.state)
    ensures r.outcome.Pass? ==> |r.state.atoms| == |p.atoms| + Pointer(data, NATOM)
  {
    if POINTERS !in data then Step(p, Fail(MissingPointers))
    else
      match Validate(data, AtomChecks(Pointer(data, NATOM)))
      case Fail(e) => Step(p, Fail(e))
      case Pass =>
        var lj := LjTableOf(data, root6);
        Step(AddAtoms(p, Columns(data), lj, Pointer(data, NATOM)), Pass)
  }

  /** After a passing atom stage, store atom `j` is file atom `j - |p.atoms|`. */
  lemma AtomStageLoadsAtoms(p: Parm, data: ParmData, root6: real -> real)
    requires WellTyped(data) && AtomSectionsValid(data) && AtomTablesUsable(data)
    ensures var r := AtomStage(p, data, root6);
            && r.outcome.Pass?
            && |r.state.atoms| == |p.atoms| + Pointer(data, NATOM)
            && forall j :: |p.atoms| <= j < |r.state.atoms| ==>
                 r.state.atoms[j] == FileAtom(data, root6, j, j - |p.atoms|)
  {
    var lj := LjTableOf(data, root6);
    assert AtomStage(p, data, root6).state == AddAtoms(p, Columns(data), lj, Pointer(data, NATOM));
  }

  // --------------------------------------------------------- bonded terms

  /** An atom slot of a bonded-term array holds three times the atom index;
      the C++ division truncates. */
  function DecodeAtom(raw: int): int {
    CDiv(raw, 3)
  }

  /** A parameter slot holds a 1-based index into the parameter tables. */
  function DecodeParam(raw: int): int {
    raw - 1
  }

  predicate ParamOk(raw: seq<int>, width: nat, t: int, nparams: int) {
    0 <= t && width * t + width - 1 < |raw| && width > 0 && 0 <= DecodeParam(raw[width * t + width - 1]) < nparams
  }

  predicate ParamsOk(raw: seq<int>, width: nat, count: int, nparams: int) {
    forall t :: 0 <= t < count ==> ParamOk(raw, width, t, nparams)
  }

  function DecodeBond(raw: seq<int>, t: int, kf: seq<real>, req: seq<real>): (b: Bond)
    requires ParamOk(raw, 3, t, |kf|) && |kf| <= |req|
    ensures b.atomI == DecodeAtom(raw[3 * t]) && b.atomJ == DecodeAtom(raw[3 * t + 1])
    ensures b.forceConstant == kf[raw[3 * t + 2] - 1] && b.equilibriumDistance == req[raw[3 * t + 2] - 1]
  {
    var bi := DecodeParam(raw[3 * t + 2]);
    Bond(DecodeAtom(raw[3 * t]), DecodeAtom(raw[3 * t + 1]), kf[bi], req[bi])
  }

  function DecodeBonds(raw: seq<int>, count: nat, kf: seq<real>, req: seq<real>): (r: seq<Bond>)
    requires ParamsOk(raw, 3, count, |kf|) && |kf| <= |req|
    ensures |r| == count
    ensures forall t :: 0 <= t < count ==> r[t] == DecodeBond(raw, t, kf, req)
  {
    seq(count, t requires 0 <= t < count => DecodeBond(raw, t, kf, req))
  }

  /** Angles are stored in radians and kept in degrees. */
  function DecodeAngle(raw: seq<int>, t: int, kf: seq<real>, eq: seq<real>, pi: real): (a: Angle)
    requires pi > 0.0 && ParamOk(raw, 4, t, |kf|) && |kf| <= |eq|
    ensures a.atomI == DecodeAtom(raw[4 * t]) && a.atomJ == DecodeAtom(raw[4 * t + 1])
    ensures a.atomK == DecodeAtom(raw[4 * t + 2])
    ensures a.forceConstant == kf[raw[4 * t + 3] - 1]
    ensures a.equilibriumAngle * pi == eq[raw[4 * t + 3] - 1] * 180.0
  {
    var ai := DecodeParam(raw[4 * t + 3]);
    Angle(DecodeAtom(raw[4 * t]), DecodeAtom(raw[4 * t + 1]), DecodeAtom(raw[4 * t + 2]), kf[ai],
          eq[ai] * 180.0 / pi)
  }

  function DecodeAngles(raw: seq<int>, count: nat, kf: seq<real>, eq: seq<real>, pi: real): (r: seq<Angle>)
    requires pi > 0.0 && ParamsOk(raw, 4, count, |kf|) && |kf| <= |eq|
    ensures |r| == count
    ensures forall t :: 0 <= t < count ==> r[t] == DecodeAngle(raw, t, kf, eq, pi)
  {
    seq(count, t requires 0 <= t < count => DecodeAngle(raw, t, kf, eq, pi))
  }

  /** The per-parameter tables of the dihedral terms. */
  datatype DihedralTables = DihedralTables(
    kf: seq<real>, phase: seq<real>, periodicity: seq<real>, scee: seq<real>, scnb: seq<real>)

  predicate TablesCover(tb: DihedralTables, n: int) {
    n <= |tb.kf| && n <= |tb.phase| && n <= |tb.periodicity| && n <= |tb.scee| && n <= |tb.scnb|
  }

  /** A negative value in the third or fourth atom slot marks a term whose
      1-4 end-group interaction is ignored.  The flag is read off the
      truncated quotient, so it is set only for raw values of -3 or less,
      and the stored atom indices are the quotients' absolute values. */
  function DecodeDihedral(raw: seq<int>, t: int, tb: DihedralTables, pi: real): (d: Dihedral)
    requires pi > 0.0 && ParamOk(raw, 5, t, |tb.kf|) && TablesCover(tb, |tb.kf|)
    ensures d.atomI == DecodeAtom(raw[5 * t]) && d.atomJ == DecodeAtom(raw[5 * t + 1])
    ensures d.atomK == Abs(DecodeAtom(raw[5 * t + 2])) && d.atomL == Abs(DecodeAtom(raw[5 * t + 3]))
    ensures d.atomK >= 0 && d.atomL >= 0
    ensures d.ignoreEndGroups <==> raw[5 * t + 2] <= -3 || raw[5 * t + 3] <= -3
    ensures var ai := raw[5 * t + 4] - 1;
            d.forceConstant == tb.kf[ai] && d.phase * pi == tb.phase[ai] * 180.0
            && d.periodicity == TruncToInt(tb.periodicity[ai])
            && d.scee == tb.scee[ai] && d.scnb == tb.scnb[ai]
  {
    var ii := DecodeAtom(raw[5 * t]);
    var jj := DecodeAtom(raw[5 * t + 1]);
    var kk := DecodeAtom(raw[5 * t + 2]);
    var ll := DecodeAtom(raw[5 * t + 3]);
    var ai := DecodeParam(raw[5 * t + 4]);
    var phase := tb.phase[ai] * 180.0 / pi;
    var per := TruncToInt(tb.periodicity[ai]);
    var ignoreEnd := kk < 0 || ll < 0;
    Dihedral(ii, jj, Abs(kk), Abs(ll), tb.kf[ai], phase, per, tb.scee[ai], tb.scnb[ai], ignoreEnd)
  }

  function DecodeDihedrals(raw: seq<int>, count: nat, tb: DihedralTables, pi: real): (r: seq<Dihedral>)
    requires pi > 0.0 && ParamsOk(raw, 5, count, |tb.kf|) && TablesCover(tb, |tb.kf|)
    ensures |r| == count
    ensures forall t :: 0 <= t < count ==> r[t] == DecodeDihedral(raw, t, tb, pi)
  {
    seq(count, t requires 0 <= t < count => DecodeDihedral(raw, t, tb, pi))
  }

  /** The two worked decodings: raw slots -12 and 18 give k = 4, l = 6 and
      an ignored end group, while a raw -1 truncates to atom 0 and sets no
      flag (a Euclidean division would have given -1 and set it). */
  lemma DihedralSignExamples(tb: DihedralTables, pi: real)
    requires pi > 0.0 && |tb.kf| >= 1 && TablesCover(tb, |tb.kf|)
    ensures var d := DecodeDihedral([0, 3, -12, 18, 1], 0, tb, pi);
            d.atomI == 0 && d.atomJ == 1 && d.atomK == 4 && d.atomL == 6 && d.ignoreEndGroups
    ensures var d := DecodeDihedral([0, 3, -1, 18, 1], 0, tb, pi);
            d.atomK == 0 && !d.ignoreEndGroups
  {
    assert ParamOk([0, 3, -12, 18, 1], 5, 0, |tb.kf|);
    assert ParamOk([0, 3, -1, 18, 1], 5, 0, |tb.kf|);
  }

  // ------------------------------------------------------------- encoders

  lemma SlotOf3(t: int, s: int)
    requires 0 <= t && 0 <= s < 3
    ensures (3 * t + s) / 3 == t && (3 * t + s) % 3 == s
  {
  }

  lemma SlotOf4(t: int, s: int)
    requires 0 <= t && 0 <= s < 4
    ensures (4 * t + s) / 4 == t && (4 * t + s) % 4 == s
  {
  }

  lemma SlotOf5(t: int, s: int)
    requires 0 <= t && 0 <= s < 5
    ensures (5 * t + s) / 5 == t && (5 * t + s) % 5 == s
  {
  }

  function BondSlot(b: Bond, param: int, s: int): int {
    if s == 0 then 3 * b.atomI else if s == 1 then 3 * b.atomJ else param + 1
  }

  /** Packs bonds the way the prmtop format stores them: three slots per
      bond, atoms as three times their index, the parameter 1-based. */
  function EncodeBonds(bs: seq<Bond>, params: seq<int>): (raw: seq<int>)
    requires |params| == |bs|
    ensures |raw| == 3 * |bs|
  {
    seq(3 * |bs|, x requires 0 <= x < 3 * |bs| => BondSlot(bs[x / 3], params[x / 3], x % 3))
  }

  lemma EncodedBondSlot(bs: seq<Bond>, params: seq<int>, t: int, s: int)
    requires |params| == |bs| && 0 <= t < |bs| && 0 <= s < 3
    ensures 3 * t + s < 3 * |bs|
    ensures EncodeBonds(bs, params)[3 * t + s] == BondSlot(bs[t], params[t], s)
  {
    SlotOf3(t, s);
  }

  lemma DecodeEncodeBond(bs: seq<Bond>, params: seq<int>, kf: seq<real>, req: seq<real>, t: int)
    requires |params| == |bs| && |kf| <= |req| && 0 <= t < |bs| && 0 <= params[t] < |kf|
    requires kf[params[t]] == bs[t].forceConstant && req[params[t]] == bs[t].equilibriumDistance
    ensures ParamOk(EncodeBonds(bs, params), 3, t, |kf|)
    ensures DecodeBond(EncodeBonds(bs, params), t, kf, req) == bs[t]
  {
    EncodedBondSlot(bs, params, t, 0);
    EncodedBondSlot(bs, params, t, 1);
    EncodedBondSlot(bs, params, t, 2);
    CDivOfTriple(bs[t].atomI);
    CDivOfTriple(bs[t].atomJ);
  }

  /** Decoding undoes the format's packing of bonds. */
  lemma DecodeEncodeBonds(bs: seq<Bond>, params: seq<int>, kf: seq<real>, req: seq<real>)
    requires |params| == |bs| && |kf| <= |req|
    requires forall t :: 0 <= t < |bs| ==> 0 <= params[t] < |kf|
    requires forall t :: 0 <= t < |bs| ==> kf[params[t]] == bs[t].forceConstant
    requires forall t :: 0 <= t < |bs| ==> req[params[t]] == bs[t].equilibriumDistance
    ensures ParamsOk(EncodeBonds(bs, params), 3, |bs|, |kf|)
    ensures DecodeBonds(EncodeBonds(bs, params), |bs|, kf, req) == bs
  {
    forall t | 0 <= t < |bs|
      ensures ParamOk(EncodeBonds(bs, params), 3, t, |kf|)
      ensures DecodeBond(EncodeBonds(bs, params), t, kf, req) == bs[t]
    {
      DecodeEncodeBond(bs, params, kf, req, t);
    }
  }

  function AngleSlot(a: Angle, param: int, s: int): int {
    if s == 0 then 3 * a.atomI else if s == 1 then 3 * a.atomJ else if s == 2 then 3 * a.atomK else param + 1
  }

  function EncodeAngles(angs: seq<Angle>, params: seq<int>): (raw: seq<int>)
    requires |params| == |angs|
    ensures |raw| == 4 * |angs|
  {
    seq(4 * |angs|, x requires 0 <= x < 4 * |angs| => AngleSlot(angs[x / 4], params[x / 4], x % 4))
  }

  lemma EncodedAngleSlot(angs: seq<Angle>, params: seq<int>, t: int, s: int)
    requires |params| == |angs| && 0 <= t < |angs| && 0 <= s < 4
    ensures 4 * t + s < 4 * |angs|
    ensures EncodeAngles(angs, params)[4 * t + s] == AngleSlot(angs[t], params[t], s)
  {
    SlotOf4(t, s);
  }

  lemma CancelPositive(x: real, y: real, pi: real)
    requires pi > 0.0 && x * pi == y * pi
    ensures x == y
  {
  }

  lemma DecodeEncodeAngle(angs: seq<Angle>, params: seq<int>, kf: seq<real>, eq: seq<real>, pi: real, t: int)
    requires pi > 0.0 && |params| == |angs| && |kf| <= |eq| && 0 <= t < |angs| && 0 <= params[t] < |kf|
    requires kf[params[t]] == angs[t].forceConstant && eq[params[t]] * 180.0 == angs[t].equilibriumAngle * pi
    ensures ParamOk(EncodeAngles(angs, params), 4, t, |kf|)
    ensures DecodeAngle(EncodeAngles(angs, params), t, kf, eq, pi) == angs[t]
  {
    EncodedAngleSlot(angs, params, t, 0);
    EncodedAngleSlot(angs, params, t, 1);
    EncodedAngleSlot(angs, params, t, 2);
    EncodedAngleSlot(angs, params, t, 3);
    CDivOfTriple(angs[t].atomI);
    CDivOfTriple(angs[t].atomJ);
    CDivOfTriple(angs[t].atomK);
    var d := DecodeAngle(EncodeAngles(angs, params), t, kf, eq, pi);
    CancelPositive(d.equilibriumAngle, angs[t].equilibriumAngle, pi);
  }

  /** Decoding undoes the packing of angles whose equilibrium values are
      tabulated in radians. */
  lemma DecodeEncodeAngles(angs: seq<Angle>, params: seq<int>, kf: seq<real>, eq: seq<real>, pi: real)
    requires pi > 0.0 && |params| == |angs| && |kf| <= |eq|
    requires forall t :: 0 <= t < |angs| ==> 0 <= params[t] < |kf|
    requires forall t :: 0 <= t < |angs| ==> kf[params[t]] == angs[t].forceConstant
    requires forall t :: 0 <= t < |angs| ==> eq[params[t]] * 180.0 == angs[t].equilibriumAngle * pi
    ensures ParamsOk(EncodeAngles(angs, params), 4, |angs|, |kf|)
    ensures DecodeAngles(EncodeAngles(angs, params), |angs|, kf, eq, pi) == angs
  {
    forall t | 0 <= t < |angs|
      ensures ParamOk(EncodeAngles(angs, params), 4, t, |kf|)
      ensures DecodeAngle(EncodeAngles(angs, params), t, kf, eq, pi) == angs[t]
    {
      DecodeEncodeAngle(angs, params, kf, eq, pi, t);
    }
  }

  /** The third atom slot carries the sign of an ignored end group. */
  function DihedralSlot(d: Dihedral, param: int, s: int): int {
    if s == 0 then 3 * d.atomI
    else if s == 1 then 3 * d.atomJ
    else if s == 2 then (if d.ignoreEndGroups then -3 * d.atomK else 3 * d.atomK)
    else if s == 3 then 3 * d.atomL
    else param + 1
  }

  function EncodeDihedrals(ds: seq<Dihedral>, params: seq<int>): (raw: seq<int>)
    requires |params| == |ds|
    ensures |raw| == 5 * |ds|
  {
    seq(5 * |ds|, x requires 0 <= x < 5 * |ds| => DihedralSlot(ds[x / 5], params[x / 5], x % 5))
  }

  lemma EncodedDihedralSlot(ds: seq<Dihedral>, params: seq<int>, t: int, s: int)
    requires |params| == |ds| && 0 <= t < |ds| && 0 <= s < 5
    ensures 5 * t + s < 5 * |ds|
    ensures EncodeDihedrals(ds, params)[5 * t + s] == DihedralSlot(ds[t], params[t], s)
  {
    SlotOf5(t, s);
  }

  /** A dihedral survives packing and decoding when its k and l indices are
      non-negative and, if its end group is ignored, k is positive (the sign
      of index 0 cannot be stored). */
  predicate Encodable(d: Dihedral) {
    d.atomK >= 0 && d.atomL >= 0 && (d.ignoreEndGroups ==> d.atomK > 0)
  }

  predicate TablesDescribe(tb: DihedralTables, param: int, d: Dihedral, pi: real)
    requires TablesCover(tb, |tb.kf|) && 0 <= param < |tb.kf|
  {
    && tb.kf[param] == d.forceConstant && tb.phase[param] * 180.0 == d.phase * pi
    && TruncToInt(tb.periodicity[param]) == d.periodicity
    && tb.scee[param] == d.scee && tb.scnb[param] == d.scnb
  }

  lemma DecodeEncodeDihedral(ds: seq<Dihedral>, params: seq<int>, tb: DihedralTables, pi: real, t: int)
    requires pi > 0.0 && |params| == |ds| && TablesCover(tb, |tb.kf|) && 0 <= t < |ds|
    requires Encodable(ds[t]) && 0 <= params[t] < |tb.kf| && TablesDescribe(tb, params[t], ds[t], pi)
    ensures ParamOk(EncodeDihedrals(ds, params), 5, t, |tb.kf|)
    ensures DecodeDihedral(EncodeDihedrals(ds, params), t, tb, pi) == ds[t]
  {
    var d := ds[t];
    EncodedDihedralSlot(ds, params, t, 0);
    EncodedDihedralSlot(ds, params, t, 1);
    EncodedDihedralSlot(ds, params, t, 2);
    EncodedDihedralSlot(ds, params, t, 3);
    EncodedDihedralSlot(ds, params, t, 4);
    CDivOfTriple(d.atomI);
    CDivOfTriple(d.atomJ);
    CDivOfTriple(d.atomK);
    CDivOfTriple(d.atomL);
    var e := DecodeDihedral(EncodeDihedrals(ds, params), t, tb, pi);
    CancelPositive(e.phase, d.phase, pi);
  }

  lemma DecodeEncodeDihedrals(ds: seq<Dihedral>, params: seq<int>, tb: DihedralTables, pi: real)
    requires pi > 0.0 && |params| == |ds| && TablesCover(tb, |tb.kf|)
    requires forall t :: 0 <= t < |ds| ==> Encodable(ds[t])
    requires forall t :: 0 <= t < |ds| ==> 0 <= params[t] < |tb.kf|
    requires forall t :: 0 <= t < |ds| ==> TablesDescribe(tb, params[t], ds[t], pi)
    ensures ParamsOk(EncodeDihedrals(ds, params), 5, |ds|, |tb.kf|)
    ensures DecodeDihedrals(EncodeDihedrals(ds, params), |ds|, tb, pi) == ds
  {
    forall t | 0 <= t < |ds|
      ensures ParamOk(EncodeDihedrals(ds, params), 5, t, |tb.kf|)
      ensures DecodeDihedral(EncodeDihedrals(ds, params), t, tb, pi) == ds[t]
    {
      DecodeEncodeDihedral(ds, params, tb, pi, t);
    }
  }

  // ------------------------------------------------- inserting bonded terms

  /** The number of leading elements that `ok` accepts. */
  function LeadingOk<T>(xs: seq<T>, ok: T -> bool): (m: nat)
    ensures m <= |xs|
    ensures forall k :: 0 <= k < m ==> ok(xs[k])
    ensures m < |xs| ==> !ok(xs[m])
    decreases |xs|
  {
    if xs == [] || !ok(xs[0]) then 0 else 1 + LeadingOk(xs[1..], ok)
  }

  /** Accepting the head and counting the tail gives the same prefix as
      counting the whole sequence. */
  lemma LeadingOkAfterHead<T>(pre: seq<T>, xs: seq<T>, ok: T -> bool)
    requires xs != [] && ok(xs[0])
    ensures LeadingOk(xs, ok) == 1 + LeadingOk(xs[1..], ok)
    ensures (pre + [xs[0]]) + xs[1..][..LeadingOk(xs[1..], ok)] == pre + xs[..LeadingOk(xs, ok)]
  {
    var m := LeadingOk(xs[1..], ok);
    assert LeadingOk(xs, ok) == 1 + m;
    PrefixAfterHead(pre, xs, m);
  }

  lemma PrefixAfterHead<T>(pre: seq<T>, xs: seq<T>, m: nat)
    requires xs != [] && m < |xs|
    ensures (pre + [xs[0]]) + xs[1..][..m] == pre + xs[..m + 1]
  {
    assert xs[..m + 1] == [xs[0]] + xs[1..][..m];
  }

  /** The range check of one bond term as a value. */
  function BondCheck(natom: int): (ok: Bond -> bool)
    ensures forall t :: ok(t) == BondInRange(t, natom)
  {
    (t: Bond) => BondInRange(t, natom)
  }

  /** Inserts the bonds one after another, as the source's loops do: the
      first out-of-range term throws and the terms before it stay inserted. */
  function AddBonds(p: Parm, bs: seq<Bond>): (r: Step<Parm, ParmError>)
    ensures r.state.(bonds := p.bonds) == p
    ensures r.outcome.Pass? <==> forall k :: 0 <= k < |bs| ==> BondInRange(bs[k], |p.atoms|)
    ensures r.outcome.Pass? ==> r.state.bonds == p.bonds + bs
    ensures r.outcome.Fail? ==>
              && r.outcome.error == AtomIndexOutOfRange(BondTerm)
              && |p.bonds| <= |r.state.bonds| < |p.bonds| + |bs|
              && r.state.bonds == p.bonds + bs[..|r.state.bonds| - |p.bonds|]
              && !BondInRange(bs[|r.state.bonds| - |p.bonds|], |p.atoms|)
              && forall k :: 0 <= k < |r.state.bonds| - |p.bonds| ==> BondInRange(bs[k], |p.atoms|)
    ensures WellFormed(p) ==> WellFormed(r.state)
  {
    var m := LeadingOk(bs, BondCheck(|p.atoms|));
    var q := p.(bonds := p.bonds + bs[..m]);
    assert bs[..|bs|] == bs;
    assert forall k :: |p.bonds| <= k < |q.bonds| ==> q.bonds[k] == bs[k - |p.bonds|];
    if m == |bs| then Step(q, Pass) else Step(q, Fail(AtomIndexOutOfRange(BondTerm)))
  }

  /** The source's loop, one `AddBond` call per term. */
  function AddBondsOneByOne(p: Parm, bs: seq<Bond>): Step<Parm, ParmError>
    decreases |bs|
  {
    if bs == [] then Step(p, Pass)
    else
      match AddBond(p, bs[0])
      case Failure(e) => Step(p, Fail(e))
      case Success(q) => AddBondsOneByOne(q, bs[1..])
  }

  lemma {:induction false} AddBondsOneByOneAgrees(p: Parm, bs: seq<Bond>)
    ensures AddBondsOneByOne(p, bs) == AddBonds(p, bs)
    decreases |bs|
  {
    if bs == [] {
      assert p.bonds + bs[..0] == p.bonds;
    } else {
      match AddBond(p, bs[0])
      case Failure(e) =>
        assert p.bonds + bs[..0] == p.bonds;
      case Success(q) =>
        AddBondsOneByOneAgrees(q, bs[1..]);
        LeadingOkAfterHead(p.bonds, bs, BondCheck(|p.atoms|));
        assert BondCheck(|q.atoms|) == BondCheck(|p.atoms|);
    }
  }


  /** The range check of one angle term as a value. */
  function AngleCheck(natom: int): (ok: Angle -> bool)
    ensures forall t :: ok(t) == AngleInRange(t, natom)
  {
    (t: Angle) => AngleInRange(t, natom)
  }

  /** Inserts the angles one after another, as the source's loops do: the
      first out-of-range term throws and the terms before it stay inserted. */
  function AddAngles(p: Parm, angs: seq<Angle>): (r: Step<Parm, ParmError>)
    ensures r.state.(angles := p.angles) == p
    ensures r.outcome.Pass? <==> forall k :: 0 <= k < |angs| ==> AngleInRange(angs[k], |p.atoms|)
    ensures r.outcome.Pass? ==> r.state.angles == p.angles + angs
    ensures r.outcome.Fail? ==>
              && r.outcome.error == AtomIndexOutOfRange(AngleTerm)
              && |p.angles| <= |r.state.angles| < |p.angles| + |angs|
              && r.state.angles == p.angles + angs[..|r.state.angles| - |p.angles|]
              && !AngleInRange(angs[|r.state.angles| - |p.angles|], |p.atoms|)
              && forall k :: 0 <= k < |r.state.angles| - |p.angles| ==> AngleInRange(angs[k], |p.atoms|)
    ensures WellFormed(p) ==> WellFormed(r.state)
  {
    var m := LeadingOk(angs, AngleCheck(|p.atoms|));
    var q := p.(angles := p.angles + angs[..m]);
    assert angs[..|angs|] == angs;
    assert forall k :: |p.angles| <= k < |q.angles| ==> q.angles[k] == angs[k - |p.angles|];
    if m == |angs| then Step(q, Pass) else Step(q, Fail(AtomIndexOutOfRange(AngleTerm)))
  }

  /** The source's loop, one `AddAngle` call per term. */
  function AddAnglesOneByOne(p: Parm, angs: seq<Angle>): Step<Parm, ParmError>
    decreases |angs|
  {
    if angs == [] then Step(p, Pass)
    else
      match AddAngle(p, angs[0])
      case Failure(e) => Step(p, Fail(e))
      case Success(q) => AddAnglesOneByOne(q, angs[1..])
  }

  lemma {:induction false} AddAnglesOneByOneAgrees(p: Parm, angs: seq<Angle>)
    ensures AddAnglesOneByOne(p, angs) == AddAngles(p, angs)
    decreases |angs|
  {
    if angs == [] {
      assert p.angles + angs[..0] == p.angles;
    } else {
      match AddAngle(p, angs[0])
      case Failure(e) =>
        assert p.angles + angs[..0] == p.angles;
      case Success(q) =>
        AddAnglesOneByOneAgrees(q, angs[1..]);
        LeadingOkAfterHead(p.angles, angs, AngleCheck(|p.atoms|));
        assert AngleCheck(|q.atoms|) == AngleCheck(|p.atoms|);
    }
  }


  /** The range check of one dihedral term as a value. */
  function DihedralCheck(natom: int): (ok: Dihedral -> bool)
    ensures forall t :: ok(t) == DihedralInRange(t, natom)
  {
    (t: Dihedral) => DihedralInRange(t, natom)
  }

  /** Inserts the dihedrals one after another, as the source's loops do: the
      first out-of-range term throws and the terms before it stay inserted. */
  function AddDihedrals(p: Parm, ds: seq<Dihedral>): (r: Step<Parm, ParmError>)
    ensures r.state.(dihedrals := p.dihedrals) == p
    ensures r.outcome.Pass? <==> forall k :: 0 <= k < |ds| ==> DihedralInRange(ds[k], |p.atoms|)
    ensures r.outcome.Pass? ==> r.state.dihedrals == p.dihedrals + ds
    ensures r.outcome.Fail? ==>
              && r.outcome.error == AtomIndexOutOfRange(DihedralTerm)
              && |p.dihedrals| <= |r.state.dihedrals| < |p.dihedrals| + |ds|
              && r.state.dihedrals == p.dihedrals + ds[..|r.state.dihedrals| - |p.dihedrals|]
              && !DihedralInRange(ds[|r.state.dihedrals| - |p.dihedrals|], |p.atoms|)
              && forall k :: 0 <= k < |r.state.dihedrals| - |p.dihedrals| ==> DihedralInRange(ds[k], |p.atoms|)
    ensures WellFormed(p) ==> WellFormed(r.state)
  {
    var m := LeadingOk(ds, DihedralCheck(|p.atoms|));
    var q := p.(dihedrals := p.dihedrals + ds[..m]);
    assert ds[..|ds|] == ds;
    assert forall k :: |p.dihedrals| <= k < |q.dihedrals| ==> q.dihedrals[k] == ds[k - |p.dihedrals|];
    if m == |ds| then Step(q, Pass) else Step(q, Fail(AtomIndexOutOfRange(DihedralTerm)))
  }

  /** The source's loop, one `AddDihedral` call per term. */
  function AddDihedralsOneByOne(p: Parm, ds: seq<Dihedral>): Step<Parm, ParmError>
    decreases |ds|
  {
    if ds == [] then Step(p, Pass)
    else
      match AddDihedral(p, ds[0])
      case Failure(e) => Step(p, Fail(e))
      case Success(q) => AddDihedralsOneByOne(q, ds[1..])
  }

  lemma {:induction false} AddDihedralsOneByOneAgrees(p: Parm, ds: seq<Dihedral>)
    ensures AddDihedralsOneByOne(p, ds) == AddDihedrals(p, ds)
    decreases |ds|
  {
    if ds == [] {
      assert p.dihedrals + ds[..0] == p.dihedrals;
    } else {
      match AddDihedral(p, ds[0])
      case Failure(e) =>
        assert p.dihedrals + ds[..0] == p.dihedrals;
      case Success(q) =>
        AddDihedralsOneByOneAgrees(q, ds[1..]);
        LeadingOkAfterHead(p.dihedrals, ds, DihedralCheck(|p.atoms|));
        assert DihedralCheck(|q.atoms|) == DihedralCheck(|p.atoms|);
    }
  }


  // ------------------------------------------------------------ bond stage

  function BondChecks(data: ParmData): seq<Check>
    requires WellTyped(data) && POINTERS in data
  {
    [Check(BONDS_WITHOUT_HYDROGEN, Some(Pointer(data, MBONA) * 3)),
     Check(BONDS_INC_HYDROGEN, Some(Pointer(data, NBONH) * 3)),
     Check(BOND_FORCE_CONSTANT, Some(Pointer(data, NUMBND))),
     Check(BOND_EQUIL_VALUE, Some(Pointer(data, NUMBND)))]
  }

  predicate BondSectionsValid(data: ParmData) {
    WellTyped(data) && POINTERS in data && AllSatisfied(data, BondChecks(data))
  }

  /** Every bond's 1-based parameter index, read without a bounds check,
      selects an entry of the bond parameter tables. */
  predicate BondParamsUsable(data: ParmData)
    requires BondSectionsValid(data)
  {
    var cs := BondChecks(data);
    assert Satisfied(data, cs[0]) && Satisfied(data, cs[1]) && Satisfied(data, cs[2]);
    && ParamsOk(IntsOf(data, BONDS_INC_HYDROGEN), 3, Pointer(data, NBONH), Pointer(data, NUMBND))
    && ParamsOk(IntsOf(data, BONDS_WITHOUT_HYDROGEN), 3, Pointer(data, MBONA), Pointer(data, NUMBND))
  }

  /** The bonds of the file: the hydrogen subset first, then the rest. */
  function DecodedBonds(data: ParmData): (r: seq<Bond>)
    requires BondSectionsValid(data) && BondParamsUsable(data)
    ensures |r| == Pointer(data, NBONH) + Pointer(data, MBONA)
  {
    var cs := BondChecks(data);
    assert Satisfied(data, cs[0]) && Satisfied(data, cs[1]) && Satisfied(data, cs[2]) && Satisfied(data, cs[3]);
    var kf := RealsOf(data, BOND_FORCE_CONSTANT);
    var req := RealsOf(data, BOND_EQUIL_VALUE);
    DecodeBonds(IntsOf(data, BONDS_INC_HYDROGEN), Pointer(data, NBONH), kf, req)
      + DecodeBonds(IntsOf(data, BONDS_WITHOUT_HYDROGEN), Pointer(data, MBONA), kf, req)
  }

  function BondStage(p: Parm, data: ParmData): (r: Step<Parm, ParmError>)
    requires WellTyped(data) && POINTERS in data
    requires BondSectionsValid(data) ==> BondParamsUsable(data)
    ensures !BondSectionsValid(data) ==> r.state == p && r.outcome.Fail? && r.outcome.error.BadSection?
    ensures BondSectionsValid(data) ==> r == AddBonds(p, DecodedBonds(data))
    ensures r.state.(bonds := p.bonds) == p
    ensures r.outcome.Pass? <==> BondSectionsValid(data) && AllBondsIn(DecodedBonds(data), |p.atoms|)
    ensures r.outcome.Pass? ==> r.state.bonds == p.bonds + DecodedBonds(data)
    ensures Extends(p, r.state)
    ensures WellFormed(p) ==> WellFormed(r.state)
  {
    match Validate(data, BondChecks(data))
    case Fail(e) => Step(p, Fail(e))
    case Pass => AddBonds(p, DecodedBonds(data))
  }

  // ----------------------------------------------------------- angle stage

  function AngleChecks(data: ParmData): seq<Check>
    requires WellTyped(data) && POINTERS in data
  {
    [Check(ANGLES_WITHOUT_HYDROGEN, Some(Pointer(data, MTHETA) * 4)),
     Check(ANGLES_INC_HYDROGEN, Some(Pointer(data, NTHETH) * 4)),
     Check(ANGLE_FORCE_CONSTANT, Some(Pointer(data, NUMANG))),
     Check(ANGLE_EQUIL_VALUE, Some(Pointer(data, NUMANG)))]
  }

  predicate AngleSectionsValid(data: ParmData) {
    WellTyped(data) && POINTERS in data && AllSatisfied(data, AngleChecks(data))
  }

  predicate AngleParamsUsable(data: ParmData)
    requires AngleSectionsValid(data)
  {
    var cs := AngleChecks(data);
    assert Satisfied(data, cs[0]) && Satisfied(data, cs[1]);
    && ParamsOk(IntsOf(data, ANGLES_INC_HYDROGEN), 4, Pointer(data, NTHETH), Pointer(data, NUMANG))
    && ParamsOk(IntsOf(data, ANGLES_WITHOUT_HYDROGEN), 4, Pointer(data, MTHETA), Pointer(data, NUMANG))
  }

  function DecodedAngles(data: ParmData, pi: real): (r: seq<Angle>)
    requires pi > 0.0 && AngleSectionsValid(data) && AngleParamsUsable(data)
    ensures |r| == Pointer(data, NTHETH) + Pointer(data, MTHETA)
  {
    var cs := AngleChecks(data);
    assert Satisfied(data, cs[0]) && Satisfied(data, cs[1]) && Satisfied(data, cs[2]) && Satisfied(data, cs[3]);
    var kf := RealsOf(data, ANGLE_FORCE_CONSTANT);
    var eq := RealsOf(data, ANGLE_EQUIL_VALUE);
    DecodeAngles(IntsOf(data, ANGLES_INC_HYDROGEN), Pointer(data, NTHETH), kf, eq, pi)
      + DecodeAngles(IntsOf(data, ANGLES_WITHOUT_HYDROGEN), Pointer(data, MTHETA), kf, eq, pi)
  }

  function AngleStage(p: Parm, data: ParmData, pi: real): (r: Step<Parm, ParmError>)
    requires pi > 0.0 && WellTyped(data) && POINTERS in data
    requires AngleSectionsValid(data) ==> AngleParamsUsable(data)
    ensures !AngleSectionsValid(data) ==> r.state == p && r.outcome.Fail? && r.outcome.error.BadSection?
    ensures AngleSectionsValid(data) ==> r == AddAngles(p, DecodedAngles(data, pi))
    ensures r.state.(angles := p.angles) == p
    ensures r.outcome.Pass? <==> AngleSectionsValid(data) && AllAnglesIn(DecodedAngles(data, pi), |p.atoms|)
    ensures r.outcome.Pass? ==> r.state.angles == p.angles + DecodedAngles(data, pi)
    ensures Extends(p, r.state)
    ensures WellFormed(p) ==> WellFormed(r.state)
  {
    match Validate(data, AngleChecks(data))
    case Fail(e) => Step(p, Fail(e))
    case Pass => AddAngles(p, DecodedAngles(data, pi))
  }

  // -------------------------------------------------------- dihedral stage

  function DihedralChecks(data: ParmData): seq<Check>
    requires WellTyped(data) && POINTERS in data
  {
    [Check(DIHEDRALS_WITHOUT_HYDROGEN, Some(Pointer(data, MPHIA) * 5)),
     Check(DIHEDRALS_INC_HYDROGEN, Some(Pointer(data, NPHIH) * 5)),
     Check(DIHEDRAL_FORCE_CONSTANT, Some(Pointer(data, NPTRA))),
     Check(DIHEDRAL_PHASE, Some(Pointer(data, NPTRA))),
     Check(DIHEDRAL_PERIODICITY, Some(Pointer(data, NPTRA)))]
  }

  predicate DihedralSectionsValid(data: ParmData) {
    WellTyped(data) && POINTERS in data && Pointer(data, NPTRA) >= 0 && AllSatisfied(data, DihedralChecks(data))
  }

  /** A present scaling section is read at every parameter index without a
      bounds check. */
  predicate ScaleSectionOk(data: ParmData, flag: string, nptra: int) {
    flag in data && data[flag].Reals? ==> nptra <= |data[flag].reals|
  }

  predicate DihedralParamsUsable(data: ParmData)
    requires DihedralSectionsValid(data)
  {
    var cs := DihedralChecks(data);
    assert Satisfied(data, cs[0]) && Satisfied(data, cs[1]);
    && ParamsOk(IntsOf(data, DIHEDRALS_INC_HYDROGEN), 5, Pointer(data, NPHIH), Pointer(data, NPTRA))
    && ParamsOk(IntsOf(data, DIHEDRALS_WITHOUT_HYDROGEN), 5, Pointer(data, MPHIA), Pointer(data, NPTRA))
    && ScaleSectionOk(data, SCEE_SCALE_FACTOR, Pointer(data, NPTRA))
    && ScaleSectionOk(data, SCNB_SCALE_FACTOR, Pointer(data, NPTRA))
  }

  /** A scaling-factor table: the file's section when it is present,
      otherwise the default for every parameter.  The choice is made once
      for the whole table. */
  function ScaleTable(data: ParmData, flag: string, nptra: nat, default: real): (r: seq<real>)
    requires RealsIfPresent(data, flag) && ScaleSectionOk(data, flag, nptra)
    ensures |r| == nptra
    ensures flag !in data ==> forall i :: 0 <= i < nptra ==> r[i] == default
    ensures flag in data ==> r == data[flag].reals[..nptra]
  {
    if flag in data then data[flag].reals[..nptra] else seq(nptra, _ => default)
  }

  function TablesOf(data: ParmData): (tb: DihedralTables)
    requires DihedralSectionsValid(data) && DihedralParamsUsable(data)
    ensures |tb.kf| == Pointer(data, NPTRA) && TablesCover(tb, |tb.kf|)
  {
    var cs := DihedralChecks(data);
    assert Satisfied(data, cs[2]) && Satisfied(data, cs[3]) && Satisfied(data, cs[4]);
    var nptra := Pointer(data, NPTRA);
    DihedralTables(RealsOf(data, DIHEDRAL_FORCE_CONSTANT), RealsOf(data, DIHEDRAL_PHASE),
                   RealsOf(data, DIHEDRAL_PERIODICITY),
                   ScaleTable(data, SCEE_SCALE_FACTOR, nptra, DEFAULT_SCEE),
                   ScaleTable(data, SCNB_SCALE_FACTOR, nptra, DEFAULT_SCNB))
  }

  function DecodedDihedrals(data: ParmData, pi: real): (r: seq<Dihedral>)
    requires pi > 0.0 && DihedralSectionsValid(data) && DihedralParamsUsable(data)
    ensures |r| == Pointer(data, NPHIH) + Pointer(data, MPHIA)
  {
    var cs := DihedralChecks(data);
    assert Satisfied(data, cs[0]) && Satisfied(data, cs[1]);
    var tb := TablesOf(data);
    DecodeDihedrals(IntsOf(data, DIHEDRALS_INC_HYDROGEN), Pointer(data, NPHIH), tb, pi)
      + DecodeDihedrals(IntsOf(data, DIHEDRALS_WITHOUT_HYDROGEN), Pointer(data, MPHIA), tb, pi)
  }

  /** Allocating the two scaling tables of a negative size throws before any
      dihedral section is looked at. */
  function DihedralStage(p: Parm, data: ParmData, pi: real): (r: Step<Parm, ParmError>)
    requires pi > 0.0 && WellTyped(data) && POINTERS in data
    requires DihedralSectionsValid(data) ==> DihedralParamsUsable(data)
    ensures Pointer(data, NPTRA) < 0 ==> r == Step(p, Fail(TableTooLarge))
    ensures !DihedralSectionsValid(data) ==> r.state == p && r.outcome.Fail?
    ensures DihedralSectionsValid(data) ==> r == AddDihedrals(p, DecodedDihedrals(data, pi))
    ensures r.state.(dihedrals := p.dihedrals) == p
    ensures r.outcome.Pass? <==> DihedralSectionsValid(data) && AllDihedralsIn(DecodedDihedrals(data, pi), |p.atoms|)
    ensures r.outcome.Pass? ==> r.state.dihedrals == p.dihedrals + DecodedDihedrals(data, pi)
    ensures Extends(p, r.state)
    ensures WellFormed(p) ==> WellFormed(r.state)
  {
    if Pointer(data, NPTRA) < 0 then Step(p, Fail(TableTooLarge))
    else
      match Validate(data, DihedralChecks(data))
      case Fail(e) => Step(p, Fail(e))
      case Pass => AddDihedrals(p, DecodedDihedrals(data, pi))
  }

  // --------------------------------------------------------------- rdparm

  /** What the decoder reads without checking, stated per stage: each
      stage's requirement applies once its own sections have passed their
      checks. */
  predicate Admissible(data: ParmData) {
    && WellTyped(data)
    && (AtomSectionsValid(data) ==> AtomTablesUsable(data))
    && (BondSectionsValid(data) ==> BondParamsUsable(data))
    && (AngleSectionsValid(data) ==> AngleParamsUsable(data))
    && (DihedralSectionsValid(data) ==> DihedralParamsUsable(data))
  }

  function StatusError(status: ExitStatus): ParmError
    requires status != Parsed
  {
    match status
    case NoOpen => CouldNotOpen
    case NoVersion => MissingVersion
    case EmptyInput => EmptyPrmtop
    case ParseErr => PrmtopParseError
  }

  /** The bonded sections pass their checks and every decoded term
      references one of the first `natom` atoms. */
  predicate TermsLoad(data: ParmData, pi: real, natom: int)
    requires pi > 0.0 && Admissible(data)
  {
    && BondSectionsValid(data) && AllBondsIn(DecodedBonds(data), natom)
    && AngleSectionsValid(data) && AllAnglesIn(DecodedAngles(data, pi), natom)
    && DihedralSectionsValid(data) && AllDihedralsIn(DecodedDihedrals(data, pi), natom)
  }

  /** The dihedral stage, run only if the stages before it passed. */
  function AfterAngles(s: Step<Parm, ParmError>, data: ParmData, pi: real): (r: Step<Parm, ParmError>)
    requires pi > 0.0 && Admissible(data) && (s.outcome.Pass? ==> POINTERS in data)
    ensures Extends(s.state, r.state) && r.state.atoms == s.state.atoms
    ensures WellFormed(s.state) ==> WellFormed(r.state)
    ensures s.outcome.Fail? ==> r == s
    ensures r.outcome.Pass? <==>
              s.outcome.Pass? && DihedralSectionsValid(data)
              && AllDihedralsIn(DecodedDihedrals(data, pi), |s.state.atoms|)
    ensures r.outcome.Pass? ==> r.state == s.state.(dihedrals := s.state.dihedrals + DecodedDihedrals(data, pi))
  {
    if s.outcome.Fail? then s else DihedralStage(s.state, data, pi)
  }

  /** The angle and dihedral stages, run only if the stages before them passed. */
  function AfterBonds(s: Step<Parm, ParmError>, data: ParmData, pi: real): (r: Step<Parm, ParmError>)
    requires pi > 0.0 && Admissible(data) && (s.outcome.Pass? ==> POINTERS in data)
    ensures Extends(s.state, r.state) && r.state.atoms == s.state.atoms
    ensures WellFormed(s.state) ==> WellFormed(r.state)
    ensures s.outcome.Fail? ==> r == s
    ensures r.outcome.Pass? <==>
              && s.outcome.Pass? && AngleSectionsValid(data)
              && AllAnglesIn(DecodedAngles(data, pi), |s.state.atoms|)
              && DihedralSectionsValid(data)
              && AllDihedralsIn(DecodedDihedrals(data, pi), |s.state.atoms|)
    ensures r.outcome.Pass? ==>
              r.state == s.state.(angles := s.state.angles + DecodedAngles(data, pi),
                                  dihedrals := s.state.dihedrals + DecodedDihedrals(data, pi))
  {
    if s.outcome.Fail? then s
    else
      var s3 := AngleStage(s.state, data, pi);
      var r := AfterAngles(s3, data, pi);
      ExtendsTransitive(s.state, s3.state, r.state);
      r
  }

  /** The three bonded stages, run only if the atom stage passed. */
  function AfterAtoms(s: Step<Parm, ParmError>, data: ParmData, pi: real): (r: Step<Parm, ParmError>)
    requires pi > 0.0 && Admissible(data) && (s.outcome.Pass? ==> POINTERS in data)
    ensures Extends(s.state, r.state) && r.state.atoms == s.state.atoms
    ensures WellFormed(s.state) ==> WellFormed(r.state)
    ensures s.outcome.Fail? ==> r == s
    ensures r.outcome.Pass? <==> s.outcome.Pass? && TermsLoad(data, pi, |s.state.atoms|)
    ensures r.outcome.Pass? ==>
              r.state == s.state.(bonds := s.state.bonds + DecodedBonds(data),
                                  angles := s.state.angles + DecodedAngles(data, pi),
                                  dihedrals := s.state.dihedrals + DecodedDihedrals(data, pi))
  {
    if s.outcome.Fail? then s
    else
      var s2 := BondStage(s.state, data);
      var r := AfterBonds(s2, data, pi);
      ExtendsTransitive(s.state, s2.state, r.state);
      r
  }

  /** Every section passes its checks and every decoded term references an
      atom of the store once the file's atoms are in it. */
  predicate LoadsCompletely(p: Parm, data: ParmData, pi: real)
    requires pi > 0.0 && Admissible(data)
  {
    AtomSectionsValid(data) && TermsLoad(data, pi, |p.atoms| + Pointer(data, NATOM))
  }

  /** Reads a tokenized prmtop into `p`.  The stages run in the order of the
      file's sections and each throws at its first problem; atoms and the
      terms of earlier stages are already inserted by then.  It reports
      success exactly when the tokenizer succeeded and the whole file is
      consistent. */
  function Rdparm(p: Parm, status: ExitStatus, data: ParmData, pi: real, root6: real -> real): (r: Step<Parm, ParmError>)
    requires pi > 0.0 && Admissible(data)
    ensures status != Parsed ==> r == Step(p, Fail(StatusError(status)))
    ensures Extends(p, r.state)
    ensures WellFormed(p) ==> WellFormed(r.state)
  {
    if status != Parsed then Step(p, Fail(StatusError(status)))
    else
      var s1 := AtomStage(p, data, root6);
      var r := AfterAtoms(s1, data, pi);
      ExtendsTransitive(p, s1.state, r.state);
      r
  }

  predicate AllBondsIn(bs: seq<Bond>, natom: int) {
    forall k :: 0 <= k < |bs| ==> BondInRange(bs[k], natom)
  }

  predicate AllAnglesIn(angs: seq<Angle>, natom: int) {
    forall k :: 0 <= k < |angs| ==> AngleInRange(angs[k], natom)
  }

  predicate AllDihedralsIn(ds: seq<Dihedral>, natom: int) {
    forall k :: 0 <= k < |ds| ==> DihedralInRange(ds[k], natom)
  }

  /** A successful decode appends the file's atoms, then its bonds, angles
      and dihedrals (the hydrogen subset of each first), and changes
      nothing else. */
  lemma AtomStageSize(p: Parm, data: ParmData, pi: real, root6: real -> real)
    requires pi > 0.0 && Admissible(data) && AtomStage(p, data, root6).outcome.Pass?
    ensures LoadsCompletely(p, data, pi) <==> TermsLoad(data, pi, |AtomStage(p, data, root6).state.atoms|)
  {
  }

  lemma AtomStageFailure(p: Parm, data: ParmData, pi: real, root6: real -> real)
    requires pi > 0.0 && Admissible(data) && AtomStage(p, data, root6).outcome.Fail?
    ensures !LoadsCompletely(p, data, pi)
  {
  }

  /** The decoder reports success exactly when the tokenizer succeeded and
      the whole file is consistent. */
  lemma RdparmPassesExactly(p: Parm, status: ExitStatus, data: ParmData, pi: real, root6: real -> real)
    requires pi > 0.0 && Admissible(data)
    ensures Rdparm(p, status, data, pi, root6).outcome.Pass? <==> status == Parsed && LoadsCompletely(p, data, pi)
  {
    if status == Parsed {
      var s1 := AtomStage(p, data, root6);
      assert Rdparm(p, status, data, pi, root6) == AfterAtoms(s1, data, pi);
      if s1.outcome.Pass? {
        AtomStageSize(p, data, pi, root6);
      } else {
        AtomStageFailure(p, data, pi, root6);
      }
    }
  }

  lemma RdparmLoadsFile(p: Parm, data: ParmData, pi: real, root6: real -> real)
    requires pi > 0.0 && Admissible(data) && LoadsCompletely(p, data, pi)
    ensures var r := Rdparm(p, Parsed, data, pi, root6);
            && r.outcome == Pass
            && |r.state.atoms| == |p.atoms| + Pointer(data, NATOM)
            && (forall j :: |p.atoms| <= j < |r.state.atoms| ==>
                  r.state.atoms[j] == FileAtom(data, root6, j, j - |p.atoms|))
            && r.state.bonds == p.bonds + DecodedBonds(data)
            && r.state.angles == p.angles + DecodedAngles(data, pi)
            && r.state.dihedrals == p.dihedrals + DecodedDihedrals(data, pi)
            && r.state.(atoms := p.atoms, bonds := p.bonds, angles := p.angles, dihedrals := p.dihedrals) == p
  {
    AtomStageLoadsAtoms(p, data, root6);
    RdparmPassesExactly(p, Parsed, data, pi, root6);
  }

  /** Decoding is not all-or-nothing: a file whose atom sections are valid
      but which lacks its bond sections is rejected after its atoms have
      been inserted. */
  lemma RdparmIsNotAtomic(p: Parm, data: ParmData, pi: real, root6: real -> real)
    requires pi > 0.0 && Admissible(data) && AtomSectionsValid(data) && BONDS_WITHOUT_HYDROGEN !in data
    ensures var r := Rdparm(p, Parsed, data, pi, root6);
            && r.outcome == Fail(BadSection(BONDS_WITHOUT_HYDROGEN))
            && |r.state.atoms| == |p.atoms| + Pointer(data, NATOM)
            && r.state.bonds == p.bonds
  {
    assert !Satisfied(data, BondChecks(data)[0]);
    assert FirstFailure(data, BondChecks(data)) == 0;
  }
}
