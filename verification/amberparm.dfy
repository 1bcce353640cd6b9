/** The topology store: an append-only list of atoms and of the bonds,
    angles and dihedrals between them.  Atoms must be inserted in index
    order and every bonded term must reference atoms already present, which
    is how the store keeps its cross-references valid without a separate
    integrity pass. */
module AmberParm {
  import opened Wrappers
  import opened Topology

  datatype TermKind = BondTerm | AngleTerm | DihedralTerm

  /** Every condition under which the topology class throws. */
  datatype ParmError =
    | CouldNotOpen
    | MissingVersion
    | EmptyPrmtop
    | PrmtopParseError
    | MissingPointers
    | BadSection(flag: string)
    | NonSequentialAtom
    | AtomIndexOutOfRange(kind: TermKind)
    | TableTooLarge

  datatype Parm = Parm(
    ifbox: int,
    atoms: seq<Atom>,
    bonds: seq<Bond>,
    angles: seq<Angle>,
    dihedrals: seq<Dihedral>,
    residuePointers: seq<int>,
    residueLabels: seq<string>,
    exclusions: seq<set<int>>)

  predicate InRange(k: int, natom: int) {
    0 <= k < natom
  }

  predicate BondInRange(b: Bond, natom: int) {
    InRange(b.atomI, natom) && InRange(b.atomJ, natom)
  }

  predicate AngleInRange(a: Angle, natom: int) {
    InRange(a.atomI, natom) && InRange(a.atomJ, natom) && InRange(a.atomK, natom)
  }

  predicate DihedralInRange(d: Dihedral, natom: int) {
    InRange(d.atomI, natom) && InRange(d.atomJ, natom) && InRange(d.atomK, natom) && InRange(d.atomL, natom)
  }

  /** Atom `i` carries index `i`, and every bonded term references atoms in
      the store. */
  predicate WellFormed(p: Parm) {
    && (forall i :: 0 <= i < |p.atoms| ==> p.atoms[i].index == i)
    && (forall k :: 0 <= k < |p.bonds| ==> BondInRange(p.bonds[k], |p.atoms|))
    && (forall k :: 0 <= k < |p.angles| ==> AngleInRange(p.angles[k], |p.atoms|))
    && (forall k :: 0 <= k < |p.dihedrals| ==> DihedralInRange(p.dihedrals[k], |p.atoms|))
  }

  /** `q` is `p` with items appended to some of its four lists. */
  predicate Extends(p: Parm, q: Parm) {
    && |p.atoms| <= |q.atoms| && q.atoms[..|p.atoms|] == p.atoms
    && |p.bonds| <= |q.bonds| && q.bonds[..|p.bonds|] == p.bonds
    && |p.angles| <= |q.angles| && q.angles[..|p.angles|] == p.angles
    && |p.dihedrals| <= |q.dihedrals| && q.dihedrals[..|p.dihedrals|] == p.dihedrals
    && q.ifbox == p.ifbox && q.residuePointers == p.residuePointers
    && q.residueLabels == p.residueLabels && q.exclusions == p.exclusions
  }

  lemma ExtendsTransitive(p: Parm, q: Parm, r: Parm)
    requires Extends(p, q) && Extends(q, r)
    ensures Extends(p, r)
  {
    assert r.atoms[..|p.atoms|] == r.atoms[..|q.atoms|][..|p.atoms|];
    assert r.bonds[..|p.bonds|] == r.bonds[..|q.bonds|][..|p.bonds|];
    assert r.angles[..|p.angles|] == r.angles[..|q.angles|][..|p.angles|];
    assert r.dihedrals[..|p.dihedrals|] == r.dihedrals[..|q.dihedrals|][..|p.dihedrals|];
  }

  /** The default-constructed store. */
  function EmptyParm(): (p: Parm)
    ensures !IsPeriodic(p) && IfBox(p) == 0
    ensures WellFormed(p)
    ensures forall q: Parm :: Extends(p, q) ==> IfBox(q) == 0 && !IsPeriodic(q)
  {
    Parm(0, [], [], [], [], [], [], [])
  }

  function IfBox(p: Parm): int {
    p.ifbox
  }

  predicate IsPeriodic(p: Parm) {
    IfBox(p) > 0
  }

  /** Inserts a pre-built atom; it must carry the next index. */
  function AddAtom(p: Parm, a: Atom): (r: Result<Parm, ParmError>)
    ensures r.Failure? <==> a.index != |p.atoms|
    ensures r.Failure? ==> r.error == NonSequentialAtom
    ensures r.Success? ==> r.value.atoms == p.atoms + [a] && r.value.(atoms := p.atoms) == p
    ensures r.Success? && WellFormed(p) ==> WellFormed(r.value)
  {
    if a.index != |p.atoms| then Failure(NonSequentialAtom)
    else Success(p.(atoms := p.atoms + [a]))
  }

  /** Inserts an atom from its properties, giving it the next index.  The
      `const char*` overload is the same operation on C strings. */
  function AddAtomFields(p: Parm, name: string, atomType: string, element: int, mass: real,
                         charge: real, ljRad: Extended, ljEps: real, gbRad: real, gbScreen: real): (q: Parm)
    ensures |q.atoms| == |p.atoms| + 1 && q.atoms[|p.atoms|].index == |p.atoms|
    ensures AddAtom(p, q.atoms[|p.atoms|]) == Success(q)
    ensures q.atoms[|p.atoms|] == Atom(q.atoms[|p.atoms|].index, name, atomType, element, mass,
                                       charge, ljRad, ljEps, gbRad, gbScreen)
    ensures WellFormed(p) ==> WellFormed(q)
  {
    var i := |p.atoms|;
    p.(atoms := p.atoms + [Atom(i, name, atomType, element, mass, charge, ljRad, ljEps, gbRad, gbScreen)])
  }

  function AddBond(p: Parm, b: Bond): (r: Result<Parm, ParmError>)
    ensures r.Failure? <==> !(InRange(b.atomI, |p.atoms|) && InRange(b.atomJ, |p.atoms|))
    ensures r.Failure? ==> r.error == AtomIndexOutOfRange(BondTerm)
    ensures r.Success? ==> r.value.bonds == p.bonds + [b] && r.value.(bonds := p.bonds) == p
    ensures r.Success? && WellFormed(p) ==> WellFormed(r.value)
  {
    var natom := |p.atoms|;
    if b.atomI < 0 || b.atomI >= natom || b.atomJ < 0 || b.atomJ >= natom then
      Failure(AtomIndexOutOfRange(BondTerm))
    else
      Success(p.(bonds := p.bonds + [b]))
  }

  /** The field overload performs its own range check and agrees with the
      record overload on every input. */
  function AddBondFields(p: Parm, i: int, j: int, kf: real, req: real): (r: Result<Parm, ParmError>)
    ensures r == AddBond(p, Bond(i, j, kf, req))
  {
    var natom := |p.atoms|;
    if i < 0 || i >= natom || j < 0 || j >= natom then Failure(AtomIndexOutOfRange(BondTerm))
    else Success(p.(bonds := p.bonds + [Bond(i, j, kf, req)]))
  }

  function AddAngle(p: Parm, a: Angle): (r: Result<Parm, ParmError>)
    ensures r.Failure? <==> !AngleInRange(a, |p.atoms|)
    ensures r.Failure? ==> r.error == AtomIndexOutOfRange(AngleTerm)
    ensures r.Success? ==> r.value.angles == p.angles + [a] && r.value.(angles := p.angles) == p
    ensures r.Success? && WellFormed(p) ==> WellFormed(r.value)
  {
    var natom := |p.atoms|;
    if a.atomI < 0 || a.atomI >= natom || a.atomJ < 0 || a.atomJ >= natom
       || a.atomK < 0 || a.atomK >= natom then
      Failure(AtomIndexOutOfRange(AngleTerm))
    else
      Success(p.(angles := p.angles + [a]))
  }

  function AddAngleFields(p: Parm, i: int, j: int, k: int, kf: real, theteq: real): (r: Result<Parm, ParmError>)
    ensures r == AddAngle(p, Angle(i, j, k, kf, theteq))
  {
    var natom := |p.atoms|;
    if i < 0 || i >= natom || j < 0 || j >= natom || k < 0 || k >= natom then
      Failure(AtomIndexOutOfRange(AngleTerm))
    else
      Success(p.(angles := p.angles + [Angle(i, j, k, kf, theteq)]))
  }

  function AddDihedral(p: Parm, d: Dihedral): (r: Result<Parm, ParmError>)
    ensures r.Failure? <==> !DihedralInRange(d, |p.atoms|)
    ensures r.Failure? ==> r.error == AtomIndexOutOfRange(DihedralTerm)
    ensures r.Success? ==> r.value.dihedrals == p.dihedrals + [d] && r.value.(dihedrals := p.dihedrals) == p
    ensures r.Success? && WellFormed(p) ==> WellFormed(r.value)
  {
    var natom := |p.atoms|;
    if d.atomI < 0 || d.atomI >= natom || d.atomJ < 0 || d.atomJ >= natom
       || d.atomK < 0 || d.atomK >= natom || d.atomL < 0 || d.atomL >= natom then
      Failure(AtomIndexOutOfRange(DihedralTerm))
    else
      Success(p.(dihedrals := p.dihedrals + [d]))
  }

  function AddDihedralFields(p: Parm, i: int, j: int, k: int, l: int, kf: real, phase: real,
                             periodicity: int, scee: real, scnb: real, ignoreEnd: bool): (r: Result<Parm, ParmError>)
    ensures r == AddDihedral(p, Dihedral(i, j, k, l, kf, phase, periodicity, scee, scnb, ignoreEnd))
  {
    var natom := |p.atoms|;
    if i < 0 || i >= natom || j < 0 || j >= natom || k < 0 || k >= natom || l < 0 || l >= natom then
      Failure(AtomIndexOutOfRange(DihedralTerm))
    else
      Success(p.(dihedrals := p.dihedrals + [Dihedral(i, j, k, l, kf, phase, periodicity, scee, scnb, ignoreEnd)]))
  }

  /** The exclusion query: self-pairs are excluded, and any other pair is
      looked up in the set of the smaller index.  The source indexes the
      exclusion list without a bounds check, hence the precondition. */
  function IsExcluded(p: Parm, i: int, j: int): (r: bool)
    requires i == j || 0 <= (if i < j then i else j) < |p.exclusions|
    ensures i == j ==> r
    ensures i < j ==> (r <==> j in p.exclusions[i])
    ensures j < i ==> (r <==> i in p.exclusions[j])
  {
    if i == j then true
    else if i < j then j in p.exclusions[i]
    else i in p.exclusions[j]
  }

  /** The query does not depend on the order of its arguments. */
  lemma IsExcludedSymmetric(p: Parm, i: int, j: int)
    requires i == j || 0 <= (if i < j then i else j) < |p.exclusions|
    ensures IsExcluded(p, i, j) == IsExcluded(p, j, i)
  {
  }

  /** One call of the public insertion interface. */
  datatype Insertion =
    | InsertAtom(atom: Atom)
    | InsertAtomFields(name: string, atomType: string, element: int, mass: real, charge: real,
                       ljRad: Extended, ljEps: real, gbRad: real, gbScreen: real)
    | InsertBond(bond: Bond)
    | InsertAngle(angle: Angle)
    | InsertDihedral(dihedral: Dihedral)

  function Insert(p: Parm, op: Insertion): Result<Parm, ParmError> {
    match op
    case InsertAtom(a) => AddAtom(p, a)
    case InsertAtomFields(n, t, e, m, c, lr, le, gr, gs) => Success(AddAtomFields(p, n, t, e, m, c, lr, le, gr, gs))
    case InsertBond(b) => AddBond(p, b)
    case InsertAngle(a) => AddAngle(p, a)
    case InsertDihedral(d) => AddDihedral(p, d)
  }

  /** A caller issuing insertions one after another and catching every
      error: a rejected insertion leaves the store as it was. */
  function InsertAll(p: Parm, ops: seq<Insertion>): Parm
    decreases |ops|
  {
    if ops == [] then p
    else
      var q := match Insert(p, ops[0]) case Success(q) => q case Failure(_) => p;
      InsertAll(q, ops[1..])
  }

  /** Whatever insertions a caller makes, and whichever of them are
      rejected, the store stays well formed: atom `i` has index `i` and no
      bonded term references a missing atom. */
  lemma {:induction false} InsertAllKeepsWellFormed(p: Parm, ops: seq<Insertion>)
    requires WellFormed(p)
    ensures WellFormed(InsertAll(p, ops))
    ensures Extends(p, InsertAll(p, ops))
    decreases |ops|
  {
    if ops != [] {
      var q := match Insert(p, ops[0]) case Success(q) => q case Failure(_) => p;
      assert WellFormed(q) && Extends(p, q);
      InsertAllKeepsWellFormed(q, ops[1..]);
    }
  }

  /** A store built through the public interface from the default one has
      sequential atom indices. */
  lemma BuiltStoreIsSequential(ops: seq<Insertion>)
    ensures var p := InsertAll(EmptyParm(), ops);
            forall i :: 0 <= i < |p.atoms| ==> p.atoms[i].index == i
  {
    InsertAllKeepsWellFormed(EmptyParm(), ops);
  }
}
