/** The value records of a molecular topology: atoms and the bonded terms
    that reference them by zero-based atom index.  Each record's getters are
    the datatype's destructors, so a getter returns exactly the value the
    record was built with. */
module Topology {

  /** A C++ `double` that may be positive infinity.  Rmin/2 is the one atom
      property the prmtop loader can make infinite (a type with a repulsive
      coefficient but no dispersion coefficient), so it carries the case. */
  datatype Extended = Finite(value: real) | PosInfinity

  /** An atom: its index in the system, name, atom-type name, atomic number,
      mass (daltons), partial charge (electron fractions), Lennard-Jones
      Rmin/2 (Å) and epsilon (kcal/mol), and Generalized Born radius (Å) and
      screening factor. */
  datatype Atom = Atom(
    index: int,
    name: string,
    atomType: string,
    element: int,
    mass: real,
    charge: real,
    ljRadius: Extended,
    ljEpsilon: real,
    gbRadius: real,
    gbScreen: real)

  /** A bond between atoms i and j with force constant (kcal/mol/Å²) and
      equilibrium distance (Å). */
  datatype Bond = Bond(atomI: int, atomJ: int, forceConstant: real, equilibriumDistance: real)

  /** An angle i-j-k with force constant (kcal/mol/rad²) and equilibrium
      angle in degrees. */
  datatype Angle = Angle(atomI: int, atomJ: int, atomK: int, forceConstant: real, equilibriumAngle: real)

  /** A torsion i-j-k-l: force constant (kcal/mol), phase (degrees),
      periodicity, 1-4 electrostatic and van der Waals scaling factors, and
      whether its 1-4 end-group interaction is ignored. */
  datatype Dihedral = Dihedral(
    atomI: int,
    atomJ: int,
    atomK: int,
    atomL: int,
    forceConstant: real,
    phase: real,
    periodicity: int,
    scee: real,
    scnb: real,
    ignoreEndGroups: bool)
}
