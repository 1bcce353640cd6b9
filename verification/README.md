# Amber topology and restart files, modelled in Dafny

This project models the Amber file layer of omm_cphmd, a constant-pH
molecular-dynamics driver built on OpenMM. It covers:

- **The topology store** (`AmberParm`, amberparm.dfy). It is an append-only
  list of atoms, bonds, angles and dihedrals.
  - An atom must carry the next index.
  - A bonded term must reference atoms that are already stored.
  - The store also answers the exclusion query and the periodic-box query.
- **The prmtop decoder** (`Prmtop`, prmtop.dfy), which is `rdparm`. It
  takes the section map the tokenizer produced and does the following:
  - checks the sections the decoder needs;
  - derives each atom type's Lennard-Jones Rmin/2 and epsilon from the A
    and B coefficient tables;
  - inserts the atoms;
  - decodes the bonds, angles and dihedrals. Atom positions are stored as
    three times the index, and the sign of the third and fourth dihedral
    atoms flags an ignored end group. Parameter indices are 1-based.
    Angles and phases are converted from radians to degrees.
  - inserts the bonded terms.
- **The records** (`Topology`, topology.dfy): atoms, bonds, angles and
  dihedrals.
- **The coordinate frame** (`AmberCrd`, ambercrd.dfy):
  - its atom-count state machine. The first coordinate or velocity array
    fixes the count, and later arrays must match it.
  - the ASCII restart reader `readRst7`. It infers which of four layouts a
    file has from its line count, then reads fixed-width 12-character
    fields, two atoms to a line.
  - the writer `writeRst7`. A lemma proves that writing and then reading
    back gives the frame again, provided every value the writer prints
    parses back to itself.
- **The string helpers** (`StringManip`, string_manip.dfy): strtok-style
  `split` with all of its overloads, `upper` and `strip`.
- **The unit constants** (`AmberConstants`, `LegacyParmConstants`,
  constants.dfy).
- **C++ arithmetic** (`CppArith`, cpp_arith.dfy): truncating division and
  remainder, and the truncating conversion from double to int.

Several C++ members throw part-way through after they have already changed
their object: `rdparm`, `readRst7`, and the box line inside `readRst7`.
These return a `Step(state, outcome)`, which holds the state as it was when
the member stopped together with either `Pass` or the error. Exceptions
become `Result`/`Outcome` values (wrappers.dfy).

Some things are parameters, because the model cannot see or compute them:

- π (`pi`, known only to be positive);
- the sixth root (`root6`);
- the number parser `StringToDouble` (`parse`, with `None` for a failure);
- the `%12.7f` and `%5d` formatters (`fmt`, `fmtInt`);
- the tokenizer's exit status;
- whether a file could be opened.

The round-trip lemma assumes lossless formatting, but only for the values
the writer actually prints:

- each position component, each velocity component in the file's units
  (scaled by 1/20.455), and the six box values when a box is written,
  prints exactly twelve characters wide and parses back to itself;
- the atom count prints as one word that parses back to the count.

`AmberCrd.RestartRoundTripExample` exhibits a frame and a formatter that
meet these assumptions.

A Lennard-Jones type with A at least 1e-10 and B = 0 makes the C++ divide
by zero. Its Rmin/2 is then IEEE +infinity and its epsilon is zero. The
model carries that value as `Topology.Extended.PosInfinity`.

`rdparm` is not atomic. It appends every atom (src/amberparm.cpp:197-205)
before it checks the bond, angle and dihedral sections (216-223, 248-255,
291-302). `Prmtop.RdparmIsNotAtomic` states this.

## Model

| member | source | states |
|---|---|---|
| CppArith.CDiv | src/amberparm.cpp:224-237 | C++ `/` by a positive divisor truncates toward zero. For a non-negative dividend the quotient is the floor, and for a negative one it is the ceiling. |
| CppArith.CMod | src/ambercrd.cpp:146-151 | C++ `%` takes the dividend's sign, and quotient × divisor + remainder gives the dividend back. |
| CppArith.TruncToInt | src/ambercrd.cpp:42-49 | The double-to-int conversion of the atom count truncates toward zero. |
| CppArith.TruncationDiffersFromEuclid | src/amberparm.cpp:314-317 | On negative stored positions, truncating and Euclidean division give different answers. |
| CppArith.CDivOfTriple | src/amberparm.cpp:226-227 | A stored position 3k or -3k decodes to exactly k or -k. |
| AmberConstants.DegreePerRadian | include/amber/amber_constants.h:12 | The degrees-per-radian constant is positive, and times π it gives 180. |
| AmberConstants.RadianPerDegree | include/amber/amber_constants.h:16 | The radians-per-degree constant is positive, and times 180 it gives π. |
| AmberConstants.DegreeRadianRoundTrip | include/amber/amber_constants.h:12-16 | Converting to degrees and back gives the original value. Multiplying by `DEGREE_PER_RADIAN` is the same as `* 180.0 / M_PI`, which is how the decoder writes it. |
| LegacyParmConstants.DegreePerRadian | include/amberparm.h:115 | The older header's degrees-per-radian constant is positive, and times π it gives 180. |
| LegacyParmConstants.RadianPerDegree | include/amberparm.h:118 | The older header's radians-per-degree constant is positive, and times 180 it gives π. |
| LegacyParmConstants.LegacyCalorieDisagrees | include/amberparm.h:113-118 | The older header agrees with the newer one on lengths and on both angle constants. Its joules-per-calorie is 4.814, which is 0.63 more than the newer 4.184. |
| AmberParm.EmptyParm | include/amber/amberparm.h:28 | The default store is empty and well formed. It is not periodic, and no sequence of appends makes it periodic. |
| AmberParm.AddAtom | src/amberparm.cpp:21-25 | Rejected exactly when the atom's index is not the current atom count. Otherwise the atom is appended and nothing else changes. Well-formedness is kept. |
| AmberParm.AddAtomFields | src/amberparm.cpp:27-41 | Appends an atom with the given properties and the next index. This is exactly what `AddAtom` accepts. |
| AmberParm.AddBond | src/amberparm.cpp:44-51 | Rejected exactly when an endpoint is outside [0, natom). Otherwise the bond is appended and nothing else changes. |
| AmberParm.AddBondFields | src/amberparm.cpp:53-58 | The field overload agrees with the record overload on every input, errors included. |
| AmberParm.AddAngle | src/amberparm.cpp:61-69 | Rejected exactly when one of the three atoms is out of range. Otherwise the angle is appended and nothing else changes. |
| AmberParm.AddAngleFields | src/amberparm.cpp:71-76 | Agrees with the record overload on every input. |
| AmberParm.AddDihedral | src/amberparm.cpp:79-89 | Rejected exactly when one of the four atoms is out of range. Otherwise the dihedral is appended and nothing else changes. |
| AmberParm.AddDihedralFields | src/amberparm.cpp:91-100 | Agrees with the record overload on every input. |
| AmberParm.IsExcluded | include/amber/amberparm.h:88-94 | A self-pair is excluded. Any other pair is excluded exactly when the larger index is in the exclusion set of the smaller. |
| AmberParm.IsExcludedSymmetric | include/amber/amberparm.h:88-94 | The exclusion query does not depend on argument order. |
| AmberParm.ExtendsTransitive | include/amber/amberparm.h:47-56 | Append-only growth composes. |
| AmberParm.InsertAllKeepsWellFormed | include/amber/amberparm.h:47-56 | Any sequence of insertions, each accepted or rejected, keeps atom i at index i and every bonded term inside the store, and only appends. |
| AmberParm.BuiltStoreIsSequential | test/AmberParmTest.cpp:24-36 | A store built from the empty one through the public interface has sequential atom indices. |
| Prmtop.Validate | src/amberparm.cpp:154-178 | The section checks run in source order. The result passes exactly when every check holds. Otherwise it names the flag of the first failing check: that check fails and every check before it holds. |
| Prmtop.SelfPair | src/amberparm.cpp:182-194 | For A < 1e-10 the result is (Rmin/2 = 0.5, ε = 0). Rmin/2 is infinite exactly when A ≥ 1e-10 and B = 0, and then ε = 0. Otherwise Rmin/2 is finite, 2·Rmin/2 is the sixth root of 2A/B, and 4Aε = B². |
| Prmtop.SelfPairRecoversCoefficients | src/amberparm.cpp:185-194 | The derived Rmin and ε give back the A and B coefficients they came from (A = ε·Rmin¹², B = 2ε·Rmin⁶). |
| Prmtop.SelfPairEqualCoefficients | src/amberparm.cpp:182-194 | Worked cases: A = B gives (½·⁶√2, A/4), A = 0 gives the zero-size type, and B = 0 gives an infinite radius with ε = 0. |
| Prmtop.LjTable | src/amberparm.cpp:180-195 | The table has one entry per atom type, and entry t is the self-pair of the diagonal NONBONDED_PARM_INDEX entry for t. |
| Prmtop.AddAtoms | src/amberparm.cpp:197-205 | Appends k atoms built from the section rows with sequential indices. Nothing else changes, and well-formedness is kept. |
| Prmtop.FileAtom | src/amberparm.cpp:198-204 | File atom i gets its name, type, element, mass, radius and screen from row i. Its charge is the stored charge divided by 18.2223, and its Lennard-Jones pair is the table entry of its 1-based type. |
| Prmtop.AtomStage | src/amberparm.cpp:150-205 | A missing POINTERS section gives MissingPointers. The stage passes exactly when the atom sections are valid. On failure the store is unchanged. On success exactly NATOM atoms are appended and nothing else changes. |
| Prmtop.AtomStageLoadsAtoms | src/amberparm.cpp:197-205 | After a valid atom stage, each new atom is the file atom of its row. |
| Prmtop.DecodeBond | src/amberparm.cpp:224-230 | The endpoints are the stored positions truncated-divided by 3. The force constant and length come from the 1-based parameter index. |
| Prmtop.DecodeAngle | src/amberparm.cpp:257-265 | The three atoms are decoded as for bonds. The equilibrium angle times π is the stored radians times 180. |
| Prmtop.DecodeDihedral | src/amberparm.cpp:312-324 | The third and fourth atoms are the absolute values of their decoded positions. The end group is ignored exactly when one of those raw values is at most -3. The phase is converted to degrees, the periodicity is truncated, and SCEE/SCNB are looked up by parameter index. |
| Prmtop.DihedralSignExamples | src/amberparm.cpp:316-321 | A raw -12 flags an ignored end group and decodes to atom 4. A raw -1 truncates to atom 0 and does not flag it. |
| Prmtop.DecodeEncodeBonds | src/amberparm.cpp:224-237 | Round trip: bonds encoded in the prmtop layout (3× positions, 1-based indices) decode back to themselves. |
| Prmtop.DecodeEncodeAngles | src/amberparm.cpp:257-274 | Round trip for angles, including the radian/degree conversion. |
| Prmtop.DecodeEncodeDihedrals | src/amberparm.cpp:312-337 | Round trip for dihedrals, including the ignore-end sign flag and the scaling tables. |
| Prmtop.AddBonds | src/amberparm.cpp:224-237 | Inserting the decoded bonds passes exactly when every bond is in range. On success they are all appended in order. On failure it stops at the first out-of-range bond: the bonds before it are all in range and remain inserted, and nothing else in the store changes. |
| Prmtop.AddAngles | src/amberparm.cpp:257-274 | The same for angles. |
| Prmtop.AddDihedrals | src/amberparm.cpp:312-337 | The same for dihedrals. |
| Prmtop.AddBondsOneByOneAgrees | src/amberparm.cpp:224-237 | Calling the single-bond insert once per decoded bond, and stopping at the first exception, gives exactly the result `AddBonds` characterises. |
| Prmtop.AddAnglesOneByOneAgrees | src/amberparm.cpp:257-274 | The same for the angle loop. |
| Prmtop.AddDihedralsOneByOneAgrees | src/amberparm.cpp:312-337 | The same for the dihedral loop. |
| Prmtop.BondStage | src/amberparm.cpp:207-237 | A failed section check leaves the store unchanged and names the section. Otherwise the stage passes exactly when every decoded bond, hydrogen bonds first, is in range. Only the bond list grows. |
| Prmtop.AngleStage | src/amberparm.cpp:239-274 | The same for angles. |
| Prmtop.ScaleTable | src/amberparm.cpp:288-289 | Without the SCEE/SCNB section every entry is the default (1.2 or 2.0). With it, the table is the section's first nptra values. |
| Prmtop.DihedralStage | src/amberparm.cpp:276-337 | A negative NPTRA fails before any section check, because the default tables are built first. Otherwise it behaves as the bond stage does. |
| Prmtop.Rdparm | src/amberparm.cpp:111-132 | A non-success tokenizer status raises its own error and changes nothing. The store only ever grows and stays well formed. |
| Prmtop.RdparmPassesExactly | src/amberparm.cpp:111-337 | Decoding passes exactly when the tokenizer succeeded, the atom stage passed, and every section check passed with every decoded term in range. |
| Prmtop.RdparmLoadsFile | src/amberparm.cpp:197-337 | A file that loads appends exactly its NATOM file atoms and its decoded bonds, angles and dihedrals, and changes nothing else. |
| Prmtop.RdparmIsNotAtomic | src/amberparm.cpp:197-217 | With valid atom sections but no BONDS_WITHOUT_HYDROGEN section, decoding fails naming that section, and the atoms stay inserted. |
| StringManip.CStr | src/string_manip.cpp:25-31 | A C string is the prefix before the first NUL. |
| StringManip.Tokens | src/string_manip.cpp:13-22 | The strtok tokens are non-empty and free of delimiters. Concatenated, they are the input with its delimiters removed. |
| StringManip.Split | src/string_manip.cpp:13-32 | The same property for the string and char-pointer overloads, both of which see only the C-string prefix of their arguments. |
| StringManip.SplitWords | src/string_manip.cpp:34-37 | The one-argument overload splits on space, newline and carriage return. |
| StringManip.SplitWordsOverloadsAgree | src/string_manip.cpp:34-41 | The `" \n\r"` and `" \r\n"` default overloads split identically. |
| StringManip.TokensDependOnDelimiterSet | src/string_manip.cpp:13-22 | Tokens depend only on the set of delimiter characters. |
| StringManip.TokensOfJoin | src/string_manip.cpp:13-22 | Splitting undoes joining non-empty, delimiter-free words with a delimiter. |
| StringManip.ToUpper | src/string_manip.cpp:64 | `toupper` in the C locale maps a-z to A-Z and leaves every other character alone. |
| StringManip.Upper | src/string_manip.cpp:61-67 | The result has the input's length, and character i is the upper-cased input character i. |
| StringManip.UpperIdempotent | src/string_manip.cpp:61-67 | The result has no lower-case ASCII letter, and upper-casing it again changes nothing. |
| StringManip.UpperAppend | src/string_manip.cpp:61-67 | Upper-casing distributes over concatenation. |
| StringManip.UpperLoop | src/string_manip.cpp:61-67 | The source's character loop computes `Upper`. |
| StringManip.Substr | src/string_manip.cpp:54 | `substr` fails exactly when the position is outside [0, size]. Otherwise it returns the up to `len` characters from the position. |
| StringManip.StripAsWrittenKeepsAtMostLastChar | src/string_manip.cpp:43-55 | As written, `strip` throws exactly on an empty or all-whitespace input. Otherwise it returns at most the input's last character. |
| StringManip.StripAsWrittenCounterexamples | src/string_manip.cpp:43-55 | `"  ab  "` gives `" "`, `"abc"` gives `"c"`, and `"   "` throws. |
| StringManip.Strip | include/amber/string_manip.h:16 | Intended stripping: the result is the part of the input between its leading and its trailing whitespace, with no whitespace at either end. It is empty exactly when the input is all whitespace. |
| StringManip.StripIdempotent | include/amber/string_manip.h:16 | Stripping twice strips nothing more. |
| StringManip.StripKeepsTrimmed | include/amber/string_manip.h:16 | A string with no whitespace at either end is kept as it is. |
| AmberCrd.NewFrame | include/ambercrd.h:21-24 | A new frame has an unknown atom count (-1), zero box and temperature, and no positions or velocities, and it is consistent. |
| AmberCrd.SetPositions | include/ambercrd.h:27-36 | Accepted exactly when the count is unknown or equals the array length, and otherwise a coordinate-size error. On success the positions are stored, the count becomes the array length, and nothing else changes. |
| AmberCrd.SetVelocities | include/ambercrd.h:41-50 | The same for velocities, with a velocity-size error. |
| AmberCrd.SetBox | include/ambercrd.h:55-59 | Stores the three lengths and three angles and changes nothing else. |
| AmberCrd.SetBoxDefaultsToRightAngles | include/amber/ambercrd.h:99-103 | The angles default to 90 degrees. |
| AmberCrd.ApplyAllKeepsConsistent | include/ambercrd.h:27-59 | Under any sequence of setter calls, each accepted or rejected, positions and velocities never disagree with the count, and a known count never changes. |
| AmberCrd.BuiltFrameIsConsistent | include/ambercrd.h:21-59 | Any frame built through the setters from a fresh one is consistent. |
| AmberCrd.Classify | src/ambercrd.cpp:54-64 | A recognised layout has exactly the file's line count. No layout is recognised exactly when no layout's line count matches. |
| AmberCrd.ClassifyRecognisesLayout | src/ambercrd.cpp:54-64 | For at least one atom, every layout's own line count is recognised as that layout. The one exception is velocities without a box for one or two atoms. |
| AmberCrd.SmallFileWithVelocitiesReadsAsBox | src/ambercrd.cpp:54-61 | With one or two atoms, a velocities-no-box file has 4 lines and is classified as box-only. |
| AmberCrd.Field | src/ambercrd.cpp:77-79 | A field reads exactly when the line reaches its column and the 12-character cell parses. Otherwise it is an error. |
| AmberCrd.ReadBlockFrom | src/ambercrd.cpp:73-86 | The block reader keeps every atom it has read. It passes exactly when every atom's fields read, and otherwise stops at the first atom that does not. |
| AmberCrd.ReadBox | src/ambercrd.cpp:109-116 | The box line passes exactly when all six fields read, and then the box values are those fields. Only box values are assigned. |
| AmberCrd.ReadRst7 | src/ambercrd.cpp:18-117 | Fewer than two lines or an empty header line fail with the frame untouched. A successful read leaves a consistent frame whose non-negative atom count classifies the file. |
| AmberCrd.ReadRst7Pass | src/ambercrd.cpp:38-72 | A successful read took its count from the header's first word and its temperature from the third word, if there is one. It then read the blocks of the classified layout. |
| AmberCrd.ReadBlocksPass | src/ambercrd.cpp:66-116 | After a successful block read, the positions are the coordinate block's atoms. The velocities are the velocity block scaled by 20.455, or empty. The box is the box line's values, or left as it was. |
| AmberCrd.ReadBlocksReadsAs | src/ambercrd.cpp:66-116 | Conversely, lines whose blocks read as given arrays produce exactly those arrays and box values. |
| AmberCrd.ReadRst7KeepsAtomCountOnFailure | src/ambercrd.cpp:48-64 | Reading is not atomic: a 3-line file whose header says 7 atoms fails with UnknownLineCount but has already set the atom count to 7. |
| AmberCrd.ReadFieldsValues | src/ambercrd.cpp:109-116 | Each value read from the box line is the field at its position, and a failed read stops at the first field that does not parse. |
| AmberCrd.BlockIsPairLines | src/ambercrd.cpp:146-151 | The writer's per-atom stream, with a newline after each odd atom and a final one for an odd count, is the stream of per-pair lines. |
| AmberCrd.WriteRst7Lines | src/ambercrd.cpp:127-169 | NetCDF output fails first, then an unopenable file. Otherwise the text is these lines, each followed by a newline: an empty title, the count, the coordinate lines, the velocity lines (scaled by 1/20.455) if any, and the box line if all six box values are positive. |
| AmberCrd.WrittenLineCount | src/ambercrd.cpp:143-167 | The writer emits exactly the line count the reader expects for the frame's layout. |
| AmberCrd.RestartRoundTrip | src/ambercrd.cpp:18-169 | If every value the writer prints parses back to itself, reading back a written consistent frame passes, unless the layout is the ambiguous one. It recovers the count, positions and velocities, and the box if one was written. Otherwise the reading frame keeps its own box. |
| AmberCrd.RestartRoundTripExample | src/ambercrd.cpp:18-169 | A one-atom frame with a velocity and a box, written by a formatter that prints its values exactly, is read back in full by a fresh frame. |
| AmberCrd.SmallRestartLosesVelocities | src/ambercrd.cpp:54-57 | A written 1- or 2-atom frame with velocities and no box reads back as box-only and loses its velocities. |

## Left out

- The prmtop tokenizer (`readparm`, Fortran-format parsing) is not part of this model. Its exit status and section map are inputs.
- Exclusion-list, residue-pointer, residue-label and IfBox population are left out. `rdparm` as shown never fills them, so the store keeps them as they are.
- NetCDF restart files, the unit cell, the GB models and OpenMM system creation are outside the modelled core.
- Floating-point rounding is not modelled. Values are `real`; `pow(x, 1/6)`, `M_PI`, `StringToDouble` and `printf` formatting are parameters. Of the IEEE special values only the infinite Rmin/2 that `rdparm` itself produces is modelled. NaN and infinite inputs are not.
- The records' getters, `getIndex` and the other Atom getters included (include/topology.h:122-132), are the datatypes' fields and hold no logic, so no lemma states them.
- The reciprocal identities between the unit constants (`AmberConstants.ReciprocalPairs`, `LegacyParmConstants.LegacyReciprocals`) are arithmetic on literals. Other proofs use them, and they are not listed as properties.
- Prmtop.Admissible: what the source reads without a bounds check (`nbidx`, the A/B tables, atom types, parameter indices, SCEE/SCNB lengths, at least 18 POINTERS) is required of the whole file. The source reads parameter entries only up to the first out-of-range bonded term, so this asks slightly more than the source does.
- AmberParm.IsExcluded: requires the smaller index to be inside the exclusion list, because the source indexes it without a check.
- AmberCrd.WriteRst7: requires a coordinate for every atom, and a velocity for every atom when any are stored, because the source indexes the vectors without a check.
- AmberCrd.RestartRoundTrip: assumes each printed value parses back to itself. Real `%12.7f` output rounds to seven decimals, so the real program recovers other values only up to that precision, and the lemma says nothing about them.
- Integers are unbounded. No 32-bit overflow of `natom_`, sizes or products such as `mbona*3` is modelled.
- Strings are sequences of characters, while the source indexes `std::string` bytes. `substr` (StringManip.Substr and the 12-column restart cells of AmberCrd.Cell), the `strip` loop and `toupper` therefore match the source only on ASCII text; prmtop and restart files are ASCII.
- AmberCrd.RestartRoundTrip: is proved at the level of lines. The reader's input is the file's lines, so the `getline` split of the text (src/ambercrd.cpp:30-32) is not modelled. The lemma feeds the writer's lines straight to the reader, which matches the written text only when no formatted field or count contains a newline.
- Which exception wins within one `Vec3` depends on C++ argument evaluation order, which is unspecified. An out-of-range `substr` and a parse failure are therefore one error, `BadField`.
- An input restart file that cannot be opened yields no lines and so fails as `TooFewLines`, as in the source.
- Object ownership, copying and the `const char*` overloads that only forward to the `std::string` ones are modelled as the same function.
- `split` writes NUL bytes into the caller's buffer through strtok. That side effect is not modelled; only the returned tokens are.
- include/topology.h's older Atom layout differs from the one the builder uses. The model follows the builder's fields.

## Findings

| source | as written | input that shows it | evidently intended | confidence | as-written member | corrected member |
|---|---|---|---|---|---|---|
| src/string_manip.cpp:43-55 | `first` is overwritten on every character after the first non-space one, and `last` is passed to `substr` as a length. An all-whitespace or empty string passes position -1 and throws. | `"  ab  "` returns `" "`; `"abc"` returns `"c"`; `"   "` throws `out_of_range` | strip leading and trailing whitespace only (include/amber/string_manip.h:16); `StringManip.StripIdempotent` proves that stripping twice strips nothing more | not executed | StringManip.StripAsWrittenCounterexamples | StringManip.Strip |
