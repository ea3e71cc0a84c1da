/** An experimentally observed cross-link between two residues (the `Obs_xlink` record). */
module ObsXlink {

  /** All the record's attributes. `resname2` is spelled `resanme2` in the record itself;
      nothing reads it. `distance` and the two presence flags are the slots the viewer
      fills in after the file is read. */
  datatype Xlink = Xlink(
    res1: string, res2: string,
    chain1: string, chain2: string,
    resid1: string, resid2: string,
    resname1: string, resname2: string,
    distance: real,
    objName: string,
    res1InObj: bool, res2InObj: bool)

  /** A cross-link as its constructor leaves it: every string empty, distance 0.0 and
      both residues taken to be present. */
  const Fresh: Xlink := Xlink("", "", "", "", "", "", "", "", 0.0, "", true, true)

  /** The overloaded equality: the four identifier fields, pairwise and in order. */
  predicate Eq(a: Xlink, b: Xlink)
  {
    a.resid1 == b.resid1 && a.resid2 == b.resid2 && a.chain1 == b.chain1 && a.chain2 == b.chain2
  }

  /** Equality is an equivalence relation. */
  lemma EqIsEquivalence(a: Xlink, b: Xlink, c: Xlink)
    ensures Eq(a, a)
    ensures Eq(a, b) <==> Eq(b, a)
    ensures Eq(a, b) && Eq(b, c) ==> Eq(a, c)
  {
  }

  /** Equality ignores the distance, the object name, the presence flags and the
      `res*`/`resname*` attributes: changing all of them keeps a record equal to itself. */
  lemma EqIgnoresOtherFields(a: Xlink, res1: string, res2: string, resname1: string, resname2: string,
                             distance: real, objName: string, in1: bool, in2: bool)
    ensures Eq(a, a.(res1 := res1, res2 := res2, resname1 := resname1, resname2 := resname2,
                     distance := distance, objName := objName, res1InObj := in1, res2InObj := in2))
  {
  }

  /** The same link written the other way round. */
  function Reversed(a: Xlink): Xlink
  {
    a.(resid1 := a.resid2, chain1 := a.chain2, resid2 := a.resid1, chain2 := a.chain1)
  }

  /** Equality is orientation-sensitive: a link equals its reversal only when both ends
      name the same residue of the same chain. */
  lemma EqOrientationSensitive(a: Xlink)
    ensures Eq(a, Reversed(a)) <==> a.resid1 == a.resid2 && a.chain1 == a.chain2
  {
  }
}
