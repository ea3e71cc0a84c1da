/** An experimentally observed mono-link, a dead-end on one residue (the `Obs_mono` record). */
module ObsMono {

  datatype Mono = Mono(res: string, chain: string, resid: string, resname: string, objName: string)

  /** A mono-link as its constructor leaves it: every attribute the empty string. */
  const Fresh: Mono := Mono("", "", "", "", "")

  /** The overloaded equality: residue id and chain only. */
  predicate Eq(a: Mono, b: Mono)
  {
    a.resid == b.resid && a.chain == b.chain
  }

  /** Equality is an equivalence relation. */
  lemma EqIsEquivalence(a: Mono, b: Mono, c: Mono)
    ensures Eq(a, a)
    ensures Eq(a, b) <==> Eq(b, a)
    ensures Eq(a, b) && Eq(b, c) ==> Eq(a, c)
  {
  }

  /** Equality ignores the object name and the `res`/`resname` attributes. */
  lemma EqIgnoresOtherFields(a: Mono, res: string, resname: string, objName: string)
    ensures Eq(a, a.(res := res, resname := resname, objName := objName))
  {
  }
}
