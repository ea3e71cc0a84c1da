/**
 * The logic inside two callbacks of the plugin's dialog: counting the satisfied and
 * violated cross-links for the two read-only boxes, and building the rows of the link
 * table. The widgets themselves are not modelled.
 */
module XlinkDialog {

  import opened XlinkViewer
  import ObsXlink
  import ObsMono

  type Xlink = ObsXlink.Xlink
  type Mono = ObsMono.Mono

  // ---------------------------------------------------------------------------
  // Satisfied and violated counts

  /** Both residues were found in the structure. */
  predicate Present(xl: Xlink)
  {
    xl.res1InObj && xl.res2InObj
  }

  /** The number of present cross-links whose distance is at most `t`. */
  function NumSat(xs: seq<Xlink>, t: real): nat
    decreases |xs|
  {
    if xs == [] then 0
    else NumSat(xs[..|xs| - 1], t) + (if xs[|xs| - 1].distance <= t && Present(xs[|xs| - 1]) then 1 else 0)
  }

  /** The number of present cross-links whose distance exceeds `t`. */
  function NumViol(xs: seq<Xlink>, t: real): nat
    decreases |xs|
  {
    if xs == [] then 0
    else NumViol(xs[..|xs| - 1], t) + (if xs[|xs| - 1].distance > t && Present(xs[|xs| - 1]) then 1 else 0)
  }

  function NumPresent(xs: seq<Xlink>): nat
    decreases |xs|
  {
    if xs == [] then 0 else NumPresent(xs[..|xs| - 1]) + (if Present(xs[|xs| - 1]) then 1 else 0)
  }

  /** The counting loop of `change_num_sat_viol`; the two counts are then shown in the
      dialog. A link with a residue missing from the structure is in neither count. */
  method ChangeNumSatViol(viewer: Viewer) returns (numSat: nat, numViol: nat)
    ensures numSat == NumSat(viewer.obsXlinks, viewer.threshold)
    ensures numViol == NumViol(viewer.obsXlinks, viewer.threshold)
  {
    var xs := viewer.obsXlinks;
    numSat, numViol := 0, 0;
    var i := 0;
    while i < |xs|
      invariant 0 <= i <= |xs|
      invariant numSat == NumSat(xs[..i], viewer.threshold)
      invariant numViol == NumViol(xs[..i], viewer.threshold)
    {
      var xl := xs[i];
      assert xs[..i + 1][..i] == xs[..i];
      if xl.distance <= viewer.threshold && xl.res1InObj && xl.res2InObj {
        numSat := numSat + 1;
      }
      if xl.distance > viewer.threshold && xl.res1InObj && xl.res2InObj {
        numViol := numViol + 1;
      }
      i := i + 1;
    }
    assert xs[..i] == xs;
  }

  /** Every present cross-link is counted exactly once, as satisfied or as violated. */
  lemma {:induction false} CountsPartitionPresent(xs: seq<Xlink>, t: real)
    ensures NumSat(xs, t) + NumViol(xs, t) == NumPresent(xs)
    decreases |xs|
  {
    if xs != [] {
      CountsPartitionPresent(xs[..|xs| - 1], t);
    }
  }

  /** Raising the threshold never decreases the satisfied count and never increases the
      violated count. */
  lemma {:induction false} CountsMonotone(xs: seq<Xlink>, t1: real, t2: real)
    requires t1 <= t2
    ensures NumSat(xs, t1) <= NumSat(xs, t2)
    ensures NumViol(xs, t1) >= NumViol(xs, t2)
    decreases |xs|
  {
    if xs != [] {
      CountsMonotone(xs[..|xs| - 1], t1, t2);
    }
  }

  /** The counts ignore the list order: they add up over a concatenation. */
  lemma {:induction false} CountsAppend(a: seq<Xlink>, b: seq<Xlink>, t: real)
    ensures NumSat(a + b, t) == NumSat(a, t) + NumSat(b, t)
    ensures NumViol(a + b, t) == NumViol(a, t) + NumViol(b, t)
    decreases |b|
  {
    if b == [] {
      assert a + b == a;
    } else {
      assert (a + b)[..|a + b| - 1] == a + b[..|b| - 1];
      assert (a + b)[|a + b| - 1] == b[|b| - 1];
      CountsAppend(a, b[..|b| - 1], t);
    }
  }

  // ---------------------------------------------------------------------------
  // Table rows

  /** One row of the table: five cells of text. */
  type Row = seq<string>

  /** The row of a cross-link; `fmt` stands for the `'{0:3.1f}'` formatting of its
      distance. */
  function XlinkRow(xl: Xlink, fmt: real -> string): Row
  {
    [xl.chain1, xl.resid1, xl.chain2, xl.resid2, fmt(xl.distance)]
  }

  function MonoRow(m: Mono): Row
  {
    [m.chain, m.resid, "-", "-", "-"]
  }

  /** The rows of the cross-links that pass the check boxes, in list order. */
  function XlinkRows(xs: seq<Xlink>, f: Filter, fmt: real -> string): seq<Row>
    decreases |xs|
  {
    if xs == [] then []
    else XlinkRows(xs[..|xs| - 1], f, fmt) + (if Shown(xs[|xs| - 1], f) then [XlinkRow(xs[|xs| - 1], fmt)] else [])
  }

  /** The rows of the mono-links when they are to be shown. */
  function MonoRows(ms: seq<Mono>, showMono: bool): seq<Row>
    decreases |ms|
  {
    if ms == [] then []
    else MonoRows(ms[..|ms| - 1], showMono) + (if showMono then [MonoRow(ms[|ms| - 1])] else [])
  }

  /** The row-building part of `populate_xlink_table`. A row is appended by the satisfied
      or by the violated test and popped again when its orientation is hidden; the
      mono-link rows come last. */
  method PopulateXlinkTable(viewer: Viewer, fmt: real -> string) returns (entries: seq<Row>)
    ensures entries == XlinkRows(viewer.obsXlinks, viewer.CurrentFilter(), fmt)
                       + MonoRows(viewer.obsMonos, viewer.showMono)
  {
    var xs, ms := viewer.obsXlinks, viewer.obsMonos;
    entries := [];
    var i := 0;
    while i < |xs|
      invariant 0 <= i <= |xs|
      invariant entries == XlinkRows(xs[..i], viewer.CurrentFilter(), fmt)
    {
      var xl := xs[i];
      assert xs[..i + 1][..i] == xs[..i];
      var entry := XlinkRow(xl, fmt);
      var added := false;
      if xl.distance <= viewer.threshold && viewer.showSatisfied {
        entries := entries + [entry];
        added := true;
      }
      if xl.distance > viewer.threshold && viewer.showViolated {
        entries := entries + [entry];
        added := true;
      }
      if added && xl.chain1 != xl.chain2 && !viewer.showInter {
        entries := entries[..|entries| - 1];
      }
      if added && xl.chain1 == xl.chain2 && !viewer.showIntra {
        entries := entries[..|entries| - 1];
      }
      i := i + 1;
    }
    assert xs[..i] == xs;
    var j := 0;
    while j < |ms|
      invariant 0 <= j <= |ms|
      invariant entries == XlinkRows(xs, viewer.CurrentFilter(), fmt) + MonoRows(ms[..j], viewer.showMono)
    {
      assert ms[..j + 1][..j] == ms[..j];
      if viewer.showMono {
        entries := entries + [MonoRow(ms[j])];
      }
      j := j + 1;
    }
    assert ms[..j] == ms;
  }

  /** Each cross-link contributes at most one row, and exactly one when it passes the
      check boxes. */
  lemma XlinkRowsOfOne(xl: Xlink, f: Filter, fmt: real -> string)
    ensures XlinkRows([xl], f, fmt) == if Shown(xl, f) then [XlinkRow(xl, fmt)] else []
  {
    assert [xl][..0] == [];
  }

  /** The rows of a concatenation are the rows of the parts, in turn. */
  lemma {:induction false} XlinkRowsAppend(a: seq<Xlink>, b: seq<Xlink>, f: Filter, fmt: real -> string)
    ensures XlinkRows(a + b, f, fmt) == XlinkRows(a, f, fmt) + XlinkRows(b, f, fmt)
    decreases |b|
  {
    if b == [] {
      assert a + b == a;
    } else {
      assert (a + b)[..|a + b| - 1] == a + b[..|b| - 1];
      assert (a + b)[|a + b| - 1] == b[|b| - 1];
      XlinkRowsAppend(a, b[..|b| - 1], f, fmt);
    }
  }

  /** The cross-link rows are exactly the rows of the links that pass the check boxes. */
  lemma {:induction false} XlinkRowsAreShownLinks(xs: seq<Xlink>, f: Filter, fmt: real -> string)
    ensures |XlinkRows(xs, f, fmt)| <= |xs|
    ensures forall r :: r in XlinkRows(xs, f, fmt) <==>
              exists i :: 0 <= i < |xs| && Shown(xs[i], f) && r == XlinkRow(xs[i], fmt)
    decreases |xs|
  {
    if xs != [] {
      var init := xs[..|xs| - 1];
      XlinkRowsAreShownLinks(init, f, fmt);
      assert forall i :: 0 <= i < |init| ==> init[i] == xs[i];
    }
  }

  /** One row per mono-link, in list order, exactly when mono-links are shown. */
  lemma {:induction false} MonoRowsInOrder(ms: seq<Mono>, showMono: bool)
    ensures |MonoRows(ms, showMono)| == if showMono then |ms| else 0
    ensures showMono ==> forall j :: 0 <= j < |ms| ==> MonoRows(ms, showMono)[j] == MonoRow(ms[j])
    decreases |ms|
  {
    if ms != [] {
      MonoRowsInOrder(ms[..|ms| - 1], showMono);
    }
  }

  /** The table does not look at the presence flags: a cross-link with a residue missing
      from the structure (distance 0.0) is listed as satisfied whenever the threshold is
      not negative and satisfied links and its orientation are shown, although `display`
      never draws it. */
  lemma TableListsAbsentLinks(xl: Xlink, f: Filter, fmt: real -> string)
    requires xl.distance == 0.0 && 0.0 <= f.threshold && f.showSatisfied
    requires if xl.chain1 != xl.chain2 then f.showInter else f.showIntra
    ensures XlinkRows([xl], f, fmt) == [XlinkRow(xl, fmt)]
    ensures !Drawn(xl, f)
  {
    XlinkRowsOfOne(xl, f, fmt);
  }
}
