/**
 * The viewer state of the plugin (`BXlink_viewer`): the links read from a file, the
 * threshold that classifies a cross-link as satisfied (distance at most the threshold) or
 * violated, the display settings, and the operations that measure the links and draw,
 * delete and redraw them through the host viewer.
 */
module XlinkViewer {

  import opened Wrappers
  import opened Pymol
  import ObsXlink
  import ObsMono
  import JwalkReader

  type Xlink = ObsXlink.Xlink
  type Mono = ObsMono.Mono

  // ---------------------------------------------------------------------------
  // Classification of one cross-link

  /** The threshold and the four check boxes that decide which cross-links are shown. */
  datatype Filter = Filter(threshold: real, showSatisfied: bool, showViolated: bool,
                           showInter: bool, showIntra: bool)

  /** Whether a cross-link passes the check boxes: satisfied and satisfied ones shown, or
      violated and violated ones shown, and its orientation (between two chains or within
      one) shown. */
  predicate Shown(xl: Xlink, f: Filter)
  {
    ((xl.distance <= f.threshold && f.showSatisfied) || (xl.distance > f.threshold && f.showViolated))
    && (if xl.chain1 != xl.chain2 then f.showInter else f.showIntra)
  }

  /** The conditions of the sixteen branches of the cascade in `display`, in source order. */
  predicate Guard(k: nat, xl: Xlink, f: Filter)
  {
    var d, t := xl.distance, f.threshold;
    var differ := xl.chain1 != xl.chain2;
    match k
    case 0 => d <= t && f.showSatisfied && differ && f.showInter
    case 1 => d <= t && f.showSatisfied && differ && !f.showInter
    case 2 => d <= t && !f.showSatisfied && differ && f.showInter
    case 3 => d <= t && !f.showSatisfied && differ && !f.showInter
    case 4 => d <= t && f.showSatisfied && !differ && f.showIntra
    case 5 => d <= t && f.showSatisfied && !differ && !f.showIntra
    case 6 => d <= t && !f.showSatisfied && !differ && f.showIntra
    case 7 => d <= t && !f.showSatisfied && !differ && !f.showIntra
    case 8 => d > t && f.showViolated && differ && f.showInter
    case 9 => d > t && f.showViolated && differ && !f.showInter
    case 10 => d > t && !f.showViolated && differ && f.showInter
    case 11 => d > t && !f.showViolated && differ && !f.showInter
    case 12 => d > t && f.showViolated && !differ && f.showIntra
    case 13 => d > t && f.showViolated && !differ && !f.showIntra
    case 14 => d > t && !f.showViolated && !differ && f.showIntra
    case 15 => d > t && !f.showViolated && !differ && !f.showIntra
    case _ => false
  }

  /** What a branch of the cascade does to the colour variable: sets it to the satisfied or
      the violated colour, clears it, or (no branch firing) leaves it as it was. */
  datatype Outcome = Untouched | Cleared | Coloured(satisfied: bool)

  /** The cascade of `display`. Some branch always fires, and the outcome is the closed
      formula: coloured exactly when the link passes the check boxes, with the satisfied
      colour exactly when its distance is at most the threshold (ties are satisfied). */
  function Cascade(xl: Xlink, f: Filter): (o: Outcome)
    ensures o != Untouched
    ensures o == if Shown(xl, f) then Coloured(xl.distance <= f.threshold) else Cleared
  {
    if Guard(0, xl, f) then Coloured(true)
    else if Guard(1, xl, f) then Cleared
    else if Guard(2, xl, f) then Cleared
    else if Guard(3, xl, f) then Cleared
    else if Guard(4, xl, f) then Coloured(true)
    else if Guard(5, xl, f) then Cleared
    else if Guard(6, xl, f) then Cleared
    else if Guard(7, xl, f) then Cleared
    else if Guard(8, xl, f) then Coloured(false)
    else if Guard(9, xl, f) then Cleared
    else if Guard(10, xl, f) then Cleared
    else if Guard(11, xl, f) then Cleared
    else if Guard(12, xl, f) then Coloured(false)
    else if Guard(13, xl, f) then Cleared
    else if Guard(14, xl, f) then Cleared
    else if Guard(15, xl, f) then Cleared
    else Untouched
  }

  /** Exactly one of the sixteen conditions holds, whatever the link and the check boxes;
      its index is decoded from the four tests the conditions make. */
  lemma ExactlyOneBranch(xl: Xlink, f: Filter)
    ensures exists k :: 0 <= k < 16 && Guard(k, xl, f)
    ensures forall j, k :: 0 <= j < 16 && 0 <= k < 16 && Guard(j, xl, f) && Guard(k, xl, f) ==> j == k
  {
    var inter := xl.chain1 != xl.chain2;
    var outcomeShown := if xl.distance <= f.threshold then f.showSatisfied else f.showViolated;
    var orientationShown := if inter then f.showInter else f.showIntra;
    var k: nat := (if xl.distance <= f.threshold then 0 else 8) + (if outcomeShown then 0 else 2)
                + (if inter then 0 else 4) + (if orientationShown then 0 else 1);
    assert Guard(k, xl, f);
  }

  /** Drawn by `display`: a non-zero distance (zero stands for a residue missing from the
      structure) and passing the check boxes. */
  predicate Drawn(xl: Xlink, f: Filter)
  {
    xl.distance != 0.0 && Shown(xl, f)
  }

  // ---------------------------------------------------------------------------
  // What the viewer asks the host to do

  /** Everything `display` and its drawing helpers read from the viewer. */
  datatype Scene = Scene(obj: string, atomType: string, filter: Filter, radius: real,
                         satisfiedColour: Rgb, violatedColour: Rgb,
                         monoColour: Rgb, monoSize: real, showMono: bool)

  /** The cylinder `draw_xlink` loads: between the chosen atom of each residue, in the
      satisfied or the violated colour at both ends, under the link's object name. */
  function XlinkCylinder(xl: Xlink, sc: Scene, satisfied: bool): Event
  {
    var c := if satisfied then sc.satisfiedColour else sc.violatedColour;
    Cylinder(xl.objName, Selection(sc.obj, xl.chain1, xl.resid1, sc.atomType),
             Selection(sc.obj, xl.chain2, xl.resid2, sc.atomType), sc.radius, c, c)
  }

  /** The sphere `draw_mono` loads. */
  function MonoSphere(m: Mono, sc: Scene): Event
  {
    Sphere(m.objName, Selection(sc.obj, m.chain, m.resid, sc.atomType), sc.monoColour, sc.monoSize)
  }

  /** The cylinders of the cross-links that are drawn, in list order. */
  function XlinkEvents(xs: seq<Xlink>, sc: Scene): seq<Event>
    decreases |xs|
  {
    if xs == [] then []
    else
      var xl := xs[|xs| - 1];
      XlinkEvents(xs[..|xs| - 1], sc)
      + (if Drawn(xl, sc.filter) then [XlinkCylinder(xl, sc, xl.distance <= sc.filter.threshold)] else [])
  }

  /** How many of the cross-links `display` draws. */
  function NumDrawn(xs: seq<Xlink>, f: Filter): nat
    decreases |xs|
  {
    if xs == [] then 0
    else NumDrawn(xs[..|xs| - 1], f) + (if Drawn(xs[|xs| - 1], f) then 1 else 0)
  }

  function Spheres(ms: seq<Mono>, sc: Scene): seq<Event>
    decreases |ms|
  {
    if ms == [] then [] else Spheres(ms[..|ms| - 1], sc) + [MonoSphere(ms[|ms| - 1], sc)]
  }

  /** The spheres of all mono-links when they are to be shown, none otherwise. */
  function MonoEvents(ms: seq<Mono>, sc: Scene): seq<Event>
  {
    if sc.showMono then Spheres(ms, sc) else []
  }

  /** One run of `display`, which restores the view it found on entry. */
  function DisplayEvents(xs: seq<Xlink>, ms: seq<Mono>, sc: Scene, entryView: View): seq<Event>
  {
    XlinkEvents(xs, sc) + MonoEvents(ms, sc) + [SetView(entryView)]
  }

  function XlinkDeletes(xs: seq<Xlink>): seq<Event>
    decreases |xs|
  {
    if xs == [] then [] else XlinkDeletes(xs[..|xs| - 1]) + [Delete(xs[|xs| - 1].objName)]
  }

  function MonoDeletes(ms: seq<Mono>): seq<Event>
    decreases |ms|
  {
    if ms == [] then [] else MonoDeletes(ms[..|ms| - 1]) + [Delete(ms[|ms| - 1].objName)]
  }

  /** One run of `delete_objects`. */
  function DeleteEvents(xs: seq<Xlink>, ms: seq<Mono>): seq<Event>
  {
    XlinkDeletes(xs) + MonoDeletes(ms)
  }

  // ---------------------------------------------------------------------------
  // Measuring the cross-links

  /** What `calculate_distances` makes of one cross-link: a residue whose selection matches
      no atom loses its presence flag, and only when both match is the distance replaced
      by the host's. No flag is ever set back to true and nothing else changes. */
  function Measure(xl: Xlink, countAtoms: string -> nat, distance: (string, string) -> real,
                   obj: string, atomType: string): (r: Xlink)
    ensures r == xl.(distance := r.distance, res1InObj := r.res1InObj, res2InObj := r.res2InObj)
    ensures r.res1InObj == (xl.res1InObj && countAtoms(Selection(obj, xl.chain1, xl.resid1, atomType)) != 0)
    ensures r.res2InObj == (xl.res2InObj && countAtoms(Selection(obj, xl.chain2, xl.resid2, atomType)) != 0)
    ensures r.distance ==
            if countAtoms(Selection(obj, xl.chain1, xl.resid1, atomType)) != 0
               && countAtoms(Selection(obj, xl.chain2, xl.resid2, atomType)) != 0
            then distance(Selection(obj, xl.chain1, xl.resid1, atomType),
                          Selection(obj, xl.chain2, xl.resid2, atomType))
            else xl.distance
  {
    var s1 := Selection(obj, xl.chain1, xl.resid1, atomType);
    var s2 := Selection(obj, xl.chain2, xl.resid2, atomType);
    if countAtoms(s1) == 0 || countAtoms(s2) == 0 then
      if countAtoms(s1) == 0 && countAtoms(s2) != 0 then xl.(res1InObj := false)
      else if countAtoms(s1) != 0 && countAtoms(s2) == 0 then xl.(res2InObj := false)
      else xl.(res1InObj := false, res2InObj := false)
    else xl.(distance := distance(s1, s2))
  }

  function MeasureAll(xs: seq<Xlink>, countAtoms: string -> nat, distance: (string, string) -> real,
                      obj: string, atomType: string): (r: seq<Xlink>)
    ensures |r| == |xs|
    ensures forall i :: 0 <= i < |xs| ==> r[i] == Measure(xs[i], countAtoms, distance, obj, atomType)
    ensures forall i :: 0 <= i < |xs| ==> ObsXlink.Eq(r[i], xs[i]) && r[i].objName == xs[i].objName
    ensures forall i :: 0 <= i < |xs| ==> (r[i].res1InObj ==> xs[i].res1InObj) && (r[i].res2InObj ==> xs[i].res2InObj)
  {
    seq(|xs|, i requires 0 <= i < |xs| => Measure(xs[i], countAtoms, distance, obj, atomType))
  }

  // ---------------------------------------------------------------------------
  // The viewer object

  class Viewer {
    var obsXlinks: seq<Xlink>
    var obsMonos: seq<Mono>
    var threshold: real
    var monoSize: real
    var obj: string
    var xlinkFile: string
    var xlinkFileType: string
    var radius: real
    var atomType: string
    var satisfiedColour: Rgb
    var violatedColour: Rgb
    var monoColour: Rgb
    var showSatisfied: bool
    var showViolated: bool
    var showInter: bool
    var showIntra: bool
    var showMono: bool
    var numSat: int
    /** Spelled `mum_viol` by the viewer. */
    var numViol: int
    /** The instance attribute named `set_num_viol` that the method of that name creates
        when called, hiding the method from then on. */
    var numViolShadow: Option<int>

    function CurrentFilter(): Filter
      reads this
    {
      Filter(threshold, showSatisfied, showViolated, showInter, showIntra)
    }

    function CurrentScene(): Scene
      reads this
    {
      Scene(obj, atomType, CurrentFilter(), radius, satisfiedColour, violatedColour,
            monoColour, monoSize, showMono)
    }

    constructor ()
      ensures obsXlinks == [] && obsMonos == []
      ensures threshold == 0.0 && monoSize == 0.0 && radius == 0.5 && atomType == "ca"
      ensures obj == "" && xlinkFile == "" && xlinkFileType == ""
      ensures satisfiedColour == Rgb(0.0, 0.0, 1.0)
      ensures violatedColour == Rgb(1.0, 0.0, 0.0)
      ensures monoColour == Rgb(1.0, 1.0, 0.0)
      ensures showSatisfied && showViolated && showInter && showIntra && !showMono
      ensures numSat == 0 && numViol == 0 && numViolShadow == None
    {
      obsXlinks, obsMonos := [], [];
      threshold, monoSize := 0.0, 0.0;
      obj, xlinkFile, xlinkFileType := "", "", "";
      radius := 0.5;
      atomType := "ca";
      satisfiedColour := Rgb(0.0, 0.0, 1.0);
      violatedColour := Rgb(1.0, 0.0, 0.0);
      monoColour := Rgb(1.0, 1.0, 0.0);
      showSatisfied, showViolated, showInter, showIntra, showMono := true, true, true, true, false;
      numSat, numViol := 0, 0;
      numViolShadow := None;
    }

    // Setters: each may change its own field only.

    method SetXlinkFile(file: string)
      modifies this`xlinkFile
      ensures xlinkFile == file
    {
      xlinkFile := file;
    }

    method SetXlinkFileType(fileType: string)
      modifies this`xlinkFileType
      ensures xlinkFileType == fileType
    {
      xlinkFileType := fileType;
    }

    method SetObj(obj: string)
      modifies this`obj
      ensures this.obj == obj
    {
      this.obj := obj;
    }

    method SetShowSatisfied(b: bool)
      modifies this`showSatisfied
      ensures showSatisfied == b
    {
      showSatisfied := b;
    }

    method SetShowViolated(b: bool)
      modifies this`showViolated
      ensures showViolated == b
    {
      showViolated := b;
    }

    method SetShowInter(b: bool)
      modifies this`showInter
      ensures showInter == b
    {
      showInter := b;
    }

    method SetShowIntra(b: bool)
      modifies this`showIntra
      ensures showIntra == b
    {
      showIntra := b;
    }

    method SetShowMono(b: bool)
      modifies this`showMono
      ensures showMono == b
    {
      showMono := b;
    }

    method SetSatisfiedColour(c: Rgb)
      modifies this`satisfiedColour
      ensures satisfiedColour == c
    {
      satisfiedColour := c;
    }

    method SetViolatedColour(c: Rgb)
      modifies this`violatedColour
      ensures violatedColour == c
    {
      violatedColour := c;
    }

    method SetMonoColour(c: Rgb)
      modifies this`monoColour
      ensures monoColour == c
    {
      monoColour := c;
    }

    method SetThreshold(dist: real)
      modifies this`threshold
      ensures threshold == dist
    {
      threshold := dist;
    }

    method SetRadius(width: real)
      modifies this`radius
      ensures radius == width
    {
      radius := width;
    }

    method SetMonoSize(size: real)
      modifies this`monoSize
      ensures monoSize == size
    {
      monoSize := size;
    }

    method SetNumSat(num: int)
      modifies this`numSat
      ensures numSat == num
    {
      numSat := num;
    }

    /** `set_num_viol` as written: it stores `num` in a new attribute named after itself,
        leaving the violated count alone; once it has run, the name no longer denotes a
        method, so a second call raises (`raised`) and changes nothing. */
    method SetNumViol(num: int) returns (raised: bool)
      modifies this`numViolShadow
      ensures raised == old(numViolShadow).Some?
      ensures numViolShadow == if raised then old(numViolShadow) else Some(num)
    {
      if numViolShadow.Some? {
        raised := true;
      } else {
        raised := false;
        numViolShadow := Some(num);
      }
    }

    /** The evidently intended `set_num_viol`: it sets the violated count. */
    method SetNumViolIntended(num: int)
      modifies this`numViol
      ensures numViol == num
    {
      numViol := num;
    }

    /** Reads the link file when its type is `jwalk` and replaces both link lists with what
        the reader returns. A malformed file makes the reader return `None`, whose
        unpacking fails (`ok` false) before either list is assigned. Any other file type
        changes nothing. */
    method ParseXlinkFile(lines: seq<string>) returns (ok: bool)
      modifies this`obsXlinks, this`obsMonos
      ensures ok == (xlinkFileType != "jwalk" || JwalkReader.Parse(lines).Some?)
      ensures xlinkFileType == "jwalk" && ok ==>
                obsXlinks == JwalkReader.Parse(lines).value.0 && obsMonos == JwalkReader.Parse(lines).value.1
      ensures !(xlinkFileType == "jwalk" && ok) ==>
                obsXlinks == old(obsXlinks) && obsMonos == old(obsMonos)
    {
      ok := true;
      if xlinkFileType == "jwalk" {
        var reader := new JwalkReader.Reader(xlinkFile);
        var r := reader.Read(lines);
        if r.None? {
          ok := false;
        } else {
          obsXlinks, obsMonos := r.value.0, r.value.1;
        }
      }
    }

    /** Fills in each cross-link's distance and presence flags from the host structure. */
    method CalculateDistances(host: Host)
      modifies this`obsXlinks
      ensures obsXlinks == MeasureAll(old(obsXlinks), host.countAtoms, host.distance, obj, atomType)
    {
      var i := 0;
      while i < |obsXlinks|
        invariant 0 <= i <= |obsXlinks| == |old(obsXlinks)|
        invariant forall k :: 0 <= k < i ==>
                    obsXlinks[k] == Measure(old(obsXlinks)[k], host.countAtoms, host.distance, obj, atomType)
        invariant forall k :: i <= k < |obsXlinks| ==> obsXlinks[k] == old(obsXlinks)[k]
      {
        var xl := obsXlinks[i];
        var s1 := Selection(obj, xl.chain1, xl.resid1, atomType);
        var s2 := Selection(obj, xl.chain2, xl.resid2, atomType);
        if host.countAtoms(s1) == 0 || host.countAtoms(s2) == 0 {
          if host.countAtoms(s1) == 0 && host.countAtoms(s2) != 0 {
            xl := xl.(res1InObj := false);
          } else if host.countAtoms(s1) != 0 && host.countAtoms(s2) == 0 {
            xl := xl.(res2InObj := false);
          } else if host.countAtoms(s1) == 0 && host.countAtoms(s2) == 0 {
            xl := xl.(res1InObj := false, res2InObj := false);
          }
        } else {
          xl := xl.(distance := host.distance(s1, s2));
        }
        obsXlinks := obsXlinks[i := xl];
        i := i + 1;
      }
    }

    method DrawXlink(host: Host, xl: Xlink, satisfied: bool)
      modifies host`log
      ensures host.log == old(host.log) + [XlinkCylinder(xl, CurrentScene(), satisfied)]
    {
      var s1 := Selection(obj, xl.chain1, xl.resid1, atomType);
      var s2 := Selection(obj, xl.chain2, xl.resid2, atomType);
      var c := if satisfied then satisfiedColour else violatedColour;
      host.LoadCgo(Cylinder(xl.objName, s1, s2, radius, c, c));
    }

    method DrawMono(host: Host, mono: Mono)
      modifies host`log
      ensures host.log == old(host.log) + [MonoSphere(mono, CurrentScene())]
    {
      var s1 := Selection(obj, mono.chain, mono.resid, atomType);
      host.LoadCgo(Sphere(mono.objName, s1, monoColour, monoSize));
    }

    /** Draws every cross-link the cascade colours, then every mono-link if they are to be
        shown, and puts back the view found on entry. */
    method Display(host: Host)
      modifies host
      ensures host.view == old(host.view)
      ensures host.log == old(host.log) + DisplayEvents(obsXlinks, obsMonos, CurrentScene(), old(host.view))
    {
      var currentView := host.GetView();
      DrawXlinks(host);
      if showMono {
        DrawMonos(host);
      }
      host.SetView(currentView);
    }

    /** The cross-link loop of `display`. The colour of the cascade is kept from one link
        to the next; that it is never stale follows from some branch always firing. */
    method DrawXlinks(host: Host)
      modifies host`log
      ensures host.log == old(host.log) + XlinkEvents(obsXlinks, CurrentScene())
    {
      // The colour chosen by the cascade; None stands for the empty string.
      var colour: Option<Rgb> := None;
      var satisfied := false;
      var i := 0;
      while i < |obsXlinks|
        invariant 0 <= i <= |obsXlinks|
        invariant host.log == old(host.log) + XlinkEvents(obsXlinks[..i], CurrentScene())
      {
        var xl := obsXlinks[i];
        assert obsXlinks[..i + 1][..i] == obsXlinks[..i];
        if xl.distance != 0.0 {
          match Cascade(xl, CurrentFilter()) {
            case Untouched =>
              // No branch fired: the colour of the previous link is kept.
            case Cleared =>
              colour := None;
            case Coloured(sat) =>
              colour := Some(if sat then satisfiedColour else violatedColour);
              satisfied := sat;
          }
          if colour.Some? {
            DrawXlink(host, xl, satisfied);
          }
        }
        i := i + 1;
      }
      assert obsXlinks[..i] == obsXlinks;
    }

    /** The mono-link loop of `display`. */
    method DrawMonos(host: Host)
      modifies host`log
      ensures host.log == old(host.log) + Spheres(obsMonos, CurrentScene())
    {
      var j := 0;
      while j < |obsMonos|
        invariant 0 <= j <= |obsMonos|
        invariant host.log == old(host.log) + Spheres(obsMonos[..j], CurrentScene())
      {
        assert obsMonos[..j + 1][..j] == obsMonos[..j];
        DrawMono(host, obsMonos[j]);
        j := j + 1;
      }
      assert obsMonos[..j] == obsMonos;
    }

    /** Deletes the object of every cross-link and then of every mono-link; the link lists
        are left as they are. */
    method DeleteObjects(host: Host)
      modifies host`log
      ensures host.log == old(host.log) + DeleteEvents(obsXlinks, obsMonos)
    {
      var xs, ms := obsXlinks, obsMonos;
      var log0 := host.log;
      var i := 0;
      while i < |xs|
        invariant 0 <= i <= |xs|
        invariant host.log == log0 + XlinkDeletes(xs[..i])
      {
        assert xs[..i + 1][..i] == xs[..i];
        host.Delete(xs[i].objName);
        i := i + 1;
      }
      assert xs[..i] == xs;
      var log1 := host.log;
      var j := 0;
      while j < |ms|
        invariant 0 <= j <= |ms|
        invariant host.log == log1 + MonoDeletes(ms[..j])
      {
        assert ms[..j + 1][..j] == ms[..j];
        host.Delete(ms[j].objName);
        j := j + 1;
      }
      assert ms[..j] == ms;
      assert log1 + MonoDeletes(ms) == log0 + DeleteEvents(xs, ms);
    }

    /** Redraws from scratch: deletes everything, then displays. */
    method Update(host: Host)
      modifies host
      ensures host.view == old(host.view)
      ensures host.log == old(host.log) + DeleteEvents(obsXlinks, obsMonos)
                          + DisplayEvents(obsXlinks, obsMonos, CurrentScene(), old(host.view))
    {
      DeleteObjects(host);
      Display(host);
    }
  }

  /** On a fresh viewer, `set_num_viol(5)` leaves the violated count at 0. */
  method NumViolSetterLosesCount() returns (before: int, after: int)
    ensures before == 0 && after == 0
  {
    var v := new Viewer();
    before := v.numViol;
    var raised := v.SetNumViol(5);
    after := v.numViol;
  }

  /** With the intended setter the count is the one given. */
  method NumViolSetterIntendedKeepsCount() returns (after: int)
    ensures after == 5
  {
    var v := new Viewer();
    v.SetNumViolIntended(5);
    after := v.numViol;
  }

  // ---------------------------------------------------------------------------
  // Properties of display, delete and update

  /** Drawing a concatenation is drawing the parts in turn. */
  lemma {:induction false} XlinkEventsAppend(a: seq<Xlink>, b: seq<Xlink>, sc: Scene)
    ensures XlinkEvents(a + b, sc) == XlinkEvents(a, sc) + XlinkEvents(b, sc)
    decreases |b|
  {
    if b == [] {
      assert a + b == a;
    } else {
      assert (a + b)[..|a + b| - 1] == a + b[..|b| - 1];
      assert (a + b)[|a + b| - 1] == b[|b| - 1];
      XlinkEventsAppend(a, b[..|b| - 1], sc);
    }
  }

  /** Each cross-link gives at most one cylinder: exactly one when it is drawn, coloured as
      satisfied exactly when its distance is at most the threshold. */
  lemma XlinkEventsOfOne(xl: Xlink, sc: Scene)
    ensures XlinkEvents([xl], sc) ==
            if xl.distance != 0.0 && Shown(xl, sc.filter)
            then [XlinkCylinder(xl, sc, xl.distance <= sc.filter.threshold)] else []
  {
    assert [xl][..0] == [];
  }

  /** The cylinders are exactly those of the drawn links: none for a link whose distance is
      zero, whatever the check boxes. */
  lemma {:induction false} XlinkEventsAreDrawnLinks(xs: seq<Xlink>, sc: Scene)
    ensures |XlinkEvents(xs, sc)| == NumDrawn(xs, sc.filter) <= |xs|
    ensures forall e :: e in XlinkEvents(xs, sc) <==>
              exists i :: 0 <= i < |xs| && Drawn(xs[i], sc.filter) &&
                          e == XlinkCylinder(xs[i], sc, xs[i].distance <= sc.filter.threshold)
    decreases |xs|
  {
    if xs != [] {
      var init := xs[..|xs| - 1];
      XlinkEventsAreDrawnLinks(init, sc);
      assert forall i :: 0 <= i < |init| ==> init[i] == xs[i];
    }
  }

  /** The mono-links are drawn one sphere each, in list order. */
  lemma {:induction false} SpheresInOrder(ms: seq<Mono>, sc: Scene)
    ensures |Spheres(ms, sc)| == |ms|
    ensures forall j :: 0 <= j < |ms| ==> Spheres(ms, sc)[j] == MonoSphere(ms[j], sc)
    decreases |ms|
  {
    if ms != [] {
      SpheresInOrder(ms[..|ms| - 1], sc);
    }
  }

  /** `display`: the cross-links' cylinders, then one sphere per mono-link exactly when
      mono-links are shown (whatever the other check boxes), then the restored view. */
  lemma DisplayLayout(xs: seq<Xlink>, ms: seq<Mono>, sc: Scene, v: View)
    ensures var d := DisplayEvents(xs, ms, sc, v);
            var n := |XlinkEvents(xs, sc)|;
            && |d| == n + (if sc.showMono then |ms| else 0) + 1
            && d[..n] == XlinkEvents(xs, sc)
            && (forall j :: 0 <= j < |ms| && sc.showMono ==> d[n + j] == MonoSphere(ms[j], sc))
            && d[|d| - 1] == SetView(v)
  {
    SpheresInOrder(ms, sc);
    var x, m := XlinkEvents(xs, sc), MonoEvents(ms, sc);
    var d := DisplayEvents(xs, ms, sc, v);
    assert d == x + m + [SetView(v)];
    assert d[..|x|] == x;
    forall j | 0 <= j < |ms| && sc.showMono
      ensures d[|x| + j] == MonoSphere(ms[j], sc)
    {
      assert d[|x| + j] == m[j];
    }
  }

  /** `delete_objects` deletes every cross-link's object and then every mono-link's, in
      list order. */
  lemma {:induction false} DeletesInOrder(xs: seq<Xlink>, ms: seq<Mono>)
    ensures |DeleteEvents(xs, ms)| == |xs| + |ms|
    ensures forall i :: 0 <= i < |xs| ==> DeleteEvents(xs, ms)[i] == Delete(xs[i].objName)
    ensures forall j :: 0 <= j < |ms| ==> DeleteEvents(xs, ms)[|xs| + j] == Delete(ms[j].objName)
  {
    var dx, dm := XlinkDeletes(xs), MonoDeletes(ms);
    XlinkDeletesInOrder(xs);
    MonoDeletesInOrder(ms);
    assert DeleteEvents(xs, ms) == dx + dm;
    forall i | 0 <= i < |xs|
      ensures (dx + dm)[i] == Delete(xs[i].objName)
    {
      assert (dx + dm)[i] == dx[i];
    }
    forall j | 0 <= j < |ms|
      ensures (dx + dm)[|xs| + j] == Delete(ms[j].objName)
    {
      assert (dx + dm)[|xs| + j] == dm[j];
    }
  }

  lemma {:induction false} XlinkDeletesInOrder(xs: seq<Xlink>)
    ensures |XlinkDeletes(xs)| == |xs|
    ensures forall i :: 0 <= i < |xs| ==> XlinkDeletes(xs)[i] == Delete(xs[i].objName)
    decreases |xs|
  {
    if xs != [] {
      XlinkDeletesInOrder(xs[..|xs| - 1]);
    }
  }

  lemma {:induction false} MonoDeletesInOrder(ms: seq<Mono>)
    ensures |MonoDeletes(ms)| == |ms|
    ensures forall j :: 0 <= j < |ms| ==> MonoDeletes(ms)[j] == Delete(ms[j].objName)
    decreases |ms|
  {
    if ms != [] {
      MonoDeletesInOrder(ms[..|ms| - 1]);
    }
  }

  /** In `update`, every object the redraw loads was deleted earlier in the same update. */
  lemma UpdateDeletesWhatItRedraws(xs: seq<Xlink>, ms: seq<Mono>, sc: Scene, v: View)
    ensures forall e :: e in DisplayEvents(xs, ms, sc, v) && (e.Cylinder? || e.Sphere?) ==>
              Delete(e.name) in DeleteEvents(xs, ms)
  {
    XlinkEventsAreDrawnLinks(xs, sc);
    SpheresInOrder(ms, sc);
    DeletesInOrder(xs, ms);
    forall e | e in DisplayEvents(xs, ms, sc, v) && (e.Cylinder? || e.Sphere?)
      ensures Delete(e.name) in DeleteEvents(xs, ms)
    {
      if e in XlinkEvents(xs, sc) {
        var i :| 0 <= i < |xs| && Drawn(xs[i], sc.filter) &&
                 e == XlinkCylinder(xs[i], sc, xs[i].distance <= sc.filter.threshold);
        assert DeleteEvents(xs, ms)[i] == Delete(e.name);
      } else {
        assert e in Spheres(ms, sc);
        var j :| 0 <= j < |ms| && Spheres(ms, sc)[j] == e;
        assert DeleteEvents(xs, ms)[|xs| + j] == Delete(e.name);
      }
    }
  }

  /** After the file is read and the distances measured, a cross-link with a residue
      missing from the structure still has distance 0.0, so `display` never draws it. */
  lemma AbsentLinksNeverDrawn(lines: seq<string>, countAtoms: string -> nat,
                              distance: (string, string) -> real, obj: string, atomType: string,
                              f: Filter)
    requires JwalkReader.Parse(lines).Some?
    ensures var measured := MeasureAll(JwalkReader.Parse(lines).value.0, countAtoms, distance, obj, atomType);
            forall i :: 0 <= i < |measured| && !(measured[i].res1InObj && measured[i].res2InObj) ==>
              measured[i].distance == 0.0 && !Drawn(measured[i], f)
  {
    JwalkReader.ParsedRecordsAreFresh(lines);
  }

  /** For a freshly read cross-link, a presence flag is false exactly when its selection
      matches no atom, and the distance is the host's exactly when both match. */
  lemma MeasureFresh(xl: Xlink, countAtoms: string -> nat, distance: (string, string) -> real,
                     obj: string, atomType: string)
    requires JwalkReader.IsParsedXlink(xl)
    ensures var r := Measure(xl, countAtoms, distance, obj, atomType);
            var n1 := countAtoms(Selection(obj, xl.chain1, xl.resid1, atomType));
            var n2 := countAtoms(Selection(obj, xl.chain2, xl.resid2, atomType));
            && (!r.res1InObj <==> n1 == 0) && (!r.res2InObj <==> n2 == 0)
            && r.distance == (if n1 != 0 && n2 != 0 then
                                distance(Selection(obj, xl.chain1, xl.resid1, atomType),
                                         Selection(obj, xl.chain2, xl.resid2, atomType))
                              else 0.0)
  {
  }

  /** Measuring never changes what `delete_objects` deletes: the object names survive
      `calculate_distances`. */
  lemma MeasureKeepsDeletes(xs: seq<Xlink>, countAtoms: string -> nat, distance: (string, string) -> real,
                            obj: string, atomType: string)
    ensures XlinkDeletes(MeasureAll(xs, countAtoms, distance, obj, atomType)) == XlinkDeletes(xs)
  {
    var ms := MeasureAll(xs, countAtoms, distance, obj, atomType);
    XlinkDeletesInOrder(ms);
    XlinkDeletesInOrder(xs);
    assert forall i :: 0 <= i < |xs| ==> XlinkDeletes(ms)[i] == XlinkDeletes(xs)[i];
  }
}
