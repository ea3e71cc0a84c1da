/**
 * The stand-alone `draw_xlink` command: one cylinder between the CA atoms of two residues,
 * in a colour given either by name or as an RGB literal such as `[0.0,0.0,1.0]`. Only
 * the choice of colour, the selections and the object name are modelled.
 */
module CustomXlink {

  import opened Wrappers
  import opened Text
  import opened Pymol

  const White: Rgb := Rgb(1.0, 1.0, 1.0)
  const Blue: Rgb := Rgb(0.0, 0.0, 1.0)

  /** The named colours the command knows. */
  const ColoursDict: map<string, Rgb> := map[
    "red" := Rgb(1.0, 0.0, 0.0),
    "green" := Rgb(0.0, 1.0, 0.0),
    "blue" := Rgb(0.0, 0.0, 1.0),
    "yellow" := Rgb(1.0, 1.0, 0.0),
    "cyan" := Rgb(0.0, 1.0, 1.0),
    "magenta" := Rgb(1.0, 0.0, 1.0),
    "white" := Rgb(1.0, 1.0, 1.0),
    "black" := Rgb(0.0, 0.0, 0.0),
    "gray" := Rgb(0.5, 0.5, 0.5),
    "orange" := Rgb(1.0, 0.5, 0.0),
    "brown" := Rgb(0.6, 0.3, 0.0),
    "purple" := Rgb(0.5, 0.0, 0.5),
    "lime" := Rgb(0.5, 1.0, 0.5),
    "pink" := Rgb(1.0, 0.5, 0.5),
    "salmon" := Rgb(0.9, 0.5, 0.3),
    "olive" := Rgb(0.5, 0.5, 0.0)
  ]

  /** No colour name starts with `[`, so an RGB literal is never taken for a name. */
  lemma ColourNamesAreWords()
    ensures forall k :: k in ColoursDict ==> |k| > 0 && k[0] != '['
  {
  }

  /** Every named colour lies in the unit cube. */
  lemma NamedColoursInUnitCube()
    ensures forall k :: k in ColoursDict ==> InUnitCube(ColoursDict[k])
  {
  }

  /** The string without its first and last characters, as the slice `[1:-1]` gives it:
      empty when the string has fewer than two characters. */
  function Inner(s: string): (r: string)
    ensures |s| >= 2 ==> |r| == |s| - 2 && forall i :: 0 <= i < |r| ==> r[i] == s[i + 1]
    ensures |s| < 2 ==> r == ""
  {
    if |s| >= 2 then s[1..|s| - 1] else ""
  }

  /** The slice `[1:-1]` of a bracketed literal is what stands between the brackets. */
  lemma InnerOfBracketed(b: string)
    ensures Inner("[" + b + "]") == b
  {
    var lit := "[" + b + "]";
    assert forall i :: 0 <= i < |b| ==> lit[i + 1] == b[i];
  }

  /** Parses every piece with `parseFloat`, which stands for Python's `float` and yields
      `None` where `float` raises; the whole parse fails when any piece fails. */
  function ParseAll(pieces: seq<string>, parseFloat: string -> Option<real>): (r: Option<seq<real>>)
    ensures r.Some? <==> forall i :: 0 <= i < |pieces| ==> parseFloat(pieces[i]).Some?
    ensures r.Some? ==> |r.value| == |pieces| &&
                        forall i :: 0 <= i < |pieces| ==> parseFloat(pieces[i]) == Some(r.value[i])
    decreases |pieces|
  {
    if pieces == [] then Some([])
    else
      match parseFloat(pieces[0])
      case None => None
      case Some(x) =>
        match ParseAll(pieces[1..], parseFloat)
        case None => None
        case Some(xs) => Some([x] + xs)
  }

  /** Three values, each between 0 and 1. */
  predicate ValidTriple(vs: seq<real>)
  {
    |vs| == 3 && forall i :: 0 <= i < 3 ==> 0.0 <= vs[i] <= 1.0
  }

  /** The colour of both ends of the cylinder: the named colour when the name is known;
      otherwise the three values of an RGB literal when they are valid, white when they
      parse but are not a valid triple, and blue when one does not parse. Whatever the
      input, the colour lies in the unit cube. */
  function CustomColour(colour: string, parseFloat: string -> Option<real>): (c: Rgb)
    ensures InUnitCube(c)
    ensures colour in ColoursDict ==> c == ColoursDict[colour]
    ensures colour !in ColoursDict ==>
              match ParseAll(Split(Inner(colour), ','), parseFloat)
              case None => c == Blue
              case Some(vs) => c == if ValidTriple(vs) then Rgb(vs[0], vs[1], vs[2]) else White
  {
    NamedColoursInUnitCube();
    if colour in ColoursDict then ColoursDict[colour]
    else
      match ParseAll(Split(Inner(colour), ','), parseFloat)
      case None => Blue
      case Some(vs) => if ValidTriple(vs) then Rgb(vs[0], vs[1], vs[2]) else White
  }

  /** A known name gives its colour whatever `float` does. */
  lemma NamedColourIgnoresParser(name: string, p1: string -> Option<real>, p2: string -> Option<real>)
    requires name in ColoursDict
    ensures CustomColour(name, p1) == CustomColour(name, p2) == ColoursDict[name]
  {
  }

  /** The RGB literal of a colour, each component written by `fmt`. */
  function RgbLiteral(c: Rgb, fmt: real -> string): string
  {
    "[" + fmt(c.r) + "," + fmt(c.g) + "," + fmt(c.b) + "]"
  }

  /** Writing a colour of the unit cube as a literal and reading it back gives the colour,
      provided the written components contain no comma and `float` reads each back. */
  lemma RgbLiteralRoundTrip(c: Rgb, fmt: real -> string, parseFloat: string -> Option<real>)
    requires InUnitCube(c)
    requires ',' !in fmt(c.r) && ',' !in fmt(c.g) && ',' !in fmt(c.b)
    requires parseFloat(fmt(c.r)) == Some(c.r)
    requires parseFloat(fmt(c.g)) == Some(c.g)
    requires parseFloat(fmt(c.b)) == Some(c.b)
    ensures CustomColour(RgbLiteral(c, fmt), parseFloat) == c
  {
    var lit := RgbLiteral(c, fmt);
    LiteralPieces(fmt(c.r), fmt(c.g), fmt(c.b));
    assert lit !in ColoursDict by {
      ColourNamesAreWords();
      assert lit[0] == '[';
    }
    var ps := [fmt(c.r), fmt(c.g), fmt(c.b)];
    var vs := ParseAll(ps, parseFloat).value;
    assert vs == [c.r, c.g, c.b];
  }

  /** The pieces between the brackets of `[x,y,z]` are `x`, `y` and `z`. */
  lemma LiteralPieces(x: string, y: string, z: string)
    requires ',' !in x && ',' !in y && ',' !in z
    ensures Split(Inner("[" + x + "," + y + "," + z + "]"), ',') == [x, y, z]
  {
    var body := x + "," + y + "," + z;
    assert "[" + x + "," + y + "," + z + "]" == "[" + body + "]";
    InnerOfBracketed(body);
    var ps := [x, y, z];
    assert Join(ps, ',') == body by {
      assert Join(ps[2..], ',') == z;
      assert Join(ps[1..], ',') == y + [','] + z;
    }
    SplitOfJoin(ps, ',');
  }

  /** A literal whose components all parse but are not a valid triple falls back to white,
      although the accompanying comment speaks of blue. */
  lemma InvalidTripleIsWhite(colour: string, parseFloat: string -> Option<real>)
    requires colour !in ColoursDict
    requires ParseAll(Split(Inner(colour), ','), parseFloat).Some?
    requires !ValidTriple(ParseAll(Split(Inner(colour), ','), parseFloat).value)
    ensures CustomColour(colour, parseFloat) == White
  {
  }

  /** A literal with a component `float` cannot read falls back to blue. */
  lemma UnparsableIsBlue(colour: string, parseFloat: string -> Option<real>, k: nat)
    requires colour !in ColoursDict
    requires k < |Split(Inner(colour), ',')| && parseFloat(Split(Inner(colour), ',')[k]).None?
    ensures CustomColour(colour, parseFloat) == Blue
  {
  }

  /** The name of the drawn object: the first residue's chain and id, `_`, the second's,
      then `_custom`. */
  function CustomObjName(chain1: string, resid1: string, chain2: string, resid2: string): (r: string)
    ensures |r| == |chain1| + |resid1| + |chain2| + |resid2| + 8
    ensures r[..|chain1| + |resid1|] == chain1 + resid1
    ensures r[|chain1| + |resid1|] == '_'
    ensures r[|chain1| + |resid1| + 1..|r| - 7] == chain2 + resid2
    ensures r[|r| - 7..] == "_custom"
  {
    chain1 + resid1 + "_" + chain2 + resid2 + "_custom"
  }

  /** What the command loads: a cylinder between the CA atoms of the two residues, in the
      same colour at both ends, with the given radius. */
  function CustomCylinder(obj: string, chain1: string, resid1: string, chain2: string, resid2: string,
                          colour: string, radius: real, parseFloat: string -> Option<real>): (e: Event)
    ensures e.Cylinder? && e.colour1 == e.colour2 && InUnitCube(e.colour1)
    ensures e.colour1 == CustomColour(colour, parseFloat)
    ensures e.name == CustomObjName(chain1, resid1, chain2, resid2)
    ensures e.sele1 == Selection(obj, chain1, resid1, "CA") && e.sele2 == Selection(obj, chain2, resid2, "CA")
    ensures e.radius == radius
  {
    var c := CustomColour(colour, parseFloat);
    Cylinder(CustomObjName(chain1, resid1, chain2, resid2),
             Selection(obj, chain1, resid1, "CA"), Selection(obj, chain2, resid2, "CA"), radius, c, c)
  }
}
