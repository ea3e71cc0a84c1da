/**
 * The part of the molecular viewer's command interface the plugin uses, as an oracle:
 * the number of atoms a selection string matches, the distance the viewer's structure
 * gives for two selections, the camera view, and a log of the objects drawn and deleted.
 */
module Pymol {

  /** An RGB colour, as the three-element lists the plugin passes around. */
  datatype Rgb = Rgb(r: real, g: real, b: real)

  predicate InUnitCube(c: Rgb)
  {
    0.0 <= c.r <= 1.0 && 0.0 <= c.g <= 1.0 && 0.0 <= c.b <= 1.0
  }

  /** An opaque camera snapshot, as `get_view` returns it. */
  datatype View = View(matrix: seq<real>)

  /** What the plugin asks the viewer to do, in order. A cylinder runs between the first
      atoms of its two selections and has one colour at each end; a sphere sits on the
      first atom of its selection. */
  datatype Event =
    | Cylinder(name: string, sele1: string, sele2: string, radius: real, colour1: Rgb, colour2: Rgb)
    | Sphere(name: string, sele: string, colour: Rgb, size: real)
    | Delete(name: string)
    | SetView(view: View)

  /** The selection string for one atom of one residue of one chain of an object. */
  function Selection(obj: string, chain: string, resid: string, atomName: string): string
  {
    "obj " + obj + " and chain " + chain + " and resi " + resid + " and name " + atomName
  }

  class Host {
    /** `count_atoms` on the loaded structure. */
    const countAtoms: string -> nat
    /** The distance between the atoms two selections match. */
    const distance: (string, string) -> real
    var view: View
    var log: seq<Event>

    constructor (countAtoms: string -> nat, distance: (string, string) -> real, view: View)
      ensures this.countAtoms == countAtoms && this.distance == distance
      ensures this.view == view && log == []
    {
      this.countAtoms := countAtoms;
      this.distance := distance;
      this.view := view;
      log := [];
    }

    /** `load_cgo`: draws an object. */
    method LoadCgo(e: Event)
      requires e.Cylinder? || e.Sphere?
      modifies this`log
      ensures log == old(log) + [e]
    {
      log := log + [e];
    }

    /** `delete`: removes the object of that name, if any. */
    method Delete(name: string)
      modifies this`log
      ensures log == old(log) + [Event.Delete(name)]
    {
      log := log + [Event.Delete(name)];
    }

    method GetView() returns (v: View)
      ensures v == view
    {
      v := view;
    }

    method SetView(v: View)
      modifies this
      ensures view == v && log == old(log) + [Event.SetView(v)]
    {
      view := v;
      log := log + [Event.SetView(v)];
    }
  }
}
