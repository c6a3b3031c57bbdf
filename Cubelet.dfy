/**
 * One cubelet of the cube (Model/Cubelet.cs): a mutable record of a
 * position and a face-to-colour dictionary whose entries moves overwrite.
 */
module Cubelets {
  import opened Vocabulary
  import opened Geometry

  /** The dictionary has exactly the six faces as keys. */
  predicate HasAllFaces(colors: map<Face, Color>)
  {
    colors.Keys == AllFaces
  }

  function Indicator(b: bool): nat
  {
    if b then 1 else 0
  }

  /**
   * How many of the six faces show colour c: the multiplicity of c in the
   * multiset of the cubelet's face colours.
   */
  function Tally(colors: map<Face, Color>, c: Color): nat
    requires HasAllFaces(colors)
  {
    Indicator(colors[Up] == c) + Indicator(colors[Front] == c) + Indicator(colors[Right] == c) +
    Indicator(colors[Down] == c) + Indicator(colors[Back] == c) + Indicator(colors[Left] == c)
  }

  /** The colours of a new cubelet: no face painted. */
  const Unpainted: map<Face, Color> :=
    map[Up := Color.None, Front := Color.None, Right := Color.None,
        Down := Color.None, Back := Color.None, Left := Color.None]

  /** A snapshot of a cubelet: where it is and what colour each of its faces shows. */
  datatype CubeletValue = CubeletValue(position: Point, faceColors: map<Face, Color>)

  class Cubelet {
    var Position: Point
    var FaceColors: map<Face, Color>

    /** A new cubelet sits at the origin with all six faces unpainted. */
    constructor()
      ensures Position == Point(0, 0, 0)
      ensures FaceColors == Unpainted
      ensures HasAllFaces(FaceColors)
      ensures forall f :: f in FaceColors && FaceColors[f] == Color.None
    {
      Position := Point(0, 0, 0);
      FaceColors := Unpainted;
      AllFacesComplete();
    }

    function Value(): CubeletValue
      reads this
    {
      CubeletValue(Position, FaceColors)
    }
  }
}
