/** The closed colour and face vocabularies (Model/Colors.cs, Model/Face.cs). */
module Vocabulary {

  /** Facelet colours; None marks a face that was never painted. */
  datatype Color = None | White | Green | Red | Yellow | Blue | Orange

  /** The six faces of the cube, used as dictionary keys and to choose rotation axes. */
  datatype Face = Up | Front | Right | Down | Back | Left

  /** Every face; the keys of each cubelet's FaceColors dictionary. */
  const AllFaces: set<Face> := {Up, Front, Right, Down, Back, Left}

  lemma AllFacesComplete()
    ensures forall f :: f in AllFaces
  {
    forall f
      ensures f in AllFaces
    {
      match f
      case Up =>
      case Front =>
      case Right =>
      case Down =>
      case Back =>
      case Left =>
    }
  }

  /** The face on the other side of the cube. */
  function Opposite(f: Face): (g: Face)
    ensures g != f
  {
    match f
    case Up => Down
    case Down => Up
    case Front => Back
    case Back => Front
    case Right => Left
    case Left => Right
  }

  /** The colour each face is painted with when a cube is built (Model/Cube.cs). */
  function HomeColor(f: Face): (c: Color)
    ensures c != Color.None
  {
    match f
    case Left => Orange
    case Right => Red
    case Back => Blue
    case Front => Green
    case Down => Yellow
    case Up => White
  }

  lemma HomeColorsDistinct(f: Face, g: Face)
    ensures HomeColor(f) == HomeColor(g) <==> f == g
  {
  }
}
