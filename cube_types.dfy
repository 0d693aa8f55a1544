/** The cube description: sticker colours, faces, the six-face state, moves, and the two
    constant states the session starts from or jumps to (src/types/cube.ts). */
module CubeTypes {
  import opened Seqs

  /** The closed set of sticker colours: six real colours and the "unset" marker. */
  datatype Color = White | Yellow | Red | Orange | Green | Blue | Empty

  predicate IsReal(c: Color) {
    c != Empty
  }

  /** The real colours in the order the validator lists them (W, Y, R, O, G, B). */
  const RealColors: seq<Color> := [White, Yellow, Red, Orange, Green, Blue]

  /** Every colour value, the real ones first. */
  const AllColors: seq<Color> := RealColors + [Empty]

  /** The string value of a colour in the source (`'W'`, ..., `'EMPTY'`). */
  function ColorCode(c: Color): (code: string)
    ensures IsReal(c) <==> |code| == 1
  {
    match c
    case White => "W"
    case Yellow => "Y"
    case Red => "R"
    case Orange => "O"
    case Green => "G"
    case Blue => "B"
    case Empty => "EMPTY"
  }

  /** A face: its stickers read row by row; index 4 is the centre of a 3x3 face. The
      source's type is an unbounded array, so no length is imposed here. */
  type Face = seq<Color>

  /** The keys of a cube state. */
  datatype FaceName = Up | Down | Front | Back | Right | Left

  datatype CubeState = CubeState(U: Face, D: Face, F: Face, B: Face, R: Face, L: Face)

  /** The faces in the order `Object.values` visits them (U, D, F, B, R, L). */
  function Faces(s: CubeState): seq<Face> {
    [s.U, s.D, s.F, s.B, s.R, s.L]
  }

  /** Every sticker of the cube, face after face. */
  function Stickers(s: CubeState): seq<Color> {
    Concat(Faces(s))
  }

  /** How many stickers of the whole cube show `c`. */
  function CountColor(s: CubeState, c: Color): nat {
    Occurrences(Stickers(s), c)
  }

  /** A state as the editor builds it: six faces of nine stickers. */
  predicate WellFormed(s: CubeState) {
    forall k :: 0 <= k < 6 ==> |Faces(s)[k]| == 9
  }

  function GetFace(s: CubeState, name: FaceName): Face {
    match name
    case Up => s.U
    case Down => s.D
    case Front => s.F
    case Back => s.B
    case Right => s.R
    case Left => s.L
  }

  /** `{ ...s, [name]: f }`. */
  function WithFace(s: CubeState, name: FaceName, f: Face): (r: CubeState)
    ensures GetFace(r, name) == f
    ensures forall other :: other != name ==> GetFace(r, other) == GetFace(s, other)
  {
    match name
    case Up => s.(U := f)
    case Down => s.(D := f)
    case Front => s.(F := f)
    case Back => s.(B := f)
    case Right => s.(R := f)
    case Left => s.(L := f)
  }

  /** A move of a solution: its notation token and the text shown for it. */
  datatype Move = Move(notation: string, description: string)

  /** `EMPTY_CUBE`: nothing filled in. */
  const EmptyCube: CubeState :=
    CubeState(NineOf(Empty), NineOf(Empty), NineOf(Empty),
              NineOf(Empty), NineOf(Empty), NineOf(Empty))

  /** `SOLVED_CUBE`: U white, D yellow, F red, B orange, R green, L blue. */
  const SolvedCube: CubeState :=
    CubeState(NineOf(White), NineOf(Yellow), NineOf(Red),
              NineOf(Orange), NineOf(Green), NineOf(Blue))

  /** The stickers of the cube are its faces laid end to end. */
  lemma StickersUnfold(s: CubeState)
    ensures Stickers(s) == s.U + s.D + s.F + s.B + s.R + s.L
  {
    var fs := Faces(s);
    assert fs[..1][..0] == [] && fs[..2][..1] == fs[..1] && fs[..3][..2] == fs[..2];
    assert fs[..4][..3] == fs[..3] && fs[..5][..4] == fs[..4] && fs[..5] == fs[..5];
    assert Concat(fs[..1]) == s.U;
    assert Concat(fs[..2]) == s.U + s.D;
    assert Concat(fs[..3]) == s.U + s.D + s.F;
    assert Concat(fs[..4]) == s.U + s.D + s.F + s.B;
    assert Concat(fs[..5]) == s.U + s.D + s.F + s.B + s.R;
  }

  /** The whole-cube tally is the sum of the per-face tallies. */
  lemma CountColorByFace(s: CubeState, c: Color)
    ensures CountColor(s, c) == Occurrences(s.U, c) + Occurrences(s.D, c) + Occurrences(s.F, c)
                              + Occurrences(s.B, c) + Occurrences(s.R, c) + Occurrences(s.L, c)
  {
    StickersUnfold(s);
    OccurrencesAppend(s.U, s.D, c);
    OccurrencesAppend(s.U + s.D, s.F, c);
    OccurrencesAppend(s.U + s.D + s.F, s.B, c);
    OccurrencesAppend(s.U + s.D + s.F + s.B, s.R, c);
    OccurrencesAppend(s.U + s.D + s.F + s.B + s.R, s.L, c);
  }

  /** A sticker is on the cube exactly when it is on one of the faces. */
  lemma StickersMembership(s: CubeState, c: Color)
    ensures c in Stickers(s) <==> exists k :: 0 <= k < 6 && c in Faces(s)[k]
  {
    CountColorByFace(s, c);
    if c in s.U { assert c in Faces(s)[0]; }
    if c in s.D { assert c in Faces(s)[1]; }
    if c in s.F { assert c in Faces(s)[2]; }
    if c in s.B { assert c in Faces(s)[3]; }
    if c in s.R { assert c in Faces(s)[4]; }
    if c in s.L { assert c in Faces(s)[5]; }
  }

  /** `EMPTY_CUBE` has six faces of nine stickers, all unset. */
  lemma EmptyCubeShape()
    ensures WellFormed(EmptyCube)
    ensures forall c :: c in Stickers(EmptyCube) ==> c == Empty
    ensures CountColor(EmptyCube, Empty) == 54
  {
    StickersUnfold(EmptyCube);
    var e := NineOf(Empty);
    forall c ensures CountColor(EmptyCube, c) == if c == Empty then 54 else 0 {
      CountColorByFace(EmptyCube, c);
      OccurrencesUniform(e, Empty, c);
    }
  }

  /** `SOLVED_CUBE` has six faces of nine stickers, each real colour exactly nine times, no unset
      sticker, and the opposite centres U/D, F/B, R/L differ. */
  lemma SolvedCubeShape()
    ensures WellFormed(SolvedCube)
    ensures forall c :: IsReal(c) ==> CountColor(SolvedCube, c) == 9
    ensures CountColor(SolvedCube, Empty) == 0
    ensures SolvedCube.U[4] != SolvedCube.D[4] && SolvedCube.F[4] != SolvedCube.B[4]
    ensures SolvedCube.R[4] != SolvedCube.L[4]
  {
    forall c ensures CountColor(SolvedCube, c) == if IsReal(c) then 9 else 0 {
      CountColorByFace(SolvedCube, c);
      OccurrencesUniform(NineOf(White), White, c);
      OccurrencesUniform(NineOf(Yellow), Yellow, c);
      OccurrencesUniform(NineOf(Red), Red, c);
      OccurrencesUniform(NineOf(Orange), Orange, c);
      OccurrencesUniform(NineOf(Green), Green, c);
      OccurrencesUniform(NineOf(Blue), Blue, c);
    }
  }
}
