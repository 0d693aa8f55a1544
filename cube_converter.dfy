/** The cube validator and the facelet encoder (src/utils/cubeConverter.ts): the emptiness and
    solved checks, the structural validator, the verdict shown to the user, and the 54-letter
    U,R,F,D,L,B string handed to a two-phase solver. */
module CubeConverter {
  import opened Wrappers
  import opened Seqs
  import opened JsStrings
  import opened CubeTypes

  // ---------------------------------------------------------------------------------------
  // Encoder

  /** The fixed colour-to-face-letter table; an unset sticker falls back to the Up letter. */
  function ColorLetter(c: Color): char {
    match c
    case White => 'U'
    case Green => 'R'
    case Red => 'F'
    case Yellow => 'D'
    case Blue => 'L'
    case Orange => 'B'
    case Empty => 'U'
  }

  /** The six face letters in solver order. */
  const FaceLetters: string := "URFDLB"

  /** The table sends each real colour to its own face letter and no two real colours to the
      same one; only the unset marker shares a letter (with white). */
  lemma ColorLetterInjective()
    ensures forall a, b :: IsReal(a) && IsReal(b) && ColorLetter(a) == ColorLetter(b) ==> a == b
    ensures forall c :: ColorLetter(c) in FaceLetters
    ensures ColorLetter(Empty) == ColorLetter(White)
  {
  }

  /** `face.map(color => colorMap[color]).join('')`: one letter per sticker, in order. */
  function EncodeFace(f: Face): (r: string)
    ensures |r| == |f|
    ensures forall i :: 0 <= i < |f| ==> r[i] == ColorLetter(f[i])
  {
    if |f| == 0 then "" else EncodeFace(f[..|f| - 1]) + [ColorLetter(f[|f| - 1])]
  }

  /** `convertToKociembaFormat`: the faces encoded in U, R, F, D, L, B order. */
  function ConvertToKociembaFormat(s: CubeState): string {
    EncodeFace(s.U) + EncodeFace(s.R) + EncodeFace(s.F) + EncodeFace(s.D) + EncodeFace(s.L) + EncodeFace(s.B)
  }

  /** The faces in the order the encoder writes them. */
  function SolverOrder(s: CubeState): seq<Face> {
    [s.U, s.R, s.F, s.D, s.L, s.B]
  }

  /** For a cube of six nine-sticker faces the encoding has 54 letters, and letter 9k+i is the
      letter of sticker i of the k-th face in U, R, F, D, L, B order. */
  lemma KociembaLayout(s: CubeState)
    requires WellFormed(s)
    ensures |ConvertToKociembaFormat(s)| == 54
    ensures forall k :: 0 <= k < 6 ==> |SolverOrder(s)[k]| == 9
    ensures forall k, i :: 0 <= k < 6 && 0 <= i < 9 ==>
      ConvertToKociembaFormat(s)[9 * k + i] == ColorLetter(SolverOrder(s)[k][i])
  {
    var r := ConvertToKociembaFormat(s);
    assert |s.U| == 9 && |s.D| == 9 && |s.F| == 9 && |s.B| == 9 && |s.R| == 9 && |s.L| == 9 by {
      assert Faces(s)[0] == s.U && Faces(s)[1] == s.D && Faces(s)[2] == s.F;
      assert Faces(s)[3] == s.B && Faces(s)[4] == s.R && Faces(s)[5] == s.L;
    }
    forall k, i | 0 <= k < 6 && 0 <= i < 9
      ensures r[9 * k + i] == ColorLetter(SolverOrder(s)[k][i])
    {
      if k == 0 { assert r[i] == EncodeFace(s.U)[i]; }
      else if k == 1 { assert r[9 + i] == EncodeFace(s.R)[i]; }
      else if k == 2 { assert r[18 + i] == EncodeFace(s.F)[i]; }
      else if k == 3 { assert r[27 + i] == EncodeFace(s.D)[i]; }
      else if k == 4 { assert r[36 + i] == EncodeFace(s.L)[i]; }
      else { assert r[45 + i] == EncodeFace(s.B)[i]; }
    }
  }

  /** How often a real colour's letter occurs in an encoded face: once per sticker of that colour,
      plus, for the Up letter, once per unset sticker. */
  lemma {:induction false} EncodeFaceLetterCount(f: Face, c: Color)
    requires IsReal(c)
    ensures Occurrences(EncodeFace(f), ColorLetter(c))
         == Occurrences(f, c) + (if c == White then Occurrences(f, Empty) else 0)
  {
    if |f| > 0 {
      var f', y := f[..|f| - 1], f[|f| - 1];
      assert f == f' + [y];
      assert EncodeFace(f) == EncodeFace(f') + [ColorLetter(y)];
      EncodeFaceLetterCount(f', c);
      OccurrencesSnoc(EncodeFace(f'), ColorLetter(y), ColorLetter(c));
      OccurrencesSnoc(f', y, c);
      OccurrencesSnoc(f', y, Empty);
      LetterMatches(y, c);
    }
  }

  /** Which stickers the letter of a real colour stands for. */
  lemma LetterMatches(y: Color, c: Color)
    requires IsReal(c)
    ensures ColorLetter(y) == ColorLetter(c) <==> y == c || (c == White && y == Empty)
  {
  }

  /** Letter counts of the whole encoding: for a cube without unset stickers, each face letter
      occurs exactly as often as its colour. */
  lemma KociembaLetterCount(s: CubeState, c: Color)
    requires IsReal(c)
    ensures Occurrences(ConvertToKociembaFormat(s), ColorLetter(c))
         == CountColor(s, c) + (if c == White then CountColor(s, Empty) else 0)
  {
    var l := ColorLetter(c);
    var u, r, f, d, lf, b := EncodeFace(s.U), EncodeFace(s.R), EncodeFace(s.F),
                             EncodeFace(s.D), EncodeFace(s.L), EncodeFace(s.B);
    OccurrencesAppend(u, r, l);
    OccurrencesAppend(u + r, f, l);
    OccurrencesAppend(u + r + f, d, l);
    OccurrencesAppend(u + r + f + d, lf, l);
    OccurrencesAppend(u + r + f + d + lf, b, l);
    EncodeFaceLetterCount(s.U, c);
    EncodeFaceLetterCount(s.R, c);
    EncodeFaceLetterCount(s.F, c);
    EncodeFaceLetterCount(s.D, c);
    EncodeFaceLetterCount(s.L, c);
    EncodeFaceLetterCount(s.B, c);
    CountColorByFace(s, c);
    CountColorByFace(s, Empty);
  }

  /** The encoding has one letter per sticker. */
  lemma KociembaLength(s: CubeState)
    ensures |ConvertToKociembaFormat(s)| == |Stickers(s)|
  {
    StickersUnfold(s);
  }

  // ---------------------------------------------------------------------------------------
  // Predicates the validator decides

  /** `isCubeEmpty`: every sticker of every face is unset. */
  predicate IsCubeEmpty(s: CubeState) {
    forall c :: c in Stickers(s) ==> c == Empty
  }

  /** `hasCubeStarted`: some sticker is set. */
  predicate HasCubeStarted(s: CubeState) {
    exists c :: c in Stickers(s) && c != Empty
  }

  /** The two checks are complements, so the verdict's "not started" branch after the
      "empty" branch can never be taken. */
  lemma EmptyIffNotStarted(s: CubeState)
    ensures IsCubeEmpty(s) <==> !HasCubeStarted(s)
  {
  }

  /** Some sticker is still unset. */
  predicate HasEmptySquare(s: CubeState) {
    Empty in Stickers(s)
  }

  /** Every sticker of the face has the colour of its first one. */
  predicate Monochrome(f: Face) {
    forall i :: 0 <= i < |f| ==> f[i] == f[0]
  }

  /** Each real colour occurs exactly nine times. */
  predicate ColorCountsCorrect(s: CubeState) {
    forall c :: IsReal(c) ==> CountColor(s, c) == 9
  }

  /** What `isCubeSolved` decides: no face has an unset sticker, every face is one colour, and
      each real colour occurs nine times. Which colour sits on which face does not matter. */
  predicate Solved(s: CubeState) {
    && (forall k :: 0 <= k < 6 ==> Empty !in Faces(s)[k] && Monochrome(Faces(s)[k]))
    && ColorCountsCorrect(s)
  }

  /** `face[4]`: the centre sticker, or `undefined` (None) on a face too short to have one. */
  function Center(f: Face): Option<Color> {
    if |f| > 4 then Some(f[4]) else None
  }

  /** The centres of U/D, F/B and R/L differ (`undefined === undefined` counts as equal). */
  predicate CentersOpposed(s: CubeState) {
    Center(s.U) != Center(s.D) && Center(s.F) != Center(s.B) && Center(s.R) != Center(s.L)
  }

  /** What `validateCubeState` decides. */
  predicate Valid(s: CubeState) {
    !IsCubeEmpty(s) && !HasEmptySquare(s) && ColorCountsCorrect(s) && CentersOpposed(s)
  }

  // ---------------------------------------------------------------------------------------
  // The colour tally

  const ColorSet: set<Color> := {White, Yellow, Red, Orange, Green, Blue, Empty}

  /** What the tally records for `c` over the stickers `st`: unset stickers are skipped, so the
      `EMPTY` entry stays 0. */
  function TallyOf(st: seq<Color>, c: Color): nat {
    if IsReal(c) then Occurrences(st, c) else 0
  }

  /** The finished `colorCounts` record of a cube. */
  function CountsOf(s: CubeState): map<Color, nat> {
    map c | c in ColorSet :: TallyOf(Stickers(s), c)
  }

  lemma RealColorsComplete()
    ensures forall c :: IsReal(c) <==> c in RealColors
    ensures forall c :: c in ColorSet
  {
    forall c: Color ensures (IsReal(c) <==> c in RealColors) && c in ColorSet {
      match c
      case White => assert RealColors[0] == c;
      case Yellow => assert RealColors[1] == c;
      case Red => assert RealColors[2] == c;
      case Orange => assert RealColors[3] == c;
      case Green => assert RealColors[4] == c;
      case Blue => assert RealColors[5] == c;
      case Empty =>
    }
  }

  /** One sticker added to the tally: the count of its colour goes up by one unless it is unset. */
  lemma TallyStep(counts: map<Color, nat>, st: seq<Color>, color: Color)
    requires counts.Keys == ColorSet
    requires forall c :: c in counts ==> counts[c] == TallyOf(st, c)
    ensures var next := if color != Empty then counts[color := counts[color] + 1] else counts;
      next.Keys == ColorSet && forall c :: c in next ==> next[c] == TallyOf(st + [color], c)
  {
    forall c {
      OccurrencesSnoc(st, color, c);
    }
  }

  /** The inner `forEach` over one face: the tally of the stickers seen so far is extended by
      the face's stickers. */
  method TallyFace(counts0: map<Color, nat>, done: seq<Color>, face: Face) returns (counts: map<Color, nat>)
    requires counts0.Keys == ColorSet
    requires forall c :: c in counts0 ==> counts0[c] == TallyOf(done, c)
    ensures counts.Keys == ColorSet
    ensures forall c :: c in counts ==> counts[c] == TallyOf(done + face, c)
  {
    counts := counts0;
    assert done + face[..0] == done;
    for i := 0 to |face|
      invariant counts.Keys == ColorSet
      invariant forall c :: c in counts ==> counts[c] == TallyOf(done + face[..i], c)
    {
      var color := face[i];
      TallyStep(counts, done + face[..i], color);
      assert done + face[..i + 1] == (done + face[..i]) + [color];
      if color != Empty {
        counts := counts[color := counts[color] + 1];
      }
    }
    assert face[..|face|] == face;
  }

  /** The nested `forEach` that fills `colorCounts`, face by face and sticker by sticker. */
  method TallyColors(s: CubeState) returns (counts: map<Color, nat>)
    ensures counts == CountsOf(s)
  {
    counts := map[White := 0, Yellow := 0, Red := 0, Orange := 0, Green := 0, Blue := 0, Empty := 0];
    var faces := Faces(s);
    for k := 0 to |faces|
      invariant counts.Keys == ColorSet
      invariant forall c :: c in counts ==> counts[c] == TallyOf(Concat(faces[..k]), c)
    {
      counts := TallyFace(counts, Concat(faces[..k]), faces[k]);
      assert faces[..k + 1][..k] == faces[..k];
    }
    assert faces[..|faces|] == faces;
    TallyIsCounts(s, counts);
  }

  lemma TallyIsCounts(s: CubeState, counts: map<Color, nat>)
    requires counts.Keys == ColorSet
    requires forall c :: c in counts ==> counts[c] == TallyOf(Stickers(s), c)
    ensures counts == CountsOf(s)
  {
  }

  /** An empty cube has no colour nine times, so it is neither solved nor valid. */
  lemma EmptyCubeNotValid(s: CubeState)
    requires IsCubeEmpty(s)
    ensures !ColorCountsCorrect(s) && !Solved(s) && !Valid(s)
  {
    assert White !in Stickers(s);
    assert CountColor(s, White) == 0;
    assert IsReal(White);
  }

  /** Whether every real colour has the count nine in a tally. */
  predicate AllNine(counts: map<Color, nat>)
    requires forall i :: 0 <= i < |RealColors| ==> RealColors[i] in counts
  {
    forall i :: 0 <= i < |RealColors| ==> counts[RealColors[i]] == 9
  }

  lemma AllNineMeansCountsCorrect(s: CubeState)
    ensures AllNine(CountsOf(s)) <==> ColorCountsCorrect(s)
  {
    RealColorsComplete();
    if AllNine(CountsOf(s)) {
      forall c | IsReal(c) ensures CountColor(s, c) == 9 {
        var i :| 0 <= i < |RealColors| && RealColors[i] == c;
      }
    }
  }

  // ---------------------------------------------------------------------------------------
  // The checks, as the source performs them

  /** `isCubeSolved`: a loop over the faces that gives up at the first face with an unset or an
      off-colour sticker, then the tally. */
  method IsCubeSolved(s: CubeState) returns (solved: bool)
    ensures solved == Solved(s)
  {
    var faces := Faces(s);
    for k := 0 to |faces|
      invariant forall j :: 0 <= j < k ==> Empty !in faces[j] && Monochrome(faces[j])
    {
      var face := faces[k];
      if Empty in face {
        return false;
      }
      if !Monochrome(face) {
        return false;
      }
    }
    var counts := TallyColors(s);
    solved := AllNine(counts);
    AllNineMeansCountsCorrect(s);
  }

  /** `validateCubeState`: not empty, nothing unset, nine of each colour, then a loop over the
      opposite pairs that gives up at the first pair with equal centres. */
  method ValidateCubeState(s: CubeState) returns (valid: bool)
    ensures valid == Valid(s)
  {
    if IsCubeEmpty(s) {
      return false;
    }
    if HasEmptySquare(s) {
      return false;
    }
    var counts := TallyColors(s);
    AllNineMeansCountsCorrect(s);
    if !AllNine(counts) {
      return false;
    }
    var pairs := [(Center(s.U), Center(s.D)), (Center(s.F), Center(s.B)), (Center(s.R), Center(s.L))];
    for k := 0 to |pairs|
      invariant forall j :: 0 <= j < k ==> pairs[j].0 != pairs[j].1
    {
      if pairs[k].0 == pairs[k].1 {
        return false;
      }
    }
    assert pairs[0].0 != pairs[0].1 && pairs[1].0 != pairs[1].1 && pairs[2].0 != pairs[2].1;
    return true;
  }

  // ---------------------------------------------------------------------------------------
  // Solved implies valid

  /** First sticker of a face, or the unset marker for an empty face. */
  function First(f: Face): Color {
    if |f| > 0 then f[0] else Empty
  }

  /** A real colour different from four given colours. */
  function FreeColor(a: Color, b: Color, c: Color, d: Color): (r: Color)
    ensures IsReal(r) && r != a && r != b && r != c && r != d
  {
    if White != a && White != b && White != c && White != d then White
    else if Yellow != a && Yellow != b && Yellow != c && Yellow != d then Yellow
    else if Red != a && Red != b && Red != c && Red != d then Red
    else if Orange != a && Orange != b && Orange != c && Orange != d then Orange
    else Green
  }

  /** A one-colour face counts its colour once per sticker and nothing else. */
  lemma MonochromeCount(f: Face, c: Color)
    requires Monochrome(f)
    ensures Occurrences(f, c) == if |f| > 0 && f[0] == c then |f| else 0
  {
    if |f| > 0 {
      OccurrencesUniform(f, f[0], c);
    }
  }

  /** Pigeonhole on one pair of opposite faces: when all six faces are one colour each and every
      real colour occurs nine times, the two faces cannot share a centre. Two nine-colour centres
      would put at least ten stickers of one colour on the cube; two missing centres leave the pair
      at most eight stickers, so some colour absent from the other four faces falls short of nine. */
  lemma {:induction false} OppositeCentersDiffer(x: Face, y: Face, z1: Face, z2: Face, z3: Face, z4: Face)
    requires Empty !in x && Empty !in y
    requires Monochrome(x) && Monochrome(y) && Monochrome(z1) && Monochrome(z2) && Monochrome(z3) && Monochrome(z4)
    requires forall c :: IsReal(c) ==>
      Occurrences(x, c) + Occurrences(y, c) + Occurrences(z1, c) + Occurrences(z2, c)
        + Occurrences(z3, c) + Occurrences(z4, c) == 9
    ensures Center(x) != Center(y)
  {
    if |x| > 4 && |y| > 4 {
      var c := x[4];
      assert IsReal(c);
      MonochromeCount(x, c);
      MonochromeCount(y, c);
      assert Occurrences(x, c) >= 5;
      assert Occurrences(y, c) < 5;
    } else if |x| <= 4 && |y| <= 4 {
      var c := FreeColor(First(z1), First(z2), First(z3), First(z4));
      MonochromeCount(z1, c);
      MonochromeCount(z2, c);
      MonochromeCount(z3, c);
      MonochromeCount(z4, c);
      assert false;
    }
  }

  /** A solved cube passes the validator: `isCubeSolved(s)` implies `validateCubeState(s)`. */
  lemma SolvedImpliesValid(s: CubeState)
    requires Solved(s)
    ensures Valid(s)
  {
    var fs := Faces(s);
    assert fs[0] == s.U && fs[1] == s.D && fs[2] == s.F && fs[3] == s.B && fs[4] == s.R && fs[5] == s.L;
    forall c | IsReal(c)
      ensures Occurrences(s.U, c) + Occurrences(s.D, c) + Occurrences(s.F, c)
            + Occurrences(s.B, c) + Occurrences(s.R, c) + Occurrences(s.L, c) == 9
    {
      CountColorByFace(s, c);
    }
    OppositeCentersDiffer(s.U, s.D, s.F, s.B, s.R, s.L);
    OppositeCentersDiffer(s.F, s.B, s.U, s.D, s.R, s.L);
    OppositeCentersDiffer(s.R, s.L, s.U, s.D, s.F, s.B);
    StickersMembership(s, Empty);
    assert CountColor(s, White) == 9;
  }

  /** `SOLVED_CUBE` is solved, hence valid. */
  lemma SolvedCubeSolved()
    ensures Solved(SolvedCube) && Valid(SolvedCube)
  {
    SolvedCubeShape();
    SolvedImpliesValid(SolvedCube);
  }

  /** Where a colour sits in `AllColors`. */
  function ColorIndex(c: Color): (i: nat)
    ensures i < |AllColors| && AllColors[i] == c
  {
    match c
    case White => 0
    case Yellow => 1
    case Red => 2
    case Orange => 3
    case Green => 4
    case Blue => 5
    case Empty => 6
  }

  lemma SumOverColors(st: seq<Color>)
    ensures SumOccurrences(st, AllColors) == Occurrences(st, White) + Occurrences(st, Yellow)
      + Occurrences(st, Red) + Occurrences(st, Orange) + Occurrences(st, Green) + Occurrences(st, Blue)
      + Occurrences(st, Empty)
  {
    var a6, a5, a4 := RealColors, [White, Yellow, Red, Orange, Green], [White, Yellow, Red, Orange];
    var a3, a2, a1 := [White, Yellow, Red], [White, Yellow], [White];
    assert AllColors[..6] == a6 && a6[..5] == a5 && a5[..4] == a4 && a4[..3] == a3;
    assert a3[..2] == a2 && a2[..1] == a1 && a1[..0] == [];
    assert SumOccurrences(st, a1) == Occurrences(st, White);
    assert SumOccurrences(st, a2) == SumOccurrences(st, a1) + Occurrences(st, Yellow);
    assert SumOccurrences(st, a3) == SumOccurrences(st, a2) + Occurrences(st, Red);
    assert SumOccurrences(st, a4) == SumOccurrences(st, a3) + Occurrences(st, Orange);
    assert SumOccurrences(st, a5) == SumOccurrences(st, a4) + Occurrences(st, Green);
    assert SumOccurrences(st, a6) == SumOccurrences(st, a5) + Occurrences(st, Blue);
  }

  /** A cube the validator accepts has exactly 54 stickers, whatever the lengths of its faces. */
  lemma ValidHas54Stickers(s: CubeState)
    requires Valid(s)
    ensures |Stickers(s)| == 54
  {
    var st := Stickers(s);
    assert Distinct(AllColors);
    forall i | 0 <= i < |st| ensures st[i] in AllColors {
      assert AllColors[ColorIndex(st[i])] == st[i];
    }
    SumOccurrencesBound(st, AllColors);
    SumOverColors(st);
    assert CountColor(s, Empty) == 0;
    assert IsReal(White) && IsReal(Yellow) && IsReal(Red) && IsReal(Orange) && IsReal(Green) && IsReal(Blue);
  }

  // ---------------------------------------------------------------------------------------
  // The verdict shown to the user

  datatype ValidationStatus = ValidationStatus(isValid: bool, canSolve: bool, showError: bool, message: string)

  const StartMessage: string := "Start filling squares with colors"
  const SolvedMessage: string := "Cube is already solved!"
  const FillMessage: string := "Fill all squares with colors (9 of each)"
  const ValidMessage: string := "Valid cube configuration"
  const CentersMessage: string := "Invalid cube configuration - check center positions"

  /** Rank of a real colour in the validator's listing order W, Y, R, O, G, B. */
  function Position(c: Color): nat {
    match c
    case White => 0
    case Yellow => 1
    case Red => 2
    case Orange => 3
    case Green => 4
    case Blue => 5
    case Empty => 6
  }

  /** `validColors.filter(color => colorCounts[color] !== 9)`, each paired with its count. */
  function InvalidCounts(counts: map<Color, nat>, colors: seq<Color>): (r: seq<(Color, nat)>)
    requires forall c :: c in colors ==> c in counts
    requires forall i, j :: 0 <= i < j < |colors| ==> Position(colors[i]) < Position(colors[j])
    ensures forall k :: 0 <= k < |r| ==> r[k].0 in colors && r[k].1 == counts[r[k].0] && r[k].1 != 9
    ensures forall c :: c in colors && counts[c] != 9 ==> (c, counts[c]) in r
    ensures forall i, j :: 0 <= i < j < |r| ==> Position(r[i].0) < Position(r[j].0)
  {
    if |colors| == 0 then []
    else
      var rest := InvalidCounts(counts, colors[1..]);
      if counts[colors[0]] != 9 then [(colors[0], counts[colors[0]])] + rest else rest
  }

  /** `${color}:${count}` for each entry, joined by `", "`. */
  function CountDetails(entries: seq<(Color, nat)>): string {
    Join(seq(|entries|, k requires 0 <= k < |entries| => ColorCode(entries[k].0) + ":" + NatToString(entries[k].1)), ", ")
  }

  function CountsMessage(entries: seq<(Color, nat)>): string {
    "Each color must appear exactly 9 times (" + CountDetails(entries) + ")"
  }

  /** The offending colours of a cube, in listing order, with their counts. */
  function WrongCounts(s: CubeState): seq<(Color, nat)> {
    InvalidCounts(CountsOf(s), RealColors)
  }

  /** The wrong-count verdict names exactly the real colours whose count is not nine, each with
      its count, in the order W, Y, R, O, G, B. */
  lemma WrongCountsExact(s: CubeState)
    ensures forall k :: 0 <= k < |WrongCounts(s)| ==>
      IsReal(WrongCounts(s)[k].0) && WrongCounts(s)[k].1 == CountColor(s, WrongCounts(s)[k].0) != 9
    ensures forall c :: IsReal(c) && CountColor(s, c) != 9 ==> (c, CountColor(s, c)) in WrongCounts(s)
    ensures forall i, j :: 0 <= i < j < |WrongCounts(s)| ==> Position(WrongCounts(s)[i].0) < Position(WrongCounts(s)[j].0)
    ensures WrongCounts(s) == [] <==> ColorCountsCorrect(s)
  {
    RealColorsComplete();
    var r := WrongCounts(s);
    if r != [] {
      assert r[0] in r;
    }
  }

  /** `getCubeValidationStatus`: empty, then solved, then unset stickers, then wrong counts,
      then the full validator. */
  method GetCubeValidationStatus(s: CubeState) returns (v: ValidationStatus)
    ensures v.isValid == Valid(s)
    ensures v.canSolve == (Valid(s) && !Solved(s))
    ensures v.showError == (!IsCubeEmpty(s) && !Valid(s))
    ensures IsCubeEmpty(s) ==> v.message == StartMessage
    ensures !IsCubeEmpty(s) && Solved(s) ==> v.message == SolvedMessage
    ensures !IsCubeEmpty(s) && !Solved(s) && HasEmptySquare(s) ==> v.message == FillMessage
    ensures !IsCubeEmpty(s) && !Solved(s) && !HasEmptySquare(s) && !ColorCountsCorrect(s) ==>
      v.message == CountsMessage(WrongCounts(s))
    ensures Valid(s) && !Solved(s) ==> v.message == ValidMessage
    ensures !HasEmptySquare(s) && ColorCountsCorrect(s) && !CentersOpposed(s) ==> v.message == CentersMessage
  {
    var isEmpty := IsCubeEmpty(s);
    var hasStarted := HasCubeStarted(s);
    var isSolved := IsCubeSolved(s);
    EmptyIffNotStarted(s);
    if isEmpty {
      EmptyCubeNotValid(s);
      return ValidationStatus(false, false, false, StartMessage);
    }
    if !hasStarted {
      return ValidationStatus(false, false, false, StartMessage);
    }
    if isSolved {
      SolvedImpliesValid(s);
      return ValidationStatus(true, false, false, SolvedMessage);
    }
    var hasEmptySquares := HasEmptySquare(s);
    if hasEmptySquares {
      return ValidationStatus(false, false, true, FillMessage);
    }
    var counts := TallyColors(s);
    var invalid := InvalidCounts(counts, RealColors);
    WrongCountsExact(s);
    if |invalid| > 0 {
      return ValidationStatus(false, false, true, CountsMessage(invalid));
    }
    var isFullyValid := ValidateCubeState(s);
    if isFullyValid {
      return ValidationStatus(true, true, false, ValidMessage);
    }
    return ValidationStatus(false, false, true, CentersMessage);
  }
}
