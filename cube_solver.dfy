/** The front end of the solver (src/utils/cubeSolver.ts): the second facelet encoder, the
    letter-count check on a facelet string, the guards and reply normalisation of `solveCube`
    around an external two-phase solver, and the fixed fallback move list. */
module CubeSolver {
  import opened Wrappers
  import opened Seqs
  import opened JsStrings
  import opened CubeTypes
  import opened CubeConverter
  import MoveNotation

  // ---------------------------------------------------------------------------------------
  // The solver-side encoder

  /** `colorMap` keyed by the colours' string values; the unset marker has no entry. */
  const SolverColorMap: map<string, char> :=
    map["W" := 'U', "G" := 'R', "R" := 'F', "Y" := 'D', "B" := 'L', "O" := 'B']

  /** `colorMap[color] || 'U'`. */
  function SolverLetter(c: Color): (l: char)
    ensures l in FaceLetters
  {
    var code := ColorCode(c);
    if code in SolverColorMap then SolverColorMap[code] else 'U'
  }

  /** The two colour tables agree on every colour, the unset marker included. */
  lemma LettersAgree(c: Color)
    ensures SolverLetter(c) == ColorLetter(c)
  {
    assert "EMPTY" !in SolverColorMap by {
      assert |"EMPTY"| == 5;
    }
  }

  function SolverFace(f: Face): (r: string)
    ensures |r| == |f|
  {
    if |f| == 0 then "" else SolverFace(f[..|f| - 1]) + [SolverLetter(f[|f| - 1])]
  }

  /** `convertCubeToSolverFormat`: the faces encoded in U, R, F, D, L, B order. */
  function ConvertCubeToSolverFormat(s: CubeState): string {
    SolverFace(s.U) + SolverFace(s.R) + SolverFace(s.F) + SolverFace(s.D) + SolverFace(s.L) + SolverFace(s.B)
  }

  lemma {:induction false} FacesAgree(f: Face)
    ensures SolverFace(f) == EncodeFace(f)
  {
    if |f| > 0 {
      FacesAgree(f[..|f| - 1]);
      LettersAgree(f[|f| - 1]);
    }
  }

  /** The solver-side encoder produces the same string as `convertToKociembaFormat` on every
      cube, whatever its face lengths or unset stickers. */
  lemma ConvertersAgree(s: CubeState)
    ensures ConvertCubeToSolverFormat(s) == ConvertToKociembaFormat(s)
  {
    FacesAgree(s.U);
    FacesAgree(s.R);
    FacesAgree(s.F);
    FacesAgree(s.D);
    FacesAgree(s.L);
    FacesAgree(s.B);
  }

  // ---------------------------------------------------------------------------------------
  // The facelet-string check

  /** What `validateCubeConfiguration` decides: 54 characters, each face letter nine times. */
  predicate IsFaceletString(str: string) {
    |str| == 54 && forall j :: 0 <= j < 6 ==> Occurrences(str, FaceLetters[j]) == 9
  }

  /** `colorCounts[char] || 0`. */
  function CountIn(counts: map<char, nat>, ch: char): nat {
    if ch in counts then counts[ch] else 0
  }

  /** `validateCubeConfiguration`: the length guard, then a count per character in one pass,
      then nine of each face letter. */
  method ValidateCubeConfiguration(str: string) returns (ok: bool)
    ensures ok == IsFaceletString(str)
  {
    if |str| != 54 {
      return false;
    }
    var counts: map<char, nat> := map[];
    for i := 0 to |str|
      invariant forall ch :: CountIn(counts, ch) == Occurrences(str[..i], ch)
    {
      var ch := str[i];
      counts := counts[ch := CountIn(counts, ch) + 1];
      assert str[..i + 1] == str[..i] + [ch];
      forall x ensures CountIn(counts, x) == Occurrences(str[..i + 1], x) {
        OccurrencesSnoc(str[..i], ch, x);
      }
    }
    assert str[..|str|] == str;
    ok := forall j :: 0 <= j < 6 ==> CountIn(counts, FaceLetters[j]) == 9;
  }

  /** `isCubeSolvable`: the same check (nothing in it can throw). */
  method IsCubeSolvable(str: string) returns (solvable: bool)
    ensures solvable == IsFaceletString(str)
  {
    solvable := ValidateCubeConfiguration(str);
  }

  lemma FaceLettersDistinct()
    ensures Distinct(FaceLetters)
  {
  }

  lemma SumOverFaceLetters(str: string)
    ensures SumOccurrences(str, FaceLetters) == Occurrences(str, 'U') + Occurrences(str, 'R')
      + Occurrences(str, 'F') + Occurrences(str, 'D') + Occurrences(str, 'L') + Occurrences(str, 'B')
  {
    assert FaceLetters[..5] == "URFDL" && "URFDL"[..4] == "URFD" && "URFD"[..3] == "URF";
    assert "URF"[..2] == "UR" && "UR"[..1] == "U" && "U"[..0] == [];
    assert SumOccurrences(str, "U") == Occurrences(str, 'U');
    assert SumOccurrences(str, "UR") == SumOccurrences(str, "U") + Occurrences(str, 'R');
    assert SumOccurrences(str, "URF") == SumOccurrences(str, "UR") + Occurrences(str, 'F');
    assert SumOccurrences(str, "URFD") == SumOccurrences(str, "URF") + Occurrences(str, 'D');
    assert SumOccurrences(str, "URFDL") == SumOccurrences(str, "URFD") + Occurrences(str, 'L');
  }

  /** A string that passes the check holds nothing but the six face letters. */
  lemma FaceletAlphabet(str: string)
    requires IsFaceletString(str)
    ensures forall i :: 0 <= i < |str| ==> str[i] in FaceLetters
  {
    SumOverFaceLetters(str);
    assert SumOccurrences(str, FaceLetters) == 54 by {
      assert FaceLetters[0] == 'U' && FaceLetters[1] == 'R' && FaceLetters[2] == 'F';
      assert FaceLetters[3] == 'D' && FaceLetters[4] == 'L' && FaceLetters[5] == 'B';
    }
    forall i | 0 <= i < |str| ensures str[i] in FaceLetters {
      var ch := str[i];
      if ch !in FaceLetters {
        var xs := FaceLetters + [ch];
        assert Distinct(xs);
        assert xs[..6] == FaceLetters;
        assert Occurrences(str, ch) > 0;
        SumOccurrencesBound(str, xs);
        assert false;
      }
    }
  }

  /** Every cube that `validateCubeState` accepts encodes to a string that passes the check, so
      the solver's own guard never rejects a cube the editor allowed to be solved. */
  lemma ValidEncodingPassesSolverCheck(s: CubeState)
    requires Valid(s)
    ensures IsFaceletString(ConvertCubeToSolverFormat(s))
  {
    var str := ConvertCubeToSolverFormat(s);
    ConvertersAgree(s);
    KociembaLength(s);
    ValidHas54Stickers(s);
    forall j | 0 <= j < 6 ensures Occurrences(str, FaceLetters[j]) == 9 {
      var c := [White, Green, Red, Yellow, Blue, Orange][j];
      assert ColorLetter(c) == FaceLetters[j];
      KociembaLetterCount(s, c);
      assert CountColor(s, Empty) == 0;
    }
  }

  // ---------------------------------------------------------------------------------------
  // The solved string

  /** The solved facelet string the solver short-circuits on, nine letters per face. */
  const SolvedFacelets: string :=
    "UUUUUUUUU" + "RRRRRRRRR" + "FFFFFFFFF" + "DDDDDDDDD" + "LLLLLLLLL" + "BBBBBBBBB"

  lemma SolvedFaceletsRuns()
    ensures SolvedFacelets == NineOf('U') + NineOf('R') + NineOf('F') + NineOf('D') + NineOf('L') + NineOf('B')
  {
    assert "UUUUUUUUU" == NineOf('U') && "RRRRRRRRR" == NineOf('R') && "FFFFFFFFF" == NineOf('F');
    assert "DDDDDDDDD" == NineOf('D') && "LLLLLLLLL" == NineOf('L') && "BBBBBBBBB" == NineOf('B');
  }

  /** A face of nine stickers of one colour encodes to nine copies of its letter. */
  lemma UniformFaceEncoding(c: Color)
    ensures SolverFace(NineOf(c)) == NineOf(ColorLetter(c))
  {
    FacesAgree(NineOf(c));
  }

  /** `SOLVED_CUBE` encodes to exactly the solved string, under both encoders. */
  lemma SolvedCubeEncoding()
    ensures ConvertCubeToSolverFormat(SolvedCube) == SolvedFacelets
    ensures ConvertToKociembaFormat(SolvedCube) == SolvedFacelets
  {
    ConvertersAgree(SolvedCube);
    SolvedFaceletsRuns();
    UniformFaceEncoding(White);
    UniformFaceEncoding(Green);
    UniformFaceEncoding(Red);
    UniformFaceEncoding(Yellow);
    UniformFaceEncoding(Blue);
    UniformFaceEncoding(Orange);
  }

  /** The solved string passes the letter-count check, so the short-circuit is reachable. */
  lemma SolvedFaceletsPass()
    ensures IsFaceletString(SolvedFacelets)
  {
    SolvedCubeEncoding();
    SolvedCubeSolved();
    ValidEncodingPassesSolverCheck(SolvedCube);
  }

  lemma AppendCancel<T>(a: seq<T>, r: seq<T>, b: seq<T>, q: seq<T>)
    requires |r| == |q| && a + r == b + q
    ensures a == b && r == q
  {
    assert a == (a + r)[..|a|] && b == (b + q)[..|b|];
    assert r == (a + r)[|a|..] && q == (b + q)[|b|..];
  }

  /** A nine-sticker face without unset stickers whose encoding is nine copies of a real colour's
      letter is that colour all over. */
  lemma FaceFromRun(f: Face, c: Color)
    requires |f| == 9 && Empty !in f && IsReal(c)
    requires SolverFace(f) == NineOf(ColorLetter(c))
    ensures f == NineOf(c)
  {
    FacesAgree(f);
    forall i | 0 <= i < 9 ensures f[i] == c {
      assert EncodeFace(f)[i] == ColorLetter(f[i]);
      LetterMatches(f[i], c);
    }
  }

  /** Among complete cubes of six nine-sticker faces, `SOLVED_CUBE` is the only one that encodes
      to the solved string: the short-circuit never answers "no moves" for a scrambled cube. */
  lemma SolvedStringOnlyForSolvedCube(s: CubeState)
    requires WellFormed(s) && !HasEmptySquare(s)
    requires ConvertCubeToSolverFormat(s) == SolvedFacelets
    ensures s == SolvedCube
  {
    assert |s.U| == 9 && |s.D| == 9 && |s.F| == 9 && |s.B| == 9 && |s.R| == 9 && |s.L| == 9 by {
      assert Faces(s)[0] == s.U && Faces(s)[1] == s.D && Faces(s)[2] == s.F;
      assert Faces(s)[3] == s.B && Faces(s)[4] == s.R && Faces(s)[5] == s.L;
    }
    StickersMembership(s, Empty);
    assert Empty !in s.U && Empty !in s.D && Empty !in s.F by {
      assert Faces(s)[0] == s.U && Faces(s)[1] == s.D && Faces(s)[2] == s.F;
    }
    assert Empty !in s.B && Empty !in s.R && Empty !in s.L by {
      assert Faces(s)[3] == s.B && Faces(s)[4] == s.R && Faces(s)[5] == s.L;
    }
    SolvedFaceletsRuns();
    var u, r, f, d, l, b := SolverFace(s.U), SolverFace(s.R), SolverFace(s.F),
                            SolverFace(s.D), SolverFace(s.L), SolverFace(s.B);
    AppendCancel(u + r + f + d + l, b, NineOf('U') + NineOf('R') + NineOf('F') + NineOf('D') + NineOf('L'), NineOf('B'));
    AppendCancel(u + r + f + d, l, NineOf('U') + NineOf('R') + NineOf('F') + NineOf('D'), NineOf('L'));
    AppendCancel(u + r + f, d, NineOf('U') + NineOf('R') + NineOf('F'), NineOf('D'));
    AppendCancel(u + r, f, NineOf('U') + NineOf('R'), NineOf('F'));
    AppendCancel(u, r, NineOf('U'), NineOf('R'));
    FaceFromRun(s.U, White);
    FaceFromRun(s.R, Green);
    FaceFromRun(s.F, Red);
    FaceFromRun(s.D, Yellow);
    FaceFromRun(s.L, Blue);
    FaceFromRun(s.B, Orange);
  }

  // ---------------------------------------------------------------------------------------
  // Replies of the library and the fallback

  /** `commonMoves`, then `scrambleMoves`: the fixed list the fallback cuts a prefix from. */
  const CommonMoves: seq<string> :=
    ["R", "U", "R'", "U'", "F", "R", "F'", "U2", "R'", "U'", "R", "U", "R'", "F'", "U", "F"]
  const ScrambleMoves: seq<string> := ["D", "L", "D'", "L'", "B", "U", "B'", "U'", "R2", "D2", "L2", "U2"]

  /** `generateFallbackSolution`, with `Math.floor(Math.random() * 10)` given as `pick`: the first
      15 + pick moves of the fixed list, whatever the cube. */
  function FallbackSolution(pick: nat): (r: seq<string>)
    requires pick < 10
    ensures 15 <= |r| <= 24 && |r| == pick + 15
    ensures r <= CommonMoves + ScrambleMoves
  {
    (CommonMoves + ScrambleMoves)[..pick + 15]
  }

  /** The distinct moves of the fixed list. */
  const FallbackVocabulary: set<string> :=
    {"R", "U", "R'", "U'", "F", "F'", "U2", "D", "L", "D'", "L'", "B", "B'", "R2", "D2", "L2"}

  lemma FallbackVocabularyCovers()
    ensures forall m :: m in CommonMoves + ScrambleMoves ==> m in FallbackVocabulary
  {
    forall m | m in CommonMoves + ScrambleMoves ensures m in FallbackVocabulary {
      assert m in CommonMoves || m in ScrambleMoves;
    }
  }

  lemma VocabularyListed()
    ensures forall m :: m in FallbackVocabulary ==> m in MoveNotation.FaceTurns
  {
  }

  /** A one- or two-character move written with face letters, primes and twos is its own trim. */
  lemma ShortMoveTrimmed(m: string)
    requires 1 <= |m| <= 2 && forall i :: 0 <= i < |m| ==> m[i] in "RUFDLB'2"
    ensures Trim(m) == m && ' ' !in m && m != ""
  {
    assert !IsWhiteSpace(m[0]) && !IsWhiteSpace(m[|m| - 1]);
    TrimVisibleEnds(m);
  }

  lemma VocabularyTrimmed()
    ensures forall m :: m in FallbackVocabulary ==> Trim(m) == m && ' ' !in m && m != ""
  {
    forall m | m in FallbackVocabulary ensures Trim(m) == m && ' ' !in m && m != "" {
      ShortMoveTrimmed(m);
    }
  }

  /** Every move of the fixed list is a plain face turn of the notation, with no white space. */
  lemma FallbackMovesAreFaceTurns()
    ensures forall m :: m in CommonMoves + ScrambleMoves ==> m in MoveNotation.FaceTurns
    ensures forall m :: m in CommonMoves + ScrambleMoves ==> Trim(m) == m && ' ' !in m && m != ""
  {
    FallbackVocabularyCovers();
    VocabularyListed();
    VocabularyTrimmed();
  }

  /** `text.split(' ').filter(move => move.trim())`. */
  function SplitMoves(text: string): (tokens: seq<string>)
    ensures forall k :: 0 <= k < |tokens| ==> ' ' !in tokens[k] && Trim(tokens[k]) != ""
  {
    NonBlank(Split(text, ' '))
  }

  /** The tokens of a string reply are exactly its non-blank space-separated pieces. */
  lemma SplitMovesExact(text: string)
    ensures forall piece :: piece in SplitMoves(text) <==> piece in Split(text, ' ') && Trim(piece) != ""
  {
    forall piece | piece in Split(text, ' ') && Trim(piece) != "" ensures piece in SplitMoves(text) {
      NonBlankKeeps(Split(text, ' '), piece);
    }
  }

  /** Moves written out separated by single spaces are read back exactly. */
  lemma SplitMovesJoin(moves: seq<string>)
    requires forall k :: 0 <= k < |moves| ==> ' ' !in moves[k] && Trim(moves[k]) != ""
    ensures SplitMoves(Join(moves, " ")) == moves
  {
    if |moves| == 0 {
      assert Split("", ' ') == [""];
      TrimEmptyIffBlank("");
      assert NonBlank([""]) == [];
    } else {
      assert " " == [' '];
      SplitJoin(moves, ' ');
      NonBlankAll(moves);
    }
  }

  // ---------------------------------------------------------------------------------------
  // solveCube

  /** The `solution` field of a library record: a list of move strings, or a truthy value that is
      not such a list, on which `.map(move => move.trim())` throws the given error. */
  datatype SolutionValue = MoveTokens(tokens: seq<string>) | Unusable(error: string)

  /** What the external library does for one call: it cannot be loaded or used (every route
      ends in the fallback), it answers with a string, or with a record. A falsy `solution` field
      is `None`; `moves` is the record's `moves || 0`. */
  datatype LibraryReply = Unavailable | Text(text: string) | Record(solution: Option<SolutionValue>, moves: int)

  /** `CubeSolverResult` without its timing. */
  datatype SolverResult = SolverResult(solution: SolutionValue, moves: int)

  const InvalidConfiguration: string := "Invalid cube configuration"

  /** `solveCube`: reject a string that fails the letter-count check, answer the solved string
      with no moves, otherwise use the library's reply, or the fallback when the library cannot
      be used. */
  function SolveCube(cubeString: string, reply: LibraryReply, pick: nat): (r: Result<SolverResult, string>)
    requires pick < 10
    ensures r.Failure? <==> !IsFaceletString(cubeString)
    ensures r.Failure? ==> r.error == InvalidConfiguration
    ensures cubeString == SolvedFacelets ==> r == Success(SolverResult(MoveTokens([]), 0))
    ensures r.Success? && r.value.solution.Unusable? ==> reply.Record?
    ensures r.Success? && !reply.Record? ==>
      && r.value.solution.MoveTokens?
      && r.value.moves == |r.value.solution.tokens|
      && forall k :: 0 <= k < |r.value.solution.tokens| ==>
           ' ' !in r.value.solution.tokens[k] && Trim(r.value.solution.tokens[k]) != ""
    ensures r.Success? && reply.Text? && cubeString != SolvedFacelets ==>
      && r.value.solution.MoveTokens?
      && forall piece :: piece in r.value.solution.tokens <==> piece in Split(reply.text, ' ') && Trim(piece) != ""
  {
    if !IsFaceletString(cubeString) then
      SolvedFaceletsPass();
      Failure(InvalidConfiguration)
    else if cubeString == SolvedFacelets then Success(SolverResult(MoveTokens([]), 0))
    else
      match reply
      case Unavailable =>
        FallbackMovesAreFaceTurns();
        var moves := FallbackSolution(pick);
        assert forall k :: 0 <= k < |moves| ==> moves[k] in CommonMoves + ScrambleMoves;
        Success(SolverResult(MoveTokens(moves), |moves|))
      case Text(text) =>
        SplitMovesExact(text);
        var moves := SplitMoves(text);
        Success(SolverResult(MoveTokens(moves), |moves|))
      case Record(solution, moves) =>
        Success(SolverResult(solution.GetOr(MoveTokens([])), moves))
  }

  /** A record reply other than for the solved string is passed on as it is, with a falsy
      `solution` read as no moves. */
  lemma SolveCubeRecord(cubeString: string, solution: Option<SolutionValue>, moves: int, pick: nat)
    requires pick < 10 && IsFaceletString(cubeString) && cubeString != SolvedFacelets
    ensures SolveCube(cubeString, Record(solution, moves), pick)
         == Success(SolverResult(solution.GetOr(MoveTokens([])), moves))
  {
  }

  /** A string reply other than for the solved string gives its non-blank space-separated pieces. */
  lemma SolveCubeTextReply(cubeString: string, text: string, pick: nat)
    requires pick < 10 && IsFaceletString(cubeString) && cubeString != SolvedFacelets
    ensures SolveCube(cubeString, Text(text), pick)
         == Success(SolverResult(MoveTokens(SplitMoves(text)), |SplitMoves(text)|))
  {
  }

  /** When the library cannot be used the answer is the fallback list, independent of the cube,
      of 15 to 24 face turns that all have their own description. */
  lemma SolveCubeFallback(cubeString: string, pick: nat)
    requires pick < 10 && IsFaceletString(cubeString) && cubeString != SolvedFacelets
    ensures SolveCube(cubeString, Unavailable, pick)
         == Success(SolverResult(MoveTokens(FallbackSolution(pick)), pick + 15))
    ensures forall k :: 0 <= k < pick + 15 ==> FallbackSolution(pick)[k] in MoveNotation.Descriptions
  {
    FallbackDescribed(pick);
  }

  /** Every fallback move has its own entry in the description table. */
  lemma FallbackDescribed(pick: nat)
    requires pick < 10
    ensures forall k :: 0 <= k < pick + 15 ==> FallbackSolution(pick)[k] in MoveNotation.Descriptions
  {
    FallbackMovesAreFaceTurns();
    var moves := FallbackSolution(pick);
    assert forall k :: 0 <= k < |moves| ==> moves[k] in CommonMoves + ScrambleMoves;
  }

  /** A cube the editor calls valid is never turned away by the solver's own check. */
  lemma ValidCubeNotRejected(s: CubeState, reply: LibraryReply, pick: nat)
    requires pick < 10 && Valid(s)
    ensures SolveCube(ConvertCubeToSolverFormat(s), reply, pick).Success?
  {
    ValidEncodingPassesSolverCheck(s);
  }
}
