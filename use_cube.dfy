/** The editing and playback session (src/hooks/useCube.ts): the cube being edited, the solution
    being played back, the current step and the last solver error, with the handlers the page
    calls. Each handler is one atomic step; the library call inside the solve handler is the
    `reply` parameter. */
module UseCube {
  import opened Wrappers
  import opened JsStrings
  import opened CubeTypes
  import opened CubeConverter
  import opened CubeSolver
  import opened MoveNotation

  /** `{ ...s, [face]: s[face].map((c, i) => i === index ? color : c) }`. */
  function SetSticker(s: CubeState, face: FaceName, index: int, color: Color): (r: CubeState)
    ensures |GetFace(r, face)| == |GetFace(s, face)|
    ensures forall i :: 0 <= i < |GetFace(s, face)| && i != index ==> GetFace(r, face)[i] == GetFace(s, face)[i]
    ensures 0 <= index < |GetFace(s, face)| ==> GetFace(r, face)[index] == color
    ensures forall other :: other != face ==> GetFace(r, other) == GetFace(s, other)
    ensures !(0 <= index < |GetFace(s, face)|) ==> r == s
  {
    var f := GetFace(s, face);
    var g := seq(|f|, i requires 0 <= i < |f| => if i == index then color else f[i]);
    assert !(0 <= index < |f|) ==> g == f;
    WithFace(s, face, g)
  }

  /** Editing one sticker keeps a cube of six nine-sticker faces one. */
  lemma SetStickerWellFormed(s: CubeState, face: FaceName, index: int, color: Color)
    requires WellFormed(s)
    ensures WellFormed(SetSticker(s, face, index, color))
  {
    var r := SetSticker(s, face, index, color);
    forall n ensures |GetFace(r, n)| == |GetFace(s, n)| { }
    assert |GetFace(s, Up)| == 9 && |GetFace(s, Down)| == 9 && |GetFace(s, Front)| == 9 by {
      assert Faces(s)[0] == s.U && Faces(s)[1] == s.D && Faces(s)[2] == s.F;
    }
    assert |GetFace(s, Back)| == 9 && |GetFace(s, Right)| == 9 && |GetFace(s, Left)| == 9 by {
      assert Faces(s)[3] == s.B && Faces(s)[4] == s.R && Faces(s)[5] == s.L;
    }
    assert Faces(s) == [GetFace(s, Up), GetFace(s, Down), GetFace(s, Front), GetFace(s, Back), GetFace(s, Right), GetFace(s, Left)];
    assert Faces(r) == [GetFace(r, Up), GetFace(r, Down), GetFace(r, Front), GetFace(r, Back), GetFace(r, Right), GetFace(r, Left)];
  }

  /** `result.solution.map(move => ({ notation: move.trim(), description: getMoveDescription(move.trim()) }))`. */
  function ToMoves(tokens: seq<string>): (moves: seq<Move>)
    ensures |moves| == |tokens|
    ensures forall k :: 0 <= k < |tokens| ==>
      moves[k].notation == Trim(tokens[k]) && Trim(moves[k].notation) == moves[k].notation
    ensures forall k :: 0 <= k < |tokens| && IsMoveToken(moves[k].notation) ==>
      moves[k].notation in Descriptions && moves[k].description == Descriptions[moves[k].notation]
    ensures forall k :: 0 <= k < |tokens| && !IsMoveToken(moves[k].notation) ==>
      moves[k].description == GenericPrefix + moves[k].notation
  {
    seq(|tokens|, k requires 0 <= k < |tokens| => MoveOf(tokens[k]))
  }

  /** One installed move: the trimmed token, described by the table when it is a move of the
      notation and by the generic text otherwise. */
  function MoveOf(token: string): (m: Move)
    ensures m.notation == Trim(token) && Trim(m.notation) == m.notation
    ensures IsMoveToken(m.notation) ==> m.notation in Descriptions && m.description == Descriptions[m.notation]
    ensures !IsMoveToken(m.notation) ==> m.description == GenericPrefix + m.notation
  {
    TrimIdempotent(token);
    MoveDescriptionByGrammar(Trim(token));
    Move(Trim(token), GetMoveDescription(Trim(token)))
  }

  /** What the handler makes of a `solveCube` outcome: the moves to install, or the message of the
      error its `catch` receives (the solver's own rejection, or the `TypeError` of mapping a
      solution that is not a list). An empty list installs no moves, like the early return. */
  function SolveOutcome(result: Result<SolverResult, string>): (out: Result<seq<Move>, string>)
    ensures out.Success? ==>
      && result.Success? && result.value.solution.MoveTokens?
      && out.value == ToMoves(result.value.solution.tokens)
    ensures out.Failure? ==>
      (result.Failure? && out.error == result.error) || (result.Success? && result.value.solution == Unusable(out.error))
  {
    match result
    case Failure(e) => Failure(e)
    case Success(SolverResult(Unusable(e), _)) => Failure(e)
    case Success(SolverResult(MoveTokens(tokens), _)) => Success(ToMoves(tokens))
  }

  // The two fixed texts, written in short pieces so that facts about their characters stay cheap
  // to prove.
  const ImpossibleText: string :=
    "This cube configuration " + "is mathematically " + "impossible to solve. " + "Each color must appear " +
    "exactly 9 times and be " + "in valid positions."
  const FallbackText: string :=
    "Cube solver is working with " + "fallback algorithm. " + "Solution may not be optimal " + "but should be correct."
  const SolverErrorPrefix: string := "Solver error: "

  /** The text shown for an error caught by the solve handler. */
  function UserMessage(errorMessage: string): (text: string)
    ensures Includes(errorMessage, InvalidConfiguration) ==> text == ImpossibleText
    ensures !Includes(errorMessage, InvalidConfiguration)
            && (Includes(errorMessage, "not available") || Includes(errorMessage, "not found"))
            ==> text == FallbackText
    ensures !Includes(errorMessage, InvalidConfiguration) && !Includes(errorMessage, "not available")
            && !Includes(errorMessage, "not found")
            ==> text == SolverErrorPrefix + errorMessage
  {
    if Includes(errorMessage, InvalidConfiguration) then ImpossibleText
    else if Includes(errorMessage, "not available") || Includes(errorMessage, "not found") then FallbackText
    else SolverErrorPrefix + errorMessage
  }

  /** The message shown exposes the caught error's own text exactly when that text matches none
      of the three phrases: the impossible and fallback texts never repeat the raw error. */
  lemma UserMessageExposesError(errorMessage: string)
    ensures Includes(UserMessage(errorMessage), errorMessage) <==>
      && !Includes(errorMessage, InvalidConfiguration)
      && !Includes(errorMessage, "not available")
      && !Includes(errorMessage, "not found")
  {
    var text := UserMessage(errorMessage);
    if Includes(errorMessage, InvalidConfiguration) {
      ImpossibleTextClean();
      if Includes(text, errorMessage) {
        IncludesTransitive(text, errorMessage, InvalidConfiguration);
      }
    } else if Includes(errorMessage, "not available") || Includes(errorMessage, "not found") {
      FallbackTextClean();
      if Includes(text, errorMessage) {
        if Includes(errorMessage, "not available") {
          IncludesTransitive(text, errorMessage, "not available");
        } else {
          IncludesTransitive(text, errorMessage, "not found");
        }
      }
    } else {
      assert text[|SolverErrorPrefix|..|SolverErrorPrefix| + |errorMessage|] == errorMessage;
      IncludesAt(text, errorMessage, |SolverErrorPrefix|);
    }
  }

  lemma ImpossiblePiecesNoI()
    ensures 'I' !in "This cube configuration " && 'I' !in "is mathematically "
  {
  }

  lemma ImpossiblePiecesNoI2()
    ensures 'I' !in "impossible to solve. " && 'I' !in "Each color must appear "
  {
  }

  lemma ImpossiblePiecesNoI3()
    ensures 'I' !in "exactly 9 times and be " && 'I' !in "in valid positions."
  {
  }

  /** The impossible text has no capital I, so it cannot contain the rejection text. */
  lemma ImpossibleTextClean()
    ensures !Includes(ImpossibleText, InvalidConfiguration)
  {
    ImpossiblePiecesNoI();
    ImpossiblePiecesNoI2();
    ImpossiblePiecesNoI3();
    assert InvalidConfiguration[0] == 'I';
    NotIncludedByChar(ImpossibleText, InvalidConfiguration, 0);
  }

  lemma FallbackPieceOne()
    ensures "Cube solver is working with "[3] == 'e' && "Cube solver is working with "[24] == 'i'
    ensures 'f' !in "Cube solver is working with "
  {
  }

  lemma FallbackPieceOneV()
    ensures "Cube solver is working with "[8] == 'v'
    ensures forall j | 0 <= j < 28 && j != 8 :: "Cube solver is working with "[j] != 'v'
  {
  }

  lemma FallbackPieceTwo()
    ensures "fallback algorithm. "[0] == 'f' && 'v' !in "fallback algorithm. "
    ensures forall j | 1 <= j < 20 :: "fallback algorithm. "[j] != 'f'
  {
  }

  lemma FallbackPieceThree()
    ensures 'f' !in "Solution may not be optimal " && 'v' !in "Solution may not be optimal "
  {
  }

  lemma FallbackPieceFour()
    ensures 'f' !in "but should be correct." && 'v' !in "but should be correct."
  {
  }

  /** The fallback text has its only f at position 28 and its only v at position 8. */
  lemma FallbackTextUniqueLetters()
    ensures forall j | 0 <= j < |FallbackText| && j != 28 :: FallbackText[j] != 'f'
    ensures forall j | 0 <= j < |FallbackText| && j != 8 :: FallbackText[j] != 'v'
  {
    FallbackPieceOne();
    FallbackPieceOneV();
    FallbackPieceTwo();
    FallbackPieceThree();
    FallbackPieceFour();
  }

  /** The fallback text contains neither phrase that selects it. */
  lemma FallbackTextClean()
    ensures !Includes(FallbackText, "not found") && !Includes(FallbackText, "not available")
  {
    FallbackPieceOne();
    FallbackTextUniqueLetters();
    assert FallbackText[24..33][0] == FallbackText[24];
    NotIncludedByUniqueChar(FallbackText, "not found", 4, 28);
    assert FallbackText[3..16][0] == FallbackText[3];
    NotIncludedByUniqueChar(FallbackText, "not available", 5, 8);
  }

  /** The solver's own rejection is reported as an impossible configuration. */
  lemma RejectionIsImpossible()
    ensures UserMessage(InvalidConfiguration) == ImpossibleText
  {
    IncludesAt(InvalidConfiguration, InvalidConfiguration, 0);
  }

  /** For a cube that passes the validator, the handler's `catch` is reached only through a library
      record whose `solution` is not a list: the solver never rejects such a cube, and string
      replies, the fallback and the solved-string answer always give a list. */
  lemma HandlerFailureNeedsUnusableRecord(s: CubeState, reply: LibraryReply, pick: nat)
    requires pick < 10 && Valid(s)
    ensures SolveOutcome(SolveCube(ConvertCubeToSolverFormat(s), reply, pick)).Failure? <==>
      && ConvertCubeToSolverFormat(s) != SolvedFacelets
      && reply.Record? && reply.solution.Some? && reply.solution.value.Unusable?
  {
    var str := ConvertCubeToSolverFormat(s);
    ValidEncodingPassesSolverCheck(s);
    if str != SolvedFacelets && reply.Record? {
      SolveCubeRecord(str, reply.solution, reply.moves, pick);
    }
  }

  /** A string reply that spells out a list of trimmed moves separated by single spaces installs
      exactly those moves, in order, each with its description. */
  lemma TextReplyInstallsMoves(cubeString: string, ms: seq<string>, pick: nat)
    requires pick < 10 && IsFaceletString(cubeString) && cubeString != SolvedFacelets
    requires forall k :: 0 <= k < |ms| ==> ' ' !in ms[k] && Trim(ms[k]) == ms[k] && ms[k] != ""
    ensures var out := SolveOutcome(SolveCube(cubeString, Text(Join(ms, " ")), pick));
      && out.Success? && |out.value| == |ms|
      && forall k :: 0 <= k < |ms| ==>
           out.value[k].notation == ms[k] && out.value[k].description == GetMoveDescription(ms[k])
  {
    SplitMovesJoin(ms);
    SolveCubeTextReply(cubeString, Join(ms, " "), pick);
  }

  /** A complete, valid, unsolved 3x3 cube is not sent to the solved-string short-circuit. */
  lemma UnsolvedNotSolvedString(c: CubeState)
    requires Valid(c) && WellFormed(c) && !Solved(c)
    ensures ConvertCubeToSolverFormat(c) != SolvedFacelets
  {
    if ConvertCubeToSolverFormat(c) == SolvedFacelets {
      SolvedStringOnlyForSolvedCube(c);
      SolvedCubeSolved();
      assert false;
    }
  }

  /** The session state of `useCube`. */
  class CubeSession {
    var cubeState: CubeState
    var solution: seq<Move>
    var currentStep: int
    var solverError: string

    /** The playback step is a position in the solution, and 0 when there is none. */
    ghost predicate StepInRange()
      reads this
    {
      0 <= currentStep && (|solution| == 0 ==> currentStep == 0) && (|solution| > 0 ==> currentStep < |solution|)
    }

    /** The initial state: nothing filled in, no solution, step 0, no error. */
    constructor()
      ensures cubeState == EmptyCube && solution == [] && currentStep == 0 && solverError == ""
      ensures StepInRange()
    {
      cubeState := EmptyCube;
      solution := [];
      currentStep := 0;
      solverError := "";
    }

    /** `hasSolution`. */
    predicate HasSolution()
      reads this
    {
      |solution| > 0
    }

    /** `canUndo`. */
    predicate CanUndo()
      reads this
    {
      currentStep > 0
    }

    /** `canSolve && !isSolved` as the hook computes them from the verdict and `isCubeSolved`:
        the cube passes the validator and is not solved yet. */
    method CanSolve() returns (can: bool)
      ensures can == (Valid(cubeState) && !Solved(cubeState))
    {
      var status := GetCubeValidationStatus(cubeState);
      var solved := IsCubeSolved(cubeState);
      can := status.canSolve && !solved;
    }

    /** `resetCube`. */
    method ResetCube()
      modifies this
      ensures cubeState == EmptyCube && solution == [] && currentStep == 0 && solverError == ""
      ensures StepInRange()
    {
      cubeState := EmptyCube;
      solution := [];
      currentStep := 0;
      solverError := "";
    }

    /** `setSolvedCube`. */
    method SetSolvedCube()
      modifies this
      ensures cubeState == SolvedCube && solution == [] && currentStep == 0 && solverError == ""
      ensures StepInRange()
    {
      cubeState := SolvedCube;
      solution := [];
      currentStep := 0;
      solverError := "";
    }

    /** `applyCubeState`. */
    method ApplyCubeState(newCubeState: CubeState)
      modifies this
      ensures cubeState == newCubeState && solution == [] && currentStep == 0 && solverError == ""
      ensures StepInRange()
    {
      cubeState := newCubeState;
      solution := [];
      currentStep := 0;
      solverError := "";
    }

    /** `updateSquare`: one sticker changes, and the solution is discarded. */
    method UpdateSquare(face: FaceName, index: int, color: Color)
      modifies this
      ensures cubeState == SetSticker(old(cubeState), face, index, color)
      ensures solution == [] && currentStep == 0 && solverError == ""
      ensures StepInRange()
    {
      cubeState := SetSticker(cubeState, face, index, color);
      solution := [];
      currentStep := 0;
      solverError := "";
    }

    /** `nextStep`: forward one move unless at the last move or without a solution. */
    method NextStep()
      modifies this
      ensures currentStep == if old(currentStep) < |solution| - 1 then old(currentStep) + 1 else old(currentStep)
      ensures cubeState == old(cubeState) && solution == old(solution) && solverError == old(solverError)
      ensures old(StepInRange()) ==> StepInRange()
    {
      if currentStep < |solution| - 1 {
        currentStep := currentStep + 1;
      }
    }

    /** `previousStep`: back one move unless at the first. */
    method PreviousStep()
      modifies this
      ensures currentStep == if old(currentStep) > 0 then old(currentStep) - 1 else old(currentStep)
      ensures cubeState == old(cubeState) && solution == old(solution) && solverError == old(solverError)
      ensures old(StepInRange()) ==> StepInRange()
    {
      if currentStep > 0 {
        currentStep := currentStep - 1;
      }
    }

    /** `goToStep`: jump to a position of the solution; any other request is ignored. */
    method GoToStep(step: int)
      modifies this
      ensures currentStep == if 0 <= step < |solution| then step else old(currentStep)
      ensures cubeState == old(cubeState) && solution == old(solution) && solverError == old(solverError)
      ensures old(StepInRange()) ==> StepInRange()
    {
      if step >= 0 && step < |solution| {
        currentStep := step;
      }
    }

    /** `undoLastMove`: `previousStep` when `canUndo`; the same step back. */
    method UndoLastMove()
      modifies this
      ensures currentStep == if old(CanUndo()) then old(currentStep) - 1 else old(currentStep)
      ensures cubeState == old(cubeState) && solution == old(solution) && solverError == old(solverError)
      ensures old(StepInRange()) ==> StepInRange()
    {
      if CanUndo() {
        PreviousStep();
      }
    }

    /** `solveCubeHandler`, with the step reset in the `catch` as well (see the as-written version
        below): nothing happens unless the cube can be solved; otherwise the library's moves are
        installed from step 0, or the caught error is reported with no solution. */
    method SolveCubeHandler(reply: LibraryReply, pick: nat)
      requires pick < 10
      modifies this
      ensures cubeState == old(cubeState)
      ensures !(Valid(cubeState) && !Solved(cubeState)) ==>
        solution == old(solution) && currentStep == old(currentStep) && solverError == old(solverError)
      ensures Valid(cubeState) && !Solved(cubeState) ==>
        var out := SolveOutcome(SolveCube(ConvertCubeToSolverFormat(cubeState), reply, pick));
        && currentStep == 0
        && (out.Success? ==> solution == out.value && solverError == "")
        && (out.Failure? ==> solution == [] && solverError == UserMessage(out.error))
      ensures Valid(cubeState) && !Solved(cubeState) ==> StepInRange()
      ensures old(StepInRange()) ==> StepInRange()
    {
      var can := CanSolve();
      var solved := IsCubeSolved(cubeState);
      if !can || solved {
        return;
      }
      solverError := "";
      var cubeString := ConvertCubeToSolverFormat(cubeState);
      match SolveOutcome(SolveCube(cubeString, reply, pick))
      case Success(moves) =>
        solution := moves;
        currentStep := 0;
      case Failure(message) =>
        solution := [];
        currentStep := 0;
        solverError := UserMessage(message);
    }

    /** `solveCubeHandler` as written: the `catch` empties the solution but leaves the step where
        it was. */
    method SolveCubeHandlerAsWritten(reply: LibraryReply, pick: nat)
      requires pick < 10
      modifies this
      ensures cubeState == old(cubeState)
      ensures !(Valid(cubeState) && !Solved(cubeState)) ==>
        solution == old(solution) && currentStep == old(currentStep) && solverError == old(solverError)
      ensures Valid(cubeState) && !Solved(cubeState) ==>
        var out := SolveOutcome(SolveCube(ConvertCubeToSolverFormat(cubeState), reply, pick));
        && (out.Success? ==> solution == out.value && currentStep == 0 && solverError == "")
        && (out.Failure? ==> solution == [] && currentStep == old(currentStep) && solverError == UserMessage(out.error))
    {
      var can := CanSolve();
      var solved := IsCubeSolved(cubeState);
      if !can || solved {
        return;
      }
      solverError := "";
      var cubeString := ConvertCubeToSolverFormat(cubeState);
      match SolveOutcome(SolveCube(cubeString, reply, pick))
      case Success(moves) =>
        solution := moves;
        currentStep := 0;
      case Failure(message) =>
        solution := [];
        solverError := UserMessage(message);
    }
  }

  /** The as-written handler breaks the step invariant: load any complete, valid, unsolved 3x3
      cube, solve it with the library answering the move list ["R", "U"], step forward once, and
      solve again with the library answering a record whose `solution` is not a list. The
      solution is then empty while the step is still 1 (and `canUndo` holds with nothing to
      undo). */
  method StaleStepAfterFailedSolve(c: CubeState, error: string) returns (session: CubeSession)
    requires Valid(c) && WellFormed(c) && !Solved(c)
    ensures fresh(session) && session.cubeState == c
    ensures session.solution == [] && session.currentStep == 1 && session.CanUndo()
    ensures !session.StepInRange()
  {
    session := new CubeSession();
    session.ApplyCubeState(c);
    UnsolvedNotSolvedString(c);
    ValidEncodingPassesSolverCheck(c);
    WitnessOutcomes(ConvertCubeToSolverFormat(c), error);
    session.SolveCubeHandlerAsWritten(Record(Some(MoveTokens(["R", "U"])), 2), 0);
    assert |session.solution| == 2 && session.currentStep == 0;
    session.NextStep();
    assert session.currentStep == 1;
    session.SolveCubeHandlerAsWritten(Record(Some(Unusable(error)), 0), 0);
  }

  /** From that stale state the enabled Undo button takes the step back to 0, which restores the
      invariant. */
  method UndoAfterStaleStep(c: CubeState, error: string) returns (session: CubeSession)
    requires Valid(c) && WellFormed(c) && !Solved(c)
    ensures session.solution == [] && session.currentStep == 0 && session.StepInRange()
  {
    session := StaleStepAfterFailedSolve(c, error);
    session.UndoLastMove();
  }

  /** The two library answers of the witness above, for any facelet string other than the solved
      one: a two-move list installs two moves, and a record whose `solution` is not a list makes
      the handler's `catch` receive its error. */
  lemma WitnessOutcomes(str: string, error: string)
    requires IsFaceletString(str) && str != SolvedFacelets
    ensures SolveOutcome(SolveCube(str, Record(Some(MoveTokens(["R", "U"])), 2), 0)).Success?
    ensures |SolveOutcome(SolveCube(str, Record(Some(MoveTokens(["R", "U"])), 2), 0)).value| == 2
    ensures SolveOutcome(SolveCube(str, Record(Some(Unusable(error)), 0), 0)) == Failure(error)
  {
    SolveCubeRecord(str, Some(MoveTokens(["R", "U"])), 2, 0);
    SolveCubeRecord(str, Some(Unusable(error)), 0, 0);
  }
}
