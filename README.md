# Cube solver: validator, facelet encoder and session model

This project models the core of a Rubik's cube solving web application in Dafny:

- the cube description: six faces of sticker colours, with `EMPTY` for an unset sticker;
- the validator, which decides whether a cube is empty, incomplete, wrong in its colour counts, wrong in its opposite centres, already solved, or solvable;
- the verdict shown to the user;
- the encoder into the 54-letter U,R,F,D,L,B facelet string that a two-phase solver takes;
- the solver front end: the letter-count check, the solved-string short-circuit, reply normalisation and the fallback move list;
- the move-description table;
- the editing and playback session, which holds the cube, the solution, the current step and the last solver error.

The modules follow the source files:

| file | module | source |
|---|---|---|
| `cube_types.dfy` | `CubeTypes` | `src/types/cube.ts` |
| `cube_converter.dfy` | `CubeConverter` | `src/utils/cubeConverter.ts` (except the move descriptions) |
| `move_notation.dfy` | `MoveNotation` | `getMoveDescription` in `src/utils/cubeConverter.ts` |
| `cube_solver.dfy` | `CubeSolver` | `src/utils/cubeSolver.ts` |
| `use_cube.dfy` | `UseCube` | `src/hooks/useCube.ts` |
| `seqs.dfy`, `jsstrings.dfy`, `wrappers.dfy` | `Seqs`, `JsStrings`, `Wrappers` | counting over sequences, the JavaScript string built-ins the core uses (`trim`, `split`, `join`, `includes`, decimal rendering), and `Option`/`Result` |

A face is an unbounded sequence of colours, as the source's array type is. No length is imposed except where a property needs six faces of nine stickers (`WellFormed`). `face[4]` on a short face is `undefined`; the model writes it as `None`.

The colour tallies that the source repeats three times (`isCubeSolved`, `validateCubeState`, `getCubeValidationStatus`) are one loop here, `CubeConverter.TallyColors`. The early-return loops, the tally loop and the letter-count loop of `validateCubeConfiguration` are methods proved against specification predicates (`Solved`, `Valid`, `IsFaceletString`). The session is a class whose handlers update its fields.

The external solving library is the `reply` parameter of the solve handler:
- `Unavailable`: every path that ends in the fallback (the import fails, there is no `solve`, every call throws, or the result is `null`);
- `Text`: a string answer;
- `Record`: an object answer, with its `solution` and `moves` fields.

`Math.floor(Math.random() * 10)` is the `pick` parameter (0..9).

Facts about the code that the model keeps:
- The playback step starts at 0, and `previousStep` stops at 0, so there is no −1 position. This holds although `src/components/SolutionDisplay.tsx` (lines 86 and 129) tests `currentStep < 0`. Every mutation of the cube or the solution resets the step to 0, except the `catch` of the solve handler (see Findings).
- `getCubeValidationStatus` tests "already solved" before unset stickers and colour counts. A solved cube has neither problem, so the order does not change the verdict (`CubeConverter.SolvedImpliesValid`).
- No solver-unavailable error reaches the session. Every library failure inside `solveCube` ends in the fallback list. The only error `solveCube` raises itself is `Invalid cube configuration`, and it cannot happen for a cube the session agrees to solve (`CubeSolver.ValidCubeNotRejected`).

## Model

| member | source | states |
|---|---|---|
| CubeTypes.ColorCode | src/types/cube.ts:1 | the seven colour values; exactly the six real colours have one-letter codes |
| CubeTypes.WithFace | src/types/cube.ts:5-12 | replacing one face of a state changes that face and no other |
| CubeTypes.StickersUnfold | src/utils/cubeConverter.ts:85-91 | the stickers visited by `Object.values(...).forEach` are the faces U, D, F, B, R, L laid end to end |
| CubeTypes.CountColorByFace | src/utils/cubeConverter.ts:85-91 | the whole-cube count of a colour is the sum of the six per-face counts |
| CubeTypes.StickersMembership | src/utils/cubeConverter.ts:46-59 | a colour is on the cube exactly when it is on one of the six faces |
| CubeTypes.EmptyCubeShape | src/types/cube.ts:53-60 | `EMPTY_CUBE` has six faces of nine stickers, all unset (54 `EMPTY`) |
| CubeTypes.SolvedCubeShape | src/types/cube.ts:62-69 | `SOLVED_CUBE` has six nine-sticker faces, each real colour exactly 9 times, no `EMPTY`, and different centres on U/D, F/B and R/L |
| CubeConverter.ColorLetterInjective | src/utils/cubeConverter.ts:14-22 | the colour table is injective on real colours, only sends colours to U,R,F,D,L,B, and gives `EMPTY` white's letter |
| CubeConverter.EncodeFace | src/utils/cubeConverter.ts:25-27 | one letter per sticker, letter i is the table letter of sticker i |
| CubeConverter.KociembaLayout | src/utils/cubeConverter.ts:9-41 | for six nine-sticker faces the encoding has 54 letters, and letter 9k+i is the letter of sticker i of face k in U,R,F,D,L,B order |
| CubeConverter.EncodeFaceLetterCount | src/utils/cubeConverter.ts:14-27 | in an encoded face a real colour's letter occurs once per sticker of that colour, plus once per unset sticker for white's letter |
| CubeConverter.KociembaLetterCount | src/utils/cubeConverter.ts:9-41 | in the whole encoding each real colour's letter occurs as often as the colour, plus the unset stickers for U |
| CubeConverter.KociembaLength | src/utils/cubeConverter.ts:9-41 | the encoding has one letter per sticker |
| CubeConverter.EmptyIffNotStarted | src/utils/cubeConverter.ts:46-59 | `isCubeEmpty` holds exactly when `hasCubeStarted` does not |
| CubeConverter.TallyStep | src/utils/cubeConverter.ts:85-91 | one sticker added to the tally raises its colour's count by one unless it is `EMPTY` |
| CubeConverter.TallyColors | src/utils/cubeConverter.ts:83-91 | the nested loop yields the record that maps each real colour to its count and `EMPTY` to 0 |
| CubeConverter.EmptyCubeNotValid | src/utils/cubeConverter.ts:100-104 | an all-unset cube has wrong counts and is neither solved nor valid |
| CubeConverter.AllNineMeansCountsCorrect | src/utils/cubeConverter.ts:93-94 | `validColors.every(c => colorCounts[c] === 9)` holds exactly when each real colour occurs 9 times |
| CubeConverter.IsCubeSolved | src/utils/cubeConverter.ts:64-95 | returns true iff every face has no `EMPTY` and is one colour, and each real colour occurs exactly 9 times |
| CubeConverter.ValidateCubeState | src/utils/cubeConverter.ts:100-165 | returns true iff the cube is not all-unset, has no `EMPTY`, has each real colour 9 times, and the U/D, F/B, R/L centres differ |
| CubeConverter.MonochromeCount | src/utils/cubeConverter.ts:74-78 | a one-colour face counts its colour once per sticker and nothing else |
| CubeConverter.OppositeCentersDiffer | src/utils/cubeConverter.ts:135-160 | with six one-colour faces, no `EMPTY` and nine of each colour, two opposite faces cannot have equal centres, whatever the face lengths |
| CubeConverter.SolvedImpliesValid | src/utils/cubeConverter.ts:64-165 | `isCubeSolved(s)` implies `validateCubeState(s)` |
| CubeConverter.SolvedCubeSolved | src/types/cube.ts:62-69 | `SOLVED_CUBE` is solved and valid |
| CubeConverter.ValidHas54Stickers | src/utils/cubeConverter.ts:107-128 | a cube that passes the validator has exactly 54 stickers |
| CubeConverter.InvalidCounts | src/utils/cubeConverter.ts:228-229 | the filter keeps exactly the colours whose count is not 9, with their counts, in listing order |
| CubeConverter.WrongCountsExact | src/utils/cubeConverter.ts:228-238 | the wrong-count message lists exactly the real colours whose count is not 9, each with its count, in the order W,Y,R,O,G,B; the list is empty iff the counts are right |
| CubeConverter.GetCubeValidationStatus | src/utils/cubeConverter.ts:170-259 | `isValid` iff valid; `canSolve` iff valid and not solved; `showError` iff not empty and not valid; the message for each branch in order; the `!hasStarted` branch is dead |
| JsStrings.TrimEmptyIffBlank | src/hooks/useCube.ts:51-52 | `trim()` is empty exactly for all-white-space text, and otherwise starts and ends with a visible character |
| JsStrings.JoinSplit | src/utils/cubeSolver.ts:95 | splitting loses nothing: joining the pieces with the separator gives the text back |
| JsStrings.SplitJoin | src/utils/cubeSolver.ts:95 | splitting text joined from pieces without the separator gives the pieces back |
| JsStrings.NatToStringRoundTrip | src/utils/cubeConverter.ts:232 | the count printed in the wrong-count message reads back as the count |
| MoveNotation.GetMoveDescription | src/utils/cubeConverter.ts:264-330 | a listed token gets its table text; any other token gets `Perform move: ` followed by the token |
| MoveNotation.DescriptionsNonEmpty | src/utils/cubeConverter.ts:265-327 | no table text is empty, so the `\|\|` fallback is never taken for a listed token |
| MoveNotation.DescriptionsCoverGrammar | src/utils/cubeConverter.ts:265-327 | the table's keys are exactly the 54 tokens `<base><modifier>`: the bases U,D,R,L,F,B, their `w` forms, M,E,S and x,y,z, each with the modifiers none, `'` or `2` |
| MoveNotation.MoveDescriptionByGrammar | src/utils/cubeConverter.ts:264-330 | a token of that grammar gets its table text and nothing else does |
| CubeSolver.SolverLetter | src/utils/cubeSolver.ts:13-23 | `colorMap[color] \|\| 'U'` is always a face letter |
| CubeSolver.LettersAgree | src/utils/cubeSolver.ts:13-23 | the solver's colour table agrees with the converter's on every colour, `EMPTY` included |
| CubeSolver.ConvertersAgree | src/utils/cubeSolver.ts:11-35 | `convertCubeToSolverFormat` equals `convertToKociembaFormat` on every cube |
| CubeSolver.ValidateCubeConfiguration | src/utils/cubeSolver.ts:38-50 | returns true iff the string has 54 characters and each of U,R,F,D,L,B occurs exactly 9 times |
| CubeSolver.IsCubeSolvable | src/utils/cubeSolver.ts:132-143 | `isCubeSolvable` returns the same answer as `validateCubeConfiguration` |
| CubeSolver.FaceletAlphabet | src/utils/cubeSolver.ts:38-50 | a string that passes the check contains no character other than U,R,F,D,L,B |
| CubeSolver.ValidEncodingPassesSolverCheck | src/utils/cubeSolver.ts:11-50 | for every cube, `validateCubeState` implies that its encoding passes `validateCubeConfiguration` |
| CubeSolver.SolvedCubeEncoding | src/utils/cubeSolver.ts:62 | `SOLVED_CUBE` encodes to exactly `UUUUUUUUURRRRRRRRRFFFFFFFFFDDDDDDDDDLLLLLLLLLBBBBBBBBB` under both encoders |
| CubeSolver.SolvedFaceletsPass | src/utils/cubeSolver.ts:56-63 | the solved string passes the letter-count check, so the short-circuit is reachable |
| CubeSolver.SolvedStringOnlyForSolvedCube | src/utils/cubeSolver.ts:61-69 | a cube of six nine-sticker faces without `EMPTY` encodes to the solved string only if it is `SOLVED_CUBE` |
| CubeSolver.FallbackSolution | src/utils/cubeSolver.ts:117-129 | the fallback ignores the cube: it is a prefix of length 15..24 (15 + pick) of `commonMoves ++ scrambleMoves` |
| CubeSolver.FallbackMovesAreFaceTurns | src/utils/cubeSolver.ts:122-123 | every fallback move is a listed face turn, non-empty, with no space, and its own trim |
| CubeSolver.SplitMoves | src/utils/cubeSolver.ts:95 | every token of a string reply is non-blank and contains no space |
| CubeSolver.SplitMovesExact | src/utils/cubeSolver.ts:95 | the tokens of a string reply are exactly its non-blank space-separated pieces |
| CubeSolver.SplitMovesJoin | src/utils/cubeSolver.ts:95 | moves written out separated by single spaces are read back exactly |
| CubeSolver.SolveCube | src/utils/cubeSolver.ts:53-114 | fails iff the string fails the letter-count check, always with `Invalid cube configuration`; the solved string gives no moves and count 0; only a record reply can give a solution that is not a list; for the other replies the count is the list length and every token is non-blank with no space; for a string reply the tokens are exactly the non-blank pieces of `split(' ')` |
| CubeSolver.SolveCubeFallback | src/utils/cubeSolver.ts:102-113 | with the library unusable the answer is the fallback list and its length, and every move has a table description |
| CubeSolver.ValidCubeNotRejected | src/utils/cubeSolver.ts:56-59 | `solveCube` never rejects the encoding of a cube that passes the validator |
| UseCube.SetSticker | src/hooks/useCube.ts:104-108 | only sticker `index` of the chosen face changes; the face keeps its length, other faces are untouched, and an out-of-range index leaves the cube unchanged |
| UseCube.SetStickerWellFormed | src/hooks/useCube.ts:104-108 | editing one sticker keeps six faces of nine stickers |
| UseCube.ToMoves | src/hooks/useCube.ts:50-53 | one move per token; each notation is the trimmed token and is its own trim; a notation that is a move of the notation grammar gets its table text, any other gets `Perform move: ` followed by it |
| UseCube.MoveOf | src/hooks/useCube.ts:50-53 | the same three facts for one token |
| UseCube.SolveOutcome | src/hooks/useCube.ts:43-63 | a list of tokens installs exactly `ToMoves` of it; a failure carries either the solver's error or the error raised by a solution that is not a list |
| UseCube.UserMessage | src/hooks/useCube.ts:65-74 | messages containing `Invalid cube configuration` get the impossible text, then `not available`/`not found` get the fallback text, anything else is `Solver error: ` + message |
| UseCube.UserMessageExposesError | src/hooks/useCube.ts:65-74 | for every error text: the shown message contains the raw error exactly when the error mentions none of `Invalid cube configuration`, `not available`, `not found`, so the two fixed texts never repeat it |
| UseCube.ImpossibleTextClean | src/hooks/useCube.ts:68-69 | the impossible text does not itself contain `Invalid cube configuration` |
| UseCube.FallbackTextClean | src/hooks/useCube.ts:70-71 | the fallback text contains neither `not found` nor `not available` |
| UseCube.RejectionIsImpossible | src/hooks/useCube.ts:68-69 | the solver's own rejection is reported with the impossible text |
| UseCube.HandlerFailureNeedsUnusableRecord | src/hooks/useCube.ts:34-76 | for a valid cube the `catch` is reached iff the encoding is not the solved string and the library answered a record whose `solution` is not a list |
| UseCube.TextReplyInstallsMoves | src/hooks/useCube.ts:43-53 | a string reply that spells out trimmed, space-free moves joined by single spaces installs exactly those moves, in order, each with its `getMoveDescription` text |
| UseCube.UnsolvedNotSolvedString | src/utils/cubeSolver.ts:61-69 | a complete, valid, unsolved 3x3 cube never takes the solved-string short-circuit |
| UseCube.CubeSession.constructor | src/hooks/useCube.ts:7-12 | the initial state is `EMPTY_CUBE`, no solution, step 0 and no error |
| UseCube.CubeSession.CanSolve | src/hooks/useCube.ts:14-17 | `canSolve && !isSolved` holds iff the cube is valid and not solved |
| UseCube.CubeSession.ResetCube | src/hooks/useCube.ts:83-88 | the cube becomes `EMPTY_CUBE`; solution, step and error are cleared |
| UseCube.CubeSession.SetSolvedCube | src/hooks/useCube.ts:90-95 | the cube becomes `SOLVED_CUBE`; solution, step and error are cleared |
| UseCube.CubeSession.ApplyCubeState | src/hooks/useCube.ts:97-102 | the cube is replaced; solution, step and error are cleared |
| UseCube.CubeSession.UpdateSquare | src/hooks/useCube.ts:104-112 | the cube gets the one-sticker edit; solution, step and error are cleared |
| UseCube.CubeSession.NextStep | src/hooks/useCube.ts:114-118 | from any state: the step goes up by one only when below the last index (so never with no solution); nothing else changes; a step in range stays in range |
| UseCube.CubeSession.PreviousStep | src/hooks/useCube.ts:120-124 | from any state: the step goes down by one only when above 0; nothing else changes; a step in range stays in range |
| UseCube.CubeSession.GoToStep | src/hooks/useCube.ts:126-130 | from any state: the step is set iff 0 <= k < length of the solution, otherwise nothing changes; a step in range stays in range |
| UseCube.CubeSession.UndoLastMove | src/hooks/useCube.ts:132-136 | from any state: when `canUndo` (step > 0) the step goes back one, else nothing changes; a step in range stays in range |
| UseCube.CubeSession.SolveCubeHandler | src/hooks/useCube.ts:24-81 | corrected handler, from any state: it does nothing unless the cube can be solved. Otherwise the cube is unchanged and the step is 0, so the step is in range. Either the library's moves are installed with no error, or the solution is emptied and the classified message is shown |
| UseCube.CubeSession.SolveCubeHandlerAsWritten | src/hooks/useCube.ts:24-81 | the handler as written: same as above, but the `catch` keeps the old step |
| UseCube.StaleStepAfterFailedSolve | src/hooks/useCube.ts:61-63 | for any complete, valid, unsolved 3x3 cube, using the handler as written throughout, the sequence apply, solve (library answers the list `["R", "U"]`), next, solve (record with a non-list `solution`) ends with no solution at step 1, breaking the step invariant |
| UseCube.UndoAfterStaleStep | src/hooks/useCube.ts:132-136 | from that stale state the still-enabled Undo takes the step to 0, which restores the invariant |

## Left out

- User interface: the React components, the 3D view and its drag rotation, the theme, and URL sharing.
- Auto-play and move animation: these are timers inside a React effect. The step bounds they rely on are the session's and are modelled there.
- `isLoading`/`isSolving` and async semantics. Each handler is one atomic step. The stale-closure behaviour of `useCallback` and the interleaving of two solves are not modelled.
- `console.log`/`console.warn`/`console.error` and the `time` field of the solver result (`Date.now()`).
- The external library: its dynamic import and the three `solve` call shapes are the `reply` parameter. Randomness in the fallback is the `pick` parameter.
- CubeSolver.SolveCube: a record whose `solution` is truthy, not an array and has `length === 0` takes the source's "already solved" early return instead of the `catch`. The model treats every non-list `solution` as raising an error.
- CubeSolver.SolveCube: an array `solution` with non-string elements is modelled as a value that is not a list (its `.trim()` throws). Elements are otherwise strings.
- UseCube.UserMessage: the error text is taken as given. The `error.message || error.toString() || 'Unknown error occurred'` chain that produces it is not modelled.
- MoveNotation.GetMoveDescription: the table is a finite map. A JavaScript object lookup would also find inherited members such as `constructor`.
- The validator's count comparisons use the `Object.values` face order U, D, F, B, R, L. The model counts in that same order; the order does not affect any count.

## Findings

| source | as written | input that shows it | evidently intended | confidence | as-written member | corrected member |
|---|---|---|---|---|---|---|
| src/hooks/useCube.ts:61-63 | the `catch` of `solveCubeHandler` empties the solution but leaves `currentStep` unchanged | a valid unsolved 3x3 cube. Solve with the library answering `{ solution: ["R", "U"] }`, call `nextStep` (step 1), then solve again with the library answering `{ solution: "R U" }`. `.map` then throws, so the solution is `[]` and the step is 1, and `canUndo` holds with nothing to undo (Undo then takes the step back to 0) | every other path that sets the solution also resets the step to 0, which keeps the step inside the solution | not executed | UseCube.StaleStepAfterFailedSolve (with UseCube.CubeSession.SolveCubeHandlerAsWritten) | UseCube.CubeSession.SolveCubeHandler |
