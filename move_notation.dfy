/** Human-readable descriptions of move tokens (src/utils/cubeConverter.ts, `getMoveDescription`). */
module MoveNotation {

  /** Quarter and half turns of the six outer faces. */
  const FaceTurns: map<string, string> := map[
    "U" := "Turn the top face clockwise 90\U{00B0}",
    "U'" := "Turn the top face counter-clockwise 90\U{00B0}",
    "U2" := "Turn the top face 180\U{00B0}",
    "D" := "Turn the bottom face clockwise 90\U{00B0}",
    "D'" := "Turn the bottom face counter-clockwise 90\U{00B0}",
    "D2" := "Turn the bottom face 180\U{00B0}",
    "R" := "Turn the right face clockwise 90\U{00B0}",
    "R'" := "Turn the right face counter-clockwise 90\U{00B0}",
    "R2" := "Turn the right face 180\U{00B0}",
    "L" := "Turn the left face clockwise 90\U{00B0}",
    "L'" := "Turn the left face counter-clockwise 90\U{00B0}",
    "L2" := "Turn the left face 180\U{00B0}",
    "F" := "Turn the front face clockwise 90\U{00B0}",
    "F'" := "Turn the front face counter-clockwise 90\U{00B0}",
    "F2" := "Turn the front face 180\U{00B0}",
    "B" := "Turn the back face clockwise 90\U{00B0}",
    "B'" := "Turn the back face counter-clockwise 90\U{00B0}",
    "B2" := "Turn the back face 180\U{00B0}"
  ]

  /** Turns of an outer face together with the layer beneath it. */
  const WideTurns: map<string, string> := map[
    "Uw" := "Turn the top two layers clockwise 90\U{00B0}",
    "Uw'" := "Turn the top two layers counter-clockwise 90\U{00B0}",
    "Uw2" := "Turn the top two layers 180\U{00B0}",
    "Dw" := "Turn the bottom two layers clockwise 90\U{00B0}",
    "Dw'" := "Turn the bottom two layers counter-clockwise 90\U{00B0}",
    "Dw2" := "Turn the bottom two layers 180\U{00B0}",
    "Rw" := "Turn the right two layers clockwise 90\U{00B0}",
    "Rw'" := "Turn the right two layers counter-clockwise 90\U{00B0}",
    "Rw2" := "Turn the right two layers 180\U{00B0}",
    "Lw" := "Turn the left two layers clockwise 90\U{00B0}",
    "Lw'" := "Turn the left two layers counter-clockwise 90\U{00B0}",
    "Lw2" := "Turn the left two layers 180\U{00B0}",
    "Fw" := "Turn the front two layers clockwise 90\U{00B0}",
    "Fw'" := "Turn the front two layers counter-clockwise 90\U{00B0}",
    "Fw2" := "Turn the front two layers 180\U{00B0}",
    "Bw" := "Turn the back two layers clockwise 90\U{00B0}",
    "Bw'" := "Turn the back two layers counter-clockwise 90\U{00B0}",
    "Bw2" := "Turn the back two layers 180\U{00B0}"
  ]

  /** Turns of the three middle layers. */
  const SliceTurns: map<string, string> := map[
    "M" := "Turn the middle layer (between L and R) like L",
    "M'" := "Turn the middle layer (between L and R) like L'",
    "M2" := "Turn the middle layer (between L and R) 180\U{00B0}",
    "E" := "Turn the equatorial layer (between U and D) like D",
    "E'" := "Turn the equatorial layer (between U and D) like D'",
    "E2" := "Turn the equatorial layer (between U and D) 180\U{00B0}",
    "S" := "Turn the standing layer (between F and B) like F",
    "S'" := "Turn the standing layer (between F and B) like F'",
    "S2" := "Turn the standing layer (between F and B) 180\U{00B0}"
  ]

  /** Rotations of the whole cube. */
  const Rotations: map<string, string> := map[
    "x" := "Rotate the entire cube like R",
    "x'" := "Rotate the entire cube like R'",
    "x2" := "Rotate the entire cube like R2",
    "y" := "Rotate the entire cube like U",
    "y'" := "Rotate the entire cube like U'",
    "y2" := "Rotate the entire cube like U2",
    "z" := "Rotate the entire cube like F",
    "z'" := "Rotate the entire cube like F'",
    "z2" := "Rotate the entire cube like F2"
  ]

  /** The fixed description table: the four groups above, 54 entries in all. */
  const Descriptions: map<string, string> := FaceTurns + WideTurns + SliceTurns + Rotations

  /** Base tokens of the notation, group by group, in the table's order. */
  const FaceBases: seq<string> := ["U", "D", "R", "L", "F", "B"]
  const WideBases: seq<string> := ["Uw", "Dw", "Rw", "Lw", "Fw", "Bw"]
  const SliceBases: seq<string> := ["M", "E", "S"]
  const RotationBases: seq<string> := ["x", "y", "z"]
  const Bases: seq<string> := FaceBases + WideBases + SliceBases + RotationBases

  /** Modifiers: none (clockwise quarter turn), prime (counter-clockwise) and 2 (half turn). */
  const Modifiers: seq<string> := ["", "'", "2"]

  /** A token of the grammar `<base><modifier>`. */
  predicate IsMoveToken(m: string) {
    IsTokenOf(Bases, m)
  }

  predicate IsTokenOf(bases: seq<string>, m: string) {
    exists b, q :: b in bases && q in Modifiers && m == b + q
  }

  const GenericPrefix: string := "Perform move: "

  /** `descriptions[move] || `Perform move: ${move}``: the table entry for a listed token, the
      generic text for anything else. */
  function GetMoveDescription(move: string): (d: string)
    ensures move in Descriptions ==> d == Descriptions[move]
    ensures move !in Descriptions ==> d == GenericPrefix + move
  {
    DescriptionsNonEmpty();
    var entry := if move in Descriptions then Descriptions[move] else "";
    if entry != "" then entry else GenericPrefix + move
  }

  /** The lookup by grammar: a token `<base><modifier>` gets its table text, anything else the
      generic text. */
  lemma MoveDescriptionByGrammar(move: string)
    ensures IsMoveToken(move) ==> move in Descriptions && GetMoveDescription(move) == Descriptions[move]
    ensures !IsMoveToken(move) ==> GetMoveDescription(move) == GenericPrefix + move
  {
    DescriptionsCoverGrammar();
  }

  predicate NoEmptyEntry(table: map<string, string>) {
    forall m :: m in table ==> table[m] != ""
  }

  lemma FaceTurnsNonEmpty() ensures NoEmptyEntry(FaceTurns) {}
  lemma WideTurnsNonEmpty() ensures NoEmptyEntry(WideTurns) {}
  lemma SliceTurnsNonEmpty() ensures NoEmptyEntry(SliceTurns) {}
  lemma RotationsNonEmpty() ensures NoEmptyEntry(Rotations) {}

  /** Every table entry is a non-empty string, so the `||` in the lookup never falls through for
      a listed token. */
  lemma DescriptionsNonEmpty()
    ensures NoEmptyEntry(Descriptions)
  {
    FaceTurnsNonEmpty();
    WideTurnsNonEmpty();
    SliceTurnsNonEmpty();
    RotationsNonEmpty();
  }

  /** The keys of `FaceTurns` are the tokens built from `FaceBases`. */
  lemma FaceTurnsKeys()
    ensures forall m :: m in FaceTurns <==> IsTokenOf(FaceBases, m)
  {
    assert "U" + "" == "U";
    assert "U" + "'" == "U'";
    assert "U" + "2" == "U2";
    assert "D" + "" == "D";
    assert "D" + "'" == "D'";
    assert "D" + "2" == "D2";
    assert "R" + "" == "R";
    assert "R" + "'" == "R'";
    assert "R" + "2" == "R2";
    assert "L" + "" == "L";
    assert "L" + "'" == "L'";
    assert "L" + "2" == "L2";
    assert "F" + "" == "F";
    assert "F" + "'" == "F'";
    assert "F" + "2" == "F2";
    assert "B" + "" == "B";
    assert "B" + "'" == "B'";
    assert "B" + "2" == "B2";
    forall m | m in FaceTurns ensures IsTokenOf(FaceBases, m) {
      if m == "U" {
        assert m == "U" + "";
      } else if m == "U'" {
        assert m == "U" + "'";
      } else if m == "U2" {
        assert m == "U" + "2";
      } else if m == "D" {
        assert m == "D" + "";
      } else if m == "D'" {
        assert m == "D" + "'";
      } else if m == "D2" {
        assert m == "D" + "2";
      } else if m == "R" {
        assert m == "R" + "";
      } else if m == "R'" {
        assert m == "R" + "'";
      } else if m == "R2" {
        assert m == "R" + "2";
      } else if m == "L" {
        assert m == "L" + "";
      } else if m == "L'" {
        assert m == "L" + "'";
      } else if m == "L2" {
        assert m == "L" + "2";
      } else if m == "F" {
        assert m == "F" + "";
      } else if m == "F'" {
        assert m == "F" + "'";
      } else if m == "F2" {
        assert m == "F" + "2";
      } else if m == "B" {
        assert m == "B" + "";
      } else if m == "B'" {
        assert m == "B" + "'";
      } else if m == "B2" {
        assert m == "B" + "2";
      }
    }
  }

  /** The keys of `WideTurns` are the tokens built from `WideBases`. */
  lemma WideTurnsKeys()
    ensures forall m :: m in WideTurns <==> IsTokenOf(WideBases, m)
  {
    assert "Uw" + "" == "Uw";
    assert "Uw" + "'" == "Uw'";
    assert "Uw" + "2" == "Uw2";
    assert "Dw" + "" == "Dw";
    assert "Dw" + "'" == "Dw'";
    assert "Dw" + "2" == "Dw2";
    assert "Rw" + "" == "Rw";
    assert "Rw" + "'" == "Rw'";
    assert "Rw" + "2" == "Rw2";
    assert "Lw" + "" == "Lw";
    assert "Lw" + "'" == "Lw'";
    assert "Lw" + "2" == "Lw2";
    assert "Fw" + "" == "Fw";
    assert "Fw" + "'" == "Fw'";
    assert "Fw" + "2" == "Fw2";
    assert "Bw" + "" == "Bw";
    assert "Bw" + "'" == "Bw'";
    assert "Bw" + "2" == "Bw2";
    forall m | m in WideTurns ensures IsTokenOf(WideBases, m) {
      if m == "Uw" {
        assert m == "Uw" + "";
      } else if m == "Uw'" {
        assert m == "Uw" + "'";
      } else if m == "Uw2" {
        assert m == "Uw" + "2";
      } else if m == "Dw" {
        assert m == "Dw" + "";
      } else if m == "Dw'" {
        assert m == "Dw" + "'";
      } else if m == "Dw2" {
        assert m == "Dw" + "2";
      } else if m == "Rw" {
        assert m == "Rw" + "";
      } else if m == "Rw'" {
        assert m == "Rw" + "'";
      } else if m == "Rw2" {
        assert m == "Rw" + "2";
      } else if m == "Lw" {
        assert m == "Lw" + "";
      } else if m == "Lw'" {
        assert m == "Lw" + "'";
      } else if m == "Lw2" {
        assert m == "Lw" + "2";
      } else if m == "Fw" {
        assert m == "Fw" + "";
      } else if m == "Fw'" {
        assert m == "Fw" + "'";
      } else if m == "Fw2" {
        assert m == "Fw" + "2";
      } else if m == "Bw" {
        assert m == "Bw" + "";
      } else if m == "Bw'" {
        assert m == "Bw" + "'";
      } else if m == "Bw2" {
        assert m == "Bw" + "2";
      }
    }
  }

  /** The keys of `SliceTurns` are the tokens built from `SliceBases`. */
  lemma SliceTurnsKeys()
    ensures forall m :: m in SliceTurns <==> IsTokenOf(SliceBases, m)
  {
    assert "M" + "" == "M";
    assert "M" + "'" == "M'";
    assert "M" + "2" == "M2";
    assert "E" + "" == "E";
    assert "E" + "'" == "E'";
    assert "E" + "2" == "E2";
    assert "S" + "" == "S";
    assert "S" + "'" == "S'";
    assert "S" + "2" == "S2";
    forall m | m in SliceTurns ensures IsTokenOf(SliceBases, m) {
      if m == "M" {
        assert m == "M" + "";
      } else if m == "M'" {
        assert m == "M" + "'";
      } else if m == "M2" {
        assert m == "M" + "2";
      } else if m == "E" {
        assert m == "E" + "";
      } else if m == "E'" {
        assert m == "E" + "'";
      } else if m == "E2" {
        assert m == "E" + "2";
      } else if m == "S" {
        assert m == "S" + "";
      } else if m == "S'" {
        assert m == "S" + "'";
      } else if m == "S2" {
        assert m == "S" + "2";
      }
    }
  }

  /** The keys of `Rotations` are the tokens built from `RotationBases`. */
  lemma RotationsKeys()
    ensures forall m :: m in Rotations <==> IsTokenOf(RotationBases, m)
  {
    assert "x" + "" == "x";
    assert "x" + "'" == "x'";
    assert "x" + "2" == "x2";
    assert "y" + "" == "y";
    assert "y" + "'" == "y'";
    assert "y" + "2" == "y2";
    assert "z" + "" == "z";
    assert "z" + "'" == "z'";
    assert "z" + "2" == "z2";
    forall m | m in Rotations ensures IsTokenOf(RotationBases, m) {
      if m == "x" {
        assert m == "x" + "";
      } else if m == "x'" {
        assert m == "x" + "'";
      } else if m == "x2" {
        assert m == "x" + "2";
      } else if m == "y" {
        assert m == "y" + "";
      } else if m == "y'" {
        assert m == "y" + "'";
      } else if m == "y2" {
        assert m == "y" + "2";
      } else if m == "z" {
        assert m == "z" + "";
      } else if m == "z'" {
        assert m == "z" + "'";
      } else if m == "z2" {
        assert m == "z" + "2";
      }
    }
  }

  lemma TokenOfAppend(a: seq<string>, b: seq<string>, m: string)
    ensures IsTokenOf(a + b, m) <==> IsTokenOf(a, m) || IsTokenOf(b, m)
  {
    if IsTokenOf(a + b, m) {
      var x, q :| x in a + b && q in Modifiers && m == x + q;
      assert x in a || x in b;
    }
  }

  /** The table lists exactly the 54 tokens of the grammar `<base><modifier>`. */
  lemma DescriptionsCoverGrammar()
    ensures forall m :: m in Descriptions <==> IsMoveToken(m)
  {
    FaceTurnsKeys();
    WideTurnsKeys();
    SliceTurnsKeys();
    RotationsKeys();
    UnionKeys(FaceTurns, WideTurns, SliceTurns, Rotations, FaceBases, WideBases, SliceBases, RotationBases);
  }

  /** Gluing tables whose keys are the tokens of some bases gives the table of all those bases. */
  lemma UnionKeys(t1: map<string, string>, t2: map<string, string>, t3: map<string, string>,
                  t4: map<string, string>, b1: seq<string>, b2: seq<string>, b3: seq<string>, b4: seq<string>)
    requires forall m :: m in t1 <==> IsTokenOf(b1, m)
    requires forall m :: m in t2 <==> IsTokenOf(b2, m)
    requires forall m :: m in t3 <==> IsTokenOf(b3, m)
    requires forall m :: m in t4 <==> IsTokenOf(b4, m)
    ensures forall m :: m in t1 + t2 + t3 + t4 <==> IsTokenOf(b1 + b2 + b3 + b4, m)
  {
    forall m ensures m in t1 + t2 + t3 + t4 <==> IsTokenOf(b1 + b2 + b3 + b4, m) {
      TokenOfAppend(b1, b2, m);
      TokenOfAppend(b1 + b2, b3, m);
      TokenOfAppend(b1 + b2 + b3, b4, m);
    }
  }
}
