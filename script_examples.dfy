/**
 * A two-item instance, `W = 8`, items 4 x 3 and 4 x 5: the text of some of its
 * commands, and a placement that satisfies its whole script.
 */
module ScriptExamples {
  import opened Decimal
  import opened Text
  import opened Instances
  import opened SmtLib
  import opened BuildModels

  function Small(): Instance {
    Instance(8, 2, [4, 4], [3, 5])
  }

  /** The commands are written exactly in the program's text form. */
  lemma SmallRenderHead()
    ensures Render(SetLogic("LIA")) == "(set-logic LIA)"
    ensures Render(DeclareInt(CoordX(1))) == "(declare-fun coord_x1 () Int)"
  {
    assert NatToString(1) == "1";
  }

  lemma SmallRenderDomain()
    ensures Render(DomainL(Small())) == "(assert (and (>= l 4) (<= l 8)))"
  {
    SmallBounds();
    assert DomainL(Small()) == Assert(And(Ge(Ref(L), Num(4)), Le(Ref(L), Num(8))));
    SmallRenderBounds();
  }

  lemma SmallRenderBounds()
    ensures Render(Assert(And(Ge(Ref(L), Num(4)), Le(Ref(L), Num(8))))) == "(assert (and (>= l 4) (<= l 8)))"
  {
    SmallRenderLowest();
    SmallRenderHighest();
  }

  lemma SmallRenderLowest()
    ensures RenderFormula(Ge(Ref(L), Num(4))) == "(>= l 4)"
  {
    assert IntToString(4) == "4";
  }

  lemma SmallRenderHighest()
    ensures RenderFormula(Le(Ref(L), Num(8))) == "(<= l 8)"
  {
    assert IntToString(8) == "8";
  }

  /** The constant names and numerals the non-overlap line of items 0 and 1 uses. */
  lemma SmallNames()
    ensures VarName(CoordX(0)) == "coord_x0" && VarName(CoordX(1)) == "coord_x1"
    ensures VarName(CoordY(0)) == "coord_y0" && VarName(CoordY(1)) == "coord_y1"
    ensures IntToString(3) == "3" && IntToString(4) == "4" && IntToString(5) == "5"
  {
    assert NatToString(0) == "0" && NatToString(1) == "1";
  }

  lemma SmallRenderOffsets()
    ensures RenderTerm(Plus(X(0), Num(4))) == "(+ coord_x0 4)"
    ensures RenderTerm(Plus(Y(0), Num(3))) == "(+ coord_y0 3)"
    ensures RenderTerm(Minus(X(0), Num(4))) == "(- coord_x0 4)"
    ensures RenderTerm(Minus(Y(0), Num(5))) == "(- coord_y0 5)"
  {
    SmallNames();
  }

  lemma SmallRenderLeft()
    ensures RenderFormula(Le(Plus(X(0), Num(4)), X(1))) == "(<= (+ coord_x0 4) coord_x1)"
  {
    SmallNames();
    SmallRenderOffsets();
  }

  lemma SmallRenderBelow()
    ensures RenderFormula(Le(Plus(Y(0), Num(3)), Y(1))) == "(<= (+ coord_y0 3) coord_y1)"
  {
    SmallNames();
    SmallRenderOffsets();
  }

  lemma SmallRenderRight()
    ensures RenderFormula(Ge(Minus(X(0), Num(4)), X(1))) == "(>= (- coord_x0 4) coord_x1)"
  {
    SmallNames();
    SmallRenderOffsets();
  }

  lemma SmallRenderAbove()
    ensures RenderFormula(Ge(Minus(Y(0), Num(5)), Y(1))) == "(>= (- coord_y0 5) coord_y1)"
  {
    SmallNames();
    SmallRenderOffsets();
  }

  /** Four parts joined by blanks, as `" ".join` writes them. */
  lemma JoinFour(a: string, b: string, c: string, d: string)
    ensures Join(" ", [a, b, c, d]) == a + " " + (b + " " + (c + " " + d))
  {
    assert [c, d][1..] == [d];
    assert Join(" ", [c, d]) == c + " " + d;
    assert [b, c, d][1..] == [c, d];
    assert Join(" ", [b, c, d]) == b + " " + Join(" ", [c, d]);
    assert [a, b, c, d][1..] == [b, c, d];
    assert Join(" ", [a, b, c, d]) == a + " " + Join(" ", [b, c, d]);
  }

  /** A four-way disjunction is written as its disjuncts between `(or` and `)`. */
  lemma RenderOrFour(f0: Formula, f1: Formula, f2: Formula, f3: Formula)
    ensures RenderFormula(Or([f0, f1, f2, f3]))
            == "(or " + (RenderFormula(f0) + " " + (RenderFormula(f1) + " " + (RenderFormula(f2)
               + " " + RenderFormula(f3)))) + ")"
  {
    var ps := [f0, f1, f2, f3];
    var parts := seq(|ps|, k requires 0 <= k < |ps| => RenderFormula(ps[k]));
    assert parts == [RenderFormula(f0), RenderFormula(f1), RenderFormula(f2), RenderFormula(f3)];
    JoinFour(parts[0], parts[1], parts[2], parts[3]);
  }

  lemma SmallRenderDisjunction()
    ensures RenderFormula(NonOverlap(Small(), 0, 1).f)
            == "(or " + ("(<= (+ coord_x0 4) coord_x1)" + " " + ("(<= (+ coord_y0 3) coord_y1)"
               + " " + ("(>= (- coord_x0 4) coord_x1)" + " " + "(>= (- coord_y0 5) coord_y1)"))) + ")"
  {
    assert NonOverlap(Small(), 0, 1).f
        == Or([Le(Plus(X(0), Num(4)), X(1)), Le(Plus(Y(0), Num(3)), Y(1)),
               Ge(Minus(X(0), Num(4)), X(1)), Ge(Minus(Y(0), Num(5)), Y(1))]);
    RenderOrFour(Le(Plus(X(0), Num(4)), X(1)), Le(Plus(Y(0), Num(3)), Y(1)),
                 Ge(Minus(X(0), Num(4)), X(1)), Ge(Minus(Y(0), Num(5)), Y(1)));
    SmallRenderLeft();
    SmallRenderBelow();
    SmallRenderRight();
    SmallRenderAbove();
  }

  lemma SmallRenderNonOverlap()
    ensures Render(NonOverlap(Small(), 0, 1))
            == "(assert " + ("(or " + ("(<= (+ coord_x0 4) coord_x1)" + " " + ("(<= (+ coord_y0 3) coord_y1)"
               + " " + ("(>= (- coord_x0 4) coord_x1)" + " " + "(>= (- coord_y0 5) coord_y1)"))) + ")") + ")"
  {
    SmallRenderDisjunction();
  }

  /** The `y` and `l` declarations, whose `x` counterpart `SmallRenderHead` shows. */
  lemma SmallRenderDeclarations()
    ensures Render(DeclareInt(CoordY(1))) == "(declare-fun " + "coord_y1" + " () Int)"
    ensures Render(DeclareInt(L)) == "(declare-fun " + "l" + " () Int)"
  {
    SmallNames();
  }

  /** `x0` ranges over `0 .. W - min(widths) = 4`, `y0` over `0 .. l_up - min(heights) = 5`. */
  lemma SmallRenderDomainXY()
    ensures Render(DomainX(Small(), 0))
            == "(assert " + ("(and " + ("(>= " + "coord_x0" + " " + "0" + ")") + " " + ("(<= " + "coord_x0" + " " + "4" + ")") + ")") + ")"
    ensures Render(DomainY(Small(), 0))
            == "(assert " + ("(and " + ("(>= " + "coord_y0" + " " + "0" + ")") + " " + ("(<= " + "coord_y0" + " " + "5" + ")") + ")") + ")"
  {
    SmallBounds();
    SmallNames();
    assert IntToString(0) == "0";
  }

  /** Item 0 ends inside the strip: `(+ coord_x0 4)` at most `8`, `(+ coord_y0 3)` at most `l`. */
  lemma SmallRenderBoundary()
    ensures Render(Boundary(Small(), 0))
            == "(assert " + ("(and " + ("(<= " + "(+ coord_x0 4)" + " " + "8" + ")")
               + " " + ("(<= " + "(+ coord_y0 3)" + " " + "l" + ")") + ")") + ")"
  {
    SmallRenderOffsets();
    assert IntToString(8) == "8";
  }

  /** Items 0 and 1 differ in height, so their ordering clause is guarded by a false test. */
  lemma SmallRenderSameSize()
    ensures Render(SameSize(Small(), 0, 1))
            == "(assert " + ("(ite " + ("(and " + ("(= " + "4" + " " + "4" + ")") + " " + ("(= " + "3" + " " + "5" + ")") + ")")
               + " " + ("(<= " + "coord_x0" + " " + "coord_x1" + ")") + " " + "true" + ")") + ")"
  {
    SmallNames();
  }

  /** Two parts joined by a blank. */
  lemma JoinTwo(a: string, b: string)
    ensures Join(" ", [a, b]) == a + " " + b
  {
    assert [a, b][1..] == [b];
  }

  /** A sum of two summands is written as both between `(+` and `)`. */
  lemma RenderSumTwo(t0: Term, t1: Term)
    ensures RenderTerm(Sum([t0, t1])) == "(+ " + (RenderTerm(t0) + " " + RenderTerm(t1)) + ")"
  {
    var ts := [t0, t1];
    assert seq(|ts|, k requires 0 <= k < |ts| => RenderTerm(ts[k])) == [RenderTerm(t0), RenderTerm(t1)];
    JoinTwo(RenderTerm(t0), RenderTerm(t1));
  }

  /** The summands of a two-item sweep, in item order. */
  lemma TwoSummands(inst: Instance, axis: Axis, level: int)
    requires inst.Shaped() && inst.n == 2
    ensures seq(inst.n, i requires 0 <= i < inst.n => UsageAt(inst, axis, level, i))
            == [UsageAt(inst, axis, level, 0), UsageAt(inst, axis, level, 1)]
  {
  }

  /** Item 0 adds its width 4 to the sweep at height 4 when `coord_y0 <= 4 < coord_y0 + 3`. */
  lemma SmallRenderAlong0()
    ensures RenderTerm(UsageAt(Small(), Vertical, 4, 0))
            == "(ite " + ("(and " + ("(<= " + "coord_y0" + " " + "4" + ")") + " "
               + ("(< " + "4" + " " + ("(+ " + "coord_y0" + " " + "3" + ")") + ")") + ")") + " " + "4" + " " + "0" + ")"
  {
    SmallNames();
    assert IntToString(0) == "0";
  }

  /** Item 1 adds its width 4 to the sweep at height 4 when `coord_y1 <= 4 < coord_y1 + 5`. */
  lemma SmallRenderAlong1()
    ensures RenderTerm(UsageAt(Small(), Vertical, 4, 1))
            == "(ite " + ("(and " + ("(<= " + "coord_y1" + " " + "4" + ")") + " "
               + ("(< " + "4" + " " + ("(+ " + "coord_y1" + " " + "5" + ")") + ")") + ")") + " " + "4" + " " + "0" + ")"
  {
    SmallNames();
    assert IntToString(0) == "0";
  }

  /** Item 0 adds its height 3 to the sweep at x = 3 when `coord_x0 <= 3 < coord_x0 + 4`. */
  lemma SmallRenderAcross0()
    ensures RenderTerm(UsageAt(Small(), Horizontal, 3, 0))
            == "(ite " + ("(and " + ("(<= " + "coord_x0" + " " + "3" + ")") + " "
               + ("(< " + "3" + " " + ("(+ " + "coord_x0" + " " + "4" + ")") + ")") + ")") + " " + "3" + " " + "0" + ")"
  {
    SmallNames();
    assert IntToString(0) == "0";
  }

  /** Item 1 adds its height 5 to the sweep at x = 3 when `coord_x1 <= 3 < coord_x1 + 4`. */
  lemma SmallRenderAcross1()
    ensures RenderTerm(UsageAt(Small(), Horizontal, 3, 1))
            == "(ite " + ("(and " + ("(<= " + "coord_x1" + " " + "3" + ")") + " "
               + ("(< " + "3" + " " + ("(+ " + "coord_x1" + " " + "4" + ")") + ")") + ")") + " " + "5" + " " + "0" + ")"
  {
    SmallNames();
    assert IntToString(0) == "0";
  }

  /** The sweep across the heights at level 4, against `W = 8`. */
  lemma SmallRenderCumulative()
    ensures var u0 := "(ite " + ("(and " + ("(<= " + "coord_y0" + " " + "4" + ")") + " "
                      + ("(< " + "4" + " " + ("(+ " + "coord_y0" + " " + "3" + ")") + ")") + ")") + " " + "4" + " " + "0" + ")";
            var u1 := "(ite " + ("(and " + ("(<= " + "coord_y1" + " " + "4" + ")") + " "
                      + ("(< " + "4" + " " + ("(+ " + "coord_y1" + " " + "5" + ")") + ")") + ")") + " " + "4" + " " + "0" + ")";
            Render(Cumulative(Small(), Vertical, 4)) == "(assert " + ("(<= " + ("(+ " + (u0 + " " + u1) + ")") + " " + "8" + ")") + ")"
  {
    TwoSummands(Small(), Vertical, 4);
    RenderSumTwo(UsageAt(Small(), Vertical, 4, 0), UsageAt(Small(), Vertical, 4, 1));
    SmallRenderAlong0();
    SmallRenderAlong1();
    assert IntToString(8) == "8";
  }

  /** The sweep across the widths at level 3, against `l`. */
  lemma SmallRenderCumulativeAcross()
    ensures var u0 := "(ite " + ("(and " + ("(<= " + "coord_x0" + " " + "3" + ")") + " "
                      + ("(< " + "3" + " " + ("(+ " + "coord_x0" + " " + "4" + ")") + ")") + ")") + " " + "3" + " " + "0" + ")";
            var u1 := "(ite " + ("(and " + ("(<= " + "coord_x1" + " " + "3" + ")") + " "
                      + ("(< " + "3" + " " + ("(+ " + "coord_x1" + " " + "4" + ")") + ")") + ")") + " " + "5" + " " + "0" + ")";
            Render(Cumulative(Small(), Horizontal, 3)) == "(assert " + ("(<= " + ("(+ " + (u0 + " " + u1) + ")") + " " + "l" + ")") + ")"
  {
    TwoSummands(Small(), Horizontal, 3);
    RenderSumTwo(UsageAt(Small(), Horizontal, 3, 0), UsageAt(Small(), Horizontal, 3, 1));
    SmallRenderAcross0();
    SmallRenderAcross1();
  }

  /** The larger item, item 1, is pinned at the origin, and the script closes as the program's does. */
  lemma SmallRenderPins()
    ensures Render(Pins(Small())[0]) == "(assert " + ("(= " + "coord_x1" + " " + "0" + ")") + ")"
    ensures Render(Pins(Small())[1]) == "(assert " + ("(= " + "coord_y1" + " " + "0" + ")") + ")"
    ensures Render(CheckSat) == "(check-sat)" && Render(GetModel) == "(get-model)"
  {
    SmallBounds();
    SmallNames();
    assert IntToString(0) == "0";
  }

  /** Item 1 (the larger) at the origin, item 0 to its right, strip height 5. */
  function SmallModel(): Assignment {
    (v: Var) => match v
         case CoordX(i) => if i == 0 then 4 else 0
         case CoordY(i) => 0
         case L => 5
  }

  lemma SmallBounds()
    ensures Min(Small().widths) == 4 && Min(Small().heights) == 3
    ensures UpperBound(Small()) == 8 && LowerBound(Small()) == 4
    ensures MaxAreaIndex(Small()) == 1
  {
    var inst := Small();
    assert Total([3, 5]) == 8 by {
      assert [3, 5][..1] == [3] && [3][..0] == [];
    }
    assert Areas(inst) == [12, 20];
    assert Total([12, 20]) == 32 by {
      assert [12, 20][..1] == [12] && [12][..0] == [];
    }
    assert inst.widths[..1] == [4];
  }

  lemma SmallCapacity()
    ensures WithinCapacity(Small(), Vertical, Small().widths, SmallModel())
    ensures WithinCapacity(Small(), Horizontal, Small().heights, SmallModel())
  {
    var inst, a := Small(), SmallModel();
    assert UseAt(inst, Vertical, a, 4, 2) == 4;
    assert UseAt(inst, Horizontal, a, 3, 2) == 5;
    assert UseAt(inst, Horizontal, a, 5, 2) == 3;
  }

  lemma SmallGeometry()
    ensures InDomains(Small(), SmallModel())
    ensures NoOverlap(Small(), SmallModel())
    ensures InsideStrip(Small(), SmallModel())
  {
    var inst, a := Small(), SmallModel();
    SmallBounds();
    assert Separated(inst, a, 0, 1);
  }

  lemma SmallSymmetry()
    ensures SameSizeOrdered(Small(), SmallModel())
    ensures LargestAtOrigin(Small(), SmallModel())
  {
    SmallBounds();
  }

  lemma SmallPlacement()
    ensures Placement(Small(), SmallModel())
  {
    SmallGeometry();
    SmallCapacity();
    SmallSymmetry();
  }

  /** The script of the small instance is satisfiable: `SmallModel` is one of its models. */
  lemma SmallSatisfiable()
    ensures Script(Small(), "LIA").Success?
    ensures AllHold(Script(Small(), "LIA").value, SmallModel())
  {
    SmallPlacement();
    ScriptMeaning(Small(), "LIA", SmallModel());
  }
}
