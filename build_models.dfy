/**
 * The SMT-LIB script that encodes one strip-packing instance: `W` is the strip
 * width, item `i` is a `widths[i]` by `heights[i]` rectangle placed with its
 * lower-left corner at (`coord_x{i}`, `coord_y{i}`), and `l` is the strip height.
 *
 * `Script` states, block by block, which commands the script holds;
 * `BuildSmtlibModel` builds the list step by step as the program does, and the
 * lemmas say what the commands mean.
 */
module BuildModels {
  import opened Wrappers
  import opened SmtLib
  import opened Instances

  /** The Python exceptions the builder can raise. */
  datatype BuildError =
    | ZeroDivision   // the area bound divides by a zero strip width
    | EmptyMax       // `max(areas)` of an instance without items

  // ---------------------------------------------------------------------------
  // Arithmetic of the height bounds

  /** Python's `a // b` (rounds toward minus infinity, for either sign of `b`). */
  function FloorDiv(a: int, b: int): int
    requires b != 0
  {
    if b > 0 then a / b else (-a) / (-b)
  }

  /** `math.ceil(a / b)` on exact rationals. */
  function CeilDiv(a: int, b: int): int
    requires b != 0
  {
    -FloorDiv(-a, b)
  }

  /** For a positive divisor the ceiling is the least multiple count covering `a`. */
  lemma CeilDivBounds(a: int, b: int)
    requires b > 0
    ensures b * (CeilDiv(a, b) - 1) < a <= b * CeilDiv(a, b)
  {
    var q := (-a) / b;
    var m := (-a) % b;
    assert -a == b * q + m && 0 <= m < b;
    assert b * (-q) == a + m;
    assert b * (-q - 1) == a + m - b;
  }

  /** Python's `sum(xs)`. */
  function Total(xs: seq<int>): int {
    if |xs| == 0 then 0 else Total(xs[..|xs| - 1]) + xs[|xs| - 1]
  }

  function Areas(inst: Instance): (r: seq<int>)
    requires inst.Shaped()
    ensures |r| == inst.n
  {
    seq(inst.n, i requires 0 <= i < inst.n => inst.widths[i] * inst.heights[i])
  }

  /** `l_low = ceil(sum(w_i * h_i) / W)`. */
  function LowerBound(inst: Instance): int
    requires inst.Shaped() && inst.w != 0
  {
    CeilDiv(Total(Areas(inst)), inst.w)
  }

  /** `l_up = sum(heights)`. */
  function UpperBound(inst: Instance): int {
    Total(inst.heights)
  }

  /** `min(xs)`. */
  function Min(xs: seq<int>): (r: int)
    requires |xs| > 0
    ensures r in xs && forall k :: 0 <= k < |xs| ==> r <= xs[k]
  {
    if |xs| == 1 then xs[0]
    else
      var m := Min(xs[..|xs| - 1]);
      if xs[|xs| - 1] < m then xs[|xs| - 1] else m
  }

  /** `max(xs)`. */
  function Max(xs: seq<int>): (r: int)
    requires |xs| > 0
    ensures r in xs && forall k :: 0 <= k < |xs| ==> xs[k] <= r
  {
    if |xs| == 1 then xs[0]
    else
      var m := Max(xs[..|xs| - 1]);
      if xs[|xs| - 1] > m then xs[|xs| - 1] else m
  }

  /** `xs.index(v)`: the first position holding `v`. */
  function IndexOf(xs: seq<int>, v: int): (r: nat)
    requires v in xs
    ensures r < |xs| && xs[r] == v && forall k :: 0 <= k < r ==> xs[k] != v
  {
    if xs[0] == v then 0 else 1 + IndexOf(xs[1..], v)
  }

  /** `areas.index(max(areas))`: the lowest index among the items of largest area. */
  function MaxAreaIndex(inst: Instance): (m: nat)
    requires inst.Shaped() && inst.n > 0
    ensures m < inst.n
    ensures forall k :: 0 <= k < inst.n ==> Areas(inst)[k] <= Areas(inst)[m]
    ensures forall k :: 0 <= k < m ==> Areas(inst)[k] < Areas(inst)[m]
  {
    IndexOf(Areas(inst), Max(Areas(inst)))
  }

  // ---------------------------------------------------------------------------
  // The commands, one function per kind

  function X(i: nat): Term { Ref(CoordX(i)) }
  function Y(i: nat): Term { Ref(CoordY(i)) }

  function DeclarationsX(n: nat): seq<Command> {
    seq(n, i requires 0 <= i < n => DeclareInt(CoordX(i)))
  }

  function DeclarationsY(n: nat): seq<Command> {
    seq(n, i requires 0 <= i < n => DeclareInt(CoordY(i)))
  }

  /** `0 <= coord_x{i} <= W - min(widths)`. */
  function DomainX(inst: Instance, i: nat): Command
    requires |inst.widths| > 0
  {
    Assert(And(Ge(X(i), Num(0)), Le(X(i), Num(inst.w - Min(inst.widths)))))
  }

  /** `0 <= coord_y{i} <= l_up - min(heights)`. */
  function DomainY(inst: Instance, i: nat): Command
    requires |inst.heights| > 0
  {
    Assert(And(Ge(Y(i), Num(0)), Le(Y(i), Num(UpperBound(inst) - Min(inst.heights)))))
  }

  /** `l_low <= l <= l_up`. */
  function DomainL(inst: Instance): Command
    requires inst.Shaped() && inst.w != 0
  {
    Assert(And(Ge(Ref(L), Num(LowerBound(inst))), Le(Ref(L), Num(UpperBound(inst)))))
  }

  function DomainsX(inst: Instance): seq<Command>
    requires inst.Shaped()
  {
    seq(inst.n, i requires 0 <= i < inst.n => DomainX(inst, i))
  }

  function DomainsY(inst: Instance): seq<Command>
    requires inst.Shaped()
  {
    seq(inst.n, i requires 0 <= i < inst.n => DomainY(inst, i))
  }

  /** Item `i` lies left of, below, right of or above item `j`. */
  function NonOverlap(inst: Instance, i: nat, j: nat): Command
    requires inst.Shaped() && i < inst.n && j < inst.n
  {
    Assert(Or([
      Le(Plus(X(i), Num(inst.widths[i])), X(j)),
      Le(Plus(Y(i), Num(inst.heights[i])), Y(j)),
      Ge(Minus(X(i), Num(inst.widths[j])), X(j)),
      Ge(Minus(Y(i), Num(inst.heights[j])), Y(j))]))
  }

  /** Items of the same size keep their index order along x. */
  function SameSize(inst: Instance, i: nat, j: nat): Command
    requires inst.Shaped() && i < inst.n && j < inst.n
  {
    Assert(Ite(
      And(Equal(Num(inst.widths[i]), Num(inst.widths[j])), Equal(Num(inst.heights[i]), Num(inst.heights[j]))),
      Le(X(i), X(j)),
      True))
  }

  /** Item `i` ends inside the strip: right edge at most `W`, top edge at most `l`. */
  function Boundary(inst: Instance, i: nat): Command
    requires inst.Shaped() && i < inst.n
  {
    Assert(And(Le(Plus(X(i), Num(inst.widths[i])), Num(inst.w)), Le(Plus(Y(i), Num(inst.heights[i])), Ref(L))))
  }

  function Boundaries(inst: Instance): seq<Command>
    requires inst.Shaped()
  {
    seq(inst.n, i requires 0 <= i < inst.n => Boundary(inst, i))
  }

  /**
   * The two cumulative sweeps. `Vertical` crosses the items at a height level and
   * adds up their widths against `W`; `Horizontal` crosses them at an x level and
   * adds up their heights against `l`.
   */
  datatype Axis = Vertical | Horizontal

  /** The constant that places item `i` along the sweep direction. */
  function CoordVar(axis: Axis, i: nat): Var {
    if axis == Vertical then CoordY(i) else CoordX(i)
  }

  function Coord(axis: Axis, i: nat): Term {
    Ref(CoordVar(axis, i))
  }

  /** How far item `i` extends along the sweep direction. */
  function Span(inst: Instance, axis: Axis, i: nat): int
    requires inst.Shaped() && i < inst.n
  {
    if axis == Vertical then inst.heights[i] else inst.widths[i]
  }

  /** What item `i` uses of the capacity where the sweep line crosses it. */
  function Usage(inst: Instance, axis: Axis, i: nat): int
    requires inst.Shaped() && i < inst.n
  {
    if axis == Vertical then inst.widths[i] else inst.heights[i]
  }

  function Capacity(inst: Instance, axis: Axis): Term {
    if axis == Vertical then Num(inst.w) else Ref(L)
  }

  /** `(ite (and (<= c level) (< level (+ c span))) usage 0)` for item `i`. */
  function UsageAt(inst: Instance, axis: Axis, level: int, i: nat): Term
    requires inst.Shaped() && i < inst.n
  {
    IfThen(And(Le(Coord(axis, i), Num(level)), Lt(Num(level), Plus(Coord(axis, i), Num(Span(inst, axis, i))))),
           Num(Usage(inst, axis, i)), Num(0))
  }

  function Cumulative(inst: Instance, axis: Axis, level: int): Command
    requires inst.Shaped()
  {
    Assert(Le(Sum(seq(inst.n, i requires 0 <= i < inst.n => UsageAt(inst, axis, level, i))), Capacity(inst, axis)))
  }

  /** One cumulative assertion per level, in order, duplicates included. */
  function Cumulatives(inst: Instance, axis: Axis, levels: seq<int>): (r: seq<Command>)
    requires inst.Shaped()
    ensures |r| == |levels|
  {
    seq(|levels|, k requires 0 <= k < |levels| => Cumulative(inst, axis, levels[k]))
  }

  // ---------------------------------------------------------------------------
  // Pairs i < j, in the order of the two nested loops

  /** The pairs `(i, j)` with `i < j < bound`, by increasing `j`. */
  function RowUpTo(i: nat, bound: nat): (r: seq<(nat, nat)>)
    ensures |r| == if bound > i then bound - i - 1 else 0
  {
    seq(if bound > i then bound - i - 1 else 0, k requires 0 <= k => (i, i + 1 + k))
  }

  /** All pairs `(i, j)` with `i < rows` and `i < j < n`, row after row. */
  function PairsBefore(n: nat, rows: nat): seq<(nat, nat)> {
    if rows == 0 then [] else PairsBefore(n, rows - 1) + RowUpTo(rows - 1, n)
  }

  function Pairs(n: nat): seq<(nat, nat)> {
    PairsBefore(n, n)
  }

  predicate PairsBelow(n: nat, ps: seq<(nat, nat)>) {
    forall k :: 0 <= k < |ps| ==> ps[k].0 < ps[k].1 < n
  }

  datatype PairKind = NonOverlapping | SameSizeOrder

  function PairCommand(inst: Instance, kind: PairKind, i: nat, j: nat): Command
    requires inst.Shaped() && i < inst.n && j < inst.n
  {
    if kind == NonOverlapping then NonOverlap(inst, i, j) else SameSize(inst, i, j)
  }

  function PairBlock(inst: Instance, kind: PairKind, ps: seq<(nat, nat)>): (r: seq<Command>)
    requires inst.Shaped() && PairsBelow(inst.n, ps)
    ensures |r| == |ps|
  {
    seq(|ps|, k requires 0 <= k < |ps| => PairCommand(inst, kind, ps[k].0, ps[k].1))
  }

  // ---------------------------------------------------------------------------
  // The whole script

  function Declarations(n: nat): seq<Command> {
    DeclarationsX(n) + DeclarationsY(n) + [DeclareInt(L)]
  }

  function Domains(inst: Instance): seq<Command>
    requires inst.Shaped() && inst.w != 0
  {
    DomainsX(inst) + DomainsY(inst) + [DomainL(inst)]
  }

  function Pins(inst: Instance): seq<Command>
    requires inst.Shaped() && inst.n > 0
  {
    var m := MaxAreaIndex(inst);
    [Assert(Equal(X(m), Num(0))), Assert(Equal(Y(m), Num(0)))]
  }

  /**
   * The command list `build_SMTLIB_model` writes out, or the exception it raises.
   */
  function Script(inst: Instance, logic: string): Result<seq<Command>, BuildError>
    requires inst.Shaped()
  {
    if inst.w == 0 then Failure(ZeroDivision)
    else if inst.n == 0 then Failure(EmptyMax)
    else
      PairsBelowN(inst.n);
      Success([SetLogic(logic)] + Declarations(inst.n) + Domains(inst)
              + PairBlock(inst, NonOverlapping, Pairs(inst.n))
              + Boundaries(inst)
              + Cumulatives(inst, Vertical, inst.widths)
              + Cumulatives(inst, Horizontal, inst.heights)
              + PairBlock(inst, SameSizeOrder, Pairs(inst.n))
              + Pins(inst)
              + [CheckSat, GetModel])
  }

  // ---------------------------------------------------------------------------
  // The builder, step by step

  method BuildSmtlibModel(inst: Instance, logic: string) returns (r: Result<seq<Command>, BuildError>)
    requires inst.Shaped()
    ensures r == Script(inst, logic)
  {
    var n := inst.n;
    if inst.w == 0 {
      return Failure(ZeroDivision);
    }
    var lines: seq<Command> := [];
    lines := lines + [SetLogic(logic)];
    lines := lines + DeclarationsX(n);
    lines := lines + DeclarationsY(n);
    lines := lines + [DeclareInt(L)];
    lines := lines + DomainsX(inst);
    lines := lines + DomainsY(inst);
    lines := lines + [DomainL(inst)];
    ghost var head := lines;
    assert head == [SetLogic(logic)] + Declarations(n) + Domains(inst);
    lines := AppendPairs(inst, NonOverlapping, lines);
    lines := lines + Boundaries(inst);
    lines := AppendCumulatives(inst, Vertical, inst.widths, lines);
    lines := AppendCumulatives(inst, Horizontal, inst.heights, lines);
    lines := AppendPairs(inst, SameSizeOrder, lines);
    ghost var body := lines;
    assert body == head + PairBlock(inst, NonOverlapping, Pairs(n)) + Boundaries(inst)
                   + Cumulatives(inst, Vertical, inst.widths) + Cumulatives(inst, Horizontal, inst.heights)
                   + PairBlock(inst, SameSizeOrder, Pairs(n));
    if n == 0 {
      return Failure(EmptyMax);
    }
    var m := MaxAreaIndex(inst);
    lines := lines + [Assert(Equal(X(m), Num(0)))];
    lines := lines + [Assert(Equal(Y(m), Num(0)))];
    lines := lines + [CheckSat];
    lines := lines + [GetModel];
    assert lines == body + Pins(inst) + [CheckSat, GetModel];
    r := Success(lines);
  }

  /** The nested `for i / for j / if i < j` loops: one command per pair, appended in order. */
  method AppendPairs(inst: Instance, kind: PairKind, lines0: seq<Command>) returns (lines: seq<Command>)
    requires inst.Shaped()
    ensures PairsBelow(inst.n, Pairs(inst.n))
    ensures lines == lines0 + PairBlock(inst, kind, Pairs(inst.n))
  {
    var n := inst.n;
    lines := lines0;
    ghost var ps: seq<(nat, nat)> := [];
    var i := 0;
    while i < n
      invariant 0 <= i <= n
      invariant ps == PairsBefore(n, i) && PairsBelow(n, ps)
      invariant lines == lines0 + PairBlock(inst, kind, ps)
    {
      var j := 0;
      while j < n
        invariant 0 <= j <= n
        invariant ps == PairsBefore(n, i) + RowUpTo(i, j) && PairsBelow(n, ps)
        invariant lines == lines0 + PairBlock(inst, kind, ps)
      {
        if i < j {
          PairBlockSnoc(inst, kind, ps, i, j);
          lines := lines + [PairCommand(inst, kind, i, j)];
          ps := ps + [(i, j)];
        }
        RowUpToStep(i, j);
        j := j + 1;
      }
      i := i + 1;
    }
  }

  /** The `for w in widths` / `for h in heights` loops: one cumulative assertion per level. */
  method AppendCumulatives(inst: Instance, axis: Axis, levels: seq<int>, lines0: seq<Command>)
    returns (lines: seq<Command>)
    requires inst.Shaped()
    ensures lines == lines0 + Cumulatives(inst, axis, levels)
  {
    lines := lines0;
    var k := 0;
    while k < |levels|
      invariant 0 <= k <= |levels|
      invariant lines == lines0 + Cumulatives(inst, axis, levels[..k])
    {
      CumulativesSnoc(inst, axis, levels[..k], levels[k]);
      assert levels[..k + 1] == levels[..k] + [levels[k]];
      lines := lines + [Cumulative(inst, axis, levels[k])];
      k := k + 1;
    }
    assert levels[..k] == levels;
  }

  lemma RowUpToStep(i: nat, j: nat)
    ensures RowUpTo(i, j + 1) == if i < j then RowUpTo(i, j) + [(i, j)] else RowUpTo(i, j)
  {
    if i < j {
      assert RowUpTo(i, j + 1)[j - i - 1] == (i, j);
    }
  }

  lemma PairBlockSnoc(inst: Instance, kind: PairKind, ps: seq<(nat, nat)>, i: nat, j: nat)
    requires inst.Shaped() && PairsBelow(inst.n, ps) && i < j < inst.n
    ensures PairsBelow(inst.n, ps + [(i, j)])
    ensures PairBlock(inst, kind, ps + [(i, j)]) == PairBlock(inst, kind, ps) + [PairCommand(inst, kind, i, j)]
  {
    assert forall k :: 0 <= k < |ps| ==> (ps + [(i, j)])[k] == ps[k];
  }

  lemma CumulativesSnoc(inst: Instance, axis: Axis, levels: seq<int>, v: int)
    requires inst.Shaped()
    ensures Cumulatives(inst, axis, levels + [v]) == Cumulatives(inst, axis, levels) + [Cumulative(inst, axis, v)]
  {
    assert forall k :: 0 <= k < |levels| ==> (levels + [v])[k] == levels[k];
  }

  /** Every pair of the enumeration has `i < j < n`, and every such pair occurs. */
  lemma {:induction false} PairsBeforeMembers(n: nat, rows: nat)
    requires rows <= n
    ensures PairsBelow(n, PairsBefore(n, rows))
    ensures forall i: nat, j: nat :: (i, j) in PairsBefore(n, rows) <==> i < rows && i < j < n
  {
    if rows > 0 {
      PairsBeforeMembers(n, rows - 1);
      var row := RowUpTo(rows - 1, n);
      forall i: nat, j: nat ensures (i, j) in row <==> i == rows - 1 && i < j < n {
        if i == rows - 1 && i < j < n {
          assert row[j - i - 1] == (i, j);
        }
      }
    }
  }

  lemma PairsBelowN(n: nat)
    ensures PairsBelow(n, Pairs(n))
  {
    PairsBeforeMembers(n, n);
  }

  // ---------------------------------------------------------------------------
  // What the commands mean under an assignment of the constants

  /** Item `i` lies left of, below, right of or above item `j`. */
  predicate Separated(inst: Instance, a: Assignment, i: nat, j: nat)
    requires inst.Shaped() && i < inst.n && j < inst.n
  {
    || a(CoordX(i)) + inst.widths[i] <= a(CoordX(j))
    || a(CoordY(i)) + inst.heights[i] <= a(CoordY(j))
    || a(CoordX(j)) + inst.widths[j] <= a(CoordX(i))
    || a(CoordY(j)) + inst.heights[j] <= a(CoordY(i))
  }

  lemma NonOverlapMeaning(inst: Instance, i: nat, j: nat, a: Assignment)
    requires inst.Shaped() && i < inst.n && j < inst.n
    ensures Holds(NonOverlap(inst, i, j), a) <==> Separated(inst, a, i, j)
  {
    var f0 := Le(Plus(X(i), Num(inst.widths[i])), X(j));
    var f1 := Le(Plus(Y(i), Num(inst.heights[i])), Y(j));
    var f2 := Ge(Minus(X(i), Num(inst.widths[j])), X(j));
    var f3 := Ge(Minus(Y(i), Num(inst.heights[j])), Y(j));
    var ps := [f0, f1, f2, f3];
    assert NonOverlap(inst, i, j) == Assert(Or(ps));
    assert EvalTerm(Plus(X(i), Num(inst.widths[i])), a) == a(CoordX(i)) + inst.widths[i];
    assert EvalTerm(Plus(Y(i), Num(inst.heights[i])), a) == a(CoordY(i)) + inst.heights[i];
    assert EvalTerm(Minus(X(i), Num(inst.widths[j])), a) == a(CoordX(i)) - inst.widths[j];
    assert EvalTerm(Minus(Y(i), Num(inst.heights[j])), a) == a(CoordY(i)) - inst.heights[j];
    assert EvalTerm(X(j), a) == a(CoordX(j)) && EvalTerm(Y(j), a) == a(CoordY(j));
    assert EvalFormula(f0, a) == (a(CoordX(i)) + inst.widths[i] <= a(CoordX(j)));
    assert EvalFormula(f1, a) == (a(CoordY(i)) + inst.heights[i] <= a(CoordY(j)));
    assert EvalFormula(f2, a) == (a(CoordX(i)) - inst.widths[j] >= a(CoordX(j)));
    assert EvalFormula(f3, a) == (a(CoordY(i)) - inst.heights[j] >= a(CoordY(j)));
    assert AnyHolds(ps, a) <==> AnyHolds([f0, f1, f2], a) || EvalFormula(f3, a) by {
      assert ps[..3] == [f0, f1, f2];
    }
    assert AnyHolds([f0, f1, f2], a) <==> AnyHolds([f0, f1], a) || EvalFormula(f2, a) by {
      assert [f0, f1, f2][..2] == [f0, f1];
    }
    assert AnyHolds([f0, f1], a) <==> AnyHolds([f0], a) || EvalFormula(f1, a) by {
      assert [f0, f1][..1] == [f0];
    }
    assert AnyHolds([f0], a) <==> EvalFormula(f0, a) by {
      assert [f0][..0] == [];
    }
  }

  /** The point lies in the half-open rectangle [x, x + w) by [y, y + h). */
  predicate InRect(px: int, py: int, x: int, y: int, w: int, h: int) {
    x <= px < x + w && y <= py < y + h
  }

  /** The rectangles of items `i` and `j` have no point in common. */
  ghost predicate Disjoint(inst: Instance, a: Assignment, i: nat, j: nat)
    requires inst.Shaped() && i < inst.n && j < inst.n
  {
    forall px: int, py: int ::
      !(InRect(px, py, a(CoordX(i)), a(CoordY(i)), inst.widths[i], inst.heights[i])
        && InRect(px, py, a(CoordX(j)), a(CoordY(j)), inst.widths[j], inst.heights[j]))
  }

  predicate PositiveSizes(inst: Instance)
    requires inst.Shaped()
  {
    forall i :: 0 <= i < inst.n ==> inst.widths[i] > 0 && inst.heights[i] > 0
  }

  /** For items of positive size, the four-way separation is exactly disjointness. */
  lemma SeparatedIffDisjoint(inst: Instance, a: Assignment, i: nat, j: nat)
    requires inst.Shaped() && PositiveSizes(inst) && i < inst.n && j < inst.n
    ensures Separated(inst, a, i, j) <==> Disjoint(inst, a, i, j)
  {
    if !Separated(inst, a, i, j) {
      var px := if a(CoordX(i)) < a(CoordX(j)) then a(CoordX(j)) else a(CoordX(i));
      var py := if a(CoordY(i)) < a(CoordY(j)) then a(CoordY(j)) else a(CoordY(i));
      assert InRect(px, py, a(CoordX(i)), a(CoordY(i)), inst.widths[i], inst.heights[i]);
      assert InRect(px, py, a(CoordX(j)), a(CoordY(j)), inst.widths[j], inst.heights[j]);
    }
  }

  /**
   * How much of the capacity items `0 .. k-1` use where the sweep line at `level`
   * crosses them: the sum of `Usage` over the items whose span contains `level`.
   */
  function UseAt(inst: Instance, axis: Axis, a: Assignment, level: int, k: nat): int
    requires inst.Shaped() && k <= inst.n
  {
    if k == 0 then 0
    else
      var c := a(CoordVar(axis, k - 1));
      UseAt(inst, axis, a, level, k - 1)
      + (if c <= level < c + Span(inst, axis, k - 1) then Usage(inst, axis, k - 1) else 0)
  }

  function CapacityValue(inst: Instance, axis: Axis, a: Assignment): int {
    if axis == Vertical then inst.w else a(L)
  }

  lemma DomainXValue(inst: Instance, i: nat, a: Assignment)
    requires |inst.widths| > 0
    ensures Holds(DomainX(inst, i), a) <==> 0 <= a(CoordX(i)) <= inst.w - Min(inst.widths)
  {
    assert EvalTerm(X(i), a) == a(CoordX(i));
    assert EvalFormula(Ge(X(i), Num(0)), a) == (a(CoordX(i)) >= 0);
    assert EvalFormula(Le(X(i), Num(inst.w - Min(inst.widths))), a) == (a(CoordX(i)) <= inst.w - Min(inst.widths));
  }

  lemma DomainYValue(inst: Instance, i: nat, a: Assignment)
    requires |inst.heights| > 0
    ensures Holds(DomainY(inst, i), a) <==> 0 <= a(CoordY(i)) <= UpperBound(inst) - Min(inst.heights)
  {
    assert EvalTerm(Y(i), a) == a(CoordY(i));
    assert EvalFormula(Ge(Y(i), Num(0)), a) == (a(CoordY(i)) >= 0);
    assert EvalFormula(Le(Y(i), Num(UpperBound(inst) - Min(inst.heights))), a)
        == (a(CoordY(i)) <= UpperBound(inst) - Min(inst.heights));
  }

  lemma DomainLValue(inst: Instance, a: Assignment)
    requires inst.Shaped() && inst.w != 0
    ensures Holds(DomainL(inst), a) <==> LowerBound(inst) <= a(L) <= UpperBound(inst)
  {
    assert EvalFormula(Ge(Ref(L), Num(LowerBound(inst))), a) == (a(L) >= LowerBound(inst));
    assert EvalFormula(Le(Ref(L), Num(UpperBound(inst))), a) == (a(L) <= UpperBound(inst));
  }

  lemma BoundaryValue(inst: Instance, i: nat, a: Assignment)
    requires inst.Shaped() && i < inst.n
    ensures Holds(Boundary(inst, i), a) <==>
            a(CoordX(i)) + inst.widths[i] <= inst.w && a(CoordY(i)) + inst.heights[i] <= a(L)
  {
    assert EvalTerm(Plus(X(i), Num(inst.widths[i])), a) == a(CoordX(i)) + inst.widths[i];
    assert EvalTerm(Plus(Y(i), Num(inst.heights[i])), a) == a(CoordY(i)) + inst.heights[i];
    assert EvalFormula(Le(Plus(X(i), Num(inst.widths[i])), Num(inst.w)), a)
        == (a(CoordX(i)) + inst.widths[i] <= inst.w);
    assert EvalFormula(Le(Plus(Y(i), Num(inst.heights[i])), Ref(L)), a)
        == (a(CoordY(i)) + inst.heights[i] <= a(L));
  }

  lemma SameSizeValue(inst: Instance, i: nat, j: nat, a: Assignment)
    requires inst.Shaped() && i < inst.n && j < inst.n
    ensures Holds(SameSize(inst, i, j), a) <==>
            (inst.widths[i] == inst.widths[j] && inst.heights[i] == inst.heights[j] ==> a(CoordX(i)) <= a(CoordX(j)))
  {
    var c := And(Equal(Num(inst.widths[i]), Num(inst.widths[j])), Equal(Num(inst.heights[i]), Num(inst.heights[j])));
    assert EvalFormula(Equal(Num(inst.widths[i]), Num(inst.widths[j])), a) == (inst.widths[i] == inst.widths[j]);
    assert EvalFormula(Equal(Num(inst.heights[i]), Num(inst.heights[j])), a) == (inst.heights[i] == inst.heights[j]);
    assert EvalFormula(c, a) == (inst.widths[i] == inst.widths[j] && inst.heights[i] == inst.heights[j]);
    assert EvalTerm(X(i), a) == a(CoordX(i)) && EvalTerm(X(j), a) == a(CoordX(j));
    assert EvalFormula(Le(X(i), X(j)), a) == (a(CoordX(i)) <= a(CoordX(j)));
    assert SameSize(inst, i, j) == Assert(Ite(c, Le(X(i), X(j)), True));
    assert EvalFormula(Ite(c, Le(X(i), X(j)), True), a)
        == (EvalFormula(c, a) ==> a(CoordX(i)) <= a(CoordX(j)));
  }

  lemma UsageAtValue(inst: Instance, axis: Axis, level: int, i: nat, a: Assignment)
    requires inst.Shaped() && i < inst.n
    ensures EvalTerm(UsageAt(inst, axis, level, i), a) ==
            var c := a(CoordVar(axis, i));
            if c <= level < c + Span(inst, axis, i) then Usage(inst, axis, i) else 0
  {
    var c := Coord(axis, i);
    assert EvalTerm(c, a) == a(CoordVar(axis, i));
    assert EvalTerm(Plus(c, Num(Span(inst, axis, i))), a) == a(CoordVar(axis, i)) + Span(inst, axis, i);
    assert EvalFormula(Le(c, Num(level)), a) == (a(CoordVar(axis, i)) <= level);
    assert EvalFormula(Lt(Num(level), Plus(c, Num(Span(inst, axis, i)))), a)
        == (level < a(CoordVar(axis, i)) + Span(inst, axis, i));
  }

  lemma {:induction false} UseAtSum(inst: Instance, axis: Axis, a: Assignment, level: int, ts: seq<Term>)
    requires inst.Shaped() && |ts| <= inst.n
    requires forall i :: 0 <= i < |ts| ==> ts[i] == UsageAt(inst, axis, level, i)
    ensures SumTerms(ts, a) == UseAt(inst, axis, a, level, |ts|)
  {
    if |ts| > 0 {
      UseAtSum(inst, axis, a, level, ts[..|ts| - 1]);
      UsageAtValue(inst, axis, level, |ts| - 1, a);
    }
  }

  lemma CumulativeMeaning(inst: Instance, axis: Axis, level: int, a: Assignment)
    requires inst.Shaped()
    ensures Holds(Cumulative(inst, axis, level), a)
            <==> UseAt(inst, axis, a, level, inst.n) <= CapacityValue(inst, axis, a)
  {
    var ts := Cumulative(inst, axis, level).f.a.ts;
    UseAtSum(inst, axis, a, level, ts);
    assert EvalTerm(Sum(ts), a) == UseAt(inst, axis, a, level, inst.n);
    assert EvalTerm(Capacity(inst, axis), a) == CapacityValue(inst, axis, a);
  }

  // ---------------------------------------------------------------------------
  // The script as a whole

  /** Every coordinate within its declared domain, and `l` within `[l_low, l_up]`. */
  ghost predicate InDomains(inst: Instance, a: Assignment)
    requires inst.Shaped() && inst.w != 0 && inst.n > 0
  {
    && (forall i :: 0 <= i < inst.n ==> 0 <= a(CoordX(i)) <= inst.w - Min(inst.widths))
    && (forall i :: 0 <= i < inst.n ==> 0 <= a(CoordY(i)) <= UpperBound(inst) - Min(inst.heights))
    && LowerBound(inst) <= a(L) <= UpperBound(inst)
  }

  ghost predicate NoOverlap(inst: Instance, a: Assignment)
    requires inst.Shaped()
  {
    forall i, j :: 0 <= i < j < inst.n ==> Separated(inst, a, i, j)
  }

  ghost predicate InsideStrip(inst: Instance, a: Assignment)
    requires inst.Shaped()
  {
    forall i :: 0 <= i < inst.n ==>
      a(CoordX(i)) + inst.widths[i] <= inst.w && a(CoordY(i)) + inst.heights[i] <= a(L)
  }

  /** At every level taken from `levels`, the items crossed use at most the capacity. */
  ghost predicate WithinCapacity(inst: Instance, axis: Axis, levels: seq<int>, a: Assignment)
    requires inst.Shaped()
  {
    forall k :: 0 <= k < |levels| ==> UseAt(inst, axis, a, levels[k], inst.n) <= CapacityValue(inst, axis, a)
  }

  ghost predicate SameSizeOrdered(inst: Instance, a: Assignment)
    requires inst.Shaped()
  {
    forall i, j :: 0 <= i < j < inst.n && inst.widths[i] == inst.widths[j] && inst.heights[i] == inst.heights[j]
      ==> a(CoordX(i)) <= a(CoordX(j))
  }

  ghost predicate LargestAtOrigin(inst: Instance, a: Assignment)
    requires inst.Shaped() && inst.n > 0
  {
    a(CoordX(MaxAreaIndex(inst))) == 0 && a(CoordY(MaxAreaIndex(inst))) == 0
  }

  /**
   * What a model of the script is, stated directly on the assignment: the domain
   * of every constant, pairwise non-overlap, every item inside the strip, the two
   * cumulative sweeps, the order of same-size items and the pinned largest item.
   */
  ghost predicate Placement(inst: Instance, a: Assignment)
    requires inst.Shaped() && inst.w != 0 && inst.n > 0
  {
    && InDomains(inst, a)
    && NoOverlap(inst, a)
    && InsideStrip(inst, a)
    && WithinCapacity(inst, Vertical, inst.widths, a)
    && WithinCapacity(inst, Horizontal, inst.heights, a)
    && SameSizeOrdered(inst, a)
    && LargestAtOrigin(inst, a)
  }

  lemma DeclarationsHold(n: nat, a: Assignment)
    ensures AllHold(Declarations(n), a)
  {
  }

  lemma DomainsXMeaning(inst: Instance, a: Assignment)
    requires inst.Shaped() && inst.n > 0
    ensures AllHold(DomainsX(inst), a) <==>
            forall i :: 0 <= i < inst.n ==> 0 <= a(CoordX(i)) <= inst.w - Min(inst.widths)
  {
    forall i | 0 <= i < inst.n
      ensures Holds(DomainsX(inst)[i], a) <==> 0 <= a(CoordX(i)) <= inst.w - Min(inst.widths)
    {
      DomainXValue(inst, i, a);
    }
  }

  lemma DomainsYMeaning(inst: Instance, a: Assignment)
    requires inst.Shaped() && inst.n > 0
    ensures AllHold(DomainsY(inst), a) <==>
            forall i :: 0 <= i < inst.n ==> 0 <= a(CoordY(i)) <= UpperBound(inst) - Min(inst.heights)
  {
    forall i | 0 <= i < inst.n
      ensures Holds(DomainsY(inst)[i], a) <==> 0 <= a(CoordY(i)) <= UpperBound(inst) - Min(inst.heights)
    {
      DomainYValue(inst, i, a);
    }
  }

  lemma DomainsMeaning(inst: Instance, a: Assignment)
    requires inst.Shaped() && inst.w != 0 && inst.n > 0
    ensures AllHold(Domains(inst), a) <==> InDomains(inst, a)
  {
    AllHoldAppend(DomainsX(inst), DomainsY(inst), a);
    AllHoldAppend(DomainsX(inst) + DomainsY(inst), [DomainL(inst)], a);
    DomainsXMeaning(inst, a);
    DomainsYMeaning(inst, a);
    DomainLValue(inst, a);
    assert AllHold([DomainL(inst)], a) <==> Holds(DomainL(inst), a) by {
      assert [DomainL(inst)][0] == DomainL(inst);
    }
  }

  lemma NonOverlapsMeaning(inst: Instance, a: Assignment)
    requires inst.Shaped()
    ensures PairsBelow(inst.n, Pairs(inst.n))
    ensures AllHold(PairBlock(inst, NonOverlapping, Pairs(inst.n)), a) <==> NoOverlap(inst, a)
  {
    PairsBeforeMembers(inst.n, inst.n);
    var ps := Pairs(inst.n);
    var block := PairBlock(inst, NonOverlapping, ps);
    if AllHold(block, a) {
      forall i, j | 0 <= i < j < inst.n ensures Separated(inst, a, i, j) {
        assert (i, j) in ps;
        var k :| 0 <= k < |ps| && ps[k] == (i, j);
        assert Holds(block[k], a);
        NonOverlapMeaning(inst, i, j, a);
      }
    }
    if forall i, j :: 0 <= i < j < inst.n ==> Separated(inst, a, i, j) {
      forall k | 0 <= k < |block| ensures Holds(block[k], a) {
        NonOverlapMeaning(inst, ps[k].0, ps[k].1, a);
      }
    }
  }

  lemma SameSizesMeaning(inst: Instance, a: Assignment)
    requires inst.Shaped()
    ensures PairsBelow(inst.n, Pairs(inst.n))
    ensures AllHold(PairBlock(inst, SameSizeOrder, Pairs(inst.n)), a) <==> SameSizeOrdered(inst, a)
  {
    PairsBeforeMembers(inst.n, inst.n);
    var ps := Pairs(inst.n);
    var block := PairBlock(inst, SameSizeOrder, ps);
    if AllHold(block, a) {
      forall i, j | 0 <= i < j < inst.n && inst.widths[i] == inst.widths[j] && inst.heights[i] == inst.heights[j]
        ensures a(CoordX(i)) <= a(CoordX(j))
      {
        assert (i, j) in ps;
        var k :| 0 <= k < |ps| && ps[k] == (i, j);
        assert Holds(block[k], a);
        SameSizeValue(inst, i, j, a);
      }
    }
    if forall i, j :: 0 <= i < j < inst.n && inst.widths[i] == inst.widths[j] && inst.heights[i] == inst.heights[j]
         ==> a(CoordX(i)) <= a(CoordX(j))
    {
      forall k | 0 <= k < |block| ensures Holds(block[k], a) {
        SameSizeValue(inst, ps[k].0, ps[k].1, a);
      }
    }
  }

  lemma BoundariesMeaning(inst: Instance, a: Assignment)
    requires inst.Shaped()
    ensures AllHold(Boundaries(inst), a) <==> InsideStrip(inst, a)
  {
    forall i | 0 <= i < inst.n
      ensures Holds(Boundaries(inst)[i], a) <==>
              a(CoordX(i)) + inst.widths[i] <= inst.w && a(CoordY(i)) + inst.heights[i] <= a(L)
    {
      BoundaryValue(inst, i, a);
    }
  }

  lemma CumulativesMeaning(inst: Instance, axis: Axis, levels: seq<int>, a: Assignment)
    requires inst.Shaped()
    ensures AllHold(Cumulatives(inst, axis, levels), a) <==> WithinCapacity(inst, axis, levels, a)
  {
    forall k | 0 <= k < |levels|
      ensures Holds(Cumulatives(inst, axis, levels)[k], a) <==>
              UseAt(inst, axis, a, levels[k], inst.n) <= CapacityValue(inst, axis, a)
    {
      CumulativeMeaning(inst, axis, levels[k], a);
    }
  }

  lemma AllHoldBlocks(b0: seq<Command>, b1: seq<Command>, b2: seq<Command>, b3: seq<Command>,
                      b4: seq<Command>, b5: seq<Command>, b6: seq<Command>, b7: seq<Command>, a: Assignment)
    ensures AllHold(b0 + b1 + b2 + b3 + b4 + b5 + b6 + b7, a) <==>
            AllHold(b0, a) && AllHold(b1, a) && AllHold(b2, a) && AllHold(b3, a)
            && AllHold(b4, a) && AllHold(b5, a) && AllHold(b6, a) && AllHold(b7, a)
  {
    AllHoldAppend(b0 + b1 + b2 + b3 + b4 + b5 + b6, b7, a);
    AllHoldAppend(b0 + b1 + b2 + b3 + b4 + b5, b6, a);
    AllHoldAppend(b0 + b1 + b2 + b3 + b4, b5, a);
    AllHoldAppend(b0 + b1 + b2 + b3, b4, a);
    AllHoldAppend(b0 + b1 + b2, b3, a);
    AllHoldAppend(b0 + b1, b2, a);
    AllHoldAppend(b0, b1, a);
  }

  lemma PinsMeaning(inst: Instance, a: Assignment)
    requires inst.Shaped() && inst.n > 0
    ensures AllHold(Pins(inst) + [CheckSat, GetModel], a) <==> LargestAtOrigin(inst, a)
  {
    var m := MaxAreaIndex(inst);
    var b := Pins(inst) + [CheckSat, GetModel];
    assert b[0] == Assert(Equal(X(m), Num(0)));
    assert b[1] == Assert(Equal(Y(m), Num(0)));
    assert EvalTerm(X(m), a) == a(CoordX(m)) && EvalTerm(Y(m), a) == a(CoordY(m));
    assert EvalFormula(Equal(X(m), Num(0)), a) == (a(CoordX(m)) == 0);
    assert EvalFormula(Equal(Y(m), Num(0)), a) == (a(CoordY(m)) == 0);
    assert Holds(b[0], a) <==> a(CoordX(m)) == 0;
    assert Holds(b[1], a) <==> a(CoordY(m)) == 0;
  }

  /** An assignment satisfies every assertion of the script exactly when it is a `Placement`. */
  lemma ScriptMeaning(inst: Instance, logic: string, a: Assignment)
    requires inst.Shaped() && inst.w != 0 && inst.n > 0
    ensures Script(inst, logic).Success?
    ensures AllHold(Script(inst, logic).value, a) <==> Placement(inst, a)
  {
    PairsBelowN(inst.n);
    var b0 := [SetLogic(logic)] + Declarations(inst.n);
    var b7 := Pins(inst) + [CheckSat, GetModel];
    assert Script(inst, logic).value
        == b0 + Domains(inst) + PairBlock(inst, NonOverlapping, Pairs(inst.n)) + Boundaries(inst)
           + Cumulatives(inst, Vertical, inst.widths) + Cumulatives(inst, Horizontal, inst.heights)
           + PairBlock(inst, SameSizeOrder, Pairs(inst.n)) + b7;
    AllHoldBlocks(b0, Domains(inst), PairBlock(inst, NonOverlapping, Pairs(inst.n)), Boundaries(inst),
                  Cumulatives(inst, Vertical, inst.widths), Cumulatives(inst, Horizontal, inst.heights),
                  PairBlock(inst, SameSizeOrder, Pairs(inst.n)), b7, a);
    assert AllHold(b0, a);
    DomainsMeaning(inst, a);
    NonOverlapsMeaning(inst, a);
    BoundariesMeaning(inst, a);
    CumulativesMeaning(inst, Vertical, inst.widths, a);
    CumulativesMeaning(inst, Horizontal, inst.heights, a);
    SameSizesMeaning(inst, a);
    PinsMeaning(inst, a);
  }

  // ---------------------------------------------------------------------------
  // Consequences

  /** `l_low` is the least strip height whose area `W * l` covers the total item area. */
  lemma LowerBoundLeast(inst: Instance, l: int)
    requires inst.Shaped() && inst.w > 0
    ensures inst.w * LowerBound(inst) >= Total(Areas(inst))
    ensures inst.w * l >= Total(Areas(inst)) ==> l >= LowerBound(inst)
  {
    CeilDivBounds(Total(Areas(inst)), inst.w);
  }

  /**
   * Soundness of the encoding: in every model of the script the items of positive
   * size lie inside the strip of width `W` and height `l`, no two of them share a
   * point, and `l` lies between the two bounds.
   */
  lemma ModelIsPacking(inst: Instance, logic: string, a: Assignment)
    requires inst.Shaped() && inst.w != 0 && inst.n > 0 && PositiveSizes(inst)
    requires Script(inst, logic).Success? && AllHold(Script(inst, logic).value, a)
    ensures forall i :: 0 <= i < inst.n ==>
              0 <= a(CoordX(i)) && a(CoordX(i)) + inst.widths[i] <= inst.w
              && 0 <= a(CoordY(i)) && a(CoordY(i)) + inst.heights[i] <= a(L)
    ensures forall i, j :: 0 <= i < inst.n && 0 <= j < inst.n && i != j ==> Disjoint(inst, a, i, j)
    ensures LowerBound(inst) <= a(L) <= UpperBound(inst)
  {
    ScriptMeaning(inst, logic, a);
    forall i, j | 0 <= i < inst.n && 0 <= j < inst.n && i != j
      ensures Disjoint(inst, a, i, j)
    {
      if i < j {
        assert Separated(inst, a, i, j);
      } else {
        assert Separated(inst, a, j, i);
      }
      SeparatedIffDisjoint(inst, a, i, j);
    }
  }

  // ---------------------------------------------------------------------------
  // The cumulative sweeps are implied constraints

  /** The constant that places item `i` across the sweep direction, along the capacity. */
  function CrossVar(axis: Axis, i: nat): Var {
    if axis == Vertical then CoordX(i) else CoordY(i)
  }

  /** The integers `lo, lo + 1, ..., hi - 1`. */
  function Interval(lo: int, hi: int): set<int>
    decreases hi - lo
  {
    if hi <= lo then {} else Interval(lo, hi - 1) + {hi - 1}
  }

  lemma {:induction false} IntervalMembers(lo: int, hi: int)
    ensures forall p :: p in Interval(lo, hi) <==> lo <= p < hi
    decreases hi - lo
  {
    if lo < hi {
      IntervalMembers(lo, hi - 1);
    }
  }

  lemma {:induction false} IntervalSize(lo: int, hi: int)
    requires lo <= hi
    ensures |Interval(lo, hi)| == hi - lo
    decreases hi - lo
  {
    if lo < hi {
      IntervalSize(lo, hi - 1);
      IntervalMembers(lo, hi - 1);
    }
  }

  /** The sweep line at `level` crosses item `i`. */
  predicate Crossed(inst: Instance, axis: Axis, a: Assignment, level: int, i: nat)
    requires inst.Shaped() && i < inst.n
  {
    var c := a(CoordVar(axis, i));
    c <= level < c + Span(inst, axis, i)
  }

  /** The sweep line at `level` crosses item `i`, which covers position `p` of the capacity. */
  predicate Hit(inst: Instance, axis: Axis, a: Assignment, level: int, i: nat, p: int)
    requires inst.Shaped() && i < inst.n
  {
    var d := a(CrossVar(axis, i));
    Crossed(inst, axis, a, level, i) && d <= p < d + Usage(inst, axis, i)
  }

  /** The positions of the capacity that item `i` covers where the sweep line crosses it. */
  function Added(inst: Instance, axis: Axis, a: Assignment, level: int, i: nat): set<int>
    requires inst.Shaped() && i < inst.n
  {
    var d := a(CrossVar(axis, i));
    if Crossed(inst, axis, a, level, i) then Interval(d, d + Usage(inst, axis, i)) else {}
  }

  /** The positions of the capacity that the items `0 .. k-1` crossed at `level` cover. */
  function Covered(inst: Instance, axis: Axis, a: Assignment, level: int, k: nat): set<int>
    requires inst.Shaped() && k <= inst.n
  {
    if k == 0 then {} else Covered(inst, axis, a, level, k - 1) + Added(inst, axis, a, level, k - 1)
  }

  lemma AddedMembers(inst: Instance, axis: Axis, a: Assignment, level: int, i: nat)
    requires inst.Shaped() && i < inst.n
    ensures forall p :: p in Added(inst, axis, a, level, i) <==> Hit(inst, axis, a, level, i, p)
  {
    var d := a(CrossVar(axis, i));
    IntervalMembers(d, d + Usage(inst, axis, i));
  }

  lemma AddedSize(inst: Instance, axis: Axis, a: Assignment, level: int, i: nat)
    requires inst.Shaped() && i < inst.n && PositiveSizes(inst)
    ensures |Added(inst, axis, a, level, i)| == if Crossed(inst, axis, a, level, i) then Usage(inst, axis, i) else 0
  {
    var d := a(CrossVar(axis, i));
    IntervalSize(d, d + Usage(inst, axis, i));
  }

  lemma {:induction false} NotCovered(inst: Instance, axis: Axis, a: Assignment, level: int, k: nat, p: int)
    requires inst.Shaped() && k <= inst.n
    requires forall j :: 0 <= j < k ==> !Hit(inst, axis, a, level, j, p)
    ensures p !in Covered(inst, axis, a, level, k)
  {
    if k > 0 {
      NotCovered(inst, axis, a, level, k - 1, p);
      AddedMembers(inst, axis, a, level, k - 1);
    }
  }

  /** Two separated items that the sweep line crosses cover no common position. */
  lemma HitOnce(inst: Instance, axis: Axis, a: Assignment, level: int, j: nat, i: nat, p: int)
    requires inst.Shaped() && j < i < inst.n && NoOverlap(inst, a)
    ensures !(Hit(inst, axis, a, level, j, p) && Hit(inst, axis, a, level, i, p))
  {
    assert Separated(inst, a, j, i);
  }

  /** A crossed item covers no position that the items before it cover. */
  lemma CoveredApart(inst: Instance, axis: Axis, a: Assignment, level: int, i: nat)
    requires inst.Shaped() && i < inst.n && NoOverlap(inst, a)
    ensures Covered(inst, axis, a, level, i) !! Added(inst, axis, a, level, i)
  {
    AddedMembers(inst, axis, a, level, i);
    forall p | p in Added(inst, axis, a, level, i) ensures p !in Covered(inst, axis, a, level, i) {
      forall j | 0 <= j < i ensures !Hit(inst, axis, a, level, j, p) {
        HitOnce(inst, axis, a, level, j, i, p);
      }
      NotCovered(inst, axis, a, level, i, p);
    }
  }

  lemma DisjointUnionSize(s: set<int>, t: set<int>)
    requires s !! t
    ensures |s + t| == |s| + |t|
  {
  }

  lemma UseAtStep(inst: Instance, axis: Axis, a: Assignment, level: int, k: nat)
    requires inst.Shaped() && 0 < k <= inst.n
    ensures UseAt(inst, axis, a, level, k)
            == UseAt(inst, axis, a, level, k - 1)
               + if Crossed(inst, axis, a, level, k - 1) then Usage(inst, axis, k - 1) else 0
  {
  }

  /** The crossed items cover exactly as many positions as they use. */
  lemma {:induction false} CoveredSize(inst: Instance, axis: Axis, a: Assignment, level: int, k: nat)
    requires inst.Shaped() && k <= inst.n && PositiveSizes(inst) && NoOverlap(inst, a)
    ensures |Covered(inst, axis, a, level, k)| == UseAt(inst, axis, a, level, k)
  {
    if k > 0 {
      CoveredSize(inst, axis, a, level, k - 1);
      CoveredApart(inst, axis, a, level, k - 1);
      CoveredStep(inst, axis, a, level, k);
    }
  }

  /** Adding the positions of one more item, apart from those already covered, adds its usage. */
  lemma CoveredStep(inst: Instance, axis: Axis, a: Assignment, level: int, k: nat)
    requires inst.Shaped() && 0 < k <= inst.n && PositiveSizes(inst)
    requires Covered(inst, axis, a, level, k - 1) !! Added(inst, axis, a, level, k - 1)
    requires |Covered(inst, axis, a, level, k - 1)| == UseAt(inst, axis, a, level, k - 1)
    ensures |Covered(inst, axis, a, level, k)| == UseAt(inst, axis, a, level, k)
  {
    AddedSize(inst, axis, a, level, k - 1);
    DisjointUnionSize(Covered(inst, axis, a, level, k - 1), Added(inst, axis, a, level, k - 1));
    UseAtStep(inst, axis, a, level, k);
  }

  /** Items inside the strip at non-negative coordinates cover positions below the capacity only. */
  lemma {:induction false} CoveredInside(inst: Instance, axis: Axis, a: Assignment, level: int, k: nat)
    requires inst.Shaped() && k <= inst.n && InsideStrip(inst, a)
    requires forall i :: 0 <= i < inst.n ==> a(CoordX(i)) >= 0 && a(CoordY(i)) >= 0
    ensures Covered(inst, axis, a, level, k) <= Interval(0, CapacityValue(inst, axis, a))
  {
    if k > 0 {
      var cap := CapacityValue(inst, axis, a);
      CoveredInside(inst, axis, a, level, k - 1);
      AddedMembers(inst, axis, a, level, k - 1);
      IntervalMembers(0, cap);
      assert 0 <= a(CrossVar(axis, k - 1)) && a(CrossVar(axis, k - 1)) + Usage(inst, axis, k - 1) <= cap;
      forall p | p in Added(inst, axis, a, level, k - 1) ensures p in Interval(0, cap) {
        assert Hit(inst, axis, a, level, k - 1, p);
      }
    }
  }

  /**
   * The cumulative sweeps add no constraint of their own: pairwise separated items of
   * positive size, inside the strip at non-negative coordinates, use at most the
   * capacity at every level, whichever levels are listed.
   */
  lemma CapacityImplied(inst: Instance, axis: Axis, levels: seq<int>, a: Assignment)
    requires inst.Shaped() && inst.n > 0 && PositiveSizes(inst)
    requires forall i :: 0 <= i < inst.n ==> a(CoordX(i)) >= 0 && a(CoordY(i)) >= 0
    requires NoOverlap(inst, a) && InsideStrip(inst, a)
    ensures WithinCapacity(inst, axis, levels, a)
  {
    var cap := CapacityValue(inst, axis, a);
    assert a(CrossVar(axis, 0)) + Usage(inst, axis, 0) <= cap;
    IntervalSize(0, cap);
    forall k | 0 <= k < |levels| ensures UseAt(inst, axis, a, levels[k], inst.n) <= cap {
      var covered := Covered(inst, axis, a, levels[k], inst.n);
      CoveredSize(inst, axis, a, levels[k], inst.n);
      CoveredInside(inst, axis, a, levels[k], inst.n);
      assert Interval(0, cap) == covered + (Interval(0, cap) - covered);
    }
  }

  /**
   * For items of positive size, dropping both cumulative sweeps from the script
   * leaves the same models: a `Placement` is exactly an assignment that meets the
   * other five kinds of constraint.
   */
  lemma CumulativesRedundant(inst: Instance, a: Assignment)
    requires inst.Shaped() && inst.w != 0 && inst.n > 0 && PositiveSizes(inst)
    ensures Placement(inst, a) <==>
            InDomains(inst, a) && NoOverlap(inst, a) && InsideStrip(inst, a)
            && SameSizeOrdered(inst, a) && LargestAtOrigin(inst, a)
  {
    if InDomains(inst, a) && NoOverlap(inst, a) && InsideStrip(inst, a) {
      CapacityImplied(inst, Vertical, inst.widths, a);
      CapacityImplied(inst, Horizontal, inst.heights, a);
    }
  }

  lemma {:induction false} PairsBeforeLength(n: nat, rows: nat)
    requires rows <= n
    ensures 2 * |PairsBefore(n, rows)| == rows * (2 * n - rows - 1)
  {
    if rows > 0 {
      PairsBeforeLength(n, rows - 1);
      assert |RowUpTo(rows - 1, n)| == n - rows;
      assert rows * (2 * n - rows - 1) == (rows - 1) * (2 * n - (rows - 1) - 1) + 2 * (n - rows);
    }
  }

  /**
   * The script has `n*n + 6n + 7` commands: the logic, `2n + 1` declarations,
   * `2n + 1` domains, `n(n-1)/2` non-overlap assertions, `n` boundaries, `2n`
   * cumulative assertions, `n(n-1)/2` same-size assertions, two pins, `check-sat`
   * and `get-model`.
   */
  lemma ScriptLength(inst: Instance, logic: string)
    requires inst.Shaped() && inst.w != 0 && inst.n > 0
    ensures Script(inst, logic).Success?
    ensures |Script(inst, logic).value| == inst.n * inst.n + 6 * inst.n + 7
  {
    var n := inst.n;
    PairsBelowN(n);
    PairsBeforeLength(n, n);
    var pairs := |Pairs(n)|;
    assert |Script(inst, logic).value| == 7 * n + 7 + 2 * pairs;
    SquareCount(n, pairs);
  }

  lemma SquareCount(n: nat, pairs: nat)
    requires 2 * pairs == n * (2 * n - n - 1)
    ensures 7 * n + 7 + 2 * pairs == n * n + 6 * n + 7
  {
  }

  /**
   * The script opens with `(set-logic ...)`, then declares all constants, and ends by
   * asking for a model; those `2n + 1` commands are its only declarations.
   */
  lemma ScriptFrame(inst: Instance, logic: string)
    requires inst.Shaped() && inst.w != 0 && inst.n > 0
    ensures Script(inst, logic).Success?
    ensures var s := Script(inst, logic).value;
            && |s| >= 2 * inst.n + 4
            && s[0] == SetLogic(logic)
            && DeclaresFirst(s, inst.n)
            && DeclaresOnly(s, 2 * inst.n + 1)
            && s[|s| - 2] == CheckSat && s[|s| - 1] == GetModel
  {
    var n := inst.n;
    PairsBelowN(n);
    var s := Script(inst, logic).value;
    var d := [SetLogic(logic)] + Declarations(n);
    assert s[..|d|] == d;
    HeadDeclaresFirst(logic, n);
    DeclaresFirstPrefix(d, s, n);
    ScriptDeclaresOnly(inst, logic);
  }

  lemma ScriptDeclaresOnly(inst: Instance, logic: string)
    requires inst.Shaped() && inst.w != 0 && inst.n > 0
    ensures Script(inst, logic).Success?
    ensures DeclaresOnly(Script(inst, logic).value, 2 * inst.n + 1)
  {
    var n := inst.n;
    PairsBelowN(n);
    HeadDeclares(logic, n);
    DomainsDeclareNothing(inst);
    PairBlockDeclaresNothing(inst, NonOverlapping, Pairs(n));
    PairBlockDeclaresNothing(inst, SameSizeOrder, Pairs(n));
    DeclaresOnlyBlocks([SetLogic(logic)] + Declarations(n), Domains(inst), PairBlock(inst, NonOverlapping, Pairs(n)),
                       Boundaries(inst), Cumulatives(inst, Vertical, inst.widths),
                       Cumulatives(inst, Horizontal, inst.heights), PairBlock(inst, SameSizeOrder, Pairs(n)),
                       Pins(inst) + [CheckSat, GetModel], 2 * n + 1);
  }

  /** A script that opens with the logic and the declarations of all `n` items' constants. */
  predicate DeclaresFirst(s: seq<Command>, n: nat) {
    && |s| >= 2 * n + 2
    && !s[0].Assert?
    && (forall i :: 0 <= i < n ==> s[1 + i] == DeclareInt(CoordX(i)) && s[1 + n + i] == DeclareInt(CoordY(i)))
    && s[2 * n + 1] == DeclareInt(L)
  }

  lemma HeadDeclaresFirst(logic: string, n: nat)
    ensures DeclaresFirst([SetLogic(logic)] + Declarations(n), n)
  {
    var d := [SetLogic(logic)] + Declarations(n);
    forall i | 0 <= i < n ensures d[1 + i] == DeclareInt(CoordX(i)) && d[1 + n + i] == DeclareInt(CoordY(i)) {
      assert d[1 + i] == DeclarationsX(n)[i];
      assert d[1 + n + i] == DeclarationsY(n)[i];
    }
  }

  lemma DeclaresFirstPrefix(h: seq<Command>, s: seq<Command>, n: nat)
    requires DeclaresFirst(h, n) && |h| <= |s| && s[..|h|] == h
    ensures DeclaresFirst(s, n)
  {
    forall k | 0 <= k < |h| ensures s[k] == h[k] {
      assert s[..|h|][k] == s[k];
    }
  }

  /** Exactly the commands at positions `1 ..= last` of `s` are declarations. */
  predicate DeclaresOnly(s: seq<Command>, last: nat) {
    forall k :: 0 <= k < |s| ==> (s[k].DeclareInt? <==> 1 <= k <= last)
  }

  /** No command of `b` is a declaration. */
  predicate DeclaresNothing(b: seq<Command>) {
    forall k :: 0 <= k < |b| ==> !b[k].DeclareInt?
  }

  lemma HeadDeclares(logic: string, n: nat)
    ensures DeclaresOnly([SetLogic(logic)] + Declarations(n), 2 * n + 1)
  {
    var b := [SetLogic(logic)] + Declarations(n);
    forall k | 0 <= k < |b| ensures b[k].DeclareInt? <==> 1 <= k <= 2 * n + 1 {
      if k > 0 {
        assert b[k] == Declarations(n)[k - 1];
      }
    }
  }

  lemma DomainsDeclareNothing(inst: Instance)
    requires inst.Shaped() && inst.w != 0
    ensures DeclaresNothing(Domains(inst))
  {
    var d := Domains(inst);
    forall k | 0 <= k < |d| ensures !d[k].DeclareInt? {
      if k < inst.n {
        assert d[k] == DomainX(inst, k);
      } else if k < 2 * inst.n {
        assert d[k] == DomainY(inst, k - inst.n);
      }
    }
  }

  lemma PairBlockDeclaresNothing(inst: Instance, kind: PairKind, ps: seq<(nat, nat)>)
    requires inst.Shaped() && PairsBelow(inst.n, ps)
    ensures DeclaresNothing(PairBlock(inst, kind, ps))
  {
    var b := PairBlock(inst, kind, ps);
    forall k | 0 <= k < |b| ensures !b[k].DeclareInt? {
      assert b[k] == PairCommand(inst, kind, ps[k].0, ps[k].1);
    }
  }

  lemma DeclaresOnlyAppend(s: seq<Command>, b: seq<Command>, last: nat)
    requires DeclaresOnly(s, last) && DeclaresNothing(b) && last < |s|
    ensures DeclaresOnly(s + b, last)
  {
    forall k | 0 <= k < |s + b| ensures (s + b)[k].DeclareInt? <==> 1 <= k <= last {
      if k >= |s| {
        assert (s + b)[k] == b[k - |s|];
      } else {
        assert (s + b)[k] == s[k];
      }
    }
  }

  lemma DeclaresOnlyBlocks(b0: seq<Command>, b1: seq<Command>, b2: seq<Command>, b3: seq<Command>,
                           b4: seq<Command>, b5: seq<Command>, b6: seq<Command>, b7: seq<Command>, last: nat)
    requires DeclaresOnly(b0, last) && last < |b0|
    requires DeclaresNothing(b1) && DeclaresNothing(b2) && DeclaresNothing(b3) && DeclaresNothing(b4)
    requires DeclaresNothing(b5) && DeclaresNothing(b6) && DeclaresNothing(b7)
    ensures DeclaresOnly(b0 + b1 + b2 + b3 + b4 + b5 + b6 + b7, last)
  {
    DeclaresOnlyAppend(b0, b1, last);
    DeclaresOnlyAppend(b0 + b1, b2, last);
    DeclaresOnlyAppend(b0 + b1 + b2, b3, last);
    DeclaresOnlyAppend(b0 + b1 + b2 + b3, b4, last);
    DeclaresOnlyAppend(b0 + b1 + b2 + b3 + b4, b5, last);
    DeclaresOnlyAppend(b0 + b1 + b2 + b3 + b4 + b5, b6, last);
    DeclaresOnlyAppend(b0 + b1 + b2 + b3 + b4 + b5 + b6, b7, last);
  }

  /** No constant is declared twice. */
  lemma DeclarationsDistinct(n: nat)
    ensures |Declarations(n)| == 2 * n + 1
    ensures forall p, q :: 0 <= p < q < |Declarations(n)| ==> Declarations(n)[p] != Declarations(n)[q]
  {
    var d := Declarations(n);
    forall p, q | 0 <= p < q < |d| ensures d[p] != d[q] {
      if q < n {
        assert d[p] == DeclareInt(CoordX(p)) && d[q] == DeclareInt(CoordX(q));
      } else if q < 2 * n {
        assert d[q] == DeclareInt(CoordY(q - n));
        if p >= n {
          assert d[p] == DeclareInt(CoordY(p - n));
        }
      }
    }
  }

  /** The first pair comes strictly before the second in row-major order. */
  predicate PairBefore(p: (nat, nat), q: (nat, nat)) {
    p.0 < q.0 || (p.0 == q.0 && p.1 < q.1)
  }

  lemma {:induction false} PairsBeforeSorted(n: nat, rows: nat)
    requires rows <= n
    ensures forall p, q :: 0 <= p < q < |PairsBefore(n, rows)| ==>
              PairBefore(PairsBefore(n, rows)[p], PairsBefore(n, rows)[q])
  {
    if rows > 0 {
      PairsBeforeSorted(n, rows - 1);
      PairsBeforeMembers(n, rows - 1);
      var front := PairsBefore(n, rows - 1);
      var row := RowUpTo(rows - 1, n);
      var ps := front + row;
      forall p, q | 0 <= p < q < |ps| ensures PairBefore(ps[p], ps[q]) {
        if q < |front| {
          assert ps[p] == front[p] && ps[q] == front[q];
          assert PairBefore(front[p], front[q]);
        } else if p < |front| {
          assert ps[p] == front[p] && front[p] in front;
          assert ps[p].0 < rows - 1;
          assert ps[q] == row[q - |front|] == (rows - 1, rows + q - |front|);
        } else {
          assert ps[p] == row[p - |front|] == (rows - 1, rows + p - |front|);
          assert ps[q] == row[q - |front|] == (rows - 1, rows + q - |front|);
        }
      }
    }
  }

  /**
   * The nested loops visit every pair `i < j < n` exactly once: the enumeration
   * holds exactly these pairs and never the same pair twice.
   */
  lemma PairsOncePerPair(n: nat)
    ensures forall i: nat, j: nat :: (i, j) in Pairs(n) <==> i < j < n
    ensures forall p, q :: 0 <= p < q < |Pairs(n)| ==> Pairs(n)[p] != Pairs(n)[q]
  {
    PairsBeforeMembers(n, n);
    PairsBeforeSorted(n, n);
    var ps := Pairs(n);
    assert ps == PairsBefore(n, n);
    forall p, q | 0 <= p < q < |ps| ensures ps[p] != ps[q] {
      assert PairBefore(ps[p], ps[q]);
    }
  }

  // ---------------------------------------------------------------------------
  // Every constant is declared before an assertion mentions it

  /** `vs` holds all the constants of an instance with `n` items. */
  predicate Covers(vs: set<Var>, n: nat) {
    (forall i: nat :: i < n ==> CoordX(i) in vs && CoordY(i) in vs) && L in vs
  }

  lemma DomainsScoped(inst: Instance, vs: set<Var>)
    requires inst.Shaped() && inst.w != 0 && Covers(vs, inst.n)
    ensures AssertsScoped(Domains(inst), vs)
  {
    var d := Domains(inst);
    forall k | 0 <= k < |d| ensures FormulaScoped(d[k].f, vs) {
      if k < inst.n {
        assert d[k] == DomainX(inst, k);
        assert TermScoped(X(k), vs);
      } else if k < 2 * inst.n {
        assert d[k] == DomainY(inst, k - inst.n);
        assert TermScoped(Y(k - inst.n), vs);
      } else {
        assert d[k] == DomainL(inst);
        assert TermScoped(Ref(L), vs);
      }
    }
  }

  lemma PairCommandScoped(inst: Instance, kind: PairKind, i: nat, j: nat, vs: set<Var>)
    requires inst.Shaped() && i < inst.n && j < inst.n && Covers(vs, inst.n)
    ensures FormulaScoped(PairCommand(inst, kind, i, j).f, vs)
  {
    assert TermScoped(X(i), vs) && TermScoped(X(j), vs) && TermScoped(Y(i), vs) && TermScoped(Y(j), vs);
    if kind == NonOverlapping {
      var ps := NonOverlap(inst, i, j).f.ps;
      assert TermScoped(Plus(X(i), Num(inst.widths[i])), vs) && TermScoped(Plus(Y(i), Num(inst.heights[i])), vs);
      assert TermScoped(Minus(X(i), Num(inst.widths[j])), vs) && TermScoped(Minus(Y(i), Num(inst.heights[j])), vs);
      assert FormulaScoped(ps[0], vs) && FormulaScoped(ps[1], vs) && FormulaScoped(ps[2], vs) && FormulaScoped(ps[3], vs);
      FormulasScopedAll(ps, vs);
    } else {
      var f := SameSize(inst, i, j).f;
      assert FormulaScoped(f.c.p, vs) && FormulaScoped(f.c.q, vs);
      assert FormulaScoped(f.c, vs) && FormulaScoped(f.p, vs) && FormulaScoped(f.q, vs);
    }
  }

  lemma PairBlockScoped(inst: Instance, kind: PairKind, ps: seq<(nat, nat)>, vs: set<Var>)
    requires inst.Shaped() && PairsBelow(inst.n, ps) && Covers(vs, inst.n)
    ensures AssertsScoped(PairBlock(inst, kind, ps), vs)
  {
    var b := PairBlock(inst, kind, ps);
    forall k | 0 <= k < |b| ensures FormulaScoped(b[k].f, vs) {
      PairCommandScoped(inst, kind, ps[k].0, ps[k].1, vs);
    }
  }

  lemma BoundariesScoped(inst: Instance, vs: set<Var>)
    requires inst.Shaped() && Covers(vs, inst.n)
    ensures AssertsScoped(Boundaries(inst), vs)
  {
    var b := Boundaries(inst);
    forall k | 0 <= k < |b| ensures FormulaScoped(b[k].f, vs) {
      assert b[k] == Boundary(inst, k);
      assert TermScoped(Plus(X(k), Num(inst.widths[k])), vs) && TermScoped(Plus(Y(k), Num(inst.heights[k])), vs);
      assert TermScoped(Ref(L), vs);
    }
  }

  lemma CumulativeScoped(inst: Instance, axis: Axis, level: int, vs: set<Var>)
    requires inst.Shaped() && Covers(vs, inst.n)
    ensures FormulaScoped(Cumulative(inst, axis, level).f, vs)
  {
    var ts := Cumulative(inst, axis, level).f.a.ts;
    forall i | 0 <= i < |ts| ensures TermScoped(ts[i], vs) {
      assert ts[i] == UsageAt(inst, axis, level, i);
      assert TermScoped(Coord(axis, i), vs);
      var c := ts[i].c;
      assert FormulaScoped(c.p, vs) && FormulaScoped(c.q, vs);
    }
    TermsScopedAll(ts, vs);
    assert TermScoped(Capacity(inst, axis), vs);
  }

  lemma CumulativesScoped(inst: Instance, axis: Axis, levels: seq<int>, vs: set<Var>)
    requires inst.Shaped() && Covers(vs, inst.n)
    ensures AssertsScoped(Cumulatives(inst, axis, levels), vs)
  {
    var b := Cumulatives(inst, axis, levels);
    forall k | 0 <= k < |b| ensures FormulaScoped(b[k].f, vs) {
      CumulativeScoped(inst, axis, levels[k], vs);
    }
  }

  lemma AssertsScopedBlocks(b0: seq<Command>, b1: seq<Command>, b2: seq<Command>, b3: seq<Command>,
                            b4: seq<Command>, b5: seq<Command>, b6: seq<Command>, b7: seq<Command>, vs: set<Var>)
    requires AssertsScoped(b0, vs) && AssertsScoped(b1, vs) && AssertsScoped(b2, vs) && AssertsScoped(b3, vs)
    requires AssertsScoped(b4, vs) && AssertsScoped(b5, vs) && AssertsScoped(b6, vs) && AssertsScoped(b7, vs)
    ensures AssertsScoped(b0 + b1 + b2 + b3 + b4 + b5 + b6 + b7, vs)
  {
    AssertsScopedAppend(b0, b1, vs);
    AssertsScopedAppend(b0 + b1, b2, vs);
    AssertsScopedAppend(b0 + b1 + b2, b3, vs);
    AssertsScopedAppend(b0 + b1 + b2 + b3, b4, vs);
    AssertsScopedAppend(b0 + b1 + b2 + b3 + b4, b5, vs);
    AssertsScopedAppend(b0 + b1 + b2 + b3 + b4 + b5, b6, vs);
    AssertsScopedAppend(b0 + b1 + b2 + b3 + b4 + b5 + b6, b7, vs);
  }

  lemma HeadScoped(logic: string, n: nat, vs: set<Var>)
    ensures AssertsScoped([SetLogic(logic)] + Declarations(n), vs)
  {
    var b := [SetLogic(logic)] + Declarations(n);
    forall k | 0 <= k < |b| ensures !b[k].Assert? {
      if k > 0 {
        assert b[k] == Declarations(n)[k - 1];
      }
    }
  }

  lemma TailScoped(inst: Instance, vs: set<Var>)
    requires inst.Shaped() && inst.n > 0 && Covers(vs, inst.n)
    ensures AssertsScoped(Pins(inst) + [CheckSat, GetModel], vs)
  {
    var m := MaxAreaIndex(inst);
    assert TermScoped(X(m), vs) && TermScoped(Y(m), vs);
  }

  /** Given all the constants of the instance, every assertion of the script is closed. */
  lemma ScriptAssertsScoped(inst: Instance, logic: string, vs: set<Var>)
    requires inst.Shaped() && inst.w != 0 && inst.n > 0 && Covers(vs, inst.n)
    ensures Script(inst, logic).Success?
    ensures AssertsScoped(Script(inst, logic).value, vs)
  {
    var n := inst.n;
    PairsBelowN(n);
    var b0 := [SetLogic(logic)] + Declarations(n);
    var b7 := Pins(inst) + [CheckSat, GetModel];
    HeadScoped(logic, n, vs);
    TailScoped(inst, vs);
    DomainsScoped(inst, vs);
    PairBlockScoped(inst, NonOverlapping, Pairs(n), vs);
    BoundariesScoped(inst, vs);
    CumulativesScoped(inst, Vertical, inst.widths, vs);
    CumulativesScoped(inst, Horizontal, inst.heights, vs);
    PairBlockScoped(inst, SameSizeOrder, Pairs(n), vs);
    AssertsScopedBlocks(b0, Domains(inst), PairBlock(inst, NonOverlapping, Pairs(n)), Boundaries(inst),
                        Cumulatives(inst, Vertical, inst.widths), Cumulatives(inst, Horizontal, inst.heights),
                        PairBlock(inst, SameSizeOrder, Pairs(n)), b7, vs);
  }

  lemma DeclaresFirstCovers(s: seq<Command>, n: nat, k: nat)
    requires DeclaresFirst(s, n) && 2 * n + 1 < k <= |s|
    ensures Covers(DeclaredBefore(s, k), n)
  {
    var vs := DeclaredBefore(s, k);
    forall i: nat | i < n ensures CoordX(i) in vs && CoordY(i) in vs {
      assert s[1 + i] == DeclareInt(CoordX(i)) && s[1 + n + i] == DeclareInt(CoordY(i));
    }
    assert s[2 * n + 1].v == L;
  }

  lemma DeclaresFirstNotAssert(s: seq<Command>, n: nat, k: nat)
    requires DeclaresFirst(s, n) && k <= 2 * n + 1
    ensures !s[k].Assert?
  {
    if 1 <= k <= n {
      assert s[1 + (k - 1)] == DeclareInt(CoordX(k - 1));
    } else if n < k <= 2 * n {
      assert s[1 + n + (k - 1 - n)] == DeclareInt(CoordY(k - 1 - n));
    }
  }

  /** When the opening declarations are the only ones, no constant is declared twice. */
  lemma DeclaresFirstOnce(s: seq<Command>, n: nat)
    requires DeclaresFirst(s, n) && DeclaresOnly(s, 2 * n + 1)
    ensures forall p, q :: 0 <= p < q < |s| && s[p].DeclareInt? && s[q].DeclareInt? ==> s[p].v != s[q].v
  {
    forall p, q | 0 <= p < q < |s| && s[p].DeclareInt? && s[q].DeclareInt? ensures s[p].v != s[q].v {
      if q <= n {
        assert s[1 + (p - 1)] == DeclareInt(CoordX(p - 1)) && s[1 + (q - 1)] == DeclareInt(CoordX(q - 1));
      } else if q <= 2 * n {
        assert s[1 + n + (q - 1 - n)] == DeclareInt(CoordY(q - 1 - n));
        if p <= n {
          assert s[1 + (p - 1)] == DeclareInt(CoordX(p - 1));
        } else {
          assert s[1 + n + (p - 1 - n)] == DeclareInt(CoordY(p - 1 - n));
        }
      } else if p <= n {
        assert s[1 + (p - 1)] == DeclareInt(CoordX(p - 1));
      } else {
        assert s[1 + n + (p - 1 - n)] == DeclareInt(CoordY(p - 1 - n));
      }
    }
  }

  /** The script declares each of its `2n + 1` constants exactly once. */
  lemma ScriptDeclaresOnce(inst: Instance, logic: string)
    requires inst.Shaped() && inst.w != 0 && inst.n > 0
    ensures Script(inst, logic).Success?
    ensures var s := Script(inst, logic).value;
            forall p, q :: 0 <= p < q < |s| && s[p].DeclareInt? && s[q].DeclareInt? ==> s[p].v != s[q].v
  {
    ScriptFrame(inst, logic);
    DeclaresFirstOnce(Script(inst, logic).value, inst.n);
  }

  /** Declarations up front make a script well scoped when its assertions use only those constants. */
  lemma DeclaresFirstWellScoped(s: seq<Command>, n: nat)
    requires DeclaresFirst(s, n)
    requires forall vs :: Covers(vs, n) ==> AssertsScoped(s, vs)
    ensures WellScoped(s)
  {
    forall k | 0 <= k <= 2 * n + 1 ensures !s[k].Assert? {
      DeclaresFirstNotAssert(s, n, k);
    }
    forall k | 0 <= k < |s| && s[k].Assert? ensures FormulaScoped(s[k].f, DeclaredBefore(s, k)) {
      DeclaresFirstCovers(s, n, k);
    }
  }

  /** The script declares every constant before the first assertion that mentions it. */
  lemma ScriptWellScoped(inst: Instance, logic: string)
    requires inst.Shaped() && inst.w != 0 && inst.n > 0
    ensures Script(inst, logic).Success?
    ensures WellScoped(Script(inst, logic).value)
  {
    var n := inst.n;
    ScriptFrame(inst, logic);
    var s := Script(inst, logic).value;
    forall vs | Covers(vs, n) ensures AssertsScoped(s, vs) {
      ScriptAssertsScoped(inst, logic, vs);
    }
    DeclaresFirstWellScoped(s, n);
  }

  /**
   * Models of the script are determined by its own constants: two assignments that
   * agree on the declared constants satisfy it alike.
   */
  lemma ScriptDependsOnDeclared(inst: Instance, logic: string, a: Assignment, b: Assignment)
    requires inst.Shaped() && inst.w != 0 && inst.n > 0
    requires forall i: nat :: i < inst.n ==> a(CoordX(i)) == b(CoordX(i)) && a(CoordY(i)) == b(CoordY(i))
    requires a(L) == b(L)
    ensures Script(inst, logic).Success?
    ensures AllHold(Script(inst, logic).value, a) <==> AllHold(Script(inst, logic).value, b)
  {
    var n := inst.n;
    ScriptWellScoped(inst, logic);
    ScriptLength(inst, logic);
    var s := Script(inst, logic).value;
    var vs := DeclaredBefore(s, |s|);
    forall v | v in vs ensures a(v) == b(v) {
      var j :| 0 <= j < |s| && s[j].DeclareInt? && s[j].v == v;
      assert s[j] in s;
    }
    WellScopedAgree(s, a, b);
  }
}
