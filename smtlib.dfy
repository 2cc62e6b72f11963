/**
 * The fragment of SMT-LIB 2 (integer arithmetic) that the strip-packing script uses:
 * its abstract syntax, its meaning under an assignment of the integer constants,
 * and the concrete text each command is written as.
 */
module SmtLib {
  import opened Decimal
  import opened Text

  /** The integer constants a script declares: `coord_x{i}`, `coord_y{i}` and `l`. */
  datatype Var = CoordX(i: nat) | CoordY(i: nat) | L

  datatype Term =
    | Num(n: int)
    | Ref(v: Var)
    | Plus(a: Term, b: Term)                  // (+ a b)
    | Minus(a: Term, b: Term)                 // (- a b)
    | Sum(ts: seq<Term>)                      // (+ t1 ... tn)
    | IfThen(c: Formula, t: Term, e: Term)    // (ite c t e), integer valued

  datatype Formula =
    | True
    | Le(a: Term, b: Term)
    | Lt(a: Term, b: Term)
    | Ge(a: Term, b: Term)
    | Equal(a: Term, b: Term)
    | And(p: Formula, q: Formula)
    | Or(ps: seq<Formula>)
    | Ite(c: Formula, p: Formula, q: Formula) // (ite c p q), boolean valued

  datatype Command =
    | SetLogic(logic: string)
    | DeclareInt(v: Var)                      // (declare-fun v () Int)
    | Assert(f: Formula)
    | CheckSat
    | GetModel

  /** A value for every declared constant. */
  type Assignment = Var -> int

  function EvalTerm(t: Term, a: Assignment): int
    decreases t
  {
    match t
    case Num(n) => n
    case Ref(v) => a(v)
    case Plus(x, y) => EvalTerm(x, a) + EvalTerm(y, a)
    case Minus(x, y) => EvalTerm(x, a) - EvalTerm(y, a)
    case Sum(ts) => SumTerms(ts, a)
    case IfThen(c, x, y) => if EvalFormula(c, a) then EvalTerm(x, a) else EvalTerm(y, a)
  }

  /** The value of `(+ t1 ... tn)`: the sum of the arguments' values. */
  function SumTerms(ts: seq<Term>, a: Assignment): int
    decreases ts
  {
    if |ts| == 0 then 0 else SumTerms(ts[..|ts| - 1], a) + EvalTerm(ts[|ts| - 1], a)
  }

  predicate EvalFormula(f: Formula, a: Assignment)
    decreases f
  {
    match f
    case True => true
    case Le(x, y) => EvalTerm(x, a) <= EvalTerm(y, a)
    case Lt(x, y) => EvalTerm(x, a) < EvalTerm(y, a)
    case Ge(x, y) => EvalTerm(x, a) >= EvalTerm(y, a)
    case Equal(x, y) => EvalTerm(x, a) == EvalTerm(y, a)
    case And(p, q) => EvalFormula(p, a) && EvalFormula(q, a)
    case Or(ps) => AnyHolds(ps, a)
    case Ite(c, p, q) => if EvalFormula(c, a) then EvalFormula(p, a) else EvalFormula(q, a)
  }

  /** The value of `(or p1 ... pn)`: some argument holds. */
  predicate AnyHolds(ps: seq<Formula>, a: Assignment)
    decreases ps
  {
    |ps| > 0 && (AnyHolds(ps[..|ps| - 1], a) || EvalFormula(ps[|ps| - 1], a))
  }

  /** An assertion holds when its formula is true; the other commands constrain nothing. */
  predicate Holds(c: Command, a: Assignment) {
    c.Assert? ==> EvalFormula(c.f, a)
  }

  /** Every assertion of the script holds under `a`. */
  predicate AllHold(cs: seq<Command>, a: Assignment) {
    forall k :: 0 <= k < |cs| ==> Holds(cs[k], a)
  }

  lemma AllHoldAppend(c1: seq<Command>, c2: seq<Command>, a: Assignment)
    ensures AllHold(c1 + c2, a) <==> AllHold(c1, a) && AllHold(c2, a)
  {
    if AllHold(c1, a) && AllHold(c2, a) {
      forall k | 0 <= k < |c1 + c2| ensures Holds((c1 + c2)[k], a) {
        if k >= |c1| { assert (c1 + c2)[k] == c2[k - |c1|]; }
      }
    }
    if AllHold(c1 + c2, a) {
      forall k | 0 <= k < |c1| ensures Holds(c1[k], a) {
        assert (c1 + c2)[k] == c1[k];
      }
      forall k | 0 <= k < |c2| ensures Holds(c2[k], a) {
        assert (c1 + c2)[|c1| + k] == c2[k];
      }
    }
  }

  // ---------------------------------------------------------------------------
  // Declaration before use

  /** Every constant the term mentions is in `vs`. */
  predicate TermScoped(t: Term, vs: set<Var>)
    decreases t
  {
    match t
    case Num(_) => true
    case Ref(v) => v in vs
    case Plus(x, y) => TermScoped(x, vs) && TermScoped(y, vs)
    case Minus(x, y) => TermScoped(x, vs) && TermScoped(y, vs)
    case Sum(ts) => TermsScoped(ts, vs)
    case IfThen(c, x, y) => FormulaScoped(c, vs) && TermScoped(x, vs) && TermScoped(y, vs)
  }

  predicate TermsScoped(ts: seq<Term>, vs: set<Var>)
    decreases ts
  {
    |ts| == 0 || (TermsScoped(ts[..|ts| - 1], vs) && TermScoped(ts[|ts| - 1], vs))
  }

  predicate FormulaScoped(f: Formula, vs: set<Var>)
    decreases f
  {
    match f
    case True => true
    case Le(x, y) => TermScoped(x, vs) && TermScoped(y, vs)
    case Lt(x, y) => TermScoped(x, vs) && TermScoped(y, vs)
    case Ge(x, y) => TermScoped(x, vs) && TermScoped(y, vs)
    case Equal(x, y) => TermScoped(x, vs) && TermScoped(y, vs)
    case And(p, q) => FormulaScoped(p, vs) && FormulaScoped(q, vs)
    case Or(ps) => FormulasScoped(ps, vs)
    case Ite(c, p, q) => FormulaScoped(c, vs) && FormulaScoped(p, vs) && FormulaScoped(q, vs)
  }

  predicate FormulasScoped(ps: seq<Formula>, vs: set<Var>)
    decreases ps
  {
    |ps| == 0 || (FormulasScoped(ps[..|ps| - 1], vs) && FormulaScoped(ps[|ps| - 1], vs))
  }

  lemma {:induction false} TermsScopedAll(ts: seq<Term>, vs: set<Var>)
    ensures TermsScoped(ts, vs) <==> forall k :: 0 <= k < |ts| ==> TermScoped(ts[k], vs)
  {
    if |ts| > 0 {
      var init := ts[..|ts| - 1];
      TermsScopedAll(init, vs);
      assert forall k :: 0 <= k < |init| ==> init[k] == ts[k];
    }
  }

  lemma {:induction false} FormulasScopedAll(ps: seq<Formula>, vs: set<Var>)
    ensures FormulasScoped(ps, vs) <==> forall k :: 0 <= k < |ps| ==> FormulaScoped(ps[k], vs)
  {
    if |ps| > 0 {
      var init := ps[..|ps| - 1];
      FormulasScopedAll(init, vs);
      assert forall k :: 0 <= k < |init| ==> init[k] == ps[k];
    }
  }

  /** The constants declared by the commands before position `k`. */
  function DeclaredBefore(cs: seq<Command>, k: nat): set<Var>
    requires k <= |cs|
  {
    set j | 0 <= j < k && cs[j].DeclareInt? :: cs[j].v
  }

  /** Every assertion mentions only constants declared earlier in the script. */
  predicate WellScoped(cs: seq<Command>) {
    forall k :: 0 <= k < |cs| && cs[k].Assert? ==> FormulaScoped(cs[k].f, DeclaredBefore(cs, k))
  }

  /** Every assertion of `cs` mentions only constants in `vs`. */
  predicate AssertsScoped(cs: seq<Command>, vs: set<Var>) {
    forall k :: 0 <= k < |cs| && cs[k].Assert? ==> FormulaScoped(cs[k].f, vs)
  }

  lemma AssertsScopedAppend(c1: seq<Command>, c2: seq<Command>, vs: set<Var>)
    ensures AssertsScoped(c1 + c2, vs) <==> AssertsScoped(c1, vs) && AssertsScoped(c2, vs)
  {
    if AssertsScoped(c1, vs) && AssertsScoped(c2, vs) {
      forall k | 0 <= k < |c1 + c2| && (c1 + c2)[k].Assert? ensures FormulaScoped((c1 + c2)[k].f, vs) {
        if k >= |c1| { assert (c1 + c2)[k] == c2[k - |c1|]; }
      }
    }
    if AssertsScoped(c1 + c2, vs) {
      forall k | 0 <= k < |c1| && c1[k].Assert? ensures FormulaScoped(c1[k].f, vs) {
        assert (c1 + c2)[k] == c1[k];
      }
      forall k | 0 <= k < |c2| && c2[k].Assert? ensures FormulaScoped(c2[k].f, vs) {
        assert (c1 + c2)[|c1| + k] == c2[k];
      }
    }
  }

  /** The two assignments give the same value to every constant in `vs`. */
  ghost predicate AgreeOn(vs: set<Var>, a: Assignment, b: Assignment) {
    forall v :: v in vs ==> a(v) == b(v)
  }

  lemma {:induction false} TermAgree(t: Term, vs: set<Var>, a: Assignment, b: Assignment)
    requires TermScoped(t, vs) && AgreeOn(vs, a, b)
    ensures EvalTerm(t, a) == EvalTerm(t, b)
    decreases t
  {
    match t
    case Num(_) =>
    case Ref(v) =>
    case Plus(x, y) => TermAgree(x, vs, a, b); TermAgree(y, vs, a, b);
    case Minus(x, y) => TermAgree(x, vs, a, b); TermAgree(y, vs, a, b);
    case Sum(ts) => TermsAgree(ts, vs, a, b);
    case IfThen(c, x, y) => FormulaAgree(c, vs, a, b); TermAgree(x, vs, a, b); TermAgree(y, vs, a, b);
  }

  lemma {:induction false} TermsAgree(ts: seq<Term>, vs: set<Var>, a: Assignment, b: Assignment)
    requires TermsScoped(ts, vs) && AgreeOn(vs, a, b)
    ensures SumTerms(ts, a) == SumTerms(ts, b)
    decreases ts
  {
    if |ts| > 0 {
      TermsAgree(ts[..|ts| - 1], vs, a, b);
      TermAgree(ts[|ts| - 1], vs, a, b);
    }
  }

  lemma {:induction false} FormulaAgree(f: Formula, vs: set<Var>, a: Assignment, b: Assignment)
    requires FormulaScoped(f, vs) && AgreeOn(vs, a, b)
    ensures EvalFormula(f, a) == EvalFormula(f, b)
    decreases f
  {
    match f
    case True =>
    case Le(x, y) => TermAgree(x, vs, a, b); TermAgree(y, vs, a, b);
    case Lt(x, y) => TermAgree(x, vs, a, b); TermAgree(y, vs, a, b);
    case Ge(x, y) => TermAgree(x, vs, a, b); TermAgree(y, vs, a, b);
    case Equal(x, y) => TermAgree(x, vs, a, b); TermAgree(y, vs, a, b);
    case And(p, q) => FormulaAgree(p, vs, a, b); FormulaAgree(q, vs, a, b);
    case Or(ps) => FormulasAgree(ps, vs, a, b);
    case Ite(c, p, q) => FormulaAgree(c, vs, a, b); FormulaAgree(p, vs, a, b); FormulaAgree(q, vs, a, b);
  }

  lemma {:induction false} FormulasAgree(ps: seq<Formula>, vs: set<Var>, a: Assignment, b: Assignment)
    requires FormulasScoped(ps, vs) && AgreeOn(vs, a, b)
    ensures AnyHolds(ps, a) == AnyHolds(ps, b)
    decreases ps
  {
    if |ps| > 0 {
      FormulasAgree(ps[..|ps| - 1], vs, a, b);
      FormulaAgree(ps[|ps| - 1], vs, a, b);
    }
  }

  /**
   * Whether a well-scoped script holds depends only on the values of the
   * constants it declares.
   */
  lemma WellScopedAgree(cs: seq<Command>, a: Assignment, b: Assignment)
    requires WellScoped(cs) && AgreeOn(DeclaredBefore(cs, |cs|), a, b)
    ensures AllHold(cs, a) <==> AllHold(cs, b)
  {
    forall k | 0 <= k < |cs| && cs[k].Assert?
      ensures EvalFormula(cs[k].f, a) == EvalFormula(cs[k].f, b)
    {
      assert DeclaredBefore(cs, k) <= DeclaredBefore(cs, |cs|);
      FormulaAgree(cs[k].f, DeclaredBefore(cs, k), a, b);
    }
  }

  // ---------------------------------------------------------------------------
  // Concrete syntax

  function VarName(v: Var): string {
    match v
    case CoordX(i) => "coord_x" + NatToString(i)
    case CoordY(i) => "coord_y" + NatToString(i)
    case L => "l"
  }

  /** Distinct constants are declared under distinct names. */
  lemma VarNameInjective(u: Var, v: Var)
    requires VarName(u) == VarName(v)
    ensures u == v
  {
    var s := VarName(u);
    if u.L? || v.L? {
      assert |s| == 1;
    } else {
      assert s[6] == VarName(v)[6];
      assert u.CoordX? <==> v.CoordX?;
      assert s[7..] == NatToString(u.i) == NatToString(v.i);
      NatToStringInjective(u.i, v.i);
    }
  }

  function RenderTerm(t: Term): string
    decreases t
  {
    match t
    case Num(n) => IntToString(n)
    case Ref(v) => VarName(v)
    case Plus(x, y) => "(+ " + RenderTerm(x) + " " + RenderTerm(y) + ")"
    case Minus(x, y) => "(- " + RenderTerm(x) + " " + RenderTerm(y) + ")"
    case Sum(ts) => "(+ " + Join(" ", seq(|ts|, k requires 0 <= k < |ts| => RenderTerm(ts[k]))) + ")"
    case IfThen(c, x, y) => "(ite " + RenderFormula(c) + " " + RenderTerm(x) + " " + RenderTerm(y) + ")"
  }

  function RenderFormula(f: Formula): string
    decreases f
  {
    match f
    case True => "true"
    case Le(x, y) => "(<= " + RenderTerm(x) + " " + RenderTerm(y) + ")"
    case Lt(x, y) => "(< " + RenderTerm(x) + " " + RenderTerm(y) + ")"
    case Ge(x, y) => "(>= " + RenderTerm(x) + " " + RenderTerm(y) + ")"
    case Equal(x, y) => "(= " + RenderTerm(x) + " " + RenderTerm(y) + ")"
    case And(p, q) => "(and " + RenderFormula(p) + " " + RenderFormula(q) + ")"
    case Or(ps) => "(or " + Join(" ", seq(|ps|, k requires 0 <= k < |ps| => RenderFormula(ps[k]))) + ")"
    case Ite(c, p, q) => "(ite " + RenderFormula(c) + " " + RenderFormula(p) + " " + RenderFormula(q) + ")"
  }

  /** The line of the `.smt2` file a command is written as. */
  function Render(c: Command): string {
    match c
    case SetLogic(logic) => "(set-logic " + logic + ")"
    case DeclareInt(v) => "(declare-fun " + VarName(v) + " () Int)"
    case Assert(f) => "(assert " + RenderFormula(f) + ")"
    case CheckSat => "(check-sat)"
    case GetModel => "(get-model)"
  }
}
