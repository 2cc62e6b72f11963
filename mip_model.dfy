/**
 * `run_mip_solver`: echo the instance into a fresh `Solution`, choose the model
 * and the solver, run it, and decode the solver's named variable values into the
 * coordinate and rotation lists.
 *
 * The solver itself is a parameter: `SolverOutcome` is either the exception it
 * raised or its status, its solve time, the objective value and the values of its
 * variables in the order the solver lists them. Values are integral already.
 */
module MipModel {
  import opened Wrappers
  import opened Decimal
  import opened Text
  import opened Instances
  import opened SolutionTypes

  datatype ModelType = Base | Rotation | OtherModel
  datatype SolverMip = Cplex | Mosek | Minizinc

  /** A variable of the solved problem with its (rounded) value. */
  datatype NamedValue = NamedValue(name: string, value: int)

  datatype SolverOutcome =
    | Raised
    | Finished(status: Status, solveTime: string, objective: int, variables: seq<NamedValue>)

  /** The exceptions `run_mip_solver` lets escape to its caller. */
  datatype RunError =
    | ModelNotAvailable    // `BaseException("Model type not available")`
    | SolverNotAvailable   // `BaseException("Solver not available")`
    | ValueError           // `int(...)` of a name suffix that is not a number
    | IndexError           // a decoded index outside the list

  // ---------------------------------------------------------------------------
  // Which list a variable name writes to

  datatype Slot = SlotX | SlotY | SlotRot

  /** The name prefix that selects a slot. */
  function Prefix(slot: Slot): string {
    match slot
    case SlotX => "coord_x"
    case SlotY => "coord_y"
    case SlotRot => "rot"
  }

  /** Where the index text starts: one character after the prefix. */
  function Offset(slot: Slot): nat {
    match slot
    case SlotX => 8
    case SlotY => 8
    case SlotRot => 4
  }

  /** The first of the three `startswith` tests that succeeds, in the order they are tried. */
  function SlotOf(name: string): (r: Option<Slot>)
    ensures r.Some? ==> StartsWith(name, Prefix(r.value))
    ensures r.None? <==> !StartsWith(name, "coord_x") && !StartsWith(name, "coord_y") && !StartsWith(name, "rot")
  {
    if StartsWith(name, "coord_x") then Some(SlotX)
    else if StartsWith(name, "coord_y") then Some(SlotY)
    else if StartsWith(name, "rot") then Some(SlotRot)
    else None
  }

  /** Python list indexing: `-len <= k < 0` counts from the end, anything else outside raises. */
  function PyIndex(k: int, len: nat): (r: Option<nat>)
    ensures r.Some? <==> -(len as int) <= k < len
    ensures r.Some? ==> r.value < len && (r.value == k || r.value == len + k)
  {
    if 0 <= k < len then Some(k)
    else if -(len as int) <= k < 0 then Some(len + k)
    else None
  }

  // ---------------------------------------------------------------------------
  // Decoding on values

  /** The lists `coords["x"]`, `coords["y"]` and `rotation`. */
  datatype Lists = Lists(x: seq<Option<int>>, y: seq<Option<int>>, rot: seq<bool>)

  function Length(ls: Lists, slot: Slot): nat {
    match slot
    case SlotX => |ls.x|
    case SlotY => |ls.y|
    case SlotRot => |ls.rot|
  }

  /** `bool(v)` of an integral value. */
  function Truth(v: int): bool {
    v != 0
  }

  function Write(ls: Lists, slot: Slot, i: nat, value: int): Lists
    requires i < Length(ls, slot)
  {
    match slot
    case SlotX => ls.(x := ls.x[i := Some(value)])
    case SlotY => ls.(y := ls.y[i := Some(value)])
    case SlotRot => ls.(rot := ls.rot[i := Truth(value)])
  }

  /** The index a name addresses in a list of length `len`, or the exception that reading it raises. */
  function Target(name: string, slot: Slot, len: nat): (r: Result<nat, RunError>)
    ensures r.Failure? ==> r.error == ValueError || r.error == IndexError
    ensures r.Success? ==> r.value < len
  {
    match ParseInt(Drop(name, Offset(slot)))
    case None => Failure(ValueError)
    case Some(k) =>
      match PyIndex(k, len)
      case None => Failure(IndexError)
      case Some(i) => Success(i)
  }

  /** One iteration of the `for v in prob.variables()` loop. */
  function Apply(ls: Lists, v: NamedValue): (r: Result<Lists, RunError>)
    ensures r.Failure? ==> r.error == ValueError || r.error == IndexError
  {
    match SlotOf(v.name)
    case None => Success(ls)
    case Some(slot) =>
      match Target(v.name, slot, Length(ls, slot))
      case Failure(e) => Failure(e)
      case Success(i) => Success(Write(ls, slot, i, v.value))
  }

  /** The whole loop, first variable first; the first exception ends it. */
  function DecodeAll(ls: Lists, vs: seq<NamedValue>): (r: Result<Lists, RunError>)
    ensures r.Success? ==> |r.value.x| == |ls.x| && |r.value.y| == |ls.y| && |r.value.rot| == |ls.rot|
    ensures r.Failure? ==> r.error == ValueError || r.error == IndexError
    decreases |vs|
  {
    if |vs| == 0 then Success(ls)
    else
      match Apply(ls, vs[0])
      case Failure(e) => Failure(e)
      case Success(next) => DecodeAll(next, vs[1..])
  }

  /** The decoding loop on the three lists, which it updates in place. */
  method DecodeVariables(xs: array<Option<int>>, ys: array<Option<int>>, rot: array<bool>, vars: seq<NamedValue>)
    returns (err: Option<RunError>)
    requires xs != ys
    modifies xs, ys, rot
    ensures err.None? ==> DecodeAll(Lists(old(xs[..]), old(ys[..]), old(rot[..])), vars) == Success(Lists(xs[..], ys[..], rot[..]))
    ensures err.Some? ==> DecodeAll(Lists(old(xs[..]), old(ys[..]), old(rot[..])), vars) == Failure(err.value)
  {
    ghost var init := Lists(xs[..], ys[..], rot[..]);
    var k := 0;
    while k < |vars|
      invariant 0 <= k <= |vars|
      invariant DecodeAll(init, vars) == DecodeAll(Lists(xs[..], ys[..], rot[..]), vars[k..])
    {
      var v := vars[k];
      ghost var before := Lists(xs[..], ys[..], rot[..]);
      assert vars[k..][0] == v && vars[k..][1..] == vars[k + 1..];
      var slot := SlotOf(v.name);
      if slot.Some? {
        var len := if slot.value == SlotX then xs.Length else if slot.value == SlotY then ys.Length else rot.Length;
        assert len == Length(before, slot.value);
        var t := Target(v.name, slot.value, len);
        if t.Failure? {
          return Some(t.error);
        }
        var i := t.value;
        match slot.value
        case SlotX => xs[i] := Some(v.value);
        case SlotY => ys[i] := Some(v.value);
        case SlotRot => rot[i] := Truth(v.value);
        assert Lists(xs[..], ys[..], rot[..]) == Write(before, slot.value, i, v.value);
      }
      k := k + 1;
    }
    assert vars[k..] == [];
    return None;
  }

  // ---------------------------------------------------------------------------
  // What decoding does

  /** A name that matches none of the three prefixes changes nothing. */
  lemma ApplyUnmatched(ls: Lists, v: NamedValue)
    requires !StartsWith(v.name, "coord_x") && !StartsWith(v.name, "coord_y") && !StartsWith(v.name, "rot")
    ensures Apply(ls, v) == Success(ls)
  {
  }

  /**
   * A name that matches writes exactly one entry of the one list its prefix selects:
   * the entry at the parsed index gets the variable's value, and everything else is
   * unchanged.
   */
  lemma ApplyWritesOneEntry(ls: Lists, v: NamedValue)
    requires Apply(ls, v).Success? && SlotOf(v.name).Some?
    ensures var slot := SlotOf(v.name).value;
            var r := Apply(ls, v).value;
            && Target(v.name, slot, Length(ls, slot)).Success?
            && var i := Target(v.name, slot, Length(ls, slot)).value;
            && (slot == SlotX ==> r.y == ls.y && r.rot == ls.rot && r.x == ls.x[i := Some(v.value)])
            && (slot == SlotY ==> r.x == ls.x && r.rot == ls.rot && r.y == ls.y[i := Some(v.value)])
            && (slot == SlotRot ==> r.x == ls.x && r.y == ls.y && r.rot == ls.rot[i := v.value != 0])
  {
  }

  /**
   * The names the models give their variables, a prefix, one separator character
   * and the decimal index, are read back as that index and address that slot.
   */
  lemma TargetOfIndexName(slot: Slot, sep: char, i: nat, len: nat)
    requires i < len
    ensures SlotOf(Prefix(slot) + [sep] + NatToString(i)) == Some(slot)
    ensures Target(Prefix(slot) + [sep] + NatToString(i), slot, len) == Success(i)
  {
    var name := Prefix(slot) + [sep] + NatToString(i);
    assert name[..|Prefix(slot)|] == Prefix(slot);
    if slot != SlotRot {
      assert name[6] != "coord_x"[6] || slot == SlotX;
      assert !StartsWith(name, "coord_x") || slot == SlotX;
    } else {
      assert name[0] == 'r';
    }
    assert Drop(name, Offset(slot)) == NatToString(i);
    ParseNatToString(i);
    assert NatToString(i)[0] != '-' && NatToString(i)[0] != '+';
  }

  /** Decoding `prefix + sep + str(i)` sets entry `i` of that slot's list and leaves the rest alone. */
  lemma IndexNameRoundTrip(ls: Lists, slot: Slot, sep: char, i: nat, value: int)
    requires i < Length(ls, slot)
    ensures Apply(ls, NamedValue(Prefix(slot) + [sep] + NatToString(i), value)) == Success(Write(ls, slot, i, value))
  {
    TargetOfIndexName(slot, sep, i, Length(ls, slot));
  }

  /** The variable `v` writes entry `i` of `slot` in lists of length `len`. */
  predicate Targets(v: NamedValue, slot: Slot, len: nat, i: nat) {
    SlotOf(v.name) == Some(slot) && Target(v.name, slot, len) == Success(i)
  }

  /** The value of the last variable of `vs` that writes entry `i` of `slot`, if any does. */
  function LastWrite(vs: seq<NamedValue>, slot: Slot, len: nat, i: nat): Option<int> {
    if |vs| == 0 then None
    else
      match LastWrite(vs[1..], slot, len, i)
      case Some(w) => Some(w)
      case None => if Targets(vs[0], slot, len, i) then Some(vs[0].value) else None
  }

  /** A coordinate entry after decoding: the last value written to it, or what it held before. */
  function Settled(old_: Option<int>, w: Option<int>): Option<int> {
    if w.Some? then Some(w.value) else old_
  }

  /** A rotation entry after decoding: the truth of the last value written to it, or what it held before. */
  function SettledFlag(old_: bool, w: Option<int>): bool {
    if w.Some? then Truth(w.value) else old_
  }

  /** Decoding leaves in every entry the value of the last variable that addresses it. */
  lemma {:induction false} LastWriteWins(ls: Lists, vs: seq<NamedValue>)
    requires DecodeAll(ls, vs).Success?
    ensures var r := DecodeAll(ls, vs).value;
            && (forall i :: 0 <= i < |ls.x| ==> r.x[i] == Settled(ls.x[i], LastWrite(vs, SlotX, |ls.x|, i)))
            && (forall i :: 0 <= i < |ls.y| ==> r.y[i] == Settled(ls.y[i], LastWrite(vs, SlotY, |ls.y|, i)))
            && (forall i :: 0 <= i < |ls.rot| ==> r.rot[i] == SettledFlag(ls.rot[i], LastWrite(vs, SlotRot, |ls.rot|, i)))
    decreases |vs|
  {
    if |vs| > 0 {
      var next := Apply(ls, vs[0]).value;
      LastWriteWins(next, vs[1..]);
      var r := DecodeAll(ls, vs).value;
      assert r == DecodeAll(next, vs[1..]).value;
      assert |next.x| == |ls.x| && |next.y| == |ls.y| && |next.rot| == |ls.rot| by {
        if SlotOf(vs[0].name).Some? { ApplyWritesOneEntry(ls, vs[0]); }
      }
      forall i | 0 <= i < |ls.x| ensures r.x[i] == Settled(ls.x[i], LastWrite(vs, SlotX, |ls.x|, i)) {
        NextEntry(ls, vs[0], SlotX, i);
      }
      forall i | 0 <= i < |ls.y| ensures r.y[i] == Settled(ls.y[i], LastWrite(vs, SlotY, |ls.y|, i)) {
        NextEntry(ls, vs[0], SlotY, i);
      }
      forall i | 0 <= i < |ls.rot| ensures r.rot[i] == SettledFlag(ls.rot[i], LastWrite(vs, SlotRot, |ls.rot|, i)) {
        NextEntry(ls, vs[0], SlotRot, i);
      }
    }
  }

  /** How one step changes entry `i` of `slot`. */
  lemma NextEntry(ls: Lists, v: NamedValue, slot: Slot, i: nat)
    requires Apply(ls, v).Success? && i < Length(ls, slot)
    ensures var next := Apply(ls, v).value;
            var w := if Targets(v, slot, Length(ls, slot), i) then Some(v.value) else None;
            && Length(next, slot) == Length(ls, slot)
            && (slot == SlotX ==> next.x[i] == Settled(ls.x[i], w))
            && (slot == SlotY ==> next.y[i] == Settled(ls.y[i], w))
            && (slot == SlotRot ==> next.rot[i] == SettledFlag(ls.rot[i], w))
  {
    if SlotOf(v.name).Some? {
      ApplyWritesOneEntry(ls, v);
    }
  }

  /** Every entry some variable addresses ends up set. */
  lemma {:induction false} LastWriteSome(vs: seq<NamedValue>, slot: Slot, len: nat, i: nat)
    ensures LastWrite(vs, slot, len, i).Some? <==> exists k :: 0 <= k < |vs| && Targets(vs[k], slot, len, i)
  {
    if |vs| > 0 {
      LastWriteSome(vs[1..], slot, len, i);
      if exists k :: 0 <= k < |vs| && Targets(vs[k], slot, len, i) {
        var k :| 0 <= k < |vs| && Targets(vs[k], slot, len, i);
        if k > 0 {
          assert vs[1..][k - 1] == vs[k];
        }
      }
      if exists k :: 0 <= k < |vs[1..]| && Targets(vs[1..][k], slot, len, i) {
        var k :| 0 <= k < |vs[1..]| && Targets(vs[1..][k], slot, len, i);
        assert vs[k + 1] == vs[1..][k];
      }
    }
  }

  // ---------------------------------------------------------------------------
  // The run

  function Circuits(inst: Instance): (r: seq<Circuit>)
    requires inst.Shaped()
    ensures |r| == inst.n
  {
    seq(inst.n, i requires 0 <= i < inst.n => Circuit(inst.widths[i], inst.heights[i]))
  }

  /** The lists before the loop: `[None] * N` twice and `[False] * N`. */
  function Blank(n: nat): Lists {
    Lists(seq(n, _ => None), seq(n, _ => None), seq(n, _ => false))
  }

  /** The solution `run_mip_solver` returns, or the exception it raises. */
  function RunSpec(inputName: string, inst: Instance, modelType: ModelType, solver: SolverMip, outcome: SolverOutcome)
    : Result<SolutionData, RunError>
    requires inst.Shaped()
  {
    var echo := Empty().(inputName := inputName, width := inst.w, nCircuits := inst.n, circuits := Circuits(inst));
    if modelType == OtherModel then Failure(ModelNotAvailable)
    else if solver != Cplex && solver != Mosek then Failure(SolverNotAvailable)
    else
      match outcome
      case Raised => Success(echo.(status := Some(Error)))
      case Finished(status, time, objective, vars) =>
        var solved := echo.(status := Some(status), solveTime := Some(time));
        if !Admissible(Some(status)) then Success(solved)
        else
          match DecodeAll(Blank(inst.n), vars)
          case Failure(e) => Failure(e)
          case Success(ls) =>
            Success(solved.(height := Some(objective), coords := Some(Coords(ls.x, ls.y)),
                            rotation := if inst.n > 0 then Some(ls.rot) else None))
  }

  /** The three lists allocated for `N` items, then filled from the solver's variables. */
  method DecodeSolution(n: nat, vars: seq<NamedValue>) returns (r: Result<Lists, RunError>)
    ensures r == DecodeAll(Blank(n), vars)
  {
    var rotation := new bool[n](_ => false);
    var xs := new Option<int>[n](_ => None);
    var ys := new Option<int>[n](_ => None);
    assert Lists(xs[..], ys[..], rotation[..]) == Blank(n);
    var err := DecodeVariables(xs, ys, rotation, vars);
    if err.Some? {
      return Failure(err.value);
    }
    return Success(Lists(xs[..], ys[..], rotation[..]));
  }

  method RunMipSolver(inputName: string, inst: Instance, modelType: ModelType, solver: SolverMip, outcome: SolverOutcome)
    returns (r: Result<Solution, RunError>)
    requires inst.Shaped()
    ensures r.Success? <==> RunSpec(inputName, inst, modelType, solver, outcome).Success?
    ensures r.Success? ==> fresh(r.value) && r.value.Data() == RunSpec(inputName, inst, modelType, solver, outcome).value
    ensures r.Failure? ==> r.error == RunSpec(inputName, inst, modelType, solver, outcome).error
  {
    var n := inst.n;
    var sol := new Solution();
    sol.inputName := inputName;
    sol.width := inst.w;
    sol.nCircuits := n;
    sol.circuits := Circuits(inst);
    ghost var echo := sol.Data();

    if modelType == OtherModel {
      return Failure(ModelNotAvailable);
    }
    if solver != Cplex && solver != Mosek {
      return Failure(SolverNotAvailable);
    }

    if outcome.Raised? {
      sol.status := Some(Error);
      return Success(sol);
    }

    sol.status := Some(outcome.status);
    sol.solveTime := Some(outcome.solveTime);

    if Admissible(sol.status) {
      sol.height := Some(outcome.objective);
      var decoded := DecodeSolution(n, outcome.variables);
      if decoded.Failure? {
        return Failure(decoded.error);
      }
      sol.coords := Some(Coords(decoded.value.x, decoded.value.y));
      sol.rotation := if n > 0 then Some(decoded.value.rot) else None;
    }
    assert echo == Empty().(inputName := inputName, width := inst.w, nCircuits := inst.n, circuits := Circuits(inst));
    return Success(sol);
  }

  // ---------------------------------------------------------------------------
  // What a run returns

  /** A returned solution echoes the instance: its name, `W`, `N` and every circuit's size. */
  lemma RunEchoesInstance(inputName: string, inst: Instance, modelType: ModelType, solver: SolverMip, outcome: SolverOutcome)
    requires inst.Shaped() && RunSpec(inputName, inst, modelType, solver, outcome).Success?
    ensures var d := RunSpec(inputName, inst, modelType, solver, outcome).value;
            && d.inputName == inputName && d.width == inst.w && d.nCircuits == inst.n
            && |d.circuits| == inst.n
            && forall i :: 0 <= i < inst.n ==> d.circuits[i].w == inst.widths[i] && d.circuits[i].h == inst.heights[i]
  {
  }

  /**
   * An unknown model type or solver raises before anything is solved: the
   * exception is the same whatever the solver would have returned.
   */
  lemma UnknownChoiceRaises(inputName: string, inst: Instance, modelType: ModelType, solver: SolverMip,
                            outcome: SolverOutcome, other: SolverOutcome)
    requires inst.Shaped()
    ensures modelType == OtherModel ==> RunSpec(inputName, inst, modelType, solver, outcome) == Failure(ModelNotAvailable)
    ensures modelType != OtherModel && solver == Minizinc ==>
              RunSpec(inputName, inst, modelType, solver, outcome) == Failure(SolverNotAvailable)
    ensures (modelType == OtherModel || solver == Minizinc) ==>
              RunSpec(inputName, inst, modelType, solver, outcome) == RunSpec(inputName, inst, modelType, solver, other)
    ensures RunSpec(inputName, inst, modelType, solver, outcome) == Failure(ModelNotAvailable) <==> modelType == OtherModel
  {
  }

  /** A solver that raises yields status ERROR and no time, height, coordinates or rotation. */
  lemma SolverExceptionIsError(inputName: string, inst: Instance, modelType: ModelType, solver: SolverMip)
    requires inst.Shaped() && modelType != OtherModel && solver != Minizinc
    ensures var r := RunSpec(inputName, inst, modelType, solver, Raised);
            && r.Success? && r.value.status == Some(Error)
            && r.value.solveTime.None? && r.value.height.None? && r.value.coords.None? && r.value.rotation.None?
  {
  }

  /**
   * Height, coordinates and rotation are set only under an admissible status,
   * and under one the height and both coordinate lists always are, one entry per item.
   */
  lemma GeometryOnlyWhenAdmissible(inputName: string, inst: Instance, modelType: ModelType, solver: SolverMip,
                                   outcome: SolverOutcome)
    requires inst.Shaped() && RunSpec(inputName, inst, modelType, solver, outcome).Success?
    ensures var d := RunSpec(inputName, inst, modelType, solver, outcome).value;
            && (d.height.Some? || d.coords.Some? || d.rotation.Some? ==> Admissible(d.status))
            && (Admissible(d.status) ==>
                  && outcome.Finished? && d.height == Some(outcome.objective)
                  && d.coords.Some? && |d.coords.value.x| == inst.n && |d.coords.value.y| == inst.n
                  && (d.rotation.Some? <==> inst.n > 0)
                  && (d.rotation.Some? ==> |d.rotation.value| == inst.n))
  {
  }

  /** A returned solution is one the reporter can print. */
  lemma RunIsReportable(inputName: string, inst: Instance, modelType: ModelType, solver: SolverMip, outcome: SolverOutcome)
    requires inst.Shaped() && RunSpec(inputName, inst, modelType, solver, outcome).Success?
    ensures Reportable(RunSpec(inputName, inst, modelType, solver, outcome).value)
  {
    GeometryOnlyWhenAdmissible(inputName, inst, modelType, solver, outcome);
  }

  /**
   * Each coordinate is the value of the last variable that names it, and stays
   * `None` when no variable does; each rotation flag is the truth of the last `rot`
   * variable that names it, and `False` when none does (as for the base model).
   */
  lemma DecodedEntries(inputName: string, inst: Instance, modelType: ModelType, solver: SolverMip, outcome: SolverOutcome)
    requires inst.Shaped() && RunSpec(inputName, inst, modelType, solver, outcome).Success?
    requires Admissible(RunSpec(inputName, inst, modelType, solver, outcome).value.status)
    ensures outcome.Finished?
    ensures var d := RunSpec(inputName, inst, modelType, solver, outcome).value;
            var vs := outcome.variables;
            && (forall i :: 0 <= i < inst.n ==>
                  d.coords.value.x[i] == LastWrite(vs, SlotX, inst.n, i)
                  && d.coords.value.y[i] == LastWrite(vs, SlotY, inst.n, i))
            && (forall i :: 0 <= i < inst.n ==>
                  d.rotation.value[i] == (LastWrite(vs, SlotRot, inst.n, i).Some? && Truth(LastWrite(vs, SlotRot, inst.n, i).value)))
  {
    var blank := Blank(inst.n);
    LastWriteWins(blank, outcome.variables);
    var d := RunSpec(inputName, inst, modelType, solver, outcome).value;
    var ls := DecodeAll(blank, outcome.variables).value;
    forall i | 0 <= i < inst.n
      ensures d.coords.value.x[i] == LastWrite(outcome.variables, SlotX, inst.n, i)
      ensures d.coords.value.y[i] == LastWrite(outcome.variables, SlotY, inst.n, i)
    {
      assert blank.x[i] == None && blank.y[i] == None;
    }
    forall i | 0 <= i < inst.n
      ensures d.rotation.value[i] ==
              (LastWrite(outcome.variables, SlotRot, inst.n, i).Some? && Truth(LastWrite(outcome.variables, SlotRot, inst.n, i).value))
    {
      assert blank.rot[i] == false;
    }
  }

  /**
   * When the solver reports a value for `coord_x{sep}{i}` and `coord_y{sep}{i}` of every
   * item, the returned coordinates are all set.
   */
  lemma CoordsComplete(inputName: string, inst: Instance, modelType: ModelType, solver: SolverMip, outcome: SolverOutcome,
                       sep: char)
    requires inst.Shaped() && RunSpec(inputName, inst, modelType, solver, outcome).Success?
    requires Admissible(RunSpec(inputName, inst, modelType, solver, outcome).value.status)
    requires outcome.Finished?
    requires forall i :: 0 <= i < inst.n ==>
               exists k, k' :: 0 <= k < |outcome.variables| && 0 <= k' < |outcome.variables|
                 && outcome.variables[k].name == Prefix(SlotX) + [sep] + NatToString(i)
                 && outcome.variables[k'].name == Prefix(SlotY) + [sep] + NatToString(i)
    ensures var c := RunSpec(inputName, inst, modelType, solver, outcome).value.coords.value;
            forall i :: 0 <= i < inst.n ==> c.x[i].Some? && c.y[i].Some?
  {
    DecodedEntries(inputName, inst, modelType, solver, outcome);
    var vs := outcome.variables;
    forall i | 0 <= i < inst.n
      ensures LastWrite(vs, SlotX, inst.n, i).Some? && LastWrite(vs, SlotY, inst.n, i).Some?
    {
      var k, k' :| 0 <= k < |vs| && 0 <= k' < |vs|
                   && vs[k].name == Prefix(SlotX) + [sep] + NatToString(i)
                   && vs[k'].name == Prefix(SlotY) + [sep] + NatToString(i);
      TargetOfIndexName(SlotX, sep, i, inst.n);
      TargetOfIndexName(SlotY, sep, i, inst.n);
      assert Targets(vs[k], SlotX, inst.n, i);
      assert Targets(vs[k'], SlotY, inst.n, i);
      LastWriteSome(vs, SlotX, inst.n, i);
      LastWriteSome(vs, SlotY, inst.n, i);
    }
  }
}
