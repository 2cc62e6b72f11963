/**
 * The result record of one solver run, shared by the MIP runner and the reporter.
 */
module SolutionTypes {
  import opened Wrappers

  datatype Status = Optimal | Feasible | NoSolutionFound | Error | Infeasible

  /** A status under which a placement was found: optimal or merely feasible. */
  predicate Admissible(s: Option<Status>) {
    s == Some(Optimal) || s == Some(Feasible)
  }

  /** One circuit as the pair `[width, height]` of the instance. */
  datatype Circuit = Circuit(w: int, h: int)

  /** The `{"x": [...], "y": [...]}` dictionary: one optional coordinate per item. */
  datatype Coords = Coords(x: seq<Option<int>>, y: seq<Option<int>>)

  /** A snapshot of every field of a `Solution`; `None` stands for Python's `None`. */
  datatype SolutionData = SolutionData(
    inputName: string,
    width: int,
    nCircuits: int,
    circuits: seq<Circuit>,
    status: Option<Status>,
    solveTime: Option<string>,
    height: Option<int>,
    coords: Option<Coords>,
    rotation: Option<seq<bool>>)

  /** The solution object that a run fills field by field. */
  class Solution {
    var inputName: string
    var width: int
    var nCircuits: int
    var circuits: seq<Circuit>
    var status: Option<Status>
    var solveTime: Option<string>
    var height: Option<int>
    var coords: Option<Coords>
    var rotation: Option<seq<bool>>

    /** An empty solution: nothing echoed, nothing solved. */
    constructor ()
      ensures Data() == Empty()
    {
      inputName := "";
      width := 0;
      nCircuits := 0;
      circuits := [];
      status := None;
      solveTime := None;
      height := None;
      coords := None;
      rotation := None;
    }

    function Data(): SolutionData
      reads this
    {
      SolutionData(inputName, width, nCircuits, circuits, status, solveTime, height, coords, rotation)
    }
  }

  /**
   * What the reporter indexes when the status is admissible: a circuit, both
   * coordinates and, when the rotation list is non-empty, a flag for each of the
   * first `nCircuits` items.
   */
  predicate Reportable(d: SolutionData) {
    Admissible(d.status) ==>
      && d.nCircuits <= |d.circuits|
      && d.coords.Some? && d.nCircuits <= |d.coords.value.x| && d.nCircuits <= |d.coords.value.y|
      && (d.rotation.Some? && |d.rotation.value| > 0 ==> d.nCircuits <= |d.rotation.value|)
  }

  function Empty(): SolutionData {
    SolutionData("", 0, 0, [], None, None, None, None, None)
  }
}
