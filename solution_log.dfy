/**
 * Reporting a solution: `print_logging` as the lines it prints, and
 * `save_solution` as the output file's path and the lines written to it.
 */
module SolutionLog {
  import opened Wrappers
  import opened Decimal
  import opened Text
  import opened SolutionTypes

  const FeasibleMsg := "A solution has been found, but not an optimal one"
  const OptimalMsg := "Optimal solution has been found"
  const NoSolutionMsg := "No solution has been found"
  const GenericMsg := "Infeasible solution"
  const ErrorMsg := "Error during execution"

  /** The first line printed: one message per status, the generic one for any other status. */
  function StatusMessage(status: Option<Status>): string {
    if status == Some(Feasible) then FeasibleMsg
    else if status == Some(Optimal) then OptimalMsg
    else if status == Some(NoSolutionFound) then NoSolutionMsg
    else if status == Some(Error) then ErrorMsg
    else GenericMsg
  }

  /** How an f-string shows an optional integer. */
  function OptIntText(o: Option<int>): string {
    if o.Some? then IntToString(o.value) else "None"
  }

  /** How an f-string shows an optional text. */
  function OptText(o: Option<string>): string {
    if o.Some? then o.value else "None"
  }

  /** `solution.rotation and solution.rotation[i]`: a missing or empty list rotates nothing. */
  predicate Rotated(d: SolutionData, i: nat)
    requires Reportable(d) && Admissible(d.status) && i < d.nCircuits
  {
    d.rotation.Some? && |d.rotation.value| > 0 && d.rotation.value[i]
  }

  /** `"{w} {h}, {x} {y}"` for circuit `i`, width and height swapped when it is rotated. */
  function CircuitLine(d: SolutionData, i: nat): string
    requires Reportable(d) && Admissible(d.status) && i < d.nCircuits
  {
    var c := d.circuits[i];
    var first := if Rotated(d, i) then c.h else c.w;
    var second := if Rotated(d, i) then c.w else c.h;
    IntToString(first) + " " + IntToString(second) + ", "
    + OptIntText(d.coords.value.x[i]) + " " + OptIntText(d.coords.value.y[i])
  }

  /** `range(0, n_circuits)` has no element when `n_circuits` is not positive. */
  function Count(n: int): nat {
    if n > 0 then n else 0
  }

  /** `"Solved {input_name} with W={width} and H={height}"`. */
  function Header(d: SolutionData): string {
    "Solved " + d.inputName + " with W=" + IntToString(d.width) + " and H=" + OptIntText(d.height)
  }

  /** `"Time: {solve_time}"`. */
  function TimeLine(d: SolutionData): string {
    "Time: " + OptText(d.solveTime)
  }

  /** One line per circuit, in index order. */
  function CircuitLines(d: SolutionData): (r: seq<string>)
    requires Reportable(d) && Admissible(d.status)
  {
    seq(Count(d.nCircuits), i requires 0 <= i < Count(d.nCircuits) => CircuitLine(d, i))
  }

  /** The lines `print_logging` prints, in order. */
  function PrintLogging(d: SolutionData): seq<string>
    requires Reportable(d)
  {
    [StatusMessage(d.status)]
    + if !Admissible(d.status) then [] else [Header(d), TimeLine(d)] + CircuitLines(d)
  }

  // ---------------------------------------------------------------------------
  // What the printed lines say

  /** Each of the four named statuses has its own message; every other status gets the generic one. */
  lemma StatusMessageCases(status: Option<Status>)
    ensures StatusMessage(status) == FeasibleMsg <==> status == Some(Feasible)
    ensures StatusMessage(status) == OptimalMsg <==> status == Some(Optimal)
    ensures StatusMessage(status) == NoSolutionMsg <==> status == Some(NoSolutionFound)
    ensures StatusMessage(status) == ErrorMsg <==> status == Some(Error)
    ensures StatusMessage(status) == GenericMsg <==>
            status !in {Some(Feasible), Some(Optimal), Some(NoSolutionFound), Some(Error)}
  {
    assert |FeasibleMsg| == 49 && |OptimalMsg| == 31 && |NoSolutionMsg| == 26;
    assert |ErrorMsg| == 22 && |GenericMsg| == 19;
  }

  /**
   * One line for an inadmissible status; for an admissible one the message, the
   * header, the time line and then exactly one line per circuit, in index order.
   */
  lemma PrintLoggingShape(d: SolutionData)
    requires Reportable(d)
    ensures |PrintLogging(d)| == if Admissible(d.status) then 3 + Count(d.nCircuits) else 1
    ensures PrintLogging(d)[0] == StatusMessage(d.status)
    ensures Admissible(d.status) ==> StartsWith(PrintLogging(d)[1], "Solved " + d.inputName + " with W=")
    ensures Admissible(d.status) ==> StartsWith(PrintLogging(d)[2], "Time: ")
    ensures Admissible(d.status) ==>
              forall i :: 0 <= i < Count(d.nCircuits) ==> PrintLogging(d)[3 + i] == CircuitLine(d, i)
  {
    if Admissible(d.status) {
      HeadThenBody(StatusMessage(d.status), Header(d), TimeLine(d), CircuitLines(d));
      HeaderStarts(d);
      PrefixStarts("Time: ", OptText(d.solveTime));
    }
  }

  lemma HeaderStarts(d: SolutionData)
    ensures StartsWith(Header(d), "Solved " + d.inputName + " with W=")
  {
    ThreePartsStart("Solved " + d.inputName + " with W=", IntToString(d.width), " and H=", OptIntText(d.height));
  }

  lemma ThreePartsStart(p: string, a: string, b: string, c: string)
    ensures StartsWith(p + a + b + c, p)
  {
    PrefixStarts(p, a);
    ExtendStarts(p + a, p, b);
    ExtendStarts(p + a + b, p, c);
  }

  lemma HeadThenBody(m: string, h: string, t: string, body: seq<string>)
    ensures var lines := [m] + ([h, t] + body);
            && |lines| == 3 + |body| && lines[0] == m && lines[1] == h && lines[2] == t
            && forall i :: 0 <= i < |body| ==> lines[3 + i] == body[i]
  {
  }

  lemma PrefixStarts(p: string, s: string)
    ensures StartsWith(p + s, p)
  {
    assert (p + s)[..|p|] == p;
  }

  lemma ExtendStarts(s: string, p: string, t: string)
    requires StartsWith(s, p)
    ensures StartsWith(s + t, p)
  {
    assert (s + t)[..|p|] == s[..|p|];
  }

  /** An optional integer read back from its text. */
  function ReadOptInt(s: string): Option<Option<int>> {
    if s == "None" then Some(None)
    else
      match ParseInt(s)
      case Some(v) => Some(Some(v))
      case None => None
  }

  /** A circuit line read back: the two sizes as shown and the two coordinates. */
  function ReadCircuitLine(line: string): Option<(int, int, Option<int>, Option<int>)> {
    var halves := Split(line, ',');
    if |halves| != 2 then None
    else
      var sizes := Split(halves[0], ' ');
      var place := halves[1];
      if |sizes| != 2 || |place| == 0 || place[0] != ' ' then None
      else
        var coords := Split(place[1..], ' ');
        if |coords| != 2 then None
        else
          match (ParseInt(sizes[0]), ParseInt(sizes[1]), ReadOptInt(coords[0]), ReadOptInt(coords[1]))
          case (Some(a), Some(b), Some(x), Some(y)) => Some((a, b, x, y))
          case _ => None
  }

  lemma OptIntTextRead(o: Option<int>)
    ensures ReadOptInt(OptIntText(o)) == Some(o)
    ensures ' ' !in OptIntText(o) && ',' !in OptIntText(o)
  {
    if o.Some? {
      var s := IntToString(o.value);
      assert s[0] != 'N' by {
        if o.value >= 0 { assert IsDigit(NatToString(o.value)[0]); }
      }
      assert s != "None";
      ParseIntToString(o.value);
    }
  }

  /** Two fields without the separator, joined by it, split back into the two. */
  lemma SplitTwo(a: string, c: char, b: string)
    requires c !in a && c !in b
    ensures Split(a + [c] + b, c) == [a, b]
  {
    SplitAtSeparator(a, c, b);
    SplitNoSeparator(b, c);
  }

  /** Reading `"a b, x y"` back from its parts. */
  lemma ReadFourFields(a: int, b: int, x: Option<int>, y: Option<int>)
    ensures ReadCircuitLine(IntToString(a) + " " + IntToString(b) + ", " + OptIntText(x) + " " + OptIntText(y))
            == Some((a, b, x, y))
  {
    var sa, sb, sx, sy := IntToString(a), IntToString(b), OptIntText(x), OptIntText(y);
    var sizes := sa + [' '] + sb;
    var place := [' '] + (sx + [' '] + sy);
    OptIntTextRead(x);
    OptIntTextRead(y);
    assert sa + " " + sb + ", " + sx + " " + sy == sizes + [','] + place;
    assert ',' !in sa && ',' !in sb;
    assert ',' !in sizes;
    assert ',' !in place;
    SplitTwo(sizes, ',', place);
    assert ' ' !in sa && ' ' !in sb;
    SplitTwo(sa, ' ', sb);
    assert place[1..] == sx + [' '] + sy;
    SplitTwo(sx, ' ', sy);
    ParseIntToString(a);
    ParseIntToString(b);
  }

  /**
   * Every circuit line reads back as the circuit's height and width when it is
   * rotated, its width and height otherwise, then its two coordinates.
   */
  lemma CircuitLineRoundTrip(d: SolutionData, i: nat)
    requires Reportable(d) && Admissible(d.status) && i < d.nCircuits
    ensures var c := d.circuits[i];
            var x := d.coords.value.x[i];
            var y := d.coords.value.y[i];
            ReadCircuitLine(CircuitLine(d, i))
            == Some(if Rotated(d, i) then (c.h, c.w, x, y) else (c.w, c.h, x, y))
  {
    var c := d.circuits[i];
    if Rotated(d, i) {
      ReadFourFields(c.h, c.w, d.coords.value.x[i], d.coords.value.y[i]);
    } else {
      ReadFourFields(c.w, c.h, d.coords.value.x[i], d.coords.value.y[i]);
    }
  }

  // ---------------------------------------------------------------------------
  // save_solution

  /** `file_name.replace("ins", "out")`. */
  function OutName(fileName: string): string {
    ReplaceAll(fileName, "ins", "out")
  }

  /** `"{root}/out/{model}/{file}"` with the renamed file. */
  function OutFile(root: string, model: string, fileName: string): string {
    root + "/out/" + model + "/" + OutName(fileName)
  }

  /** The numbers of one line, separated by single spaces, ending in a newline. */
  function Row(xs: seq<int>): string {
    Join(" ", seq(|xs|, k requires 0 <= k < |xs| => IntToString(xs[k]))) + "\n"
  }

  /** The lines written: `"W l"`, `"N"`, then `"w h x y"` for each of the first `N` items. */
  function SavedLines(w: int, n: int, l: int, widths: seq<int>, heights: seq<int>, cx: seq<int>, cy: seq<int>)
    : seq<string>
    requires Count(n) <= |widths| && Count(n) <= |heights| && Count(n) <= |cx| && Count(n) <= |cy|
  {
    [Row([w, l]), Row([n])]
    + seq(Count(n), i requires 0 <= i < Count(n) => Row([widths[i], heights[i], cx[i], cy[i]]))
  }

  /** A line read back as its numbers. */
  function ReadRow(line: string): Option<seq<int>> {
    if |line| == 0 || line[|line| - 1] != '\n' then None
    else ReadNumbers(Split(line[..|line| - 1], ' '))
  }

  function ReadNumbers(fields: seq<string>): (r: Option<seq<int>>)
    ensures r.Some? ==> |r.value| == |fields|
  {
    if |fields| == 0 then Some([])
    else
      match (ParseInt(fields[0]), ReadNumbers(fields[1..]))
      case (Some(v), Some(rest)) => Some([v] + rest)
      case _ => None
  }

  lemma {:induction false} ReadNumbersOfInts(xs: seq<int>)
    ensures ReadNumbers(seq(|xs|, k requires 0 <= k < |xs| => IntToString(xs[k]))) == Some(xs)
  {
    if |xs| > 0 {
      var fields := seq(|xs|, k requires 0 <= k < |xs| => IntToString(xs[k]));
      ReadNumbersOfInts(xs[1..]);
      assert fields[1..] == seq(|xs[1..]|, k requires 0 <= k < |xs[1..]| => IntToString(xs[1..][k]));
      ParseIntToString(xs[0]);
      assert [xs[0]] + xs[1..] == xs;
    }
  }

  /** Every row written reads back as the numbers it was written from. */
  lemma RowRoundTrip(xs: seq<int>)
    requires |xs| >= 1
    ensures ReadRow(Row(xs)) == Some(xs)
  {
    var fields := seq(|xs|, k requires 0 <= k < |xs| => IntToString(xs[k]));
    var line := Row(xs);
    assert line[..|line| - 1] == Join([' '], fields);
    forall k | 0 <= k < |fields| ensures ' ' !in fields[k] {
      assert fields[k] == IntToString(xs[k]);
    }
    SplitJoin(fields, ' ');
    ReadNumbersOfInts(xs);
  }

  /**
   * The file holds `N + 2` lines: `W l`, then `N`, then for each item in order its
   * width, height and two coordinates, each line reading back as those numbers.
   */
  lemma SavedLinesRead(w: int, n: int, l: int, widths: seq<int>, heights: seq<int>, cx: seq<int>, cy: seq<int>)
    requires Count(n) <= |widths| && Count(n) <= |heights| && Count(n) <= |cx| && Count(n) <= |cy|
    ensures |SavedLines(w, n, l, widths, heights, cx, cy)| == 2 + Count(n)
    ensures ReadRow(SavedLines(w, n, l, widths, heights, cx, cy)[0]) == Some([w, l])
    ensures ReadRow(SavedLines(w, n, l, widths, heights, cx, cy)[1]) == Some([n])
    ensures forall i :: 0 <= i < Count(n) ==>
              ReadRow(SavedLines(w, n, l, widths, heights, cx, cy)[2 + i]) == Some([widths[i], heights[i], cx[i], cy[i]])
  {
    RowRoundTrip([w, l]);
    RowRoundTrip([n]);
    forall i | 0 <= i < Count(n)
      ensures ReadRow(SavedLines(w, n, l, widths, heights, cx, cy)[2 + i]) == Some([widths[i], heights[i], cx[i], cy[i]])
    {
      RowRoundTrip([widths[i], heights[i], cx[i], cy[i]]);
    }
  }

  // ---------------------------------------------------------------------------
  // What the renaming does

  /** `"ins"` occurs in `s` at position `k`. */
  predicate InsAt(s: string, k: nat) {
    k + 3 <= |s| && s[k..k + 3] == "ins"
  }

  lemma {:induction false} OutNameLength(s: string)
    ensures |OutName(s)| == |s|
    decreases |s|
  {
    if |s| >= 3 {
      if s[..3] == "ins" { OutNameLength(s[3..]); } else { OutNameLength(s[1..]); }
    }
  }

  /** The renamed text starts with `o` where an `"ins"` was replaced, and with the same character otherwise. */
  lemma OutNameHead(s: string)
    requires |s| > 0
    ensures |OutName(s)| > 0
    ensures OutName(s)[0] == if InsAt(s, 0) then 'o' else s[0]
  {
    OutNameLength(s);
  }

  /** No `"ins"` is left after renaming, not even one formed across a replacement. */
  lemma {:induction false} OutNameHasNoIns(s: string)
    ensures forall k :: 0 <= k ==> !InsAt(OutName(s), k)
    decreases |s|
  {
    var r := OutName(s);
    OutNameLength(s);
    if |s| >= 3 {
      if s[..3] == "ins" {
        var rest := s[3..];
        OutNameHasNoIns(rest);
        OutNameLength(rest);
        assert r == "out" + OutName(rest);
        assert r[0] == 'o' && r[1] == 'u' && r[2] == 't';
        forall k | 0 <= k ensures !InsAt(r, k) {
          if k >= 3 {
            InsShift(OutName(rest), r, 3, k);
          }
        }
      } else {
        var rest := s[1..];
        OutNameHasNoIns(rest);
        OutNameLength(rest);
        assert r == [s[0]] + OutName(rest);
        NoInsAcrossHead(s);
        forall k | 0 <= k ensures !InsAt(r, k) {
          if k >= 1 {
            InsShift(OutName(rest), r, 1, k);
          }
        }
      }
    }
  }

  /** An `"ins"` at or after position `d` of `r` is one of the suffix `r[d..]`. */
  lemma InsShift(x: string, r: string, d: nat, k: nat)
    requires d <= |r| && r[d..] == x && d <= k
    ensures InsAt(r, k) ==> InsAt(x, k - d)
  {
    if InsAt(r, k) {
      assert r[k..k + 3] == x[k - d..k - d + 3];
    }
  }

  /** A character kept in front of the renamed rest cannot start an `"ins"`. */
  lemma NoInsAcrossHead(s: string)
    requires |s| >= 3 && s[..3] != "ins"
    ensures !InsAt([s[0]] + OutName(s[1..]), 0)
  {
    var rest := s[1..];
    var r := [s[0]] + OutName(rest);
    OutNameLength(rest);
    if InsAt(r, 0) {
      assert r[0] == 'i' && r[1] == 'n' && r[2] == 's';
      OutNameHead(rest);
      assert rest[0] == 'n';
      if |rest| >= 3 {
        assert !InsAt(rest, 0);
        assert OutName(rest) == [rest[0]] + OutName(rest[1..]);
        OutNameHead(rest[1..]);
      }
    }
  }

  /** Two occurrences of `"ins"` never overlap: the letters `n` and `s` cannot start one. */
  lemma InsApart(s: string, j: nat, k: nat)
    ensures InsAt(s, j) && j < k < j + 3 ==> !InsAt(s, k)
  {
    if InsAt(s, j) && j < k < j + 3 {
      assert s[k] == s[j..j + 3][k - j];
      assert s[k] != 'i';
    }
  }

  /** Every `"ins"` of the name, wherever it starts, reads `"out"` at the same place afterwards. */
  lemma {:induction false} OutNameAt(s: string, k: nat)
    requires InsAt(s, k)
    ensures |OutName(s)| == |s| && OutName(s)[k..k + 3] == "out"
    decreases |s|
  {
    OutNameLength(s);
    var r := OutName(s);
    if s[..3] == "ins" {
      var rest := s[3..];
      OutNameLength(rest);
      assert r == "out" + OutName(rest);
      if k > 0 {
        assert InsAt(s, 0);
        InsApart(s, 0, k);
        ThreeShift(rest, s, 3, k);
        OutNameAt(rest, k - 3);
        ThreeShift(OutName(rest), r, 3, k);
      }
    } else {
      var rest := s[1..];
      OutNameLength(rest);
      assert r == [s[0]] + OutName(rest);
      ThreeShift(rest, s, 1, k);
      OutNameAt(rest, k - 1);
      ThreeShift(OutName(rest), r, 1, k);
    }
  }

  /** Three characters at or after position `d` of `r` are those of the suffix `r[d..]`. */
  lemma ThreeShift(x: string, r: string, d: nat, k: nat)
    requires d <= k && k + 3 <= |r| && r[d..] == x
    ensures r[k..k + 3] == x[k - d..k - d + 3]
  {
  }

  /** A character that no `"ins"` covers keeps its place and its value. */
  lemma {:induction false} OutNameKeeps(s: string, p: nat)
    requires p < |s|
    requires forall k: nat :: k <= p < k + 3 ==> !InsAt(s, k)
    ensures |OutName(s)| == |s| && OutName(s)[p] == s[p]
    decreases |s|
  {
    OutNameLength(s);
    if |s| >= 3 {
      var r := OutName(s);
      if s[..3] == "ins" {
        assert InsAt(s, 0);
        var rest := s[3..];
        forall k: nat | k <= p - 3 < k + 3 ensures !InsAt(rest, k) {
          assert !InsAt(s, k + 3);
          if k + 6 <= |s| { ThreeShift(rest, s, 3, k + 3); }
        }
        OutNameKeeps(rest, p - 3);
        OutNameLength(rest);
        assert r == "out" + OutName(rest);
      } else if p > 0 {
        var rest := s[1..];
        forall k: nat | k <= p - 1 < k + 3 ensures !InsAt(rest, k) {
          assert !InsAt(s, k + 1);
          if k + 4 <= |s| { ThreeShift(rest, s, 1, k + 1); }
        }
        OutNameKeeps(rest, p - 1);
        OutNameLength(rest);
        assert r == [s[0]] + OutName(rest);
      } else {
        assert r == [s[0]] + OutName(s[1..]);
      }
    }
  }

  /**
   * The output file lies in the model's `out` directory under `root`, and its name
   * has the input name's length and no `"ins"` left in it.
   */
  lemma OutFileShape(root: string, model: string, fileName: string)
    ensures var dir := root + "/out/" + model + "/";
            var path := OutFile(root, model, fileName);
            && |path| == |dir| + |fileName|
            && StartsWith(path, dir)
            && forall k :: 0 <= k ==> !InsAt(path[|dir|..], k)
  {
    var dir := root + "/out/" + model + "/";
    OutNameLength(fileName);
    OutNameHasNoIns(fileName);
    PrefixStarts(dir, OutName(fileName));
    assert OutFile(root, model, fileName)[|dir|..] == OutName(fileName);
  }

  /** A name without `"ins"` is kept as it is. */
  lemma {:induction false} OutNameUnchanged(s: string)
    requires forall k :: 0 <= k ==> !InsAt(s, k)
    ensures OutName(s) == s
    decreases |s|
  {
    if |s| >= 3 {
      assert !InsAt(s, 0);
      assert forall k :: 0 <= k ==> !InsAt(s[1..], k) by {
        forall k | 0 <= k ensures !InsAt(s[1..], k) {
          assert !InsAt(s, k + 1);
          if k + 3 <= |s[1..]| { assert s[1..][k..k + 3] == s[k + 1..k + 4]; }
        }
      }
      OutNameUnchanged(s[1..]);
    }
  }
}
