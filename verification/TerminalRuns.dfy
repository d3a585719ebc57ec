/** The output calls of a repaint: a span goes out as the fewest possible uncut runs. */
module TerminalRuns {
  import opened Grids
  import opened TerminalState

  function After(d: Draw): nat {
    d.column + |d.text|
  }

  /** One output call that shows cells of a line as they are, without a NUL to cut it short. */
  ghost predicate ShowsPart(d: Draw, line: seq<Cell>, row: nat) {
    && d.row == row && d.text != [] && After(d) <= |line| && 0 !in d.text
    && forall c | d.column <= c < After(d) :: line[c] == Cell(d.text[c - d.column], d.attribute)
  }

  /** Consecutive calls that cover columns position..end of a line exactly once. */
  ghost predicate Covers(draws: seq<Draw>, line: seq<Cell>, row: nat, position: nat, end: nat)
    requires position <= end < |line|
  {
    && draws != [] && draws[0].column == position && After(draws[|draws| - 1]) == end + 1
    && (forall i | 0 <= i < |draws| :: ShowsPart(draws[i], line, row))
    && forall i, j | 0 <= i < |draws| && j == i + 1 < |draws| :: draws[j].column == After(draws[i])
  }

  /** No two neighbouring calls could have been one. */
  ghost predicate Uncut(draws: seq<Draw>) {
    forall i, j | 0 <= i < |draws| && j == i + 1 < |draws| :: draws[j].attribute != draws[i].attribute
  }

  lemma FirstRun(line: seq<Cell>, row: nat, position: nat, end: nat)
    requires position <= end < |line|
    requires forall c | 0 <= c < |line| :: line[c].character != 0
    ensures var d := RunDraw(line, row, position, end);
            ShowsPart(d, line, row) && d.column == position && After(d) == RunEnd(line, position, end) + 1
  {
    hide RunEnd;
    var d := RunDraw(line, row, position, end);
    assert forall i | 0 <= i < |d.text| :: d.text[i] == line[position + i].character;
  }

  lemma FirstThenRest(d: Draw, rest: seq<Draw>, line: seq<Cell>, row: nat, position: nat, end: nat)
    requires position <= end < |line| && ShowsPart(d, line, row) && d.column == position
    requires After(d) <= end && Covers(rest, line, row, After(d), end) && Uncut(rest)
    requires line[After(d)].attribute != d.attribute
    ensures Covers([d] + rest, line, row, position, end) && Uncut([d] + rest)
  {
    var draws := [d] + rest;
    forall i, j | 0 <= i < |draws| && j == i + 1 < |draws|
      ensures draws[j].column == After(draws[i]) && draws[j].attribute != draws[i].attribute
    {
      assert draws[j] == rest[i];
      if i > 0 {
        assert draws[i] == rest[i - 1];
      } else {
        assert ShowsPart(rest[0], line, row);
      }
    }
    forall i | 0 <= i < |draws| ensures ShowsPart(draws[i], line, row) {
      assert i > 0 ==> draws[i] == rest[i - 1];
    }
    assert draws[|draws| - 1] == rest[|rest| - 1];
  }

  lemma OnlyRun(d: Draw, line: seq<Cell>, row: nat, position: nat, end: nat)
    requires position <= end < |line| && ShowsPart(d, line, row) && d.column == position && After(d) == end + 1
    ensures Covers([d], line, row, position, end) && Uncut([d])
  {
  }

  /** A repainted line adds exactly these calls: its span, covered once, by uncut runs. */
  lemma {:induction false} LineIsDrawnInUncutRuns(screen: Screen, line: seq<Cell>, row: nat, position: nat, end: nat)
    requires position <= end < |line|
    requires forall c | 0 <= c < |line| :: line[c].character != 0
    ensures var drawn := LinePainted(screen, line, row, position, end).drawn;
            && |screen.drawn| <= |drawn| && drawn[..|screen.drawn|] == screen.drawn
            && Covers(drawn[|screen.drawn|..], line, row, position, end) && Uncut(drawn[|screen.drawn|..])
    decreases end - position
  {
    hide RunEnd, RunDraw, Covers, ShowsPart, Uncut;
    var d := RunDraw(line, row, position, end);
    var mid := screen.Painted(d);
    var last := RunEnd(line, position, end);
    var drawn := LinePainted(screen, line, row, position, end).drawn;
    FirstRun(line, row, position, end);
    DrawColumn(line, row, position, end);
    if last < end {
      LineIsDrawnInUncutRuns(mid, line, row, last + 1, end);
      var rest := drawn[|mid.drawn|..];
      FirstThenRest(d, rest, line, row, position, end);
      assert drawn[..|mid.drawn|] == screen.drawn + [d];
      assert drawn[|screen.drawn|..] == [d] + rest;
    } else {
      OnlyRun(d, line, row, position, end);
      assert drawn == screen.drawn + [d];
      assert drawn[|screen.drawn|..] == [d];
    }
  }

  lemma DrawColumn(line: seq<Cell>, row: nat, position: nat, end: nat)
    requires position <= end < |line|
    ensures RunDraw(line, row, position, end).attribute == line[position].attribute
  {
  }

  /** Uncut runs are never behind any other way of covering the same span. */
  lemma {:induction false} UncutRunsStayAhead(
    a: seq<Draw>, b: seq<Draw>, line: seq<Cell>, row: nat, position: nat, end: nat, k: nat)
    requires position <= end < |line| && k < |a| && k < |b|
    requires Covers(a, line, row, position, end) && Uncut(a) && Covers(b, line, row, position, end)
    ensures After(b[k]) <= After(a[k])
  {
    assert ShowsPart(a[k], line, row) && ShowsPart(b[k], line, row);
    if k > 0 {
      UncutRunsStayAhead(a, b, line, row, position, end, k - 1);
      assert a[k].column == After(a[k - 1]) && b[k].column == After(b[k - 1]);
    }
    AttributeAt(a[k], line, row, After(a[k]) - 1);
    if k + 1 < |a| {
      assert ShowsPart(a[k + 1], line, row) && a[k + 1].column == After(a[k]) && a[k + 1].attribute != a[k].attribute;
      AttributeAt(a[k + 1], line, row, After(a[k]));
    }
    if After(a[k]) < After(b[k]) {
      EndsBy(b, line, row, position, end, k);
    }
  }

  lemma AttributeAt(d: Draw, line: seq<Cell>, row: nat, c: nat)
    requires ShowsPart(d, line, row) && d.column <= c < After(d)
    ensures line[c].attribute == d.attribute
  {
  }

  lemma {:induction false} EndsBy(b: seq<Draw>, line: seq<Cell>, row: nat, position: nat, end: nat, k: nat)
    requires position <= end < |line| && k < |b| && Covers(b, line, row, position, end)
    ensures After(b[k]) <= end + 1
    ensures k + 1 < |b| ==> After(b[k]) <= end
    decreases |b| - k
  {
    if k + 1 < |b| {
      EndsBy(b, line, row, position, end, k + 1);
      assert ShowsPart(b[k + 1], line, row) && b[k + 1].column == After(b[k]);
    }
  }

  /** No way of painting a span cell by cell right needs fewer output calls than a repaint makes. */
  lemma RepaintMakesFewestCalls(
    screen: Screen, line: seq<Cell>, row: nat, position: nat, end: nat, other: seq<Draw>)
    requires position <= end < |line|
    requires forall c | 0 <= c < |line| :: line[c].character != 0
    requires Covers(other, line, row, position, end)
    ensures |LinePainted(screen, line, row, position, end).drawn| - |screen.drawn| <= |other|
  {
    hide Covers, Uncut, LinePainted;
    LineIsDrawnInUncutRuns(screen, line, row, position, end);
    var draws := LinePainted(screen, line, row, position, end).drawn[|screen.drawn|..];
    FewestRuns(draws, other, line, row, position, end);
  }

  lemma FewestRuns(a: seq<Draw>, b: seq<Draw>, line: seq<Cell>, row: nat, position: nat, end: nat)
    requires position <= end < |line|
    requires Covers(a, line, row, position, end) && Uncut(a) && Covers(b, line, row, position, end)
    ensures |a| <= |b|
  {
    if |a| > |b| {
      UncutRunsStayAhead(a, b, line, row, position, end, |b| - 1);
      EndsBy(a, line, row, position, end, |b| - 1);
      assert false;
    }
  }
}
