/**
 * NeedlemanWunsch.align: global pairwise alignment by dynamic programming, with a single
 * matrix for linear gap penalties and Gotoh's three matrices (M, Ix, Iy) for affine ones,
 * followed by the deterministic "highroad" traceback. Every value the Java code stores in its
 * `short[][]` matrices passes through the `(short)` cast, modelled by ToShort; the comparisons
 * made during traceback are on ints and are not cast.
 */
module Alignment {
  import opened Wrappers
  import opened JavaLang
  import opened AlignedSequences
  import opened SequencePairs

  /** A Java `short`: the type of gap penalties and substitution scores. */
  type Short = x: int | -32768 <= x <= 32767

  /** GapPenalty.Type; every type other than LINEAR takes the affine code path. */
  datatype GapType = Constant | Linear | Affine

  datatype GapPenalty = GapPenalty(kind: GapType, open: Short, ext: Short)

  /** SubstitutionMatrix.getValue as a total function on compound names. */
  type Substitution = (string, string) -> Short

  /** A sequence: its compounds (by name) and the identity of its compound set. */
  datatype Sequence = Sequence(compounds: seq<string>, compoundSet: nat)

  /** Everything the recurrences read: the two compound lists, the scores and the penalties. */
  datatype Input = Input(query: seq<string>, target: seq<string>, sub: Substitution, open: Short, ext: Short)
  {
    /** The substitution score of query compound x against target compound y (both 1-based). */
    function Sub(x: nat, y: nat): Short
      requires 1 <= x <= |query| && 1 <= y <= |target|
    {
      sub(query[x - 1], target[y - 1])
    }
  }

  function Max(a: int, b: int): int { if a >= b then a else b }

  function Max3(a: int, b: int, c: int): (r: int)
    ensures r >= a && r >= b && r >= c
    ensures r == a || r == b || r == c
  {
    Max(Max(a, b), c)
  }

  // ---------------------------------------------------------------------------------------
  // Linear gap penalties

  /** The value Java computes for cell (x, y) before the `(short)` cast. */
  function LinRaw(inp: Input, x: nat, y: nat): int
    requires x <= |inp.query| && y <= |inp.target|
    decreases x + y, 0
  {
    if x == 0 && y == 0 then 0
    else if y == 0 then LinCell(inp, x - 1, 0) + inp.ext
    else if x == 0 then LinCell(inp, 0, y - 1) + inp.ext
    else Max3(LinCell(inp, x - 1, y) + inp.ext, LinCell(inp, x, y - 1) + inp.ext,
              LinCell(inp, x - 1, y - 1) + inp.Sub(x, y))
  }

  /** scores[x][y] in linear mode. */
  function LinCell(inp: Input, x: nat, y: nat): (r: int)
    requires x <= |inp.query| && y <= |inp.target|
    ensures IsShort(r)
    decreases x + y, 1
  {
    ToShort(LinRaw(inp, x, y))
  }

  /** No cell of the linear matrix overflows 16 bits before the cast. */
  predicate LinearInRange(inp: Input)
  {
    forall x: nat, y: nat {:trigger LinRaw(inp, x, y)} :: x <= |inp.query| && y <= |inp.target| ==> IsShort(LinRaw(inp, x, y))
  }

  /** The linear matrix as a value, row by row. */
  ghost function LinGrid(inp: Input): (T: seq<seq<int>>)
    ensures IsLinGrid(inp, T)
  {
    seq(|inp.query| + 1, x requires 0 <= x <= |inp.query| =>
      seq(|inp.target| + 1, y requires 0 <= y <= |inp.target| => LinCell(inp, x, y)))
  }

  /** T holds, at every (x, y), the cell of the linear matrix. */
  ghost predicate IsLinGrid(inp: Input, T: seq<seq<int>>)
  {
    |T| == |inp.query| + 1 &&
    (forall x :: 0 <= x < |T| ==> |T[x]| == |inp.target| + 1) &&
    forall x, y {:trigger LinCell(inp, x, y)} :: 0 <= x <= |inp.query| && 0 <= y <= |inp.target| ==>
      T[x][y] == LinCell(inp, x, y)
  }

  predicate LinearFilled(inp: Input, scores: array2<int>)
    reads scores
  {
    scores.Length0 == |inp.query| + 1 && scores.Length1 == |inp.target| + 1 &&
    forall x, y {:trigger scores[x, y]} :: 0 <= x < scores.Length0 && 0 <= y < scores.Length1 ==> scores[x, y] == LinCell(inp, x, y)
  }

  /** Lines 96-99: a cell of column 0 below the origin. */
  lemma LinColumnStep(inp: Input, T: seq<seq<int>>, x: nat)
    requires IsLinGrid(inp, T) && 1 <= x <= |inp.query|
    ensures T[x][0] == ToShort(T[x - 1][0] + inp.ext)
  {
    assert T[x - 1][0] == LinCell(inp, x - 1, 0);
    assert T[x][0] == LinCell(inp, x, 0);
  }

  /** Lines 97-99 for row 0: a cell right of the origin. */
  lemma LinRowStep(inp: Input, T: seq<seq<int>>, y: nat)
    requires IsLinGrid(inp, T) && 1 <= y <= |inp.target|
    ensures T[0][y] == ToShort(T[0][y - 1] + inp.ext)
  {
    assert T[0][y - 1] == LinCell(inp, 0, y - 1);
    assert T[0][y] == LinCell(inp, 0, y);
  }

  /** Lines 101-104: an inner cell from the three cells before it. */
  lemma LinInnerStep(inp: Input, T: seq<seq<int>>, x: nat, y: nat)
    requires IsLinGrid(inp, T) && 1 <= x <= |inp.query| && 1 <= y <= |inp.target|
    ensures T[x][y] == ToShort(Max(Max(T[x - 1][y] + inp.ext, T[x][y - 1] + inp.ext), T[x - 1][y - 1] + inp.Sub(x, y)))
  {
    assert T[x - 1][y] == LinCell(inp, x - 1, y);
    assert T[x][y - 1] == LinCell(inp, x, y - 1);
    assert T[x - 1][y - 1] == LinCell(inp, x - 1, y - 1);
    assert T[x][y] == LinCell(inp, x, y);
  }

  /** Lines 86-106: allocate scores and fill it row by row. */
  method FillLinear(inp: Input) returns (scores: array2<int>)
    ensures fresh(scores) && LinearFilled(inp, scores)
  {
    ghost var T := LinGrid(inp);
    var n, m := |inp.query|, |inp.target|;
    scores := new int[n + 1, m + 1];
    assert T[0][0] == LinCell(inp, 0, 0);
    scores[0, 0] := 0;
    var x := 1;
    while x <= n
      invariant 1 <= x <= n + 1
      invariant forall i :: 0 <= i < x ==> scores[i, 0] == T[i][0]
    {
      LinColumnStep(inp, T, x);
      scores[x, 0] := ToShort(scores[x - 1, 0] + inp.ext);
      x := x + 1;
    }
    var y := 1;
    while y <= m
      invariant 1 <= y <= m + 1
      invariant forall i :: 0 <= i <= n ==> scores[i, 0] == T[i][0]
      invariant forall j :: 0 <= j < y ==> scores[0, j] == T[0][j]
    {
      LinRowStep(inp, T, y);
      scores[0, y] := ToShort(scores[0, y - 1] + inp.ext);
      y := y + 1;
    }
    x := 1;
    while x <= n
      invariant 1 <= x <= n + 1
      invariant forall i, j {:trigger scores[i, j]} :: 0 <= i <= n && 0 <= j <= m && (i < x || j == 0) ==> scores[i, j] == T[i][j]
    {
      FillLinearRow(inp, T, scores, x);
      x := x + 1;
    }
    forall i, j | 0 <= i <= n && 0 <= j <= m
      ensures scores[i, j] == LinCell(inp, i, j)
    {
      assert scores[i, j] == T[i][j];
    }
  }

  /** The inner loop of lines 101-105: row x from the row above it and the cell to the left. */
  method FillLinearRow(inp: Input, ghost T: seq<seq<int>>, scores: array2<int>, x: nat)
    requires IsLinGrid(inp, T)
    requires scores.Length0 == |inp.query| + 1 && scores.Length1 == |inp.target| + 1 && 1 <= x <= |inp.query|
    requires forall i, j {:trigger scores[i, j]} :: 0 <= i < scores.Length0 && 0 <= j < scores.Length1 && (i < x || j == 0) ==> scores[i, j] == T[i][j]
    modifies scores
    ensures forall i, j {:trigger scores[i, j]} :: 0 <= i < scores.Length0 && 0 <= j < scores.Length1 && (i <= x || j == 0) ==> scores[i, j] == T[i][j]
  {
    var y := 1;
    while y <= |inp.target|
      invariant 1 <= y <= |inp.target| + 1
      invariant forall i, j {:trigger scores[i, j]} ::
        0 <= i < scores.Length0 && 0 <= j < scores.Length1 && (i < x || j == 0 || (i == x && j < y)) ==> scores[i, j] == T[i][j]
    {
      LinInnerStep(inp, T, x, y);
      scores[x, y] := ToShort(Max(Max(scores[x - 1, y] + inp.ext, scores[x, y - 1] + inp.ext), scores[x - 1, y - 1] + inp.Sub(x, y)));
      y := y + 1;
    }
  }

  /** The step lists of a finished traceback to (x, y): equal length, no column that is a gap on both
      sides, and exactly x query and y target compounds. */
  predicate WellFormed(sx: seq<Step>, sy: seq<Step>, x: nat, y: nat)
  {
    |sx| == |sy| && NoDoubleGap(sx, sy) && CompoundCount(sx) == x && CompoundCount(sy) == y
  }

  /** No column shows a gap in both rows (stated column by column from the end). */
  predicate NoDoubleGap(sx: seq<Step>, sy: seq<Step>)
    requires |sx| == |sy|
  {
    sx == [] || (NoDoubleGap(sx[..|sx| - 1], sy[..|sy| - 1]) && (sx[|sx| - 1] == Compound || sy[|sy| - 1] == Compound))
  }

  /** The recursive definition says the same as the column-wise one. */
  lemma {:induction false} NoDoubleGapAt(sx: seq<Step>, sy: seq<Step>, i: nat)
    requires |sx| == |sy| && NoDoubleGap(sx, sy) && i < |sx|
    ensures sx[i] == Compound || sy[i] == Compound
  {
    if i < |sx| - 1 {
      NoDoubleGapAt(sx[..|sx| - 1], sy[..|sy| - 1], i);
    }
  }

  function Ones(a: Step): nat { if a == Compound then 1 else 0 }

  /** Appending one column that is not a double gap keeps a traceback well formed. */
  function Extend(p: (seq<Step>, seq<Step>), a: Step, b: Step, ghost x: nat, ghost y: nat): (r: (seq<Step>, seq<Step>))
    requires WellFormed(p.0, p.1, x, y) && (a == Compound || b == Compound)
    ensures r == (p.0 + [a], p.1 + [b])
    ensures WellFormed(r.0, r.1, x + Ones(a), y + Ones(b))
  {
    assert (p.0 + [a])[..|p.0|] == p.0;
    assert (p.1 + [b])[..|p.1|] == p.1;
    (p.0 + [a], p.1 + [b])
  }

  /** A traceback move: Up consumes a query compound against a gap (x - 1), Left a target compound
      against a gap (y - 1), Diag one compound of each. */
  datatype Move = Up | Diag | Left
  {
    /** The column the move emits: the query row's step and the target row's step. */
    function QueryStep(): Step { if this == Left then Gap else Compound }
    function TargetStep(): Step { if this == Up then Gap else Compound }
    function PrevX(x: nat): nat { if this == Left || x == 0 then x else x - 1 }
    function PrevY(y: nat): nat { if this == Up || y == 0 then y else y - 1 }
  }

  /** The highroad choice of lines 111-129 at (x, y): Up before Diag before Left. */
  function LinearMove(inp: Input, x: nat, y: nat): (mv: Move)
    requires x <= |inp.query| && y <= |inp.target| && (x > 0 || y > 0)
    ensures mv == Up ==> x > 0
    ensures mv == Diag ==> x > 0 && y > 0
    ensures mv == Left ==> y > 0
  {
    if x == 0 then Left
    else if y == 0 || LinCell(inp, x, y) == LinCell(inp, x - 1, y) + inp.ext then Up
    else if LinCell(inp, x, y) == LinCell(inp, x - 1, y - 1) + inp.Sub(x, y) then Diag
    else Left
  }

  /** The highroad path from (0, 0) to (x, y) that lines 108-130 recover in linear mode. */
  function LinearTrace(inp: Input, x: nat, y: nat): (r: (seq<Step>, seq<Step>))
    requires x <= |inp.query| && y <= |inp.target|
    ensures WellFormed(r.0, r.1, x, y)
    decreases x + y
  {
    if x == 0 && y == 0 then ([], [])
    else
      var mv := LinearMove(inp, x, y);
      Extend(LinearTrace(inp, mv.PrevX(x), mv.PrevY(y)), mv.QueryStep(), mv.TargetStep(), mv.PrevX(x), mv.PrevY(y))
  }

  lemma PrependColumn(a: seq<Step>, s: Step, b: seq<Step>)
    ensures (a + [s]) + b == a + ([s] + b)
  {
  }

  /** Lines 108-130: walk back from (n, m) to (0, 0), prepending one column per step. */
  method TracebackLinear(inp: Input, scores: array2<int>) returns (sx: seq<Step>, sy: seq<Step>)
    requires LinearFilled(inp, scores)
    ensures (sx, sy) == LinearTrace(inp, |inp.query|, |inp.target|)
    ensures WellFormed(sx, sy, |inp.query|, |inp.target|)
  {
    var x, y := scores.Length0 - 1, scores.Length1 - 1;
    sx, sy := [], [];
    ghost var full := LinearTrace(inp, x, y);
    assert full.0 + sx == full.0 && full.1 + sy == full.1;
    while x > 0 || y > 0
      invariant 0 <= x <= |inp.query| && 0 <= y <= |inp.target|
      invariant full.0 == LinearTrace(inp, x, y).0 + sx && full.1 == LinearTrace(inp, x, y).1 + sy
      decreases x + y
    {
      var mv: Move;
      if x == 0 {
        mv := Left;
      } else if y == 0 || scores[x, y] == scores[x - 1, y] + inp.ext {
        mv := Up;
      } else if scores[x, y] == scores[x - 1, y - 1] + inp.Sub(x, y) {
        mv := Diag;
      } else {
        mv := Left;
      }
      assert mv == LinearMove(inp, x, y);
      ghost var prev := LinearTrace(inp, mv.PrevX(x), mv.PrevY(y));
      assert LinearTrace(inp, x, y) == (prev.0 + [mv.QueryStep()], prev.1 + [mv.TargetStep()]);
      PrependColumn(prev.0, mv.QueryStep(), sx);
      PrependColumn(prev.1, mv.TargetStep(), sy);
      sx, sy := [mv.QueryStep()] + sx, [mv.TargetStep()] + sy;
      x, y := mv.PrevX(x), mv.PrevY(y);
    }
    assert [] + sx == sx && [] + sy == sy;
  }

  /** The score of a step list recomputed column by column from 0: the extension penalty for a
      gap column, the substitution score for a compound/compound column. */
  function LinearReplay(inp: Input, sx: seq<Step>, sy: seq<Step>): int
    requires |sx| == |sy| && CompoundCount(sx) <= |inp.query| && CompoundCount(sy) <= |inp.target|
    decreases |sx|
  {
    if sx == [] then 0
    else
      var k := |sx| - 1;
      var rest := LinearReplay(inp, sx[..k], sy[..k]);
      if sx[k] == Compound && sy[k] == Compound then rest + inp.Sub(CompoundCount(sx), CompoundCount(sy))
      else rest + inp.ext
  }

  /** Replaying one more column adds that column's score. */
  lemma ReplayExtend(inp: Input, p: (seq<Step>, seq<Step>), mv: Move, x: nat, y: nat)
    requires WellFormed(p.0, p.1, x, y)
    requires x + Ones(mv.QueryStep()) <= |inp.query| && y + Ones(mv.TargetStep()) <= |inp.target|
    ensures var r := Extend(p, mv.QueryStep(), mv.TargetStep(), x, y);
      LinearReplay(inp, r.0, r.1) == LinearReplay(inp, p.0, p.1) + (if mv == Diag then inp.Sub(x + 1, y + 1) else inp.ext)
  {
    var r := Extend(p, mv.QueryStep(), mv.TargetStep(), x, y);
    assert r.0[..|r.0| - 1] == p.0 && r.1[..|r.1| - 1] == p.1;
  }

  /** Without overflow, the cell a highroad move comes from differs from (x, y) by exactly that
      move's score; for Left this is the case the code takes without testing it. */
  lemma LinearMoveScore(inp: Input, x: nat, y: nat)
    requires x <= |inp.query| && y <= |inp.target| && (x > 0 || y > 0) && LinearInRange(inp)
    ensures var mv := LinearMove(inp, x, y);
      LinCell(inp, x, y) == LinCell(inp, mv.PrevX(x), mv.PrevY(y)) + (if mv == Diag then inp.Sub(x, y) else inp.ext)
  {
    assert IsShort(LinRaw(inp, x, y));
  }

  /** When no cell overflows 16 bits, replaying the highroad path reproduces the cell's score. */
  lemma {:induction false} LinearTraceReplaysScore(inp: Input, x: nat, y: nat)
    requires x <= |inp.query| && y <= |inp.target| && LinearInRange(inp)
    ensures LinearReplay(inp, LinearTrace(inp, x, y).0, LinearTrace(inp, x, y).1) == LinCell(inp, x, y)
    decreases x + y
  {
    if x > 0 || y > 0 {
      var mv := LinearMove(inp, x, y);
      LinearMoveScore(inp, x, y);
      LinearTraceReplaysScore(inp, mv.PrevX(x), mv.PrevY(y));
      ReplayExtend(inp, LinearTrace(inp, mv.PrevX(x), mv.PrevY(y)), mv, mv.PrevX(x), mv.PrevY(y));
    }
  }

  // ---------------------------------------------------------------------------------------
  // Affine gap penalties (Gotoh)

  /** One cell of the three affine matrices: scores (M), ix and iy. */
  datatype Cell = Cell(m: int, ix: int, iy: int)

  /** `min` of line 135: the boundary value of the matrices a path may not come from. */
  function Sentinel(inp: Input): (r: int)
    ensures IsShort(r)
    ensures IsShort(SHORT_MIN - inp.open - inp.ext) ==> r == SHORT_MIN - inp.open - inp.ext
  {
    ToShort(SHORT_MIN - inp.open - inp.ext)
  }

  /** scores[x][y] in affine mode (lines 137-154): the best score of a path to (x, y) whose last
      column pairs two compounds; the sentinel on the borders other than the origin. */
  function AffM(inp: Input, x: nat, y: nat): (r: int)
    requires x <= |inp.query| && y <= |inp.target|
    ensures IsShort(r)
    decreases x + y
  {
    if x == 0 && y == 0 then 0
    else if x == 0 || y == 0 then Sentinel(inp)
    else ToShort(Max3(AffM(inp, x - 1, y - 1), AffIX(inp, x - 1, y - 1), AffIY(inp, x - 1, y - 1)) + inp.Sub(x, y))
  }

  /** ix[x][y]: the best score of a path to (x, y) whose last column pairs a query compound with a gap. */
  function AffIX(inp: Input, x: nat, y: nat): (r: int)
    requires x <= |inp.query| && y <= |inp.target|
    ensures IsShort(r)
    decreases x + y
  {
    if x == 0 && y == 0 then inp.open
    else if x == 0 then Sentinel(inp)
    else if y == 0 then ToShort(AffIX(inp, x - 1, 0) + inp.ext)
    else ToShort(Max(AffM(inp, x - 1, y) + inp.open, AffIX(inp, x - 1, y)) + inp.ext)
  }

  /** iy[x][y]: the best score of a path to (x, y) whose last column pairs a gap with a target compound. */
  function AffIY(inp: Input, x: nat, y: nat): (r: int)
    requires x <= |inp.query| && y <= |inp.target|
    ensures IsShort(r)
    decreases x + y
  {
    if x == 0 && y == 0 then inp.open
    else if y == 0 then Sentinel(inp)
    else if x == 0 then ToShort(AffIY(inp, 0, y - 1) + inp.ext)
    else ToShort(Max(AffM(inp, x, y - 1) + inp.open, AffIY(inp, x, y - 1)) + inp.ext)
  }

  /** The three matrices at (x, y). */
  function AffCell(inp: Input, x: nat, y: nat): Cell
    requires x <= |inp.query| && y <= |inp.target|
  {
    Cell(AffM(inp, x, y), AffIX(inp, x, y), AffIY(inp, x, y))
  }

  /** The whole of the three matrices as a value, row by row. */
  ghost function AffGrid(inp: Input): (T: seq<seq<Cell>>)
    ensures IsGrid(inp, T)
  {
    seq(|inp.query| + 1, x requires 0 <= x <= |inp.query| =>
      seq(|inp.target| + 1, y requires 0 <= y <= |inp.target| => AffCell(inp, x, y)))
  }

  /** T holds, at every (x, y), the cell of the three matrices. */
  ghost predicate IsGrid(inp: Input, T: seq<seq<Cell>>)
  {
    |T| == |inp.query| + 1 &&
    (forall x :: 0 <= x < |T| ==> |T[x]| == |inp.target| + 1) &&
    forall x, y {:trigger AffCell(inp, x, y)} :: 0 <= x <= |inp.query| && 0 <= y <= |inp.target| ==>
      T[x][y] == AffCell(inp, x, y)
  }

  lemma GridCell(inp: Input, T: seq<seq<Cell>>, x: nat, y: nat)
    requires IsGrid(inp, T) && x <= |inp.query| && y <= |inp.target|
    ensures T[x][y] == AffCell(inp, x, y)
  {
  }

  /** The arrays scores, ix and iy hold the grid T. */
  ghost predicate Holds(scores: array2<int>, ix: array2<int>, iy: array2<int>, T: seq<seq<Cell>>)
    reads scores, ix, iy
  {
    scores.Length0 == ix.Length0 == iy.Length0 == |T| &&
    (forall x :: 0 <= x < |T| ==> scores.Length1 == ix.Length1 == iy.Length1 == |T[x]|) &&
    (forall x, y :: 0 <= x < scores.Length0 && 0 <= y < scores.Length1 ==> scores[x, y] == T[x][y].m) &&
    (forall x, y :: 0 <= x < scores.Length0 && 0 <= y < scores.Length1 ==> ix[x, y] == T[x][y].ix) &&
    (forall x, y :: 0 <= x < scores.Length0 && 0 <= y < scores.Length1 ==> iy[x, y] == T[x][y].iy)
  }

  /** Lines 133-154 fill scores, ix and iy with the three matrices. */
  ghost predicate AffineFilled(inp: Input, scores: array2<int>, ix: array2<int>, iy: array2<int>)
    reads scores, ix, iy
  {
    scores.Length0 == ix.Length0 == iy.Length0 == |inp.query| + 1 &&
    scores.Length1 == ix.Length1 == iy.Length1 == |inp.target| + 1 &&
    Holds(scores, ix, iy, AffGrid(inp))
  }

  /** Lines 138-139: a cell of column 0 below the origin. */
  lemma AffColumnStep(inp: Input, T: seq<seq<Cell>>, x: nat)
    requires IsGrid(inp, T) && 1 <= x <= |inp.query|
    ensures T[x][0] == Cell(Sentinel(inp), ToShort(T[x - 1][0].ix + inp.ext), Sentinel(inp))
  {
    GridCell(inp, T, x - 1, 0);
    GridCell(inp, T, x, 0);
  }

  /** Lines 142-143: a cell of row 0 right of the origin. */
  lemma AffRowStep(inp: Input, T: seq<seq<Cell>>, y: nat)
    requires IsGrid(inp, T) && 1 <= y <= |inp.target|
    ensures T[0][y] == Cell(Sentinel(inp), Sentinel(inp), ToShort(T[0][y - 1].iy + inp.ext))
  {
    GridCell(inp, T, 0, y - 1);
    GridCell(inp, T, 0, y);
  }

  /** Line 148: scores of an inner cell from its diagonal neighbour. */
  lemma AffMStep(inp: Input, T: seq<seq<Cell>>, x: nat, y: nat)
    requires IsGrid(inp, T) && 1 <= x <= |inp.query| && 1 <= y <= |inp.target|
    ensures T[x][y].m == ToShort(Max(Max(T[x - 1][y - 1].m, T[x - 1][y - 1].ix), T[x - 1][y - 1].iy) + inp.Sub(x, y))
  {
    GridCell(inp, T, x - 1, y - 1);
    GridCell(inp, T, x, y);
  }

  /** Line 150: ix of an inner cell from the cell above it. */
  lemma AffIXStep(inp: Input, T: seq<seq<Cell>>, x: nat, y: nat)
    requires IsGrid(inp, T) && 1 <= x <= |inp.query| && 1 <= y <= |inp.target|
    ensures T[x][y].ix == ToShort(Max(T[x - 1][y].m + inp.open, T[x - 1][y].ix) + inp.ext)
  {
    GridCell(inp, T, x - 1, y);
    GridCell(inp, T, x, y);
  }

  /** Line 152: iy of an inner cell from the cell left of it. */
  lemma AffIYStep(inp: Input, T: seq<seq<Cell>>, x: nat, y: nat)
    requires IsGrid(inp, T) && 1 <= x <= |inp.query| && 1 <= y <= |inp.target|
    ensures T[x][y].iy == ToShort(Max(T[x][y - 1].m + inp.open, T[x][y - 1].iy) + inp.ext)
  {
    GridCell(inp, T, x, y - 1);
    GridCell(inp, T, x, y);
  }

  /** Lines 133-154: allocate ix and iy beside scores and fill all three. */
  method FillAffine(inp: Input) returns (scores: array2<int>, ix: array2<int>, iy: array2<int>)
    ensures fresh(scores) && fresh(ix) && fresh(iy) && scores != ix && scores != iy && ix != iy
    ensures scores.Length0 == ix.Length0 == iy.Length0 == |inp.query| + 1
    ensures scores.Length1 == ix.Length1 == iy.Length1 == |inp.target| + 1
    ensures AffineFilled(inp, scores, ix, iy)
  {
    ghost var T := AffGrid(inp);
    var n, m := |inp.query|, |inp.target|;
    scores := new int[n + 1, m + 1];
    ix := new int[n + 1, m + 1];
    iy := new int[n + 1, m + 1];
    FillAffineBorders(inp, T, scores, ix, iy);
    var x := 1;
    while x <= n
      invariant 1 <= x <= n + 1
      invariant forall i, j {:trigger scores[i, j]} :: 0 <= i <= n && 0 <= j <= m && (i < x || j == 0) ==> scores[i, j] == T[i][j].m
      invariant forall i, j {:trigger ix[i, j]} :: 0 <= i <= n && 0 <= j <= m && (i < x || j == 0) ==> ix[i, j] == T[i][j].ix
      invariant forall i, j {:trigger iy[i, j]} :: 0 <= i <= n && 0 <= j <= m && (i < x || j == 0) ==> iy[i, j] == T[i][j].iy
    {
      FillAffineRow(inp, T, scores, ix, iy, x);
      x := x + 1;
    }
  }

  /** Lines 136-144: the origin, column 0 and row 0 of the three matrices. */
  method FillAffineBorders(inp: Input, ghost T: seq<seq<Cell>>, scores: array2<int>, ix: array2<int>, iy: array2<int>)
    requires IsGrid(inp, T)
    requires scores != ix && scores != iy && ix != iy
    requires scores.Length0 == ix.Length0 == iy.Length0 == |inp.query| + 1
    requires scores.Length1 == ix.Length1 == iy.Length1 == |inp.target| + 1
    modifies scores, ix, iy
    ensures forall i, j {:trigger scores[i, j]} :: 0 <= i < scores.Length0 && 0 <= j < scores.Length1 && (i == 0 || j == 0) ==> scores[i, j] == T[i][j].m
    ensures forall i, j {:trigger ix[i, j]} :: 0 <= i < scores.Length0 && 0 <= j < scores.Length1 && (i == 0 || j == 0) ==> ix[i, j] == T[i][j].ix
    ensures forall i, j {:trigger iy[i, j]} :: 0 <= i < scores.Length0 && 0 <= j < scores.Length1 && (i == 0 || j == 0) ==> iy[i, j] == T[i][j].iy
  {
    var n, m := |inp.query|, |inp.target|;
    var min := ToShort(SHORT_MIN - inp.open - inp.ext);
    GridCell(inp, T, 0, 0);
    scores[0, 0] := 0;
    ix[0, 0] := inp.open;
    iy[0, 0] := inp.open;
    var x := 1;
    while x <= n
      invariant 1 <= x <= n + 1
      invariant forall i :: 0 <= i < x ==> scores[i, 0] == T[i][0].m && ix[i, 0] == T[i][0].ix && iy[i, 0] == T[i][0].iy
    {
      AffColumnStep(inp, T, x);
      scores[x, 0] := min;
      iy[x, 0] := min;
      ix[x, 0] := ToShort(ix[x - 1, 0] + inp.ext);
      x := x + 1;
    }
    var y := 1;
    while y <= m
      invariant 1 <= y <= m + 1
      invariant forall i :: 0 <= i <= n ==> scores[i, 0] == T[i][0].m && ix[i, 0] == T[i][0].ix && iy[i, 0] == T[i][0].iy
      invariant forall j :: 0 <= j < y ==> scores[0, j] == T[0][j].m && ix[0, j] == T[0][j].ix && iy[0, j] == T[0][j].iy
    {
      AffRowStep(inp, T, y);
      scores[0, y] := min;
      ix[0, y] := min;
      iy[0, y] := ToShort(iy[0, y - 1] + inp.ext);
      y := y + 1;
    }
  }

  /** The inner loop of lines 146-153 for row x. */
  method FillAffineRow(inp: Input, ghost T: seq<seq<Cell>>, scores: array2<int>, ix: array2<int>, iy: array2<int>, x: nat)
    requires IsGrid(inp, T)
    requires scores != ix && scores != iy && ix != iy
    requires scores.Length0 == ix.Length0 == iy.Length0 == |inp.query| + 1
    requires scores.Length1 == ix.Length1 == iy.Length1 == |inp.target| + 1
    requires 1 <= x <= |inp.query|
    requires forall i, j {:trigger scores[i, j]} :: 0 <= i < scores.Length0 && 0 <= j < scores.Length1 && (i < x || j == 0) ==> scores[i, j] == T[i][j].m
    requires forall i, j {:trigger ix[i, j]} :: 0 <= i < scores.Length0 && 0 <= j < scores.Length1 && (i < x || j == 0) ==> ix[i, j] == T[i][j].ix
    requires forall i, j {:trigger iy[i, j]} :: 0 <= i < scores.Length0 && 0 <= j < scores.Length1 && (i < x || j == 0) ==> iy[i, j] == T[i][j].iy
    modifies scores, ix, iy
    ensures forall i, j {:trigger scores[i, j]} :: 0 <= i < scores.Length0 && 0 <= j < scores.Length1 && (i <= x || j == 0) ==> scores[i, j] == T[i][j].m
    ensures forall i, j {:trigger ix[i, j]} :: 0 <= i < scores.Length0 && 0 <= j < scores.Length1 && (i <= x || j == 0) ==> ix[i, j] == T[i][j].ix
    ensures forall i, j {:trigger iy[i, j]} :: 0 <= i < scores.Length0 && 0 <= j < scores.Length1 && (i <= x || j == 0) ==> iy[i, j] == T[i][j].iy
  {
    var y := 1;
    while y <= |inp.target|
      invariant 1 <= y <= |inp.target| + 1
      invariant forall i, j {:trigger scores[i, j]} :: 0 <= i < scores.Length0 && 0 <= j < scores.Length1 && (i < x || j == 0 || (i == x && j < y)) ==> scores[i, j] == T[i][j].m
      invariant forall i, j {:trigger ix[i, j]} :: 0 <= i < scores.Length0 && 0 <= j < scores.Length1 && (i < x || j == 0 || (i == x && j < y)) ==> ix[i, j] == T[i][j].ix
      invariant forall i, j {:trigger iy[i, j]} :: 0 <= i < scores.Length0 && 0 <= j < scores.Length1 && (i < x || j == 0 || (i == x && j < y)) ==> iy[i, j] == T[i][j].iy
    {
      AffMStep(inp, T, x, y);
      AffIXStep(inp, T, x, y);
      AffIYStep(inp, T, x, y);
      var mv := ToShort(Max(Max(scores[x - 1, y - 1], ix[x - 1, y - 1]), iy[x - 1, y - 1]) + inp.Sub(x, y));
      var xv := ToShort(Max(scores[x - 1, y] + inp.open, ix[x - 1, y]) + inp.ext);
      var yv := ToShort(Max(scores[x, y - 1] + inp.open, iy[x, y - 1]) + inp.ext);
      scores[x, y] := mv;
      ix[x, y] := xv;
      iy[x, y] := yv;
      y := y + 1;
    }
  }

  /** The matrix the affine traceback of lines 156-182 stands in. */
  datatype Last = M | IX | IY
  {
    /** The column a traceback step out of this matrix emits (lines 162-180). */
    function Emits(): Move
    {
      match this
      case IX => Up
      case M => Diag
      case IY => Left
    }
  }

  /** The value of the matrix l at this cell. */
  function ValueIn(c: Cell, l: Last): int
  {
    match l
    case M => c.m
    case IX => c.ix
    case IY => c.iy
  }

  /** Lines 158-159 and 172-173: the matrix holding the largest of the three values, ties going to
      ix and then to scores. */
  function StartState(c: Cell): (l: Last)
    ensures ValueIn(c, l) == Max3(c.m, c.ix, c.iy)
    ensures l == IY ==> c.iy > c.m && c.iy > c.ix
    ensures l == M ==> c.m > c.ix
  {
    var max := Max3(c.m, c.ix, c.iy);
    if max == c.ix then IX else if max == c.m then M else IY
  }

  /** The step out of matrix l at (x, y) stays inside the matrices. Where it does not, lines 162-180
      read index -1 and the Java code throws. */
  predicate CanStep(l: Last, x: nat, y: nat)
  {
    match l
    case IX => x > 0
    case M => x > 0 && y > 0
    case IY => y > 0
  }

  /** The matrix the traceback moves to after a step out of l at (x, y): lines 166, 172-173 and 179. */
  function NextState(inp: Input, x: nat, y: nat, l: Last): Last
    requires x <= |inp.query| && y <= |inp.target| && CanStep(l, x, y)
  {
    var mv := l.Emits();
    var c := AffCell(inp, mv.PrevX(x), mv.PrevY(y));
    match l
    case IX => if c.m + inp.open > c.ix then M else IX
    case M => StartState(c)
    case IY => if c.m + inp.open >= c.iy then M else IY
  }

  /** The highroad path that lines 156-182 recover, walking back from (x, y) in matrix l; None when
      the walk would leave the matrices before reaching the origin. */
  function AffineTrace(inp: Input, x: nat, y: nat, l: Last): (r: Option<(seq<Step>, seq<Step>)>)
    requires x <= |inp.query| && y <= |inp.target|
    ensures r.Some? ==> WellFormed(r.value.0, r.value.1, x, y)
    ensures x == 0 && y == 0 ==> r == Some(([], []))
    decreases x + y
  {
    if x == 0 && y == 0 then Some(([], []))
    else if !CanStep(l, x, y) then None
    else
      var mv := l.Emits();
      var rest := AffineTrace(inp, mv.PrevX(x), mv.PrevY(y), NextState(inp, x, y, l));
      if rest.None? then None
      else Some(Extend(rest.value, mv.QueryStep(), mv.TargetStep(), mv.PrevX(x), mv.PrevY(y)))
  }

  /** A partial traceback followed by the columns already emitted. */
  function Glue(r: Option<(seq<Step>, seq<Step>)>, sx: seq<Step>, sy: seq<Step>): Option<(seq<Step>, seq<Step>)>
  {
    if r.None? then None else Some((r.value.0 + sx, r.value.1 + sy))
  }

  lemma GlueColumn(r: Option<(seq<Step>, seq<Step>)>, a: Step, b: Step, sx: seq<Step>, sy: seq<Step>)
    ensures Glue(if r.None? then None else Some((r.value.0 + [a], r.value.1 + [b])), sx, sy) == Glue(r, [a] + sx, [b] + sy)
  {
    if r.Some? {
      PrependColumn(r.value.0, a, sx);
      PrependColumn(r.value.1, b, sy);
    }
  }

  /** Lines 156-182: walk back from (n, m) through the three matrices, prepending one column per step.
      None stands for the walk that leaves the matrices, where the Java code throws. */
  method TracebackAffine(inp: Input, scores: array2<int>, ix: array2<int>, iy: array2<int>)
    returns (r: Option<(seq<Step>, seq<Step>)>)
    requires AffineFilled(inp, scores, ix, iy)
    ensures r == AffineTrace(inp, |inp.query|, |inp.target|, StartState(AffCell(inp, |inp.query|, |inp.target|)))
    ensures r.Some? ==> WellFormed(r.value.0, r.value.1, |inp.query|, |inp.target|)
  {
    ghost var T := AffGrid(inp);
    var x, y := scores.Length0 - 1, scores.Length1 - 1;
    GridCell(inp, T, x, y);
    var max := Max(Max(scores[x, y], ix[x, y]), iy[x, y]);
    var last := if max == ix[x, y] then IX else if max == scores[x, y] then M else IY;
    assert last == StartState(AffCell(inp, x, y));
    var sx: seq<Step>, sy: seq<Step> := [], [];
    ghost var full := AffineTrace(inp, x, y, last);
    assert full == Glue(full, sx, sy) by {
      if full.Some? {
        assert full.value.0 + sx == full.value.0 && full.value.1 + sy == full.value.1;
      }
    }
    while x > 0 || y > 0
      invariant 0 <= x <= |inp.query| && 0 <= y <= |inp.target|
      invariant full == Glue(AffineTrace(inp, x, y, last), sx, sy)
      decreases x + y
    {
      if !CanStep(last, x, y) {
        return None;
      }
      var mv := last.Emits();
      var px, py := mv.PrevX(x), mv.PrevY(y);
      GridCell(inp, T, px, py);
      var next: Last;
      match last {
        case IX =>
          next := if scores[px, py] + inp.open > ix[px, py] then M else IX;
        case M =>
          max := Max(Max(scores[px, py], ix[px, py]), iy[px, py]);
          next := if max == ix[px, py] then IX else if max == scores[px, py] then M else IY;
        case IY =>
          next := if scores[px, py] + inp.open >= iy[px, py] then M else IY;
      }
      assert next == NextState(inp, x, y, last);
      GlueColumn(AffineTrace(inp, px, py, next), mv.QueryStep(), mv.TargetStep(), sx, sy);
      sx, sy := [mv.QueryStep()] + sx, [mv.TargetStep()] + sy;
      x, y, last := px, py, next;
    }
    assert [] + sx == sx && [] + sy == sy;
    r := Some((sx, sy));
  }


  /** Lines 184-188: keep in scores the largest of the three matrices, cell by cell. */
  method Collapse(scores: array2<int>, ix: array2<int>, iy: array2<int>)
    requires scores != ix && scores != iy
    requires scores.Length0 == ix.Length0 == iy.Length0 && scores.Length1 == ix.Length1 == iy.Length1
    modifies scores
    ensures forall x, y :: 0 <= x < scores.Length0 && 0 <= y < scores.Length1 ==>
      scores[x, y] == ToShort(Max3(old(scores[x, y]), ix[x, y], iy[x, y]))
  {
    var x := 0;
    while x < scores.Length0
      invariant 0 <= x <= scores.Length0
      invariant forall i, j :: 0 <= i < scores.Length0 && 0 <= j < scores.Length1 ==>
        scores[i, j] == if i < x then ToShort(Max3(old(scores[i, j]), ix[i, j], iy[i, j])) else old(scores[i, j])
    {
      CollapseRow(scores, ix, iy, x);
      x := x + 1;
    }
  }

  /** The inner loop of lines 186-187 for row x. */
  method CollapseRow(scores: array2<int>, ix: array2<int>, iy: array2<int>, x: nat)
    requires scores != ix && scores != iy
    requires scores.Length0 == ix.Length0 == iy.Length0 && scores.Length1 == ix.Length1 == iy.Length1
    requires x < scores.Length0
    modifies scores
    ensures forall i, j :: 0 <= i < scores.Length0 && 0 <= j < scores.Length1 ==>
      scores[i, j] == if i == x then ToShort(Max3(old(scores[i, j]), ix[i, j], iy[i, j])) else old(scores[i, j])
  {
    var y := 0;
    while y < scores.Length1
      invariant 0 <= y <= scores.Length1
      invariant forall i, j :: 0 <= i < scores.Length0 && 0 <= j < scores.Length1 ==>
        scores[i, j] == if i == x && j < y then ToShort(Max3(old(scores[i, j]), ix[i, j], iy[i, j])) else old(scores[i, j])
    {
      scores[x, y] := ToShort(Max(Max(scores[x, y], ix[x, y]), iy[x, y]));
      y := y + 1;
    }
  }

  /** The alignment's step lists fit the two sequences, so the pair constructor accepts them. */
  lemma WellFormedFits(q: seq<string>, t: seq<string>, sx: seq<Step>, sy: seq<Step>)
    requires WellFormed(sx, sy, |q|, |t|)
    ensures CheckPair(q, t, sx, sy).None?
  {
  }

  /** The largest of the three affine matrices at (x, y): what lines 184-188 store in scores. */
  ghost function AffBest(inp: Input, x: nat, y: nat): int
    requires x <= |inp.query| && y <= |inp.target|
  {
    Max3(AffM(inp, x, y), AffIX(inp, x, y), AffIY(inp, x, y))
  }

  /** scores after the collapse of lines 184-188. */
  ghost predicate CollapsedFilled(inp: Input, scores: array2<int>)
    reads scores
  {
    scores.Length0 == |inp.query| + 1 && scores.Length1 == |inp.target| + 1 &&
    forall x, y :: 0 <= x < scores.Length0 && 0 <= y < scores.Length1 ==> scores[x, y] == AffBest(inp, x, y)
  }

  /** The affine start state at (n, m), as lines 156-159 choose it. */
  function AffStart(inp: Input): Last
  {
    StartState(AffCell(inp, |inp.query|, |inp.target|))
  }

  /** Lines 133-188: fill, traceback and collapse in affine mode. */
  method AlignAffine(inp: Input) returns (tr: Option<(seq<Step>, seq<Step>)>, scores: array2<int>)
    ensures fresh(scores)
    ensures tr == AffineTrace(inp, |inp.query|, |inp.target|, AffStart(inp))
    ensures tr.Some? ==> CollapsedFilled(inp, scores)
  {
    var ix: array2<int>, iy: array2<int>;
    scores, ix, iy := FillAffine(inp);
    tr := TracebackAffine(inp, scores, ix, iy);
    if tr.None? {
      return;
    }
    ghost var T: seq<seq<Cell>> := AffGrid(inp);
    label filled:
    Collapse(scores, ix, iy);
    forall x, y | 0 <= x < scores.Length0 && 0 <= y < scores.Length1
      ensures scores[x, y] == AffBest(inp, x, y)
    {
      assert old@filled(scores[x, y]) == T[x][y].m;
      GridBest(inp, T, x, y);
    }
  }

  lemma GridBest(inp: Input, T: seq<seq<Cell>>, x: nat, y: nat)
    requires IsGrid(inp, T) && x <= |inp.query| && y <= |inp.target|
    ensures ToShort(Max3(T[x][y].m, T[x][y].ix, T[x][y].iy)) == AffBest(inp, x, y)
  {
    GridCell(inp, T, x, y);
  }

  // ---------------------------------------------------------------------------------------
  // Replaying an affine alignment

  /** The score of a step list under affine gap penalties, recomputed column by column from 0:
      the substitution score for a compound/compound column, and for a gap column the extension
      penalty, plus the opening penalty when the column before it is not the same kind of gap. */
  function AffineReplay(inp: Input, sx: seq<Step>, sy: seq<Step>): int
    requires |sx| == |sy| && CompoundCount(sx) <= |inp.query| && CompoundCount(sy) <= |inp.target|
    decreases |sx|
  {
    if sx == [] then 0
    else
      var k := |sx| - 1;
      var rest := AffineReplay(inp, sx[..k], sy[..k]);
      if sx[k] == Compound && sy[k] == Compound then rest + inp.Sub(CompoundCount(sx), CompoundCount(sy))
      else if k > 0 && sx[k - 1] == sx[k] && sy[k - 1] == sy[k] then rest + inp.ext
      else rest + inp.open + inp.ext
  }

  /** scores[x][y] before the cast of line 147. */
  function AffMRaw(inp: Input, x: nat, y: nat): int
    requires 1 <= x <= |inp.query| && 1 <= y <= |inp.target|
  {
    Max3(AffM(inp, x - 1, y - 1), AffIX(inp, x - 1, y - 1), AffIY(inp, x - 1, y - 1)) + inp.Sub(x, y)
  }

  /** ix[x][y] before the cast of lines 139 and 149. */
  function AffIXRaw(inp: Input, x: nat, y: nat): int
    requires 1 <= x <= |inp.query| && y <= |inp.target|
  {
    if y == 0 then AffIX(inp, x - 1, 0) + inp.ext
    else Max(AffM(inp, x - 1, y) + inp.open, AffIX(inp, x - 1, y)) + inp.ext
  }

  /** iy[x][y] before the cast of lines 143 and 151. */
  function AffIYRaw(inp: Input, x: nat, y: nat): int
    requires x <= |inp.query| && 1 <= y <= |inp.target|
  {
    if x == 0 then AffIY(inp, 0, y - 1) + inp.ext
    else Max(AffM(inp, x, y - 1) + inp.open, AffIY(inp, x, y - 1)) + inp.ext
  }

  /** No cell of the three affine matrices overflows 16 bits before the cast. */
  predicate AffineInRange(inp: Input)
  {
    (forall x: nat, y: nat {:trigger AffMRaw(inp, x, y)} :: 1 <= x <= |inp.query| && 1 <= y <= |inp.target| ==>
      IsShort(AffMRaw(inp, x, y))) &&
    (forall x: nat, y: nat {:trigger AffIXRaw(inp, x, y)} :: 1 <= x <= |inp.query| && y <= |inp.target| ==>
      IsShort(AffIXRaw(inp, x, y))) &&
    (forall x: nat, y: nat {:trigger AffIYRaw(inp, x, y)} :: x <= |inp.query| && 1 <= y <= |inp.target| ==>
      IsShort(AffIYRaw(inp, x, y)))
  }

  /** Replaying one more column adds its substitution score, or its extension penalty plus the
      opening penalty unless the column before it is the same kind of gap. */
  lemma AffReplayExtend(inp: Input, p: (seq<Step>, seq<Step>), l: Last, x: nat, y: nat)
    requires WellFormed(p.0, p.1, x, y)
    requires x + Ones(l.Emits().QueryStep()) <= |inp.query| && y + Ones(l.Emits().TargetStep()) <= |inp.target|
    ensures var r := Extend(p, l.Emits().QueryStep(), l.Emits().TargetStep(), x, y);
      AffineReplay(inp, r.0, r.1) == AffineReplay(inp, p.0, p.1) +
        (if l == M then inp.Sub(x + 1, y + 1)
         else if |p.0| > 0 && p.0[|p.0| - 1] == l.Emits().QueryStep() && p.1[|p.1| - 1] == l.Emits().TargetStep() then inp.ext
         else inp.open + inp.ext)
  {
    var r := Extend(p, l.Emits().QueryStep(), l.Emits().TargetStep(), x, y);
    assert r.0[..|r.0| - 1] == p.0 && r.1[..|r.1| - 1] == p.1;
  }

  /** A walk that reaches the origin ends with the column its first state emits. */
  lemma TraceEndsWith(inp: Input, x: nat, y: nat, l: Last)
    requires x <= |inp.query| && y <= |inp.target| && (x > 0 || y > 0)
    requires AffineTrace(inp, x, y, l).Some?
    ensures var t := AffineTrace(inp, x, y, l).value;
      |t.0| > 0 && t.0[|t.0| - 1] == l.Emits().QueryStep() && t.1[|t.1| - 1] == l.Emits().TargetStep()
  {
  }

  /** A step out of M: the diagonal cell's best value plus the substitution score. */
  lemma StepOutOfM(inp: Input, x: nat, y: nat)
    requires 1 <= x <= |inp.query| && 1 <= y <= |inp.target|
    requires AffineInRange(inp) && inp.open <= 0
    ensures var next := NextState(inp, x, y, M);
      if x == 1 && y == 1 then AffM(inp, x, y) == inp.Sub(x, y)
      else AffM(inp, x, y) == ValueIn(AffCell(inp, x - 1, y - 1), next) + inp.Sub(x, y)
  {
    assert IsShort(AffMRaw(inp, x, y));
  }

  /** A step out of IX that stays inside the matrices: the cell above in M plus open and ext, or
      in IX plus ext, as the strict test of line 166 chooses. */
  lemma StepOutOfIX(inp: Input, x: nat, y: nat)
    requires 1 <= x <= |inp.query| && y <= |inp.target|
    requires AffineInRange(inp) && inp.open <= 0
    requires AffineTrace(inp, x, y, IX).Some?
    ensures var next := NextState(inp, x, y, IX);
      if x == 1 && y == 0 then AffIX(inp, x, y) == inp.open + inp.ext
      else AffIX(inp, x, y) == ValueIn(AffCell(inp, x - 1, y), next) + (if next == IX then inp.ext else inp.open + inp.ext)
  {
    assert IsShort(AffIXRaw(inp, x, y));
  }

  /** A step out of IY that stays inside the matrices: the cell to the left in M plus open and ext,
      or in IY plus ext, as the non-strict test of line 180 chooses. */
  lemma StepOutOfIY(inp: Input, x: nat, y: nat)
    requires x <= |inp.query| && 1 <= y <= |inp.target|
    requires AffineInRange(inp) && inp.open <= 0
    requires AffineTrace(inp, x, y, IY).Some?
    ensures var next := NextState(inp, x, y, IY);
      if x == 0 && y == 1 then AffIY(inp, x, y) == inp.open + inp.ext
      else AffIY(inp, x, y) == ValueIn(AffCell(inp, x, y - 1), next) + (if next == IY then inp.ext else inp.open + inp.ext)
  {
    assert IsShort(AffIYRaw(inp, x, y));
  }

  /** The walk out of l at (x, y) is its walk from the cell it steps to, plus one column; the
      replay of the rest, when the rest is not empty, is taken as known. */
  ghost predicate RestReplays(inp: Input, x: nat, y: nat, l: Last)
    requires x <= |inp.query| && y <= |inp.target| && (x > 0 || y > 0)
    requires AffineTrace(inp, x, y, l).Some?
  {
    var mv := l.Emits();
    var px, py := mv.PrevX(x), mv.PrevY(y);
    var next := NextState(inp, x, y, l);
    var rest := AffineTrace(inp, px, py, next);
    rest.Some? &&
    AffineTrace(inp, x, y, l).value == Extend(rest.value, mv.QueryStep(), mv.TargetStep(), px, py) &&
    (px == 0 && py == 0 ==> rest.value == ([], [])) &&
    (px > 0 || py > 0 ==>
      AffineReplay(inp, rest.value.0, rest.value.1) == ValueIn(AffCell(inp, px, py), next) &&
      |rest.value.0| > 0 && rest.value.0[|rest.value.0| - 1] == next.Emits().QueryStep() &&
      rest.value.1[|rest.value.1| - 1] == next.Emits().TargetStep())
  }

  lemma ReplayOutOfM(inp: Input, x: nat, y: nat)
    requires 1 <= x <= |inp.query| && 1 <= y <= |inp.target|
    requires AffineInRange(inp) && inp.open <= 0
    requires AffineTrace(inp, x, y, M).Some? && RestReplays(inp, x, y, M)
    ensures AffineReplay(inp, AffineTrace(inp, x, y, M).value.0, AffineTrace(inp, x, y, M).value.1) == AffM(inp, x, y)
  {
    AffReplayExtend(inp, AffineTrace(inp, x - 1, y - 1, NextState(inp, x, y, M)).value, M, x - 1, y - 1);
    StepOutOfM(inp, x, y);
  }

  lemma ReplayOutOfIX(inp: Input, x: nat, y: nat)
    requires 1 <= x <= |inp.query| && y <= |inp.target|
    requires AffineInRange(inp) && inp.open <= 0
    requires AffineTrace(inp, x, y, IX).Some? && RestReplays(inp, x, y, IX)
    ensures AffineReplay(inp, AffineTrace(inp, x, y, IX).value.0, AffineTrace(inp, x, y, IX).value.1) == AffIX(inp, x, y)
  {
    AffReplayExtend(inp, AffineTrace(inp, x - 1, y, NextState(inp, x, y, IX)).value, IX, x - 1, y);
    StepOutOfIX(inp, x, y);
  }

  lemma ReplayOutOfIY(inp: Input, x: nat, y: nat)
    requires x <= |inp.query| && 1 <= y <= |inp.target|
    requires AffineInRange(inp) && inp.open <= 0
    requires AffineTrace(inp, x, y, IY).Some? && RestReplays(inp, x, y, IY)
    ensures AffineReplay(inp, AffineTrace(inp, x, y, IY).value.0, AffineTrace(inp, x, y, IY).value.1) == AffIY(inp, x, y)
  {
    AffReplayExtend(inp, AffineTrace(inp, x, y - 1, NextState(inp, x, y, IY)).value, IY, x, y - 1);
    StepOutOfIY(inp, x, y);
  }

  /**
   * The round trip of the affine mode: when no cell overflows 16 bits and the opening penalty is
   * not positive (GapPenalty keeps its penalties as costs, at most 0), the walk of lines 160-182
   * out of matrix l at (x, y), when it reaches the origin, emits an alignment whose replay is the
   * value of l at (x, y). IX's strict and IY's non-strict exit each pick a predecessor that
   * attains the maximum of the recurrence, so neither breaks the replay.
   */
  lemma {:induction false} AffineTraceReplaysScore(inp: Input, x: nat, y: nat, l: Last)
    requires x <= |inp.query| && y <= |inp.target| && (x > 0 || y > 0)
    requires AffineInRange(inp) && inp.open <= 0
    requires AffineTrace(inp, x, y, l).Some?
    ensures var t := AffineTrace(inp, x, y, l).value;
      AffineReplay(inp, t.0, t.1) == ValueIn(AffCell(inp, x, y), l)
    decreases x + y
  {
    var mv := l.Emits();
    var px, py := mv.PrevX(x), mv.PrevY(y);
    var next := NextState(inp, x, y, l);
    if px > 0 || py > 0 {
      AffineTraceReplaysScore(inp, px, py, next);
      TraceEndsWith(inp, px, py, next);
    }
    assert RestReplays(inp, x, y, l);
    match l
    case M => ReplayOutOfM(inp, x, y);
    case IX => ReplayOutOfIX(inp, x, y);
    case IY => ReplayOutOfIY(inp, x, y);
  }

  /** The score align() stores in affine mode is the replay of the pair it builds. */
  lemma AffineScoreReplays(inp: Input)
    requires AffineInRange(inp) && inp.open <= 0
    requires AffineTrace(inp, |inp.query|, |inp.target|, AffStart(inp)).Some?
    ensures var t := AffineTrace(inp, |inp.query|, |inp.target|, AffStart(inp)).value;
      AffineReplay(inp, t.0, t.1) == AffBest(inp, |inp.query|, |inp.target|)
  {
    if |inp.query| > 0 || |inp.target| > 0 {
      AffineTraceReplaysScore(inp, |inp.query|, |inp.target|, AffStart(inp));
    }
  }

  /** The same for linear mode, at (n, m). */
  lemma LinearScoreReplays(inp: Input)
    requires LinearInRange(inp)
    ensures var t := LinearTrace(inp, |inp.query|, |inp.target|);
      LinearReplay(inp, t.0, t.1) == LinCell(inp, |inp.query|, |inp.target|)
  {
    LinearTraceReplaysScore(inp, |inp.query|, |inp.target|);
  }

  // ---------------------------------------------------------------------------------------
  // Boundaries and worked cases

  /** n columns of the same step. */
  function Columns(s: Step, n: nat): (r: seq<Step>)
    ensures |r| == n && forall i :: 0 <= i < n ==> r[i] == s
  {
    if n == 0 then [] else Columns(s, n - 1) + [s]
  }

  /** An empty query prefix in linear mode: y target compounds against nothing score y extension
      penalties, and the walk back takes y Left steps (the x == 0 branch of line 111). */
  lemma {:induction false} LinearQueryBorder(inp: Input, y: nat)
    requires y <= |inp.target| && LinearInRange(inp)
    ensures LinCell(inp, 0, y) == y * inp.ext
    ensures LinearTrace(inp, 0, y) == (Columns(Gap, y), Columns(Compound, y))
  {
    if y > 0 {
      LinearQueryBorder(inp, y - 1);
      assert IsShort(LinRaw(inp, 0, y));
      assert (y - 1) * inp.ext + inp.ext == y * inp.ext;
      assert LinearMove(inp, 0, y) == Left;
      assert LinearTrace(inp, 0, y) == Extend(LinearTrace(inp, 0, y - 1), Gap, Compound, 0, y - 1);
    }
  }

  /** An empty target prefix in linear mode: x query compounds against nothing score x extension
      penalties, and the walk back takes x Up steps (the y == 0 branch of line 113). */
  lemma {:induction false} LinearTargetBorder(inp: Input, x: nat)
    requires x <= |inp.query| && LinearInRange(inp)
    ensures LinCell(inp, x, 0) == x * inp.ext
    ensures LinearTrace(inp, x, 0) == (Columns(Compound, x), Columns(Gap, x))
  {
    if x > 0 {
      LinearTargetBorder(inp, x - 1);
      assert IsShort(LinRaw(inp, x, 0));
      assert (x - 1) * inp.ext + inp.ext == x * inp.ext;
      assert LinearMove(inp, x, 0) == Up;
      assert LinearTrace(inp, x, 0) == Extend(LinearTrace(inp, x - 1, 0), Compound, Gap, x - 1, 0);
    }
  }

  /** An empty query prefix in affine mode: y > 0 target compounds against nothing are one gap,
      open plus y extensions, held in iy, while scores and ix hold the sentinel of line 135. */
  lemma {:induction false} AffineQueryBorder(inp: Input, y: nat)
    requires 1 <= y <= |inp.target| && inp.open <= 0 && inp.ext <= 0
    requires Sentinel(inp) < inp.open + y * inp.ext
    ensures AffIY(inp, 0, y) == inp.open + y * inp.ext
    ensures AffM(inp, 0, y) == Sentinel(inp) && AffIX(inp, 0, y) == Sentinel(inp)
  {
    assert (y - 1) * inp.ext == y * inp.ext - inp.ext;
    if y > 1 {
      AffineQueryBorder(inp, y - 1);
    }
  }

  /** The walk back from iy at (0, y) takes y Left steps: the non-strict test of line 179 never
      moves to the sentinel, provided the gap costs less than the sentinel. */
  lemma {:induction false} AffineQueryWalk(inp: Input, y: nat)
    requires 1 <= y <= |inp.target| && inp.open <= 0 && inp.ext <= 0
    requires Sentinel(inp) < inp.open + y * inp.ext
    ensures AffineTrace(inp, 0, y, IY) == Some((Columns(Gap, y), Columns(Compound, y)))
  {
    assert (y - 1) * inp.ext == y * inp.ext - inp.ext;
    if y > 1 {
      AffineQueryWalk(inp, y - 1);
      AffineQueryBorder(inp, y - 1);
      assert NextState(inp, 0, y, IY) == IY;
    }
  }

  /** An empty target prefix in affine mode: x > 0 query compounds against nothing are one gap,
      open plus x extensions, held in ix, while scores and iy hold the sentinel of line 135. */
  lemma {:induction false} AffineTargetBorder(inp: Input, x: nat)
    requires 1 <= x <= |inp.query| && inp.open <= 0 && inp.ext <= 0
    requires Sentinel(inp) <= inp.open + x * inp.ext
    ensures AffIX(inp, x, 0) == inp.open + x * inp.ext
    ensures AffM(inp, x, 0) == Sentinel(inp) && AffIY(inp, x, 0) == Sentinel(inp)
  {
    assert (x - 1) * inp.ext == x * inp.ext - inp.ext;
    if x > 1 {
      AffineTargetBorder(inp, x - 1);
    }
  }

  /** The walk back from ix at (x, 0) takes x Up steps: the strict test of line 166 never moves to
      the sentinel, provided the gap costs no less than the sentinel. */
  lemma {:induction false} AffineTargetWalk(inp: Input, x: nat)
    requires 1 <= x <= |inp.query| && inp.open <= 0 && inp.ext <= 0
    requires Sentinel(inp) <= inp.open + x * inp.ext
    ensures AffineTrace(inp, x, 0, IX) == Some((Columns(Compound, x), Columns(Gap, x)))
  {
    assert (x - 1) * inp.ext == x * inp.ext - inp.ext;
    if x > 1 {
      AffineTargetWalk(inp, x - 1);
      AffineTargetBorder(inp, x - 1);
      assert NextState(inp, x, 0, IX) == IX;
    }
  }

  /** Aligning against an empty query: the affine score is a single gap, open plus m extensions,
      and the alignment pairs every target compound with a gap. */
  lemma AffineEmptyQuery(inp: Input)
    requires |inp.query| == 0 && |inp.target| > 0 && inp.open <= 0 && inp.ext <= 0
    requires Sentinel(inp) < inp.open + |inp.target| * inp.ext
    ensures AffBest(inp, 0, |inp.target|) == inp.open + |inp.target| * inp.ext
    ensures AffineTrace(inp, 0, |inp.target|, AffStart(inp))
      == Some((Columns(Gap, |inp.target|), Columns(Compound, |inp.target|)))
  {
    AffineQueryBorder(inp, |inp.target|);
    AffineQueryWalk(inp, |inp.target|);
  }

  /** Aligning against an empty target: the affine score is a single gap, open plus n extensions,
      and the alignment pairs every query compound with a gap. */
  lemma AffineEmptyTarget(inp: Input)
    requires |inp.target| == 0 && |inp.query| > 0 && inp.open <= 0 && inp.ext <= 0
    requires Sentinel(inp) <= inp.open + |inp.query| * inp.ext
    ensures AffBest(inp, |inp.query|, 0) == inp.open + |inp.query| * inp.ext
    ensures AffineTrace(inp, |inp.query|, 0, AffStart(inp))
      == Some((Columns(Compound, |inp.query|), Columns(Gap, |inp.query|)))
  {
    AffineTargetBorder(inp, |inp.query|);
    AffineTargetWalk(inp, |inp.query|);
  }

  /** The best a path to (x, y) can score when no column pairing two compounds scores more than
      best: min(x, y) such columns and |x - y| gap columns. */
  function DiagonalBound(x: nat, y: nat, best: int, ext: int): int
  {
    if x <= y then x * best + (y - x) * ext else y * best + (x - y) * ext
  }

  /** Each of the three moves into (x, y) keeps under the bound. */
  lemma DiagonalBoundSteps(x: nat, y: nat, best: int, ext: int)
    requires best >= 0 && ext <= 0
    ensures x > 0 ==> DiagonalBound(x - 1, y, best, ext) + ext <= DiagonalBound(x, y, best, ext)
    ensures y > 0 ==> DiagonalBound(x, y - 1, best, ext) + ext <= DiagonalBound(x, y, best, ext)
    ensures x > 0 && y > 0 ==> DiagonalBound(x - 1, y - 1, best, ext) + best <= DiagonalBound(x, y, best, ext)
  {
    assert (x - 1) * best == x * best - best && (y - 1) * best == y * best - best;
    assert (y - x + 1) * ext == (y - x) * ext + ext && (x - y + 1) * ext == (x - y) * ext + ext;
  }

  /** No linear cell beats the diagonal bound. */
  lemma {:induction false} LinearScoreAtMost(inp: Input, best: int, x: nat, y: nat)
    requires x <= |inp.query| && y <= |inp.target| && LinearInRange(inp)
    requires best >= 0 && inp.ext <= 0
    requires forall i, j :: 1 <= i <= |inp.query| && 1 <= j <= |inp.target| ==> inp.Sub(i, j) <= best
    ensures LinCell(inp, x, y) <= DiagonalBound(x, y, best, inp.ext)
    decreases x + y
  {
    assert IsShort(LinRaw(inp, x, y));
    DiagonalBoundSteps(x, y, best, inp.ext);
    if x > 0 {
      LinearScoreAtMost(inp, best, x - 1, y);
    }
    if y > 0 {
      LinearScoreAtMost(inp, best, x, y - 1);
    }
    if x > 0 && y > 0 {
      LinearScoreAtMost(inp, best, x - 1, y - 1);
      assert inp.Sub(x, y) <= best;
    }
  }

  /** A sequence against itself, with a substitution matrix whose diagonal holds its largest
      score best: the prefix of length k scores k times best. */
  lemma {:induction false} SelfScore(inp: Input, best: int, k: nat)
    requires inp.query == inp.target && k <= |inp.query| && LinearInRange(inp)
    requires best >= 0 && inp.ext <= 0
    requires forall i, j :: 1 <= i <= |inp.query| && 1 <= j <= |inp.target| ==> inp.Sub(i, j) <= best
    requires forall i :: 1 <= i <= |inp.query| ==> inp.Sub(i, i) == best
    ensures LinCell(inp, k, k) == k * best
  {
    if k > 0 {
      LinearScoreAtMost(inp, best, k, k);
      SelfScore(inp, best, k - 1);
      assert IsShort(LinRaw(inp, k, k));
      assert inp.Sub(k, k) == best;
      assert (k - 1) * best + best == k * best;
    }
  }

  /** Unless best and ext are both 0, the highroad of lines 113-118 steps diagonally out of (k, k):
      the cell above scores at least one gap less. */
  lemma SelfMove(inp: Input, best: int, k: nat)
    requires inp.query == inp.target && 1 <= k <= |inp.query| && LinearInRange(inp)
    requires best >= 0 && inp.ext <= 0 && (best > 0 || inp.ext < 0)
    requires forall i, j :: 1 <= i <= |inp.query| && 1 <= j <= |inp.target| ==> inp.Sub(i, j) <= best
    requires forall i :: 1 <= i <= |inp.query| ==> inp.Sub(i, i) == best
    ensures LinearMove(inp, k, k) == Diag
  {
    SelfScore(inp, best, k);
    SelfScore(inp, best, k - 1);
    LinearScoreAtMost(inp, best, k - 1, k);
    assert DiagonalBound(k - 1, k, best, inp.ext) == (k - 1) * best + inp.ext;
    assert (k - 1) * best + best == k * best;
    assert inp.Sub(k, k) == best;
  }

  /** Unless best and ext are both 0 (when the highroad prefers Up), the walk back from (k, k)
      pairs every compound with itself. */
  lemma {:induction false} SelfWalk(inp: Input, best: int, k: nat)
    requires inp.query == inp.target && k <= |inp.query| && LinearInRange(inp)
    requires best >= 0 && inp.ext <= 0 && (best > 0 || inp.ext < 0)
    requires forall i, j :: 1 <= i <= |inp.query| && 1 <= j <= |inp.target| ==> inp.Sub(i, j) <= best
    requires forall i :: 1 <= i <= |inp.query| ==> inp.Sub(i, i) == best
    ensures LinearTrace(inp, k, k) == (Columns(Compound, k), Columns(Compound, k))
  {
    if k > 0 {
      SelfWalk(inp, best, k - 1);
      SelfMove(inp, best, k);
    }
  }

  /** A sequence aligned with itself scores best per compound, and, unless best and ext are both
      0, the alignment is the sequence over itself with every column identical. */
  lemma SelfAlignment(inp: Input, best: int)
    requires inp.query == inp.target && LinearInRange(inp)
    requires best >= 0 && inp.ext <= 0
    requires forall i, j :: 1 <= i <= |inp.query| && 1 <= j <= |inp.target| ==> inp.Sub(i, j) <= best
    requires forall i :: 1 <= i <= |inp.query| ==> inp.Sub(i, i) == best
    ensures LinCell(inp, |inp.query|, |inp.target|) == |inp.query| * best
    ensures best > 0 || inp.ext < 0 ==>
      var t := LinearTrace(inp, |inp.query|, |inp.target|);
      var a := AlignedSequence(inp.query, t.0);
      t.0 == t.1 && |t.0| == |inp.query| && a.Fits() && IdenticalColumns(a, a, |inp.query|) == |inp.query|
  {
    var L := |inp.query|;
    SelfScore(inp, best, L);
    if best > 0 || inp.ext < 0 {
      SelfWalk(inp, best, L);
      var t := LinearTrace(inp, L, L);
      WellFormedFits(inp.query, inp.target, t.0, t.1);
      IdenticalColumnsOfSameRow(AlignedSequence(inp.query, t.0), L);
    }
  }

  /** Two query compounds after two pairs, as one gap: a single opening. */
  lemma OneGapReplay(inp: Input)
    requires |inp.query| == 4 && |inp.target| == 2
    ensures AffineReplay(inp, [Compound, Compound, Compound, Compound], [Compound, Compound, Gap, Gap])
      == inp.Sub(1, 1) + inp.Sub(2, 2) + inp.open + 2 * inp.ext
  {
    var q := [Compound, Compound, Compound, Compound];
    var run := [Compound, Compound, Gap, Gap];
    assert q[..3] == [Compound, Compound, Compound] && q[..2] == [Compound, Compound] && q[..1] == [Compound];
    assert run[..3] == [Compound, Compound, Gap] && run[..2] == [Compound, Compound] && run[..1] == [Compound];
    assert q[..3][..2] == q[..2] && q[..2][..1] == q[..1];
    assert run[..3][..2] == run[..2] && run[..2][..1] == run[..1];
    assert CompoundCount(q[..1]) == 1 && CompoundCount(q[..2]) == 2 && CompoundCount(q[..3]) == 3;
    assert CompoundCount(run[..1]) == 1 && CompoundCount(run[..2]) == 2 && CompoundCount(run[..3]) == 2;
    assert CompoundCount(q) == 4 && CompoundCount(run) == 2;
    assert AffineReplay(inp, q[..1], run[..1]) == inp.Sub(1, 1);
    assert AffineReplay(inp, q[..2], run[..2]) == inp.Sub(1, 1) + inp.Sub(2, 2);
    assert AffineReplay(inp, q[..3], run[..3]) == inp.Sub(1, 1) + inp.Sub(2, 2) + inp.open + inp.ext;
  }

  /** The same two query compounds spread between the pairs: two openings. */
  lemma SpreadGapsReplay(inp: Input)
    requires |inp.query| == 4 && |inp.target| == 2
    ensures AffineReplay(inp, [Compound, Compound, Compound, Compound], [Compound, Gap, Compound, Gap])
      == inp.Sub(1, 1) + inp.Sub(3, 2) + 2 * (inp.open + inp.ext)
  {
    var q := [Compound, Compound, Compound, Compound];
    var spread := [Compound, Gap, Compound, Gap];
    assert q[..3] == [Compound, Compound, Compound] && q[..2] == [Compound, Compound] && q[..1] == [Compound];
    assert spread[..3] == [Compound, Gap, Compound] && spread[..2] == [Compound, Gap] && spread[..1] == [Compound];
    assert q[..3][..2] == q[..2] && q[..2][..1] == q[..1];
    assert spread[..3][..2] == spread[..2] && spread[..2][..1] == spread[..1];
    assert CompoundCount(q[..1]) == 1 && CompoundCount(q[..2]) == 2 && CompoundCount(q[..3]) == 3;
    assert CompoundCount(spread[..1]) == 1 && CompoundCount(spread[..2]) == 1 && CompoundCount(spread[..3]) == 2;
    assert CompoundCount(q) == 4 && CompoundCount(spread) == 2;
    assert AffineReplay(inp, q[..1], spread[..1]) == inp.Sub(1, 1);
    assert AffineReplay(inp, q[..2], spread[..2]) == inp.Sub(1, 1) + inp.open + inp.ext;
    assert AffineReplay(inp, q[..3], spread[..3]) == inp.Sub(1, 1) + inp.open + inp.ext + inp.Sub(3, 2);
  }

  /** Affine penalties favour one long gap: with a gap opening that costs something, and the
      compound pair the single gap keeps scoring no less than the one the spread gaps keep, two
      query compounds left over after two pairs score more as one gap than spread between pairs,
      by exactly the second opening. */
  lemma AffineFavoursOneGap(inp: Input)
    requires |inp.query| == 4 && |inp.target| == 2 && inp.open < 0 && inp.Sub(2, 2) >= inp.Sub(3, 2)
    ensures AffineReplay(inp, [Compound, Compound, Compound, Compound], [Compound, Compound, Gap, Gap])
      >= AffineReplay(inp, [Compound, Compound, Compound, Compound], [Compound, Gap, Compound, Gap]) - inp.open
  {
    OneGapReplay(inp);
    SpreadGapsReplay(inp);
  }

  /**
   * The aligner: its four inputs (null modelled as None), whether it keeps the score matrix, and
   * the output fields align() sets. The compound set's equivalence test is the one the pair uses
   * for its similarity count.
   */
  class NeedlemanWunsch {
    var query: Option<Sequence>
    var target: Option<Sequence>
    var gapPenalty: Option<GapPenalty>
    var subMatrix: Option<Substitution>
    const equivalent: (string, string) -> bool
    var storingScoreMatrix: bool
    var score: int
    var pair: SimpleSequencePair?
    var scores: array2?<int>

    constructor (query: Option<Sequence>, target: Option<Sequence>, gapPenalty: Option<GapPenalty>,
                 subMatrix: Option<Substitution>, equivalent: (string, string) -> bool)
      ensures this.query == query && this.target == target
      ensures this.gapPenalty == gapPenalty && this.subMatrix == subMatrix && this.equivalent == equivalent
      ensures !storingScoreMatrix && pair == null && scores == null
    {
      this.query := query;
      this.target := target;
      this.gapPenalty := gapPenalty;
      this.subMatrix := subMatrix;
      this.equivalent := equivalent;
      storingScoreMatrix := false;
      score := 0;
      pair := null;
      scores := null;
    }

    /** Lines 80-83: align() does its work only when all four inputs are present and the two
        sequences share a compound set. */
    predicate Configured()
      reads this
    {
      query.Some? && target.Some? && gapPenalty.Some? && subMatrix.Some? &&
      query.value.compoundSet == target.value.compoundSet
    }

    function In(): Input
      reads this
      requires Configured()
    {
      Input(query.value.compounds, target.value.compounds, subMatrix.value, gapPenalty.value.open, gapPenalty.value.ext)
    }

    /**
     * Lines 75-200. Returns false exactly when the affine traceback leaves the matrices, where the
     * Java code throws ArrayIndexOutOfBoundsException.
     */
    method Align() returns (ok: bool)
      modifies this
      ensures query == old(query) && target == old(target) && gapPenalty == old(gapPenalty)
      ensures subMatrix == old(subMatrix) && storingScoreMatrix == old(storingScoreMatrix)
      ensures !Configured() ==> ok && pair == null && scores == null && score == old(score)
      ensures Configured() && gapPenalty.value.kind == Linear ==>
        var tr := LinearTrace(In(), |In().query|, |In().target|);
        ok && score == LinCell(In(), |In().query|, |In().target|) && PairHolds(tr) &&
        (storingScoreMatrix <==> scores != null) && (scores != null ==> fresh(scores) && LinearFilled(In(), scores))
      ensures Configured() && gapPenalty.value.kind != Linear ==>
        var tr := AffineTrace(In(), |In().query|, |In().target|, AffStart(In()));
        (ok <==> tr.Some?) &&
        (ok ==> score == AffBest(In(), |In().query|, |In().target|) && PairHolds(tr.value) &&
                (storingScoreMatrix <==> scores != null) &&
                (scores != null ==> fresh(scores) && CollapsedFilled(In(), scores)))
    {
      // reset()
      pair := null;
      scores := null;
      ok := true;
      if !Configured() {
        return;
      }
      var inp := In();
      var n, m := |inp.query|, |inp.target|;
      var s: array2<int>, sx: seq<Step>, sy: seq<Step>;
      if gapPenalty.value.kind == Linear {
        s := FillLinear(inp);
        sx, sy := TracebackLinear(inp, s);
      } else {
        var tr;
        tr, s := AlignAffine(inp);
        if tr.None? {
          scores := s;
          return false;
        }
        sx, sy := tr.value.0, tr.value.1;
      }
      score := s[n, m];
      scores := s;
      WellFormedFits(inp.query, inp.target, sx, sy);
      pair := new SimpleSequencePair(inp.query, inp.target, sx, sy, equivalent);
      if !storingScoreMatrix {
        scores := null;
      }
    }

    /** pair is a fresh SimpleSequencePair over the two step lists of tr, nothing counted yet. */
    twostate predicate PairHolds(tr: (seq<Step>, seq<Step>))
      reads this, pair
      requires Configured()
    {
      pair != null && fresh(pair) && pair.Valid() && pair.identicals == -1 && pair.similars == -1 &&
      pair.query == AlignedSequence(In().query, tr.0) && pair.target == AlignedSequence(In().target, tr.1)
    }

  }

}
