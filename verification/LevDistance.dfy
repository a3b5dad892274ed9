/** CLevDistance: the Levenshtein distance of two strings, computed in a matrix
    that is stored in one flat array. */
module LevDistance {
  import opened Common

  // ---------- Edit scripts ----------

  datatype Edit = Copy | Replace(c: char) | Insert(c: char) | Delete

  /** What a script makes of s: its last edit deals with the last character. The
      script has to deal with all of s. */
  function Apply(script: seq<Edit>, s: string): Option<string> {
    if script == [] then (if s == [] then Some([]) else None)
    else
      var edit, before := script[|script| - 1], script[..|script| - 1];
      if edit.Insert? then
        var r := Apply(before, s);
        if r.None? then None else Some(r.value + [edit.c])
      else if s == [] then None
      else
        var r := Apply(before, s[..|s| - 1]);
        if r.None? then None
        else match edit
             case Copy => Some(r.value + [s[|s| - 1]])
             case Replace(c) => Some(r.value + [c])
             case Delete => r
  }

  function Cost(script: seq<Edit>): nat {
    if script == [] then 0
    else Cost(script[..|script| - 1]) + if script[|script| - 1].Copy? then 0 else 1
  }

  // ---------- The distance ----------

  function Minimum(a: int, b: int, c: int): (m: int)
    ensures m <= a && m <= b && m <= c && (m == a || m == b || m == c)
  {
    var mi := if b < a then b else a;
    if c < mi then c else mi
  }

  function Mismatch(a: char, b: char): nat {
    if a == b then 0 else 1
  }

  function Front(s: string): string
    requires s != []
  {
    s[..|s| - 1]
  }

  function Last(s: string): char
    requires s != []
  {
    s[|s| - 1]
  }

  function Distance(s: string, t: string): (d: int)
    ensures d >= 0
    decreases |s| + |t|
  {
    if s == [] then |t|
    else if t == [] then |s|
    else Minimum(Distance(Front(s), t) + 1,
                 Distance(s, Front(t)) + 1,
                 Distance(Front(s), Front(t)) + Mismatch(Last(s), Last(t)))
  }

  lemma DistanceSteps(s: string, t: string)
    ensures s != [] ==> Distance(s, t) <= Distance(Front(s), t) + 1
    ensures t != [] ==> Distance(s, t) <= Distance(s, Front(t)) + 1
    ensures s != [] && t != [] ==> Distance(s, t) <= Distance(Front(s), Front(t)) + Mismatch(Last(s), Last(t))
  {
  }

  // ---------- Optimality ----------

  /** No script that turns s into t is cheaper than the distance. */
  lemma {:induction false} NoScriptIsCheaper(script: seq<Edit>, s: string, t: string)
    requires Apply(script, s) == Some(t)
    ensures Cost(script) >= Distance(s, t)
    decreases |script|
  {
    if script != [] {
      var edit, before := script[|script| - 1], script[..|script| - 1];
      DistanceSteps(s, t);
      match edit
      case Insert(c) =>
        var r := Apply(before, s).value;
        assert Front(t) == r;
        NoScriptIsCheaper(before, s, r);
      case Delete =>
        NoScriptIsCheaper(before, Front(s), t);
      case Copy =>
        var r := Apply(before, Front(s)).value;
        assert Front(t) == r && Last(t) == Last(s);
        NoScriptIsCheaper(before, Front(s), r);
      case Replace(c) =>
        var r := Apply(before, Front(s)).value;
        assert Front(t) == r;
        NoScriptIsCheaper(before, Front(s), r);
    }
  }

  lemma LastEdit(before: seq<Edit>, edit: Edit)
    ensures var script := before + [edit];
            && script[|script| - 1] == edit && script[..|script| - 1] == before
            && Cost(script) == Cost(before) + if edit.Copy? then 0 else 1
  {
    assert (before + [edit])[..|before|] == before;
  }

  /** A script that turns s into t at the cost of the distance. */
  lemma {:induction false} BestScript(s: string, t: string) returns (script: seq<Edit>)
    ensures Apply(script, s) == Some(t) && Cost(script) == Distance(s, t)
    decreases |s| + |t|
  {
    if s == [] && t == [] {
      script := [];
    } else if t != [] && Distance(s, t) == Distance(s, Front(t)) + 1 {
      var before := BestScript(s, Front(t));
      LastEdit(before, Insert(Last(t)));
      script := before + [Insert(Last(t))];
      assert Front(t) + [Last(t)] == t;
    } else if s != [] && Distance(s, t) == Distance(Front(s), t) + 1 {
      var before := BestScript(Front(s), t);
      LastEdit(before, Delete);
      script := before + [Delete];
    } else {
      var edit := if Last(s) == Last(t) then Copy else Replace(Last(t));
      var before := BestScript(Front(s), Front(t));
      LastEdit(before, edit);
      script := before + [edit];
      assert Front(t) + [Last(t)] == t;
    }
  }

  /** The distance is the least cost of all scripts from s to t. */
  lemma DistanceIsLeastCost(s: string, t: string)
    ensures exists script :: Apply(script, s) == Some(t) && Cost(script) == Distance(s, t)
    ensures forall script :: Apply(script, s) == Some(t) ==> Cost(script) >= Distance(s, t)
  {
    var script := BestScript(s, t);
    forall other | Apply(other, s) == Some(t) ensures Cost(other) >= Distance(s, t) {
      NoScriptIsCheaper(other, s, t);
    }
  }

  // ---------- Metric laws ----------

  function Max(a: int, b: int): int {
    if a > b then a else b
  }

  lemma {:induction false} DistanceBounds(s: string, t: string)
    ensures |s| - |t| <= Distance(s, t) && |t| - |s| <= Distance(s, t)
    ensures Distance(s, t) <= Max(|s|, |t|)
    decreases |s| + |t|
  {
    if s != [] && t != [] {
      DistanceBounds(Front(s), t);
      DistanceBounds(s, Front(t));
      DistanceBounds(Front(s), Front(t));
    }
  }

  lemma {:induction false} DistanceZero(s: string, t: string)
    ensures Distance(s, t) == 0 <==> s == t
    decreases |s| + |t|
  {
    DistanceBounds(s, t);
    if s != [] && t != [] {
      DistanceZero(Front(s), Front(t));
      assert s == Front(s) + [Last(s)] && t == Front(t) + [Last(t)];
    }
  }

  lemma {:induction false} DistanceSymmetric(s: string, t: string)
    ensures Distance(s, t) == Distance(t, s)
    decreases |s| + |t|
  {
    if s != [] && t != [] {
      DistanceSymmetric(Front(s), t);
      DistanceSymmetric(s, Front(t));
      DistanceSymmetric(Front(s), Front(t));
    }
  }

  lemma {:induction false} DistanceTriangle(s: string, t: string, u: string)
    ensures Distance(s, u) <= Distance(s, t) + Distance(t, u)
    decreases |s| + |t| + |u|
  {
    DistanceBounds(s, t);
    DistanceBounds(t, u);
    DistanceBounds(s, u);
    if s != [] && t != [] && u != [] {
      DistanceSteps(s, u);
      if Distance(s, t) == Distance(Front(s), t) + 1 {
        DistanceTriangle(Front(s), t, u);
      } else if Distance(t, u) == Distance(t, Front(u)) + 1 {
        DistanceTriangle(s, t, Front(u));
      } else if Distance(s, t) == Distance(s, Front(t)) + 1 {
        if Distance(t, u) == Distance(Front(t), u) + 1 {
          DistanceTriangle(s, Front(t), u);
        } else {
          DistanceTriangle(s, Front(t), Front(u));
        }
      } else if Distance(t, u) == Distance(Front(t), u) + 1 {
        DistanceTriangle(Front(s), Front(t), u);
      } else {
        DistanceTriangle(Front(s), Front(t), Front(u));
      }
    }
  }

  // ---------- The matrix ----------

  /** GetCellPointer(), as an index into the flat array. */
  function Cell(col: nat, row: nat, nCols: nat): nat {
    col + row * (nCols + 1)
  }

  /** The cells lie in the array and are all different. */
  lemma CellsAreSeparate(n: nat, m: nat, i: nat, j: nat, k: nat, l: nat)
    requires i <= n && j <= m && k <= n && l <= m
    ensures Cell(i, j, n) < (n + 1) * (m + 1)
    ensures Cell(i, j, n) == Cell(k, l, n) ==> i == k && j == l
  {
    RowsAreOrdered(n, i, j, k, l);
    RowsAreOrdered(n, k, l, i, j);
    if j < m {
      RowsAreOrdered(n, i, j, 0, m);
    }
    assert m * (n + 1) + (n + 1) == (n + 1) * (m + 1);
  }

  lemma {:induction false} RowsAreOrdered(n: nat, i: nat, j: nat, k: nat, l: nat)
    requires i <= n
    ensures j < l ==> Cell(i, j, n) < Cell(k, l, n)
    decreases l
  {
    if j < l {
      assert l * (n + 1) == (l - 1) * (n + 1) + (n + 1);
      RowsAreOrdered(n, i, j, 0, l - 1);
    }
  }

  method PutAt(d: array<int>, col: nat, row: nat, nCols: nat, x: int, ghost nRows: nat)
    requires col <= nCols && row <= nRows && d.Length == (nCols + 1) * (nRows + 1)
    modifies d
    ensures forall k: nat, l: nat | k <= nCols && l <= nRows ::
              Cell(k, l, nCols) < d.Length
              && d[Cell(k, l, nCols)] == if k == col && l == row then x else old(d[Cell(k, l, nCols)])
  {
    hide Cell;
    CellsAreSeparate(nCols, nRows, col, row, col, row);
    d[Cell(col, row, nCols)] := x;
    forall k: nat, l: nat | k <= nCols && l <= nRows
      ensures Cell(k, l, nCols) < d.Length
              && d[Cell(k, l, nCols)] == if k == col && l == row then x else old(d[Cell(k, l, nCols)])
    {
      CellsAreSeparate(nCols, nRows, k, l, col, row);
    }
  }

  method GetAt(d: array<int>, col: nat, row: nat, nCols: nat, ghost nRows: nat) returns (x: int)
    requires col <= nCols && row <= nRows && d.Length == (nCols + 1) * (nRows + 1)
    ensures Cell(col, row, nCols) < d.Length && x == d[Cell(col, row, nCols)]
  {
    CellsAreSeparate(nCols, nRows, col, row, col, row);
    x := d[Cell(col, row, nCols)];
  }

  /** The cell holds the distance of the first i characters of s and the first j of t. */
  ghost predicate Filled(d: array<int>, s: string, t: string, i: nat, j: nat)
    reads d
  {
    && i <= |s| && j <= |t| && Cell(i, j, |s|) < d.Length
    && d[Cell(i, j, |s|)] == Distance(s[..i], t[..j])
  }

  /** One more cell is filled, and the others stay as they are. */
  method PutDistance(d: array<int>, s: string, t: string, col: nat, row: nat, x: int)
    requires col <= |s| && row <= |t| && d.Length == (|s| + 1) * (|t| + 1)
    requires x == Distance(s[..col], t[..row])
    modifies d
    ensures Filled(d, s, t, col, row)
    ensures forall k: nat, l: nat | k <= |s| && l <= |t| && old(Filled(d, s, t, k, l)) :: Filled(d, s, t, k, l)
  {
    hide Cell, Distance;
    PutAt(d, col, row, |s|, x, |t|);
  }

  lemma DistanceOfPrefixes(s: string, t: string, i: nat, j: nat)
    requires 0 < i <= |s| && 0 < j <= |t|
    ensures Distance(s[..i], t[..j])
         == Minimum(Distance(s[..i - 1], t[..j]) + 1, Distance(s[..i], t[..j - 1]) + 1,
                    Distance(s[..i - 1], t[..j - 1]) + Mismatch(s[i - 1], t[j - 1]))
  {
    assert Front(s[..i]) == s[..i - 1] && Front(t[..j]) == t[..j - 1];
  }

  /** LD(): the distance. */
  method LD(s: string, t: string) returns (result: int)
    ensures result == Distance(s, t)
  {
    hide Cell, Distance;
    var n, m := |s|, |t|;
    EmptyDistances(s, t);
    if n == 0 { return m; }
    if m == 0 { return n; }
    var d := new int[(n + 1) * (m + 1)];
    for i := 0 to n + 1
      invariant forall k: nat | k < i :: Filled(d, s, t, k, 0)
    {
      EmptyDistances(s[..i], t[..0]);
      PutDistance(d, s, t, i, 0, i);
    }
    for j := 0 to m + 1
      invariant forall k: nat | k <= n :: Filled(d, s, t, k, 0)
      invariant forall l: nat | l < j :: Filled(d, s, t, 0, l)
    {
      EmptyDistances(s[..0], t[..j]);
      PutDistance(d, s, t, 0, j, j);
    }
    for i := 1 to n + 1
      invariant forall k: nat | k <= n :: Filled(d, s, t, k, 0)
      invariant forall k: nat, l: nat | k < i && l <= m :: Filled(d, s, t, k, l)
    {
      var s_i := s[i - 1];
      for j := 1 to m + 1
        invariant forall k: nat | k <= n :: Filled(d, s, t, k, 0)
        invariant forall k: nat, l: nat | k < i && l <= m :: Filled(d, s, t, k, l)
        invariant forall l: nat | l < j :: Filled(d, s, t, i, l)
      {
        var t_j := t[j - 1];
        var cost := if s_i == t_j then 0 else 1;
        assert Filled(d, s, t, i - 1, j) && Filled(d, s, t, i, j - 1) && Filled(d, s, t, i - 1, j - 1);
        var above := GetAt(d, i - 1, j, n, m);
        var left := GetAt(d, i, j - 1, n, m);
        var diag := GetAt(d, i - 1, j - 1, n, m);
        var cell := Minimum(above + 1, left + 1, diag + cost);
        DistanceOfPrefixes(s, t, i, j);
        PutDistance(d, s, t, i, j, cell);
      }
    }
    assert Filled(d, s, t, n, m);
    assert s[..n] == s && t[..m] == t;
    result := GetAt(d, n, m, n, m);
  }

  lemma EmptyDistances(s: string, t: string)
    ensures s == [] ==> Distance(s, t) == |t|
    ensures t == [] ==> Distance(s, t) == |s|
  {
  }
}
