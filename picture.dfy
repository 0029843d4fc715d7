/**
 * The picture: a rectangular grid of substances, seen both as a value
 * (`Grid`, rows of cells) and as the mutable `array2` the game updates in
 * place. Also the counting and clearing helpers of the game, and the
 * conservation vocabulary used by every rule.
 */
module Pictures {
  import opened Substances

  /** Row y, column x is g[y][x]: the layout of the game's nested list. */
  type Grid = seq<seq<Kind>>

  function Width(g: Grid): nat
  {
    if |g| == 0 then 0 else |g[0]|
  }

  predicate Rect(g: Grid)
  {
    forall i :: 0 <= i < |g| ==> |g[i]| == Width(g)
  }

  predicate InBounds(g: Grid, y: int, x: int)
  {
    0 <= y < |g| && 0 <= x < Width(g)
  }

  /** g' is rectangular with the dimensions of g. */
  predicate SameDims(g: Grid, g': Grid)
  {
    Rect(g') && |g'| == |g| && Width(g') == Width(g)
  }

  /** The grid after one cell write `picture[y][x] = k`. */
  function Set(g: Grid, y: int, x: int, k: Kind): (r: Grid)
    requires Rect(g) && InBounds(g, y, x)
    ensures SameDims(g, r)
    ensures forall i, j {:trigger r[i][j]} :: InBounds(g, i, j) ==> r[i][j] == if i == y && j == x then k else g[i][j]
  {
    g[y := g[y][x := k]]
  }

  /** The all-Blank grid of h rows and w columns. */
  function Blanks(h: nat, w: nat): (r: Grid)
  {
    seq(h, i => seq(w, j => Blank))
  }

  // ---------------------------------------------------------------------
  // Counting
  // ---------------------------------------------------------------------

  /** How often k occurs in one row (`row.count(thing)`). */
  function Occurrences(row: seq<Kind>, k: Kind): nat
  {
    multiset(row)[k]
  }

  /** How often k occurs in the whole grid, summed row by row. */
  function Count(g: Grid, k: Kind): nat
  {
    if |g| == 0 then 0 else Count(g[..|g| - 1], k) + Occurrences(g[|g| - 1], k)
  }

  lemma OccurrencesSet(s: seq<Kind>, x: int, v: Kind, k: Kind)
    requires 0 <= x < |s|
    ensures Occurrences(s[x := v], k)
         == Occurrences(s, k) - (if s[x] == k then 1 else 0) + (if v == k then 1 else 0)
  {
    assert s == s[..x] + [s[x]] + s[x + 1..];
    assert s[x := v] == s[..x] + [v] + s[x + 1..];
  }

  /** One cell write moves the count of k by at most one, as the old and new kinds say. */
  lemma {:induction false} CountSet(g: Grid, y: int, x: int, v: Kind, k: Kind)
    requires Rect(g) && InBounds(g, y, x)
    ensures Count(Set(g, y, x, v), k)
         == Count(g, k) - (if g[y][x] == k then 1 else 0) + (if v == k then 1 else 0)
    decreases |g|
  {
    var r := Set(g, y, x, v);
    var n := |g| - 1;
    assert Count(r, k) == Count(r[..n], k) + Occurrences(r[n], k);
    assert Count(g, k) == Count(g[..n], k) + Occurrences(g[n], k);
    if y == n {
      assert r[..n] == g[..n];
      assert r[n] == g[n][x := v];
      OccurrencesSet(g[n], x, v, k);
    } else {
      assert Rect(g[..n]) && Width(g[..n]) == Width(g);
      assert r[..n] == Set(g[..n], y, x, v);
      assert r[n] == g[n];
      CountSet(g[..n], y, x, v, k);
    }
  }

  lemma {:induction false} OccurrencesOfBlankRow(w: nat, k: Kind)
    ensures Occurrences(seq(w, j => Blank), k) == if k == Blank then w else 0
    decreases w
  {
    if w > 0 {
      assert seq(w, j => Blank) == seq(w - 1, j => Blank) + [Blank];
      OccurrencesOfBlankRow(w - 1, k);
    }
  }

  /** A cleared grid holds h*w Blank cells and nothing else. */
  lemma {:induction false} CountBlanks(h: nat, w: nat, k: Kind)
    ensures Count(Blanks(h, w), k) == if k == Blank then h * w else 0
    decreases h
  {
    if h > 0 {
      assert Blanks(h, w)[..h - 1] == Blanks(h - 1, w);
      OccurrencesOfBlankRow(w, k);
      CountBlanks(h - 1, w, k);
    }
  }

  // ---------------------------------------------------------------------
  // Conservation vocabulary
  // ---------------------------------------------------------------------

  /** Every substance occurs as often in g' as in g: only exchanges happened. */
  ghost predicate Preserves(g: Grid, g': Grid)
  {
    SameDims(g, g') && forall k :: Count(g', k) == Count(g, k)
  }

  /**
   * No substance was created: every non-Blank kind occurs at most as often
   * in g' as in g, and Blank at least as often (so the number of non-Blank
   * cells never grows).
   */
  ghost predicate Conserves(g: Grid, g': Grid)
  {
    SameDims(g, g') && Count(g', Blank) >= Count(g, Blank)
    && forall k :: k != Blank ==> Count(g', k) <= Count(g, k)
  }

  /**
   * Metal is inert: a cell holds Metal in g' only if it held Metal in g, so
   * metal is never moved or created (it can only be cleared).
   */
  ghost predicate MetalKept(g: Grid, g': Grid)
  {
    Rect(g) && SameDims(g, g')
    && forall i, j :: InBounds(g, i, j) && g'[i][j] == Metal ==> g[i][j] == Metal
  }

  /** g' agrees with g except on cells cleared to Blank. */
  ghost predicate OnlyBlanked(g: Grid, g': Grid)
  {
    Rect(g) && SameDims(g, g')
    && forall i, j :: InBounds(g, i, j) ==> g'[i][j] == g[i][j] || g'[i][j] == Blank
  }

  lemma PreservesConserves(g: Grid, g': Grid)
    requires Preserves(g, g')
    ensures Conserves(g, g')
  {
    assert Count(g', Blank) == Count(g, Blank);
  }

  lemma ConservesRefl(g: Grid)
    requires Rect(g)
    ensures Conserves(g, g) && MetalKept(g, g)
  {
  }

  lemma ConservesTrans(g1: Grid, g2: Grid, g3: Grid)
    requires Conserves(g1, g2) && Conserves(g2, g3)
    ensures Conserves(g1, g3)
  {
    forall k | k != Blank
      ensures Count(g3, k) <= Count(g1, k)
    {
      assert Count(g3, k) <= Count(g2, k) <= Count(g1, k);
    }
  }

  lemma MetalKeptTrans(g1: Grid, g2: Grid, g3: Grid)
    requires MetalKept(g1, g2) && MetalKept(g2, g3)
    ensures MetalKept(g1, g3)
  {
    forall i, j | InBounds(g1, i, j) && g3[i][j] == Metal
      ensures g1[i][j] == Metal
    {
      assert InBounds(g2, i, j);
    }
  }

  /** Exchanging the contents of two distinct cells keeps every count. */
  lemma SwapPreserves(g: Grid, y1: int, x1: int, y2: int, x2: int)
    requires Rect(g) && InBounds(g, y1, x1) && InBounds(g, y2, x2)
    requires y1 != y2 || x1 != x2
    ensures Preserves(g, Set(Set(g, y1, x1, g[y2][x2]), y2, x2, g[y1][x1]))
    ensures g[y1][x1] != Metal && g[y2][x2] != Metal ==>
              MetalKept(g, Set(Set(g, y1, x1, g[y2][x2]), y2, x2, g[y1][x1]))
  {
    var g1 := Set(g, y1, x1, g[y2][x2]);
    var g2 := Set(g1, y2, x2, g[y1][x1]);
    forall k
      ensures Count(g2, k) == Count(g, k)
    {
      CountSet(g, y1, x1, g[y2][x2], k);
      CountSet(g1, y2, x2, g[y1][x1], k);
    }
  }

  /** Exchanging two distinct non-Metal cells creates nothing and keeps metal inert. */
  lemma SwapConserves(g: Grid, y1: int, x1: int, y2: int, x2: int)
    requires Rect(g) && InBounds(g, y1, x1) && InBounds(g, y2, x2)
    requires y1 != y2 || x1 != x2
    requires g[y1][x1] != Metal && g[y2][x2] != Metal
    ensures Conserves(g, Set(Set(g, y1, x1, g[y2][x2]), y2, x2, g[y1][x1]))
    ensures MetalKept(g, Set(Set(g, y1, x1, g[y2][x2]), y2, x2, g[y1][x1]))
  {
    SwapPreserves(g, y1, x1, y2, x2);
    PreservesConserves(g, Set(Set(g, y1, x1, g[y2][x2]), y2, x2, g[y1][x1]));
  }

  /** Clearing one cell creates nothing and keeps metal inert. */
  lemma BlankConserves(g: Grid, y: int, x: int)
    requires Rect(g) && InBounds(g, y, x)
    ensures Conserves(g, Set(g, y, x, Blank)) && MetalKept(g, Set(g, y, x, Blank))
  {
    forall k
      ensures Count(Set(g, y, x, Blank), k) == Count(g, k) - (if g[y][x] == k then 1 else 0) + (if k == Blank then 1 else 0)
    {
      CountSet(g, y, x, Blank, k);
    }
  }

  lemma {:induction false} OccurrencesBlanked(s: seq<Kind>, s': seq<Kind>, k: Kind)
    requires |s'| == |s|
    requires forall j :: 0 <= j < |s| ==> s'[j] == s[j] || s'[j] == Blank
    ensures k != Blank ==> Occurrences(s', k) <= Occurrences(s, k)
    ensures k == Blank ==> Occurrences(s', k) >= Occurrences(s, k)
    decreases |s|
  {
    if |s| > 0 {
      var n := |s| - 1;
      assert s == s[..n] + [s[n]];
      assert s' == s'[..n] + [s'[n]];
      OccurrencesBlanked(s[..n], s'[..n], k);
    }
  }

  lemma {:induction false} CountBlanked(g: Grid, g': Grid, k: Kind)
    requires OnlyBlanked(g, g')
    ensures k != Blank ==> Count(g', k) <= Count(g, k)
    ensures k == Blank ==> Count(g', k) >= Count(g, k)
    decreases |g|
  {
    if |g| > 0 {
      var n := |g| - 1;
      assert OnlyBlanked(g[..n], g'[..n]) by {
        assert n > 0 ==> Width(g[..n]) == Width(g) && Width(g'[..n]) == Width(g');
        forall i, j | InBounds(g[..n], i, j)
          ensures g'[..n][i][j] == g[..n][i][j] || g'[..n][i][j] == Blank
        {
          assert InBounds(g, i, j);
        }
      }
      forall j | 0 <= j < |g[n]|
        ensures g'[n][j] == g[n][j] || g'[n][j] == Blank
      {
        assert InBounds(g, n, j);
      }
      OccurrencesBlanked(g[n], g'[n], k);
      CountBlanked(g[..n], g'[..n], k);
    }
  }

  /** Clearing any set of cells (an explosion, say) creates nothing and keeps metal inert. */
  lemma BlankingConserves(g: Grid, g': Grid)
    requires OnlyBlanked(g, g')
    ensures Conserves(g, g') && MetalKept(g, g')
  {
    forall k
      ensures k != Blank ==> Count(g', k) <= Count(g, k)
      ensures k == Blank ==> Count(g', k) >= Count(g, k)
    {
      CountBlanked(g, g', k);
    }
  }

  // ---------------------------------------------------------------------
  // The picture as an array
  // ---------------------------------------------------------------------

  function Row(a: array2<Kind>, i: int): (row: seq<Kind>)
    reads a
    requires 0 <= i < a.Length0
    ensures |row| == a.Length1
    ensures forall j :: 0 <= j < a.Length1 ==> row[j] == a[i, j]
  {
    seq(a.Length1, j reads a requires 0 <= j < a.Length1 => a[i, j])
  }

  /** The current contents of the array as a grid value. */
  function Snapshot(a: array2<Kind>): (g: Grid)
    reads a
    ensures |g| == a.Length0 && Rect(g)
    ensures forall i :: 0 <= i < a.Length0 ==> |g[i]| == a.Length1
    ensures a.Length0 > 0 ==> Width(g) == a.Length1
    ensures forall i, j :: 0 <= i < a.Length0 && 0 <= j < a.Length1 ==> g[i][j] == a[i, j]
  {
    seq(a.Length0, i reads a requires 0 <= i < a.Length0 => Row(a, i))
  }

  lemma SnapshotEq(a: array2<Kind>, g: Grid)
    requires |g| == a.Length0
    requires forall i :: 0 <= i < |g| ==> |g[i]| == a.Length1
    requires forall i, j :: 0 <= i < a.Length0 && 0 <= j < a.Length1 ==> a[i, j] == g[i][j]
    ensures Snapshot(a) == g
  {
    var s := Snapshot(a);
    forall i | 0 <= i < |g|
      ensures s[i] == g[i]
    {
      assert |s[i]| == |g[i]|;
    }
  }

  /** `picture[y][x] = k`. */
  method SetCell(a: array2<Kind>, y: int, x: int, k: Kind)
    requires 0 <= y < a.Length0 && 0 <= x < a.Length1
    modifies a
    ensures Snapshot(a) == Set(old(Snapshot(a)), y, x, k)
  {
    ghost var g := Snapshot(a);
    a[y, x] := k;
    SnapshotEq(a, Set(g, y, x, k));
  }

  /** clear_picture: every cell becomes Blank. */
  method ClearPicture(a: array2<Kind>)
    modifies a
    ensures Snapshot(a) == Blanks(a.Length0, a.Length1)
  {
    for y := 0 to a.Length0
      invariant forall i, j :: 0 <= i < a.Length0 && 0 <= j < a.Length1 ==>
                  a[i, j] == if i < y then Blank else old(a[i, j])
    {
      for x := 0 to a.Length1
        invariant forall i, j :: 0 <= i < a.Length0 && 0 <= j < a.Length1 ==>
                    a[i, j] == if i < y || (i == y && j < x) then Blank else old(a[i, j])
      {
        a[y, x] := Blank;
      }
    }
    SnapshotEq(a, Blanks(a.Length0, a.Length1));
  }

  /** count2d: how many cells of the picture hold `thing`, accumulated row by row. */
  method Count2d(a: array2<Kind>, thing: Kind) returns (counter: nat)
    ensures counter == Count(Snapshot(a), thing)
  {
    ghost var g := Snapshot(a);
    counter := 0;
    for y := 0 to a.Length0
      invariant counter == Count(g[..y], thing)
    {
      assert g[..y + 1][..y] == g[..y];
      assert g[y] == Row(a, y);
      counter := counter + Occurrences(Row(a, y), thing);
    }
    assert g[..a.Length0] == g;
  }
}
