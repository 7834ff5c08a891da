/**
  Post-processing of the face detector (src-tauri/src/face_detector.rs): the
  prior-box grid and greedy non-maximum suppression. Scores are exact reals
  and the overlap measure `iou` is a parameter; the floating-point box
  geometry is not part of this model.
*/
module FaceDetector {

  // ---------------------------------------------------------------------------
  // Proposals and the stable sort by score
  // ---------------------------------------------------------------------------

  /** A candidate face: a box and the classifier's confidence in it. */
  datatype Proposal<B> = Proposal(bbox: B, score: real)

  /** Non-increasing score. */
  predicate SortedByScore<B>(s: seq<Proposal<B>>) {
    forall i, j | 0 <= i < j < |s| :: s[i].score >= s[j].score
  }

  /** Insert `x` after every element scoring at least as much, so equal scores keep their order. */
  function Insert<B>(sorted: seq<Proposal<B>>, x: Proposal<B>): (r: seq<Proposal<B>>)
    ensures |r| == |sorted| + 1
    ensures multiset(r) == multiset(sorted) + multiset{x}
    decreases |sorted|
  {
    if sorted == [] || sorted[|sorted| - 1].score >= x.score then sorted + [x]
    else
      assert sorted == sorted[..|sorted| - 1] + [sorted[|sorted| - 1]];
      Insert(sorted[..|sorted| - 1], x) + [sorted[|sorted| - 1]]
  }

  lemma {:induction false} InsertKeepsOrder<B>(sorted: seq<Proposal<B>>, x: Proposal<B>)
    requires SortedByScore(sorted)
    ensures SortedByScore(Insert(sorted, x))
    ensures forall e | e in Insert(sorted, x) :: e in sorted || e == x
    decreases |sorted|
  {
    if sorted == [] || sorted[|sorted| - 1].score >= x.score {
    } else {
      var init, last := sorted[..|sorted| - 1], sorted[|sorted| - 1];
      InsertKeepsOrder(init, x);
      var front := Insert(init, x);
      forall e | e in front ensures e.score >= last.score {
        if e != x {
          var a :| 0 <= a < |init| && init[a] == e;
          assert sorted[a] == e;
        }
      }
      assert Insert(sorted, x) == front + [last];
    }
  }

  /**
    `sort_by` with the comparator `b.score` against `a.score`: a stable sort
    into non-increasing score.
  */
  function SortByScore<B>(s: seq<Proposal<B>>): (r: seq<Proposal<B>>)
    ensures |r| == |s| && multiset(r) == multiset(s)
    ensures SortedByScore(r)
    decreases |s|
  {
    if s == [] then []
    else
      assert s == s[..|s| - 1] + [s[|s| - 1]];
      InsertKeepsOrder(SortByScore(s[..|s| - 1]), s[|s| - 1]);
      Insert(SortByScore(s[..|s| - 1]), s[|s| - 1])
  }

  /** The proposals scoring exactly `v`, in order. */
  function WithScore<B>(s: seq<Proposal<B>>, v: real): seq<Proposal<B>>
    decreases |s|
  {
    if s == [] then []
    else WithScore(s[..|s| - 1], v) + (if s[|s| - 1].score == v then [s[|s| - 1]] else [])
  }

  lemma {:induction false} InsertIsStable<B>(sorted: seq<Proposal<B>>, x: Proposal<B>, v: real)
    requires SortedByScore(sorted)
    ensures WithScore(Insert(sorted, x), v) == WithScore(sorted, v) + (if x.score == v then [x] else [])
    decreases |sorted|
  {
    if sorted == [] || sorted[|sorted| - 1].score >= x.score {
      assert (sorted + [x])[..|sorted|] == sorted;
    } else {
      var init, last := sorted[..|sorted| - 1], sorted[|sorted| - 1];
      assert SortedByScore(init);
      InsertIsStable(init, x, v);
      var front := Insert(init, x);
      var r := front + [last];
      assert Insert(sorted, x) == r;
      assert r[..|r| - 1] == front && r[|r| - 1] == last;
      var tagX := if x.score == v then [x] else [];
      var tagLast := if last.score == v then [last] else [];
      assert WithScore(r, v) == WithScore(init, v) + tagX + tagLast;
      assert WithScore(sorted, v) == WithScore(init, v) + tagLast;
      assert tagX == [] || tagLast == [];
    }
  }

  /** Stability: among equal scores the sorted order is the input order. */
  lemma {:induction false} SortIsStable<B>(s: seq<Proposal<B>>, v: real)
    ensures WithScore(SortByScore(s), v) == WithScore(s, v)
    decreases |s|
  {
    if s != [] {
      SortIsStable(s[..|s| - 1], v);
      InsertIsStable(SortByScore(s[..|s| - 1]), s[|s| - 1], v);
    }
  }

  // ---------------------------------------------------------------------------
  // Greedy suppression
  // ---------------------------------------------------------------------------

  predicate StrictlyIncreasing(keep: seq<nat>) {
    forall a, b | 0 <= a < b < |keep| :: keep[a] < keep[b]
  }

  predicate InBounds(keep: seq<nat>, n: nat) {
    forall a | 0 <= a < |keep| :: keep[a] < n
  }

  /** Some kept proposal before `j` overlaps `j` by more than the threshold. */
  predicate Covered<B>(s: seq<Proposal<B>>, keep: seq<nat>, j: nat, iou: (B, B) -> real, threshold: real)
    requires j < |s| && InBounds(keep, |s|)
  {
    exists a | 0 <= a < |keep| :: keep[a] < j && iou(s[keep[a]].bbox, s[j].bbox) > threshold
  }

  /** The greedy choice: a proposal is kept exactly when no kept proposal before it overlaps it. */
  predicate IsGreedyKeep<B>(s: seq<Proposal<B>>, keep: seq<nat>, iou: (B, B) -> real, threshold: real) {
    && StrictlyIncreasing(keep) && InBounds(keep, |s|)
    && forall j | 0 <= j < |s| :: j in keep <==> !Covered(s, keep, j, iou, threshold)
  }

  lemma CoveredByOneMore<B>(s: seq<Proposal<B>>, keep: seq<nat>, i: nat, j: nat, iou: (B, B) -> real, threshold: real)
    requires j < |s| && i < |s| && InBounds(keep, |s|)
    ensures Covered(s, keep + [i], j, iou, threshold)
            == (Covered(s, keep, j, iou, threshold) || (i < j && iou(s[i].bbox, s[j].bbox) > threshold))
  {
    var k := keep + [i];
    if Covered(s, k, j, iou, threshold) {
      var a :| 0 <= a < |k| && k[a] < j && iou(s[k[a]].bbox, s[j].bbox) > threshold;
      if a < |keep| {
        assert keep[a] == k[a];
      }
    }
    if Covered(s, keep, j, iou, threshold) {
      var a :| 0 <= a < |keep| && keep[a] < j && iou(s[keep[a]].bbox, s[j].bbox) > threshold;
      assert k[a] == keep[a];
    }
    if i < j && iou(s[i].bbox, s[j].bbox) > threshold {
      assert k[|keep|] == i;
    }
  }

  /**
    Keeping `i` and marking what it overlaps turns the marks for `before`
    into the marks for `before + [i]`, and leaves the choices below `i` alone.
  */
  lemma KeepOneMore<B>(s: seq<Proposal<B>>, before: seq<nat>, i: nat, was: seq<bool>, now: seq<bool>,
                       iou: (B, B) -> real, threshold: real)
    requires i < |s| == |was| == |now| && InBounds(before, i)
    requires forall j | 0 <= j < |s| :: was[j] == Covered(s, before, j, iou, threshold)
    requires forall j | 0 <= j < |s| :: now[j] == (was[j] || (i < j && iou(s[i].bbox, s[j].bbox) > threshold))
    ensures InBounds(before + [i], i + 1)
    ensures forall j | 0 <= j < |s| :: now[j] == Covered(s, before + [i], j, iou, threshold)
    ensures forall j | 0 <= j <= i :: j in before + [i] <==> j in before || j == i
  {
    forall j | 0 <= j < |s|
      ensures now[j] == Covered(s, before + [i], j, iou, threshold)
    {
      CoveredByOneMore(s, before, i, j, iou, threshold);
    }
  }

  /**
    The two loops of `nms` (face_detector.rs:64-81) over boxes already in
    score order: returns the indices kept.
  */
  method Suppress<B>(boxes: array<Proposal<B>>, iou: (B, B) -> real, threshold: real) returns (keep: seq<nat>)
    ensures IsGreedyKeep(boxes[..], keep, iou, threshold)
  {
    var n := boxes.Length;
    var suppressed := new bool[n](_ => false);
    keep := [];
    var i := 0;
    while i < n
      invariant 0 <= i <= n
      invariant StrictlyIncreasing(keep) && InBounds(keep, i)
      invariant forall j | 0 <= j < n :: suppressed[j] == Covered(boxes[..], keep, j, iou, threshold)
      invariant forall j | 0 <= j < i :: j in keep <==> !suppressed[j]
    {
      if !suppressed[i] {
        var before := keep;
        keep := keep + [i];
        ghost var was := suppressed[..];
        SuppressOverlapping(boxes, suppressed, i, iou, threshold);
        KeepOneMore(boxes[..], before, i, was, suppressed[..], iou, threshold);
      }
      i := i + 1;
    }
  }

  /**
    The inner loop of `nms` (face_detector.rs:72-79): marks every later
    proposal that box `i` overlaps by more than the threshold.
  */
  method SuppressOverlapping<B>(boxes: array<Proposal<B>>, suppressed: array<bool>, i: nat,
                                iou: (B, B) -> real, threshold: real)
    requires i < boxes.Length == suppressed.Length
    modifies suppressed
    ensures forall j | 0 <= j < suppressed.Length ::
      suppressed[j] == (old(suppressed[j]) || (i < j && iou(boxes[i].bbox, boxes[j].bbox) > threshold))
  {
    var j := i + 1;
    while j < boxes.Length
      invariant i + 1 <= j <= boxes.Length
      invariant forall j' | 0 <= j' < suppressed.Length ::
        suppressed[j'] == (old(suppressed[j']) || (i < j' < j && iou(boxes[i].bbox, boxes[j'].bbox) > threshold))
    {
      if !suppressed[j] {
        if iou(boxes[i].bbox, boxes[j].bbox) > threshold {
          suppressed[j] := true;
        }
      }
      j := j + 1;
    }
  }

  /**
    `nms` (face_detector.rs:61-82): sorts the proposals in place by score,
    then suppresses greedily; the indices refer to the sorted order.
  */
  method Nms<B>(boxes: array<Proposal<B>>, iou: (B, B) -> real, threshold: real) returns (keep: seq<nat>)
    modifies boxes
    ensures boxes[..] == SortByScore(old(boxes[..]))
    ensures IsGreedyKeep(boxes[..], keep, iou, threshold)
  {
    var sorted := SortByScore(boxes[..]);
    forall i | 0 <= i < boxes.Length {
      boxes[i] := sorted[i];
    }
    keep := Suppress(boxes, iou, threshold);
  }

  /**
    What the greedy choice guarantees: the best proposal survives, no two
    survivors overlap (earlier against later), and every dropped proposal
    is overlapped by an earlier survivor.
  */
  lemma GreedyKeepGuarantees<B>(s: seq<Proposal<B>>, keep: seq<nat>, iou: (B, B) -> real, threshold: real)
    requires IsGreedyKeep(s, keep, iou, threshold)
    ensures |s| > 0 ==> |keep| > 0 && keep[0] == 0
    ensures forall a, b | 0 <= a < b < |keep| :: !(iou(s[keep[a]].bbox, s[keep[b]].bbox) > threshold)
    ensures forall j | 0 <= j < |s| && j !in keep ::
              exists a | 0 <= a < |keep| :: keep[a] < j && iou(s[keep[a]].bbox, s[j].bbox) > threshold
  {
    if |s| > 0 {
      assert !Covered(s, keep, 0, iou, threshold);
      assert 0 in keep;
      var a :| 0 <= a < |keep| && keep[a] == 0;
      assert forall p | 0 <= p < |keep| :: keep[0] <= keep[p];
    }
    forall a, b | 0 <= a < b < |keep|
      ensures !(iou(s[keep[a]].bbox, s[keep[b]].bbox) > threshold)
    {
      assert keep[b] in keep;
      assert !Covered(s, keep, keep[b], iou, threshold);
    }
  }

  /** Members below `j` decide whether `j` is covered. */
  lemma CoveredAgrees<B>(s: seq<Proposal<B>>, k1: seq<nat>, k2: seq<nat>, j: nat, iou: (B, B) -> real, threshold: real)
    requires j < |s| && InBounds(k1, |s|) && InBounds(k2, |s|)
    requires forall x | 0 <= x < j :: x in k1 <==> x in k2
    ensures Covered(s, k1, j, iou, threshold) ==> Covered(s, k2, j, iou, threshold)
  {
    if Covered(s, k1, j, iou, threshold) {
      var a :| 0 <= a < |k1| && k1[a] < j && iou(s[k1[a]].bbox, s[j].bbox) > threshold;
      assert k1[a] in k2;
      var b :| 0 <= b < |k2| && k2[b] == k1[a];
    }
  }

  /** The members of a strictly increasing sequence after its head are those above the head. */
  lemma TailMembers(a: seq<nat>, x: nat)
    requires StrictlyIncreasing(a) && a != []
    ensures x in a[1..] <==> x in a && x != a[0]
  {
    if x in a[1..] {
      var p :| 0 <= p < |a| - 1 && a[1..][p] == x;
      assert a[p + 1] == x && a[0] < a[p + 1];
    }
    if x in a && x != a[0] {
      var q :| 0 <= q < |a| && a[q] == x;
      assert a[1..][q - 1] == x;
    }
  }

  /** Two strictly increasing sequences with the same members start alike. */
  lemma SameHead(a: seq<nat>, b: seq<nat>)
    requires StrictlyIncreasing(a) && StrictlyIncreasing(b) && a != [] && b != []
    requires forall x :: x in a <==> x in b
    ensures a[0] == b[0]
  {
    assert a[0] in b && b[0] in a;
    var i :| 0 <= i < |b| && b[i] == a[0];
    var j :| 0 <= j < |a| && a[j] == b[0];
    assert b[0] <= b[i] && a[0] <= a[j];
  }

  lemma {:induction false} IncreasingByMembers(a: seq<nat>, b: seq<nat>)
    requires StrictlyIncreasing(a) && StrictlyIncreasing(b)
    requires forall x :: x in a <==> x in b
    ensures a == b
    decreases |a|
  {
    if a != [] {
      assert a[0] in b;
    }
    if b != [] {
      assert b[0] in a;
    }
    if a != [] && b != [] {
      SameHead(a, b);
      forall x ensures x in a[1..] <==> x in b[1..] {
        TailMembers(a, x);
        TailMembers(b, x);
      }
      IncreasingByMembers(a[1..], b[1..]);
      assert a == [a[0]] + a[1..] && b == [b[0]] + b[1..];
    }
  }

  /** The greedy choice is unique: `nms` has exactly one possible answer. */
  lemma GreedyKeepIsUnique<B>(s: seq<Proposal<B>>, k1: seq<nat>, k2: seq<nat>, iou: (B, B) -> real, threshold: real)
    requires IsGreedyKeep(s, k1, iou, threshold) && IsGreedyKeep(s, k2, iou, threshold)
    ensures k1 == k2
  {
    SameMembersUpTo(s, k1, k2, iou, threshold, |s|);
    forall x ensures x in k1 <==> x in k2 {
      if x in k1 { assert x < |s|; }
      if x in k2 { assert x < |s|; }
    }
    IncreasingByMembers(k1, k2);
  }

  lemma {:induction false} SameMembersUpTo<B>(s: seq<Proposal<B>>, k1: seq<nat>, k2: seq<nat>, iou: (B, B) -> real, threshold: real, n: nat)
    requires IsGreedyKeep(s, k1, iou, threshold) && IsGreedyKeep(s, k2, iou, threshold) && n <= |s|
    ensures forall x | 0 <= x < n :: x in k1 <==> x in k2
  {
    if n > 0 {
      SameMembersUpTo(s, k1, k2, iou, threshold, n - 1);
      CoveredAgrees(s, k1, k2, n - 1, iou, threshold);
      CoveredAgrees(s, k2, k1, n - 1, iou, threshold);
    }
  }

  // ---------------------------------------------------------------------------
  // The anchor grid
  // ---------------------------------------------------------------------------

  const InputWidth: real := 320.0
  const InputHeight: real := 240.0

  /**
    A prior box: the cell it is centred on, the level's stride and one
    minimum size, from which its four entries follow.
  */
  datatype Anchor = Anchor(column: nat, row: nat, step: nat, minSize: nat) {
    /** `cx`, `cy`, `s_kx` and `s_ky`, relative to the input size (face_detector.rs:21-25). */
    function Cx(): real { (column as real + 0.5) * step as real / InputWidth }
    function Cy(): real { (row as real + 0.5) * step as real / InputHeight }
    function Sx(): real { minSize as real / InputWidth }
    function Sy(): real { minSize as real / InputHeight }
  }

  /** One level of the grid: its feature-map size, its stride and its minimum sizes. */
  datatype Level = Level(columns: nat, rows: nat, step: nat, minSizes: seq<nat>)

  /**
    The four levels, one entry per position of the source's three parallel
    tables: `feature_map_sizes` (columns, then rows), `steps` and `min_boxes`.
  */
  const Config: seq<Level> := [
    Level(40, 30, 8, [10, 16, 24]),
    Level(20, 15, 16, [32, 48]),
    Level(10, 8, 32, [64, 96]),
    Level(5, 4, 64, [128, 192, 256])
  ]

  /** The anchor of row `i`, column `j` and minimum size `m` of a level. */
  function Cell(lv: Level, i: nat, j: nat, m: nat): Anchor
    requires m < |lv.minSizes|
  {
    Anchor(j, i, lv.step, lv.minSizes[m])
  }

  /** The anchor of level `k`, row `i`, column `j`, minimum size `m`. */
  function AnchorAt(k: nat, i: nat, j: nat, m: nat): Anchor
    requires k < |Config| && m < |Config[k].minSizes|
  {
    Cell(Config[k], i, j, m)
  }

  /**
    Every centre lies within the input: the columns exactly tile its width,
    and the rows cover its height, the last row of the two coarsest levels
    reaching or passing the lower edge.
  */
  lemma CentresInsideInput(k: nat, i: nat, j: nat, m: nat)
    requires k < |Config| && i < Config[k].rows && j < Config[k].columns && m < |Config[k].minSizes|
    ensures 0.0 < AnchorAt(k, i, j, m).Cx() < 1.0
    ensures 0.0 < AnchorAt(k, i, j, m).Cy() <= 1.0
    ensures Config[k].columns * Config[k].step == 320 && Config[k].rows * Config[k].step >= 240
  {
    var lv := Config[k];
    var step := lv.step as real;
    assert step > 0.0;
    assert (j as real + 0.5) * step <= (lv.columns as real - 0.5) * step;
    assert (i as real + 0.5) * step <= (lv.rows as real - 0.5) * step;
  }

  /** `a · b` by repeated addition, so that grid arithmetic stays linear for the solver. */
  function Mul(a: nat, b: nat): nat {
    if a == 0 then 0 else Mul(a - 1, b) + b
  }

  lemma {:induction false} MulIsProduct(a: nat, b: nat)
    ensures Mul(a, b) == a * b
  {
    if a > 0 {
      MulIsProduct(a - 1, b);
    }
  }

  lemma {:induction false} MulAdd(x: nat, y: nat, c: nat)
    ensures Mul(x + y, c) == Mul(x, c) + Mul(y, c)
    decreases y
  {
    if y > 0 {
      MulAdd(x, y - 1, c);
    }
  }

  lemma {:induction false} MulAssoc(a: nat, b: nat, c: nat)
    ensures Mul(Mul(a, b), c) == Mul(a, Mul(b, c))
  {
    if a > 0 {
      MulAssoc(a - 1, b, c);
      MulAdd(Mul(a - 1, b), b, c);
    }
  }

  /** `(i · c + j) · z = i · (c · z) + j · z`. */
  lemma RowsThenCells(i: nat, c: nat, j: nat, z: nat)
    ensures Mul(Mul(i, c) + j, z) == Mul(i, Mul(c, z)) + Mul(j, z)
  {
    MulAdd(Mul(i, c), j, z);
    MulAssoc(i, c, z);
  }

  /** Entry `m` of row `a` lies before row `b`: `a · c + m < b · c` when `a < b` and `m < c`. */
  lemma {:induction false} Place(a: nat, b: nat, c: nat, m: nat)
    requires a < b && m < c
    ensures Mul(a, c) + m < Mul(b, c)
    decreases b
  {
    if a < b - 1 {
      Place(a, b - 1, c, m);
    }
  }

  /** The first `m` anchors of one cell. */
  function CellPrefix(lv: Level, i: nat, j: nat, m: nat): (r: seq<Anchor>)
    requires m <= |lv.minSizes|
    ensures |r| == m
  {
    if m == 0 then [] else CellPrefix(lv, i, j, m - 1) + [Cell(lv, i, j, m - 1)]
  }

  /** The first `j` cells of one row. */
  function RowPrefix(lv: Level, i: nat, j: nat): (r: seq<Anchor>)
    ensures |r| == Mul(j, |lv.minSizes|)
  {
    if j == 0 then [] else RowPrefix(lv, i, j - 1) + CellPrefix(lv, i, j - 1, |lv.minSizes|)
  }

  /** The first `i` rows of one level. */
  function LevelPrefix(lv: Level, i: nat): (r: seq<Anchor>)
    ensures |r| == Mul(i, Mul(lv.columns, |lv.minSizes|))
  {
    if i == 0 then [] else LevelPrefix(lv, i - 1) + RowPrefix(lv, i - 1, lv.columns)
  }

  /** The number of anchors in one level: rows · columns · minimum sizes. */
  function LevelSize(lv: Level): nat {
    Mul(lv.rows, Mul(lv.columns, |lv.minSizes|))
  }

  /** All anchors of one level. */
  function LevelGrid(lv: Level): (r: seq<Anchor>)
    ensures |r| == LevelSize(lv)
  {
    LevelPrefix(lv, lv.rows)
  }

  /** The number of anchors in a list of levels. */
  function TotalSize(levels: seq<Level>): nat {
    if levels == [] then 0 else TotalSize(levels[..|levels| - 1]) + LevelSize(levels[|levels| - 1])
  }

  /** The anchors of a list of levels, level after level. */
  function Grid(levels: seq<Level>): (r: seq<Anchor>)
    ensures |r| == TotalSize(levels)
  {
    if levels == [] then [] else Grid(levels[..|levels| - 1]) + LevelGrid(levels[|levels| - 1])
  }

  /** What `generate_anchors` returns. */
  function AnchorGrid(): seq<Anchor> {
    Grid(Config)
  }

  /** Where level `k` starts. */
  function LevelStart(k: nat): nat
    requires k <= |Config|
  {
    TotalSize(Config[..k])
  }

  /** The position of an anchor within its level: by row, then column, then minimum size. */
  function LevelOffset(lv: Level, i: nat, j: nat, m: nat): nat {
    Mul(Mul(i, lv.columns) + j, |lv.minSizes|) + m
  }

  /** The position of an anchor in a grid: by level, then row, then column, then minimum size. */
  function GridOffset(levels: seq<Level>, k: nat, i: nat, j: nat, m: nat): nat
    requires k < |levels|
  {
    TotalSize(levels[..k]) + LevelOffset(levels[k], i, j, m)
  }

  /** The offset written with ordinary products. */
  lemma OffsetFormula(levels: seq<Level>, k: nat, i: nat, j: nat, m: nat)
    requires k < |levels|
    ensures GridOffset(levels, k, i, j, m)
            == TotalSize(levels[..k]) + (i * levels[k].columns + j) * |levels[k].minSizes| + m
  {
    var lv := levels[k];
    MulIsProduct(i, lv.columns);
    MulIsProduct(i * lv.columns + j, |lv.minSizes|);
  }

  /** 40·30·3, 20·15·2, 10·8·2 and 5·4·3 anchors per level. */
  lemma LevelSizes()
    ensures LevelSize(Config[0]) == 3600 && LevelSize(Config[1]) == 600
    ensures LevelSize(Config[2]) == 160 && LevelSize(Config[3]) == 60
  {
    assert LevelSize(Config[0]) == 3600 by { MulIsProduct(40, 3); MulIsProduct(30, 120); }
    assert LevelSize(Config[1]) == 600 by { MulIsProduct(20, 2); MulIsProduct(15, 40); }
    assert LevelSize(Config[2]) == 160 by { MulIsProduct(10, 2); MulIsProduct(8, 20); }
    assert LevelSize(Config[3]) == 60 by { MulIsProduct(5, 3); MulIsProduct(4, 15); }
  }

  /** 4420 anchors in all, the levels starting at 0, 3600, 4200 and 4360. */
  lemma AnchorCount()
    ensures LevelStart(1) == 3600 && LevelStart(2) == 4200 && LevelStart(3) == 4360
    ensures |AnchorGrid()| == 4420
  {
    LevelSizes();
    var c1, c2, c3 := Config[..1], Config[..2], Config[..3];
    assert c1[..0] == [] && c1[0] == Config[0];
    assert TotalSize(c1) == TotalSize([]) + LevelSize(Config[0]);
    assert c2[..1] == c1 && c2[1] == Config[1];
    assert TotalSize(c2) == TotalSize(c1) + LevelSize(Config[1]);
    assert c3[..2] == c2 && c3[2] == Config[2];
    assert TotalSize(c3) == TotalSize(c2) + LevelSize(Config[2]);
    assert Config[..|Config| - 1] == c3;
  }

  lemma {:induction false} CellIndex(lv: Level, i: nat, j: nat, m: nat, x: nat)
    requires x < m <= |lv.minSizes|
    ensures CellPrefix(lv, i, j, m)[x] == Cell(lv, i, j, x)
  {
    if x < m - 1 {
      CellIndex(lv, i, j, m - 1, x);
    }
  }

  lemma {:induction false} RowIndex(lv: Level, i: nat, j: nat, j': nat, m: nat)
    requires j' < j && m < |lv.minSizes|
    ensures Mul(j', |lv.minSizes|) + m < |RowPrefix(lv, i, j)|
    ensures RowPrefix(lv, i, j)[Mul(j', |lv.minSizes|) + m] == Cell(lv, i, j', m)
  {
    var z := |lv.minSizes|;
    Place(j', j, z, m);
    var front, cell := RowPrefix(lv, i, j - 1), CellPrefix(lv, i, j - 1, z);
    assert RowPrefix(lv, i, j) == front + cell;
    var idx := Mul(j', z) + m;
    if j' < j - 1 {
      Place(j', j - 1, z, m);
      RowIndex(lv, i, j - 1, j', m);
      assert (front + cell)[idx] == front[idx];
    } else {
      CellIndex(lv, i, j', z, m);
      assert (front + cell)[idx] == cell[m];
    }
  }

  /** The offset within a level counts whole rows, then cells, then sizes. */
  lemma LevelOffsetByRows(lv: Level, i: nat, j: nat, m: nat)
    ensures LevelOffset(lv, i, j, m) == Mul(i, Mul(lv.columns, |lv.minSizes|)) + (Mul(j, |lv.minSizes|) + m)
  {
    RowsThenCells(i, lv.columns, j, |lv.minSizes|);
  }

  lemma {:induction false} LevelIndex(lv: Level, i: nat, i': nat, j: nat, m: nat)
    requires i' < i && j < lv.columns && m < |lv.minSizes|
    ensures LevelOffset(lv, i', j, m) < |LevelPrefix(lv, i)|
    ensures LevelPrefix(lv, i)[LevelOffset(lv, i', j, m)] == Cell(lv, i', j, m)
  {
    var c, z := lv.columns, |lv.minSizes|;
    var x := Mul(j, z) + m;
    var idx := LevelOffset(lv, i', j, m);
    assert idx == Mul(i', Mul(c, z)) + x by {
      LevelOffsetByRows(lv, i', j, m);
    }
    var front, row := LevelPrefix(lv, i - 1), RowPrefix(lv, i - 1, c);
    assert LevelPrefix(lv, i) == front + row;
    if i' < i - 1 {
      LevelIndex(lv, i - 1, i', j, m);
      assert (front + row)[idx] == front[idx];
    } else {
      RowIndex(lv, i', c, j, m);
      assert idx == |front| + x;
      assert (front + row)[idx] == row[x];
    }
  }

  lemma {:induction false} GridIndex(levels: seq<Level>, k: nat, x: nat)
    requires k < |levels| && x < LevelSize(levels[k])
    ensures TotalSize(levels[..k]) + x < |Grid(levels)|
    ensures Grid(levels)[TotalSize(levels[..k]) + x] == LevelGrid(levels[k])[x]
  {
    var init := levels[..|levels| - 1];
    var front, level := Grid(init), LevelGrid(levels[|levels| - 1]);
    assert Grid(levels) == front + level;
    var idx := TotalSize(levels[..k]) + x;
    if k < |levels| - 1 {
      assert init[k] == levels[k];
      assert init[..k] == levels[..k];
      GridIndex(init, k, x);
      assert (front + level)[idx] == front[idx];
    } else {
      assert levels[..k] == init;
      assert (front + level)[idx] == level[x];
    }
  }

  /**
    Every anchor sits at its offset: a grid, `generate_anchors`' own
    included, is ordered by level, row, column and minimum size.
  */
  lemma GridOrder(levels: seq<Level>, k: nat, i: nat, j: nat, m: nat)
    requires k < |levels| && i < levels[k].rows && j < levels[k].columns && m < |levels[k].minSizes|
    ensures GridOffset(levels, k, i, j, m) < |Grid(levels)|
    ensures Grid(levels)[GridOffset(levels, k, i, j, m)] == Cell(levels[k], i, j, m)
  {
    var lv := levels[k];
    var x := LevelOffset(lv, i, j, m);
    assert x < |LevelGrid(lv)| && LevelGrid(lv)[x] == Cell(lv, i, j, m) by {
      LevelIndex(lv, lv.rows, i, j, m);
    }
    GridIndex(levels, k, x);
  }

  /**
    `generate_anchors` (face_detector.rs:3-31). The source pushes every
    anchor onto one vector; here each level is collected by `LevelAnchors`
    and appended whole, which yields the same sequence.
  */
  method GenerateAnchors() returns (anchors: seq<Anchor>)
    ensures anchors == AnchorGrid()
  {
    anchors := GridAnchors(Config);
  }

  /** The level loop of `generate_anchors` (face_detector.rs:14-30), over any list of levels. */
  method GridAnchors(levels: seq<Level>) returns (anchors: seq<Anchor>)
    ensures anchors == Grid(levels)
  {
    anchors := [];
    var k: nat := 0;
    while k < |levels|
      invariant k <= |levels| && anchors == Grid(levels[..k])
    {
      var level := LevelAnchors(levels[k]);
      assert levels[..k + 1][..k] == levels[..k];
      anchors := anchors + level;
      k := k + 1;
    }
    assert levels[..k] == levels;
  }

  /** The row loop of `generate_anchors` (face_detector.rs:18-28): the anchors of one level. */
  method LevelAnchors(lv: Level) returns (level: seq<Anchor>)
    ensures level == LevelGrid(lv)
  {
    level := [];
    var i: nat := 0;
    while i < lv.rows
      invariant i <= lv.rows && level == LevelPrefix(lv, i)
    {
      var row := RowAnchors(lv, i);
      level := level + row;
      i := i + 1;
    }
  }

  /**
    The column and minimum-size loops of `generate_anchors`
    (face_detector.rs:19-27): the anchors of row `i` of one level.
  */
  method RowAnchors(lv: Level, i: nat) returns (row: seq<Anchor>)
    ensures row == RowPrefix(lv, i, lv.columns)
  {
    row := [];
    var j: nat := 0;
    while j < lv.columns
      invariant j <= lv.columns && row == RowPrefix(lv, i, j)
    {
      var cell: seq<Anchor> := [];
      var m: nat := 0;
      while m < |lv.minSizes|
        invariant m <= |lv.minSizes| && cell == CellPrefix(lv, i, j, m)
      {
        cell := cell + [Anchor(j, i, lv.step, lv.minSizes[m])];
        m := m + 1;
      }
      row := row + cell;
      j := j + 1;
    }
  }
}
