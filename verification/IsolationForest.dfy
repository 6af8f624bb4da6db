/** Isolation trees: random partitions of a sample, grown to a height limit, and the
    path a point takes down them. */
module IsolationForests {
  import opened Sequences

  type Row = seq<real>

  /** A split with no value compares below nothing: that of rows which all lack the
      feature. */
  datatype Tree = Leaf(size: nat) | Node(splitFeature: nat, splitValue: Option<real>, left: Tree, right: Tree)

  predicate GoesLeft(row: Row, feature: nat, split: Option<real>) {
    feature < |row| && split.Some? && row[feature] < split.value
  }

  function Side(feature: nat, split: Option<real>, left: bool): Row -> bool {
    (row: Row) => GoesLeft(row, feature, split) == left
  }

  /** Way down the tree: true for left. */
  function Route(tree: Tree, point: Row): seq<bool> {
    match tree
    case Leaf(_) => []
    case Node(f, v, l, r) => if GoesLeft(point, f, v) then [true] + Route(l, point) else [false] + Route(r, point)
  }

  /** The size of the leaf at the end of a way, if there is one. */
  function LeafAt(tree: Tree, way: seq<bool>): Option<nat> {
    match tree
    case Leaf(n) => if way == [] then Some(n) else None
    case Node(_, _, l, r) => if way == [] then None else LeafAt(if way[0] then l else r, way[1..])
  }

  function LeafSizes(tree: Tree): nat {
    match tree
    case Leaf(n) => n
    case Node(_, _, l, r) => LeafSizes(l) + LeafSizes(r)
  }

  function Height(tree: Tree): nat {
    match tree
    case Leaf(_) => 0
    case Node(_, _, l, r) => 1 + if Height(l) > Height(r) then Height(l) else Height(r)
  }

  function PathLength(point: Row, node: Tree, depth: nat, c: nat -> real): real {
    match node
    case Leaf(n) => depth as real + c(n)
    case Node(f, v, l, r) => PathLength(point, if GoesLeft(point, f, v) then l else r, depth + 1, c)
  }

  /** The least and the greatest value of a feature, over the rows that have it. */
  function Least(data: seq<Row>, feature: nat): (m: Option<real>)
    ensures m.None? <==> forall row :: row in data ==> feature >= |row|
    ensures m.Some? ==> forall row :: row in data && feature < |row| ==> m.value <= row[feature]
    ensures m.Some? ==> exists row :: row in data && feature < |row| && m.value == row[feature]
  {
    if data == [] then None
    else
      var before, row := Least(data[..|data| - 1], feature), data[|data| - 1];
      assert forall r :: r in data <==> r in data[..|data| - 1] || r == row;
      if feature < |row| && (before.None? || row[feature] < before.value) then Some(row[feature]) else before
  }

  function Greatest(data: seq<Row>, feature: nat): (m: Option<real>)
    ensures m.None? <==> forall row :: row in data ==> feature >= |row|
    ensures m.Some? ==> forall row :: row in data && feature < |row| ==> row[feature] <= m.value
    ensures m.Some? ==> exists row :: row in data && feature < |row| && m.value == row[feature]
  {
    if data == [] then None
    else
      var before, row := Greatest(data[..|data| - 1], feature), data[|data| - 1];
      assert forall r :: r in data <==> r in data[..|data| - 1] || r == row;
      if feature < |row| && (before.None? || row[feature] > before.value) then Some(row[feature]) else before
  }

  /** All draws are in [0, 1). */
  ghost predicate InUnit(stream: nat -> real) {
    forall i :: 0.0 <= stream(i) < 1.0
  }

  function Scaled(draw: real, n: nat): int {
    (draw * (n as real)).Floor
  }

  lemma ScaledInRange(draw: real, n: nat)
    requires 0.0 <= draw < 1.0
    ensures 0 <= Scaled(draw, n) && (n > 0 ==> Scaled(draw, n) < n)
  {
    if n > 0 { assert draw * (n as real) < 1.0 * (n as real); }
    assert draw * (n as real) >= 0.0;
  }

  lemma ScaledIs(draw: real, n: nat)
    ensures Scaled(draw, n) == (draw * (n as real)).Floor
  {
  }

  function SplitBetween(min: Option<real>, max: Option<real>, draw: real): Option<real> {
    if min.None? || max.None? then None else Some(min.value + draw * (max.value - min.value))
  }

  /** Both ends present and the same; without a value they are the two infinities. */
  predicate Constant(min: Option<real>, max: Option<real>) {
    min.Some? && max.Some? && min.value == max.value
  }

  datatype Split = Split(feature: nat, value: Option<real>)

  /** A random feature and a random value of it, unless it is the same in all rows. */
  function Choice(data: seq<Row>, stream: nat -> real, used: nat): Option<Split>
    requires InUnit(stream) && data != []
  {
    ScaledInRange(stream(used), |data[0]|);
    var feature := Scaled(stream(used), |data[0]|);
    var min, max := Least(data, feature), Greatest(data, feature);
    if Constant(min, max) then None else Some(Split(feature, SplitBetween(min, max, stream(used + 1))))
  }

  function Part(data: seq<Row>, split: Split, left: bool): seq<Row> {
    Filter(data, Side(split.feature, split.value, left))
  }

  /** The tree grown from the draws that follow the first `used`, and how many are
      used in the end. */
  function Grown(data: seq<Row>, heightLimit: nat, stream: nat -> real, used: nat, depth: nat): (Tree, nat)
    requires InUnit(stream)
    decreases heightLimit - depth
  {
    if depth >= heightLimit || |data| <= 1 then (Leaf(|data|), used)
    else
      match Choice(data, stream, used)
      case None => (Leaf(|data|), used + 1)
      case Some(split) =>
        var left := Grown(Part(data, split, true), heightLimit, stream, used + 2, depth + 1);
        var right := Grown(Part(data, split, false), heightLimit, stream, left.1, depth + 1);
        (Node(split.feature, split.value, left.0, right.0), right.1)
  }

  /** The draws a tree has asked for: two for each split, and one for each leaf that
      might have been split. */
  function Asked(t: Tree, heightLimit: nat, depth: nat): nat {
    match t
    case Leaf(size) => if depth < heightLimit && size > 1 then 1 else 0
    case Node(_, _, left, right) => 2 + Asked(left, heightLimit, depth + 1) + Asked(right, heightLimit, depth + 1)
  }

  lemma {:induction false} DrawsCounted(data: seq<Row>, heightLimit: nat, stream: nat -> real, used: nat, depth: nat)
    requires InUnit(stream)
    ensures var (tree, after) := Grown(data, heightLimit, stream, used, depth);
            after == used + Asked(tree, heightLimit, depth)
    decreases heightLimit - depth
  {
    hide Choice, Part;
    if depth < heightLimit && |data| > 1 && Choice(data, stream, used).Some? {
      var split := Choice(data, stream, used).value;
      DrawsCounted(Part(data, split, true), heightLimit, stream, used + 2, depth + 1);
      var left := Grown(Part(data, split, true), heightLimit, stream, used + 2, depth + 1);
      DrawsCounted(Part(data, split, false), heightLimit, stream, left.1, depth + 1);
    }
  }

  class Rng {
    const stream: nat -> real
    var used: nat

    constructor (stream: nat -> real)
      ensures this.stream == stream && used == 0
    {
      this.stream, used := stream, 0;
    }

    method Next() returns (draw: real)
      modifies this
      ensures draw == stream(old(used)) && used == old(used) + 1
    {
      draw := stream(used);
      used := used + 1;
    }
  }

  method BuildTree(data: seq<Row>, heightLimit: nat, rng: Rng, depth: nat) returns (tree: Tree)
    requires InUnit(rng.stream)
    modifies rng
    ensures (tree, rng.used) == Grown(data, heightLimit, rng.stream, old(rng.used), depth)
    decreases heightLimit - depth
  {
    hide Choice, Part;
    if depth >= heightLimit || |data| <= 1 { return Leaf(|data|); }
    var split := Choose(data, rng);
    if split == None { return Leaf(|data|); }
    var left, right := Divide(data, split.value);
    var l := BuildTree(left, heightLimit, rng, depth + 1);
    var r := BuildTree(right, heightLimit, rng, depth + 1);
    return Node(split.value.feature, split.value.value, l, r);
  }

  method Choose(data: seq<Row>, rng: Rng) returns (split: Option<Split>)
    requires InUnit(rng.stream) && data != []
    modifies rng
    ensures split == Choice(data, rng.stream, old(rng.used))
    ensures rng.used == old(rng.used) + if split == None then 1 else 2
  {
    hide Scaled, SplitBetween, Least, Greatest;
    var draw := rng.Next();
    ScaledInRange(draw, |data[0]|);
    var feature := Scaled(draw, |data[0]|);
    var min, max := MinMax(data, feature);
    if Constant(min, max) { return None; }
    draw := rng.Next();
    return Some(Split(feature, SplitBetween(min, max, draw)));
  }

  method MinMax(data: seq<Row>, feature: nat) returns (min: Option<real>, max: Option<real>)
    ensures min == Least(data, feature) && max == Greatest(data, feature)
  {
    min, max := None, None;
    for i := 0 to |data|
      invariant min == Least(data[..i], feature) && max == Greatest(data[..i], feature)
    {
      assert data[..i + 1][..i] == data[..i];
      var row := data[i];
      if feature < |row| {
        if min.None? || row[feature] < min.value { min := Some(row[feature]); }
        if max.None? || row[feature] > max.value { max := Some(row[feature]); }
      }
    }
    assert data[..|data|] == data;
  }

  method Divide(data: seq<Row>, at: Split) returns (left: seq<Row>, right: seq<Row>)
    ensures left == Part(data, at, true) && right == Part(data, at, false)
  {
    var feature, split := at.feature, at.value;
    left, right := [], [];
    for i := 0 to |data|
      invariant left == Filter(data[..i], Side(feature, split, true))
      invariant right == Filter(data[..i], Side(feature, split, false))
    {
      FilterStep(data, i, Side(feature, split, true));
      FilterStep(data, i, Side(feature, split, false));
      if GoesLeft(data[i], feature, split) { left := left + [data[i]]; } else { right := right + [data[i]]; }
    }
    assert data[..|data|] == data;
  }

  function RoutedTo(tree: Tree, way: seq<bool>): Row -> bool {
    (row: Row) => Route(tree, row) == way
  }

  lemma {:induction false} SidesCover(s: seq<Row>, feature: nat, split: Option<real>)
    ensures |Filter(s, Side(feature, split, true))| + |Filter(s, Side(feature, split, false))| == |s|
  {
    if s != [] { SidesCover(s[..|s| - 1], feature, split); }
  }

  lemma {:induction false} FilterAll(s: seq<Row>, keep: Row -> bool)
    requires forall x :: x in s ==> keep(x)
    ensures Filter(s, keep) == s
  {
    FilterRun(s, 0, |s|, keep);
  }

  /** A tree stands for the rows it was grown from: the size of each leaf is the
      number of those rows whose way ends there, and there are as many leaf places as
      rows. */
  ghost predicate StandsFor(tree: Tree, data: seq<Row>) {
    && LeafSizes(tree) == |data|
    && forall way :: LeafAt(tree, way).Some? ==> LeafAt(tree, way).value == |Filter(data, RoutedTo(tree, way))|
  }

  lemma {:induction false} JoinedStandsFor(data: seq<Row>, feature: nat, split: Option<real>, left: Tree, right: Tree)
    requires StandsFor(left, Filter(data, Side(feature, split, true)))
    requires StandsFor(right, Filter(data, Side(feature, split, false)))
    ensures StandsFor(Node(feature, split, left, right), data)
  {
    var tree := Node(feature, split, left, right);
    SidesCover(data, feature, split);
    forall way | LeafAt(tree, way).Some? ensures LeafAt(tree, way).value == |Filter(data, RoutedTo(tree, way))| {
      var child, side := if way[0] then left else right, Side(feature, split, way[0]);
      assert LeafAt(child, way[1..]).Some?;
      forall x ensures RoutedTo(tree, way)(x) <==> side(x) && RoutedTo(child, way[1..])(x) {
        assert way == [way[0]] + way[1..];
        assert Route(tree, x)[1..] == Route(if GoesLeft(x, feature, split) then left else right, x);
      }
      FilterTwice(data, RoutedTo(tree, way), side, RoutedTo(child, way[1..]));
    }
  }

  lemma {:induction false} GrownStandsFor(data: seq<Row>, heightLimit: nat, stream: nat -> real, used: nat, depth: nat)
    requires InUnit(stream)
    ensures var tree := Grown(data, heightLimit, stream, used, depth).0;
            StandsFor(tree, data) && (depth <= heightLimit ==> Height(tree) <= heightLimit - depth)
    decreases heightLimit - depth
  {
    hide StandsFor, Choice, Filter;
    LeafStandsFor(data);
    if depth < heightLimit && |data| > 1 && Choice(data, stream, used).Some? {
      var split := Choice(data, stream, used).value;
      var left := Grown(Part(data, split, true), heightLimit, stream, used + 2, depth + 1);
      var right := Grown(Part(data, split, false), heightLimit, stream, left.1, depth + 1);
      GrownStandsFor(Part(data, split, true), heightLimit, stream, used + 2, depth + 1);
      GrownStandsFor(Part(data, split, false), heightLimit, stream, left.1, depth + 1);
      JoinedStandsFor(data, split.feature, split.value, left.0, right.0);
    }
  }

  /** Rows that all agree on a feature, as far as they have it, and of which some does. */
  ghost predicate AgreeOn(data: seq<Row>, feature: nat) {
    && (exists row :: row in data && feature < |row|)
    && forall a, b :: a in data && b in data && feature < |a| && feature < |b| ==> a[feature] == b[feature]
  }

  /** A split between the least value of a feature, at it or above, and the greatest, below
      it; where no row has the feature there is none. */
  ghost predicate SplitsOn(data: seq<Row>, feature: nat, split: Option<real>) {
    && (split.None? ==> forall row :: row in data ==> feature >= |row|)
    && (split.Some? ==>
          exists a, b :: a in data && b in data && feature < |a| && feature < |b|
                         && a[feature] <= split.value < b[feature])
  }

  /** A tree that splits as long as it can: a leaf above the height limit holds one row at
      most, or rows that agree on a feature; and each inner node sends the rows below its
      split to the left, the others to the right. */
  ghost predicate Splits(tree: Tree, data: seq<Row>, height: int) {
    match tree
    case Leaf(n) => n == |data| && (height <= 0 || |data| <= 1 || exists feature :: AgreeOn(data, feature))
    case Node(feature, split, left, right) =>
      && height > 0 && |data| > 1 && SplitsOn(data, feature, split)
      && Splits(left, Filter(data, (row: Row) => feature < |row| && split.Some? && row[feature] < split.value),
                height - 1)
      && Splits(right, Filter(data, (row: Row) => !(feature < |row| && split.Some? && row[feature] < split.value)),
                height - 1)
  }

  /** What the draws choose: the feature by the first, and by the second a value that far
      between the least and the greatest. */
  lemma {:induction false} ChoiceTells(data: seq<Row>, stream: nat -> real, used: nat)
    requires InUnit(stream) && data != []
    ensures var choice, feature := Choice(data, stream, used), (stream(used) * (|data[0]| as real)).Floor;
            && 0 <= feature && (|data[0]| > 0 ==> feature < |data[0]|)
            && (choice.None? <==> AgreeOn(data, feature))
            && (choice.Some? ==>
                  && choice.value.feature == feature && SplitsOn(data, feature, choice.value.value)
                  && (choice.value.value.Some? ==>
                        Least(data, feature).Some? && Greatest(data, feature).Some? &&
                        var least, greatest := Least(data, feature).value, Greatest(data, feature).value;
                        choice.value.value.value == At(least, greatest, stream(used + 1))))
  {
    hide AgreeOn, SplitsOn, Least, Greatest, SplitBetween, Constant, Scaled, At, Choice;
    ScaledIs(stream(used), |data[0]|);
    ScaledInRange(stream(used), |data[0]|);
    ChoiceIs(data, stream, used);
    var feature := Scaled(stream(used), |data[0]|);
    ConstantExactly(data, feature);
    if !Constant(Least(data, feature), Greatest(data, feature)) { SplitIs(data, feature, stream(used + 1)); }
  }

  lemma {:induction false} ChoiceIs(data: seq<Row>, stream: nat -> real, used: nat)
    requires InUnit(stream) && data != [] && 0 <= Scaled(stream(used), |data[0]|)
    ensures var feature := Scaled(stream(used), |data[0]|);
            var min, max := Least(data, feature), Greatest(data, feature);
            Choice(data, stream, used)
            == if Constant(min, max) then None else Some(Split(feature, SplitBetween(min, max, stream(used + 1))))
  {
    hide Least, Greatest, Scaled, Constant, SplitBetween;
  }

  lemma {:induction false} ConstantExactly(data: seq<Row>, feature: nat)
    ensures Constant(Least(data, feature), Greatest(data, feature)) <==> AgreeOn(data, feature)
  {
    hide Least, Greatest;
    var min, max := Least(data, feature), Greatest(data, feature);
    if min.Some? && max.Some? {
      var a :| a in data && feature < |a| && min.value == a[feature];
      var b :| b in data && feature < |b| && max.value == b[feature];
    }
  }

  lemma {:induction false} SplitIs(data: seq<Row>, feature: nat, draw: real)
    requires 0.0 <= draw < 1.0 && !Constant(Least(data, feature), Greatest(data, feature))
    ensures var min, max := Least(data, feature), Greatest(data, feature);
            var split := SplitBetween(min, max, draw);
            && SplitsOn(data, feature, split)
            && (split.Some? ==> min.Some? && max.Some? && split.value == At(min.value, max.value, draw))
  {
    SplitsAt(Least(data, feature), Greatest(data, feature), draw);
    hide Least, Greatest, At, SplitBetween;
    var min, max := Least(data, feature), Greatest(data, feature);
    if min.Some? && max.Some? {
      var a :| a in data && feature < |a| && min.value == a[feature];
      var b :| b in data && feature < |b| && max.value == b[feature];
      assert min.value <= b[feature];
      Between(min.value, max.value, draw);
    }
  }

  lemma SplitsAt(min: Option<real>, max: Option<real>, draw: real)
    ensures SplitBetween(min, max, draw)
            == if min.None? || max.None? then None else Some(At(min.value, max.value, draw))
  {
  }

  /** A draw's part of the way from one value to another. */
  function At(least: real, greatest: real, draw: real): real {
    least + Share(draw, greatest - least)
  }

  function Share(draw: real, d: real): real {
    draw * d
  }

  lemma Between(least: real, greatest: real, draw: real)
    requires least < greatest && 0.0 <= draw < 1.0
    ensures least <= At(least, greatest, draw) < greatest
  {
    hide Share;
    Fraction(draw, greatest - least);
  }

  lemma Fraction(draw: real, d: real)
    requires 0.0 <= draw < 1.0 && d > 0.0
    ensures 0.0 <= Share(draw, d) < d
  {
    assert draw * d < 1.0 * d;
  }

  lemma {:induction false} PartIs(data: seq<Row>, split: Split)
    ensures Part(data, split, true)
            == Filter(data, (row: Row) =>
                        split.feature < |row| && split.value.Some? && row[split.feature] < split.value.value)
    ensures Part(data, split, false)
            == Filter(data, (row: Row) =>
                        !(split.feature < |row| && split.value.Some? && row[split.feature] < split.value.value))
  {
    FilterAlike(data, Side(split.feature, split.value, true),
                (row: Row) => split.feature < |row| && split.value.Some? && row[split.feature] < split.value.value);
    FilterAlike(data, Side(split.feature, split.value, false),
                (row: Row) => !(split.feature < |row| && split.value.Some? && row[split.feature] < split.value.value));
  }

  lemma {:induction false} GrownSplits(data: seq<Row>, heightLimit: nat, stream: nat -> real, used: nat, depth: nat)
    requires InUnit(stream)
    ensures Splits(Grown(data, heightLimit, stream, used, depth).0, data, heightLimit - depth)
    decreases heightLimit - depth
  {
    hide Choice, Filter, Part, AgreeOn, SplitsOn;
    if depth < heightLimit && |data| > 1 {
      ChoiceTells(data, stream, used);
      if Choice(data, stream, used).Some? {
        var split := Choice(data, stream, used).value;
        var left := Grown(Part(data, split, true), heightLimit, stream, used + 2, depth + 1);
        GrownSplits(Part(data, split, true), heightLimit, stream, used + 2, depth + 1);
        GrownSplits(Part(data, split, false), heightLimit, stream, left.1, depth + 1);
        PartIs(data, split);
      }
    }
  }

  lemma LeafStandsFor(data: seq<Row>)
    ensures StandsFor(Leaf(|data|), data)
  {
    forall way | LeafAt(Leaf(|data|), way).Some? ensures |data| == |Filter(data, RoutedTo(Leaf(|data|), way))| {
      FilterAll(data, RoutedTo(Leaf(|data|), way));
    }
  }

  /** What is asked of the correction term for the rows a leaf still holds together. */
  ghost predicate Correction(c: nat -> real) {
    && c(0) >= 0.0
    && forall m, n :: m <= n ==> c(m) <= c(n)
  }

  /** The length of a path, whoever's: the depth of the leaf it ends in, corrected for
      the leaf's size, and never more than the height limit with all rows in one. */
  lemma {:induction false} PathLengthBounds(tree: Tree, point: Row, depth: nat, c: nat -> real)
    requires Correction(c)
    ensures LeafAt(tree, Route(tree, point)).Some? && |Route(tree, point)| <= Height(tree)
    ensures PathLength(point, tree, depth, c) == (depth + |Route(tree, point)|) as real
        + c(LeafAt(tree, Route(tree, point)).value)
    ensures depth as real <= PathLength(point, tree, depth, c) <= (depth + Height(tree)) as real + c(LeafSizes(tree))
  {
    match tree
    case Leaf(n) =>
      assert c(0) <= c(n);
    case Node(f, v, l, r) =>
      var child := if GoesLeft(point, f, v) then l else r;
      PathLengthBounds(child, point, depth + 1, c);
      assert Route(tree, point)[1..] == Route(child, point);
      assert c(LeafSizes(child)) <= c(LeafSizes(tree));
  }

  function Pow2(h: nat): nat {
    if h == 0 then 1 else 2 * Pow2(h - 1)
  }

  lemma {:induction false} PowersOfTwo(a: nat, b: nat)
    ensures Pow2(0) == 1 && Pow2(1) == 2 && Pow2(a + b) == Pow2(a) * Pow2(b)
  {
    assert Pow2(1) == 2 * Pow2(0);
    if a > 0 { PowersOfTwo(a - 1, b); }
  }

  lemma {:induction false} Pow2Exceeds(h: nat)
    ensures Pow2(h) > h
  {
    if h > 0 { Pow2Exceeds(h - 1); }
  }

  /** The logarithm of `n` to base 2, rounded up. */
  function CeilLog2(n: nat, from: nat): (h: nat)
    requires from == 0 || Pow2(from - 1) < n
    ensures Pow2(h) >= n && (h == 0 || Pow2(h - 1) < n)
    decreases n - from
  {
    Pow2Exceeds(from);
    if Pow2(from) >= n then from else CeilLog2(n, from + 1)
  }

  function HeightLimit(sampleSize: int): nat {
    CeilLog2(if sampleSize > 2 then sampleSize else 2, 0)
  }

  /** The limit is the least height whose power of two reaches the sample size, and 1 at
      least. */
  lemma HeightLimitIs(sampleSize: int)
    ensures var h := HeightLimit(sampleSize);
            h >= 1 && Pow2(h) >= sampleSize && (h == 1 || Pow2(h - 1) < sampleSize)
  {
    assert Pow2(0) == 1;
  }

  ghost predicate SampleOf(sample: seq<Row>, data: seq<Row>) {
    forall row :: row in sample ==> row in data
  }

  class IsolationForest {
    const treeCount: int
    const sampleSize: int
    /** The correction term, whose formula is not part of the model. */
    const c: int -> real
    var trees: seq<Tree>
    var normFactor: real
    /** The rows each tree was grown from. */
    ghost var samples: seq<seq<Row>>

    constructor (treeCount: int, sampleSize: int, c: int -> real)
      ensures this.treeCount == treeCount && this.sampleSize == sampleSize && this.c == c && trees == []
          && samples == []
    {
      this.treeCount, this.sampleSize, this.c := treeCount, sampleSize, c;
      trees, normFactor, samples := [], 1.0, [];
    }

    function SizeFor(data: seq<Row>): int {
      if sampleSize < |data| then sampleSize else |data|
    }

    ghost predicate Fitted(data: seq<Row>, count: nat)
      reads `trees, `samples
    {
      && |trees| == |samples| == count
      && forall i :: 0 <= i < count ==> GrownFrom(trees[i], samples[i], data, SizeFor(data))
    }

    /** Grows the forest; refused, with nothing changed, when there is no data. */
    method Fit(data: seq<Row>, rng: Rng) returns (ok: bool)
      requires InUnit(rng.stream)
      modifies this, rng
      ensures ok <==> data != []
      ensures ok ==> Fitted(data, if treeCount < 0 then 0 else treeCount) && normFactor == c(SizeFor(data))
      ensures ok ==> forall i :: 0 <= i < |samples| ==>
                |samples[i]| == if sampleSize < 0 then 0 else if sampleSize < |data| then sampleSize else |data|
      ensures !ok ==> trees == old(trees) && samples == old(samples) && normFactor == old(normFactor)
    {
      hide GrownFrom, HeightLimit;
      if |data| == 0 { return false; }
      var size := SizeFor(data);
      var heightLimit := HeightLimit(size);
      normFactor := c(size);
      trees, samples := [], [];
      var i := 0;
      while i < treeCount
        invariant i >= 0 && (treeCount >= 0 ==> i <= treeCount) && (treeCount < 0 ==> i == 0)
        invariant Fitted(data, i) && normFactor == c(size)
        invariant forall k :: 0 <= k < |samples| ==> |samples[k]| == if size < 0 then 0 else size
      {
        var sample := DrawSample(data, size, rng);
        ghost var used := rng.used;
        var tree := BuildTree(sample, heightLimit, rng, 0);
        IsGrownFrom(sample, data, size, rng.stream, used);
        trees, samples := trees + [tree], samples + [sample];
        i := i + 1;
      }
      return true;
    }

    /** The mean length of a point's paths; its score falls as that grows. */
    method AveragePath(point: Row, ghost data: seq<Row>) returns (average: Option<real>)
      requires Correction(CorrectionOf(c)) && Fitted(data, |trees|)
      ensures average.None? <==> trees == []
      ensures average.Some? ==> average.value == SumPaths(trees, point, CorrectionOf(c)) / (|trees| as real)
      ensures average.Some? ==> 0.0 <= average.value <= LongestPath(data)
    {
      if |trees| == 0 { return None; }
      hide *;
      var total := 0.0;
      ghost var longest := LongestPath(data);
      AtMostNext(0, longest);
      NoPaths(point, CorrectionOf(c));
      for i := 0 to |trees|
        invariant total == SumPaths(trees[..i], point, CorrectionOf(c))
        invariant 0.0 <= total <= AtMost(i, longest)
      {
        PathBound(data, |trees|, i, point);
        AtMostNext(i, longest);
        SumPathsNext(trees, i, point, CorrectionOf(c));
        total := total + PathLength(point, trees[i], 0, CorrectionOf(c));
      }
      assert trees[..|trees|] == trees;
      Mean(total, |trees|, longest);
      return Some(total / (|trees| as real));
    }

    lemma {:induction false} PathBound(data: seq<Row>, count: nat, i: nat, point: Row)
      requires Correction(CorrectionOf(c)) && Fitted(data, count) && i < count
      ensures 0.0 <= PathLength(point, trees[i], 0, CorrectionOf(c)) <= LongestPath(data)
    {
      PathBounds(trees[i], samples[i], data, SizeFor(data), point, CorrectionOf(c));
    }

    /** The height limit, corrected for a whole sample in one leaf. */
    function LongestPath(data: seq<Row>): real {
      HeightLimit(SizeFor(data)) as real + CorrectionOf(c)(if SizeFor(data) < 0 then 0 else SizeFor(data))
    }
  }

  function SumPaths(trees: seq<Tree>, point: Row, c: nat -> real): real {
    if trees == [] then 0.0 else SumPaths(trees[..|trees| - 1], point, c) + PathLength(point, trees[|trees| - 1], 0, c)
  }

  lemma {:induction false} NoPaths(point: Row, c: nat -> real)
    ensures SumPaths([], point, c) == 0.0
  {
  }

  lemma {:induction false} SumPathsNext(trees: seq<Tree>, i: nat, point: Row, c: nat -> real)
    requires i < |trees|
    ensures SumPaths(trees[..i + 1], point, c) == SumPaths(trees[..i], point, c) + PathLength(point, trees[i], 0, c)
  {
    assert trees[..i + 1][..i] == trees[..i];
  }

  function AtMost(n: nat, most: real): real {
    n as real * most
  }

  lemma AtMostNext(n: nat, most: real)
    ensures AtMost(0, most) == 0.0 && AtMost(n + 1, most) == AtMost(n, most) + most
  {
  }

  lemma Mean(total: real, n: nat, most: real)
    requires n > 0 && 0.0 <= total <= AtMost(n, most)
    ensures 0.0 <= total / (n as real) <= most
  {
    assert total / (n as real) * (n as real) == total;
  }

  function CorrectionOf(c: int -> real): nat -> real {
    (n: nat) => c(n)
  }

  /** A tree of the forest: grown from a sample of that size, of the data's rows. */
  ghost predicate GrownFrom(tree: Tree, sample: seq<Row>, data: seq<Row>, size: int) {
    && |sample| == (if size < 0 then 0 else size) && SampleOf(sample, data)
    && StandsFor(tree, sample) && Height(tree) <= HeightLimit(size)
    && Splits(tree, sample, HeightLimit(size))
  }

  /** Row after row, each where its own draw points. */
  ghost predicate Drawn(sample: seq<Row>, data: seq<Row>, stream: nat -> real, start: nat) {
    forall i :: 0 <= i < |sample| ==> IsAt(sample[i], data, Scaled(stream(start + i), |data|))
  }

  ghost predicate IsAt(row: Row, data: seq<Row>, at: int) {
    0 <= at < |data| && row == data[at]
  }

  lemma NothingDrawn(data: seq<Row>, stream: nat -> real, start: nat)
    ensures Drawn([], data, stream, start)
  {
  }

  lemma DrawnNext(sample: seq<Row>, data: seq<Row>, stream: nat -> real, start: nat)
    requires Drawn(sample, data, stream, start)
    ensures var at := Scaled(stream(start + |sample|), |data|);
            0 <= at < |data| ==> Drawn(sample + [data[at]], data, stream, start)
  {
    hide Scaled;
    var at := Scaled(stream(start + |sample|), |data|);
    if 0 <= at < |data| {
      var more := sample + [data[at]];
      forall i | 0 <= i < |more| ensures IsAt(more[i], data, Scaled(stream(start + i), |data|)) {
        assert i < |sample| ==> more[i] == sample[i];
      }
    }
  }

  method DrawSample(data: seq<Row>, size: int, rng: Rng) returns (sample: seq<Row>)
    requires InUnit(rng.stream) && data != []
    modifies rng
    ensures |sample| == (if size < 0 then 0 else size) && SampleOf(sample, data)
    ensures rng.used == old(rng.used) + |sample|
    ensures Drawn(sample, data, rng.stream, old(rng.used))
  {
    hide Scaled, Drawn;
    ghost var start := rng.used;
    NothingDrawn(data, rng.stream, start);
    sample := [];
    while |sample| < size
      invariant |sample| <= (if size < 0 then 0 else size) && SampleOf(sample, data)
      invariant rng.used == start + |sample|
      invariant Drawn(sample, data, rng.stream, start)
    {
      var draw := rng.Next();
      ScaledInRange(draw, |data|);
      DrawnNext(sample, data, rng.stream, start);
      sample := sample + [data[Scaled(draw, |data|)]];
    }
  }

  lemma {:induction false} IsGrownFrom(sample: seq<Row>, data: seq<Row>, size: int, stream: nat -> real, used: nat)
    requires InUnit(stream) && |sample| == (if size < 0 then 0 else size) && SampleOf(sample, data)
    ensures GrownFrom(Grown(sample, HeightLimit(size), stream, used, 0).0, sample, data, size)
  {
    hide StandsFor, Height, HeightLimit, Grown, Splits;
    GrownSplits(sample, HeightLimit(size), stream, used, 0);
    GrownStandsFor(sample, HeightLimit(size), stream, used, 0);
  }

  lemma {:induction false} PathBounds(tree: Tree, sample: seq<Row>, data: seq<Row>, size: int, point: Row,
                                      c: nat -> real)
    requires GrownFrom(tree, sample, data, size) && Correction(c)
    ensures 0.0 <= PathLength(point, tree, 0, c) <= HeightLimit(size) as real + c(if size < 0 then 0 else size)
  {
    PathLengthBounds(tree, point, 0, c);
  }
}
