/** Floor type 1 of stb_vorbis: set-up of the posts, unwrapping of the amplitudes and rendering of the curve. */
module Floor1 {
  import opened PowersOfTwo

  // ---------- Predicted heights ----------

  function Abs(n: int): nat {
    if n < 0 then -n else n
  }

  /** The height at x of the line from (x0, y0) to (x1, y1), rounded towards y0. */
  function PredictPoint(x: int, x0: int, x1: int, y0: int, y1: int): (y: int)
    requires x0 <= x && x0 < x1
    ensures x <= x1 ==> if y0 <= y1 then y0 <= y <= y1 else y1 <= y <= y0
  {
    var dy := y1 - y0;
    var adx := x1 - x0;
    var err := Abs(dy) * (x - x0);
    var off := err / adx;
    PredictBounds(Abs(dy), x - x0, adx);
    if dy < 0 then y0 - off else y0 + off
  }

  lemma PredictBounds(ady: nat, dx: nat, adx: nat)
    requires adx > 0
    ensures 0 <= ady * dx / adx
    ensures dx <= adx ==> ady * dx / adx <= ady
  {
    var err := ady * dx;
    var q, r := err / adx, err % adx;
    assert err == adx * q + r && err >= 0;
    if q < 0 {
      MulMonotone(q, -1, adx);
    }
    if dx <= adx && q > ady {
      MulMonotone(dx, adx, ady);
      MulMonotone(ady + 1, q, adx);
    }
  }

  lemma PredictAtStart(x0: int, x1: int, y0: int, y1: int)
    requires x0 < x1
    ensures PredictPoint(x0, x0, x1, y0, y1) == y0
  {
    assert Abs(y1 - y0) * 0 == 0;
  }

  // ---------- One amplitude ----------

  /** The height that wire value val stands for when pred is predicted. */
  function Unwrapped(pred: int, val: int, range: int): int {
    var highroom := range - pred;
    var lowroom := pred;
    var room := if highroom < lowroom then highroom * 2 else lowroom * 2;
    if val == 0 then pred
    else if val >= room then
      if highroom > lowroom then val - lowroom + pred else pred - val + highroom - 1
    else if val % 2 == 1 then pred - (val + 1) / 2
    else pred + val / 2
  }

  /** The wire value that stands for height y. */
  function Wrapped(pred: int, y: int, range: int): int {
    var half := if range - pred < pred then range - pred else pred;
    if -half <= y - pred < 0 then 2 * (pred - y) - 1
    else if 0 <= y - pred < half then 2 * (y - pred)
    else if range - pred > pred then y
    else range - 1 - y
  }

  /** Unwrapping is a bijection of [0, range), whatever the prediction. */
  lemma UnwrapIsBijection(pred: int, val: int, range: int)
    requires 0 <= pred < range && 0 <= val < range
    ensures 0 <= Unwrapped(pred, val, range) < range
    ensures 0 <= Wrapped(pred, val, range) < range
    ensures Wrapped(pred, Unwrapped(pred, val, range), range) == val
    ensures Unwrapped(pred, Wrapped(pred, val, range), range) == val
    ensures Unwrapped(pred, val, range) == pred <==> val == 0
  {
  }

  /** The value -1 of a decode that failed is no more than a mark: the height is the predicted one. */
  lemma UnwrapInRange(pred: int, val: int, range: int)
    requires 0 <= pred < range && -1 <= val < range
    ensures 0 <= Unwrapped(pred, val, range) < range
    ensures val == -1 ==> Unwrapped(pred, val, range) == pred
  {
  }

  // ---------- Posts of a floor ----------

  /** Floor1 as far as the curve needs it. */
  datatype Floor = Floor(xList: seq<nat>, neighbors: seq<(nat, nat)>, sortedOrder: seq<nat>, multiplier: nat)

  /** low is the post below and high the post above x[n] that come closest, among the first n. */
  predicate Closest(x: seq<nat>, n: nat, low: nat, high: nat)
    requires n < |x|
  {
    && low < n && high < n && x[low] < x[n] < x[high]
    && forall i :: 0 <= i < n ==> x[i] <= x[low] || x[i] >= x[high] || x[i] == x[n]
  }

  predicate Distinct(x: seq<nat>) {
    forall i, k :: 0 <= i < k < |x| ==> x[i] != x[k]
  }

  predicate IsOrder(order: seq<nat>, x: seq<nat>) {
    && |order| == |x|
    && (forall i :: 0 <= i < |order| ==> order[i] < |x|)
    && (forall i, k :: 0 <= i < k < |order| ==> x[order[i]] < x[order[k]])
    && (forall j :: 0 <= j < |x| ==> j in order)
  }

  predicate ValidFloor(g: Floor) {
    && 2 <= |g.xList| && |g.neighbors| == |g.xList| && 1 <= g.multiplier <= 4
    && g.xList[0] == 0 && Distinct(g.xList) && IsOrder(g.sortedOrder, g.xList)
    && forall j :: 2 <= j < |g.xList| ==> Closest(g.xList, j, g.neighbors[j].0, g.neighbors[j].1)
  }

  /** range_list */
  function Range(multiplier: nat): (r: nat)
    requires 1 <= multiplier <= 4
    ensures (r - 1) * multiplier < 256
  {
    if multiplier == 1 then 256 else if multiplier == 2 then 128 else if multiplier == 3 then 86 else 64
  }

  /** ilog of a positive number: its bits. */
  function Ilog(n: nat): (bits: nat)
    ensures n > 0 ==> bits > 0
  {
    if n == 0 then 0 else 1 + Ilog(n / 2)
  }

  /** The first two values are read with one bit less than the range has, so they are always in range. */
  lemma {:induction false} EndsFit(range: nat)
    requires range > 0
    ensures Pow2(Ilog(range) - 1) <= range
  {
    if range > 1 {
      EndsFit(range / 2);
      Pow2Step(Ilog(range) - 1);
    }
  }

  /** The values of the two end posts are in range. */
  predicate EndsInRange(values: seq<int>, range: int)
    requires |values| >= 2
  {
    0 <= values[0] < range && 0 <= values[1] < range
  }

  /** The value predicted for post j from the heights of its two neighbours. */
  function Prediction(g: Floor, j: nat, y0: int, y1: int): int
    requires ValidFloor(g) && 2 <= j < |g.xList|
  {
    var (low, high) := g.neighbors[j];
    assert Closest(g.xList, j, low, high);
    PredictPoint(g.xList[j], g.xList[low], g.xList[high], y0, y1)
  }

  /** The height of post j that the wire values stand for. */
  function Height(g: Floor, wire: seq<int>, j: nat): int
    requires ValidFloor(g) && |wire| == |g.xList| && j < |wire|
    decreases j
  {
    if j < 2 then wire[j] else
      var (low, high) := g.neighbors[j];
      assert Closest(g.xList, j, low, high);
      Unwrapped(Prediction(g, j, Height(g, wire, low), Height(g, wire, high)), wire[j], Range(g.multiplier))
  }

  predicate InRange(values: seq<int>, range: int) {
    forall j :: 0 <= j < |values| ==> 0 <= values[j] < range
  }

  /** What a packet brings at best: the others come from codebooks, and -1 stands for a decode that failed. */
  predicate Received(wire: seq<int>) {
    |wire| >= 2 && wire[0] >= 0 && wire[1] >= 0 && forall j :: 0 <= j < |wire| ==> wire[j] >= -1
  }

  predicate AllBelow(values: seq<int>, range: int) {
    forall j :: 0 <= j < |values| ==> values[j] < range
  }

  lemma {:induction false} HeightInRange(g: Floor, wire: seq<int>, j: nat)
    requires ValidFloor(g) && |wire| == |g.xList| && j < |wire| && Received(wire)
    requires AllBelow(wire, Range(g.multiplier))
    ensures 0 <= Height(g, wire, j) < Range(g.multiplier)
    decreases j
  {
    if j >= 2 {
      var (low, high) := g.neighbors[j];
      assert Closest(g.xList, j, low, high);
      HeightInRange(g, wire, low);
      HeightInRange(g, wire, high);
      UnwrapInRange(Prediction(g, j, Height(g, wire, low), Height(g, wire, high)), wire[j], Range(g.multiplier));
    }
  }

  lemma UnwrapLeavesRange(pred: int, val: int, range: int)
    requires 0 <= pred < range <= val
    ensures !(0 <= Unwrapped(pred, val, range) < range)
  {
  }

  /** Every post's height is in range. */
  predicate HeightsInRange(g: Floor, wire: seq<int>)
    requires ValidFloor(g) && |wire| == |g.xList|
  {
    forall j: nat :: j < |wire| ==> 0 <= Height(g, wire, j) < Range(g.multiplier)
  }

  lemma WireInRange(g: Floor, wire: seq<int>, j: nat)
    requires ValidFloor(g) && |wire| == |g.xList| && HeightsInRange(g, wire) && j < |wire|
    ensures wire[j] < Range(g.multiplier)
  {
    hide Unwrapped, PredictPoint, Distinct, IsOrder;
    assert 0 <= Height(g, wire, j) < Range(g.multiplier);
    if j >= 2 {
      var (low, high) := g.neighbors[j];
      assert Closest(g.xList, j, low, high);
      var pred := Prediction(g, j, Height(g, wire, low), Height(g, wire, high));
      assert Height(g, wire, j) == Unwrapped(pred, wire[j], Range(g.multiplier));
      if wire[j] >= Range(g.multiplier) {
        UnwrapLeavesRange(pred, wire[j], Range(g.multiplier));
      }
    }
  }

  /** The source does not check what the codebooks deliver: all heights are in range exactly when all wire values are
      below the range. */
  lemma HeightsInRangeIff(g: Floor, wire: seq<int>)
    requires ValidFloor(g) && |wire| == |g.xList| && Received(wire)
    ensures HeightsInRange(g, wire) <==> AllBelow(wire, Range(g.multiplier))
  {
    hide Height, ValidFloor;
    FloorHasEnds(g);
    if AllBelow(wire, Range(g.multiplier)) {
      forall j: nat | j < |wire|
        ensures 0 <= Height(g, wire, j) < Range(g.multiplier)
      {
        HeightInRange(g, wire, j);
      }
    }
    if HeightsInRange(g, wire) {
      forall j | 0 <= j < |wire|
        ensures wire[j] < Range(g.multiplier)
      {
        WireInRange(g, wire, j);
      }
    }
  }

  /** Sixteen bits are enough for every height, as long as the wire values are at least -1. */
  lemma {:induction false} HeightFitsShort(g: Floor, wire: seq<int>, j: nat)
    requires ValidFloor(g) && |wire| == |g.xList| && j < |wire| && Received(wire)
    requires EndsInRange(wire, Range(g.multiplier)) && AllBelow(wire, 32768)
    ensures -32768 <= Height(g, wire, j) < 32768
    decreases j
  {
    if j >= 2 {
      var (low, high) := g.neighbors[j];
      assert Closest(g.xList, j, low, high);
      HeightFitsShort(g, wire, low);
      HeightFitsShort(g, wire, high);
      UnwrapFitsShort(Prediction(g, j, Height(g, wire, low), Height(g, wire, high)), wire[j], Range(g.multiplier));
    }
  }

  lemma UnwrapFitsShort(pred: int, val: int, range: int)
    requires -32768 <= pred < 32768 && -1 <= val < 32768 && 0 < range <= 256
    ensures -32768 <= Unwrapped(pred, val, range) < 32768
  {
  }

  /** A post is kept when it carries an amplitude, or a later post that does was predicted from it. */
  ghost predicate Used(g: Floor, wire: seq<int>, j: nat, until: nat)
    requires ValidFloor(g) && |wire| == |g.xList| && j < |wire| && until <= |wire|
  {
    || j < 2
    || (j < until && wire[j] != 0)
    || exists k :: 2 <= k < until && wire[k] != 0 && (g.neighbors[k].0 == j || g.neighbors[k].1 == j)
  }

  /** What is left in finalY: the heights of the posts in use, -1 for the rest. */
  ghost function Marked(g: Floor, wire: seq<int>): (y: seq<int>)
    requires ValidFloor(g) && |wire| == |g.xList|
    ensures |y| == |wire|
  {
    seq(|wire|, j requires 0 <= j < |wire| => if Used(g, wire, j, |wire|) then Height(g, wire, j) else -1)
  }

  // ---------- Getting the wire values back ----------

  /** The heights that a marked vector stands for: a post not in use is where it is predicted. */
  function HeightFrom(g: Floor, y: seq<int>, j: nat): int
    requires ValidFloor(g) && |y| == |g.xList| && j < |y|
    decreases j
  {
    if j < 2 || y[j] >= 0 then y[j] else
      var (low, high) := g.neighbors[j];
      assert Closest(g.xList, j, low, high);
      Prediction(g, j, HeightFrom(g, y, low), HeightFrom(g, y, high))
  }

  function WireFrom(g: Floor, y: seq<int>, j: nat): int
    requires ValidFloor(g) && |y| == |g.xList| && j < |y|
  {
    if j < 2 then y[j]
    else if y[j] < 0 then 0
    else
      var (low, high) := g.neighbors[j];
      assert Closest(g.xList, j, low, high);
      Wrapped(Prediction(g, j, HeightFrom(g, y, low), HeightFrom(g, y, high)), y[j], Range(g.multiplier))
  }

  lemma {:induction false} HeightsKept(g: Floor, wire: seq<int>, j: nat)
    requires ValidFloor(g) && |wire| == |g.xList| && j < |wire| && InRange(wire, Range(g.multiplier))
    ensures HeightFrom(g, Marked(g, wire), j) == Height(g, wire, j)
    decreases j
  {
    HeightInRange(g, wire, j);
    if j >= 2 {
      var (low, high) := g.neighbors[j];
      assert Closest(g.xList, j, low, high);
      HeightsKept(g, wire, low);
      HeightsKept(g, wire, high);
    }
  }

  /** Nothing is lost: the marked heights determine every wire value. */
  lemma WireComesBack(g: Floor, wire: seq<int>, j: nat)
    requires ValidFloor(g) && |wire| == |g.xList| && j < |wire| && InRange(wire, Range(g.multiplier))
    ensures WireFrom(g, Marked(g, wire), j) == wire[j]
  {
    HeightInRange(g, wire, j);
    if j >= 2 {
      var (low, high) := g.neighbors[j];
      assert Closest(g.xList, j, low, high);
      HeightsKept(g, wire, low);
      HeightsKept(g, wire, high);
      HeightInRange(g, wire, low);
      HeightInRange(g, wire, high);
      UnwrapIsBijection(Prediction(g, j, Height(g, wire, low), Height(g, wire, high)), wire[j], Range(g.multiplier));
    }
  }

  /** Different wire values, different posts. */
  lemma DistinctWiresDistinctPosts(g: Floor, v: seq<int>, w: seq<int>)
    requires ValidFloor(g) && |v| == |w| == |g.xList|
    requires InRange(v, Range(g.multiplier)) && InRange(w, Range(g.multiplier))
    ensures Marked(g, v) == Marked(g, w) <==> v == w
  {
    if Marked(g, v) == Marked(g, w) {
      forall j | 0 <= j < |v|
        ensures v[j] == w[j]
      {
        WireComesBack(g, v, j);
        WireComesBack(g, w, j);
      }
    }
  }

  /** Every choice of heights within the range can be sent. */
  lemma {:induction false} EveryHeightCanBeSent(g: Floor, y: seq<int>, j: nat)
    requires ValidFloor(g) && |y| == |g.xList| && InRange(y, Range(g.multiplier)) && j <= |y|
    ensures |WireOf(g, y)| == |y| && InRange(WireOf(g, y), Range(g.multiplier))
    ensures forall i :: 0 <= i < j ==> Height(g, WireOf(g, y), i) == y[i]
  {
    hide Unwrapped, Wrapped, PredictPoint, Distinct, IsOrder;
    var wire := WireOf(g, y);
    forall i | 0 <= i < |y|
      ensures 0 <= wire[i] < Range(g.multiplier)
    {
      if i >= 2 {
        var (low, high) := g.neighbors[i];
        assert Closest(g.xList, i, low, high);
        UnwrapIsBijection(Prediction(g, i, y[low], y[high]), y[i], Range(g.multiplier));
      }
    }
    if j > 0 {
      EveryHeightCanBeSent(g, y, j - 1);
      if j > 2 {
        var (low, high) := g.neighbors[j - 1];
        assert Closest(g.xList, j - 1, low, high);
        UnwrapIsBijection(Prediction(g, j - 1, y[low], y[high]), y[j - 1], Range(g.multiplier));
      }
    }
  }

  function WireOf(g: Floor, y: seq<int>): seq<int>
    requires ValidFloor(g) && |y| == |g.xList|
  {
    seq(|y|, j requires 0 <= j < |y| => WireFrom(g, y, j))
  }

  // ---------- Unwrapping in place ----------

  /** The amplitude loop of vorbis_decode_packet_rest: finalY comes in as read from the packet. */
  method UnwrapFloor(g: Floor, finalY: array<int>)
    requires ValidFloor(g) && finalY.Length == |g.xList| <= 256
    modifies finalY
    ensures finalY[..] == Marked(g, old(finalY[..]))
  {
    hide *;
    ghost var wire := finalY[..];
    var step2Flag := new bool[256](_ => false);
    step2Flag[0], step2Flag[1] := true, true;
    UnwrapHeights(g, finalY, step2Flag, wire);
    ghost var heights := finalY[..];
    MarkUnused(finalY, step2Flag);
    MarkedIs(g, wire, heights, step2Flag[..], finalY[..]);
  }

  /** The loop proper: heights and flags of the posts, in the order of the packet. */
  method UnwrapHeights(g: Floor, finalY: array<int>, step2Flag: array<bool>, ghost wire: seq<int>)
    requires ValidFloor(g) && finalY.Length == |g.xList| == |wire| && finalY[..] == wire
    requires finalY.Length <= step2Flag.Length && step2Flag[0] && step2Flag[1]
    modifies finalY, step2Flag
    ensures Heights(g, wire, finalY[..], |wire|) && Flags(g, wire, step2Flag[..], |wire|)
  {
    hide Heights, Flags, ValidFloor, Closest, Height, Prediction, PredictPoint, Unwrapped;
    FloorHasEnds(g);
    var values := |g.xList|;
    var j := 2;
    NothingUnwrapped(g, wire, step2Flag[..]);
    while j < values
      invariant 2 <= j <= values
      invariant Heights(g, wire, finalY[..], j) && Flags(g, wire, step2Flag[..], j)
    {
      var (low, high) := g.neighbors[j];
      NeighborsExist(g, j);
      HeightsAt(g, wire, finalY[..], j);
      var pred := PredictPoint(g.xList[j], g.xList[low], g.xList[high], finalY[low], finalY[high]);
      var val := finalY[j];
      ghost var flags, heights := step2Flag[..], finalY[..];
      if val != 0 {
        step2Flag[low], step2Flag[high] := true, true;
        step2Flag[j] := true;
      } else {
        step2Flag[j] := false;
      }
      finalY[j] := UnwrapOne(pred, val, Range(g.multiplier));
      HeightsStep(g, wire, heights, finalY[..], j);
      FlagsStep(g, wire, flags, step2Flag[..], j);
      j := j + 1;
    }
  }

  /** Marks the posts that are not in use. */
  method MarkUnused(finalY: array<int>, step2Flag: array<bool>)
    requires finalY.Length <= step2Flag.Length
    modifies finalY
    ensures forall i :: 0 <= i < finalY.Length ==> finalY[i] == if step2Flag[i] then old(finalY[i]) else -1
  {
    var j := 0;
    while j < finalY.Length
      invariant j <= finalY.Length
      invariant forall i :: 0 <= i < finalY.Length ==>
        finalY[i] == if i < j && !step2Flag[i] then -1 else old(finalY[i])
    {
      if !step2Flag[j] {
        finalY[j] := -1;
      }
      j := j + 1;
    }
  }

  ghost predicate Heights(g: Floor, wire: seq<int>, y: seq<int>, until: nat)
    requires ValidFloor(g) && |wire| == |g.xList|
  {
    |y| == |wire| && forall i :: 0 <= i < |wire| ==> y[i] == if i < until then Height(g, wire, i) else wire[i]
  }

  ghost predicate Flags(g: Floor, wire: seq<int>, flags: seq<bool>, until: nat)
    requires ValidFloor(g) && |wire| == |g.xList| && until <= |wire|
  {
    |wire| <= |flags| && forall i :: 0 <= i < until ==> flags[i] == Used(g, wire, i, until)
  }

  lemma FloorHasEnds(g: Floor)
    requires ValidFloor(g)
    ensures 2 <= |g.xList| == |g.neighbors| && 1 <= g.multiplier <= 4
  {
  }

  lemma NeighborsExist(g: Floor, j: nat)
    requires ValidFloor(g) && 2 <= j < |g.xList|
    ensures var (low, high) := g.neighbors[j];
      low < j && high < j && g.xList[low] < g.xList[j] < g.xList[high]
  {
    assert Closest(g.xList, j, g.neighbors[j].0, g.neighbors[j].1);
  }

  lemma NothingUnwrapped(g: Floor, wire: seq<int>, flags: seq<bool>)
    requires ValidFloor(g) && |wire| == |g.xList| <= |flags| && flags[0] && flags[1]
    ensures Heights(g, wire, wire, 2) && Flags(g, wire, flags, 2)
  {
    hide Distinct, IsOrder, Closest;
  }

  lemma HeightsAt(g: Floor, wire: seq<int>, y: seq<int>, j: nat)
    requires ValidFloor(g) && |wire| == |g.xList| && 2 <= j < |wire| && Heights(g, wire, y, j)
    ensures var (low, high) := g.neighbors[j];
      && low < j && high < j && |y| == |wire|
      && y[low] == Height(g, wire, low) && y[high] == Height(g, wire, high) && y[j] == wire[j]
  {
    NeighborsExist(g, j);
  }

  lemma HeightsStep(g: Floor, wire: seq<int>, y: seq<int>, next: seq<int>, j: nat)
    requires ValidFloor(g) && |wire| == |g.xList| && 2 <= j < |wire| && Heights(g, wire, y, j)
    requires var (low, high) := g.neighbors[j];
      && low < j && high < j && g.xList[low] < g.xList[j] < g.xList[high]
      && next == y[j := Unwrapped(PredictPoint(g.xList[j], g.xList[low], g.xList[high],
                                               Height(g, wire, low), Height(g, wire, high)),
                                  wire[j], Range(g.multiplier))]
    ensures Heights(g, wire, next, j + 1)
  {
    hide Distinct, IsOrder, Closest, PredictPoint, Unwrapped;
  }

  lemma FlagsStep(g: Floor, wire: seq<int>, flags: seq<bool>, next: seq<bool>, j: nat)
    requires ValidFloor(g) && |wire| == |g.xList| && 2 <= j < |wire| && Flags(g, wire, flags, j)
    requires g.neighbors[j].0 < j && g.neighbors[j].1 < j
    requires wire[j] != 0 ==> next == flags[g.neighbors[j].0 := true][g.neighbors[j].1 := true][j := true]
    requires wire[j] == 0 ==> next == flags[j := false]
    ensures Flags(g, wire, next, j + 1)
  {
    hide Used, Closest, Distinct, IsOrder;
    forall i | 0 <= i < j + 1
      ensures next[i] == Used(g, wire, i, j + 1)
    {
      UsedStep(g, wire, i, j);
    }
  }

  lemma MarkedIs(g: Floor, wire: seq<int>, heights: seq<int>, flags: seq<bool>, y: seq<int>)
    requires ValidFloor(g) && |wire| == |g.xList| == |y|
    requires Heights(g, wire, heights, |wire|) && Flags(g, wire, flags, |wire|)
    requires forall i :: 0 <= i < |y| ==> y[i] == if flags[i] then heights[i] else -1
    ensures y == Marked(g, wire)
  {
    hide ValidFloor, Used, Height;
  }

  lemma UsedStep(g: Floor, wire: seq<int>, i: nat, j: nat)
    requires ValidFloor(g) && |wire| == |g.xList| && i <= j < |wire| && 2 <= j
    ensures Used(g, wire, i, j + 1) <==>
      if i == j then wire[j] != 0
      else Used(g, wire, i, j) || (wire[j] != 0 && (g.neighbors[j].0 == i || g.neighbors[j].1 == i))
  {
    assert Closest(g.xList, j, g.neighbors[j].0, g.neighbors[j].1);
    if i == j && wire[j] == 0 {
      forall k | 2 <= k < j + 1 && wire[k] != 0
        ensures g.neighbors[k].0 != j && g.neighbors[k].1 != j
      {
        assert Closest(g.xList, k, g.neighbors[k].0, g.neighbors[k].1);
      }
    }
  }

  /** The inner case distinction, in the order of the source. */
  method UnwrapOne(pred: int, val: int, range: int) returns (y: int)
    ensures y == Unwrapped(pred, val, range)
    ensures 0 <= pred < range && 0 <= val < range ==> 0 <= y < range && Wrapped(pred, y, range) == val
  {
    var highroom := range - pred;
    var lowroom := pred;
    var room;
    if highroom < lowroom {
      room := highroom * 2;
    } else {
      room := lowroom * 2;
    }
    if val != 0 {
      if val >= room {
        if highroom > lowroom {
          y := val - lowroom + pred;
        } else {
          y := pred - val + highroom - 1;
        }
      } else if val % 2 == 1 {
        y := pred - (val + 1) / 2;
      } else {
        y := pred + val / 2;
      }
    } else {
      y := pred;
    }
    if 0 <= pred < range && 0 <= val < range {
      UnwrapIsBijection(pred, val, range);
    }
  }

  // ---------- Drawing a line ----------

  /** y & 255 */
  function Byte(y: int): (r: nat)
    ensures r < 256 && (0 <= y < 256 ==> r == y)
  {
    y % 256
  }

  /** dy / adx as C divides: towards zero. */
  function Truncated(dy: int, adx: int): (q: int)
    requires adx > 0
  {
    if dy < 0 then -(-dy / adx) else dy / adx
  }

  /** The line drawer: scales output[x] by the table entry of the line's height at every x from x0 to x1 or n. */
  method DrawLine(output: array<real>, x0: nat, y0: int, x1: nat, y1: int, n: nat, table: seq<real>)
    requires x0 < x1 && n <= output.Length && |table| == 256
    modifies output
    ensures forall x :: 0 <= x < output.Length ==>
      output[x] == if x0 <= x < x1 && x < n then old(output[x]) * table[Byte(PredictPoint(x, x0, x1, y0, y1))]
                   else old(output[x])
  {
    hide PredictPoint, OnLine, Byte, Truncated;
    var dy, adx := y1 - y0, x1 - x0;
    var ady := Abs(dy);
    var base := Truncated(dy, adx);
    var sy := if dy < 0 then base - 1 else base + 1;
    ady := ady - Abs(base) * adx;
    var end := if x1 > n then n else x1;
    var x, y, err := x0, y0, 0;
    if x < end {
      FirstOnLine(x0, x1, y0, y1);
      OnLineIsPredicted(x, x0, x1, y0, y1, y, err);
      output[x] := output[x] * table[Byte(y)];
      x := x + 1;
      while x < end
        invariant x0 < x <= end && OnLine(x - 1, x0, x1, y0, y1, y, err)
        invariant forall z :: 0 <= z < output.Length ==>
          output[z] == if x0 <= z < x then old(output[z]) * table[Byte(PredictPoint(z, x0, x1, y0, y1))]
                       else old(output[z])
      {
        NextOnLine(x - 1, x0, x1, y0, y1, y, err);
        err := err + ady;
        if err >= adx {
          err := err - adx;
          y := y + sy;
        } else {
          y := y + base;
        }
        OnLineIsPredicted(x, x0, x1, y0, y1, y, err);
        output[x] := output[x] * table[Byte(y)];
        x := x + 1;
      }
    }
  }

  lemma FirstOnLine(x0: int, x1: int, y0: int, y1: int)
    requires x0 < x1
    ensures OnLine(x0, x0, x1, y0, y1, y0, 0)
  {
  }

  /** err is what remains of the division that the height y at x comes from. */
  ghost predicate OnLine(x: int, x0: int, x1: int, y0: int, y1: int, y: int, err: int)
    requires x0 <= x && x0 < x1
  {
    && 0 <= err < x1 - x0
    && Abs(y1 - y0) * (x - x0) == (x1 - x0) * Abs(y - y0) + err
    && (if y1 < y0 then y <= y0 else y0 <= y)
  }

  lemma OnLineIsPredicted(x: int, x0: int, x1: int, y0: int, y1: int, y: int, err: int)
    requires x0 <= x && x0 < x1 && OnLine(x, x0, x1, y0, y1, y, err)
    ensures y == PredictPoint(x, x0, x1, y0, y1)
  {
    DivModUnique(Abs(y1 - y0) * (x - x0), x1 - x0, Abs(y - y0), err);
  }

  lemma BaseStep(dy: int, adx: int)
    requires adx > 0
    ensures var base := Truncated(dy, adx);
      0 <= Abs(dy) - Abs(base) * adx < adx && (if dy < 0 then base <= 0 else base >= 0)
  {
    var a := Abs(dy);
    assert a == adx * (a / adx) + a % adx;
    PredictBounds(a, 1, adx);
  }

  /** One step of the line drawer, on numbers: dx columns are behind, off rows up or down. */
  lemma StepNumbers(ady: int, dx: int, adx: int, off: int, err: int, base: int)
    requires ady * dx == adx * off + err
    ensures ady * (dx + 1) == adx * (off + base) + (err + (ady - base * adx))
    ensures ady * (dx + 1) == adx * (off + base + 1) + (err + (ady - base * adx) - adx)
  {
    Distribute(ady, dx, 1);
    Distribute(adx, off, base);
    Distribute(adx, off + base, 1);
  }

  lemma NextOnLine(x: int, x0: int, x1: int, y0: int, y1: int, y: int, err: int)
    requires x0 <= x && x0 < x1 && OnLine(x, x0, x1, y0, y1, y, err)
    ensures var dy, adx := y1 - y0, x1 - x0;
      var base := Truncated(dy, adx);
      var ady := Abs(dy) - Abs(base) * adx;
      var sy := if dy < 0 then base - 1 else base + 1;
      && 0 <= ady < adx
      && if err + ady >= adx then OnLine(x + 1, x0, x1, y0, y1, y + sy, err + ady - adx)
         else OnLine(x + 1, x0, x1, y0, y1, y + base, err + ady)
  {
    var dy, adx := y1 - y0, x1 - x0;
    var base := Truncated(dy, adx);
    BaseStep(dy, adx);
    hide Truncated;
    StepNumbers(Abs(dy), x - x0, adx, Abs(y - y0), err, Abs(base));
    assert x + 1 - x0 == (x - x0) + 1;
    assert Abs(y + base - y0) == Abs(y - y0) + Abs(base);
  }

  // ---------- The curve ----------

  datatype Post = Post(x: nat, y: int)

  ghost predicate Ascending(posts: seq<Post>) {
    |posts| > 0 && posts[0].x == 0 && forall i, k :: 0 <= i < k < |posts| ==> posts[i].x < posts[k].x
  }

  /** The curve through the posts: straight, with rounding, from each post to the next and level after the last. */
  ghost function Curve(posts: seq<Post>, x: nat): int
    requires Ascending(posts)
  {
    var n := |posts|;
    var last := posts[n - 1];
    if last.x <= x || n == 1 then last.y
    else if posts[n - 2].x <= x then PredictPoint(x, posts[n - 2].x, last.x, posts[n - 2].y, last.y)
    else Curve(posts[..n - 1], x)
  }

  /** The curve passes through every post. */
  lemma {:induction false} CurveMeetsPosts(posts: seq<Post>, i: nat)
    requires Ascending(posts) && i < |posts|
    ensures Curve(posts, posts[i].x) == posts[i].y
  {
    var n := |posts|;
    if i == n - 2 {
      PredictAtStart(posts[i].x, posts[n - 1].x, posts[i].y, posts[n - 1].y);
    } else if i < n - 2 {
      CurveMeetsPosts(posts[..n - 1], i);
    }
  }

  lemma {:induction false} CurveBetween(posts: seq<Post>, x: nat, lo: int, hi: int)
    requires Ascending(posts) && forall i :: 0 <= i < |posts| ==> lo <= posts[i].y <= hi
    ensures lo <= Curve(posts, x) <= hi
  {
    var n := |posts|;
    if x < posts[n - 1].x && n > 1 && x < posts[n - 2].x {
      CurveBetween(posts[..n - 1], x, lo, hi);
    }
  }

  /** The posts in use among the first q in order of x, scaled by the multiplier. */
  ghost function Posts(g: Floor, y: seq<int>, q: nat): seq<Post>
    requires ValidFloor(g) && |y| == |g.xList| && 1 <= q <= |y|
  {
    if q == 1 then [Post(0, y[0] * g.multiplier)] else
      var j := g.sortedOrder[q - 1];
      if y[j] >= 0 then Posts(g, y, q - 1) + [Post(g.xList[j], y[j] * g.multiplier)] else Posts(g, y, q - 1)
  }

  /** The two ends are in use and in range; this is all that rendering needs. */
  predicate Playable(g: Floor, y: seq<int>)
    requires ValidFloor(g)
  {
    |y| == |g.xList| && EndsInRange(y, Range(g.multiplier))
  }

  /** The other wire values do not matter. */
  lemma MarkedIsPlayable(g: Floor, wire: seq<int>)
    requires ValidFloor(g) && |wire| == |g.xList| && EndsInRange(wire, Range(g.multiplier))
    ensures Playable(g, Marked(g, wire))
  {
  }

  lemma {:induction false} PostsAscend(g: Floor, y: seq<int>, q: nat)
    requires ValidFloor(g) && Playable(g, y) && 1 <= q <= |y|
    ensures var posts := Posts(g, y, q);
      Ascending(posts) && posts[|posts| - 1].x <= g.xList[g.sortedOrder[q - 1]]
  {
    hide Closest, Distinct;
    if q > 1 {
      PostsAscend(g, y, q - 1);
      OrderAscends(g, q - 1);
    }
  }

  lemma {:induction false} PostsInRange(g: Floor, y: seq<int>, q: nat)
    requires ValidFloor(g) && Playable(g, y) && AllBelow(y, Range(g.multiplier)) && 1 <= q <= |y|
    ensures var posts := Posts(g, y, q);
      forall i :: 0 <= i < |posts| ==> 0 <= posts[i].y < 256
  {
    hide Closest, Distinct, Range;
    if q > 1 {
      var j, posts := g.sortedOrder[q - 1], Posts(g, y, q);
      PostsInRange(g, y, q - 1);
      PostsNext(g, y, q - 1);
      ScaledFits(y[j], g.multiplier);
      assert forall i :: 0 <= i < |posts| ==>
        (i < |Posts(g, y, q - 1)| && posts[i] == Posts(g, y, q - 1)[i]) || 0 <= posts[i].y < 256;
    } else {
      ScaledFits(y[0], g.multiplier);
    }
  }

  lemma ScaledFits(y: int, multiplier: nat)
    requires 1 <= multiplier <= 4 && y < Range(multiplier)
    ensures y >= 0 ==> 0 <= y * multiplier < 256
  {
    if y >= 0 {
      MulMonotone(y, Range(multiplier) - 1, multiplier);
    }
  }

  /** The height of the curve through the posts in use among the first q. */
  ghost function Row(g: Floor, y: seq<int>, q: nat, x: nat): int
    requires ValidFloor(g) && Playable(g, y) && 1 <= q <= |y|
  {
    PostsAscend(g, y, q);
    Curve(Posts(g, y, q), x)
  }

  /** With all heights in range, the curve is an index into the table as it is. */
  lemma RowInRange(g: Floor, y: seq<int>, x: nat)
    requires ValidFloor(g) && Playable(g, y) && AllBelow(y, Range(g.multiplier))
    ensures 0 <= Row(g, y, |y|, x) < 256 && Byte(Row(g, y, |y|, x)) == Row(g, y, |y|, x)
  {
    hide Posts, Curve;
    PostsAscend(g, y, |y|);
    PostsInRange(g, y, |y|);
    CurveBetween(Posts(g, y, |y|), x, 0, 255);
  }

  ghost function LastPost(g: Floor, y: seq<int>, q: nat): Post
    requires ValidFloor(g) && Playable(g, y) && 1 <= q <= |y|
  {
    PostsAscend(g, y, q);
    Posts(g, y, q)[|Posts(g, y, q)| - 1]
  }

  /** A post that is not in use leaves the curve alone; one that is continues it from the last one. */
  lemma NextPost(g: Floor, y: seq<int>, q: nat)
    requires ValidFloor(g) && Playable(g, y) && 1 <= q < |y|
    ensures var j := g.sortedOrder[q];
      if y[j] < 0 then
        LastPost(g, y, q + 1) == LastPost(g, y, q) && forall x: nat :: Row(g, y, q + 1, x) == Row(g, y, q, x)
      else
        && LastPost(g, y, q + 1) == Post(g.xList[j], y[j] * g.multiplier)
        && LastPost(g, y, q).x < g.xList[j]
        && (forall x: nat :: x < LastPost(g, y, q).x ==> Row(g, y, q + 1, x) == Row(g, y, q, x))
        && (forall x: nat :: LastPost(g, y, q).x <= x < g.xList[j] ==>
              Row(g, y, q + 1, x) ==
                PredictPoint(x, LastPost(g, y, q).x, g.xList[j], LastPost(g, y, q).y, y[j] * g.multiplier))
  {
    hide PredictPoint, Closest, Distinct, Posts, Curve, Range;
    var j := g.sortedOrder[q];
    PostsAscend(g, y, q);
    PostsAscend(g, y, q + 1);
    PostsNext(g, y, q);
    if y[j] >= 0 {
      var posts, p := Posts(g, y, q), Post(g.xList[j], y[j] * g.multiplier);
      OrderAscends(g, q);
      forall x: nat
        ensures x < LastPost(g, y, q).x ==> Row(g, y, q + 1, x) == Row(g, y, q, x)
        ensures LastPost(g, y, q).x <= x < g.xList[j] ==>
          Row(g, y, q + 1, x) ==
            PredictPoint(x, LastPost(g, y, q).x, g.xList[j], LastPost(g, y, q).y, y[j] * g.multiplier)
      {
        CurveExtended(posts, p, x);
      }
    }
  }

  lemma PostsNext(g: Floor, y: seq<int>, q: nat)
    requires ValidFloor(g) && |y| == |g.xList| && 1 <= q < |y|
    ensures var j := g.sortedOrder[q];
      Posts(g, y, q + 1)
        == if y[j] < 0 then Posts(g, y, q) else Posts(g, y, q) + [Post(g.xList[j], y[j] * g.multiplier)]
  {
  }

  lemma OrderAscends(g: Floor, q: nat)
    requires ValidFloor(g) && 1 <= q < |g.xList|
    ensures g.xList[g.sortedOrder[q - 1]] < g.xList[g.sortedOrder[q]]
  {
  }

  lemma CurveExtended(posts: seq<Post>, p: Post, x: nat)
    requires Ascending(posts) && Ascending(posts + [p])
    ensures var last := posts[|posts| - 1];
      && last.x < p.x
      && (x < last.x ==> Curve(posts + [p], x) == Curve(posts, x))
      && (last.x <= x < p.x ==> Curve(posts + [p], x) == PredictPoint(x, last.x, p.x, last.y, p.y))
  {
    hide PredictPoint;
    var next := posts + [p];
    assert next[..|next| - 1] == posts && next[|next| - 1] == p && next[|next| - 2] == posts[|posts| - 1];
  }

  lemma FirstPost(g: Floor, y: seq<int>)
    requires ValidFloor(g) && Playable(g, y)
    ensures |y| == |g.xList| >= 2 && LastPost(g, y, 1) == Post(0, y[0] * g.multiplier)
  {
    PostsAscend(g, y, 1);
  }

  lemma LevelAfterLast(g: Floor, y: seq<int>, q: nat, x: nat)
    requires ValidFloor(g) && Playable(g, y) && 1 <= q <= |y| && LastPost(g, y, q).x <= x
    ensures Row(g, y, q, x) == LastPost(g, y, q).y
  {
    PostsAscend(g, y, q);
  }

  lemma OrderFits(g: Floor, q: nat)
    requires ValidFloor(g) && q < |g.xList|
    ensures |g.sortedOrder| == |g.xList| && g.sortedOrder[q] < |g.xList|
  {
  }

  /** The bins before x are scaled by the curve through the first q posts, the others not at all. */
  ghost predicate Scaled(g: Floor, y: seq<int>, table: seq<real>, before: seq<real>, now: seq<real>, q: nat, until: nat)
    requires ValidFloor(g) && Playable(g, y) && 1 <= q <= |y| && |table| == 256
  {
    && |now| == |before|
    && forall x: nat :: x < |before| ==>
         now[x] == if x < until then before[x] * table[Byte(Row(g, y, q, x))] else before[x]
  }

  /** do_floor: every one of the n / 2 bins is scaled once, by the table entry of the curve's height there. The line
      drawer takes the height modulo 256; the level behind the last post is the second end and needs no mask. */
  method DoFloor(g: Floor, n: nat, target: array<real>, finalY: array<int>, table: seq<real>)
    requires ValidFloor(g) && Playable(g, finalY[..]) && |table| == 256 && n / 2 <= target.Length
    modifies target
    ensures Scaled(g, finalY[..], table, old(target[..]), target[..], |g.xList|, n / 2)
  {
    hide *;
    ghost var y, before := finalY[..], target[..];
    FirstPost(g, y);
    var n2 := n / 2;
    var lx: nat, ly: int := 0, finalY[0] * g.multiplier;
    var q := 1;
    NothingScaled(g, y, table, before);
    while q < |g.xList|
      invariant 1 <= q <= |g.xList| && Post(lx, ly) == LastPost(g, y, q)
      invariant Scaled(g, y, table, before, target[..], q, if lx < n2 then lx else n2)
    {
      OrderFits(g, q);
      var j := g.sortedOrder[q];
      ghost var was := target[..];
      NextPost(g, y, q);
      if finalY[j] >= 0 {
        var hy := finalY[j] * g.multiplier;
        var hx := g.xList[j];
        if lx != hx {
          DrawLine(target, lx, ly, hx, hy, n2, table);
        }
        LineScaled(g, y, table, before, was, target[..], q, lx, ly, hx, hy, n2);
        lx, ly := hx, hy;
      } else {
        SameScaled(g, y, table, before, was, q, if lx < n2 then lx else n2);
      }
      q := q + 1;
    }
    if lx < n2 {
      ghost var was := target[..];
      var j := lx;
      LastLevel(g, y);
      while j < n2
        invariant lx <= j <= n2
        invariant forall x :: 0 <= x < target.Length ==>
          target[x] == if lx <= x < j then was[x] * table[ly] else was[x]
      {
        target[j] := target[j] * table[ly];
        j := j + 1;
      }
      TailScaled(g, y, table, before, was, target[..], q, lx, ly, n2);
    }
  }

  lemma NothingScaled(g: Floor, y: seq<int>, table: seq<real>, before: seq<real>)
    requires ValidFloor(g) && Playable(g, y) && |table| == 256
    ensures |y| >= 2 && Scaled(g, y, table, before, before, 1, 0)
  {
  }

  /** The second end has the largest abscissa, so it is the last post, and always in use. */
  lemma LastLevel(g: Floor, y: seq<int>)
    requires ValidFloor(g) && Playable(g, y)
    ensures 0 <= LastPost(g, y, |y|).y < 256
  {
    hide Posts, Distinct;
    EndComesLast(g);
    PostsNext(g, y, |y| - 1);
    ScaledFits(y[1], g.multiplier);
  }

  lemma EndComesLast(g: Floor)
    requires ValidFloor(g)
    ensures g.sortedOrder[|g.xList| - 1] == 1
  {
    assert 1 in g.sortedOrder;
    var k :| 0 <= k < |g.sortedOrder| && g.sortedOrder[k] == 1;
    EndIsLargest(g, g.sortedOrder[|g.xList| - 1]);
  }

  lemma {:induction false} EndIsLargest(g: Floor, j: nat)
    requires ValidFloor(g) && j < |g.xList|
    ensures g.xList[j] <= g.xList[1]
    decreases j
  {
    if j >= 2 {
      assert Closest(g.xList, j, g.neighbors[j].0, g.neighbors[j].1);
      EndIsLargest(g, g.neighbors[j].1);
    }
  }

  lemma SameScaled(g: Floor, y: seq<int>, table: seq<real>, before: seq<real>, now: seq<real>, q: nat, until: nat)
    requires ValidFloor(g) && Playable(g, y) && 1 <= q < |y| && |table| == 256
    requires Scaled(g, y, table, before, now, q, until)
    requires forall x: nat :: Row(g, y, q + 1, x) == Row(g, y, q, x)
    ensures Scaled(g, y, table, before, now, q + 1, until)
  {
    hide Row, ValidFloor, Playable;
  }

  lemma LineScaled(g: Floor, y: seq<int>, table: seq<real>, before: seq<real>, was: seq<real>, now: seq<real>, q: nat,
                   lx: nat, ly: int, hx: nat, hy: int, n2: nat)
    requires ValidFloor(g) && Playable(g, y) && 1 <= q < |y| && |table| == 256 && lx < hx && n2 <= |before|
    requires Scaled(g, y, table, before, was, q, if lx < n2 then lx else n2) && |now| == |was|
    requires forall x :: 0 <= x < |was| ==>
      now[x] == if lx <= x < hx && x < n2 then was[x] * table[Byte(PredictPoint(x, lx, hx, ly, hy))] else was[x]
    requires forall x: nat :: x < lx ==> Row(g, y, q + 1, x) == Row(g, y, q, x)
    requires forall x: nat :: lx <= x < hx ==> Row(g, y, q + 1, x) == PredictPoint(x, lx, hx, ly, hy)
    ensures Scaled(g, y, table, before, now, q + 1, if hx < n2 then hx else n2)
  {
    hide Row, ValidFloor, Playable, PredictPoint;
  }

  lemma TailScaled(g: Floor, y: seq<int>, table: seq<real>, before: seq<real>, was: seq<real>, now: seq<real>, q: nat,
                   lx: nat, ly: int, n2: nat)
    requires ValidFloor(g) && Playable(g, y) && 1 <= q <= |y| && |table| == 256 && lx < n2 <= |before|
    requires Scaled(g, y, table, before, was, q, lx) && |now| == |was| && LastPost(g, y, q) == Post(lx, ly)
      && 0 <= ly < 256
    requires forall x :: 0 <= x < |was| ==> now[x] == if lx <= x < n2 then was[x] * table[ly] else was[x]
    ensures Scaled(g, y, table, before, now, q, n2)
  {
    hide Row, ValidFloor, Playable, LastPost;
    forall x: nat | lx <= x
      ensures Row(g, y, q, x) == ly
    {
      LevelAfterLast(g, y, q, x);
    }
  }

  // ---------- Which wire values give the same curve ----------

  lemma ZeroComesFirst(g: Floor)
    requires ValidFloor(g)
    ensures g.sortedOrder[0] == 0
  {
    assert 0 in g.sortedOrder;
    var k :| 0 <= k < |g.sortedOrder| && g.sortedOrder[k] == 0;
    assert forall i :: 0 < i < |g.sortedOrder| ==> g.xList[g.sortedOrder[0]] < g.xList[g.sortedOrder[i]];
  }

  lemma {:induction false} PostIsThere(g: Floor, y: seq<int>, q: nat, k: nat) returns (i: nat)
    requires ValidFloor(g) && Playable(g, y) && k < q <= |y| && y[g.sortedOrder[k]] >= 0
    ensures i < |Posts(g, y, q)|
    ensures Posts(g, y, q)[i] == Post(g.xList[g.sortedOrder[k]], y[g.sortedOrder[k]] * g.multiplier)
  {
    hide Closest, Distinct;
    if q == 1 {
      ZeroComesFirst(g);
      i := 0;
    } else if k == q - 1 {
      i := |Posts(g, y, q)| - 1;
    } else {
      i := PostIsThere(g, y, q - 1, k);
    }
  }

  /** The rendered curve passes through every post in use. */
  lemma RowMeetsPost(g: Floor, y: seq<int>, j: nat)
    requires ValidFloor(g) && Playable(g, y) && j < |y| && y[j] >= 0
    ensures Row(g, y, |y|, g.xList[j]) == y[j] * g.multiplier
  {
    hide Closest, Distinct, Posts, Curve;
    assert j in g.sortedOrder;
    var k :| 0 <= k < |g.sortedOrder| && g.sortedOrder[k] == j;
    var i := PostIsThere(g, y, |y|, k);
    PostsAscend(g, y, |y|);
    CurveMeetsPosts(Posts(g, y, |y|), i);
  }

  /** The curves of two marked vectors are the same everywhere. */
  ghost predicate SameCurve(g: Floor, y: seq<int>, z: seq<int>)
    requires ValidFloor(g) && Playable(g, y) && Playable(g, z)
  {
    forall x: nat :: Row(g, y, |y|, x) == Row(g, z, |z|, x)
  }

  /** The same posts are in use. */
  ghost predicate SameUse(g: Floor, v: seq<int>, w: seq<int>)
    requires ValidFloor(g) && |v| == |w| == |g.xList|
  {
    forall j: nat :: j < |v| ==> (Used(g, v, j, |v|) <==> Used(g, w, j, |w|))
  }

  /** In particular when the same amplitudes are zero. */
  lemma SameZerosSameUse(g: Floor, v: seq<int>, w: seq<int>)
    requires ValidFloor(g) && |v| == |w| == |g.xList|
    requires forall j :: 2 <= j < |v| ==> (v[j] == 0 <==> w[j] == 0)
    ensures SameUse(g, v, w)
  {
  }

  lemma UsedIsMarked(g: Floor, wire: seq<int>, j: nat)
    requires ValidFloor(g) && |wire| == |g.xList| && j < |wire| && InRange(wire, Range(g.multiplier))
    ensures Used(g, wire, j, |wire|) <==> Marked(g, wire)[j] >= 0
    ensures Marked(g, wire)[j] >= -1
  {
    HeightInRange(g, wire, j);
  }

  /** Given which posts are in use, the curve determines the wire values. */
  lemma DistinctWiresDistinctCurves(g: Floor, v: seq<int>, w: seq<int>)
    requires ValidFloor(g) && |v| == |w| == |g.xList|
    requires InRange(v, Range(g.multiplier)) && InRange(w, Range(g.multiplier)) && SameUse(g, v, w)
    ensures Playable(g, Marked(g, v)) && Playable(g, Marked(g, w))
    ensures SameCurve(g, Marked(g, v), Marked(g, w)) <==> v == w
  {
    hide Marked, Used, Row, Closest, Distinct, IsOrder;
    MarkedIsPlayable(g, v);
    MarkedIsPlayable(g, w);
    if SameCurve(g, Marked(g, v), Marked(g, w)) {
      forall j: nat | j < |v|
        ensures Marked(g, v)[j] == Marked(g, w)[j]
      {
        UsedIsMarked(g, v, j);
        UsedIsMarked(g, w, j);
        if Used(g, v, j, |v|) {
          RowMeetsPost(g, Marked(g, v), j);
          RowMeetsPost(g, Marked(g, w), j);
          SameFactor(Marked(g, v)[j], Marked(g, w)[j], g.multiplier);
        }
      }
      assert Marked(g, v) == Marked(g, w);
      DistinctWiresDistinctPosts(g, v, w);
    }
  }

  lemma SameFactor(a: int, b: int, m: int)
    requires m > 0 && a * m == b * m
    ensures a == b
  {
    if a < b {
      MulMonotone(a + 1, b, m);
    } else if b < a {
      MulMonotone(b + 1, a, m);
    }
  }

  /** Whatever posts are in use: when two curves agree, each one passes through the posts of the other. */
  lemma SameCurveMeetsBoth(g: Floor, v: seq<int>, w: seq<int>, j: nat)
    requires ValidFloor(g) && |v| == |w| == |g.xList| && j < |v| && Used(g, v, j, |v|)
    requires InRange(v, Range(g.multiplier)) && InRange(w, Range(g.multiplier))
    requires Playable(g, Marked(g, v)) && Playable(g, Marked(g, w)) && SameCurve(g, Marked(g, v), Marked(g, w))
    ensures Row(g, Marked(g, w), |w|, g.xList[j]) == Height(g, v, j) * g.multiplier
    ensures Used(g, w, j, |w|) ==> Height(g, w, j) == Height(g, v, j)
  {
    hide Used, Row, Closest, Distinct, IsOrder;
    UsedIsMarked(g, v, j);
    RowMeetsPost(g, Marked(g, v), j);
    if Used(g, w, j, |w|) {
      UsedIsMarked(g, w, j);
      RowMeetsPost(g, Marked(g, w), j);
      SameFactor(Height(g, w, j), Height(g, v, j), g.multiplier);
    }
  }

  lemma {:induction false} CurveOnSegment(posts: seq<Post>, i: nat, x: nat)
    requires Ascending(posts) && i + 1 < |posts| && posts[i].x <= x < posts[i + 1].x
    ensures Curve(posts, x) == PredictPoint(x, posts[i].x, posts[i + 1].x, posts[i].y, posts[i + 1].y)
  {
    hide PredictPoint;
    var n := |posts|;
    if i + 2 < n {
      assert posts[i + 1].x <= posts[n - 2].x < posts[n - 1].x;
      CurveOnSegment(posts[..n - 1], i, x);
    }
  }

  /** Post b lies on the line from a to c, and the two lines through it are drawn like the one. */
  ghost predicate Invisible(a: Post, b: Post, c: Post)
    requires a.x < b.x < c.x
  {
    && (forall x :: a.x <= x < b.x ==> PredictPoint(x, a.x, b.x, a.y, b.y) == PredictPoint(x, a.x, c.x, a.y, c.y))
    && (forall x :: b.x <= x < c.x ==> PredictPoint(x, b.x, c.x, b.y, c.y) == PredictPoint(x, a.x, c.x, a.y, c.y))
  }

  ghost predicate CurvesAgree(p: seq<Post>, q: seq<Post>)
    requires Ascending(p) && Ascending(q)
  {
    forall x: nat :: Curve(p, x) == Curve(q, x)
  }

  lemma InvisibleAgrees(posts: seq<Post>, i: nat, b: Post)
    requires Ascending(posts) && i + 1 < |posts| && posts[i].x < b.x < posts[i + 1].x
    requires Ascending(Inserted(posts, i, b)) && Invisible(posts[i], b, posts[i + 1])
    ensures CurvesAgree(Inserted(posts, i, b), posts)
  {
    hide PredictPoint, Curve, Inserted, Ascending;
    forall x: nat
      ensures Curve(Inserted(posts, i, b), x) == Curve(posts, x)
    {
      if posts[i].x <= x < posts[i + 1].x {
        AroundInserted(posts, i, b, x);
      } else {
        ElsewhereSame(posts, i, b, x);
      }
    }
  }

  lemma AgreeingIsInvisible(posts: seq<Post>, i: nat, b: Post)
    requires Ascending(posts) && i + 1 < |posts| && posts[i].x < b.x < posts[i + 1].x
    requires Ascending(Inserted(posts, i, b)) && CurvesAgree(Inserted(posts, i, b), posts)
    ensures Invisible(posts[i], b, posts[i + 1])
  {
    hide PredictPoint, Curve, Inserted, Ascending;
    var a, c := posts[i], posts[i + 1];
    forall x | a.x <= x < b.x
      ensures PredictPoint(x, a.x, b.x, a.y, b.y) == PredictPoint(x, a.x, c.x, a.y, c.y)
    {
      AgreeingAt(posts, i, b, x);
    }
    forall x | b.x <= x < c.x
      ensures PredictPoint(x, b.x, c.x, b.y, c.y) == PredictPoint(x, a.x, c.x, a.y, c.y)
    {
      AgreeingAt(posts, i, b, x);
    }
  }

  lemma AgreeingAt(posts: seq<Post>, i: nat, b: Post, x: nat)
    requires Ascending(posts) && i + 1 < |posts| && posts[i].x < b.x < posts[i + 1].x
    requires Ascending(Inserted(posts, i, b)) && CurvesAgree(Inserted(posts, i, b), posts)
    requires posts[i].x <= x < posts[i + 1].x
    ensures PredictPoint(x, posts[i].x, posts[i + 1].x, posts[i].y, posts[i + 1].y)
      == if x < b.x then PredictPoint(x, posts[i].x, b.x, posts[i].y, b.y)
         else PredictPoint(x, b.x, posts[i + 1].x, b.y, posts[i + 1].y)
  {
    hide PredictPoint, Curve, Inserted, Ascending;
    AroundInserted(posts, i, b, x);
    assert Curve(Inserted(posts, i, b), x) == Curve(posts, x);
  }

  /** A post put in between posts i and i + 1 leaves the whole curve alone exactly when it does not show there. */
  lemma InsertedPost(posts: seq<Post>, i: nat, b: Post)
    requires Ascending(posts) && i + 1 < |posts| && posts[i].x < b.x < posts[i + 1].x
    ensures Ascending(Inserted(posts, i, b))
    ensures CurvesAgree(Inserted(posts, i, b), posts) <==> Invisible(posts[i], b, posts[i + 1])
  {
    hide PredictPoint, Inserted, Ascending, CurvesAgree, Invisible;
    InsertedAscends(posts, i, b);
    if Invisible(posts[i], b, posts[i + 1]) {
      InvisibleAgrees(posts, i, b);
    }
    if CurvesAgree(Inserted(posts, i, b), posts) {
      AgreeingIsInvisible(posts, i, b);
    }
  }

  function Inserted(posts: seq<Post>, i: nat, b: Post): (more: seq<Post>)
    requires i + 1 < |posts|
    ensures |more| == |posts| + 1
  {
    posts[..i + 1] + [b] + posts[i + 1..]
  }

  lemma InsertedAt(posts: seq<Post>, i: nat, b: Post, k: nat)
    requires i + 1 < |posts| && k <= |posts|
    ensures Inserted(posts, i, b)[k] == if k <= i then posts[k] else if k == i + 1 then b else posts[k - 1]
  {
  }

  lemma AroundInserted(posts: seq<Post>, i: nat, b: Post, x: nat)
    requires Ascending(posts) && i + 1 < |posts| && posts[i].x < b.x < posts[i + 1].x
    requires Ascending(Inserted(posts, i, b)) && posts[i].x <= x < posts[i + 1].x
    ensures var a, c := posts[i], posts[i + 1];
      && Curve(posts, x) == PredictPoint(x, a.x, c.x, a.y, c.y)
      && Curve(Inserted(posts, i, b), x)
          == if x < b.x then PredictPoint(x, a.x, b.x, a.y, b.y) else PredictPoint(x, b.x, c.x, b.y, c.y)
  {
    hide PredictPoint, Curve, Inserted, Ascending;
    var more := Inserted(posts, i, b);
    CurveOnSegment(posts, i, x);
    InsertedAt(posts, i, b, i);
    InsertedAt(posts, i, b, i + 1);
    InsertedAt(posts, i, b, i + 2);
    if x < b.x {
      CurveOnSegment(more, i, x);
    } else {
      CurveOnSegment(more, i + 1, x);
    }
  }

  lemma InsertedAscends(posts: seq<Post>, i: nat, b: Post)
    requires Ascending(posts) && i + 1 < |posts| && posts[i].x < b.x < posts[i + 1].x
    ensures Ascending(Inserted(posts, i, b))
  {
    hide Inserted;
    var more := Inserted(posts, i, b);
    InsertedAt(posts, i, b, 0);
    forall k, l | 0 <= k < l < |more|
      ensures more[k].x < more[l].x
    {
      InsertedAt(posts, i, b, k);
      InsertedAt(posts, i, b, l);
      AscendsTo(posts, k, i);
      AscendsTo(posts, i + 1, l - 1);
    }
  }

  lemma AscendsTo(posts: seq<Post>, k: nat, l: int)
    requires Ascending(posts) && l < |posts|
    ensures k <= l ==> posts[k].x <= posts[l].x
  {
  }

  lemma {:induction false} SegmentOf(posts: seq<Post>, x: nat, n: nat) returns (k: nat)
    requires Ascending(posts) && 0 < n < |posts| && x < posts[n].x
    ensures k < n && posts[k].x <= x < posts[k + 1].x
    decreases n
  {
    if n == 1 || posts[n - 1].x <= x {
      k := n - 1;
    } else {
      k := SegmentOf(posts, x, n - 1);
    }
  }

  lemma ElsewhereSame(posts: seq<Post>, i: nat, b: Post, x: nat)
    requires Ascending(posts) && i + 1 < |posts| && posts[i].x < b.x < posts[i + 1].x
    requires x < posts[i].x || posts[i + 1].x <= x
    requires Ascending(Inserted(posts, i, b))
    ensures Curve(Inserted(posts, i, b), x) == Curve(posts, x)
  {
    hide PredictPoint, Curve, Inserted, Ascending;
    var more := Inserted(posts, i, b);
    var n := |posts|;
    InsertedAt(posts, i, b, n);
    if x < posts[n - 1].x {
      var k := SegmentOf(posts, x, n - 1);
      CurveOnSegment(posts, k, x);
      OutsideSegment(posts, i, k, x);
      if k < i {
        InsertedAt(posts, i, b, k);
        InsertedAt(posts, i, b, k + 1);
        CurveOnSegment(more, k, x);
      } else {
        InsertedAt(posts, i, b, k + 1);
        InsertedAt(posts, i, b, k + 2);
        CurveOnSegment(more, k + 1, x);
      }
    } else {
      CurveAfterLast(posts, x);
      CurveAfterLast(more, x);
    }
  }

  lemma CurveAfterLast(posts: seq<Post>, x: nat)
    requires Ascending(posts) && posts[|posts| - 1].x <= x
    ensures Curve(posts, x) == posts[|posts| - 1].y
  {
  }

  lemma OutsideSegment(posts: seq<Post>, i: nat, k: nat, x: nat)
    requires Ascending(posts) && i + 1 < |posts| && k + 1 < |posts|
    requires x < posts[i].x || posts[i + 1].x <= x
    requires posts[k].x <= x < posts[k + 1].x
    ensures k != i
  {
  }

  // ---------- One amplitude more ----------

  lemma {:induction false} SamePosts(g: Floor, y: seq<int>, z: seq<int>, q: nat)
    requires ValidFloor(g) && |y| == |z| == |g.xList| && 1 <= q <= |y| && y[0] == z[0]
    requires forall i :: 0 <= i < q ==> y[g.sortedOrder[i]] == z[g.sortedOrder[i]]
    ensures Posts(g, y, q) == Posts(g, z, q)
  {
    hide Closest, Distinct;
    if q > 1 {
      SamePosts(g, y, z, q - 1);
    }
  }

  /** z has post j = sortedOrder[k] in use and y has not; otherwise they are the same. */
  predicate OneMore(g: Floor, y: seq<int>, z: seq<int>, j: nat) {
    && |y| == |z| == |g.xList| && j < |y| && y[j] < 0 <= z[j]
    && forall i :: 0 <= i < |y| && i != j ==> y[i] == z[i]
  }

  lemma {:induction false} PostsWithOneMore(g: Floor, y: seq<int>, z: seq<int>, j: nat, k: nat, q: nat)
    requires ValidFloor(g) && Playable(g, y) && OneMore(g, y, z, j)
    requires 1 <= k < q <= |y| && g.sortedOrder[k] == j
    ensures var before, posts := |Posts(g, y, k)|, Posts(g, y, q);
      && before <= |posts| && posts[..before] == Posts(g, y, k)
      && Posts(g, z, q) == posts[..before] + [Post(g.xList[j], z[j] * g.multiplier)] + posts[before..]
  {
    hide Closest, Distinct, Posts, IsOrder, ValidFloor, Playable;
    FloorHasEnds(g);
    var before, b := |Posts(g, y, k)|, Post(g.xList[j], z[j] * g.multiplier);
    OrderFits(g, q - 1);
    PostsNext(g, y, q - 1);
    PostsNext(g, z, q - 1);
    if q == k + 1 {
      SameBefore(g, y, z, j, k);
      AllBefore(Posts(g, y, k), b);
    } else {
      PostsWithOneMore(g, y, z, j, k, q - 1);
      OrderFits(g, k);
      OrderIsApart(g, q - 1);
      var i := g.sortedOrder[q - 1];
      assert i != j && y[i] == z[i];
      AppendBehind(Posts(g, y, q - 1), before, b, Post(g.xList[i], y[i] * g.multiplier));
    }
  }

  lemma SameBefore(g: Floor, y: seq<int>, z: seq<int>, j: nat, k: nat)
    requires ValidFloor(g) && Playable(g, y) && OneMore(g, y, z, j) && 1 <= k < |y| && g.sortedOrder[k] == j
    ensures Posts(g, y, k) == Posts(g, z, k)
  {
    hide Closest, Distinct, Posts;
    OrderIsApart(g, k);
    SamePosts(g, y, z, k);
  }

  lemma AllBefore(posts: seq<Post>, b: Post)
    ensures posts[..|posts|] == posts && posts + [b] == posts[..|posts|] + [b] + posts[|posts|..]
  {
  }

  lemma AppendBehind(posts: seq<Post>, before: nat, b: Post, p: Post)
    requires before <= |posts|
    ensures (posts + [p])[..before] == posts[..before]
    ensures (posts[..before] + [b] + posts[before..]) + [p] == (posts + [p])[..before] + [b] + (posts + [p])[before..]
  {
    assert (posts + [p])[before..] == posts[before..] + [p];
  }

  lemma OrderIsApart(g: Floor, k: nat)
    requires ValidFloor(g) && k < |g.xList|
    ensures forall i :: 0 <= i < k ==> g.sortedOrder[i] != g.sortedOrder[k]
  {
  }

  lemma EndIsInUse(g: Floor, z: seq<int>)
    requires ValidFloor(g) && Playable(g, z)
    ensures LastPost(g, z, |z|).x == g.xList[1]
  {
    hide Posts, Distinct;
    EndComesLast(g);
    PostsNext(g, z, |z| - 1);
  }

  /** The curves of two marked vectors, one with one more post in use, agree exactly when that post does not show
      between the posts around it. */
  lemma OnePostMore(g: Floor, y: seq<int>, z: seq<int>, j: nat) returns (i: nat)
    requires ValidFloor(g) && Playable(g, y) && Playable(g, z) && OneMore(g, y, z, j)
    ensures var posts, b := Posts(g, y, |y|), Post(g.xList[j], z[j] * g.multiplier);
      && Ascending(posts) && i + 1 < |posts| && posts[i].x < b.x < posts[i + 1].x
      && (SameCurve(g, y, z) <==> Invisible(posts[i], b, posts[i + 1]))
  {
    hide Posts, Closest, Distinct, Invisible, CurvesAgree, Inserted;
    assert j in g.sortedOrder;
    var k :| 0 <= k < |g.sortedOrder| && g.sortedOrder[k] == j;
    ZeroComesFirst(g);
    assert k >= 1;
    PostsWithOneMore(g, y, z, j, k, |y|);
    PostsAscend(g, y, k);
    PostsAscend(g, y, |y|);
    PostsAscend(g, z, |y|);
    i := |Posts(g, y, k)| - 1;
    var posts, b := Posts(g, y, |y|), Post(g.xList[j], z[j] * g.multiplier);
    InsertedFits(g, z, j, posts, i, b);
    InsertedPost(posts, i, b);
    CurvesOfPosts(g, y, z, Inserted(posts, i, b));
  }

  /** The new post is not the last one. */
  lemma InsertedFits(g: Floor, z: seq<int>, j: nat, posts: seq<Post>, i: nat, b: Post)
    requires ValidFloor(g) && Playable(g, z) && 2 <= j < |z| && b.x == g.xList[j] && i < |posts|
    requires Posts(g, z, |z|) == posts[..i + 1] + [b] + posts[i + 1..] && Ascending(Posts(g, z, |z|))
    ensures i + 1 < |posts| && posts[i].x < b.x < posts[i + 1].x && Posts(g, z, |z|) == Inserted(posts, i, b)
  {
    hide Posts, Closest;
    var more := Posts(g, z, |z|);
    EndIsInUse(g, z);
    assert g.xList[1] != g.xList[j];
    assert more[i] == posts[i] && more[i + 1] == b && more[|more| - 1].x != b.x;
    assert more[i + 2] == posts[i + 1];
  }

  lemma CurvesOfPosts(g: Floor, y: seq<int>, z: seq<int>, more: seq<Post>)
    requires ValidFloor(g) && Playable(g, y) && Playable(g, z) && Ascending(more) && Posts(g, z, |z|) == more
    ensures Ascending(Posts(g, y, |y|))
    ensures SameCurve(g, y, z) <==> CurvesAgree(more, Posts(g, y, |y|))
  {
    hide Posts, Curve, Ascending;
    PostsAscend(g, y, |y|);
    var posts := Posts(g, y, |y|);
    assert forall x: nat :: Row(g, y, |y|, x) == Curve(posts, x) && Row(g, z, |z|, x) == Curve(more, x);
    if SameCurve(g, y, z) {
      forall x: nat
        ensures Curve(more, x) == Curve(posts, x)
      {
        assert Row(g, y, |y|, x) == Row(g, z, |z|, x);
      }
    }
    if CurvesAgree(more, posts) {
      forall x: nat
        ensures Row(g, y, |y|, x) == Row(g, z, |z|, x)
      {
        assert Curve(more, x) == Curve(posts, x);
      }
    }
  }

  /** The same for wire values: one more amplitude, at a post that no other is predicted from and whose neighbours are
      in use anyway. */
  lemma OneAmplitudeMore(g: Floor, v: seq<int>, w: seq<int>, j: nat) returns (i: nat)
    requires ValidFloor(g) && |v| == |w| == |g.xList| && 2 <= j < |v| && v[j] == 0 && w == v[j := w[j]] && w[j] != 0
    requires InRange(v, Range(g.multiplier)) && InRange(w, Range(g.multiplier))
    requires Used(g, v, g.neighbors[j].0, |v|) && Used(g, v, g.neighbors[j].1, |v|)
    requires forall k :: 2 <= k < |v| ==> g.neighbors[k].0 != j && g.neighbors[k].1 != j
    ensures Playable(g, Marked(g, v)) && Playable(g, Marked(g, w))
    ensures var posts, b := Posts(g, Marked(g, v), |v|), Post(g.xList[j], Height(g, w, j) * g.multiplier);
      && Ascending(posts) && i + 1 < |posts| && posts[i].x < b.x < posts[i + 1].x
      && (SameCurve(g, Marked(g, v), Marked(g, w)) <==> Invisible(posts[i], b, posts[i + 1]))
  {
    hide Marked, Used, Invisible, Posts, SameCurve, Ascending, ValidFloor;
    FloorHasEnds(g);
    MarkedIsPlayable(g, v);
    MarkedIsPlayable(g, w);
    forall k: nat | k < |v|
      ensures k != j ==> Marked(g, w)[k] == Marked(g, v)[k]
    {
      if k != j {
        OthersStay(g, v, w, j, k);
      }
    }
    NewlyUsed(g, v, w, j);
    i := OnePostMore(g, Marked(g, v), Marked(g, w), j);
  }

  lemma NewlyUsed(g: Floor, v: seq<int>, w: seq<int>, j: nat)
    requires ValidFloor(g) && |v| == |w| == |g.xList| && 2 <= j < |v| && v[j] == 0 && w[j] != 0
    requires InRange(w, Range(g.multiplier))
    requires forall k :: 2 <= k < |v| ==> g.neighbors[k].0 != j && g.neighbors[k].1 != j
    ensures Marked(g, v)[j] == -1 && Marked(g, w)[j] == Height(g, w, j) >= 0
  {
    hide Closest, Distinct;
    HeightInRange(g, w, j);
  }

  lemma OthersStay(g: Floor, v: seq<int>, w: seq<int>, j: nat, k: nat)
    requires ValidFloor(g) && |v| == |w| == |g.xList| && 2 <= j < |v| && v[j] == 0 && w == v[j := w[j]] && w[j] != 0
    requires Used(g, v, g.neighbors[j].0, |v|) && Used(g, v, g.neighbors[j].1, |v|)
    requires forall i :: 2 <= i < |v| ==> g.neighbors[i].0 != j && g.neighbors[i].1 != j
    requires k < |v| && k != j
    ensures Marked(g, w)[k] == Marked(g, v)[k]
  {
    hide Closest, Distinct, Height;
    SameHeight(g, v, w, j, k);
  }

  lemma {:induction false} SameHeight(g: Floor, v: seq<int>, w: seq<int>, j: nat, k: nat)
    requires ValidFloor(g) && |v| == |w| == |g.xList| && 2 <= j < |v| && w == v[j := w[j]] && k < |v| && k != j
    requires forall i :: 2 <= i < |v| ==> g.neighbors[i].0 != j && g.neighbors[i].1 != j
    ensures Height(g, w, k) == Height(g, v, k)
    decreases k
  {
    hide Distinct;
    if k >= 2 {
      assert Closest(g.xList, k, g.neighbors[k].0, g.neighbors[k].1);
      SameHeight(g, v, w, j, g.neighbors[k].0);
      SameHeight(g, v, w, j, g.neighbors[k].1);
    }
  }

  // ---------- A small floor ----------

  /** Two posts between the ends. */
  function FourPosts(): Floor {
    Floor([0, 4, 1, 2], [(0, 0), (0, 0), (0, 1), (2, 1)], [0, 2, 3, 1], 1)
  }

  lemma FourPostsOrder()
    ensures Distinct(FourPosts().xList) && IsOrder(FourPosts().sortedOrder, FourPosts().xList)
  {
    var order := FourPosts().sortedOrder;
    assert order[0] == 0 && order[1] == 2 && order[2] == 3 && order[3] == 1;
  }

  lemma FourPostsNeighbors(j: nat)
    requires 2 <= j < 4
    ensures Closest(FourPosts().xList, j, FourPosts().neighbors[j].0, FourPosts().neighbors[j].1)
  {
  }

  lemma FourPostsValid()
    ensures ValidFloor(FourPosts())
  {
    hide Distinct, IsOrder, Closest;
    FourPostsOrder();
    FourPostsNeighbors(2);
    FourPostsNeighbors(3);
  }

  lemma FourPostsHeights(w: seq<int>)
    requires ValidFloor(FourPosts()) && |w| == 4 && w[0] == 0 && w[1] == 2 && w[2] == 0
    ensures Height(FourPosts(), w, 0) == 0 && Height(FourPosts(), w, 1) == 2 && Height(FourPosts(), w, 2) == 0
  {
    hide ValidFloor, PredictPoint;
    assert Height(FourPosts(), w, 0) == 0 && Height(FourPosts(), w, 1) == 2;
    FirstStep();
  }

  lemma FourPostsMarked(w: seq<int>)
    requires ValidFloor(FourPosts()) && |w| == 4 && w == [0, 2, 0, w[3]] && 0 <= w[3] <= 1
    ensures Marked(FourPosts(), w) == if w[3] == 0 then [0, 2, -1, -1] else [0, 2, 0, 1]
  {
    hide ValidFloor, PredictPoint;
    var g := FourPosts();
    FourPostsHeights(w);
    assert Height(g, w, 0) == 0 && Height(g, w, 1) == 2 && Height(g, w, 2) == 0;
    FirstStep();
    assert Height(g, w, 3) == w[3];
    if w[3] == 0 {
      assert !Used(g, w, 2, 4) && !Used(g, w, 3, 4);
    } else {
      assert g.neighbors[3].0 == 2 && Used(g, w, 2, 4) && Used(g, w, 3, 4);
    }
  }

  lemma FirstStep()
    ensures PredictPoint(1, 0, 4, 0, 2) == 0 && PredictPoint(2, 1, 4, 0, 2) == 0
  {
  }

  lemma FourPostsPosts()
    requires ValidFloor(FourPosts())
    ensures Posts(FourPosts(), [0, 2, -1, -1], 4) == [Post(0, 0), Post(4, 2)]
    ensures Posts(FourPosts(), [0, 2, 0, 1], 4) == [Post(0, 0), Post(1, 0), Post(2, 1), Post(4, 2)]
  {
    hide ValidFloor;
    var g, y, z := FourPosts(), [0, 2, -1, -1], [0, 2, 0, 1];
    assert Posts(g, y, 1) == [Post(0, 0)] && Posts(g, z, 1) == [Post(0, 0)];
    assert Posts(g, y, 2) == [Post(0, 0)] && Posts(g, z, 2) == [Post(0, 0), Post(1, 0)];
    assert Posts(g, y, 3) == [Post(0, 0)] && Posts(g, z, 3) == [Post(0, 0), Post(1, 0), Post(2, 1)];
  }

  /** The codebook's value 256 for post 2 is a height of 256, which the line drawer takes for 0. */
  lemma WireTooLarge()
    ensures var g, w := FourPosts(), [0, 0, 256, 0];
      && ValidFloor(g) && Received(w) && EndsInRange(w, Range(g.multiplier)) && Playable(g, Marked(g, w))
      && Height(g, w, 2) == Range(g.multiplier) == 256 && !HeightsInRange(g, w)
      && Row(g, Marked(g, w), 4, 1) == 256 && Byte(256) == 0
  {
    hide ValidFloor, PredictPoint;
    FourPostsValid();
    var g, w := FourPosts(), [0, 0, 256, 0];
    assert Height(g, w, 0) == 0 && Height(g, w, 1) == 0;
    Level();
    assert Height(g, w, 2) == 256;
    assert Used(g, w, 2, 4);
    MarkedIsPlayable(g, w);
    RowMeetsPost(g, Marked(g, w), 2);
  }

  lemma Level()
    ensures PredictPoint(1, 0, 4, 0, 0) == 0
  {
  }

  /** A value above the range can even make the height the mark of an unused post: the value is lost. */
  lemma LargeWireLooksUnused()
    ensures var g, v, w := FourPosts(), [255, 255, 0, 0], [255, 255, 256, 0];
      && ValidFloor(g) && Received(w) && EndsInRange(w, Range(g.multiplier)) && Marked(g, v) == Marked(g, w)
  {
    hide ValidFloor, PredictPoint;
    FourPostsValid();
    var g, v, w := FourPosts(), [255, 255, 0, 0], [255, 255, 256, 0];
    HighLevel();
    assert Height(g, v, 0) == Height(g, w, 0) == 255 && Height(g, v, 1) == Height(g, w, 1) == 255;
    assert Height(g, w, 2) == -1;
    assert !Used(g, v, 2, 4) && !Used(g, v, 3, 4) && !Used(g, w, 3, 4) && Used(g, w, 2, 4);
    assert Marked(g, w) == [255, 255, -1, -1] == Marked(g, v);
  }

  lemma HighLevel()
    ensures PredictPoint(1, 0, 4, 255, 255) == 255
  {
  }

  /** Different wire values can give the same curve: posts 2 and 3 lie on the line between the ends. */
  lemma DifferentWiresSameCurve()
    ensures var g, v, w := FourPosts(), [0, 2, 0, 0], [0, 2, 0, 1];
      && ValidFloor(g) && InRange(v, Range(g.multiplier)) && InRange(w, Range(g.multiplier)) && v != w
      && Playable(g, Marked(g, v)) && Playable(g, Marked(g, w)) && SameCurve(g, Marked(g, v), Marked(g, w))
  {
    hide ValidFloor, Posts, Curve, Marked, PredictPoint;
    FourPostsValid();
    FourPostsMarked([0, 2, 0, 0]);
    FourPostsMarked([0, 2, 0, 1]);
    FourPostsPosts();
    forall x: nat
      ensures Row(FourPosts(), [0, 2, -1, -1], 4, x) == Row(FourPosts(), [0, 2, 0, 1], 4, x)
    {
      FourPostsCurves(x);
    }
  }

  lemma FourPostsCurves(x: nat)
    ensures Ascending([Post(0, 0), Post(4, 2)]) && Ascending([Post(0, 0), Post(1, 0), Post(2, 1), Post(4, 2)])
    ensures Curve([Post(0, 0), Post(4, 2)], x) == Curve([Post(0, 0), Post(1, 0), Post(2, 1), Post(4, 2)], x)
  {
    var p, q := [Post(0, 0), Post(4, 2)], [Post(0, 0), Post(1, 0), Post(2, 1), Post(4, 2)];
    if x < 4 {
      CurveOnSegment(p, 0, x);
      CurveOnSegment(q, if x == 0 then 0 else if x == 1 then 1 else 2, x);
    }
  }

  // ---------- Set-up ----------

  datatype Point = Point(x: nat, id: nat)

  /** Where a point with abscissa x goes among sorted points. */
  function Slot(p: seq<Point>, x: nat): (k: nat)
    ensures k <= |p|
    ensures forall i :: 0 <= i < k ==> p[i].x <= x
    ensures k < |p| ==> x < p[k].x
  {
    if p == [] || x < p[0].x then 0 else 1 + Slot(p[1..], x)
  }

  lemma SlotFits(p: seq<Point>, x: nat)
    ensures var k := Slot(p, x);
      k <= |p| && (forall i :: 0 <= i < k ==> p[i].x <= x) && (k < |p| ==> x < p[k].x)
  {
  }

  /** The C library's qsort on the first n posts. */
  function SortedPoints(x: seq<nat>, n: nat): seq<Point>
    requires n <= |x|
  {
    if n == 0 then [] else
      var p := SortedPoints(x, n - 1);
      var k := Slot(p, x[n - 1]);
      p[..k] + [Point(x[n - 1], n - 1)] + p[k..]
  }

  ghost predicate IsSorting(p: seq<Point>, x: seq<nat>, n: nat)
    requires n <= |x|
  {
    && |p| == n
    && (forall i :: 0 <= i < n ==> p[i].id < n && p[i].x == x[p[i].id])
    && (forall i, k :: 0 <= i < k < n ==> p[i].x <= p[k].x && p[i].id != p[k].id)
    && (forall j: nat :: j < n ==> Point(x[j], j) in p)
  }

  lemma InsertionSorts(p: seq<Point>, q: seq<Point>, x: seq<nat>, n: nat, k: nat)
    requires n < |x| && IsSorting(p, x, n) && k <= n
    requires |p| == n && q == p[..k] + [Point(x[n], n)] + p[k..]
    requires (forall i :: 0 <= i < k ==> p[i].x <= x[n]) && (k < n ==> x[n] < p[k].x)
    ensures IsSorting(q, x, n + 1)
  {
    forall j: nat | j <= n
      ensures Point(x[j], j) in q
    {
      InsertionKeeps(p, q, x, n, k, j);
    }
    forall i: nat, m: nat | i < m <= n
      ensures q[i].x <= q[m].x && q[i].id != q[m].id
    {
      InsertionOrders(p, q, x, n, k, i, m);
    }
    forall i: nat | i <= n
      ensures q[i].id <= n && q[i].x == x[q[i].id]
    {
      Shifted(p, q, k, Point(x[n], n), i);
    }
  }

  lemma InsertionKeeps(p: seq<Point>, q: seq<Point>, x: seq<nat>, n: nat, k: nat, j: nat)
    requires n < |x| && IsSorting(p, x, n) && k <= n && j <= n
    requires |p| == n && q == p[..k] + [Point(x[n], n)] + p[k..]
    ensures Point(x[j], j) in q
  {
    if j == n {
      Shifted(p, q, k, Point(x[n], n), k);
    } else {
      var i :| 0 <= i < n && p[i] == Point(x[j], j);
      Shifted(p, q, k, Point(x[n], n), if i < k then i else i + 1);
    }
  }

  lemma InsertionOrders(p: seq<Point>, q: seq<Point>, x: seq<nat>, n: nat, k: nat, i: nat, m: nat)
    requires n < |x| && IsSorting(p, x, n) && k <= n && i < m <= n
    requires |p| == n && q == p[..k] + [Point(x[n], n)] + p[k..]
    requires (forall i :: 0 <= i < k ==> p[i].x <= x[n]) && (k < n ==> x[n] < p[k].x)
    ensures q[i].x <= q[m].x && q[i].id != q[m].id
  {
    Shifted(p, q, k, Point(x[n], n), i);
    Shifted(p, q, k, Point(x[n], n), m);
    if i == k {
      assert p[k].x <= p[m - 1].x;
    }
  }

  lemma Shifted(p: seq<Point>, q: seq<Point>, k: nat, pt: Point, i: nat)
    requires k <= |p| && i <= |p| && q == p[..k] + [pt] + p[k..]
    ensures q[i] == if i < k then p[i] else if i == k then pt else p[i - 1]
  {
  }

  lemma {:induction false} PointsAreSorted(x: seq<nat>, n: nat)
    requires n <= |x|
    ensures IsSorting(SortedPoints(x, n), x, n)
  {
    hide IsSorting, Slot, SortedPoints;
    SortedNext(x, n);
    if n > 0 {
      var p := SortedPoints(x, n - 1);
      PointsAreSorted(x, n - 1);
      SortingLength(p, x, n - 1);
      SlotFits(p, x[n - 1]);
      InsertionSorts(p, SortedPoints(x, n), x, n - 1, Slot(p, x[n - 1]));
    } else {
      NothingToSort(x);
    }
  }

  lemma SortedNext(x: seq<nat>, n: nat)
    requires n <= |x|
    ensures SortedPoints(x, 0) == []
    ensures n > 0 ==> var p := SortedPoints(x, n - 1);
      var k := Slot(p, x[n - 1]);
      SortedPoints(x, n) == p[..k] + [Point(x[n - 1], n - 1)] + p[k..]
  {
  }

  lemma NothingToSort(x: seq<nat>)
    ensures IsSorting([], x, 0)
  {
  }

  lemma SortingLength(p: seq<Point>, x: seq<nat>, n: nat)
    requires n <= |x| && IsSorting(p, x, n)
    ensures |p| == n
  {
  }

  /** Two posts share an abscissa exactly when two neighbours in the sorted list do. */
  lemma SortingShowsDuplicates(p: seq<Point>, x: seq<nat>)
    requires IsSorting(p, x, |x|)
    ensures Distinct(x) <==> forall j :: 0 < j < |p| ==> p[j - 1].x != p[j].x
  {
    if Distinct(x) {
      forall j | 0 < j < |p|
        ensures p[j - 1].x != p[j].x
      {
        var i, k := p[j - 1].id, p[j].id;
        assert x[if i < k then i else k] != x[if i < k then k else i];
      }
    } else {
      var i, k :| 0 <= i < k < |x| && x[i] == x[k];
      if forall j :: 0 < j < |p| ==> p[j - 1].x != p[j].x {
        NoSharedAbscissa(p, x, i, k);
      }
    }
  }

  lemma NoSharedAbscissa(p: seq<Point>, x: seq<nat>, i: nat, k: nat)
    requires IsSorting(p, x, |x|) && i < k < |x| && forall j :: 0 < j < |p| ==> p[j - 1].x != p[j].x
    ensures x[i] != x[k]
  {
    var a :| 0 <= a < |p| && p[a] == Point(x[i], i);
    var b :| 0 <= b < |p| && p[b] == Point(x[k], k);
    if a < b {
      StrictlyAscending(p, x, a, b);
    } else {
      StrictlyAscending(p, x, b, a);
    }
  }

  lemma StrictlyAscending(p: seq<Point>, x: seq<nat>, a: nat, b: nat)
    requires IsSorting(p, x, |x|) && a < b < |p| && forall j :: 0 < j < |p| ==> p[j - 1].x != p[j].x
    ensures p[a].x < p[b].x
  {
    assert p[b - 1].x != p[b].x;
    if a < b - 1 {
      assert p[a].x <= p[b - 1].x;
    }
  }

  /** The posts before n that lie closest to x[n] on either side; the results keep their old values if there is none. */
  method Neighbors(x: seq<nat>, n: nat, low0: nat, high0: nat) returns (plow: nat, phigh: nat)
    requires n < |x| && forall i :: 0 <= i <= n ==> x[i] < 65536
    ensures if exists i :: 0 <= i < n && x[i] < x[n] then plow < n && x[plow] < x[n] else plow == low0
    ensures if exists i :: 0 <= i < n && x[i] > x[n] then phigh < n && x[phigh] > x[n] else phigh == high0
    ensures forall i :: 0 <= i < n && x[i] < x[n] ==> x[i] <= x[plow]
    ensures forall i :: 0 <= i < n && x[i] > x[n] ==> x[i] >= x[phigh]
  {
    plow, phigh := low0, high0;
    var low: int, high: int := -1, 65536;
    var i := 0;
    while i < n
      invariant i <= n
      invariant if low == -1 then plow == low0 else plow < i && low == x[plow] < x[n]
      invariant if high == 65536 then phigh == high0 else phigh < i && high == x[phigh] > x[n]
      invariant forall k :: 0 <= k < i && x[k] < x[n] ==> x[k] <= low
      invariant forall k :: 0 <= k < i && x[k] > x[n] ==> x[k] >= high
    {
      if x[i] > low && x[i] < x[n] {
        plow := i;
        low := x[i];
      }
      if x[i] < high && x[i] > x[n] {
        phigh := i;
        high := x[i];
      }
      i := i + 1;
    }
  }

  datatype Setup = Accepted(floor: Floor) | InvalidSetup

  /** What start_decoder makes of the abscissas of one floor: refused exactly when two posts coincide. */
  method SetUpFloor(points: seq<nat>, rangebits: nat, multiplier: nat) returns (r: Setup)
    requires rangebits < 16 && 1 <= multiplier <= 4 && forall i :: 0 <= i < |points| ==> points[i] < Pow2(rangebits)
    ensures r.Accepted? <==> Distinct([0, Pow2(rangebits)] + points)
    ensures r.Accepted? ==> ValidFloor(r.floor) && r.floor.xList == [0, Pow2(rangebits)] + points
    ensures r.Accepted? ==> r.floor.multiplier == multiplier
  {
    hide IsSorting, Distinct, IsOrder, Closest, SortedPoints, Pow2;
    var xList := [0, Pow2(rangebits)] + points;
    var values := |xList|;
    var p := SortedPoints(xList, values);
    PointsAreSorted(xList, values);
    SortingLength(p, xList, values);
    SortingShowsDuplicates(p, xList);
    var j := 1;
    while j < values
      invariant 1 <= j <= values && forall i :: 0 < i < j ==> p[i - 1].x != p[i].x
    {
      if p[j - 1].x == p[j].x {
        return InvalidSetup;
      }
      j := j + 1;
    }
    var order := seq(values, i requires 0 <= i < values => p[i].id);
    OrderFromSorting(p, xList, order);
    XListFits(points, rangebits);
    var neighbors := AllNeighbors(xList);
    r := Accepted(Floor(xList, neighbors, order, multiplier));
  }

  lemma ClosestFound(x: seq<nat>, n: nat, low: nat, high: nat)
    requires n < |x| && low < n && high < n && x[low] < x[n] < x[high]
    requires forall i :: 0 <= i < n && x[i] < x[n] ==> x[i] <= x[low]
    requires forall i :: 0 <= i < n && x[i] > x[n] ==> x[i] >= x[high]
    ensures Closest(x, n, low, high)
  {
  }

  /** The neighbours of all posts but the two ends. */
  method AllNeighbors(xList: seq<nat>) returns (neighbors: seq<(nat, nat)>)
    requires 2 <= |xList| && (forall i :: 0 <= i < |xList| ==> xList[i] < 65536)
    requires forall j :: 2 <= j < |xList| ==> xList[0] < xList[j] < xList[1]
    ensures |neighbors| == |xList|
    ensures forall j :: 2 <= j < |xList| ==> Closest(xList, j, neighbors[j].0, neighbors[j].1)
  {
    neighbors := [(0, 0), (0, 0)];
    var j := 2;
    while j < |xList|
      invariant 2 <= j <= |xList| && |neighbors| == j
      invariant forall i :: 2 <= i < j ==> Closest(xList, i, neighbors[i].0, neighbors[i].1)
    {
      var low, high := Neighbors(xList, j, 0, 0);
      assert xList[0] < xList[j] < xList[1];
      ClosestFound(xList, j, low, high);
      neighbors := neighbors + [(low, high)];
      j := j + 1;
    }
  }

  lemma FitsSixteenBits(k: nat)
    requires k < 16
    ensures Pow2(k) < 65536
  {
    Pow2Monotone(k, 15);
    assert Pow2(3) == 8;
    Pow2Add(3, 3);
    Pow2Add(6, 6);
    Pow2Add(12, 3);
  }

  lemma XListFits(points: seq<nat>, rangebits: nat)
    requires rangebits < 16 && forall i :: 0 <= i < |points| ==> points[i] < Pow2(rangebits)
    requires Distinct([0, Pow2(rangebits)] + points)
    ensures var x := [0, Pow2(rangebits)] + points;
      (forall i :: 0 <= i < |x| ==> x[i] < 65536) && forall j :: 2 <= j < |x| ==> x[0] < x[j] < x[1]
  {
    hide Pow2;
    FitsSixteenBits(rangebits);
    var x := [0, Pow2(rangebits)] + points;
    forall j | 2 <= j < |x|
      ensures x[0] < x[j] < x[1]
    {
      assert x[j] == points[j - 2] && x[0] != x[j];
    }
  }

  lemma OrderFromSorting(p: seq<Point>, x: seq<nat>, order: seq<nat>)
    requires IsSorting(p, x, |x|) && |order| == |x| && forall i :: 0 <= i < |x| ==> order[i] == p[i].id
    requires forall j :: 0 < j < |p| ==> p[j - 1].x != p[j].x
    ensures IsOrder(order, x)
  {
    forall i, k | 0 <= i < k < |order|
      ensures x[order[i]] < x[order[k]]
    {
      StrictlyAscending(p, x, i, k);
    }
    forall j: nat | j < |x|
      ensures j in order
    {
      var i :| 0 <= i < |p| && p[i] == Point(x[j], j);
      assert order[i] == j;
    }
  }
}
