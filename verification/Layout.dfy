/** Where the topology diagram puts its pills and lines
    (dashboard/src/itk/topology.ts, lines 48-65, 84-106 and 157-168). */
module Layout {

  datatype Point = Point(x: real, y: real)

  datatype Size = Size(w: real, h: real)

  /** A viewBox: top-left corner and extent. */
  datatype View = View(x: real, y: real, w: real, h: real)

  const BASE_HEIGHT := 300.0
  const SPREAD := 200.0
  const MIN_GAP := 16.0
  const PADDING := 36.0

  function Max(a: real, b: real): real {
    if a >= b then a else b
  }

  /** `k` times `x`, as a sum. */
  function Times(k: nat, x: real): real {
    if k == 0 then 0.0 else Times(k - 1, x) + x
  }

  lemma {:induction false} TimesIsProduct(k: nat, x: real)
    ensures Times(k, x) == k as real * x
  {
    if k > 0 {
      TimesIsProduct(k - 1, x);
      assert k as real * x == (k - 1) as real * x + x;
    }
  }

  lemma {:induction false} TimesGap(k: nat, m: nat, x: real)
    requires k < m && x >= 0.0
    ensures Times(k, x) + x <= Times(m, x)
  {
    if k < m - 1 {
      TimesGap(k, m - 1, x);
    }
  }

  /** Line 86: a card for a pair has larger pills. */
  function Box(n: nat): Size {
    if n == 2 then Size(140.0, 34.0) else Size(110.0, 28.0)
  }

  /** Lines 96-99: between adjacent peers. */
  function Step(n: nat): real {
    if n > 2 then Max(SPREAD / (n - 2) as real, Box(n).h + MIN_GAP) else 0.0
  }

  function Span(n: nat): real {
    if n > 2 then Times(n - 2, Step(n)) else 0.0
  }

  function Height(n: nat): real {
    Max(BASE_HEIGHT, Span(n) + PADDING * 2.0)
  }

  /** Line 167. */
  function ViewBox(n: nat): View {
    if n == 2 then View(0.0, 105.0, 400.0, 90.0) else View(0.0, 0.0, 400.0, Height(n))
  }

  /** Which row a peer has: its index, less one if it comes after the root. */
  function Row(root: nat, index: nat): nat
    requires index != root
  {
    if index < root then index else index - 1
  }

  function Position(n: nat, root: nat, index: nat): Point {
    if index == root then Point(80.0, Height(n) / 2.0)
    else Point(320.0, Height(n) / 2.0 - Span(n) / 2.0 + Times(Row(root, index), Step(n)))
  }

  /** Lines 89-106: the root is the first id that reads "current", or else the
      first; the others stack down the right in order. */
  method LayOut(isCurrent: seq<bool>) returns (root: nat, positions: map<nat, Point>)
    ensures isCurrent != [] ==> root < |isCurrent|
    ensures root < |isCurrent| && isCurrent[root] ==> forall i :: 0 <= i < root ==> !isCurrent[i]
    ensures (exists i :: 0 <= i < |isCurrent| && isCurrent[i]) ==> root < |isCurrent| && isCurrent[root]
    ensures forall i: nat :: i < |isCurrent| ==> i in positions && positions[i] == Position(|isCurrent|, root, i)
  {
    var n := |isCurrent|;
    root := 0;
    while root < n && !isCurrent[root]
      invariant root <= n && forall i :: 0 <= i < root ==> !isCurrent[i]
    {
      root := root + 1;
    }
    if root == n {
      root := 0;
    }
    positions := map[root := Point(80.0, Height(n) / 2.0)];
    var row, step := 0, Step(n);
    for i := 0 to n
      invariant row == if i <= root then i else i - 1
      invariant root in positions && positions[root] == Position(n, root, root)
      invariant forall j: nat :: j < i ==> j in positions && positions[j] == Position(n, root, j)
    {
      if i != root {
        TimesIsProduct(row, step);
        positions := positions[i := Point(320.0, Height(n) / 2.0 - Span(n) / 2.0 + row as real * step)];
        assert positions[i] == Position(n, root, i);
        row := row + 1;
      }
    }
  }

  // --------------------------------------------------------------- the diagram

  /** A pill of size `box` centred on `p`. */
  predicate Inside(p: Point, box: Size, view: View) {
    && view.x <= p.x - box.w / 2.0 && p.x + box.w / 2.0 <= view.x + view.w
    && view.y <= p.y - box.h / 2.0 && p.y + box.h / 2.0 <= view.y + view.h
  }

  predicate Apart(p: Point, q: Point, box: Size, gap: real) {
    || p.x + box.w + gap <= q.x || q.x + box.w + gap <= p.x
    || p.y + box.h + gap <= q.y || q.y + box.h + gap <= p.y
  }

  lemma StepIsEnough(n: nat)
    requires n > 2
    ensures Step(n) >= Box(n).h + MIN_GAP
  {
  }

  /** Peers stay the height of a pill and the least gap from each other, and
      clear of the root, however many there are. */
  lemma NodesApart(n: nat, root: nat, i: nat, j: nat)
    requires root < n && i < j < n
    ensures Apart(Position(n, root, i), Position(n, root, j), Box(n), MIN_GAP)
    ensures i != root && j != root ==>
      Position(n, root, i).y + Box(n).h + MIN_GAP <= Position(n, root, j).y
  {
    if i != root && j != root {
      StepIsEnough(n);
      TimesGap(Row(root, i), Row(root, j), Step(n));
    }
  }

  /** Every pill lies within the drawing, and peers keep the breathing room. */
  lemma NodesInView(n: nat, root: nat, i: nat)
    requires root < n && i < n
    ensures Inside(Position(n, root, i), Box(n), ViewBox(n))
    ensures i != root && n != 2 ==>
      ViewBox(n).y + PADDING <= Position(n, root, i).y <= ViewBox(n).y + ViewBox(n).h - PADDING
  {
    if i != root && n > 2 {
      StepIsEnough(n);
      var row, last := Row(root, i), n - 2;
      if row < last {
        TimesGap(row, last, Step(n));
      }
      if row > 0 {
        TimesGap(0, row, Step(n));
      }
    }
  }

  /** How tight the layout is: peers are centred on the root and spread out far
      enough, no further than the least gap demands; the drawing is no taller than
      usual unless the peers fill it. */
  lemma LayoutIsTight(n: nat, root: nat, first: nat, last: nat)
    requires root < n && first < n && last < n && n > 1
    requires first != root && last != root && Row(root, first) == 0 && Row(root, last) == n - 2
    ensures var r, p, q := Position(n, root, root), Position(n, root, first), Position(n, root, last);
      && r.x < p.x && p.x == q.x && p.y + q.y == 2.0 * r.y
      && (n > 2 ==> q.y - p.y >= SPREAD && (q.y - p.y == SPREAD || Step(n) == Box(n).h + MIN_GAP))
      && (ViewBox(n).h == BASE_HEIGHT || ViewBox(n).h == 90.0
          || (p.y == PADDING && q.y == ViewBox(n).h - PADDING))
  {
    if n > 2 {
      StepTimes(n);
    }
  }

  lemma StepTimes(n: nat)
    requires n > 2
    ensures Span(n) >= SPREAD && (Span(n) == SPREAD || Step(n) == Box(n).h + MIN_GAP)
  {
    var k, s := (n - 2) as real, Step(n);
    TimesIsProduct(n - 2, s);
    var even := SPREAD / k;
    assert k * even == SPREAD;
    if s != even {
      assert (s - even) * k >= 0.0;
      assert s * k == (s - even) * k + even * k;
    }
  }

  // ---------------------------------------------------------------- the lines

  function Sign(x: real): real {
    if x > 0.0 then 1.0 else if x < 0.0 then -1.0 else 0.0
  }

  /** `attachPoint`. */
  function AttachPoint(from: Point, to: Point, box: Size): Point {
    if to.x == from.x then Point(from.x, from.y + Sign(to.y - from.y) * (box.h / 2.0))
    else Point(from.x + Sign(to.x - from.x) * (box.w / 2.0), from.y)
  }

  /** A point a fraction `t` of the way along a line. */
  function Along(a: Point, b: Point, t: real): Point {
    Point(a.x + t * (b.x - a.x), a.y + t * (b.y - a.y))
  }

  predicate Covers(p: Point, box: Size, q: Point) {
    && p.x - box.w / 2.0 < q.x < p.x + box.w / 2.0
    && p.y - box.h / 2.0 < q.y < p.y + box.h / 2.0
  }

  lemma Fraction(t: real, d: real)
    requires 0.0 <= t <= 1.0 && d >= 0.0
    ensures 0.0 <= t * d <= d && t * (-d) == -(t * d)
  {
    var rest := 1.0 - t;
    assert rest * d >= 0.0;
    assert rest * d + t * d == d;
  }

  /** A line between the root and a peer touches no pill on its way, whichever
      end it is drawn from. */
  lemma LinesClear(n: nat, root: nat, peer: nat, t: real, k: nat)
    requires root < n && peer < n && k < n && peer != root && 0.0 <= t <= 1.0
    ensures var a, b := Position(n, root, root), Position(n, root, peer);
      var start, end := AttachPoint(a, b, Box(n)), AttachPoint(b, a, Box(n));
      && start.x < end.x
      && !Covers(Position(n, root, k), Box(n), Along(start, end, t))
      && !Covers(Position(n, root, k), Box(n), Along(end, start, t))
  {
    var a, b := Position(n, root, root), Position(n, root, peer);
    var start, end := AttachPoint(a, b, Box(n)).x, AttachPoint(b, a, Box(n)).x;
    Fraction(t, end - start);
    assert start - end == -(end - start);
  }

  // ------------------------------------------------- lines between two peers

  /** Peers come down the column in the order of their indices. */
  lemma Below(n: nat, root: nat, i: nat, j: nat)
    requires root < n && i < n && j < n && i != root && j != root && Row(root, i) <= Row(root, j)
    ensures i == j || Position(n, root, i).y + Box(n).h + MIN_GAP <= Position(n, root, j).y
  {
    if i < j {
      NodesApart(n, root, i, j);
    }
  }

  /** The pill next below peer `i`. */
  function NextPeer(root: nat, i: nat): nat {
    if i + 1 == root then i + 2 else i + 1
  }

  /** A line between two peers runs down their column. */
  lemma PeerLine(n: nat, root: nat, i: nat, j: nat)
    requires root < n && i < j < n && i != root && j != root
    ensures var a, b := Position(n, root, i), Position(n, root, j);
      && AttachPoint(a, b, Box(n)) == Point(320.0, a.y + Box(n).h / 2.0)
      && AttachPoint(b, a, Box(n)) == Point(320.0, b.y - Box(n).h / 2.0)
      && a.y + Box(n).h / 2.0 < b.y - Box(n).h / 2.0
  {
    NodesApart(n, root, i, j);
  }

  lemma ClearBetweenAdjacent(n: nat, root: nat, i: nat, j: nat, k: nat, y: real)
    requires root < n && i < j < n && i != root && j != root && k < n && Row(root, j) == Row(root, i) + 1
    requires Position(n, root, i).y + Box(n).h / 2.0 <= y <= Position(n, root, j).y - Box(n).h / 2.0
    ensures !Covers(Position(n, root, k), Box(n), Point(320.0, y))
  {
    if k != root {
      if Row(root, k) <= Row(root, i) {
        Below(n, root, k, i);
      } else {
        Below(n, root, j, k);
      }
    }
  }

  /** The next peer lies on the line to any further one. */
  lemma NextPeerBlocks(n: nat, root: nat, i: nat, j: nat)
    requires root < n && i < j < n && i != root && j != root && Row(root, j) != Row(root, i) + 1
    ensures var k := NextPeer(root, i); var p := Position(n, root, k);
      && k < n && Covers(p, Box(n), Point(320.0, p.y))
      && Position(n, root, i).y + Box(n).h / 2.0 <= p.y <= Position(n, root, j).y - Box(n).h / 2.0
  {
    var k := NextPeer(root, i);
    NodesApart(n, root, i, k);
    NodesApart(n, root, k, j);
  }

  /** It is clear of every pill, all the way down, exactly when no third peer lies
      between the two. */
  lemma PeerLineClearIffAdjacent(n: nat, root: nat, i: nat, j: nat)
    requires root < n && i < j < n && i != root && j != root
    ensures var a, b := Position(n, root, i), Position(n, root, j);
      var start, end := AttachPoint(a, b, Box(n)), AttachPoint(b, a, Box(n));
      && start.x == end.x && start.y < end.y
      && ((forall y: real, k: nat :: start.y <= y <= end.y && k < n ==>
             !Covers(Position(n, root, k), Box(n), Point(start.x, y)))
          <==> Row(root, j) == Row(root, i) + 1)
  {
    var a, b := Position(n, root, i), Position(n, root, j);
    var start, end := AttachPoint(a, b, Box(n)), AttachPoint(b, a, Box(n));
    PeerLine(n, root, i, j);
    if Row(root, j) == Row(root, i) + 1 {
      forall y: real, k: nat | start.y <= y <= end.y && k < n
        ensures !Covers(Position(n, root, k), Box(n), Point(start.x, y))
      {
        ClearBetweenAdjacent(n, root, i, j, k, y);
      }
    } else {
      NextPeerBlocks(n, root, i, j);
    }
  }

  /** Each line ends in the middle of the face of its pill that is turned towards
      the other. */
  lemma AttachedToPill(from: Point, to: Point, box: Size)
    requires from != to && box.w > 0.0 && box.h > 0.0
    ensures var p := AttachPoint(from, to, box);
      && !Covers(from, box, p)
      && (from.x == to.x ==>
            p == Point(from.x, if to.y > from.y then from.y + box.h / 2.0 else from.y - box.h / 2.0))
      && (from.x != to.x ==>
            p == Point(if to.x > from.x then from.x + box.w / 2.0 else from.x - box.w / 2.0, from.y))
  {
  }
}
