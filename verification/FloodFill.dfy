/** The background of a sprite: what can be reached from its corners without crossing the figure. */
module FloodFill {
  import opened Bytes

  const NEAR_WHITE := 230

  datatype Pixel = Pixel(r: Byte, g: Byte, b: Byte, a: Byte)

  datatype Cell = Cell(x: int, y: int)

  datatype Image = Image(w: nat, h: nat, rows: seq<seq<Pixel>>) {
    ghost predicate Valid() { |rows| == h && forall y :: 0 <= y < h ==> |rows[y]| == w }

    predicate Inside(c: Cell) { 0 <= c.x < w && 0 <= c.y < h }

    predicate IsBackground(c: Cell)
      requires Valid() && Inside(c)
    {
      var p := rows[c.y][c.x];
      p.a == 0 || (p.r >= NEAR_WHITE && p.g >= NEAR_WHITE && p.b >= NEAR_WHITE)
    }

    function Corners(): seq<Cell> { [Cell(0, 0), Cell(w - 1, 0), Cell(0, h - 1), Cell(w - 1, h - 1)] }
  }

  // ---- What should be marked ----

  predicate Adjacent(c: Cell, d: Cell) {
    || (c.y == d.y && (c.x == d.x + 1 || d.x == c.x + 1))
    || (c.x == d.x && (c.y == d.y + 1 || d.y == c.y + 1))
  }

  /** A walk over background pixels from a corner. */
  ghost predicate IsWalk(img: Image, walk: seq<Cell>)
    requires img.Valid()
  {
    && walk != [] && walk[0] in img.Corners()
    && (forall i :: 0 <= i < |walk| ==> img.Inside(walk[i]) && img.IsBackground(walk[i]))
    && (forall i :: 0 < i < |walk| ==> Adjacent(walk[i - 1], walk[i]))
  }

  ghost predicate Reached(img: Image, c: Cell)
    requires img.Valid()
  {
    exists walk :: IsWalk(img, walk) && walk[|walk| - 1] == c
  }

  // ---- The algorithm ----

  const DIRECTIONS: seq<Cell> := [Cell(1, 0), Cell(-1, 0), Cell(0, 1), Cell(0, -1)]

  function Toward(c: Cell, direction: Cell): Cell { Cell(c.x + direction.x, c.y + direction.y) }

  /** Whether c is marked on an array of rows. */
  ghost predicate Marked(bg: array2<bool>, c: Cell)
    requires 0 <= c.y < bg.Length0 && 0 <= c.x < bg.Length1
    reads bg
  {
    bg[c.y, c.x]
  }

  ghost predicate Fits(bg: array2<bool>, img: Image) { bg.Length0 == img.h && bg.Length1 == img.w }

  /** Every background neighbour of c is marked. */
  ghost predicate Surrounded(img: Image, bg: array2<bool>, c: Cell)
    requires img.Valid() && Fits(bg, img)
    reads bg
  {
    forall d {:trigger Marked(bg, d)} :: Adjacent(c, d) && img.Inside(d) && img.IsBackground(d) ==> Marked(bg, d)
  }

  /** What is marked is reached; what is queued is marked; what is no longer queued has its neighbours marked. */
  ghost predicate Progress(img: Image, bg: array2<bool>, q: seq<Cell>, unmarked: set<Cell>, current: set<Cell>)
    requires img.Valid() && Fits(bg, img)
    reads bg
  {
    && (forall c :: c in unmarked <==> img.Inside(c) && !Marked(bg, c))
    && (forall c :: img.Inside(c) && Marked(bg, c) ==> img.IsBackground(c) && Reached(img, c))
    && (forall c :: c in q ==> img.Inside(c) && Marked(bg, c))
    && (forall c :: img.Inside(c) && Marked(bg, c) && c !in q && c !in current ==> Surrounded(img, bg, c))
  }

  /** Marks a background pixel that is reached, and queues it. */
  method Mark(img: Image, bg: array2<bool>, c: Cell, q: seq<Cell>, ghost unmarked: set<Cell>, ghost current: set<Cell>)
    returns (q': seq<Cell>, ghost unmarked': set<Cell>)
    requires img.Valid() && Fits(bg, img) && Progress(img, bg, q, unmarked, current)
    requires img.Inside(c) && img.IsBackground(c) && Reached(img, c)
    modifies bg
    ensures Progress(img, bg, q', unmarked', current) && q' == q + [c] && unmarked' == unmarked - {c}
    ensures forall d :: img.Inside(d) ==> Marked(bg, d) == (d == c || old(Marked(bg, d)))
  {
    bg[c.y, c.x] := true;
    q' := q + [c];
    unmarked' := unmarked - {c};
  }

  lemma StepReaches(img: Image, c: Cell, d: Cell)
    requires img.Valid() && Reached(img, c) && Adjacent(c, d) && img.Inside(d) && img.IsBackground(d)
    ensures Reached(img, d)
  {
    var walk :| IsWalk(img, walk) && walk[|walk| - 1] == c;
    var longer := walk + [d];
    assert IsWalk(img, longer) && longer[|longer| - 1] == d;
  }

  lemma CornerReached(img: Image, c: Cell)
    requires img.Valid() && c in img.Corners() && img.Inside(c) && img.IsBackground(c)
    ensures Reached(img, c)
  {
    assert IsWalk(img, [c]) && [c][0] == c;
  }

  /** When nothing is queued and the corners are marked, every walk is marked to its end. */
  lemma {:induction false} WalkMarked(img: Image, bg: array2<bool>, walk: seq<Cell>, i: nat)
    requires img.Valid() && Fits(bg, img) && IsWalk(img, walk) && i < |walk|
    requires forall c :: c in img.Corners() && img.Inside(c) && img.IsBackground(c) ==> Marked(bg, c)
    requires forall c :: img.Inside(c) && Marked(bg, c) ==> Surrounded(img, bg, c)
    ensures Marked(bg, walk[i])
  {
    if i > 0 {
      WalkMarked(img, bg, walk, i - 1);
      assert Surrounded(img, bg, walk[i - 1]);
    }
  }

  /** The first loop: marks and queues the corners that are background. */
  method MarkCorners(img: Image, bg: array2<bool>, ghost unmarked: set<Cell>)
    returns (q: seq<Cell>, ghost unmarked': set<Cell>)
    requires img.Valid() && img.w > 0 && img.h > 0 && Fits(bg, img) && Progress(img, bg, [], unmarked, {})
    modifies bg
    ensures Progress(img, bg, q, unmarked', {}) && CornersMarked(img, bg)
  {
    q, unmarked' := [], unmarked;
    var corners := img.Corners();
    for i := 0 to 4
      invariant Progress(img, bg, q, unmarked', {})
      invariant forall k :: 0 <= k < i && img.IsBackground(corners[k]) ==> Marked(bg, corners[k])
    {
      if img.IsBackground(corners[i]) {
        CornerReached(img, corners[i]);
        q, unmarked' := Mark(img, bg, corners[i], q, unmarked', {});
      }
    }
  }

  ghost predicate CornersMarked(img: Image, bg: array2<bool>)
    requires img.Valid() && Fits(bg, img)
    reads bg
  {
    forall c :: c in img.Corners() && img.Inside(c) && img.IsBackground(c) ==> Marked(bg, c)
  }

  /** Marks and queues one neighbour d of c, if it is background and new. */
  method TryNeighbour(img: Image, bg: array2<bool>, c: Cell, d: Cell, q: seq<Cell>, ghost unmarked: set<Cell>)
    returns (q': seq<Cell>, ghost unmarked': set<Cell>)
    requires img.Valid() && Fits(bg, img) && img.Inside(c) && Marked(bg, c) && Progress(img, bg, q, unmarked, {c})
    requires Adjacent(c, d)
    modifies bg
    ensures Progress(img, bg, q', unmarked', {c})
    ensures forall e :: img.Inside(e) && old(Marked(bg, e)) ==> Marked(bg, e)
    ensures img.Inside(d) && img.IsBackground(d) ==> Marked(bg, d)
    ensures unmarked' <= unmarked && (unmarked' == unmarked ==> q' == q)
  {
    q', unmarked' := q, unmarked;
    if img.Inside(d) && !bg[d.y, d.x] && img.IsBackground(d) {
      StepReaches(img, c, d);
      assert d in unmarked;
      q', unmarked' := Mark(img, bg, d, q, unmarked, {c});
    }
  }

  /** The body of the main loop: marks and queues the background neighbours of c. */
  method Visit(img: Image, bg: array2<bool>, c: Cell, q: seq<Cell>, ghost unmarked: set<Cell>)
    returns (q': seq<Cell>, ghost unmarked': set<Cell>)
    requires img.Valid() && Fits(bg, img) && img.Inside(c) && Marked(bg, c) && Progress(img, bg, q, unmarked, {c})
    modifies bg
    ensures Progress(img, bg, q', unmarked', {})
    ensures forall e :: img.Inside(e) && old(Marked(bg, e)) ==> Marked(bg, e)
    ensures unmarked' <= unmarked && (unmarked' == unmarked ==> q' == q)
  {
    q', unmarked' := q, unmarked;
    for k := 0 to 4
      invariant Progress(img, bg, q', unmarked', {c})
      invariant forall e :: img.Inside(e) && old(Marked(bg, e)) ==> Marked(bg, e)
      invariant NeighboursMarked(img, bg, c, k)
      invariant unmarked' <= unmarked && (unmarked' == unmarked ==> q' == q)
    {
      q', unmarked' := TryNeighbour(img, bg, c, Toward(c, DIRECTIONS[k]), q', unmarked');
    }
    FourNeighbours(img, bg, c);
  }

  /** The first k neighbours of c are marked, as far as they are background. */
  ghost predicate NeighboursMarked(img: Image, bg: array2<bool>, c: Cell, k: nat)
    requires img.Valid() && Fits(bg, img) && k <= 4
    reads bg
  {
    forall j :: 0 <= j < k ==>
      var d := Toward(c, DIRECTIONS[j]);
      img.Inside(d) && img.IsBackground(d) ==> Marked(bg, d)
  }

  /** Marks exactly the pixels reached from the corners. An image without pixels has no corner to look at. */
  method BackgroundMask(img: Image) returns (ok: bool, bg: array2<bool>)
    requires img.Valid()
    ensures ok <==> img.w > 0 && img.h > 0
    ensures ok ==> fresh(bg) && Fits(bg, img)
    ensures ok ==> forall c :: img.Inside(c) ==> (Marked(bg, c) <==> Reached(img, c))
  {
    bg := new bool[img.h, img.w]((y, x) => false);
    ok := img.w > 0 && img.h > 0;
    if !ok {
      return;
    }
    ghost var unmarked := set x, y | 0 <= x < img.w && 0 <= y < img.h :: Cell(x, y);
    assert forall c :: c in unmarked <==> img.Inside(c);
    var q;
    q, unmarked := MarkCorners(img, bg, unmarked);
    while q != []
      invariant Progress(img, bg, q, unmarked, {}) && CornersMarked(img, bg)
      decreases |unmarked|, |q|
    {
      var c := q[0];
      assert q == [c] + q[1..];
      ghost var before := unmarked;
      q, unmarked := Visit(img, bg, c, q[1..], unmarked);
      SmallerOrSame(unmarked, before);
    }
    AllReachedMarked(img, bg);
  }

  lemma AllReachedMarked(img: Image, bg: array2<bool>)
    requires img.Valid() && Fits(bg, img) && CornersMarked(img, bg)
    requires forall c :: img.Inside(c) && Marked(bg, c) ==> Surrounded(img, bg, c)
    ensures forall c :: img.Inside(c) && Reached(img, c) ==> Marked(bg, c)
  {
    forall c | img.Inside(c) && Reached(img, c)
      ensures Marked(bg, c)
    {
      var walk :| IsWalk(img, walk) && walk[|walk| - 1] == c;
      WalkMarked(img, bg, walk, |walk| - 1);
    }
  }

  lemma FourNeighbours(img: Image, bg: array2<bool>, c: Cell)
    requires img.Valid() && Fits(bg, img)
    requires NeighboursMarked(img, bg, c, 4)
    ensures Surrounded(img, bg, c)
  {
    forall d | Adjacent(c, d) && img.Inside(d) && img.IsBackground(d)
      ensures Marked(bg, d)
    {
      var j := if d.x == c.x + 1 then 0 else if d.x + 1 == c.x then 1 else if d.y == c.y + 1 then 2 else 3;
      assert Toward(c, DIRECTIONS[j]) == d;
    }
  }

  lemma SmallerOrSame(a: set<Cell>, b: set<Cell>)
    requires a <= b
    ensures |a| <= |b| && (a != b ==> |a| < |b|)
  {
    assert b == a + (b - a);
    assert a != b ==> b - a != {};
  }
}
