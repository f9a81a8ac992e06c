/** The board the snake lives on: a torus of `(width + 1) x (height + 1)`
    cells, the four unit directions, the wrap-around step, and the counting
    facts behind target placement. */
module Board {
  import opened Points

  const Up := Point(0, 1)
  const Down := Point(0, -1)
  const Right := Point(1, 0)
  const Left := Point(-1, 0)

  /** One of the four unit direction vectors. */
  predicate IsDirection(d: Point)
  {
    d == Up || d == Down || d == Right || d == Left
  }

  /** The largest cell index along an axis covered by `matrices` 8x8 LED
      matrices: `WIDTH = 8 * MATRIX_WIDTH - 1`. */
  function Extent(matrices: nat): (e: int)
    ensures matrices >= 1 ==> e >= 7
    ensures e + 1 == 8 * matrices
  {
    8 * matrices - 1
  }

  /** The cell lies in `[0, width] x [0, height]`. */
  predicate OnBoard(p: Point, width: int, height: int)
  {
    0 <= p.x <= width && 0 <= p.y <= height
  }

  /** The number of cells on the board. */
  function BoardSize(width: nat, height: nat): nat
  {
    (width + 1) * (height + 1)
  }

  /** Wrap one coordinate back onto `[0, max]`: one past the far edge goes
      to 0, one before 0 goes to the far edge. Only a single excursion is
      corrected, which is all a unit step can cause. */
  function WrapAxis(v: int, max: nat): (r: int)
    ensures -1 <= v <= max + 1 ==> 0 <= r <= max
    ensures -1 <= v <= max + 1 ==> r == v % (max + 1)
    ensures 0 <= v <= max ==> r == v
  {
    if v > max then v - (max + 1)
    else if v < 0 then v + (max + 1)
    else v
  }

  /** The cell the head reaches after one step in direction `dir` on the
      torus: the sum `head + dir`, wrapped independently on each axis. */
  function Step(head: Point, dir: Point, width: nat, height: nat): (p: Point)
    ensures OnBoard(head, width, height) && IsDirection(dir) ==> OnBoard(p, width, height)
    ensures OnBoard(head, width, height) && IsDirection(dir) ==>
              p == Point((head.x + dir.x) % (width + 1), (head.y + dir.y) % (height + 1))
  {
    var sum := Add(head, PointValue(dir)).value;
    Point(WrapAxis(sum.x, width), WrapAxis(sum.y, height))
  }

  /** Leaving the board over any edge re-enters it at the opposite edge. */
  lemma StepWrapsAtEdges(width: nat, height: nat, x: int, y: int)
    requires 0 <= x <= width && 0 <= y <= height
    ensures Step(Point(width, y), Right, width, height) == Point(0, y)
    ensures Step(Point(0, y), Left, width, height) == Point(width, y)
    ensures Step(Point(x, height), Up, width, height) == Point(x, 0)
    ensures Step(Point(x, 0), Down, width, height) == Point(x, height)
  {
  }

  /** The body cells are pairwise distinct. */
  predicate Distinct(s: seq<Point>)
  {
    forall i, j :: 0 <= i < j < |s| ==> s[i] != s[j]
  }

  /** Every body cell is on the board. */
  predicate AllOnBoard(s: seq<Point>, width: int, height: int)
  {
    forall i :: 0 <= i < |s| ==> OnBoard(s[i], width, height)
  }

  /** The set of cells a body occupies. */
  function Cells(s: seq<Point>): set<Point>
  {
    set p | p in s
  }

  /** A body without repeated cells occupies exactly `|s|` cells. */
  lemma {:induction false} DistinctCells(s: seq<Point>)
    requires Distinct(s)
    ensures |Cells(s)| == |s|
  {
    if |s| > 0 {
      var rest := s[1..];
      assert Distinct(rest) by {
        forall i, j | 0 <= i < j < |rest| ensures rest[i] != rest[j] {
          assert rest[i] == s[i + 1] && rest[j] == s[j + 1];
        }
      }
      DistinctCells(rest);
      assert Cells(s) == Cells(rest) + {s[0]};
      assert s[0] !in Cells(rest) by {
        forall k | 0 <= k < |rest| ensures rest[k] != s[0] {
          assert rest[k] == s[k + 1];
        }
      }
    }
  }

  /** The cells `(0, y) .. (w, y)`. */
  function Row(w: int, y: int): set<Point>
    decreases w + 1
  {
    if w < 0 then {} else Row(w - 1, y) + {Point(w, y)}
  }

  lemma {:induction false} RowFacts(w: int, y: int)
    requires w >= -1
    ensures |Row(w, y)| == w + 1
    ensures forall p :: p in Row(w, y) <==> 0 <= p.x <= w && p.y == y
    decreases w + 1
  {
    if w >= 0 {
      RowFacts(w - 1, y);
      assert Point(w, y) !in Row(w - 1, y);
    }
  }

  /** The cells of rows `0 .. h`, each `0 .. w` wide. */
  function Grid(w: int, h: int): set<Point>
    decreases h + 1
  {
    if h < 0 then {} else Grid(w, h - 1) + Row(w, h)
  }

  lemma {:induction false} GridFacts(w: nat, h: int)
    requires h >= -1
    ensures |Grid(w, h)| == (w + 1) * (h + 1)
    ensures forall p :: p in Grid(w, h) <==> OnBoard(p, w, h)
    decreases h + 1
  {
    if h >= 0 {
      GridFacts(w, h - 1);
      RowFacts(w, h);
      assert Grid(w, h - 1) * Row(w, h) == {};
      assert (w + 1) * h + (w + 1) == (w + 1) * (h + 1);
    }
  }

  lemma SubsetCard(a: set<Point>, b: set<Point>)
    requires a <= b
    ensures |a| <= |b|
  {
    assert b == a + (b - a);
    assert a * (b - a) == {};
  }

  /** Some board cell is not occupied by `body`. */
  ghost predicate HasFreeCell(body: seq<Point>, width: int, height: int)
  {
    exists c :: OnBoard(c, width, height) && c !in body
  }

  /** Pigeonhole: a valid body leaves a free cell exactly when it is shorter
      than the board has cells. A snake covering the whole board leaves no
      cell for a new target. */
  lemma FreeCellIffRoom(body: seq<Point>, width: nat, height: nat)
    requires Distinct(body) && AllOnBoard(body, width, height)
    ensures HasFreeCell(body, width, height) <==> |body| < BoardSize(width, height)
  {
    var cells := Cells(body);
    var grid := Grid(width, height);
    DistinctCells(body);
    GridFacts(width, height);
    assert cells <= grid;
    if HasFreeCell(body, width, height) {
      var c :| OnBoard(c, width, height) && c !in body;
      SubsetCard(cells, grid - {c});
    }
    if |body| < BoardSize(width, height) {
      if grid - cells == {} {
        SubsetCard(grid, cells);
        assert false;
      }
      var c :| c in grid - cells;
      assert OnBoard(c, width, height) && c !in body;
    }
  }

  /** Every draw of the random sampler is a board cell, as
      `Point(randrange(WIDTH + 1), randrange(HEIGHT + 1))` always is. */
  predicate DrawsOnBoard(draws: seq<Point>, width: int, height: int)
  {
    forall i :: 0 <= i < |draws| ==> OnBoard(draws[i], width, height)
  }

  /** Some draw misses the body, so rejection sampling stops within `draws`. */
  predicate SomeDrawFree(draws: seq<Point>, body: seq<Point>)
  {
    exists i :: 0 <= i < |draws| && draws[i] !in body
  }

  /** The index of the draw that rejection sampling keeps: the first one
      that is not a body cell. */
  function FirstFree(draws: seq<Point>, body: seq<Point>): (k: nat)
    requires SomeDrawFree(draws, body)
    ensures k < |draws| && draws[k] !in body
    ensures forall j :: 0 <= j < k ==> draws[j] in body
    decreases |draws|
  {
    if draws[0] !in body then 0
    else
      assert SomeDrawFree(draws[1..], body) by {
        var i :| 0 <= i < |draws| && draws[i] !in body;
        assert draws[1..][i - 1] == draws[i];
      }
      1 + FirstFree(draws[1..], body)
  }

  /** Draws that end the sampling exist only while the board has a free
      cell, so with a full board the sampling never stops. */
  lemma SamplingNeedsFreeCell(draws: seq<Point>, body: seq<Point>, width: int, height: int)
    requires DrawsOnBoard(draws, width, height) && SomeDrawFree(draws, body)
    ensures HasFreeCell(body, width, height)
  {
    var k := FirstFree(draws, body);
    assert OnBoard(draws[k], width, height);
  }
}
