/** A two-dimensional grid coordinate, used both for board cells and for
    direction vectors. Coordinates are exact integers. */
module Points {

  /** A point with an `x` and a `y` slot. */
  datatype Point = Point(x: int, y: int)

  /** The exceptions the point protocol can raise. */
  datatype Error = TypeError | IndexError

  datatype Result<T> = Ok(value: T) | Err(error: Error)

  /** A value on the right-hand side of `==` or `+`. It is either a point or
      some object of another class. */
  datatype Value = PointValue(p: Point) | OtherValue

  /** Construction `Point(x, y)`, with both coordinates optional. */
  function New(x: int := 0, y: int := 0): (p: Point)
    ensures Iter(p) == [x, y]
    ensures GetItem(p, 0) == Ok(x) && GetItem(p, 1) == Ok(y)
  {
    Point(x, y)
  }

  /** `p[index]`. It selects from the slot tuple `('x', 'y')`, so the
      negative indices -2 and -1 also reach `x` and `y`. Any other index is
      an IndexError. */
  function GetItem(p: Point, index: int): (r: Result<int>)
    ensures r.Ok? <==> -2 <= index < 2
    ensures r.Err? ==> r.error == IndexError
    ensures index == 0 || index == -2 ==> r == Ok(p.x)
    ensures index == 1 || index == -1 ==> r == Ok(p.y)
  {
    if index == 0 || index == -2 then Ok(p.x)
    else if index == 1 || index == -1 then Ok(p.y)
    else Err(IndexError)
  }

  /** `p[index] = v`. It writes the slot that `GetItem` reads and leaves the
      other slot alone. The source changes the point in place; here the
      updated point is the result. */
  function SetItem(p: Point, index: int, v: int): (r: Result<Point>)
    ensures r.Ok? <==> -2 <= index < 2
    ensures r.Err? ==> r.error == IndexError
    ensures r.Ok? ==> GetItem(r.value, index) == Ok(v)
    ensures r.Ok? ==> GetItem(r.value, 1 - index % 2) == GetItem(p, 1 - index % 2)
  {
    if index == 0 || index == -2 then Ok(p.(x := v))
    else if index == 1 || index == -1 then Ok(p.(y := v))
    else Err(IndexError)
  }

  /** `a == other`: only a point can equal a point, and only when both
      coordinates agree. */
  function Equals(a: Point, other: Value): (b: bool)
    ensures b <==> other == PointValue(a)
  {
    other.PointValue? && a.x == other.p.x && a.y == other.p.y
  }

  /** `a != other`, defined as the negation of `Equals`. */
  function NotEquals(a: Point, other: Value): (b: bool)
    ensures b <==> other != PointValue(a)
  {
    !Equals(a, other)
  }

  /** `a + other`: a fresh point holding the componentwise sum. Adding
      something that is not a point is a TypeError. */
  function Add(a: Point, other: Value): (r: Result<Point>)
    ensures r.Err? <==> other.OtherValue?
    ensures r.Err? ==> r.error == TypeError
    ensures r.Ok? ==> r.value.x == a.x + other.p.x && r.value.y == a.y + other.p.y
  {
    if other.PointValue? then Ok(Point(a.x + other.p.x, a.y + other.p.y))
    else Err(TypeError)
  }

  /** `len(p)`: the number of items iteration yields. */
  function Len(p: Point): (n: nat)
    ensures n == |Iter(p)|
  {
    2
  }

  /** `iter(p)`, as the list it walks over: the two slots in index order. */
  function Iter(p: Point): (s: seq<int>)
    ensures |s| == 2
    ensures forall i :: 0 <= i < |s| ==> GetItem(p, i) == Ok(s[i])
  {
    [p.x, p.y]
  }

  /** Indexing follows the sequence rule for negative indices: for
      `-len(p) <= i < 0`, `p[i]` is item `i + len(p)` of the iteration, and
      for `0 <= i < len(p)` it is item `i`. */
  lemma IterMatchesIndexing(p: Point)
    ensures forall i :: -(Len(p) as int) <= i < Len(p) ==>
              GetItem(p, i) == Ok(Iter(p)[if i < 0 then i + Len(p) else i])
  {
  }

  /** Addition works slot by slot: `(a + b)[i] == a[i] + b[i]` for every
      valid index. */
  lemma AddByIndex(a: Point, b: Point, i: int)
    requires -2 <= i < 2
    ensures Add(a, PointValue(b)).Ok?
    ensures GetItem(Add(a, PointValue(b)).value, i).value == GetItem(a, i).value + GetItem(b, i).value
  {
  }

  /** Writing back the value a slot already holds gives the same point. */
  lemma SetItemRoundTrip(p: Point, i: int)
    requires -2 <= i < 2
    ensures SetItem(p, i, GetItem(p, i).value) == Ok(p)
  {
  }
}
