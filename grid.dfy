/** Grid cells and the two pure helpers of the transition engine: Manhattan distance and
    one unit step toward a target (x axis first, then y). */
module Grid {

  /** A cell `(x, y)` of the square grid. */
  datatype Pos = Pos(x: int, y: int)

  function Abs(n: int): nat {
    if n < 0 then -n else n
  }

  function Min(a: int, b: int): int { if a <= b then a else b }

  function Max(a: int, b: int): int { if a >= b then a else b }

  /** A cell inside the `size` x `size` grid, as `random.randint(0, size - 1)` draws them. */
  predicate InGrid(p: Pos, size: int) {
    0 <= p.x < size && 0 <= p.y < size
  }

  /** `|x1 - x2| + |y1 - y2|`; zero exactly on equal cells. */
  function Manhattan(a: Pos, b: Pos): (d: nat)
    ensures d == 0 <==> a == b
  {
    Abs(a.x - b.x) + Abs(a.y - b.y)
  }

  lemma ManhattanSymmetric(a: Pos, b: Pos)
    ensures Manhattan(a, b) == Manhattan(b, a)
  {
  }

  lemma ManhattanTriangle(a: Pos, b: Pos, c: Pos)
    ensures Manhattan(a, c) <= Manhattan(a, b) + Manhattan(b, c)
  {
  }

  /** One grid step from `current` toward `target`: along x while the x coordinates differ,
      then along y; `current` itself once the target is reached. */
  function MoveToward(current: Pos, target: Pos): (next: Pos)
    ensures current == target ==> next == current
    ensures current != target ==> Manhattan(next, target) == Manhattan(current, target) - 1
    ensures Manhattan(current, next) == (if current == target then 0 else 1)
    ensures current.x != target.x ==> next.y == current.y
  {
    var x, y := current.x, current.y;
    if x < target.x then Pos(x + 1, y)
    else if x > target.x then Pos(x - 1, y)
    else if y < target.y then Pos(x, y + 1)
    else if y > target.y then Pos(x, y - 1)
    else current
  }

  /** A step toward a target never leaves the box spanned by the two cells, so it never
      leaves the grid when both cells are in it. */
  lemma MoveTowardStaysInGrid(current: Pos, target: Pos, size: int)
    requires InGrid(current, size) && InGrid(target, size)
    ensures InGrid(MoveToward(current, target), size)
  {
  }

  /** `k` steps toward `target`: the route the engine drives a taxi along. */
  function Walk(current: Pos, target: Pos, k: nat): Pos
    decreases k
  {
    if k == 0 then current else Walk(MoveToward(current, target), target, k - 1)
  }

  /** Walking exactly the Manhattan distance reaches the target, and walking fewer steps
      leaves exactly the rest of the distance to go. */
  lemma {:induction false} WalkReaches(current: Pos, target: Pos, k: nat)
    requires k <= Manhattan(current, target)
    ensures Manhattan(Walk(current, target, k), target) == Manhattan(current, target) - k
    decreases k
  {
    if k > 0 {
      WalkReaches(MoveToward(current, target), target, k - 1);
    }
  }
}
