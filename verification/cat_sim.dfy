/** The scripted simulation: a 50-pixel cat centred on the screen chases a
    30-pixel food square centred at (100, 100). Each frame the cat senses the
    offset between the two top-left corners and moves one pixel toward the
    food on each axis independently. The food never moves. */
module CatSim {
  import opened Numeric
  import opened Rects

  const ScreenWidth: int := 800
  const ScreenHeight: int := 600
  const CatSize: nat := 50
  const FoodSize: nat := 30
  const FoodCenterX: int := 100
  const FoodCenterY: int := 100

  /** `Cat(x, y)`: a cat-sized square centred at (cx, cy). */
  function NewCat(cx: int, cy: int): (c: Rect)
    ensures c.w == CatSize && c.h == CatSize
    ensures c.CenterX() == cx && c.CenterY() == cy
  {
    CenteredAt(cx, cy, CatSize, CatSize)
  }

  /** `Food(x, y)`: a food-sized square centred at (cx, cy). */
  function NewFood(cx: int, cy: int): (f: Rect)
    ensures f.w == FoodSize && f.h == FoodSize
    ensures f.CenterX() == cx && f.CenterY() == cy
  {
    CenteredAt(cx, cy, FoodSize, FoodSize)
  }

  /** The cat created by `main`, centred on the screen (integer halves). */
  function StartCat(): (c: Rect)
    ensures c.x == 375 && c.y == 275
  {
    assert CatSize / 2 == 25 && ScreenWidth / 2 == 400 && ScreenHeight / 2 == 300;
    NewCat(ScreenWidth / 2, ScreenHeight / 2)
  }

  /** The food created by `main`. */
  function StartFood(): (f: Rect)
    ensures f.x == 85 && f.y == 85
  {
    assert FoodSize / 2 == 15;
    NewFood(FoodCenterX, FoodCenterY)
  }

  /** `sense_food`: the offset that carries the cat's top-left corner onto
      the food's top-left corner (corners, not centres). */
  function SenseFood(cat: Rect, food: Rect): (d: (int, int))
    ensures cat.x + d.0 == food.x && cat.y + d.1 == food.y
  {
    (food.x - cat.x, food.y - cat.y)
  }

  /** The cat's corner coincides with the food's. */
  predicate Caught(cat: Rect, food: Rect) {
    cat.x == food.x && cat.y == food.y
  }

  /** One frame of the loop: a one-pixel step toward the food on each axis,
      diagonal when both offsets are nonzero. Each nonzero offset shrinks by
      exactly one, a zero offset stays zero, and the cat never overshoots. */
  function Tick(cat: Rect, food: Rect): (c: Rect)
    ensures c.w == cat.w && c.h == cat.h
    ensures c.x - cat.x == Sign(SenseFood(cat, food).0)
    ensures c.y - cat.y == Sign(SenseFood(cat, food).1)
    ensures Abs(food.x - c.x) == Max(Abs(food.x - cat.x) - 1, 0)
    ensures Abs(food.y - c.y) == Max(Abs(food.y - cat.y) - 1, 0)
    ensures cat.x <= food.x ==> cat.x <= c.x <= food.x
    ensures food.x <= cat.x ==> food.x <= c.x <= cat.x
    ensures cat.y <= food.y ==> cat.y <= c.y <= food.y
    ensures food.y <= cat.y ==> food.y <= c.y <= cat.y
  {
    var (dx, dy) := SenseFood(cat, food);
    var x := if dx > 0 then cat.x + 1 else if dx < 0 then cat.x - 1 else cat.x;
    var y := if dy > 0 then cat.y + 1 else if dy < 0 then cat.y - 1 else cat.y;
    cat.(x := x, y := y)
  }

  /** The offset left on one axis after `n` frames from offset `d`: it moves
      toward zero by one per frame and then stays there. */
  function Remaining(d: int, n: nat): int {
    if d >= 0 then Max(d - n, 0) else -Max(-d - n, 0)
  }

  /** The cat after `n` frames of the loop. */
  function Ticks(cat: Rect, food: Rect, n: nat): (c: Rect)
    ensures c.w == cat.w && c.h == cat.h
    ensures food.x - c.x == Remaining(food.x - cat.x, n)
    ensures food.y - c.y == Remaining(food.y - cat.y, n)
    decreases n
  {
    if n == 0 then cat else Tick(Ticks(cat, food, n - 1), food)
  }

  /** The offsets never grow: frame by frame each shrinks by one until zero. */
  lemma OffsetsNeverGrow(cat: Rect, food: Rect, m: nat, n: nat)
    requires m <= n
    ensures Abs(food.x - Ticks(cat, food, n).x) <= Abs(food.x - Ticks(cat, food, m).x)
    ensures Abs(food.y - Ticks(cat, food, n).y) <= Abs(food.y - Ticks(cat, food, m).y)
  {
  }

  /** The cat's corner reaches the food's exactly when the number of frames
      reaches the larger of the two initial offsets, and stays there. */
  lemma CaughtIff(cat: Rect, food: Rect, n: nat)
    ensures Caught(Ticks(cat, food, n), food) <==>
            n >= Max(Abs(food.x - cat.x), Abs(food.y - cat.y))
  {
  }

  /** Once caught, a frame leaves the cat where it is. */
  lemma CaughtIsStable(cat: Rect, food: Rect)
    requires Caught(cat, food)
    ensures Tick(cat, food) == cat
  {
  }

  /** From the positions `main` creates, the cat's corner first reaches the
      food's after 290 frames, and stays there for every later frame. */
  lemma StartCatchesAfter290(n: nat)
    ensures Caught(Ticks(StartCat(), StartFood(), n), StartFood()) <==> n >= 290
  {
    CaughtIff(StartCat(), StartFood(), n);
  }

  /** Runs the loop until the cat's corner reaches the food's and reports how
      many frames that took. */
  method TicksUntilCaught(cat: Rect, food: Rect) returns (n: nat, c: Rect)
    ensures c == Ticks(cat, food, n)
    ensures Caught(c, food)
    ensures n == Max(Abs(food.x - cat.x), Abs(food.y - cat.y))
    ensures forall k: nat :: k < n ==> !Caught(Ticks(cat, food, k), food)
  {
    n, c := 0, cat;
    while !Caught(c, food)
      invariant c == Ticks(cat, food, n)
      invariant n <= Max(Abs(food.x - cat.x), Abs(food.y - cat.y))
      invariant forall k: nat :: k < n ==> !Caught(Ticks(cat, food, k), food)
      decreases Max(Abs(food.x - c.x), Abs(food.y - c.y))
    {
      CaughtIff(cat, food, n);
      c := Tick(c, food);
      n := n + 1;
    }
    CaughtIff(cat, food, n);
  }
}
