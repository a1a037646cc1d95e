/** The open-field reinforcement-learning environment `CatEnv`: a 50-pixel
    cat and a 30-pixel food square on an 800×600 screen. `Step` moves the
    cat four pixels in one of four directions, notes whether it left the
    screen, clamps it back on, and pays 1000 on reaching the food or a small
    distance-and-wall penalty otherwise. `Reset` drops both squares at
    random on-screen positions, supplied here as a `Spawn` record. */
module CatEnv {
  import opened Numeric
  import opened Rects

  const ScreenWidth: int := 800
  const ScreenHeight: int := 600
  const CatSize: nat := 50
  const FoodSize: nat := 30
  const MoveSpeed: int := 4

  /** Upper bound of every observation component: the larger screen side. */
  const ObsHigh: int := Max(ScreenWidth, ScreenHeight)

  const CatchReward: real := 1000.0
  const WallPenalty: real := 5.0
  const DistanceScale: real := 1000.0

  datatype Env = Env(cat: Rect, food: Rect)

  predicate WellSized(e: Env) {
    e.cat.w == CatSize && e.cat.h == CatSize &&
    e.food.w == FoodSize && e.food.h == FoodSize
  }

  /** The whole rectangle lies on the screen. */
  predicate OnScreen(r: Rect) {
    0 <= r.Left() && r.Right() <= ScreenWidth &&
    0 <= r.Top() && r.Bottom() <= ScreenHeight
  }

  /** The invariant every reachable environment keeps. */
  predicate Valid(e: Env) {
    WellSized(e) && OnScreen(e.cat) && OnScreen(e.food)
  }

  /** The state the constructor leaves: both squares at the origin. */
  function Initial(): (e: Env)
    ensures Valid(e)
    ensures e.cat.x == 0 && e.cat.y == 0 && e.food.x == 0 && e.food.y == 0
    ensures Colliderect(e.cat, e.food)
  {
    Env(Rect(0, 0, CatSize, CatSize), Rect(0, 0, FoodSize, FoodSize))
  }

  // ---------------------------------------------------------------------
  // Observation
  // ---------------------------------------------------------------------

  /** The declared observation box: four components, each in [0, ObsHigh]. */
  predicate InObservationBox(obs: seq<int>) {
    |obs| == 4 && forall i :: 0 <= i < |obs| ==> 0 <= obs[i] <= ObsHigh
  }

  /** `_get_obs`: the top-left corners of the cat and of the food. */
  function Observe(e: Env): (obs: seq<int>)
    ensures |obs| == 4
    ensures obs[0] == e.cat.Left() && obs[1] == e.cat.Top()
    ensures obs[2] == e.food.Left() && obs[3] == e.food.Top()
    ensures Valid(e) ==> InObservationBox(obs)
  {
    [e.cat.x, e.cat.y, e.food.x, e.food.y]
  }

  /** For correctly sized squares the observation is the whole state: two
      environments that look the same are the same. */
  lemma ObservationDeterminesState(e1: Env, e2: Env)
    requires WellSized(e1) && WellSized(e2)
    requires Observe(e1) == Observe(e2)
    ensures e1 == e2
  {
  }

  // ---------------------------------------------------------------------
  // Reset
  // ---------------------------------------------------------------------

  /** The four draws of `np.random.randint` made by `reset`. */
  datatype Spawn = Spawn(catX: int, catY: int, foodX: int, foodY: int)

  /** `randint(lo, hi)` returns a value in [lo, hi): the upper bound is
      exclusive. */
  predicate RandIntRange(v: int, lo: int, hi: int) {
    lo <= v < hi
  }

  predicate ValidSpawn(s: Spawn) {
    RandIntRange(s.catX, 0, ScreenWidth - CatSize) &&
    RandIntRange(s.catY, 0, ScreenHeight - CatSize) &&
    RandIntRange(s.foodX, 0, ScreenWidth - FoodSize) &&
    RandIntRange(s.foodY, 0, ScreenHeight - FoodSize)
  }

  datatype ResetResult = ResetResult(env: Env, obs: seq<int>)

  /** `reset`: moves both squares to the drawn corners and keeps their sizes. */
  function Reset(e: Env, s: Spawn): (r: ResetResult)
    requires ValidSpawn(s)
    ensures r.env.cat.w == e.cat.w && r.env.cat.h == e.cat.h
    ensures r.env.food.w == e.food.w && r.env.food.h == e.food.h
    ensures 0 <= r.env.cat.x <= 749 && 0 <= r.env.cat.y <= 549
    ensures 0 <= r.env.food.x <= 769 && 0 <= r.env.food.y <= 569
    ensures r.env.cat.x == s.catX && r.env.cat.y == s.catY
    ensures r.env.food.x == s.foodX && r.env.food.y == s.foodY
    ensures r.obs == Observe(r.env)
    ensures r.obs == [s.catX, s.catY, s.foodX, s.foodY]
    ensures InObservationBox(r.obs)
    ensures WellSized(e) ==> Valid(r.env)
  {
    var env := Env(e.cat.(x := s.catX, y := s.catY), e.food.(x := s.foodX, y := s.foodY));
    ResetResult(env, Observe(env))
  }

  // ---------------------------------------------------------------------
  // Step
  // ---------------------------------------------------------------------

  /** The move chosen by `action`: 0 up, 1 down, 2 left, 3 right, by
      MoveSpeed pixels; any other value leaves the cat where it is. */
  function Displace(cat: Rect, action: int): (m: Rect)
    ensures m.w == cat.w && m.h == cat.h
    ensures 0 <= action < 4 ==> Abs(m.x - cat.x) + Abs(m.y - cat.y) == MoveSpeed
    ensures action == 0 || action == 1 ==> m.x == cat.x
    ensures action == 2 || action == 3 ==> m.y == cat.y
    ensures action == 0 || action == 2 ==> m.x + m.y < cat.x + cat.y
    ensures action == 1 || action == 3 ==> m.x + m.y > cat.x + cat.y
    ensures !(0 <= action < 4) ==> m == cat
  {
    if action == 0 then cat.(y := cat.y - MoveSpeed)
    else if action == 1 then cat.(y := cat.y + MoveSpeed)
    else if action == 2 then cat.(x := cat.x - MoveSpeed)
    else if action == 3 then cat.(x := cat.x + MoveSpeed)
    else cat
  }

  /** `hit_wall`: the displaced cat sticks out past some screen edge. */
  predicate HitWall(m: Rect) {
    m.Left() < 0 || m.Right() > ScreenWidth || m.Top() < 0 || m.Bottom() > ScreenHeight
  }

  /** Clips the cat's corner into [0, 750]×[0, 550]. For a cat of the
      configured size this is a no-op exactly when no wall was hit, and
      otherwise leaves the cat flush with the edge it crossed. */
  function ClampToScreen(m: Rect): (c: Rect)
    ensures c.w == m.w && c.h == m.h
    ensures 0 <= c.x <= ScreenWidth - CatSize && 0 <= c.y <= ScreenHeight - CatSize
    ensures 0 <= m.x <= ScreenWidth - CatSize ==> c.x == m.x
    ensures 0 <= m.y <= ScreenHeight - CatSize ==> c.y == m.y
    ensures m.Left() < 0 ==> c.Left() == 0
    ensures m.Top() < 0 ==> c.Top() == 0
    ensures m.w == CatSize && m.Right() > ScreenWidth ==> c.Right() == ScreenWidth
    ensures m.h == CatSize && m.Bottom() > ScreenHeight ==> c.Bottom() == ScreenHeight
    ensures m.w == CatSize && m.h == CatSize ==> OnScreen(c)
    ensures m.w == CatSize && m.h == CatSize ==> (c == m <==> !HitWall(m))
  {
    var x := Clip(m.Left(), 0, ScreenWidth - CatSize);
    var y := Clip(m.Top(), 0, ScreenHeight - CatSize);
    m.(x := x, y := y)
  }

  /** The reward of one step: the catch bonus replaces everything else;
      otherwise the scaled distance, less the wall penalty if a wall was hit.
      `dist` stands for the Euclidean distance between the two centres. */
  function StepReward(hitWall: bool, caught: bool, dist: real): (reward: real)
    requires dist >= 0.0
    ensures caught ==> reward == CatchReward
    ensures reward > 0.0 <==> caught
    ensures !caught && !hitWall ==> reward * -DistanceScale == dist
    ensures !caught && hitWall ==> (reward + WallPenalty) * -DistanceScale == dist
  {
    var base := -dist / DistanceScale;
    var penalised := if hitWall then base - WallPenalty else base;
    if caught then CatchReward else penalised
  }

  datatype StepResult = StepResult(env: Env, obs: seq<int>, reward: real,
                                   terminated: bool, truncated: bool)

  /** `step(action)`. `dist` is the distance between the centres of the
      moved cat and the food, which the source computes in floating point. */
  function Step(e: Env, action: int, dist: real): (r: StepResult)
    requires dist >= 0.0
    // only the cat's corner changes
    ensures r.env.food == e.food
    ensures r.env.cat.w == e.cat.w && r.env.cat.h == e.cat.h
    // whatever the prior position, the cat ends on screen
    ensures 0 <= r.env.cat.x <= ScreenWidth - CatSize
    ensures 0 <= r.env.cat.y <= ScreenHeight - CatSize
    ensures Valid(e) ==> Valid(r.env)
    // a coordinate the move keeps in range is taken as moved; a crossed
    // edge leaves the cat flush with it
    ensures var m := Displace(e.cat, action);
            0 <= m.x <= ScreenWidth - CatSize ==> r.env.cat.x == m.x
    ensures var m := Displace(e.cat, action);
            0 <= m.y <= ScreenHeight - CatSize ==> r.env.cat.y == m.y
    ensures Displace(e.cat, action).Left() < 0 ==> r.env.cat.Left() == 0
    ensures Displace(e.cat, action).Top() < 0 ==> r.env.cat.Top() == 0
    ensures e.cat.w == CatSize && Displace(e.cat, action).Right() > ScreenWidth ==>
              r.env.cat.Right() == ScreenWidth
    ensures e.cat.h == CatSize && Displace(e.cat, action).Bottom() > ScreenHeight ==>
              r.env.cat.Bottom() == ScreenHeight
    // inside the screen the move is exact and no wall is hit
    ensures e.cat.w == CatSize && e.cat.h == CatSize ==>
              (r.env.cat == Displace(e.cat, action) <==> !HitWall(Displace(e.cat, action)))
    ensures r.obs == Observe(r.env)
    ensures Valid(e) ==> InObservationBox(r.obs)
    ensures r.terminated <==> Colliderect(r.env.cat, r.env.food)
    ensures r.terminated ==> r.reward == CatchReward
    ensures !r.terminated ==> r.reward <= 0.0
    ensures !r.terminated && HitWall(Displace(e.cat, action)) ==> r.reward <= -WallPenalty
    ensures !r.terminated && !HitWall(Displace(e.cat, action)) ==> r.reward * -DistanceScale == dist
    ensures !r.terminated && HitWall(Displace(e.cat, action)) ==>
              (r.reward + WallPenalty) * -DistanceScale == dist
    ensures !r.truncated
  {
    var moved := Displace(e.cat, action);
    var hit := HitWall(moved);
    var cat := ClampToScreen(moved);
    var env := e.(cat := cat);
    var caught := Colliderect(cat, e.food);
    StepResult(env, Observe(env), StepReward(hit, caught, dist), caught, false)
  }

  /** From the constructed state any single move, once clipped, still
      overlaps the food at the origin. */
  lemma FirstMoveOverlapsFood(action: int)
    ensures Colliderect(ClampToScreen(Displace(Initial().cat, action)), Initial().food)
  {
    var m := Displace(Initial().cat, action);
    assert -MoveSpeed <= m.x <= MoveSpeed && -MoveSpeed <= m.y <= MoveSpeed;
  }

  /** Calling `step` before any `reset` is not rejected: the squares still
      overlap at the origin, so the first step ends the episode with the
      catch bonus whatever the action. */
  lemma StepBeforeResetCatches(action: int, dist: real)
    requires dist >= 0.0
    ensures Step(Initial(), action, dist).terminated
    ensures Step(Initial(), action, dist).reward == CatchReward
  {
    FirstMoveOverlapsFood(action);
  }

  /** `c` touches a screen edge that the displaced cat `m` crossed. */
  predicate FlushWithCrossedEdge(c: Rect, m: Rect) {
    (m.Left() < 0 && c.Left() == 0) ||
    (m.Right() > ScreenWidth && c.Right() == ScreenWidth) ||
    (m.Top() < 0 && c.Top() == 0) ||
    (m.Bottom() > ScreenHeight && c.Bottom() == ScreenHeight)
  }

  /** A move off the screen is clipped, not reverted: after a wall hit the
      cat is flush with the edge it crossed, and it is back where it started
      only if it already touched that edge. */
  lemma WallHitClipsNotReverts(e: Env, action: int, dist: real)
    requires Valid(e)
    requires dist >= 0.0
    requires HitWall(Displace(e.cat, action))
    ensures FlushWithCrossedEdge(Step(e, action, dist).env.cat, Displace(e.cat, action))
    ensures Step(e, action, dist).env.cat == e.cat <==>
            FlushWithCrossedEdge(e.cat, Displace(e.cat, action))
  {
  }

  // ---------------------------------------------------------------------
  // Sequences of calls
  // ---------------------------------------------------------------------

  /** One call made by a trainer: a reset with its random draws, or a step
      with its action and centre distance. */
  datatype Call = ResetCall(spawn: Spawn) | StepCall(action: int, dist: real)

  predicate ValidCall(c: Call) {
    match c
    case ResetCall(s) => ValidSpawn(s)
    case StepCall(_, d) => d >= 0.0
  }

  predicate ValidCalls(calls: seq<Call>) {
    forall i :: 0 <= i < |calls| ==> ValidCall(calls[i])
  }

  function Apply(e: Env, c: Call): Env
    requires ValidCall(c)
  {
    match c
    case ResetCall(s) => Reset(e, s).env
    case StepCall(a, d) => Step(e, a, d).env
  }

  function Run(e: Env, calls: seq<Call>): Env
    requires ValidCalls(calls)
    decreases |calls|
  {
    if |calls| == 0 then e else Run(Apply(e, calls[0]), calls[1..])
  }

  /** Every state reachable by resets and steps keeps both squares on screen
      at their configured sizes, so every observation lies in the box. */
  lemma {:induction false} RunKeepsValid(e: Env, calls: seq<Call>)
    requires Valid(e)
    requires ValidCalls(calls)
    ensures Valid(Run(e, calls))
    ensures InObservationBox(Observe(Run(e, calls)))
    decreases |calls|
  {
    if |calls| > 0 {
      assert ValidCall(calls[0]);
      assert ValidCalls(calls[1..]) by {
        forall i | 0 <= i < |calls[1..]| ensures ValidCall(calls[1..][i]) {
          assert calls[1..][i] == calls[i + 1];
        }
      }
      RunKeepsValid(Apply(e, calls[0]), calls[1..]);
    }
  }

  /** Any run from the constructed state stays valid. */
  lemma ReachableStatesValid(calls: seq<Call>)
    requires ValidCalls(calls)
    ensures Valid(Run(Initial(), calls))
  {
    RunKeepsValid(Initial(), calls);
  }

  predicate OnlySteps(calls: seq<Call>) {
    forall i :: 0 <= i < |calls| ==> calls[i].StepCall?
  }

  /** The food only moves on reset: any run of steps leaves it untouched and
      keeps the cat's size. */
  lemma {:induction false} StepsNeverMoveFood(e: Env, calls: seq<Call>)
    requires ValidCalls(calls)
    requires OnlySteps(calls)
    ensures Run(e, calls).food == e.food
    ensures Run(e, calls).cat.w == e.cat.w && Run(e, calls).cat.h == e.cat.h
    decreases |calls|
  {
    if |calls| > 0 {
      assert calls[0].StepCall?;
      assert ValidCalls(calls[1..]) && OnlySteps(calls[1..]) by {
        forall i | 0 <= i < |calls[1..]|
          ensures ValidCall(calls[1..][i]) && calls[1..][i].StepCall?
        {
          assert calls[1..][i] == calls[i + 1];
        }
      }
      StepsNeverMoveFood(Apply(e, calls[0]), calls[1..]);
    }
  }
}
