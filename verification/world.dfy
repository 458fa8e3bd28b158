/** The scrolling world of the play scene: obstacles with their spawn rule and culling,
    and the clouds that drift left and wrap back to the right.

    Horizontal positions (`x`) are kept in tenths of a pixel so that the 0.5-pixel cloud
    drift and the 0.2 steps of the speed modifier stay exact; vertical positions and the
    sizes in `Config` are in pixels. */
module World {

  /** Tenths of a pixel per pixel. */
  const Unit: nat := 10

  /** Range of the random horizontal gap in front of a new obstacle, in pixels. */
  const MinGap: nat := 150
  const MaxGap: nat := 300

  /** Flying heights of a bird above the ground line, in pixels. */
  const BirdHeights: seq<nat> := [20, 70]

  /** Cloud drift per frame: 0.5 pixel. */
  const CloudDrift: nat := 5

  /** A wrapped cloud reappears this many pixels beyond the right edge of the screen. */
  const CloudRespawnGap: nat := 30

  /** What the scene takes from its surroundings: screen size, how many cactus and bird
      textures were preloaded, and the pixel widths of the textures. */
  datatype Config = Config(
    gameWidth: nat,
    gameHeight: nat,
    cactusesCount: nat,
    birdsCount: nat,
    cactusWidths: seq<nat>,   // width of `obstacle-1` .. `obstacle-N`
    birdWidth: nat,
    cloudWidth: nat)
  {
    /** At least one obstacle kind to draw from, and one width per cactus texture. */
    predicate Valid() {
      cactusesCount + birdsCount >= 1 && |cactusWidths| == cactusesCount
    }

    function TotalKinds(): nat {
      cactusesCount + birdsCount
    }
  }

  datatype Kind = Cactus(variant: nat) | Bird

  /** An obstacle sprite with origin (0, 1): `x` is its left edge, `y` its bottom. */
  datatype Obstacle = Obstacle(kind: Kind, x: int, y: int, width: nat)

  /** A cloud image with the default origin (0.5, 0.5): `x` is its centre. */
  datatype Cloud = Cloud(x: int, y: int, width: nat)

  /** The three random numbers `spawnObstacle` draws: the kind `num` in [1, total],
      the gap `dist` in [150, 300], and the index into the bird heights. */
  datatype Draw = Draw(num: int, dist: int, heightIndex: int)

  predicate ValidDraw(cfg: Config, d: Draw) {
    && 1 <= d.num <= cfg.TotalKinds()
    && MinGap <= d.dist <= MaxGap
    && 0 <= d.heightIndex < |BirdHeights|
  }

  function RightEdge(o: Obstacle): int {
    o.x + o.width * Unit
  }

  /** An obstacle whose bounds end left of the screen. */
  predicate OffScreen(o: Obstacle) {
    RightEdge(o) < 0
  }

  function CloudRightEdge(c: Cloud): int {
    c.x + c.width * (Unit / 2)
  }

  /** The obstacle `spawnObstacle` creates for a draw: a bird when the kind number is past the
      cactus textures, otherwise that cactus; placed `dist` pixels beyond the right edge. */
  function Spawn(cfg: Config, d: Draw): (o: Obstacle)
    requires cfg.Valid() && ValidDraw(cfg, d)
    ensures (cfg.gameWidth + MinGap) * Unit <= o.x <= (cfg.gameWidth + MaxGap) * Unit
    ensures o.x == (cfg.gameWidth + d.dist) * Unit
    ensures o.kind.Bird? <==> d.num > cfg.cactusesCount
    ensures o.kind.Bird? ==> cfg.gameHeight - o.y in {20, 70}
    ensures o.kind.Cactus? ==> 1 <= o.kind.variant <= cfg.cactusesCount && o.kind.variant == d.num
    ensures o.kind.Cactus? ==> o.y == cfg.gameHeight
  {
    var x := (cfg.gameWidth + d.dist) * Unit;
    if d.num > cfg.cactusesCount then
      Obstacle(Bird, x, cfg.gameHeight - BirdHeights[d.heightIndex], cfg.birdWidth)
    else
      Obstacle(Cactus(d.num), x, cfg.gameHeight, cfg.cactusWidths[d.num - 1])
  }

  function Moved(o: Obstacle, dx: int): Obstacle {
    o.(x := o.x + dx)
  }

  /** `Phaser.Actions.IncX(obstacles, -shift)`. */
  function ShiftLeft(os: seq<Obstacle>, shift: int): (r: seq<Obstacle>)
    ensures |r| == |os|
    ensures forall i :: 0 <= i < |os| ==> r[i] == Moved(os[i], -shift)
  {
    seq(|os|, i requires 0 <= i < |os| => Moved(os[i], -shift))
  }

  /** One frame of the obstacles: every obstacle moves `shift` to the left, then those that
      have left the screen are removed and all others kept. */
  function AdvanceObstacles(os: seq<Obstacle>, shift: int): (r: seq<Obstacle>)
    ensures |r| <= |os|
    ensures forall o :: o in r ==> !OffScreen(o)
  {
    Cull(ShiftLeft(os, shift))
  }

  /** Removal of every off-screen obstacle, keeping the others in order (`CullAppend`) and
      each as many times as it occurs (`CullCounts`). */
  function Cull(os: seq<Obstacle>): (r: seq<Obstacle>)
    ensures |r| <= |os|
    ensures forall o :: o in r <==> o in os && !OffScreen(o)
  {
    if os == [] then []
    else if OffScreen(os[0]) then Cull(os[1..])
    else [os[0]] + Cull(os[1..])
  }

  /** The cull loop as written: `forEach` over the group's live children array while
      `remove` splices the removed obstacle out of that same array, so the next index
      already holds the obstacle that followed the removed one, and that obstacle is
      never looked at in this pass. `k` is the `forEach` index. */
  function CullAsWritten(os: seq<Obstacle>, k: nat): (r: seq<Obstacle>)
    ensures |r| <= |os|
    decreases |os| - k
  {
    if k >= |os| then os
    else if OffScreen(os[k]) then CullAsWritten(os[..k] + os[k + 1..], k + 1)
    else CullAsWritten(os, k + 1)
  }

  /** No two neighbouring obstacles at or after index k both off screen. */
  ghost predicate NoAdjacentOffScreen(os: seq<Obstacle>, k: nat) {
    forall i, j :: k <= i < j < |os| && j == i + 1 ==> !(OffScreen(os[i]) && OffScreen(os[j]))
  }

  /** One cloud's frame: drift left, then wrap to just beyond the right edge, at the same
      height, once its right edge has passed the left edge of the screen. */
  function AdvanceCloud(cfg: Config, c: Cloud): (r: Cloud)
    ensures r.y == c.y && r.width == c.width
    ensures CloudRightEdge(c) - CloudDrift < 0 ==> r.x == (cfg.gameWidth + CloudRespawnGap) * Unit
    ensures CloudRightEdge(c) - CloudDrift >= 0 ==> r.x == c.x - CloudDrift
  {
    var moved := c.(x := c.x - CloudDrift);
    if CloudRightEdge(moved) < 0 then moved.(x := (cfg.gameWidth + CloudRespawnGap) * Unit) else moved
  }

  /** A cloud between the two places a frame can leave it: its right edge not left of the
      screen, and its centre no further right than the wrap point. */
  predicate CloudInBounds(cfg: Config, c: Cloud) {
    0 <= CloudRightEdge(c) && c.x <= (cfg.gameWidth + CloudRespawnGap) * Unit
  }

  function AdvanceClouds(cfg: Config, cs: seq<Cloud>): (r: seq<Cloud>)
    ensures |r| == |cs|
    ensures forall i :: 0 <= i < |cs| ==> r[i] == AdvanceCloud(cfg, cs[i])
  {
    seq(|cs|, i requires 0 <= i < |cs| => AdvanceCloud(cfg, cs[i]))
  }

  // ---------------------------------------------------------------------------------------
  // Lemmas

  /** Culling keeps every on-screen obstacle as many times as it occurs and no off-screen
      one at all. */
  lemma {:induction false} CullCounts(os: seq<Obstacle>)
    ensures forall o :: multiset(Cull(os))[o] == if OffScreen(o) then 0 else multiset(os)[o]
  {
    if os != [] {
      CullCounts(os[1..]);
      assert os == [os[0]] + os[1..];
    }
  }

  /** Taking the off-screen obstacles out a second time changes nothing. */
  lemma {:induction false} CullIdempotent(os: seq<Obstacle>)
    ensures Cull(Cull(os)) == Cull(os)
  {
    if os != [] {
      CullIdempotent(os[1..]);
      if !OffScreen(os[0]) {
        assert ([os[0]] + Cull(os[1..]))[1..] == Cull(os[1..]);
      }
    }
  }

  /** Culling distributes over concatenation: together with `CullCons` this says the
      survivors keep their input order, and a newly appended obstacle is judged on its own. */
  lemma {:induction false} CullAppend(a: seq<Obstacle>, b: seq<Obstacle>)
    ensures Cull(a + b) == Cull(a) + Cull(b)
  {
    if a != [] {
      assert (a + b)[1..] == a[1..] + b;
      CullAppend(a[1..], b);
    } else {
      assert a + b == b;
    }
  }

  lemma CullCons(o: Obstacle, rest: seq<Obstacle>)
    ensures Cull([o] + rest) == (if OffScreen(o) then [] else [o]) + Cull(rest)
  {
    assert ([o] + rest)[1..] == rest;
  }

  /** Where no two neighbouring obstacles leave the screen in the same frame, the cull loop as
      written removes exactly what the corrected cull removes: from index k on it keeps the
      prefix and culls the rest. */
  lemma {:induction false} CullAsWrittenAgrees(os: seq<Obstacle>, k: nat)
    requires k <= |os|
    requires NoAdjacentOffScreen(os, k)
    ensures CullAsWritten(os, k) == os[..k] + Cull(os[k..])
    decreases |os| - k, 1
  {
    if k == |os| {
      assert os[k..] == [];
      assert os[..k] == os;
    } else if OffScreen(os[k]) {
      CullAsWrittenAgreesRemoving(os, k);
    } else {
      CullAsWrittenAgreesKeeping(os, k);
    }
  }

  /** The step of `CullAsWrittenAgrees` where the obstacle at index k stays. */
  lemma {:induction false} CullAsWrittenAgreesKeeping(os: seq<Obstacle>, k: nat)
    requires k < |os| && !OffScreen(os[k])
    requires NoAdjacentOffScreen(os, k)
    ensures CullAsWritten(os, k) == os[..k] + Cull(os[k..])
    decreases |os| - k, 0
  {
    var tail := os[k + 1..];
    assert os[k..] == [os[k]] + tail;
    CullCons(os[k], tail);
    assert Cull(os[k..]) == [os[k]] + Cull(tail);
    CullAsWrittenAgrees(os, k + 1);
    assert CullAsWritten(os, k) == os[..k + 1] + Cull(tail);
    assert os[..k + 1] == os[..k] + [os[k]];
  }

  /** Removing the obstacle at index k keeps the neighbour condition from index k + 1 on. */
  lemma NoAdjacentAfterRemoval(os: seq<Obstacle>, k: nat)
    requires k < |os| && NoAdjacentOffScreen(os, k)
    ensures NoAdjacentOffScreen(os[..k] + os[k + 1..], k + 1)
  {
    var rest := os[..k] + os[k + 1..];
    forall i, j | k + 1 <= i < j < |rest| && j == i + 1
      ensures !(OffScreen(rest[i]) && OffScreen(rest[j]))
    {
      assert rest[i] == os[i + 1] && rest[j] == os[j + 1];
    }
  }

  /** The step of `CullAsWrittenAgrees` where the obstacle at index k is removed. */
  lemma {:induction false} CullAsWrittenAgreesRemoving(os: seq<Obstacle>, k: nat)
    requires k < |os| && OffScreen(os[k])
    requires NoAdjacentOffScreen(os, k)
    ensures CullAsWritten(os, k) == os[..k] + Cull(os[k..])
    decreases |os| - k, 0
  {
    var rest := os[..k] + os[k + 1..];
    assert os[k..] == [os[k]] + os[k + 1..];
    CullCons(os[k], os[k + 1..]);
    assert Cull(os[k..]) == Cull(os[k + 1..]);
    if k + 1 == |os| {
      assert rest == os[..k];
      assert os[k + 1..] == [];
    } else {
      assert !OffScreen(os[k + 1]) by {
        assert k <= k < k + 1 < |os|;
      }
      NoAdjacentAfterRemoval(os, k);
      CullAsWrittenAgrees(rest, k + 1);
      SkippedNeighbour(os, k);
    }
  }

  /** After removing index k, keeping the prefix up to k + 1 of what remains and culling the
      rest is keeping the prefix up to k and culling from k + 1 on, when the obstacle at k + 1
      stays. */
  lemma SkippedNeighbour(os: seq<Obstacle>, k: nat)
    requires k + 1 < |os| && !OffScreen(os[k + 1])
    ensures var rest := os[..k] + os[k + 1..];
            rest[..k + 1] + Cull(rest[k + 1..]) == os[..k] + Cull(os[k + 1..])
  {
    var rest := os[..k] + os[k + 1..];
    assert rest[k + 1..] == os[k + 2..];
    assert rest[..k + 1] == os[..k] + [os[k + 1]];
    var tail := os[k + 2..];
    assert os[k + 1..] == [os[k + 1]] + tail;
    CullCons(os[k + 1], tail);
    assert Cull(os[k + 1..]) == [os[k + 1]] + Cull(tail);
  }

  lemma ShiftLeftCons(os: seq<Obstacle>, shift: int)
    requires os != []
    ensures ShiftLeft(os, shift) == [Moved(os[0], -shift)] + ShiftLeft(os[1..], shift)
  {
  }

  /** Shifting every obstacle by the same amount carries the count of each obstacle over to
      its shifted copy. */
  lemma {:induction false} ShiftLeftCounts(os: seq<Obstacle>, shift: int)
    ensures forall o :: multiset(ShiftLeft(os, shift))[o] == multiset(os)[Moved(o, shift)]
  {
    if os != [] {
      var head, rest := os[0], os[1..];
      ShiftLeftCounts(rest, shift);
      ShiftLeftCons(os, shift);
      assert os == [head] + rest;
      var mo, mr := multiset(ShiftLeft(os, shift)), multiset(ShiftLeft(rest, shift));
      assert mo == multiset([Moved(head, -shift)]) + mr;
      assert multiset(os) == multiset([head]) + multiset(rest);
      forall o
        ensures multiset(ShiftLeft(os, shift))[o] == multiset(os)[Moved(o, shift)]
      {
        assert Moved(head, -shift) == o <==> head == Moved(o, shift);
      }
    }
  }

  /** What one frame keeps: an obstacle is there afterwards exactly when its moved position
      is still on screen, and everything there is some obstacle moved. */
  lemma AdvanceObstaclesContents(os: seq<Obstacle>, shift: int)
    ensures var r := AdvanceObstacles(os, shift);
            && (forall o :: o in r ==> Moved(o, shift) in os)
            && (forall i :: 0 <= i < |os| ==>
                  (Moved(os[i], -shift) in r <==> !OffScreen(Moved(os[i], -shift))))
  {
    var moved := ShiftLeft(os, shift);
    assert forall i :: 0 <= i < |os| ==> moved[i] == Moved(os[i], -shift);
  }

  /** How many of each obstacle one frame keeps: an on-screen obstacle occurs as often as its
      unmoved position did, an off-screen one not at all. */
  lemma AdvanceObstacleCounts(os: seq<Obstacle>, shift: int)
    ensures var r := AdvanceObstacles(os, shift);
            forall o :: multiset(r)[o] == if OffScreen(o) then 0 else multiset(os)[Moved(o, shift)]
  {
    ShiftLeftCounts(os, shift);
    CullCounts(ShiftLeft(os, shift));
  }

  /** One frame of obstacles with newcomers appended before the move: the old obstacles and
      the newcomers alike move and are kept exactly while on screen, and nothing else
      appears. */
  lemma AdvanceWithArrivals(os: seq<Obstacle>, added: seq<Obstacle>, shift: int)
    ensures var r := AdvanceObstacles(os + added, shift);
            && (forall o :: o in r ==> !OffScreen(o))
            && (forall i :: 0 <= i < |os| ==>
                  (Moved(os[i], -shift) in r <==> !OffScreen(Moved(os[i], -shift))))
            && (forall i :: 0 <= i < |added| ==>
                  (Moved(added[i], -shift) in r <==> !OffScreen(Moved(added[i], -shift))))
            && (forall o :: o in r ==> Moved(o, shift) in os || Moved(o, shift) in added)
  {
    var all := os + added;
    AdvanceObstaclesContents(all, shift);
    assert forall i :: 0 <= i < |os| ==> all[i] == os[i];
    assert forall i :: 0 <= i < |added| ==> all[|os| + i] == added[i];
  }

  /** The loop as written never adds an obstacle and never removes one that is on screen;
      what it may fail to do is remove every off-screen one (`CullAsWrittenSkipsNeighbour`). */
  lemma {:induction false} CullAsWrittenKeepsOnScreen(os: seq<Obstacle>, k: nat)
    ensures forall o :: o in CullAsWritten(os, k) ==> o in os
    ensures forall o :: o in os && !OffScreen(o) ==> o in CullAsWritten(os, k)
    decreases |os| - k
  {
    if k < |os| {
      if OffScreen(os[k]) {
        assert os == os[..k] + [os[k]] + os[k + 1..];
        CullAsWrittenKeepsOnScreen(os[..k] + os[k + 1..], k + 1);
      } else {
        CullAsWrittenKeepsOnScreen(os, k + 1);
      }
    }
  }

  /** A cloud's frame keeps it in bounds: drifting keeps the right edge on screen or wraps
      the cloud to exactly the wrap point. */
  lemma AdvanceCloudInBounds(cfg: Config, c: Cloud)
    requires CloudInBounds(cfg, c)
    ensures CloudInBounds(cfg, AdvanceCloud(cfg, c))
    ensures AdvanceCloud(cfg, c).x <= c.x || AdvanceCloud(cfg, c).x == (cfg.gameWidth + CloudRespawnGap) * Unit
  {
  }

  /** The loop as written can leave an off-screen obstacle behind: with two neighbouring
      obstacles both past the left edge, the second one survives the pass, while the
      corrected cull removes both. */
  lemma CullAsWrittenSkipsNeighbour()
    ensures var a := Obstacle(Cactus(1), -200, 0, 10);
            var b := Obstacle(Cactus(2), -150, 0, 10);
            && OffScreen(a) && OffScreen(b)
            && CullAsWritten([a, b], 0) == [b]
            && Cull([a, b]) == []
  {
    var a := Obstacle(Cactus(1), -200, 0, 10);
    var b := Obstacle(Cactus(2), -150, 0, 10);
    assert [a, b][..0] + [a, b][1..] == [b];
  }
}
