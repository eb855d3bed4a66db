/**
 * The pure arithmetic of the engine's collision checks (engine.js): the
 * rectangular proximity tests, what one or several enemy hits do to the
 * player's vitals, and when a gem count earns the key.
 */
module Collision {
  import opened Board
  import opened Entities

  function Abs(r: real): real { if r < 0.0 then -r else r }

  function AbsInt(n: int): int { if n < 0 then -n else n }

  /**
   * Enemy against player: centres at (+50, +110) and (+50, +120), a hit when
   * they are less than 70 apart horizontally and 55 vertically. Equivalently
   * the enemy's corner lies in a fixed window around the player's.
   */
  function EnemyHit(ex: real, ey: int, px: int, py: int): (hit: bool)
    ensures hit <==> -70.0 < ex - px as real < 70.0 && -45 < ey - py < 65
  {
    var dx := Abs((ex + 50.0) - (px + 50) as real);
    var dy := AbsInt((ey + 110) - (py + 120));
    dx < 70.0 && dy < 55
  }

  /**
   * Gem, heart or key against player: target centre at (+50, +100), player
   * centre at (+50, +120), both thresholds 50.
   */
  function ItemHit(c: Cell, px: int, py: int): (hit: bool)
    ensures hit <==> -50 < c.x - px < 50 && -30 < c.y - py < 70
  {
    var dx := AbsInt((c.x + 50) - (px + 50));
    var dy := AbsInt((c.y + 100) - (py + 120));
    dx < 50 && dy < 50
  }

  /** Grid items the player touches at one moment all lie in one column. */
  lemma ItemHitsShareColumn(r1: int, c1: int, r2: int, c2: int, px: int, py: int)
    requires ItemHit(CellAt(r1, c1), px, py) && ItemHit(CellAt(r2, c2), px, py)
    ensures c1 == c2
  {
  }

  // ---------------------------------------------------------------------
  // Enemy hits

  /** The part of the state an enemy hit touches: the player's life, game-over flag and position, and the heart's visibility. */
  datatype Vitals = Vitals(life: int, gameover: bool, heartVisible: bool, x: int, y: int, selector: int)

  /** One enemy hit: the last life ends the game, any other costs a life and respawns the player. */
  function Hurt(v: Vitals): Vitals
  {
    if v.life == 1 then v.(gameover := true)
    else
      var w := v.(life := v.life - 1, x := SpawnX, y := SpawnY, selector := 2);
      if w.life == 2 then w.(heartVisible := true) else w
  }

  /** n hits in one tick. */
  function HurtTimes(v: Vitals, n: nat): Vitals
    decreases n
  {
    if n == 0 then v else Hurt(HurtTimes(v, n - 1))
  }

  function Max(a: int, b: int): int { if a < b then b else a }

  /**
   * The effect of n hits, in closed form: life never drops below 1; the
   * game is over once there were at least as many hits as lives; the heart
   * shows once life has come down to 2; any hit that costs a life respawns.
   */
  lemma {:induction false} HurtTimesClosedForm(v: Vitals, n: nat)
    requires v.life >= 1
    ensures var r := HurtTimes(v, n);
      && r.life == Max(1, v.life - n)
      && r.gameover == (v.gameover || n >= v.life)
      && r.heartVisible == (v.heartVisible || (v.life >= 3 && n >= v.life - 2))
      && (n >= 1 && v.life >= 2 ==> r.x == SpawnX && r.y == SpawnY && r.selector == 2)
      && (n == 0 || v.life == 1 ==> r.x == v.x && r.y == v.y && r.selector == v.selector)
    decreases n
  {
    if n > 0 {
      HurtTimesClosedForm(v, n - 1);
    }
  }

  function EnemyStateHit(e: EnemyState, px: int, py: int): bool
  {
    EnemyHit(e.x, e.y, px, py)
  }

  /** How many of the enemies touch a player standing at (px, py). */
  function EnemiesHitting(es: seq<EnemyState>, px: int, py: int): (n: nat)
    ensures n <= |es|
    ensures n == 0 <==> forall k :: 0 <= k < |es| ==> !EnemyStateHit(es[k], px, py)
  {
    if es == [] then 0
    else EnemiesHitting(es[..|es| - 1], px, py) + (if EnemyStateHit(es[|es| - 1], px, py) then 1 else 0)
  }

  /** How many of the cells a player standing at (px, py) touches. */
  function CellsHit(cs: seq<Cell>, px: int, py: int): (n: nat)
    ensures n <= |cs|
    ensures n == 0 <==> forall k :: 0 <= k < |cs| ==> !ItemHit(cs[k], px, py)
  {
    if cs == [] then 0
    else CellsHit(cs[..|cs| - 1], px, py) + (if ItemHit(cs[|cs| - 1], px, py) then 1 else 0)
  }

  // ---------------------------------------------------------------------
  // The key

  /** The check after each collected gem: the key shows at every positive multiple of 7. */
  predicate KeyDue(count: int) { count % 7 == 0 && count > 0 }

  /** Counting gems one by one from c0 up to c1 passed a count at which the key shows. */
  predicate KeyEarnedBetween(c0: int, c1: int)
    decreases c1 - c0
  {
    c0 < c1 && (KeyDue(c1) || KeyEarnedBetween(c0, c1 - 1))
  }

  /** Counting one more gem earns the key exactly when the new count is due. */
  lemma KeyEarnedStep(c0: int, c: int)
    requires c0 <= c
    ensures KeyEarnedBetween(c0, c + 1) == (KeyEarnedBetween(c0, c) || KeyDue(c + 1))
  {
  }

  /** The same, stated directly: some count strictly after c0 and up to c1 is due. */
  lemma {:induction false} KeyEarnedWitness(c0: int, c1: int)
    ensures KeyEarnedBetween(c0, c1) <==> exists k :: c0 < k <= c1 && KeyDue(k)
    decreases c1 - c0
  {
    if c0 < c1 {
      KeyEarnedWitness(c0, c1 - 1);
      if exists k :: c0 < k <= c1 && KeyDue(k) {
        var k :| c0 < k <= c1 && KeyDue(k);
        if k < c1 {
          assert c0 < k <= c1 - 1;
        }
      }
    }
  }

  /** For counts from 0 up: the key was earned between c0 and c1 iff c1 passed a multiple of 7 that c0 had not. */
  lemma KeyEarnedClosedForm(c0: int, c1: int)
    requires 0 <= c0 <= c1
    ensures KeyEarnedBetween(c0, c1) <==> c1 / 7 > c0 / 7
  {
    KeyEarnedWitness(c0, c1);
    if c1 / 7 > c0 / 7 {
      var k := (c1 / 7) * 7;
      assert c0 < k <= c1 && KeyDue(k);
    }
    if exists k :: c0 < k <= c1 && KeyDue(k) {
      var k :| c0 < k <= c1 && KeyDue(k);
      assert k / 7 <= c1 / 7;
      assert k / 7 > c0 / 7;
    }
  }
}
