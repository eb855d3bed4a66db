/**
 * The game engine (engine.js): one World owns the player, the four
 * enemies, the five gems, the heart, the key and the star, and advances
 * them one animation frame at a time. Every random draw the source makes
 * is an argument here; a retry loop that draws positions until one is free
 * gets a finite supply of draws, and a supply that runs out marks the world
 * `hung`, the state of a page whose script never returns from that loop.
 */
module Engine {
  import opened Wrappers
  import opened Board
  import opened Entities
  import opened Collision
  import Seeding

  const EnemyNum: int := 4

  /** The draws one frame may consume: one per enemy, and supplies for the three placement loops. */
  datatype TickDraws = TickDraws(enemies: seq<EnemyDraw>, gems: seq<GemDraw>, heart: seq<ItemDraw>, key: seq<ItemDraw>)
  {
    ghost predicate Valid() {
      && |enemies| == EnemyNum
      && (forall d <- enemies :: d.Valid())
      && (forall d <- gems :: d.Valid())
      && (forall d <- heart :: d.Valid())
      && (forall d <- key :: d.Valid())
    }
  }

  /** The cells a list of gems stands on, in order. */
  function CellsOf(gs: seq<Gem>): (cs: seq<Cell>)
    reads gs
    ensures |cs| == |gs| && forall k :: 0 <= k < |gs| ==> cs[k] == gs[k].Pos()
  {
    if gs == [] then [] else [gs[0].Pos()] + CellsOf(gs[1..])
  }

  /** The states of a list of enemies, in order. */
  function StatesOf(es: seq<Enemy>): (ss: seq<EnemyState>)
    reads es
    ensures |ss| == |es| && forall k :: 0 <= k < |es| ==> ss[k] == es[k].State()
  {
    if es == [] then [] else [es[0].State()] + StatesOf(es[1..])
  }

  /** Gems none of which moved still stand on the same cells. */
  twostate lemma CellsUnchanged(gs: seq<Gem>)
    requires forall k :: 0 <= k < |gs| ==> old(gs[k].Pos()) == gs[k].Pos()
    ensures CellsOf(gs) == old(CellsOf(gs))
  {
    assert forall k :: 0 <= k < |gs| ==> CellsOf(gs)[k] == old(CellsOf(gs))[k];
  }

  /** The colours of a list of gems, in order. */
  ghost function ColorsOf(gs: seq<Gem>): (cs: seq<GemColor>)
    reads gs
    ensures |cs| == |gs| && forall k :: 0 <= k < |gs| ==> cs[k] == gs[k].color
  {
    if gs == [] then [] else [gs[0].color] + ColorsOf(gs[1..])
  }

  /**
   * Where the scan in checkGemCollection stands after the first i gems,
   * for a player at (px, py) whose state was p0 and a key whose state was
   * key0 when the scan began over gems on cells with colours colors; p, k,
   * gc and gcol are the player, the key and the gems' cells and colours
   * now. Each touched gem is counted, the key shows if a count on the way
   * was due, and the gems not yet visited or not touched are where they were.
   */
  ghost predicate ScanSoFar(i: nat, px: int, py: int, cells: seq<Cell>, colors: seq<GemColor>, p0: PlayerState, key0: PickupState,
                            p: PlayerState, k: PickupState, gc: seq<Cell>, gcol: seq<GemColor>)
  {
    && i <= |cells| == |colors| == |gc| == |gcol|
    && p == p0.(gemCollected := p.gemCollected)
    && p.gemCollected == p0.gemCollected + CellsHit(cells[..i], px, py)
    && k.visible == (key0.visible || KeyEarnedBetween(p0.gemCollected, p.gemCollected))
    && k.active == key0.active && k.x == key0.x && k.y == key0.y
    && forall j :: 0 <= j < |gc| && (i <= j || !ItemHit(cells[j], px, py)) ==> gc[j] == cells[j] && gcol[j] == colors[j]
  }

  /** An untouched gem i is passed over by the scan. */
  lemma ScanPassStep(i: nat, px: int, py: int, cells: seq<Cell>, colors: seq<GemColor>, p0: PlayerState, key0: PickupState,
                     p: PlayerState, k: PickupState, gc: seq<Cell>, gcol: seq<GemColor>)
    requires ScanSoFar(i, px, py, cells, colors, p0, key0, p, k, gc, gcol) && i < |gc| && !ItemHit(gc[i], px, py)
    ensures ScanSoFar(i + 1, px, py, cells, colors, p0, key0, p, k, gc, gcol)
  {
    assert cells[..i + 1][..i] == cells[..i];
  }

  /** A touched gem i is counted, may show the key, and alone moves. */
  lemma ScanTakeStep(i: nat, px: int, py: int, cells: seq<Cell>, colors: seq<GemColor>, p0: PlayerState, key0: PickupState,
                     p: PlayerState, k: PickupState, gc: seq<Cell>, gcol: seq<GemColor>,
                     p': PlayerState, k': PickupState, gc': seq<Cell>, gcol': seq<GemColor>)
    requires ScanSoFar(i, px, py, cells, colors, p0, key0, p, k, gc, gcol) && i < |gc| && ItemHit(gc[i], px, py)
    requires p' == p.(gemCollected := p.gemCollected + 1)
    requires k'.visible == (k.visible || KeyDue(p'.gemCollected)) && k'.active == k.active && k'.x == k.x && k'.y == k.y
    requires i < |gc'| && i < |gcol'| && gc' == gc[i := gc'[i]] && gcol' == gcol[i := gcol'[i]]
    ensures ScanSoFar(i + 1, px, py, cells, colors, p0, key0, p', k', gc', gcol')
  {
    KeyEarnedStep(p0.gemCollected, p.gemCollected);
    assert cells[..i + 1][..i] == cells[..i];
  }

  /** What an active pickup occupies. */
  function Occupied(p: Pickup): seq<Cell>
    reads p
  {
    if p.active then [p.Pos()] else []
  }

  /** Gems standing on the cells of seeded draws are on the gem grid, and one to a tile when the draws' tiles are distinct. */
  lemma SeededGems(gs: seq<Gem>, seeded: seq<GemDraw>)
    requires |gs| == |seeded| && forall d <- seeded :: d.Valid()
    requires forall a :: 0 <= a < |gs| ==> gs[a].Pos() == seeded[a].Spot()
    ensures forall g <- gs :: OnGemGrid(g.Pos())
    ensures Seeding.SpotsDistinct(seeded) ==> Distinct(CellsOf(gs))
  {
    forall g | g in gs
      ensures OnGemGrid(g.Pos())
    {
      var a :| 0 <= a < |gs| && gs[a] == g;
      GemDrawOnGrid(seeded[a]);
    }
  }

  /** The enemy list app.js builds: one fresh enemy per draw. */
  method SpawnEnemies(draws: seq<EnemyDraw>) returns (es: seq<Enemy>)
    requires forall d <- draws :: d.Valid()
    ensures |es| == |draws|
    ensures forall a, b :: 0 <= a < b < |es| ==> es[a] != es[b]
    ensures forall a :: 0 <= a < |es| ==> fresh(es[a]) && es[a].State() == Spawn(draws[a])
  {
    es := [];
    while |es| < |draws|
      invariant |es| <= |draws|
      invariant forall a, b :: 0 <= a < b < |es| ==> es[a] != es[b]
      invariant forall a :: 0 <= a < |es| ==> fresh(es[a]) && es[a].State() == Spawn(draws[a])
    {
      var e := new Enemy(draws[|es|]);
      es := es + [e];
    }
  }

  /** The gem list app.js builds from the seeded draws: one fresh gem per draw. */
  method PlaceGems(seeded: seq<GemDraw>) returns (gs: seq<Gem>)
    ensures |gs| == |seeded|
    ensures forall a, b :: 0 <= a < b < |gs| ==> gs[a] != gs[b]
    ensures forall a :: 0 <= a < |gs| ==> fresh(gs[a]) && gs[a].Pos() == seeded[a].Spot() && gs[a].color == GemColorOf(seeded[a].variant)
  {
    gs := [];
    while |gs| < |seeded|
      invariant |gs| <= |seeded|
      invariant forall a, b :: 0 <= a < b < |gs| ==> gs[a] != gs[b]
      invariant forall a :: 0 <= a < |gs| ==> fresh(gs[a]) && gs[a].Pos() == seeded[a].Spot() && gs[a].color == GemColorOf(seeded[a].variant)
    {
      var g := new Gem(seeded[|gs|]);
      gs := gs + [g];
    }
  }

  /** The player, the star, the heart and the key app.js builds after the gems, in that order. */
  method NewPieces(heartDraw: ItemDraw, keyDraw: ItemDraw) returns (p: Player, st: Star, h: Pickup, k: Pickup)
    ensures fresh(p) && fresh(st) && fresh(h) && fresh(k) && h != k
    ensures p.State() == NewPlayer() && !st.active
    ensures h.kind == HeartItem && h.State() == PickupState(false, false, heartDraw.Spot().x, heartDraw.Spot().y)
    ensures k.kind == KeyItem && k.State() == PickupState(false, false, keyDraw.Spot().x, keyDraw.Spot().y)
  {
    p := new Player();
    st := new Star();
    h := new Pickup(HeartItem, heartDraw);
    k := new Pickup(KeyItem, keyDraw);
  }

  /**
   * checkGemCollection on values, from gem i on: the gems stand on cells,
   * the player on (px, py), and hs and ks are what the active heart and key
   * occupy. A touched gem takes the first draw of the supply that holds
   * neither another gem nor hs nor ks, and the scan goes on with the rest
   * of the supply; None when a touched gem finds no free draw.
   */
  function GemScan(cells: seq<Cell>, i: nat, px: int, py: int, supply: seq<GemDraw>, hs: seq<Cell>, ks: seq<Cell>): Option<seq<Cell>>
    requires i <= |cells|
    decreases |cells| - i
  {
    if i == |cells| then Some(cells)
    else if !ItemHit(cells[i], px, py) then GemScan(cells, i + 1, px, py, supply, hs, ks)
    else
      var k := FirstFree(GemSpots(supply), Without(cells, i) + hs + ks);
      if k == |supply| then None
      else GemScan(cells[i := supply[k].Spot()], i + 1, px, py, supply[k + 1..], hs, ks)
  }

  /**
   * What the scan leaves where: as many gems as before, the untouched ones
   * and those already passed where they were, and every touched one clear
   * of the active heart and key.
   */
  lemma {:induction false} GemScanKeeps(cells: seq<Cell>, i: nat, px: int, py: int, supply: seq<GemDraw>, hs: seq<Cell>, ks: seq<Cell>)
    requires i <= |cells| && GemScan(cells, i, px, py, supply, hs, ks).Some?
    ensures var r := GemScan(cells, i, px, py, supply, hs, ks).value;
      && |r| == |cells|
      && (forall k :: 0 <= k < |cells| && (k < i || !ItemHit(cells[k], px, py)) ==> r[k] == cells[k])
      && (forall k :: i <= k < |cells| && ItemHit(cells[k], px, py) ==> r[k] !in hs && r[k] !in ks)
    decreases |cells| - i
  {
    if i < |cells| {
      if !ItemHit(cells[i], px, py) {
        GemScanKeeps(cells, i + 1, px, py, supply, hs, ks);
      } else {
        var blocked := Without(cells, i) + hs + ks;
        var k := FirstFree(GemSpots(supply), blocked);
        FirstFreeIsFirst(GemSpots(supply), blocked);
        GemScanKeeps(cells[i := supply[k].Spot()], i + 1, px, py, supply[k + 1..], hs, ks);
      }
    }
  }

  /** One turn of the scan: an untouched gem is passed over; a touched one takes the first free draw, or the scan fails. */
  lemma GemScanStep(cells: seq<Cell>, i: nat, px: int, py: int, supply: seq<GemDraw>, hs: seq<Cell>, ks: seq<Cell>)
    requires i < |cells|
    ensures !ItemHit(cells[i], px, py) ==> GemScan(cells, i, px, py, supply, hs, ks) == GemScan(cells, i + 1, px, py, supply, hs, ks)
    ensures ItemHit(cells[i], px, py) ==>
      var k := FirstFree(GemSpots(supply), Without(cells, i) + hs + ks);
      GemScan(cells, i, px, py, supply, hs, ks) == if k == |supply| then None else GemScan(cells[i := supply[k].Spot()], i + 1, px, py, supply[k + 1..], hs, ks)
  {
  }

  /** A touched gem that finds its first free draw at k: the scan goes on from the next gem with that gem moved there and the draws after k. */
  lemma GemScanTake(cells: seq<Cell>, i: nat, px: int, py: int, supply: seq<GemDraw>, hs: seq<Cell>, ks: seq<Cell>, k: nat)
    requires i < |cells| && ItemHit(cells[i], px, py)
    requires k == FirstFree(GemSpots(supply), Without(cells, i) + hs + ks) && k < |supply|
    ensures GemScan(cells, i, px, py, supply, hs, ks) == GemScan(cells[i := supply[k].Spot()], i + 1, px, py, supply[k + 1..], hs, ks)
  {
  }

  /** The scan of checkGemCollection never puts two gems on one tile that were on distinct tiles before. */
  lemma {:induction false} GemScanApart(cells: seq<Cell>, i: nat, px: int, py: int, supply: seq<GemDraw>, hs: seq<Cell>, ks: seq<Cell>)
    requires i <= |cells| && Distinct(cells) && GemScan(cells, i, px, py, supply, hs, ks).Some?
    ensures Distinct(GemScan(cells, i, px, py, supply, hs, ks).value)
    decreases |cells| - i
  {
    if i < |cells| {
      if !ItemHit(cells[i], px, py) {
        GemScanApart(cells, i + 1, px, py, supply, hs, ks);
      } else {
        var blocked := Without(cells, i) + hs + ks;
        var k := FirstFree(GemSpots(supply), blocked);
        FirstFreeIsFirst(GemSpots(supply), blocked);
        var c := supply[k].Spot();
        assert c !in Without(cells, i);
        DistinctUpdate(cells, i, c);
        GemScanApart(cells[i := c], i + 1, px, py, supply[k + 1..], hs, ks);
      }
    }
  }

  /**
   * Where the placement in checkHeartPosition and checkKeyLocation leaves a
   * pickup that stood on `at`: still there if it was active, otherwise on
   * the first draw of the supply clear of blocked (or still on `at` when
   * the supply has none).
   */
  function PlacedAt(active: bool, at: Cell, supply: seq<ItemDraw>, blocked: seq<Cell>): (c: Cell)
    ensures !active && FirstFree(ItemSpots(supply), blocked) < |supply| ==> c !in blocked
  {
    if active then at
    else
      var k := FirstFree(ItemSpots(supply), blocked);
      FirstFreeIsFirst(ItemSpots(supply), blocked);
      if k < |supply| then supply[k].Spot() else at
  }

  // ---------------------------------------------------------------------
  // The checks of engine.js update, on values

  /** The invincibility star: on or off, and where it is drawn. */
  datatype StarState = StarState(active: bool, x: int, y: int)

  /**
   * Everything the checks of engine.js update read or write once the
   * enemies have moved: the player, the cells of the gems in list order,
   * the heart, the key and the star.
   */
  datatype Scene = Scene(player: PlayerState, gems: seq<Cell>, heart: PickupState, key: PickupState, star: StarState)

  function PosOf(s: PickupState): Cell { Cell(s.x, s.y) }

  /** What a pickup in state s occupies: its tile while it is active, nothing otherwise. */
  function OccupiedBy(s: PickupState): (cs: seq<Cell>)
    ensures s.active <==> PosOf(s) in cs
    ensures forall c <- cs :: c == PosOf(s)
  {
    if s.active then [PosOf(s)] else []
  }

  /**
   * The turn of a showing heart or key in engine.js update: placed on the
   * first free draw of the supply unless it is on the board already, then
   * taken when the player at (px, py) touches it. None when the placement
   * runs out of draws; otherwise the pickup's new state and whether the
   * player took it.
   */
  function PickupTurn(s: PickupState, blocked: seq<Cell>, supply: seq<ItemDraw>, px: int, py: int): (r: Option<(PickupState, bool)>)
    ensures r.None? <==> !s.active && FirstFree(ItemSpots(supply), blocked) == |supply|
    ensures r.Some? ==>
      && (s.active ==> PosOf(r.value.0) == PosOf(s))
      && (!s.active ==> PosOf(r.value.0) !in blocked)
      && (r.value.1 <==> ItemHit(PosOf(r.value.0), px, py))
      && r.value.0.active == !r.value.1
      && r.value.0.visible == (s.visible && !r.value.1)
  {
    if !s.active && FirstFree(ItemSpots(supply), blocked) == |supply| then None
    else
      var c := PlacedAt(s.active, PosOf(s), supply, blocked);
      var placed := PickupState(s.visible, true, c.x, c.y);
      if ItemHit(c, px, py) then Some((Asleep(placed), true)) else Some((placed, false))
  }

  /** The heart part of update: a showing heart takes its turn, clear of the gems and an active key, and gives a life back when taken. */
  function HeartTurn(sc: Scene, supply: seq<ItemDraw>): Option<Scene>
  {
    if !sc.heart.visible then Some(sc)
    else
      var r := PickupTurn(sc.heart, sc.gems + OccupiedBy(sc.key), supply, sc.player.x, sc.player.y);
      if r.None? then None
      else Some(sc.(heart := r.value.0, player := sc.player.(life := sc.player.life + if r.value.1 then 1 else 0)))
  }

  /** The key part of update: a showing key takes its turn, clear of the gems and an active heart, and turns the star on when taken. */
  function KeyTurn(sc: Scene, supply: seq<ItemDraw>): Option<Scene>
  {
    if !sc.key.visible then Some(sc)
    else
      var r := PickupTurn(sc.key, sc.gems + OccupiedBy(sc.heart), supply, sc.player.x, sc.player.y);
      if r.None? then None
      else Some(sc.(key := r.value.0, star := sc.star.(active := sc.star.active || r.value.1)))
  }

  /** GemsTurn's outcome, from the scan's result and the new player and key. */
  lemma GemsTurnIs(sc: Scene, supply: seq<GemDraw>, cells: seq<Cell>, p: PlayerState, k: PickupState)
    requires GemScan(sc.gems, 0, sc.player.x, sc.player.y, supply, OccupiedBy(sc.heart), OccupiedBy(sc.key)) == Some(cells)
    requires p == sc.player.(gemCollected := sc.player.gemCollected + CellsHit(sc.gems, sc.player.x, sc.player.y))
    requires k == sc.key.(visible := sc.key.visible || KeyEarnedBetween(sc.player.gemCollected, p.gemCollected))
    ensures GemsTurn(sc, supply) == Some(sc.(gems := cells, player := p, key := k))
  {
  }

  /** The heart part, then the key part. */
  function PickupsTurn(sc: Scene, hearts: seq<ItemDraw>, keys: seq<ItemDraw>): Option<Scene>
  {
    var h := HeartTurn(sc, hearts);
    if h.None? then None else KeyTurn(h.value, keys)
  }

  /**
   * checkGemCollection: the gems move as GemScan says, every touched gem
   * is counted, and the key shows once the count passes a multiple of 7.
   */
  function GemsTurn(sc: Scene, supply: seq<GemDraw>): Option<Scene>
  {
    var px, py, c0 := sc.player.x, sc.player.y, sc.player.gemCollected;
    var r := GemScan(sc.gems, 0, px, py, supply, OccupiedBy(sc.heart), OccupiedBy(sc.key));
    if r.None? then None
    else
      var n := c0 + CellsHit(sc.gems, px, py);
      Some(sc.(gems := r.value, player := sc.player.(gemCollected := n),
               key := sc.key.(visible := sc.key.visible || KeyEarnedBetween(c0, n))))
  }

  /** The gem check, then the heart and key parts. */
  function CollectTurn(sc: Scene, draws: TickDraws): Option<Scene>
  {
    var g := GemsTurn(sc, draws.gems);
    if g.None? then None else PickupsTurn(g.value, draws.heart, draws.key)
  }

  /** The collection checks, then an active star is drawn over the player. */
  function ItemsTurn(sc: Scene, draws: TickDraws): Option<Scene>
  {
    var c := CollectTurn(sc, draws);
    if c.None? then None
    else if c.value.star.active then Some(c.value.(star := c.value.star.(x := c.value.player.x, y := c.value.player.y)))
    else c
  }

  function VitalsOf(sc: Scene): Collision.Vitals
  {
    Collision.Vitals(sc.player.life, sc.player.gameover, sc.heart.visible, sc.player.x, sc.player.y, sc.player.selector)
  }

  /** The scene with the vitals v written back into the player and the heart. */
  function WithVitals(sc: Scene, v: Collision.Vitals): (r: Scene)
    ensures VitalsOf(r) == v
    ensures r.gems == sc.gems && r.key == sc.key && r.star == sc.star
  {
    sc.(player := sc.player.(life := v.life, gameover := v.gameover, x := v.x, y := v.y, selector := v.selector),
        heart := sc.heart.(visible := v.heartVisible))
  }

  /** The enemy check: unless the star is on, each enemy of `enemies` touching the player is one hit. */
  function EnemyTurn(sc: Scene, enemies: seq<EnemyState>): Scene
  {
    if sc.star.active then sc
    else WithVitals(sc, HurtTimes(VitalsOf(sc), EnemiesHitting(enemies, sc.player.x, sc.player.y)))
  }

  /**
   * What the checks of update never change about the player: the mode
   * and the avatar stay, the gem count only grows, and while the star is
   * on the player neither loses a life nor ends the game nor moves.
   */
  predicate PlayerKept(p0: PlayerState, p: PlayerState, starOn: bool)
  {
    && p.start == p0.start && p.avatar == p0.avatar && p.gemCollected >= p0.gemCollected
    && (starOn ==> p.gameover == p0.gameover && p.life >= p0.life && p.x == p0.x && p.y == p0.y)
  }

  /** The enemies after the forEach of updateEntities: each advanced once with its own draw. */
  function Moved(es: seq<EnemyState>, dt: real, pause: bool, draws: seq<EnemyDraw>): seq<EnemyState>
    requires |draws| == |es| && forall d <- draws :: d.Valid()
  {
    seq(|es|, i requires 0 <= i < |es| => Advance(es[i], dt, pause, draws[i]))
  }

  /** The checks engine.js update makes once play has started, against enemies that have moved to `enemies`. */
  function PlayTurn(sc: Scene, enemies: seq<EnemyState>, draws: TickDraws): Option<Scene>
  {
    ItemsTurn(EnemyTurn(sc, enemies), draws)
  }

  /**
   * The cleanup at the end of engine.js render: once the game is over, the
   * heart and the key are put to sleep and the star goes off where it is.
   */
  function AfterRender(sc: Scene): (r: Scene)
    ensures r.player == sc.player && r.gems == sc.gems
    ensures sc.player.gameover ==> !r.heart.visible && !r.heart.active && !r.key.visible && !r.key.active && !r.star.active
    ensures PosOf(r.heart) == PosOf(sc.heart) && PosOf(r.key) == PosOf(sc.key) && r.star.x == sc.star.x && r.star.y == sc.star.y
    ensures !sc.player.gameover ==> r == sc
  {
    if sc.player.gameover then sc.(heart := Asleep(sc.heart), key := Asleep(sc.key), star := sc.star.(active := false))
    else sc
  }

  /** Rendering twice in a row cleans up no more than rendering once. */
  lemma AfterRenderIdempotent(sc: Scene)
    ensures AfterRender(AfterRender(sc)) == AfterRender(sc)
  {
    if sc.player.gameover {
      AsleepIdempotent(sc.heart);
      AsleepIdempotent(sc.key);
    }
  }

  /**
   * The collection checks never cost a life, end the game or move the
   * player; they keep the mode and the avatar, only add gems, and leave an
   * on star on where it was.
   */
  lemma CollectTurnKeeps(sc: Scene, draws: TickDraws)
    ensures var r := CollectTurn(sc, draws);
      r.Some? ==>
        && PlayerKept(sc.player, r.value.player, true)
        && (sc.star.active ==> r.value.star.active)
        && r.value.star.x == sc.star.x && r.value.star.y == sc.star.y
  {
    var g := GemsTurn(sc, draws.gems);
    if g.Some? {
      assert PlayerKept(sc.player, g.value.player, true) && g.value.star == sc.star;
      var h := HeartTurn(g.value, draws.heart);
      if h.Some? {
        assert PlayerKept(g.value.player, h.value.player, true) && h.value.star == sc.star;
      }
    }
  }

  /**
   * A turn of update's checks keeps what PlayerKept names, leaves an on
   * star on, and draws an on star over the player.
   */
  lemma PlayTurnKeeps(sc: Scene, es: seq<EnemyState>, draws: TickDraws)
    ensures var r := PlayTurn(sc, es, draws);
      r.Some? ==>
        && PlayerKept(sc.player, r.value.player, sc.star.active)
        && (sc.star.active ==> r.value.star.active)
        && (r.value.star.active ==> r.value.star.x == r.value.player.x && r.value.star.y == r.value.player.y)
  {
    var e := EnemyTurn(sc, es);
    assert PlayerKept(sc.player, e.player, sc.star.active) && e.star == sc.star;
    CollectTurnKeeps(e, draws);
  }

  /** A turn of update's checks keeps distinct gems distinct. */
  lemma PlayTurnApart(sc: Scene, es: seq<EnemyState>, draws: TickDraws)
    requires Distinct(sc.gems)
    ensures var r := PlayTurn(sc, es, draws); r.Some? ==> Distinct(r.value.gems)
  {
    var e := EnemyTurn(sc, es);
    var g := GemScan(e.gems, 0, e.player.x, e.player.y, draws.gems, OccupiedBy(e.heart), OccupiedBy(e.key));
    if g.Some? {
      GemScanApart(e.gems, 0, e.player.x, e.player.y, draws.gems, OccupiedBy(e.heart), OccupiedBy(e.key));
    }
  }

  class World {
    const player: Player
    const enemies: seq<Enemy>
    const gems: seq<Gem>
    const heart: Pickup
    const key: Pickup
    const star: Star
    /** A placement loop ran out of draws: the source would never leave it. */
    var hung: bool

    /** The objects this world is made of and their kinds; fixed for the world's lifetime. */
    ghost predicate Shape()
    {
      && |enemies| == EnemyNum
      && |gems| == Seeding.GemNum
      && (forall i, j :: 0 <= i < j < |enemies| ==> enemies[i] != enemies[j])
      && (forall i, j :: 0 <= i < j < |gems| ==> gems[i] != gems[j])
      && heart != key
      && heart.kind == HeartItem
      && key.kind == KeyItem
    }

    /** Everything the board shows (gems, the heart and the key) sits on a tile of its own grid. */
    ghost predicate OnGrid()
      reads gems, heart, key
    {
      && (forall g <- gems :: OnGemGrid(g.Pos()))
      && OnItemGrid(heart.Pos())
      && OnItemGrid(key.Pos())
    }

    /**
     * What the placement loops of the engine establish: an active heart or
     * key shares a tile with no gem and not with the other.
     */
    ghost predicate Separated()
      reads gems, heart, key
    {
      && (heart.active ==> heart.Pos() !in CellsOf(gems))
      && (key.active ==> key.Pos() !in CellsOf(gems))
      && (heart.active && key.active ==> heart.Pos() != key.Pos())
    }

    /**
     * No two gems share a tile. Seeding with the corrected test gives this
     * at load time, and every frame keeps it; the test as written need not.
     */
    ghost predicate GemsApart()
      reads gems
    {
      Distinct(CellsOf(gems))
    }

    ghost predicate Valid()
      reads this, player, enemies, gems, heart, key
    {
      && Shape()
      && Wellformed(player.State())
      && (forall e <- enemies :: Roaming(e.State()))
      && OnGrid()
      && (!hung ==> Separated())
    }

    /** The tiles gem i must avoid when it is placed again: the other gems, and the heart and key while active. */
    ghost function GemBlockers(i: nat): seq<Cell>
      requires i < |gems|
      reads gems, heart, key
    {
      Without(CellsOf(gems), i) + Occupied(heart) + Occupied(key)
    }

    /** The tiles a pickup must avoid when it is placed: every gem, and the other pickup while active. */
    ghost function ItemBlockers(other: Pickup): seq<Cell>
      reads gems, other
    {
      CellsOf(gems) + Occupied(other)
    }

    /** The world as the checks of update see it. */
    ghost function SceneNow(): Scene
      reads player, gems, heart, key, star
    {
      Scene(player.State(), CellsOf(gems), heart.State(), key.State(), StarState(star.active, star.x, star.y))
    }

    /** The part of the state one enemy hit changes. */
    ghost function Vitals(): Collision.Vitals
      reads player, heart
    {
      Collision.Vitals(player.life, player.gameover, heart.visible, player.x, player.y, player.selector)
    }

    /**
     * The world the page builds at load time (app.js): four enemies on
     * random stone rows, the five gems the seeding loop picked, a heart and
     * a key hidden on random tiles, the star off, and the player on the
     * selection screen.
     */
    constructor (enemyDraws: seq<EnemyDraw>, seeded: seq<GemDraw>, heartDraw: ItemDraw, keyDraw: ItemDraw)
      requires |enemyDraws| == EnemyNum && forall d <- enemyDraws :: d.Valid()
      requires |seeded| == Seeding.GemNum && forall d <- seeded :: d.Valid()
      requires heartDraw.Valid() && keyDraw.Valid()
      ensures Valid() && !hung
      ensures GemsApart() <==> Seeding.SpotsDistinct(seeded)
      ensures player.State() == NewPlayer()
      ensures forall i :: 0 <= i < |enemies| ==> enemies[i].State() == Spawn(enemyDraws[i])
      ensures |gems| == |seeded| && forall i :: 0 <= i < |gems| ==> gems[i].Pos() == seeded[i].Spot() && gems[i].color == GemColorOf(seeded[i].variant)
      ensures heart.State() == PickupState(false, false, heartDraw.Spot().x, heartDraw.Spot().y)
      ensures key.State() == PickupState(false, false, keyDraw.Spot().x, keyDraw.Spot().y)
      ensures !star.active
    {
      ItemDrawOnGrid(heartDraw);
      ItemDrawOnGrid(keyDraw);
      var es := SpawnEnemies(enemyDraws);
      var gs := PlaceGems(seeded);
      var p, st, h, k := NewPieces(heartDraw, keyDraw);
      player, enemies, gems, heart, key, star := p, es, gs, h, k, st;
      hung := false;
      new;
      assert Shape();
      StartValid(seeded);
    }

    /** A world whose gems stand on seeded tiles, with both pickups hidden on grid tiles, is valid; its gems are apart exactly when the seeded tiles are distinct. */
    lemma StartValid(seeded: seq<GemDraw>)
      requires Shape() && !hung && Wellformed(player.State())
      requires forall e <- enemies :: Roaming(e.State())
      requires |gems| == |seeded| && forall d <- seeded :: d.Valid()
      requires forall a :: 0 <= a < |gems| ==> gems[a].Pos() == seeded[a].Spot()
      requires OnItemGrid(heart.Pos()) && OnItemGrid(key.Pos()) && !heart.active && !key.active
      ensures Valid()
      ensures GemsApart() <==> Seeding.SpotsDistinct(seeded)
    {
      SeededGems(gems, seeded);
      if GemsApart() {
        forall a, b | 0 <= a < b < |seeded|
          ensures seeded[a].Spot() != seeded[b].Spot()
        {
          assert CellsOf(gems)[a] != CellsOf(gems)[b];
        }
      }
    }

    /** engine.js updateEntities: every enemy moves (or stands still once the game is over), then the player updates. */
    method UpdateEntities(dt: real, draws: seq<EnemyDraw>)
      requires Valid() && |draws| == |enemies| && forall d <- draws :: d.Valid()
      modifies enemies, player
      ensures Valid()
      ensures forall i :: 0 <= i < |enemies| ==> enemies[i].State() == Advance(old(enemies[i].State()), dt, old(player.gameover), draws[i])
      ensures player.State() == Step(old(player.State()), None) == old(player.State())
      ensures StatesOf(enemies) == Moved(old(StatesOf(enemies)), dt, old(player.gameover), draws)
    {
      MoveEnemies(dt, player.gameover, draws);
      IdleStepIsIdentity(player.State());
      player.Update(None);
      EnemiesMovedValid();
    }

    /** Enemies still roaming, with nothing on the board moved and the player well-formed, leave the world valid. */
    twostate lemma EnemiesMovedValid()
      requires old(Valid()) && unchanged(this) && unchanged(gems) && unchanged(heart, key) && Wellformed(player.State())
      requires forall e <- enemies :: Roaming(e.State())
      ensures Valid()
    {
      CellsUnchanged(gems);
    }

    /** The forEach over allEnemies in updateEntities: each enemy moves once, in list order. */
    method MoveEnemies(dt: real, gameover: bool, draws: seq<EnemyDraw>)
      requires Shape() && |draws| == |enemies| && forall d <- draws :: d.Valid()
      requires forall e <- enemies :: Roaming(e.State())
      modifies enemies
      ensures forall i :: 0 <= i < |enemies| ==> enemies[i].State() == Advance(old(enemies[i].State()), dt, gameover, draws[i])
      ensures forall e <- enemies :: Roaming(e.State())
    {
      for i := 0 to |enemies|
        invariant forall k :: 0 <= k < i ==> enemies[k].State() == Advance(old(enemies[k].State()), dt, gameover, draws[k])
        invariant forall k :: i <= k < |enemies| ==> enemies[k].State() == old(enemies[k].State())
        invariant forall k :: 0 <= k < |enemies| ==> Roaming(enemies[k].State())
      {
        enemies[i].Update(dt, gameover, draws[i]);
      }
    }

    /** What an enemy hit leaves alone: the player's mode, avatar and gem count, and where the heart is and whether it is placed. */
    ghost function Untouched(): (bool, Avatar, int, bool, Cell)
      reads player, heart
    {
      (player.start, player.avatar, player.gemCollected, heart.active, heart.Pos())
    }

    /** The effect of one enemy touching the player, as the body of the scan in checkCollisions applies it. */
    method Hit()
      requires Wellformed(player.State())
      modifies player, heart
      ensures Vitals() == Hurt(old(Vitals()))
      ensures Wellformed(player.State())
      ensures Untouched() == old(Untouched())
    {
      if player.life == 1 {
        player.gameover := true;
      } else {
        player.life := player.life - 1;
        player.Reset();
        if player.life == 2 {
          heart.visible := true;
        }
      }
    }

    /**
     * engine.js checkCollisions: every enemy touching the player costs a
     * life, or ends the game on the last one. The player's position is read
     * once before the enemies are scanned, so several enemies can hit in the
     * same frame; the effect is that many hits in a row.
     */
    method CheckCollisions()
      requires Valid()
      modifies player, heart
      ensures Valid()
      ensures Vitals() == HurtTimes(old(Vitals()), EnemiesHitting(old(StatesOf(enemies)), old(player.x), old(player.y)))
      ensures Untouched() == old(Untouched())
      ensures player.start == old(player.start) && player.avatar == old(player.avatar) && player.gemCollected == old(player.gemCollected)
      ensures SceneNow() == WithVitals(old(SceneNow()), Vitals())
    {
      ScanEnemies(player.x, player.y);
      PickupsKeptValid();
    }

    /** The scan inside checkCollisions, against the player position (px, py) read before it. */
    method ScanEnemies(px: int, py: int)
      requires Wellformed(player.State())
      modifies player, heart
      ensures Wellformed(player.State())
      ensures Vitals() == HurtTimes(old(Vitals()), EnemiesHitting(old(StatesOf(enemies)), px, py))
      ensures Untouched() == old(Untouched())
    {
      ghost var states, v0, u0 := StatesOf(enemies), Vitals(), Untouched();
      for i := 0 to |enemies|
        invariant StatesOf(enemies) == states
        invariant HitsSoFar(i, px, py, states, v0, u0)
      {
        VisitEnemy(i, px, py, states, v0, u0);
      }
      assert states[..|enemies|] == states;
    }

    /**
     * Where the scan in checkCollisions stands after the first i enemies,
     * whose states were states, for a player at (px, py) whose vitals were
     * v0: hurt once per enemy so far that touched it, nothing else changed.
     */
    ghost predicate HitsSoFar(i: nat, px: int, py: int, states: seq<EnemyState>, v0: Collision.Vitals, u0: (bool, Avatar, int, bool, Cell))
      reads player, heart
    {
      && i <= |states|
      && Vitals() == HurtTimes(v0, EnemiesHitting(states[..i], px, py))
      && Wellformed(player.State())
      && Untouched() == u0
    }

    /** One turn of the scan in checkCollisions: enemy i, if it touches the player at (px, py), costs a life. */
    method VisitEnemy(i: nat, px: int, py: int, ghost states: seq<EnemyState>, ghost v0: Collision.Vitals, ghost u0: (bool, Avatar, int, bool, Cell))
      requires i < |enemies| == |states| && states[i] == enemies[i].State()
      requires HitsSoFar(i, px, py, states, v0, u0)
      modifies player, heart
      ensures HitsSoFar(i + 1, px, py, states, v0, u0)
    {
      ghost var n := EnemiesHitting(states[..i], px, py);
      assert states[..i + 1][..i] == states[..i];
      assert EnemiesHitting(states[..i + 1], px, py) == n + (if EnemyStateHit(states[i], px, py) then 1 else 0);
      if EnemyHit(enemies[i].x, enemies[i].y, px, py) {
        Hit();
        assert Vitals() == HurtTimes(v0, n + 1);
      }
    }

    /** Moving gem i alone leaves what gem i must avoid as it was. */
    twostate lemma BlockersKept(i: nat)
      requires i < |gems| && forall k :: 0 <= k < |gems| && k != i ==> unchanged(gems[k])
      requires unchanged(heart, key)
      ensures GemBlockers(i) == old(GemBlockers(i))
    {
      var c := gems[i].Pos();
      assert forall k :: 0 <= k < |gems| ==> CellsOf(gems)[k] == old(CellsOf(gems))[i := c][k];
      assert CellsOf(gems) == old(CellsOf(gems))[i := c];
      WithoutUpdate(old(CellsOf(gems)), i, c);
    }

    /** Whether gem i, about to stand on cell c, would share a tile with another gem or an active pickup (the scan in checkGemCollection). */
    method GemClash(i: nat, c: Cell) returns (clash: bool)
      requires i < |gems|
      ensures clash <==> c in GemBlockers(i)
    {
      clash := false;
      for j := 0 to |gems|
        invariant clash <==> exists k :: 0 <= k < j && k != i && gems[k].Pos() == c
      {
        if j != i && c.x == gems[j].x && c.y == gems[j].y {
          clash := true;
        }
      }
      if heart.active && c.x == heart.x && c.y == heart.y {
        clash := true;
      }
      if key.active && c.x == key.x && c.y == key.y {
        clash := true;
      }
      InWithout(CellsOf(gems), i, c);
    }

    /** One turn of the do-while in checkGemCollection: gem i takes draw d, and is checked against the tiles it must avoid. */
    method TryGem(i: nat, d: GemDraw) returns (clash: bool)
      requires i < |gems| && Shape()
      modifies gems[i]
      ensures GemBlockers(i) == old(GemBlockers(i))
      ensures gems[i].Pos() == d.Spot() && gems[i].color == GemColorOf(d.variant)
      ensures clash <==> d.Spot() in GemBlockers(i)
    {
      gems[i].Update(d);
      BlockersKept(i);
      clash := GemClash(i, gems[i].Pos());
    }

    /**
     * The do-while in checkGemCollection: gem i is redrawn until it lands
     * on a tile that GemClash finds free. It stops at the first free draw
     * of the supply; ok is false when the supply has none.
     */
    method RedrawGem(i: nat, supply: seq<GemDraw>) returns (used: nat, ok: bool)
      requires i < |gems| && Shape()
      modifies gems[i]
      ensures GemBlockers(i) == old(GemBlockers(i))
      ensures var k := FirstFree(GemSpots(supply), GemBlockers(i));
        && ok == (k < |supply|)
        && used == (if ok then k + 1 else |supply|)
      ensures 0 < used ==> gems[i].Pos() == supply[used - 1].Spot() && gems[i].color == GemColorOf(supply[used - 1].variant)
      ensures used == 0 ==> gems[i].Pos() == old(gems[i].Pos()) && gems[i].color == old(gems[i].color)
      ensures ok ==> gems[i].Pos() !in GemBlockers(i)
    {
      ghost var blocked := GemBlockers(i);
      ghost var cands := GemSpots(supply);
      used := 0;
      var retry := true;
      while retry && used < |supply|
        invariant Searched(cands, blocked, used, retry)
        invariant GemBlockers(i) == blocked
        invariant 0 < used ==> gems[i].Pos() == cands[used - 1] && gems[i].color == GemColorOf(supply[used - 1].variant)
        invariant used == 0 ==> gems[i].Pos() == old(gems[i].Pos()) && gems[i].color == old(gems[i].color)
      {
        retry := TryGem(i, supply[used]);
        SearchStep(cands, blocked, used, retry);
        used := used + 1;
      }
      SearchDone(cands, blocked, used, retry);
      ok := !retry;
    }

    /**
     * Gem i re-placed after the player collected it: redrawn to the first
     * free tile of the supply, or, when the supply has none, the world hung.
     * Nothing but gem i and the hung flag changes, and the world stays valid.
     */
    method ReplaceGem(i: nat, supply: seq<GemDraw>) returns (used: nat)
      requires Valid() && !hung && i < |gems| && forall d <- supply :: d.Valid()
      modifies this, gems[i]
      ensures Valid()
      ensures unchanged(player) && unchanged(enemies) && unchanged(heart, key)
      ensures forall j :: 0 <= j < |gems| && j != i ==> unchanged(gems[j])
      ensures var k := FirstFree(GemSpots(supply), old(GemBlockers(i)));
        && hung == (k == |supply|)
        && used == (if hung then |supply| else k + 1)
      ensures 0 < used ==> gems[i].Pos() == supply[used - 1].Spot() && gems[i].color == GemColorOf(supply[used - 1].variant)
      ensures used == 0 ==> gems[i].Pos() == old(gems[i].Pos()) && gems[i].color == old(gems[i].color)
      ensures !hung ==> gems[i].Pos() !in old(GemBlockers(i))
      ensures OnGemGrid(old(gems[i].Pos())) ==> OnGemGrid(gems[i].Pos())
      ensures CellsOf(gems) == old(CellsOf(gems))[i := gems[i].Pos()]
      ensures ColorsOf(gems) == old(ColorsOf(gems))[i := gems[i].color]
    {
      var ok;
      used, ok := RedrawGem(i, supply);
      if 0 < used {
        GemDrawOnGrid(supply[used - 1]);
      }
      if !ok {
        hung := true;
      }
      GemMovedValid(i);
      CellsMoved(i);
    }

    /**
     * Gem i alone moved, to a tile of the gem grid that, unless the world
     * hung, none of the other gems and neither active pickup holds: the
     * world is still valid.
     */
    twostate lemma GemMovedValid(i: nat)
      requires old(Valid()) && !old(hung) && i < |gems|
      requires unchanged(player) && unchanged(enemies) && unchanged(heart, key)
      requires forall j :: 0 <= j < |gems| && j != i ==> unchanged(gems[j])
      requires OnGemGrid(gems[i].Pos())
      requires !hung ==> gems[i].Pos() !in old(GemBlockers(i))
      ensures Valid()
    {
      CellsMoved(i);
      if !hung {
        MovedApart(old(CellsOf(gems)), i, gems[i].Pos(), Occupied(heart), Occupied(key));
      }
    }

    /** Gem i alone moved: the cells and colours of the gems are the old ones with gem i's new cell and colour at index i. */
    twostate lemma CellsMoved(i: nat)
      requires i < |gems| && forall j :: 0 <= j < |gems| && j != i ==> unchanged(gems[j])
      ensures CellsOf(gems) == old(CellsOf(gems))[i := gems[i].Pos()]
      ensures ColorsOf(gems) == old(ColorsOf(gems))[i := gems[i].color]
    {
      var c, col := gems[i].Pos(), gems[i].color;
      assert forall k :: 0 <= k < |gems| ==> CellsOf(gems)[k] == old(CellsOf(gems))[i := c][k];
      assert forall k :: 0 <= k < |gems| ==> ColorsOf(gems)[k] == old(ColorsOf(gems))[i := col][k];
    }

    /**
     * One gem the player touched: counted, the key shown on a positive
     * multiple of 7, and the gem re-placed on the first draw of the supply
     * that no other gem and no active pickup holds; the world hangs when the
     * supply has no such draw.
     */
    method CollectGem(i: nat, supply: seq<GemDraw>) returns (used: nat)
      requires Valid() && !hung && i < |gems| && forall d <- supply :: d.Valid()
      modifies this, player, key, gems[i]
      ensures Valid() && used <= |supply|
      ensures player.State() == old(player.State()).(gemCollected := old(player.gemCollected) + 1)
      ensures key.visible == (old(key.visible) || KeyDue(player.gemCollected))
      ensures key.active == old(key.active) && key.Pos() == old(key.Pos())
      ensures var k := FirstFree(GemSpots(supply), old(GemBlockers(i)));
        && (hung <==> k == |supply|)
        && (!hung ==> used == k + 1 && CellsOf(gems) == old(CellsOf(gems))[i := supply[k].Spot()])
      ensures !hung ==> 0 < used && gems[i].Pos() == supply[used - 1].Spot() && gems[i].Pos() !in old(GemBlockers(i))
      ensures !hung ==> gems[i].color == GemColorOf(supply[used - 1].variant)
      ensures !hung ==> ColorsOf(gems) == old(ColorsOf(gems))[i := gems[i].color]
    {
      ghost var blocked := GemBlockers(i);
      CountGem();
      assert Occupied(key) == old(Occupied(key));
      assert GemBlockers(i) == blocked;
      used := ReplaceGem(i, supply);
    }

    /** The count of collected gems goes up by one, and the key shows when the count is a positive multiple of 7. */
    method CountGem()
      requires Valid()
      modifies player, key
      ensures Valid()
      ensures player.State() == old(player.State()).(gemCollected := old(player.gemCollected) + 1)
      ensures key.visible == (old(key.visible) || KeyDue(player.gemCollected))
      ensures key.active == old(key.active) && key.Pos() == old(key.Pos())
    {
      player.gemCollected := player.gemCollected + 1;
      if player.gemCollected % 7 == 0 && player.gemCollected > 0 {
        key.visible := true;
      }
      PickupsKeptValid();
    }

    /**
     * Where the scan in checkGemCollection stands after the first i gems,
     * for a player at (px, py) whose state was p0 and a key whose state was
     * key0 when the scan began over gems on cells with colours colors.
     */
    ghost predicate Scanned(i: nat, px: int, py: int, cells: seq<Cell>, colors: seq<GemColor>, p0: PlayerState, key0: PickupState)
      reads player, key, gems
    {
      ScanSoFar(i, px, py, cells, colors, p0, key0, player.State(), key.State(), CellsOf(gems), ColorsOf(gems))
    }

    /**
     * One turn of the scan in checkGemCollection: gem i, if the player at
     * (px, py) touches it, is collected, taking draws of the supply from
     * index `from` on; `next` is where the following turn starts. With
     * `scan` the outcome of the rest of the scan, this turn is one step of it.
     */
    method VisitGem(i: nat, px: int, py: int, supply: seq<GemDraw>, from: nat,
                    ghost scan: Option<seq<Cell>>, ghost cells: seq<Cell>, ghost colors: seq<GemColor>,
                    ghost p0: PlayerState, ghost key0: PickupState, ghost hs: seq<Cell>, ghost ks: seq<Cell>)
      returns (next: nat)
      requires Valid() && !hung && i < |gems| && from <= |supply| && forall d <- supply :: d.Valid()
      requires Scanned(i, px, py, cells, colors, p0, key0)
      requires Occupied(heart) == hs && Occupied(key) == ks
      requires GemScan(CellsOf(gems), i, px, py, supply[from..], hs, ks) == scan
      modifies this, player, key, gems[i]
      ensures Valid() && from <= next <= |supply|
      ensures !hung ==> Scanned(i + 1, px, py, cells, colors, p0, key0)
      ensures player.State() == old(player.State()).(gemCollected := player.gemCollected)
      ensures player.gemCollected >= old(player.gemCollected)
      ensures key.active == old(key.active) && key.Pos() == old(key.Pos())
      ensures Occupied(heart) == hs && Occupied(key) == ks
      ensures !ItemHit(old(gems[i].Pos()), px, py) ==> next == from && !hung && unchanged(gems[i])
      ensures hung ==> scan == None
      ensures !hung ==> GemScan(CellsOf(gems), i + 1, px, py, supply[next..], hs, ks) == scan
    {
      ghost var p, k, gc, gcol := player.State(), key.State(), CellsOf(gems), ColorsOf(gems);
      if ItemHit(gems[i].Pos(), px, py) {
        next := TakeGem(i, px, py, supply, from, scan, hs, ks);
        if !hung {
          ScanTakeStep(i, px, py, cells, colors, p0, key0, p, k, gc, gcol, player.State(), key.State(), CellsOf(gems), ColorsOf(gems));
        }
      } else {
        next := from;
        GemScanStep(CellsOf(gems), i, px, py, supply[from..], hs, ks);
        ScanPassStep(i, px, py, cells, colors, p0, key0, p, k, gc, gcol);
      }
    }

    /**
     * A touched gem i of the scan in checkGemCollection: counted, and
     * re-placed with the draws of the supply from index `from` on, which is
     * one step of GemScan.
     */
    method TakeGem(i: nat, px: int, py: int, supply: seq<GemDraw>, from: nat, ghost scan: Option<seq<Cell>>, ghost hs: seq<Cell>, ghost ks: seq<Cell>)
      returns (next: nat)
      requires Valid() && !hung && i < |gems| && from <= |supply| && forall d <- supply :: d.Valid()
      requires ItemHit(gems[i].Pos(), px, py)
      requires Occupied(heart) == hs && Occupied(key) == ks
      requires GemScan(CellsOf(gems), i, px, py, supply[from..], hs, ks) == scan
      modifies this, player, key, gems[i]
      ensures Valid() && from <= next <= |supply|
      ensures forall j :: 0 <= j < |gems| && j != i ==> unchanged(gems[j])
      ensures player.State() == old(player.State()).(gemCollected := old(player.gemCollected) + 1)
      ensures key.visible == (old(key.visible) || KeyDue(player.gemCollected))
      ensures key.active == old(key.active) && key.Pos() == old(key.Pos())
      ensures !hung ==> CellsOf(gems) == old(CellsOf(gems))[i := gems[i].Pos()] && ColorsOf(gems) == old(ColorsOf(gems))[i := gems[i].color]
      ensures Occupied(heart) == hs && Occupied(key) == ks
      ensures hung ==> scan == None
      ensures !hung ==> GemScan(CellsOf(gems), i + 1, px, py, supply[next..], hs, ks) == scan
    {
      ghost var c0, blocked, rest := CellsOf(gems), GemBlockers(i), supply[from..];
      ghost var k := FirstFree(GemSpots(rest), blocked);
      assert blocked == Without(c0, i) + hs + ks;
      assert ItemHit(c0[i], px, py);
      GemScanStep(c0, i, px, py, rest, hs, ks);
      var used := CollectGem(i, supply[from..]);
      next := from + used;
      if !hung {
        assert used == k + 1 && CellsOf(gems) == c0[i := rest[k].Spot()];
        assert rest[k + 1..] == supply[next..];
        GemScanTake(c0, i, px, py, rest, hs, ks, k);
      }
    }

    /**
     * engine.js checkGemCollection: every gem the player touches is
     * counted, the key shows when the count reaches a positive multiple of
     * 7, and the gem is re-placed on a free tile. The player's position is
     * read once, before the scan.
     */
    method CheckGemCollection(supply: seq<GemDraw>) returns (used: nat)
      requires Valid() && !hung && forall d <- supply :: d.Valid()
      modifies this, player, key, gems
      ensures Valid() && used <= |supply|
      ensures player.State() == old(player.State()).(gemCollected := player.gemCollected)
      ensures player.gemCollected >= old(player.gemCollected)
      ensures key.active == old(key.active) && key.Pos() == old(key.Pos())
      ensures !hung ==> player.gemCollected == old(player.gemCollected) + CellsHit(old(CellsOf(gems)), old(player.x), old(player.y))
      ensures !hung ==> key.visible == (old(key.visible) || KeyEarnedBetween(old(player.gemCollected), player.gemCollected))
      ensures !hung ==> forall k :: 0 <= k < |gems| && !ItemHit(old(gems[k].Pos()), old(player.x), old(player.y)) ==>
                          gems[k].Pos() == old(gems[k].Pos()) && gems[k].color == old(gems[k].color)
      ensures var r := GemScan(old(CellsOf(gems)), 0, old(player.x), old(player.y), supply, old(Occupied(heart)), old(Occupied(key)));
        && (hung <==> r.None?)
        && (!hung ==> CellsOf(gems) == r.value)
      ensures !hung && old(GemsApart()) ==> GemsApart()
    {
      var px, py := player.x, player.y;
      ghost var cells, colors := CellsOf(gems), ColorsOf(gems);
      ghost var p0, key0 := player.State(), key.State();
      ghost var hs, ks := Occupied(heart), Occupied(key);
      ghost var scan := GemScan(cells, 0, px, py, supply, hs, ks);
      assert supply[0..] == supply;
      used := ScanGems(px, py, supply, scan, cells, colors, p0, key0, hs, ks);
      if !hung {
        assert cells[..|gems|] == cells;
        if Distinct(cells) {
          GemScanApart(cells, 0, px, py, supply, hs, ks);
        }
      }
    }

    /** The for-loop of checkGemCollection, over every gem, for a player at (px, py); `scan` is its outcome as GemScan states it. */
    method ScanGems(px: int, py: int, supply: seq<GemDraw>,
                    ghost scan: Option<seq<Cell>>, ghost cells: seq<Cell>, ghost colors: seq<GemColor>,
                    ghost p0: PlayerState, ghost key0: PickupState, ghost hs: seq<Cell>, ghost ks: seq<Cell>)
      returns (used: nat)
      requires Valid() && !hung && forall d <- supply :: d.Valid()
      requires Scanned(0, px, py, cells, colors, p0, key0)
      requires Occupied(heart) == hs && Occupied(key) == ks
      requires GemScan(CellsOf(gems), 0, px, py, supply, hs, ks) == scan
      modifies this, player, key, gems
      ensures Valid() && used <= |supply|
      ensures player.State() == old(player.State()).(gemCollected := player.gemCollected)
      ensures player.gemCollected >= old(player.gemCollected)
      ensures key.active == old(key.active) && key.Pos() == old(key.Pos())
      ensures hung ==> scan == None
      ensures !hung ==> Scanned(|gems|, px, py, cells, colors, p0, key0) && scan == Some(CellsOf(gems))
    {
      assert supply[0..] == supply;
      used := 0;
      var i := 0;
      while i < |gems|
        invariant i <= |gems| && used <= |supply|
        invariant Valid() && !hung
        invariant Scanned(i, px, py, cells, colors, p0, key0)
        invariant player.State() == old(player.State()).(gemCollected := player.gemCollected)
        invariant player.gemCollected >= old(player.gemCollected)
        invariant key.active == old(key.active) && key.Pos() == old(key.Pos())
        invariant Occupied(heart) == hs && Occupied(key) == ks
        invariant GemScan(CellsOf(gems), i, px, py, supply[used..], hs, ks) == scan
      {
        used := VisitGem(i, px, py, supply, used, scan, cells, colors, p0, key0, hs, ks);
        if hung {
          return;
        }
        i := i + 1;
      }
    }

    /** Whether a pickup standing on cell c would share a tile with a gem or with the other pickup while it is active. */
    method ItemClash(other: Pickup, c: Cell) returns (clash: bool)
      ensures clash <==> c in ItemBlockers(other)
    {
      clash := false;
      for j := 0 to |gems|
        invariant clash <==> exists k :: 0 <= k < j && gems[k].Pos() == c
      {
        if c.x == gems[j].x && c.y == gems[j].y {
          clash := true;
        }
      }
      if other.active && c.x == other.x && c.y == other.y {
        clash := true;
      }
      assert clash <==> c in CellsOf(gems) || c in Occupied(other);
    }

    /** One turn of the do-while in checkHeartPosition and checkKeyLocation: the pickup takes draw d, and is checked against the tiles it must avoid. */
    method TryItem(item: Pickup, other: Pickup, d: ItemDraw) returns (clash: bool)
      requires item != other
      modifies item
      ensures ItemBlockers(other) == old(ItemBlockers(other))
      ensures item.Pos() == d.Spot() && item.visible == old(item.visible) && item.active == old(item.active)
      ensures clash <==> d.Spot() in ItemBlockers(other)
    {
      item.Update(d);
      CellsUnchanged(gems);
      clash := ItemClash(other, item.Pos());
    }

    /**
     * The do-while in checkHeartPosition and checkKeyLocation: the pickup
     * is redrawn until it lands on a tile that ItemClash finds free. It
     * stops at the first free draw of the supply; ok is false when the
     * supply has none.
     */
    method RedrawItem(item: Pickup, other: Pickup, supply: seq<ItemDraw>) returns (used: nat, ok: bool)
      requires item != other
      modifies item
      ensures ItemBlockers(other) == old(ItemBlockers(other))
      ensures var k := FirstFree(ItemSpots(supply), ItemBlockers(other));
        && ok == (k < |supply|)
        && used == (if ok then k + 1 else |supply|)
      ensures item.Pos() == if used == 0 then old(item.Pos()) else supply[used - 1].Spot()
      ensures item.visible == old(item.visible) && item.active == old(item.active)
      ensures ok ==> item.Pos() !in ItemBlockers(other)
    {
      ghost var blocked := ItemBlockers(other);
      ghost var cands := ItemSpots(supply);
      used := 0;
      var retry := true;
      while retry && used < |supply|
        invariant Searched(cands, blocked, used, retry)
        invariant ItemBlockers(other) == blocked
        invariant item.Pos() == if used == 0 then old(item.Pos()) else cands[used - 1]
        invariant item.visible == old(item.visible) && item.active == old(item.active)
      {
        retry := TryItem(item, other, supply[used]);
        SearchStep(cands, blocked, used, retry);
        used := used + 1;
      }
      SearchDone(cands, blocked, used, retry);
      ok := !retry;
    }

    /**
     * Placing a pickup that is not on the board yet: redrawn to the first
     * free tile of the supply and made active, or, when the supply has
     * none, the world hung. A pickup already on the board stays put.
     */
    method PlaceItem(item: Pickup, other: Pickup, supply: seq<ItemDraw>) returns (used: nat)
      requires !hung && item != other && forall d <- supply :: d.Valid()
      modifies this, item
      ensures used <= |supply| && item.visible == old(item.visible)
      ensures item.Pos() == if used == 0 then old(item.Pos()) else supply[used - 1].Spot()
      ensures OnItemGrid(old(item.Pos())) ==> OnItemGrid(item.Pos())
      ensures old(item.active) ==> used == 0 && !hung && item.active
      ensures !old(item.active) ==>
        var k := FirstFree(ItemSpots(supply), old(ItemBlockers(other)));
        && hung == (k == |supply|)
        && used == (if hung then |supply| else k + 1)
        && item.active == !hung
        && (!hung ==> item.Pos() !in old(ItemBlockers(other)))
    {
      if item.active {
        return 0;
      }
      var ok;
      used, ok := RedrawItem(item, other, supply);
      if 0 < used {
        ItemDrawOnGrid(supply[used - 1]);
      }
      if ok {
        item.active := true;
      } else {
        hung := true;
      }
    }

    /** The heart or the key, by kind, and the other one. */
    function Item(kind: PickupKind): Pickup { if kind == HeartItem then heart else key }

    function Other(kind: PickupKind): Pickup { if kind == HeartItem then key else heart }

    /**
     * A pickup alone moved, on the item grid, and either stayed where it
     * was placed already or, newly placed, took a tile no gem and no
     * active other pickup holds: the world is still valid.
     */
    twostate lemma ItemPlacedValid(kind: PickupKind)
      requires old(Valid()) && !old(hung)
      requires unchanged(player) && unchanged(enemies) && unchanged(gems) && unchanged(Other(kind))
      requires OnItemGrid(Item(kind).Pos())
      requires old(Item(kind).active) ==> Item(kind).active && Item(kind).Pos() == old(Item(kind).Pos())
      requires Item(kind).active && !old(Item(kind).active) ==> Item(kind).Pos() !in old(ItemBlockers(Other(kind)))
      ensures Valid()
    {
      CellsUnchanged(gems);
    }

    /** engine.js checkHeartPosition: a heart not yet on the board is placed on a tile no gem and no active key holds. */
    method CheckHeartPosition(supply: seq<ItemDraw>) returns (used: nat)
      requires Valid() && !hung && forall d <- supply :: d.Valid()
      modifies this, heart
      ensures Valid() && used <= |supply|
      ensures heart.visible == old(heart.visible)
      ensures old(heart.active) ==> used == 0 && !hung && heart.State() == old(heart.State())
      ensures !old(heart.active) ==>
        var k := FirstFree(ItemSpots(supply), old(ItemBlockers(key)));
        && hung == (k == |supply|)
        && (!hung ==> used == k + 1 && heart.active && heart.Pos() == supply[k].Spot())
    {
      used := PlaceItem(heart, key, supply);
      ItemPlacedValid(HeartItem);
    }

    /** engine.js checkKeyLocation: a key not yet on the board is placed on a tile no gem and no active heart holds. */
    method CheckKeyLocation(supply: seq<ItemDraw>) returns (used: nat)
      requires Valid() && !hung && forall d <- supply :: d.Valid()
      modifies this, key
      ensures Valid() && used <= |supply|
      ensures key.visible == old(key.visible)
      ensures old(key.active) ==> used == 0 && !hung && key.State() == old(key.State())
      ensures !old(key.active) ==>
        var k := FirstFree(ItemSpots(supply), old(ItemBlockers(heart)));
        && hung == (k == |supply|)
        && (!hung ==> used == k + 1 && key.active && key.Pos() == supply[k].Spot())
    {
      used := PlaceItem(key, heart, supply);
      ItemPlacedValid(KeyItem);
    }

    /** engine.js checkHeartCollection: touching the placed heart gives a life back and takes the heart off the board. */
    method CheckHeartCollection()
      requires Valid()
      modifies player, heart
      ensures Valid()
      ensures var hit := ItemHit(old(heart.Pos()), old(player.x), old(player.y));
        && player.State() == (if hit then old(player.State()).(life := old(player.life) + 1) else old(player.State()))
        && heart.State() == (if hit then Asleep(old(heart.State())) else old(heart.State()))
    {
      if ItemHit(heart.Pos(), player.x, player.y) {
        player.life := player.life + 1;
        heart.Sleep();
      }
      PickupsKeptValid();
    }

    /** engine.js checkKeyCollection: touching the placed key turns the star on and takes the key off the board. */
    method CheckKeyCollection()
      requires Valid()
      modifies star, key
      ensures Valid()
      ensures var hit := ItemHit(old(key.Pos()), player.x, player.y);
        && star.active == (old(star.active) || hit)
        && key.State() == (if hit then Asleep(old(key.State())) else old(key.State()))
      ensures star.x == old(star.x) && star.y == old(star.y)
    {
      if ItemHit(key.Pos(), player.x, player.y) {
        star.active := true;
        key.Sleep();
      }
      PickupsKeptValid();
    }

    /**
     * engine.js update: the entities move; once play has started, enemy
     * hits are checked unless the star is on, then the gems, then the
     * heart and the key when they show, and an active star follows the
     * player.
     */
    method Update(dt: real, draws: TickDraws)
      requires Valid() && draws.Valid()
      modifies this, player, enemies, gems, heart, key, star
      ensures Valid()
      ensures old(hung) ==> unchanged(this, player, enemies, gems, heart, key, star)
      ensures !old(hung) ==> StatesOf(enemies) == Moved(old(StatesOf(enemies)), dt, old(player.gameover), draws.enemies)
      ensures !old(player.start) ==> player.State() == old(player.State()) && unchanged(this, gems, heart, key, star)
      ensures PlayerKept(old(player.State()), player.State(), old(star.active))
      ensures !old(hung) && !hung && old(player.start) && star.active ==> star.x == player.x && star.y == player.y
      ensures !old(hung) && old(player.start) ==>
        var r := PlayTurn(old(SceneNow()), Moved(old(StatesOf(enemies)), dt, old(player.gameover), draws.enemies), draws);
        && (hung <==> r.None?)
        && (!hung ==> SceneNow() == r.value)
    {
      if hung {
        return;
      }
      ghost var sc := SceneNow();
      UpdateEntities(dt, draws.enemies);
      assert SceneNow() == sc;
      if player.start {
        PlayChecks(draws, StatesOf(enemies));
      }
    }

    /** The checks engine.js update makes once play has started, against enemies in states es. */
    method PlayChecks(draws: TickDraws, ghost es: seq<EnemyState>)
      requires Valid() && !hung && draws.Valid() && es == StatesOf(enemies)
      modifies this, player, gems, heart, key, star
      ensures Valid() && unchanged(enemies)
      ensures PlayerKept(old(player.State()), player.State(), old(star.active))
      ensures !hung && star.active ==> star.x == player.x && star.y == player.y
      ensures var r := PlayTurn(old(SceneNow()), es, draws);
        && (hung <==> r.None?)
        && (!hung ==> SceneNow() == r.value)
    {
      EnemyCheck(es);
      ItemChecks(draws);
    }

    /** The enemy check of engine.js update: skipped while the star is on. */
    method EnemyCheck(ghost es: seq<EnemyState>)
      requires Valid() && es == StatesOf(enemies)
      modifies player, heart
      ensures Valid()
      ensures player.start == old(player.start) && player.avatar == old(player.avatar) && player.gemCollected == old(player.gemCollected)
      ensures star.active ==> unchanged(player, heart)
      ensures SceneNow() == EnemyTurn(old(SceneNow()), es)
    {
      if !star.active {
        ghost var sc := SceneNow();
        assert Vitals() == VitalsOf(sc);
        CheckCollisions();
        assert SceneNow() == EnemyTurn(sc, es);
      }
    }

    /** The rest of engine.js update: the gem, heart and key checks, then an active star follows the player. */
    method ItemChecks(draws: TickDraws)
      requires Valid() && !hung && draws.Valid()
      modifies this, player, gems, heart, key, star
      ensures Valid()
      ensures player.start == old(player.start) && player.gameover == old(player.gameover) && player.avatar == old(player.avatar)
      ensures player.x == old(player.x) && player.y == old(player.y)
      ensures player.gemCollected >= old(player.gemCollected) && player.life >= old(player.life)
      ensures !hung && star.active ==> star.x == player.x && star.y == player.y
      ensures var r := ItemsTurn(old(SceneNow()), draws);
        && (hung <==> r.None?)
        && (!hung ==> SceneNow() == r.value)
    {
      ghost var sc := SceneNow();
      Collect(draws);
      ghost var c := SceneNow();
      assert !hung ==> CollectTurn(sc, draws) == Some(c);
      if !hung && star.active {
        FollowStar();
        assert SceneNow() == c.(star := c.star.(x := c.player.x, y := c.player.y));
      }
    }

    /** The invincibility star is drawn over the player. */
    method FollowStar()
      requires Valid()
      modifies star
      ensures Valid()
      ensures star.active == old(star.active) && star.x == player.x && star.y == player.y
    {
      star.Update(player.x, player.y);
      PickupsKeptValid();
    }

    /** The gem, heart and key checks of engine.js update. */
    method Collect(draws: TickDraws)
      requires Valid() && !hung && draws.Valid()
      modifies this, player, gems, heart, key, star
      ensures Valid()
      ensures player.start == old(player.start) && player.gameover == old(player.gameover) && player.avatar == old(player.avatar)
      ensures player.x == old(player.x) && player.y == old(player.y) && player.selector == old(player.selector)
      ensures player.gemCollected >= old(player.gemCollected) && player.life >= old(player.life)
      ensures old(star.active) ==> star.active
      ensures star.x == old(star.x) && star.y == old(star.y)
      ensures var r := CollectTurn(old(SceneNow()), draws);
        && (hung <==> r.None?)
        && (!hung ==> SceneNow() == r.value)
    {
      GemChecks(draws.gems);
      if !hung {
        PickupChecks(draws);
      }
    }

    /** checkGemCollection, in terms of the scene: the turn GemsTurn describes. */
    method GemChecks(supply: seq<GemDraw>)
      requires Valid() && !hung && forall d <- supply :: d.Valid()
      modifies this, player, key, gems
      ensures Valid()
      ensures player.State() == old(player.State()).(gemCollected := player.gemCollected)
      ensures player.gemCollected >= old(player.gemCollected)
      ensures var r := GemsTurn(old(SceneNow()), supply);
        && (hung <==> r.None?)
        && (!hung ==> SceneNow() == r.value)
    {
      ghost var sc := SceneNow();
      assert Occupied(heart) == OccupiedBy(sc.heart) && Occupied(key) == OccupiedBy(sc.key);
      ghost var g := GemScan(sc.gems, 0, sc.player.x, sc.player.y, supply, OccupiedBy(sc.heart), OccupiedBy(sc.key));
      var used := CheckGemCollection(supply);
      assert key.State() == sc.key.(visible := key.visible);
      assert heart.State() == sc.heart;
      if !hung {
        GemsTurnIs(sc, supply, CellsOf(gems), player.State(), key.State());
        assert SceneNow() == sc.(gems := CellsOf(gems), player := player.State(), key := key.State());
      }
    }

    /** The heart and key part of engine.js update: a showing pickup is placed if need be, then checked for collection. */
    method PickupChecks(draws: TickDraws)
      requires Valid() && !hung && draws.Valid()
      modifies this, player, heart, key, star
      ensures Valid()
      ensures var r := PickupsTurn(old(SceneNow()), draws.heart, draws.key);
        && (hung <==> r.None?)
        && (!hung ==> SceneNow() == r.value)
      ensures player.State() == old(player.State()).(life := player.life)
      ensures player.life >= old(player.life)
      ensures old(star.active) ==> star.active
      ensures star.x == old(star.x) && star.y == old(star.y)
    {
      HeartChecks(draws.heart);
      if !hung {
        KeyChecks(draws.key);
      }
    }

    /** The heart part of engine.js update: a showing heart is placed if need be, then checked for collection. */
    method HeartChecks(supply: seq<ItemDraw>)
      requires Valid() && !hung && forall d <- supply :: d.Valid()
      modifies this, player, heart
      ensures Valid()
      ensures var r := HeartTurn(old(SceneNow()), supply);
        && (hung <==> r.None?)
        && (!hung ==> SceneNow() == r.value)
      ensures player.State() == old(player.State()).(life := player.life)
      ensures player.life >= old(player.life)
    {
      if heart.visible {
        ShowHeart(supply);
      }
    }

    /** A showing heart is placed unless it is on the board, then taken if the player touches it, for one life more. */
    method ShowHeart(supply: seq<ItemDraw>)
      requires Valid() && !hung && heart.visible && forall d <- supply :: d.Valid()
      modifies this, player, heart
      ensures Valid()
      ensures var r := PickupTurn(old(heart.State()), old(ItemBlockers(key)), supply, old(player.x), old(player.y));
        && (hung <==> r.None?)
        && (!hung ==> heart.State() == r.value.0)
        && player.State() == old(player.State()).(life := old(player.life) + if !hung && r.value.1 then 1 else 0)
    {
      var used := CheckHeartPosition(supply);
      if !hung && heart.active {
        CheckHeartCollection();
      }
    }

    /** The key part of engine.js update: a showing key is placed if need be, then checked for collection. */
    method KeyChecks(supply: seq<ItemDraw>)
      requires Valid() && !hung && forall d <- supply :: d.Valid()
      modifies this, key, star
      ensures Valid()
      ensures var r := KeyTurn(old(SceneNow()), supply);
        && (hung <==> r.None?)
        && (!hung ==> SceneNow() == r.value)
      ensures old(star.active) ==> star.active
      ensures star.x == old(star.x) && star.y == old(star.y)
    {
      if key.visible {
        ShowKey(supply);
      }
    }

    /** A showing key is placed unless it is on the board, then taken if the player touches it, which turns the star on. */
    method ShowKey(supply: seq<ItemDraw>)
      requires Valid() && !hung && key.visible && forall d <- supply :: d.Valid()
      modifies this, key, star
      ensures Valid()
      ensures var r := PickupTurn(old(key.State()), old(ItemBlockers(heart)), supply, player.x, player.y);
        && (hung <==> r.None?)
        && (!hung ==> key.State() == r.value.0)
        && star.active == (old(star.active) || (!hung && r.value.1))
      ensures star.x == old(star.x) && star.y == old(star.y)
    {
      var used := CheckKeyLocation(supply);
      if !hung && key.active {
        CheckKeyCollection();
      }
    }

    /**
     * A step that moves no gem, no enemy and no pickup, keeps the player
     * well-formed and only takes pickups off the board keeps the world valid.
     */
    twostate lemma PickupsKeptValid()
      requires old(Valid()) && Wellformed(player.State())
      requires unchanged(this) && unchanged(enemies) && unchanged(gems)
      requires heart.Pos() == old(heart.Pos()) && key.Pos() == old(key.Pos())
      requires (heart.active ==> old(heart.active)) && (key.active ==> old(key.active))
      ensures Valid()
    {
      CellsUnchanged(gems);
    }

    /** The last step of engine.js render: once the game is over, the heart, the star and the key are put away. */
    method GameOverStep()
      requires Valid()
      modifies heart, key, star
      ensures Valid()
      ensures player.gameover ==> heart.State() == Asleep(old(heart.State())) && key.State() == Asleep(old(key.State()))
      ensures player.gameover ==> !star.active && star.x == old(star.x) && star.y == old(star.y)
      ensures !player.gameover ==> unchanged(heart, key, star)
      ensures SceneNow() == AfterRender(old(SceneNow()))
      ensures StatesOf(enemies) == old(StatesOf(enemies))
    {
      if player.gameover {
        heart.Sleep();
        star.Sleep();
        key.Sleep();
      }
      PickupsKeptValid();
    }

    /** The state changes of engine.js render, which only runs once update has returned. */
    method Render()
      requires Valid()
      modifies heart, key, star
      ensures Valid()
      ensures hung ==> unchanged(heart, key, star)
      ensures !hung ==> SceneNow() == AfterRender(old(SceneNow()))
      ensures !hung && player.gameover ==> !heart.visible && !heart.active && !key.visible && !key.active && !star.active
      ensures StatesOf(enemies) == old(StatesOf(enemies))
    {
      if !hung {
        GameOverStep();
      }
    }

    /** One turn of engine.js main: update, then the state changes render makes. */
    method Frame(dt: real, draws: TickDraws)
      requires Valid() && draws.Valid()
      modifies this, player, enemies, gems, heart, key, star
      ensures Valid()
      ensures old(hung) ==> unchanged(this, player, enemies, gems, heart, key, star)
      ensures !hung && player.gameover ==> !heart.visible && !heart.active && !key.visible && !key.active && !star.active
      ensures !old(hung) ==> StatesOf(enemies) == Moved(old(StatesOf(enemies)), dt, old(player.gameover), draws.enemies)
      ensures !old(hung) && !old(player.start) ==> !hung && SceneNow() == AfterRender(old(SceneNow()))
      ensures !old(hung) && old(player.start) ==>
        var r := PlayTurn(old(SceneNow()), Moved(old(StatesOf(enemies)), dt, old(player.gameover), draws.enemies), draws);
        && (hung <==> r.None?)
        && (!hung ==> SceneNow() == AfterRender(r.value))
    {
      Update(dt, draws);
      Render();
    }

    /** The keydown listener of app.js: the key code is translated through the key map and handed to the player. */
    method KeyDown(code: int)
      requires Valid()
      modifies player
      ensures Valid()
      ensures old(hung) ==> unchanged(player)
      ensures !old(hung) ==> player.State() == Step(old(player.State()), InputOfCode(code))
    {
      if !hung {
        player.HandleInput(InputOfCode(code));
      }
      PickupsKeptValid();
    }

    /** The callback engine.js main schedules while the star is on: the star goes off, five seconds later. */
    method ExpireStar()
      requires Valid()
      modifies star
      ensures Valid()
      ensures old(hung) ==> unchanged(star)
      ensures !old(hung) ==> !star.active && star.x == old(star.x) && star.y == old(star.y)
    {
      if !hung {
        star.active := false;
      }
      PickupsKeptValid();
    }
  }

  /**
   * Page load: the enemies, the player, the five gems from the seeding
   * loop with acceptance test `rule` (as written, or corrected), the hidden
   * heart and key, and the star. No world comes out when the gem supply
   * runs dry before five gems are accepted. The world is valid either way;
   * its gems are apart exactly when the seeding picked distinct tiles,
   * which the corrected test always does.
   */
  method NewGame(rule: Seeding.Rule, enemyDraws: seq<EnemyDraw>, gemSupply: seq<GemDraw>, heartDraw: ItemDraw, keyDraw: ItemDraw)
    returns (w: Option<World>)
    requires |enemyDraws| == EnemyNum && forall d <- enemyDraws :: d.Valid()
    requires (forall d <- gemSupply :: d.Valid()) && heartDraw.Valid() && keyDraw.Valid()
    ensures w.Some? <==> Seeding.Seed(rule, gemSupply).Some?
    ensures w.Some? ==> w.value.Valid() && !w.value.hung && w.value.player.State() == NewPlayer()
    ensures w.Some? ==> var picked := Seeding.Seed(rule, gemSupply).value.picked;
      && |w.value.gems| == |picked|
      && (forall i :: 0 <= i < |picked| ==> w.value.gems[i].Pos() == picked[i].Spot())
      && (w.value.GemsApart() <==> Seeding.SpotsDistinct(picked))
    ensures w.Some? && rule == Seeding.NoOverlap ==> w.value.GemsApart()
  {
    var picked, used, ok := Seeding.SeedGems(rule, gemSupply);
    if !ok {
      return None;
    }
    Seeding.SeedSound(rule, gemSupply);
    if rule == Seeding.NoOverlap {
      Seeding.SeedNoOverlapDistinct(gemSupply);
    }
    var world := new World(enemyDraws, picked, heartDraw, keyDraw);
    w := Some(world);
  }
}
