/**
 * The entities of the game (app.js): the enemy bugs, the player with its
 * character-select and play modes, the gems, the heart and key pickups and
 * the invincibility star. Each source object whose methods update its
 * fields is a class; the value-level functions beside them specify what
 * those methods do and carry the properties the game relies on.
 */
module Entities {
  import opened Wrappers
  import opened Board

  // ---------------------------------------------------------------------
  // Keyboard input

  /** The symbolic keys the game reacts to. */
  datatype Input = Enter | Space | Left | Up | Right | Down

  /** The keydown table: a key code maps to its symbol, any other code to `undefined`. */
  function InputOfCode(code: int): Option<Input>
  {
    if code == 13 then Some(Enter)
    else if code == 32 then Some(Space)
    else if code == 37 then Some(Left)
    else if code == 38 then Some(Up)
    else if code == 39 then Some(Right)
    else if code == 40 then Some(Down)
    else None
  }

  /** The key code of each symbol, the inverse of the table. */
  function KeyCode(k: Input): int
  {
    match k
    case Enter => 13
    case Space => 32
    case Left => 37
    case Up => 38
    case Right => 39
    case Down => 40
  }

  /** The table and its inverse agree in both directions. */
  lemma InputOfCodeInverse(code: int, k: Input)
    ensures InputOfCode(code) == Some(k) <==> KeyCode(k) == code
  {
  }

  // ---------------------------------------------------------------------
  // Enemies

  /** An enemy's position and speed; x moves in real time, so it is real. */
  datatype EnemyState = EnemyState(x: real, y: int, speed: int)

  ghost predicate OnStoneRow(y: int) {
    exists row :: 1 <= row <= GemRows && y == RowY(row)
  }

  /** What every enemy keeps: it runs along a stone row at a speed in [100, 400]. */
  ghost predicate Roaming(s: EnemyState) {
    OnStoneRow(s.y) && 100 <= s.speed <= 400
  }

  /** A fresh or recycled enemy: just off the left border, on the drawn row, at the drawn speed. */
  function Spawn(d: EnemyDraw): (s: EnemyState)
    requires d.Valid()
    ensures s.x == (BorderLeft - ElementWidth) as real && s.x == -101.0
    ensures Roaming(s) && s.y == RowY(d.row) && s.speed == d.speed
  {
    EnemyState((BorderLeft - ElementWidth) as real, RowY(d.row), d.speed)
  }

  /** One tick of an enemy: paused, recycled past the right border, or moved by speed * dt. */
  function Advance(s: EnemyState, dt: real, pause: bool, d: EnemyDraw): (r: EnemyState)
    requires d.Valid()
    ensures pause ==> r == s
    ensures !pause && s.x > BorderRight as real ==>
      r.x == -101.0 && OnStoneRow(r.y) && 100 <= r.speed <= 400
    ensures !pause && s.x <= BorderRight as real ==>
      r.x == s.x + s.speed as real * dt && r.y == s.y && r.speed == s.speed
    ensures Roaming(s) ==> Roaming(r)
  {
    if pause then s
    else if s.x > BorderRight as real then Spawn(d)
    else s.(x := s.x + s.speed as real * dt)
  }

  class Enemy {
    var x: real
    var y: int
    var speed: int

    function State(): EnemyState
      reads this
    {
      EnemyState(x, y, speed)
    }

    constructor (d: EnemyDraw)
      requires d.Valid()
      ensures State() == Spawn(d)
    {
      speed := d.speed;
      x := (BorderLeft - ElementWidth) as real;
      y := d.row * ElementDy - 20;
    }

    method Reset(d: EnemyDraw)
      requires d.Valid()
      modifies this
      ensures State() == Spawn(d)
    {
      speed := d.speed;
      x := (BorderLeft - ElementWidth) as real;
      y := d.row * ElementDy - 20;
    }

    method Update(dt: real, pause: bool, d: EnemyDraw)
      requires d.Valid()
      modifies this
      ensures State() == Advance(old(State()), dt, pause, d)
    {
      if !pause {
        if x > BorderRight as real {
          x := (BorderLeft - ElementWidth) as real;
          y := d.row * ElementDy - 20;
          speed := d.speed;
        } else {
          x := x + speed as real * dt;
        }
      }
    }
  }

  // ---------------------------------------------------------------------
  // The player

  /** The player's sprite: the selector frame, or one of the five characters. */
  datatype Avatar = SelectorImage | CatGirl | HornGirl | Boy | PinkGirl | PrincessGirl

  /** The character in each of the five select-screen slots; no sprite for any other slot. */
  function Character(selector: int): (a: Option<Avatar>)
    ensures a.Some? <==> 0 <= selector <= 4
    ensures a != Some(SelectorImage)
  {
    if selector == 0 then Some(CatGirl)
    else if selector == 1 then Some(HornGirl)
    else if selector == 2 then Some(Boy)
    else if selector == 3 then Some(PinkGirl)
    else if selector == 4 then Some(PrincessGirl)
    else None
  }

  /** Different slots hold different characters. */
  lemma CharacterInjective(i: int, j: int)
    requires Character(i).Some? && Character(i) == Character(j)
    ensures i == j
  {
  }

  datatype PlayerState = PlayerState(
    start: bool, gameover: bool, selector: int, life: int,
    avatar: Avatar, gemCollected: int, x: int, y: int)

  const SpawnX: int := ElementWidth * 3
  const SpawnY: int := ElementDy * 7 - 30
  const MoveStep: int := 5

  /** On the select screen the frame sits over the slot the selector names. */
  ghost predicate InSlot(p: PlayerState) {
    0 <= p.selector <= 4 && p.x == (p.selector + 1) * ElementWidth
  }

  /** What every reachable player state satisfies. */
  ghost predicate Wellformed(p: PlayerState) {
    && 0 <= p.selector <= 4
    && WaterlineValue <= p.y <= BorderBottom
    && BorderLeft <= p.x <= BorderRight - ElementWidth
    && (!p.start ==> InSlot(p))
    && p.life >= 1
    && p.gemCollected >= 0
  }

  function NewPlayer(): (p: PlayerState)
    ensures Wellformed(p) && !p.start && !p.gameover && p.life == 3 && p.gemCollected == 0
  {
    PlayerState(false, false, 2, 3, SelectorImage, 0, ElementWidth * 3, ElementDy * 7 - 30)
  }

  /** Player.reset: back to the spawn tile with the middle slot selected. */
  function Respawn(p: PlayerState): (q: PlayerState)
    ensures q.x == SpawnX == 303 && q.y == SpawnY == 551 && q.selector == 2 && InSlot(q)
    ensures q.(x := p.x, y := p.y, selector := p.selector) == p
  {
    p.(x := ElementWidth * 3, y := ElementDy * 7 - 30, selector := 2)
  }

  /** Player.change: the sprite of the selected slot; an out-of-range selector keeps the sprite. */
  function ChangeAvatar(p: PlayerState): PlayerState
  {
    match Character(p.selector)
    case Some(a) => p.(avatar := a)
    case None => p
  }

  /** The character-select branch of Player.update. */
  function SelectScreen(p: PlayerState, key: Option<Input>): PlayerState
  {
    match key
    case Some(Enter) => Respawn(ChangeAvatar(p.(start := true)))
    case Some(Left) =>
      var x := p.x - ElementWidth;
      p.(x := if x < ElementWidth then ElementWidth else x, selector := p.selector - 1)
    case Some(Right) =>
      var x := p.x + ElementWidth;
      p.(x := if x > 5 * ElementWidth then 5 * ElementWidth else x, selector := p.selector + 1)
    case _ => p
  }

  /** The play branch of Player.update: restart on space, 5-pixel moves unless the game is over. */
  function PlayScreen(p: PlayerState, key: Option<Input>): PlayerState
  {
    match key
    case Some(Space) =>
      if p.gameover then
        Respawn(p.(start := false, gameover := false, avatar := SelectorImage, life := 3, gemCollected := 0))
      else p
    case Some(Left) =>
      if p.gameover then p
      else
        var x := p.x - MoveStep;
        p.(x := if x < BorderLeft then BorderLeft else x)
    case Some(Right) =>
      if p.gameover then p
      else
        var x := p.x + MoveStep;
        p.(x := if x > BorderRight - ElementWidth then BorderRight - ElementWidth else x)
    case Some(Up) => if p.gameover then p else p.(y := p.y - MoveStep)
    case Some(Down) => if p.gameover then p else p.(y := p.y + MoveStep)
    case _ => p
  }

  /** The clamping pass that ends every Player.update. */
  function Clamped(p: PlayerState): PlayerState
  {
    var s := if p.selector < 0 then 0 else p.selector;
    var y := if p.y < WaterlineValue then WaterlineValue else p.y;
    p.(selector := if s > 4 then 4 else s, y := if y > BorderBottom then BorderBottom else y)
  }

  /** Player.update(key): one input, `None` for an unknown key or the engine's per-tick call. */
  function Step(p: PlayerState, key: Option<Input>): (q: PlayerState)
    ensures WaterlineValue <= q.y <= BorderBottom
    ensures 0 <= q.selector <= 4
    ensures BorderLeft <= p.x <= BorderRight - ElementWidth ==> BorderLeft <= q.x <= BorderRight - ElementWidth
    ensures Wellformed(p) ==> Wellformed(q)
  {
    Clamped(if !p.start then SelectScreen(p, key) else PlayScreen(p, key))
  }

  /** A sequence of inputs, one Player.update each. */
  function Run(p: PlayerState, keys: seq<Option<Input>>): PlayerState
    decreases |keys|
  {
    if keys == [] then p else Run(Step(p, keys[0]), keys[1..])
  }

  /** The engine's key-less call leaves a well-formed player as it is. */
  lemma IdleStepIsIdentity(p: PlayerState)
    requires Wellformed(p)
    ensures Step(p, None) == p
  {
  }

  /** On the select screen left, right and unknown keys keep the frame over a slot. */
  lemma SelectKeepsSlot(p: PlayerState, key: Option<Input>)
    requires !p.start && InSlot(p) && key != Some(Enter)
    ensures !Step(p, key).start && InSlot(Step(p, key))
  {
  }

  /** ... and so does any sequence of them, however long. */
  lemma {:induction false} SelectRunKeepsSlot(p: PlayerState, keys: seq<Option<Input>>)
    requires !p.start && InSlot(p) && Some(Enter) !in keys
    ensures !Run(p, keys).start && InSlot(Run(p, keys))
    decreases |keys|
  {
    if keys != [] {
      SelectKeepsSlot(p, keys[0]);
      assert Some(Enter) !in keys[1..] by {
        forall k | k in keys[1..] ensures k in keys { }
      }
      SelectRunKeepsSlot(Step(p, keys[0]), keys[1..]);
    }
  }

  /** Enter on the select screen starts play with the chosen character, back at spawn. */
  lemma EnterStartsPlay(p: PlayerState)
    requires !p.start && InSlot(p)
    ensures var q := Step(p, Some(Enter));
      && q.start && Some(q.avatar) == Character(p.selector)
      && q.x == SpawnX && q.y == SpawnY && q.selector == 2
      && q.gameover == p.gameover && q.life == p.life && q.gemCollected == p.gemCollected
  {
  }

  /** Space after a game over returns to the select screen with a brand-new player. */
  lemma SpaceRestarts(p: PlayerState)
    requires p.start && p.gameover
    ensures Step(p, Some(Space)) == NewPlayer()
  {
  }

  /** Space during play does nothing. */
  lemma SpaceWhilePlayingIgnored(p: PlayerState)
    requires Wellformed(p) && p.start && !p.gameover
    ensures Step(p, Some(Space)) == p
  {
  }

  /** While the game is over, every key but space leaves the player where it is. */
  lemma GameOverFreezesPlayer(p: PlayerState, key: Option<Input>)
    requires Wellformed(p) && p.start && p.gameover && key != Some(Space)
    ensures Step(p, key) == p
  {
  }

  class Player {
    var start: bool
    var gameover: bool
    var selector: int
    var life: int
    var avatar: Avatar
    var gemCollected: int
    var x: int
    var y: int

    function State(): PlayerState
      reads this
    {
      PlayerState(start, gameover, selector, life, avatar, gemCollected, x, y)
    }

    constructor ()
      ensures State() == NewPlayer()
    {
      start := false;
      gameover := false;
      selector := 2;
      life := 3;
      avatar := SelectorImage;
      gemCollected := 0;
      x := ElementWidth * 3;
      y := ElementDy * 7 - 30;
    }

    method Reset()
      modifies this
      ensures State() == Respawn(old(State()))
    {
      x := ElementWidth * 3;
      y := ElementDy * 7 - 30;
      selector := 2;
    }

    method Change()
      modifies this
      ensures State() == ChangeAvatar(old(State()))
    {
      if selector == 0 {
        avatar := CatGirl;
      } else if selector == 1 {
        avatar := HornGirl;
      } else if selector == 2 {
        avatar := Boy;
      } else if selector == 3 {
        avatar := PinkGirl;
      } else if selector == 4 {
        avatar := PrincessGirl;
      }
    }

    method Update(key: Option<Input>)
      modifies this
      ensures State() == Step(old(State()), key)
    {
      if !start {
        SelectInput(key);
      } else {
        PlayInput(key);
      }
      Clamp();
    }

    /** The selection-screen branch of update: choose an avatar, or start with the chosen one. */
    method SelectInput(key: Option<Input>)
      requires !start
      modifies this
      ensures State() == SelectScreen(old(State()), key)
    {
      match key {
        case Some(Enter) =>
          start := true;
          Change();
          Reset();
        case Some(Left) =>
          x := x - ElementWidth;
          selector := selector - 1;
          if x < ElementWidth {
            x := ElementWidth;
          }
        case Some(Right) =>
          x := x + ElementWidth;
          selector := selector + 1;
          if x > 5 * ElementWidth {
            x := 5 * ElementWidth;
          }
        case _ =>
      }
    }

    /** The play branch of update: restart after a game over, or move unless the game is over. */
    method PlayInput(key: Option<Input>)
      requires start
      modifies this
      ensures State() == PlayScreen(old(State()), key)
    {
      var step := MoveStep;
      match key {
        case Some(Space) =>
          if gameover {
            start := false;
            gameover := false;
            avatar := SelectorImage;
            life := 3;
            gemCollected := 0;
            Reset();
          }
        case Some(Left) =>
          if !gameover {
            x := x - step;
            if x < BorderLeft {
              x := BorderLeft;
            }
          }
        case Some(Right) =>
          if !gameover {
            x := x + step;
            if x > BorderRight - ElementWidth {
              x := BorderRight - ElementWidth;
            }
          }
        case Some(Up) =>
          if !gameover {
            y := y - step;
          }
        case Some(Down) =>
          if !gameover {
            y := y + step;
          }
        case _ =>
      }
    }

    /** The bounds update applies after either branch: the selector stays in 0..4 and y between the water line and the bottom border. */
    method Clamp()
      modifies this
      ensures State() == Clamped(old(State()))
    {
      if selector < 0 {
        selector := 0;
      }
      if selector > 4 {
        selector := 4;
      }
      if y < WaterlineValue {
        y := WaterlineValue;
      }
      if y > BorderBottom {
        y := BorderBottom;
      }
    }

    method HandleInput(key: Option<Input>)
      modifies this
      ensures State() == Step(old(State()), key)
    {
      Update(key);
    }
  }

  // ---------------------------------------------------------------------
  // Gems

  datatype GemColor = Blue | Green | Orange

  /** The sprite switch of a gem; a variant outside 0..2 falls back to blue. */
  function GemColorOf(variant: int): GemColor
  {
    if variant == 1 then Green else if variant == 2 then Orange else Blue
  }

  class Gem {
    var color: GemColor
    var x: int
    var y: int

    function Pos(): Cell
      reads this
    {
      Cell(x, y)
    }

    constructor (d: GemDraw)
      ensures color == GemColorOf(d.variant) && Pos() == d.Spot()
    {
      color := GemColorOf(d.variant);
      x := d.col * ElementWidth;
      y := d.row * ElementDy - 20;
    }

    method Update(d: GemDraw)
      modifies this
      ensures color == GemColorOf(d.variant) && Pos() == d.Spot()
    {
      color := GemColorOf(d.variant);
      x := d.col * ElementWidth;
      y := d.row * ElementDy - 20;
    }
  }

  // ---------------------------------------------------------------------
  // The heart and the key

  datatype PickupKind = HeartItem | KeyItem

  /**
   * `visible`: the pickup has been earned; `active`: it has been given a
   * tile clear of the gems and takes part in collisions.
   */
  datatype PickupState = PickupState(visible: bool, active: bool, x: int, y: int)

  /** sleep: hidden and inactive, position kept. */
  function Asleep(s: PickupState): (r: PickupState)
    ensures !r.visible && !r.active && r.x == s.x && r.y == s.y
  {
    s.(visible := false, active := false)
  }

  /** Putting a pickup to sleep twice is the same as once. */
  lemma AsleepIdempotent(s: PickupState)
    ensures Asleep(Asleep(s)) == Asleep(s)
  {
  }

  class Pickup {
    const kind: PickupKind
    var visible: bool
    var active: bool
    var x: int
    var y: int

    function Pos(): Cell
      reads this
    {
      Cell(x, y)
    }

    function State(): PickupState
      reads this
    {
      PickupState(visible, active, x, y)
    }

    constructor (kind: PickupKind, d: ItemDraw)
      ensures this.kind == kind
      ensures !visible && !active && Pos() == d.Spot()
    {
      this.kind := kind;
      visible := false;
      active := false;
      x := d.col * ElementWidth;
      y := d.row * ElementDy - 20;
    }

    method Update(d: ItemDraw)
      modifies this
      ensures Pos() == d.Spot() && visible == old(visible) && active == old(active)
    {
      x := d.col * ElementWidth;
      y := d.row * ElementDy - 20;
    }

    method Sleep()
      modifies this
      ensures State() == Asleep(old(State()))
    {
      visible := false;
      active := false;
    }
  }

  // ---------------------------------------------------------------------
  // The invincibility star

  class Star {
    var active: bool
    var x: int
    var y: int

    constructor ()
      ensures !active && x == 0 && y == 0
    {
      active := false;
      x := 0;
      y := 0;
    }

    method Update(sx: int, sy: int)
      modifies this
      ensures x == sx && y == sy && active == old(active)
    {
      x := sx;
      y := sy;
    }

    method Sleep()
      modifies this
      ensures !active && x == old(x) && y == old(y)
    {
      active := false;
    }
  }
}
