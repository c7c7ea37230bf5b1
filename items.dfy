/** A falling item: a friend to catch or a bomb to avoid. */
module Items {
  import opened Geometry
  import opened Difficulty

  /** Edge length of an item's square box, for drawing and hit-testing alike. */
  const ItemSize: real := 50.0

  datatype Kind = Friend | Bomb

  /** The state of one falling item; the picture drawn for it is left out. */
  datatype Item = Item(x: real, y: real, width: real, height: real, kind: Kind, speed: real)

  /** What every item on the field satisfies: a 50 x 50 box lying fully within
      the field horizontally, falling at least one pixel per frame. */
  predicate WellFormed(it: Item) {
    && it.width == ItemSize
    && it.height == ItemSize
    && 0.0 <= it.x < CanvasWidth - ItemSize
    && it.speed >= MinFallSpeed
  }

  predicate AllWellFormed(s: seq<Item>) {
    forall j :: 0 <= j < |s| ==> WellFormed(s[j])
  }

  /** A new item at horizontal position x, placed just above the visible field;
      its speed is drawn with r and scaled by the score at spawn time. */
  function NewItem(x: real, kind: Kind, score: int, r: Random): (it: Item)
    ensures it.y + it.height == 0.0
    ensures it.kind == kind && it.x == x
    ensures score >= 0 && 0.0 <= x < CanvasWidth - ItemSize ==> WellFormed(it)
    ensures score >= 0 ==> SpeedMultiplier(score) <= it.speed < MaxFallSpeed * SpeedMultiplier(score)
  {
    Item(x, -ItemSize, ItemSize, ItemSize, kind, FallSpeed(r, score))
  }

  /** The kind of a spawned item: a bomb exactly when the draw falls below the bomb chance. */
  function KindFor(r: Random, score: int): Kind {
    if r < BombChance(score) then Bomb else Friend
  }

  /** For every non-negative score, a draw below 0.2 gives a bomb; a draw of one half or more gives a friend. */
  lemma KindWindow(r: Random, score: int)
    requires score >= 0
    ensures r < 0.2 ==> KindFor(r, score) == Bomb
    ensures r >= 0.5 ==> KindFor(r, score) == Friend
  {
  }

  /** The spawn column: a uniform draw scaled so the whole box stays inside the field. */
  function SpawnX(r: Random): (x: real)
    ensures 0.0 <= x < CanvasWidth - ItemSize
  {
    r * (CanvasWidth - ItemSize)
  }

  /** One frame of motion: the item moves down by its own speed. */
  function Update(it: Item): (r: Item)
    ensures WellFormed(it) ==> WellFormed(r) && r.y >= it.y + MinFallSpeed
    ensures r.y - it.y == it.speed && r.(y := it.y) == it
  {
    it.(y := it.y + it.speed)
  }

  /** The item has passed the bottom edge of the field. */
  predicate BelowField(it: Item) {
    it.y > CanvasHeight
  }

  /** The point lies inside the item's box; all four edges count as inside. */
  predicate Contains(it: Item, p: Point) {
    it.x <= p.x <= it.x + it.width && it.y <= p.y <= it.y + it.height
  }
}
