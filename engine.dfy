/** The game state and, for each handler of the game script, the state it
    leaves behind: the specification the class Session.Game is proved against.

    Timers are modelled by what the script can observe of them: the interval
    last passed to setInterval, whether the stored handle still names a live
    timer, and how many interval timers are live in all. */
module Engine {
  import opened Geometry
  import opened Difficulty
  import opened Items

  const InitialLives: int := 30
  const FriendPoints: int := 10
  /** The score step at which the spawn interval is recomputed and re-armed. */
  const RearmEvery: int := 50
  /** Pictures that must report loaded (or failed) before a session may start. */
  const TotalImages: int := 2

  datatype Option<T> = None | Some(value: T)

  datatype GameState = GameState(
    score: int,
    lives: int,
    items: seq<Item>,
    isPlaying: bool,
    spawnIntervalMs: real,
    timerArmed: bool,      // the stored interval handle names a live timer
    liveTimers: int,       // interval timers live in all, including any no handle names
    imagesLoaded: int,
    assetsLoaded: bool)

  /** The state when the script has been loaded and nothing has happened yet. */
  function Initial(): GameState {
    GameState(0, InitialLives, [], false, SpawnIntervalMs, false, 0, 0, false)
  }

  /** The last multiple of RearmEvery that the score has reached. */
  function Milestone(score: int): int {
    score - score % RearmEvery
  }

  /** What every reachable state satisfies. */
  predicate Inv(s: GameState) {
    && s.score >= 0 && s.score % FriendPoints == 0
    && (s.isPlaying ==> s.lives > 0)
    && s.timerArmed == s.isPlaying
    && s.liveTimers == (if s.timerArmed then 1 else 0)
    && s.spawnIntervalMs == SpawnIntervalFor(Milestone(s.score))
    && s.imagesLoaded >= 0
    && s.assetsLoaded == (s.imagesLoaded >= TotalImages)
    && AllWellFormed(s.items)
  }

  /** `splice(k, 1)`: the sequence without its k-th element. */
  function Remove(s: seq<Item>, k: nat): (r: seq<Item>)
    requires k < |s|
    ensures |r| == |s| - 1
  {
    s[..k] + s[k + 1..]
  }

  // ---- timers and session end ----

  /** clearInterval on the stored handle: the timer it names, if live, stops. */
  function ClearTimer(s: GameState): GameState {
    if s.timerArmed then s.(timerArmed := false, liveTimers := s.liveTimers - 1) else s
  }

  /** setInterval: one more live timer, and the handle now names it. */
  function SetTimer(s: GameState, ms: real): GameState {
    s.(timerArmed := true, liveTimers := s.liveTimers + 1, spawnIntervalMs := ms)
  }

  function EndGame(s: GameState): GameState {
    ClearTimer(s.(isPlaying := false))
  }

  // ---- asset readiness and session start ----

  /** One picture reported loaded or failed. */
  function ImageLoaded(s: GameState): GameState {
    var count := s.imagesLoaded + 1;
    if count == TotalImages then s.(imagesLoaded := count, assetsLoaded := true)
    else s.(imagesLoaded := count)
  }

  function StartGame(s: GameState): GameState {
    if !s.assetsLoaded then s
    else SetTimer(ClearTimer(s.(score := 0, lives := InitialLives, items := [], isPlaying := true)), SpawnIntervalMs)
  }

  // ---- spawning ----

  /** The spawn timer fired: one item, drawn with rKind, rX and rSpeed, joins the field. */
  function SpawnItem(s: GameState, rKind: Random, rX: Random, rSpeed: Random): GameState {
    s.(items := s.items + [NewItem(SpawnX(rX), KindFor(rKind, s.score), s.score, rSpeed)])
  }

  // ---- one animation frame ----

  /** Items, lives and whether the game ended, part way through a frame. */
  datatype Frame = Frame(items: seq<Item>, lives: int, ended: bool)

  /** The frame loop from index i - 1 down to 0: each item moves, and one that
      has passed the bottom is removed; a friend passing the bottom costs a life,
      and the life that brings lives to zero ends the frame on the spot, leaving
      that friend in place and the items below it unmoved. */
  function TickFrom(items: seq<Item>, i: nat, lives: int): (f: Frame)
    requires i <= |items|
    ensures |f.items| <= |items|
    ensures f.lives <= lives
    ensures f.ended ==> f.lives <= 0
    decreases i
  {
    if i == 0 then Frame(items, lives, false)
    else
      var k := i - 1;
      var moved := Update(items[k]);
      var current := items[k := moved];
      if !BelowField(moved) then TickFrom(current, k, lives)
      else if moved.kind == Friend && lives - 1 <= 0 then Frame(current, lives - 1, true)
      else TickFrom(Remove(current, k), k, if moved.kind == Friend then lives - 1 else lives)
  }

  function GameLoop(s: GameState): GameState {
    if !s.isPlaying then s
    else
      var f := TickFrom(s.items, |s.items|, s.lives);
      var t := s.(items := f.items, lives := f.lives);
      if f.ended then EndGame(t) else t
  }

  // ---- reference definitions for a whole frame ----

  /** The item will have passed the bottom after this frame's move. */
  predicate Escapes(it: Item) {
    BelowField(Update(it))
  }

  /** A friend that escapes this frame: a missed catch. */
  predicate IsMiss(it: Item) {
    it.kind == Friend && Escapes(it)
  }

  /** The moved items still on the field after a frame, in their original order. */
  function Kept(s: seq<Item>): (r: seq<Item>)
    ensures |r| <= |s|
  {
    if s == [] then []
    else
      var moved := Update(s[|s| - 1]);
      Kept(s[..|s| - 1]) + if BelowField(moved) then [] else [moved]
  }

  /** How many friends escape this frame. */
  function Misses(s: seq<Item>): (n: nat)
    ensures n <= |s|
  {
    if s == [] then 0
    else Misses(s[..|s| - 1]) + if IsMiss(s[|s| - 1]) then 1 else 0
  }

  // ---- pointer input ----

  /** The index of the newest item whose box contains p, if any. */
  function TopmostHit(items: seq<Item>, p: Point): (r: Option<nat>)
    ensures r.None? <==> forall j :: 0 <= j < |items| ==> !Contains(items[j], p)
    ensures r.Some? ==> r.value < |items| && Contains(items[r.value], p)
    ensures r.Some? ==> forall j :: r.value < j < |items| ==> !Contains(items[j], p)
    decreases |items|
  {
    if items == [] then None
    else if Contains(items[|items| - 1], p) then Some(|items| - 1)
    else TopmostHit(items[..|items| - 1], p)
  }

  /** The k-th item was tapped: a friend scores, a bomb costs a life; either
      way it leaves the field, and a life count down to zero ends the session. */
  function Catch(s: GameState, k: nat): GameState
    requires k < |s.items|
  {
    var it := s.items[k];
    var t :=
      if it.kind == Friend then
        var score := s.score + FriendPoints;
        if score % RearmEvery == 0 && score > 0
        then SetTimer(ClearTimer(s.(score := score)), SpawnIntervalFor(score))
        else s.(score := score)
      else s.(lives := s.lives - 1);
    var u := t.(items := Remove(s.items, k));
    if u.lives <= 0 then EndGame(u) else u
  }

  function HandleInput(s: GameState, clientX: real, clientY: real, rect: Rect): GameState
    requires Bounding(rect)
  {
    if !s.isPlaying || !Displayed(rect) then s
    else
      match TopmostHit(s.items, ToCanvas(clientX, clientY, rect))
      case None => s
      case Some(k) => Catch(s, k)
  }
}
