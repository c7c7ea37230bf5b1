/** The running game: the script's module-level state as the fields of one
    object, and its handlers as methods that update those fields in place.
    Each method is proved to leave exactly the state that the matching
    function of Engine describes. */
module Session {
  import opened Geometry
  import opened Difficulty
  import opened Items
  import opened Engine
  import EngineProofs

  class Game {
    var score: int
    var lives: int
    var items: seq<Item>
    var isPlaying: bool
    var spawnIntervalMs: real
    var timerArmed: bool
    var liveTimers: int
    var imagesLoaded: int
    var assetsLoaded: bool

    /** The fields, read as one value. */
    function State(): GameState
      reads this
    {
      GameState(score, lives, items, isPlaying, spawnIntervalMs, timerArmed, liveTimers, imagesLoaded, assetsLoaded)
    }

    ghost predicate Valid()
      reads this
    {
      Inv(State())
    }

    constructor ()
      ensures State() == Initial() && Valid()
    {
      score, lives, items, isPlaying := 0, InitialLives, [], false;
      spawnIntervalMs, timerArmed, liveTimers := SpawnIntervalMs, false, 0;
      imagesLoaded, assetsLoaded := 0, false;
      EngineProofs.InitialInv();
    }

    /** clearInterval(itemSpawnInterval). */
    method ClearSpawnTimer()
      modifies this
      ensures State() == ClearTimer(old(State()))
    {
      if timerArmed {
        timerArmed := false;
        liveTimers := liveTimers - 1;
      }
    }

    /** itemSpawnInterval = setInterval(spawnItem, ms). */
    method SetSpawnTimer(ms: real)
      modifies this
      ensures State() == SetTimer(old(State()), ms)
    {
      timerArmed := true;
      liveTimers := liveTimers + 1;
      spawnIntervalMs := ms;
    }

    /** A picture's load or error callback. */
    method ImageLoaded()
      requires Valid()
      modifies this
      ensures State() == Engine.ImageLoaded(old(State())) && Valid()
    {
      EngineProofs.ImageLoadedPreservesInv(State());
      imagesLoaded := imagesLoaded + 1;
      if imagesLoaded == TotalImages {
        assetsLoaded := true;
      }
    }

    /** The spawn timer's callback, with its three random draws as parameters. */
    method SpawnItem(rKind: Random, rX: Random, rSpeed: Random)
      requires Valid()
      modifies this
      ensures State() == Engine.SpawnItem(old(State()), rKind, rX, rSpeed) && Valid()
    {
      EngineProofs.SpawnItemPreservesInv(State(), rKind, rX, rSpeed);
      var kind := KindFor(rKind, score);
      var x := SpawnX(rX);
      var item := NewItem(x, kind, score, rSpeed);
      items := items + [item];
    }

    /** Also called part way through GameLoop and CatchAt, where a running
        session may have just lost its last life, so Valid() is not required. */
    method EndGame()
      modifies this
      ensures State() == Engine.EndGame(old(State()))
      ensures old(Valid()) ==> Valid()
    {
      if Valid() {
        EngineProofs.EndGamePreservesInv(State());
      }
      isPlaying := false;
      ClearSpawnTimer();
    }

    method StartGame()
      requires Valid()
      modifies this
      ensures State() == Engine.StartGame(old(State())) && Valid()
    {
      EngineProofs.StartGamePreservesInv(State());
      if !assetsLoaded {
        return;
      }
      score := 0;
      lives := InitialLives;
      items := [];
      isPlaying := true;
      ClearSpawnTimer();
      SetSpawnTimer(SpawnIntervalMs);
    }

    /** One animation frame: items move from the newest down; an item past the
        bottom is spliced out, and a friend past the bottom costs a life; the
        life that brings lives to zero ends the game and the frame at once. */
    method GameLoop()
      requires Valid()
      modifies this
      ensures State() == Engine.GameLoop(old(State())) && Valid()
    {
      EngineProofs.GameLoopPreservesInv(State());
      if !isPlaying {
        return;
      }
      ghost var s0 := State();
      ghost var target := TickFrom(items, |items|, lives);
      // n items remain to visit; the next one is at index i = n - 1
      var n: nat := |items|;
      while n > 0
        invariant n <= |items|
        invariant TickFrom(items, n, lives) == target
        invariant score == s0.score && isPlaying && spawnIntervalMs == s0.spawnIntervalMs
        invariant timerArmed == s0.timerArmed && liveTimers == s0.liveTimers
        invariant imagesLoaded == s0.imagesLoaded && assetsLoaded == s0.assetsLoaded
      {
        var i := n - 1;
        var item := Update(items[i]);
        items := items[i := item];
        if BelowField(item) {
          if item.kind == Friend {
            lives := lives - 1;
            if lives <= 0 {
              EndGame();
              return;
            }
          }
          items := Remove(items, i);
        }
        n := i;
      }
    }

    /** The catch of the i-th item: a friend scores (re-arming the spawn timer
        at each multiple of fifty), a bomb costs a life; the item is spliced
        out, and the game ends if no life is left. */
    method CatchAt(i: nat)
      requires i < |items|
      modifies this
      ensures State() == Catch(old(State()), i)
    {
      if items[i].kind == Friend {
        score := score + FriendPoints;
        if score % RearmEvery == 0 && score > 0 {
          ClearSpawnTimer();
          SetSpawnTimer(SpawnIntervalFor(score));
        }
      } else {
        lives := lives - 1;
      }
      items := Remove(items, i);
      if lives <= 0 {
        EndGame();
      }
    }

    /** A tap or click at (clientX, clientY) on the canvas laid out at rect:
        the newest item under the pointer, if any, is caught. */
    method HandleInput(clientX: real, clientY: real, rect: Rect)
      requires Valid() && Bounding(rect)
      modifies this
      ensures State() == Engine.HandleInput(old(State()), clientX, clientY, rect) && Valid()
    {
      EngineProofs.HandleInputPreservesInv(State(), clientX, clientY, rect);
      if !isPlaying {
        return;
      }
      if !Displayed(rect) {
        // the click lands at an infinite or NaN canvas coordinate: no item is hit
        return;
      }
      var click := ToCanvas(clientX, clientY, rect);
      ghost var s0 := State();
      var i := |items| - 1;
      while i >= 0
        invariant -1 <= i < |items|
        invariant State() == s0
        invariant forall j :: i < j < |items| ==> !Contains(items[j], click)
      {
        var item := items[i];
        if Contains(item, click) {
          assert TopmostHit(items, click) == Some(i);
          CatchAt(i);
          return;
        }
        i := i - 1;
      }
    }
  }
}
