/** What the handlers of the game promise, proved about the specification in Engine. */
module EngineProofs {
  import opened Geometry
  import opened Difficulty
  import opened Items
  import opened Engine

  // ---- one animation frame ----

  /** Splicing out item k keeps every other item, in order. */
  lemma RemoveAt(s: seq<Item>, k: nat)
    requires k < |s|
    ensures forall j :: 0 <= j < k ==> Remove(s, k)[j] == s[j]
    ensures forall j :: k <= j < |s| - 1 ==> Remove(s, k)[j] == s[j + 1]
    ensures AllWellFormed(s) ==> AllWellFormed(Remove(s, k))
  {
  }

  /** Every item a frame keeps is on the field, and well-formed items stay well-formed. */
  lemma {:induction false} KeptOnField(s: seq<Item>)
    ensures forall j :: 0 <= j < |Kept(s)| ==> !BelowField(Kept(s)[j])
    ensures AllWellFormed(s) ==> AllWellFormed(Kept(s))
  {
    if s != [] {
      KeptOnField(s[..|s| - 1]);
    }
  }

  /** Kept and Misses of a sequence, unfolded at its last element. */
  lemma SnocStep(p: seq<Item>, x: Item)
    ensures Kept(p + [x]) == Kept(p) + if BelowField(Update(x)) then [] else [Update(x)]
    ensures Misses(p + [x]) == Misses(p) + if IsMiss(x) then 1 else 0
  {
    assert (p + [x])[..|p|] == p;
  }

  /** The first i items of s are the first i - 1 followed by item i - 1. */
  lemma PrefixSplit(s: seq<Item>, i: nat)
    requires 0 < i <= |s|
    ensures s[..i] == s[..i - 1] + [s[i - 1]]
  {
  }

  /** A frame that loses fewer lives than it has (or none) visits every item:
      the processed part becomes the moved survivors in order, and lives drop
      by exactly the number of friends that escaped. */
  lemma {:induction false} TickFromCompletes(s: seq<Item>, i: nat, lives: int)
    requires i <= |s|
    requires Misses(s[..i]) == 0 || Misses(s[..i]) < lives
    ensures TickFrom(s, i, lives) == Frame(Kept(s[..i]) + s[i..], lives - Misses(s[..i]), false)
    decreases i, 1
  {
    if i == 0 {
      assert s[..i] == [];
    } else if !BelowField(Update(s[i - 1])) {
      CompletesStaying(s, i, lives);
    } else {
      CompletesEscaping(s, i, lives);
    }
  }

  /** TickFromCompletes when item i - 1 is still on the field after moving. */
  lemma {:induction false} CompletesStaying(s: seq<Item>, i: nat, lives: int)
    requires 0 < i <= |s| && !BelowField(Update(s[i - 1]))
    requires Misses(s[..i]) == 0 || Misses(s[..i]) < lives
    ensures TickFrom(s, i, lives) == Frame(Kept(s[..i]) + s[i..], lives - Misses(s[..i]), false)
    decreases i, 0
  {
    var k := i - 1;
    var moved := Update(s[k]);
    var current := s[k := moved];
    assert TickFrom(s, i, lives) == TickFrom(current, k, lives);
    PrefixSplit(s, i);
    SnocStep(s[..k], s[k]);
    assert Misses(s[..k]) == Misses(s[..i]);
    assert Kept(s[..k]) + [moved] == Kept(s[..i]);
    assert current[..k] == s[..k];
    assert current[k..] == [moved] + s[i..];
    TickFromCompletes(current, k, lives);
    assert Kept(current[..k]) + current[k..] == Kept(s[..i]) + s[i..];
  }

  /** TickFromCompletes when item i - 1 passes the bottom: it is removed. */
  lemma {:induction false} CompletesEscaping(s: seq<Item>, i: nat, lives: int)
    requires 0 < i <= |s| && BelowField(Update(s[i - 1]))
    requires Misses(s[..i]) == 0 || Misses(s[..i]) < lives
    ensures TickFrom(s, i, lives) == Frame(Kept(s[..i]) + s[i..], lives - Misses(s[..i]), false)
    decreases i, 0
  {
    var k := i - 1;
    var moved := Update(s[k]);
    var rest := Remove(s[k := moved], k);
    PrefixSplit(s, i);
    SnocStep(s[..k], s[k]);
    var lives' := if moved.kind == Friend then lives - 1 else lives;
    assert TickFrom(s, i, lives) == TickFrom(rest, k, lives');
    assert rest[..k] == s[..k];
    assert rest[k..] == s[i..];
    TickFromCompletes(rest, k, lives');
  }

  /** A frame in which the escaping friends use up every life (at least one)
      stops at the friend j that takes the last life: items below j keep their
      place unmoved, j itself is moved but stays in the sequence, the part
      above j has become its moved survivors, and lives end at exactly zero
      (or one below what they were, if they were already at most zero). */
  lemma {:induction false} TickFromEndsEarly(s: seq<Item>, i: nat, lives: int) returns (j: nat)
    requires i <= |s|
    requires Misses(s[..i]) > 0 && Misses(s[..i]) >= lives
    ensures j < i && IsMiss(s[j])
    ensures Misses(s[j + 1..i]) == 0 || Misses(s[j + 1..i]) < lives
    ensures TickFrom(s, i, lives)
         == Frame(s[..j] + [Update(s[j])] + Kept(s[j + 1..i]) + s[i..], lives - Misses(s[j..i]), true)
    ensures lives - Misses(s[j..i]) == if lives >= 1 then 0 else lives - 1
    decreases i, 1
  {
    assert Misses(s[..0]) == 0 by {
      assert s[..0] == [];
    }
    var moved := Update(s[i - 1]);
    if !BelowField(moved) {
      j := EndsEarlyStaying(s, i, lives);
    } else if moved.kind == Friend && lives - 1 <= 0 {
      j := EndsEarlyHere(s, i, lives);
    } else {
      j := EndsEarlyEscaping(s, i, lives);
    }
  }

  /** TickFromEndsEarly when item i - 1 is still on the field after moving. */
  lemma {:induction false} EndsEarlyStaying(s: seq<Item>, i: nat, lives: int) returns (j: nat)
    requires 0 < i <= |s| && !BelowField(Update(s[i - 1]))
    requires Misses(s[..i]) > 0 && Misses(s[..i]) >= lives
    ensures j < i && IsMiss(s[j])
    ensures Misses(s[j + 1..i]) == 0 || Misses(s[j + 1..i]) < lives
    ensures TickFrom(s, i, lives)
         == Frame(s[..j] + [Update(s[j])] + Kept(s[j + 1..i]) + s[i..], lives - Misses(s[j..i]), true)
    ensures lives - Misses(s[j..i]) == if lives >= 1 then 0 else lives - 1
    decreases i, 0
  {
    var k := i - 1;
    var moved := Update(s[k]);
    var current := s[k := moved];
    assert TickFrom(s, i, lives) == TickFrom(current, k, lives);
    PrefixSplit(s, i);
    SnocStep(s[..k], s[k]);
    assert current[..k] == s[..k];
    assert Misses(s[..k]) == Misses(s[..i]);
    j := TickFromEndsEarly(current, k, lives);
    StayingSlices(s, j, i);
  }

  /** The slices that EndsEarlyStaying relates, when item i - 1 moves and stays. */
  lemma StayingSlices(s: seq<Item>, j: nat, i: nat)
    requires j < i - 1 && i <= |s| && !BelowField(Update(s[i - 1]))
    ensures var current := s[i - 1 := Update(s[i - 1])];
      && current[j] == s[j]
      && current[..j] + [Update(current[j])] + Kept(current[j + 1..i - 1]) + current[i - 1..]
         == s[..j] + [Update(s[j])] + Kept(s[j + 1..i]) + s[i..]
      && Misses(current[j..i - 1]) == Misses(s[j..i])
      && Misses(current[j + 1..i - 1]) == Misses(s[j + 1..i])
  {
    var k := i - 1;
    var moved := Update(s[k]);
    var current := s[k := moved];
    assert current[..k] == s[..k];
    SliceSplit(s, current, j, k, i);
    assert current[k..] == [moved] + s[i..];
    assert Kept(current[j + 1..k]) + [moved] == Kept(s[j + 1..i]);
  }

  /** TickFromEndsEarly when item i - 1 is a friend that takes the last life. */
  lemma {:induction false} EndsEarlyHere(s: seq<Item>, i: nat, lives: int) returns (j: nat)
    requires 0 < i <= |s| && BelowField(Update(s[i - 1]))
    requires s[i - 1].kind == Friend && lives - 1 <= 0
    ensures j < i && IsMiss(s[j])
    ensures Misses(s[j + 1..i]) == 0 || Misses(s[j + 1..i]) < lives
    ensures TickFrom(s, i, lives)
         == Frame(s[..j] + [Update(s[j])] + Kept(s[j + 1..i]) + s[i..], lives - Misses(s[j..i]), true)
    ensures lives - Misses(s[j..i]) == if lives >= 1 then 0 else lives - 1
  {
    j := i - 1;
    var moved := Update(s[j]);
    assert TickFrom(s, i, lives) == Frame(s[j := moved], lives - 1, true);
    assert s[j + 1..i] == [];
    assert Kept(s[j + 1..i]) == [] && Misses(s[j + 1..i]) == 0;
    assert s[j..i] == [] + [s[j]];
    SnocStep([], s[j]);
    assert Misses(s[j..i]) == 1;
    assert s[j := moved] == s[..j] + [moved] + s[i..];
  }

  /** TickFromEndsEarly when item i - 1 passes the bottom without ending the frame. */
  lemma {:induction false} EndsEarlyEscaping(s: seq<Item>, i: nat, lives: int) returns (j: nat)
    requires 0 < i <= |s| && BelowField(Update(s[i - 1]))
    requires !(s[i - 1].kind == Friend && lives - 1 <= 0)
    requires Misses(s[..i]) > 0 && Misses(s[..i]) >= lives
    ensures j < i && IsMiss(s[j])
    ensures Misses(s[j + 1..i]) == 0 || Misses(s[j + 1..i]) < lives
    ensures TickFrom(s, i, lives)
         == Frame(s[..j] + [Update(s[j])] + Kept(s[j + 1..i]) + s[i..], lives - Misses(s[j..i]), true)
    ensures lives - Misses(s[j..i]) == if lives >= 1 then 0 else lives - 1
    decreases i, 0
  {
    var k := i - 1;
    var moved := Update(s[k]);
    var rest := Remove(s[k := moved], k);
    var miss := if moved.kind == Friend then 1 else 0;
    var lives' := lives - miss;
    assert TickFrom(s, i, lives) == TickFrom(rest, k, lives');
    RemoveUpdated(s, k, moved);
    PrefixSplit(s, i);
    SnocStep(s[..k], s[k]);
    assert Misses(s[..k]) + miss == Misses(s[..i]);
    j := TickFromEndsEarly(rest, k, lives');
    SliceSplit(s, rest, j, k, i);
    assert Kept(rest[j + 1..k]) == Kept(s[j + 1..i]);
    assert rest[..j] + [Update(rest[j])] + Kept(rest[j + 1..k]) + rest[k..]
        == s[..j] + [Update(s[j])] + Kept(s[j + 1..i]) + s[i..];
    assert Misses(rest[j..k]) + miss == Misses(s[j..i]);
    assert Misses(rest[j + 1..k]) + miss == Misses(s[j + 1..i]);
  }

  /** Splicing out the element just replaced leaves the other elements of s. */
  lemma RemoveUpdated(s: seq<Item>, k: nat, x: Item)
    requires k < |s|
    ensures Remove(s[k := x], k) == s[..k] + s[k + 1..]
    ensures Remove(s[k := x], k)[..k] == s[..k]
    ensures Remove(s[k := x], k)[k..] == s[k + 1..]
  {
    assert s[k := x][..k] == s[..k];
    assert s[k := x][k + 1..] == s[k + 1..];
  }

  /** The slices of s and of t agree below k, and the slices of s that end at i
      unfold at their last element k = i - 1. */
  lemma SliceSplit(s: seq<Item>, t: seq<Item>, j: nat, k: nat, i: nat)
    requires j < k && i == k + 1 && i <= |s| && k <= |t|
    requires t[..k] == s[..k]
    ensures t[..j] == s[..j] && t[j] == s[j]
    ensures t[j + 1..k] == s[j + 1..k] && t[j..k] == s[j..k]
    ensures Kept(s[j + 1..i]) == Kept(s[j + 1..k]) + if BelowField(Update(s[k])) then [] else [Update(s[k])]
    ensures Misses(s[j + 1..i]) == Misses(s[j + 1..k]) + if IsMiss(s[k]) then 1 else 0
    ensures Misses(s[j..i]) == Misses(s[j..k]) + if IsMiss(s[k]) then 1 else 0
  {
    assert t[..j] == t[..k][..j];
    assert s[..j] == s[..k][..j];
    assert t[j] == t[..k][j];
    assert t[j + 1..k] == t[..k][j + 1..];
    assert s[j + 1..k] == s[..k][j + 1..];
    assert t[j..k] == t[..k][j..];
    assert s[j..k] == s[..k][j..];
    assert s[j + 1..i] == s[j + 1..k] + [s[k]];
    assert s[j..i] == s[j..k] + [s[k]];
    SnocStep(s[j + 1..k], s[k]);
    SnocStep(s[j..k], s[k]);
  }

  /** A frame while playing, with fewer escaping friends than lives: every item
      moves, those past the bottom are removed, survivors keep their order,
      lives fall by the number of escaped friends, and nothing else changes. */
  lemma GameLoopCompletes(s: GameState)
    requires s.isPlaying
    requires Misses(s.items) == 0 || Misses(s.items) < s.lives
    ensures GameLoop(s) == s.(items := Kept(s.items), lives := s.lives - Misses(s.items))
  {
    assert s.items[..|s.items|] == s.items;
    TickFromCompletes(s.items, |s.items|, s.lives);
  }

  /** A frame while playing in which the escaping friends take every life ends
      the session part way: the friend j that takes the last life is moved but
      not removed, the items before it are untouched, the spawn timer is
      cleared, and the score is as it was. */
  lemma GameLoopEndsEarly(s: GameState) returns (j: nat)
    requires s.isPlaying && s.lives > 0
    requires Misses(s.items) >= s.lives
    ensures j < |s.items| && IsMiss(s.items[j])
    ensures Misses(s.items[j..]) == s.lives && Misses(s.items[j + 1..]) < s.lives
    ensures var t := GameLoop(s);
      && !t.isPlaying && t.lives == 0 && t.score == s.score
      && t.items == s.items[..j] + [Update(s.items[j])] + Kept(s.items[j + 1..])
      && t == ClearTimer(s.(items := t.items, lives := 0, isPlaying := false))
  {
    var n := |s.items|;
    assert s.items[..n] == s.items;
    j := TickFromEndsEarly(s.items, n, s.lives);
    assert s.items[n..] == [];
    assert s.items[j + 1..n] == s.items[j + 1..];
    assert s.items[j..n] == s.items[j..];
  }

  /** Kept drops exactly the items that escape, so it keeps the rest. */
  lemma {:induction false} KeptSize(s: seq<Item>)
    ensures |Kept(s)| + |set j | 0 <= j < |s| && Escapes(s[j])| == |s|
  {
    if s != [] {
      var n := |s| - 1;
      var p := s[..n];
      KeptSize(p);
      var below := set j | 0 <= j < n && Escapes(p[j]);
      var all := set j | 0 <= j < |s| && Escapes(s[j]);
      assert forall j :: 0 <= j < n ==> p[j] == s[j];
      if Escapes(s[n]) {
        assert all == below + {n};
      } else {
        assert all == below;
      }
    }
  }

  /** Lives change in a frame only through friends escaping: a frame in which
      only bombs escape (or nothing) leaves lives as they were. */
  lemma GameLoopBombsCostNothing(s: GameState)
    requires s.isPlaying
    requires forall j :: 0 <= j < |s.items| ==> !IsMiss(s.items[j])
    ensures GameLoop(s).lives == s.lives && GameLoop(s).isPlaying
  {
    NoMisses(s.items);
    GameLoopCompletes(s);
  }

  lemma {:induction false} NoMisses(s: seq<Item>)
    requires forall j :: 0 <= j < |s| ==> !IsMiss(s[j])
    ensures Misses(s) == 0
  {
    if s != [] {
      NoMisses(s[..|s| - 1]);
    }
  }

  /** The frame scenario of a session with three lives: one friend at y = 560
      falling 50 pixels per frame reaches y = 610, is removed, and costs one life. */
  lemma OneFriendMissed()
    ensures var it := Item(0.0, 560.0, ItemSize, ItemSize, Friend, 50.0);
      var s := Initial().(lives := 3, items := [it], isPlaying := true);
      GameLoop(s) == s.(items := [], lives := 2)
  {
    var it := Item(0.0, 560.0, ItemSize, ItemSize, Friend, 50.0);
    var s := Initial().(lives := 3, items := [it], isPlaying := true);
    assert [it][..0] == [];
    assert Misses([it]) == 1;
    assert Kept([it]) == [];
    GameLoopCompletes(s);
  }

  // ---- pointer input ----

  /** Input while not playing, on a canvas with no area, or a tap that hits
      no item, changes nothing. */
  lemma HandleInputMisses(s: GameState, clientX: real, clientY: real, rect: Rect)
    requires Bounding(rect)
    requires || !s.isPlaying
             || !Displayed(rect)
             || forall j :: 0 <= j < |s.items| ==> !Contains(s.items[j], ToCanvas(clientX, clientY, rect))
    ensures HandleInput(s, clientX, clientY, rect) == s
  {
  }

  /** Tapping a friend: exactly that item leaves, the score rises by ten, lives
      are unchanged, the session goes on, and the spawn timer is re-armed (with
      one live timer before and after) exactly when the new score is a positive
      multiple of fifty. */
  lemma CatchFriend(s: GameState, clientX: real, clientY: real, rect: Rect) returns (k: nat)
    requires Displayed(rect) && Inv(s) && s.isPlaying
    requires TopmostHit(s.items, ToCanvas(clientX, clientY, rect)).Some?
    requires s.items[TopmostHit(s.items, ToCanvas(clientX, clientY, rect)).value].kind == Friend
    ensures k == TopmostHit(s.items, ToCanvas(clientX, clientY, rect)).value
    ensures k < |s.items| && s.items[k].kind == Friend
    ensures var t := HandleInput(s, clientX, clientY, rect);
      && t.items == Remove(s.items, k)
      && t.score == s.score + FriendPoints
      && t.lives == s.lives
      && t.isPlaying && t.timerArmed && t.liveTimers == 1
      && (t.spawnIntervalMs != s.spawnIntervalMs ==> t.score % RearmEvery == 0)
      && (t.score % RearmEvery == 0 ==> t.spawnIntervalMs == SpawnIntervalFor(t.score))
    ensures var score := s.score + FriendPoints;
      HandleInput(s, clientX, clientY, rect)
      == s.(score := score, items := Remove(s.items, k),
            spawnIntervalMs := if score % RearmEvery == 0 then SpawnIntervalFor(score) else s.spawnIntervalMs)
  {
    k := TopmostHit(s.items, ToCanvas(clientX, clientY, rect)).value;
  }

  /** Tapping a bomb: exactly that item leaves, lives drop by one, the score and
      the spawn timer are unchanged, and the session ends when no life is left. */
  lemma CatchBomb(s: GameState, clientX: real, clientY: real, rect: Rect) returns (k: nat)
    requires Displayed(rect) && Inv(s) && s.isPlaying
    requires TopmostHit(s.items, ToCanvas(clientX, clientY, rect)).Some?
    requires s.items[TopmostHit(s.items, ToCanvas(clientX, clientY, rect)).value].kind == Bomb
    ensures k == TopmostHit(s.items, ToCanvas(clientX, clientY, rect)).value
    ensures k < |s.items| && s.items[k].kind == Bomb
    ensures var t := HandleInput(s, clientX, clientY, rect);
      && t.items == Remove(s.items, k)
      && t.score == s.score
      && t.lives == s.lives - 1
      && t.spawnIntervalMs == s.spawnIntervalMs
      && t.isPlaying == (t.lives > 0)
      && t.liveTimers == (if t.isPlaying then 1 else 0)
    ensures var u := s.(lives := s.lives - 1, items := Remove(s.items, k));
      HandleInput(s, clientX, clientY, rect)
      == if u.lives > 0 then u else u.(isPlaying := false, timerArmed := false, liveTimers := 0)
  {
    k := TopmostHit(s.items, ToCanvas(clientX, clientY, rect)).value;
  }

  /** Of two overlapping items under the pointer, the newer one is taken and the older stays. */
  lemma NewestItemWins(items: seq<Item>, p: Point, older: nat, newer: nat)
    requires older < newer < |items|
    requires Contains(items[older], p) && Contains(items[newer], p)
    ensures TopmostHit(items, p).Some? && TopmostHit(items, p).value != older
  {
  }

  // ---- the invariant ----

  lemma MilestoneStep(score: int)
    requires score >= 0 && score % FriendPoints == 0
    ensures (score + FriendPoints) % RearmEvery != 0 ==> Milestone(score + FriendPoints) == Milestone(score)
    ensures (score + FriendPoints) % RearmEvery == 0 ==> Milestone(score + FriendPoints) == score + FriendPoints
  {
    var q := score / RearmEvery;
    var r := score % RearmEvery;
    assert score == RearmEvery * q + r;
    assert r % FriendPoints == 0;
    if r + FriendPoints < RearmEvery {
      assert (score + FriendPoints) % RearmEvery == r + FriendPoints;
    } else {
      assert r == 40;
      assert score + FriendPoints == RearmEvery * (q + 1);
    }
  }

  lemma InitialInv()
    ensures Inv(Initial())
  {
  }

  lemma ImageLoadedPreservesInv(s: GameState)
    requires Inv(s)
    ensures Inv(ImageLoaded(s))
  {
  }

  lemma StartGamePreservesInv(s: GameState)
    requires Inv(s)
    ensures Inv(StartGame(s))
  {
  }

  lemma SpawnItemPreservesInv(s: GameState, rKind: Random, rX: Random, rSpeed: Random)
    requires Inv(s)
    ensures Inv(SpawnItem(s, rKind, rX, rSpeed))
  {
  }

  /** A spawn appends exactly one item, at the end: a well-formed box just
      above the field, a bomb exactly when the kind draw is below the bomb
      chance, falling at least as fast as the score's speed multiplier; the
      items already there and everything else stay as they were. */
  lemma SpawnItemAppends(s: GameState, rKind: Random, rX: Random, rSpeed: Random)
    requires s.score >= 0
    ensures var t := SpawnItem(s, rKind, rX, rSpeed);
      && |t.items| == |s.items| + 1
      && t.items[..|s.items|] == s.items
      && t == s.(items := t.items)
      && var it := t.items[|s.items|];
        && it.y == -ItemSize && WellFormed(it)
        && (it.kind == Bomb <==> rKind < BombChance(s.score))
        && SpeedMultiplier(s.score) <= it.speed
  {
    var t := SpawnItem(s, rKind, rX, rSpeed);
    assert t.items[..|s.items|] == s.items;
  }

  /** A frame after the session has ended changes nothing. */
  lemma GameLoopIdle(s: GameState)
    requires !s.isPlaying
    ensures GameLoop(s) == s
  {
  }

  lemma GameLoopPreservesInv(s: GameState)
    requires Inv(s)
    ensures Inv(GameLoop(s))
  {
    if s.isPlaying {
      if Misses(s.items) == 0 || Misses(s.items) < s.lives {
        GameLoopCompletes(s);
        KeptOnField(s.items);
      } else {
        var j := GameLoopEndsEarly(s);
        var rest := s.items[j + 1..];
        assert AllWellFormed(rest);
        KeptOnField(rest);
        assert AllWellFormed([Update(s.items[j])]);
      }
    }
  }

  lemma HandleInputPreservesInv(s: GameState, clientX: real, clientY: real, rect: Rect)
    requires Bounding(rect) && Inv(s)
    ensures Inv(HandleInput(s, clientX, clientY, rect))
  {
    if s.isPlaying && Displayed(rect) {
      match TopmostHit(s.items, ToCanvas(clientX, clientY, rect))
      case None =>
      case Some(k) => CatchPreservesInv(s, k);
    }
  }

  lemma CatchPreservesInv(s: GameState, k: nat)
    requires Inv(s) && s.isPlaying && k < |s.items|
    ensures Inv(Catch(s, k))
  {
    RemoveAt(s.items, k);
    var items := Remove(s.items, k);
    if s.items[k].kind == Friend {
      MilestoneStep(s.score);
      var score := s.score + FriendPoints;
      var interval := if score % RearmEvery == 0 then SpawnIntervalFor(score) else s.spawnIntervalMs;
      assert interval == SpawnIntervalFor(Milestone(score));
      assert Catch(s, k) == s.(score := score, items := items, spawnIntervalMs := interval);
    } else {
      var lives := s.lives - 1;
      assert Catch(s, k) == if lives > 0 then s.(lives := lives, items := items)
        else s.(lives := lives, items := items, isPlaying := false, timerArmed := false, liveTimers := 0);
    }
  }

  // ---- asset readiness and session start ----

  /** The state after n load-or-error callbacks. */
  function AfterCallbacks(n: nat): GameState {
    if n == 0 then Initial() else ImageLoaded(AfterCallbacks(n - 1))
  }

  /** The assets count as loaded exactly once two callbacks (load or error) have run. */
  lemma {:induction false} AssetsLoadedAtTwo(n: nat)
    ensures AfterCallbacks(n).imagesLoaded == n
    ensures AfterCallbacks(n).assetsLoaded <==> n >= TotalImages
  {
    if n > 0 {
      AssetsLoadedAtTwo(n - 1);
    }
  }

  /** Start is refused until the assets are loaded; once they are, it begins a
      fresh session with 30 lives, no items, score zero and exactly one live
      spawn timer at the initial interval. */
  lemma StartGameResets(s: GameState)
    requires Inv(s)
    ensures !s.assetsLoaded ==> StartGame(s) == s
    ensures s.assetsLoaded ==> var t := StartGame(s);
      && t.score == 0 && t.lives == InitialLives && t.items == [] && t.isPlaying
      && t.spawnIntervalMs == SpawnIntervalMs && t.timerArmed && t.liveTimers == 1
    ensures s.assetsLoaded ==>
      StartGame(s) == s.(score := 0, lives := InitialLives, items := [], isPlaying := true,
                         spawnIntervalMs := SpawnIntervalMs, timerArmed := true, liveTimers := 1)
  {
  }

  lemma EndGamePreservesInv(s: GameState)
    requires Inv(s)
    ensures Inv(EndGame(s))
  {
  }

  /** Ending a session stops play and leaves no live spawn timer. */
  lemma EndGameStopsTimers(s: GameState)
    requires Inv(s)
    ensures !EndGame(s).isPlaying && !EndGame(s).timerArmed && EndGame(s).liveTimers == 0
    ensures EndGame(s).score == s.score && EndGame(s).items == s.items
    ensures EndGame(s) == s.(isPlaying := false, timerArmed := false, liveTimers := 0)
  {
  }
}
