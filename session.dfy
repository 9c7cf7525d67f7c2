/**
  The game session of gamewindow.cpp: the roster of three players, the
  obstacle field, the running flag and the tick that drives every player
  and decides the end of a round.

  The clock reading, the client handle and the positions `playerPositions`
  reports for each player are inputs; rendering, the overlay and the TCP
  server are left out.
*/
module Session {
  import opened Wrappers
  import opened Geometry
  import opened Players

  /** The tick period, 20 ms. */
  const TickMillis: int := 20

  /** The colours of the three players, in roster order. */
  const Palette: seq<Color> := [Color(1.0, 0.6, 0.6, 1.0), Color(0.6, 1.0, 0.6, 1.0), Color(0.6, 0.6, 1.0, 1.0)]

  /**
    What one onTick did: nothing because the game is paused or the next
    update is not due; stopped at the player whose command threw; ended the
    round in a draw or with a winner (its roster index); or sent every
    player the states of the others.
  */
  datatype TickResult =
    | NotRunning
    | TooEarly
    | Aborted(at: nat)
    | Draw
    | Won(winner: nat)
    | Broadcast(updates: seq<seq<PlayerState>>)

  // ---------------------------------------------------------------------
  // Roster queries on values

  /** Whether each roster player is alive, in roster order. */
  function Lives(ps: seq<Player>): (r: seq<bool>)
    reads (set p | p in ps)`dead
    ensures |r| == |ps|
    ensures forall k :: 0 <= k < |ps| ==> (r[k] <==> ps[k].IsAlive())
  {
    if ps == [] then [] else Lives(ps[..|ps| - 1]) + [ps[|ps| - 1].IsAlive()]
  }

  /** Whether each roster player holds a connection, in roster order. */
  function Connections(ps: seq<Player>): (r: seq<bool>)
    reads (set p | p in ps)`connection
    ensures |r| == |ps|
    ensures forall k :: 0 <= k < |ps| ==> (r[k] <==> ps[k].IsActive())
  {
    if ps == [] then [] else Connections(ps[..|ps| - 1]) + [ps[|ps| - 1].IsActive()]
  }

  /** The roster indices of the live players, in roster order (playersAlive). */
  function AliveIndices(lives: seq<bool>): seq<nat> {
    if lives == [] then []
    else AliveIndices(lives[..|lives| - 1]) + (if lives[|lives| - 1] then [|lives| - 1] else [])
  }

  /** playersAlive holds exactly the live players, each once, in increasing roster order. */
  lemma {:induction false} AliveIndicesExact(lives: seq<bool>)
    ensures forall k :: k in AliveIndices(lives) <==> 0 <= k < |lives| && lives[k]
    ensures forall a, b :: 0 <= a < b < |AliveIndices(lives)| ==> AliveIndices(lives)[a] < AliveIndices(lives)[b]
    decreases |lives|
  {
    if lives != [] {
      var n := |lives| - 1;
      var front := AliveIndices(lives[..n]);
      AliveIndicesExact(lives[..n]);
      assert forall k :: 0 <= k < n ==> lives[..n][k] == lives[k];
      forall a | 0 <= a < |front|
        ensures front[a] < n
      {
        assert front[a] in front;
      }
    }
  }

  /** Reaching roster index i appends i to playersAlive exactly when that player is alive. */
  lemma AliveIndicesStep(lives: seq<bool>, i: nat)
    requires i < |lives|
    ensures AliveIndices(lives[..i + 1]) == AliveIndices(lives[..i]) + (if lives[i] then [i] else [])
  {
    assert lives[..i + 1][..i] == lives[..i];
  }

  /** No index is collected exactly when every player is dead. */
  lemma NoneAlive(lives: seq<bool>)
    ensures AliveIndices(lives) == [] <==> forall k :: 0 <= k < |lives| ==> !lives[k]
  {
    AliveIndicesExact(lives);
    if AliveIndices(lives) != [] {
      assert AliveIndices(lives)[0] in AliveIndices(lives);
    }
  }

  /** A single collected index is the one player alive. */
  lemma LoneSurvivor(lives: seq<bool>)
    requires |AliveIndices(lives)| == 1
    ensures var w := AliveIndices(lives)[0];
      w < |lives| && lives[w] && forall k :: 0 <= k < |lives| && lives[k] ==> k == w
  {
    AliveIndicesExact(lives);
    assert AliveIndices(lives)[0] in AliveIndices(lives);
    forall k | 0 <= k < |lives| && lives[k]
      ensures k == AliveIndices(lives)[0]
    {
      assert k in AliveIndices(lives);
    }
  }

  /** The first false flag: the first player without a connection. */
  function FirstFalse(flags: seq<bool>): (r: Option<nat>)
    ensures r.Some? ==> r.value < |flags| && !flags[r.value] && forall k :: 0 <= k < r.value ==> flags[k]
    ensures r.None? <==> forall k :: 0 <= k < |flags| ==> flags[k]
  {
    if flags == [] then None
    else if !flags[0] then Some(0)
    else
      var rest := FirstFalse(flags[1..]);
      assert forall k :: 1 <= k < |flags| ==> flags[1..][k - 1] == flags[k];
      if rest.None? then None else Some(rest.value + 1)
  }

  /** A player that getPlayerAt can report at p: alive, with p in its geometry. */
  predicate Hit(q: Player, p: Vec2)
    reads q`dead, q`position, q`rotation
  {
    q.IsAlive() && q.Geometry().Contains(p)
  }

  /** players(except): the live players whose id is not `except`, in roster order. */
  function Survivors(ps: seq<Player>, except: int): seq<Player>
    reads (set p | p in ps)`dead
  {
    if ps == [] then []
    else
      var q := ps[|ps| - 1];
      Survivors(ps[..|ps| - 1], except) + (if q.id != except && q.IsAlive() then [q] else [])
  }

  /** A player is listed by players(except) exactly when it is on the roster, alive, and not `except`. */
  lemma {:induction false} SurvivorsExact(ps: seq<Player>, except: int)
    ensures forall q :: q in Survivors(ps, except) <==> q in ps && q.id != except && q.IsAlive()
    ensures |Survivors(ps, except)| <= |ps|
    decreases |ps|
  {
    if ps != [] {
      var n := |ps| - 1;
      SurvivorsExact(ps[..n], except);
      assert ps == ps[..n] + [ps[n]];
    }
  }

  // ---------------------------------------------------------------------
  // The broadcast on values

  /** A roster player's id with its serialised state. */
  datatype Entry = Entry(id: nat, state: PlayerState)

  /** The roster's ids and serialised states, in roster order. */
  function Roster(ps: seq<Player>): (r: seq<Entry>)
    reads (set p | p in ps)`position, (set p | p in ps)`cursor, (set p | p in ps)`rotation, (set p | p in ps)`dead
    ensures |r| == |ps|
    ensures forall k :: 0 <= k < |ps| ==> r[k] == Entry(ps[k].id, ps[k].State())
  {
    if ps == [] then [] else Roster(ps[..|ps| - 1]) + [Entry(ps[|ps| - 1].id, ps[|ps| - 1].State())]
  }

  function States(es: seq<Entry>): (r: seq<PlayerState>)
    ensures |r| == |es|
    ensures forall k :: 0 <= k < |es| ==> r[k] == es[k].state
  {
    if es == [] then [] else States(es[..|es| - 1]) + [es[|es| - 1].state]
  }

  /** The "others" array of one player: the states of every entry with a different id, in roster order. */
  function Except(es: seq<Entry>, id: nat): seq<PlayerState> {
    if es == [] then []
    else Except(es[..|es| - 1], id) + (if es[|es| - 1].id == id then [] else [es[|es| - 1].state])
  }

  /** The world state sent to each roster player, in roster order. */
  function WorldStates(es: seq<Entry>): (r: seq<seq<PlayerState>>)
    ensures |r| == |es|
  {
    seq(|es|, i requires 0 <= i < |es| => Except(es, es[i].id))
  }

  predicate DistinctIds(es: seq<Entry>) {
    forall a, b :: 0 <= a < b < |es| ==> es[a].id != es[b].id
  }

  /** Without the id on the roster, nobody is left out. */
  lemma {:induction false} ExceptAbsent(es: seq<Entry>, id: nat)
    requires forall k :: 0 <= k < |es| ==> es[k].id != id
    ensures Except(es, id) == States(es)
    decreases |es|
  {
    if es != [] {
      var n := |es| - 1;
      ExceptAbsent(es[..n], id);
      assert States(es) == States(es[..n]) + [es[n].state];
    }
  }

  /**
    With distinct ids, the others of roster player i are the states of all
    the other players, dead or alive, in roster order, and never its own.
  */
  lemma {:induction false} ExceptSelf(es: seq<Entry>, i: nat)
    requires DistinctIds(es) && i < |es|
    ensures Except(es, es[i].id) == States(es[..i] + es[i + 1..])
    decreases |es|
  {
    var n := |es| - 1;
    var id := es[i].id;
    if i == n {
      ExceptAbsent(es[..n], id);
      assert es[..i] + es[i + 1..] == es[..n];
    } else {
      ExceptSelf(es[..n], i);
      var front := es[..n];
      assert front[..i] + front[i + 1..] + [es[n]] == es[..i] + es[i + 1..];
      assert States(front[..i] + front[i + 1..] + [es[n]]) == States(front[..i] + front[i + 1..]) + [es[n].state];
    }
  }

  /** Every player's update has one entry fewer than the roster. */
  lemma WorldStatesOmitOne(es: seq<Entry>, i: nat)
    requires DistinctIds(es) && i < |es|
    ensures |WorldStates(es)[i]| == |es| - 1
  {
    ExceptSelf(es, i);
  }

  // ---------------------------------------------------------------------
  // GameWindow

  /** Whether an update loop that stopped at `stop` (None: it ran to the end) reached index k. */
  predicate Reached(stop: Option<nat>, k: nat) {
    stop.None? || k <= stop.value
  }

  /** Where the update loop of the onTick that returned `result` stopped. */
  function Stop(result: TickResult): (r: Option<nat>)
    ensures r.Some? <==> result.Aborted?
  {
    if result.Aborted? then Some(result.at) else None
  }

  /**
    What one pass of the update loop did to player p: if the loop reached it
    alive, update() was called once with `others` and, unless it threw,
    left a connected player's mailbox empty; otherwise p is untouched.
  */
  twostate predicate Visited(p: Player, reached: bool, threw: bool, others: seq<Vec2>)
    reads p
  {
    if reached && old(p.IsAlive()) then
      p.dead == old(p.dead) && p.connection == old(p.connection) && p.updates == old(p.updates) + [others] &&
      (p.connection && !threw ==> p.command == [] && p.arguments == [])
    else unchanged(p)
  }

  class GameWindow {
    /** The window size and the obstacle rectangles build() placed. */
    const arena: Arena
    /** m_players, fixed once built. */
    const players: seq<Player>
    /** m_gameRunning */
    var running: bool
    /** m_nextUpdate, in milliseconds of the clock. */
    var nextUpdate: int

    ghost function Objects(): set<Player> {
      set k | 0 <= k < |players| :: players[k]
    }

    /** Distinct ids, every player in this window's arena and inside it. */
    predicate Valid()
      reads Objects()`position
    {
      (forall a, b :: 0 <= a < b < |players| ==> players[a].id != players[b].id) &&
      (forall k :: 0 <= k < |players| ==> players[k].world == arena && players[k].Valid())
    }

    /**
      The constructor and build(): the obstacle rectangles and the spawn
      rolls of each player are given; the three players get consecutive ids
      from the id counter and the colours of the palette; the round starts
      paused with the next update due now.
    */
    constructor(width: nat, height: nat, rectangles: seq<Rect>, math: Math, firstId: nat,
                spawn: nat -> (nat, nat), now: int)
      requires width > 0 && height > 0
      ensures Valid()
      ensures arena == Arena(width, height, rectangles)
      ensures |players| == 3
      ensures forall k :: 0 <= k < 3 ==>
        fresh(players[k]) && players[k].id == firstId + k && players[k].color == Palette[k] &&
        players[k].math == math && players[k].IsAlive() && !players[k].IsActive()
      ensures !running && nextUpdate == now
    {
      var a := Arena(width, height, rectangles);
      var p0 := new Player(firstId, Palette[0], a, math, spawn(0).0, spawn(0).1);
      var p1 := new Player(firstId + 1, Palette[1], a, math, spawn(1).0, spawn(1).1);
      var p2 := new Player(firstId + 2, Palette[2], a, math, spawn(2).0, spawn(2).1);
      arena := a;
      players := [p0, p1, p2];
      running := false;
      nextUpdate := now;
    }

    /** getPlayerAt: the first live player in roster order whose geometry contains p, or null. */
    method GetPlayerAt(p: Vec2) returns (r: Player?)
      ensures r == null <==> forall k :: 0 <= k < |players| ==> !Hit(players[k], p)
      ensures r != null ==>
        exists i :: 0 <= i < |players| && players[i] == r && Hit(r, p) && forall k :: 0 <= k < i ==> !Hit(players[k], p)
    {
      for i := 0 to |players|
        invariant forall k :: 0 <= k < i ==> !Hit(players[k], p)
      {
        var player := players[i];
        if !player.IsAlive() {
          continue;
        }
        if player.Geometry().Contains(p) {
          return player;
        }
      }
      return null;
    }

    /** players(except): the live players other than id `except`, in roster order. */
    method PlayersExcept(except: int) returns (r: seq<Player>)
      ensures r == Survivors(players, except)
    {
      r := [];
      for i := 0 to |players|
        invariant r == Survivors(players[..i], except)
      {
        assert players[..i + 1][..i] == players[..i];
        var player := players[i];
        if player.id == except {
          continue;
        }
        if !player.IsAlive() {
          continue;
        }
        r := r + [player];
      }
      assert players[..|players|] == players;
    }

    /** isInside: some obstacle rectangle contains p. */
    method IsInside(p: Vec2) returns (r: bool)
      ensures r == arena.Covers(p)
    {
      for i := 0 to |arena.rectangles|
        invariant forall k :: 0 <= k < i ==> !arena.rectangles[k].Contains(p)
      {
        if arena.rectangles[i].Contains(p) {
          return true;
        }
      }
      return false;
    }

    /**
      onNewClient: refused while paused; otherwise the first player without
      a connection takes the client, and the client is refused when every
      player holds one.
    */
    method OnNewClient() returns (accepted: bool)
      requires Valid()
      modifies Objects()`connection
      ensures var free := FirstFalse(old(Connections(players)));
        (accepted <==> running && free.Some?) &&
        Connections(players) == (if accepted then old(Connections(players))[free.value := true] else old(Connections(players)))
    {
      ghost var before := Connections(players);
      if !running {
        return false;
      }
      for i := 0 to |players|
        invariant forall k :: 0 <= k < i ==> before[k]
        invariant forall k :: 0 <= k < |players| ==> players[k].IsActive() == before[k]
      {
        var player := players[i];
        if player.IsActive() {
          continue;
        }
        assert !before[i];
        assert FirstFalse(before) == Some(i);
        player.SetTcpConnection(true);
        assert forall k :: 0 <= k < |players| ==> Connections(players)[k] == before[i := true][k];
        return true;
      }
      assert FirstFalse(before) == None;
      return false;
    }

    /** setGameRunning: sets the flag; setting it to its current value changes nothing. */
    method SetGameRunning(v: bool)
      modifies this`running
      ensures running == v
      ensures old(running) == v ==> unchanged(this)
    {
      if v == running {
        return;
      }
      running := v;
    }

    /** handleGameOver: the game stops and every player's connection is closed. */
    method HandleGameOver()
      modifies this`running, Objects()`connection
      ensures !running
      ensures forall k :: 0 <= k < |players| ==> !players[k].IsActive()
    {
      running := false;
      for i := 0 to |players|
        invariant !running
        invariant forall k :: 0 <= k < i ==> !players[k].IsActive()
      {
        players[i].CloseConnection();
      }
    }

    /** handleDraw: game over. */
    method HandleDraw()
      modifies this`running, Objects()`connection
      ensures !running
      ensures forall k :: 0 <= k < |players| ==> !players[k].IsActive()
    {
      HandleGameOver();
    }

    /** handleWinner: the winner's name is printed (left out), then game over. */
    method HandleWinner(winner: Player)
      modifies this`running, Objects()`connection
      ensures !running
      ensures forall k :: 0 <= k < |players| ==> !players[k].IsActive()
    {
      HandleGameOver();
    }

    /** The others array sent to `player`: every roster player with another id, in roster order. */
    method OthersOf(player: Player) returns (others: seq<PlayerState>)
      ensures others == Except(Roster(players), player.id)
    {
      others := [];
      for j := 0 to |players|
        invariant others == Except(Roster(players[..j]), player.id)
      {
        assert players[..j + 1][..j] == players[..j];
        var other := players[j];
        if other.id == player.id {
          continue;
        }
        others := others + [other.State()];
      }
      assert players[..|players|] == players;
    }

    /** The update loop of onTick with at least two players alive: one world state per roster player. */
    method BroadcastStates() returns (updates: seq<seq<PlayerState>>)
      ensures updates == WorldStates(Roster(players))
    {
      ghost var roster := Roster(players);
      updates := [];
      for i := 0 to |players|
        invariant |updates| == i
        invariant Roster(players) == roster
        invariant forall k :: 0 <= k < i ==> updates[k] == Except(roster, players[k].id)
      {
        var others := OthersOf(players[i]);
        updates := updates + [others];
      }
    }

    /**
      One update() of a roster player, given the positions
      playerPositions reports.  A dead player is left as it is; a live one
      records the positions it was given, and if it holds a connection and
      its command did not throw, its mailbox ends empty.  A throw can only
      come from a pending command of a connected player.
    */
    method UpdatePlayer(player: Player, others: seq<Vec2>) returns (threw: bool)
      requires Valid() && player in players
      modifies player`updates, player`visiblePlayers, player`polygon, player`cursor,
               player`name, player`position, player`rotation, player`xKeys,
               player`yKeys, player`bullets, player`command, player`arguments
      ensures Valid()
      ensures player.updates == old(player.updates) + (if player.IsAlive() then [others] else [])
      ensures !player.IsAlive() ==> !threw && unchanged(player)
      ensures threw ==> player.connection && old(player.command) != []
      ensures player.IsAlive() && player.connection && !threw ==> player.command == [] && player.arguments == []
    {
      threw := player.Update(others);
      assert player.Valid() && player.updates == old(player.updates) + (if player.IsAlive() then [others] else []);
      assert forall k :: 0 <= k < |players| && players[k] != player ==> unchanged(players[k]);
    }

    /**
      The update loop of onTick: each player alive when the loop reaches it
      is collected and updated once with the positions playerPositions
      reports for it; a command that throws stops the loop at that player.
      Dead players and players past the stop are untouched.
    */
    method UpdateAll(positionsFor: nat -> seq<Vec2>) returns (alive: seq<nat>, aborted: Option<nat>)
      requires Valid()
      modifies Objects()
      ensures Valid()
      ensures aborted.None? ==> alive == AliveIndices(old(Lives(players)))
      ensures aborted.Some? ==> aborted.value < |players| && players[aborted.value].connection
      ensures forall k :: 0 <= k < |players| ==>
        Visited(players[k], Reached(aborted, k), aborted == Some(k), positionsFor(players[k].id))
    {
      ghost var lives := Lives(players);
      alive, aborted := [], None;
      for i := 0 to |players|
        invariant aborted.None?
        invariant Valid()
        invariant alive == AliveIndices(lives[..i])
        invariant forall k :: 0 <= k < |players| ==> Visited(players[k], k < i, false, positionsFor(players[k].id))
      {
        AliveIndicesStep(lives, i);
        var player := players[i];
        if player.IsAlive() {
          alive := alive + [i];
          var threw := UpdatePlayer(player, positionsFor(player.id));
          if threw {
            aborted := Some(i);
            return;
          }
        }
      }
      assert lives[..|players|] == lives;
    }

    /**
      onTick at clock reading `now`: nothing while paused or before the next
      update is due.  Otherwise the next update is set 20 ms later and the
      live players are updated in roster order.  If none was alive the round
      is a draw and if one was it has won; both end the game, closing every
      connection, and send nothing.  With two or more alive, every roster
      player is sent the states of all the others.
    */
    /**
      The end of onTick once every live player is updated, given the
      collected roster indices: none alive is a draw and one alive has won,
      both ending the game; with two or more, every roster player is sent
      the states of all the others.
    */
    method Conclude(alive: seq<nat>) returns (result: TickResult)
      requires Valid() && forall j :: 0 <= j < |alive| ==> alive[j] < |players|
      modifies this`running, Objects()`connection
      ensures |alive| == 0 ==> result == Draw
      ensures |alive| == 1 ==> result == Won(alive[0])
      ensures |alive| < 2 ==> !running && forall k :: 0 <= k < |players| ==> !players[k].IsActive()
      ensures |alive| >= 2 ==>
        result == Broadcast(WorldStates(Roster(players))) && running == old(running) && unchanged(Objects())
    {
      if |alive| == 0 {
        HandleDraw();
        return Draw;
      }
      if |alive| == 1 {
        HandleWinner(players[alive[0]]);
        return Won(alive[0]);
      }
      var updates := BroadcastStates();
      return Broadcast(updates);
    }

    /**
      One round of onTick once the update is due: the update loop, then,
      unless a command threw, the draw, the win or the broadcast.
    */
    method Round(positionsFor: nat -> seq<Vec2>) returns (result: TickResult)
      requires Valid()
      modifies this`running, Objects()
      ensures Valid()
      ensures result.Aborted? || result.Draw? || result.Won? || result.Broadcast?
      ensures result.Aborted? ==> running == old(running) && result.at < |players| && players[result.at].IsActive()
      ensures result.Aborted? || result.Broadcast? ==> forall k :: 0 <= k < |players| ==>
        Visited(players[k], Reached(Stop(result), k), Stop(result) == Some(k), positionsFor(players[k].id))
      ensures var alive := AliveIndices(old(Lives(players)));
        (result.Draw? <==> !result.Aborted? && |alive| == 0) &&
        (result.Won? <==> !result.Aborted? && |alive| == 1) &&
        (result.Won? ==> result.winner == alive[0])
      ensures result.Draw? || result.Won? ==> !running && forall k :: 0 <= k < |players| ==> !players[k].IsActive()
      ensures result.Broadcast? ==> running == old(running) && result.updates == WorldStates(Roster(players))
    {
      var alive, aborted := UpdateAll(positionsFor);
      if aborted.Some? {
        return Aborted(aborted.value);
      }
      AliveIndicesExact(old(Lives(players)));
      assert forall j :: 0 <= j < |alive| ==> alive[j] in alive;
      result := Conclude(alive);
    }

    /**
      onTick at clock reading `now`: nothing while paused or before the next
      update is due; otherwise the next update is set 20 ms later and a
      round is played.
    */
    method OnTick(now: int, positionsFor: nat -> seq<Vec2>) returns (result: TickResult)
      requires Valid()
      modifies this`running, this`nextUpdate, Objects()
      ensures Valid()
      ensures !old(running) ==> result == NotRunning
      ensures old(running) && now < old(nextUpdate) ==> result == TooEarly
      ensures result.NotRunning? || result.TooEarly? ==>
        running == old(running) && nextUpdate == old(nextUpdate) && unchanged(Objects())
      ensures old(running) && now >= old(nextUpdate) ==>
        nextUpdate == now + TickMillis && !result.NotRunning? && !result.TooEarly?
      ensures result.Aborted? ==> running && result.at < |players| && players[result.at].IsActive()
      ensures result.Draw? || result.Won? ==> !running && forall k :: 0 <= k < |players| ==> !players[k].IsActive()
      ensures result.Broadcast? ==> running && result.updates == WorldStates(Roster(players))
      ensures old(running) && now >= old(nextUpdate) ==>
        var alive := AliveIndices(old(Lives(players)));
        (result.Draw? <==> !result.Aborted? && |alive| == 0) &&
        (result.Won? <==> !result.Aborted? && |alive| == 1) &&
        (result.Won? ==> result.winner == alive[0])
    {
      if !running {
        return NotRunning;
      }
      if now < nextUpdate {
        return TooEarly;
      }
      ghost var lives := Lives(players);
      nextUpdate := now + TickMillis;
      assert Lives(players) == lives;
      result := Round(positionsFor);
    }
  }
}
