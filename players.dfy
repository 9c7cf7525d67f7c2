/**
  A player of the arena and the bullets it fires (player.cpp, player.h).

  `Step` is the command engine of Player::handleCommand on values; the
  Player class holds the fields the engine updates in place, and each of
  its methods is proved to leave exactly the state the corresponding
  function describes.  A Bullet is a node whose two axis animations run
  independently; its hit test and its two-phase destruction are methods on
  its fields.
*/
module Players {
  import opened Wrappers
  import opened Geometry
  import opened Framing
  import opened Visibility

  // ---------------------------------------------------------------------
  // Names

  /** The decimal digit for d. */
  function Digit(d: nat): (c: char)
    requires d < 10
    ensures '0' <= c <= '9' && (c as int) - ('0' as int) == d
  {
    ('0' as int + d) as char
  }

  /** std::to_string for a non-negative id. */
  function Decimal(n: nat): (r: string)
    ensures |r| >= 1
    ensures forall k :: 0 <= k < |r| ==> '0' <= r[k] <= '9'
    decreases n
  {
    if n < 10 then [Digit(n)] else Decimal(n / 10) + [Digit(n % 10)]
  }

  /** The value of a string of decimal digits. */
  function DecimalValue(s: string): int {
    if s == [] then 0 else 10 * DecimalValue(s[..|s| - 1]) + ((s[|s| - 1] as int) - ('0' as int))
  }

  /** The default name spells the id back. */
  lemma {:induction false} DecimalRoundTrip(n: nat)
    ensures DecimalValue(Decimal(n)) == n
    decreases n
  {
    var r := Decimal(n);
    if n >= 10 {
      DecimalRoundTrip(n / 10);
      assert r[..|r| - 1] == Decimal(n / 10);
    }
  }

  /** The name a player starts with: "Bot " and its id. */
  function DefaultName(id: nat): (r: string)
    ensures |r| > 4 && r[..4] == "Bot " && DecimalValue(r[4..]) == id
  {
    DecimalRoundTrip(id);
    var r := "Bot " + Decimal(id);
    assert r[4..] == Decimal(id);
    r
  }

  // ---------------------------------------------------------------------
  // The command engine

  /** What handleCommand did: returned a flag, or let std::stof's exception escape. */
  datatype Outcome = Returned(value: bool) | Threw

  /** An animation keyframe: a time in [0, 1] and a coordinate. */
  datatype KeyFrame = KeyFrame(time: real, value: real)

  /** The two-keyframe animation from one coordinate to another. */
  function Keys(from: real, to: real): seq<KeyFrame> {
    [KeyFrame(0.0, from), KeyFrame(1.0, to)]
  }

  /**
    The part of a player handleCommand reads and writes: the committed
    position and rotation, the cursor, the name, and the keyframes of the
    two movement animations.
  */
  datatype Pose = Pose(position: Vec2, rotation: real, cursor: Vec2, name: string,
                       xKeys: seq<KeyFrame>, yKeys: seq<KeyFrame>)

  /** The result of one command: the outcome, the new pose, and whether a bullet was fired. */
  datatype Effect = Effect(outcome: Outcome, pose: Pose, fired: bool)

  datatype Command = NameCommand | PointAt | Fire | StrafeLeft | StrafeRight | Forward | Backward | Unrecognized

  /** The command word each command is sent as. */
  function Keyword(c: Command): string {
    match c
    case NameCommand => "NAME"
    case PointAt => "POINT_AT"
    case Fire => "FIRE"
    case StrafeLeft => "STRAFE_LEFT"
    case StrafeRight => "STRAFE_RIGHT"
    case Forward => "FORWARD"
    case Backward => "BACKWARD"
    case Unrecognized => ""
  }

  /** The if-chain of handleCommand: exact, case-sensitive comparisons. */
  function Dispatch(command: string): (c: Command)
    ensures c != Unrecognized ==> Keyword(c) == command
  {
    if command == "NAME" then NameCommand
    else if command == "POINT_AT" then PointAt
    else if command == "FIRE" then Fire
    else if command == "STRAFE_LEFT" then StrafeLeft
    else if command == "STRAFE_RIGHT" then StrafeRight
    else if command == "FORWARD" then Forward
    else if command == "BACKWARD" then Backward
    else Unrecognized
  }

  /** Every recognised command word dispatches to its command. */
  lemma DispatchKeyword(c: Command)
    requires c != Unrecognized
    ensures Dispatch(Keyword(c)) == c
  {
    match c
    case NameCommand =>
    case PointAt =>
    case Fire =>
    case StrafeLeft =>
    case StrafeRight =>
    case Forward =>
    case Backward =>
  }

  /** M_PI_2 as a double. */
  const HalfPi: real := 1.5707963267948966

  /** The sideways step of the strafe commands. */
  function Horizontal(c: Command): int {
    if c == StrafeLeft then -10 else if c == StrafeRight then 10 else 0
  }

  /** The step along the aim of FORWARD and BACKWARD. */
  function Vertical(c: Command): int {
    if c == Forward then 10 else if c == Backward then -10 else 0
  }

  /** The unclamped move: along the aim when vertical, else across it when horizontal. */
  function Moved(m: Math, position: Vec2, rotation: real, horizontal: int, vertical: int): (r: Vec2)
    ensures vertical == 0 && horizontal == 0 ==> r == position
  {
    if vertical != 0 then
      Vec2(position.x + m.cos(rotation) * vertical as real, position.y + m.sin(rotation) * vertical as real)
    else if horizontal != 0 then
      Vec2(position.x + m.cos(rotation + HalfPi) * horizontal as real,
           position.y + m.sin(rotation + HalfPi) * horizontal as real)
    else position
  }

  /** The requested position, clamped to the world: max(min(v, size), 0) per axis. */
  function Requested(m: Math, world: Arena, position: Vec2, rotation: real, horizontal: int, vertical: int): (r: Vec2)
    ensures world.InBounds(r)
    ensures vertical == 0 && horizontal == 0 && world.InBounds(position) ==> r == position
  {
    var moved := Moved(m, position, rotation, horizontal, vertical);
    Vec2(Clamp(moved.x, world.width as real), Clamp(moved.y, world.height as real))
  }

  /**
    The shared tail of every command that reaches it: aim at the cursor,
    move, clamp, and commit position and rotation together unless neither
    would change.
  */
  function Tail(m: Math, world: Arena, p: Pose, horizontal: int, vertical: int): (e: Effect)
    ensures !e.fired && e.outcome.Returned?
    ensures e.pose.cursor == p.cursor && e.pose.name == p.name
    ensures var rotation := Bearing(m, p.position, p.cursor);
      var requested := Requested(m, world, p.position, rotation, horizontal, vertical);
      (e.outcome.value <==> requested != p.position || rotation != p.rotation) &&
      (e.outcome.value ==>
         e.pose.position == requested && e.pose.rotation == rotation &&
         e.pose.xKeys == Keys(p.position.x, requested.x) && e.pose.yKeys == Keys(p.position.y, requested.y)) &&
      (!e.outcome.value ==> e.pose == p)
  {
    var rotation := Bearing(m, p.position, p.cursor);
    var requested := Requested(m, world, p.position, rotation, horizontal, vertical);
    if requested == p.position && rotation == p.rotation then Effect(Returned(false), p, false)
    else Effect(Returned(true),
                p.(position := requested, rotation := rotation,
                   xKeys := Keys(p.position.x, requested.x), yKeys := Keys(p.position.y, requested.y)),
                false)
  }

  /** A command refused before anything changed. */
  function Refused(p: Pose): Effect {
    Effect(Returned(false), p, false)
  }

  /**
    Player::handleCommand on values.  A dead player, a NAME without exactly
    one argument, a POINT_AT without exactly two and an unknown command are
    refused with nothing changed.  FIRE returns true and leaves the pose
    alone.  NAME and POINT_AT fall through to the movement tail, so they
    return true only if the aim or the position changed; std::stof failing
    on a POINT_AT coordinate escapes as an exception, after the x coordinate
    was already stored when only the y coordinate failed.  Every committed
    position lies inside the world.
  */
  function Step(m: Math, world: Arena, dead: bool, p: Pose, command: string, arguments: seq<string>): (e: Effect)
    ensures dead ==> e == Refused(p)
    ensures !dead && Dispatch(command) == Unrecognized ==> e == Refused(p)
    ensures !dead && Dispatch(command) == NameCommand && |arguments| != 1 ==> e == Refused(p)
    ensures !dead && Dispatch(command) == PointAt && |arguments| != 2 ==> e == Refused(p)
    ensures e.fired <==> !dead && Dispatch(command) == Fire
    ensures e.fired ==> e.outcome == Returned(true) && e.pose == p
    ensures e.outcome.Threw? <==>
      !dead && Dispatch(command) == PointAt && |arguments| == 2 &&
      (m.stof(arguments[0]).None? || m.stof(arguments[1]).None?)
    ensures e.outcome != Returned(true) ==>
      e.pose.position == p.position && e.pose.rotation == p.rotation &&
      e.pose.xKeys == p.xKeys && e.pose.yKeys == p.yKeys
    ensures e.outcome == Returned(true) && !e.fired ==>
      e.pose.rotation == Bearing(m, p.position, e.pose.cursor) &&
      (e.pose.position != p.position || e.pose.rotation != p.rotation) &&
      e.pose.xKeys == Keys(p.position.x, e.pose.position.x) &&
      e.pose.yKeys == Keys(p.position.y, e.pose.position.y)
    ensures world.InBounds(p.position) ==> world.InBounds(e.pose.position)
    ensures e.pose.name == (if !dead && Dispatch(command) == NameCommand && |arguments| == 1 then arguments[0] else p.name)
    ensures !dead && Dispatch(command) == PointAt && |arguments| == 2 && m.stof(arguments[0]).Some? ==>
      e.pose.cursor.x == m.stof(arguments[0]).value &&
      e.pose.cursor.y == (if m.stof(arguments[1]).Some? then m.stof(arguments[1]).value else p.cursor.y)
    ensures !(!dead && Dispatch(command) == PointAt && |arguments| == 2 && m.stof(arguments[0]).Some?) ==>
      e.pose.cursor == p.cursor
  {
    if dead then Refused(p)
    else
      var c := Dispatch(command);
      match c
      case NameCommand =>
        if |arguments| != 1 then Refused(p) else Tail(m, world, p.(name := arguments[0]), 0, 0)
      case PointAt =>
        if |arguments| != 2 then Refused(p)
        else
          var x, y := m.stof(arguments[0]), m.stof(arguments[1]);
          if x.None? then Effect(Threw, p, false)
          else if y.None? then Effect(Threw, p.(cursor := Vec2(x.value, p.cursor.y)), false)
          else Tail(m, world, p.(cursor := Vec2(x.value, y.value)), 0, 0)
      case Fire => Effect(Returned(true), p, true)
      case Unrecognized => Refused(p)
      case _ => Tail(m, world, p, Horizontal(c), Vertical(c))
  }

  /** A movement command moves by the clamped step along or across the aim, or reports that nothing moved. */
  lemma MoveCommits(m: Math, world: Arena, p: Pose, command: string, arguments: seq<string>)
    requires Dispatch(command) in {StrafeLeft, StrafeRight, Forward, Backward}
    ensures var e := Step(m, world, false, p, command, arguments);
      var c := Dispatch(command);
      var rotation := Bearing(m, p.position, p.cursor);
      var requested := Requested(m, world, p.position, rotation, Horizontal(c), Vertical(c));
      e.outcome.Returned? && e.pose.cursor == p.cursor &&
      (e.outcome.value <==> requested != p.position || rotation != p.rotation) &&
      (e.outcome.value ==> e.pose.position == requested && e.pose.rotation == rotation)
  {
  }

  /** The six fields serializeState sends: x, y, pointing_at_x, pointing_at_y, rotation, alive. */
  datatype PlayerState = PlayerState(x: real, y: real, pointingAtX: real, pointingAtY: real, rotation: real, alive: bool)

  /** The zero rectangle rect2d() a dead player reports as its geometry. */
  const EmptyRect := Rect(Vec2(0.0, 0.0), Vec2(0.0, 0.0))

  /** The player's square, (−10, −10) to (10, 10) around its centre, rotated and moved to its position. */
  function BodyRect(m: Math, position: Vec2, rotation: real): (r: Rect)
    ensures r.Contains(position)
  {
    var tl := Rotate(m, rotation, Vec2(-10.0, -10.0));
    var br := Rotate(m, rotation, Vec2(10.0, 10.0));
    assert tl.x == -br.x && tl.y == -br.y;
    Normalized(Vec2(position.x + tl.x, position.y + tl.y), Vec2(position.x + br.x, position.y + br.y))
  }

  /** The polygon after a sweep: the new fan if there is one, else the previous polygon. */
  function Installed(previous: seq<Vec2>, fan: Option<seq<Vec2>>): seq<Vec2> {
    if fan.Some? then fan.value else previous
  }

  /** A bullet's effect on a hit test. */
  datatype Verdict = Flying | CoverChanged | Kill

  /**
    Bullet::checkHit's decision: a change of cover against the launch stops
    the bullet; otherwise a found player other than the owner is killed;
    otherwise the bullet flies on.
  */
  function Judge(coversNow: bool, startedInside: bool, found: Player?, owner: Player?): (v: Verdict)
    ensures v == CoverChanged <==> coversNow != startedInside
    ensures v == Kill <==> coversNow == startedInside && found != null && found != owner
  {
    if coversNow != startedInside then CoverChanged
    else if found == null || found == owner then Flying
    else Kill
  }

  // ---------------------------------------------------------------------
  // Player

  class Player {
    const id: nat
    const color: Color
    /** The world this player moves in (the GameWindow back-pointer): its size and obstacles. */
    const world: Arena
    const math: Math

    var dead: bool
    /** The root node is attached to the scene. */
    var inScene: bool
    /** A TCP connection handle is held. */
    var connection: bool
    var position: Vec2
    var rotation: real
    var cursor: Vec2
    var name: string
    var xKeys: seq<KeyFrame>
    var yKeys: seq<KeyFrame>
    /** The single-slot mailbox filled by onTcpMessage and emptied by update. */
    var command: string
    var arguments: seq<string>
    var buffer: string
    var polygon: seq<Vec2>
    var visiblePlayers: seq<Vec2>
    /** The bullets attached under the player's root node. */
    var bullets: seq<Bullet>
    /** The player positions each visibility recomputation (one per update() of the live player) was given, oldest first. */
    ghost var updates: seq<seq<Vec2>>

    /** The committed position lies inside the world. */
    predicate Valid()
      reads this`position
    {
      world.InBounds(position)
    }

    /**
      Spawns with the given random rolls at ((rx mod w) div 2 + w div 4,
      (ry mod h) div 2 + h div 4), facing angle 0 with the cursor at the
      origin, alive, with no connection and an empty mailbox.
    */
    constructor(id: nat, color: Color, world: Arena, math: Math, rollX: nat, rollY: nat)
      requires world.width > 0 && world.height > 0
      ensures Valid()
      ensures this.id == id && this.color == color && this.world == world && this.math == math
      ensures position == Vec2(((rollX % world.width) / 2 + world.width / 4) as real,
                               ((rollY % world.height) / 2 + world.height / 4) as real)
      ensures rotation == 0.0 && cursor == Vec2(0.0, 0.0) && name == DefaultName(id)
      ensures !dead && inScene && !connection
      ensures command == [] && arguments == [] && buffer == []
      ensures xKeys == [] && yKeys == [] && polygon == [] && visiblePlayers == [] && bullets == []
      ensures updates == []
    {
      this.id := id;
      this.color := color;
      this.world := world;
      this.math := math;
      var w, h := world.width, world.height;
      position := Vec2(((rollX % w) / 2 + w / 4) as real, ((rollY % h) / 2 + h / 4) as real);
      rotation := 0.0;
      cursor := Vec2(0.0, 0.0);
      name := DefaultName(id);
      dead := false;
      inScene := true;
      connection := false;
      command, arguments, buffer := [], [], [];
      xKeys, yKeys := [], [];
      polygon, visiblePlayers, bullets := [], [], [];
      updates := [];
    }

    function CurrentPose(): Pose
      reads this`position, this`rotation, this`cursor, this`name, this`xKeys, this`yKeys
    {
      Pose(position, rotation, cursor, name, xKeys, yKeys)
    }

    /** serializeState: the committed position, the aim point, the rotation and whether the player lives. */
    function State(): (r: PlayerState)
      reads this`position, this`cursor, this`rotation, this`dead
      ensures r.x == position.x && r.y == position.y
      ensures r.pointingAtX == cursor.x && r.pointingAtY == cursor.y
      ensures r.rotation == rotation && r.alive == !dead
    {
      PlayerState(position.x, position.y, cursor.x, cursor.y, rotation, !dead)
    }

    /** isAlive: the player has not died since the last reset; this is the alive flag serializeState sends. */
    predicate IsAlive()
      reads this`dead
      ensures IsAlive() <==> !dead
    {
      !dead
    }

    /** isActive: a connection is held (whether its peer is still connected is not modelled). */
    predicate IsActive()
      reads this`connection
      ensures IsActive() <==> connection
    {
      connection
    }

    /** Player::geometry: the rotated square around the position, or rect2d() once dead. */
    function Geometry(): (r: Rect)
      reads this`dead, this`position, this`rotation
      ensures dead ==> r == EmptyRect
      ensures !dead ==> r.Contains(position)
    {
      if dead then EmptyRect else BodyRect(math, position, rotation)
    }

    /** die: the first call kills and detaches the player, later calls change nothing. */
    method Die()
      modifies this`dead, this`inScene
      ensures dead
      ensures old(dead) ==> inScene == old(inScene)
      ensures !old(dead) ==> !inScene
    {
      if dead {
        return;
      }
      dead := true;
      inScene := false;
    }

    /** reset: revives the player, re-attaching it only if it was dead. */
    method Reset()
      modifies this`dead, this`inScene
      ensures !dead
      ensures old(dead) ==> inScene
      ensures !old(dead) ==> inScene == old(inScene)
    {
      if dead {
        inScene := true;
      }
      dead := false;
    }

    /** setTcpConnection: stores the handle, which may be null. */
    method SetTcpConnection(client: bool)
      modifies this`connection
      ensures connection == client
    {
      connection := client;
    }

    /** closeConnection: drops the handle. */
    method CloseConnection()
      modifies this`connection
      ensures !connection
    {
      connection := false;
    }

    /** The bullet fired by the last command, if any, is the only new one, launched from this player at the cursor. */
    twostate predicate BulletsAfter(fired: bool)
      reads this`bullets, this`cursor, this`position, bullets
    {
      if fired then
        |bullets| == |old(bullets)| + 1 && bullets[..|old(bullets)|] == old(bullets) &&
        fresh(bullets[|old(bullets)|]) && bullets[|old(bullets)|].LaunchedBy(this, old(cursor))
      else bullets == old(bullets)
    }

    /** The FIRE branch: a bullet from this player towards the cursor is attached and started. */
    method Fire()
      modifies this`bullets
      ensures BulletsAfter(true)
      ensures unchanged(this`position, this`rotation, this`cursor, this`name, this`xKeys, this`yKeys)
    {
      var bullet := Bullet.Create(this, cursor, color);
      bullets := bullets + [bullet];
      bullet.Start();
    }

    /** handleCommand: updates the pose exactly as Step says and fires a bullet on FIRE. */
    method HandleCommand(command: string, arguments: seq<string>) returns (outcome: Outcome)
      requires Valid()
      modifies this`cursor, this`name, this`position, this`rotation, this`xKeys, this`yKeys, this`bullets
      ensures Valid()
      ensures var e := Step(math, world, old(dead), old(CurrentPose()), command, arguments);
        outcome == e.outcome && CurrentPose() == e.pose && BulletsAfter(e.fired)
      ensures unchanged(this`command, this`arguments, this`visiblePlayers, this`polygon)
    {
      if dead {
        return Returned(false);
      }
      var horizontal, vertical := 0, 0;
      var c := Dispatch(command);
      if c.NameCommand? {
        if |arguments| != 1 {
          return Returned(false);
        }
        name := arguments[0];
      } else if c.PointAt? {
        if |arguments| != 2 {
          return Returned(false);
        }
        var x := math.stof(arguments[0]);
        if x.None? {
          return Threw;
        }
        cursor := Vec2(x.value, cursor.y);
        var y := math.stof(arguments[1]);
        if y.None? {
          return Threw;
        }
        cursor := Vec2(cursor.x, y.value);
      } else if c.Fire? {
        Fire();
        return Returned(true);
      } else if c.StrafeLeft? {
        horizontal := -10;
      } else if c.StrafeRight? {
        horizontal := 10;
      } else if c.Forward? {
        vertical := 10;
      } else if c.Backward? {
        vertical := -10;
      } else {
        return Returned(false);
      }

      assert horizontal == Horizontal(c) && vertical == Vertical(c);
      outcome := MoveTail(horizontal, vertical);
    }

    /** The tail of handleCommand: aim at the cursor, move, clamp, and commit as Tail says. */
    method MoveTail(horizontal: int, vertical: int) returns (outcome: Outcome)
      requires Valid()
      modifies this`position, this`rotation, this`xKeys, this`yKeys
      ensures Valid()
      ensures var e := Tail(math, world, old(CurrentPose()), horizontal, vertical);
        outcome == e.outcome && CurrentPose() == e.pose
      ensures unchanged(this`bullets)
    {
      var requested := position;
      var rotation' := Bearing(math, position, cursor);
      if vertical != 0 {
        requested := Vec2(requested.x + math.cos(rotation') * vertical as real,
                          requested.y + math.sin(rotation') * vertical as real);
      } else if horizontal != 0 {
        requested := Vec2(requested.x + math.cos(rotation' + HalfPi) * horizontal as real,
                          requested.y + math.sin(rotation' + HalfPi) * horizontal as real);
      }
      assert requested == Moved(math, position, rotation', horizontal, vertical);
      requested := Vec2(Min(requested.x, world.width as real), requested.y);
      requested := Vec2(Max(requested.x, 0.0), requested.y);
      requested := Vec2(requested.x, Min(requested.y, world.height as real));
      requested := Vec2(requested.x, Max(requested.y, 0.0));

      assert requested == Requested(math, world, position, rotation', horizontal, vertical);
      if requested == position && rotation' == rotation {
        return Returned(false);
      }
      xKeys := Keys(position.x, requested.x);
      yKeys := Keys(position.y, requested.y);
      position := requested;
      rotation := rotation';
      return Returned(true);
    }

    /** updateVisibility: recomputes the visible players and installs the fan when there is one. */
    method UpdateVisibility(others: seq<Vec2>)
      modifies this`updates, this`visiblePlayers, this`polygon
      ensures updates == old(updates) + [others]
      ensures visiblePlayers == VisibleAmong(math, old(position), others, Segments(math, Blocks(world)))
      ensures polygon == Installed(old(polygon), Fan(math, old(position), world))
      ensures unchanged(this`position, this`rotation, this`cursor, this`name, this`xKeys, this`yKeys, this`bullets, this`command, this`arguments)
    {
      var visible, fan := ComputeVisibility(math, position, world, others);
      Show(visible, fan);
      updates := updates + [others];
    }

    /** The tail of updateVisibility: the visible list is replaced, and the polygon only when there is a fan. */
    method Show(visible: seq<Vec2>, fan: Option<seq<Vec2>>)
      modifies this`visiblePlayers, this`polygon
      ensures visiblePlayers == visible && polygon == Installed(old(polygon), fan)
    {
      visiblePlayers := visible;
      if fan.Some? {
        polygon := fan.value;
      }
    }

    /**
      The mailbox half of update for a live player: with a connection held,
      the pending command (if any) is applied once and the mailbox emptied,
      unless the command threw; without one nothing changes.
    */
    method TakeMail() returns (threw: bool)
      requires Valid() && !dead
      modifies this`cursor, this`name, this`position, this`rotation, this`xKeys, this`yKeys, this`bullets,
               this`command, this`arguments
      ensures Valid()
      ensures connection && old(command) != [] ==>
        var e := Step(math, world, false, old(CurrentPose()), old(command), old(arguments));
        CurrentPose() == e.pose && threw == e.outcome.Threw? && BulletsAfter(e.fired)
      ensures !(connection && old(command) != []) ==>
        !threw && CurrentPose() == old(CurrentPose()) && bullets == old(bullets)
      ensures connection && !threw ==> command == [] && arguments == []
      ensures !(connection && !threw) ==> command == old(command) && arguments == old(arguments)
      ensures unchanged(this`visiblePlayers, this`polygon)
    {
      threw := false;
      if IsActive() {
        if command != [] {
          var outcome := HandleCommand(command, arguments);
          if outcome.Threw? {
            return true;
          }
        }
        command := [];
        arguments := [];
      }
    }

    /** update: nothing for a dead player; otherwise the visibility is recomputed and then the mailbox is taken. */
    method Update(others: seq<Vec2>) returns (threw: bool)
      requires Valid()
      modifies this`updates, this`visiblePlayers, this`polygon, this`cursor, this`name, this`position, this`rotation,
               this`xKeys, this`yKeys, this`bullets, this`command, this`arguments
      ensures Valid()
      ensures updates == old(updates) + (if old(dead) then [] else [others])
      ensures old(dead) ==> !threw && unchanged(this)
      ensures !old(dead) ==>
        visiblePlayers == VisibleAmong(math, old(position), others, Segments(math, Blocks(world))) &&
        polygon == Installed(old(polygon), Fan(math, old(position), world))
      ensures !old(dead) && connection && old(command) != [] ==>
        var e := Step(math, world, false, old(CurrentPose()), old(command), old(arguments));
        CurrentPose() == e.pose && threw == e.outcome.Threw? && BulletsAfter(e.fired)
      ensures !(connection && old(command) != []) ==>
        !threw && CurrentPose() == old(CurrentPose()) && bullets == old(bullets)
      ensures !old(dead) && connection && !threw ==> command == [] && arguments == []
      ensures !(!old(dead) && connection && !threw) ==> command == old(command) && arguments == old(arguments)
    {
      if !IsAlive() {
        return false;
      }
      UpdateVisibility(others);
      threw := TakeMail();
    }

    /**
      onTcpMessage: a failed read drops the connection and changes nothing
      else.  Otherwise the chunk is appended; if the buffer now holds a
      newline, one line is framed out of it, the buffer keeps what Frame
      leaves, and the mailbox is overwritten with the parsed line.
    */
    method OnTcpMessage(success: bool, chunk: string)
      modifies this`connection, this`buffer, this`command, this`arguments
      ensures !success ==>
        !connection && buffer == old(buffer) && command == old(command) && arguments == old(arguments)
      ensures success ==> connection == old(connection)
      ensures success ==>
        match Frame(old(buffer) + chunk)
        case None => buffer == old(buffer) + chunk && command == old(command) && arguments == old(arguments)
        case Some(f) => buffer == f.rest && Mail(command, arguments) == ParseLine(f.line)
    {
      if !success {
        connection := false;
        return;
      }
      buffer := buffer + chunk;
      var framed := Frame(buffer);
      if framed.None? {
        return;
      }
      var mail := Tokenize(framed.value.line);
      buffer := framed.value.rest;
      arguments := mail.arguments;
      command := mail.command;
    }
  }

  // ---------------------------------------------------------------------
  // Bullet

  class Bullet {
    var owner: Player?
    var world: Option<Arena>
    var target: Vec2
    var xKeys: seq<KeyFrame>
    var yKeys: seq<KeyFrame>
    var color: Color
    var geometry: Rect
    /** Whether the bullet was inside an obstacle when it was launched. */
    var startedInside: bool
    /** start() ran: every move is checked for a hit from now on. */
    var started: bool
    var xRunning: bool
    var yRunning: bool
    var xStopRequested: bool
    var yStopRequested: bool
    var destroyed: bool

    /** A bullet is destroyed only once neither axis animation is running. */
    predicate Valid()
      reads this
    {
      destroyed ==> !xRunning && !yRunning
    }

    /** The node's position: the top-left corner of its geometry. */
    function Position(): Vec2
      reads this
    {
      geometry.tl
    }

    /** The state Bullet::create and start leave: launched by o towards t from o's position. */
    predicate LaunchedBy(o: Player, t: Vec2)
      reads this, o`position
    {
      owner == o && world == Some(o.world) && target == t && color == o.color &&
      geometry == FromPosSize(Vec2(o.position.x - 3.0, o.position.y - 3.0), Vec2(6.0, 6.0)) &&
      xKeys == Keys(o.position.x, t.x) && yKeys == Keys(o.position.y, t.y) &&
      started && xRunning && yRunning && !xStopRequested && !yStopRequested && !destroyed &&
      startedInside == o.world.Covers(geometry.tl)
    }

    constructor()
      ensures owner == null && world == None && !startedInside && !started
      ensures !xRunning && !yRunning && !xStopRequested && !yStopRequested && !destroyed
      ensures xKeys == [] && yKeys == []
      ensures Valid()
    {
      owner := null;
      world := None;
      target := Vec2(0.0, 0.0);
      xKeys, yKeys := [], [];
      color := Transparent;
      geometry := EmptyRect;
      startedInside := false;
      started := false;
      xRunning, yRunning := false, false;
      xStopRequested, yStopRequested := false, false;
      destroyed := false;
    }

    /** setOwner: the bullet's world is its owner's world. */
    method SetOwner(o: Player)
      modifies this`owner, this`world
      ensures owner == o && world == Some(o.world)
    {
      owner := o;
      world := Some(o.world);
    }

    /** setTarget: each axis animates from the owner's position at time 0 to the target at time 1. */
    method SetTarget(t: Vec2)
      requires owner != null
      modifies this`target, this`xKeys, this`yKeys
      ensures target == t
      ensures xKeys == Keys(owner.position.x, t.x) && yKeys == Keys(owner.position.y, t.y)
    {
      target := t;
      xKeys := [];
      xKeys := xKeys + [KeyFrame(0.0, owner.position.x)];
      xKeys := xKeys + [KeyFrame(1.0, t.x)];
      yKeys := [];
      yKeys := yKeys + [KeyFrame(0.0, owner.position.y)];
      yKeys := yKeys + [KeyFrame(1.0, t.y)];
    }

    method SetColor(c: Color)
      modifies this`color
      ensures color == c
    {
      color := c;
    }

    method SetGeometry(g: Rect)
      modifies this`geometry
      ensures geometry == g
    {
      geometry := g;
    }

    /**
      Bullet::create: owner first (so the keyframes start at the owner),
      then target, colour, and the 6 x 6 square centred on the owner.
    */
    static method Create(o: Player, t: Vec2, c: Color) returns (b: Bullet)
      ensures fresh(b)
      ensures b.owner == o && b.world == Some(o.world) && b.target == t && b.color == c
      ensures b.geometry == FromPosSize(Vec2(o.position.x - 3.0, o.position.y - 3.0), Vec2(6.0, 6.0))
      ensures b.xKeys == Keys(o.position.x, t.x) && b.yKeys == Keys(o.position.y, t.y)
      ensures !b.started && !b.xRunning && !b.yRunning && !b.xStopRequested && !b.yStopRequested && !b.destroyed
    {
      b := new Bullet();
      b.SetOwner(o);
      b.SetTarget(t);
      b.SetColor(c);
      b.SetGeometry(FromPosSize(Vec2(o.position.x - 3.0, o.position.y - 3.0), Vec2(6.0, 6.0)));
    }

    /** start: records the cover at launch once, and sets both axes running. */
    method Start()
      requires world.Some? && !destroyed
      modifies this`startedInside, this`started, this`xRunning, this`yRunning
      ensures startedInside == world.value.Covers(Position())
      ensures started && xRunning && yRunning
      ensures Valid()
    {
      startedInside := world.value.Covers(Position());
      started := true;
      xRunning := true;
      yRunning := true;
    }

    /** The state changes of one hit test with the given verdict. */
    twostate predicate Judged(found: Player?, verdict: Verdict)
      reads this, found
    {
      (verdict == Flying ==>
         xStopRequested == old(xStopRequested) && yStopRequested == old(yStopRequested) && color == old(color)) &&
      (verdict == CoverChanged ==> xStopRequested && yStopRequested && color == Transparent) &&
      (verdict == Kill ==>
         xStopRequested && yStopRequested && color == old(color) &&
         found != null && found.dead && (old(found.dead) ==> found.inScene == old(found.inScene)) &&
         (!old(found.dead) ==> !found.inScene)) &&
      (verdict != Kill && found != null ==> found.dead == old(found.dead) && found.inScene == old(found.inScene))
    }

    /**
      checkHit, with `found` the player getPlayerAt returns for the bullet's
      position (null when none): stops the bullet and makes it transparent
      when its cover changed since launch, and otherwise kills a found player
      other than its owner and stops.
    */
    method CheckHit(found: Player?) returns (verdict: Verdict)
      requires owner != null && world.Some?
      modifies this`xStopRequested, this`yStopRequested, this`color
      modifies (if found == null then {} else {found})`dead, (if found == null then {} else {found})`inScene
      ensures verdict == Judge(world.value.Covers(Position()), startedInside, found, owner)
      ensures Judged(found, verdict)
    {
      if world.value.Covers(Position()) != startedInside {
        xStopRequested := true;
        yStopRequested := true;
        color := Transparent;
        return CoverChanged;
      }
      if found == null || found == owner {
        return Flying;
      }
      found.Die();
      xStopRequested := true;
      yStopRequested := true;
      return Kill;
    }

    /** The x animation sets the x coordinate; once started, every move is checked for a hit. */
    method MoveX(x: real, found: Player?) returns (verdict: Verdict)
      requires started ==> owner != null && world.Some?
      modifies this`geometry, this`xStopRequested, this`yStopRequested, this`color
      modifies (if found == null then {} else {found})`dead, (if found == null then {} else {found})`inScene
      ensures geometry == Rect(Vec2(x, old(geometry.tl.y)), Vec2(x + old(geometry.br.x - geometry.tl.x), old(geometry.br.y)))
      ensures started ==> verdict == Judge(world.value.Covers(Position()), startedInside, found, owner)
      ensures Judged(found, if started then verdict else Flying)
    {
      geometry := Rect(Vec2(x, geometry.tl.y), Vec2(x + (geometry.br.x - geometry.tl.x), geometry.br.y));
      verdict := Flying;
      if started {
        verdict := CheckHit(found);
      }
    }

    /** The y animation sets the y coordinate; once started, every move is checked for a hit. */
    method MoveY(y: real, found: Player?) returns (verdict: Verdict)
      requires started ==> owner != null && world.Some?
      modifies this`geometry, this`xStopRequested, this`yStopRequested, this`color
      modifies (if found == null then {} else {found})`dead, (if found == null then {} else {found})`inScene
      ensures geometry == Rect(Vec2(old(geometry.tl.x), y), Vec2(old(geometry.br.x), y + old(geometry.br.y - geometry.tl.y)))
      ensures started ==> verdict == Judge(world.value.Covers(Position()), startedInside, found, owner)
      ensures Judged(found, if started then verdict else Flying)
    {
      geometry := Rect(Vec2(geometry.tl.x, y), Vec2(geometry.br.x, y + (geometry.br.y - geometry.tl.y)));
      verdict := Flying;
      if started {
        verdict := CheckHit(found);
      }
    }

    /** The x animation completed: the bullet is destroyed unless the y animation still runs. */
    method OnXCompleted()
      requires Valid()
      modifies this`xRunning, this`destroyed
      ensures Valid()
      ensures !xRunning
      ensures destroyed == (old(destroyed) || !yRunning)
    {
      xRunning := false;
      if yRunning {
        return;
      }
      destroyed := true;
    }

    /** The y animation completed: the bullet is destroyed unless the x animation still runs. */
    method OnYCompleted()
      requires Valid()
      modifies this`yRunning, this`destroyed
      ensures Valid()
      ensures !yRunning
      ensures destroyed == (old(destroyed) || !xRunning)
    {
      yRunning := false;
      if xRunning {
        return;
      }
      destroyed := true;
    }
  }
}
