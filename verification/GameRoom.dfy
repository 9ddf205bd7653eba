/** The server's room in imperative form: a room object whose maps and records the
    handlers update in place, scan by scan and field by field.  Each method is proved to
    do what the room machine of RoomSpec does. */
module GameServer {
  import opened Geometry
  import opened Ordered
  import opened Sequences
  import opened Protocol
  import opened TilemapModel
  import opened RoomSpec
  import opened RoomInvariant
  import opened RoomSafety
  import PathSearch

  class GameRoom {
    var nextId: nat
    var players: map<nat, Player>
    var monsters: map<nat, Monster>
    var tilemap: Tilemap
    ghost var clock: nat
    ghost var log: seq<Event>

    /** The room as a value. */
    ghost function State(): Room
      reads this
    {
      Room(nextId, clock, players, monsters, tilemap, log)
    }

    /** `Init`: one monster, then the map. */
    constructor (map_: Tilemap)
      ensures State() == Init(map_)
    {
      nextId, players, monsters, tilemap := 1, map[], map[], map_;
      clock, log := 0, [];
      new;
      var info := Info(nextId, MonsterKind, Idle, Up, 50, 50, 5, 0, Cell(0, 0));
      info := info.(pos := Cell(8, 8));
      nextId := nextId + 1;
      AddObject(info, []);
    }

    // ---------- messages ----------

    method Broadcast(msg: Message)
      modifies this`players
      ensures State() == old(State()).Broadcast(msg)
    {
      var rest := players.Keys;
      while rest != {}
        invariant players.Keys == old(players.Keys) && rest <= players.Keys
        invariant forall id :: id in rest ==> players[id] == old(players)[id]
        invariant forall id :: id in players && id !in rest ==>
          players[id] == Player(old(players)[id].info, old(players)[id].sent + [msg])
      {
        var id :| id in rest;
        players := players[id := players[id].(sent := players[id].sent + [msg])];
        rest := rest - {id};
      }
    }

    // ---------- lookups ----------

    method FindObject(id: nat) returns (info: Option<Info>)
      ensures info == if State().Has(id) then Some(State().Get(id)) else None
    {
      if id in players {
        return Some(players[id].info);
      }
      if id in monsters {
        return Some(monsters[id].info);
      }
      return None;
    }

    /** The scan of the players, then of the monsters, each in id order. */
    method GetGameObjectAt(cell: Cell) returns (id: Option<nat>)
      ensures id == State().ObjectAt(cell)
    {
      var rest := players.Keys;
      while rest != {}
        invariant rest <= players.Keys
        invariant forall k :: k in State().PlayersAt(cell) ==> k in rest
      {
        var k := FirstKey(rest);
        if players[k].info.pos == cell {
          assert k in State().PlayersAt(cell);
          return Some(k);
        }
        rest := rest - {k};
      }
      rest := monsters.Keys;
      while rest != {}
        invariant rest <= monsters.Keys
        invariant forall k :: k in State().MonstersAt(cell) ==> k in rest
      {
        var k := FirstKey(rest);
        if monsters[k].info.pos == cell {
          assert k in State().MonstersAt(cell);
          return Some(k);
        }
        rest := rest - {k};
      }
      return None;
    }

    /** The key that a walk over a map meets first. */
    static method FirstKey(keys: set<nat>) returns (k: nat)
      requires keys != {}
      ensures k in keys && forall j :: j in keys ==> k <= j
    {
      ghost var least := LeastExists(keys);
      k :| k in keys && forall j :: j in keys ==> k <= j;
    }

    method CanGo(cell: Cell) returns (ok: bool)
      ensures ok == State().CanGo(cell)
    {
      var tile := tilemap.GetTileAt(cell);
      if tile.None? {
        return false;
      }
      var o := GetGameObjectAt(cell);
      if o.Some? {
        return false;
      }
      return tile.value.walkable;
    }

    method FindClosestPlayer(pos: Cell) returns (id: Option<nat>)
      ensures id == State().FindClosestPlayer(pos)
    {
      id := None;
      var best := 0;
      var rest := players.Keys;
      ghost var seen: set<nat> := {};
      while rest != {}
        invariant rest + seen == players.Keys && rest !! seen
        invariant forall a, b :: a in seen && b in rest ==> a < b
        invariant id.None? <==> seen == {}
        invariant id.Some? ==> id.value in seen && best == DistanceOf(pos, id.value)
        invariant id.Some? ==> forall k :: k in seen ==> best < DistanceOf(pos, k) || (best == DistanceOf(pos, k) && id.value <= k)
      {
        var k := FirstKey(rest);
        var dist := pos.Minus(players[k].info.pos).LengthSquared();
        if id.None? || dist < best {
          best := dist;
          id := Some(k);
        }
        rest := rest - {k};
        seen := seen + {k};
      }
      if id.Some? {
        assert State().IsClosest(pos, id.value);
        ClosestIsUnique(State(), pos, id.value);
      } else {
        assert forall k :: !State().IsClosest(pos, k);
      }
    }

    ghost function DistanceOf(pos: Cell, id: nat): int
      requires id in players
      reads this
    {
      pos.Minus(players[id].info.pos).LengthSquared()
    }

    // ---------- leaving and damage ----------

    method RemoveObject(id: nat)
      modifies this`players, this`monsters
      ensures State() == old(State()).Remove(id)
    {
      var o := FindObject(id);
      if o.None? {
        return;
      }
      match o.value.kind {
        case PlayerKind => players := players - {id};
        case MonsterKind => monsters := monsters - {id};
        case NoKind => return;
      }
      Broadcast(S_RemoveObject([id]));
    }

    /** The session's player, if it still exists. */
    method LeaveRoom(id: nat)
      modifies this`players, this`monsters
      ensures State() == old(State()).Leave(id)
    {
      if id !in players {
        return;
      }
      RemoveObject(id);
    }

    method SetInfo(id: nat, info: Info)
      requires State().Has(id)
      modifies this`players, this`monsters
      ensures State() == old(State()).WithInfo(id, info)
    {
      if id in players {
        players := players[id := players[id].(info := info)];
      } else {
        monsters := monsters[id := monsters[id].(info := info)];
      }
    }

    method ApplyDamage(attacker: nat, victim: nat)
      modifies this
      ensures State() == old(State()).ApplyDamage(attacker, victim)
    {
      var a := FindObject(attacker);
      var v := FindObject(victim);
      if a.None? || v.None? {
        return;
      }
      ApplyDamageSteps(State(), attacker, victim);
      var damage := a.value.attack - v.value.defence;
      damage := if damage < 1 then 1 else damage;
      var info := v.value;
      if info.maxHp > 0 && info.hp > info.maxHp {
        info := info.(hp := info.maxHp);
      }
      var newHp := info.hp - damage;
      if newHp < 0 {
        newHp := 0;
      }
      info := info.(hp := newHp);
      ghost var e := HitEvent(State(), attacker, victim);
      SetInfo(victim, info);
      log := log + [e];
      if newHp <= 0 {
        RemoveObject(victim);
        return;
      }
      Broadcast(S_Move(info));
    }

    // ---------- entering ----------

    /** `sent` is what the session of a new player was already sent. */
    method AddObject(info: Info, sent: seq<Message>)
      modifies this`players, this`monsters
      ensures State() == old(State()).Add(info, sent)
    {
      match info.kind {
        case PlayerKind => players := players[info.id := Player(info, sent)];
        case MonsterKind => monsters := monsters[info.id := Monster(info, 0, None)];
        case NoKind => return;
      }
      Broadcast(S_AddObject([info]));
    }

    /** `OnConnected` and `EnterRoom`: the id of the new player. */
    method EnterRoom() returns (id: nat)
      modifies this
      ensures id == old(nextId) && State() == old(State()).Enter()
    {
      var sent := [S_EnterGame];
      id := nextId;
      nextId := nextId + 1;
      var info := Info(id, PlayerKind, Idle, Up, 0, 0, 0, 0, Cell(0, 0));
      info := info.(pos := Cell(5, 5));
      info := info.(hp := SWORD.hp, maxHp := SWORD.maxHp, attack := SWORD.attack, defence := SWORD.defence);
      sent := sent + [S_MyPlayer(info)];
      var everyone := ListEveryone();
      sent := sent + [S_AddObject(everyone)];
      EnterIsAdd(old(State()), State(), info, sent);
      AddObject(info, sent);
    }

    /** The keys of a map in the order of a walk over it. */
    static method Keys(s: set<nat>) returns (ids: seq<nat>)
      ensures ids == SortedIds(s)
    {
      ids := [];
      var rest := s;
      while rest != {}
        invariant ids + SortedIds(rest) == SortedIds(s)
      {
        var k := FirstKey(rest);
        SortedIdsStep(rest, k);
        Assoc(ids, [k], SortedIds(rest - {k}));
        ids := ids + [k];
        rest := rest - {k};
      }
      assert ids + [] == ids;
    }

    /** The records of everybody in the room, in the order of the maps. */
    method ListEveryone() returns (infos: seq<Info>)
      ensures infos == State().Everyone()
    {
      infos := ListPlayers();
      var rest := ListMonsters();
      infos := infos + rest;
    }

    method ListPlayers() returns (infos: seq<Info>)
      ensures infos == State().PlayerInfos(SortedIds(players.Keys))
    {
      infos := [];
      var ids := Keys(players.Keys);
      for i := 0 to |ids|
        invariant |infos| == i && forall k :: 0 <= k < i ==> ids[k] in players && infos[k] == players[ids[k]].info
      {
        assert ids[i] in players.Keys;
        infos := infos + [players[ids[i]].info];
      }
    }

    method ListMonsters() returns (infos: seq<Info>)
      ensures infos == State().MonsterInfos(SortedIds(monsters.Keys))
    {
      infos := [];
      var ids := Keys(monsters.Keys);
      for i := 0 to |ids|
        invariant |infos| == i && forall k :: 0 <= k < i ==> ids[k] in monsters && infos[k] == monsters[ids[k]].info
      {
        assert ids[i] in monsters.Keys;
        infos := infos + [monsters[ids[i]].info];
      }
    }

    // ---------- skills and moves ----------

    method ProcessSkill(id: nat)
      modifies this
      ensures State() == old(State()).ProcessSkill(id)
    {
      if id !in players {
        return;
      }
      var self := players[id].info;
      var targetCell := FrontCell(self.pos, self.dir);
      var t := GetGameObjectAt(targetCell);
      if t.None? {
        return;
      }
      var target := FindObject(t.value);
      if target.value.kind != MonsterKind {
        return;
      }
      ApplyDamage(id, t.value);
    }

    method Handle_C_Move(pkt: Info)
      modifies this
      ensures State() == old(State()).HandleMove(pkt)
    {
      var o := FindObject(pkt.id);
      if o.None? {
        return;
      }
      var prevState := o.value.state;
      var info := o.value;
      info := info.(state := pkt.state);
      info := info.(dir := pkt.dir);
      info := info.(pos := pkt.pos);

      var weapon := ResolveWeaponStat(pkt.attack);
      if info.maxHp <= 0 {
        info := info.(maxHp := weapon.maxHp);
      }
      info := info.(attack := weapon.attack, defence := weapon.defence);

      if pkt.maxHp > 0 && pkt.maxHp != info.maxHp {
        info := info.(maxHp := pkt.maxHp);
      }
      var maxHp := info.maxHp;
      if maxHp <= 0 {
        maxHp := weapon.maxHp;
      }
      if maxHp > 0 && info.hp > maxHp {
        info := info.(hp := maxHp);
      }
      if info.hp < 0 {
        info := info.(hp := 0);
      }
      assert info == Synced(o.value, pkt);
      SetInfo(pkt.id, info);

      if info.kind == PlayerKind {
        if prevState != Skill && info.state == Skill {
          ProcessSkill(pkt.id);
        }
      }
      Broadcast(S_Move(info));
    }

    // ---------- monsters ----------

    method BroadcastMove(id: nat)
      requires State().Has(id)
      modifies this`players
      ensures State() == old(State()).BroadcastMove(id)
    {
      var o := FindObject(id);
      Broadcast(S_Move(o.value));
    }

    /** The cells that hold an object. */
    method Occupied() returns (cells: set<Cell>)
      ensures forall c :: c in cells <==> State().ObjectAt(c).Some?
    {
      cells := (set id | id in players :: players[id].info.pos) + (set id | id in monsters :: monsters[id].info.pos);
      forall c
        ensures c in cells <==> State().ObjectAt(c).Some?
      {
        if c in cells {
          if id :| id in players && players[id].info.pos == c {
            assert id in State().PlayersAt(c);
          } else {
            var id :| id in monsters && monsters[id].info.pos == c;
            assert id in State().MonstersAt(c);
          }
        }
      }
    }

    /** `FindPath` on the cells that are free right now. */
    method FindPath(src: Cell, dest: Cell, maxDepth: int) returns (found: bool, path: seq<Cell>)
      ensures found <==> Dist(src, dest) < maxDepth
      ensures found ==> State().Search(src, dest, maxDepth).IsAnswer(path)
    {
      var occupied := Occupied();
      var map_ := tilemap;
      var free := (c: Cell) => map_.GetTileAt(c).Some? && c !in occupied && map_.GetTileAt(c).value.walkable;
      var q := PathSearch.Query(free, src, dest, maxDepth);
      ghost var r := State();
      ghost var pushes: nat;
      found, path, pushes := PathSearch.FindPath(q, []);
      if found {
        forall c
          ensures r.Search(src, dest, maxDepth).free(c) == q.free(c)
        {
        }
        SameQuery(q, r.Search(src, dest, maxDepth));
      }
    }

    /** `path` is what the search returned, if one was needed. */
    method UpdateIdle(id: nat, now: nat) returns (ghost path: seq<Cell>)
      requires id in monsters && id !in players && monsters[id].info.state == Idle
      modifies this
      ensures State() == old(State()).UpdateIdle(id, now, path)
      ensures old(State()).IdleQuery(id).Some? ==> old(State()).IdleQuery(id).value.IsAnswer(path)
    {
      var target := monsters[id].target;
      if target.None? || target.value !in players {
        target := FindClosestPlayer(monsters[id].info.pos);
      }
      assert target == State().ChosenTarget(id);
      monsters := monsters[id := monsters[id].(target := target)];
      assert State() == old(State()).WithTarget(id, target);
      path := [];
      if target.Some? && target.value in players {
        path := Approach(id, players[target.value].info.pos, now);
        SameSearch(old(State()), id, target, path);
      }
    }

    /** What a monster with a live target does. */
    method Approach(id: nat, at: Cell, now: nat) returns (ghost path: seq<Cell>)
      requires id in monsters && id !in players
      modifies this
      ensures var r, here := old(State()), old(monsters)[id].info.pos;
        && (Dist(at, here) == 1 ==> State() == r.StartSkill(id, at, now))
        && (Dist(at, here) != 1 && Dist(at, here) < 10 ==>
              r.Search(here, at, 10).IsAnswer(path) && State() == r.Followed(id, path, now))
        && (Dist(at, here) >= 10 ==> State() == r)
    {
      path := [];
      var here := monsters[id].info.pos;
      if Dist(at, here) == 1 {
        StartSkill(id, at, now);
      } else {
        var found, p := FindPath(here, at, 10);
        path := p;
        if found {
          FollowPath(id, p, now);
        }
      }
    }

    method StartSkill(id: nat, at: Cell, now: nat)
      requires id in monsters && id !in players
      modifies this
      ensures State() == old(State()).StartSkill(id, at, now)
    {
      var info := monsters[id].info;
      info := info.(dir := LookAtDir(info.pos, at));
      info := info.(state := Skill);
      monsters := monsters[id := monsters[id].(info := info)];
      Broadcast(S_Move(info));
      monsters := monsters[id := monsters[id].(waitUntil := now + 1000)];
    }

    method FollowPath(id: nat, path: seq<Cell>, now: nat)
      requires id in monsters && id !in players && path != []
      modifies this
      ensures State() == old(State()).Followed(id, path, now)
    {
      if |path| > 1 {
        var nextPos := path[1];
        var ok := CanGo(nextPos);
        if ok {
          var info := monsters[id].info;
          info := info.(dir := LookAtDir(info.pos, nextPos));
          info := info.(pos := nextPos);
          info := info.(state := Move);
          monsters := monsters[id := Monster(info, now + 1000, monsters[id].target)];
          log := log + [MonsterMoved(id, now)];
          Broadcast(S_Move(info));
        }
      } else {
        monsters := monsters[id := monsters[id].(info := monsters[id].info.(pos := path[0]))];
      }
    }

    method UpdateMove(id: nat, now: nat)
      requires id in monsters
      modifies this`monsters
      ensures State() == old(State()).UpdateMove(id, now)
    {
      if monsters[id].waitUntil > now {
        return;
      }
      SetIdle(id);
    }

    /** `SetState(IDLE)` without a broadcast. */
    method SetIdle(id: nat)
      requires id in monsters
      modifies this`monsters
      ensures State() == old(State()).Calmed(id)
    {
      if monsters[id].info.state == Idle {
        assert monsters[id := monsters[id].(info := monsters[id].info.(state := Idle))] == monsters;
        return;
      }
      monsters := monsters[id := monsters[id].(info := monsters[id].info.(state := Idle))];
    }

    method UpdateSkill(id: nat, now: nat)
      requires id in monsters
      modifies this
      ensures State() == old(State()).UpdateSkill(id, now)
    {
      if monsters[id].waitUntil > now {
        return;
      }
      SetIdle(id);
      Strike(id);
      if id in players || id in monsters {
        BroadcastMove(id);
      }
    }

    /** The blow at a target that is still in the room and one step away. */
    method Strike(id: nat)
      requires id in monsters
      modifies this
      ensures State() == old(State()).Strike(id)
    {
      var target := monsters[id].target;
      if target.None? || target.value !in players {
        monsters := monsters[id := monsters[id].(target := None)];
        return;
      }
      var dist := Dist(players[target.value].info.pos, monsters[id].info.pos);
      if dist == 1 {
        ApplyDamage(id, target.value);
        if target.value !in players && id in monsters {
          monsters := monsters[id := monsters[id].(target := None)];
        }
      }
    }

    /** `Monster::Update` at tick `now`. */
    method UpdateMonster(id: nat, now: nat) returns (ghost path: seq<Cell>)
      requires Inv(State()) && id in monsters && clock <= now
      modifies this
      ensures Enabled(old(State()), Label.Tick(id, now, path))
      ensures State() == Next(old(State()), Label.Tick(id, now, path))
      ensures Inv(State()) && monsters.Keys == old(monsters.Keys) && clock == now
    {
      path := [];
      ghost var r := State();
      clock := now;
      match monsters[id].info.state {
        case Idle =>
          path := UpdateIdle(id, now);
          ClockIsIrrelevant(r.(clock := now), id, r.clock);
          assert r.(clock := now).(clock := r.clock) == r;
        case Move => UpdateMove(id, now);
        case Skill => UpdateSkill(id, now);
        case UnknownState(_) =>
      }
      TickKeepsInv(r, id, now, path);
      TickFrame(r, id, now, path);
      TickSetsClock(r, id, now, path);
    }

    method UpdateNext(id: nat, now: nat, ghost r: Room, ghost ids: seq<nat>, ghost i: nat,
                      ghost states0: seq<Room>, ghost labels0: seq<Label>)
      returns (ghost states: seq<Room>, ghost labels: seq<Label>)
      requires Inv(State()) && id in monsters && clock <= now
      requires Walked(r, ids, i, State(), states0, labels0) && i < |ids| && ids[i] == id
      modifies this
      ensures Inv(State()) && monsters.Keys == old(monsters.Keys) && clock == now
      ensures Walked(r, ids, i + 1, State(), states, labels)
    {
      ghost var s := State();
      ghost var path := UpdateMonster(id, now);
      ghost var l := Label.Tick(id, now, path);
      WalkStep(r, ids, i, s, states0, labels0, l);
      states, labels := states0 + [State()], labels0 + [l];
    }

    /** `Update`: the walk over the monsters, with the tick that each of them reads.  The
        walk goes on from the key it has reached, in the map as it is by then. */
    method Update(ticks: seq<nat>) returns (ghost states: seq<Room>, ghost labels: seq<Label>)
      requires Inv(State()) && |ticks| == |monsters| && Nondecreasing(clock, ticks)
      modifies this
      ensures IsUpdate(old(State()), SortedIds(old(monsters.Keys)), states, labels)
      ensures State() == states[|labels|]
    {
      ghost var r, ids := State(), SortedIds(monsters.Keys);
      SortedIdsLength(monsters.Keys);
      AheadAtStart(ids, monsters.Keys);
      states, labels := UpdateAll(ticks, r, ids);
    }

    method UpdateAll(ticks: seq<nat>, ghost r: Room, ghost ids: seq<nat>)
      returns (ghost states: seq<Room>, ghost labels: seq<Label>)
      requires Inv(State()) && r == State() && ids == SortedIds(monsters.Keys) && |ticks| == |ids|
      requires Ahead(ids, 0) == monsters.Keys && Nondecreasing(clock, ticks)
      modifies this
      ensures Walked(r, ids, |ids|, State(), states, labels)
    {
      states, labels := [r], [];
      var i := 0;
      var more := monsters.Keys;
      while more != {}
        invariant Inv(State()) && monsters.Keys == r.monsters.Keys
        invariant i <= |ids| && more == Ahead(ids, i)
        invariant Nondecreasing(clock, ticks[i..])
        invariant Walked(r, ids, i, State(), states, labels)
        decreases |ids| - i
      {
        var id := FirstKey(more);
        FirstAhead(ids, i, id);
        assert ticks[i..][1..] == ticks[i + 1..] && ticks[i..][0] == ticks[i];
        states, labels := UpdateNext(id, ticks[i], r, ids, i, states, labels);
        i := i + 1;
        more := set k | k in monsters && id < k;
        NextAhead(ids, i, monsters.Keys);
      }
      AheadIsEmptyAtEnd(ids, i);
    }
  }

  /** A clock that starts at `from` and never goes back. */
  predicate Nondecreasing(from: nat, ticks: seq<nat>)
    decreases |ticks|
  {
    ticks == [] || (from <= ticks[0] && Nondecreasing(ticks[0], ticks[1..]))
  }

  // ---------- facts about walks ----------

  lemma {:induction false} TickSetsClock(r: Room, id: nat, now: nat, path: seq<Cell>)
    requires Inv(r) && Enabled(r, Label.Tick(id, now, path))
    ensures r.Tick(id, now, path).clock == now
  {
    var r1 := r.(clock := now);
    ClockIsIrrelevant(r, id, now);
    if r.monsters[id].info.state == Idle {
      UpdateIdleEffect(r1, id, now, path);
    } else if r.monsters[id].info.state == Skill {
      var calm := r1.Calmed(id);
      var t := calm.Lock(calm.monsters[id].target);
      if t.Some? { ApplyDamageSteps(calm, id, t.value); }
    }
  }

  /** The first i ids have had their tick, in order. */
  ghost predicate Walked(r: Room, ids: seq<nat>, i: nat, s: Room, states: seq<Room>, labels: seq<Label>) {
    && IsRun(states, labels) && states[0] == r && |labels| == i && states[i] == s && i <= |ids|
    && forall k :: 0 <= k < i ==> labels[k].Tick? && labels[k].id == ids[k]
  }

  lemma {:induction false} WalkStep(r: Room, ids: seq<nat>, i: nat, s: Room, states: seq<Room>, labels: seq<Label>, l: Label)
    requires Walked(r, ids, i, s, states, labels) && i < |ids| && l.Tick? && l.id == ids[i] && Enabled(s, l)
    ensures Walked(r, ids, i + 1, Next(s, l), states + [Next(s, l)], labels + [l])
  {
    var states', labels' := states + [Next(s, l)], labels + [l];
    forall k | 0 <= k < |labels'|
      ensures StepAt(states', labels', k)
    {
      if k < i {
        assert StepAt(states, labels, k);
      }
    }
  }

  /** The ids from position i on. */
  ghost function Ahead(ids: seq<nat>, i: nat): set<nat> {
    set k | k in ids && exists j :: i <= j < |ids| && ids[j] == k
  }

  lemma {:induction false} SortedIdsLength(s: set<nat>)
    ensures |SortedIds(s)| == |s|
    decreases |s|
  {
    if s != {} { SortedIdsLength(s - {Least(s)}); }
  }

  lemma {:induction false} FirstAhead(ids: seq<nat>, i: nat, id: nat)
    requires forall a, b :: 0 <= a < b < |ids| ==> ids[a] < ids[b]
    requires id in Ahead(ids, i) && forall k :: k in Ahead(ids, i) ==> id <= k
    ensures i < |ids| && ids[i] == id
  {
    assert ids[i] in Ahead(ids, i);
  }

  lemma {:induction false} NextAhead(ids: seq<nat>, i: nat, keys: set<nat>)
    requires 0 < i <= |ids|
    requires forall a, b :: 0 <= a < b < |ids| ==> ids[a] < ids[b]
    requires forall k :: k in ids <==> k in keys
    ensures (set k | k in keys && ids[i - 1] < k) == Ahead(ids, i)
  {
  }

  lemma {:induction false} AheadIsEmptyAtEnd(ids: seq<nat>, i: nat)
    requires i <= |ids|
    ensures Ahead(ids, i) == {} <==> i == |ids|
  {
    if i < |ids| {
      assert ids[i] in Ahead(ids, i);
    }
  }

  lemma {:induction false} AheadAtStart(ids: seq<nat>, keys: set<nat>)
    requires forall k :: k in ids <==> k in keys
    ensures Ahead(ids, 0) == keys
  {
  }

  /** Choosing a target does not change which paths are answers. */
  lemma {:induction false} SameSearch(r: Room, id: nat, target: Option<nat>, path: seq<Cell>)
    requires id in r.monsters && r.monsters[id].info.state == Idle
    requires target == r.ChosenTarget(id) && target.Some? && target.value in r.players
    requires var here, at := r.monsters[id].info.pos, r.players[target.value].info.pos;
      Dist(at, here) != 1 && Dist(at, here) < 10 ==> r.WithTarget(id, target).Search(here, at, 10).IsAnswer(path)
    ensures r.IdleQuery(id).Some? ==> r.IdleQuery(id).value.IsAnswer(path)
  {
    var here, at := r.monsters[id].info.pos, r.players[target.value].info.pos;
    var r' := r.WithTarget(id, target);
    var q', q := r'.Search(here, at, 10), r.Search(here, at, 10);
    forall c
      ensures q'.free(c) == q.free(c)
    {
      SameCells(r, r', c);
    }
    SameQuery(q', q);
  }

  lemma {:induction false} SameEveryone(r: Room, r': Room)
    requires r'.players == r.players && r'.monsters == r.monsters
    ensures r'.Everyone() == r.Everyone()
  {
  }

  /** Entering, once the id is taken, is adding the new player. */
  lemma {:induction false} EnterIsAdd(r: Room, r': Room, info: Info, sent: seq<Message>)
    requires r' == r.(nextId := r.nextId + 1) && info == r.NewPlayer()
    requires sent == [S_EnterGame] + [S_MyPlayer(info)] + [S_AddObject(r'.Everyone())]
    ensures r'.Add(info, sent) == r.Enter()
  {
    SameEveryone(r, r');
    assert sent == r.Welcome(info);
  }

  lemma {:induction false} SortedIdsStep(s: set<nat>, k: nat)
    requires k in s && forall j :: j in s ==> k <= j
    ensures SortedIds(s) == [k] + SortedIds(s - {k})
  {
  }

  lemma {:induction false} ClosestIsUnique(r: Room, pos: Cell, id: nat)
    requires r.IsClosest(pos, id)
    ensures r.FindClosestPlayer(pos) == Some(id)
  {
    var k := r.FindClosestPlayer(pos).value;
    assert r.IsClosest(pos, k);
  }
}
