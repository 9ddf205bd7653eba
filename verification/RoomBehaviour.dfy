/** What each step of the room does, told in terms of the records, the map and the
    messages alone: who is hit and for how much, who moves where, who is told what. */
module RoomBehaviour {
  import opened Geometry
  import opened Ordered
  import opened Protocol
  import opened TilemapModel
  import opened RoomSpec
  import opened RoomInvariant
  import PathSearch

  /** Every player that is still there was in the room before, and was sent these messages. */
  ghost predicate Told(r: Room, r': Room, msgs: seq<Message>) {
    forall p :: p in r'.players ==> p in r.players && r'.players[p].sent == r.players[p].sent + msgs
  }

  /** Nobody but these comes, goes, or changes its record. */
  ghost predicate OthersKept(r: Room, r': Room, ids: set<nat>) {
    forall k :: k !in ids ==> (r'.Has(k) <==> r.Has(k)) && (r.Has(k) ==> r'.Get(k) == r.Get(k))
  }

  /** Timers, targets and the generator. */
  ghost predicate RestKept(r: Room, r': Room) {
    && r'.nextId == r.nextId && r'.clock == r.clock && r'.tilemap == r.tilemap
    && r'.monsters.Keys <= r.monsters.Keys
    && forall k :: k in r'.monsters ==>
         r'.monsters[k].waitUntil == r.monsters[k].waitUntil && r'.monsters[k].target == r.monsters[k].target
  }

  /** The cell that an object faces: y grows downwards. */
  ghost predicate IsAhead(info: Info, cell: Cell) {
    match info.dir
    case Up => cell == Cell(info.pos.x, info.pos.y - 1)
    case Down => cell == Cell(info.pos.x, info.pos.y + 1)
    case Left => cell == Cell(info.pos.x - 1, info.pos.y)
    case Right => cell == Cell(info.pos.x + 1, info.pos.y)
    case UnknownDir(_) => cell == info.pos
  }

  lemma {:induction false} AheadIsFront(info: Info, cell: Cell)
    ensures IsAhead(info, cell) <==> cell == FrontCell(info.pos, info.dir)
  {
  }

  // ---------- hits ----------

  /** A hit costs the attacker's attack less the victim's defence, and at least one point;
      who has no more than that is gone. */
  lemma {:induction false} HitOutcome(r: Room, attacker: nat, victim: nat)
    requires Inv(r) && r.Has(attacker) && r.Has(victim)
    ensures var r' := r.ApplyDamage(attacker, victim);
      var power := r.Get(attacker).attack - r.Get(victim).defence;
      var lost := if power <= 1 then 1 else power;
      var left := r.Get(victim).hp - lost;
      && OthersKept(r, r', {victim}) && RestKept(r, r')
      && (left <= 0 ==> !r'.Has(victim) && Told(r, r', [S_RemoveObject([victim])]))
      && (left > 0 ==> r'.Has(victim) && r'.Get(victim) == r.Get(victim).(hp := left) && Told(r, r', [S_Move(r'.Get(victim))]))
      && r'.log == r.log + [if attacker in r.players then PlayerHit(attacker, victim) else MonsterHit(attacker, victim, r.clock)]
  {
    ApplyDamageEffect(r, attacker, victim);
  }

  // ---------- skills of players ----------

  /** The monster that a swing at a cell hits: no player stands there, and among the
      monsters that do it is the first. */
  ghost predicate IsVictim(r: Room, cell: Cell, v: nat) {
    && v in r.monsters && r.monsters[v].info.pos == cell
    && (forall p :: p in r.players ==> r.players[p].info.pos != cell)
    && (forall k :: k in r.monsters && r.monsters[k].info.pos == cell ==> v <= k)
  }

  lemma {:induction false} VictimIsObjectAt(r: Room, cell: Cell, v: nat)
    requires Inv(r)
    ensures IsVictim(r, cell, v) <==> r.ObjectAt(cell) == Some(v) && v in r.monsters
  {
    assert forall k :: k in r.monsters && r.monsters[k].info.pos == cell ==> k in r.MonstersAt(cell);
    assert forall k :: k in r.players && r.players[k].info.pos == cell ==> k in r.PlayersAt(cell);
  }

  /** A skill hits the victim ahead, and does nothing exactly if there is none. */
  lemma {:induction false} SkillHitsIff(r: Room, id: nat, cell: Cell)
    requires Inv(r) && id in r.players && IsAhead(r.players[id].info, cell)
    ensures forall v :: IsVictim(r, cell, v) ==> r.ProcessSkill(id) == r.ApplyDamage(id, v)
    ensures r.ProcessSkill(id) == r <==> !exists v :: IsVictim(r, cell, v)
  {
    AheadIsFront(r.players[id].info, cell);
    ObjectAtIsThere(r, cell);
    forall v: nat
      ensures IsVictim(r, cell, v) <==> r.ObjectAt(cell) == Some(v) && v in r.monsters
    {
      VictimIsObjectAt(r, cell, v);
    }
    if v :| IsVictim(r, cell, v) {
      HitOutcome(r, id, v);
      assert |r.ApplyDamage(id, v).log| == |r.log| + 1;
    }
  }

  // ---------- move messages ----------

  /** The record after a move message: pose as told, combat stats by weapon, and no more hit
      points than the maximum, which a positive one replaces. */
  ghost predicate IsSynced(before: Info, pkt: Info, after: Info) {
    && after.id == before.id && after.kind == before.kind
    && after.state == pkt.state && after.dir == pkt.dir && after.pos == pkt.pos
    && (pkt.attack == 12 ==> after.attack == 12 && after.defence == 3)
    && (pkt.attack == 18 ==> after.attack == 18 && after.defence == 2)
    && (pkt.attack != 12 && pkt.attack != 18 ==> after.attack == 15 && after.defence == 5)
    && after.maxHp == (if pkt.maxHp > 0 then pkt.maxHp else before.maxHp)
    && after.hp == (if before.hp > after.maxHp then after.maxHp else before.hp)
  }

  lemma {:induction false} SyncedOutcome(info: Info, pkt: Info)
    requires Alive(info)
    ensures IsSynced(info, pkt, Synced(info, pkt))
  {
  }

  /** The message makes its sender strike: a player that was not in the middle of a skill
      enters one. */
  ghost predicate EntersSkill(r: Room, pkt: Info) {
    pkt.id in r.players && r.players[pkt.id].info.state != Skill && pkt.state == Skill
  }

  /** A message about nobody in the room changes nothing; one that does not enter a skill
      changes the named record only, and tells everybody. */
  lemma {:induction false} MoveMessageOutcome(r: Room, pkt: Info)
    requires Inv(r) && !EntersSkill(r, pkt)
    ensures !r.Has(pkt.id) ==> r.HandleMove(pkt) == r
    ensures r.Has(pkt.id) ==> var r' := r.HandleMove(pkt);
      && r'.Has(pkt.id) && IsSynced(r.Get(pkt.id), pkt, r'.Get(pkt.id)) && OthersKept(r, r', {pkt.id}) && RestKept(r, r')
      && Told(r, r', [S_Move(r'.Get(pkt.id))]) && r'.log == r.log
  {
    if r.Has(pkt.id) {
      SyncedOutcome(r.Get(pkt.id), pkt);
    }
  }

  /** The monster that a message entering a skill strikes: the victim at the cell once its
      sender has taken the new pose. */
  ghost predicate IsStruck(r: Room, pkt: Info, cell: Cell, v: nat) {
    && v in r.monsters && r.monsters[v].info.pos == cell && pkt.pos != cell
    && (forall p :: p in r.players && p != pkt.id ==> r.players[p].info.pos != cell)
    && (forall k :: k in r.monsters && r.monsters[k].info.pos == cell ==> v <= k)
  }

  /** One blow by player id at v: v pays or is gone, and everybody is told of it. */
  ghost predicate OneBlow(r: Room, r': Room, id: nat, v: nat)
    requires r.Has(v) && r'.Has(id)
  {
    var power := r'.Get(id).attack - r.Get(v).defence;
    var left := r.Get(v).hp - if power <= 1 then 1 else power;
    && r'.log == r.log + [PlayerHit(id, v)]
    && (left <= 0 ==> !r'.Has(v) && Told(r, r', [S_RemoveObject([v]), S_Move(r'.Get(id))]))
    && (left > 0 ==> r'.Has(v) && r'.Get(v) == r.Get(v).(hp := left)
                     && Told(r, r', [S_Move(r'.Get(v)), S_Move(r'.Get(id))]))
  }

  lemma {:induction false} BlowThenAnnouncement(r: Room, id: nat, after: Info, v: nat)
    requires Inv(r) && id in r.players && v in r.monsters && GoodPlayer(id, after)
    ensures var r' := r.WithInfo(id, after).ApplyDamage(id, v).Broadcast(S_Move(after));
      && id in r'.players && r'.Get(id) == after
      && OneBlow(r, r', id, v) && OthersKept(r, r', {id, v}) && RestKept(r, r')
  {
    var r2 := r.WithInfo(id, after).ApplyDamage(id, v);
    BlowAlone(r, id, after, v);
    BroadcastKeepsObjects(r2, S_Move(after));
    assert forall k :: r2.Broadcast(S_Move(after)).Has(k) <==> r2.Has(k);
    ToldMore(r, r2, r2.Broadcast(S_Move(after)), after);
  }

  lemma {:induction false} BlowAlone(r: Room, id: nat, after: Info, v: nat)
    requires Inv(r) && id in r.players && v in r.monsters && GoodPlayer(id, after)
    ensures var r2 := r.WithInfo(id, after).ApplyDamage(id, v);
      var power := after.attack - r.Get(v).defence;
      var left := r.Get(v).hp - if power <= 1 then 1 else power;
      && id in r2.players && r2.Get(id) == after && r2.log == r.log + [PlayerHit(id, v)]
      && OthersKept(r, r2, {id, v}) && RestKept(r, r2)
      && (left <= 0 ==> !r2.Has(v) && Told(r, r2, [S_RemoveObject([v])]))
      && (left > 0 ==> r2.Has(v) && r2.Get(v) == r.Get(v).(hp := left) && Told(r, r2, [S_Move(r2.Get(v))]))
  {
    WithInfoKeepsInv(r, id, after);
    HitOutcome(r.WithInfo(id, after), id, v);
  }

  lemma {:induction false} ToldMore(r: Room, r1: Room, r': Room, info: Info)
    requires r' == r1.Broadcast(S_Move(info))
    ensures forall m :: Told(r, r1, [m]) ==> Told(r, r', [m, S_Move(info)])
  {
    assert forall m :: [m] + [S_Move(info)] == [m, S_Move(info)];
  }

  /** A message that enters a skill strikes exactly once, at the victim ahead of the new
      pose, and only then announces the new record. */
  lemma {:induction false} SkillMessageStrikes(r: Room, pkt: Info, cell: Cell, v: nat)
    requires Inv(r) && EntersSkill(r, pkt) && IsAhead(pkt, cell) && IsStruck(r, pkt, cell, v)
    ensures var r' := r.HandleMove(pkt);
      && pkt.id in r'.players && IsSynced(r.Get(pkt.id), pkt, r'.Get(pkt.id))
      && OneBlow(r, r', pkt.id, v) && OthersKept(r, r', {pkt.id, v}) && RestKept(r, r')
  {
    var after := Synced(r.Get(pkt.id), pkt);
    SyncedOutcome(r.Get(pkt.id), pkt);
    SyncedIsGood(r.Get(pkt.id), pkt);
    var r1 := r.WithInfo(pkt.id, after);
    WithInfoKeepsInv(r, pkt.id, after);
    SkillHitsIff(r1, pkt.id, cell);
    assert IsVictim(r1, cell, v);
    BlowThenAnnouncement(r, pkt.id, after, v);
  }

  /** With no victim ahead it is a mere move. */
  lemma {:induction false} SkillMessageMisses(r: Room, pkt: Info, cell: Cell)
    requires Inv(r) && EntersSkill(r, pkt) && IsAhead(pkt, cell) && forall v :: !IsStruck(r, pkt, cell, v)
    ensures var r' := r.HandleMove(pkt);
      && pkt.id in r'.players && IsSynced(r.Get(pkt.id), pkt, r'.Get(pkt.id))
      && OthersKept(r, r', {pkt.id}) && RestKept(r, r') && r'.log == r.log && Told(r, r', [S_Move(r'.Get(pkt.id))])
  {
    var after := Synced(r.Get(pkt.id), pkt);
    SyncedOutcome(r.Get(pkt.id), pkt);
    SyncedIsGood(r.Get(pkt.id), pkt);
    NobodyAhead(r, pkt, after, cell);
    AnnouncedAlone(r, pkt.id, after);
  }

  lemma {:induction false} NobodyAhead(r: Room, pkt: Info, after: Info, cell: Cell)
    requires Inv(r) && EntersSkill(r, pkt) && IsAhead(pkt, cell) && forall v :: !IsStruck(r, pkt, cell, v)
    requires GoodPlayer(pkt.id, after) && after.pos == pkt.pos && after.dir == pkt.dir
    ensures r.WithInfo(pkt.id, after).ProcessSkill(pkt.id) == r.WithInfo(pkt.id, after)
  {
    var r1 := r.WithInfo(pkt.id, after);
    WithInfoKeepsInv(r, pkt.id, after);
    SkillHitsIff(r1, pkt.id, cell);
    assert forall v: nat :: IsVictim(r1, cell, v) ==> IsStruck(r, pkt, cell, v);
  }

  lemma {:induction false} AnnouncedAlone(r: Room, id: nat, after: Info)
    requires Inv(r) && id in r.players
    ensures var r' := r.WithInfo(id, after).Broadcast(S_Move(after));
      && id in r'.players && r'.Get(id) == after
      && OthersKept(r, r', {id}) && RestKept(r, r') && r'.log == r.log && Told(r, r', [S_Move(after)])
  {
  }

  // ---------- coming and going ----------

  /** Entering gives the next id to a fresh sword player at (5, 5), tells it about itself,
      about everybody, and like everybody else about its arrival. */
  lemma {:induction false} EnterOutcome(r: Room)
    requires Inv(r)
    ensures var r', id := r.Enter(), r.nextId;
      var me := Info(id, PlayerKind, Idle, Up, 100, 100, 15, 5, Cell(5, 5));
      && r'.players.Keys == r.players.Keys + {id} && id !in r.players && r'.monsters == r.monsters
      && r'.players[id] == Player(me, [S_EnterGame, S_MyPlayer(me), S_AddObject(r.Everyone()), S_AddObject([me])])
      && (forall p :: p in r.players ==>
            r'.players[p] == Player(r.players[p].info, r.players[p].sent + [S_AddObject([me])]))
      && r'.nextId == id + 1 && r'.log == r.log && r'.clock == r.clock && r'.tilemap == r.tilemap
  {
  }

  /** Leaving takes the player out and tells the others; a player that is gone, or an id that
      is none, cannot leave. */
  lemma {:induction false} LeaveOutcome(r: Room, id: nat)
    requires Inv(r)
    ensures var r' := r.Leave(id);
      && !(id in r'.players) && r'.monsters == r.monsters && OthersKept(r, r', {id}) && RestKept(r, r') && r'.log == r.log
      && (id in r.players ==> Told(r, r', [S_RemoveObject([id])]))
      && (id !in r.players ==> r' == r)
  {
    if id in r.players {
      RemoveIsErase(r, id);
      assert r.monsters - {id} == r.monsters;
    }
  }

  // ---------- where one can go ----------

  /** Inside the map, on a walkable tile, and nobody there. */
  ghost predicate IsFree(r: Room, c: Cell) {
    && 0 <= c.x < r.tilemap.size.x && 0 <= c.y < r.tilemap.size.y
    && r.tilemap.tiles[c.y][c.x].walkable
    && forall id :: r.Has(id) ==> r.Get(id).pos != c
  }

  lemma {:induction false} CanGoIff(r: Room, c: Cell)
    requires Inv(r)
    ensures r.CanGo(c) <==> IsFree(r, c)
  {
    ObjectAtIsThere(r, c);
  }

  /** A route of single steps over free cells, each of them less than `limit` steps from the
      start. */
  ghost predicate IsRoute(r: Room, route: seq<Cell>, start: Cell, limit: int) {
    && |route| > 0 && route[0] == start
    && forall i :: 0 < i < |route| ==>
         Dist(route[i - 1], route[i]) == 1 && IsFree(r, route[i]) && Dist(start, route[i]) < limit
  }

  /** The search of a monster: its answer is such a route, without repetition, and no route
      ends nearer to the destination. */
  lemma {:induction false} SearchOutcome(r: Room, src: Cell, dest: Cell, limit: int, path: seq<Cell>)
    requires Inv(r) && r.Search(src, dest, limit).IsAnswer(path)
    ensures IsRoute(r, path, src, limit) && PathSearch.NoRepeats(path)
    ensures forall route :: IsRoute(r, route, src, limit) ==>
      Dist(path[|path| - 1], dest) <= Dist(route[|route| - 1], dest)
  {
    var q := r.Search(src, dest, limit);
    forall c
      ensures q.free(c) <==> IsFree(r, c)
    {
      CanGoIff(r, c);
    }
    forall i | 0 < i < |path|
      ensures Dist(path[i - 1], path[i]) == 1 && IsFree(r, path[i]) && Dist(src, path[i]) < limit
    {
      PathSearch.AnswerCellsAreFree(q, path, i);
    }
    forall route | IsRoute(r, route, src, limit)
      ensures Dist(path[|path| - 1], dest) <= Dist(route[|route| - 1], dest)
    {
      PathSearch.AnswerBeatsRoute(q, path, route);
    }
  }

  // ---------- idle monsters ----------

  ghost function Squared(a: Cell, b: Cell): int { (a.x - b.x) * (a.x - b.x) + (a.y - b.y) * (a.y - b.y) }

  /** The player that a monster goes for: the one it already has, while that is in the room;
      otherwise the nearest, and of several the one with the smallest id. */
  ghost predicate IsPrey(r: Room, id: nat, p: nat)
    requires id in r.monsters
  {
    var m := r.monsters[id];
    && p in r.players
    && (m.target.Some? && m.target.value in r.players ==> p == m.target.value)
    && (m.target.None? || m.target.value !in r.players ==>
          forall k :: k in r.players ==>
            var d, e := Squared(m.info.pos, r.players[p].info.pos), Squared(m.info.pos, r.players[k].info.pos);
            d < e || (d == e && p <= k))
  }

  lemma {:induction false} PreyIsTarget(r: Room, id: nat)
    requires Inv(r) && id in r.monsters
    ensures r.ChosenTarget(id).None? <==> r.players.Keys == {}
    ensures r.ChosenTarget(id).Some? ==> IsPrey(r, id, r.ChosenTarget(id).value)
    ensures forall p: nat :: IsPrey(r, id, p) ==> r.ChosenTarget(id) == Some(p)
  {
    var pos := r.monsters[id].info.pos;
    forall p: nat
      ensures IsPrey(r, id, p) && r.Lock(r.monsters[id].target).None? ==> r.FindClosestPlayer(pos) == Some(p)
    {
      if IsPrey(r, id, p) && r.Lock(r.monsters[id].target).None? {
        assert r.IsClosest(pos, p);
      }
    }
    if r.players.Keys != {} {
      var p := NearestExists(r, pos, r.players.Keys);
      assert r.IsClosest(pos, p);
    }
  }

  lemma {:induction false} NearestExists(r: Room, pos: Cell, ids: set<nat>) returns (p: nat)
    requires ids != {} && ids <= r.players.Keys
    ensures p in ids && forall k :: k in ids ==>
      var d, e := Squared(pos, r.players[p].info.pos), Squared(pos, r.players[k].info.pos);
      d < e || (d == e && p <= k)
  {
    var x :| x in ids;
    p := x;
    var rest := ids - {x};
    if rest != {} {
      var q := NearestExists(r, pos, rest);
      var d, e := Squared(pos, r.players[q].info.pos), Squared(pos, r.players[x].info.pos);
      if d < e || (d == e && q <= x) { p := q; }
    }
    assert forall k :: k in ids ==> k == x || k in rest;
  }

  /** At tick `now` nothing happens but to one monster, and to the players' messages. */
  ghost predicate OnlyMonster(r: Room, r': Room, id: nat, now: nat, msgs: seq<Message>)
    requires id in r.monsters
  {
    && r'.clock == now && r'.nextId == r.nextId && r'.tilemap == r.tilemap
    && id in r'.monsters && r'.monsters == r.monsters[id := r'.monsters[id]]
    && r'.players.Keys == r.players.Keys && Told(r, r', msgs)
    && forall p :: p in r.players ==> r'.players[p].info == r.players[p].info
  }

  /** The monster turns to a neighbouring cell and starts a swing of one second. */
  ghost predicate StartsSwing(r: Room, r': Room, id: nat, at: Cell, now: nat)
    requires id in r.monsters && id in r'.monsters
  {
    var m, m' := r.monsters[id], r'.monsters[id];
    && m'.info == m.info.(dir := m'.info.dir, state := Skill) && IsAhead(m'.info, at)
    && m'.waitUntil == now + 1000 && r'.log == r.log && OnlyMonster(r, r', id, now, [S_Move(m'.info)])
  }

  /** The monster turns and steps to a neighbouring cell, where it is for a second. */
  ghost predicate Steps(r: Room, r': Room, id: nat, to: Cell, now: nat)
    requires id in r.monsters && id in r'.monsters
  {
    var m, m' := r.monsters[id], r'.monsters[id];
    && m'.info == m.info.(dir := m'.info.dir, state := Move, pos := to) && IsAhead(m.info.(dir := m'.info.dir), to)
    && m'.waitUntil == now + 1000 && r'.log == r.log + [MonsterMoved(id, now)]
    && OnlyMonster(r, r', id, now, [S_Move(m'.info)])
  }

  ghost predicate Stays(r: Room, r': Room, id: nat, now: nat)
    requires id in r.monsters && id in r'.monsters
  {
    && r'.monsters[id].info == r.monsters[id].info && r'.monsters[id].waitUntil == r.monsters[id].waitUntil
    && r'.log == r.log && OnlyMonster(r, r', id, now, [])
  }

  lemma {:induction false} NeighbourIsAhead(info: Info, to: Cell)
    requires Dist(info.pos, to) == 1
    ensures IsAhead(info.(dir := LookAtDir(info.pos, to)), to)
  {
    LookThenFront(info.pos, to);
    AheadIsFront(info.(dir := LookAtDir(info.pos, to)), to);
  }

  lemma {:induction false} StartsSwingOutcome(r: Room, id: nat, t: Option<nat>, at: Cell, now: nat)
    requires Inv(r) && id in r.monsters && Dist(r.monsters[id].info.pos, at) == 1
    ensures var r' := r.(clock := now).WithTarget(id, t).StartSkill(id, at, now);
      id in r'.monsters && StartsSwing(r, r', id, at, now) && r'.monsters[id].target == t
  {
    NeighbourIsAhead(r.monsters[id].info, at);
  }

  lemma {:induction false} StepsOutcome(r: Room, id: nat, t: Option<nat>, to: Cell, now: nat)
    requires Inv(r) && id in r.monsters && Dist(r.monsters[id].info.pos, to) == 1
    ensures var r' := r.(clock := now).WithTarget(id, t).StartMove(id, to, now);
      id in r'.monsters && Steps(r, r', id, to, now) && r'.monsters[id].target == t
  {
    NeighbourIsAhead(r.monsters[id].info, to);
  }

  lemma {:induction false} StaysOutcome(r: Room, id: nat, t: Option<nat>, now: nat)
    requires id in r.monsters
    ensures var r' := r.(clock := now).WithTarget(id, t);
      id in r'.monsters && Stays(r, r', id, now) && r'.monsters[id].target == t
  {
  }

  /** The clock plays no part in the choice of a target. */
  lemma {:induction false} TickChoices(r: Room, id: nat, now: nat, path: seq<Cell>)
    requires Inv(r) && Enabled(r, Label.Tick(id, now, path)) && r.monsters[id].info.state == Idle
    ensures var r1 := r.(clock := now);
      && Inv(r1) && r1.ChosenTarget(id) == r.ChosenTarget(id) && r1.IdleQuery(id).Some? == r.IdleQuery(id).Some?
      && (r1.IdleQuery(id).Some? ==> r1.IdleQuery(id).value.IsAnswer(path))
      && r.Tick(id, now, path) == r1.UpdateIdle(id, now, path)
  {
    ClockIsIrrelevant(r, id, now);
    var pos := r.monsters[id].info.pos;
    assert forall k: nat :: r.(clock := now).IsClosest(pos, k) == r.IsClosest(pos, k);
  }

  /** What an idle monster does: without prey it stays; next to its prey it starts a swing at
      it; with the prey less than ten steps away it takes the first step of the search's
      answer, if there is one; and otherwise it stays. */
  ghost predicate IdleActs(r: Room, r': Room, id: nat, now: nat, path: seq<Cell>, p: nat)
    requires id in r.monsters && id in r'.monsters && p in r.players
  {
    var at, d := r.players[p].info.pos, Dist(r.monsters[id].info.pos, r.players[p].info.pos);
    && r'.monsters[id].target == Some(p)
    && (d == 1 ==> StartsSwing(r, r', id, at, now))
    && (d != 1 && d < 10 && |path| > 1 ==> Steps(r, r', id, path[1], now))
    && (d >= 10 || (d != 1 && |path| <= 1) ==> Stays(r, r', id, now))
  }

  lemma {:induction false} IdleOutcome(r: Room, id: nat, now: nat, path: seq<Cell>, p: nat)
    requires Inv(r) && Enabled(r, Label.Tick(id, now, path)) && r.monsters[id].info.state == Idle && IsPrey(r, id, p)
    ensures id in r.Tick(id, now, path).monsters && IdleActs(r, r.Tick(id, now, path), id, now, path, p)
  {
    PreyIsTarget(r, id);
    TickChoices(r, id, now, path);
    UpdateIdleEffect(r.(clock := now), id, now, path);
    var at, here := r.players[p].info.pos, r.monsters[id].info.pos;
    if Dist(here, at) == 1 {
      StartsSwingOutcome(r, id, Some(p), at, now);
    } else if Dist(here, at) < 10 && |path| > 1 {
      StepsOutcome(r, id, Some(p), path[1], now);
    } else {
      StaysOutcome(r, id, Some(p), now);
    }
  }

  lemma {:induction false} IdleWithoutPrey(r: Room, id: nat, now: nat, path: seq<Cell>)
    requires Inv(r) && Enabled(r, Label.Tick(id, now, path)) && r.monsters[id].info.state == Idle && r.players.Keys == {}
    ensures var r' := r.Tick(id, now, path);
      id in r'.monsters && r'.monsters[id].target == None && Stays(r, r', id, now)
  {
    PreyIsTarget(r, id);
    TickChoices(r, id, now, path);
    UpdateIdleEffect(r.(clock := now), id, now, path);
    StaysOutcome(r, id, None, now);
  }

  /** A chase makes progress whenever it can: with its prey less than ten steps away, but not
      next to it, an idle monster moves if and only if some route leads nearer. */
  lemma {:induction false} ChasesIff(r: Room, id: nat, now: nat, path: seq<Cell>, p: nat)
    requires Inv(r) && Enabled(r, Label.Tick(id, now, path)) && r.monsters[id].info.state == Idle && IsPrey(r, id, p)
    requires Dist(r.monsters[id].info.pos, r.players[p].info.pos) < 10
    requires Dist(r.monsters[id].info.pos, r.players[p].info.pos) != 1
    ensures var here, at := r.monsters[id].info.pos, r.players[p].info.pos;
      r.Tick(id, now, path).log != r.log <==>
        exists route :: IsRoute(r, route, here, 10) && Dist(route[|route| - 1], at) < Dist(here, at)
  {
    IdleOutcome(r, id, now, path, p);
    PreyIsTarget(r, id);
    var here, at := r.monsters[id].info.pos, r.players[p].info.pos;
    var q := r.IdleQuery(id).value;
    SearchOutcome(r, here, at, 10, path);
    PathSearch.AnswerIsTrivialIff(q, path);
    PathSearch.AnswerReachesDestination(q, path);
    assert IsRoute(r, path, here, 10);
  }

  // ---------- monsters that move, swing, or are in a state unknown ----------

  /** A moving monster comes to rest at the first tick at which its timer is over, and says
      nothing about it; before that, nothing happens. */
  lemma {:induction false} MovingOutcome(r: Room, id: nat, now: nat, path: seq<Cell>)
    requires Inv(r) && Enabled(r, Label.Tick(id, now, path)) && r.monsters[id].info.state == Move
    ensures var r', m := r.Tick(id, now, path), r.monsters[id];
      && id in r'.monsters && OnlyMonster(r, r', id, now, []) && r'.log == r.log
      && r'.monsters[id] == if now < m.waitUntil then m else m.(info := m.info.(state := Idle))
  {
  }

  lemma {:induction false} UnknownOutcome(r: Room, id: nat, now: nat, path: seq<Cell>)
    requires Inv(r) && Enabled(r, Label.Tick(id, now, path)) && r.monsters[id].info.state.UnknownState?
    ensures r.Tick(id, now, path) == r.(clock := now)
  {
  }

  /** The swing of a monster becomes a blow: its timer is over, and its target is in the room
      and exactly one step away. */
  ghost predicate Strikes(r: Room, id: nat, now: nat, p: nat)
    requires id in r.monsters
  {
    && r.monsters[id].waitUntil <= now && r.monsters[id].target == Some(p) && p in r.players
    && Dist(r.monsters[id].info.pos, r.players[p].info.pos) == 1
  }

  /** Before its time a swing changes nothing; after it, if it is no blow, the monster rests,
      says so, and forgets a target that is gone. */
  lemma {:induction false} SwingMisses(r: Room, id: nat, now: nat, path: seq<Cell>)
    requires Inv(r) && Enabled(r, Label.Tick(id, now, path)) && r.monsters[id].info.state == Skill
    requires forall p :: !Strikes(r, id, now, p)
    ensures var r', m := r.Tick(id, now, path), r.monsters[id];
      && id in r'.monsters && r'.log == r.log
      && (now < m.waitUntil ==> r' == r.(clock := now))
      && (m.waitUntil <= now ==>
            && r'.monsters[id].info == m.info.(state := Idle) && r'.monsters[id].waitUntil == m.waitUntil
            && OnlyMonster(r, r', id, now, [S_Move(m.info.(state := Idle))])
            && r'.monsters[id].target == if m.target.Some? && m.target.value in r.players then m.target else None)
  {
    var m := r.monsters[id];
    assert m.target.Some? ==> !Strikes(r, id, now, m.target.value);
  }

  /** The hit points that a blow by a monster leaves its target. */
  ghost function HpLeft(r: Room, id: nat, p: nat): int
    requires id in r.monsters && p in r.players
  {
    var power := r.monsters[id].info.attack - r.players[p].info.defence;
    r.players[p].info.hp - if power <= 1 then 1 else power
  }

  /** The target of a blow pays or is gone, and everybody is told of it, and then of more. */
  ghost predicate Pays(r: Room, r': Room, p: nat, left: int, more: seq<Message>)
    requires p in r.players
  {
    && (forall k :: k != p ==> (k in r'.players <==> k in r.players) && (k in r.players ==> r'.players[k].info == r.players[k].info))
    && (left <= 0 ==> p !in r'.players && Told(r, r', [S_RemoveObject([p])] + more))
    && (left > 0 ==> p in r'.players && r'.players[p].info == r.players[p].info.(hp := left)
                     && Told(r, r', [S_Move(r.players[p].info.(hp := left))] + more))
  }

  lemma {:induction false} BlowLands(r: Room, id: nat, p: nat)
    requires Inv(r) && id in r.monsters && p in r.players && r.monsters[id].target == Some(p)
    requires Dist(r.monsters[id].info.pos, r.players[p].info.pos) == 1
    ensures var r', m := r.Strike(id), r.monsters[id];
      && r'.monsters == r.monsters[id := m.(target := if HpLeft(r, id, p) <= 0 then None else Some(p))]
      && r'.log == r.log + [MonsterHit(id, p, r.clock)] && r'.clock == r.clock
      && Pays(r, r', p, HpLeft(r, id, p), [])
  {
    HitOutcome(r, id, p);
    var r1 := r.ApplyDamage(id, p);
    ApplyDamageEffect(r, id, p);
    assert r1.monsters == r.monsters by { assert r.monsters - {p} == r.monsters; }
    assert r.monsters[id := r.monsters[id].(target := Some(p))] == r.monsters;
  }

  lemma {:induction false} PaysAndTells(r: Room, r1: Room, r': Room, p: nat, left: int, info: Info)
    requires p in r.players && Pays(r, r1, p, left, []) && r' == r1.Broadcast(S_Move(info))
    ensures Pays(r, r', p, left, [S_Move(info)])
  {
    BroadcastKeepsObjects(r1, S_Move(info));
    assert forall m: Message :: [m] + [] == [m] && [m] + [S_Move(info)] == [m, S_Move(info)];
    ToldMore(r, r1, r', info);
  }

  /** The room in which a swing that is over lands. */
  ghost function Landing(r: Room, id: nat, now: nat): Room
    requires id in r.monsters
  {
    r.(clock := now).Calmed(id)
  }

  lemma {:induction false} SwingLands(r: Room, id: nat, now: nat, p: nat)
    requires Inv(r) && id in r.monsters && Strikes(r, id, now, p)
    ensures var r', m := Landing(r, id, now).Strike(id), r.monsters[id];
      && r'.monsters == r.monsters[id := Monster(m.info.(state := Idle), m.waitUntil, if HpLeft(r, id, p) <= 0 then None else Some(p))]
      && r'.log == r.log + [MonsterHit(id, p, now)] && r'.clock == now
      && Pays(r, r', p, HpLeft(r, id, p), [])
  {
    var calm := Landing(r, id, now);
    BlowLands(calm, id, p);
    PaysAlike(calm, r, calm.Strike(id), p, HpLeft(r, id, p));
  }

  lemma {:induction false} PaysAlike(r1: Room, r: Room, r': Room, p: nat, left: int)
    requires r1.players == r.players && p in r.players && Pays(r1, r', p, left, [])
    ensures Pays(r, r', p, left, [])
  {
  }

  lemma {:induction false} SwingEndsInStrike(r: Room, id: nat, now: nat, path: seq<Cell>)
    requires Enabled(r, Label.Tick(id, now, path)) && r.monsters[id].info.state == Skill && r.monsters[id].waitUntil <= now
    requires var r' := Landing(r, id, now).Strike(id);
      id in r'.monsters && id !in r'.players && r'.monsters[id].info == r.monsters[id].info.(state := Idle)
    ensures r.Tick(id, now, path) == Landing(r, id, now).Strike(id).Broadcast(S_Move(r.monsters[id].info.(state := Idle)))
  {
  }

  /** A blow costs its target what any hit costs; the monster rests, says so after the hit,
      and forgets a target that died. */
  lemma {:induction false} SwingStrikes(r: Room, id: nat, now: nat, path: seq<Cell>, p: nat)
    requires Inv(r) && Enabled(r, Label.Tick(id, now, path)) && r.monsters[id].info.state == Skill && Strikes(r, id, now, p)
    ensures var r', m := r.Tick(id, now, path), r.monsters[id];
      && r'.monsters == r.monsters[id := Monster(m.info.(state := Idle), m.waitUntil, if HpLeft(r, id, p) <= 0 then None else Some(p))]
      && r'.log == r.log + [MonsterHit(id, p, now)] && r'.clock == now
      && Pays(r, r', p, HpLeft(r, id, p), [S_Move(m.info.(state := Idle))])
  {
    var r1, rest := Landing(r, id, now).Strike(id), r.monsters[id].info.(state := Idle);
    SwingLands(r, id, now, p);
    assert id != p && (id in r1.players <==> id in r.players);
    SwingEndsInStrike(r, id, now, path);
    PaysAndTells(r, r1, r1.Broadcast(S_Move(rest)), p, HpLeft(r, id, p), rest);
  }
}
