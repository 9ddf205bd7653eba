/** The room as a state machine over values: what each server operation does to the
    objects, to the messages queued for every player's session, and to the histories
    that the safety properties speak about. */
module RoomSpec {
  import opened Geometry
  import opened Ordered
  import opened Protocol
  import opened TilemapModel
  import PathSearch

  // ---------- weapon templates ----------

  datatype WeaponStat = WeaponStat(hp: int, maxHp: int, attack: int, defence: int)

  const SWORD := WeaponStat(100, 100, 15, 5)
  const BOW := WeaponStat(100, 100, 12, 3)
  const STAFF := WeaponStat(100, 100, 18, 2)

  function ResolveWeaponStat(attack: int): WeaponStat {
    if attack == BOW.attack then BOW
    else if attack == STAFF.attack then STAFF
    else SWORD
  }

  function ApplyWeaponStat(info: Info, w: WeaponStat): Info {
    info.(hp := w.hp, maxHp := w.maxHp, attack := w.attack, defence := w.defence)
  }

  function SyncWeaponTemplate(info: Info, w: WeaponStat): Info {
    var info := if info.maxHp <= 0 then info.(maxHp := w.maxHp) else info;
    info.(attack := w.attack, defence := w.defence)
  }

  /** How a C_Move message overwrites the record of the object it names. */
  function Synced(info: Info, pkt: Info): Info {
    var w := ResolveWeaponStat(pkt.attack);
    var i1 := SyncWeaponTemplate(info.(state := pkt.state, dir := pkt.dir, pos := pkt.pos), w);
    var i2 := if pkt.maxHp > 0 && pkt.maxHp != i1.maxHp then i1.(maxHp := pkt.maxHp) else i1;
    var maxHp := if i2.maxHp <= 0 then w.maxHp else i2.maxHp;
    var i3 := if maxHp > 0 && i2.hp > maxHp then i2.(hp := maxHp) else i2;
    if i3.hp < 0 then i3.(hp := 0) else i3
  }

  /** The victim's record after one hit. */
  function Wounded(attacker: Info, victim: Info): Info {
    var damage := attacker.attack - victim.defence;
    var damage' := if damage < 1 then 1 else damage;
    var hp := if victim.maxHp > 0 && victim.hp > victim.maxHp then victim.maxHp else victim.hp;
    victim.(hp := if hp - damage' < 0 then 0 else hp - damage')
  }

  // ---------- the state ----------

  /** `sent` is everything queued so far to the session of this player. */
  datatype Player = Player(info: Info, sent: seq<Message>)

  /** `target` is a weak reference: it names a player only while that player is in the room. */
  datatype Monster = Monster(info: Info, waitUntil: nat, target: Option<nat>)

  datatype Event =
    | MonsterMoved(id: nat, at: nat)
    | MonsterHit(id: nat, victim: nat, at: nat)
    | PlayerHit(id: nat, victim: nat)

  /** `clock` is the last tick read; `log` is the history of moves and hits. */
  datatype Room = Room(nextId: nat, clock: nat, players: map<nat, Player>, monsters: map<nat, Monster>,
                       tilemap: Tilemap, log: seq<Event>)
  {
    ghost predicate Has(id: nat) { id in players || id in monsters }

    ghost function Get(id: nat): Info
      requires Has(id)
    {
      if id in players then players[id].info else monsters[id].info
    }

    ghost function WithInfo(id: nat, info: Info): Room
      requires Has(id)
    {
      if id in players then this.(players := players[id := players[id].(info := info)])
      else this.(monsters := monsters[id := monsters[id].(info := info)])
    }

    ghost function WithTarget(id: nat, target: Option<nat>): Room
      requires id in monsters
    {
      this.(monsters := monsters[id := monsters[id].(target := target)])
    }

    ghost function WithWait(id: nat, wait: nat): Room
      requires id in monsters
    {
      this.(monsters := monsters[id := monsters[id].(waitUntil := wait)])
    }

    ghost function Erase(id: nat): Room {
      this.(players := players - {id}, monsters := monsters - {id})
    }

    ghost function Logged(e: Event): Room { this.(log := log + [e]) }

    // ---------- queries ----------

    ghost function PlayersAt(cell: Cell): set<nat> { set id | id in players && players[id].info.pos == cell }

    ghost function MonstersAt(cell: Cell): set<nat> { set id | id in monsters && monsters[id].info.pos == cell }

    /** The object a scan of the players, then of the monsters, meets first at a cell. */
    ghost function ObjectAt(cell: Cell): Option<nat> {
      if PlayersAt(cell) != {} then Some(Least(PlayersAt(cell)))
      else if MonstersAt(cell) != {} then Some(Least(MonstersAt(cell)))
      else None
    }

    ghost predicate CanGo(cell: Cell)
    {
      && tilemap.GetTileAt(cell).Some?
      && ObjectAt(cell).None?
      && tilemap.GetTileAt(cell).value.walkable
    }

    ghost predicate IsClosest(pos: Cell, id: nat) {
      && id in players
      && forall k :: k in players ==>
           var d, e := pos.Minus(players[id].info.pos).LengthSquared(), pos.Minus(players[k].info.pos).LengthSquared();
           d < e || (d == e && id <= k)
    }

    ghost function FindClosestPlayer(pos: Cell): Option<nat> {
      if exists id: nat :: IsClosest(pos, id) then
        var id: nat :| IsClosest(pos, id);
        Some(id)
      else None
    }

    /** A weak reference locks only while the player is in the room. */
    ghost function Lock(target: Option<nat>): Option<nat> {
      if target.Some? && target.value in players then target else None
    }

    // ---------- operations ----------

    ghost function Broadcast(msg: Message): Room {
      this.(players := map id | id in players :: players[id].(sent := players[id].sent + [msg]))
    }

    ghost function BroadcastMove(id: nat): Room
      requires Has(id)
    {
      Broadcast(S_Move(Get(id)))
    }

    /** Every record in the room, players first, each in id order. */
    ghost function Everyone(): seq<Info> {
      PlayerInfos(SortedIds(players.Keys)) + MonsterInfos(SortedIds(monsters.Keys))
    }

    ghost function PlayerInfos(ids: seq<nat>): seq<Info>
      requires forall id :: id in ids ==> id in players
    {
      seq(|ids|, i requires 0 <= i < |ids| => players[ids[i]].info)
    }

    ghost function MonsterInfos(ids: seq<nat>): seq<Info>
      requires forall id :: id in ids ==> id in monsters
    {
      seq(|ids|, i requires 0 <= i < |ids| => monsters[ids[i]].info)
    }

    ghost function NewPlayer(): Info {
      ApplyWeaponStat(Info(nextId, PlayerKind, Idle, Up, 0, 0, 0, 0, Cell(5, 5)), SWORD)
    }

    /** What `GameSession::OnConnected` and `EnterRoom` send to the newcomer alone. */
    ghost function Welcome(info: Info): seq<Message> {
      [S_EnterGame, S_MyPlayer(info), S_AddObject(Everyone())]
    }

    ghost function Seated(info: Info, sent: seq<Message>): Room {
      this.(nextId := nextId + 1, players := players[info.id := Player(info, sent)])
    }

    /** `AddObject`: store by kind, and announce to everybody; nothing for an unknown kind.
        `sent` is what the session of a new player was already sent. */
    ghost function Add(info: Info, sent: seq<Message>): Room {
      match info.kind
      case PlayerKind => this.(players := players[info.id := Player(info, sent)]).Broadcast(S_AddObject([info]))
      case MonsterKind => this.(monsters := monsters[info.id := Monster(info, 0, None)]).Broadcast(S_AddObject([info]))
      case NoKind => this
    }

    /** `EnterRoom`: greet the newcomer, store it, and announce it to everybody. */
    ghost function Enter(): Room {
      var info := NewPlayer();
      Seated(info, Welcome(info)).Broadcast(S_AddObject([info]))
    }

    /** `RemoveObject`: by kind, and nothing for an id that is not in the room. */
    ghost function Remove(id: nat): Room {
      if !Has(id) then this
      else match Get(id).kind
        case PlayerKind => this.(players := players - {id}).Broadcast(S_RemoveObject([id]))
        case MonsterKind => this.(monsters := monsters - {id}).Broadcast(S_RemoveObject([id]))
        case NoKind => this
    }

    ghost function Leave(id: nat): Room {
      if id in players then Remove(id) else this
    }

    ghost function ApplyDamage(attacker: nat, victim: nat): Room {
      if !Has(attacker) || !Has(victim) then this
      else
        var hurt := Wounded(Get(attacker), Get(victim));
        var e := if attacker in players then PlayerHit(attacker, victim) else MonsterHit(attacker, victim, clock);
        var r := WithInfo(victim, hurt).Logged(e);
        if hurt.hp <= 0 then r.Remove(victim) else r.Broadcast(S_Move(hurt))
    }

    ghost function ProcessSkill(id: nat): Room {
      if id !in players then this
      else
        var self := players[id].info;
        match ObjectAt(FrontCell(self.pos, self.dir))
        case None => this
        case Some(t) => if Get(t).kind == MonsterKind then ApplyDamage(id, t) else this
    }

    ghost function HandleMove(pkt: Info): Room {
      if !Has(pkt.id) then this
      else
        var before := Get(pkt.id);
        var after := Synced(before, pkt);
        var r := WithInfo(pkt.id, after);
        var r' := if before.kind == PlayerKind && before.state != Skill && after.state == Skill
                  then r.ProcessSkill(pkt.id) else r;
        r'.Broadcast(S_Move(after))
    }

    // ---------- monsters ----------

    /** An idle monster keeps a live target and otherwise picks the closest player. */
    ghost function ChosenTarget(id: nat): Option<nat>
      requires id in monsters
    {
      var m := monsters[id];
      if Lock(m.target).Some? then m.target else FindClosestPlayer(m.info.pos)
    }

    /** A path search over the cells that can be entered right now. */
    ghost function Search(src: Cell, dest: Cell, maxDepth: int): PathSearch.Query {
      PathSearch.Query(c => CanGo(c), src, dest, maxDepth)
    }

    /** The search an idle monster runs, if it runs one. */
    ghost function IdleQuery(id: nat): Option<PathSearch.Query>
      requires id in monsters
    {
      var m := monsters[id];
      var t := ChosenTarget(id);
      if m.info.state != Idle || t.None? || t.value !in players then None
      else
        var q := Search(m.info.pos, players[t.value].info.pos, 10);
        if Dist(q.src, q.dest) == 1 || Dist(q.src, q.dest) >= q.maxDepth then None else Some(q)
    }

    ghost function Turned(id: nat, pos: Cell): Info
      requires id in monsters
    {
      monsters[id].info.(dir := LookAtDir(monsters[id].info.pos, pos))
    }

    /** Turn to an adjacent player and start a swing. */
    ghost function StartSkill(id: nat, at: Cell, now: nat): Room
      requires id in monsters
    {
      var info := Turned(id, at).(state := Skill);
      WithInfo(id, info).WithWait(id, now + 1000).Broadcast(S_Move(info))
    }

    /** Step onto a neighbouring cell. */
    ghost function StartMove(id: nat, to: Cell, now: nat): Room
      requires id in monsters
    {
      var info := Turned(id, to).(pos := to, state := Move);
      WithInfo(id, info).WithWait(id, now + 1000).Logged(MonsterMoved(id, now)).Broadcast(S_Move(info))
    }

    /** `path` is what the search returned, if there was one. */
    ghost function UpdateIdle(id: nat, now: nat, path: seq<Cell>): Room
      requires id in monsters
    {
      var t := ChosenTarget(id);
      var r := WithTarget(id, t);
      if t.None? || t.value !in players then r
      else
        var at := players[t.value].info.pos;
        if Dist(at, monsters[id].info.pos) == 1 then r.StartSkill(id, at, now)
        else if IdleQuery(id).None? || path == [] then r
        else r.Followed(id, path, now)
    }

    /** Take the first step of a path, if the cell can be entered; a path of one cell puts
        the monster on that cell. */
    ghost function Followed(id: nat, path: seq<Cell>, now: nat): Room
      requires id in monsters && path != []
    {
      if |path| > 1 then
        if CanGo(path[1]) then StartMove(id, path[1], now) else this
      else WithInfo(id, monsters[id].info.(pos := path[0]))
    }

    ghost function Calmed(id: nat): Room
      requires id in monsters
    {
      this.(monsters := monsters[id := monsters[id].(info := monsters[id].info.(state := Idle))])
    }

    ghost function UpdateMove(id: nat, now: nat): Room
      requires id in monsters
    {
      if monsters[id].waitUntil > now then this else Calmed(id)
    }

    /** The blow of a monster whose swing has ended. */
    ghost function Strike(id: nat): Room
      requires id in monsters
    {
      var t := Lock(monsters[id].target);
      if t.None? then WithTarget(id, None)
      else if t.value in players && Dist(players[t.value].info.pos, monsters[id].info.pos) == 1 then
        var r := ApplyDamage(id, t.value);
        if t.value !in r.players && id in r.monsters then r.WithTarget(id, None) else r
      else this
    }

    ghost function UpdateSkill(id: nat, now: nat): Room
      requires id in monsters
    {
      if monsters[id].waitUntil > now then this
      else
        var r := Calmed(id).Strike(id);
        if r.Has(id) then r.BroadcastMove(id) else r
    }

    /** One monster's update at tick `now`. */
    ghost function Tick(id: nat, now: nat, path: seq<Cell>): Room
      requires id in monsters
    {
      var r := this.(clock := now);
      match monsters[id].info.state
      case Idle => r.UpdateIdle(id, now, path)
      case Move => r.UpdateMove(id, now)
      case Skill => r.UpdateSkill(id, now)
      case UnknownState(_) => r
    }
  }

  /** Each map holds one kind of object, and no id is in both. */
  ghost predicate Typed(r: Room) {
    && (forall id :: id in r.players ==> r.players[id].info.kind == PlayerKind && id !in r.monsters)
    && (forall id :: id in r.monsters ==> r.monsters[id].info.kind == MonsterKind)
  }

  ghost function HitEvent(r: Room, attacker: nat, victim: nat): Event {
    if attacker in r.players then PlayerHit(attacker, victim) else MonsterHit(attacker, victim, r.clock)
  }

  /** A hit step by step: overwrite, record, then remove or announce. */
  lemma {:induction false} ApplyDamageSteps(r: Room, attacker: nat, victim: nat)
    requires r.Has(attacker) && r.Has(victim)
    ensures var hurt := Wounded(r.Get(attacker), r.Get(victim));
      var r1 := r.WithInfo(victim, hurt).Logged(HitEvent(r, attacker, victim));
      r.ApplyDamage(attacker, victim) == if hurt.hp <= 0 then r1.Remove(victim) else r1.Broadcast(S_Move(hurt))
  {
  }

  /** Removal by kind is removal by key. */
  lemma {:induction false} RemoveIsErase(r: Room, id: nat)
    requires Typed(r) && r.Has(id)
    ensures r.Remove(id) == r.Erase(id).Broadcast(S_RemoveObject([id]))
  {
  }

  // ---------- runs ----------

  datatype Label =
    | Enter
    | Leave(id: nat)
    | Handle(pkt: Info)
    | Tick(id: nat, now: nat, path: seq<Cell>)

  /** A tick reads a clock that never goes back, and follows an answer of the path search. */
  ghost predicate Enabled(r: Room, l: Label) {
    match l
    case Enter => true
    case Leave(_) => true
    case Handle(_) => true
    case Tick(id, now, path) =>
      && id in r.monsters && r.clock <= now
      && (r.IdleQuery(id).Some? ==> r.IdleQuery(id).value.IsAnswer(path))
  }

  ghost function Next(r: Room, l: Label): Room
    requires Enabled(r, l)
  {
    match l
    case Enter => r.Enter()
    case Leave(id) => r.Leave(id)
    case Handle(pkt) => r.HandleMove(pkt)
    case Tick(id, now, path) => r.Tick(id, now, path)
  }

  /** The room after `Init`: one monster at (8, 8). */
  function Init(tilemap: Tilemap): Room {
    Room(2, 0, map[], map[1 := Monster(Info(1, MonsterKind, Idle, Up, 50, 50, 5, 0, Cell(8, 8)), 0, None)],
         tilemap, [])
  }

  /** A run: states joined by enabled steps. */
  ghost predicate IsRun(states: seq<Room>, labels: seq<Label>) {
    |states| == |labels| + 1 && forall i :: 0 <= i < |labels| ==> StepAt(states, labels, i)
  }

  ghost predicate StepAt(states: seq<Room>, labels: seq<Label>, i: nat)
    requires |states| == |labels| + 1 && i < |labels|
  {
    Enabled(states[i], labels[i]) && states[i + 1] == Next(states[i], labels[i])
  }
}
