/** What every operation of the room keeps, and so what holds in every run. */
module RoomInvariant {
  import opened Geometry
  import opened Ordered
  import opened Protocol
  import opened TilemapModel
  import opened RoomSpec
  import PathSearch

  ghost predicate FromTemplate(info: Info) {
    || (info.attack == SWORD.attack && info.defence == SWORD.defence)
    || (info.attack == BOW.attack && info.defence == BOW.defence)
    || (info.attack == STAFF.attack && info.defence == STAFF.defence)
  }

  ghost predicate Alive(info: Info) { 1 <= info.hp <= info.maxHp }

  ghost predicate GoodPlayer(id: nat, info: Info) {
    info.id == id && info.kind == PlayerKind && Alive(info) && FromTemplate(info)
  }

  ghost predicate GoodMonster(id: nat, info: Info) {
    && info.id == id && info.kind == MonsterKind && Alive(info)
    && (FromTemplate(info) || (info.attack == 5 && info.defence == 0))
  }

  /** The room invariant: each key is its object's id and each map holds one kind of
      object; ids are positive, below the generator and never shared; everybody is
      alive with known combat stats; targets are ids that have been given out. */
  ghost predicate Inv(r: Room) {
    && r.nextId >= 1
    && (forall id :: id in r.players ==> 0 < id < r.nextId && id !in r.monsters && GoodPlayer(id, r.players[id].info))
    && (forall id :: id in r.monsters ==> 0 < id < r.nextId && GoodMonster(id, r.monsters[id].info))
    && (forall id :: id in r.monsters && r.monsters[id].target.Some? ==> r.monsters[id].target.value < r.nextId)
  }

  // ---------- the primitives keep it ----------

  lemma {:induction false} BroadcastKeepsObjects(r: Room, msg: Message)
    ensures r.Broadcast(msg).players.Keys == r.players.Keys
    ensures forall id :: id in r.players ==> r.Broadcast(msg).players[id] == Player(r.players[id].info, r.players[id].sent + [msg])
    ensures r.Broadcast(msg) == r.(players := r.Broadcast(msg).players)
    ensures Inv(r) ==> Inv(r.Broadcast(msg))
  {
  }

  lemma {:induction false} WithInfoKeepsInv(r: Room, id: nat, info: Info)
    requires Inv(r) && r.Has(id)
    requires if id in r.players then GoodPlayer(id, info) else GoodMonster(id, info)
    ensures Inv(r.WithInfo(id, info))
    ensures r.WithInfo(id, info).Get(id) == info
  {
  }

  lemma {:induction false} EraseKeepsInv(r: Room, id: nat)
    requires Inv(r)
    ensures Inv(r.Erase(id))
  {
  }

  lemma {:induction false} RemoveKeepsInv(r: Room, id: nat)
    requires Inv(r)
    ensures Inv(r.Remove(id))
    ensures !r.Remove(id).Has(id)
  {
  }

  /** One hit costs between 1 and 18 points, so the 32-bit subtraction cannot overflow. */
  lemma {:induction false} DamageIsBounded(r: Room, attacker: nat, victim: nat)
    requires Inv(r) && r.Has(attacker) && r.Has(victim)
    ensures -5 <= r.Get(attacker).attack - r.Get(victim).defence <= 18
    ensures var lost := r.Get(victim).hp - Wounded(r.Get(attacker), r.Get(victim)).hp; 1 <= lost <= 18
  {
  }

  /** What a hit does: a survivor's new hit points are stored and announced; a victim
      without hit points is taken out and its removal announced. */
  lemma {:induction false} ApplyDamageEffect(r: Room, attacker: nat, victim: nat)
    requires Inv(r) && r.Has(attacker) && r.Has(victim)
    ensures var hurt := Wounded(r.Get(attacker), r.Get(victim));
      var r1 := r.Logged(HitEvent(r, attacker, victim));
      r.ApplyDamage(attacker, victim) ==
        if hurt.hp > 0 then r1.WithInfo(victim, hurt).Broadcast(S_Move(hurt))
        else r1.Erase(victim).Broadcast(S_RemoveObject([victim]))
  {
    var hurt := Wounded(r.Get(attacker), r.Get(victim));
    var r1 := r.Logged(HitEvent(r, attacker, victim));
    if hurt.hp <= 0 {
      DeadIsErased(r1, victim, hurt);
    }
  }

  lemma {:induction false} DeadIsErased(r: Room, id: nat, info: Info)
    requires Inv(r) && r.Has(id) && info.kind == r.Get(id).kind
    ensures r.WithInfo(id, info).Remove(id) == r.Erase(id).Broadcast(S_RemoveObject([id]))
  {
    var r1 := r.WithInfo(id, info);
    assert r1.players - {id} == r.players - {id};
    assert r1.monsters - {id} == r.monsters - {id};
    assert id in r.players ==> r.monsters - {id} == r.monsters;
    assert id in r.monsters ==> r.players - {id} == r.players;
  }

  lemma {:induction false} ApplyDamageKeepsInv(r: Room, attacker: nat, victim: nat)
    requires Inv(r)
    ensures Inv(r.ApplyDamage(attacker, victim))
  {
    if r.Has(attacker) && r.Has(victim) {
      ApplyDamageEffect(r, attacker, victim);
      DamageIsBounded(r, attacker, victim);
      var hurt := Wounded(r.Get(attacker), r.Get(victim));
      var r1 := r.Logged(HitEvent(r, attacker, victim));
      if hurt.hp > 0 {
        WithInfoKeepsInv(r1, victim, hurt);
        BroadcastKeepsObjects(r1.WithInfo(victim, hurt), S_Move(hurt));
      } else {
        EraseKeepsInv(r1, victim);
        BroadcastKeepsObjects(r1.Erase(victim), S_RemoveObject([victim]));
      }
    }
  }

  /** A move message leaves an object alive, with combat stats of a template. */
  lemma {:induction false} SyncedIsGood(info: Info, pkt: Info)
    requires Alive(info)
    ensures Alive(Synced(info, pkt)) && FromTemplate(Synced(info, pkt))
    ensures Synced(info, pkt).id == info.id && Synced(info, pkt).kind == info.kind
    ensures Synced(info, pkt).hp <= info.hp
  {
  }

  lemma {:induction false} ObjectAtIsThere(r: Room, cell: Cell)
    requires Inv(r)
    ensures r.ObjectAt(cell).Some? ==> r.Has(r.ObjectAt(cell).value) && r.Get(r.ObjectAt(cell).value).pos == cell
    ensures r.ObjectAt(cell).None? <==> forall id :: r.Has(id) ==> r.Get(id).pos != cell
  {
    forall id | r.Has(id) && r.Get(id).pos == cell
      ensures r.ObjectAt(cell).Some?
    {
      assert id in r.players ==> id in r.PlayersAt(cell);
      assert id in r.monsters ==> id in r.MonstersAt(cell);
    }
  }

  // ---------- the handlers keep it ----------

  /** A skill is nothing, or one hit on the monster in the cell ahead of the player. */
  lemma {:induction false} ProcessSkillEffect(r: Room, id: nat) returns (hit: bool, victim: nat)
    requires Inv(r) && id in r.players
    ensures hit ==> victim in r.monsters && r.ProcessSkill(id) == r.ApplyDamage(id, victim)
    ensures hit ==> r.monsters[victim].info.pos == FrontCell(r.players[id].info.pos, r.players[id].info.dir)
    ensures !hit ==> r.ProcessSkill(id) == r
  {
    hit, victim := false, 0;
    var cell := FrontCell(r.players[id].info.pos, r.players[id].info.dir);
    ObjectAtIsThere(r, cell);
    if r.ObjectAt(cell).Some? && r.Get(r.ObjectAt(cell).value).kind == MonsterKind {
      hit, victim := true, r.ObjectAt(cell).value;
    }
  }

  lemma {:induction false} HandleMoveKeepsInv(r: Room, pkt: Info)
    requires Inv(r)
    ensures Inv(r.HandleMove(pkt))
  {
    if r.Has(pkt.id) {
      var before := r.Get(pkt.id);
      var after := Synced(before, pkt);
      SyncedIsGood(before, pkt);
      var r1 := r.WithInfo(pkt.id, after);
      WithInfoKeepsInv(r, pkt.id, after);
      BroadcastKeepsObjects(r1, S_Move(after));
      if before.kind == PlayerKind && before.state != Skill && after.state == Skill {
        var hit, victim := ProcessSkillEffect(r1, pkt.id);
        ApplyDamageKeepsInv(r1, pkt.id, victim);
        BroadcastKeepsObjects(r1.ProcessSkill(pkt.id), S_Move(after));
      }
    }
  }

  lemma {:induction false} NewPlayerIsGood(r: Room)
    ensures r.NewPlayer().id == r.nextId && GoodPlayer(r.nextId, r.NewPlayer())
  {
  }

  lemma {:induction false} SeatedKeepsInv(r: Room, info: Info, sent: seq<Message>)
    requires Inv(r) && GoodPlayer(r.nextId, info)
    ensures Inv(r.Seated(info, sent))
  {
  }

  lemma {:induction false} EnterKeepsInv(r: Room)
    requires Inv(r)
    ensures Inv(r.Enter())
  {
    var info := r.NewPlayer();
    NewPlayerIsGood(r);
    SeatedKeepsInv(r, info, r.Welcome(info));
    BroadcastKeepsObjects(r.Seated(info, r.Welcome(info)), S_AddObject([info]));
  }

  lemma {:induction false} ClosestIsPlayer(r: Room, id: nat)
    requires Inv(r) && id in r.monsters
    ensures var t := r.ChosenTarget(id); t.Some? ==> t.value in r.players && t.value < r.nextId
  {
  }

  lemma {:induction false} TargetKeepsInv(r: Room, id: nat, t: Option<nat>)
    requires Inv(r) && id in r.monsters && (t.Some? ==> t.value in r.players)
    ensures Inv(r.WithTarget(id, t))
  {
  }

  /** The decision of an idle monster: start a swing at a player one step away, take the
      first step of a longer path, or stay.  The cell test before the step always
      succeeds, and a path of one cell moves nobody. */
  lemma {:induction false} UpdateIdleEffect(r: Room, id: nat, now: nat, path: seq<Cell>)
    requires Inv(r) && id in r.monsters && r.monsters[id].info.state == Idle
    requires r.IdleQuery(id).Some? ==> r.IdleQuery(id).value.IsAnswer(path)
    ensures var t := r.ChosenTarget(id);
      var r1 := r.WithTarget(id, t);
      var pos := r.monsters[id].info.pos;
      if t.Some? && Dist(r.players[t.value].info.pos, pos) == 1
        then r.UpdateIdle(id, now, path) == r1.StartSkill(id, r.players[t.value].info.pos, now)
      else if r.IdleQuery(id).Some? && |path| > 1
        then r.CanGo(path[1]) && Dist(pos, path[1]) == 1 && r.UpdateIdle(id, now, path) == r1.StartMove(id, path[1], now)
      else r.UpdateIdle(id, now, path) == r1
  {
    ClosestIsPlayer(r, id);
    var r1 := r.WithTarget(id, r.ChosenTarget(id));
    if r.IdleQuery(id).Some? {
      var q := r.IdleQuery(id).value;
      if |path| > 1 {
        PathSearch.AnswerCellsAreFree(q, path, 1);
        SameCells(r, r1, path[1]);
      } else {
        assert r1.monsters[id].info.(pos := path[0]) == r1.monsters[id].info;
      }
    }
  }

  /** Whether a cell can be entered depends on where the objects stand. */
  lemma {:induction false} SameCells(r: Room, r': Room, cell: Cell)
    requires r'.players == r.players && r'.tilemap == r.tilemap && r'.monsters.Keys == r.monsters.Keys
    requires forall id :: id in r.monsters ==> r'.monsters[id].info == r.monsters[id].info
    ensures r'.CanGo(cell) == r.CanGo(cell)
  {
  }

  lemma {:induction false} StartSkillKeepsInv(r: Room, id: nat, at: Cell, now: nat)
    requires Inv(r) && id in r.monsters
    ensures Inv(r.StartSkill(id, at, now))
  {
  }

  lemma {:induction false} StartMoveKeepsInv(r: Room, id: nat, to: Cell, now: nat)
    requires Inv(r) && id in r.monsters
    ensures Inv(r.StartMove(id, to, now))
  {
  }

  lemma {:induction false} UpdateIdleKeepsInv(r: Room, id: nat, now: nat, path: seq<Cell>)
    requires Inv(r) && id in r.monsters && r.monsters[id].info.state == Idle
    requires r.IdleQuery(id).Some? ==> r.IdleQuery(id).value.IsAnswer(path)
    ensures Inv(r.UpdateIdle(id, now, path))
  {
    UpdateIdleEffect(r, id, now, path);
    ClosestIsPlayer(r, id);
    var t := r.ChosenTarget(id);
    var r1 := r.WithTarget(id, t);
    TargetKeepsInv(r, id, t);
    if t.Some? && Dist(r.players[t.value].info.pos, r.monsters[id].info.pos) == 1 {
      StartSkillKeepsInv(r1, id, r.players[t.value].info.pos, now);
    } else if r.IdleQuery(id).Some? && |path| > 1 {
      StartMoveKeepsInv(r1, id, path[1], now);
    }
  }

  lemma {:induction false} StrikeKeepsInv(r: Room, id: nat)
    requires Inv(r) && id in r.monsters
    ensures Inv(r.Strike(id))
  {
    var t := r.Lock(r.monsters[id].target);
    if t.Some? {
      ApplyDamageKeepsInv(r, id, t.value);
    }
  }

  lemma {:induction false} UpdateSkillKeepsInv(r: Room, id: nat, now: nat)
    requires Inv(r) && id in r.monsters
    ensures Inv(r.UpdateSkill(id, now))
  {
    var calm := r.Calmed(id);
    StrikeKeepsInv(calm, id);
    var r1 := calm.Strike(id);
    if r1.Has(id) {
      BroadcastKeepsObjects(r1, S_Move(r1.Get(id)));
    }
  }

  /** The clock is read before a monster decides; the decision does not depend on it. */
  lemma {:induction false} ClockIsIrrelevant(r: Room, id: nat, now: nat)
    requires id in r.monsters
    ensures var r' := r.(clock := now);
      && r'.IdleQuery(id).Some? == r.IdleQuery(id).Some?
      && (r.IdleQuery(id).Some? ==> forall p :: r.IdleQuery(id).value.IsAnswer(p) ==> r'.IdleQuery(id).value.IsAnswer(p))
  {
    var r' := r.(clock := now);
    assert r'.ChosenTarget(id) == r.ChosenTarget(id) by {
      var pos := r.monsters[id].info.pos;
      assert forall k: nat :: r'.IsClosest(pos, k) == r.IsClosest(pos, k);
    }
    if r.IdleQuery(id).Some? {
      var q, q' := r.IdleQuery(id).value, r'.IdleQuery(id).value;
      forall c
        ensures q'.free(c) == q.free(c)
      {
        SameCells(r, r', c);
      }
      SameQuery(q, q');
    }
  }

  lemma {:induction false} SameQuery(q: PathSearch.Query, q': PathSearch.Query)
    requires q'.src == q.src && q'.dest == q.dest && q'.maxDepth == q.maxDepth
    requires forall c :: q'.free(c) == q.free(c)
    ensures forall p :: q.IsAnswer(p) ==> q'.IsAnswer(p)
  {
    assert forall a, b :: q'.Step(a, b) == q.Step(a, b);
    assert forall p :: q'.IsWalk(p) == q.IsWalk(p);
    assert forall c :: q'.Reachable(c) == q.Reachable(c);
    assert forall a, b :: q'.Better(a, b) == q.Better(a, b);
  }

  lemma {:induction false} TickKeepsInv(r: Room, id: nat, now: nat, path: seq<Cell>)
    requires Inv(r) && Enabled(r, Label.Tick(id, now, path))
    ensures Inv(r.Tick(id, now, path))
  {
    var r1 := r.(clock := now);
    ClockIsIrrelevant(r, id, now);
    match r.monsters[id].info.state
    case Idle => UpdateIdleKeepsInv(r1, id, now, path);
    case Move =>
    case Skill => UpdateSkillKeepsInv(r1, id, now);
    case UnknownState(_) =>
  }

  lemma {:induction false} NextKeepsInv(r: Room, l: Label)
    requires Inv(r) && Enabled(r, l)
    ensures Inv(Next(r, l))
  {
    match l
    case Enter => EnterKeepsInv(r);
    case Leave(id) => RemoveKeepsInv(r, id);
    case Handle(pkt) => HandleMoveKeepsInv(r, pkt);
    case Tick(id, now, path) => TickKeepsInv(r, id, now, path);
  }

  /** The invariant holds in every state of every run. */
  lemma {:induction false} RunsKeepInv(tilemap: Tilemap, states: seq<Room>, labels: seq<Label>, i: nat)
    requires IsRun(states, labels) && states[0] == Init(tilemap)
    requires i < |states|
    ensures Inv(states[i])
  {
    if i > 0 {
      var k := i - 1;
      RunsKeepInv(tilemap, states, labels, k);
      assert StepAt(states, labels, k);
      NextKeepsInv(states[k], labels[k]);
    }
  }
}
