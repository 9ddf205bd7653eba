/** How fast a monster can act: its cell moves, and its blows, are a second apart. */
module RoomRate {
  import opened Geometry
  import opened Ordered
  import opened Protocol
  import opened TilemapModel
  import opened RoomSpec
  import opened RoomInvariant
  import opened RoomSafety

  const PACE := 1000

  /** Two moves of one monster, and two blows of one monster, are at least PACE apart. */
  ghost predicate Apart(e: Event, f: Event) {
    && (e.MonsterMoved? && f.MonsterMoved? && e.id == f.id ==> e.at + PACE <= f.at)
    && (e.MonsterHit? && f.MonsterHit? && e.id == f.id ==> e.at + PACE <= f.at)
  }

  ghost predicate Spaced(log: seq<Event>) {
    forall i, j :: 0 <= i < j < |log| ==> Apart(log[i], log[j])
  }

  /** What a monster knows about a past event of its own.  Its timer always covers its last
      move, and while it is idle, so that it may move again, the clock does; while it is in
      the middle of a swing at a player of the room, the swing ends late enough. */
  ghost predicate Remembered(r: Room, e: Event) {
    match e
    case MonsterMoved(id, at) =>
      at <= r.clock && (id in r.monsters ==>
        && at + PACE <= r.monsters[id].waitUntil
        && (r.monsters[id].info.state == Idle ==> at + PACE <= r.clock))
    case MonsterHit(id, _, at) =>
      at <= r.clock && (id in r.monsters && Aiming(r, id) ==> at + PACE <= SwingEnds(r, id))
    case PlayerHit(_, _) => true
  }

  ghost predicate Aiming(r: Room, id: nat)
    requires id in r.monsters
  {
    r.monsters[id].info.state == Skill && r.Lock(r.monsters[id].target).Some?
  }

  /** The first tick at which a swing can end. */
  ghost function SwingEnds(r: Room, id: nat): nat
    requires id in r.monsters
  {
    if r.monsters[id].waitUntil < r.clock then r.clock else r.monsters[id].waitUntil
  }

  ghost predicate Paced(r: Room) {
    Spaced(r.log) && forall i :: 0 <= i < |r.log| ==> Remembered(r, r.log[i])
  }

  /** The step does not concern the timers: the monsters left keep state and timer, and
      the log gains at most a blow by a player. */
  ghost predicate TimersKept(r: Room, r': Room) {
    && r'.clock == r.clock
    && r'.monsters.Keys <= r.monsters.Keys
    && (forall id :: id in r'.monsters ==>
          && r'.monsters[id].info.state == r.monsters[id].info.state && r'.monsters[id].waitUntil == r.monsters[id].waitUntil
          && (Aiming(r', id) ==> Aiming(r, id)))
    && (r'.log == r.log || exists id, v :: r'.log == r.log + [PlayerHit(id, v)])
  }

  lemma {:induction false} TimersKeptPaced(r: Room, r': Room)
    requires Paced(r) && TimersKept(r, r')
    ensures Paced(r')
  {
  }

  lemma {:induction false} LogPaced(r: Room, r': Room, e: Event)
    requires Paced(r) && r'.log == r.log + [e]
    requires forall i :: 0 <= i < |r.log| ==> Apart(r.log[i], e) && Remembered(r', r.log[i])
    requires Remembered(r', e)
    ensures Paced(r')
  {
  }

  /** A change that touches no monster, no history and no set of players. */
  ghost predicate Aside(r: Room, r': Room) {
    r'.clock == r.clock && r'.log == r.log && r'.monsters == r.monsters && r'.players.Keys == r.players.Keys
  }

  lemma {:induction false} AsideKeepsTimers(r: Room, r1: Room, r2: Room, r': Room)
    requires Aside(r, r1) && TimersKept(r1, r2) && Aside(r2, r')
    ensures TimersKept(r, r')
  {
  }

  lemma {:induction false} SkillKeepsTimers(r: Room, id: nat)
    requires Inv(r) && id in r.players
    ensures TimersKept(r, r.ProcessSkill(id))
  {
    var hit, victim := ProcessSkillEffect(r, id);
    if hit {
      ApplyDamageEffect(r, id, victim);
      assert r.ApplyDamage(id, victim).log == r.log + [PlayerHit(id, victim)];
    }
  }

  lemma {:induction false} HandleKeepsTimers(r: Room, pkt: Info)
    requires Inv(r) && pkt.id !in r.monsters
    ensures TimersKept(r, r.HandleMove(pkt))
  {
    if r.Has(pkt.id) {
      var before := r.Get(pkt.id);
      var after := Synced(before, pkt);
      SyncedIsGood(before, pkt);
      var r1 := r.WithInfo(pkt.id, after);
      WithInfoKeepsInv(r, pkt.id, after);
      var skill := before.kind == PlayerKind && before.state != Skill && after.state == Skill;
      var r2 := if skill then r1.ProcessSkill(pkt.id) else r1;
      if skill { SkillKeepsTimers(r1, pkt.id); }
      AsideKeepsTimers(r, r1, r2, r2.Broadcast(S_Move(after)));
    }
  }

  lemma {:induction false} RemoveKeepsTimers(r: Room, id: nat)
    requires Inv(r)
    ensures TimersKept(r, r.Remove(id))
  {
  }

  lemma {:induction false} ClockPaced(r: Room, now: nat)
    requires Paced(r) && r.clock <= now
    ensures Paced(r.(clock := now))
  {
  }

  lemma {:induction false} StartSkillPaced(r: Room, id: nat, at: Cell)
    requires Paced(r) && id in r.monsters && r.monsters[id].info.state == Idle && id !in r.players
    ensures Paced(r.StartSkill(id, at, r.clock))
  {
  }

  lemma {:induction false} StartMovePaced(r: Room, id: nat, to: Cell)
    requires Paced(r) && id in r.monsters && r.monsters[id].info.state == Idle && id !in r.players
    ensures Paced(r.StartMove(id, to, r.clock))
  {
  }

  lemma {:induction false} IdlePaced(r: Room, id: nat, path: seq<Cell>)
    requires Inv(r) && Paced(r) && id in r.monsters && r.monsters[id].info.state == Idle
    requires r.IdleQuery(id).Some? ==> r.IdleQuery(id).value.IsAnswer(path)
    ensures Paced(r.UpdateIdle(id, r.clock, path))
  {
    UpdateIdleEffect(r, id, r.clock, path);
    ClosestIsPlayer(r, id);
    var t := r.ChosenTarget(id);
    var r1 := r.WithTarget(id, t);
    TimersKeptPaced(r, r1);
    if t.Some? && Dist(r.players[t.value].info.pos, r.monsters[id].info.pos) == 1 {
      StartSkillPaced(r1, id, r.players[t.value].info.pos);
    } else if r.IdleQuery(id).Some? && |path| > 1 {
      StartMovePaced(r1, id, path[1]);
    }
  }

  /** All earlier blows of the monster are a full PACE in the past. */
  ghost predicate Rested(r: Room, id: nat) {
    forall i :: 0 <= i < |r.log| && r.log[i].MonsterHit? && r.log[i].id == id ==> r.log[i].at + PACE <= r.clock
  }

  /** Once its timer has run out, calming a monster down keeps the pace; and if it was
      swinging at somebody it is rested. */
  lemma {:induction false} CalmPaced(r: Room, id: nat)
    requires Paced(r) && id in r.monsters && r.monsters[id].waitUntil <= r.clock
    ensures Paced(r.Calmed(id))
    ensures Aiming(r, id) ==> Rested(r, id)
  {
  }

  lemma {:induction false} StrikePaced(r: Room, id: nat)
    requires Inv(r) && Paced(r) && id in r.monsters && r.monsters[id].info.state == Idle
    requires r.Lock(r.monsters[id].target).Some? ==> Rested(r, id)
    ensures Paced(r.Strike(id))
  {
    var t := r.Lock(r.monsters[id].target);
    if t.Some? && Dist(r.players[t.value].info.pos, r.monsters[id].info.pos) == 1 {
      ApplyDamageEffect(r, id, t.value);
      var r1 := r.ApplyDamage(id, t.value);
      var e := MonsterHit(id, t.value, r.clock);
      assert r1.monsters == r.monsters by { assert r.monsters - {t.value} == r.monsters; }
      assert r1.log == r.log + [e] && r1.clock == r.clock;
      forall i | 0 <= i < |r.log|
        ensures Remembered(r1, r.log[i])
      {
        assert Remembered(r, r.log[i]);
      }
      LogPaced(r, r1, e);
      TimersKeptPaced(r1, r1.WithTarget(id, None));
    } else {
      TimersKeptPaced(r, r.Strike(id));
    }
  }

  lemma {:induction false} SkillPaced(r: Room, id: nat)
    requires Inv(r) && Paced(r) && id in r.monsters && r.monsters[id].info.state == Skill
    ensures Paced(r.UpdateSkill(id, r.clock))
  {
    if r.monsters[id].waitUntil <= r.clock {
      var calm := r.Calmed(id);
      CalmPaced(r, id);
      StrikePaced(calm, id);
      var r1 := calm.Strike(id);
      if r1.Has(id) {
        TimersKeptPaced(r1, r1.BroadcastMove(id));
      }
    }
  }

  lemma {:induction false} TickPaced(r: Room, id: nat, now: nat, path: seq<Cell>)
    requires Inv(r) && Paced(r) && Enabled(r, Label.Tick(id, now, path))
    ensures Paced(r.Tick(id, now, path))
  {
    var r1 := r.(clock := now);
    ClockPaced(r, now);
    match r.monsters[id].info.state
    case Idle =>
      ClockIsIrrelevant(r, id, now);
      IdlePaced(r1, id, path);
    case Move =>
      if r.monsters[id].waitUntil <= now { CalmPaced(r1, id); }
    case Skill => SkillPaced(r1, id);
    case UnknownState(_) =>
  }

  // ---------- messages that name a monster ----------

  /** Which messages that name a monster are harmless: one that puts it to rest needs its
      last move to be a PACE old already; one that makes it swing at a player of the room
      needs its last blow to be a PACE old by the end of the swing; and any other does. */
  ghost predicate Harmless(r: Room, pkt: Info)
    requires pkt.id in r.monsters
  {
    forall i :: 0 <= i < |r.log| ==> !Provokes(r, pkt, r.log[i])
  }

  ghost predicate Provokes(r: Room, pkt: Info, e: Event)
    requires pkt.id in r.monsters
  {
    match e
    case MonsterMoved(id, at) => id == pkt.id && pkt.state == Idle && r.clock < at + PACE
    case MonsterHit(id, _, at) =>
      id == pkt.id && pkt.state == Skill && r.Lock(r.monsters[id].target).Some? && SwingEnds(r, id) < at + PACE
    case PlayerHit(_, _) => false
  }

  lemma {:induction false} HandleMonster(r: Room, pkt: Info)
    requires Inv(r) && pkt.id in r.monsters
    ensures var r' := r.HandleMove(pkt);
      && r'.log == r.log && r'.clock == r.clock && r'.monsters.Keys == r.monsters.Keys
      && r'.players.Keys == r.players.Keys
      && r'.monsters[pkt.id].info.state == pkt.state && r'.monsters[pkt.id].waitUntil == r.monsters[pkt.id].waitUntil
      && r'.monsters[pkt.id].target == r.monsters[pkt.id].target && r'.monsters[pkt.id].info.pos == pkt.pos
      && forall id :: id in r.monsters && id != pkt.id ==> r'.monsters[id] == r.monsters[id]
  {
    SyncedIsGood(r.Get(pkt.id), pkt);
  }

  /** Exactly the harmless messages that name a monster keep the pace. */
  lemma {:induction false} HandleMonsterPacedIff(r: Room, pkt: Info)
    requires Inv(r) && Paced(r) && pkt.id in r.monsters
    ensures Paced(r.HandleMove(pkt)) <==> Harmless(r, pkt)
  {
    HandleMonster(r, pkt);
    var r' := r.HandleMove(pkt);
    forall i | 0 <= i < |r.log|
      ensures Remembered(r', r.log[i]) <==> !Provokes(r, pkt, r.log[i])
    {
      assert Remembered(r, r.log[i]);
    }
  }

  /** A message that gives a monster the state it has is harmless. */
  lemma {:induction false} SameStateIsHarmless(r: Room, pkt: Info)
    requires Paced(r) && pkt.id in r.monsters && pkt.state == r.monsters[pkt.id].info.state
    ensures Harmless(r, pkt)
  {
    forall i | 0 <= i < |r.log|
      ensures !Provokes(r, pkt, r.log[i])
    {
      assert Remembered(r, r.log[i]);
    }
  }

  lemma {:induction false} HandlePlayer(r: Room, pkt: Info)
    requires Inv(r) && pkt.id in r.players && pkt.state != Skill
    ensures var r' := r.HandleMove(pkt);
      && r'.log == r.log && r'.clock == r.clock && r'.monsters == r.monsters && r'.players.Keys == r.players.Keys
      && r'.players[pkt.id].info.pos == pkt.pos
  {
    SyncedIsGood(r.Get(pkt.id), pkt);
  }

  /** The message that puts the target of a monster right next to it. */
  function StepUp(target: Info, pos: Cell): Info { target.(pos := pos.Plus(Cell(0, -1)), state := Idle) }

  /** A provoking swing is no false alarm: wherever the target is, one more message can put
      it next to the monster, and then the next blow comes less than a PACE after the last. */
  lemma {:induction false} ProvokedSwingStrikesEarly(r: Room, pkt: Info, i: nat)
    requires Inv(r) && pkt.id in r.monsters && i < |r.log| && r.log[i].MonsterHit? && Provokes(r, pkt, r.log[i])
    ensures var t := r.monsters[pkt.id].target.value;
      var r1 := r.HandleMove(pkt);
      t in r1.players &&
      var r2 := r1.HandleMove(StepUp(r1.players[t].info, pkt.pos));
      Enabled(r2, Label.Tick(pkt.id, SwingEnds(r, pkt.id), [])) && !Spaced(r2.Tick(pkt.id, SwingEnds(r, pkt.id), []).log)
  {
    HandleMonster(r, pkt);
    HandleMoveKeepsInv(r, pkt);
    var r1 := r.HandleMove(pkt);
    var t := r.monsters[pkt.id].target.value;
    var step := StepUp(r1.players[t].info, pkt.pos);
    HandlePlayer(r1, step);
    HandleMoveKeepsInv(r1, step);
    StrikesEarly(r1.HandleMove(step), pkt.id, t, SwingEnds(r, pkt.id), i);
  }

  lemma {:induction false} StrikesEarly(r: Room, id: nat, t: nat, now: nat, i: nat)
    requires Inv(r) && id in r.monsters && r.monsters[id].info.state == Skill
    requires r.monsters[id].waitUntil <= now && r.clock <= now
    requires r.monsters[id].target == Some(t) && t in r.players
    requires Dist(r.players[t].info.pos, r.monsters[id].info.pos) == 1
    requires i < |r.log| && r.log[i].MonsterHit? && r.log[i].id == id && now < r.log[i].at + PACE
    ensures Enabled(r, Label.Tick(id, now, [])) && !Spaced(r.Tick(id, now, []).log)
  {
    StrikeLogs(r.(clock := now), id, t);
    var log := r.Tick(id, now, []).log;
    assert log == r.log + [MonsterHit(id, t, now)];
    assert !Apart(log[i], log[|r.log|]);
  }

  /** A swing whose end has come, at a target one step away, is a blow. */
  lemma {:induction false} StrikeLogs(r: Room, id: nat, t: nat)
    requires Inv(r) && id in r.monsters && r.monsters[id].info.state == Skill && r.monsters[id].waitUntil <= r.clock
    requires r.monsters[id].target == Some(t) && t in r.players
    requires Dist(r.players[t].info.pos, r.monsters[id].info.pos) == 1
    ensures r.UpdateSkill(id, r.clock).log == r.log + [MonsterHit(id, t, r.clock)]
  {
    ApplyDamageEffect(r.Calmed(id), id, t);
  }

  /** Nor is a provoking rest: if the search gives the monster a way to go, it moves at the
      very next tick, less than a PACE after its last move. */
  lemma {:induction false} ProvokedRestMovesEarly(r: Room, pkt: Info, i: nat, path: seq<Cell>)
    requires Inv(r) && pkt.id in r.monsters && i < |r.log| && r.log[i].MonsterMoved? && Provokes(r, pkt, r.log[i])
    requires var r1 := r.HandleMove(pkt);
      pkt.id in r1.monsters && r1.IdleQuery(pkt.id).Some? && r1.IdleQuery(pkt.id).value.IsAnswer(path) && |path| > 1
    ensures var r1 := r.HandleMove(pkt);
      Enabled(r1, Label.Tick(pkt.id, r.clock, path)) && !Spaced(r1.Tick(pkt.id, r.clock, path).log)
  {
    HandleMonster(r, pkt);
    HandleMoveKeepsInv(r, pkt);
    var r1 := r.HandleMove(pkt);
    assert r1.(clock := r.clock) == r1;
    UpdateIdleEffect(r1, pkt.id, r.clock, path);
    var log := r1.Tick(pkt.id, r.clock, path).log;
    assert log == r.log + [MonsterMoved(pkt.id, r.clock)];
    assert !Apart(log[i], log[|r.log|]);
  }

  // ---------- runs ----------

  /** The label keeps the pace: every step does, but for a harmful message. */
  ghost predicate KeepsPace(r: Room, l: Label) {
    l.Handle? && l.pkt.id in r.monsters ==> Harmless(r, l.pkt)
  }

  lemma {:induction false} NextPacedIff(r: Room, l: Label)
    requires Inv(r) && Paced(r) && Enabled(r, l)
    ensures Paced(Next(r, l)) <==> KeepsPace(r, l)
  {
    match l
    case Enter => TimersKeptPaced(r, r.Enter());
    case Leave(id) =>
      RemoveKeepsTimers(r, id);
      TimersKeptPaced(r, r.Leave(id));
    case Handle(pkt) =>
      if pkt.id in r.monsters {
        HandleMonsterPacedIff(r, pkt);
      } else {
        HandleKeepsTimers(r, pkt);
        TimersKeptPaced(r, r.HandleMove(pkt));
      }
    case Tick(id, now, path) => TickPaced(r, id, now, path);
  }

  /** Up to a point of any run the pace is kept exactly if every message that named a
      monster was harmless where it arrived.  In particular it is kept when no message
      names a monster: then any two moves of a monster, and any two blows of a monster,
      are at least PACE apart. */
  lemma {:induction false} RunsArePacedIff(tilemap: Tilemap, states: seq<Room>, labels: seq<Label>, n: nat)
    requires IsRun(states, labels) && states[0] == Init(tilemap) && n < |states|
    ensures Inv(states[n])
    ensures (forall i :: 0 <= i <= n ==> Paced(states[i])) <==> (forall i :: 0 <= i < n ==> KeepsPace(states[i], labels[i]))
  {
    if n > 0 {
      var k := n - 1;
      RunsArePacedIff(tilemap, states, labels, k);
      assert StepAt(states, labels, k);
      NextKeepsInv(states[k], labels[k]);
      if Paced(states[k]) {
        NextPacedIff(states[k], labels[k]);
      }
    }
  }

  /** Every C_Move of the run names an id that is no monster at that moment. */
  ghost predicate MovesNamePlayers(states: seq<Room>, labels: seq<Label>)
    requires |states| == |labels| + 1
  {
    forall i :: 0 <= i < |labels| && labels[i].Handle? ==> labels[i].pkt.id !in states[i].monsters
  }

  /** The plain case: clients that speak for players only. */
  lemma {:induction false} RunsArePaced(tilemap: Tilemap, states: seq<Room>, labels: seq<Label>, i: nat)
    requires IsRun(states, labels) && states[0] == Init(tilemap) && MovesNamePlayers(states, labels)
    requires i < |states|
    ensures Spaced(states[i].log)
  {
    RunsArePacedIff(tilemap, states, labels, i);
    assert forall k :: 0 <= k < i ==> KeepsPace(states[k], labels[k]);
    assert Paced(states[i]);
  }

  // ---------- a C_Move that names a monster breaks the pace ----------

  /** A room with the first monster and the first player only, whatever has been sent. */
  ghost predicate Duel(r: Room, m: Monster, p: Info, clock: nat, log: seq<Event>) {
    && r.players.Keys == {2} && r.players[2].info == p && r.monsters == map[1 := m]
    && r.clock == clock && r.log == log
  }

  function Beast(state: State, attack: int, defence: int, wait: nat, target: Option<nat>): Monster {
    Monster(Info(1, MonsterKind, state, Up, 50, 50, attack, defence, Cell(8, 8)), wait, target)
  }

  function Hero(hp: int, pos: Cell): Info { Info(2, PlayerKind, Idle, Up, hp, 100, 15, 5, pos) }

  const NEXT_TO_IT := Cell(8, 7)
  const BLOW := MonsterHit(1, 2, 1000)

  lemma {:induction false} DuelBegins(tilemap: Tilemap)
    ensures Duel(Init(tilemap).Enter(), Beast(Idle, 5, 0, 0, None), Hero(100, Cell(5, 5)), 0, [])
  {
  }

  lemma {:induction false} HeroApproaches(r: Room)
    requires Duel(r, Beast(Idle, 5, 0, 0, None), Hero(100, Cell(5, 5)), 0, [])
    ensures Duel(r.HandleMove(Hero(100, NEXT_TO_IT)), Beast(Idle, 5, 0, 0, None), Hero(100, NEXT_TO_IT), 0, [])
  {
  }

  lemma {:induction false} BeastSwings(r: Room)
    requires Duel(r, Beast(Idle, 5, 0, 0, None), Hero(100, NEXT_TO_IT), 0, [])
    ensures r.IdleQuery(1).None?
    ensures Duel(r.Tick(1, 0, []), Beast(Skill, 5, 0, 1000, Some(2)), Hero(100, NEXT_TO_IT), 0, [])
  {
    var pos := r.monsters[1].info.pos;
    assert r.IsClosest(pos, 2);
    assert r.FindClosestPlayer(pos) == Some(2);
    assert LookAtDir(Cell(8, 8), NEXT_TO_IT) == Up;
  }

  lemma {:induction false} BeastStrikes(r: Room, attack: int, defence: int, hp: int, clock: nat, log: seq<Event>)
    requires Duel(r, Beast(Skill, attack, defence, 1000, Some(2)), Hero(hp, NEXT_TO_IT), clock, log)
    requires attack == 5 || attack == 15
    requires 50 < hp <= 100
    ensures r.IdleQuery(1).None?
    ensures Duel(r.Tick(1, 1000, []), Beast(Idle, attack, defence, 1000, Some(2)),
                 Hero(hp - if attack == 5 then 1 else 10, NEXT_TO_IT), 1000, log + [BLOW])
  {
  }

  lemma {:induction false} MessageRevivesSwing(r: Room)
    requires Duel(r, Beast(Idle, 5, 0, 1000, Some(2)), Hero(99, NEXT_TO_IT), 1000, [BLOW])
    ensures Duel(r.HandleMove(Beast(Skill, 15, 5, 0, None).info), Beast(Skill, 15, 5, 1000, Some(2)), Hero(99, NEXT_TO_IT), 1000, [BLOW])
  {
  }

  /** A run that ends in r. */
  ghost predicate RunTo(tilemap: Tilemap, states: seq<Room>, labels: seq<Label>, r: Room) {
    IsRun(states, labels) && states[0] == Init(tilemap) && states[|labels|] == r
  }

  lemma {:induction false} RunFurther(tilemap: Tilemap, states: seq<Room>, labels: seq<Label>, r: Room, l: Label)
    requires RunTo(tilemap, states, labels, r) && Enabled(r, l)
    ensures RunTo(tilemap, states + [Next(r, l)], labels + [l], Next(r, l))
  {
    var states', labels' := states + [Next(r, l)], labels + [l];
    forall i | 0 <= i < |labels'|
      ensures StepAt(states', labels', i)
    {
      assert i < |labels| ==> StepAt(states, labels, i);
    }
  }

  lemma {:induction false} FirstBlow(tilemap: Tilemap) returns (states: seq<Room>, labels: seq<Label>, r: Room)
    ensures RunTo(tilemap, states, labels, r)
    ensures Duel(r, Beast(Idle, 5, 0, 1000, Some(2)), Hero(99, NEXT_TO_IT), 1000, [BLOW])
  {
    r, states, labels := Init(tilemap), [Init(tilemap)], [];
    DuelBegins(tilemap);
    states, labels, r := Extend(tilemap, states, labels, r, Label.Enter);
    HeroApproaches(r);
    states, labels, r := Extend(tilemap, states, labels, r, Label.Handle(Hero(100, NEXT_TO_IT)));
    BeastSwings(r);
    states, labels, r := Extend(tilemap, states, labels, r, Label.Tick(1, 0, []));
    BeastStrikes(r, 5, 0, 100, 0, []);
    states, labels, r := Extend(tilemap, states, labels, r, Label.Tick(1, 1000, []));
    assert [] + [BLOW] == [BLOW];
  }

  lemma {:induction false} Extend(tilemap: Tilemap, states0: seq<Room>, labels0: seq<Label>, r0: Room, l: Label)
    returns (states: seq<Room>, labels: seq<Label>, r: Room)
    requires RunTo(tilemap, states0, labels0, r0) && Enabled(r0, l)
    ensures RunTo(tilemap, states, labels, r) && r == Next(r0, l)
  {
    RunFurther(tilemap, states0, labels0, r0, l);
    states, labels, r := states0 + [Next(r0, l)], labels0 + [l], Next(r0, l);
  }

  /** It happens from the start: on every map a run in which a C_Move that names the first
      monster makes it strike twice at the same tick. */
  lemma {:induction false} MonsterMessagesBreakPace(tilemap: Tilemap) returns (states: seq<Room>, labels: seq<Label>)
    ensures IsRun(states, labels) && states[0] == Init(tilemap)
    ensures states[|labels|].log == [BLOW, BLOW] && !Paced(states[|labels|])
  {
    var r;
    states, labels, r := FirstBlow(tilemap);
    MessageRevivesSwing(r);
    states, labels, r := Extend(tilemap, states, labels, r, Label.Handle(Beast(Skill, 15, 5, 0, None).info));
    BeastStrikes(r, 15, 5, 99, 1000, [BLOW]);
    states, labels, r := Extend(tilemap, states, labels, r, Label.Tick(1, 1000, []));
    assert [BLOW] + [BLOW] == [BLOW, BLOW];
    assert !Apart(r.log[0], r.log[1]);
  }
}
