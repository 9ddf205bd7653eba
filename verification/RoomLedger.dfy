/** Hit points over whole runs: they are only ever spent, and an id that has left the
    room does not come back. */
module RoomLedger {
  import opened Geometry
  import opened Ordered
  import opened Protocol
  import opened RoomSpec
  import opened RoomInvariant

  ghost predicate Strikes(e: Event, id: nat) {
    match e
    case MonsterMoved(_, _) => false
    case MonsterHit(_, victim, _) => victim == id
    case PlayerHit(_, victim) => victim == id
  }

  /** How many hits an id has taken so far. */
  ghost function Hits(log: seq<Event>, id: nat): nat {
    if log == [] then 0
    else Hits(log[..|log| - 1], id) + if Strikes(log[|log| - 1], id) then 1 else 0
  }

  /** The hit points an id has left; an id that is not in the room has none. */
  ghost function Points(r: Room, id: nat): int {
    if r.Has(id) then r.Get(id).hp else 0
  }

  /** From r to r' nobody gains: remaining points plus hits taken never grow. */
  ghost predicate NoGain(r: Room, r': Room) {
    && r.nextId <= r'.nextId && r.log <= r'.log
    && forall id: nat :: id < r.nextId ==> Points(r', id) + Hits(r'.log, id) <= Points(r, id) + Hits(r.log, id)
  }

  lemma {:induction false} NoGainTransitive(a: Room, b: Room, c: Room)
    requires NoGain(a, b) && NoGain(b, c)
    ensures NoGain(a, c)
  {
  }

  lemma {:induction false} HitsGrow(log: seq<Event>, log': seq<Event>, id: nat)
    requires log <= log'
    ensures Hits(log, id) <= Hits(log', id)
  {
    if |log| < |log'| {
      HitsGrow(log, log'[..|log'| - 1], id);
    } else {
      assert log == log';
    }
  }

  // ---------- the steps ----------

  lemma {:induction false} BroadcastNoGain(r: Room, msg: Message)
    ensures NoGain(r, r.Broadcast(msg))
  {
  }

  lemma {:induction false} WithInfoNoGain(r: Room, id: nat, info: Info)
    requires r.Has(id) && info.hp <= r.Get(id).hp
    ensures NoGain(r, r.WithInfo(id, info))
  {
  }

  /** A hit is paid for with at least one point. */
  lemma {:induction false} HitIsPaid(r: Room, victim: nat, e: Event, hurt: Info)
    requires r.Has(victim) && hurt.hp < r.Get(victim).hp
    requires forall id :: Strikes(e, id) <==> id == victim
    ensures NoGain(r, r.Logged(e).WithInfo(victim, hurt))
  {
  }

  lemma {:induction false} DeathIsPaid(r: Room, victim: nat, e: Event)
    requires Inv(r) && r.Has(victim)
    requires forall id :: Strikes(e, id) <==> id == victim
    ensures NoGain(r, r.Logged(e).Erase(victim))
  {
  }

  lemma {:induction false} ApplyDamageNoGain(r: Room, attacker: nat, victim: nat)
    requires Inv(r)
    ensures NoGain(r, r.ApplyDamage(attacker, victim))
  {
    if r.Has(attacker) && r.Has(victim) {
      ApplyDamageEffect(r, attacker, victim);
      DamageIsBounded(r, attacker, victim);
      var hurt := Wounded(r.Get(attacker), r.Get(victim));
      var e := HitEvent(r, attacker, victim);
      if hurt.hp > 0 {
        HitIsPaid(r, victim, e, hurt);
        BroadcastNoGain(r.Logged(e).WithInfo(victim, hurt), S_Move(hurt));
        NoGainTransitive(r, r.Logged(e).WithInfo(victim, hurt), r.ApplyDamage(attacker, victim));
      } else {
        DeathIsPaid(r, victim, e);
        BroadcastNoGain(r.Logged(e).Erase(victim), S_RemoveObject([victim]));
        NoGainTransitive(r, r.Logged(e).Erase(victim), r.ApplyDamage(attacker, victim));
      }
    }
  }

  lemma {:induction false} RemoveNoGain(r: Room, id: nat)
    requires Inv(r)
    ensures NoGain(r, r.Remove(id))
  {
  }

  lemma {:induction false} EnterNoGain(r: Room)
    requires Inv(r)
    ensures NoGain(r, r.Enter())
  {
  }

  lemma {:induction false} HandleMoveNoGain(r: Room, pkt: Info)
    requires Inv(r)
    ensures NoGain(r, r.HandleMove(pkt))
  {
    if r.Has(pkt.id) {
      var before := r.Get(pkt.id);
      var after := Synced(before, pkt);
      SyncedIsGood(before, pkt);
      var r1 := r.WithInfo(pkt.id, after);
      WithInfoKeepsInv(r, pkt.id, after);
      WithInfoNoGain(r, pkt.id, after);
      var r2 := r1;
      if before.kind == PlayerKind && before.state != Skill && after.state == Skill {
        var hit, victim := ProcessSkillEffect(r1, pkt.id);
        ApplyDamageNoGain(r1, pkt.id, victim);
        r2 := r1.ProcessSkill(pkt.id);
        NoGainTransitive(r, r1, r2);
      }
      BroadcastNoGain(r2, S_Move(after));
      NoGainTransitive(r, r2, r.HandleMove(pkt));
    }
  }

  /** An idle or moving monster wounds nobody. */
  ghost predicate SameHealth(r: Room, r': Room) {
    && r'.nextId == r.nextId
    && (r'.log == r.log || exists id, at :: r'.log == r.log + [MonsterMoved(id, at)])
    && r'.players.Keys == r.players.Keys && r'.monsters.Keys == r.monsters.Keys
    && forall id :: r.Has(id) ==> r'.Get(id).hp == r.Get(id).hp
  }

  lemma {:induction false} SameHealthNoGain(r: Room, r': Room)
    requires SameHealth(r, r')
    ensures NoGain(r, r')
  {
  }

  lemma {:induction false} IdleNoGain(r: Room, id: nat, now: nat, path: seq<Cell>)
    requires Inv(r) && id in r.monsters && r.monsters[id].info.state == Idle
    requires r.IdleQuery(id).Some? ==> r.IdleQuery(id).value.IsAnswer(path)
    ensures NoGain(r, r.UpdateIdle(id, now, path))
  {
    UpdateIdleEffect(r, id, now, path);
    ClosestIsPlayer(r, id);
    SameHealthNoGain(r, r.UpdateIdle(id, now, path));
  }

  lemma {:induction false} StrikeNoGain(r: Room, id: nat)
    requires Inv(r) && id in r.monsters
    ensures NoGain(r, r.Strike(id))
  {
    var t := r.Lock(r.monsters[id].target);
    if t.Some? {
      ApplyDamageNoGain(r, id, t.value);
    }
    var r1 := if t.Some? then r.ApplyDamage(id, t.value) else r;
    if id in r1.monsters {
      SameHealthNoGain(r1, r1.WithTarget(id, None));
      if NoGain(r, r1) { NoGainTransitive(r, r1, r1.WithTarget(id, None)); }
    }
  }

  lemma {:induction false} SkillNoGain(r: Room, id: nat, now: nat)
    requires Inv(r) && id in r.monsters
    ensures NoGain(r, r.UpdateSkill(id, now))
  {
    var calm := r.Calmed(id);
    SameHealthNoGain(r, calm);
    StrikeNoGain(calm, id);
    var r1 := calm.Strike(id);
    NoGainTransitive(r, calm, r1);
    if r1.Has(id) {
      BroadcastNoGain(r1, S_Move(r1.Get(id)));
      NoGainTransitive(r, r1, r1.BroadcastMove(id));
    }
  }

  lemma {:induction false} TickNoGain(r: Room, id: nat, now: nat, path: seq<Cell>)
    requires Inv(r) && Enabled(r, Label.Tick(id, now, path))
    ensures NoGain(r, r.Tick(id, now, path))
  {
    var r1 := r.(clock := now);
    SameHealthNoGain(r, r1);
    match r.monsters[id].info.state
    case Idle =>
      ClockIsIrrelevant(r, id, now);
      IdleNoGain(r1, id, now, path);
      NoGainTransitive(r, r1, r.Tick(id, now, path));
    case Move =>
      SameHealthNoGain(r, r.Tick(id, now, path));
    case Skill =>
      SkillNoGain(r1, id, now);
      NoGainTransitive(r, r1, r.Tick(id, now, path));
    case UnknownState(_) =>
  }

  lemma {:induction false} NextNoGain(r: Room, l: Label)
    requires Inv(r) && Enabled(r, l)
    ensures NoGain(r, Next(r, l))
  {
    match l
    case Enter => EnterNoGain(r);
    case Leave(id) => RemoveNoGain(r, id);
    case Handle(pkt) => HandleMoveNoGain(r, pkt);
    case Tick(id, now, path) => TickNoGain(r, id, now, path);
  }

  lemma {:induction false} RunNoGain(states: seq<Room>, labels: seq<Label>, i: nat, j: nat)
    requires IsRun(states, labels) && i <= j < |states| && Inv(states[i])
    ensures NoGain(states[i], states[j]) && Inv(states[j])
  {
    if i < j {
      var k := j - 1;
      RunNoGain(states, labels, i, k);
      assert StepAt(states, labels, k);
      NextNoGain(states[k], labels[k]);
      NextKeepsInv(states[k], labels[k]);
      NoGainTransitive(states[i], states[k], states[j]);
    }
  }

  /** Over any stretch of any run, for every id given out before it: hit points never
      rise, the hits that take effect never outnumber the points the id had, and an id
      that is out of the room stays out and is never hit. */
  lemma {:induction false} HitPointsAreSpent(states: seq<Room>, labels: seq<Label>, i: nat, j: nat, id: nat)
    requires IsRun(states, labels) && i <= j < |states| && Inv(states[i])
    requires id < states[i].nextId
    ensures Points(states[j], id) <= Points(states[i], id)
    ensures Hits(states[j].log, id) - Hits(states[i].log, id) <= Points(states[i], id)
    ensures !states[i].Has(id) ==> !states[j].Has(id) && Hits(states[j].log, id) == Hits(states[i].log, id)
  {
    RunNoGain(states, labels, i, j);
    HitsGrow(states[i].log, states[j].log, id);
  }
}
