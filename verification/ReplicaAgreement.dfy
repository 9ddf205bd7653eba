/** Every client that is in the room sees the room: folding the messages queued to a
    session gives the room's objects back. */
module ReplicaAgreement {
  import opened Geometry
  import opened Ordered
  import opened Protocol
  import opened TilemapModel
  import opened RoomSpec
  import opened RoomInvariant
  import opened RoomSafety
  import opened Replica

  // ---------- agreement of one view ----------

  ghost predicate SameHealth(v: Info, o: Info) {
    v.hp == o.hp && v.maxHp == o.maxHp && v.attack == o.attack && v.defence == o.defence
  }

  /** The only state a view may lag behind on: a monster that has come to rest. */
  ghost predicate SamePose(v: Info, o: Info) {
    v.pos == o.pos && v.dir == o.dir && (v.state == o.state || (o.kind == MonsterKind && v.state == Move && o.state == Idle))
  }

  ghost predicate Same(v: Info, o: Info, me: nat, stale: set<nat>) {
    && v.kind == o.kind
    && (v.id !in stale ==> SameHealth(v, o))
    && (v.id !in stale && v.id != me ==> SamePose(v, o))
  }

  /** No id is shown twice. */
  ghost predicate NoDuplicates(v: View) {
    forall i, j :: 0 <= i < j < |v.actors| ==> v.actors[i].info.id != v.actors[j].info.id
  }

  /** The view shows exactly the given objects, each of them as it is; ids in `stale` may
      still be shown with outdated values. */
  ghost predicate Agrees(v: View, me: nat, objs: map<nat, Info>, stale: set<nat>) {
    && v.me == me
    && NoDuplicates(v)
    && (forall i :: 0 <= i < |v.actors| ==> v.actors[i].info.id in objs)
    && (forall i :: 0 <= i < |v.actors| ==> Same(v.actors[i].info, objs[v.actors[i].info.id], me, stale))
    && (forall id {:trigger v.Shows(id)} :: id in objs ==> v.Shows(id))
  }

  ghost predicate Healthy(info: Info) {
    info.kind == PlayerKind ==> info.maxHp > 0 && 0 <= info.hp <= info.maxHp && info.attack != 0 && info.defence != 0
  }

  lemma {:induction false} MoveKeepsShown(v: View, id: nat, info: Info)
    requires v.Shows(id)
    ensures v.On(S_Move(info)).Shows(id)
  {
    var k :| 0 <= k < |v.actors| && v.actors[k].info.id == id;
    assert v.OnMove(info).actors[k].info.id == id;
  }

  /** An actor that has handled a message about itself is as the message says. */
  lemma {:induction false} MovedIsSame(a: Actor, info: Info, me: nat, stale: set<nat>)
    requires a.info.id == info.id && a.info.kind == info.kind && Healthy(info)
    ensures MovedActor(a, info, me).info.id == info.id
    ensures Same(MovedActor(a, info, me).info, info, me, stale)
  {
    var b := a.(info := a.info.(attack := info.attack, defence := info.defence, hp := info.hp, maxHp := info.maxHp));
    RefreshKeepsInfoIff(b);
  }

  lemma {:induction false} MoveAgrees(v: View, me: nat, objs: map<nat, Info>, stale: set<nat>, id: nat)
    requires Agrees(v, me, objs, stale) && id in objs && objs[id].id == id && Healthy(objs[id])
    ensures Agrees(v.OnMove(objs[id]), me, objs, stale - {id})
    ensures NamesKnown(v, S_Move(objs[id]))
  {
    var info := objs[id];
    assert v.Shows(id);
    var i := v.Find(id).value;
    MovedIsSame(v.actors[i], info, me, stale - {id});
    var v' := v.OnMove(info);
    assert v'.actors == v.actors[i := MovedActor(v.actors[i], info, me)];
    forall k | k in objs
      ensures v'.Shows(k)
    {
      assert v.Shows(k);
      MoveKeepsShown(v, k, info);
    }
  }

  lemma {:induction false} DropOne(v: View, i: nat)
    requires NoDuplicates(v) && i < |v.actors|
    ensures var v' := v.(actors := v.actors[..i] + v.actors[i + 1..]);
      && NoDuplicates(v')
      && (forall j :: 0 <= j < |v'.actors| ==> v'.actors[j] in v.actors && v'.actors[j].info.id != v.actors[i].info.id)
      && (forall k :: v.Shows(k) && k != v.actors[i].info.id ==> v'.Shows(k))
  {
    var v' := v.(actors := v.actors[..i] + v.actors[i + 1..]);
    assert forall j :: 0 <= j < |v'.actors| ==> v'.actors[j] == v.actors[if j < i then j else j + 1];
    forall k | v.Shows(k) && k != v.actors[i].info.id
      ensures v'.Shows(k)
    {
      var j :| 0 <= j < |v.actors| && v.actors[j].info.id == k;
      assert v'.actors[if j < i then j else j - 1].info.id == k;
    }
  }

  lemma {:induction false} DropAgrees(v: View, me: nat, objs: map<nat, Info>, stale: set<nat>, i: nat)
    requires Agrees(v, me, objs, stale) && i < |v.actors|
    ensures Agrees(v.(actors := v.actors[..i] + v.actors[i + 1..]), me, objs - {v.actors[i].info.id}, stale)
  {
    DropOne(v, i);
  }

  /** Handling a removal takes out exactly the named object if and only if its id survives
      the 32-bit variable on its way to the lookup. */
  lemma {:induction false} RemoveAgreesIff(v: View, me: nat, objs: map<nat, Info>, stale: set<nat>, id: nat)
    requires Agrees(v, me, objs, stale) && id in objs
    ensures Agrees(v.OnRemoveObject(id), me, objs - {id}, stale) <==> Narrow(id) == id
    ensures NamesKnown(v, S_RemoveObject([id]))
  {
    assert v.Shows(id);
    if Narrow(id) == id {
      DropAgrees(v, me, objs, stale, v.Find(id).value);
    } else if v.Find(Narrow(id)).Some? {
      DropOne(v, v.Find(Narrow(id)).value);
      assert v.OnRemoveObject(id).Shows(id);
    }
  }

  function Snake(id: nat): Actor { Actor(Info(id, MonsterKind, Idle, Up, 50, 50, 5, 0, Cell(8, 8)), Sword) }

  /** The first id that does not survive: its removal leaves the object on the screen. */
  lemma {:induction false} RemovalMisses()
    ensures var v := View(0, [Snake(0x8000_0000)]);
      v.OnRemoveObject(0x8000_0000) == v && v.Shows(0x8000_0000)
  {
    var v := View(0, [Snake(0x8000_0000)]);
    assert v.actors[0].info.id == 0x8000_0000;
  }

  /** And 2^32 ids later a removal takes out somebody else. */
  lemma {:induction false} RemovalHitsAnother()
    ensures View(0, [Snake(5), Snake(0x1_0000_0005)]).OnRemoveObject(0x1_0000_0005) == View(0, [Snake(0x1_0000_0005)])
  {
    var v := View(0, [Snake(5), Snake(0x1_0000_0005)]);
    assert v.Find(5) == Some(0);
    assert v.actors[..0] + v.actors[1..] == [Snake(0x1_0000_0005)];
  }

  lemma {:induction false} AddAgrees(v: View, me: nat, objs: map<nat, Info>, stale: set<nat>, info: Info)
    requires Agrees(v, me, objs, stale) && info.id !in objs && info.id != me
    requires info.kind != NoKind && Healthy(info)
    ensures Agrees(v.OnAddObject(info), me, objs[info.id := info], stale)
  {
    RefreshKeepsInfoIff(Actor(info, Sword));
    var v' := v.OnAddObject(info);
    var n := |v.actors|;
    assert v'.actors[..n] == v.actors && v'.actors[n].info == info;
    forall k | k in objs[info.id := info]
      ensures v'.Shows(k)
    {
      if k == info.id {
        assert v'.actors[n].info.id == k;
      } else {
        assert v.Shows(k);
        var j :| 0 <= j < n && v.actors[j].info.id == k;
        assert v'.actors[j].info.id == k;
      }
    }
  }

  /** The objects after adding a list of records. */
  ghost function Added(objs: map<nat, Info>, infos: seq<Info>): map<nat, Info> {
    if infos == [] then objs
    else Added(objs, infos[..|infos| - 1])[infos[|infos| - 1].id := infos[|infos| - 1]]
  }

  lemma {:induction false} AddedKeys(objs: map<nat, Info>, infos: seq<Info>)
    requires forall i, j :: 0 <= i < j < |infos| ==> infos[i].id != infos[j].id
    ensures forall k :: k in Added(objs, infos) <==> k in objs || exists i :: 0 <= i < |infos| && infos[i].id == k
    ensures forall i :: 0 <= i < |infos| ==> infos[i].id in Added(objs, infos) && Added(objs, infos)[infos[i].id] == infos[i]
    ensures forall k :: k in objs && (forall i :: 0 <= i < |infos| ==> infos[i].id != k) ==>
              k in Added(objs, infos) && Added(objs, infos)[k] == objs[k]
  {
    if infos != [] {
      var front := infos[..|infos| - 1];
      AddedKeys(objs, front);
      assert forall i :: 0 <= i < |front| ==> front[i] == infos[i];
      forall k | k in objs || exists i :: 0 <= i < |infos| && infos[i].id == k
        ensures k in Added(objs, infos)
      {
        if k !in objs {
          var i :| 0 <= i < |infos| && infos[i].id == k;
          assert i < |front| ==> front[i].id == k;
        }
      }
    }
  }

  lemma {:induction false} AddManyAgrees(v: View, me: nat, objs: map<nat, Info>, infos: seq<Info>)
    requires Agrees(v, me, objs, {})
    requires forall i :: 0 <= i < |infos| ==> infos[i].id !in objs && infos[i].id != me
    requires forall i :: 0 <= i < |infos| ==> infos[i].kind != NoKind && Healthy(infos[i])
    requires forall i, j :: 0 <= i < j < |infos| ==> infos[i].id != infos[j].id
    ensures Agrees(v.OnAddObjects(infos), me, Added(objs, infos), {})
  {
    if infos != [] {
      var front, last := infos[..|infos| - 1], infos[|infos| - 1];
      AddManyAgrees(v, me, objs, front);
      AddedKeys(objs, front);
      assert last.id !in Added(objs, front);
      AddAgrees(v.OnAddObjects(front), me, Added(objs, front), {}, last);
    }
  }

  // ---------- agreement of the whole room ----------

  ghost function Objects(r: Room): map<nat, Info> {
    map id | id in r.players.Keys + r.monsters.Keys :: r.Get(id)
  }

  ghost predicate SessionAgrees(sent: seq<Message>, me: nat, objs: map<nat, Info>, stale: set<nat>) {
    Addressed(sent) && Agrees(Fold(sent), me, objs, stale)
  }

  /** Every session whose player is in the room has been told the room's objects. */
  ghost predicate AllAgree(r: Room, stale: set<nat>) {
    forall p :: p in r.players ==> SessionAgrees(r.players[p].sent, p, Objects(r), stale)
  }

  lemma {:induction false} ObjectsAreGets(r: Room)
    requires Inv(r)
    ensures forall id :: id in Objects(r) <==> r.Has(id)
    ensures forall id :: r.Has(id) ==> Objects(r)[id] == r.Get(id) && r.Get(id).id == id && Healthy(r.Get(id)) && r.Get(id).kind != NoKind
  {
  }

  lemma {:induction false} ObjectsOfBroadcast(r: Room, msg: Message)
    ensures Objects(r.Broadcast(msg)) == Objects(r)
  {
  }

  lemma {:induction false} ObjectsOfErase(r: Room, id: nat)
    ensures Objects(r.Erase(id)) == Objects(r) - {id}
  {
  }

  lemma {:induction false} ObjectsOfWithInfo(r: Room, id: nat, info: Info)
    requires Inv(r) && r.Has(id)
    ensures Objects(r.WithInfo(id, info)) == Objects(r)[id := info]
  {
  }

  lemma {:induction false} Append(sent: seq<Message>, msg: Message)
    ensures Fold(sent + [msg]) == Fold(sent).On(msg)
    ensures Addressed(sent + [msg]) <==> Addressed(sent) && NamesKnown(Fold(sent), msg)
  {
  }

  /** A change that neither players nor views can notice. */
  lemma {:induction false} UnseenKeepsAgreement(r: Room, r': Room, stale: set<nat>)
    requires AllAgree(r, stale) && r'.players == r.players && Objects(r') == Objects(r)
    ensures AllAgree(r', stale)
  {
  }

  lemma {:induction false} MoreStale(r: Room, stale: set<nat>, stale': set<nat>)
    requires AllAgree(r, stale) && stale <= stale'
    ensures AllAgree(r, stale')
  {
  }

  lemma {:induction false} ChangeGoesStale(v: View, me: nat, objs: map<nat, Info>, stale: set<nat>, id: nat, info: Info)
    requires Agrees(v, me, objs, stale) && id in objs && info.kind == objs[id].kind
    ensures Agrees(v, me, objs[id := info], stale + {id})
  {
  }

  lemma {:induction false} WithInfoGoesStale(r: Room, id: nat, info: Info, stale: set<nat>)
    requires Inv(r) && AllAgree(r, stale) && r.Has(id) && info.kind == r.Get(id).kind
    ensures AllAgree(r.WithInfo(id, info), stale + {id})
  {
    var objs, objs' := Objects(r), Objects(r.WithInfo(id, info));
    ObjectsOfWithInfo(r, id, info);
    ObjectsAreGets(r);
    forall p | p in r.players
      ensures SessionAgrees(r.players[p].sent, p, objs', stale + {id})
    {
      ChangeGoesStale(Fold(r.players[p].sent), p, objs, stale, id, info);
    }
  }

  /** A move message about an object brings every view up to date on it. */
  lemma {:induction false} AnnounceRefreshes(r: Room, id: nat, stale: set<nat>)
    requires Inv(r) && AllAgree(r, stale) && r.Has(id)
    ensures AllAgree(r.BroadcastMove(id), stale - {id})
  {
    var msg := S_Move(r.Get(id));
    var r' := r.BroadcastMove(id);
    ObjectsAreGets(r);
    BroadcastKeepsObjects(r, msg);
    ObjectsOfBroadcast(r, msg);
    forall p | p in r'.players
      ensures SessionAgrees(r'.players[p].sent, p, Objects(r'), stale - {id})
    {
      var sent := r.players[p].sent;
      Append(sent, msg);
      MoveAgrees(Fold(sent), p, Objects(r), stale, id);
    }
  }

  /** Taking an object out and announcing it keeps every remaining view in agreement. */
  lemma {:induction false} DepartureAgrees(r: Room, id: nat, stale: set<nat>)
    requires Inv(r) && AllAgree(r, stale) && r.Has(id) && Narrow(id) == id
    ensures AllAgree(r.Erase(id).Broadcast(S_RemoveObject([id])), stale)
  {
    var msg := S_RemoveObject([id]);
    var r' := r.Erase(id).Broadcast(msg);
    ObjectsAreGets(r);
    BroadcastKeepsObjects(r.Erase(id), msg);
    ObjectsOfErase(r, id);
    ObjectsOfBroadcast(r.Erase(id), msg);
    forall p | p in r'.players
      ensures SessionAgrees(r'.players[p].sent, p, Objects(r'), stale)
    {
      var sent := r.players[p].sent;
      Append(sent, msg);
      RemoveAgreesIff(Fold(sent), p, Objects(r), stale, id);
      RemoveOne(Fold(sent), id);
    }
  }

  /** An object that is gone, but that every view still shows. */
  ghost predicate Haunts(id: nat, r: Room) {
    !r.Has(id) && forall p :: p in r.players ==> Fold(r.players[p].sent).Shows(id)
  }

  lemma {:induction false} DepartureHaunts(r: Room, id: nat, stale: set<nat>)
    requires Inv(r) && AllAgree(r, stale) && r.Has(id) && Narrow(id) != id
    ensures Haunts(id, r.Erase(id).Broadcast(S_RemoveObject([id])))
  {
    var msg := S_RemoveObject([id]);
    var r' := r.Erase(id).Broadcast(msg);
    ObjectsAreGets(r);
    BroadcastKeepsObjects(r.Erase(id), msg);
    forall p | p in r'.players
      ensures Fold(r'.players[p].sent).Shows(id)
    {
      var sent := r.players[p].sent;
      Append(sent, msg);
      assert Fold(sent).Shows(id);
      MissedStays(Fold(sent), id);
      RemoveOne(Fold(sent), id);
    }
  }

  lemma {:induction false} MissedStays(v: View, id: nat)
    requires v.Shows(id) && Narrow(id) != id
    ensures v.OnRemoveObject(id).Shows(id)
  {
    if v.Find(Narrow(id)).Some? {
      var i := v.Find(Narrow(id)).value;
      var k :| 0 <= k < |v.actors| && v.actors[k].info.id == id;
      assert v.OnRemoveObject(id).actors[if k < i then k else k - 1].info.id == id;
    }
  }

  /** Later move messages do not lay the ghost. */
  lemma {:induction false} MoveHaunts(r: Room, id: nat, info: Info)
    requires Haunts(id, r)
    ensures Haunts(id, r.Broadcast(S_Move(info)))
  {
    var r' := r.Broadcast(S_Move(info));
    BroadcastKeepsObjects(r, S_Move(info));
    forall p | p in r'.players
      ensures Fold(r'.players[p].sent).Shows(id)
    {
      Append(r.players[p].sent, S_Move(info));
      MoveKeepsShown(Fold(r.players[p].sent), id, info);
    }
  }

  lemma {:induction false} HauntedDisagrees(r: Room, id: nat, stale: set<nat>)
    requires Haunts(id, r) && r.players.Keys != {}
    ensures !AllAgree(r, stale)
  {
    var p :| p in r.players;
    var v := Fold(r.players[p].sent);
    var k :| 0 <= k < |v.actors| && v.actors[k].info.id == id;
    assert id !in Objects(r);
  }

  lemma {:induction false} RemoveOne(v: View, id: nat)
    ensures v.On(S_RemoveObject([id])) == v.OnRemoveObject(id)
  {
    assert [id][..0] == [];
    assert v.OnRemoveObjects([id]) == v.OnRemoveObjects([id][..0]).OnRemoveObject(id);
  }

  lemma {:induction false} AddOne(v: View, info: Info)
    ensures v.On(S_AddObject([info])) == v.OnAddObject(info)
  {
    assert [info][..0] == [];
    assert v.OnAddObjects([info]) == v.OnAddObjects([info][..0]).OnAddObject(info);
  }

  // ---------- the operations ----------

  lemma {:induction false} LoggedAgrees(r: Room, e: Event, stale: set<nat>)
    requires AllAgree(r, stale)
    ensures AllAgree(r.Logged(e), stale)
  {
  }

  /** Overwriting a record and announcing it keeps agreement. */
  lemma {:induction false} ChangeAnnounced(r: Room, id: nat, info: Info, stale: set<nat>)
    requires Inv(r) && AllAgree(r, stale) && r.Has(id)
    requires if id in r.players then GoodPlayer(id, info) else GoodMonster(id, info)
    ensures AllAgree(r.WithInfo(id, info).Broadcast(S_Move(info)), stale)
  {
    var r1 := r.WithInfo(id, info);
    WithInfoGoesStale(r, id, info, stale);
    WithInfoKeepsInv(r, id, info);
    AnnounceRefreshes(r1, id, stale + {id});
    MoreStale(r1.BroadcastMove(id), stale + {id} - {id}, stale);
  }

  /** Every object that left on the way has an id that the clients can look up. */
  ghost predicate Survives(r: Room, r': Room) {
    forall id :: r.Has(id) && !r'.Has(id) ==> Narrow(id) == id
  }

  /** What a step does to the views: they agree if every departure survives the clients'
      lookup, and each departure that does not leaves a ghost behind. */
  ghost predicate Outcome(r: Room, r': Room, stale: set<nat>) {
    && (Survives(r, r') ==> AllAgree(r', stale))
    && forall id :: r.Has(id) && !r'.Has(id) && Narrow(id) != id ==> Haunts(id, r')
  }

  lemma {:induction false} KeptOutcome(r: Room, r': Room, stale: set<nat>)
    requires AllAgree(r', stale) && forall id :: r.Has(id) ==> r'.Has(id)
    ensures Outcome(r, r', stale)
  {
  }

  lemma {:induction false} ErasedOutcome(r: Room, id: nat, stale: set<nat>)
    requires Inv(r) && AllAgree(r, stale) && r.Has(id)
    ensures Outcome(r, r.Erase(id).Broadcast(S_RemoveObject([id])), stale)
  {
    var r' := r.Erase(id).Broadcast(S_RemoveObject([id]));
    assert forall k :: r'.Has(k) <==> r.Has(k) && k != id;
    if Narrow(id) == id {
      DepartureAgrees(r, id, stale);
    } else {
      DepartureHaunts(r, id, stale);
      assert !Survives(r, r');
    }
  }

  lemma {:induction false} ApplyDamageOutcome(r: Room, attacker: nat, victim: nat, stale: set<nat>)
    requires Inv(r) && AllAgree(r, stale)
    ensures Outcome(r, r.ApplyDamage(attacker, victim), stale)
  {
    if r.Has(attacker) && r.Has(victim) {
      ApplyDamageEffect(r, attacker, victim);
      DamageIsBounded(r, attacker, victim);
      var hurt := Wounded(r.Get(attacker), r.Get(victim));
      var r1 := r.Logged(HitEvent(r, attacker, victim));
      LoggedAgrees(r, HitEvent(r, attacker, victim), stale);
      if hurt.hp > 0 {
        ChangeAnnounced(r1, victim, hurt, stale);
        KeptOutcome(r, r.ApplyDamage(attacker, victim), stale);
      } else {
        ErasedOutcome(r1, victim, stale);
        SameIds(r, r1, r.ApplyDamage(attacker, victim), stale);
      }
    } else {
      KeptOutcome(r, r, stale);
    }
  }

  lemma {:induction false} SameIds(r: Room, r1: Room, r': Room, stale: set<nat>)
    requires Outcome(r1, r', stale) && forall id :: r1.Has(id) <==> r.Has(id)
    ensures Outcome(r, r', stale)
  {
  }

  lemma {:induction false} SkillOutcome(r: Room, id: nat, stale: set<nat>)
    requires Inv(r) && AllAgree(r, stale) && id in r.players
    ensures Outcome(r, r.ProcessSkill(id), stale) && Inv(r.ProcessSkill(id))
    ensures r.ProcessSkill(id).Has(id) && r.ProcessSkill(id).Get(id) == r.Get(id)
  {
    var hit, victim := ProcessSkillEffect(r, id);
    if hit {
      ApplyDamageOutcome(r, id, victim, stale);
      ApplyDamageKeepsInv(r, id, victim);
      ApplyDamageEffect(r, id, victim);
    } else {
      KeptOutcome(r, r, stale);
    }
  }

  lemma {:induction false} HandleMoveOutcome(r: Room, pkt: Info)
    requires Inv(r) && AllAgree(r, {})
    ensures Outcome(r, r.HandleMove(pkt), {})
  {
    if r.Has(pkt.id) {
      var id := pkt.id;
      var before := r.Get(id);
      var after := Synced(before, pkt);
      SyncedIsGood(before, pkt);
      var r1 := r.WithInfo(id, after);
      WithInfoKeepsInv(r, id, after);
      WithInfoGoesStale(r, id, after, {});
      if before.kind == PlayerKind && before.state != Skill && after.state == Skill {
        SkillOutcome(r1, id, {} + {id});
        SameIds(r, r1, r1.ProcessSkill(id), {} + {id});
        AnnouncedOutcome(r, r1.ProcessSkill(id), id);
      } else {
        KeptOutcome(r, r1, {} + {id});
        AnnouncedOutcome(r, r1, id);
      }
    } else {
      KeptOutcome(r, r, {});
    }
  }

  lemma {:induction false} AnnouncedOutcome(r: Room, r1: Room, id: nat)
    requires Inv(r1) && Outcome(r, r1, {} + {id}) && r1.Has(id)
    ensures Outcome(r, r1.BroadcastMove(id), {})
  {
    var r' := r1.BroadcastMove(id);
    BroadcastKeepsObjects(r1, S_Move(r1.Get(id)));
    assert forall k :: r'.Has(k) <==> r1.Has(k);
    if Survives(r, r') {
      assert Survives(r, r1);
      AnnounceFresh(r1, id);
    }
    forall k | r.Has(k) && !r'.Has(k) && Narrow(k) != k
      ensures Haunts(k, r')
    {
      MoveHaunts(r1, k, r1.Get(id));
    }
  }

  lemma {:induction false} AnnounceFresh(r: Room, id: nat)
    requires Inv(r) && AllAgree(r, {} + {id}) && r.Has(id)
    ensures AllAgree(r.BroadcastMove(id), {})
  {
    AnnounceRefreshes(r, id, {} + {id});
    MoreStale(r.BroadcastMove(id), {} + {id} - {id}, {});
  }

  lemma {:induction false} RemoveOutcome(r: Room, id: nat)
    requires Inv(r) && AllAgree(r, {})
    ensures Outcome(r, r.Remove(id), {})
  {
    if r.Has(id) {
      RemoveIsErase(r, id);
      ErasedOutcome(r, id, {});
    } else {
      KeptOutcome(r, r, {});
    }
  }

  // ---------- entering ----------

  /** A list that holds every object once. */
  ghost predicate Lists(all: seq<Info>, objs: map<nat, Info>) {
    && (forall i :: 0 <= i < |all| ==> all[i].id in objs && objs[all[i].id] == all[i])
    && (forall i, j :: 0 <= i < j < |all| ==> all[i].id != all[j].id)
    && (forall id {:trigger Listed(all, id)} :: id in objs ==> Listed(all, id))
  }

  ghost predicate Listed(all: seq<Info>, id: nat) { exists i :: 0 <= i < |all| && all[i].id == id }

  lemma {:induction false} RecordsAreListed(all: seq<Info>, ids: seq<nat>, objs: map<nat, Info>)
    requires |all| == |ids|
    requires forall i :: 0 <= i < |ids| ==> ids[i] in objs && all[i] == objs[ids[i]] && all[i].id == ids[i]
    requires forall i, j :: 0 <= i < j < |ids| ==> ids[i] != ids[j]
    requires forall id :: id in objs ==> id in ids
    ensures Lists(all, objs)
  {
  }

  /** The ids of two disjoint sets, one after the other. */
  lemma {:induction false} RosterIsExact(ps: set<nat>, ms: set<nat>)
    requires ps !! ms
    ensures var ids := SortedIds(ps) + SortedIds(ms);
      && (forall i :: 0 <= i < |ids| ==> ids[i] in ps + ms)
      && (forall i, j :: 0 <= i < j < |ids| ==> ids[i] != ids[j])
      && (forall id :: id in ps + ms ==> id in ids)
  {
    var a, b := SortedIds(ps), SortedIds(ms);
    var ids := a + b;
    assert forall i :: 0 <= i < |a| ==> a[i] in ps;
    assert forall i :: 0 <= i < |b| ==> b[i] in ms;
    forall id | id in ps + ms
      ensures id in ids
    {
      assert id in a || id in b;
    }
  }

  lemma {:induction false} PlayersInOrder(r: Room)
    ensures var ps := SortedIds(r.players.Keys);
      |r.PlayerInfos(ps)| == |ps| && forall i :: 0 <= i < |ps| ==> r.Has(ps[i]) && r.PlayerInfos(ps)[i] == r.Get(ps[i])
  {
  }

  lemma {:induction false} MonstersInOrder(r: Room)
    requires Inv(r)
    ensures var ms := SortedIds(r.monsters.Keys);
      |r.MonsterInfos(ms)| == |ms| && forall i :: 0 <= i < |ms| ==> r.Has(ms[i]) && r.MonsterInfos(ms)[i] == r.Get(ms[i])
  {
  }

  lemma {:induction false} Joined(r: Room, a: seq<Info>, ps: seq<nat>, b: seq<Info>, ms: seq<nat>)
    requires |a| == |ps| && forall i :: 0 <= i < |ps| ==> r.Has(ps[i]) && a[i] == r.Get(ps[i])
    requires |b| == |ms| && forall i :: 0 <= i < |ms| ==> r.Has(ms[i]) && b[i] == r.Get(ms[i])
    ensures forall i :: 0 <= i < |ps + ms| ==> r.Has((ps + ms)[i]) && (a + b)[i] == r.Get((ps + ms)[i])
  {
  }

  lemma {:induction false} EveryoneInOrder(r: Room)
    requires Inv(r)
    ensures var ids := SortedIds(r.players.Keys) + SortedIds(r.monsters.Keys);
      && |r.Everyone()| == |ids|
      && forall i :: 0 <= i < |ids| ==> r.Has(ids[i]) && r.Everyone()[i] == r.Get(ids[i])
  {
    PlayersInOrder(r);
    MonstersInOrder(r);
    var ps, ms := SortedIds(r.players.Keys), SortedIds(r.monsters.Keys);
    Joined(r, r.PlayerInfos(ps), ps, r.MonsterInfos(ms), ms);
  }

  lemma {:induction false} EveryoneIsListed(r: Room)
    requires Inv(r)
    ensures Lists(r.Everyone(), Objects(r))
  {
    ObjectsAreGets(r);
    var ids := SortedIds(r.players.Keys) + SortedIds(r.monsters.Keys);
    RosterIsExact(r.players.Keys, r.monsters.Keys);
    EveryoneInOrder(r);
    RecordsAreListed(r.Everyone(), ids, Objects(r));
  }

  /** The list of a newcomer describes exactly the objects that were there before it. */
  lemma {:induction false} ListIsAdded(all: seq<Info>, objs: map<nat, Info>, info: Info)
    requires Lists(all, objs) && info.id !in objs
    ensures Added(map[info.id := info], all) == objs[info.id := info]
  {
    var start := map[info.id := info];
    AddedKeys(start, all);
    var a, b := Added(start, all), objs[info.id := info];
    forall k | k in b
      ensures k in a && a[k] == b[k]
    {
      if k != info.id {
        assert Listed(all, k);
        var i :| 0 <= i < |all| && all[i].id == k;
      }
    }
    assert a.Keys <= b.Keys;
  }

  lemma {:induction false} FirstMessages(info: Info, infos: seq<Info>)
    requires info.kind == PlayerKind && Healthy(info)
    ensures var sent := [S_EnterGame, S_MyPlayer(info), S_AddObject(infos)];
      Addressed(sent) && Fold(sent) == View(info.id, [Refreshed(Actor(info, Sword))]).OnAddObjects(infos)
  {
    Append([], S_EnterGame);
    Append([S_EnterGame], S_MyPlayer(info));
    Append([S_EnterGame, S_MyPlayer(info)], S_AddObject(infos));
    assert [] + [S_EnterGame] == [S_EnterGame];
    assert [S_EnterGame] + [S_MyPlayer(info)] == [S_EnterGame, S_MyPlayer(info)];
    assert [S_EnterGame, S_MyPlayer(info)] + [S_AddObject(infos)] == [S_EnterGame, S_MyPlayer(info), S_AddObject(infos)];
    assert EMPTY.OnMyPlayer(info).actors == [Refreshed(Actor(info, Sword))];
  }

  lemma {:induction false} AloneAgrees(info: Info)
    requires info.kind == PlayerKind && Healthy(info)
    ensures Agrees(View(info.id, [Refreshed(Actor(info, Sword))]), info.id, map[info.id := info], {})
  {
    RefreshKeepsInfoIff(Actor(info, Sword));
    var v := View(info.id, [Refreshed(Actor(info, Sword))]);
    assert v.actors[0].info == info;
  }

  lemma {:induction false} WelcomeShows(info: Info, all: seq<Info>, objs: map<nat, Info>)
    requires info.kind == PlayerKind && Healthy(info) && info.id !in objs && Lists(all, objs)
    requires forall i :: 0 <= i < |all| ==> all[i].kind != NoKind && Healthy(all[i])
    ensures Agrees(View(info.id, [Refreshed(Actor(info, Sword))]).OnAddObjects(all), info.id, objs[info.id := info], {})
  {
    AloneAgrees(info);
    ListIsAdded(all, objs, info);
    AddManyAgrees(View(info.id, [Refreshed(Actor(info, Sword))]), info.id, map[info.id := info], all);
  }

  lemma {:induction false} EveryoneIsHealthy(r: Room)
    requires Inv(r)
    ensures forall i :: 0 <= i < |r.Everyone()| ==> r.Everyone()[i].kind != NoKind && Healthy(r.Everyone()[i])
    ensures forall id :: id in Objects(r) <==> r.Has(id)
  {
    EveryoneIsListed(r);
    ObjectsAreGets(r);
  }

  /** What a newcomer is sent before its own arrival is announced shows the room with the
      newcomer in it. */
  lemma {:induction false} NewcomerAgrees(r: Room, info: Info)
    requires Inv(r) && !r.Has(info.id) && GoodPlayer(info.id, info)
    ensures SessionAgrees(r.Welcome(info), info.id, Objects(r)[info.id := info], {})
  {
    var all := r.Everyone();
    EveryoneIsListed(r);
    EveryoneIsHealthy(r);
    FirstMessages(info, all);
    WelcomeShows(info, all, Objects(r));
  }

  /** Its own arrival is news to everybody but the newcomer. */
  lemma {:induction false} ArrivalAgrees(v: View, me: nat, objs: map<nat, Info>, info: Info)
    requires info.kind == PlayerKind && Healthy(info)
    requires if info.id == me then Agrees(v, me, objs[info.id := info], {}) else info.id !in objs && Agrees(v, me, objs, {})
    ensures Agrees(v.On(S_AddObject([info])), me, objs[info.id := info], {})
  {
    AddOne(v, info);
    if info.id != me { AddAgrees(v, me, objs, {}, info); }
  }

  lemma {:induction false} ObjectsOfSeated(r: Room, info: Info, sent: seq<Message>)
    requires Inv(r) && info.id == r.nextId
    ensures Objects(r.Seated(info, sent)) == Objects(r)[info.id := info]
  {
  }

  lemma {:induction false} SeatedAgrees(r: Room, info: Info, sent: seq<Message>)
    requires Inv(r) && AllAgree(r, {}) && GoodPlayer(r.nextId, info)
    requires SessionAgrees(sent, info.id, Objects(r)[info.id := info], {})
    ensures AllAgree(r.Seated(info, sent).Broadcast(S_AddObject([info])), {})
  {
    var msg := S_AddObject([info]);
    var r1 := r.Seated(info, sent);
    var r2 := r1.Broadcast(msg);
    var objs := Objects(r);
    ObjectsAreGets(r);
    ObjectsOfSeated(r, info, sent);
    ObjectsOfBroadcast(r1, msg);
    BroadcastKeepsObjects(r1, msg);
    forall p | p in r2.players
      ensures SessionAgrees(r2.players[p].sent, p, objs[info.id := info], {})
    {
      Append(r1.players[p].sent, msg);
      ArrivalAgrees(Fold(r1.players[p].sent), p, objs, info);
    }
  }

  lemma {:induction false} EnterAgrees(r: Room)
    requires Inv(r) && AllAgree(r, {})
    ensures AllAgree(r.Enter(), {})
  {
    var info := r.NewPlayer();
    NewPlayerIsGood(r);
    NewcomerAgrees(r, info);
    SeatedAgrees(r, info, r.Welcome(info));
  }

  // ---------- monsters ----------

  lemma {:induction false} RestAgrees(r: Room, id: nat)
    requires Inv(r) && AllAgree(r, {}) && id in r.monsters && r.monsters[id].info.state == Move
    ensures AllAgree(r.Calmed(id), {})
  {
    var r' := r.Calmed(id);
    assert r' == r.WithInfo(id, r'.Get(id));
    ObjectsOfWithInfo(r, id, r'.Get(id));
    ObjectsAreGets(r);
    forall p | p in r.players
      ensures SessionAgrees(r.players[p].sent, p, Objects(r'), {})
    {
      RestIsTolerated(Fold(r.players[p].sent), p, Objects(r), id);
    }
  }

  /** A monster coming to rest is the one change a view need not be told. */
  lemma {:induction false} RestIsTolerated(v: View, me: nat, objs: map<nat, Info>, id: nat)
    requires Agrees(v, me, objs, {}) && id in objs && objs[id].kind == MonsterKind && objs[id].state == Move
    ensures Agrees(v, me, objs[id := objs[id].(state := Idle)], {})
  {
  }

  lemma {:induction false} TargetAgrees(r: Room, id: nat, t: Option<nat>, stale: set<nat>)
    requires AllAgree(r, stale) && id in r.monsters
    ensures AllAgree(r.WithTarget(id, t), stale)
  {
  }

  lemma {:induction false} WaitAgrees(r: Room, id: nat, wait: nat, stale: set<nat>)
    requires AllAgree(r, stale) && id in r.monsters
    ensures AllAgree(r.WithWait(id, wait), stale)
  {
    UnseenKeepsAgreement(r, r.WithWait(id, wait), stale);
  }

  lemma {:induction false} StartSkillAgrees(r: Room, id: nat, at: Cell, now: nat)
    requires Inv(r) && AllAgree(r, {}) && id in r.monsters
    ensures AllAgree(r.StartSkill(id, at, now), {})
  {
    var info := r.Turned(id, at).(state := Skill);
    var r1 := r.WithWait(id, now + 1000);
    WaitAgrees(r, id, now + 1000, {});
    ChangeAnnounced(r1, id, info, {});
    assert r1.WithInfo(id, info) == r.WithInfo(id, info).WithWait(id, now + 1000);
  }

  lemma {:induction false} StartMoveAgrees(r: Room, id: nat, to: Cell, now: nat)
    requires Inv(r) && AllAgree(r, {}) && id in r.monsters
    ensures AllAgree(r.StartMove(id, to, now), {})
  {
    var info := r.Turned(id, to).(pos := to, state := Move);
    var r1 := r.WithWait(id, now + 1000).Logged(MonsterMoved(id, now));
    WaitAgrees(r, id, now + 1000, {});
    LoggedAgrees(r.WithWait(id, now + 1000), MonsterMoved(id, now), {});
    ChangeAnnounced(r1, id, info, {});
    assert r1.WithInfo(id, info) == r.WithInfo(id, info).WithWait(id, now + 1000).Logged(MonsterMoved(id, now));
  }

  lemma {:induction false} IdleAgrees(r: Room, id: nat, now: nat, path: seq<Cell>)
    requires Inv(r) && AllAgree(r, {}) && id in r.monsters && r.monsters[id].info.state == Idle
    requires r.IdleQuery(id).Some? ==> r.IdleQuery(id).value.IsAnswer(path)
    ensures AllAgree(r.UpdateIdle(id, now, path), {})
  {
    UpdateIdleEffect(r, id, now, path);
    ClosestIsPlayer(r, id);
    var t := r.ChosenTarget(id);
    var r1 := r.WithTarget(id, t);
    TargetKeepsInv(r, id, t);
    TargetAgrees(r, id, t, {});
    if t.Some? && Dist(r.players[t.value].info.pos, r.monsters[id].info.pos) == 1 {
      StartSkillAgrees(r1, id, r.players[t.value].info.pos, now);
    } else if r.IdleQuery(id).Some? && |path| > 1 {
      StartMoveAgrees(r1, id, path[1], now);
    }
  }

  lemma {:induction false} StrikeOutcome(r: Room, id: nat, stale: set<nat>)
    requires Inv(r) && AllAgree(r, stale) && id in r.monsters
    ensures Outcome(r, r.Strike(id), stale)
  {
    var t := r.Lock(r.monsters[id].target);
    if t.Some? && Dist(r.players[t.value].info.pos, r.monsters[id].info.pos) == 1 {
      var r1 := r.ApplyDamage(id, t.value);
      ApplyDamageOutcome(r, id, t.value, stale);
      if t.value !in r1.players && id in r1.monsters {
        TargetOutcome(r, r1, id, stale);
      }
    } else {
      TargetAgrees(r, id, None, stale);
      KeptOutcome(r, r.Strike(id), stale);
    }
  }

  lemma {:induction false} TargetOutcome(r: Room, r1: Room, id: nat, stale: set<nat>)
    requires Outcome(r, r1, stale) && id in r1.monsters
    ensures Outcome(r, r1.WithTarget(id, None), stale)
  {
    var r' := r1.WithTarget(id, None);
    assert r'.players == r1.players && forall k :: r'.Has(k) <==> r1.Has(k);
    if Survives(r, r') {
      assert Survives(r, r1);
      TargetAgrees(r1, id, None, stale);
    }
    assert forall k :: Haunts(k, r1) ==> Haunts(k, r');
  }

  lemma {:induction false} SkillTickOutcome(r: Room, id: nat, now: nat)
    requires Inv(r) && AllAgree(r, {}) && id in r.monsters
    ensures Outcome(r, r.UpdateSkill(id, now), {})
  {
    if r.monsters[id].waitUntil <= now {
      var calm := r.Calmed(id);
      assert calm == r.WithInfo(id, calm.Get(id));
      WithInfoGoesStale(r, id, calm.Get(id), {});
      WithInfoKeepsInv(r, id, calm.Get(id));
      StrikeOutcome(calm, id, {} + {id});
      StrikeKeepsInv(calm, id);
      StrikeFrame(calm, id);
      SameIds(r, calm, calm.Strike(id), {} + {id});
      AnnouncedOutcome(r, calm.Strike(id), id);
    } else {
      KeptOutcome(r, r, {});
    }
  }

  lemma {:induction false} TickOutcome(r: Room, id: nat, now: nat, path: seq<Cell>)
    requires Inv(r) && AllAgree(r, {}) && Enabled(r, Label.Tick(id, now, path))
    ensures Outcome(r, r.Tick(id, now, path), {})
  {
    var r1 := r.(clock := now);
    UnseenKeepsAgreement(r, r1, {});
    match r.monsters[id].info.state
    case Idle =>
      ClockIsIrrelevant(r, id, now);
      IdleAgrees(r1, id, now, path);
      IdleKeepsIds(r1, id, now, path);
      KeptOutcome(r, r.Tick(id, now, path), {});
    case Move =>
      RestAgrees(r1, id);
      KeptOutcome(r, r.Tick(id, now, path), {});
    case Skill =>
      SkillTickOutcome(r1, id, now);
      SameIds(r, r1, r.Tick(id, now, path), {});
    case UnknownState(_) =>
      KeptOutcome(r, r1, {});
  }

  lemma {:induction false} IdleKeepsIds(r: Room, id: nat, now: nat, path: seq<Cell>)
    requires Inv(r) && id in r.monsters && r.monsters[id].info.state == Idle
    requires r.IdleQuery(id).Some? ==> r.IdleQuery(id).value.IsAnswer(path)
    ensures forall k :: r.Has(k) ==> r.UpdateIdle(id, now, path).Has(k)
  {
    UpdateIdleEffect(r, id, now, path);
  }

  // ---------- runs ----------

  lemma {:induction false} NextOutcome(r: Room, l: Label)
    requires Inv(r) && AllAgree(r, {}) && Enabled(r, l)
    ensures Outcome(r, Next(r, l), {})
  {
    match l
    case Enter =>
      EnterAgrees(r);
      KeptOutcome(r, r.Enter(), {});
    case Leave(id) =>
      if id in r.players { RemoveOutcome(r, id); } else { KeptOutcome(r, r, {}); }
    case Handle(pkt) => HandleMoveOutcome(r, pkt);
    case Tick(id, now, path) => TickOutcome(r, id, now, path);
  }

  /** The step's departures reach their audience: each has an id that survives the clients'
      lookup, unless there is no client left. */
  ghost predicate WellTold(r: Room, r': Room) {
    Survives(r, r') || r'.players.Keys == {}
  }

  /** Exactly the well-told steps keep every view in agreement. */
  lemma {:induction false} NextAgreesIff(r: Room, l: Label)
    requires Inv(r) && AllAgree(r, {}) && Enabled(r, l)
    ensures AllAgree(Next(r, l), {}) <==> WellTold(r, Next(r, l))
  {
    NextOutcome(r, l);
    var r' := Next(r, l);
    if !WellTold(r, r') {
      var id :| r.Has(id) && !r'.Has(id) && Narrow(id) != id;
      HauntedDisagrees(r', id, {});
    }
  }

  ghost predicate WellToldRun(states: seq<Room>, n: nat)
    requires n < |states|
  {
    forall i :: 0 <= i < n ==> WellTold(states[i], states[i + 1])
  }

  /** Up to a point of any run: every session whose player is in the room has been told the
      room all along, that is, its view shows each object once, as it is, except that a
      resting monster may still be shown moving, and no move or removal ever named an
      object that the view lacked; if and only if every departure on the way was well told. */
  lemma {:induction false} RunsAgreeIff(tilemap: Tilemap, states: seq<Room>, labels: seq<Label>, n: nat)
    requires IsRun(states, labels) && states[0] == Init(tilemap) && n < |states|
    ensures Inv(states[n])
    ensures (forall i :: 0 <= i <= n ==> AllAgree(states[i], {})) <==> WellToldRun(states, n)
  {
    if n > 0 {
      var k := n - 1;
      RunsAgreeIff(tilemap, states, labels, k);
      assert StepAt(states, labels, k);
      NextKeepsInv(states[k], labels[k]);
      if AllAgree(states[k], {}) {
        NextAgreesIff(states[k], labels[k]);
      }
    }
  }

  /** In particular as long as only ids below 2^31 have been given out. */
  lemma {:induction false} RunsAgree(tilemap: Tilemap, states: seq<Room>, labels: seq<Label>, i: nat)
    requires IsRun(states, labels) && states[0] == Init(tilemap) && i < |states|
    requires forall k :: 0 <= k < i ==> states[k].nextId <= 0x8000_0000
    ensures Inv(states[i]) && AllAgree(states[i], {})
  {
    forall k | 0 <= k < i
      ensures WellTold(states[k], states[k + 1])
    {
      RunsKeepInv(tilemap, states, labels, k);
    }
    RunsAgreeIff(tilemap, states, labels, i);
  }
}
