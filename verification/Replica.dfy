/** The client's view of a room: what each server message does to it. */
module Replica {
  import opened Geometry
  import opened Ordered
  import opened Protocol

  // ---------- weapons and stats ----------

  datatype WeaponType = Sword | Bow | Staff

  datatype Stat = Stat(hp: int, maxHp: int, attack: int, defence: int, speed: int)

  function GetWeaponBaseStat(w: WeaponType): Stat {
    match w
    case Sword => Stat(100, 100, 15, 5, 200)
    case Bow => Stat(100, 100, 12, 3, 220)
    case Staff => Stat(100, 100, 18, 2, 180)
  }

  function ResolveWeaponType(attack: int, current: WeaponType): WeaponType {
    if attack == GetWeaponBaseStat(Sword).attack then Sword
    else if attack == GetWeaponBaseStat(Bow).attack then Bow
    else if attack == GetWeaponBaseStat(Staff).attack then Staff
    else current
  }

  function SyncInfoWithStat(info: Info, s: Stat): Info {
    info.(hp := s.hp, maxHp := s.maxHp, attack := s.attack, defence := s.defence)
  }

  /** An object of the scene.  Its class is fixed when it is spawned, from `info.kind`;
      only players carry a weapon. */
  datatype Actor = Actor(info: Info, weapon: WeaponType)

  function RefreshedStat(a: Actor): Stat {
    var info := a.info;
    var base := GetWeaponBaseStat(ResolveWeaponType(info.attack, a.weapon));
    var maxHp := if info.maxHp <= 0 then base.maxHp else info.maxHp;
    var hp0 := if info.hp < 0 then 0 else info.hp;
    var hp1 := if hp0 == 0 && info.maxHp == 0 then maxHp else hp0;
    var hp2 := if hp1 > maxHp then maxHp else hp1;
    Stat(hp2, maxHp,
         if info.attack == 0 then base.attack else info.attack,
         if info.defence == 0 then base.defence else info.defence,
         base.speed)
  }

  /** `Player::RefreshStatFromInfo`: derive the stat from the record and write it back. */
  function Refreshed(a: Actor): Actor {
    Actor(SyncInfoWithStat(a.info, RefreshedStat(a)), ResolveWeaponType(a.info.attack, a.weapon))
  }

  /** A player's record survives the refresh exactly if its hit points are within its
      positive maximum and its combat stats are not zero. */
  lemma {:induction false} RefreshKeepsInfoIff(a: Actor)
    ensures Refreshed(a).info == a.info <==>
              a.info.maxHp > 0 && 0 <= a.info.hp <= a.info.maxHp && a.info.attack != 0 && a.info.defence != 0
  {
  }

  // ---------- the view ----------

  /** `me` is the id of the client's own player, 0 before it is known. */
  datatype View = View(me: nat, actors: seq<Actor>) {

    /** The position of the first actor with an id. */
    function Find(id: nat): Option<nat> { FindFrom(id, 0) }

    function FindFrom(id: nat, from: nat): (r: Option<nat>)
      requires from <= |actors|
      ensures r.Some? ==> from <= r.value < |actors| && actors[r.value].info.id == id
      ensures r.Some? ==> forall i :: from <= i < r.value ==> actors[i].info.id != id
      ensures r.None? ==> forall i :: from <= i < |actors| ==> actors[i].info.id != id
      decreases |actors| - from
    {
      if from == |actors| then None
      else if actors[from].info.id == id then Some(from)
      else FindFrom(id, from + 1)
    }

    predicate Shows(id: nat) { exists i :: 0 <= i < |actors| && actors[i].info.id == id }

    function OnMyPlayer(info: Info): View {
      View(info.id, actors + [Refreshed(Actor(info, Sword))])
    }

    function OnAddObject(info: Info): View {
      if info.id == me then this
      else match info.kind
        case PlayerKind => this.(actors := actors + [Refreshed(Actor(info, Sword)).(info := SpawnedPlayer(info))])
        case MonsterKind => this.(actors := actors + [Actor(info, Sword)])
        case NoKind => this
    }

    /** The refreshed record, with direction and state set once more from the message. */
    function SpawnedPlayer(info: Info): Info {
      Refreshed(Actor(info, Sword)).info.(dir := info.dir, state := info.state)
    }

    function OnAddObjects(infos: seq<Info>): View
      decreases |infos|
    {
      if infos == [] then this
      else OnAddObjects(infos[..|infos| - 1]).OnAddObject(infos[|infos| - 1])
    }

    function OnRemoveObject(id: nat): View {
      match Find(Narrow(id))
      case None => this
      case Some(i) => this.(actors := actors[..i] + actors[i + 1..])
    }

    function OnRemoveObjects(ids: seq<nat>): View
      decreases |ids|
    {
      if ids == [] then this
      else OnRemoveObjects(ids[..|ids| - 1]).OnRemoveObject(ids[|ids| - 1])
    }

    function OnMove(info: Info): View {
      match Find(info.id)
      case None => this
      case Some(i) => this.(actors := actors[i := MovedActor(actors[i], info, me)])
    }

    function On(msg: Message): View {
      match msg
      case S_EnterGame => this
      case S_MyPlayer(info) => OnMyPlayer(info)
      case S_AddObject(infos) => OnAddObjects(infos)
      case S_RemoveObject(ids) => OnRemoveObjects(ids)
      case S_Move(info) => OnMove(info)
    }
  }

  /** Everybody takes over the health and combat stats; the client's own player keeps its
      own position, direction and state. */
  function MovedActor(a: Actor, info: Info, me: nat): Actor {
    var b := a.(info := a.info.(attack := info.attack, defence := info.defence, hp := info.hp, maxHp := info.maxHp));
    var c := if a.info.kind == PlayerKind then Refreshed(b) else b;
    if me == info.id then c
    else c.(info := c.info.(dir := info.dir, state := info.state, pos := info.pos))
  }

  /** A removed id passes through a 32-bit signed variable on its way to the lookup. */
  function Narrow(id: nat): nat {
    var low := id % 0x1_0000_0000;
    if low < 0x8000_0000 then low else low + 0x1_0000_0000_0000_0000 - 0x1_0000_0000
  }

  /** Among the ids of 64 bits the narrowing keeps exactly those below 2^31, and those
      whose upper 33 bits are all set. */
  lemma {:induction false} NarrowKeepsIff(id: nat)
    requires id < 0x1_0000_0000_0000_0000
    ensures Narrow(id) == id <==> id < 0x8000_0000 || id >= 0x1_0000_0000_0000_0000 - 0x8000_0000
  {
  }

  // ---------- what the handlers do to the records ----------

  /** What the refresh makes of a player's record: the maximum defaults to 100, the hit points
      are brought between 0 and it (a record without either starts full), a missing attack or
      defence comes from the weapon, and the weapon from the attack, if that is known. */
  lemma {:induction false} RefreshOutcome(a: Actor)
    ensures var i, f := a.info, Refreshed(a).info;
      && f.id == i.id && f.kind == i.kind && f.pos == i.pos && f.dir == i.dir && f.state == i.state
      && (i.maxHp > 0 ==> f.maxHp == i.maxHp) && (i.maxHp <= 0 ==> f.maxHp == 100)
      && (0 <= i.hp <= f.maxHp && (i.hp > 0 || i.maxHp != 0) ==> f.hp == i.hp)
      && (i.hp > f.maxHp ==> f.hp == f.maxHp)
      && (i.hp <= 0 ==> f.hp == if i.maxHp == 0 then 100 else 0)
      && (i.attack != 0 ==> f.attack == i.attack) && (i.defence != 0 ==> f.defence == i.defence)
    ensures var i, b := a.info, Refreshed(a);
      && (i.attack == 15 ==> b.weapon == Sword) && (i.attack == 12 ==> b.weapon == Bow) && (i.attack == 18 ==> b.weapon == Staff)
      && (i.attack !in {12, 15, 18} ==> b.weapon == a.weapon)
      && (i.attack == 0 ==> b.info.attack == if a.weapon == Sword then 15 else if a.weapon == Bow then 12 else 18)
      && (i.defence == 0 ==> b.info.defence == if b.weapon == Sword then 5 else if b.weapon == Bow then 3 else 2)
  {
  }

  /** S_Move about a shown object: everybody takes over the health and combat stats, players
      by way of the refresh; the client's own player stands, looks and acts as it did, and
      everybody else as the message says.  Nobody else changes. */
  lemma {:induction false} MoveOutcome(v: View, info: Info, i: nat)
    requires i < |v.actors| && v.actors[i].info.id == info.id
    requires forall k :: 0 <= k < i ==> v.actors[k].info.id != info.id
    ensures var v' := v.OnMove(info);
      && v'.me == v.me && |v'.actors| == |v.actors| && forall k :: 0 <= k < |v.actors| && k != i ==> v'.actors[k] == v.actors[k]
    ensures var a, b := v.actors[i].info, v.OnMove(info).actors[i].info;
      && b.id == a.id && b.kind == a.kind
      && (v.me == info.id ==> b.pos == a.pos && b.dir == a.dir && b.state == a.state)
      && (v.me != info.id ==> b.pos == info.pos && b.dir == info.dir && b.state == info.state)
      && (a.kind != PlayerKind ==>
            b.hp == info.hp && b.maxHp == info.maxHp && b.attack == info.attack && b.defence == info.defence)
      && (a.kind == PlayerKind && info.maxHp > 0 && 0 <= info.hp <= info.maxHp && info.attack != 0 && info.defence != 0 ==>
            b.hp == info.hp && b.maxHp == info.maxHp && b.attack == info.attack && b.defence == info.defence)
  {
    assert v.Find(info.id) == Some(i);
  }

  /** S_MyPlayer: the client remembers its id, and its own player, a sword bearer unless the
      attack says otherwise, joins at the end of what is shown. */
  lemma {:induction false} MyPlayerOutcome(v: View, info: Info)
    ensures var v' := v.OnMyPlayer(info);
      && v'.me == info.id && |v'.actors| == |v.actors| + 1 && v'.actors[..|v.actors|] == v.actors
      && var a := v'.actors[|v.actors|];
         && a.info.id == info.id && a.info.kind == info.kind
         && a.info.pos == info.pos && a.info.dir == info.dir && a.info.state == info.state
         && (info.attack == 12 ==> a.weapon == Bow) && (info.attack == 18 ==> a.weapon == Staff)
         && (info.attack != 12 && info.attack != 18 ==> a.weapon == Sword)
  {
  }

  /** A removal: of the shown objects with the id, if it is below 2^31, the first goes, and the
      others keep their order; if there is none, nothing happens. */
  lemma {:induction false} RemoveOutcome(v: View, id: nat, i: nat)
    requires id < 0x8000_0000 && i <= |v.actors|
    requires forall k :: 0 <= k < i ==> v.actors[k].info.id != id
    requires i < |v.actors| ==> v.actors[i].info.id == id
    ensures v.OnRemoveObject(id) == if i == |v.actors| then v else View(v.me, v.actors[..i] + v.actors[i + 1..])
  {
    assert i < |v.actors| ==> v.Find(id) == Some(i);
  }

  /** An added object: ignored if it is the client's own player or of no kind; otherwise it
      joins at the end, where the message says and, if its record is in order, as it says. */
  lemma {:induction false} AddOutcome(v: View, info: Info)
    ensures info.id == v.me || info.kind == NoKind ==> v.OnAddObject(info) == v
    ensures info.id != v.me && info.kind != NoKind ==>
      var v' := v.OnAddObject(info);
      && v'.me == v.me && |v'.actors| == |v.actors| + 1 && v'.actors[..|v.actors|] == v.actors
      && var a := v'.actors[|v.actors|].info;
         && a.id == info.id && a.kind == info.kind && a.pos == info.pos && a.dir == info.dir && a.state == info.state
         && (info.kind == MonsterKind ==> a == info)
         && (info.maxHp > 0 && 0 <= info.hp <= info.maxHp && info.attack != 0 && info.defence != 0 ==> a == info)
  {
  }

  const EMPTY := View(0, [])

  /** The view of a client that has handled these messages. */
  function Fold(msgs: seq<Message>): View {
    if msgs == [] then EMPTY else Fold(msgs[..|msgs| - 1]).On(msgs[|msgs| - 1])
  }

  /** Move and removal messages name only ids that the view shows when they arrive. */
  predicate NamesKnown(v: View, msg: Message) {
    match msg
    case S_Move(info) => v.Shows(info.id)
    case S_RemoveObject(ids) => forall i :: 0 <= i < |ids| ==> v.Shows(ids[i])
    case _ => true
  }

  predicate Addressed(msgs: seq<Message>) {
    msgs == [] || (Addressed(msgs[..|msgs| - 1]) && NamesKnown(Fold(msgs[..|msgs| - 1]), msgs[|msgs| - 1]))
  }
}
