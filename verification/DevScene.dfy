/** The client's scene in imperative form.  Each handler is proved to do what the view of
    Replica does. */
module ClientScene {
  import opened Geometry
  import opened Ordered
  import opened Protocol
  import opened Replica

  class DevScene {
    var myPlayerId: nat
    var actors: seq<Actor>

    ghost function Shown(): View
      reads this
    {
      View(myPlayerId, actors)
    }

    constructor ()
      ensures Shown() == EMPTY
    {
      myPlayerId, actors := 0, [];
    }

    /** The scan of the object layer. */
    method GetObject(id: nat) returns (found: bool, index: nat)
      ensures Shown().Find(id) == if found then Some(index) else None
    {
      found, index := false, 0;
      while index < |actors|
        invariant index <= |actors|
        invariant Shown().Find(id) == Shown().FindFrom(id, index)
      {
        if actors[index].info.id == id {
          return true, index;
        }
        index := index + 1;
      }
    }

    static method RefreshStatFromInfo(actor: Actor) returns (a: Actor)
      ensures a == Refreshed(actor)
    {
      var info := actor.info;
      var resolvedType := ResolveWeaponType(info.attack, actor.weapon);
      var baseStat := GetWeaponBaseStat(resolvedType);
      var stat := baseStat;

      var maxHp := info.maxHp;
      if maxHp <= 0 {
        maxHp := baseStat.maxHp;
      }
      stat := stat.(maxHp := maxHp);

      var hp := info.hp;
      if hp < 0 {
        hp := 0;
      }
      if hp == 0 && info.maxHp == 0 {
        hp := stat.maxHp;
      }
      if hp > stat.maxHp {
        hp := stat.maxHp;
      }
      stat := stat.(hp := hp);

      var attack := info.attack;
      if attack == 0 {
        attack := baseStat.attack;
      }
      stat := stat.(attack := attack);

      var defence := info.defence;
      if defence == 0 {
        defence := baseStat.defence;
      }
      stat := stat.(defence := defence);

      a := Actor(SyncInfoWithStat(info, stat), resolvedType);
    }

    method Handle_S_MyPlayer(info: Info)
      modifies this
      ensures Shown() == old(Shown()).OnMyPlayer(info)
    {
      var player := Actor(info, Sword);
      player := RefreshStatFromInfo(player);
      actors := actors + [player];
      myPlayerId := info.id;
    }

    method Spawn(info: Info)
      modifies this`actors
      ensures Shown() == old(Shown()).OnAddObject(info)
    {
      if myPlayerId == info.id {
        return;
      }
      if info.kind == PlayerKind {
        var player := RefreshStatFromInfo(Actor(info, Sword));
        player := player.(info := player.info.(dir := info.dir));
        player := player.(info := player.info.(state := info.state));
        actors := actors + [player];
      } else if info.kind == MonsterKind {
        actors := actors + [Actor(info, Sword)];
      }
    }

    method Handle_S_AddObject(objects: seq<Info>)
      modifies this`actors
      ensures Shown() == old(Shown()).OnAddObjects(objects)
    {
      for i := 0 to |objects|
        invariant Shown() == old(Shown()).OnAddObjects(objects[..i])
      {
        assert objects[..i + 1][..i] == objects[..i];
        Spawn(objects[i]);
      }
      assert objects[..|objects|] == objects;
    }

    method RemoveOne(id: nat)
      modifies this`actors
      ensures Shown() == old(Shown()).OnRemoveObject(id)
    {
      var found, index := GetObject(Narrow(id));
      if found {
        actors := actors[..index] + actors[index + 1..];
      }
    }

    method Handle_S_RemoveObject(ids: seq<nat>)
      modifies this`actors
      ensures Shown() == old(Shown()).OnRemoveObjects(ids)
    {
      for i := 0 to |ids|
        invariant Shown() == old(Shown()).OnRemoveObjects(ids[..i])
      {
        assert ids[..i + 1][..i] == ids[..i];
        RemoveOne(ids[i]);
      }
      assert ids[..|ids|] == ids;
    }

    method Handle_S_Move(info: Info)
      modifies this`actors
      ensures Shown() == old(Shown()).OnMove(info)
    {
      var found, index := GetObject(info.id);
      if !found {
        return;
      }
      var isMyPlayer := myPlayerId == info.id;
      var a := actors[index];
      a := a.(info := a.info.(attack := info.attack));
      a := a.(info := a.info.(defence := info.defence));
      a := a.(info := a.info.(hp := info.hp));
      a := a.(info := a.info.(maxHp := info.maxHp));
      if a.info.kind == PlayerKind {
        a := RefreshStatFromInfo(a);
      }
      if !isMyPlayer {
        a := a.(info := a.info.(dir := info.dir));
        a := a.(info := a.info.(state := info.state));
        a := a.(info := a.info.(pos := info.pos));
      }
      actors := actors[index := a];
    }

    method HandlePacket(msg: Message)
      modifies this
      ensures Shown() == old(Shown()).On(msg)
    {
      match msg {
        case S_EnterGame =>
        case S_MyPlayer(info) => Handle_S_MyPlayer(info);
        case S_AddObject(objects) => Handle_S_AddObject(objects);
        case S_RemoveObject(ids) => Handle_S_RemoveObject(ids);
        case S_Move(info) => Handle_S_Move(info);
      }
    }

    /** The session's receive loop: one message after the other. */
    method HandleAll(msgs: seq<Message>)
      requires Shown() == EMPTY
      modifies this
      ensures Shown() == Fold(msgs)
    {
      for i := 0 to |msgs|
        invariant Shown() == Fold(msgs[..i])
      {
        assert msgs[..i + 1][..i] == msgs[..i];
        HandlePacket(msgs[i]);
      }
      assert msgs[..|msgs|] == msgs;
    }
  }
}
