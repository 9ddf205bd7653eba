/** Whose word counts for the client's own player: no message of the server moves it. */
module OwnPose {
  import opened Geometry
  import opened Ordered
  import opened Protocol
  import opened TilemapModel
  import opened RoomSpec
  import opened RoomInvariant
  import opened Replica
  import opened RoomBehaviour

  // ---------- messages ----------

  /** Every actor that is the client's own player stands, looks and acts like this. */
  ghost predicate OwnPoseIs(v: View, pos: Cell, dir: Dir, state: State) {
    forall i :: 0 <= i < |v.actors| && v.actors[i].info.id == v.me ==>
      v.actors[i].info.pos == pos && v.actors[i].info.dir == dir && v.actors[i].info.state == state
  }

  /** No message but S_MyPlayer changes the pose of the client's own player. */
  lemma {:induction false} OwnPoseIsKept(v: View, msg: Message, pos: Cell, dir: Dir, state: State)
    requires OwnPoseIs(v, pos, dir, state) && !msg.S_MyPlayer?
    ensures OwnPoseIs(v.On(msg), pos, dir, state) && v.On(msg).me == v.me
  {
    match msg
    case S_EnterGame =>
    case S_AddObject(infos) => AddKeepsOwnPose(v, infos, pos, dir, state);
    case S_RemoveObject(ids) => RemoveKeepsOwnPose(v, ids, pos, dir, state);
    case S_Move(info) =>
      if v.Find(info.id).Some? {
        Replica.MoveOutcome(v, info, v.Find(info.id).value);
      }
  }

  lemma {:induction false} AddKeepsOwnPose(v: View, infos: seq<Info>, pos: Cell, dir: Dir, state: State)
    requires OwnPoseIs(v, pos, dir, state)
    ensures OwnPoseIs(v.OnAddObjects(infos), pos, dir, state) && v.OnAddObjects(infos).me == v.me
    decreases |infos|
  {
    if infos != [] {
      var n := |infos| - 1;
      AddKeepsOwnPose(v, infos[..n], pos, dir, state);
      AddOutcome(v.OnAddObjects(infos[..n]), infos[n]);
    }
  }

  lemma {:induction false} RemoveKeepsOwnPose(v: View, ids: seq<nat>, pos: Cell, dir: Dir, state: State)
    requires OwnPoseIs(v, pos, dir, state)
    ensures OwnPoseIs(v.OnRemoveObjects(ids), pos, dir, state) && v.OnRemoveObjects(ids).me == v.me
    decreases |ids|
  {
    if ids != [] {
      RemoveKeepsOwnPose(v, ids[..|ids| - 1], pos, dir, state);
    }
  }

  /** The messages of one session: S_MyPlayer comes second, and never again. */
  ghost predicate Greeted(sent: seq<Message>, me: Info) {
    && |sent| >= 2 && sent[0] == S_EnterGame && sent[1] == S_MyPlayer(me)
    && forall i :: 2 <= i < |sent| ==> !sent[i].S_MyPlayer?
  }

  lemma {:induction false} GreetedKeepsPose(sent: seq<Message>, me: Info)
    requires Greeted(sent, me)
    ensures Fold(sent).me == me.id && OwnPoseIs(Fold(sent), me.pos, me.dir, me.state)
    decreases |sent|
  {
    var n := |sent| - 1;
    if |sent| == 2 {
      assert sent[..1][..0] == [] && Fold(sent[..1]) == Fold(sent[..1][..0]).On(sent[0]);
      assert Fold(sent) == EMPTY.OnMyPlayer(me);
      RefreshOutcome(Actor(me, Sword));
    } else {
      GreetedKeepsPose(sent[..n], me);
      OwnPoseIsKept(Fold(sent[..n]), sent[n], me.pos, me.dir, me.state);
    }
  }

  // ---------- runs ----------

  /** The record with which a player enters. */
  function Newborn(id: nat): Info { Info(id, PlayerKind, Idle, Up, 100, 100, 15, 5, Cell(5, 5)) }

  ghost predicate AllGreeted(r: Room) {
    forall p :: p in r.players ==> Greeted(r.players[p].sent, Newborn(p))
  }

  /** Everybody who stays is sent the same messages, and no S_MyPlayer among them. */
  ghost predicate Speaks(r: Room, r': Room) {
    exists msgs :: Told(r, r', msgs) && NoGreeting(msgs)
  }

  ghost predicate NoGreeting(msgs: seq<Message>) {
    forall i :: 0 <= i < |msgs| ==> !msgs[i].S_MyPlayer?
  }

  lemma {:induction false} SpeaksThis(r: Room, r': Room, msgs: seq<Message>)
    requires Told(r, r', msgs) && NoGreeting(msgs)
    ensures Speaks(r, r')
  {
  }

  lemma {:induction false} SpokenStaysGreeted(r: Room, r': Room)
    requires AllGreeted(r) && Speaks(r, r')
    ensures AllGreeted(r')
  {
    var msgs :| Told(r, r', msgs) && NoGreeting(msgs);
    forall p | p in r'.players
      ensures Greeted(r'.players[p].sent, Newborn(p))
    {
      assert r'.players[p].sent == r.players[p].sent + msgs;
    }
  }

  lemma {:induction false} HandleSpeaks(r: Room, pkt: Info)
    requires Inv(r) && r.Has(pkt.id)
    ensures Speaks(r, r.HandleMove(pkt))
  {
    if !EntersSkill(r, pkt) {
      MoveMessageOutcome(r, pkt);
      SpeaksThis(r, r.HandleMove(pkt), [S_Move(r.HandleMove(pkt).Get(pkt.id))]);
    } else {
      var cell := FrontCell(pkt.pos, pkt.dir);
      AheadIsFront(pkt, cell);
      if v: nat :| IsStruck(r, pkt, cell, v) {
        StruckSpeaks(r, pkt, cell, v);
      } else {
        MissSpeaks(r, pkt, cell);
      }
    }
  }

  lemma {:induction false} MissSpeaks(r: Room, pkt: Info, cell: Cell)
    requires Inv(r) && EntersSkill(r, pkt) && IsAhead(pkt, cell) && forall v :: !IsStruck(r, pkt, cell, v)
    ensures Speaks(r, r.HandleMove(pkt))
  {
    SkillMessageMisses(r, pkt, cell);
    SpeaksThis(r, r.HandleMove(pkt), [S_Move(r.HandleMove(pkt).Get(pkt.id))]);
  }

  lemma {:induction false} StruckSpeaks(r: Room, pkt: Info, cell: Cell, v: nat)
    requires Inv(r) && EntersSkill(r, pkt) && IsAhead(pkt, cell) && IsStruck(r, pkt, cell, v)
    ensures Speaks(r, r.HandleMove(pkt))
  {
    SkillMessageStrikes(r, pkt, cell, v);
    BlowSpeaks(r, r.HandleMove(pkt), pkt.id, v);
  }

  lemma {:induction false} BlowSpeaks(r: Room, r': Room, id: nat, v: nat)
    requires r.Has(v) && r'.Has(id) && OneBlow(r, r', id, v)
    ensures Speaks(r, r')
  {
    var mine := S_Move(r'.Get(id));
    if r'.Has(v) {
      SpeaksThis(r, r', [S_Move(r'.Get(v)), mine]);
    } else {
      SpeaksThis(r, r', [S_RemoveObject([v]), mine]);
    }
  }

  lemma {:induction false} IdleSpeaks(r: Room, id: nat, now: nat, path: seq<Cell>)
    requires Inv(r) && Enabled(r, Label.Tick(id, now, path)) && r.monsters[id].info.state == Idle
    ensures Speaks(r, r.Tick(id, now, path))
  {
    PreyIsTarget(r, id);
    if r.ChosenTarget(id).Some? {
      IdleOutcome(r, id, now, path, r.ChosenTarget(id).value);
      ActSpeaks(r, r.Tick(id, now, path), id, now, path, r.ChosenTarget(id).value);
    } else {
      IdleWithoutPrey(r, id, now, path);
      SpeaksThis(r, r.Tick(id, now, path), []);
    }
  }

  lemma {:induction false} ActSpeaks(r: Room, r': Room, id: nat, now: nat, path: seq<Cell>, p: nat)
    requires id in r.monsters && id in r'.monsters && p in r.players && IdleActs(r, r', id, now, path, p)
    ensures Speaks(r, r')
  {
    if Told(r, r', []) {
      SpeaksThis(r, r', []);
    } else {
      SpeaksThis(r, r', [S_Move(r'.monsters[id].info)]);
    }
  }

  lemma {:induction false} SwingSpeaks(r: Room, id: nat, now: nat, path: seq<Cell>)
    requires Inv(r) && Enabled(r, Label.Tick(id, now, path)) && r.monsters[id].info.state == Skill
    requires r.monsters[id].waitUntil <= now
    ensures Speaks(r, r.Tick(id, now, path))
  {
    var rest := S_Move(r.monsters[id].info.(state := Idle));
    if p: nat :| RoomBehaviour.Strikes(r, id, now, p) {
      SwingStrikes(r, id, now, path, p);
      PaySpeaks(r, r.Tick(id, now, path), p, HpLeft(r, id, p), [rest]);
    } else {
      SwingMisses(r, id, now, path);
      SpeaksThis(r, r.Tick(id, now, path), [rest]);
    }
  }

  lemma {:induction false} PaySpeaks(r: Room, r': Room, p: nat, left: int, more: seq<Message>)
    requires p in r.players && Pays(r, r', p, left, more) && NoGreeting(more)
    ensures Speaks(r, r')
  {
    if left <= 0 {
      SpeaksThis(r, r', [S_RemoveObject([p])] + more);
    } else {
      SpeaksThis(r, r', [S_Move(r.players[p].info.(hp := left))] + more);
    }
  }

  lemma {:induction false} TickStaysGreeted(r: Room, id: nat, now: nat, path: seq<Cell>)
    requires Inv(r) && AllGreeted(r) && Enabled(r, Label.Tick(id, now, path))
    ensures AllGreeted(r.Tick(id, now, path))
  {
    var r' := r.Tick(id, now, path);
    match r.monsters[id].info.state
    case Idle =>
      IdleSpeaks(r, id, now, path);
      SpokenStaysGreeted(r, r');
    case Skill =>
      if r.monsters[id].waitUntil <= now {
        SwingSpeaks(r, id, now, path);
        SpokenStaysGreeted(r, r');
      }
    case Move =>
      MovingOutcome(r, id, now, path);
      SpeaksThis(r, r', []);
      SpokenStaysGreeted(r, r');
    case UnknownState(_) => UnknownOutcome(r, id, now, path);
  }

  lemma {:induction false} EnterStaysGreeted(r: Room)
    requires Inv(r) && AllGreeted(r)
    ensures AllGreeted(r.Enter())
  {
    EnterOutcome(r);
  }

  lemma {:induction false} LeaveStaysGreeted(r: Room, id: nat)
    requires Inv(r) && AllGreeted(r)
    ensures AllGreeted(r.Leave(id))
  {
    LeaveOutcome(r, id);
    if id in r.players {
      SpeaksThis(r, r.Leave(id), [S_RemoveObject([id])]);
      SpokenStaysGreeted(r, r.Leave(id));
    }
  }

  lemma {:induction false} NextStaysGreeted(r: Room, l: Label)
    requires Inv(r) && AllGreeted(r) && Enabled(r, l)
    ensures AllGreeted(Next(r, l))
  {
    match l
    case Enter => EnterStaysGreeted(r);
    case Leave(id) => LeaveStaysGreeted(r, id);
    case Handle(pkt) =>
      if r.Has(pkt.id) {
        HandleSpeaks(r, pkt);
        SpokenStaysGreeted(r, r.HandleMove(pkt));
      }
    case Tick(id, now, path) => TickStaysGreeted(r, id, now, path);
  }

  lemma {:induction false} RunsStayGreeted(tilemap: Tilemap, states: seq<Room>, labels: seq<Label>, i: nat)
    requires IsRun(states, labels) && states[0] == Init(tilemap) && i < |states|
    ensures Inv(states[i]) && AllGreeted(states[i])
  {
    if i > 0 {
      var k := i - 1;
      RunsStayGreeted(tilemap, states, labels, k);
      assert StepAt(states, labels, k);
      NextKeepsInv(states[k], labels[k]);
      NextStaysGreeted(states[k], labels[k]);
    }
  }

  /** Whatever happens in a run, by messages alone a client's own player stands where it was
      born, looking up and idle: the server never drags it along. */
  lemma {:induction false} OwnPlayerIsNeverDragged(tilemap: Tilemap, states: seq<Room>, labels: seq<Label>, i: nat, p: nat)
    requires IsRun(states, labels) && states[0] == Init(tilemap) && i < |states| && p in states[i].players
    ensures var v := Fold(states[i].players[p].sent);
      v.me == p && OwnPoseIs(v, Cell(5, 5), Up, Idle)
  {
    RunsStayGreeted(tilemap, states, labels, i);
    GreetedKeepsPose(states[i].players[p].sent, Newborn(p));
  }
}
