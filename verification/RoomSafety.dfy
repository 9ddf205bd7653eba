/** Safety of whole runs: moves, iteration, hit points and the rate at which monsters act. */
module RoomSafety {
  import opened Geometry
  import opened Ordered
  import opened Protocol
  import opened RoomSpec
  import opened RoomInvariant
  import RoomBehaviour

  // ---------- what one tick of a monster may change ----------

  ghost predicate SameBut(r: Room, r': Room, id: nat) {
    && r'.monsters.Keys == r.monsters.Keys
    && (forall k :: k in r.monsters && k != id ==> r'.monsters[k] == r.monsters[k])
    && r'.players.Keys <= r.players.Keys
    && (forall k :: k in r'.players ==> r'.players[k].info.pos == r.players[k].info.pos)
    && r'.nextId == r.nextId && r'.tilemap == r.tilemap
  }

  /** A blow at a player changes no monster, and no player but the victim leaves. */
  lemma {:induction false} BlowFrame(r: Room, id: nat, victim: nat)
    requires Inv(r) && id in r.monsters && victim in r.players
    ensures var r' := r.ApplyDamage(id, victim);
      && r'.monsters == r.monsters && r'.nextId == r.nextId && r'.tilemap == r.tilemap
      && r'.players.Keys <= r.players.Keys
      && forall k :: k in r'.players ==> r'.players[k].info.pos == r.players[k].info.pos
  {
    ApplyDamageEffect(r, id, victim);
    assert r.monsters - {victim} == r.monsters;
  }

  lemma {:induction false} StrikeFrame(r: Room, id: nat)
    requires Inv(r) && id in r.monsters
    ensures SameBut(r, r.Strike(id), id)
    ensures r.Strike(id).monsters[id].info == r.monsters[id].info
    ensures r.Strike(id).monsters[id].waitUntil == r.monsters[id].waitUntil
  {
    var t := r.Lock(r.monsters[id].target);
    if t.Some? {
      BlowFrame(r, id, t.value);
    }
  }

  lemma {:induction false} IdleFrame(r: Room, id: nat, now: nat, path: seq<Cell>)
    requires Inv(r) && id in r.monsters && r.monsters[id].info.state == Idle
    requires r.IdleQuery(id).Some? ==> r.IdleQuery(id).value.IsAnswer(path)
    ensures SameBut(r, r.UpdateIdle(id, now, path), id)
    ensures var from, to := r.monsters[id].info.pos, r.UpdateIdle(id, now, path).monsters[id].info.pos;
      to != from ==> Dist(from, to) == 1 && r.CanGo(to)
  {
    ClosestIsPlayer(r, id);
    UpdateIdleEffect(r, id, now, path);
  }

  /** A tick of one monster leaves every other monster alone, keeps the set of monsters
      (so a loop over it stays sound), moves no player, and moves the monster by at most
      one step, into a walkable cell where nobody stood. */
  lemma {:induction false} TickFrame(r: Room, id: nat, now: nat, path: seq<Cell>)
    requires Inv(r) && Enabled(r, Label.Tick(id, now, path))
    ensures SameBut(r, r.Tick(id, now, path), id)
    ensures var from, to := r.monsters[id].info.pos, r.Tick(id, now, path).monsters[id].info.pos;
      to != from ==> Dist(from, to) == 1 && r.CanGo(to)
  {
    var r1 := r.(clock := now);
    ClockIsIrrelevant(r, id, now);
    match r.monsters[id].info.state
    case Idle =>
      IdleFrame(r1, id, now, path);
      SameCells(r, r1, r.Tick(id, now, path).monsters[id].info.pos);
    case Move =>
    case Skill =>
      StrikeFrame(r1.Calmed(id), id);
    case UnknownState(_) =>
  }

  /** A monster's update moves nobody but that monster, and that by one step at most, onto a
      walkable tile of the map where nobody stood. */
  lemma {:induction false} TickIsSafe(r: Room, id: nat, now: nat, path: seq<Cell>)
    requires Inv(r) && Enabled(r, Label.Tick(id, now, path))
    ensures SameBut(r, r.Tick(id, now, path), id)
    ensures var from, to := r.monsters[id].info.pos, r.Tick(id, now, path).monsters[id].info.pos;
      to != from ==> Dist(from, to) == 1 && RoomBehaviour.IsFree(r, to)
  {
    TickFrame(r, id, now, path);
    RoomBehaviour.CanGoIff(r, r.Tick(id, now, path).monsters[id].info.pos);
  }

  /** No two objects share a cell. */
  ghost predicate Spread(r: Room) {
    forall a, b :: r.Has(a) && r.Has(b) && a != b ==> r.Get(a).pos != r.Get(b).pos
  }

  lemma {:induction false} MoveIntoEmptyKeepsSpread(r: Room, r': Room, id: nat)
    requires Inv(r) && Inv(r') && Spread(r) && id in r.monsters && SameBut(r, r', id)
    requires r'.monsters[id].info.pos == r.monsters[id].info.pos || r.CanGo(r'.monsters[id].info.pos)
    ensures Spread(r')
  {
    var to := r'.monsters[id].info.pos;
    ObjectAtIsThere(r, to);
    forall k | r'.Has(k) && k != id
      ensures r.Has(k) && r'.Get(k).pos == r.Get(k).pos
      ensures r.Get(k).pos != to
    {
      assert r.Has(k) && r.Has(id) && r.Get(id).pos == r.monsters[id].info.pos;
    }
  }

  lemma {:induction false} TickKeepsSpread(r: Room, id: nat, now: nat, path: seq<Cell>)
    requires Inv(r) && Spread(r) && Enabled(r, Label.Tick(id, now, path))
    ensures Spread(r.Tick(id, now, path))
  {
    TickFrame(r, id, now, path);
    TickKeepsInv(r, id, now, path);
    MoveIntoEmptyKeepsSpread(r, r.Tick(id, now, path), id);
  }

  // ---------- one full Update ----------

  /** A full `Update`: one tick for each monster that was in the room, in id order. */
  ghost predicate IsUpdate(r: Room, ids: seq<nat>, states: seq<Room>, labels: seq<Label>) {
    && ids == SortedIds(r.monsters.Keys)
    && IsRun(states, labels) && states[0] == r
    && |labels| == |ids|
    && forall i :: 0 <= i < |ids| ==> labels[i].Tick? && labels[i].id == ids[i]
  }

  /** After the first n ticks: the same monsters; those still to come are untouched, and
      nobody is more than one step from where it was. */
  ghost predicate Progress(r: Room, ids: seq<nat>, s: Room, n: nat) {
    && s.monsters.Keys == r.monsters.Keys
    && (forall k :: n <= k < |ids| ==> ids[k] in r.monsters && s.monsters[ids[k]] == r.monsters[ids[k]])
    && (forall id :: id in r.monsters ==> Dist(r.monsters[id].info.pos, s.monsters[id].info.pos) <= 1)
  }

  lemma {:induction false} ProgressStep(r: Room, ids: seq<nat>, s: Room, s': Room, n: nat)
    requires ids == SortedIds(r.monsters.Keys) && n < |ids|
    requires Progress(r, ids, s, n) && SameBut(s, s', ids[n])
    requires Dist(s.monsters[ids[n]].info.pos, s'.monsters[ids[n]].info.pos) <= 1
    ensures Progress(r, ids, s', n + 1)
  {
  }

  lemma {:induction false} UpdateStep(r: Room, ids: seq<nat>, s: Room, l: Label, n: nat)
    requires ids == SortedIds(r.monsters.Keys) && n < |ids|
    requires Inv(s) && Progress(r, ids, s, n)
    requires l.Tick? && l.id == ids[n] && Enabled(s, l)
    ensures Inv(Next(s, l)) && Progress(r, ids, Next(s, l), n + 1)
    ensures Spread(s) ==> Spread(Next(s, l))
  {
    TickFrame(s, l.id, l.now, l.path);
    TickKeepsInv(s, l.id, l.now, l.path);
    if Spread(s) { TickKeepsSpread(s, l.id, l.now, l.path); }
    ProgressStep(r, ids, s, Next(s, l), n);
  }

  /** Throughout a full update the set of monsters stays what it was, a monster's record
      changes only in its own tick, it moves at most one step in all, and distinct
      positions stay distinct. */
  lemma {:induction false} UpdateIsSafe(r: Room, ids: seq<nat>, states: seq<Room>, labels: seq<Label>, n: nat)
    requires Inv(r) && IsUpdate(r, ids, states, labels) && n < |states|
    ensures Inv(states[n])
    ensures Progress(r, ids, states[n], n)
    ensures Spread(r) ==> Spread(states[n])
  {
    if n > 0 {
      var i := n - 1;
      UpdateIsSafe(r, ids, states, labels, i);
      assert StepAt(states, labels, i);
      UpdateStep(r, ids, states[i], labels[i], i);
    }
  }
}
