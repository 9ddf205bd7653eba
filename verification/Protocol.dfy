/** The messages and object records that server and client exchange. */
module Protocol {
  import opened Geometry

  datatype Kind = NoKind | PlayerKind | MonsterKind

  /** Object states.  The wire enumeration is open, so a peer may also send an unknown code. */
  datatype State = Idle | Move | Skill | UnknownState(code: int)

  datatype Info = Info(id: nat, kind: Kind, state: State, dir: Dir,
                       hp: int, maxHp: int, attack: int, defence: int, pos: Cell)

  datatype Message =
    | S_EnterGame
    | S_MyPlayer(me: Info)
    | S_AddObject(objects: seq<Info>)
    | S_RemoveObject(ids: seq<nat>)
    | S_Move(info: Info)
}
