/** Options, and the order in which a `map` keyed by object ids is walked. */
module Ordered {

  datatype Option<+T> = None | Some(value: T)

  lemma {:induction false} LeastExists(s: set<nat>) returns (least: nat)
    requires s != {}
    ensures least in s && forall k :: k in s ==> least <= k
  {
    var x :| x in s;
    var rest := s - {x};
    assert forall k :: k in s && k != x ==> k in rest;
    if rest == {} {
      least := x;
    } else {
      var r := LeastExists(rest);
      least := if x <= r then x else r;
    }
  }

  ghost function Least(s: set<nat>): (least: nat)
    requires s != {}
    ensures least in s && forall k :: k in s ==> least <= k
  {
    assert exists m :: m in s && forall k :: k in s ==> m <= k by { var m := LeastExists(s); }
    var m :| m in s && forall k :: k in s ==> m <= k;
    m
  }

  /** The ids of a set, in the order a map walks its keys. */
  ghost function SortedIds(s: set<nat>): (ids: seq<nat>)
    ensures forall k :: k in ids <==> k in s
    ensures forall i, j :: 0 <= i < j < |ids| ==> ids[i] < ids[j]
    decreases |s|
  {
    if s == {} then [] else
      var k := Least(s);
      var rest := SortedIds(s - {k});
      assert forall i :: 0 <= i < |rest| ==> rest[i] in s - {k};
      [k] + rest
  }
}
