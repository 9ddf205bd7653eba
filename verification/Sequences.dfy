/** Joining a list of lists. */
module Sequences {

  function Concat<T>(lists: seq<seq<T>>): seq<T> {
    if lists == [] then [] else lists[0] + Concat(lists[1..])
  }

  lemma {:induction false} Assoc<T>(a: seq<T>, b: seq<T>, c: seq<T>)
    ensures a + (b + c) == (a + b) + c
  {
  }

  lemma {:induction false} ConcatCons<T>(first: seq<T>, others: seq<seq<T>>)
    ensures Concat([first] + others) == first + Concat(others)
  {
  }

  lemma {:induction false} ConcatAppend<T>(a: seq<seq<T>>, b: seq<seq<T>>)
    ensures Concat(a + b) == Concat(a) + Concat(b)
  {
    if a == [] {
      assert a + b == b;
    } else {
      ConcatAppend(a[1..], b);
      assert a + b == [a[0]] + (a[1..] + b);
      ConcatCons(a[0], a[1..] + b);
      Assoc(a[0], Concat(a[1..]), Concat(b));
    }
  }

  lemma {:induction false} ConcatSnoc<T>(lists: seq<seq<T>>, last: seq<T>)
    ensures Concat(lists + [last]) == Concat(lists) + last
  {
    ConcatAppend(lists, [last]);
    ConcatCons(last, []);
    assert [last] + [] == [last];
  }

  /** Row-major indexing into equally long rows. */
  lemma {:induction false} ConcatAt<T>(rows: seq<seq<T>>, width: nat, y: nat, x: nat)
    requires forall k :: 0 <= k < |rows| ==> |rows[k]| == width
    requires y < |rows| && x < width
    ensures 0 <= y * width + x < |Concat(rows)|
    ensures Concat(rows)[y * width + x] == rows[y][x]
  {
    ConcatLength(rows, width);
    ConcatLength(rows[1..], width);
    if y > 0 {
      ConcatAt(rows[1..], width, y - 1, x);
      assert y * width + x == width + ((y - 1) * width + x);
    } else {
      assert 0 * width == 0;
    }
  }

  lemma {:induction false} ConcatLength<T>(rows: seq<seq<T>>, width: nat)
    requires forall k :: 0 <= k < |rows| ==> |rows[k]| == width
    ensures |Concat(rows)| == |rows| * width
  {
    if rows == [] {
      assert 0 * width == 0;
    } else {
      ConcatLength(rows[1..], width);
      assert |rows| * width == width + (|rows| - 1) * width;
    }
  }
}
