/** Cardinality arguments shared by the modules: injections, grids and intervals. */
module Counting {

  lemma {:induction false} InjectionBound<T(!new), U>(s: set<T>, f: T -> U, target: set<U>)
    requires forall x :: x in s ==> f(x) in target
    requires forall x, y :: x in s && y in s && f(x) == f(y) ==> x == y
    ensures |s| <= |target|
    decreases |s|
  {
    if s != {} {
      var x :| x in s;
      InjectionBound(s - {x}, f, target - {f(x)});
    }
  }

  function Column(x: nat, height: nat): (r: set<(nat, nat)>)
    ensures |r| == height
    ensures forall p :: p in r <==> p.0 == x && 1 <= p.1 <= height
  {
    if height == 0 then {} else Column(x, height - 1) + {(x, height)}
  }

  /** All pairs (x, y) with x below `width` and y from 1 to `height`. */
  function Grid(width: nat, height: nat): (r: set<(nat, nat)>)
    ensures |r| == width * height
    ensures forall p :: p in r <==> p.0 < width && 1 <= p.1 <= height
  {
    if width == 0 then {}
    else
      assert Grid(width - 1, height) !! Column(width - 1, height);
      Grid(width - 1, height) + Column(width - 1, height)
  }

  function Image<T, U>(s: set<T>, f: T -> U): set<U> {
    set x | x in s :: f(x)
  }

  /** An injective image has as many elements as its set. */
  lemma {:induction false} ImageSize<T(!new), U>(s: set<T>, f: T -> U)
    requires forall x, y :: x in s && y in s && f(x) == f(y) ==> x == y
    ensures |Image(s, f)| == |s|
    decreases |s|
  {
    if s == {} {
      assert Image(s, f) == {};
    } else {
      var x :| x in s;
      ImageSize(s - {x}, f);
      assert Image(s, f) == Image(s - {x}, f) + {f(x)};
    }
  }
}
