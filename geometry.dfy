/** The exactly specified parts of src/geometry.h: the boolean rules of the
    three constructive-solid-geometry operators, and the frame schedule of
    an Animation, which on each frame leaves its node alone, applies one
    step transform, or applies the reset transform. Matrices are kept as
    uninterpreted terms; offsets are vectors of reals. */
module Geometry {

  datatype Vector = Vector(x: real, y: real, z: real)
  {
    function Add(v: Vector): Vector
    {
      Vector(x + v.x, y + v.y, z + v.z)
    }
  }

  const Zero: Vector := Vector(0.0, 0.0, 0.0)

  // ---------------------------------------------------------------------
  // CSG operators: boolOp
  // ---------------------------------------------------------------------

  /** The three subclasses of CsgOp. */
  datatype CsgKind = CsgAnd | CsgPlus | CsgMinus

  /** `boolOp(inA, inB)`: whether a point inside A (or not) and inside B
      (or not) is inside the combined solid. */
  predicate BoolOp(kind: CsgKind, inA: bool, inB: bool)
    ensures BoolOp(kind, inA, inB) ==> inA || inB
    ensures !inB ==> (BoolOp(kind, inA, inB) <==> inA && kind != CsgAnd)
  {
    match kind
    case CsgAnd => inA && inB
    case CsgPlus => inA || inB
    case CsgMinus => inA && !inB
  }

  /** The solid a CSG operator builds from solids `a` and `b`, each given as
      the set of points it contains. */
  function Solid<P>(kind: CsgKind, a: set<P>, b: set<P>): set<P>
  {
    set p | p in a + b && BoolOp(kind, p in a, p in b)
  }

  /** CsgAnd is intersection, CsgPlus union, CsgMinus difference. */
  lemma CsgSolids<P>(a: set<P>, b: set<P>)
    ensures Solid(CsgAnd, a, b) == a * b
    ensures Solid(CsgPlus, a, b) == a + b
    ensures Solid(CsgMinus, a, b) == a - b
  {
  }

  /** CsgAnd and CsgPlus do not depend on the order of their operands;
      CsgMinus does. */
  lemma CsgSymmetry(inA: bool, inB: bool)
    ensures BoolOp(CsgAnd, inA, inB) == BoolOp(CsgAnd, inB, inA)
    ensures BoolOp(CsgPlus, inA, inB) == BoolOp(CsgPlus, inB, inA)
    ensures BoolOp(CsgMinus, true, false) != BoolOp(CsgMinus, false, true)
  {
  }

  /** Subtracting nothing keeps A; subtracting everything leaves nothing. */
  lemma CsgMinusEdges(inA: bool)
    ensures BoolOp(CsgMinus, inA, false) == inA
    ensures !BoolOp(CsgMinus, inA, true)
  {
  }

  // ---------------------------------------------------------------------
  // Transforms
  // ---------------------------------------------------------------------

  /** A 3x3 matrix as an uninterpreted term: a named matrix, a product, or
      a transpose. */
  datatype Matrix =
    | Named(id: nat)
    | Product(left: Matrix, right: Matrix)
    | Transposed(of: Matrix)

  /** A Transform: its matrix, the inverse, the transposed inverse and the
      offset. */
  datatype Transform = Transform(transform: Matrix, inverseTransform: Matrix,
                                 transposedInverse: Matrix, offset: Vector)

  /** The transposed inverse is the transpose of the inverse. */
  predicate Consistent(tr: Transform)
  {
    tr.transposedInverse == Transposed(tr.inverseTransform)
  }

  /** Follows `cur` by `other`: the matrix is multiplied on the right, the
      inverse on the left, the transposed inverse recomputed and the offsets
      added. */
  function Compose(cur: Transform, other: Transform): (r: Transform)
    ensures Consistent(r)
    ensures r.transform == Product(cur.transform, other.transform)
    ensures r.inverseTransform == Product(other.inverseTransform, cur.inverseTransform)
    ensures r.offset == cur.offset.Add(other.offset)
  {
    var inv := Product(other.inverseTransform, cur.inverseTransform);
    Transform(Product(cur.transform, other.transform), inv, Transposed(inv), cur.offset.Add(other.offset))
  }

  class Node {
    var transform: Transform

    constructor(tr: Transform)
      ensures transform == tr
    {
      transform := tr;
    }
  }

  // ---------------------------------------------------------------------
  // Animation: the frame schedule
  // ---------------------------------------------------------------------

  predicate IsInt32(v: int) { -0x8000_0000 <= v < 0x8000_0000 }

  newtype int32 = v: int | IsInt32(v)

  /** What one frame does to the node. */
  datatype Action = Hold | Step | Reset

  /** The animation has run its `repCount` repetitions (a positive count;
      zero or less repeats forever). */
  predicate Finished(frameNo: int, start: int, duration: int, repCount: int)
  {
    repCount > 0 && frameNo - start > (duration + 1) * repCount
  }

  /** `apply` evaluates without overflow and without a zero divisor in
      32-bit arithmetic, for the operations it reaches. */
  predicate Defined(frameNo: int, start: int, duration: int, repCount: int)
  {
    frameNo <= start ||
    (IsInt32(frameNo - start) && IsInt32(duration + 1) &&
     (repCount > 0 ==> IsInt32((duration + 1) * repCount)) &&
     (Finished(frameNo, start, duration, repCount) || duration + 1 != 0))
  }

  /** The decision `apply` makes for a frame. The test for zero remainder
      does not depend on how the remainder of a negative divisor is
      rounded. */
  function Schedule(frameNo: int, start: int, duration: int, repCount: int): (act: Action)
    requires Defined(frameNo, start, duration, repCount)
    ensures act == Hold <==> frameNo <= start || Finished(frameNo, start, duration, repCount)
    ensures act != Hold ==> duration + 1 != 0
  {
    if frameNo <= start || Finished(frameNo, start, duration, repCount) then Hold
    else if (frameNo - start) % (duration + 1) == 0 then Reset
    else Step
  }

  /** The effect of an action on a transform. */
  function Perform(tr: Transform, act: Action, step: Transform, reset: Transform): (r: Transform)
    ensures act == Hold ==> r == tr
    ensures act != Hold ==> Consistent(r)
  {
    match act
    case Hold => tr
    case Step => Compose(tr, step)
    case Reset => Compose(tr, reset)
  }

  class Animation {
    var node: Node?
    var start: int32
    var duration: int32
    var repCount: int32
    var t: Transform
    var reset: Transform

    /** The animation as its scene block leaves it. */
    constructor(n: Node?, s: int32, d: int32, r: int32, step: Transform, back: Transform)
      ensures node == n && start == s && duration == d && repCount == r
      ensures t == step && reset == back
    {
      node := n;
      start := s;
      duration := d;
      repCount := r;
      t := step;
      reset := back;
    }

    /** `apply(frameNo)`: updates the node's transform in place. */
    method Apply(frameNo: int32)
      requires node != null
      requires Defined(frameNo as int, start as int, duration as int, repCount as int)
      modifies node
      ensures node.transform
           == Perform(old(node.transform), Schedule(frameNo as int, start as int, duration as int, repCount as int), t, reset)
    {
      var f, s, d, r := frameNo as int, start as int, duration as int, repCount as int;
      if f <= s || (r > 0 && f - s > (d + 1) * r) {
        return;
      }
      if (f - s) % (d + 1) == 0 {
        node.transform := node.transform.(transform := Product(node.transform.transform, reset.transform));
        node.transform := node.transform.(inverseTransform := Product(reset.inverseTransform, node.transform.inverseTransform));
        node.transform := node.transform.(transposedInverse := Transposed(node.transform.inverseTransform));
        node.transform := node.transform.(offset := node.transform.offset.Add(reset.offset));
        return;
      }
      node.transform := node.transform.(transform := Product(node.transform.transform, t.transform));
      node.transform := node.transform.(inverseTransform := Product(t.inverseTransform, node.transform.inverseTransform));
      node.transform := node.transform.(transposedInverse := Transposed(node.transform.inverseTransform));
      node.transform := node.transform.(offset := node.transform.offset.Add(t.offset));
    }
  }

  // ---------------------------------------------------------------------
  // Properties of the schedule
  // ---------------------------------------------------------------------

  /** The remainder of C's `%`, which rounds the quotient toward zero. */
  function CRem(a: int, b: int): int
    requires b != 0
  {
    var m := if b < 0 then -b else b;
    if a >= 0 then a % m else -((-a) % m)
  }

  /** Dividing by a negative divisor leaves the same remainder as by its
      magnitude. */
  lemma ModOfNegated(a: int, m: int)
    requires m < 0
    ensures a % m == a % (-m)
  {
    var q, r := a / m, a % m;
    assert a == m * q + r && 0 <= r < -m;
    assert m * q == (-m) * (-q);
    ModOfShifted(-m, -q, r);
  }

  /** A frame of a running animation resets exactly when C's remainder of
      its distance from the start frame by `duration + 1` is zero, whatever
      the sign of the divisor. */
  lemma ResetsOnMultiples(frameNo: int, start: int, duration: int, repCount: int)
    requires Defined(frameNo, start, duration, repCount)
    requires frameNo > start && !Finished(frameNo, start, duration, repCount)
    ensures duration + 1 != 0
    ensures Schedule(frameNo, start, duration, repCount) == Reset
        <==> CRem(frameNo - start, duration + 1) == 0
  {
    if duration + 1 < 0 {
      ModOfNegated(frameNo - start, duration + 1);
    }
  }

  /** With a repetition count of zero or less the animation never stops. */
  lemma NeverStops(frameNo: int, start: int, duration: int, repCount: int)
    requires Defined(frameNo, start, duration, repCount)
    requires repCount <= 0 && frameNo > start
    ensures Schedule(frameNo, start, duration, repCount) != Hold
  {
  }

  /** A frame that acts either resets or steps, never both, and leaves the
      transposed inverse consistent with the new inverse. */
  lemma ActionsCompose(tr: Transform, act: Action, step: Transform, reset: Transform)
    requires act != Hold
    ensures Consistent(Perform(tr, act, step, reset))
    ensures Perform(tr, act, step, reset) == Compose(tr, if act == Reset then reset else step)
    ensures Perform(tr, act, step, reset).offset
         == tr.offset.Add(if act == Reset then reset.offset else step.offset)
  {
  }

  lemma MulMonotone(m: int, a: int, b: int)
    requires m >= 0 && a <= b
    ensures m * a <= m * b
  {
    assert m * b - m * a == m * (b - a);
  }

  lemma MulSucc(m: int, n: int)
    ensures m * (n + 1) == m * n + m
  {
  }

  /** The remainder of m * j + r by m is r, for 0 <= r < m. */
  lemma ModOfShifted(m: int, j: int, r: int)
    requires m > 0 && 0 <= r < m
    ensures (m * j + r) % m == r
  {
    var x := m * j + r;
    var q, r' := x / m, x % m;
    assert x == m * q + r' && 0 <= r' < m;
    assert m * (j - q) == r' - r by {
      assert m * (j - q) == m * j - m * q;
    }
    if j > q {
      MulMonotone(m, 1, j - q);
    } else if j < q {
      MulMonotone(m, 1, q - j);
    }
  }

  /** Frame `i` (counting from 0) of repetition `j` steps, except the last
      frame of each repetition, which resets. */
  lemma {:induction false} FrameOfCycle(start: int, duration: nat, repCount: int, j: nat, i: nat)
    requires i <= duration
    requires repCount <= 0 || j < repCount
    requires Defined(start + (duration + 1) * j + i + 1, start, duration, repCount)
    ensures Schedule(start + (duration + 1) * j + i + 1, start, duration, repCount)
         == if i == duration then Reset else Step
  {
    var m := duration + 1;
    var f := start + m * j + i + 1;
    assert f - start == m * j + i + 1;
    if repCount > 0 {
      MulMonotone(m, j + 1, repCount);
      assert m * (j + 1) == m * j + m;
    }
    if i == duration {
      ModOfShifted(m, j + 1, 0);
      assert m * j + i + 1 == m * (j + 1) + 0;
    } else {
      ModOfShifted(m, j, i + 1);
    }
  }

  /** One repetition: `duration` steps, then a reset. */
  function Cycle(duration: nat): (c: seq<Action>)
    ensures |c| == duration + 1
  {
    seq(duration + 1, i requires 0 <= i <= duration => if i == duration then Reset else Step)
  }

  function Repeat(c: seq<Action>, n: nat): (r: seq<Action>)
    ensures |r| == |c| * n
  {
    if n == 0 then [] else Repeat(c, n - 1) + c
  }

  /** Whether frame start + k + 1 is defined. */
  predicate DefinedAt(start: int, duration: int, repCount: int, k: int)
  {
    Defined(start + k + 1, start, duration, repCount)
  }

  /** Whether every frame from start + 1 to start + len is defined. */
  predicate DefinedUpTo(start: int, duration: int, repCount: int, len: nat)
  {
    forall k :: 0 <= k < len ==> DefinedAt(start, duration, repCount, k)
  }

  /** What `apply` decides on the frames start + 1, ..., start + len. */
  function Timeline(start: int, duration: int, repCount: int, len: nat): (tl: seq<Action>)
    requires DefinedUpTo(start, duration, repCount, len)
    ensures |tl| == len
  {
    seq(len, k requires 0 <= k < len && DefinedAt(start, duration, repCount, k) =>
      Schedule(start + k + 1, start, duration, repCount))
  }

  /** The first `n` repetitions after the start frame are `n` copies of one
      cycle: `duration` steps and a reset. */
  lemma {:induction false} Periodic(start: int, duration: nat, repCount: int, n: nat)
    requires repCount <= 0 || n <= repCount
    requires DefinedUpTo(start, duration, repCount, (duration + 1) * n)
    ensures Timeline(start, duration, repCount, (duration + 1) * n) == Repeat(Cycle(duration), n)
    decreases n
  {
    var m := duration + 1;
    if n > 0 {
      var len := m * n;
      var prev := m * (n - 1);
      MulSucc(m, n - 1);
      var tl := Timeline(start, duration, repCount, len);
      assert DefinedUpTo(start, duration, repCount, prev);
      Periodic(start, duration, repCount, n - 1);
      assert tl[..prev] == Timeline(start, duration, repCount, prev);
      forall i | 0 <= i <= duration
        ensures tl[prev + i] == Cycle(duration)[i]
      {
        assert DefinedAt(start, duration, repCount, prev + i);
        FrameOfCycle(start, duration, repCount, n - 1, i);
      }
      assert tl[prev..] == Cycle(duration);
      assert tl == tl[..prev] + tl[prev..];
    }
  }
}
