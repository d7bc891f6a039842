/** What the shunting-yard compiler of ArithmeticCalculator computes on
    well-formed input: an infix expression tree, printed with the
    parentheses the compiler's priorities need, any number of redundant
    ones, and blanks around its operands, compiles to its postfix program,
    and that program evaluates to the tree's value. All binary operators
    group to the left, '^' included. */
module Infix {
  import opened Calculator

  /** An infix expression: a literal (its digits and dots), a coordinate
      variable, a binary operator applied to two operands, an expression
      the writer put in parentheses, or an expression with blanks (or any
      other characters the compiler skips) before and after it. */
  datatype Expr =
    | Num(text: string)
    | Var(name: char)
    | Bin(op: char, left: Expr, right: Expr)
    | Group(inner: Expr)
    | Spaced(before: string, inner: Expr, after: string)

  predicate WellFormed(e: Expr)
  {
    match e
    case Num(text) => text != [] && forall k :: 0 <= k < |text| ==> IsNumChar(text[k])
    case Var(name) => IsVar(name)
    case Bin(op, l, r) => IsOp(op) && WellFormed(l) && WellFormed(r)
    case Group(inner) => WellFormed(inner)
    case Spaced(before, inner, after) => Blanks(before) && WellFormed(inner) && Blanks(after)
  }

  /** How tightly an expression binds: its operator's priority, or 4 for an
      atom or a parenthesised expression, which bind tighter than any
      operator. Blanks do not change it. */
  function Rank(e: Expr): (n: nat)
    ensures n >= 1
  {
    match e
    case Bin(op, _, _) => if IsOp(op) then Priority(op) else 1
    case Spaced(_, inner, _) => Rank(inner)
    case _ => 4
  }

  function Paren(s: string, wrap: bool): string
  {
    if wrap then "(" + s + ")" else s
  }

  /** The left operand is wrapped when it binds more loosely than the
      operator, the right one when it binds no tighter. */
  predicate WrapLeft(op: char, l: Expr) { Rank(l) < Priority(op) }

  predicate WrapRight(op: char, r: Expr) { Rank(r) <= Priority(op) }

  /** The infix text of an expression. */
  function Print(e: Expr): string
  {
    match e
    case Num(text) => text
    case Var(name) => [name]
    case Bin(op, l, r) =>
      Paren(Print(l), WrapLeft(op, l)) + [op] + Paren(Print(r), WrapRight(op, r))
    case Group(inner) => Paren(Print(inner), true)
    case Spaced(before, inner, after) => before + Print(inner) + after
  }

  /** The postfix program of an expression. */
  function Post(e: Expr): Program
  {
    match e
    case Num(text) => [(ConstTag, LiteralValue(text))]
    case Var(name) => [(name, 0.0)]
    case Bin(op, l, r) => Post(l) + Post(r) + [(op, 0.0)]
    case Group(inner) => Post(inner)
    case Spaced(_, inner, _) => Post(inner)
  }

  /** The value of an expression at the point (x, y, z). */
  function Value(e: Expr, x: real, y: real, z: real, fo: FloatOps): real
  {
    match e
    case Num(text) => LiteralValue(text)
    case Var(name) =>
      if name == 'x' || name == 'X' then x
      else if name == 'y' || name == 'Y' then y
      else if name == 'z' || name == 'Z' then z
      else 0.0
    case Bin(op, l, r) => Arith(op, Value(l, x, y, z, fo), Value(r, x, y, z, fo), fo)
    case Group(inner) => Value(inner, x, y, z, fo)
    case Spaced(_, inner, _) => Value(inner, x, y, z, fo)
  }

  // ---------------------------------------------------------------------
  // What the compiler has done once it has read an expression
  // ---------------------------------------------------------------------

  /** The instructions emitted once `Print(e)` has been read. */
  function Emitted(e: Expr): Program
  {
    match e
    case Bin(op, l, r) => Post(l) + (if WrapRight(op, r) then Post(r) else Emitted(r))
    case Spaced(_, inner, _) => Emitted(inner)
    case _ => Post(e)
  }

  /** The operators still stacked once `Print(e)` has been read, bottom
      first: the top-level operators of its rightmost unwrapped chain. */
  function Pending(e: Expr): seq<char>
  {
    match e
    case Bin(op, l, r) => [op] + (if WrapRight(op, r) then [] else Pending(r))
    case Spaced(_, inner, _) => Pending(inner)
    case _ => []
  }

  lemma EmissionCons(c: char, ops: seq<char>)
    ensures Emission([c] + ops) == Emission(ops) + [(c, 0.0)]
  {
  }

  /** The pending operators bind no more loosely than the expression, and
      flushing them completes its postfix program. */
  lemma {:induction false} PendingFacts(e: Expr)
    requires WellFormed(e)
    ensures forall k :: 0 <= k < |Pending(e)| ==> IsOp(Pending(e)[k]) && Priority(Pending(e)[k]) >= Rank(e)
    ensures Emitted(e) + Emission(Pending(e)) == Post(e)
  {
    match e
    case Num(_) =>
    case Var(_) =>
    case Group(_) =>
    case Spaced(_, inner, _) =>
      PendingFacts(inner);
    case Bin(op, l, r) =>
      var tail := if WrapRight(op, r) then [] else Pending(r);
      var em := if WrapRight(op, r) then Post(r) else Emitted(r);
      if !WrapRight(op, r) {
        PendingFacts(r);
      }
      assert em + Emission(tail) == Post(r);
      EmissionCons(op, tail);
      calc {
        Emitted(e) + Emission(Pending(e));
        (Post(l) + em) + (Emission(tail) + [(op, 0.0)]);
        { Assoc(Post(l) + em, Emission(tail), [(op, 0.0)]);
          Assoc(Post(l), em, Emission(tail)); }
        Post(l) + (em + Emission(tail)) + [(op, 0.0)];
        Post(e);
      }
  }

  /** An operator of priority `p` pops exactly the pending operators above
      a stack whose top binds more loosely than `p`. */
  lemma {:induction false} PopAll(out: Program, ops: seq<char>, pend: seq<char>, p: nat)
    requires forall k :: 0 <= k < |pend| ==> Priority(pend[k]) >= p
    requires ops == [] || Priority(Last(ops)) < p
    ensures PopAtLeast(State(out, ops + pend), p) == State(out + Emission(pend), ops)
    decreases |pend|
  {
    if pend == [] {
      assert ops + pend == ops;
      assert out + Emission(pend) == out;
    } else {
      var init := pend[..|pend| - 1];
      var top := Last(pend);
      var all := ops + pend;
      assert all == (ops + init) + [top];
      assert Last(all) == top && all[..|all| - 1] == ops + init;
      assert Priority(top) >= p;
      assert PopAtLeast(State(out, all), p) == PopAtLeast(State(out + [(top, 0.0)], ops + init), p);
      PopAll(out + [(top, 0.0)], ops, init, p);
      assert pend == init + [top];
      EmissionSnoc(init, top);
      Assoc(out, [(top, 0.0)], Emission(init));
    }
  }

  /** ')' pops exactly the pending operators above the matching '('. */
  lemma {:induction false} CloseAll(out: Program, ops: seq<char>, pend: seq<char>)
    requires forall k :: 0 <= k < |pend| ==> IsOp(pend[k])
    ensures CloseParen(State(out, ops + ['('] + pend)) == Some(State(out + Emission(pend), ops))
    decreases |pend|
  {
    if pend == [] {
      assert ops + ['('] + pend == ops + ['('];
      assert (ops + ['('])[..|ops|] == ops;
      assert out + Emission(pend) == out;
    } else {
      var init := pend[..|pend| - 1];
      var top := Last(pend);
      assert ops + ['('] + pend == (ops + ['('] + init) + [top];
      assert EmitTop(State(out, ops + ['('] + pend)) == State(out + [(top, 0.0)], ops + ['('] + init);
      CloseAll(out + [(top, 0.0)], ops, init);
      assert pend == init + [top];
      EmissionSnoc(init, top);
      Assoc(out, [(top, 0.0)], Emission(init));
    }
  }

  /** What reading a possibly wrapped operand leaves behind. */
  function SideEmitted(e: Expr, wrap: bool): Program
  {
    if wrap then Post(e) else Emitted(e)
  }

  function SidePending(e: Expr, wrap: bool): seq<char>
  {
    if wrap then [] else Pending(e)
  }

  /** A text that cannot extend a literal standing before it. */
  predicate Follows(rest: string)
  {
    rest == [] || !IsNumChar(rest[0])
  }

  /** Reading `Print(e)` emits `Emitted(e)` and stacks `Pending(e)`,
      provided the stack's top binds more loosely than `e`. */
  lemma {:induction false} PrintRun(e: Expr, rest: string, st: State)
    requires WellFormed(e) && Follows(rest)
    requires st.ops == [] || Priority(Last(st.ops)) < Rank(e)
    ensures Run(Print(e) + rest, st) == Run(rest, State(st.out + Emitted(e), st.ops + Pending(e)))
    decreases e, 1
  {
    match e
    case Num(text) =>
      var s := text + rest;
      NumRunIs(s, |text|);
      assert s[..|text|] == text && s[|text|..] == rest;
      RunLiteral(s, st);
      assert st.ops + [] == st.ops;
    case Var(name) =>
      var s := [name] + rest;
      assert s[1..] == rest;
      RunVariable(s, st);
      assert st.ops + [] == st.ops;
    case Bin(op, l, r) =>
      BinRun(op, l, r, rest, st);
    case Group(inner) =>
      GroupRun(inner, rest, st);
      assert st.ops + [] == st.ops;
    case Spaced(before, inner, after) =>
      assert Print(e) + rest == before + (Print(inner) + (after + rest));
      RunBlanks(before, Print(inner) + (after + rest), st);
      assert after == [] ==> after + rest == rest;
      PrintRun(inner, after + rest, st);
      RunBlanks(after, rest, State(st.out + Emitted(inner), st.ops + Pending(inner)));
  }

  /** Reading a parenthesised expression emits its whole postfix program
      and leaves the stack as it was. */
  lemma {:induction false} GroupRun(e: Expr, rest: string, st: State)
    requires WellFormed(e)
    ensures Run(Paren(Print(e), true) + rest, st) == Run(rest, State(st.out + Post(e), st.ops))
    decreases e, 2
  {
    var inner := Print(e) + ([')'] + rest);
    assert Paren(Print(e), true) + rest == ['('] + inner;
    RunOpen(['('] + inner, st);
    assert (['('] + inner)[1..] == inner;
    var st1 := State(st.out, st.ops + ['(']);
    PrintRun(e, [')'] + rest, st1);
    PendingFacts(e);
    CloseAll(st.out + Emitted(e), st.ops, Pending(e));
    Assoc(st.out, Emitted(e), Emission(Pending(e)));
    RunClose([')'] + rest, State(st.out + Emitted(e), st.ops + ['('] + Pending(e)));
    assert ([')'] + rest)[1..] == rest;
  }

  /** Reading `l op r`: the left operand, then the operator, which pops what
      the left operand left pending, then the right operand. */
  lemma {:induction false} BinRun(op: char, l: Expr, r: Expr, rest: string, st: State)
    requires WellFormed(Bin(op, l, r)) && Follows(rest)
    requires st.ops == [] || Priority(Last(st.ops)) < Priority(op)
    ensures Run(Print(Bin(op, l, r)) + rest, st)
         == Run(rest, State(st.out + Emitted(Bin(op, l, r)), st.ops + Pending(Bin(op, l, r))))
    decreases Bin(op, l, r), 0
  {
    var wl := WrapLeft(op, l);
    var wr := WrapRight(op, r);
    var right := [op] + (Paren(Print(r), wr) + rest);
    assert Print(Bin(op, l, r)) + rest == Paren(Print(l), wl) + right;
    SideRun(l, wl, right, st);
    var st2 := State(st.out + Post(l), st.ops + [op]);
    OperatorRun(op, l, Paren(Print(r), wr) + rest, st);
    SideRun(r, wr, rest, st2);
    Assoc(st.out, Post(l), SideEmitted(r, wr));
    Assoc(st.ops, [op], SidePending(r, wr));
  }

  /** The operator after a left operand emits what that operand left
      pending and nothing from below it. */
  lemma {:induction false} OperatorRun(op: char, l: Expr, rest: string, st: State)
    requires IsOp(op) && WellFormed(l)
    requires st.ops == [] || Priority(Last(st.ops)) < Priority(op)
    ensures var wl := WrapLeft(op, l);
      Run([op] + rest, State(st.out + SideEmitted(l, wl), st.ops + SidePending(l, wl)))
        == Run(rest, State(st.out + Post(l), st.ops + [op]))
  {
    var wl := WrapLeft(op, l);
    var out1 := st.out + SideEmitted(l, wl);
    var pend := SidePending(l, wl);
    if !wl {
      PendingFacts(l);
    }
    PopAll(out1, st.ops, pend, Priority(op));
    assert out1 + Emission(pend) == st.out + Post(l) by {
      if !wl {
        Assoc(st.out, Emitted(l), Emission(Pending(l)));
      } else {
        assert Emission(pend) == [];
        assert out1 + [] == out1;
      }
    }
    assert ([op] + rest)[1..] == rest;
    RunOperator([op] + rest, State(out1, st.ops + pend));
  }

  /** The same for an operand that may be wrapped in parentheses. */
  lemma {:induction false} SideRun(e: Expr, wrap: bool, rest: string, st: State)
    requires WellFormed(e) && Follows(rest)
    requires wrap || st.ops == [] || Priority(Last(st.ops)) < Rank(e)
    ensures Run(Paren(Print(e), wrap) + rest, st)
         == Run(rest, State(st.out + SideEmitted(e, wrap), st.ops + SidePending(e, wrap)))
    decreases e, 3
  {
    if !wrap {
      PrintRun(e, rest, st);
    } else {
      GroupRun(e, rest, st);
      assert st.ops + [] == st.ops;
    }
  }

  /** The compiler turns the printed form of an expression into its postfix
      program. */
  lemma CompileCorrect(e: Expr)
    requires WellFormed(e)
    ensures Compile(Print(e)) == Ok(Post(e))
  {
    assert Print(e) + [] == Print(e);
    PrintRun(e, [], State([], []));
    assert [] + Emitted(e) == Emitted(e) && [] + Pending(e) == Pending(e);
    FlushEmits(State(Emitted(e), Pending(e)));
    PendingFacts(e);
  }

  /** Running a postfix program pushes the expression's value. */
  lemma {:induction false} ExecPost(e: Expr, rest: Program, st: seq<real>, x: real, y: real, z: real, fo: FloatOps)
    requires WellFormed(e)
    ensures Exec(Post(e) + rest, st, x, y, z, fo) == Exec(rest, st + [Value(e, x, y, z, fo)], x, y, z, fo)
  {
    match e
    case Num(_) =>
      assert (Post(e) + rest)[1..] == rest;
    case Var(_) =>
      assert (Post(e) + rest)[1..] == rest;
    case Group(inner) =>
      ExecPost(inner, rest, st, x, y, z, fo);
    case Spaced(_, inner, _) =>
      ExecPost(inner, rest, st, x, y, z, fo);
    case Bin(op, l, r) =>
      var vl := Value(l, x, y, z, fo);
      var vr := Value(r, x, y, z, fo);
      var tail := [(op, 0.0)] + rest;
      var pl, pr := Post(l), Post(r);
      assert Post(e) == pl + pr + [(op, 0.0)];
      Assoc(pl + pr, [(op, 0.0)], rest);
      Assoc(pl, pr, tail);
      ExecPost(l, Post(r) + tail, st, x, y, z, fo);
      ExecPost(r, tail, st + [vl], x, y, z, fo);
      ExecOperator(op, rest, st, vl, vr, x, y, z, fo);
  }

  /** An operator instruction replaces the two top values by its result. */
  lemma ExecOperator(op: char, rest: Program, st: seq<real>, a: real, b: real,
                     x: real, y: real, z: real, fo: FloatOps)
    requires IsOp(op)
    ensures Exec([(op, 0.0)] + rest, st + [a] + [b], x, y, z, fo)
         == Exec(rest, st + [Arith(op, a, b, fo)], x, y, z, fo)
  {
    var before := st + [a] + [b];
    assert before[..|before| - 2] == st;
    assert ([(op, 0.0)] + rest)[1..] == rest;
  }

  /** The compiled program evaluates to the expression's value. */
  lemma EvalPost(e: Expr, x: real, y: real, z: real, fo: FloatOps)
    requires WellFormed(e)
    ensures Eval(Post(e), x, y, z, fo) == Ok(Value(e, x, y, z, fo))
  {
    assert Post(e) + [] == Post(e);
    ExecPost(e, [], [], x, y, z, fo);
  }

  /** The program of a well-formed expression never underflows and leaves
      exactly one value on the stack: the expression's value. */
  lemma PostLeavesOneValue(e: Expr, x: real, y: real, z: real, fo: FloatOps)
    requires WellFormed(e)
    ensures Exec(Post(e), [], x, y, z, fo) == Ok([Value(e, x, y, z, fo)])
  {
    ExecPost(e, [], [], x, y, z, fo);
    assert Post(e) + [] == Post(e);
    assert [] + [Value(e, x, y, z, fo)] == [Value(e, x, y, z, fo)];
  }

  /** End to end: the printed text of an expression compiles, and the
      calculator returns the expression's value. */
  lemma CalculatorComputesValue(e: Expr, x: real, y: real, z: real, fo: FloatOps)
    requires WellFormed(e)
    ensures Compile(Print(e)).Ok?
    ensures Eval(Compile(Print(e)).value, x, y, z, fo) == Ok(Value(e, x, y, z, fo))
  {
    CompileCorrect(e);
    EvalPost(e, x, y, z, fo);
  }

  // ---------------------------------------------------------------------
  // Examples
  // ---------------------------------------------------------------------

  lemma {:induction false} SmallIntegers()
    ensures LiteralValue("1") == 1.0 && LiteralValue("2") == 2.0
    ensures LiteralValue("3") == 3.0 && LiteralValue("4") == 4.0
  {
    IntegerReading("1");
    IntegerReading("2");
    IntegerReading("3");
    IntegerReading("4");
  }

  function Mixed(): Expr
  {
    Bin('+', Num("2"), Bin('*', Num("3"), Num("4")))
  }

  lemma MixedFacts(fo: FloatOps)
    ensures Print(Mixed()) == "2+3*4"
    ensures Value(Mixed(), 0.0, 0.0, 0.0, fo) == 14.0
  {
    SmallIntegers();
    assert Value(Bin('*', Num("3"), Num("4")), 0.0, 0.0, 0.0, fo) == 12.0;
  }

  /** "2+3*4" multiplies first. */
  lemma PriorityExample(s: string, fo: FloatOps)
    requires s == "2+3*4"
    ensures Compile(s).Ok?
    ensures Eval(Compile(s).value, 0.0, 0.0, 0.0, fo) == Ok(14.0)
  {
    MixedFacts(fo);
    CalculatorComputesValue(Mixed(), 0.0, 0.0, 0.0, fo);
  }

  function PowerLeft(): Expr
  {
    Bin('^', Bin('^', Num("2"), Num("3")), Num("2"))
  }

  function PowerRight(): Expr
  {
    Bin('^', Num("2"), Bin('^', Num("3"), Num("2")))
  }

  /** Only the left grouping of two '^' prints without parentheses. */
  lemma PowerPrints()
    ensures Print(PowerLeft()) == "2^3^2"
    ensures Print(PowerRight()) == "2^(3^2)"
  {
  }

  /** "2^3^2" groups to the left, as (2^3)^2, not as 2^(3^2). */
  lemma PowerGroupsLeft(s: string)
    requires s == "2^3^2"
    ensures Compile(s) == Ok(Post(PowerLeft()))
    ensures Compile(s) != Ok(Post(PowerRight()))
  {
    PowerPrints();
    CompileCorrect(PowerLeft());
    assert Post(PowerLeft())[2] == ('^', 0.0);
    assert Post(PowerRight())[2].0 == ConstTag;
  }

  function Square(v: char): Expr
  {
    Bin('*', Var(v), Var(v))
  }

  function Sphere(): Expr
  {
    Bin('-', Bin('+', Bin('+', Square('x'), Square('y')), Square('z')), Num("1"))
  }

  lemma SpherePrint()
    ensures Print(Sphere()) == "x*x+y*y+z*z-1"
  {
    assert Print(Square('x')) == "x*x";
    assert Print(Square('y')) == "y*y";
    assert Print(Square('z')) == "z*z";
    assert Print(Bin('+', Square('x'), Square('y'))) == "x*x+y*y";
    assert Print(Bin('+', Bin('+', Square('x'), Square('y')), Square('z'))) == "x*x+y*y+z*z";
  }

  lemma SphereValue(fo: FloatOps)
    ensures Value(Sphere(), 1.0, 0.0, 0.0, fo) == 0.0
  {
    SmallIntegers();
    assert Value(Square('x'), 1.0, 0.0, 0.0, fo) == 1.0;
    assert Value(Square('y'), 1.0, 0.0, 0.0, fo) == 0.0;
    assert Value(Square('z'), 1.0, 0.0, 0.0, fo) == 0.0;
    assert Value(Bin('+', Square('x'), Square('y')), 1.0, 0.0, 0.0, fo) == 1.0;
    assert Value(Bin('+', Bin('+', Square('x'), Square('y')), Square('z')), 1.0, 0.0, 0.0, fo) == 1.0;
  }

  /** The unit sphere "x*x+y*y+z*z-1" vanishes at (1, 0, 0). */
  lemma SphereExample(s: string, fo: FloatOps)
    requires s == "x*x+y*y+z*z-1"
    ensures Compile(s).Ok?
    ensures Eval(Compile(s).value, 1.0, 0.0, 0.0, fo) == Ok(0.0)
  {
    SpherePrint();
    SphereValue(fo);
    CalculatorComputesValue(Sphere(), 1.0, 0.0, 0.0, fo);
  }

  /** The same sphere written with blanks around '+' and '-'. */
  function SpacedSphere(): Expr
  {
    Bin('-',
        Bin('+',
            Bin('+', Spaced("", Square('x'), " "), Spaced(" ", Square('y'), " ")),
            Spaced(" ", Square('z'), " ")),
        Spaced(" ", Num("1"), ""))
  }

  lemma SpacedSpherePrint()
    ensures Print(SpacedSphere()) == "x*x + y*y + z*z - 1"
  {
    var x := Spaced("", Square('x'), " ");
    var y := Spaced(" ", Square('y'), " ");
    var z := Spaced(" ", Square('z'), " ");
    var one := Spaced(" ", Num("1"), "");
    assert Print(x) == "x*x ";
    assert Print(y) == " y*y ";
    assert Print(z) == " z*z ";
    assert Print(one) == " 1";
    assert Print(Bin('+', x, y)) == "x*x + y*y ";
    assert Print(Bin('+', Bin('+', x, y), z)) == "x*x + y*y + z*z ";
  }

  lemma SpacedSphereFacts()
    ensures WellFormed(SpacedSphere())
    ensures Post(SpacedSphere()) == Post(Sphere())
  {
    assert Blanks(" ") && Blanks("");
  }

  /** Blanks change nothing: "x*x + y*y + z*z - 1" compiles to the same
      program as "x*x+y*y+z*z-1" and also vanishes at (1, 0, 0). */
  lemma SpacedSphereExample(s: string, fo: FloatOps)
    requires s == "x*x + y*y + z*z - 1"
    ensures Compile(s) == Ok(Post(Sphere()))
    ensures Eval(Compile(s).value, 1.0, 0.0, 0.0, fo) == Ok(0.0)
  {
    SpacedSpherePrint();
    SpacedSphereFacts();
    CompileCorrect(SpacedSphere());
    SphereValue(fo);
    EvalPost(Sphere(), 1.0, 0.0, 0.0, fo);
  }

  /** A product of two variables with parentheses the priorities do not
      need, one pair of them doubled. */
  function Grouped(): Expr
  {
    Bin('*', Group(Var('x')), Group(Group(Var('y'))))
  }

  lemma GroupedFacts()
    ensures Print(Grouped()) == "(x)*((y))"
    ensures WellFormed(Grouped())
    ensures Post(Grouped()) == [('x', 0.0), ('y', 0.0), ('*', 0.0)]
  {
  }

  /** Redundant parentheses change nothing: "(x)*((y))" compiles to the
      program of "x*y" and computes the product. */
  lemma RedundantParens(s: string, x: real, y: real, z: real, fo: FloatOps)
    requires s == "(x)*((y))"
    ensures Compile(s) == Ok([('x', 0.0), ('y', 0.0), ('*', 0.0)])
    ensures Eval(Compile(s).value, x, y, z, fo) == Ok(x * y)
  {
    GroupedFacts();
    assert Value(Group(Var('x')), x, y, z, fo) == x;
    assert Value(Group(Var('y')), x, y, z, fo) == y;
    assert Value(Group(Group(Var('y'))), x, y, z, fo) == y;
    CalculatorComputesValue(Grouped(), x, y, z, fo);
    CompileCorrect(Grouped());
  }

  lemma {:induction false} UnaryMinusCompiles(s: string)
    requires s == "-1"
    ensures Compile(s) == Ok([(ConstTag, 1.0), ('-', 0.0)])
  {
    var st1 := State([(ConstTag, 1.0)], ['-']);
    MinusRead(s);
    MinusOneRead(s[1..]);
    assert Flush(st1) == [(ConstTag, 1.0), ('-', 0.0)] by {
      FlushEmits(st1);
      assert Emission(['-']) == [('-', 0.0)];
    }
  }

  /** The leading '-' of "-1" finds nothing to pop and is pushed. */
  lemma MinusRead(s: string)
    requires s == "-1"
    ensures Run(s, State([], [])) == Run(s[1..], State([], ['-']))
  {
    RunOperator(s, State([], []));
    assert PopAtLeast(State([], []), Priority('-')) == State([], []);
    assert [] + ['-'] == ['-'];
  }

  /** The "1" of "-1" is one literal, of value one. */
  lemma MinusOneRead(t: string)
    requires t == "1"
    ensures Run(t, State([], ['-'])) == Run([], State([(ConstTag, 1.0)], ['-']))
  {
    NumRunIs(t, 1);
    RunLiteral(t, State([], ['-']));
    assert t[1..] == [] && t[..1] == "1";
    SmallIntegers();
    assert [] + [(ConstTag, 1.0)] == [(ConstTag, 1.0)];
  }

  /** There is no unary minus: "-1" compiles, but the '-' finds one operand. */
  lemma UnaryMinusUnderflows(s: string, x: real, y: real, z: real, fo: FloatOps)
    requires s == "-1"
    ensures Compile(s).Ok?
    ensures Eval(Compile(s).value, x, y, z, fo) == Err(StackUnderflow)
  {
    UnaryMinusCompiles(s);
    var prog: Program := [(ConstTag, 1.0), ('-', 0.0)];
    assert prog[1..] == [('-', 0.0)];
    assert Exec(prog, [], x, y, z, fo) == Exec([('-', 0.0)], [1.0], x, y, z, fo);
  }

  function Difference(): Expr
  {
    Bin('-', Num("8"), Num("3"))
  }

  function Quotient(): Expr
  {
    Bin('/', Num("8"), Num("2"))
  }

  lemma OperandsFacts(fo: FloatOps)
    ensures Print(Difference()) == "8-3" && Print(Quotient()) == "8/2"
    ensures Value(Difference(), 0.0, 0.0, 0.0, fo) == 5.0
    ensures Value(Quotient(), 0.0, 0.0, 0.0, fo) == 4.0
  {
    IntegerReading("8");
    IntegerReading("3");
    IntegerReading("2");
  }

  /** The operator pops its right operand first: "8-3" gives 5 and "8/2"
      gives 4, not -5 and 0.25. */
  lemma OperandOrder(minus: string, divide: string, fo: FloatOps)
    requires minus == "8-3" && divide == "8/2"
    ensures Compile(minus).Ok? && Eval(Compile(minus).value, 0.0, 0.0, 0.0, fo) == Ok(5.0)
    ensures Compile(divide).Ok? && Eval(Compile(divide).value, 0.0, 0.0, 0.0, fo) == Ok(4.0)
  {
    OperandsFacts(fo);
    CalculatorComputesValue(Difference(), 0.0, 0.0, 0.0, fo);
    CalculatorComputesValue(Quotient(), 0.0, 0.0, 0.0, fo);
  }

  lemma {:induction false} StrayParenCompiles(s: string)
    requires s == "x(y"
    ensures Compile(s) == Ok([('x', 0.0), ('y', 0.0), ('(', 0.0)])
  {
    var st1 := State([('x', 0.0)], []);
    var st2 := State([('x', 0.0)], ['(']);
    var st3 := State([('x', 0.0), ('y', 0.0)], ['(']);
    assert Run(s, State([], [])) == Run(s[1..], st1) by {
      RunVariable(s, State([], []));
      assert [] + [('x', 0.0)] == [('x', 0.0)];
    }
    assert Run(s[1..], st1) == Run(s[2..], st2) by {
      RunOpen(s[1..], st1);
      assert s[1..][1..] == s[2..];
      assert [] + ['('] == ['('];
    }
    assert Run(s[2..], st2) == Run([], st3) by {
      assert s[2..] == "y";
      RunVariable(s[2..], st2);
      assert st2.out + [('y', 0.0)] == st3.out;
    }
    assert Flush(st3) == [('x', 0.0), ('y', 0.0), ('(', 0.0)] by {
      FlushEmits(st3);
      assert Emission(['(']) == [('(', 0.0)];
    }
  }

  /** A '(' that is never closed stays on the operator stack and is flushed
      as an operator: it pops both operands and pushes 0. */
  lemma StrayParenGivesZero(s: string, x: real, y: real, z: real, fo: FloatOps)
    requires s == "x(y"
    ensures Compile(s).Ok?
    ensures Eval(Compile(s).value, x, y, z, fo) == Ok(0.0)
  {
    StrayParenCompiles(s);
    var prog: Program := [('x', 0.0), ('y', 0.0), ('(', 0.0)];
    assert prog[1..] == [('y', 0.0), ('(', 0.0)];
    assert prog[1..][1..] == [('(', 0.0)];
    assert Exec(prog, [], x, y, z, fo) == Exec([('(', 0.0)], [x, y], x, y, z, fo);
    assert ApplyOp('(', [x, y], fo) == Ok([0.0]);
  }
}
