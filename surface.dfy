/** ArithmeticCalculator and ImplicitSurface (src/implicit_surface.h): the
    calculator compiles its expression once, in its constructor, into a
    private postfix program, and evaluates that program at any point
    without changing it; an ImplicitSurface binds the function it traces
    to a calculator built from its scene block's expression. */
module Surface {
  import opened Calculator
  import opened Geometry

  /** `apply`: pops the right operand, then the left one, and pushes the
      operator's result. */
  method Apply(op: char, st: seq<real>, fo: FloatOps) returns (r: Result<seq<real>>)
    ensures r == ApplyOp(op, st, fo)
  {
    if |st| < 2 {
      return Err(StackUnderflow);
    }
    var results := st;
    var rarg := Last(results);
    results := results[..|results| - 1];
    var larg := Last(results);
    results := results[..|results| - 1];
    results := results + [Arith(op, larg, rarg, fo)];
    assert st[..|st| - 1][..|st| - 2] == st[..|st| - 2];
    return Ok(results);
  }

  class ArithmeticCalculator {
    /** The compiled postfix program. */
    var rpn: Program

    /** Compiles `expr` once; the empty string is not compiled at all. The
        C++ code has undefined behaviour when a ')' finds no '(', so the
        expression's parentheses must close. */
    constructor(expr: string)
      requires ParensClose(expr, 0)
      ensures Compile(expr).Ok? && rpn == Compile(expr).value
      ensures expr == [] ==> rpn == []
    {
      var program: Program := [];
      CompileFailsIffUnmatched(expr);
      if expr != [] {
        var r := ToRpn(expr, program);
        program := r.value;
      }
      rpn := program;
    }

    /** `operator()(x, y, z)`: runs the program on an empty value stack and
        returns the value left on top. */
    method Call(x: real, y: real, z: real, fo: FloatOps) returns (r: Result<real>)
      ensures r == Eval(rpn, x, y, z, fo)
    {
      var results: seq<real> := [];
      var i := 0;
      while i < |rpn|
        invariant 0 <= i <= |rpn|
        invariant Exec(rpn[i..], results, x, y, z, fo) == Exec(rpn, [], x, y, z, fo)
        decreases |rpn| - i
      {
        var (tag, value) := rpn[i];
        assert rpn[i..][1..] == rpn[i + 1..];
        if tag == ConstTag {
          results := results + [value];
        } else if tag == 'x' || tag == 'X' {
          results := results + [x];
        } else if tag == 'y' || tag == 'Y' {
          results := results + [y];
        } else if tag == 'z' || tag == 'Z' {
          results := results + [z];
        } else {
          var applied := Apply(tag, results, fo);
          if applied.Err? {
            return Err(applied.error);
          }
          results := applied.value;
        }
        i := i + 1;
      }
      if results == [] {
        return Err(EmptyStack);
      }
      return Ok(Last(results));
    }
  }

  /** Evaluating twice at the same point gives the same result and leaves
      the program as it was. */
  method CallTwice(calculator: ArithmeticCalculator, x: real, y: real, z: real, fo: FloatOps)
    returns (first: Result<real>, second: Result<real>)
    ensures first == second == Eval(calculator.rpn, x, y, z, fo)
  {
    first := calculator.Call(x, y, z, fo);
    second := calculator.Call(x, y, z, fo);
  }

  /** The `std::function` an ImplicitSurface traces: empty, or a copy of a
      calculator's program. */
  datatype SurfaceFunction = NoFunction | CalculatorFunction(program: Program)

  /** Calling an empty function is an error (`std::bad_function_call`). */
  function Invoke(f: SurfaceFunction, x: real, y: real, z: real, fo: FloatOps): (r: Result<real>)
    ensures r == Err(EmptyFunction) <==> f == NoFunction
    ensures f.CalculatorFunction? ==> r == Eval(f.program, x, y, z, fo)
  {
    match f
    case NoFunction => Err(EmptyFunction)
    case CalculatorFunction(p) => Eval(p, x, y, z, fo)
  }

  /** A geometry of the scene, by the name the scene file gives it. */
  type GeometryName = string

  class ImplicitSurface {
    var expr: ArithmeticCalculator
    var f: SurfaceFunction
    var maxGradient: Vector
    var boundingGeom: Option<GeometryName>

    /** The constructor with all its defaults: no function, zero maximal
        gradient, no bounding geometry, and an empty calculator. */
    constructor()
      ensures f == NoFunction && maxGradient == Zero && boundingGeom == None
      ensures fresh(expr) && expr.rpn == []
    {
      expr := new ArithmeticCalculator([]);
      f := NoFunction;
      maxGradient := Zero;
      boundingGeom := None;
    }

    /** The constructor with explicit arguments. */
    constructor WithFunction(fn: SurfaceFunction, maxGrad: Vector, bg: Option<GeometryName>)
      ensures f == fn && maxGradient == maxGrad && boundingGeom == bg
      ensures fresh(expr) && expr.rpn == []
    {
      expr := new ArithmeticCalculator([]);
      f := fn;
      maxGradient := maxGrad;
      boundingGeom := bg;
    }

    /** `fillProperties`: builds a fresh calculator from the block's
        expression text and makes it the traced function; the block's
        "MaxGrad" and "boundary" entries, when present, replace the current
        values. */
    method FillProperties(text: string, maxGrad: Option<Vector>, boundary: Option<GeometryName>)
      requires ParensClose(text, 0)
      modifies this
      ensures fresh(expr) && Compile(text).Ok? && expr.rpn == Compile(text).value
      ensures f == CalculatorFunction(expr.rpn)
      ensures maxGradient == (if maxGrad.Some? then maxGrad.value else old(maxGradient))
      ensures boundingGeom == (if boundary.Some? then boundary else old(boundingGeom))
    {
      expr := new ArithmeticCalculator(text);
      f := CalculatorFunction(expr.rpn);
      if maxGrad.Some? {
        maxGradient := maxGrad.value;
      }
      if boundary.Some? {
        boundingGeom := boundary;
      }
    }
  }
}
