# quaddamage: the implicit-surface calculator, CSG predicates and animation schedule

This project models the exactly specifiable core of the quaddamage ray
tracer:

- **ArithmeticCalculator** (`src/implicit_surface.cpp`, `src/implicit_surface.h`).
  This is the tiny language in which a scene states an implicit surface
  `f(x, y, z) = 0`. It has four parts:
  - `valueof`, the literal scanner. It reads a run of digits and dots.
  - `isop` and `priority`, the character classes.
  - `to_rpn`, the shunting-yard compiler. It turns infix text over `x/y/z`,
    literals, `+ - * / ^` and parentheses into a postfix list of
    `(tag, value)` pairs.
  - `apply` and `operator()`, the stack evaluator. It runs that list at a
    point.

  The class compiles once, in its constructor, into its private `rpn` list,
  and evaluates without changing it.
- **ImplicitSurface** (`src/implicit_surface.h`): its default construction,
  and `fillProperties`, which binds the traced function `f` to a calculator
  built from the scene block's `expr` string.
- **CsgAnd / CsgPlus / CsgMinus** (`src/geometry.h`): the boolean rule that
  decides whether a point lies inside the combination of two solids.
- **Animation::apply** (`src/geometry.h`): the 32-bit integer schedule that
  decides for each frame whether the node's transform is left alone, stepped
  by the per-frame transform `t`, or reset by `reset`. It then updates the
  node's transform in place.

## Modules

- `calculator.dfy`, module `Calculator`. It holds the character classes and
  the literal scanner (`ValueOf`, a loop method proved against the
  specification function `LiteralValue`). It also holds the compiler,
  specified one token at a time by `Advance` and `Run` (with `Compile` =
  `Run` from an empty state). It is implemented by the loop method `ToRpn`,
  whose loop body is the method `ReadToken`, with the loop methods
  `PopOperators` and `PopGroup` for the inner loops. Last come the evaluator
  functions `Arith`, `ApplyOp`, `Exec` and `Eval`, and the properties of
  compilation:
  - only appending;
  - counting operators, variables, parentheses and literals;
  - skipping blanks;
  - failing exactly on an unmatched `)`.
- `infix.dfy`, module `Infix`. It defines a grammar of infix expression
  trees and a printer. The printer puts in the parentheses the compiler's
  priorities need. The trees can also hold redundant parentheses and blanks
  around any operand. It proves that the compiler turns every printed tree into
  the tree's postfix program, and that this program evaluates to the tree's
  value. It also holds the concrete cases:
  - `2+3*4`;
  - `2^3^2` groups to the left;
  - the unit sphere, with and without blanks;
  - redundant parentheses;
  - `8-3` and `8/2`;
  - a stray `(`;
  - the missing unary minus.
- `geometry.dfy`, module `Geometry`. It holds the CSG predicates, transforms
  as a term algebra, the `Node` and `Animation` classes, the `Schedule`
  function and its periodicity theorem.
- `surface.dfy`, module `Surface`. It holds the `ArithmeticCalculator` and
  `ImplicitSurface` classes and the method `Apply` (`apply` on the value
  stack).

Values are `real`. C's `pow` and IEEE division by zero have no real-number
meaning, so they come in as the two functions of a `FloatOps` parameter.
Division by a nonzero value is exact real division.

The C++ code has undefined behaviour in the places below. Each becomes an
explicit error or a precondition, except the last two: the `tmp` overflow
is not modelled (the text is compiled whole), and the `end()` read gets a
definite reading:
- `)` with no `(` on the operator stack (`to_rpn`, line 135) gives
  `UnmatchedClose`. The calculator's constructor requires that parentheses
  close.
- `apply` with fewer than two values gives `StackUnderflow`.
- `top()` on an empty result stack gives `EmptyStack`.
- In `Animation::apply`, signed 32-bit overflow and a zero `duration + 1`
  are excluded by the precondition `Defined`, and a null `node` by the
  precondition `node != null`.
- In `ImplicitSurface::fillProperties`, an expression text of more than 255
  characters overflows the `tmp` buffer. It is not modelled: the text is
  compiled whole (see "## Left out").
- `valueof` dereferences `end()` when a literal ends the text. This is
  neither an error nor a precondition here. The end of the string stops
  the scan like any character that is not a digit or a dot, which is what
  the terminating NUL of `std::string` does in practice.

## Model

| member | source | states |
|---|---|---|
| Calculator.IsDigit | src/implicit_surface.cpp:74 | a digit is neither a dot nor the constant tag |
| Calculator.IsNumChar | src/implicit_surface.cpp:74 | a character of a literal is neither a parenthesis nor the constant tag |
| Calculator.IsOp | src/implicit_surface.cpp:102-104 | an operator character is not a literal character, a parenthesis or the constant tag, so at most one branch of `to_rpn` takes it |
| Calculator.IsVar | src/implicit_surface.cpp:132 | a coordinate variable is neither an operator, a literal character, a parenthesis nor the constant tag |
| Calculator.Priority | src/implicit_surface.cpp:106-115 | priority is at most 3, and positive exactly for the five operators, so '(' and every other character have priority 0 |
| Calculator.NumRun | src/implicit_surface.cpp:74-84 | the scanned run is maximal: every character in it is a digit or a dot, and the next one (if any) is neither |
| Calculator.ScanStep | src/implicit_surface.cpp:74-80 | reading one more digit multiplies the integer of all digits read by 10 and adds the digit; a dot leaves that integer alone and only makes the flag true |
| Calculator.ScanFraction | src/implicit_surface.cpp:74-84 | the number of digits after the first dot, whose power of ten is the divisor, grows by one exactly when a digit is read after a dot has been seen |
| Calculator.DotReading | src/implicit_surface.cpp:70-86 | a literal whose part before the first dot is all digits reads as that integer plus the digits after the dot, taken together, divided by ten to their number |
| Calculator.DecimalReading | src/implicit_surface.cpp:70-86 | a literal `i.f` of digits reads as integer part `i` plus `f / 10^len(f)` |
| Calculator.IntegerReading | src/implicit_surface.cpp:70-86 | a literal without a dot reads as the integer its digits write |
| Calculator.LiteralExamples | src/implicit_surface.cpp:70-86 | "3.14" reads as 3.14 and ".5" as 0.5 |
| Calculator.LaterDotsSkipped | src/implicit_surface.cpp:74-80 | dots after the first are skipped: removing a second dot from any literal with a digit integer part leaves its value unchanged, so "3..14" reads as "3.14" and "1.2.3" as "1.23" |
| Calculator.ScanMeaning | src/implicit_surface.cpp:74-84 | reading a literal one character at a time, as the loop does, keeps the accumulator equal to the integer of all its digits, the flag equal to "a dot was read" and the divisor equal to ten to the number of digits after the first dot |
| Calculator.ScannedValue | src/implicit_surface.cpp:70-86 | at the end of a literal the divisor is at least 1, and the accumulator over the divisor is the literal's value |
| Calculator.ValueOf | src/implicit_surface.cpp:70-87 | the loop returns the value of the maximal literal starting at the cursor, and the index of its last character, so that `p++` resumes right after it |
| Calculator.PopAtLeast | src/implicit_surface.cpp:124-127 | it only pops: the stack that stays is a prefix of the old one, the old output is a prefix of the new one, one instruction is emitted per operator popped, and the top that stays binds more loosely than the incoming priority |
| Calculator.CloseParen | src/implicit_surface.cpp:134-138 | it fails exactly when no '(' is stacked; otherwise the stack that stays is a proper prefix of the old one, directly below a '(', and the output is only appended to |
| Calculator.Flush | src/implicit_surface.cpp:143-145 | the final flush only appends, one instruction per stacked operator |
| Calculator.PopAtLeastSpec | src/implicit_surface.cpp:124-128 | before an operator is pushed, the stacked operators of equal or higher priority are popped top first and emitted in that order; what stays has a top of lower priority |
| Calculator.CloseParenKeeps | src/implicit_surface.cpp:134-138 | `)` fails exactly when no '(' is stacked; otherwise it removes the stack down to and including the nearest '(' |
| Calculator.CloseParenEmits | src/implicit_surface.cpp:134-138 | the operators `)` removes above the '(' are emitted top first, and the '(' itself is not |
| Calculator.FlushEmits | src/implicit_surface.cpp:143-145 | the final flush emits everything left on the stack, top first, '(' included |
| Calculator.Advance | src/implicit_surface.cpp:121-140 | each token consumes at least one character and leaves a suffix of the input, so the scan terminates |
| Calculator.ReadToken | src/implicit_surface.cpp:121-140 | one pass of the main loop fails exactly when the specification step fails; otherwise it yields the specified rest of the input and the new output and stack |
| Calculator.PopOperators | src/implicit_surface.cpp:125-127 | the operator-popping loop computes the specified pop |
| Calculator.PopGroup | src/implicit_surface.cpp:134-138 | the `)` loop finds a '(' exactly when the specification does, and then yields the specified output and stack |
| Calculator.ToRpn | src/implicit_surface.cpp:117-147 | `to_rpn` computes exactly the specified compilation of the text appended to the list it is given, and fails exactly where the specification does |
| Calculator.Run | src/implicit_surface.cpp:117-147 | compilation only appends to the output it starts from, and fails only with `UnmatchedClose`, on text that holds a `)` |
| Calculator.Compile | src/implicit_surface.cpp:117-147 | the empty text compiles to the empty program; compilation fails only with `UnmatchedClose`, on text that holds a `)` |
| Calculator.RunIgnored | src/implicit_surface.cpp:121-140 | a character that is no token (a blank, say) emits nothing and changes no stack |
| Calculator.RunBlanks | src/implicit_surface.cpp:121-140 | a run of such characters before any text changes nothing about its compilation |
| Calculator.RunAppends | src/implicit_surface.cpp:117-147 | compiling onto a non-empty list gives that list followed by the compilation onto an empty one: `to_rpn` only appends |
| Calculator.SymbolCounts | src/implicit_surface.cpp:122-139 | a one-character token moves operators, variables and '(' between input, stack and output without creating or losing any, except that `)` discards one '(' |
| Calculator.AdvanceCounts | src/implicit_surface.cpp:121-140 | the same conservation holds for every token, literals included |
| Calculator.RunCounts | src/implicit_surface.cpp:121-145 | the program holds each operator, variable and '(' as often as the initial state and the input hold it, less one '(' per `)` |
| Calculator.OperatorsEmittedOnce | src/implicit_surface.cpp:127-128 | each operator character of the source appears in the program exactly as often as in the source |
| Calculator.VariablesEmittedOnce | src/implicit_surface.cpp:132-133 | each coordinate variable of the source appears in the program exactly as often as in the source |
| Calculator.AdvanceOthers | src/implicit_surface.cpp:121-140 | one token leaves the count of every tag other than an operator, a variable or '(' unchanged, except that a literal adds one constant |
| Calculator.RunOthers | src/implicit_surface.cpp:121-145 | the program holds each such tag as often as the initial state does, plus, for the constant tag, one per literal of the input |
| Calculator.LiteralsEmittedOnce | src/implicit_surface.cpp:130-131 | a compiled program pushes exactly one constant per literal of its source |
| Calculator.OnlyTokenTags | src/implicit_surface.cpp:121-145 | no tag other than constants, operators, variables and '(' reaches a compiled program: not `)`, not a blank |
| Calculator.NoParenWhenBalanced | src/implicit_surface.cpp:134-145 | with as many '(' as ')', no '(' reaches the program |
| Calculator.PopAtLeastKeepsOpen | src/implicit_surface.cpp:125-128 | pushing an operator never pops a '(' |
| Calculator.CloseParenOpen | src/implicit_surface.cpp:134-138 | `)` finds a '(' exactly when one is open, and closes exactly one |
| Calculator.AdvanceParens | src/implicit_surface.cpp:121-140 | a token fails exactly when it is a `)` with no '(' open, and otherwise keeps the count of open parentheses in step with the text |
| Calculator.RunFailsIffUnmatched | src/implicit_surface.cpp:121-145 | compilation from any state succeeds exactly when no `)` closes more than is open, and it can only fail with `UnmatchedClose` |
| Calculator.CompileFailsIffUnmatched | src/implicit_surface.cpp:134-136 | compiling from scratch fails exactly on text with an unmatched `)` |
| Calculator.Arith | src/implicit_surface.cpp:92-99 | `+ - *` are the real operations on the left then the right operand; `/` by a nonzero value inverts `*`; `^` is `pow`; any other tag gives 0 |
| Calculator.ApplyOp | src/implicit_surface.cpp:89-100 | it fails exactly when fewer than two values are stacked; otherwise it replaces the top two with the operator applied to the lower one (left) and the top one (right), leaving the rest alone |
| Calculator.Step | src/implicit_surface.cpp:154-158 | one instruction fails only with `StackUnderflow`, on fewer than two values; a constant pushes its own value and `x/X`, `y/Y`, `z/Z` push the matching coordinate, keeping the stack below; an operator replaces the top two values by one and keeps the rest |
| Calculator.Exec | src/implicit_surface.cpp:151-158 | running a program fails only with `StackUnderflow`, and adds at most one value per instruction |
| Calculator.Eval | src/implicit_surface.cpp:149-161 | the empty program fails with `EmptyStack` (the `top()` of an empty stack); every failure is an underflow or an empty stack |
| Infix.PendingFacts | src/implicit_surface.cpp:124-128 | after an expression has been read, the operators still stacked bind at least as tightly as the expression (their priority is no lower than its rank), and flushing them completes its postfix program |
| Infix.PopAll | src/implicit_surface.cpp:125-127 | an operator pops exactly the stacked operators above the last one of lower priority |
| Infix.CloseAll | src/implicit_surface.cpp:134-138 | `)` pops exactly the operators above the innermost '(' |
| Infix.PrintRun | src/implicit_surface.cpp:121-140 | reading a printed expression, followed by text that cannot extend a literal, from any state whose top operator binds more loosely than the expression, emits its finished part and stacks its pending operators above that state |
| Infix.GroupRun | src/implicit_surface.cpp:122-138 | reading a parenthesised expression, from any state and whatever text follows it, emits its whole postfix program and leaves the stack as it was |
| Infix.BinRun | src/implicit_surface.cpp:121-140 | what PrintRun states, for a binary expression `l op r`: from any state whose top operator binds more loosely than `op`, reading its text emits its finished part and stacks its pending operators above that state, by composing the runs of its operands through the operator |
| Infix.OperatorRun | src/implicit_surface.cpp:124-128 | reading an operator after its left operand pops the left operand's pending operators and pushes the operator |
| Infix.SideRun | src/implicit_surface.cpp:121-140 | reading an operand that may be wrapped in parentheses: what PrintRun states when it is not wrapped, and what GroupRun states when it is |
| Infix.CompileCorrect | src/implicit_surface.cpp:117-147 | every well-formed expression tree, printed with any redundant parentheses and blanks around its operands, compiles to its postfix program |
| Infix.ExecPost | src/implicit_surface.cpp:153-158 | running an expression's postfix program pushes exactly the expression's value on top of whatever is stacked |
| Infix.ExecOperator | src/implicit_surface.cpp:90-97 | an operator instruction replaces the top two values with the operator applied to them, left operand below |
| Infix.EvalPost | src/implicit_surface.cpp:149-161 | evaluating an expression's postfix program gives the expression's value |
| Infix.PostLeavesOneValue | src/implicit_surface.cpp:149-161 | that program never underflows and leaves exactly one value, the expression's value |
| Infix.CalculatorComputesValue | src/implicit_surface.cpp:117-161 | for every well-formed expression, with any redundant parentheses and blanks around its operands, compiling its text and evaluating the program at any point gives the expression's value there |
| Infix.SmallIntegers | src/implicit_surface.cpp:70-86 | the literals "1" to "4" read as 1 to 4 |
| Infix.MixedFacts | src/implicit_surface.cpp:92-95 | the tree 2+(3*4) prints as "2+3*4" and has the value 14 |
| Infix.PriorityExample | src/implicit_surface.cpp:124-128 | "2+3*4" evaluates to 14: multiplication first |
| Infix.PowerPrints | src/implicit_surface.cpp:124-128 | (2^3)^2 prints without parentheses, and 2^(3^2) needs them |
| Infix.PowerGroupsLeft | src/implicit_surface.cpp:125-126 | "2^3^2" compiles as (2^3)^2 and not as 2^(3^2) |
| Infix.SpherePrint | src/implicit_surface.cpp:121-140 | the unit-sphere tree prints as "x*x+y*y+z*z-1" |
| Infix.SphereValue | src/implicit_surface.cpp:93-95 | the unit-sphere tree is 0 at (1, 0, 0) |
| Infix.SphereExample | src/implicit_surface.cpp:149-161 | "x*x+y*y+z*z-1" compiles and evaluates to 0 at (1, 0, 0) |
| Infix.SpacedSpherePrint | src/implicit_surface.cpp:121-140 | the unit sphere with blanks around '+' and '-' prints as "x*x + y*y + z*z - 1" |
| Infix.SpacedSphereFacts | src/implicit_surface.cpp:121-140 | that tree is well formed and has the postfix program of the unblanked sphere |
| Infix.SpacedSphereExample | src/implicit_surface.cpp:117-161 | "x*x + y*y + z*z - 1" compiles to the same program as "x*x+y*y+z*z-1" and is 0 at (1, 0, 0) |
| Infix.GroupedFacts | src/implicit_surface.cpp:122-138 | the tree (x)*((y)) prints as "(x)*((y))" and its postfix program is x, y, '*' |
| Infix.RedundantParens | src/implicit_surface.cpp:117-161 | "(x)*((y))" compiles to the program of "x*y" and evaluates to the product of x and y |
| Infix.UnaryMinusCompiles | src/implicit_surface.cpp:124-131 | "-1" compiles to the literal 1 followed by '-' |
| Infix.UnaryMinusUnderflows | src/implicit_surface.cpp:90-91 | there is no unary minus: evaluating "-1" finds one operand for '-' |
| Infix.OperandsFacts | src/implicit_surface.cpp:94-96 | the trees 8-3 and 8/2 print as "8-3" and "8/2" and have the values 5 and 4 |
| Infix.OperandOrder | src/implicit_surface.cpp:90-96 | the right operand is popped first: "8-3" evaluates to 5 and "8/2" to 4 |
| Infix.StrayParenCompiles | src/implicit_surface.cpp:122-123 | "x(y" compiles to x, y and then the never-closed '(' that the final flush emits |
| Infix.StrayParenGivesZero | src/implicit_surface.cpp:98 | that '(' is applied as an unknown operator: it pops both values and pushes 0 |
| Geometry.BoolOp | src/geometry.h:120-133 | no operator accepts a point that lies in neither solid; with the point outside B, CsgAnd rejects it and CsgPlus and CsgMinus accept it exactly when it is in A |
| Geometry.CsgSolids | src/geometry.h:120-133 | the points a CsgAnd, CsgPlus or CsgMinus accepts form the intersection, the union and the difference of the two solids |
| Geometry.CsgSymmetry | src/geometry.h:122-127 | CsgAnd and CsgPlus are symmetric in their operands, and CsgMinus is not |
| Geometry.CsgMinusEdges | src/geometry.h:132 | subtracting nothing keeps A, and nothing inside B survives |
| Geometry.Compose | src/geometry.h:197-200 | composing keeps the transposed inverse equal to the transpose of the new inverse, multiplies the matrix on the right and the inverse on the left, and adds the offsets |
| Geometry.Node.constructor | src/geometry.h:140 | a node holds the transform it is given |
| Geometry.Animation.constructor | src/geometry.h:160-167 | an animation holds its node, its 32-bit start, duration and repetition count, and its step and reset transforms |
| Geometry.Animation.Apply | src/geometry.h:193-208 | the node's new transform is the old one with the scheduled action performed: unchanged, stepped by `t`, or reset by `reset` |
| Geometry.Schedule | src/geometry.h:195-207 | a frame holds exactly when it is at or before the start frame or past the last repetition; an acting frame has a nonzero divisor |
| Geometry.Perform | src/geometry.h:195-207 | a held frame leaves the transform as it is; an acting one leaves the transposed inverse consistent with the inverse |
| Geometry.ResetsOnMultiples | src/geometry.h:196 | a frame after the start and before the end of the repetitions resets exactly when C's truncating remainder of its distance from the start by `duration + 1` is zero, for a divisor of either sign |
| Geometry.NeverStops | src/geometry.h:195 | with a repetition count of zero or less, every frame after the start acts |
| Geometry.ActionsCompose | src/geometry.h:196-207 | an acting frame composes the transform with exactly one of reset (on a reset frame) and step (otherwise), recomputes the transposed inverse from the new inverse, and adds that action's offset |
| Geometry.FrameOfCycle | src/geometry.h:196-207 | within each repetition, frame `i` steps, except the last frame (`i == duration`), which resets |
| Geometry.Periodic | src/geometry.h:193-208 | the first `n` repetitions after the start frame are `n` copies of `duration` steps followed by one reset |
| Surface.Apply | src/implicit_surface.cpp:89-100 | the method pops the right operand, then the left one, and pushes their combination, exactly as `ApplyOp` specifies, failing on underflow |
| Surface.Invoke | src/implicit_surface.h:32-36 | calling the surface function fails with `EmptyFunction` exactly when none is set; a set one runs the calculator's program at the point |
| Surface.ArithmeticCalculator.constructor | src/implicit_surface.h:27 | the program is exactly the compilation of the expression; the empty expression gives the empty program without compiling |
| Surface.ArithmeticCalculator.Call | src/implicit_surface.cpp:149-161 | the evaluation loop returns exactly the specified evaluation of the stored program at the point, including its failures |
| Surface.CallTwice | src/implicit_surface.h:18-28 | evaluating twice at the same point gives the same result: evaluation neither depends on nor changes anything but the program |
| Surface.ImplicitSurface.constructor | src/implicit_surface.h:39-40 | a default surface has no function, zero maximal gradient, no bounding geometry and an empty calculator |
| Surface.ImplicitSurface.WithFunction | src/implicit_surface.h:39-40 | the constructor stores the function, maximal gradient and bounding geometry it is given |
| Surface.ImplicitSurface.FillProperties | src/implicit_surface.h:43-52 | the surface gets a fresh calculator compiled from the expression text, its function becomes that calculator, and the maximal gradient and boundary change only when the block gives them |

## Left out

- `ImplicitSurface::intersect` and `computeGradient` (ray marching, finite differences, sign tests, the escape bound and epsilon doubling) are floating-point numerics with no exact statement; they are not part of this model.
- The `intersect` bodies of Plane, Sphere, Cube, CsgOp and Node are not in the source shown, and are floating-point geometry. Only the CSG membership rule is modelled, as sets of points.
- Floating-point rounding is not modelled: values are reals. `pow` and division by zero are parameters (`FloatOps`).
- Calculator.Arith: for `/` by a nonzero value the contract states the inverse property (`v * r == l`) rather than IEEE division.
- Surface.ImplicitSurface.FillProperties: the scene parser (`ParsedBlock`) is not part of this model, so the method takes the text of `expr` and the optional `MaxGrad` and `boundary` entries as parameters. The bounding geometry is referred to by its name in the scene.
- The 256-byte `tmp` buffer in `fillProperties` is not modelled: an expression longer than 255 characters overflows it in the C++ code, and here it is compiled whole.
- The `std::function` held in `ImplicitSurface::f` is reduced to a datatype: either empty, or a copy of a calculator's program. Calling an empty one gives `EmptyFunction` instead of throwing `std::bad_function_call`.
- Surface.ArithmeticCalculator.constructor requires that every `)` closes an open `(`. On other text the C++ code reads `top()` of an empty stack, which is undefined behaviour. `Compile` itself reports such text as `UnmatchedClose`.
- Geometry.Animation.Apply requires `Defined`: no signed 32-bit overflow in `frameNo - start`, `duration + 1` or `(duration + 1) * repCount`, and no zero divisor where the remainder is taken. Those cases are undefined behaviour in C++.
- `Animation::fillProperties` is not modelled: it builds `t` and `reset` with matrix operations and `pow` on floats. The constructor takes the two transforms as given. Matrices are terms (`Named`, `Product`, `Transposed`), not numbers.
- The `printf` of "Reset animation!" in `Animation::apply` is output only and is left out.
- A null `node` in `Animation::apply` is undefined behaviour in C++ and is excluded by a precondition.
- Node's geometry, shader and bump-map pointers, and the translate, rotate and scale vectors of an Animation, are not modelled: only what the transform updates read.
- Infix.CalculatorComputesValue: covers the texts of expression trees, with any redundant parentheses and any blanks around operands. It does not cover blanks inside a literal, which split it into two literals, nor text outside the tree grammar, such as unary minus or a stray '(' (shown by separate examples).
- Geometry.FrameOfCycle: takes `duration` of zero or more. A negative `duration` gives a divisor `duration + 1` of zero or less, a case this lemma does not describe.
- Geometry.Periodic: takes `duration` of zero or more, for the same reason.
- Calculator.LiteralValue carries no contract of its own. What it means is stated by ScanMeaning, DotReading, DecimalReading, IntegerReading and LaterDotsSkipped.
- `ArithmeticCalculator::rpn` is a C++ `list`; here it is a sequence, so in-place list nodes and iterators are not modelled.
- src/bitmap.h and src/main.cpp (image I/O, windowing, threads, timing) are not part of this model.
