/** The expression compiler and interpreter behind ArithmeticCalculator
    (src/implicit_surface.cpp): character classes, the literal scanner
    `valueof`, the shunting-yard compiler `to_rpn` and the stack evaluator
    `apply` / `operator()`.

    The C++ code reaches undefined behaviour on three kinds of malformed
    input; here each becomes an explicit error result (UnmatchedClose,
    StackUnderflow, EmptyStack). The fourth error, EmptyFunction, is not
    raised here: it stands for the `std::bad_function_call` of calling an
    ImplicitSurface whose function is unset (module Surface). */
module Calculator {

  datatype Option<T> = None | Some(value: T)

  datatype Error =
    | UnmatchedClose   // ')' finds no '(' on the operator stack
    | StackUnderflow   // an operator finds fewer than two operands
    | EmptyStack       // the program leaves no value to return
    | EmptyFunction    // an unset surface function is called

  datatype Result<T> = Ok(value: T) | Err(error: Error)

  /** One program step: a tag and a literal value. Tag '\0' pushes the
      value, x/X, y/Y and z/Z push a coordinate, any other tag is applied as
      a binary operator. */
  type Instr = (char, real)
  type Program = seq<Instr>

  const ConstTag: char := '\0'

  /** IEEE `pow` and division by zero are not real-number operations; the
      model takes them as parameters. */
  datatype FloatOps = FloatOps(pow: (real, real) -> real, divByZero: real -> real)

  function Last<T>(s: seq<T>): T
    requires s != []
  {
    s[|s| - 1]
  }

  // ---------------------------------------------------------------------
  // Character classes: isdigit, isop, priority
  // ---------------------------------------------------------------------

  /** `isdigit`: a digit is neither the dot nor the constant tag. */
  predicate IsDigit(c: char)
    ensures IsDigit(c) ==> c != '.' && c != ConstTag
  {
    '0' <= c <= '9'
  }

  /** A character that `valueof` consumes; never a parenthesis. */
  predicate IsNumChar(c: char)
    ensures IsNumChar(c) ==> c != '(' && c != ')' && c != ConstTag
  {
    IsDigit(c) || c == '.'
  }

  /** `isop`: an operator is no literal character and no parenthesis, so the
      order of the tests in `to_rpn` does not matter. */
  predicate IsOp(c: char)
    ensures IsOp(c) ==> !IsNumChar(c) && c != '(' && c != ')' && c != ConstTag
  {
    c == '+' || c == '-' || c == '*' || c == '/' || c == '^'
  }

  /** A coordinate variable is neither an operator nor a literal character,
      and its tag differs from the constant tag. */
  predicate IsVar(c: char)
    ensures IsVar(c) ==> !IsOp(c) && !IsNumChar(c) && c != '(' && c != ')' && c != ConstTag
  {
    c == 'x' || c == 'X' || c == 'y' || c == 'Y' || c == 'z' || c == 'Z'
  }

  /** A character that `to_rpn` reads past without emitting or stacking
      anything, such as a blank. */
  predicate Ignored(c: char)
  {
    !IsNumChar(c) && !IsOp(c) && !IsVar(c) && c != '(' && c != ')'
  }

  /** Operator precedence; everything that is not an operator, '(' included,
      has priority 0, so an operator never pops a '('. */
  function Priority(c: char): (p: nat)
    ensures p <= 3
    ensures p > 0 <==> IsOp(c)
  {
    match c
    case '+' => 1
    case '-' => 1
    case '*' => 2
    case '/' => 2
    case '^' => 3
    case _ => 0
  }

  // ---------------------------------------------------------------------
  // Literals: valueof
  // ---------------------------------------------------------------------

  /** Length of the maximal run of digits and dots at the front of `s`. */
  function NumRun(s: string): (n: nat)
    ensures n <= |s|
    ensures forall k :: 0 <= k < n ==> IsNumChar(s[k])
    ensures n == |s| || !IsNumChar(s[n])
  {
    if s != [] && IsNumChar(s[0]) then 1 + NumRun(s[1..]) else 0
  }

  /** The run length is determined by the two properties above. */
  lemma NumRunIs(s: string, n: nat)
    requires n <= |s|
    requires forall k :: 0 <= k < n ==> IsNumChar(s[k])
    requires n == |s| || !IsNumChar(s[n])
    ensures NumRun(s) == n
  {
  }

  /** The digits of `s`, in order. */
  function Digits(s: string): (d: string)
    ensures |d| <= |s|
    ensures forall k :: 0 <= k < |d| ==> IsDigit(d[k])
  {
    if s == [] then []
    else (if IsDigit(s[0]) then [s[0]] else []) + Digits(s[1..])
  }

  function DigitValue(c: char): (v: nat)
    ensures v <= 9
  {
    if IsDigit(c) then c as int - '0' as int else 0
  }

  /** The integer written by a string of decimal digits. */
  function NatOf(ds: string): nat
  {
    if ds == [] then 0 else 10 * NatOf(ds[..|ds| - 1]) + DigitValue(Last(ds))
  }

  /** What follows the first '.' of `s`; empty when there is none. */
  function AfterFirstDot(s: string): (r: string)
    ensures |r| <= |s|
  {
    if s == [] then []
    else if s[0] == '.' then s[1..]
    else AfterFirstDot(s[1..])
  }

  function Pow10(n: nat): (r: nat)
    ensures r >= 1
  {
    if n == 0 then 1 else 10 * Pow10(n - 1)
  }

  /** The value of a literal: the integer formed by all its digits, divided
      by ten to the number of digits after its first dot. Later dots are
      skipped. */
  function LiteralValue(lit: string): real
  {
    NatOf(Digits(lit)) as real / Pow10(FracLen(lit)) as real
  }

  lemma {:induction false} DigitsAppend(a: string, b: string)
    ensures Digits(a + b) == Digits(a) + Digits(b)
  {
    if a != [] {
      assert (a + b)[1..] == a[1..] + b;
      DigitsAppend(a[1..], b);
    } else {
      assert a + b == b;
    }
  }

  lemma DigitsOfDigits(s: string)
    requires forall k :: 0 <= k < |s| ==> IsDigit(s[k])
    ensures Digits(s) == s
  {
    if s != [] {
      assert s == [s[0]] + s[1..];
      DigitsOfDigits(s[1..]);
    }
  }

  lemma NatOfSnoc(ds: string, c: char)
    ensures NatOf(ds + [c]) == 10 * NatOf(ds) + DigitValue(c)
  {
    assert (ds + [c])[..|ds|] == ds;
  }

  lemma {:induction false} AfterFirstDotSnoc(s: string, c: char)
    ensures AfterFirstDot(s + [c]) == if '.' in s then AfterFirstDot(s) + [c] else []
  {
    if s == [] {
      assert AfterFirstDot([c]) == AfterFirstDot([]);
    } else {
      assert (s + [c])[1..] == s[1..] + [c];
      if s[0] != '.' {
        AfterFirstDotSnoc(s[1..], c);
        assert ('.' in s) == ('.' in s[1..]);
      }
    }
  }

  /** NatOf reads its digits positionally. */
  lemma {:induction false} NatOfConcat(a: string, b: string)
    ensures NatOf(a + b) == NatOf(a) * Pow10(|b|) + NatOf(b)
    decreases |b|
  {
    if b == [] {
      assert a + b == a;
    } else {
      var b' := b[..|b| - 1];
      assert a + b == (a + b') + [Last(b)];
      assert b == b' + [Last(b)];
      NatOfSnoc(a + b', Last(b));
      NatOfSnoc(b', Last(b));
      NatOfConcat(a, b');
      ShiftDigit(NatOf(a), Pow10(|b'|), NatOf(b'), DigitValue(Last(b)));
    }
  }

  lemma ShiftDigit(a: int, p: int, b: int, d: int)
    ensures 10 * (a * p + b) + d == a * (10 * p) + (10 * b + d)
  {
  }

  lemma DivideShifted(n: int, f: int, p: int)
    requires p > 0
    ensures (n * p + f) as real / p as real == n as real + f as real / p as real
  {
    assert (n * p + f) as real == n as real * p as real + f as real;
  }

  lemma {:induction false} AfterFirstDotSkips(i: string, f: string)
    requires '.' !in i
    ensures AfterFirstDot(i + ['.'] + f) == f
  {
    if i == [] {
      assert i + ['.'] + f == ['.'] + f;
    } else {
      assert (i + ['.'] + f)[1..] == i[1..] + ['.'] + f;
      AfterFirstDotSkips(i[1..], f);
    }
  }

  /** The number of digits after the first dot of a literal: the power of
      ten its digits are divided by. */
  function FracLen(lit: string): nat
  {
    |Digits(AfterFirstDot(lit))|
  }

  /** A literal whose integer part `i` is made of digits reads as `i` plus
      the digits that follow its first dot, whatever dots are among them,
      as a fraction. */
  lemma {:induction false} DotReading(i: string, f: string)
    requires forall k :: 0 <= k < |i| ==> IsDigit(i[k])
    ensures LiteralValue(i + ['.'] + f)
         == NatOf(i) as real + NatOf(Digits(f)) as real / Pow10(|Digits(f)|) as real
  {
    var lit := i + ['.'] + f;
    var d := Digits(f);
    DottedDigits(i, f);
    AfterFirstDotSkips(i, f);
    assert FracLen(lit) == |d|;
    NatOfConcat(i, d);
    DivideShifted(NatOf(i), NatOf(d), Pow10(|d|));
  }

  /** The digits of `i.f` are those of `i` followed by those of `f`. */
  lemma DottedDigits(i: string, f: string)
    requires forall k :: 0 <= k < |i| ==> IsDigit(i[k])
    ensures Digits(i + ['.'] + f) == i + Digits(f)
  {
    DigitsAppend(i + ['.'], f);
    DigitsAppend(i, ['.']);
    DigitsOfDigits(i);
    assert Digits(['.']) == [];
    assert Digits(i + ['.']) == i;
  }

  /** A literal `i.f` made of digits reads as the decimal number with integer
      part `i` and fraction `f`. */
  lemma {:induction false} DecimalReading(i: string, f: string)
    requires forall k :: 0 <= k < |i| ==> IsDigit(i[k])
    requires forall k :: 0 <= k < |f| ==> IsDigit(f[k])
    ensures LiteralValue(i + ['.'] + f)
         == NatOf(i) as real + NatOf(f) as real / Pow10(|f|) as real
  {
    DotReading(i, f);
    DigitsOfDigits(f);
  }

  /** A literal without a dot reads as the integer its digits write. */
  lemma {:induction false} IntegerReading(i: string)
    requires forall k :: 0 <= k < |i| ==> IsDigit(i[k])
    ensures LiteralValue(i) == NatOf(i) as real
  {
    DigitsOfDigits(i);
    NoDotNothingAfter(i);
  }

  lemma {:induction false} NoDotNothingAfter(s: string)
    requires '.' !in s
    ensures AfterFirstDot(s) == []
  {
    if s != [] {
      NoDotNothingAfter(s[1..]);
    }
  }

  /** What reading one more digit or dot does to the integer of all digits
      that `valueof` keeps in `result`, and to its `flag`: a digit shifts
      the integer and adds itself, a dot only sets the flag. */
  lemma {:induction false} ScanStep(lit: string, ch: char)
    requires IsNumChar(ch)
    ensures IsDigit(ch) ==> NatOf(Digits(lit + [ch])) == 10 * NatOf(Digits(lit)) + DigitValue(ch)
    ensures ch == '.' ==> Digits(lit + [ch]) == Digits(lit)
    ensures ('.' in lit + [ch]) == ('.' in lit || ch == '.')
  {
    DigitsAppend(lit, [ch]);
    if IsDigit(ch) {
      assert Digits([ch]) == [ch];
      NatOfSnoc(Digits(lit), ch);
    } else {
      assert Digits([ch]) == [];
      assert Digits(lit) + [] == Digits(lit);
    }
  }

  /** What reading one more digit or dot does to the number of digits after
      the first dot, which `valueof` keeps as the power `deg`: it grows by
      one exactly for a digit read after a dot. */
  lemma {:induction false} ScanFraction(lit: string, ch: char)
    requires IsNumChar(ch)
    ensures FracLen(lit + [ch]) == FracLen(lit) + (if '.' in lit && IsDigit(ch) then 1 else 0)
  {
    AfterFirstDotSnoc(lit, ch);
    if '.' in lit {
      DigitsAppend(AfterFirstDot(lit), [ch]);
      if IsDigit(ch) {
        assert Digits([ch]) == [ch];
      } else {
        assert Digits([ch]) == [];
      }
    } else {
      NoDotNothingAfter(lit);
      assert Digits([]) == [];
    }
  }

  lemma NatOfExamples()
    ensures NatOf("3") == 3 && NatOf("5") == 5 && NatOf("14") == 14
    ensures NatOf("123") == 123 && NatOf("314") == 314
  {
    assert "14"[..1] == "1";
    assert "123"[..2] == "12" && "12"[..1] == "1";
    assert "314"[..2] == "31" && "31"[..1] == "3";
  }

  /** Concrete readings: "3.14" is 314/100 and a leading dot reads as a
      fraction. */
  lemma LiteralExamples()
    ensures LiteralValue("3.14") == 3.14
    ensures LiteralValue(".5") == 0.5
  {
    NatOfExamples();
    assert Digits("3.14") == "314";
    assert AfterFirstDot("3.14") == "14";
    assert Digits("14") == "14";
    assert Pow10(2) == 100;
    assert Digits(".5") == "5";
    assert AfterFirstDot(".5") == "5";
    assert Digits("5") == "5";
  }

  /** Dots after the first are skipped: a second dot anywhere in the
      fraction changes nothing, so "3..14" reads as "3.14" and "1.2.3" as
      "1.23". */
  lemma {:induction false} LaterDotsSkipped(i: string, f: string, g: string)
    requires forall k :: 0 <= k < |i| ==> IsDigit(i[k])
    ensures LiteralValue(i + ['.'] + f + ['.'] + g) == LiteralValue(i + ['.'] + f + g)
  {
    assert i + ['.'] + f + ['.'] + g == i + ['.'] + (f + ['.'] + g);
    assert i + ['.'] + f + g == i + ['.'] + (f + g);
    DotReading(i, f + ['.'] + g);
    DotReading(i, f + g);
    DigitsAppend(f + ['.'], g);
    DigitsAppend(f, ['.']);
    DigitsAppend(f, g);
    assert Digits(['.']) == [];
    assert Digits(f + ['.']) == Digits(f);
  }

  /** The quantities `valueof` keeps once it has read `lit`: `result` is
      the integer of all its digits, `flag` says whether a dot was seen, and
      `deg` is ten to the number of digits after that dot. */
  ghost predicate Scanned(lit: string, result: real, deg: real, flag: bool)
  {
    result == NatOf(Digits(lit)) as real &&
    flag == ('.' in lit) &&
    deg == Pow10(FracLen(lit)) as real
  }

  /** One pass of the `valueof` loop keeps those quantities up to date. */
  lemma ScanUpdate(lit: string, ch: char, result: real, deg: real, flag: bool)
    requires IsNumChar(ch) && Scanned(lit, result, deg, flag)
    ensures IsDigit(ch) ==>
      Scanned(lit + [ch], result * 10.0 + (ch as int - '0' as int) as real,
              if flag then deg * 10.0 else deg, flag)
    ensures !IsDigit(ch) ==> Scanned(lit + [ch], result, deg, true)
  {
    ScanStep(lit, ch);
    ScanFraction(lit, ch);
  }

  /** The accumulator, scale and dot flag of `valueof` after reading
      `lit`, one character at a time as its loop does. */
  function Scan(lit: string): (real, real, bool)
    decreases |lit|
  {
    if lit == [] then (0.0, 1.0, false)
    else ScanChar(Scan(lit[..|lit| - 1]), lit[|lit| - 1])
  }

  /** One pass of the `valueof` loop: a digit shifts it into the
      accumulator (and, after a dot, scales the divisor); a dot sets the
      flag. */
  function ScanChar(acc: (real, real, bool), ch: char): (real, real, bool)
  {
    if IsDigit(ch) then
      (acc.0 * 10.0 + (ch as int - '0' as int) as real,
       if acc.2 then acc.1 * 10.0 else acc.1, acc.2)
    else (acc.0, acc.1, true)
  }

  /** Reading a literal keeps the quantities of `Scanned`. */
  lemma {:induction false} ScanMeaning(lit: string)
    requires forall k :: 0 <= k < |lit| ==> IsNumChar(lit[k])
    ensures Scanned(lit, Scan(lit).0, Scan(lit).1, Scan(lit).2)
    decreases |lit|
  {
    if lit != [] {
      var init := lit[..|lit| - 1];
      ScanMeaning(init);
      ScanUpdate(init, lit[|lit| - 1], Scan(init).0, Scan(init).1, Scan(init).2);
      assert init + [lit[|lit| - 1]] == lit;
    }
  }

  /** Once the whole literal is read, `result / deg` is its value. */
  lemma ScannedValue(lit: string)
    requires forall k :: 0 <= k < |lit| ==> IsNumChar(lit[k])
    ensures Scan(lit).1 >= 1.0 && LiteralValue(lit) == Scan(lit).0 / Scan(lit).1
  {
    ScanMeaning(lit);
  }

  /** `valueof`: reads the literal that starts at `c` and returns its value
      and the index of its last character, so that the caller's `p++`
      resumes right after the literal. The end of the string stops the scan
      like any other character that is not a digit or a dot. */
  method ValueOf(s: string, c: nat) returns (v: real, last: nat)
    requires c < |s| && IsNumChar(s[c])
    ensures last == c + NumRun(s[c..]) - 1
    ensures c <= last < |s|
    ensures v == LiteralValue(s[c..last + 1])
  {
    var result: real := 0.0;
    var deg: real := 1.0;
    var flag := false;
    var i := c;
    while i < |s| && IsNumChar(s[i])
      invariant c <= i <= |s|
      invariant forall k :: c <= k < i ==> IsNumChar(s[k])
      invariant (result, deg, flag) == Scan(s[c..i])
      decreases |s| - i
    {
      var ch := s[i];
      assert s[c..i + 1][..i - c] == s[c..i];
      if IsDigit(ch) {
        result := result * 10.0;
        result := result + (ch as int - '0' as int) as real;
        i := i + 1;
      } else {
        flag := true;
        i := i + 1;
        continue;
      }
      if flag {
        deg := deg * 10.0;
      }
    }
    NumRunIs(s[c..], i - c);
    last := i - 1;
    ScannedValue(s[c..i]);
    v := result / deg;
  }

  // ---------------------------------------------------------------------
  // The compiler: to_rpn
  // ---------------------------------------------------------------------

  /** The compiler's state: the output program so far and the operator
      stack, whose top is its last element. */
  datatype State = State(out: Program, ops: seq<char>)

  /** The instructions that popping all of `ops` emits, top first. */
  function Emission(ops: seq<char>): (p: Program)
  {
    seq(|ops|, k requires 0 <= k < |ops| => (ops[|ops| - 1 - k], 0.0))
  }

  lemma EmissionSnoc(ops: seq<char>, c: char)
    ensures Emission(ops + [c]) == [(c, 0.0)] + Emission(ops)
  {
  }

  lemma Assoc<T>(a: seq<T>, b: seq<T>, c: seq<T>)
    ensures (a + b) + c == a + (b + c)
  {
  }

  /** Pops the top operator to the output. */
  function EmitTop(st: State): State
    requires st.ops != []
  {
    State(st.out + [(Last(st.ops), 0.0)], st.ops[..|st.ops| - 1])
  }

  /** Before an operator of priority `p` is pushed, every stacked operator of
      priority `p` or more is emitted, from the top down. */
  function PopAtLeast(st: State, p: nat): (r: State)
    ensures r.ops <= st.ops && st.out <= r.out
    ensures |r.out| - |st.out| == |st.ops| - |r.ops|
    ensures r.ops == [] || Priority(Last(r.ops)) < p
    decreases |st.ops|
  {
    if st.ops != [] && Priority(Last(st.ops)) >= p then PopAtLeast(EmitTop(st), p) else st
  }

  /** PopAtLeast keeps a prefix of the stack whose top has priority below
      `p`; what it removes has priority `p` or more. */
  lemma {:induction false} PopAtLeastKeeps(st: State, p: nat)
    ensures var r := PopAtLeast(st, p);
      |r.ops| <= |st.ops| && r.ops == st.ops[..|r.ops|] &&
      (forall k :: |r.ops| <= k < |st.ops| ==> Priority(st.ops[k]) >= p) &&
      (r.ops == [] || Priority(Last(r.ops)) < p)
    decreases |st.ops|
  {
    if st.ops != [] && Priority(Last(st.ops)) >= p {
      PopAtLeastKeeps(EmitTop(st), p);
    }
  }

  /** What PopAtLeast removes is emitted, top first. */
  lemma {:induction false} PopAtLeastEmits(st: State, p: nat)
    ensures var r := PopAtLeast(st, p);
      |r.ops| <= |st.ops| && r.out == st.out + Emission(st.ops[|r.ops|..])
    decreases |st.ops|
  {
    if st.ops != [] && Priority(Last(st.ops)) >= p {
      var n := |st.ops|;
      var e := EmitTop(st);
      PopAtLeastEmits(e, p);
      var m := |PopAtLeast(e, p).ops|;
      assert e.ops[m..] == st.ops[m..n - 1];
      assert st.ops[m..] == st.ops[m..n - 1] + [Last(st.ops)];
      EmissionSnoc(st.ops[m..n - 1], Last(st.ops));
      Assoc(st.out, [(Last(st.ops), 0.0)], Emission(st.ops[m..n - 1]));
    } else {
      assert st.ops[|st.ops|..] == [];
    }
  }

  lemma PopAtLeastSpec(st: State, p: nat)
    ensures var r := PopAtLeast(st, p);
      |r.ops| <= |st.ops| && r.ops == st.ops[..|r.ops|] &&
      (forall k :: |r.ops| <= k < |st.ops| ==> Priority(st.ops[k]) >= p) &&
      (r.ops == [] || Priority(Last(r.ops)) < p) &&
      r.out == st.out + Emission(st.ops[|r.ops|..])
  {
    PopAtLeastKeeps(st, p);
    PopAtLeastEmits(st, p);
  }

  /** `)`: emits the stacked operators down to the nearest '(' and discards
      it; None when the stack holds no '('. */
  function CloseParen(st: State): (r: Option<State>)
    ensures r.None? <==> '(' !in st.ops
    ensures r.Some? ==> r.value.ops < st.ops && st.ops[|r.value.ops|] == '(' && st.out <= r.value.out
    decreases |st.ops|
  {
    if st.ops == [] then None
    else if Last(st.ops) == '(' then Some(State(st.out, st.ops[..|st.ops| - 1]))
    else CloseParen(EmitTop(st))
  }

  /** `)` fails exactly when no '(' is stacked; otherwise it keeps the stack
      below the nearest '(' and what it removed above that '(' holds no
      '('. */
  lemma {:induction false} CloseParenKeeps(st: State)
    ensures CloseParen(st).None? <==> '(' !in st.ops
    ensures CloseParen(st).Some? ==>
      var k := |CloseParen(st).value.ops|;
      k < |st.ops| && st.ops[k] == '(' && CloseParen(st).value.ops == st.ops[..k] &&
      '(' !in st.ops[k + 1..]
    decreases |st.ops|
  {
    if st.ops != [] {
      var n := |st.ops|;
      if Last(st.ops) == '(' {
        assert st.ops[n..] == [];
      } else {
        var e := EmitTop(st);
        CloseParenKeeps(e);
        assert CloseParen(st) == CloseParen(e);
        assert st.ops == e.ops + [Last(st.ops)];
        assert ('(' in st.ops) == ('(' in e.ops);
        if CloseParen(e).Some? {
          var k := |CloseParen(e).value.ops|;
          assert st.ops[..k] == e.ops[..k];
          assert st.ops[k + 1..] == e.ops[k + 1..] + [Last(st.ops)];
        }
      }
    }
  }

  /** What `)` removes above the '(' is emitted, top first. */
  lemma {:induction false} CloseParenEmits(st: State)
    requires CloseParen(st).Some?
    ensures var r := CloseParen(st).value;
      |r.ops| < |st.ops| && r.out == st.out + Emission(st.ops[|r.ops| + 1..])
    decreases |st.ops|
  {
    var n := |st.ops|;
    if Last(st.ops) == '(' {
      assert st.ops[n..] == [];
    } else {
      var e := EmitTop(st);
      CloseParenEmits(e);
      var m := |CloseParen(e).value.ops| + 1;
      assert e.ops[m..] == st.ops[m..n - 1];
      assert st.ops[m..] == st.ops[m..n - 1] + [Last(st.ops)];
      EmissionSnoc(st.ops[m..n - 1], Last(st.ops));
      Assoc(st.out, [(Last(st.ops), 0.0)], Emission(st.ops[m..n - 1]));
    }
  }

  /** The final flush: every stacked entry, '(' included, is emitted. */
  function Flush(st: State): (r: Program)
    ensures st.out <= r && |r| == |st.out| + |st.ops|
    decreases |st.ops|
  {
    if st.ops == [] then st.out else Flush(EmitTop(st))
  }

  lemma {:induction false} FlushEmits(st: State)
    ensures Flush(st) == st.out + Emission(st.ops)
    decreases |st.ops|
  {
    if st.ops != [] {
      var n := |st.ops|;
      var e := EmitTop(st);
      FlushEmits(e);
      assert st.ops == e.ops + [Last(st.ops)];
      EmissionSnoc(e.ops, Last(st.ops));
      Assoc(st.out, [(Last(st.ops), 0.0)], Emission(e.ops));
    }
  }

  /** One token of the shunting-yard scan: the rest of the input and the new
      state, or None when a ')' finds no '(' on the stack. Characters that
      are not digits, dots, operators, parentheses or x/y/z emit nothing. */
  function Advance(s: string, st: State): (r: Option<(string, State)>)
    requires s != []
    ensures r.Some? ==> |r.value.0| < |s| && r.value.0 == s[|s| - |r.value.0|..]
    ensures r.Some? ==> st.out <= r.value.1.out
    ensures r.None? ==> s[0] == ')'
  {
    var c := s[0];
    if c == '(' then Some((s[1..], State(st.out, st.ops + [c])))
    else if IsOp(c) then
      var popped := PopAtLeast(st, Priority(c));
      Some((s[1..], State(popped.out, popped.ops + [c])))
    else if IsNumChar(c) then
      var n := NumRun(s);
      Some((s[n..], State(st.out + [(ConstTag, LiteralValue(s[..n]))], st.ops)))
    else if IsVar(c) then Some((s[1..], State(st.out + [(c, 0.0)], st.ops)))
    else if c == ')' then
      match CloseParen(st)
      case None => None
      case Some(st') => Some((s[1..], st'))
    else Some((s[1..], st))
  }

  /** The shunting-yard scan of `s` from state `st`, then the final flush. */
  function Run(s: string, st: State): (r: Result<Program>)
    ensures r.Ok? ==> st.out <= r.value
    ensures r.Err? ==> r.error == UnmatchedClose && ')' in s
    decreases |s|
  {
    if s == [] then Ok(Flush(st))
    else
      match Advance(s, st)
      case None => Err(UnmatchedClose)
      case Some((rest, st')) => Run(rest, st')
  }

  // One token at a time: what Run does with each kind of token.

  lemma RunStep(s: string, st: State, rest: string, st': State)
    requires s != [] && Advance(s, st) == Some((rest, st'))
    ensures Run(s, st) == Run(rest, st')
  {
  }

  lemma RunOpen(s: string, st: State)
    requires s != [] && s[0] == '('
    ensures Run(s, st) == Run(s[1..], State(st.out, st.ops + ['(']))
  {
  }

  lemma RunOperator(s: string, st: State)
    requires s != [] && IsOp(s[0])
    ensures Run(s, st)
         == Run(s[1..], State(PopAtLeast(st, Priority(s[0])).out, PopAtLeast(st, Priority(s[0])).ops + [s[0]]))
  {
  }

  lemma RunLiteral(s: string, st: State)
    requires s != [] && IsNumChar(s[0])
    ensures Run(s, st)
         == Run(s[NumRun(s)..], State(st.out + [(ConstTag, LiteralValue(s[..NumRun(s)]))], st.ops))
  {
  }

  lemma RunVariable(s: string, st: State)
    requires s != [] && IsVar(s[0])
    ensures Run(s, st) == Run(s[1..], State(st.out + [(s[0], 0.0)], st.ops))
  {
  }

  lemma RunClose(s: string, st: State)
    requires s != [] && s[0] == ')'
    ensures CloseParen(st).None? ==> Run(s, st) == Err(UnmatchedClose)
    ensures CloseParen(st).Some? ==> Run(s, st) == Run(s[1..], CloseParen(st).value)
  {
  }

  /** A character that emits nothing is skipped. */
  lemma RunIgnored(s: string, st: State)
    requires s != [] && Ignored(s[0])
    ensures Run(s, st) == Run(s[1..], st)
  {
  }

  /** A run of characters that `to_rpn` ignores, such as blanks. */
  predicate Blanks(t: string)
  {
    forall k :: 0 <= k < |t| ==> Ignored(t[k])
  }

  /** Blanks between tokens change nothing. */
  lemma {:induction false} RunBlanks(t: string, rest: string, st: State)
    requires Blanks(t)
    ensures Run(t + rest, st) == Run(rest, st)
    decreases |t|
  {
    if t == [] {
      assert t + rest == rest;
    } else {
      assert Ignored(t[0]) && Blanks(t[1..]);
      assert (t + rest)[1..] == t[1..] + rest;
      RunIgnored(t + rest, st);
      RunBlanks(t[1..], rest, st);
    }
  }

  /** What `to_rpn` produces for `expr` into an empty list. */
  function Compile(expr: string): (r: Result<Program>)
    ensures expr == [] ==> r == Ok([])
    ensures r.Err? ==> r.error == UnmatchedClose && ')' in expr
  {
    Run(expr, State([], []))
  }

  /** `to_rpn(expr, rpnExpr)`: appends the compilation of `expr` to
      `rpnExpr`. */
  method ToRpn(expr: string, rpnExpr: Program) returns (r: Result<Program>)
    ensures r == Run(expr, State(rpnExpr, []))
  {
    var p := 0;
    var out := rpnExpr;
    var ops: seq<char> := [];
    while p < |expr|
      invariant 0 <= p <= |expr|
      invariant Run(expr[p..], State(out, ops)) == Run(expr, State(rpnExpr, []))
      decreases |expr| - p
    {
      ghost var st := State(out, ops);
      var ok, last;
      ok, last, out, ops := ReadToken(expr, p, out, ops);
      if !ok {
        r := Err(UnmatchedClose);
        return;
      }
      RunStep(expr[p..], st, expr[last + 1..], State(out, ops));
      p := last + 1;
    }
    ghost var st := State(out, ops);
    while ops != []
      invariant Flush(State(out, ops)) == Flush(st)
      decreases |ops|
    {
      out := out + [(Last(ops), 0.0)];
      ops := ops[..|ops| - 1];
    }
    r := Ok(out);
  }

  /** One pass of `to_rpn`'s main loop: handles the token at `p`, whose last
      character is at `last`; `ok` is false when a ')' finds no '('. */
  method ReadToken(expr: string, p: nat, out: Program, ops: seq<char>)
    returns (ok: bool, last: nat, out': Program, ops': seq<char>)
    requires p < |expr|
    ensures ok <==> Advance(expr[p..], State(out, ops)).Some?
    ensures ok ==> p <= last < |expr|
    ensures ok ==> Advance(expr[p..], State(out, ops)).value == (expr[last + 1..], State(out', ops'))
  {
    var c := expr[p];
    ghost var s := expr[p..];
    assert s[0] == c && s[1..] == expr[p + 1..];
    ok, last, out', ops' := true, p, out, ops;
    if c == '(' {
      ops' := ops + [c];
    } else if IsOp(c) {
      out', ops' := PopOperators(out, ops, Priority(c));
      ops' := ops' + [c];
    } else if IsNumChar(c) {
      var v;
      v, last := ValueOf(expr, p);
      ghost var n := NumRun(s);
      assert s[..n] == expr[p..last + 1];
      assert s[n..] == expr[last + 1..];
      out' := out + [(ConstTag, v)];
    } else if IsVar(c) {
      out' := out + [(c, 0.0)];
    } else if c == ')' {
      ok, out', ops' := PopGroup(out, ops);
    }
  }

  /** The inner loop of `to_rpn` for an operator of priority `p`. */
  method PopOperators(out: Program, ops: seq<char>, p: nat) returns (out': Program, ops': seq<char>)
    ensures State(out', ops') == PopAtLeast(State(out, ops), p)
  {
    out', ops' := out, ops;
    while ops' != [] && Priority(Last(ops')) >= p
      invariant PopAtLeast(State(out', ops'), p) == PopAtLeast(State(out, ops), p)
      decreases |ops'|
    {
      out' := out' + [(Last(ops'), 0.0)];
      ops' := ops'[..|ops'| - 1];
    }
  }

  /** The inner loop of `to_rpn` for ')', and the pop of the '(' it stops
      at; `found` is false when the stack runs out first. */
  method PopGroup(out: Program, ops: seq<char>) returns (found: bool, out': Program, ops': seq<char>)
    ensures found <==> CloseParen(State(out, ops)).Some?
    ensures found ==> State(out', ops') == CloseParen(State(out, ops)).value
  {
    out', ops' := out, ops;
    while ops' != [] && Last(ops') != '('
      invariant CloseParen(State(out', ops')) == CloseParen(State(out, ops))
      decreases |ops'|
    {
      out' := out' + [(Last(ops'), 0.0)];
      ops' := ops'[..|ops'| - 1];
    }
    found := ops' != [];
    if found {
      ops' := ops'[..|ops'| - 1];
    }
  }

  // ---------------------------------------------------------------------
  // Properties of the compiler
  // ---------------------------------------------------------------------

  function Prefixed(out: Program, r: Result<Program>): Result<Program>
  {
    match r
    case Ok(p) => Ok(out + p)
    case Err(e) => Err(e)
  }

  lemma {:induction false} PopAtLeastAppends(out: Program, ops: seq<char>, p: nat)
    ensures PopAtLeast(State(out, ops), p)
         == State(out + PopAtLeast(State([], ops), p).out, PopAtLeast(State([], ops), p).ops)
    decreases |ops|
  {
    if ops != [] && Priority(Last(ops)) >= p {
      var t := [(Last(ops), 0.0)];
      var rest := ops[..|ops| - 1];
      PopAtLeastAppends(out + t, rest, p);
      PopAtLeastAppends(t, rest, p);
      assert [] + t == t;
      Assoc(out, t, PopAtLeast(State([], rest), p).out);
    } else {
      assert out + [] == out;
    }
  }

  lemma {:induction false} CloseParenAppends(out: Program, ops: seq<char>)
    ensures CloseParen(State(out, ops)).Some? == CloseParen(State([], ops)).Some?
    ensures CloseParen(State([], ops)).Some? ==>
      CloseParen(State(out, ops)).value
        == State(out + CloseParen(State([], ops)).value.out, CloseParen(State([], ops)).value.ops)
    decreases |ops|
  {
    if ops != [] && Last(ops) != '(' {
      var t := [(Last(ops), 0.0)];
      var rest := ops[..|ops| - 1];
      CloseParenAppends(out + t, rest);
      CloseParenAppends(t, rest);
      assert [] + t == t;
      if CloseParen(State([], rest)).Some? {
        Assoc(out, t, CloseParen(State([], rest)).value.out);
      }
    } else {
      assert out + [] == out;
    }
  }

  lemma {:induction false} AdvanceAppends(s: string, out: Program, ops: seq<char>)
    requires s != []
    ensures Advance(s, State(out, ops)).Some? == Advance(s, State([], ops)).Some?
    ensures Advance(s, State([], ops)).Some? ==>
      Advance(s, State(out, ops)).value
        == (Advance(s, State([], ops)).value.0,
            State(out + Advance(s, State([], ops)).value.1.out, Advance(s, State([], ops)).value.1.ops))
  {
    var c := s[0];
    if c == '(' {
      assert out + [] == out;
    } else if IsOp(c) {
      PopAtLeastAppends(out, ops, Priority(c));
    } else if IsNumChar(c) {
      var ins := (ConstTag, LiteralValue(s[..NumRun(s)]));
      assert [] + [ins] == [ins];
    } else if IsVar(c) {
      assert [] + [(c, 0.0)] == [(c, 0.0)];
    } else if c == ')' {
      CloseParenAppends(out, ops);
    } else {
      assert out + [] == out;
    }
  }

  /** `to_rpn` only appends to the list it is given. */
  lemma {:induction false} RunAppends(s: string, out: Program, ops: seq<char>)
    ensures Run(s, State(out, ops)) == Prefixed(out, Run(s, State([], ops)))
    decreases |s|
  {
    if s == [] {
      FlushEmits(State(out, ops));
      FlushEmits(State([], ops));
      assert [] + Emission(ops) == Emission(ops);
    } else {
      AdvanceAppends(s, out, ops);
      if Advance(s, State([], ops)).Some? {
        var rest := Advance(s, State([], ops)).value.0;
        var st := Advance(s, State([], ops)).value.1;
        RunAppends(rest, out + st.out, st.ops);
        RunAppends(rest, st.out, st.ops);
        if Run(rest, State([], st.ops)).Ok? {
          Assoc(out, st.out, Run(rest, State([], st.ops)).value);
        }
      }
    }
  }

  /** The tags of a program, in order. */
  function Tags(p: Program): (t: seq<char>)
    ensures |t| == |p|
    ensures forall k :: 0 <= k < |p| ==> t[k] == p[k].0
  {
    seq(|p|, k requires 0 <= k < |p| => p[k].0)
  }

  lemma TagsAppend(a: Program, b: Program)
    ensures Tags(a + b) == Tags(a) + Tags(b)
  {
  }

  lemma {:induction false} EmissionTags(ops: seq<char>)
    ensures multiset(Tags(Emission(ops))) == multiset(ops)
    decreases |ops|
  {
    if ops != [] {
      var init := ops[..|ops| - 1];
      assert ops == init + [Last(ops)];
      EmissionTags(init);
      EmissionSnoc(init, Last(ops));
      TagsAppend([(Last(ops), 0.0)], Emission(init));
    }
  }

  /** How many `ch` the output and the operator stack hold together. */
  function Held(st: State, ch: char): nat
  {
    multiset(Tags(st.out))[ch] + multiset(st.ops)[ch]
  }

  lemma {:induction false} PopAtLeastKeepsHeld(st: State, p: nat, ch: char)
    ensures Held(PopAtLeast(st, p), ch) == Held(st, ch)
  {
    var r := PopAtLeast(st, p);
    PopAtLeastKeeps(st, p);
    PopAtLeastEmits(st, p);
    var popped := st.ops[|r.ops|..];
    assert st.ops == r.ops + popped;
    TagsAppend(st.out, Emission(popped));
    EmissionTags(popped);
  }

  lemma {:induction false} CloseParenHeld(st: State, ch: char)
    requires CloseParen(st).Some?
    ensures Held(CloseParen(st).value, ch) + (if ch == '(' then 1 else 0) == Held(st, ch)
  {
    var r := CloseParen(st).value;
    CloseParenKeeps(st);
    CloseParenEmits(st);
    var k := |r.ops|;
    var popped := st.ops[k + 1..];
    assert st.ops == r.ops + ['('] + popped;
    TagsAppend(st.out, Emission(popped));
    EmissionTags(popped);
  }

  lemma {:induction false} FlushHeld(st: State, ch: char)
    ensures multiset(Tags(Flush(st)))[ch] == Held(st, ch)
  {
    FlushEmits(st);
    TagsAppend(st.out, Emission(st.ops));
    EmissionTags(st.ops);
  }

  /** How many `ch` the input still holds, less, for '(', the ')' that will
      discard one each. */
  function Balance(s: string, ch: char): int
  {
    multiset(s)[ch] as int - (if ch == '(' then multiset(s)[')'] else 0)
  }

  lemma {:induction false} BalanceSplit(a: string, b: string, ch: char)
    ensures Balance(a + b, ch) == Balance(a, ch) + Balance(b, ch)
  {
    assert multiset(a + b) == multiset(a) + multiset(b);
  }

  lemma {:induction false} BalanceCons(c: char, rest: string, ch: char)
    ensures Balance([c] + rest, ch)
         == Balance(rest, ch) + (if c == ch then 1 else 0) - (if ch == '(' && c == ')' then 1 else 0)
  {
    assert multiset([c] + rest) == multiset{c} + multiset(rest);
  }

  lemma {:induction false} HeldPush(st: State, c: char, ch: char)
    ensures Held(State(st.out, st.ops + [c]), ch) == Held(st, ch) + (if c == ch then 1 else 0)
  {
    assert multiset(st.ops + [c]) == multiset(st.ops) + multiset{c};
  }

  lemma {:induction false} HeldEmit(st: State, ins: Instr, ch: char)
    ensures Held(State(st.out + [ins], st.ops), ch) == Held(st, ch) + (if ins.0 == ch then 1 else 0)
  {
    TagsAppend(st.out, [ins]);
    assert Tags([ins]) == [ins.0];
  }

  /** The characters whose occurrences the compiler accounts for: the
      operators, '(' and the coordinate variables. */
  predicate Counted(ch: char) { IsOp(ch) || ch == '(' || IsVar(ch) }

  /** A literal holds no operator, parenthesis or variable. */
  lemma {:induction false} LiteralCounts(s: string, n: nat, ch: char)
    requires n <= |s|
    requires forall k :: 0 <= k < n ==> IsNumChar(s[k])
    requires Counted(ch)
    ensures Balance(s, ch) == Balance(s[n..], ch)
  {
    assert s == s[..n] + s[n..];
    BalanceSplit(s[..n], s[n..], ch);
    assert ch !in s[..n] && ')' !in s[..n];
  }

  /** One token moves operators, variables and '(' between input, stack and output
      without creating or losing any, except that ')' discards one '('. */
  lemma {:induction false} AdvanceCounts(s: string, st: State, ch: char)
    requires s != [] && Advance(s, st).Some?
    requires Counted(ch)
    ensures Held(Advance(s, st).value.1, ch) + Balance(Advance(s, st).value.0, ch)
         == Held(st, ch) + Balance(s, ch)
  {
    if IsNumChar(s[0]) {
      var n := NumRun(s);
      assert Advance(s, st).value == (s[n..], State(st.out + [(ConstTag, LiteralValue(s[..n]))], st.ops));
      LiteralCounts(s, n, ch);
      HeldEmit(st, (ConstTag, LiteralValue(s[..n])), ch);
    } else {
      SymbolCounts(s, st, ch);
    }
  }

  /** AdvanceCounts for a one-character token. */
  lemma {:induction false} SymbolCounts(s: string, st: State, ch: char)
    requires s != [] && !IsNumChar(s[0]) && Advance(s, st).Some?
    requires Counted(ch)
    ensures Advance(s, st).value.0 == s[1..]
    ensures Held(Advance(s, st).value.1, ch) + Balance(s[1..], ch)
         == Held(st, ch) + Balance(s, ch)
  {
    var c := s[0];
    assert s == [c] + s[1..];
    BalanceCons(c, s[1..], ch);
    if c == '(' {
      HeldPush(st, c, ch);
    } else if IsOp(c) {
      PopAtLeastKeepsHeld(st, Priority(c), ch);
      HeldPush(PopAtLeast(st, Priority(c)), c, ch);
    } else if IsVar(c) {
      HeldEmit(st, (c, 0.0), ch);
    } else if c == ')' {
      CloseParenHeld(st, ch);
    }
  }

  /** Each operator character of the input is pushed once and emitted once;
      each '(' is discarded by one ')' or else emitted by the final flush. */
  lemma {:induction false} RunCounts(s: string, st: State, ch: char)
    requires Run(s, st).Ok?
    requires Counted(ch)
    ensures multiset(Tags(Run(s, st).value))[ch] == Held(st, ch) + Balance(s, ch)
    decreases |s|
  {
    if s == [] {
      FlushHeld(st, ch);
    } else {
      AdvanceCounts(s, st, ch);
      RunCounts(Advance(s, st).value.0, Advance(s, st).value.1, ch);
    }
  }

  /** A compiled program holds each operator exactly as often as its source. */
  lemma OperatorsEmittedOnce(expr: string, ch: char)
    requires Compile(expr).Ok? && IsOp(ch)
    ensures multiset(Tags(Compile(expr).value))[ch] == multiset(expr)[ch]
  {
    RunCounts(expr, State([], []), ch);
  }

  /** A compiled program holds each coordinate variable exactly as often as
      its source. */
  lemma VariablesEmittedOnce(expr: string, ch: char)
    requires Compile(expr).Ok? && IsVar(ch)
    ensures multiset(Tags(Compile(expr).value))[ch] == multiset(expr)[ch]
  {
    RunCounts(expr, State([], []), ch);
  }

  /** With as many '(' as ')', no '(' reaches the program. */
  lemma NoParenWhenBalanced(expr: string)
    requires Compile(expr).Ok?
    requires multiset(expr)['('] == multiset(expr)[')']
    ensures '(' !in Tags(Compile(expr).value)
  {
    RunCounts(expr, State([], []), '(');
  }

  /** The number of literals in `s`: its maximal runs of digits and dots. */
  function Literals(s: string): nat
    decreases |s|
  {
    if s == [] then 0
    else if IsNumChar(s[0]) then 1 + Literals(s[NumRun(s)..])
    else Literals(s[1..])
  }

  /** One token leaves the count of every other tag alone, except that a
      literal adds one constant. */
  lemma {:induction false} AdvanceOthers(s: string, st: State, ch: char)
    requires s != [] && Advance(s, st).Some? && !Counted(ch)
    ensures Held(Advance(s, st).value.1, ch)
         == Held(st, ch) + (if ch == ConstTag && IsNumChar(s[0]) then 1 else 0)
  {
    var c := s[0];
    if c == '(' {
      HeldPush(st, c, ch);
    } else if IsOp(c) {
      PopAtLeastKeepsHeld(st, Priority(c), ch);
      HeldPush(PopAtLeast(st, Priority(c)), c, ch);
    } else if IsNumChar(c) {
      HeldEmit(st, (ConstTag, LiteralValue(s[..NumRun(s)])), ch);
    } else if IsVar(c) {
      HeldEmit(st, (c, 0.0), ch);
    } else if c == ')' {
      CloseParenHeld(st, ch);
    }
  }

  /** The program holds one constant per literal of the input, and no tag
      other than constants, operators, variables and '(' that the initial
      state did not already hold. */
  lemma {:induction false} RunOthers(s: string, st: State, ch: char)
    requires Run(s, st).Ok? && !Counted(ch)
    ensures multiset(Tags(Run(s, st).value))[ch]
         == Held(st, ch) + (if ch == ConstTag then Literals(s) else 0)
    decreases |s|
  {
    if s == [] {
      FlushHeld(st, ch);
    } else {
      AdvanceOthers(s, st, ch);
      RunOthers(Advance(s, st).value.0, Advance(s, st).value.1, ch);
    }
  }

  /** A compiled program pushes one constant per literal of its source. */
  lemma LiteralsEmittedOnce(expr: string)
    requires Compile(expr).Ok?
    ensures multiset(Tags(Compile(expr).value))[ConstTag] == Literals(expr)
  {
    RunOthers(expr, State([], []), ConstTag);
  }

  /** No other tag reaches a compiled program: not ')', not a blank, not
      any other character of the source. */
  lemma OnlyTokenTags(expr: string, ch: char)
    requires Compile(expr).Ok? && !Counted(ch) && ch != ConstTag
    ensures ch !in Tags(Compile(expr).value)
  {
    RunOthers(expr, State([], []), ch);
  }

  /** True when, reading `s` with `d` parentheses already open, no ')'
      closes more than has been opened. */
  function ParensClose(s: string, d: nat): bool
  {
    if s == [] then true
    else if s[0] == ')' then d > 0 && ParensClose(s[1..], d - 1)
    else if s[0] == '(' then ParensClose(s[1..], d + 1)
    else ParensClose(s[1..], d)
  }

  lemma {:induction false} ParensCloseSkip(s: string, n: nat, d: nat)
    requires n <= |s|
    requires forall k :: 0 <= k < n ==> IsNumChar(s[k])
    ensures ParensClose(s, d) == ParensClose(s[n..], d)
  {
    if n > 0 {
      assert s[1..][n - 1..] == s[n..];
      ParensCloseSkip(s[1..], n - 1, d);
    }
  }

  /** The number of '(' on the stack. */
  function Open(st: State): nat
  {
    multiset(st.ops)['(']
  }

  /** An operator never pops a '(' (whose priority is 0). */
  lemma {:induction false} PopAtLeastKeepsOpen(st: State, c: char)
    requires IsOp(c)
    ensures multiset(PopAtLeast(st, Priority(c)).ops + [c])['('] == Open(st)
  {
    var popped := PopAtLeast(st, Priority(c));
    PoppedNoParen(st, c);
    var gone := st.ops[|popped.ops|..];
    assert st.ops == popped.ops + gone;
    assert multiset(popped.ops + [c]) == multiset(popped.ops) + multiset{c};
    assert multiset(st.ops) == multiset(popped.ops) + multiset(gone);
  }

  /** An operator never pops a '(': what it pops has its priority or more. */
  lemma PoppedNoParen(st: State, c: char)
    requires IsOp(c)
    ensures '(' !in st.ops[|PopAtLeast(st, Priority(c)).ops|..]
  {
    var popped := PopAtLeast(st, Priority(c));
    PopAtLeastKeeps(st, Priority(c));
    var gone := st.ops[|popped.ops|..];
    forall k | 0 <= k < |gone| ensures gone[k] != '(' {
      assert Priority(st.ops[|popped.ops| + k]) >= Priority(c);
    }
  }

  /** ')' finds a '(' exactly when one is open, and closes one. */
  lemma {:induction false} CloseParenOpen(st: State)
    ensures CloseParen(st).None? <==> Open(st) == 0
    ensures CloseParen(st).Some? ==> Open(CloseParen(st).value) + 1 == Open(st)
  {
    CloseParenKeeps(st);
    var r := CloseParen(st);
    if r.Some? {
      var k := |r.value.ops|;
      assert st.ops == r.value.ops + ['('] + st.ops[k + 1..];
      assert multiset(st.ops)
          == multiset(r.value.ops) + multiset{'('} + multiset(st.ops[k + 1..]);
    }
  }

  /** One token fails exactly when it is a ')' and no '(' is open, and
      otherwise keeps ParensClose in step with the open count. */
  lemma {:induction false} AdvanceParens(s: string, st: State)
    requires s != []
    ensures Advance(s, st).None? <==> (s[0] == ')' && Open(st) == 0)
    ensures Advance(s, st).Some? ==>
      ParensClose(s, Open(st)) == ParensClose(Advance(s, st).value.0, Open(Advance(s, st).value.1))
  {
    var c := s[0];
    if c == '(' {
      assert multiset(st.ops + [c]) == multiset(st.ops) + multiset{c};
    } else if IsOp(c) {
      PopAtLeastKeepsOpen(st, c);
    } else if IsNumChar(c) {
      ParensCloseSkip(s, NumRun(s), Open(st));
    } else if c == ')' {
      CloseParenOpen(st);
    }
  }

  /** Compilation fails exactly when some ')' finds no open '('; it fails in
      no other way. */
  lemma {:induction false} RunFailsIffUnmatched(s: string, st: State)
    ensures Run(s, st).Ok? <==> ParensClose(s, Open(st))
    ensures Run(s, st).Err? ==> Run(s, st).error == UnmatchedClose
    decreases |s|
  {
    if s != [] {
      AdvanceParens(s, st);
      if Advance(s, st).Some? {
        RunFailsIffUnmatched(Advance(s, st).value.0, Advance(s, st).value.1);
      }
    }
  }

  /** Compilation fails only on an unmatched ')'. */
  lemma CompileFailsIffUnmatched(expr: string)
    ensures Compile(expr).Ok? <==> ParensClose(expr, 0)
    ensures Compile(expr).Err? ==> Compile(expr).error == UnmatchedClose
  {
    RunFailsIffUnmatched(expr, State([], []));
  }

  // ---------------------------------------------------------------------
  // The evaluator: apply and operator()
  // ---------------------------------------------------------------------

  /** The arithmetic of one operator, left operand first. An unknown tag
      yields 0. */
  function Arith(op: char, l: real, r: real, fo: FloatOps): (v: real)
    ensures op == '+' ==> v == l + r
    ensures op == '-' ==> v == l - r
    ensures op == '*' ==> v == l * r
    ensures op == '/' && r != 0.0 ==> v * r == l
    ensures op == '/' && r == 0.0 ==> v == fo.divByZero(l)
    ensures op == '^' ==> v == fo.pow(l, r)
    ensures !IsOp(op) ==> v == 0.0
  {
    match op
    case '+' => l + r
    case '-' => l - r
    case '*' => l * r
    case '/' => if r != 0.0 then l / r else fo.divByZero(l)
    case '^' => fo.pow(l, r)
    case _ => 0.0
  }

  /** `apply`: pops the right operand, then the left one, and pushes the
      result; fails when the stack holds fewer than two values. */
  function ApplyOp(op: char, st: seq<real>, fo: FloatOps): (r: Result<seq<real>>)
    ensures r.Ok? <==> |st| >= 2
    ensures r.Err? ==> r.error == StackUnderflow
    ensures r.Ok? ==>
      |r.value| == |st| - 1 && r.value[..|st| - 2] == st[..|st| - 2] &&
      Last(r.value) == Arith(op, st[|st| - 2], Last(st), fo)
  {
    if |st| < 2 then Err(StackUnderflow)
    else
      var rarg := Last(st);
      var larg := Last(st[..|st| - 1]);
      Ok(st[..|st| - 2] + [Arith(op, larg, rarg, fo)])
  }

  /** One step of `operator()`. */
  function Step(ins: Instr, st: seq<real>, x: real, y: real, z: real, fo: FloatOps): (r: Result<seq<real>>)
    ensures r.Err? ==> r.error == StackUnderflow && |st| < 2
    ensures r.Ok? && (ins.0 == ConstTag || IsVar(ins.0)) ==> |r.value| == |st| + 1 && r.value[..|st|] == st
    ensures r.Ok? && ins.0 != ConstTag && !IsVar(ins.0) ==> |st| >= 2 && |r.value| == |st| - 1 && r.value[..|st| - 2] == st[..|st| - 2]
    ensures r.Ok? && ins.0 == ConstTag ==> r.value != [] && Last(r.value) == ins.1
    ensures r.Ok? && (ins.0 == 'x' || ins.0 == 'X') ==> r.value != [] && Last(r.value) == x
    ensures r.Ok? && (ins.0 == 'y' || ins.0 == 'Y') ==> r.value != [] && Last(r.value) == y
    ensures r.Ok? && (ins.0 == 'z' || ins.0 == 'Z') ==> r.value != [] && Last(r.value) == z
  {
    var tag := ins.0;
    if tag == ConstTag then Ok(st + [ins.1])
    else if tag == 'x' || tag == 'X' then Ok(st + [x])
    else if tag == 'y' || tag == 'Y' then Ok(st + [y])
    else if tag == 'z' || tag == 'Z' then Ok(st + [z])
    else ApplyOp(tag, st, fo)
  }

  /** Runs a program against a value stack. */
  function Exec(prog: Program, st: seq<real>, x: real, y: real, z: real, fo: FloatOps): (r: Result<seq<real>>)
    ensures r.Err? ==> r.error == StackUnderflow
    ensures r.Ok? ==> |r.value| <= |st| + |prog|
    decreases |prog|
  {
    if prog == [] then Ok(st)
    else
      match Step(prog[0], st, x, y, z, fo)
      case Err(e) => Err(e)
      case Ok(st') => Exec(prog[1..], st', x, y, z, fo)
  }

  /** `operator()(x, y, z)`: the top of the stack after the whole program. */
  function Eval(prog: Program, x: real, y: real, z: real, fo: FloatOps): (r: Result<real>)
    ensures prog == [] ==> r == Err(EmptyStack)
    ensures r.Err? ==> r.error == StackUnderflow || r.error == EmptyStack
  {
    match Exec(prog, [], x, y, z, fo)
    case Err(e) => Err(e)
    case Ok(st) => if st == [] then Err(EmptyStack) else Ok(Last(st))
  }
}
