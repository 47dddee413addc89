/**
  Affine transformation matrices and the SVG `transform` attribute parser
  (procsvg/trans.go), following the transform-list grammar of section 7.6 of
  SVG 1.1.

  A `Matrix(a, b, c, d, e, f)` is the 3x3 matrix
      a c e
      b d f
      0 0 1
  with its six entries in the order of Go's `Matrix` array. Entries are
  `real`: the model states the algebra exactly, not Go's float64 rounding.
 */
module Trans {
  import opened Base

  datatype Point = Point(x: real, y: real)

  datatype Matrix = Matrix(a: real, b: real, c: real, d: real, e: real, f: real)

  const Identity := Matrix(1.0, 0.0, 0.0, 1.0, 0.0, 0.0)

  /** `Matrix.Transform`: the image of `p`. */
  function Transform(m: Matrix, p: Point): Point
  {
    Point(p.x * m.a + p.y * m.c + m.e, p.x * m.b + p.y * m.d + m.f)
  }

  /** `Matrix.Mul`: the product `a b` with the implicit last row (0 0 1). */
  function Mul(a: Matrix, b: Matrix): Matrix
  {
    Matrix(a.a * b.a + a.c * b.b,
           a.b * b.a + a.d * b.b,
           a.a * b.c + a.c * b.d,
           a.b * b.c + a.d * b.d,
           a.a * b.e + a.c * b.f + a.e,
           a.b * b.e + a.d * b.f + a.f)
  }

  /** `Matrix.Translate`, written out entry by entry as in the source. */
  function Translate(m: Matrix, cx: real, cy: real): Matrix
  {
    Matrix(m.a, m.b, m.c, m.d, m.a * cx + m.c * cy + m.e, m.b * cx + m.d * cy + m.f)
  }

  /** `Matrix.Scale`, written out entry by entry as in the source. */
  function Scale(m: Matrix, sx: real, sy: real): Matrix
  {
    Matrix(m.a * sx, m.b * sx, m.c * sy, m.d * sy, m.e, m.f)
  }

  /** The identity is neutral on both sides. */
  lemma MulIdentity(m: Matrix)
    ensures Mul(Identity, m) == m && Mul(m, Identity) == m
  {
    var l := Mul(Identity, m);
    var r := Mul(m, Identity);
    assert l.a == m.a && l.b == m.b && l.c == m.c && l.d == m.d && l.e == m.e && l.f == m.f;
    assert r.a == m.a && r.b == m.b && r.c == m.c && r.d == m.d && r.e == m.e && r.f == m.f;
  }

  /** The image of a point under `b`, then under the first row of `a`, regrouped by the point's coordinates. */
  lemma Regroup(x: real, y: real, b1: real, b2: real, b3: real, c1: real, c2: real, c3: real, a1: real, a2: real, a3: real)
    ensures (x * b1 + y * b2 + b3) * a1 + (x * c1 + y * c2 + c3) * a2 + a3
         == x * (a1 * b1 + a2 * c1) + y * (a1 * b2 + a2 * c2) + (a1 * b3 + a2 * c3 + a3)
  {
  }

  /** Applying a product is applying its right factor, then its left one. */
  lemma MulTransform(a: Matrix, b: Matrix, p: Point)
    ensures Transform(Mul(a, b), p) == Transform(a, Transform(b, p))
  {
    var l := Transform(Mul(a, b), p);
    var r := Transform(a, Transform(b, p));
    assert l.x == r.x by {
      Regroup(p.x, p.y, b.a, b.c, b.e, b.b, b.d, b.f, a.a, a.c, a.e);
    }
    assert l.y == r.y by {
      Regroup(p.x, p.y, b.a, b.c, b.e, b.b, b.d, b.f, a.b, a.d, a.f);
    }
  }

  /** `Translate(cx, cy)` is the product with the translation matrix. */
  lemma TranslateIsMul(m: Matrix, cx: real, cy: real)
    ensures Translate(m, cx, cy) == Mul(m, Matrix(1.0, 0.0, 0.0, 1.0, cx, cy))
  {
    var l := Translate(m, cx, cy);
    var r := Mul(m, Matrix(1.0, 0.0, 0.0, 1.0, cx, cy));
    assert l.a == r.a && l.b == r.b && l.c == r.c && l.d == r.d && l.e == r.e && l.f == r.f;
  }

  /** `Scale(sx, sy)` is the product with the scaling matrix. */
  lemma ScaleIsMul(m: Matrix, sx: real, sy: real)
    ensures Scale(m, sx, sy) == Mul(m, Matrix(sx, 0.0, 0.0, sy, 0.0, 0.0))
  {
    var l := Scale(m, sx, sy);
    var r := Mul(m, Matrix(sx, 0.0, 0.0, sy, 0.0, 0.0));
    assert l.a == r.a && l.b == r.b && l.c == r.c && l.d == r.d && l.e == r.e && l.f == r.f;
  }

  // ---------------------------------------------------------------------------
  // The transform-list scanner

  /** Why `SvgTransformMatrix` gives up; positions are byte indices into the attribute. */
  datatype ScanError =
    | NoFunctionName(pos: nat)
    | NoParen(fn: string, pos: nat)
    | NoArgument(pos: nat)
    | BadNumber(pos: nat, text: string)
    | WrongArity(fn: string, count: nat)
    | UnknownFunction(fn: string)
    | Diverges(pos: nat)   // the source's argument loop runs past the end and never stops

  predicate IsAlpha(c: char) { 'a' <= c <= 'z' || 'A' <= c <= 'Z' }

  /** A byte that may continue an argument: anything but ' ', ',' and ')'. */
  predicate MayBeNumber(c: char) { c != ' ' && c != ',' && c != ')' }

  /** The end of the run of spaces at `i`. */
  function SpacesEnd(p: string, i: nat): (j: nat)
    requires i <= |p|
    ensures i <= j <= |p| && (j < |p| ==> p[j] != ' ')
    ensures forall k :: i <= k < j ==> p[k] == ' '
    decreases |p| - i
  {
    if i < |p| && p[i] == ' ' then SpacesEnd(p, i + 1) else i
  }

  /** The end of the run of ASCII letters at `i`. */
  function LettersEnd(p: string, i: nat): (j: nat)
    requires i <= |p|
    ensures i <= j <= |p| && (j < |p| ==> !IsAlpha(p[j]))
    ensures forall k :: i <= k < j ==> IsAlpha(p[k])
    decreases |p| - i
  {
    if i < |p| && IsAlpha(p[i]) then LettersEnd(p, i + 1) else i
  }

  /** The end of the run of argument bytes at `i`; `|p|` when the run reaches the end. */
  function TokenEnd(p: string, i: nat): (j: nat)
    requires i <= |p|
    ensures i <= j <= |p| && (j < |p| ==> !MayBeNumber(p[j]))
    ensures forall k :: i <= k < j ==> MayBeNumber(p[k])
    decreases |p| - i
  {
    if i < |p| && MayBeNumber(p[i]) then TokenEnd(p, i + 1) else i
  }

  /** `parsefn` at `i`: the function name and the position after its '(', or the error and where it stopped. */
  function FnAt(p: string, i: nat): (r: (Result<string, ScanError>, nat))
    requires i <= |p|
    ensures i <= r.1 <= |p|
    ensures r.0.Ok? ==> i < r.1 && p[r.1 - 1] == '(' && |r.0.value| > 0
  {
    var j := LettersEnd(p, i);
    if j == i then (Err(NoFunctionName(i)), i)
    else
      var k := SpacesEnd(p, j);
      if k == |p| || p[k] != '(' then (Err(NoParen(p[i..j], i)), k)
      else (Ok(p[i..j]), k + 1)
  }

  /** The outcome of one `parsearg`: an argument with more to come, the last one, or an error. */
  datatype ArgStep =
    | More(v: real, next: nat)
    | Last(v: real, next: nat)
    | ArgFail(e: ScanError, next: nat)

  /**
    `parsearg` at `i`. An argument is the run of bytes up to ' ', ',' or ')';
    when that run reaches the end of the input the source loops for ever,
    which the model reports as `Diverges`.
   */
  function ArgAt(p: string, i: nat, parseFloat: string -> Option<real>): (r: ArgStep)
    requires i <= |p|
    ensures i <= r.next <= |p|
    ensures !r.ArgFail? ==> i < r.next
    ensures r.Last? ==> p[r.next - 1] == ')'
  {
    var s := SpacesEnd(p, i);
    var e := TokenEnd(p, s);
    if e == |p| then ArgFail(Diverges(s), |p|)
    else if e == s then ArgFail(NoArgument(s), s)
    else
      match parseFloat(p[s..e])
      case None => ArgFail(BadNumber(s, p[s..e]), e)
      case Some(v) =>
        var t := SpacesEnd(p, e);
        if t < |p| && p[t] == ',' then More(v, t + 1)
        else if t < |p| && p[t] == ')' then Last(v, t + 1)
        else More(v, t)
  }

  /** The argument list after `acc`: all arguments up to ')', and the position after it. */
  function ArgsAt(p: string, i: nat, acc: seq<real>, parseFloat: string -> Option<real>): (r: Result<(seq<real>, nat), (ScanError, nat)>)
    requires i <= |p|
    ensures r.Ok? ==> i < r.value.1 <= |p| && |acc| < |r.value.0| && r.value.0[..|acc|] == acc
    ensures r.Ok? ==> p[r.value.1 - 1] == ')'
    ensures r.Err? ==> i <= r.error.1 <= |p|
    decreases |p| - i
  {
    match ArgAt(p, i, parseFloat)
    case More(v, j) => ArgsAt(p, j, acc + [v], parseFloat)
    case Last(v, j) => Ok((acc + [v], j))
    case ArgFail(e, j) => Err((e, j))
  }

  /** The outcome of one `scan`: a call, the end of the list, or an error. */
  datatype ScanStep =
    | Call(fn: string, args: seq<real>, next: nat)
    | End(next: nat)
    | ScanFail(e: ScanError, next: nat)

  /** `scan` at `i`, from a scanner without an error. */
  function ScanAt(p: string, i: nat, parseFloat: string -> Option<real>): (r: ScanStep)
    requires i <= |p|
    ensures i <= r.next <= |p|
    ensures r.Call? ==> i < r.next && |r.fn| > 0 && |r.args| > 0
  {
    var s := SpacesEnd(p, i);
    if s == |p| then End(s)
    else
      match FnAt(p, s)
      case (Err(e), j) => ScanFail(e, j)
      case (Ok(fn), j) =>
        match ArgsAt(p, j, [], parseFloat)
        case Ok((args, k)) => Call(fn, args, k)
        case Err((e, k)) => ScanFail(e, k)
  }

  /** `unpackarg` into `n` targets: the first min(n, |args|) arguments, and 0 for the rest. */
  function Unpack(args: seq<real>, n: nat): (r: seq<real>)
    ensures |r| == n
    ensures forall k :: 0 <= k < n ==> r[k] == if k < |args| then args[k] else 0.0
  {
    seq(n, k requires 0 <= k < n => if k < |args| then args[k] else 0.0)
  }

  /**
    One pass of the `SvgTransformMatrix` switch: the new running matrix, or
    the error. `rotate` stands for `Matrix.Rotate`, which is trigonometry.
    The result of `scale` is discarded in the source, so the running matrix
    is unchanged by it.
   */
  function Apply(result: Matrix, fn: string, args: seq<real>, rotate: (Matrix, real) -> Matrix): Result<Matrix, ScanError>
  {
    var n := |args|;
    if fn == "matrix" then
      if n != 6 then Err(WrongArity(fn, n))
      else Ok(Mul(result, Matrix(args[0], args[1], args[2], args[3], args[4], args[5])))
    else if fn == "translate" then
      if n != 1 && n != 2 then Err(WrongArity(fn, n))
      else var t := Unpack(args, 2); Ok(Translate(result, t[0], t[1]))
    else if fn == "rotate" then
      if n != 1 && n != 3 then Err(WrongArity(fn, n))
      else var t := Unpack(args, 3); Ok(Translate(rotate(Translate(result, t[1], t[2]), t[0]), -t[1], -t[2]))
    else if fn == "scale" then
      if n != 1 && n != 2 then Err(WrongArity(fn, n))
      else Ok(result)
    else Err(UnknownFunction(fn))
  }

  /** `SvgTransformMatrix` from position `i` with running matrix `result`: the matrix, and the error if any. */
  function TransformFrom(p: string, i: nat, result: Matrix, parseFloat: string -> Option<real>,
                         rotate: (Matrix, real) -> Matrix): (Matrix, Option<ScanError>)
    requires i <= |p|
    decreases |p| - i
  {
    match ScanAt(p, i, parseFloat)
    case End(_) => (result, None)
    case ScanFail(e, _) => (result, Some(e))
    case Call(fn, args, next) =>
      match Apply(result, fn, args, rotate)
      case Err(e) => (result, Some(e))
      case Ok(m) => TransformFrom(p, next, m, parseFloat, rotate)
  }

  /** The Go scanner `svgtrtok`: the attribute, the cursor, the last function and its arguments, and the first error. */
  class TransformScanner {
    const p: string
    const parseFloat: string -> Option<real>
    var i: nat
    var fn: string
    var arg: seq<real>
    var err: Option<ScanError>

    ghost predicate Valid()
      reads this
    {
      i <= |p|
    }

    constructor (p: string, parseFloat: string -> Option<real>)
      ensures Valid() && this.p == p && this.parseFloat == parseFloat
      ensures i == 0 && fn == [] && arg == [] && err == None
    {
      this.p := p;
      this.parseFloat := parseFloat;
      i := 0;
      fn := [];
      arg := [];
      err := None;
    }

    /** Advances the cursor past a run of spaces (only ' ', not other white space). */
    method SkipSpaces()
      requires Valid()
      modifies this
      ensures Valid() && i == SpacesEnd(p, old(i))
      ensures fn == old(fn) && arg == old(arg) && err == old(err)
    {
      while i < |p| && p[i] == ' '
        invariant old(i) <= i <= |p| && SpacesEnd(p, i) == SpacesEnd(p, old(i))
        invariant fn == old(fn) && arg == old(arg) && err == old(err)
      {
        i := i + 1;
      }
    }

    /** `parsefn` */
    method ParseFn() returns (ok: bool)
      requires Valid()
      modifies this
      ensures Valid()
      ensures var r := FnAt(p, old(i));
        ok == r.0.Ok? && i == r.1 && arg == old(arg)
        && (ok ==> fn == r.0.value && err == old(err))
        && (!ok ==> fn == old(fn) && err == Some(r.0.error))
    {
      var start := i;
      while i < |p| && IsAlpha(p[i])
        invariant start <= i <= |p| && LettersEnd(p, i) == LettersEnd(p, start)
        invariant fn == old(fn) && arg == old(arg) && err == old(err)
      {
        i := i + 1;
      }
      if start == i {
        err := Some(NoFunctionName(start));
        return false;
      }
      var name := p[start..i];
      SkipSpaces();
      if i == |p| || p[i] != '(' {
        err := Some(NoParen(name, start));
        return false;
      }
      fn := name;
      i := i + 1;
      return true;
    }

    /** `parsearg`: appends one argument and tells whether more follow. */
    method ParseArg() returns (more: bool)
      requires Valid()
      modifies this
      ensures Valid() && fn == old(fn)
      ensures var r := ArgAt(p, old(i), parseFloat);
        i == r.next && more == r.More?
        && (r.ArgFail? ==> arg == old(arg) && err == Some(r.e))
        && (!r.ArgFail? ==> arg == old(arg) + [r.v] && err == old(err))
    {
      SkipSpaces();
      var start := i;
      while i < |p| && MayBeNumber(p[i])
        invariant start <= i <= |p| && TokenEnd(p, i) == TokenEnd(p, start)
        invariant start == SpacesEnd(p, old(i))
        invariant fn == old(fn) && arg == old(arg) && err == old(err)
      {
        i := i + 1;
      }
      if i == |p| {
        // The source keeps incrementing its cursor here for ever.
        err := Some(Diverges(start));
        return false;
      }
      if start == i {
        err := Some(NoArgument(start));
        return false;
      }
      var text := p[start..i];
      var v := parseFloat(text);
      if v.None? {
        err := Some(BadNumber(start, text));
        return false;
      }
      arg := arg + [v.value];
      SkipSpaces();
      if i < |p| && p[i] == ',' {
        i := i + 1;
        return true;
      }
      if i < |p| && p[i] == ')' {
        i := i + 1;
        return false;
      }
      return true;
    }

    /** `scan`: the next function call of the list, if any. */
    method Scan() returns (found: bool)
      requires Valid()
      modifies this
      ensures Valid()
      ensures old(err).Some? ==> !found && i == old(i) && err == old(err)
      ensures old(err).None? ==>
        var r := ScanAt(p, old(i), parseFloat);
        i == r.next && found == r.Call?
        && (r.Call? ==> fn == r.fn && arg == r.args && err.None?)
        && (r.End? ==> err.None?)
        && (r.ScanFail? ==> err == Some(r.e))
    {
      if err.Some? {
        return false;
      }
      SkipSpaces();
      if i == |p| {
        return false;
      }
      var ok := ParseFn();
      if !ok {
        return false;
      }
      arg := [];
      ghost var j := i;
      ghost var goal := ArgsAt(p, j, [], parseFloat);
      var more := true;
      while more
        invariant Valid() && j <= |p|
        invariant FnAt(p, SpacesEnd(p, old(i))) == (Ok(fn), j)
        invariant more ==> err.None? && ArgsAt(p, i, arg, parseFloat) == goal
        invariant !more && goal.Ok? ==> err.None? && goal.value == (arg, i)
        invariant !more && goal.Err? ==> err == Some(goal.error.0) && i == goal.error.1
        decreases |p| - i, more
      {
        more := ParseArg();
      }
      return err.None?;
    }
  }

  /**
    `SvgTransformMatrix`: the product of the transform list, left to right,
    or the matrix built so far together with the first error.
   */
  method SvgTransformMatrix(p: string, parseFloat: string -> Option<real>, rotate: (Matrix, real) -> Matrix)
    returns (result: Matrix, err: Option<ScanError>)
    ensures (result, err) == TransformFrom(p, 0, Identity, parseFloat, rotate)
  {
    var k := new TransformScanner(p, parseFloat);
    result := Identity;
    ghost var at: nat := k.i;
    var found := k.Scan();
    while found
      invariant k.Valid() && k.p == p && k.parseFloat == parseFloat && at <= |p|
      invariant found ==> k.err.None? && ScanAt(p, at, parseFloat) == Call(k.fn, k.arg, k.i)
      invariant found ==> TransformFrom(p, at, result, parseFloat, rotate) == TransformFrom(p, 0, Identity, parseFloat, rotate)
      invariant !found ==> (result, k.err) == TransformFrom(p, 0, Identity, parseFloat, rotate)
      decreases |p| - k.i, found
    {
      // The `switch k.fn` of the source, one call at a time.
      var step := Apply(result, k.fn, k.arg, rotate);
      if step.Err? {
        return result, Some(step.error);
      }
      result := step.value;
      at := k.i;
      found := k.Scan();
    }
    err := k.err;
  }

  // ---------------------------------------------------------------------------
  // What the scanner promises

  /** `scale(...)` never changes the running matrix, whatever its arguments. */
  lemma ScaleIsDiscarded(result: Matrix, args: seq<real>, rotate: (Matrix, real) -> Matrix)
    requires |args| == 1 || |args| == 2
    ensures Apply(result, "scale", args, rotate) == Ok(result)
  {
  }

  /** The argument counts each function accepts: 6 for matrix, 1 or 2 for translate and scale, 1 or 3 for rotate. */
  lemma ArityRule(result: Matrix, fn: string, args: seq<real>, rotate: (Matrix, real) -> Matrix)
    ensures Apply(result, fn, args, rotate).Err? <==>
      !(fn == "matrix" && |args| == 6)
      && !((fn == "translate" || fn == "scale") && (|args| == 1 || |args| == 2))
      && !(fn == "rotate" && (|args| == 1 || |args| == 3))
  {
  }

  /** `translate(x)` moves by (x, 0): the missing argument is 0. */
  lemma TranslateOneArgument(result: Matrix, x: real, rotate: (Matrix, real) -> Matrix)
    ensures Apply(result, "translate", [x], rotate) == Ok(Translate(result, x, 0.0))
  {
    var t := Unpack([x], 2);
    assert t[0] == x && t[1] == 0.0;
  }

  /**
    A scanned call has a name of one or more letters, optionally followed by
    spaces, then '('; its argument list is non-empty and ends with ')'.
   */
  lemma {:induction false} CallShape(p: string, i: nat, parseFloat: string -> Option<real>)
    requires i <= |p|
    ensures var r := ScanAt(p, i, parseFloat);
      r.Call? ==> (forall k :: 0 <= k < |r.fn| ==> IsAlpha(r.fn[k])) && p[r.next - 1] == ')'
  {
    var r := ScanAt(p, i, parseFloat);
    if r.Call? {
      var s := SpacesEnd(p, i);
      var j := LettersEnd(p, s);
      assert r.fn == p[s..j];
    }
  }

  /** An empty argument list is an error at the position after '('. */
  lemma EmptyArgumentIsError(parseFloat: string -> Option<real>)
    ensures ScanAt("scale()", 0, parseFloat) == ScanFail(NoArgument(6), 6)
  {
    assert LettersEnd("scale()", 0) == 5;
    assert SpacesEnd("scale()", 6) == 6;
    assert TokenEnd("scale()", 6) == 6;
  }

  /** An argument list that runs to the end of the input is where the source never returns. */
  lemma UnterminatedDiverges(parseFloat: string -> Option<real>)
    ensures ScanAt("scale(2", 0, parseFloat).ScanFail?
    ensures ScanAt("scale(2", 0, parseFloat).e == Diverges(6)
  {
    assert LettersEnd("scale(2", 0) == 5;
    assert SpacesEnd("scale(2", 6) == 6;
    assert TokenEnd("scale(2", 6) == 7;
  }

  /** Only spaces left: the scan ends without an error. */
  lemma {:induction false} TrailingSpacesEnd(p: string, i: nat, parseFloat: string -> Option<real>)
    requires i <= |p|
    requires forall k :: i <= k < |p| ==> p[k] == ' '
    ensures ScanAt(p, i, parseFloat) == End(|p|)
    ensures TransformFrom(p, i, Identity, parseFloat, (m, t) => m) == (Identity, None)
    decreases |p| - i
  {
    if i < |p| {
      TrailingSpacesEnd(p, i + 1, parseFloat);
    }
  }

  // ---------------------------------------------------------------------------
  // The transform list as a product

  /** The product is associative, so a list of factors can be grouped either way. */
  lemma MulAssoc(a: Matrix, b: Matrix, c: Matrix)
    ensures Mul(Mul(a, b), c) == Mul(a, Mul(b, c))
  {
    var l := Mul(Mul(a, b), c);
    var r := Mul(a, Mul(b, c));
    forall p: Point ensures Transform(l, p) == Transform(r, p) {
      MulTransform(Mul(a, b), c, p);
      MulTransform(a, b, Transform(c, p));
      MulTransform(b, c, p);
      MulTransform(a, Mul(b, c), p);
    }
    SameImages(l, r);
  }

  /** Two matrices that move the origin and the two unit points alike are equal. */
  lemma SameImages(l: Matrix, r: Matrix)
    requires forall p: Point :: Transform(l, p) == Transform(r, p)
    ensures l == r
  {
    assert Transform(l, Point(0.0, 0.0)) == Transform(r, Point(0.0, 0.0));
    assert Transform(l, Point(1.0, 0.0)) == Transform(r, Point(1.0, 0.0));
    assert Transform(l, Point(0.0, 1.0)) == Transform(r, Point(0.0, 1.0));
  }

  /** `rotate` multiplies by a rotation matrix on the right, as `Matrix.Rotate` does. */
  ghost predicate RotatesRight(rotate: (Matrix, real) -> Matrix, rot: real -> Matrix)
  {
    forall m, t :: rotate(m, t) == Mul(m, rot(t))
  }

  /**
    Each function of the list multiplies the running matrix on the right by
    a matrix of its own, the one it yields from the identity; it accepts or
    rejects its arguments whatever the running matrix.
   */
  lemma ApplyIsRightMul(result: Matrix, fn: string, args: seq<real>, rotate: (Matrix, real) -> Matrix, rot: real -> Matrix)
    requires RotatesRight(rotate, rot)
    ensures Apply(result, fn, args, rotate).Ok? == Apply(Identity, fn, args, rotate).Ok?
    ensures Apply(result, fn, args, rotate).Err? ==> Apply(result, fn, args, rotate) == Apply(Identity, fn, args, rotate)
    ensures Apply(result, fn, args, rotate).Ok? ==>
      Apply(result, fn, args, rotate).value == Mul(result, Apply(Identity, fn, args, rotate).value)
  {
    var n := |args|;
    MulIdentity(result);
    if fn == "matrix" && n == 6 {
      MulIdentity(Matrix(args[0], args[1], args[2], args[3], args[4], args[5]));
    } else if fn == "translate" && (n == 1 || n == 2) {
      var t := Unpack(args, 2);
      var tm := Matrix(1.0, 0.0, 0.0, 1.0, t[0], t[1]);
      TranslateIsMul(result, t[0], t[1]);
      TranslateIsMul(Identity, t[0], t[1]);
      MulIdentity(tm);
    } else if fn == "rotate" && (n == 1 || n == 3) {
      var t := Unpack(args, 3);
      RotateAbout(result, t[0], t[1], t[2], rotate, rot);
    }
  }

  /** A rotation about (cx, cy) from any running matrix is that matrix times the rotation about (cx, cy) from the identity. */
  lemma RotateAbout(result: Matrix, angle: real, cx: real, cy: real, rotate: (Matrix, real) -> Matrix, rot: real -> Matrix)
    requires RotatesRight(rotate, rot)
    ensures Translate(rotate(Translate(result, cx, cy), angle), -cx, -cy)
         == Mul(result, Translate(rotate(Translate(Identity, cx, cy), angle), -cx, -cy))
  {
    var t1 := Matrix(1.0, 0.0, 0.0, 1.0, cx, cy);
    var t2 := Matrix(1.0, 0.0, 0.0, 1.0, -cx, -cy);
    var r := rot(angle);
    TranslateIsMul(result, cx, cy);
    TranslateIsMul(rotate(Translate(result, cx, cy), angle), -cx, -cy);
    TranslateIsMul(Identity, cx, cy);
    TranslateIsMul(rotate(Translate(Identity, cx, cy), angle), -cx, -cy);
    MulIdentity(t1);
    MulAssoc(result, t1, r);
    MulAssoc(result, Mul(t1, r), t2);
  }

  /**
    The matrix of a transform list is the product of its functions' matrices
    from left to right: started from any running matrix, the scan ends with
    that matrix times the one the list yields from the identity, and stops
    on the same error.
   */
  lemma {:induction false} TransformFromProduct(p: string, i: nat, result: Matrix, parseFloat: string -> Option<real>,
                                                rotate: (Matrix, real) -> Matrix, rot: real -> Matrix)
    requires i <= |p| && RotatesRight(rotate, rot)
    ensures TransformFrom(p, i, result, parseFloat, rotate).0 == Mul(result, TransformFrom(p, i, Identity, parseFloat, rotate).0)
    ensures TransformFrom(p, i, result, parseFloat, rotate).1 == TransformFrom(p, i, Identity, parseFloat, rotate).1
    decreases |p| - i
  {
    MulIdentity(result);
    match ScanAt(p, i, parseFloat)
    case End(_) =>
    case ScanFail(_, _) =>
    case Call(fn, args, next) =>
      ApplyIsRightMul(result, fn, args, rotate, rot);
      if Apply(result, fn, args, rotate).Ok? {
        var m0 := Apply(Identity, fn, args, rotate).value;
        TransformFromProduct(p, next, Apply(result, fn, args, rotate).value, parseFloat, rotate, rot);
        TransformFromProduct(p, next, m0, parseFloat, rotate, rot);
        MulAssoc(result, m0, TransformFrom(p, next, Identity, parseFloat, rotate).0);
      }
  }

  /**
    One pass of the switch as evidently intended: `scale` with one argument
    scales both axes by it, and its result becomes the running matrix; every
    other function is as in `Apply`.
   */
  function ApplyIntended(result: Matrix, fn: string, args: seq<real>, rotate: (Matrix, real) -> Matrix): (r: Result<Matrix, ScanError>)
    ensures fn != "scale" ==> r == Apply(result, fn, args, rotate)
    ensures fn == "scale" ==> (r.Ok? <==> |args| == 1 || |args| == 2)
  {
    var n := |args|;
    if fn == "scale" && (n == 1 || n == 2) then
      var sx := args[0];
      var sy := if n == 1 then sx else args[1];
      Ok(Scale(result, sx, sy))
    else Apply(result, fn, args, rotate)
  }

  /** The intended `scale(sx, sy)` multiplies by the scaling matrix; `scale(s)` scales both axes by s. */
  lemma ScaleApplied(result: Matrix, args: seq<real>, rotate: (Matrix, real) -> Matrix)
    requires |args| == 1 || |args| == 2
    ensures var sy := if |args| == 1 then args[0] else args[1];
      ApplyIntended(result, "scale", args, rotate) == Ok(Mul(result, Matrix(args[0], 0.0, 0.0, sy, 0.0, 0.0)))
  {
    var sy := if |args| == 1 then args[0] else args[1];
    ScaleIsMul(result, args[0], sy);
  }
}
