/**
  The program writer of the Go packer (procsvg/prog.go `ProgMem`): it appends
  opcodes and coordinates to a byte buffer. A path command becomes a move
  (0x70 for the first move of a path, 0x71 after it) or runs of line (0x80),
  cubic (0xA0) or quadratic (0xB0) opcodes, each op carrying at most 32 line
  points or 16 curve segments; the low bits of the opcode give the count.
 */
module Prog {
  import opened Base
  import opened Coord
  import opened Trans
  import Path

  /** Go's `color.NRGBA`: a colour with non-premultiplied alpha. */
  datatype NRGBA = NRGBA(r: Byte, g: Byte, b: Byte, a: Byte)

  /** The errors `PathCmd` and `addOp` return. */
  datatype ProgError =
    | MoveArity(n: nat)            // a move with other than one point
    | EmptyLine                    // a line with no point
    | BadCubic(n: nat)             // a cubic with no point or not in threes
    | BadQuadratic(n: nat)         // a quadratic with no point or not in twos
    | EmptyOp(cmd: char)           // `addOp` with no point
    | BadOpLength(cmd: char, n: nat, mod: nat)  // `addOp` with a count not a multiple of `mod`
    | UnknownCmd(cmd: char)        // any other command letter

  /** The bytes `Coord` appends: the encoding `CoordBytes` writes into a four-byte buffer. */
  function CoordEncoding(v: real, prec: real, bits32: real -> U32): (r: seq<Byte>)
    ensures 1 <= |r| <= 4
  {
    EncodeCoord(v, prec, bits32)
  }

  /** The bytes `Pts` appends for one point: x then y of its image under `m`. */
  function PointBytes(m: Matrix, p: Point, prec: real, bits32: real -> U32): seq<Byte>
  {
    var q := Transform(m, p);
    CoordEncoding(q.x, prec, bits32) + CoordEncoding(q.y, prec, bits32)
  }

  /** The point encoder of a `ProgMem` with transform `m`. */
  function PointEncoder(m: Matrix, prec: real, bits32: real -> U32): Point -> seq<Byte>
  {
    p => PointBytes(m, p, prec, bits32)
  }

  /** The bytes `Pts` appends for `v`. */
  function PtsBytes(m: Matrix, v: seq<Point>, prec: real, bits32: real -> U32): seq<Byte>
  {
    Flat(PointEncoder(m, prec, bits32), v)
  }

  /** One op `addOp` emits: its opcode and the points it carries. */
  datatype Op<T> = Op(code: Byte, pts: seq<T>)

  /**
    The ops of `addOp`'s loop: while more than `mod * maxrep` points remain, a
    full op of `mod * maxrep`; then one op for the rest, its opcode counting
    groups of `mod` from `baseop` (a byte, so it wraps as Go's `byte` does).
   */
  function Ops<T>(baseop: Byte, maxrep: nat, mod: nat, pts: seq<T>): (r: seq<Op<T>>)
    requires mod >= 1 && maxrep >= 1
    ensures |r| >= 1
    decreases |pts|
  {
    var rng := OpRange(mod, maxrep);
    if |pts| > rng then [FullOp(baseop, maxrep, pts[..rng])] + Ops(baseop, maxrep, mod, pts[rng..])
    else [LastOp(baseop, mod, pts)]
  }

  /** The most points one op carries: `maxrep` groups of `mod`. */
  function OpRange(mod: nat, maxrep: nat): (r: nat)
    requires mod >= 1
    ensures r >= maxrep
  {
    RangeAtLeast(mod, maxrep);
    mod * maxrep
  }

  /** An op of `maxrep` groups, the most an opcode can announce. */
  function FullOp<T>(baseop: Byte, maxrep: nat, pts: seq<T>): Op<T>
  {
    Op(ToByte(baseop + maxrep - 1), pts)
  }

  /** The final op: its opcode counts the groups of `mod` it carries. */
  function LastOp<T>(baseop: Byte, mod: nat, pts: seq<T>): Op<T>
    requires mod >= 1
  {
    Op(ToByte(baseop + |pts| / mod - 1), pts)
  }

  function OpBytes<T>(f: T -> seq<Byte>, op: Op<T>): seq<Byte>
  {
    [op.code] + Flat(f, op.pts)
  }

  /** The bytes of a run of ops, in order. */
  function OpsBytes<T>(f: T -> seq<Byte>, ops: seq<Op<T>>): seq<Byte>
    decreases |ops|
  {
    if |ops| == 0 then [] else OpBytes(f, ops[0]) + OpsBytes(f, ops[1..])
  }

  /** The points of a run of ops, in order. */
  function OpsPoints<T>(ops: seq<Op<T>>): seq<T>
    decreases |ops|
  {
    if |ops| == 0 then [] else ops[0].pts + OpsPoints(ops[1..])
  }

  /** An op as a reader takes it: it carries `mod` points per step of its opcode above `baseop`, at most `maxrep` steps. */
  predicate OpShaped<T>(op: Op<T>, baseop: Byte, maxrep: nat, mod: nat)
  {
    baseop <= op.code < baseop + maxrep && |op.pts| == mod * (op.code - baseop + 1)
  }

  /** `addOp`'s chunking: the ops carry all the points once, in order. */
  lemma {:induction false} OpsCover<T>(baseop: Byte, maxrep: nat, mod: nat, pts: seq<T>)
    requires mod >= 1 && maxrep >= 1
    ensures OpsPoints(Ops(baseop, maxrep, mod, pts)) == pts
    decreases |pts|
  {
    var rng := OpRange(mod, maxrep);
    var ops := Ops(baseop, maxrep, mod, pts);
    if |pts| > rng {
      OpsCover(baseop, maxrep, mod, pts[rng..]);
      assert ops[1..] == Ops(baseop, maxrep, mod, pts[rng..]);
      assert pts[..rng] + pts[rng..] == pts;
    } else {
      assert ops[1..] == [];
      assert pts + [] == pts;
    }
  }

  /** Every op of `ops` but the last carries `n` points. */
  predicate FullButLast<T>(ops: seq<Op<T>>, n: nat)
  {
    forall i :: 0 <= i < |ops| - 1 ==> |ops[i].pts| == n
  }

  /** `addOp`'s chunking: every op but the last carries `mod * maxrep` points. */
  lemma {:induction false} OpsFull<T>(baseop: Byte, maxrep: nat, mod: nat, pts: seq<T>)
    requires mod >= 1 && maxrep >= 1
    ensures FullButLast(Ops(baseop, maxrep, mod, pts), OpRange(mod, maxrep))
    decreases |pts|
  {
    var rng := OpRange(mod, maxrep);
    var ops := Ops(baseop, maxrep, mod, pts);
    if |pts| > rng {
      var tl := Ops(baseop, maxrep, mod, pts[rng..]);
      OpsFull(baseop, maxrep, mod, pts[rng..]);
      assert ops == [FullOp(baseop, maxrep, pts[..rng])] + tl;
      forall i | 0 <= i < |ops| - 1
        ensures |ops[i].pts| == rng
      {
        if i > 0 {
          assert ops[i] == tl[i - 1];
        }
      }
    }
  }

  /**
    `addOp`'s chunking, for `q` groups of `mod` points: each opcode lies in
    [baseop, baseop + maxrep - 1] and announces exactly the points its op
    carries.
   */
  lemma {:induction false} OpsShapedAll<T>(baseop: Byte, maxrep: nat, mod: nat, pts: seq<T>, q: nat)
    requires mod >= 1 && maxrep >= 1 && baseop + maxrep <= 0x100
    requires q >= 1 && |pts| == mod * q
    ensures AllShaped(Ops(baseop, maxrep, mod, pts), baseop, maxrep, mod)
    decreases q
  {
    var rng := OpRange(mod, maxrep);
    var ops := Ops(baseop, maxrep, mod, pts);
    if |pts| > rng {
      var tl := Ops(baseop, maxrep, mod, pts[rng..]);
      MoreGroups(mod, maxrep, q);
      OpsShapedAll(baseop, maxrep, mod, pts[rng..], q - maxrep);
      FullOpShaped(baseop, maxrep, mod, pts[..rng]);
      assert ops == [FullOp(baseop, maxrep, pts[..rng])] + tl;
      AllShapedCons(FullOp(baseop, maxrep, pts[..rng]), tl, baseop, maxrep, mod);
    } else {
      FewerGroups(mod, maxrep, q);
      LastOpShaped(baseop, maxrep, mod, pts, q);
    }
  }

  /** Every op of `ops` is shaped. */
  predicate AllShaped<T>(ops: seq<Op<T>>, baseop: Byte, maxrep: nat, mod: nat)
  {
    forall i :: 0 <= i < |ops| ==> OpShaped(ops[i], baseop, maxrep, mod)
  }

  lemma AllShapedCons<T>(op: Op<T>, tl: seq<Op<T>>, baseop: Byte, maxrep: nat, mod: nat)
    requires OpShaped(op, baseop, maxrep, mod) && AllShaped(tl, baseop, maxrep, mod)
    ensures AllShaped([op] + tl, baseop, maxrep, mod)
  {
    forall i | 0 <= i < |[op] + tl|
      ensures OpShaped(([op] + tl)[i], baseop, maxrep, mod)
    {
      if i > 0 {
        assert ([op] + tl)[i] == tl[i - 1];
      }
    }
  }

  lemma FullOpShaped<T>(baseop: Byte, maxrep: nat, mod: nat, chunk: seq<T>)
    requires mod >= 1 && maxrep >= 1 && baseop + maxrep <= 0x100
    requires |chunk| == OpRange(mod, maxrep)
    ensures OpShaped(FullOp(baseop, maxrep, chunk), baseop, maxrep, mod)
  {
    var op := FullOp(baseop, maxrep, chunk);
    assert op.code == baseop + maxrep - 1;
    assert op.code - baseop + 1 == maxrep;
  }

  lemma LastOpShaped<T>(baseop: Byte, maxrep: nat, mod: nat, pts: seq<T>, q: nat)
    requires mod >= 1 && 1 <= q <= maxrep && baseop + maxrep <= 0x100
    requires |pts| == mod * q && |pts| / mod == q
    ensures OpShaped(LastOp(baseop, mod, pts), baseop, maxrep, mod)
  {
    var op := LastOp(baseop, mod, pts);
    assert op.code == baseop + q - 1;
    assert op.code - baseop + 1 == q;
  }

  /**
    `addOp`'s chunking, for `q` groups of `mod` points: the ops carry all the
    points once, in order; each opcode lies in [baseop, baseop + maxrep - 1]
    and announces exactly the points its op carries; every op but the last is
    full.
   */
  lemma OpsChunking<T>(baseop: Byte, maxrep: nat, mod: nat, pts: seq<T>, q: nat)
    requires mod >= 1 && maxrep >= 1 && baseop + maxrep <= 0x100
    requires q >= 1 && |pts| == mod * q
    ensures var ops := Ops(baseop, maxrep, mod, pts);
      OpsPoints(ops) == pts
      && AllShaped(ops, baseop, maxrep, mod)
      && FullButLast(ops, mod * maxrep)
  {
    OpsCover(baseop, maxrep, mod, pts);
    OpsShapedAll(baseop, maxrep, mod, pts, q);
    OpsFull(baseop, maxrep, mod, pts);
  }

  /** More than `maxrep` groups: what is left after a full op is `q - maxrep` groups. */
  lemma MoreGroups(mod: nat, maxrep: nat, q: nat)
    requires mod >= 1 && mod * q > mod * maxrep
    ensures q > maxrep && mod * q - mod * maxrep == mod * (q - maxrep)
  {
    if q <= maxrep {
      MulMonotone(mod, q, maxrep);
    }
  }

  /** At most `maxrep` groups: the final opcode counts them. */
  lemma FewerGroups(mod: nat, maxrep: nat, q: nat)
    requires mod >= 1 && q >= 1 && mod * q <= mod * maxrep
    ensures q <= maxrep && (mod * q) / mod == q
  {
    if q > maxrep {
      MulMonotone(mod, maxrep + 1, q);
    }
  }

  lemma ConcatAssoc<T>(a: seq<T>, b: seq<T>, c: seq<T>)
    ensures a + (b + c) == (a + b) + c
  {
  }

  lemma RangeAtLeast(mod: nat, maxrep: nat)
    requires mod >= 1
    ensures mod * maxrep >= maxrep
  {
    MulMonotone(maxrep, 1, mod);
  }

  lemma MulMonotone(m: nat, a: nat, b: nat)
    requires a <= b
    ensures m * a <= m * b
  {
  }

  lemma {:induction false} OpsBytesSnoc<T>(f: T -> seq<Byte>, ops: seq<Op<T>>, op: Op<T>)
    ensures OpsBytes(f, ops + [op]) == OpsBytes(f, ops) + OpBytes(f, op)
    decreases |ops|
  {
    if |ops| == 0 {
      assert ops + [op] == [op];
      assert [op][1..] == [];
    } else {
      assert (ops + [op])[1..] == ops[1..] + [op];
      OpsBytesSnoc(f, ops[1..], op);
    }
  }

  /**
    What `PathCmd` appends for a command and the new `inPath`, or its error:
    a move must have one point and opens the path; lines, cubics and
    quadratics go through `addOp` with their opcode base, group size and
    repeat limit.
   */
  function PathCmdBytes(c: Path.PathCmd, inPath: bool, m: Matrix, prec: real, bits32: real -> U32)
    : (r: Result<(seq<Byte>, bool), ProgError>)
  {
    var n := |c.pts|;
    if c.cmd == 'M' then
      if n != 1 then Err(MoveArity(n))
      else Ok(([if inPath then 0x71 else 0x70] + PtsBytes(m, c.pts, prec, bits32), true))
    else if c.cmd == 'L' then
      if n == 0 then Err(EmptyLine) else Ok((OpsBytes(PointEncoder(m, prec, bits32), Ops(0x80, 0x20, 1, c.pts)), inPath))
    else if c.cmd == 'C' then
      if n == 0 || n % 3 != 0 then Err(BadCubic(n)) else Ok((OpsBytes(PointEncoder(m, prec, bits32), Ops(0xa0, 0x10, 3, c.pts)), inPath))
    else if c.cmd == 'Q' then
      if n == 0 || n % 2 != 0 then Err(BadQuadratic(n)) else Ok((OpsBytes(PointEncoder(m, prec, bits32), Ops(0xb0, 0x10, 2, c.pts)), inPath))
    else Err(UnknownCmd(c.cmd))
  }

  /** `PathCmd` accepts exactly the commands the path decoder produces. */
  lemma PathCmdAcceptsWellFormed(c: Path.PathCmd, inPath: bool, m: Matrix, prec: real, bits32: real -> U32)
    ensures PathCmdBytes(c, inPath, m, prec, bits32).Ok? <==> Path.WellFormedCmd(c)
  {
  }

  /**
    Every command of a successful `PathDCmds` run is accepted by `PathCmd`,
    given an arc flattening that yields whole cubic segments.
   */
  lemma PathDCmdsAccepted(s: string, pf: Path.ParseFn, arc: Path.ArcFn, inPath: bool, m: Matrix, prec: real, bits32: real -> U32)
    requires Path.ArcShaped(arc)
    ensures Path.PathDCmdsOf(s, pf, arc).Ok? ==>
      forall i :: 0 <= i < |Path.PathDCmdsOf(s, pf, arc).value| ==>
        PathCmdBytes(Path.PathDCmdsOf(s, pf, arc).value[i], inPath, m, prec, bits32).Ok?
  {
    Path.PathDCmdsWellFormed(s, pf, arc);
    if Path.PathDCmdsOf(s, pf, arc).Ok? {
      var cmds := Path.PathDCmdsOf(s, pf, arc).value;
      forall i | 0 <= i < |cmds|
        ensures PathCmdBytes(cmds[i], inPath, m, prec, bits32).Ok?
      {
        PathCmdAcceptsWellFormed(cmds[i], inPath, m, prec, bits32);
      }
    }
  }

  /**
    The ops a segment command becomes: every opcode in its family's range
    announces the points it carries, and together they carry all of them in
    order. Lines take 0x80..0x9F one point per step, cubics 0xA0..0xAF three,
    quadratics 0xB0..0xBF two.
   */
  lemma SegmentOps(c: Path.PathCmd)
    requires Path.WellFormedCmd(c) && c.cmd != 'M'
    ensures var (base, rep, mod) := OpFamily(c.cmd);
      var ops := Ops(base, rep, mod, c.pts);
      OpsPoints(ops) == c.pts && forall i :: 0 <= i < |ops| ==> OpShaped(ops[i], base, rep, mod)
  {
    var (base, rep, mod) := OpFamily(c.cmd);
    OpsChunking(base, rep, mod, c.pts, |c.pts| / mod);
  }

  /** The opcode base, repeat limit and group size `PathCmd` passes to `addOp` for a segment letter. */
  function OpFamily(cmd: char): (Byte, nat, nat)
  {
    if cmd == 'L' then (0x80, 0x20, 1) else if cmd == 'C' then (0xa0, 0x10, 3) else (0xb0, 0x10, 2)
  }

  /** The coordinate encoder of a `ProgMem`. */
  function CoordEncoder(precision: real, bits32: real -> U32): real -> seq<Byte>
  {
    v => CoordEncoding(v, precision, bits32)
  }

  /** The bytes of the view box: the coordinates left, top, right and bottom in turn. */
  function ViewBoxEncoding(l: real, t: real, r: real, b: real, precision: real, bits32: real -> U32): seq<Byte>
  {
    Flat(CoordEncoder(precision, bits32), [l, t, r, b])
  }

  /** The view box after `p`: each coordinate's bytes appended in turn. */
  lemma ViewBoxAfter(p: seq<Byte>, l: real, t: real, r: real, b: real, precision: real, bits32: real -> U32)
    ensures p + ViewBoxEncoding(l, t, r, b, precision, bits32)
         == p + CoordEncoding(l, precision, bits32) + CoordEncoding(t, precision, bits32)
            + CoordEncoding(r, precision, bits32) + CoordEncoding(b, precision, bits32)
  {
    var f := CoordEncoder(precision, bits32);
    var v := [l, t, r, b];
    var none: seq<real> := [];
    assert v[..1][..0] == none;
    assert Flat(f, v[..1]) == Flat(f, none) + f(l);
    assert v[..2][..1] == v[..1];
    assert Flat(f, v[..2]) == Flat(f, v[..1]) + f(t);
    assert v[..3][..2] == v[..2];
    assert Flat(f, v[..3]) == Flat(f, v[..2]) + f(r);
    assert v[..4][..3] == v[..3] && v[..4] == v;
    assert Flat(f, v) == Flat(f, v[..3]) + f(b);
    AppendFour(p, f(l), f(t), f(r), f(b));
  }

  lemma AppendFour<T>(p: seq<T>, a: seq<T>, b: seq<T>, c: seq<T>, d: seq<T>)
    ensures p + ([] + a + b + c + d) == p + a + b + c + d
  {
  }

  /** Go's `ProgMem`: the program buffer, the precision, the open-path flag and the current transform. */
  class ProgMem {
    var buf: seq<Byte>
    const precision: real
    var inPath: bool
    var xform: Matrix
    /** Go's `math.Float32bits(float32(v))`, which the model does not interpret. */
    const bits32: real -> U32

    /** `NewProgMem(prec)`: an empty buffer with the identity transform. */
    constructor (prec: real, bits32: real -> U32)
      ensures buf == [] && precision == prec && !inPath && xform == Identity && this.bits32 == bits32
    {
      buf := [];
      precision := prec;
      inPath := false;
      xform := Identity;
      this.bits32 := bits32;
    }

    method Byte(b: Byte)
      modifies this
      ensures buf == old(buf) + [b] && inPath == old(inPath) && xform == old(xform)
    {
      buf := buf + [b];
    }

    /** `Stop`: the opcode 0x00. */
    method Stop()
      modifies this
      ensures buf == old(buf) + [0x00] && inPath == old(inPath) && xform == old(xform)
    {
      Byte(0);
    }

    /** `Color`: the four channels R, G, B, A of the colour already converted to `color.NRGBA`. */
    method Color(c: NRGBA)
      modifies this
      ensures buf == old(buf) + [c.r, c.g, c.b, c.a] && inPath == old(inPath) && xform == old(xform)
    {
      Byte(c.r);
      Byte(c.g);
      Byte(c.b);
      Byte(c.a);
    }

    /** `Coord`: encodes `v` into a four-byte buffer with `CoordBytes` and appends what it wrote. */
    method Coord(v: real)
      modifies this
      ensures buf == old(buf) + CoordEncoding(v, precision, bits32)
      ensures inPath == old(inPath) && xform == old(xform)
    {
      var p := new Byte[4];
      var n := CoordBytes(p, v, precision, bits32);
      buf := buf + p[..n];
    }

    /** `ViewBox`: the four coordinates left, top, right, bottom. */
    method ViewBox(l: real, t: real, r: real, b: real)
      modifies this
      ensures buf == old(buf) + ViewBoxEncoding(l, t, r, b, precision, bits32)
      ensures inPath == old(inPath) && xform == old(xform)
    {
      ViewBoxAfter(buf, l, t, r, b, precision, bits32);
      Coord(l);
      Coord(t);
      Coord(r);
      Coord(b);
    }

    /** `BeginPath`: the next move opens a new path, drawn under `m`. */
    method BeginPath(m: Matrix)
      modifies this
      ensures buf == old(buf) && !inPath && xform == m
    {
      inPath := false;
      xform := m;
    }

    /** `Pts`: each point's image under the current transform, x then y. */
    method Pts(v: seq<Point>)
      modifies this
      ensures buf == old(buf) + PtsBytes(xform, v, precision, bits32)
      ensures inPath == old(inPath) && xform == old(xform)
    {
      var i := 0;
      while i < |v|
        invariant 0 <= i <= |v| && inPath == old(inPath) && xform == old(xform)
        invariant buf == old(buf) + PtsBytes(xform, v[..i], precision, bits32)
      {
        assert v[..i + 1][..i] == v[..i];
        ConcatAssoc(old(buf), PtsBytes(xform, v[..i], precision, bits32), PointBytes(xform, v[i], precision, bits32));
        PutPoint(v[i]);
        i := i + 1;
      }
      assert v[..i] == v;
    }

    /**
      `addOp`: an error for no points or a count not a multiple of `mod`;
      otherwise the ops of `Ops`, each an opcode then its points.
     */
    method AddOp(cmd: char, baseop: Byte, maxrep: nat, mod: nat, pts: seq<Point>) returns (err: Option<ProgError>)
      requires mod >= 1 && maxrep >= 1
      modifies this
      ensures |pts| == 0 ==> err == Some(EmptyOp(cmd))
      ensures |pts| != 0 && |pts| % mod != 0 ==> err == Some(BadOpLength(cmd, |pts|, mod))
      ensures err.None? <==> |pts| != 0 && |pts| % mod == 0
      ensures buf == old(buf) + (if err.None? then OpsBytes(PointEncoder(xform, precision, bits32), Ops(baseop, maxrep, mod, pts)) else [])
      ensures inPath == old(inPath) && xform == old(xform)
    {
      var n := |pts|;
      if n == 0 {
        return Some(EmptyOp(cmd));
      }
      if n % mod != 0 {
        return Some(BadOpLength(cmd, n, mod));
      }
      EmitOps(baseop, maxrep, mod, pts);
      return None;
    }

    /** The loop of `addOp`: full ops while more than one op's worth of points remains, then the rest. */
    method EmitOps(baseop: Byte, maxrep: nat, mod: nat, pts: seq<Point>)
      requires mod >= 1 && maxrep >= 1
      modifies this
      ensures buf == old(buf) + OpsBytes(PointEncoder(xform, precision, bits32), Ops(baseop, maxrep, mod, pts))
      ensures inPath == old(inPath) && xform == old(xform)
    {
      var rng := OpRange(mod, maxrep);
      var rest := pts;
      ghost var f := PointEncoder(xform, precision, bits32);
      ghost var done: seq<Op<Point>> := [];
      while |rest| > rng
        invariant inPath == old(inPath) && xform == old(xform)
        invariant rng >= 1
        invariant Ops(baseop, maxrep, mod, pts) == done + Ops(baseop, maxrep, mod, rest)
        invariant buf == old(buf) + OpsBytes(f, done)
      {
        var op := FullOp(baseop, maxrep, rest[..rng]);
        assert Ops(baseop, maxrep, mod, rest) == [op] + Ops(baseop, maxrep, mod, rest[rng..]);
        ConcatAssoc(done, [op], Ops(baseop, maxrep, mod, rest[rng..]));
        OpsBytesSnoc(f, done, op);
        ConcatAssoc(old(buf), OpsBytes(f, done), OpBytes(f, op));
        EmitOp(op);
        done := done + [op];
        rest := rest[rng..];
      }
      var op := LastOp(baseop, mod, rest);
      OpsBytesSnoc(f, done, op);
      ConcatAssoc(old(buf), OpsBytes(f, done), OpBytes(f, op));
      EmitOp(op);
    }

    /** One op: its opcode, then its points. */
    method EmitOp(op: Op<Point>)
      modifies this
      ensures buf == old(buf) + OpBytes(PointEncoder(xform, precision, bits32), op)
      ensures inPath == old(inPath) && xform == old(xform)
    {
      Byte(op.code);
      Pts(op.pts);
    }

    /** One point of `Pts`: its image under the current transform, x then y. */
    method PutPoint(p: Point)
      modifies this
      ensures buf == old(buf) + PointBytes(xform, p, precision, bits32)
      ensures inPath == old(inPath) && xform == old(xform)
    {
      var q := Transform(xform, p);
      Coord(q.x);
      Coord(q.y);
    }

    /**
      `PathCmd`: the bytes and the new open-path flag of `PathCmdBytes`, or its
      error with the buffer unchanged.
     */
    method PathCmd(c: Path.PathCmd) returns (err: Option<ProgError>)
      modifies this
      ensures xform == old(xform)
      ensures match PathCmdBytes(c, old(inPath), xform, precision, bits32)
        case Ok((bytes, open)) => err.None? && buf == old(buf) + bytes && inPath == open
        case Err(e) => err == Some(e) && buf == old(buf) && inPath == old(inPath)
    {
      var n := |c.pts|;
      if c.cmd == 'M' {
        if n != 1 {
          return Some(MoveArity(n));
        }
        if !inPath {
          Byte(0x70);
          inPath := true;
        } else {
          Byte(0x71);
        }
        Pts(c.pts);
        return None;
      } else if c.cmd == 'L' {
        if n == 0 {
          return Some(EmptyLine);
        }
        err := AddOp(c.cmd, 0x80, 0x20, 1, c.pts);
      } else if c.cmd == 'C' {
        if n == 0 || n % 3 != 0 {
          return Some(BadCubic(n));
        }
        err := AddOp(c.cmd, 0xa0, 0x10, 3, c.pts);
      } else if c.cmd == 'Q' {
        if n == 0 || n % 2 != 0 {
          return Some(BadQuadratic(n));
        }
        err := AddOp(c.cmd, 0xb0, 0x10, 2, c.pts);
      } else {
        return Some(UnknownCmd(c.cmd));
      }
    }
  }
}
