/*
  Where the two halves of the system meet: the Go pack writer (pack.go,
  prog.go) produces the streams and programs the C++ reader (IconPack.cpp)
  loads and interprets. The lemmas here run writer output through the C++
  model: an icon record loads back whole, and the writer's opcodes meet the
  interpreter's opcode table.
*/
module Interop {
  import opened Base
  import IconPack
  import Pack
  import Prog
  import Path
  import Trans
  import Disasm

  // ---------------------------------------------------------------------------
  // loadIcon on the writer's records

  /** An element the C++ loader takes whole: a name and images it can count in a byte, within the size limit. */
  predicate Loadable(e: Pack.PackElem)
  {
    0 < |e.name| <= 255 && 0 < |e.images| <= 255 && Disasm.AllFit(e.images)
    && |Pack.ElemBytes(e)| <= IconPack.MaxIconSize
  }

  /** The variant records `loadIcon` builds for the writer's images: width, height and the running sum of data sizes as offset. */
  function RawImages(ims: seq<Pack.ProgImage>): (r: seq<IconPack.RawImage>)
    ensures |r| == |ims|
    decreases |ims|
  {
    if |ims| == 0 then []
    else
      var init := ims[..|ims| - 1];
      var m := ims[|ims| - 1];
      RawImages(init) + [IconPack.RawImage(ToU16(m.width), ToU16(m.height), ToU32(|Pack.Datas(init)|), 0)]
  }

  /** The fields of one image header, read where the writer put it. */
  lemma HeaderFields(pre: seq<Byte>, im: Pack.ProgImage, t: seq<Byte>)
    ensures var d := pre + Pack.ImageHeader(im) + t;
      |pre| + 8 <= |d|
      && ReadLe16(d, |pre|) == ToU16(im.width) && ReadLe16(d, |pre| + 2) == ToU16(im.height)
      && ReadLe32(d, |pre| + 4) == ToU32(|im.data|)
  {
    var w, h, n := Le16(ToU16(im.width)), Le16(ToU16(im.height)), Le32(ToU32(|im.data|));
    var hh := Pack.ImageHeader(im);
    var d := pre + hh + t;
    var k := |pre|;
    assert hh == w + h + n;
    assert d[k] == w[0] && d[k + 1] == w[1];
    assert d[k + 2] == h[0] && d[k + 3] == h[1];
    assert d[k + 4] == n[0] && d[k + 5] == n[1] && d[k + 6] == n[2] && d[k + 7] == n[3];
  }

  /** The variant table `loadIcon` reads over the writer's headers, and the sum of the sizes they record. */
  lemma {:induction false} TableRead(pre: seq<Byte>, ims: seq<Pack.ProgImage>, t: seq<Byte>)
    requires Disasm.AllFit(ims)
    ensures var d := pre + Pack.Headers(ims) + t;
      |pre| + 8 * |ims| <= |d|
      && IconPack.ImageTable(d, |pre|, |ims|) == RawImages(ims)
      && IconPack.SizeSum(d, |pre|, |ims|) == |Pack.Datas(ims)|
    decreases |ims|
  {
    if |ims| > 0 {
      var n := |ims| - 1;
      var init := ims[..n];
      var im := ims[n];
      var d := pre + Pack.Headers(ims) + t;
      var hi := Pack.Headers(init);
      var hh := Pack.ImageHeader(im);
      assert Pack.Headers(ims) == hi + hh;
      Pack.ConcatAssoc(pre, hi, hh);
      Pack.ConcatAssoc(pre + hi, hh, t);
      Pack.ConcatAssoc(pre, hi, hh + t);
      assert d == pre + hi + (hh + t);
      Disasm.AllFitPrefix(ims, n);
      TableRead(pre, init, hh + t);
      HeaderFields(pre + hi, im, t);
      assert Disasm.ImageFits(im);
      ToU32Small(|im.data|);
      assert Pack.Datas(ims) == Pack.Datas(init) + im.data;
      var h := |pre|;
      assert h + 8 * n == |pre + hi|;
      var ri := IconPack.RawImage(ToU16(im.width), ToU16(im.height), ToU32(|Pack.Datas(init)|), 0);
      assert IconPack.ImageRecord(d, h, n) == ri;
      assert IconPack.ImageTable(d, h, |ims|) == IconPack.ImageTable(d, h, n) + [ri];
      assert RawImages(ims) == RawImages(init) + [ri];
    }
  }

  /** The header `loadIcon` reads in front of a variant table: size, name and count come back as written. */
  lemma HeaderRead(size: U32, name: seq<Byte>, count: Byte, tail: seq<Byte>)
    requires size <= IconPack.MaxIconSize && 0 < |name| < 0x100 && 0 < count
    ensures IconPack.HeaderAt(Le32(size) + [|name| as Byte] + name + [count] + tail, 0)
         == Some(IconPack.IconHeader(size, name, count, 6 + |name|))
  {
    var len := Le32(size);
    var d := len + [|name| as Byte] + name + [count] + tail;
    assert d[0] == len[0] && d[1] == len[1] && d[2] == len[2] && d[3] == len[3];
    assert d[4] == |name|;
    assert d[5..5 + |name|] == name;
    assert d[5 + |name|] == count;
  }

  /** `loadIcon` after an accepted header whose table and blob lie within the record and the data: what it returns besides the blob. */
  lemma IconFromHeader(d: seq<Byte>, hd: IconPack.IconHeader, next: nat)
    requires IconPack.HeaderAt(d, 0) == Some(hd) && next == 4 + hd.size
    requires IconPack.HeaderLen(hd) <= hd.size && next <= |d|
    ensures hd.table + 8 * hd.count <= next
    ensures IconPack.IconAt(d, 0).Some? && IconPack.IconAt(d, 0).value.1 == next
    ensures IconPack.IconAt(d, 0).value.0.name == hd.name && IconPack.IconAt(d, 0).value.0.palvec == None
    ensures IconPack.IconAt(d, 0).value.0.images == IconPack.ImageTable(d, hd.table, hd.count)
  {
    assert hd.table == 6 + |hd.name|;
    assert hd.table + 8 * hd.count == 4 + IconPack.HeaderLen(hd) <= next;
  }

  /** The blob of that icon: the rest of the declared size after the table. */
  lemma BlobFromHeader(d: seq<Byte>, hd: IconPack.IconHeader, front: seq<Byte>, blob: seq<Byte>, rest: seq<Byte>)
    requires IconPack.HeaderAt(d, 0) == Some(hd) && d == front + (blob + rest)
    requires |front| == hd.table + 8 * hd.count && |front| + |blob| == 4 + hd.size
    requires IconPack.HeaderLen(hd) <= hd.size
    ensures IconPack.IconAt(d, 0).Some? && IconPack.IconAt(d, 0).value.0.data == blob
  {
    assert hd.table == 6 + |hd.name|;
    assert |front| == 4 + IconPack.HeaderLen(hd);
    MidSlice(front, blob, rest);
  }

  lemma MidSlice<T>(a: seq<T>, b: seq<T>, c: seq<T>)
    ensures (a + (b + c))[|a|..|a| + |b|] == b
  {
    assert (a + (b + c))[|a|..] == b + c;
  }

  /** The record as the writer lays it out, regrouped as the reader walks it. */
  lemma RecordSplit(len: seq<Byte>, nameLen: Byte, name: seq<Byte>, count: Byte, hdrs: seq<Byte>, datas: seq<Byte>, rest: seq<Byte>)
    ensures var pre := len + [nameLen] + name + [count];
      len + ([nameLen] + name + [count] + hdrs + datas) + rest == pre + hdrs + (datas + rest)
      && pre + hdrs + (datas + rest) == pre + (hdrs + (datas + rest))
  {
  }

  /** `loadIcon` on a record laid out as the writer lays it out, given its parts. */
  lemma {:induction false} LaidOutRead(size: U32, name: seq<Byte>, ims: seq<Pack.ProgImage>, rest: seq<Byte>)
    requires 0 < |name| < 0x100 && 0 < |ims| < 0x100 && Disasm.AllFit(ims) && size <= IconPack.MaxIconSize
    requires size == 2 + |name| + 8 * |ims| + |Pack.Datas(ims)|
    ensures var d := Le32(size) + [|name| as Byte] + name + [|ims| as Byte] + Pack.Headers(ims) + (Pack.Datas(ims) + rest);
      IconPack.IconAt(d, 0) == Some((IconPack.IconData(name, RawImages(ims), Pack.Datas(ims), None), 4 + size))
  {
    var hdrs, datas := Pack.Headers(ims), Pack.Datas(ims);
    var count: Byte := |ims|;
    var pre := Le32(size) + [|name| as Byte] + name + [count];
    var d := pre + hdrs + (datas + rest);
    TableRead(pre, ims, datas + rest);
    Pack.ConcatAssoc(pre, hdrs, datas + rest);
    HeaderRead(size, name, count, hdrs + (datas + rest));
    var hd := IconPack.IconHeader(size, name, count, 6 + |name|);
    assert |pre| + 8 * |ims| == hd.table + 8 * hd.count;
    IconFromHeader(d, hd, 4 + size);
    BlobFromHeader(d, hd, pre + hdrs, datas, rest);
  }

  /**
    The C++ counterpart of the Go round trip: `loadIcon` on a record the Go
    writer made, whatever follows it, yields the element's name, a variant
    per image with its width, height and prefix-sum offset, all image data
    as the blob, and stops right after the record.
   */
  lemma IconAtRoundTrip(e: Pack.PackElem, rest: seq<Byte>)
    requires Loadable(e)
    ensures IconPack.IconAt(Pack.ElemRecord(e) + rest, 0)
         == Some((IconPack.IconData(e.name, RawImages(e.images), Pack.Datas(e.images), None), |Pack.ElemRecord(e)|))
  {
    var ims := e.images;
    var name := e.name;
    var hdrs, datas := Pack.Headers(ims), Pack.Datas(ims);
    var body := Pack.ElemBytes(e);
    var size := |body|;
    ToU32Small(size);
    var len := Le32(size);
    var count: Byte := |ims|;
    assert body == [|name| as Byte] + name + [count] + hdrs + datas;
    RecordSplit(len, |name|, name, count, hdrs, datas, rest);
    LaidOutRead(size, name, ims, rest);
  }

  // ---------------------------------------------------------------------------
  // The writer's opcodes in the C++ interpreter

  /**
    A line run of 1 to 16 points, as `addOp` writes it (opcode 0x80 plus the
    count less one), stops the C++ interpreter as written: the opcode falls
    to `default`, wherever in the program it stands. The intended loop body
    reads it as a line through that many points.
   */
  lemma WriterShortLineRejected<T>(f: T -> seq<Byte>, pts: seq<T>, pre: seq<Byte>, rest: seq<Byte>, hasPath: bool)
    requires 1 <= |pts| <= 16
    ensures var data := pre + Prog.OpsBytes(f, Prog.Ops(0x80, 0x20, 1, pts)) + rest;
      |pre| < |data|
      && IconPack.Run(data, |pre|, hasPath) == IconPack.Trace(IconPack.Rejected(|pre|, 0x7F + |pts|), [])
      && IconPack.StepIntended(data, |pre|, hasPath).Continue?
      && IconPack.StepIntended(data, |pre|, hasPath).evs[0].LineTo?
      && |IconPack.StepIntended(data, |pre|, hasPath).evs[0].pts| == |pts|
  {
    var op := Prog.LastOp(0x80, 1, pts);
    assert Prog.OpRange(1, 0x20) == 0x20;
    assert Prog.Ops(0x80, 0x20, 1, pts) == [op];
    assert op.code == 0x7F + |pts|;
    var ops := [op];
    assert Prog.OpsBytes(f, ops) == Prog.OpBytes(f, op) + Prog.OpsBytes(f, ops[1..]);
    var data := pre + Prog.OpsBytes(f, ops) + rest;
    assert data[|pre|] == op.code;
    IconPack.StepIntendedProtocol(data, |pre|, hasPath);
  }

  /**
    A move after the first of a path, which `PathCmd` writes as 0x71, stops
    the C++ interpreter: it closes an open path and then rejects the opcode.
   */
  lemma WriterMoveRejected(c: Path.PathCmd, m: Trans.Matrix, prec: real, bits32: real -> U32,
                           pre: seq<Byte>, rest: seq<Byte>, hasPath: bool)
    requires c.cmd == 'M' && |c.pts| == 1
    ensures Prog.PathCmdBytes(c, true, m, prec, bits32).Ok?
    ensures var data := pre + Prog.PathCmdBytes(c, true, m, prec, bits32).value.0 + rest;
      |pre| < |data|
      && IconPack.Run(data, |pre|, hasPath)
         == IconPack.Trace(IconPack.Rejected(|pre|, 0x71), IconPack.CloseIfOpen(hasPath))
  {
    var b := Prog.PathCmdBytes(c, true, m, prec, bits32).value.0;
    assert b[0] == 0x71;
    var data := pre + b + rest;
    assert data[|pre|] == 0x71;
  }

  /**
    The same move under the intended loop body: the interpreter reads the
    point after 0x71 and moves there, with no `ClosePath` before it, and the
    path stays open if it was.
   */
  lemma WriterMoveDrawn(c: Path.PathCmd, m: Trans.Matrix, prec: real, bits32: real -> U32,
                        pre: seq<Byte>, rest: seq<Byte>, hasPath: bool)
    requires c.cmd == 'M' && |c.pts| == 1
    ensures Prog.PathCmdBytes(c, true, m, prec, bits32).Ok?
    ensures var data := pre + Prog.PathCmdBytes(c, true, m, prec, bits32).value.0 + rest;
      |pre| < |data|
      && var (pt, q) := IconPack.PointAt(data, |pre| + 1);
      IconPack.StepIntended(data, |pre|, hasPath) == IconPack.Continue([IconPack.MoveTo(pt)], q, hasPath)
  {
    var b := Prog.PathCmdBytes(c, true, m, prec, bits32).value.0;
    assert b[0] == 0x71;
    var data := pre + b + rest;
    assert data[|pre|] == 0x71;
  }
}
