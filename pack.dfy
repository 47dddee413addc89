/**
  The pack writer of the Go packer (procsvg/pack.go): the byte layout of one
  icon element, of a palette section and of the whole "icpk" stream, the
  count of bytes written, the ordering of an element's images and of the
  automatic palette, and the identifier and string-literal helpers used when
  generating source.
 */
module Pack {
  import opened Base
  import opened Sorting
  import Prog

  type NRGBA = Prog.NRGBA

  /** Go's `ProgImage`: one size variant of an icon and its program. */
  datatype ProgImage = ProgImage(width: int, height: int, data: seq<Byte>)

  /** Go's `PackElem`: an icon's name (bytes of a Go string) and its images. */
  datatype PackElem = PackElem(name: seq<Byte>, images: seq<ProgImage>)

  // ---------------------------------------------------------------------------
  // Writers

  /** The prefix of `s` that fits in `cap` bytes. */
  function Trunc<T>(s: seq<T>, cap: nat): (r: seq<T>)
    ensures |r| <= cap && |r| <= |s|
  {
    if |s| <= cap then s else s[..cap]
  }

  /** Writing `a` and then `b` into what is left is writing `a + b`. */
  lemma TruncConcat<T>(a: seq<T>, b: seq<T>, cap: nat)
    ensures Trunc(a, cap) + Trunc(b, cap - |Trunc(a, cap)|) == Trunc(a + b, cap)
  {
    if |a| > cap {
      assert (a + b)[..cap] == a[..cap];
    }
  }

  /** Once the writer is full, nothing more gets in. */
  lemma TruncPast<T>(a: seq<T>, b: seq<T>, cap: nat)
    requires |a| > cap
    ensures Trunc(a + b, cap) == Trunc(a, cap)
  {
    assert (a + b)[..cap] == a[..cap];
  }

  lemma ConcatAssoc<T>(a: seq<T>, b: seq<T>, c: seq<T>)
    ensures a + (b + c) == (a + b) + c
  {
  }

  /**
    An `io.Writer` that accepts `cap` more bytes: a write takes what fits and
    reports an error when it could not take everything, as `io.Writer`
    requires of a short write.
   */
  class Sink {
    var out: seq<Byte>
    var cap: nat

    constructor (cap: nat)
      ensures out == [] && this.cap == cap
    {
      out := [];
      this.cap := cap;
    }

    method Write(p: seq<Byte>) returns (n: nat, err: bool)
      modifies this
      ensures n == |Trunc(p, old(cap))| && err == (|p| > old(cap))
      ensures out == old(out) + Trunc(p, old(cap)) && cap == old(cap) - n
    {
      var t := Trunc(p, cap);
      out := out + t;
      cap := cap - |t|;
      return |t|, |p| > |t|;
    }
  }

  /** Go's `countWriter`: forwards every write and adds up the bytes taken. */
  class CountWriter {
    const w: Sink
    var n: int

    constructor (w: Sink)
      ensures this.w == w && n == 0
    {
      this.w := w;
      n := 0;
    }

    method Write(p: seq<Byte>) returns (k: nat, err: bool)
      modifies this, w
      ensures k == |Trunc(p, old(w.cap))| && err == (|p| > old(w.cap))
      ensures w.out == old(w.out) + Trunc(p, old(w.cap)) && w.cap == old(w.cap) - k
      ensures n == old(n) + k
    {
      k, err := w.Write(p);
      n := n + k;
    }
  }

  /**
    What a writer holds after bytes `p` were offered to it from the state
    (`out0`, `cap0`): the part of `p` that fits, with `n` counting it.
   */
  ghost predicate Offered(cw: CountWriter, out0: seq<Byte>, cap0: nat, n0: int, p: seq<Byte>)
    reads cw, cw.w
  {
    cw.w.out == out0 + Trunc(p, cap0)
    && cw.w.cap == cap0 - |Trunc(p, cap0)|
    && cw.n == n0 + |Trunc(p, cap0)|
  }

  /** One more write keeps `Offered` for the longer stream. */
  lemma OfferedMore(cw: CountWriter, out0: seq<Byte>, cap0: nat, n0: int, p: seq<Byte>, q: seq<Byte>,
                    outMid: seq<Byte>, capMid: nat, nMid: int)
    requires outMid == out0 + Trunc(p, cap0) && capMid == cap0 - |Trunc(p, cap0)| && nMid == n0 + |Trunc(p, cap0)|
    requires cw.w.out == outMid + Trunc(q, capMid) && cw.w.cap == capMid - |Trunc(q, capMid)|
    requires cw.n == nMid + |Trunc(q, capMid)|
    ensures Offered(cw, out0, cap0, n0, p + q)
  {
    TruncConcat(p, q, cap0);
    ConcatAssoc(out0, Trunc(p, cap0), Trunc(q, capMid));
  }

  /** Go's `writeUint32`: the four little-endian bytes of `v`. */
  method WriteUint32(w: CountWriter, v: U32) returns (k: nat, err: bool)
    modifies w, w.w
    ensures k == |Trunc(Le32(v), old(w.w.cap))| && err == (4 > old(w.w.cap))
    ensures w.w.out == old(w.w.out) + Trunc(Le32(v), old(w.w.cap)) && w.w.cap == old(w.w.cap) - k
    ensures w.n == old(w.n) + k
  {
    k, err := w.Write(Le32(v));
  }

  // ---------------------------------------------------------------------------
  // Element layout

  /** The name as written: at most its first 255 bytes. */
  function WrittenName(name: seq<Byte>): (r: seq<Byte>)
    ensures |r| <= 255 && |r| <= |name| && r == name[..|r|]
    ensures |name| <= 255 ==> r == name
  {
    if |name| > 255 then name[..255] else name
  }

  /** One image header: width and height as u16, data length as u32, little endian. */
  function ImageHeader(im: ProgImage): (r: seq<Byte>)
    ensures |r| == 8
  {
    Le16(ToU16(im.width)) + Le16(ToU16(im.height)) + Le32(ToU32(|im.data|))
  }

  /** The image headers of `ims`, in order. */
  function Headers(ims: seq<ProgImage>): (r: seq<Byte>)
    ensures |r| == 8 * |ims|
    decreases |ims|
  {
    if |ims| == 0 then [] else Headers(ims[..|ims| - 1]) + ImageHeader(ims[|ims| - 1])
  }

  /** The image data of `ims`, in order. */
  function Datas(ims: seq<ProgImage>): seq<Byte>
    decreases |ims|
  {
    if |ims| == 0 then [] else Datas(ims[..|ims| - 1]) + ims[|ims| - 1].data
  }

  /**
    `PackElem.dataBytes`: the name length and name, the image count as one
    byte, a header per image, then all image data.
   */
  function ElemBytes(e: PackElem): (r: seq<Byte>)
    ensures |r| >= 2
  {
    var n := WrittenName(e.name);
    [|n|] + n + [ToByte(|e.images|)] + Headers(e.images) + Datas(e.images)
  }

  /** `dataBytes` as the source writes it: a buffer filled in two loops. */
  method DataBytes(e: PackElem) returns (d: seq<Byte>)
    ensures d == ElemBytes(e)
  {
    var n := e.name;
    if |n| > 255 {
      n := n[..255];
    }
    d := [|n|] + n + [ToByte(|e.images|)];
    ghost var head := d;
    var i := 0;
    while i < |e.images|
      invariant 0 <= i <= |e.images|
      invariant d == head + Headers(e.images[..i])
    {
      assert e.images[..i + 1][..i] == e.images[..i];
      ConcatAssoc(head, Headers(e.images[..i]), ImageHeader(e.images[i]));
      d := d + ImageHeader(e.images[i]);
      i := i + 1;
    }
    assert e.images[..i] == e.images;
    ghost var mid := d;
    i := 0;
    while i < |e.images|
      invariant 0 <= i <= |e.images|
      invariant d == mid + Datas(e.images[..i])
    {
      assert e.images[..i + 1][..i] == e.images[..i];
      ConcatAssoc(mid, Datas(e.images[..i]), e.images[i].data);
      d := d + e.images[i].data;
      i := i + 1;
    }
    assert e.images[..i] == e.images;
  }

  /** `PackElem.writeTo`: the u32 length of the element bytes, then the bytes. */
  function ElemRecord(e: PackElem): (r: seq<Byte>)
    ensures |r| >= 6
  {
    Le32(ToU32(|ElemBytes(e)|)) + ElemBytes(e)
  }

  /**
    `PackElem.writeTo`: the error of writing the length is ignored, so only
    the body's write decides the error; since the body is never empty, the
    error is reported exactly when the record did not fit.
   */
  method WriteElem(w: CountWriter, e: PackElem) returns (err: bool)
    modifies w, w.w
    ensures Offered(w, old(w.w.out), old(w.w.cap), old(w.n), ElemRecord(e))
    ensures err == (|ElemRecord(e)| > old(w.w.cap))
  {
    ghost var out0, cap0, n0 := w.w.out, w.w.cap, w.n;
    var d := DataBytes(e);
    var _, _ := WriteUint32(w, ToU32(|d|));
    ghost var outMid, capMid, nMid := w.w.out, w.w.cap, w.n;
    var _, e2 := w.Write(d);
    OfferedMore(w, out0, cap0, n0, Le32(ToU32(|d|)), d, outMid, capMid, nMid);
    err := e2;
  }

  // ---------------------------------------------------------------------------
  // Palette sections and the stream

  const PackMagic: seq<Byte> := [0x69, 0x63, 0x70, 0x6b]      // "icpk"
  const PaletteMagic: seq<Byte> := [0x50, 0x41, 0x4c, 0x54]   // "PALT"
  const IconMagic: seq<Byte> := [0x49, 0x43, 0x4f, 0x4e]      // "ICON"

  /** The colours of a palette, R, G, B, A each. */
  function ColorBytes(pal: seq<NRGBA>): (r: seq<Byte>)
    ensures |r| == 4 * |pal|
    decreases |pal|
  {
    if |pal| == 0 then [] else ColorBytes(pal[..|pal| - 1]) + [pal[|pal| - 1].r, pal[|pal| - 1].g, pal[|pal| - 1].b, pal[|pal| - 1].a]
  }

  /** The body of a palette section: its index and size, each as one byte, and its colours. */
  function PaletteBody(idx: int, pal: seq<NRGBA>): (r: seq<Byte>)
    ensures |r| == 2 + 4 * |pal|
  {
    [ToByte(idx), ToByte(|pal|)] + ColorBytes(pal)
  }

  /** `writePalette`: "PALT", the u32 length of the body, then the body. */
  function PaletteSection(idx: int, pal: seq<NRGBA>): seq<Byte>
  {
    PaletteMagic + Le32(ToU32(2 + 4 * |pal|)) + PaletteBody(idx, pal)
  }

  /** The buffer `writePalette` fills colour by colour. */
  method PaletteBuffer(idx: int, pal: seq<NRGBA>) returns (buf: seq<Byte>)
    ensures buf == PaletteBody(idx, pal)
  {
    buf := [ToByte(idx), ToByte(|pal|)];
    var i := 0;
    while i < |pal|
      invariant 0 <= i <= |pal|
      invariant buf == [ToByte(idx), ToByte(|pal|)] + ColorBytes(pal[..i])
    {
      assert pal[..i + 1][..i] == pal[..i];
      var c := pal[i];
      ConcatAssoc([ToByte(idx), ToByte(|pal|)], ColorBytes(pal[..i]), [c.r, c.g, c.b, c.a]);
      buf := buf + [c.r, c.g, c.b, c.a];
      i := i + 1;
    }
    assert pal[..i] == pal;
  }

  /** `writePalette` as the source writes it; the magic's write error is ignored. */
  method WritePalette(w: CountWriter, idx: int, pal: seq<NRGBA>) returns (err: bool)
    modifies w, w.w
    ensures Offered(w, old(w.w.out), old(w.w.cap), old(w.n), PaletteSection(idx, pal))
    ensures err == (|PaletteSection(idx, pal)| > old(w.w.cap))
  {
    ghost var out0, cap0, n0 := w.w.out, w.w.cap, w.n;
    var _, _ := w.Write(PaletteMagic);
    ghost var outA, capA, nA := w.w.out, w.w.cap, w.n;
    var buf := PaletteBuffer(idx, pal);
    var _, e1 := WriteUint32(w, ToU32(|buf|));
    OfferedMore(w, out0, cap0, n0, PaletteMagic, Le32(ToU32(|buf|)), outA, capA, nA);
    if e1 {
      TruncPast(PaletteMagic + Le32(ToU32(|buf|)), buf, cap0);
      return true;
    }
    ghost var outB, capB, nB := w.w.out, w.w.cap, w.n;
    var _, e2 := w.Write(buf);
    OfferedMore(w, out0, cap0, n0, PaletteMagic + Le32(ToU32(|buf|)), buf, outB, capB, nB);
    err := e2;
  }

  /** Every palette section, palette `i` with index `i`. */
  function PaletteSections(pals: seq<seq<NRGBA>>): seq<Byte>
    decreases |pals|
  {
    if |pals| == 0 then []
    else PaletteSections(pals[..|pals| - 1]) + PaletteSection(|pals| - 1, pals[|pals| - 1])
  }

  /** Every element, each tagged "ICON". */
  function IconSections(es: seq<PackElem>): seq<Byte>
    decreases |es|
  {
    if |es| == 0 then [] else IconSections(es[..|es| - 1]) + IconSection(es[|es| - 1])
  }

  /** One element as `WriteTo` writes it: "ICON" and the element record. */
  function IconSection(e: PackElem): (r: seq<Byte>)
    ensures |r| >= 10
  {
    IconMagic + ElemRecord(e)
  }

  /** The magic and the u32 element count. */
  function PackHead(es: seq<PackElem>): (r: seq<Byte>)
    ensures |r| == 8
  {
    PackMagic + Le32(ToU32(|es|))
  }

  /** The whole stream `IconPack.WriteTo` produces. */
  function PackStream(pals: seq<seq<NRGBA>>, es: seq<PackElem>): seq<Byte>
  {
    PackHead(es) + PaletteSections(pals) + IconSections(es)
  }

  lemma PaletteSectionsSnoc(pals: seq<seq<NRGBA>>, i: nat)
    requires i < |pals|
    ensures PaletteSections(pals[..i + 1]) == PaletteSections(pals[..i]) + PaletteSection(i, pals[i])
  {
    assert pals[..i + 1][..i] == pals[..i];
  }

  lemma IconSectionsSnoc(es: seq<PackElem>, j: nat)
    requires j < |es|
    ensures IconSections(es[..j + 1]) == IconSections(es[..j]) + IconSection(es[j])
  {
    assert es[..j + 1][..j] == es[..j];
  }

  lemma {:induction false} PaletteSectionsPrefix(pals: seq<seq<NRGBA>>, i: nat)
    requires i <= |pals|
    ensures PaletteSections(pals[..i]) <= PaletteSections(pals)
    decreases |pals| - i
  {
    if i < |pals| {
      var init := pals[..|pals| - 1];
      assert init[..i] == pals[..i];
      PaletteSectionsPrefix(init, i);
    } else {
      assert pals[..i] == pals;
    }
  }

  lemma {:induction false} IconSectionsPrefix(es: seq<PackElem>, i: nat)
    requires i <= |es|
    ensures IconSections(es[..i]) <= IconSections(es)
    decreases |es| - i
  {
    if i < |es| {
      var init := es[..|es| - 1];
      assert init[..i] == es[..i];
      IconSectionsPrefix(init, i);
    } else {
      assert es[..i] == es;
    }
  }

  /** A write that overflowed decides what the whole stream leaves behind. */
  lemma TruncPrefix<T>(a: seq<T>, s: seq<T>, cap: nat)
    requires a <= s && |a| > cap
    ensures Trunc(s, cap) == Trunc(a, cap) && |s| > cap
  {
    assert s == a + s[|a|..];
    TruncPast(a, s[|a|..], cap);
  }

  lemma PrefixExtend<T>(h: seq<T>, a: seq<T>, b: seq<T>, c: seq<T>)
    requires a <= b
    ensures h + a <= h + b + c
  {
    assert (h + b + c)[..|h + a|] == h + a;
  }

  /** Go's `IconPack`: the palettes and the elements in the order added. */
  class IconPack {
    var palette: seq<seq<NRGBA>>
    var elem: seq<PackElem>

    constructor (palette: seq<seq<NRGBA>>)
      ensures this.palette == palette && elem == []
    {
      this.palette := palette;
      elem := [];
    }

    /**
      `Add`: the element goes last, its images reordered by non-increasing
      area.
     */
    method Add(pe: PackElem)
      modifies this
      ensures palette == old(palette)
      ensures elem == old(elem) + [PackElem(pe.name, BySize(pe.images))]
    {
      elem := elem + [PackElem(pe.name, BySize(pe.images))];
    }

    /**
      `WriteTo`: the stream goes to `w0` as far as it fits, the count is what
      `w0` took, and an error is reported exactly when something did not fit.
     */
    method WriteTo(w0: Sink) returns (n: int, err: bool)
      modifies w0
      ensures w0.out == old(w0.out) + Trunc(PackStream(palette, elem), old(w0.cap))
      ensures n == |Trunc(PackStream(palette, elem), old(w0.cap))|
      ensures err == (|PackStream(palette, elem)| > old(w0.cap))
    {
      var w := new CountWriter(w0);
      ghost var out0, cap0 := w0.out, w0.cap;
      ghost var head := PackHead(elem);
      ghost var body := head + PaletteSections(palette);
      var _, _ := w.Write(PackMagic);
      ghost var outA, capA, nA := w0.out, w0.cap, w.n;
      var _, e := WriteUint32(w, ToU32(|elem|));
      OfferedMore(w, out0, cap0, 0, PackMagic, Le32(ToU32(|elem|)), outA, capA, nA);
      if e {
        PrefixExtend(head, [], PaletteSections(palette), IconSections(elem));
        OfferedPrefix(w, out0, cap0, 0, head, PackStream(palette, elem));
        return w.n, true;
      }
      ghost var outB, capB, nB := w0.out, w0.cap, w.n;
      e := WritePalettes(w, palette);
      OfferedMore(w, out0, cap0, 0, head, PaletteSections(palette), outB, capB, nB);
      if e {
        PrefixExtend(body, [], [], IconSections(elem));
        OfferedPrefix(w, out0, cap0, 0, body, PackStream(palette, elem));
        return w.n, true;
      }
      ghost var outC, capC, nC := w0.out, w0.cap, w.n;
      e := WriteIcons(w, elem);
      OfferedMore(w, out0, cap0, 0, body, IconSections(elem), outC, capC, nC);
      return w.n, e;
    }
  }

  /** Writing past the capacity: what was offered up to then is all that gets in. */
  lemma OfferedPrefix(cw: CountWriter, out0: seq<Byte>, cap0: nat, n0: int, a: seq<Byte>, s: seq<Byte>)
    requires Offered(cw, out0, cap0, n0, a) && a <= s && |a| > cap0
    ensures Offered(cw, out0, cap0, n0, s) && |s| > cap0
  {
    TruncPrefix(a, s, cap0);
  }

  /** The palette loop of `WriteTo`, stopping at the first error. */
  method WritePalettes(w: CountWriter, pals: seq<seq<NRGBA>>) returns (err: bool)
    modifies w, w.w
    ensures Offered(w, old(w.w.out), old(w.w.cap), old(w.n), PaletteSections(pals))
    ensures err == (|PaletteSections(pals)| > old(w.w.cap))
  {
    ghost var out0, cap0, n0 := w.w.out, w.w.cap, w.n;
    var i := 0;
    while i < |pals|
      invariant 0 <= i <= |pals|
      invariant Offered(w, out0, cap0, n0, PaletteSections(pals[..i]))
      invariant |PaletteSections(pals[..i])| <= cap0
    {
      ghost var outB, capB, nB := w.w.out, w.w.cap, w.n;
      var e := WritePalette(w, i, pals[i]);
      PaletteSectionsSnoc(pals, i);
      OfferedMore(w, out0, cap0, n0, PaletteSections(pals[..i]), PaletteSection(i, pals[i]), outB, capB, nB);
      if e {
        PaletteSectionsPrefix(pals, i + 1);
        OfferedPrefix(w, out0, cap0, n0, PaletteSections(pals[..i + 1]), PaletteSections(pals));
        return true;
      }
      i := i + 1;
    }
    assert pals[..i] == pals;
    return false;
  }

  /** The element loop of `WriteTo`, stopping at the first error. */
  method WriteIcons(w: CountWriter, es: seq<PackElem>) returns (err: bool)
    modifies w, w.w
    ensures Offered(w, old(w.w.out), old(w.w.cap), old(w.n), IconSections(es))
    ensures err == (|IconSections(es)| > old(w.w.cap))
  {
    ghost var out0, cap0, n0 := w.w.out, w.w.cap, w.n;
    var j := 0;
    while j < |es|
      invariant 0 <= j <= |es|
      invariant Offered(w, out0, cap0, n0, IconSections(es[..j]))
      invariant |IconSections(es[..j])| <= cap0
    {
      ghost var outB, capB, nB := w.w.out, w.w.cap, w.n;
      var e := WriteIcon(w, es[j]);
      IconSectionsSnoc(es, j);
      OfferedMore(w, out0, cap0, n0, IconSections(es[..j]), IconSection(es[j]), outB, capB, nB);
      if e {
        IconSectionsPrefix(es, j + 1);
        OfferedPrefix(w, out0, cap0, n0, IconSections(es[..j + 1]), IconSections(es));
        return true;
      }
      j := j + 1;
    }
    assert es[..j] == es;
    return false;
  }

  /** One element of `WriteTo`: "ICON", whose write error is ignored, then the record. */
  method WriteIcon(w: CountWriter, e: PackElem) returns (err: bool)
    modifies w, w.w
    ensures Offered(w, old(w.w.out), old(w.w.cap), old(w.n), IconSection(e))
    ensures err == (|IconSection(e)| > old(w.w.cap))
  {
    ghost var out0, cap0, n0 := w.w.out, w.w.cap, w.n;
    var _, _ := w.Write(IconMagic);
    ghost var outB, capB, nB := w.w.out, w.w.cap, w.n;
    err := WriteElem(w, e);
    OfferedMore(w, out0, cap0, n0, IconMagic, ElemRecord(e), outB, capB, nB);
  }

  // ---------------------------------------------------------------------------
  // Image order

  /** The area `Add` sorts by. */
  function Area(im: ProgImage): int
  {
    im.width * im.height
  }

  /** Larger areas first: an ascending order of the negated area. */
  function AreaKey(im: ProgImage): int
  {
    -Area(im)
  }

  /** `Add`'s reordering of an element's images. */
  function BySize(ims: seq<ProgImage>): seq<ProgImage>
  {
    SortByKey(ims, AreaKey)
  }

  /** The images keep their multiset and come out by non-increasing area. */
  lemma BySizeOrders(ims: seq<ProgImage>)
    ensures multiset(BySize(ims)) == multiset(ims)
    ensures forall i, j :: 0 <= i < j < |BySize(ims)| ==> Area(BySize(ims)[i]) >= Area(BySize(ims)[j])
  {
    SortByKeySorts(ims, AreaKey);
  }

  // ---------------------------------------------------------------------------
  // Palette order

  /** `lessColor`: by red, then green, then blue; alpha is not compared. */
  function LessColor(ci: NRGBA, cj: NRGBA): bool
  {
    if ci.r != cj.r then ci.r < cj.r
    else if ci.g != cj.g then ci.g < cj.g
    else ci.b < cj.b
  }

  /** A colour and the number of times it was seen (`colFreq`). */
  datatype ColFreq = ColFreq(c: NRGBA, n: int)

  /** The comparator `getpalv` sorts with: rarer colours first, then `lessColor`. */
  function FreqLess(a: ColFreq, b: ColFreq): bool
  {
    if a.n - b.n != 0 then a.n - b.n < 0 else LessColor(a.c, b.c)
  }

  /** R, G and B as one 24-bit number. */
  function RgbKey(c: NRGBA): (r: int)
    ensures 0 <= r < 0x100_0000
  {
    c.r * 0x1_0000 + c.g * 0x100 + c.b
  }

  /** The count above the colour: an integer key for `FreqLess`. */
  function FreqKey(x: ColFreq): int
  {
    x.n * 0x100_0000 + RgbKey(x.c)
  }

  /** `lessColor` is the order of the 24-bit RGB numbers. */
  lemma LessColorByKey(a: NRGBA, b: NRGBA)
    ensures LessColor(a, b) <==> RgbKey(a) < RgbKey(b)
  {
  }

  /** `FreqLess` is the order of the keys, so sorting by key sorts by the comparator. */
  lemma FreqLessByKey(a: ColFreq, b: ColFreq)
    ensures FreqLess(a, b) <==> FreqKey(a) < FreqKey(b)
  {
    LessColorByKey(a.c, b.c);
    if a.n < b.n {
      assert a.n * 0x100_0000 + 0x100_0000 <= b.n * 0x100_0000;
    } else if a.n > b.n {
      assert b.n * 0x100_0000 + 0x100_0000 <= a.n * 0x100_0000;
    }
  }

  /** The first loop of the automatic palette: each seen colour outside the project palette, with its count, once. */
  method CollectFreqs(proj: seq<NRGBA>, stats: map<NRGBA, int>) returns (cf: seq<ColFreq>)
    ensures forall k :: 0 <= k < |cf| ==> cf[k].c in stats && cf[k].c !in proj && cf[k].n == stats[cf[k].c]
    ensures forall c :: c in stats && c !in proj ==> ColFreq(c, stats[c]) in cf
    ensures forall x :: multiset(cf)[x] <= 1
  {
    cf := [];
    var rest := stats.Keys;
    while rest != {}
      invariant rest <= stats.Keys
      invariant forall k :: 0 <= k < |cf| ==> cf[k].c in stats && cf[k].c !in proj && cf[k].c !in rest && cf[k].n == stats[cf[k].c]
      invariant forall c :: c in stats && c !in rest && c !in proj ==> ColFreq(c, stats[c]) in cf
      invariant forall x :: multiset(cf)[x] <= 1
      decreases rest
    {
      var c :| c in rest;
      if c !in proj {
        var x := ColFreq(c, stats[c]);
        assert x !in cf;
        cf := cf + [x];
      }
      rest := rest - {c};
    }
  }

  /** No element twice, by position. */
  lemma DistinctByCount<T>(s: seq<T>, i: nat, j: nat)
    requires forall x :: multiset(s)[x] <= 1
    requires i < j < |s|
    ensures s[i] != s[j]
  {
    var a := s[..j];
    assert s == a + [s[j]] + s[j + 1..];
    assert a[i] == s[i];
    assert s[i] in multiset(a);
    assert multiset(s) == multiset(a) + multiset{s[j]} + multiset(s[j + 1..]);
    assert multiset(s)[s[j]] >= multiset(a)[s[j]] + 1;
  }

  /** What the first loop of the automatic palette gathers. */
  ghost predicate FreqsOf(cf: seq<ColFreq>, proj: seq<NRGBA>, stats: map<NRGBA, int>)
  {
    (forall k :: 0 <= k < |cf| ==> cf[k].c in stats && cf[k].c !in proj && cf[k].n == stats[cf[k].c])
    && (forall c :: c in stats && c !in proj ==> ColFreq(c, stats[c]) in cf)
    && (forall x :: multiset(cf)[x] <= 1)
  }

  /** The colours of `sorted`, appended to `proj` (the last loop of `getpalv`). */
  method AppendColors(proj: seq<NRGBA>, sorted: seq<ColFreq>) returns (p0: seq<NRGBA>)
    ensures |p0| == |proj| + |sorted| && p0[..|proj|] == proj
    ensures forall t :: 0 <= t < |sorted| ==> p0[|proj| + t] == sorted[t].c
  {
    p0 := proj;
    var i := 0;
    while i < |sorted|
      invariant 0 <= i <= |sorted|
      invariant |p0| == |proj| + i && p0[..|proj|] == proj
      invariant forall t :: 0 <= t < i ==> p0[|proj| + t] == sorted[t].c
    {
      p0 := p0 + [sorted[i].c];
      i := i + 1;
    }
  }

  /** Sorting keeps what was gathered: the same colours, each once, each with its count. */
  lemma SortedFreqs(cf: seq<ColFreq>, sorted: seq<ColFreq>, proj: seq<NRGBA>, stats: map<NRGBA, int>)
    requires FreqsOf(cf, proj, stats) && multiset(sorted) == multiset(cf)
    ensures FreqsOf(sorted, proj, stats)
  {
    forall k | 0 <= k < |sorted|
      ensures sorted[k].c in stats && sorted[k].c !in proj && sorted[k].n == stats[sorted[k].c]
    {
      assert sorted[k] in multiset(cf);
      var m :| 0 <= m < |cf| && cf[m] == sorted[k];
    }
    forall c | c in stats && c !in proj
      ensures ColFreq(c, stats[c]) in sorted
    {
      assert ColFreq(c, stats[c]) in multiset(cf);
    }
  }

  /**
    `getpalv` with the automatic palette on, before the colour transforms:
    the project palette in order, then every other colour seen, once, by
    ascending count and then `lessColor`.
   */
  method AutoPalette(proj: seq<NRGBA>, stats: map<NRGBA, int>) returns (p0: seq<NRGBA>)
    ensures |p0| >= |proj| && p0[..|proj|] == proj
    ensures forall k :: |proj| <= k < |p0| ==> p0[k] in stats && p0[k] !in proj
    ensures forall c :: c in stats && c !in proj ==> c in p0[|proj|..]
    ensures forall i, j :: |proj| <= i < j < |p0| ==> p0[i] != p0[j]
    ensures forall i, j :: |proj| <= i < j < |p0| ==>
      !FreqLess(ColFreq(p0[j], stats[p0[j]]), ColFreq(p0[i], stats[p0[i]]))
  {
    var cf := CollectFreqs(proj, stats);
    var sorted := SortByKey(cf, FreqKey);
    SortByKeySorts(cf, FreqKey);
    SortedFreqs(cf, sorted, proj, stats);
    p0 := AppendColors(proj, sorted);
    TailMembers(proj, stats, sorted, p0);
    TailOrder(proj, stats, sorted, p0);
  }

  /** The appended tail of the automatic palette holds exactly the gathered colours. */
  lemma TailMembers(proj: seq<NRGBA>, stats: map<NRGBA, int>, sorted: seq<ColFreq>, p0: seq<NRGBA>)
    requires FreqsOf(sorted, proj, stats)
    requires |p0| == |proj| + |sorted| && p0[..|proj|] == proj
    requires forall t :: 0 <= t < |sorted| ==> p0[|proj| + t] == sorted[t].c
    ensures forall k :: |proj| <= k < |p0| ==> p0[k] in stats && p0[k] !in proj
    ensures forall c :: c in stats && c !in proj ==> c in p0[|proj|..]
  {
    forall k | |proj| <= k < |p0|
      ensures p0[k] in stats && p0[k] !in proj
    {
      assert p0[k] == sorted[k - |proj|].c;
    }
    forall c | c in stats && c !in proj
      ensures c in p0[|proj|..]
    {
      var t :| 0 <= t < |sorted| && sorted[t] == ColFreq(c, stats[c]);
      assert p0[|proj|..][t] == p0[|proj| + t];
    }
  }

  /** The appended tail of the automatic palette: each colour once, in the comparator's order. */
  lemma TailOrder(proj: seq<NRGBA>, stats: map<NRGBA, int>, sorted: seq<ColFreq>, p0: seq<NRGBA>)
    requires FreqsOf(sorted, proj, stats) && SortedBy(sorted, FreqKey)
    requires |p0| == |proj| + |sorted|
    requires forall t :: 0 <= t < |sorted| ==> p0[|proj| + t] == sorted[t].c
    ensures forall k :: |proj| <= k < |p0| ==> p0[k] in stats
    ensures forall i, j :: |proj| <= i < j < |p0| ==> p0[i] != p0[j]
    ensures forall i, j :: |proj| <= i < j < |p0| ==>
      !FreqLess(ColFreq(p0[j], stats[p0[j]]), ColFreq(p0[i], stats[p0[i]]))
  {
    forall k | |proj| <= k < |p0|
      ensures p0[k] in stats && sorted[k - |proj|] == ColFreq(p0[k], stats[p0[k]])
    {
      assert p0[k] == sorted[k - |proj|].c;
    }
    forall i, j | |proj| <= i < j < |p0|
      ensures p0[i] != p0[j]
      ensures !FreqLess(ColFreq(p0[j], stats[p0[j]]), ColFreq(p0[i], stats[p0[i]]))
    {
      DistinctByCount(sorted, i - |proj|, j - |proj|);
      FreqLessByKey(sorted[j - |proj|], sorted[i - |proj|]);
    }
  }

  /** One entry of `ColorTransform`: a colour map and the luma inversion switch. */
  datatype ColorTransform = ColorTransform(colorMap: map<NRGBA, NRGBA>, invertYPrime: bool)

  /** The library's `RGBToYCbCr` and `YCbCrToRGB`, which the model does not define. */
  datatype YCbCr = YCbCr(fromRGB: (Byte, Byte, Byte) -> (Byte, Byte, Byte),
                         toRGB: (Byte, Byte, Byte) -> (Byte, Byte, Byte))

  /** What one transform makes of one colour. */
  function TransformColor(tr: ColorTransform, lib: YCbCr, c: NRGBA): NRGBA
  {
    if c in tr.colorMap then tr.colorMap[c]
    else if tr.invertYPrime then
      var (y, cb, cr) := lib.fromRGB(c.r, c.g, c.b);
      var (r, g, b) := lib.toRGB(255 - y, cb, cr);
      Prog.NRGBA(r, g, b, c.a)
    else c
  }

  /** A colour the map does not name keeps its alpha, and keeps everything when the luma is not inverted. */
  lemma TransformKeepsUnmapped(tr: ColorTransform, lib: YCbCr, c: NRGBA)
    requires c !in tr.colorMap
    ensures TransformColor(tr, lib, c).a == c.a
    ensures !tr.invertYPrime ==> TransformColor(tr, lib, c) == c
  {
  }

  /** The inner loop of `applyTransforms`: one transformed palette. */
  method TransformPalette(tr: ColorTransform, lib: YCbCr, p0: seq<NRGBA>) returns (px: seq<NRGBA>)
    ensures |px| == |p0|
    ensures forall i :: 0 <= i < |p0| ==> px[i] == TransformColor(tr, lib, p0[i])
  {
    px := [];
    var i := 0;
    while i < |p0|
      invariant 0 <= i <= |p0| && |px| == i
      invariant forall t :: 0 <= t < i ==> px[t] == TransformColor(tr, lib, p0[t])
    {
      px := px + [TransformColor(tr, lib, p0[i])];
      i := i + 1;
    }
  }

  /**
    `applyTransforms`: the palette itself, then one palette per transform,
    colour for colour, so every palette index names the same slot in all.
   */
  method ApplyTransforms(trs: seq<ColorTransform>, lib: YCbCr, p0: seq<NRGBA>) returns (pv: seq<seq<NRGBA>>)
    ensures |pv| == 1 + |trs| && pv[0] == p0
    ensures forall k :: 0 <= k < |pv| ==> |pv[k]| == |p0|
    ensures forall k, i :: 0 <= k < |trs| && 0 <= i < |p0| ==> pv[k + 1][i] == TransformColor(trs[k], lib, p0[i])
  {
    pv := [p0];
    var k := 0;
    while k < |trs|
      invariant 0 <= k <= |trs| && |pv| == 1 + k && pv[0] == p0
      invariant forall t :: 0 <= t < |pv| ==> |pv[t]| == |p0|
      invariant forall t, i :: 0 <= t < k && 0 <= i < |p0| ==> pv[t + 1][i] == TransformColor(trs[t], lib, p0[i])
    {
      var px := TransformPalette(trs[k], lib, p0);
      pv := pv + [px];
      k := k + 1;
    }
  }

  /**
    `getpalv`, with the project's palette, its automatic-palette switch and
    its colour transforms as parameters.
   */
  method PaletteVariants(proj: seq<NRGBA>, auto: bool, stats: map<NRGBA, int>, trs: seq<ColorTransform>, lib: YCbCr)
    returns (pv: seq<seq<NRGBA>>)
    ensures |pv| == 1 + |trs| && |pv[0]| >= |proj| && pv[0][..|proj|] == proj
    ensures !auto ==> pv[0] == proj
    ensures auto ==> forall c :: c in pv[0][|proj|..] <==> c in stats && c !in proj
    ensures forall k :: 0 <= k < |pv| ==> |pv[k]| == |pv[0]|
  {
    var p0 := proj;
    if auto {
      p0 := AutoPalette(proj, stats);
      forall c | c in p0[|proj|..]
        ensures c in stats && c !in proj
      {
        var t :| 0 <= t < |p0[|proj|..]| && p0[|proj|..][t] == c;
        assert p0[|proj| + t] == c;
      }
    } else {
      assert proj[..|proj|] == proj;
    }
    pv := ApplyTransforms(trs, lib, p0);
  }

  // ---------------------------------------------------------------------------
  // Identifiers and string literals for generated source

  /** `isidstart`: an ASCII letter or '_'. */
  predicate IsIdStart(c: Byte)
  {
    ('a' as int <= c <= 'z' as int) || ('A' as int <= c <= 'Z' as int) || c == '_' as int
  }

  /** `isidrune`: a rune above 256, or one whose low byte is a letter, '_' or a digit. */
  predicate IsIdRune(r: char)
  {
    r as int > 256 || (var c := ToByte(r as int); IsIdStart(c) || ('0' as int <= c <= '9' as int))
  }

  /**
    `isidstart` of a name's first byte, given its first rune: a rune at or
    above 0x80 is encoded with a first byte at or above 0x80, never a letter
    or '_'.
   */
  predicate StartsId(r: char)
  {
    r as int < 0x80 && IsIdStart(r as int)
  }

  /** What `makeid` writes for one rune. */
  function IdPiece(r: char): string
  {
    if IsIdRune(r) then [r] else "_"
  }

  /** `makeid`: the identifier for `name`, under `prefix`. */
  function MakeIdOf(prefix: string, name: string): string
  {
    if |name| == 0 then (if |prefix| != 0 then prefix else "empty")
    else (if |prefix| != 0 then prefix else if StartsId(name[0]) then "" else "_") + Flat(IdPiece, name)
  }

  /** `makeid` as the source writes it, rune by rune into a builder. */
  method MakeId(prefix: string, name: string) returns (id: string)
    ensures id == MakeIdOf(prefix, name)
  {
    if |name| == 0 {
      if |prefix| != 0 {
        return prefix;
      }
      return "empty";
    }
    id := "";
    if |prefix| != 0 {
      id := prefix;
    } else if !StartsId(name[0]) {
      id := "_";
    }
    ghost var head := id;
    var i := 0;
    while i < |name|
      invariant 0 <= i <= |name|
      invariant id == head + Flat(IdPiece, name[..i])
    {
      assert name[..i + 1][..i] == name[..i];
      ConcatAssoc(head, Flat(IdPiece, name[..i]), IdPiece(name[i]));
      if IsIdRune(name[i]) {
        id := id + [name[i]];
      } else {
        id := id + "_";
      }
      i := i + 1;
    }
    assert name[..i] == name;
  }

  /** Replacing the non-identifier runes keeps the length and leaves only identifier runes. */
  lemma {:induction false} IdPiecesAreId(s: string)
    ensures |Flat(IdPiece, s)| == |s|
    ensures forall i :: 0 <= i < |s| ==> IsIdRune(Flat(IdPiece, s)[i])
    decreases |s|
  {
    if |s| > 0 {
      var init := s[..|s| - 1];
      IdPiecesAreId(init);
      assert s == init + [s[|s| - 1]];
      forall i | 0 <= i < |s|
        ensures IsIdRune(Flat(IdPiece, s)[i])
      {
        if i < |init| {
          assert Flat(IdPiece, s)[i] == Flat(IdPiece, init)[i];
        }
      }
    }
  }

  /** A string of identifier runes is left as it is. */
  lemma {:induction false} IdPiecesKeepId(s: string)
    requires forall i :: 0 <= i < |s| ==> IsIdRune(s[i])
    ensures Flat(IdPiece, s) == s
    decreases |s|
  {
    if |s| > 0 {
      IdPiecesKeepId(s[..|s| - 1]);
      assert s == s[..|s| - 1] + [s[|s| - 1]];
    }
  }

  /**
    Without a prefix, `makeid` of a non-empty name is an identifier: it
    starts with a letter or '_' and continues with identifier runes.
   */
  lemma MakeIdIsIdentifier(name: string)
    requires |name| > 0
    ensures var id := MakeIdOf("", name);
      |id| > 0 && StartsId(id[0]) && (forall i :: 0 <= i < |id| ==> IsIdRune(id[i]))
  {
    IdPiecesAreId(name);
    FlatFront(IdPiece, name);
    var id := MakeIdOf("", name);
    if !StartsId(name[0]) {
      assert id == "_" + Flat(IdPiece, name);
    } else {
      assert IsIdRune(name[0]);
      assert id[0] == name[0];
    }
  }

  /** A name that already is an identifier comes back unchanged, so `makeid` is idempotent. */
  lemma MakeIdIdempotent(name: string)
    requires |name| > 0
    ensures StartsId(name[0]) && (forall i :: 0 <= i < |name| ==> IsIdRune(name[i])) ==> MakeIdOf("", name) == name
    ensures MakeIdOf("", MakeIdOf("", name)) == MakeIdOf("", name)
  {
    var id := MakeIdOf("", name);
    MakeIdIsIdentifier(name);
    IdPiecesKeepId(id);
    if StartsId(name[0]) && (forall i :: 0 <= i < |name| ==> IsIdRune(name[i])) {
      IdPiecesKeepId(name);
    }
  }

  /** A rune `quoted` writes as a numeric escape. */
  predicate IsControl(r: char)
  {
    r as int < 32 || (127 <= r as int < 160)
  }

  function Digit(d: nat): char
    requires d < 10
  {
    ('0' as int + d) as char
  }

  /** `n` in decimal. */
  function Decimal(n: nat): string
    decreases n
  {
    if n < 10 then [Digit(n)] else Decimal(n / 10) + [Digit(n % 10)]
  }

  /** Go's `%02d`: at least two decimal digits. */
  function Pad2(n: nat): string
  {
    if n < 10 then ['0', Digit(n)] else Decimal(n)
  }

  /** What `quoted` writes for one rune. */
  function Escape(r: char): string
  {
    if IsControl(r) then "\\x" + Pad2(r as int)
    else if r == '"' then "\\\""
    else if r == '\\' then "\\\\"
    else [r]
  }

  /** `quoted`: the string in double quotes, with escapes. */
  function Quoted(s: string): string
  {
    "\"" + Flat(Escape, s) + "\""
  }

  /** `quoted` as the source writes it, rune by rune into a builder. */
  method Quote(s: string) returns (q: string)
    ensures q == Quoted(s)
  {
    q := "\"";
    var i := 0;
    while i < |s|
      invariant 0 <= i <= |s|
      invariant q == "\"" + Flat(Escape, s[..i])
    {
      assert s[..i + 1][..i] == s[..i];
      ConcatAssoc("\"", Flat(Escape, s[..i]), Escape(s[i]));
      var r := s[i];
      var piece;
      if IsControl(r) {
        piece := "\\x" + Pad2(r as int);
      } else if r == '"' {
        piece := "\\\"";
      } else if r == '\\' {
        piece := "\\\\";
      } else {
        piece := [r];
      }
      q := q + piece;
      i := i + 1;
    }
    assert s[..i] == s;
    q := q + "\"";
  }

  /**
    The escape writes decimal digits behind `\x`, and a rune from 100 on
    takes three of them: rune 12 followed by '7' and the single rune 127
    are quoted alike.
   */
  lemma QuotedCollides()
    ensures [12 as char, '7'] != [127 as char]
    ensures Quoted([12 as char, '7']) == Quoted([127 as char])
  {
    assert Flat(Escape, [12 as char, '7']) == Flat(Escape, [12 as char]) + Escape('7');
    assert [12 as char, '7'][..1] == [12 as char];
    assert Flat(Escape, [12 as char]) == Escape(12 as char);
    assert Flat(Escape, [127 as char]) == Escape(127 as char);
  }

  function HexDigit(d: nat): char
    requires d < 16
  {
    if d < 10 then Digit(d) else ('a' as int + d - 10) as char
  }

  /** `quoted`'s escape as intended: two hexadecimal digits, which every escaped rune fits. */
  function EscapeHex(r: char): string
  {
    if IsControl(r) then "\\x" + [HexDigit(r as int / 16), HexDigit(r as int % 16)]
    else if r == '"' then "\\\""
    else if r == '\\' then "\\\\"
    else [r]
  }

  /** `quoted` with hexadecimal escapes. */
  function QuotedHex(s: string): string
  {
    "\"" + Flat(EscapeHex, s) + "\""
  }

  /** The value of a lower-case hexadecimal digit. */
  function HexValue(c: char): Option<nat>
  {
    if '0' <= c <= '9' then Some(c as int - '0' as int)
    else if 'a' <= c <= 'f' then Some(c as int - 'a' as int + 10)
    else None
  }

  function Prepend(c: char, o: Option<string>): Option<string>
  {
    if o.Some? then Some([c] + o.value) else None
  }

  /** Reads the inside of a quoted literal: `\xHH`, `\"` and `\\` escapes, and no bare '"'. */
  function Unescape(t: string): Option<string>
    decreases |t|
  {
    if |t| == 0 then Some([])
    else if t[0] == '\\' then
      if |t| >= 4 && t[1] == 'x' && HexValue(t[2]).Some? && HexValue(t[3]).Some? && HexValue(t[2]).value < 16 && HexValue(t[3]).value < 16 then
        Prepend((HexValue(t[2]).value * 16 + HexValue(t[3]).value) as char, Unescape(t[4..]))
      else if |t| >= 2 && (t[1] == '"' || t[1] == '\\') then Prepend(t[1], Unescape(t[2..]))
      else None
    else if t[0] == '"' then None
    else Prepend(t[0], Unescape(t[1..]))
  }

  /** Reads a whole quoted literal. */
  function Unquote(q: string): Option<string>
  {
    if |q| >= 2 && q[0] == '"' && q[|q| - 1] == '"' then Unescape(q[1..|q| - 1]) else None
  }

  lemma HexDigitValue(d: nat)
    requires d < 16
    ensures HexValue(HexDigit(d)) == Some(d)
  {
  }

  /** One escaped rune reads back as that rune, whatever follows. */
  lemma UnescapeEscapeHex(c: char, t: string)
    ensures Unescape(EscapeHex(c) + t) == Prepend(c, Unescape(t))
  {
    var e := EscapeHex(c) + t;
    if IsControl(c) {
      var n := c as int;
      HexDigitValue(n / 16);
      HexDigitValue(n % 16);
      assert e[4..] == t;
    } else if c == '"' || c == '\\' {
      assert e[2..] == t;
    } else {
      assert e[1..] == t;
    }
  }

  lemma {:induction false} UnescapeFlat(s: string)
    ensures Unescape(Flat(EscapeHex, s)) == Some(s)
    decreases |s|
  {
    if |s| > 0 {
      FlatFront(EscapeHex, s);
      UnescapeFlat(s[1..]);
      UnescapeEscapeHex(s[0], Flat(EscapeHex, s[1..]));
      assert [s[0]] + s[1..] == s;
    }
  }

  /** With hexadecimal escapes, every string reads back from its literal. */
  lemma UnquoteQuotedHex(s: string)
    ensures Unquote(QuotedHex(s)) == Some(s)
  {
    var q := QuotedHex(s);
    assert q[1..|q| - 1] == Flat(EscapeHex, s);
    UnescapeFlat(s);
  }

  /** The two escapes differ only on runes written as numbers. */
  lemma {:induction false} QuotedAgreesWithoutControls(s: string)
    requires forall i :: 0 <= i < |s| ==> !IsControl(s[i])
    ensures Quoted(s) == QuotedHex(s)
    ensures Unquote(Quoted(s)) == Some(s)
    decreases |s|
  {
    if |s| > 0 {
      QuotedAgreesWithoutControls(s[..|s| - 1]);
      assert Flat(Escape, s) == Flat(Escape, s[..|s| - 1]) + Escape(s[|s| - 1]);
    }
    UnquoteQuotedHex(s);
  }
}
