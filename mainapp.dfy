/**
  The demo window of gdiplusdemo/main.cpp: the integer luma and the grey
  colorizer the engine applies to every brush, the keyboard state machine
  over the window's indices and flags, and what `OnPaint` asks the engine
  to draw.

  Win32 (the message loop, the device context, `InvalidateRect`) is not
  modelled; `Invalidate` is a flag, and `OnPaint` returns the background and
  the icon draws it requests instead of issuing them.
 */
module MainApp {
  import opened Base
  import IconPack
  import GdiPlusIcon

  // ---------------------------------------------------------------------------
  // Luma and the grey colorizer

  /** `truncb`: clamps to a byte. */
  function Truncb(n: int): (b: Byte)
    ensures 0 <= n <= 255 ==> b == n
    ensures n < 0 ==> b == 0
    ensures 255 < n ==> b == 255
  {
    if n < 0 then 0 else if 255 < n then 255 else n
  }

  /** The weights of `gray`, in 1/65536: 0.299, 0.587 and 0.114 of ITU-R BT.601. */
  const WeightR := 19595
  const WeightG := 38470
  const WeightB := 7471

  /** The weighted sum before the shift. */
  function LumaSum(r: Byte, g: Byte, b: Byte): int
  {
    r * WeightR + g * WeightG + b * WeightB
  }

  /** `gray`: `(sum) >> 16` of a non-negative sum is the quotient by 65536. */
  function Gray(r: Byte, g: Byte, b: Byte): Byte
  {
    Truncb(LumaSum(r, g, b) / 0x1_0000)
  }

  function Min3(a: int, b: int, c: int): int
  {
    if a <= b && a <= c then a else if b <= c then b else c
  }

  function Max3(a: int, b: int, c: int): int
  {
    if a >= b && a >= c then a else if b >= c then b else c
  }

  /** The weighted sum lies between the smallest and the largest channel times 65536, the sum of the weights. */
  lemma LumaSumBetween(r: Byte, g: Byte, b: Byte)
    ensures Min3(r, g, b) * 0x1_0000 <= LumaSum(r, g, b) <= Max3(r, g, b) * 0x1_0000
  {
    var m, mx := Min3(r, g, b), Max3(r, g, b);
    assert WeightR + WeightG + WeightB == 0x1_0000;
    assert r * WeightR >= m * WeightR && g * WeightG >= m * WeightG && b * WeightB >= m * WeightB;
    assert r * WeightR <= mx * WeightR && g * WeightG <= mx * WeightG && b * WeightB <= mx * WeightB;
  }

  lemma DivBetween(s: int, lo: int, hi: int)
    requires 0 <= lo && lo * 0x1_0000 <= s <= hi * 0x1_0000
    ensures lo <= s / 0x1_0000 <= hi
  {
  }

  /**
    `gray` is a weighted mean: it lies between the smallest and the largest
    channel, so the clamp in `truncb` never acts, and a grey pixel keeps its
    value.
   */
  lemma GrayBetween(r: Byte, g: Byte, b: Byte)
    ensures Min3(r, g, b) <= Gray(r, g, b) <= Max3(r, g, b)
    ensures Gray(r, g, b) == LumaSum(r, g, b) / 0x1_0000
    ensures r == g == b ==> Gray(r, g, b) == r
  {
    LumaSumBetween(r, g, b);
    DivBetween(LumaSum(r, g, b), Min3(r, g, b), Max3(r, g, b));
  }

  /** `ColorizerIconEngine::Colorize`: in grey mode every channel becomes 128 + y/4 (light) or 64 + y/4 (dark). */
  function Colorize(grayMode: bool, darkMode: bool, r: Byte, g: Byte, b: Byte): (Byte, Byte, Byte)
  {
    if !grayMode then (r, g, b)
    else
      var y := Gray(r, g, b);
      var v := if !darkMode then 128 + y / 4 else 64 + y / 4;
      (v, v, v)
  }

  /**
    Outside grey mode the colour is untouched; in grey mode the three
    channels are equal, in [128, 191] on a light background and in [64, 127]
    on a dark one, and the light shade is the dark one plus 64.
   */
  lemma ColorizeRange(grayMode: bool, darkMode: bool, r: Byte, g: Byte, b: Byte)
    ensures !grayMode ==> Colorize(grayMode, darkMode, r, g, b) == (r, g, b)
    ensures grayMode ==>
      var c := Colorize(grayMode, darkMode, r, g, b);
      c.0 == c.1 == c.2
      && (if darkMode then 64 <= c.0 <= 127 else 128 <= c.0 <= 191)
      && Colorize(true, false, r, g, b).0 == Colorize(true, true, r, g, b).0 + 64
  {
  }

  /** Grey mode keeps the order of luma: a lighter colour never gets a darker shade. */
  lemma ColorizeMonotone(darkMode: bool, r1: Byte, g1: Byte, b1: Byte, r2: Byte, g2: Byte, b2: Byte)
    requires LumaSum(r1, g1, b1) <= LumaSum(r2, g2, b2)
    ensures Colorize(true, darkMode, r1, g1, b1).0 <= Colorize(true, darkMode, r2, g2, b2).0
  {
    GrayBetween(r1, g1, b1);
    GrayBetween(r2, g2, b2);
  }

  /** The hook the engine calls in `SetSolidFill`. */
  function ColorizerOf(grayMode: bool, darkMode: bool): GdiPlusIcon.Colorizer
  {
    (r: Byte, g: Byte, b: Byte) => Colorize(grayMode, darkMode, r, g, b)
  }

  /** In grey mode every brush the engine sets is a grey of the mode's range, with the alpha it was given. */
  lemma GreyBrush(s: GdiPlusIcon.State, darkMode: bool, r: Byte, g: Byte, b: Byte, a: Byte)
    ensures var c := GdiPlusIcon.Filled(s, ColorizerOf(true, darkMode), r, g, b, a).brush;
      c.a == a && c.r == c.g == c.b
      && (if darkMode then 64 <= c.r <= 127 else 128 <= c.r <= 191)
  {
    ColorizeRange(true, darkMode, r, g, b);
  }

  /** `ColorizerIconEngine`: the GDI+ engine with the colour modes. */
  class ColorizerIconEngine {
    var engine: GdiPlusIcon.Engine
    var darkMode: bool
    var grayMode: bool
    var colorMode: int

    constructor ()
      ensures fresh(engine) && !darkMode && !grayMode && colorMode == 0
    {
      engine := new GdiPlusIcon.Engine();
      darkMode, grayMode, colorMode := false, false, 0;
    }

    /** The mode keys of `Window::OnKeyDown`: 'Q' toggles grey, 'E' dark, 'R' steps the colour mode. */
    method ModeKey(w: int)
      modifies this
      ensures engine == old(engine)
      ensures grayMode == (if w == 'Q' as int then !old(grayMode) else old(grayMode))
      ensures darkMode == (if w == 'E' as int then !old(darkMode) else old(darkMode))
      ensures colorMode == (if w == 'R' as int then (old(colorMode) + 1) % 3 else old(colorMode))
    {
      if w == 'Q' as int {
        grayMode := !grayMode;
      } else if w == 'E' as int {
        darkMode := !darkMode;
      } else if w == 'R' as int {
        colorMode := (colorMode + 1) % 3;
      }
    }

    /** The `Colorize` override, as the hook the base engine calls. */
    function Colorizer(): GdiPlusIcon.Colorizer
      reads this
    {
      ColorizerOf(grayMode, darkMode)
    }
  }

  // ---------------------------------------------------------------------------
  // Keys

  /** `Window::paintSizes`. */
  const PaintSizes: seq<int> := [16, 20, 24, 28, 32, 48, 64, 128]

  /** `size_t` is 64 bits wide on the target. */
  const SizeTModulus := 0x1_0000_0000_0000_0000

  function ToSizeT(x: int): int
  {
    x % SizeTModulus
  }

  /** The window and engine fields the keys change. */
  datatype Ui = Ui(
    paintSizeIdx: nat,
    debugPathIdx: int,
    singleIconIdx: int,
    brushPattern: bool,
    direct: bool,
    grayMode: bool,
    darkMode: bool,
    colorMode: int,
    invalidated: bool)

  /**
    The ranges the indices keep: a valid size, a non-negative path, an icon
    in 0 (all) ..= pack size, a colour mode below 3; the pack size is an
    `int` (the 'A' key converts it to one).
   */
  predicate InRange(u: Ui, packSize: nat)
  {
    u.paintSizeIdx < |PaintSizes| && 0 <= u.debugPathIdx
    && 0 <= u.singleIconIdx <= packSize < 0x8000_0000 && 0 <= u.colorMode < 3
  }

  /** 'I': `paintSizeIdx--` on a `size_t`, wrapping below 0, then back to the last size when out of range. */
  function SizeDown(i: nat): (r: nat)
    ensures i < |PaintSizes| ==> r == if i == 0 then |PaintSizes| - 1 else i - 1
  {
    var d := ToSizeT(i - 1);
    if d >= |PaintSizes| then |PaintSizes| - 1 else d
  }

  /** 'K': `paintSizeIdx++`, then back to the first size when out of range. */
  function SizeUp(i: nat): (r: nat)
    ensures i < |PaintSizes| ==> r == if i == |PaintSizes| - 1 then 0 else i + 1
  {
    var d := ToSizeT(i + 1);
    if d >= |PaintSizes| then 0 else d
  }

  /** 'A': `singleIconIdx--`, then round to the pack size below 0. */
  function IconDown(s: int, packSize: nat): (r: int)
    ensures 0 <= s <= packSize ==> r == if s == 0 then packSize else s - 1
  {
    var t := s - 1;
    if t < 0 then packSize else t
  }

  /** 'D': `singleIconIdx++`, compared with the pack size as a `size_t`, then round to 0 past it. */
  function IconUp(s: int, packSize: nat): (r: int)
    ensures 0 <= s <= packSize < SizeTModulus - 1 ==> r == if s == packSize then 0 else s + 1
  {
    var t := s + 1;
    if ToSizeT(t) > packSize then 0 else t
  }

  /**
    `Window::OnKeyDown` for the virtual-key code `w`, field by field: each
    field changes under its own keys only, and every key, known or not,
    invalidates the window.
   */
  function KeyDown(u: Ui, packSize: nat, w: int): Ui
  {
    Ui(
      if w == 'I' as int then SizeDown(u.paintSizeIdx)
      else if w == 'K' as int then SizeUp(u.paintSizeIdx)
      else u.paintSizeIdx,
      if w == 'W' as int && u.debugPathIdx != 0 then u.debugPathIdx - 1
      else if w == 'S' as int then u.debugPathIdx + 1
      else u.debugPathIdx,
      if w == 'A' as int then IconDown(u.singleIconIdx, packSize)
      else if w == 'D' as int then IconUp(u.singleIconIdx, packSize)
      else u.singleIconIdx,
      if w == 'B' as int then !u.brushPattern else u.brushPattern,
      if w == 'X' as int then !u.direct else u.direct,
      if w == 'Q' as int then !u.grayMode else u.grayMode,
      if w == 'E' as int then !u.darkMode else u.darkMode,
      if w == 'R' as int then (u.colorMode + 1) % 3 else u.colorMode,
      true)
  }

  /** Every key keeps the indices in range. */
  lemma KeyDownValid(u: Ui, packSize: nat, w: int)
    requires InRange(u, packSize)
    ensures InRange(KeyDown(u, packSize, w), packSize)
  {
  }

  /** 'K' and 'I' step the paint size forwards and backwards around the eight sizes. */
  lemma SizeKeysCycle(u: Ui, packSize: nat)
    requires InRange(u, packSize)
    ensures KeyDown(u, packSize, 'K' as int).paintSizeIdx == (u.paintSizeIdx + 1) % |PaintSizes|
    ensures KeyDown(u, packSize, 'I' as int).paintSizeIdx == (u.paintSizeIdx + |PaintSizes| - 1) % |PaintSizes|
  {
  }

  lemma ModSmall(a: int, m: int)
    requires 0 <= a < m
    ensures a % m == a
  {
  }

  lemma ModSelf(m: int)
    requires 0 < m
    ensures m % m == 0
  {
  }

  lemma ModWrap(a: int, m: int)
    requires 0 <= a < m
    ensures (a + m) % m == a
  {
  }

  /** 'D' and 'A' step the single icon forwards and backwards around 0 ..= pack size, 0 showing all icons. */
  lemma IconKeysCycle(u: Ui, packSize: nat)
    requires InRange(u, packSize)
    ensures KeyDown(u, packSize, 'D' as int).singleIconIdx == (u.singleIconIdx + 1) % (packSize + 1)
    ensures KeyDown(u, packSize, 'A' as int).singleIconIdx == (u.singleIconIdx + packSize) % (packSize + 1)
  {
    var s, m := u.singleIconIdx, packSize + 1;
    if s == packSize {
      ModSelf(m);
    } else {
      ModSmall(s + 1, m);
    }
    if s == 0 {
      ModSmall(packSize, m);
    } else {
      ModWrap(s - 1, m);
    }
  }

  /** 'S' then 'W' comes back to the same path; 'W' never goes below 0. */
  lemma DebugKeys(u: Ui, packSize: nat)
    requires InRange(u, packSize)
    ensures KeyDown(KeyDown(u, packSize, 'S' as int), packSize, 'W' as int).debugPathIdx == u.debugPathIdx
    ensures KeyDown(u, packSize, 'W' as int).debugPathIdx == if u.debugPathIdx == 0 then 0 else u.debugPathIdx - 1
  {
  }

  /** A key changes at most one field besides the invalidation; keys with no binding change nothing else. */
  lemma KeyChangesOneField(u: Ui, packSize: nat, w: int)
    ensures var v := KeyDown(u, packSize, w);
      v.invalidated
      && (v.paintSizeIdx != u.paintSizeIdx ==> w == 'I' as int || w == 'K' as int)
      && (v.debugPathIdx != u.debugPathIdx ==> w == 'W' as int || w == 'S' as int)
      && (v.singleIconIdx != u.singleIconIdx ==> w == 'A' as int || w == 'D' as int)
      && (v.brushPattern != u.brushPattern <==> w == 'B' as int)
      && (v.direct != u.direct <==> w == 'X' as int)
      && (v.grayMode != u.grayMode <==> w == 'Q' as int)
      && (v.darkMode != u.darkMode <==> w == 'E' as int)
      && (v.colorMode != u.colorMode ==> w == 'R' as int)
  {
  }

  /** 'R' cycles the colour mode 0, 1, 2, 0. */
  lemma ColorModeCycles(u: Ui, packSize: nat)
    requires InRange(u, packSize)
    ensures var r := 'R' as int;
      KeyDown(KeyDown(KeyDown(u, packSize, r), packSize, r), packSize, r).colorMode == u.colorMode
      && KeyDown(u, packSize, r).colorMode != u.colorMode
  {
  }

  // ---------------------------------------------------------------------------
  // Painting

  datatype Rgb = Rgb(r: Byte, g: Byte, b: Byte)

  /** The background fill: a hatch over the background colour, or the colour alone. */
  datatype Background = Hatched(bk: Rgb) | Solid(bk: Rgb)

  datatype Rect = Rect(left: int, top: int, right: int, bottom: int)

  /** A `DrawIconEx` call: where, which icon of the pack, which palette, and whether directly. */
  datatype Draw = Draw(rect: Rect, icon: nat, palidx: nat, direct: bool)

  const Pad := 8

  /** `ColorizerIconEngine::lightbk` and `darkbk`. */
  const LightBk := Rgb(192, 192, 192)
  const DarkBk := Rgb(64, 64, 64)

  /** The palette `OnPaint` draws with: the second one on a dark background. */
  function PalIdx(darkMode: bool): (p: nat)
    ensures p == 1 <==> darkMode
    ensures p < 2
  {
    if darkMode then 1 else 0
  }

  function BackgroundOf(u: Ui): Background
  {
    var bk := if u.darkMode then DarkBk else LightBk;
    if u.brushPattern then Hatched(bk) else Solid(bk)
  }

  /** The square of side `size` at (x, y). */
  function Square(x: int, y: int, size: int): Rect
  {
    Rect(x, y, x + size, y + size)
  }

  /**
    The icons from `k` on, laid out row by row from (x, y): each is drawn,
    the pen moves right by size + pad; when the next one would not fit in the
    width it starts a new row, and the layout stops once a new row starts
    below the height.
   */
  function Layout(k: nat, n: nat, x: int, y: int, size: int, dx: int, dy: int, pal: nat, direct: bool): seq<Draw>
    decreases n - k
  {
    if k >= n then []
    else
      var d := Draw(Square(x, y, size), k, pal, direct);
      var x1 := x + size + Pad;
      if x1 + size > dx then
        var y1 := y + size + Pad;
        if y1 > dy then [d] else [d] + Layout(k + 1, n, Pad, y1, size, dx, dy, pal, direct)
      else [d] + Layout(k + 1, n, x1, y, size, dx, dy, pal, direct)
  }

  /** The icons are drawn in pack order from `k`, each at most once, as squares of the paint size with the same palette. */
  lemma {:induction false} LayoutInOrder(k: nat, n: nat, x: int, y: int, size: int, dx: int, dy: int, pal: nat, direct: bool)
    requires k <= n
    ensures var l := Layout(k, n, x, y, size, dx, dy, pal, direct);
      |l| <= n - k
      && forall j :: 0 <= j < |l| ==>
        l[j].icon == k + j && l[j].palidx == pal && l[j].direct == direct
        && l[j].rect.right - l[j].rect.left == size && l[j].rect.bottom - l[j].rect.top == size
    decreases n - k
  {
    if k < n {
      var l := Layout(k, n, x, y, size, dx, dy, pal, direct);
      var x1, y1 := x + size + Pad, y + size + Pad;
      var rest := if x1 + size > dx then Layout(k + 1, n, Pad, y1, size, dx, dy, pal, direct)
        else Layout(k + 1, n, x1, y, size, dx, dy, pal, direct);
      if x1 + size > dx {
        LayoutInOrder(k + 1, n, Pad, y1, size, dx, dy, pal, direct);
      } else {
        LayoutInOrder(k + 1, n, x1, y, size, dx, dy, pal, direct);
      }
      assert l == [l[0]] + rest || l == [l[0]];
    }
  }

  /**
    Each icon either follows the previous one on its row, size + pad to the
    right, or starts the next row at the left margin, size + pad lower; so
    no two icons overlap.
   */
  lemma {:induction false} LayoutSteps(k: nat, n: nat, x: int, y: int, size: int, dx: int, dy: int, pal: nat, direct: bool)
    ensures var l := Layout(k, n, x, y, size, dx, dy, pal, direct);
      (|l| > 0 ==> l[0].rect.left == x && l[0].rect.top == y)
      && forall j :: 0 < j < |l| ==>
        (l[j].rect.top == l[j - 1].rect.top && l[j].rect.left == l[j - 1].rect.left + size + Pad)
        || (l[j].rect.left == Pad && l[j].rect.top == l[j - 1].rect.top + size + Pad)
    decreases n - k
  {
    if k < n {
      var x1 := x + size + Pad;
      if x1 + size > dx {
        LayoutSteps(k + 1, n, Pad, y + size + Pad, size, dx, dy, pal, direct);
      } else {
        LayoutSteps(k + 1, n, x1, y, size, dx, dy, pal, direct);
      }
    }
  }

  /** Every icon that does not start a row ends inside the width `dx`; every row after the first (at `y`) starts inside the height `dy`. */
  predicate Fits(l: seq<Draw>, y: int, dx: int, dy: int)
  {
    forall j :: 0 <= j < |l| ==>
      (l[j].rect.left == Pad || l[j].rect.right <= dx) && (l[j].rect.top == y || l[j].rect.top <= dy)
  }

  /** The layout never draws past the right edge except for an icon alone on its row, nor starts a row below the bottom edge. */
  lemma {:induction false} LayoutFits(k: nat, n: nat, x: int, y: int, size: int, dx: int, dy: int, pal: nat, direct: bool)
    requires x == Pad || x + size <= dx
    ensures Fits(Layout(k, n, x, y, size, dx, dy, pal, direct), y, dx, dy)
    decreases n - k
  {
    if k < n {
      var l := Layout(k, n, x, y, size, dx, dy, pal, direct);
      var x1, y1 := x + size + Pad, y + size + Pad;
      if x1 + size > dx {
        if y1 <= dy {
          var rest := Layout(k + 1, n, Pad, y1, size, dx, dy, pal, direct);
          LayoutFits(k + 1, n, Pad, y1, size, dx, dy, pal, direct);
          assert l == [l[0]] + rest;
          assert forall j :: 0 < j < |l| ==> l[j] == rest[j - 1];
        }
      } else {
        var rest := Layout(k + 1, n, x1, y, size, dx, dy, pal, direct);
        LayoutFits(k + 1, n, x1, y, size, dx, dy, pal, direct);
        assert l == [l[0]] + rest;
        assert forall j :: 0 < j < |l| ==> l[j] == rest[j - 1];
      }
    }
  }

  /** `OnPaint`'s requests: one icon when a single one is chosen, otherwise the whole pack laid out from (pad, pad). */
  function Paint(u: Ui, packSize: nat, dx: int, dy: int): (Background, seq<Draw>)
    requires InRange(u, packSize)
  {
    var size := PaintSizes[u.paintSizeIdx];
    var pal := PalIdx(u.darkMode);
    var i := u.singleIconIdx - 1;
    if i >= 0 then (BackgroundOf(u), [Draw(Square(Pad, Pad, size), i, pal, u.direct)])
    else (BackgroundOf(u), Layout(0, packSize, Pad, Pad, size, dx, dy, pal, u.direct))
  }

  /**
    What `OnPaint` draws: the background of the mode, then only icons of the
    pack, with palette 1 exactly in dark mode, at one of the eight sizes; a
    chosen single icon is drawn alone at the margin.
   */
  lemma PaintMeaning(u: Ui, packSize: nat, dx: int, dy: int)
    requires InRange(u, packSize)
    ensures var (bk, draws) := Paint(u, packSize, dx, dy);
      bk.bk == (if u.darkMode then DarkBk else LightBk)
      && (bk.Hatched? <==> u.brushPattern)
      && (u.singleIconIdx > 0 ==> |draws| == 1 && draws[0].icon == u.singleIconIdx - 1 && draws[0].rect.left == Pad)
      && forall j :: 0 <= j < |draws| ==>
        draws[j].icon < packSize && (draws[j].palidx == 1 <==> u.darkMode) && draws[j].direct == u.direct
        && draws[j].rect.right - draws[j].rect.left == PaintSizes[u.paintSizeIdx]
  {
    if u.singleIconIdx == 0 {
      LayoutInOrder(0, packSize, Pad, Pad, PaintSizes[u.paintSizeIdx], dx, dy, PalIdx(u.darkMode), u.direct);
    }
  }

  lemma AppendAssoc<T>(a: seq<T>, b: seq<T>, c: seq<T>)
    ensures a + (b + c) == (a + b) + c
  {
  }

  /** The loop of `OnPaint` over the whole pack, with the pen at (x, y). */
  method LayoutLoop(n: nat, size: int, dx: int, dy: int, pal: nat, direct: bool) returns (draws: seq<Draw>)
    ensures draws == Layout(0, n, Pad, Pad, size, dx, dy, pal, direct)
  {
    var x, y := Pad, Pad;
    draws := [];
    var k := 0;
    while k < n
      invariant k <= n
      invariant draws + Layout(k, n, x, y, size, dx, dy, pal, direct) == Layout(0, n, Pad, Pad, size, dx, dy, pal, direct)
    {
      ghost var before, x0, y0 := draws, x, y;
      var d := Draw(Square(x, y, size), k, pal, direct);
      draws := draws + [d];
      x := x + size + Pad;
      if x + size > dx {
        x := Pad;
        y := y + size + Pad;
        if y > dy {
          assert Layout(k, n, x0, y0, size, dx, dy, pal, direct) == [d];
          return;
        }
      }
      ghost var rest := Layout(k + 1, n, x, y, size, dx, dy, pal, direct);
      assert Layout(k, n, x0, y0, size, dx, dy, pal, direct) == [d] + rest;
      AppendAssoc(before, [d], rest);
      k := k + 1;
    }
  }

  /** The demo window. */
  class Window {
    var eng: ColorizerIconEngine
    var pack: seq<IconPack.IconData>
    var paintSizeIdx: nat
    var debugPathIdx: int
    var singleIconIdx: int
    var brushPattern: bool
    var direct: bool
    var invalidated: bool

    function Snapshot(): Ui
      reads this, eng
    {
      Ui(paintSizeIdx, debugPathIdx, singleIconIdx, brushPattern, direct, eng.grayMode, eng.darkMode, eng.colorMode, invalidated)
    }

    predicate Valid()
      reads this, eng
    {
      InRange(Snapshot(), |pack|)
    }

    /** The window after the pack has loaded, with a fresh engine. */
    constructor (pack: seq<IconPack.IconData>)
      requires |pack| < 0x8000_0000
      ensures this.pack == pack && fresh(eng) && fresh(eng.engine)
      ensures Snapshot() == Ui(0, 0, 0, false, false, false, false, 0, false)
      ensures Valid()
    {
      eng := new ColorizerIconEngine();
      this.pack := pack;
      paintSizeIdx, debugPathIdx, singleIconIdx := 0, 0, 0;
      brushPattern, direct, invalidated := false, false, false;
    }

    /** `Window::OnKeyDown`. */
    method OnKeyDown(w: int)
      requires Valid()
      modifies this, eng
      ensures Valid()
      ensures eng == old(eng) && pack == old(pack) && eng.engine == old(eng.engine)
      ensures Snapshot() == KeyDown(old(Snapshot()), |pack|, w)
    {
      if w == 'B' as int {
        brushPattern := !brushPattern;
      } else if w == 'X' as int {
        direct := !direct;
      } else if w == 'I' as int {
        paintSizeIdx := ToSizeT(paintSizeIdx - 1);
        if paintSizeIdx >= |PaintSizes| {
          paintSizeIdx := |PaintSizes| - 1;
        }
        assert paintSizeIdx == SizeDown(old(paintSizeIdx));
      } else if w == 'K' as int {
        paintSizeIdx := ToSizeT(paintSizeIdx + 1);
        if paintSizeIdx >= |PaintSizes| {
          paintSizeIdx := 0;
        }
        assert paintSizeIdx == SizeUp(old(paintSizeIdx));
      } else if w == 'W' as int {
        if debugPathIdx != 0 {
          debugPathIdx := debugPathIdx - 1;
        }
      } else if w == 'S' as int {
        debugPathIdx := debugPathIdx + 1;
      } else if w == 'A' as int {
        singleIconIdx := singleIconIdx - 1;
        if singleIconIdx < 0 {
          singleIconIdx := |pack|;
        }
        assert singleIconIdx == IconDown(old(singleIconIdx), |pack|);
      } else if w == 'D' as int {
        singleIconIdx := singleIconIdx + 1;
        if ToSizeT(singleIconIdx) > |pack| {
          singleIconIdx := 0;
        }
        assert singleIconIdx == IconUp(old(singleIconIdx), |pack|);
      } else if w == 'Q' as int || w == 'E' as int || w == 'R' as int {
        eng.ModeKey(w);
      }
      invalidated := true;
    }

    /** The key branch of `WindowProc`: Escape quits, any other key goes to `OnKeyDown`. */
    method HandleKey(w: int) returns (quit: bool)
      requires Valid()
      modifies this, eng
      ensures Valid()
      ensures eng == old(eng) && pack == old(pack) && eng.engine == old(eng.engine)
      ensures quit <==> w == 0x1B
      ensures quit ==> Snapshot() == old(Snapshot())
      ensures !quit ==> Snapshot() == KeyDown(old(Snapshot()), |pack|, w)
    {
      if w == 0x1B {
        return true;
      }
      OnKeyDown(w);
      return false;
    }

    /**
      `Window::OnPaint` for a client area of dx by dy: it hands the path to
      single out to the engine and returns the background and the draws it
      asks for.
     */
    method OnPaint(dx: int, dy: int) returns (bk: Background, draws: seq<Draw>)
      requires Valid()
      modifies eng.engine
      ensures (bk, draws) == Paint(old(Snapshot()), |pack|, dx, dy)
      ensures eng.engine.Snapshot() == old(eng.engine.Snapshot()).(debugPathIdx := debugPathIdx)
    {
      ghost var u := Snapshot();
      var bkcolor := if eng.darkMode then DarkBk else LightBk;
      var palidx := if eng.darkMode then 1 else 0;
      bk := if brushPattern then Hatched(bkcolor) else Solid(bkcolor);
      var paintSize := PaintSizes[paintSizeIdx];
      eng.engine.DebugSinglePath(debugPathIdx);
      var i := singleIconIdx - 1;
      if i >= 0 {
        draws := [Draw(Square(Pad, Pad, paintSize), i, palidx, direct)];
        assert (bk, draws) == Paint(u, |pack|, dx, dy);
        assert u == old(Snapshot());
        return;
      }
      draws := LayoutLoop(|pack|, paintSize, dx, dy, palidx, direct);
      assert u == old(Snapshot());
    }
  }
}
