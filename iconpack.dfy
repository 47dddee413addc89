/**
  The C++ icon-pack reader and byte-code interpreter
  (gdiplusdemo/IconPack.cpp, with its types from gdiplusdemo/IconPack.h).

  `Pack::load` reads "icpk", a little-endian u32 icon count and then that many
  icon records (a u32 size followed by the record body); it does not read
  section tags. `drawIcon` runs an icon's byte code from a variant's offset
  to the end of the icon's data blob and reports each drawing call as an
  `Event`, in the order a `DrawEngine` would receive them.
 */
module IconPack {
  import opened Base
  import opened Coord

  // ---------------------------------------------------------------------------
  // Types of IconPack.h

  /** A non-premultiplied colour. */
  datatype RGBA = RGBA(r: Byte, g: Byte, b: Byte, a: Byte)

  type Palette = seq<RGBA>

  /** A size variant: its target size and where its program starts in the data blob. */
  datatype RawImage = RawImage(dx: U16, dy: U16, offset: U32, size: U32)

  /** The decoded icon: name, size variants, byte-code blob and the (never filled) palette table. */
  datatype IconData = IconData(name: seq<Byte>, images: seq<RawImage>, data: seq<Byte>, palvec: Option<seq<Palette>>)

  /** `Icon` of IconPack.h: a possibly empty shared pointer to the icon data. */
  datatype Icon = Icon(d: Option<IconData>)
  {
    /** `Icon::Name`: the name, or "" when the icon holds no data. */
    function Name(): (s: seq<Byte>)
      ensures d.None? ==> s == []
      ensures d.Some? ==> s == d.value.name
    {
      if d.Some? then d.value.name else []
    }
  }

  /** A point as the interpreter decodes it. */
  datatype Point = Point(x: CoordValue, y: CoordValue)

  /** The error records of IconPack.h; `Pos` is 0 unless the record overrides it. */
  datatype DrawError = EmptyImage | InvalidPaletteIndex(p: nat, i: nat) | InvalidOpCode(p: nat, op: Byte)
  {
    function Pos(): nat
    {
      match this
      case EmptyImage => 0
      case InvalidPaletteIndex(p, _) => p
      case InvalidOpCode(p, _) => p
    }

    function Index(): nat requires InvalidPaletteIndex? { i }

    function OpCode(): Byte requires InvalidOpCode? { op }
  }

  /** The error records report the position and index or opcode they were built with; `EmptyImage` reports 0. */
  lemma ErrorRecordsKeepArguments(p: nat, i: nat, op: Byte)
    ensures EmptyImage.Pos() == 0
    ensures InvalidPaletteIndex(p, i).Pos() == p && InvalidPaletteIndex(p, i).Index() == i
    ensures InvalidOpCode(p, op).Pos() == p && InvalidOpCode(p, op).OpCode() == op
  {
  }

  /** The calls a `DrawEngine` receives. `DrawEngine::Error` is never called by this revision of the interpreter. */
  datatype Event =
    | ViewBox(xmin: CoordValue, ymin: CoordValue, xmax: CoordValue, ymax: CoordValue)
    | SetSolidFill(r: Byte, g: Byte, b: Byte, a: Byte)
    | MoveTo(p: Point)
    | LineTo(pts: seq<Point>)
    | CubicBezierTo(pts: seq<Point>)
    | QuadraticBezierTo(pts: seq<Point>)
    | ClosePath
    | Error(e: DrawError)

  // ---------------------------------------------------------------------------
  // std::istream, as far as the reader uses it

  /**
    The bytes a read of `n` bytes at `pos` leaves in its buffer: byte `j` is
    the stream's byte `pos + j` while the stream is good and has it, and 0
    otherwise. C++ leaves the unread bytes of the buffer indeterminate; the
    model takes them as 0.
   */
  function Take(data: seq<Byte>, pos: nat, good: bool, n: nat): (r: seq<Byte>)
    ensures |r| == n
    ensures good && pos + n <= |data| ==> r == data[pos..pos + n]
  {
    if n == 0 then []
    else Take(data, pos, good, n - 1) + [if good && pos + n - 1 < |data| then data[pos + n - 1] else 0]
  }

  /** The value `readUint32` returns: what a 4-byte read leaves in the buffer, little endian. */
  function PaddedLe32(data: seq<Byte>, pos: nat, good: bool): U32
    requires pos <= |data|
  {
    ReadLe32(Take(data, pos, good, 4), 0)
  }

  /** The value `readUint16` returns. */
  function PaddedLe16(data: seq<Byte>, pos: nat, good: bool): U16
    requires pos <= |data|
  {
    ReadLe16(Take(data, pos, good, 2), 0)
  }

  /** A whole 4-byte read returns the little-endian value at `pos`. */
  lemma PaddedLe32Whole(data: seq<Byte>, pos: nat)
    requires pos + 4 <= |data|
    ensures PaddedLe32(data, pos, true) == ReadLe32(data, pos)
  {
    var b := Take(data, pos, true, 4);
    assert b[0] == data[pos] && b[1] == data[pos + 1] && b[2] == data[pos + 2] && b[3] == data[pos + 3];
  }

  /** A short read ends in a zero byte, so it never matches a buffer without one. */
  lemma ShortReadEndsInZero(data: seq<Byte>, n: nat)
    requires |data| < n
    ensures Take(data, 0, true, n)[n - 1] == 0
  {
  }

  function Min(a: int, b: int): int { if a < b then a else b }

  /** An input stream over a byte sequence; `failed` stands for the fail and eof bits, so `good()` is `!failed`. */
  class Stream {
    const data: seq<Byte>
    var pos: nat
    var failed: bool

    /** A failed stream has always reached its end: every short read consumes what is left. */
    ghost predicate Valid()
      reads this
    {
      pos <= |data| && (failed ==> pos == |data|)
    }

    constructor (data: seq<Byte>)
      ensures Valid() && !failed && this.data == data && pos == 0
    {
      this.data := data;
      pos := 0;
      failed := false;
    }

    /** `istream::read`: all of the n bytes or a failed stream. */
    method Read(n: nat) returns (buf: seq<Byte>)
      requires Valid()
      modifies this
      ensures Valid()
      ensures !failed <==> !old(failed) && old(pos) + n <= |data|
      ensures !failed ==> pos == old(pos) + n && buf == data[old(pos)..pos]
      ensures failed ==> buf == Take(data, old(pos), !old(failed), n)
    {
      buf := Take(data, pos, !failed, n);
      if failed || pos + n > |data| {
        failed := true;
        pos := |data|;
      } else {
        pos := pos + n;
      }
    }

    /** `istream::get`: the next byte, or -1 with a failed stream at the end. */
    method Get() returns (c: int)
      requires Valid()
      modifies this
      ensures Valid()
      ensures !failed <==> !old(failed) && old(pos) < |data|
      ensures !failed ==> c == data[old(pos)] && pos == old(pos) + 1
      ensures failed ==> c == -1
    {
      if failed || pos == |data| {
        failed := true;
        pos := |data|;
        return -1;
      }
      c := data[pos];
      pos := pos + 1;
    }

    /** `detail::readUint32`. */
    method ReadUint32() returns (x: U32)
      requires Valid()
      modifies this
      ensures Valid()
      ensures failed ==> x == PaddedLe32(data, old(pos), !old(failed))
      ensures !failed <==> !old(failed) && old(pos) + 4 <= |data|
      ensures !failed ==> pos == old(pos) + 4 && x == ReadLe32(data, old(pos))
    {
      ghost var at := pos;
      var b := Read(4);
      x := ReadLe32(b, 0);
      if !failed {
        assert b == data[at..at + 4];
        assert b[0] == data[at] && b[1] == data[at + 1] && b[2] == data[at + 2] && b[3] == data[at + 3];
      }
    }

    /** `detail::readUint16`. */
    method ReadUint16() returns (x: U16)
      requires Valid()
      modifies this
      ensures Valid()
      ensures failed ==> x == PaddedLe16(data, old(pos), !old(failed))
      ensures !failed <==> !old(failed) && old(pos) + 2 <= |data|
      ensures !failed ==> pos == old(pos) + 2 && x == ReadLe16(data, old(pos))
    {
      ghost var at := pos;
      var b := Read(2);
      x := ReadLe16(b, 0);
      if !failed {
        assert b == data[at..at + 2];
        assert b[0] == data[at] && b[1] == data[at + 1];
      }
    }
  }

  // ---------------------------------------------------------------------------
  // loadIcon and Pack::load

  const MaxIconSize: nat := 0x10_0000

  /** The sum of the sizes of the first `i` variant records starting at `h`. */
  function SizeSum(d: seq<Byte>, h: nat, i: nat): nat
    requires h + 8 * i <= |d|
  {
    if i == 0 then 0 else SizeSum(d, h, i - 1) + ReadLe32(d, h + 8 * (i - 1) + 4)
  }

  /**
    Variant record `i` of the table at `h`: width, height, and as offset the
    sum of the sizes of the records before it, wrapped to 32 bits like the
    source's `uint32_t ofs`. The source never fills `size`; the model reads it as 0.
   */
  function ImageRecord(d: seq<Byte>, h: nat, i: nat): RawImage
    requires h + 8 * (i + 1) <= |d|
  {
    RawImage(ReadLe16(d, h + 8 * i), ReadLe16(d, h + 8 * i + 2), ToU32(SizeSum(d, h, i)), 0)
  }

  /** The first `n` variant records of the table at `h`. */
  function ImageTable(d: seq<Byte>, h: nat, n: nat): (r: seq<RawImage>)
    requires h + 8 * n <= |d|
    ensures |r| == n
  {
    if n == 0 then [] else ImageTable(d, h, n - 1) + [ImageRecord(d, h, n - 1)]
  }

  /** The part of an icon record `loadIcon` reads before the variant table: declared size, name, variant count, and where the table starts. */
  datatype IconHeader = IconHeader(size: U32, name: seq<Byte>, count: nat, table: nat)

  /**
    The header at `p` as `loadIcon` accepts it: a u32 size of at most 1 MiB,
    a non-zero name length byte, the name, and a non-zero variant count byte,
    all within `d`; None otherwise.
   */
  function HeaderAt(d: seq<Byte>, p: nat): (r: Option<IconHeader>)
    ensures r.Some? ==> r.value.table == p + 6 + |r.value.name| <= |d|
    ensures r.Some? ==> r.value.size <= MaxIconSize && 0 < |r.value.name| < 0x100 && 0 < r.value.count < 0x100
  {
    if p + 5 > |d| || ReadLe32(d, p) > MaxIconSize || d[p + 4] == 0 then None
    else
      var nameLen: nat := d[p + 4];
      if p + 6 + nameLen > |d| || d[p + 5 + nameLen] == 0 then None
      else Some(IconHeader(ReadLe32(d, p), d[p + 5..p + 5 + nameLen], d[p + 5 + nameLen], p + 6 + nameLen))
  }

  /** The length `loadIcon` computes for the part of a record before the blob: the two length bytes, the name and the table. */
  function HeaderLen(hd: IconHeader): nat
  {
    1 + |hd.name| + 1 + 8 * hd.count
  }

  /**
    What `loadIcon` reads from `d` at `p`: the icon and the position after
    its record, or None. After an accepted header the table must be within
    `d`, the declared size must cover the header, and the blob that makes up
    the rest of the declared size must be within `d`.
   */
  function IconAt(d: seq<Byte>, p: nat): (r: Option<(IconData, nat)>)
    ensures r.Some? ==> p < r.value.1 <= |d|
  {
    match HeaderAt(d, p)
    case None => None
    case Some(hd) =>
      var tableEnd := hd.table + 8 * hd.count;
      var next := p + 4 + hd.size;
      if tableEnd <= |d| && HeaderLen(hd) <= hd.size && next <= |d| then
        Some((IconData(hd.name, ImageTable(d, hd.table, hd.count), d[tableEnd..next], None), next))
      else None
  }

  /** The header part of `loadIcon`, up to the variant table. */
  method ReadHeader(s: Stream) returns (hd: Option<IconHeader>)
    requires s.Valid()
    modifies s
    ensures s.Valid()
    ensures hd == HeaderAt(s.data, old(s.pos))
    ensures hd.Some? ==> !s.failed && s.pos == hd.value.table
  {
    ghost var d := s.data;
    ghost var p := s.pos;
    var fileSize := s.ReadUint32();
    if fileSize > MaxIconSize {
      assert p + 5 > |d| || ReadLe32(d, p) > MaxIconSize;
      return None;
    }
    var nameLen := s.Get();
    if s.failed || nameLen == 0 {
      assert p + 5 > |d| || d[p + 4] == 0;
      return None;
    }
    assert p + 5 <= |d| && ReadLe32(d, p) == fileSize && d[p + 4] == nameLen;
    var name := s.Read(nameLen);
    if s.failed {
      assert p + 5 + nameLen > |d|;
      return None;
    }
    var numImages := s.Get();
    if s.failed || numImages == 0 {
      assert p + 6 + nameLen > |d| || d[p + 5 + nameLen] == 0;
      return None;
    }
    assert name == d[p + 5..p + 5 + nameLen];
    hd := Some(IconHeader(fileSize, name, numImages, s.pos));
  }

  /** One more record: its offset is the previous offset plus the previous size, wrapped to 32 bits. */
  lemma ImageTableStep(d: seq<Byte>, h: nat, i: nat)
    requires h + 8 * (i + 1) <= |d|
    ensures ImageTable(d, h, i + 1)
            == ImageTable(d, h, i) + [RawImage(ReadLe16(d, h + 8 * i), ReadLe16(d, h + 8 * i + 2), ToU32(SizeSum(d, h, i)), 0)]
    ensures ToU32(SizeSum(d, h, i + 1)) == (ToU32(SizeSum(d, h, i)) + ReadLe32(d, h + 8 * i + 4)) % 0x1_0000_0000
  {
    ToU32Add(SizeSum(d, h, i), ReadLe32(d, h + 8 * i + 4));
  }

  /** One pass of the variant-table loop: width and height, the running offset, and the size to add to it. */
  method ReadImageRecord(s: Stream, ofs: U32) returns (ri: RawImage, size: U32)
    requires s.Valid()
    modifies s
    ensures s.Valid()
    ensures !s.failed <==> !old(s.failed) && old(s.pos) + 8 <= |s.data|
    ensures ri.offset == ofs && ri.size == 0
    ensures !s.failed ==> s.pos == old(s.pos) + 8 && size == ReadLe32(s.data, old(s.pos) + 4)
                          && ri.dx == ReadLe16(s.data, old(s.pos)) && ri.dy == ReadLe16(s.data, old(s.pos) + 2)
  {
    var dx := s.ReadUint16();
    var dy := s.ReadUint16();
    ri := RawImage(dx, dy, ofs, 0);
    size := s.ReadUint32();
  }

  /** The variant-table loop of `loadIcon`: `n` records of width, height and size, offsets summed as it goes. */
  method ReadImageTable(s: Stream, n: nat) returns (images: seq<RawImage>)
    requires s.Valid()
    modifies s
    ensures s.Valid()
    ensures !s.failed <==> !old(s.failed) && old(s.pos) + 8 * n <= |s.data|
    ensures !s.failed ==> s.pos == old(s.pos) + 8 * n
    ensures !s.failed ==> images == ImageTable(s.data, old(s.pos), n)
  {
    ghost var d := s.data;
    ghost var h := s.pos;
    ghost var good := !s.failed;
    images := [];
    var ofs: U32 := 0;
    var i := 0;
    while i < n
      invariant s.Valid() && s.data == d
      invariant 0 <= i <= n && |images| == i
      invariant !s.failed ==> good && s.pos == h + 8 * i
      invariant !s.failed ==> images == ImageTable(d, h, i)
      invariant !s.failed ==> ofs == ToU32(SizeSum(d, h, i))
      invariant s.failed ==> !good || h + 8 * n > |d|
    {
      var ri, size := ReadImageRecord(s, ofs);
      images := images + [ri];
      if !s.failed {
        ImageTableStep(d, h, i);
      }
      ofs := (ofs + size) % 0x1_0000_0000;
      i := i + 1;
    }
  }

  /**
    `detail::loadIcon`. A declared size below the header length makes the
    source's `vector::resize` throw; the model reports that as a failed load.
   */
  method LoadIcon(s: Stream) returns (r: Option<IconData>)
    requires s.Valid()
    modifies s
    ensures s.Valid()
    ensures r.None? ==> IconAt(s.data, old(s.pos)) == None
    ensures r.Some? ==> IconAt(s.data, old(s.pos)) == Some((r.value, s.pos)) && !s.failed
  {
    var hd := ReadHeader(s);
    if hd.None? {
      return None;
    }
    var header := hd.value;
    var images := ReadImageTable(s, header.count);
    if s.failed {
      return None;
    }
    var headerLen := 1 + |header.name| + 1 + 8 * header.count;
    if header.size < headerLen {
      return None;
    }
    var data := s.Read(header.size - headerLen);
    if s.failed {
      return None;
    }
    r := Some(IconData(header.name, images, data, None));
  }

  /** The header magic "icpk". */
  const PackMagic: seq<Byte> := [0x69, 0x63, 0x70, 0x6b]

  /** The outcome of reading `n` icons one after the other: the icons read, where reading stopped, and whether all `n` were read. */
  datatype Loaded = Loaded(icons: seq<IconData>, end: nat, ok: bool)

  /**
    The icons read one after the other from `p0`, at most `n`: reading
    stops at the first record `loadIcon` rejects.
   */
  function LoadedIcons(d: seq<Byte>, p0: nat, n: nat): (r: Loaded)
    requires p0 <= |d|
    ensures p0 <= r.end <= |d|
    ensures |r.icons| <= n && (r.ok ==> |r.icons| == n)
    decreases n, 1
  {
    if n == 0 then Loaded([], p0, true) else LoadedOneMore(d, p0, n)
  }

  /** The `n`th turn of the loop: after `n - 1` icons, `loadIcon` once more. */
  function LoadedOneMore(d: seq<Byte>, p0: nat, n: nat): (r: Loaded)
    requires p0 <= |d| && n > 0
    ensures p0 <= r.end <= |d|
    ensures |r.icons| <= n && (r.ok ==> |r.icons| == n)
    decreases n, 0
  {
    var r := LoadedIcons(d, p0, n - 1);
    if !r.ok then r
    else match IconAt(d, r.end)
      case None => Loaded(r.icons, r.end, false)
      case Some((icon, q)) => Loaded(r.icons + [icon], q, true)
  }

  /** Once a record is rejected, asking for more icons changes nothing. */
  lemma {:induction false} LoadedIconsStop(d: seq<Byte>, p0: nat, i: nat, n: nat)
    requires p0 <= |d| && i <= n && !LoadedIcons(d, p0, i).ok
    ensures LoadedIcons(d, p0, n) == LoadedIcons(d, p0, i)
    decreases n - i
  {
    if i < n {
      LoadedIconsStop(d, p0, i, n - 1);
    }
  }

  /**
    One turn of the `Pack::load` loop at the level of the stream: `loadIcon`
    after `i` icons have been read from `p0`, stated as the `i + 1`st step of
    `LoadedIcons`.
   */
  method LoadNext(s: Stream, ghost p0: nat, ghost i: nat) returns (x: Option<IconData>)
    requires s.Valid() && p0 <= |s.data|
    requires LoadedIcons(s.data, p0, i).ok && s.pos == LoadedIcons(s.data, p0, i).end
    modifies s
    ensures s.Valid()
    ensures x.Some? <==> LoadedIcons(s.data, p0, i + 1).ok
    ensures x.Some? ==> s.pos == LoadedIcons(s.data, p0, i + 1).end
    ensures LoadedIcons(s.data, p0, i + 1).icons
            == LoadedIcons(s.data, p0, i).icons + (if x.Some? then [x.value] else [])
  {
    x := LoadIcon(s);
    assert LoadedIcons(s.data, p0, i + 1) == LoadedOneMore(s.data, p0, i + 1);
    if x.None? {
      assert LoadedIcons(s.data, p0, i).icons + [] == LoadedIcons(s.data, p0, i).icons;
    }
  }

  /** The icons `Pack::load` stores for a whole stream, and whether it returns true. */
  function PackAt(d: seq<Byte>): (seq<IconData>, bool)
  {
    if |d| < 4 || d[..4] != PackMagic then ([], false)
    else
      var r := LoadedIcons(d, Min(8, |d|), PaddedLe32(d, 4, true));
      (r.icons, r.ok)
  }

  /** Appending one element after a concatenation, regrouped. */
  lemma AppendAssoc<T>(a: seq<T>, b: seq<T>, x: T)
    ensures (a + b) + [x] == a + (b + [x])
  {
  }

  /**
    `Pack`: the icons in stream order and the name index. The source
    registers each icon under `x->name` after moving `*x` into the vector;
    the model takes the moved-from name as "" (what common standard libraries
    leave behind), and `insert` keeps an existing key.
   */
  class Pack {
    var icons: seq<IconData>
    var nameToIndex: map<seq<Byte>, nat>

    ghost predicate Valid()
      reads this
    {
      forall name :: name in nameToIndex ==> nameToIndex[name] < |icons|
    }

    constructor ()
      ensures Valid() && icons == [] && nameToIndex == map[]
    {
      icons := [];
      nameToIndex := map[];
    }

    /** `Pack::size`. */
    function Size(): (n: nat)
      reads this
      ensures n == |icons|
    {
      |icons|
    }

    /** `Pack::load`: appends the icons it reads, in order, and reports whether all of them were read. */
    method Load(s: Stream) returns (ok: bool)
      requires Valid() && s.Valid() && s.pos == 0 && !s.failed
      modifies this, s
      ensures Valid()
      ensures ok == PackAt(s.data).1
      ensures icons == old(icons) + PackAt(s.data).0
      ensures nameToIndex == if PackAt(s.data).0 == [] || [] in old(nameToIndex) then old(nameToIndex)
                             else old(nameToIndex)[[] := |old(icons)|]
    {
      ghost var d := s.data;
      var buf := s.Read(4);
      if buf != PackMagic {
        return false;
      }
      if |d| < 4 {
        ShortReadEndsInZero(d, 4);
        assert false;
      }
      var nicons := s.ReadUint32();
      if |d| >= 8 {
        PaddedLe32Whole(d, 4);
      }
      assert s.pos == Min(8, |d|);
      ok := AppendIcons(s, nicons);
    }

    /**
      The loop state of `Pack::load` after `i` records from `p0`: all were
      read, the stream stands after the last, the vector holds the icons it
      started with followed by them, and the map has gained the moved-from
      name once a record has been pushed.
     */
    ghost predicate Holds(d: seq<Byte>, p0: nat, i: nat, start: seq<IconData>, startIndex: map<seq<Byte>, nat>, pos: nat)
      requires p0 <= |d|
      reads this
    {
      var l := LoadedIcons(d, p0, i);
      l.ok && pos == l.end && icons == start + l.icons
      && nameToIndex == if i == 0 || [] in startIndex then startIndex else startIndex[[] := |start|]
    }

    /** The loop of `Pack::load`: reads up to `n` icons, appending and registering each one. */
    method AppendIcons(s: Stream, n: nat) returns (ok: bool)
      requires Valid() && s.Valid()
      modifies this, s
      ensures Valid()
      ensures ok == LoadedIcons(s.data, old(s.pos), n).ok
      ensures icons == old(icons) + LoadedIcons(s.data, old(s.pos), n).icons
      ensures nameToIndex == if LoadedIcons(s.data, old(s.pos), n).icons == [] || [] in old(nameToIndex) then old(nameToIndex)
                             else old(nameToIndex)[[] := |old(icons)|]
    {
      ghost var d := s.data;
      ghost var p0 := s.pos;
      ghost var start := icons;
      ghost var startIndex := nameToIndex;
      var i := 0;
      while i < n
        invariant s.Valid() && s.data == d && Valid()
        invariant 0 <= i <= n
        invariant Holds(d, p0, i, start, startIndex, s.pos)
      {
        ghost var before := LoadedIcons(d, p0, i).icons;
        var x := LoadNext(s, p0, i);
        if x.None? {
          LoadedIconsStop(d, p0, i + 1, n);
          assert before + [] == before;
          return false;
        }
        Push(x.value);
        AppendAssoc(start, before, x.value);
        i := i + 1;
      }
      return true;
    }

    /**
      The body of the `Pack::load` loop after a successful `loadIcon`: moves
      the icon to the end of the vector, then registers its index under the
      moved-from name, unless that name is registered already.
     */
    method Push(icon: IconData)
      requires Valid()
      modifies this
      ensures Valid()
      ensures icons == old(icons) + [icon]
      ensures nameToIndex == if [] in old(nameToIndex) then old(nameToIndex) else old(nameToIndex)[[] := |old(icons)|]
    {
      var idx := |icons|;
      icons := icons + [icon];
      // `x->name` after the move: the moved-from (empty) name.
      if [] !in nameToIndex {
        nameToIndex := nameToIndex[[] := idx];
      }
    }

    /**
      The body of the `Pack::load` loop as evidently intended: the icon is
      registered under its own name (read before the move), unless that name
      is registered already. It keeps the index equal to `NameIndex(icons)`.
     */
    method PushIntended(icon: IconData)
      requires Valid() && nameToIndex == NameIndex(icons)
      modifies this
      ensures Valid() && nameToIndex == NameIndex(icons)
      ensures icons == old(icons) + [icon]
      ensures Find(icon.name).Some? && Find(icon.name).value.name == icon.name
    {
      var name := icon.name;
      var idx := |icons|;
      icons := icons + [icon];
      if name !in nameToIndex {
        nameToIndex := nameToIndex[name := idx];
      }
      assert icons[..|icons| - 1] == old(icons);
      NameIndexFinds(icons, idx);
    }

    /**
      `Pack::find`: the icon registered under `name`, if any. The source also
      returns null for an index beyond the vector; under `Valid()` every
      registered index is within it, so that test never fires.
     */
    function Find(name: seq<Byte>): (r: Option<IconData>)
      reads this
      requires Valid()
      ensures r.Some? <==> name in nameToIndex
      ensures r.Some? ==> r.value == icons[nameToIndex[name]]
    {
      if name !in nameToIndex then None else Some(icons[nameToIndex[name]])
    }
  }

  /** The name index as intended: each name maps to the first icon that carries it. */
  function NameIndex(icons: seq<IconData>): (m: map<seq<Byte>, nat>)
    ensures forall name :: name in m ==> m[name] < |icons|
    decreases |icons|
  {
    if |icons| == 0 then map[]
    else
      var m := NameIndex(icons[..|icons| - 1]);
      var x := icons[|icons| - 1];
      if x.name in m then m else m[x.name := |icons| - 1]
  }

  /** Every icon's name is in the intended index, at or before it, and names an icon that carries it. */
  lemma {:induction false} NameIndexFinds(icons: seq<IconData>, i: nat)
    requires i < |icons|
    ensures icons[i].name in NameIndex(icons)
    ensures NameIndex(icons)[icons[i].name] <= i
    ensures icons[NameIndex(icons)[icons[i].name]].name == icons[i].name
    decreases |icons|
  {
    var n := |icons| - 1;
    var init := icons[..n];
    if i < n {
      assert init[i] == icons[i];
      NameIndexFinds(init, i);
      assert icons[NameIndex(init)[icons[i].name]] == init[NameIndex(init)[icons[i].name]];
    } else if icons[n].name in NameIndex(init) {
      NameIndexNames(init, icons[n].name);
      assert icons[NameIndex(init)[icons[n].name]] == init[NameIndex(init)[icons[n].name]];
    }
  }

  /** Every name in the intended index is the name of the icon it maps to. */
  lemma {:induction false} NameIndexNames(icons: seq<IconData>, name: seq<Byte>)
    requires name in NameIndex(icons)
    ensures icons[NameIndex(icons)[name]].name == name
    decreases |icons|
  {
    var n := |icons| - 1;
    var init := icons[..n];
    if name in NameIndex(init) {
      NameIndexNames(init, name);
      assert icons[NameIndex(init)[name]] == init[NameIndex(init)[name]];
    }
  }

  /**
    `Pack::load` on a fresh pack, then `Pack::find`: as written, no icon is
    ever found under its own non-empty name, since the loop registers the
    moved-from name; only "" can be found, and then it is the first icon.
   */
  method LoadThenFind(s: Stream, name: seq<Byte>) returns (r: Option<IconData>)
    requires s.Valid() && s.pos == 0 && !s.failed
    modifies s
    ensures name != [] ==> r.None?
    ensures name == [] ==> r == if PackAt(s.data).0 == [] then None else Some(PackAt(s.data).0[0])
  {
    var pack := new Pack();
    var _ := pack.Load(s);
    r := pack.Find(name);
  }

  // ---------------------------------------------------------------------------
  // ProgMem and drawIcon

  /** `ProgMem::byte` past the end yields 0. */
  function ByteAt(data: seq<Byte>, i: nat): Byte
  {
    if i < |data| then data[i] else 0
  }

  /**
    `ProgMem::coord` at `p`: the value and the new cursor. At the end it
    yields 0 and does not move; otherwise it reads the form the first byte
    announces, taking 0 for bytes past the end and stopping there.
   */
  function CoordAt(data: seq<Byte>, p: nat): (res: (CoordValue, nat))
    requires p <= |data|
    ensures p <= res.1 <= |data|
    ensures p < |data| ==> res.1 == Min(p + FormLength(data[p]), |data|)
  {
    if p == |data| then (Fixed(0), p)
    else
      var b0 := data[p];
      if b0 % 2 == 1 then (Fixed(64 * (b0 as int / 2 - 64)), p + 1)
      else
        var b1 := ByteAt(data, p + 1);
        if (b0 / 2) % 2 == 1 then
          (Fixed((b0 as int + 0x100 * b1 as int) / 4 - 8192), Min(p + 2, |data|))
        else
          var b2 := ByteAt(data, p + 2);
          var b3 := ByteAt(data, p + 3);
          (Binary32(ReadLe32([b0, b1, b2, b3], 0)), Min(p + 4, |data|))
  }

  /** Where the data holds a whole coordinate, the C++ reader and Go's `CoordFromBytes` agree. */
  lemma CoordAtAgreesWithGo(data: seq<Byte>, p: nat)
    requires p < |data| && p + FormLength(data[p]) <= |data|
    ensures var (c, n) := CoordFromBytes(data[p..]);
      CoordAt(data, p) == (c, p + n)
  {
    var s := data[p..];
    assert s[0] == data[p];
    if FormLength(data[p]) >= 2 {
      assert s[1] == data[p + 1];
    }
    if FormLength(data[p]) == 4 {
      assert s[2] == data[p + 2] && s[3] == data[p + 3];
    }
  }

  /** `ProgMem::point`: x then y. */
  function PointAt(data: seq<Byte>, p: nat): (res: (Point, nat))
    requires p <= |data|
    ensures p <= res.1 <= |data|
  {
    var (x, q) := CoordAt(data, p);
    var (y, e) := CoordAt(data, q);
    (Point(x, y), e)
  }

  /** `ProgMem::points`: `n` points in a row. */
  function PointsAt(data: seq<Byte>, p: nat, n: nat): (res: (seq<Point>, nat))
    requires p <= |data|
    ensures |res.0| == n
    ensures p <= res.1 <= |data|
    decreases n
  {
    if n == 0 then ([], p)
    else
      var (init, q) := PointsAt(data, p, n - 1);
      var (pt, e) := PointAt(data, q);
      (init + [pt], e)
  }

  /** The C++ `ProgMem`: a cursor `p` over `data` that never passes the end. */
  class ProgMem {
    const data: seq<Byte>
    var p: nat

    ghost predicate Valid()
      reads this
    {
      p <= |data|
    }

    constructor (data: seq<Byte>, p: nat)
      requires p <= |data|
      ensures Valid() && this.data == data && this.p == p
    {
      this.data := data;
      this.p := p;
    }

    predicate Good()
      reads this
    {
      p < |data|
    }

    method NextByte() returns (b: Byte)
      requires Valid()
      modifies this
      ensures Valid()
      ensures b == ByteAt(data, old(p))
      ensures p == Min(old(p) + 1, |data|)
    {
      if p != |data| {
        b := data[p];
        p := p + 1;
      } else {
        b := 0;
      }
    }

    /** Four `byte()` calls in a row: the operands of the solid-fill opcode. */
    method NextColor() returns (r: Byte, g: Byte, b: Byte, a: Byte)
      requires Valid()
      modifies this
      ensures Valid()
      ensures r == ByteAt(data, old(p)) && g == ByteAt(data, old(p) + 1)
      ensures b == ByteAt(data, old(p) + 2) && a == ByteAt(data, old(p) + 3)
      ensures p == Min(old(p) + 4, |data|)
    {
      ghost var at := p;
      r := NextByte();
      assert p == Min(at + 1, |data|);
      g := NextByte();
      assert p == Min(at + 2, |data|);
      b := NextByte();
      assert p == Min(at + 3, |data|);
      a := NextByte();
    }

    method NextCoord() returns (c: CoordValue)
      requires Valid()
      modifies this
      ensures Valid()
      ensures (c, p) == CoordAt(data, old(p))
    {
      if !Good() {
        return Fixed(0);
      }
      var b0 := NextByte();
      if b0 % 2 != 0 {
        return Fixed(64 * (b0 as int / 2 - 64));
      }
      var b1 := NextByte();
      if (b0 / 2) % 2 != 0 {
        var u := b0 as int + 0x100 * b1 as int;
        return Fixed(u / 4 - 128 * 64);
      }
      var b2 := NextByte();
      var b3 := NextByte();
      return Binary32(ReadLe32([b0, b1, b2, b3], 0));
    }

    method NextPoint() returns (pt: Point)
      requires Valid()
      modifies this
      ensures Valid()
      ensures (pt, p) == PointAt(data, old(p))
    {
      var x := NextCoord();
      var y := NextCoord();
      pt := Point(x, y);
    }

    method NextPoints(n: nat) returns (dest: seq<Point>)
      requires Valid()
      modifies this
      ensures Valid()
      ensures dest == PointsAt(data, old(p), n).0 && p == PointsAt(data, old(p), n).1
    {
      dest := [];
      var i := 0;
      ghost var p0 := p;
      while i < n
        invariant Valid() && 0 <= i <= n
        invariant dest == PointsAt(data, p0, i).0 && p == PointsAt(data, p0, i).1
      {
        var pt := NextPoint();
        dest := dest + [pt];
        i := i + 1;
      }
    }
  }

  /** How a run of the interpreter ended. */
  datatype Outcome =
    | OffsetPastEnd            // the variant's offset lies past the blob: true, nothing drawn
    | NoViewBox                // the view box leaves no byte for a program: false
    | Stopped(pos: nat)        // a Stop opcode at `pos`: true
    | Rejected(pos: nat, op: Byte)  // an opcode the interpreter does not handle: false
    | RanOut                   // the data ended without Stop: false

  predicate Succeeded(o: Outcome) { o.OffsetPastEnd? || o.Stopped? }

  datatype Trace = Trace(outcome: Outcome, events: seq<Event>)

  /**
    The opcodes `drawIcon` handles. `case 0x80, 0x90:` is a comma expression
    in C++, so the label is 0x90: line ops 0x80..0x8F fall to `default`.
   */
  predicate Handled(op: Byte)
  {
    op == 0x00 || op == 0x01 || op == 0x70 || 0x90 <= op < 0xC0
  }

  /** The number of points a segment opcode reads. */
  function SegmentPoints(op: Byte): nat
    requires 0x90 <= op < 0xC0
  {
    if op < 0xA0 then 1 + (op - 0x80)
    else if op < 0xB0 then 3 * (1 + (op - 0xA0))
    else 2 * (1 + (op - 0xB0))
  }

  /** One pass of the interpreter loop: either it ends the run, or it goes on at `next`. */
  datatype StepResult =
    | Halt(outcome: Outcome, evs: seq<Event>)
    | Continue(evs: seq<Event>, next: nat, hasPath: bool)

  /** The events the close-before-fill/move check emits. */
  function CloseIfOpen(hasPath: bool): seq<Event>
  {
    if hasPath then [ClosePath] else []
  }

  /** The body of the loop in `drawIcon` for the opcode at `p`. */
  function Step(data: seq<Byte>, p: nat, hasPath: bool): (s: StepResult)
    requires p < |data|
    ensures s.Continue? ==> p < s.next <= |data|
  {
    var op := data[p];
    if op / 0x10 == 0x0 then
      if op == 0x00 then Halt(Stopped(p), CloseIfOpen(hasPath))
      else if op == 0x01 then
        var fill := SetSolidFill(ByteAt(data, p + 1), ByteAt(data, p + 2), ByteAt(data, p + 3), ByteAt(data, p + 4));
        Continue(CloseIfOpen(hasPath) + [fill], Min(p + 5, |data|), false)
      else Halt(Rejected(p, op), CloseIfOpen(hasPath))
    else if op / 0x10 == 0x7 then
      if op == 0x70 then
        var (pt, q) := PointAt(data, p + 1);
        Continue(CloseIfOpen(hasPath) + [MoveTo(pt)], q, false)
      else Halt(Rejected(p, op), CloseIfOpen(hasPath))
    else if 0x9 <= op / 0x10 <= 0xB then
      var (pts, q) := PointsAt(data, p + 1, SegmentPoints(op));
      var seg := if op < 0xA0 then LineTo(pts) else if op < 0xB0 then CubicBezierTo(pts) else QuadraticBezierTo(pts);
      Continue([seg], q, true)
    else Halt(Rejected(p, op), [])
  }

  /** The interpreter loop from `p`, with `hasPath` telling whether a segment was drawn since the last close. */
  function Run(data: seq<Byte>, p: nat, hasPath: bool): Trace
    requires p <= |data|
    decreases |data| - p
  {
    if p == |data| then Trace(RanOut, [])
    else
      match Step(data, p, hasPath)
      case Halt(o, evs) => Trace(o, evs)
      case Continue(evs, q, h) =>
        var t := Run(data, q, h);
        Trace(t.outcome, evs + t.events)
  }

  /** `detail::drawIcon` on the blob `data` from offset `ofs`: the view box and then the program. */
  function DrawIconAt(data: seq<Byte>, ofs: nat): Trace
  {
    if ofs > |data| then Trace(OffsetPastEnd, [])
    else
      var (xmin, q1) := CoordAt(data, ofs);
      var (ymin, q2) := CoordAt(data, q1);
      var (xmax, q3) := CoordAt(data, q2);
      var (ymax, q4) := CoordAt(data, q3);
      if q4 == |data| then Trace(NoViewBox, [])
      else
        var t := Run(data, q4, false);
        Trace(t.outcome, [ViewBox(xmin, ymin, xmax, ymax)] + t.events)
  }

  /** One pass of the `drawIcon` loop: reads an opcode and its operands and makes the engine calls. */
  method ExecuteOp(pm: ProgMem, hasPath: bool) returns (s: StepResult)
    requires pm.Valid() && pm.Good()
    modifies pm
    ensures pm.Valid()
    ensures s == Step(pm.data, old(pm.p), hasPath)
    ensures s.Continue? ==> pm.p == s.next
  {
    var at := pm.p;
    var op := pm.NextByte();
    var close := if hasPath then [ClosePath] else [];
    if op / 0x10 == 0x0 {
      if op == 0x00 {
        return Halt(Stopped(at), close);
      } else if op == 0x01 {
        var r, g, b, a := pm.NextColor();
        return Continue(close + [SetSolidFill(r, g, b, a)], pm.p, false);
      }
      return Halt(Rejected(at, op), close);
    } else if op / 0x10 == 0x7 {
      if op == 0x70 {
        var pt := pm.NextPoint();
        return Continue(close + [MoveTo(pt)], pm.p, false);
      }
      return Halt(Rejected(at, op), close);
    } else if op / 0x10 == 0x9 {
      assert 0x90 <= op < 0xA0 && SegmentPoints(op) == 1 + (op - 0x80);
      var pts := pm.NextPoints(1 + (op - 0x80));
      return Continue([LineTo(pts)], pm.p, true);
    } else if op / 0x10 == 0xA {
      assert 0xA0 <= op < 0xB0 && SegmentPoints(op) == 3 * (1 + (op - 0xA0));
      var pts := pm.NextPoints(3 * (1 + (op - 0xA0)));
      return Continue([CubicBezierTo(pts)], pm.p, true);
    } else if op / 0x10 == 0xB {
      assert 0xB0 <= op < 0xC0 && SegmentPoints(op) == 2 * (1 + (op - 0xB0));
      var pts := pm.NextPoints(2 * (1 + (op - 0xB0)));
      return Continue([QuadraticBezierTo(pts)], pm.p, true);
    }
    return Halt(Rejected(at, op), []);
  }

  // ---------------------------------------------------------------------------
  // What the interpreter promises about the calls it makes

  /**
    The point count of a segment call is one a segment opcode family can
    give: 1 to 32 line points, 1 to 16 cubic or quadratic segments.
   */
  predicate SegmentShape(e: Event)
  {
    match e
    case LineTo(pts) => 1 <= |pts| <= 32
    case CubicBezierTo(pts) => 3 <= |pts| <= 48 && |pts| % 3 == 0
    case QuadraticBezierTo(pts) => 2 <= |pts| <= 32 && |pts| % 2 == 0
    case _ => true
  }

  /**
    The path protocol of a sequence of engine calls, starting with a path
    open (`open`) or not: `ClosePath` only while a path is open, a fill or a
    move only once it is closed, segments of a shape `SegmentShape` allows,
    each of which opens the path. The state after the calls, or None where
    they break the protocol.
   */
  function PathAfter(open: bool, evs: seq<Event>): Option<bool>
    decreases |evs|
  {
    if evs == [] then Some(open)
    else
      var e := evs[0];
      if e.ClosePath? then (if open then PathAfter(false, evs[1..]) else None)
      else if e.SetSolidFill? || e.MoveTo? then (if open then None else PathAfter(false, evs[1..]))
      else if e.ViewBox? || e.Error? then None
      else if SegmentShape(e) then PathAfter(true, evs[1..])
      else None
  }

  lemma {:induction false} PathAfterAppend(open: bool, a: seq<Event>, b: seq<Event>)
    ensures PathAfter(open, a + b) == if PathAfter(open, a).None? then None else PathAfter(PathAfter(open, a).value, b)
    decreases |a|
  {
    if a != [] {
      assert (a + b)[0] == a[0] && (a + b)[1..] == a[1..] + b;
      PathAfterAppend(false, a[1..], b);
      PathAfterAppend(true, a[1..], b);
    } else {
      assert a + b == b;
    }
  }

  /** Segment opcodes read the counts `SegmentShape` allows. */
  lemma SegmentPointsShape(op: Byte)
    requires 0x90 <= op < 0xC0
    ensures op < 0xA0 ==> 17 <= SegmentPoints(op) <= 32
    ensures 0xA0 <= op < 0xB0 ==> 3 <= SegmentPoints(op) <= 48 && SegmentPoints(op) % 3 == 0
    ensures 0xB0 <= op ==> 2 <= SegmentPoints(op) <= 32 && SegmentPoints(op) % 2 == 0
  {
  }

  /**
    One pass of the loop keeps the protocol: it ends with the path closed on
    Stop, it carries the open-path flag in `hasPath`, and a run ends only on a
    Stop byte or on a byte the interpreter does not handle.
   */
  lemma StepProtocol(data: seq<Byte>, p: nat, hasPath: bool)
    requires p < |data|
    ensures var s := Step(data, p, hasPath);
      s.Halt? ==>
        PathAfter(hasPath, s.evs).Some?
        && (s.outcome.Stopped? ==> s.outcome.pos == p && data[p] == 0x00 && PathAfter(hasPath, s.evs) == Some(false))
        && (s.outcome.Rejected? ==> s.outcome.pos == p && s.outcome.op == data[p] && !Handled(data[p]))
        && (s.outcome.Stopped? || s.outcome.Rejected?)
    ensures var s := Step(data, p, hasPath);
      s.Continue? ==> Handled(data[p]) && PathAfter(hasPath, s.evs) == Some(s.hasPath)
  {
    var op := data[p];
    assert PathAfter(hasPath, CloseIfOpen(hasPath)) == Some(false) by {
      if hasPath {
        assert CloseIfOpen(hasPath)[1..] == [];
      }
    }
    if 0x90 <= op < 0xC0 {
      SegmentPointsShape(op);
      var s := Step(data, p, hasPath);
      assert s.evs[1..] == [];
    } else if op == 0x01 || op == 0x70 {
      var s := Step(data, p, hasPath);
      PathAfterAppend(hasPath, CloseIfOpen(hasPath), [s.evs[|s.evs| - 1]]);
      assert s.evs == CloseIfOpen(hasPath) + [s.evs[|s.evs| - 1]];
      assert [s.evs[|s.evs| - 1]][1..] == [];
    }
  }

  /**
    The opcodes `drawIcon` evidently means to handle: `case 0x80, 0x90:`
    taken as the two labels it lists, and 0x71, the move within an open path
    that the writer emits.
   */
  predicate HandledIntended(op: Byte)
  {
    Handled(op) || op == 0x71 || 0x80 <= op < 0x90
  }

  /**
    The loop body as intended: line ops 0x80..0x8F read 1 to 16 points, and
    0x71 starts a new figure within the path, a move with no close before it
    that leaves the open-path flag as it was; every other opcode is as in
    `Step`.
   */
  function StepIntended(data: seq<Byte>, p: nat, hasPath: bool): (s: StepResult)
    requires p < |data|
    ensures s.Continue? ==> p < s.next <= |data|
  {
    var op := data[p];
    if 0x80 <= op < 0x90 then
      var (pts, q) := PointsAt(data, p + 1, 1 + (op - 0x80));
      Continue([LineTo(pts)], q, true)
    else if op == 0x71 then
      var (pt, q) := PointAt(data, p + 1);
      Continue([MoveTo(pt)], q, hasPath)
    else Step(data, p, hasPath)
  }

  /**
    The intended loop body keeps the same protocol as `Step`, with the line
    ops 0x80..0x8F now handled: a line op of either half reads one point per
    step of its opcode above 0x7F. The one departure is 0x71: it moves to its
    point without a close, keeps the path open if it was, and only there
    does a move follow a segment with no `ClosePath` between them (the
    engine's `MoveTo` closes that figure itself).
   */
  lemma StepIntendedProtocol(data: seq<Byte>, p: nat, hasPath: bool)
    requires p < |data|
    ensures var s := StepIntended(data, p, hasPath);
      s.Halt? ==>
        PathAfter(hasPath, s.evs).Some?
        && (s.outcome.Stopped? ==> s.outcome.pos == p && data[p] == 0x00 && PathAfter(hasPath, s.evs) == Some(false))
        && (s.outcome.Rejected? ==> s.outcome.pos == p && s.outcome.op == data[p] && !HandledIntended(data[p]))
        && (s.outcome.Stopped? || s.outcome.Rejected?)
    ensures var s := StepIntended(data, p, hasPath);
      s.Continue? ==> HandledIntended(data[p]) && (data[p] != 0x71 || !hasPath ==> PathAfter(hasPath, s.evs) == Some(s.hasPath))
    ensures data[p] == 0x71 ==>
      var s := StepIntended(data, p, hasPath);
      s.Continue? && s.hasPath == hasPath && s.evs == [MoveTo(PointAt(data, p + 1).0)] && s.next == PointAt(data, p + 1).1
    ensures 0x80 <= data[p] < 0xA0 ==>
      StepIntended(data, p, hasPath).Continue? && StepIntended(data, p, hasPath).evs[0].LineTo?
      && |StepIntended(data, p, hasPath).evs[0].pts| == data[p] - 0x7F
  {
    var op := data[p];
    if 0x80 <= op < 0x90 || op == 0x71 {
      var s := StepIntended(data, p, hasPath);
      assert s.evs[1..] == [];
    } else {
      StepProtocol(data, p, hasPath);
      if 0x90 <= op < 0xA0 {
        SegmentPointsShape(op);
      }
    }
  }

  /**
    A whole run keeps the protocol from the state `hasPath` it starts in,
    closes the path when it ends on Stop, and ends on a Stop byte, on a byte
    the interpreter does not handle, or at the end of the data.
   */
  lemma {:induction false} RunProtocol(data: seq<Byte>, p: nat, hasPath: bool)
    requires p <= |data|
    ensures var t := Run(data, p, hasPath);
      PathAfter(hasPath, t.events).Some?
      && (t.outcome.Stopped? ==> p <= t.outcome.pos < |data| && data[t.outcome.pos] == 0x00
                                 && PathAfter(hasPath, t.events) == Some(false))
      && (t.outcome.Rejected? ==> p <= t.outcome.pos < |data| && data[t.outcome.pos] == t.outcome.op
                                  && !Handled(t.outcome.op))
      && (t.outcome.Stopped? || t.outcome.Rejected? || t.outcome.RanOut?)
    decreases |data| - p
  {
    if p < |data| {
      StepProtocol(data, p, hasPath);
      var s := Step(data, p, hasPath);
      if s.Continue? {
        RunProtocol(data, s.next, s.hasPath);
        PathAfterAppend(hasPath, s.evs, Run(data, s.next, s.hasPath).events);
      }
    }
  }

  /**
    `drawIcon` as a whole: true exactly for an offset past the blob or a
    Stop; no engine call at all for the first or when the view box leaves no
    program; otherwise `ViewBox` first, then calls that keep the path protocol
    from a closed path and leave it closed on Stop.
   */
  lemma DrawIconProtocol(data: seq<Byte>, ofs: nat)
    ensures var t := DrawIconAt(data, ofs);
      (Succeeded(t.outcome) <==> ofs > |data| || t.outcome.Stopped?)
      && (t.outcome.OffsetPastEnd? <==> ofs > |data|)
      && (t.outcome.OffsetPastEnd? || t.outcome.NoViewBox? ==> t.events == [])
      && (!t.outcome.OffsetPastEnd? && !t.outcome.NoViewBox? ==>
            |t.events| > 0 && t.events[0].ViewBox? && PathAfter(false, t.events[1..]).Some?
            && (t.outcome.Stopped? ==> PathAfter(false, t.events[1..]) == Some(false)))
  {
    if ofs <= |data| {
      var (xmin, q1) := CoordAt(data, ofs);
      var (ymin, q2) := CoordAt(data, q1);
      var (xmax, q3) := CoordAt(data, q2);
      var (ymax, q4) := CoordAt(data, q3);
      if q4 < |data| {
        RunProtocol(data, q4, false);
        var t := Run(data, q4, false);
        assert ([ViewBox(xmin, ymin, xmax, ymax)] + t.events)[1..] == t.events;
      }
    }
  }

  /** `detail::drawIcon`: returns true on Stop or an offset past the blob, and the engine calls made. */
  method DrawProgram(data: seq<Byte>, ofs: nat) returns (ok: bool, events: seq<Event>)
    ensures ok == Succeeded(DrawIconAt(data, ofs).outcome)
    ensures events == DrawIconAt(data, ofs).events
  {
    if ofs > |data| {
      return true, [];
    }
    var pm := new ProgMem(data, ofs);
    var xmin := pm.NextCoord();
    var ymin := pm.NextCoord();
    var xmax := pm.NextCoord();
    var ymax := pm.NextCoord();
    if !pm.Good() {
      return false, [];
    }
    events := [ViewBox(xmin, ymin, xmax, ymax)];
    var hasPath := false;
    while pm.Good()
      invariant pm.Valid() && pm.data == data
      invariant DrawIconAt(data, ofs).outcome == Run(data, pm.p, hasPath).outcome
      invariant DrawIconAt(data, ofs).events == events + Run(data, pm.p, hasPath).events
      decreases |data| - pm.p
    {
      ghost var before := events;
      ghost var at := pm.p;
      ghost var was := hasPath;
      var s := ExecuteOp(pm, hasPath);
      match s
      case Halt(o, evs) =>
        return Succeeded(o), events + evs;
      case Continue(evs, _, h) =>
        events := events + evs;
        hasPath := h;
        assert Run(data, at, was).events == evs + Run(data, pm.p, hasPath).events;
        assert before + (evs + Run(data, pm.p, hasPath).events) == events + Run(data, pm.p, hasPath).events;
    }
    return false, events;
  }

  // ---------------------------------------------------------------------------
  // DrawIcon: choosing the variant

  /** A variant fits a `dx` by `dy` box when neither of its dimensions exceeds the box. */
  predicate Fits(m: RawImage, dx: U16, dy: U16)
  {
    m.dx <= dx && m.dy <= dy
  }

  /** The variant `DrawIcon` picks, looking from `i` on: the first that fits, or the last one. */
  function FirstFitFrom(images: seq<RawImage>, dx: U16, dy: U16, i: nat): (k: nat)
    requires i < |images|
    ensures i <= k < |images|
    decreases |images| - i
  {
    if Fits(images[i], dx, dy) || i == |images| - 1 then i else FirstFitFrom(images, dx, dy, i + 1)
  }

  /**
    The choice is the first fit: every variant before it is too large, and
    it fits unless it is the last one.
   */
  lemma {:induction false} FirstFitIsFirst(images: seq<RawImage>, dx: U16, dy: U16, i: nat)
    requires i < |images|
    ensures var k := FirstFitFrom(images, dx, dy, i);
      (Fits(images[k], dx, dy) || k == |images| - 1)
      && forall j :: i <= j < k ==> !Fits(images[j], dx, dy)
    decreases |images| - i
  {
    if !Fits(images[i], dx, dy) && i < |images| - 1 {
      FirstFitIsFirst(images, dx, dy, i + 1);
    }
  }

  /**
    `DrawIcon`: false with no engine call for an icon without variants;
    otherwise `drawIcon` on the first variant that fits the box, or on the
    last variant when none does.
   */
  method DrawIcon(icon: IconData, dx: U16, dy: U16) returns (ok: bool, events: seq<Event>)
    ensures |icon.images| == 0 ==> !ok && events == []
    ensures |icon.images| > 0 ==>
      var m := icon.images[FirstFitFrom(icon.images, dx, dy, 0)];
      ok == Succeeded(DrawIconAt(icon.data, m.offset).outcome) && events == DrawIconAt(icon.data, m.offset).events
  {
    if |icon.images| == 0 {
      return false, [];
    }
    FirstFitIsFirst(icon.images, dx, dy, 0);
    var i := 0;
    while i < |icon.images|
      invariant 0 <= i <= |icon.images|
      invariant forall j :: 0 <= j < i ==> !Fits(icon.images[j], dx, dy)
    {
      var m := icon.images[i];
      if m.dx <= dx && m.dy <= dy {
        ok, events := DrawProgram(icon.data, m.offset);
        return;
      }
      i := i + 1;
    }
    ok, events := DrawProgram(icon.data, icon.images[|icon.images| - 1].offset);
  }
}
