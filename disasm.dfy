/**
  The Go disassembler (procsvg/disasm.go): the element reader that reads
  back what `PackElem.writeTo` writes, the program reader that lists a
  program's ops and points, and the pack dump around them.
 */
module Disasm {
  import opened Base
  import opened Coord
  import opened Pack
  import Prog
  import Trans

  // ---------------------------------------------------------------------------
  // readPackElem

  /** Why `readPackElem` gave up. */
  datatype ElemError =
    | ShortRead            // the reader ended inside the size or the body
    | InvalidSize          // "Invalid icon file size": the body is over 1 MiB
    | InvalidHeader        // "Invalid icon header"
    | ImageDataInvalid     // "Image data invalid": an image's data runs past the body
    | Garbage              // "Garbage after image data"

  /** One image header as read: width, height and data size. */
  datatype ImageInfo = ImageInfo(dx: U16, dy: U16, size: nat)

  /** The largest body `readPackElem` accepts. */
  const MaxBody: nat := 0x10_0000

  /** Header `i` of the header area `hdr`. */
  function InfoAt(hdr: seq<Byte>, i: nat): ImageInfo
    requires 8 * i + 8 <= |hdr|
  {
    ImageInfo(ReadLe16(hdr, 8 * i), ReadLe16(hdr, 8 * i + 2), ReadLe32(hdr, 8 * i + 4))
  }

  /** The first `n` headers of `hdr`. */
  function Infos(hdr: seq<Byte>, n: nat): (r: seq<ImageInfo>)
    requires 8 * n <= |hdr|
    ensures |r| == n
  {
    if n == 0 then [] else Infos(hdr, n - 1) + [InfoAt(hdr, n - 1)]
  }

  /** The data bytes the headers announce, together. */
  function Total(infos: seq<ImageInfo>): nat
    decreases |infos|
  {
    if |infos| == 0 then 0 else Total(infos[..|infos| - 1]) + infos[|infos| - 1].size
  }

  /** The images cut from `body` in header order, each right after the one before. */
  function ImagesOf(body: seq<Byte>, infos: seq<ImageInfo>): (r: seq<ProgImage>)
    requires Total(infos) <= |body|
    ensures |r| == |infos|
    decreases |infos|
  {
    if |infos| == 0 then []
    else
      var init := infos[..|infos| - 1];
      var last := infos[|infos| - 1];
      ImagesOf(body, init) + [ProgImage(last.dx, last.dy, body[Total(init)..Total(infos)])]
  }

  /** What `readPackElem` makes of a body it has read in full. */
  function ParseBody(data: seq<Byte>): Result<PackElem, ElemError>
  {
    if |data| == 0 then Err(InvalidHeader)
    else
      var e := data[0] as int + 1;
      if e + 1 > |data| then Err(InvalidHeader)
      else ParseImages(data[1..e], data[e], data[e + 1..])
  }

  /** The part of the body after the name and the image count `num`. */
  function ParseImages(name: seq<Byte>, num: nat, rest: seq<Byte>): Result<PackElem, ElemError>
  {
    if |rest| < 8 * num then Err(InvalidHeader)
    else
      var infos := Infos(rest, num);
      var body := rest[8 * num..];
      if Total(infos) > |body| then Err(ImageDataInvalid)
      else if Total(infos) < |body| then Err(Garbage)
      else Ok(PackElem(name, ImagesOf(body, infos)))
  }

  /**
    `readPackElem` on the bytes `s` the reader has left: the element and the
    number of bytes it took, or why it failed.
   */
  function ElemOf(s: seq<Byte>): (r: Result<(PackElem, nat), ElemError>)
    ensures r.Ok? ==> 4 <= r.value.1 <= |s|
  {
    if |s| < 4 then Err(ShortRead)
    else
      var fs := ReadLe32(s, 0);
      if fs > MaxBody then Err(InvalidSize)
      else if |s| - 4 < fs then Err(ShortRead)
      else
        match ParseBody(s[4..4 + fs])
        case Ok(e) => Ok((e, 4 + fs))
        case Err(x) => Err(x)
  }

  /** The header loop of `readPackElem`. */
  method ReadInfos(hdr: seq<Byte>, num: nat) returns (ii: seq<ImageInfo>)
    requires 8 * num <= |hdr|
    ensures ii == Infos(hdr, num)
  {
    ii := [];
    var data := hdr;
    var i := 0;
    while i < num
      invariant i <= num && |data| == |hdr| - 8 * i && data == hdr[8 * i..]
      invariant ii == Infos(hdr, i)
    {
      assert data[0..] == hdr[8 * i..];
      var dx := ReadLe16(data, 0);
      var dy := ReadLe16(data, 2);
      var bs := ReadLe32(data, 4);
      assert ImageInfo(dx, dy, bs) == InfoAt(hdr, i);
      data := data[8..];
      ii := ii + [ImageInfo(dx, dy, bs)];
      i := i + 1;
    }
  }

  lemma TotalSnoc(infos: seq<ImageInfo>, i: nat)
    requires i < |infos|
    ensures Total(infos[..i + 1]) == Total(infos[..i]) + infos[i].size
  {
    assert infos[..i + 1][..i] == infos[..i];
  }

  /** The data of more images is never less. */
  lemma {:induction false} TotalPrefix(infos: seq<ImageInfo>, i: nat)
    requires i <= |infos|
    ensures Total(infos[..i]) <= Total(infos)
    decreases |infos| - i
  {
    if i < |infos| {
      var init := infos[..|infos| - 1];
      assert init[..i] == infos[..i];
      TotalPrefix(init, i);
    } else {
      assert infos[..i] == infos;
    }
  }

  lemma ImagesOfSnoc(body: seq<Byte>, infos: seq<ImageInfo>, i: nat)
    requires i < |infos| && Total(infos[..i + 1]) <= |body|
    ensures Total(infos[..i]) + infos[i].size == Total(infos[..i + 1])
    ensures ImagesOf(body, infos[..i + 1])
      == ImagesOf(body, infos[..i]) + [ProgImage(infos[i].dx, infos[i].dy, body[Total(infos[..i])..Total(infos[..i + 1])])]
  {
    assert infos[..i + 1][..i] == infos[..i];
  }

  /**
    The image loop of `readPackElem`: it fails as soon as an image's data
    runs past what is left, which, sizes being non-negative, is exactly when
    all the data does not fit.
   */
  method TakeImages(body: seq<Byte>, infos: seq<ImageInfo>) returns (ok: bool, ims: seq<ProgImage>, left: seq<Byte>)
    ensures ok == (Total(infos) <= |body|)
    ensures ok ==> ims == ImagesOf(body, infos) && left == body[Total(infos)..]
  {
    ims := [];
    var data := body;
    var i := 0;
    while i < |infos|
      invariant i <= |infos| && Total(infos[..i]) <= |body|
      invariant data == body[Total(infos[..i])..]
      invariant ims == ImagesOf(body, infos[..i])
    {
      var inf := infos[i];
      TotalSnoc(infos, i);
      if |data| < inf.size {
        TotalPrefix(infos, i + 1);
        return false, [], [];
      }
      ImagesOfSnoc(body, infos, i);
      assert data[..inf.size] == body[Total(infos[..i])..Total(infos[..i + 1])];
      ims := ims + [ProgImage(inf.dx, inf.dy, data[..inf.size])];
      data := data[inf.size..];
      i := i + 1;
    }
    assert infos[..i] == infos;
    return true, ims, data;
  }

  /** `readPackElem` as the source writes it, on the bytes the reader has left. */
  method ReadPackElem(s: seq<Byte>) returns (res: Result<(PackElem, nat), ElemError>)
    ensures res == ElemOf(s)
  {
    if |s| < 4 {
      return Err(ShortRead);
    }
    var fs := ReadLe32(s, 0);
    if fs > MaxBody {
      return Err(InvalidSize);
    }
    if |s| - 4 < fs {
      return Err(ShortRead);
    }
    var pe := ReadBody(s[4..4 + fs]);
    match pe
    case Ok(e) => return Ok((e, 4 + fs));
    case Err(x) => return Err(x);
  }

  /** The part of `readPackElem` after the body is read in full. */
  method ReadBody(data: seq<Byte>) returns (res: Result<PackElem, ElemError>)
    ensures res == ParseBody(data)
  {
    if |data| == 0 {
      return Err(InvalidHeader);
    }
    var e := data[0] as int + 1;
    if e + 1 > |data| {
      return Err(InvalidHeader);
    }
    var name := data[1..e];
    var numimages := data[e] as int;
    var rest := data[e + 1..];
    if |rest| < numimages * 8 {
      return Err(InvalidHeader);
    }
    var ii := ReadInfos(rest, numimages);
    var ok, ims, left := TakeImages(rest[8 * numimages..], ii);
    if !ok {
      return Err(ImageDataInvalid);
    }
    if |left| != 0 {
      return Err(Garbage);
    }
    return Ok(PackElem(name, ims));
  }

  // ---------------------------------------------------------------------------
  // The element reader reads back what the writer writes

  /** The header the writer writes for `im`, as the reader sees it. */
  function InfoOf(im: ProgImage): ImageInfo
  {
    ImageInfo(ToU16(im.width), ToU16(im.height), ToU32(|im.data|))
  }

  function InfosOf(ims: seq<ProgImage>): (r: seq<ImageInfo>)
    ensures |r| == |ims|
    decreases |ims|
  {
    if |ims| == 0 then [] else InfosOf(ims[..|ims| - 1]) + [InfoOf(ims[|ims| - 1])]
  }

  /** An image whose size and data length the header fields hold without truncation. */
  predicate ImageFits(im: ProgImage)
  {
    0 <= im.width < 0x1_0000 && 0 <= im.height < 0x1_0000 && |im.data| < 0x1_0000_0000
  }

  predicate AllFit(ims: seq<ProgImage>)
  {
    forall i :: 0 <= i < |ims| ==> ImageFits(ims[i])
  }

  /**
    An element the reader can take back: a name of at most 255 bytes, at
    most 255 images, each fitting its header, and a body of at most 1 MiB.
   */
  predicate Readable(e: PackElem)
  {
    |e.name| <= 255 && |e.images| <= 255 && AllFit(e.images) && |ElemBytes(e)| <= MaxBody
  }

  lemma InfoAtHeader(pre: seq<Byte>, im: ProgImage, t: seq<Byte>)
    requires |pre| % 8 == 0
    ensures 8 * (|pre| / 8) + 8 <= |pre + ImageHeader(im) + t|
    ensures InfoAt(pre + ImageHeader(im) + t, |pre| / 8) == InfoOf(im)
  {
    var h := ImageHeader(im);
    var s := pre + h + t;
    var k := |pre|;
    assert 8 * (k / 8) == k;
    assert s[k..k + 8] == h;
    assert ReadLe16(s, k) == ReadLe16(h, 0);
    assert ReadLe16(s, k + 2) == ReadLe16(h, 2);
    assert ReadLe32(s, k + 4) == ReadLe32(h, 4);
    assert h[2..] == Le16(ToU16(im.height)) + Le32(ToU32(|im.data|));
    assert ReadLe16(h, 2) == ReadLe16(h[2..], 0);
    assert h[4..] == Le32(ToU32(|im.data|));
    assert ReadLe32(h, 4) == ReadLe32(h[4..], 0);
  }

  /** The header loop reads every header the writer wrote, whatever follows them. */
  lemma {:induction false} HeadersRead(ims: seq<ProgImage>, t: seq<Byte>)
    ensures 8 * |ims| <= |Headers(ims) + t|
    ensures Infos(Headers(ims) + t, |ims|) == InfosOf(ims)
    decreases |ims|
  {
    if |ims| > 0 {
      var n := |ims| - 1;
      var init := ims[..n];
      var t' := ImageHeader(ims[n]) + t;
      assert Headers(ims) + t == Headers(init) + t';
      HeadersRead(init, t');
      InfoAtHeader(Headers(init), ims[n], t);
      assert Headers(init) + ImageHeader(ims[n]) + t == Headers(ims) + t;
    }
  }

  lemma AllFitPrefix(ims: seq<ProgImage>, k: nat)
    requires AllFit(ims) && k <= |ims|
    ensures AllFit(ims[..k])
  {
    forall i | 0 <= i < k ensures ImageFits(ims[..k][i]) {
      assert ims[..k][i] == ims[i];
    }
  }

  /** The sizes the writer records add up to the data it writes. */
  lemma {:induction false} TotalOfInfos(ims: seq<ProgImage>)
    requires AllFit(ims)
    ensures Total(InfosOf(ims)) == |Datas(ims)|
    decreases |ims|
  {
    if |ims| > 0 {
      var n := |ims| - 1;
      var init := ims[..n];
      AllFitPrefix(ims, n);
      TotalOfInfos(init);
      TotalOfInfosSnoc(ims);
    }
  }

  lemma TotalOfInfosSnoc(ims: seq<ProgImage>)
    requires |ims| > 0 && ImageFits(ims[|ims| - 1])
    ensures Total(InfosOf(ims)) == Total(InfosOf(ims[..|ims| - 1])) + |ims[|ims| - 1].data|
    ensures Datas(ims) == Datas(ims[..|ims| - 1]) + ims[|ims| - 1].data
  {
    var n := |ims| - 1;
    var I := InfosOf(ims);
    assert I[..n] == InfosOf(ims[..n]);
  }

  /** The image loop cuts the writer's data back into the images, whatever follows. */
  lemma {:induction false} ImagesRead(ims: seq<ProgImage>, t: seq<Byte>)
    requires AllFit(ims)
    ensures Total(InfosOf(ims)) <= |Datas(ims) + t|
    ensures ImagesOf(Datas(ims) + t, InfosOf(ims)) == ims
    decreases |ims|
  {
    TotalOfInfos(ims);
    if |ims| > 0 {
      var n := |ims| - 1;
      AllFitPrefix(ims, n);
      ImagesRead(ims[..n], ims[n].data + t);
      TotalOfInfos(ims[..n]);
      TotalOfInfosSnoc(ims);
      ImagesReadSnoc(ims, t);
    } else {
      assert InfosOf(ims) == [];
    }
  }

  lemma ImagesReadSnoc(ims: seq<ProgImage>, t: seq<Byte>)
    requires |ims| > 0 && ImageFits(ims[|ims| - 1])
    requires Total(InfosOf(ims[..|ims| - 1])) == |Datas(ims[..|ims| - 1])|
    requires Total(InfosOf(ims)) == |Datas(ims)|
    requires Datas(ims) == Datas(ims[..|ims| - 1]) + ims[|ims| - 1].data
    requires ImagesOf(Datas(ims[..|ims| - 1]) + (ims[|ims| - 1].data + t), InfosOf(ims[..|ims| - 1])) == ims[..|ims| - 1]
    ensures Total(InfosOf(ims)) <= |Datas(ims) + t|
    ensures ImagesOf(Datas(ims) + t, InfosOf(ims)) == ims
  {
    var n := |ims| - 1;
    var init := ims[..n];
    var last := ims[n];
    var I := InfosOf(ims);
    var B := Datas(ims) + t;
    ConcatAssoc(Datas(init), last.data, t);
    InfosOfSnoc(ims);
    SliceAfter(Datas(init), last.data, t);
    ImagesOfStep(B, I, init, last);
    assert ims == init + [last];
  }

  /** One more header and its data add one image. */
  lemma ImagesOfStep(body: seq<Byte>, infos: seq<ImageInfo>, init: seq<ProgImage>, last: ProgImage)
    requires |infos| > 0 && Total(infos) <= |body|
    requires ImagesOf(body, infos[..|infos| - 1]) == init
    requires infos[|infos| - 1].dx == last.width && infos[|infos| - 1].dy == last.height
    requires body[Total(infos[..|infos| - 1])..Total(infos)] == last.data
    ensures ImagesOf(body, infos) == init + [last]
  {
  }

  lemma InfosOfSnoc(ims: seq<ProgImage>)
    requires |ims| > 0
    ensures InfosOf(ims)[..|ims| - 1] == InfosOf(ims[..|ims| - 1])
    ensures InfosOf(ims)[|ims| - 1] == InfoOf(ims[|ims| - 1])
  {
  }

  lemma SliceAfter<T>(a: seq<T>, b: seq<T>, t: seq<T>)
    ensures (a + (b + t))[|a|..|a| + |b|] == b
  {
  }

  /** The body the writer makes of a readable element parses back to it. */
  lemma ParseElemBytes(e: PackElem)
    requires Readable(e)
    ensures ParseBody(ElemBytes(e)) == Ok(e)
  {
    var n := WrittenName(e.name);
    var ims := e.images;
    var data := ElemBytes(e);
    var rest := Headers(ims) + Datas(ims);
    assert data == [|n|] + n + [|ims|] + rest;
    assert data[0] == |n|;
    assert data[1..|n| + 1] == n;
    assert data[|n| + 1] == |ims|;
    assert data[|n| + 2..] == rest;
    ParseImagesRead(n, ims);
  }

  lemma ParseImagesRead(name: seq<Byte>, ims: seq<ProgImage>)
    requires AllFit(ims)
    ensures ParseImages(name, |ims|, Headers(ims) + Datas(ims)) == Ok(PackElem(name, ims))
  {
    var rest := Headers(ims) + Datas(ims);
    HeadersRead(ims, Datas(ims));
    assert rest[8 * |ims|..] == Datas(ims);
    TotalOfInfos(ims);
    ImagesRead(ims, []);
    assert Datas(ims) + [] == Datas(ims);
  }

  /** A length-prefixed record reads back its length and its bytes. */
  lemma RecordRead(d: seq<Byte>, rest: seq<Byte>)
    requires |d| < 0x1_0000_0000
    ensures ReadLe32(Le32(ToU32(|d|)) + d + rest, 0) == |d|
    ensures (Le32(ToU32(|d|)) + d + rest)[4..4 + |d|] == d
  {
    var l := Le32(ToU32(|d|));
    assert l + d + rest == l + (d + rest);
    ReadLe32Prefix(l, d + rest, 0);
  }

  /** A size field within bounds and a body that parses make an element of that size. */
  lemma ElemOfAccepts(d: seq<Byte>, rest: seq<Byte>, e: PackElem)
    requires |d| <= MaxBody && ParseBody(d) == Ok(e)
    ensures ElemOf(Le32(ToU32(|d|)) + d + rest) == Ok((e, |Le32(ToU32(|d|)) + d|))
  {
    RecordRead(d, rest);
  }

  /**
    `readPackElem` reads back the record `PackElem.writeTo` writes for a
    readable element, whatever follows it, and takes exactly that record.
   */
  lemma ElemRoundTrip(e: PackElem, rest: seq<Byte>)
    requires Readable(e)
    ensures ElemOf(ElemRecord(e) + rest) == Ok((e, |ElemRecord(e)|))
  {
    ParseElemBytes(e);
    ElemOfAccepts(ElemBytes(e), rest, e);
  }

  // ---------------------------------------------------------------------------
  // The element reader accepts nothing but the writer's records

  /** What the image loop makes of `infos`: each image right after the one before. */
  lemma ImagesOfView(body: seq<Byte>, infos: seq<ImageInfo>)
    requires |infos| > 0 && Total(infos) <= |body|
    ensures Total(infos[..|infos| - 1]) <= Total(infos)
    ensures ImagesOf(body, infos)[..|infos| - 1] == ImagesOf(body, infos[..|infos| - 1])
    ensures ImagesOf(body, infos)[|infos| - 1]
      == ProgImage(infos[|infos| - 1].dx, infos[|infos| - 1].dy, body[Total(infos[..|infos| - 1])..Total(infos)])
  {
  }

  /** The images cut from `body` hold its first `Total(infos)` bytes, in order. */
  lemma {:induction false} DatasOfRead(body: seq<Byte>, infos: seq<ImageInfo>)
    requires Total(infos) <= |body|
    ensures Datas(ImagesOf(body, infos)) == body[..Total(infos)]
    decreases |infos|
  {
    if |infos| > 0 {
      var n := |infos| - 1;
      ImagesOfView(body, infos);
      DatasOfRead(body, infos[..n]);
      var a, b := Total(infos[..n]), Total(infos);
      assert body[..b] == body[..a] + body[a..b];
    } else {
      assert body[..0] == [];
    }
  }

  lemma InfosView(hdr: seq<Byte>, n: nat)
    requires 0 < n && 8 * n <= |hdr|
    ensures Infos(hdr, n)[..n - 1] == Infos(hdr, n - 1) && Infos(hdr, n)[n - 1] == InfoAt(hdr, n - 1)
  {
  }

  /** An image whose fields are those of header `i` is written as that header. */
  lemma ImageHeaderOfRead(hdr: seq<Byte>, i: nat, im: ProgImage)
    requires 8 * i + 8 <= |hdr| && Matches(im, InfoAt(hdr, i))
    ensures ImageHeader(im) == hdr[8 * i..8 * i + 8]
  {
    var j := 8 * i;
    Le16OfRead(hdr, j);
    Le16OfRead(hdr, j + 2);
    Le32OfRead(hdr, j + 4);
    assert ToU16(im.width) == im.width && ToU16(im.height) == im.height && ToU32(|im.data|) == |im.data|;
    assert ImageHeader(im) == hdr[j..j + 2] + hdr[j + 2..j + 4] + hdr[j + 4..j + 8];
    assert hdr[j..j + 8] == hdr[j..j + 2] + hdr[j + 2..j + 4] + hdr[j + 4..j + 8];
  }

  /** An image carries the size and data length a header announces. */
  predicate Matches(im: ProgImage, info: ImageInfo)
  {
    im.width == info.dx && im.height == info.dy && |im.data| == info.size
  }

  /** Each image cut from `body` is as its header announces. */
  lemma {:induction false} ImagesOfMatch(body: seq<Byte>, infos: seq<ImageInfo>)
    requires Total(infos) <= |body|
    ensures forall i | 0 <= i < |infos| :: Matches(ImagesOf(body, infos)[i], infos[i])
    decreases |infos|
  {
    if |infos| > 0 {
      var n := |infos| - 1;
      var ims := ImagesOf(body, infos);
      ImagesOfView(body, infos);
      ImagesOfMatch(body, infos[..n]);
      forall i | 0 <= i < |infos| ensures Matches(ims[i], infos[i]) {
        if i < n {
          assert ims[i] == ims[..n][i] && infos[i] == infos[..n][i];
        }
      }
    }
  }

  /** Header `i` among the first `n` is the one at offset `8 * i`. */
  lemma {:induction false} InfosAt(hdr: seq<Byte>, n: nat)
    requires 8 * n <= |hdr|
    ensures forall i | 0 <= i < n :: Infos(hdr, n)[i] == InfoAt(hdr, i)
  {
    if n > 0 {
      InfosAt(hdr, n - 1);
      InfosView(hdr, n);
      forall i | 0 <= i < n ensures Infos(hdr, n)[i] == InfoAt(hdr, i) {
        if i < n - 1 {
          assert Infos(hdr, n)[i] == Infos(hdr, n)[..n - 1][i];
        }
      }
    }
  }

  /** Images as the headers at the front of `hdr` announce are written back as those headers. */
  lemma {:induction false} HeadersOfMatching(ims: seq<ProgImage>, hdr: seq<Byte>)
    requires 8 * |ims| <= |hdr|
    requires forall i | 0 <= i < |ims| :: Matches(ims[i], InfoAt(hdr, i))
    ensures Headers(ims) == hdr[..8 * |ims|]
    decreases |ims|
  {
    var n := |ims|;
    if n > 0 {
      var init := ims[..n - 1];
      forall i | 0 <= i < n - 1 ensures Matches(init[i], InfoAt(hdr, i)) {
        assert init[i] == ims[i];
      }
      HeadersOfMatching(init, hdr);
      ImageHeaderOfRead(hdr, n - 1, ims[n - 1]);
      HeadersStep(ims, hdr[..8 * (n - 1)], hdr[8 * (n - 1)..8 * n]);
      assert hdr[..8 * n] == hdr[..8 * (n - 1)] + hdr[8 * (n - 1)..8 * n];
    } else {
      assert hdr[..0] == [];
    }
  }

  /** The images read with the first `n` headers are written back as those headers. */
  lemma HeadersOfRead(hdr: seq<Byte>, n: nat, body: seq<Byte>)
    requires 8 * n <= |hdr| && Total(Infos(hdr, n)) <= |body|
    ensures Headers(ImagesOf(body, Infos(hdr, n))) == hdr[..8 * n]
  {
    var infos := Infos(hdr, n);
    var ims := ImagesOf(body, infos);
    ImagesOfMatch(body, infos);
    InfosAt(hdr, n);
    forall i | 0 <= i < n ensures Matches(ims[i], InfoAt(hdr, i)) {
      assert Matches(ims[i], infos[i]);
    }
    HeadersOfMatching(ims, hdr);
  }

  lemma HeadersStep(ims: seq<ProgImage>, pre: seq<Byte>, h: seq<Byte>)
    requires |ims| > 0 && Headers(ims[..|ims| - 1]) == pre && ImageHeader(ims[|ims| - 1]) == h
    ensures Headers(ims) == pre + h
  {
  }

  /** An accepted image part is written back byte for byte. */
  lemma ParseImagesIsBytes(name: seq<Byte>, num: nat, rest: seq<Byte>, e: PackElem)
    requires ParseImages(name, num, rest) == Ok(e)
    ensures e.name == name && |e.images| == num
    ensures Headers(e.images) + Datas(e.images) == rest
  {
    var infos := Infos(rest, num);
    var body := rest[8 * num..];
    HeadersOfRead(rest, num, body);
    DatasOfRead(body, infos);
    assert body[..Total(infos)] == body;
    assert rest == rest[..8 * num] + body;
  }

  /** An accepted body has a name, an image count and an accepted image part. */
  lemma ParseBodyOk(data: seq<Byte>, e: PackElem)
    requires ParseBody(data) == Ok(e)
    ensures |data| > 0 && data[0] as int + 2 <= |data|
    ensures ParseImages(data[1..data[0] as int + 1], data[data[0] as int + 1], data[data[0] as int + 2..]) == Ok(e)
  {
  }

  /** The writer's body, given its name, image count and image part. */
  lemma ElemBytesOf(e: PackElem, num: Byte, rest: seq<Byte>)
    requires |e.name| <= 255 && |e.images| == num
    requires Headers(e.images) + Datas(e.images) == rest
    ensures ElemBytes(e) == [|e.name|] + e.name + [num] + rest
  {
    var ims := e.images;
    assert WrittenName(e.name) == e.name;
    ConcatAssoc([|e.name|] + e.name + [num], Headers(ims), Datas(ims));
  }

  /** An accepted body is written back byte for byte. */
  lemma ParseBodyIsBytes(data: seq<Byte>, e: PackElem)
    requires ParseBody(data) == Ok(e)
    ensures ElemBytes(e) == data
  {
    ParseBodyOk(data, e);
    PartsAreBytes(data, data[0] as int + 1, e);
  }

  lemma PartsAreBytes(data: seq<Byte>, k: nat, e: PackElem)
    requires 0 < |data| && k == data[0] as int + 1 && k < |data|
    requires ParseImages(data[1..k], data[k], data[k + 1..]) == Ok(e)
    ensures ElemBytes(e) == data
  {
    var rest := data[k + 1..];
    ParseImagesIsBytes(data[1..k], data[k], rest, e);
    ElemBytesOf(e, data[k], rest);
    SplitAround(data, k);
  }

  lemma SplitAround<T>(s: seq<T>, k: nat)
    requires 0 < k < |s|
    ensures s == [s[0]] + s[1..k] + [s[k]] + s[k + 1..]
  {
  }

  /** An accepted record has a size field within bounds and an accepted body. */
  lemma ElemOfOk(s: seq<Byte>, e: PackElem, k: nat)
    requires ElemOf(s) == Ok((e, k))
    ensures 4 <= k <= |s| && k == 4 + ReadLe32(s, 0) && ParseBody(s[4..k]) == Ok(e)
  {
  }

  /** A record whose size field gives its body's length is that length, then that body. */
  lemma RecordOfRead(s: seq<Byte>, d: seq<Byte>, k: nat)
    requires 4 <= k <= |s| && k == 4 + ReadLe32(s, 0) && d == s[4..k]
    ensures Le32(ToU32(|d|)) + d == s[..k]
  {
    Le32OfRead(s, 0);
    assert s[..k] == s[0..4] + s[4..k];
  }

  /**
    Whatever `readPackElem` accepts is exactly a record `PackElem.writeTo`
    writes for the element it returns: the two formats are inverse.
   */
  lemma ElemReadIsRecord(s: seq<Byte>, e: PackElem, k: nat)
    requires ElemOf(s) == Ok((e, k))
    ensures k <= |s| && s[..k] == ElemRecord(e)
  {
    ElemOfOk(s, e, k);
    ParseBodyIsBytes(s[4..k], e);
    RecordOfRead(s, ElemBytes(e), k);
  }

  // ---------------------------------------------------------------------------
  // ProgReader: the program disassembler

  /** A command as `stepCmd` names it. `SolidFill` holds the channels in the order they are printed. */
  datatype Cmd =
    | Stop
    | SolidFill(r: Byte, g: Byte, b: Byte, a: Byte)
    | MoveBegin
    | MoveCont
    | LineTo(n: nat)
    | CubicTo(nseg: nat)
    | QuadTo(nseg: nat)
    | Invalid

  /** One line of the listing: the bytes it covers and what they say. */
  datatype Line =
    | ViewBoxComment                                      // "# viewbox:"
    | CmdLine(dump: seq<Byte>, cmd: Cmd)
    | PointLine(dump: seq<Byte>, x: CoordValue, y: CoordValue)
    | RawLine(dump: seq<Byte>)                            // after INVALID: at most 8 bytes

  /** `ProgReader.Byte`: the byte at `pos` and the position after it; 0 without moving at the end. */
  function ByteAt(data: seq<Byte>, pos: nat): (r: (Byte, nat))
    ensures pos <= |data| ==> pos <= r.1 <= |data|
  {
    if pos >= |data| then (0, pos) else (data[pos], pos + 1)
  }

  /** `ProgReader.Coord`: the coordinate at `pos` and the position after the bytes it took. */
  function CoordAt(data: seq<Byte>, pos: nat): (r: (CoordValue, nat))
    requires pos <= |data|
    ensures pos <= r.1 <= |data|
  {
    var (c, n) := CoordFromBytes(data[pos..]);
    (c, pos + n)
  }

  /** `ProgReader.Point`: two coordinates, listed with the bytes they took. */
  function PointAt(data: seq<Byte>, pos: nat): (r: (Line, nat))
    requires pos <= |data|
    ensures pos <= r.1 <= |data|
  {
    var (x, p1) := CoordAt(data, pos);
    var (y, p2) := CoordAt(data, p1);
    (PointLine(data[pos..p2], x, y), p2)
  }

  /** `n` points one after the other. */
  function PointsAt(data: seq<Byte>, pos: nat, n: nat): (r: (seq<Line>, nat))
    requires pos <= |data|
    ensures pos <= r.1 <= |data| && |r.0| == n
  {
    if n == 0 then ([], pos)
    else
      var (ls, p) := PointsAt(data, pos, n - 1);
      var (l, q) := PointAt(data, p);
      (ls + [l], q)
  }

  lemma PointsSnoc(data: seq<Byte>, pos: nat, i: nat)
    requires pos <= |data|
    ensures var (ls, p) := PointsAt(data, pos, i);
      PointsAt(data, pos, i + 1) == (ls + [PointAt(data, p).0], PointAt(data, p).1)
  {
  }

  /**
    The SOLIDFILL operands as `stepCmd` reads them: into r, b, g, a in that
    order, then printed as r, g, b, a.
   */
  function FillAsRead(data: seq<Byte>, pos: nat): (r: (Cmd, nat))
    ensures pos <= |data| ==> pos <= r.1 <= |data|
  {
    var (r, p1) := ByteAt(data, pos);
    var (b, p2) := ByteAt(data, p1);
    var (g, p3) := ByteAt(data, p2);
    var (a, p4) := ByteAt(data, p3);
    (SolidFill(r, g, b, a), p4)
  }

  /**
    The command of opcode `op` (read just before `pos`), how many points
    follow it and where its points start. Opcodes are classified by their high
    nibble; lines take 0x80..0x9F, since Go's `case 0x80, 0x90:` lists both.
   */
  function CmdAt(data: seq<Byte>, op: Byte, pos: nat): (r: (Cmd, nat, nat))
    ensures pos <= |data| ==> pos <= r.2 <= |data|
  {
    var hi := op - op % 16;
    if hi == 0x00 then
      if op == 0x00 then (Stop, 0, pos)
      else if op == 0x01 then var (c, p) := FillAsRead(data, pos); (c, 0, p)
      else (Invalid, 0, pos)
    else if hi == 0x70 then
      if op == 0x70 then (MoveBegin, 1, pos)
      else if op == 0x71 then (MoveCont, 1, pos)
      else (Invalid, 0, pos)
    else if hi == 0x80 || hi == 0x90 then (LineTo(op - 0x80 + 1), op - 0x80 + 1, pos)
    else if hi == 0xa0 then (CubicTo(op - 0xa0 + 1), 3 * (op - 0xa0 + 1), pos)
    else if hi == 0xb0 then (QuadTo(op - 0xb0 + 1), 2 * (op - 0xb0 + 1), pos)
    else (Invalid, 0, pos)
  }

  /** `stepCmd` at `pos`: its lines, the position after them, and whether the command was invalid. */
  function StepCmdAt(data: seq<Byte>, pos: nat): (r: (seq<Line>, nat, bool))
    requires pos < |data|
    ensures pos < r.1 <= |data|
  {
    var (op, p1) := ByteAt(data, pos);
    var (cmd, n, pe) := CmdAt(data, op, p1);
    var (pts, q) := PointsAt(data, pe, n);
    ([CmdLine(data[pos..pe], cmd)] + pts, q, cmd == Invalid)
  }

  /** `step`: a command while the stream is valid, otherwise a raw line of at most 8 bytes; every step moves on. */
  function StepAt(data: seq<Byte>, pos: nat, invalid: bool): (r: (seq<Line>, nat, bool))
    requires pos <= |data|
    ensures pos < |data| ==> pos < r.1 <= |data|
    ensures pos == |data| ==> r == ([], pos, invalid)
    ensures invalid ==> r.2
  {
    if pos == |data| then ([], pos, invalid)
    else if !invalid then StepCmdAt(data, pos)
    else
      var e := if pos + 8 > |data| then |data| else pos + 8;
      ([RawLine(data[pos..e])], e, true)
  }

  /** `disasm`'s loop from `pos`: steps until the end of the data. */
  function RunFrom(data: seq<Byte>, pos: nat, invalid: bool): seq<Line>
    requires pos <= |data|
    decreases |data| - pos
  {
    if pos == |data| then []
    else
      var (ls, p, inv) := StepAt(data, pos, invalid);
      ls + RunFrom(data, p, inv)
  }

  /** `disasm`: the view box comment, the two view-box points, then the loop. */
  function DisasmOf(data: seq<Byte>): seq<Line>
  {
    var (l1, p1) := PointAt(data, 0);
    var (l2, p2) := PointAt(data, p1);
    [ViewBoxComment, l1, l2] + RunFrom(data, p2, false)
  }

  /** Go's `ProgReader`: the program, the read position, the invalid flag and the listing written so far. */
  class ProgReader {
    const data: seq<Byte>
    var pos: nat
    var invalid: bool
    var out: seq<Line>

    constructor (data: seq<Byte>)
      ensures this.data == data && pos == 0 && !invalid && out == []
    {
      this.data := data;
      pos := 0;
      invalid := false;
      out := [];
    }

    /** `Byte`: the next byte, or 0 at the end without moving; the position never passes the end. */
    method Byte() returns (c: Byte)
      requires pos <= |data|
      modifies this
      ensures (c, pos) == ByteAt(data, old(pos)) && pos <= |data|
      ensures invalid == old(invalid) && out == old(out)
    {
      if pos >= |data| {
        return 0;
      }
      c := data[pos];
      pos := pos + 1;
    }

    /** `Coord`: the coordinate at the position, moving past exactly the bytes it took (none when truncated). */
    method Coord() returns (c: CoordValue)
      requires pos <= |data|
      modifies this
      ensures (c, pos) == CoordAt(data, old(pos))
      ensures pos - old(pos) == CoordFromBytes(data[old(pos)..]).1
      ensures invalid == old(invalid) && out == old(out)
    {
      var (v, n) := CoordFromBytes(data[pos..]);
      pos := pos + n;
      return v;
    }

    /** `Point`: two coordinates, listed with the bytes they took. */
    method Point()
      requires pos <= |data|
      modifies this
      ensures (out, pos) == (old(out) + [PointAt(data, old(pos)).0], PointAt(data, old(pos)).1)
      ensures invalid == old(invalid)
    {
      var s := pos;
      var x := Coord();
      var y := Coord();
      out := out + [PointLine(data[s..pos], x, y)];
    }

    /** `stepCmd`: one command line, then as many point lines as the command takes. */
    method StepCmd()
      requires pos < |data|
      modifies this
      ensures var (ls, p, bad) := StepCmdAt(data, old(pos));
        out == old(out) + ls && pos == p && invalid == (old(invalid) || bad)
    {
      var s := pos;
      var op := Byte();
      var cmd, ncoords := ReadCmd(op);
      if cmd == Invalid {
        invalid := true;
      }
      out := out + [CmdLine(data[s..pos], cmd)];
      Points(ncoords);
    }

    /** The switch of `stepCmd` on the opcode `op` just read: the command and its point count. */
    method ReadCmd(op: Byte) returns (cmd: Cmd, ncoords: nat)
      requires pos <= |data|
      modifies this
      ensures (cmd, ncoords, pos) == CmdAt(data, op, old(pos))
      ensures invalid == old(invalid) && out == old(out)
    {
      cmd := Invalid;
      ncoords := 0;
      var hi := op - op % 16;
      if hi == 0x00 {
        if op == 0x00 {
          cmd := Stop;
        } else if op == 0x01 {
          var r := Byte();
          var b := Byte();
          var g := Byte();
          var a := Byte();
          cmd := SolidFill(r, g, b, a);
        }
      } else if hi == 0x70 {
        if op == 0x70 {
          ncoords := 1;
          cmd := MoveBegin;
        }
        if op == 0x71 {
          ncoords := 1;
          cmd := MoveCont;
        }
      } else if hi == 0x80 || hi == 0x90 {
        ncoords := op - 0x80 + 1;
        cmd := LineTo(ncoords);
      } else if hi == 0xa0 {
        ncoords := 3 * (op - 0xa0 + 1);
        cmd := CubicTo(op - 0xa0 + 1);
      } else if hi == 0xb0 {
        ncoords := 2 * (op - 0xb0 + 1);
        cmd := QuadTo(op - 0xb0 + 1);
      }
    }

    /** The point loop of `stepCmd`. */
    method Points(n: nat)
      requires pos <= |data|
      modifies this
      ensures out == old(out) + PointsAt(data, old(pos), n).0 && pos == PointsAt(data, old(pos), n).1
      ensures invalid == old(invalid)
    {
      ghost var pe, out0 := pos, out;
      var i := 0;
      while i < n
        invariant 0 <= i <= n && pe <= |data|
        invariant out == out0 + PointsAt(data, pe, i).0 && pos == PointsAt(data, pe, i).1
        invariant invalid == old(invalid)
      {
        ghost var done := PointsAt(data, pe, i).0;
        PointsSnoc(data, pe, i);
        ConcatAssoc(out0, done, [PointAt(data, pos).0]);
        Point();
        i := i + 1;
      }
    }

    /** `step`: nothing at the end; a command while valid; otherwise a raw line of at most 8 bytes. */
    method Step()
      requires pos <= |data|
      modifies this
      ensures var (ls, p, inv) := StepAt(data, old(pos), old(invalid));
        out == old(out) + ls && pos == p && invalid == inv
    {
      if pos == |data| {
        return;
      }
      if !invalid {
        StepCmd();
        return;
      }
      var e := pos + 8;
      if e > |data| {
        e := |data|;
      }
      out := out + [RawLine(data[pos..e])];
      pos := e;
    }
  }

  /** `disasm(w, data)`: the listing of a program, as the reader writes it. */
  method Disasm(data: seq<Byte>) returns (out: seq<Line>)
    ensures out == DisasmOf(data)
  {
    var r := new ProgReader(data);
    r.out := r.out + [ViewBoxComment];
    r.Point();
    r.Point();
    ghost var head := r.out;
    assert head == [ViewBoxComment, PointAt(data, 0).0, PointAt(data, PointAt(data, 0).1).0];
    ghost var start := r.pos;
    while r.pos < |r.data|
      invariant r.pos <= |r.data| && r.data == data
      invariant r.out + RunFrom(data, r.pos, r.invalid) == head + RunFrom(data, start, false)
      decreases |r.data| - r.pos
    {
      ghost var p0, inv0, out0 := r.pos, r.invalid, r.out;
      r.Step();
      ConcatAssoc(out0, StepAt(data, p0, inv0).0, RunFrom(data, r.pos, r.invalid));
    }
    out := r.out;
  }

  // ---------------------------------------------------------------------------
  // The listing covers the program

  /** The bytes a listed line shows. */
  function LineBytes(l: Line): seq<Byte>
  {
    if l.ViewBoxComment? then [] else l.dump
  }

  /** The bytes of a listing, line after line. */
  function Shown(ls: seq<Line>): seq<Byte>
    decreases |ls|
  {
    if |ls| == 0 then [] else Shown(ls[..|ls| - 1]) + LineBytes(ls[|ls| - 1])
  }

  lemma {:induction false} ShownConcat(a: seq<Line>, b: seq<Line>)
    ensures Shown(a + b) == Shown(a) + Shown(b)
    decreases |b|
  {
    if |b| == 0 {
      assert a + b == a;
    } else {
      var n := |b| - 1;
      assert (a + b)[..|a + b| - 1] == a + b[..n];
      ShownConcat(a, b[..n]);
      ConcatAssoc(Shown(a), Shown(b[..n]), LineBytes(b[n]));
    }
  }

  lemma ShownSnoc(ls: seq<Line>, l: Line)
    ensures Shown(ls + [l]) == Shown(ls) + LineBytes(l)
  {
    assert (ls + [l])[..|ls|] == ls;
  }

  lemma SliceJoin(data: seq<Byte>, a: nat, b: nat, c: nat)
    requires a <= b <= c <= |data|
    ensures data[a..b] + data[b..c] == data[a..c]
  {
  }

  lemma PointShown(data: seq<Byte>, p: nat)
    requires p <= |data|
    ensures LineBytes(PointAt(data, p).0) == data[p..PointAt(data, p).1]
  {
  }

  lemma {:induction false} PointsShown(data: seq<Byte>, pos: nat, n: nat)
    requires pos <= |data|
    ensures Shown(PointsAt(data, pos, n).0) == data[pos..PointsAt(data, pos, n).1]
  {
    if n > 0 {
      PointsShown(data, pos, n - 1);
      var r := PointsAt(data, pos, n - 1);
      var t := PointAt(data, r.1);
      assert PointsAt(data, pos, n) == (r.0 + [t.0], t.1);
      ShownSnoc(r.0, t.0);
      PointShown(data, r.1);
      SliceJoin(data, pos, r.1, t.1);
    }
  }

  lemma CmdShown(data: seq<Byte>, pos: nat, pe: nat, cmd: Cmd)
    requires pos <= pe <= |data|
    ensures Shown([CmdLine(data[pos..pe], cmd)]) == data[pos..pe]
  {
    ShownSnoc([], CmdLine(data[pos..pe], cmd));
  }

  lemma StepShown(data: seq<Byte>, pos: nat, invalid: bool)
    requires pos < |data|
    ensures Shown(StepAt(data, pos, invalid).0) == data[pos..StepAt(data, pos, invalid).1]
  {
    if !invalid {
      var b := ByteAt(data, pos);
      var c := CmdAt(data, b.0, b.1);
      var pts := PointsAt(data, c.2, c.1);
      var head := [CmdLine(data[pos..c.2], c.0)];
      assert StepAt(data, pos, invalid) == (head + pts.0, pts.1, c.0 == Invalid);
      CmdShown(data, pos, c.2, c.0);
      PointsShown(data, c.2, c.1);
      ShownConcat(head, pts.0);
      SliceJoin(data, pos, c.2, pts.1);
    } else {
      var e := if pos + 8 > |data| then |data| else pos + 8;
      ShownSnoc([], RawLine(data[pos..e]));
    }
  }

  /**
    Every byte from `pos` on appears in the listing exactly once and in order:
    each line shows the bytes it consumed, and the next line starts where it
    stopped.
   */
  lemma {:induction false} RunShown(data: seq<Byte>, pos: nat, invalid: bool)
    requires pos <= |data|
    ensures Shown(RunFrom(data, pos, invalid)) == data[pos..]
    decreases |data| - pos
  {
    if pos < |data| {
      var st := StepAt(data, pos, invalid);
      assert RunFrom(data, pos, invalid) == st.0 + RunFrom(data, st.1, st.2);
      StepShown(data, pos, invalid);
      RunShown(data, st.1, st.2);
      ShownThen(data, pos, st.0, st.1, RunFrom(data, st.1, st.2));
    }
  }

  /** Lines showing `data[pos..p]` followed by lines showing the rest show all of `data[pos..]`. */
  lemma ShownThen(data: seq<Byte>, pos: nat, a: seq<Line>, p: nat, b: seq<Line>)
    requires pos <= p <= |data|
    requires Shown(a) == data[pos..p] && Shown(b) == data[p..]
    ensures Shown(a + b) == data[pos..]
  {
    ShownConcat(a, b);
    SliceRest(data, pos, p);
  }

  lemma SliceRest(data: seq<Byte>, pos: nat, p: nat)
    requires pos <= p <= |data|
    ensures data[pos..p] + data[p..] == data[pos..]
  {
  }

  lemma ShownThree(a: Line, b: Line, c: Line)
    ensures Shown([a, b, c]) == LineBytes(a) + LineBytes(b) + LineBytes(c)
  {
    var none: seq<Line> := [];
    ThreeSnocs(none, a, b, c);
    ShownSnoc(none, a);
    ShownSnoc([a], b);
    ShownSnoc([a, b], c);
  }

  lemma ThreeSnocs<T>(none: seq<T>, a: T, b: T, c: T)
    requires none == []
    ensures none + [a] == [a] && [a] + [b] == [a, b] && [a, b] + [c] == [a, b, c]
  {
  }

  /** The view-box comment and the two view-box points show the bytes before the loop. */
  lemma HeadShown(data: seq<Byte>)
    ensures var t1 := PointAt(data, 0); var t2 := PointAt(data, t1.1);
      Shown([ViewBoxComment, t1.0, t2.0]) == data[0..t2.1]
  {
    var t1 := PointAt(data, 0);
    var t2 := PointAt(data, t1.1);
    PointShown(data, 0);
    PointShown(data, t1.1);
    TwoPointsShown(data, t1.0, t1.1, t2.0, t2.1);
  }

  lemma TwoPointsShown(data: seq<Byte>, l1: Line, p1: nat, l2: Line, p2: nat)
    requires p1 <= p2 <= |data|
    requires LineBytes(l1) == data[0..p1] && LineBytes(l2) == data[p1..p2]
    ensures Shown([ViewBoxComment, l1, l2]) == data[0..p2]
  {
    ShownThree(ViewBoxComment, l1, l2);
    SliceJoin(data, 0, p1, p2);
  }

  /** `disasm` lists the whole program: its lines show every byte once, in order. */
  lemma DisasmShowsAll(data: seq<Byte>)
    ensures Shown(DisasmOf(data)) == data
  {
    var t1 := PointAt(data, 0);
    var t2 := PointAt(data, t1.1);
    var head := [ViewBoxComment, t1.0, t2.0];
    var tail := RunFrom(data, t2.1, false);
    assert DisasmOf(data) == head + tail;
    HeadShown(data);
    RunShown(data, t2.1, false);
    ShownThen(data, 0, head, t2.1, tail);
    assert data[0..] == data;
  }

  /** A line of the dump after the stream turned invalid. */
  predicate RawChunk(l: Line)
  {
    l.RawLine? && 1 <= |l.dump| <= 8
  }

  /** Once INVALID, the rest is listed only as raw chunks of one to eight bytes. */
  lemma {:induction false} InvalidStaysRaw(data: seq<Byte>, pos: nat)
    requires pos <= |data|
    ensures forall i :: 0 <= i < |RunFrom(data, pos, true)| ==> RawChunk(RunFrom(data, pos, true)[i])
    decreases |data| - pos
  {
    if pos < |data| {
      var (ls, p, inv) := StepAt(data, pos, true);
      InvalidStaysRaw(data, p);
      var rest := RunFrom(data, p, true);
      assert RunFrom(data, pos, true) == ls + rest;
      assert |ls| == 1 && RawChunk(ls[0]);
    }
  }

  // ---------------------------------------------------------------------------
  // What the program reader accepts

  /** The opcodes `stepCmd` knows: stop, solid fill, the two moves, and lines, cubics and quadratics. */
  predicate Known(op: Byte)
  {
    op == 0x00 || op == 0x01 || op == 0x70 || op == 0x71 || 0x80 <= op < 0xc0
  }

  /** The points that follow a known opcode: one per line step, three per cubic and two per quadratic segment. */
  function PointCount(op: Byte): nat
  {
    if op == 0x70 || op == 0x71 then 1
    else if 0x80 <= op < 0xa0 then op - 0x7f
    else if 0xa0 <= op < 0xb0 then 3 * (op - 0x9f)
    else if 0xb0 <= op < 0xc0 then 2 * (op - 0xaf)
    else 0
  }

  /**
    `stepCmd`'s classification by high nibble agrees with the ranges: an
    opcode is INVALID exactly when it is not known; a known one is followed by
    its point count; only SOLIDFILL reads operand bytes, four of them (fewer
    at the end of the data).
   */
  lemma CmdClasses(data: seq<Byte>, op: Byte, pos: nat)
    requires pos <= |data|
    ensures var (cmd, n, pe) := CmdAt(data, op, pos);
      (cmd != Invalid <==> Known(op)) && n == PointCount(op)
      && pe == (if op != 0x01 then pos else if pos + 4 <= |data| then pos + 4 else |data|)
  {
  }

  /** An op as the writer shapes it: a move with one point, or a run of lines, cubics or quadratics. */
  predicate WriterShaped<T>(op: Prog.Op<T>)
  {
    Prog.OpShaped(op, 0x70, 1, 1) || Prog.OpShaped(op, 0x71, 1, 1)
    || Prog.OpShaped(op, 0x80, 0x20, 1) || Prog.OpShaped(op, 0xa0, 0x10, 3) || Prog.OpShaped(op, 0xb0, 0x10, 2)
  }

  /** Every op the writer shapes is known to the reader, which expects exactly the points it carries. */
  lemma WriterOpsKnown<T>(op: Prog.Op<T>)
    requires WriterShaped(op)
    ensures Known(op.code) && op.code != 0x00 && op.code != 0x01 && PointCount(op.code) == |op.pts|
  {
  }

  /** A coordinate the writer encoded is read back over exactly its bytes. */
  lemma CoordAtEncoded(d: seq<Byte>, pos: nat, v: real, prec: real, bits32: real -> U32)
    requires var enc := EncodeCoord(v, prec, bits32);
      pos + |enc| <= |d| && d[pos..pos + |enc|] == enc
    ensures CoordAt(d, pos).1 == pos + |EncodeCoord(v, prec, bits32)|
  {
    var enc := EncodeCoord(v, prec, bits32);
    var rest := d[pos + |enc|..];
    assert d[pos..] == enc + rest;
    EncodedLengthIsRead(v, prec, bits32, rest);
  }

  /** A point the writer encoded is listed with exactly its bytes. */
  lemma PointAtEncoded(d: seq<Byte>, pos: nat, m: Trans.Matrix, pt: Trans.Point, prec: real, bits32: real -> U32, pb: seq<Byte>)
    requires pb == Prog.PointBytes(m, pt, prec, bits32)
    requires pos + |pb| <= |d| && d[pos..pos + |pb|] == pb
    ensures PointAt(d, pos).1 == pos + |pb| && PointAt(d, pos).0.dump == pb
  {
    var q := Trans.Transform(m, pt);
    var ex := EncodeCoord(q.x, prec, bits32);
    var ey := EncodeCoord(q.y, prec, bits32);
    assert Prog.PointBytes(m, pt, prec, bits32) == ex + ey;
    PrefixOfSlice(d, pos, ex, ey);
    CoordAtEncoded(d, pos, q.x, prec, bits32);
    CoordAtEncoded(d, pos + |ex|, q.y, prec, bits32);
  }

  /** The two halves of a slice that holds `a + b`. */
  lemma PrefixOfSlice(d: seq<Byte>, pos: nat, a: seq<Byte>, b: seq<Byte>)
    requires pos + |a| + |b| <= |d| && d[pos..pos + |a| + |b|] == a + b
    ensures d[pos..pos + |a|] == a && d[pos + |a|..pos + |a| + |b|] == b
  {
    assert d[pos..pos + |a|] == (a + b)[..|a|];
    assert d[pos + |a|..pos + |a| + |b|] == (a + b)[|a|..];
  }

  /** One more point: the points read so far end where `a` ends, the next one where `b` does. */
  lemma PointsStep(d: seq<Byte>, pos: nat, k: nat, a: seq<Byte>, b: seq<Byte>, pb: seq<Byte>)
    requires 0 < k && pos + |a| + |b| <= |d| && pb == a + b
    requires PointsAt(d, pos, k - 1).1 == pos + |a|
    requires PointAt(d, pos + |a|).1 == pos + |a| + |b|
    ensures PointsAt(d, pos, k).1 == pos + |pb|
  {
  }

  /** Wherever the bytes `b` stand in `d`, the reader takes one point over exactly them. */
  predicate ReadsAsPoint(d: seq<Byte>, b: seq<Byte>)
  {
    forall q: nat :: q + |b| <= |d| && d[q..q + |b|] == b ==> PointAt(d, q).1 == q + |b|
  }

  lemma PointReads(d: seq<Byte>, m: Trans.Matrix, pt: Trans.Point, prec: real, bits32: real -> U32)
    ensures ReadsAsPoint(d, Prog.PointEncoder(m, prec, bits32)(pt))
  {
    var b := Prog.PointBytes(m, pt, prec, bits32);
    forall q: nat | q + |b| <= |d| && d[q..q + |b|] == b
      ensures PointAt(d, q).1 == q + |b|
    {
      PointAtEncoded(d, q, m, pt, prec, bits32, b);
    }
  }

  /** Points whose encodings each read back as one point are read back over exactly their concatenation. */
  lemma {:induction false} PointsAtFlat<T>(d: seq<Byte>, pos: nat, f: T -> seq<Byte>, pts: seq<T>, pb: seq<Byte>)
    requires pb == Flat(f, pts)
    requires pos + |pb| <= |d| && d[pos..pos + |pb|] == pb
    requires forall i :: 0 <= i < |pts| ==> ReadsAsPoint(d, f(pts[i]))
    ensures PointsAt(d, pos, |pts|).1 == pos + |pb|
    decreases |pts|
  {
    if |pts| == 0 {
      assert pb == [];
    } else {
      var n := |pts| - 1;
      var a := Flat(f, pts[..n]);
      var b := f(pts[n]);
      assert pb == a + b;
      PrefixOfSlice(d, pos, a, b);
      PointsAtFlat(d, pos, f, pts[..n], a);
      assert |pts[..n]| == n;
      assert ReadsAsPoint(d, b);
      PointsStep(d, pos, |pts|, a, b, pb);
    }
  }

  /** The points of `Pts` are listed one line each, over exactly their bytes. */
  lemma PointsAtEncoded(d: seq<Byte>, pos: nat, m: Trans.Matrix, pts: seq<Trans.Point>, prec: real, bits32: real -> U32, pb: seq<Byte>)
    requires pb == Flat(Prog.PointEncoder(m, prec, bits32), pts)
    requires pos + |pb| <= |d| && d[pos..pos + |pb|] == pb
    ensures PointsAt(d, pos, |pts|).1 == pos + |pb|
  {
    var f := Prog.PointEncoder(m, prec, bits32);
    forall i | 0 <= i < |pts|
      ensures ReadsAsPoint(d, f(pts[i]))
    {
      PointReads(d, m, pts[i], prec, bits32);
    }
    PointsAtFlat(d, pos, f, pts, pb);
  }

  /**
    The reader takes an op the writer shaped as one valid command followed by
    one line per point, and ends exactly where the op's bytes end.
   */
  lemma StepCmdEncoded(d: seq<Byte>, pos: nat, m: Trans.Matrix, op: Prog.Op<Trans.Point>, prec: real, bits32: real -> U32)
    requires WriterShaped(op)
    requires var ob := Prog.OpBytes(Prog.PointEncoder(m, prec, bits32), op);
      pos + |ob| <= |d| && d[pos..pos + |ob|] == ob
    ensures var ob := Prog.OpBytes(Prog.PointEncoder(m, prec, bits32), op);
      var (ls, p, bad) := StepCmdAt(d, pos);
      p == pos + |ob| && !bad && |ls| == 1 + |op.pts|
  {
    var f := Prog.PointEncoder(m, prec, bits32);
    var pb := Flat(f, op.pts);
    assert Prog.OpBytes(f, op) == [op.code] + pb;
    PrefixOfSlice(d, pos, [op.code], pb);
    assert d[pos] == op.code;
    WriterOpsKnown(op);
    CmdClasses(d, op.code, pos + 1);
    PointsAtEncoded(d, pos + 1, m, op.pts, prec, bits32, pb);
  }

  // ---------------------------------------------------------------------------
  // SOLIDFILL operands

  /** With the writer's colour bytes R, G, B, A, `stepCmd` lists green and blue swapped. */
  lemma FillSwapsGreenBlue(c: Prog.NRGBA, rest: seq<Byte>)
    ensures FillAsRead([c.r, c.g, c.b, c.a] + rest, 0) == (SolidFill(c.r, c.b, c.g, c.a), 4)
    ensures c.g != c.b ==> FillAsRead([c.r, c.g, c.b, c.a] + rest, 0).0 != SolidFill(c.r, c.g, c.b, c.a)
  {
  }

  /** The colour (0, 1, 2, 255) is listed as (0, 2, 1, 255). */
  lemma FillSwapExample()
    ensures StepCmdAt([0x01, 0, 1, 2, 255], 0).0[0].cmd == SolidFill(0, 2, 1, 255)
  {
    FillSwapsGreenBlue(Prog.NRGBA(0, 1, 2, 255), []);
    assert [0x01, 0, 1, 2, 255][1..] == [0, 1, 2, 255] + [];
  }

  /** The operands in the order the writer's `Color` puts them: R, G, B, A. */
  function FillIntended(data: seq<Byte>, pos: nat): (r: (Cmd, nat))
    ensures pos <= |data| ==> pos <= r.1 <= |data|
  {
    var (r, p1) := ByteAt(data, pos);
    var (g, p2) := ByteAt(data, p1);
    var (b, p3) := ByteAt(data, p2);
    var (a, p4) := ByteAt(data, p3);
    (SolidFill(r, g, b, a), p4)
  }

  /** Read in the writer's order, every colour comes back as written, over its four bytes. */
  lemma FillIntendedRoundTrip(c: Prog.NRGBA, rest: seq<Byte>)
    ensures FillIntended([c.r, c.g, c.b, c.a] + rest, 0) == (SolidFill(c.r, c.g, c.b, c.a), 4)
  {
  }

  /** The two readings differ exactly by exchanging the second and third operand. */
  lemma FillReadingsSwap(data: seq<Byte>, pos: nat)
    requires pos + 4 <= |data|
    ensures FillAsRead(data, pos).1 == FillIntended(data, pos).1 == pos + 4
    ensures FillAsRead(data, pos).0.g == FillIntended(data, pos).0.b
    ensures FillAsRead(data, pos).0.b == FillIntended(data, pos).0.g
  {
  }

  // ---------------------------------------------------------------------------
  // DumpPack

  /** The lines `DumpPack` writes, as values. */
  datatype DumpItem =
    | IOError(err: ElemError)            // "# I/O ERROR"; a short pack header counts as a short read
    | BadHeader(tag: seq<Byte>)          // "# invalid header"
    | IconCount(n: U32)                  // "# n icons"
    | IconImage(name: seq<Byte>, width: int, height: int, data: seq<Byte>)  // "ICON name w×h", then the listing `DisasmOf(data)`

  /** One `ICON` line and listing per image, in order. */
  function ImageDumps(name: seq<Byte>, ims: seq<ProgImage>): (r: seq<DumpItem>)
    ensures |r| == |ims|
    decreases |ims|
  {
    if |ims| == 0 then []
    else
      var m := ims[|ims| - 1];
      ImageDumps(name, ims[..|ims| - 1]) + [IconImage(name, m.width, m.height, m.data)]
  }

  /** A reader of one element that, when it succeeds, consumes no more than it was given. */
  ghost predicate StaysWithin(read: seq<Byte> -> Result<(PackElem, nat), ElemError>)
  {
    forall t :: read(t).Ok? ==> read(t).value.1 <= |t|
  }

  /** `k` more elements read from `pos` by `read`, up to the first that fails. */
  function DumpLoop(s: seq<Byte>, pos: nat, k: nat, read: seq<Byte> -> Result<(PackElem, nat), ElemError>): seq<DumpItem>
    requires pos <= |s| && StaysWithin(read)
    decreases k
  {
    if k == 0 then []
    else
      match read(s[pos..])
      case Err(x) => [IOError(x)]
      case Ok((e, len)) => ImageDumps(e.name, e.images) + DumpLoop(s, pos + len, k - 1, read)
  }

  /** `k` more elements read from `pos`, up to the first that fails. */
  function ElemsDump(s: seq<Byte>, pos: nat, k: nat): seq<DumpItem>
    requires pos <= |s|
  {
    DumpLoop(s, pos, k, ElemOf)
  }

  /** Everything `DumpPack` writes for the stream `s`. */
  function DumpOf(s: seq<Byte>): seq<DumpItem>
  {
    if |s| < 8 then [IOError(ShortRead)]
    else if s[..4] != PackMagic then [BadHeader(s[..4])]
    else [IconCount(ReadLe32(s, 4))] + ElemsDump(s, 8, ReadLe32(s, 4))
  }

  lemma DumpLoopStep(s: seq<Byte>, pos: nat, k: nat, read: seq<Byte> -> Result<(PackElem, nat), ElemError>,
                     e: PackElem, len: nat, next: nat, rest: nat)
    requires pos <= |s| && 0 < k && StaysWithin(read) && read(s[pos..]) == Ok((e, len))
    requires next == pos + len && rest == k - 1
    ensures next <= |s|
    ensures DumpLoop(s, pos, k, read) == ImageDumps(e.name, e.images) + DumpLoop(s, next, rest, read)
  {
    assert read(s[pos..]).value.1 <= |s[pos..]|;
  }

  lemma ElemsDumpStep(s: seq<Byte>, pos: nat, k: nat, e: PackElem, len: nat, next: nat, rest: nat)
    requires pos <= |s| && 0 < k && ElemOf(s[pos..]) == Ok((e, len))
    requires next == pos + len && rest == k - 1
    ensures next <= |s|
    ensures ElemsDump(s, pos, k) == ImageDumps(e.name, e.images) + ElemsDump(s, next, rest)
  {
    DumpLoopStep(s, pos, k, ElemOf, e, len, next, rest);
  }

  /** The listing loop over one element's images. */
  method DumpImages(name: seq<Byte>, ims: seq<ProgImage>) returns (out: seq<DumpItem>)
    ensures out == ImageDumps(name, ims)
  {
    out := [];
    var j := 0;
    while j < |ims|
      invariant j <= |ims|
      invariant out == ImageDumps(name, ims[..j])
    {
      var m := ims[j];
      assert ims[..j + 1][..j] == ims[..j];
      out := out + [IconImage(name, m.width, m.height, m.data)];
      j := j + 1;
    }
    assert ims[..j] == ims;
  }

  lemma ElemsDumpErr(s: seq<Byte>, pos: nat, k: nat, x: ElemError)
    requires pos <= |s| && 0 < k && ElemOf(s[pos..]) == Err(x)
    ensures ElemsDump(s, pos, k) == [IOError(x)]
  {
  }

  /**
    One pass of `DumpPack`'s loop: the element at `pos` listed, or the error
    that ends the dump; `rest` is the number of elements still to read after it.
   */
  method DumpElem(s: seq<Byte>, pos: nat, k: nat) returns (items: seq<DumpItem>, next: nat, rest: nat, stop: bool)
    requires pos <= |s| && 0 < k
    ensures next <= |s| && rest == k - 1
    ensures stop ==> ElemsDump(s, pos, k) == items
    ensures !stop ==> ElemsDump(s, pos, k) == items + ElemsDump(s, next, rest)
  {
    var pe := ReadPackElem(s[pos..]);
    rest := k - 1;
    if pe.Err? {
      ElemsDumpErr(s, pos, k, pe.error);
      items, next, stop := [IOError(pe.error)], pos, true;
      return;
    }
    var e, len := pe.value.0, pe.value.1;
    next := pos + len;
    ElemsDumpStep(s, pos, k, e, len, next, rest);
    items := DumpImages(e.name, e.images);
    stop := false;
  }

  /** `DumpPack`'s loop: `k` elements from `pos`, stopping at the first error; `left` counts the elements still to read. */
  method DumpElems(s: seq<Byte>, pos0: nat, k: nat) returns (out: seq<DumpItem>)
    requires pos0 <= |s|
    ensures out == ElemsDump(s, pos0, k)
  {
    out := [];
    var pos: nat := pos0;
    var left: nat := k;
    while left > 0
      invariant pos <= |s|
      invariant out + ElemsDump(s, pos, left) == ElemsDump(s, pos0, k)
    {
      var items, next, rest, stop := DumpElem(s, pos, left);
      if stop {
        out := out + items;
        return;
      }
      Accumulates(out, items, ElemsDump(s, pos, left), ElemsDump(s, next, rest), ElemsDump(s, pos0, k));
      out := out + items;
      pos := next;
      left := rest;
    }
  }

  lemma Accumulates<T>(out: seq<T>, items: seq<T>, now: seq<T>, rest: seq<T>, total: seq<T>)
    requires out + now == total && now == items + rest
    ensures (out + items) + rest == total
  {
  }

  /** `DumpPack`: the header check, then the header count of elements, each image listed. */
  method DumpPack(s: seq<Byte>) returns (out: seq<DumpItem>)
    ensures out == DumpOf(s)
  {
    if |s| < 8 {
      return [IOError(ShortRead)];
    }
    if s[..4] != PackMagic {
      return [BadHeader(s[..4])];
    }
    var n := ReadLe32(s, 4);
    var items := DumpElems(s, 8, n);
    out := [IconCount(n)] + items;
  }

  /** A pack stream opens with the magic and the element count. */
  lemma DumpHeaderCheck(s: seq<Byte>)
    requires 8 <= |s|
    ensures DumpOf(s)[0] == (if s[..4] == PackMagic then IconCount(ReadLe32(s, 4)) else BadHeader(s[..4]))
    ensures s[..4] != PackMagic ==> |DumpOf(s)| == 1
  {
  }

  /** The first four bytes of a non-empty run of sections: its first tag. */
  lemma FirstTag(pals: seq<seq<NRGBA>>, es: seq<PackElem>)
    requires |es| > 0
    ensures var t := PaletteSections(pals) + IconSections(es);
      |t| >= 4 && t[..4] == (if |pals| > 0 then PaletteMagic else IconMagic)
  {
    if |pals| > 0 {
      FirstPaletteTag(pals);
      TagOfConcat(PaletteSections(pals), IconSections(es), PaletteMagic);
    } else {
      FirstIconTag(es);
      assert PaletteSections(pals) + IconSections(es) == IconSections(es);
    }
  }

  lemma TagOfConcat(a: seq<Byte>, b: seq<Byte>, tag: seq<Byte>)
    requires |a| >= 4 && a[..4] == tag
    ensures |a + b| >= 4 && (a + b)[..4] == tag
  {
    assert (a + b)[..4] == a[..4];
  }

  lemma TagOfPrefix(a: seq<Byte>, t: seq<Byte>, tag: seq<Byte>)
    requires a <= t && |a| >= 4 && a[..4] == tag
    ensures |t| >= 4 && t[..4] == tag
  {
    assert t[..4] == t[..|a|][..4];
  }

  lemma FirstPaletteTag(pals: seq<seq<NRGBA>>)
    requires |pals| > 0
    ensures |PaletteSections(pals)| >= 4 && PaletteSections(pals)[..4] == PaletteMagic
  {
    PaletteSectionsPrefix(pals, 1);
    var one := pals[..1];
    assert one[..0] == [];
    var sec := PaletteSection(0, pals[0]);
    assert PaletteSections(one) == sec;
    TagOfConcat(PaletteMagic, Le32(ToU32(2 + 4 * |pals[0]|)) + PaletteBody(0, pals[0]), PaletteMagic);
    assert sec == PaletteMagic + (Le32(ToU32(2 + 4 * |pals[0]|)) + PaletteBody(0, pals[0]));
    TagOfPrefix(sec, PaletteSections(pals), PaletteMagic);
  }

  lemma FirstIconTag(es: seq<PackElem>)
    requires |es| > 0
    ensures |IconSections(es)| >= 4 && IconSections(es)[..4] == IconMagic
  {
    IconSectionsPrefix(es, 1);
    var one := es[..1];
    assert one[..0] == [];
    var sec := IconSection(es[0]);
    assert IconSections(one) == sec;
    TagOfConcat(IconMagic, ElemRecord(es[0]), IconMagic);
    TagOfPrefix(sec, IconSections(es), IconMagic);
  }

  /**
    `DumpPack` cannot read what `IconPack.WriteTo` writes: after the header
    the element reader takes the "PALT" or "ICON" tag for a size, which is
    above the limit, and the dump stops at the first element.
   */
  lemma DumpStopsAtTag(pals: seq<seq<NRGBA>>, es: seq<PackElem>)
    requires 0 < |es| < 0x1_0000_0000
    ensures DumpOf(PackStream(pals, es)) == [IconCount(|es|), IOError(InvalidSize)]
  {
    var p, i := PaletteSections(pals), IconSections(es);
    var h := PackHead(es);
    FirstTag(pals, es);
    ConcatAssoc(h, p, i);
    ToU32Small(|es|);
    HeadThenTag(h, p + i, ToU32(|es|));
  }

  lemma HeadThenTag(h: seq<Byte>, t: seq<Byte>, n: U32)
    requires h == PackMagic + Le32(n) && 0 < n
    requires |t| >= 4 && (t[..4] == PaletteMagic || t[..4] == IconMagic)
    ensures DumpOf(h + t) == [IconCount(n), IOError(InvalidSize)]
  {
    var s := h + t;
    assert s[..4] == PackMagic;
    assert s[4..8] == Le32(n);
    assert ReadLe32(s, 4) == ReadLe32(Le32(n), 0);
    assert s[8..] == t;
    TagIsNoSize(t);
  }

  /** Either tag, read as a little-endian size, is far above the element size limit. */
  lemma TagIsNoSize(r: seq<Byte>)
    requires |r| >= 4 && (r[..4] == PaletteMagic || r[..4] == IconMagic)
    ensures ElemOf(r) == Err(InvalidSize)
  {
    assert r[0] == r[..4][0] && r[3] == r[..4][3];
  }

  // ---------------------------------------------------------------------------
  // A pack reader that follows the writer's sections

  /**
    The sections in `t` as evidently intended for `DumpPack`: a "PALT"
    section is skipped by its recorded length, an "ICON" section holds one
    element that `read` (in the pack, `readPackElem`) takes; anything else,
    or a section cut short, is None.
   */
  function SectionsIn(t: seq<Byte>, read: seq<Byte> -> Result<(PackElem, nat), ElemError>): (r: Option<seq<PackElem>>)
    decreases |t|
  {
    if |t| == 0 then Some([])
    else if |t| < 8 then None
    else if t[..4] == PaletteMagic then
      var n := ReadLe32(t, 4);
      if 8 + n > |t| then None else SectionsIn(t[8 + n..], read)
    else if t[..4] == IconMagic then
      match read(t[4..])
      case Err(_) => None
      case Ok((e, len)) =>
        if len == 0 || 4 + len > |t| then None else Prepend([e], SectionsIn(t[4 + len..], read))
    else None
  }

  /** `es` in front of the elements read after them, or None when that read failed. */
  function Prepend(es: seq<PackElem>, r: Option<seq<PackElem>>): Option<seq<PackElem>>
  {
    if r.None? then None else Some(es + r.value)
  }

  /** The elements of a whole stream: the header, then sections up to the end, as many elements as the header counts. */
  function TaggedElems(s: seq<Byte>): (r: Option<seq<PackElem>>)
    ensures r.Some? ==> |s| >= 8 && s[..4] == PackMagic && |r.value| == ReadLe32(s, 4)
  {
    if |s| < 8 || s[..4] != PackMagic then None
    else
      var es := SectionsIn(s[8..], ElemOf);
      if es.Some? && |es.value| == ReadLe32(s, 4) then es else None
  }

  /** A palette whose section length fits the u32 the writer records. */
  predicate PaletteFits(pal: seq<NRGBA>)
  {
    2 + 4 * |pal| < 0x1_0000_0000
  }

  /** `read` takes back every record the writer makes of one of `es`, whatever follows it. */
  ghost predicate ReadsBack(read: seq<Byte> -> Result<(PackElem, nat), ElemError>, es: seq<PackElem>)
  {
    forall i, rest: seq<Byte> ::
      0 <= i < |es| ==> read(ElemRecord(es[i]) + rest) == Ok((es[i], |ElemRecord(es[i])| as nat))
  }

  /** A tag, a u32 length `n` and `n` bytes, followed by `rest`: the tag and the length read back, and `rest` starts after them. */
  lemma TaggedSection(tag: seq<Byte>, n: U32, body: seq<Byte>, rest: seq<Byte>)
    requires |tag| == 4 && |body| == n
    ensures var t := tag + Le32(n) + body + rest;
      |t| >= 8 && t[..4] == tag && ReadLe32(t, 4) == n && t[8 + n..] == rest
  {
    var t := tag + Le32(n) + body + rest;
    var len := Le32(n);
    assert t[..4] == tag;
    assert t[4] == len[0] && t[5] == len[1] && t[6] == len[2] && t[7] == len[3];
    assert t[8 + n..] == rest;
  }

  /** One palette section is skipped whole. */
  lemma SkipPalette(idx: int, pal: seq<NRGBA>, rest: seq<Byte>, read: seq<Byte> -> Result<(PackElem, nat), ElemError>)
    requires PaletteFits(pal)
    ensures SectionsIn(PaletteSection(idx, pal) + rest, read) == SectionsIn(rest, read)
  {
    var len := 2 + 4 * |pal|;
    ToU32Small(len);
    TaggedSection(PaletteMagic, len, PaletteBody(idx, pal), rest);
    assert PaletteSection(idx, pal) + rest == PaletteMagic + Le32(len) + PaletteBody(idx, pal) + rest;
  }

  /** Every palette section the writer emits is skipped. */
  lemma {:induction false} SkipPalettes(pals: seq<seq<NRGBA>>, rest: seq<Byte>, read: seq<Byte> -> Result<(PackElem, nat), ElemError>)
    requires forall i :: 0 <= i < |pals| ==> PaletteFits(pals[i])
    ensures SectionsIn(PaletteSections(pals) + rest, read) == SectionsIn(rest, read)
    decreases |pals|
  {
    if |pals| == 0 {
      assert PaletteSections(pals) + rest == rest;
    } else {
      var n := |pals| - 1;
      var init := pals[..n];
      var sec := PaletteSection(n, pals[n]);
      assert PaletteSections(pals) == PaletteSections(init) + sec;
      ConcatAssoc(PaletteSections(init), sec, rest);
      var whole := PaletteSections(pals) + rest;
      assert whole == PaletteSections(init) + (sec + rest);
      assert forall i :: 0 <= i < |init| ==> init[i] == pals[i];
      SkipPalettes(init, sec + rest, read);
      SkipPalette(n, pals[n], rest, read);
      assert SectionsIn(whole, read) == SectionsIn(sec + rest, read);
    }
  }

  /** One "ICON" section yields its element. */
  lemma ReadIconSection(e: PackElem, rest: seq<Byte>, read: seq<Byte> -> Result<(PackElem, nat), ElemError>)
    requires read(ElemRecord(e) + rest) == Ok((e, |ElemRecord(e)| as nat))
    ensures SectionsIn(IconSection(e) + rest, read) == Prepend([e], SectionsIn(rest, read))
  {
    var rec := ElemRecord(e);
    var t := IconSection(e) + rest;
    assert t == IconMagic + (rec + rest);
    assert t[..4] == IconMagic && t[4..] == rec + rest;
    assert t[..4][0] != PaletteMagic[0];
    assert t[4 + |rec|..] == rest;
  }

  lemma LastSplit<T>(s: seq<T>)
    requires |s| > 0
    ensures s[..|s| - 1] + [s[|s| - 1]] == s
  {
  }

  lemma PrependTwice(a: seq<PackElem>, b: seq<PackElem>, r: Option<seq<PackElem>>)
    ensures Prepend(a, Prepend(b, r)) == Prepend(a + b, r)
  {
    if r.Some? {
      assert a + (b + r.value) == (a + b) + r.value;
    }
  }

  /** Every "ICON" section the writer emits yields its element, in order. */
  lemma {:induction false} ReadIconSections(es: seq<PackElem>, rest: seq<Byte>, read: seq<Byte> -> Result<(PackElem, nat), ElemError>)
    requires ReadsBack(read, es)
    ensures SectionsIn(IconSections(es) + rest, read) == Prepend(es, SectionsIn(rest, read))
    decreases |es|
  {
    if |es| == 0 {
      assert IconSections(es) + rest == rest;
      if SectionsIn(rest, read).Some? {
        assert es + SectionsIn(rest, read).value == SectionsIn(rest, read).value;
      }
    } else {
      var n := |es| - 1;
      var init := es[..n];
      var sec := IconSection(es[n]);
      ConcatAssoc(IconSections(init), sec, rest);
      assert ReadsBack(read, init) by {
        forall i, t: seq<Byte> | 0 <= i < |init|
          ensures read(ElemRecord(init[i]) + t) == Ok((init[i], |ElemRecord(init[i])| as nat))
        {
          assert init[i] == es[i];
        }
      }
      ReadIconSections(init, sec + rest, read);
      assert read(ElemRecord(es[n]) + rest) == Ok((es[n], |ElemRecord(es[n])| as nat));
      ReadIconSection(es[n], rest, read);
      PrependTwice(init, [es[n]], SectionsIn(rest, read));
      LastSplit(es);
    }
  }

  /**
    The section reader gives back every element `IconPack.WriteTo` wrote, in
    order, past its palette sections: the round trip `DumpStopsAtTag` shows
    the reader as written cannot make.
   */
  lemma TaggedRoundTrip(pals: seq<seq<NRGBA>>, es: seq<PackElem>)
    requires forall i :: 0 <= i < |pals| ==> PaletteFits(pals[i])
    requires forall i :: 0 <= i < |es| ==> Readable(es[i])
    requires |es| < 0x1_0000_0000
    ensures TaggedElems(PackStream(pals, es)) == Some(es)
  {
    var h, p, i := PackHead(es), PaletteSections(pals), IconSections(es);
    var s := PackStream(pals, es);
    ToU32Small(|es|);
    assert s == PackMagic + Le32(|es|) + (p + i);
    assert s[..4] == PackMagic;
    assert s[4..8] == Le32(|es|);
    assert ReadLe32(s, 4) == ReadLe32(Le32(|es|), 0);
    assert s[8..] == p + i;
    SkipPalettes(pals, i, ElemOf);
    assert ReadsBack(ElemOf, es) by {
      forall k, rest: seq<Byte> | 0 <= k < |es|
        ensures ElemOf(ElemRecord(es[k]) + rest) == Ok((es[k], |ElemRecord(es[k])| as nat))
      {
        ElemRoundTrip(es[k], rest);
      }
    }
    assert i + [] == i;
    ReadIconSections(es, [], ElemOf);
    assert es + [] == es;
  }
}
