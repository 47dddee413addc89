# vector-icon: the icon pack format, its Go producer and its C++ consumer

This project models the core of the vector-icon repository in Dafny and proves
properties of that model. The repository has two halves that share one binary
format, the icon pack:

- **procsvg** (Go) turns SVG files into icon packs. `conv.go` walks the SVG
  tree, resolves fills and transforms, and hands paths to `path.go`, which
  decodes the `d` attribute into absolute commands. `trans.go` parses
  `transform` attributes into matrices. `prog.go` encodes the commands as
  byte code: op codes with point runs, with coordinates in a 1-, 2- or 4-byte
  form. `pack.go` collects the icons of a pack, chooses palettes, sorts each
  icon's images by size and writes the pack. `project.go` reads the colour map
  of a project file. `disasm.go` prints a pack back as text.
- **gdiplusdemo** (C++) reads the pack and draws it. `IconPack.cpp`/`.h`
  load the pack: an "icpk" magic, an icon count and one record per icon
  (name, variant table, byte-code blob). They interpret an image's byte code
  as calls on a drawing engine. `GdiPlusIcon.cpp` is that engine: it maps the
  view box onto the target rectangle, converts points and raises quadratic
  curves to cubic ones. It caches a bitmap per size and copies pixel rows.
  `main.cpp` holds the demo window's key handling, colourising and layout.
  `paint.cpp` holds a box-filter downscaler of premultiplied pixels.

Each source file becomes one module, and each class of the source that updates
its fields becomes a Dafny `class`: `Prog.ProgMem`, `Pack.IconPack`,
`Path.PathDecoder`, `Trans.TransformScanner`, `IconPack.Pack`,
`GdiPlusIcon.Engine`, `MainApp.Window` and others. Their methods are proved
against specification functions of the module. The properties that matter
most are these:

- the C++ reader reads back what the Go writer writes (`Interop.IconAtRoundTrip`);
- the byte code decodes to the commands it encodes (`Prog`, `Disasm`);
- coordinates on the 1/64 grid round-trip through the codec (`Coord`);
- the path decoder emits only well-formed commands (`Path`);
- the transform parser yields the product of its transforms (`Trans`);
- the downscaler writes every pixel's rounded block average and no padding byte (`Paint`).

`Interop` connects the two halves.

Integer widths are written out where the source relies on them: `uint8`,
`uint16`, `uint32`, `size_t` and Go's `int` casts. Floating-point values are
modelled as `real`. The functions the model cannot see are parameters:
`strconv.ParseFloat`, `arcToBezier`, `Rotate`, `Atoi`, `fmt.Sscan` and the
binary32 bit conversions.

The format differs from a sectioned container in one respect. The Go writer
puts a "PALT" or "ICON" tag and a length in front of each palette and icon
(procsvg/pack.go:392-394). The C++ reader (gdiplusdemo/IconPack.cpp:82-104)
expects records right after the count, with no tags and no palettes. The
model follows the code on both sides, so `Interop` relates the C++ reader to
the Go writer's icon records (`Pack.ElemRecord`), not to the tagged stream.
The C++ icon's palette table is never filled (`palvec` stays empty).

## Model

| member | source | states |
|---|---|---|
| Base.ToU32Small | gdiplusdemo/IconPack.cpp:52-60 | a count below 2^32 is stored by a `uint32_t` unchanged |
| Base.Le16 | procsvg/pack.go:367-368 | `PutUint16` writes two bytes that read back, low byte first, as the value |
| Base.Le32 | procsvg/pack.go:441-445 | `PutUint32` writes four bytes that `readUint32`'s little-endian layout reads back as the value |
| Base.Le32OfRead | gdiplusdemo/IconPack.cpp:10-16 | the other direction: any four bytes read as a `uint32_t` and written again are the same four bytes |
| Base.Le16OfRead | gdiplusdemo/IconPack.cpp:18-23 | any two bytes read as a `uint16_t` and written again are the same two bytes |
| Base.ToU32Add | gdiplusdemo/IconPack.cpp:52-60 | adding to a wrapped `uint32_t` running sum gives the wrapped value of the whole sum |
| Base.ReadLe32Prefix | gdiplusdemo/IconPack.cpp:10-16 | a 32-bit value read at `i` does not depend on the bytes after it |
| Base.FlatConcat | procsvg/prog.go:124-130 | the bytes written for a joined point list are the bytes for each part, in order |
| Base.FlatFront | procsvg/prog.go:124-130 | the bytes for a point list are the first point's bytes followed by the rest's |
| Coord.Round | procsvg/prog.go:146 | `math.Round`: the result is an integer within 1/2 of the input |
| Coord.RoundOfInteger | procsvg/prog.go:146 | rounding an integer gives it back |
| Coord.EncodeCoord | procsvg/prog.go:141-177 | the encoding is 1, 2 or 4 bytes long and its first byte announces that length |
| Coord.TwoByteTag | procsvg/prog.go:156-158 | a value shifted left two with bit 1 set starts a two-byte form |
| Coord.FourByteTag | procsvg/prog.go:166-167 | clearing the two low bits of a float pattern's first byte marks the four-byte form |
| Coord.CoordBytes | procsvg/prog.go:141-173 | writes the encoding into `p` and returns its length, or 0 and writes nothing past `n` when `p` is too short |
| Coord.CoordFromBytes | procsvg/prog.go:182-212 | consumes 0 bytes exactly when `p` is empty or shorter than its first byte announces, and otherwise that many bytes |
| Coord.EncodedLengthIsRead | procsvg/prog.go:141-212 | whatever follows, the decoder consumes exactly the bytes the encoder wrote |
| Coord.EncodeDecodeWithinPrecision | procsvg/prog.go:141-212 | a one- or two-byte form decodes to within `prec` of the value; a four-byte form to the float pattern with its two low bits cleared |
| Coord.FourByteDecode | procsvg/prog.go:201-211 | the four-byte form decodes to the stored pattern with the tag bits cleared |
| Coord.NearIntegerSixtyfourths | procsvg/prog.go:146-160 | a multiple of 1/64 closer than 1/64 to an integer is that integer |
| Coord.RoundTripFixed | procsvg/prog.go:141-212 | at a precision below 1/64 every multiple of 1/64 in [-128, 128) decodes exactly, in one byte when it is an integer in [-64, 64) and in two otherwise |
| Coord.RoundTripInteger | procsvg/prog.go:146-149 | an integer in [-64, 64) takes one byte and decodes exactly |
| Coord.RoundTripTwoBytes | procsvg/prog.go:155-160 | a multiple of 1/64 in [-128, 128) that misses the one-byte form takes two bytes and decodes exactly |
| Coord.OneByteMeansInteger | procsvg/prog.go:146 | at a precision below 1/64 only integers take the one-byte form |
| Sorting.InsertPermutes | procsvg/pack.go:385-387 | inserting an element adds exactly that element to the multiset |
| Sorting.InsertSorted | procsvg/pack.go:385-387 | inserting into an ordered sequence keeps it ordered |
| Sorting.SortByKeySorts | procsvg/pack.go:385-387 | the sort's result is ordered by the key and a permutation of its input |
| Trans.MulIdentity | procsvg/trans.go:17-52 | the identity matrix is neutral on both sides of `Mul` |
| Trans.MulTransform | procsvg/trans.go:19-52 | transforming by a product transforms by its right factor, then by its left one |
| Trans.MulAssoc | procsvg/trans.go:36-52 | `Mul` is associative |
| Trans.SameImages | procsvg/trans.go:19-24 | two matrices that move every point alike are the same matrix |
| Trans.TranslateIsMul | procsvg/trans.go:54-74 | `Translate(cx, cy)` is the product with the translation matrix |
| Trans.ScaleIsMul | procsvg/trans.go:100-120 | `Scale(sx, sy)` is the product with the scaling matrix |
| Trans.SpacesEnd | procsvg/trans.go:190-192 | the space loop stops at the first byte that is not ' ', having passed only spaces |
| Trans.LettersEnd | procsvg/trans.go:239-246 | the name loop stops at the first byte that is not an ASCII letter, having passed only letters |
| Trans.TokenEnd | procsvg/trans.go:276-283 | the argument loop stops at the first ' ', ',' or ')', having passed none |
| Trans.FnAt | procsvg/trans.go:236-267 | an accepted name is non-empty and is followed by '(' , which the cursor is after |
| Trans.ArgAt | procsvg/trans.go:269-315 | an argument moves the cursor forward within the text; the last one of a list ends on ')' |
| Trans.ArgsAt | procsvg/trans.go:204-205 | an accepted argument list adds at least one argument after those read and ends on ')' |
| Trans.ScanAt | procsvg/trans.go:185-208 | a call found has a non-empty name and at least one argument, and the cursor moves forward |
| Trans.Unpack | procsvg/trans.go:210-218 | `unpackarg` fills the first targets from the arguments and leaves the rest 0 |
| Trans.TransformScanner.constructor | procsvg/trans.go:124 | a scanner at the start of the text, without a name, arguments or error |
| Trans.TransformScanner.SkipSpaces | procsvg/trans.go:190-192 | moves past the spaces and changes nothing else |
| Trans.TransformScanner.ParseFn | procsvg/trans.go:236-267 | `parsefn` reads the name the definition gives and moves after '(', or records its error |
| Trans.TransformScanner.ParseArg | procsvg/trans.go:269-315 | `parsearg` appends the argument the definition gives and tells whether more follow, or records its error |
| Trans.TransformScanner.Scan | procsvg/trans.go:185-208 | `scan` does nothing after an error, and otherwise finds the call the definition gives, with its name and arguments |
| Trans.SvgTransformMatrix | procsvg/trans.go:123-173 | `SvgTransformMatrix` returns the matrix and error the definition gives |
| Trans.ArityRule | procsvg/trans.go:130-169 | a call fails exactly unless it is `matrix` with 6 arguments, `translate` or `scale` with 1 or 2, or `rotate` with 1 or 3 |
| Trans.TranslateOneArgument | procsvg/trans.go:140-146 | `translate(x)` moves by (x, 0) |
| Trans.CallShape | procsvg/trans.go:236-315 | a call's name is ASCII letters and its argument list ends on ')' |
| Trans.EmptyArgumentIsError | procsvg/trans.go:285-288 | "scale()" fails with a missing argument at position 6 |
| Trans.UnterminatedDiverges | procsvg/trans.go:276-283 | in "scale(2" the argument loop runs past the end: the source never returns |
| Trans.TrailingSpacesEnd | procsvg/trans.go:190-196 | trailing spaces end the scan without error and leave the identity |
| Trans.ApplyIsRightMul | procsvg/trans.go:130-169 | each call, from any running matrix, fails alike, or multiplies it on the right by what it gives from the identity |
| Trans.RotateAbout | procsvg/trans.go:154 | a rotation about a centre from any matrix is that matrix times the rotation about the centre from the identity |
| Trans.TransformFromProduct | procsvg/trans.go:125-172 | the result of a transform list is the running matrix times the result from the identity, with the same error |
| Trans.ScaleIsDiscarded | procsvg/trans.go:165 | as written, `scale(...)` never changes the running matrix |
| Trans.ApplyIntended | procsvg/trans.go:156-165 | as intended, a call other than `scale` is as written, and `scale` accepts 1 or 2 arguments |
| Trans.ScaleApplied | procsvg/trans.go:156-165 | as intended, `scale(sx, sy)` multiplies by the scaling matrix, and `scale(s)` scales both axes by s |
| Pack.Trunc | procsvg/pack.go:452-456 | what a writer with `cap` bytes left takes of `s`: a prefix no longer than `cap` or `s` |
| Pack.TruncConcat | procsvg/pack.go:452-456 | two writes in a row take what one write of both would |
| Pack.TruncPast | procsvg/pack.go:452-456 | once a write overflowed, later writes add nothing |
| Pack.Sink.Write | procsvg/pack.go:452-453 | the destination writer appends what fits, reports how much, and fails exactly when the buffer was longer than the space left |
| Pack.CountWriter.Write | procsvg/pack.go:447-456 | `countWriter.Write` passes the write on and adds the bytes written to its count |
| Pack.OfferedMore | procsvg/pack.go:447-456 | two successive writes through the counting writer leave the state one write of both would |
| Pack.WriteUint32 | procsvg/pack.go:441-445 | `writeUint32` offers the four little-endian bytes of `v` and fails exactly when they do not fit |
| Pack.WrittenName | procsvg/pack.go:354-357 | the name is cut to its first 255 bytes and kept whole when it is no longer |
| Pack.ImageHeader | procsvg/pack.go:364-370 | one image header is 8 bytes |
| Pack.Headers | procsvg/pack.go:366-371 | the header loop writes 8 bytes per image |
| Pack.ElemBytes | procsvg/pack.go:352-378 | the element body holds at least the name length byte and the image count byte |
| Pack.DataBytes | procsvg/pack.go:352-378 | the two loops of `dataBytes` fill the buffer with the name, the count, every header and then every image's data |
| Pack.ElemRecord | procsvg/pack.go:343-350 | `writeTo` writes a u32 length and then the body, at least 6 bytes |
| Pack.WriteElem | procsvg/pack.go:343-350 | `writeTo` offers the element record and fails exactly when it does not fit; the length's own write error is not checked |
| Pack.ColorBytes | procsvg/pack.go:427-432 | four bytes per palette colour |
| Pack.PaletteBody | procsvg/pack.go:424-432 | a palette body is its index byte, its size byte and four bytes per colour |
| Pack.PaletteBuffer | procsvg/pack.go:424-432 | the colour loop fills the buffer with the palette body |
| Pack.WritePalette | procsvg/pack.go:421-439 | `writePalette` offers "PALT", the u32 body length and the body; the magic's write error is ignored |
| Pack.IconSection | procsvg/pack.go:410-416 | an element section is "ICON" and the element record |
| Pack.PackHead | procsvg/pack.go:399-400 | the stream starts with "icpk" and the u32 element count, 8 bytes |
| Pack.PaletteSectionsSnoc | procsvg/pack.go:404-408 | one more pass of the palette loop appends one palette section |
| Pack.IconSectionsSnoc | procsvg/pack.go:410-416 | one more pass of the element loop appends one element section |
| Pack.TruncPrefix | procsvg/pack.go:452-456 | once a prefix overflowed, the rest of the stream changes nothing |
| Pack.IconPack.Add | procsvg/pack.go:380-390 | `Add` appends the element with its images sorted by size and leaves the palettes alone |
| Pack.IconPack.WriteTo | procsvg/pack.go:396-419 | `WriteTo` appends what fits of the whole pack stream, returns that count, and fails exactly when the stream does not fit |
| Pack.OfferedPrefix | procsvg/pack.go:396-419 | stopping at the first failed write leaves what offering the whole stream would |
| Pack.WritePalettes | procsvg/pack.go:404-408 | the palette loop offers every palette section and fails exactly when they do not fit |
| Pack.WriteIcons | procsvg/pack.go:410-416 | the element loop offers every element section and fails exactly when they do not fit |
| Pack.WriteIcon | procsvg/pack.go:411-415 | one element: "ICON", whose write error is ignored, then the record |
| Pack.BySizeOrders | procsvg/pack.go:380-388 | `Add`'s sort keeps the images and orders them by non-increasing area |
| Pack.RgbKey | procsvg/pack.go:300-308 | R, G and B packed into a number below 2^24 |
| Pack.LessColorByKey | procsvg/pack.go:300-308 | `lessColor` holds exactly when the packed RGB number is smaller |
| Pack.FreqLessByKey | procsvg/pack.go:287-292 | the automatic palette's comparator holds exactly when the sort key is smaller: by count, then by colour |
| Pack.CollectFreqs | procsvg/pack.go:278-285 | every seen colour outside the project palette appears once, with its count, and nothing else does |
| Pack.AppendColors | procsvg/pack.go:294-296 | the sorted colours are appended after the project palette, in order |
| Pack.SortedFreqs | procsvg/pack.go:287-292 | sorting keeps the gathered colours, each once, each with its count |
| Pack.AutoPalette | procsvg/pack.go:274-296 | the automatic palette starts with the project palette and holds each other seen colour once, least frequent first, ties by `lessColor` |
| Pack.TailMembers | procsvg/pack.go:278-296 | the appended part holds exactly the seen colours outside the project palette |
| Pack.TailOrder | procsvg/pack.go:287-296 | the appended part has no repeats and follows the comparator |
| Pack.TransformKeepsUnmapped | procsvg/pack.go:315-325 | an unmapped colour keeps its alpha, and keeps everything when the luma is not inverted |
| Pack.TransformPalette | procsvg/pack.go:313-327 | the inner loop maps every palette colour through the transform, position by position |
| Pack.ApplyTransforms | procsvg/pack.go:310-331 | the original palette comes first, then one palette of the same length per transform, colour by colour |
| Pack.PaletteVariants | procsvg/pack.go:259-298 | `getpalv`: the first palette starts with the project colours, is only them without the automatic palette, and with it adds exactly the other seen colours; every variant has its length |
| Pack.MakeId | procsvg/pack.go:160-185 | the builder loop gives the identifier the rune-by-rune definition gives |
| Pack.IdPiecesAreId | procsvg/pack.go:177-183 | replacing non-identifier runes keeps the length and leaves only identifier runes |
| Pack.IdPiecesKeepId | procsvg/pack.go:177-183 | a string of identifier runes is left as it is |
| Pack.MakeIdIsIdentifier | procsvg/pack.go:160-197 | without a prefix, a non-empty name becomes a non-empty identifier that starts like one |
| Pack.MakeIdIdempotent | procsvg/pack.go:160-197 | a name that is already an identifier comes back unchanged, so `makeid` is idempotent |
| Pack.Quote | procsvg/pack.go:199-216 | the builder loop gives the literal the rune-by-rune definition gives |
| Pack.QuotedCollides | procsvg/pack.go:204-205 | as written, the two-rune name "\x0c7" and the one-rune name "\x7f" get the same literal |
| Pack.HexDigitValue | procsvg/pack.go:204-205 | a hexadecimal digit reads back as its value |
| Pack.UnescapeEscapeHex | procsvg/pack.go:199-216 | one rune escaped in hexadecimal reads back as that rune, whatever follows |
| Pack.UnescapeFlat | procsvg/pack.go:199-216 | a string escaped rune by rune reads back whole |
| Pack.UnquoteQuotedHex | procsvg/pack.go:199-216 | with two hexadecimal digits after `\x`, every string reads back from its literal |
| Pack.QuotedAgreesWithoutControls | procsvg/pack.go:199-216 | the two escapes agree on strings without control runes, and those read back from the literal as written |
| Pack.CountWriter.constructor | procsvg/pack.go:447-450 | a counting writer over the destination, with nothing counted |
| Pack.IconPack.constructor | procsvg/pack.go:333-336 | a pack with the given palettes and no elements |
| Prog.CoordEncoding | procsvg/prog.go:132-136 | `Coord` appends 1 to 4 bytes: what `CoordBytes` writes into a four-byte buffer |
| Prog.Ops | procsvg/prog.go:113-120 | `addOp`'s chunking gives at least one op |
| Prog.OpRange | procsvg/prog.go:113 | one op carries at least `maxrep` points |
| Prog.OpsCover | procsvg/prog.go:113-120 | the ops carry all the points once, in order |
| Prog.OpsFull | procsvg/prog.go:114-118 | every op but the last carries `mod * maxrep` points |
| Prog.OpsShapedAll | procsvg/prog.go:113-120 | for a point count that is a positive multiple of `mod`, every opcode announces exactly the groups of `mod` its op carries, at most `maxrep` |
| Prog.FullOpShaped | procsvg/prog.go:115-116 | a full op's opcode `baseop + maxrep - 1` announces its `maxrep` groups |
| Prog.LastOpShaped | procsvg/prog.go:119-120 | the last op's opcode `baseop + n/mod - 1` announces its groups |
| Prog.OpsChunking | procsvg/prog.go:104-122 | the chunking together: all points once in order, every op shaped, all but the last full |
| Prog.MoreGroups | procsvg/prog.go:114-117 | after a full op the points left are `q - maxrep` groups |
| Prog.FewerGroups | procsvg/prog.go:119 | the final opcode counts the groups that are left, at most `maxrep` |
| Prog.OpsBytesSnoc | procsvg/prog.go:114-120 | writing one more op appends its opcode and points |
| Prog.PathCmdAcceptsWellFormed | procsvg/prog.go:65-102 | `PathCmd` succeeds exactly on a move with one point, a non-empty line, and cubic or quadratic runs in whole groups |
| Prog.PathDCmdsAccepted | procsvg/prog.go:65-102 | every command a successful path decode produces is accepted by `PathCmd` |
| Prog.SegmentOps | procsvg/prog.go:80-98 | a segment command's ops carry its points in order, every opcode announcing its groups |
| Prog.ViewBoxAfter | procsvg/prog.go:53-58 | `ViewBox` appends the four coordinates' bytes in turn |
| Prog.ProgMem.constructor | procsvg/prog.go:26-31 | `NewProgMem` starts with an empty buffer, outside a path, under the identity transform |
| Prog.ProgMem.Byte | procsvg/prog.go:41-43 | appends one byte and changes nothing else |
| Prog.ProgMem.Stop | procsvg/prog.go:37-39 | appends the stop opcode 0x00 |
| Prog.ProgMem.Color | procsvg/prog.go:45-51 | appends R, G, B and A of the colour |
| Prog.ProgMem.Coord | procsvg/prog.go:132-136 | appends the coordinate's encoding |
| Prog.ProgMem.ViewBox | procsvg/prog.go:53-58 | appends the four coordinates of the view box |
| Prog.ProgMem.BeginPath | procsvg/prog.go:60-63 | writes nothing; the next move opens a path, and points are transformed by the given matrix |
| Prog.ProgMem.Pts | procsvg/prog.go:124-130 | appends each point's image under the current transform, x then y |
| Prog.ProgMem.AddOp | procsvg/prog.go:104-122 | fails with the empty or bad-length error and writes nothing, or writes the chunked ops; succeeds exactly for a positive multiple of `mod` points |
| Prog.ProgMem.EmitOps | procsvg/prog.go:113-120 | the loop writes full ops while more than one op's worth remains, then the rest |
| Prog.ProgMem.EmitOp | procsvg/prog.go:115-120 | one op: its opcode, then its points |
| Prog.ProgMem.PutPoint | procsvg/prog.go:125-129 | one point: its transformed x, then y |
| Prog.ProgMem.PathCmd | procsvg/prog.go:65-102 | writes the command's bytes and sets `inPath` as `PathCmdBytes` says, or returns its error and changes nothing |
| Disasm.Infos | procsvg/disasm.go:79-88 | the header loop makes one image header record per image |
| Disasm.ImagesOf | procsvg/disasm.go:90-103 | the image loop makes one image per header record |
| Disasm.ElemOf | procsvg/disasm.go:39-110 | an accepted element consumes its 4-byte size field and at most the bytes there are |
| Disasm.ReadInfos | procsvg/disasm.go:79-88 | the header loop reads the first `numimages` headers at offsets 0, 8, 16, … |
| Disasm.TotalPrefix | procsvg/disasm.go:90-103 | the data of more images is never less |
| Disasm.ImagesOfSnoc | procsvg/disasm.go:91-102 | one more header cuts one more image right after the ones before |
| Disasm.TakeImages | procsvg/disasm.go:90-103 | the image loop fails exactly when the data is shorter than the sizes add up to, and otherwise cuts every image and leaves the rest |
| Disasm.ReadPackElem | procsvg/disasm.go:39-110 | `readPackElem` on the bytes the reader has left gives the element and length the definition gives, or its error |
| Disasm.ReadBody | procsvg/disasm.go:54-109 | the part after the full body read: the name, the count, the headers, the images, and no garbage |
| Disasm.InfosOf | procsvg/pack.go:366-371 | one header record per image the writer wrote |
| Disasm.InfoAtHeader | procsvg/disasm.go:81-83 | a header the writer wrote at offset `8 i` reads back as that image's width, height and size |
| Disasm.HeadersRead | procsvg/disasm.go:79-88 | the header loop reads every header the writer wrote, whatever follows |
| Disasm.TotalOfInfos | procsvg/disasm.go:90-103 | the sizes the writer records add up to the data it writes |
| Disasm.ImagesRead | procsvg/disasm.go:90-103 | the image loop cuts the writer's data back into the images, whatever follows |
| Disasm.ImagesOfStep | procsvg/disasm.go:91-102 | one more header and its data add one image |
| Disasm.ParseElemBytes | procsvg/disasm.go:54-109 | the body the writer makes of a readable element parses back to that element |
| Disasm.ParseImagesRead | procsvg/disasm.go:69-109 | the headers and data the writer makes parse back to the images |
| Disasm.RecordRead | procsvg/disasm.go:40-52 | a length-prefixed record reads back its length and its bytes |
| Disasm.ElemOfAccepts | procsvg/disasm.go:39-110 | a size field within the 1 MiB limit and a body that parses give an element of that size |
| Disasm.ElemRoundTrip | procsvg/disasm.go:39-110 | `readPackElem` on what `writeTo` wrote, whatever follows, gives the element back and consumes exactly its record |
| Disasm.ImagesOfView | procsvg/disasm.go:91-102 | each image is cut right after the one before |
| Disasm.DatasOfRead | procsvg/disasm.go:90-103 | the images cut from the body hold its first bytes, in order |
| Disasm.ImageHeaderOfRead | procsvg/disasm.go:81-83 | an image with header `i`'s fields is written as that header |
| Disasm.ImagesOfMatch | procsvg/disasm.go:90-103 | each image cut is as its header announces |
| Disasm.InfosAt | procsvg/disasm.go:79-88 | header `i` is read at offset `8 i` |
| Disasm.HeadersOfMatching | procsvg/disasm.go:79-88 | images as the headers announce are written back as those headers |
| Disasm.HeadersOfRead | procsvg/disasm.go:79-103 | the images read with the headers are written back as those headers |
| Disasm.ParseImagesIsBytes | procsvg/disasm.go:69-109 | an accepted image part is written back byte for byte |
| Disasm.ParseBodyOk | procsvg/disasm.go:54-67 | an accepted body has a name, an image count and an accepted image part |
| Disasm.ElemBytesOf | procsvg/pack.go:352-378 | the writer's body, given its name, image count and image part |
| Disasm.ParseBodyIsBytes | procsvg/disasm.go:54-109 | an accepted body is exactly what the writer makes of the element read |
| Disasm.PartsAreBytes | procsvg/disasm.go:54-109 | the name, count and image part of an accepted body give back its bytes |
| Disasm.ElemOfOk | procsvg/disasm.go:39-110 | an accepted record has a size field within bounds and an accepted body |
| Disasm.RecordOfRead | procsvg/disasm.go:40-52 | a record whose size field gives its body's length is that length, then that body |
| Disasm.ElemReadIsRecord | procsvg/disasm.go:39-110 | the bytes an accepted element consumed are exactly what `writeTo` writes for it: the reader accepts nothing the writer would not make |
| Disasm.ByteAt | procsvg/disasm.go:119-127 | `Byte` never moves past the end |
| Disasm.CoordAt | procsvg/disasm.go:137-141 | `Coord` moves forward and not past the end |
| Disasm.PointAt | procsvg/disasm.go:129-135 | `Point` moves forward and not past the end |
| Disasm.PointsAt | procsvg/disasm.go:222-224 | `n` points make `n` lines and stay within the data |
| Disasm.PointsSnoc | procsvg/disasm.go:222-224 | one more point adds its line where the last ended |
| Disasm.FillAsRead | procsvg/disasm.go:175-186 | SOLIDFILL reads four operands and stays within the data |
| Disasm.CmdAt | procsvg/disasm.go:166-217 | the opcode switch stays within the data |
| Disasm.StepCmdAt | procsvg/disasm.go:164-227 | every command moves forward, within the data |
| Disasm.StepAt | procsvg/disasm.go:143-162 | `step` does nothing at the end, moves forward otherwise, and an INVALID state stays |
| Disasm.ProgReader.constructor | procsvg/disasm.go:230-233 | a reader at position 0, valid, with nothing written |
| Disasm.ProgReader.Byte | procsvg/disasm.go:119-127 | the next byte, or 0 without moving at the end |
| Disasm.ProgReader.Coord | procsvg/disasm.go:137-141 | moves past exactly the bytes `CoordFromBytes` took, none when truncated |
| Disasm.ProgReader.Point | procsvg/disasm.go:129-135 | two coordinates, listed with the bytes they took |
| Disasm.ProgReader.StepCmd | procsvg/disasm.go:164-227 | one command line, then as many point lines as the command takes; an unknown opcode sets INVALID |
| Disasm.ProgReader.ReadCmd | procsvg/disasm.go:169-217 | the opcode switch: the command and how many points it takes |
| Disasm.ProgReader.Points | procsvg/disasm.go:222-224 | the point loop lists `n` points |
| Disasm.ProgReader.Step | procsvg/disasm.go:143-162 | `step`: nothing at the end, a command while valid, otherwise a raw line of at most 8 bytes |
| Disasm.Disasm | procsvg/disasm.go:229-241 | `disasm` writes the listing the definition gives: the view box, then steps to the end |
| Disasm.ShownConcat | procsvg/disasm.go:229-241 | the bytes shown by two runs of lines are joined |
| Disasm.PointShown | procsvg/disasm.go:129-135 | a point line shows exactly the bytes it read |
| Disasm.PointsShown | procsvg/disasm.go:222-224 | the point lines show exactly the bytes they read |
| Disasm.CmdShown | procsvg/disasm.go:219-221 | a command line shows its opcode bytes |
| Disasm.StepShown | procsvg/disasm.go:143-227 | one step's lines show exactly the bytes it moved past |
| Disasm.RunShown | procsvg/disasm.go:238-240 | the loop's lines show every byte from the position on |
| Disasm.HeadShown | procsvg/disasm.go:234-236 | the view-box comment and two points show the bytes before the loop |
| Disasm.DisasmShowsAll | procsvg/disasm.go:229-241 | `disasm` lists the whole program: its lines show every byte once, in order |
| Disasm.InvalidStaysRaw | procsvg/disasm.go:153-161 | once INVALID, the rest is listed only as raw chunks of one to eight bytes |
| Disasm.CmdClasses | procsvg/disasm.go:169-217 | a command is valid exactly for the known opcodes, takes the points its opcode says, and only SOLIDFILL reads operands |
| Disasm.WriterOpsKnown | procsvg/disasm.go:169-217 | every op the writer shapes is known to the reader, which expects exactly the points it carries |
| Disasm.CoordAtEncoded | procsvg/disasm.go:137-141 | a coordinate the writer encoded is read over exactly its bytes |
| Disasm.PointAtEncoded | procsvg/disasm.go:129-135 | a point the writer encoded is listed with exactly its bytes |
| Disasm.PointsAtFlat | procsvg/disasm.go:222-224 | points whose encodings each read as one point are read over exactly their concatenation |
| Disasm.PointsAtEncoded | procsvg/disasm.go:222-224 | the points of `Pts` are listed one line each, over exactly their bytes |
| Disasm.StepCmdEncoded | procsvg/disasm.go:164-227 | an op the writer wrote is listed as one valid command line and one line per point, over exactly its bytes |
| Disasm.FillSwapsGreenBlue | procsvg/disasm.go:175 | as written, the writer's colour R, G, B, A is listed with green and blue swapped |
| Disasm.FillSwapExample | procsvg/disasm.go:175 | the colour (0, 1, 2, 255) is listed as (0, 2, 1, 255) |
| Disasm.FillIntended | procsvg/prog.go:45-51 | SOLIDFILL read in the writer's order stays within the data |
| Disasm.FillIntendedRoundTrip | procsvg/prog.go:45-51 | read in the writer's order, every colour comes back as written, over its four bytes |
| Disasm.FillReadingsSwap | procsvg/disasm.go:175 | the two readings differ exactly by exchanging the second and third operand |
| Disasm.ImageDumps | procsvg/disasm.go:32-35 | one listing per image, in order |
| Disasm.DumpLoopStep | procsvg/disasm.go:25-36 | an element read moves the loop past it, after its images' listings |
| Disasm.ElemsDumpStep | procsvg/disasm.go:25-36 | one pass of the loop lists the element's images and goes on after its record |
| Disasm.DumpImages | procsvg/disasm.go:32-35 | the image loop lists every image in order |
| Disasm.ElemsDumpErr | procsvg/disasm.go:26-30 | an element that fails to read ends the dump with its error |
| Disasm.DumpElem | procsvg/disasm.go:26-35 | one pass: the element's listings and the position after it, or the error that stops the dump |
| Disasm.DumpElems | procsvg/disasm.go:25-36 | the loop lists `k` elements, stopping at the first error |
| Disasm.DumpPack | procsvg/disasm.go:9-37 | `DumpPack` writes what the definition gives: the header check, the count, the listings |
| Disasm.DumpHeaderCheck | procsvg/disasm.go:17-23 | a stream opens with the count when the magic matches, and with only the bad-header line otherwise |
| Disasm.FirstTag | procsvg/pack.go:404-416 | after the header the writer puts a "PALT" or "ICON" tag |
| Disasm.TagOfConcat | procsvg/pack.go:404-416 | the tag at the front stays there when more follows |
| Disasm.FirstPaletteTag | procsvg/pack.go:421-422 | a palette section starts with "PALT" |
| Disasm.FirstIconTag | procsvg/pack.go:411 | an element section starts with "ICON" |
| Disasm.DumpStopsAtTag | procsvg/disasm.go:25-30 | as written, `DumpPack` on any non-empty stream the writer makes lists the count and then fails: it reads the first tag as a size |
| Disasm.HeadThenTag | procsvg/disasm.go:22-30 | a header followed by a tag dumps as the count and the size error |
| Disasm.TagIsNoSize | procsvg/disasm.go:45-47 | either tag, read as a size, is above the 1 MiB limit |
| Disasm.TaggedElems | procsvg/pack.go:396-419 | a reader that skips "PALT" sections and reads "ICON" sections accepts only a stream with the magic and as many elements as the header counts |
| Disasm.TaggedSection | procsvg/pack.go:421-439 | a tag, a u32 length and that many bytes read back, and the rest starts after them |
| Disasm.SkipPalette | procsvg/pack.go:421-439 | one palette section is skipped whole |
| Disasm.SkipPalettes | procsvg/pack.go:404-408 | every palette section the writer emits is skipped |
| Disasm.ReadIconSection | procsvg/pack.go:410-416 | one "ICON" section yields its element |
| Disasm.ReadIconSections | procsvg/pack.go:410-416 | every "ICON" section yields its element, in order |
| Disasm.TaggedRoundTrip | procsvg/pack.go:396-419 | the tag-aware reader gives back every element of the stream `WriteTo` writes, in order |
| IconPack.Icon.Name | gdiplusdemo/IconPack.h:39 | the icon's name, or "" for an icon without data |
| IconPack.ErrorRecordsKeepArguments | gdiplusdemo/IconPack.h:102-132 | `EmptyImage` reports position 0; the other error records report the position and the index or opcode they were built with |
| IconPack.Take | gdiplusdemo/IconPack.cpp:11-12 | a read buffer always holds `n` bytes, and a good stream with enough data fills it with the next `n` bytes |
| IconPack.PaddedLe32Whole | gdiplusdemo/IconPack.cpp:10-16 | `readUint32` with four bytes available returns their little-endian value |
| IconPack.ShortReadEndsInZero | gdiplusdemo/IconPack.cpp:83-87 | a read past the end leaves a zero as its last byte, so a short stream never matches the magic "icpk" |
| IconPack.Stream.constructor | gdiplusdemo/IconPack.cpp:82 | a good stream at the start of the data |
| IconPack.Stream.Read | gdiplusdemo/IconPack.cpp:12 | `read` of `n` bytes succeeds exactly when the stream is good and has them, and then yields them and moves past them; otherwise the stream fails |
| IconPack.Stream.Get | gdiplusdemo/IconPack.cpp:32 | `get` yields the next byte and moves past it, or -1 and a failed stream at the end |
| IconPack.Stream.ReadUint32 | gdiplusdemo/IconPack.cpp:10-16 | `readUint32` yields the little-endian value of the next four bytes and moves past them, and fails exactly when they are not there |
| IconPack.Stream.ReadUint16 | gdiplusdemo/IconPack.cpp:18-23 | `readUint16` yields the little-endian value of the next two bytes and moves past them, and fails exactly when they are not there |
| IconPack.ImageTable | gdiplusdemo/IconPack.cpp:51-61 | the variant table holds exactly `numImages` records |
| IconPack.HeaderAt | gdiplusdemo/IconPack.cpp:26-49 | an accepted header has a size of at most 1 MiB, a name of 1 to 255 bytes and 1 to 255 variants, and the table starts right after it, within the data |
| IconPack.IconAt | gdiplusdemo/IconPack.cpp:25-78 | an accepted icon record moves the reader forward, and not past the end |
| IconPack.ReadHeader | gdiplusdemo/IconPack.cpp:26-49 | the header part of `loadIcon` accepts exactly the headers the definition accepts, and stops at the table |
| IconPack.ImageTableStep | gdiplusdemo/IconPack.cpp:53-61 | each record's offset is the sum of the sizes before it, wrapped to 32 bits |
| IconPack.ReadImageRecord | gdiplusdemo/IconPack.cpp:54-60 | one record: width, height, the running offset, and the size to add, failing exactly when 8 bytes are not there |
| IconPack.ReadImageTable | gdiplusdemo/IconPack.cpp:51-65 | the variant-table loop reads `n` records, failing exactly when the data is shorter than `8 n` bytes |
| IconPack.LoadIcon | gdiplusdemo/IconPack.cpp:25-78 | `loadIcon` returns an icon exactly when the definition accepts the record, and then that icon, leaving the stream after it |
| IconPack.LoadedIcons | gdiplusdemo/IconPack.cpp:92-101 | the loop reads at most `n` icons, and all `n` when it succeeds, moving forward within the data |
| IconPack.LoadedOneMore | gdiplusdemo/IconPack.cpp:93-96 | one more turn of the loop reads one more icon or stops |
| IconPack.LoadedIconsStop | gdiplusdemo/IconPack.cpp:94-96 | once a record is rejected the load is over: asking for more icons changes nothing |
| IconPack.LoadNext | gdiplusdemo/IconPack.cpp:93-96 | one turn of the loop reads the next icon exactly when the definition does, and leaves the stream after it |
| IconPack.Pack.constructor | gdiplusdemo/IconPack.h:58-60 | an empty pack with an empty name index |
| IconPack.Pack.Size | gdiplusdemo/IconPack.h:56 | `size` is the number of icons |
| IconPack.Pack.Load | gdiplusdemo/IconPack.cpp:82-104 | `load` appends the icons the stream holds, in order, returns whether the magic matched and every record was read, and, as written, registers only the name "" (for the first icon appended) |
| IconPack.Pack.AppendIcons | gdiplusdemo/IconPack.cpp:92-101 | the loop appends the icons the definition reads and registers each under its moved-from name |
| IconPack.Pack.Push | gdiplusdemo/IconPack.cpp:98-100 | as written: the icon goes last, and the index gains only "" (pointing at it) when "" is not yet there, since `insert` reads the moved-from name |
| IconPack.Pack.PushIntended | gdiplusdemo/IconPack.cpp:98-100 | the icon goes last, registered under its own name, keeping the index as intended, so `find` finds an icon of that name |
| IconPack.Pack.Find | gdiplusdemo/IconPack.cpp:106-118 | `find` returns an icon exactly when the name is in the index, and then the icon it points at |
| IconPack.NameIndex | gdiplusdemo/IconPack.cpp:98-100 | the intended index points only at icons of the pack |
| IconPack.NameIndexFinds | gdiplusdemo/IconPack.cpp:100 | every icon's name is in the intended index, at or before that icon, pointing at an icon of that name |
| IconPack.NameIndexNames | gdiplusdemo/IconPack.cpp:106-117 | every name in the intended index points at an icon of that name |
| IconPack.LoadThenFind | gdiplusdemo/IconPack.cpp:82-118 | as written, `find` after `load` never finds a non-empty name, and finds "" only as the first icon |
| IconPack.CoordAt | gdiplusdemo/IconPack.cpp:146-174 | `coord` moves forward and not past the end, by as many bytes as the first byte announces when they are there |
| IconPack.CoordAtAgreesWithGo | gdiplusdemo/IconPack.cpp:146-174 | where a whole coordinate is present, the C++ reader and Go's `CoordFromBytes` read the same value over the same bytes |
| IconPack.PointAt | gdiplusdemo/IconPack.cpp:176-178 | `point` moves forward and not past the end |
| IconPack.PointsAt | gdiplusdemo/IconPack.cpp:180-186 | `points` reads exactly `n` points, within the data |
| IconPack.ProgMem.constructor | gdiplusdemo/IconPack.cpp:131-133 | a cursor at `p` over the blob |
| IconPack.ProgMem.NextByte | gdiplusdemo/IconPack.cpp:139-144 | `byte` yields the byte at the cursor and moves by one, or 0 without moving at the end |
| IconPack.ProgMem.NextColor | gdiplusdemo/IconPack.cpp:233-236 | four `byte` calls read r, g, b, a in that order |
| IconPack.ProgMem.NextCoord | gdiplusdemo/IconPack.cpp:146-174 | `coord` reads the value the definition gives and moves the cursor as it says |
| IconPack.ProgMem.NextPoint | gdiplusdemo/IconPack.cpp:176-178 | `point` reads x, then y |
| IconPack.ProgMem.NextPoints | gdiplusdemo/IconPack.cpp:180-186 | the loop of `points` reads the `n` points the definition gives |
| IconPack.Step | gdiplusdemo/IconPack.cpp:220-285 | a pass that goes on moves forward, within the blob |
| IconPack.ExecuteOp | gdiplusdemo/IconPack.cpp:220-285 | one pass of the loop makes the engine calls and moves the cursor as the definition says |
| IconPack.PathAfterAppend | gdiplusdemo/IconPack.cpp:211-217 | the path state after two runs of engine calls is the state after the first carried into the second |
| IconPack.SegmentPointsShape | gdiplusdemo/IconPack.cpp:256-281 | lines read 17 to 32 points, cubic curves a multiple of 3 up to 48, quadratic curves a multiple of 2 up to 32 |
| IconPack.StepProtocol | gdiplusdemo/IconPack.cpp:220-285 | a pass that stops closes an open path on Stop; one that rejects stops at an unhandled opcode; one that goes on handled its opcode and keeps the path protocol |
| IconPack.StepIntended | gdiplusdemo/IconPack.cpp:246-263 | as intended, a pass that goes on moves forward, within the blob |
| IconPack.StepIntendedProtocol | gdiplusdemo/IconPack.cpp:220-285 | as intended, the loop keeps the same protocol, with line opcodes 0x80 to 0x8F handled, each reading one point per step above 0x7F, and 0x71 handled as a move to the following point with no close, the open-path flag kept |
| IconPack.RunProtocol | gdiplusdemo/IconPack.cpp:220-288 | the loop keeps the path protocol, closes the path on Stop, and ends on a Stop byte, an unhandled opcode or the end of the blob |
| IconPack.DrawIconProtocol | gdiplusdemo/IconPack.cpp:193-289 | `drawIcon` succeeds exactly for an offset past the blob or a Stop; it calls nothing when the offset is past the end or the view box leaves no program, and otherwise calls `ViewBox` first and keeps the path protocol |
| IconPack.DrawProgram | gdiplusdemo/IconPack.cpp:193-289 | `drawIcon` returns and calls what the definition gives |
| IconPack.FirstFitFrom | gdiplusdemo/IconPack.cpp:298-304 | the variant picked is one of the icon's variants |
| IconPack.FirstFitIsFirst | gdiplusdemo/IconPack.cpp:298-304 | the variant picked is the first that fits the box, or the last one when none does |
| IconPack.DrawIcon | gdiplusdemo/IconPack.cpp:293-305 | `DrawIcon` fails without calls for an icon without variants, and otherwise draws the first fitting variant, or the last |
| Path.Upper | procsvg/path.go:305-308 | a lower-case command letter becomes its upper-case letter |
| Path.NumEnd | procsvg/path.go:341-343 | the number loop stops at the first byte that is not a number byte, having passed only number bytes |
| Path.WithError | procsvg/path.go:381-385 | `seterr` leaves an error recorded, keeps the first one, and changes nothing else |
| Path.SpaceSkipped | procsvg/path.go:274-278 | `skipspace` moves past spaces only, to the end or to a byte that is not ' ', and changes nothing else |
| Path.NumberAhead | procsvg/path.go:280-287 | `isnum` skips spaces and is true exactly when a number byte follows |
| Path.CommandAhead | procsvg/path.go:289-311 | `nextcmd` yields an upper-case command letter and moves past it, or 0 with an error recorded |
| Path.CommaSkipped | procsvg/path.go:313-325 | `skipcomma` only moves the cursor forward |
| Path.NumberRead | procsvg/path.go:335-361 | `number` moves the cursor forward or records an error, and leaves the path alone |
| Path.PointRead | procsvg/path.go:371-375 | `point` moves forward or records an error, and leaves the path alone |
| Path.PointsLoop | procsvg/path.go:365-367 | the loop of `points` keeps the points read before and only moves forward |
| Path.PointsRead | procsvg/path.go:363-369 | `points` yields at least one point and moves forward or records an error |
| Path.NumbersLoop | procsvg/path.go:329-331 | the loop of `numbers` keeps the numbers read before and only moves forward |
| Path.NumbersRead | procsvg/path.go:327-333 | `numbers` yields at least one number and moves forward or records an error |
| Path.CmdAdded | procsvg/path.go:200-231 | `addcmd` leaves the cursor and error alone, makes the last point passed the current point, and moves the subpath start only on 'M' |
| Path.LinesAdded | procsvg/path.go:233-237 | `line` only adds commands |
| Path.CubicAdded | procsvg/path.go:248-253 | one turn of the cubic loop only adds commands |
| Path.Cubics | procsvg/path.go:247-254 | the cubic loop only adds commands |
| Path.CubicsChecked | procsvg/path.go:239-255 | `cubicBézier` keeps an earlier error and leaves the cursor alone |
| Path.QuadAdded | procsvg/path.go:266-270 | one turn of the quadratic loop only adds commands |
| Path.Quads | procsvg/path.go:265-271 | the quadratic loop only adds commands |
| Path.QuadsChecked | procsvg/path.go:257-272 | `quadraticBézier` keeps an earlier error and leaves the cursor alone |
| Path.HLinesAdded | procsvg/path.go:93-101 | the 'H' loop only adds commands |
| Path.VLinesAdded | procsvg/path.go:105-113 | the 'V' loop only adds commands |
| Path.ArcShapedAt | procsvg/path.go:181 | an arc flattening yields whole cubic segments |
| Path.ArcAdded | procsvg/path.go:170-183 | one arc, as intended, only adds commands |
| Path.ArcsAdded | procsvg/path.go:169-184 | the arc loop, as intended, only adds commands |
| Path.ArcsChecked | procsvg/path.go:161-184 | the 'A' case, as intended, keeps an earlier error and leaves the cursor alone |
| Path.MoveCmd | procsvg/path.go:82-86 | the 'M' case moves forward or records an error |
| Path.LineCmd | procsvg/path.go:88-89 | the 'L' case moves forward or records an error |
| Path.HCmd | procsvg/path.go:91-101 | the 'H' case moves forward or records an error |
| Path.VCmd | procsvg/path.go:103-113 | the 'V' case moves forward or records an error |
| Path.CubicCmd | procsvg/path.go:115-119 | the 'C' case moves forward or records an error |
| Path.SmoothCubicCmd | procsvg/path.go:121-137 | the 'S' case moves forward or records an error |
| Path.QuadCmd | procsvg/path.go:139-143 | the 'Q' case moves forward or records an error |
| Path.SmoothQuadCmd | procsvg/path.go:145-159 | the 'T' case moves forward or records an error |
| Path.ArcCmd | procsvg/path.go:161-184 | the 'A' case moves forward or records an error |
| Path.CloseCmd | procsvg/path.go:186-189 | 'Z' adds no command and makes the subpath start the current point and both control points |
| Path.Stepped | procsvg/path.go:66-191 | `step` moves forward or records an error, and never replaces an error |
| Path.Decoded | procsvg/path.go:60-64 | `run` ends with an error recorded or the whole attribute read |
| Path.CubicsStep | procsvg/path.go:247-254 | the cubic loop at index `i` adds one 'C' and goes on three points later |
| Path.QuadsStep | procsvg/path.go:265-271 | the quadratic loop at index `i` adds one 'Q' and goes on two points later |
| Path.ArcsStep | procsvg/path.go:169-184 | the arc loop at index `i` adds one arc and goes on seven numbers later |
| Path.PathDecoder.constructor | procsvg/path.go:11 | a decoder at the start of the attribute, without error or commands |
| Path.PathDecoder.SetErr | procsvg/path.go:381-385 | `seterr` as the definition says: the first error is kept |
| Path.PathDecoder.SkipSpace | procsvg/path.go:274-278 | the `skipspace` loop leaves the state the definition gives |
| Path.PathDecoder.IsNum | procsvg/path.go:280-287 | `isnum` as the definition says |
| Path.PathDecoder.NextCmd | procsvg/path.go:289-311 | `nextcmd` as the definition says |
| Path.PathDecoder.SkipComma | procsvg/path.go:313-325 | `skipcomma` as the definition says |
| Path.PathDecoder.Number | procsvg/path.go:335-361 | the `number` loop yields the number and state the definition gives |
| Path.PathDecoder.ReadPoint | procsvg/path.go:371-375 | `point` as the definition says |
| Path.PathDecoder.Points | procsvg/path.go:363-369 | the `points` loop yields the points and state the definition gives |
| Path.PathDecoder.Numbers | procsvg/path.go:327-333 | the `numbers` loop yields the numbers and state the definition gives |
| Path.PathDecoder.AddCmd | procsvg/path.go:200-231 | `addcmd` updates the commands and points as the definition says |
| Path.PathDecoder.Line | procsvg/path.go:233-237 | the `line` loop adds the lines the definition gives |
| Path.PathDecoder.AddCubic | procsvg/path.go:248-253 | one 'C' through three points made absolute |
| Path.PathDecoder.AddQuad | procsvg/path.go:266-270 | one 'Q' through two points made absolute |
| Path.PathDecoder.CubicBezier | procsvg/path.go:239-255 | `cubicBézier` as the definition says: an error unless the points come in threes, one 'C' per three otherwise |
| Path.PathDecoder.QuadraticBezier | procsvg/path.go:257-272 | `quadraticBézier` as the definition says: an error unless the points come in twos, one 'Q' per two otherwise |
| Path.PathDecoder.HLines | procsvg/path.go:93-101 | the 'H' loop adds the lines the definition gives |
| Path.PathDecoder.VLines | procsvg/path.go:105-113 | the 'V' loop adds the lines the definition gives |
| Path.PathDecoder.AddArc | procsvg/path.go:170-183 | one arc, as intended, from the current point |
| Path.PathDecoder.Arcs | procsvg/path.go:161-184 | the 'A' case, as intended: an error unless the numbers come in sevens, one arc per seven otherwise |
| Path.PathDecoder.Move | procsvg/path.go:82-86 | the 'M' case as the definition says |
| Path.PathDecoder.SmoothCubic | procsvg/path.go:121-137 | the 'S' case as the definition says |
| Path.PathDecoder.SmoothQuad | procsvg/path.go:145-159 | the 'T' case as the definition says |
| Path.PathDecoder.Step | procsvg/path.go:66-191 | `step` as the definition says |
| Path.PathDecoder.Run | procsvg/path.go:60-64 | the `run` loop leaves the state the definition gives |
| Path.PathDCmds | procsvg/path.go:10-21 | `PathDCmds` returns the commands or the first error, as the definition gives |
| Path.ArcsAsWritten | procsvg/path.go:161-184 | as written, the 'A' case, where it does not panic, only adds commands |
| Path.ArcGroupsAsWritten | procsvg/path.go:169-184 | as written, the arc loop, where it does not panic, only adds commands |
| Path.CmdAddedWellFormed | procsvg/path.go:200-231 | `addcmd` keeps every command well formed: 'M' with one point, 'L' with some, 'C' in threes, 'Q' in twos |
| Path.LinesWellFormed | procsvg/path.go:233-237 | `line` keeps every command well formed |
| Path.HLinesWellFormed | procsvg/path.go:93-101 | the 'H' loop keeps every command well formed |
| Path.VLinesWellFormed | procsvg/path.go:105-113 | the 'V' loop keeps every command well formed |
| Path.CubicsWellFormed | procsvg/path.go:247-254 | the cubic loop keeps every command well formed |
| Path.QuadsWellFormed | procsvg/path.go:265-271 | the quadratic loop keeps every command well formed |
| Path.ArcAddedWellFormed | procsvg/path.go:170-183 | one arc keeps every command well formed |
| Path.ArcsWellFormed | procsvg/path.go:169-184 | the arc loop keeps every command well formed |
| Path.MoveWellFormed | procsvg/path.go:82-86 | the 'M' case keeps every command well formed |
| Path.LineWellFormed | procsvg/path.go:88-89 | the 'L' case keeps every command well formed |
| Path.HWellFormed | procsvg/path.go:91-101 | the 'H' case keeps every command well formed |
| Path.VWellFormed | procsvg/path.go:103-113 | the 'V' case keeps every command well formed |
| Path.CubicWellFormed | procsvg/path.go:115-119 | the 'C' case keeps every command well formed |
| Path.SmoothCubicWellFormed | procsvg/path.go:121-137 | the 'S' case keeps every command well formed |
| Path.QuadWellFormed | procsvg/path.go:139-143 | the 'Q' case keeps every command well formed |
| Path.SmoothQuadWellFormed | procsvg/path.go:145-159 | the 'T' case keeps every command well formed |
| Path.ArcWellFormed | procsvg/path.go:161-184 | the 'A' case keeps every command well formed |
| Path.StepWellFormed | procsvg/path.go:66-191 | `step` keeps every command well formed |
| Path.DecodedWellFormed | procsvg/path.go:60-64 | `run` keeps every command well formed |
| Path.PathDCmdsWellFormed | procsvg/path.go:27-33 | every command `PathDCmds` returns is 'M', 'L', 'C' or 'Q' with a point count its letter allows |
| Path.DecodedEnds | procsvg/path.go:60-64 | `run` ends with an error or the whole attribute read, and does nothing once an error is recorded |
| Path.Accumulate | procsvg/path.go:69-78 | one running sum per relative move |
| Path.RelativeLinesAccumulate | procsvg/path.go:233-237 | relative lines are the lines to the running sums from the current point |
| Path.HLinesKeepY | procsvg/path.go:93-101 | 'H' lines keep the current point's y |
| Path.VLinesKeepX | procsvg/path.go:105-113 | 'V' lines keep the current point's x |
| Path.SpaceAfterCloseIsError | procsvg/path.go:60-64 | as written, "Z " fails with an unexpected end |
| Path.DecodedIntended | procsvg/path.go:60-64 | the `run` loop as intended, skipping trailing spaces, ends with an error or the whole attribute read |
| Path.SpaceAfterCloseAccepted | procsvg/path.go:60-64 | as intended, "Z " decodes to no commands |
| Path.IntendedAgreesOnSuccess | procsvg/path.go:60-64 | where `run` as written succeeds, the intended loop gives the same result |
| Path.ArcsAgreeWhereNoPanic | procsvg/path.go:161-184 | wherever the 'A' case as written does not panic, the numbers come in sevens and the corrected case gives the same result |
| Path.GroupsAgree | procsvg/path.go:169-184 | wherever the arc loop as written does not panic, the corrected loop gives the same result |
| Path.ShortArcPanics | procsvg/path.go:164-170 | as written, one to four numbers pass the length test and panic on `v[i:i+7]`; corrected, they are an invalid-arc error |
| Path.ZeroRadiusArcPanics | procsvg/path.go:180-183 | as written, an arc that flattens to nothing panics in `addcmd`; corrected, it is a line to its end point |
| Conv.HexNumberBound | procsvg/conv.go:344 | `k` hexadecimal digits spell a number below 16^k |
| Conv.ShortHexFits | procsvg/conv.go:344-349 | three or six digits always fit in 64 bits: `ParseUint` fails on them only for a bad digit |
| Conv.PowMonotone | procsvg/conv.go:344 | more digits allow larger numbers |
| Conv.ColorFromHex | procsvg/conv.go:339-364 | `colorfromhex` succeeds exactly for '#' and three or six hexadecimal digits, and the colour is opaque |
| Conv.Hex3 | procsvg/conv.go:350-354 | three digits spell their value in base 16 |
| Conv.Hex6 | procsvg/conv.go:356-360 | six digits spell three bytes, high pair first |
| Conv.ShortFormChannels | procsvg/conv.go:350-354 | in `#rgb` each digit is one channel, repeated: 0xa becomes 0xaa |
| Conv.ShortFormValue | procsvg/conv.go:350-354 | the short form shifts, masks and multiplies by 0x11 |
| Conv.ShortDigits | procsvg/conv.go:351-353 | shifting and masking `0xd1d2d3` gives back each digit |
| Conv.LongFormChannels | procsvg/conv.go:356-360 | in `#rrggbb` each pair of digits is one channel, high digit first |
| Conv.HexChar | procsvg/conv.go:344 | each digit value has a lower-case digit that reads back as it |
| Conv.HexColor | procsvg/conv.go:356-360 | `#rrggbb` text is '#' and six digits |
| Conv.HexColorRoundTrip | procsvg/conv.go:339-364 | `colorfromhex` of a colour's `#rrggbb` text gives back the colour, made opaque |
| Conv.IndexOf | procsvg/conv.go:374 | `strings.Index` is -1 exactly when the character is absent, and otherwise its first position |
| Conv.Split | procsvg/conv.go:371 | `strings.Split` gives at least one piece, none holding the separator |
| Conv.JoinSplit | procsvg/conv.go:371 | the pieces joined by the separator give the string back |
| Conv.SplitAt | procsvg/conv.go:371 | `Split` cuts at the first separator |
| Conv.JoinCons | procsvg/conv.go:371 | joining a piece before more pieces puts the separator between |
| Conv.IndexOfJoined | procsvg/conv.go:374 | the first separator of `a sep b` is right after a separator-free `a` |
| Conv.SplitFirst | procsvg/conv.go:371 | `Split` of `a sep rest` cuts off exactly the separator-free `a` |
| Conv.SplitJoin | procsvg/conv.go:371 | separator-free pieces come back from `Split` as they were joined |
| Conv.LeadingSpace | procsvg/conv.go:376 | the white space at the front, up to the first other character |
| Conv.TrailingSpace | procsvg/conv.go:376 | the white space at the end, back to the last other character |
| Conv.TrimSpace | procsvg/conv.go:376 | a trimmed text neither starts nor ends with white space |
| Conv.TrimSpaceMiddle | procsvg/conv.go:376 | `TrimSpace` removes white space from the two ends only |
| Conv.TrimSuffix | procsvg/conv.go:206 | `TrimSuffix` removes the suffix exactly when the text ends with it |
| Conv.CssEntry | procsvg/conv.go:374-377 | an entry gives a key and value exactly when its first ':' is past the start |
| Conv.EntriesMapSnoc | procsvg/conv.go:373-378 | one more entry updates the map with what that entry gives |
| Conv.CssDecode | procsvg/conv.go:366-380 | the `cssdecode` loop returns the map the definition gives |
| Conv.AddEntry | procsvg/conv.go:374-377 | one turn of the loop stores the entry's trimmed key and value, when its ':' is past the start |
| Conv.EntriesMapKeys | procsvg/conv.go:373-378 | a key is in the style map exactly when some entry sets it |
| Conv.EntriesMapLastWins | procsvg/conv.go:376 | a key's value is the one its last entry gives |
| Conv.AttrCount | procsvg/conv.go:308-316 | how many attributes have the name: 0 exactly when none has it |
| Conv.HasAttr | procsvg/conv.go:296-303 | `hasattr` is true exactly when some attribute has the name |
| Conv.LastValueUnique | procsvg/conv.go:313 | with one attribute of the name, its value is the one kept |
| Conv.AttrValue | procsvg/conv.go:305-318 | `findattr` fails exactly on a duplicate attribute, gives "" for none and the value of the only one otherwise |
| Conv.LastValueNone | procsvg/conv.go:306 | without the attribute the value stays "" |
| Conv.FindAttr | procsvg/conv.go:305-318 | the `findattr` loop with its `found` flag returns what the definition gives |
| Conv.CountGrows | procsvg/conv.go:308-316 | counting over a prefix never exceeds counting over the whole |
| Conv.Top | procsvg/conv.go:256-262 | `transform` is the identity for an empty stack and the top otherwise |
| Conv.FillBytes | procsvg/conv.go:283-291 | a palette colour is 0x02 and its index, any other is 0x01 and the four channels |
| Conv.Counted | procsvg/conv.go:279-281 | `colorCount[c]++` adds one for that colour and leaves the others, and does nothing without a map |
| Conv.FillStep | procsvg/conv.go:273-294 | `handle_fill` fails exactly without a solid fill, and otherwise writes the fill, records a non-palette colour, counts it, and changes nothing else |
| Conv.FillWith | procsvg/conv.go:283-291 | the same, for an already decoded fill |
| Conv.CmdsStep | procsvg/conv.go:247-251 | the command loop only appends to the program and tracks whether a path is open |
| Conv.CmdsStepAccepts | procsvg/conv.go:247-251 | every command the path decoder returns is accepted by `PathCmd` |
| Conv.PathStep | procsvg/conv.go:228-254 | `path` keeps the transform stack and only appends; a path that draws nothing writes nothing; anything written starts with the fill |
| Conv.PathDrawnUnder | procsvg/conv.go:228-254 | a path that draws, with a solid fill, is drawn without error under the top of the transform stack |
| Conv.SvgStep | procsvg/conv.go:200-226 | `svg` makes an image; it succeeds only with readable width and height, taken without "px", and then writes the view box |
| Conv.ViewBoxStep | procsvg/conv.go:217-225 | the view box is written exactly when `viewBox` scans as four numbers |
| Conv.ViewBoxWith | procsvg/conv.go:218-225 | the same, for an already looked-up `viewBox` text |
| Conv.ElementStep | procsvg/conv.go:189-195 | only `svg` and `path` elements do work; others change nothing |
| Conv.OwnTransform | procsvg/conv.go:179-183 | a node has its own matrix exactly when it has a `transform` attribute |
| Conv.Pushed | procsvg/conv.go:184 | a node's transform pushes top · T and changes nothing else |
| Conv.NodeStep | procsvg/conv.go:171-198 | `node` pops what it pushes, only appends, and skips a hidden node without change |
| Conv.TreeOf | procsvg/conv.go:154-169 | `tree` keeps the transform stack, only appends, and skips a hidden node |
| Conv.ChildrenOf | procsvg/conv.go:162-166 | the child loop keeps the transform stack and only appends |
| Conv.SvgProg.constructor | procsvg/conv.go:27-28 | a converter with an empty program at the given precision, no transforms and no image |
| Conv.SvgProg.PushTransform | procsvg/conv.go:264-266 | `pushTransform` puts the matrix on top and changes nothing else |
| Conv.SvgProg.PopTransform | procsvg/conv.go:268-271 | `popTransform` drops the top and changes nothing else |
| Conv.SvgProg.HandleFill | procsvg/conv.go:273-294 | `handle_fill` changes the state as the definition says, or reports its error and changes nothing |
| Conv.SvgProg.Fill | procsvg/conv.go:279-293 | the same, for an already decoded fill |
| Conv.SvgProg.PathElement | procsvg/conv.go:228-254 | `path` as the definition says |
| Conv.SvgProg.PathCmds | procsvg/conv.go:246-251 | the command loop as the definition says |
| Conv.SvgProg.SvgElement | procsvg/conv.go:200-226 | `svg` as the definition says |
| Conv.SvgProg.SvgViewBox | procsvg/conv.go:217-225 | the view-box part of `svg` as the definition says |
| Conv.SvgProg.ViewBoxFrom | procsvg/conv.go:218-224 | the view box from the scanned text as the definition says |
| Conv.SvgProg.NodeVisit | procsvg/conv.go:171-198 | `node` as the definition says |
| Conv.SvgProg.Tree | procsvg/conv.go:154-169 | `tree` as the definition says |
| Conv.SvgProg.Finish | procsvg/conv.go:146-150 | `finish` appends the stop opcode and returns the image with the program as its data |
| Conv.TreeIntended | procsvg/conv.go:154-198 | the intended walk keeps the transform stack, only appends, and skips hidden nodes |
| Conv.ChildrenIntended | procsvg/conv.go:162-166 | the intended child loop keeps the transform stack and only appends |
| Conv.GroupTransformLost | procsvg/conv.go:179-186 | as written, a path inside a transformed group is drawn without the group's transform, since the deferred pop runs before the children are visited |
| Conv.GroupVisited | procsvg/conv.go:171-198 | a visible group with a readable transform leaves the state as it found it before its children are walked |
| Conv.PlainPathTree | procsvg/conv.go:154-169 | a plain path is drawn without error under the top of the stack it is given, in either walk |
| Conv.GroupTransformApplied | procsvg/conv.go:179-186 | as intended, a path inside a group with transform T is drawn under top · T |
| Conv.DisplayAttributeHides | procsvg/conv.go:334-337 | `display="none"` hides the element |
| Conv.StyleFillNoneHides | procsvg/conv.go:320-337 | `style="fill:none"` hides the element, since the style lookup reads `fill` whatever was asked |
| Conv.StyleDisplayNoneShows | procsvg/conv.go:320-337 | `style="display:none"` does not hide the element |
| Conv.PresentationAttrIntended | procsvg/conv.go:320-327 | as intended, the presentation value agrees with the written one for `fill` and wherever the attribute itself is given, and fails exactly where the written one does |
| Conv.StyleEntryIntended | procsvg/conv.go:320-327 | a style of one `attr:v` entry gives `v` for `attr` as intended, while as written it gives `v` only for `fill` and "" otherwise |
| Conv.StyleOtherIntended | procsvg/conv.go:320-327 | as intended, a style of one `attr:v` entry gives "" for every other attribute |
| Conv.StyleDisplayNoneHidesIntended | procsvg/conv.go:320-337 | as intended, `style="display:none"` hides the element and `style="fill:none"` does not |
| Conv.FillNoneStyle | procsvg/conv.go:366-380 | "fill:none" decodes to `fill` = `none` |
| Conv.DisplayNoneStyle | procsvg/conv.go:366-380 | "display:none" decodes to `display` = `none` |
| Conv.SingleEntry | procsvg/conv.go:366-380 | a style with one `key:value` entry maps that key to that value |
| Conv.CssOfWhole | procsvg/conv.go:371-378 | a style without ';' is one entry |
| Conv.CssEntryJoined | procsvg/conv.go:374-377 | `key:value` splits at the colon after the key |
| Conv.TrimmedTrim | procsvg/conv.go:376 | trimming leaves trimmed text alone |
| Conv.SplitWhole | procsvg/conv.go:371 | a text without the separator is one piece |
| Conv.EntriesMapSingle | procsvg/conv.go:373-378 | one entry gives the map that entry sets |
| Conv.Attach | procsvg/conv.go:83-100 | closing an element keeps the depth of the open elements |
| Conv.XmlTreeOf | procsvg/conv.go:68-112 | `xmlTree` succeeds exactly with one root element, and fails with "Empty doc" on no tokens |
| Conv.XmlTree | procsvg/conv.go:68-112 | the token loop with its stack returns what the definition gives |
| Conv.BuildTokens | procsvg/conv.go:82-101 | an element's tokens build that element and close it into what is open |
| Conv.BuildChildren | procsvg/conv.go:82-101 | the children's tokens add those children to the open element |
| Conv.XmlRoundTrip | procsvg/conv.go:68-112 | an element's own tokens give back that element |
| Conv.TwoRootsRejected | procsvg/conv.go:104-111 | two elements side by side fail as multiple roots |
| Project.RowsOk | procsvg/project.go:50-60 | the row loop passes the first `n` rows exactly when each is non-empty and as long as the first |
| Project.RowsMap | procsvg/project.go:50-60 | after the loop, each row's first colour maps to the last row that starts with it |
| Project.RowsErr | procsvg/project.go:51-58 | the loop stops at the first bad row, an empty row being the one that panics on `cr[0]` |
| Project.RowsErrStays | procsvg/project.go:57 | once the loop has returned an error, later rows change nothing |
| Project.ColorMapMeaning | procsvg/project.go:43-63 | `ColorMap` refuses more than 127 rows, fails at the first bad row, and otherwise maps each first colour to its last row |
| Project.ColorMap | procsvg/project.go:43-63 | the `ColorMap` loop returns what the definition gives |
| Project.PiecesMeaning | procsvg/project.go:74-83 | the pieces are accepted exactly when each is empty or a colour; the colours are those of the non-empty pieces, all opaque; an error names a refused piece |
| Project.PiecesErrStays | procsvg/project.go:79-81 | once a piece is refused, later pieces change nothing |
| Project.RowMeaning | procsvg/project.go:67-91 | a row is accepted exactly when every piece is empty or a colour and at least one is a colour; its colours are opaque |
| Project.HexPieces | procsvg/project.go:74 | one `#rrggbb` piece per colour |
| Project.Opaque | procsvg/project.go:78 | each colour with its alpha set to 0xff |
| Project.PiecesOfHex | procsvg/project.go:74-83 | `#rrggbb` pieces read back as their colours made opaque |
| Project.SnocPieces | procsvg/project.go:74-83 | the pieces and colours of one more colour are one more at the end |
| Project.PiecesSnocColor | procsvg/project.go:78-82 | one more colour piece appends its colour |
| Project.SpaceNotHex | procsvg/project.go:74 | a `#rrggbb` piece holds no space |
| Project.RowRoundTrip | procsvg/project.go:67-91 | a row written as `#rrggbb` colours one space apart reads back as those colours made opaque |
| Project.ColorRow.constructor | procsvg/project.go:65 | a row holding the given colours |
| Project.ColorRow.Unmarshal | procsvg/project.go:67-91 | `UnmarshalJSON` fails exactly when the definition does, leaving the row as it was, and otherwise replaces the row with the colours read |
| GdiPlusIcon.Converted | gdiplusdemo/GdiPlusIcon.cpp:272-285 | `convertPoints`: the buffer is the pen position followed by the points, the pen moves to the last point, and nothing else changes |
| GdiPlusIcon.QuadCubics | gdiplusdemo/GdiPlusIcon.cpp:223-242 | three cubic points per quadratic segment |
| GdiPlusIcon.ViewBoxAsWritten | gdiplusdemo/GdiPlusIcon.cpp:172-179 | `ViewBox` as written: no transform exactly when the view box has no width or no height |
| GdiPlusIcon.ViewBoxCornerMisplaced | gdiplusdemo/GdiPlusIcon.cpp:172-179 | as written, the view box (8, 8)-(16, 16) in a 32-pixel box maps its corner (8, 8) to (24, 24) instead of the origin |
| GdiPlusIcon.ViewBoxed | gdiplusdemo/GdiPlusIcon.cpp:172-179 | `ViewBox` as intended: no transform exactly when the view box has no width or no height |
| GdiPlusIcon.AxisFits | gdiplusdemo/GdiPlusIcon.cpp:173-177 | on one axis the intended matrix takes the minimum to the box origin and the maximum to its far edge |
| GdiPlusIcon.ViewBoxCorners | gdiplusdemo/GdiPlusIcon.cpp:172-179 | as intended, the view box's corners map onto the box's corners |
| GdiPlusIcon.SameLinearPart | gdiplusdemo/GdiPlusIcon.cpp:177 | two matrices with the same scale are equal exactly when their translations are |
| GdiPlusIcon.OffsetAgreement | gdiplusdemo/GdiPlusIcon.cpp:177 | on one axis the written and the intended translation agree exactly when the minimum is 0 or the scale is 1 |
| GdiPlusIcon.MatricesAgree | gdiplusdemo/GdiPlusIcon.cpp:177 | the written and intended matrices agree exactly when, on each axis, the minimum is 0 or the scale is 1 |
| GdiPlusIcon.ViewBoxAgreement | gdiplusdemo/GdiPlusIcon.cpp:172-179 | `ViewBox` as written is right exactly when, on each axis, the view box starts at 0 or is drawn at scale 1 |
| GdiPlusIcon.ViewBoxAsWrittenShift | gdiplusdemo/GdiPlusIcon.cpp:177 | as written, every point lands where the intended transform puts it, shifted by `xmin (xscale - 1)` across and `ymin (yscale - 1)` down |
| GdiPlusIcon.Elevate1 | gdiplusdemo/GdiPlusIcon.cpp:227-235 | on one coordinate the cubic with control points a + 2/3 (b - a) and c + 2/3 (b - c) traces the quadratic a, b, c |
| GdiPlusIcon.CubicOfQuadTraces | gdiplusdemo/GdiPlusIcon.cpp:227-239 | each cubic segment `QuadraticBezierTo` pushes traces exactly the quadratic segment it replaces |
| GdiPlusIcon.QuadCubicsSnoc | gdiplusdemo/GdiPlusIcon.cpp:223-242 | one more quadratic segment adds its cubic segment where the others end |
| GdiPlusIcon.QuadCubicsLast | gdiplusdemo/GdiPlusIcon.cpp:241-244 | the buffer ends at the last segment's end point |
| GdiPlusIcon.QuadCubicsSegment | gdiplusdemo/GdiPlusIcon.cpp:223-242 | segment `i` of the buffer starts at the end of the segments before it and is the cubic of quadratic segment `i` |
| GdiPlusIcon.QuadBuffer | gdiplusdemo/GdiPlusIcon.cpp:213-244 | the conversion loop builds the pen position and the cubic points, and ends at the last end point |
| GdiPlusIcon.QuadToShape | gdiplusdemo/GdiPlusIcon.cpp:212-249 | `QuadraticBezierTo` leaves one point plus three per segment, starting at the pen, moves the pen to the last end point and marks the path as drawn |
| GdiPlusIcon.MoveKeepsPathFlag | gdiplusdemo/GdiPlusIcon.cpp:189-196 | `MoveTo` closes a figure only after a segment, starts one, moves the pen, and leaves the path flag, counter and fills alone |
| GdiPlusIcon.CloseResets | gdiplusdemo/GdiPlusIcon.cpp:251-270 | `ClosePath` always empties the path and clears the flag; it counts, and may fill, only a path that holds a segment |
| GdiPlusIcon.ToPointsF | gdiplusdemo/GdiPlusIcon.cpp:278-280 | one `PointF` per point |
| GdiPlusIcon.Apply | gdiplusdemo/IconPack.h:79-98 | an engine call never changes the box or the debug index |
| GdiPlusIcon.ApplyAll | gdiplusdemo/IconPack.h:79-98 | nor does a run of calls |
| GdiPlusIcon.StepCallable | gdiplusdemo/IconPack.cpp:220-285 | the interpreter only makes calls the engine can take: 17 to 32 line points, cubic points in threes, quadratic points in twos |
| GdiPlusIcon.RunCallable | gdiplusdemo/IconPack.cpp:220-288 | so does the whole loop |
| GdiPlusIcon.DrawIconAtCallable | gdiplusdemo/IconPack.cpp:193-289 | so does `drawIcon` |
| GdiPlusIcon.AllPathsFilled | gdiplusdemo/GdiPlusIcon.cpp:260-264 | without a debug path every counted path is filled |
| GdiPlusIcon.OnePathFilled | gdiplusdemo/GdiPlusIcon.cpp:255-264 | with debug path `n`, only the path numbered `n` is filled, once |
| GdiPlusIcon.Engine.constructor | gdiplusdemo/GdiPlusIcon.cpp:97-99 | a transparent brush, an empty path, the pen at the origin |
| GdiPlusIcon.Engine.ViewBox | gdiplusdemo/GdiPlusIcon.cpp:172-179 | `ViewBox` sets the transform as written: the view box is scaled to the box, the translation `m_ox - xmin`, `m_oy - ymin` is not scaled, and nothing else changes |
| GdiPlusIcon.Engine.DebugSinglePath | gdiplusdemo/GdiPlusIcon.cpp:168-170 | sets the debug index and nothing else |
| GdiPlusIcon.Engine.ConvertPoints | gdiplusdemo/GdiPlusIcon.cpp:272-285 | the `convertPoints` loop leaves the state the definition gives |
| GdiPlusIcon.Engine.MoveTo | gdiplusdemo/GdiPlusIcon.cpp:189-196 | `MoveTo` as the definition says |
| GdiPlusIcon.Engine.LineTo | gdiplusdemo/GdiPlusIcon.cpp:198-203 | `LineTo` adds the pen position and the points as lines and marks the path as drawn |
| GdiPlusIcon.Engine.CubicBezierTo | gdiplusdemo/GdiPlusIcon.cpp:205-210 | `CubicBezierTo` adds the pen position and the points as Béziers and marks the path as drawn |
| GdiPlusIcon.Engine.QuadraticBezierTo | gdiplusdemo/GdiPlusIcon.cpp:212-249 | `QuadraticBezierTo` adds the converted cubic points as the definition says |
| GdiPlusIcon.Engine.ClosePath | gdiplusdemo/GdiPlusIcon.cpp:251-270 | `ClosePath` as the definition says |
| GdiPlusIcon.Engine.SetSolidFill | gdiplusdemo/GdiPlusIcon.cpp:184-187 | the brush takes the colour after `Colorize`, alpha first |
| GdiPlusIcon.Engine.Call | gdiplusdemo/IconPack.h:85-97 | one interpreter call reaches the matching engine method |
| GdiPlusIcon.Engine.Replay | gdiplusdemo/IconPack.h:85-97 | the engine takes the calls in order and keeps its box |
| GdiPlusIcon.Engine.DrawIconImpl | gdiplusdemo/GdiPlusIcon.cpp:162-166 | the path counter starts at 1 and the engine takes the calls the icon makes for the box |
| GdiPlusIcon.Engine.DrawIconDirect | gdiplusdemo/GdiPlusIcon.cpp:111-132 | the box is the rectangle itself, with no transform, then the icon's calls |
| GdiPlusIcon.Engine.DrawIcon | gdiplusdemo/GdiPlusIcon.cpp:136-160 | the box is the rectangle's size at the origin; the buffer for its key is reused or made once; then the icon's calls |
| GdiPlusIcon.IconCalls | gdiplusdemo/IconPack.cpp:293-305 | every call an icon makes is one the engine can take |
| GdiPlusIcon.DrawOnePath | gdiplusdemo/GdiPlusIcon.cpp:255-264 | in debug mode a drawing fills at most one path, and one exactly when it reaches the debug path |
| GdiPlusIcon.Pow2 | gdiplusdemo/GdiPlusIcon.cpp:144 | `1 << n` is positive |
| GdiPlusIcon.OrLow | gdiplusdemo/GdiPlusIcon.cpp:144 | OR with a value below 2^n adds it to a multiple of 2^n |
| GdiPlusIcon.Pow2Add | gdiplusdemo/GdiPlusIcon.cpp:144 | shifting by a + b is shifting by a then by b |
| GdiPlusIcon.Pow2Sixteen | gdiplusdemo/GdiPlusIcon.cpp:144 | `1 << 16` is 65536 |
| GdiPlusIcon.KeyOfSmallSize | gdiplusdemo/GdiPlusIcon.cpp:144 | for 16-bit sizes the key is `dx 65536 + dy` |
| GdiPlusIcon.KeyInjective | gdiplusdemo/GdiPlusIcon.cpp:144 | 16-bit sizes get equal keys exactly when they are equal |
| GdiPlusIcon.KeysCollideBeyond16Bits | gdiplusdemo/GdiPlusIcon.cpp:144 | a 0 by 65536 box gets the key of a 1 by 0 box |
| GdiPlusIcon.KeyWidthOnly | gdiplusdemo/GdiPlusIcon.cpp:144 | with no height the key is the width in the upper half |
| GdiPlusIcon.KeyHeightOnly | gdiplusdemo/GdiPlusIcon.cpp:144 | with no width the key is the height, truncated to 32 bits |
| GdiPlusIcon.DibCache.constructor | gdiplusdemo/GdiPlusIcon.cpp:145 | an empty buffer cache |
| GdiPlusIcon.DibCache.Lookup | gdiplusdemo/GdiPlusIcon.cpp:144-150 | the buffer for the key, made and inserted only when the key is absent; a cache that files buffers under their own size stays so |
| GdiPlusIcon.LookupGetsItsSize | gdiplusdemo/GdiPlusIcon.cpp:144-150 | for 16-bit sizes a cached buffer has exactly the size asked for |
| GdiPlusIcon.MulMono | gdiplusdemo/GdiPlusIcon.cpp:52-58 | row offsets grow with the row |
| GdiPlusIcon.RowBounds | gdiplusdemo/GdiPlusIcon.cpp:54-58 | a byte of row `y` lies before row `y + 1`, inside the buffer |
| GdiPlusIcon.CopiedStep | gdiplusdemo/GdiPlusIcon.cpp:55-59 | copying row `y` from the flipped source row keeps the rows before it and adds it |
| GdiPlusIcon.RowStep | gdiplusdemo/GdiPlusIcon.cpp:55-59 | the offsets of one turn stay inside both buffers and move by a row |
| GdiPlusIcon.CopyRow | gdiplusdemo/GdiPlusIcon.cpp:56 | `memcpy` of one row copies those bytes and changes nothing else |
| GdiPlusIcon.CopyBits | gdiplusdemo/GdiPlusIcon.cpp:43-63 | `CopyBits` fails, changing nothing, when the bitmap cannot be locked, and otherwise copies every row bottom-up into the DIB |
| MainApp.Truncb | gdiplusdemo/main.cpp:237-241 | `truncb` keeps a value in 0..255 and clamps others to 0 or 255 |
| MainApp.LumaSumBetween | gdiplusdemo/main.cpp:248 | the weighted sum lies between the smallest and the largest channel times 65536, the sum of the weights |
| MainApp.DivBetween | gdiplusdemo/main.cpp:248 | the shift by 16 keeps those bounds |
| MainApp.GrayBetween | gdiplusdemo/main.cpp:243-249 | `gray` lies between the smallest and largest channel, never needs clamping, and keeps a grey unchanged |
| MainApp.ColorizeRange | gdiplusdemo/main.cpp:251-267 | `Colorize` changes nothing outside grey mode; in grey mode it gives a grey in 128..191, or 64..127 when dark, the dark shade 64 below the light one |
| MainApp.ColorizeMonotone | gdiplusdemo/main.cpp:251-267 | grey mode keeps the order of luma |
| MainApp.GreyBrush | gdiplusdemo/GdiPlusIcon.cpp:184-187 | in grey mode every brush the engine sets is a grey of the mode's range, with the alpha it was given |
| MainApp.ColorizerIconEngine.constructor | gdiplusdemo/main.cpp:13-23 | light mode, grey off, colour mode 0 |
| MainApp.ColorizerIconEngine.ModeKey | gdiplusdemo/main.cpp:221-231 | 'Q' toggles grey, 'E' toggles dark, 'R' steps the colour mode modulo 3; nothing else changes |
| MainApp.SizeDown | gdiplusdemo/main.cpp:183-188 | 'I' steps the paint size back, from the first to the last |
| MainApp.SizeUp | gdiplusdemo/main.cpp:190-195 | 'K' steps the paint size on, from the last to the first |
| MainApp.IconDown | gdiplusdemo/main.cpp:207-212 | 'A' steps the single icon back, from 0 to the pack size |
| MainApp.IconUp | gdiplusdemo/main.cpp:214-219 | 'D' steps the single icon on, from the pack size to 0 |
| MainApp.KeyDownValid | gdiplusdemo/main.cpp:172-235 | every key keeps the indices in range |
| MainApp.SizeKeysCycle | gdiplusdemo/main.cpp:183-195 | 'K' and 'I' step around the eight paint sizes |
| MainApp.ModSmall | gdiplusdemo/main.cpp:230 | a value below the modulus is its own remainder |
| MainApp.ModSelf | gdiplusdemo/main.cpp:230 | the modulus leaves no remainder |
| MainApp.ModWrap | gdiplusdemo/main.cpp:230 | adding the modulus does not change the remainder |
| MainApp.IconKeysCycle | gdiplusdemo/main.cpp:207-219 | 'D' and 'A' step around 0 ..= pack size, 0 showing all icons |
| MainApp.DebugKeys | gdiplusdemo/main.cpp:197-205 | 'S' then 'W' comes back to the same path, and 'W' stops at 0 |
| MainApp.KeyChangesOneField | gdiplusdemo/main.cpp:172-235 | every key invalidates the window and changes at most its own field; unbound keys change nothing else |
| MainApp.ColorModeCycles | gdiplusdemo/main.cpp:229-231 | 'R' cycles the colour mode 0, 1, 2, 0 |
| MainApp.PalIdx | gdiplusdemo/main.cpp:273 | palette 1 exactly in dark mode, else palette 0 |
| MainApp.LayoutInOrder | gdiplusdemo/main.cpp:300-312 | icons are drawn in pack order, each at most once, as squares of the paint size with one palette |
| MainApp.LayoutSteps | gdiplusdemo/main.cpp:300-312 | the first icon is at the pen; each next one is one size and pad to the right, or at the start of the next row |
| MainApp.LayoutFits | gdiplusdemo/main.cpp:304-311 | no icon goes past the right edge unless alone on its row, and no row starts below the bottom edge |
| MainApp.PaintMeaning | gdiplusdemo/main.cpp:269-313 | `OnPaint` fills the background in the mode's colour, hatched when the pattern is on, and draws either the one chosen icon or the laid-out pack, with the dark palette exactly in dark mode |
| MainApp.AppendAssoc | gdiplusdemo/main.cpp:300-312 | draws appended in turn can be regrouped |
| MainApp.LayoutLoop | gdiplusdemo/main.cpp:300-312 | the loop over the pack makes the draws of the layout |
| MainApp.Window.constructor | gdiplusdemo/main.cpp:36-43 | the window state starts at size 0, no debug path, all icons, no pattern, not direct |
| MainApp.Window.OnKeyDown | gdiplusdemo/main.cpp:172-235 | `OnKeyDown` changes the state as the definition says, and keeps the indices in range |
| MainApp.Window.HandleKey | gdiplusdemo/main.cpp:143-149 | Escape quits without change; any other key goes to `OnKeyDown`; either way the indices stay in range |
| MainApp.Window.OnPaint | gdiplusdemo/main.cpp:269-313 | `OnPaint` gives the background and draws the definition gives, and sets only the engine's debug path |
| Paint.RowStartMono | gdiplusdemo/paint.cpp:185-186 | a later row of the image starts at least one stride after an earlier one |
| Paint.BlockInsideRow | gdiplusdemo/paint.cpp:150-152 | every row of a block that lies inside the source buffer lies inside it too |
| Paint.RoundedNearest | gdiplusdemo/paint.cpp:161-165 | `(sum + n/2) / n` is the multiple of n nearest to the sum, ties rounding up |
| Paint.RowSumBounds | gdiplusdemo/paint.cpp:152-157 | a row sum of w bytes lies between 0 and 255 w |
| Paint.BlockSumBounds | gdiplusdemo/paint.cpp:150-159 | a block sum of rows times w bytes lies between 0 and 255 rows w |
| Paint.AvgNoWrap | gdiplusdemo/paint.cpp:145-165 | with scale at most 4096, `scale*scale` fits an int and the rounded sum fits the 32-bit accumulator, so nothing wraps |
| Paint.RoundedLe255 | gdiplusdemo/paint.cpp:162-165 | the rounded average of at most 255 per pixel is a byte |
| Paint.RowSumUniform | gdiplusdemo/paint.cpp:152-157 | a row whose channel is v everywhere sums to v w |
| Paint.BlockSumUniform | gdiplusdemo/paint.cpp:150-159 | a block whose channel is v everywhere sums to v times its pixel count |
| Paint.AvgUniform | gdiplusdemo/paint.cpp:142-166 | averaging a block whose channel is v everywhere gives exactly v |
| Paint.RowSumNext | gdiplusdemo/paint.cpp:153-156 | each pixel of a row adds its own byte of each channel to that channel's sum |
| Paint.AddRow | gdiplusdemo/paint.cpp:152-158 | the inner loop adds the row's a, r, g and b sums to the four accumulators |
| Paint.SumBlock | gdiplusdemo/paint.cpp:145-159 | the outer loop leaves each accumulator equal to its channel's block sum |
| Paint.AvgPixel | gdiplusdemo/paint.cpp:142-166 | the four destination bytes become the rounded block averages of their channels, and no other byte changes |
| Paint.AvgOf | gdiplusdemo/paint.cpp:161-165 | dividing one channel's block sum with rounding gives that channel's average |
| Paint.BlockSumNext | gdiplusdemo/paint.cpp:150-159 | one more row adds that row's sum to the block sum and stays inside the buffer |
| Paint.SrcBlockInside | gdiplusdemo/paint.cpp:168-192 | the source block of every destination pixel lies inside the source buffer |
| Paint.PixelInside | gdiplusdemo/paint.cpp:185-188 | every destination pixel's four bytes lie inside the destination buffer |
| Paint.PixelBefore | gdiplusdemo/paint.cpp:184-190 | a pixel earlier in row order is stored wholly before a later one |
| Paint.PixelInImage | gdiplusdemo/paint.cpp:185-188 | the bytes written for pixel (x, y) are image bytes, never row padding |
| Paint.DoneKept | gdiplusdemo/paint.cpp:184-192 | writing at and after pixel (x, y) keeps every finished pixel before it |
| Paint.UntouchedKept | gdiplusdemo/paint.cpp:184-192 | rewriting one pixel leaves every byte outside the image as it was |
| Paint.DownscaleRow | gdiplusdemo/paint.cpp:185-191 | one row pass finishes row y and touches no padding byte |
| Paint.DoneRowEmpty | gdiplusdemo/paint.cpp:184-192 | a row of width zero is finished at once |
| Paint.SimpleDownscale | gdiplusdemo/paint.cpp:168-196 | every destination pixel becomes the rounded average of its scale-by-scale source block, and bytes outside the image are unchanged |
| Paint.DoneNext | gdiplusdemo/paint.cpp:188-190 | writing the averages of pixel (x, y) extends the finished prefix by that pixel, and by a whole row at the row's end |
| Paint.BlockPixel | gdiplusdemo/paint.cpp:185-190 | pixel (xx, yy) of the block of destination pixel (x, y) is source pixel (x scale + xx, y scale + yy) |
| Paint.BlockCoord | gdiplusdemo/paint.cpp:184-186 | block coordinates stay within the source's scaled extent |
| Paint.DownscaleFlat | gdiplusdemo/paint.cpp:168-196 | a source whose channel is flat downscales to the same flat channel |
| Interop.RawImages | gdiplusdemo/IconPack.cpp:50-65 | one variant record per written image, in order |
| Interop.HeaderFields | procsvg/pack.go:366-370 | the width, height and data size written into an image header read back through `readUint16`/`readUint32` (gdiplusdemo/IconPack.cpp:10-23) as the writer's truncated values |
| Interop.TableRead | gdiplusdemo/IconPack.cpp:50-65 | the variant table `loadIcon` reads over the headers `dataBytes` wrote is the writer's images with running offsets, and the sizes sum to the length of the written data |
| Interop.HeaderRead | gdiplusdemo/IconPack.cpp:25-48 | `loadIcon` reads back the size, name and image count `writeTo` and `dataBytes` wrote (procsvg/pack.go:346, 360-362) |
| Interop.IconFromHeader | gdiplusdemo/IconPack.cpp:48-77 | after an accepted header whose table fits its record, `loadIcon` succeeds, advances past the record, keeps the name, has no palette and reads the table |
| Interop.BlobFromHeader | gdiplusdemo/IconPack.cpp:66-74 | the icon's blob is the rest of the record after the variant table |
| Interop.RecordSplit | procsvg/pack.go:343-378 | the bytes `writeTo` lays out regroup into header, table and data as `loadIcon` walks them |
| Interop.LaidOutRead | gdiplusdemo/IconPack.cpp:25-78 | `loadIcon` on a record laid out by `dataBytes` returns its name, its images and their data, and consumes exactly the record |
| Interop.IconAtRoundTrip | procsvg/pack.go:343-378 | every record `writeTo` writes for a loadable element is read back by `loadIcon` (gdiplusdemo/IconPack.cpp:25-78) with the element's name, images and data, consuming exactly the record |
| Interop.WriterShortLineRejected | gdiplusdemo/IconPack.cpp:256 | a line op of 1 to 16 points that the Go writer emits (opcode 0x80 to 0x8F, procsvg/prog.go:113-120) is rejected by the reader as written, while the intended reader draws it as a line of those points |
| Interop.WriterMoveRejected | gdiplusdemo/IconPack.cpp:246-254 | a move the Go writer emits inside an open path (procsvg/prog.go:65-79) starts with opcode 0x71 and is rejected by the reader, after closing the open figure |
| Interop.WriterMoveDrawn | gdiplusdemo/IconPack.cpp:246-254 | under the intended loop body, that same move (procsvg/prog.go:65-79) is drawn: a move to the point after 0x71, with no close before it and the open-path flag kept |

## Left out

- IconPack.LoadIcon: when the variant table is longer than the declared size, `fileSize - headerLen` wraps in `size_t`, and `resize` throws `std::length_error` out of `Pack::load` (gdiplusdemo/IconPack.cpp:67-70). The model returns `None`, and `Load` returns false.
- IconPack.Take: the bytes a short `strm.read` leaves unfilled are indeterminate in C++ (gdiplusdemo/IconPack.cpp:11-15, 19-22). The model reads them as zero. `Pack::load` does not test the stream after reading the count (gdiplusdemo/IconPack.cpp:90), so on the four bytes "icpk" the model loads an empty pack, while in C++ the count is indeterminate.
- IconPack.PaddedLe32: reads missing bytes as zero, for the same reason as `Take`.
- IconPack.ImageTable: `RawImage::size` is never set by `loadIcon` (gdiplusdemo/IconPack.cpp:54-61). The model sets it to 0.
- IconPack.Pack.Push: the name under which `Pack::load` registers an icon is read from the moved-from optional (gdiplusdemo/IconPack.cpp:99-100). The model takes it to be "", which is what the common standard libraries leave behind.
- IconPack.Pack.Load: for the reasons given for `LoadIcon` and `Take`, it does not model the exception or the indeterminate bytes.
- Path.PathDCmds: `fmt.Println` of the input (procsvg/path.go:15-16) is output only, and is dropped.
- Path.PathDCmds: floating-point numbers are `real`. `strconv.ParseFloat` and `arcToBezier` (procsvg/arc.go) are parameters with no properties. The decoder and `PathDCmdsOf` run the corrected 'A' loop; the loop as written is `ArcsAsWritten` (see Findings).
- Path.ArcGroupsAsWritten: a last group of five or six numbers is sliced beyond the list's length but may stay within its capacity. Go then reads zeroed spare slots instead of panicking. The model gives `None` (a panic) for every short group. `ShortArcPanics` claims the panic only for one to four numbers, where the capacity is at most four.
- Path.PathDecoder: Go strings are byte strings, but the model uses `seq<char>` with one character per byte. Error positions therefore count characters.
- Trans.TransformScanner.ParseArg: at the end of the input, the number loop of `parsearg` never stops, because `ch()` keeps returning -1 (procsvg/trans.go:269-315). The model returns the outcome `Diverges` instead of looping.
- `Matrix.Rotate` (procsvg/trans.go:76-98): trigonometry. It is a parameter (`rotate`) of the transform parser.
- Conv.FindAttr: `findattr` panics on a repeated attribute (procsvg/conv.go:305-318). The model returns an `Err`.
- Conv.SvgProg.NodeVisit: the message about `clip-path` written to standard error is dropped.
- Conv.XmlTree: the `encoding/xml` decoder is not part of this model. Its tokens are an input.
- Conv.SvgProg.SvgElement: `strconv.Atoi` and `fmt.Sscan` of the view box are parameters.
- `pathSort` (procsvg/conv.go:114-129): not modelled. Its only call is commented out (procsvg/conv.go:15).
- `PathCmd.String` (procsvg/path.go:35-43): debug text, not modelled.
- `ConvertSvg`, `CollectSvgColors`, `fileXmlTree`, `pack_project`, `findIcons`, `do_gen_src` and `do_pack_disasm`: file I/O, templates and a goroutine pipe, not modelled.
- Coord.CoordBytes: `math.Round` is written out over `real`, as half away from zero. The `float32` conversion of the 4-byte form is a parameter.
- GdiPlusIcon.ToPointF: the value of a binary32 bit pattern is a parameter (`f32`).
- GdiPlusIcon.Engine: GDI+ drawing is recorded as state, not pixels. This covers `Graphics`, `GraphicsPath`, `FillPath`, `DrawImage` and `AlphaBlend`, and the `DIBBuf` constructor's `CreateDIBSection`.
- GdiPlusIcon.Engine.DrawIconImpl: `Icon::Draw` is declared in gdiplusdemo/IconPack.h but defined nowhere, so it is not part of this model. `DrawIconImpl` replays the events of `IconPack.DrawIcon` through the engine.
- GdiPlusIcon.DibCache.Lookup: the cache holds sizes, not bitmaps.
- MainApp.ColorizerIconEngine.ModeKey: `colorMode` cycles through 0, 1 and 2 but is read nowhere in the source, so it has no effect on drawing.
- MainApp.Window.constructor: requires fewer than 2^31 icons. That is the range of the `int` index that `OnKeyDown` wraps around.
- MainApp.Window.OnPaint: it returns the background and the list of draws instead of painting them with GDI.
- `wWinMain`, `WindowProc` apart from its key branch, and gdiplusdemo/window.cpp: Win32 windowing and the message loop, not modelled.
- Paint.AvgPixel: `scale` is limited to 1 to 4096, so that `scale*scale` and the `UINT` sums cannot overflow. Strides are non-negative, and the destination stride is positive.
- Paint: the `Gdiplus::Color` overload of `AvgPixel` (gdiplusdemo/paint.cpp:113-140) is not modelled. Its own note says it does not work. `PaintIcon*`, `PaintGrid`, `GdiPlusDownscale`, `PaintZoomed` and `OnPaint` of gdiplusdemo/paint.cpp are GDI+ drawing, and are not modelled either.
- Pack: `RGBToYCbCr`, `YCbCrToRGB` and `color.NRGBAModel` (procsvg/pack.go:318-320) are parameters. Go's `sort.Slice` is not stable, so only sortedness and permutation are claimed about it.
- Coord: colour-space conversions (gdiplusdemo/color.h) and arc flattening (procsvg/arc.go) are floating-point numerics, not modelled.

## Findings

Each row pairs a member that models the code as written with a corrected member. The rest of the model follows the code as written. The one exception is the 'A' loop of the path decoder, which runs the corrected form, as `Path.PathDCmds` under "## Left out" says.

| source | as written | input that shows it | evidently intended | confidence | as-written member | corrected member |
|---|---|---|---|---|---|---|
| gdiplusdemo/GdiPlusIcon.cpp:172-179 | the translation is `m_ox - xmin`, which is not multiplied by the scale | view box (8, 8)-(16, 16) on a 32 by 32 box at the origin: the corner (8, 8) lands on (24, 24) instead of (0, 0) | translation `m_ox - xmin * xscale`, so that the view box's corners map onto the box's corners | high (not executed) | GdiPlusIcon.ViewBoxAsWritten, GdiPlusIcon.ViewBoxCornerMisplaced, GdiPlusIcon.ViewBoxAsWrittenShift, GdiPlusIcon.Engine.ViewBox | GdiPlusIcon.ViewBoxed, GdiPlusIcon.ViewBoxCorners |
| procsvg/conv.go:154-186 | `node` pushes a `transform` and defers the pop, which runs when `node` returns, before `tree` visits the children | a `<g transform="...">` holding one plain `<path>`: the path is drawn under the outer matrix and the group's transform is lost | the group's transform applies to its children | high (not executed) | Conv.GroupTransformLost | Conv.TreeIntended, Conv.GroupTransformApplied |
| procsvg/path.go:164-184 | the test `len(v) == 0 && len(v)%7 != 0` can never hold. An arc that flattens to nothing passes an empty list to `addcmd`, which indexes `v[len(v)-1]` (procsvg/path.go:214) | "M0 0 A0 0 0 0 0 1 1" (zero radius) panics; "A1 1 0 0" (four numbers) slices past the capacity and panics | an arc list whose length is not a multiple of 7 is an invalid arc, and an empty flattening becomes a line to the end point | high (not executed) | Path.ArcsAsWritten, Path.ZeroRadiusArcPanics, Path.ShortArcPanics | Path.ArcsChecked, Path.ArcsAgreeWhereNoPanic, Path.PathDCmds |
| procsvg/disasm.go:175 | SOLIDFILL reads its operands into r, b, g, a | the bytes 0x01 0 1 2 255 are listed as green 2 and blue 1 | r, g, b, a, the order in which `ProgMem.Color` writes them (procsvg/prog.go:45-51) | high (not executed) | Disasm.FillAsRead, Disasm.FillSwapsGreenBlue | Disasm.FillIntended, Disasm.FillIntendedRoundTrip, Disasm.FillReadingsSwap |
| procsvg/pack.go:204-205 | a control rune becomes `\x` followed by its number in decimal, padded to two digits, so a rune from 100 on takes three | the rune 12 followed by '7' and the single rune 127 both give `"\x127"` | `\x` followed by exactly two hex digits, as a Go string literal reads it | medium (not executed) | Pack.QuotedCollides | Pack.QuotedHex, Pack.UnquoteQuotedHex |
| procsvg/trans.go:165 | `result.Scale(sx, sy)` discards the scaled matrix | "scale(2)" yields the identity | `result = result.Scale(sx, sy)` | high (not executed) | Trans.ScaleIsDiscarded | Trans.ApplyIntended, Trans.ScaleApplied |
| procsvg/disasm.go:9-37 | `DumpPack` reads a size right after the icon count, while `WriteTo` writes a "PALT" or "ICON" tag there (procsvg/pack.go:396-419) | any pack with at least one icon: the tag is read as a size above 1<<20 and the dump stops with an invalid size | skip each tag and read the icon records that follow | high (not executed) | Disasm.DumpStopsAtTag | Disasm.TaggedElems, Disasm.TaggedRoundTrip |
| procsvg/path.go:60-64 | `run` tests for the end of the data before skipping spaces, so `nextcmd` meets the end | "Z " gives an unexpected end of data | trailing spaces end the attribute | medium (not executed) | Path.SpaceAfterCloseIsError | Path.DecodedIntended, Path.SpaceAfterCloseAccepted, Path.IntendedAgreesOnSuccess |
| gdiplusdemo/IconPack.cpp:98-100 | the name key is read from `*x` after `*x` was moved into the vector | any pack whose icon has a non-empty name: `find` of that name gives null | register the icon under its own name | medium (not executed) | IconPack.LoadThenFind, IconPack.Pack.Push | IconPack.Pack.PushIntended, IconPack.NameIndexFinds |
| gdiplusdemo/IconPack.cpp:256 | `case 0x80, 0x90:` is a comma expression, so only the label 0x90 exists, and a move after the first in a path (0x71) is refused at gdiplusdemo/IconPack.cpp:246-254 | a line of 1 to 16 points, which the Go writer encodes as 0x80 to 0x8F, and any second move in a path: the interpreter stops with an invalid op code | every op code from 0x80 to 0x9F is a line, and 0x71 moves within the path | high (not executed) | Interop.WriterShortLineRejected, Interop.WriterMoveRejected | IconPack.StepIntended, IconPack.StepIntendedProtocol, Interop.WriterMoveDrawn |
| procsvg/conv.go:326 | when the attribute itself is empty, `get_presentation_attr` returns the style's `fill` entry, whatever attribute was asked for | `style="display:none"` leaves the element visible, and `style="fill:none"` hides it | the style's entry for the attribute asked for | high (not executed) | Conv.StyleFillNoneHides, Conv.StyleDisplayNoneShows | Conv.PresentationAttrIntended, Conv.StyleEntryIntended, Conv.StyleOtherIntended, Conv.StyleDisplayNoneHidesIntended |
