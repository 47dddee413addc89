/**
  The palette part of a packer project (procsvg/project.go): `Project.ColorMap`,
  which maps the first colour of every palette row to the row's index and
  checks that all rows are equally long, and `ColorRow.UnmarshalJSON`, which
  turns a space-separated list of `#rgb`/`#rrggbb` colours into a row.
 */
module Project {
  import opened Base
  import opened Conv
  import Prog

  // ---------------------------------------------------------------------------
  // ColorMap

  /** Why `ColorMap` gives no map. */
  datatype MapError =
    | TooManyRows              // "extended palette not implemented (max colors == 127)"
    | RowLengthsDiffer(at: nat) // "palette row lengths differ at %d"
    | EmptyRowPanics(at: nat)   // `cr[0]` on an empty row: an index-out-of-range panic

  /** The largest number of palette rows `ColorMap` accepts. */
  const MaxRows := 127

  /** The row index an error names. */
  function ErrorRow(e: MapError): int
  {
    match e
    case TooManyRows => -1
    case RowLengthsDiffer(i) => i
    case EmptyRowPanics(i) => i
  }

  /** Row `i` passes the loop: it has a first colour and is as long as row 0. */
  predicate RowFine(pal: seq<seq<NRGBA>>, i: nat)
    requires i < |pal|
  {
    |pal[i]| > 0 && |pal[i]| == |pal[0]|
  }

  /** The loop of `ColorMap` over the first `n` rows: each row's first colour is mapped to its index, then its length is checked. */
  function Rows(pal: seq<seq<NRGBA>>, n: nat): Result<map<NRGBA, int>, MapError>
    requires n <= |pal|
  {
    if n == 0 then Ok(map[])
    else
      match Rows(pal, n - 1)
      case Err(e) => Err(e)
      case Ok(m) =>
        var cr := pal[n - 1];
        if |cr| == 0 then Err(EmptyRowPanics(n - 1))
        else if n - 1 > 0 && |cr| != |pal[0]| then Err(RowLengthsDiffer(n - 1))
        else Ok(m[cr[0] := n - 1])
  }

  /** `Project.ColorMap` on the palette rows `pal`. */
  function ColorMapOf(pal: seq<seq<NRGBA>>): Result<map<NRGBA, int>, MapError>
  {
    if |pal| > MaxRows then Err(TooManyRows) else Rows(pal, |pal|)
  }

  /** The first `n` rows pass exactly when every one of them is fine. */
  lemma {:induction false} RowsOk(pal: seq<seq<NRGBA>>, n: nat)
    requires n <= |pal|
    ensures Rows(pal, n).Ok? <==> forall i :: 0 <= i < n ==> RowFine(pal, i)
  {
    if n > 0 {
      RowsOk(pal, n - 1);
      if Rows(pal, n - 1).Ok? {
        assert Rows(pal, n).Ok? <==> RowFine(pal, n - 1);
      }
    }
  }

  /**
    A map the loop builds holds the first colour of every row seen, each
    mapped to the LAST row that starts with it, and nothing else.
   */
  predicate LastRowOf(pal: seq<seq<NRGBA>>, n: nat, m: map<NRGBA, int>)
    requires n <= |pal|
  {
    (forall i :: 0 <= i < n && |pal[i]| > 0 ==> pal[i][0] in m && i <= m[pal[i][0]])
    && forall c :: c in m ==> 0 <= m[c] < n && |pal[m[c]]| > 0 && pal[m[c]][0] == c
  }

  lemma {:induction false} RowsMap(pal: seq<seq<NRGBA>>, n: nat)
    requires n <= |pal| && Rows(pal, n).Ok?
    ensures LastRowOf(pal, n, Rows(pal, n).value)
  {
    if n > 0 {
      RowsMap(pal, n - 1);
      var m := Rows(pal, n - 1).value;
      var c := pal[n - 1][0];
      assert Rows(pal, n).value == m[c := n - 1];
    }
  }

  /** An error names the first row that is not fine; every row before it is. */
  lemma {:induction false} RowsErr(pal: seq<seq<NRGBA>>, n: nat)
    requires n <= |pal| && Rows(pal, n).Err?
    ensures var i := ErrorRow(Rows(pal, n).error);
      0 <= i < n && !RowFine(pal, i) && (forall j :: 0 <= j < i ==> RowFine(pal, j))
      && (Rows(pal, n).error.EmptyRowPanics? <==> |pal[i]| == 0)
  {
    if Rows(pal, n - 1).Err? {
      RowsErr(pal, n - 1);
    } else {
      RowsOk(pal, n - 1);
    }
  }

  /** Once the loop has stopped with an error, later rows change nothing. */
  lemma {:induction false} RowsErrStays(pal: seq<seq<NRGBA>>, i: nat, n: nat)
    requires i <= n <= |pal| && Rows(pal, i).Err?
    ensures Rows(pal, n) == Rows(pal, i)
    decreases n - i
  {
    if i < n {
      RowsErrStays(pal, i, n - 1);
    }
  }

  /** `ColorMap`'s whole contract: too many rows, a bad row, or the map of last row indices. */
  lemma ColorMapMeaning(pal: seq<seq<NRGBA>>)
    ensures |pal| > MaxRows ==> ColorMapOf(pal) == Err(TooManyRows)
    ensures |pal| <= MaxRows ==>
      (ColorMapOf(pal).Ok? <==> forall i :: 0 <= i < |pal| ==> RowFine(pal, i))
    ensures ColorMapOf(pal).Ok? ==> LastRowOf(pal, |pal|, ColorMapOf(pal).value)
    ensures ColorMapOf(pal).Err? && |pal| <= MaxRows ==>
      var i := ErrorRow(ColorMapOf(pal).error);
      0 <= i < |pal| && !RowFine(pal, i) && forall j :: 0 <= j < i ==> RowFine(pal, j)
  {
    if |pal| <= MaxRows {
      RowsOk(pal, |pal|);
      if Rows(pal, |pal|).Ok? {
        RowsMap(pal, |pal|);
      } else {
        RowsErr(pal, |pal|);
      }
    }
  }

  /** `Project.ColorMap`: the loop over the rows, returning at the first bad row. */
  method ColorMap(pal: seq<seq<NRGBA>>) returns (r: Result<map<NRGBA, int>, MapError>)
    ensures r == ColorMapOf(pal)
  {
    if |pal| > MaxRows {
      return Err(TooManyRows);
    }
    var nlen := 0;
    var m: map<NRGBA, int> := map[];
    var i := 0;
    while i < |pal|
      invariant i <= |pal|
      invariant Rows(pal, i) == Ok(m)
      invariant 0 < i ==> nlen == |pal[0]|
    {
      var cr := pal[i];
      if |cr| == 0 {
        RowsErrStays(pal, i + 1, |pal|);
        return Err(EmptyRowPanics(i));
      }
      var c := cr[0];
      m := m[c := i];
      if i == 0 {
        nlen := |cr|;
      } else if |cr| != nlen {
        RowsErrStays(pal, i + 1, |pal|);
        return Err(RowLengthsDiffer(i));
      }
      i := i + 1;
    }
    return Ok(m);
  }

  // ---------------------------------------------------------------------------
  // ColorRow.UnmarshalJSON

  /** Why a palette row is refused once its JSON string has been read. */
  datatype RowError =
    | InvalidColor(elem: string)  // "Invalid color %s in palette"
    | EmptyEntry                  // "Empty palette entry"

  /** The colours of the pieces, left to right: empty pieces are skipped, the first piece that is not a colour is the error. */
  function Pieces(ps: seq<string>): Result<seq<NRGBA>, RowError>
  {
    if |ps| == 0 then Ok([])
    else
      match Pieces(ps[..|ps| - 1])
      case Err(e) => Err(e)
      case Ok(v) =>
        var elem := ps[|ps| - 1];
        if elem == "" then Ok(v)
        else
          match ColorFromHex(elem)
          case None => Err(InvalidColor(elem))
          case Some(c) => Ok(v + [c])
  }

  /** The row that the JSON string `s` denotes, or why it is refused. */
  function RowOf(s: string): Result<seq<NRGBA>, RowError>
  {
    match Pieces(Split(s, ' '))
    case Err(e) => Err(e)
    case Ok(v) => if |v| == 0 then Err(EmptyEntry) else Ok(v)
  }

  /** A piece the row accepts: empty, or a colour. */
  predicate PieceFine(p: string)
  {
    p == "" || ColorFromHex(p).Some?
  }

  /** The pieces are accepted exactly when each is; the colours are those of the non-empty pieces, all opaque. */
  lemma {:induction false} PiecesMeaning(ps: seq<string>)
    ensures Pieces(ps).Ok? <==> forall k :: 0 <= k < |ps| ==> PieceFine(ps[k])
    ensures Pieces(ps).Ok? ==> (|Pieces(ps).value| == 0 <==> forall k :: 0 <= k < |ps| ==> ps[k] == "")
    ensures Pieces(ps).Ok? ==> forall j :: 0 <= j < |Pieces(ps).value| ==> Pieces(ps).value[j].a == 0xff
    ensures Pieces(ps).Err? ==>
      Pieces(ps).error.InvalidColor? && Pieces(ps).error.elem in ps && !PieceFine(Pieces(ps).error.elem)
  {
    if |ps| > 0 {
      var init := ps[..|ps| - 1];
      PiecesMeaning(init);
      assert forall k :: 0 <= k < |init| ==> init[k] == ps[k];
    }
  }

  /** Once a piece has been refused, later pieces change nothing. */
  lemma {:induction false} PiecesErrStays(ps: seq<string>, i: nat)
    requires i <= |ps| && Pieces(ps[..i]).Err?
    ensures Pieces(ps) == Pieces(ps[..i])
    decreases |ps| - i
  {
    if i < |ps| {
      assert ps[..|ps| - 1][..i] == ps[..i];
      PiecesErrStays(ps[..|ps| - 1], i);
      assert ps[..|ps|] == ps;
    } else {
      assert ps[..i] == ps;
    }
  }

  /** The row is accepted exactly when every piece is empty or a colour and at least one is a colour. */
  lemma RowMeaning(s: string)
    ensures var ps := Split(s, ' ');
      RowOf(s).Ok? <==> (forall k :: 0 <= k < |ps| ==> PieceFine(ps[k])) && exists k :: 0 <= k < |ps| && ps[k] != ""
    ensures RowOf(s).Ok? ==> forall j :: 0 <= j < |RowOf(s).value| ==> RowOf(s).value[j].a == 0xff
  {
    PiecesMeaning(Split(s, ' '));
  }

  /** The colours written as `#rrggbb`, one piece each. */
  function HexPieces(cs: seq<NRGBA>): (r: seq<string>)
    ensures |r| == |cs|
    ensures forall k :: 0 <= k < |cs| ==> r[k] == HexColor(cs[k])
  {
    seq(|cs|, k requires 0 <= k < |cs| => HexColor(cs[k]))
  }

  /** The colours made opaque, as `colorfromhex` reads them back. */
  function Opaque(cs: seq<NRGBA>): (r: seq<NRGBA>)
    ensures |r| == |cs|
    ensures forall k :: 0 <= k < |cs| ==> r[k] == cs[k].(a := 0xff)
  {
    seq(|cs|, k requires 0 <= k < |cs| => cs[k].(a := 0xff))
  }

  lemma {:induction false} PiecesOfHex(cs: seq<NRGBA>)
    ensures Pieces(HexPieces(cs)) == Ok(Opaque(cs))
    decreases |cs|
  {
    if |cs| > 0 {
      var n := |cs| - 1;
      var init := HexPieces(cs[..n]);
      SnocPieces(cs);
      PiecesOfHex(cs[..n]);
      HexColorRoundTrip(cs[n]);
      PiecesSnocColor(init, HexColor(cs[n]), Opaque(cs[..n]), cs[n].(a := 0xff));
    }
  }

  lemma SnocPieces(cs: seq<NRGBA>)
    requires |cs| > 0
    ensures var n := |cs| - 1;
      HexPieces(cs) == HexPieces(cs[..n]) + [HexColor(cs[n])]
      && Opaque(cs) == Opaque(cs[..n]) + [cs[n].(a := 0xff)]
  {
  }

  lemma PiecesSnocColor(ps: seq<string>, p: string, v: seq<NRGBA>, c: NRGBA)
    requires Pieces(ps) == Ok(v) && ColorFromHex(p) == Some(c)
    ensures Pieces(ps + [p]) == Ok(v + [c])
  {
    assert (ps + [p])[..|ps|] == ps;
  }

  lemma SpaceNotHex(c: NRGBA)
    ensures ' ' !in HexColor(c)
  {
    var s := HexColor(c);
    forall k | 1 <= k < 7
      ensures s[k] != ' '
    {
      assert s[1..][k - 1] == s[k];
    }
  }

  /** A row written as its colours in `#rrggbb` form, one space apart, reads back as those colours made opaque. */
  lemma RowRoundTrip(cs: seq<NRGBA>)
    requires |cs| > 0
    ensures RowOf(Join(HexPieces(cs), ' ')) == Ok(Opaque(cs))
  {
    var ps := HexPieces(cs);
    forall k | 0 <= k < |ps|
      ensures ' ' !in ps[k]
    {
      SpaceNotHex(cs[k]);
    }
    SplitJoin(ps, ' ');
    PiecesOfHex(cs);
  }

  /** Go's `ColorRow`, the destination `UnmarshalJSON` writes through. */
  class ColorRow {
    var colors: seq<NRGBA>

    constructor (colors: seq<NRGBA>)
      ensures this.colors == colors
    {
      this.colors := colors;
    }

    /**
      `ColorRow.UnmarshalJSON` after the JSON string `s` has been read: the
      row is replaced only when it is accepted.
     */
    method Unmarshal(s: string) returns (err: Option<RowError>)
      modifies this
      ensures err.None? <==> RowOf(s).Ok?
      ensures err.Some? ==> err.value == RowOf(s).error && colors == old(colors)
      ensures err.None? ==> colors == RowOf(s).value
    {
      var ps := Split(s, ' ');
      var v: seq<NRGBA> := [];
      var k := 0;
      while k < |ps|
        invariant k <= |ps|
        invariant Pieces(ps[..k]) == Ok(v)
      {
        var elem := ps[k];
        assert ps[..k + 1][..k] == ps[..k];
        if elem != "" {
          var c := ColorFromHex(elem);
          if c.None? {
            PiecesErrStays(ps, k + 1);
            return Some(InvalidColor(elem));
          }
          v := v + [c.value];
        }
        k := k + 1;
      }
      assert ps[..k] == ps;
      if |v| == 0 {
        return Some(EmptyEntry);
      }
      colors := v;
      return None;
    }
  }
}
