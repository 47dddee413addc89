/**
  The SVG converter of procsvg/conv.go: `#rgb` / `#rrggbb` colours (section
  4.2.1 of CSS Color Level 3), the `style` attribute, attribute lookup, and
  the walk over the element tree that turns every visible `path` element into
  a fill and path commands in the program buffer, under the transform of its
  ancestors.

  An XML element is a `Node`: its local name, its attributes and its
  children. The `encoding/xml` decoder is not part of this model; `XmlTree`
  builds the tree from an abstract list of start and end tokens.
  `strconv.ParseFloat`, the arc flattening, `Matrix.Rotate`, `strconv.Atoi`
  and `fmt.Sscan` are parameters.
 */
module Conv {
  import opened Base
  import opened Trans
  import Path
  import Prog

  type NRGBA = Prog.NRGBA

  // ---------------------------------------------------------------------------
  // colorfromhex

  /** The value of a base-16 digit of either case, as `strconv.ParseUint` reads it. */
  function HexDigitValue(c: char): Option<nat>
  {
    if '0' <= c <= '9' then Some(c as int - '0' as int)
    else if 'a' <= c <= 'f' then Some(c as int - 'a' as int + 10)
    else if 'A' <= c <= 'F' then Some(c as int - 'A' as int + 10)
    else None
  }

  predicate AllHex(s: string)
  {
    forall i :: 0 <= i < |s| ==> HexDigitValue(s[i]).Some?
  }

  function Digit16(c: char): nat
    requires HexDigitValue(c).Some?
  {
    HexDigitValue(c).value
  }

  /** The number the hexadecimal digits of `s` spell, most significant first. */
  function HexNumber(s: string): nat
    requires AllHex(s)
    decreases |s|
  {
    if |s| == 0 then 0 else 16 * HexNumber(s[..|s| - 1]) + Digit16(s[|s| - 1])
  }

  function Pow16(n: nat): nat
  {
    if n == 0 then 1 else 16 * Pow16(n - 1)
  }

  /** `k` hexadecimal digits spell a number below 16^k. */
  lemma {:induction false} HexNumberBound(s: string)
    requires AllHex(s)
    ensures HexNumber(s) < Pow16(|s|)
    decreases |s|
  {
    if |s| > 0 {
      HexNumberBound(s[..|s| - 1]);
    }
  }

  /** Six digits or fewer always fit: `ParseUint` can only fail on them for a bad digit. */
  lemma ShortHexFits(s: string)
    ensures AllHex(s) && |s| <= 6 ==> HexNumber(s) < 0x100_0000
  {
    if AllHex(s) && |s| <= 6 {
      HexNumberBound(s);
      PowMonotone(|s|, 6);
      assert Pow16(6) == 0x100_0000;
    }
  }

  lemma {:induction false} PowMonotone(i: nat, j: nat)
    requires i <= j
    ensures Pow16(i) <= Pow16(j)
    decreases j
  {
    if i < j {
      PowMonotone(i, j - 1);
    }
  }

  /** `strconv.ParseUint(s, 16, 64)`: no digit, a non-digit, or a value that needs more than 64 bits is an error. */
  function ParseHex(s: string): Option<nat>
  {
    if |s| > 0 && AllHex(s) && HexNumber(s) < 0x1_0000_0000_0000_0000 then Some(HexNumber(s)) else None
  }

  /**
    `colorfromhex`: a '#' and exactly three or six hexadecimal digits, any
    case; the colour is always opaque.
   */
  function ColorFromHex(s: string): (r: Option<NRGBA>)
    ensures r.Some? <==> (|s| == 4 || |s| == 7) && s[0] == '#' && AllHex(s[1..])
    ensures r.Some? ==> r.value.a == 0xff
  {
    if s == "" || s[0] != '#' then None
    else
      ShortHexFits(s[1..]);
      match ParseHex(s[1..])
      case None => None
      case Some(v) =>
        if |s| - 1 == 3 then
          Some(Prog.NRGBA(((v / 0x100) % 0x100 % 0x10) * 0x11, ((v / 0x10) % 0x100 % 0x10) * 0x11, (v % 0x100 % 0x10) * 0x11, 0xff))
        else if |s| - 1 == 6 then
          Some(Prog.NRGBA((v / 0x1_0000) % 0x100, (v / 0x100) % 0x100, v % 0x100, 0xff))
        else None
  }

  /** Three digits spell `d1 d2 d3` in base 16. */
  lemma Hex3(t: string)
    requires |t| == 3 && AllHex(t)
    ensures HexNumber(t) == 0x100 * Digit16(t[0]) + 0x10 * Digit16(t[1]) + Digit16(t[2])
  {
    assert t[..3] == t && t[..2][..1] == t[..1] && t[..1][..0] == [];
    assert HexNumber(t[..1]) == Digit16(t[0]);
    assert HexNumber(t[..2]) == 0x10 * Digit16(t[0]) + Digit16(t[1]);
  }

  /** Six digits spell three base-256 bytes, high pair first. */
  lemma Hex6(t: string)
    requires |t| == 6 && AllHex(t)
    ensures HexNumber(t) == 0x1_0000 * (0x10 * Digit16(t[0]) + Digit16(t[1]))
      + 0x100 * (0x10 * Digit16(t[2]) + Digit16(t[3])) + (0x10 * Digit16(t[4]) + Digit16(t[5]))
  {
    assert t[..6] == t && t[..5][..4] == t[..4] && t[..4][..3] == t[..3];
    Hex3(t[..3]);
    assert HexNumber(t[..4]) == 0x10 * HexNumber(t[..3]) + Digit16(t[3]);
    assert HexNumber(t[..5]) == 0x10 * HexNumber(t[..4]) + Digit16(t[4]);
  }

  lemma DivMod16(lo: nat, q: nat)
    requires lo < 0x10
    ensures (lo + 0x10 * q) / 0x10 == q && (lo + 0x10 * q) % 0x10 == lo
  {
  }

  lemma DivModByte(lo: nat, q: nat)
    requires lo < 0x100
    ensures (lo + 0x100 * q) / 0x100 == q && (lo + 0x100 * q) % 0x100 == lo
  {
  }

  /** In the short form each digit is one channel, repeated: 0xa becomes 0xaa. */
  lemma ShortFormChannels(s: string)
    requires |s| == 4 && s[0] == '#' && AllHex(s[1..])
    ensures ColorFromHex(s) == Some(Prog.NRGBA(0x11 * Digit16(s[1]), 0x11 * Digit16(s[2]), 0x11 * Digit16(s[3]), 0xff))
  {
    var t := s[1..];
    Hex3(t);
    ShortDigits(Digit16(t[0]), Digit16(t[1]), Digit16(t[2]));
    ShortFormValue(s);
  }

  /** What `colorfromhex` does with the value of three digits. */
  lemma ShortFormValue(s: string)
    requires |s| == 4 && s[0] == '#' && AllHex(s[1..])
    ensures var v := HexNumber(s[1..]);
      ColorFromHex(s) == Some(Prog.NRGBA(((v / 0x100) % 0x100 % 0x10) * 0x11, ((v / 0x10) % 0x100 % 0x10) * 0x11,
                                         (v % 0x100 % 0x10) * 0x11, 0xff))
  {
    ShortHexFits(s[1..]);
  }

  /** The three digits come back out of `0xd1d2d3` by shifting and masking. */
  lemma ShortDigits(d1: nat, d2: nat, d3: nat)
    requires d1 < 0x10 && d2 < 0x10 && d3 < 0x10
    ensures var v := 0x100 * d1 + 0x10 * d2 + d3;
      (v / 0x100) % 0x100 % 0x10 == d1 && (v / 0x10) % 0x100 % 0x10 == d2 && v % 0x100 % 0x10 == d3
  {
    var v := 0x100 * d1 + 0x10 * d2 + d3;
    var lo := 0x10 * d2 + d3;
    DivModByte(lo, d1);
    DivMod16(d3, d2);
    DivMod16(d3, 0x10 * d1 + d2);
    DivModByte(0x10 * d1 + d2, 0);
    DivMod16(d2, d1);
    DivModByte(d1, 0);
    DivMod16(d1, 0);
  }

  /** In the long form each pair of digits is one channel, high digit first. */
  lemma LongFormChannels(s: string)
    requires |s| == 7 && s[0] == '#' && AllHex(s[1..])
    ensures ColorFromHex(s) == Some(Prog.NRGBA(
      0x10 * Digit16(s[1]) + Digit16(s[2]),
      0x10 * Digit16(s[3]) + Digit16(s[4]),
      0x10 * Digit16(s[5]) + Digit16(s[6]), 0xff))
  {
    var t := s[1..];
    var r, g, b := 0x10 * Digit16(t[0]) + Digit16(t[1]), 0x10 * Digit16(t[2]) + Digit16(t[3]), 0x10 * Digit16(t[4]) + Digit16(t[5]);
    Hex6(t);
    var v := HexNumber(t);
    DivModByte(b, 0x100 * r + g);
    DivModByte(g, r);
    assert v / 0x1_0000 == (v / 0x100) / 0x100;
    DivModByte(r, 0);
  }

  /** A lower-case hexadecimal digit. */
  function HexChar(d: nat): (c: char)
    requires d < 16
    ensures HexDigitValue(c) == Some(d)
  {
    if d < 10 then ('0' as int + d) as char else ('a' as int + d - 10) as char
  }

  /** A colour written as `#rrggbb`, as a palette file or an SVG attribute would give it. */
  function HexColor(c: NRGBA): (s: string)
    ensures |s| == 7 && s[0] == '#' && AllHex(s[1..])
  {
    ['#', HexChar(c.r / 16), HexChar(c.r % 16), HexChar(c.g / 16), HexChar(c.g % 16), HexChar(c.b / 16), HexChar(c.b % 16)]
  }

  /** Reading `#rrggbb` gives back the colour, made opaque. */
  lemma HexColorRoundTrip(c: NRGBA)
    ensures ColorFromHex(HexColor(c)) == Some(c.(a := 0xff))
  {
    LongFormChannels(HexColor(c));
  }

  // ---------------------------------------------------------------------------
  // The pieces of the `strings` package `cssdecode` uses

  /** `strings.Index(s, string(c))`: the first position of `c`, or -1. */
  function IndexOf(s: string, c: char): (i: int)
    ensures -1 <= i < |s|
    ensures i == -1 <==> c !in s
    ensures 0 <= i ==> s[i] == c && c !in s[..i]
    decreases |s|
  {
    if |s| == 0 then -1
    else if s[0] == c then 0
    else
      var j := IndexOf(s[1..], c);
      if j == -1 then -1
      else
        assert s[..j + 1] == [s[0]] + s[1..][..j];
        j + 1
  }

  /** `strings.Split(s, string(sep))`: the pieces between separators; "" gives one empty piece. */
  function Split(s: string, sep: char): (r: seq<string>)
    ensures |r| >= 1
    ensures forall k :: 0 <= k < |r| ==> sep !in r[k]
    decreases |s|
  {
    var i := IndexOf(s, sep);
    if i == -1 then [s] else [s[..i]] + Split(s[i + 1..], sep)
  }

  /** `strings.Join`: the pieces with one separator between neighbours. */
  function Join(parts: seq<string>, sep: char): string
    requires |parts| >= 1
    decreases |parts|
  {
    if |parts| == 1 then parts[0] else parts[0] + [sep] + Join(parts[1..], sep)
  }

  /** Splitting loses nothing: joining the pieces gives the string back. */
  lemma {:induction false} JoinSplit(s: string, sep: char)
    ensures Join(Split(s, sep), sep) == s
    decreases |s|
  {
    var i := IndexOf(s, sep);
    if i != -1 {
      var rest := Split(s[i + 1..], sep);
      assert Split(s, sep) == [s[..i]] + rest by { SplitAt(s, sep); }
      assert Join([s[..i]] + rest, sep) == s[..i] + [sep] + Join(rest, sep) by { JoinCons(s[..i], rest, sep); }
      assert Join(rest, sep) == s[i + 1..] by { JoinSplit(s[i + 1..], sep); }
      assert s == s[..i] + [sep] + s[i + 1..];
    } else {
      assert Split(s, sep) == [s];
    }
  }

  /** `Split` at the first separator. */
  lemma SplitAt(s: string, sep: char)
    requires sep in s
    ensures var i := IndexOf(s, sep); Split(s, sep) == [s[..i]] + Split(s[i + 1..], sep)
  {
  }

  lemma JoinCons(p: string, rest: seq<string>, sep: char)
    requires |rest| >= 1
    ensures Join([p] + rest, sep) == p + [sep] + Join(rest, sep)
  {
    assert ([p] + rest)[0] == p && ([p] + rest)[1..] == rest;
  }

  lemma {:induction false} IndexOfJoined(a: string, sep: char, b: string)
    requires sep !in a
    ensures IndexOf(a + [sep] + b, sep) == |a|
    decreases |a|
  {
    if |a| > 0 {
      assert (a + [sep] + b)[1..] == a[1..] + [sep] + b;
      IndexOfJoined(a[1..], sep, b);
    }
  }

  /** A separator-free piece, the separator, then the rest: `Split` cuts off exactly that piece. */
  lemma SplitFirst(a: string, sep: char, j: string)
    requires sep !in a
    ensures Split(a + [sep] + j, sep) == [a] + Split(j, sep)
  {
    IndexOfJoined(a, sep, j);
    var s := a + [sep] + j;
    assert s[..|a|] == a;
    assert s[|a| + 1..] == j;
  }

  /** Pieces free of the separator come back from `Split` as they were joined. */
  lemma {:induction false} SplitJoin(parts: seq<string>, sep: char)
    requires |parts| >= 1
    requires forall k :: 0 <= k < |parts| ==> sep !in parts[k]
    ensures Split(Join(parts, sep), sep) == parts
    decreases |parts|
  {
    if |parts| > 1 {
      var j := Join(parts[1..], sep);
      assert Join(parts, sep) == parts[0] + [sep] + j;
      SplitFirst(parts[0], sep, j);
      SplitJoin(parts[1..], sep);
      assert parts == [parts[0]] + parts[1..];
    }
  }

  /** `unicode.IsSpace` over code points: the ASCII white space, NEL, NBSP and the Unicode space separators. */
  predicate IsSpace(c: char)
  {
    c == ' ' || '\t' <= c <= '\r' || c as int == 0x85 || c as int == 0xA0 || c as int == 0x1680
    || 0x2000 <= c as int <= 0x200A || c as int == 0x2028 || c as int == 0x2029
    || c as int == 0x202F || c as int == 0x205F || c as int == 0x3000
  }

  predicate AllSpace(s: string)
  {
    forall k :: 0 <= k < |s| ==> IsSpace(s[k])
  }

  /** The number of white-space characters `s` starts with. */
  function LeadingSpace(s: string): (n: nat)
    ensures n <= |s| && AllSpace(s[..n])
    ensures n == |s| || !IsSpace(s[n])
    decreases |s|
  {
    if |s| > 0 && IsSpace(s[0]) then
      var m := LeadingSpace(s[1..]);
      assert s[..m + 1] == [s[0]] + s[1..][..m];
      m + 1
    else 0
  }

  /** The number of white-space characters `s` ends with. */
  function TrailingSpace(s: string): (n: nat)
    ensures n <= |s| && AllSpace(s[|s| - n..])
    ensures n == |s| || !IsSpace(s[|s| - n - 1])
    decreases |s|
  {
    if |s| > 0 && IsSpace(s[|s| - 1]) then
      var init := s[..|s| - 1];
      var m := TrailingSpace(init);
      assert s[|s| - m - 1..] == init[|init| - m..] + [s[|s| - 1]];
      AllSpaceSnoc(init[|init| - m..], s[|s| - 1]);
      assert m + 1 < |s| ==> s[|s| - (m + 1) - 1] == init[|init| - m - 1];
      m + 1
    else 0
  }

  lemma AllSpaceSnoc(a: string, c: char)
    requires AllSpace(a) && IsSpace(c)
    ensures AllSpace(a + [c])
  {
    assert forall k :: 0 <= k < |a| ==> (a + [c])[k] == a[k];
  }

  /**
    `strings.TrimSpace`: from the first character that is not white space to
    the last one; "" when there is none.
   */
  function TrimSpace(s: string): (r: string)
    ensures |r| == 0 || (!IsSpace(r[0]) && !IsSpace(r[|r| - 1]))
  {
    var i := LeadingSpace(s);
    if i == |s| then ""
    else
      s[i..|s| - TrailingSpace(s)]
  }

  /** What `TrimSpace` removes is white space, from the two ends only. */
  lemma TrimSpaceMiddle(s: string)
    ensures var r := TrimSpace(s); var i := LeadingSpace(s);
      i + |r| <= |s| && r == s[i..i + |r|] && AllSpace(s[..i]) && AllSpace(s[i + |r|..])
  {
  }

  /** `strings.TrimSuffix`: `s` without `suffix` when it ends with it, else `s`. */
  function TrimSuffix(s: string, suffix: string): (r: string)
    ensures r + (if |suffix| <= |s| && s[|s| - |suffix|..] == suffix then suffix else []) == s
  {
    if |suffix| <= |s| && s[|s| - |suffix|..] == suffix then s[..|s| - |suffix|] else s
  }

  // ---------------------------------------------------------------------------
  // cssdecode

  /** One `;`-separated entry: the trimmed text around its first ':', which must not be at the start. */
  function CssEntry(e: string): (r: Option<(string, string)>)
    ensures r.Some? <==> IndexOf(e, ':') > 0
  {
    var colon := IndexOf(e, ':');
    if colon > 0 then
      Some((TrimSpace(e[..colon]), TrimSpace(e[colon + 1..])))
    else None
  }

  /** The map a list of entries builds, first to last, a later key overwriting an earlier one. */
  function EntriesMap<E, K, V>(f: E -> Option<(K, V)>, entries: seq<E>): map<K, V>
    decreases |entries|
  {
    if |entries| == 0 then map[]
    else Put(EntriesMap(f, entries[..|entries| - 1]), f(entries[|entries| - 1]))
  }

  /** `m[k] = v` for an entry that has a key, nothing for one that does not. */
  function Put<K, V>(m: map<K, V>, entry: Option<(K, V)>): map<K, V>
  {
    match entry
    case None => m
    case Some((k, v)) => m[k := v]
  }

  /**
    `cssdecode`: the entries of a `style` attribute. The source returns a nil
    map for "", which every lookup reads like an empty map.
   */
  function CssOf(css: string): map<string, string>
  {
    if css == "" then map[] else EntriesMap(CssEntry, Split(css, ';'))
  }

  lemma EntriesMapSnoc<E, K, V>(f: E -> Option<(K, V)>, entries: seq<E>, e: E)
    ensures EntriesMap(f, entries + [e]) == Put(EntriesMap(f, entries), f(e))
  {
    assert (entries + [e])[..|entries|] == entries;
  }

  /** The loop of `cssdecode`. */
  method CssDecode(css: string) returns (m: map<string, string>)
    ensures m == CssOf(css)
  {
    if css == "" {
      return map[];
    }
    var v := Split(css, ';');
    m := map[];
    var i := 0;
    while i < |v|
      invariant 0 <= i <= |v|
      invariant m == EntriesMap(CssEntry, v[..i])
    {
      EntriesMapSnoc(CssEntry, v[..i], v[i]);
      assert v[..i] + [v[i]] == v[..i + 1];
      m := AddEntry(m, v[i]);
      i := i + 1;
    }
    assert v[..i] == v;
    assert CssOf(css) == EntriesMap(CssEntry, v);
  }

  /** One turn of the `cssdecode` loop: the entry's key and value, when its first ':' is not at the start. */
  method AddEntry(m0: map<string, string>, e: string) returns (m: map<string, string>)
    ensures m == Put(m0, CssEntry(e))
  {
    m := m0;
    var colon := IndexOf(e, ':');
    if colon > 0 {
      m := m[TrimSpace(e[..colon]) := TrimSpace(e[colon + 1..])];
    }
  }

  /** Entry `j` of the list sets key `key`. */
  predicate Sets<E, K(==), V>(f: E -> Option<(K, V)>, entries: seq<E>, j: int, key: K)
  {
    0 <= j < |entries| && f(entries[j]).Some? && f(entries[j]).value.0 == key
  }

  /** A key is in the map exactly when some entry sets it. */
  lemma {:induction false} EntriesMapKeys<E, K, V>(f: E -> Option<(K, V)>, entries: seq<E>, key: K)
    ensures key in EntriesMap(f, entries) <==> exists j :: Sets(f, entries, j, key)
    decreases |entries|
  {
    if |entries| > 0 {
      var pre := entries[..|entries| - 1];
      var last := |entries| - 1;
      EntriesMapKeys(f, pre, key);
      assert EntriesMap(f, entries) == Put(EntriesMap(f, pre), f(entries[last]));
      if Sets(f, entries, last, key) {
        assert key in EntriesMap(f, entries);
      }
      if key in EntriesMap(f, pre) {
        var j :| Sets(f, pre, j, key);
        assert Sets(f, entries, j, key);
      }
      if exists j :: Sets(f, entries, j, key) {
        var j :| Sets(f, entries, j, key);
        if j < |pre| {
          assert Sets(f, pre, j, key);
        }
      }
    }
  }

  /** The value of a key is the one its last entry gives. */
  lemma {:induction false} EntriesMapLastWins<E, K, V>(f: E -> Option<(K, V)>, entries: seq<E>, i: nat, key: K, value: V)
    requires i < |entries| && f(entries[i]) == Some((key, value))
    requires forall j :: i < j < |entries| ==> !Sets(f, entries, j, key)
    ensures key in EntriesMap(f, entries) && EntriesMap(f, entries)[key] == value
    decreases |entries|
  {
    var pre := entries[..|entries| - 1];
    var last := |entries| - 1;
    assert EntriesMap(f, entries) == Put(EntriesMap(f, pre), f(entries[last]));
    if i < last {
      assert pre[i] == entries[i];
      assert !Sets(f, entries, last, key);
      forall j | i < j < |pre|
        ensures !Sets(f, pre, j, key)
      {
        assert !Sets(f, entries, j, key);
      }
      EntriesMapLastWins(f, pre, i, key, value);
    }
  }

  // ---------------------------------------------------------------------------
  // Attributes

  /** An XML attribute by its local name; the namespace plays no part in any lookup. */
  datatype Attr = Attr(name: string, value: string)

  /** An element of the tree `xmlTree` builds: local name, attributes, children. */
  datatype Node = Node(name: string, attrs: seq<Attr>, children: seq<Node>)

  /** Why the converter stops. */
  datatype ConvError =
    | DuplicateAttr(name: string)          // `findattr` panics
    | NoFill                               // "can't find fill style"
    | TransformFailed(scan: ScanError)
    | PathFailed(path: Path.PathError)
    | ProgFailed(prog: Prog.ProgError)
    | BadWidth(text: string)
    | BadHeight(text: string)              // reported with the width message in the source
    | BadViewBox(text: string)

  /** How many attributes carry the local name `name`. */
  function AttrCount(attrs: seq<Attr>, name: string): (k: nat)
    ensures k <= |attrs|
    ensures k == 0 <==> forall i :: 0 <= i < |attrs| ==> attrs[i].name != name
    decreases |attrs|
  {
    if |attrs| == 0 then 0
    else
      var pre := attrs[..|attrs| - 1];
      var k := AttrCount(pre, name);
      assert forall i :: 0 <= i < |pre| ==> pre[i] == attrs[i];
      k + (if attrs[|attrs| - 1].name == name then 1 else 0)
  }

  /** `hasattr`: some attribute has the local name `name`. */
  function HasAttr(n: Node, name: string): (b: bool)
    ensures b <==> exists i :: 0 <= i < |n.attrs| && n.attrs[i].name == name
  {
    AttrCount(n.attrs, name) > 0
  }

  /** The value of the last attribute named `name`, "" when there is none. */
  function LastValue(attrs: seq<Attr>, name: string): string
    decreases |attrs|
  {
    if |attrs| == 0 then ""
    else if attrs[|attrs| - 1].name == name then attrs[|attrs| - 1].value
    else LastValue(attrs[..|attrs| - 1], name)
  }

  /** With a single attribute of that name, the last one is that one. */
  lemma {:induction false} LastValueUnique(attrs: seq<Attr>, name: string, i: nat)
    requires i < |attrs| && attrs[i].name == name && AttrCount(attrs, name) == 1
    ensures LastValue(attrs, name) == attrs[i].value
    decreases |attrs|
  {
    var pre := attrs[..|attrs| - 1];
    if i < |attrs| - 1 {
      assert pre[i] == attrs[i];
      assert AttrCount(pre, name) >= 1;
      LastValueUnique(pre, name, i);
    }
  }

  /**
    What `findattr` gives: the duplicate panic when two attributes share the
    name, else the value of the one there is, else "".
   */
  function AttrValue(attrs: seq<Attr>, name: string): (r: Result<string, ConvError>)
    ensures r.Err? <==> AttrCount(attrs, name) >= 2
    ensures r.Err? ==> r.error == DuplicateAttr(name)
    ensures AttrCount(attrs, name) == 0 ==> r == Ok("")
    ensures forall i :: 0 <= i < |attrs| && attrs[i].name == name && AttrCount(attrs, name) == 1 ==> r == Ok(attrs[i].value)
  {
    if AttrCount(attrs, name) >= 2 then Err(DuplicateAttr(name))
    else
      if AttrCount(attrs, name) == 0 then
        assert LastValue(attrs, name) == "" by { LastValueNone(attrs, name); }
        Ok(LastValue(attrs, name))
      else
        forall i | 0 <= i < |attrs| && attrs[i].name == name
          ensures LastValue(attrs, name) == attrs[i].value
        {
          LastValueUnique(attrs, name, i);
        }
        Ok(LastValue(attrs, name))
  }

  lemma {:induction false} LastValueNone(attrs: seq<Attr>, name: string)
    requires AttrCount(attrs, name) == 0
    ensures LastValue(attrs, name) == ""
    decreases |attrs|
  {
    if |attrs| > 0 {
      var pre := attrs[..|attrs| - 1];
      assert forall i :: 0 <= i < |pre| ==> pre[i] == attrs[i];
      LastValueNone(pre, name);
    }
  }

  /** `findattr`: the loop with its `found` flag. */
  method FindAttr(n: Node, name: string) returns (r: Result<string, ConvError>)
    ensures r == AttrValue(n.attrs, name)
  {
    var value := "";
    var found := false;
    var i := 0;
    while i < |n.attrs|
      invariant 0 <= i <= |n.attrs|
      invariant AttrCount(n.attrs[..i], name) <= 1
      invariant found <==> AttrCount(n.attrs[..i], name) == 1
      invariant value == LastValue(n.attrs[..i], name)
    {
      assert n.attrs[..i + 1][..i] == n.attrs[..i];
      if n.attrs[i].name == name {
        if found {
          CountGrows(n.attrs, name, i + 1);
          return Err(DuplicateAttr(name));
        }
        value := n.attrs[i].value;
        found := true;
      }
      i := i + 1;
    }
    assert n.attrs[..i] == n.attrs;
    if !found {
      LastValueNone(n.attrs, name);
    }
    return Ok(value);
  }

  /** Counting over a prefix never exceeds counting over the whole. */
  lemma {:induction false} CountGrows(attrs: seq<Attr>, name: string, i: nat)
    requires i <= |attrs|
    ensures AttrCount(attrs[..i], name) <= AttrCount(attrs, name)
    decreases |attrs|
  {
    if i < |attrs| {
      var pre := attrs[..|attrs| - 1];
      assert pre[..i] == attrs[..i];
      CountGrows(pre, name, i);
    } else {
      assert attrs[..i] == attrs;
    }
  }

  // ---------------------------------------------------------------------------
  // Presentation attributes

  /** A map lookup that gives "" for a missing key, as Go's map index does. */
  function Lookup(m: map<string, string>, key: string): string
  {
    if key in m then m[key] else ""
  }

  /**
    `get_presentation_attr`: the attribute itself when it is not empty;
    otherwise the `fill` entry of the style, whichever attribute was asked for.
   */
  function PresentationAttr(n: Node, attr: string): Result<string, ConvError>
  {
    match AttrValue(n.attrs, attr)
    case Err(e) => Err(e)
    case Ok(fs) =>
      if fs != "" then Ok(fs)
      else
        match AttrValue(n.attrs, "style")
        case Err(e) => Err(e)
        case Ok(st) => Ok(Lookup(CssOf(st), "fill"))
  }

  /** `is_hidden`: the presentation value for `display` is "none". */
  function IsHidden(n: Node): Result<bool, ConvError>
  {
    match PresentationAttr(n, "display")
    case Err(e) => Err(e)
    case Ok(a) => Ok(a == "none")
  }

  /** `get_svg_solid_fill`: the presentation value for `fill`, read as a hex colour. */
  function SolidFill(n: Node): Result<Option<NRGBA>, ConvError>
  {
    match PresentationAttr(n, "fill")
    case Err(e) => Err(e)
    case Ok(a) => Ok(ColorFromHex(a))
  }

  // ---------------------------------------------------------------------------
  // The converter state

  /** The header fields `svg` fills in: `ProgImage.Width` and `Height`. */
  datatype SvgImage = SvgImage(width: int, height: int)

  /**
    Everything the walk changes: the program buffer, `ProgMem`'s open-path
    flag and drawing transform, the transform stack, the non-palette colours,
    the colour counts (absent for a nil map) and the image header (absent
    for a nil pointer).
   */
  datatype ConvState = ConvState(buf: seq<Byte>, inPath: bool, pathXform: Matrix, xform: seq<Matrix>,
                                 colors: seq<NRGBA>, counts: Option<map<NRGBA, nat>>, im: Option<SvgImage>)

  /**
    What stays fixed: the palette map, `ProgMem`'s precision and float
    conversion, and the library calls `strconv.ParseFloat`, `arcToBezier`,
    `Matrix.Rotate`, `strconv.Atoi` (its value, and whether it succeeded)
    and `fmt.Sscan` of the four viewBox numbers.
   */
  datatype Env = Env(colormap: map<NRGBA, int>, prec: real, bits32: real -> U32,
                     parseFloat: Path.ParseFn, arc: Path.ArcFn, rotate: (Matrix, real) -> Matrix,
                     atoi: string -> (int, bool), scanViewBox: string -> Option<(real, real, real, real)>)

  /** `transform()`: the top of the stack, the identity when it is empty. */
  function Top(xs: seq<Matrix>): (m: Matrix)
    ensures |xs| == 0 ==> m == Identity
    ensures |xs| > 0 ==> m == xs[|xs| - 1]
  {
    if |xs| == 0 then Identity else xs[|xs| - 1]
  }

  /** The fill instruction: 0x02 and the palette index as a byte, or 0x01 and the colour. */
  function FillBytes(colormap: map<NRGBA, int>, c: NRGBA): (r: seq<Byte>)
    ensures c in colormap ==> r == [0x02, ToByte(colormap[c])]
    ensures c !in colormap ==> r == [0x01, c.r, c.g, c.b, c.a]
  {
    if c in colormap then [0x02, ToByte(colormap[c])] else [0x01, c.r, c.g, c.b, c.a]
  }

  /** `colorCount[c]++` on a map that may be nil (then nothing is counted). */
  function Counted(counts: Option<map<NRGBA, nat>>, c: NRGBA): (r: Option<map<NRGBA, nat>>)
    ensures r.Some? <==> counts.Some?
    ensures r.Some? ==> c in r.value && r.value[c] == (if c in counts.value then counts.value[c] else 0) + 1
    ensures r.Some? ==> forall d :: d != c ==> (d in r.value <==> d in counts.value)
  {
    match counts
    case None => None
    case Some(m) => Some(m[c := (if c in m then m[c] else 0) + 1])
  }

  /**
    `handle_fill`: no usable fill is an error and changes nothing; otherwise
    the colour is counted, a palette colour becomes its index and any other
    colour is written out and recorded.
   */
  function FillStep(env: Env, n: Node, s: ConvState): (r: Result<ConvState, ConvError>)
    ensures r.Ok? <==> SolidFill(n).Ok? && SolidFill(n).value.Some?
    ensures SolidFill(n) == Ok(None) ==> r == Err(NoFill)
    ensures r.Ok? ==> var c := SolidFill(n).value.value;
      r.value.buf == s.buf + FillBytes(env.colormap, c)
      && r.value.colors == s.colors + (if c in env.colormap then [] else [c])
      && r.value.counts == Counted(s.counts, c)
      && r.value.xform == s.xform && r.value.inPath == s.inPath && r.value.pathXform == s.pathXform && r.value.im == s.im
  {
    FillWith(env, SolidFill(n), s)
  }

  /** The fill instruction for an already looked-up fill attribute. */
  function FillWith(env: Env, f: Result<Option<NRGBA>, ConvError>, s: ConvState): (r: Result<ConvState, ConvError>)
    ensures r.Ok? <==> f.Ok? && f.value.Some?
    ensures f == Ok(None) ==> r == Err(NoFill)
    ensures f.Err? ==> r == Err(f.error)
    ensures r.Ok? ==> var c := f.value.value;
      r.value.buf == s.buf + FillBytes(env.colormap, c)
      && r.value.colors == s.colors + (if c in env.colormap then [] else [c])
      && r.value.counts == Counted(s.counts, c)
      && r.value.xform == s.xform && r.value.inPath == s.inPath && r.value.pathXform == s.pathXform && r.value.im == s.im
  {
    match f
    case Err(e) => Err(e)
    case Ok(None) => Err(NoFill)
    case Ok(Some(c)) =>
      Ok(s.(buf := s.buf + FillBytes(env.colormap, c),
            colors := if c in env.colormap then s.colors else s.colors + [c],
            counts := Counted(s.counts, c)))
  }

  /**
    The command loop of `path`: each command's bytes in turn, stopping at the
    first that `PathCmd` rejects; only the buffer and the open-path flag change.
   */
  function CmdsStep(env: Env, cmds: seq<Path.PathCmd>, s: ConvState): (r: (ConvState, Option<ConvError>))
    ensures r.0 == s.(buf := r.0.buf, inPath := r.0.inPath)
    ensures s.buf <= r.0.buf
    decreases |cmds|
  {
    if |cmds| == 0 then (s, None)
    else
      match Prog.PathCmdBytes(cmds[0], s.inPath, s.pathXform, env.prec, env.bits32)
      case Err(e) => (s, Some(ProgFailed(e)))
      case Ok((b, open)) => CmdsStep(env, cmds[1..], s.(buf := s.buf + b, inPath := open))
  }

  /** Commands the path decoder produces are all accepted. */
  lemma {:induction false} CmdsStepAccepts(env: Env, cmds: seq<Path.PathCmd>, s: ConvState)
    requires Path.WellFormed(cmds)
    ensures CmdsStep(env, cmds, s).1 == None
    decreases |cmds|
  {
    if |cmds| > 0 {
      Prog.PathCmdAcceptsWellFormed(cmds[0], s.inPath, s.pathXform, env.prec, env.bits32);
      var (b, open) := Prog.PathCmdBytes(cmds[0], s.inPath, s.pathXform, env.prec, env.bits32).value;
      assert Path.WellFormed(cmds[1..]) by {
        forall i | 0 <= i < |cmds[1..]| ensures Path.WellFormedCmd(cmds[1..][i]) {
          assert cmds[1..][i] == cmds[i + 1];
        }
      }
      CmdsStepAccepts(env, cmds[1..], s.(buf := s.buf + b, inPath := open));
    }
  }

  /** The command list of a `path` element that draws: not empty, and not a lone move. */
  predicate Draws(cmds: seq<Path.PathCmd>)
  {
    |cmds| > 0 && !(|cmds| == 1 && cmds[0].cmd == 'M')
  }

  /**
    `path`: the commands of the `d` attribute; nothing at all for an empty
    list or a lone move; otherwise the fill, then `BeginPath` under the top
    of the transform stack, then the commands.
   */
  function PathStep(env: Env, n: Node, s: ConvState): (r: (ConvState, Option<ConvError>))
    ensures r.0.xform == s.xform && s.buf <= r.0.buf
    ensures (AttrValue(n.attrs, "d").Ok? && Path.PathDCmdsOf(AttrValue(n.attrs, "d").value, env.parseFloat, env.arc).Ok?
      && !Draws(Path.PathDCmdsOf(AttrValue(n.attrs, "d").value, env.parseFloat, env.arc).value)) ==> r == (s, None)
    ensures r.0 != s ==> FillStep(env, n, s).Ok? && s.buf + FillBytes(env.colormap, SolidFill(n).value.value) <= r.0.buf
  {
    match AttrValue(n.attrs, "d")
    case Err(e) => (s, Some(e))
    case Ok(d) =>
      match Path.PathDCmdsOf(d, env.parseFloat, env.arc)
      case Err(e) => (s, Some(PathFailed(e)))
      case Ok(cmds) =>
        if !Draws(cmds) then (s, None)
        else
          match FillStep(env, n, s)
          case Err(e) => (s, Some(e))
          case Ok(s1) => CmdsStep(env, cmds, s1.(inPath := false, pathXform := Top(s1.xform)))
  }

  /**
    A `path` whose `d` decodes and that has a fill is converted without error
    and drawn under the top of the transform stack.
   */
  lemma PathDrawnUnder(env: Env, n: Node, s: ConvState, d: string)
    requires Path.ArcShaped(env.arc)
    requires AttrValue(n.attrs, "d") == Ok(d) && Path.PathDCmdsOf(d, env.parseFloat, env.arc).Ok?
    requires Draws(Path.PathDCmdsOf(d, env.parseFloat, env.arc).value)
    requires SolidFill(n).Ok? && SolidFill(n).value.Some?
    ensures PathStep(env, n, s).1 == None
    ensures PathStep(env, n, s).0.pathXform == Top(s.xform)
  {
    var cmds := Path.PathDCmdsOf(d, env.parseFloat, env.arc).value;
    Path.PathDCmdsWellFormed(d, env.parseFloat, env.arc);
    var s1 := FillStep(env, n, s).value;
    CmdsStepAccepts(env, cmds, s1.(inPath := false, pathXform := Top(s1.xform)));
  }

  /** `ViewBox(minx, miny, minx+width, miny+height)`: the four coordinates left, top, right, bottom. */
  function ViewBoxBytes(env: Env, box: (real, real, real, real)): seq<Byte>
  {
    Prog.ViewBoxEncoding(box.0, box.1, box.0 + box.2, box.1 + box.3, env.prec, env.bits32)
  }

  /**
    `svg`: a new image header; `width` and `height` with any "px" suffix
    removed go through `Atoi` (the header keeps what it returned even on
    failure); the four viewBox numbers become the view box of the program.
   */
  function SvgStep(env: Env, n: Node, s: ConvState): (r: (ConvState, Option<ConvError>))
    ensures r.0 == s.(buf := r.0.buf, im := r.0.im) && r.0.im.Some?
    ensures r.1.Some? ==> r.0.buf == s.buf
    ensures r.1.None? ==> AttrValue(n.attrs, "width").Ok? && AttrValue(n.attrs, "height").Ok?
    ensures r.1.None? ==> r.0.buf == ViewBoxStep(env, n, s).0.buf
    ensures r.1.None? ==> r.0.im == Some(SvgImage(env.atoi(TrimSuffix(AttrValue(n.attrs, "width").value, "px")).0,
                                                  env.atoi(TrimSuffix(AttrValue(n.attrs, "height").value, "px")).0))
  {
    var s0 := s.(im := Some(SvgImage(0, 0)));
    match AttrValue(n.attrs, "width")
    case Err(e) => (s0, Some(e))
    case Ok(ws) =>
      var (w, okw) := env.atoi(TrimSuffix(ws, "px"));
      var s1 := s.(im := Some(SvgImage(w, 0)));
      if !okw then (s1, Some(BadWidth(ws)))
      else
        match AttrValue(n.attrs, "height")
        case Err(e) => (s1, Some(e))
        case Ok(hs) =>
          var (h, okh) := env.atoi(TrimSuffix(hs, "px"));
          var s2 := s.(im := Some(SvgImage(w, h)));
          if !okh then (s2, Some(BadHeight(hs)))
          else ViewBoxStep(env, n, s2)
  }

  /** The `viewBox` part of `svg`. */
  function ViewBoxStep(env: Env, n: Node, s: ConvState): (r: (ConvState, Option<ConvError>))
    ensures r.0 == s.(buf := r.0.buf)
    ensures r.1.Some? ==> r.0.buf == s.buf
    ensures r.1.None? ==> (AttrValue(n.attrs, "viewBox").Ok? && env.scanViewBox(AttrValue(n.attrs, "viewBox").value).Some?
      && r.0.buf == s.buf + ViewBoxBytes(env, env.scanViewBox(AttrValue(n.attrs, "viewBox").value).value))
  {
    ViewBoxWith(env, AttrValue(n.attrs, "viewBox"), s)
  }

  /** The view box for an already looked-up `viewBox` attribute. */
  function ViewBoxWith(env: Env, vb: Result<string, ConvError>, s: ConvState): (r: (ConvState, Option<ConvError>))
    ensures r.0 == s.(buf := r.0.buf)
    ensures r.1.Some? ==> r.0.buf == s.buf
    ensures r.1.None? ==> (vb.Ok? && env.scanViewBox(vb.value).Some?
      && r.0.buf == s.buf + ViewBoxBytes(env, env.scanViewBox(vb.value).value))
  {
    match vb
    case Err(e) => (s, Some(e))
    case Ok(text) =>
      match env.scanViewBox(text)
      case None => (s, Some(BadViewBox(text)))
      case Some(box) => (s.(buf := s.buf + ViewBoxBytes(env, box)), None)
  }

  /** The `switch n.Name.Local` of `node`: `svg` and `path` elements do work, any other does nothing. */
  function ElementStep(env: Env, n: Node, s: ConvState): (r: (ConvState, Option<ConvError>))
    ensures r.0.xform == s.xform && s.buf <= r.0.buf
    ensures n.name != "svg" && n.name != "path" ==> r == (s, None)
  {
    if n.name == "svg" then SvgStep(env, n, s)
    else if n.name == "path" then PathStep(env, n, s)
    else (s, None)
  }

  /** The matrix of the node's own `transform` attribute, if it has one. */
  function OwnTransform(env: Env, n: Node): (r: Result<Option<Matrix>, ConvError>)
    ensures r == Ok(None) <==> !HasAttr(n, "transform")
  {
    if !HasAttr(n, "transform") then Ok(None)
    else
      match AttrValue(n.attrs, "transform")
      case Err(e) => Err(e)
      case Ok(t) =>
        var (m, e) := TransformFrom(t, 0, Identity, env.parseFloat, env.rotate);
        if e.Some? then Err(TransformFailed(e.value)) else Ok(Some(m))
  }

  /** The stack with `top · t` pushed, when the node has a transform. */
  function Pushed(s: ConvState, t: Option<Matrix>): (r: ConvState)
    ensures r == s.(xform := r.xform)
    ensures r.xform == s.xform + (if t.Some? then [Mul(Top(s.xform), t.value)] else [])
  {
    if t.None? then s else s.(xform := s.xform + [Mul(Top(s.xform), t.value)])
  }

  /** How `node` ends: `errSkip`, nil, or an error. */
  datatype Visit = Skip | Done | Failed(error: ConvError)

  /**
    `node`: a hidden node is skipped before anything else; a `transform`
    pushes `top · T` for the element's own work and is popped when `node`
    returns.
   */
  function NodeStep(env: Env, n: Node, s: ConvState): (r: (ConvState, Visit))
    ensures r.0.xform == s.xform && s.buf <= r.0.buf
    ensures IsHidden(n) == Ok(true) ==> r == (s, Skip)
    ensures r.1 == Skip ==> r.0 == s
  {
    match IsHidden(n)
    case Err(e) => (s, Failed(e))
    case Ok(hidden) =>
      if hidden then (s, Skip)
      else
        match OwnTransform(env, n)
        case Err(e) => (s, Failed(e))
        case Ok(t) =>
          var s1 := Pushed(s, t);
          var (s2, e) := ElementStep(env, n, s1);
          (s2.(xform := s.xform), if e.Some? then Failed(e.value) else Done)
  }

  /**
    `tree`: the node, then its children in order while none fails. A skipped
    node ends its subtree without error; any other error stops the walk.
   */
  function TreeOf(env: Env, n: Node, s: ConvState): (r: (ConvState, Option<ConvError>))
    ensures r.0.xform == s.xform && s.buf <= r.0.buf
    ensures IsHidden(n) == Ok(true) ==> r == (s, None)
    decreases n, |n.children| + 1
  {
    var (s1, v) := NodeStep(env, n, s);
    match v
    case Skip => (s1, None)
    case Failed(e) => (s1, Some(e))
    case Done => ChildrenOf(env, n, 0, s1)
  }

  /** The children of `n` from index `i` on. */
  function ChildrenOf(env: Env, n: Node, i: nat, s: ConvState): (r: (ConvState, Option<ConvError>))
    requires i <= |n.children|
    ensures r.0.xform == s.xform && s.buf <= r.0.buf
    decreases n, |n.children| - i
  {
    if i == |n.children| then (s, None)
    else
      var (s1, e) := TreeOf(env, n.children[i], s);
      if e.Some? then (s1, e) else ChildrenOf(env, n, i + 1, s1)
  }

  // ---------------------------------------------------------------------------
  // svgprog

  /** Go's `svgprog`: the palette map, the colour counts, the image header, the program memory, the transform stack and the non-palette colours. */
  class SvgProg {
    const colormap: map<NRGBA, int>
    var colorCount: Option<map<NRGBA, nat>>
    var im: Option<SvgImage>
    const mem: Prog.ProgMem
    var xform: seq<Matrix>
    var colors: seq<NRGBA>
    const parseFloat: Path.ParseFn
    const arc: Path.ArcFn
    const rotate: (Matrix, real) -> Matrix
    const atoi: string -> (int, bool)
    const scanViewBox: string -> Option<(real, real, real, real)>

    /** The fixed part of the conversion. */
    function Environment(): Env
    {
      Env(colormap, mem.precision, mem.bits32, parseFloat, arc, rotate, atoi, scanViewBox)
    }

    /** The changing part. */
    function State(): ConvState
      reads this, mem
    {
      ConvState(mem.buf, mem.inPath, mem.xform, xform, colors, colorCount, im)
    }

    /** `svgprog{colormap: cm}` (or `{colorCount: m}`) with `mem.Precision = eps`. */
    constructor (colormap: map<NRGBA, int>, colorCount: Option<map<NRGBA, nat>>, eps: real, bits32: real -> U32,
                 parseFloat: Path.ParseFn, arc: Path.ArcFn, rotate: (Matrix, real) -> Matrix,
                 atoi: string -> (int, bool), scanViewBox: string -> Option<(real, real, real, real)>)
      ensures State() == ConvState([], false, Identity, [], [], colorCount, None)
      ensures Environment() == Env(colormap, eps, bits32, parseFloat, arc, rotate, atoi, scanViewBox)
      ensures fresh(mem)
    {
      this.colormap := colormap;
      this.colorCount := colorCount;
      im := None;
      mem := new Prog.ProgMem(eps, bits32);
      xform := [];
      colors := [];
      this.parseFloat := parseFloat;
      this.arc := arc;
      this.rotate := rotate;
      this.atoi := atoi;
      this.scanViewBox := scanViewBox;
    }

    /** `transform()` */
    function Transform(): Matrix
      reads this
    {
      Top(xform)
    }

    /** `pushTransform` */
    method PushTransform(m: Matrix)
      modifies this
      ensures State() == old(State()).(xform := old(xform) + [m])
      ensures Transform() == m
    {
      xform := xform + [m];
    }

    /** `popTransform`: drops the top; the source panics on an empty stack. */
    method PopTransform()
      requires |xform| > 0
      modifies this
      ensures State() == old(State()).(xform := old(xform)[..|old(xform)| - 1])
    {
      xform := xform[..|xform| - 1];
    }

    /** `handle_fill` */
    method HandleFill(n: Node) returns (err: Option<ConvError>)
      modifies this, mem
      ensures match FillStep(Environment(), n, old(State()))
        case Err(e) => err == Some(e) && State() == old(State())
        case Ok(s1) => err.None? && State() == s1
    {
      var f := SolidFill(n);
      err := Fill(f);
    }

    /** The part of `handle_fill` after the fill attribute is decoded. */
    method Fill(f: Result<Option<NRGBA>, ConvError>) returns (err: Option<ConvError>)
      modifies this, mem
      ensures match FillWith(Environment(), f, old(State()))
        case Err(e) => err == Some(e) && State() == old(State())
        case Ok(s1) => err.None? && State() == s1
    {
      if f.Err? {
        return Some(f.error);
      }
      if f.value.None? {
        return Some(NoFill);
      }
      var c := f.value.value;
      if colorCount.Some? {
        var m := colorCount.value;
        colorCount := Some(m[c := (if c in m then m[c] else 0) + 1]);
      }
      if c in colormap {
        mem.Byte(0x02);
        mem.Byte(ToByte(colormap[c]));
      } else {
        colors := colors + [c];
        mem.Byte(0x01);
        mem.Color(c);
      }
      return None;
    }

    /** `path` */
    method PathElement(n: Node) returns (err: Option<ConvError>)
      modifies this, mem
      ensures (State(), err) == PathStep(Environment(), n, old(State()))
    {
      var d := FindAttr(n, "d");
      if d.Err? {
        return Some(d.error);
      }
      var cmds := Path.PathDCmds(d.value, parseFloat, arc);
      if cmds.Err? {
        return Some(PathFailed(cmds.error));
      }
      if |cmds.value| == 0 {
        return None;
      }
      if |cmds.value| == 1 && cmds.value[0].cmd == 'M' {
        return None;
      }
      err := HandleFill(n);
      if err.Some? {
        return;
      }
      mem.BeginPath(Transform());
      err := PathCmds(cmds.value);
    }

    /** The loop of `path` over the decoded commands. */
    method PathCmds(cmds: seq<Path.PathCmd>) returns (err: Option<ConvError>)
      modifies mem
      ensures (State(), err) == CmdsStep(Environment(), cmds, old(State()))
    {
      var i := 0;
      while i < |cmds|
        invariant 0 <= i <= |cmds|
        invariant CmdsStep(Environment(), cmds[i..], State()) == CmdsStep(Environment(), cmds, old(State()))
      {
        assert cmds[i..][1..] == cmds[i + 1..];
        var e := mem.PathCmd(cmds[i]);
        if e.Some? {
          return Some(ProgFailed(e.value));
        }
        i := i + 1;
      }
      return None;
    }

    /** `svg` */
    method SvgElement(n: Node) returns (err: Option<ConvError>)
      modifies this, mem
      ensures (State(), err) == SvgStep(Environment(), n, old(State()))
    {
      im := Some(SvgImage(0, 0));
      var ws := FindAttr(n, "width");
      if ws.Err? {
        return Some(ws.error);
      }
      var (w, okw) := atoi(TrimSuffix(ws.value, "px"));
      im := Some(SvgImage(w, 0));
      if !okw {
        return Some(BadWidth(ws.value));
      }
      var hs := FindAttr(n, "height");
      if hs.Err? {
        return Some(hs.error);
      }
      var (h, okh) := atoi(TrimSuffix(hs.value, "px"));
      im := Some(SvgImage(w, h));
      if !okh {
        return Some(BadHeight(hs.value));
      }
      err := SvgViewBox(n);
    }

    /** The `viewBox` part of `svg`. */
    method SvgViewBox(n: Node) returns (err: Option<ConvError>)
      modifies mem
      ensures (State(), err) == ViewBoxStep(Environment(), n, old(State()))
    {
      var vb := FindAttr(n, "viewBox");
      err := ViewBoxFrom(vb);
    }

    /** The view box from the text of `viewBox`, scanned as four numbers. */
    method ViewBoxFrom(vb: Result<string, ConvError>) returns (err: Option<ConvError>)
      modifies mem
      ensures (State(), err) == ViewBoxWith(Environment(), vb, old(State()))
    {
      if vb.Err? {
        return Some(vb.error);
      }
      var box := scanViewBox(vb.value);
      if box.None? {
        return Some(BadViewBox(vb.value));
      }
      var (minx, miny, width, height) := box.value;
      mem.ViewBox(minx, miny, minx + width, miny + height);
      return None;
    }

    /** `node`; the message about `clip-path` on standard error is not modelled. */
    method NodeVisit(n: Node) returns (v: Visit)
      modifies this, mem
      ensures (State(), v) == NodeStep(Environment(), n, old(State()))
    {
      var hidden := IsHidden(n);
      if hidden.Err? {
        return Failed(hidden.error);
      }
      if hidden.value {
        return Skip;
      }
      var pushed := false;
      if HasAttr(n, "transform") {
        var t := FindAttr(n, "transform");
        if t.Err? {
          return Failed(t.error);
        }
        var mat, terr := SvgTransformMatrix(t.value, parseFloat, rotate);
        if terr.Some? {
          return Failed(TransformFailed(terr.value));
        }
        PushTransform(Mul(Transform(), mat));
        pushed := true;
      }
      assert State() == Pushed(old(State()), OwnTransform(Environment(), n).value);
      var err: Option<ConvError> := None;
      if n.name == "svg" {
        err := SvgElement(n);
      } else if n.name == "path" {
        err := PathElement(n);
      }
      if pushed {
        PopTransform();
      }
      v := if err.Some? then Failed(err.value) else Done;
    }

    /** `tree` */
    method Tree(n: Node) returns (err: Option<ConvError>)
      modifies this, mem
      ensures (State(), err) == TreeOf(Environment(), n, old(State()))
      decreases n
    {
      var v := NodeVisit(n);
      if v.Skip? {
        return None;
      }
      if v.Failed? {
        return Some(v.error);
      }
      ghost var s1 := State();
      var i := 0;
      while i < |n.children|
        invariant 0 <= i <= |n.children|
        invariant ChildrenOf(Environment(), n, i, State()) == ChildrenOf(Environment(), n, 0, s1)
      {
        err := Tree(n.children[i]);
        if err.Some? {
          return;
        }
        i := i + 1;
      }
      return None;
    }

    /** `finish`: the stop opcode, then the program as the image's data; the source dereferences a nil image when no `svg` element was seen. */
    method Finish() returns (r: Option<(SvgImage, seq<Byte>)>)
      modifies mem
      ensures mem.buf == old(mem.buf) + [0x00]
      ensures r == if im.None? then None else Some((im.value, mem.buf))
    {
      mem.Stop();
      if im.None? {
        return None;
      }
      return Some((im.value, mem.buf));
    }
  }

  // ---------------------------------------------------------------------------
  // Where the transform of a group goes

  /**
    `tree` as evidently intended: the node's transform stays pushed while its
    children are visited, and is popped after them.
   */
  function TreeIntended(env: Env, n: Node, s: ConvState): (r: (ConvState, Option<ConvError>))
    ensures r.0.xform == s.xform && s.buf <= r.0.buf
    ensures IsHidden(n) == Ok(true) ==> r == (s, None)
    decreases n, |n.children| + 1
  {
    match IsHidden(n)
    case Err(e) => (s, Some(e))
    case Ok(hidden) =>
      if hidden then (s, None)
      else
        match OwnTransform(env, n)
        case Err(e) => (s, Some(e))
        case Ok(t) =>
          var s1 := Pushed(s, t);
          var (s2, e) := ElementStep(env, n, s1);
          var (s3, e3) := if e.Some? then (s2, e) else ChildrenIntended(env, n, 0, s2);
          (s3.(xform := s.xform), e3)
  }

  function ChildrenIntended(env: Env, n: Node, i: nat, s: ConvState): (r: (ConvState, Option<ConvError>))
    requires i <= |n.children|
    ensures r.0.xform == s.xform && s.buf <= r.0.buf
    decreases n, |n.children| - i
  {
    if i == |n.children| then (s, None)
    else
      var (s1, e) := TreeIntended(env, n.children[i], s);
      if e.Some? then (s1, e) else ChildrenIntended(env, n, i + 1, s1)
  }

  /** A visible, childless `path` without its own transform that decodes and has a fill. */
  predicate PlainPath(env: Env, c: Node)
  {
    c.name == "path" && c.children == [] && IsHidden(c) == Ok(false) && !HasAttr(c, "transform")
    && AttrValue(c.attrs, "d").Ok? && Path.PathDCmdsOf(AttrValue(c.attrs, "d").value, env.parseFloat, env.arc).Ok?
    && Draws(Path.PathDCmdsOf(AttrValue(c.attrs, "d").value, env.parseFloat, env.arc).value)
    && SolidFill(c).Ok? && SolidFill(c).value.Some?
  }

  /**
    As written, a group's `transform` never reaches its children: `node` pops
    it before `tree` visits them, so the path inside is drawn under the
    transform the group itself started from.
   */
  lemma GroupTransformLost(env: Env, g: Node, c: Node, s: ConvState)
    requires Path.ArcShaped(env.arc)
    requires g.name == "g" && g.children == [c] && IsHidden(g) == Ok(false) && OwnTransform(env, g).Ok?
    requires PlainPath(env, c)
    ensures TreeOf(env, g, s).1 == None
    ensures TreeOf(env, g, s).0.pathXform == Top(s.xform)
  {
    GroupVisited(env, g, s);
    PlainPathTree(env, c, s);
    assert ChildrenOf(env, g, 1, TreeOf(env, c, s).0) == (TreeOf(env, c, s).0, None);
    assert ChildrenOf(env, g, 0, s) == TreeOf(env, c, s);
  }

  /** A visible group with a readable transform is `Done` and leaves the state as it found it. */
  lemma GroupVisited(env: Env, g: Node, s: ConvState)
    requires g.name == "g" && IsHidden(g) == Ok(false) && OwnTransform(env, g).Ok?
    ensures NodeStep(env, g, s) == (s, Done)
    ensures TreeOf(env, g, s) == ChildrenOf(env, g, 0, s)
  {
    var s1 := Pushed(s, OwnTransform(env, g).value);
    assert ElementStep(env, g, s1) == (s1, None);
    assert s1.(xform := s.xform) == s;
  }

  /** A plain path is visited without error and drawn under the top of the stack it is given. */
  lemma PlainPathTree(env: Env, c: Node, s: ConvState)
    requires Path.ArcShaped(env.arc)
    requires PlainPath(env, c)
    ensures TreeOf(env, c, s).1 == None
    ensures TreeOf(env, c, s).0.pathXform == Top(s.xform)
    ensures TreeIntended(env, c, s) == TreeOf(env, c, s)
  {
    PathDrawnUnder(env, c, s, AttrValue(c.attrs, "d").value);
    var r := PathStep(env, c, s);
    assert OwnTransform(env, c) == Ok(None);
    assert Pushed(s, None) == s;
    assert ElementStep(env, c, s) == r;
    assert r.0.(xform := s.xform) == r.0;
    assert NodeStep(env, c, s) == (r.0, Done);
    assert ChildrenOf(env, c, 0, r.0) == (r.0, None);
    assert ChildrenIntended(env, c, 0, r.0) == (r.0, None);
  }

  /** With the intended walk, the path inside the group is drawn under top · T. */
  lemma GroupTransformApplied(env: Env, g: Node, c: Node, s: ConvState, t: Matrix)
    requires Path.ArcShaped(env.arc)
    requires g.name == "g" && g.children == [c] && IsHidden(g) == Ok(false) && OwnTransform(env, g) == Ok(Some(t))
    requires PlainPath(env, c)
    ensures TreeIntended(env, g, s).1 == None
    ensures TreeIntended(env, g, s).0.pathXform == Mul(Top(s.xform), t)
  {
    var s1 := Pushed(s, Some(t));
    assert Top(s1.xform) == Mul(Top(s.xform), t);
    assert ElementStep(env, g, s1) == (s1, None);
    PlainPathTree(env, c, s1);
    var r := TreeIntended(env, c, s1);
    assert ChildrenIntended(env, g, 1, r.0) == (r.0, None);
    assert ChildrenIntended(env, g, 0, s1) == r;
  }

  // ---------------------------------------------------------------------------
  // Presentation attributes at work

  /** A `display="none"` attribute hides the element. */
  lemma DisplayAttributeHides(name: string, children: seq<Node>)
    ensures IsHidden(Node(name, [Attr("display", "none")], children)) == Ok(true)
  {
    var n := Node(name, [Attr("display", "none")], children);
    assert AttrCount(n.attrs, "display") == 1;
    assert AttrValue(n.attrs, "display") == Ok("none");
  }

  /** `style="fill:none"` hides the element too: the style lookup reads `fill` whatever attribute was asked for. */
  lemma StyleFillNoneHides(name: string, children: seq<Node>)
    ensures IsHidden(Node(name, [Attr("style", "fill:none")], children)) == Ok(true)
  {
    var n := Node(name, [Attr("style", "fill:none")], children);
    assert AttrCount(n.attrs, "display") == 0;
    assert AttrCount(n.attrs, "style") == 1;
    assert AttrValue(n.attrs, "style") == Ok("fill:none");
    FillNoneStyle();
    assert Lookup(CssOf("fill:none"), "fill") == "none";
  }

  /** ...while `style="display:none"` does not hide it. */
  lemma StyleDisplayNoneShows(name: string, children: seq<Node>)
    ensures IsHidden(Node(name, [Attr("style", "display:none")], children)) == Ok(false)
  {
    var n := Node(name, [Attr("style", "display:none")], children);
    assert AttrCount(n.attrs, "display") == 0;
    assert AttrCount(n.attrs, "style") == 1;
    assert AttrValue(n.attrs, "style") == Ok("display:none");
    DisplayNoneStyle();
    assert Lookup(CssOf("display:none"), "fill") == "";
  }

  /**
    `get_presentation_attr` as evidently intended: the attribute itself when
    it is not empty, otherwise the style's entry for that same attribute. For
    `fill`, and wherever the attribute is given, it reads as written.
   */
  function PresentationAttrIntended(n: Node, attr: string): (r: Result<string, ConvError>)
    ensures attr == "fill" ==> r == PresentationAttr(n, attr)
    ensures AttrValue(n.attrs, attr).Ok? && AttrValue(n.attrs, attr).value != "" ==> r == PresentationAttr(n, attr) == Ok(AttrValue(n.attrs, attr).value)
    ensures r.Err? <==> PresentationAttr(n, attr).Err?
  {
    match AttrValue(n.attrs, attr)
    case Err(e) => Err(e)
    case Ok(fs) =>
      if fs != "" then Ok(fs)
      else
        match AttrValue(n.attrs, "style")
        case Err(e) => Err(e)
        case Ok(st) => Ok(Lookup(CssOf(st), attr))
  }

  /** `is_hidden` over the intended presentation value. */
  function IsHiddenIntended(n: Node): Result<bool, ConvError>
  {
    match PresentationAttrIntended(n, "display")
    case Err(e) => Err(e)
    case Ok(a) => Ok(a == "none")
  }

  /**
    A style of one `attr:v` entry gives `v` as the intended presentation
    value of `attr`, where as written it gives `v` only for `fill` and ""
    for every other attribute.
   */
  lemma StyleEntryIntended(name: string, children: seq<Node>, attr: string, v: string)
    requires attr != "style" && |attr| > 0 && ':' !in attr && ';' !in attr && ';' !in v
    requires Trimmed(attr) && Trimmed(v)
    ensures PresentationAttrIntended(Node(name, [Attr("style", attr + ":" + v)], children), attr) == Ok(v)
    ensures PresentationAttr(Node(name, [Attr("style", attr + ":" + v)], children), attr) == Ok(if attr == "fill" then v else "")
  {
    var n := Node(name, [Attr("style", attr + ":" + v)], children);
    assert AttrCount(n.attrs, attr) == 0;
    assert AttrCount(n.attrs, "style") == 1;
    assert AttrValue(n.attrs, "style") == Ok(attr + ":" + v);
    SingleEntry(attr, v);
  }

  /** A style of one `attr:v` entry gives "" as the intended presentation value of any other attribute it does not set. */
  lemma StyleOtherIntended(name: string, children: seq<Node>, attr: string, v: string, other: string)
    requires attr != other && other != "style" && |attr| > 0 && ':' !in attr && ';' !in attr && ';' !in v
    requires Trimmed(attr) && Trimmed(v)
    ensures PresentationAttrIntended(Node(name, [Attr("style", attr + ":" + v)], children), other) == Ok("")
  {
    var n := Node(name, [Attr("style", attr + ":" + v)], children);
    assert AttrCount(n.attrs, other) == 0;
    assert AttrCount(n.attrs, "style") == 1;
    assert AttrValue(n.attrs, "style") == Ok(attr + ":" + v);
    SingleEntry(attr, v);
  }

  /** As intended, `style="display:none"` hides the element and `style="fill:none"` does not. */
  lemma StyleDisplayNoneHidesIntended(name: string, children: seq<Node>)
    ensures IsHiddenIntended(Node(name, [Attr("style", "display:none")], children)) == Ok(true)
    ensures IsHiddenIntended(Node(name, [Attr("style", "fill:none")], children)) == Ok(false)
  {
    StyleWords();
    assert PresentationAttrIntended(Node(name, [Attr("style", "display" + ":" + "none")], children), "display") == Ok("none") by {
      StyleEntryIntended(name, children, "display", "none");
    }
    assert PresentationAttrIntended(Node(name, [Attr("style", "fill" + ":" + "none")], children), "display") == Ok("") by {
      StyleOtherIntended(name, children, "fill", "none", "display");
    }
  }

  lemma FillNoneStyle()
    ensures CssOf("fill:none") == map["fill" := "none"]
  {
    StyleWords();
    SingleEntry("fill", "none");
  }

  lemma DisplayNoneStyle()
    ensures CssOf("display:none") == map["display" := "none"]
  {
    StyleWords();
    SingleEntry("display", "none");
  }

  /** The words of the two styles above: trimmed, free of separators, and joined by a colon. */
  lemma StyleWords()
    ensures Trimmed("fill") && Trimmed("none") && Trimmed("display")
    ensures ':' !in "fill" && ';' !in "fill" && ':' !in "display" && ';' !in "display" && ';' !in "none"
    ensures "fill" + ":" + "none" == "fill:none" && "display" + ":" + "none" == "display:none"
  {
  }

  /** Neither end of `s` is white space. */
  predicate Trimmed(s: string)
  {
    |s| == 0 || (!IsSpace(s[0]) && !IsSpace(s[|s| - 1]))
  }

  /** A style with one `key:value` entry, free of separators and surrounding space, maps that key to that value. */
  lemma SingleEntry(key: string, value: string)
    requires |key| > 0 && ':' !in key && ';' !in key && ';' !in value
    requires Trimmed(key) && Trimmed(value)
    ensures CssOf(key + ":" + value) == map[key := value]
  {
    var e := key + ":" + value;
    CssEntryJoined(key, value);
    NotInJoined(key, ':', value, ';');
    CssOfWhole(e);
  }

  /** A style without ';' is a single entry. */
  lemma CssOfWhole(e: string)
    requires ';' !in e && e != ""
    ensures CssOf(e) == Put(map[], CssEntry(e))
  {
    SplitWhole(e, ';');
    EntriesMapSingle(CssEntry, e);
  }

  /** The entry `key:value` splits at the colon after `key`, and trimming leaves trimmed text alone. */
  lemma CssEntryJoined(key: string, value: string)
    requires |key| > 0 && ':' !in key && Trimmed(key) && Trimmed(value)
    ensures CssEntry(key + ":" + value) == Some((key, value))
  {
    var e := key + ":" + value;
    IndexOfJoined(key, ':', value);
    assert e[..|key|] == key && e[|key| + 1..] == value;
    TrimmedTrim(key);
    TrimmedTrim(value);
  }

  lemma TrimmedTrim(s: string)
    requires Trimmed(s)
    ensures TrimSpace(s) == s
  {
    assert LeadingSpace(s) == 0;
    assert TrailingSpace(s) == 0;
  }

  lemma NotInJoined(a: string, sep: char, b: string, c: char)
    requires c !in a && c !in b && c != sep
    ensures c !in a + [sep] + b
  {
  }

  /** A string without the separator is one piece. */
  lemma SplitWhole(s: string, sep: char)
    requires sep !in s
    ensures Split(s, sep) == [s]
  {
  }

  lemma EntriesMapSingle<E, K, V>(f: E -> Option<(K, V)>, e: E)
    ensures EntriesMap(f, [e]) == Put(map[], f(e))
  {
    var none: seq<E> := [];
    assert [e][..0] == none;
  }

  // ---------------------------------------------------------------------------
  // xmlTree

  /** The tokens of `encoding/xml` that `xmlTree` looks at; all others are `Other`. */
  datatype Token = StartElement(name: string, attrs: seq<Attr>) | EndElement | Other

  datatype XmlError =
    | EmptyDoc          // "Empty doc"
    | MultipleRoots     // "Multiple root nodes"
    | Unbalanced        // an end with nothing open, or open elements at the end of input

  /** Closing `n`: it becomes the last child of the innermost open element, or another root. */
  function Attach(stack: seq<Node>, roots: seq<Node>, n: Node): (r: (seq<Node>, seq<Node>))
    ensures |r.0| == |stack|
  {
    if |stack| == 0 then (stack, roots + [n])
    else
      var p := stack[|stack| - 1];
      (stack[..|stack| - 1] + [p.(children := p.children + [n])], roots)
  }

  /** The roots the token list builds from the open elements `stack` and the finished `roots`. */
  function Build(tokens: seq<Token>, stack: seq<Node>, roots: seq<Node>): Result<seq<Node>, XmlError>
    decreases |tokens|
  {
    if |tokens| == 0 then (if |stack| == 0 then Ok(roots) else Err(Unbalanced))
    else
      match tokens[0]
      case StartElement(name, attrs) => Build(tokens[1..], stack + [Node(name, attrs, [])], roots)
      case EndElement =>
        if |stack| == 0 then Err(Unbalanced)
        else
          var (st, rs) := Attach(stack[..|stack| - 1], roots, stack[|stack| - 1]);
          Build(tokens[1..], st, rs)
      case Other => Build(tokens[1..], stack, roots)
  }

  /** `xmlTree`: exactly one root element, or the error for none or for several. */
  function XmlTreeOf(tokens: seq<Token>): (r: Result<Node, XmlError>)
    ensures r.Ok? <==> Build(tokens, [], []).Ok? && |Build(tokens, [], []).value| == 1
    ensures r.Ok? ==> Build(tokens, [], []) == Ok([r.value])
    ensures tokens == [] ==> r == Err(EmptyDoc)
  {
    match Build(tokens, [], [])
    case Err(e) => Err(e)
    case Ok(roots) =>
      if |roots| == 0 then Err(EmptyDoc)
      else if |roots| == 1 then
        assert roots == [roots[0]];
        Ok(roots[0])
      else Err(MultipleRoots)
  }

  /** The loop of `xmlTree` over the tokens, with the stack of open elements. */
  method XmlTree(tokens: seq<Token>) returns (r: Result<Node, XmlError>)
    ensures r == XmlTreeOf(tokens)
  {
    var stack: seq<Node> := [];
    var roots: seq<Node> := [];
    var i := 0;
    while i < |tokens|
      invariant 0 <= i <= |tokens|
      invariant Build(tokens[i..], stack, roots) == Build(tokens, [], [])
    {
      assert tokens[i..][1..] == tokens[i + 1..];
      match tokens[i] {
        case StartElement(name, attrs) =>
          stack := stack + [Node(name, attrs, [])];
        case EndElement =>
          if |stack| == 0 {
            return Err(Unbalanced);
          }
          var top := stack[|stack| - 1];
          stack := stack[..|stack| - 1];
          if |stack| == 0 {
            roots := roots + [top];
          } else {
            var p := stack[|stack| - 1];
            stack := stack[..|stack| - 1] + [p.(children := p.children + [top])];
          }
        case Other =>
      }
      i := i + 1;
    }
    assert tokens[i..] == [];
    if |stack| != 0 {
      return Err(Unbalanced);
    }
    if |roots| == 0 {
      return Err(EmptyDoc);
    }
    if |roots| == 1 {
      return Ok(roots[0]);
    }
    return Err(MultipleRoots);
  }

  /** The tokens of an element: its start, its children's tokens in order, its end. */
  function Tokens(n: Node): seq<Token>
    decreases n, |n.children| + 1
  {
    [StartElement(n.name, n.attrs)] + ChildTokens(n, 0) + [EndElement]
  }

  function ChildTokens(n: Node, i: nat): seq<Token>
    requires i <= |n.children|
    decreases n, |n.children| - i
  {
    if i == |n.children| then [] else Tokens(n.children[i]) + ChildTokens(n, i + 1)
  }

  /** An element's tokens build exactly that element and close it into what is open. */
  lemma {:induction false} BuildTokens(n: Node, rest: seq<Token>, stack: seq<Node>, roots: seq<Node>)
    ensures Build(Tokens(n) + rest, stack, roots) == Build(rest, Attach(stack, roots, n).0, Attach(stack, roots, n).1)
    decreases n, |n.children| + 1
  {
    var open := Node(n.name, n.attrs, []);
    var tail := ChildTokens(n, 0) + ([EndElement] + rest);
    assert Tokens(n) + rest == [StartElement(n.name, n.attrs)] + tail;
    assert (Tokens(n) + rest)[1..] == tail;
    assert n.children[..0] == [];
    BuildChildren(n, 0, [EndElement] + rest, stack, roots);
    assert ([EndElement] + rest)[1..] == rest;
    assert (stack + [n])[..|stack|] == stack;
  }

  /** The tokens of the children from `i` on add those children to the open element. */
  lemma {:induction false} BuildChildren(n: Node, i: nat, rest: seq<Token>, stack: seq<Node>, roots: seq<Node>)
    requires i <= |n.children|
    ensures Build(ChildTokens(n, i) + rest, stack + [Node(n.name, n.attrs, n.children[..i])], roots)
         == Build(rest, stack + [n], roots)
    decreases n, |n.children| - i
  {
    if i == |n.children| {
      assert n.children[..i] == n.children;
      assert ChildTokens(n, i) + rest == rest;
    } else {
      var c := n.children[i];
      var open := Node(n.name, n.attrs, n.children[..i]);
      assert ChildTokens(n, i) + rest == Tokens(c) + (ChildTokens(n, i + 1) + rest);
      BuildTokens(c, ChildTokens(n, i + 1) + rest, stack + [open], roots);
      assert (stack + [open])[..|stack|] == stack;
      assert n.children[..i] + [c] == n.children[..i + 1];
      BuildChildren(n, i + 1, rest, stack, roots);
    }
  }

  /** An element's own tokens give back that element. */
  lemma XmlRoundTrip(n: Node)
    ensures XmlTreeOf(Tokens(n)) == Ok(n)
  {
    BuildTokens(n, [], [], []);
    assert Tokens(n) + [] == Tokens(n);
  }

  /** Two elements side by side are two roots. */
  lemma TwoRootsRejected(a: Node, b: Node)
    ensures XmlTreeOf(Tokens(a) + Tokens(b)) == Err(MultipleRoots)
  {
    var none: seq<Node> := [];
    BuildTokens(a, Tokens(b), none, none);
    assert none + [a] == [a];
    assert Attach(none, none, a) == (none, [a]);
    BuildTokens(b, [], none, [a]);
    assert [a] + [b] == [a, b];
    assert Attach(none, [a], b) == (none, [a, b]);
    assert Tokens(b) + [] == Tokens(b);
    assert Build(Tokens(a) + Tokens(b), none, none) == Ok([a, b]);
  }
}
