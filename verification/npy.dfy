/**
  The NPY writer and reader (NumPy NPY format 1.0). A file is a string of bytes, one char per byte.
 */
module Npy {
  import opened Basics
  import opened Decimals
  import opened Numerals

  datatype DType = Float32 | Float16 | UInt8 | Int8 | Int32 | Int64

  function Descr(dt: DType): (s: string)
    ensures |s| == 3 && '\'' !in s && 'h' !in s && 'T' !in s && ')' !in s
  {
    match dt
    case Float16 => "<f2"
    case UInt8 => "|u1"
    case Int8 => "|i1"
    case Int32 => "<i4"
    case Int64 => "<i8"
    case Float32 => "<f4"
  }

  // ---- searching ----

  predicate At(s: string, t: string, k: int) {
    0 <= k && k + |t| <= |s| && s[k..k + |t|] == t
  }

  /** The first occurrence of `t` at or after `from`. */
  function Find(s: string, t: string, from: nat): (r: Option<nat>)
    ensures r.Some? ==> from <= r.value && At(s, t, r.value)
    ensures forall k :: from <= k < (if r.Some? then r.value else |s| + 1) ==> !At(s, t, k)
    decreases |s| + 1 - from
  {
    if from > |s| then None
    else if At(s, t, from) then Some(from)
    else Find(s, t, from + 1)
  }

  lemma FindFirst(s: string, t: string, from: nat, k: nat)
    requires from <= k && At(s, t, k)
    requires forall i :: from <= i < k ==> !At(s, t, i)
    ensures Find(s, t, from) == Some(k)
  {
  }

  lemma FindChar(s: string, c: char, from: nat, k: nat)
    requires from <= k < |s| && s[k] == c
    requires forall i :: from <= i < k ==> s[i] != c
    ensures Find(s, [c], from) == Some(k)
  {
    forall i | from <= i < k ensures !At(s, [c], i) {
      assert s[i..i + 1] == [s[i]];
    }
    assert s[k..k + 1] == [c];
    FindFirst(s, [c], from, k);
  }

  predicate OnlyAt(s: string, c: char, k: int) {
    forall i :: 0 <= i < |s| && s[i] == c ==> i == k
  }

  lemma AtHas(s: string, t: string, k: nat, j: nat)
    requires j < |t| && At(s, t, k)
    ensures s[k + j] == t[j]
  {
    assert s[k..k + |t|][j] == t[j];
  }

  /** A word with a letter found nowhere else. */
  lemma FindWord(s: string, t: string, k: nat, j: nat)
    requires j < |t| && At(s, t, k) && OnlyAt(s, t[j], k + j)
    ensures Find(s, t, 0) == Some(k)
  {
    forall i | 0 <= i < k ensures !At(s, t, i) {
      if At(s, t, i) {
        AtHas(s, t, i, j);
        assert false;
      }
    }
    FindFirst(s, t, 0, k);
  }

  lemma FindNever(s: string, t: string, j: nat)
    requires j < |t| && t[j] !in s
    ensures Find(s, t, 0).None?
  {
    if Find(s, t, 0).Some? {
      AtHas(s, t, Find(s, t, 0).value, j);
      assert false;
    }
  }

  // ---- the shape text ----

  function Separator(size: nat, i: nat): string {
    if size == 1 then "," else if i + 1 < size then ", " else ""
  }

  /** The first `n` dimensions as the writer lists them. */
  function Listed(shape: seq<nat>, n: nat): string
    requires n <= |shape|
  {
    if n == 0 then "" else Listed(shape, n - 1) + Decimal(shape[n - 1]) + Separator(|shape|, n - 1)
  }

  predicate ListChar(c: char) {
    IsDigit(c) || c == ',' || c == ' '
  }

  lemma {:induction false} ListedChars(shape: seq<nat>, n: nat)
    requires n <= |shape|
    ensures forall k :: 0 <= k < |Listed(shape, n)| ==> ListChar(Listed(shape, n)[k])
  {
    if n > 0 {
      ListedChars(shape, n - 1);
    }
  }

  function JoinedText(shape: seq<nat>): string
    requires shape != []
  {
    if |shape| == 1 then Decimal(shape[0]) else JoinedText(shape[..|shape| - 1]) + ", " + Decimal(shape[|shape| - 1])
  }

  lemma {:induction false} ListedPrefix(shape: seq<nat>, n: nat)
    requires 0 < n < |shape|
    ensures Listed(shape, n) == JoinedText(shape[..n]) + ", "
  {
    hide Decimal;
    if n == 1 {
      assert Listed(shape, 1) == Listed(shape, 0) + Decimal(shape[0]) + ", ";
      assert shape[..1] == [shape[0]];
    } else {
      ListedPrefix(shape, n - 1);
      assert shape[..n][..n - 1] == shape[..n - 1];
      assert Listed(shape, n) == JoinedText(shape[..n - 1]) + ", " + Decimal(shape[n - 1]) + ", ";
    }
  }

  /** The text of a tuple: one dimension is followed by a comma, more are separated by comma and space. */
  lemma TupleText(shape: seq<nat>)
    requires shape != []
    ensures Listed(shape, |shape|) == if |shape| == 1 then Decimal(shape[0]) + "," else JoinedText(shape)
  {
    hide Decimal, Listed;
    var n := |shape|;
    ListedMore(shape, n);
    if n > 1 {
      ListedPrefix(shape, n - 1);
    }
  }

  lemma ListedMore(shape: seq<nat>, n: nat)
    requires 0 < n <= |shape|
    ensures Listed(shape, n) == Listed(shape, n - 1) + Decimal(shape[n - 1]) + Separator(|shape|, n - 1)
    ensures Listed(shape, 0) == ""
  {
  }

  /** Length of the digits at the front. */
  function Run(s: string): (k: nat)
    ensures k <= |s| && (forall i :: 0 <= i < k ==> IsDigit(s[i])) && (k < |s| ==> !IsDigit(s[k]))
  {
    if s == "" || !IsDigit(s[0]) then 0 else 1 + Run(s[1..])
  }

  /** Every maximal run of digits is a number, everything else separates. */
  function Numbers(s: string): seq<nat>
    decreases |s|
  {
    if s == "" then []
    else if !IsDigit(s[0]) then Numbers(s[1..])
    else [Parse(s[..Run(s)])] + Numbers(s[Run(s)..])
  }

  lemma {:induction false} RunIs(a: string, b: string)
    requires forall k :: 0 <= k < |a| ==> IsDigit(a[k])
    requires b == "" || !IsDigit(b[0])
    ensures Run(a + b) == |a|
  {
    if a == "" {
      assert a + b == b;
    } else {
      assert (a + b)[1..] == a[1..] + b;
      RunIs(a[1..], b);
    }
  }

  predicate Closed(s: string) {
    s == "" || !IsDigit(s[|s| - 1])
  }

  lemma {:induction false} NumbersAppend(s: string, t: string)
    requires Closed(s)
    ensures Numbers(s + t) == Numbers(s) + Numbers(t)
    decreases |s|
  {
    hide Parse;
    if s == "" {
      assert s + t == t;
    } else if !IsDigit(s[0]) {
      assert (s + t)[1..] == s[1..] + t;
      NumbersAppend(s[1..], t);
    } else {
      var k := Run(s);
      RunIs(s[..k], s[k..] + t);
      assert s + t == s[..k] + (s[k..] + t);
      assert (s + t)[..k] == s[..k] && (s + t)[k..] == s[k..] + t;
      hide Run;
      NumbersAppend(s[k..], t);
      assert Numbers(s + t) == [Parse(s[..k])] + Numbers(s[k..] + t);
    }
  }

  lemma NumbersOne(d: nat, sep: string)
    requires sep in {"", ",", ", "}
    ensures Numbers(Decimal(d) + sep) == [d]
  {
    hide Decimal;
    NumberFirst(Decimal(d), sep);
    ParseDecimal(d);
    assert ","[1..] == "" && ", "[1..] == " " && " "[1..] == "";
    assert Numbers("") == [] && Numbers(",") == Numbers("") && Numbers(" ") == Numbers("") && Numbers(", ") == Numbers(" ");
  }

  lemma {:induction false} NumbersOfListed(shape: seq<nat>, n: nat)
    requires n <= |shape|
    ensures Numbers(Listed(shape, n)) == shape[..n]
    ensures n < |shape| ==> Closed(Listed(shape, n))
  {
    hide Numbers, Decimal;
    if n == 0 {
      NoNumbers();
    } else {
      NumbersOfListed(shape, n - 1);
      var before, sep := Listed(shape, n - 1), Separator(|shape|, n - 1);
      var last := Decimal(shape[n - 1]) + sep;
      NumbersAppend(before, last);
      NumbersOne(shape[n - 1], sep);
      assert Listed(shape, n) == before + last;
      assert shape[..n] == shape[..n - 1] + [shape[n - 1]];
    }
  }

  lemma NoNumbers()
    ensures Numbers("") == []
  {
  }

  // ---- the header ----

  const OPEN: string := "{'descr': '"
  const ORDER: string := "', 'fortran_order': False, "
  const SHAPE: string := "'shape'"
  const BEFORE: string := ": ("
  const COLUMN_MAJOR: string := "'fortran_order': True"
  const AFTER: string := "), }"

  function Dictionary(descr: string, list: string): string {
    OPEN + descr + ORDER + SHAPE + BEFORE + list + AFTER
  }

  function Spaces(n: nat): (s: string)
    ensures |s| == n && forall k :: 0 <= k < n ==> s[k] == ' '
  {
    seq(n, _ => ' ')
  }

  /** Spaces and a newline bring preamble and header to a multiple of 64. */
  function Header(descr: string, list: string): (h: string)
    ensures (10 + |h|) % 64 == 0
  {
    var d := Dictionary(descr, list);
    d + Spaces((64 - (11 + |d|) % 64) % 64) + "\n"
  }

  method ListShape(shape: seq<nat>) returns (sh: string)
    ensures sh == "(" + Listed(shape, |shape|) + ")"
  {
    hide Decimal, Separator;
    sh := "(";
    for i := 0 to |shape|
      invariant sh == "(" + Listed(shape, i)
    {
      sh := sh + Decimal(shape[i]) + Separator(|shape|, i);
    }
    sh := sh + ")";
  }

  method PadHeader(d: string) returns (hdr: string)
    ensures hdr == d + Spaces((64 - (11 + |d|) % 64) % 64) + "\n"
  {
    hdr := d;
    ghost var need := (64 - (11 + |d|) % 64) % 64;
    while (10 + |hdr| + 1) % 64 != 0
      invariant |d| <= |hdr| <= |d| + need && hdr == d + Spaces(|hdr| - |d|)
      decreases |d| + need - |hdr|
    {
      NextMultiple(11 + |d|, |hdr| - |d|);
      hdr := hdr + [' '];
    }
    NextMultiple(11 + |d|, |hdr| - |d|);
    hdr := hdr + "\n";
  }

  lemma NextMultiple(n: nat, k: nat)
    requires k <= (64 - n % 64) % 64
    ensures (n + k) % 64 == 0 <==> k == (64 - n % 64) % 64
  {
  }

  method WriteHeader(descr: string, shape: seq<nat>) returns (hdr: string)
    ensures hdr == Header(descr, Listed(shape, |shape|))
  {
    var sh := ListShape(shape);
    hdr := OPEN + descr + "', 'fortran_order': False, 'shape': " + sh + ", }";
    hide Spaces, Listed;
    DictionaryText(descr, Listed(shape, |shape|));
    hdr := PadHeader(hdr);
  }

  lemma DictionaryText(descr: string, list: string)
    ensures
      OPEN + descr + "', 'fortran_order': False, 'shape': " + ("(" + list + ")") + ", }"
      == Dictionary(descr, list)
  {
    assert "', 'fortran_order': False, 'shape': " + "(" == ORDER + SHAPE + BEFORE;
    assert ")" + ", }" == AFTER;
  }

  /** What the reader takes from the header, step by step as it searches. */
  datatype Parsed = Parsed(descr: string, shape: seq<nat>) | Fortran | Undefined

  function ParseHeader(hdr: string): Parsed {
    if Find(hdr, COLUMN_MAJOR, 0).Some? then Fortran
    else
      var descr := ParseDescr(hdr);
      var word := Find(hdr, SHAPE, 0);
      if descr.None? || word.None? then Undefined
      else
        var lp := Find(hdr, "(", word.value);
        if lp.None? then Undefined
        else
          var rp := Find(hdr, ")", lp.value);
          if rp.None? then Undefined
          else Parsed(descr.value, Numbers(hdr[lp.value + 1..rp.value]))
  }

  function ParseDescr(hdr: string): Option<string> {
    var d := Find(hdr, "'descr'", 0);
    if d.None? then Some("")
    else
      var colon := Find(hdr, ":", d.value);
      if colon.None? then None
      else
        var q := Find(hdr, "'", colon.value + 1);
        if q.None? then None
        else
          var close := Find(hdr, "'", q.value + 1);
          if close.None? then None else Some(hdr[q.value + 1..close.value])
  }

  lemma DescrFound(s: string, descr: string)
    requires At(s, OPEN, 0) && At(s, descr, 11) && 11 + |descr| < |s|
    requires '\'' !in descr && s[11 + |descr|] == '\''
    ensures ParseDescr(s) == Some(descr)
  {
    assert s[..11] == OPEN;
    assert forall i :: 0 <= i < 11 ==> s[i] == OPEN[i];
    assert s[1..8] == OPEN[1..8] == "'descr'";
    assert At(s, "'descr'", 1);
    assert s[0..7][0] == '{';
    FindFirst(s, "'descr'", 0, 1);
    FindChar(s, ':', 1, 8);
    FindChar(s, '\'', 9, 10);
    forall i | 11 <= i < 11 + |descr| ensures s[i] != '\'' {
      AtHas(s, descr, 11, i - 11);
    }
    FindChar(s, '\'', 11, 11 + |descr|);
  }

  lemma ShapeFound(s: string, p: nat, list: string)
    requires At(s, SHAPE, p) && At(s, BEFORE, p + 7) && At(s, list, p + 10)
    requires p + 10 + |list| < |s| && s[p + 10 + |list|] == ')'
    requires OnlyAt(s, 'h', p + 2) && ')' !in list
    ensures Find(s, SHAPE, 0) == Some(p)
    ensures Find(s, "(", p) == Some(p + 9)
    ensures Find(s, ")", p + 9) == Some(p + 10 + |list|)
    ensures s[p + 9 + 1..p + 10 + |list|] == list
  {
    FindWord(s, SHAPE, p, 2);
    hide OnlyAt;
    ParenFound(s, p);
    forall k | p + 10 <= k < p + 10 + |list| ensures s[k] != ')' {
      AtHas(s, list, p + 10, k - p - 10);
    }
    FindChar(s, ')', p + 9, p + 10 + |list|);
  }

  lemma ParenFound(s: string, p: nat)
    requires At(s, SHAPE, p) && At(s, BEFORE, p + 7)
    ensures Find(s, "(", p) == Some(p + 9) && s[p + 9] == '('
  {
    AtHas(s, BEFORE, p + 7, 0);
    AtHas(s, BEFORE, p + 7, 1);
    AtHas(s, BEFORE, p + 7, 2);
    forall k | p <= k < p + 7 ensures s[k] != '(' {
      AtHas(s, SHAPE, p, k - p);
    }
    FindChar(s, '(', p, p + 9);
  }

  lemma Front(s: string, x: string, u: string)
    requires x + u <= s
    ensures x <= s && At(s, u, |x|)
  {
    assert (x + u)[..|x|] == x && (x + u)[|x|..] == u;
    assert s[|x|..|x| + |u|] == (x + u)[|x|..];
  }

  /** The pieces a written header consists of, each at its place, and no other letter 'h' or 'T'. */
  predicate Pieces(h: string, descr: string, list: string) {
    var p := 11 + |descr| + |ORDER|;
    && At(h, OPEN, 0) && At(h, descr, 11) && 11 + |descr| < |h| && h[11 + |descr|] == '\''
    && At(h, SHAPE, p) && At(h, BEFORE, p + 7) && At(h, list, p + 10)
    && p + 10 + |list| < |h| && h[p + 10 + |list|] == ')'
    && OnlyAt(h, 'h', p + 2) && 'T' !in h
  }

  lemma PiecesParse(h: string, descr: string, list: string)
    requires Pieces(h, descr, list) && '\'' !in descr && ')' !in list
    ensures ParseHeader(h) == Parsed(descr, Numbers(list))
  {
    hide Numbers, Find, At, OnlyAt, ParseDescr;
    FindNever(h, COLUMN_MAJOR, 17);
    DescrFound(h, descr);
    ShapeFound(h, 11 + |descr| + |ORDER|, list);
  }

  /** The reader finds in a written header what was written. */
  lemma HeaderRoundTrip(dt: DType, shape: seq<nat>)
    ensures ParseHeader(Header(Descr(dt), Listed(shape, |shape|))) == Parsed(Descr(dt), shape)
  {
    hide Header, Numbers, Listed, ParseHeader, Pieces;
    var descr, list := Descr(dt), Listed(shape, |shape|);
    ListedPlain(shape);
    NumbersOfListed(shape, |shape|);
    assert shape[..|shape|] == shape;
    HeaderPieces(descr, list);
    PiecesParse(Header(descr, list), descr, list);
  }

  /** A header cut before its closing parenthesis. */
  lemma CutHeader(h: string, n: nat)
    requires n <= |h| && 'T' !in h && ')' !in h[..n]
    ensures ParseHeader(h[..n]) == Undefined
  {
    FindNever(h[..n], COLUMN_MAJOR, 17);
    var lp := Find(h[..n], "(", if Find(h[..n], SHAPE, 0).Some? then Find(h[..n], SHAPE, 0).value else 0);
    if lp.Some? && Find(h[..n], ")", lp.value).Some? {
      AtHas(h[..n], ")", Find(h[..n], ")", lp.value).value, 0);
      assert false;
    }
  }

  /** The size a wrapped length field gives ends before the closing parenthesis. */
  lemma WrappedHeader(dt: DType, shape: seq<nat>)
    requires |Header(Descr(dt), Listed(shape, |shape|))| >= 0x1_0000
    ensures
      var h := Header(Descr(dt), Listed(shape, |shape|));
      ParseHeader(h[..|h| % 0x1_0000]) == Undefined
  {
    hide Listed, Header, ParseHeader, Pieces, Descr;
    var descr, list := Descr(dt), Listed(shape, |shape|);
    var h := Header(descr, list);
    ListedPlain(shape);
    HeaderPieces(descr, list);
    var front, back := HeaderFront(descr, list);
    var cut := |h| % 0x1_0000;
    assert h[..cut] == front[..cut];
    NoColumnMajor(h, descr, list);
    CutHeader(h, |h| % 0x1_0000);
  }

  /** A header up to its closing parenthesis, and the little that follows. */
  lemma HeaderFront(descr: string, list: string) returns (front: string, back: string)
    requires ')' !in descr && ')' !in list
    ensures Header(descr, list) == front + back && ')' !in front && |back| < 70
  {
    front := OPEN + descr + ORDER + SHAPE + BEFORE + list;
    back := AFTER + Spaces((64 - (11 + |Dictionary(descr, list)|) % 64) % 64) + "\n";
  }

  lemma NoColumnMajor(h: string, descr: string, list: string)
    requires Pieces(h, descr, list)
    ensures 'T' !in h
  {
  }

  lemma ListedPlain(shape: seq<nat>)
    ensures forall c :: c in {'h', ')', 'T'} ==> c !in Listed(shape, |shape|)
  {
    ListedChars(shape, |shape|);
  }

  /** Where the pieces of a written header stand. */
  lemma HeaderPieces(descr: string, list: string)
    requires '\'' !in descr
    requires forall c :: c in {'h', 'T'} ==> c !in descr && c !in list
    ensures Pieces(Header(descr, list), descr, list)
  {
    hide Spaces, At;
    var a := OPEN + descr;
    var b := a + ORDER;
    var c := b + SHAPE;
    var d := c + BEFORE;
    var e := d + list;
    var f := e + AFTER;
    var pad := Spaces((64 - (11 + |f|) % 64) % 64);
    var h := Header(descr, list);
    assert h == f + pad + "\n";
    assert f <= f + pad <= h;
    Front(h, e, AFTER);
    AtHas(h, AFTER, |e|, 0);
    Front(h, d, list);
    Front(h, c, BEFORE);
    Front(h, b, SHAPE);
    Front(h, a, ORDER);
    AtHas(h, ORDER, |a|, 0);
    Front(h, OPEN, descr);
    Front(h, "", OPEN);
    assert |SHAPE| == 7 && |BEFORE| == 3 && |OPEN| == 11;
    OneLetter(descr, list, pad);
  }

  lemma OneLetter(descr: string, list: string, pad: string)
    requires forall c :: c in {'h', 'T'} ==> c !in descr && c !in list && c !in pad
    ensures OnlyAt(Dictionary(descr, list) + pad + "\n", 'h', 13 + |descr| + |ORDER|)
    ensures 'T' !in Dictionary(descr, list) + pad + "\n"
  {
    var before, after := OPEN + descr + ORDER, BEFORE + list + AFTER + pad + "\n";
    assert Dictionary(descr, list) + pad + "\n" == before + SHAPE + after;
    assert 'h' !in before && 'T' !in before;
    assert 'h' !in after && 'T' !in after;
    assert 'T' !in SHAPE;
    assert OnlyAt(SHAPE, 'h', 2);
    OnlyInside(before, SHAPE, after, 'h', 2);
  }

  lemma OnlyInside(before: string, mid: string, after: string, c: char, j: nat)
    requires c !in before && c !in after && OnlyAt(mid, c, j)
    ensures OnlyAt(before + mid + after, c, |before| + j)
  {
    assert before + mid + after == before + (mid + after);
  }

  // ---- the file ----

  const MAGIC: string := [0x93 as char] + "NUMPY"

  /** A uint16_t written low byte first. */
  function LE16(n: nat): (s: string)
    ensures |s| == 2
  {
    [(n % 256) as char, (n / 256 % 256) as char]
  }

  /** An unsigned number read low byte first. */
  function GetLE(s: string): nat {
    if s == "" then 0 else s[0] as int + 256 * GetLE(s[1..])
  }

  lemma GetTwo(lo: char, hi: char)
    ensures GetLE([lo, hi]) == lo as int + 256 * hi as int
  {
    assert [lo, hi][1..] == [hi] && [hi][1..] == "";
    assert GetLE([hi]) == hi as int;
  }

  lemma LE16Back(n: nat)
    ensures GetLE(LE16(n)) == n % 0x1_0000
  {
    hide GetLE;
    GetTwo((n % 256) as char, (n / 256 % 256) as char);
    var q, r := n / 0x1_0000, n % 0x1_0000;
    assert n == q * 0x1_0000 + r && n / 256 == q * 256 + r / 256;
    assert n / 256 % 256 == r / 256 && n % 256 == r % 256;
  }

  function SaveNpy(shape: seq<nat>, dt: DType, data: string): string {
    var hdr := Header(Descr(dt), Listed(shape, |shape|));
    MAGIC + [1 as char, 0 as char] + LE16(|hdr|) + hdr + data
  }

  method SaveNpyNative(shape: seq<nat>, dt: DType, data: string) returns (f: string)
    ensures f == SaveNpy(shape, dt, data)
  {
    hide Header, Listed, LE16;
    var hdr := WriteHeader(Descr(dt), shape);
    f := MAGIC;
    f := f + [1 as char, 0 as char];
    f := f + LE16(|hdr|);
    f := f + hdr;
    f := f + data;
  }

  /** `n` bytes from `at`, zero where the file has ended. */
  function ReadAt(f: string, at: nat, n: nat): (s: string)
    ensures |s| == n
  {
    seq(n, i requires 0 <= i < n => if at + i < |f| then f[at + i] else 0 as char)
  }

  lemma ReadPiece(f: string, x: string, u: string)
    requires x + u <= f
    ensures ReadAt(f, |x|, |u|) == u
  {
    assert (x + u)[|x|..] == u;
    forall i | 0 <= i < |u| ensures f[|x| + i] == u[i] {
      assert f[|x| + i] == (x + u)[|x| + i];
    }
  }

  function Count(shape: seq<nat>): nat {
    if shape == [] then 1 else Count(shape[..|shape| - 1]) * shape[|shape| - 1]
  }

  /** Kind and width are the second and third characters of the descriptor, fp32 by default. */
  function Kind(descr: string): char {
    if |descr| >= 2 then descr[1] else 'f'
  }

  function Width(descr: string): int {
    if |descr| >= 3 then descr[2] as int - '0' as int else 4
  }

  /** A bare descriptor means fp32, a second letter names the kind, a third the width; what follows is ignored. */
  lemma DescriptorLetters(a: char, b: char, c: char, more: string)
    ensures Kind("") == Kind([a]) == 'f' && Width("") == Width([a]) == Width([a, b]) == 4
    ensures Kind([a, b]) == Kind([a, b, c] + more) == b && Width([a, b, c] + more) == c as int - '0' as int
  {
  }

  /** The number the reader takes an element for, before it is rounded to fp32; None for a type it refuses. */
  function Converted(kind: char, width: int, bytes: string): Option<Num> {
    if kind == 'f' && width == 4 then Some(Ieee(GetLE(bytes), 8, 23))
    else if kind == 'f' && width == 2 then Some(Ieee(GetLE(bytes), 5, 10))
    else if kind == 'f' && width == 8 then Some(Ieee(GetLE(bytes), 11, 52))
    else if kind == 'i' && width == 8 then Some(Fin(TwosComplement(GetLE(bytes), 0x1_0000_0000_0000_0000) as real))
    else if kind == 'i' && width == 4 then Some(Fin(TwosComplement(GetLE(bytes), 0x1_0000_0000) as real))
    else if width == 1 then Some(Fin((if kind == 'u' then GetLE(bytes) else TwosComplement(GetLE(bytes), 0x100)) as real))
    else None
  }

  /** Whether an element type can be read does not depend on the element. */
  predicate Readable(kind: char, width: int) {
    Converted(kind, width, "").Some?
  }

  lemma ReadableIs(kind: char, width: int, bytes: string)
    ensures Converted(kind, width, bytes).Some? <==> Readable(kind, width)
    ensures Readable(kind, width) <==> (kind == 'f' && width in {2, 4, 8}) || (kind == 'i' && width in {4, 8}) || width == 1
  {
  }

  datatype Loaded =
    | NotNpy
    | ColumnMajor
    | Unsupported(descr: string)
    | Wild
    | Tensor(shape: seq<nat>, values: seq<Num>)

  /** The loader. `Wild` stands for a header on which the searches run past the end. */
  function LoadNpy(f: string): Loaded {
    hide ParseHeader, GetLE;
    if ReadAt(f, 0, 6) != MAGIC then NotNpy
    else
      var long := ReadAt(f, 6, 1)[0] >= 2 as char;
      var start := if long then 12 else 10;
      var hlen := GetLE(ReadAt(f, 8, start - 8));
      var header := ParseHeader(ReadAt(f, start, hlen));
      match header
      case Fortran => ColumnMajor
      case Undefined => Wild
      case Parsed(descr, shape) => LoadElements(f, start + hlen, descr, shape)
  }

  function Times(n: nat, width: nat): nat {
    n * width
  }

  /** The elements of `raw`, one after the other. */
  function Elements(kind: char, width: nat, raw: string, n: nat): (r: Option<seq<Num>>)
    requires Times(n, width) <= |raw|
    ensures r.Some? ==> |r.value| == n
    ensures r.Some? <==> n == 0 || Readable(kind, width)
  {
    hide Times;
    if n == 0 then Some([])
    else
      TimesStep(n - 1, width);
      var rest := Elements(kind, width, raw, n - 1);
      ReadableIs(kind, width, raw[Times(n - 1, width)..Times(n, width)]);
      match Converted(kind, width, raw[Times(n - 1, width)..Times(n, width)])
      case None => None
      case Some(v) => if rest.Some? then Some(rest.value + [v]) else None
  }

  lemma TimesStep(n: nat, width: nat)
    ensures Times(n + 1, width) == Times(n, width) + width && Times(0, width) == 0
  {
  }

  function LoadElements(f: string, at: nat, descr: string, shape: seq<nat>): Loaded {
    hide ReadAt, Count, Times, Elements, Converted;
    var n := if shape == [] then 0 else Count(shape);
    var kind, width := Kind(descr), Width(descr);
    if width < 0 then if n > 0 && !Readable(kind, width) then Unsupported(descr) else Wild
    else
      match Elements(kind, width, ReadAt(f, at, Times(n, width)), n)
      case None => Unsupported(descr)
      case Some(values) => Tensor(shape, values)
  }

  /** A type the loader cannot read is refused exactly when there is an element to read. */
  lemma RefusedExact(f: string, at: nat, descr: string, shape: seq<nat>)
    ensures LoadElements(f, at, descr, shape).Unsupported? <==> shape != [] && Count(shape) > 0 && !Readable(Kind(descr), Width(descr))
  {
    hide Readable, Times, Elements;
    TimesStep(0, 0);
  }

  /** The conversion loop; it stops at the first element it cannot read. */
  method Convert(raw: string, n: nat, kind: char, width: nat) returns (r: Option<seq<Num>>)
    requires Times(n, width) <= |raw|
    ensures r == Elements(kind, width, raw, n)
  {
    hide Times, Converted, Readable;
    var values: seq<Num> := [];
    var at := 0;
    TimesStep(0, width);
    for i := 0 to n
      invariant Times(i, width) <= |raw| && at == Times(i, width) && Elements(kind, width, raw, i) == Some(values)
    {
      TimesGrows(i + 1, n, width);
      TimesIs(i + 1, width);
      TimesIs(n, width);
      TimesStep(i, width);
      var v := Converted(kind, width, raw[at..at + width]);
      if v.None? {
        NoneRead(kind, width, raw, n, i);
        return None;
      }
      values := values + [v.value];
      at := at + width;
    }
    r := Some(values);
  }

  lemma TimesIs(n: nat, width: nat)
    ensures Times(n, width) == n * width
  {
  }

  lemma NoneRead(kind: char, width: nat, raw: string, n: nat, i: nat)
    requires i < n && Times(n, width) <= |raw| && Times(i, width) + width <= |raw|
    requires Converted(kind, width, raw[Times(i, width)..Times(i, width) + width]).None?
    ensures Elements(kind, width, raw, n).None?
  {
    ReadableIs(kind, width, raw[Times(i, width)..Times(i, width) + width]);
  }

  // ---- what a typed element stands for ------------------------------------------------------------

  /** Bytes of an element. */
  function ElementWidth(dt: DType): (w: nat)
    ensures w > 0
  {
    match dt
    case UInt8 => 1
    case Int8 => 1
    case Float16 => 2
    case Int64 => 8
    case Int32 => 4
    case Float32 => 4
  }

  /** The number an element's bytes, lowest first, stand for in a tensor of this type. */
  function Element(dt: DType, bytes: string): Num {
    match dt
    case UInt8 => Fin(GetLE(bytes) as real)
    case Int8 => Fin(TwosComplement(GetLE(bytes), Pow2(8)) as real)
    case Int32 => Fin(TwosComplement(GetLE(bytes), Pow2(32)) as real)
    case Int64 => Fin(TwosComplement(GetLE(bytes), Pow2(64)) as real)
    case Float16 => Ieee(GetLE(bytes), 5, 10)
    case Float32 => Ieee(GetLE(bytes), 8, 23)
  }

  /** The numbers of a tensor's data. */
  function Values(dt: DType, data: string, n: nat): (values: seq<Num>)
    requires |data| == Times(n, ElementWidth(dt))
    ensures |values| == n
  {
    hide Times, Element;
    seq(n, i requires 0 <= i < n => ElementAt(dt, data, n, i))
  }

  function ElementAt(dt: DType, data: string, n: nat, i: nat): Num
    requires i < n && |data| == Times(n, ElementWidth(dt))
  {
    TimesGrows(i, n, ElementWidth(dt));
    Element(dt, data[i * ElementWidth(dt)..(i + 1) * ElementWidth(dt)])
  }

  lemma MorePowers()
    ensures Pow2(8) == 0x100 && Pow2(32) == 0x1_0000_0000 && Pow2(64) == 0x1_0000_0000_0000_0000
  {
    Powers();
    assert Pow2(32) == 2 * Pow2(31) && Pow2(64) == 2 * Pow2(63);
  }

  /** Under the descriptor the writer gives a type, the reader takes every element for the number it stands for. */
  lemma ElementRead(dt: DType, bytes: string)
    ensures Width(Descr(dt)) == ElementWidth(dt)
    ensures Converted(Kind(Descr(dt)), Width(Descr(dt)), bytes) == Some(Element(dt, bytes))
  {
    hide GetLE, Ieee, Pow2;
    MorePowers();
  }

  /** So it does with the whole data. */
  lemma {:induction false} ElementsRead(dt: DType, data: string, total: nat, n: nat)
    requires |data| == Times(total, ElementWidth(dt)) && n <= total && Times(n, ElementWidth(dt)) <= |data|
    ensures Elements(Kind(Descr(dt)), ElementWidth(dt), data, n) == Some(Values(dt, data, total)[..n])
  {
    hide Element, Converted, Descr, Kind, Width;
    if n > 0 {
      var w := ElementWidth(dt);
      TimesStep(n - 1, w);
      ElementsRead(dt, data, total, n - 1);
      ElementRead(dt, data[Times(n - 1, w)..Times(n, w)]);
      assert Values(dt, data, total)[..n] == Values(dt, data, total)[..n - 1] + [ElementAt(dt, data, total, n - 1)];
    }
  }

  lemma FileHeaderRead(shape: seq<nat>, dt: DType, data: string)
    ensures
      var hdr := Header(Descr(dt), Listed(shape, |shape|));
      var f := SaveNpy(shape, dt, data);
      && ReadAt(f, 0, 6) == MAGIC && ReadAt(f, 6, 1)[0] < 2 as char
      && GetLE(ReadAt(f, 8, 2)) == |hdr| % 0x1_0000
      && ReadAt(f, 10, |hdr| % 0x1_0000) == hdr[..|hdr| % 0x1_0000]
      && |f| == 10 + |hdr| + |data| && f[10 + |hdr|..] == data
  {
    hide Header, Listed, Descr, LE16, GetLE, ReadAt;
    var hdr := Header(Descr(dt), Listed(shape, |shape|));
    var version := [1 as char, 0 as char];
    var f := SaveNpy(shape, dt, data);
    var a := MAGIC + version;
    var b := a + LE16(|hdr|);
    var c := b + hdr;
    var cut := hdr[..|hdr| % 0x1_0000];
    assert f == c + data;
    assert c <= f && b <= c && a <= b;
    assert hdr == cut + hdr[|hdr| % 0x1_0000..];
    assert b + cut <= c;
    ReadPiece(f, "", MAGIC);
    ReadPiece(f, MAGIC, [1 as char]);
    ReadPiece(f, a, LE16(|hdr|));
    ReadPiece(f, b, cut);
    LE16Back(|hdr|);
  }

  /**
    A tensor comes back, shape and numbers, exactly when its shape has a dimension and its header fits the
    16-bit length field: a rank-0 tensor loses its one element, because the loader counts an empty shape as no
    elements, and of a longer header the loader sees a front without the closing parenthesis.
   */
  lemma NpyRoundTrip(shape: seq<nat>, dt: DType, data: string)
    requires |data| == Times(Count(shape), ElementWidth(dt))
    ensures
      LoadNpy(SaveNpy(shape, dt, data)) == Tensor(shape, Values(dt, data, Count(shape)))
      <==> shape != [] && |Header(Descr(dt), Listed(shape, |shape|))| < 0x1_0000
  {
    hide Header, Listed, Descr, GetLE, ParseHeader, Readable, Kind, Width, SaveNpy, Times, ElementWidth, LoadElements, Values;
    var hdr := Header(Descr(dt), Listed(shape, |shape|));
    var f := SaveNpy(shape, dt, data);
    FileHeaderRead(shape, dt, data);
    if |hdr| >= 0x1_0000 {
      WrappedHeader(dt, shape);
    } else {
      assert hdr[..|hdr|] == hdr;
      HeaderRoundTrip(dt, shape);
      DataRead(f, 10 + |hdr|, shape, dt, data);
    }
  }

  /** The data behind the header gives the tensor's numbers, unless the shape has no dimension. */
  lemma DataRead(f: string, at: nat, shape: seq<nat>, dt: DType, data: string)
    requires |data| == Times(Count(shape), ElementWidth(dt)) && at + |data| == |f| && f[at..] == data
    ensures LoadElements(f, at, Descr(dt), shape) == Tensor(shape, Values(dt, data, Count(shape))) <==> shape != []
  {
    hide Descr, GetLE, Readable, Kind, Width, Times, ElementWidth, Elements, Values, Converted;
    ElementRead(dt, "");
    TimesStep(0, ElementWidth(dt));
    assert ReadAt(f, at, |data|) == data;
    if shape != [] {
      var n := Count(shape);
      ElementsRead(dt, data, n, n);
      assert Values(dt, data, n)[..n] == Values(dt, data, n);
    }
  }

  // ---- the loops of the loader ----

  /** The digit scan between the parentheses. */
  method ScanShape(hdr: string, lp: nat, rp: nat) returns (shape: seq<nat>)
    requires lp < rp <= |hdr|
    ensures shape == Numbers(hdr[lp + 1..rp])
  {
    hide Numbers, Run, Parse;
    shape := [];
    var i := lp + 1;
    while i < rp
      invariant lp < i
      invariant i <= rp ==> shape + Numbers(hdr[i..rp]) == Numbers(hdr[lp + 1..rp])
      invariant rp < i ==> shape == Numbers(hdr[lp + 1..rp])
      decreases rp - i
    {
      if IsDigit(hdr[i]) {
        ghost var first := i;
        var v := 0;
        NoDigits();
        assert hdr[first..first] == "";
        while i < rp && IsDigit(hdr[i])
          invariant first <= i <= rp
          invariant forall k :: first <= k < i ==> IsDigit(hdr[k])
          invariant v == Parse(hdr[first..i])
        {
          ParseSnoc(hdr[first..i], hdr[i]);
          assert hdr[first..i + 1] == hdr[first..i] + [hdr[i]];
          v := v * 10 + (hdr[i] as int - '0' as int);
          i := i + 1;
        }
        shape := shape + [v];
        NumberFirst(hdr[first..i], hdr[i..rp]);
        assert hdr[first..i] + hdr[i..rp] == hdr[first..rp];
      }
      if i < rp {
        NumberSkips(hdr[i..rp]);
        assert hdr[i..rp][1..] == hdr[i + 1..rp];
      } else {
        NoNumbers();
      }
      i := i + 1;
    }
    NoNumbers();
    assert i == rp ==> hdr[i..rp] == "";
  }

  lemma NoDigits()
    ensures Parse("") == 0
  {
  }

  lemma ParseSnoc(s: string, c: char)
    requires forall k :: 0 <= k < |s| ==> IsDigit(s[k])
    requires IsDigit(c)
    ensures forall k :: 0 <= k < |s + [c]| ==> IsDigit((s + [c])[k])
    ensures Parse(s + [c]) == Parse(s) * 10 + (c as int - '0' as int)
  {
    assert (s + [c])[..|s|] == s;
  }

  lemma NumberFirst(a: string, b: string)
    requires a != "" && forall k :: 0 <= k < |a| ==> IsDigit(a[k])
    requires b == "" || !IsDigit(b[0])
    ensures Numbers(a + b) == [Parse(a)] + Numbers(b)
  {
    hide Parse;
    RunIs(a, b);
    hide Run;
    var s := a + b;
    assert s != "" && IsDigit(s[0]);
    assert s[..|a|] == a && s[|a|..] == b;
  }

  lemma NumberSkips(s: string)
    requires s != "" && !IsDigit(s[0])
    ensures Numbers(s) == Numbers(s[1..])
  {
  }

  method CountElements(shape: seq<nat>) returns (n: nat)
    ensures n == if shape == [] then 0 else Count(shape)
  {
    n := 1;
    for i := 0 to |shape|
      invariant n == Count(shape[..i])
    {
      assert shape[..i + 1][..i] == shape[..i];
      n := n * shape[i];
    }
    assert shape[..|shape|] == shape;
    if shape == [] {
      n := 0;
    }
  }
}
