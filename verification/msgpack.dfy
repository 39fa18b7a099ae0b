/**
  The MessagePack subset of the warm-start cache: its grammar, what a document says, what the
  decoder's dictionaries make of it, and the cursor decoder.
 */
module MsgPack {
  import opened Numerals

  type Byte = b: int | 0 <= b < 256

  datatype Error = OutOfData | Truncated | Unsupported(byte: int) | Unhashable

  datatype Result<T> = Ok(value: T) | Err(error: Error)

  /** How bytes become text: UTF-8 with replacement, of which only its being a function matters here. */
  type Utf8 = seq<Byte> -> string

  /** Decoded values; a map lists its entries in order of first insertion. */
  datatype Value =
    | Nil
    | Bool(b: bool)
    | Int(n: int)
    | Bin(bytes: seq<Byte>)
    | Str(bytes: seq<Byte>)
    | Float(bits: seq<Byte>)
    | Double(bits: seq<Byte>)
    | Array(items: seq<Value>)
    | Map(entries: seq<(Value, Value)>)

  /** A legal encoding: a value with its formats chosen.  `w` selects a 1, 2, 4 or 8 byte field. */
  datatype Wire =
    | FixInt(n: int)
    | NilW
    | BoolW(b: bool)
    | UIntW(w: nat, field: seq<Byte>)
    | SIntW(w: nat, field: seq<Byte>)
    | FloatW(field: seq<Byte>)
    | DoubleW(field: seq<Byte>)
    | BinW(w: nat, field: seq<Byte>, bytes: seq<Byte>)
    | FixStr(bytes: seq<Byte>)
    | StrW(w: nat, field: seq<Byte>, bytes: seq<Byte>)
    | FixArray(items: seq<Wire>)
    | ArrayW(w: nat, field: seq<Byte>, items: seq<Wire>)
    | FixMap(items: seq<Wire>)
    | MapW(w: nat, field: seq<Byte>, items: seq<Wire>)

  // ---- big-endian fields ------------------------------------------------------------

  function Width(w: nat): nat
    requires w <= 3
  {
    if w == 0 then 1 else if w == 1 then 2 else if w == 2 then 4 else 8
  }

  function BE(field: seq<Byte>): nat {
    if field == [] then 0 else 256 * BE(field[..|field| - 1]) + field[|field| - 1]
  }

  function Pow256(k: nat): (p: nat)
    ensures p > 0
  {
    if k == 0 then 1 else 256 * Pow256(k - 1)
  }

  /** Two's complement. */
  function Signed(field: seq<Byte>): int {
    if field != [] && field[0] >= 128 then BE(field) - Pow256(|field|) else BE(field)
  }

  function ToBE(n: nat, k: nat): (field: seq<Byte>)
    ensures |field| == k
  {
    if k == 0 then [] else ToBE(n / 256, k - 1) + [n % 256]
  }

  lemma {:induction false} BEToBE(n: nat, k: nat)
    requires n < Pow256(k)
    ensures BE(ToBE(n, k)) == n
  {
    if k > 0 {
      BEToBE(n / 256, k - 1);
      assert ToBE(n, k)[..k - 1] == ToBE(n / 256, k - 1);
    }
  }

  // ---- grammar and meaning -------------------------------------------------------------

  ghost predicate Legal(wire: Wire) {
    match wire
    case FixInt(n) => -32 <= n <= 127
    case NilW => true
    case BoolW(_) => true
    case UIntW(w, f) => w <= 3 && |f| == Width(w)
    case SIntW(w, f) => w <= 3 && |f| == Width(w)
    case FloatW(f) => |f| == 4
    case DoubleW(f) => |f| == 8
    case BinW(w, f, s) => w <= 2 && |f| == Width(w) && BE(f) == |s|
    case FixStr(s) => |s| <= 31
    case StrW(w, f, s) => w <= 2 && |f| == Width(w) && BE(f) == |s|
    case FixArray(items) => |items| <= 15 && AllLegal(items)
    case ArrayW(w, f, items) => 1 <= w <= 2 && |f| == Width(w) && BE(f) == |items| && AllLegal(items)
    case FixMap(items) => |items| % 2 == 0 && |items| <= 30 && AllLegal(items)
    case MapW(w, f, items) => 1 <= w <= 2 && |f| == Width(w) && 2 * BE(f) == |items| && AllLegal(items)
  }

  ghost predicate AllLegal(items: seq<Wire>) {
    forall i | 0 <= i < |items| :: Legal(items[i])
  }

  /** What an encoding says, every map entry as written. */
  function Said(wire: Wire): Value {
    match wire
    case FixInt(n) => Int(n)
    case NilW => Nil
    case BoolW(b) => Bool(b)
    case UIntW(_, f) => Int(BE(f))
    case SIntW(_, f) => Int(Signed(f))
    case FloatW(f) => Float(f)
    case DoubleW(f) => Double(f)
    case BinW(_, _, s) => Bin(s)
    case FixStr(s) => Str(s)
    case StrW(_, _, s) => Str(s)
    case FixArray(items) => Array(SaidAll(items))
    case ArrayW(_, _, items) => Array(SaidAll(items))
    case FixMap(items) => Map(Paired(SaidAll(items)))
    case MapW(_, _, items) => Map(Paired(SaidAll(items)))
  }

  function SaidAll(items: seq<Wire>): (values: seq<Value>)
    ensures |values| == |items|
    decreases items
  {
    if items == [] then [] else [Said(items[0])] + SaidAll(items[1..])
  }

  /** Keys and values in turn, two by two. */
  function Paired(values: seq<Value>): (entries: seq<(Value, Value)>)
    ensures |entries| == |values| / 2
  {
    if |values| < 2 then [] else [(values[0], values[1])] + Paired(values[2..])
  }

  /** The bytes of an encoding. */
  function Bytes(wire: Wire): (s: seq<Byte>)
    requires Legal(wire)
    ensures s != []
    decreases wire
  {
    match wire
    case FixInt(n) => [if n < 0 then n + 256 else n]
    case NilW => [0xC0]
    case BoolW(b) => [if b then 0xC3 else 0xC2]
    case UIntW(w, f) => [0xCC + w] + f
    case SIntW(w, f) => [0xD0 + w] + f
    case FloatW(f) => [0xCA] + f
    case DoubleW(f) => [0xCB] + f
    case BinW(w, f, s) => [0xC4 + w] + f + s
    case FixStr(s) => [0xA0 + |s|] + s
    case StrW(w, f, s) => [0xD9 + w] + f + s
    case FixArray(items) => [0x90 + |items|] + AllBytes(items)
    case ArrayW(w, f, items) => [0xDB + w] + f + AllBytes(items)
    case FixMap(items) => [0x80 + |items| / 2] + AllBytes(items)
    case MapW(w, f, items) => [0xDD + w] + f + AllBytes(items)
  }

  function AllBytes(items: seq<Wire>): seq<Byte>
    requires AllLegal(items)
    decreases items
  {
    if items == [] then [] else Bytes(items[0]) + AllBytes(items[1..])
  }

  // ---- the decoder as a function of the document -------------------------------------------

  /** `n` raw bytes at `i`. */
  function Raw(d: seq<Byte>, i: nat, n: nat): (r: Result<seq<Byte>>)
    requires i <= |d|
    ensures r.Ok? <==> i + n <= |d|
    ensures r.Ok? ==> r.value == d[i..i + n]
  {
    if i + n <= |d| then Ok(d[i..i + n]) else Err(Truncated)
  }

  /** A w-field at `i`, then as many raw bytes as it says. */
  function Sized(d: seq<Byte>, i: nat, w: nat): (r: Result<(seq<Byte>, seq<Byte>)>)
    requires i <= |d| && w <= 2
    ensures r.Ok? ==> var (f, s) := r.value; |f| == Width(w) && BE(f) == |s| && i + |f| + |s| <= |d| && d[i..i + |f| + |s|] == f + s
  {
    match Raw(d, i, Width(w))
    case Err(e) => Err(e)
    case Ok(f) =>
      match Raw(d, i + Width(w), BE(f))
      case Err(e) => Err(e)
      case Ok(s) => assert d[i..i + |f| + |s|] == f + s; Ok((f, s))
  }

  /** `wire` is a legal encoding and spans the document's bytes i..next-1. */
  ghost predicate Parsed(d: seq<Byte>, i: nat, wire: Wire, next: nat) {
    i < next <= |d| && Legal(wire) && Bytes(wire) == d[i..next]
  }

  lemma Glue(d: seq<Byte>, i: nat, mid: nat, next: nat)
    requires i <= mid <= next <= |d|
    ensures d[i..next] == d[i..mid] + d[mid..next]
    ensures mid == i + 1 ==> d[i..mid] == [d[i]]
  {
  }

  lemma IntSpans(d: seq<Byte>, i: nat, n: int)
    requires i < |d| && -32 <= n <= 127 && d[i] == (if n < 0 then n + 256 else n)
    ensures Parsed(d, i, FixInt(n), i + 1)
  {
  }

  lemma SmallSpans(d: seq<Byte>, i: nat, wire: Wire, next: nat)
    requires i < next <= |d| && Legal(wire)
    requires
      match wire
      case FixMap(items) => d[i] == 0x80 + |items| / 2 && d[i + 1..next] == AllBytes(items)
      case FixArray(items) => d[i] == 0x90 + |items| && d[i + 1..next] == AllBytes(items)
      case FixStr(s) => d[i] == 0xA0 + |s| && d[i + 1..next] == s
      case _ => false
    ensures Parsed(d, i, wire, next)
  {
    Glue(d, i, i + 1, next);
    hide AllBytes, Legal;
  }

  lemma FieldSpans(d: seq<Byte>, i: nat, wire: Wire, next: nat)
    requires i < next <= |d| && Legal(wire)
    requires
      match wire
      case FloatW(f) => d[i] == 0xCA && d[i + 1..next] == f
      case DoubleW(f) => d[i] == 0xCB && d[i + 1..next] == f
      case UIntW(w, f) => d[i] == 0xCC + w && d[i + 1..next] == f
      case SIntW(w, f) => d[i] == 0xD0 + w && d[i + 1..next] == f
      case _ => false
    ensures Parsed(d, i, wire, next)
  {
    Glue(d, i, i + 1, next);
    hide AllBytes, Legal;
  }

  lemma LargeSpans(d: seq<Byte>, i: nat, wire: Wire, at: nat, next: nat)
    requires i < at <= next <= |d| && Legal(wire)
    requires
      match wire
      case MapW(w, f, items) => d[i] == 0xDD + w && d[i + 1..at] == f && d[at..next] == AllBytes(items)
      case ArrayW(w, f, items) => d[i] == 0xDB + w && d[i + 1..at] == f && d[at..next] == AllBytes(items)
      case BinW(w, f, s) => d[i] == 0xC4 + w && d[i + 1..at] == f && d[at..next] == s
      case StrW(w, f, s) => d[i] == 0xD9 + w && d[i + 1..at] == f && d[at..next] == s
      case _ => false
    ensures Parsed(d, i, wire, next)
  {
    Glue(d, i, i + 1, at);
    Glue(d, i, at, next);
    hide AllBytes, Legal;
  }

  /** The item at `i` and where it ends.  Total: it terminates on every input. */
  function Read(d: seq<Byte>, i: nat): (r: Result<(Wire, nat)>)
    requires i <= |d|
    ensures r.Ok? ==> Parsed(d, i, r.value.0, r.value.1)
    decreases |d| - i, 0, 0
  {
    hide Parsed;
    if i == |d| then Err(OutOfData)
    else
      var c := d[i];
      if c <= 0x7F then IntSpans(d, i, c); Ok((FixInt(c), i + 1))
      else if c >= 0xE0 then IntSpans(d, i, c as int - 0x100); Ok((FixInt(c as int - 0x100), i + 1))
      else if c <= 0xBF then ReadFix(d, i, c)
      else ReadExt(d, i, c)
  }

  /** fixmap, fixarray and fixstr. */
  function ReadFix(d: seq<Byte>, i: nat, c: Byte): (r: Result<(Wire, nat)>)
    requires i < |d| && d[i] == c && 0x80 <= c <= 0xBF
    ensures r.Ok? ==> Parsed(d, i, r.value.0, r.value.1)
    decreases |d| - i - 1, 2, 0
  {
    hide Parsed;
    if c <= 0x8F then
      match ReadMany(d, i + 1, 2 * (c - 0x80))
      case Err(e) => Err(e)
      case Ok((items, next)) => SmallSpans(d, i, FixMap(items), next); Ok((FixMap(items), next))
    else if c <= 0x9F then
      match ReadMany(d, i + 1, c - 0x90)
      case Err(e) => Err(e)
      case Ok((items, next)) => SmallSpans(d, i, FixArray(items), next); Ok((FixArray(items), next))
    else
      match Raw(d, i + 1, c - 0xA0)
      case Err(e) => Err(e)
      case Ok(s) => SmallSpans(d, i, FixStr(s), i + 1 + |s|); Ok((FixStr(s), i + 1 + |s|))
  }

  function ReadExt(d: seq<Byte>, i: nat, c: Byte): (r: Result<(Wire, nat)>)
    requires i < |d| && d[i] == c && 0xC0 <= c < 0xE0
    ensures r.Ok? ==> Parsed(d, i, r.value.0, r.value.1)
    decreases |d| - i - 1, 3, 0
  {
    if c == 0xC0 then Ok((NilW, i + 1))
    else if c == 0xC2 || c == 0xC3 then Ok((BoolW(c == 0xC3), i + 1))
    else if 0xC4 <= c <= 0xC6 || 0xD9 <= c <= 0xDB then ReadBytes(d, i, c)
    else if 0xCA <= c <= 0xD3 then ReadField(d, i, c)
    else if 0xDC <= c <= 0xDF then ReadContainer(d, i, c)
    else Err(Unsupported(c))
  }

  lemma BytesSpan(d: seq<Byte>, i: nat, w: nat, f: seq<Byte>, s: seq<Byte>)
    requires w <= 2 && |f| == Width(w) && BE(f) == |s| && i + 1 + |f| + |s| <= |d|
    requires d[i + 1..i + 1 + |f| + |s|] == f + s
    ensures d[i] == 0xC4 + w ==> Parsed(d, i, BinW(w, f, s), i + 1 + |f| + |s|)
    ensures d[i] == 0xD9 + w ==> Parsed(d, i, StrW(w, f, s), i + 1 + |f| + |s|)
  {
    hide Parsed, BE;
    SplitAt(d, i + 1, f, s);
    if d[i] == 0xC4 + w {
      LargeSpans(d, i, BinW(w, f, s), i + 1 + |f|, i + 1 + |f| + |s|);
    }
    if d[i] == 0xD9 + w {
      LargeSpans(d, i, StrW(w, f, s), i + 1 + |f|, i + 1 + |f| + |s|);
    }
  }

  /** bin8-32 and str8-32. */
  function ReadBytes(d: seq<Byte>, i: nat, c: Byte): (r: Result<(Wire, nat)>)
    requires i < |d| && d[i] == c && (0xC4 <= c <= 0xC6 || 0xD9 <= c <= 0xDB)
    ensures r.Ok? ==> Parsed(d, i, r.value.0, r.value.1)
  {
    hide Parsed, Bytes, BE, Sized;
    var w := if c <= 0xC6 then c - 0xC4 else c - 0xD9;
    match Sized(d, i + 1, w)
    case Err(e) => Err(e)
    case Ok((f, s)) =>
      BytesSpan(d, i, w, f, s);
      Ok((if c <= 0xC6 then BinW(w, f, s) else StrW(w, f, s), i + 1 + |f| + |s|))
  }

  /** Floats and integers. */
  function ReadField(d: seq<Byte>, i: nat, c: Byte): (r: Result<(Wire, nat)>)
    requires i < |d| && d[i] == c && 0xCA <= c <= 0xD3
    ensures r.Ok? ==> Parsed(d, i, r.value.0, r.value.1)
  {
    hide Parsed, Bytes;
    var n := if c == 0xCA then 4 else if c == 0xCB then 8 else Width((c - 0xCC) % 4);
    match Raw(d, i + 1, n)
    case Err(e) => Err(e)
    case Ok(f) =>
      var wire := if c == 0xCA then FloatW(f) else if c == 0xCB then DoubleW(f)
                  else if c <= 0xCF then UIntW(c - 0xCC, f) else SIntW(c - 0xD0, f);
      FieldSpans(d, i, wire, i + 1 + |f|);
      Ok((wire, i + 1 + |f|))
  }

  /** array16/32 and map16/32. */
  function ReadContainer(d: seq<Byte>, i: nat, c: Byte): (r: Result<(Wire, nat)>)
    requires i < |d| && d[i] == c && 0xDC <= c <= 0xDF
    ensures r.Ok? ==> Parsed(d, i, r.value.0, r.value.1)
    decreases |d| - i - 1, 2, 0
  {
    hide Parsed, Bytes, BE;
    var w := if c >= 0xDE then c - 0xDD else c - 0xDB;
    match Raw(d, i + 1, Width(w))
    case Err(e) => Err(e)
    case Ok(f) =>
      var at := i + 1 + |f|;
      match ReadMany(d, at, if c >= 0xDE then 2 * BE(f) else BE(f))
      case Err(e) => Err(e)
      case Ok((items, next)) =>
        var wire := if c >= 0xDE then MapW(w, f, items) else ArrayW(w, f, items);
        LargeSpans(d, i, wire, at, next);
        Ok((wire, next))
  }

  /** `n` items in a row. */
  function ReadMany(d: seq<Byte>, i: nat, n: nat): (r: Result<(seq<Wire>, nat)>)
    requires i <= |d|
    ensures r.Ok? ==> var (items, next) := r.value; i <= next <= |d| && |items| == n && AllLegal(items) && AllBytes(items) == d[i..next]
    decreases |d| - i, 1, n
  {
    if n == 0 then Ok(([], i))
    else
      match Read(d, i)
      case Err(e) => Err(e)
      case Ok((wire, mid)) =>
        match ReadMany(d, mid, n - 1)
        case Err(e) => Err(e)
        case Ok((items, next)) =>
          assert ([wire] + items)[1..] == items;
          Glue(d, i, mid, next);
          Ok(([wire] + items, next))
  }

  // ---- every legal encoding is read back ----------------------------------------------------

  lemma SizedBack(d: seq<Byte>, i: nat, w: nat, f: seq<Byte>, s: seq<Byte>)
    requires w <= 2 && |f| == Width(w) && BE(f) == |s| && i + |f| + |s| <= |d| && d[i..i + |f| + |s|] == f + s
    ensures Sized(d, i, w) == Ok((f, s))
  {
    hide BE;
    SplitAt(d, i, f, s);
  }

  lemma SliceOfSlice(d: seq<Byte>, i: nat, next: nat, k: nat)
    requires i <= next <= |d| && k <= next - i
    ensures d[i..next][..k] == d[i..i + k] && d[i..next][k..] == d[i + k..next]
  {
  }

  /** What stands between i and next splits at mid. */
  lemma SplitAt(d: seq<Byte>, i: nat, a: seq<Byte>, b: seq<Byte>)
    requires i + |a| + |b| <= |d| && d[i..i + |a| + |b|] == a + b
    ensures d[i..i + |a|] == a && d[i + |a|..i + |a| + |b|] == b
  {
    SliceOfSlice(d, i, i + |a| + |b|, |a|);
    assert (a + b)[..|a|] == a && (a + b)[|a|..] == b;
  }

  /** The first byte and the rest of a parsed item. */
  lemma HeadAndTail(d: seq<Byte>, i: nat, wire: Wire, next: nat)
    requires Parsed(d, i, wire, next)
    ensures i < |d| && d[i] == Bytes(wire)[0] && i + |Bytes(wire)| == next && d[i + 1..next] == Bytes(wire)[1..]
  {
    hide Bytes;
    assert d[i] == d[i..next][0];
    assert d[i + 1..next] == d[i..next][1..];
  }

  lemma FieldBack(d: seq<Byte>, i: nat, wire: Wire, next: nat)
    requires Parsed(d, i, wire, next) && (wire.UIntW? || wire.SIntW? || wire.FloatW? || wire.DoubleW?)
    ensures i < |d| && 0xCA <= d[i] <= 0xD3 && ReadField(d, i, d[i]) == Ok((wire, next))
  {
    HeadAndTail(d, i, wire, next);
    assert Bytes(wire)[1..] == wire.field;
  }

  lemma BytesBack(d: seq<Byte>, i: nat, wire: Wire, next: nat)
    requires Parsed(d, i, wire, next) && (wire.BinW? || wire.StrW?)
    ensures i < |d| && (0xC4 <= d[i] <= 0xC6 || 0xD9 <= d[i] <= 0xDB) && ReadBytes(d, i, d[i]) == Ok((wire, next))
  {
    HeadAndTail(d, i, wire, next);
    assert Bytes(wire)[1..] == wire.field + wire.bytes;
    SizedBack(d, i + 1, wire.w, wire.field, wire.bytes);
  }

  lemma LargeHeader(d: seq<Byte>, i: nat, wire: Wire, next: nat)
    requires Parsed(d, i, wire, next) && (wire.ArrayW? || wire.MapW?)
    ensures i < |d| && i + 1 + |wire.field| <= next && d[i] == (if wire.MapW? then 0xDD + wire.w else 0xDB + wire.w)
    ensures d[i + 1..i + 1 + |wire.field|] == wire.field && d[i + 1 + |wire.field|..next] == AllBytes(wire.items)
  {
    HeadAndTail(d, i, wire, next);
    assert Bytes(wire)[1..] == wire.field + AllBytes(wire.items);
    hide Bytes, AllBytes;
    SplitAt(d, i + 1, wire.field, AllBytes(wire.items));
  }

  lemma LargeBack(d: seq<Byte>, i: nat, wire: Wire, next: nat)
    requires Parsed(d, i, wire, next) && (wire.ArrayW? || wire.MapW?)
    ensures i < |d| && 0xDC <= d[i] <= 0xDF && ReadContainer(d, i, d[i]) == Ok((wire, next))
    decreases wire, 0
  {
    hide ReadMany, AllBytes, Bytes, BE;
    LargeHeader(d, i, wire, next);
    ManyBack(d, i + 1 + |wire.field|, wire.items, next);
    assert Raw(d, i + 1, Width(wire.w)) == Ok(wire.field);
  }

  lemma SmallBack(d: seq<Byte>, i: nat, wire: Wire, next: nat)
    requires i <= |d| && Parsed(d, i, wire, next) && (wire.FixInt? || wire.NilW? || wire.BoolW? || wire.FixStr?)
    ensures Read(d, i) == Ok((wire, next))
  {
    HeadAndTail(d, i, wire, next);
    hide ReadMany, ReadContainer, ReadField, ReadBytes;
    if wire.FixStr? {
      assert Bytes(wire)[1..] == wire.bytes;
    }
  }

  lemma SmallContainerBack(d: seq<Byte>, i: nat, wire: Wire, next: nat)
    requires i <= |d| && Parsed(d, i, wire, next) && (wire.FixArray? || wire.FixMap?)
    ensures Read(d, i) == Ok((wire, next))
    decreases wire, 0
  {
    HeadAndTail(d, i, wire, next);
    assert Bytes(wire)[1..] == AllBytes(wire.items);
    ManyBack(d, i + 1, wire.items, next);
    hide ReadMany, ReadExt, AllBytes;
  }

  lemma {:induction false} ManyBack(d: seq<Byte>, i: nat, items: seq<Wire>, next: nat)
    requires i <= next <= |d| && AllLegal(items) && d[i..next] == AllBytes(items)
    ensures ReadMany(d, i, |items|) == Ok((items, next))
    decreases items
  {
    if items != [] {
      var mid := i + |Bytes(items[0])|;
      SplitAt(d, i, Bytes(items[0]), AllBytes(items[1..]));
      ReadBack(d, i, items[0], mid);
      ManyBack(d, mid, items[1..], next);
      assert [items[0]] + items[1..] == items;
    }
  }

  lemma {:induction false} ReadBack(d: seq<Byte>, i: nat, wire: Wire, next: nat)
    requires i <= |d| && Parsed(d, i, wire, next)
    ensures Read(d, i) == Ok((wire, next))
    decreases wire, 1
  {
    hide Bytes, ReadMany, ReadField, ReadBytes, ReadContainer, Parsed;
    match wire
    case FixInt(_) => SmallBack(d, i, wire, next);
    case NilW => SmallBack(d, i, wire, next);
    case BoolW(_) => SmallBack(d, i, wire, next);
    case FixStr(_) => SmallBack(d, i, wire, next);
    case UIntW(_, _) => FieldBack(d, i, wire, next);
    case SIntW(_, _) => FieldBack(d, i, wire, next);
    case FloatW(_) => FieldBack(d, i, wire, next);
    case DoubleW(_) => FieldBack(d, i, wire, next);
    case BinW(_, _, _) => BytesBack(d, i, wire, next);
    case StrW(_, _, _) => BytesBack(d, i, wire, next);
    case FixArray(_) => SmallContainerBack(d, i, wire, next);
    case FixMap(_) => SmallContainerBack(d, i, wire, next);
    case ArrayW(_, _, _) => LargeBack(d, i, wire, next);
    case MapW(_, _, _) => LargeBack(d, i, wire, next);
  }

  /**
    The decoder accepts exactly the legal encodings: it returns an item ending at `next`
    if and only if that item's bytes stand there, minimal or not, whatever follows them.
   */
  lemma ReadExact(d: seq<Byte>, i: nat, wire: Wire, next: nat)
    requires i <= |d|
    ensures Read(d, i) == Ok((wire, next)) <==> Parsed(d, i, wire, next)
  {
    if Parsed(d, i, wire, next) {
      ReadBack(d, i, wire, next);
    }
  }

  /** No encoding is a proper prefix of another. */
  lemma PrefixFree(a: Wire, b: Wire)
    requires Legal(a) && Legal(b) && Bytes(a) <= Bytes(b)
    ensures a == b
  {
    var d := Bytes(b);
    assert d[0..|Bytes(a)|] == Bytes(a) && d[0..|d|] == d;
    ReadBack(d, 0, a, |Bytes(a)|);
    ReadBack(d, 0, b, |d|);
  }

  // ---- dictionaries --------------------------------------------------------------------------

  function AsNum(v: Value): Num {
    match v
    case Int(n) => Fin(n as real)
    case Bool(b) => Fin(if b then 1.0 else 0.0)
    case Float(f) => Ieee(BE(f), 8, 23)
    case Double(f) => Ieee(BE(f), 11, 52)
    case _ => NoNum
  }

  predicate Hashable(v: Value) {
    !v.Array? && !v.Map?
  }

  /** Equality of dictionary keys: numbers and booleans by value, not-a-number never, text by its decoding. */
  predicate KeyEq(u: Utf8, a: Value, b: Value) {
    || (a.Nil? && b.Nil?)
    || (a.Bin? && b.Bin? && a.bytes == b.bytes)
    || (a.Str? && b.Str? && u(a.bytes) == u(b.bytes))
    || (AsNum(a) == AsNum(b) && AsNum(a) != NoNum && AsNum(a) != NaN)
  }

  /** An equal key keeps its place and its first spelling and takes the new value. */
  function Insert(u: Utf8, entries: seq<(Value, Value)>, k: Value, v: Value): (r: seq<(Value, Value)>)
    ensures |r| == |entries| || r == entries + [(k, v)]
    ensures r == entries + [(k, v)] <==> Absent(u, entries, k)
    ensures |r| == |entries| <==> !Absent(u, entries, k)
  {
    if entries == [] then [(k, v)]
    else if KeyEq(u, entries[0].0, k) then [(entries[0].0, v)] + entries[1..]
    else
      var rest := Insert(u, entries[1..], k, v);
      assert entries == [entries[0]] + entries[1..];
      [entries[0]] + rest
  }

  predicate Absent(u: Utf8, entries: seq<(Value, Value)>, k: Value) {
    forall i | 0 <= i < |entries| :: !KeyEq(u, entries[i].0, k)
  }

  /** What the decoder makes of an encoding: a key that is an array or a map is an error, equal keys collapse. */
  function Meaning(u: Utf8, wire: Wire): Result<Value> {
    match wire
    case FixArray(items) => ArrayOf(Meanings(u, items))
    case ArrayW(_, _, items) => ArrayOf(Meanings(u, items))
    case FixMap(items) => MapOf(Dict(u, items, []))
    case MapW(_, _, items) => MapOf(Dict(u, items, []))
    case _ => Ok(Said(wire))
  }

  function ArrayOf(r: Result<seq<Value>>): Result<Value> {
    match r
    case Ok(values) => Ok(Array(values))
    case Err(e) => Err(e)
  }

  function MapOf(r: Result<seq<(Value, Value)>>): Result<Value> {
    match r
    case Ok(entries) => Ok(Map(entries))
    case Err(e) => Err(e)
  }

  function Meanings(u: Utf8, items: seq<Wire>): (r: Result<seq<Value>>)
    ensures r.Ok? ==> |r.value| == |items|
    decreases items
  {
    if items == [] then Ok([])
    else
      match Meaning(u, items[0])
      case Err(e) => Err(e)
      case Ok(v) =>
        match Meanings(u, items[1..])
        case Err(e) => Err(e)
        case Ok(values) => Ok([v] + values)
  }

  /** Entries inserted one after the other. */
  function Dict(u: Utf8, items: seq<Wire>, done: seq<(Value, Value)>): (r: Result<seq<(Value, Value)>>)
    ensures r.Ok? ==> |done| <= |r.value| <= |done| + |items| / 2
    decreases items
  {
    if |items| < 2 then Ok(done)
    else
      match Meaning(u, items[0])
      case Err(e) => Err(e)
      case Ok(k) =>
        match Meaning(u, items[1])
        case Err(e) => Err(e)
        case Ok(v) => if Hashable(k) then Dict(u, items[2..], Insert(u, done, k, v)) else Err(Unhashable)
  }

  // ---- when the value is kept -----------------------------------------------------------------

  /** No map key, at any depth, is an array or a map. */
  ghost predicate KeysHashable(v: Value) {
    match v
    case Array(items) => forall i | 0 <= i < |items| :: KeysHashable(items[i])
    case Map(es) => forall i | 0 <= i < |es| :: Hashable(es[i].0) && KeysHashable(es[i].1)
    case _ => true
  }

  /** And the keys of every map are pairwise different as dictionary keys. */
  ghost predicate KeysDistinct(u: Utf8, v: Value) {
    match v
    case Array(items) => forall i | 0 <= i < |items| :: KeysDistinct(u, items[i])
    case Map(es) =>
      && (forall i | 0 <= i < |es| :: Hashable(es[i].0) && KeysDistinct(u, es[i].1))
      && (forall i, j | 0 <= i < j < |es| :: !KeyEq(u, es[i].0, es[j].0))
    case _ => true
  }

  lemma KeyMeaning(u: Utf8, wire: Wire)
    ensures Hashable(Said(wire)) ==> Meaning(u, wire) == Ok(Said(wire)) && KeysHashable(Said(wire)) && KeysDistinct(u, Said(wire))
    ensures Meaning(u, wire).Ok? ==> Hashable(Meaning(u, wire).value) == Hashable(Said(wire))
  {
  }

  ghost predicate AllHashable(values: seq<Value>) {
    forall i | 0 <= i < |values| :: KeysHashable(values[i])
  }

  ghost predicate AllDistinct(u: Utf8, values: seq<Value>) {
    forall i | 0 <= i < |values| :: KeysDistinct(u, values[i])
  }

  lemma AllOfCons(u: Utf8, v: Value, rest: seq<Value>)
    ensures AllHashable([v] + rest) <==> KeysHashable(v) && AllHashable(rest)
    ensures AllDistinct(u, [v] + rest) <==> KeysDistinct(u, v) && AllDistinct(u, rest)
  {
    hide KeysHashable, KeysDistinct;
    var all := [v] + rest;
    assert all[0] == v;
    assert forall i | 0 < i < |all| :: all[i] == rest[i - 1];
    assert forall i | 0 <= i < |rest| :: rest[i] == all[i + 1];
  }

  lemma {:induction false} MeaningOk(u: Utf8, wire: Wire)
    ensures Meaning(u, wire).Ok? <==> KeysHashable(Said(wire))
    ensures Meaning(u, wire).Err? ==> Meaning(u, wire).error == Unhashable
    decreases wire, 1
  {
    match wire
    case FixArray(items) =>
      MeaningsOk(u, items);
      assert KeysHashable(Array(SaidAll(items))) <==> AllHashable(SaidAll(items));
    case ArrayW(_, _, items) =>
      MeaningsOk(u, items);
      assert KeysHashable(Array(SaidAll(items))) <==> AllHashable(SaidAll(items));
    case FixMap(items) => DictOk(u, items, []);
    case MapW(_, _, items) => DictOk(u, items, []);
    case _ =>
  }

  lemma {:induction false} MeaningsOk(u: Utf8, items: seq<Wire>)
    ensures Meanings(u, items).Ok? <==> AllHashable(SaidAll(items))
    ensures Meanings(u, items).Err? ==> Meanings(u, items).error == Unhashable
    decreases items, 0
  {
    if items != [] {
      hide KeysHashable, AllHashable;
      MeaningOk(u, items[0]);
      MeaningsOk(u, items[1..]);
      AllOfCons(u, Said(items[0]), SaidAll(items[1..]));
    } else {
      assert AllHashable([]);
    }
  }

  ghost predicate EntriesHashable(es: seq<(Value, Value)>) {
    forall i | 0 <= i < |es| :: Hashable(es[i].0) && KeysHashable(es[i].1)
  }

  lemma PairedFirst(items: seq<Wire>)
    requires |items| >= 2
    ensures Paired(SaidAll(items)) == [(Said(items[0]), Said(items[1]))] + Paired(SaidAll(items[2..]))
  {
    assert SaidAll(items[1..]) == [Said(items[1])] + SaidAll(items[1..][1..]);
    assert items[1..][1..] == items[2..];
    assert SaidAll(items)[2..] == SaidAll(items[2..]);
  }

  lemma {:induction false} DictOk(u: Utf8, items: seq<Wire>, done: seq<(Value, Value)>)
    ensures Dict(u, items, done).Ok? <==> EntriesHashable(Paired(SaidAll(items)))
    ensures Dict(u, items, done).Err? ==> Dict(u, items, done).error == Unhashable
    decreases items, 0
  {
    if |items| >= 2 {
      hide KeysHashable, KeysDistinct, Insert;
      MeaningOk(u, items[0]);
      MeaningOk(u, items[1]);
      KeyMeaning(u, items[0]);
      PairedFirst(items);
      var rest, all := Paired(SaidAll(items[2..])), Paired(SaidAll(items));
      assert EntriesHashable(all) <==> Hashable(all[0].0) && KeysHashable(all[0].1) && EntriesHashable(rest) by {
        assert forall i | 0 < i < |all| :: all[i] == rest[i - 1];
        assert forall i | 0 <= i < |rest| :: rest[i] == all[i + 1];
      }
      if Meaning(u, items[0]).Ok? && Meaning(u, items[1]).Ok? && Hashable(Said(items[0])) {
        DictOk(u, items[2..], Insert(u, done, Meaning(u, items[0]).value, Meaning(u, items[1]).value));
      }
    }
  }

  /** Entries that each add one: hashable keys, absent from what came before, and values that are kept. */
  ghost predicate Separate(u: Utf8, done: seq<(Value, Value)>, es: seq<(Value, Value)>)
    decreases |es|
  {
    es == [] || (Hashable(es[0].0) && Absent(u, done, es[0].0) && KeysDistinct(u, es[0].1) && Separate(u, done + [es[0]], es[1..]))
  }

  lemma {:induction false} DictGrows(u: Utf8, items: seq<Wire>, done: seq<(Value, Value)>)
    requires Dict(u, items, done).Ok? && |Dict(u, items, done).value| == |done| + |items| / 2
    ensures Dict(u, items, done).value[..|done|] == done
    decreases items
  {
    if |items| >= 2 {
      var k, v := Meaning(u, items[0]).value, Meaning(u, items[1]).value;
      var more := Insert(u, done, k, v);
      DictGrows(u, items[2..], more);
      var r := Dict(u, items, done).value;
      assert r[..|done|] == r[..|more|][..|done|];
    }
  }

  lemma {:induction false} DictKept(u: Utf8, items: seq<Wire>, done: seq<(Value, Value)>)
    ensures Dict(u, items, done) == Ok(done + Paired(SaidAll(items))) <==> Separate(u, done, Paired(SaidAll(items)))
    decreases items, 0
  {
    hide KeysHashable, KeysDistinct, Meaning, Said;
    if |items| < 2 {
      assert done + [] == done;
    } else {
      PairedFirst(items);
      KeyMeaning(u, items[0]);
      MeaningKept(u, items[0]);
      MeaningKept(u, items[1]);
      var e, rest := (Said(items[0]), Said(items[1])), Paired(SaidAll(items[2..]));
      var all := Paired(SaidAll(items));
      assert all[1..] == rest && done + all == done + [e] + rest;
      if Meaning(u, items[0]).Ok? && Meaning(u, items[1]).Ok? && Hashable(Said(items[0])) {
        var v := Meaning(u, items[1]).value;
        var more := Insert(u, done, e.0, v);
        DictKept(u, items[2..], more);
        if Dict(u, items, done) == Ok(done + all) {
          DictGrows(u, items[2..], more);
          assert (done + all)[|done|] == e;
          assert more == (done + all)[..|more|];
        }
      }
    }
  }

  lemma {:induction false} SeparateIs(u: Utf8, done: seq<(Value, Value)>, es: seq<(Value, Value)>)
    ensures
      Separate(u, done, es) <==>
      && (forall i | 0 <= i < |es| :: Hashable(es[i].0) && KeysDistinct(u, es[i].1) && Absent(u, done, es[i].0))
      && (forall i, j | 0 <= i < j < |es| :: !KeyEq(u, es[i].0, es[j].0))
    decreases |es|
  {
    if es != [] {
      hide KeysDistinct, KeyEq;
      var rest, more := es[1..], done + [es[0]];
      SeparateIs(u, more, rest);
      assert forall i | 0 <= i < |rest| :: rest[i] == es[i + 1];
      assert forall i | 0 < i < |es| :: es[i] == rest[i - 1];
      forall k ensures Absent(u, more, k) <==> Absent(u, done, k) && !KeyEq(u, es[0].0, k) {
        assert forall i | 0 <= i < |done| :: more[i] == done[i];
        assert more[|done|] == es[0];
      }
    }
  }

  /** The decoder keeps what an encoding says exactly when every map's keys are hashable and pairwise different. */
  lemma {:induction false} MeaningKept(u: Utf8, wire: Wire)
    ensures Meaning(u, wire) == Ok(Said(wire)) <==> KeysDistinct(u, Said(wire))
    decreases wire, 1
  {
    hide KeyEq, Insert, BE, Signed, SaidAll, Paired, Meanings, Dict, Separate;
    match wire
    case FixArray(items) =>
      MeaningsKept(u, items);
      assert KeysDistinct(u, Array(SaidAll(items))) <==> AllDistinct(u, SaidAll(items));
    case ArrayW(_, _, items) =>
      MeaningsKept(u, items);
      assert KeysDistinct(u, Array(SaidAll(items))) <==> AllDistinct(u, SaidAll(items));
    case FixMap(items) => MapKept(u, items);
    case MapW(_, _, items) => MapKept(u, items);
    case _ =>
  }

  lemma MapKept(u: Utf8, items: seq<Wire>)
    ensures Dict(u, items, []) == Ok(Paired(SaidAll(items))) <==> KeysDistinct(u, Map(Paired(SaidAll(items))))
    decreases items, 1
  {
    hide KeyEq, Insert, SaidAll, Paired, Dict, Separate;
    var es := Paired(SaidAll(items));
    DictKept(u, items, []);
    SeparateIs(u, [], es);
    assert [] + es == es;
    assert forall k :: Absent(u, [], k);
  }

  lemma {:induction false} MeaningsKept(u: Utf8, items: seq<Wire>)
    ensures Meanings(u, items) == Ok(SaidAll(items)) <==> AllDistinct(u, SaidAll(items))
    decreases items, 0
  {
    if items == [] {
      assert AllDistinct(u, []);
    } else {
      hide KeysDistinct, Meaning, Said, AllDistinct;
      MeaningKept(u, items[0]);
      MeaningsKept(u, items[1..]);
      var rest := SaidAll(items[1..]);
      assert SaidAll(items) == [Said(items[0])] + rest;
      AllOfCons(u, Said(items[0]), rest);
      if Meanings(u, items) == Ok(SaidAll(items)) {
        assert SaidAll(items)[0] == Said(items[0]) && SaidAll(items)[1..] == rest;
        var got := Meanings(u, items).value;
        assert got[0] == Meaning(u, items[0]).value && got[1..] == Meanings(u, items[1..]).value;
      }
    }
  }

  // ---- the decoder as a function of the document ----------------------------------------------

  /** What a leaf format holds: read like its wire form, taken as its value. */
  function Leaf(r: Result<(Wire, nat)>): Result<(Value, nat)> {
    match r
    case Ok((wire, next)) => Ok((Said(wire), next))
    case Err(e) => Err(e)
  }

  function WrapArray(r: Result<(seq<Value>, nat)>): Result<(Value, nat)> {
    match r
    case Ok((values, next)) => Ok((Array(values), next))
    case Err(e) => Err(e)
  }

  function WrapMap(r: Result<(seq<(Value, Value)>, nat)>): Result<(Value, nat)> {
    match r
    case Ok((entries, next)) => Ok((Map(entries), next))
    case Err(e) => Err(e)
  }

  /** The value at `i` and where it ends.  Total: it terminates on every input. */
  function Decode(u: Utf8, d: seq<Byte>, i: nat): (r: Result<(Value, nat)>)
    requires i <= |d|
    ensures r.Ok? ==> i < r.value.1 <= |d|
    decreases |d| - i, 0, 0
  {
    if i == |d| then Err(OutOfData)
    else
      var c := d[i];
      if 0x80 <= c <= 0x8F then WrapMap(DecodeEntries(u, d, i + 1, c - 0x80, []))
      else if 0x90 <= c <= 0x9F then WrapArray(DecodeMany(u, d, i + 1, c - 0x90, []))
      else if 0xDC <= c <= 0xDF then DecodeLarge(u, d, i, c)
      else Leaf(Read(d, i))
  }

  /** array16/32 and map16/32. */
  function DecodeLarge(u: Utf8, d: seq<Byte>, i: nat, c: Byte): (r: Result<(Value, nat)>)
    requires i < |d| && d[i] == c && 0xDC <= c <= 0xDF
    ensures r.Ok? ==> i < r.value.1 <= |d|
    decreases |d| - i - 1, 2, 0
  {
    match Raw(d, i + 1, if c == 0xDC || c == 0xDE then 2 else 4)
    case Err(e) => Err(e)
    case Ok(f) =>
      if c >= 0xDE then WrapMap(DecodeEntries(u, d, i + 1 + |f|, BE(f), []))
      else WrapArray(DecodeMany(u, d, i + 1 + |f|, BE(f), []))
  }

  /** `n` more values behind those already read. */
  function DecodeMany(u: Utf8, d: seq<Byte>, i: nat, n: nat, done: seq<Value>): (r: Result<(seq<Value>, nat)>)
    requires i <= |d|
    ensures r.Ok? ==> i <= r.value.1 <= |d|
    decreases |d| - i, 1, n
  {
    if n == 0 then Ok((done, i))
    else
      match Decode(u, d, i)
      case Err(e) => Err(e)
      case Ok((v, next)) => DecodeMany(u, d, next, n - 1, done + [v])
  }

  /** `n` more entries: the key is read, then the value, then the pair goes into the dictionary. */
  function DecodeEntries(u: Utf8, d: seq<Byte>, i: nat, n: nat, done: seq<(Value, Value)>): (r: Result<(seq<(Value, Value)>, nat)>)
    requires i <= |d|
    ensures r.Ok? ==> i <= r.value.1 <= |d|
    decreases |d| - i, 1, n
  {
    if n == 0 then Ok((done, i))
    else
      match Decode(u, d, i)
      case Err(e) => Err(e)
      case Ok((k, mid)) =>
        match Decode(u, d, mid)
        case Err(e) => Err(e)
        case Ok((v, next)) =>
          if Hashable(k) then DecodeEntries(u, d, next, n - 1, Insert(u, done, k, v)) else Err(Unhashable)
  }

  /** Decoding is parsing and then taking the meaning; an unhashable key may be met before a later parse error. */
  ghost predicate Decoded(u: Utf8, got: Result<(Value, nat)>, parsed: Result<(Wire, nat)>) {
    match parsed
    case Err(e) => got == Err(e) || got == Err(Unhashable)
    case Ok((wire, next)) =>
      match Meaning(u, wire)
      case Ok(v) => got == Ok((v, next))
      case Err(e) => got == Err(e)
  }

  ghost predicate DecodedMany(u: Utf8, got: Result<(seq<Value>, nat)>, done: seq<Value>, parsed: Result<(seq<Wire>, nat)>) {
    match parsed
    case Err(e) => got == Err(e) || got == Err(Unhashable)
    case Ok((items, next)) =>
      match Meanings(u, items)
      case Ok(values) => got == Ok((done + values, next))
      case Err(e) => got == Err(e)
  }

  ghost predicate DecodedEntries(u: Utf8, got: Result<(seq<(Value, Value)>, nat)>, done: seq<(Value, Value)>, parsed: Result<(seq<Wire>, nat)>) {
    match parsed
    case Err(e) => got == Err(e) || got == Err(Unhashable)
    case Ok((items, next)) =>
      match Dict(u, items, done)
      case Ok(entries) => got == Ok((entries, next))
      case Err(e) => got == Err(e)
  }

  lemma {:induction false} DecodeIsRead(u: Utf8, d: seq<Byte>, i: nat)
    requires i <= |d|
    ensures Decoded(u, Decode(u, d, i), Read(d, i))
    decreases |d| - i, 0, 0
  {
    hide ReadMany, DecodeMany, DecodeEntries, Meanings, Dict, Parsed, KeyEq, Insert, BE;
    if i < |d| {
      var c := d[i];
      if 0x80 <= c <= 0x8F {
        EntriesAreRead(u, d, i + 1, c - 0x80, []);
      } else if 0x90 <= c <= 0x9F {
        ArrayIsRead(u, d, i + 1, c - 0x90);
      } else if 0xDC <= c <= 0xDF {
        LargeIsRead(u, d, i, c);
      } else {
        LeafIsRead(u, d, i);
      }
    }
  }

  lemma LeafIsRead(u: Utf8, d: seq<Byte>, i: nat)
    requires i < |d| && !(0x80 <= d[i] <= 0x9F) && !(0xDC <= d[i] <= 0xDF)
    ensures Decoded(u, Leaf(Read(d, i)), Read(d, i))
  {
    hide Parsed, Said, BE, ReadMany, ReadContainer;
  }

  lemma LargeIsRead(u: Utf8, d: seq<Byte>, i: nat, c: Byte)
    requires i < |d| && d[i] == c && 0xDC <= c <= 0xDF
    ensures Decoded(u, DecodeLarge(u, d, i, c), Read(d, i))
    decreases |d| - i - 1, 2, 0
  {
    hide ReadMany, DecodeMany, DecodeEntries, Meanings, Dict, Parsed, KeyEq, Insert, BE;
    var w := if c == 0xDC || c == 0xDE then 2 else 4;
    var f := Raw(d, i + 1, w);
    assert Read(d, i) == ReadExt(d, i, c) == ReadContainer(d, i, c);
    assert Width(if c >= 0xDE then c - 0xDD else c - 0xDB) == w;
    if f.Ok? {
      if c >= 0xDE {
        EntriesAreRead(u, d, i + 1 + |f.value|, BE(f.value), []);
      } else {
        ArrayIsRead(u, d, i + 1 + |f.value|, BE(f.value));
      }
    }
  }

  lemma ArrayIsRead(u: Utf8, d: seq<Byte>, i: nat, n: nat)
    requires i <= |d|
    ensures
      match ReadMany(d, i, n)
      case Err(e) => WrapArray(DecodeMany(u, d, i, n, [])) in {Err(e), Err(Unhashable)}
      case Ok((items, next)) =>
        match ArrayOf(Meanings(u, items))
        case Ok(v) => WrapArray(DecodeMany(u, d, i, n, [])) == Ok((v, next))
        case Err(e) => WrapArray(DecodeMany(u, d, i, n, [])) == Err(e)
    decreases |d| - i, 1, n + 1
  {
    hide ReadMany, DecodeMany, Meanings;
    ManyAreRead(u, d, i, n, []);
    assert forall values: seq<Value> :: [] + values == values;
  }

  lemma {:induction false} ManyAreRead(u: Utf8, d: seq<Byte>, i: nat, n: nat, done: seq<Value>)
    requires i <= |d|
    ensures DecodedMany(u, DecodeMany(u, d, i, n, done), done, ReadMany(d, i, n))
    decreases |d| - i, 1, n
  {
    hide Decode, Read, Meaning, Parsed;
    if n == 0 {
      assert done + [] == done;
    } else {
      DecodeIsRead(u, d, i);
      MeaningError(u, d, i);
      var got := Decode(u, d, i);
      if got.Ok? {
        var (v, next) := got.value;
        ManyAreRead(u, d, next, n - 1, done + [v]);
        var rest := ReadMany(d, next, n - 1);
        if rest.Ok? {
          MeaningsUnhashable(u, rest.value.0);
          var wire := Read(d, i).value.0;
          assert ([wire] + rest.value.0)[1..] == rest.value.0;
          if Meanings(u, rest.value.0).Ok? {
            assert done + ([v] + Meanings(u, rest.value.0).value) == done + [v] + Meanings(u, rest.value.0).value;
          }
        }
      }
    }
  }

  /** The only error of a meaning is an unhashable key. */
  lemma MeaningError(u: Utf8, d: seq<Byte>, i: nat)
    requires i <= |d|
    ensures Read(d, i).Ok? && Meaning(u, Read(d, i).value.0).Err? ==> Meaning(u, Read(d, i).value.0).error == Unhashable
  {
    hide Read, Meaning;
    if Read(d, i).Ok? {
      MeaningOk(u, Read(d, i).value.0);
    }
  }

  lemma MeaningsUnhashable(u: Utf8, items: seq<Wire>)
    ensures Meanings(u, items).Err? ==> Meanings(u, items).error == Unhashable
  {
    MeaningsOk(u, items);
  }

  lemma {:induction false} EntriesAreRead(u: Utf8, d: seq<Byte>, i: nat, n: nat, done: seq<(Value, Value)>)
    requires i <= |d|
    ensures DecodedEntries(u, DecodeEntries(u, d, i, n, done), done, ReadMany(d, i, 2 * n))
    decreases |d| - i, 1, n
  {
    hide Decode, Read, Meaning, Insert, KeyEq, Parsed, Said, Hashable, Decoded, DecodedEntries, ReadMany, Dict;
    if n == 0 {
      NoEntries(u, d, i, done);
    } else {
      DecodeIsRead(u, d, i);
      MeaningError(u, d, i);
      if Decode(u, d, i).Ok? {
        var (k, mid) := Decode(u, d, i).value;
        DecodeIsRead(u, d, mid);
        MeaningError(u, d, mid);
        if Decode(u, d, mid).Ok? && Hashable(k) {
          var (v, next) := Decode(u, d, mid).value;
          EntriesAreRead(u, d, next, n - 1, Insert(u, done, k, v));
          OneMoreEntry(u, d, i, n, done, k, mid, v, next);
        } else {
          BadEntry(u, d, i, n, done);
        }
      } else {
        BadEntry(u, d, i, n, done);
      }
    }
  }

  lemma NoEntries(u: Utf8, d: seq<Byte>, i: nat, done: seq<(Value, Value)>)
    requires i <= |d|
    ensures DecodedEntries(u, DecodeEntries(u, d, i, 0, done), done, ReadMany(d, i, 0))
  {
  }

  lemma OneMoreEntry(u: Utf8, d: seq<Byte>, i: nat, n: nat, done: seq<(Value, Value)>, k: Value, mid: nat, v: Value, next: nat)
    requires i <= mid <= next <= |d| && n > 0 && Hashable(k)
    requires Decode(u, d, i) == Ok((k, mid)) && Decode(u, d, mid) == Ok((v, next))
    requires Decoded(u, Decode(u, d, i), Read(d, i)) && Decoded(u, Decode(u, d, mid), Read(d, mid))
    requires DecodedEntries(u, DecodeEntries(u, d, next, n - 1, Insert(u, done, k, v)), Insert(u, done, k, v), ReadMany(d, next, 2 * (n - 1)))
    ensures DecodedEntries(u, DecodeEntries(u, d, i, n, done), done, ReadMany(d, i, 2 * n))
  {
    hide Decode, Read, Meaning, Insert, KeyEq, Parsed, Said, Hashable;
    ReadTwo(d, i, 2 * n);
    hide ReadMany, Dict;
    if ReadMany(d, next, 2 * (n - 1)).Ok? {
      DictTwo(u, Read(d, i).value.0, Read(d, mid).value.0, ReadMany(d, next, 2 * (n - 1)).value.0, done);
    }
  }

  /** A key or value that cannot be read, or a key that is a container. */
  lemma BadEntry(u: Utf8, d: seq<Byte>, i: nat, n: nat, done: seq<(Value, Value)>)
    requires i <= |d| && n > 0
    requires Decoded(u, Decode(u, d, i), Read(d, i))
    requires Read(d, i).Ok? && Meaning(u, Read(d, i).value.0).Err? ==> Meaning(u, Read(d, i).value.0).error == Unhashable
    requires
      Decode(u, d, i).Ok? ==>
        var mid := Decode(u, d, i).value.1;
        && Decoded(u, Decode(u, d, mid), Read(d, mid))
        && (Read(d, mid).Ok? && Meaning(u, Read(d, mid).value.0).Err? ==> Meaning(u, Read(d, mid).value.0).error == Unhashable)
        && !(Decode(u, d, mid).Ok? && Hashable(Decode(u, d, i).value.0))
    ensures DecodedEntries(u, DecodeEntries(u, d, i, n, done), done, ReadMany(d, i, 2 * n))
  {
    hide Decode, Read, Meaning, Insert, KeyEq, Bytes, AllBytes, Legal, AllLegal, Said, Hashable;
    ReadTwo(d, i, 2 * n);
    hide ReadMany, Dict;
    if Read(d, i).Ok? {
      var (a, mid) := Read(d, i).value;
      if Read(d, mid).Ok? && ReadMany(d, Read(d, mid).value.1, 2 * (n - 1)).Ok? {
        DictTwo(u, a, Read(d, mid).value.0, ReadMany(d, Read(d, mid).value.1, 2 * (n - 1)).value.0, done);
      }
    }
  }

  lemma DictTwo(u: Utf8, a: Wire, b: Wire, items: seq<Wire>, done: seq<(Value, Value)>)
    ensures
      Dict(u, [a, b] + items, done) ==
      if Meaning(u, a).Err? then Err(Meaning(u, a).error)
      else if Meaning(u, b).Err? then Err(Meaning(u, b).error)
      else if !Hashable(Meaning(u, a).value) then Err(Unhashable)
      else Dict(u, items, Insert(u, done, Meaning(u, a).value, Meaning(u, b).value))
  {
    hide Meaning, Insert;
    var all := [a, b] + items;
    assert all[0] == a && all[1] == b && all[2..] == items;
  }

  /** Two items of a longer list, then the rest. */
  lemma ReadTwo(d: seq<Byte>, i: nat, n: nat)
    requires i <= |d| && n >= 2
    ensures
      match Read(d, i)
      case Err(e) => ReadMany(d, i, n) == Err(e)
      case Ok((a, mid)) =>
        match Read(d, mid)
        case Err(e) => ReadMany(d, i, n) == Err(e)
        case Ok((b, next)) =>
          match ReadMany(d, next, n - 2)
          case Err(e) => ReadMany(d, i, n) == Err(e)
          case Ok((items, end)) => ReadMany(d, i, n) == Ok(([a, b] + items, end))
  {
    hide Read, Bytes, AllBytes, Legal, AllLegal;
    if Read(d, i).Ok? {
      var (a, mid) := Read(d, i).value;
      if Read(d, mid).Ok? {
        var (b, next) := Read(d, mid).value;
        if ReadMany(d, next, n - 2).Ok? {
          assert [a] + ([b] + ReadMany(d, next, n - 2).value.0) == [a, b] + ReadMany(d, next, n - 2).value.0;
        }
      }
    }
  }

  /**
    The decoder returns a value ending at `next` if and only if a legal encoding stands there, minimal or
    not and whatever follows it, none of its map keys is an array or a map, and this is its meaning.
   */
  lemma DecodeExact(u: Utf8, d: seq<Byte>, i: nat, v: Value, next: nat)
    requires i <= |d|
    ensures
      Decode(u, d, i) == Ok((v, next))
      <==> exists wire :: Parsed(d, i, wire, next) && KeysHashable(Said(wire)) && Meaning(u, wire) == Ok(v)
  {
    hide Decode, Read, Meaning, Said, KeysHashable, Parsed;
    DecodeIsRead(u, d, i);
    if Decode(u, d, i) == Ok((v, next)) {
      var wire := Read(d, i).value.0;
      MeaningError(u, d, i);
      ReadExact(d, i, wire, next);
      MeaningOk(u, wire);
    }
    forall wire | Parsed(d, i, wire, next) && Meaning(u, wire) == Ok(v) ensures Decode(u, d, i) == Ok((v, next)) {
      ReadExact(d, i, wire, next);
    }
  }

  /** At a legal encoding the decoder succeeds exactly when no map key is an array or a map; that error is the only other outcome. */
  lemma DecodeSucceeds(u: Utf8, d: seq<Byte>, i: nat, wire: Wire, next: nat)
    requires i <= |d| && Parsed(d, i, wire, next)
    ensures Decode(u, d, i).Ok? <==> KeysHashable(Said(wire))
    ensures Decode(u, d, i).Err? ==> Decode(u, d, i) == Err(Unhashable)
  {
    hide Decode, Read, Meaning, Said, KeysHashable, Parsed;
    DecodeIsRead(u, d, i);
    ReadExact(d, i, wire, next);
    MeaningOk(u, wire);
  }

  /** And it returns what the encoding says, ending where it ends, exactly when the keys of every map are also pairwise different. */
  lemma DecodeKeeps(u: Utf8, d: seq<Byte>, i: nat, wire: Wire, next: nat)
    requires i <= |d| && Parsed(d, i, wire, next)
    ensures Decode(u, d, i) == Ok((Said(wire), next)) <==> KeysDistinct(u, Said(wire))
  {
    hide Decode, Read, Meaning, Said, KeysDistinct, Parsed;
    DecodeIsRead(u, d, i);
    ReadExact(d, i, wire, next);
    MeaningKept(u, wire);
  }

  // ---- every value has an encoding -------------------------------------------------------------

  /** The values the subset can carry. */
  ghost predicate Encodable(v: Value) {
    match v
    case Nil => true
    case Bool(_) => true
    case Int(n) => 0 - Pow256(8) <= 2 * n && n < Pow256(8)
    case Bin(s) => |s| < Pow256(4)
    case Str(s) => |s| < Pow256(4)
    case Float(f) => |f| == 4
    case Double(f) => |f| == 8
    case Array(items) => |items| < Pow256(4) && forall i | 0 <= i < |items| :: Encodable(items[i])
    case Map(es) => |es| < Pow256(4) && forall i | 0 <= i < |es| :: Encodable(es[i].0) && Encodable(es[i].1)
  }

  /** One legal encoding of a value, in the widest formats. */
  function Encode(v: Value): (wire: Wire)
    requires Encodable(v)
    decreases v
  {
    match v
    case Nil => NilW
    case Bool(b) => BoolW(b)
    case Int(n) => if n >= 0 then UIntW(3, ToBE(n, 8)) else SIntW(3, ToBE(n + Pow256(8), 8))
    case Bin(s) => BinW(2, ToBE(|s|, 4), s)
    case Str(s) => StrW(2, ToBE(|s|, 4), s)
    case Float(f) => FloatW(f)
    case Double(f) => DoubleW(f)
    case Array(items) => ArrayW(2, ToBE(|items|, 4), EncodeAll(items))
    case Map(es) => MapW(2, ToBE(|es|, 4), EncodeEntries(es))
  }

  function EncodeAll(items: seq<Value>): (wires: seq<Wire>)
    requires forall i | 0 <= i < |items| :: Encodable(items[i])
    ensures |wires| == |items|
    decreases items
  {
    if items == [] then [] else [Encode(items[0])] + EncodeAll(items[1..])
  }

  function EncodeEntries(es: seq<(Value, Value)>): (wires: seq<Wire>)
    requires forall i | 0 <= i < |es| :: Encodable(es[i].0) && Encodable(es[i].1)
    ensures |wires| == 2 * |es|
    decreases es
  {
    if es == [] then []
    else
      var (k, v) := es[0];
      assert es[0] == (k, v) && k < es[0] && v < es[0];
      [Encode(k), Encode(v)] + EncodeEntries(es[1..])
  }

  /** A negative 64-bit field has its sign bit set. */
  lemma {:induction false} TopByte(n: nat, k: nat)
    requires k > 0 && n < Pow256(k) && 2 * n >= Pow256(k)
    ensures ToBE(n, k)[0] >= 128
    decreases k
  {
    if k > 1 {
      TopByte(n / 256, k - 1);
      assert ToBE(n, k)[0] == ToBE(n / 256, k - 1)[0];
    } else {
      assert Pow256(1) == 256 && ToBE(n, 1) == [n % 256];
    }
  }

  lemma IntEncoded(n: int)
    requires Encodable(Int(n))
    ensures Legal(Encode(Int(n))) && Said(Encode(Int(n))) == Int(n)
  {
    hide ToBE, Pow256, BE;
    if n >= 0 {
      BEToBE(n, 8);
    } else {
      BEToBE(n + Pow256(8), 8);
      TopByte(n + Pow256(8), 8);
    }
  }

  lemma {:induction false} EncodeSays(v: Value)
    requires Encodable(v)
    ensures Legal(Encode(v)) && Said(Encode(v)) == v
    decreases v, 0
  {
    hide ToBE, Pow256, BE;
    match v
    case Nil | Bool(_) | Float(_) | Double(_) =>
    case Int(n) => IntEncoded(n);
    case Bin(s) => BEToBE(|s|, 4);
    case Str(s) => BEToBE(|s|, 4);
    case Array(items) =>
      BEToBE(|items|, 4);
      EncodeAllSays(items);
    case Map(es) =>
      BEToBE(|es|, 4);
      EncodeEntriesSays(es);
  }

  lemma {:induction false} EncodeAllSays(items: seq<Value>)
    requires forall i | 0 <= i < |items| :: Encodable(items[i])
    ensures AllLegal(EncodeAll(items)) && SaidAll(EncodeAll(items)) == items
    decreases items, 1
  {
    if items != [] {
      EncodeSays(items[0]);
      EncodeAllSays(items[1..]);
      var wires := EncodeAll(items);
      assert wires[1..] == EncodeAll(items[1..]);
      assert [items[0]] + items[1..] == items;
    }
  }

  lemma {:induction false} EncodeEntriesSays(es: seq<(Value, Value)>)
    requires forall i | 0 <= i < |es| :: Encodable(es[i].0) && Encodable(es[i].1)
    ensures AllLegal(EncodeEntries(es)) && Paired(SaidAll(EncodeEntries(es))) == es
    decreases es, 1
  {
    if es != [] {
      hide Encode, Legal, Said, Encodable;
      var (k, v) := es[0];
      assert es[0] == (k, v) && k < es[0] && v < es[0];
      EncodeSays(k);
      EncodeSays(v);
      EncodeEntriesSays(es[1..]);
      var wires := EncodeEntries(es);
      assert wires[2..] == EncodeEntries(es[1..]);
      PairedFirst(wires);
      assert [es[0]] + es[1..] == es;
    }
  }

  // ---- integer formats ---------------------------------------------------------------------------

  /** Bytes of a w-field, and how many values they have. */
  lemma FieldSizes()
    ensures Width(0) == 1 && Width(1) == 2 && Width(2) == 4 && Width(3) == 8
    ensures Pow256(1) == 0x100 && Pow256(2) == 0x1_0000 && Pow256(4) == 0x1_0000_0000 && Pow256(8) == 0x1_0000_0000_0000_0000
  {
    assert Pow256(3) == 0x100_0000;
    assert Pow256(6) == 0x1_0000_0000_0000;
  }

  lemma {:induction false} BEBound(field: seq<Byte>)
    ensures BE(field) < Pow256(|field|)
    ensures field != [] ==> (field[0] >= 128 <==> 2 * BE(field) >= Pow256(|field|))
    decreases |field|
  {
    if field != [] {
      BEBound(field[..|field| - 1]);
      if |field| == 1 {
        assert Pow256(1) == 256 && BE(field[..0]) == 0;
      } else {
        HalfEven(|field| - 1);
      }
    }
  }

  lemma HalfEven(k: nat)
    requires k > 0
    ensures Pow256(k) % 2 == 0
  {
    assert Pow256(k) == 2 * (128 * Pow256(k - 1));
  }

  /** A signed field is two's complement: the one number of its range that agrees with its bytes modulo the range. */
  lemma SignedIs(field: seq<Byte>)
    requires field != []
    ensures Signed(field) == TwosComplement(BE(field), Pow256(|field|))
    ensures 0 - Pow256(|field|) <= 2 * Signed(field) < Pow256(|field|)
    ensures Signed(field) == BE(field) || Signed(field) == BE(field) - Pow256(|field|)
  {
    BEBound(field);
  }

  /** Values of a w-field. */
  function Range(w: nat): nat
    requires w <= 3
  {
    if w == 0 then 0x100 else if w == 1 then 0x1_0000 else if w == 2 then 0x1_0000_0000 else 0x1_0000_0000_0000_0000
  }

  /** Every integer of an unsigned format's range is read back from its 1, 2, 4 or 8 bytes. */
  lemma UnsignedRead(u: Utf8, d: seq<Byte>, i: nat, w: nat, n: nat)
    requires w <= 3 && n < Range(w)
    requires i + 1 + Width(w) <= |d| && d[i] == 0xCC + w && d[i + 1..i + 1 + Width(w)] == ToBE(n, Width(w))
    ensures Decode(u, d, i) == Ok((Int(n), i + 1 + Width(w)))
  {
    hide Decode, ToBE, Pow256, BE;
    FieldSizes();
    var field := ToBE(n, Width(w));
    BEToBE(n, Width(w));
    FieldSpans(d, i, UIntW(w, field), i + 1 + Width(w));
    DecodeKeeps(u, d, i, UIntW(w, field), i + 1 + Width(w));
  }

  /** And every integer of a signed format's, the negative ones as their complement. */
  lemma SignedRead(u: Utf8, d: seq<Byte>, i: nat, w: nat, n: int)
    requires w <= 3 && 0 - Range(w) <= 2 * n < Range(w)
    requires i + 1 + Width(w) <= |d| && d[i] == 0xD0 + w
    requires d[i + 1..i + 1 + Width(w)] == ToBE(if n < 0 then n + Range(w) else n, Width(w))
    ensures Decode(u, d, i) == Ok((Int(n), i + 1 + Width(w)))
  {
    hide Decode, ToBE, Pow256, BE, Signed;
    FieldSizes();
    var field := ToBE(if n < 0 then n + Range(w) else n, Width(w));
    BEToBE(if n < 0 then n + Range(w) else n, Width(w));
    SignedIs(field);
    FieldSpans(d, i, SIntW(w, field), i + 1 + Width(w));
    DecodeKeeps(u, d, i, SIntW(w, field), i + 1 + Width(w));
  }

  /** The one-byte formats: 0 to 127 are themselves, the 32 bytes from 0xE0 on count up from -32. */
  lemma SmallRead(u: Utf8, d: seq<Byte>, i: nat)
    requires i < |d|
    ensures d[i] <= 0x7F ==> Decode(u, d, i) == Ok((Int(d[i]), i + 1))
    ensures d[i] >= 0xE0 ==> Decode(u, d, i) == Ok((Int(d[i] as int - 0x100), i + 1))
  {
    hide Decode;
    if d[i] <= 0x7F {
      IntSpans(d, i, d[i]);
      DecodeKeeps(u, d, i, FixInt(d[i]), i + 1);
    }
    if d[i] >= 0xE0 {
      IntSpans(d, i, d[i] as int - 0x100);
      DecodeKeeps(u, d, i, FixInt(d[i] as int - 0x100), i + 1);
    }
  }

  /** Round trip: a value of the subset comes back, and the reading stops at its last byte, exactly when the keys of its maps are hashable and pairwise different. */
  lemma RoundTrip(u: Utf8, v: Value, rest: seq<Byte>)
    requires Encodable(v)
    ensures Legal(Encode(v))
    ensures var s := Bytes(Encode(v)); Decode(u, s + rest, 0) == Ok((v, |s|)) <==> KeysDistinct(u, v)
  {
    hide Encode, Decode, KeysDistinct, Encodable;
    EncodeSays(v);
    var s := Bytes(Encode(v));
    assert (s + rest)[0..|s|] == s;
    DecodeKeeps(u, s + rest, 0, Encode(v), |s|);
  }

  /** A map whose key is an empty array is a legal document the decoder refuses. */
  lemma ContainerKeyRefused(u: Utf8)
    ensures
      var d: seq<Byte> := [0x81, 0x90, 0xC0];
      Parsed(d, 0, FixMap([FixArray([]), NilW]), 3) && Decode(u, d, 0) == Err(Unhashable)
  {
    var d: seq<Byte> := [0x81, 0x90, 0xC0];
    var items := [FixArray([]), NilW];
    assert AllBytes(items[1..]) == [0xC0] by { assert items[1..][1..] == []; }
    assert AllBytes(items) == [0x90, 0xC0];
    assert Bytes(FixMap(items)) == d == d[0..3];
    DecodeSucceeds(u, d, 0, FixMap(items), 3);
    assert Paired(SaidAll(items))[0].0 == Array([]);
  }

  /** The keys 1 and true are one key: the entry keeps the first spelling and the last value. */
  lemma EqualKeysCollapse(u: Utf8)
    ensures Decode(u, [0x82, 0x01, 0xC0, 0xC3, 0xC2], 0) == Ok((Map([(Int(1), Bool(false))]), 5))
  {
    var d: seq<Byte> := [0x82, 0x01, 0xC0, 0xC3, 0xC2];
    assert Decode(u, d, 1) == Ok((Int(1), 2)) && Decode(u, d, 2) == Ok((Nil, 3));
    assert Decode(u, d, 3) == Ok((Bool(true), 4)) && Decode(u, d, 4) == Ok((Bool(false), 5));
    assert Insert(u, [], Int(1), Nil) == [(Int(1), Nil)];
    assert KeyEq(u, Int(1), Bool(true));
    assert Insert(u, [(Int(1), Nil)], Bool(true), Bool(false)) == [(Int(1), Bool(false))];
    assert DecodeEntries(u, d, 5, 0, [(Int(1), Bool(false))]) == Ok(([(Int(1), Bool(false))], 5));
    assert DecodeEntries(u, d, 3, 1, [(Int(1), Nil)]) == Ok(([(Int(1), Bool(false))], 5));
    assert DecodeEntries(u, d, 1, 2, []) == Ok(([(Int(1), Bool(false))], 5));
  }

  /** Key equality is an equivalence, but for not-a-number; text is compared decoded and never equals another kind. */
  lemma KeyEqEquivalence(u: Utf8, a: Value, b: Value, c: Value)
    ensures KeyEq(u, a, a) <==> Hashable(a) && AsNum(a) != NaN
    ensures KeyEq(u, a, b) ==> KeyEq(u, b, a) && (KeyEq(u, b, c) ==> KeyEq(u, a, c))
    ensures KeyEq(u, a, b) ==> (a.Str? <==> b.Str?) && (a.Bin? <==> b.Bin?) && (a.Nil? <==> b.Nil?)
    ensures a.Int? && b.Int? ==> (KeyEq(u, a, b) <==> a == b)
  {
    hide Ieee;
  }

  /** One is one key in every number format: 1, true, and the bits of 1.0 in both widths. */
  lemma OneKey(u: Utf8, k: Value)
    requires k in {Bool(true), Float([0x3F, 0x80, 0, 0]), Double([0x3F, 0xF0, 0, 0, 0, 0, 0, 0])}
    ensures KeyEq(u, Int(1), k)
  {
    hide Ieee, BE, Pow2;
    Powers();
    BEFour(0x3F, 0x80, 0, 0);
    BEEight(0x3F, 0xF0);
    SingleBits(false, 127, 0);
    DoubleBits(false, 1023, 0);
  }

  lemma BEMore(s: seq<Byte>, b: Byte)
    ensures BE(s + [b]) == 256 * BE(s) + b && BE([]) == 0
  {
    assert (s + [b])[..|s|] == s;
  }

  lemma BEFour(a: Byte, b: Byte, c: Byte, d: Byte)
    ensures BE([a, b, c, d]) == a * 0x100_0000 + b * 0x1_0000 + c * 0x100 + d
  {
    hide BE;
    BEMore([], a);
    BEMore([a], b);
    BEMore([a, b], c);
    BEMore([a, b, c], d);
    assert [] + [a] == [a] && [a] + [b] == [a, b] && [a, b] + [c] == [a, b, c] && [a, b, c] + [d] == [a, b, c, d];
  }

  lemma BEEight(a: Byte, b: Byte)
    ensures BE([a, b, 0, 0, 0, 0, 0, 0]) == a * 0x100_0000_0000_0000 + b * 0x1_0000_0000_0000
  {
    hide BE;
    BEFour(a, b, 0, 0);
    var four: seq<Byte> := [a, b, 0, 0];
    BEMore(four, 0);
    BEMore(four + [0], 0);
    BEMore(four + [0, 0], 0);
    BEMore(four + [0, 0, 0], 0);
    assert four + [0] + [0] == four + [0, 0] && four + [0, 0] + [0] == four + [0, 0, 0] && four + [0, 0, 0] + [0] == [a, b, 0, 0, 0, 0, 0, 0];
  }

  // ---- the cursor decoder --------------------------------------------------------------------

  /** A step of the cursor decoder agrees with the document: same result, and on success same end. */
  ghost predicate Agrees<T>(r: Result<T>, at: nat, spec: Result<(T, nat)>) {
    match spec
    case Ok((v, next)) => r == Ok(v) && at == next
    case Err(e) => r == Err(e)
  }

  class Unpacker {
    const u: Utf8
    const d: seq<Byte>
    var i: nat

    ghost predicate Valid()
      reads this
    {
      i <= |d|
    }

    constructor (u: Utf8, d: seq<Byte>)
      ensures Valid() && this.u == u && this.d == d && i == 0
    {
      this.u, this.d, i := u, d, 0;
    }

    method TakeRaw(n: nat) returns (r: Result<seq<Byte>>)
      requires Valid()
      modifies this
      ensures Valid() && r == Raw(d, old(i), n) && i == if r.Ok? then old(i) + n else old(i)
    {
      if i + n > |d| {
        return Err(Truncated);
      }
      r := Ok(d[i..i + n]);
      i := i + n;
    }

    /** A length field and its payload: the argument of bin and str formats. */
    method TakeSized(w: nat) returns (r: Result<seq<Byte>>)
      requires Valid() && w <= 2
      modifies this
      ensures Valid() && i >= old(i)
      ensures match Sized(d, old(i), w)
              case Ok((f, s)) => r == Ok(s) && i == old(i) + |f| + |s|
              case Err(e) => r == Err(e)
    {
      var f := TakeRaw(Width(w));
      if f.Err? {
        return Err(f.error);
      }
      r := TakeRaw(BE(f.value));
    }

    /** An array's elements. */
    method Items(n: nat) returns (r: Result<seq<Value>>)
      requires Valid()
      modifies this
      ensures Valid() && i >= old(i) && Agrees(r, i, DecodeMany(u, d, old(i), n, []))
      decreases |d| - i, 1
    {
      hide Decode;
      var values := [];
      var k := 0;
      while k < n
        invariant Valid() && old(i) <= i && 0 <= k <= n
        invariant DecodeMany(u, d, old(i), n, []) == DecodeMany(u, d, i, n - k, values)
      {
        var item := ReadItem();
        if item.Err? {
          return Err(item.error);
        }
        values := values + [item.value];
        k := k + 1;
      }
      r := Ok(values);
    }

    /** A map's entries, each inserted once its key and value are read. */
    method Entries(n: nat) returns (r: Result<seq<(Value, Value)>>)
      requires Valid()
      modifies this
      ensures Valid() && i >= old(i) && Agrees(r, i, DecodeEntries(u, d, old(i), n, []))
      decreases |d| - i, 1
    {
      hide Decode, Insert, Hashable;
      var entries := [];
      var k := 0;
      while k < n
        invariant Valid() && old(i) <= i && 0 <= k <= n
        invariant DecodeEntries(u, d, old(i), n, []) == DecodeEntries(u, d, i, n - k, entries)
      {
        var key := ReadItem();
        if key.Err? {
          return Err(key.error);
        }
        var value := ReadItem();
        if value.Err? {
          return Err(value.error);
        }
        if !Hashable(key.value) {
          return Err(Unhashable);
        }
        entries := Insert(u, entries, key.value, value.value);
        k := k + 1;
      }
      r := Ok(entries);
    }

    method ReadItem() returns (r: Result<Value>)
      requires Valid()
      modifies this
      ensures Valid() && i >= old(i) && Agrees(r, i, Decode(u, d, old(i)))
      decreases |d| - i, 0
    {
      hide DecodeMany, DecodeEntries, DecodeLarge, BE, Signed, Parsed, ReadMany, ReadContainer;
      if i == |d| {
        return Err(OutOfData);
      }
      var c := d[i];
      i := i + 1;
      if c <= 0x7F {
        return Ok(Int(c));
      }
      if c >= 0xE0 {
        return Ok(Int(c as int - 0x100));
      }
      if 0x80 <= c <= 0x8F {
        var entries := Entries(c - 0x80);
        return MapOf(entries);
      }
      if 0x90 <= c <= 0x9F {
        var items := Items(c - 0x90);
        return ArrayOf(items);
      }
      if 0xA0 <= c <= 0xBF {
        assert Read(d, i - 1) == ReadFix(d, i - 1, c);
        var s := TakeRaw(c - 0xA0);
        return if s.Ok? then Ok(Str(s.value)) else Err(s.error);
      }
      r := ReadExtItem(c);
    }

    method ReadExtItem(c: Byte) returns (r: Result<Value>)
      requires Valid() && i > 0 && d[i - 1] == c && 0xC0 <= c < 0xE0
      modifies this
      ensures Valid() && i >= old(i) && Agrees(r, i, Decode(u, d, old(i) - 1))
      decreases |d| - i, 2
    {
      hide DecodeMany, DecodeEntries, DecodeLarge, BE, Signed, Parsed, ReadMany, ReadContainer;
      if 0xDC <= c <= 0xDF {
        r := ReadLargeItem(c);
        return;
      }
      ghost var at := i - 1;
      assert Decode(u, d, at) == Leaf(ReadExt(d, at, c));
      hide Decode;
      if c == 0xC0 {
        return Ok(Nil);
      }
      if c == 0xC2 || c == 0xC3 {
        return Ok(Bool(c == 0xC3));
      }
      if 0xC4 <= c <= 0xC6 {
        var s := TakeSized(c - 0xC4);
        return if s.Ok? then Ok(Bin(s.value)) else Err(s.error);
      }
      if 0xCA <= c <= 0xD3 {
        r := ReadFieldItem(c);
        return;
      }
      if 0xD9 <= c <= 0xDB {
        var s := TakeSized(c - 0xD9);
        return if s.Ok? then Ok(Str(s.value)) else Err(s.error);
      }
      r := Err(Unsupported(c));
    }

    method ReadFieldItem(c: Byte) returns (r: Result<Value>)
      requires Valid() && i > 0 && d[i - 1] == c && 0xCA <= c <= 0xD3
      modifies this
      ensures Valid() && i >= old(i) && Agrees(r, i, Leaf(ReadField(d, old(i) - 1, c)))
    {
      hide BE, Signed, Parsed;
      var n := if c == 0xCA then 4 else if c == 0xCB then 8 else if c <= 0xCF then Width(c - 0xCC) else Width(c - 0xD0);
      var f := TakeRaw(n);
      if f.Err? {
        return Err(f.error);
      }
      r := Ok(if c == 0xCA then Float(f.value) else if c == 0xCB then Double(f.value)
              else if c <= 0xCF then Int(BE(f.value)) else Int(Signed(f.value)));
    }

    method ReadLargeItem(c: Byte) returns (r: Result<Value>)
      requires Valid() && i > 0 && d[i - 1] == c && 0xDC <= c <= 0xDF
      modifies this
      ensures Valid() && i >= old(i) && Agrees(r, i, DecodeLarge(u, d, old(i) - 1, c))
      decreases |d| - i, 1
    {
      hide DecodeMany, DecodeEntries, BE;
      var f := TakeRaw(if c == 0xDC || c == 0xDE then 2 else 4);
      if f.Err? {
        return Err(f.error);
      }
      if c >= 0xDE {
        var entries := Entries(BE(f.value));
        return MapOf(entries);
      }
      var items := Items(BE(f.value));
      return ArrayOf(items);
    }
  }
}
