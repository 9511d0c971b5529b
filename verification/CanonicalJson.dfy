/** The two canonical JSON encodings: `canonicalize` (sort the keys, then
    `JSON.stringify`) and `stableStringify` (encode with sorted keys directly).
    Text is a sequence of UTF-16 code units; section numbers refer to RFC 8259. */
module CanonicalJson {
  import opened Options
  import opened Sequences

  type Unit = u: int | 0 <= u < 0x1_0000

  type Text = seq<Unit>

  datatype Entry<+V> = Entry(key: Text, value: V)

  /** A JSON value. An object lists its own keys in enumeration order; a number is
      identified with its decimal notation. */
  datatype Json =
    | Null
    | Bool(b: bool)
    | Number(token: Text)
    | Str(s: Text)
    | Arr(items: seq<Json>)
    | Obj(members: seq<Entry<Json>>)

  // ----- Well-formed values -----

  /** The characters of a number (section 6). */
  predicate NumberUnit(u: Unit) {
    0x30 <= u <= 0x39 || u == 0x2D || u == 0x2B || u == 0x2E || u == 0x65
  }

  predicate NumberToken(t: Text) {
    t != [] && (0x30 <= t[0] <= 0x39 || t[0] == 0x2D) && forall u :: u in t ==> NumberUnit(u)
  }

  /** The ten digits, minus, plus, the point and the exponent sign; every decimal integer is a number. */
  lemma NumbersAre(u: Unit, digits: Text)
    ensures NumberUnit(u) <==>
            u in {0x30, 0x31, 0x32, 0x33, 0x34, 0x35, 0x36, 0x37, 0x38, 0x39, 0x2D, 0x2B, 0x2E, 0x65}
    ensures digits != [] && (forall d :: d in digits ==> 0x30 <= d <= 0x39) ==>
              NumberToken(digits) && NumberToken([0x2D] + digits)
  {
    if digits != [] {
      assert digits[0] in digits;
    }
  }

  predicate DistinctKeys<V>(ms: seq<Entry<V>>) {
    forall i, j :: 0 <= i < j < |ms| ==> ms[i].key != ms[j].key
  }

  predicate Valid(v: Json) {
    match v
    case Number(t) => NumberToken(t)
    case Arr(items) => forall i :: 0 <= i < |items| ==> Valid(items[i])
    case Obj(ms) => DistinctKeys(ms) && forall i :: 0 <= i < |ms| ==> Valid(ms[i].value)
    case _ => true
  }

  /** Equal up to the order of object keys, at every depth. */
  ghost predicate Equivalent(u: Json, v: Json)
    decreases u
  {
    match (u, v)
    case (Arr(xs), Arr(ys)) => |xs| == |ys| && forall i :: 0 <= i < |xs| ==> Equivalent(xs[i], ys[i])
    case (Obj(ms), Obj(ns)) => |ms| == |ns| && forall i :: 0 <= i < |ms| ==> Matched(ms[i], ns)
    case _ => u == v
  }

  /** Some member of the other object has the same key and an equivalent value. */
  ghost predicate Matched(u: Entry<Json>, ns: seq<Entry<Json>>)
    decreases u
  {
    exists j :: 0 <= j < |ns| && u.key == ns[j].key && Equivalent(u.value, ns[j].value)
  }

  // ----- Strings (section 7) -----

  predicate High(u: Unit) { 0xD800 <= u <= 0xDBFF }

  predicate Low(u: Unit) { 0xDC00 <= u <= 0xDFFF }

  function HexDigit(n: int): Unit
    requires 0 <= n < 16
  {
    if n < 10 then 0x30 + n else 0x61 + n - 10
  }

  function HexValue(u: Unit): int {
    if 0x61 <= u <= 0x66 then u - 0x61 + 10 else if 0x30 <= u <= 0x39 then u - 0x30 else 0
  }

  function UnicodeEscape(u: Unit): Text {
    [0x5C, 0x75, HexDigit(u / 0x1000), HexDigit(u / 0x100 % 0x10), HexDigit(u / 0x10 % 0x10), HexDigit(u % 0x10)]
  }

  /** The unit after the backslash of a two-character escape, or 0. */
  function ShortEscape(u: Unit): Unit {
    if u == 0x22 then 0x22 else if u == 0x5C then 0x5C else if u == 0x08 then 0x62 else if u == 0x09 then 0x74
    else if u == 0x0A then 0x6E else if u == 0x0C then 0x66 else if u == 0x0D then 0x72 else 0
  }

  function FromShortEscape(e: Unit): Unit {
    if e == 0x62 then 0x08 else if e == 0x74 then 0x09 else if e == 0x6E then 0x0A
    else if e == 0x66 then 0x0C else if e == 0x72 then 0x0D else e
  }

  /** How many units of `s` are copied as they are: a surrogate pair, an ordinary unit, or none. */
  function Copied(s: Text): nat
    requires s != []
  {
    if High(s[0]) then (if |s| > 1 && Low(s[1]) then 2 else 0)
    else if Low(s[0]) || s[0] < 0x20 || s[0] == 0x22 || s[0] == 0x5C then 0 else 1
  }

  function QuoteUnits(s: Text): Text
    decreases |s|
  {
    if s == [] then []
    else if Copied(s) > 0 then s[..Copied(s)] + QuoteUnits(s[Copied(s)..])
    else (if ShortEscape(s[0]) != 0 then [0x5C, ShortEscape(s[0])] else UnicodeEscape(s[0])) + QuoteUnits(s[1..])
  }

  /** A JSON string literal; lone surrogates are escaped. */
  function Quote(s: Text): Text {
    [0x22] + QuoteUnits(s) + [0x22]
  }

  // ----- Encoding ordered values (`JSON.stringify`) -----

  function Encode(v: Json): Text
    decreases v, 1
  {
    match v
    case Null => [0x6E, 0x75, 0x6C, 0x6C]
    case Bool(b) => if b then [0x74, 0x72, 0x75, 0x65] else [0x66, 0x61, 0x6C, 0x73, 0x65]
    case Number(t) => t
    case Str(s) => Quote(s)
    case Arr(items) => [0x5B] + Separated(EncodeItems(items)) + [0x5D]
    case Obj(ms) => [0x7B] + Separated(Fields(EncodeMembers(ms))) + [0x7D]
  }

  function EncodeItems(items: seq<Json>): (r: seq<Text>)
    ensures |r| == |items|
    decreases items, 0
  {
    if items == [] then [] else [Encode(items[0])] + EncodeItems(items[1..])
  }

  function EncodeMembers(ms: seq<Entry<Json>>): (r: seq<Entry<Text>>)
    ensures |r| == |ms|
    decreases ms, 0
  {
    if ms == [] then [] else [Entry(ms[0].key, Encode(ms[0].value))] + EncodeMembers(ms[1..])
  }

  /** `"key":value` for every member. */
  function Fields(ms: seq<Entry<Text>>): (r: seq<Text>)
    ensures |r| == |ms|
  {
    if ms == [] then [] else [Quote(ms[0].key) + [0x3A] + ms[0].value] + Fields(ms[1..])
  }

  /** `parts.join(',')`. */
  function Separated(parts: seq<Text>): Text {
    if parts == [] then [] else if |parts| == 1 then parts[0] else parts[0] + [0x2C] + Separated(parts[1..])
  }

  // ----- Sorting keys -----

  /** Lexicographic order of code units: the default order of `sort`. */
  predicate Lex(a: Text, b: Text) {
    b != [] && (a == [] || a[0] < b[0] || (a[0] == b[0] && Lex(a[1..], b[1..])))
  }

  /** With `numeric`, shorter keys come first: the numeric order of canonical array indices. */
  predicate Before(numeric: bool, a: Text, b: Text) {
    if numeric && |a| != |b| then |a| < |b| else Lex(a, b)
  }

  function Insert<V(!new)>(numeric: bool, e: Entry<V>, sorted: seq<Entry<V>>): (r: seq<Entry<V>>)
    ensures |r| == |sorted| + 1
    ensures forall x :: x in r <==> x == e || x in sorted
  {
    if sorted == [] then [e]
    else if Before(numeric, e.key, sorted[0].key) then [e] + sorted
    else
      assert sorted == [sorted[0]] + sorted[1..];
      [sorted[0]] + Insert(numeric, e, sorted[1..])
  }

  function Sort<V(!new)>(numeric: bool, ms: seq<Entry<V>>): (r: seq<Entry<V>>)
    ensures |r| == |ms|
    ensures forall x :: x in r <==> x in ms
  {
    if ms == [] then [] else
      assert ms == [ms[0]] + ms[1..];
      Insert(numeric, ms[0], Sort(numeric, ms[1..]))
  }

  ghost predicate Ascending<V(!new)>(numeric: bool, ms: seq<Entry<V>>) {
    forall i, j :: 0 <= i < j < |ms| ==> Before(numeric, ms[i].key, ms[j].key)
  }

  lemma {:induction false} LexIsTotal(a: Text, b: Text)
    ensures a == b || Lex(a, b) || Lex(b, a)
    ensures !(Lex(a, b) && Lex(b, a)) && (a == b ==> !Lex(a, b))
  {
    if a != [] && b != [] {
      LexIsTotal(a[1..], b[1..]);
      assert a == [a[0]] + a[1..] && b == [b[0]] + b[1..];
    }
  }

  lemma {:induction false} LexIsTransitive(a: Text, b: Text, c: Text)
    requires Lex(a, b) && Lex(b, c)
    ensures Lex(a, c)
  {
    if a != [] && a[0] == b[0] == c[0] {
      LexIsTransitive(a[1..], b[1..], c[1..]);
    }
  }

  lemma BeforeIsTotal(numeric: bool, a: Text, b: Text)
    ensures a == b || Before(numeric, a, b) || Before(numeric, b, a)
    ensures !(Before(numeric, a, b) && Before(numeric, b, a))
  {
    LexIsTotal(a, b);
  }

  lemma BeforeIsTransitive(numeric: bool, a: Text, b: Text, c: Text)
    requires Before(numeric, a, b) && Before(numeric, b, c)
    ensures Before(numeric, a, c)
  {
    if !numeric || |a| == |b| == |c| {
      LexIsTransitive(a, b, c);
    }
  }

  lemma {:induction false} InsertKeepsAscending<V(!new)>(numeric: bool, e: Entry<V>, sorted: seq<Entry<V>>)
    requires Ascending(numeric, sorted) && forall x :: x in sorted ==> x.key != e.key
    ensures Ascending(numeric, Insert(numeric, e, sorted))
  {
    if sorted != [] {
      var first, rest := sorted[0], sorted[1..];
      if Before(numeric, e.key, first.key) {
        forall j | 0 < j < |sorted| ensures Before(numeric, e.key, sorted[j].key) {
          BeforeIsTransitive(numeric, e.key, first.key, sorted[j].key);
        }
      } else {
        BeforeIsTotal(numeric, e.key, first.key);
        InsertKeepsAscending(numeric, e, rest);
        forall x | x in Insert(numeric, e, rest) ensures Before(numeric, first.key, x.key) {
          if x in rest {
            var j :| 0 <= j < |rest| && rest[j] == x;
            assert sorted[j + 1] == x;
          }
        }
      }
    }
  }

  lemma {:induction false} SortAscends<V(!new)>(numeric: bool, ms: seq<Entry<V>>)
    requires DistinctKeys(ms)
    ensures Ascending(numeric, Sort(numeric, ms))
  {
    if ms != [] {
      SortAscends(numeric, ms[1..]);
      InsertKeepsAscending(numeric, ms[0], Sort(numeric, ms[1..]));
    }
  }

  lemma HeadIsIn<T>(xs: seq<T>)
    ensures xs != [] ==> xs[0] in xs
  {
  }

  /** An ascending list is determined by its elements. */
  lemma {:induction false} AscendingIsUnique<V(!new)>(numeric: bool, a: seq<Entry<V>>, b: seq<Entry<V>>)
    requires Ascending(numeric, a) && Ascending(numeric, b) && forall x :: x in a <==> x in b
    ensures a == b
  {
    HeadIsIn(b);
    if a != [] {
      assert a[0] in a && a[0] in b;
      assert b[0] in b && b[0] in a;
      var i :| 0 <= i < |a| && a[i] == b[0];
      var j :| 0 <= j < |b| && b[j] == a[0];
      BeforeIsTotal(numeric, a[0].key, b[0].key);
      assert i == 0 || j == 0;
      assert a[0] == b[0];
      HeadIsNotInTail(numeric, a);
      HeadIsNotInTail(numeric, b);
      assert a == [a[0]] + a[1..] && b == [b[0]] + b[1..];
      forall x ensures x in a[1..] <==> x in b[1..] {
        assert x in a <==> x == a[0] || x in a[1..];
        assert x in b <==> x == b[0] || x in b[1..];
      }
      AscendingIsUnique(numeric, a[1..], b[1..]);
    }
  }

  lemma HeadIsNotInTail<V(!new)>(numeric: bool, a: seq<Entry<V>>)
    requires a != [] && Ascending(numeric, a)
    ensures a[0] !in a[1..] && Ascending(numeric, a[1..])
  {
    forall j | 0 < j < |a| ensures a[j] != a[0] {
      BeforeIsTotal(numeric, a[0].key, a[j].key);
    }
  }

  /** Sorting forgets the order it was given. */
  lemma SortIsCanonical<V(!new)>(numeric: bool, a: seq<Entry<V>>, b: seq<Entry<V>>)
    requires DistinctKeys(a) && DistinctKeys(b) && forall x :: x in a <==> x in b
    ensures Sort(numeric, a) == Sort(numeric, b)
  {
    SortAscends(numeric, a);
    SortAscends(numeric, b);
    AscendingIsUnique(numeric, Sort(numeric, a), Sort(numeric, b));
  }

  // ----- Unique readability: strings -----

  /** Reads the body of a string literal up to its closing quote. */
  function ReadString(t: Text): (r: (Text, Text))
    ensures |r.1| <= |t|
    decreases |t|
  {
    if t == [] then ([], [])
    else if t[0] == 0x22 then ([], t[1..])
    else if t[0] == 0x5C && |t| > 1 then
      if t[1] == 0x75 && |t| >= 6 then
        var (s, rest) := ReadString(t[6..]);
        ([ReadHex(t[2..6])] + s, rest)
      else
        var (s, rest) := ReadString(t[2..]);
        ([FromShortEscape(t[1])] + s, rest)
    else
      var (s, rest) := ReadString(t[1..]);
      ([t[0]] + s, rest)
  }

  function ReadHex(h: Text): Unit
    requires |h| == 4
  {
    var n := HexValue(h[0]) * 0x1000 + HexValue(h[1]) * 0x100 + HexValue(h[2]) * 0x10 + HexValue(h[3]);
    if 0 <= n < 0x1_0000 then n else 0
  }

  lemma HexDigitRoundTrip(n: int)
    requires 0 <= n < 16
    ensures HexValue(HexDigit(n)) == n
  {
  }

  lemma SplitDigits(u: Unit)
    ensures 0 <= u / 0x1000 < 16
    ensures u == u / 0x1000 * 0x1000 + u / 0x100 % 0x10 * 0x100 + u / 0x10 % 0x10 * 0x10 + u % 0x10
  {
  }

  lemma HexRoundTrip(u: Unit)
    ensures ReadHex(UnicodeEscape(u)[2..6]) == u
  {
    SplitDigits(u);
    HexDigitRoundTrip(u / 0x1000);
    HexDigitRoundTrip(u / 0x100 % 0x10);
    HexDigitRoundTrip(u / 0x10 % 0x10);
    HexDigitRoundTrip(u % 0x10);
    hide HexValue, HexDigit;
  }

  /** What a unit must be written as: itself, a two-character escape, or four hexadecimal digits. */
  lemma EscapesWhatMustBe(u: Unit)
    ensures QuoteUnits([u]) ==
            if u < 0x20 && u !in {0x08, 0x09, 0x0A, 0x0C, 0x0D} then UnicodeEscape(u)
            else if 0xD800 <= u < 0xE000 then UnicodeEscape(u)
            else if u < 0x20 || u == 0x22 || u == 0x5C then [0x5C, ShortEscape(u)]
            else [u]
    ensures forall c :: c in UnicodeEscape(u)[2..] ==> 0x30 <= c <= 0x39 || 0x61 <= c <= 0x66
  {
    assert [u][1..] == [];
    assert QuoteUnits([]) == [];
  }

  /** A surrogate pair is copied. */
  lemma PairsAreCopied(u: Unit, v: Unit)
    requires High(u) && Low(v)
    ensures QuoteUnits([u, v]) == [u, v]
  {
    assert [u, v][2..] == [] && [u, v][..2] == [u, v];
    assert QuoteUnits([]) == [];
  }

  /** What the literal of `s` starts with, and how many units of `s` that stands for. */
  lemma QuoteStep(s: Text, rest: Text)
    requires s != []
    ensures var n := if Copied(s) > 0 then Copied(s) else 1;
            var head := if Copied(s) > 0 then s[..n] else if ShortEscape(s[0]) != 0 then [0x5C, ShortEscape(s[0])]
                else UnicodeEscape(s[0]);
            QuoteUnits(s) + [0x22] + rest == head + (QuoteUnits(s[n..]) + [0x22] + rest)
  {
  }

  lemma {:induction false} ReadQuoted(s: Text, rest: Text)
    ensures ReadString(QuoteUnits(s) + [0x22] + rest) == (s, rest)
    decreases |s|
  {
    if s == [] {
      assert QuoteUnits(s) + [0x22] + rest == [0x22] + rest;
    } else {
      hide ReadString, QuoteUnits, UnicodeEscape, ShortEscape;
      var n := if Copied(s) > 0 then Copied(s) else 1;
      var t := QuoteUnits(s[n..]) + [0x22] + rest;
      QuoteStep(s, rest);
      ReadQuoted(s[n..], rest);
      assert s == s[..n] + s[n..];
      if Copied(s) == 0 {
        ReadEscaped(s[0], t);
        assert s[..1] == [s[0]];
      } else if n == 1 {
        assert s[..1] == [s[0]];
        ReadCopied(s[0], t);
      } else {
        assert s[..2] == [s[0]] + [s[1]] && s[..2] + t == [s[0]] + ([s[1]] + t);
        ReadCopied(s[1], t);
        ReadCopied(s[0], [s[1]] + t);
        assert [s[0]] + ([s[1]] + s[2..]) == s;
      }
    }
  }

  lemma ReadCopied(u: Unit, t: Text)
    requires u != 0x22 && u != 0x5C
    ensures ReadString([u] + t) == ([u] + ReadString(t).0, ReadString(t).1)
  {
    assert ([u] + t)[1..] == t;
  }

  lemma ReadEscaped(u: Unit, t: Text)
    ensures ShortEscape(u) != 0 ==> ReadString([0x5C, ShortEscape(u)] + t) == ([u] + ReadString(t).0, ReadString(t).1)
    ensures ReadString(UnicodeEscape(u) + t) == ([u] + ReadString(t).0, ReadString(t).1)
  {
    if ShortEscape(u) != 0 {
      assert ([0x5C, ShortEscape(u)] + t)[2..] == t;
      assert FromShortEscape(ShortEscape(u)) == u;
    }
    var e := UnicodeEscape(u);
    HexRoundTrip(u);
    assert (e + t)[6..] == t && (e + t)[2..6] == e[2..6];
  }

  // ----- Unique readability: values -----

  /** Nothing, or a character that can follow a value. */
  predicate Follows(x: Text) {
    x == [] || x[0] == 0x2C || x[0] == 0x5D || x[0] == 0x7D
  }

  /** How many characters of a number stand at the front. */
  function TokenLength(t: Text): (n: nat)
    ensures n <= |t|
  {
    if t != [] && NumberUnit(t[0]) then 1 + TokenLength(t[1..]) else 0
  }

  const NULL_TEXT: Text := [0x6E, 0x75, 0x6C, 0x6C]
  const TRUE_TEXT: Text := [0x74, 0x72, 0x75, 0x65]
  const FALSE_TEXT: Text := [0x66, 0x61, 0x6C, 0x73, 0x65]

  /** Reads one value without white space (section 3) and what follows it. */
  function ReadValue(t: Text): (r: Option<(Json, Text)>)
    ensures r.Some? ==> |r.value.1| < |t|
    decreases |t|, 0
  {
    if t == [] then None
    else if NULL_TEXT <= t then Some((Null, t[4..]))
    else if TRUE_TEXT <= t then Some((Bool(true), t[4..]))
    else if FALSE_TEXT <= t then Some((Bool(false), t[5..]))
    else if t[0] == 0x22 then Some((Str(ReadString(t[1..]).0), ReadString(t[1..]).1))
    else if t[0] == 0x5B then
      if |t| > 1 && t[1] == 0x5D then Some((Arr([]), t[2..]))
      else
        match ReadItems(t[1..])
        case None => None
        case Some((items, rest)) => Some((Arr(items), rest))
    else if t[0] == 0x7B then
      if |t| > 1 && t[1] == 0x7D then Some((Obj([]), t[2..]))
      else
        match ReadMembers(t[1..])
        case None => None
        case Some((ms, rest)) => Some((Obj(ms), rest))
    else
      var n := TokenLength(t);
      if n == 0 then None else Some((Number(t[..n]), t[n..]))
  }

  /** Reads values with commas between them, up to the closing bracket (section 5). */
  function ReadItems(t: Text): (r: Option<(seq<Json>, Text)>)
    ensures r.Some? ==> |r.value.1| < |t|
    decreases |t|, 1
  {
    match ReadValue(t)
    case None => None
    case Some((item, rest)) =>
      if rest == [] then None
      else if rest[0] == 0x5D then Some(([item], rest[1..]))
      else if rest[0] != 0x2C then None
      else
        match ReadItems(rest[1..])
        case None => None
        case Some((items, end)) => Some(([item] + items, end))
  }

  /** Reads members with commas between them, up to the closing brace (section 4). */
  function ReadMembers(t: Text): (r: Option<(seq<Entry<Json>>, Text)>)
    ensures r.Some? ==> |r.value.1| < |t|
    decreases |t|, 1
  {
    if t == [] || t[0] != 0x22 then None
    else
      var (key, after) := ReadString(t[1..]);
      if after == [] || after[0] != 0x3A then None
      else
        match ReadValue(after[1..])
        case None => None
        case Some((value, rest)) =>
          if rest == [] then None
          else if rest[0] == 0x7D then Some(([Entry(key, value)], rest[1..]))
          else if rest[0] != 0x2C then None
          else
            match ReadMembers(rest[1..])
            case None => None
            case Some((ms, end)) => Some(([Entry(key, value)] + ms, end))
  }

  lemma {:induction false} TokenEnds(a: Text, x: Text)
    requires (forall u :: u in a ==> NumberUnit(u)) && Follows(x)
    ensures TokenLength(a + x) == |a|
  {
    if a == [] {
      assert a + x == x;
    } else {
      assert (a + x)[1..] == a[1..] + x && (a + x)[0] == a[0] && a[0] in a;
      TokenEnds(a[1..], x);
    }
  }

  /** What follows the first encoding of a list: the closing bracket, or a comma and the rest. */
  function AfterFirst(parts: seq<Text>, close: Unit): Text
    requires parts != []
    decreases |parts|, 0
  {
    if |parts| == 1 then [close] else [0x2C] + Closed(parts[1..], close)
  }

  /** The encodings of a list, with their commas and the closing bracket. */
  function Closed(parts: seq<Text>, close: Unit): Text
    decreases |parts|, 1
  {
    if parts == [] then [close] else parts[0] + AfterFirst(parts, close)
  }

  lemma {:induction false} SeparatedIsClosed(parts: seq<Text>, close: Unit)
    ensures Separated(parts) + [close] == Closed(parts, close)
  {
    if |parts| > 1 {
      SeparatedIsClosed(parts[1..], close);
    }
  }

  lemma Bracketed(open: Unit, parts: seq<Text>, close: Unit, x: Text)
    ensures [open] + Separated(parts) + [close] + x == [open] + (Closed(parts, close) + x)
  {
    SeparatedIsClosed(parts, close);
    assert [open] + Separated(parts) + [close] + x == [open] + (Separated(parts) + [close] + x);
  }

  predicate AllValid(items: seq<Json>) {
    forall i :: 0 <= i < |items| ==> Valid(items[i])
  }

  predicate MembersValid(ms: seq<Entry<Json>>) {
    forall i :: 0 <= i < |ms| ==> Valid(ms[i].value)
  }

  lemma AfterFirstSplits(parts: seq<Text>, close: Unit, x: Text)
    requires parts != []
    ensures var t := AfterFirst(parts, close) + x;
            && t != [] && t[0] == (if |parts| == 1 then close else 0x2C)
            && t[1..] == if |parts| == 1 then x else Closed(parts[1..], close) + x
  {
    hide Closed;
    Uncons(close, [], x);
    if |parts| > 1 {
      Uncons(0x2C, Closed(parts[1..], close), x);
    }
    assert [close] + [] == [close] && [] + x == x;
  }

  lemma Uncons(c: Unit, r: Text, x: Text)
    ensures var t := [c] + r + x; t[0] == c && t[1..] == r + x
  {
  }

  lemma AfterFirstFollows(parts: seq<Text>, close: Unit, x: Text)
    requires parts != [] && close in {0x5D, 0x7D}
    ensures Follows(AfterFirst(parts, close) + x)
    ensures Closed(parts, close) + x == parts[0] + (AfterFirst(parts, close) + x)
  {
  }

  /** The first unit of an encoding tells the kind of value. */
  function FirstUnit(v: Json): Unit
    requires v.Number? ==> NumberToken(v.token)
  {
    match v
    case Null => 0x6E
    case Bool(b) => if b then 0x74 else 0x66
    case Number(t) => t[0]
    case Str(_) => 0x22
    case Arr(_) => 0x5B
    case Obj(_) => 0x7B
  }

  lemma EncodeStarts(v: Json, x: Text)
    requires Valid(v)
    ensures Encode(v) + x != [] && (Encode(v) + x)[0] == FirstUnit(v)
    ensures FirstUnit(v) != 0x5D
  {
    assert Encode(v) != [];
    assert (Encode(v) + x)[0] == Encode(v)[0];
  }

  lemma ReadNumber(t: Text, x: Text)
    requires NumberToken(t) && Follows(x)
    ensures ReadValue(t + x) == Some((Number(t), x))
  {
    TokenEnds(t, x);
    assert (t + x)[0] == t[0] && (t + x)[..|t|] == t && (t + x)[|t|..] == x;
  }

  lemma ReadLiteral(v: Json, x: Text)
    requires v.Null? || v.Bool?
    ensures ReadValue(Encode(v) + x) == Some((v, x))
  {
    var t := Encode(v) + x;
    assert t[0] == Encode(v)[0] && t[1] == Encode(v)[1];
    assert t[|Encode(v)|..] == x;
  }

  lemma ReadStr(s: Text, x: Text)
    ensures ReadValue(Quote(s) + x) == Some((Str(s), x))
  {
    assert (Quote(s) + x)[0] == 0x22 && (Quote(s) + x)[1..] == QuoteUnits(s) + [0x22] + x;
    ReadQuoted(s, x);
  }

  lemma ReadBracketed(open: Unit, rest: Text)
    requires open == 0x5B || open == 0x7B
    requires rest != []
    ensures var t := [open] + rest;
            ReadValue(t) ==
            if open == 0x5B then
              if rest[0] == 0x5D then Some((Arr([]), rest[1..]))
              else match ReadItems(rest) case None => None case Some((items, end)) => Some((Arr(items), end))
            else
              if rest[0] == 0x7D then Some((Obj([]), rest[1..]))
              else match ReadMembers(rest) case None => None case Some((ms, end)) => Some((Obj(ms), end))
  {
    var t := [open] + rest;
    assert t[0] == open && t[1..] == rest && t[2..] == rest[1..] && t[1] == rest[0];
  }

  /** The reader gives back every encoded value, and what follows it. */
  lemma {:induction false} ReadEncoded(v: Json, x: Text)
    requires Valid(v) && Follows(x)
    ensures ReadValue(Encode(v) + x) == Some((v, x))
    decreases v, 1
  {
    match v {
      case Null => ReadLiteral(v, x);
      case Bool(b) => ReadLiteral(v, x);
      case Number(t) => ReadNumber(t, x);
      case Str(s) => ReadStr(s, x);
      case Arr(items) => ReadArr(items, x);
      case Obj(ms) => ReadObj(ms, x);
    }
  }

  lemma {:induction false} ReadArr(items: seq<Json>, x: Text)
    requires AllValid(items)
    ensures ReadValue(Encode(Arr(items)) + x) == Some((Arr(items), x))
    decreases items, 2
  {
    hide ReadValue, Closed, AfterFirst;
    var parts := EncodeItems(items);
    Bracketed(0x5B, parts, 0x5D, x);
    if items == [] {
      ClosedEmpty(0x5D, x);
      ReadBracketed(0x5B, [0x5D] + x);
    } else {
      AfterFirstFollows(parts, 0x5D, x);
      EncodeStarts(items[0], AfterFirst(parts, 0x5D) + x);
      ReadBracketed(0x5B, Closed(parts, 0x5D) + x);
      ReadEncodedItems(items, x);
    }
  }

  lemma ClosedEmpty(close: Unit, x: Text)
    ensures Closed([], close) + x == [close] + x && ([close] + x)[0] == close && ([close] + x)[1..] == x
  {
  }

  lemma {:induction false} ReadEncodedItems(items: seq<Json>, x: Text)
    requires AllValid(items) && items != []
    ensures ReadItems(Closed(EncodeItems(items), 0x5D) + x) == Some((items, x))
    decreases items, 0
  {
    hide ReadValue, Closed, AfterFirst;
    var parts := EncodeItems(items);
    AfterFirstFollows(parts, 0x5D, x);
    AfterFirstSplits(parts, 0x5D, x);
    ReadEncoded(items[0], AfterFirst(parts, 0x5D) + x);
    if |items| == 1 {
      assert items == [items[0]];
    } else {
      assert parts[1..] == EncodeItems(items[1..]) && items == [items[0]] + items[1..];
      ReadEncodedItems(items[1..], x);
    }
  }

  lemma {:induction false} ReadObj(ms: seq<Entry<Json>>, x: Text)
    requires MembersValid(ms)
    ensures ReadValue(Encode(Obj(ms)) + x) == Some((Obj(ms), x))
    decreases ms, 2
  {
    hide ReadValue, Closed, AfterFirst, Fields, EncodeMembers;
    var parts := Fields(EncodeMembers(ms));
    Bracketed(0x7B, parts, 0x7D, x);
    if ms == [] {
      NoFields();
      ClosedEmpty(0x7D, x);
      ReadBracketed(0x7B, [0x7D] + x);
    } else {
      FirstField(ms);
      FieldStarts(ms, x);
      QuoteStarts(ms[0].key, [0x3A] + (Encode(ms[0].value) + (AfterFirst(parts, 0x7D) + x)));
      ReadBracketed(0x7B, Closed(parts, 0x7D) + x);
      ReadEncodedMembers(ms, x);
    }
  }

  lemma NoFields()
    ensures Fields(EncodeMembers([])) == []
  {
  }

  lemma FieldStarts(ms: seq<Entry<Json>>, x: Text)
    requires ms != []
    ensures var parts := Fields(EncodeMembers(ms));
            parts != [] && Closed(parts, 0x7D) + x
                == Quote(ms[0].key) + ([0x3A] + (Encode(ms[0].value) + (AfterFirst(parts, 0x7D) + x)))
  {
    var parts := Fields(EncodeMembers(ms));
    FirstField(ms);
    AfterFirstFollows(parts, 0x7D, x);
    hide Closed, AfterFirst, Fields, EncodeMembers, Encode, Quote;
    Regroup(Quote(ms[0].key), [0x3A], Encode(ms[0].value), AfterFirst(parts, 0x7D) + x);
  }

  lemma Regroup(a: Text, b: Text, c: Text, d: Text)
    ensures a + b + c + d == a + (b + (c + d))
  {
  }

  lemma QuoteStarts(s: Text, x: Text)
    ensures Quote(s) + x != [] && (Quote(s) + x)[0] == 0x22 && (Quote(s) + x)[1..] == QuoteUnits(s) + [0x22] + x
  {
  }

  lemma FirstField(ms: seq<Entry<Json>>)
    requires ms != []
    ensures var parts := Fields(EncodeMembers(ms));
            parts != [] && |parts| == |ms| && parts[0] == Quote(ms[0].key) + [0x3A] + Encode(ms[0].value)
                && parts[1..] == Fields(EncodeMembers(ms[1..]))
  {
    var es := EncodeMembers(ms);
    assert es[0] == Entry(ms[0].key, Encode(ms[0].value)) && es[1..] == EncodeMembers(ms[1..]);
  }

  lemma {:induction false} ReadEncodedMembers(ms: seq<Entry<Json>>, x: Text)
    requires MembersValid(ms) && ms != []
    ensures ReadMembers(Closed(Fields(EncodeMembers(ms)), 0x7D) + x) == Some((ms, x))
    decreases ms, 0
  {
    hide ReadValue, ReadString, Closed, AfterFirst, Fields, EncodeMembers, Encode, Quote, QuoteUnits;
    var parts := Fields(EncodeMembers(ms));
    FirstField(ms);
    FieldStarts(ms, x);
    AfterFirstFollows(parts, 0x7D, x);
    AfterFirstSplits(parts, 0x7D, x);
    var rest := AfterFirst(parts, 0x7D) + x;
    QuoteStarts(ms[0].key, [0x3A] + (Encode(ms[0].value) + rest));
    ReadQuoted(ms[0].key, [0x3A] + (Encode(ms[0].value) + rest));
    assert ([0x3A] + (Encode(ms[0].value) + rest))[1..] == Encode(ms[0].value) + rest;
    ReadEncoded(ms[0].value, rest);
    if |ms| == 1 {
      assert ms == [ms[0]];
    } else {
      assert ms == [ms[0]] + ms[1..];
      ReadEncodedMembers(ms[1..], x);
    }
  }

  lemma ValueIsReadable(u: Json, v: Json, x: Text, y: Text)
    requires Valid(u) && Valid(v) && Follows(x) && Follows(y) && Encode(u) + x == Encode(v) + y
    ensures u == v && x == y
  {
    ReadEncoded(u, x);
    ReadEncoded(v, y);
  }

  /** Different ordered values have different encodings. */
  lemma EncodeIsInjective(u: Json, v: Json)
    requires Valid(u) && Valid(v) && Encode(u) == Encode(v)
    ensures u == v
  {
    assert Encode(u) + [] == Encode(u) && Encode(v) + [] == Encode(v);
    ValueIsReadable(u, v, [], []);
  }

  // ----- Canonical forms -----

  /** A canonical array index: an object enumerates such keys first, in numeric order. */
  predicate IndexKey(k: Text) {
    && 0 < |k| <= 10 && (forall u :: u in k ==> 0x30 <= u <= 0x39) && (k[0] == 0x30 ==> |k| == 1)
    && (|k| == 10 ==> !Lex(LAST_INDEX, k))
  }

  // ----- What the orders of keys mean -----

  /** The first `k` units agree, and there `a` ends or has the smaller unit. */
  predicate SmallerAt(a: Text, b: Text, k: nat) {
    && k <= |a| && k < |b| && a[..k] == b[..k] && (k == |a| || a[k] < b[k])
  }

  lemma {:induction false} LexMeans(a: Text, b: Text)
    ensures Lex(a, b) <==> exists k: nat :: SmallerAt(a, b, k)
  {
    if a != [] && b != [] && a[0] == b[0] {
      LexMeans(a[1..], b[1..]);
      if Lex(a, b) {
        var k: nat :| SmallerAt(a[1..], b[1..], k);
        assert a[..k + 1] == [a[0]] + a[1..][..k] && b[..k + 1] == [b[0]] + b[1..][..k];
        assert SmallerAt(a, b, k + 1);
      }
      if k: nat :| SmallerAt(a, b, k) {
        assert k > 0;
        assert a[1..][..k - 1] == a[..k][1..] && b[1..][..k - 1] == b[..k][1..];
        assert SmallerAt(a[1..], b[1..], k - 1);
      }
    } else if Lex(a, b) {
      assert SmallerAt(a, b, 0);
    } else {
      forall k: nat ensures !SmallerAt(a, b, k) {
        if 0 < k <= |a| && k < |b| {
          assert a[..k][0] == a[0] && b[..k][0] == b[0];
        }
      }
    }
  }

  predicate Digits(k: Text) {
    forall u :: u in k ==> 0x30 <= u <= 0x39
  }

  /** The number that digits stand for. */
  function DecimalValue(k: Text): (n: int)
    requires Digits(k)
    ensures n >= 0
    decreases |k|
  {
    if k == [] then 0
    else
      var front, last := k[..|k| - 1], k[|k| - 1];
      assert Digits(front) by {
        assert forall u :: u in front ==> u in k;
      }
      assert last in k;
      10 * DecimalValue(front) + (last - 0x30)
  }

  lemma {:induction false} LexOfLast(a: Text, b: Text, x: Unit, y: Unit)
    requires |a| == |b|
    ensures Lex(a + [x], b + [y]) <==> Lex(a, b) || (a == b && x < y)
  {
    if a != [] {
      LexOfLast(a[1..], b[1..], x, y);
      assert (a + [x])[1..] == a[1..] + [x] && (b + [y])[1..] == b[1..] + [y];
      assert a == [a[0]] + a[1..] && b == [b[0]] + b[1..];
    }
  }

  /** Of two numbers with the same number of digits the smaller one comes first. */
  lemma {:induction false} LexIsNumeric(a: Text, b: Text)
    requires Digits(a) && Digits(b) && |a| == |b|
    ensures Lex(a, b) <==> DecimalValue(a) < DecimalValue(b)
    decreases |a|
  {
    if a != [] {
      var p, q, x, y := a[..|a| - 1], b[..|b| - 1], a[|a| - 1], b[|b| - 1];
      assert a == p + [x] && b == q + [y];
      assert x in a && y in b && (forall u :: u in p ==> u in a) && forall u :: u in q ==> u in b;
      LexOfLast(p, q, x, y);
      LexIsNumeric(p, q);
      LexIsNumeric(q, p);
      LexIsTotal(p, q);
    }
  }

  function Power(n: nat): (r: int)
    ensures r >= 1
  {
    if n == 0 then 1 else 10 * Power(n - 1)
  }

  lemma {:induction false} PowerGrows(m: nat, n: nat)
    requires m <= n
    ensures Power(m) <= Power(n)
  {
    if m < n {
      PowerGrows(m, n - 1);
    }
  }

  /** Without a leading zero the number of digits bounds the number from both sides. */
  lemma {:induction false} ValueBounds(k: Text)
    requires Digits(k) && k != []
    ensures DecimalValue(k) < Power(|k|)
    ensures k[0] != 0x30 ==> Power(|k| - 1) <= DecimalValue(k)
    decreases |k|
  {
    var front := k[..|k| - 1];
    assert k[|k| - 1] in k && forall u :: u in front ==> u in k;
    if front != [] {
      ValueBounds(front);
    } else {
      assert DecimalValue(front) == 0;
    }
  }

  lemma PowersOfTen()
    ensures Power(9) == 1_000_000_000 && Power(10) == 10_000_000_000
  {
    assert Power(3) == 1000;
    assert Power(6) == 1_000_000;
  }

  const LAST_INDEX: Text := [0x34, 0x32, 0x39, 0x34, 0x39, 0x36, 0x37, 0x32, 0x39, 0x34]

  lemma ValueOfLastIndex()
    ensures Digits(LAST_INDEX) && DecimalValue(LAST_INDEX) == 4_294_967_294
  {
    var t := LAST_INDEX;
    assert t[..1] == [0x34] && t[..0] == [];
    assert t[..2][..1] == t[..1] && t[..3][..2] == t[..2] && t[..4][..3] == t[..3] && t[..5][..4] == t[..4];
    assert DecimalValue(t[..1]) == 4;
    assert DecimalValue(t[..2]) == 42;
    assert DecimalValue(t[..3]) == 429;
    assert DecimalValue(t[..4]) == 4294;
    assert DecimalValue(t[..5]) == 42949;
    assert t[..6][..5] == t[..5] && t[..7][..6] == t[..6] && t[..8][..7] == t[..7] && t[..9][..8] == t[..8];
    assert DecimalValue(t[..6]) == 429496;
    assert DecimalValue(t[..7]) == 4294967;
    assert DecimalValue(t[..8]) == 42949672;
    assert DecimalValue(t[..9]) == 429496729;
  }

  /** Exactly the decimal notations, without leading zeros, of the numbers up to 2^32 - 2 are array indices. */
  lemma IndexKeyMeans(k: Text)
    ensures IndexKey(k) <==>
            k != [] && Digits(k) && (k[0] == 0x30 ==> |k| == 1) && DecimalValue(k) <= 4_294_967_294
  {
    hide DecimalValue, Power, Lex;
    ValueOfLastIndex();
    PowersOfTen();
    if k != [] && Digits(k) && (k[0] == 0x30 ==> |k| == 1) {
      ValueBounds(k);
      if |k| < 10 {
        PowerGrows(|k|, 9);
      } else if |k| == 10 {
        LexIsNumeric(LAST_INDEX, k);
      } else {
        PowerGrows(10, |k| - 1);
      }
    }
  }

  /** Array indices are put in numeric order. */
  lemma IndexOrderIsNumeric(a: Text, b: Text)
    requires IndexKey(a) && IndexKey(b)
    ensures Digits(a) && Digits(b) && (Before(true, a, b) <==> DecimalValue(a) < DecimalValue(b))
  {
    ValueBounds(a);
    ValueBounds(b);
    if |a| == |b| {
      LexIsNumeric(a, b);
    } else if |a| < |b| {
      PowerGrows(|a|, |b| - 1);
    } else {
      PowerGrows(|b|, |a| - 1);
    }
  }

  // ----- Canonical order -----

  function Keep<V(!new)>(index: bool, ms: seq<Entry<V>>): (r: seq<Entry<V>>)
    ensures forall x :: x in r <==> x in ms && IndexKey(x.key) == index
  {
    if ms == [] then [] else
      assert ms == [ms[0]] + ms[1..];
      (if IndexKey(ms[0].key) == index then [ms[0]] else []) + Keep(index, ms[1..])
  }

  /** The enumeration order of an object built from these entries (`Object.fromEntries`). */
  function Enumerated<V(!new)>(ms: seq<Entry<V>>): (r: seq<Entry<V>>)
    ensures forall x :: x in r <==> x in ms
  {
    Sort(true, Keep(true, ms)) + Keep(false, ms)
  }

  /** The member order of the encoder: plainly sorted, or sorted and put in a new object. */
  function Ordered<V(!new)>(viaObject: bool, ms: seq<Entry<V>>): (r: seq<Entry<V>>)
    ensures forall x :: x in r <==> x in ms
  {
    if viaObject then Enumerated(Sort(false, ms)) else Sort(false, ms)
  }

  /** `sortKeys`, for `viaObject`. */
  function Normal(viaObject: bool, v: Json): Json
    decreases v, 1
  {
    match v
    case Arr(items) => Arr(NormalItems(viaObject, items))
    case Obj(ms) => Obj(Ordered(viaObject, NormalMembers(viaObject, ms)))
    case _ => v
  }

  function NormalItems(viaObject: bool, items: seq<Json>): (r: seq<Json>)
    ensures |r| == |items|
    ensures forall i :: 0 <= i < |items| ==> r[i] == Normal(viaObject, items[i])
    decreases items, 0
  {
    if items == [] then [] else [Normal(viaObject, items[0])] + NormalItems(viaObject, items[1..])
  }

  function NormalMembers(viaObject: bool, ms: seq<Entry<Json>>): (r: seq<Entry<Json>>)
    ensures |r| == |ms|
    ensures forall i :: 0 <= i < |ms| ==> r[i] == Entry(ms[i].key, Normal(viaObject, ms[i].value))
    decreases ms, 0
  {
    if ms == [] then [] else [Entry(ms[0].key, Normal(viaObject, ms[0].value))] + NormalMembers(viaObject, ms[1..])
  }

  /** `canonicalize`. */
  function Canonicalize(v: Json): Text {
    Encode(Normal(true, v))
  }

  /** `stableStringify`: encodes each member's value where it stands, and sorts the keys. */
  function StableStringify(v: Json): Text
    decreases v, 1
  {
    match v
    case Arr(items) => [0x5B] + Separated(StableItems(items)) + [0x5D]
    case Obj(ms) => [0x7B] + Separated(Fields(Sort(false, StableMembers(ms)))) + [0x7D]
    case _ => Encode(v)
  }

  function StableItems(items: seq<Json>): (r: seq<Text>)
    ensures |r| == |items|
    decreases items, 0
  {
    if items == [] then [] else [StableStringify(items[0])] + StableItems(items[1..])
  }

  function StableMembers(ms: seq<Entry<Json>>): (r: seq<Entry<Text>>)
    ensures |r| == |ms|
    decreases ms, 0
  {
    if ms == [] then [] else [Entry(ms[0].key, StableStringify(ms[0].value))] + StableMembers(ms[1..])
  }

  // ----- The direct encoder is the encoding of the normal form -----

  lemma {:induction false} InsertEncodes(e: Entry<Json>, ms: seq<Entry<Json>>)
    ensures EncodeMembers(Insert(false, e, ms)) == Insert(false, Entry(e.key, Encode(e.value)), EncodeMembers(ms))
  {
    if ms != [] {
      InsertEncodes(e, ms[1..]);
      var rest := Insert(false, e, ms[1..]);
      if !Before(false, e.key, ms[0].key) {
        assert ([ms[0]] + rest)[1..] == rest;
      } else {
        assert ([e] + ms)[1..] == ms;
      }
    }
  }

  lemma {:induction false} SortEncodes(ms: seq<Entry<Json>>)
    ensures EncodeMembers(Sort(false, ms)) == Sort(false, EncodeMembers(ms))
  {
    if ms != [] {
      SortEncodes(ms[1..]);
      InsertEncodes(ms[0], Sort(false, ms[1..]));
      assert EncodeMembers(ms)[1..] == EncodeMembers(ms[1..]);
    }
  }

  lemma {:induction false} StableIsNormal(v: Json)
    ensures StableStringify(v) == Encode(Normal(false, v))
    decreases v, 1
  {
    match v
    case Arr(items) => StableItemsAreNormal(items);
    case Obj(ms) =>
      StableMembersAreNormal(ms);
      SortEncodes(NormalMembers(false, ms));
    case _ =>
  }

  lemma {:induction false} StableItemsAreNormal(items: seq<Json>)
    ensures StableItems(items) == EncodeItems(NormalItems(false, items))
    decreases items, 0
  {
    if items != [] {
      StableIsNormal(items[0]);
      StableItemsAreNormal(items[1..]);
    }
  }

  lemma {:induction false} StableMembersAreNormal(ms: seq<Entry<Json>>)
    ensures StableMembers(ms) == EncodeMembers(NormalMembers(false, ms))
    decreases ms, 0
  {
    if ms != [] {
      StableIsNormal(ms[0].value);
      StableMembersAreNormal(ms[1..]);
    }
  }

  // ----- Normal forms decide equivalence -----

  lemma DistinctKeysDistinct<V(!new)>(ms: seq<Entry<V>>)
    requires DistinctKeys(ms)
    ensures Distinct(ms)
  {
  }

  /** Members matched one way between lists of equal length are matched both ways. */
  lemma MatchedBothWays<V(!new)>(a: seq<Entry<V>>, b: seq<Entry<V>>)
    requires DistinctKeys(a) && DistinctKeys(b)
    ensures (forall x :: x in a <==> x in b) ==> |a| == |b|
    ensures (forall x :: x in a ==> x in b) && |a| == |b| ==> forall x :: x in a <==> x in b
  {
    DistinctKeysDistinct(a);
    DistinctKeysDistinct(b);
    DistinctCount(a);
    DistinctCount(b);
    if forall x :: x in a <==> x in b {
      assert Elements(a) == Elements(b);
    }
    if (forall x :: x in a ==> x in b) && |a| == |b| {
      FullSubset(Elements(a), Elements(b));
      forall x | x in b ensures x in a {
        assert x in Elements(b);
      }
    }
  }

  ghost predicate SameMembers<V(!new)>(a: seq<Entry<V>>, b: seq<Entry<V>>) {
    forall x :: x in a <==> x in b
  }

  /** The member order is a canonical form of the set of members. */
  lemma OrderedIsCanonical<V(!new)>(mode: bool, a: seq<Entry<V>>, b: seq<Entry<V>>)
    requires DistinctKeys(a) && DistinctKeys(b)
    ensures Ordered(mode, a) == Ordered(mode, b) <==> SameMembers(a, b)
  {
    if SameMembers(a, b) {
      SortIsCanonical(false, a, b);
    }
    if Ordered(mode, a) == Ordered(mode, b) {
      forall x ensures x in a <==> x in b {
        assert x in Ordered(mode, a) <==> x in Ordered(mode, b);
      }
    }
  }

  /** A member has an equivalent counterpart exactly when its normal form occurs among the others'. */
  lemma MatchedIsIn(mode: bool, u: Entry<Json>, ns: seq<Entry<Json>>)
    requires forall j :: 0 <= j < |ns| ==> (Equivalent(u.value, ns[j].value) <==>
            Normal(mode, u.value) == Normal(mode, ns[j].value))
    ensures Matched(u, ns) <==> Entry(u.key, Normal(mode, u.value)) in NormalMembers(mode, ns)
  {
    hide Equivalent;
    var rs := NormalMembers(mode, ns);
    if Matched(u, ns) {
      var j :| 0 <= j < |ns| && u.key == ns[j].key && Equivalent(u.value, ns[j].value);
      assert rs[j] == Entry(u.key, Normal(mode, u.value));
    }
  }

  lemma ObjectsMatch(ms: seq<Entry<Json>>, ns: seq<Entry<Json>>)
    ensures Equivalent(Obj(ms), Obj(ns)) <==> |ms| == |ns| && forall i :: 0 <= i < |ms| ==> Matched(ms[i], ns)
  {
  }

  /** Equivalence of the members' values is already decided by their normal forms. */
  ghost predicate Decided(mode: bool, ms: seq<Entry<Json>>, ns: seq<Entry<Json>>) {
    forall i, j :: 0 <= i < |ms| && 0 <= j < |ns| ==>
      (Equivalent(ms[i].value, ns[j].value) <==> Normal(mode, ms[i].value) == Normal(mode, ns[j].value))
  }

  lemma AllMatched(mode: bool, ms: seq<Entry<Json>>, ns: seq<Entry<Json>>)
    requires Decided(mode, ms, ns)
    ensures (forall i :: 0 <= i < |ms| ==> Matched(ms[i], ns)) <==>
            forall x :: x in NormalMembers(mode, ms) ==> x in NormalMembers(mode, ns)
  {
    var a, b := NormalMembers(mode, ms), NormalMembers(mode, ns);
    forall i | 0 <= i < |ms| ensures Matched(ms[i], ns) <==> a[i] in b {
      MatchedIsIn(mode, ms[i], ns);
    }
    hide Matched, Decided;
    if forall x :: x in a ==> x in b {
      forall i | 0 <= i < |ms| ensures Matched(ms[i], ns) {
        assert a[i] in a;
      }
    }
  }

  lemma MembersDecide(mode: bool, ms: seq<Entry<Json>>, ns: seq<Entry<Json>>)
    requires DistinctKeys(ms) && DistinctKeys(ns) && Decided(mode, ms, ns)
    ensures Equivalent(Obj(ms), Obj(ns)) <==> SameMembers(NormalMembers(mode, ms), NormalMembers(mode, ns))
  {
    hide Equivalent, Decided, Matched;
    ObjectsMatch(ms, ns);
    AllMatched(mode, ms, ns);
    MatchedBothWays(NormalMembers(mode, ms), NormalMembers(mode, ns));
  }

  lemma {:induction false} EquivalentIsNormal(mode: bool, u: Json, v: Json)
    requires Valid(u) && Valid(v)
    ensures Equivalent(u, v) <==> Normal(mode, u) == Normal(mode, v)
    decreases u
  {
    if u.Arr? && v.Arr? {
      forall i | 0 <= i < |u.items| && i < |v.items|
        ensures Equivalent(u.items[i], v.items[i]) <==> Normal(mode, u.items[i]) == Normal(mode, v.items[i])
      {
        EquivalentIsNormal(mode, u.items[i], v.items[i]);
      }
    } else if u.Obj? && v.Obj? {
      var ms, ns := u.members, v.members;
      forall i, j | 0 <= i < |ms| && 0 <= j < |ns|
        ensures Equivalent(ms[i].value, ns[j].value) <==> Normal(mode, ms[i].value) == Normal(mode, ns[j].value)
      {
        EquivalentIsNormal(mode, ms[i].value, ns[j].value);
      }
      assert Decided(mode, ms, ns);
      MembersDecide(mode, ms, ns);
      OrderedIsCanonical(mode, NormalMembers(mode, ms), NormalMembers(mode, ns));
    }
  }

  lemma {:induction false} NormalIsValid(mode: bool, v: Json)
    requires Valid(v)
    ensures Valid(Normal(mode, v))
    decreases v
  {
    match v
    case Arr(items) =>
      forall i | 0 <= i < |items| ensures Valid(Normal(mode, items[i])) {
        NormalIsValid(mode, items[i]);
      }
    case Obj(ms) =>
      var a := NormalMembers(mode, ms);
      forall i | 0 <= i < |ms| ensures Valid(a[i].value) {
        NormalIsValid(mode, ms[i].value);
      }
      OrderedKeepsKeys(mode, a);
      forall x | x in Ordered(mode, a) ensures Valid(x.value) {
        assert x in a;
      }
    case _ =>
  }

  lemma OrderedKeepsKeys<V(!new)>(mode: bool, a: seq<Entry<V>>)
    requires DistinctKeys(a)
    ensures DistinctKeys(Ordered(mode, a))
  {
    SortKeepsKeys(false, a);
    if mode {
      var s := Sort(false, a);
      var index, rest := Keep(true, s), Keep(false, s);
      KeepKeepsKeys(true, s);
      KeepKeepsKeys(false, s);
      SortKeepsKeys(true, index);
      var front := Sort(true, index);
      var all: seq<Entry<V>> := front + rest;
      forall i, j | 0 <= i < j < |all| ensures all[i].key != all[j].key {
        if i < |front| <= j {
          assert front[i] in front && rest[j - |front|] in rest;
        }
      }
    }
  }

  lemma SortKeepsKeys<V(!new)>(numeric: bool, a: seq<Entry<V>>)
    requires DistinctKeys(a)
    ensures DistinctKeys(Sort(numeric, a))
  {
    SortAscends(numeric, a);
    var s := Sort(numeric, a);
    forall i, j | 0 <= i < j < |s| ensures s[i].key != s[j].key {
      BeforeIsTotal(numeric, s[i].key, s[j].key);
    }
  }

  lemma {:induction false} KeepKeepsKeys<V(!new)>(index: bool, ms: seq<Entry<V>>)
    requires DistinctKeys(ms)
    ensures DistinctKeys(Keep(index, ms))
  {
    if ms != [] {
      var rest := Keep(index, ms[1..]);
      KeepKeepsKeys(index, ms[1..]);
      forall i | 0 <= i < |rest| ensures rest[i].key != ms[0].key {
        assert rest[i] in ms[1..];
      }
    }
  }

  // ----- The dedup key -----

  /** Two JSON values get the same canonical text exactly when they are equal up to key order, at every depth. */
  lemma CanonicalTextDecides(u: Json, v: Json)
    requires Valid(u) && Valid(v)
    ensures Canonicalize(u) == Canonicalize(v) <==> Equivalent(u, v)
    ensures StableStringify(u) == StableStringify(v) <==> Equivalent(u, v)
  {
    hide Equivalent, Encode, Normal, StableStringify, Valid;
    EquivalentIsNormal(true, u, v);
    EquivalentIsNormal(false, u, v);
    NormalIsValid(true, u);
    NormalIsValid(true, v);
    NormalIsValid(false, u);
    NormalIsValid(false, v);
    StableIsNormal(u);
    StableIsNormal(v);
    if Canonicalize(u) == Canonicalize(v) {
      EncodeIsInjective(Normal(true, u), Normal(true, v));
    }
    if StableStringify(u) == StableStringify(v) {
      EncodeIsInjective(Normal(false, u), Normal(false, v));
    }
  }

  // ----- Where the two encoders write the same text -----

  /** Sorted plainly, the integer-like keys come first, and in numeric order. */
  ghost predicate PlainKeys<V(!new)>(ms: seq<Entry<V>>) {
    forall x, y ::
        x in ms && y in ms && IndexKey(x.key) && x.key != y.key
        && (IndexKey(y.key) ==> Before(true, x.key, y.key)) ==>
      Lex(x.key, y.key)
  }

  /** So it is in every object, at every depth. */
  ghost predicate PlainThroughout(v: Json)
    decreases v
  {
    match v
    case Arr(items) => forall i :: 0 <= i < |items| ==> PlainThroughout(items[i])
    case Obj(ms) => PlainKeys(ms) && forall i :: 0 <= i < |ms| ==> PlainThroughout(ms[i].value)
    case _ => true
  }

  lemma {:induction false} KeepAscends<V(!new)>(index: bool, ms: seq<Entry<V>>)
    requires Ascending(false, ms)
    ensures Ascending(false, Keep(index, ms))
  {
    if ms != [] {
      forall i, j | 0 <= i < j < |ms[1..]| ensures Before(false, ms[1..][i].key, ms[1..][j].key) {
        assert ms[1..][i] == ms[i + 1] && ms[1..][j] == ms[j + 1];
      }
      KeepAscends(index, ms[1..]);
      forall x | x in Keep(index, ms[1..]) ensures Before(false, ms[0].key, x.key) {
        var j :| 0 <= j < |ms[1..]| && ms[1..][j] == x;
        assert ms[j + 1] == x;
      }
    }
  }

  /** A new object enumerates plainly sorted members as they are exactly if the keys are plain. */
  lemma EnumeratedIsPlain<V(!new)>(s: seq<Entry<V>>)
    requires DistinctKeys(s) && Ascending(false, s)
    ensures Enumerated(s) == s <==> PlainKeys(s)
  {
    var front, rest := Sort(true, Keep(true, s)), Keep(false, s);
    KeepKeepsKeys(true, s);
    SortAscends(true, Keep(true, s));
    KeepAscends(false, s);
    hide Lex, IndexKey, Sort, Keep;
    if PlainKeys(s) {
      PlainIsAscending(s, front, rest);
      AscendingIsUnique(false, front + rest, s);
    }
    if front + rest == s {
      AscendingIsPlain(s, front, rest);
    }
  }

  lemma PlainIsAscending<V(!new)>(s: seq<Entry<V>>, front: seq<Entry<V>>, rest: seq<Entry<V>>)
    requires PlainKeys(s) && Ascending(true, front) && Ascending(false, rest)
    requires forall x :: x in front <==> x in s && IndexKey(x.key)
    requires forall x :: x in rest <==> x in s && !IndexKey(x.key)
    ensures Ascending(false, front + rest)
  {
    hide IndexKey;
    var all := front + rest;
    forall i, j | 0 <= i < j < |all| ensures Before(false, all[i].key, all[j].key) {
      if j < |front| {
        assert all[i] in front && all[j] in front && Before(true, front[i].key, front[j].key);
        BeforeIsTotal(true, front[i].key, front[j].key);
        LexIsTotal(front[i].key, front[i].key);
      } else if i < |front| {
        assert all[i] in front && all[j] in rest;
      } else {
        assert Before(false, rest[i - |front|].key, rest[j - |front|].key);
      }
    }
  }

  lemma AscendingIsPlain<V(!new)>(s: seq<Entry<V>>, front: seq<Entry<V>>, rest: seq<Entry<V>>)
    requires s == front + rest && Ascending(false, s) && Ascending(true, front) && DistinctKeys(s)
    requires forall x :: x in front <==> x in s && IndexKey(x.key)
    requires forall x :: x in rest <==> x in s && !IndexKey(x.key)
    ensures PlainKeys(s)
  {
    hide IndexKey;
    forall x, y | x in s && y in s && IndexKey(x.key) && x.key != y.key
        && (IndexKey(y.key) ==> Before(true, x.key, y.key))
      ensures Lex(x.key, y.key)
    {
      var i :| 0 <= i < |front| && front[i] == x;
      if IndexKey(y.key) {
        var j :| 0 <= j < |front| && front[j] == y;
        if j < i {
          assert Before(true, front[j].key, front[i].key);
          BeforeIsTotal(true, x.key, y.key);
        }
        assert s[i] == x && s[j] == y && Before(false, s[i].key, s[j].key);
      } else {
        var j :| 0 <= j < |rest| && rest[j] == y;
        assert s[i] == x && s[|front| + j] == y && Before(false, s[i].key, s[|front| + j].key);
      }
    }
  }

  lemma PlainKeysOfSame<V(!new), W(!new)>(a: seq<Entry<V>>, b: seq<Entry<W>>)
    requires forall x :: x in a ==> exists y :: y in b && y.key == x.key
    ensures PlainKeys(b) ==> PlainKeys(a)
  {
    if PlainKeys(b) {
      forall x, y | x in a && y in a && IndexKey(x.key) && x.key != y.key
          && (IndexKey(y.key) ==> Before(true, x.key, y.key))
        ensures Lex(x.key, y.key)
      {
        var x' :| x' in b && x'.key == x.key;
        var y' :| y' in b && y'.key == y.key;
      }
    }
  }

  lemma SortedKeysArePlain(ms: seq<Entry<Json>>, a: seq<Entry<Json>>)
    requires |a| == |ms| && forall i :: 0 <= i < |ms| ==> a[i].key == ms[i].key
    ensures PlainKeys(Sort(false, a)) <==> PlainKeys(ms)
  {
    hide Sort, PlainKeys;
    var s := Sort(false, a);
    forall x | x in s ensures exists y :: y in ms && y.key == x.key {
      assert x in a;
      var i :| 0 <= i < |a| && a[i] == x;
      assert ms[i] in ms;
    }
    forall x | x in ms ensures exists y :: y in s && y.key == x.key {
      var i :| 0 <= i < |ms| && ms[i] == x;
      assert a[i] in a && a[i] in s;
    }
    PlainKeysOfSame(s, ms);
    PlainKeysOfSame(ms, s);
  }

  /** Members with the same distinct keys in the same order, and the same as sets, are the same. */
  lemma SameKeysSameMembers(a: seq<Entry<Json>>, b: seq<Entry<Json>>)
    requires |a| == |b| && DistinctKeys(a) && (forall i :: 0 <= i < |a| ==> a[i].key == b[i].key)
    requires forall x :: x in a ==> x in b
    ensures a == b
  {
    forall i | 0 <= i < |a| ensures a[i] == b[i] {
      assert a[i] in b;
      var j :| 0 <= j < |b| && b[j] == a[i];
      assert a[j].key == a[i].key;
    }
  }

  lemma {:induction false} NormalsAgree(v: Json)
    requires Valid(v)
    ensures Normal(true, v) == Normal(false, v) <==> PlainThroughout(v)
    decreases v
  {
    match v
    case Arr(items) =>
      forall i | 0 <= i < |items| ensures Normal(true, items[i]) == Normal(false, items[i]) <==>
          PlainThroughout(items[i]) {
        NormalsAgree(items[i]);
      }
      var a, b := NormalItems(true, items), NormalItems(false, items);
      assert a == b <==> forall i :: 0 <= i < |items| ==> a[i] == b[i];
    case Obj(ms) =>
      forall i | 0 <= i < |ms| ensures Normal(true, ms[i].value) == Normal(false, ms[i].value) <==>
          PlainThroughout(ms[i].value) {
        NormalsAgree(ms[i].value);
      }
      ObjectsAgree(ms);
    case _ =>
  }

  lemma ObjectsAgree(ms: seq<Entry<Json>>)
    requires DistinctKeys(ms)
    ensures Normal(true, Obj(ms)) == Normal(false, Obj(ms)) <==>
            PlainKeys(ms) && forall i :: 0 <= i < |ms| ==> Normal(true, ms[i].value) == Normal(false, ms[i].value)
  {
    var a, b := NormalMembers(true, ms), NormalMembers(false, ms);
    var s := Sort(false, a);
    hide PlainKeys, Ascending, Sort, Enumerated, Valid;
    assert a == b <==> forall i :: 0 <= i < |ms| ==> a[i] == b[i];
    SortAscends(false, a);
    SortKeepsKeys(false, a);
    EnumeratedIsPlain(s);
    SortedKeysArePlain(ms, a);
    if Enumerated(s) == Sort(false, b) {
      forall x | x in a ensures x in b {
        assert x in s && x in Enumerated(s) && x in Sort(false, b);
      }
      SameKeysSameMembers(a, b);
    }
  }

  /** The two encoders write the same text exactly for the values whose keys are plain in every object. */
  lemma TextsAgreeExactly(v: Json)
    requires Valid(v)
    ensures Canonicalize(v) == StableStringify(v) <==> PlainThroughout(v)
  {
    hide Encode, Normal, StableStringify, Valid;
    StableIsNormal(v);
    NormalIsValid(true, v);
    NormalIsValid(false, v);
    NormalsAgree(v);
    if Canonicalize(v) == StableStringify(v) {
      EncodeIsInjective(Normal(true, v), Normal(false, v));
    }
  }

  /** An object with the keys 2 and 10: its texts differ. */
  lemma TextsCanDiffer(v: Json)
    requires v == Obj([Entry([0x32], Null), Entry([0x31, 0x30], Null)])
    ensures Valid(v) && Canonicalize(v) != StableStringify(v)
  {
    var two, ten := v.members[0], v.members[1];
    assert two.key == [0x32] && ten.key == [0x31, 0x30] && |two.key| != |ten.key|;
    assert two in v.members && ten in v.members;
    assert IndexKey(two.key) && IndexKey(ten.key) && Before(true, two.key, ten.key) && !Lex(two.key, ten.key);
    assert !PlainKeys(v.members);
    hide Canonicalize, StableStringify, PlainKeys, IndexKey, Lex;
    TextsAgreeExactly(v);
  }

  /** The record `evidenceContentSha` hashes: `{ type, payload }`. */
  function EvidenceRecord(evidenceType: Text, payload: Json): Json {
    Obj([Entry([0x74, 0x79, 0x70, 0x65], Str(evidenceType)),
        Entry([0x70, 0x61, 0x79, 0x6C, 0x6F, 0x61, 0x64], payload)])
  }

  /** In objects with the same two keys, members can only match in place. */
  lemma PairsMatch(k: Text, l: Text, u: Json, p: Json, v: Json, q: Json)
    requires k != l
    ensures Equivalent(Obj([Entry(k, u), Entry(l, p)]), Obj([Entry(k, v), Entry(l, q)])) <==>
            Equivalent(u, v) && Equivalent(p, q)
  {
    var ms, ns := [Entry(k, u), Entry(l, p)], [Entry(k, v), Entry(l, q)];
    ObjectsMatch(ms, ns);
    assert Matched(ms[0], ns) <==> Equivalent(u, v) by {
      assert ns[0].key == k && ns[1].key == l;
    }
    assert Matched(ms[1], ns) <==> Equivalent(p, q) by {
      assert ns[0].key == k && ns[1].key == l;
    }
    hide Equivalent, Matched;
  }

  /** Two evidence records share their hashed text exactly when they have the same type and equivalent payloads. */
  lemma EvidenceKeyDecides(t: Text, p: Json, u: Text, q: Json)
    requires Valid(p) && Valid(q)
    ensures Canonicalize(EvidenceRecord(t, p)) == Canonicalize(EvidenceRecord(u, q)) <==> t == u && Equivalent(p, q)
  {
    hide Canonicalize;
    EvidenceIsValid(t, p);
    EvidenceIsValid(u, q);
    hide Valid;
    CanonicalTextDecides(EvidenceRecord(t, p), EvidenceRecord(u, q));
    var k: Text, l: Text := [0x74, 0x79, 0x70, 0x65], [0x70, 0x61, 0x79, 0x6C, 0x6F, 0x61, 0x64];
    assert |k| != |l|;
    PairsMatch(k, l, Str(t), p, Str(u), q);
    assert Equivalent(Str(t), Str(u)) <==> t == u;
  }

  lemma EvidenceIsValid(t: Text, p: Json)
    requires Valid(p)
    ensures Valid(EvidenceRecord(t, p))
  {
    var ms := EvidenceRecord(t, p).members;
    assert |ms[0].key| == 4 && |ms[1].key| == 7;
    assert Valid(ms[0].value) && Valid(ms[1].value);
  }
}
