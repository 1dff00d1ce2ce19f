/** The canonical form identifies a document: text can be read off unambiguously from the left, so two
    values with the same canonical bytes are the same up to the order of their fields. */
module CanonicalUnique {
  import opened Sequences
  import opened Utf8
  import opened CanonicalJson

  // --- Text followed by a rest ----------------------------------------------------------

  ghost function EscapeTo(s: string, ascii: bool, x: string): string {
    if s == [] then x else EscapeChar(s[0], ascii) + EscapeTo(s[1..], ascii, x)
  }

  ghost function QuoteTo(s: string, ascii: bool, x: string): string {
    ['"'] + EscapeTo(s, ascii, ['"'] + x)
  }

  ghost function WriteTo(v: Json, ascii: bool, x: string): string
    decreases v, 1
  {
    match v
    case Null => "null" + x
    case Bool(b) => (if b then "true" else "false") + x
    case Int(n) => Number(n) + x
    case Str(s) => QuoteTo(s, ascii, x)
    case Arr(items) => ['['] + ItemsTo(items, ascii, [']'] + x)
    case Obj(fields) => ['{'] + FieldsTo(fields, ascii, ['}'] + x)
  }

  ghost function ItemsTo(items: seq<Json>, ascii: bool, x: string): string
    decreases items, 0
  {
    if items == [] then x
    else WriteTo(items[0], ascii, if |items| == 1 then x else [','] + ItemsTo(items[1..], ascii, x))
  }

  ghost function FieldsTo(fields: seq<Field>, ascii: bool, x: string): string
    decreases fields, 0
  {
    if fields == [] then x
    else
      var rest := if |fields| == 1 then x else [','] + FieldsTo(fields[1..], ascii, x);
      QuoteTo(fields[0].key, ascii, [':'] + WriteTo(fields[0].value, ascii, rest))
  }

  lemma {:induction false} EscapeToIsEscape(s: string, ascii: bool, x: string)
    ensures EscapeTo(s, ascii, x) == Escape(s, ascii) + x
  {
    if s != [] {
      EscapeToIsEscape(s[1..], ascii, x);
      Associates(EscapeChar(s[0], ascii), Escape(s[1..], ascii), x);
    }
  }

  lemma QuoteToIsQuote(s: string, ascii: bool, x: string)
    ensures QuoteTo(s, ascii, x) == Quote(s, ascii) + x
  {
    EscapeToIsEscape(s, ascii, ['"'] + x);
    assert ['"'] + (Escape(s, ascii) + (['"'] + x)) == "\"" + Escape(s, ascii) + "\"" + x;
  }

  lemma {:induction false} WriteToIsWrite(v: Json, ascii: bool, x: string)
    ensures WriteTo(v, ascii, x) == Write(v, ascii) + x
    decreases v, 1
  {
    match v
    case Str(s) => QuoteToIsQuote(s, ascii, x);
    case Arr(items) =>
      ItemsToIsWrite(items, ascii, [']'] + x);
      assert ['['] + (WriteItems(items, ascii) + ([']'] + x)) == "[" + WriteItems(items, ascii) + "]" + x;
    case Obj(fields) =>
      FieldsToIsWrite(fields, ascii, ['}'] + x);
      assert ['{'] + (WriteFields(fields, ascii) + (['}'] + x)) == "{" + WriteFields(fields, ascii) + "}" + x;
    case _ =>
  }

  lemma {:induction false} ItemsToIsWrite(items: seq<Json>, ascii: bool, x: string)
    ensures ItemsTo(items, ascii, x) == WriteItems(items, ascii) + x
    decreases items, 0
  {
    if items != [] {
      var rest := if |items| == 1 then x else [','] + ItemsTo(items[1..], ascii, x);
      WriteToIsWrite(items[0], ascii, rest);
      ItemsToIsWrite(items[1..], ascii, x);
      var head, tail := Write(items[0], ascii), WriteItems(items[1..], ascii);
      assert |items| == 1 ==> tail == "";
      hide *;
      var comma := if |items| == 1 then "" else ",";
      Associates(head + comma, tail, x);
      Associates(head, comma, tail + x);
      assert "" + ("" + x) == x && "," == [','];
    }
  }

  lemma {:induction false} FieldsToIsWrite(fields: seq<Field>, ascii: bool, x: string)
    ensures FieldsTo(fields, ascii, x) == WriteFields(fields, ascii) + x
    decreases fields, 0
  {
    if fields != [] {
      var f := fields[0];
      var rest := if |fields| == 1 then x else [','] + FieldsTo(fields[1..], ascii, x);
      WriteToIsWrite(f.value, ascii, rest);
      QuoteToIsQuote(f.key, ascii, [':'] + WriteTo(f.value, ascii, rest));
      FieldsToIsWrite(fields[1..], ascii, x);
      var key, value, tail := Quote(f.key, ascii), Write(f.value, ascii), WriteFields(fields[1..], ascii);
      assert |fields| == 1 ==> tail == "";
      hide *;
      RegroupField(key, value, if |fields| == 1 then "" else ",", tail, x);
      assert "" + ("" + x) == x && "," == [','] && ":" == [':'];
    }
  }

  lemma RegroupField(key: string, value: string, comma: string, tail: string, x: string)
    ensures key + (":" + (value + (comma + (tail + x)))) == key + ":" + value + comma + tail + x
  {
    Associates(key + ":" + value + comma, tail, x);
    Associates(key + ":" + value, comma, tail + x);
    Associates(key + ":", value, comma + (tail + x));
    Associates(key, ":", value + (comma + (tail + x)));
  }

  // --- Numbers --------------------------------------------------------------------------

  predicate IsDigit(c: char) {
    '0' <= c <= '9'
  }

  /** Nothing that could continue a number. */
  predicate Closed(x: string) {
    x == [] || !IsDigit(x[0])
  }

  function DigitRun(s: string): nat {
    if s == [] || !IsDigit(s[0]) then 0 else 1 + DigitRun(s[1..])
  }

  function ValueOf(s: string): nat {
    if s == [] || !IsDigit(s[|s| - 1]) then 0 else ValueOf(s[..|s| - 1]) * 10 + (s[|s| - 1] as int - '0' as int)
  }

  lemma {:induction false} DecimalValue(n: nat)
    ensures ValueOf(Decimal(n)) == n
  {
    if n < 10 {
      assert Decimal(n)[..0] == [];
    } else {
      DecimalValue(n / 10);
      var s := Decimal(n);
      assert s == Decimal(n / 10) + [Digit(n % 10)];
      hide Decimal;
      assert s[..|s| - 1] == Decimal(n / 10);
    }
  }

  lemma {:induction false} DecimalDigits(n: nat)
    ensures forall k :: 0 <= k < |Decimal(n)| ==> IsDigit(Decimal(n)[k])
  {
    if n >= 10 {
      DecimalDigits(n / 10);
    }
  }

  lemma {:induction false} DigitRunOf(s: string, x: string)
    requires Closed(x) && forall k :: 0 <= k < |s| ==> IsDigit(s[k])
    ensures DigitRun(s + x) == |s|
  {
    if s == [] {
      assert s + x == x;
    } else {
      DigitRunOf(s[1..], x);
      assert (s + x)[1..] == s[1..] + x;
    }
  }

  lemma DecimalUnique(n: nat, m: nat, x: string, y: string)
    requires Decimal(n) + x == Decimal(m) + y && Closed(x) && Closed(y)
    ensures n == m && x == y
  {
    DecimalDigits(n);
    DecimalDigits(m);
    DigitRunOf(Decimal(n), x);
    DigitRunOf(Decimal(m), y);
    SplitEqual(Decimal(n), x, Decimal(m), y);
    DecimalValue(n);
    DecimalValue(m);
  }

  lemma SplitEqual(a: string, x: string, b: string, y: string)
    requires a + x == b + y && |a| == |b|
    ensures a == b && x == y
  {
    assert (a + x)[..|a|] == a && (b + y)[..|b|] == b;
    assert (a + x)[|a|..] == x && (b + y)[|b|..] == y;
  }

  lemma NumberUnique(n: int, m: int, x: string, y: string)
    requires Number(n) + x == Number(m) + y && Closed(x) && Closed(y)
    ensures n == m && x == y
  {
    NumberStart(n, x);
    NumberStart(m, y);
    hide Decimal;
    if n < 0 {
      Associates("-", Decimal(-n), x);
      Associates("-", Decimal(-m), y);
      ConsEqual('-', Decimal(-n) + x, '-', Decimal(-m) + y);
      DecimalUnique(-n, -m, x, y);
    } else {
      DecimalUnique(n, m, x, y);
    }
  }

  lemma NumberStart(n: int, x: string)
    ensures (Number(n) + x)[0] == '-' <==> n < 0
    ensures n >= 0 ==> IsDigit((Number(n) + x)[0])
  {
    DecimalDigits(if n < 0 then -n else n);
  }

  // --- Strings --------------------------------------------------------------------------

  function HexValue(c: char): nat {
    if '0' <= c <= '9' then c as int - '0' as int else if 'a' <= c <= 'f' then c as int - 'a' as int + 10 else 0
  }

  lemma HexDigit(d: nat)
    requires d < 16
    ensures HexValue(Digit(d)) == d
  {
  }

  /** The 16-bit unit written in `s[at + 2..at + 6]`. */
  function UnitAt(s: string, at: nat): nat
    requires at + 6 <= |s|
  {
    ((HexValue(s[at + 2]) * 16 + HexValue(s[at + 3])) * 16 + HexValue(s[at + 4])) * 16 + HexValue(s[at + 5])
  }

  lemma UnitReads(u: nat, before: string, x: string)
    requires u < 0x10000
    ensures var s := before + Unit(u) + x; UnitAt(s, |before|) == u
  {
    HexDigit(u / 4096);
    HexDigit(u / 256 % 16);
    HexDigit(u / 16 % 16);
    HexDigit(u % 16);
    assert u / 256 == u / 16 / 16 && u / 4096 == u / 16 / 16 / 16;
  }

  /** The character of a surrogate pair. */
  function Joined(high: nat, low: nat): char
    requires 0xD800 <= high < 0xDC00 && 0xDC00 <= low < 0xE000
  {
    (0x10000 + (high - 0xD800) * 0x400 + (low - 0xDC00)) as char
  }

  /** The character written as one or two unit escapes at the head of `s`. */
  function ReadUnit(s: string): (char, nat)
    requires |s| >= 6
  {
    var u := UnitAt(s, 0);
    if 0xD800 <= u < 0xDC00 && |s| >= 12 && 0xDC00 <= UnitAt(s, 6) < 0xE000 then (Joined(u, UnitAt(s, 6)), 12)
    else if u < 0xD800 || 0xE000 <= u < 0x10000 then (u as char, 6)
    else (' ', 6)
  }

  /** The character written at the head of `s`, and how many characters that took. */
  function ReadChar(s: string): (char, nat) {
    if s == [] then (' ', 0)
    else if s[0] != '\\' || |s| < 2 then (s[0], 1)
    else if s[1] == 'b' then (8 as char, 2)
    else if s[1] == 'f' then (12 as char, 2)
    else if s[1] == 'n' then ('\n', 2)
    else if s[1] == 'r' then ('\r', 2)
    else if s[1] == 't' then ('\t', 2)
    else if s[1] != 'u' || |s| < 6 then (s[1], 2)
    else ReadUnit(s)
  }

  predicate Escaped(c: char, ascii: bool) {
    ShortEscape(c) == [] && (c as int < 32 || (c as int >= 0x7F && ascii))
  }

  lemma ReadsBack(c: char, ascii: bool, x: string)
    ensures ReadChar(EscapeChar(c, ascii) + x) == (c, |EscapeChar(c, ascii)|)
    ensures EscapeChar(c, ascii)[0] != '"'
  {
    if Escaped(c, ascii) {
      hide ReadChar, ReadUnit, Joined;
      if c as int < 0x10000 {
        ReadsUnit(c, x);
      } else {
        ReadsPair(c, x);
      }
    } else {
      hide ReadUnit, Unit;
    }
  }

  lemma ReadsUnit(c: char, x: string)
    requires (c as int) < 0x10000
    ensures ReadChar(Unit(c as int) + x) == (c, 6)
  {
    var s := Unit(c as int) + x;
    assert s[0] == '\\' && s[1] == 'u';
    UnitReads(c as int, [], x);
    assert [] + Unit(c as int) + x == s;
    hide UnitAt, Unit;
  }

  lemma ReadsPair(c: char, x: string)
    requires c as int >= 0x10000
    ensures var u := c as int - 0x10000;
            ReadChar(Unit(0xD800 + u / 0x400) + Unit(0xDC00 + u % 0x400) + x) == (c, 12)
  {
    var u := c as int - 0x10000;
    var high, low := 0xD800 + u / 0x400, 0xDC00 + u % 0x400;
    JoinedBack(c);
    ReadsSurrogates(high, low, x);
  }

  lemma JoinedBack(c: char)
    requires c as int >= 0x10000
    ensures var u := c as int - 0x10000; u / 0x400 < 0x400 && Joined(0xD800 + u / 0x400, 0xDC00 + u % 0x400) == c
  {
  }

  lemma ReadsSurrogates(high: nat, low: nat, x: string)
    requires 0xD800 <= high < 0xDC00 && 0xDC00 <= low < 0xE000
    ensures ReadChar(Unit(high) + Unit(low) + x) == (Joined(high, low), 12)
  {
    hide *;
    UnitStart(high);
    PairUnits(high, low, x);
    ReadsPairAt(Unit(high) + Unit(low) + x);
  }

  lemma UnitStart(u: nat)
    requires u < 0x10000
    ensures |Unit(u)| == 6 && Unit(u)[0] == '\\' && Unit(u)[1] == 'u'
  {
  }

  lemma ReadsPairAt(s: string)
    requires |s| >= 12 && s[0] == '\\' && s[1] == 'u'
    requires 0xD800 <= UnitAt(s, 0) < 0xDC00 && 0xDC00 <= UnitAt(s, 6) < 0xE000
    ensures ReadChar(s) == (Joined(UnitAt(s, 0), UnitAt(s, 6)), 12)
  {
    hide UnitAt, Joined;
  }

  lemma PairUnits(high: nat, low: nat, x: string)
    requires high < 0x10000 && low < 0x10000
    ensures var s := Unit(high) + Unit(low) + x; UnitAt(s, 0) == high && UnitAt(s, 6) == low
  {
    hide UnitAt, Unit;
    UnitReads(low, Unit(high), x);
    UnitReads(high, [], Unit(low) + x);
    Associates(Unit(high), Unit(low), x);
    assert [] + Unit(high) == Unit(high);
  }

  lemma {:induction false} EscapeUnique(s: string, t: string, ascii: bool, x: string, y: string)
    requires EscapeTo(s, ascii, ['"'] + x) == EscapeTo(t, ascii, ['"'] + y)
    ensures s == t && x == y
  {
    if s != [] {
      ReadsBack(s[0], ascii, EscapeTo(s[1..], ascii, ['"'] + x));
    }
    if t != [] {
      ReadsBack(t[0], ascii, EscapeTo(t[1..], ascii, ['"'] + y));
    }
    if s == [] || t == [] {
      assert (['"'] + x)[1..] == x && (['"'] + y)[1..] == y;
    } else {
      SplitEqual(EscapeChar(s[0], ascii), EscapeTo(s[1..], ascii, ['"'] + x), EscapeChar(t[0], ascii),
        EscapeTo(t[1..], ascii, ['"'] + y));
      EscapeUnique(s[1..], t[1..], ascii, x, y);
      assert s == [s[0]] + s[1..] && t == [t[0]] + t[1..];
    }
  }

  lemma QuoteUnique(s: string, t: string, ascii: bool, x: string, y: string)
    requires QuoteTo(s, ascii, x) == QuoteTo(t, ascii, y)
    ensures s == t && x == y
  {
    ConsEqual('"', EscapeTo(s, ascii, ['"'] + x), '"', EscapeTo(t, ascii, ['"'] + y));
    EscapeUnique(s, t, ascii, x, y);
  }

  lemma ConsEqual(a: char, x: string, b: char, y: string)
    requires [a] + x == [b] + y
    ensures a == b && x == y
  {
    assert ([a] + x)[1..] == x && ([b] + y)[1..] == y && ([a] + x)[0] == a && ([b] + y)[0] == b;
  }

  // --- Values ---------------------------------------------------------------------------

  /** What the first character tells. */
  function KindOf(c: char): nat {
    if c == 'n' then 0 else if c == 't' then 1 else if c == 'f' then 2 else if c == '-' || IsDigit(c) then 3
    else if c == '"' then 4 else if c == '[' then 5 else if c == '{' then 6 else 7
  }

  function KindOfValue(v: Json): nat {
    match v
    case Null => 0
    case Bool(b) => if b then 1 else 2
    case Int(_) => 3
    case Str(_) => 4
    case Arr(_) => 5
    case Obj(_) => 6
  }

  lemma FirstChar(v: Json, ascii: bool, x: string)
    ensures WriteTo(v, ascii, x) != [] && KindOf(WriteTo(v, ascii, x)[0]) == KindOfValue(v)
  {
    if v.Int? {
      NumberStart(v.n, x);
    }
  }

  /** A value can be read off the head of a text as long as nothing continues a number. */
  lemma {:induction false} WriteUnique(v: Json, w: Json, ascii: bool, x: string, y: string)
    requires WriteTo(v, ascii, x) == WriteTo(w, ascii, y) && Closed(x) && Closed(y)
    ensures v == w && x == y
    decreases v, 1
  {
    FirstChar(v, ascii, x);
    FirstChar(w, ascii, y);
    match v
    case Null => SplitEqual("null", x, "null", y);
    case Bool(b) => if b { SplitEqual("true", x, "true", y); } else { SplitEqual("false", x, "false", y); }
    case Int(n) => NumberUnique(n, w.n, x, y);
    case Str(s) => QuoteUnique(s, w.s, ascii, x, y);
    case Arr(items) =>
      ConsEqual('[', ItemsTo(items, ascii, [']'] + x), '[', ItemsTo(w.items, ascii, [']'] + y));
      ItemsUnique(items, w.items, ascii, x, y);
    case Obj(fields) =>
      ConsEqual('{', FieldsTo(fields, ascii, ['}'] + x), '{', FieldsTo(w.fields, ascii, ['}'] + y));
      FieldsUnique(fields, w.fields, ascii, x, y);
  }

  ghost function AfterItem(items: seq<Json>, ascii: bool, x: string): string
    requires items != []
  {
    if |items| == 1 then [']'] + x else [','] + ItemsTo(items[1..], ascii, [']'] + x)
  }

  lemma {:induction false} ItemsUnique(items: seq<Json>, others: seq<Json>, ascii: bool, x: string, y: string)
    requires ItemsTo(items, ascii, [']'] + x) == ItemsTo(others, ascii, [']'] + y)
    ensures items == others && x == y
    decreases items, 0
  {
    if items != [] {
      FirstChar(items[0], ascii, AfterItem(items, ascii, x));
    }
    if others != [] {
      FirstChar(others[0], ascii, AfterItem(others, ascii, y));
    }
    if items == [] || others == [] {
      ConsEqual(']', x, ']', y);
    } else {
      WriteUnique(items[0], others[0], ascii, AfterItem(items, ascii, x), AfterItem(others, ascii, y));
      NextItem(items, others, ascii, x, y);
      if |items| > 1 {
        ItemsUnique(items[1..], others[1..], ascii, x, y);
      }
      assert items == [items[0]] + items[1..] && others == [others[0]] + others[1..];
    }
  }

  lemma NextItem(items: seq<Json>, others: seq<Json>, ascii: bool, x: string, y: string)
    requires items != [] && others != [] && AfterItem(items, ascii, x) == AfterItem(others, ascii, y)
    ensures |items| == 1 <==> |others| == 1
    ensures |items| == 1 ==> x == y
    ensures |items| > 1 ==> ItemsTo(items[1..], ascii, [']'] + x) == ItemsTo(others[1..], ascii, [']'] + y)
  {
    ConsEqual(AfterItem(items, ascii, x)[0], AfterItem(items, ascii, x)[1..], AfterItem(others, ascii, y)[0],
      AfterItem(others, ascii, y)[1..]);
    if |items| == 1 {
      ConsEqual(']', x, ']', y);
    } else {
      ConsEqual(',', ItemsTo(items[1..], ascii, [']'] + x), ',', ItemsTo(others[1..], ascii, [']'] + y));
    }
  }

  ghost function AfterField(fields: seq<Field>, ascii: bool, x: string): string
    requires fields != []
  {
    if |fields| == 1 then ['}'] + x else [','] + FieldsTo(fields[1..], ascii, ['}'] + x)
  }

  lemma {:induction false} FieldsUnique(fields: seq<Field>, others: seq<Field>, ascii: bool, x: string, y: string)
    requires FieldsTo(fields, ascii, ['}'] + x) == FieldsTo(others, ascii, ['}'] + y)
    ensures fields == others && x == y
    decreases fields, 0
  {
    if fields != [] { assert FieldsTo(fields, ascii, ['}'] + x)[0] == '"'; }
    if others != [] { assert FieldsTo(others, ascii, ['}'] + y)[0] == '"'; }
    if fields == [] || others == [] {
      ConsEqual('}', x, '}', y);
    } else {
      var f, g := fields[0], others[0];
      QuoteUnique(f.key, g.key, ascii, [':'] + WriteTo(f.value, ascii, AfterField(fields, ascii, x)),
                  [':'] + WriteTo(g.value, ascii, AfterField(others, ascii, y)));
      ConsEqual(':', WriteTo(f.value, ascii, AfterField(fields, ascii, x)), ':',
        WriteTo(g.value, ascii, AfterField(others, ascii, y)));
      WriteUnique(f.value, g.value, ascii, AfterField(fields, ascii, x), AfterField(others, ascii, y));
      NextField(fields, others, ascii, x, y);
      if |fields| > 1 {
        FieldsUnique(fields[1..], others[1..], ascii, x, y);
      }
      assert fields == [fields[0]] + fields[1..] && others == [others[0]] + others[1..];
    }
  }

  lemma NextField(fields: seq<Field>, others: seq<Field>, ascii: bool, x: string, y: string)
    requires fields != [] && others != [] && AfterField(fields, ascii, x) == AfterField(others, ascii, y)
    ensures |fields| == 1 <==> |others| == 1
    ensures |fields| == 1 ==> x == y
    ensures |fields| > 1 ==> FieldsTo(fields[1..], ascii, ['}'] + x) == FieldsTo(others[1..], ascii, ['}'] + y)
  {
    ConsEqual(AfterField(fields, ascii, x)[0], AfterField(fields, ascii, x)[1..], AfterField(others, ascii, y)[0],
      AfterField(others, ascii, y)[1..]);
    if |fields| == 1 {
      ConsEqual('}', x, '}', y);
    } else {
      ConsEqual(',', FieldsTo(fields[1..], ascii, ['}'] + x), ',', FieldsTo(others[1..], ascii, ['}'] + y));
    }
  }

  /** Two values with the same text, in either escaping, are the same value. */
  lemma WriteInjective(v: Json, w: Json, ascii: bool)
    requires Write(v, ascii) == Write(w, ascii)
    ensures v == w
  {
    WriteToIsWrite(v, ascii, []);
    WriteToIsWrite(w, ascii, []);
    WriteUnique(v, w, ascii, [], []);
  }

  /** Equal canonical bytes mean equal documents, up to the order of their fields. */
  lemma CanonicalBytesUnique(v: Json, w: Json)
    ensures CanonicalBytes(v) == CanonicalBytes(w) <==> Sorted(v) == Sorted(w)
  {
    if CanonicalBytes(v) == CanonicalBytes(w) {
      DecodeEncode(Write(Sorted(v), false));
      DecodeEncode(Write(Sorted(w), false));
      WriteInjective(Sorted(v), Sorted(w), false);
    }
  }
}
