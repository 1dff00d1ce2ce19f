/** The canonical JSON form: sorted keys, compact separators, sections 6 and 7 of RFC 8259 for numbers and
    strings; raw non-ASCII text for manifests, ASCII escapes for stored receipts. Two counters compute its
    length without printing it. */
module CanonicalJson {
  import opened Wrappers
  import opened Utf8
  import opened TextOrder

  /** Text is a sequence of Unicode scalar values. Fields keep their insertion order. */
  datatype Json =
    | Null
    | Bool(b: bool)
    | Int(n: int)
    | Str(s: string)
    | Arr(items: seq<Json>)
    | Obj(fields: seq<Field>)

  datatype Field = Field(key: string, value: Json)

  // --- Printing -------------------------------------------------------------------------

  function Digit(d: nat): char
    requires d < 16
  {
    "0123456789abcdef"[d]
  }

  function Decimal(n: nat): (s: string)
    ensures s != []
  {
    if n < 10 then [Digit(n)] else Decimal(n / 10) + [Digit(n % 10)]
  }

  function Number(n: int): string {
    if n < 0 then "-" + Decimal(-n) else Decimal(n)
  }

  /** Four hexadecimal digits of a 16-bit unit. */
  function Unit(x: nat): (s: string)
    requires x < 0x10000
    ensures |s| == 6
  {
    ['\\', 'u', Digit(x / 4096), Digit(x / 256 % 16), Digit(x / 16 % 16), Digit(x % 16)]
  }

  /** The two-character escapes. */
  function ShortEscape(c: char): string {
    if c == '"' then ['\\', '"']
    else if c == '\\' then ['\\', '\\']
    else if c as int == 8 then ['\\', 'b']
    else if c as int == 12 then ['\\', 'f']
    else if c == '\n' then ['\\', 'n']
    else if c == '\r' then ['\\', 'r']
    else if c == '\t' then ['\\', 't']
    else []
  }

  function EscapeChar(c: char, ascii: bool): (s: string)
    ensures s != []
  {
    var x := c as int;
    if ShortEscape(c) != [] then ShortEscape(c)
    else if x < 32 then Unit(x)
    else if x < 0x7F || !ascii then [c]
    else if x < 0x10000 then Unit(x)
    else Unit(0xD800 + (x - 0x10000) / 0x400) + Unit(0xDC00 + (x - 0x10000) % 0x400)
  }

  function Escape(s: string, ascii: bool): string {
    if s == [] then [] else EscapeChar(s[0], ascii) + Escape(s[1..], ascii)
  }

  function Quote(s: string, ascii: bool): string {
    "\"" + Escape(s, ascii) + "\""
  }

  /** The text of a value, fields in the order they are stored. */
  function Write(v: Json, ascii: bool): string
    decreases v, 1
  {
    match v
    case Null => "null"
    case Bool(b) => if b then "true" else "false"
    case Int(n) => Number(n)
    case Str(s) => Quote(s, ascii)
    case Arr(items) => "[" + WriteItems(items, ascii) + "]"
    case Obj(fields) => "{" + WriteFields(fields, ascii) + "}"
  }

  function WriteItems(items: seq<Json>, ascii: bool): string
    decreases items, 0
  {
    if items == [] then ""
    else Write(items[0], ascii) + (if |items| > 1 then "," else "") + WriteItems(items[1..], ascii)
  }

  function WriteFields(fields: seq<Field>, ascii: bool): string
    decreases fields, 0
  {
    if fields == [] then ""
    else
      Quote(fields[0].key, ascii) + ":" + Write(fields[0].value, ascii) + (if |fields| > 1 then "," else "") +
      WriteFields(fields[1..], ascii)
  }

  function InsertField(f: Field, fields: seq<Field>): seq<Field> {
    if fields == [] || Less(f.key, fields[0].key) then [f] + fields else [fields[0]] + InsertField(f, fields[1..])
  }

  /** The value with all fields in key order. */
  function Sorted(v: Json): Json
    decreases v, 1
  {
    match v
    case Arr(items) => Arr(SortedItems(items))
    case Obj(fields) => Obj(SortedFields(fields))
    case _ => v
  }

  function SortedItems(items: seq<Json>): seq<Json>
    decreases items, 0
  {
    if items == [] then [] else [Sorted(items[0])] + SortedItems(items[1..])
  }

  function SortedFields(fields: seq<Field>): seq<Field>
    decreases fields, 0
  {
    if fields == [] then []
    else InsertField(Field(fields[0].key, Sorted(fields[0].value)), SortedFields(fields[1..]))
  }

  /** The manifest form, in bytes. */
  function CanonicalBytes(v: Json): Bytes {
    Encode(Write(Sorted(v), false))
  }

  // --- Counting without printing --------------------------------------------------------

  function Plus(a: Option<nat>, b: Option<nat>): Option<nat> {
    if a.Some? && b.Some? then Some(a.value + b.value) else None
  }

  /** Bytes of one character inside a quoted string. */
  function CharSize(c: char): nat {
    var x := c as int;
    if c in "\\\"" || x in {8, 12, 10, 13, 9} then 2
    else if x < 32 then 6
    else if x < 128 then 1
    else if x < 2048 then 2
    else if x < 65536 then 3
    else 4
  }

  function TextSize(s: string): nat {
    if s == [] then 2 else CharSize(s[0]) + TextSize(s[1..])
  }

  method ComputeTextSize(s: string) returns (size: nat)
    ensures size == TextSize(s)
  {
    size := 2;
    for k := 0 to |s|
      invariant size + TextSize(s[k..]) == TextSize(s) + 2
    {
      assert s[k..][1..] == s[k + 1..] && s[k..][0] == s[k];
      size := size + CharSize(s[k]);
    }
  }

  /** The source-manifest counter: it knows no booleans, and refuses them wherever they stand. */
  function JsonSize(v: Json): Option<nat>
    decreases v, 1
  {
    match v
    case Null => Some(4)
    case Bool(_) => None
    case Int(n) => Some(|Number(n)|)
    case Str(s) => Some(TextSize(s))
    case Arr(items) => Plus(Some(2 + if |items| > 1 then |items| - 1 else 0), JsonItemsSize(items))
    case Obj(fields) => Plus(Some(2 + if |fields| > 1 then |fields| - 1 else 0), JsonFieldsSize(fields))
  }

  function JsonItemsSize(items: seq<Json>): Option<nat>
    decreases items, 0
  {
    if items == [] then Some(0) else Plus(JsonSize(items[0]), JsonItemsSize(items[1..]))
  }

  function JsonFieldsSize(fields: seq<Field>): Option<nat>
    decreases fields, 0
  {
    if fields == [] then Some(0)
    else Plus(Plus(Some(TextSize(fields[0].key) + 1), JsonSize(fields[0].value)), JsonFieldsSize(fields[1..]))
  }

  /** The generation-manifest counter: it adds booleans and leaves leaves and keys to the other one. */
  function ManifestSize(v: Json): Option<nat>
    decreases v, 1
  {
    match v
    case Bool(b) => Some(if b then 4 else 5)
    case Arr(items) => Plus(Some(2 + if |items| > 1 then |items| - 1 else 0), ManifestItemsSize(items))
    case Obj(fields) => Plus(Some(2 + if |fields| > 1 then |fields| - 1 else 0), ManifestFieldsSize(fields))
    case _ => JsonSize(v)
  }

  function ManifestItemsSize(items: seq<Json>): Option<nat>
    decreases items, 0
  {
    if items == [] then Some(0) else Plus(ManifestSize(items[0]), ManifestItemsSize(items[1..]))
  }

  function ManifestFieldsSize(fields: seq<Field>): Option<nat>
    decreases fields, 0
  {
    if fields == [] then Some(0)
    else Plus(Plus(Some(TextSize(fields[0].key) + 1), ManifestSize(fields[0].value)), ManifestFieldsSize(fields[1..]))
  }

  // --- The counters are exact -----------------------------------------------------------

  lemma EncodeSingle(c: char)
    ensures Encode([c]) == EncodeChar(c)
  {
    assert [c][1..] == [];
  }

  /** ASCII text takes one byte per character. */
  predicate Ascii(s: string) {
    forall k :: 0 <= k < |s| ==> s[k] as int < 0x80
  }

  lemma {:induction false} AsciiBytes(s: string)
    requires Ascii(s)
    ensures |Encode(s)| == |s|
  {
    if s != [] {
      AsciiBytes(s[1..]);
    }
  }

  lemma CharSizeExact(c: char)
    ensures |Encode(EscapeChar(c, false))| == CharSize(c)
  {
    var e := EscapeChar(c, false);
    if c as int < 128 {
      EscapeIsAscii(c);
      AsciiBytes(e);
    } else {
      EncodeSingle(c);
    }
  }

  lemma EscapeIsAscii(c: char)
    requires c as int < 128
    ensures Ascii(EscapeChar(c, false)) && |EscapeChar(c, false)| == CharSize(c)
  {
  }

  lemma {:induction false} TextSizeExact(s: string)
    ensures |Encode(Quote(s, false))| == TextSize(s)
  {
    EscapeSize(s);
    var q := "\"";
    EncodeSingle('"');
    EncodeConcat(q + Escape(s, false), q);
    EncodeConcat(q, Escape(s, false));
  }

  lemma {:induction false} EscapeSize(s: string)
    ensures |Encode(Escape(s, false))| + 2 == TextSize(s)
  {
    if s != [] {
      EscapeSize(s[1..]);
      CharSizeExact(s[0]);
      EncodeConcat(EscapeChar(s[0], false), Escape(s[1..], false));
    }
  }

  lemma {:induction false} DecimalAscii(n: nat)
    ensures Ascii(Decimal(n))
  {
    if n >= 10 {
      DecimalAscii(n / 10);
    }
  }

  lemma NumberBytes(n: int)
    ensures |Encode(Number(n))| == |Number(n)|
  {
    DecimalAscii(if n < 0 then -n else n);
    AsciiBytes(Number(n));
  }

  /** Bytes of the text of a value. */
  function Length(v: Json): nat {
    |Encode(Write(v, false))|
  }

  lemma Surround(x: string, y: string, z: string)
    ensures |Encode(x + y + z)| == |Encode(x)| + |Encode(y)| + |Encode(z)|
  {
    EncodeConcat(x + y, z);
    EncodeConcat(x, y);
  }

  lemma {:induction false} ManifestSizeIsLength(v: Json)
    ensures ManifestSize(v) == Some(Length(v))
    decreases v, 1
  {
    hide Encode, WriteItems, WriteFields, ManifestItemsSize, ManifestFieldsSize, TextSize, Quote, Number;
    match v
    case Null => AsciiBytes("null");
    case Bool(b) => AsciiBytes("true"); AsciiBytes("false");
    case Int(n) => NumberBytes(n);
    case Str(s) => TextSizeExact(s);
    case Arr(items) =>
      ItemsSizeIsLength(items);
      BracketBytes("[", WriteItems(items, false), "]");
    case Obj(fields) =>
      FieldsSizeIsLength(fields);
      BracketBytes("{", WriteFields(fields, false), "}");
  }

  lemma BracketBytes(open: string, text: string, close: string)
    requires |open| == |close| == 1 && Ascii(open) && Ascii(close)
    ensures |Encode(open + text + close)| == |Encode(text)| + 2
  {
    AsciiBytes(open);
    AsciiBytes(close);
    Surround(open, text, close);
  }

  lemma {:induction false} ItemsSizeIsLength(items: seq<Json>)
    ensures ManifestItemsSize(items).Some?
    ensures |Encode(WriteItems(items, false))| == ManifestItemsSize(items).value + if |items| > 1 then |items| - 1
      else 0
    decreases items, 0
  {
    if items != [] {
      ManifestSizeIsLength(items[0]);
      ItemsSizeIsLength(items[1..]);
      var comma := if |items| > 1 then "," else "";
      AsciiBytes(comma);
      Surround(Write(items[0], false), comma, WriteItems(items[1..], false));
    }
  }

  lemma {:induction false} FieldsSizeIsLength(fields: seq<Field>)
    ensures ManifestFieldsSize(fields).Some?
    ensures |Encode(WriteFields(fields, false))| == ManifestFieldsSize(fields).value + if |fields| > 1 then |fields| - 1
      else 0
    decreases fields, 0
  {
    if fields != [] {
      var f := fields[0];
      hide Encode, Quote, Write, ManifestSize, TextSize;
      ManifestSizeIsLength(f.value);
      FieldsSizeIsLength(fields[1..]);
      TextSizeExact(f.key);
      var comma := if |fields| > 1 then "," else "";
      AsciiBytes(comma);
      AsciiBytes(":");
      Surround(Quote(f.key, false), ":", Write(f.value, false));
      Surround(Quote(f.key, false) + ":" + Write(f.value, false), comma, WriteFields(fields[1..], false));
    }
  }

  /** Ordering the fields does not change the size. */
  lemma {:induction false} SortedKeepsSize(v: Json)
    ensures ManifestSize(Sorted(v)) == ManifestSize(v)
    decreases v, 1
  {
    match v
    case Arr(items) => SortedItemsKeepSize(items);
    case Obj(fields) => SortedFieldsKeepSize(fields);
    case _ =>
  }

  lemma {:induction false} SortedItemsKeepSize(items: seq<Json>)
    ensures ManifestItemsSize(SortedItems(items)) == ManifestItemsSize(items) && |SortedItems(items)| == |items|
    decreases items, 0
  {
    if items != [] {
      SortedKeepsSize(items[0]);
      SortedItemsKeepSize(items[1..]);
      var rest := SortedItems(items[1..]);
      assert ([Sorted(items[0])] + rest)[1..] == rest;
    }
  }

  lemma {:induction false} SortedFieldsKeepSize(fields: seq<Field>)
    ensures ManifestFieldsSize(SortedFields(fields)) == ManifestFieldsSize(fields) && |SortedFields(fields)| == |fields|
    decreases fields, 0
  {
    if fields != [] {
      SortedKeepsSize(fields[0].value);
      SortedFieldsKeepSize(fields[1..]);
      InsertKeepsSize(Field(fields[0].key, Sorted(fields[0].value)), SortedFields(fields[1..]));
    }
  }

  function FieldSize(f: Field): Option<nat> {
    Plus(Some(TextSize(f.key) + 1), ManifestSize(f.value))
  }

  lemma {:induction false} InsertKeepsSize(f: Field, fields: seq<Field>)
    ensures |InsertField(f, fields)| == |fields| + 1
    ensures ManifestFieldsSize(InsertField(f, fields)) == Plus(FieldSize(f), ManifestFieldsSize(fields))
    decreases |fields|
  {
    if fields == [] || Less(f.key, fields[0].key) {
      assert ([f] + fields)[1..] == fields;
    } else {
      InsertKeepsSize(f, fields[1..]);
      var rest := InsertField(f, fields[1..]);
      assert ([fields[0]] + rest)[1..] == rest;
    }
  }

  /** The generation counter gives the exact number of canonical bytes, for every document. */
  lemma ManifestSizeExact(v: Json)
    ensures ManifestSize(v) == Some(|CanonicalBytes(v)|)
  {
    SortedKeepsSize(v);
    ManifestSizeIsLength(Sorted(v));
  }

  /** A boolean stands somewhere in the value. */
  predicate HasBool(v: Json)
    decreases v, 1
  {
    match v
    case Bool(_) => true
    case Arr(items) => exists k :: 0 <= k < |items| && HasBool(items[k])
    case Obj(fields) => exists k :: 0 <= k < |fields| && HasBool(fields[k].value)
    case _ => false
  }

  /** The source counter refuses exactly the values with booleans, and agrees with the other on the rest. */
  lemma {:induction false} JsonSizeAgrees(v: Json)
    ensures JsonSize(v) == if HasBool(v) then None else ManifestSize(v)
    decreases v, 1
  {
    ManifestSizeIsLength(v);
    match v
    case Arr(items) => JsonItemsAgree(items); ItemsSizeIsLength(items);
    case Obj(fields) => JsonFieldsAgree(fields); FieldsSizeIsLength(fields);
    case _ =>
  }

  lemma {:induction false} JsonItemsAgree(items: seq<Json>)
    ensures JsonItemsSize(items) == if exists k :: 0 <= k < |items| && HasBool(items[k]) then None
      else ManifestItemsSize(items)
    decreases items, 0
  {
    if items != [] {
      JsonSizeAgrees(items[0]);
      JsonItemsAgree(items[1..]);
      assert forall k :: 1 <= k < |items| ==> items[k] == items[1..][k - 1];
    }
  }

  lemma {:induction false} JsonFieldsAgree(fields: seq<Field>)
    ensures JsonFieldsSize(fields) == if exists k :: 0 <= k < |fields| && HasBool(fields[k].value) then None
      else ManifestFieldsSize(fields)
    decreases fields, 0
  {
    if fields != [] {
      JsonSizeAgrees(fields[0].value);
      JsonFieldsAgree(fields[1..]);
      assert forall k :: 1 <= k < |fields| ==> fields[k] == fields[1..][k - 1];
    }
  }

  /** The source counter gives the exact number of canonical bytes for every value it accepts. */
  lemma JsonSizeExact(v: Json)
    requires JsonSize(v).Some?
    ensures JsonSize(v).value == |CanonicalBytes(v)|
  {
    JsonSizeAgrees(v);
    ManifestSizeExact(v);
  }
}
