/** A reader of JSON texts after sections 2 to 7 of RFC 8259, for the values of this model: whitespace is skipped, all
    escapes are understood, and numbers must be integers. Whatever is printed is read as the value printed. */
module JsonReader {
  import opened Wrappers
  import opened Sequences
  import opened CanonicalJson
  import opened CanonicalUnique

  /** What has been read off the head of a text, and the text behind it. */
  datatype Reading<T> = Nothing | Reading(value: T, rest: string)

  // --- Tokens ---------------------------------------------------------------------------

  predicate IsSpace(c: char) {
    c == ' ' || c == '\t' || c == '\n' || c == '\r'
  }

  function Space(s: string): (t: string)
    ensures |t| <= |s|
  {
    if s != [] && IsSpace(s[0]) then Space(s[1..]) else s
  }

  predicate IsHex(c: char) {
    '0' <= c <= '9' || 'a' <= c <= 'f' || 'A' <= c <= 'F'
  }

  /** The six characters of a unit escape. */
  predicate UnitEscape(s: string, at: nat) {
    at + 6 <= |s| && s[at] == '\\' && s[at + 1] == 'u' && forall k :: at + 2 <= k < at + 6 ==> IsHex(s[k])
  }

  /** A character of a string, plain or escaped; surrogates must come in pairs. */
  predicate CharacterAt(s: string) {
    if s == [] || s[0] as int < 32 || s[0] == '"' then false
    else if s[0] != '\\' then true
    else if |s| >= 2 && s[1] in "\"\\/bfnrt" then true
    else if !UnitEscape(s, 0) then false
    else if 0xD800 <= UnitAt(s, 0) < 0xDC00 then UnitEscape(s, 6) && 0xDC00 <= UnitAt(s, 6) < 0xE000
    else UnitAt(s, 0) < 0xD800 || UnitAt(s, 0) >= 0xE000
  }

  /** The characters up to the closing quote. */
  function ReadText(s: string): (r: Reading<string>)
    ensures r.Reading? ==> |r.rest| < |s|
    decreases |s|
  {
    if s != [] && s[0] == '"' then Reading([], s[1..])
    else if !CharacterAt(s) then Nothing
    else
      var (c, n) := ReadChar(s);
      if !(0 < n <= |s|) then Nothing
      else
        match ReadText(s[n..])
        case Nothing => Nothing
        case Reading(text, rest) => Reading([c] + text, rest)
  }

  /** An integer without superfluous zeros; nothing else may be the beginning of a longer number. */
  function ReadInteger(s: string): (r: Reading<int>)
    ensures r.Reading? ==> |r.rest| < |s|
  {
    var digits := if s != [] && s[0] == '-' then s[1..] else s;
    var n := DigitRun(digits);
    DigitRunWithin(digits);
    if n == 0 || (n > 1 && digits[0] == '0') then Nothing
    else if n < |digits| && digits[n] in ".eE" then Nothing
    else
      var value: int := ValueOf(digits[..n]);
      Reading(if s[0] == '-' then -value else value, digits[n..])
  }

  lemma {:induction false} DigitRunWithin(s: string)
    ensures DigitRun(s) <= |s|
  {
    if s != [] {
      DigitRunWithin(s[1..]);
    }
  }

  // --- Values ---------------------------------------------------------------------------

  /** One value, with whitespace in front of it. */
  function ReadValue(s: string): (r: Reading<Json>)
    ensures r.Reading? ==> |r.rest| < |s|
    decreases |s|, 1
  {
    var t := Space(s);
    if "null" <= t then Reading(Null, t[4..])
    else if "true" <= t then Reading(Bool(true), t[4..])
    else if "false" <= t then Reading(Bool(false), t[5..])
    else if t == [] then Nothing
    else if t[0] == '"' then
      match ReadText(t[1..])
      case Nothing => Nothing
      case Reading(text, rest) => Reading(Str(text), rest)
    else if t[0] == '[' then
      var u := Space(t[1..]);
      if u != [] && u[0] == ']' then Reading(Arr([]), u[1..])
      else
        match ReadItems(u)
        case Nothing => Nothing
        case Reading(items, rest) => Reading(Arr(items), rest)
    else if t[0] == '{' then
      var u := Space(t[1..]);
      if u != [] && u[0] == '}' then Reading(Obj([]), u[1..])
      else
        match ReadFields(u)
        case Nothing => Nothing
        case Reading(fields, rest) => Reading(Obj(fields), rest)
    else
      match ReadInteger(t)
      case Nothing => Nothing
      case Reading(n, rest) => Reading(Int(n), rest)
  }

  /** Values with commas between them, up to the closing bracket. */
  function ReadItems(s: string): (r: Reading<seq<Json>>)
    ensures r.Reading? ==> |r.rest| < |s|
    decreases |s|, 2
  {
    match ReadValue(s)
    case Nothing => Nothing
    case Reading(v, after) =>
      var t := Space(after);
      if t != [] && t[0] == ']' then Reading([v], t[1..])
      else if t == [] || t[0] != ',' then Nothing
      else
        match ReadItems(t[1..])
        case Nothing => Nothing
        case Reading(items, rest) => Reading([v] + items, rest)
  }

  /** Named values with commas between them, up to the closing brace. */
  function ReadFields(s: string): (r: Reading<seq<Field>>)
    ensures r.Reading? ==> |r.rest| < |s|
    decreases |s|, 2
  {
    var k := Space(s);
    if k == [] || k[0] != '"' then Nothing
    else
      match ReadText(k[1..])
      case Nothing => Nothing
      case Reading(key, after) =>
        var c := Space(after);
        if c == [] || c[0] != ':' then Nothing
        else
          match ReadValue(c[1..])
          case Nothing => Nothing
          case Reading(v, behind) =>
            var t := Space(behind);
            if t != [] && t[0] == '}' then Reading([Field(key, v)], t[1..])
            else if t == [] || t[0] != ',' then Nothing
            else
              match ReadFields(t[1..])
              case Nothing => Nothing
              case Reading(fields, rest) => Reading([Field(key, v)] + fields, rest)
  }

  /** A whole text: one value between whitespace. */
  function ReadJson(s: string): Option<Json> {
    match ReadValue(s)
    case Nothing => None
    case Reading(v, rest) => if Space(rest) == [] then Some(v) else None
  }

  // --- What is printed is read ----------------------------------------------------------

  /** What may stand behind a value that is part of a printed text. */
  predicate Behind(x: string) {
    x == [] || x[0] in ",]}"
  }

  lemma CharacterPrinted(c: char, ascii: bool, x: string)
    ensures CharacterAt(EscapeChar(c, ascii) + x) && EscapeChar(c, ascii)[0] != '"'
  {
    if Escaped(c, ascii) {
      if c as int < 0x10000 {
        UnitPrinted(c, x);
      } else {
        PairPrinted(c, x);
      }
    } else {
      hide UnitAt, Unit;
    }
  }

  lemma UnitHex(u: nat)
    requires u < 0x10000
    ensures UnitEscape(Unit(u), 0)
  {
  }

  lemma UnitPrinted(c: char, x: string)
    requires (c as int) < 0x10000
    ensures CharacterAt(Unit(c as int) + x)
  {
    var s := Unit(c as int) + x;
    UnitHex(c as int);
    UnitReads(c as int, [], x);
    assert [] + Unit(c as int) + x == s;
    assert s[0] == '\\' && s[1] == 'u';
    hide Unit, UnitAt;
    assert forall k :: 0 <= k < 6 ==> s[k] == Unit(c as int)[k];
  }

  lemma PairPrinted(c: char, x: string)
    requires c as int >= 0x10000
    ensures var u := c as int - 0x10000;
      CharacterAt(Unit(0xD800 + u / 0x400) + Unit(0xDC00 + u % 0x400) + x)
  {
    var u := c as int - 0x10000;
    JoinedBack(c);
    var high, low := 0xD800 + u / 0x400, 0xDC00 + u % 0x400;
    UnitHex(high);
    UnitHex(low);
    PairUnits(high, low, x);
    UnitStart(high);
    hide Unit, UnitAt;
    var s := Unit(high) + Unit(low) + x;
    assert forall k :: 0 <= k < 6 ==> s[k] == Unit(high)[k] && s[k + 6] == Unit(low)[k];
    assert UnitEscape(s, 0);
    assert UnitEscape(s, 6) by {
      assert forall k :: 8 <= k < 12 ==> s[k] == Unit(low)[k - 6];
    }
  }

  lemma {:induction false} TextRead(s: string, ascii: bool, x: string)
    ensures ReadText(EscapeTo(s, ascii, ['"'] + x)) == Reading(s, x)
  {
    if s == [] {
      assert (['"'] + x)[1..] == x;
    } else {
      TextRead(s[1..], ascii, x);
      var head, rest := EscapeChar(s[0], ascii), EscapeTo(s[1..], ascii, ['"'] + x);
      CharacterPrinted(s[0], ascii, rest);
      ReadsBack(s[0], ascii, rest);
      TextStep(head, rest, s[0]);
      assert s == [s[0]] + s[1..];
    }
  }

  lemma TextStep(head: string, rest: string, c: char)
    requires head != [] && head[0] != '"' && CharacterAt(head + rest) && ReadChar(head + rest) == (c, |head|)
    ensures ReadText(head + rest) ==
      match ReadText(rest)
      case Nothing => Nothing
      case Reading(text, after) => Reading([c] + text, after)
  {
    hide CharacterAt, ReadChar;
    assert (head + rest)[|head|..] == rest;
  }

  lemma IntegerRead(n: int, x: string)
    requires Behind(x)
    ensures ReadInteger(Number(n) + x) == Reading(n, x)
  {
    hide *;
    var digits := Decimal(if n < 0 then -n else n);
    DecimalDigits(if n < 0 then -n else n);
    DecimalValue(if n < 0 then -n else n);
    DecimalStart(if n < 0 then -n else n);
    DigitsBegin(if n < 0 then -n else n);
    NumberIs(n);
    BehindDigits(digits, x);
    assert Number(n) + x == (if n < 0 then ['-'] else []) + (digits + x);
    DigitsRead(n < 0, digits, x);
  }

  lemma NumberIs(n: int)
    ensures Number(n) == (if n < 0 then ['-'] else []) + Decimal(if n < 0 then -n else n)
  {
  }

  lemma DigitsBegin(n: nat)
    ensures Decimal(n) != [] && '0' <= Decimal(n)[0] <= '9'
  {
    DecimalDigits(n);
  }

  lemma BehindDigits(digits: string, x: string)
    requires Behind(x) && forall k :: 0 <= k < |digits| ==> IsDigit(digits[k])
    ensures DigitRun(digits + x) == |digits|
  {
    DigitRunOf(digits, x);
    hide DigitRun;
  }

  /** A sign or none, then digits up to something else. */
  lemma DigitsRead(negative: bool, digits: string, x: string)
    requires Behind(x) && digits != [] && '0' <= digits[0] <= '9' && (|digits| > 1 ==> digits[0] != '0')
    requires DigitRun(digits + x) == |digits|
    ensures ReadInteger((if negative then ['-'] else []) + (digits + x)) ==
      Reading(if negative then -(ValueOf(digits) as int) else ValueOf(digits), x)
  {
    hide DigitRun, ValueOf;
    var s := (if negative then ['-'] else []) + (digits + x);
    assert (digits + x)[..|digits|] == digits && (digits + x)[|digits|..] == x;
    assert s[0] == if negative then '-' else digits[0];
    assert negative ==> s[1..] == digits + x;
    assert !negative ==> s == digits + x;
  }

  lemma {:induction false} DecimalStart(n: nat)
    ensures |Decimal(n)| > 1 ==> Decimal(n)[0] != '0'
    ensures n > 0 ==> Decimal(n)[0] != '0'
  {
    if n >= 10 {
      DecimalStart(n / 10);
    }
  }

  lemma NoSpace(s: string)
    requires s == [] || !IsSpace(s[0])
    ensures Space(s) == s
  {
  }

  /** A printed value begins with its own kind of character. */
  lemma ValueStart(v: Json, ascii: bool, x: string)
    ensures var s := WriteTo(v, ascii, x);
      s != [] && !IsSpace(s[0]) && KindOf(s[0]) == KindOfValue(v) && s[0] !in "]},:"
  {
    FirstChar(v, ascii, x);
  }

  lemma StringStep(u: string)
    ensures ReadValue(['"'] + u) ==
      match ReadText(u)
      case Nothing => Nothing
      case Reading(text, rest) => Reading(Str(text), rest)
  {
    hide ReadText;
    assert (['"'] + u)[1..] == u;
  }

  lemma ArrayStep(u: string)
    requires u != [] && !IsSpace(u[0])
    ensures ReadValue(['['] + u) ==
      if u[0] == ']' then Reading(Arr([]), u[1..])
      else
        match ReadItems(u)
        case Nothing => Nothing
        case Reading(items, rest) => Reading(Arr(items), rest)
  {
    hide ReadItems;
    assert (['['] + u)[1..] == u;
  }

  lemma ObjectStep(u: string)
    requires u != [] && !IsSpace(u[0])
    ensures ReadValue(['{'] + u) ==
      if u[0] == '}' then Reading(Obj([]), u[1..])
      else
        match ReadFields(u)
        case Nothing => Nothing
        case Reading(fields, rest) => Reading(Obj(fields), rest)
  {
    hide ReadFields;
    assert (['{'] + u)[1..] == u;
  }

  lemma NumberStep(t: string)
    requires t != [] && (t[0] == '-' || IsDigit(t[0]))
    ensures ReadValue(t) ==
      match ReadInteger(t)
      case Nothing => Nothing
      case Reading(n, rest) => Reading(Int(n), rest)
  {
    hide ReadInteger, ReadItems, ReadFields, ReadText;
  }

  lemma LiteralSteps(x: string)
    ensures ReadValue("null" + x) == Reading(Null, x)
    ensures ReadValue("true" + x) == Reading(Bool(true), x) && ReadValue("false" + x) == Reading(Bool(false), x)
  {
    hide ReadInteger, ReadItems, ReadFields, ReadText;
    assert ("null" + x)[4..] == x && ("true" + x)[4..] == x && ("false" + x)[5..] == x;
    assert !("null" <= "true" + x) && !("null" <= "false" + x) && !("true" <= "false" + x) by {
      assert ("true" + x)[0] == 't' && ("false" + x)[0] == 'f' && "null"[0] == 'n' && "true"[0] == 't';
    }
  }

  lemma {:induction false} ValueRead(v: Json, ascii: bool, x: string)
    requires Behind(x)
    ensures ReadValue(WriteTo(v, ascii, x)) == Reading(v, x)
    decreases v, 1
  {
    hide ReadValue, ReadItems, ReadFields, ReadText, ReadInteger, Number, EscapeTo;
    match v
    case Null => LiteralSteps(x);
    case Bool(_) => LiteralSteps(x);
    case Int(n) =>
      NumberKind(n, x);
      NumberStep(Number(n) + x);
      IntegerRead(n, x);
    case Str(t) =>
      StringStep(EscapeTo(t, ascii, ['"'] + x));
      TextRead(t, ascii, x);
    case Arr(items) => ArrayRead(items, ascii, x);
    case Obj(fields) => ObjectRead(fields, ascii, x);
  }

  lemma ArrayRead(items: seq<Json>, ascii: bool, x: string)
    ensures ReadValue(WriteTo(Arr(items), ascii, x)) == Reading(Arr(items), x)
    decreases items, 1
  {
    hide ReadValue, ReadItems;
    var u := ItemsTo(items, ascii, [']'] + x);
    if items == [] {
      assert u[1..] == x;
    } else {
      ItemsStart(items, ascii, x);
      ItemsRead(items, ascii, x);
    }
    ArrayStep(u);
  }

  lemma ObjectRead(fields: seq<Field>, ascii: bool, x: string)
    ensures ReadValue(WriteTo(Obj(fields), ascii, x)) == Reading(Obj(fields), x)
    decreases fields, 1
  {
    hide ReadValue, ReadFields;
    var u := FieldsTo(fields, ascii, ['}'] + x);
    if fields == [] {
      assert u[1..] == x;
    } else {
      FieldsRead(fields, ascii, x);
    }
    ObjectStep(u);
  }

  lemma NumberKind(n: int, x: string)
    ensures var s := Number(n) + x; s != [] && (s[0] == '-' || IsDigit(s[0]))
  {
    NumberStart(n, x);
  }

  lemma ItemsStart(items: seq<Json>, ascii: bool, x: string)
    requires items != []
    ensures var s := ItemsTo(items, ascii, [']'] + x); s != [] && !IsSpace(s[0]) && s[0] != ']'
  {
    ValueStart(items[0], ascii, AfterItem(items, ascii, x));
  }

  lemma {:induction false} ItemsRead(items: seq<Json>, ascii: bool, x: string)
    requires items != []
    ensures ReadItems(ItemsTo(items, ascii, [']'] + x)) == Reading(items, x)
    decreases items, 0
  {
    hide ReadValue, WriteTo;
    var after := AfterItem(items, ascii, x);
    ValueRead(items[0], ascii, after);
    NoSpace(after);
    if |items| == 1 {
      assert after[1..] == x && items == [items[0]];
    } else {
      assert after[1..] == ItemsTo(items[1..], ascii, [']'] + x);
      ItemsRead(items[1..], ascii, x);
      assert items == [items[0]] + items[1..];
    }
  }

  /** A name, its value, and what stands behind them. */
  lemma FieldStep(u: string, key: string, value: string, v: Json, behind: string)
    requires ReadText(u) == Reading(key, [':'] + value) && ReadValue(value) == Reading(v, behind)
    requires behind != [] && (behind[0] == '}' || behind[0] == ',')
    ensures ReadFields(['"'] + u) ==
      if behind[0] == '}' then Reading([Field(key, v)], behind[1..])
      else
        match ReadFields(behind[1..])
        case Nothing => Nothing
        case Reading(fields, rest) => Reading([Field(key, v)] + fields, rest)
  {
    hide ReadText, ReadValue;
    assert (['"'] + u)[1..] == u && ([':'] + value)[1..] == value;
    NoSpace(['"'] + u);
    NoSpace([':'] + value);
    NoSpace(behind);
    hide Space;
  }

  lemma {:induction false} FieldsRead(fields: seq<Field>, ascii: bool, x: string)
    requires fields != []
    ensures ReadFields(FieldsTo(fields, ascii, ['}'] + x)) == Reading(fields, x)
    ensures FieldsTo(fields, ascii, ['}'] + x)[0] == '"'
    decreases fields, 0
  {
    hide ReadFields, ReadText, ReadValue, EscapeTo, WriteTo;
    var f := fields[0];
    var behind := AfterField(fields, ascii, x);
    var value := WriteTo(f.value, ascii, behind);
    TextRead(f.key, ascii, [':'] + value);
    ValueRead(f.value, ascii, behind);
    FieldStep(EscapeTo(f.key, ascii, ['"'] + ([':'] + value)), f.key, value, f.value, behind);
    if |fields| == 1 {
      assert behind[1..] == x && fields == [f];
    } else {
      assert behind[1..] == FieldsTo(fields[1..], ascii, ['}'] + x);
      FieldsRead(fields[1..], ascii, x);
      assert fields == [f] + fields[1..];
    }
  }

  /** Printing a value, in either escaping, and reading the text gives the value back. */
  lemma ReadWritten(v: Json, ascii: bool)
    ensures ReadJson(Write(v, ascii)) == Some(v)
  {
    WriteToIsWrite(v, ascii, []);
    ValueRead(v, ascii, []);
    assert Write(v, ascii) + [] == Write(v, ascii);
  }
}
