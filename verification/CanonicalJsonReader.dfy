/** An independent reader of JSON texts, after the grammar of RFC 8259 without insignificant white space,
    and what it makes of canonical texts: the value that was printed, with its keys in order. */
module CanonicalJsonReader {
  import opened CanonicalJson
  import opened CanonicalJsonProofs
  import opened Numerals
  import opened Wrappers

  // ---------------------------------------------------------------- the reader

  datatype StringRead = NoString | AString(text: string, rest: string)

  datatype ValueRead = NoValue | AValue(value: Json, rest: string)

  datatype ItemsRead = NoItems | SomeItems(items: seq<Json>, rest: string)

  datatype FieldsRead = NoFields | SomeFields(fields: seq<Field>, rest: string)

  function HexValue(c: char): int {
    if '0' <= c <= '9' then c as int - '0' as int
    else if 'a' <= c <= 'f' then c as int - 'a' as int + 10
    else if 'A' <= c <= 'F' then c as int - 'A' as int + 10
    else -1
  }

  /** Section 7: the character an escape stands for, and how long the escape is; surrogates are left out. */
  function ReadEscape(s: string): Option<(char, nat)> {
    if |s| < 2 || s[0] != '\\' then None
    else if s[1] == '\"' || s[1] == '\\' || s[1] == '/' then Some((s[1], 2))
    else if s[1] == 'b' then Some((8 as char, 2))
    else if s[1] == 'f' then Some((12 as char, 2))
    else if s[1] == 'n' then Some((10 as char, 2))
    else if s[1] == 'r' then Some((13 as char, 2))
    else if s[1] == 't' then Some((9 as char, 2))
    else if s[1] != 'u' || |s| < 6 then None
    else
      var a, b, c, d := HexValue(s[2]), HexValue(s[3]), HexValue(s[4]), HexValue(s[5]);
      if a < 0 || b < 0 || c < 0 || d < 0 then None else
        var code := a * 4096 + b * 256 + c * 16 + d;
        if 0xD800 <= code < 0xE000 then None else Some((code as char, 6))
  }

  /** A string after its opening quote. */
  function ReadString(s: string): (r: StringRead)
    ensures r.AString? ==> |r.rest| < |s|
  {
    if s == "" then NoString
    else if s[0] == '\"' then AString("", s[1..])
    else
      var escape := ReadEscape(s);
      if (s[0] == '\\' && escape.None?) || (s[0] as int) < 32 then NoString
      else
        var (c, n) := if s[0] == '\\' then escape.value else (s[0], 1);
        match ReadString(s[n..])
        case NoString => NoString
        case AString(text, rest) => AString([c] + text, rest)
  }

  /** The run of characters that numbers are made of. */
  function NumberRun(s: string): (n: string)
    ensures n <= s && (forall i :: 0 <= i < |n| ==> NumberChar(n[i])) && (|n| < |s| ==> !NumberChar(s[|n|]))
  {
    if s == "" || !NumberChar(s[0]) then "" else [s[0]] + NumberRun(s[1..])
  }

  function ReadValue(s: string): (r: ValueRead)
    ensures r.AValue? ==> |r.rest| < |s|
    decreases |s|, 0
  {
    if s == "" then NoValue
    else if s[0] == '\"' then
      match ReadString(s[1..])
      case NoString => NoValue
      case AString(text, rest) => AValue(Str(text), rest)
    else if s[0] == '[' then
      if |s| > 1 && s[1] == ']' then AValue(Arr([]), s[2..]) else
        match ReadItems(s[1..])
        case NoItems => NoValue
        case SomeItems(items, rest) => AValue(Arr(items), rest)
    else if s[0] == '{' then
      if |s| > 1 && s[1] == '}' then AValue(Obj([]), s[2..]) else
        match ReadFields(s[1..])
        case NoFields => NoValue
        case SomeFields(fields, rest) => AValue(Obj(fields), rest)
    else if "null" <= s then AValue(Null, s[4..])
    else if "true" <= s then AValue(Bool(true), s[4..])
    else if "false" <= s then AValue(Bool(false), s[5..])
    else
      var n := NumberRun(s);
      if IsNumberText(n) then AValue(Num(n), s[|n|..]) else NoValue
  }

  /** The items of an array up to its end. */
  function ReadItems(s: string): (r: ItemsRead)
    ensures r.SomeItems? ==> |r.rest| < |s|
    decreases |s|, 1
  {
    match ReadValue(s)
    case NoValue => NoItems
    case AValue(v, rest) =>
      if rest != "" && rest[0] == ']' then SomeItems([v], rest[1..])
      else if rest == "" || rest[0] != ',' then NoItems
      else match ReadItems(rest[1..])
        case NoItems => NoItems
        case SomeItems(items, after) => SomeItems([v] + items, after)
  }

  /** The members of an object up to its end. */
  function ReadFields(s: string): (r: FieldsRead)
    ensures r.SomeFields? ==> |r.rest| < |s|
    decreases |s|, 1
  {
    if s == "" || s[0] != '\"' then NoFields else
      match ReadString(s[1..])
      case NoString => NoFields
      case AString(key, more) =>
        if more == "" || more[0] != ':' then NoFields else
          match ReadValue(more[1..])
          case NoValue => NoFields
          case AValue(v, rest) =>
            if rest != "" && rest[0] == '}' then SomeFields([Field(key, v)], rest[1..])
            else if rest == "" || rest[0] != ',' then NoFields
            else match ReadFields(rest[1..])
              case NoFields => NoFields
              case SomeFields(fields, after) => SomeFields([Field(key, v)] + fields, after)
  }

  // ---------------------------------------------------------------- strings and numbers

  lemma ReadEscaped(c: char, x: string)
    ensures var s, e := Escape(c) + x, Escape(c);
      if |e| == 1 then s[0] == c && c != '\"' && c != '\\' && 32 <= c as int
      else s[0] == '\\' && ReadEscape(s) == Some((c, |e|))
  {
    var s, e := Escape(c) + x, Escape(c);
    assert s[..|e|] == e;
    if |e| == 2 {
      assert s[0] == e[0] && s[1] == e[1];
    } else if |e| == 6 {
      assert s[0] == e[0] && s[1] == e[1] && s[2] == e[2] && s[3] == e[3] && s[4] == e[4] && s[5] == e[5];
    }
  }

  /** How a character is written inside quotes: as itself, but for the quote, the backslash and the controls; those
      without a short escape of their own as four lower-case hexadecimal digits. */
  lemma EscapeTexts(c: char)
    ensures 32 <= c as int && c != '\"' && c != '\\' ==> Escape(c) == [c]
    ensures c == '\"' || c == '\\' ==> Escape(c) == ['\\', c]
    ensures c as int == 8 ==> Escape(c) == "\\b"
    ensures c as int == 9 ==> Escape(c) == "\\t"
    ensures c as int == 10 ==> Escape(c) == "\\n"
    ensures c as int == 12 ==> Escape(c) == "\\f"
    ensures c as int == 13 ==> Escape(c) == "\\r"
    ensures (c as int) < 32 && !(8 <= c as int <= 10 || 12 <= c as int <= 13) ==>
      Escape(c) == "\\u00" + [if c as int < 16 then '0' else '1', "0123456789abcdef"[c as int % 16]]
  {
    if (c as int) < 32 {
      HexDigit(c as int % 16);
      HexDigit(c as int / 16);
    }
  }

  lemma HexDigit(d: nat)
    requires d < 16
    ensures Hex(d) == "0123456789abcdef"[d]
  {
    var digits := "0123456789abcdef";
    assert |digits| == 16;
    assert d < 10 ==> digits[d] as int == 48 + d;
    assert d >= 10 ==> digits[d] as int == 87 + d;
  }

  lemma {:induction false} ReadQuoted(t: string, x: string)
    ensures ReadString(Quoted(t, x)) == AString(t, x)
  {
    if t == "" {
      assert ("\"" + x)[1..] == x;
    } else {
      var e, y := Escape(t[0]), Quoted(t[1..], x);
      ReadEscaped(t[0], y);
      ReadQuoted(t[1..], x);
      assert (e + y)[|e|..] == y;
      assert t == [t[0]] + t[1..];
    }
  }

  lemma ReadQuote(t: string, x: string)
    ensures var s := Quote(t) + x; s != "" && s[0] == '\"' && ReadString(s[1..]) == AString(t, x)
  {
    QuotedIs(t, x);
    assert ("\"" + Quoted(t, x))[1..] == Quoted(t, x);
    ReadQuoted(t, x);
  }

  lemma RunOf(n: Numeral, x: string)
    requires Ends(x)
    ensures NumberRun(n + x) == n
  {
    var s := n + x;
    var r := NumberRun(s);
    assert |n| < |s| ==> !NumberChar(s[|n|]);
    assert |r| < |s| ==> !NumberChar(s[|r|]);
    assert forall i :: 0 <= i < |n| ==> NumberChar(s[i]);
    assert |r| == |n|;
    assert r == s[..|r|] && n == s[..|n|];
  }

  lemma ReadNumber(n: Numeral, x: string)
    requires Ends(x)
    ensures ReadValue(n + x) == AValue(Num(n), x)
  {
    var s := n + x;
    RunOf(n, x);
    assert s[0] == n[0] && (s[0] == '-' || IsDigit(s[0], 10));
    assert s[|n|..] == x;
    assert !("null" <= s) by { assert "null"[0] == 'n'; }
    assert !("true" <= s) by { assert "true"[0] == 't'; }
    assert !("false" <= s) by { assert "false"[0] == 'f'; }
  }

  lemma ReadWord(word: string, x: string)
    requires word == "null" || word == "true" || word == "false"
    ensures ReadValue(word + x) ==
      AValue(if word == "null" then Null else if word == "true" then Bool(true) else Bool(false), x)
  {
    var s := word + x;
    assert word <= s && s[|word|..] == x && s[0] == word[0];
    assert word != "null" ==> !("null" <= s);
    assert word == "false" ==> !("true" <= s);
  }

  // ---------------------------------------------------------------- values

  /** Nothing in it is undefined or not finite. */
  predicate Complete(j: Json)
    decreases j, 1
  {
    match j
    case Arr(items) => CompleteItems(items)
    case Obj(fields) => CompleteFields(fields)
    case _ => !j.Undefined? && !j.NonFinite?
  }

  predicate CompleteItems(items: seq<Json>)
    decreases items, 0
  {
    items == [] || (Complete(items[0]) && CompleteItems(items[1..]))
  }

  predicate CompleteFields(fields: seq<Field>)
    decreases fields, 0
  {
    fields == [] || (Complete(fields[0].value) && CompleteFields(fields[1..]))
  }

  /** A normal form is read back from its text, if it is complete; otherwise the text is not JSON. */
  lemma {:induction false} ReadPrinted(j: Json, x: string)
    requires Proper(j) && Ends(x)
    ensures ReadValue(Print(j) + x) == if Complete(j) then AValue(j, x) else NoValue
    decreases j, 2
  {
    match j
    case Undefined => ReadNothing(x);
    case Null => ReadWord("null", x);
    case Bool(b) => ReadWord(if b then "true" else "false", x);
    case Num(n) => ReadNumber(n, x);
    case NonFinite =>
    case Str(t) => ReadQuote(t, x);
    case Arr(items) => ReadArray(items, x);
    case Obj(fields) => ReadObject(fields, x);
  }

  lemma ReadNothing(x: string)
    requires Ends(x)
    ensures ReadValue("" + x) == NoValue
  {
    assert "" + x == x;
    assert !("null" <= x) by { assert "null"[0] == 'n'; }
    assert !("true" <= x) by { assert "true"[0] == 't'; }
    assert !("false" <= x) by { assert "false"[0] == 'f'; }
  }

  lemma {:induction false} ReadArray(items: seq<Json>, x: string)
    requires ProperItems(items) && !OnlyUndefined(items)
    ensures ReadValue(Print(Arr(items)) + x) == if CompleteItems(items) then AValue(Arr(items), x) else NoValue
    decreases items, 1
  {
    var s := ItemsThen(items, x);
    ArrayThen(items, x);
    assert (['['] + s)[1..] == s;
    ItemsStart(items, x);
    if items == [] {
      assert (['['] + s)[2..] == x;
    } else {
      ReadItemsThen(items, x);
    }
  }

  lemma {:induction false} ReadItemsThen(items: seq<Json>, x: string)
    requires ProperItems(items) && items != []
    ensures ReadItems(ItemsThen(items, x)) == if CompleteItems(items) then SomeItems(items, x) else NoItems
    decreases items, 0
  {
    var after := AfterItem(items, x);
    ReadPrinted(items[0], after);
    assert items == [items[0]] + items[1..];
    if |items| == 1 {
      assert ("]" + x)[1..] == x;
    } else {
      assert ("," + ItemsThen(items[1..], x))[1..] == ItemsThen(items[1..], x);
      ReadItemsThen(items[1..], x);
    }
  }

  lemma {:induction false} ReadObject(fields: seq<Field>, x: string)
    requires ProperFields(fields)
    ensures ReadValue(Print(Obj(fields)) + x) == if CompleteFields(fields) then AValue(Obj(fields), x) else NoValue
    decreases fields, 1
  {
    var s := FieldsThen(fields, x);
    ObjectThen(fields, x);
    FieldsStart(fields, x);
    assert (['{'] + s)[1..] == s;
    if fields == [] {
      assert (['{'] + s)[2..] == x;
    } else {
      ReadFieldsThen(fields, x);
    }
  }

  lemma {:induction false} ReadFieldsThen(fields: seq<Field>, x: string)
    requires ProperFields(fields) && fields != []
    ensures ReadFields(FieldsThen(fields, x)) == if CompleteFields(fields) then SomeFields(fields, x) else NoFields
    decreases fields, 0
  {
    var f, after := fields[0], AfterField(fields, x);
    var value := Print(f.value) + after;
    ReadQuote(f.key, ":" + value);
    ReadPrinted(f.value, after);
    ReadMember(FieldsThen(fields, x), f.key, value);
    assert fields == [Field(f.key, f.value)] + fields[1..];
    if |fields| == 1 {
      assert ("}" + x)[1..] == x;
    } else {
      assert ("," + FieldsThen(fields[1..], x))[1..] == FieldsThen(fields[1..], x);
      ReadFieldsThen(fields[1..], x);
    }
  }

  /** One member and what follows it. */
  lemma ReadMember(s: string, key: string, value: string)
    requires s != "" && s[0] == '\"' && ReadString(s[1..]) == AString(key, ":" + value)
    ensures ReadFields(s) ==
      match ReadValue(value)
      case NoValue => NoFields
      case AValue(v, rest) =>
        if rest != "" && rest[0] == '}' then SomeFields([Field(key, v)], rest[1..])
        else if rest == "" || rest[0] != ',' then NoFields
        else match ReadFields(rest[1..])
          case NoFields => NoFields
          case SomeFields(fields, after) => SomeFields([Field(key, v)] + fields, after)
  {
    assert (":" + value)[1..] == value;
  }

  // ---------------------------------------------------------------- the order of keys

  /** The code units of a string, as JavaScript stores it: two for a character beyond the basic plane. */
  function Units(s: string): seq<nat> {
    if s == "" then [] else UnitsOf(s[0]) + Units(s[1..])
  }

  function UnitsOf(c: char): seq<nat> {
    if c as int < 0x1_0000 then [c as nat]
    else [0xD800 + (c as nat - 0x1_0000) / 0x400, 0xDC00 + (c as nat - 0x1_0000) % 0x400]
  }

  /** Lexicographic order of numbers. */
  predicate Before(a: seq<nat>, b: seq<nat>) {
    b != [] && (a == [] || a[0] < b[0] || (a[0] == b[0] && Before(a[1..], b[1..])))
  }

  lemma {:induction false} BeforePrefixed(p: seq<nat>, a: seq<nat>, b: seq<nat>)
    ensures Before(p + a, p + b) <==> Before(a, b)
  {
    if p == [] {
      assert p + a == a && p + b == b;
    } else {
      assert (p + a)[1..] == p[1..] + a && (p + b)[1..] == p[1..] + b;
      BeforePrefixed(p[1..], a, b);
    }
  }

  lemma UnitsDiffer(c: char, d: char, a: seq<nat>, b: seq<nat>)
    requires c != d
    ensures Before(UnitsOf(c) + a, UnitsOf(d) + b) <==> Rank(c) < Rank(d)
  {
    var x, y := UnitsOf(c) + a, UnitsOf(d) + b;
    assert x[0] == UnitsOf(c)[0] && y[0] == UnitsOf(d)[0];
    if x[0] == y[0] {
      assert x[1] == UnitsOf(c)[1] && y[1] == UnitsOf(d)[1];
      assert x[1..][0] == x[1] && y[1..][0] == y[1];
    }
  }

  /** Keys are sorted by their code units. */
  lemma {:induction false} LessIsBefore(a: string, b: string)
    ensures Less(a, b) <==> Before(Units(a), Units(b))
  {
    if a != "" && b != "" {
      if a[0] == b[0] {
        BeforePrefixed(UnitsOf(a[0]), Units(a[1..]), Units(b[1..]));
        LessIsBefore(a[1..], b[1..]);
      } else {
        UnitsDiffer(a[0], b[0], Units(a[1..]), Units(b[1..]));
      }
    }
  }

  /** The keys of every object strictly increase by code units. */
  predicate InOrder(j: Json)
    decreases j, 1
  {
    match j
    case Arr(items) => ItemsInOrder(items)
    case Obj(fields) => FieldsInOrder(fields)
    case _ => true
  }

  predicate ItemsInOrder(items: seq<Json>)
    decreases items, 0
  {
    items == [] || (InOrder(items[0]) && ItemsInOrder(items[1..]))
  }

  predicate FieldsInOrder(fields: seq<Field>)
    decreases fields, 0
  {
    fields == [] ||
    (InOrder(fields[0].value) && FieldsInOrder(fields[1..]) &&
        (|fields| > 1 ==> Before(Units(fields[0].key), Units(fields[1].key))))
  }

  // ---------------------------------------------------------------- the canonical value

  lemma {:induction false} NormInOrder(j: Json)
    requires WellFormed(j)
    ensures InOrder(Norm(j)) && WellFormed(Norm(j))
    decreases j, 1
  {
    match j
    case Arr(items) =>
      if !OnlyUndefined(items) {
        NormItemsInOrder(items);
      }
    case Obj(fields) =>
      NormFieldsInOrder(fields);
      LookupNorm(fields, "");
      SortedDistinct(NormFields(fields));
    case _ =>
  }

  lemma {:induction false} NormItemsInOrder(items: seq<Json>)
    requires forall i <- items :: WellFormed(i)
    ensures ItemsInOrder(NormItems(items)) && forall i <- NormItems(items) :: WellFormed(i)
    decreases items, 0
  {
    if items != [] {
      assert items[0] in items && forall i <- items[1..] :: i in items;
      NormInOrder(items[0]);
      NormItemsInOrder(items[1..]);
      assert NormItems(items) == [Norm(items[0])] + NormItems(items[1..]);
      assert NormItems(items)[1..] == NormItems(items[1..]);
    }
  }

  lemma {:induction false} NormFieldsInOrder(fields: seq<Field>)
    requires Distinct(fields) && forall f <- fields :: WellFormed(f.value)
    ensures FieldsInOrder(NormFields(fields)) && forall f <- NormFields(fields) :: WellFormed(f.value)
    decreases fields, 0
  {
    if fields != [] {
      var f, rest := fields[0], fields[1..];
      assert f in fields && forall g <- rest :: g in fields;
      NormFieldsInOrder(rest);
      if !f.value.Undefined? {
        NormInOrder(f.value);
        LookupNorm(rest, f.key);
        AbsentKey(rest, f.key);
        InsertInOrder(Field(f.key, Norm(f.value)), NormFields(rest));
      }
    }
  }

  lemma {:induction false} InsertInOrder(f: Field, fs: seq<Field>)
    requires FieldsInOrder(fs) && InOrder(f.value) && WellFormed(f.value)
    requires Sorted(fs) && Lookup(fs, f.key).Undefined? && forall g <- fs :: WellFormed(g.value)
    ensures FieldsInOrder(InsertField(f, fs)) && forall g <- InsertField(f, fs) :: WellFormed(g.value)
  {
    var r := InsertField(f, fs);
    if fs == [] || Less(f.key, fs[0].key) {
      assert r[1..] == fs;
      if fs != [] {
        LessIsBefore(f.key, fs[0].key);
      }
    } else {
      LessTotal(f.key, fs[0].key);
      assert fs[0] in fs && forall g <- fs[1..] :: g in fs;
      InsertInOrder(f, fs[1..]);
      assert r[1..] == InsertField(f, fs[1..]);
      assert r[1] == f || r[1] == fs[1];
      LessIsBefore(fs[0].key, f.key);
    }
  }

  lemma {:induction false} SortedDistinct(fs: seq<Field>)
    requires Sorted(fs)
    ensures Distinct(fs)
  {
    if fs != [] {
      SortedDistinct(fs[1..]);
      forall j | 0 < j < |fs| ensures fs[0].key != fs[j].key {
        SortedFrom(fs, j);
        LessTotal(fs[0].key, fs[j].key);
      }
      forall i, j | 0 <= i < j < |fs| ensures fs[i].key != fs[j].key {
        if i > 0 {
          assert fs[1..][i - 1].key != fs[1..][j - 1].key;
        }
      }
    }
  }

  lemma {:induction false} SortedFrom(fs: seq<Field>, j: nat)
    requires Sorted(fs) && 0 < j < |fs|
    ensures Less(fs[0].key, fs[j].key)
  {
    if j > 1 {
      SortedFrom(fs[1..], j - 1);
      LessTransitive(fs[0].key, fs[1].key, fs[j].key);
    }
  }

  lemma {:induction false} NormStable(j: Json)
    requires Complete(j) && InOrder(j)
    ensures Norm(j) == j
    decreases j, 1
  {
    match j
    case Arr(items) => ItemsStable(items);
    case Obj(fields) => FieldsStable(fields);
    case _ =>
  }

  lemma {:induction false} ItemsStable(items: seq<Json>)
    requires CompleteItems(items) && ItemsInOrder(items)
    ensures NormItems(items) == items && !OnlyUndefined(items)
    decreases items, 0
  {
    if items != [] {
      NormStable(items[0]);
      ItemsStable(items[1..]);
      assert items == [items[0]] + items[1..];
    }
  }

  lemma {:induction false} FieldsStable(fields: seq<Field>)
    requires CompleteFields(fields) && FieldsInOrder(fields)
    ensures NormFields(fields) == fields
    decreases fields, 0
  {
    if fields != [] {
      NormStable(fields[0].value);
      FieldsStable(fields[1..]);
      if |fields| > 1 {
        LessIsBefore(fields[0].key, fields[1].key);
      }
      assert fields == [Field(fields[0].key, fields[0].value)] + fields[1..];
    }
  }

  /** It is not undefined, and no array in it has an undefined item, except as its only one. */
  predicate Readable(j: Json)
    decreases j, 1
  {
    match j
    case Undefined => false
    case Arr(items) => OnlyUndefined(items) || ReadableItems(items)
    case Obj(fields) => ReadableFields(fields)
    case _ => true
  }

  predicate ReadableItems(items: seq<Json>)
    decreases items, 0
  {
    items == [] || (Readable(items[0]) && ReadableItems(items[1..]))
  }

  predicate ReadableFields(fields: seq<Field>)
    decreases fields, 0
  {
    fields == [] ||
    ((fields[0].value.Undefined? || Readable(fields[0].value)) && ReadableFields(fields[1..]))
  }

  lemma {:induction false} NormComplete(j: Json)
    ensures Complete(Norm(j)) <==> Readable(j)
    decreases j, 1
  {
    match j
    case Arr(items) =>
      if !OnlyUndefined(items) {
        NormItemsComplete(items);
      }
    case Obj(fields) => NormFieldsComplete(fields);
    case _ =>
  }

  lemma {:induction false} NormItemsComplete(items: seq<Json>)
    ensures CompleteItems(NormItems(items)) <==> ReadableItems(items)
    decreases items, 0
  {
    if items != [] {
      NormComplete(items[0]);
      NormItemsComplete(items[1..]);
      assert NormItems(items)[1..] == NormItems(items[1..]);
    }
  }

  lemma {:induction false} NormFieldsComplete(fields: seq<Field>)
    ensures CompleteFields(NormFields(fields)) <==> ReadableFields(fields)
    decreases fields, 0
  {
    if fields != [] {
      NormFieldsComplete(fields[1..]);
      NormComplete(fields[0].value);
      InsertComplete(Field(fields[0].key, Norm(fields[0].value)), NormFields(fields[1..]));
    }
  }

  lemma {:induction false} InsertComplete(f: Field, fs: seq<Field>)
    ensures CompleteFields(InsertField(f, fs)) <==> Complete(f.value) && CompleteFields(fs)
    ensures |InsertField(f, fs)| == |fs| + 1
  {
    if !(fs == [] || Less(f.key, fs[0].key)) {
      InsertComplete(f, fs[1..]);
      assert InsertField(f, fs)[1..] == InsertField(f, fs[1..]);
    } else {
      assert ([f] + fs)[1..] == fs;
    }
  }

  lemma TextIsRead(j: Json)
    ensures ReadValue(Text(j)) == if Readable(j) then AValue(Norm(j), "") else NoValue
  {
    TextIsPrint(j);
    NormProper(j);
    NormComplete(j);
    ReadPrinted(Norm(j), "");
    assert Print(Norm(j)) + "" == Print(Norm(j));
  }

  /** The canonical text of a value is JSON exactly if no array in it has an undefined item beside others; a
      reader then finds a value that says the same, the keys of every object in the order of their code units. */
  lemma CanonicalText(j: Json)
    requires WellFormed(j)
    ensures ReadValue(Text(j)).AValue? <==> Readable(j)
    ensures var r := ReadValue(Text(j)); r.AValue? ==> r.rest == "" && Same(j, r.value) && InOrder(r.value)
  {
    TextIsRead(j);
    if Readable(j) {
      NormInOrder(j);
      NormComplete(j);
      NormStable(Norm(j));
      NormSame(j, Norm(j));
    }
  }

  // ---------------------------------------------------------------- payloads

  lemma {:induction false} StringsReadable(args: seq<string>)
    ensures ReadableItems(Strings(args)) && NormItems(Strings(args)) == Strings(args) && !OnlyUndefined(Strings(args))
  {
    if args != [] {
      assert Strings(args)[1..] == Strings(args[1..]);
      StringsReadable(args[1..]);
    }
  }

  /** Undefined, or read back as it is. */
  predicate Simple(v: Json) { v.Undefined? || (Readable(v) && Norm(v) == v) }

  lemma {:induction false} SimpleReadable(fields: seq<Field>)
    requires forall i :: 0 <= i < |fields| ==> Simple(fields[i].value)
    ensures ReadableFields(fields)
  {
    if fields != [] {
      assert Simple(fields[0].value) && forall i :: 0 <= i < |fields[1..]| ==> Simple(fields[1..][i].value);
      SimpleReadable(fields[1..]);
    }
  }

  predicate HasKey(fields: seq<Field>, key: string) { exists f <- fields :: f.key == key }

  lemma {:induction false} InsertedKeys(f: Field, fs: seq<Field>, key: string)
    ensures HasKey(InsertField(f, fs), key) ==> key == f.key || HasKey(fs, key)
  {
    var r := InsertField(f, fs);
    if fs == [] || Less(f.key, fs[0].key) {
      assert forall g <- r :: g == f || g in fs;
    } else {
      InsertedKeys(f, fs[1..], key);
      assert forall g <- r :: g == fs[0] || g in InsertField(f, fs[1..]);
      assert fs[0] in fs && forall g <- fs[1..] :: g in fs;
    }
  }

  lemma {:induction false} NormKeys(fields: seq<Field>, key: string)
    ensures HasKey(NormFields(fields), key) ==> HasKey(fields, key)
  {
    if fields != [] {
      NormKeys(fields[1..], key);
      InsertedKeys(Field(fields[0].key, Norm(fields[0].value)), NormFields(fields[1..]), key);
      assert fields[0] in fields && forall f <- fields[1..] :: f in fields;
    }
  }

  /** The text is a JSON object, and says something under these keys at most. */
  predicate SaysOnly(text: string, keys: seq<string>) {
    var r := ReadValue(text);
    r.AValue? && r.rest == "" && r.value.Obj? && Distinct(r.value.fields) &&
        forall f <- r.value.fields :: f.key in keys
  }

  /** What the JSON object of this text says under a key. */
  function Said(text: string, key: string): Json {
    var r := ReadValue(text);
    if r.AValue? && r.value.Obj? then Lookup(r.value.fields, key) else Undefined
  }

  /** The text is a JSON object that says these values under these keys, and nothing else. */
  predicate Says(text: string, keys: seq<string>, values: seq<Json>) {
    && SaysOnly(text, keys) && |keys| == |values|
    && forall i :: 0 <= i < |keys| ==> Said(text, keys[i]) == values[i]
  }

  /** What a reader finds in an object's text: under each key its value, and nothing else. */
  lemma MembersSaid(fields: seq<Field>, text: string, keys: seq<string>, values: seq<Json>)
    requires WellFormed(Obj(fields)) && text == Text(Obj(fields)) && |keys| == |values| == |fields|
    requires forall i :: 0 <= i < |fields| ==> fields[i] == Field(keys[i], values[i]) && Simple(values[i])
    ensures Says(text, keys, values)
  {
    SimpleReadable(fields);
    TextIsRead(Obj(fields));
    LookupNorm(fields, "");
    SortedDistinct(NormFields(fields));
    forall f | f in NormFields(fields) ensures f.key in keys {
      NormKeys(fields, f.key);
      var i :| 0 <= i < |fields| && fields[i].key == f.key;
      assert keys[i] in keys;
    }
    forall i | 0 <= i < |fields| ensures Lookup(NormFields(fields), keys[i]) == values[i] {
      LookupNorm(fields, keys[i]);
      LookupOwn(fields, fields[i]);
    }
  }

  lemma CommandShape(c: Command) returns (fields: seq<Field>, keys: seq<string>, values: seq<Json>)
    ensures keys == ["id", "connectorId", "command", "args", "createdAt", "createdBy"]
    ensures values ==
      [Str(c.id), Str(c.connectorId), Str(c.command), Arr(Strings(c.args)), Str(c.createdAt), Str(c.createdBy)]
    ensures CommandPayload(c) == Text(Obj(fields)) && WellFormed(Obj(fields)) && |fields| == |keys| == |values|
    ensures forall i :: 0 <= i < |fields| ==> fields[i] == Field(keys[i], values[i])
  {
    fields, keys := CommandObject(c).fields, ["id", "connectorId", "command", "args", "createdAt", "createdBy"];
    values := [Str(c.id), Str(c.connectorId), Str(c.command), Arr(Strings(c.args)), Str(c.createdAt), Str(c.createdBy)];
  }

  lemma SimpleValues(values: seq<Json>, args: seq<string>)
    requires forall v <- values :: v.Undefined? || v.Str? || v.Num? || v == Arr(Strings(args))
    ensures forall i :: 0 <= i < |values| ==> Simple(values[i])
  {
    StringsReadable(args);
    forall i | 0 <= i < |values| ensures Simple(values[i]) {
      assert values[i] in values;
    }
  }

  lemma CommandSimple(c: Command, values: seq<Json>)
    requires values ==
      [Str(c.id), Str(c.connectorId), Str(c.command), Arr(Strings(c.args)), Str(c.createdAt), Str(c.createdBy)]
    ensures forall i :: 0 <= i < |values| ==> Simple(values[i])
  {
    SimpleValues(values, c.args);
  }

  lemma ResultSimple(r: CommandResult, values: seq<Json>)
    requires values == [Str(r.commandId), Str(r.status), ExitCode(r), Str(r.stdoutTail), Str(r.stderrTail)]
    ensures forall i :: 0 <= i < |values| ==> Simple(values[i])
  {
    SimpleValues(values, []);
  }

  /** The text a command is signed over is a JSON object that says its six signed fields and nothing else. */
  lemma CommandPayloadReads(c: Command)
    ensures Says(CommandPayload(c), ["id", "connectorId", "command", "args", "createdAt", "createdBy"],
        [Str(c.id), Str(c.connectorId), Str(c.command), Arr(Strings(c.args)), Str(c.createdAt), Str(c.createdBy)])
  {
    var fields, keys, values := CommandShape(c);
    CommandSimple(c, values);
    MembersSaid(fields, CommandPayload(c), keys, values);
  }


  lemma ResultShape(r: CommandResult) returns (fields: seq<Field>, keys: seq<string>, values: seq<Json>)
    ensures keys == ["commandId", "status", "exitCode", "stdoutTail", "stderrTail"]
    ensures values == [Str(r.commandId), Str(r.status), ExitCode(r), Str(r.stdoutTail), Str(r.stderrTail)]
    ensures ResultPayload(r) == Text(Obj(fields)) && WellFormed(Obj(fields)) && |fields| == |keys| == |values|
    ensures forall i :: 0 <= i < |fields| ==> fields[i] == Field(keys[i], values[i])
  {
    keys := ["commandId", "status", "exitCode", "stdoutTail", "stderrTail"];
    values := [Str(r.commandId), Str(r.status), ExitCode(r), Str(r.stdoutTail), Str(r.stderrTail)];
    fields := ResultFields(r);
    PairUp(fields, keys, values);
  }

  lemma ResultFields(r: CommandResult) returns (fields: seq<Field>)
    ensures ResultPayload(r) == Text(Obj(fields)) && WellFormed(Obj(fields))
    ensures fields == [Field("commandId", Str(r.commandId)), Field("status", Str(r.status)),
        Field("exitCode", ExitCode(r)), Field("stdoutTail", Str(r.stdoutTail)), Field("stderrTail", Str(r.stderrTail))]
  {
    fields := ResultObject(r).fields;
  }

  lemma PairUp(fields: seq<Field>, keys: seq<string>, values: seq<Json>)
    requires |fields| == |keys| == |values| == 5
    requires fields == [Field(keys[0], values[0]), Field(keys[1], values[1]), Field(keys[2], values[2]),
        Field(keys[3], values[3]), Field(keys[4], values[4])]
    ensures forall i :: 0 <= i < |fields| ==> fields[i] == Field(keys[i], values[i])
  {
  }

  /** And that of a result, its five, an exit code only if there is one. */
  lemma ResultPayloadReads(r: CommandResult)
    ensures Says(ResultPayload(r), ["commandId", "status", "exitCode", "stdoutTail", "stderrTail"],
        [Str(r.commandId), Str(r.status), ExitCode(r), Str(r.stdoutTail), Str(r.stderrTail)])
  {
    var fields, keys, values := ResultShape(r);
    ResultSimple(r, values);
    MembersSaid(fields, ResultPayload(r), keys, values);
  }

  /** An integer prints as its decimal digits, after a minus sign if it is negative. */
  lemma NumberReads(n: int)
    ensures var t := Number(n);
      if n >= 0 then IsNumeral(t, 10) && Value(t, 10) == n
      else t[0] == '-' && IsNumeral(t[1..], 10) && Value(t[1..], 10) == -n
  {
    if n >= 0 {
      ValueOfDigits(n, 10);
    } else {
      ValueOfDigits(-n, 10);
      assert Number(n)[1..] == Digits(-n, 10);
    }
  }
}
