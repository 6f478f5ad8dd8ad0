/** Why equal canonical texts mean equal values: the printer goes through a normal form, normal
    forms can be read back from their text, and two values normalise alike exactly when they say
    the same. */
module CanonicalJsonProofs {
  import opened CanonicalJson
  import opened Collections
  import opened Numerals
  import opened Wrappers

  // ---------------------------------------------------------------- normal forms

  function InsertField(f: Field, fs: seq<Field>): seq<Field> {
    if fs == [] || Less(f.key, fs[0].key) then [f] + fs else [fs[0]] + InsertField(f, fs[1..])
  }

  /** Keys sorted, undefined members dropped, `[undefined]` emptied. */
  function Norm(j: Json): Json
    decreases j, 1
  {
    match j
    case Arr(items) => if OnlyUndefined(items) then Arr([]) else Arr(NormItems(items))
    case Obj(fields) => Obj(NormFields(fields))
    case _ => Finite(j)
  }

  function NormItems(items: seq<Json>): (r: seq<Json>)
    ensures |r| == |items|
    decreases items, 0
  {
    if items == [] then [] else [Norm(items[0])] + NormItems(items[1..])
  }

  function NormFields(fields: seq<Field>): seq<Field>
    decreases fields, 0
  {
    if fields == [] then []
    else if fields[0].value.Undefined? then NormFields(fields[1..])
    else InsertField(Field(fields[0].key, Norm(fields[0].value)), NormFields(fields[1..]))
  }

  /** Prints a normal form as it stands. */
  function Print(j: Json): string
    decreases j, 1
  {
    match j
    case Arr(items) => "[" + PrintItems(items) + "]"
    case Obj(fields) => "{" + PrintFields(fields) + "}"
    case _ => Text(j)
  }

  function PrintItems(items: seq<Json>): string
    decreases items, 0
  {
    if items == [] then "" else Print(items[0]) + if |items| == 1 then "" else "," + PrintItems(items[1..])
  }

  function PrintFields(fields: seq<Field>): string
    decreases fields, 0
  {
    if fields == [] then ""
    else
      var rest := if |fields| == 1 then "" else "," + PrintFields(fields[1..]);
      Quote(fields[0].key) + ":" + Print(fields[0].value) + rest
  }

  function FieldTexts(fields: seq<Field>): seq<Member> {
    if fields == [] then [] else [Member(fields[0].key, Print(fields[0].value))] + FieldTexts(fields[1..])
  }

  lemma {:induction false} PrintInserted(f: Field, fs: seq<Field>)
    ensures FieldTexts(InsertField(f, fs)) == InsertMember(Member(f.key, Print(f.value)), FieldTexts(fs))
  {
    var ms := FieldTexts(fs);
    if fs == [] || Less(f.key, fs[0].key) {
      assert ([f] + fs)[1..] == fs;
    } else {
      PrintInserted(f, fs[1..]);
      assert ms[1..] == FieldTexts(fs[1..]);
      assert InsertField(f, fs)[1..] == InsertField(f, fs[1..]);
    }
  }

  lemma {:induction false} JoinFields(fs: seq<Field>)
    ensures Join(MemberTexts(FieldTexts(fs)), ",") == PrintFields(fs)
  {
    if fs != [] {
      var parts := MemberTexts(FieldTexts(fs));
      assert parts[1..] == MemberTexts(FieldTexts(fs[1..]));
      JoinFields(fs[1..]);
      assert |fs| > 1 ==> parts[1..] != [];
    }
  }

  lemma {:induction false} TextIsPrint(j: Json)
    ensures Text(j) == Print(Norm(j))
    decreases j, 1
  {
    match j
    case Arr(items) =>
      if OnlyUndefined(items) {
        assert Texts(items) == [""];
      } else {
        ItemsArePrinted(items);
      }
    case Obj(fields) =>
      FieldsArePrinted(fields);
      JoinFields(NormFields(fields));
    case _ =>
  }

  lemma {:induction false} ItemsArePrinted(items: seq<Json>)
    ensures Join(Texts(items), ",") == PrintItems(NormItems(items))
    decreases items, 0
  {
    if items != [] {
      TextIsPrint(items[0]);
      ItemsArePrinted(items[1..]);
      assert Texts(items)[1..] == Texts(items[1..]);
      assert NormItems(items)[1..] == NormItems(items[1..]);
    }
  }

  lemma {:induction false} FieldsArePrinted(fields: seq<Field>)
    ensures FieldTexts(NormFields(fields)) == SortMembers(Members(fields))
    decreases fields, 0
  {
    if fields != [] {
      FieldsArePrinted(fields[1..]);
      if !fields[0].value.Undefined? {
        TextIsPrint(fields[0].value);
        PrintInserted(Field(fields[0].key, Norm(fields[0].value)), NormFields(fields[1..]));
        assert Members(fields)[1..] == Members(fields[1..]);
      }
    }
  }

  // ---------------------------------------------------------------- reading a text back

  predicate Ends(r: string) { r == "" || r[0] == ',' || r[0] == ']' || r[0] == '}' }

  lemma EscapePrefix(c: char, d: char, x: string, y: string)
    requires Escape(c) + x == Escape(d) + y
    ensures c == d && x == y
  {
    var e, f := Escape(c) + x, Escape(d) + y;
    assert e[0] == Escape(c)[0] && f[0] == Escape(d)[0];
    if e[0] == '\\' {
      assert e[1] == Escape(c)[1] && f[1] == Escape(d)[1];
      if e[1] == 'u' {
        assert e[4] == Escape(c)[4] && f[4] == Escape(d)[4];
        assert e[5] == Escape(c)[5] && f[5] == Escape(d)[5];
      }
    }
    assert x == e[|Escape(c)|..] && y == f[|Escape(d)|..];
  }

  /** A quoted string after its opening quote, followed by `x`. */
  function Quoted(s: string, x: string): (q: string)
    ensures q != "" && (q[0] == '\"' <==> s == "")
  {
    if s == "" then "\"" + x else Escape(s[0]) + Quoted(s[1..], x)
  }

  lemma {:induction false} EscapedIs(s: string, x: string)
    ensures EscapeAll(s) + ("\"" + x) == Quoted(s, x)
  {
    if s != "" {
      EscapedIs(s[1..], x);
      Regroup3(Escape(s[0]), EscapeAll(s[1..]), "\"" + x);
    } else {
      assert "" + ("\"" + x) == "\"" + x;
    }
  }

  lemma QuotedIs(s: string, x: string)
    ensures Quote(s) + x == "\"" + Quoted(s, x)
  {
    EscapedIs(s, x);
    Regroup3("\"" + EscapeAll(s), "\"", x);
    Regroup3("\"", EscapeAll(s), "\"" + x);
  }

  lemma {:induction false} QuotedPrefix(s: string, t: string, x: string, y: string)
    requires Quoted(s, x) == Quoted(t, y)
    ensures s == t && x == y
    decreases |s|
  {
    if s == "" || t == "" {
      assert x == ("\"" + x)[1..] && y == ("\"" + y)[1..];
    } else {
      EscapePrefix(s[0], t[0], Quoted(s[1..], x), Quoted(t[1..], y));
      QuotedPrefix(s[1..], t[1..], x, y);
      assert s == [s[0]] + s[1..] && t == [t[0]] + t[1..];
    }
  }

  lemma QuotePrefix(s: string, t: string, x: string, y: string)
    requires Quote(s) + x == Quote(t) + y
    ensures s == t && x == y
  {
    QuotedIs(s, x);
    QuotedIs(t, y);
    assert Quoted(s, x) == ("\"" + Quoted(s, x))[1..] && Quoted(t, y) == ("\"" + Quoted(t, y))[1..];
    QuotedPrefix(s, t, x, y);
  }

  lemma NumeralPrefix(s: Numeral, t: Numeral, x: string, y: string)
    requires Ends(x) && Ends(y)
    requires s + x == t + y
    ensures s == t && x == y
  {
    var e := s + x;
    assert |s| < |e| ==> !NumberChar(e[|s|]);
    assert |t| < |e| ==> !NumberChar(e[|t|]);
    assert |s| == |t|;
    assert s == e[..|s|] && x == e[|s|..] && t == e[..|t|] && y == e[|t|..];
  }

  // What each kind of value starts with.
  predicate Starts(j: Json, c: char) {
    match j
    case Undefined => false
    case Null => c == 'n'
    case Bool(b) => c == if b then 't' else 'f'
    case Num(_) => c == '-' || IsDigit(c, 10)
    case NonFinite => c == 'n'
    case Str(_) => c == '\"'
    case Arr(_) => c == '['
    case Obj(_) => c == '{'
  }

  lemma FirstChar(j: Json)
    ensures if j.Undefined? then Print(j) == "" else Print(j) != "" && Starts(j, Print(j)[0])
  {
  }

  /** No array in the value is a single undefined, and no number is not finite. */
  predicate Proper(j: Json)
    decreases j, 1
  {
    match j
    case Arr(items) => !OnlyUndefined(items) && ProperItems(items)
    case Obj(fields) => ProperFields(fields)
    case _ => !j.NonFinite?
  }

  predicate ProperItems(items: seq<Json>)
    decreases items, 0
  {
    items == [] || (Proper(items[0]) && ProperItems(items[1..]))
  }

  predicate ProperFields(fields: seq<Field>)
    decreases fields, 0
  {
    fields == [] || (Proper(fields[0].value) && ProperFields(fields[1..]))
  }

  lemma Uncons(c: char, p: string, d: char, q: string)
    requires [c] + p == [d] + q
    ensures c == d && p == q
  {
    assert p == ([c] + p)[1..] && q == ([d] + q)[1..];
    assert c == ([c] + p)[0] && d == ([d] + q)[0];
  }

  lemma {:induction false} PrintPrefix(a: Json, b: Json, x: string, y: string)
    requires Proper(a) && Proper(b) && Ends(x) && Ends(y)
    requires Print(a) + x == Print(b) + y
    ensures a == b && x == y
    decreases a, 1
  {
    SameKind(a, b, x, y);
    if a.Num? {
      NumeralPrefix(a.n, b.n, x, y);
    } else if a.Str? {
      QuotePrefix(a.s, b.s, x, y);
    } else if a.Arr? {
      ArrayThen(a.items, x);
      ArrayThen(b.items, y);
      Uncons('[', ItemsThen(a.items, x), '[', ItemsThen(b.items, y));
      ArrayPrefix(a.items, b.items, x, y);
    } else if a.Obj? {
      ObjectThen(a.fields, x);
      ObjectThen(b.fields, y);
      Uncons('{', FieldsThen(a.fields, x), '{', FieldsThen(b.fields, y));
      FieldsPrefix(a.fields, b.fields, x, y);
    } else {
      assert a == b;
      Cancel(Print(a), x, y);
    }
  }

  /** The rest of an array's text after its opening bracket, followed by `x`. */
  function ItemsThen(items: seq<Json>, x: string): string
    decreases |items|, 1
  {
    if items == [] then "]" + x else Print(items[0]) + AfterItem(items, x)
  }

  function AfterItem(items: seq<Json>, x: string): (r: string)
    requires items != []
    ensures Ends(r)
    decreases |items|, 0
  {
    if |items| == 1 then "]" + x else "," + ItemsThen(items[1..], x)
  }

  function FieldsThen(fields: seq<Field>, x: string): string
    decreases |fields|, 1
  {
    if fields == [] then "}" + x else Quote(fields[0].key) + (":" + (Print(fields[0].value) + AfterField(fields, x)))
  }

  function AfterField(fields: seq<Field>, x: string): (r: string)
    requires fields != []
    ensures Ends(r)
    decreases |fields|, 0
  {
    if |fields| == 1 then "}" + x else "," + FieldsThen(fields[1..], x)
  }

  lemma Regroup3(p: string, q: string, x: string)
    ensures p + q + x == p + (q + x)
  {
  }

  lemma Regroup4(p: string, r: string, close: string, x: string)
    ensures p + ("," + r) + close + x == p + ("," + (r + close + x)) && p + "" + close + x == p + (close + x)
  {
  }

  lemma Regroup5(q: string, p: string, t: string, x: string)
    ensures q + ":" + p + t + "}" + x == q + (":" + (p + (t + "}" + x)))
  {
  }

  lemma {:induction false} ItemsThenIs(items: seq<Json>, x: string)
    ensures PrintItems(items) + "]" + x == ItemsThen(items, x)
  {
    if items == [] {
      assert "" + "]" == "]";
    } else {
      Regroup4(Print(items[0]), PrintItems(items[1..]), "]", x);
      ItemsThenIs(items[1..], x);
    }
  }

  lemma ArrayThen(items: seq<Json>, x: string)
    ensures Print(Arr(items)) + x == ['['] + ItemsThen(items, x)
  {
    ItemsThenIs(items, x);
    Regroup3("[" + PrintItems(items), "]", x);
    Regroup3("[", PrintItems(items), "]" + x);
    Regroup3(PrintItems(items), "]", x);
  }

  lemma {:induction false} FieldsThenIs(fields: seq<Field>, x: string)
    ensures PrintFields(fields) + "}" + x == FieldsThen(fields, x)
  {
    if fields == [] {
      assert "" + "}" == "}";
    } else {
      var rest := PrintFields(fields[1..]);
      var t := if |fields| == 1 then "" else "," + rest;
      Regroup5(Quote(fields[0].key), Print(fields[0].value), t, x);
      FieldsThenIs(fields[1..], x);
      TailThen(rest, x);
    }
  }

  lemma TailThen(rest: string, x: string)
    ensures "" + "}" + x == "}" + x && "," + rest + "}" + x == "," + (rest + "}" + x)
  {
  }

  lemma ObjectThen(fields: seq<Field>, x: string)
    ensures Print(Obj(fields)) + x == ['{'] + FieldsThen(fields, x)
  {
    FieldsThenIs(fields, x);
    Regroup3("{" + PrintFields(fields), "}", x);
    Regroup3("{", PrintFields(fields), "}" + x);
    Regroup3(PrintFields(fields), "}", x);
  }

  lemma Cancel(p: string, x: string, y: string)
    requires p + x == p + y
    ensures x == y
  {
    assert x == (p + x)[|p|..] && y == (p + y)[|p|..];
  }

  lemma SameKind(a: Json, b: Json, x: string, y: string)
    requires Proper(a) && Proper(b) && Ends(x) && Ends(y) && Print(a) + x == Print(b) + y
    ensures a.Undefined? == b.Undefined? && a.Null? == b.Null? && a.Num? == b.Num? && a.Str? == b.Str?
    ensures a.Arr? == b.Arr? && a.Obj? == b.Obj?
    ensures a.Bool? == b.Bool? && (a.Bool? ==> a == b)
  {
    FirstChar(a);
    FirstChar(b);
    var e, f := Print(a) + x, Print(b) + y;
    if !a.Undefined? {
      assert e[0] == Print(a)[0];
    }
    if !b.Undefined? {
      assert f[0] == Print(b)[0];
    }
  }

  lemma ItemsStart(items: seq<Json>, x: string)
    requires !OnlyUndefined(items)
    ensures ItemsThen(items, x) != "" && (ItemsThen(items, x)[0] == ']' <==> items == [])
  {
    if items != [] {
      FirstChar(items[0]);
    }
  }

  lemma {:induction false} ArrayPrefix(xs: seq<Json>, ys: seq<Json>, x: string, y: string)
    requires ProperItems(xs) && ProperItems(ys) && !OnlyUndefined(xs) && !OnlyUndefined(ys)
    requires ItemsThen(xs, x) == ItemsThen(ys, y)
    ensures xs == ys && x == y
    decreases xs, 1
  {
    ItemsStart(xs, x);
    ItemsStart(ys, y);
    if xs == [] {
      Uncons(']', x, ']', y);
    } else {
      ItemsPrefix(xs, ys, x, y);
    }
  }

  lemma {:induction false} ItemsPrefix(xs: seq<Json>, ys: seq<Json>, x: string, y: string)
    requires ProperItems(xs) && ProperItems(ys) && xs != [] && ys != []
    requires ItemsThen(xs, x) == ItemsThen(ys, y)
    ensures xs == ys && x == y
    decreases xs, 0
  {
    PrintPrefix(xs[0], ys[0], AfterItem(xs, x), AfterItem(ys, y));
    AfterItems(xs, ys, x, y);
    if |xs| > 1 {
      ItemsPrefix(xs[1..], ys[1..], x, y);
    }
    assert xs == [xs[0]] + xs[1..] && ys == [ys[0]] + ys[1..];
  }

  lemma AfterItems(xs: seq<Json>, ys: seq<Json>, x: string, y: string)
    requires xs != [] && ys != [] && AfterItem(xs, x) == AfterItem(ys, y)
    ensures |xs| == 1 <==> |ys| == 1
    ensures if |xs| == 1 then x == y else ItemsThen(xs[1..], x) == ItemsThen(ys[1..], y)
  {
    Uncons(AfterItem(xs, x)[0], AfterItem(xs, x)[1..], AfterItem(ys, y)[0], AfterItem(ys, y)[1..]);
    if |xs| == 1 {
      Uncons(']', x, ']', y);
    } else {
      Uncons(',', ItemsThen(xs[1..], x), ',', ItemsThen(ys[1..], y));
    }
  }

  lemma AfterFields(fs: seq<Field>, gs: seq<Field>, x: string, y: string)
    requires fs != [] && gs != [] && AfterField(fs, x) == AfterField(gs, y)
    ensures |fs| == 1 <==> |gs| == 1
    ensures if |fs| == 1 then x == y else FieldsThen(fs[1..], x) == FieldsThen(gs[1..], y)
  {
    Uncons(AfterField(fs, x)[0], AfterField(fs, x)[1..], AfterField(gs, y)[0], AfterField(gs, y)[1..]);
    if |fs| == 1 {
      Uncons('}', x, '}', y);
    } else {
      Uncons(',', FieldsThen(fs[1..], x), ',', FieldsThen(gs[1..], y));
    }
  }

  lemma FieldsStart(fields: seq<Field>, x: string)
    ensures FieldsThen(fields, x) != "" && FieldsThen(fields, x)[0] == if fields == [] then '}' else '\"'
  {
    if fields != [] {
      assert Quote(fields[0].key)[0] == '\"';
    }
  }

  lemma {:induction false} FieldsPrefix(fs: seq<Field>, gs: seq<Field>, x: string, y: string)
    requires ProperFields(fs) && ProperFields(gs)
    requires FieldsThen(fs, x) == FieldsThen(gs, y)
    ensures fs == gs && x == y
    decreases fs, 0
  {
    FieldsStart(fs, x);
    FieldsStart(gs, y);
    if fs == [] {
      Uncons('}', x, '}', y);
    } else {
      var u, v := Print(fs[0].value) + AfterField(fs, x), Print(gs[0].value) + AfterField(gs, y);
      QuotePrefix(fs[0].key, gs[0].key, ":" + u, ":" + v);
      Uncons(':', u, ':', v);
      PrintPrefix(fs[0].value, gs[0].value, AfterField(fs, x), AfterField(gs, y));
      AfterFields(fs, gs, x, y);
      if |fs| > 1 {
        FieldsPrefix(fs[1..], gs[1..], x, y);
      }
      assert fs == [fs[0]] + fs[1..] && gs == [gs[0]] + gs[1..];
    }
  }

  // ---------------------------------------------------------------- normal form and meaning

  lemma {:induction false} LessTransitive(a: string, b: string, c: string)
    requires Less(a, b) && Less(b, c)
    ensures Less(a, c)
  {
    if a != "" && a[0] == b[0] && b[0] == c[0] {
      LessTransitive(a[1..], b[1..], c[1..]);
    }
  }

  lemma {:induction false} LessTotal(a: string, b: string)
    ensures !(Less(a, b) && Less(b, a))
    ensures a == b || Less(a, b) || Less(b, a)
    ensures !Less(a, a)
  {
    if a != "" && b != "" {
      LessTotal(a[1..], b[1..]);
      if a[0] == b[0] {
        assert a == [a[0]] + a[1..] && b == [b[0]] + b[1..];
      }
    }
    if a != "" {
      LessTotal(a[1..], a[1..]);
    }
  }

  /** Keys strictly increase and nothing is undefined. */
  predicate Sorted(fs: seq<Field>) {
    fs == [] || (!fs[0].value.Undefined? && Sorted(fs[1..]) && (|fs| > 1 ==> Less(fs[0].key, fs[1].key)))
  }

  lemma {:induction false} AbsentBelow(fs: seq<Field>, key: string)
    requires Sorted(fs) && (fs != [] ==> Less(key, fs[0].key))
    ensures Lookup(fs, key).Undefined?
  {
    if fs != [] {
      LessTotal(key, fs[0].key);
      if |fs| > 1 {
        LessTransitive(key, fs[0].key, fs[1].key);
      }
      AbsentBelow(fs[1..], key);
    }
  }

  lemma {:induction false} LookupInserted(f: Field, fs: seq<Field>, key: string)
    requires Sorted(fs) && Lookup(fs, f.key).Undefined? && !f.value.Undefined?
    ensures Sorted(InsertField(f, fs))
    ensures Lookup(InsertField(f, fs), key) == if key == f.key then f.value else Lookup(fs, key)
  {
    var r := InsertField(f, fs);
    if fs == [] || Less(f.key, fs[0].key) {
      assert r[1..] == fs;
    } else {
      LessTotal(f.key, fs[0].key);
      LookupInserted(f, fs[1..], key);
      assert r[1..] == InsertField(f, fs[1..]);
      assert r[1] == f || r[1] == fs[1];
    }
  }

  lemma {:induction false} LookupNorm(fields: seq<Field>, key: string)
    requires Distinct(fields)
    ensures Sorted(NormFields(fields))
    ensures Lookup(NormFields(fields), key) == Norm(Lookup(fields, key))
  {
    if fields != [] {
      var f := fields[0];
      LookupNorm(fields[1..], key);
      LookupNorm(fields[1..], f.key);
      AbsentKey(fields[1..], f.key);
      if !f.value.Undefined? {
        LookupInserted(Field(f.key, Norm(f.value)), NormFields(fields[1..]), key);
      }
    }
  }

  lemma {:induction false} AbsentKey(fields: seq<Field>, key: string)
    requires forall f <- fields :: f.key != key
    ensures Lookup(fields, key).Undefined?
  {
    if fields != [] {
      assert fields[0] in fields && forall f <- fields[1..] :: f in fields;
      AbsentKey(fields[1..], key);
    }
  }

  function FirstKey(fs: seq<Field>): string { if fs == [] then "" else fs[0].key }

  /** Sorted objects that read alike are listed alike. */
  lemma {:induction false} SortedUnique(fs: seq<Field>, gs: seq<Field>)
    requires Sorted(fs) && Sorted(gs)
    requires forall key :: Lookup(fs, key) == Lookup(gs, key)
    ensures fs == gs
  {
    if fs == [] || gs == [] {
      var _, _ := Lookup(fs, FirstKey(fs)), Lookup(gs, FirstKey(gs));
    } else {
      var a, b := fs[0].key, gs[0].key;
      assert Lookup(fs, a) == Lookup(gs, a) && Lookup(fs, b) == Lookup(gs, b);
      LessTotal(a, b);
      if Less(a, b) {
        AbsentBelow(gs, a);
      } else if Less(b, a) {
        AbsentBelow(fs, b);
      }
      assert a == b;
      AbsentBelow(fs[1..], a);
      AbsentBelow(gs[1..], a);
      forall key ensures Lookup(fs[1..], key) == Lookup(gs[1..], key) {
        assert Lookup(fs, key) == Lookup(gs, key);
      }
      SortedUnique(fs[1..], gs[1..]);
      assert fs == [fs[0]] + fs[1..] && gs == [gs[0]] + gs[1..];
    }
  }

  /** Values normalise alike exactly when they say the same. */
  lemma {:induction false} NormSame(a: Json, b: Json)
    requires WellFormed(a) && WellFormed(b)
    ensures Norm(a) == Norm(b) <==> Same(a, b)
    decreases a, 1
  {
    match (a, b)
    case (Arr(xs), Arr(ys)) =>
      NormSameItems(xs, ys);
      if |xs| == 1 && xs[0].Undefined? { assert Norm(a) == Arr([]); }
    case (Obj(fs), Obj(gs)) =>
      NormSameFields(fs, gs);
    case (_, _) =>
  }

  lemma {:induction false} NormSameItems(xs: seq<Json>, ys: seq<Json>)
    requires (forall x <- xs :: WellFormed(x)) && (forall y <- ys :: WellFormed(y))
    ensures NormItems(xs) == NormItems(ys) <==> SameItems(xs, ys)
    decreases xs, 0
  {
    if |xs| == |ys| && xs != [] {
      assert xs[0] in xs && ys[0] in ys;
      assert (forall x <- xs[1..] :: x in xs) && (forall y <- ys[1..] :: y in ys);
      NormSame(xs[0], ys[0]);
      NormSameItems(xs[1..], ys[1..]);
      assert NormItems(xs)[1..] == NormItems(xs[1..]) && NormItems(ys)[1..] == NormItems(ys[1..]);
    }
  }

  lemma {:induction false} NormSameFields(fs: seq<Field>, gs: seq<Field>)
    requires Distinct(fs) && Distinct(gs)
    requires (forall f <- fs :: WellFormed(f.value)) && (forall g <- gs :: WellFormed(g.value))
    ensures NormFields(fs) == NormFields(gs) <==> Covers(gs, fs) && Within(gs, fs)
    decreases fs, 1
  {
    NormCovers(fs, gs);
    if NormFields(fs) == NormFields(gs) {
      forall key ensures Norm(Lookup(fs, key)) == Norm(Lookup(gs, key)) {
        LookupNorm(fs, key);
        LookupNorm(gs, key);
      }
      forall f | f in fs ensures Norm(f.value) == Norm(Lookup(gs, f.key)) {
        LookupOwn(fs, f);
      }
      forall g | g in gs ensures g.value.Undefined? || !Lookup(fs, g.key).Undefined? {
        LookupOwn(gs, g);
        NormProper(g.value);
        NormProper(Lookup(fs, g.key));
      }
    } else if Covers(gs, fs) && Within(gs, fs) {
      LookupNorm(fs, "");
      LookupNorm(gs, "");
      forall key ensures Lookup(NormFields(fs), key) == Lookup(NormFields(gs), key) {
        LookupNorm(fs, key);
        LookupNorm(gs, key);
        var v, w := Lookup(fs, key), Lookup(gs, key);
        if !v.Undefined? {
          assert Norm(Field(key, v).value) == Norm(w);
        }
      }
      SortedUnique(NormFields(fs), NormFields(gs));
    }
  }

  lemma {:induction false} NormCovers(fs: seq<Field>, gs: seq<Field>)
    requires (forall f <- fs :: WellFormed(f.value)) && (forall g <- gs :: WellFormed(g.value))
    ensures Covers(gs, fs) <==> forall f <- fs :: Norm(f.value) == Norm(Lookup(gs, f.key))
    decreases fs, 0
  {
    if fs != [] {
      assert fs[0] in fs && (forall f <- fs[1..] :: f in fs);
      NormCovers(fs[1..], gs);
      var w := Lookup(gs, fs[0].key);
      assert WellFormed(w);
      NormSame(fs[0].value, w);
      assert forall f <- fs :: f == fs[0] || f in fs[1..];
    }
  }

  lemma {:induction false} LookupOwn(fs: seq<Field>, f: Field)
    requires Distinct(fs) && f in fs
    ensures Lookup(fs, f.key) == f.value
  {
    if fs[0] != f {
      assert f in fs[1..];
      LookupOwn(fs[1..], f);
    }
  }

  lemma {:induction false} NormProper(j: Json)
    ensures Proper(Norm(j)) && (j.Undefined? <==> Norm(j).Undefined?)
    decreases j, 1
  {
    match j
    case Arr(items) => if !OnlyUndefined(items) { NormItemsProper(items); }
    case Obj(fields) => NormFieldsProper(fields);
    case _ =>
  }

  lemma {:induction false} NormItemsProper(items: seq<Json>)
    ensures ProperItems(NormItems(items)) && OnlyUndefined(NormItems(items)) == OnlyUndefined(items)
    decreases items, 0
  {
    if items != [] {
      NormProper(items[0]);
      NormItemsProper(items[1..]);
      assert NormItems(items)[1..] == NormItems(items[1..]);
    }
  }

  lemma {:induction false} NormFieldsProper(fields: seq<Field>)
    ensures ProperFields(NormFields(fields))
    decreases fields, 0
  {
    if fields != [] {
      NormFieldsProper(fields[1..]);
      NormProper(fields[0].value);
      InsertProper(Field(fields[0].key, Norm(fields[0].value)), NormFields(fields[1..]));
    }
  }

  lemma {:induction false} InsertProper(f: Field, fs: seq<Field>)
    requires Proper(f.value) && ProperFields(fs)
    ensures ProperFields(InsertField(f, fs))
  {
    if !(fs == [] || Less(f.key, fs[0].key)) {
      InsertProper(f, fs[1..]);
      assert InsertField(f, fs)[1..] == InsertField(f, fs[1..]);
    } else {
      assert ([f] + fs)[1..] == fs;
    }
  }

  // ---------------------------------------------------------------- the theorem

  /** Two values have the same canonical text exactly when they say the same: key order and
      undefined members never matter, everything else always does. */
  lemma TextDecides(a: Json, b: Json)
    requires WellFormed(a) && WellFormed(b)
    ensures Text(a) == Text(b) <==> Same(a, b)
  {
    TextIsPrint(a);
    TextIsPrint(b);
    NormSame(a, b);
    if Text(a) == Text(b) {
      NormProper(a);
      NormProper(b);
      PrintPrefix(Norm(a), Norm(b), "", "");
    }
  }

  /** The listing order of the keys and members set to undefined do not reach the text. */
  lemma OrderIrrelevant(fs: seq<Field>, gs: seq<Field>)
    requires WellFormed(Obj(fs)) && WellFormed(Obj(gs))
    requires forall f: Field :: !f.value.Undefined? ==> (f in fs <==> f in gs)
    ensures Text(Obj(fs)) == Text(Obj(gs))
  {
    forall f | f in fs ensures Norm(f.value) == Norm(Lookup(gs, f.key)) {
      LookupOwn(fs, f);
      if !f.value.Undefined? {
        LookupOwn(gs, f);
      } else if !Lookup(gs, f.key).Undefined? {
        LookupOwn(fs, Field(f.key, Lookup(gs, f.key)));
      }
    }
    forall g | g in gs ensures g.value.Undefined? || !Lookup(fs, g.key).Undefined? {
      if !g.value.Undefined? {
        LookupOwn(fs, g);
      }
    }
    NormCovers(fs, gs);
    TextDecides(Obj(fs), Obj(gs));
  }

  lemma {:induction false} CoversAt(fs: seq<Field>, gs: seq<Field>, i: nat)
    requires i < |fs| && Covers(gs, fs)
    ensures Same(fs[i].value, Lookup(gs, fs[i].key))
  {
    if i > 0 {
      CoversAt(fs[1..], gs, i - 1);
    }
  }

  /** Objects with the same keys and the same text agree member by member. */
  lemma FieldsAgree(fs: seq<Field>, gs: seq<Field>)
    requires WellFormed(Obj(fs)) && WellFormed(Obj(gs)) && |fs| == |gs|
    requires forall i :: 0 <= i < |fs| ==> fs[i].key == gs[i].key
    requires Text(Obj(fs)) == Text(Obj(gs))
    ensures forall i :: 0 <= i < |fs| ==> Same(fs[i].value, gs[i].value)
  {
    TextDecides(Obj(fs), Obj(gs));
    forall i | 0 <= i < |fs| ensures Same(fs[i].value, gs[i].value) {
      LookupOwn(gs, gs[i]);
      CoversAt(fs, gs, i);
    }
  }

  lemma SameString(s: string, t: string)
    requires Same(Str(s), Str(t))
    ensures s == t
  {
  }

  lemma {:induction false} SameStrings(a: seq<string>, b: seq<string>)
    requires SameItems(Strings(a), Strings(b))
    ensures a == b
  {
    if a != [] {
      assert Strings(a)[0] == Str(a[0]) && Strings(b)[0] == Str(b[0]);
      SameString(a[0], b[0]);
      assert Strings(a)[1..] == Strings(a[1..]) && Strings(b)[1..] == Strings(b[1..]);
      SameStrings(a[1..], b[1..]);
      assert a == [a[0]] + a[1..] && b == [b[0]] + b[1..];
    }
  }

  lemma SameArgs(a: seq<string>, b: seq<string>)
    requires Same(Arr(Strings(a)), Arr(Strings(b)))
    ensures a == b
  {
    if SameItems(Strings(a), Strings(b)) {
      SameStrings(a, b);
    }
  }

  lemma CommandsAgree(c: Command, d: Command)
    requires CommandPayload(c) == CommandPayload(d)
    ensures Same(Str(c.id), Str(d.id)) && Same(Str(c.connectorId), Str(d.connectorId))
    ensures Same(Str(c.command), Str(d.command)) && Same(Arr(Strings(c.args)), Arr(Strings(d.args)))
    ensures Same(Str(c.createdAt), Str(d.createdAt)) && Same(Str(c.createdBy), Str(d.createdBy))
  {
    CommandKeys(c, d);
    FieldsAgree(CommandObject(c).fields, CommandObject(d).fields);
    CommandValues(c);
    CommandValues(d);
  }

  lemma CommandKeys(c: Command, d: Command)
    ensures var fs, gs := CommandObject(c).fields, CommandObject(d).fields;
      |fs| == |gs| && forall i :: 0 <= i < |fs| ==> fs[i].key == gs[i].key
  {
  }

  lemma CommandValues(c: Command)
    ensures var fs := CommandObject(c).fields;
      && |fs| == 6
      && fs[0].value == Str(c.id) && fs[1].value == Str(c.connectorId) && fs[2].value == Str(c.command)
      && fs[3].value == Arr(Strings(c.args)) && fs[4].value == Str(c.createdAt) && fs[5].value == Str(c.createdBy)
  {
  }

  /** Commands with the same signature payload agree on every signed field. */
  lemma CommandPayloadInjective(c: Command, d: Command)
    requires CommandPayload(c) == CommandPayload(d)
    ensures c == d
  {
    CommandsAgree(c, d);
    SameString(c.id, d.id);
    SameString(c.connectorId, d.connectorId);
    SameString(c.command, d.command);
    SameArgs(c.args, d.args);
    SameString(c.createdAt, d.createdAt);
    SameString(c.createdBy, d.createdBy);
  }

  function ExitCode(r: CommandResult): Json { if r.exitCode.None? then Undefined else Num(Number(r.exitCode.value)) }

  lemma ResultsAgree(r: CommandResult, s: CommandResult)
    requires ResultPayload(r) == ResultPayload(s)
    ensures Same(Str(r.commandId), Str(s.commandId)) && Same(Str(r.status), Str(s.status))
    ensures Same(ExitCode(r), ExitCode(s))
    ensures Same(Str(r.stdoutTail), Str(s.stdoutTail)) && Same(Str(r.stderrTail), Str(s.stderrTail))
  {
    ResultKeys(r, s);
    FieldsAgree(ResultObject(r).fields, ResultObject(s).fields);
    ResultValues(r);
    ResultValues(s);
  }

  lemma ResultKeys(r: CommandResult, s: CommandResult)
    ensures var fs, gs := ResultObject(r).fields, ResultObject(s).fields;
      |fs| == |gs| && forall i :: 0 <= i < |fs| ==> fs[i].key == gs[i].key
  {
  }

  lemma ResultValues(r: CommandResult)
    ensures var fs := ResultObject(r).fields;
      && |fs| == 5
      && fs[0].value == Str(r.commandId) && fs[1].value == Str(r.status) && fs[2].value == ExitCode(r)
      && fs[3].value == Str(r.stdoutTail) && fs[4].value == Str(r.stderrTail)
  {
  }

  /** Results with the same signature payload agree on every signed field, a missing exit code included. */
  lemma ResultPayloadInjective(r: CommandResult, s: CommandResult)
    requires ResultPayload(r) == ResultPayload(s)
    ensures r == s
  {
    ResultsAgree(r, s);
    SameString(r.commandId, s.commandId);
    SameString(r.status, s.status);
    SameExitCode(r, s);
    SameString(r.stdoutTail, s.stdoutTail);
    SameString(r.stderrTail, s.stderrTail);
  }

  lemma NumberInjective(m: int, n: int)
    requires Number(m) == Number(n)
    ensures m == n
  {
    assert m < 0 ==> Number(m)[0] == '-' && Number(m)[1..] == Digits(-m, 10);
    assert n < 0 ==> Number(n)[0] == '-' && Number(n)[1..] == Digits(-n, 10);
    assert IsDigit(Digits(if m < 0 then 0 else m, 10)[0], 10) && IsDigit(Digits(if n < 0 then 0 else n, 10)[0], 10);
    if m < 0 {
      DigitsInjective(-m, -n, 10);
    } else {
      DigitsInjective(m, n, 10);
    }
  }

  lemma SameExitCode(r: CommandResult, s: CommandResult)
    requires Same(ExitCode(r), ExitCode(s))
    ensures r.exitCode == s.exitCode
  {
    if r.exitCode.Some? && s.exitCode.Some? {
      NumberInjective(r.exitCode.value, s.exitCode.value);
    }
  }
}
