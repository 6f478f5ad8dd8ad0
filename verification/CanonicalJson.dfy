/** The canonical JSON text that connector commands and results are signed over. Strings are
    quoted as in section 7 of RFC 8259; object keys are sorted and undefined members dropped,
    so that the text depends only on what the value says. */
module CanonicalJson {
  import opened Collections
  import opened Numerals
  import opened Wrappers

  predicate NumberChar(c: char) { IsDigit(c, 10) || c == '-' || c == '+' || c == '.' || c == 'e' }

  /** A finite number by the text `String(n)` prints it as; only the sign of zero is not told by it. */
  type Numeral = s: string | IsNumberText(s) witness "0"

  predicate IsNumberText(s: string) {
    s != "" && (s[0] == '-' || IsDigit(s[0], 10)) && forall i :: 0 <= i < |s| ==> NumberChar(s[i])
  }

  /** A JavaScript value as `canonicalJson` sees it; objects list their own keys in any order. */
  datatype Json =
    | Undefined
    | Null
    | Bool(b: bool)
    | Num(n: Numeral)
    | NonFinite
    | Str(s: string)
    | Arr(items: seq<Json>)
    | Obj(fields: seq<Field>)

  datatype Field = Field(key: string, value: Json)

  datatype Member = Member(key: string, text: string)

  // ---------------------------------------------------------------- the printer

  function Hex(d: nat): char
    requires d < 16
  {
    if d < 10 then DigitChar(d) else ('a' as int + d - 10) as char
  }

  function Escape(c: char): (e: string)
    ensures e != ""
  {
    if c == '\"' then "\\\""
    else if c == '\\' then "\\\\"
    else if c as int == 8 then "\\b"
    else if c as int == 12 then "\\f"
    else if c == '\n' then "\\n"
    else if c == '\r' then "\\r"
    else if c == '\t' then "\\t"
    else if (c as int) < 32 then "\\u00" + [Hex(c as int / 16), Hex(c as int % 16)]
    else [c]
  }

  function EscapeAll(s: string): string {
    if s == "" then "" else Escape(s[0]) + EscapeAll(s[1..])
  }

  function Quote(s: string): string { "\"" + EscapeAll(s) + "\"" }

  /** An integer as it prints below ten to the twenty-first. */
  function Number(n: int): Numeral { if n < 0 then "-" + Digits(-n, 10) else Digits(n, 10) }

  /** Where the first code unit of a character puts it: those written as surrogate pairs go before the
      last 8192 of the basic plane. */
  function Rank(c: char): nat { if 0xE000 <= c as int < 0x1_0000 then c as int + 0x11_0000 else c as int }

  /** Order of the code units, as `Array.prototype.sort` compares strings. */
  predicate Less(a: string, b: string) {
    b != "" && (a == "" || Rank(a[0]) < Rank(b[0]) || (a[0] == b[0] && Less(a[1..], b[1..])))
  }

  function InsertMember(m: Member, ms: seq<Member>): seq<Member> {
    if ms == [] || Less(m.key, ms[0].key) then [m] + ms else [ms[0]] + InsertMember(m, ms[1..])
  }

  function SortMembers(ms: seq<Member>): seq<Member> {
    if ms == [] then [] else InsertMember(ms[0], SortMembers(ms[1..]))
  }

  function MemberTexts(ms: seq<Member>): (r: seq<string>)
    ensures |r| == |ms|
  {
    seq(|ms|, i requires 0 <= i < |ms| => Quote(ms[i].key) + ":" + ms[i].text)
  }

  /** `canonicalJson`; an undefined array element prints as nothing, like `Array.prototype.join` does. */
  function Text(j: Json): string
    decreases j, 1
  {
    match j
    case Undefined => ""
    case Null => "null"
    case Bool(b) => if b then "true" else "false"
    case Num(n) => n
    case NonFinite => "null"
    case Str(s) => Quote(s)
    case Arr(items) => "[" + Join(Texts(items), ",") + "]"
    case Obj(fields) => "{" + Join(MemberTexts(SortMembers(Members(fields))), ",") + "}"
  }

  function Texts(items: seq<Json>): (r: seq<string>)
    ensures |r| == |items|
    decreases items, 0
  {
    if items == [] then [] else [Text(items[0])] + Texts(items[1..])
  }

  function Members(fields: seq<Field>): seq<Member>
    decreases fields, 0
  {
    if fields == [] then []
    else if fields[0].value.Undefined? then Members(fields[1..])
    else [Member(fields[0].key, Text(fields[0].value))] + Members(fields[1..])
  }

  // ---------------------------------------------------------------- what a value says

  /** `record[key]`: undefined when absent. */
  function Lookup(fields: seq<Field>, key: string): (v: Json)
    ensures v == Undefined || Field(key, v) in fields
  {
    if fields == [] then Undefined
    else if fields[0].key == key then
      assert fields[0] == Field(key, fields[0].value);
      fields[0].value
    else Lookup(fields[1..], key)
  }

  /** Keys of an object are distinct. */
  predicate WellFormed(j: Json)
    decreases j
  {
    match j
    case Arr(items) => forall i <- items :: WellFormed(i)
    case Obj(fields) => Distinct(fields) && forall f <- fields :: WellFormed(f.value)
    case _ => true
  }

  predicate Distinct(fields: seq<Field>) {
    forall i, j :: 0 <= i < j < |fields| ==> fields[i].key != fields[j].key
  }

  /** A number that is not finite prints as null. */
  function Finite(j: Json): Json { if j.NonFinite? then Null else j }

  predicate OnlyUndefined(items: seq<Json>) { |items| == 1 && items[0].Undefined? }

  /** Two values say the same: every key reads the same in both objects, an absent key reading as
      undefined, whatever the order of the members. Two quirks of printing come on top: an array of a single
      undefined says the same as an empty one, and a number that is not finite the same as null. */
  predicate Same(a: Json, b: Json)
    decreases a
  {
    match (a, b)
    case (Arr(xs), Arr(ys)) => SameItems(xs, ys) || (Blank(xs) && Blank(ys))
    case (Obj(fs), Obj(gs)) => Covers(gs, fs) && Within(gs, fs)
    case (Arr(_), _) => false
    case (Obj(_), _) => false
    case (_, _) => Finite(a) == Finite(b)
  }

  predicate SameItems(xs: seq<Json>, ys: seq<Json>)
    decreases xs
  {
    |xs| == |ys| && (xs != [] ==> Same(xs[0], ys[0]) && SameItems(xs[1..], ys[1..]))
  }

  /** Every member of `fs` reads the same in `gs`. */
  predicate Covers(gs: seq<Field>, fs: seq<Field>)
    decreases fs
  {
    fs == [] || (Same(fs[0].value, Lookup(gs, fs[0].key)) && Covers(gs, fs[1..]))
  }

  /** Every member of `gs` that is not undefined is one of `fs`. */
  predicate Within(gs: seq<Field>, fs: seq<Field>) {
    forall g <- gs :: g.value.Undefined? || !Lookup(fs, g.key).Undefined?
  }

  predicate Blank(items: seq<Json>) { items == [] || OnlyUndefined(items) }

  // ---------------------------------------------------------------- signature payloads

  /** The fields of a connector command that its signature covers. */
  datatype Command = Command(id: string, connectorId: string, command: string, args: seq<string>,
                             createdAt: string, createdBy: string)

  /** The fields of a command result that its signature covers. */
  datatype CommandResult = CommandResult(commandId: string, status: string, exitCode: Option<int>,
                                         stdoutTail: string, stderrTail: string)

  function Strings(args: seq<string>): seq<Json> {
    seq(|args|, i requires 0 <= i < |args| => Str(args[i]))
  }

  function CommandObject(c: Command): (j: Json)
    ensures WellFormed(j)
  {
    Obj([Field("id", Str(c.id)), Field("connectorId", Str(c.connectorId)), Field("command", Str(c.command)),
         Field("args", Arr(Strings(c.args))), Field("createdAt", Str(c.createdAt)),
         Field("createdBy", Str(c.createdBy))])
  }

  function ResultObject(r: CommandResult): (j: Json)
    ensures WellFormed(j)
  {
    Obj([Field("commandId", Str(r.commandId)), Field("status", Str(r.status)),
         Field("exitCode", if r.exitCode.None? then Undefined else Num(Number(r.exitCode.value))),
         Field("stdoutTail", Str(r.stdoutTail)), Field("stderrTail", Str(r.stderrTail))])
  }

  function CommandPayload(c: Command): string { Text(CommandObject(c)) }

  function ResultPayload(r: CommandResult): string { Text(ResultObject(r)) }
}
