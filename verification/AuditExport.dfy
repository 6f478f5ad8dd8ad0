/** Reading the audit log out: the CSV export, with quoted cells as in section 2 of RFC 4180 and
    line feeds between records, and the pages that follow a numeric cursor. */
module AuditExport {
  import opened Collections
  import opened Numerals
  import opened Wrappers

  // ---------------------------------------------------------------- CSV

  /** An audit event, every field as its text. */
  datatype Event = Event(
    id: string, time: string, actor: string, action: string, target: string, ip: Option<string>,
    status: string, detail: Option<string>, previousHash: Option<string>, chainHash: Option<string>)

  const HEADER: seq<string> :=
    ["id", "time", "actor", "action", "target", "ip", "status", "detail", "previousHash", "chainHash"]

  function Columns(e: Event): (r: seq<Option<string>>)
    ensures |r| == |HEADER|
  {
    [Some(e.id), Some(e.time), Some(e.actor), Some(e.action), Some(e.target), e.ip, Some(e.status), e.detail,
     e.previousHash, e.chainHash]
  }

  function DoubleQuotes(s: string): string {
    if s == "" then "" else (if s[0] == '\"' then "\"\"" else [s[0]]) + DoubleQuotes(s[1..])
  }

  function OrEmpty(v: Option<string>): string { if v.Some? then v.value else "" }

  function Cell(v: Option<string>): string { "\"" + DoubleQuotes(OrEmpty(v)) + "\"" }

  function Row(cells: seq<Option<string>>): string {
    Join(seq(|cells|, i requires 0 <= i < |cells| => Cell(cells[i])), ",")
  }

  function Lines(events: seq<Event>): seq<string> {
    if events == [] then [] else [Row(Columns(events[0]))] + Lines(events[1..])
  }

  function ToCsv(events: seq<Event>): string {
    Join([Join(HEADER, ",")] + Lines(events), "\n")
  }

  // An independent reader: cells may be quoted or plain, records end at a line feed.

  datatype CellRead = Broken | Read(cell: string, rest: string)

  datatype RecordRead = BrokenRecord | Record(cells: seq<string>, rest: string)

  function ReadQuoted(s: string): (r: CellRead)
    ensures r.Read? ==> |r.rest| < |s|
  {
    if s == "" then Broken
    else if s[0] == '\"' && (|s| == 1 || s[1] != '\"') then Read("", s[1..])
    else
      var next := if s[0] == '\"' then s[2..] else s[1..];
      match ReadQuoted(next)
      case Broken => Broken
      case Read(cell, rest) => Read([s[0]] + cell, rest)
  }

  function ReadPlain(s: string): (r: CellRead)
    ensures r.Read? && |r.rest| <= |s|
  {
    if s == "" || s[0] == ',' || s[0] == '\n' then Read("", s)
    else
      var r := ReadPlain(s[1..]);
      Read([s[0]] + r.cell, r.rest)
  }

  function ReadCell(s: string): (r: CellRead)
    ensures r.Read? ==> |r.rest| <= |s|
  {
    if s != "" && s[0] == '\"' then ReadQuoted(s[1..]) else ReadPlain(s)
  }

  function ReadRecord(s: string): (r: RecordRead)
    ensures r.Record? ==> |r.rest| <= |s|
    decreases |s|
  {
    match ReadCell(s)
    case Broken => BrokenRecord
    case Read(cell, rest) =>
      if rest != "" && rest[0] == ',' then
        match ReadRecord(rest[1..])
        case BrokenRecord => BrokenRecord
        case Record(cells, after) => Record([cell] + cells, after)
      else Record([cell], rest)
  }

  function ReadTable(s: string): Option<seq<seq<string>>>
    decreases |s|
  {
    match ReadRecord(s)
    case BrokenRecord => None
    case Record(cells, rest) =>
      if rest == "" then Some([cells])
      else if rest[0] != '\n' then None
      else match ReadTable(rest[1..])
        case None => None
        case Some(table) => Some([cells] + table)
  }

  predicate AtBoundary(rest: string) { rest == "" || rest[0] == ',' || rest[0] == '\n' }

  lemma {:induction false} ReadQuotedCell(v: string, rest: string)
    requires AtBoundary(rest)
    ensures ReadQuoted(DoubleQuotes(v) + "\"" + rest) == Read(v, rest)
  {
    var s := DoubleQuotes(v) + "\"" + rest;
    if v == "" {
      assert s[1..] == rest;
    } else {
      var tail := DoubleQuotes(v[1..]) + "\"" + rest;
      assert s == (if v[0] == '\"' then "\"\"" else [v[0]]) + tail;
      assert (if v[0] == '\"' then s[2..] else s[1..]) == tail;
      ReadQuotedCell(v[1..], rest);
      assert v == [v[0]] + v[1..];
    }
  }

  lemma ReadOwnCell(v: Option<string>, rest: string)
    requires AtBoundary(rest)
    ensures ReadCell(Cell(v) + rest) == Read(OrEmpty(v), rest)
  {
    ReadQuotedCell(OrEmpty(v), rest);
    assert (Cell(v) + rest)[1..] == DoubleQuotes(OrEmpty(v)) + "\"" + rest;
  }

  function Texts(cells: seq<Option<string>>): seq<string> {
    seq(|cells|, i requires 0 <= i < |cells| => OrEmpty(cells[i]))
  }

  lemma RowSplit(cells: seq<Option<string>>, rest: string)
    requires |cells| > 1
    ensures Row(cells) + rest == Cell(cells[0]) + ("," + (Row(cells[1..]) + rest))
    ensures Texts(cells) == [OrEmpty(cells[0])] + Texts(cells[1..])
  {
    var others := cells[1..];
    var parts := seq(|cells|, i requires 0 <= i < |cells| => Cell(cells[i]));
    assert parts[1..] == seq(|others|, i requires 0 <= i < |others| => Cell(others[i]));
  }

  lemma {:induction false} ReadRow(cells: seq<Option<string>>, rest: string)
    requires cells != [] && (rest == "" || rest[0] == '\n')
    ensures ReadRecord(Row(cells) + rest) == Record(Texts(cells), rest)
  {
    if |cells| == 1 {
      ReadOwnCell(cells[0], rest);
    } else {
      var next := Row(cells[1..]) + rest;
      RowSplit(cells, rest);
      ReadOwnCell(cells[0], "," + next);
      ReadRow(cells[1..], rest);
      NextCell(Row(cells) + rest, OrEmpty(cells[0]), next, Texts(cells[1..]), rest);
    }
  }

  lemma NextCell(s: string, cell: string, next: string, cells: seq<string>, rest: string)
    requires ReadCell(s) == Read(cell, "," + next) && ReadRecord(next) == Record(cells, rest)
    ensures ReadRecord(s) == Record([cell] + cells, rest)
  {
    assert ("," + next)[1..] == next;
  }

  predicate Plain(s: string) {
    (s == "" || s[0] != '\"') && forall i :: 0 <= i < |s| ==> s[i] != ',' && s[i] != '\n'
  }

  lemma {:induction false} ReadPlainCell(v: string, rest: string)
    requires AtBoundary(rest) && forall i :: 0 <= i < |v| ==> v[i] != ',' && v[i] != '\n'
    ensures ReadPlain(v + rest) == Read(v, rest)
  {
    if v == "" {
      assert v + rest == rest;
    } else {
      assert (v + rest)[1..] == v[1..] + rest;
      ReadPlainCell(v[1..], rest);
      assert v == [v[0]] + v[1..];
    }
  }

  lemma {:induction false} ReadHeader(names: seq<string>, rest: string)
    requires names != [] && (rest == "" || rest[0] == '\n')
    requires forall i :: 0 <= i < |names| ==> names[i] != "" && Plain(names[i])
    ensures ReadRecord(Join(names, ",") + rest) == Record(names, rest)
  {
    if |names| == 1 {
      ReadPlainCell(names[0], rest);
    } else {
      var next := Join(names[1..], ",") + rest;
      assert Join(names, ",") + rest == names[0] + ("," + next);
      ReadPlainCell(names[0], "," + next);
      ReadHeader(names[1..], rest);
      NextCell(Join(names, ",") + rest, names[0], next, names[1..], rest);
      assert names == [names[0]] + names[1..];
    }
  }

  /** The rows after the header, each after its line feed. */
  function Rows(events: seq<Event>): string {
    if events == [] then "" else "\n" + (Row(Columns(events[0])) + Rows(events[1..]))
  }

  lemma {:induction false} JoinRows(first: string, events: seq<Event>)
    ensures Join([first] + Lines(events), "\n") == first + Rows(events)
    decreases |events|
  {
    if events != [] {
      var lines := [first] + Lines(events);
      assert lines[1..] == [Row(Columns(events[0]))] + Lines(events[1..]);
      JoinRows(Row(Columns(events[0])), events[1..]);
    }
  }

  function TableOf(events: seq<Event>): seq<seq<string>> {
    if events == [] then [] else [Texts(Columns(events[0]))] + TableOf(events[1..])
  }

  lemma NextRecord(s: string, cells: seq<string>, next: string, table: seq<seq<string>>)
    requires ReadRecord(s) == Record(cells, "\n" + next) && ReadTable(next) == Some(table)
    ensures ReadTable(s) == Some([cells] + table)
  {
    assert ("\n" + next)[1..] == next;
  }

  /** A first record followed by the rows of `events`. */
  lemma {:induction false} ReadRows(s: string, cells: seq<string>, events: seq<Event>)
    requires ReadRecord(s) == Record(cells, Rows(events))
    ensures ReadTable(s) == Some([cells] + TableOf(events))
    decreases |events|
  {
    if events != [] {
      var row, others := Row(Columns(events[0])), events[1..];
      ReadRow(Columns(events[0]), Rows(others));
      ReadRows(row + Rows(others), Texts(Columns(events[0])), others);
      NextRecord(s, cells, row + Rows(others), TableOf(events));
    } else {
      assert [cells] + TableOf(events) == [cells];
    }
  }

  lemma HeaderIsPlain()
    ensures forall i :: 0 <= i < |HEADER| ==> HEADER[i] != "" && Plain(HEADER[i])
  {
  }

  /** Reading the export back gives the header and ten intact cells per event, whatever quotes,
      commas or line feeds the fields hold; an absent field reads as empty. */
  lemma CsvRoundTrip(events: seq<Event>)
    ensures ReadTable(ToCsv(events)) == Some([HEADER] + TableOf(events))
  {
    JoinRows(Join(HEADER, ","), events);
    HeaderIsPlain();
    ReadHeader(HEADER, Rows(events));
    ReadRows(ToCsv(events), HEADER, events);
  }

  /** The first line is the ten names, unquoted; every cell after it is in quotes. */
  lemma ExportText(v: Option<string>)
    ensures ToCsv([]) ==
      Join(["id", "time", "actor", "action", "target", "ip", "status", "detail", "previousHash", "chainHash"], ",")
    ensures |Cell(v)| >= 2 && Cell(v)[0] == '\"' && Cell(v)[|Cell(v)| - 1] == '\"'
  {
    JoinOne(Join(HEADER, ","));
  }

  lemma JoinOne(line: string)
    ensures Join([line] + [], "\n") == line
  {
  }

  /** The field of an event that goes by this name. */
  function FieldNamed(e: Event, name: string): Option<string> {
    match name
    case "id" => Some(e.id)
    case "time" => Some(e.time)
    case "actor" => Some(e.actor)
    case "action" => Some(e.action)
    case "target" => Some(e.target)
    case "ip" => e.ip
    case "status" => Some(e.status)
    case "detail" => e.detail
    case "previousHash" => e.previousHash
    case "chainHash" => e.chainHash
    case _ => None
  }

  lemma ColumnNamed(e: Event, j: nat)
    requires j < 10
    ensures |HEADER| == 10 && Columns(e)[j] == FieldNamed(e, HEADER[j])
  {
  }

  lemma {:induction false} TableRow(events: seq<Event>, i: nat)
    requires i < |events|
    ensures |TableOf(events)| == |events| && TableOf(events)[i] == Texts(Columns(events[i]))
  {
    if |events| > 1 {
      TableRow(events[1..], if i == 0 then 0 else i - 1);
    }
  }

  /** Whoever reads the export finds, under every heading and for every event in its order, the field of that
      name, and nothing where the event has none. */
  lemma ExportedCell(events: seq<Event>, i: nat, j: nat)
    requires i < |events| && j < 10
    ensures var read := ReadTable(ToCsv(events));
      && read.Some? && |read.value| == |events| + 1
      && read.value[0] ==
         ["id", "time", "actor", "action", "target", "ip", "status", "detail", "previousHash", "chainHash"]
      && |read.value[i + 1]| == 10
      && var field := FieldNamed(events[i], read.value[0][j]);
         read.value[i + 1][j] == if field.Some? then field.value else ""
  {
    CsvRoundTrip(events);
    TableRow(events, i);
    ColumnNamed(events[i], j);
  }

  // ---------------------------------------------------------------- pages

  datatype Page<T> = Page(events: seq<T>, total: nat, nextCursor: Option<string>)

  predicate IsSpace(c: char) { c == ' ' || '\t' <= c <= '\r' }

  function TrimStart(s: string): string {
    if s != "" && IsSpace(s[0]) then TrimStart(s[1..]) else s
  }

  /** The offset a cursor stands for: `Number.parseInt(cursor, 10)`, zero when absent, negative or no number. */
  function Offset(cursor: Option<string>): nat {
    if cursor.None? then 0 else
      var s := TrimStart(cursor.value);
      var digits := LeadingDigits(if s != "" && s[0] == '+' then s[1..] else s);
      Value(digits, 10)
  }

  function Filtered<T>(log: seq<T>, keep: T -> bool): seq<T> {
    if log == [] then [] else (if keep(log[0]) then [log[0]] else []) + Filtered(log[1..], keep)
  }

  function Reversed<T>(s: seq<T>): (r: seq<T>)
    ensures |r| == |s|
  {
    if s == [] then [] else Reversed(s[1..]) + [s[0]]
  }

  /** `Array.prototype.slice`, which clips both ends. */
  function Slice<T>(s: seq<T>, from: nat, to: nat): seq<T>
    requires from <= to
  {
    if |s| <= from then [] else if |s| <= to then s[from..] else s[from..to]
  }

  /** A page of the matching events, newest first. */
  function PageOf<T>(log: seq<T>, keep: T -> bool, cursor: Option<string>, limit: nat): Page<T> {
    PageAt(Reversed(Filtered(log, keep)), Offset(cursor), limit)
  }

  function PageAt<T>(list: seq<T>, offset: nat, limit: nat): Page<T> {
    var events := Slice(list, offset, offset + limit);
    var next := offset + |events|;
    Page(events, |list|, if next < |list| then Some(Digits(next, 10)) else None)
  }

  /** A cursor reads back as the offset it was printed from. */
  lemma CursorRoundTrip(n: nat)
    ensures Offset(Some(Digits(n, 10))) == n
  {
    var d := Digits(n, 10);
    assert IsDigit(d[0], 10);
    assert TrimStart(d) == d;
    LeadingDigitsOf(d, "");
    assert d + "" == d;
    ValueOfDigits(n, 10);
  }

  predicate AllSpace(s: string) { forall i :: 0 <= i < |s| ==> s[i] == ' ' || 9 <= s[i] as int <= 13 }

  lemma {:induction false} TrimmedSpace(space: string, tail: string)
    requires AllSpace(space) && (tail == "" || !IsSpace(tail[0]))
    ensures TrimStart(space + tail) == tail
  {
    if space == "" {
      assert space + tail == tail;
    } else {
      assert (space + tail)[1..] == space[1..] + tail;
      TrimmedSpace(space[1..], tail);
    }
  }

  /** A cursor that begins with a number, after spaces and a plus sign perhaps, stands for it. */
  lemma CursorNumber(space: string, plus: bool, n: nat, rest: string)
    requires AllSpace(space) && (rest == "" || !('0' <= rest[0] <= '9'))
    ensures Offset(Some(space + (if plus then "+" else "") + (Digits(n, 10) + rest))) == n
  {
    var sign, d := if plus then "+" else "", Digits(n, 10);
    assert space + sign + (d + rest) == space + (sign + (d + rest));
    assert IsDigit(d[0], 10);
    TrimmedSpace(space, sign + (d + rest));
    assert plus ==> (sign + (d + rest))[1..] == d + rest;
    assert !plus ==> sign + (d + rest) == d + rest;
    LeadingDigitsOf(d, rest);
    ValueOfDigits(n, 10);
  }

  /** Every other one, a negative number among them, stands for the start, and so does none. */
  lemma CursorOther(space: string, tail: string)
    requires AllSpace(space)
    requires tail == "" || (tail[0] != ' ' && !(9 <= tail[0] as int <= 13) && !('0' <= tail[0] <= '9'))
    requires tail != "" && tail[0] == '+' && |tail| > 1 ==> !('0' <= tail[1] <= '9')
    ensures Offset(Some(space + tail)) == 0 && Offset(None) == 0
  {
    TrimmedSpace(space, tail);
    var s := if tail != "" && tail[0] == '+' then tail[1..] else tail;
    assert LeadingDigits(s) == "";
  }

  /** The list that the pages show: the newest event first, and of one more event one more, if it is kept. */
  lemma NewestFirst<T>(log: seq<T>, e: T, keep: T -> bool)
    ensures Reversed(Filtered(log + [e], keep)) ==
      (if keep(e) then [e] else []) + Reversed(Filtered(log, keep))
    ensures Reversed(Filtered([], keep)) == []
  {
    FilteredLast(log, e, keep);
    if keep(e) {
      ReversedLast(Filtered(log, keep), e);
    } else {
      assert Filtered(log, keep) + [] == Filtered(log, keep);
    }
  }

  lemma {:induction false} FilteredLast<T>(log: seq<T>, e: T, keep: T -> bool)
    ensures Filtered(log + [e], keep) == Filtered(log, keep) + if keep(e) then [e] else []
  {
    var all := log + [e];
    if log == [] {
      assert all == [e] && all[1..] == [];
    } else {
      assert all[0] == log[0] && all[1..] == log[1..] + [e];
      FilteredLast(log[1..], e, keep);
      Regroup(if keep(log[0]) then [log[0]] else [], Filtered(log[1..], keep), if keep(e) then [e] else []);
    }
  }

  lemma Regroup<T>(a: seq<T>, b: seq<T>, c: seq<T>)
    ensures a + (b + c) == (a + b) + c
  {
  }

  lemma {:induction false} ReversedLast<T>(s: seq<T>, e: T)
    ensures Reversed(s + [e]) == [e] + Reversed(s)
  {
    var all := s + [e];
    if s == [] {
      assert all == [e] && all[1..] == [];
    } else {
      assert all[0] == s[0] && all[1..] == s[1..] + [e];
      ReversedLast(s[1..], e);
    }
  }

  /** The pages a client sees that follows `nextCursor` from the given cursor. */
  function Follow<T>(log: seq<T>, keep: T -> bool, cursor: Option<string>, limit: nat): seq<Page<T>>
    requires 1 <= limit
  {
    FollowFrom(Reversed(Filtered(log, keep)), Offset(cursor), limit)
  }

  function FollowFrom<T>(list: seq<T>, offset: nat, limit: nat): (pages: seq<Page<T>>)
    requires 1 <= limit
    ensures pages != []
    decreases |list| - offset
  {
    var page := PageAt(list, offset, limit);
    if page.nextCursor.None? then [page] else
      NextPage(list, offset, limit);
      [page] + FollowFrom(list, Offset(page.nextCursor), limit)
  }

  function Concatenated<T>(pages: seq<Page<T>>): seq<T> {
    if pages == [] then [] else pages[0].events + Concatenated(pages[1..])
  }

  /** What is left of a list from an offset on, nothing beyond its end. */
  function From<T>(s: seq<T>, offset: nat): seq<T> { if |s| <= offset then [] else s[offset..] }

  lemma SliceStep<T>(s: seq<T>, offset: nat, limit: nat)
    ensures var taken := Slice(s, offset, offset + limit);
      var next := offset + |taken|;
      From(s, offset) == taken + From(s, next) && (next >= |s| ==> From(s, next) == [])
  {
  }

  lemma SliceLength<T>(s: seq<T>, offset: nat, limit: nat)
    ensures var taken := Slice(s, offset, offset + limit);
      |taken| <= limit && (offset + |taken| < |s| ==> |taken| == limit)
  {
  }

  /** The stretches of a list from an offset on. */
  function Stretches<T>(list: seq<T>, offset: nat, limit: nat): (r: seq<seq<T>>)
    requires 1 <= limit
    ensures r != []
    decreases |list| - offset
  {
    var taken := Slice(list, offset, offset + limit);
    if offset + |taken| < |list| then [taken] + Stretches(list, offset + |taken|, limit) else [taken]
  }

  function Joined<T>(parts: seq<seq<T>>): seq<T> { if parts == [] then [] else parts[0] + Joined(parts[1..]) }

  lemma {:induction false} StretchesCover<T>(list: seq<T>, offset: nat, limit: nat)
    requires 1 <= limit
    ensures Joined(Stretches(list, offset, limit)) == From(list, offset)
    decreases |list| - offset
  {
    var next := offset + |Slice(list, offset, offset + limit)|;
    if next < |list| {
      StretchesCover(list, next, limit);
      StretchJoined(list, offset, limit, Stretches(list, next, limit));
    } else {
      StretchJoined(list, offset, limit, []);
    }
  }

  lemma StretchJoined<T>(list: seq<T>, offset: nat, limit: nat, rest: seq<seq<T>>)
    requires 1 <= limit && Joined(rest) == From(list, offset + |Slice(list, offset, offset + limit)|)
    ensures Joined([Slice(list, offset, offset + limit)] + rest) == From(list, offset)
    ensures [Slice(list, offset, offset + limit)] + [] == [Slice(list, offset, offset + limit)]
  {
    SliceStep(list, offset, limit);
    JoinedCons(Slice(list, offset, offset + limit), rest);
  }

  predicate FullButLast<T>(parts: seq<seq<T>>, limit: nat) { forall i :: 0 <= i < |parts| - 1 ==> |parts[i]| == limit }

  lemma FullCons<T>(first: seq<T>, rest: seq<seq<T>>, limit: nat)
    requires rest != [] && |first| == limit && FullButLast(rest, limit)
    ensures FullButLast([first] + rest, limit)
  {
  }

  lemma {:induction false} StretchesFull<T>(list: seq<T>, offset: nat, limit: nat)
    requires 1 <= limit
    ensures FullButLast(Stretches(list, offset, limit), limit)
    decreases |list| - offset
  {
    var taken := Slice(list, offset, offset + limit);
    SliceLength(list, offset, limit);
    if offset + |taken| < |list| {
      StretchesFull(list, offset + |taken|, limit);
      FullCons(taken, Stretches(list, offset + |taken|, limit), limit);
    }
  }

  lemma JoinedCons<T>(first: seq<T>, rest: seq<seq<T>>)
    ensures Joined([first] + rest) == first + Joined(rest) && [first] + [] == [first]
  {
    assert ([first] + rest)[1..] == rest;
  }

  /** The events on each page. */
  function EventsOf<T>(pages: seq<Page<T>>): seq<seq<T>> {
    if pages == [] then [] else [pages[0].events] + EventsOf(pages[1..])
  }

  lemma {:induction false} EventsAt<T>(pages: seq<Page<T>>)
    ensures |EventsOf(pages)| == |pages| && forall i :: 0 <= i < |pages| ==> EventsOf(pages)[i] == pages[i].events
  {
    if pages != [] {
      EventsAt(pages[1..]);
      forall i | 0 < i < |pages| ensures EventsOf(pages)[i] == pages[i].events {
        assert pages[i] == pages[1..][i - 1] && EventsOf(pages)[i] == EventsOf(pages[1..])[i - 1];
      }
    }
  }

  lemma {:induction false} ConcatenatedIs<T>(pages: seq<Page<T>>)
    ensures Concatenated(pages) == Joined(EventsOf(pages))
  {
    if pages != [] {
      ConcatenatedIs(pages[1..]);
      JoinedCons(pages[0].events, EventsOf(pages[1..]));
    }
  }

  /** One page on: its cursor reads back as the offset after it. */
  lemma NextPage<T>(list: seq<T>, offset: nat, limit: nat)
    ensures var page := PageAt(list, offset, limit);
      var next := offset + |page.events|;
      && page.events == Slice(list, offset, offset + limit) && page.total == |list|
      && if next < |list| then page.nextCursor.Some? && Offset(page.nextCursor) == next else page.nextCursor.None?
  {
    CursorRoundTrip(offset + |PageAt(list, offset, limit).events|);
  }

  /** The first page a client sees, and the pages after it. */
  lemma FollowOne<T>(list: seq<T>, offset: nat, limit: nat) returns (page: Page<T>, rest: seq<Page<T>>)
    requires 1 <= limit
    ensures FollowFrom(list, offset, limit) == [page] + rest
    ensures page.events == Slice(list, offset, offset + limit) && page.total == |list|
    ensures rest == if offset + |page.events| < |list| then FollowFrom(list, offset + |page.events|, limit) else []
  {
    page := PageAt(list, offset, limit);
    NextPage(list, offset, limit);
    if page.nextCursor.None? {
      rest := [];
      assert [page] + rest == [page];
    } else {
      rest := FollowFrom(list, offset + |page.events|, limit);
    }
  }

  /** Each page holds the next stretch of the list, and the last one reaches its end. */
  predicate Chain<T(==)>(pages: seq<Page<T>>, list: seq<T>, offset: nat, limit: nat) {
    && pages != [] && pages[0].events == Slice(list, offset, offset + limit) && pages[0].total == |list|
    && if offset + |pages[0].events| < |list|
       then Chain(pages[1..], list, offset + |pages[0].events|, limit) else pages[1..] == []
  }

  lemma {:induction false} FollowChains<T>(list: seq<T>, offset: nat, limit: nat)
    requires 1 <= limit
    ensures Chain(FollowFrom(list, offset, limit), list, offset, limit)
    decreases |list| - offset
  {
    var page, rest := FollowOne(list, offset, limit);
    if offset + |page.events| < |list| {
      FollowChains(list, offset + |page.events|, limit);
    }
    ChainCons(page, rest, list, offset, limit);
  }

  lemma ChainCons<T>(page: Page<T>, rest: seq<Page<T>>, list: seq<T>, offset: nat, limit: nat)
    requires page.events == Slice(list, offset, offset + limit) && page.total == |list|
    requires if offset + |page.events| < |list| then Chain(rest, list, offset + |page.events|, limit) else rest == []
    ensures Chain([page] + rest, list, offset, limit)
  {
    assert ([page] + rest)[1..] == rest;
  }

  lemma {:induction false} ChainStretches<T>(pages: seq<Page<T>>, list: seq<T>, offset: nat, limit: nat)
    requires 1 <= limit && Chain(pages, list, offset, limit)
    ensures EventsOf(pages) == Stretches(list, offset, limit)
  {
    var next, rest := offset + |pages[0].events|, pages[1..];
    if next < |list| {
      ChainStretches(rest, list, next, limit);
    }
    assert pages == [pages[0]] + rest;
    PagesStretch(pages[0], rest, list, offset, limit);
  }

  lemma {:induction false} ChainTotals<T>(pages: seq<Page<T>>, list: seq<T>, offset: nat, limit: nat)
    requires Chain(pages, list, offset, limit)
    ensures forall page <- pages :: page.total == |list|
  {
    var next, rest := offset + |pages[0].events|, pages[1..];
    if next < |list| {
      ChainTotals(rest, list, next, limit);
    }
    assert forall page <- pages :: page == pages[0] || page in rest;
  }

  lemma PagesStretch<T>(page: Page<T>, rest: seq<Page<T>>, list: seq<T>, offset: nat, limit: nat)
    requires 1 <= limit && page.events == Slice(list, offset, offset + limit)
    requires EventsOf(rest) ==
      if offset + |page.events| < |list| then Stretches(list, offset + |page.events|, limit) else []
    ensures EventsOf([page] + rest) == Stretches(list, offset, limit)
  {
    EventsCons(page, rest);
  }

  lemma EventsCons<T>(page: Page<T>, rest: seq<Page<T>>)
    ensures EventsOf([page] + rest) == [page.events] + EventsOf(rest)
  {
    assert ([page] + rest)[1..] == rest;
  }

  /** From any cursor, one past the end included, the pages are full except the last, and together they are
      the rest of the filtered log, newest first: every event once, none skipped. */
  lemma FollowCovers<T>(log: seq<T>, keep: T -> bool, cursor: Option<string>, limit: nat)
    requires 1 <= limit
    ensures var pages, list := Follow(log, keep, cursor, limit), Reversed(Filtered(log, keep));
      && Concatenated(pages) == From(list, Offset(cursor))
      && (forall i :: 0 <= i < |pages| - 1 ==> |pages[i].events| == limit)
      && (forall page <- pages :: page.total == |list|)
  {
    var list := Reversed(Filtered(log, keep));
    FollowChains(list, Offset(cursor), limit);
    ChainStretches(FollowFrom(list, Offset(cursor), limit), list, Offset(cursor), limit);
    ChainTotals(FollowFrom(list, Offset(cursor), limit), list, Offset(cursor), limit);
    StretchesCover(list, Offset(cursor), limit);
    StretchesFull(list, Offset(cursor), limit);
    ConcatenatedIs(FollowFrom(list, Offset(cursor), limit));
    EventsAt(FollowFrom(list, Offset(cursor), limit));
  }

  /** The page holds the events at its offset; if something is left it is full and its cursor reads back as
      the offset after it, and otherwise it has none. */
  predicate IsPage<T(==)>(page: Page<T>, list: seq<T>, offset: nat, limit: nat) {
    && (forall i :: 0 <= i < |page.events| ==> offset + i < |list| && page.events[i] == list[offset + i])
    && page.total == |list|
    && if offset + |page.events| < |list|
       then page.nextCursor.Some? && Offset(page.nextCursor) == offset + |page.events| && |page.events| == limit
       else page.nextCursor == None
  }

  lemma PageAtStep<T>(list: seq<T>, offset: nat, limit: nat)
    ensures IsPage(PageAt(list, offset, limit), list, offset, limit)
  {
    NextPage(list, offset, limit);
    SliceLength(list, offset, limit);
  }

  lemma PageStep<T>(log: seq<T>, keep: T -> bool, cursor: Option<string>, limit: nat)
    ensures IsPage(PageOf(log, keep, cursor, limit), Reversed(Filtered(log, keep)), Offset(cursor), limit)
  {
    PageAtStep(Reversed(Filtered(log, keep)), Offset(cursor), limit);
  }

  /** Following the cursors from the first page shows the whole filtered log, newest first. */
  lemma PagesCoverLog<T>(log: seq<T>, keep: T -> bool, limit: nat)
    requires 1 <= limit
    ensures Concatenated(Follow(log, keep, None, limit)) == Reversed(Filtered(log, keep))
  {
    FollowCovers(log, keep, None, limit);
  }
}
