/** db.py: the `tickets` table, held in memory. The table is append-only:
    rows are only ever added, each with the next AUTOINCREMENT id, and read
    back newest first by comparing their `created_at` text. */
module Db {
  import opened Wrappers
  import opened Values
  import opened Text

  /** One row of `tickets`. Columns declared TEXT hold text; the two caller
      columns may be NULL. */
  datatype Ticket = Ticket(
    id: nat,
    createdAt: string,
    callerName: Option<string>,
    callerContact: Option<string>,
    intentCategory: string,
    department: string,
    priority: string,
    sentiment: string,
    transcript: string,
    summaryShort: string,
    summaryFull: string)

  /** Why an operation raised. */
  datatype StoreError =
    | MissingKey(key: string)          // KeyError while reading `ticket_data`
    | NoSuchTable                      // the statement ran before `init_db`
    | UnsupportedType(column: string)  // sqlite3 cannot bind a list or a dict
    | Overflow(column: string)         // an int outside SQLite's 64-bit INTEGER range
    | NotNull(column: string)          // None given for a NOT NULL column

  /** The columns of the INSERT statement, in parameter order. */
  const Columns: seq<string> :=
    ["created_at", "caller_name", "caller_contact", "intent_category", "department",
     "priority", "sentiment", "transcript", "summary_short", "summary_full"]

  /** The keys `insert_ticket` reads with `ticket_data[...]`, after `created_at`. */
  const InsertKeys: seq<string> :=
    ["intent_category", "department", "priority", "sentiment", "transcript", "summary_short", "summary_full"]

  predicate NotNullColumn(c: string)
  {
    c != "caller_name" && c != "caller_contact"
  }

  // Building a row from `ticket_data`

  /** The parameter tuple of the INSERT, evaluated left to right: a missing
      required key raises KeyError; the caller fields are read with `.get`. */
  function Params(data: Record): (r: Result<seq<Value>, StoreError>)
    ensures r.Ok? <==> "created_at" in data && forall k :: k in InsertKeys ==> k in data
    ensures r.Err? ==> r.error.MissingKey?
    ensures r.Ok? ==> |r.value| == |Columns| && forall i :: 0 <= i < |Columns| ==> r.value[i] == Get(data, Columns[i])
  {
    if "created_at" !in data then Err(MissingKey("created_at"))
    else if "intent_category" !in data then Err(MissingKey("intent_category"))
    else if "department" !in data then Err(MissingKey("department"))
    else if "priority" !in data then Err(MissingKey("priority"))
    else if "sentiment" !in data then Err(MissingKey("sentiment"))
    else if "transcript" !in data then Err(MissingKey("transcript"))
    else if "summary_short" !in data then Err(MissingKey("summary_short"))
    else if "summary_full" !in data then Err(MissingKey("summary_full"))
    else
      Ok([data["created_at"], Get(data, "caller_name"), Get(data, "caller_contact"),
          data["intent_category"], data["department"], data["priority"], data["sentiment"],
          data["transcript"], data["summary_short"], data["summary_full"]])
  }

  /** The range of SQLite's 64-bit INTEGER, to which sqlite3 binds a Python int. */
  const MinInt64: int := -0x8000_0000_0000_0000
  const MaxInt64: int := 0x7fff_ffff_ffff_ffff

  /** Whether sqlite3 can bind a parameter: a list or a dict has no SQLite
      type, and an int must fit in 64 bits. */
  predicate Bindable(v: Value)
  {
    !v.Structured? && (v.Int? ==> MinInt64 <= v.i <= MaxInt64)
  }

  /** The first parameter from position `from` on that sqlite3 cannot bind,
      the parameters being bound left to right. */
  function FirstUnbindable(ps: seq<Value>, from: nat): (r: Option<nat>)
    requires from <= |ps|
    ensures r.None? <==> forall j :: from <= j < |ps| ==> Bindable(ps[j])
    ensures r.Some? ==> from <= r.value < |ps| && !Bindable(ps[r.value])
    ensures r.Some? ==> forall j :: from <= j < r.value ==> Bindable(ps[j])
    decreases |ps| - from
  {
    if from == |ps| then None
    else if !Bindable(ps[from]) then Some(from)
    else FirstUnbindable(ps, from + 1)
  }

  /** Whether the column at a parameter position is declared NOT NULL. */
  predicate NotNullPosition(j: nat)
  {
    j != 1 && j != 2
  }

  lemma NotNullPositions()
    ensures forall j :: 0 <= j < |Columns| ==> (NotNullPosition(j) <==> NotNullColumn(Columns[j]))
  {
  }

  /** The first NOT NULL column from position `from` on whose parameter is None. */
  function FirstNullViolation(ps: seq<Value>, from: nat): (r: Option<nat>)
    requires from <= |ps| == |Columns|
    ensures r.None? <==> forall j :: from <= j < |ps| && NotNullPosition(j) ==> !ps[j].Null?
    ensures r.Some? ==> from <= r.value < |ps| && NotNullPosition(r.value) && ps[r.value].Null?
    ensures r.Some? ==> forall j :: from <= j < r.value && NotNullPosition(j) ==> !ps[j].Null?
    decreases |ps| - from
  {
    if from == |ps| then None
    else if NotNullPosition(from) && ps[from].Null? then Some(from)
    else FirstNullViolation(ps, from + 1)
  }

  /** The text a TEXT column stores for a bound value: Python's int and bool
      bind as integers, which the column's TEXT affinity turns into text. */
  function ColumnText(v: Value): string
    requires !v.Null? && !v.Structured?
  {
    match v
    case Str(s) => s
    case Int(i) => DecimalString(i)
    case Bool(b) => if b then "1" else "0"
  }

  /** A TEXT column loses nothing of what it is given: a string is kept as it
      is, an integer's text reads back as that integer, and a bool is stored
      as the integer 1 or 0 would be. */
  lemma ColumnTextReadsBack(v: Value)
    requires !v.Null? && !v.Structured?
    ensures v.Str? ==> ColumnText(v) == v.s
    ensures v.Int? ==> DecimalValue(ColumnText(v)) == v.i
    ensures v.Bool? ==> ColumnText(v) == DecimalString(if v.b then 1 else 0)
  {
    if v.Int? {
      DecimalRoundTrip(v.i);
    }
  }

  function NullableText(v: Value): Option<string>
    requires !v.Structured?
  {
    if v.Null? then None else Some(ColumnText(v))
  }

  /** Parameters every column of which can be stored: none is a list or a
      dict, and no NOT NULL column gets None. */
  predicate Storable(ps: seq<Value>)
  {
    && |ps| == 10
    && (forall j :: 0 <= j < 10 ==> Bindable(ps[j]))
    && !ps[0].Null? && !ps[3].Null? && !ps[4].Null? && !ps[5].Null? && !ps[6].Null?
    && !ps[7].Null? && !ps[8].Null? && !ps[9].Null?
  }

  /** The row stored for storable parameters. */
  function RowOf(ps: seq<Value>, id: nat): (r: Ticket)
    requires Storable(ps)
    ensures r.id == id
    ensures r.callerName.None? <==> ps[1].Null?
    ensures r.callerContact.None? <==> ps[2].Null?
  {
    Ticket(id, ColumnText(ps[0]), NullableText(ps[1]), NullableText(ps[2]),
           ColumnText(ps[3]), ColumnText(ps[4]), ColumnText(ps[5]), ColumnText(ps[6]),
           ColumnText(ps[7]), ColumnText(ps[8]), ColumnText(ps[9]))
  }

  /** The value a column gives back when the row is read: text or NULL. */
  function Stored(v: Value): (r: Value)
    requires !v.Structured?
    ensures r.Null? || r.Str?
    ensures v.Null? || v.Str? ==> r == v
  {
    if v.Null? then Null else Str(ColumnText(v))
  }

  /** `insert_ticket` from the point where `created_at` is filled in: the
      row it stores with the given id, or the exception it raises. */
  function Insertion(data: Record, tableExists: bool, id: nat): Result<Ticket, StoreError>
  {
    match Params(data)
    case Err(e) => Err(e)
    case Ok(ps) =>
      if !tableExists then Err(NoSuchTable)
      else match FirstUnbindable(ps, 0)
        case Some(i) => Err(if ps[i].Structured? then UnsupportedType(Columns[i]) else Overflow(Columns[i]))
        case None =>
          match FirstNullViolation(ps, 0)
          case Some(i) => Err(NotNull(Columns[i]))
          case None =>
            assert NotNullPosition(0) && NotNullPosition(3) && NotNullPosition(4) && NotNullPosition(5);
            assert NotNullPosition(6) && NotNullPosition(7) && NotNullPosition(8) && NotNullPosition(9);
            Ok(RowOf(ps, id))
  }

  /** A record the INSERT accepts: every NOT NULL column's key is present
      with a non-None value, and every column's value can be bound: none is
      a list or a dict, and no int is outside the 64-bit range. */
  predicate Insertable(data: Record)
  {
    && (forall c :: c in Columns && NotNullColumn(c) ==> c in data && !data[c].Null?)
    && (forall c :: c in Columns ==> Bindable(Get(data, c)))
  }

  /** The dictionary `dict(row)` that the fetch functions return for a row. */
  function RowDict(t: Ticket): Record
  {
    map["id" := Int(t.id), "created_at" := Str(t.createdAt),
        "caller_name" := OptionalStr(t.callerName), "caller_contact" := OptionalStr(t.callerContact),
        "intent_category" := Str(t.intentCategory), "department" := Str(t.department),
        "priority" := Str(t.priority), "sentiment" := Str(t.sentiment),
        "transcript" := Str(t.transcript), "summary_short" := Str(t.summaryShort),
        "summary_full" := Str(t.summaryFull)]
  }

  function OptionalStr(o: Option<string>): Value
  {
    if o.None? then Null else Str(o.value)
  }

  /** What a successful insertion is made of: the parameters were all read,
      the table exists, and the row is built from storable parameters. */
  lemma InsertionOk(data: Record, tableExists: bool, id: nat)
    requires Insertion(data, tableExists, id).Ok?
    ensures Params(data).Ok? && tableExists
    ensures Storable(Params(data).value)
    ensures Insertion(data, tableExists, id) == Ok(RowOf(Params(data).value, id))
  {
    var ps := Params(data).value;
    assert FirstUnbindable(ps, 0).None? && FirstNullViolation(ps, 0).None?;
    assert NotNullPosition(0) && NotNullPosition(3) && NotNullPosition(4) && NotNullPosition(5);
    assert NotNullPosition(6) && NotNullPosition(7) && NotNullPosition(8) && NotNullPosition(9);
  }

  /** With the table in place, an insert succeeds exactly when the record is
      insertable; a missing required key, a None in a NOT NULL column or a
      value sqlite3 cannot bind (a list, a dict, or an int outside 64 bits)
      each make it raise. */
  lemma InsertionSucceedsIff(data: Record, id: nat)
    ensures Insertion(data, true, id).Ok? <==> Insertable(data)
  {
    if Insertable(data) {
      InsertableIsInserted(data, id);
    }
    if Insertion(data, true, id).Ok? {
      InsertedIsInsertable(data, id);
    }
  }

  lemma InsertableIsInserted(data: Record, id: nat)
    requires Insertable(data)
    ensures Insertion(data, true, id).Ok?
  {
    assert "created_at" in Columns && NotNullColumn("created_at");
    forall k | k in InsertKeys
      ensures k in data
    {
      assert k in Columns && NotNullColumn(k);
    }
    var ps := Params(data).value;
    NotNullPositions();
    forall j | 0 <= j < |ps|
      ensures Bindable(ps[j])
      ensures NotNullPosition(j) ==> !ps[j].Null?
    {
      assert ps[j] == Get(data, Columns[j]) && Columns[j] in Columns;
    }
    assert FirstUnbindable(ps, 0).None? && FirstNullViolation(ps, 0).None?;
  }

  lemma InsertedIsInsertable(data: Record, id: nat)
    requires Insertion(data, true, id).Ok?
    ensures Insertable(data)
  {
    InsertionOk(data, true, id);
    var ps := Params(data).value;
    NotNullPositions();
    forall c | c in Columns
      ensures Bindable(Get(data, c))
      ensures NotNullColumn(c) ==> c in data && !data[c].Null?
    {
      var i :| 0 <= i < |Columns| && Columns[i] == c;
      assert ps[i] == Get(data, c);
    }
  }

  /** An int outside SQLite's 64-bit INTEGER range in any column makes the
      insert raise: no row is ever built from it. */
  lemma OutOfRangeIntIsNotStored(data: Record, c: string, tableExists: bool, id: nat)
    requires c in Columns && Get(data, c).Int?
    requires Get(data, c).i < MinInt64 || Get(data, c).i > MaxInt64
    ensures Insertion(data, tableExists, id).Err?
  {
    if Insertion(data, tableExists, id).Ok? {
      InsertionOk(data, tableExists, id);
      InsertedIsInsertable(data, id);
    }
  }

  /** A record whose NOT NULL columns all hold strings, and whose caller
      details are strings or None, is stored field for field. */
  lemma InsertionOfText(data: Record, id: nat)
    requires "created_at" in data && data["created_at"].Str?
    requires Get(data, "caller_name").Null? || Get(data, "caller_name").Str?
    requires Get(data, "caller_contact").Null? || Get(data, "caller_contact").Str?
    requires "intent_category" in data && data["intent_category"].Str?
    requires "department" in data && data["department"].Str?
    requires "priority" in data && data["priority"].Str?
    requires "sentiment" in data && data["sentiment"].Str?
    requires "transcript" in data && data["transcript"].Str?
    requires "summary_short" in data && data["summary_short"].Str?
    requires "summary_full" in data && data["summary_full"].Str?
    ensures Insertion(data, true, id) ==
      Ok(Ticket(id, data["created_at"].s,
                NullableText(Get(data, "caller_name")), NullableText(Get(data, "caller_contact")),
                data["intent_category"].s, data["department"].s, data["priority"].s,
                data["sentiment"].s, data["transcript"].s, data["summary_short"].s,
                data["summary_full"].s))
  {
    var ps := Params(data).value;
    assert forall j :: 0 <= j < |ps| ==> ps[j].Str? || ps[j].Null?;
    assert FirstUnbindable(ps, 0).None?;
    assert FirstNullViolation(ps, 0).None?;
  }

  /** Round trip: reading back the row a successful insert stores gives, for
      every column, the value that was passed in (as text, for numbers and
      booleans), together with the new id; a string or None comes back
      unchanged. */
  lemma InsertionRoundTrip(data: Record, tableExists: bool, id: nat)
    requires Insertion(data, tableExists, id).Ok?
    ensures var row := Insertion(data, tableExists, id).value;
      && row.id == id
      && RowDict(row)["id"] == Int(id)
      && forall c :: c in Columns ==> Bindable(Get(data, c)) && RowDict(row)[c] == Stored(Get(data, c))
  {
    InsertionOk(data, tableExists, id);
    var ps := Params(data).value;
    var row := RowOf(ps, id);
    assert RowDict(row)["id"] == Int(id);
    forall c | c in Columns
      ensures Bindable(Get(data, c)) && RowDict(row)[c] == Stored(Get(data, c))
    {
      var i :| 0 <= i < |Columns| && Columns[i] == c;
      assert ps[i] == Get(data, c);
      CellRoundTrip(ps, id, row, i);
      assert RowDict(row)[c] == Stored(Get(data, c));
    }
  }

  /** One column of the round trip, for a row built from bindable parameters. */
  lemma CellRoundTrip(ps: seq<Value>, id: nat, row: Ticket, i: nat)
    requires Storable(ps) && i < |Columns|
    requires row == RowOf(ps, id)
    ensures Bindable(ps[i]) && RowDict(row)[Columns[i]] == Stored(ps[i])
  {
    var d := RowDict(row);
    if i == 0 { assert d["created_at"] == Str(row.createdAt); }
    else if i == 1 { assert d["caller_name"] == OptionalStr(row.callerName); }
    else if i == 2 { assert d["caller_contact"] == OptionalStr(row.callerContact); }
    else if i == 3 { assert d["intent_category"] == Str(row.intentCategory); }
    else if i == 4 { assert d["department"] == Str(row.department); }
    else if i == 5 { assert d["priority"] == Str(row.priority); }
    else if i == 6 { assert d["sentiment"] == Str(row.sentiment); }
    else if i == 7 { assert d["transcript"] == Str(row.transcript); }
    else if i == 8 { assert d["summary_short"] == Str(row.summaryShort); }
    else { assert d["summary_full"] == Str(row.summaryFull); }
  }

  /** Keys that are not columns (`error`, `raw_response`, `id`, ...) make no
      difference to what is inserted. */
  lemma InsertionIgnoresExtraKeys(data: Record, k: string, v: Value, tableExists: bool, id: nat)
    requires k !in Columns
    ensures Insertion(data[k := v], tableExists, id) == Insertion(data, tableExists, id)
  {
    ParamsIgnoresExtraKeys(data, k, v);
  }

  lemma ParamsIgnoresExtraKeys(data: Record, k: string, v: Value)
    requires k !in Columns
    ensures Params(data[k := v]) == Params(data)
  {
    var data' := data[k := v];
    assert forall c :: c in Columns ==> Get(data', c) == Get(data, c);
    assert forall c :: c in InsertKeys ==> c in Columns;
    if Params(data).Ok? {
      var ps, ps' := Params(data).value, Params(data').value;
      assert forall i :: 0 <= i < |Columns| ==> ps'[i] == ps[i];
    }
  }

  /** `insert_ticket` adds `created_at` only when the key is absent. */
  function WithTimestamp(data: Record, now: string): (r: Record)
    ensures "created_at" in r
    ensures "created_at" in data ==> r == data
    ensures "created_at" !in data ==> r == data["created_at" := Str(now)]
  {
    if "created_at" in data then data else data["created_at" := Str(now)]
  }

  // Ordering by `created_at`

  /** `a <= b` under SQLite's BINARY collation: code point by code point,
      a proper prefix first. */
  predicate TextLe(a: string, b: string)
  {
    a == [] || (b != [] && (a[0] < b[0] || (a[0] == b[0] && TextLe(a[1..], b[1..]))))
  }

  lemma {:induction false} TextLeTotal(a: string, b: string)
    ensures TextLe(a, b) || TextLe(b, a)
  {
    if a != [] && b != [] && a[0] == b[0] {
      TextLeTotal(a[1..], b[1..]);
    }
  }

  lemma {:induction false} TextLeTransitive(a: string, b: string, c: string)
    requires TextLe(a, b) && TextLe(b, c)
    ensures TextLe(a, c)
  {
    if a != [] && a[0] == b[0] && b[0] == c[0] {
      TextLeTransitive(a[1..], b[1..], c[1..]);
    }
  }

  /** ORDER BY created_at DESC: no row is newer than one before it. */
  predicate NewestFirst(s: seq<Ticket>)
  {
    forall i, j :: 0 <= i < j < |s| ==> TextLe(s[j].createdAt, s[i].createdAt)
  }

  /** Inserts `t` before the first row that is not newer than it. */
  function InsertNewest(t: Ticket, s: seq<Ticket>): seq<Ticket>
  {
    if s == [] then [t]
    else if TextLe(s[0].createdAt, t.createdAt) then [t] + s
    else [s[0]] + InsertNewest(t, s[1..])
  }

  /** One ordering SQLite may produce for ORDER BY created_at DESC. Rows with
      equal `created_at` may come in any order; the contracts below do not
      depend on the one this function picks. */
  function SortNewestFirst(s: seq<Ticket>): seq<Ticket>
  {
    if s == [] then [] else InsertNewest(s[0], SortNewestFirst(s[1..]))
  }

  lemma {:induction false} InsertNewestPermutes(t: Ticket, s: seq<Ticket>)
    ensures multiset(InsertNewest(t, s)) == multiset(s) + multiset{t}
  {
    if s != [] && !TextLe(s[0].createdAt, t.createdAt) {
      InsertNewestPermutes(t, s[1..]);
      assert s == [s[0]] + s[1..];
    }
  }

  lemma {:induction false} InsertNewestCorrect(t: Ticket, s: seq<Ticket>)
    requires NewestFirst(s)
    ensures multiset(InsertNewest(t, s)) == multiset(s) + multiset{t}
    ensures NewestFirst(InsertNewest(t, s))
  {
    InsertNewestPermutes(t, s);
    if s == [] {
    } else if TextLe(s[0].createdAt, t.createdAt) {
      PrependNewest(t, s);
    } else {
      TextLeTotal(s[0].createdAt, t.createdAt);
      var rest := InsertNewest(t, s[1..]);
      InsertNewestCorrect(t, s[1..]);
      var u := rest[0];
      assert u in multiset(rest);
      if u != t {
        assert u in multiset(s[1..]);
        var k :| 0 <= k < |s[1..]| && s[1..][k] == u;
        assert s[k + 1] == u;
      }
      PrependNewest(s[0], rest);
    }
  }

  /** A row no older than every row of a newest-first list can go in front. */
  lemma PrependNewest(t: Ticket, s: seq<Ticket>)
    requires NewestFirst(s)
    requires s != [] ==> TextLe(s[0].createdAt, t.createdAt)
    ensures NewestFirst([t] + s)
  {
    var r := [t] + s;
    forall i, j | 0 <= i < j < |r|
      ensures TextLe(r[j].createdAt, r[i].createdAt)
    {
      if i == 0 && j > 1 {
        TextLeTransitive(s[j - 1].createdAt, s[0].createdAt, t.createdAt);
      }
    }
  }

  /** The ordering is a permutation of the rows, newest first. */
  lemma {:induction false} SortNewestFirstCorrect(s: seq<Ticket>)
    ensures multiset(SortNewestFirst(s)) == multiset(s)
    ensures NewestFirst(SortNewestFirst(s))
  {
    if s != [] {
      SortNewestFirstCorrect(s[1..]);
      InsertNewestCorrect(s[0], SortNewestFirst(s[1..]));
      assert s == [s[0]] + s[1..];
    }
  }

  /** The first `k` rows of a newest-first list are newest first, and no row
      after them is newer than any of them. */
  lemma PrefixIsNewest(s: seq<Ticket>, k: nat)
    requires NewestFirst(s) && k <= |s|
    ensures NewestFirst(s[..k])
    ensures multiset(s[..k]) <= multiset(s)
    ensures forall t, u :: t in multiset(s) - multiset(s[..k]) && u in s[..k] ==> TextLe(t.createdAt, u.createdAt)
  {
    PrefixMultiset(s, k);
    LaterNotNewer(s, k);
  }

  /** Taking a prefix leaves the rest of the rows as the multiset difference. */
  lemma PrefixMultiset(s: seq<Ticket>, k: nat)
    requires k <= |s|
    ensures multiset(s[..k]) <= multiset(s)
    ensures multiset(s) - multiset(s[..k]) == multiset(s[k..])
  {
    assert s == s[..k] + s[k..];
  }

  /** In a newest-first list no row after position `k` is newer than one
      before it. */
  lemma LaterNotNewer(s: seq<Ticket>, k: nat)
    requires NewestFirst(s) && k <= |s|
    ensures forall t, u :: t in s[k..] && u in s[..k] ==> TextLe(t.createdAt, u.createdAt)
  {
    forall t, u | t in s[k..] && u in s[..k]
      ensures TextLe(t.createdAt, u.createdAt)
    {
      var j :| k <= j < |s| && s[j] == t;
      var i :| 0 <= i < k && s[i] == u;
    }
  }

  /** How many rows `LIMIT limit` lets through; a negative limit means none is set. */
  function LimitCount(limit: int, n: nat): (c: nat)
    ensures c <= n
    ensures 0 <= limit <= n ==> c == limit
    ensures limit < 0 || limit > n ==> c == n
  {
    if limit < 0 || limit > n then n else limit
  }

  // The table

  /** Ids increase with insertion order and never exceed the counter. */
  predicate IdsValid(rows: seq<Ticket>, lastId: nat)
  {
    && (forall i, j :: 0 <= i < j < |rows| ==> rows[i].id < rows[j].id)
    && (forall i :: 0 <= i < |rows| ==> 1 <= rows[i].id <= lastId)
  }

  /** Appending a row with the next id keeps ids increasing, and that id is
      larger than every id already in the table. */
  lemma AppendNextId(rows: seq<Ticket>, lastId: nat, row: Ticket)
    requires IdsValid(rows, lastId) && row.id == lastId + 1
    ensures IdsValid(rows + [row], lastId + 1)
    ensures forall t :: t in rows ==> t.id < row.id
  {
  }

  /** `ticket_data`: the caller's dictionary, which `insert_ticket` may
      update in place. */
  class TicketData {
    var fields: Record

    constructor (fields: Record)
      ensures this.fields == fields
    {
      this.fields := fields;
    }
  }

  /** The database file: whether `tickets` exists, its rows in insertion
      order, and the AUTOINCREMENT counter (the largest id ever assigned). */
  class TicketStore {
    var tableExists: bool
    var rows: seq<Ticket>
    var lastId: nat

    ghost predicate Valid()
      reads this
    {
      IdsValid(rows, lastId)
    }

    /** A fresh database file, before `init_db`. */
    constructor ()
      ensures Valid() && !tableExists && rows == [] && lastId == 0
    {
      tableExists, rows, lastId := false, [], 0;
    }

    /** `init_db`: CREATE TABLE IF NOT EXISTS. Existing rows are kept, so
        running it again changes nothing. */
    method InitDb()
      requires Valid()
      modifies this
      ensures Valid() && tableExists
      ensures rows == old(rows) && lastId == old(lastId)
    {
      tableExists := true;
    }

    /** `insert_ticket`: fills in `created_at` in the caller's dictionary when
        it is absent, then either appends exactly one row, with an id larger
        than every id assigned before, and returns that id, or raises and
        stores nothing. */
    method InsertTicket(data: TicketData, now: string) returns (r: Result<nat, StoreError>)
      requires Valid()
      modifies this, data
      ensures Valid() && tableExists == old(tableExists)
      ensures data.fields == WithTimestamp(old(data.fields), now)
      ensures Insertion(data.fields, old(tableExists), old(lastId) + 1).Ok? ==>
        && r == Ok(old(lastId) + 1)
        && rows == old(rows) + [Insertion(data.fields, old(tableExists), old(lastId) + 1).value]
        && lastId == old(lastId) + 1
      ensures Insertion(data.fields, old(tableExists), old(lastId) + 1).Err? ==>
        && r == Err(Insertion(data.fields, old(tableExists), old(lastId) + 1).error)
        && rows == old(rows) && lastId == old(lastId)
      ensures r.Ok? ==> |rows| == |old(rows)| + 1 && forall t :: t in old(rows) ==> t.id < r.value
    {
      if "created_at" !in data.fields {
        data.fields := data.fields["created_at" := Str(now)];
      }
      var outcome := Insertion(data.fields, tableExists, lastId + 1);
      match outcome
      case Err(e) =>
        r := Err(e);
      case Ok(row) =>
        InsertionId(data.fields, tableExists, lastId + 1);
        AppendNextId(rows, lastId, row);
        rows := rows + [row];
        lastId := lastId + 1;
        r := Ok(lastId);
    }

    /** `fetch_recent_tickets(limit)`: `LIMIT` many rows (all of them for a
        negative limit), newest first, drawn from the table, and no row left
        out is newer than a row returned. */
    method FetchRecentTickets(limit: int := 5) returns (r: Result<seq<Ticket>, StoreError>)
      ensures !tableExists ==> r == Err(NoSuchTable)
      ensures tableExists ==> r.Ok?
      ensures r.Ok? ==>
        && |r.value| == LimitCount(limit, |rows|)
        && NewestFirst(r.value)
        && multiset(r.value) <= multiset(rows)
        && forall t, u :: t in multiset(rows) - multiset(r.value) && u in r.value ==> TextLe(t.createdAt, u.createdAt)
    {
      if !tableExists {
        return Err(NoSuchTable);
      }
      var sorted := SortNewestFirst(rows);
      SortNewestFirstCorrect(rows);
      var k := LimitCount(limit, |rows|);
      assert |sorted| == |rows| by {
        assert |multiset(sorted)| == |multiset(rows)|;
      }
      PrefixIsNewest(sorted, k);
      r := Ok(sorted[..k]);
    }

    /** `fetch_all_tickets`: every row exactly once, newest first. */
    method FetchAllTickets() returns (r: Result<seq<Ticket>, StoreError>)
      ensures !tableExists ==> r == Err(NoSuchTable)
      ensures tableExists ==> r.Ok?
      ensures r.Ok? ==> |r.value| == |rows| && multiset(r.value) == multiset(rows) && NewestFirst(r.value)
    {
      if !tableExists {
        return Err(NoSuchTable);
      }
      var sorted := SortNewestFirst(rows);
      SortNewestFirstCorrect(rows);
      assert |multiset(sorted)| == |multiset(rows)|;
      r := Ok(sorted);
    }

    /** `get_ticket_count`: the number of rows, which every successful insert
        raises by one and nothing lowers. */
    method GetTicketCount() returns (r: Result<nat, StoreError>)
      ensures !tableExists ==> r == Err(NoSuchTable)
      ensures tableExists ==> r == Ok(|rows|)
    {
      if !tableExists {
        return Err(NoSuchTable);
      }
      r := Ok(|rows|);
    }
  }

  /** A stored row carries the id it was inserted with. */
  lemma InsertionId(data: Record, tableExists: bool, id: nat)
    requires Insertion(data, tableExists, id).Ok?
    ensures Insertion(data, tableExists, id).value.id == id
  {
    InsertionOk(data, tableExists, id);
  }

  /** A first ticket on a fresh database file: after `init_db`, an accepted
      record gets id 1, the count becomes one, and `fetch_recent_tickets(5)`
      returns just the stored row. */
  method FirstTicket(fields: Record, now: string)
    returns (id: Result<nat, StoreError>, count: Result<nat, StoreError>, recent: Result<seq<Ticket>, StoreError>)
    requires Insertion(WithTimestamp(fields, now), true, 1).Ok?
    ensures id == Ok(1) && count == Ok(1)
    ensures recent == Ok([Insertion(WithTimestamp(fields, now), true, 1).value])
  {
    var rec := WithTimestamp(fields, now);
    var row := Insertion(rec, true, 1).value;
    var store := new TicketStore();
    store.InitDb();
    var data := new TicketData(fields);
    id := store.InsertTicket(data, now);
    assert store.rows == [row];
    count := store.GetTicketCount();
    recent := store.FetchRecentTickets();
    SingleRowFetched(recent.value, row);
  }

  lemma SingleRowFetched(s: seq<Ticket>, row: Ticket)
    requires |s| == 1 && multiset(s) <= multiset([row])
    ensures s == [row]
  {
    assert s[0] in multiset(s);
  }
}
