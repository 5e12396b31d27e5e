/** One index run on the wire: an optional parent id and a strictly ordered table of keys to values or
    tombstones (src/storage/catalog.rs, the bodies of `Index::load` and `Index::flush`). */
module IndexRun {
  import opened Bytes

  type Id = Digest
  type Key = Bytes
  type Table = map<Key, Option<Bytes>>

  const MAX_KEY: nat := 256

  datatype Record = Record(key: Key, value: Option<Bytes>)
  datatype Run = Run(parent: Option<Id>, table: Table)
  datatype Step<+T> = Step(value: T, rest: Bytes)

  // Byte order of keys

  predicate Less(a: Bytes, b: Bytes)
    decreases |b|
  {
    b != [] && (a == [] || a[0] < b[0] || (a[0] == b[0] && Less(a[1..], b[1..])))
  }

  lemma {:induction false} LessTransitive(a: Bytes, b: Bytes, c: Bytes)
    requires Less(a, b) && Less(b, c)
    ensures Less(a, c)
    decreases |c|
  {
    if a != [] && a[0] == b[0] == c[0] {
      LessTransitive(a[1..], b[1..], c[1..]);
    }
  }

  lemma {:induction false} LessIrreflexive(a: Bytes)
    ensures !Less(a, a)
    decreases |a|
  {
    if a != [] {
      LessIrreflexive(a[1..]);
    }
  }

  lemma {:induction false} LessTotal(a: Bytes, b: Bytes)
    ensures a == b || Less(a, b) || Less(b, a)
    decreases |b|
  {
    if a != [] && b != [] && a[0] == b[0] {
      LessTotal(a[1..], b[1..]);
      assert a == [a[0]] + a[1..] && b == [b[0]] + b[1..];
    }
  }

  // A table and its ordered listing

  predicate Ascending(rs: seq<Record>) {
    forall i, j | 0 <= i < j < |rs| :: Less(rs[i].key, rs[j].key)
  }

  function TableOf(rs: seq<Record>): Table {
    if rs == [] then map[] else TableOf(rs[1..])[rs[0].key := rs[0].value]
  }

  ghost predicate IsLeast(k: Key, s: set<Key>) {
    k in s && forall j | j in s :: j == k || Less(k, j)
  }

  lemma {:induction false} LeastExists(s: set<Key>)
    requires s != {}
    ensures exists k :: IsLeast(k, s)
  {
    var x :| x in s;
    if s == {x} {
      assert IsLeast(x, s);
    } else {
      var rest := s - {x};
      LeastExists(rest);
      var y :| IsLeast(y, rest);
      LessTotal(x, y);
      if Less(x, y) {
        forall j | j in rest
          ensures Less(x, j)
        {
          if j != y {
            LessTransitive(x, y, j);
          }
        }
        assert IsLeast(x, s);
      } else {
        assert IsLeast(y, s);
      }
    }
  }

  /** The order in which a B-tree map is iterated. */
  ghost function Listing(t: Table): (rs: seq<Record>)
    ensures Ascending(rs) && |rs| == |t|
    ensures forall r | r in rs :: r.key in t && t[r.key] == r.value
    decreases |t|
  {
    if t == map[] then [] else
    LeastExists(t.Keys);
    var k :| IsLeast(k, t.Keys);
    Shrinks(t, k);
    [Record(k, t[k])] + Listing(t - {k})
  }

  lemma Shrinks(t: Table, k: Key)
    requires k in t
    ensures |t - {k}| == |t| - 1
  {
    assert t.Keys == (t - {k}).Keys + {k};
  }

  lemma {:induction false} TableOfListing(t: Table)
    ensures TableOf(Listing(t)) == t
    decreases |t|
  {
    if t != map[] {
      var rs := Listing(t);
      var k := rs[0].key;
      Shrinks(t, k);
      assert rs[1..] == Listing(t - {k});
      TableOfListing(t - {k});
    }
  }

  lemma {:induction false} TableTakesListed(rs: seq<Record>)
    ensures forall k | k in TableOf(rs) :: Record(k, TableOf(rs)[k]) in rs
  {
    if rs != [] {
      TableTakesListed(rs[1..]);
    }
  }

  lemma TableOfTail(rs: seq<Record>)
    requires Ascending(rs) && rs != []
    ensures TableOf(rs) - {rs[0].key} == TableOf(rs[1..])
    ensures IsLeast(rs[0].key, TableOf(rs).Keys)
  {
    LessIrreflexive(rs[0].key);
    TableTakesListed(rs[1..]);
    assert rs[0].key !in TableOf(rs[1..]);
  }

  lemma LeastUnique(j: Key, k: Key, s: set<Key>)
    requires IsLeast(j, s) && IsLeast(k, s)
    ensures j == k
  {
    if j != k {
      LessTransitive(k, j, k);
      LessIrreflexive(k);
    }
  }

  /** A table has one ordered listing. */
  lemma {:induction false} ListingOfTable(rs: seq<Record>)
    requires Ascending(rs)
    ensures |TableOf(rs)| == |rs| && Listing(TableOf(rs)) == rs
  {
    if rs != [] {
      var t := TableOf(rs);
      TableOfTail(rs);
      ListingOfTable(rs[1..]);
      Shrinks(t, rs[0].key);
      var k :| k == Listing(t)[0].key;
      ListingHead(t);
      LeastUnique(k, rs[0].key, t.Keys);
      assert rs == [rs[0]] + rs[1..];
    }
  }

  lemma ListingHead(t: Table)
    requires t != map[]
    ensures var k := Listing(t)[0].key;
      IsLeast(k, t.Keys) && Listing(t) == [Record(k, t[k])] + Listing(t - {k})
  {
  }

  // Printer

  predicate Printable(t: Table) {
    && |t| < U32_LIMIT
    && forall k | k in t :: 0 < |k| <= MAX_KEY && (t[k].Some? ==> |t[k].value| < U32_LIMIT)
  }

  predicate PrintableRecord(r: Record) {
    0 < |r.key| <= MAX_KEY && (r.value.Some? ==> |r.value.value| < U32_LIMIT)
  }

  function PrintId(id: Option<Id>): Bytes {
    if id.None? then [0] else [1] + id.value
  }

  /** `u32_bytes`; lengths are checked to fit before anything printed is used. */
  function Length(n: nat): Bytes {
    ToLE(n, 4)
  }

  function PrintValue(v: Option<Bytes>): Bytes {
    if v.None? then [0] else [1] + Length(|v.value|) + v.value
  }

  function PrintRecord(r: Record): Bytes {
    Length(|r.key|) + r.key + PrintValue(r.value)
  }

  function PrintRecords(rs: seq<Record>): Bytes {
    if rs == [] then [] else PrintRecord(rs[0]) + PrintRecords(rs[1..])
  }

  ghost function PrintRun(run: Run): Bytes {
    PrintId(run.parent) + Length(|run.table|) + PrintRecords(Listing(run.table))
  }

  // Parser

  function Take(b: Bytes, n: nat): Result<Step<Bytes>> {
    if n <= |b| then Ok(Step(b[..n], b[n..])) else Err(Corrupt)
  }

  function TakeU32(b: Bytes): Result<Step<u32>> {
    var s :- Take(b, 4);
    Ok(Step(GetU32(s.value, 0), s.rest))
  }

  function ParseId(b: Bytes): Result<Step<Option<Id>>> {
    var tag :- Take(b, 1);
    if tag.value[0] == 0 then Ok(Step(None, tag.rest))
    else if tag.value[0] == 1 then
      var id :- Take(tag.rest, 32);
      Ok(Step(Some(id.value), id.rest))
    else Err(Corrupt)
  }

  function ParseValue(b: Bytes): Result<Step<Option<Bytes>>> {
    var tag :- Take(b, 1);
    if tag.value[0] == 0 then Ok(Step(None, tag.rest))
    else if tag.value[0] == 1 then
      var length :- TakeU32(tag.rest);
      var value :- Take(length.rest, length.value);
      Ok(Step(Some(value.value), value.rest))
    else Err(Corrupt)
  }

  function ParseKey(b: Bytes): Result<Step<Key>> {
    var length :- TakeU32(b);
    if length.value == 0 || length.value > MAX_KEY then Err(Range) else Take(length.rest, length.value)
  }

  function ParseRecord(b: Bytes, previous: Option<Key>): Result<Step<Record>> {
    var key :- ParseKey(b);
    if previous.Some? && !Less(previous.value, key.value) then Err(Corrupt) else
    var value :- ParseValue(key.rest);
    Ok(Step(Record(key.value, value.value), value.rest))
  }

  function ParseRecords(b: Bytes, count: nat, previous: Option<Key>): Result<Step<seq<Record>>>
    decreases count
  {
    if count == 0 then Ok(Step([], b)) else
    var first :- ParseRecord(b, previous);
    var others :- ParseRecords(first.rest, count - 1, Some(first.value.key));
    Ok(Step([first.value] + others.value, others.rest))
  }

  /** The bound the loader puts on a claimed record count before reading any record. */
  predicate CountGuard(count: nat, length: nat) {
    count <= length / 9
  }

  function ParseRun(raw: Bytes): Result<Run> {
    var parent :- ParseId(raw);
    var count :- TakeU32(parent.rest);
    if !CountGuard(count.value, |raw|) then Err(Range) else
    var records :- ParseRecords(count.rest, count.value, None);
    if records.rest != [] then Err(Corrupt) else Ok(Run(parent.value, TableOf(records.value)))
  }

  // Parsing undoes printing

  lemma TakePrefix(a: Bytes, rest: Bytes)
    ensures Take(a + rest, |a|) == Ok(Step(a, rest))
  {
    assert (a + rest)[..|a|] == a && (a + rest)[|a|..] == rest;
  }

  lemma TakeU32Prefix(n: u32, rest: Bytes)
    ensures TakeU32(Length(n) + rest) == Ok(Step(n, rest))
  {
    TakePrefix(Length(n), rest);
    assert Length(n) == U32(n);
    assert U32(n)[0..4] == U32(n);
  }

  lemma ParsePrintId(id: Option<Id>, rest: Bytes)
    ensures ParseId(PrintId(id) + rest) == Ok(Step(id, rest))
  {
    if id.None? {
      TakePrefix([0], rest);
    } else {
      assert PrintId(id) + rest == [1] + (id.value + rest);
      TakePrefix([1], id.value + rest);
      TakePrefix(id.value, rest);
    }
  }

  lemma ParsePrintValue(v: Option<Bytes>, rest: Bytes)
    requires v.Some? ==> |v.value| < U32_LIMIT
    ensures ParseValue(PrintValue(v) + rest) == Ok(Step(v, rest))
  {
    hide Length;
    if v.None? {
      TakePrefix([0], rest);
    } else {
      assert PrintValue(v) + rest == [1] + (Length(|v.value|) + (v.value + rest));
      TakePrefix([1], Length(|v.value|) + (v.value + rest));
      TakeU32Prefix(|v.value|, v.value + rest);
      TakePrefix(v.value, rest);
    }
  }

  lemma ParsePrintRecord(r: Record, previous: Option<Key>, rest: Bytes)
    requires PrintableRecord(r)
    requires previous.Some? ==> Less(previous.value, r.key)
    ensures ParseRecord(PrintRecord(r) + rest, previous) == Ok(Step(r, rest))
  {
    hide Length, PrintValue, ParseValue;
    var tail := PrintValue(r.value) + rest;
    assert PrintRecord(r) + rest == Length(|r.key|) + (r.key + tail);
    TakeU32Prefix(|r.key|, r.key + tail);
    TakePrefix(r.key, tail);
    ParsePrintValue(r.value, rest);
  }

  lemma {:induction false} ParsePrintRecords(rs: seq<Record>, previous: Option<Key>, rest: Bytes)
    requires Ascending(rs) && forall r | r in rs :: PrintableRecord(r)
    requires previous.Some? && rs != [] ==> Less(previous.value, rs[0].key)
    ensures ParseRecords(PrintRecords(rs) + rest, |rs|, previous) == Ok(Step(rs, rest))
  {
    hide PrintRecord, ParseRecord, Less;
    if rs == [] {
      assert PrintRecords(rs) + rest == rest;
    } else {
      var tail := PrintRecords(rs[1..]) + rest;
      assert PrintRecords(rs) + rest == PrintRecord(rs[0]) + tail;
      ParsePrintRecord(rs[0], previous, tail);
      ParsePrintRecords(rs[1..], Some(rs[0].key), rest);
      assert rs == [rs[0]] + rs[1..];
    }
  }

  /** Reading back a printed run gives the run exactly when the count guard admits it. */
  lemma ParsePrintRun(run: Run)
    requires Printable(run.table)
    ensures ParseRun(PrintRun(run)) ==
      if CountGuard(|run.table|, |PrintRun(run)|) then Ok(run) else Err(Range)
  {
    hide Length, PrintRecords, ParseRecords;
    var rs := Listing(run.table);
    var body := PrintRecords(rs);
    assert PrintRun(run) == PrintId(run.parent) + (Length(|run.table|) + body);
    ParsePrintId(run.parent, Length(|run.table|) + body);
    TakeU32Prefix(|run.table|, body);
    ParsePrintRecords(rs, None, []);
    assert body + [] == body;
    TableOfListing(run.table);
  }

  /** The parent can be read back from any printed run. */
  lemma PrintedParent(run: Run)
    ensures ParseId(PrintRun(run)).Ok? && ParseId(PrintRun(run)).value.value == run.parent
  {
    var rest := Length(|run.table|) + PrintRecords(Listing(run.table));
    assert PrintRun(run) == PrintId(run.parent) + rest;
    ParsePrintId(run.parent, rest);
  }

  /** Printing is injective, whether or not the loader would accept the result. */
  lemma PrintRunInjective(a: Run, b: Run)
    requires Printable(a.table) && Printable(b.table) && PrintRun(a) == PrintRun(b)
    ensures a == b
  {
    PrintedPieces(a);
    PrintedPieces(b);
  }

  lemma PrintedPieces(run: Run)
    requires Printable(run.table)
    ensures var raw := PrintRun(run);
      && ParseId(raw).Ok? && ParseId(raw).value.value == run.parent
      && var count := TakeU32(ParseId(raw).value.rest);
      && count.Ok?
      && var records := ParseRecords(count.value.rest, count.value.value, None);
      && records.Ok? && TableOf(records.value.value) == run.table
  {
    hide Length, PrintRecords, ParseRecords, ParseId, PrintId;
    var rs := Listing(run.table);
    var body := PrintRecords(rs);
    assert PrintRun(run) == PrintId(run.parent) + (Length(|run.table|) + body);
    ParsePrintId(run.parent, Length(|run.table|) + body);
    TakeU32Prefix(|run.table|, body);
    ParsePrintRecords(rs, None, []);
    assert body + [] == body;
    TableOfListing(run.table);
  }

  // Printing undoes parsing

  lemma TakeSplits(b: Bytes, n: nat)
    requires Take(b, n).Ok?
    ensures b == Take(b, n).value.value + Take(b, n).value.rest
  {
  }

  lemma PrintParseId(b: Bytes)
    requires ParseId(b).Ok?
    ensures b == PrintId(ParseId(b).value.value) + ParseId(b).value.rest
  {
    TakeSplits(b, 1);
    var tag := Take(b, 1).value;
    assert tag.value == [tag.value[0]];
    if tag.value[0] == 1 {
      TakeSplits(tag.rest, 32);
    }
  }

  lemma Regroup(a: Bytes, b: Bytes, c: Bytes, d: Bytes)
    ensures a + (b + (c + d)) == a + b + c + d
  {
  }

  lemma PrintParseU32(b: Bytes)
    requires TakeU32(b).Ok?
    ensures b == Length(TakeU32(b).value.value) + TakeU32(b).value.rest
  {
    TakeSplits(b, 4);
    assert b[..4][0..4] == b[..4];
    ToFromLE(b[..4]);
  }

  lemma PrintParseValue(b: Bytes)
    requires ParseValue(b).Ok?
    ensures var v := ParseValue(b).value;
      && (v.value.Some? ==> |v.value.value| < U32_LIMIT)
      && b == PrintValue(v.value) + v.rest
  {
    hide Length, GetU32;
    TakeSplits(b, 1);
    var tag := Take(b, 1).value;
    assert tag.value == [tag.value[0]];
    if tag.value[0] == 1 {
      PrintParseU32(tag.rest);
      var length := TakeU32(tag.rest).value;
      TakeSplits(length.rest, length.value);
      var value := Take(length.rest, length.value).value;
      Regroup([1], Length(length.value), value.value, value.rest);
    }
  }

  lemma PrintParseRecord(b: Bytes, previous: Option<Key>)
    requires ParseRecord(b, previous).Ok?
    ensures PrintableRecord(ParseRecord(b, previous).value.value)
    ensures b == PrintRecord(ParseRecord(b, previous).value.value) + ParseRecord(b, previous).value.rest
    ensures previous.Some? ==> Less(previous.value, ParseRecord(b, previous).value.value.key)
  {
    hide Length, GetU32, PrintValue, ParseValue;
    PrintParseU32(b);
    var length := TakeU32(b).value;
    TakeSplits(length.rest, length.value);
    var key := Take(length.rest, length.value).value;
    PrintParseValue(key.rest);
    var value := ParseValue(key.rest).value;
    Regroup(Length(length.value), key.value, PrintValue(value.value), value.rest);
  }

  lemma AscendingCons(r: Record, rs: seq<Record>)
    requires Ascending(rs) && (rs != [] ==> Less(r.key, rs[0].key))
    ensures Ascending([r] + rs)
  {
    forall j | 0 < j < |rs|
      ensures Less(r.key, rs[j].key)
    {
      LessTransitive(r.key, rs[0].key, rs[j].key);
    }
  }

  lemma {:induction false} ParsedInOrder(b: Bytes, count: nat, previous: Option<Key>)
    requires ParseRecords(b, count, previous).Ok?
    ensures var rs := ParseRecords(b, count, previous).value.value;
      && |rs| == count
      && (forall r | r in rs :: PrintableRecord(r))
      && Ascending(rs)
      && (previous.Some? && rs != [] ==> Less(previous.value, rs[0].key))
    decreases count
  {
    hide ParseRecord, Less;
    if count > 0 {
      PrintParseRecord(b, previous);
      var first := ParseRecord(b, previous).value;
      ParsedInOrder(first.rest, count - 1, Some(first.value.key));
      AscendingCons(first.value, ParseRecords(first.rest, count - 1, Some(first.value.key)).value.value);
    }
  }

  lemma {:induction false} PrintParseRecords(b: Bytes, count: nat, previous: Option<Key>)
    requires ParseRecords(b, count, previous).Ok?
    ensures b == PrintRecords(ParseRecords(b, count, previous).value.value) + ParseRecords(b, count, previous).value.rest
    decreases count
  {
    hide PrintRecord, ParseRecord, Less;
    if count > 0 {
      PrintParseRecord(b, previous);
      var first := ParseRecord(b, previous).value;
      PrintParseRecords(first.rest, count - 1, Some(first.value.key));
      var others := ParseRecords(first.rest, count - 1, Some(first.value.key)).value;
      assert ([first.value] + others.value)[1..] == others.value;
    }
  }

  /** Whatever the loader accepts is the one printing of the run it returns. */
  lemma PrintParseRun(raw: Bytes)
    requires ParseRun(raw).Ok?
    ensures Printable(ParseRun(raw).value.table)
    ensures PrintRun(ParseRun(raw).value) == raw
  {
    hide Length, GetU32, PrintRecords, ParseRecords;
    PrintParseId(raw);
    var parent := ParseId(raw).value;
    PrintParseU32(parent.rest);
    var count := TakeU32(parent.rest).value;
    ParsedInOrder(count.rest, count.value, None);
    PrintParseRecords(count.rest, count.value, None);
    var rs := ParseRecords(count.rest, count.value, None).value.value;
    Regroup(PrintId(parent.value), Length(count.value), PrintRecords(rs), []);
    ListingOfTable(rs);
    TableTakesListed(rs);
  }

  // The count guard

  lemma {:induction false} RecordsLength(rs: seq<Record>)
    requires forall r | r in rs :: PrintableRecord(r) && (r.value.None? ==> |r.key| >= 4)
    ensures |PrintRecords(rs)| >= 9 * |rs|
  {
    if rs != [] {
      assert |PrintRecord(rs[0])| >= 9;
      RecordsLength(rs[1..]);
    }
  }

  /** Removed keys of at least four bytes always pass the guard. */
  lemma LongKeysPassGuard(run: Run)
    requires Printable(run.table)
    requires forall k | k in run.table && run.table[k].None? :: |k| >= 4
    ensures CountGuard(|run.table|, |PrintRun(run)|)
  {
    RecordsLength(Listing(run.table));
  }
}
