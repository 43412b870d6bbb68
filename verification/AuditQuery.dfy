/** Paged queries over the audit log. */
module AuditQuery {
  import opened Seqs

  const MAX_TAIL := 100_000
  const DEFAULT_WINDOW := 100

  datatype Record = Record(id: nat, ts: real, machine: Option<string>, action: string, status: string)

  datatype Filter = Filter(
    action: Option<string>, machine: Option<string>, status: Option<string>, since: Option<real>, until: Option<real>)

  predicate Keeps(f: Filter, r: Record) {
    && (f.action.None? || r.action == f.action.value)
    && (f.machine.None? || r.machine == f.machine)
    && (f.status.None? || r.status == f.status.value)
    && (f.since.None? || r.ts >= f.since.value)
    && (f.until.None? || r.ts < f.until.value)
  }

  /** The table holds its rows in id order. */
  ghost predicate InIdOrder(rows: seq<Record>) {
    forall i, j :: 0 <= i < j < |rows| ==> rows[i].id < rows[j].id
  }

  function Filtered(f: Filter, rows: seq<Record>): seq<Record> {
    if rows == [] then []
    else (if Keeps(f, rows[0]) then [rows[0]] else []) + Filtered(f, rows[1..])
  }

  datatype Answer = BadArguments | Answer(records: seq<Record>, total: nat, tailSize: nat)

  function EndOf(start: int, end: Option<int>): int {
    if end.Some? then end.value else start + DEFAULT_WINDOW
  }

  predicate BadWindow(tail: int, start: int, end: Option<int>) {
    !(0 < tail <= MAX_TAIL) || start < 0 || EndOf(start, end) < 1 || EndOf(start, end) <= start
  }

  /** `table` is none when there is no database file. */
  function Query(table: Option<seq<Record>>, tail: int, start: int, end: Option<int>, f: Filter): Answer {
    if BadWindow(tail, start, end) then BadArguments
    else if table.None? then Answer([], 0, 0)
    else
      var scanned := LastN(table.value, tail);
      var kept := Filtered(f, scanned);
      var from := Min(start, |kept|);
      Answer(kept[from..Min(EndOf(start, end), |kept|)], |kept|, |scanned|)
  }

  /** The window the handler reports. */
  function Window(answer: Answer, start: int, end: Option<int>): (int, int)
    requires answer.Answer?
  {
    (Min(start, answer.total), Min(EndOf(start, end), answer.total))
  }

  lemma FilteredCons(f: Filter, first: Record, rest: seq<Record>)
    ensures Filtered(f, [first] + rest) == (if Keeps(f, first) then [first] else []) + Filtered(f, rest)
  {
    hide Keeps;
    assert ([first] + rest)[1..] == rest;
  }

  lemma {:induction false} FilteredConcat(f: Filter, a: seq<Record>, b: seq<Record>)
    ensures Filtered(f, a + b) == Filtered(f, a) + Filtered(f, b)
    decreases |a|
  {
    hide Filtered, Keeps;
    if a == [] {
      FilteredNone(f);
      assert a + b == b && [] + Filtered(f, b) == Filtered(f, b);
    } else {
      var first, rest := a[0], a[1..];
      assert a == [first] + rest && a + b == [first] + (rest + b);
      FilteredConcat(f, rest, b);
      FilteredCons(f, first, rest);
      FilteredCons(f, first, rest + b);
      Assoc(if Keeps(f, first) then [first] else [], Filtered(f, rest), Filtered(f, b));
    }
  }

  lemma FilteredNone(f: Filter)
    ensures Filtered(f, []) == []
  {
  }

  /** Filtering keeps exactly the matching rows, in id order. */
  lemma {:induction false} FilteredExact(f: Filter, rows: seq<Record>)
    requires InIdOrder(rows)
    ensures forall r :: r in Filtered(f, rows) <==> r in rows && Keeps(f, r)
    ensures InIdOrder(Filtered(f, rows))
    ensures |Filtered(f, rows)| <= |rows|
    decreases |rows|
  {
    hide Filtered, Keeps, InIdOrder;
    if rows == [] {
      FilteredNone(f);
    } else {
      var first, rest := rows[0], rows[1..];
      assert rows == [first] + rest;
      FilteredCons(f, first, rest);
      OrderCons(first, rest);
      FilteredExact(f, rest);
      FilteredOrder(f, first, rest);
      assert forall r :: r in rows <==> r == first || r in rest;
    }
  }

  lemma OrderCons(first: Record, rest: seq<Record>)
    ensures InIdOrder([first] + rest) <==> InIdOrder(rest) && forall r :: r in rest ==> first.id < r.id
  {
    var rows := [first] + rest;
    if InIdOrder(rows) {
      forall i, j | 0 <= i < j < |rest| ensures rest[i].id < rest[j].id { assert rows[i + 1].id < rows[j + 1].id; }
      forall r | r in rest ensures first.id < r.id {
        var j :| 0 <= j < |rest| && rest[j] == r;
        assert rows[0].id < rows[j + 1].id;
      }
    }
  }

  lemma FilteredOrder(f: Filter, first: Record, rest: seq<Record>)
    requires InIdOrder([first] + rest) && InIdOrder(Filtered(f, rest))
    requires forall r :: r in Filtered(f, rest) ==> r in rest
    ensures InIdOrder((if Keeps(f, first) then [first] else []) + Filtered(f, rest))
  {
    hide Filtered, Keeps, InIdOrder;
    OrderCons(first, rest);
    OrderCons(first, Filtered(f, rest));
    assert [] + Filtered(f, rest) == Filtered(f, rest);
  }

  /** What matching means, filter by filter: an absent one lets everything through, machine and the names ask for the same
      value, the times for since <= ts < until. */
  lemma KeepsExactly(f: Filter, rows: seq<Record>, r: Record)
    requires InIdOrder(rows)
    ensures r in Filtered(f, rows) <==>
            && r in rows
            && f.action in {None, Some(r.action)} && f.status in {None, Some(r.status)}
            && (f.machine == None || r.machine == Some(f.machine.value))
            && (forall t :: f.since == Some(t) ==> t <= r.ts) && (forall t :: f.until == Some(t) ==> r.ts < t)
  {
    hide Filtered, InIdOrder;
    FilteredExact(f, rows);
  }

  /** A query is refused exactly for a tail that is not between 1 and 100000, a negative start, or an end below 1 or not
      after the start; without an end, 100 records are meant. Without a database it finds nothing. */
  lemma RefusedIff(table: Option<seq<Record>>, tail: int, start: int, end: Option<int>, f: Filter)
    ensures Query(table, tail, start, end, f) == BadArguments <==>
            tail < 1 || tail > 100_000 || start < 0 || (end.Some? && (end.value < 1 || end.value <= start))
    ensures end.None? ==> Query(table, tail, start, end, f) == Query(table, tail, start, Some(start + 100), f)
    ensures table.None? && Query(table, tail, start, end, f).Answer? ==> Query(table, tail, start, end, f) == Answer([], 0, 0)
  {
    hide Filtered, LastN;
  }

  /** A query sees the matching ones of the last rows only: the end of what an unlimited tail would list. */
  lemma TailIsSuffix(f: Filter, rows: seq<Record>, tail: nat)
    ensures var all, kept := Filtered(f, rows), Filtered(f, LastN(rows, tail));
            |kept| <= |all| && kept == all[|all| - |kept|..]
  {
    var n := |rows| - |LastN(rows, tail)|;
    assert rows == rows[..n] + LastN(rows, tail);
    FilteredConcat(f, rows[..n], LastN(rows, tail));
  }

  /** Every valid query over an existing table: the counts are bounded, and the reported window is as long as the records. */
  lemma QueryCounts(rows: seq<Record>, tail: int, start: int, end: Option<int>, f: Filter)
    requires !BadWindow(tail, start, end) && InIdOrder(rows)
    ensures var a := Query(Some(rows), tail, start, end, f); var (from, to) := Window(a, start, end);
            && a.total <= a.tailSize == Min(tail, |rows|)
            && 0 <= from <= to <= a.total && to - from == |a.records|
            && a.records == Filtered(f, LastN(rows, tail))[from..to]
            && from == Min(start, a.total) && to == Min(if end.Some? then end.value else start + 100, a.total)
            && (forall r :: r in a.records ==> r in rows && Keeps(f, r))
            && InIdOrder(a.records)
  {
    var scanned := LastN(rows, tail);
    FilteredExact(f, scanned);
    var kept := Filtered(f, scanned);
    var a := Query(Some(rows), tail, start, end, f);
    assert forall r :: r in a.records ==> r in kept;
  }

  /** The records of the first k windows of a width. */
  function Pages(rows: seq<Record>, tail: int, width: nat, f: Filter, k: nat): seq<Record>
    requires 0 < tail <= MAX_TAIL && 1 <= width
  {
    if k == 0 then []
    else
      var start := (k - 1) * width;
      OnePage(rows, tail, start, width, f);
      Pages(rows, tail, width, f, k - 1) + Query(Some(rows), tail, start, Some(start + width), f).records
  }

  /** Consecutive windows put together are the whole filtered tail, each record once. */
  lemma {:induction false} PagesTile(rows: seq<Record>, tail: int, width: nat, f: Filter, k: nat)
    requires 0 < tail <= MAX_TAIL && 1 <= width
    ensures var kept := Filtered(f, LastN(rows, tail));
            && Pages(rows, tail, width, f, k) == kept[..Min(k * width, |kept|)]
            && (|kept| <= k * width ==> Pages(rows, tail, width, f, k) == kept)
  {
    hide Query, Filtered, LastN;
    var kept := Filtered(f, LastN(rows, tail));
    if k > 0 {
      PagesTile(rows, tail, width, f, k - 1);
      var start := (k - 1) * width;
      assert k * width == start + width;
      OnePage(rows, tail, start, width, f);
      var a, b := Min(start, |kept|), Min(start + width, |kept|);
      assert kept[..a] + kept[a..b] == kept[..b];
    }
  }

  lemma OnePage(rows: seq<Record>, tail: int, start: nat, width: nat, f: Filter)
    requires 0 < tail <= MAX_TAIL && 1 <= width
    ensures var kept, a := Filtered(f, LastN(rows, tail)), Query(Some(rows), tail, start, Some(start + width), f);
            a.Answer? && a.records == kept[Min(start, |kept|)..Min(start + width, |kept|)]
  {
  }
}
