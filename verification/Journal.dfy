/** internal/journal/log.go: the append-only journal and its compaction by operation. */
module Journal {
  import opened BackupModel

  datatype Entry = Entry(sequence: nat, generation: nat, kind: string, snapshotID: string, operation: string,
                         detail: string, recordedAt: int)

  datatype Log = Log(closed: bool, next: nat, entries: seq<Entry>)

  /** Entries are numbered 1, 2, 3, ... in the order of their append. */
  ghost predicate Numbered(l: Log) {
    l.next == |l.entries| + 1 && forall i :: 0 <= i < |l.entries| ==> l.entries[i].sequence == i + 1
  }

  function Appended(l: Log, entry: Entry): Log {
    if l.closed then l
    else Log(l.closed, l.next + 1, l.entries + [entry.(sequence := l.next)])
  }

  function AppendedAll(l: Log, entries: seq<Entry>): Log {
    if l.closed || entries == [] then l
    else Appended(AppendedAll(l, entries[..|entries| - 1]), entries[|entries| - 1])
  }

  class JournalLog {
    var closed: bool
    var next: nat
    var entries: seq<Entry>

    ghost function Contents(): Log
      reads this
    {
      Log(closed, next, entries)
    }

    constructor ()
      ensures Contents() == Log(false, 1, []) && Numbered(Contents())
    {
      closed, next, entries := false, 1, [];
    }

    method Append(entry: Entry) returns (r: Result<Entry>)
      requires Numbered(Contents())
      modifies this
      ensures Numbered(Contents()) && Contents() == Appended(old(Contents()), entry)
      ensures r == if old(closed) then Err(ErrJournalClosed) else Ok(entry.(sequence := old(next)))
    {
      if closed {
        return Err(ErrJournalClosed);
      }
      var numbered := entry.(sequence := next);
      next := next + 1;
      entries := entries + [numbered];
      r := Ok(numbered);
    }

    /** All entries or none, numbered as if appended one by one. */
    method AppendBatch(batch: seq<Entry>) returns (r: Result<seq<Entry>>)
      requires Numbered(Contents())
      modifies this
      ensures Numbered(Contents()) && Contents() == AppendedAll(old(Contents()), batch)
      ensures r.Err? <==> old(closed)
      ensures r.Ok? ==> entries == old(entries) + r.value
    {
      if closed {
        return Err(ErrJournalClosed);
      }
      var committed: seq<Entry> := [];
      for i := 0 to |batch|
        invariant !closed && entries == old(entries) && |committed| == i
        invariant Log(closed, next, entries + committed) == AppendedAll(old(Contents()), batch[..i])
        invariant Numbered(Log(closed, next, entries + committed))
      {
        assert batch[..i + 1][..i] == batch[..i];
        committed := committed + [batch[i].(sequence := next)];
        assert entries + committed == entries + committed[..i] + [committed[i]];
        next := next + 1;
      }
      assert batch[..|batch|] == batch;
      entries := entries + committed;
      r := Ok(committed);
    }

    method SetClosed(value: bool)
      modifies this
      ensures Contents() == old(Contents()).(closed := value)
    {
      closed := value;
    }
  }

  // ---------- latest entry of each operation ----------

  /** `a` beats `b`: higher generation, or the same and a higher sequence number. */
  predicate Beats(a: Entry, b: Entry) {
    a.generation > b.generation || (a.generation == b.generation && a.sequence > b.sequence)
  }

  datatype Table = Table(latest: map<string, Entry>, order: seq<string>)

  function Noted(t: Table, e: Entry): Table {
    if e.operation !in t.latest then Table(t.latest[e.operation := e], t.order + [e.operation])
    else if Beats(e, t.latest[e.operation]) then t.(latest := t.latest[e.operation := e])
    else t
  }

  function NotedAll(t: Table, entries: seq<Entry>): Table {
    if entries == [] then t else Noted(NotedAll(t, entries[..|entries| - 1]), entries[|entries| - 1])
  }

  const BLANK: Table := Table(map[], [])

  /** Each listed operation once, each with an entry of its own. */
  ghost predicate Tidy(t: Table) {
    && (forall i, j :: 0 <= i < j < |t.order| ==> t.order[i] != t.order[j])
    && (forall o :: o in t.latest <==> o in t.order)
    && (forall o :: o in t.latest ==> t.latest[o].operation == o)
  }

  function Rows(t: Table): (rows: seq<Entry>)
    requires forall o :: o in t.order ==> o in t.latest
    ensures |rows| == |t.order|
  {
    seq(|t.order|, i requires 0 <= i < |t.order| => t.latest[t.order[i]])
  }

  lemma {:induction false} NotedAllTidy(t: Table, entries: seq<Entry>)
    requires Tidy(t)
    ensures Tidy(NotedAll(t, entries))
  {
    if entries != [] {
      NotedAllTidy(t, entries[..|entries| - 1]);
      NotedTidy(NotedAll(t, entries[..|entries| - 1]), entries[|entries| - 1]);
    }
  }

  lemma NotedTidy(t: Table, e: Entry)
    requires Tidy(t)
    ensures Tidy(Noted(t, e))
  {
  }

  function Latest(entries: seq<Entry>): seq<Entry> {
    NotedAllTidy(BLANK, entries);
    Rows(NotedAll(BLANK, entries))
  }

  method LatestByOperation(entries: seq<Entry>) returns (result: seq<Entry>)
    ensures result == Latest(entries)
  {
    var latest: map<string, Entry> := map[];
    var order: seq<string> := [];
    for i := 0 to |entries|
      invariant Table(latest, order) == NotedAll(BLANK, entries[..i])
    {
      assert entries[..i + 1][..i] == entries[..i];
      var entry := entries[i];
      var known := entry.operation in latest;
      if !known {
        order := order + [entry.operation];
      }
      if !known || Beats(entry, latest[entry.operation]) {
        latest := latest[entry.operation := entry];
      }
    }
    assert entries[..|entries|] == entries;
    NotedAllTidy(BLANK, entries);
    result := [];
    for i := 0 to |order|
      invariant result == Latest(entries)[..i]
    {
      result := result + [latest[order[i]]];
    }
  }

  // ---------- the compaction law ----------

  lemma {:induction false} NotedAllConcat(t: Table, a: seq<Entry>, b: seq<Entry>)
    ensures NotedAll(t, a + b) == NotedAll(NotedAll(t, a), b)
  {
    if b == [] {
      assert a + b == a;
    } else {
      NotedAllConcat(t, a, b[..|b| - 1]);
      assert (a + b)[..|a + b| - 1] == a + b[..|b| - 1];
    }
  }

  ghost function FirstRows(t: Table, n: nat): Table
    requires n <= |t.order| && Tidy(t)
  {
    Table(map o | o in t.latest && o in t.order[..n] :: t.latest[o], t.order[..n])
  }

  lemma FirstRowsStep(t: Table, n: nat)
    requires n < |t.order| && Tidy(t)
    ensures Noted(FirstRows(t, n), Rows(t)[n]) == FirstRows(t, n + 1)
  {
    var o := t.order[n];
    assert t.order[..n + 1] == t.order[..n] + [o];
    assert o in t.order && o !in t.order[..n];
    assert Noted(FirstRows(t, n), Rows(t)[n]).latest == FirstRows(t, n + 1).latest;
  }

  /** Reading the rows of a table back gives the table. */
  lemma {:induction false} ReadBack(t: Table, n: nat)
    requires n <= |t.order| && Tidy(t)
    ensures NotedAll(BLANK, Rows(t)[..n]) == FirstRows(t, n)
  {
    if n > 0 {
      ReadBack(t, n - 1);
      assert Rows(t)[..n][..n - 1] == Rows(t)[..n - 1];
      FirstRowsStep(t, n - 1);
    }
  }

  /** A log may be replaced by its compaction before more entries arrive. */
  lemma CompactionLaw(a: seq<Entry>, b: seq<Entry>)
    ensures Latest(a + b) == Latest(Latest(a) + b)
    ensures Latest(Latest(a)) == Latest(a)
  {
    var t := NotedAll(BLANK, a);
    NotedAllTidy(BLANK, a);
    ReadBack(t, |t.order|);
    assert Rows(t)[..|t.order|] == Latest(a) && t.order[..|t.order|] == t.order;
    assert FirstRows(t, |t.order|).latest == t.latest;
    NotedAllConcat(BLANK, a, b);
    NotedAllConcat(BLANK, Latest(a), b);
  }

  // ---------- what the table holds ----------

  /** Operations in the order of their first entry. */
  function FirstSeen(entries: seq<Entry>): seq<string> {
    if entries == [] then []
    else
      var before, o := FirstSeen(entries[..|entries| - 1]), entries[|entries| - 1].operation;
      if o in before then before else before + [o]
  }

  ghost predicate IsMaximum(t: Table, entries: seq<Entry>) {
    && (forall e :: e in entries ==> e.operation in t.latest && !Beats(e, t.latest[e.operation]))
    && (forall o :: o in t.latest ==> t.latest[o] in entries)
  }

  lemma NotedIsMaximum(t: Table, entries: seq<Entry>, e: Entry)
    requires IsMaximum(t, entries) && Tidy(t)
    ensures IsMaximum(Noted(t, e), entries + [e])
  {
    var u, all := Noted(t, e), entries + [e];
    assert forall x :: x in all <==> x in entries || x == e;
  }

  lemma {:induction false} OrderIsFirstSeen(entries: seq<Entry>)
    ensures NotedAll(BLANK, entries).order == FirstSeen(entries)
  {
    if entries != [] {
      var rest := entries[..|entries| - 1];
      OrderIsFirstSeen(rest);
      NotedAllTidy(BLANK, rest);
      assert entries[|entries| - 1].operation in NotedAll(BLANK, rest).latest <==>
        entries[|entries| - 1].operation in FirstSeen(rest);
    }
  }

  lemma {:induction false} TableIsMaximum(entries: seq<Entry>)
    ensures IsMaximum(NotedAll(BLANK, entries), entries)
  {
    if entries != [] {
      var rest, e := entries[..|entries| - 1], entries[|entries| - 1];
      assert rest + [e] == entries;
      var t := NotedAll(BLANK, rest);
      assert NotedAll(BLANK, entries) == Noted(t, e);
      assert IsMaximum(Noted(t, e), rest + [e]) by {
        TableIsMaximum(rest);
        NotedAllTidy(BLANK, rest);
        NotedIsMaximum(t, rest, e);
      }
    }
  }

  /** One row per operation, in first-appearance order: an entry of the operation of greatest generation
      and, within that, of greatest sequence number. */
  lemma LatestIsMaximum(entries: seq<Entry>)
    ensures |Latest(entries)| == |FirstSeen(entries)|
    ensures forall i :: 0 <= i < |Latest(entries)| ==> Latest(entries)[i].operation == FirstSeen(entries)[i]
    ensures forall i :: 0 <= i < |Latest(entries)| ==> Latest(entries)[i] in entries
    ensures forall i, j :: 0 <= i < j < |Latest(entries)| ==>
              Latest(entries)[i].operation != Latest(entries)[j].operation
    ensures forall e :: e in entries ==> e.operation in FirstSeen(entries)
    ensures forall i, e :: 0 <= i < |Latest(entries)| && e in entries && e.operation == FirstSeen(entries)[i] ==>
              var row := Latest(entries)[i];
              e.generation < row.generation || (e.generation == row.generation && e.sequence <= row.sequence)
  {
    OrderIsFirstSeen(entries);
    TableIsMaximum(entries);
    NotedAllTidy(BLANK, entries);
    var t := NotedAll(BLANK, entries);
    assert forall i :: 0 <= i < |t.order| ==> t.order[i] in t.latest && Rows(t)[i] == t.latest[t.order[i]];
  }
}
