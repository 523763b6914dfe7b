/** internal/audit/ledger.go: the hash-chained audit ledger. */
module AuditLedger {
  import opened Formats

  /** Hexadecimal SHA-256 of a text; all that is known of it is that no '|' comes out. */
  type TextHash = h: string -> string | (forall s :: '|' !in h(s)) witness (s: string) => ""

  /** The hashed part of an event. `recorded` is the RFC 3339 text of the UTC instant, which is the
      form that gets hashed. */
  datatype Body = Body(
    sequence: nat, kind: string, objectID: string, detail: string, recorded: string, previous: string)

  datatype Event = Event(body: Body, hash: string)

  /** The fields of a format such as "%s|%s|%s" put together. */
  function Join(fields: seq<string>): string
    requires fields != []
  {
    if |fields| == 1 then fields[0] else fields[0] + "|" + Join(fields[1..])
  }

  function Fields(e: Body): seq<string> {
    [Decimal(e.sequence), e.kind, e.objectID, e.detail, e.recorded, e.previous]
  }

  /** "%d|%s|%s|%s|%s|%s" */
  function Preimage(e: Body): string {
    Join(Fields(e))
  }

  function PreviousHash(events: seq<Event>, i: nat): string
    requires i <= |events|
  {
    if i == 0 then "" else events[i - 1].hash
  }

  /** `hash(event)` of the program. */
  function EventHash(h: TextHash): Body -> string {
    Composed(h, Preimage)
  }

  function Composed(h: TextHash, text: Body -> string): Body -> string {
    (e: Body) => h(text(e))
  }

  predicate Linked(digest: Body -> string, events: seq<Event>, i: nat)
    requires i < |events|
  {
    && events[i].body.sequence == i + 1
    && events[i].body.previous == PreviousHash(events, i)
    && events[i].hash == digest(events[i].body)
  }

  ghost predicate Chained(digest: Body -> string, events: seq<Event>) {
    forall i :: 0 <= i < |events| ==> Linked(digest, events, i)
  }

  class Ledger {
    /** `EventHash` with the program's hash. */
    const digest: Body -> string
    var next: nat
    var events: seq<Event>

    /** What `Record` keeps: exactly what `Verify` checks. */
    ghost predicate Valid()
      reads this
    {
      next == |events| + 1 && Chained(digest, events)
    }

    constructor (digest: Body -> string)
      ensures Valid() && events == [] && this.digest == digest
    {
      this.digest := digest;
      next := 1;
      events := [];
    }

    method Record(kind: string, objectID: string, detail: string, now: string) returns (event: Event)
      requires Valid()
      modifies this
      ensures Valid()
      ensures events == old(events) + [event]
      ensures event.body.(sequence := 0, previous := "") == Body(0, kind, objectID, detail, now, "")
    {
      var previous := "";
      if |events| > 0 {
        previous := events[|events| - 1].hash;
      }
      var body := Body(next, kind, objectID, detail, now, previous);
      event := Event(body, digest(body));
      next := next + 1;
      assert forall i :: 0 <= i < |events| ==> Linked(digest, events, i);
      events := events + [event];
      assert forall i :: 0 <= i < |old(events)| ==> Linked(digest, old(events), i) ==> Linked(digest, events, i);
    }

    /** Works on any event list, tampered with or not. */
    method Verify() returns (ok: bool)
      ensures ok <==> Chained(digest, events)
      ensures Valid() ==> ok
    {
      var previous := "";
      for index := 0 to |events|
        invariant previous == PreviousHash(events, index)
        invariant forall i :: 0 <= i < index ==> Linked(digest, events, i)
      {
        var event := events[index];
        if event.body.sequence != index + 1 || event.body.previous != previous || event.hash != digest(event.body) {
          assert !Linked(digest, events, index);
          return false;
        }
        previous := event.hash;
      }
      ok := true;
    }
  }

  // ---------- the joined text can be taken apart again ----------

  lemma SplitFirst(a: string, x: string, b: string, y: string)
    requires '|' !in a && '|' !in b && a + "|" + x == b + "|" + y
    ensures a == b && x == y
  {
    var s, t := a + "|" + x, b + "|" + y;
    assert s[|a|] == '|' && t[|b|] == '|';
    assert forall i :: 0 <= i < |a| ==> s[i] == a[i];
    assert forall i :: 0 <= i < |b| ==> t[i] == b[i];
    assert |a| == |b|;
    assert s[..|a|] == a && t[..|b|] == b;
    assert s[|a| + 1..] == x && t[|b| + 1..] == y;
  }

  lemma SplitLast(x: string, a: string, y: string, b: string)
    requires '|' !in a && '|' !in b && x + "|" + a == y + "|" + b
    ensures a == b && x == y
  {
    var s, t := x + "|" + a, y + "|" + b;
    assert s[|x|] == '|' && t[|y|] == '|';
    assert forall i :: |x| < i < |s| ==> s[i] == a[i - |x| - 1];
    assert forall i :: |y| < i < |t| ==> t[i] == b[i - |y| - 1];
    assert |x| == |y|;
    assert s[..|x|] == x && t[..|y|] == y;
    assert s[|x| + 1..] == a && t[|y| + 1..] == b;
  }

  /** No separator inside the fields that stand before or after the free text. */
  predicate BarFree(e: Body) {
    '|' !in e.kind && '|' !in e.objectID && '|' !in e.recorded && '|' !in e.previous
  }

  lemma DigitsHaveNoBar(n: nat)
    ensures '|' !in Decimal(n)
  {
    var s := Decimal(n);
    forall i | 0 <= i < |s| ensures s[i] != '|' { assert IsDigit(s[i]); }
  }

  lemma {:induction false} JoinLast(fields: seq<string>, last: string)
    requires fields != []
    ensures Join(fields + [last]) == Join(fields) + "|" + last
  {
    var all := fields + [last];
    if |fields| == 1 {
      assert all[1..] == [last];
    } else {
      JoinLast(fields[1..], last);
      assert all[1..] == fields[1..] + [last];
      assert fields[0] + "|" + (Join(fields[1..]) + "|" + last) == (fields[0] + "|" + Join(fields[1..])) + "|" + last;
    }
  }

  lemma JoinFirst(fields: seq<string>, other: seq<string>)
    requires |fields| > 1 && |other| > 1 && '|' !in fields[0] && '|' !in other[0]
    requires Join(fields) == Join(other)
    ensures fields[0] == other[0] && Join(fields[1..]) == Join(other[1..])
  {
    SplitFirst(fields[0], Join(fields[1..]), other[0], Join(other[1..]));
  }

  lemma JoinTail(detail: string, recorded: string, previous: string, d: string, r: string, p: string)
    requires '|' !in recorded && '|' !in previous && '|' !in r && '|' !in p
    requires Join([detail, recorded, previous]) == Join([d, r, p])
    ensures detail == d && recorded == r && previous == p
  {
    JoinLast([detail, recorded], previous);
    JoinLast([d, r], p);
    assert [detail, recorded] + [previous] == [detail, recorded, previous] && [d, r] + [p] == [d, r, p];
    SplitLast(Join([detail, recorded]), previous, Join([d, r]), p);
    JoinLast([detail], recorded);
    JoinLast([d], r);
    assert [detail] + [recorded] == [detail, recorded] && [d] + [r] == [d, r];
    SplitLast(detail, recorded, d, r);
  }

  /** Number, kind, object, detail, time and previous hash, in this order, with a bar between them. */
  lemma PreimageFormat(e: Body)
    ensures Preimage(e) == Decimal(e.sequence) + "|" + e.kind + "|" + e.objectID + "|" + e.detail + "|"
                           + e.recorded + "|" + e.previous
  {
    var a, b, c := Decimal(e.sequence), e.kind, e.objectID;
    JoinLast([a], b);
    JoinLast([a, b], c);
    JoinLast([a, b, c], e.detail);
    JoinLast([a, b, c, e.detail], e.recorded);
    JoinLast([a, b, c, e.detail, e.recorded], e.previous);
    assert [a] + [b] == [a, b] && [a, b] + [c] == [a, b, c] && [a, b, c] + [e.detail] == [a, b, c, e.detail];
    assert [a, b, c, e.detail] + [e.recorded] == [a, b, c, e.detail, e.recorded];
    assert [a, b, c, e.detail, e.recorded] + [e.previous] == Fields(e);
  }

  lemma PreimageInjective(a: Body, b: Body)
    requires BarFree(a) && BarFree(b) && Preimage(a) == Preimage(b)
    ensures a == b
  {
    DigitsHaveNoBar(a.sequence);
    DigitsHaveNoBar(b.sequence);
    var x, y := Fields(a), Fields(b);
    JoinFirst(x, y);
    DecimalInjective(a.sequence, b.sequence);
    JoinFirst(x[1..], y[1..]);
    assert x[1..][1..] == x[2..] && y[1..][1..] == y[2..];
    JoinFirst(x[2..], y[2..]);
    assert x[2..][1..] == [a.detail, a.recorded, a.previous] && y[2..][1..] == [b.detail, b.recorded, b.previous];
    JoinTail(a.detail, a.recorded, a.previous, b.detail, b.recorded, b.previous);
  }

  /** A separator inside a field reads like a boundary between two fields. */
  lemma {:induction false} JoinRegroups(before: seq<string>, x: string, y: string, after: seq<string>)
    ensures Join(before + [x + "|" + y] + after) == Join(before + [x, y] + after)
  {
    var one, two := before + [x + "|" + y] + after, before + [x, y] + after;
    if before != [] {
      JoinRegroups(before[1..], x, y, after);
      assert one[1..] == before[1..] + [x + "|" + y] + after && two[1..] == before[1..] + [x, y] + after;
    } else {
      assert two[1..] == [y] + after && two[1..][1..] == after && one[1..] == after;
    }
  }

  // ---------- counting separators: when a text has only one reading ----------

  function Bars(s: string): nat {
    multiset(s)['|']
  }

  /** A joined text holds the separators between its fields, and more exactly when a field holds one. */
  lemma {:induction false} BarsOfJoin(fields: seq<string>)
    requires fields != []
    ensures Bars(Join(fields)) >= |fields| - 1
    ensures Bars(Join(fields)) == |fields| - 1 <==> forall i :: 0 <= i < |fields| ==> '|' !in fields[i]
  {
    if |fields| > 1 {
      var rest := fields[1..];
      BarsOfJoin(rest);
      assert multiset(Join(fields)) == multiset(fields[0]) + multiset("|") + multiset(Join(rest));
      assert Bars(Join(fields)) == Bars(fields[0]) + 1 + Bars(Join(rest));
      assert (forall i :: 0 <= i < |fields| ==> '|' !in fields[i]) <==>
        '|' !in fields[0] && forall i :: 0 <= i < |rest| ==> '|' !in rest[i] by {
        assert forall i :: 0 < i < |fields| ==> fields[i] == rest[i - 1];
      }
    }
  }

  /** No separator in any of the fields that `Record` takes from its caller. */
  predicate Plain(e: Body) {
    '|' !in e.kind && '|' !in e.objectID && '|' !in e.detail && '|' !in e.recorded
  }

  lemma PlainHasFiveBars(e: Body)
    ensures Bars(Preimage(e)) == 5 <==> Plain(e) && '|' !in e.previous
  {
    var fields := Fields(e);
    DigitsHaveNoBar(e.sequence);
    BarsOfJoin(fields);
    assert fields[0] == Decimal(e.sequence) && fields[1] == e.kind && fields[2] == e.objectID;
    assert fields[3] == e.detail && fields[4] == e.recorded && fields[5] == e.previous;
  }

  /** The text of a plain event has no other reading, not even one with separators in its fields. */
  lemma PlainTextIsUnique(a: Body, b: Body)
    requires Plain(a) && '|' !in a.previous && Preimage(a) == Preimage(b)
    ensures a == b
  {
    PlainHasFiveBars(a);
    PlainHasFiveBars(b);
    PreimageInjective(a, b);
  }

  /** The text of any other event has another reading under the same number and previous hash, and,
      if the time holds no separator, the same time: one field is split at its separator and two
      neighbours are merged instead. */
  lemma OtherTextIsAmbiguous(e: Body) returns (other: Body)
    requires !Plain(e)
    ensures other != e && Preimage(other) == Preimage(e)
    ensures other.sequence == e.sequence && other.previous == e.previous
    ensures '|' !in e.recorded ==> other.recorded == e.recorded
  {
    if '|' in e.kind {
      other := SplitKind(e);
    } else if '|' in e.objectID {
      other := SplitObject(e);
    } else if '|' in e.detail {
      other := SplitDetail(e);
    } else {
      other := SplitRecorded(e);
    }
  }

  lemma SplitKind(e: Body) returns (other: Body)
    requires '|' in e.kind
    ensures other != e && Preimage(other) == Preimage(e)
    ensures other.(kind := "", objectID := "", detail := "") == e.(kind := "", objectID := "", detail := "")
  {
    var n, ends := Decimal(e.sequence), [e.recorded, e.previous];
    var k, o := SplitAtBar(e.kind);
    other := e.(kind := k, objectID := o, detail := e.objectID + "|" + e.detail);
    JoinRegroups([n], k, o, [e.objectID, e.detail] + ends);
    JoinRegroups([n, k, o], e.objectID, e.detail, ends);
    assert Fields(e) == [n] + [k + "|" + o] + ([e.objectID, e.detail] + ends);
    assert [n] + [k, o] + ([e.objectID, e.detail] + ends) == [n, k, o] + [e.objectID, e.detail] + ends;
    assert Fields(other) == [n, k, o] + [e.objectID + "|" + e.detail] + ends;
  }

  lemma SplitObject(e: Body) returns (other: Body)
    requires '|' in e.objectID
    ensures other != e && Preimage(other) == Preimage(e)
    ensures other.(objectID := "", detail := "") == e.(objectID := "", detail := "")
  {
    var n, ends := Decimal(e.sequence), [e.recorded, e.previous];
    var o, d := SplitAtBar(e.objectID);
    other := e.(objectID := o, detail := d + "|" + e.detail);
    JoinRegroups([n, e.kind], o, d, [e.detail] + ends);
    JoinRegroups([n, e.kind, o], d, e.detail, ends);
    assert Fields(e) == [n, e.kind] + [o + "|" + d] + ([e.detail] + ends);
    assert [n, e.kind] + [o, d] + ([e.detail] + ends) == [n, e.kind, o] + [d, e.detail] + ends;
    assert Fields(other) == [n, e.kind, o] + [d + "|" + e.detail] + ends;
  }

  lemma SplitDetail(e: Body) returns (other: Body)
    requires '|' in e.detail
    ensures other != e && Preimage(other) == Preimage(e)
    ensures other.(kind := "", objectID := "", detail := "") == e.(kind := "", objectID := "", detail := "")
  {
    var o, d := SplitAtBar(e.detail);
    other := e.(kind := e.kind + "|" + e.objectID, objectID := o, detail := d);
    DetailRegroups(e.sequence, e.kind, e.objectID, o, d, e.recorded, e.previous);
    assert |other.kind| > |e.kind|;
  }

  lemma DetailRegroups(
    number: nat, kind: string, item: string, o: string, d: string, recorded: string, previous: string)
    ensures Preimage(Body(number, kind, item, o + "|" + d, recorded, previous))
      == Preimage(Body(number, kind + "|" + item, o, d, recorded, previous))
  {
    var n, ends := Decimal(number), [recorded, previous];
    JoinRegroups([n], kind, item, [o, d] + ends);
    JoinRegroups([n, kind, item], o, d, ends);
    assert Fields(Body(number, kind, item, o + "|" + d, recorded, previous))
      == [n, kind, item] + [o + "|" + d] + ends;
    assert [n] + [kind, item] + ([o, d] + ends) == [n, kind, item] + [o, d] + ends;
    assert Fields(Body(number, kind + "|" + item, o, d, recorded, previous))
      == [n] + [kind + "|" + item] + ([o, d] + ends);
  }

  lemma SplitRecorded(e: Body) returns (other: Body)
    requires '|' in e.recorded
    ensures other != e && Preimage(other) == Preimage(e)
    ensures other.(detail := "", recorded := "") == e.(detail := "", recorded := "")
  {
    var start := [Decimal(e.sequence), e.kind, e.objectID];
    var d, r := SplitAtBar(e.recorded);
    other := e.(detail := e.detail + "|" + d, recorded := r);
    JoinRegroups(start, e.detail, d, [r, e.previous]);
    JoinRegroups(start + [e.detail], d, r, [e.previous]);
    assert Fields(e) == start + [e.detail] + [d + "|" + r] + [e.previous];
    assert start + [e.detail, d] + [r, e.previous] == start + [e.detail] + [d, r] + [e.previous];
    assert Fields(other) == start + [e.detail + "|" + d] + [r, e.previous];
    assert |other.detail| > |e.detail|;
  }

  lemma SplitAtBar(s: string) returns (x: string, y: string)
    requires '|' in s
    ensures s == x + "|" + y && |x| < |s|
  {
    var i :| 0 <= i < |s| && s[i] == '|';
    x, y := s[..i], s[i + 1..];
  }

  // ---------- the last hash fixes the whole ledger ----------

  /** The k-th body from the end. */
  function Back(events: seq<Event>, k: nat): Body
    requires k < |events|
  {
    events[|events| - 1 - k].body
  }

  /** Equal digests mean equal bodies, comparing the two ledgers from their ends. */
  ghost predicate Separates(digest: Body -> string, a: seq<Event>, b: seq<Event>) {
    forall k :: 0 <= k < |a| && k < |b| && digest(Back(a, k)) == digest(Back(b, k)) ==> Back(a, k) == Back(b, k)
  }

  lemma {:induction false} ChainIsBinding(digest: Body -> string, a: seq<Event>, b: seq<Event>)
    requires a != [] && b != [] && Chained(digest, a) && Chained(digest, b) && Separates(digest, a, b)
    requires a[|a| - 1].hash == b[|b| - 1].hash
    ensures a == b
    decreases |a|
  {
    var n := |a| - 1;
    LastAgrees(digest, a, b);
    assert a == a[..n] + [a[n]] && b == b[..n] + [b[n]];
    if n > 0 {
      ChainedPrefix(digest, a, n);
      ChainedPrefix(digest, b, n);
      SeparatesPrefix(digest, a, b, n);
      ChainIsBinding(digest, a[..n], b[..n]);
    }
  }

  lemma ChainedPrefix(digest: Body -> string, events: seq<Event>, n: nat)
    requires Chained(digest, events) && n <= |events|
    ensures Chained(digest, events[..n])
  {
    forall i | 0 <= i < n ensures Linked(digest, events[..n], i) {
      assert Linked(digest, events, i);
    }
  }

  lemma SeparatesPrefix(digest: Body -> string, a: seq<Event>, b: seq<Event>, n: nat)
    requires Separates(digest, a, b) && |a| == |b| == n + 1
    ensures Separates(digest, a[..n], b[..n])
  {
    forall k | 0 <= k < n ensures Back(a[..n], k) == Back(a, k + 1) && Back(b[..n], k) == Back(b, k + 1) {
    }
  }

  lemma LastAgrees(digest: Body -> string, a: seq<Event>, b: seq<Event>)
    requires a != [] && b != [] && Chained(digest, a) && Chained(digest, b) && Separates(digest, a, b)
    requires a[|a| - 1].hash == b[|b| - 1].hash
    ensures |a| == |b| && a[|a| - 1] == b[|b| - 1]
    ensures |a| > 1 ==> a[|a| - 2].hash == b[|b| - 2].hash
  {
    assert Linked(digest, a, |a| - 1) && Linked(digest, b, |b| - 1);
    assert Back(a, 0) == Back(b, 0);
  }

  /** Comparing from the ends, no two different texts hashed for the two ledgers collide. */
  ghost predicate NoCollision(h: TextHash, text: Body -> string, a: seq<Event>, b: seq<Event>) {
    forall k :: 0 <= k < |a| && k < |b| && h(text(Back(a, k))) == h(text(Back(b, k))) ==>
      text(Back(a, k)) == text(Back(b, k))
  }

  /** Equal texts mean equal bodies, comparing from the ends. */
  ghost predicate Readable(text: Body -> string, a: seq<Event>, b: seq<Event>) {
    forall k :: 0 <= k < |a| && k < |b| && text(Back(a, k)) == text(Back(b, k)) ==> Back(a, k) == Back(b, k)
  }

  lemma ReadableIsBinding(h: TextHash, text: Body -> string, a: seq<Event>, b: seq<Event>)
    requires a != [] && b != [] && Chained(Composed(h, text), a) && Chained(Composed(h, text), b)
    requires NoCollision(h, text, a, b) && Readable(text, a, b)
    requires a[|a| - 1].hash == b[|b| - 1].hash
    ensures a == b
  {
    ChainIsBinding(Composed(h, text), a, b);
  }

  lemma PreviousHasNoBar(h: TextHash, text: Body -> string, events: seq<Event>, i: nat)
    requires i < |events| && Chained(Composed(h, text), events)
    ensures '|' !in events[i].body.previous
  {
    assert Linked(Composed(h, text), events, i);
    if i > 0 {
      assert Linked(Composed(h, text), events, i - 1);
    }
  }

  ghost predicate AllPlain(events: seq<Event>) {
    forall i :: 0 <= i < |events| ==> Plain(events[i].body)
  }

  /** A non-empty list that passes `Verify` and shows the same last hash as `a`, not by a collision. */
  ghost predicate PassesFor(h: TextHash, a: seq<Event>, b: seq<Event>)
    requires a != []
  {
    && b != []
    && Chained(EventHash(h), b)
    && NoCollision(h, Preimage, a, b)
    && b[|b| - 1].hash == a[|a| - 1].hash
  }

  lemma PlainIsBinding(h: TextHash, a: seq<Event>, b: seq<Event>)
    requires a != [] && Chained(EventHash(h), a) && AllPlain(a) && PassesFor(h, a, b)
    ensures b == a
  {
    PreimageHasOneReading();
    PlainIsReadable(h, Preimage, a, b);
    ReadableIsBinding(h, Preimage, a, b);
  }

  /** What `PlainTextIsUnique` proves of `Preimage`. */
  ghost predicate OneReading(text: Body -> string) {
    forall x, y :: Plain(x) && '|' !in x.previous && text(x) == text(y) ==> x == y
  }

  lemma PreimageHasOneReading()
    ensures OneReading(Preimage)
  {
    forall x, y | Plain(x) && '|' !in x.previous && Preimage(x) == Preimage(y) ensures x == y {
      PlainTextIsUnique(x, y);
    }
  }

  lemma PlainIsReadable(h: TextHash, text: Body -> string, a: seq<Event>, b: seq<Event>)
    requires AllPlain(a) && Chained(Composed(h, text), a) && OneReading(text)
    ensures Readable(text, a, b)
  {
    forall k | 0 <= k < |a| && k < |b| && text(Back(a, k)) == text(Back(b, k)) ensures Back(a, k) == Back(b, k) {
      var i := |a| - 1 - k;
      PreviousHasNoBar(h, text, a, i);
      assert Plain(a[i].body);
    }
  }

  /** One event that is not plain, anywhere in the ledger, can be exchanged for its other reading:
      all hashes stay. */
  lemma Exchanged(h: TextHash, a: seq<Event>, i: nat) returns (b: seq<Event>)
    requires i < |a| && Chained(EventHash(h), a) && !Plain(a[i].body)
    ensures b != a && |b| == |a| && PassesFor(h, a, b)
    ensures forall j :: 0 <= j < |a| ==> b[j].hash == a[j].hash && (j != i ==> b[j] == a[j])
    ensures '|' !in a[i].body.recorded ==> b[i].body.recorded == a[i].body.recorded
  {
    var other := OtherTextIsAmbiguous(a[i].body);
    b := a[i := Event(other, a[i].hash)];
    SameTextPasses(h, Preimage, a, i, other);
  }

  lemma SameTextPasses(h: TextHash, text: Body -> string, a: seq<Event>, i: nat, other: Body)
    requires i < |a| && Chained(Composed(h, text), a) && text(other) == text(a[i].body) && other != a[i].body
    requires other.sequence == a[i].body.sequence && other.previous == a[i].body.previous
    ensures var b := a[i := Event(other, a[i].hash)];
      b != a && Chained(Composed(h, text), b) && NoCollision(h, text, a, b)
  {
    var b := a[i := Event(other, a[i].hash)];
    assert b[i].body != a[i].body;
    SameDigestLinks(Composed(h, text), a, b);
    SameTextsDoNotCollide(h, text, a, b);
  }

  lemma SameDigestLinks(digest: Body -> string, a: seq<Event>, b: seq<Event>)
    requires Chained(digest, a) && |a| == |b|
    requires forall j :: 0 <= j < |a| ==>
      && b[j].hash == a[j].hash && digest(b[j].body) == digest(a[j].body)
      && b[j].body.sequence == a[j].body.sequence && b[j].body.previous == a[j].body.previous
    ensures Chained(digest, b)
  {
    forall j | 0 <= j < |b| ensures Linked(digest, b, j) {
      assert Linked(digest, a, j);
    }
  }

  lemma SameTextsDoNotCollide(h: TextHash, text: Body -> string, a: seq<Event>, b: seq<Event>)
    requires |a| == |b| && forall j :: 0 <= j < |a| ==> text(b[j].body) == text(a[j].body)
    ensures NoCollision(h, text, a, b)
  {
  }

  /** Exactly when the last hash of a verified ledger fixes the whole ledger, whatever the other list
      holds: when no event has a separator in kind, object, detail or time. */
  lemma LedgerIsBinding(h: TextHash, a: seq<Event>)
    requires a != [] && Chained(EventHash(h), a)
    ensures AllPlain(a) <==> forall b :: PassesFor(h, a, b) ==> b == a
  {
    if AllPlain(a) {
      forall b | PassesFor(h, a, b) ensures b == a {
        PlainIsBinding(h, a, b);
      }
    } else {
      var i :| 0 <= i < |a| && !Plain(a[i].body);
      var b := Exchanged(h, a, i);
      assert PassesFor(h, a, b) && b != a;
    }
  }

  /** The condition is needed: with a separator in the detail alone, two different one-event lists
      pass with the same hash. */
  lemma BarsBreakBinding(h: TextHash, recorded: string)
    ensures var a := Body(1, "quarantine", "snap-1", "bad" + "|" + "disk", recorded, "");
      var b := Body(1, "quarantine" + "|" + "snap-1", "bad", "disk", recorded, "");
      var hash := EventHash(h)(a);
      a != b && Chained(EventHash(h), [Event(a, hash)]) && Chained(EventHash(h), [Event(b, hash)])
  {
    DetailRegroups(1, "quarantine", "snap-1", "bad", "disk", recorded, "");
    assert |"disk"| != |"bad" + "|" + "disk"|;
  }

  ghost predicate Clean(events: seq<Event>) {
    forall i :: 0 <= i < |events| ==>
      '|' !in events[i].body.kind && '|' !in events[i].body.objectID && '|' !in events[i].body.recorded
  }

  /** The text tells good bodies apart. */
  ghost predicate Parseable(good: Body -> bool, text: Body -> string) {
    forall x, y :: good(x) && good(y) && text(x) == text(y) ==> x == y
  }

  lemma PreimageIsParseable()
    ensures Parseable(BarFree, Preimage)
  {
    forall x, y | BarFree(x) && BarFree(y) && Preimage(x) == Preimage(y) ensures x == y {
      PreimageInjective(x, y);
    }
  }

  lemma CleanIsBarFree(h: TextHash, text: Body -> string, events: seq<Event>)
    requires Chained(Composed(h, text), events) && Clean(events)
    ensures AllGood(BarFree, events)
  {
    forall i | 0 <= i < |events| ensures BarFree(events[i].body) {
      PreviousHasNoBar(h, text, events, i);
    }
  }

  ghost predicate AllGood(good: Body -> bool, events: seq<Event>) {
    forall i :: 0 <= i < |events| ==> good(events[i].body)
  }

  lemma GoodIsReadable(good: Body -> bool, text: Body -> string, a: seq<Event>, b: seq<Event>)
    requires AllGood(good, a) && AllGood(good, b) && Parseable(good, text)
    ensures Readable(text, a, b)
  {
  }

  /** Between two ledgers that both keep separators out of kind, object and time, the details may
      hold any. */
  lemma CleanLedgersAreBinding(h: TextHash, a: seq<Event>, b: seq<Event>)
    requires a != [] && b != [] && Clean(a) && Clean(b)
    requires Chained(EventHash(h), a) && PassesFor(h, a, b)
    ensures b == a
  {
    PreimageIsParseable();
    CleanIsBarFree(h, Preimage, a);
    CleanIsBarFree(h, Preimage, b);
    GoodIsReadable(BarFree, Preimage, a, b);
    ReadableIsBinding(h, Preimage, a, b);
  }
}
