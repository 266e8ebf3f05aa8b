/**
  The trace summary of a fixture: how many events there are of each kind, of each status and of
  each pair, where pairs are counted under the text `kind:status` and read back by splitting it at
  its last colon.
 */
module TraceStructure {
  import opened Prelude

  datatype Event = Event(kind: string, status: string)

  datatype PairRow = PairRow(kind: string, status: string, count: nat)

  datatype Trace = Trace(eventCount: nat, kinds: map<string, nat>, statuses: map<string, nat>, pairs: set<PairRow>)

  function Join(e: Event): string { e.kind + [':'] + e.status }

  /** The part before the last colon and the part after it; `slice(0, -1)` and all of it when there is none. */
  function Split(key: string): (string, string) {
    var at := LastColon(key);
    if at >= 0 then (key[..at], key[at + 1..]) else (if key == "" then "" else key[..|key| - 1], key)
  }

  function LastColon(key: string): (at: int)
    ensures -1 <= at < |key|
    ensures at >= 0 ==> key[at] == ':'
    ensures forall i | at < i < |key| :: key[i] != ':'
  {
    if key == "" then -1 else if key[|key| - 1] == ':' then |key| - 1 else LastColon(key[..|key| - 1])
  }

  /** How many events satisfy `p`. */
  function Count(events: seq<Event>, p: Event -> bool): nat {
    if events == [] then 0 else Count(events[..|events| - 1], p) + if p(events[|events| - 1]) then 1 else 0
  }

  function OfKind(kind: string): Event -> bool { (e: Event) => e.kind == kind }
  function OfStatus(status: string): Event -> bool { (e: Event) => e.status == status }
  function OfPair(kind: string, status: string): Event -> bool { (e: Event) => e.kind == kind && e.status == status }
  function OfKey(key: string): Event -> bool { (e: Event) => Join(e) == key }

  /** A table that holds exactly the non-zero counts. */
  ghost predicate Tabulates(table: map<string, nat>, events: seq<Event>, of: string -> Event -> bool) {
    forall key :: if key in table then table[key] == Count(events, of(key)) > 0 else Count(events, of(key)) == 0
  }

  function Bump(table: map<string, nat>, key: string): map<string, nat> {
    table[key := (if key in table then table[key] else 0) + 1]
  }

  lemma BumpTabulates(table: map<string, nat>, events: seq<Event>, e: Event, key: string, of: string -> Event -> bool)
    requires Tabulates(table, events, of) && forall k :: of(k)(e) <==> k == key
    ensures Tabulates(Bump(table, key), events + [e], of)
  {
    assert (events + [e])[..|events|] == events;
    forall k ensures Count(events + [e], of(k)) == Count(events, of(k)) + if k == key then 1 else 0 {}
  }

  function RowsOf(table: map<string, nat>): set<PairRow> {
    set key | key in table :: PairRow(Split(key).0, Split(key).1, table[key])
  }

  /** traceStructure: three tables filled in one pass. */
  method Summarise(events: seq<Event>) returns (t: Trace, ghost table: map<string, nat>)
    ensures t.eventCount == |events|
    ensures Tabulates(t.kinds, events, k => OfKind(k))
    ensures Tabulates(t.statuses, events, s => OfStatus(s))
    ensures Tabulates(table, events, key => OfKey(key)) && t.pairs == RowsOf(table)
  {
    var kinds, statuses, pairs: map<string, nat> := map[], map[], map[];
    for i := 0 to |events|
      invariant Tabulates(kinds, events[..i], k => OfKind(k))
      invariant Tabulates(statuses, events[..i], s => OfStatus(s))
      invariant Tabulates(pairs, events[..i], key => OfKey(key))
    {
      var e := events[i];
      assert events[..i + 1] == events[..i] + [e];
      BumpTabulates(kinds, events[..i], e, e.kind, k => OfKind(k));
      BumpTabulates(statuses, events[..i], e, e.status, s => OfStatus(s));
      BumpTabulates(pairs, events[..i], e, Join(e), key => OfKey(key));
      kinds, statuses, pairs := Bump(kinds, e.kind), Bump(statuses, e.status), Bump(pairs, Join(e));
    }
    assert events[..|events|] == events;
    table := pairs;
    t := Trace(|events|, kinds, statuses, RowsOf(pairs));
  }

  // ---------------------------------------------------------------- the pair key

  predicate NoColon(s: string) { ':' !in s }

  lemma {:induction false} LastColonAppend(a: string, b: string)
    requires NoColon(b)
    ensures LastColon(a + [':'] + b) == |a|
  {
    var key := a + [':'] + b;
    assert key[|a|] == ':';
    forall i | |a| < i < |key| ensures key[i] != ':' { assert key[i] == b[i - |a| - 1]; }
  }

  /** The pair is read back exactly when its status holds no colon. */
  lemma SplitExactly(e: Event)
    ensures Split(Join(e)) == (e.kind, e.status) <==> NoColon(e.status)
    ensures NoColon(Split(Join(e)).1) && Join(Event(Split(Join(e)).0, Split(Join(e)).1)) == Join(e)
  {
    var key := Join(e);
    var at := LastColon(key);
    assert key[|e.kind|] == ':';
    assert key == key[..at] + [':'] + key[at + 1..];
    if NoColon(e.status) {
      LastColonAppend(e.kind, e.status);
      assert key[..|e.kind|] == e.kind && key[|e.kind| + 1..] == e.status;
    }
  }

  /** Statuses without a colon make the key of a pair its own. */
  lemma KeyInjective(d: Event, e: Event)
    requires NoColon(d.status) && NoColon(e.status)
    ensures Join(d) == Join(e) <==> d == e
  {
    SplitExactly(d);
    SplitExactly(e);
  }

  // ---------------------------------------------------------------- the tables

  function SumPairs(events: seq<Event>, kind: string, statuses: seq<string>): nat {
    if statuses == [] then 0
    else SumPairs(events, kind, statuses[..|statuses| - 1]) + Count(events, OfPair(kind, statuses[|statuses| - 1]))
  }

  function SumKinds(events: seq<Event>, kinds: seq<string>): nat {
    if kinds == [] then 0 else SumKinds(events, kinds[..|kinds| - 1]) + Count(events, OfKind(kinds[|kinds| - 1]))
  }

  predicate Distinct(xs: seq<string>) { forall i, j | 0 <= i < j < |xs| :: xs[i] != xs[j] }

  lemma {:induction false} SumPairsAppend(events: seq<Event>, e: Event, kind: string, statuses: seq<string>)
    requires Distinct(statuses)
    ensures SumPairs(events + [e], kind, statuses) ==
            SumPairs(events, kind, statuses) + if e.kind == kind && e.status in statuses then 1 else 0
  {
    if statuses != [] {
      var n := |statuses| - 1;
      SumPairsAppend(events, e, kind, statuses[..n]);
      assert (events + [e])[..|events|] == events;
      assert statuses == statuses[..n] + [statuses[n]];
    }
  }

  /** Summing the pairs of a kind over any list of the statuses gives the count of the kind. */
  lemma {:induction false} KindMarginal(events: seq<Event>, kind: string, statuses: seq<string>)
    requires Distinct(statuses) && forall i | 0 <= i < |events| :: events[i].status in statuses
    ensures SumPairs(events, kind, statuses) == Count(events, OfKind(kind))
  {
    if events == [] {
      NoPairs(kind, statuses);
    } else {
      var n := |events| - 1;
      assert events == events[..n] + [events[n]];
      SumPairsAppend(events[..n], events[n], kind, statuses);
      KindMarginal(events[..n], kind, statuses);
    }
  }

  lemma {:induction false} NoPairs(kind: string, statuses: seq<string>)
    ensures SumPairs([], kind, statuses) == 0
  {
    if statuses != [] { NoPairs(kind, statuses[..|statuses| - 1]); }
  }

  lemma {:induction false} SumKindsAppend(events: seq<Event>, e: Event, kinds: seq<string>)
    requires Distinct(kinds)
    ensures SumKinds(events + [e], kinds) == SumKinds(events, kinds) + if e.kind in kinds then 1 else 0
  {
    if kinds != [] {
      var n := |kinds| - 1;
      SumKindsAppend(events, e, kinds[..n]);
      assert (events + [e])[..|events|] == events;
      assert kinds == kinds[..n] + [kinds[n]];
    }
  }

  /** The kinds add up to the events. */
  lemma {:induction false} KindsTotal(events: seq<Event>, kinds: seq<string>)
    requires Distinct(kinds) && forall i | 0 <= i < |events| :: events[i].kind in kinds
    ensures SumKinds(events, kinds) == |events|
  {
    if events == [] {
      NoKinds(kinds);
    } else {
      var n := |events| - 1;
      assert events == events[..n] + [events[n]];
      SumKindsAppend(events[..n], events[n], kinds);
      KindsTotal(events[..n], kinds);
    }
  }

  lemma {:induction false} NoKinds(kinds: seq<string>)
    ensures SumKinds([], kinds) == 0
  {
    if kinds != [] { NoKinds(kinds[..|kinds| - 1]); }
  }

  /** Exchanging the two coordinates turns every statement about kinds into one about statuses. */
  function Flip(events: seq<Event>): (r: seq<Event>)
    ensures |r| == |events| && forall i | 0 <= i < |r| :: r[i] == Event(events[i].status, events[i].kind)
  {
    seq(|events|, i requires 0 <= i < |events| => Event(events[i].status, events[i].kind))
  }

  lemma {:induction false} FlipCounts(events: seq<Event>, kind: string, status: string)
    ensures Count(Flip(events), OfKind(status)) == Count(events, OfStatus(status))
    ensures Count(Flip(events), OfPair(status, kind)) == Count(events, OfPair(kind, status))
  {
    if events != [] {
      var n := |events| - 1;
      assert Flip(events)[..n] == Flip(events[..n]);
      FlipCounts(events[..n], kind, status);
    }
  }

  lemma {:induction false} FlipSums(events: seq<Event>, status: string, kinds: seq<string>)
    ensures SumPairs(Flip(events), status, kinds) == SumColumn(events, status, kinds)
  {
    if kinds != [] {
      FlipSums(events, status, kinds[..|kinds| - 1]);
      FlipCounts(events, kinds[|kinds| - 1], status);
    }
  }

  function SumColumn(events: seq<Event>, status: string, kinds: seq<string>): nat {
    if kinds == [] then 0
    else SumColumn(events, status, kinds[..|kinds| - 1]) + Count(events, OfPair(kinds[|kinds| - 1], status))
  }

  lemma StatusMarginal(events: seq<Event>, status: string, kinds: seq<string>)
    requires Distinct(kinds) && forall i | 0 <= i < |events| :: events[i].kind in kinds
    ensures SumColumn(events, status, kinds) == Count(events, OfStatus(status))
  {
    FlipSums(events, status, kinds);
    KindMarginal(Flip(events), status, kinds);
    FlipCounts(events, "", status);
  }

  // ---------------------------------------------------------------- the rows

  /** Every row of the pair table counts exactly the events of its kind and status. */
  ghost predicate RowsCorrect(rows: set<PairRow>, events: seq<Event>) {
    forall row | row in rows :: row.count == Count(events, OfPair(row.kind, row.status))
  }

  lemma {:induction false} KeyCounts(events: seq<Event>, kind: string, status: string)
    ensures Count(events, OfKey(Join(Event(kind, status)))) >= Count(events, OfPair(kind, status))
    ensures (forall i | 0 <= i < |events| :: NoColon(events[i].status)) && NoColon(status) ==>
              Count(events, OfKey(Join(Event(kind, status)))) == Count(events, OfPair(kind, status))
  {
    if events != [] {
      var e := events[|events| - 1];
      KeyCounts(events[..|events| - 1], kind, status);
      if NoColon(e.status) && NoColon(status) { KeyInjective(e, Event(kind, status)); }
    }
  }

  lemma {:induction false} KeyCountsMore(events: seq<Event>, kind: string, status: string, i: nat)
    requires i < |events| && Join(events[i]) == Join(Event(kind, status)) && events[i] != Event(kind, status)
    ensures Count(events, OfKey(Join(Event(kind, status)))) > Count(events, OfPair(kind, status))
  {
    var n := |events| - 1;
    if i < n { KeyCountsMore(events[..n], kind, status, i); } else { KeyCounts(events[..n], kind, status); }
  }

  /**
    The pair table is right if and only if no event's status holds a colon: with one, two pairs
    share a key, or a pair is reported as another.
   */
  lemma RowsExactly(events: seq<Event>, table: map<string, nat>)
    requires Tabulates(table, events, key => OfKey(key))
    ensures RowsCorrect(RowsOf(table), events) <==> forall i | 0 <= i < |events| :: NoColon(events[i].status)
  {
    if forall i | 0 <= i < |events| :: NoColon(events[i].status) {
      forall key | key in table ensures table[key] == Count(events, OfPair(Split(key).0, Split(key).1)) {
        var i := FirstWith(events, key);
        SplitExactly(events[i]);
        KeyCounts(events, events[i].kind, events[i].status);
      }
    } else {
      var i :| 0 <= i < |events| && !NoColon(events[i].status);
      var key := Join(events[i]);
      var (kind, status) := Split(key);
      SplitExactly(events[i]);
      KeyCountsMore(events, kind, status, i);
      assert PairRow(kind, status, table[key]) in RowsOf(table);
    }
  }

  /** The statuses an evidence event can have. */
  const STATUSES := {"unset", "ok", "error"}

  /** Events are parsed before they are summarised, so their pair rows are always right. */
  lemma ParsedRowsCorrect(events: seq<Event>, table: map<string, nat>)
    requires Tabulates(table, events, key => OfKey(key))
    requires forall i | 0 <= i < |events| :: events[i].status in STATUSES
    ensures RowsCorrect(RowsOf(table), events)
  {
    forall i | 0 <= i < |events| ensures NoColon(events[i].status) { assert events[i].status in STATUSES; }
    RowsExactly(events, table);
  }

  lemma {:induction false} FirstWith(events: seq<Event>, key: string) returns (i: nat)
    requires Count(events, OfKey(key)) > 0
    ensures i < |events| && Join(events[i]) == key
  {
    var n := |events| - 1;
    if Join(events[n]) == key { i := n; } else { i := FirstWith(events[..n], key); }
  }
}
