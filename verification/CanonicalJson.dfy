/**
  `canonicalJson`, the serializer behind every equality test of the comparison resolver, and
  `stableJson`, its twin in the release-policy example.  Both sort the properties of every object
  with `localeCompare`, a comparator that may tie two different strings.
 */
module CanonicalJson {
  import opened Json

  /** `le(a, b)` stands for `a.localeCompare(b) <= 0`. */
  type Comparator = (Text, Text) -> bool

  ghost predicate TotalPreorder(le: Comparator) {
    && (forall a, b :: le(a, b) || le(b, a))
    && (forall a, b, c :: le(a, b) && le(b, c) ==> le(a, c))
  }

  ghost predicate Antisymmetric(le: Comparator) {
    forall a, b :: le(a, b) && le(b, a) ==> a == b
  }

  // ---------------------------------------------------------------- the serializers

  /** A stable sort by key. */
  function Insert<T>(e: Entry<T>, sorted: seq<Entry<T>>, le: Comparator): seq<Entry<T>> {
    if sorted == [] || le(e.key, sorted[0].key) then [e] + sorted
    else [sorted[0]] + Insert(e, sorted[1..], le)
  }

  function Sort<T>(entries: seq<Entry<T>>, le: Comparator): seq<Entry<T>> {
    if entries == [] then [] else Insert(entries[0], Sort(entries[1..], le), le)
  }

  function Join(texts: seq<Text>): Text {
    if texts == [] then []
    else texts[0] + (if |texts| == 1 then [] else [COMMA] + Join(texts[1..]))
  }

  function Render(entries: seq<Entry<Text>>): (texts: seq<Text>)
    ensures |texts| == |entries|
  {
    if entries == [] then []
    else [Quote(entries[0].key) + [COLON] + entries[0].value] + Render(entries[1..])
  }

  function Canonical(v: Value, le: Comparator): Text
    decreases v, 1
  {
    match v
    case Arr(items) => [OPEN_BRACKET] + Join(CanonicalItems(items, le)) + [CLOSE_BRACKET]
    case Obj(fields) => [OPEN_BRACE] + Join(Render(Sort(CanonicalEntries(fields, le), le))) + [CLOSE_BRACE]
    case _ => Literal(v)
  }

  function CanonicalItems(items: seq<Value>, le: Comparator): (texts: seq<Text>)
    ensures |texts| == |items|
    decreases items, 0
  {
    if items == [] then [] else [Canonical(items[0], le)] + CanonicalItems(items[1..], le)
  }

  function CanonicalEntries(fields: seq<Entry<Value>>, le: Comparator): seq<Entry<Text>>
    decreases fields, 0
  {
    if fields == [] then []
    else [Entry(fields[0].key, Canonical(fields[0].value, le))] + CanonicalEntries(fields[1..], le)
  }

  /** The test every record comparison of the resolver goes through. */
  predicate SameJson(u: Value, v: Value, le: Comparator) { Canonical(u, le) == Canonical(v, le) }

  /** `stableJson`: the array case first, and undefined left to the template around JSON.stringify. */
  function Stable(v: Value, le: Comparator): Text
    decreases v, 1
  {
    if v.Arr? then [OPEN_BRACKET] + Join(StableItems(v.items, le)) + [CLOSE_BRACKET]
    else if v.Obj? then
      SortFacts(v.fields, le);
      [OPEN_BRACE] + Join(Render(StableEntries(v.fields, Sort(v.fields, le), le))) + [CLOSE_BRACE]
    else Literal(v)
  }

  function StableItems(items: seq<Value>, le: Comparator): seq<Text>
    decreases items, 0
  {
    if items == [] then [] else [Stable(items[0], le)] + StableItems(items[1..], le)
  }

  /** The properties are sorted first and printed afterwards. */
  function StableEntries(fields: seq<Entry<Value>>, sorted: seq<Entry<Value>>, le: Comparator): seq<Entry<Text>>
    requires forall e | e in sorted :: e in fields
    decreases fields, 0, |sorted|
  {
    if sorted == [] then []
    else
      assert sorted[0] in fields;
      [Entry(sorted[0].key, Stable(sorted[0].value, le))] + StableEntries(fields, sorted[1..], le)
  }

  // ---------------------------------------------------------------- what equality should mean

  predicate HasKey<T>(fields: seq<Entry<T>>, key: Text) {
    exists i | 0 <= i < |fields| :: fields[i].key == key
  }

  /**
    Equality up to the order of object properties, defined without any printer.
    A non-finite number is the same as null, because JSON has no other way to write it.
   */
  predicate Same(u: Value, v: Value) {
    match u
    case Null => v.Null? || v.NotFinite?
    case NotFinite => v.Null? || v.NotFinite?
    case Arr(items) =>
      v.Arr? && |items| == |v.items| && forall i | 0 <= i < |items| :: Same(items[i], v.items[i])
    case Obj(fields) =>
      && v.Obj?
      && (forall i | 0 <= i < |fields| :: HasKey(v.fields, fields[i].key))
      && (forall j | 0 <= j < |v.fields| :: HasKey(fields, v.fields[j].key))
      && forall i, j | 0 <= i < |fields| && 0 <= j < |v.fields| && fields[i].key == v.fields[j].key ::
           Same(fields[i].value, v.fields[j].value)
    case _ => u == v
  }

  /** No object anywhere inside `v` has two different keys that the comparator ties. */
  predicate Untied(v: Value, le: Comparator) {
    match v
    case Arr(items) => forall i | 0 <= i < |items| :: Untied(items[i], le)
    case Obj(fields) => UntiedKeys(fields, le) && forall i | 0 <= i < |fields| :: Untied(fields[i].value, le)
    case _ => true
  }

  predicate UntiedKeys<T>(fields: seq<Entry<T>>, le: Comparator) {
    forall i, j | 0 <= i < |fields| && 0 <= j < |fields| && le(fields[i].key, fields[j].key) && le(fields[j].key, fields[i].key) ::
      fields[i].key == fields[j].key
  }

  // ---------------------------------------------------------------- facts about the sort

  predicate Sorted<T>(entries: seq<Entry<T>>, le: Comparator) {
    forall i, j | 0 <= i < j < |entries| :: le(entries[i].key, entries[j].key)
  }

  /** Some position of an element. */
  ghost function IndexOf<T>(s: seq<T>, x: T): (i: nat)
    requires x in s
    ensures i < |s| && s[i] == x
  {
    if s[0] == x then 0 else 1 + IndexOf(s[1..], x)
  }

  lemma {:induction false} InsertElements<T>(e: Entry<T>, s: seq<Entry<T>>, le: Comparator)
    ensures forall x :: x in Insert(e, s, le) <==> x == e || x in s
    ensures DistinctKeys(s) && !HasKey(s, e.key) ==> DistinctKeys(Insert(e, s, le))
  {
    if s != [] && !le(e.key, s[0].key) {
      InsertElements(e, s[1..], le);
      var r := Insert(e, s[1..], le);
      assert s == [s[0]] + s[1..];
      if DistinctKeys(s) && !HasKey(s, e.key) {
        assert !HasKey(s[1..], e.key) by {
          forall i | 0 <= i < |s[1..]| ensures s[1..][i].key != e.key { assert s[1..][i] == s[i + 1]; }
        }
        forall j | 0 <= j < |r| ensures r[j].key != s[0].key {
          assert r[j] in r;
          if r[j] != e {
            var k := IndexOf(s[1..], r[j]);
            assert s[k + 1] == r[j];
          } else {
            assert s[0].key != e.key;
          }
        }
      }
    }
  }

  lemma {:induction false} InsertSorts<T>(e: Entry<T>, s: seq<Entry<T>>, le: Comparator)
    requires TotalPreorder(le) && Sorted(s, le)
    ensures Sorted(Insert(e, s, le), le)
  {
    if s != [] && !le(e.key, s[0].key) {
      InsertSorts(e, s[1..], le);
      InsertElements(e, s[1..], le);
      var r := Insert(e, s[1..], le);
      forall j | 0 <= j < |r| ensures le(s[0].key, r[j].key) {
        assert r[j] in r;
        if r[j] != e {
          var k := IndexOf(s[1..], r[j]);
          assert s[k + 1] == r[j];
        }
      }
    }
  }

  lemma {:induction false} SortFacts<T>(s: seq<Entry<T>>, le: Comparator)
    ensures forall x :: x in Sort(s, le) <==> x in s
    ensures DistinctKeys(s) ==> DistinctKeys(Sort(s, le))
    ensures TotalPreorder(le) ==> Sorted(Sort(s, le), le)
  {
    if s != [] {
      SortFacts(s[1..], le);
      var r := Sort(s[1..], le);
      InsertElements(s[0], r, le);
      assert s == [s[0]] + s[1..];
      if DistinctKeys(s) {
        forall j | 0 <= j < |r| ensures r[j].key != s[0].key {
          assert r[j] in r;
          var k := IndexOf(s[1..], r[j]);
          assert s[k + 1] == r[j];
        }
      }
      if TotalPreorder(le) { InsertSorts(s[0], r, le); }
    }
  }

  lemma SameElementsEmpty<T>(s: seq<T>, t: seq<T>)
    requires forall x :: x in s <==> x in t
    ensures s == [] <==> t == []
  {
    if s != [] { assert s[0] in t; }
    if t != [] { assert t[0] in s; }
  }

  /** A sorted sequence of entries with distinct, untied keys is determined by its elements. */
  lemma {:induction false} SortedUnique<T>(s: seq<Entry<T>>, t: seq<Entry<T>>, le: Comparator)
    requires Sorted(s, le) && Sorted(t, le) && DistinctKeys(s) && DistinctKeys(t)
    requires UntiedKeys(s, le)
    requires TotalPreorder(le)
    requires forall x :: x in s <==> x in t
    ensures s == t
  {
    SameElementsEmpty(s, t);
    if s != [] {
      assert s[0] in t && t[0] in s;
      var i, j := IndexOf(s, t[0]), IndexOf(t, s[0]);
      assert le(s[0].key, s[i].key) && le(t[0].key, t[j].key);
      assert i == 0;
      forall x ensures x in s[1..] <==> x in t[1..] {
        TailElement(s, x);
        TailElement(t, x);
      }
      SortedUnique(s[1..], t[1..], le);
      assert s == [s[0]] + s[1..] && t == [t[0]] + t[1..];
    }
  }

  lemma TailElement<T>(s: seq<Entry<T>>, x: Entry<T>)
    requires s != [] && DistinctKeys(s)
    ensures x in s[1..] <==> x in s && x != s[0]
  {
    if x in s && x != s[0] {
      var i := IndexOf(s, x);
      assert s[1..][i - 1] == x;
    }
    if x in s[1..] {
      var i := IndexOf(s[1..], x);
      assert s[i + 1] == x;
    }
  }

  // ---------------------------------------------------------------- sorting values first

  /** `v` with every object's properties sorted and every non-finite number written as null. */
  function Arrange(v: Value, le: Comparator): Value
    decreases v, 1
  {
    match v
    case NotFinite => Null
    case Arr(items) => Arr(ArrangeItems(items, le))
    case Obj(fields) => Obj(Sort(ArrangeFields(fields, le), le))
    case _ => v
  }

  function ArrangeItems(items: seq<Value>, le: Comparator): (r: seq<Value>)
    ensures |r| == |items| && forall i | 0 <= i < |items| :: r[i] == Arrange(items[i], le)
    decreases items, 0
  {
    if items == [] then [] else [Arrange(items[0], le)] + ArrangeItems(items[1..], le)
  }

  function ArrangeFields(fields: seq<Entry<Value>>, le: Comparator): (r: seq<Entry<Value>>)
    ensures |r| == |fields|
    ensures forall i | 0 <= i < |fields| :: r[i] == Entry(fields[i].key, Arrange(fields[i].value, le))
    decreases fields, 0
  {
    if fields == [] then []
    else [Entry(fields[0].key, Arrange(fields[0].value, le))] + ArrangeFields(fields[1..], le)
  }

  lemma {:induction false} ArrangedIsPlain(v: Value, le: Comparator)
    requires Numeric(v)
    ensures Finite(Arrange(v, le)) && Numeric(Arrange(v, le))
    decreases v
  {
    match v {
      case Arr(items) =>
        forall i | 0 <= i < |items| ensures Finite(ArrangeItems(items, le)[i]) && Numeric(ArrangeItems(items, le)[i]) {
          ArrangedIsPlain(items[i], le);
        }
      case Obj(fields) =>
        var a := ArrangeFields(fields, le);
        var sorted := Sort(a, le);
        SortFacts(a, le);
        forall k | 0 <= k < |sorted| ensures Finite(sorted[k].value) && Numeric(sorted[k].value) {
          assert sorted[k] in sorted;
          var i := IndexOf(a, sorted[k]);
          ArrangedIsPlain(fields[i].value, le);
        }
      case _ =>
    }
  }

  /** The values of some entries replaced by their printed text. */
  function Printed(entries: seq<Entry<Value>>): seq<Entry<Text>> {
    if entries == [] then []
    else [Entry(entries[0].key, Print(entries[0].value))] + Printed(entries[1..])
  }

  lemma {:induction false} InsertPrinted(e: Entry<Value>, s: seq<Entry<Value>>, le: Comparator)
    ensures Insert(Entry(e.key, Print(e.value)), Printed(s), le) == Printed(Insert(e, s, le))
  {
    if s != [] && !le(e.key, s[0].key) {
      InsertPrinted(e, s[1..], le);
      assert Printed(s)[1..] == Printed(s[1..]);
      var r := Insert(e, s[1..], le);
      assert ([s[0]] + r)[1..] == r;
    } else {
      assert ([e] + s)[1..] == s;
    }
  }

  lemma {:induction false} SortPrinted(s: seq<Entry<Value>>, le: Comparator)
    ensures Sort(Printed(s), le) == Printed(Sort(s, le))
  {
    if s != [] {
      SortPrinted(s[1..], le);
      assert Printed(s)[1..] == Printed(s[1..]);
      InsertPrinted(s[0], Sort(s[1..], le), le);
    }
  }

  lemma {:induction false} JoinPrinted(s: seq<Entry<Value>>)
    ensures Join(Render(Printed(s))) == PrintFields(s)
  {
    if s != [] {
      JoinPrinted(s[1..]);
      assert Printed(s)[1..] == Printed(s[1..]);
      assert Render(Printed(s))[1..] == Render(Printed(s[1..]));
    }
  }

  /** The code sorts the printed properties; printing the sorted value gives the same text. */
  lemma {:induction false} CanonicalPrintsArranged(v: Value, le: Comparator)
    ensures Canonical(v, le) == Print(Arrange(v, le))
    decreases v, 1
  {
    match v {
      case Arr(items) => ItemsPrintArranged(items, le);
      case Obj(fields) =>
        EntriesPrintArranged(fields, le);
        SortPrinted(ArrangeFields(fields, le), le);
        JoinPrinted(Sort(ArrangeFields(fields, le), le));
      case _ =>
    }
  }

  lemma {:induction false} ItemsPrintArranged(items: seq<Value>, le: Comparator)
    ensures Join(CanonicalItems(items, le)) == PrintItems(ArrangeItems(items, le))
    decreases items, 0
  {
    if items != [] {
      CanonicalPrintsArranged(items[0], le);
      ItemsPrintArranged(items[1..], le);
      assert CanonicalItems(items, le)[1..] == CanonicalItems(items[1..], le);
      assert ArrangeItems(items, le)[1..] == ArrangeItems(items[1..], le);
    }
  }

  lemma {:induction false} EntriesPrintArranged(fields: seq<Entry<Value>>, le: Comparator)
    ensures CanonicalEntries(fields, le) == Printed(ArrangeFields(fields, le))
    decreases fields, 0
  {
    if fields != [] {
      CanonicalPrintsArranged(fields[0].value, le);
      EntriesPrintArranged(fields[1..], le);
      assert ArrangeFields(fields, le)[1..] == ArrangeFields(fields[1..], le);
    }
  }

  // ---------------------------------------------------------------- what the text determines

  /** The parser recovers from the canonical text the value it stands for. */
  lemma CanonicalParses(v: Value, le: Comparator)
    requires Numeric(v)
    ensures ParseValue(Canonical(v, le)) == Parsed(Arrange(v, le), [])
  {
    CanonicalPrintsArranged(v, le);
    ArrangedIsPlain(v, le);
    RoundTrip(Arrange(v, le), []);
    assert Print(Arrange(v, le)) + [] == Print(Arrange(v, le));
  }

  lemma SortEqualElements<T>(a: seq<Entry<T>>, b: seq<Entry<T>>, le: Comparator)
    requires Sort(a, le) == Sort(b, le)
    ensures forall i | 0 <= i < |a| :: a[i] in b
    ensures forall j | 0 <= j < |b| :: b[j] in a
  {
    SortFacts(a, le);
    SortFacts(b, le);
  }

  lemma SharedKeys<T, U>(a: seq<Entry<T>>, b: seq<Entry<T>>, fields: seq<Entry<U>>, others: seq<Entry<U>>)
    requires |a| == |fields| && forall i | 0 <= i < |a| :: a[i].key == fields[i].key && a[i] in b
    requires |b| == |others| && forall j | 0 <= j < |b| :: b[j].key == others[j].key && b[j] in a
    ensures forall i | 0 <= i < |fields| :: HasKey(others, fields[i].key)
    ensures forall j | 0 <= j < |others| :: HasKey(fields, others[j].key)
  {
    forall i | 0 <= i < |fields| ensures HasKey(others, fields[i].key) {
      assert others[IndexOf(b, a[i])].key == fields[i].key;
    }
    forall j | 0 <= j < |others| ensures HasKey(fields, others[j].key) {
      assert fields[IndexOf(a, b[j])].key == others[j].key;
    }
  }

  lemma {:induction false} ArrangedEqualSame(u: Value, v: Value, le: Comparator)
    requires Valid(u) && Valid(v)
    requires Arrange(u, le) == Arrange(v, le)
    ensures Same(u, v)
    decreases u, 1
  {
    match u {
      case Arr(items) =>
        assert v.Arr?;
        forall i | 0 <= i < |items| ensures Same(items[i], v.items[i]) {
          assert ArrangeItems(items, le)[i] == ArrangeItems(v.items, le)[i];
          ArrangedEqualSame(items[i], v.items[i], le);
        }
      case Obj(fields) =>
        assert v.Obj?;
        var a, b := ArrangeFields(fields, le), ArrangeFields(v.fields, le);
        SortEqualElements(a, b, le);
        SharedKeys(a, b, fields, v.fields);
        ArrangedFieldsSame(fields, v.fields, le);
      case _ =>
    }
  }

  lemma {:induction false} ArrangedFieldsSame(fields: seq<Entry<Value>>, others: seq<Entry<Value>>, le: Comparator)
    requires DistinctKeys(others)
    requires forall i | 0 <= i < |fields| :: Valid(fields[i].value) && ArrangeFields(fields, le)[i] in ArrangeFields(others, le)
    requires forall j | 0 <= j < |others| :: Valid(others[j].value)
    ensures forall i, j | 0 <= i < |fields| && 0 <= j < |others| && fields[i].key == others[j].key ::
              Same(fields[i].value, others[j].value)
    decreases fields, 0
  {
    forall i, j | 0 <= i < |fields| && 0 <= j < |others| && fields[i].key == others[j].key
      ensures Same(fields[i].value, others[j].value)
    {
      var k := IndexOf(ArrangeFields(others, le), ArrangeFields(fields, le)[i]);
      assert others[k].key == others[j].key;
      ArrangedEqualSame(fields[i].value, others[j].value, le);
    }
  }

  lemma {:induction false} SameArrangedEqual(u: Value, v: Value, le: Comparator)
    requires Valid(u) && Valid(v) && TotalPreorder(le) && Untied(u, le)
    requires Same(u, v)
    ensures Arrange(u, le) == Arrange(v, le)
    decreases u, 1
  {
    match u {
      case Arr(items) =>
        forall i | 0 <= i < |items| ensures ArrangeItems(items, le)[i] == ArrangeItems(v.items, le)[i] {
          SameArrangedEqual(items[i], v.items[i], le);
        }
      case Obj(fields) =>
        var a, b := ArrangeFields(fields, le), ArrangeFields(v.fields, le);
        SameFieldsArrangedEqual(fields, v.fields, le);
        MatchedElements(a, b, fields, v.fields);
        SortedEqual(a, b, le);
      case _ =>
    }
  }

  lemma {:induction false} SameFieldsArrangedEqual(fields: seq<Entry<Value>>, others: seq<Entry<Value>>, le: Comparator)
    requires TotalPreorder(le)
    requires forall i | 0 <= i < |fields| :: Valid(fields[i].value) && Untied(fields[i].value, le)
    requires forall j | 0 <= j < |others| :: Valid(others[j].value)
    requires forall i, j | 0 <= i < |fields| && 0 <= j < |others| && fields[i].key == others[j].key ::
               Same(fields[i].value, others[j].value)
    ensures forall i, j | 0 <= i < |fields| && 0 <= j < |others| && fields[i].key == others[j].key ::
              ArrangeFields(fields, le)[i] == ArrangeFields(others, le)[j]
    decreases fields, 0
  {
    forall i, j | 0 <= i < |fields| && 0 <= j < |others| && fields[i].key == others[j].key
      ensures ArrangeFields(fields, le)[i] == ArrangeFields(others, le)[j]
    {
      SameArrangedEqual(fields[i].value, others[j].value, le);
    }
  }

  lemma MatchedElements<T, U>(a: seq<Entry<T>>, b: seq<Entry<T>>, fields: seq<Entry<U>>, others: seq<Entry<U>>)
    requires |a| == |fields| && forall i | 0 <= i < |a| :: a[i].key == fields[i].key && HasKey(others, fields[i].key)
    requires |b| == |others| && forall j | 0 <= j < |b| :: b[j].key == others[j].key && HasKey(fields, others[j].key)
    requires forall i, j | 0 <= i < |a| && 0 <= j < |b| && a[i].key == b[j].key :: a[i] == b[j]
    ensures forall i | 0 <= i < |a| :: a[i] in b
    ensures forall j | 0 <= j < |b| :: b[j] in a
  {
    forall i | 0 <= i < |a| ensures a[i] in b {
      var j :| 0 <= j < |others| && others[j].key == fields[i].key;
      assert b[j] == a[i];
    }
    forall j | 0 <= j < |b| ensures b[j] in a {
      var i :| 0 <= i < |fields| && fields[i].key == others[j].key;
      assert a[i] == b[j];
    }
  }

  lemma SortedEqual<T>(s: seq<Entry<T>>, t: seq<Entry<T>>, le: Comparator)
    requires TotalPreorder(le) && DistinctKeys(s) && DistinctKeys(t) && UntiedKeys(s, le)
    requires (forall i | 0 <= i < |s| :: s[i] in t) && (forall j | 0 <= j < |t| :: t[j] in s)
    ensures Sort(s, le) == Sort(t, le)
  {
    SortFacts(s, le);
    SortFacts(t, le);
    SortedUntied(s, le);
    SortedUnique(Sort(s, le), Sort(t, le), le);
  }

  lemma SortedUntied<T>(s: seq<Entry<T>>, le: Comparator)
    requires UntiedKeys(s, le)
    ensures UntiedKeys(Sort(s, le), le)
  {
    SortFacts(s, le);
    var r := Sort(s, le);
    forall i, j | 0 <= i < |r| && 0 <= j < |r| && le(r[i].key, r[j].key) && le(r[j].key, r[i].key)
      ensures r[i].key == r[j].key
    {
      assert r[i] in r && r[j] in r;
      var m, n := IndexOf(s, r[i]), IndexOf(s, r[j]);
      assert s[m].key == s[n].key;
    }
  }

  // ---------------------------------------------------------------- main results

  /** Equal canonical text never merges two different values, whatever the comparator does. */
  lemma EqualTextMeansSame(u: Value, v: Value, le: Comparator)
    requires Valid(u) && Valid(v) && SameJson(u, v, le)
    ensures Same(u, v)
  {
    EqualTextArranged(u, v, le);
    ArrangedEqualSame(u, v, le);
  }

  /** Equal values get one text, when no object of `u` holds keys the comparator ties. */
  lemma SameMeansEqualText(u: Value, v: Value, le: Comparator)
    requires Valid(u) && Valid(v) && TotalPreorder(le) && Untied(u, le) && Same(u, v)
    ensures SameJson(u, v, le)
  {
    SameArrangedEqual(u, v, le);
    CanonicalPrintsArranged(u, le);
    CanonicalPrintsArranged(v, le);
  }

  /** The comparison of texts is exactly equality up to property order. */
  lemma CanonicalFaithful(u: Value, v: Value, le: Comparator)
    requires Valid(u) && Valid(v) && TotalPreorder(le) && Untied(u, le)
    ensures SameJson(u, v, le) <==> Same(u, v)
  {
    if SameJson(u, v, le) { EqualTextMeansSame(u, v, le); }
    if Same(u, v) { SameMeansEqualText(u, v, le); }
  }

  lemma {:induction false} ValidNumeric(v: Value)
    requires Valid(v)
    ensures Numeric(v)
  {
    match v {
      case Arr(items) => forall i | 0 <= i < |items| { ValidNumeric(items[i]); }
      case Obj(fields) => forall i | 0 <= i < |fields| { ValidNumeric(fields[i].value); }
      case _ =>
    }
  }

  // ---------------------------------------------------------------- exactly when order shows

  /** `x` stands before `y`. */
  predicate Before<T(==)>(s: seq<T>, x: T, y: T) {
    exists p, q | 0 <= p < q < |s| :: s[p] == x && s[q] == y
  }

  lemma BeforeCons<T>(x: T, s: seq<T>, y: T)
    requires y in s
    ensures Before([x] + s, x, y)
  {
    var k := IndexOf(s, y);
    assert ([x] + s)[0] == x && ([x] + s)[k + 1] == y;
  }

  lemma BeforeInTail<T>(e: T, s: seq<T>, x: T, y: T)
    requires Before(s, x, y)
    ensures Before([e] + s, x, y)
  {
    var p, q :| 0 <= p < q < |s| && s[p] == x && s[q] == y;
    assert ([e] + s)[p + 1] == x && ([e] + s)[q + 1] == y;
  }

  /** An entry goes in before everything it does not come after. */
  lemma {:induction false} InsertsBefore<T>(e: Entry<T>, s: seq<Entry<T>>, y: Entry<T>, le: Comparator)
    requires y in s && le(e.key, y.key)
    ensures Before(Insert(e, s, le), e, y)
  {
    if le(e.key, s[0].key) {
      BeforeCons(e, s, y);
    } else {
      assert s == [s[0]] + s[1..];
      InsertsBefore(e, s[1..], y, le);
      BeforeInTail(s[0], Insert(e, s[1..], le), e, y);
    }
  }

  /** Inserting keeps the order of what is there. */
  lemma {:induction false} InsertKeepsOrder<T>(e: Entry<T>, s: seq<Entry<T>>, x: Entry<T>, y: Entry<T>, le: Comparator)
    requires Before(s, x, y)
    ensures Before(Insert(e, s, le), x, y)
  {
    if s == [] || le(e.key, s[0].key) {
      BeforeInTail(e, s, x, y);
    } else {
      var p, q :| 0 <= p < q < |s| && s[p] == x && s[q] == y;
      if p == 0 {
        InsertElements(e, s[1..], le);
        assert s[1..][q - 1] == y;
        BeforeCons(x, Insert(e, s[1..], le), y);
      } else {
        assert s[1..][p - 1] == x && s[1..][q - 1] == y;
        InsertKeepsOrder(e, s[1..], x, y, le);
        BeforeInTail(s[0], Insert(e, s[1..], le), x, y);
      }
    }
  }

  /** The sort is stable: it exchanges two entries only if it must. */
  lemma {:induction false} SortStable<T>(s: seq<Entry<T>>, i: nat, j: nat, le: Comparator)
    requires i < j < |s| && le(s[i].key, s[j].key)
    ensures Before(Sort(s, le), s[i], s[j])
  {
    SortFacts(s[1..], le);
    if i == 0 {
      assert s[1..][j - 1] == s[j];
      InsertsBefore(s[0], Sort(s[1..], le), s[j], le);
    } else {
      SortStable(s[1..], i - 1, j - 1, le);
      InsertKeepsOrder(s[0], Sort(s[1..], le), s[i], s[j], le);
    }
  }

  function Swap<T>(s: seq<T>, i: nat, j: nat): seq<T>
    requires i < |s| && j < |s|
  {
    s[i := s[j]][j := s[i]]
  }

  /** Two tied entries keep whatever order they are given, so exchanging them shows in the sorted result. */
  lemma TiedSwapShows<T>(s: seq<Entry<T>>, t: seq<Entry<T>>, i: nat, j: nat, le: Comparator)
    requires i < j < |s| == |t| && DistinctKeys(s) && t[i] == s[j] && t[j] == s[i]
    requires le(s[i].key, s[j].key) && le(s[j].key, s[i].key)
    ensures Sort(s, le) != Sort(t, le)
  {
    var r := Sort(s, le);
    SortFacts(s, le);
    SortStable(s, i, j, le);
    SortStable(t, i, j, le);
    var p, q :| 0 <= p < q < |r| && r[p] == s[i] && r[q] == s[j];
    assert !Before(r, s[j], s[i]) by {
      assert forall k | 0 <= k < |r| && k != p :: r[k].key != s[i].key;
      assert forall k | 0 <= k < |r| && k != q :: r[k].key != s[j].key;
    }
  }

  lemma {:induction false} SameReflexive(v: Value)
    requires Valid(v)
    ensures Same(v, v)
  {
    match v {
      case Arr(items) => forall i | 0 <= i < |items| { SameReflexive(items[i]); }
      case Obj(fields) => forall i | 0 <= i < |fields| { SameReflexive(fields[i].value); }
      case _ =>
    }
  }

  lemma ReplacedItem(items: seq<Value>, i: nat, w: Value)
    requires i < |items| && Valid(Arr(items)) && Valid(w) && Same(items[i], w)
    ensures Valid(Arr(items[i := w])) && Same(Arr(items), Arr(items[i := w]))
  {
    forall k | 0 <= k < |items| ensures Same(items[k], items[i := w][k]) { SameReflexive(items[k]); }
  }

  lemma ReplacedField(fields: seq<Entry<Value>>, i: nat, w: Value)
    requires i < |fields| && Valid(Obj(fields)) && Valid(w) && Same(fields[i].value, w)
    ensures var others := fields[i := Entry(fields[i].key, w)]; Valid(Obj(others)) && Same(Obj(fields), Obj(others))
  {
    var others := fields[i := Entry(fields[i].key, w)];
    assert forall k | 0 <= k < |fields| :: others[k].key == fields[k].key;
    forall k, l | 0 <= k < |fields| && 0 <= l < |others| && fields[k].key == others[l].key
      ensures k == l && Same(fields[k].value, others[l].value) {
      assert k == l;
      SameReflexive(fields[k].value);
    }
  }

  lemma SwapElements<T>(s: seq<Entry<T>>, i: nat, j: nat)
    requires i < |s| && j < |s| && DistinctKeys(s)
    ensures DistinctKeys(Swap(s, i, j)) && forall x :: x in Swap(s, i, j) <==> x in s
  {
    var t := Swap(s, i, j);
    assert t[i] == s[j] && t[j] == s[i];
    assert forall k | 0 <= k < |s| && k != i && k != j :: t[k] == s[k];
    forall x ensures x in t <==> x in s {
      if x in s {
        var k := IndexOf(s, x);
        assert t[if k == i then j else if k == j then i else k] == x;
      }
    }
  }

  /** An object with the same properties in another order. */
  lemma SameProperties(fields: seq<Entry<Value>>, others: seq<Entry<Value>>)
    requires Valid(Obj(fields)) && DistinctKeys(others) && forall x :: x in others <==> x in fields
    ensures Valid(Obj(others)) && Same(Obj(fields), Obj(others))
  {
    forall k, l | 0 <= k < |fields| && 0 <= l < |others| && fields[k].key == others[l].key
      ensures Same(fields[k].value, others[l].value) {
      var m := IndexOf(fields, others[l]);
      assert m == k;
      SameReflexive(fields[k].value);
    }
    forall l | 0 <= l < |others| ensures Valid(others[l].value) && HasKey(fields, others[l].key) {
      assert fields[IndexOf(fields, others[l])] == others[l];
    }
    forall k | 0 <= k < |fields| ensures HasKey(others, fields[k].key) {
      assert others[IndexOf(others, fields[k])] == fields[k];
    }
  }

  /** Values with one text are arranged in one way. */
  lemma EqualTextArranged(u: Value, v: Value, le: Comparator)
    requires Valid(u) && Valid(v) && SameJson(u, v, le)
    ensures Arrange(u, le) == Arrange(v, le)
  {
    ValidNumeric(u);
    ValidNumeric(v);
    CanonicalParses(u, le);
    CanonicalParses(v, le);
  }

  /** Where two keys tie, exchanging their properties gives an equal value that is arranged otherwise. */
  lemma {:induction false} TiedCounterpart(u: Value, le: Comparator) returns (v: Value)
    requires Valid(u) && !Untied(u, le)
    ensures Valid(v) && Same(u, v) && Arrange(u, le) != Arrange(v, le)
    decreases u
  {
    match u {
      case Arr(items) =>
        var i :| 0 <= i < |items| && !Untied(items[i], le);
        var w := TiedCounterpart(items[i], le);
        ReplacedItem(items, i, w);
        v := Arr(items[i := w]);
        assert ArrangeItems(items, le)[i] != ArrangeItems(items[i := w], le)[i];
      case Obj(fields) =>
        if UntiedKeys(fields, le) {
          var i :| 0 <= i < |fields| && !Untied(fields[i].value, le);
          var w := TiedCounterpart(fields[i].value, le);
          ReplacedField(fields, i, w);
          v := Obj(fields[i := Entry(fields[i].key, w)]);
          ReplacedShows(fields, i, w, le);
        } else {
          v := TiedKeysCounterpart(fields, le);
        }
    }
  }

  lemma ReplacedShows(fields: seq<Entry<Value>>, i: nat, w: Value, le: Comparator)
    requires i < |fields| && DistinctKeys(fields) && Arrange(fields[i].value, le) != Arrange(w, le)
    ensures Arrange(Obj(fields), le) != Arrange(Obj(fields[i := Entry(fields[i].key, w)]), le)
  {
    var a, b := ArrangeFields(fields, le), ArrangeFields(fields[i := Entry(fields[i].key, w)], le);
    if Sort(a, le) == Sort(b, le) { SortEqualElements(a, b, le); }
  }

  lemma TiedKeysCounterpart(fields: seq<Entry<Value>>, le: Comparator) returns (v: Value)
    requires Valid(Obj(fields)) && !UntiedKeys(fields, le)
    ensures Valid(v) && Same(Obj(fields), v) && Arrange(Obj(fields), le) != Arrange(v, le)
  {
    var i, j :| 0 <= i < |fields| && 0 <= j < |fields| && le(fields[i].key, fields[j].key) && le(fields[j].key, fields[i].key)
                && fields[i].key != fields[j].key;
    var m, n := if i < j then i else j, if i < j then j else i;
    v := Obj(Swap(fields, m, n));
    SwapElements(fields, m, n);
    SameProperties(fields, Swap(fields, m, n));
    SwapShows(fields, m, n, le);
  }

  lemma SwapShows(fields: seq<Entry<Value>>, i: nat, j: nat, le: Comparator)
    requires i < j < |fields| && DistinctKeys(fields) && le(fields[i].key, fields[j].key) && le(fields[j].key, fields[i].key)
    ensures Arrange(Obj(fields), le) != Arrange(Obj(Swap(fields, i, j)), le)
  {
    var others := Swap(fields, i, j);
    assert others[i] == fields[j] && others[j] == fields[i];
    TiedSwapShows(ArrangeFields(fields, le), ArrangeFields(others, le), i, j, le);
  }

  /**
    Exactly when the text of a value depends on the order of properties.  Every value that equals `u`
    up to that order has the text of `u` if and only if no object within `u` has two keys that the
    comparator ties.
   */
  lemma OrderInsensitiveExactly(u: Value, le: Comparator)
    requires Valid(u) && TotalPreorder(le)
    ensures (forall v | Valid(v) && Same(u, v) :: SameJson(u, v, le)) <==> Untied(u, le)
  {
    if Untied(u, le) {
      forall v | Valid(v) && Same(u, v) ensures SameJson(u, v, le) { CanonicalFaithful(u, v, le); }
    } else {
      var v := TiedCounterpart(u, le);
      if SameJson(u, v, le) { EqualTextArranged(u, v, le); }
    }
  }

  /**
    So property order is irrelevant for all values exactly when the comparator is a total order.
    `localeCompare` is not one: it ties canonically equivalent Unicode strings.
   */
  lemma ComparatorExactly(le: Comparator)
    requires TotalPreorder(le)
    ensures (forall u, v | Valid(u) && Valid(v) && Same(u, v) :: SameJson(u, v, le)) <==> Antisymmetric(le)
  {
    if Antisymmetric(le) {
      forall u, v | Valid(u) && Valid(v) && Same(u, v) ensures SameJson(u, v, le) {
        AlwaysUntied(u, le);
        CanonicalFaithful(u, v, le);
      }
    } else {
      var a, b :| le(a, b) && le(b, a) && a != b;
      TieBreaksEquality(a, b, le);
    }
  }

  lemma {:induction false} AlwaysUntied(v: Value, le: Comparator)
    requires Antisymmetric(le)
    ensures Untied(v, le)
  {
    match v {
      case Arr(items) => forall i | 0 <= i < |items| { AlwaysUntied(items[i], le); }
      case Obj(fields) => forall i | 0 <= i < |fields| { AlwaysUntied(fields[i].value, le); }
      case _ =>
    }
  }

  /** Two objects with the same two properties, told apart because their keys tie. */
  lemma TieBreaksEquality(a: Text, b: Text, le: Comparator)
    requires le(a, b) && le(b, a) && a != b
    ensures var u, v := Obj([Entry(a, Null), Entry(b, Null)]), Obj([Entry(b, Null), Entry(a, Null)]);
            Valid(u) && Valid(v) && Same(u, v) && !SameJson(u, v, le)
  {
    var s, t := [Entry(a, Null), Entry(b, Null)], [Entry(b, Null), Entry(a, Null)];
    assert Swap(s, 0, 1) == t;
    SwapElements(s, 0, 1);
    SameProperties(s, t);
    SwapShows(s, 0, 1, le);
    if SameJson(Obj(s), Obj(t), le) { EqualTextArranged(Obj(s), Obj(t), le); }
  }

  /** `stableJson` gives every value the same text as `canonicalJson`. */
  lemma {:induction false} StableEqualsCanonical(v: Value, le: Comparator)
    ensures Stable(v, le) == Canonical(v, le)
    decreases v, 1
  {
    match v {
      case Arr(items) => StableItemsEqual(items, le);
      case Obj(fields) =>
        StableFieldsEqual(fields, le);
        SortCanonicalEntries(fields, le);
      case _ =>
    }
  }

  lemma {:induction false} StableFieldsEqual(fields: seq<Entry<Value>>, le: Comparator)
    ensures forall e | e in Sort(fields, le) :: e in fields
    ensures StableEntries(fields, Sort(fields, le), le) == CanonicalEntries(Sort(fields, le), le)
    decreases fields, 1
  {
    forall e | e in Sort(fields, le) ensures e in fields { SortedElement(fields, le, e); }
    StableEntriesEqual(fields, Sort(fields, le), le);
  }

  lemma SortedElement(fields: seq<Entry<Value>>, le: Comparator, e: Entry<Value>)
    requires e in Sort(fields, le)
    ensures e in fields
  {
    SortFacts(fields, le);
  }

  lemma {:induction false} StableItemsEqual(items: seq<Value>, le: Comparator)
    ensures StableItems(items, le) == CanonicalItems(items, le)
    decreases items, 0
  {
    if items != [] {
      StableEqualsCanonical(items[0], le);
      StableItemsEqual(items[1..], le);
    }
  }

  lemma {:induction false} StableEntriesEqual(fields: seq<Entry<Value>>, sorted: seq<Entry<Value>>, le: Comparator)
    requires forall e | e in sorted :: e in fields
    ensures StableEntries(fields, sorted, le) == CanonicalEntries(sorted, le)
    decreases fields, 0, |sorted|
  {
    if sorted != [] {
      assert sorted[0] in fields;
      StableEqualsCanonical(sorted[0].value, le);
      StableEntriesEqual(fields, sorted[1..], le);
    }
  }

  lemma {:induction false} InsertCanonical(e: Entry<Value>, s: seq<Entry<Value>>, le: Comparator)
    ensures Insert(Entry(e.key, Canonical(e.value, le)), CanonicalEntries(s, le), le) == CanonicalEntries(Insert(e, s, le), le)
  {
    if s != [] && !le(e.key, s[0].key) {
      InsertCanonical(e, s[1..], le);
      assert CanonicalEntries(s, le)[1..] == CanonicalEntries(s[1..], le);
      var r := Insert(e, s[1..], le);
      assert ([s[0]] + r)[1..] == r;
    } else {
      assert ([e] + s)[1..] == s;
    }
  }

  lemma {:induction false} SortCanonicalEntries(s: seq<Entry<Value>>, le: Comparator)
    ensures Sort(CanonicalEntries(s, le), le) == CanonicalEntries(Sort(s, le), le)
  {
    if s != [] {
      SortCanonicalEntries(s[1..], le);
      assert CanonicalEntries(s, le)[1..] == CanonicalEntries(s[1..], le);
      InsertCanonical(s[0], Sort(s[1..], le), le);
    }
  }
}
