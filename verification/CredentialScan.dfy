/**
  The inspection that keeps structured credentials out of stored JSON: a worklist over the parsed
  value that looks at every property name after lower-casing it and dropping everything but ASCII
  letters and digits.
 */
module CredentialScan {
  import opened Prelude
  import opened Json

  /** `lower(u)` is what lower-casing makes of one code unit. */
  type Lowering = Unit -> Text

  predicate Alphanumeric(u: Unit) { 0x30 <= u <= 0x39 || 0x61 <= u <= 0x7A }

  function Keep(t: Text): Text {
    if t == [] then [] else (if Alphanumeric(t[0]) then [t[0]] else []) + Keep(t[1..])
  }

  function Normalized(name: Text, lower: Lowering): Text {
    if name == [] then [] else Keep(lower(name[0])) + Normalized(name[1..], lower)
  }

  /** Some property name of some object within `v` normalises to a forbidden name. */
  predicate Tainted(v: Value, forbidden: set<Text>, lower: Lowering) {
    match v
    case Arr(items) => exists i | 0 <= i < |items| :: Tainted(items[i], forbidden, lower)
    case Obj(fields) =>
      exists i | 0 <= i < |fields| :: Normalized(fields[i].key, lower) in forbidden || Tainted(fields[i].value, forbidden, lower)
    case _ => false
  }

  predicate NamesForbidden(v: Value, forbidden: set<Text>, lower: Lowering) {
    v.Obj? && exists i | 0 <= i < |v.fields| :: Normalized(v.fields[i].key, lower) in forbidden
  }

  /** `u` is `v` or lies at some depth inside it, along `path`. */
  predicate At(v: Value, path: seq<nat>, u: Value)
    decreases |path|
  {
    if path == [] then u == v
    else match v
         case Arr(items) => path[0] < |items| && At(items[path[0]], path[1..], u)
         case Obj(fields) => path[0] < |fields| && At(fields[path[0]].value, path[1..], u)
         case _ => false
  }

  // ---------------------------------------------------------------- the worklist

  function Size(v: Value): nat
    decreases v, 1
  {
    match v
    case Arr(items) => 1 + SizeItems(items)
    case Obj(fields) => 1 + SizeFields(fields)
    case _ => 1
  }

  function SizeItems(items: seq<Value>): nat
    decreases items, 0
  {
    if items == [] then 0 else Size(items[0]) + SizeItems(items[1..])
  }

  function SizeFields(fields: seq<Entry<Value>>): nat
    decreases fields, 0
  {
    if fields == [] then 0 else Size(fields[0].value) + SizeFields(fields[1..])
  }

  /** The nodes still to be visited. */
  function Pending(values: seq<Value>): nat {
    if values == [] then 0 else Pending(values[..|values| - 1]) + Size(values[|values| - 1])
  }

  predicate AnyTainted(values: seq<Value>, forbidden: set<Text>, lower: Lowering) {
    exists i | 0 <= i < |values| :: Tainted(values[i], forbidden, lower)
  }

  function ValuesOf(fields: seq<Entry<Value>>): (values: seq<Value>)
    ensures |values| == |fields| && forall i | 0 <= i < |fields| :: values[i] == fields[i].value
  {
    seq(|fields|, i requires 0 <= i < |fields| => fields[i].value)
  }

  /**
    containsForbiddenStructuredCredential.  It visits every node at most once and stops, and answers
    whether any property name at any depth is forbidden.
   */
  method ContainsForbiddenCredential(value: Value, forbidden: set<Text>, lower: Lowering) returns (found: bool)
    ensures found == Tainted(value, forbidden, lower)
  {
    var pending := [value];
    while pending != []
      invariant AnyTainted(pending, forbidden, lower) <==> Tainted(value, forbidden, lower)
      decreases Pending(pending)
    {
      var n := |pending| - 1;
      var current := pending[n];
      var rest := pending[..n];
      AnyTaintedConcat(rest, [current], forbidden, lower);
      assert rest + [current] == pending;
      match current {
        case Arr(items) =>
          ItemsPushed(rest, items, forbidden, lower);
          pending := rest + items;
        case Obj(fields) =>
          var named := FirstForbidden(fields, forbidden, lower);
          if named { return true; }
          FieldsPushed(rest, fields, forbidden, lower);
          pending := rest + ValuesOf(fields);
        case _ =>
          pending := rest;
      }
    }
    found := false;
  }

  /** The loop over the properties of one object; without a find it leaves their values pushed in order. */
  method FirstForbidden(fields: seq<Entry<Value>>, forbidden: set<Text>, lower: Lowering) returns (named: bool)
    ensures named == NamesForbidden(Obj(fields), forbidden, lower)
  {
    for i := 0 to |fields|
      invariant forall j | 0 <= j < i :: Normalized(fields[j].key, lower) !in forbidden
    {
      if Normalized(fields[i].key, lower) in forbidden { return true; }
    }
    named := false;
  }

  lemma ItemsPushed(rest: seq<Value>, items: seq<Value>, forbidden: set<Text>, lower: Lowering)
    ensures Pending(rest + items) < Pending(rest) + Size(Arr(items))
    ensures AnyTainted(rest + items, forbidden, lower) <==> AnyTainted(rest, forbidden, lower) || Tainted(Arr(items), forbidden, lower)
  {
    PendingConcat(rest, items);
    PendingItems(items);
    AnyTaintedConcat(rest, items, forbidden, lower);
  }

  lemma FieldsPushed(rest: seq<Value>, fields: seq<Entry<Value>>, forbidden: set<Text>, lower: Lowering)
    ensures Pending(rest + ValuesOf(fields)) < Pending(rest) + Size(Obj(fields))
    ensures !NamesForbidden(Obj(fields), forbidden, lower) ==>
              (AnyTainted(rest + ValuesOf(fields), forbidden, lower) <==>
                 AnyTainted(rest, forbidden, lower) || Tainted(Obj(fields), forbidden, lower))
  {
    PendingConcat(rest, ValuesOf(fields));
    PendingFields(fields);
    AnyTaintedConcat(rest, ValuesOf(fields), forbidden, lower);
  }

  lemma AnyTaintedConcat(a: seq<Value>, b: seq<Value>, forbidden: set<Text>, lower: Lowering)
    ensures AnyTainted(a + b, forbidden, lower) <==> AnyTainted(a, forbidden, lower) || AnyTainted(b, forbidden, lower)
  {
    if AnyTainted(a, forbidden, lower) {
      var i :| 0 <= i < |a| && Tainted(a[i], forbidden, lower);
      assert (a + b)[i] == a[i];
    }
    if AnyTainted(b, forbidden, lower) {
      var i :| 0 <= i < |b| && Tainted(b[i], forbidden, lower);
      assert (a + b)[|a| + i] == b[i];
    }
  }

  lemma {:induction false} PendingConcat(a: seq<Value>, b: seq<Value>)
    ensures Pending(a + b) == Pending(a) + Pending(b)
  {
    if b == [] {
      assert a + b == a;
    } else {
      assert (a + b)[..|a + b| - 1] == a + b[..|b| - 1];
      PendingConcat(a, b[..|b| - 1]);
    }
  }

  lemma {:induction false} PendingItems(items: seq<Value>)
    ensures Pending(items) == SizeItems(items)
  {
    if items != [] {
      assert items == [items[0]] + items[1..];
      PendingConcat([items[0]], items[1..]);
      PendingItems(items[1..]);
      assert [items[0]][..0] == [];
    }
  }

  lemma {:induction false} PendingFields(fields: seq<Entry<Value>>)
    ensures Pending(ValuesOf(fields)) == SizeFields(fields)
  {
    if fields != [] {
      assert ValuesOf(fields) == [fields[0].value] + ValuesOf(fields[1..]);
      PendingConcat([fields[0].value], ValuesOf(fields[1..]));
      PendingFields(fields[1..]);
      assert [fields[0].value][..0] == [];
    }
  }

  // ---------------------------------------------------------------- what the answer means

  ghost predicate SomewhereForbidden(v: Value, forbidden: set<Text>, lower: Lowering) {
    exists path: seq<nat>, u: Value :: At(v, path, u) && NamesForbidden(u, forbidden, lower)
  }

  /** A value is rejected if and only if some object at some depth has a forbidden property name. */
  lemma {:induction false} TaintedExactly(v: Value, forbidden: set<Text>, lower: Lowering)
    ensures Tainted(v, forbidden, lower) <==> SomewhereForbidden(v, forbidden, lower)
  {
    if Tainted(v, forbidden, lower) {
      var path, u := TaintedPath(v, forbidden, lower);
      assert At(v, path, u) && NamesForbidden(u, forbidden, lower);
    }
    if SomewhereForbidden(v, forbidden, lower) {
      var path: seq<nat>, u: Value :| At(v, path, u) && NamesForbidden(u, forbidden, lower);
      PathTaints(v, path, u, forbidden, lower);
    }
  }

  lemma {:induction false} TaintedPath(v: Value, forbidden: set<Text>, lower: Lowering) returns (path: seq<nat>, u: Value)
    requires Tainted(v, forbidden, lower)
    ensures At(v, path, u) && NamesForbidden(u, forbidden, lower)
  {
    match v {
      case Arr(items) =>
        var i :| 0 <= i < |items| && Tainted(items[i], forbidden, lower);
        var rest;
        rest, u := TaintedPath(items[i], forbidden, lower);
        path := [i] + rest;
        assert path[1..] == rest;
      case Obj(fields) =>
        if NamesForbidden(v, forbidden, lower) {
          path, u := [], v;
        } else {
          var i :| 0 <= i < |fields| && Tainted(fields[i].value, forbidden, lower);
          var rest;
          rest, u := TaintedPath(fields[i].value, forbidden, lower);
          path := [i] + rest;
          assert path[1..] == rest;
        }
    }
  }

  lemma {:induction false} PathTaints(v: Value, path: seq<nat>, u: Value, forbidden: set<Text>, lower: Lowering)
    requires At(v, path, u) && NamesForbidden(u, forbidden, lower)
    ensures Tainted(v, forbidden, lower)
    decreases |path|
  {
    if path != [] {
      match v {
        case Arr(items) => PathTaints(items[path[0]], path[1..], u, forbidden, lower);
        case Obj(fields) => PathTaints(fields[path[0]].value, path[1..], u, forbidden, lower);
      }
    } else {
      var i :| 0 <= i < |v.fields| && Normalized(v.fields[i].key, lower) in forbidden;
    }
  }

  lemma {:induction false} NormalizedConcat(a: Text, b: Text, lower: Lowering)
    ensures Normalized(a + b, lower) == Normalized(a, lower) + Normalized(b, lower)
  {
    if a == [] {
      assert a + b == b;
    } else {
      assert (a + b)[0] == a[0] && (a + b)[1..] == a[1..] + b;
      NormalizedConcat(a[1..], b, lower);
    }
  }

  /**
    Spelling tricks do not help: a code unit whose lower case holds no ASCII letter or digit may be
    put anywhere in a name without changing how it is judged, and no other one may.
   */
  lemma SeparatorsIgnored(a: Text, u: Unit, b: Text, lower: Lowering)
    ensures Normalized(a + [u] + b, lower) == Normalized(a + b, lower) <==> Keep(lower(u)) == []
  {
    NormalizedConcat(a + [u], b, lower);
    NormalizedConcat(a, [u], lower);
    NormalizedConcat(a, b, lower);
    assert Normalized([u], lower) == Keep(lower(u));
  }

  // ---------------------------------------------------------------- scanner identities

  datatype Scanner = Scanner(name: Text, version: Text)

  predicate TokenUnit(u: Unit) { Alphanumeric(u) || 0x41 <= u <= 0x5A || u == 0x2E || u == 0x5F || u == 0x2B || u == 0x2D }

  predicate TokenStart(u: Unit) { Alphanumeric(u) || 0x41 <= u <= 0x5A }

  predicate Token(t: Text) { 1 <= |t| <= 64 && TokenStart(t[0]) && forall i | 0 <= i < |t| :: TokenUnit(t[i]) }

  function Identity(s: Scanner): Text { s.name + [0] + s.version }

  /** Tokens hold no NUL, so the joined identity is the pair. */
  lemma IdentityInjective(a: Scanner, b: Scanner)
    requires Token(a.name) && Token(b.name) && Identity(a) == Identity(b)
    ensures a == b
  {
    var t := Identity(a);
    assert t[|a.name|] == 0 && t[|b.name|] == 0;
    assert forall i | 0 <= i < |a.name| :: t[i] == a.name[i] && TokenUnit(a.name[i]);
    assert forall i | 0 <= i < |b.name| :: t[i] == b.name[i] && TokenUnit(b.name[i]);
    assert t[..|a.name|] == a.name && t[..|b.name|] == b.name;
    assert t[|a.name| + 1..] == a.version && t[|b.name| + 1..] == b.version;
  }

  /** validatedScanners: accepted exactly when all tokens are well formed and no scanner is listed twice. */
  method ValidateScanners(scanners: seq<Scanner>) returns (ok: bool)
    ensures ok <==> (forall i | 0 <= i < |scanners| :: Token(scanners[i].name) && Token(scanners[i].version))
                    && forall i, j | 0 <= i < j < |scanners| :: scanners[i] != scanners[j]
  {
    var identities: set<Text> := {};
    for n := 0 to |scanners|
      invariant forall i | 0 <= i < n :: Token(scanners[i].name) && Token(scanners[i].version) && Identity(scanners[i]) in identities
      invariant forall id | id in identities :: exists i :: 0 <= i < n && Identity(scanners[i]) == id
      invariant forall i, j | 0 <= i < j < n :: scanners[i] != scanners[j]
    {
      if !Token(scanners[n].name) || !Token(scanners[n].version) { return false; }
      if Identity(scanners[n]) in identities {
        var i :| 0 <= i < n && Identity(scanners[i]) == Identity(scanners[n]);
        IdentityInjective(scanners[i], scanners[n]);
        return false;
      }
      identities := identities + {Identity(scanners[n])};
    }
    ok := true;
  }

  // ---------------------------------------------------------------- what is kept of a name

  const DIGITS := "0123456789"

  const LETTERS := "abcdefghijklmnopqrstuvwxyz"

  predicate Listed(u: Unit, list: string) { exists i :: 0 <= i < |list| && u as int == list[i] as int }

  lemma DigitListed(u: Unit)
    ensures 0x30 <= u <= 0x39 <==> Listed(u, DIGITS)
  {
    if 0x30 <= u <= 0x39 { assert DIGITS[u as int - 0x30] as int == u as int; }
  }

  lemma LetterListed(u: Unit)
    ensures 0x61 <= u <= 0x7A <==> Listed(u, LETTERS)
  {
    if 0x61 <= u <= 0x7A { assert LETTERS[u as int - 0x61] as int == u as int; }
  }

  /** `u` is one of the listed letters and digits. */
  predicate Kept(u: Unit) { Listed(u, LETTERS) || Listed(u, DIGITS) }

  lemma AlphanumericExactly(u: Unit)
    ensures Alphanumeric(u) <==> Kept(u)
  {
    DigitListed(u);
    LetterListed(u);
  }

  lemma KeepSplit(a: Text, b: Text)
    requires a != []
    ensures (a + b)[0] == a[0] && (a + b)[1..] == a[1..] + b
  {
  }

  lemma {:induction false} KeepLast(t: Text, u: Unit)
    ensures Keep(t + [u]) == Keep(t) + if Alphanumeric(u) then [u] else []
  {
    if t == [] {
      assert t + [u] == [u] && [u][1..] == [];
    } else {
      KeepSplit(t, [u]);
      KeepLast(t[1..], u);
      KeepFirst(t);
      KeepFirst(t + [u]);
    }
  }

  lemma KeepFirst(t: Text)
    requires t != []
    ensures Keep(t) == (if Alphanumeric(t[0]) then [t[0]] else []) + Keep(t[1..])
  {
  }

  /** What is kept of a text, code unit by code unit: its letters and digits, in order. */
  lemma KeepExactly(t: Text, u: Unit)
    ensures Keep(t + [u]) == Keep(t) + if Kept(u) then [u] else []
  {
    KeepLast(t, u);
    AlphanumericExactly(u);
  }

  /** The normalisation of a name, code unit by code unit: what is kept of the lower case of each. */
  lemma NormalizedExactly(a: Text, u: Unit, lower: Lowering)
    ensures Keep([]) == Normalized([], lower) == []
    ensures Normalized(a + [u], lower) == Normalized(a, lower) + Keep(lower(u))
  {
    NormalizedConcat(a, [u], lower);
    assert [u][1..] == [];
    assert Normalized([u], lower) == Keep(lower(u)) + Normalized([], lower);
  }

  const CAPITALS := "ABCDEFGHIJKLMNOPQRSTUVWXYZ"

  lemma CapitalListed(u: Unit)
    ensures 0x41 <= u <= 0x5A <==> Listed(u, CAPITALS)
  {
    if 0x41 <= u <= 0x5A { assert CAPITALS[u as int - 0x41] as int == u as int; }
  }

  lemma MarkListed(u: Unit)
    ensures u == 0x2E || u == 0x5F || u == 0x2B || u == 0x2D <==> Listed(u, "._+-")
  {
    var marks := "._+-";
    assert marks[0] == '.' && marks[1] == '_' && marks[2] == '+' && marks[3] == '-';
  }

  /** A scanner name or version: one to 64 letters, digits and marks, the first of them no mark. */
  lemma TokenExactly(t: Text)
    ensures Token(t) <==>
              && 1 <= |t| <= 64 && (Kept(t[0]) || Listed(t[0], CAPITALS))
              && forall i | 0 <= i < |t| :: Kept(t[i]) || Listed(t[i], CAPITALS) || Listed(t[i], "._+-")
  {
    forall u: Unit
      ensures TokenStart(u) <==> Kept(u) || Listed(u, CAPITALS)
      ensures TokenUnit(u) <==> Kept(u) || Listed(u, CAPITALS) || Listed(u, "._+-") {
      AlphanumericExactly(u);
      CapitalListed(u);
      MarkListed(u);
    }
  }
}
