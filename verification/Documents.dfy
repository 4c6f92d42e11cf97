/** What a parsed document says: its fields, its lists of strings, and the rows under each key. */
module Documents {
  import opened Findings
  import opened Artifact

  // ----- fields -----

  lemma {:induction false} LookupIs(row: Row, key: string, other: Json, n: nat, i: nat)
    requires i < n <= |row| && row[i].key == key && forall j :: i < j < n ==> row[j].key != key
    ensures Lookup(row, key, other, n) == row[i].value
  {
    if i < n - 1 {
      LookupIs(row, key, other, n - 1, i);
    }
  }

  lemma {:induction false} LookupMisses(row: Row, key: string, other: Json, n: nat)
    requires n <= |row| && forall j :: 0 <= j < n ==> row[j].key != key
    ensures Lookup(row, key, other, n) == other
  {
    if n > 0 {
      LookupMisses(row, key, other, n - 1);
    }
  }

  /** A field has the value of the last pair under its key. */
  lemma FieldIs(row: Row, key: string, i: nat)
    requires i < |row| && row[i].key == key && forall j :: i < j < |row| ==> row[j].key != key
    ensures Field(row, key) == ListField(row, key) == row[i].value
  {
    LookupIs(row, key, JNull, |row|, i);
    LookupIs(row, key, JList([]), |row|, i);
  }

  /** Without such a pair it is null, or the empty list where that is the default. */
  lemma FieldIsAbsent(row: Row, key: string)
    requires forall j :: 0 <= j < |row| ==> row[j].key != key
    ensures Field(row, key) == JNull && ListField(row, key) == JList([])
  {
    LookupMisses(row, key, JNull, |row|);
    LookupMisses(row, key, JList([]), |row|);
  }

  // ----- lists of strings -----

  predicate IsFilled(v: Json) {
    v.JStr? && v.text != ""
  }

  /** A list of non-empty strings. */
  ghost predicate AreFilled(v: Json) {
    v.JList? && forall i :: 0 <= i < |v.items| ==> IsFilled(v.items[i])
  }

  /** `x` is in the list of non-empty strings that is the field's value. */
  ghost predicate ListsText(row: Row, field: string, x: string) {
    AreFilled(Field(row, field)) && JStr(x) in Field(row, field).items
  }

  lemma TextsHold(items: seq<Json>, texts: seq<string>, x: string)
    requires |texts| == |items|
    requires forall i :: 0 <= i < |items| ==> items[i] == JStr(texts[i])
    ensures x in texts <==> JStr(x) in items
  {
    if x in texts {
      var i :| 0 <= i < |texts| && texts[i] == x;
      assert items[i] == JStr(x);
    }
    if JStr(x) in items {
      var i :| 0 <= i < |items| && items[i] == JStr(x);
      assert texts[i] == x;
    }
  }

  lemma ListsTextIff(row: Row, field: string, x: string)
    ensures ListsText(row, field, x) <==> x in Strings(row, field)
    ensures AreFilled(Field(row, field)) <==> IsTexts(Field(row, field))
  {
    if IsTexts(Field(row, field)) {
      TextsHold(Field(row, field).items, Strings(row, field), x);
    }
  }

  lemma ListsNothingIff(row: Row, field: string)
    ensures Strings(row, field) == [] <==> forall x :: !ListsText(row, field, x)
  {
    forall x ensures ListsText(row, field, x) <==> x in Strings(row, field) {
      ListsTextIff(row, field, x);
    }
    if Strings(row, field) != [] {
      assert Strings(row, field)[0] in Strings(row, field);
      assert ListsText(row, field, Strings(row, field)[0]);
    }
  }

  // ----- rows under a key -----

  /** A mapping with `key` in `field`. */
  predicate Bears(v: Json, field: string, key: string) {
    v.JMap? && key != "" && Field(v.pairs, field) == JStr(key)
  }

  /** The first of the items that bears `key`. */
  ghost predicate IsFirst(items: seq<Json>, field: string, key: string, i: nat)
    requires i < |items|
  {
    Bears(items[i], field, key) && forall j :: 0 <= j < i ==> !Bears(items[j], field, key)
  }

  ghost predicate FirstIn(items: seq<Json>, n: nat, field: string, key: string, row: Row)
    requires n <= |items|
  {
    exists i :: 0 <= i < n && IsFirst(items, field, key, i) && items[i] == JMap(row)
  }

  ghost predicate SomeIn(items: seq<Json>, n: nat, field: string, key: string)
    requires n <= |items|
  {
    exists i :: 0 <= i < n && Bears(items[i], field, key)
  }

  /** The document lists `row` under `name`, and no earlier row has its `key`. */
  ghost predicate IsEntry(root: Row, name: string, field: string, key: string, row: Row) {
    Field(root, name).JList? && FirstIn(Field(root, name).items, |Field(root, name).items|, field, key, row)
  }

  /** Some row listed under `name` has the key. */
  ghost predicate IsKey(root: Row, name: string, field: string, key: string) {
    Field(root, name).JList? && SomeIn(Field(root, name).items, |Field(root, name).items|, field, key)
  }

  lemma {:induction false} KnownIn(table: seq<Entry>, key: string, n: nat)
    requires n <= |table|
    ensures Find(table, key, n) < |table| <==> exists i :: 0 <= i < n && table[i].key == key
  {
    if n > 0 {
      KnownIn(table, key, n - 1);
    }
  }

  lemma {:induction false} IndexedOfMore(rows: seq<Row>, more: seq<Row>, field: string, n: nat)
    requires n <= |rows| <= |more| && rows == more[..|rows|]
    ensures Indexed(more, field, n) == Indexed(rows, field, n)
  {
    if n > 0 {
      IndexedOfMore(rows, more, field, n - 1);
      assert more[n - 1] == rows[n - 1];
    }
  }

  function Table(items: seq<Json>, field: string, n: nat): seq<Entry>
    requires n <= |items|
  {
    Indexed(Mappings(items, n), field, |Mappings(items, n)|)
  }

  lemma TableStep(items: seq<Json>, field: string, n: nat)
    requires 0 < n <= |items|
    ensures Table(items, field, n)
         == if items[n - 1].JMap? && IsText(Field(items[n - 1].pairs, field))
               && !Known(Table(items, field, n - 1), Field(items[n - 1].pairs, field).text)
            then Table(items, field, n - 1) + [Entry(Field(items[n - 1].pairs, field).text, items[n - 1].pairs)]
            else Table(items, field, n - 1)
  {
    if items[n - 1].JMap? {
      IndexedOfMore(Mappings(items, n - 1), Mappings(items, n), field, |Mappings(items, n - 1)|);
    }
  }

  lemma KnownWith(table: seq<Entry>, e: Entry, key: string)
    ensures Known(table + [e], key) <==> Known(table, key) || e.key == key
  {
    KnownIn(table, key, |table|);
    KnownIn(table + [e], key, |table| + 1);
    if Known(table, key) {
      var i :| 0 <= i < |table| && table[i].key == key;
      assert (table + [e])[i].key == key;
    }
    assert (table + [e])[|table|] == e;
  }

  lemma {:induction false} TableKnows(items: seq<Json>, field: string, n: nat, key: string)
    requires n <= |items|
    ensures Known(Table(items, field, n), key) <==> SomeIn(items, n, field, key)
  {
    if n > 0 {
      var before, v := Table(items, field, n - 1), items[n - 1];
      TableKnows(items, field, n - 1, key);
      TableStep(items, field, n);
      assert SomeIn(items, n, field, key) <==> SomeIn(items, n - 1, field, key) || Bears(v, field, key);
      if v.JMap? && IsText(Field(v.pairs, field)) {
        KnownWith(before, Entry(Field(v.pairs, field).text, v.pairs), key);
      }
    }
  }

  lemma {:induction false} TableHas(items: seq<Json>, field: string, n: nat, key: string, row: Row)
    requires n <= |items|
    ensures Entry(key, row) in Table(items, field, n) <==> FirstIn(items, n, field, key, row)
  {
    if n > 0 {
      TableStep(items, field, n);
      TableHas(items, field, n - 1, key, row);
      TableKnows(items, field, n - 1, key);
    }
  }

  /** The tables hold the entries of the document, and nothing else. */
  lemma EntryIff(root: Row, name: string, field: string, key: string, row: Row)
    ensures Entry(key, row) in TableOf(root, name, field) <==> IsEntry(root, name, field, key, row)
  {
    var v := Field(root, name);
    if v.JList? {
      TableHas(v.items, field, |v.items|, key, row);
    }
  }

  lemma KeyIff(root: Row, name: string, field: string, key: string)
    ensures Known(TableOf(root, name, field), key) <==> IsKey(root, name, field, key)
  {
    var v := Field(root, name);
    if v.JList? {
      TableKnows(v.items, field, |v.items|, key);
    }
  }

  // ----- places of rows -----

  /** The places of the mappings before place `p`. */
  ghost function MapsBefore(items: seq<Json>, p: nat): set<nat>
    requires p <= |items|
  {
    set j: nat | j < p && items[j].JMap?
  }

  ghost predicate MapIn(items: seq<Json>, n: nat, i: nat, row: Row)
    requires n <= |items|
  {
    exists p :: 0 <= p < n && items[p] == JMap(row) && |MapsBefore(items, p)| == i
  }

  /** `row` is the `i`th mapping listed under `name`, counted from zero. */
  ghost predicate IsMapping(root: Row, name: string, i: nat, row: Row) {
    Field(root, name).JList? && MapIn(Field(root, name).items, |Field(root, name).items|, i, row)
  }

  lemma {:induction false} MappingsCount(items: seq<Json>, n: nat)
    requires n <= |items|
    ensures |Mappings(items, n)| == |MapsBefore(items, n)|
  {
    if n == 0 {
      assert MapsBefore(items, 0) == {};
    } else {
      MappingsCount(items, n - 1);
      var before := MapsBefore(items, n - 1);
      assert MapsBefore(items, n) == if items[n - 1].JMap? then before + {n - 1} else before;
    }
  }

  lemma {:induction false} MappingsHold(items: seq<Json>, n: nat, i: nat, row: Row)
    requires n <= |items|
    ensures i < |Mappings(items, n)| && Mappings(items, n)[i] == row <==> MapIn(items, n, i, row)
  {
    if n > 0 {
      MappingsHold(items, n - 1, i, row);
      MappingsCount(items, n - 1);
    }
  }

  lemma MappingIff(root: Row, name: string, i: nat, row: Row)
    ensures i < |RowsOf(root, name)| && RowsOf(root, name)[i] == row <==> IsMapping(root, name, i, row)
  {
    var v := Field(root, name);
    if v.JList? {
      MappingsHold(v.items, |v.items|, i, row);
    }
  }

  // ----- repeated keys -----

  ghost predicate TwiceIn(items: seq<Json>, n: nat, field: string, key: string)
    requires n <= |items|
  {
    exists i, j :: 0 <= i < j < n && Bears(items[i], field, key) && Bears(items[j], field, key)
  }

  ghost predicate RepeatsIn(rows: seq<Row>, n: nat, field: string, key: string)
    requires n <= |rows|
  {
    exists i :: 0 <= i < n && Repeats(rows, field, i, key)
  }

  lemma RepeatsOfMore(rows: seq<Row>, more: seq<Row>, field: string, key: string)
    requires |rows| <= |more| && rows == more[..|rows|]
    ensures RepeatsIn(more, |rows|, field, key) <==> RepeatsIn(rows, |rows|, field, key)
  {
    forall i: nat | i < |rows| ensures Repeats(more, field, i, key) <==> Repeats(rows, field, i, key) {
      IndexedOfMore(rows, more, field, i);
      assert more[i] == rows[i];
    }
  }

  lemma {:induction false} RepeatsAreTwice(items: seq<Json>, n: nat, field: string, key: string)
    requires n <= |items|
    ensures RepeatsIn(Mappings(items, n), |Mappings(items, n)|, field, key) <==> TwiceIn(items, n, field, key)
  {
    if n > 0 {
      RepeatsAreTwice(items, n - 1, field, key);
      TwiceStep(items, n, field, key);
      if items[n - 1].JMap? {
        var rows, more := Mappings(items, n - 1), Mappings(items, n);
        RepeatsOfMore(rows, more, field, key);
        IndexedOfMore(rows, more, field, |rows|);
        TableKnows(items, field, n - 1, key);
        RepeatsStep(rows, more, field, key, Bears(items[n - 1], field, key) && SomeIn(items, n - 1, field, key));
      }
    }
  }

  lemma TwiceStep(items: seq<Json>, n: nat, field: string, key: string)
    requires 0 < n <= |items|
    ensures TwiceIn(items, n, field, key)
       <==> TwiceIn(items, n - 1, field, key) || (Bears(items[n - 1], field, key) && SomeIn(items, n - 1, field, key))
  {
  }

  lemma RepeatsStep(rows: seq<Row>, more: seq<Row>, field: string, key: string, last: bool)
    requires |more| == |rows| + 1 && (Repeats(more, field, |rows|, key) <==> last)
    ensures RepeatsIn(more, |more|, field, key) <==> RepeatsIn(more, |rows|, field, key) || last
  {
  }

  /** A key is repeated exactly when two listed mappings bear it. */
  lemma RepeatedIff(root: Row, name: string, field: string, key: string)
    ensures RepeatsIn(RowsOf(root, name), |RowsOf(root, name)|, field, key)
       <==> Field(root, name).JList? && TwiceIn(Field(root, name).items, |Field(root, name).items|, field, key)
  {
    var v := Field(root, name);
    if v.JList? {
      RepeatsAreTwice(v.items, |v.items|, field, key);
    }
  }
}
