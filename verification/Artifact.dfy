/** Reading the parsed artifact: fields, string lists and tables of rows by identifier. */
module Artifact {
  import opened Basics
  import opened Findings

  type Row = seq<Pair>

  /** `row.get(key)` on the first `n` pairs; a later pair for the same key wins. */
  function Lookup(row: Row, key: string, other: Json, n: nat): Json
    requires n <= |row|
  {
    if n == 0 then other else if row[n - 1].key == key then row[n - 1].value else Lookup(row, key, other, n - 1)
  }

  function Field(row: Row, key: string): Json {
    Lookup(row, key, JNull, |row|)
  }

  /** `row.get(key, [])` */
  function ListField(row: Row, key: string): Json {
    Lookup(row, key, JList([]), |row|)
  }

  function Truthy(v: Json): bool {
    match v
    case JNull => false
    case JBool(b) => b
    case JNum(x) => x != 0.0
    case JStr(s) => s != ""
    case JList(s) => s != []
    case JMap(s) => s != []
  }

  predicate IsText(v: Json) {
    v.JStr? && v.text != ""
  }

  predicate IsTexts(v: Json) {
    v.JList? && forall i :: 0 <= i < |v.items| ==> IsText(v.items[i])
  }

  /** What a set or a dictionary accepts as an element or a key. */
  predicate Hashable(v: Json) {
    !v.JList? && !v.JMap?
  }

  /** What `in` and `for` accept. */
  predicate Container(v: Json) {
    v.JList? || v.JStr? || v.JMap?
  }

  predicate HasKey(row: Row, key: string, n: nat)
    requires n <= |row|
  {
    n > 0 && (row[n - 1].key == key || HasKey(row, key, n - 1))
  }

  /** `s in v`: an element of a list, a part of a string, a key of a mapping. */
  predicate HoldsText(v: Json, s: string)
    requires Container(v)
  {
    match v
    case JList(items) => JStr(s) in items
    case JStr(text) => Contains(text, s)
    case JMap(pairs) => HasKey(pairs, s, |pairs|)
    case _ => assert false; false
  }

  function Characters(s: string, n: nat): (r: seq<Json>)
    requires n <= |s|
    ensures |r| == n
  {
    if n == 0 then [] else Characters(s, n - 1) + [JStr([s[n - 1]])]
  }

  function Keys(row: Row, n: nat): (r: seq<Json>)
    requires n <= |row|
    ensures |r| == n
  {
    if n == 0 then [] else Keys(row, n - 1) + [JStr(row[n - 1].key)]
  }

  /** What `for` runs over. */
  function Iterated(v: Json): seq<Json>
    requires Container(v)
  {
    match v
    case JList(items) => items
    case JStr(text) => Characters(text, |text|)
    case JMap(pairs) => Keys(pairs, |pairs|)
    case _ => assert false; []
  }

  function Texts(items: seq<Json>, n: nat): (r: seq<string>)
    requires n <= |items| && forall i :: 0 <= i < |items| ==> IsText(items[i])
    ensures |r| == n
    ensures forall i :: 0 <= i < n ==> IsText(items[i]) && r[i] == items[i].text
  {
    if n == 0 then [] else Texts(items, n - 1) + [items[n - 1].text]
  }

  /** The non-empty strings a field lists, or nothing when it is anything else. */
  function Strings(row: Row, field: string): seq<string> {
    var v := Field(row, field);
    if IsTexts(v) then Texts(v.items, |v.items|) else []
  }

  method StringList(row: Row, field: string, kind: string, id: string, findings: Findings) returns (r: seq<string>)
    requires findings.Valid()
    modifies findings
    ensures findings.Valid() && r == Strings(row, field)
    ensures findings.all == old(findings.all) + if IsTexts(Field(row, field)) then {} else {NotStrings(kind, id, field)}
  {
    var value := Field(row, field);
    if !IsTexts(value) {
      findings.Add(NotStrings(kind, id, field));
      return [];
    }
    return Texts(value.items, |value.items|);
  }

  predicate InFirst(xs: seq<string>, n: nat, x: string)
    requires n <= |xs|
  {
    n > 0 && (xs[n - 1] == x || InFirst(xs, n - 1, x))
  }

  lemma {:induction false} InFirstIs(xs: seq<string>, n: nat, x: string)
    requires n <= |xs|
    ensures InFirst(xs, n, x) <==> x in xs[..n]
  {
    if n > 0 {
      InFirstIs(xs, n - 1, x);
      assert xs[..n] == xs[..n - 1] + [xs[n - 1]];
    }
  }

  lemma InFirstAll(xs: seq<string>)
    ensures forall x :: InFirst(xs, |xs|, x) <==> x in xs
  {
    forall x ensures InFirst(xs, |xs|, x) <==> x in xs {
      InFirstIs(xs, |xs|, x);
      assert xs[..|xs|] == xs;
    }
  }

  // ----- tables -----

  datatype Entry = Entry(key: string, row: Row)

  /** The last place of a key among the first `n` entries, or the length of the table. */
  function Find(table: seq<Entry>, key: string, n: nat): (p: nat)
    requires n <= |table|
    ensures p == |table| || (p < n && table[p].key == key)
  {
    if n == 0 then |table| else if table[n - 1].key == key then n - 1 else Find(table, key, n - 1)
  }

  predicate Known(table: seq<Entry>, key: string) {
    Find(table, key, |table|) < |table|
  }

  function RowAt(table: seq<Entry>, key: string): Row
    requires Known(table, key)
  {
    table[Find(table, key, |table|)].row
  }

  function Mappings(items: seq<Json>, n: nat): (rows: seq<Row>)
    requires n <= |items|
  {
    if n == 0 then []
    else if items[n - 1].JMap? then Mappings(items, n - 1) + [items[n - 1].pairs]
    else Mappings(items, n - 1)
  }

  function RowsOf(root: Row, name: string): seq<Row> {
    var v := Field(root, name);
    if v.JList? then Mappings(v.items, |v.items|) else []
  }

  /** The first row of each non-empty string key. */
  function Indexed(rows: seq<Row>, field: string, n: nat): (table: seq<Entry>)
    requires n <= |rows|
  {
    if n == 0 then []
    else
      var before, v := Indexed(rows, field, n - 1), Field(rows[n - 1], field);
      if IsText(v) && !Known(before, v.text) then before + [Entry(v.text, rows[n - 1])] else before
  }

  function TableOf(root: Row, name: string, field: string): seq<Entry> {
    Indexed(RowsOf(root, name), field, |RowsOf(root, name)|)
  }

  ghost predicate RowsDefect(root: Row, name: string, m: Message) {
    var v := Field(root, name);
    match m
    case NotAList(other) => other == name && !v.JList?
    case NotAMapping(other, i) => other == name && v.JList? && i < |v.items| && !v.items[i].JMap?
    case _ => false
  }

  ghost predicate IndexDefect(rows: seq<Row>, name: string, field: string, n: nat, m: Message)
    requires n <= |rows|
  {
    match m
    case BadKey(other, i) => other == name && i < n && !IsText(Field(rows[i], field))
    case DuplicateKey(other, id) =>
      other == name && exists i :: 0 <= i < n && Repeats(rows, field, i, id)
    case _ => false
  }

  /** Row `i` has a key that an earlier row has. */
  ghost predicate Repeats(rows: seq<Row>, field: string, i: nat, id: string)
    requires i < |rows|
  {
    IsText(Field(rows[i], field)) && Field(rows[i], field).text == id && Known(Indexed(rows, field, i), id)
  }

  method MappingRows(root: Row, name: string, findings: Findings) returns (rows: seq<Row>)
    requires findings.Valid()
    modifies findings
    ensures findings.Valid() && rows == RowsOf(root, name)
    ensures forall m :: m in findings.all <==> m in old(findings.all) || RowsDefect(root, name, m)
  {
    var value := Field(root, name);
    if !value.JList? {
      findings.Add(NotAList(name));
      return [];
    }
    rows := [];
    for i := 0 to |value.items|
      invariant findings.Valid() && rows == Mappings(value.items, i)
      invariant forall m :: m in findings.all <==>
        (m in old(findings.all) || (m.NotAMapping? && m.name == name && m.index < i && !value.items[m.index].JMap?))
    {
      if value.items[i].JMap? {
        rows := rows + [value.items[i].pairs];
      } else {
        findings.Add(NotAMapping(name, i));
      }
    }
  }

  method Index(rows: seq<Row>, field: string, name: string, findings: Findings) returns (table: seq<Entry>)
    requires findings.Valid()
    modifies findings
    ensures findings.Valid() && table == Indexed(rows, field, |rows|)
    ensures forall m :: m in findings.all <==> m in old(findings.all) || IndexDefect(rows, name, field, |rows|, m)
  {
    table := [];
    for i := 0 to |rows|
      invariant findings.Valid() && table == Indexed(rows, field, i)
      invariant forall m :: m in findings.all <==> m in old(findings.all) || IndexDefect(rows, name, field, i, m)
    {
      var value := Field(rows[i], field);
      assert IsText(value) && Known(table, value.text) ==> Repeats(rows, field, i, value.text);
      if !IsText(value) {
        findings.Add(BadKey(name, i));
      } else if Known(table, value.text) {
        findings.Add(DuplicateKey(name, value.text));
      } else {
        table := table + [Entry(value.text, rows[i])];
      }
    }
  }
}
