/** Folding audit rows into the review ledger. */
module Ledger {
  import opened Basics
  import opened Ordering

  /** The columns beside `gap_id`. */
  datatype Column =
    | RunId | AuditDate | Repo | SpecPath | SpecTopic | GapType | Severity | Title | SpecAnchor | Evidence
    | SuspectedIssues | RemediationIssue | RemediationPr | Status | Notes

  /** A cell is a text, or nothing where the CSV reader filled up a short row. */
  datatype Value = Null | Text(text: string)

  /** What is written for a cell. */
  function Shown(v: Value): string {
    if v.Null? then "" else v.text
  }

  /** The cells a row has; a file or a batch may leave columns out. */
  type Cells = map<Column, Value>

  datatype Entry = Entry(gapId: string, cells: Cells)

  function Cell(c: Cells, k: Column): Value {
    if k in c then c[k] else Text("")
  }

  function Complete(c: Cells): (r: Cells)
    ensures forall k :: k in r && r[k] == Cell(c, k)
  {
    map k: Column | true :: Cell(c, k)
  }

  /** The row as written, and as the CSV reader reads it back. */
  function Rendered(c: Cells): (r: Cells)
    ensures forall k :: k in r && r[k] == Text(Shown(Cell(c, k)))
  {
    map k: Column | true :: Text(Shown(Cell(c, k)))
  }

  predicate IsPreservedStatus(s: string) {
    s == "wontfix" || s == "false_positive"
  }

  /** A manual edit: a preserved status, or notes. */
  predicate Preserved(c: Cells) {
    IsPreservedStatus(Shown(Cell(c, Status))) || Shown(Cell(c, Notes)) != ""
  }

  function Merged(prior: Cells, update: Cells): Cells {
    var merged := Complete(update);
    if Preserved(prior)
    then merged[Status := if Status in prior then prior[Status] else merged[Status]]
               [Notes := if Notes in prior then prior[Notes] else merged[Notes]]
    else merged
  }

  /** A dictionary by `gap_id`, in insertion order. */
  datatype Book = Book(keys: seq<string>, rows: map<string, Cells>)

  ghost predicate IsBook(b: Book) {
    Distinct(b.keys) && forall g :: g in b.keys <==> g in b.rows
  }

  function Store(b: Book, g: string, cells: Cells): Book {
    Book(if g in b.rows then b.keys else b.keys + [g], b.rows[g := cells])
  }

  function LoadTo(file: seq<Entry>, n: nat): Book
    requires n <= |file|
  {
    if n == 0 then Book([], map[]) else Store(LoadTo(file, n - 1), file[n - 1].gapId, file[n - 1].cells)
  }

  function Load(file: seq<Entry>): Book {
    LoadTo(file, |file|)
  }

  function MergeOne(b: Book, e: Entry): Book {
    Store(b, e.gapId, if e.gapId in b.rows then Merged(b.rows[e.gapId], e.cells) else Complete(e.cells))
  }

  function MergeTo(b: Book, batch: seq<Entry>, n: nat): Book
    requires n <= |batch|
  {
    if n == 0 then b else MergeOne(MergeTo(b, batch, n - 1), batch[n - 1])
  }

  function Written(keys: seq<string>, rows: map<string, Cells>, n: nat): (file: seq<Entry>)
    requires n <= |keys| && forall i :: 0 <= i < |keys| ==> keys[i] in rows
    ensures |file| == n
    ensures forall i :: 0 <= i < n ==> file[i] == Entry(keys[i], Rendered(rows[keys[i]]))
  {
    if n == 0 then [] else Written(keys, rows, n - 1) + [Entry(keys[n - 1], Rendered(rows[keys[n - 1]]))]
  }

  lemma StoreIsBook(b: Book, g: string, cells: Cells)
    requires IsBook(b)
    ensures IsBook(Store(b, g, cells))
  {
  }

  lemma {:induction false} LoadIsBook(file: seq<Entry>, n: nat)
    requires n <= |file|
    ensures IsBook(LoadTo(file, n))
  {
    if n > 0 {
      LoadIsBook(file, n - 1);
      StoreIsBook(LoadTo(file, n - 1), file[n - 1].gapId, file[n - 1].cells);
    }
  }

  lemma {:induction false} MergeIsBook(b: Book, batch: seq<Entry>, n: nat)
    requires IsBook(b) && n <= |batch|
    ensures IsBook(MergeTo(b, batch, n))
  {
    if n > 0 {
      MergeIsBook(b, batch, n - 1);
      var before, e := MergeTo(b, batch, n - 1), batch[n - 1];
      StoreIsBook(before, e.gapId,
                  if e.gapId in before.rows then Merged(before.rows[e.gapId], e.cells) else Complete(e.cells));
    }
  }

  ghost predicate IsFile(b: Book, file: seq<Entry>) {
    && |file| == |b.keys|
    && forall i :: 0 <= i < |file| ==>
         b.keys[i] in b.rows && file[i] == Entry(b.keys[i], Rendered(b.rows[b.keys[i]]))
  }

  /** `merge_into_ledger`; `ledger` is the file before, empty when there is none. */
  method MergeIntoLedger(ledger: seq<Entry>, batch: seq<Entry>) returns (file: seq<Entry>)
    ensures IsFile(MergeTo(Load(ledger), batch, |batch|), file)
  {
    var existing := Book([], map[]);
    for i := 0 to |ledger|
      invariant existing == LoadTo(ledger, i)
    {
      existing := Store(existing, ledger[i].gapId, ledger[i].cells);
    }
    for i := 0 to |batch|
      invariant existing == MergeTo(Load(ledger), batch, i)
    {
      var gid := batch[i].gapId;
      if gid !in existing.rows {
        existing := Store(existing, gid, Complete(batch[i].cells));
      } else {
        existing := Store(existing, gid, Merged(existing.rows[gid], batch[i].cells));
      }
    }
    LoadIsBook(ledger, |ledger|);
    MergeIsBook(Load(ledger), batch, |batch|);
    file := Written(existing.keys, existing.rows, |existing.keys|);
  }

  // ----- one gap at a time -----

  function At(b: Book, g: string): Option<Cells> {
    if g in b.rows then Some(b.rows[g]) else None
  }

  /** What the rows for `g` among the first `n` make of `prior`. */
  function Fold(prior: Option<Cells>, batch: seq<Entry>, n: nat, g: string): Option<Cells>
    requires n <= |batch|
  {
    if n == 0 then prior
    else
      var before, e := Fold(prior, batch, n - 1, g), batch[n - 1];
      if e.gapId != g then before
      else Some(if before.Some? then Merged(before.value, e.cells) else Complete(e.cells))
  }

  lemma {:induction false} MergeFolds(b: Book, batch: seq<Entry>, n: nat, g: string)
    requires n <= |batch|
    ensures At(MergeTo(b, batch, n), g) == Fold(At(b, g), batch, n, g)
  {
    if n > 0 {
      MergeFolds(b, batch, n - 1, g);
    }
  }

  /** The last of the first `n` rows for `g`, or the length of the batch. */
  function LastOf(batch: seq<Entry>, n: nat, g: string): (k: nat)
    requires n <= |batch|
    ensures k == |batch| || (k < n && batch[k].gapId == g)
  {
    if n == 0 then |batch| else if batch[n - 1].gapId == g then n - 1 else LastOf(batch, n - 1, g)
  }

  /** The first of the first `n` rows for `g` that carries a manual edit, or the length. */
  function FirstEdit(batch: seq<Entry>, n: nat, g: string): (k: nat)
    requires n <= |batch|
    ensures k == |batch| || (k < n && batch[k].gapId == g && Preserved(batch[k].cells))
  {
    if n == 0 then |batch|
    else if FirstEdit(batch, n - 1, g) < |batch| then FirstEdit(batch, n - 1, g)
    else if batch[n - 1].gapId == g && Preserved(batch[n - 1].cells) then n - 1
    else |batch|
  }

  /** The first of the first `n` rows for `g`, or the length of the batch. */
  function FirstOf(batch: seq<Entry>, n: nat, g: string): (k: nat)
    requires n <= |batch|
    ensures k == |batch| || (k < n && batch[k].gapId == g)
    ensures k == |batch| <==> LastOf(batch, n, g) == |batch|
  {
    if n == 0 then |batch|
    else if FirstOf(batch, n - 1, g) < |batch| then FirstOf(batch, n - 1, g)
    else if batch[n - 1].gapId == g then n - 1 else |batch|
  }

  /** The columns of `c`, those it lacks from `other`. */
  function WithDefaults(c: Cells, other: Cells): (r: Cells)
    ensures forall k :: k in r && r[k] == if k in c then c[k] else Cell(other, k)
  {
    map k: Column | true :: if k in c then c[k] else Cell(other, k)
  }

  /** The row whose status and notes stay: the first manual edit among the ledger's row, with the
      columns it lacks from the batch's first row, and the batch's rows, or else the last row. */
  function Keeper(prior: Option<Cells>, batch: seq<Entry>, n: nat, g: string): Cells
    requires n <= |batch| && LastOf(batch, n, g) < |batch|
  {
    if prior.Some? && Preserved(prior.value) then WithDefaults(prior.value, batch[FirstOf(batch, n, g)].cells)
    else if FirstEdit(batch, n, g) < |batch| then batch[FirstEdit(batch, n, g)].cells
    else batch[LastOf(batch, n, g)].cells
  }

  /** The columns of the last row, but the keeper's status and notes. */
  ghost predicate IsMerge(cells: Cells, last: Cells, keeper: Cells) {
    forall k: Column :: k in cells && cells[k] == Cell(if k == Status || k == Notes then keeper else last, k)
  }

  /** The same of what is written. */
  ghost predicate IsWrittenMerge(cells: Cells, last: Cells, keeper: Cells) {
    forall k: Column :: k in cells && cells[k] == Text(Shown(Cell(if k == Status || k == Notes then keeper else last, k)))
  }

  lemma CompletePreserved(c: Cells)
    ensures Preserved(Complete(c)) <==> Preserved(c)
    ensures Preserved(Rendered(c)) <==> Preserved(c)
  {
  }

  lemma StaysPreserved(prior: Cells, update: Cells)
    ensures Preserved(Merged(prior, update)) <==> Preserved(prior) || Preserved(update)
  {
    CompletePreserved(update);
  }

  lemma {:induction false} FoldPreserved(prior: Option<Cells>, batch: seq<Entry>, n: nat, g: string)
    requires n <= |batch| && LastOf(batch, n, g) < |batch|
    ensures var r := Fold(prior, batch, n, g);
            r.Some? && (Preserved(r.value) <==> (prior.Some? && Preserved(prior.value)) || FirstEdit(batch, n, g) < |batch|)
  {
    var e := batch[n - 1];
    if e.gapId != g {
      FoldPreserved(prior, batch, n - 1, g);
    } else {
      CompletePreserved(e.cells);
      if LastOf(batch, n - 1, g) < |batch| {
        FoldPreserved(prior, batch, n - 1, g);
        StaysPreserved(Fold(prior, batch, n - 1, g).value, e.cells);
      } else {
        NoRows(prior, batch, n - 1, g);
        if prior.Some? {
          StaysPreserved(prior.value, e.cells);
        }
      }
    }
  }

  lemma {:induction false} NoRows(prior: Option<Cells>, batch: seq<Entry>, n: nat, g: string)
    requires n <= |batch| && LastOf(batch, n, g) == |batch|
    ensures Fold(prior, batch, n, g) == prior && FirstEdit(batch, n, g) == |batch|
  {
    if n > 0 {
      NoRows(prior, batch, n - 1, g);
    }
  }

  lemma MergeStep(prior: Cells, last: Cells, keeper: Cells, update: Cells)
    requires IsMerge(prior, last, keeper)
    ensures IsMerge(Merged(prior, update), update, if Preserved(prior) then keeper else update)
  {
  }

  lemma FirstMerge(prior: Cells, update: Cells)
    ensures IsMerge(Merged(prior, update), update, if Preserved(prior) then WithDefaults(prior, update) else update)
  {
  }

  /** The closed form of a merge, gap by gap. */
  lemma {:induction false} FoldIsMerge(prior: Option<Cells>, batch: seq<Entry>, n: nat, g: string)
    requires n <= |batch| && LastOf(batch, n, g) < |batch|
    ensures Fold(prior, batch, n, g).Some?
    ensures IsMerge(Fold(prior, batch, n, g).value, batch[LastOf(batch, n, g)].cells, Keeper(prior, batch, n, g))
  {
    var e := batch[n - 1];
    if e.gapId != g {
      FoldIsMerge(prior, batch, n - 1, g);
    } else if LastOf(batch, n - 1, g) < |batch| {
      FoldIsMerge(prior, batch, n - 1, g);
      FoldPreserved(prior, batch, n - 1, g);
      MergeStep(Fold(prior, batch, n - 1, g).value, batch[LastOf(batch, n - 1, g)].cells,
                Keeper(prior, batch, n - 1, g), e.cells);
      KeeperStays(prior, batch, n, g, Fold(prior, batch, n - 1, g).value);
    } else {
      NoRows(prior, batch, n - 1, g);
      FirstKeeper(prior, batch, n, g);
      if prior.Some? {
        FirstMerge(prior.value, e.cells);
      }
    }
  }

  lemma KeeperStays(prior: Option<Cells>, batch: seq<Entry>, n: nat, g: string, r: Cells)
    requires 0 < n <= |batch| && batch[n - 1].gapId == g && LastOf(batch, n - 1, g) < |batch|
    requires Preserved(r) <==> (prior.Some? && Preserved(prior.value)) || FirstEdit(batch, n - 1, g) < |batch|
    ensures Keeper(prior, batch, n, g) == if Preserved(r) then Keeper(prior, batch, n - 1, g) else batch[n - 1].cells
  {
  }

  lemma FirstKeeper(prior: Option<Cells>, batch: seq<Entry>, n: nat, g: string)
    requires 0 < n <= |batch| && batch[n - 1].gapId == g
    requires LastOf(batch, n - 1, g) == |batch| && FirstEdit(batch, n - 1, g) == |batch|
    ensures LastOf(batch, n, g) == n - 1
    ensures Keeper(prior, batch, n, g)
         == if prior.Some? && Preserved(prior.value) then WithDefaults(prior.value, batch[n - 1].cells) else batch[n - 1].cells
  {
  }

  // ----- the file -----

  lemma {:induction false} LoadKeys(file: seq<Entry>, n: nat, g: string)
    requires n <= |file|
    ensures g in LoadTo(file, n).rows <==> LastOf(file, n, g) < |file|
    ensures LastOf(file, n, g) < |file| ==> At(LoadTo(file, n), g) == Some(file[LastOf(file, n, g)].cells)
  {
    if n > 0 {
      LoadKeys(file, n - 1, g);
    }
  }

  lemma {:induction false} MergeKeys(b: Book, batch: seq<Entry>, n: nat, g: string)
    requires n <= |batch|
    ensures g in MergeTo(b, batch, n).rows <==> g in b.rows || LastOf(batch, n, g) < |batch|
  {
    if n > 0 {
      MergeKeys(b, batch, n - 1, g);
    }
  }

  /** `file` is what merging `batch` into `ledger` writes. */
  ghost predicate IsMerged(ledger: seq<Entry>, batch: seq<Entry>, file: seq<Entry>) {
    IsFile(MergeTo(Load(ledger), batch, |batch|), file)
  }

  lemma FileIsBook(b: Book, file: seq<Entry>, i: nat)
    requires IsBook(b) && IsFile(b, file) && i < |file|
    ensures LastOf(file, |file|, file[i].gapId) == i
  {
    OnlyPlace(b, file, |file|, i);
  }

  lemma {:induction false} OnlyPlace(b: Book, file: seq<Entry>, n: nat, i: nat)
    requires IsBook(b) && IsFile(b, file) && i < n <= |file|
    ensures LastOf(file, n, file[i].gapId) == i
  {
    if i < n - 1 {
      assert b.keys[i] != b.keys[n - 1];
      OnlyPlace(b, file, n - 1, i);
    }
  }

  /** Every gap of the ledger and of the batch has one row in the file, and nothing else has. */
  lemma NoGapIsLost(ledger: seq<Entry>, batch: seq<Entry>, file: seq<Entry>, g: string)
    requires IsMerged(ledger, batch, file)
    ensures forall i, j :: 0 <= i < j < |file| ==> file[i].gapId != file[j].gapId
    ensures (exists i :: 0 <= i < |file| && file[i].gapId == g)
       <==> (exists e :: e in ledger && e.gapId == g) || (exists e :: e in batch && e.gapId == g)
  {
    var b := MergeTo(Load(ledger), batch, |batch|);
    LoadIsBook(ledger, |ledger|);
    MergeIsBook(Load(ledger), batch, |batch|);
    MergeKeys(Load(ledger), batch, |batch|, g);
    LoadKeys(ledger, |ledger|, g);
    LastExists(ledger, g);
    LastExists(batch, g);
    InFile(b, file, g);
  }

  lemma InFile(b: Book, file: seq<Entry>, g: string)
    requires IsBook(b) && IsFile(b, file)
    ensures (exists i :: 0 <= i < |file| && file[i].gapId == g) <==> g in b.rows
  {
    if g in b.rows {
      assert g in b.keys;
      var i :| 0 <= i < |b.keys| && b.keys[i] == g;
      assert file[i].gapId == g;
    }
  }

  lemma {:induction false} LastFinds(batch: seq<Entry>, n: nat, g: string, i: nat)
    requires i < n <= |batch| && batch[i].gapId == g
    ensures LastOf(batch, n, g) < |batch|
  {
    if i < n - 1 {
      LastFinds(batch, n - 1, g, i);
    }
  }

  lemma LastExists(batch: seq<Entry>, g: string)
    ensures LastOf(batch, |batch|, g) < |batch| <==> exists e :: e in batch && e.gapId == g
  {
    if e :| e in batch && e.gapId == g {
      var i :| 0 <= i < |batch| && batch[i] == e;
      LastFinds(batch, |batch|, g, i);
    }
    if LastOf(batch, |batch|, g) < |batch| {
      assert batch[LastOf(batch, |batch|, g)] in batch;
    }
  }

  /** Row `i` of the file: untouched when the batch has nothing for it, else the last such
      row of the batch with the keeper's status and notes. */
  lemma FileIsMerge(ledger: seq<Entry>, batch: seq<Entry>, file: seq<Entry>, i: nat)
    requires IsMerged(ledger, batch, file) && i < |file|
    ensures var g, n := file[i].gapId, |batch|;
            var prior := At(Load(ledger), g);
            if LastOf(batch, n, g) == n then prior.Some? && file[i].cells == Rendered(prior.value)
            else IsWrittenMerge(file[i].cells, batch[LastOf(batch, n, g)].cells, Keeper(prior, batch, n, g))
  {
    var g, n := file[i].gapId, |batch|;
    var prior := At(Load(ledger), g);
    LoadKeys(ledger, |ledger|, g);
    MergeFolds(Load(ledger), batch, n, g);
    if LastOf(batch, n, g) == n {
      NoRows(prior, batch, n, g);
    } else {
      FoldIsMerge(prior, batch, n, g);
    }
  }

  // ----- merging again -----

  lemma NextKey(keys: seq<string>, n: nat)
    requires Distinct(keys) && 0 < n <= |keys|
    ensures keys[n - 1] !in keys[..n - 1] && keys[..n] == keys[..n - 1] + [keys[n - 1]]
  {
  }

  lemma {:induction false} LoadBack(b: Book, file: seq<Entry>, n: nat)
    requires IsBook(b) && IsFile(b, file) && n <= |file|
    ensures LoadTo(file, n).keys == b.keys[..n]
  {
    if n > 0 {
      LoadBack(b, file, n - 1);
      LoadIsBook(file, n - 1);
      NextKey(b.keys, n);
    }
  }

  lemma LoadedRow(b: Book, file: seq<Entry>, g: string)
    requires IsBook(b) && IsFile(b, file)
    ensures At(Load(file), g) == if g in b.rows then Some(Rendered(b.rows[g])) else None
  {
    LoadKeys(file, |file|, g);
    InFile(b, file, g);
    if g in b.rows {
      var i :| 0 <= i < |file| && file[i].gapId == g;
      FileIsBook(b, file, i);
    }
  }

  ghost predicate ShowsLast(r: Cells, last: Cells) {
    && (forall k: Column :: k in r && (k != Status && k != Notes ==> r[k] == Cell(last, k)))
    && (!Preserved(r) ==> r == Complete(last))
  }

  lemma {:induction false} FoldShowsLast(prior: Option<Cells>, batch: seq<Entry>, n: nat, g: string)
    requires n <= |batch| && LastOf(batch, n, g) < |batch|
    ensures Fold(prior, batch, n, g).Some?
    ensures ShowsLast(Fold(prior, batch, n, g).value, batch[LastOf(batch, n, g)].cells)
  {
    var e := batch[n - 1];
    if e.gapId != g {
      FoldShowsLast(prior, batch, n - 1, g);
    } else {
      var before := Fold(prior, batch, n - 1, g);
      if before.Some? {
        StaysPreserved(before.value, e.cells);
      }
    }
  }

  lemma Refold(prior: Option<Cells>, batch: seq<Entry>, g: string, r: Cells)
    requires LastOf(batch, |batch|, g) < |batch| && Fold(prior, batch, |batch|, g) == Some(r)
    ensures var again := Fold(Some(Rendered(r)), batch, |batch|, g);
            again.Some? && Rendered(again.value) == Rendered(r)
  {
    var n := |batch|;
    var last, read := batch[LastOf(batch, n, g)].cells, Rendered(r);
    FoldShowsLast(prior, batch, n, g);
    FoldPreserved(prior, batch, n, g);
    CompletePreserved(r);
    FoldIsMerge(Some(read), batch, n, g);
    ReadKeeper(read, batch, n, g, Preserved(r));
    SameMerge(Fold(Some(read), batch, n, g).value, last, r);
  }

  /** A row that was written keeps its own status and notes, if they are an edit. */
  lemma ReadKeeper(read: Cells, batch: seq<Entry>, n: nat, g: string, edited: bool)
    requires n <= |batch| && LastOf(batch, n, g) < |batch| && (forall k: Column :: k in read)
    requires (Preserved(read) <==> edited) && (!edited ==> FirstEdit(batch, n, g) == |batch|)
    ensures Keeper(Some(read), batch, n, g) == if edited then read else batch[LastOf(batch, n, g)].cells
  {
    var first := batch[FirstOf(batch, n, g)].cells;
    assert edited ==> WithDefaults(read, first) == read;
  }

  lemma SameMerge(again: Cells, last: Cells, r: Cells)
    requires IsMerge(again, last, if Preserved(r) then Rendered(r) else last) && ShowsLast(r, last)
    ensures Rendered(again) == Rendered(r)
  {
    assert forall k: Column :: k in again && k in r && Shown(again[k]) == Shown(r[k]);
  }

  lemma StoreKnown(b: Book, g: string, cells: Cells)
    requires g in b.rows
    ensures Store(b, g, cells).keys == b.keys && Store(b, g, cells).rows.Keys == b.rows.Keys
  {
  }

  lemma {:induction false} MergeOfKnown(b: Book, batch: seq<Entry>, n: nat)
    requires n <= |batch| && forall i :: 0 <= i < |batch| ==> batch[i].gapId in b.rows
    ensures MergeTo(b, batch, n).keys == b.keys && MergeTo(b, batch, n).rows.Keys == b.rows.Keys
  {
    if n > 0 {
      MergeOfKnown(b, batch, n - 1);
      assert batch[n - 1].gapId in MergeTo(b, batch, n - 1).rows.Keys;
      StoreKnown(MergeTo(b, batch, n - 1), batch[n - 1].gapId, MergeTo(b, batch, n).rows[batch[n - 1].gapId]);
    }
  }

  /** What is written of a gap is the same again. */
  lemma RowAgain(prior: Option<Cells>, batch: seq<Entry>, g: string, r: Cells)
    requires Fold(prior, batch, |batch|, g) == Some(r)
    ensures var again := Fold(Some(Rendered(r)), batch, |batch|, g);
            again.Some? && Rendered(again.value) == Rendered(r)
  {
    if LastOf(batch, |batch|, g) == |batch| {
      NoRows(Some(Rendered(r)), batch, |batch|, g);
      RenderTwice(r);
    } else {
      Refold(prior, batch, g, r);
    }
  }

  lemma RenderTwice(c: Cells)
    ensures Rendered(Rendered(c)) == Rendered(c)
  {
  }

  /** A gap of the book is written the same again. */
  lemma WrittenAgain(ledger: seq<Entry>, batch: seq<Entry>, file: seq<Entry>, b: Book, g: string)
    requires IsMerged(ledger, batch, file) && b == MergeTo(Load(ledger), batch, |batch|) && IsBook(b) && g in b.rows
    ensures var again := At(MergeTo(Load(file), batch, |batch|), g);
            again.Some? && Rendered(again.value) == Rendered(b.rows[g])
  {
    LoadedRow(b, file, g);
    MergeFolds(Load(ledger), batch, |batch|, g);
    MergeFolds(Load(file), batch, |batch|, g);
    RowAgain(At(Load(ledger), g), batch, g, b.rows[g]);
  }

  /** Merging the same batch again changes nothing. */
  lemma MergeIsIdempotent(ledger: seq<Entry>, batch: seq<Entry>, file: seq<Entry>, again: seq<Entry>)
    requires IsMerged(ledger, batch, file) && IsMerged(file, batch, again)
    ensures again == file
  {
    var n := |batch|;
    var b, c := MergeTo(Load(ledger), batch, n), MergeTo(Load(file), batch, n);
    LoadIsBook(ledger, |ledger|);
    MergeIsBook(Load(ledger), batch, n);
    forall i | 0 <= i < n ensures batch[i].gapId in Load(file).rows {
      LastFinds(batch, n, batch[i].gapId, i);
      MergeKeys(Load(ledger), batch, n, batch[i].gapId);
      LoadedRow(b, file, batch[i].gapId);
    }
    MergeOfKnown(Load(file), batch, n);
    LoadBack(b, file, |file|);
    assert b.keys[..|file|] == b.keys;
    forall i | 0 <= i < |file| ensures again[i] == file[i] {
      WrittenAgain(ledger, batch, file, b, b.keys[i]);
    }
  }

  // ----- edits survive -----

  /** `files[i + 1]` is written by merging `batches[i]` into `files[i]`. */
  ghost predicate IsHistory(files: seq<seq<Entry>>, batches: seq<seq<Entry>>) {
    && |files| == |batches| + 1
    && forall i :: 0 <= i < |batches| ==> Follows(files, batches, i)
  }

  ghost predicate Follows(files: seq<seq<Entry>>, batches: seq<seq<Entry>>, i: nat)
    requires i < |batches| && |files| == |batches| + 1
  {
    IsMerged(files[i], batches[i], files[i + 1])
  }

  ghost predicate Edited(r: Option<Cells>, status: string, notes: string) {
    && r.Some? && Status in r.value && Notes in r.value
    && Shown(r.value[Status]) == status && Shown(r.value[Notes]) == notes
  }

  /** The file read back has a row for `g` with this status and these notes. */
  ghost predicate Shows(file: seq<Entry>, g: string, status: string, notes: string) {
    Edited(At(Load(file), g), status, notes)
  }

  predicate IsEdit(status: string, notes: string) {
    status == "wontfix" || status == "false_positive" || notes != ""
  }

  /** What a row shows in the two columns that are edited by hand. */
  predicate ShowsEdit(c: Cells) {
    IsEdit(Shown(if Status in c then c[Status] else Text("")), Shown(if Notes in c then c[Notes] else Text("")))
  }

  lemma PreservedIff(c: Cells)
    ensures Preserved(c) <==> ShowsEdit(c)
  {
  }

  lemma {:induction false} FoldOfPlain(prior: Option<Cells>, batch: seq<Entry>, n: nat, g: string)
    requires n <= |batch| && (prior.Some? ==> !ShowsEdit(prior.value))
    requires forall i :: 0 <= i < n && batch[i].gapId == g ==> !ShowsEdit(batch[i].cells)
    ensures Fold(prior, batch, n, g).Some? ==> !ShowsEdit(Fold(prior, batch, n, g).value)
  {
    if prior.Some? {
      PreservedIff(prior.value);
    }
    if n > 0 {
      FoldOfPlain(prior, batch, n - 1, g);
      var before := Fold(prior, batch, n - 1, g);
      if before.Some? {
        PreservedIff(before.value);
      }
    }
  }

  lemma {:induction false} FoldOfOthers(prior: Option<Cells>, batch: seq<Entry>, k: nat, n: nat, g: string)
    requires k <= n <= |batch| && forall i :: k <= i < n ==> batch[i].gapId != g
    ensures Fold(prior, batch, n, g) == Fold(prior, batch, k, g)
  {
    if k < n {
      FoldOfOthers(prior, batch, k, n - 1, g);
    }
  }

  lemma PlainMerge(before: Option<Cells>, cells: Cells, r: Cells)
    requires before.Some? ==> !ShowsEdit(before.value)
    requires r == if before.Some? then Merged(before.value, cells) else Complete(cells)
    ensures r == Complete(cells)
  {
    if before.Some? {
      PreservedIff(before.value);
    }
  }

  lemma PlainFold(prior: Option<Cells>, batch: seq<Entry>, k: nat, g: string)
    requires k < |batch| && batch[k].gapId == g && (prior.Some? ==> !ShowsEdit(prior.value))
    requires forall i :: 0 <= i < k && batch[i].gapId == g ==> !ShowsEdit(batch[i].cells)
    requires forall i :: k < i < |batch| ==> batch[i].gapId != g
    ensures Fold(prior, batch, |batch|, g) == Some(Complete(batch[k].cells))
  {
    var before := Fold(prior, batch, k, g);
    FoldOfPlain(prior, batch, k, g);
    FoldOfOthers(prior, batch, k + 1, |batch|, g);
    PlainMerge(before, batch[k].cells, if before.Some? then Merged(before.value, batch[k].cells) else Complete(batch[k].cells));
  }

  /** A gap that nobody edited before the last row of the batch for it shows that row. */
  lemma PlainRowsYield(ledger: seq<Entry>, batch: seq<Entry>, file: seq<Entry>, g: string, k: nat)
    requires IsMerged(ledger, batch, file) && k < |batch| && batch[k].gapId == g
    requires At(Load(ledger), g).Some? ==> !ShowsEdit(At(Load(ledger), g).value)
    requires forall i :: 0 <= i < k && batch[i].gapId == g ==> !ShowsEdit(batch[i].cells)
    requires forall i :: k < i < |batch| ==> batch[i].gapId != g
    ensures At(Load(file), g) == Some(Rendered(batch[k].cells))
  {
    var b := MergeTo(Load(ledger), batch, |batch|);
    LoadIsBook(ledger, |ledger|);
    MergeIsBook(Load(ledger), batch, |batch|);
    MergeFolds(Load(ledger), batch, |batch|, g);
    PlainFold(At(Load(ledger), g), batch, k, g);
    LoadedRow(b, file, g);
    RenderedOfComplete(batch[k].cells);
  }

  /** A written row has every column: the text of its cell, or nothing. */
  lemma RenderedIs(c: Cells, k: Column)
    ensures k in Rendered(c)
    ensures Rendered(c)[k] == Text(if k in c && c[k].Text? then c[k].text else "")
  {
  }

  lemma RenderedOfComplete(c: Cells)
    ensures Rendered(Complete(c)) == Rendered(c)
  {
  }

  lemma {:induction false} FoldKeepsEdit(prior: Option<Cells>, batch: seq<Entry>, n: nat, g: string, status: string, notes: string)
    requires n <= |batch| && Edited(prior, status, notes) && IsEdit(status, notes)
    ensures Edited(Fold(prior, batch, n, g), status, notes)
  {
    if n > 0 {
      FoldKeepsEdit(prior, batch, n - 1, g, status, notes);
    }
  }

  lemma MergeKeepsEdit(ledger: seq<Entry>, batch: seq<Entry>, file: seq<Entry>, g: string, status: string, notes: string)
    requires IsMerged(ledger, batch, file) && Shows(ledger, g, status, notes) && IsEdit(status, notes)
    ensures Shows(file, g, status, notes)
  {
    var b := MergeTo(Load(ledger), batch, |batch|);
    LoadIsBook(ledger, |ledger|);
    MergeIsBook(Load(ledger), batch, |batch|);
    MergeFolds(Load(ledger), batch, |batch|, g);
    FoldKeepsEdit(At(Load(ledger), g), batch, |batch|, g, status, notes);
    LoadedRow(b, file, g);
  }

  /** A preserved status and the notes survive any sequence of merges. */
  lemma {:induction false} EditsSurvive(files: seq<seq<Entry>>, batches: seq<seq<Entry>>, i: nat, j: nat,
                                        g: string, status: string, notes: string)
    requires IsHistory(files, batches) && i <= j < |files|
    requires Shows(files[i], g, status, notes) && IsEdit(status, notes)
    ensures Shows(files[j], g, status, notes)
    decreases j
  {
    if i < j {
      EditsSurvive(files, batches, i, j - 1, g, status, notes);
      assert Follows(files, batches, j - 1);
      MergeKeepsEdit(files[j - 1], batches[j - 1], files[j], g, status, notes);
    }
  }

  // ----- the order of the file -----

  /** Place `a` holds the first row for `g`. */
  ghost predicate IsFirstRow(rows: seq<Entry>, g: string, a: nat) {
    a < |rows| && rows[a].gapId == g && forall i :: 0 <= i < a ==> rows[i].gapId != g
  }

  /** `keys` are the gap ids of the first `n` rows, each once, in the order in which they first occur. */
  ghost predicate AreKeys(keys: seq<string>, rows: seq<Entry>, n: nat)
    requires n <= |rows|
  {
    && (forall g :: g in keys <==> exists i :: 0 <= i < n && rows[i].gapId == g)
    && (forall p, q, a, b :: 0 <= p < q < |keys| && IsFirstRow(rows, keys[p], a) && IsFirstRow(rows, keys[q], b) ==> a < b)
  }

  lemma FirstBelow(rows: seq<Entry>, g: string, a: nat, i: nat)
    requires IsFirstRow(rows, g, a) && i < |rows| && rows[i].gapId == g
    ensures a <= i
  {
  }

  lemma KeysGrow(keys: seq<string>, rows: seq<Entry>, n: nat, g: string, more: seq<string>)
    requires n < |rows| && AreKeys(keys, rows, n) && g == rows[n].gapId
    requires more == if g in keys then keys else keys + [g]
    ensures AreKeys(more, rows, n + 1)
  {
    forall p, q, a, b | 0 <= p < q < |more| && IsFirstRow(rows, more[p], a) && IsFirstRow(rows, more[q], b) ensures a < b {
      if q == |keys| {
        assert more[p] == keys[p] && keys[p] in keys;
        var i :| 0 <= i < n && rows[i].gapId == keys[p];
        FirstBelow(rows, keys[p], a, i);
        LateFirst(rows, g, n, b);
      } else {
        assert more[p] == keys[p] && more[q] == keys[q];
      }
    }
    forall x ensures x in more <==> exists i :: 0 <= i < n + 1 && rows[i].gapId == x {
      assert x == g ==> rows[n].gapId == x;
    }
  }

  lemma LateFirst(rows: seq<Entry>, g: string, n: nat, b: nat)
    requires n <= |rows| && IsFirstRow(rows, g, b) && !exists i :: 0 <= i < n && rows[i].gapId == g
    ensures b >= n
  {
  }

  /** The gap ids of the first `n` rows, each once. */
  function FirstIds(rows: seq<Entry>, n: nat): seq<string>
    requires n <= |rows|
  {
    if n == 0 then []
    else
      var before, g := FirstIds(rows, n - 1), rows[n - 1].gapId;
      if g in before then before else before + [g]
  }

  lemma {:induction false} FirstIdsAreKeys(rows: seq<Entry>, n: nat)
    requires n <= |rows|
    ensures AreKeys(FirstIds(rows, n), rows, n)
  {
    if n > 0 {
      FirstIdsAreKeys(rows, n - 1);
      KeysGrow(FirstIds(rows, n - 1), rows, n - 1, rows[n - 1].gapId, FirstIds(rows, n));
    }
  }

  lemma {:induction false} FirstIdsOfPrefix(a: seq<Entry>, rows: seq<Entry>, n: nat)
    requires n <= |a| <= |rows| && a == rows[..|a|]
    ensures FirstIds(rows, n) == FirstIds(a, n)
  {
    if n > 0 {
      FirstIdsOfPrefix(a, rows, n - 1);
      assert rows[n - 1] == a[n - 1];
    }
  }

  lemma StoreKeys(b: Book, g: string, cells: Cells)
    requires IsBook(b)
    ensures Store(b, g, cells).keys == if g in b.keys then b.keys else b.keys + [g]
  {
  }

  lemma {:induction false} LoadKeysAre(file: seq<Entry>, n: nat)
    requires n <= |file|
    ensures LoadTo(file, n).keys == FirstIds(file, n)
  {
    if n > 0 {
      LoadKeysAre(file, n - 1);
      LoadIsBook(file, n - 1);
      StoreKeys(LoadTo(file, n - 1), file[n - 1].gapId, file[n - 1].cells);
    }
  }

  lemma MergeOneKeys(b: Book, e: Entry)
    requires IsBook(b)
    ensures MergeOne(b, e).keys == if e.gapId in b.keys then b.keys else b.keys + [e.gapId]
  {
  }

  /** From place `lo` on the rows are those of the batch. */
  ghost predicate EndsWith(rows: seq<Entry>, batch: seq<Entry>, lo: nat) {
    |rows| == lo + |batch| && forall i :: 0 <= i < |batch| ==> rows[lo + i] == batch[i]
  }

  lemma BatchRow(rows: seq<Entry>, batch: seq<Entry>, lo: nat, n: nat, k: nat)
    requires EndsWith(rows, batch, lo) && 0 < n <= |batch| && k == lo + n
    ensures 0 < k <= |rows| && rows[k - 1] == batch[n - 1]
  {
    assert rows[lo + (n - 1)] == batch[n - 1];
  }

  lemma NextKeys(before: Book, e: Entry, after: Book, rows: seq<Entry>, k: nat)
    requires 0 < k <= |rows| && rows[k - 1] == e && IsBook(before) && after == MergeOne(before, e)
    requires before.keys == FirstIds(rows, k - 1)
    ensures after.keys == FirstIds(rows, k)
  {
    MergeOneKeys(before, e);
  }

  lemma {:induction false} MergeKeysAre(rows: seq<Entry>, batch: seq<Entry>, lo: nat, b: Book, n: nat, k: nat)
    requires lo <= |rows| && EndsWith(rows, batch, lo) && IsBook(b) && b.keys == FirstIds(rows, lo)
    requires n <= |batch| && k == lo + n <= |rows|
    ensures MergeTo(b, batch, n).keys == FirstIds(rows, k)
  {
    if n > 0 {
      MergeKeysAre(rows, batch, lo, b, n - 1, k - 1);
      MergeIsBook(b, batch, n - 1);
      BatchRow(rows, batch, lo, n, k);
      NextKeys(MergeTo(b, batch, n - 1), batch[n - 1], MergeTo(b, batch, n), rows, k);
    }
  }

  lemma MergedKeysAre(ledger: seq<Entry>, batch: seq<Entry>, rows: seq<Entry>)
    requires rows == ledger + batch
    ensures MergeTo(Load(ledger), batch, |batch|).keys == FirstIds(rows, |rows|)
  {
    LoadKeysAre(ledger, |ledger|);
    LoadIsBook(ledger, |ledger|);
    FirstIdsOfPrefix(ledger, rows, |ledger|);
    MergeKeysAre(rows, batch, |ledger|, Load(ledger), |batch|, |rows|);
  }

  /** The file lists the gaps in the order in which the ledger and then the batch first name them. */
  lemma FileByFirstRow(ledger: seq<Entry>, batch: seq<Entry>, file: seq<Entry>, p: nat, q: nat, a: nat, b: nat)
    requires IsMerged(ledger, batch, file) && p < q < |file|
    requires IsFirstRow(ledger + batch, file[p].gapId, a) && IsFirstRow(ledger + batch, file[q].gapId, b)
    ensures a < b
  {
    MergedKeysAre(ledger, batch, ledger + batch);
    FirstIdsAreKeys(ledger + batch, |ledger + batch|);
    KeysAreOfFile(MergeTo(Load(ledger), batch, |batch|), file, p, q);
  }

  lemma KeysAreOfFile(b: Book, file: seq<Entry>, p: nat, q: nat)
    requires IsFile(b, file) && p < q < |file|
    ensures file[p].gapId == b.keys[p] && file[q].gapId == b.keys[q]
  {
  }
}
