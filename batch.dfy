/** The batch translator: every cell of one column of an uploaded table is
    resolved with source "auto", the outcomes (or an error marker) are
    collected in row order while progress is reported after each row, and
    the outcomes become a new column of the table. */
module Batch {
  import opened Wrappers
  import opened Text
  import opened Catalog
  import opened Resolver

  /** The value a row gets when its translation failed or came back empty. */
  const ERROR_MARKER: string := "Error"
  /** The output column is named this prefix followed by the target code. */
  const COLUMN_PREFIX: string := "translated_"

  /** The progress bar's state after a row: `done` rows of `total`. */
  datatype Progress = Progress(done: nat, total: nat)

  /** A named column of the table, its cells in row order. */
  datatype Column = Column(name: string, cells: seq<string>)

  /** `translated or "Error"` for one cell: the detected-then-translated
      text when the provider delivered a non-empty one, the marker
      otherwise. */
  function CellOutcome(p: Provider, cell: string, dest: string): (r: string)
    ensures IsBlank(cell) ==> r == ERROR_MARKER
    ensures r != ERROR_MARKER ==>
      r != "" && p.detect(cell).Some? && p.translate(cell, p.detect(cell).value, dest) == Some(r)
    ensures !IsBlank(cell) && p.detect(cell).Some? &&
            p.translate(cell, p.detect(cell).value, dest).Some? &&
            p.translate(cell, p.detect(cell).value, dest).value != "" ==>
      r == p.translate(cell, p.detect(cell).value, dest).value
  {
    var outcome := Resolve(p, cell, AUTO_CODE, dest).result;
    if HasText(outcome) then outcome.value.text else ERROR_MARKER
  }

  /** The loop over the column's cells: one outcome per cell, in input
      order, and after row `i` (counting from 0) the progress `i + 1` of
      `n`, so that progress strictly grows and ends at `n` of `n`. The
      service is asked afresh for every row, so row `i` is answered by
      `ps[i]`, the provider as it behaves at that moment: one row can fail
      while the rows around it succeed. */
  method TranslateCells(ps: seq<Provider>, cells: seq<string>, dest: string)
    returns (translations: seq<string>, progress: seq<Progress>)
    requires |ps| == |cells|
    ensures |translations| == |cells|
    ensures forall i | 0 <= i < |cells| :: translations[i] == CellOutcome(ps[i], cells[i], dest)
    ensures |progress| == |cells|
    ensures forall i | 0 <= i < |cells| :: progress[i] == Progress(i + 1, |cells|)
    ensures forall i, j | 0 <= i < j < |progress| :: progress[i].done < progress[j].done
    ensures |cells| > 0 ==> progress[|cells| - 1] == Progress(|cells|, |cells|)
  {
    translations, progress := [], [];
    for i := 0 to |cells|
      invariant |translations| == i && |progress| == i
      invariant forall k | 0 <= k < i :: translations[k] == CellOutcome(ps[k], cells[k], dest)
      invariant forall k | 0 <= k < i :: progress[k] == Progress(k + 1, |cells|)
    {
      var outcome := CellOutcome(ps[i], cells[i], dest);
      ghost var prev := translations;
      translations := translations + [outcome];
      forall k | 0 <= k < i + 1
        ensures translations[k] == CellOutcome(ps[k], cells[k], dest)
      {
        if k < i {
          assert translations[k] == prev[k];
        }
      }
      progress := progress + [Progress(i + 1, |cells|)];
    }
  }

  /** The first column with the given name, if any. */
  function Lookup(t: seq<Column>, name: string): Option<seq<string>>
    decreases |t|
  {
    if t == [] then None
    else if t[0].name == name then Some(t[0].cells)
    else Lookup(t[1..], name)
  }

  /** Every column of the table has `rows` cells. */
  predicate Rectangular(t: seq<Column>, rows: nat)
  {
    forall j | 0 <= j < |t| :: |t[j].cells| == rows
  }

  function Replaced(t: seq<Column>, name: string, cells: seq<string>): (r: seq<Column>)
    ensures |r| == |t|
    ensures forall j | 0 <= j < |t| :: r[j] == if t[j].name == name then Column(name, cells) else t[j]
    decreases |t|
  {
    if t == [] then []
    else [if t[0].name == name then Column(name, cells) else t[0]] + Replaced(t[1..], name, cells)
  }

  /** `df[name] = cells`: an existing column of that name is overwritten
      where it stands, otherwise the column is added at the end. Afterwards
      the name reads back the new cells, every other name reads what it read
      before, and no column moves. */
  function AssignColumn(t: seq<Column>, name: string, cells: seq<string>): (r: seq<Column>)
    requires Rectangular(t, |cells|)
    ensures Rectangular(r, |cells|)
    ensures Lookup(r, name) == Some(cells)
    ensures forall n | n != name :: Lookup(r, n) == Lookup(t, n)
    ensures |r| == if Lookup(t, name).Some? then |t| else |t| + 1
    ensures forall j | 0 <= j < |t| :: r[j].name == t[j].name
  {
    if Lookup(t, name).Some? then
      var r := Replaced(t, name, cells);
      LookupReplaced(t, name, cells);
      r
    else
      var r := t + [Column(name, cells)];
      LookupAppended(t, Column(name, cells));
      r
  }

  lemma {:induction false} LookupReplaced(t: seq<Column>, name: string, cells: seq<string>)
    ensures Lookup(Replaced(t, name, cells), name) == if Lookup(t, name).Some? then Some(cells) else None
    ensures forall n | n != name :: Lookup(Replaced(t, name, cells), n) == Lookup(t, n)
    decreases |t|
  {
    if t != [] {
      var r := Replaced(t, name, cells);
      LookupReplaced(t[1..], name, cells);
      assert r[1..] == Replaced(t[1..], name, cells);
    }
  }

  lemma {:induction false} LookupAppended(t: seq<Column>, col: Column)
    ensures forall n | n != col.name :: Lookup(t + [col], n) == Lookup(t, n)
    ensures Lookup(t + [col], col.name) == if Lookup(t, col.name).Some? then Lookup(t, col.name) else Some(col.cells)
    decreases |t|
  {
    if t != [] {
      LookupAppended(t[1..], col);
      assert (t + [col])[1..] == t[1..] + [col];
    }
  }

  /** The "Translate File" button for column `textColumn` and the target
      chosen by name: the target code comes from the inverted catalog, the
      column's cells are translated in order, and the outcomes are stored in
      the column `translated_<code>`; every other column is left as it was.
      Row `i` is answered by the provider `ps[i]`. */
  method TranslateFile(c: seq<Entry>, ps: seq<Provider>, table: seq<Column>, textColumn: string, targetName: string)
    returns (result: seq<Column>, progress: seq<Progress>)
    requires Lookup(table, textColumn).Some? && Rectangular(table, |Lookup(table, textColumn).value|)
    requires |ps| == |Lookup(table, textColumn).value|
    requires targetName in TargetOptions(c)
    ensures var cells := Lookup(table, textColumn).value;
      var dest := NameToCode(c)[targetName];
      && Rectangular(result, |cells|)
      && Lookup(result, COLUMN_PREFIX + dest).Some?
      && |Lookup(result, COLUMN_PREFIX + dest).value| == |cells|
      && (forall i | 0 <= i < |cells| :: Lookup(result, COLUMN_PREFIX + dest).value[i] == CellOutcome(ps[i], cells[i], dest))
      && (forall n | n != COLUMN_PREFIX + dest :: Lookup(result, n) == Lookup(table, n))
      && |table| <= |result| <= |table| + 1
      && (forall j | 0 <= j < |table| :: result[j].name == table[j].name)
      && |progress| == |cells|
      && (forall i | 0 <= i < |cells| :: progress[i] == Progress(i + 1, |cells|))
  {
    var dest := NameToCode(c)[targetName];
    var cells := Lookup(table, textColumn).value;
    var translations;
    translations, progress := TranslateCells(ps, cells, dest);
    result := AssignColumn(table, COLUMN_PREFIX + dest, translations);
  }

  /** A cell translated twice, while the service is down and once it is
      back: the failed row becomes the marker without stopping the row after
      it, which gets the translation, and progress reads 1 and 2 of 2. */
  method TransientFailureExample(down: Provider, up: Provider, cell: string, detected: string, text: string)
    returns (translations: seq<string>, progress: seq<Progress>)
    requires !AllSpace(cell) && text != ""
    requires down.detect(cell) == None
    requires up.detect(cell) == Some(detected) && up.translate(cell, detected, "es") == Some(text)
    ensures translations == [ERROR_MARKER, text]
    ensures progress == [Progress(1, 2), Progress(2, 2)]
  {
    translations, progress := TranslateCells([down, up], [cell, cell], "es");
  }
}
