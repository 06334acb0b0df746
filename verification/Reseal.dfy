/** internal/store/reseal.go: moving every stored secret to the current Transit
    key while requests go on writing. The run's only touches of the database
    are one query per column and one conditional update per value; other
    requests' writes land anywhere in between. */
module Reseal {
  import opened Basics
  import opened Transit

  /** One sealed column of one row. */
  datatype Cell = Cell(table: string, column: string, key: seq<string>)

  type Cells = map<Cell, string>

  const SEALED_COLUMNS: seq<(string, string)> := [
    ("tenants", "tsig_secret"), ("tenants", "state_secret"), ("tenants", "log_ingest_token"),
    ("tenants", "log_read_token"), ("tenants", "dashboard_password"),
    ("tenant_wifi_keys", "psk"), ("admission_keys", "psk")]

  /** A cell that seal or sealOne fills: a tenant's five secrets, its Wi-Fi keys'
      PSKs and its admission key's. */
  predicate IsSecret(cell: Cell) {
    || (cell.table == "tenants" && cell.column in
          {"tsig_secret", "state_secret", "log_ingest_token", "log_read_token", "dashboard_password"})
    || (cell.column == "psk" && (cell.table == "tenant_wifi_keys" || cell.table == "admission_keys"))
  }

  /** Nothing that is sealed is left off the list, and nothing else is on it. */
  lemma SecretIsListed(cell: Cell)
    ensures IsSecret(cell) <==> exists i :: 0 <= i < |SEALED_COLUMNS| && InColumn(cell, SEALED_COLUMNS[i])
  {
    var cs := SEALED_COLUMNS;
    assert |cs| == 7 && cs[0].1 == "tsig_secret" && cs[1].1 == "state_secret" && cs[2].1 == "log_ingest_token";
    assert cs[3].1 == "log_read_token" && cs[4].1 == "dashboard_password" && cs[5].1 == "psk" && cs[6].1 == "psk";
    assert cs[0].0 == cs[1].0 == cs[2].0 == cs[3].0 == cs[4].0 == "tenants";
    assert cs[5].0 == "tenant_wifi_keys" && cs[6].0 == "admission_keys";
    if IsSecret(cell) {
      var i := if cell.column == "tsig_secret" then 0 else if cell.column == "state_secret" then 1
               else if cell.column == "log_ingest_token" then 2 else if cell.column == "log_read_token" then 3
               else if cell.column == "dashboard_password" then 4
                 else if cell.table == "tenant_wifi_keys" then 5 else 6;
      assert InColumn(cell, cs[i]);
    }
  }

  predicate InColumn(cell: Cell, col: (string, string)) { cell.table == col.0 && cell.column == col.1 }

  /** What other requests do to a cell: seal a value under the current key,
      insert a row that leaves the column empty, or delete the row. */
  datatype Write = Put(cell: Cell, plain: string, nonce: nat) | Blank(cell: Cell) | Drop(cell: Cell)

  function Apply(c: Client, cells: Cells, w: Write): Cells {
    match w
    case Put(cell, plain, nonce) => cells[cell := c.cipher.enc(c.current, plain, nonce)]
    case Blank(cell) => cells[cell := ""]
    case Drop(cell) => cells - {cell}
  }

  function ApplyAll(c: Client, cells: Cells, ws: seq<Write>): Cells {
    if ws == [] then cells else Apply(c, ApplyAll(c, cells, ws[..|ws| - 1]), ws[|ws| - 1])
  }

  /** What each write does to its own cell, and to no other. */
  lemma WritesExactly(c: Client, cells: Cells, cell: Cell, plain: string, nonce: nat, other: Cell)
    ensures var put := Apply(c, cells, Put(cell, plain, nonce));
      cell in put && put[cell] == c.cipher.enc(c.current, plain, nonce)
    ensures var blank := Apply(c, cells, Blank(cell)); cell in blank && blank[cell] == ""
    ensures cell !in Apply(c, cells, Drop(cell))
    ensures other != cell ==>
      forall w :: w in {Put(cell, plain, nonce), Blank(cell), Drop(cell)} ==>
        && (other in Apply(c, cells, w) <==> other in cells)
        && (other in cells ==> Apply(c, cells, w)[other] == cells[other])
  {
  }

  lemma {:induction false} ApplyMore(c: Client, cells: Cells, ws: seq<Write>, vs: seq<Write>)
    ensures ApplyAll(c, cells, ws + vs) == ApplyAll(c, ApplyAll(c, cells, ws), vs)
  {
    if vs == [] {
      assert ws + vs == ws;
    } else {
      ApplyMore(c, cells, ws, vs[..|vs| - 1]);
      assert (ws + vs)[..|ws + vs| - 1] == ws + vs[..|vs| - 1];
    }
  }

  /** Nothing left to do: empty, or sealed under the current key. */
  predicate Good(c: Client, stored: string) { stored == "" || SealedCurrent(c, stored) }

  /** A request's write leaves each cell as it was or good. */
  lemma {:induction false} WritesAreGood(c: Client, cells: Cells, ws: seq<Write>, cell: Cell)
    requires Lawful(c.cipher) && cell in ApplyAll(c, cells, ws)
    ensures Good(c, ApplyAll(c, cells, ws)[cell]) || (cell in cells && ApplyAll(c, cells, ws)[cell] == cells[cell])
  {
    if ws != [] {
      var before := ApplyAll(c, cells, ws[..|ws| - 1]);
      match ws[|ws| - 1]
      case Put(target, plain, nonce) =>
        if target == cell { SealedValue(c, plain, nonce); } else { WritesAreGood(c, cells, ws[..|ws| - 1], cell); }
      case Blank(target) =>
        if target != cell { WritesAreGood(c, cells, ws[..|ws| - 1], cell); }
      case Drop(_) =>
        WritesAreGood(c, cells, ws[..|ws| - 1], cell);
    }
  }

  /** The database with the reseal and the one it would be without: the same
      cells, each saying the same, and what no key opens byte for byte. */
  ghost predicate Invisible(c: Client, cells: Cells, without: Cells) {
    && cells.Keys == without.Keys
    && forall cell :: cell in cells ==>
      View(c, cells[cell]) == View(c, without[cell]) && (View(c, without[cell]).None? ==> cells[cell] == without[cell])
  }

  /** And a value already under the current key is the writer's own, byte for byte. */
  ghost predicate NewestKept(c: Client, cells: Cells, without: Cells) {
    cells.Keys == without.Keys &&
    forall cell :: cell in cells && SealedCurrent(c, without[cell]) ==> cells[cell] == without[cell]
  }

  lemma {:induction false} WritesKeepInvisible(c: Client, cells: Cells, without: Cells, ws: seq<Write>)
    requires Invisible(c, cells, without)
    ensures Invisible(c, ApplyAll(c, cells, ws), ApplyAll(c, without, ws))
  {
    if ws != [] {
      WritesKeepInvisible(c, cells, without, ws[..|ws| - 1]);
    }
  }

  lemma {:induction false} WritesKeepNewest(c: Client, cells: Cells, without: Cells, ws: seq<Write>)
    requires NewestKept(c, cells, without)
    ensures NewestKept(c, ApplyAll(c, cells, ws), ApplyAll(c, without, ws))
  {
    if ws != [] {
      WritesKeepNewest(c, cells, without, ws[..|ws| - 1]);
    }
  }

  /** UPDATE ... SET col = next WHERE col = stored AND key = ... */
  function Swap(cells: Cells, cell: Cell, stored: string, next: string): Cells {
    if cell in cells && cells[cell] == stored then cells[cell := next] else cells
  }

  // --- What is still to do in one column --------------------------------------------------------

  /** Every value of the column is good, or waits unchanged among the rows read and not yet done. */
  ghost predicate Awaiting(c: Client, cells: Cells, col: (string, string), rows: seq<(Cell, string)>) {
    forall cell :: cell in cells && InColumn(cell, col) ==> Good(c, cells[cell]) || (cell, cells[cell]) in rows
  }

  ghost predicate Finished(c: Client, cells: Cells, col: (string, string)) {
    forall cell :: cell in cells && InColumn(cell, col) ==> Good(c, cells[cell])
  }

  lemma WritesKeepAwaiting(c: Client, cells: Cells, ws: seq<Write>, col: (string, string), rows: seq<(Cell, string)>)
    requires Lawful(c.cipher) && Awaiting(c, cells, col, rows)
    ensures Awaiting(c, ApplyAll(c, cells, ws), col, rows)
  {
    forall cell | cell in ApplyAll(c, cells, ws) && InColumn(cell, col)
      ensures Good(c, ApplyAll(c, cells, ws)[cell]) || (cell, ApplyAll(c, cells, ws)[cell]) in rows
    {
      WritesAreGood(c, cells, ws, cell);
    }
  }

  lemma WritesKeepFinished(c: Client, cells: Cells, ws: seq<Write>, col: (string, string))
    requires Lawful(c.cipher) && Finished(c, cells, col)
    ensures Finished(c, ApplyAll(c, cells, ws), col)
  {
    forall cell | cell in ApplyAll(c, cells, ws) && InColumn(cell, col) ensures Good(c, ApplyAll(c, cells, ws)[cell]) {
      WritesAreGood(c, cells, ws, cell);
    }
  }

  /** A value neither key opens has stood since the start: writers leave what
      both keys open, and so does the reseal. */
  lemma LostIsOld(c: Client, initial: Cells, ws: seq<Write>, cells: Cells, cell: Cell)
    requires Lawful(c.cipher) && Invisible(c, cells, ApplyAll(c, initial, ws))
    requires cell in cells && View(c, cells[cell]).None?
    ensures cell in initial && initial[cell] == cells[cell]
  {
    WritesAreGood(c, initial, ws, cell);
  }

  /** One row done: resealed by the update, found good, or rewritten meanwhile by a request. */
  lemma RowDone(c: Client, cells: Cells, col: (string, string), rows: seq<(Cell, string)>, next: string, changed: bool)
    requires |rows| > 0 && Awaiting(c, cells, col, rows)
    requires if changed then SealedCurrent(c, next) else Good(c, rows[0].1)
    ensures Awaiting(c, if changed then Swap(cells, rows[0].0, rows[0].1, next) else cells, col, rows[1..])
  {
    var cells' := if changed then Swap(cells, rows[0].0, rows[0].1, next) else cells;
    forall cell | cell in cells' && InColumn(cell, col)
      ensures Good(c, cells'[cell]) || (cell, cells'[cell]) in rows[1..]
    {
      if cells'[cell] == cells[cell] && !Good(c, cells[cell]) {
        assert (cell, cells[cell]) in rows;
        assert (cell, cells[cell]) != rows[0];
        assert rows == [rows[0]] + rows[1..];
      }
    }
  }

  /** A conditional update that lands replaces the value by one that says the same. */
  lemma SwapIsInvisible(c: Client, cells: Cells, without: Cells, cell: Cell, stored: string, nonce: nat, a: Answers)
    requires Lawful(c.cipher) && Invisible(c, cells, without)
    requires Reseal(c, stored, nonce, a).Got? && Reseal(c, stored, nonce, a).value.1
    ensures Invisible(c, Swap(cells, cell, stored, Reseal(c, stored, nonce, a).value.0), without)
    ensures NewestKept(c, cells, without) && !a.probe.Refuses? ==>
      NewestKept(c, Swap(cells, cell, stored, Reseal(c, stored, nonce, a).value.0), without)
  {
    ResealIsFaithful(c, stored, nonce, a);
  }

  // --- The run -----------------------------------------------------------------------------------

  type Column = (string, string)

  /** Counts by column. */
  datatype Report = Report(resealed: map<Column, nat>, current: nat, failed: map<Column, nat>)

  datatype Error = SecretsUnavailable | Database

  function Bump(counts: map<Column, nat>, col: Column): (r: map<Column, nat>)
    ensures r.Keys == counts.Keys + {col}
    ensures r[col] == (if col in counts then counts[col] + 1 else 1)
    ensures forall other :: other in counts && other != col ==> r[other] == counts[other]
  {
    counts[col := 1 + (if col in counts then counts[col] else 0)]
  }

  /** A value done adds one to exactly one count, its column's: refused, found in
      order, or resealed. An error that stops the run adds nothing. */
  ghost predicate Counted(before: Report, after: Report, col: Column, asked: Result<(string, bool)>,
                          error: Option<Error>) {
    if error.Some? then after == before
    else if asked.Denied? then
      && after.current == before.current && after.resealed == before.resealed
      && col in after.failed && after.failed[col] == (if col in before.failed then before.failed[col] + 1 else 1)
    else if asked.Got? && !asked.value.1 then after == before.(current := before.current + 1)
    else
      && after.current == before.current && after.failed == before.failed
      && col in after.resealed && after.resealed[col] ==
        (if col in before.resealed then before.resealed[col] + 1 else 1)
  }

  /** Everything outside the run's control. At the n-th touch of the database,
      before lands the writes other requests made since the last, lands says
      how the touch itself goes, and asks how OpenBao answers. */
  datatype World = World(before: nat -> seq<Write>, lands: nat -> Fault, asks: nat -> Answers, nonce: nat -> nat)

  ghost predicate NeverRefusesAProbe(w: World) { forall n :: !w.asks(n).probe.Refuses? }

  ghost predicate AlwaysSteady(w: World) { forall n :: Steady(w.asks(n)) }

  /** The column has a value reported as failed, or nothing is left to do in it. */
  ghost predicate Settled(c: Client, cells: Cells, col: Column, failed: map<Column, nat>) {
    col in failed || Finished(c, cells, col)
  }

  ghost predicate SettledBelow(c: Client, cells: Cells, i: nat, failed: map<Column, nat>)
    requires i <= |SEALED_COLUMNS|
  {
    forall j :: 0 <= j < i ==> Settled(c, cells, SEALED_COLUMNS[j], failed)
  }

  /** The column had a value neither key opens before the run began. */
  ghost predicate HadLost(c: Client, initial: Cells, col: Column) {
    exists cell :: cell in initial && InColumn(cell, col) && View(c, initial[cell]).None?
  }

  ghost predicate FailedAreLost(c: Client, initial: Cells, failed: map<Column, nat>) {
    forall col :: col in failed ==> HadLost(c, initial, col)
  }

  /** The rows of a column, each as it stands. */
  ghost predicate ReadFrom(cells: Cells, col: Column, rows: seq<(Cell, string)>) {
    forall r :: r in rows ==> r.0 in cells && cells[r.0] == r.1 && InColumn(r.0, col)
  }

  /** What was read and neither key opens had stood since the start. */
  ghost predicate LostRowsAreOld(c: Client, initial: Cells, col: Column, rows: seq<(Cell, string)>) {
    forall r :: r in rows && View(c, r.1).None? ==> HadLost(c, initial, col)
  }

  lemma ReadRowsAreOld(c: Client, initial: Cells, ws: seq<Write>, cells: Cells, col: Column, rows: seq<(Cell, string)>)
    requires Lawful(c.cipher) && Invisible(c, cells, ApplyAll(c, initial, ws)) && ReadFrom(cells, col, rows)
    ensures LostRowsAreOld(c, initial, col, rows)
  {
    forall r | r in rows && View(c, r.1).None? ensures HadLost(c, initial, col) {
      LostIsOld(c, initial, ws, cells, r.0);
    }
  }

  lemma SwapKeepsSettled(c: Client, cells: Cells, cell: Cell, stored: string, next: string, i: nat,
                         failed: map<Column, nat>)
    requires i <= |SEALED_COLUMNS| && SealedCurrent(c, next) && SettledBelow(c, cells, i, failed)
    ensures SettledBelow(c, Swap(cells, cell, stored, next), i, failed)
  {
    forall j | 0 <= j < i ensures Settled(c, Swap(cells, cell, stored, next), SEALED_COLUMNS[j], failed) {
      assert Settled(c, cells, SEALED_COLUMNS[j], failed);
    }
  }

  lemma WritesKeepSettled(c: Client, cells: Cells, ws: seq<Write>, i: nat, failed: map<Column, nat>)
    requires Lawful(c.cipher) && i <= |SEALED_COLUMNS| && SettledBelow(c, cells, i, failed)
    ensures SettledBelow(c, ApplyAll(c, cells, ws), i, failed)
  {
    forall j | 0 <= j < i ensures Settled(c, ApplyAll(c, cells, ws), SEALED_COLUMNS[j], failed) {
      assert Settled(c, cells, SEALED_COLUMNS[j], failed);
      if Finished(c, cells, SEALED_COLUMNS[j]) {
        WritesKeepFinished(c, cells, ws, SEALED_COLUMNS[j]);
      }
    }
  }

  /** More failures settle no less. */
  lemma MoreFailed(c: Client, cells: Cells, i: nat, failed: map<Column, nat>, failed': map<Column, nat>)
    requires i <= |SEALED_COLUMNS| && SettledBelow(c, cells, i, failed) && failed.Keys <= failed'.Keys
    ensures SettledBelow(c, cells, i, failed')
  {
    forall j | 0 <= j < i ensures Settled(c, cells, SEALED_COLUMNS[j], failed') {
      assert Settled(c, cells, SEALED_COLUMNS[j], failed);
    }
  }

  class Database {
    var cells: Cells

    constructor (cells: Cells)
      ensures this.cells == cells
    {
      this.cells := cells;
    }

    method Interfere(c: Client, ws: seq<Write>)
      modifies this
      ensures cells == ApplyAll(c, old(cells), ws)
    {
      for i := 0 to |ws|
        invariant cells == ApplyAll(c, old(cells), ws[..i])
      {
        assert ws[..i + 1][..i] == ws[..i];
        cells := Apply(c, cells, ws[i]);
      }
      assert ws[..|ws|] == ws;
    }

    /** SELECT key, col FROM table WHERE col <> '' */
    method Query(c: Client, col: Column) returns (rows: seq<(Cell, string)>)
      ensures Awaiting(c, cells, col, rows) && ReadFrom(cells, col, rows)
    {
      rows := [];
      var items := cells.Items;
      while items != {}
        invariant items <= cells.Items
        invariant forall cell :: cell in cells && InColumn(cell, col) && cells[cell] != "" ==>
          (cell, cells[cell]) in items || (cell, cells[cell]) in rows
        invariant ReadFrom(cells, col, rows)
        decreases |items|
      {
        var item :| item in items;
        if InColumn(item.0, col) && item.1 != "" {
          rows := rows + [item];
        }
        items := items - {item};
      }
    }

    /** Reseal. landed lists, for the record, the writes other requests got in. */
    method ResealAll(c: Client, w: World) returns (report: Report, error: Option<Error>, ghost landed: seq<Write>)
      requires Lawful(c.cipher)
      modifies this
      ensures Invisible(c, cells, ApplyAll(c, old(cells), landed))
      ensures NeverRefusesAProbe(w) ==> NewestKept(c, cells, ApplyAll(c, old(cells), landed))
      ensures error.None? ==> SettledBelow(c, cells, |SEALED_COLUMNS|, report.failed)
      ensures error.None? && report.failed == map[] ==>
        forall i :: 0 <= i < |SEALED_COLUMNS| ==> Finished(c, cells, SEALED_COLUMNS[i])
      ensures AlwaysSteady(w) ==> FailedAreLost(c, old(cells), report.failed)
      ensures error.None? && report.failed == map[] ==>
        forall cell :: cell in cells && IsSecret(cell) ==> cells[cell] == "" || SealedCurrent(c, cells[cell])
    {
      report, error, landed := Report(map[], 0, map[]), None, [];
      var touch := 0;
      for i := 0 to |SEALED_COLUMNS|
        invariant Invisible(c, cells, ApplyAll(c, old(cells), landed))
        invariant NeverRefusesAProbe(w) ==> NewestKept(c, cells, ApplyAll(c, old(cells), landed))
        invariant SettledBelow(c, cells, i, report.failed)
        invariant AlwaysSteady(w) ==> FailedAreLost(c, old(cells), report.failed)
      {
        report, error, landed, touch := ResealColumn(c, w, i, report, landed, touch, old(cells));
        if error.Some? {
          return;
        }
      }
      forall i | 0 <= i < |SEALED_COLUMNS| && report.failed == map[] ensures Finished(c, cells, SEALED_COLUMNS[i]) {
        assert Settled(c, cells, SEALED_COLUMNS[i], report.failed);
      }
      forall cell | cell in cells && IsSecret(cell) && report.failed == map[]
        ensures cells[cell] == "" || SealedCurrent(c, cells[cell])
      {
        SecretIsListed(cell);
        var i :| 0 <= i < |SEALED_COLUMNS| && InColumn(cell, SEALED_COLUMNS[i]);
        assert Finished(c, cells, SEALED_COLUMNS[i]);
      }
    }

    method ResealColumn(c: Client, w: World, i: nat, sofar: Report, ghost before: seq<Write>, start: nat,
                        ghost initial: Cells)
      returns (report: Report, error: Option<Error>, ghost landed: seq<Write>, touch: nat)
      requires Lawful(c.cipher) && i < |SEALED_COLUMNS|
      requires Invisible(c, cells, ApplyAll(c, initial, before))
      requires NeverRefusesAProbe(w) ==> NewestKept(c, cells, ApplyAll(c, initial, before))
      requires SettledBelow(c, cells, i, sofar.failed)
      requires AlwaysSteady(w) ==> FailedAreLost(c, initial, sofar.failed)
      modifies this
      ensures Invisible(c, cells, ApplyAll(c, initial, landed))
      ensures NeverRefusesAProbe(w) ==> NewestKept(c, cells, ApplyAll(c, initial, landed))
      ensures error.None? ==> SettledBelow(c, cells, i + 1, report.failed)
      ensures AlwaysSteady(w) ==> FailedAreLost(c, initial, report.failed)
    {
      report, error, touch := sofar, None, start;
      landed := Others(c, w, touch, before, initial, i, [], sofar.failed);
      if !w.lands(touch).Fine? {
        return report, Some(Database), landed, touch;
      }
      var rows := Query(c, SEALED_COLUMNS[i]);
      ReadRowsAreOld(c, initial, landed, cells, SEALED_COLUMNS[i], rows);
      touch := touch + 1;

      for r := 0 to |rows|
        invariant Invisible(c, cells, ApplyAll(c, initial, landed))
        invariant NeverRefusesAProbe(w) ==> NewestKept(c, cells, ApplyAll(c, initial, landed))
        invariant SEALED_COLUMNS[i] in report.failed || Awaiting(c, cells, SEALED_COLUMNS[i], rows[r..])
        invariant SettledBelow(c, cells, i, report.failed)
        invariant AlwaysSteady(w) ==> FailedAreLost(c, initial, report.failed)
      {
        assert rows[r..][0] == rows[r] && rows[r..][1..] == rows[r + 1..];
        report, error, landed := ResealRow(c, w, i, report, landed, touch, initial, rows[r..]);
        if error.Some? {
          return;
        }
        touch := touch + 1;
      }
      assert rows[|rows|..] == [];
      assert Settled(c, cells, SEALED_COLUMNS[i], report.failed);
    }

    /** One value of the rows read: reseal it, and swap it in if it is still there. */
    method ResealRow(c: Client, w: World, i: nat, sofar: Report, ghost before: seq<Write>, touch: nat,
                     ghost initial: Cells, rows: seq<(Cell, string)>)
      returns (report: Report, error: Option<Error>, ghost landed: seq<Write>)
      requires Lawful(c.cipher) && i < |SEALED_COLUMNS| && |rows| > 0
      requires Invisible(c, cells, ApplyAll(c, initial, before))
      requires SEALED_COLUMNS[i] in sofar.failed || Awaiting(c, cells, SEALED_COLUMNS[i], rows)
      requires SettledBelow(c, cells, i, sofar.failed)
      requires LostRowsAreOld(c, initial, SEALED_COLUMNS[i], rows)
      modifies this
      ensures Invisible(c, cells, ApplyAll(c, initial, landed))
      ensures NewestKept(c, old(cells), ApplyAll(c, initial, before)) && !w.asks(touch).probe.Refuses? ==>
        NewestKept(c, cells, ApplyAll(c, initial, landed))
      ensures error.None? ==> SEALED_COLUMNS[i] in report.failed || Awaiting(c, cells, SEALED_COLUMNS[i], rows[1..])
      ensures error.None? ==> SettledBelow(c, cells, i, report.failed)
      ensures Steady(w.asks(touch)) && FailedAreLost(c, initial, sofar.failed) ==>
        FailedAreLost(c, initial, report.failed)
      ensures Counted(sofar, report, SEALED_COLUMNS[i], Reseal(c, rows[0].1, w.nonce(touch), w.asks(touch)), error)
    {
      report, error, landed := sofar, None, before;
      var col := SEALED_COLUMNS[i];
      var stored := rows[0].1;
      var asked := Reseal(c, stored, w.nonce(touch), w.asks(touch));
      if asked.Down? {
        return report, Some(SecretsUnavailable), landed;
      }
      if asked.Denied? {
        report := report.(failed := Bump(report.failed, col));
        MoreFailed(c, cells, i, sofar.failed, report.failed);
        if Steady(w.asks(touch)) {
          SteadyResealRefusesExactlyWhen(c, stored, w.nonce(touch), w.asks(touch));
          assert rows[0] in rows;
        }
        return;
      }
      ResealIsFaithful(c, stored, w.nonce(touch), w.asks(touch));
      var (next, changed) := asked.value;
      if !changed {
        report := report.(current := report.current + 1);
        if col !in report.failed {
          RowDone(c, cells, col, rows, next, false);
        }
        return;
      }
      landed := Others(c, w, touch, landed, initial, i, rows, report.failed);
      if w.lands(touch).Before? {
        return report, Some(Database), landed;
      }
      SwapIn(c, i, ApplyAll(c, initial, landed), rows, w.nonce(touch), w.asks(touch), report.failed);
      if w.lands(touch).After? {
        return report, Some(Database), landed;
      }
      report := report.(resealed := Bump(report.resealed, col));
    }

    /** UPDATE ... WHERE col = stored: what a landing update keeps. */
    method SwapIn(c: Client, ghost i: nat, ghost without: Cells, rows: seq<(Cell, string)>, nonce: nat, a: Answers,
                  ghost failed: map<Column, nat>)
      requires Lawful(c.cipher) && i < |SEALED_COLUMNS| && |rows| > 0 && Invisible(c, cells, without)
      requires Reseal(c, rows[0].1, nonce, a).Got? && Reseal(c, rows[0].1, nonce, a).value.1
      requires SEALED_COLUMNS[i] in failed || Awaiting(c, cells, SEALED_COLUMNS[i], rows)
      requires SettledBelow(c, cells, i, failed)
      modifies this
      ensures Invisible(c, cells, without)
      ensures NewestKept(c, old(cells), without) && !a.probe.Refuses? ==> NewestKept(c, cells, without)
      ensures SEALED_COLUMNS[i] in failed || Awaiting(c, cells, SEALED_COLUMNS[i], rows[1..])
      ensures SettledBelow(c, cells, i, failed)
    {
      var (cell, stored) := rows[0];
      var next := Reseal(c, stored, nonce, a).value.0;
      ResealIsFaithful(c, stored, nonce, a);
      if SEALED_COLUMNS[i] !in failed {
        RowDone(c, cells, SEALED_COLUMNS[i], rows, next, true);
      }
      SwapKeepsSettled(c, cells, cell, stored, next, i, failed);
      SwapIsInvisible(c, cells, without, cell, stored, nonce, a);
      cells := Swap(cells, cell, stored, next);
    }

    /** Other requests' turn: they keep everything the run relies on. */
    method Others(c: Client, w: World, touch: nat, ghost before: seq<Write>, ghost initial: Cells,
                  ghost i: nat, ghost rows: seq<(Cell, string)>, ghost failed: map<Column, nat>)
      returns (ghost landed: seq<Write>)
      requires Lawful(c.cipher) && i < |SEALED_COLUMNS|
      requires Invisible(c, cells, ApplyAll(c, initial, before))
      modifies this
      ensures Invisible(c, cells, ApplyAll(c, initial, landed))
      ensures NewestKept(c, old(cells), ApplyAll(c, initial, before)) ==>
        NewestKept(c, cells, ApplyAll(c, initial, landed))
      ensures Awaiting(c, old(cells), SEALED_COLUMNS[i], rows) ==> Awaiting(c, cells, SEALED_COLUMNS[i], rows)
      ensures SettledBelow(c, old(cells), i, failed) ==> SettledBelow(c, cells, i, failed)
    {
      var ws := w.before(touch);
      landed := before + ws;
      ApplyMore(c, initial, before, ws);
      WritesKeepInvisible(c, cells, ApplyAll(c, initial, before), ws);
      if NewestKept(c, cells, ApplyAll(c, initial, before)) {
        WritesKeepNewest(c, cells, ApplyAll(c, initial, before), ws);
      }
      if Awaiting(c, cells, SEALED_COLUMNS[i], rows) {
        WritesKeepAwaiting(c, cells, ws, SEALED_COLUMNS[i], rows);
      }
      if SettledBelow(c, cells, i, failed) {
        WritesKeepSettled(c, cells, ws, i, failed);
      }
      Interfere(c, ws);
    }
  }
}
