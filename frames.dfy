/** The pandas tables the sweeps return, reduced to what the sweeps do with them: a table
    is a sequence of named columns of cells, `df[name] = values` replaces the cells of the
    column of that name where it keeps its place, or adds the column at the right end,
    and `pd.DataFrame(rows)` of a list of dicts turns the rows into columns. */
module Frames {
  import opened Common

  /** One entry of a table. Temperatures stay in the controller's tenths of a degree,
      times in tenths of a second. */
  datatype Cell =
    | Whole(n: int)        // a frequency, as given
    | Real(x: real)        // a mean or a spread from `DataAveraging`
    | Tenths(t: int)       // a reading or a time, in tenths
    | Missing              // Python's None
    | NotANumber           // numpy's nan
    | Letter(c: char)      // one character of a string that was indexed as if it were a reading

  datatype Column = Column(name: string, cells: seq<Cell>)

  type Frame = seq<Column>

  function Names(f: Frame): (names: seq<string>)
    ensures |names| == |f|
    ensures forall c :: 0 <= c < |f| ==> names[c] == f[c].name
  {
    if |f| == 0 then [] else Names(f[..|f| - 1]) + [f[|f| - 1].name]
  }

  /** Where the column `name` is: the first column of that name. */
  function Position(f: Frame, name: string): (r: Option<nat>)
    ensures r.Some? ==> r.value < |f| && f[r.value].name == name
    ensures r.Some? ==> forall c :: 0 <= c < r.value ==> f[c].name != name
    ensures r.None? <==> forall c :: 0 <= c < |f| ==> f[c].name != name
  {
    if |f| == 0 then None
    else if f[0].name == name then Some(0)
    else
      match Position(f[1..], name)
      case None =>
        assert forall c :: 1 <= c < |f| ==> f[c] == f[1..][c - 1];
        None
      case Some(p) =>
        assert forall c :: 1 <= c < p + 1 ==> f[c] == f[1..][c - 1];
        Some(p + 1)
  }

  /** `df[name]`: the cells of that column, if it exists. */
  function Lookup(f: Frame, name: string): Option<seq<Cell>>
  {
    match Position(f, name)
    case None => None
    case Some(p) => Some(f[p].cells)
  }

  /** `df[name] = cells`. */
  function Assign(f: Frame, name: string, cells: seq<Cell>): Frame
  {
    match Position(f, name)
    case None => f + [Column(name, cells)]
    case Some(p) => f[p := Column(name, cells)]
  }

  /** The column just assigned reads back as the values assigned. */
  lemma AssignLookup(f: Frame, name: string, cells: seq<Cell>)
    ensures Lookup(Assign(f, name, cells), name) == Some(cells)
  {
    var g := Assign(f, name, cells);
    if Position(f, name).None? {
      assert g[|f|].name == name;
      assert forall c :: 0 <= c < |f| ==> g[c] == f[c];
    } else {
      var p := Position(f, name).value;
      assert g[p].name == name;
      assert forall c :: 0 <= c < p ==> g[c] == f[c];
    }
  }

  /** Every other column is untouched, and keeps its place. */
  lemma AssignOther(f: Frame, name: string, cells: seq<Cell>, other: string)
    requires other != name
    ensures Lookup(Assign(f, name, cells), other) == Lookup(f, other)
    ensures Position(Assign(f, name, cells), other) == Position(f, other)
  {
    var g := Assign(f, name, cells);
    assert forall c :: 0 <= c < |f| ==> g[c].name == f[c].name;
    assert forall c :: |f| <= c < |g| ==> g[c].name == name;
    match Position(f, other)
    case None =>
      assert forall c :: 0 <= c < |g| ==> g[c].name != other;
    case Some(q) =>
      assert g[q] == f[q];
      FirstPosition(g, other, q);
  }

  /** The first column of a name is where `Position` finds it. */
  lemma FirstPosition(f: Frame, name: string, q: nat)
    requires q < |f| && f[q].name == name
    requires forall c :: 0 <= c < q ==> f[c].name != name
    ensures Position(f, name) == Some(q)
  {
  }

  /** An existing column is replaced where it is; a new one is added at the right end. */
  lemma AssignNames(f: Frame, name: string, cells: seq<Cell>)
    ensures name in Names(f) ==> Names(Assign(f, name, cells)) == Names(f)
    ensures name !in Names(f) ==> Names(Assign(f, name, cells)) == Names(f) + [name]
  {
    var g := Assign(f, name, cells);
    if name in Names(f) {
      var k :| 0 <= k < |f| && Names(f)[k] == name;
      assert Position(f, name).Some?;
      assert Names(g) == Names(f);
    } else {
      assert Position(f, name).None?;
      assert Names(g) == Names(f) + [name];
    }
  }

  /** Every column holds `rows` cells. */
  predicate Rectangular(f: Frame, rows: nat)
  {
    forall c :: 0 <= c < |f| ==> |f[c].cells| == rows
  }

  /** pandas accepts only assignments of the table's length, and they keep it. */
  lemma AssignKeepsShape(f: Frame, name: string, cells: seq<Cell>, rows: nat)
    requires Rectangular(f, rows) && |cells| == rows
    ensures Rectangular(Assign(f, name, cells), rows)
  {
  }

  /** A scalar assigned to a column is repeated on every row. */
  function Broadcast(x: Cell, rows: nat): (cells: seq<Cell>)
    ensures |cells| == rows && forall t :: 0 <= t < rows ==> cells[t] == x
  {
    Repeat(x, rows)
  }

  /** `pd.DataFrame(rows)` for rows that all have the keys `names`, in that order: one
      column per key. With no rows there is no column at all. */
  function FromRecords(names: seq<string>, rows: seq<seq<Cell>>): (f: Frame)
    requires forall t :: 0 <= t < |rows| ==> |rows[t]| == |names|
    ensures |rows| == 0 ==> f == []
    ensures |rows| > 0 ==> Names(f) == names && Rectangular(f, |rows|)
    ensures |rows| > 0 ==> forall c, t :: 0 <= c < |names| && 0 <= t < |rows| ==> f[c].cells[t] == rows[t][c]
  {
    if |rows| == 0 then []
    else
      var f := seq(|names|, c requires 0 <= c < |names| =>
                 Column(names[c], seq(|rows|, t requires 0 <= t < |rows| => rows[t][c])));
      assert forall c :: 0 <= c < |names| ==> Names(f)[c] == names[c];
      f
  }

  /** A run of `df[name] = cells` statements, in order. */
  function ApplyWrites(f: Frame, writes: seq<Column>): Frame
  {
    if |writes| == 0 then f
    else
      var last := writes[|writes| - 1];
      Assign(ApplyWrites(f, writes[..|writes| - 1]), last.name, last.cells)
  }

  /** The cells of the last statement that wrote `name`, if any did. */
  function LastWrite(writes: seq<Column>, name: string): Option<seq<Cell>>
  {
    if |writes| == 0 then None
    else if writes[|writes| - 1].name == name then Some(writes[|writes| - 1].cells)
    else LastWrite(writes[..|writes| - 1], name)
  }

  /** `LastWrite` finds a write exactly when there is one, and the one it finds is the last. */
  lemma {:induction false} LastWriteFound(writes: seq<Column>, name: string)
    ensures LastWrite(writes, name).Some? <==> exists c :: 0 <= c < |writes| && writes[c].name == name
    ensures LastWrite(writes, name).Some? ==>
              exists c :: 0 <= c < |writes| && writes[c] == Column(name, LastWrite(writes, name).value)
                          && forall d :: c < d < |writes| ==> writes[d].name != name
  {
    if |writes| > 0 {
      var k := |writes| - 1;
      if writes[k].name == name {
        assert writes[k] == Column(name, LastWrite(writes, name).value);
      } else {
        var front := writes[..k];
        LastWriteFound(front, name);
        assert forall c :: 0 <= c < |front| ==> front[c] == writes[c];
        if exists c :: 0 <= c < |writes| && writes[c].name == name {
          var c :| 0 <= c < |writes| && writes[c].name == name;
          assert c < k && front[c].name == name;
        }
        if LastWrite(front, name).Some? {
          var c :| 0 <= c < |front| && front[c] == Column(name, LastWrite(front, name).value)
                   && forall d :: c < d < |front| ==> front[d].name != name;
          assert writes[c] == front[c];
        }
      }
    }
  }

  /** A write that no later write overrides is the one `LastWrite` finds. */
  lemma {:induction false} LastWriteAt(writes: seq<Column>, c: nat, name: string)
    requires c < |writes| && writes[c].name == name
    requires forall d :: c < d < |writes| ==> writes[d].name != name
    ensures LastWrite(writes, name) == Some(writes[c].cells)
  {
    if c < |writes| - 1 {
      LastWriteAt(writes[..|writes| - 1], c, name);
    }
  }

  /** No write to `name`, nothing for `LastWrite` to find. */
  lemma {:induction false} LastWriteNone(writes: seq<Column>, name: string)
    requires forall c :: 0 <= c < |writes| ==> writes[c].name != name
    ensures LastWrite(writes, name).None?
  {
    if |writes| > 0 {
      LastWriteNone(writes[..|writes| - 1], name);
    }
  }

  /** After a run of assignments, a column holds what was last assigned to it, and a
      column nobody assigned holds what it held before. */
  lemma {:induction false} ApplyLookup(f: Frame, writes: seq<Column>, name: string)
    ensures LastWrite(writes, name).Some? ==> Lookup(ApplyWrites(f, writes), name) == LastWrite(writes, name)
    ensures LastWrite(writes, name).None? ==> Lookup(ApplyWrites(f, writes), name) == Lookup(f, name)
  {
    if |writes| > 0 {
      var front := writes[..|writes| - 1];
      var last := writes[|writes| - 1];
      ApplyLookup(f, front, name);
      if last.name == name {
        AssignLookup(ApplyWrites(f, front), name, last.cells);
      } else {
        AssignOther(ApplyWrites(f, front), last.name, last.cells, name);
      }
    }
  }

  /** Assignments of the table's length keep it rectangular. */
  lemma {:induction false} ApplyKeepsShape(f: Frame, writes: seq<Column>, rows: nat)
    requires Rectangular(f, rows)
    requires forall c :: 0 <= c < |writes| ==> |writes[c].cells| == rows
    ensures Rectangular(ApplyWrites(f, writes), rows)
  {
    if |writes| > 0 {
      var front := writes[..|writes| - 1];
      ApplyKeepsShape(f, front, rows);
      AssignKeepsShape(ApplyWrites(f, front), writes[|writes| - 1].name, writes[|writes| - 1].cells, rows);
    }
  }

  /** The columns there before keep their places; new names are added after them. */
  lemma {:induction false} ApplyNames(f: Frame, writes: seq<Column>, name: string)
    ensures Names(f) <= Names(ApplyWrites(f, writes))
    ensures name in Names(ApplyWrites(f, writes)) <==> name in Names(f) || LastWrite(writes, name).Some?
  {
    if |writes| > 0 {
      var front := writes[..|writes| - 1];
      var last := writes[|writes| - 1];
      ApplyNames(f, front, name);
      AssignNames(ApplyWrites(f, front), last.name, last.cells);
    }
  }

  /** The names of two tables side by side are the names of the first, then of the second. */
  lemma NamesConcat(a: Frame, b: Frame)
    ensures Names(a + b) == Names(a) + Names(b)
  {
    assert forall c :: 0 <= c < |a + b| ==> Names(a + b)[c] == (a + b)[c].name;
  }

  /** Two runs of assignments in a row are one run. */
  lemma {:induction false} ApplyAppend(f: Frame, a: seq<Column>, b: seq<Column>)
    ensures ApplyWrites(f, a + b) == ApplyWrites(ApplyWrites(f, a), b)
    decreases |b|
  {
    if |b| == 0 {
      assert a + b == a;
    } else {
      assert (a + b)[..|a + b| - 1] == a + b[..|b| - 1];
      assert (a + b)[|a + b| - 1] == b[|b| - 1];
      ApplyAppend(f, a, b[..|b| - 1]);
    }
  }

  /** Assignments to distinct names the table does not have yet add their columns at the
      right end, in order. */
  lemma {:induction false} ApplyFresh(f: Frame, writes: seq<Column>)
    requires forall c :: 0 <= c < |writes| ==> writes[c].name !in Names(f)
    requires forall c, d :: 0 <= c < d < |writes| ==> writes[c].name != writes[d].name
    ensures ApplyWrites(f, writes) == f + writes
  {
    if |writes| > 0 {
      var front := writes[..|writes| - 1];
      var last := writes[|writes| - 1];
      ApplyFresh(f, front);
      var g := f + front;
      forall c | 0 <= c < |g|
        ensures g[c].name != last.name
      {
        if c < |f| {
          assert Names(f)[c] == f[c].name;
        } else {
          assert g[c] == writes[c - |f|];
        }
      }
      assert Position(g, last.name).None?;
      assert g + [last] == f + writes;
    }
  }
}
