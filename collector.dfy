/**
  The deduplicating collector behind `parseTable`: a row is stored under the
  text of its key cell only if nothing is stored under that key yet.
 */
module Collector {
  import opened Wrappers
  import opened RowExtractor
  import opened Records

  /** The property name JavaScript uses for `storeObject[undefined]`. */
  const Undefined: string := "undefined"

  /** A key stands for a key cell: the cell's text, or "undefined" when the row has no such cell. */
  predicate KeyReflects(key: string, cell: Option<string>) {
    cell == Some(key) || (cell == None && key == Undefined)
  }

  /** `tdsTexts[uniqueItemIndex]`, as a property name. */
  function Key(row: Row, index: nat): (key: string)
    ensures KeyReflects(key, At(row, index))
  {
    if index < |row| then row[index] else Undefined
  }

  /** Everything in `store` is in `bigger` with the same record: nothing removed, nothing overwritten. */
  ghost predicate Extends<R>(store: map<string, R>, bigger: map<string, R>) {
    && store.Keys <= bigger.Keys
    && forall k :: k in store ==> bigger[k] == store[k]
  }

  /** `if (!storeObject[key]) storeObject[key] = mapRow(row)` */
  function Insert<R>(store: map<string, R>, row: Row, index: nat, mapRow: Row -> R): map<string, R> {
    var key := Key(row, index);
    if key in store then store else store[key := mapRow(row)]
  }

  /**
    First write wins: a present key leaves the collection as it is; a new key
    is added with the row's record, and nothing else changes.
   */
  lemma InsertSpec<R>(store: map<string, R>, row: Row, index: nat, mapRow: Row -> R)
    ensures Insert(store, row, index, mapRow).Keys == store.Keys + {Key(row, index)}
    ensures Extends(store, Insert(store, row, index, mapRow))
    ensures Key(row, index) in store ==> Insert(store, row, index, mapRow) == store
    ensures Key(row, index) !in store ==> Insert(store, row, index, mapRow)[Key(row, index)] == mapRow(row)
  {
  }

  /** The keys of a sequence of rows. */
  function KeysOf(rows: seq<Row>, index: nat): set<string> {
    if rows == [] then {} else KeysOf(rows[..|rows| - 1], index) + {Key(rows[|rows| - 1], index)}
  }

  /** The rows inserted one after another, in order. */
  function InsertAll<R>(store: map<string, R>, rows: seq<Row>, index: nat, mapRow: Row -> R): map<string, R> {
    if rows == [] then store
    else Insert(InsertAll(store, rows[..|rows| - 1], index, mapRow), rows[|rows| - 1], index, mapRow)
  }

  /** Inserting rows only adds: the keys become the old keys plus the rows' keys, and no record is replaced. */
  lemma {:induction false} InsertAllGrows<R>(store: map<string, R>, rows: seq<Row>, index: nat, mapRow: Row -> R)
    ensures InsertAll(store, rows, index, mapRow).Keys == store.Keys + KeysOf(rows, index)
    ensures Extends(store, InsertAll(store, rows, index, mapRow))
  {
    if rows != [] {
      var init := rows[..|rows| - 1];
      InsertAllGrows(store, init, index, mapRow);
      InsertSpec(InsertAll(store, init, index, mapRow), rows[|rows| - 1], index, mapRow);
    }
  }

  /** A key is among the rows' keys exactly when some row carries it. */
  lemma {:induction false} KeysOfMembers(rows: seq<Row>, index: nat, k: string)
    ensures k in KeysOf(rows, index) <==> exists j :: 0 <= j < |rows| && Key(rows[j], index) == k
  {
    if rows != [] {
      var init := rows[..|rows| - 1];
      KeysOfMembers(init, index, k);
      if k in KeysOf(init, index) {
        var j :| 0 <= j < |init| && Key(init[j], index) == k;
        assert rows[j] == init[j];
      }
      forall j | 0 <= j < |rows| - 1 ensures rows[j] == init[j] { }
    }
  }

  /** Inserting the same row again changes nothing. */
  lemma InsertIdempotent<R>(store: map<string, R>, row: Row, index: nat, mapRow: Row -> R)
    ensures Insert(Insert(store, row, index, mapRow), row, index, mapRow) == Insert(store, row, index, mapRow)
  {
    InsertSpec(store, row, index, mapRow);
    InsertSpec(Insert(store, row, index, mapRow), row, index, mapRow);
  }

  /** Rows whose keys are all present already leave the collection as it is. */
  lemma {:induction false} InsertAllPresent<R>(store: map<string, R>, rows: seq<Row>, index: nat, mapRow: Row -> R)
    requires KeysOf(rows, index) <= store.Keys
    ensures InsertAll(store, rows, index, mapRow) == store
  {
    if rows != [] {
      InsertAllPresent(store, rows[..|rows| - 1], index, mapRow);
      InsertSpec(store, rows[|rows| - 1], index, mapRow);
    }
  }

  /** Inserting a whole page of rows a second time changes nothing. */
  lemma InsertAllIdempotent<R>(store: map<string, R>, rows: seq<Row>, index: nat, mapRow: Row -> R)
    ensures InsertAll(InsertAll(store, rows, index, mapRow), rows, index, mapRow) == InsertAll(store, rows, index, mapRow)
  {
    InsertAllGrows(store, rows, index, mapRow);
    InsertAllPresent(InsertAll(store, rows, index, mapRow), rows, index, mapRow);
  }

  lemma InsertAllStep<R>(store: map<string, R>, rows: seq<Row>, i: nat, index: nat, mapRow: Row -> R)
    requires i < |rows|
    ensures InsertAll(store, rows[..i + 1], index, mapRow)
         == Insert(InsertAll(store, rows[..i], index, mapRow), rows[i], index, mapRow)
  {
    assert rows[..i + 1][..i] == rows[..i];
  }

  /** Inserting `a` then `b` is inserting `a + b`. */
  lemma {:induction false} InsertAllAppend<R>(store: map<string, R>, a: seq<Row>, b: seq<Row>, index: nat, mapRow: Row -> R)
    ensures InsertAll(store, a + b, index, mapRow) == InsertAll(InsertAll(store, a, index, mapRow), b, index, mapRow)
  {
    if b == [] {
      assert a + b == a;
    } else {
      var ab, init, last := a + b, b[..|b| - 1], b[|b| - 1];
      assert ab[..|ab| - 1] == a + init;
      assert ab[|ab| - 1] == last;
      InsertAllAppend(store, a, init, index, mapRow);
      calc {
        InsertAll(store, ab, index, mapRow);
        Insert(InsertAll(store, a + init, index, mapRow), last, index, mapRow);
        Insert(InsertAll(InsertAll(store, a, index, mapRow), init, index, mapRow), last, index, mapRow);
        InsertAll(InsertAll(store, a, index, mapRow), b, index, mapRow);
      }
    }
  }

  /** The key of every inserted row ends up in the collection. */
  lemma {:induction false} RowKeyStored(rows: seq<Row>, index: nat, j: nat)
    requires j < |rows|
    ensures Key(rows[j], index) in KeysOf(rows, index)
  {
    if j < |rows| - 1 {
      assert rows[..|rows| - 1][j] == rows[j];
      RowKeyStored(rows[..|rows| - 1], index, j);
    }
  }

  /** A key no row carries is not among the rows' keys. */
  lemma {:induction false} AbsentKey(rows: seq<Row>, index: nat, k: string)
    requires forall i :: 0 <= i < |rows| ==> Key(rows[i], index) != k
    ensures k !in KeysOf(rows, index)
  {
    if rows != [] {
      var init := rows[..|rows| - 1];
      forall i | 0 <= i < |init| ensures Key(init[i], index) != k {
        assert init[i] == rows[i];
      }
      AbsentKey(init, index, k);
    }
  }

  /** First write wins: a new key holds the record of the first row that carries it. */
  lemma {:induction false} FirstRowWins<R>(store: map<string, R>, rows: seq<Row>, index: nat, mapRow: Row -> R, j: nat)
    requires j < |rows|
    requires Key(rows[j], index) !in store
    requires forall i :: 0 <= i < j ==> Key(rows[i], index) != Key(rows[j], index)
    ensures Key(rows[j], index) in InsertAll(store, rows, index, mapRow)
    ensures InsertAll(store, rows, index, mapRow)[Key(rows[j], index)] == mapRow(rows[j])
  {
    var init := rows[..|rows| - 1];
    var k := Key(rows[j], index);
    InsertSpec(InsertAll(store, init, index, mapRow), rows[|rows| - 1], index, mapRow);
    if j == |rows| - 1 {
      assert init == rows[..j];
      AbsentKey(init, index, k);
      InsertAllGrows(store, init, index, mapRow);
    } else {
      assert init[j] == rows[j];
      forall i | 0 <= i < j ensures Key(init[i], index) != k {
        assert init[i] == rows[i];
      }
      FirstRowWins(store, init, index, mapRow, j);
    }
  }

  /**
    When every record names its own key cell, and the starting collection keeps
    that up, every stored record names the key it is stored under.
   */
  lemma {:induction false} KeyedByField<R>(store: map<string, R>, rows: seq<Row>, index: nat, mapRow: Row -> R,
                                           field: R -> Option<string>)
    requires forall k :: k in store ==> KeyReflects(k, field(store[k]))
    requires forall row :: field(mapRow(row)) == At(row, index)
    ensures forall k :: k in InsertAll(store, rows, index, mapRow) ==>
              KeyReflects(k, field(InsertAll(store, rows, index, mapRow)[k]))
  {
    if rows != [] {
      KeyedByField(store, rows[..|rows| - 1], index, mapRow, field);
      InsertSpec(InsertAll(store, rows[..|rows| - 1], index, mapRow), rows[|rows| - 1], index, mapRow);
    }
  }

  /** The body of the row callback: store the record unless its key is taken. */
  method StoreRow<R>(store: map<string, R>, tdsTexts: Row, index: nat, mapRow: Row -> R)
    returns (out: map<string, R>)
    ensures out == Insert(store, tdsTexts, index, mapRow)
  {
    var key := if index < |tdsTexts| then tdsTexts[index] else Undefined;
    out := store;
    if key !in out {
      out := out[key := mapRow(tdsTexts)];
    }
  }

  /** `parseTable`: every row of the page is extracted and inserted, first write wins. */
  method ParseTable<R>(store: map<string, R>, rows: seq<RawRow>, index: nat, mapRow: Row -> R)
    returns (out: map<string, R>)
    ensures out == InsertAll(store, ExtractRows(rows), index, mapRow)
  {
    ghost var texts := ExtractRows(rows);
    ExtractRowsPointwise(rows);
    out := store;
    for i := 0 to |rows|
      invariant out == InsertAll(store, texts[..i], index, mapRow)
    {
      var tdsTexts := RowTexts(rows[i]);
      out := StoreRow(out, tdsTexts, index, mapRow);
      InsertAllStep(store, texts, i, index, mapRow);
    }
    assert texts[..|rows|] == texts;
  }
}
