/**
 * The `Name` mapping of the template context: `zeromap`, which empties every
 * value and keeps every key, and `headertomap`, which binds header column
 * names to the fields of one record by position. Both change a map in place;
 * `NameMap` is that map and the two methods are proved against the functions
 * `Zeroed` and `Bind`, about which the lemmas below state what the loop
 * promises: which keys it touches, which value wins, and that nothing is
 * ever removed.
 */
module NameBinding {
  import opened Values

  /** A Go `map[string]string`: a reference to a mutable dictionary. */
  class NameMap {
    var entries: map<string, string>

    /** `make(map[string]string, n)`: a new, empty map (the size hint has no visible effect). */
    constructor ()
      ensures entries == map[]
    {
      entries := map[];
    }
  }

  /** The header names that a record of `line` fields binds: the columns at positions below both lengths. */
  function Covered(columns: seq<string>, line: seq<string>): set<string>
  {
    set p | 0 <= p < Min(|columns|, |line|) :: columns[p]
  }

  /** Position `j` is bound, and no later bound position carries the same column name. */
  ghost predicate IsLastPosition(columns: seq<string>, line: seq<string>, j: int)
  {
    && 0 <= j < Min(|columns|, |line|)
    && forall j' :: j < j' < Min(|columns|, |line|) ==> columns[j'] != columns[j]
  }

  /** The map `zeromap` leaves behind: the same keys, every value empty. */
  function Zeroed(m: map<string, string>): (r: map<string, string>)
    ensures r.Keys == m.Keys
    ensures forall k :: k in r ==> r[k] == ""
  {
    map k | k in m :: ""
  }

  /**
   * The map `headertomap` leaves behind: the loop over `line` in order,
   * assigning `m[columns[i]] := line[i]` at each position `i` below `|columns|`.
   */
  function Bind(columns: seq<string>, m: map<string, string>, line: seq<string>): (r: map<string, string>)
    ensures m.Keys <= r.Keys
    decreases |line|
  {
    if line == [] then m
    else
      var i := |line| - 1;
      var before := Bind(columns, m, line[..i]);
      if i < |columns| then before[columns[i] := line[i]] else before
  }

  lemma ZeroedIdempotent(m: map<string, string>)
    ensures Zeroed(Zeroed(m)) == Zeroed(m)
  {
  }

  /** Binding never removes a key, and the only keys it adds are header names at bound positions. */
  lemma {:induction false} BindKeys(columns: seq<string>, m: map<string, string>, line: seq<string>)
    ensures Bind(columns, m, line).Keys == m.Keys + Covered(columns, line)
    decreases |line|
  {
    if line != [] {
      var i := |line| - 1;
      BindKeys(columns, m, line[..i]);
      if i < |columns| {
        assert Covered(columns, line) == Covered(columns, line[..i]) + {columns[i]};
      } else {
        assert Covered(columns, line) == Covered(columns, line[..i]);
      }
    }
  }

  /** A key that no bound position names keeps its presence and its value. */
  lemma {:induction false} BindUntouched(columns: seq<string>, m: map<string, string>, line: seq<string>, k: string)
    requires k !in Covered(columns, line)
    ensures k in Bind(columns, m, line) <==> k in m
    ensures k in m ==> Bind(columns, m, line)[k] == m[k]
    decreases |line|
  {
    if line != [] {
      var i := |line| - 1;
      assert Covered(columns, line[..i]) <= Covered(columns, line);
      BindUntouched(columns, m, line[..i], k);
      if i < |columns| {
        assert columns[i] in Covered(columns, line);
      }
    }
  }

  /** The field at the last bound position of a column name is the value that name ends up with. */
  lemma {:induction false} BindLastWins(columns: seq<string>, m: map<string, string>, line: seq<string>, j: int)
    requires IsLastPosition(columns, line, j)
    ensures columns[j] in Bind(columns, m, line)
    ensures Bind(columns, m, line)[columns[j]] == line[j]
    decreases |line|
  {
    var i := |line| - 1;
    if j < i {
      assert IsLastPosition(columns, line[..i], j);
      BindLastWins(columns, m, line[..i], j);
    }
  }

  /**
   * `zeromap(x)`: every value of `x` becomes the empty string, in whatever
   * order the keys are visited; no key is added or removed.
   */
  method ZeroMap(x: NameMap)
    modifies x
    ensures x.entries.Keys == old(x.entries.Keys)
    ensures forall k :: k in x.entries ==> x.entries[k] == ""
    ensures x.entries == Zeroed(old(x.entries))
  {
    var pending := x.entries.Keys;
    while pending != {}
      invariant pending <= x.entries.Keys == old(x.entries.Keys)
      invariant forall k :: k in x.entries && k !in pending ==> x.entries[k] == ""
      decreases pending
    {
      var k :| k in pending;
      x.entries := x.entries[k := ""];
      pending := pending - {k};
    }
  }

  /**
   * `headertomap(columns, m, line)`: for each position `i` of `line`, in
   * order, and only when `i < |columns|`, sets `m[columns[i]] := line[i]`.
   */
  method HeaderToMap(columns: seq<string>, m: NameMap, line: seq<string>)
    modifies m
    ensures m.entries == Bind(columns, old(m.entries), line)
  {
    for i := 0 to |line|
      invariant m.entries == Bind(columns, old(m.entries), line[..i])
    {
      assert line[..i + 1][..i] == line[..i];
      if i < |columns| {
        m.entries := m.entries[columns[i] := line[i]];
      }
    }
    assert line[..|line|] == line;
  }

  /**
   * The `Name` mapping the loop builds for one record from the mapping of
   * the record before: every value reset, then the header bound to the
   * record's fields unless there is no header.
   */
  function RowNames(noHeader: bool, header: seq<string>, name: map<string, string>, fields: seq<string>): (r: map<string, string>)
    ensures name.Keys <= r.Keys
    ensures noHeader ==> r.Keys == name.Keys && forall k :: k in r ==> r[k] == ""
  {
    var reset := Zeroed(name);
    if noHeader then reset else Bind(header, reset, fields)
  }

  /**
   * The mapping for a record keeps every earlier key and gains only the names
   * the record binds; a name the record does not bind is empty, whatever an
   * earlier record gave it; a bound name holds the field at its last position.
   */
  lemma RowNamesNoLeak(noHeader: bool, header: seq<string>, name: map<string, string>, fields: seq<string>)
    ensures RowNames(noHeader, header, name, fields).Keys
         == name.Keys + (if noHeader then {} else Covered(header, fields))
    ensures forall k :: k in RowNames(noHeader, header, name, fields) && (noHeader || k !in Covered(header, fields))
                    ==> RowNames(noHeader, header, name, fields)[k] == ""
    ensures !noHeader ==>
              forall j :: IsLastPosition(header, fields, j) ==>
                header[j] in RowNames(noHeader, header, name, fields) &&
                RowNames(noHeader, header, name, fields)[header[j]] == fields[j]
  {
    var reset := Zeroed(name);
    if !noHeader {
      BindKeys(header, reset, fields);
      forall k | k !in Covered(header, fields)
        ensures k in Bind(header, reset, fields) <==> k in reset
        ensures k in reset ==> Bind(header, reset, fields)[k] == ""
      {
        BindUntouched(header, reset, fields, k);
      }
      forall j | IsLastPosition(header, fields, j)
        ensures header[j] in Bind(header, reset, fields) && Bind(header, reset, fields)[header[j]] == fields[j]
      {
        BindLastWins(header, reset, fields, j);
      }
    }
  }

  /** Every header name bound by any of `rows`. */
  function Mapped(header: seq<string>, rows: seq<seq<string>>): set<string>
    decreases |rows|
  {
    if rows == [] then {} else Covered(header, rows[0]) + Mapped(header, rows[1..])
  }

  /** The `Name` mapping after the loop has processed `rows` in order, starting from `name0`. */
  function NameAfter(noHeader: bool, header: seq<string>, name0: map<string, string>, rows: seq<seq<string>>): map<string, string>
    decreases |rows|
  {
    if rows == [] then name0
    else NameAfter(noHeader, header, RowNames(noHeader, header, name0, rows[0]), rows[1..])
  }

  /** The key set of `Name` only grows, and only to header names some record has bound. */
  lemma {:induction false} NameAfterKeys(noHeader: bool, header: seq<string>, name0: map<string, string>, rows: seq<seq<string>>)
    ensures NameAfter(noHeader, header, name0, rows).Keys
         == name0.Keys + (if noHeader then {} else Mapped(header, rows))
    decreases |rows|
  {
    if rows != [] {
      RowNamesNoLeak(noHeader, header, name0, rows[0]);
      NameAfterKeys(noHeader, header, RowNames(noHeader, header, name0, rows[0]), rows[1..]);
    }
  }

  /**
   * After at least one record, the values of `Name` depend on the last record
   * alone: a name it binds holds the field at its last bound position, and
   * every other name is empty.
   */
  lemma {:induction false} NameAfterValues(noHeader: bool, header: seq<string>, name0: map<string, string>, rows: seq<seq<string>>)
    requires rows != []
    ensures var r := NameAfter(noHeader, header, name0, rows);
            var last := rows[|rows| - 1];
            && (forall k :: k in r && (noHeader || k !in Covered(header, last)) ==> r[k] == "")
            && (!noHeader ==> forall j :: IsLastPosition(header, last, j) ==> header[j] in r && r[header[j]] == last[j])
    decreases |rows|
  {
    var name1 := RowNames(noHeader, header, name0, rows[0]);
    if |rows| == 1 {
      RowNamesNoLeak(noHeader, header, name0, rows[0]);
    } else {
      assert rows[1..][|rows| - 2] == rows[|rows| - 1];
      assert NameAfter(noHeader, header, name0, rows) == NameAfter(noHeader, header, name1, rows[1..]);
      NameAfterValues(noHeader, header, name1, rows[1..]);
    }
  }
}
