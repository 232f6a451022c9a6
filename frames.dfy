/** The part of pandas the pipeline relies on: cells holding Python values,
    and frames stored column by column with an ordered list of column
    names and a common height. */
module Frames {
  import opened Common

  /** A Python value held in a frame cell. */
  datatype Value = IntV(i: int) | RealV(x: real) | BoolV(b: bool) | StrV(s: string) | NoneV

  /** Python's `v == n` for an int literal n: numbers compare by value and
      bool counts as 0 or 1; a str or None is never equal to a number. */
  predicate NumEq(v: Value, n: int) {
    match v
    case IntV(i) => i == n
    case RealV(x) => x == n as real
    case BoolV(b) => (if b then 1 else 0) == n
    case StrV(_) => false
    case NoneV => false
  }

  datatype Frame = Frame(columns: seq<string>, cells: map<string, seq<Value>>, height: nat)

  /** Distinct column names, one cell sequence per name, all of the frame's
      height. */
  predicate Valid(f: Frame) {
    && (forall i, j | 0 <= i < j < |f.columns| :: f.columns[i] != f.columns[j])
    && (forall c | c in f.cells :: c in f.columns)
    && (forall i | 0 <= i < |f.columns| :: f.columns[i] in f.cells)
    && (forall c | c in f.cells :: |f.cells[c]| == f.height)
  }

  /** row.get(key, default) on the row at index i. */
  function Get(f: Frame, i: nat, key: string, default: Value): (v: Value)
    requires Valid(f) && i < f.height
    ensures key !in f.columns ==> v == default
    ensures key in f.columns ==> v == f.cells[key][i]
  {
    if key in f.cells then f.cells[key][i] else default
  }

  /** df[key]: the column, or KeyError when there is none. */
  function Column(f: Frame, key: string): (r: Result<seq<Value>>)
    requires Valid(f)
    ensures r.Raised? <==> key !in f.columns
    ensures r.Raised? ==> r.error == KeyError
    ensures r.Ok? ==> r.value == f.cells[key] && |r.value| == f.height
  {
    if key in f.cells then Ok(f.cells[key]) else Raised(KeyError)
  }

  /** Column names without repetitions. */
  predicate DistinctNames(keys: seq<string>) {
    forall i, j | 0 <= i < j < |keys| :: keys[i] != keys[j]
  }

  /** df[key] = values: an existing column is replaced where it stands, a
      new one is appended after the others; every other column keeps its
      values. */
  function WithColumn(f: Frame, key: string, values: seq<Value>): (g: Frame)
    requires Valid(f) && |values| == f.height
    ensures Valid(g) && g.height == f.height
    ensures key in g.cells && g.cells[key] == values
    ensures forall k | k in f.cells && k != key :: k in g.cells && g.cells[k] == f.cells[k]
    ensures key in f.columns ==> g.columns == f.columns
    ensures key !in f.columns ==> g.columns == f.columns + [key]
  {
    Frame(if key in f.cells then f.columns else f.columns + [key], f.cells[key := values], f.height)
  }

  /** df[keys]: the named columns in the order named, or KeyError when one
      of them is missing. */
  function SelectColumns(f: Frame, keys: seq<string>): (r: Result<Frame>)
    requires Valid(f) && DistinctNames(keys)
    ensures r.Raised? <==> exists i | 0 <= i < |keys| :: keys[i] !in f.columns
    ensures r.Raised? ==> r.error == KeyError
    ensures r.Ok? ==> Valid(r.value) && r.value.columns == keys && r.value.height == f.height
    ensures r.Ok? ==> forall k | k in keys :: k in f.cells && r.value.cells[k] == f.cells[k]
  {
    if exists i | 0 <= i < |keys| :: keys[i] !in f.cells then Raised(KeyError)
    else Ok(Frame(keys, map k | k in keys :: f.cells[k], f.height))
  }

  /** pd.concat([a, b], axis=1) of two frames of one height whose columns
      do not overlap: the columns of a, then those of b. */
  function Concat(a: Frame, b: Frame): (g: Frame)
    requires Valid(a) && Valid(b) && a.height == b.height
    requires forall k | k in a.columns :: k !in b.columns
    ensures Valid(g) && g.height == a.height && g.columns == a.columns + b.columns
    ensures forall k | k in a.cells :: k in g.cells && g.cells[k] == a.cells[k]
    ensures forall k | k in b.cells :: k in g.cells && g.cells[k] == b.cells[k]
  {
    Frame(a.columns + b.columns, a.cells + b.cells, a.height)
  }

  /** A pandas DataFrame that is changed in place. */
  class Table {
    var columns: seq<string>
    var cells: map<string, seq<Value>>
    var height: nat

    /** The frame the table currently holds. */
    function Contents(): Frame
      reads this
    {
      Frame(columns, cells, height)
    }

    /** df.copy(): a new table holding the same frame. */
    constructor Copy(f: Frame)
      ensures Contents() == f
    {
      columns := f.columns;
      cells := f.cells;
      height := f.height;
    }

    /** df[key] = values on this table. */
    method SetColumn(key: string, values: seq<Value>)
      requires Valid(Contents()) && |values| == height
      modifies this
      ensures Contents() == WithColumn(old(Contents()), key, values)
    {
      if key !in cells {
        columns := columns + [key];
      }
      cells := cells[key := values];
    }
  }
}
