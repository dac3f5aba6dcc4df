/**
 * The part of a pandas DataFrame that the on-demand feature view relies on:
 * an ordered set of column labels, each naming a column of values with a
 * dtype. Values inside a column are opaque; only "a column is a sequence of
 * values" matters here.
 */
module Frames {

  /** A cell of a column. pandas dtype semantics are not modelled. */
  datatype Value = NullValue | BoolValue(b: bool) | IntValue(i: int) | RealValue(r: real) | StringValue(s: string)

  /** A pandas Series stored under a column label: its values, one per row, and the name of its dtype. */
  datatype Column = Column(values: seq<Value>, dtype: string)

  /** A DataFrame: the column labels in their order, and the column under each label. */
  datatype Frame = Frame(order: seq<string>, cols: map<string, Column>)

  /** No label occurs twice. */
  predicate Distinct(s: seq<string>)
  {
    s == [] || (s[0] !in s[1..] && Distinct(s[1..]))
  }

  lemma {:induction false} DistinctAppend(s: seq<string>, x: string)
    requires Distinct(s) && x !in s
    ensures Distinct(s + [x])
  {
    if s != [] {
      assert (s + [x])[1..] == s[1..] + [x];
      DistinctAppend(s[1..], x);
    }
  }

  lemma {:induction false} DistinctAt(s: seq<string>, i: nat, j: nat)
    requires Distinct(s) && i < j < |s|
    ensures s[i] != s[j]
  {
    if i == 0 {
      assert s[j] == s[1..][j - 1];
    } else {
      DistinctAt(s[1..], i - 1, j - 1);
    }
  }

  /** The labels of a sequence, as a set. */
  function Elements(s: seq<string>): (r: set<string>)
    ensures forall x :: x in r <==> x in s
  {
    set x | x in s
  }

  /** Every label appears once in the order, and the order lists exactly the labels that have a column. */
  predicate WellFormed(f: Frame)
  {
    Distinct(f.order) && f.cols.Keys == Elements(f.order)
  }

  type Table = f: Frame | WellFormed(f) witness Frame([], map[])

  /** `pd.DataFrame()`: no columns and no rows. */
  const EmptyTable: Table := Frame([], map[])

  /**
   * `df[name] = column`: the label now holds `c`; an existing label keeps its
   * position, a new one is appended after the others.
   */
  function SetColumn(t: Table, name: string, c: Column): (r: Table)
    ensures r.cols.Keys == t.cols.Keys + {name}
    ensures r.cols[name] == c
    ensures forall k :: k in t.cols && k != name ==> r.cols[k] == t.cols[k]
    ensures name in t.cols ==> r.order == t.order
    ensures name !in t.cols ==> r.order == t.order + [name]
  {
    if name in t.cols then
      Frame(t.order, t.cols[name := c])
    else
      DistinctAppend(t.order, name);
      Frame(t.order + [name], t.cols[name := c])
  }

  /** The labels of `s` that are not in `drop`, in their order. */
  function Without(s: seq<string>, drop: set<string>): (r: seq<string>)
    ensures forall x :: x in r <==> x in s && x !in drop
    ensures Distinct(s) ==> Distinct(r)
    ensures |r| <= |s|
  {
    if s == [] then []
    else
      var rest := Without(s[1..], drop);
      if s[0] in drop then rest
      else
        assert ([s[0]] + rest)[1..] == rest;
        [s[0]] + rest
  }

  lemma {:induction false} WithoutAppend(a: seq<string>, b: seq<string>, drop: set<string>)
    ensures Without(a + b, drop) == Without(a, drop) + Without(b, drop)
  {
    if a == [] {
      assert a + b == b;
    } else {
      assert (a + b)[1..] == a[1..] + b;
      WithoutAppend(a[1..], b, drop);
    }
  }

  lemma {:induction false} WithoutDisjoint(s: seq<string>, drop: set<string>)
    requires forall x :: x in s ==> x !in drop
    ensures Without(s, drop) == s
  {
    if s != [] {
      WithoutDisjoint(s[1..], drop);
    }
  }

  lemma {:induction false} WithoutCovered(s: seq<string>, drop: set<string>)
    requires forall x :: x in s ==> x in drop
    ensures Without(s, drop) == []
  {
    if s != [] {
      WithoutCovered(s[1..], drop);
    }
  }

  /** Dropping exactly what was appended after `base`, and nothing of `base`, gives back `base`. */
  lemma WithoutAppended(s: seq<string>, base: seq<string>, drop: set<string>)
    requires |base| <= |s| && s[..|base|] == base
    requires forall k :: |base| <= k < |s| ==> s[k] in drop
    requires forall x :: x in base ==> x !in drop
    ensures Without(s, drop) == base
  {
    var added := s[|base|..];
    assert s == base + added;
    WithoutAppend(base, added, drop);
    WithoutDisjoint(base, drop);
    WithoutCovered(added, drop);
  }

  /**
   * `df.drop(columns=names)`: every listed label must be a column (pandas
   * raises KeyError otherwise); a label listed twice is dropped once. The
   * remaining columns keep their values and their order.
   */
  function DropColumns(t: Table, names: seq<string>): (r: Table)
    requires forall c :: c in names ==> c in t.cols
    ensures r.cols.Keys == t.cols.Keys - Elements(names)
    ensures forall c :: c in r.cols ==> r.cols[c] == t.cols[c]
    ensures r.order == Without(t.order, Elements(names))
  {
    var order := Without(t.order, Elements(names));
    Frame(order, t.cols - Elements(names))
  }

  /** A caller's DataFrame, which the on-demand feature view mutates in place. */
  class DataFrame {
    var table: Table

    constructor (t: Table)
      ensures table == t
    {
      table := t;
    }

    /** `name in df.keys()` */
    function Contains(name: string): (b: bool)
      reads this
      ensures b <==> name in table.cols.Keys
    {
      name in table.cols
    }

    /** `df[name]` */
    function Get(name: string): Column
      reads this
      requires Contains(name)
    {
      table.cols[name]
    }

    /** `df[name] = c` */
    method SetItem(name: string, c: Column)
      modifies this
      ensures table == SetColumn(old(table), name, c)
    {
      table := SetColumn(table, name, c);
    }

    /** `df.drop(columns=names, inplace=True)` */
    method Drop(names: seq<string>)
      requires forall c :: c in names ==> c in table.cols
      modifies this
      ensures table == DropColumns(old(table), names)
    {
      table := DropColumns(table, names);
    }
  }
}
