/**
 * The column edits as the source performs them: loops over a column list that update one
 * element in place or stop at the first match. Each is proved against its specification
 * in module Model.
 */
module Columns {
  import opened Wrappers
  import opened Ast
  import opened Model

  /** Builds the column a column definition declares, scanning its inline constraints in order. */
  method BuildColumn(cd: ColumnDef) returns (col: Column)
    ensures col == ColumnOf(cd)
  {
    var cons := cd.constraints;
    col := Column(cd.colname, TypeText(cd.typeName), false, false, None);
    for i := 0 to |cons|
      invariant col == ColumnOf(cd.(constraints := cons[..i]))
    {
      LastForeignKeySnoc(cd.colname, cons, i);
      HasKindSnoc(cons, i, Primary);
      HasKindSnoc(cons, i, Unique);
      match cons[i].contype
      case Primary => col := col.(primaryKey := true);
      case Unique => col := col.(unique := true);
      case Foreign => col := col.(foreignKey := Some(InlineFK(col.name, cons[i])));
      case _ =>
    }
    assert cons[..|cons|] == cons;
  }

  /**
   * Merges a declaration into a column list: the first column of the same name is updated
   * in place and the list returned; a new name is appended.
   */
  method UpsertCol(cols: seq<Column>, c: Column) returns (r: seq<Column>)
    ensures r == Upserted(cols, c)
  {
    r := cols;
    var i := 0;
    while i < |r|
      invariant 0 <= i <= |r| && r == cols
      invariant forall j :: 0 <= j < i ==> cols[j].name != c.name
    {
      if r[i].name == c.name {
        var col := r[i];
        if c.typ != "" {
          col := col.(typ := c.typ);
        }
        col := col.(primaryKey := col.primaryKey || c.primaryKey, unique := col.unique || c.unique);
        if c.foreignKey.Some? {
          col := col.(foreignKey := c.foreignKey);
        }
        r := r[i := col];
        assert IndexOf(cols, c.name) == Some(i);
        return;
      }
      i := i + 1;
    }
    assert !HasColumn(cols, c.name) by {
      forall x | x in cols ensures x.name != c.name {
        var j :| 0 <= j < |cols| && cols[j] == x;
      }
    }
    r := r + [c];
  }

  /** Sets the primary-key flag on every column called `name`. */
  method MarkPK(cols: seq<Column>, name: string) returns (r: seq<Column>)
    ensures r == WithPrimaryKey(cols, [name])
  {
    r := cols;
    for i := 0 to |r|
      invariant |r| == |cols|
      invariant forall j :: 0 <= j < i ==> r[j] == WithPrimaryKey(cols, [name])[j]
      invariant forall j :: i <= j < |r| ==> r[j] == cols[j]
    {
      if r[i].name == name {
        r := r[i := r[i].(primaryKey := true)];
      }
    }
  }

  /** Sets the unique flag on every column called `name`. */
  method MarkUQ(cols: seq<Column>, name: string) returns (r: seq<Column>)
    ensures r == WithUnique(cols, [name])
  {
    r := cols;
    for i := 0 to |r|
      invariant |r| == |cols|
      invariant forall j :: 0 <= j < i ==> r[j] == WithUnique(cols, [name])[j]
      invariant forall j :: i <= j < |r| ==> r[j] == cols[j]
    {
      if r[i].name == name {
        r := r[i := r[i].(unique := true)];
      }
    }
  }

  /** Whether every wanted name is a column of `t`: collects the names, then checks each wanted one. */
  method HasAllCols(t: Table, want: seq<string>) returns (b: bool)
    ensures b <==> ContainsAll(t.cols, want)
  {
    var have: set<string> := {};
    for i := 0 to |t.cols|
      invariant forall n :: n in have <==> exists j :: 0 <= j < i && t.cols[j].name == n
    {
      have := have + {t.cols[i].name};
    }
    for i := 0 to |want|
      invariant forall j :: 0 <= j < i ==> HasColumn(t.cols, want[j])
    {
      if want[i] !in have {
        assert !HasColumn(t.cols, want[i]) by {
          forall c | c in t.cols ensures c.name != want[i] {
            var j :| 0 <= j < |t.cols| && t.cols[j] == c;
          }
        }
        return false;
      }
      var j :| 0 <= j < |t.cols| && t.cols[j].name == want[i];
      assert t.cols[j] in t.cols;
    }
    b := true;
  }

  /** Sets the primary-key flag on every column named in `names`, one name at a time. */
  method MarkAllPK(cols: seq<Column>, names: seq<string>) returns (r: seq<Column>)
    ensures r == WithPrimaryKey(cols, names)
  {
    r := cols;
    for i := 0 to |names|
      invariant r == WithPrimaryKey(cols, names[..i])
    {
      WithPrimaryKeySnoc(cols, names[..i], names[i]);
      assert names[..i + 1] == names[..i] + [names[i]];
      r := MarkPK(r, names[i]);
    }
    assert names[..|names|] == names;
  }

  /** Sets the unique flag on every column named in `names`, one name at a time. */
  method MarkAllUQ(cols: seq<Column>, names: seq<string>) returns (r: seq<Column>)
    ensures r == WithUnique(cols, names)
  {
    r := cols;
    for i := 0 to |names|
      invariant r == WithUnique(cols, names[..i])
    {
      WithUniqueSnoc(cols, names[..i], names[i]);
      assert names[..i + 1] == names[..i] + [names[i]];
      r := MarkUQ(r, names[i]);
    }
    assert names[..|names|] == names;
  }
}
