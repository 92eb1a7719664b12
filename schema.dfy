/**
 * The replay as the source performs it: one object holding the four shared collections,
 * whose statement handlers update them in place. Every handler is proved to leave exactly
 * the state the pure replay of module Replay describes.
 */
module Schema {
  import opened Wrappers
  import opened Text
  import opened Ast
  import opened Constraints
  import opened Model
  import opened Columns
  import R = Replay

  /** The fields of a composite type, collected in order from its column definitions. */
  method CompositeFields(elts: seq<Element>) returns (cols: seq<Column>)
    ensures cols == R.CompositeCols(elts)
  {
    cols := [];
    for i := 0 to |elts|
      invariant cols == R.CompositeCols(elts[..i])
    {
      assert elts[..i + 1][..i] == elts[..i];
      if elts[i].ColumnDefElt? {
        cols := cols + [R.CompositeField(elts[i].def)];
      }
    }
    assert elts[..|elts|] == elts;
  }

  /** The labels of an enum: its string nodes in order. */
  method EnumValues(vals: seq<Node>) returns (values: seq<string>)
    ensures values == NodeIdents(vals)
  {
    values := [];
    for i := 0 to |vals|
      invariant values == NodeIdents(vals[..i])
    {
      assert vals[..i + 1][..i] == vals[..i];
      if vals[i].Str? {
        values := values + [vals[i].sval];
      }
    }
    assert vals[..|vals|] == vals;
  }

  /** The CHECK text (the last one with an expression wins) and the NOT NULL flag of a domain. */
  method DomainConstraints(elts: seq<Element>) returns (check: string, notNull: bool)
    ensures check == R.DomainCheck(elts) && notNull == R.DomainNotNull(elts)
  {
    check, notNull := "", false;
    for i := 0 to |elts|
      invariant (check, notNull) == (R.DomainCheck(elts[..i]), R.DomainNotNull(elts[..i]))
    {
      R.DomainCheckSnoc(elts, i);
      R.DomainNotNullSnoc(elts, i);
      check, notNull := DomainConstraint(elts[i], check, notNull);
    }
    assert elts[..|elts|] == elts;
  }

  /** One domain constraint: a CHECK with an expression replaces the text, NOT NULL sets the flag. */
  method DomainConstraint(elt: Element, check: string, notNull: bool) returns (check': string, notNull': bool)
    ensures check' == if elt.ConstraintElt? && elt.con.contype == Check && elt.con.rawExpr != Nil
      then Render(elt.con.rawExpr) else check
    ensures notNull' <==> notNull || R.IsNotNull(elt)
  {
    check', notNull' := check, notNull;
    if elt.ConstraintElt? {
      var c := elt.con;
      if c.contype == Check {
        if c.rawExpr != Nil {
          check' := Render(c.rawExpr);
        }
      } else if c.contype == NotNull {
        notNull' := true;
      }
    }
  }

  /** Deletes, object by object, every key a DROP statement names. */
  method DeleteKeys<V>(m: map<string, V>, objs: seq<Node>, reading: R.NameReading) returns (r: map<string, V>)
    ensures r == m - R.DropKeys(objs, reading)
  {
    r := m;
    for i := 0 to |objs|
      invariant r == m - R.DropKeys(objs[..i], reading)
    {
      R.DropKeysSnoc(objs, reading, i);
      var d := R.DropKey(objs[i], reading);
      if d.Some? {
        MinusOneMore(m, R.DropKeys(objs[..i], reading), d.value);
        r := r - {d.value};
      }
    }
    assert objs[..|objs|] == objs;
  }

  lemma MinusOneMore<V>(m: map<string, V>, ks: set<string>, k: string)
    ensures (m - ks) - {k} == m - (ks + {k})
  {
  }

  class SchemaModel {
    var tables: map<string, Table>
    var fks: seq<FK>
    var views: map<string, View>
    var types: map<string, CustomType>

    /** The current contents of the four collections. */
    function Snapshot(): R.Snapshot
      reads this
    {
      R.Snapshot(tables, fks, views, types)
    }

    /** Empty collections, as at the start of a run. */
    constructor ()
      ensures Snapshot() == R.Empty
    {
      tables, fks, views, types := map[], [], map[], map[];
    }

    /** The table at Key(s, t), inserted empty when missing. */
    method EnsureTable(s: string, t: string) returns (tb: Table)
      modifies this
      ensures (tables, tb) == R.EnsureTable(old(tables), s, t)
      ensures fks == old(fks) && views == old(views) && types == old(types)
    {
      var k := Key(s, t);
      if k !in tables {
        tables := tables[k := Table(s, t, [], [])];
      }
      tb := tables[k];
    }

    /** A table-level constraint on the table being edited; a FOREIGN KEY is appended to the global list. */
    method ReplayConstraint(t: Table, c: Constraint) returns (t': Table)
      modifies this
      ensures R.Edit(t', fks) == R.ApplyConstraint(R.Edit(t, old(fks)), c)
      ensures tables == old(tables) && views == old(views) && types == old(types)
    {
      t' := t;
      match c.contype
      case Primary =>
        var cols := MarkAllPK(t.cols, NodeIdents(c.keys));
        t' := t.(cols := cols);
      case Unique =>
        var cols := MarkAllUQ(t.cols, NodeIdents(c.keys));
        t' := t.(cols := cols);
      case Foreign =>
        fks := fks + [TableFK(c)];
      case Check =>
        if c.rawExpr != Nil {
          t' := t.(constraints := t.constraints + [TableConstraint(c.conname, "CHECK", Render(c.rawExpr))]);
        }
      case _ =>
    }

    /** A column definition merged into the table being edited. */
    method ReplayColumnDef(t: Table, cd: ColumnDef) returns (t': Table)
      ensures R.Edit(t', fks) == R.ApplyColumnDef(R.Edit(t, fks), cd)
    {
      var col := BuildColumn(cd);
      var cols := UpsertCol(t.cols, col);
      t' := t.(cols := cols);
    }

    /** One CREATE TABLE element on the table being edited. */
    method ReplayElement(t: Table, elt: Element) returns (t': Table)
      modifies this
      ensures R.Edit(t', fks) == R.ApplyElement(R.Edit(t, old(fks)), elt)
      ensures tables == old(tables) && views == old(views) && types == old(types)
    {
      match elt
      case ColumnDefElt(cd) => t' := ReplayColumnDef(t, cd);
      case ConstraintElt(c) => t' := ReplayConstraint(t, c);
      case OtherElt => t' := t;
    }

    /** CREATE TABLE: the named table is ensured, edited element by element and stored back. */
    method ReplayCreateTable(rel: Option<RangeVar>, elts: seq<Element>)
      modifies this
      ensures Snapshot() == R.ApplyCreateTable(old(Snapshot()), rel, elts)
    {
      var sch, tn := SchemaOf(rel), RelnameOf(rel);
      if tn == "" {
        return;
      }
      ghost var s0 := Snapshot();
      var t := EnsureTable(sch, tn);
      ghost var t0 := t;
      for i := 0 to |elts|
        invariant (R.Edit(t, fks), tables, views, types)
          == (R.ApplyElements(R.Edit(t0, s0.fks), elts[..i]), R.EnsureTable(s0.tables, sch, tn).0, s0.views, s0.types)
      {
        R.ApplyElementsSnoc(R.Edit(t0, s0.fks), elts, i);
        t := ReplayElement(t, elts[i]);
      }
      assert elts[..|elts|] == elts;
      tables := tables[Key(sch, tn) := t];
    }

    /** One ALTER TABLE command on the table being edited. */
    method ReplayCmd(t: Table, cmd: AlterCmd) returns (t': Table)
      modifies this
      ensures R.Edit(t', fks) == R.ApplyCmd(R.Edit(t, old(fks)), cmd)
      ensures tables == old(tables) && views == old(views) && types == old(types)
    {
      t' := t;
      if cmd.NotACmd? {
        return;
      }
      match cmd.subtype
      case AddColumn =>
        if cmd.def.ColumnDefElt? {
          t' := ReplayColumnDef(t, cmd.def.def);
        }
      case DropColumn =>
        if cmd.name != "" {
          t' := t.(cols := RemoveCol(t.cols, cmd.name));
        }
      case AddConstraint =>
        if cmd.def.ConstraintElt? {
          t' := ReplayConstraint(t, cmd.def.con);
        }
      case OtherAlter =>
    }

    /** ALTER TABLE: the named table is ensured, edited command by command and stored back. */
    method ReplayAlterTable(rel: Option<RangeVar>, cmds: seq<AlterCmd>)
      modifies this
      ensures Snapshot() == R.ApplyAlterTable(old(Snapshot()), rel, cmds)
    {
      var sch, tn := SchemaOf(rel), RelnameOf(rel);
      if tn == "" {
        return;
      }
      ghost var s0 := Snapshot();
      var t := EnsureTable(sch, tn);
      ghost var t0 := t;
      for i := 0 to |cmds|
        invariant R.Edit(t, fks) == R.ApplyCmds(R.Edit(t0, s0.fks), cmds[..i])
        invariant tables == R.EnsureTable(s0.tables, sch, tn).0 && views == s0.views && types == s0.types
      {
        assert cmds[..i + 1][..i] == cmds[..i];
        t := ReplayCmd(t, cmds[i]);
      }
      assert cmds[..|cmds|] == cmds;
      tables := tables[Key(sch, tn) := t];
    }

    /** CREATE VIEW: a named view is stored at its key, replacing any earlier one. */
    method ReplayView(rv: Option<RangeVar>, q: Query)
      modifies this
      ensures Snapshot() == R.ApplyView(old(Snapshot()), rv, q)
    {
      var sch, vn := SchemaOf(rv), RelnameOf(rv);
      if vn != "" {
        views := views[Key(sch, vn) := View(sch, vn, ViewColumns(q))];
      }
    }

    /** CREATE TYPE ... AS (...): the fields are collected in order and the type stored at its key. */
    method ReplayComposite(rv: Option<RangeVar>, elts: seq<Element>)
      modifies this
      ensures Snapshot() == R.ApplyComposite(old(Snapshot()), rv, elts)
    {
      var sch, tn := SchemaOf(rv), RelnameOf(rv);
      if tn == "" {
        return;
      }
      var cols := CompositeFields(elts);
      types := types[Key(sch, tn) := R.NewType(sch, tn, CompositeKind).(cols := cols)];
    }

    /** CREATE TYPE ... AS ENUM; false when the program would crash on the statement. */
    method ReplayEnum(names: seq<Node>, vals: seq<Node>) returns (ok: bool)
      modifies this
      ensures ok <==> R.ApplyEnum(old(Snapshot()), names, vals).Some?
      ensures ok ==> Snapshot() == R.ApplyEnum(old(Snapshot()), names, vals).value
    {
      ok := true;
      if |names| == 0 {
        return;
      }
      var ids := NodeIdents(names);
      if |ids| == 0 {
        return false;
      }
      var (sch, tn) := QualifiedName(ids);
      var values := EnumValues(vals);
      types := types[Key(sch, tn) := R.NewType(sch, tn, EnumKind).(values := values)];
    }

    /** CREATE DOMAIN; false when the program would crash on the statement. */
    method ReplayDomain(names: seq<Node>, base: Option<TypeName>, elts: seq<Element>, clause: Option<seq<Node>>) returns (ok: bool)
      modifies this
      ensures ok <==> R.ApplyDomain(old(Snapshot()), names, base, elts, clause).Some?
      ensures ok ==> Snapshot() == R.ApplyDomain(old(Snapshot()), names, base, elts, clause).value
    {
      ok := true;
      if |names| == 0 {
        return;
      }
      var ids := NodeIdents(names);
      if |ids| == 0 {
        return false;
      }
      var (sch, dn) := QualifiedName(ids);
      var check, notNull := DomainConstraints(elts);
      var collation := "";
      if clause.Some? && |clause.value| > 0 {
        collation := Join(NodeIdents(clause.value), ".");
      }
      types := types[Key(sch, dn) := R.NewType(sch, dn, DomainKind).(baseType := TypeText(base), check := check,
                                       notNull := notNull, collation := collation)];
    }

    /** DROP TABLE / VIEW / TYPE / DOMAIN: each named key is deleted from the matching collection. */
    method ReplayDrop(ty: ObjectType, objs: seq<Node>)
      modifies this
      ensures Snapshot() == R.ApplyDrop(old(Snapshot()), ty, objs)
    {
      match ty
      case TableObject => tables := DeleteKeys(tables, objs, R.AsList);
      case ViewObject => views := DeleteKeys(views, objs, R.AsList);
      case TypeObject => types := DeleteKeys(types, objs, R.AsTypeName);
      case DomainObject => types := DeleteKeys(types, objs, R.AsTypeName);
      case OtherObject =>
    }

    /** One statement, dispatched on its kind; false when the program would crash on it. */
    method ReplayStmt(st: Stmt) returns (ok: bool)
      modifies this
      ensures ok <==> R.ApplyStmt(old(Snapshot()), st).Some?
      ensures ok ==> Snapshot() == R.ApplyStmt(old(Snapshot()), st).value
    {
      ok := true;
      match st
      case CreateStmt(rel, elts) => ReplayCreateTable(rel, elts);
      case AlterTableStmt(rel, cmds) => ReplayAlterTable(rel, cmds);
      case ViewStmt(rv, q) => ReplayView(rv, q);
      case CompositeTypeStmt(rv, elts) => ReplayComposite(rv, elts);
      case CreateEnumStmt(names, vals) => ok := ReplayEnum(names, vals);
      case CreateDomainStmt(names, base, elts, clause) => ok := ReplayDomain(names, base, elts, clause);
      case DropStmt(ty, objs) => ReplayDrop(ty, objs);
      case OtherStmt =>
    }

    /** The statements of one file in order, stopping at a crash. */
    method ReplayStmts(sts: seq<Stmt>) returns (ok: bool)
      modifies this
      ensures ok <==> R.ApplyStmts(old(Snapshot()), sts).Some?
      ensures ok ==> Snapshot() == R.ApplyStmts(old(Snapshot()), sts).value
    {
      ghost var s0 := Snapshot();
      for i := 0 to |sts|
        invariant R.ApplyStmts(s0, sts[..i]) == Some(Snapshot())
      {
        R.ApplyStmtsStep(s0, sts, i);
        ok := ReplayStmt(sts[i]);
        if !ok {
          assert R.ApplyStmts(s0, sts[..i + 1]) == None;
          R.ApplyStmtsNoneAbsorbs(s0, sts[..i + 1], sts[i + 1..]);
          assert sts[..i + 1] + sts[i + 1..] == sts;
          return;
        }
      }
      assert sts[..|sts|] == sts;
      ok := true;
    }
  }
}
