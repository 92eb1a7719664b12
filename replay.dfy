/**
 * The meaning of replaying DDL statements, as pure functions over a snapshot of the four
 * shared collections (tables, table-level foreign keys, views, custom types). The class in
 * module Schema performs the same replay in place and is proved equal to these functions.
 */
module Replay {
  import opened Wrappers
  import opened Text
  import opened Ast
  import opened Constraints
  import opened Model

  /** The cumulative schema: three keyed collections and the list of table-level foreign keys. */
  datatype Snapshot = Snapshot(
    tables: map<string, Table>,
    fks: seq<FK>,
    views: map<string, View>,
    types: map<string, CustomType>)

  /** The schema before any statement. */
  const Empty := Snapshot(map[], [], map[], map[])

  /**
   * The table at Key(s, t) and the map that holds it: an existing table is kept as it is,
   * otherwise a new table without columns is inserted. No other key changes.
   */
  function EnsureTable(tables: map<string, Table>, s: string, t: string): (r: (map<string, Table>, Table))
    ensures r.0.Keys == tables.Keys + {Key(s, t)}
    ensures r.0[Key(s, t)] == r.1
    ensures forall k :: k in tables && k != Key(s, t) ==> r.0[k] == tables[k]
    ensures Key(s, t) in tables ==> r.0 == tables && r.1 == tables[Key(s, t)]
    ensures Key(s, t) !in tables ==> r.1 == Table(s, t, [], [])
  {
    var k := Key(s, t);
    if k in tables then (tables, tables[k]) else (tables[k := Table(s, t, [], [])], Table(s, t, [], []))
  }

  /** The table a CREATE TABLE or ALTER TABLE is editing, with the global list of table-level foreign keys. */
  datatype Edit = Edit(table: Table, fks: seq<FK>)

  /** The column names of a column list, in order. */
  function Names(cols: seq<Column>): (r: seq<string>)
    ensures |r| == |cols| && forall i :: 0 <= i < |cols| ==> r[i] == cols[i].name
  {
    seq(|cols|, i requires 0 <= i < |cols| => cols[i].name)
  }

  /**
   * A table-level constraint: PRIMARY KEY and UNIQUE mark their key columns, FOREIGN KEY
   * appends to the global list, CHECK with an expression records its rendered text.
   */
  function ApplyConstraint(e: Edit, c: Constraint): (r: Edit)
    ensures r.table.schema == e.table.schema && r.table.name == e.table.name
    ensures Names(r.table.cols) == Names(e.table.cols)
    ensures c.contype == Foreign ==> r.fks == e.fks + [TableFK(c)]
    ensures c.contype != Foreign ==> r.fks == e.fks
    ensures c.contype == Check && c.rawExpr != Nil ==>
      r.table.constraints == e.table.constraints + [TableConstraint(c.conname, "CHECK", Render(c.rawExpr))]
    ensures !(c.contype == Check && c.rawExpr != Nil) ==> r.table.constraints == e.table.constraints
    ensures c.contype == Primary ==> r.table.cols == WithPrimaryKey(e.table.cols, NodeIdents(c.keys))
    ensures c.contype == Unique ==> r.table.cols == WithUnique(e.table.cols, NodeIdents(c.keys))
    ensures c.contype !in {Primary, Unique} ==> r.table.cols == e.table.cols
  {
    match c.contype
    case Primary => e.(table := e.table.(cols := WithPrimaryKey(e.table.cols, NodeIdents(c.keys))))
    case Unique => e.(table := e.table.(cols := WithUnique(e.table.cols, NodeIdents(c.keys))))
    case Foreign => e.(fks := e.fks + [TableFK(c)])
    case Check =>
      if c.rawExpr != Nil then
        e.(table := e.table.(constraints := e.table.constraints + [TableConstraint(c.conname, "CHECK", Render(c.rawExpr))]))
      else e
    case _ => e
  }

  /** A column definition merged into the table being edited. */
  function ApplyColumnDef(e: Edit, cd: ColumnDef): (r: Edit)
    ensures r.fks == e.fks && r.table.constraints == e.table.constraints
    ensures r.table.schema == e.table.schema && r.table.name == e.table.name
    ensures r.table.cols == Upserted(e.table.cols, ColumnOf(cd))
    ensures HasColumn(r.table.cols, cd.colname)
  {
    var r := e.(table := e.table.(cols := Upserted(e.table.cols, ColumnOf(cd))));
    assert HasColumn(r.table.cols, cd.colname) by {
      if HasColumn(e.table.cols, cd.colname) {
        var i := IndexOf(e.table.cols, cd.colname).value;
        assert r.table.cols[i] in r.table.cols;
      } else {
        assert r.table.cols[|e.table.cols|] in r.table.cols;
      }
    }
    r
  }

  /** One element of a CREATE TABLE: a column definition or a table-level constraint. */
  function ApplyElement(e: Edit, elt: Element): (r: Edit)
    ensures r.table.schema == e.table.schema && r.table.name == e.table.name
    ensures e.fks <= r.fks
    ensures elt.ColumnDefElt? ==>
      r.table.cols == Upserted(e.table.cols, ColumnOf(elt.def)) && r.fks == e.fks && r.table.constraints == e.table.constraints
    ensures elt.ConstraintElt? ==> r == ApplyConstraint(e, elt.con)
    ensures elt.OtherElt? ==> r == e
  {
    match elt
    case ColumnDefElt(cd) => ApplyColumnDef(e, cd)
    case ConstraintElt(c) => ApplyConstraint(e, c)
    case OtherElt => e
  }

  /** The elements of a CREATE TABLE, in order. */
  function ApplyElements(e: Edit, elts: seq<Element>): (r: Edit)
    ensures r.table.schema == e.table.schema && r.table.name == e.table.name
    ensures e.fks <= r.fks
  {
    if elts == [] then e else ApplyElement(ApplyElements(e, elts[..|elts| - 1]), elts[|elts| - 1])
  }

  lemma ApplyElementsSnoc(e: Edit, elts: seq<Element>, i: nat)
    requires i < |elts|
    ensures ApplyElements(e, elts[..i + 1]) == ApplyElement(ApplyElements(e, elts[..i]), elts[i])
  {
    assert elts[..i + 1][..i] == elts[..i];
  }

  /** One ALTER TABLE command: ADD COLUMN, DROP COLUMN (when named) or ADD CONSTRAINT. */
  function ApplyCmd(e: Edit, cmd: AlterCmd): (r: Edit)
    ensures r.table.schema == e.table.schema && r.table.name == e.table.name
    ensures e.fks <= r.fks
    ensures cmd.AlterTableCmd? && cmd.subtype == DropColumn && cmd.name != "" ==>
      r.table.cols == RemoveCol(e.table.cols, cmd.name) && !HasColumn(r.table.cols, cmd.name)
      && r.fks == e.fks && r.table.constraints == e.table.constraints
    ensures cmd.AlterTableCmd? && cmd.subtype == AddColumn && cmd.def.ColumnDefElt? ==>
      r.table.cols == Upserted(e.table.cols, ColumnOf(cmd.def.def)) && r.fks == e.fks && r.table.constraints == e.table.constraints
    ensures cmd.AlterTableCmd? && cmd.subtype == AddConstraint && cmd.def.ConstraintElt? ==> r == ApplyConstraint(e, cmd.def.con)
    ensures (cmd.NotACmd? || cmd.subtype == OtherAlter || (cmd.subtype == DropColumn && cmd.name == "")
             || (cmd.subtype == AddColumn && !cmd.def.ColumnDefElt?)
             || (cmd.subtype == AddConstraint && !cmd.def.ConstraintElt?)) ==> r == e
  {
    if cmd.NotACmd? then e
    else match cmd.subtype
      case AddColumn => if cmd.def.ColumnDefElt? then ApplyColumnDef(e, cmd.def.def) else e
      case DropColumn => if cmd.name != "" then e.(table := e.table.(cols := RemoveCol(e.table.cols, cmd.name))) else e
      case AddConstraint => if cmd.def.ConstraintElt? then ApplyConstraint(e, cmd.def.con) else e
      case OtherAlter => e
  }

  /** The commands of an ALTER TABLE, in order. */
  function ApplyCmds(e: Edit, cmds: seq<AlterCmd>): (r: Edit)
    ensures r.table.schema == e.table.schema && r.table.name == e.table.name
    ensures e.fks <= r.fks
  {
    if cmds == [] then e else ApplyCmd(ApplyCmds(e, cmds[..|cmds| - 1]), cmds[|cmds| - 1])
  }

  /** Stores the edited table at key `k` and the grown foreign-key list. */
  function StoreEdit(s: Snapshot, k: string, e: Edit): (r: Snapshot)
    ensures r.views == s.views && r.types == s.types && r.fks == e.fks
    ensures r.tables.Keys == s.tables.Keys + {k} && r.tables[k] == e.table
    ensures forall k' :: k' in s.tables && k' != k ==> r.tables[k'] == s.tables[k']
  {
    s.(tables := s.tables[k := e.table], fks := e.fks)
  }

  /** CREATE TABLE: skipped without a table name, else its elements edit the ensured table. */
  function ApplyCreateTable(s: Snapshot, rel: Option<RangeVar>, elts: seq<Element>): (r: Snapshot)
    ensures RelnameOf(rel) == "" ==> r == s
    ensures RelnameOf(rel) != "" ==> r.tables.Keys == s.tables.Keys + {Key(SchemaOf(rel), RelnameOf(rel))}
    ensures r.tables.Keys >= s.tables.Keys && s.fks <= r.fks && r.views == s.views && r.types == s.types
    ensures forall k :: k in s.tables && k != Key(SchemaOf(rel), RelnameOf(rel)) ==> r.tables[k] == s.tables[k]
  {
    var sch, tn := SchemaOf(rel), RelnameOf(rel);
    if tn == "" then s
    else StoreEdit(s, Key(sch, tn), ApplyElements(Edit(EnsureTable(s.tables, sch, tn).1, s.fks), elts))
  }

  /** ALTER TABLE: skipped without a table name, else its commands edit the ensured table. */
  function ApplyAlterTable(s: Snapshot, rel: Option<RangeVar>, cmds: seq<AlterCmd>): (r: Snapshot)
    ensures RelnameOf(rel) == "" ==> r == s
    ensures RelnameOf(rel) != "" ==> r.tables.Keys == s.tables.Keys + {Key(SchemaOf(rel), RelnameOf(rel))}
    ensures r.tables.Keys >= s.tables.Keys && s.fks <= r.fks && r.views == s.views && r.types == s.types
    ensures forall k :: k in s.tables && k != Key(SchemaOf(rel), RelnameOf(rel)) ==> r.tables[k] == s.tables[k]
  {
    var sch, tn := SchemaOf(rel), RelnameOf(rel);
    if tn == "" then s
    else StoreEdit(s, Key(sch, tn), ApplyCmds(Edit(EnsureTable(s.tables, sch, tn).1, s.fks), cmds))
  }

  /** CREATE VIEW: a named view replaces any view at its key; its columns come from the SELECT list. */
  function ApplyView(s: Snapshot, rv: Option<RangeVar>, q: Query): (r: Snapshot)
    ensures RelnameOf(rv) == "" ==> r == s
    ensures RelnameOf(rv) != "" ==> r.views == s.views[Key(SchemaOf(rv), RelnameOf(rv)) := View(SchemaOf(rv), RelnameOf(rv), ViewColumns(q))]
    ensures r.tables == s.tables && r.fks == s.fks && r.types == s.types
  {
    var sch, vn := SchemaOf(rv), RelnameOf(rv);
    if vn == "" then s else s.(views := s.views[Key(sch, vn) := View(sch, vn, ViewColumns(q))])
  }

  /** The field a column definition of a composite type gives: name and type text, no flags. */
  function CompositeField(cd: ColumnDef): (c: Column)
    ensures c.name == cd.colname && c.typ == TypeText(cd.typeName)
    ensures !c.primaryKey && !c.unique && c.foreignKey.None?
  {
    Column(cd.colname, TypeText(cd.typeName), false, false, None)
  }

  /** The fields of a composite type: one per column definition, constraints ignored. */
  function CompositeCols(elts: seq<Element>): (r: seq<Column>)
    ensures |r| <= |elts|
    ensures forall c :: c in r ==> !c.primaryKey && !c.unique && c.foreignKey.None?
    ensures forall i :: 0 <= i < |elts| && elts[i].ColumnDefElt? ==> CompositeField(elts[i].def) in r
    ensures forall c :: c in r ==> exists i :: 0 <= i < |elts| && elts[i].ColumnDefElt? && c == CompositeField(elts[i].def)
  {
    if elts == [] then []
    else
      var rest := CompositeCols(elts[..|elts| - 1]);
      var elt := elts[|elts| - 1];
      assert forall i :: 0 <= i < |elts| - 1 ==> elts[..|elts| - 1][i] == elts[i];
      if elt.ColumnDefElt? then rest + [CompositeField(elt.def)] else rest
  }

  /** Fields are collected element by element, in order. */
  lemma {:induction false} CompositeColsAppend(a: seq<Element>, b: seq<Element>)
    ensures CompositeCols(a + b) == CompositeCols(a) + CompositeCols(b)
    decreases |b|
  {
    if b == [] {
      assert a + b == a;
    } else {
      var b' := b[..|b| - 1];
      assert (a + b)[..|a + b| - 1] == a + b';
      CompositeColsAppend(a, b');
    }
  }

  /** A column definition gives its field; any other element gives none. */
  lemma CompositeColsOne(elt: Element)
    ensures CompositeCols([elt]) == if elt.ColumnDefElt? then [CompositeField(elt.def)] else []
  {
    assert [elt][..0] == [];
  }

  /** A custom type with only the fields every kind shares. */
  function NewType(sch: string, name: string, kind: TypeKind): CustomType
  {
    CustomType(sch, name, kind, [], "", "", false, "", [])
  }

  /** CREATE TYPE ... AS (...): a named composite type replaces any type at its key. */
  function ApplyComposite(s: Snapshot, rv: Option<RangeVar>, elts: seq<Element>): (r: Snapshot)
    ensures RelnameOf(rv) == "" ==> r == s
    ensures RelnameOf(rv) != "" ==>
      r.types == s.types[Key(SchemaOf(rv), RelnameOf(rv)) :=
        CustomType(SchemaOf(rv), RelnameOf(rv), CompositeKind, [], "", "", false, "", CompositeCols(elts))]
    ensures r.tables == s.tables && r.fks == s.fks && r.views == s.views
  {
    var sch, tn := SchemaOf(rv), RelnameOf(rv);
    if tn == "" then s
    else s.(types := s.types[Key(sch, tn) := NewType(sch, tn, CompositeKind).(cols := CompositeCols(elts))])
  }

  /**
   * CREATE TYPE ... AS ENUM: the values are the string nodes of the value list. None when
   * the name list is non-empty but holds no string node: the source indexes the empty
   * identifier list and the program crashes.
   */
  function ApplyEnum(s: Snapshot, names: seq<Node>, vals: seq<Node>): (r: Option<Snapshot>)
    ensures r.None? <==> names != [] && NodeIdents(names) == []
    ensures names == [] ==> r == Some(s)
    ensures r.Some? && names != [] ==>
      var (sch, tn) := QualifiedName(NodeIdents(names));
      r.value.types == s.types[Key(sch, tn) := CustomType(sch, tn, EnumKind, NodeIdents(vals), "", "", false, "", [])]
    ensures r.Some? ==> r.value.tables == s.tables && r.value.fks == s.fks && r.value.views == s.views
  {
    if names == [] then Some(s)
    else
      var ids := NodeIdents(names);
      if ids == [] then None
      else
        var (sch, tn) := QualifiedName(ids);
        Some(s.(types := s.types[Key(sch, tn) := NewType(sch, tn, EnumKind).(values := NodeIdents(vals))]))
  }

  /** The rendered text of the last CHECK constraint with an expression, "" when there is none. */
  function DomainCheck(elts: seq<Element>): (r: string)
    ensures (forall i :: 0 <= i < |elts| ==> !(elts[i].ConstraintElt? && elts[i].con.contype == Check && elts[i].con.rawExpr != Nil)) ==> r == ""
    ensures r != "" ==> exists i :: 0 <= i < |elts| && elts[i].ConstraintElt? && r == Render(elts[i].con.rawExpr)
  {
    if elts == [] then ""
    else
      var elt := elts[|elts| - 1];
      if elt.ConstraintElt? && elt.con.contype == Check && elt.con.rawExpr != Nil then Render(elt.con.rawExpr)
      else
        assert forall i :: 0 <= i < |elts| - 1 ==> elts[..|elts| - 1][i] == elts[i];
        DomainCheck(elts[..|elts| - 1])
  }

  /** A domain element that is a NOT NULL constraint. */
  predicate IsNotNull(elt: Element)
  {
    elt.ConstraintElt? && elt.con.contype == NotNull
  }

  /** Some constraint of the domain is NOT NULL. */
  predicate DomainNotNull(elts: seq<Element>)
  {
    exists i :: 0 <= i < |elts| && IsNotNull(elts[i])
  }

  lemma DomainCheckSnoc(elts: seq<Element>, i: nat)
    requires i < |elts|
    ensures DomainCheck(elts[..i + 1]) ==
      if elts[i].ConstraintElt? && elts[i].con.contype == Check && elts[i].con.rawExpr != Nil
      then Render(elts[i].con.rawExpr) else DomainCheck(elts[..i])
  {
    assert elts[..i + 1][..i] == elts[..i];
  }

  lemma DomainNotNullSnoc(elts: seq<Element>, i: nat)
    requires i < |elts|
    ensures DomainNotNull(elts[..i + 1]) <==> DomainNotNull(elts[..i]) || IsNotNull(elts[i])
  {
    var a, b := elts[..i], elts[..i + 1];
    assert forall j :: 0 <= j < i ==> a[j] == b[j];
    assert b[i] == elts[i];
  }

  /** The collation of a domain: its name parts joined with ".", "" without a non-empty clause. */
  function Collation(clause: Option<seq<Node>>): (r: string)
    ensures clause.None? || clause.value == [] ==> r == ""
    ensures clause.Some? && clause.value != [] ==> r == Join(NodeIdents(clause.value), ".")
  {
    if clause.Some? && |clause.value| > 0 then Join(NodeIdents(clause.value), ".") else ""
  }

  /** CREATE DOMAIN: as for enums, None is the crash on a name list without a string node. */
  function ApplyDomain(s: Snapshot, names: seq<Node>, base: Option<TypeName>, elts: seq<Element>, clause: Option<seq<Node>>): (r: Option<Snapshot>)
    ensures r.None? <==> names != [] && NodeIdents(names) == []
    ensures names == [] ==> r == Some(s)
    ensures r.Some? && names != [] ==>
      var (sch, dn) := QualifiedName(NodeIdents(names));
      r.value.types == s.types[Key(sch, dn) :=
        CustomType(sch, dn, DomainKind, [], TypeText(base), DomainCheck(elts), DomainNotNull(elts), Collation(clause), [])]
    ensures r.Some? ==> r.value.tables == s.tables && r.value.fks == s.fks && r.value.views == s.views
  {
    if names == [] then Some(s)
    else
      var ids := NodeIdents(names);
      if ids == [] then None
      else
        var (sch, dn) := QualifiedName(ids);
        var ct := NewType(sch, dn, DomainKind).(baseType := TypeText(base), check := DomainCheck(elts),
                    notNull := DomainNotNull(elts), collation := Collation(clause));
        Some(s.(types := s.types[Key(sch, dn) := ct]))
  }

  /**
   * How the name of a DROP object is read. `AsList` reads a List of name parts, which is how
   * the program reads the objects of every DROP. `AsTypeName` reads the name parts of a type
   * name, which is what the objects of DROP TYPE and DROP DOMAIN are.
   */
  datatype NameReading = AsList | AsTypeName

  /** The name parts of a DROP object under a reading; none when the object has another shape. */
  function NameParts(obj: Node, reading: NameReading): seq<Node>
  {
    match reading
    case AsList => if obj.List? then obj.items else []
    case AsTypeName => if obj.TypeNameNode? then obj.typeName.names else []
  }

  /** The key a DROP object names: its first two string parts as schema and name, or its only part. */
  function DropKey(obj: Node, reading: NameReading): (r: Option<string>)
    ensures reading == AsList ==> (r.Some? <==> obj.List? && NodeIdents(obj.items) != [])
    ensures reading == AsTypeName ==> (r.Some? <==> obj.TypeNameNode? && NodeIdents(obj.typeName.names) != [])
    ensures |NodeIdents(NameParts(obj, reading))| == 1 ==> r == Some(NodeIdents(NameParts(obj, reading))[0])
    ensures |NodeIdents(NameParts(obj, reading))| >= 2 ==>
      r == Some(Key(NodeIdents(NameParts(obj, reading))[0], NodeIdents(NameParts(obj, reading))[1]))
  {
    var ids := NodeIdents(NameParts(obj, reading));
    if ids != [] then
      var (sch, n) := QualifiedName(ids);
      Some(Key(sch, n))
    else None
  }

  /** The keys named by the objects of a DROP statement. */
  function DropKeys(objs: seq<Node>, reading: NameReading): (r: set<string>)
    ensures forall k :: k in r <==> exists i :: 0 <= i < |objs| && DropKey(objs[i], reading) == Some(k)
  {
    if objs == [] then {}
    else
      var p := objs[..|objs| - 1];
      var rest := DropKeys(p, reading);
      var d := DropKey(objs[|objs| - 1], reading);
      assert forall k :: k in rest <==> exists i :: 0 <= i < |objs| - 1 && DropKey(objs[i], reading) == Some(k) by {
        forall k ensures k in rest <==> exists i :: 0 <= i < |objs| - 1 && DropKey(objs[i], reading) == Some(k) {
          if k in rest {
            var i :| 0 <= i < |p| && DropKey(p[i], reading) == Some(k);
            assert p[i] == objs[i];
          }
          if exists i :: 0 <= i < |objs| - 1 && DropKey(objs[i], reading) == Some(k) {
            var i :| 0 <= i < |objs| - 1 && DropKey(objs[i], reading) == Some(k);
            assert p[i] == objs[i];
          }
        }
      }
      if d.Some? then rest + {d.value} else rest
  }

  /** The keys of one more object are those of the earlier objects and its own. */
  lemma DropKeysSnoc(objs: seq<Node>, reading: NameReading, i: nat)
    requires i < |objs|
    ensures DropKeys(objs[..i + 1], reading) ==
      DropKeys(objs[..i], reading) + (if DropKey(objs[i], reading).Some? then {DropKey(objs[i], reading).value} else {})
  {
    assert objs[..i + 1][..i] == objs[..i];
  }

  /**
   * As written, the DROP TYPE and DROP DOMAIN branches read each object as a List, the way
   * DROP TABLE does. The objects of those statements are type names, so no key is found and
   * the custom types are left as they were.
   */
  lemma AsWrittenTypeDropNoop(s: Snapshot, objs: seq<Node>)
    requires forall i :: 0 <= i < |objs| ==> objs[i].TypeNameNode?
    ensures DropKeys(objs, AsList) == {}
    ensures s.types - DropKeys(objs, AsList) == s.types
  {
    assert forall i :: 0 <= i < |objs| ==> DropKey(objs[i], AsList).None?;
  }

  /**
   * DROP TABLE / VIEW / TYPE / DOMAIN: exactly the named keys leave the matching collection.
   * Tables and views are named by lists; types and domains by their type names, read as
   * the program evidently intends rather than as a list.
   */
  function ApplyDrop(s: Snapshot, ty: ObjectType, objs: seq<Node>): (r: Snapshot)
    ensures ty == TableObject ==> r.tables.Keys == s.tables.Keys - DropKeys(objs, AsList)
    ensures ty == ViewObject ==> r.views.Keys == s.views.Keys - DropKeys(objs, AsList)
    ensures ty in {TypeObject, DomainObject} ==> r.types.Keys == s.types.Keys - DropKeys(objs, AsTypeName)
    ensures forall k :: k in r.tables ==> k in s.tables && r.tables[k] == s.tables[k]
    ensures forall k :: k in r.views ==> k in s.views && r.views[k] == s.views[k]
    ensures forall k :: k in r.types ==> k in s.types && r.types[k] == s.types[k]
    ensures ty != TableObject ==> r.tables == s.tables
    ensures ty != ViewObject ==> r.views == s.views
    ensures ty !in {TypeObject, DomainObject} ==> r.types == s.types
    ensures r.fks == s.fks
  {
    match ty
    case TableObject => s.(tables := s.tables - DropKeys(objs, AsList))
    case ViewObject => s.(views := s.views - DropKeys(objs, AsList))
    case TypeObject => s.(types := s.types - DropKeys(objs, AsTypeName))
    case DomainObject => s.(types := s.types - DropKeys(objs, AsTypeName))
    case OtherObject => s
  }

  /** The statements the program crashes on: an enum or domain name list without a string node. */
  predicate Crashes(st: Stmt)
  {
    || (st.CreateEnumStmt? && st.enumName != [] && NodeIdents(st.enumName) == [])
    || (st.CreateDomainStmt? && st.domainname != [] && NodeIdents(st.domainname) == [])
  }

  /**
   * Only an enum or a domain whose name is a non-empty list holding no string node crashes
   * the replay: every other statement, and every well-named enum or domain, is handled.
   */
  lemma CrashesExactly(st: Stmt)
    ensures Crashes(st) ==> st.CreateEnumStmt? || st.CreateDomainStmt?
    ensures st.CreateEnumStmt? ==>
      (Crashes(st) <==> st.enumName != [] && forall i :: 0 <= i < |st.enumName| ==> !st.enumName[i].Str?)
    ensures st.CreateDomainStmt? ==>
      (Crashes(st) <==> st.domainname != [] && forall i :: 0 <= i < |st.domainname| ==> !st.domainname[i].Str?)
  {
  }

  /** One statement; None when the program crashes on it. */
  function ApplyStmt(s: Snapshot, st: Stmt): (r: Option<Snapshot>)
    ensures r.None? <==> Crashes(st)
    ensures r.Some? ==> s.fks <= r.value.fks
    ensures r.Some? && !st.CreateStmt? && !st.AlterTableStmt? ==> r.value.fks == s.fks
  {
    match st
    case CreateStmt(rel, elts) => Some(ApplyCreateTable(s, rel, elts))
    case AlterTableStmt(rel, cmds) => Some(ApplyAlterTable(s, rel, cmds))
    case ViewStmt(rv, q) => Some(ApplyView(s, rv, q))
    case CompositeTypeStmt(rv, elts) => Some(ApplyComposite(s, rv, elts))
    case CreateEnumStmt(names, vals) => ApplyEnum(s, names, vals)
    case CreateDomainStmt(names, base, elts, clause) => ApplyDomain(s, names, base, elts, clause)
    case DropStmt(ty, objs) => Some(ApplyDrop(s, ty, objs))
    case OtherStmt => Some(s)
  }

  /** The statements of one file in order; a crash ends the replay. */
  function ApplyStmts(s: Snapshot, sts: seq<Stmt>): (r: Option<Snapshot>)
    ensures sts == [] ==> r == Some(s)
    ensures r.Some? ==> s.fks <= r.value.fks
  {
    if sts == [] then Some(s)
    else match ApplyStmts(s, sts[..|sts| - 1])
      case None => None
      case Some(s') => ApplyStmt(s', sts[|sts| - 1])
  }

  /** One more statement: it runs on the result of those before it, unless they crashed. */
  lemma ApplyStmtsStep(s: Snapshot, sts: seq<Stmt>, i: nat)
    requires i < |sts|
    ensures ApplyStmts(s, sts[..i + 1]) ==
      if ApplyStmts(s, sts[..i]).None? then None else ApplyStmt(ApplyStmts(s, sts[..i]).value, sts[i])
  {
    assert sts[..i + 1][..i] == sts[..i];
  }

  /** Two statements: the second runs on the result of the first. */
  lemma ApplyStmtsPair(s: Snapshot, a: Stmt, b: Stmt)
    ensures ApplyStmts(s, [a, b]) == if ApplyStmt(s, a).None? then None else ApplyStmt(ApplyStmt(s, a).value, b)
  {
    assert [a, b][..1] == [a] && [a][..0] == [];
    assert ApplyStmts(s, [a]) == ApplyStmt(s, a);
  }

  /** Once a statement crashes, no later statement runs. */
  lemma {:induction false} ApplyStmtsNoneAbsorbs(s: Snapshot, sts: seq<Stmt>, more: seq<Stmt>)
    requires ApplyStmts(s, sts).None?
    ensures ApplyStmts(s, sts + more).None?
    decreases |more|
  {
    if more == [] {
      assert sts + more == sts;
    } else {
      var all := sts + more;
      assert all[..|all| - 1] == sts + more[..|more| - 1];
      ApplyStmtsNoneAbsorbs(s, sts, more[..|more| - 1]);
    }
  }
}
