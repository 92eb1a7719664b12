/**
 * Properties of replay over whole statements and statement lists: the schema stays
 * well formed, table-level foreign keys only accumulate, dropping removes exactly what was
 * named, and CREATE TABLE statements on different tables can be replayed in either order.
 */
module Laws {
  import opened Wrappers
  import opened Ast
  import opened Model
  import opened Replay

  /** Every entry sits at the key of its own schema and name, and no table repeats a column name. */
  ghost predicate WellFormed(s: Snapshot)
  {
    && (forall k :: k in s.tables ==> k == Key(s.tables[k].schema, s.tables[k].name) && UniqueNames(s.tables[k].cols))
    && (forall k :: k in s.views ==> k == Key(s.views[k].schema, s.views[k].name))
    && (forall k :: k in s.types ==> k == Key(s.types[k].schema, s.types[k].name))
  }

  /** Column lists with the same names are alike in having distinct names. */
  lemma SameNamesUnique(a: seq<Column>, b: seq<Column>)
    requires Names(a) == Names(b) && UniqueNames(a)
    ensures UniqueNames(b)
  {
    forall i, j | 0 <= i < j < |b| ensures b[i].name != b[j].name {
      assert Names(a)[i] == Names(b)[i] && Names(a)[j] == Names(b)[j];
    }
  }

  lemma ElementKeepsUnique(e: Edit, elt: Element)
    requires UniqueNames(e.table.cols)
    ensures UniqueNames(ApplyElement(e, elt).table.cols)
  {
    match elt
    case ColumnDefElt(cd) => UpsertedUnique(e.table.cols, ColumnOf(cd));
    case ConstraintElt(c) => SameNamesUnique(e.table.cols, ApplyConstraint(e, c).table.cols);
    case OtherElt =>
  }

  /** The elements of a CREATE TABLE never give a table two columns of one name. */
  lemma {:induction false} ElementsKeepUnique(e: Edit, elts: seq<Element>)
    requires UniqueNames(e.table.cols)
    ensures UniqueNames(ApplyElements(e, elts).table.cols)
    decreases |elts|
  {
    if elts != [] {
      ElementsKeepUnique(e, elts[..|elts| - 1]);
      ElementKeepsUnique(ApplyElements(e, elts[..|elts| - 1]), elts[|elts| - 1]);
    }
  }

  lemma CmdKeepsUnique(e: Edit, cmd: AlterCmd)
    requires UniqueNames(e.table.cols)
    ensures UniqueNames(ApplyCmd(e, cmd).table.cols)
  {
    if cmd.AlterTableCmd? {
      match cmd.subtype
      case AddColumn =>
        if cmd.def.ColumnDefElt? { UpsertedUnique(e.table.cols, ColumnOf(cmd.def.def)); }
      case DropColumn =>
        if cmd.name != "" { RemoveColUnique(e.table.cols, cmd.name); }
      case AddConstraint =>
        if cmd.def.ConstraintElt? { SameNamesUnique(e.table.cols, ApplyConstraint(e, cmd.def.con).table.cols); }
      case OtherAlter =>
    }
  }

  /** The commands of an ALTER TABLE never give a table two columns of one name. */
  lemma {:induction false} CmdsKeepUnique(e: Edit, cmds: seq<AlterCmd>)
    requires UniqueNames(e.table.cols)
    ensures UniqueNames(ApplyCmds(e, cmds).table.cols)
    decreases |cmds|
  {
    if cmds != [] {
      CmdsKeepUnique(e, cmds[..|cmds| - 1]);
      CmdKeepsUnique(ApplyCmds(e, cmds[..|cmds| - 1]), cmds[|cmds| - 1]);
    }
  }

  /** The table a statement edits is well formed at its key. */
  lemma EnsuredWellFormed(s: Snapshot, sch: string, tn: string)
    requires WellFormed(s)
    ensures var t := EnsureTable(s.tables, sch, tn).1;
      Key(t.schema, t.name) == Key(sch, tn) && UniqueNames(t.cols)
  {
  }

  /** A CREATE TABLE keeps the schema well formed. */
  lemma CreateWellFormed(s: Snapshot, rel: Option<RangeVar>, elts: seq<Element>)
    requires WellFormed(s)
    ensures WellFormed(ApplyCreateTable(s, rel, elts))
  {
    if RelnameOf(rel) != "" {
      var t := EnsureTable(s.tables, SchemaOf(rel), RelnameOf(rel)).1;
      EnsuredWellFormed(s, SchemaOf(rel), RelnameOf(rel));
      ElementsKeepUnique(Edit(t, s.fks), elts);
    }
  }

  /** An ALTER TABLE keeps the schema well formed. */
  lemma AlterWellFormed(s: Snapshot, rel: Option<RangeVar>, cmds: seq<AlterCmd>)
    requires WellFormed(s)
    ensures WellFormed(ApplyAlterTable(s, rel, cmds))
  {
    if RelnameOf(rel) != "" {
      var t := EnsureTable(s.tables, SchemaOf(rel), RelnameOf(rel)).1;
      EnsuredWellFormed(s, SchemaOf(rel), RelnameOf(rel));
      CmdsKeepUnique(Edit(t, s.fks), cmds);
    }
  }

  /** Every statement that does not crash keeps the schema well formed. */
  lemma ApplyStmtWellFormed(s: Snapshot, st: Stmt)
    requires WellFormed(s)
    requires ApplyStmt(s, st).Some?
    ensures WellFormed(ApplyStmt(s, st).value)
  {
    match st
    case CreateStmt(rel, elts) => CreateWellFormed(s, rel, elts);
    case AlterTableStmt(rel, cmds) => AlterWellFormed(s, rel, cmds);
    case ViewStmt(_, _) =>
    case CompositeTypeStmt(_, _) =>
    case CreateEnumStmt(_, _) =>
    case CreateDomainStmt(_, _, _, _) =>
    case DropStmt(_, _) =>
    case OtherStmt =>
  }

  /**
   * Replaying a file from a well-formed schema either crashes or yields a well-formed
   * schema whose table-level foreign keys extend the earlier ones.
   */
  lemma {:induction false} ApplyStmtsWellFormed(s: Snapshot, sts: seq<Stmt>)
    requires WellFormed(s)
    ensures ApplyStmts(s, sts).Some? ==> WellFormed(ApplyStmts(s, sts).value) && s.fks <= ApplyStmts(s, sts).value.fks
    decreases |sts|
  {
    if sts != [] {
      ApplyStmtsWellFormed(s, sts[..|sts| - 1]);
      var p := ApplyStmts(s, sts[..|sts| - 1]);
      if p.Some? && ApplyStmt(p.value, sts[|sts| - 1]).Some? {
        ApplyStmtWellFormed(p.value, sts[|sts| - 1]);
      }
    }
  }

  /** A replay crashes exactly when one of its statements is one the replay crashes on. */
  lemma {:induction false} ApplyStmtsCrash(s: Snapshot, sts: seq<Stmt>)
    ensures ApplyStmts(s, sts).None? <==> exists i :: 0 <= i < |sts| && Crashes(sts[i])
    decreases |sts|
  {
    if sts != [] {
      var init := sts[..|sts| - 1];
      ApplyStmtsCrash(s, init);
      if exists i :: 0 <= i < |init| && Crashes(init[i]) {
        var i :| 0 <= i < |init| && Crashes(init[i]);
        assert sts[i] == init[i];
      }
      if exists i :: 0 <= i < |sts| && Crashes(sts[i]) {
        var i :| 0 <= i < |sts| && Crashes(sts[i]);
        if i < |init| { assert init[i] == sts[i]; }
      }
    }
  }

  /** The edited table of a CREATE TABLE does not depend on the foreign keys recorded so far. */
  lemma {:induction false} ElementsTableIndependent(t: Table, f1: seq<FK>, f2: seq<FK>, elts: seq<Element>)
    ensures ApplyElements(Edit(t, f1), elts).table == ApplyElements(Edit(t, f2), elts).table
    decreases |elts|
  {
    if elts != [] {
      ElementsTableIndependent(t, f1, f2, elts[..|elts| - 1]);
    }
  }

  /** No element of `elts` is a table-level FOREIGN KEY. */
  predicate NoTableFK(elts: seq<Element>)
  {
    forall i :: 0 <= i < |elts| ==> !(elts[i].ConstraintElt? && elts[i].con.contype == Foreign)
  }

  /** Without table-level FOREIGN KEY constraints the foreign-key list is left as it is. */
  lemma {:induction false} ElementsKeepFKs(e: Edit, elts: seq<Element>)
    requires NoTableFK(elts)
    ensures ApplyElements(e, elts).fks == e.fks
    decreases |elts|
  {
    if elts != [] {
      assert NoTableFK(elts[..|elts| - 1]) by {
        forall i | 0 <= i < |elts| - 1 ensures elts[..|elts| - 1][i] == elts[i] {}
      }
      ElementsKeepFKs(e, elts[..|elts| - 1]);
    }
  }

  /** The table a CREATE TABLE of `rel` stores, given the foreign keys recorded before it. */
  function Created(s: Snapshot, rel: Option<RangeVar>, elts: seq<Element>, fks: seq<FK>): Edit
  {
    ApplyElements(Edit(EnsureTable(s.tables, SchemaOf(rel), RelnameOf(rel)).1, fks), elts)
  }

  /** A CREATE TABLE on a snapshot whose entry at another key has changed builds the same table. */
  lemma CreatedElsewhere(s: Snapshot, s': Snapshot, rel: Option<RangeVar>, elts: seq<Element>, fks: seq<FK>)
    requires var k := Key(SchemaOf(rel), RelnameOf(rel));
      (k in s.tables <==> k in s'.tables) && (k in s.tables ==> s.tables[k] == s'.tables[k])
    ensures Created(s', rel, elts, fks).table == Created(s, rel, elts, s.fks).table
  {
    ElementsTableIndependent(EnsureTable(s.tables, SchemaOf(rel), RelnameOf(rel)).1, fks, s.fks, elts);
  }

  /** A named CREATE TABLE stores the table it builds at its key and changes no other table. */
  lemma CreateStores(s: Snapshot, rel: Option<RangeVar>, elts: seq<Element>)
    requires RelnameOf(rel) != ""
    ensures ApplyCreateTable(s, rel, elts).tables == s.tables[Key(SchemaOf(rel), RelnameOf(rel)) := Created(s, rel, elts, s.fks).table]
    ensures ApplyCreateTable(s, rel, elts).fks == Created(s, rel, elts, s.fks).fks
  {
  }

  /** The table an ALTER TABLE of `rel` stores: its commands applied to the ensured table. */
  function Altered(s: Snapshot, rel: Option<RangeVar>, cmds: seq<AlterCmd>): Edit
  {
    ApplyCmds(Edit(EnsureTable(s.tables, SchemaOf(rel), RelnameOf(rel)).1, s.fks), cmds)
  }

  /**
   * A named ALTER TABLE stores the table its commands leave at its key, starting from the
   * stored table or an empty one, and changes no other table.
   */
  lemma AlterStores(s: Snapshot, rel: Option<RangeVar>, cmds: seq<AlterCmd>)
    requires RelnameOf(rel) != ""
    ensures ApplyAlterTable(s, rel, cmds).tables == s.tables[Key(SchemaOf(rel), RelnameOf(rel)) := Altered(s, rel, cmds).table]
    ensures ApplyAlterTable(s, rel, cmds).fks == Altered(s, rel, cmds).fks
  {
  }

  /** A constraint renames, adds and removes no column. */
  lemma ConstraintKeepsColumns(e: Edit, c: Constraint, n: string)
    ensures HasColumn(ApplyConstraint(e, c).table.cols, n) <==> HasColumn(e.table.cols, n)
  {
    var r := ApplyConstraint(e, c).table.cols;
    assert |Names(r)| == |r| && |Names(e.table.cols)| == |e.table.cols|;
    forall i | 0 <= i < |r| ensures r[i].name == e.table.cols[i].name {
      assert Names(r)[i] == Names(e.table.cols)[i];
    }
    SameNamesHas(r, e.table.cols, n);
  }

  /** Does some element define a column of this name? */
  predicate DefinesColumn(elts: seq<Element>, n: string)
  {
    exists i :: 0 <= i < |elts| && elts[i].ColumnDefElt? && elts[i].def.colname == n
  }

  /** The column definitions of a list are those before its last element and that element's own. */
  lemma DefinesColumnSnoc(elts: seq<Element>, n: string)
    requires elts != []
    ensures DefinesColumn(elts, n) <==>
      DefinesColumn(elts[..|elts| - 1], n) || (elts[|elts| - 1].ColumnDefElt? && elts[|elts| - 1].def.colname == n)
  {
    var init := elts[..|elts| - 1];
    if DefinesColumn(init, n) {
      var i :| 0 <= i < |init| && init[i].ColumnDefElt? && init[i].def.colname == n;
      assert elts[i] == init[i];
    }
    if DefinesColumn(elts, n) {
      var i :| 0 <= i < |elts| && elts[i].ColumnDefElt? && elts[i].def.colname == n;
      if i < |init| { assert init[i] == elts[i]; }
    }
  }

  /** One element adds the column it defines and removes none. */
  lemma ElementColumns(e: Edit, elt: Element, n: string)
    ensures HasColumn(ApplyElement(e, elt).table.cols, n) <==>
      HasColumn(e.table.cols, n) || (elt.ColumnDefElt? && elt.def.colname == n)
  {
    match elt
    case ColumnDefElt(cd) => UpsertedHas(e.table.cols, ColumnOf(cd), n);
    case ConstraintElt(c) => ConstraintKeepsColumns(e, c, n);
    case OtherElt =>
  }

  /** After CREATE TABLE elements a table has a column exactly when it had it or an element defines it. */
  lemma {:induction false} ElementsColumns(e: Edit, elts: seq<Element>, n: string)
    ensures HasColumn(ApplyElements(e, elts).table.cols, n) <==> HasColumn(e.table.cols, n) || DefinesColumn(elts, n)
    decreases |elts|
  {
    if elts != [] {
      var init := elts[..|elts| - 1];
      ElementsColumns(e, init, n);
      ElementColumns(ApplyElements(e, init), elts[|elts| - 1], n);
      DefinesColumnSnoc(elts, n);
    }
  }

  /**
   * The last ALTER TABLE command that decides whether column `n` exists: Some(true) for an
   * ADD COLUMN of that name, Some(false) for a DROP COLUMN of it, None when no command does.
   */
  function LastColumnFate(cmds: seq<AlterCmd>, n: string): Option<bool>
  {
    if cmds == [] then None
    else
      var cmd := cmds[|cmds| - 1];
      if cmd.AlterTableCmd? && cmd.subtype == AddColumn && cmd.def.ColumnDefElt? && cmd.def.def.colname == n then Some(true)
      else if cmd.AlterTableCmd? && cmd.subtype == DropColumn && cmd.name != "" && cmd.name == n then Some(false)
      else LastColumnFate(cmds[..|cmds| - 1], n)
  }

  /** After ALTER TABLE commands a column exists as the last ADD or DROP of its name decides, else as before. */
  lemma {:induction false} CmdsColumns(e: Edit, cmds: seq<AlterCmd>, n: string)
    ensures HasColumn(ApplyCmds(e, cmds).table.cols, n) <==>
      match LastColumnFate(cmds, n)
      case Some(added) => added
      case None => HasColumn(e.table.cols, n)
    decreases |cmds|
  {
    if cmds != [] {
      var init, cmd := cmds[..|cmds| - 1], cmds[|cmds| - 1];
      var mid := ApplyCmds(e, init);
      CmdsColumns(e, init, n);
      if cmd.AlterTableCmd? {
        match cmd.subtype
        case AddColumn =>
          if cmd.def.ColumnDefElt? { UpsertedHas(mid.table.cols, ColumnOf(cmd.def.def), n); }
        case AddConstraint =>
          if cmd.def.ConstraintElt? { ConstraintKeepsColumns(mid, cmd.def.con, n); }
        case DropColumn =>
          if cmd.name != "" {
            var r := RemoveCol(mid.table.cols, cmd.name);
            if HasColumn(r, n) {
              var c :| c in r && c.name == n;
              assert c in mid.table.cols;
            }
            if n != cmd.name && HasColumn(mid.table.cols, n) {
              var c :| c in mid.table.cols && c.name == n;
              assert c in r;
            }
          }
        case OtherAlter =>
      }
    }
  }

  /** Both named CREATE TABLEs, in either order, store the same two tables. */
  lemma NamedCreatesCommute(s: Snapshot, r1: Option<RangeVar>, e1: seq<Element>, r2: Option<RangeVar>, e2: seq<Element>)
    requires RelnameOf(r1) != "" && RelnameOf(r2) != ""
    requires Key(SchemaOf(r1), RelnameOf(r1)) != Key(SchemaOf(r2), RelnameOf(r2))
    ensures var a := ApplyCreateTable(ApplyCreateTable(s, r1, e1), r2, e2);
      var b := ApplyCreateTable(ApplyCreateTable(s, r2, e2), r1, e1);
      a.tables == b.tables && a.views == b.views && a.types == b.types
  {
    var k1, k2 := Key(SchemaOf(r1), RelnameOf(r1)), Key(SchemaOf(r2), RelnameOf(r2));
    var t1, t2 := Created(s, r1, e1, s.fks).table, Created(s, r2, e2, s.fks).table;
    CreateTwice(s, r1, e1, r2, e2);
    CreateTwice(s, r2, e2, r1, e1);
    UpdatesCommute(s.tables, k1, t1, k2, t2);
  }

  lemma UpdatesCommute<K, V>(m: map<K, V>, k1: K, v1: V, k2: K, v2: V)
    requires k1 != k2
    ensures m[k1 := v1][k2 := v2] == m[k2 := v2][k1 := v1]
  {
  }

  /** Two named CREATE TABLEs with different keys store the tables each builds from the first state. */
  lemma CreateTwice(s: Snapshot, r1: Option<RangeVar>, e1: seq<Element>, r2: Option<RangeVar>, e2: seq<Element>)
    requires RelnameOf(r1) != "" && RelnameOf(r2) != ""
    requires Key(SchemaOf(r1), RelnameOf(r1)) != Key(SchemaOf(r2), RelnameOf(r2))
    ensures ApplyCreateTable(ApplyCreateTable(s, r1, e1), r2, e2).tables
      == s.tables[Key(SchemaOf(r1), RelnameOf(r1)) := Created(s, r1, e1, s.fks).table]
                 [Key(SchemaOf(r2), RelnameOf(r2)) := Created(s, r2, e2, s.fks).table]
  {
    var s1 := ApplyCreateTable(s, r1, e1);
    CreateStores(s, r1, e1);
    CreateStores(s1, r2, e2);
    CreatedElsewhere(s, s1, r2, e2, s1.fks);
  }

  /** Without table-level foreign keys, CREATE TABLE leaves the foreign-key list alone. */
  lemma CreateKeepsFKs(s: Snapshot, rel: Option<RangeVar>, elts: seq<Element>)
    requires NoTableFK(elts)
    ensures ApplyCreateTable(s, rel, elts).fks == s.fks
  {
    if RelnameOf(rel) != "" {
      ElementsKeepFKs(Edit(EnsureTable(s.tables, SchemaOf(rel), RelnameOf(rel)).1, s.fks), elts);
    }
  }

  /**
   * Two CREATE TABLE statements for different keys give the same tables, views and types in
   * either order, and the same foreign-key list when neither declares a table-level foreign key.
   */
  lemma CreateTablesCommute(s: Snapshot, r1: Option<RangeVar>, e1: seq<Element>, r2: Option<RangeVar>, e2: seq<Element>)
    requires Key(SchemaOf(r1), RelnameOf(r1)) != Key(SchemaOf(r2), RelnameOf(r2))
    ensures var a := ApplyCreateTable(ApplyCreateTable(s, r1, e1), r2, e2);
      var b := ApplyCreateTable(ApplyCreateTable(s, r2, e2), r1, e1);
      a.tables == b.tables && a.views == b.views && a.types == b.types
      && (NoTableFK(e1) && NoTableFK(e2) ==> a.fks == b.fks)
  {
    if RelnameOf(r1) != "" && RelnameOf(r2) != "" {
      NamedCreatesCommute(s, r1, e1, r2, e2);
    }
    if NoTableFK(e1) && NoTableFK(e2) {
      CreateKeepsFKs(s, r1, e1);
      CreateKeepsFKs(s, r2, e2);
      CreateKeepsFKs(ApplyCreateTable(s, r1, e1), r2, e2);
      CreateKeepsFKs(ApplyCreateTable(s, r2, e2), r1, e1);
    }
  }

  /** DROP TABLE of one unqualified name removes exactly that key. */
  lemma DropOneTable(s: Snapshot, t: string)
    requires t != ""
    ensures ApplyDrop(s, TableObject, [List([Str(t)])]) == s.(tables := s.tables - {t})
  {
    assert NodeIdents([Str(t)]) == [t] by {
      assert [Str(t)][..0] == [];
    }
    assert DropKeys([List([Str(t)])], AsList) == {t};
  }

  /** CREATE TABLE t followed by DROP TABLE t removes t and leaves every other entry as it was. */
  lemma CreateThenDrop(s: Snapshot, t: string, elts: seq<Element>)
    requires t != ""
    ensures var r := ApplyStmts(s, [CreateStmt(Some(RangeVar("", t)), elts), DropStmt(TableObject, [List([Str(t)])])]);
      && r.Some?
      && r.value.tables == s.tables - {t}
      && r.value.views == s.views && r.value.types == s.types
  {
    var create, drop := CreateStmt(Some(RangeVar("", t)), elts), DropStmt(TableObject, [List([Str(t)])]);
    ApplyStmtsPair(s, create, drop);
    ApplyCreateStmt(s, Some(RangeVar("", t)), elts);
    ApplyDropStmt(ApplyCreateTable(s, Some(RangeVar("", t)), elts), TableObject, [List([Str(t)])]);
    DropAfterCreate(s, t, elts);
  }

  /** The DROP TABLE of a freshly created table restores every other table, view and type. */
  lemma DropAfterCreate(s: Snapshot, t: string, elts: seq<Element>)
    requires t != ""
    ensures var r := ApplyDrop(ApplyCreateTable(s, Some(RangeVar("", t)), elts), TableObject, [List([Str(t)])]);
      r.tables == s.tables - {t} && r.views == s.views && r.types == s.types
  {
    var s1 := ApplyCreateTable(s, Some(RangeVar("", t)), elts);
    DropOneTable(s1, t);
    CreateStores(s, Some(RangeVar("", t)), elts);
    assert Key("", t) == t;
    assert s1.tables - {t} == s.tables - {t};
  }

  /**
   * CREATE TYPE t AS ENUM (...) followed by DROP TYPE t, as the program is written: the drop
   * reads the type-name object as a list, finds no key, and t stays among the custom types.
   */
  lemma AsWrittenDropTypeKeepsEnum(s: Snapshot, t: string, vals: seq<Node>)
    ensures var r1 := ApplyStmt(s, CreateEnumStmt([Str(t)], vals));
      && r1.Some? && t in r1.value.types
      && var kept := r1.value.types - DropKeys([TypeNameNode(TypeName([Str(t)], [], []))], AsList);
      && kept == r1.value.types && t in kept
  {
    var s1 := EnumOfOneName(s, t, vals);
    AsWrittenTypeDropNoop(s1, [TypeNameNode(TypeName([Str(t)], [], []))]);
  }

  /**
   * CREATE TYPE t AS ENUM (...) followed by DROP TYPE t, with the drop reading its object as a
   * type name: t is removed, every other type is restored, and the tables, views and foreign
   * keys are as they were.
   */
  lemma DropTypeAfterEnum(s: Snapshot, t: string, vals: seq<Node>)
    ensures var r := ApplyStmts(s, [CreateEnumStmt([Str(t)], vals), DropStmt(TypeObject, [TypeNameNode(TypeName([Str(t)], [], []))])]);
      && r.Some?
      && r.value.types == s.types - {t}
      && r.value.tables == s.tables && r.value.views == s.views && r.value.fks == s.fks
  {
    var obj := TypeNameNode(TypeName([Str(t)], [], []));
    var enum, drop := CreateEnumStmt([Str(t)], vals), DropStmt(TypeObject, [obj]);
    var s1 := EnumOfOneName(s, t, vals);
    var s2 := ApplyDrop(s1, TypeObject, [obj]);
    assert s2.types == s.types - {t} by {
      DropOneTypeName(t);
      assert s1.types - {t} == s.types - {t};
    }
    assert s2.tables == s.tables && s2.views == s.views && s2.fks == s.fks;
    assert ApplyStmts(s, [enum, drop]) == Some(s2) by {
      ApplyStmtsPair(s, enum, drop);
      ApplyDropStmt(s1, TypeObject, [obj]);
    }
  }

  /** CREATE TYPE t AS ENUM stores t and changes nothing but the custom types. */
  lemma EnumOfOneName(s: Snapshot, t: string, vals: seq<Node>) returns (s1: Snapshot)
    ensures ApplyStmt(s, CreateEnumStmt([Str(t)], vals)) == Some(s1)
    ensures t in s1.types && s1.types.Keys == s.types.Keys + {t}
    ensures forall k :: k in s.types && k != t ==> s1.types[k] == s.types[k]
    ensures s1.tables == s.tables && s1.views == s.views && s1.fks == s.fks
  {
    assert NodeIdents([Str(t)]) == [t] by {
      assert [Str(t)][..0] == [];
    }
    s1 := ApplyEnum(s, [Str(t)], vals).value;
  }

  /** A type-name object naming one unqualified type names exactly that key. */
  lemma DropOneTypeName(t: string)
    ensures DropKeys([TypeNameNode(TypeName([Str(t)], [], []))], AsTypeName) == {t}
  {
    assert NodeIdents([Str(t)]) == [t] by {
      assert [Str(t)][..0] == [];
    }
  }

  lemma ApplyCreateStmt(s: Snapshot, rel: Option<RangeVar>, elts: seq<Element>)
    ensures ApplyStmt(s, CreateStmt(rel, elts)) == Some(ApplyCreateTable(s, rel, elts))
  {
  }

  lemma ApplyDropStmt(s: Snapshot, ty: ObjectType, objs: seq<Node>)
    ensures ApplyStmt(s, DropStmt(ty, objs)) == Some(ApplyDrop(s, ty, objs))
  {
  }
}
