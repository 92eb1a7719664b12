/**
 * The records of the synthesized schema model and the pure helpers over them: qualified
 * keys and labels, type text, view-column inference, and the specification of the column
 * edits (upsert, remove, marking primary-key and unique flags).
 */
module Model {
  import opened Wrappers
  import opened Text
  import opened Ast

  /** A foreign key; SrcCols[i] refers to DstCols[i]. */
  datatype FK = FK(srcCols: seq<string>, dstSchema: string, dstTable: string, dstCols: seq<string>)

  datatype Column = Column(name: string, typ: string, primaryKey: bool, unique: bool, foreignKey: Option<FK>)

  /** A table-level constraint; only CHECK constraints are recorded. */
  datatype TableConstraint = TableConstraint(name: string, kind: string, description: string)

  datatype Table = Table(schema: string, name: string, cols: seq<Column>, constraints: seq<TableConstraint>)

  /** A view; every column has the placeholder type "unknown". */
  datatype View = View(schema: string, name: string, cols: seq<Column>)

  datatype TypeKind = EnumKind | DomainKind | CompositeKind

  /** An enum (values), a domain (base type, check, not-null, collation) or a composite type (cols). */
  datatype CustomType = CustomType(
    schema: string,
    name: string,
    kind: TypeKind,
    values: seq<string>,
    baseType: string,
    check: string,
    notNull: bool,
    collation: string,
    cols: seq<Column>)

  /** The map key of a (schema, name) pair: the bare name when the schema is empty. */
  function Key(s: string, t: string): (k: string)
    ensures s == "" ==> k == t
    ensures s != "" ==> k == s + "." + t
  {
    if s == "" then t else s + "." + t
  }

  /** For names without dots the key determines the schema and the name. */
  lemma KeyInjective(s1: string, t1: string, s2: string, t2: string)
    requires '.' !in s1 && '.' !in t1 && '.' !in s2 && '.' !in t2
    requires Key(s1, t1) == Key(s2, t2)
    ensures s1 == s2 && t1 == t2
  {
    var k := Key(s1, t1);
    if s1 != "" && s2 != "" {
      if |s1| < |s2| {
        DotAfter(s1, t1);
        assert false;
      } else if |s2| < |s1| {
        DotAfter(s2, t2);
        assert false;
      }
      assert s1 == k[..|s1|] && s2 == k[..|s2|];
      assert t1 == k[|s1| + 1..] && t2 == k[|s2| + 1..];
    }
  }

  /** The separator of a qualified key sits right after the schema. */
  lemma DotAfter(s: string, t: string)
    ensures (s + "." + t)[|s|] == '.'
  {
  }

  /** The display label of a table: unqualified for the empty or "public" schema, "" without a name. */
  function TableLabel(schema: string, name: string): (r: string)
    ensures name == "" <==> r == ""
    ensures name != "" && (schema == "" || schema == "public") ==> r == name
    ensures name != "" && schema != "" && schema != "public" ==> r == Key(schema, name)
  {
    if name == "" then ""
    else if schema == "" || schema == "public" then name
    else schema + "." + name
  }

  /**
   * Labels treat "public" as the default schema but keys do not: the same table written
   * with and without "public." gets two keys that share one label.
   */
  lemma PublicSchemaKeyMismatch(t: string)
    requires t != ""
    ensures Key("public", t) != Key("", t)
    ensures TableLabel("public", t) == TableLabel("", t)
  {
    assert |Key("public", t)| > |Key("", t)|;
  }

  /** (schema, name) from a dotted name list: two or more parts give schema then name. */
  function QualifiedName(names: seq<string>): (r: (string, string))
    requires |names| > 0
    ensures |names| == 1 ==> r == ("", names[0])
    ensures |names| > 1 ==> r == (names[0], names[1])
  {
    if |names| > 1 then (names[0], names[1]) else ("", names[0])
  }

  /** The integer type modifiers of a type, in decimal, in order; other modifiers are skipped. */
  function IntMods(mods: seq<Node>): (r: seq<string>)
    ensures |r| <= |mods|
    ensures r == [] <==> forall j :: 0 <= j < |mods| ==> !(mods[j].AConst? && mods[j].val.IVal?)
  {
    if mods == [] then []
    else
      var rest := IntMods(mods[..|mods| - 1]);
      var m := mods[|mods| - 1];
      assert forall j :: 0 <= j < |mods| - 1 ==> mods[..|mods| - 1][j] == mods[j];
      if m.AConst? && m.val.IVal? then rest + [FormatInt(m.val.ival as int)] else rest
  }

  /** The text of one modifier: its decimal text when it is an integer constant, nothing otherwise. */
  function ModText(m: Node): seq<string>
  {
    if m.AConst? && m.val.IVal? then [FormatInt(m.val.ival as int)] else []
  }

  /** Modifiers are rendered one by one, in order: each integer constant gives its decimal text. */
  lemma {:induction false} IntModsAppend(a: seq<Node>, b: seq<Node>)
    ensures IntMods(a + b) == IntMods(a) + IntMods(b)
    ensures forall m :: IntMods([m]) == ModText(m)
    decreases |b|
  {
    forall m ensures IntMods([m]) == ModText(m) {
      assert [m][..0] == [];
    }
    if b == [] {
      assert a + b == a;
    } else {
      var b' := b[..|b| - 1];
      assert (a + b)[..|a + b| - 1] == a + b';
      IntModsAppend(a, b');
    }
  }

  /** The modifier part of a type's text: "(m1, m2)", or nothing without integer modifiers. */
  function ModsText(mods: seq<string>): (r: string)
    ensures mods == [] <==> r == ""
    ensures mods != [] ==> r == "(" + Join(mods, ", ") + ")"
  {
    if mods == [] then "" else "(" + Join(mods, ", ") + ")"
  }

  /**
   * The text of a type: the dotted name, then "(m1, m2)" when it has integer modifiers, then
   * "[]" when it is an array; "" for no type at all.
   */
  function TypeText(tn: Option<TypeName>): (r: string)
    ensures tn.None? ==> r == ""
    ensures tn.Some? ==>
      r == Join(NodeIdents(tn.value.names), ".") + ModsText(IntMods(tn.value.typmods)) + (if tn.value.arrayBounds != [] then "[]" else "")
  {
    if tn.None? then ""
    else
      var withMods := Join(NodeIdents(tn.value.names), ".") + ModsText(IntMods(tn.value.typmods));
      if |tn.value.arrayBounds| > 0 then withMods + "[]" else withMods
  }

  /** The inferred name of a SELECT-list entry: its alias, else the last part of a column reference, else a call's last name part. */
  function TargetName(t: Target): (r: string)
    ensures t.NotATarget? ==> r == ""
    ensures t.ResTarget? && t.alias != "" ==> r == t.alias
    ensures t.ResTarget? && t.alias == "" && t.val.ColumnRef? ==>
      r == (if |t.val.fields| > 0 && t.val.fields[|t.val.fields| - 1].Str? then t.val.fields[|t.val.fields| - 1].sval else "")
    ensures t.ResTarget? && t.alias == "" && t.val.FuncCall? ==>
      r == (if |t.val.funcname| > 0 && t.val.funcname[|t.val.funcname| - 1].Str? then t.val.funcname[|t.val.funcname| - 1].sval else "")
    ensures t.ResTarget? && t.alias == "" && !t.val.ColumnRef? && !t.val.FuncCall? ==> r == ""
  {
    if t.NotATarget? then ""
    else if t.alias != "" then t.alias
    else match t.val
      case ColumnRef(fields) =>
        if |fields| > 0 && fields[|fields| - 1].Str? then fields[|fields| - 1].sval else ""
      case FuncCall(fname, _) =>
        if |fname| > 0 && fname[|fname| - 1].Str? then fname[|fname| - 1].sval else ""
      case _ => ""
  }

  /** A view column of the given name; its type cannot be inferred from the query. */
  function ViewColumn(name: string): Column
  {
    Column(name, "unknown", false, false, None)
  }

  /** The columns of a view from the targets of its SELECT list; targets without a name are skipped. */
  function TargetColumns(ts: seq<Target>): (r: seq<Column>)
    ensures |r| <= |ts|
    ensures forall c :: c in r ==> c.name != "" && c == ViewColumn(c.name)
    ensures forall i :: 0 <= i < |ts| && TargetName(ts[i]) != "" ==> ViewColumn(TargetName(ts[i])) in r
    ensures forall c :: c in r ==> exists i :: 0 <= i < |ts| && TargetName(ts[i]) == c.name
  {
    if ts == [] then []
    else
      var rest := TargetColumns(ts[..|ts| - 1]);
      var n := TargetName(ts[|ts| - 1]);
      assert forall i :: 0 <= i < |ts| - 1 ==> ts[..|ts| - 1][i] == ts[i];
      if n != "" then rest + [ViewColumn(n)] else rest
  }

  /** Targets are turned into columns one by one, in order; an unnamed target gives none. */
  lemma {:induction false} TargetColumnsAppend(a: seq<Target>, b: seq<Target>)
    ensures TargetColumns(a + b) == TargetColumns(a) + TargetColumns(b)
    decreases |b|
  {
    if b == [] {
      assert a + b == a;
    } else {
      var b' := b[..|b| - 1];
      assert (a + b)[..|a + b| - 1] == a + b';
      TargetColumnsAppend(a, b');
    }
  }

  /** One target gives one column named after it, or none when it has no name. */
  lemma TargetColumnsOne(t: Target)
    ensures TargetColumns([t]) == if TargetName(t) != "" then [ViewColumn(TargetName(t))] else []
  {
    assert [t][..0] == [];
  }

  /** The columns of a view from its query; nothing unless it is a plain SELECT. */
  function ViewColumns(q: Query): (r: seq<Column>)
    ensures q.OtherQuery? ==> r == []
    ensures forall c :: c in r ==> c.typ == "unknown" && c.name != ""
    ensures q.SelectStmt? ==> forall c :: c in r ==> exists i :: 0 <= i < |q.targetList| && TargetName(q.targetList[i]) == c.name
    ensures q.SelectStmt? ==> forall i :: 0 <= i < |q.targetList| && TargetName(q.targetList[i]) != "" ==>
      ViewColumn(TargetName(q.targetList[i])) in r
  {
    if q.SelectStmt? then TargetColumns(q.targetList) else []
  }

  /** The column names of a table are pairwise distinct. */
  ghost predicate UniqueNames(cols: seq<Column>)
  {
    forall i, j :: 0 <= i < j < |cols| ==> cols[i].name != cols[j].name
  }

  predicate HasColumn(cols: seq<Column>, name: string)
  {
    exists c :: c in cols && c.name == name
  }

  /** Every wanted name is a column name; vacuously true for no names. */
  predicate ContainsAll(cols: seq<Column>, want: seq<string>)
  {
    forall w :: w in want ==> HasColumn(cols, w)
  }

  /** The columns other than `name`, in their original order. */
  function RemoveCol(cols: seq<Column>, name: string): (r: seq<Column>)
    ensures |r| <= |cols|
    ensures forall c :: c in r <==> c in cols && c.name != name
    ensures !HasColumn(cols, name) ==> r == cols
  {
    if cols == [] then []
    else
      var rest := RemoveCol(cols[..|cols| - 1], name);
      var c := cols[|cols| - 1];
      assert cols == cols[..|cols| - 1] + [c];
      if c.name != name then rest + [c] else rest
  }

  /** RemoveCol distributes over concatenation. */
  lemma {:induction false} RemoveColAppend(a: seq<Column>, b: seq<Column>, name: string)
    ensures RemoveCol(a + b, name) == RemoveCol(a, name) + RemoveCol(b, name)
    decreases |b|
  {
    if b == [] {
      assert a + b == a;
    } else {
      var b' := b[..|b| - 1];
      assert (a + b)[..|a + b| - 1] == a + b';
      RemoveColAppend(a, b', name);
    }
  }

  /** A slice of a table with distinct names that avoids position `i` has no column named like `cols[i]`. */
  lemma NoOtherWithName(cols: seq<Column>, i: nat, lo: nat, hi: nat)
    requires UniqueNames(cols)
    requires i < |cols| && lo <= hi <= |cols| && (i < lo || hi <= i)
    ensures !HasColumn(cols[lo..hi], cols[i].name)
  {
    forall c | c in cols[lo..hi] ensures c.name != cols[i].name {
      var j :| 0 <= j < hi - lo && cols[lo..hi][j] == c;
      assert c == cols[lo + j];
    }
  }

  /** In a table with distinct column names, removing a column cuts out exactly its position. */
  lemma RemoveColAt(cols: seq<Column>, name: string, i: nat)
    requires UniqueNames(cols)
    requires i < |cols| && cols[i].name == name
    ensures RemoveCol(cols, name) == cols[..i] + cols[i + 1..]
  {
    var pre, post := cols[..i], cols[i + 1..];
    assert cols == pre + [cols[i]] + post;
    NoOtherWithName(cols, i, 0, i);
    NoOtherWithName(cols, i, i + 1, |cols|);
    assert RemoveCol([cols[i]], name) == [] by {
      assert [cols[i]][..0] == [];
    }
    RemoveColAppend(pre + [cols[i]], post, name);
    RemoveColAppend(pre, [cols[i]], name);
  }

  /** Removing a column keeps the remaining names distinct. */
  lemma RemoveColUnique(cols: seq<Column>, name: string)
    requires UniqueNames(cols)
    ensures UniqueNames(RemoveCol(cols, name))
  {
    if i :| 0 <= i < |cols| && cols[i].name == name {
      RemoveColAt(cols, name, i);
    }
  }

  /** The first position of a column called `name`. */
  function IndexOf(cols: seq<Column>, name: string): (r: Option<nat>)
    ensures r.Some? ==> r.value < |cols| && cols[r.value].name == name
    ensures r.Some? ==> forall j :: 0 <= j < r.value ==> cols[j].name != name
    ensures r.None? <==> !HasColumn(cols, name)
  {
    if cols == [] then None
    else if cols[0].name == name then Some(0)
    else
      var r := IndexOf(cols[1..], name);
      assert forall c :: c in cols[1..] ==> c in cols;
      assert forall c :: c in cols ==> c == cols[0] || c in cols[1..];
      if r.Some? then Some(r.value + 1) else None
  }

  /**
   * A re-declaration merged into an existing column: flags are or-ed, the type and the
   * foreign key are replaced only by a non-empty new value.
   */
  function Merge(prev: Column, c: Column): (r: Column)
    ensures r.name == prev.name
    ensures r.primaryKey == (prev.primaryKey || c.primaryKey) && r.unique == (prev.unique || c.unique)
    ensures r.typ == (if c.typ != "" then c.typ else prev.typ)
    ensures r.foreignKey == (if c.foreignKey.Some? then c.foreignKey else prev.foreignKey)
  {
    prev.(typ := if c.typ != "" then c.typ else prev.typ,
          primaryKey := prev.primaryKey || c.primaryKey,
          unique := prev.unique || c.unique,
          foreignKey := if c.foreignKey.Some? then c.foreignKey else prev.foreignKey)
  }

  /**
   * A column declaration merged into a column list: appended when the name is new, else
   * merged into the first column of that name, every other column unchanged.
   */
  function Upserted(cols: seq<Column>, c: Column): (r: seq<Column>)
    ensures !HasColumn(cols, c.name) ==> r == cols + [c]
    ensures HasColumn(cols, c.name) ==> |r| == |cols|
    ensures HasColumn(cols, c.name) ==>
      var i := IndexOf(cols, c.name).value;
      r[i] == Merge(cols[i], c) && forall j :: 0 <= j < |cols| && j != i ==> r[j] == cols[j]
  {
    match IndexOf(cols, c.name)
    case Some(i) => cols[i := Merge(cols[i], c)]
    case None => cols + [c]
  }

  /** Upserting keeps column names distinct. */
  lemma UpsertedUnique(cols: seq<Column>, c: Column)
    requires UniqueNames(cols)
    ensures UniqueNames(Upserted(cols, c))
  {
    if !HasColumn(cols, c.name) {
      var r := Upserted(cols, c);
      forall i, j | 0 <= i < j < |r| ensures r[i].name != r[j].name {
        if j == |cols| { assert r[i] in cols; }
      }
    }
  }

  /** Lists whose names agree position by position have the same column names. */
  lemma SameNamesHas(a: seq<Column>, b: seq<Column>, n: string)
    requires |a| == |b| && forall i :: 0 <= i < |a| ==> a[i].name == b[i].name
    ensures HasColumn(a, n) <==> HasColumn(b, n)
  {
    if HasColumn(a, n) {
      var c :| c in a && c.name == n;
      var i :| 0 <= i < |a| && a[i] == c;
      assert b[i] in b;
    }
    if HasColumn(b, n) {
      var c :| c in b && c.name == n;
      var i :| 0 <= i < |b| && b[i] == c;
      assert a[i] in a;
    }
  }

  /** After an upsert the column names are the old ones plus the declared one. */
  lemma UpsertedHas(cols: seq<Column>, c: Column, n: string)
    ensures HasColumn(Upserted(cols, c), n) <==> HasColumn(cols, n) || n == c.name
  {
    var r := Upserted(cols, c);
    if HasColumn(cols, c.name) {
      SameNamesHas(r, cols, n);
    } else {
      assert r[|cols|] in r;
      if HasColumn(r, n) && n != c.name {
        var d :| d in r && d.name == n;
        assert d in cols;
      }
      if HasColumn(cols, n) {
        var d :| d in cols && d.name == n;
        assert d in r;
      }
    }
  }

  /** The columns with the primary-key flag set on every column whose name is listed. */
  function WithPrimaryKey(cols: seq<Column>, names: seq<string>): (r: seq<Column>)
    ensures |r| == |cols|
    ensures forall i :: 0 <= i < |cols| ==>
      r[i] == (if cols[i].name in names then cols[i].(primaryKey := true) else cols[i])
  {
    seq(|cols|, i requires 0 <= i < |cols| => if cols[i].name in names then cols[i].(primaryKey := true) else cols[i])
  }

  /** The columns with the unique flag set on every column whose name is listed. */
  function WithUnique(cols: seq<Column>, names: seq<string>): (r: seq<Column>)
    ensures |r| == |cols|
    ensures forall i :: 0 <= i < |cols| ==>
      r[i] == (if cols[i].name in names then cols[i].(unique := true) else cols[i])
  {
    seq(|cols|, i requires 0 <= i < |cols| => if cols[i].name in names then cols[i].(unique := true) else cols[i])
  }

  /** Marking the names one at a time is marking them all at once. */
  lemma WithPrimaryKeySnoc(cols: seq<Column>, names: seq<string>, n: string)
    ensures WithPrimaryKey(WithPrimaryKey(cols, names), [n]) == WithPrimaryKey(cols, names + [n])
  {
  }

  lemma WithUniqueSnoc(cols: seq<Column>, names: seq<string>, n: string)
    ensures WithUnique(WithUnique(cols, names), [n]) == WithUnique(cols, names + [n])
  {
  }

  /** The destination (schema, table) of a foreign-key constraint; empty when it names none. */
  function PkTable(c: Constraint): (r: (string, string))
    ensures c.pktable.None? ==> r == ("", "")
    ensures c.pktable.Some? ==> r == (c.pktable.value.schemaname, c.pktable.value.relname)
  {
    if c.pktable.Some? then (c.pktable.value.schemaname, c.pktable.value.relname) else ("", "")
  }

  /** The foreign key of an inline REFERENCES on column `colname`: one source column. */
  function InlineFK(colname: string, c: Constraint): (fk: FK)
    ensures fk.srcCols == [colname] && fk.dstCols == NodeIdents(c.pkAttrs)
    ensures (fk.dstSchema, fk.dstTable) == PkTable(c)
  {
    FK([colname], PkTable(c).0, PkTable(c).1, NodeIdents(c.pkAttrs))
  }

  /** The foreign key of a table-level FOREIGN KEY constraint: parallel column lists. */
  function TableFK(c: Constraint): (fk: FK)
    ensures fk.srcCols == NodeIdents(c.fkAttrs) && fk.dstCols == NodeIdents(c.pkAttrs)
    ensures (fk.dstSchema, fk.dstTable) == PkTable(c)
  {
    FK(NodeIdents(c.fkAttrs), PkTable(c).0, PkTable(c).1, NodeIdents(c.pkAttrs))
  }

  /** The foreign key of the last inline REFERENCES constraint, if any. */
  function LastForeignKey(colname: string, cons: seq<Constraint>): (r: Option<FK>)
    ensures r.None? <==> forall i :: 0 <= i < |cons| ==> cons[i].contype != Foreign
    ensures r.Some? ==> exists i :: 0 <= i < |cons| && cons[i].contype == Foreign && r.value == InlineFK(colname, cons[i])
  {
    if cons == [] then None
    else if cons[|cons| - 1].contype == Foreign then Some(InlineFK(colname, cons[|cons| - 1]))
    else
      assert forall i :: 0 <= i < |cons| - 1 ==> cons[..|cons| - 1][i] == cons[i];
      LastForeignKey(colname, cons[..|cons| - 1])
  }

  /** One more constraint: a REFERENCES replaces the foreign key kept so far. */
  lemma LastForeignKeySnoc(colname: string, cons: seq<Constraint>, i: nat)
    requires i < |cons|
    ensures LastForeignKey(colname, cons[..i + 1])
      == if cons[i].contype == Foreign then Some(InlineFK(colname, cons[i])) else LastForeignKey(colname, cons[..i])
  {
    assert cons[..i + 1][..i] == cons[..i];
  }

  /** Some constraint of `cons` has kind `kind`. */
  predicate HasKind(cons: seq<Constraint>, kind: ConstrType)
  {
    exists i :: 0 <= i < |cons| && cons[i].contype == kind
  }

  lemma HasKindSnoc(cons: seq<Constraint>, i: nat, kind: ConstrType)
    requires i < |cons|
    ensures HasKind(cons[..i + 1], kind) <==> HasKind(cons[..i], kind) || cons[i].contype == kind
  {
    if HasKind(cons[..i + 1], kind) && cons[i].contype != kind {
      var j :| 0 <= j < i + 1 && cons[..i + 1][j].contype == kind;
      assert cons[..i][j] == cons[j];
    }
    if HasKind(cons[..i], kind) {
      var j :| 0 <= j < i && cons[..i][j].contype == kind;
      assert cons[..i + 1][j] == cons[j];
    }
    if cons[i].contype == kind {
      assert cons[..i + 1][i] == cons[i];
    }
  }

  /**
   * The column a column definition declares: its name and type text, primary key or unique
   * when any inline constraint says so, and the foreign key of its last REFERENCES.
   */
  function ColumnOf(cd: ColumnDef): (c: Column)
    ensures c.name == cd.colname && c.typ == TypeText(cd.typeName)
    ensures c.primaryKey <==> exists i :: 0 <= i < |cd.constraints| && cd.constraints[i].contype == Primary
    ensures c.unique <==> exists i :: 0 <= i < |cd.constraints| && cd.constraints[i].contype == Unique
    ensures c.foreignKey == LastForeignKey(cd.colname, cd.constraints)
  {
    Column(cd.colname, TypeText(cd.typeName),
      HasKind(cd.constraints, Primary), HasKind(cd.constraints, Unique),
      LastForeignKey(cd.colname, cd.constraints))
  }

  /** The column list after upserting each of `cs` in turn. */
  function UpsertAll(cols: seq<Column>, cs: seq<Column>): seq<Column>
  {
    if cs == [] then cols else Upserted(UpsertAll(cols, cs[..|cs| - 1]), cs[|cs| - 1])
  }

  /** The last non-empty type among the declarations, "" when there is none. */
  function LastNonEmptyType(cs: seq<Column>): string
  {
    if cs == [] then ""
    else if cs[|cs| - 1].typ != "" then cs[|cs| - 1].typ
    else LastNonEmptyType(cs[..|cs| - 1])
  }

  /** The last foreign key among the declarations, if any. */
  function LastFK(cs: seq<Column>): Option<FK>
  {
    if cs == [] then None
    else if cs[|cs| - 1].foreignKey.Some? then cs[|cs| - 1].foreignKey
    else LastFK(cs[..|cs| - 1])
  }

  /** Upserting a declaration of the last column, when it is the only one of its name, merges into it. */
  lemma UpsertAtEnd(cols: seq<Column>, last: Column, c: Column)
    requires !HasColumn(cols, c.name) && last.name == c.name
    ensures Upserted(cols + [last], c) == cols + [Merge(last, c)]
  {
    var r0 := cols + [last];
    assert r0[|cols|] in r0;
    var k := IndexOf(r0, c.name).value;
    assert k == |cols|;
  }

  /** Some declaration of `cs` sets the primary-key flag. */
  predicate AnyPrimaryKey(cs: seq<Column>)
  {
    exists i :: 0 <= i < |cs| && cs[i].primaryKey
  }

  /** Some declaration of `cs` sets the unique flag. */
  predicate AnyUnique(cs: seq<Column>)
  {
    exists i :: 0 <= i < |cs| && cs[i].unique
  }

  lemma AnyFlagSnoc(cs: seq<Column>)
    requires cs != []
    ensures AnyPrimaryKey(cs) <==> AnyPrimaryKey(cs[..|cs| - 1]) || cs[|cs| - 1].primaryKey
    ensures AnyUnique(cs) <==> AnyUnique(cs[..|cs| - 1]) || cs[|cs| - 1].unique
  {
    var pre := cs[..|cs| - 1];
    assert forall i :: 0 <= i < |pre| ==> pre[i] == cs[i];
    if AnyPrimaryKey(cs) && !cs[|cs| - 1].primaryKey {
      var i :| 0 <= i < |cs| && cs[i].primaryKey;
      assert pre[i].primaryKey;
    }
    if AnyUnique(cs) && !cs[|cs| - 1].unique {
      var i :| 0 <= i < |cs| && cs[i].unique;
      assert pre[i].unique;
    }
  }

  /**
   * Declaring one column several times yields one column at the end of the list whose flags
   * are set exactly when some declaration set them, whose type is the last non-empty type
   * declared and whose foreign key is the last one declared.
   */
  lemma {:induction false} UpsertMonotone(cols: seq<Column>, cs: seq<Column>, n: string)
    requires cs != []
    requires forall i :: 0 <= i < |cs| ==> cs[i].name == n
    requires !HasColumn(cols, n)
    ensures var r := UpsertAll(cols, cs);
      && |r| == |cols| + 1 && r[..|cols|] == cols && r[|cols|].name == n
      && (r[|cols|].primaryKey <==> AnyPrimaryKey(cs))
      && (r[|cols|].unique <==> AnyUnique(cs))
      && r[|cols|].typ == LastNonEmptyType(cs)
      && r[|cols|].foreignKey == LastFK(cs)
    decreases |cs|
  {
    var pre := cs[..|cs| - 1];
    var c := cs[|cs| - 1];
    AnyFlagSnoc(cs);
    if pre == [] {
      assert UpsertAll(cols, cs) == Upserted(cols, c);
    } else {
      assert forall i :: 0 <= i < |pre| ==> pre[i].name == n;
      UpsertMonotone(cols, pre, n);
      var r0 := UpsertAll(cols, pre);
      var last := r0[|cols|];
      assert r0 == cols + [last];
      UpsertAtEnd(cols, last, c);
    }
  }
}
