/**
 * A worked replay: `CREATE TABLE users (id int PRIMARY KEY)` followed by
 * `CREATE TABLE posts (user_id int REFERENCES users(id))` from an empty schema.
 */
module ReplayScenarios {
  import opened Wrappers
  import opened Text
  import opened Ast
  import opened Model
  import opened Replay

  /** The parser resolves `int` to the catalog type int4, a two-part name. */
  function IntType(): Option<TypeName> { Some(TypeName([Str("pg_catalog"), Str("int4")], [], [])) }
  function PkCon(): Constraint { Constraint(Primary, "", [], [], [], None, Nil) }
  function RefCon(): Constraint { Constraint(Foreign, "", [], [], [Str("id")], Some(RangeVar("", "users")), Nil) }
  function IdDef(): ColumnDef { ColumnDef("id", IntType(), [PkCon()]) }
  function UserIdDef(): ColumnDef { ColumnDef("user_id", IntType(), [RefCon()]) }
  function UsersStmt(): Stmt { CreateStmt(Some(RangeVar("", "users")), [ColumnDefElt(IdDef())]) }
  function PostsStmt(): Stmt { CreateStmt(Some(RangeVar("", "posts")), [ColumnDefElt(UserIdDef())]) }

  /** The foreign key recorded on posts.user_id. */
  function UsersFK(): FK { FK(["user_id"], "", "users", ["id"]) }

  lemma OneIdent(s: string)
    ensures NodeIdents([Str(s)]) == [s]
  {
    assert [Str(s)][..0] == [];
  }

  /** The identifiers of a two-part name. */
  lemma TwoIdents(a: string, b: string)
    ensures NodeIdents([Str(a), Str(b)]) == [a, b]
  {
    assert [Str(a), Str(b)][..1] == [Str(a)];
    OneIdent(a);
  }

  /** A plain two-part type name is its parts joined by a dot. */
  lemma TwoPartTypeText(t: Option<TypeName>, a: string, b: string)
    requires t == Some(TypeName([Str(a), Str(b)], [], []))
    ensures TypeText(t) == a + "." + b
  {
    TwoIdents(a, b);
    assert [a, b][..1] == [a];
    assert IntMods([]) == [];
    assert Join([a, b], ".") == a + "." + b;
  }

  lemma IntTypeText()
    ensures TypeText(IntType()) == "pg_catalog.int4"
  {
    TwoPartTypeText(IntType(), "pg_catalog", "int4");
  }

  /** A column definition's column, from the parts its constraints determine. */
  lemma ColumnParts(cd: ColumnDef, typ: string, pk: bool, uq: bool, fk: Option<FK>)
    requires TypeText(cd.typeName) == typ && LastForeignKey(cd.colname, cd.constraints) == fk
    requires HasKind(cd.constraints, Primary) == pk && HasKind(cd.constraints, Unique) == uq
    ensures ColumnOf(cd) == Column(cd.colname, typ, pk, uq, fk)
  {
  }

  /** A lone constraint of kind `k` makes `k` present and every other kind absent. */
  lemma LoneKind(c: Constraint, k: ConstrType)
    ensures HasKind([c], k) <==> c.contype == k
  {
    assert [c][0] == c;
  }

  /** `id int PRIMARY KEY` becomes an int primary-key column. */
  lemma IdColumn()
    ensures ColumnOf(IdDef()) == Column("id", "pg_catalog.int4", true, false, None)
  {
    IntTypeText();
    LoneKind(PkCon(), Primary);
    LoneKind(PkCon(), Unique);
    ColumnParts(IdDef(), "pg_catalog.int4", true, false, None);
  }

  lemma UsersReference()
    ensures LastForeignKey("user_id", [RefCon()]) == Some(UsersFK())
  {
    OneIdent("id");
    assert [RefCon()][|[RefCon()]| - 1] == RefCon();
  }

  /** `user_id int REFERENCES users(id)` becomes an int column with an inline foreign key. */
  lemma UserIdColumn()
    ensures ColumnOf(UserIdDef()) == Column("user_id", "pg_catalog.int4", false, false, Some(UsersFK()))
  {
    IntTypeText();
    UsersReference();
    LoneKind(RefCon(), Primary);
    LoneKind(RefCon(), Unique);
    ColumnParts(UserIdDef(), "pg_catalog.int4", false, false, Some(UsersFK()));
  }

  /** A CREATE TABLE of a new unqualified table with a single column. */
  lemma CreateOneColumn(s: Snapshot, t: string, cd: ColumnDef)
    requires t != "" && t !in s.tables
    ensures ApplyCreateTable(s, Some(RangeVar("", t)), [ColumnDefElt(cd)])
      == s.(tables := s.tables[t := Table("", t, [ColumnOf(cd)], [])])
  {
    var e := Edit(Table("", t, [], []), s.fks);
    assert [ColumnDefElt(cd)][..0] == [];
    assert ApplyElements(e, [ColumnDefElt(cd)]) == ApplyElement(e, ColumnDefElt(cd));
    assert Upserted([], ColumnOf(cd)) == [ColumnOf(cd)];
  }

  /** Two single-column CREATE TABLE statements for different new tables, from an empty schema. */
  lemma TwoCreates(a: Stmt, b: Stmt, t1: string, t2: string, cd1: ColumnDef, cd2: ColumnDef)
    requires t1 != "" && t2 != "" && t1 != t2
    requires a == CreateStmt(Some(RangeVar("", t1)), [ColumnDefElt(cd1)])
    requires b == CreateStmt(Some(RangeVar("", t2)), [ColumnDefElt(cd2)])
    ensures ApplyStmts(Empty, [a, b]) == Some(Empty.(tables := map[]
      [t1 := Table("", t1, [ColumnOf(cd1)], [])]
      [t2 := Table("", t2, [ColumnOf(cd2)], [])]))
  {
    CreateOneColumn(Empty, t1, cd1);
    var s1 := ApplyCreateTable(Empty, Some(RangeVar("", t1)), [ColumnDefElt(cd1)]);
    CreateOneColumn(s1, t2, cd2);
    ApplyStmtsPair(Empty, a, b);
  }

  /**
   * Replaying the two statements yields exactly two tables; posts.user_id carries the inline
   * foreign key to users.id and no table-level foreign key is recorded.
   */
  lemma UsersThenPosts()
    ensures ApplyStmts(Empty, [UsersStmt(), PostsStmt()]) == Some(Empty.(tables := map[]
      ["users" := Table("", "users", [Column("id", "pg_catalog.int4", true, false, None)], [])]
      ["posts" := Table("", "posts", [Column("user_id", "pg_catalog.int4", false, false, Some(UsersFK()))], [])]))
  {
    IdColumn();
    UserIdColumn();
    TwoCreates(UsersStmt(), PostsStmt(), "users", "posts", IdDef(), UserIdDef());
  }
}
