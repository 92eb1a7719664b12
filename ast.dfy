/**
 * The slice of PostgreSQL's parse tree (as the pg_query library returns it) that the
 * schema-model synthesizer inspects. The parser itself is not modelled; these datatypes
 * are its output. `Nil` stands for an absent node (a nil pointer), `TypeNameNode` for a
 * type name standing as a node (the objects of DROP TYPE and DROP DOMAIN) and `Other` for
 * any node kind the synthesizer does not look into.
 */
module Ast {
  import opened Wrappers

  newtype int32 = x: int | -0x8000_0000 <= x < 0x8000_0000

  /** Expression and identifier nodes. */
  datatype Node =
    | Nil
    | Str(sval: string)
    | List(items: seq<Node>)
    | AExpr(kind: AExprKind, name: seq<Node>, lexpr: Node, rexpr: Node)
    | BoolExpr(boolop: BoolOp, args: seq<Node>)
    | FuncCall(funcname: seq<Node>, funcargs: seq<Node>)
    | ColumnRef(fields: seq<Node>)
    | AConst(val: Const)
    | TypeNameNode(typeName: TypeName)
    | Other

  /** The kinds of A_Expr; `OtherKind` covers ANY/ALL, DISTINCT, NULLIF, SIMILAR and the BETWEEN variants. */
  datatype AExprKind = OpKind | InKind | LikeKind | ILikeKind | BetweenKind | OtherKind

  /** BoolExpr operators; `UndefinedBoolOp` is a value outside the three the parser produces. */
  datatype BoolOp = And | Or | Not | UndefinedBoolOp

  /** The value of an A_Const node; `NullConst` is the NULL literal. */
  datatype Const = IVal(ival: int32) | FVal(fval: string) | SVal(str: string) | BoolVal(b: bool) | BsVal(bsval: string) | NullConst

  /** A relation name, as in `schema.table`; the schema is empty when not written. */
  datatype RangeVar = RangeVar(schemaname: string, relname: string)

  /** A type as written: dotted name parts, type modifiers such as (255), and array bounds. */
  datatype TypeName = TypeName(names: seq<Node>, typmods: seq<Node>, arrayBounds: seq<Node>)

  datatype ConstrType = Primary | Unique | Foreign | Check | NotNull | OtherConstr

  /** A column or table constraint. */
  datatype Constraint = Constraint(
    contype: ConstrType,
    conname: string,
    keys: seq<Node>,
    fkAttrs: seq<Node>,
    pkAttrs: seq<Node>,
    pktable: Option<RangeVar>,
    rawExpr: Node)

  datatype ColumnDef = ColumnDef(colname: string, typeName: Option<TypeName>, constraints: seq<Constraint>)

  /** A table element, the definition of an ALTER TABLE command, or an entry of a domain's constraint list. */
  datatype Element = ColumnDefElt(def: ColumnDef) | ConstraintElt(con: Constraint) | OtherElt

  datatype AlterType = AddColumn | DropColumn | AddConstraint | OtherAlter

  /** One ALTER TABLE sub-command; `NotACmd` is a list entry of another node kind. */
  datatype AlterCmd = AlterTableCmd(subtype: AlterType, name: string, def: Element) | NotACmd

  /** An entry of a SELECT list: an optional alias and the selected expression. */
  datatype Target = ResTarget(alias: string, val: Node) | NotATarget

  /** The query of a view; `OtherQuery` is an absent query or anything but a plain SELECT. */
  datatype Query = SelectStmt(targetList: seq<Target>) | OtherQuery

  datatype ObjectType = TableObject | ViewObject | TypeObject | DomainObject | OtherObject

  /** The statement kinds the synthesizer dispatches on; `OtherStmt` is every other statement. */
  datatype Stmt =
    | CreateStmt(relation: Option<RangeVar>, tableElts: seq<Element>)
    | AlterTableStmt(relation: Option<RangeVar>, cmds: seq<AlterCmd>)
    | ViewStmt(view: Option<RangeVar>, query: Query)
    | CompositeTypeStmt(typevar: Option<RangeVar>, coldeflist: seq<Element>)
    | CreateEnumStmt(enumName: seq<Node>, vals: seq<Node>)
    | CreateDomainStmt(domainname: seq<Node>, baseType: Option<TypeName>, domainConstraints: seq<Element>, collClause: Option<seq<Node>>)
    | DropStmt(removeType: ObjectType, objects: seq<Node>)
    | OtherStmt

  /** The text of every String node of `nodes`, in order; other nodes are skipped. */
  function NodeIdents(nodes: seq<Node>): (r: seq<string>)
    ensures |r| <= |nodes|
    ensures forall s :: s in r ==> Str(s) in nodes
    ensures forall s :: Str(s) in nodes ==> s in r
    ensures r == [] <==> forall i :: 0 <= i < |nodes| ==> !nodes[i].Str?
  {
    if nodes == [] then []
    else
      var rest := NodeIdents(nodes[..|nodes| - 1]);
      assert nodes == nodes[..|nodes| - 1] + [nodes[|nodes| - 1]];
      match nodes[|nodes| - 1]
      case Str(s) => rest + [s]
      case _ => rest
  }

  /** NodeIdents works piecewise, so it keeps the order of the String nodes. */
  lemma {:induction false} NodeIdentsAppend(a: seq<Node>, b: seq<Node>)
    ensures NodeIdents(a + b) == NodeIdents(a) + NodeIdents(b)
    decreases |b|
  {
    if b != [] {
      var b' := b[..|b| - 1];
      assert (a + b)[..|a + b| - 1] == a + b' && (a + b)[|a + b| - 1] == b[|b| - 1];
      NodeIdentsAppend(a, b');
      assert NodeIdents(b) == NodeIdents(b') + NodeIdents([b[|b| - 1]]) by {
        assert [b[|b| - 1]][..0] == [];
      }
    } else {
      assert a + b == a;
    }
  }

  /** The schema of a relation name, empty when the name is absent. */
  function SchemaOf(rv: Option<RangeVar>): (r: string)
    ensures rv.None? ==> r == ""
    ensures forall x :: rv == Some(x) ==> r == x.schemaname
  {
    if rv.Some? then rv.value.schemaname else ""
  }

  /** The relation name proper, empty when the name is absent. */
  function RelnameOf(rv: Option<RangeVar>): (r: string)
    ensures rv.None? ==> r == ""
    ensures forall x :: rv == Some(x) ==> r == x.relname
  {
    if rv.Some? then rv.value.relname else ""
  }
}
