/**
 * The expression reconstructor: turns a parsed SQL expression back into display text,
 * for CHECK constraints of tables and domains. It never fails; the empty string means
 * "no description could be reconstructed", and every unsupported shape renders to it.
 */
module Constraints {
  import opened Text
  import opened Ast

  /** The first name part when it is a String node: an operator symbol or a function name. */
  function FirstIdent(names: seq<Node>): (r: string)
    ensures r != "" ==> |names| > 0 && names[0] == Str(r)
    ensures |names| > 0 && names[0].Str? ==> r == names[0].sval
  {
    if |names| > 0 && names[0].Str? then names[0].sval else ""
  }

  /** A constant: integers in decimal, floats as written, strings in single quotes, booleans as words. */
  function ConstText(c: Const): (r: string)
    ensures c.IVal? ==> IsDecimal(r) && ParseInt(r) == c.ival as int
    ensures c.SVal? ==> |r| == |c.str| + 2 && r[0] == '\'' && r[|r| - 1] == '\'' && r[1..|r| - 1] == c.str
    ensures c.FVal? ==> r == c.fval
    ensures c.BoolVal? ==> (r == "true" <==> c.b) && (r == "false" <==> !c.b)
    ensures c.BsVal? || c.NullConst? ==> r == ""
  {
    match c
    case IVal(i) => FormatInt(i as int)
    case FVal(f) => f
    case SVal(s) => "'" + s + "'"
    case BoolVal(b) => if b then "true" else "false"
    case BsVal(_) => ""
    case NullConst => ""
  }

  /** A column reference: its String parts joined with dots. */
  function ColumnRefText(fields: seq<Node>): (r: string)
    ensures r == Join(NodeIdents(fields), ".")
    ensures r == "" <==> NodeIdents(fields) == [] || NodeIdents(fields) == [""]
  {
    JoinEmpty(NodeIdents(fields), ".");
    Join(NodeIdents(fields), ".")
  }

  /**
   * An operator, LIKE or ILIKE expression from its operator and rendered operands:
   * nothing without an operator or a right operand, the prefix form without a left operand.
   */
  function ComposeBinary(op: string, left: string, right: string): (r: string)
    ensures r != "" <==> op != "" && right != ""
    ensures r != "" && left == "" ==> r == op + " " + right
    ensures r != "" && left != "" ==> r == left + " " + op + " " + right
  {
    if op == "" || right == "" then ""
    else if left == "" then op + " " + right
    else left + " " + op + " " + right
  }

  /** An IN list from the rendered left operand and the non-empty item renderings. */
  function ComposeIn(left: string, vals: seq<string>): (r: string)
    ensures r == "" <==> vals == []
    ensures vals != [] && left == "" ==> r == "IN (" + Join(vals, ", ") + ")"
    ensures vals != [] && left != "" ==> r == left + " " + "IN (" + Join(vals, ", ") + ")"
  {
    if vals == [] then ""
    else if left != "" then left + " IN (" + Join(vals, ", ") + ")"
    else "IN (" + Join(vals, ", ") + ")"
  }

  /** BETWEEN from the rendered operand and bounds; nothing unless both bounds render. */
  function ComposeBetween(left: string, low: string, high: string): (r: string)
    ensures r == "" <==> low == "" || high == ""
    ensures r != "" && left != "" ==> r == left + " " + "BETWEEN " + low + " AND " + high
    ensures r != "" && left == "" ==> r == "BETWEEN " + low + " AND " + high
  {
    if low != "" && high != "" then
      if left != "" then left + " BETWEEN " + low + " AND " + high
      else "BETWEEN " + low + " AND " + high
    else ""
  }

  /** The joining text of a boolean operator. */
  function BoolSeparator(op: BoolOp): (r: string)
    ensures r != ""
    ensures op == And ==> r == " AND "
    ensures op == Or ==> r == " OR "
    ensures op == Not ==> r == " NOT "
    ensures op == UndefinedBoolOp ==> r == " "
  {
    match op
    case And => " AND "
    case Or => " OR "
    case Not => " NOT "
    case UndefinedBoolOp => " "
  }

  /** A child rendering, parenthesized when it itself contains an AND or OR join. */
  function Grouped(s: string): (r: string)
    ensures Contains(s, " AND ") || Contains(s, " OR ") ==> r == "(" + s + ")"
    ensures !(Contains(s, " AND ") || Contains(s, " OR ")) ==> r == s
  {
    if Contains(s, " AND ") || Contains(s, " OR ") then "(" + s + ")" else s
  }

  /** The renderings that are not empty, in their original order. */
  function NonEmpty(ss: seq<string>): (r: seq<string>)
    ensures |r| <= |ss|
    ensures forall s :: s in r <==> s in ss && s != ""
  {
    if ss == [] then []
    else
      var rest := NonEmpty(ss[..|ss| - 1]);
      assert ss == ss[..|ss| - 1] + [ss[|ss| - 1]];
      if ss[|ss| - 1] != "" then rest + [ss[|ss| - 1]] else rest
  }

  /** Filtering works rendering by rendering: order and repetitions of the survivors are kept. */
  lemma {:induction false} NonEmptyAppend(a: seq<string>, b: seq<string>)
    ensures NonEmpty(a + b) == NonEmpty(a) + NonEmpty(b)
    ensures NonEmpty([]) == [] && forall s :: NonEmpty([s]) == if s != "" then [s] else []
    decreases |b|
  {
    forall s ensures NonEmpty([s]) == if s != "" then [s] else [] {
      assert [s][..0] == [];
    }
    if b == [] {
      assert a + b == a;
    } else {
      var b' := b[..|b| - 1];
      assert (a + b)[..|a + b| - 1] == a + b';
      NonEmptyAppend(a, b');
    }
  }

  /**
   * A boolean expression from its surviving (non-empty) child renderings: nothing when none
   * survive, "NOT (c)" for a lone operand of NOT, otherwise the children joined by the
   * operator, each grouped when there are at least two.
   */
  function ComposeBool(op: BoolOp, cs: seq<string>): (r: string)
    ensures (forall s :: s in cs ==> s != "") ==> (r == "" <==> cs == [])
    ensures op == Not && |cs| == 1 ==> r == "NOT (" + cs[0] + ")"
    ensures op != Not && |cs| == 1 ==> r == cs[0]
    ensures |cs| >= 2 ==> r == Join(seq(|cs|, i requires 0 <= i < |cs| => Grouped(cs[i])), BoolSeparator(op))
  {
    if cs == [] then ""
    else if op == Not && |cs| == 1 then "NOT (" + cs[0] + ")"
    else
      assert cs[0] in cs;
      var pieces := if |cs| > 1 then seq(|cs|, i requires 0 <= i < |cs| => Grouped(cs[i])) else cs;
      JoinEmpty(pieces, BoolSeparator(op));
      Join(pieces, BoolSeparator(op))
  }

  /** A function call from its name and non-empty argument renderings; "name()" without arguments. */
  function ComposeFunc(name: string, args: seq<string>): (r: string)
    ensures r == "" <==> name == ""
    ensures name != "" && args == [] ==> r == name + "()"
    ensures name != "" && args != [] ==> r == name + "(" + Join(args, ", ") + ")"
  {
    if name == "" then ""
    else if |args| > 0 then name + "(" + Join(args, ", ") + ")"
    else name + "()"
  }

  /** The display text of an expression node; "" when it cannot be reconstructed. */
  function Render(n: Node): (r: string)
    ensures n.Nil? || n.Str? || n.List? || n.TypeNameNode? || n.Other? || (n.AExpr? && n.kind == OtherKind) ==> r == ""
    ensures n.ColumnRef? ==> r == ColumnRefText(n.fields)
    ensures n.AConst? ==> r == ConstText(n.val)
    ensures n.FuncCall? ==> r == ComposeFunc(FirstIdent(n.funcname), Survivors(n.funcargs))
    ensures n.BoolExpr? ==> r == ComposeBool(n.boolop, Survivors(n.args))
    ensures n.AExpr? && (n.kind == OpKind || n.kind == LikeKind || n.kind == ILikeKind) ==>
      r == ComposeBinary(FirstIdent(n.name), Render(n.lexpr), Render(n.rexpr))
    ensures n.AExpr? && n.kind == InKind ==>
      r == (if n.rexpr.List? then ComposeIn(Render(n.lexpr), Survivors(n.rexpr.items)) else "")
    ensures n.AExpr? && n.kind == BetweenKind ==>
      r == (if n.rexpr.List? && |n.rexpr.items| == 2
            then ComposeBetween(Render(n.lexpr), Render(n.rexpr.items[0]), Render(n.rexpr.items[1]))
            else "")
    decreases n
  {
    match n
    case AExpr(kind, name, l, r) =>
      (match kind
       case OpKind => ComposeBinary(FirstIdent(name), Render(l), Render(r))
       case LikeKind => ComposeBinary(FirstIdent(name), Render(l), Render(r))
       case ILikeKind => ComposeBinary(FirstIdent(name), Render(l), Render(r))
       case InKind =>
         if r.List? then
           ComposeIn(Render(l), NonEmpty(seq(|r.items|, i requires 0 <= i < |r.items| => Render(r.items[i]))))
         else ""
       case BetweenKind =>
         if r.List? && |r.items| == 2 then ComposeBetween(Render(l), Render(r.items[0]), Render(r.items[1]))
         else ""
       case OtherKind => "")
    case BoolExpr(op, args) =>
      ComposeBool(op, NonEmpty(seq(|args|, i requires 0 <= i < |args| => Render(args[i]))))
    case FuncCall(fname, fargs) =>
      ComposeFunc(FirstIdent(fname), NonEmpty(seq(|fargs|, i requires 0 <= i < |fargs| => Render(fargs[i]))))
    case ColumnRef(fields) => ColumnRefText(fields)
    case AConst(c) => ConstText(c)
    case Nil => ""
    case Str(_) => ""
    case List(_) => ""
    case TypeNameNode(_) => ""
    case Other => ""
  }

  /** The renderings of `ns` that are not empty, in order. */
  function Survivors(ns: seq<Node>): seq<string>
  {
    NonEmpty(seq(|ns|, i requires 0 <= i < |ns| => Render(ns[i])))
  }

  /**
   * When an expression can be reconstructed, stated structurally and independently of the
   * text produced: an operator needs its symbol and a renderable right operand, IN needs
   * one renderable item, BETWEEN exactly two renderable bounds, a boolean one renderable
   * child, a call its name, a column reference some text, a constant a value kind with text.
   */
  ghost predicate Renderable(n: Node)
    decreases n
  {
    match n
    case AExpr(kind, name, l, r) =>
      (match kind
       case OpKind => FirstIdent(name) != "" && Renderable(r)
       case LikeKind => FirstIdent(name) != "" && Renderable(r)
       case ILikeKind => FirstIdent(name) != "" && Renderable(r)
       case InKind => r.List? && exists i :: 0 <= i < |r.items| && Renderable(r.items[i])
       case BetweenKind => r.List? && |r.items| == 2 && Renderable(r.items[0]) && Renderable(r.items[1])
       case OtherKind => false)
    case BoolExpr(_, args) => exists i :: 0 <= i < |args| && Renderable(args[i])
    case FuncCall(fname, _) => FirstIdent(fname) != ""
    case ColumnRef(fields) => |NodeIdents(fields)| >= 2 || (|NodeIdents(fields)| == 1 && NodeIdents(fields)[0] != "")
    case AConst(c) => c.IVal? || c.SVal? || c.BoolVal? || (c.FVal? && c.fval != "")
    case Nil => false
    case Str(_) => false
    case List(_) => false
    case TypeNameNode(_) => false
    case Other => false
  }

  /** Survivors are non-empty exactly when some node of the list is renderable (given that fact per node). */
  lemma SurvivorsNonEmpty(ns: seq<Node>)
    requires forall i :: 0 <= i < |ns| ==> (Render(ns[i]) != "" <==> Renderable(ns[i]))
    ensures Survivors(ns) != [] <==> exists i :: 0 <= i < |ns| && Renderable(ns[i])
  {
    var rs := seq(|ns|, i requires 0 <= i < |ns| => Render(ns[i]));
    if exists i :: 0 <= i < |ns| && Renderable(ns[i]) {
      var i :| 0 <= i < |ns| && Renderable(ns[i]);
      assert rs[i] in rs;
    }
    if Survivors(ns) != [] {
      assert Survivors(ns)[0] in rs;
    }
  }

  /** The reconstructor yields text exactly for the renderable expressions. */
  lemma {:induction false} RenderNonEmptyIff(n: Node)
    ensures Render(n) != "" <==> Renderable(n)
    decreases n
  {
    match n
    case AExpr(kind, name, l, r) =>
      RenderNonEmptyIff(l);
      RenderNonEmptyIff(r);
      if r.List? {
        forall i | 0 <= i < |r.items| ensures Render(r.items[i]) != "" <==> Renderable(r.items[i]) {
          RenderNonEmptyIff(r.items[i]);
        }
        SurvivorsNonEmpty(r.items);
      }
    case BoolExpr(op, args) =>
      forall i | 0 <= i < |args| ensures Render(args[i]) != "" <==> Renderable(args[i]) {
        RenderNonEmptyIff(args[i]);
      }
      SurvivorsNonEmpty(args);
    case FuncCall(_, _) =>
    case ColumnRef(_) =>
    case AConst(_) =>
    case Nil =>
    case Str(_) =>
    case List(_) =>
    case TypeNameNode(_) =>
    case Other =>
  }

  /**
   * Grouping never loses structure: inside an AND or OR with at least two rendered children,
   * a child that is itself an AND or OR of at least two rendered children appears in parentheses.
   */
  lemma NestedGroupParenthesized(op: BoolOp, args: seq<Node>, i: nat)
    requires op == And || op == Or
    requires |Survivors(args)| >= 2
    requires i < |args| && args[i].BoolExpr? && (args[i].boolop == And || args[i].boolop == Or)
    requires |Survivors(args[i].args)| >= 2
    ensures Contains(Render(BoolExpr(op, args)), "(" + Render(args[i]) + ")")
  {
    var inner := Survivors(args[i].args);
    var innerPieces := seq(|inner|, j requires 0 <= j < |inner| => Grouped(inner[j]));
    var child := Render(args[i]);
    assert child == Join(innerPieces, BoolSeparator(args[i].boolop));
    JoinContainsSeparator(innerPieces, BoolSeparator(args[i].boolop));
    assert Contains(child, " AND ") || Contains(child, " OR ");
    var outer := Survivors(args);
    var rs := seq(|args|, j requires 0 <= j < |args| => Render(args[j]));
    JoinEmpty(innerPieces, BoolSeparator(args[i].boolop));
    assert child != "" && rs[i] == child;
    assert child in outer;
    var k :| 0 <= k < |outer| && outer[k] == child;
    var pieces := seq(|outer|, j requires 0 <= j < |outer| => Grouped(outer[j]));
    assert Render(BoolExpr(op, args)) == Join(pieces, BoolSeparator(op));
    assert pieces[k] == "(" + child + ")";
    JoinContainsPart(pieces, BoolSeparator(op), k);
  }
}
