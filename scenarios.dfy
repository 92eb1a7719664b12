/**
 * Worked examples: canonical CHECK expressions and the text reconstructed for them. Each
 * example is split into the rendering of its parts and the composition of their texts.
 */
module Scenarios {
  import opened Text
  import opened Ast
  import opened Constraints

  function Col(name: string): Node { ColumnRef([Str(name)]) }
  function Int(i: int32): Node { AConst(IVal(i)) }
  function Op(op: string, l: Node, r: Node): Node { AExpr(OpKind, [Str(op)], l, r) }

  /** A one-part column reference renders as its name. */
  lemma RenderCol(c: string)
    requires c != ""
    ensures Render(Col(c)) == c
  {
    assert NodeIdents([Str(c)]) == [c] by {
      assert [Str(c)][..0] == [];
    }
    assert Join([c], ".") == c;
  }

  /** The decimal text of the small integers used below. */
  lemma SmallInts()
    ensures FormatInt(1) == "1" && FormatInt(2) == "2" && FormatInt(3) == "3" && FormatInt(5) == "5"
    ensures FormatInt(10) == "10"
  {
    assert Digits(10) == Digits(1) + [DigitChar(0)];
  }

  lemma RenderInt(v: int32, text: string)
    requires FormatInt(v as int) == text
    ensures Render(Int(v)) == text
  {
  }

  /** `c op v` for a one-part column name and a constant rendering as `text`. */
  lemma RenderOp(op: string, c: string, v: int32, text: string)
    requires op != "" && c != "" && FormatInt(v as int) == text
    ensures Render(Op(op, Col(c), Int(v))) == c + " " + op + " " + text
  {
    RenderCol(c);
    DigitsRoundTrip(if v < 0 then -(v as int) else v as int);
    assert text != "";
  }

  /** `a > 5` renders as "a > 5". */
  lemma RenderComparison()
    ensures Render(Op(">", Col("a"), Int(5))) == "a > 5"
  {
    SmallInts();
    RenderOp(">", "a", 5, "5");
  }

  /** A string lacking a character of `sub` does not contain `sub`. */
  lemma AbsentChar(s: string, sub: string, c: char)
    requires c in sub && c !in s
    ensures !Contains(s, sub)
  {
  }

  /** A rendering without the letters A and O holds no AND or OR join. */
  lemma NoJoin(s: string)
    requires 'A' !in s && 'O' !in s
    ensures !Contains(s, " AND ") && !Contains(s, " OR ")
  {
    AbsentChar(s, " AND ", 'A');
    AbsentChar(s, " OR ", 'O');
  }

  /** When every rendering is non-empty, nothing is dropped. */
  lemma {:induction false} NonEmptyAll(ss: seq<string>)
    requires forall i :: 0 <= i < |ss| ==> ss[i] != ""
    ensures NonEmpty(ss) == ss
    decreases |ss|
  {
    if ss != [] {
      NonEmptyAll(ss[..|ss| - 1]);
      assert ss == ss[..|ss| - 1] + [ss[|ss| - 1]];
    }
  }

  /** The survivors of nodes that all render are their renderings. */
  lemma SurvivorsOf(ns: seq<Node>, rs: seq<string>)
    requires |ns| == |rs| && forall i :: 0 <= i < |ns| ==> Render(ns[i]) == rs[i] != ""
    ensures Survivors(ns) == rs
  {
    assert seq(|ns|, i requires 0 <= i < |ns| => Render(ns[i])) == rs;
    NonEmptyAll(rs);
  }

  /** An IN list of three renderable items. */
  lemma InParts(e: Node, a: Node, items: seq<Node>, ta: string, ts: seq<string>)
    requires e == AExpr(InKind, [Str("=")], a, List(items))
    requires Render(a) == ta && |items| == |ts| && forall i :: 0 <= i < |items| ==> Render(items[i]) == ts[i] != ""
    ensures Render(e) == ComposeIn(ta, ts)
  {
    SurvivorsOf(items, ts);
  }

  lemma InText()
    ensures ComposeIn("a", ["1", "2", "3"]) == "a IN (1, 2, 3)"
  {
    assert Join(["1", "2"], ", ") == Join(["1"], ", ") + ", " + "2";
    assert Join(["1", "2", "3"], ", ") == Join(["1", "2"], ", ") + ", " + "3";
    assert Join(["1", "2", "3"], ", ") == "1, 2, 3";
  }

  /** `a IN (1, 2, 3)` renders as "a IN (1, 2, 3)". */
  lemma RenderIn(e: Node)
    requires e == AExpr(InKind, [Str("=")], Col("a"), List([Int(1), Int(2), Int(3)]))
    ensures Render(e) == "a IN (1, 2, 3)"
  {
    SmallInts();
    RenderCol("a");
    RenderInt(1, "1");
    RenderInt(2, "2");
    RenderInt(3, "3");
    InParts(e, Col("a"), [Int(1), Int(2), Int(3)], "a", ["1", "2", "3"]);
    InText();
  }

  lemma BetweenText()
    ensures ComposeBetween("a", "1", "10") == "a BETWEEN 1 AND 10"
  {
  }

  /** `a BETWEEN 1 AND 10` renders as "a BETWEEN 1 AND 10". */
  lemma RenderBetween(e: Node)
    requires e == AExpr(BetweenKind, [Str("BETWEEN")], Col("a"), List([Int(1), Int(10)]))
    ensures Render(e) == "a BETWEEN 1 AND 10"
  {
    SmallInts();
    RenderCol("a");
    RenderInt(1, "1");
    RenderInt(10, "10");
    assert e.rexpr.items == [Int(1), Int(10)];
    BetweenText();
  }

  /** A boolean expression with one renderable operand. */
  lemma BoolParts1(e: Node, op: BoolOp, x: Node, t: string)
    requires e == BoolExpr(op, [x]) && Render(x) == t != ""
    ensures Render(e) == ComposeBool(op, [t])
  {
    SurvivorsOf([x], [t]);
  }

  /** A boolean expression with two renderable operands. */
  lemma BoolParts2(e: Node, op: BoolOp, x: Node, y: Node, tx: string, ty: string)
    requires e == BoolExpr(op, [x, y]) && Render(x) == tx != "" && Render(y) == ty != ""
    ensures Render(e) == ComposeBool(op, [tx, ty])
  {
    SurvivorsOf([x, y], [tx, ty]);
  }

  lemma NotText()
    ensures ComposeBool(Not, ["a = 1"]) == "NOT (a = 1)"
  {
  }

  /** `NOT (a = 1)` renders as "NOT (a = 1)". */
  lemma RenderNot(e: Node)
    requires e == BoolExpr(Not, [Op("=", Col("a"), Int(1))])
    ensures Render(e) == "NOT (a = 1)"
  {
    var x := Op("=", Col("a"), Int(1));
    assert Render(x) == "a = 1" by {
      SmallInts();
      RenderOp("=", "a", 1, "1");
    }
    BoolParts1(e, Not, x, "a = 1");
    NotText();
  }

  lemma AndText()
    ensures ComposeBool(And, ["a = 1", "b = 2"]) == "a = 1 AND b = 2"
  {
    NoJoin("a = 1");
    NoJoin("b = 2");
    var pieces := seq(2, i requires 0 <= i < 2 => Grouped(["a = 1", "b = 2"][i]));
    assert pieces == ["a = 1", "b = 2"];
    assert Join(["a = 1", "b = 2"], " AND ") == Join(["a = 1"], " AND ") + " AND " + "b = 2";
  }

  lemma GroupedAnd()
    ensures Grouped("a = 1 AND b = 2") == "(a = 1 AND b = 2)"
  {
    var s := "a = 1 AND b = 2";
    assert s[5..10] == " AND ";
    assert OccursAt(s, " AND ", 5);
  }

  lemma OrText()
    ensures ComposeBool(Or, ["a = 1 AND b = 2", "c = 3"]) == "(a = 1 AND b = 2) OR c = 3"
  {
    NoJoin("c = 3");
    GroupedAnd();
    assert Grouped("c = 3") == "c = 3";
    var pieces := seq(2, i requires 0 <= i < 2 => Grouped(["a = 1 AND b = 2", "c = 3"][i]));
    assert pieces == ["(a = 1 AND b = 2)", "c = 3"];
    assert Join(pieces, " OR ") == Join(["(a = 1 AND b = 2)"], " OR ") + " OR " + "c = 3";
  }

  /** `a = 1 AND b = 2` renders without parentheses. */
  lemma RenderAnd(e: Node)
    requires e == BoolExpr(And, [Op("=", Col("a"), Int(1)), Op("=", Col("b"), Int(2))])
    ensures Render(e) == "a = 1 AND b = 2"
  {
    var x, y := Op("=", Col("a"), Int(1)), Op("=", Col("b"), Int(2));
    RenderAB(x, y);
    AndParts(e, x, y);
    AndText();
  }

  lemma RenderAB(x: Node, y: Node)
    requires x == Op("=", Col("a"), Int(1)) && y == Op("=", Col("b"), Int(2))
    ensures Render(x) == "a = 1" && Render(y) == "b = 2"
  {
    RenderA1(x);
    RenderB2(y);
  }

  lemma RenderA1(e: Node)
    requires e == Op("=", Col("a"), Int(1))
    ensures Render(e) == "a = 1"
  {
    SmallInts();
    RenderOp("=", "a", 1, "1");
  }

  lemma RenderB2(e: Node)
    requires e == Op("=", Col("b"), Int(2))
    ensures Render(e) == "b = 2"
  {
    SmallInts();
    RenderOp("=", "b", 2, "2");
  }

  lemma AndParts(e: Node, x: Node, y: Node)
    requires e == BoolExpr(And, [x, y]) && Render(x) == "a = 1" && Render(y) == "b = 2"
    ensures Render(e) == ComposeBool(And, ["a = 1", "b = 2"])
  {
    BoolParts2(e, And, x, y, "a = 1", "b = 2");
  }

  lemma RenderC3(e: Node)
    requires e == Op("=", Col("c"), Int(3))
    ensures Render(e) == "c = 3"
  {
    SmallInts();
    RenderOp("=", "c", 3, "3");
  }

  /** An OR of an AND-joined rendering and a plain one parenthesizes the first. */
  lemma OrParts(e: Node, x: Node, y: Node)
    requires e == BoolExpr(Or, [x, y]) && Render(x) == "a = 1 AND b = 2" && Render(y) == "c = 3"
    ensures Render(e) == "(a = 1 AND b = 2) OR c = 3"
  {
    BoolParts2(e, Or, x, y, "a = 1 AND b = 2", "c = 3");
    OrText();
  }

  /** `(a = 1 AND b = 2) OR c = 3` keeps its grouping: "(a = 1 AND b = 2) OR c = 3". */
  lemma RenderGrouping(e: Node)
    requires e == BoolExpr(Or, [BoolExpr(And, [Op("=", Col("a"), Int(1)), Op("=", Col("b"), Int(2))]), Op("=", Col("c"), Int(3))])
    ensures Render(e) == "(a = 1 AND b = 2) OR c = 3"
  {
    var and := BoolExpr(And, [Op("=", Col("a"), Int(1)), Op("=", Col("b"), Int(2))]);
    var c3 := Op("=", Col("c"), Int(3));
    RenderAnd(and);
    RenderC3(c3);
    OrParts(e, and, c3);
  }
}
