/**
 * Where a table-level foreign key is drawn: the first table, in ascending key order, that
 * has every source column owns it; its columns are paired with the destination columns
 * when the two lists have the same non-zero length, otherwise one table-to-table edge is
 * drawn. An edge is written as the text the diagram receives, "left.col -> right.col".
 */
module ForeignKeys {
  import opened Wrappers
  import opened Text
  import opened Model
  import opened Columns
  import Driver

  /** The table at `k` has every source column of `fk`. */
  predicate Qualifies(tables: map<string, Table>, k: string, fk: FK)
  {
    k in tables && ContainsAll(tables[k].cols, fk.srcCols)
  }

  /** No table listed in `ks` qualifies for `fk`. */
  predicate Unowned(tables: map<string, Table>, ks: seq<string>, fk: FK)
  {
    forall j :: 0 <= j < |ks| ==> !Qualifies(tables, ks[j], fk)
  }

  /** The columns of `fk` are paired one to one. */
  predicate Paired(fk: FK)
  {
    |fk.srcCols| == |fk.dstCols| && |fk.srcCols| > 0
  }

  /** The edges of `fk` drawn from the table labelled `left`. */
  function FKEdges(left: string, fk: FK): (r: seq<string>)
    ensures Paired(fk) ==> |r| == |fk.srcCols| && forall i :: 0 <= i < |r| ==>
      r[i] == left + "." + fk.srcCols[i] + " -> " + TableLabel(fk.dstSchema, fk.dstTable) + "." + fk.dstCols[i]
    ensures !Paired(fk) ==> r == [left + " -> " + TableLabel(fk.dstSchema, fk.dstTable)]
  {
    var right := TableLabel(fk.dstSchema, fk.dstTable);
    if Paired(fk) then
      seq(|fk.srcCols|, i requires 0 <= i < |fk.srcCols| => left + "." + fk.srcCols[i] + " -> " + right + "." + fk.dstCols[i])
    else [left + " -> " + right]
  }

  /** The first key of `ks` whose table qualifies, if any. */
  function Owner(tables: map<string, Table>, ks: seq<string>, fk: FK): (r: Option<nat>)
    ensures r.Some? ==> r.value < |ks| && Qualifies(tables, ks[r.value], fk)
    ensures r.Some? ==> forall j :: 0 <= j < r.value ==> !Qualifies(tables, ks[j], fk)
    ensures r.None? ==> forall j :: 0 <= j < |ks| ==> !Qualifies(tables, ks[j], fk)
  {
    if ks == [] then None
    else if Qualifies(tables, ks[0], fk) then Some(0)
    else match Owner(tables, ks[1..], fk)
      case Some(i) => Some(i + 1)
      case None => None
  }

  /** The edges `fk` produces: those of its owner, none when no table qualifies. */
  function AttachedEdges(tables: map<string, Table>, ks: seq<string>, fk: FK): (r: seq<string>)
    ensures r == [] <==> Unowned(tables, ks, fk)
  {
    match Owner(tables, ks, fk)
    case None => []
    case Some(i) => FKEdges(TableLabel(tables[ks[i]].schema, tables[ks[i]].name), fk)
  }

  /** The first qualifying table in `ks` draws the edges of `fk`. */
  lemma AttachedToFirst(tables: map<string, Table>, ks: seq<string>, fk: FK, i: nat)
    requires i < |ks| && Qualifies(tables, ks[i], fk)
    requires forall j :: 0 <= j < i ==> !Qualifies(tables, ks[j], fk)
    ensures AttachedEdges(tables, ks, fk) == FKEdges(TableLabel(tables[ks[i]].schema, tables[ks[i]].name), fk)
  {
    OwnerFirst(tables, ks, fk, i);
  }

  /**
   * With the keys in ascending order and every key present, the owner is the least
   * qualifying key, and a foreign key is drawn exactly when some table qualifies.
   */
  lemma OwnerIsLeast(tables: map<string, Table>, ks: seq<string>, fk: FK)
    requires Sorted(ks) && forall k :: k in tables ==> k in ks
    ensures Owner(tables, ks, fk).Some? <==> exists k :: Qualifies(tables, k, fk)
    ensures Owner(tables, ks, fk).Some? ==>
      forall k :: Qualifies(tables, k, fk) ==> LexLeq(ks[Owner(tables, ks, fk).value], k)
  {
    var o := Owner(tables, ks, fk);
    if o.Some? {
      forall k | Qualifies(tables, k, fk) ensures LexLeq(ks[o.value], k) {
        var j :| 0 <= j < |ks| && ks[j] == k;
        if j < o.value {
          assert false;
        } else if j == o.value {
          LexLeqReflexive(k);
        }
      }
    } else {
      forall k | k in tables ensures !Qualifies(tables, k, fk) {
        var j :| 0 <= j < |ks| && ks[j] == k;
      }
    }
  }

  /** The keys of `tables` in ascending order, each once. */
  method SortedKeys(tables: map<string, Table>) returns (ks: seq<string>)
    ensures Sorted(ks) && |ks| == |tables.Keys|
    ensures forall k :: k in ks <==> k in tables
  {
    var rest := tables.Keys;
    var acc: seq<string> := [];
    while rest != {}
      invariant rest <= tables.Keys
      invariant forall k :: k in acc <==> k in tables && k !in rest
      invariant |acc| + |rest| == |tables.Keys|
      decreases |rest|
    {
      var k :| k in rest;
      acc := acc + [k];
      rest := rest - {k};
    }
    var a := new string[|acc|](i requires 0 <= i < |acc| => acc[i]);
    assert a[..] == acc;
    Driver.SortStrings(a);
    ks := a[..];
    forall k ensures k in ks <==> k in acc {
      assert k in ks <==> k in multiset(ks);
      assert k in acc <==> k in multiset(acc);
    }
  }

  /**
   * The matching loop for one table-level foreign key: the tables are tried in key order,
   * the first with all source columns gets the edges and the search stops.
   */
  method AttachFK(tables: map<string, Table>, ks: seq<string>, fk: FK) returns (edges: seq<string>)
    requires forall k :: k in ks ==> k in tables
    ensures edges == AttachedEdges(tables, ks, fk)
  {
    var right := TableLabel(fk.dstSchema, fk.dstTable);
    edges := [];
    for i := 0 to |ks|
      invariant forall j :: 0 <= j < i ==> !Qualifies(tables, ks[j], fk)
    {
      var t := tables[ks[i]];
      var all := HasAllCols(t, fk.srcCols);
      if all {
        var left := TableLabel(t.schema, t.name);
        if |fk.srcCols| == |fk.dstCols| && |fk.srcCols| > 0 {
          for p := 0 to |fk.srcCols|
            invariant |edges| == p
            invariant forall q :: 0 <= q < p ==> edges[q] == left + "." + fk.srcCols[q] + " -> " + right + "." + fk.dstCols[q]
          {
            edges := edges + [left + "." + fk.srcCols[p] + " -> " + right + "." + fk.dstCols[p]];
          }
        } else {
          edges := [left + " -> " + right];
        }
        assert Owner(tables, ks, fk) == Some(i) by {
          OwnerFirst(tables, ks, fk, i);
        }
        return;
      }
    }
  }

  /** A qualifying key with no qualifying key before it is the owner. */
  lemma {:induction false} OwnerFirst(tables: map<string, Table>, ks: seq<string>, fk: FK, i: nat)
    requires i < |ks| && Qualifies(tables, ks[i], fk)
    requires forall j :: 0 <= j < i ==> !Qualifies(tables, ks[j], fk)
    ensures Owner(tables, ks, fk) == Some(i)
    decreases i
  {
    if i > 0 {
      assert !Qualifies(tables, ks[0], fk);
      assert forall j :: 0 <= j < i - 1 ==> ks[1..][j] == ks[j + 1];
      OwnerFirst(tables, ks[1..], fk, i - 1);
    }
  }

  /** The edges of every table-level foreign key, in the order they were declared. */
  function AllEdges(tables: map<string, Table>, ks: seq<string>, fks: seq<FK>): seq<string>
  {
    if fks == [] then [] else AllEdges(tables, ks, fks[..|fks| - 1]) + AttachedEdges(tables, ks, fks[|fks| - 1])
  }

  /** No edge is drawn exactly when no foreign key finds a table with all its source columns. */
  lemma {:induction false} AllEdgesEmpty(tables: map<string, Table>, ks: seq<string>, fks: seq<FK>)
    ensures AllEdges(tables, ks, fks) == [] <==> forall i :: 0 <= i < |fks| ==> Unowned(tables, ks, fks[i])
    decreases |fks|
  {
    if fks != [] {
      var init, last := fks[..|fks| - 1], fks[|fks| - 1];
      AllEdgesEmpty(tables, ks, init);
      assert AllEdges(tables, ks, fks) == AllEdges(tables, ks, init) + AttachedEdges(tables, ks, last);
      assert (forall i :: 0 <= i < |fks| ==> Unowned(tables, ks, fks[i])) <==>
        (forall i :: 0 <= i < |init| ==> Unowned(tables, ks, init[i])) && Unowned(tables, ks, last)
      by {
        assert forall i :: 0 <= i < |init| ==> init[i] == fks[i];
      }
    }
  }

  /** The edges of a list of foreign keys are those of its parts, in order. */
  lemma {:induction false} AllEdgesAppend(tables: map<string, Table>, ks: seq<string>, a: seq<FK>, b: seq<FK>)
    ensures AllEdges(tables, ks, a + b) == AllEdges(tables, ks, a) + AllEdges(tables, ks, b)
    decreases |b|
  {
    if b == [] {
      assert a + b == a;
    } else {
      var b', last := b[..|b| - 1], b[|b| - 1];
      assert (a + b)[..|a + b| - 1] == a + b' && (a + b)[|a + b| - 1] == last;
      AllEdgesAppend(tables, ks, a, b');
      var x, y, z := AllEdges(tables, ks, a), AllEdges(tables, ks, b'), AttachedEdges(tables, ks, last);
      assert AllEdges(tables, ks, a + b) == (x + y) + z;
      assert AllEdges(tables, ks, b) == y + z;
      ConcatAssoc(x, y, z);
    }
  }

  lemma ConcatAssoc<T>(x: seq<T>, y: seq<T>, z: seq<T>)
    ensures (x + y) + z == x + (y + z)
  {
  }

  /** Any two ascending listings of the keys attach every foreign key to the same table. */
  lemma AttachedEdgesDeterministic(tables: map<string, Table>, ks1: seq<string>, ks2: seq<string>, fk: FK)
    requires Sorted(ks1) && forall k :: k in ks1 <==> k in tables
    requires Sorted(ks2) && forall k :: k in ks2 <==> k in tables
    ensures AttachedEdges(tables, ks1, fk) == AttachedEdges(tables, ks2, fk)
  {
    OwnerIsLeast(tables, ks1, fk);
    OwnerIsLeast(tables, ks2, fk);
    var o1, o2 := Owner(tables, ks1, fk), Owner(tables, ks2, fk);
    if o1.Some? {
      LexLeqAntisymmetric(ks1[o1.value], ks2[o2.value]);
    }
  }

  lemma {:induction false} AllEdgesDeterministic(tables: map<string, Table>, ks1: seq<string>, ks2: seq<string>, fks: seq<FK>)
    requires Sorted(ks1) && forall k :: k in ks1 <==> k in tables
    requires Sorted(ks2) && forall k :: k in ks2 <==> k in tables
    ensures AllEdges(tables, ks1, fks) == AllEdges(tables, ks2, fks)
    decreases |fks|
  {
    if fks != [] {
      AllEdgesDeterministic(tables, ks1, ks2, fks[..|fks| - 1]);
      AttachedEdgesDeterministic(tables, ks1, ks2, fks[|fks| - 1]);
    }
  }

  /**
   * The table-level foreign-key edges of a schema: the keys are sorted, then each foreign
   * key is attached; the result is the same for every ascending listing of the keys.
   */
  method TableLevelEdges(tables: map<string, Table>, fks: seq<FK>) returns (edges: seq<string>)
    ensures forall ks :: Sorted(ks) && (forall k :: k in ks <==> k in tables) ==> edges == AllEdges(tables, ks, fks)
  {
    var ks := SortedKeys(tables);
    edges := [];
    for i := 0 to |fks|
      invariant edges == AllEdges(tables, ks, fks[..i])
    {
      assert fks[..i + 1][..i] == fks[..i];
      var e := AttachFK(tables, ks, fks[i]);
      edges := edges + e;
    }
    assert fks[..|fks|] == fks;
    forall ks' | Sorted(ks') && (forall k :: k in ks' <==> k in tables)
      ensures edges == AllEdges(tables, ks', fks)
    {
      AllEdgesDeterministic(tables, ks, ks', fks);
    }
  }

  /**
   * As written, the matching loop ranges over the table map, whose iteration order Go leaves
   * unspecified: any qualifying table may be the one found first.
   */
  predicate AsWrittenOwner(tables: map<string, Table>, fk: FK, k: string)
  {
    Qualifies(tables, k, fk)
  }

  /** Two tables that both have a `user_id` column. */
  function TwoCandidates(): map<string, Table>
  {
    var col := Column("user_id", "int", false, false, None);
    map["comments" := Table("", "comments", [col], []), "posts" := Table("", "posts", [col], [])]
  }

  /** A table-level foreign key from `user_id` to users(id). */
  function UserFK(): FK
  {
    FK(["user_id"], "", "users", ["id"])
  }

  /**
   * The map order decides the diagram: with two qualifying tables both are possible owners
   * and they give different edges, so two runs on the same schema can draw different edges.
   */
  lemma AsWrittenOwnerAmbiguous()
    ensures AsWrittenOwner(TwoCandidates(), UserFK(), "comments") && AsWrittenOwner(TwoCandidates(), UserFK(), "posts")
    ensures FKEdges(TableLabel("", "comments"), UserFK()) != FKEdges(TableLabel("", "posts"), UserFK())
  {
    var col := Column("user_id", "int", false, false, None);
    assert col in TwoCandidates()["comments"].cols && col in TwoCandidates()["posts"].cols;
    EdgeText("comments");
    EdgeText("posts");
    assert FKEdges(TableLabel("", "comments"), UserFK())[0][0] == 'c';
    assert FKEdges(TableLabel("", "posts"), UserFK())[0][0] == 'p';
  }

  /** The paired edge of UserFK from the table `t` of the default schema. */
  lemma EdgeText(t: string)
    requires t != ""
    ensures FKEdges(TableLabel("", t), UserFK()) == [t + ".user_id -> users.id"]
  {
    var e := FKEdges(TableLabel("", t), UserFK());
    assert Paired(UserFK()) && TableLabel("", "users") == "users";
    assert e[0] == t + "." + "user_id" + " -> " + "users" + "." + "id";
    assert t + "." + "user_id" + " -> " + "users" + "." + "id" == t + ".user_id -> users.id";
  }

  /** With the keys taken in ascending order the same schema always gives the edge from "comments". */
  lemma SortedOwnerResolves()
    ensures AttachedEdges(TwoCandidates(), ["comments", "posts"], UserFK()) == ["comments" + ".user_id -> users.id"]
  {
    var col := Column("user_id", "int", false, false, None);
    assert col in TwoCandidates()["comments"].cols;
    assert Qualifies(TwoCandidates(), "comments", UserFK());
    assert Owner(TwoCandidates(), ["comments", "posts"], UserFK()) == Some(0);
    EdgeText("comments");
  }
}
