/**
 * Worked instances of the pipeline in main.py: a two-page listing of three
 * entries, their detail payloads with the types "fire" and "water", the
 * report grouped from them, the same report when one detail request fails,
 * and what happens to a type name that itself contains `", "`.
 */
module Scenarios {
  import opened Options
  import opened Text
  import opened Listing
  import opened Details
  import opened Catalog

  const A := Summary("a", "u1")
  const B := Summary("b", "u2")
  const C := Summary("c", "u3")

  const PayloadA := Payload(1, "a", [TypeSlot(NamedRef("fire"))], [AbilitySlot(NamedRef("burn"))])
  const PayloadB := Payload(2, "b", [TypeSlot(NamedRef("water"))], [AbilitySlot(NamedRef("torrent"))])
  const PayloadC := Payload(3, "c", [TypeSlot(NamedRef("fire"))], [AbilitySlot(NamedRef("blaze"))])

  const RecA := Record(1, "a", "fire", "burn")
  const RecB := Record(2, "b", "water", "torrent")
  const RecC := Record(3, "c", "fire", "blaze")

  /** A detail endpoint that knows u1, u2 and u3 and answers 404 for u2 when `u2Missing`. */
  function Detail(u2Missing: bool): DetailEndpoint
  {
    (url: string) =>
      if url == "u1" then DetailResponse(OK, PayloadA)
      else if url == "u2" && !u2Missing then DetailResponse(OK, PayloadB)
      else if url == "u3" then DetailResponse(OK, PayloadC)
      else DetailResponse(404, PayloadA)
  }

  /**
   * Listing the three entries with page size 2: the second request returns
   * the short page [c], so two requests collect a, b and c.
   */
  lemma ListingOfThree(n: nat)
    requires FullPages(Serving([A, B, C]), 2, 0, n) && IsLast(PageAt(Serving([A, B, C]), 2, 0, n), 2)
    ensures n + 1 == 2
    ensures Collected(Serving([A, B, C]), 2, 0, n + 1) == [A, B, C]
  {
    ServingEverything([A, B, C], 2, n);
  }

  /** A one-word name splits into itself. */
  lemma SingleName(s: string)
    requires ',' !in s
    ensures Split(s, Sep) == [s]
  {
    forall j: nat ensures !OccursAt(s, Sep, j) {
      if j + 2 <= |s| {
        assert s[j..j + 2][0] == s[j];
      }
    }
    SplitJoin([s]);
  }

  lemma RecordsOfThree()
    ensures ProjectAll([PayloadA, PayloadB, PayloadC]) ==
      [RecA, RecB, RecC]
  {
    assert TypeNames(PayloadA) == ["fire"] && TypeNames(PayloadB) == ["water"];
    assert AbilityNames(PayloadA) == ["burn"] && AbilityNames(PayloadB) == ["torrent"] && AbilityNames(PayloadC) == ["blaze"];
  }

  /** Three detail requests contribute their payloads one after another. */
  lemma FetchOfTriple(endpoint: DetailEndpoint, x: Summary, y: Summary, z: Summary)
    ensures FetchAll(endpoint, [x, y, z]) ==
      FetchAll(endpoint, [x]) + FetchAll(endpoint, [y]) + FetchAll(endpoint, [z])
  {
    assert [x, y, z] == [x, y] + [z] && [x, y] == [x] + [y];
    FetchAllAppend(endpoint, [x, y], [z]);
    FetchAllAppend(endpoint, [x], [y]);
  }

  lemma FetchOfThree()
    ensures FetchAll(Detail(false), [A, B, C]) == [PayloadA, PayloadB, PayloadC]
  {
    var e := Detail(false);
    assert FetchAll(e, [A]) == [PayloadA] by {
      assert e(A.url) == DetailResponse(OK, PayloadA);
      FetchAllSingle(e, A);
    }
    assert FetchAll(e, [B]) == [PayloadB] by {
      assert e(B.url) == DetailResponse(OK, PayloadB);
      FetchAllSingle(e, B);
    }
    assert FetchAll(e, [C]) == [PayloadC] by {
      assert e(C.url) == DetailResponse(OK, PayloadC);
      FetchAllSingle(e, C);
    }
    FetchOfTriple(e, A, B, C);
  }

  lemma CategoriesOfThree(t: string)
    ensures t in Categories([PayloadA, PayloadB, PayloadC]) <==> t == "fire" || t == "water"
  {
    var ps := [PayloadA, PayloadB, PayloadC];
    assert TypeNames(ps[0]) == ["fire"] && TypeNames(ps[1]) == ["water"] && TypeNames(ps[2]) == ["fire"];
    if t == "fire" {
      assert t in TypeNames(ps[0]);
    } else if t == "water" {
      assert t in TypeNames(ps[1]);
    }
  }

  /** Filtering a list with a first element: that element is kept or dropped, the rest is filtered. */
  lemma MembersCons(typeName: string, x: Record, rest: seq<Record>)
    ensures Members(typeName, [x] + rest) == (if HasType(x, typeName) then [x] else []) + Members(typeName, rest)
  {
    assert ([x] + rest)[1..] == rest;
  }

  /** Filtering a two-element list, element by element. */
  lemma MembersOfPair(typeName: string, y: Record, z: Record)
    ensures Members(typeName, [y, z]) ==
      (if HasType(y, typeName) then [y] else []) + (if HasType(z, typeName) then [z] else [])
  {
    assert Members(typeName, [z]) == (if HasType(z, typeName) then [z] else []) by {
      MembersCons(typeName, z, []);
      assert [z] + [] == [z];
    }
    MembersCons(typeName, y, [z]);
    assert [y] + [z] == [y, z];
  }

  /** Filtering a three-element list, element by element. */
  lemma MembersOfTriple(typeName: string, x: Record, y: Record, z: Record)
    ensures Members(typeName, [x, y, z]) ==
      (if HasType(x, typeName) then [x] else []) + (if HasType(y, typeName) then [y] else []) +
      (if HasType(z, typeName) then [z] else [])
  {
    MembersOfPair(typeName, y, z);
    MembersCons(typeName, x, [y, z]);
    assert [x] + [y, z] == [x, y, z];
  }

  lemma FireOfThree()
    ensures Members("fire", [RecA, RecB, RecC]) == [RecA, RecC]
  {
    SingleName("fire");
    SingleName("water");
    assert HasType(RecA, "fire") && !HasType(RecB, "fire") && HasType(RecC, "fire");
    MembersOfTriple("fire", RecA, RecB, RecC);
  }

  lemma WaterOfThree()
    ensures Members("water", [RecA, RecB, RecC]) == [RecB]
  {
    SingleName("fire");
    SingleName("water");
    assert !HasType(RecA, "water") && HasType(RecB, "water") && !HasType(RecC, "water");
    MembersOfTriple("water", RecA, RecB, RecC);
  }

  /** A grouping is determined by its keys and the members under each. */
  /** A report is determined by its keys and by the filtered list under each key. */
  lemma ReportIs(ps: seq<Payload>, m: map<string, seq<Record>>)
    requires forall t :: t in Categories(ps) <==> t in m
    requires forall t :: t in m ==> m[t] == Members(t, ProjectAll(ps))
    ensures Report(ps) == m
  {
    assert Report(ps).Keys == m.Keys;
  }

  /**
   * All three detail requests succeed: the report groups "fire" to [a, c]
   * and "water" to [b].
   */
  lemma ReportOfThree()
    ensures FetchAll(Detail(false), [A, B, C]) == [PayloadA, PayloadB, PayloadC]
    ensures Report([PayloadA, PayloadB, PayloadC]) ==
      map["fire" := [RecA, RecC],
          "water" := [RecB]]
  {
    FetchOfThree();
    RecordsOfThree();
    FireOfThree();
    WaterOfThree();
    forall t ensures t in Categories([PayloadA, PayloadB, PayloadC]) <==> t == "fire" || t == "water" {
      CategoriesOfThree(t);
    }
    ReportIs([PayloadA, PayloadB, PayloadC],
      map["fire" := [RecA, RecC],
          "water" := [RecB]]);
  }

  lemma FetchWithoutB()
    ensures FetchAll(Detail(true), [A, B, C]) == [PayloadA, PayloadC]
  {
    var e := Detail(true);
    assert FetchAll(e, [A]) == [PayloadA] by {
      assert e(A.url) == DetailResponse(OK, PayloadA);
      FetchAllSingle(e, A);
    }
    assert FetchAll(e, [B]) == [] by {
      assert e(B.url) == DetailResponse(404, PayloadA);
      FetchAllSingle(e, B);
    }
    assert FetchAll(e, [C]) == [PayloadC] by {
      assert e(C.url) == DetailResponse(OK, PayloadC);
      FetchAllSingle(e, C);
    }
    FetchOfTriple(e, A, B, C);
  }

  lemma CategoriesWithoutB(t: string)
    ensures t in Categories([PayloadA, PayloadC]) <==> t == "fire"
  {
    assert TypeNames(PayloadA) == ["fire"] && TypeNames(PayloadC) == ["fire"];
  }

  lemma MembersWithoutB()
    ensures ProjectAll([PayloadA, PayloadC]) == [RecA, RecC]
    ensures Members("fire", [RecA, RecC]) ==
      [RecA, RecC]
  {
    var ra, rc := RecA, RecC;
    assert [ra] + [rc] == [ra, rc] && [rc] + [] == [rc];
    assert TypeNames(PayloadA) == ["fire"] && TypeNames(PayloadC) == ["fire"];
    assert AbilityNames(PayloadA) == ["burn"] && AbilityNames(PayloadC) == ["blaze"];
    SingleName("fire");
    assert HasType(ra, "fire") && HasType(rc, "fire");
    assert Members("fire", []) == [];
    MembersCons("fire", rc, []);
    MembersCons("fire", ra, [rc]);
  }

  /**
   * The detail request for u2 answers 404: b is dropped, and "water" is not
   * a key of the report at all.
   */
  lemma ReportWithoutB()
    ensures FetchAll(Detail(true), [A, B, C]) == [PayloadA, PayloadC]
    ensures Report([PayloadA, PayloadC]) ==
      map["fire" := [RecA, RecC]]
  {
    FetchWithoutB();
    MembersWithoutB();
    forall t ensures t in Categories([PayloadA, PayloadC]) <==> t == "fire" {
      CategoriesWithoutB(t);
    }
    ReportIs([PayloadA, PayloadC],
      map["fire" := [RecA, RecC]]);
  }

  /**
   * A type name that contains `", "` is a key of the report, yet the record
   * carrying it is not filed under it: its joined types string splits into
   * the two halves of the name.
   */
  lemma SeparatorInTypeName()
    ensures var p := Payload(4, "d", [TypeSlot(NamedRef("x, y"))], []);
      "x, y" in Report([p]) && Report([p])["x, y"] == []
  {
    var p := Payload(4, "d", [TypeSlot(NamedRef("x, y"))], []);
    var r := Record(4, "d", "x, y", "");
    assert ProjectAll([p]) == [r] by {
      assert TypeNames(p) == ["x, y"] && AbilityNames(p) == [];
    }
    assert !HasType(r, "x, y") by {
      assert Join(["x", "y"], Sep) == "x, y";
      SingleName("x");
      SingleName("y");
      SplitJoin(["x", "y"]);
    }
    assert Members("x, y", [r]) == [] by {
      MembersCons("x, y", r, []);
      assert [r] + [] == [r];
    }
    assert "x, y" in Categories([p]) by {
      assert "x, y" in TypeNames([p][0]);
    }
  }
}
