/** The `{id: type}` dictionary that the category and question listings
    build by assigning each category in turn (a Python dict, so a later
    category with the same id overwrites an earlier one). */
module Categories {
  import opened Questions

  ghost predicate CategoryIdsAscending(cats: seq<Category>) {
    forall i, j :: 0 <= i < j < |cats| ==> cats[i].id < cats[j].id
  }

  /** The dictionary after every category of `cats` has been assigned. */
  function CategoryMap(cats: seq<Category>): map<int, string> {
    if cats == [] then map[]
    else CategoryMap(cats[..|cats| - 1])[cats[|cats| - 1].id := cats[|cats| - 1].kind]
  }

  /** Every category id is a key, and nothing else is. */
  lemma {:induction false} CategoryMapKeys(cats: seq<Category>)
    ensures CategoryMap(cats).Keys == set c | c in cats :: c.id
  {
    if cats != [] {
      var init := cats[..|cats| - 1];
      CategoryMapKeys(init);
      assert cats == init + [cats[|cats| - 1]];
    }
  }

  /** A key maps to the label of the last category carrying that id. */
  lemma {:induction false} CategoryMapLast(cats: seq<Category>, i: nat)
    requires i < |cats|
    requires forall j :: i < j < |cats| ==> cats[j].id != cats[i].id
    ensures cats[i].id in CategoryMap(cats)
    ensures CategoryMap(cats)[cats[i].id] == cats[i].kind
  {
    if i < |cats| - 1 {
      CategoryMapLast(cats[..|cats| - 1], i);
    }
  }

  /** With the ids ascending (as `order_by(Category.id)` returns them), every
      category is listed under its own id with its own label. */
  lemma CategoryMapOfAscending(cats: seq<Category>)
    requires CategoryIdsAscending(cats)
    ensures forall c :: c in cats ==> c.id in CategoryMap(cats) && CategoryMap(cats)[c.id] == c.kind
    ensures |CategoryMap(cats)| == |cats|
  {
    forall c | c in cats ensures c.id in CategoryMap(cats) && CategoryMap(cats)[c.id] == c.kind {
      var i :| 0 <= i < |cats| && cats[i] == c;
      CategoryMapLast(cats, i);
    }
    CategoryMapSize(cats);
  }

  lemma {:induction false} CategoryMapSize(cats: seq<Category>)
    requires CategoryIdsAscending(cats)
    ensures |CategoryMap(cats)| == |cats|
  {
    if cats != [] {
      var init, last := cats[..|cats| - 1], cats[|cats| - 1];
      CategoryMapSize(init);
      CategoryMapKeys(init);
      assert last.id !in CategoryMap(init) by {
        forall c | c in init ensures c.id != last.id {
          var k :| 0 <= k < |init| && init[k] == c;
        }
      }
    }
  }

  /** The loop of `get_categories` and `get_questions` that fills `categoriesDict`. */
  method BuildCategoryMap(cats: seq<Category>) returns (m: map<int, string>)
    ensures m == CategoryMap(cats)
  {
    m := map[];
    var i := 0;
    while i < |cats|
      invariant 0 <= i <= |cats|
      invariant m == CategoryMap(cats[..i])
    {
      assert cats[..i + 1][..i] == cats[..i];
      m := m[cats[i].id := cats[i].kind];
      i := i + 1;
    }
    assert cats[..|cats|] == cats;
  }
}
