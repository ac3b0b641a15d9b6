/** The records of the trivia store and the order-preserving selections the
    service makes over them (`filter(...)`, `one_or_none()`, `delete()`). */
module Questions {

  datatype Option<T> = None | Some(value: T)

  /** A stored question. Its formatted JSON form carries exactly these five
      fields, so the model uses the record itself as that form. */
  datatype Question = Question(id: int, question: string, answer: string, category: int, difficulty: int)

  /** A category; `kind` is the column the source calls `type`. */
  datatype Category = Category(id: int, kind: string)

  /** Ids strictly ascending: the order `order_by(Question.id)` yields.
      Strictness also makes the ids unique, as a primary key is. */
  ghost predicate IdsAscending(qs: seq<Question>) {
    forall i, j :: 0 <= i < j < |qs| ==> qs[i].id < qs[j].id
  }

  predicate HasId(qs: seq<Question>, id: int) {
    exists i :: 0 <= i < |qs| && qs[i].id == id
  }

  /** The questions of `qs` that satisfy `keep`, in the order of `qs`. */
  function Select(qs: seq<Question>, keep: Question -> bool): (r: seq<Question>)
    ensures |r| <= |qs|
    ensures forall q :: q in r <==> q in qs && keep(q)
  {
    if qs == [] then []
    else (if keep(qs[0]) then [qs[0]] else []) + Select(qs[1..], keep)
  }

  /** `Question.query.filter(Question.category == c)`. */
  function InCategory(qs: seq<Question>, c: int): seq<Question> {
    Select(qs, (q: Question) => q.category == c)
  }

  /** The store after the row with id `id` is gone. */
  function Without(qs: seq<Question>, id: int): seq<Question> {
    Select(qs, (q: Question) => q.id != id)
  }

  /** `Question.query.filter(Question.id == id).one_or_none()`, as a position. */
  function Find(qs: seq<Question>, id: int): (r: Option<nat>)
    ensures r.Some? ==> r.value < |qs| && qs[r.value].id == id
    ensures r.None? <==> !HasId(qs, id)
  {
    if qs == [] then None
    else if qs[0].id == id then Some(0)
    else match Find(qs[1..], id)
      case None => None
      case Some(k) => Some(k + 1)
  }

  /** A selection keeps the store's id order. */
  lemma {:induction false} SelectAscending(qs: seq<Question>, keep: Question -> bool)
    requires IdsAscending(qs)
    ensures IdsAscending(Select(qs, keep))
  {
    if qs != [] {
      var tail := Select(qs[1..], keep);
      SelectAscending(qs[1..], keep);
      forall q | q in tail ensures qs[0].id < q.id {
        var j :| 0 <= j < |qs[1..]| && qs[1..][j] == q;
        assert qs[j + 1] == q;
      }
    }
  }

  /** Only the questions of category `c` are selected, all of them, in id order. */
  lemma InCategoryExact(qs: seq<Question>, c: int)
    requires IdsAscending(qs)
    ensures forall q :: q in InCategory(qs, c) <==> q in qs && q.category == c
    ensures IdsAscending(InCategory(qs, c))
  {
    SelectAscending(qs, (q: Question) => q.category == c);
  }

  /** Removing an id that is stored takes out exactly that one row and keeps
      every other row, in place. */
  lemma {:induction false} WithoutAt(qs: seq<Question>, i: nat)
    requires i < |qs|
    requires forall k :: 0 <= k < |qs| && k != i ==> qs[k].id != qs[i].id
    ensures Without(qs, qs[i].id) == qs[..i] + qs[i + 1..]
  {
    var id, tail := qs[i].id, qs[1..];
    assert Without(qs, id) == (if qs[0].id != id then [qs[0]] else []) + Without(tail, id);
    if i == 0 {
      forall k | 0 <= k < |tail| ensures tail[k].id != id {
        assert tail[k] == qs[k + 1];
      }
      WithoutAbsent(tail, id);
      assert qs[..0] + qs[1..] == tail;
    } else {
      forall k | 0 <= k < |tail| && k != i - 1 ensures tail[k].id != tail[i - 1].id {
        assert tail[k] == qs[k + 1];
      }
      WithoutAt(tail, i - 1);
      assert qs[..i] + qs[i + 1..] == [qs[0]] + (tail[..i - 1] + tail[i..]);
    }
  }

  /** After removing a stored id the table is one row shorter and no row
      carries that id any more; the rest stays in id order. */
  lemma WithoutAtGone(qs: seq<Question>, i: nat)
    requires IdsAscending(qs)
    requires i < |qs|
    ensures |Without(qs, qs[i].id)| == |qs| - 1
    ensures !HasId(Without(qs, qs[i].id), qs[i].id)
  {
    var id := qs[i].id;
    assert forall k :: 0 <= k < |qs| && k != i ==> qs[k].id != id;
    WithoutAt(qs, i);
    var r := Without(qs, id);
    forall k | 0 <= k < |r| ensures r[k].id != id {
      assert r[k] in r;
    }
  }

  /** Removing an id that is not stored changes nothing. */
  lemma {:induction false} WithoutAbsent(qs: seq<Question>, id: int)
    requires !HasId(qs, id)
    ensures Without(qs, id) == qs
  {
    if qs != [] {
      assert qs[0].id != id;
      forall k | 0 <= k < |qs[1..]| ensures qs[1..][k].id != id {
        assert qs[1..][k] == qs[k + 1];
      }
      WithoutAbsent(qs[1..], id);
      assert qs == [qs[0]] + qs[1..];
    }
  }
}
