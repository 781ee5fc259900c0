/**
 * The heart toggle: `heartStore` picks `$pull` when the store id is among the
 * user's hearts and `$addToSet` otherwise. Hearts are kept as the array
 * MongoDB stores, so repeated ids and the append position are visible.
 */
module Hearts {
  import opened Types

  datatype Operator = PullOp | AddToSetOp

  /** `hearts.includes(id) ? '$pull' : '$addToSet'`. */
  function ChooseOperator(hearts: seq<StoreId>, id: StoreId): (op: Operator)
    ensures op == PullOp <==> id in hearts
  {
    if id in hearts then PullOp else AddToSetOp
  }

  /** `$pull`: every occurrence of id is removed, the other ids keep their order. */
  function Pull(hearts: seq<StoreId>, id: StoreId): (r: seq<StoreId>)
    ensures id !in r
    ensures forall x :: x != id ==> multiset(r)[x] == multiset(hearts)[x]
    ensures id !in hearts ==> r == hearts
  {
    if hearts == [] then []
    else
      assert hearts == [hearts[0]] + hearts[1..];
      (if hearts[0] == id then [] else [hearts[0]]) + Pull(hearts[1..], id)
  }

  lemma {:induction false} PullConcat(a: seq<StoreId>, b: seq<StoreId>, id: StoreId)
    ensures Pull(a + b, id) == Pull(a, id) + Pull(b, id)
  {
    if a != [] {
      assert (a + b)[1..] == a[1..] + b;
      PullConcat(a[1..], b, id);
    } else {
      assert a + b == b;
    }
  }

  /** `$addToSet`: id is appended once unless it is already there. */
  function AddToSet(hearts: seq<StoreId>, id: StoreId): (r: seq<StoreId>)
    ensures id in r
    ensures forall x :: x != id ==> multiset(r)[x] == multiset(hearts)[x]
    ensures id in hearts ==> r == hearts
    ensures id !in hearts ==> |r| == |hearts| + 1 && r[..|hearts|] == hearts && multiset(r)[id] == 1
  {
    if id in hearts then hearts else hearts + [id]
  }

  function Apply(op: Operator, hearts: seq<StoreId>, id: StoreId): (r: seq<StoreId>)
    ensures op == PullOp ==> id !in r
    ensures op == AddToSetOp ==> id in r
    ensures forall x :: x != id ==> multiset(r)[x] == multiset(hearts)[x]
  {
    match op
    case PullOp => Pull(hearts, id)
    case AddToSetOp => AddToSet(hearts, id)
  }

  /** The user's hearts after heartStore. */
  function Toggle(hearts: seq<StoreId>, id: StoreId): (r: seq<StoreId>)
    ensures id in r <==> id !in hearts
    ensures id in hearts ==> multiset(r)[id] == 0
    ensures id !in hearts ==> multiset(r)[id] == 1
    ensures forall x :: x != id ==> multiset(r)[x] == multiset(hearts)[x]
  {
    Apply(ChooseOperator(hearts, id), hearts, id)
  }

  /** The other hearts keep their membership. */
  lemma ToggleKeepsOthers(hearts: seq<StoreId>, id: StoreId, x: StoreId)
    requires x != id
    ensures x in Toggle(hearts, id) <==> x in hearts
  {
    assert multiset(Toggle(hearts, id))[x] == multiset(hearts)[x];
    assert x in Toggle(hearts, id) <==> x in multiset(Toggle(hearts, id));
  }

  /** Toggling twice gives back the original membership of every id. */
  lemma ToggleTwiceMembership(hearts: seq<StoreId>, id: StoreId, x: StoreId)
    ensures x in Toggle(Toggle(hearts, id), id) <==> x in hearts
  {
    if x != id {
      ToggleKeepsOthers(hearts, id, x);
      ToggleKeepsOthers(Toggle(hearts, id), id, x);
    }
  }

  /** Hearting a store and un-hearting it again restores the array exactly. */
  lemma ToggleTwiceRestoresAbsent(hearts: seq<StoreId>, id: StoreId)
    requires id !in hearts
    ensures Toggle(Toggle(hearts, id), id) == hearts
  {
    PullConcat(hearts, [id], id);
    assert Pull([id], id) == [];
  }

  /** Un-hearting and hearting again leaves the id once, at the end. */
  lemma ToggleTwiceMovesPresent(hearts: seq<StoreId>, id: StoreId)
    requires id in hearts
    ensures Toggle(Toggle(hearts, id), id) == Pull(hearts, id) + [id]
  {
  }
}
