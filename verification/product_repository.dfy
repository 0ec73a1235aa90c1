/** The in-memory product store (ProductRepository.kt): an insertion-ordered
    map from product id to product, represented as the sequence of its
    values in insertion order. `save` is an upsert by id. */
module ProductRepository {
  import opened Common
  import opened Entities

  /** The store's invariant: no id occurs twice, as in a map. */
  predicate DistinctIds(r: seq<Product>) {
    forall i, j | 0 <= i < j < |r| :: r[i].id != r[j].id
  }

  /** The position of the first product with this id, if any. */
  function IndexOf(r: seq<Product>, id: string): (k: Option<nat>)
    ensures k.None? <==> forall i | 0 <= i < |r| :: r[i].id != id
    ensures k.Some? ==> k.value < |r| && r[k.value].id == id
    ensures k.Some? ==> forall i | 0 <= i < k.value :: r[i].id != id
  {
    if |r| == 0 then None
    else if r[0].id == id then Some(0)
    else
      match IndexOf(r[1..], id)
      case None => None
      case Some(j) => Some(j + 1)
  }

  /** `findAll()`: the stored products in insertion order. */
  function FindAll(r: seq<Product>): (out: seq<Product>)
    requires DistinctIds(r)
    ensures DistinctIds(out)
    ensures |out| == |r| && forall i | 0 <= i < |r| :: out[i] == r[i]
  {
    r
  }

  /** `findById(id)`: the product stored under `id`, or none. */
  function FindById(r: seq<Product>, id: string): (o: Option<Product>)
    ensures o.None? <==> forall i | 0 <= i < |r| :: r[i].id != id
    ensures o.Some? ==> o.value.id == id && o.value in r
  {
    match IndexOf(r, id)
    case None => None
    case Some(k) => Some(r[k])
  }

  /** `save(product)`: replaces the product stored under the same id where
      it stands, or appends it when the id is new. */
  function Save(r: seq<Product>, p: Product): (out: seq<Product>)
    ensures IndexOf(r, p.id).None? ==> out == r + [p]
    ensures IndexOf(r, p.id).Some? ==>
              var k := IndexOf(r, p.id).value;
              |out| == |r| && out[k] == p &&
              forall i | 0 <= i < |r| && i != k :: out[i] == r[i]
    ensures DistinctIds(r) ==> DistinctIds(out)
  {
    match IndexOf(r, p.id)
    case None => r + [p]
    case Some(k) => r[k := p]
  }

  /** `delete(id)`: removes the product stored under `id`, if any. */
  function Delete(r: seq<Product>, id: string): (out: seq<Product>)
    ensures forall q :: q in out <==> q in r && q.id != id
    ensures |out| <= |r|
  {
    if |r| == 0 then []
    else (if r[0].id == id then [] else [r[0]]) + Delete(r[1..], id)
  }

  /** Right after `save(p)`, `findById(p.id)` is `p`. */
  lemma FindAfterSave(r: seq<Product>, p: Product)
    ensures FindById(Save(r, p), p.id) == Some(p)
  {
    var out := Save(r, p);
    match IndexOf(r, p.id)
    case None =>
      assert out[|r|] == p;
    case Some(k) =>
      assert out[k] == p;
  }

  /** Saving one product does not change what any other id finds. */
  lemma SaveKeepsOthers(r: seq<Product>, p: Product, id: string)
    requires id != p.id
    ensures FindById(Save(r, p), id) == FindById(r, id)
  {
    var out := Save(r, p);
    match IndexOf(r, id)
    case None =>
      assert forall i | 0 <= i < |out| :: out[i].id != id;
    case Some(k) =>
      assert out[k] == r[k];
      assert IndexOf(out, id) == Some(k);
  }

  /** What `findById` sees after `save(p)`: `p` under its id, and every
      other id as before. */
  lemma SaveLookups(r: seq<Product>, p: Product)
    ensures FindById(Save(r, p), p.id) == Some(p)
    ensures forall id | id != p.id :: FindById(Save(r, p), id) == FindById(r, id)
    ensures forall q | q in Save(r, p) :: q == p || q in r
  {
    FindAfterSave(r, p);
    forall id | id != p.id ensures FindById(Save(r, p), id) == FindById(r, id) {
      SaveKeepsOthers(r, p, id);
    }
  }

  /** Saving twice under one id leaves the store as saving the second
      product alone would. */
  lemma SaveTwice(r: seq<Product>, p: Product, q: Product)
    requires p.id == q.id
    ensures Save(Save(r, p), q) == Save(r, q)
  {
    var s := Save(r, p);
    match IndexOf(r, p.id)
    case None =>
      assert s[|r|] == p;
      assert IndexOf(s, q.id) == Some(|r|);
    case Some(k) =>
      assert IndexOf(s, q.id) == Some(k);
  }

  /** Re-saving the product already stored changes nothing. */
  lemma SaveStored(r: seq<Product>, p: Product)
    requires FindById(r, p.id) == Some(p)
    ensures Save(r, p) == r
  {
  }

  /** After `delete(id)` the id is gone. */
  lemma FindAfterDelete(r: seq<Product>, id: string)
    ensures FindById(Delete(r, id), id) == None
  {
    var out := Delete(r, id);
    forall i | 0 <= i < |out| ensures out[i].id != id {
      assert out[i] in out;
    }
  }

  /** A lookup skips a first product with another id. */
  lemma FindByIdTail(r: seq<Product>, id: string)
    requires |r| > 0 && r[0].id != id
    ensures FindById(r, id) == FindById(r[1..], id)
  {
    match IndexOf(r[1..], id)
    case None =>
    case Some(j) =>
      assert r[1..][j] == r[j + 1];
  }

  /** Deleting one id does not change what any other id finds. */
  lemma {:induction false} DeleteKeepsOthers(r: seq<Product>, id: string, other: string)
    requires other != id
    ensures FindById(Delete(r, id), other) == FindById(r, other)
  {
    if |r| > 0 {
      var rest := Delete(r[1..], id);
      DeleteKeepsOthers(r[1..], id, other);
      if r[0].id == id {
        assert Delete(r, id) == rest;
        FindByIdTail(r, other);
      } else {
        var out := Delete(r, id);
        assert out == [r[0]] + rest;
        assert out[0] == r[0] && out[1..] == rest;
        if r[0].id != other {
          FindByIdTail(out, other);
          FindByIdTail(r, other);
        }
      }
    }
  }

  /** Deleting an id that is not stored is a no-op. */
  lemma {:induction false} DeleteAbsent(r: seq<Product>, id: string)
    requires forall i | 0 <= i < |r| :: r[i].id != id
    ensures Delete(r, id) == r
  {
    if |r| > 0 {
      DeleteAbsent(r[1..], id);
      assert r == [r[0]] + r[1..];
    }
  }

  /** In a store with distinct ids, `delete(id)` removes exactly the one
      stored product and keeps the others in order. */
  lemma {:induction false} DeleteRemovesOne(r: seq<Product>, id: string)
    requires DistinctIds(r)
    requires IndexOf(r, id).Some?
    ensures var k := IndexOf(r, id).value;
            Delete(r, id) == r[..k] + r[k + 1..]
  {
    var k := IndexOf(r, id).value;
    DistinctTail(r);
    if k == 0 {
      DeleteAbsent(r[1..], id);
    } else {
      assert IndexOf(r[1..], id) == Some(k - 1);
      DeleteRemovesOne(r[1..], id);
      ConsSlices(r, k);
    }
  }

  /** The tail of a store with distinct ids has distinct ids, none of them
      the head's. */
  lemma DistinctTail(r: seq<Product>)
    requires DistinctIds(r) && |r| > 0
    ensures DistinctIds(r[1..])
    ensures forall i | 0 <= i < |r| - 1 :: r[1..][i].id != r[0].id
  {
    forall i | 0 <= i < |r| - 1 ensures r[1..][i].id != r[0].id {
      assert r[1..][i] == r[i + 1];
    }
  }

  /** Putting the head back in front of the tail with position `k - 1`
      removed gives the store with position `k` removed. */
  lemma ConsSlices(r: seq<Product>, k: nat)
    requires 0 < k < |r|
    ensures [r[0]] + (r[1..][..k - 1] + r[1..][k..]) == r[..k] + r[k + 1..]
  {
    assert r[1..][..k - 1] == r[1..k];
    assert r[1..][k..] == r[k + 1..];
    assert [r[0]] + r[1..k] == r[..k];
  }

  /** `delete` keeps the ids distinct. */
  lemma {:induction false} DeleteKeepsDistinct(r: seq<Product>, id: string)
    requires DistinctIds(r)
    ensures DistinctIds(Delete(r, id))
  {
    if |r| > 0 {
      DeleteKeepsDistinct(r[1..], id);
      var rest := Delete(r[1..], id);
      if r[0].id != id {
        forall j | 0 <= j < |rest| ensures rest[j].id != r[0].id {
          assert rest[j] in rest;
          assert rest[j] in r[1..];
        }
      }
    }
  }

  /** A call on the store. */
  datatype Command = SaveCmd(product: Product) | DeleteCmd(id: string)

  function Apply(r: seq<Product>, cmd: Command): seq<Product> {
    match cmd
    case SaveCmd(p) => Save(r, p)
    case DeleteCmd(id) => Delete(r, id)
  }

  function ApplyAll(r: seq<Product>, cmds: seq<Command>): seq<Product>
    decreases |cmds|
  {
    if |cmds| == 0 then r else ApplyAll(Apply(r, cmds[0]), cmds[1..])
  }

  /** Every store reachable by saves and deletes keeps its ids distinct, so
      `findAll()` never lists an id twice. */
  lemma {:induction false} ApplyAllKeepsDistinct(r: seq<Product>, cmds: seq<Command>)
    requires DistinctIds(r)
    ensures DistinctIds(ApplyAll(r, cmds))
    decreases |cmds|
  {
    if |cmds| > 0 {
      if cmds[0].DeleteCmd? {
        DeleteKeepsDistinct(r, cmds[0].id);
      }
      ApplyAllKeepsDistinct(Apply(r, cmds[0]), cmds[1..]);
    }
  }
}
