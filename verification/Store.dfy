/**
 The dedup store: one row per active availability, keyed by the primary key
 `key`. Each operation takes the database's verdict as an oracle; a failed
 operation has no effect.
 */
module DedupStore {
  import opened Model

  datatype Row = Row(
    source: string,
    storeName: string,
    product: string,
    stock: int,
    price: Option<real>,
    url: string,
    location: string)

  type Table = map<Key, Row>

  function RowOf(a: Offer): Row {
    Row(a.source, a.storeName, a.productName, a.stock, a.price, a.url, a.location)
  }

  /** The rows one product owns, by the product column. */
  function KeysOf(rows: Table, product: string): set<Key> {
    set k | k in rows && rows[k].product == product
  }

  function Deleted(rows: Table, key: Key): Table {
    map k | k in rows && k != key :: rows[k]
  }

  /** INSERT: refused by the primary key when the row exists. */
  function Recorded(rows: Table, a: Offer): Table {
    if a.key in rows then rows else rows[a.key := RowOf(a)]
  }

  /** UPDATE: stock and price only, a missing row stays missing. */
  function Touched(rows: Table, a: Offer): Table {
    if a.key in rows then rows[a.key := rows[a.key].(stock := a.stock, price := a.price)] else rows
  }

  /** `keys` lists exactly the elements of `s`, each once. */
  ghost predicate Enumerates(keys: seq<Key>, s: set<Key>) {
    && (forall k :: k in keys <==> k in s)
    && (forall i, j :: 0 <= i < j < |keys| ==> keys[i] != keys[j])
  }

  /**
   An enumeration of `s` in the order `order` proposes. The query has no ORDER
   BY, so the order is an oracle; every enumeration of `s` is its own order.
   */
  ghost function Arrange(order: seq<Key>, s: set<Key>): seq<Key>
    decreases |order|, s
  {
    if s == {} then []
    else if order == [] then
      var k :| k in s;
      [k] + Arrange([], s - {k})
    else if order[0] in s then [order[0]] + Arrange(order[1..], s - {order[0]})
    else Arrange(order[1..], s)
  }

  lemma {:induction false} ArrangeEnumerates(order: seq<Key>, s: set<Key>)
    ensures Enumerates(Arrange(order, s), s)
    decreases |order|, s
  {
    if s == {} {
    } else {
      if order != [] && order[0] !in s {
        ArrangeEnumerates(order[1..], s);
      } else {
        var a := Arrange(order, s);
        var k := a[0];
        ArrangeEnumerates(if order == [] then [] else order[1..], s - {k});
        assert a == [k] + a[1..];
        assert Enumerates(a[1..], s - {k});
        forall x ensures x in a <==> x in s {
          assert x in a <==> x == k || x in a[1..];
        }
        forall i, j | 0 <= i < j < |a| ensures a[i] != a[j] {
          assert a[j] == a[1..][j - 1];
          assert a[j] in a[1..];
          if i > 0 {
            assert a[i] == a[1..][i - 1];
          }
        }
      }
    }
  }

  lemma TailEnumerates(keys: seq<Key>, s: set<Key>)
    requires keys != [] && Enumerates(keys, s)
    ensures keys[0] in s && Enumerates(keys[1..], s - {keys[0]})
  {
    var rest := keys[1..];
    assert keys == [keys[0]] + rest;
    forall i, j | 0 <= i < j < |rest| ensures rest[i] != rest[j] {
      assert rest[i] == keys[i + 1] && rest[j] == keys[j + 1];
    }
    forall i | 0 <= i < |rest| ensures rest[i] != keys[0] {
      assert rest[i] == keys[i + 1];
    }
    assert forall k :: k in keys <==> k == keys[0] || k in rest;
  }

  /** The order oracle loses nothing: any answer of the query is reachable. */
  lemma {:induction false} ArrangeOfEnumeration(keys: seq<Key>, s: set<Key>)
    requires Enumerates(keys, s)
    ensures Arrange(keys, s) == keys
    decreases |keys|
  {
    if keys == [] {
      assert s == {};
    } else {
      TailEnumerates(keys, s);
      ArrangeOfEnumeration(keys[1..], s - {keys[0]});
    }
  }

  class Store {
    var rows: Table

    constructor ()
      ensures rows == map[]
    {
      rows := map[];
    }

    method Record(a: Offer, dbOk: bool) returns (ok: bool)
      modifies this
      ensures ok <==> dbOk && a.key !in old(rows)
      ensures rows == if ok then old(rows)[a.key := RowOf(a)] else old(rows)
    {
      ok := dbOk && a.key !in rows;
      if ok {
        rows := rows[a.key := RowOf(a)];
      }
    }

    method Lookup(key: Key, dbOk: bool) returns (price: Option<real>, known: bool, ok: bool)
      ensures ok == dbOk
      ensures ok ==> (known <==> key in rows)
      ensures price == if ok && known then rows[key].price else None
    {
      price, known, ok := None, false, dbOk;
      if dbOk && key in rows {
        price, known := rows[key].price, true;
      }
    }

    method Touch(a: Offer, dbOk: bool) returns (ok: bool)
      modifies this
      ensures ok == dbOk
      ensures !ok ==> rows == old(rows)
      ensures rows.Keys == old(rows).Keys
      ensures forall k | k in rows && k != a.key :: rows[k] == old(rows)[k]
      ensures ok && a.key in rows ==> rows[a.key] == old(rows)[a.key].(stock := a.stock, price := a.price)
    {
      ok := dbOk;
      if dbOk && a.key in rows {
        rows := rows[a.key := rows[a.key].(stock := a.stock, price := a.price)];
      }
    }

    /** The cursor loop; the database hands the rows out in any order. */
    method ProductKeys(product: string, dbOk: bool) returns (keys: seq<Key>, ok: bool)
      ensures ok == dbOk
      ensures ok ==> Enumerates(keys, KeysOf(rows, product))
    {
      keys, ok := [], dbOk;
      if !dbOk {
        return;
      }
      var remaining := KeysOf(rows, product);
      while remaining != {}
        invariant remaining <= KeysOf(rows, product)
        invariant forall k :: k in keys <==> k in KeysOf(rows, product) - remaining
        invariant forall i, j :: 0 <= i < j < |keys| ==> keys[i] != keys[j]
        decreases remaining
      {
        var k :| k in remaining;
        assert k !in keys;
        ghost var before := keys;
        keys := keys + [k];
        forall i, j | 0 <= i < j < |keys| ensures keys[i] != keys[j] {
          assert before[i] in before;
          assert j < |before| ==> keys[j] == before[j];
        }
        remaining := remaining - {k};
      }
    }

    method Delete(key: Key, dbOk: bool) returns (ok: bool)
      modifies this
      ensures ok == dbOk
      ensures ok ==> rows.Keys == old(rows).Keys - {key}
      ensures forall k | k in rows && k != key :: k in old(rows) && rows[k] == old(rows)[k]
      ensures !ok ==> rows == old(rows)
    {
      ok := dbOk;
      if dbOk {
        rows := map k | k in rows && k != key :: rows[k];
      }
    }
  }
}
