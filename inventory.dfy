/**
  The in-memory inventory behind the web server: a map from item name to
  price, and the state effects and outcomes of its five handlers. Each
  handler runs as one atomic step; the item name and the already-parsed
  price come in as parameters, and the HTTP status comes back as a value.
*/
module Inventory {
  import opened Seqs

  /** A price in dollars. The source stores a 32-bit float; here it is an exact real. */
  type Dollars = real

  /** The result of parsing the `price` query parameter: `None` when it does not parse. */
  datatype Option<T> = None | Some(value: T)

  /** The outcome a handler reports: 200, 404 or 400. */
  datatype Status = Ok | NotFound | BadRequest

  /** A list of (name, price) pairs that shows every entry of `items` exactly once. */
  ghost predicate IsListing(entries: seq<(string, Dollars)>, items: map<string, Dollars>) {
    && |entries| == |items|
    && (forall i :: 0 <= i < |entries| ==> entries[i].0 in items && items[entries[i].0] == entries[i].1)
    && (forall item :: item in items ==> (item, items[item]) in entries)
    && Distinct(entries)
  }

  /** The map that a list of pairs describes, later pairs overriding earlier ones. */
  function ToMap(entries: seq<(string, Dollars)>): map<string, Dollars> {
    if entries == [] then map[]
    else ToMap(entries[..|entries| - 1])[entries[|entries| - 1].0 := entries[|entries| - 1].1]
  }

  /** A listing describes the store it was taken from. */
  lemma {:induction false} ListingDescribesItems(entries: seq<(string, Dollars)>, items: map<string, Dollars>)
    requires forall i :: 0 <= i < |entries| ==> entries[i].0 in items && items[entries[i].0] == entries[i].1
    requires forall item :: item in items ==> (item, items[item]) in entries
    ensures ToMap(entries) == items
  {
    ToMapAgrees(entries, items);
    forall item | item in items ensures item in ToMap(entries) {
      var i :| 0 <= i < |entries| && entries[i] == (item, items[item]);
      ToMapHasKeys(entries, i);
    }
  }

  lemma {:induction false} ToMapAgrees(entries: seq<(string, Dollars)>, items: map<string, Dollars>)
    requires forall i :: 0 <= i < |entries| ==> entries[i].0 in items && items[entries[i].0] == entries[i].1
    ensures forall item :: item in ToMap(entries) ==> item in items && ToMap(entries)[item] == items[item]
    decreases |entries|
  {
    if entries != [] {
      ToMapAgrees(entries[..|entries| - 1], items);
    }
  }

  lemma {:induction false} ToMapHasKeys(entries: seq<(string, Dollars)>, i: nat)
    requires i < |entries|
    ensures entries[i].0 in ToMap(entries)
    decreases |entries|
  {
    if i < |entries| - 1 {
      ToMapHasKeys(entries[..|entries| - 1], i);
    }
  }

  /** Two listings of the same store hold the same pairs, whatever order the map gave them in. */
  lemma ListingsAgree(e1: seq<(string, Dollars)>, e2: seq<(string, Dollars)>, items: map<string, Dollars>)
    requires IsListing(e1, items) && IsListing(e2, items)
    ensures multiset(e1) == multiset(e2)
  {
    forall p ensures p in e1 <==> p in e2 {
      if p in e1 {
        var i :| 0 <= i < |e1| && e1[i] == p;
        assert (p.0, items[p.0]) in e2;
      }
      if p in e2 {
        var i :| 0 <= i < |e2| && e2[i] == p;
        assert (p.0, items[p.0]) in e1;
      }
    }
    SameElementsSameMultiset(e1, e2);
  }

  /** The `database` of the web server. */
  class Database {
    var items: map<string, Dollars>

    /** `newDatabase`: the store starts with shoes at $50 and socks at $5. */
    constructor ()
      ensures items == map["shoes" := 50.0, "socks" := 5.0]
    {
      items := map["shoes" := 50.0, "socks" := 5.0];
    }

    /** `list`: every (name, price) entry once, in the map's unspecified order. */
    method List() returns (entries: seq<(string, Dollars)>)
      ensures IsListing(entries, items)
    {
      entries := [];
      var rest := items.Keys;
      while rest != {}
        invariant rest <= items.Keys
        invariant |entries| + |rest| == |items|
        invariant forall i :: 0 <= i < |entries| ==> entries[i].0 in items && entries[i].0 !in rest && items[entries[i].0] == entries[i].1
        invariant forall item :: item in items && item !in rest ==> (item, items[item]) in entries
        invariant forall i, j :: 0 <= i < j < |entries| ==> entries[i].0 != entries[j].0
        decreases |rest|
      {
        var item :| item in rest;
        entries := entries + [(item, items[item])];
        rest := rest - {item};
      }
      assert forall i, j :: 0 <= i < j < |entries| ==> entries[i] != entries[j];
    }

    /**
      `price`: the stored price and Ok when the item is present; NotFound
      otherwise, with the zero value Go's map lookup yields.
    */
    method Price(item: string) returns (status: Status, price: Dollars)
      ensures item in items ==> status == Ok && price == items[item]
      ensures item !in items ==> status == NotFound && price == 0.0
    {
      if item in items {
        status, price := Ok, items[item];
      } else {
        status, price := NotFound, 0.0;
      }
    }

    /** `create`: once the price parses, stores it under the name, whether or not the name was there; a negative price is accepted. */
    method Create(item: string, price: Option<Dollars>) returns (status: Status)
      modifies this
      ensures price.None? ==> status == BadRequest && items == old(items)
      ensures price.Some? ==> status == Ok && items == old(items)[item := price.value]
    {
      if price.None? {
        return BadRequest;
      }
      items := items[item := price.value];
      status := Ok;
    }

    /** `update`: rejects a price that does not parse or is negative, then an absent item, then overwrites the price. */
    method Update(item: string, price: Option<Dollars>) returns (status: Status)
      modifies this
      ensures (price.None? || price.value < 0.0) ==> status == BadRequest && items == old(items)
      ensures price.Some? && price.value >= 0.0 && item !in old(items) ==> status == NotFound && items == old(items)
      ensures price.Some? && price.value >= 0.0 && item in old(items) ==>
                status == Ok && items == old(items)[item := price.value] && items.Keys == old(items).Keys
    {
      if price.None? || price.value < 0.0 {
        return BadRequest;
      }
      if item !in items {
        return NotFound;
      }
      items := items[item := price.value];
      status := Ok;
    }

    /** `delete`: NotFound when the item is absent; otherwise removes exactly that entry. */
    method Delete(item: string) returns (status: Status)
      modifies this
      ensures item in old(items) ==> status == Ok && items == old(items) - {item}
      ensures item !in old(items) ==> status == NotFound && items == old(items)
    {
      if item !in items {
        return NotFound;
      }
      items := items - {item};
      status := Ok;
    }
  }

  /* Scenarios on a freshly seeded store. */

  /** A created item reads back at the price it was created with. */
  method CreateThenPrice(item: string, p: Dollars) returns (created: Status, status: Status, price: Dollars)
    ensures created == Ok && status == Ok && price == p
  {
    var db := new Database();
    created := db.Create(item, Some(p));
    status, price := db.Price(item);
  }

  /** `create` takes a negative price that `update` refuses. */
  method NegativePriceAsymmetry() returns (created: Status, updated: Status, price: Dollars)
    ensures created == Ok && updated == BadRequest && price == -1.0
  {
    var db := new Database();
    created := db.Create("hats", Some(-1.0));
    updated := db.Update("socks", Some(-1.0));
    var found;
    found, price := db.Price("hats");
  }

  /** Updating a seeded item changes its price; updating an unknown item is NotFound; a negative price leaves the old one. */
  method UpdateScenarios() returns (updated: Status, price: Dollars, ghostUpdate: Status, rejected: Status, kept: Dollars)
    ensures updated == Ok && price == 7.0
    ensures ghostUpdate == NotFound
    ensures rejected == BadRequest && kept == 7.0
  {
    var db := new Database();
    updated := db.Update("socks", Some(7.0));
    var found;
    found, price := db.Price("socks");
    ghostUpdate := db.Update("ghost", Some(7.0));
    rejected := db.Update("socks", Some(-1.0));
    found, kept := db.Price("socks");
  }

  /** A deleted item is gone; deleting it again is NotFound; the other item is untouched. */
  method DeleteScenario() returns (deleted: Status, status: Status, again: Status, other: Dollars)
    ensures deleted == Ok && status == NotFound && again == NotFound && other == 50.0
  {
    var db := new Database();
    deleted := db.Delete("socks");
    var gonePrice, shoesStatus;
    status, gonePrice := db.Price("socks");
    again := db.Delete("socks");
    shoesStatus, other := db.Price("shoes");
  }
}
