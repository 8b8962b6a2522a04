/** A store: a name, an address and an item catalogue that its methods
    update in place, and the record that is saved for it and loaded back. */
module Stores {
  import opened Catalogue

  /** The data saved for a store: its name, address and catalogue. */
  datatype Record = Record(name: string, address: string, items: Items)

  class Store {
    var name: string
    var address: string
    var items: Items

    /** A store with the given name and address; without a catalogue it
        starts with an empty one. */
    constructor (name: string, address: string, items: Option<Items>)
      ensures this.name == name && this.address == address
      ensures items.None? ==> this.items == map[]
      ensures items.Some? ==> this.items == items.value
    {
      this.name := name;
      this.address := address;
      this.items := if items.Some? then items.value else map[];
    }

    /** Adds `item` at `price` unless it is already listed. */
    method AddItem(item: Name, price: Price) returns (outcome: AddOutcome)
      modifies this
      ensures (items, outcome) == Catalogue.AddItem(old(items), item, price)
      ensures outcome == Added ==> items == old(items)[item := price]
      ensures outcome == AlreadyExists ==> items == old(items)
      ensures name == old(name) && address == old(address)
    {
      if item in items {
        outcome := AlreadyExists;
      } else {
        items := items[item := price];
        outcome := Added;
      }
    }

    /** Removes `item` if it is listed. */
    method RemoveItem(item: Name) returns (outcome: RemoveOutcome)
      modifies this
      ensures (items, outcome) == Catalogue.RemoveItem(old(items), item)
      ensures item !in items && items == old(items) - {item}
      ensures name == old(name) && address == old(address)
    {
      if item in items {
        items := items - {item};
        outcome := Removed;
      } else {
        outcome := RemoveOutcome.NotFound;
      }
    }

    /** The price of `item`, or None when it is not listed. */
    function GetItemPrice(item: Name): (r: Option<Price>)
      reads this
      ensures r.Some? <==> item in items
      ensures r.Some? ==> r.value == items[item]
    {
      if item in items then Some(items[item]) else None
    }

    /** Overwrites the price of `item` if it is listed; never inserts it. */
    method UpdateItemPrice(item: Name, price: Price) returns (outcome: UpdateOutcome)
      modifies this
      ensures (items, outcome) == Catalogue.UpdateItemPrice(old(items), item, price)
      ensures outcome == Updated ==> items == old(items)[item := price]
      ensures outcome == UpdateOutcome.NotFound ==> items == old(items)
      ensures name == old(name) && address == old(address)
    {
      if item in items {
        items := items[item := price];
        outcome := Updated;
      } else {
        outcome := UpdateOutcome.NotFound;
      }
    }

    /** The record that saving writes out for this store. */
    function ToRecord(): Record
      reads this
    {
      Record(name, address, items)
    }

    /** Loads a store from a saved record; when there is none (the file is
        missing) the store has an empty name, address and catalogue. */
    static method LoadFromFile(saved: Option<Record>) returns (s: Store)
      ensures fresh(s)
      ensures saved.Some? ==> s.ToRecord() == saved.value
      ensures saved.None? ==> s.ToRecord() == Record("", "", map[])
    {
      match saved
      case Some(rec) =>
        s := new Store(rec.name, rec.address, Some(rec.items));
      case None =>
        s := new Store("", "", Some(map[]));
    }
  }

  /** Saving a store and loading it back yields a separate store with the
      same name, address and catalogue. */
  method SaveThenLoad(s: Store) returns (t: Store)
    ensures t != s
    ensures t.name == s.name && t.address == s.address && t.items == s.items
  {
    var saved := s.ToRecord();
    t := Store.LoadFromFile(Some(saved));
  }

  /** Removing an item and then asking for its price reports it absent,
      whether or not it was listed before. */
  method RemoveThenGetPrice(s: Store, item: Name) returns (price: Option<Price>)
    modifies s
    ensures price == None
  {
    var _ := s.RemoveItem(item);
    price := s.GetItemPrice(item);
  }
}
