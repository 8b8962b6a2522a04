/** The item catalogue of one store: a table from item name to price.

    Each operation of the store is given here as a function from the old
    catalogue to the new one together with the outcome the store reports.
    The store class in module Stores updates its `items` field exactly as
    these functions say, and the lemmas below state what follows from them. */
module Catalogue {

  type Name = string

  /** Prices are stored and handed back as given; the store never computes
      with them or compares them, so any numeric value will do. */
  type Price = real

  type Items = map<Name, Price>

  datatype Option<T> = None | Some(value: T)

  /** What `add_item` reports: the item was added, or its name was taken. */
  datatype AddOutcome = Added | AlreadyExists

  /** What `remove_item` reports. */
  datatype RemoveOutcome = Removed | NotFound

  /** What `update_item_price` reports. */
  datatype UpdateOutcome = Updated | NotFound

  /** `add_item`: insert `n` at price `p` unless `n` is already listed, in
      which case nothing changes (the price already there is kept). */
  function AddItem(m: Items, n: Name, p: Price): (r: (Items, AddOutcome))
    ensures r.1 == Added <==> n !in m
    ensures n in m ==> r.0 == m
    ensures n !in m ==> r.0.Keys == m.Keys + {n} && r.0[n] == p
    ensures forall k :: k in m ==> k in r.0 && r.0[k] == m[k]
  {
    if n in m then (m, AlreadyExists) else (m[n := p], Added)
  }

  /** `remove_item`: delete `n` if it is listed; an absent name is reported
      and leaves the catalogue as it was. */
  function RemoveItem(m: Items, n: Name): (r: (Items, RemoveOutcome))
    ensures r.1 == Removed <==> n in m
    ensures n !in r.0
    ensures r.0.Keys == m.Keys - {n}
    ensures forall k :: k in r.0 ==> r.0[k] == m[k]
    ensures n !in m ==> r.0 == m
  {
    if n in m then (m - {n}, Removed) else (m, RemoveOutcome.NotFound)
  }

  /** `update_item_price`: overwrite the price of a listed `n`; an absent
      name is reported and is never inserted. */
  function UpdateItemPrice(m: Items, n: Name, p: Price): (r: (Items, UpdateOutcome))
    ensures r.1 == Updated <==> n in m
    ensures r.0.Keys == m.Keys
    ensures n in m ==> r.0[n] == p
    ensures forall k :: k in m && k != n ==> r.0[k] == m[k]
    ensures n !in m ==> r.0 == m
  {
    if n in m then (m[n := p], Updated) else (m, UpdateOutcome.NotFound)
  }

  /** Adding a name twice has the effect of adding it once: the second call
      reports that the item exists and keeps the first price. */
  lemma AddTwiceKeepsFirst(m: Items, n: Name, p: Price, q: Price)
    ensures AddItem(AddItem(m, n, p).0, n, q) == (AddItem(m, n, p).0, AlreadyExists)
    ensures AddItem(AddItem(m, n, p).0, n, q).0[n] == (if n in m then m[n] else p)
  {
  }

  /** Adding a new name and then removing it gives back the catalogue one
      started from. */
  lemma AddThenRemoveRestores(m: Items, n: Name, p: Price)
    requires n !in m
    ensures RemoveItem(AddItem(m, n, p).0, n) == (m, Removed)
  {
    var back := m[n := p] - {n};
    assert back.Keys == m.Keys;
    assert forall k :: k in back ==> back[k] == m[k];
    assert back == m;
  }

  /** A catalogue-changing call, as the store receives it. */
  datatype Command =
    | Add(name: Name, price: Price)
    | Remove(name: Name)
    | Update(name: Name, price: Price)

  /** The catalogue after one command. */
  function Apply(m: Items, c: Command): Items
  {
    match c
    case Add(n, p) => AddItem(m, n, p).0
    case Remove(n) => RemoveItem(m, n).0
    case Update(n, p) => UpdateItemPrice(m, n, p).0
  }

  /** The catalogue after a sequence of commands, applied in order. */
  function Run(m: Items, cs: seq<Command>): Items
    decreases |cs|
  {
    if cs == [] then m else Run(Apply(m, cs[0]), cs[1..])
  }

  /** The names that a sequence of commands adds. */
  function AddedNames(cs: seq<Command>): set<Name>
    decreases |cs|
  {
    if cs == [] then {}
    else (if cs[0].Add? then {cs[0].name} else {}) + AddedNames(cs[1..])
  }

  /** Every operation touches only the entry it names: commands about other
      names leave the entry for `n` (its presence and its price) as it was. */
  lemma {:induction false} RunKeepsUntouchedEntry(m: Items, cs: seq<Command>, n: Name)
    requires forall i :: 0 <= i < |cs| ==> cs[i].name != n
    ensures n in Run(m, cs) <==> n in m
    ensures n in m ==> Run(m, cs)[n] == m[n]
    decreases |cs|
  {
    if cs != [] {
      var m' := Apply(m, cs[0]);
      assert n in m' <==> n in m;
      assert n in m ==> m'[n] == m[n];
      RunKeepsUntouchedEntry(m', cs[1..], n);
    }
  }

  /** Only `add_item` inserts names: after any sequence of commands every
      listed name was listed before or was added by one of them. */
  lemma {:induction false} RunOnlyAddInserts(m: Items, cs: seq<Command>)
    ensures Run(m, cs).Keys <= m.Keys + AddedNames(cs)
    decreases |cs|
  {
    if cs != [] {
      var m' := Apply(m, cs[0]);
      assert m'.Keys <= m.Keys + (if cs[0].Add? then {cs[0].name} else {});
      RunOnlyAddInserts(m', cs[1..]);
    }
  }
}
