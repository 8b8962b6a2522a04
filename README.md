# Store catalogue model

A model of the `Store` class of a small command-line inventory program. A store
has a name, an address and an item catalogue, which maps each item name to its
price. Four operations change or query the catalogue, and each one first checks
whether the item name is listed:

- `add_item` inserts only a new name.
- `remove_item` deletes only a listed name.
- `get_item_price` returns the price, or nothing for an unlisted name.
- `update_item_price` overwrites only a listed name.

A store is saved as the record `{name, address, items}` and loaded back from
it. When there is no saved file, loading gives an empty store.

- `catalogue.dfy` (module `Catalogue`) gives each operation as a function from
  the old catalogue to the new one, paired with the outcome the store reports.
  It also proves what follows from these functions. That includes what any
  sequence of operations does (`Run`).
- `stores.dfy` (module `Stores`) holds the class `Store`. Its methods update the
  `items` field in place, and each is proved to do exactly what its `Catalogue`
  function says. The module also has the saved `Record` and loading from it.

The printed status messages are modelled as returned outcome values:
`Added | AlreadyExists`, `Removed | NotFound` and `Updated | NotFound`. A
price-lookup miss is `None`. A missing save file is `None` passed to
`LoadFromFile`.

## Model

| member | source | states |
|---|---|---|
| `Catalogue.AddItem` | store.py:11-17 | reports `Added` exactly when the name was absent; then the key set grows by that name, which maps to the given price; a present name leaves the catalogue identical; every old entry keeps its price |
| `Catalogue.RemoveItem` | store.py:19-25 | reports `Removed` exactly when the name was present; afterwards the name is absent, the key set is the old one minus that name, other entries keep their prices, and an absent name leaves the catalogue identical |
| `Catalogue.UpdateItemPrice` | store.py:34-40 | reports `Updated` exactly when the name was present; the key set never changes (an absent name is never inserted), a present name gets the new price, other entries keep theirs, and an absent name leaves the catalogue identical |
| `Catalogue.AddTwiceKeepsFirst` | store.py:13-14 | a second add of the same name reports `AlreadyExists` and leaves the catalogue as one add left it, so the first price is kept |
| `Catalogue.AddThenRemoveRestores` | store.py:11-25 | adding an absent name and then removing it restores the original catalogue, and the removal reports `Removed` |
| `Catalogue.RunKeepsUntouchedEntry` | store.py:11-40 | any sequence of add/remove/update calls on other names leaves an entry's presence and price unchanged |
| `Catalogue.RunOnlyAddInserts` | store.py:11-40 | after any sequence of calls, every listed name was listed before or was named by an add in it (remove and update never insert) |
| `Stores.Store.constructor` | store.py:4-9 | name and address are stored as given; the catalogue is the one given, or empty when none is given |
| `Stores.Store.AddItem` | store.py:11-17 | the new catalogue and the outcome are those of `Catalogue.AddItem` on the old catalogue; name and address are unchanged |
| `Stores.Store.RemoveItem` | store.py:19-25 | the new catalogue and the outcome are those of `Catalogue.RemoveItem`; the item is absent afterwards; name and address are unchanged |
| `Stores.Store.GetItemPrice` | store.py:27-32 | returns the listed price when the name is present and `None` exactly when it is absent; as a function it changes nothing |
| `Stores.Store.UpdateItemPrice` | store.py:34-40 | the new catalogue and the outcome are those of `Catalogue.UpdateItemPrice`; name and address are unchanged |
| `Stores.Store.LoadFromFile` | store.py:56-65 | a saved record gives a new store whose name, address and catalogue are the record's; no record gives `("", "", {})` |
| `Stores.SaveThenLoad` | store.py:47-62 | loading the record that saving produces gives a different store object with the same name, address and catalogue |
| `Stores.RemoveThenGetPrice` | store.py:19-32 | after removing an item, its price lookup returns `None`, whether or not the item was listed before |

## Left out

- Printed messages (store.py:14, 17, 23, 25, 31, 38, 40, 45) are returned as outcome values, not written as output.
- `list_items` (store.py:42-46) only prints the catalogue's pairs in the dictionary's iteration order. It returns nothing that could be stated.
- The interactive `menu` and the top-level script (store.py:67-110) read standard input and parse numbers with `int()`/`float()`. This is I/O dispatch.
- File handling and JSON in `save_to_file`/`load_from_file` (store.py:47-65) are left out. Saving is modelled by the record it writes (`Store.ToRecord`). Loading takes that record, or `None` for a missing file. The model assumes a saved record is well formed, so it leaves out JSON decoding errors and missing keys.
- Prices are modelled as `real`, not Python floats. The store never computes with prices or compares them. A price of `None` read from a hand-edited file is not modelled: `dict.get` would report such an item as not found although it is listed.
- Negative prices are accepted by both `add_item` and `update_item_price`, as the code does. A later version of the program rejects them, but this code has no such check, so the model has none either.
- Store.constructor and LoadFromFile store the catalogue as a value (`map`). Python keeps the caller's dictionary by reference, so later changes through the caller's reference are not modelled.
- A manager of several stores (creating, selecting, editing and deleting stores, and saving a collection of them) is not part of this code and is not modelled.
