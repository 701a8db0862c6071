/**
 * The part of the settings store the sheet uses: named collections of key/value pairs, held
 * in memory, written back by `SetCollection` and flushed by `Save`. The store's own
 * implementation (XML files, typed `Get<T>`) is not part of this model; a collection is a map,
 * and the calls that write are recorded in order so that contracts can say when they happen.
 */
module Store {
  import opened Strings

  /** A stored value: a flag (`true` in the old flat format), the `items` list, or other text. */
  datatype Value = Flag(b: bool) | Items(keys: seq<string>) | Text(s: string)

  /** A `SettingsCollection`. */
  type Collection = map<string, Value>

  /** A call that writes to the store. */
  datatype Effect = Stored(name: string, collection: Collection) | Saved

  /** The collection the sheet owns, `nameof(ContextMenuSheet)`. */
  const SheetName := "ContextMenuSheet"

  /** The key of the list of enabled commands. */
  const ItemsKey := "items"

  /** `settings.Get<XElement>("items")`: the list, or null when there is none. */
  function ItemsOf(c: Collection): Option<seq<string>> {
    if ItemsKey in c && c[ItemsKey].Items? then Some(c[ItemsKey].keys) else None
  }

  /** `items ??= new XElement("items")`: the list, or an empty one. */
  function ItemsOrEmpty(c: Collection): seq<string> {
    match ItemsOf(c)
    case Some(l) => l
    case None => []
  }

  class SettingsProvider {
    var collections: map<string, Collection>
    var log: seq<Effect>

    constructor (collections: map<string, Collection>)
      ensures this.collections == collections && log == []
    {
      this.collections := collections;
      log := [];
    }

    /** A copy of the named collection; an empty one when there is none. */
    function GetCollection(name: string): Collection
      reads this
    {
      if name in collections then collections[name] else map[]
    }

    method SetCollection(name: string, c: Collection)
      modifies this
      ensures collections == old(collections)[name := c]
      ensures log == old(log) + [Stored(name, c)]
    {
      collections := collections[name := c];
      log := log + [Stored(name, c)];
    }

    method Save()
      modifies this
      ensures collections == old(collections)
      ensures log == old(log) + [Saved]
    {
      log := log + [Saved];
    }
  }
}
