/**
 * `ContextMenuSheet.UpgradeSettings`: brings a collection written by an older release up to
 * date. First, buttons renamed in 5.1.0 get their new key; then, a collection still in the flat
 * format of releases before 5.8.3 (one key per enabled command) has every key moved into a single
 * `items` list. The store is written and flushed only when either pass changed something.
 */
module Upgrade {
  import opened Store
  import opened Binding

  /** The renamed buttons, old key first, in table order. */
  const Exchange: seq<(string, string)> := [
    ("ribDrawPlantUmlButton", "ribPlantUmlButton"),
    ("ribInsertBoxButton", "ribInsertTextBoxButton"),
    ("ribInsertCodeBlockButton", "ribInsertCodeBoxButton"),
    ("ribInsertInfoBlockButton", "ribInsertInfoBoxButton")
  ]

  /** The old keys of a renaming table. */
  function OldKeys(ps: seq<(string, string)>): set<string> {
    if ps == [] then {} else OldKeys(ps[..|ps| - 1]) + {ps[|ps| - 1].0}
  }

  /** The new keys whose old key `c` holds: the keys renaming sets to `true`. */
  function RenamedTo(c: Collection, ps: seq<(string, string)>): set<string> {
    if ps == [] then {}
    else RenamedTo(c, ps[..|ps| - 1]) + (if ps[|ps| - 1].0 in c then {ps[|ps| - 1].1} else {})
  }

  /** A table can be applied in any order: old keys are distinct, and no new key is an old key. */
  ghost predicate WellFormed(ps: seq<(string, string)>) {
    && (forall i, j :: 0 <= i < j < |ps| ==> ps[i].0 != ps[j].0)
    && (forall i, j :: 0 <= i < |ps| && 0 <= j < |ps| ==> ps[i].1 != ps[j].0)
  }

  lemma ExchangeWellFormed()
    ensures WellFormed(Exchange)
    ensures ItemsKey !in OldKeys(Exchange)
  {
    ExchangeOldKeysDistinct();
    ExchangeNewKeysNotOld();
    OldKeysIndex(Exchange, ItemsKey);
  }

  lemma ExchangeOldKeysDistinct()
    ensures forall i, j :: 0 <= i < j < |Exchange| ==> Exchange[i].0 != Exchange[j].0
  {
  }

  lemma ExchangeNewKeysNotOld()
    ensures forall i, j :: 0 <= i < |Exchange| && 0 <= j < |Exchange| ==> Exchange[i].1 != Exchange[j].0
  {
  }

  /** One entry of the rename pass: `Remove(old)` and `Add(new, true)` when `old` is present. */
  function RenameStep(c: Collection, p: (string, string)): (Collection, bool) {
    if p.0 in c then ((c - {p.0})[p.1 := Flag(true)], true) else (c, false)
  }

  /** The rename pass over a table; the flag is `updated`. */
  function RenameAll(c: Collection, ps: seq<(string, string)>): (Collection, bool) {
    if ps == [] then (c, false)
    else
      var (c', u) := RenameAll(c, ps[..|ps| - 1]);
      var (c'', u') := RenameStep(c', ps[|ps| - 1]);
      (c'', u || u')
  }

  lemma RenameAllStep(c: Collection, ps: seq<(string, string)>, k: nat)
    requires k < |ps|
    ensures RenameAll(c, ps[..k + 1])
         == var (c', u) := RenameAll(c, ps[..k]);
            var (c'', u') := RenameStep(c', ps[k]);
            (c'', u || u')
  {
    assert ps[..k + 1][..k] == ps[..k];
  }

  lemma WellFormedPrefix(ps: seq<(string, string)>)
    requires WellFormed(ps) && ps != []
    ensures WellFormed(ps[..|ps| - 1])
    ensures ps[|ps| - 1].0 !in OldKeys(ps[..|ps| - 1])
    ensures ps[|ps| - 1].0 !in RenamedTo(map[], ps[..|ps| - 1])
  {
    var n := |ps| - 1;
    assert ps[n].0 !in OldKeys(ps[..n]) by {
      OldKeysIndex(ps[..n], ps[n].0);
    }
    assert ps[n].0 !in RenamedTo(map[], ps[..n]) by {
      RenamedToNone(ps[..n]);
    }
  }

  lemma {:induction false} OldKeysIndex(ps: seq<(string, string)>, k: string)
    ensures k in OldKeys(ps) <==> exists i :: 0 <= i < |ps| && ps[i].0 == k
  {
    if ps != [] {
      var pre := ps[..|ps| - 1];
      OldKeysIndex(pre, k);
      if exists i :: 0 <= i < |pre| && pre[i].0 == k {
        var i :| 0 <= i < |pre| && pre[i].0 == k;
        assert ps[i] == pre[i];
      }
      if exists i :: 0 <= i < |ps| && ps[i].0 == k {
        var i :| 0 <= i < |ps| && ps[i].0 == k;
        if i < |pre| {
          assert pre[i] == ps[i];
        }
      }
    }
  }

  lemma {:induction false} RenamedToNone(ps: seq<(string, string)>)
    ensures RenamedTo(map[], ps) == {}
  {
    if ps != [] {
      RenamedToNone(ps[..|ps| - 1]);
    }
  }

  /** The new keys set by renaming are new keys of the table. */
  lemma {:induction false} RenamedToIndex(c: Collection, ps: seq<(string, string)>, k: string)
    ensures k in RenamedTo(c, ps) <==> exists i :: 0 <= i < |ps| && ps[i].1 == k && ps[i].0 in c
  {
    if ps != [] {
      var pre := ps[..|ps| - 1];
      RenamedToIndex(c, pre, k);
      if exists i :: 0 <= i < |pre| && pre[i].1 == k && pre[i].0 in c {
        var i :| 0 <= i < |pre| && pre[i].1 == k && pre[i].0 in c;
        assert ps[i] == pre[i];
      }
      if exists i :: 0 <= i < |ps| && ps[i].1 == k && ps[i].0 in c {
        var i :| 0 <= i < |ps| && ps[i].1 == k && ps[i].0 in c;
        if i < |pre| {
          assert pre[i] == ps[i];
        }
      }
    }
  }

  /**
   * What renaming does to each key: an old key is gone; a new key whose old key was present
   * holds `true`; every other key is present exactly when it was, with the value it had.
   * The flag is set exactly when some old key was present.
   */
  lemma {:induction false} RenameAllKeys(c: Collection, ps: seq<(string, string)>, k: string)
    requires WellFormed(ps)
    ensures var r := RenameAll(c, ps).0;
      && (k in OldKeys(ps) ==> k !in r)
      && (k in RenamedTo(c, ps) ==> k in r && r[k] == Flag(true))
      && (k !in OldKeys(ps) && k !in RenamedTo(c, ps) ==> (k in r <==> k in c) && (k in c ==> r[k] == c[k]))
    ensures RenameAll(c, ps).1 <==> OldKeys(ps) * c.Keys != {}
  {
    if ps != [] {
      var n := |ps| - 1;
      var pre := ps[..n];
      var p := ps[n];
      WellFormedPrefix(ps);
      RenameAllKeys(c, pre, k);
      RenameAllKeys(c, pre, p.0);
      assert p.0 !in RenamedTo(c, pre) by {
        RenamedToIndex(c, pre, p.0);
      }
      if k == p.1 {
        // a new key is never an old key, of this entry or an earlier one
        OldKeysIndex(pre, k);
        assert k != p.0;
      }
      if k in RenamedTo(c, pre) {
        // an earlier entry's new key is not this entry's old key
        RenamedToIndex(c, pre, k);
      }
    }
  }

  /** With no old key present, renaming changes nothing. */
  lemma {:induction false} RenameAllNone(c: Collection, ps: seq<(string, string)>)
    requires OldKeys(ps) * c.Keys == {}
    ensures RenameAll(c, ps) == (c, false)
  {
    if ps != [] {
      var pre := ps[..|ps| - 1];
      assert OldKeys(pre) <= OldKeys(ps);
      RenameAllNone(c, pre);
      assert ps[|ps| - 1].0 in OldKeys(ps);
    }
  }

  /** Renaming an already renamed collection changes nothing and reports no change. */
  lemma RenameAllIdempotent(c: Collection, ps: seq<(string, string)>)
    requires WellFormed(ps)
    ensures RenameAll(RenameAll(c, ps).0, ps) == (RenameAll(c, ps).0, false)
  {
    var r := RenameAll(c, ps).0;
    forall k | k in OldKeys(ps) ensures k !in r {
      RenameAllKeys(c, ps, k);
    }
    RenameAllNone(r, ps);
  }

  /** A collection in the current format: it has an `items` entry and none of the old keys. */
  ghost predicate Upgraded(c: Collection) {
    ItemsKey in c && OldKeys(Exchange) * c.Keys == {}
  }

  /** Renaming leaves `items` alone, so the flatten pass runs exactly when the stored collection has no list. */
  lemma RenameKeepsItems(c: Collection)
    ensures ItemsKey in RenameAll(c, Exchange).0 <==> ItemsKey in c
    ensures ItemsKey in c ==> RenameAll(c, Exchange).0[ItemsKey] == c[ItemsKey]
  {
    ExchangeWellFormed();
    RenamedToIndex(c, Exchange, ItemsKey);
    RenameAllKeys(c, Exchange, ItemsKey);
  }

  /** Running the upgrade on an upgraded collection renames nothing and does not flatten. */
  lemma UpgradedStays(c: Collection)
    requires Upgraded(c)
    ensures RenameAll(c, Exchange) == (c, false)
    ensures ItemsKey in RenameAll(c, Exchange).0
  {
    RenameAllNone(c, Exchange);
  }

  /** The flat format turned into a list: `items` alone, listing every key of `c` once. */
  ghost predicate Flattened(f: Collection, c: Collection) {
    && f.Keys == {ItemsKey}
    && f[ItemsKey].Items?
    && NoDup(f[ItemsKey].keys)
    && forall k :: k in f[ItemsKey].keys <==> k in c
  }

  /**
   * Renames the old keys, flattens a collection without `items`, and, when either pass
   * changed something, stores the collection and saves. Which order the flattened keys take
   * is the order the collection enumerates them in, which is not part of this model.
   */
  method UpgradeSettings(provider: SettingsProvider)
    modifies provider
    ensures var c0 := old(provider.GetCollection(SheetName));
      var (c1, renamed) := RenameAll(c0, Exchange);
      var updated := renamed || ItemsKey !in c1;
      && (updated ==>
            && SheetName in provider.collections
            && provider.collections == old(provider.collections)[SheetName := provider.collections[SheetName]]
            && provider.log == old(provider.log) + [Stored(SheetName, provider.collections[SheetName]), Saved]
            && (ItemsKey in c1 ==> provider.collections[SheetName] == c1)
            && (ItemsKey !in c1 ==> Flattened(provider.collections[SheetName], c1)))
      && (!updated ==> provider.collections == old(provider.collections) && provider.log == old(provider.log))
    ensures Upgraded(provider.GetCollection(SheetName))
  {
    ghost var c0 := provider.GetCollection(SheetName);
    var collection := provider.GetCollection(SheetName);
    var updated := false;

    for k := 0 to |Exchange|
      invariant (collection, updated) == RenameAll(c0, Exchange[..k])
      invariant provider.collections == old(provider.collections) && provider.log == old(provider.log)
    {
      var (oldKey, newKey) := Exchange[k];
      if oldKey in collection {
        collection := collection - {oldKey};
        collection := collection[newKey := Flag(true)];
        updated := true;
      }
      RenameAllStep(c0, Exchange, k);
    }
    assert Exchange[..|Exchange|] == Exchange;
    ghost var c1 := collection;
    ExchangeWellFormed();
    assert OldKeys(Exchange) * c1.Keys == {} by {
      forall k | k in OldKeys(Exchange) ensures k !in c1 {
        RenameAllKeys(c0, Exchange, k);
      }
    }

    if !updated {
      // nothing was renamed, so nothing changed
      RenameAllKeys(c0, Exchange, ItemsKey);
      RenameAllNone(c0, Exchange);
    }

    if ItemsKey !in collection {
      var items: seq<string> := [];
      var keys := collection.Keys;
      while keys != {}
        invariant collection.Keys == keys && keys <= c1.Keys
        invariant NoDup(items)
        invariant forall k :: k in items <==> k in c1 && k !in keys
        invariant provider.collections == old(provider.collections) && provider.log == old(provider.log)
        decreases keys
      {
        var key :| key in keys;
        items := items + [key];
        collection := collection - {key};
        keys := keys - {key};
      }
      assert collection == map[];
      collection := collection[ItemsKey := Items(items)];
      updated := true;
    }

    if updated {
      provider.SetCollection(SheetName, collection);
      provider.Save();
    }
  }
}
