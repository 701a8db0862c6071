/**
 * `ContextMenuSheet`: the settings page listing every command menu, whose check boxes choose
 * the commands shown on the page's context menu. The sheet reads its collection when it is
 * created and writes it back when the settings dialog commits.
 */
module Sheet {
  import opened Strings
  import opened CommandMenus
  import opened Layout
  import opened Store
  import opened Binding

  /** A new menu panel holding the rows of `menus`, laid out by `AddMenus`. */
  method NewMenuPanel(menus: seq<CtxMenu>, measure: (Option<string>, bool) -> int, checkSize: int)
    returns (panel: MenuPanel)
    ensures fresh(panel)
    ensures Shows(panel, EmittedRows(menus, measure), checkSize)
    ensures Unchecked(panel.controls)
  {
    panel := new MenuPanel();
    panel.AddMenus(menus, measure, checkSize);
    ghost var rows := EmittedRows(menus, measure);
    EmittedRowsUnchecked(menus, measure);
    forall i | 0 <= i < |rows| ensures panel.controls[i] == Resized(rows[i], MaxOffset(rows, checkSize) + 20, checkSize) {
      assert panel.controls[0 + i] == panel.controls[i];
    }
  }

  class ContextMenuSheet {
    const provider: SettingsProvider
    const menuPanel: MenuPanel

    /**
     * Builds the page: the menu panel holds the rows of the collected menus, laid out by
     * `AddMenus`. The descriptors, resource lookups, comparer, editing languages and widths are
     * what reflection, the resource manager, the culture, Office and the toolkit supply.
     */
    constructor (provider: SettingsProvider, ds: seq<Descriptor>, lookup: string -> Option<string>,
                 format: Option<string> -> string, leq: (string, string) -> bool,
                 codes: Option<seq<string>>, measure: (Option<string>, bool) -> int, checkSize: int)
      ensures this.provider == provider && fresh(menuPanel)
      ensures Shows(menuPanel, EmittedRows(CollectCommandMenus(ds, lookup, format, leq, codes), measure), checkSize)
      ensures Unchecked(menuPanel.controls)
    {
      this.provider := provider;
      var menus := CollectCommandMenus(ds, lookup, format, leq, codes);
      var panel := NewMenuPanel(menus, measure, checkSize);
      menuPanel := panel;
    }

    /**
     * The load loop of the constructor: every row whose key is listed in the stored `items` is
     * checked. Without an `items` list the first row makes the source dereference null; `ok`
     * is false in that case and no row has changed.
     */
    method Load() returns (ok: bool)
      modifies menuPanel
      ensures var items := ItemsOf(provider.GetCollection(SheetName));
        && (ok <==> items.Some? || old(menuPanel.controls) == [])
        && (ok ==> menuPanel.controls == Loaded(old(menuPanel.controls), ItemsOrEmpty(provider.GetCollection(SheetName))))
        && (!ok ==> menuPanel.controls == old(menuPanel.controls))
    {
      var settings := provider.GetCollection(SheetName);
      var items := ItemsOf(settings);
      if items.None? && menuPanel.controls != [] {
        return false;
      }
      var listed := ItemsOrEmpty(settings);
      ghost var rows := menuPanel.controls;
      for i := 0 to |menuPanel.controls|
        invariant |menuPanel.controls| == |rows|
        invariant forall j :: 0 <= j < i ==> menuPanel.controls[j] == LoadRow(rows[j], listed)
        invariant forall j :: i <= j < |rows| ==> menuPanel.controls[j] == rows[j]
      {
        var key := StripLabel(menuPanel.controls[i].tag);
        if key in listed {
          menuPanel.controls := menuPanel.controls[i := menuPanel.controls[i].(checked := true)];
        }
      }
      return true;
    }

    /**
     * Brings the stored `items` list in line with the check boxes, editing it in place, and
     * writes the collection back only when the list changed. Returns whether it changed.
     */
    method CollectSettings() returns (updated: bool)
      modifies provider
      ensures var settings := old(provider.GetCollection(SheetName));
        var saved := SaveAll(menuPanel.controls, ItemsOrEmpty(settings));
        && updated == saved.1
        && (updated ==>
              && provider.collections == old(provider.collections)[SheetName := settings[ItemsKey := Items(saved.0)]]
              && provider.log == old(provider.log) + [Stored(SheetName, settings[ItemsKey := Items(saved.0)])])
        && (!updated ==> provider.collections == old(provider.collections) && provider.log == old(provider.log))
    {
      updated := false;
      var settings := provider.GetCollection(SheetName);
      var items := ItemsOrEmpty(settings);
      ghost var stored := items;
      ghost var rows := menuPanel.controls;
      for i := 0 to |menuPanel.controls|
        invariant (items, updated) == SaveAll(rows[..i], stored)
        invariant provider.collections == old(provider.collections) && provider.log == old(provider.log)
      {
        var control := menuPanel.controls[i];
        var key := StripLabel(control.tag);
        if control.checked {
          if key !in items {
            items := items + [key];
            updated := true;
          }
        } else if key in items {
          items := RemoveFirst(items, key);
          updated := true;
        }
        SaveAllStep(rows, stored, i);
      }
      assert rows[..|rows|] == rows;

      if updated {
        settings := settings[ItemsKey := Items(items)];
        provider.SetCollection(SheetName, settings);
      }
    }
  }
}
