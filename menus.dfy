/**
 * `ContextMenuSheet.CollectCommandMenus`: the commands of the add-in, filtered, grouped by
 * category into menus, sorted, and followed by the proofing-language menu when the host has
 * more than one editing language.
 *
 * Reflection over the add-in's methods becomes a sequence of `Descriptor`s; the resource
 * lookup `Resx.ResourceManager.GetString` becomes `lookup` (which may return null), the
 * `string.Format(Resx.ContextMenuSheet_menu, name)` of a menu's name becomes `format`, the
 * culture-sensitive string comparer becomes `leq`, and `Office.GetEditingLanguages()`
 * becomes `codes`.
 */
module CommandMenus {
  import opened Strings
  import opened Ordering

  const ProofingResID := "ribProofingMenu_Label"
  const ColorizeResID := "ribColorizeMenu_Label"

  /** `CommandAttribute`: the resource id of a command and its category (possibly null). */
  datatype CommandAttribute = CommandAttribute(resID: string, category: Option<string>)

  /** A public method of `AddIn`, with its `CommandAttribute` if it has one. */
  datatype Descriptor = Descriptor(methodName: string, attribute: Option<CommandAttribute>)

  datatype CtxMenuItem = CtxMenuItem(name: Option<string>, resID: string)

  datatype CtxMenu = CtxMenu(name: Option<string>, resID: string, commands: seq<CtxMenuItem>)

  /** The anonymous key the commands are grouped by: the category's display name and resource id. */
  datatype GroupKey = GroupKey(name: Option<string>, resID: string)

  /** The anonymous record each kept method is projected to. */
  datatype Entry = Entry(resID: string, categoryResID: string, name: Option<string>, category: Option<string>) {
    function Key(): GroupKey { GroupKey(category, categoryResID) }
  }

  datatype Grouping = Grouping(key: GroupKey, members: seq<Entry>)

  /** The filter: a method named `...Cmd` with a `CommandAttribute` whose category is not blank. */
  predicate IsCommand(d: Descriptor) {
    && EndsWith(d.methodName, "Cmd")
    && d.attribute.Some?
    && !IsNullOrWhiteSpace(d.attribute.value.category)
  }

  /** The resource id of the menu a command belongs to: its category followed by `_Label`. */
  function CategoryResID(d: Descriptor): string
    requires IsCommand(d)
  {
    d.attribute.value.category.value + Label
  }

  function EntryOf(d: Descriptor, lookup: string -> Option<string>): (e: Entry)
    requires IsCommand(d)
  {
    var cr := CategoryResID(d);
    Entry(d.attribute.value.resID, cr, lookup(d.attribute.value.resID), lookup(cr))
  }

  /** The Where and the second Select of the pipeline. */
  function Entries(ds: seq<Descriptor>, lookup: string -> Option<string>): seq<Entry> {
    if ds == [] then []
    else
      var d := ds[|ds| - 1];
      Entries(ds[..|ds| - 1], lookup) + (if IsCommand(d) then [EntryOf(d, lookup)] else [])
  }

  /** A grouping key's display name is determined by its resource id. */
  lemma {:induction false} EntriesCategory(ds: seq<Descriptor>, lookup: string -> Option<string>, e: Entry)
    requires e in Entries(ds, lookup)
    ensures e.category == lookup(e.categoryResID)
  {
    var pre := ds[..|ds| - 1];
    var d := ds[|ds| - 1];
    if e in Entries(pre, lookup) {
      EntriesCategory(pre, lookup, e);
    }
  }

  /**
   * Reference definition of a menu's content: the items of the commands, in descriptor
   * order, whose category resource id is `categoryResID`.
   */
  function CommandItems(ds: seq<Descriptor>, lookup: string -> Option<string>, categoryResID: string): seq<CtxMenuItem> {
    if ds == [] then []
    else
      var d := ds[|ds| - 1];
      CommandItems(ds[..|ds| - 1], lookup, categoryResID)
        + (if IsCommand(d) && CategoryResID(d) == categoryResID
           then [CtxMenuItem(lookup(d.attribute.value.resID), d.attribute.value.resID)]
           else [])
  }

  /** The entries with key `k`, in order. */
  function Where(es: seq<Entry>, k: GroupKey): seq<Entry> {
    if es == [] then []
    else Where(es[..|es| - 1], k) + (if es[|es| - 1].Key() == k then [es[|es| - 1]] else [])
  }

  /** Every entry `Where` keeps comes from its input and has the key asked for. */
  lemma {:induction false} WhereIn(es: seq<Entry>, k: GroupKey, x: Entry)
    requires x in Where(es, k)
    ensures x in es && x.Key() == k
  {
    var pre := es[..|es| - 1];
    if x in Where(pre, k) {
      WhereIn(pre, k, x);
      var j :| 0 <= j < |pre| && pre[j] == x;
      assert es[j] == x;
    }
  }

  /** `Where` keeps nothing when no entry has the key. */
  lemma {:induction false} WhereNone(es: seq<Entry>, k: GroupKey)
    requires forall x :: x in es ==> x.Key() != k
    ensures Where(es, k) == []
  {
    if Where(es, k) != [] {
      WhereIn(es, k, Where(es, k)[0]);
    }
  }

  /** The index of the first grouping with key `k`, or -1. */
  function IndexOfKey(gs: seq<Grouping>, k: GroupKey): (i: int)
    ensures -1 <= i < |gs|
    ensures i == -1 <==> forall j :: 0 <= j < |gs| ==> gs[j].key != k
    ensures 0 <= i ==> gs[i].key == k
  {
    if gs == [] then -1
    else if gs[|gs| - 1].key == k && IndexOfKey(gs[..|gs| - 1], k) == -1 then |gs| - 1
    else IndexOfKey(gs[..|gs| - 1], k)
  }

  /** Adds one entry: to the grouping with its key if there is one, else as a new grouping at the end. */
  function AddEntry(gs: seq<Grouping>, e: Entry): seq<Grouping> {
    var i := IndexOfKey(gs, e.Key());
    if i == -1 then gs + [Grouping(e.Key(), [e])]
    else gs[i := Grouping(gs[i].key, gs[i].members + [e])]
  }

  /** `GroupBy`: groupings in order of their key's first appearance, members in input order. */
  function GroupBy(es: seq<Entry>): seq<Grouping> {
    if es == [] then [] else AddEntry(GroupBy(es[..|es| - 1]), es[|es| - 1])
  }

  ghost predicate KeysDistinct(gs: seq<Grouping>) {
    forall i, j :: 0 <= i < j < |gs| ==> gs[i].key != gs[j].key
  }

  ghost predicate MembersAre(es: seq<Entry>, gs: seq<Grouping>) {
    forall i :: 0 <= i < |gs| ==> gs[i].members == Where(es, gs[i].key) && gs[i].members != []
  }

  ghost predicate Covers(es: seq<Entry>, gs: seq<Grouping>) {
    forall e :: e in es ==> exists i :: 0 <= i < |gs| && gs[i].key == e.Key()
  }

  lemma AddEntryDistinct(gs: seq<Grouping>, e: Entry)
    requires KeysDistinct(gs)
    ensures KeysDistinct(AddEntry(gs, e))
  {
  }

  lemma AddEntryMembers(pre: seq<Entry>, gs: seq<Grouping>, e: Entry)
    requires MembersAre(pre, gs) && Covers(pre, gs) && KeysDistinct(gs)
    ensures MembersAre(pre + [e], AddEntry(gs, e))
  {
    var es := pre + [e];
    assert es[..|es| - 1] == pre;
    var r := AddEntry(gs, e);
    var i := IndexOfKey(gs, e.Key());
    assert forall k :: Where(es, k) == Where(pre, k) + (if e.Key() == k then [e] else []);
    if i == -1 {
      forall x | x in pre ensures x.Key() != e.Key() {
        var j :| 0 <= j < |gs| && gs[j].key == x.Key();
      }
      WhereNone(pre, e.Key());
    }
  }

  lemma AddEntryCovers(pre: seq<Entry>, gs: seq<Grouping>, e: Entry)
    requires Covers(pre, gs)
    ensures Covers(pre + [e], AddEntry(gs, e))
  {
    var es := pre + [e];
    var r := AddEntry(gs, e);
    var i := IndexOfKey(gs, e.Key());
    forall x | x in es ensures exists j :: 0 <= j < |r| && r[j].key == x.Key() {
      if x == e {
        assert r[if i == -1 then |gs| else i].key == x.Key();
      } else {
        assert x in pre;
        var j :| 0 <= j < |gs| && gs[j].key == x.Key();
        assert r[j].key == x.Key();
      }
    }
  }

  /**
   * What `GroupBy` promises, against the reference `Where`: one grouping per key, holding
   * exactly the entries with that key, in order; no grouping is empty; no entry is lost.
   */
  lemma {:induction false} GroupByGroups(es: seq<Entry>)
    ensures KeysDistinct(GroupBy(es)) && MembersAre(es, GroupBy(es)) && Covers(es, GroupBy(es))
  {
    if es != [] {
      var pre := es[..|es| - 1];
      assert es == pre + [es[|es| - 1]];
      GroupByGroups(pre);
      AddEntryDistinct(GroupBy(pre), es[|es| - 1]);
      AddEntryMembers(pre, GroupBy(pre), es[|es| - 1]);
      AddEntryCovers(pre, GroupBy(pre), es[|es| - 1]);
    }
  }

  /** The keys of `es`, each once, in order of first appearance. */
  function FirstKeys(es: seq<Entry>): seq<GroupKey> {
    if es == [] then []
    else
      var ks := FirstKeys(es[..|es| - 1]);
      if es[|es| - 1].Key() in ks then ks else ks + [es[|es| - 1].Key()]
  }

  function KeysOf(gs: seq<Grouping>): seq<GroupKey> {
    seq(|gs|, i requires 0 <= i < |gs| => gs[i].key)
  }

  /** `GroupBy` puts its groupings in the order in which their keys first appear. */
  lemma {:induction false} GroupByOrder(es: seq<Entry>)
    ensures KeysOf(GroupBy(es)) == FirstKeys(es)
  {
    if es != [] {
      var pre := es[..|es| - 1];
      var e := es[|es| - 1];
      GroupByOrder(pre);
      var gs := GroupBy(pre);
      var i := IndexOfKey(gs, e.Key());
      if i == -1 {
        assert e.Key() !in KeysOf(gs);
        assert KeysOf(gs + [Grouping(e.Key(), [e])]) == KeysOf(gs) + [e.Key()];
      } else {
        assert KeysOf(gs)[i] == e.Key();
        assert KeysOf(gs[i := Grouping(gs[i].key, gs[i].members + [e])]) == KeysOf(gs);
      }
    }
  }

  function ItemOf(e: Entry): CtxMenuItem {
    CtxMenuItem(e.name, e.resID)
  }

  function Items(es: seq<Entry>): (r: seq<CtxMenuItem>)
    ensures |r| == |es|
  {
    if es == [] then [] else Items(es[..|es| - 1]) + [ItemOf(es[|es| - 1])]
  }

  function ItemName(c: CtxMenuItem): Option<string> { c.name }

  function MenuName(m: CtxMenu): Option<string> { m.name }

  /** The Select that turns a grouping into a menu whose commands are ordered by name. */
  function MenuOf(g: Grouping, format: Option<string> -> string, leq: (string, string) -> bool): CtxMenu {
    CtxMenu(Some(format(g.key.name)), g.key.resID, OrderBy(Items(g.members), ItemName, leq))
  }

  function MenusOf(gs: seq<Grouping>, format: Option<string> -> string, leq: (string, string) -> bool): (r: seq<CtxMenu>)
    ensures |r| == |gs|
    ensures forall i :: 0 <= i < |gs| ==> r[i] == MenuOf(gs[i], format, leq)
  {
    if gs == [] then [] else MenusOf(gs[..|gs| - 1], format, leq) + [MenuOf(gs[|gs| - 1], format, leq)]
  }

  /** The menu for the editing languages: its name is looked up, it has no commands. */
  function ProofingMenu(lookup: string -> Option<string>): CtxMenu {
    CtxMenu(lookup(ProofingResID), ProofingResID, [])
  }

  /** True when the host reports more than one editing language. */
  predicate HasProofing(codes: Option<seq<string>>) {
    codes.Some? && |codes.value| > 1
  }

  /** The category menus, ordered by name, before the proofing menu is considered. */
  function CategoryMenus(
    ds: seq<Descriptor>, lookup: string -> Option<string>, format: Option<string> -> string,
    leq: (string, string) -> bool): seq<CtxMenu>
  {
    OrderBy(MenusOf(GroupBy(Entries(ds, lookup)), format, leq), MenuName, leq)
  }

  /** `CollectCommandMenus`. */
  function CollectCommandMenus(
    ds: seq<Descriptor>, lookup: string -> Option<string>, format: Option<string> -> string,
    leq: (string, string) -> bool, codes: Option<seq<string>>): (r: seq<CtxMenu>)
    ensures |r| == |CategoryMenus(ds, lookup, format, leq)| + (if HasProofing(codes) then 1 else 0)
  {
    var menus := CategoryMenus(ds, lookup, format, leq);
    if HasProofing(codes) then OrderBy(menus + [ProofingMenu(lookup)], MenuName, leq) else menus
  }

  // ----- properties -----

  /** Menus that hold the commands of one category. */
  function InCategory(categoryResID: string): CtxMenu -> bool {
    (m: CtxMenu) => m.resID == categoryResID && m.commands != []
  }

  /** Menus without commands. */
  function Empty(): CtxMenu -> bool {
    (m: CtxMenu) => m.commands == []
  }

  lemma {:induction false} ItemsWhere(ds: seq<Descriptor>, lookup: string -> Option<string>, categoryResID: string)
    ensures Items(Where(Entries(ds, lookup), GroupKey(lookup(categoryResID), categoryResID)))
         == CommandItems(ds, lookup, categoryResID)
  {
    var k := GroupKey(lookup(categoryResID), categoryResID);
    if ds != [] {
      var pre := ds[..|ds| - 1];
      var d := ds[|ds| - 1];
      ItemsWhere(pre, lookup, categoryResID);
      var es := Entries(pre, lookup);
      if IsCommand(d) {
        var e := EntryOf(d, lookup);
        assert Entries(ds, lookup) == es + [e];
        assert (es + [e])[..|es|] == es;
        assert Where(es + [e], k) == Where(es, k) + (if e.Key() == k then [e] else []);
        var w := Where(es, k);
        if e.Key() == k {
          assert (w + [e])[..|w|] == w;
        } else {
          assert CategoryResID(d) != categoryResID;
          assert Where(es + [e], k) == w + [] == w;
        }
      } else {
        assert Entries(ds, lookup) == es + [] == es;
      }
    }
  }

  /** A grouping's key name is the lookup of its resource id. */
  lemma GroupKeysNamed(ds: seq<Descriptor>, lookup: string -> Option<string>, i: nat)
    requires i < |GroupBy(Entries(ds, lookup))|
    ensures var g := GroupBy(Entries(ds, lookup))[i];
      g.key.name == lookup(g.key.resID) && g.members != []
  {
    var es := Entries(ds, lookup);
    var gs := GroupBy(es);
    assert MembersAre(es, gs) by { GroupByGroups(es); }
    var x := gs[i].members[0];
    WhereIn(es, gs[i].key, x);
    EntriesCategory(ds, lookup, x);
  }

  /** Each category menu, before the final sort, is named after its category and holds its commands. */
  lemma UnsortedMenuContents(
    ds: seq<Descriptor>, lookup: string -> Option<string>, format: Option<string> -> string,
    leq: (string, string) -> bool, i: nat)
    requires i < |MenusOf(GroupBy(Entries(ds, lookup)), format, leq)|
    ensures var m := MenusOf(GroupBy(Entries(ds, lookup)), format, leq)[i];
      && m.commands != []
      && m.name == Some(format(lookup(m.resID)))
      && multiset(m.commands) == multiset(CommandItems(ds, lookup, m.resID))
  {
    var gs := GroupBy(Entries(ds, lookup));
    assert MembersAre(Entries(ds, lookup), gs) by { GroupByGroups(Entries(ds, lookup)); }
    GroupKeysNamed(ds, lookup, i);
    ItemsWhere(ds, lookup, gs[i].key.resID);
    assert gs[i].key == GroupKey(lookup(gs[i].key.resID), gs[i].key.resID);
  }

  /** The category menus, before the final sort, have distinct resource ids. */
  lemma UnsortedMenusDistinct(
    ds: seq<Descriptor>, lookup: string -> Option<string>, format: Option<string> -> string,
    leq: (string, string) -> bool, i: nat, j: nat)
    requires i < j < |MenusOf(GroupBy(Entries(ds, lookup)), format, leq)|
    ensures var ms := MenusOf(GroupBy(Entries(ds, lookup)), format, leq);
      ms[i].resID != ms[j].resID
  {
    var gs := GroupBy(Entries(ds, lookup));
    assert KeysDistinct(gs) by { GroupByGroups(Entries(ds, lookup)); }
    GroupKeysNamed(ds, lookup, i);
    GroupKeysNamed(ds, lookup, j);
  }

  /** Every kept command's category has a menu. */
  lemma UnsortedMenusCover(
    ds: seq<Descriptor>, lookup: string -> Option<string>, format: Option<string> -> string,
    leq: (string, string) -> bool, d: Descriptor) returns (i: nat)
    requires d in ds && IsCommand(d)
    ensures i < |MenusOf(GroupBy(Entries(ds, lookup)), format, leq)|
    ensures MenusOf(GroupBy(Entries(ds, lookup)), format, leq)[i].resID == CategoryResID(d)
  {
    var gs := GroupBy(Entries(ds, lookup));
    var ms := MenusOf(gs, format, leq);
    assert Covers(Entries(ds, lookup), gs) by { GroupByGroups(Entries(ds, lookup)); }
    EntryIn(ds, lookup, d);
    i :| 0 <= i < |gs| && gs[i].key == EntryOf(d, lookup).Key();
  }

  lemma {:induction false} EntryIn(ds: seq<Descriptor>, lookup: string -> Option<string>, d: Descriptor)
    requires d in ds && IsCommand(d)
    ensures EntryOf(d, lookup) in Entries(ds, lookup)
  {
    var pre := ds[..|ds| - 1];
    if d != ds[|ds| - 1] {
      assert d in pre by {
        var k :| 0 <= k < |ds| && ds[k] == d;
        assert pre[k] == d;
      }
      EntryIn(pre, lookup, d);
    }
  }

  /**
   * Menus are ordered by name and every menu's commands are ordered by name, with or
   * without the proofing menu.
   */
  lemma CollectCommandMenusSorted(
    ds: seq<Descriptor>, lookup: string -> Option<string>, format: Option<string> -> string,
    leq: (string, string) -> bool, codes: Option<seq<string>>)
    requires TotalPreorder(leq)
    ensures var r := CollectCommandMenus(ds, lookup, format, leq, codes);
      && SortedBy(r, MenuName, leq)
      && forall m :: m in r ==> SortedBy(m.commands, ItemName, leq)
  {
    var gs := GroupBy(Entries(ds, lookup));
    var r := CollectCommandMenus(ds, lookup, format, leq, codes);
    OrderBySorted(MenusOf(gs, format, leq), MenuName, leq);
    if HasProofing(codes) {
      OrderBySorted(CategoryMenus(ds, lookup, format, leq) + [ProofingMenu(lookup)], MenuName, leq);
    }
    forall m | m in r ensures SortedBy(m.commands, ItemName, leq) {
      CollectCommandMenusMembers(ds, lookup, format, leq, codes, m);
      if m != ProofingMenu(lookup) {
        MenusOfSorted(gs, format, leq, m);
      }
    }
  }

  /** Every menu built from a grouping lists its commands in name order. */
  lemma MenusOfSorted(gs: seq<Grouping>, format: Option<string> -> string, leq: (string, string) -> bool, m: CtxMenu)
    requires TotalPreorder(leq) && m in MenusOf(gs, format, leq)
    ensures SortedBy(m.commands, ItemName, leq)
  {
    var ms := MenusOf(gs, format, leq);
    var i :| 0 <= i < |ms| && ms[i] == m;
    OrderBySorted(Items(gs[i].members), ItemName, leq);
  }

  /** The members of the result: the category menus, and the proofing menu when it is added. */
  lemma CollectCommandMenusMembers(
    ds: seq<Descriptor>, lookup: string -> Option<string>, format: Option<string> -> string,
    leq: (string, string) -> bool, codes: Option<seq<string>>, m: CtxMenu)
    ensures m in CollectCommandMenus(ds, lookup, format, leq, codes)
        <==> m in MenusOf(GroupBy(Entries(ds, lookup)), format, leq) || (HasProofing(codes) && m == ProofingMenu(lookup))
  {
    var ms := MenusOf(GroupBy(Entries(ds, lookup)), format, leq);
    var menus := CategoryMenus(ds, lookup, format, leq);
    var r := CollectCommandMenus(ds, lookup, format, leq, codes);
    assert m in menus <==> m in multiset(menus);
    assert m in ms <==> m in multiset(ms);
    if HasProofing(codes) {
      assert m in r <==> m in multiset(r);
      assert m in menus + [ProofingMenu(lookup)] <==> m in multiset(menus + [ProofingMenu(lookup)]);
    }
  }

  /**
   * Every kept command is in the menu named after its category: the menus that have
   * commands are named by formatting their category's display name and hold exactly the
   * kept commands of that category.
   */
  lemma CollectCommandMenusContents(
    ds: seq<Descriptor>, lookup: string -> Option<string>, format: Option<string> -> string,
    leq: (string, string) -> bool, codes: Option<seq<string>>, m: CtxMenu)
    requires m in CollectCommandMenus(ds, lookup, format, leq, codes) && m.commands != []
    ensures m.name == Some(format(lookup(m.resID)))
    ensures multiset(m.commands) == multiset(CommandItems(ds, lookup, m.resID))
  {
    CollectCommandMenusMembers(ds, lookup, format, leq, codes, m);
    var ms := MenusOf(GroupBy(Entries(ds, lookup)), format, leq);
    var i :| 0 <= i < |ms| && ms[i] == m;
    UnsortedMenuContents(ds, lookup, format, leq, i);
  }

  /** Before the final sort, each category of a kept command has exactly one menu with commands. */
  lemma UnsortedOnePerCategory(
    ds: seq<Descriptor>, lookup: string -> Option<string>, format: Option<string> -> string,
    leq: (string, string) -> bool, d: Descriptor)
    requires d in ds && IsCommand(d)
    ensures Count(MenusOf(GroupBy(Entries(ds, lookup)), format, leq), InCategory(CategoryResID(d))) == 1
  {
    var ms := MenusOf(GroupBy(Entries(ds, lookup)), format, leq);
    var p := InCategory(CategoryResID(d));
    var i := UnsortedMenusCover(ds, lookup, format, leq, d);
    UnsortedMenuContents(ds, lookup, format, leq, i);
    forall j | 0 <= j < |ms| && p(ms[j]) ensures j == i {
      if j < i {
        UnsortedMenusDistinct(ds, lookup, format, leq, j, i);
      } else if i < j {
        UnsortedMenusDistinct(ds, lookup, format, leq, i, j);
      }
    }
    CountSingle(ms, p, i);
  }

  /** Each category of a kept command has exactly one menu with commands. */
  lemma CollectCommandMenusOnePerCategory(
    ds: seq<Descriptor>, lookup: string -> Option<string>, format: Option<string> -> string,
    leq: (string, string) -> bool, codes: Option<seq<string>>, d: Descriptor)
    requires d in ds && IsCommand(d)
    ensures Count(CollectCommandMenus(ds, lookup, format, leq, codes), InCategory(CategoryResID(d))) == 1
  {
    var ms := MenusOf(GroupBy(Entries(ds, lookup)), format, leq);
    var menus := CategoryMenus(ds, lookup, format, leq);
    var p := InCategory(CategoryResID(d));
    UnsortedOnePerCategory(ds, lookup, format, leq, d);
    assert Count(menus, p) == 1 by {
      CountOrderBy(ms, MenuName, leq, p);
    }
    if HasProofing(codes) {
      assert Count(menus + [ProofingMenu(lookup)], p) == 1 by {
        CountAppend(menus, [ProofingMenu(lookup)], p);
        assert Count([ProofingMenu(lookup)], p) == 0;
      }
      CountOrderBy(menus + [ProofingMenu(lookup)], MenuName, leq, p);
    }
  }

  /**
   * A menu without commands is present exactly when the host reports more than one editing
   * language, and then it is the proofing menu, once.
   */
  lemma CollectCommandMenusProofing(
    ds: seq<Descriptor>, lookup: string -> Option<string>, format: Option<string> -> string,
    leq: (string, string) -> bool, codes: Option<seq<string>>)
    ensures var r := CollectCommandMenus(ds, lookup, format, leq, codes);
      && Count(r, Empty()) == (if HasProofing(codes) then 1 else 0)
      && (forall m :: m in r && m.commands == [] ==> m == ProofingMenu(lookup))
      && (HasProofing(codes) <==> ProofingMenu(lookup) in r)
  {
    ProofingCount(ds, lookup, format, leq, codes);
    ProofingOnlyEmpty(ds, lookup, format, leq, codes);
    ProofingPresent(ds, lookup, format, leq, codes);
  }

  /** The result has one menu without commands when the proofing menu is added, none otherwise. */
  lemma ProofingCount(
    ds: seq<Descriptor>, lookup: string -> Option<string>, format: Option<string> -> string,
    leq: (string, string) -> bool, codes: Option<seq<string>>)
    ensures Count(CollectCommandMenus(ds, lookup, format, leq, codes), Empty()) == (if HasProofing(codes) then 1 else 0)
  {
    var menus := CategoryMenus(ds, lookup, format, leq);
    UnsortedMenusNonEmpty(ds, lookup, format, leq);
    CountOrderBy(MenusOf(GroupBy(Entries(ds, lookup)), format, leq), MenuName, leq, Empty());
    if HasProofing(codes) {
      CountOrderBy(menus + [ProofingMenu(lookup)], MenuName, leq, Empty());
      CountAppend(menus, [ProofingMenu(lookup)], Empty());
      assert Count([ProofingMenu(lookup)], Empty()) == 1;
    }
  }

  /** The only menu of the result that can lack commands is the proofing menu. */
  lemma ProofingOnlyEmpty(
    ds: seq<Descriptor>, lookup: string -> Option<string>, format: Option<string> -> string,
    leq: (string, string) -> bool, codes: Option<seq<string>>)
    ensures forall m :: m in CollectCommandMenus(ds, lookup, format, leq, codes) && m.commands == [] ==> m == ProofingMenu(lookup)
  {
    UnsortedMenusNonEmpty(ds, lookup, format, leq);
    forall m | m in CollectCommandMenus(ds, lookup, format, leq, codes) && m.commands == []
      ensures m == ProofingMenu(lookup)
    {
      CollectCommandMenusMembers(ds, lookup, format, leq, codes, m);
    }
  }

  /** The proofing menu is in the result exactly when more than one editing language is reported. */
  lemma ProofingPresent(
    ds: seq<Descriptor>, lookup: string -> Option<string>, format: Option<string> -> string,
    leq: (string, string) -> bool, codes: Option<seq<string>>)
    ensures HasProofing(codes) <==> ProofingMenu(lookup) in CollectCommandMenus(ds, lookup, format, leq, codes)
  {
    UnsortedMenusNonEmpty(ds, lookup, format, leq);
    CollectCommandMenusMembers(ds, lookup, format, leq, codes, ProofingMenu(lookup));
  }

  /** Before the final sort, every category menu has commands. */
  lemma UnsortedMenusNonEmpty(
    ds: seq<Descriptor>, lookup: string -> Option<string>, format: Option<string> -> string,
    leq: (string, string) -> bool)
    ensures forall m :: m in MenusOf(GroupBy(Entries(ds, lookup)), format, leq) ==> m.commands != []
    ensures Count(MenusOf(GroupBy(Entries(ds, lookup)), format, leq), Empty()) == 0
  {
    var ms := MenusOf(GroupBy(Entries(ds, lookup)), format, leq);
    forall j | 0 <= j < |ms| ensures ms[j].commands != [] {
      UnsortedMenuContents(ds, lookup, format, leq, j);
    }
    CountNone(ms, Empty());
  }
}
