/**
 * `ContextMenuSheet.MenuPanel.AddMenus`: one row per menu and per command, in order, then
 * one width for all rows so that their right edges line up.
 *
 * A row is the `MenuItemPanel` control; its natural width, which the toolkit decides when
 * the control is created, is `measure(text, indented)`, and the system's menu check-mark
 * width (`SystemInformation.MenuCheckSize.Width`, also the left margin of an indented row)
 * is `checkSize`.
 */
module Layout {
  import opened Strings
  import opened Ordering
  import opened CommandMenus

  /** A `MenuItemPanel`: its text, its tag (a resource id), whether it is indented, and its state. */
  datatype Row = Row(text: Option<string>, tag: string, indented: bool, width: int, flowBreak: bool, checked: bool)

  /** A freshly created row: natural width, no flow break, not checked. */
  function NewRow(text: Option<string>, tag: string, indented: bool, measure: (Option<string>, bool) -> int): Row {
    Row(text, tag, indented, measure(text, indented), false, false)
  }

  function CommandRows(cs: seq<CtxMenuItem>, measure: (Option<string>, bool) -> int): (r: seq<Row>)
    ensures |r| == |cs|
    ensures forall i :: 0 <= i < |r| ==> r[i].indented
  {
    if cs == [] then []
    else CommandRows(cs[..|cs| - 1], measure) + [NewRow(cs[|cs| - 1].name, cs[|cs| - 1].resID, true, measure)]
  }

  /** No row is checked. */
  predicate Unchecked(rows: seq<Row>) {
    forall i :: 0 <= i < |rows| ==> !rows[i].checked
  }

  /** Command rows are created unchecked. */
  lemma {:induction false} CommandRowsUnchecked(cs: seq<CtxMenuItem>, measure: (Option<string>, bool) -> int)
    ensures Unchecked(CommandRows(cs, measure))
  {
    if cs != [] {
      CommandRowsUnchecked(cs[..|cs| - 1], measure);
    }
  }

  /** The rows one menu contributes: its own row, then its commands' rows unless it is the colorize menu. */
  function MenuRows(m: CtxMenu, measure: (Option<string>, bool) -> int): seq<Row> {
    [NewRow(m.name, m.resID, false, measure)]
      + (if m.resID == ColorizeResID then [] else CommandRows(m.commands, measure))
  }

  /** The rows `AddMenus` creates, in order. */
  function EmittedRows(ms: seq<CtxMenu>, measure: (Option<string>, bool) -> int): seq<Row> {
    if ms == [] then [] else EmittedRows(ms[..|ms| - 1], measure) + MenuRows(ms[|ms| - 1], measure)
  }

  /** Every row `AddMenus` creates starts unchecked. */
  lemma {:induction false} EmittedRowsUnchecked(ms: seq<CtxMenu>, measure: (Option<string>, bool) -> int)
    ensures Unchecked(EmittedRows(ms, measure))
  {
    if ms != [] {
      EmittedRowsUnchecked(ms[..|ms| - 1], measure);
      CommandRowsUnchecked(ms[|ms| - 1].commands, measure);
    }
  }

  lemma EmittedRowsStep(ms: seq<CtxMenu>, k: nat, measure: (Option<string>, bool) -> int)
    requires k < |ms|
    ensures EmittedRows(ms[..k + 1], measure) == EmittedRows(ms[..k], measure) + MenuRows(ms[k], measure)
  {
    assert ms[..k + 1][..k] == ms[..k];
  }

  lemma CommandRowsStep(cs: seq<CtxMenuItem>, j: nat, measure: (Option<string>, bool) -> int)
    requires j < |cs|
    ensures CommandRows(cs[..j + 1], measure) == CommandRows(cs[..j], measure) + [NewRow(cs[j].name, cs[j].resID, true, measure)]
  {
    assert cs[..j + 1][..j] == cs[..j];
  }

  /** A row's contribution to the common width: a menu row counts the indent it does not have. */
  function Offset(r: Row, checkSize: int): int {
    if r.indented then r.width else r.width + checkSize
  }

  /** The running maximum of `AddMenus`, starting from 0. */
  function MaxOffset(rows: seq<Row>, checkSize: int): int {
    if rows == [] then 0
    else
      var w := MaxOffset(rows[..|rows| - 1], checkSize);
      var o := Offset(rows[|rows| - 1], checkSize);
      if w < o then o else w
  }

  /**
   * The running maximum is the maximum of 0 and every row's offset: no row exceeds it, and
   * unless it is 0 some row attains it.
   */
  lemma {:induction false} MaxOffsetIsMaximum(rows: seq<Row>, checkSize: int)
    ensures 0 <= MaxOffset(rows, checkSize)
    ensures forall i :: 0 <= i < |rows| ==> Offset(rows[i], checkSize) <= MaxOffset(rows, checkSize)
    ensures MaxOffset(rows, checkSize) == 0
         || exists i :: 0 <= i < |rows| && Offset(rows[i], checkSize) == MaxOffset(rows, checkSize)
  {
    if rows != [] {
      var pre := rows[..|rows| - 1];
      MaxOffsetIsMaximum(pre, checkSize);
      if MaxOffset(rows, checkSize) != 0 && MaxOffset(rows, checkSize) == MaxOffset(pre, checkSize) {
        var i :| 0 <= i < |pre| && Offset(pre[i], checkSize) == MaxOffset(pre, checkSize);
        assert rows[i] == pre[i];
      }
    }
  }

  lemma MaxOffsetStep(rows: seq<Row>, r: Row, checkSize: int)
    ensures MaxOffset(rows + [r], checkSize)
         == if MaxOffset(rows, checkSize) < Offset(r, checkSize) then Offset(r, checkSize) else MaxOffset(rows, checkSize)
  {
    assert (rows + [r])[..|rows|] == rows;
  }

  /** The running maximum carried on from `w` over `rows`. */
  function Extended(w: int, rows: seq<Row>, checkSize: int): int {
    if rows == [] then w
    else
      var e := Extended(w, rows[..|rows| - 1], checkSize);
      var o := Offset(rows[|rows| - 1], checkSize);
      if e < o then o else e
  }

  lemma ExtendedStep(w: int, rows: seq<Row>, r: Row, checkSize: int)
    ensures Extended(w, rows + [r], checkSize)
         == if Extended(w, rows, checkSize) < Offset(r, checkSize) then Offset(r, checkSize) else Extended(w, rows, checkSize)
  {
    assert (rows + [r])[..|rows|] == rows;
  }

  /** Carrying the running maximum on over more rows is the running maximum over all of them. */
  lemma {:induction false} MaxOffsetAppend(rows: seq<Row>, more: seq<Row>, checkSize: int)
    ensures MaxOffset(rows + more, checkSize) == Extended(MaxOffset(rows, checkSize), more, checkSize)
  {
    if more == [] {
      assert rows + more == rows;
    } else {
      var pre := more[..|more| - 1];
      MaxOffsetAppend(rows, pre, checkSize);
      assert (rows + more)[..|rows + more| - 1] == rows + pre;
    }
  }

  /** Kept apart from the loop in `AddRows`, where proving it inline costs far more. */
  lemma AppendAssoc(a: seq<Row>, b: seq<Row>, c: seq<Row>)
    ensures (a + b) + c == a + (b + c)
  {
  }

  /** The second pass on one row: a flow break, and the common width (plus the indent for a menu row). */
  function Resized(r: Row, width: int, checkSize: int): Row {
    r.(width := if r.indented then width else width + checkSize, flowBreak := true)
  }

  /** Header rows are the menus' own rows. */
  function IsHeader(): Row -> bool {
    (r: Row) => !r.indented
  }

  /** Each menu contributes exactly one header row, and the colorize menu nothing else. */
  lemma {:induction false} EmittedRowsHeaders(ms: seq<CtxMenu>, measure: (Option<string>, bool) -> int)
    ensures Count(EmittedRows(ms, measure), IsHeader()) == |ms|
    ensures |EmittedRows(ms, measure)| == |ms| + CommandCount(ms)
  {
    if ms != [] {
      var m := ms[|ms| - 1];
      EmittedRowsHeaders(ms[..|ms| - 1], measure);
      CountAppend(EmittedRows(ms[..|ms| - 1], measure), MenuRows(m, measure), IsHeader());
      var cs := if m.resID == ColorizeResID then [] else CommandRows(m.commands, measure);
      CountAppend([NewRow(m.name, m.resID, false, measure)], cs, IsHeader());
      CommandRowsIndented(cs);
    }
  }

  lemma {:induction false} CommandRowsIndented(rows: seq<Row>)
    requires forall i :: 0 <= i < |rows| ==> rows[i].indented
    ensures Count(rows, IsHeader()) == 0
  {
    if rows != [] {
      CommandRowsIndented(rows[1..]);
    }
  }

  /** The number of command rows: the commands of every menu but the colorize menu. */
  function CommandCount(ms: seq<CtxMenu>): nat {
    if ms == [] then 0
    else CommandCount(ms[..|ms| - 1]) + (if ms[|ms| - 1].resID == ColorizeResID then 0 else |ms[|ms| - 1].commands|)
  }

  /** The panel holds exactly `rows`, in order, each resized to the widest offset plus 20. */
  ghost predicate Shows(panel: MenuPanel, rows: seq<Row>, checkSize: int)
    reads panel
  {
    && |panel.controls| == |rows|
    && forall i :: 0 <= i < |rows| ==>
         panel.controls[i] == Resized(rows[i], MaxOffset(rows, checkSize) + 20, checkSize)
  }

  /** The `FlowLayoutPanel` that holds the rows. */
  class MenuPanel {
    var controls: seq<Row>

    constructor ()
      ensures controls == []
    {
      controls := [];
    }

    /**
     * Appends the rows of `menus`, then gives every row a flow break and the common width:
     * 20 more than the widest offset among the new rows (and at least 20), plus the indent
     * for menu rows, so that every row ends at the same right edge.
     */
    method AddMenus(menus: seq<CtxMenu>, measure: (Option<string>, bool) -> int, checkSize: int)
      modifies this
      ensures var added := EmittedRows(menus, measure);
        && |controls| == |old(controls)| + |added|
        && (forall i :: 0 <= i < |old(controls)| ==>
              controls[i] == Resized(old(controls)[i], MaxOffset(added, checkSize) + 20, checkSize))
        && (forall i :: 0 <= i < |added| ==>
              controls[|old(controls)| + i] == Resized(added[i], MaxOffset(added, checkSize) + 20, checkSize))
      ensures forall i :: 0 <= i < |controls| ==>
        && controls[i].flowBreak
        && (if controls[i].indented then checkSize else 0) + controls[i].width
           == MaxOffset(EmittedRows(menus, measure), checkSize) + 20 + checkSize
    {
      var width := AddRows(menus, measure, checkSize);

      width := width + 20;

      SetWidths(width, checkSize);
    }

    /** The first loop of `AddMenus`: creates the rows and keeps the running maximum of their offsets. */
    method AddRows(menus: seq<CtxMenu>, measure: (Option<string>, bool) -> int, checkSize: int) returns (width: int)
      modifies this
      ensures controls == old(controls) + EmittedRows(menus, measure)
      ensures width == MaxOffset(EmittedRows(menus, measure), checkSize)
    {
      ghost var base := controls;
      ghost var done: seq<Row> := [];
      width := 0;
      for k := 0 to |menus|
        invariant done == EmittedRows(menus[..k], measure)
        invariant controls == base + done
        invariant width == MaxOffset(done, checkSize)
      {
        var menu := menus[k];
        var mitem := NewRow(menu.name, menu.resID, false, measure);
        controls := controls + [mitem];
        AppendAssoc(base, done, [mitem]);

        // the menu row's offset counts the check box width as well
        var offset := mitem.width + checkSize;
        if width < offset {
          width := offset;
        }
        assert width == MaxOffset(done + [mitem], checkSize) by {
          MaxOffsetStep(done, mitem, checkSize);
        }
        done := done + [mitem];
        ghost var cs := if menu.resID == ColorizeResID then [] else CommandRows(menu.commands, measure);

        if menu.resID != ColorizeResID {
          width := AddCommandRows(menu.commands, measure, checkSize, width);
        }
        assert width == MaxOffset(done + cs, checkSize) by {
          MaxOffsetAppend(done, cs, checkSize);
        }
        AppendAssoc(base, done, cs);
        AppendAssoc(done[..|done| - 1], [mitem], cs);
        done := done + cs;
        EmittedRowsStep(menus, k, measure);
      }
      assert menus[..|menus|] == menus;
    }

    /**
     * The inner loop of `AddMenus`: one indented row per command, carrying on the running
     * maximum `width0` of the offsets so far.
     */
    method AddCommandRows(commands: seq<CtxMenuItem>, measure: (Option<string>, bool) -> int, checkSize: int, width0: int)
      returns (width: int)
      modifies this
      ensures controls == old(controls) + CommandRows(commands, measure)
      ensures width == Extended(width0, CommandRows(commands, measure), checkSize)
    {
      ghost var base := controls;
      ghost var done: seq<Row> := [];
      width := width0;
      for j := 0 to |commands|
        invariant done == CommandRows(commands[..j], measure)
        invariant controls == base + done
        invariant width == Extended(width0, done, checkSize)
      {
        var command := commands[j];
        var citem := NewRow(command.name, command.resID, true, measure);
        controls := controls + [citem];
        AppendAssoc(base, done, [citem]);
        if width < citem.width {
          width := citem.width;
        }
        assert width == Extended(width0, done + [citem], checkSize) by {
          ExtendedStep(width0, done, citem, checkSize);
        }
        CommandRowsStep(commands, j, measure);
        done := done + [citem];
      }
      assert commands[..|commands|] == commands;
    }

    /** The second loop of `AddMenus`: every row gets a flow break and the common width. */
    method SetWidths(width: int, checkSize: int)
      modifies this
      ensures |controls| == |old(controls)|
      ensures forall i :: 0 <= i < |controls| ==> controls[i] == Resized(old(controls)[i], width, checkSize)
    {
      ghost var all := controls;
      for i := 0 to |controls|
        invariant |controls| == |all|
        invariant forall j :: 0 <= j < i ==> controls[j] == Resized(all[j], width, checkSize)
        invariant forall j :: i <= j < |controls| ==> controls[j] == all[j]
      {
        controls := controls[i := Resized(controls[i], width, checkSize)];
      }
    }
  }
}
