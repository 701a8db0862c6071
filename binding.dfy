/**
 * How the sheet's check boxes are bound to the persisted list of enabled commands: loading
 * checks the rows whose key is listed, saving edits the list in place to agree with the rows.
 * A row's key is its tag (a resource id) with every `_Label` removed.
 */
module Binding {
  import opened Strings
  import opened Layout

  /** The persisted key of a row. */
  function Key(r: Row): string {
    StripLabel(r.tag)
  }

  /** No key is listed twice. */
  predicate NoDup<T(==)>(s: seq<T>) {
    forall i, j :: 0 <= i < j < |s| ==> s[i] != s[j]
  }

  /** No two rows share a key. */
  ghost predicate DistinctKeys(rows: seq<Row>) {
    forall i, j :: 0 <= i < j < |rows| ==> Key(rows[i]) != Key(rows[j])
  }

  // ---------------------------------------------------------------- load

  /** Loading one row: it is checked when its key is listed; nothing unchecks it. */
  function LoadRow(r: Row, items: seq<string>): Row {
    if Key(r) in items then r.(checked := true) else r
  }

  /** Loading every row. */
  function Loaded(rows: seq<Row>, items: seq<string>): seq<Row> {
    seq(|rows|, i requires 0 <= i < |rows| => LoadRow(rows[i], items))
  }

  /** The rows as a new sheet creates them: nothing checked. */
  function Cleared(rows: seq<Row>): seq<Row> {
    seq(|rows|, i requires 0 <= i < |rows| => rows[i].(checked := false))
  }

  /** The rows of a new sheet are exactly those that are their own cleared form. */
  lemma ClearedUnchecked(rows: seq<Row>)
    ensures Cleared(rows) == rows <==> Unchecked(rows)
  {
  }

  /**
   * On a new sheet, a row is checked exactly when its key is listed, and loading changes
   * nothing else about it.
   */
  lemma LoadedChecked(rows: seq<Row>, items: seq<string>, i: nat)
    requires i < |rows|
    ensures Loaded(Cleared(rows), items)[i].checked <==> Key(rows[i]) in items
    ensures Loaded(Cleared(rows), items)[i].(checked := rows[i].checked) == rows[i]
  {
  }

  // ---------------------------------------------------------------- save

  /** `items.Elements().FirstOrDefault(e => e.Value == x)?.Remove()`. */
  function RemoveFirst<T(==)>(s: seq<T>, x: T): seq<T> {
    if s == [] then []
    else if s[0] == x then s[1..]
    else [s[0]] + RemoveFirst(s[1..], x)
  }

  /** It is the first occurrence that goes: the list is cut at it and nothing else moves. */
  lemma {:induction false} RemoveFirstAt<T>(s: seq<T>, x: T) returns (i: nat)
    requires x in s
    ensures i < |s| && s[i] == x && x !in s[..i]
    ensures RemoveFirst(s, x) == s[..i] + s[i + 1..]
  {
    if s[0] == x {
      i := 0;
    } else {
      var t := s[1..];
      assert x in t by {
        var j :| 0 <= j < |s| && s[j] == x;
        assert t[j - 1] == x;
      }
      var k := RemoveFirstAt(t, x);
      i := k + 1;
      assert s[i] == x;
      assert x !in s[..i] by {
        assert s[..i] == [s[0]] + t[..k];
      }
      calc {
        RemoveFirst(s, x);
        [s[0]] + RemoveFirst(t, x);
        [s[0]] + (t[..k] + t[k + 1..]);
        { assert s[..i] == [s[0]] + t[..k]; assert s[i + 1..] == t[k + 1..]; }
        s[..i] + s[i + 1..];
      }
    }
  }

  /** An unlisted key leaves the list as it is. */
  lemma {:induction false} RemoveFirstAbsent<T>(s: seq<T>, x: T)
    requires x !in s
    ensures RemoveFirst(s, x) == s
  {
    if s != [] {
      RemoveFirstAbsent(s[1..], x);
      assert s == [s[0]] + s[1..];
    }
  }

  /** One occurrence of `x` fewer, when there was one, and no other change in the counts. */
  lemma {:induction false} RemoveFirstCount<T>(s: seq<T>, x: T)
    ensures multiset(RemoveFirst(s, x)) == multiset(s) - multiset{x}
  {
    if s != [] {
      assert s == [s[0]] + s[1..];
      if s[0] != x {
        RemoveFirstCount(s[1..], x);
        assert RemoveFirst(s, x) == [s[0]] + RemoveFirst(s[1..], x);
      }
    }
  }

  lemma RemoveFirstNoDup<T>(s: seq<T>, x: T)
    requires NoDup(s)
    ensures NoDup(RemoveFirst(s, x))
    ensures x !in RemoveFirst(s, x)
  {
    if x in s {
      var i := RemoveFirstAt(s, x);
      var r := RemoveFirst(s, x);
      assert forall a :: 0 <= a < |r| ==> r[a] == if a < i then s[a] else s[a + 1];
    } else {
      RemoveFirstAbsent(s, x);
    }
  }

  /**
   * One iteration of the save loop: a checked row's key is appended when it is not listed,
   * an unchecked row's key loses its first occurrence; the flag says whether the list changed.
   */
  function SaveStep(items: seq<string>, r: Row): (seq<string>, bool) {
    var key := Key(r);
    if r.checked then
      if key in items then (items, false) else (items + [key], true)
    else
      if key in items then (RemoveFirst(items, key), true) else (items, false)
  }

  /** The save loop over every row, from the stored list; the flag is `updated`. */
  function SaveAll(rows: seq<Row>, items: seq<string>): (seq<string>, bool) {
    if rows == [] then (items, false)
    else
      var (l, c) := SaveAll(rows[..|rows| - 1], items);
      var (l', c') := SaveStep(l, rows[|rows| - 1]);
      (l', c || c')
  }

  lemma SaveAllStep(rows: seq<Row>, items: seq<string>, k: nat)
    requires k < |rows|
    ensures SaveAll(rows[..k + 1], items)
         == var (l, c) := SaveAll(rows[..k], items);
            var (l', c') := SaveStep(l, rows[k]);
            (l', c || c')
  {
    assert rows[..k + 1][..k] == rows[..k];
  }

  /** A step adds or removes its own key only. */
  lemma SaveStepOthers(items: seq<string>, r: Row, k: string)
    requires k != Key(r)
    ensures multiset(SaveStep(items, r).0)[k] == multiset(items)[k]
  {
    RemoveFirstCount(items, Key(r));
  }

  /** A step leaves the membership of every other key as it was. */
  lemma SaveStepKeepsMembership(items: seq<string>, r: Row, k: string)
    requires k != Key(r)
    ensures k in SaveStep(items, r).0 <==> k in items
  {
    SaveStepOthers(items, r, k);
    assert k in items <==> k in multiset(items);
    assert k in SaveStep(items, r).0 <==> k in multiset(SaveStep(items, r).0);
  }

  /** Every other key keeps the number of times it is listed. */
  lemma {:induction false} SaveAllOthers(rows: seq<Row>, items: seq<string>, k: string)
    requires forall i :: 0 <= i < |rows| ==> Key(rows[i]) != k
    ensures multiset(SaveAll(rows, items).0)[k] == multiset(items)[k]
  {
    if rows != [] {
      var pre := rows[..|rows| - 1];
      SaveAllOthers(pre, items, k);
      SaveStepOthers(SaveAll(pre, items).0, rows[|rows| - 1], k);
    }
  }

  /** A list without duplicates stays without duplicates. */
  lemma {:induction false} SaveAllNoDup(rows: seq<Row>, items: seq<string>)
    requires NoDup(items)
    ensures NoDup(SaveAll(rows, items).0)
  {
    if rows != [] {
      var pre := rows[..|rows| - 1];
      SaveAllNoDup(pre, items);
      var l := SaveAll(pre, items).0;
      var key := Key(rows[|rows| - 1]);
      if !rows[|rows| - 1].checked {
        RemoveFirstNoDup(l, key);
      }
    }
  }

  /** A row's state disagrees with the list when it is checked and unlisted or unchecked and listed. */
  predicate Disagrees(r: Row, items: seq<string>) {
    r.checked != (Key(r) in items)
  }

  /** Rows with other keys leave a key's membership as it was. */
  lemma SaveAllKeepsMembership(rows: seq<Row>, items: seq<string>, k: string)
    requires forall i :: 0 <= i < |rows| ==> Key(rows[i]) != k
    ensures k in SaveAll(rows, items).0 <==> k in items
  {
    SaveAllOthers(rows, items, k);
    assert k in SaveAll(rows, items).0 <==> k in multiset(SaveAll(rows, items).0);
  }

  /** A save that reports no change has left the list as it was. */
  lemma {:induction false} SaveAllUnflagged(rows: seq<Row>, items: seq<string>)
    ensures !SaveAll(rows, items).1 ==> SaveAll(rows, items).0 == items
  {
    if rows != [] {
      SaveAllUnflagged(rows[..|rows| - 1], items);
    }
  }

  /**
   * `updated` is true exactly when some row disagreed with the stored list: the list is
   * untouched up to the first such row, and that row changes it.
   */
  lemma {:induction false} SaveAllChanged(rows: seq<Row>, items: seq<string>)
    ensures SaveAll(rows, items).1 <==> exists i :: 0 <= i < |rows| && Disagrees(rows[i], items)
  {
    if rows != [] {
      var n := |rows| - 1;
      var pre := rows[..n];
      var last := rows[n];
      var (l, c) := SaveAll(pre, items);
      assert c <==> exists i :: 0 <= i < n && Disagrees(pre[i], items) by {
        SaveAllChanged(pre, items);
      }
      assert !c ==> (SaveStep(l, last).1 <==> Disagrees(last, items)) by {
        SaveAllUnflagged(pre, items);
      }
      assert (exists i :: 0 <= i < |rows| && Disagrees(rows[i], items))
         <==> (exists i :: 0 <= i < n && Disagrees(pre[i], items)) || Disagrees(last, items)
      by {
        if exists i :: 0 <= i < n && Disagrees(pre[i], items) {
          var i :| 0 <= i < n && Disagrees(pre[i], items);
          assert rows[i] == pre[i];
        }
        if exists i :: 0 <= i < |rows| && Disagrees(rows[i], items) {
          var i :| 0 <= i < |rows| && Disagrees(rows[i], items);
          if i < n {
            assert pre[i] == rows[i];
          }
        }
      }
    }
  }

  /** With distinct keys and a list without duplicates, a key is listed after saving exactly when its row is checked. */
  lemma {:induction false} SaveAllListed(rows: seq<Row>, items: seq<string>, i: nat)
    requires DistinctKeys(rows) && NoDup(items)
    requires i < |rows|
    ensures Key(rows[i]) in SaveAll(rows, items).0 <==> rows[i].checked
  {
    var n := |rows| - 1;
    var pre := rows[..n];
    var last := rows[n];
    var l := SaveAll(pre, items).0;
    assert DistinctKeys(pre);
    if i < n {
      assert Key(rows[i]) in l <==> rows[i].checked by {
        SaveAllListed(pre, items, i);
        assert pre[i] == rows[i];
      }
      SaveStepKeepsMembership(l, last, Key(rows[i]));
    } else {
      SaveAllNoDup(pre, items);
      if !last.checked {
        RemoveFirstNoDup(l, Key(last));
      }
    }
  }

  /** Saving twice: the second save finds nothing to change. */
  lemma SaveAllIdempotent(rows: seq<Row>, items: seq<string>)
    requires DistinctKeys(rows) && NoDup(items)
    ensures !SaveAll(rows, SaveAll(rows, items).0).1
  {
    var l := SaveAll(rows, items).0;
    SaveAllChanged(rows, l);
    forall i | 0 <= i < |rows| ensures !Disagrees(rows[i], l) {
      SaveAllListed(rows, items, i);
    }
  }

  /**
   * Without a duplicate-free list the second save is not idle: an unchecked row's key listed
   * twice loses one occurrence per save.
   */
  lemma SaveDuplicatesNotIdempotent(r: Row)
    requires !r.checked
    ensures var l := SaveAll([r], [Key(r), Key(r)]).0;
      l == [Key(r)] && SaveAll([r], l).1
  {
    assert [r][..0] == [];
  }

  /** Saving, then loading into a new sheet, gives back every row as it was. */
  lemma SaveThenLoad(rows: seq<Row>, items: seq<string>)
    requires DistinctKeys(rows) && NoDup(items)
    ensures Loaded(Cleared(rows), SaveAll(rows, items).0) == rows
  {
    var l := SaveAll(rows, items).0;
    forall i | 0 <= i < |rows| ensures Loaded(Cleared(rows), l)[i] == rows[i] {
      SaveAllListed(rows, items, i);
    }
  }

  /** Loading into a new sheet, then saving without edits, changes nothing. */
  lemma LoadThenSave(rows: seq<Row>, items: seq<string>)
    ensures !SaveAll(Loaded(Cleared(rows), items), items).1
  {
    SaveAllChanged(Loaded(Cleared(rows), items), items);
  }
}
