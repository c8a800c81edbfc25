/** The comorbidity picker's list edits: the search filter over a category,
    the checkbox toggle, the custom entry, and the label shown on a pill. */
module Selection {
  import opened Base
  import opened Text
  import opened Categories

  /** An entry is shown when the query is empty or, ignoring letter case,
      occurs in its label or in its key. */
  ghost predicate Shown(query: string, e: (string, string)) {
    query == [] || IsSubstring(Lower(query), Lower(e.1)) || IsSubstring(Lower(query), Lower(e.0))
  }

  /** The search box's test for one entry. */
  function Matches(query: string, e: (string, string)): (show: bool)
    ensures show <==> Shown(query, e)
  {
    query == [] || Contains(Lower(e.1), Lower(query)) || Contains(Lower(e.0), Lower(query))
  }

  /** The entries of `group` that `keep` accepts, in order. */
  function Filter(group: Group, keep: ((string, string)) -> bool): (kept: Group)
    ensures |kept| <= |group|
  {
    if group == [] then []
    else (if keep(group[0]) then [group[0]] else []) + Filter(group[1..], keep)
  }

  /** Filtering splits along any split of the list. */
  lemma {:induction false} FilterAppend(a: Group, b: Group, keep: ((string, string)) -> bool)
    ensures Filter(a + b, keep) == Filter(a, keep) + Filter(b, keep)
    decreases |a|
  {
    if a == [] {
      assert a + b == b;
    } else {
      var hd := if keep(a[0]) then [a[0]] else [];
      assert (a + b)[0] == a[0];
      assert (a + b)[1..] == a[1..] + b;
      assert Filter(a + b, keep) == hd + Filter(a[1..] + b, keep);
      FilterAppend(a[1..], b, keep);
      assert hd + (Filter(a[1..], keep) + Filter(b, keep)) == (hd + Filter(a[1..], keep)) + Filter(b, keep);
    }
  }

  /** The filter keeps exactly the accepted entries. */
  lemma {:induction false} FilterMembers(group: Group, keep: ((string, string)) -> bool)
    ensures forall e :: e in Filter(group, keep) <==> e in group && keep(e)
    decreases |group|
  {
    if group != [] {
      FilterMembers(group[1..], keep);
      assert forall x :: x in group <==> x == group[0] || x in group[1..];
    }
  }

  /** The filtered category of the search box, in category order. */
  function FilterGroup(query: string, group: Group): (kept: Group)
    ensures |kept| <= |group|
  {
    Filter(group, e => Matches(query, e))
  }

  /** The search box keeps exactly the entries of the category it shows. */
  lemma FilterGroupMembers(query: string, group: Group)
    ensures forall e :: e in FilterGroup(query, group) <==> e in group && Shown(query, e)
  {
    FilterMembers(group, e => Matches(query, e));
  }

  /** Filtering splits along any split of the category, so it keeps the
      category's order. */
  lemma FilterGroupAppend(query: string, a: Group, b: Group)
    ensures FilterGroup(query, a + b) == FilterGroup(query, a) + FilterGroup(query, b)
  {
    FilterAppend(a, b, e => Matches(query, e));
  }

  /** A test that accepts everything keeps the whole list. */
  lemma {:induction false} FilterAll(group: Group, keep: ((string, string)) -> bool)
    requires forall i :: 0 <= i < |group| ==> keep(group[i])
    ensures Filter(group, keep) == group
    decreases |group|
  {
    if group != [] {
      FilterAll(group[1..], keep);
    }
  }

  /** Filtering twice with the same test filters once. */
  lemma {:induction false} FilterIdempotent(group: Group, keep: ((string, string)) -> bool)
    ensures Filter(Filter(group, keep), keep) == Filter(group, keep)
    decreases |group|
  {
    if group != [] {
      var rest := Filter(group[1..], keep);
      FilterIdempotent(group[1..], keep);
      if keep(group[0]) {
        var one := [group[0]];
        assert Filter(group, keep) == one + rest;
        FilterAppend(one, rest, keep);
        assert one[1..] == [];
        assert Filter(one, keep) == one + Filter([], keep);
      } else {
        assert Filter(group, keep) == rest;
      }
    }
  }

  /** An empty query shows the whole category. */
  lemma EmptyQueryShowsAll(group: Group)
    ensures FilterGroup([], group) == group
  {
    FilterAll(group, e => Matches([], e));
  }

  /** Filtering twice with the same query filters once. */
  lemma FilterGroupIdempotent(query: string, group: Group)
    ensures FilterGroup(query, FilterGroup(query, group)) == FilterGroup(query, group)
  {
    FilterIdempotent(group, e => Matches(query, e));
  }

  /** `s` with every occurrence of `x` removed. */
  function Without(s: seq<string>, x: string): (r: seq<string>)
    ensures x !in r
    ensures forall y :: y != x ==> (y in r <==> y in s)
  {
    if s == [] then []
    else
      assert forall y :: y in s <==> y == s[0] || y in s[1..];
      (if s[0] == x then [] else [s[0]]) + Without(s[1..], x)
  }

  lemma {:induction false} WithoutAppend(a: seq<string>, b: seq<string>, x: string)
    ensures Without(a + b, x) == Without(a, x) + Without(b, x)
    decreases |a|
  {
    if a == [] {
      assert a + b == b;
    } else {
      assert (a + b)[0] == a[0];
      assert (a + b)[1..] == a[1..] + b;
      WithoutAppend(a[1..], b, x);
    }
  }

  /** Python's `list.remove`: drop the first occurrence, if any. */
  function RemoveFirst(s: seq<string>, x: string): (r: seq<string>)
    ensures x in s ==> |r| == |s| - 1
    ensures x !in s ==> r == s
    ensures Without(r, x) == Without(s, x)
    ensures forall i :: 0 <= i < |r| ==> r[i] in s
  {
    if s == [] then []
    else if s[0] == x then
      assert s == [x] + s[1..];
      WithoutAppend([x], s[1..], x);
      s[1..]
    else
      var rest := RemoveFirst(s[1..], x);
      assert s == [s[0]] + s[1..];
      WithoutAppend([s[0]], s[1..], x);
      WithoutAppend([s[0]], rest, x);
      [s[0]] + rest
  }

  /** `list.remove`: the occurrence removed is the first one, at index `i`. */
  lemma {:induction false} RemoveFirstDropsFirst(s: seq<string>, x: string, i: nat)
    requires i < |s| && s[i] == x && x !in s[..i]
    ensures RemoveFirst(s, x) == s[..i] + s[i + 1..]
    decreases i
  {
    if i == 0 {
      assert s[..0] + s[1..] == s[1..];
    } else {
      var t := s[1..];
      PrefixOfTail(s, x, i);
      RemoveFirstDropsFirst(t, x, i - 1);
      assert RemoveFirst(s, x) == [s[0]] + RemoveFirst(t, x);
    }
  }

  /** Cutting the head off a prefix free of `x`. */
  lemma PrefixOfTail(s: seq<string>, x: string, i: nat)
    requires 0 < i < |s| && x !in s[..i]
    ensures s[0] != x && x !in s[1..][..i - 1]
    ensures s[..i] + s[i + 1..] == [s[0]] + (s[1..][..i - 1] + s[1..][i..])
  {
    assert s[0] == s[..i][0];
    assert s[1..][..i - 1] == s[..i][1..];
  }

  /** Removing an element from a duplicate-free list leaves it out entirely,
      and keeps the list duplicate-free. */
  lemma {:induction false} RemoveFirstNoDuplicates(s: seq<string>, x: string)
    requires NoDuplicates(s)
    ensures x !in RemoveFirst(s, x) && NoDuplicates(RemoveFirst(s, x))
    decreases |s|
  {
    if s != [] {
      assert forall i :: 1 <= i < |s| ==> s[i] != s[0];
      if s[0] != x {
        assert NoDuplicates(s[1..]) by {
          forall i, j | 0 <= i < j < |s[1..]|
            ensures s[1..][i] != s[1..][j]
          {
            assert s[1..][i] == s[i + 1] && s[1..][j] == s[j + 1];
          }
        }
        RemoveFirstNoDuplicates(s[1..], x);
        var rest := RemoveFirst(s[1..], x);
        assert s[0] !in rest;
      } else {
        assert s[1..] == RemoveFirst(s, x);
      }
    }
  }

  /** One checkbox of the picker: a checked box adds its key when absent, an
      unchecked one removes it when present. */
  function Toggle(sel: seq<string>, key: string, checked: bool): (r: seq<string>)
    ensures checked ==> key in r
    ensures Without(r, key) == Without(sel, key)
    ensures forall y :: y != key ==> (y in r <==> y in sel)
  {
    if checked && key !in sel then
      WithoutAppend(sel, [key], key);
      assert Without([key], key) == [];
      sel + [key]
    else if !checked && key in sel then
      var r := RemoveFirst(sel, key);
      assert forall y :: y != key ==> (y in r <==> y in Without(r, key));
      assert forall y :: y != key ==> (y in sel <==> y in Without(sel, key));
      r
    else
      sel
  }

  /** On a duplicate-free selection the key ends up selected exactly when the
      box is checked, and no duplicate appears. */
  lemma ToggleOnDuplicateFree(sel: seq<string>, key: string, checked: bool)
    requires NoDuplicates(sel)
    ensures key in Toggle(sel, key, checked) <==> checked
    ensures NoDuplicates(Toggle(sel, key, checked))
  {
    if !checked && key in sel {
      RemoveFirstNoDuplicates(sel, key);
    }
  }

  /** The boxes of one rendering of the picker, in drawing order. */
  function ApplyBoxes(sel: seq<string>, boxes: seq<(string, bool)>): (r: seq<string>)
    ensures forall y :: (forall i :: 0 <= i < |boxes| ==> boxes[i].0 != y) ==> (y in r <==> y in sel)
    decreases |boxes|
  {
    if boxes == [] then sel
    else ApplyBoxes(Toggle(sel, boxes[0].0, boxes[0].1), boxes[1..])
  }

  /** A duplicate-free selection stays duplicate-free through the picker,
      and the last box drawn for a key decides whether it is selected. */
  lemma {:induction false} ApplyBoxesKeepsNoDuplicates(sel: seq<string>, boxes: seq<(string, bool)>)
    requires NoDuplicates(sel)
    ensures NoDuplicates(ApplyBoxes(sel, boxes))
    ensures boxes != [] ==>
              (boxes[|boxes| - 1].0 in ApplyBoxes(sel, boxes) <==> boxes[|boxes| - 1].1)
    decreases |boxes|
  {
    if boxes != [] {
      var next := Toggle(sel, boxes[0].0, boxes[0].1);
      ToggleOnDuplicateFree(sel, boxes[0].0, boxes[0].1);
      ApplyBoxesKeepsNoDuplicates(next, boxes[1..]);
      if |boxes| == 1 {
        assert boxes[1..] == [];
      } else {
        assert boxes[1..][|boxes[1..]| - 1] == boxes[|boxes| - 1];
      }
    }
  }

  /** For every key, the last box drawn for it decides whether it ends up
      selected, whatever boxes for other keys follow. */
  lemma {:induction false} ApplyBoxesLastBoxDecides(sel: seq<string>, boxes: seq<(string, bool)>, j: nat)
    requires NoDuplicates(sel)
    requires j < |boxes|
    requires forall m :: j < m < |boxes| ==> boxes[m].0 != boxes[j].0
    ensures boxes[j].0 in ApplyBoxes(sel, boxes) <==> boxes[j].1
    decreases |boxes|
  {
    var next := Toggle(sel, boxes[0].0, boxes[0].1);
    ToggleOnDuplicateFree(sel, boxes[0].0, boxes[0].1);
    var rest := boxes[1..];
    if j == 0 {
      assert forall i :: 0 <= i < |rest| ==> rest[i].0 == boxes[i + 1].0;
    } else {
      assert forall m :: j - 1 < m < |rest| ==> rest[m].0 == boxes[m + 1].0;
      ApplyBoxesLastBoxDecides(next, rest, j - 1);
    }
  }

  /** The custom entry button: a non-empty entry not yet selected is
      appended; anything else leaves the selection as it is. */
  function AddCustom(sel: seq<string>, entry: string): (r: seq<string>)
    ensures entry != [] ==> entry in r
    ensures forall y :: y in r <==> y in sel || (y == entry && entry != [])
    ensures |sel| <= |r| <= |sel| + 1 && r[..|sel|] == sel
    ensures NoDuplicates(sel) ==> NoDuplicates(r)
  {
    if entry != [] && entry !in sel then sel + [entry] else sel
  }

  /** The entries of all categories, in category order. */
  function AllEntries(cats: seq<(string, Group)>): (all: Group)
    ensures forall c, j :: 0 <= c < |cats| && 0 <= j < |cats[c].1| ==> cats[c].1[j] in all
  {
    if cats == [] then []
    else
      var rest := AllEntries(cats[1..]);
      assert forall c, j :: 1 <= c < |cats| && 0 <= j < |cats[c].1| ==> cats[c].1[j] == cats[1..][c - 1].1[j];
      cats[0].1 + rest
  }

  /** The label of a pill: the label in the first category that has the key,
      or the key itself when none has. */
  function PillLabel(cats: seq<(string, Group)>, key: string): (shown: string)
    ensures shown == match Lookup(AllEntries(cats), key) case Some(l) => l case None => key
  {
    if cats == [] then key
    else
      LookupAppend(cats[0].1, AllEntries(cats[1..]), key);
      match Lookup(cats[0].1, key)
      case Some(l) => l
      case None => PillLabel(cats[1..], key)
  }

  /** A custom entry that no category lists is shown as written. */
  lemma PillOfCustomEntry(cats: seq<(string, Group)>, key: string)
    requires forall c, j :: 0 <= c < |cats| && 0 <= j < |cats[c].1| ==> cats[c].1[j].0 != key
    ensures PillLabel(cats, key) == key
  {
    var all := AllEntries(cats);
    if Lookup(all, key).Some? {
      var i :| 0 <= i < |all| && all[i] == (key, Lookup(all, key).value);
      EntryOfAll(cats, i);
    }
  }

  /** Every entry of the flattened list comes from some category. */
  lemma {:induction false} EntryOfAll(cats: seq<(string, Group)>, i: nat)
    requires i < |AllEntries(cats)|
    ensures exists c, j :: 0 <= c < |cats| && 0 <= j < |cats[c].1| && AllEntries(cats)[i] == cats[c].1[j]
    decreases |cats|
  {
    if cats != [] {
      var first := cats[0].1;
      if i < |first| {
        assert AllEntries(cats)[i] == cats[0].1[i];
      } else {
        EntryOfAll(cats[1..], i - |first|);
        var c, j :| 0 <= c < |cats[1..]| && 0 <= j < |cats[1..][c].1|
                    && AllEntries(cats[1..])[i - |first|] == cats[1..][c].1[j];
        assert AllEntries(cats)[i] == cats[c + 1].1[j];
      }
    }
  }
}
