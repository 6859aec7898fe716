/**
 * `TestState::parse` and `TestState`'s `Debug::fmt` as the loops they are:
 * `parse` drains the contents in place while it keeps a running `removed`
 * count and the two id tables, then adds one region per opening id to the
 * selection; `fmt` inserts the markers one by one with a running
 * `inserted` count.  Each is proved against its specification in `Mock`.
 */
module MockHarness {
  import opened Wrappers
  import opened MockMarkers
  import opened Mock

  // ---------------------------------------------------------------------
  // the selection

  /**
   * `Selection::add_region`, as far as the harness relies on it: the region
   * goes in before the first region that starts after it.
   */
  function AddRegion(sel: seq<Region>, r: Region): (s: seq<Region>)
    ensures multiset(s) == multiset(sel) + multiset{r}
    decreases |sel|
  {
    if sel == [] then [r]
    else if r.start < sel[0].start then [r] + sel
    else
      assert sel == [sel[0]] + sel[1..];
      [sel[0]] + AddRegion(sel[1..], r)
  }

  /** The regions a sorted selection holds after its first all start no earlier than it. */
  lemma AfterFirst(sel: seq<Region>, k: nat)
    requires SortedByStart(sel) && 0 < k < |sel|
    ensures sel[0].start <= sel[k].start
  {
  }

  /** The tail of a sorted selection is sorted. */
  lemma SortedTail(sel: seq<Region>)
    requires SortedByStart(sel) && sel != []
    ensures SortedByStart(sel[1..])
  {
    var tail := sel[1..];
    forall j, k | 0 <= j < k < |tail| ensures tail[j].start <= tail[k].start {
      assert tail[j] == sel[j + 1] && tail[k] == sel[k + 1];
    }
  }

  /**
   * Whatever holds the tail of a sorted selection and a region starting no
   * earlier than its first starts no earlier than its first.
   */
  lemma AboveFirst(sel: seq<Region>, r: Region, rest: seq<Region>)
    requires SortedByStart(sel) && sel != [] && r.start >= sel[0].start
    requires multiset(rest) == multiset(sel[1..]) + multiset{r}
    ensures forall k :: 0 <= k < |rest| ==> sel[0].start <= rest[k].start
  {
    var tail := sel[1..];
    forall k | 0 <= k < |rest| ensures sel[0].start <= rest[k].start {
      assert rest[k] in multiset(rest);
      if rest[k] != r {
        assert rest[k] in multiset(tail);
        var j :| 0 <= j < |tail| && tail[j] == rest[k];
        AfterFirst(sel, j + 1);
      }
    }
  }

  /** A region in front of a sorted selection it starts no later than keeps it sorted. */
  lemma SortedCons(x: Region, rest: seq<Region>)
    requires SortedByStart(rest)
    requires forall k :: 0 <= k < |rest| ==> x.start <= rest[k].start
    ensures SortedByStart([x] + rest)
  {
    var s := [x] + rest;
    forall j, k | 0 <= j < k < |s| ensures s[j].start <= s[k].start {
      if j > 0 {
        assert s[j] == rest[j - 1] && s[k] == rest[k - 1];
      } else {
        assert s[k] == rest[k - 1];
      }
    }
  }

  /** Adding a region keeps the selection sorted by start. */
  lemma {:induction false} AddRegionSorted(sel: seq<Region>, r: Region)
    requires SortedByStart(sel)
    ensures SortedByStart(AddRegion(sel, r))
    decreases |sel|
  {
    if sel == [] {
      assert AddRegion(sel, r) == [r];
    } else if r.start < sel[0].start {
      assert AddRegion(sel, r) == [r] + sel;
      forall k | 0 <= k < |sel| ensures r.start <= sel[k].start {
        if k > 0 { AfterFirst(sel, k); }
      }
      SortedCons(r, sel);
    } else {
      var tail := sel[1..];
      var rest := AddRegion(tail, r);
      assert AddRegion(sel, r) == [sel[0]] + rest;
      hide AddRegion, SortedByStart;
      SortedTail(sel);
      AddRegionSorted(tail, r);
      AboveFirst(sel, r, rest);
      SortedCons(sel[0], rest);
    }
  }

  /** One element of a non-empty set, always the same one. */
  ghost function Pick(ids: set<nat>): (id: nat)
    requires ids != {}
    ensures id in ids
  {
    var id :| id in ids; id
  }

  /** The regions under the ids `ids`, one per id. */
  ghost function Bag(regions: map<nat, Region>, ids: set<nat>): multiset<Region>
    requires ids <= regions.Keys
    decreases ids
  {
    if ids == {} then multiset{} else Bag(regions, ids - {Pick(ids)}) + multiset{regions[Pick(ids)]}
  }

  /** Taking any one id out of the set takes out exactly its region. */
  lemma {:induction false} BagRemove(regions: map<nat, Region>, ids: set<nat>, id: nat)
    requires ids <= regions.Keys && id in ids
    ensures Bag(regions, ids) == Bag(regions, ids - {id}) + multiset{regions[id]}
    decreases ids
  {
    var p := Pick(ids);
    if p != id {
      BagRemove(regions, ids - {p}, id);
      BagRemove(regions, ids - {id}, p);
      assert ids - {p} - {id} == ids - {id} - {p};
    }
  }

  /** One region per id: the selection is as long as there are opening ids. */
  lemma {:induction false} BagSize(regions: map<nat, Region>, ids: set<nat>)
    requires ids <= regions.Keys
    ensures |Bag(regions, ids)| == |ids|
    decreases ids
  {
    if ids != {} {
      BagSize(regions, ids - {Pick(ids)});
    }
  }

  /** The region of every id is in the selection, and nothing else is. */
  lemma {:induction false} BagHolds(regions: map<nat, Region>, ids: set<nat>, r: Region)
    requires ids <= regions.Keys
    ensures r in Bag(regions, ids) <==> exists id :: id in ids && regions[id] == r
    decreases ids
  {
    if ids != {} {
      var p := Pick(ids);
      BagHolds(regions, ids - {p}, r);
      if r in Bag(regions, ids - {p}) {
        var id :| id in ids - {p} && regions[id] == r;
        assert id in ids;
      }
    }
  }

  // ---------------------------------------------------------------------
  // parse

  /**
   * The closure `record_cursor_marker`: the marker found at `f.start` goes
   * in `table` at `f.start - removed`, and its characters leave the
   * contents.  `None` is the panic: the subtraction underflows, the id is
   * already in the table, or the drained range lies past the end.
   */
  method RecordCursorMarker(f: Found, contents: string, removed: nat, table: map<nat, nat>)
    returns (r: Option<(string, nat, map<nat, nat>)>)
    ensures r.Some? <==> removed <= f.start && f.id !in table && f.start - removed + f.len <= |contents|
    ensures r.Some? ==>
      var start := f.start - removed;
      r.value == (contents[..start] + contents[start + f.len..], removed + f.len, table[f.id := start])
  {
    if f.start < removed {
      return None;
    }
    var start := f.start - removed;
    var end := start + f.len;
    if f.id in table {
      return None;  // "Duplicate cursor marker"
    }
    if end > |contents| {
      return None;
    }
    var drained := contents[..start] + contents[end..];
    return Some((drained, removed + f.len, table[f.id := start]));
  }

  /** The progress of `parse` with `table` in the place of the tables of kind `closing`. */
  function WithTable(contents: string, removed: nat, table: map<nat, nat>, other: map<nat, nat>, closing: bool): Progress
  {
    if closing then Progress(contents, removed, other, table) else Progress(contents, removed, table, other)
  }

  /** Recording two runs of markers is recording the first, then the second. */
  lemma {:induction false} RecordAllAppend(xs: seq<Found>, ys: seq<Found>, p: Progress)
    ensures RecordAll(xs + ys, p) == match RecordAll(xs, p) case None => None case Some(q) => RecordAll(ys, q)
    decreases |xs|
  {
    if xs == [] {
      assert xs + ys == ys;
    } else {
      assert (xs + ys)[0] == xs[0] && (xs + ys)[1..] == xs[1..] + ys;
      match RecordMarker(xs[0], p)
      case None =>
      case Some(q) => RecordAllAppend(xs[1..], ys, q);
    }
  }

  /**
   * One `for` loop of `parse` over the matches of one pattern, every one
   * of kind `closing`, each recorded in `table`; `other`, the table of the
   * other kind, stays as it is.  It ends where the specification ends.
   */
  method RecordPass(ms: seq<Found>, closing: bool, contents: string, removed: nat, table: map<nat, nat>, ghost other: map<nat, nat>)
    returns (r: Option<(string, nat, map<nat, nat>)>)
    requires forall k :: 0 <= k < |ms| ==> ms[k].closing == closing
    ensures var spec := RecordAll(ms, WithTable(contents, removed, table, other, closing));
      && (r.Some? <==> spec.Some?)
      && (r.Some? ==> spec.value == WithTable(r.value.0, r.value.1, r.value.2, other, closing))
  {
    ghost var spec := RecordAll(ms, WithTable(contents, removed, table, other, closing));
    var c, n, t := contents, removed, table;
    var i := 0;
    while i < |ms|
      invariant i <= |ms|
      invariant spec == RecordAll(ms[i..], WithTable(c, n, t, other, closing))
    {
      var f := ms[i];
      ghost var p := WithTable(c, n, t, other, closing);
      assert f.closing == closing;
      assert ms[i..][0] == f && ms[i..][1..] == ms[i + 1..];
      var step := RecordCursorMarker(f, c, n, t);
      if step.None? {
        return None;
      }
      c, n, t := step.value.0, step.value.1, step.value.2;
      assert RecordMarker(f, p) == Some(WithTable(c, n, t, other, closing));
      i := i + 1;
    }
    return Some((c, n, t));
  }

  /**
   * The last loop of `parse`: one region per opening id, up to the closing
   * marker of the same id or a caret, added to the selection in any order.
   */
  method Select(starts: map<nat, nat>, ends: map<nat, nat>) returns (selection: seq<Region>)
    ensures SortedByStart(selection)
    ensures multiset(selection) == Bag(Regions(starts, ends), starts.Keys)
  {
    ghost var regions := Regions(starts, ends);
    selection := [];
    var rest := starts.Keys;
    while rest != {}
      invariant rest <= starts.Keys
      invariant SortedByStart(selection)
      invariant multiset(selection) + Bag(regions, rest) == Bag(regions, starts.Keys)
      decreases rest
    {
      var id :| id in rest;
      var start := starts[id];
      var region := if id in ends then Region(start, ends[id]) else Region(start, start);
      BagRemove(regions, rest, id);
      AddRegionSorted(selection, region);
      selection := AddRegion(selection, region);
      rest := rest - {id};
    }
  }

  /**
   * `TestState::parse`: every opening marker, then every closing marker,
   * then one region per opening id.  It fails exactly where the
   * specification does, keeps its contents, and builds a sorted selection
   * holding exactly the specification's regions.
   */
  method Parse(initial: string) returns (r: Option<TestState>)
    ensures r.Some? <==> ParseAsWritten(initial).Some?
    ensures r.Some? ==>
      var p := ParseAsWritten(initial).value;
      && r.value.contents == p.contents
      && SortedByStart(r.value.selection)
      && multiset(r.value.selection) == Bag(p.regions, p.regions.Keys)
  {
    var fs := Scan(initial, 0);
    var opens, closes := OfKind(fs, false), OfKind(fs, true);
    ghost var init := Progress(initial, 0, map[], map[]);
    RecordAllAppend(opens, closes, init);
    assert WithTable(initial, 0, map[], map[], false) == init;
    var a := RecordPass(opens, false, initial, 0, map[], map[]);
    if a.None? {
      return None;
    }
    var contents, removed, starts := a.value.0, a.value.1, a.value.2;
    var b := RecordPass(closes, true, contents, removed, map[], starts);
    if b.None? {
      return None;
    }
    var ends: map<nat, nat>;
    contents, removed, ends := b.value.0, b.value.1, b.value.2;
    assert RecordAll(opens + closes, init) == Some(Progress(contents, removed, starts, ends));
    var selection := Select(starts, ends);
    return Some(TestState(contents, selection));
  }

  // ---------------------------------------------------------------------
  // fmt

  /**
   * `Debug::fmt`'s first loop: `<$i>` at the start of every region `i`,
   * shifted by what was inserted before it; the closing marks `ends` are
   * what is left to insert after it.
   */
  method InsertOpens(sel: seq<Region>, contents: string, ghost ends: seq<Mark>) returns (r: Option<(string, nat)>)
    ensures r.None? ==> InsertAll(contents, StartMarks(sel) + ends, 0) == None
    ensures r.Some? ==> InsertAll(contents, StartMarks(sel) + ends, 0) == InsertAll(r.value.0, ends, r.value.1)
  {
    var text := contents;
    var inserted: nat := 0;
    ghost var opens := StartMarks(sel);
    ghost var spec := InsertAll(contents, opens + ends, 0);
    assert opens[0..] == opens;

    var i := 0;
    while i < |sel|
      invariant i <= |sel|
      invariant spec == InsertAll(text, opens[i..] + ends, inserted)
    {
      var marker := MarkerText(false, i);
      var at: nat := sel[i].start + inserted;
      hide *;
      StartMarksStep(sel, i, ends);
      InsertAllStep(text, opens[i..] + ends, inserted);
      if at > |text| {
        return None;
      }
      text := text[..at] + marker + text[at..];
      inserted := inserted + |marker|;
      i := i + 1;
    }
    assert opens[i..] + ends == ends;
    return Some((text, inserted));
  }

  /**
   * `Debug::fmt`'s second loop: `</$i>` at the end of every region `i` that
   * is not a caret, shifted by what was inserted before it.
   */
  method InsertCloses(sel: seq<Region>, contents: string, inserted: nat) returns (r: Option<string>)
    ensures r == InsertAll(contents, EndMarks(sel, 0), inserted)
  {
    var text := contents;
    var shift: nat := inserted;
    ghost var spec := InsertAll(contents, EndMarks(sel, 0), inserted);
    assert sel[0..] == sel;

    var i := 0;
    while i < |sel|
      invariant i <= |sel|
      invariant spec == InsertAll(text, EndMarks(sel[i..], i), shift)
    {
      hide *;
      EndMarksStep(sel, i);
      if !IsCaret(sel[i]) {
        var marker := MarkerText(true, i);
        var at: nat := sel[i].end + shift;
        InsertAllStep(text, EndMarks(sel[i..], i), shift);
        if at > |text| {
          return None;
        }
        text := text[..at] + marker + text[at..];
        shift := shift + |marker|;
      }
      i := i + 1;
    }
    assert sel[i..] == [];
    return Some(text);
  }

  /**
   * `Debug::fmt` for `TestState`: `<$i>` at every region start, then
   * `</$i>` at every end that is not a caret, each shifted by what was
   * inserted before it.  `None` is the panic of `insert_str` past the end.
   */
  method Format(st: TestState) returns (r: Option<string>)
    ensures r == FormatAsWritten(st)
  {
    var a := InsertOpens(st.selection, st.contents, EndMarks(st.selection, 0));
    if a.None? {
      return None;
    }
    r := InsertCloses(st.selection, a.value.0, a.value.1);
  }
}
