/**
 * `TestState` of the editor test harness: contents plus a selection,
 * written as text with cursor markers.  `parse` takes the markers out and
 * records where they were; `fmt` writes them back in.
 *
 * A panic of the harness (a repeated cursor id, an offset that underflows,
 * an index out of range) is `None` here.
 */
module Mock {
  import opened Wrappers
  import opened MockMarkers
  import opened MockSamples

  /** A selection region; `start == end` is a caret. */
  datatype Region = Region(start: nat, end: nat)

  predicate IsCaret(r: Region)
  {
    r.start == r.end
  }

  /** A selection keeps its regions ordered by where they start. */
  predicate SortedByStart(sel: seq<Region>)
  {
    forall j, k :: 0 <= j < k < |sel| ==> sel[j].start <= sel[k].start
  }

  datatype TestState = TestState(contents: string, selection: seq<Region>)

  // ---------------------------------------------------------------------
  // parse

  /** What `parse` keeps while it works through the markers. */
  datatype Progress = Progress(contents: string, removed: nat, starts: map<nat, nat>, ends: map<nat, nat>)

  function Table(p: Progress, closing: bool): map<nat, nat>
  {
    if closing then p.ends else p.starts
  }

  /**
   * `record_cursor_marker`: the marker found at `f.start` of the original
   * text goes in at `f.start - removed`, a repeated id panics, and the
   * marker's characters are drained from the contents.
   */
  function RecordMarker(f: Found, p: Progress): (r: Option<Progress>)
    ensures r.Some? <==> p.removed <= f.start && f.id !in Table(p, f.closing) && f.start - p.removed + f.len <= |p.contents|
    ensures r.Some? ==>
      var start := f.start - p.removed;
      && r.value.contents == p.contents[..start] + p.contents[start + f.len..]
      && r.value.removed == p.removed + f.len
      && Table(r.value, f.closing) == Table(p, f.closing)[f.id := start]
      && Table(r.value, !f.closing) == Table(p, !f.closing)
  {
    if f.start < p.removed then None  // `whole_match.start() - removed` underflows
    else
      var start := f.start - p.removed;
      if f.id in Table(p, f.closing) then None  // "Duplicate cursor marker"
      else if start + f.len > |p.contents| then None  // `drain` out of range
      else
        var contents := p.contents[..start] + p.contents[start + f.len..];
        if f.closing then Some(Progress(contents, p.removed + f.len, p.starts, p.ends[f.id := start]))
        else Some(Progress(contents, p.removed + f.len, p.starts[f.id := start], p.ends))
  }

  function RecordAll(fs: seq<Found>, p: Progress): Option<Progress>
    decreases |fs|
  {
    if fs == [] then Some(p)
    else
      match RecordMarker(fs[0], p)
      case None => None
      case Some(q) => RecordAll(fs[1..], q)
  }

  /**
   * The regions: one per opening id, up to the closing marker with the same
   * id if there is one, a caret otherwise.  Closing ids without an opening
   * marker are ignored.
   */
  function Regions(starts: map<nat, nat>, ends: map<nat, nat>): (r: map<nat, Region>)
    ensures r.Keys == starts.Keys
    ensures forall id :: id in starts ==> r[id].start == starts[id]
    ensures forall id :: id in starts ==> r[id] == if id in ends then Region(starts[id], ends[id]) else Region(starts[id], starts[id])
  {
    map id | id in starts.Keys :: if id in ends then Region(starts[id], ends[id]) else Region(starts[id], starts[id])
  }

  /** What a parse yields, with each region under the id of its markers. */
  datatype Parsed = Parsed(contents: string, regions: map<nat, Region>)

  function Finish(r: Option<Progress>): Option<Parsed>
  {
    match r
    case None => None
    case Some(p) => Some(Parsed(p.contents, Regions(p.starts, p.ends)))
  }

  /**
   * `TestState::parse` as written: first every opening marker, then every
   * closing marker, each in text order, with one running `removed` count
   * for both passes.
   */
  function ParseAsWritten(initial: string): Option<Parsed>
  {
    var fs := Scan(initial, 0);
    Finish(RecordAll(OfKind(fs, false) + OfKind(fs, true), Progress(initial, 0, map[], map[])))
  }

  /** The same steps over all markers in one pass, in text order. */
  function ParseInOrder(initial: string): Option<Parsed>
  {
    Finish(RecordAll(Scan(initial, 0), Progress(initial, 0, map[], map[])))
  }

  /** Entering marks into the id tables; a repeated id of the same kind fails. */
  function Collect(ms: seq<Mark>, starts: map<nat, nat>, ends: map<nat, nat>): Option<(map<nat, nat>, map<nat, nat>)>
    decreases |ms|
  {
    if ms == [] then Some((starts, ends))
    else
      var m := ms[0];
      if m.closing then
        if m.id in ends then None else Collect(ms[1..], starts, ends[m.id := m.at])
      else
        if m.id in starts then None else Collect(ms[1..], starts[m.id := m.at], ends)
  }

  /**
   * What a marked text means: the contents without the markers, and every
   * marker at its offset in those contents.
   */
  function Meaning(s: string): Option<Parsed>
  {
    match Collect(Marks(s, 0), map[], map[])
    case None => None
    case Some((a, b)) => Some(Parsed(Strip(s), Regions(a, b)))
  }

  function Lift(r: Option<(map<nat, nat>, map<nat, nat>)>, contents: string, removed: nat): Option<Progress>
  {
    match r
    case None => None
    case Some((a, b)) => Some(Progress(contents, removed, a, b))
  }

  lemma RecordAllCons(f: Found, tail: seq<Found>, p: Progress)
    ensures RecordAll([f] + tail, p)
         == match RecordMarker(f, p) case None => None case Some(q) => RecordAll(tail, q)
  {
    assert ([f] + tail)[1..] == tail;
  }

  lemma CollectCons(m: Mark, tail: seq<Mark>, starts: map<nat, nat>, ends: map<nat, nat>)
    ensures Collect([m] + tail, starts, ends)
         == if m.closing then (if m.id in ends then None else Collect(tail, starts, ends[m.id := m.at]))
            else (if m.id in starts then None else Collect(tail, starts[m.id := m.at], ends))
  {
    assert ([m] + tail)[1..] == tail;
  }

  /** Draining a marker of length `len` met right after the contents `x`. */
  lemma DrainAfter(x: string, s: string, len: nat)
    requires len <= |s|
    ensures (x + s)[..|x|] + (x + s)[|x| + len..] == x + s[len..]
  {
  }

  /** Recording a marker met right after the contents `x`. */
  lemma RecordAfter(x: string, s: string, removed: nat, len: nat, closing: bool, id: nat,
                    starts: map<nat, nat>, ends: map<nat, nat>)
    requires len <= |s|
    ensures RecordMarker(Found(|x| + removed, len, closing, id), Progress(x + s, removed, starts, ends))
         == if id in (if closing then ends else starts) then None
            else if closing then Some(Progress(x + s[len..], removed + len, starts, ends[id := |x|]))
            else Some(Progress(x + s[len..], removed + len, starts[id := |x|], ends))
  {
    DrainAfter(x, s, len);
  }

  /** The step of `RecordInOrder` for a marker at the front. */
  lemma RecordFirst(s: string, m: Marker, x: string, removed: nat, starts: map<nat, nat>, ends: map<nat, nat>)
    requires s != [] && MarkerAt(s) == Some(m)
    ensures var st' := if m.closing then starts else starts[m.id := |x|];
      var en' := if m.closing then ends[m.id := |x|] else ends;
      var busy := m.id in (if m.closing then ends else starts);
      && RecordAll(Scan(s, |x| + removed), Progress(x + s, removed, starts, ends))
         == (if busy then None
             else RecordAll(Scan(s[m.len..], |x| + (removed + m.len)), Progress(x + s[m.len..], removed + m.len, st', en')))
      && Collect(Marks(s, |x|), starts, ends)
         == (if busy then None else Collect(Marks(s[m.len..], |x|), st', en'))
      && Strip(s) == Strip(s[m.len..])
  {
    hide MarkerAt, MarkerText, Decimal, DigitRun, DigitsValue, RecordMarker, RecordAll, Collect;
    var rest := s[m.len..];
    var f := Found(|x| + removed, m.len, m.closing, m.id);
    var fs := Scan(rest, |x| + (removed + m.len));
    assert Scan(s, |x| + removed) == [f] + fs;
    assert Marks(s, |x|) == [Mark(m.closing, m.id, |x|)] + Marks(rest, |x|);
    var p := Progress(x + s, removed, starts, ends);
    RecordAllCons(f, fs, p);
    CollectCons(Mark(m.closing, m.id, |x|), Marks(rest, |x|), starts, ends);
    RecordAfter(x, s, removed, m.len, m.closing, m.id, starts, ends);
  }

  /** The step of `RecordInOrder` for a character that starts no marker. */
  lemma PlainFirst(s: string, x: string, removed: nat)
    requires s != [] && MarkerAt(s).None?
    ensures x + s == (x + [s[0]]) + s[1..]
    ensures Scan(s, |x| + removed) == Scan(s[1..], |x + [s[0]]| + removed)
    ensures Marks(s, |x|) == Marks(s[1..], |x + [s[0]]|)
    ensures (x + [s[0]]) + Strip(s[1..]) == x + Strip(s)
    ensures |Strip(s)| == 1 + |Strip(s[1..])|
  {
    hide MarkerAt, MarkerText, Decimal, DigitRun, DigitsValue, RecordMarker, RecordAll, Collect;
    assert Strip(s) == [s[0]] + Strip(s[1..]);
  }

  /** What `RecordInOrder` states about `s`. */
  predicate RecordsInOrder(s: string, x: string, removed: nat, starts: map<nat, nat>, ends: map<nat, nat>)
  {
    RecordAll(Scan(s, |x| + removed), Progress(x + s, removed, starts, ends))
    == Lift(Collect(Marks(s, |x|), starts, ends), x + Strip(s), removed + |s| - |Strip(s)|)
  }

  /** `RecordInOrder` at the end of the text. */
  lemma RecordsInOrderEmpty(x: string, removed: nat, starts: map<nat, nat>, ends: map<nat, nat>)
    ensures RecordsInOrder([], x, removed, starts, ends)
  {
    assert x + [] == x;
  }

  /** `RecordInOrder` for a marker at the front, given it for the rest. */
  lemma RecordInOrderMarker(s: string, m: Marker, x: string, removed: nat, starts: map<nat, nat>, ends: map<nat, nat>)
    requires s != [] && MarkerAt(s) == Some(m)
    requires m.id !in (if m.closing then ends else starts) ==>
      RecordsInOrder(s[m.len..], x, removed + m.len,
                     if m.closing then starts else starts[m.id := |x|],
                     if m.closing then ends[m.id := |x|] else ends)
    ensures RecordsInOrder(s, x, removed, starts, ends)
  {
    hide MarkerAt, MarkerText, Decimal, DigitRun, DigitsValue, RecordMarker, RecordAll, Collect, Strip, Scan, Marks;
    RecordFirst(s, m, x, removed, starts, ends);
    var rest := s[m.len..];
    assert removed + |s| - |Strip(s)| == (removed + m.len) + |rest| - |Strip(rest)|;
  }

  /** `RecordInOrder` for a plain character at the front, given it for the rest. */
  lemma RecordInOrderPlain(s: string, x: string, removed: nat, starts: map<nat, nat>, ends: map<nat, nat>)
    requires s != [] && MarkerAt(s).None?
    requires RecordsInOrder(s[1..], x + [s[0]], removed, starts, ends)
    ensures RecordsInOrder(s, x, removed, starts, ends)
  {
    hide MarkerAt, MarkerText, Decimal, DigitRun, DigitsValue, RecordMarker, RecordAll, Collect, Strip, Scan, Marks;
    PlainFirst(s, x, removed);
  }

  /**
   * Working through the markers in text order: `x` is the contents already
   * passed and `removed` the marker characters already drained before `s`.
   */
  lemma {:induction false} RecordInOrder(s: string, x: string, removed: nat, starts: map<nat, nat>, ends: map<nat, nat>)
    ensures RecordsInOrder(s, x, removed, starts, ends)
    decreases |s|
  {
    hide MarkerAt, MarkerText, Decimal, DigitRun, DigitsValue, RecordMarker, RecordAll, Collect, Strip, Scan, Marks, RecordsInOrder;
    if s == [] {
      RecordsInOrderEmpty(x, removed, starts, ends);
    } else if MarkerAt(s).Some? {
      var m := MarkerAt(s).value;
      if m.id !in (if m.closing then ends else starts) {
        RecordInOrder(s[m.len..], x, removed + m.len,
                      if m.closing then starts else starts[m.id := |x|],
                      if m.closing then ends[m.id := |x|] else ends);
      }
      RecordInOrderMarker(s, m, x, removed, starts, ends);
    } else {
      RecordInOrder(s[1..], x + [s[0]], removed, starts, ends);
      RecordInOrderPlain(s, x, removed, starts, ends);
    }
  }

  lemma FinishLift(r: Option<(map<nat, nat>, map<nat, nat>)>, contents: string, removed: nat)
    ensures Finish(Lift(r, contents, removed))
         == match r case None => None case Some((a, b)) => Some(Parsed(contents, Regions(a, b)))
  {
  }

  /** The one-pass parse means what the text means. */
  lemma InOrderMeaning(s: string)
    ensures ParseInOrder(s) == Meaning(s)
  {
    hide MarkerAt, MarkerText, Decimal, DigitRun, DigitsValue, RecordMarker, RecordAll, Collect, Strip, Scan, Marks, Regions;
    RecordInOrder(s, [], 0, map[], map[]);
    var e: string := [];
    assert e + s == s;
    var t := Strip(s);
    assert e + t == t;
    var r := Collect(Marks(s, 0), map[], map[]);
    assert RecordAll(Scan(s, 0), Progress(s, 0, map[], map[])) == Lift(r, t, |s| - |t|);
    FinishLift(r, t, |s| - |t|);
  }

  /** In `fs` no opening marker comes after a closing one. */
  predicate StartsFirst(fs: seq<Found>)
  {
    forall j, k :: 0 <= j < k < |fs| && fs[j].closing ==> fs[k].closing
  }

  lemma {:induction false} AllOfKind(fs: seq<Found>)
    requires forall k :: 0 <= k < |fs| ==> fs[k].closing
    ensures OfKind(fs, false) == [] && OfKind(fs, true) == fs
    decreases |fs|
  {
    if fs != [] {
      AllOfKind(fs[1..]);
      assert [fs[0]] + fs[1..] == fs;
    }
  }

  /** When no opening marker follows a closing one, the two passes visit the markers in text order. */
  lemma {:induction false} KindsInOrder(fs: seq<Found>)
    requires StartsFirst(fs)
    ensures OfKind(fs, false) + OfKind(fs, true) == fs
    decreases |fs|
  {
    if fs != [] {
      if fs[0].closing {
        AllOfKind(fs);
      } else {
        KindsInOrder(fs[1..]);
        assert [fs[0]] + fs[1..] == fs;
      }
    }
  }

  /**
   * `parse` as written is right whenever every opening marker precedes
   * every closing marker: it then means what the text means.
   */
  lemma AsWrittenWhenStartsFirst(s: string)
    requires StartsFirst(Scan(s, 0))
    ensures ParseAsWritten(s) == Meaning(s)
  {
    KindsInOrder(Scan(s, 0));
    InOrderMeaning(s);
  }

  /** Some marker repeats an id of its kind, or reuses one already in its table. */
  predicate Clash(fs: seq<Found>, p: Progress)
  {
    exists k :: 0 <= k < |fs| &&
      (|| fs[k].id in Table(p, fs[k].closing)
       || exists j :: 0 <= j < k && fs[j].closing == fs[k].closing && fs[j].id == fs[k].id)
  }

  lemma {:induction false} ClashFails(fs: seq<Found>, p: Progress)
    requires Clash(fs, p)
    ensures RecordAll(fs, p) == None
    decreases |fs|
  {
    match RecordMarker(fs[0], p)
    case None =>
    case Some(q) =>
      var k :| 0 <= k < |fs| &&
        (|| fs[k].id in Table(p, fs[k].closing)
         || exists j :: 0 <= j < k && fs[j].closing == fs[k].closing && fs[j].id == fs[k].id);
      assert k > 0;
      var t := fs[1..];
      if fs[k].id in Table(p, fs[k].closing) {
        assert t[k - 1].id in Table(q, t[k - 1].closing);
      } else {
        var j :| 0 <= j < k && fs[j].closing == fs[k].closing && fs[j].id == fs[k].id;
        if j == 0 {
          assert t[k - 1].id in Table(q, t[k - 1].closing);
        } else {
          assert t[j - 1].closing == t[k - 1].closing && t[j - 1].id == t[k - 1].id;
        }
      }
      assert Clash(t, q);
      ClashFails(t, q);
  }

  /**
   * Two opening markers with the same id, or two closing markers with the
   * same id, make `parse` fail ("Duplicate cursor marker").
   */
  lemma RepeatedIdFails(s: string, closing: bool, j: nat, k: nat)
    requires j < k < |OfKind(Scan(s, 0), closing)|
    requires OfKind(Scan(s, 0), closing)[j].id == OfKind(Scan(s, 0), closing)[k].id
    ensures ParseAsWritten(s) == None
  {
    hide Scan, Strip, Marks, MarkerAt, MarkerText, Decimal, DigitRun, DigitsValue, RecordAll, RecordMarker, Collect;
    var fs := Scan(s, 0);
    var a := OfKind(fs, false);
    var b := OfKind(fs, true);
    var all := a + b;
    var init := Progress(s, 0, map[], map[]);
    if closing {
      assert all[|a| + j] == b[j] && all[|a| + k] == b[k];
      assert all[|a| + j].closing == all[|a| + k].closing;
      assert Clash(all, init);
    } else {
      assert all[j] == a[j] && all[k] == a[k];
      assert all[j].closing == all[k].closing;
      assert Clash(all, init);
    }
    ClashFails(all, init);
  }

  /** Two marks of the same kind with the same id, or a mark whose id its table already holds. */
  predicate Repeats(ms: seq<Mark>, starts: map<nat, nat>, ends: map<nat, nat>)
  {
    exists k :: 0 <= k < |ms| &&
      (|| ms[k].id in (if ms[k].closing then ends else starts)
       || exists j :: 0 <= j < k && ms[j].closing == ms[k].closing && ms[j].id == ms[k].id)
  }

  /** A repeat in the rest, with the first mark entered, is a repeat of the whole. */
  lemma RepeatsFromTail(ms: seq<Mark>, starts: map<nat, nat>, ends: map<nat, nat>)
    requires ms != []
    requires var m := ms[0];
      Repeats(ms[1..], if m.closing then starts else starts[m.id := m.at],
                       if m.closing then ends[m.id := m.at] else ends)
    ensures Repeats(ms, starts, ends)
  {
    var m := ms[0];
    var t := ms[1..];
    var st' := if m.closing then starts else starts[m.id := m.at];
    var en' := if m.closing then ends[m.id := m.at] else ends;
    var k :| 0 <= k < |t| &&
      (|| t[k].id in (if t[k].closing then en' else st')
       || exists j :: 0 <= j < k && t[j].closing == t[k].closing && t[j].id == t[k].id);
    if t[k].id in (if t[k].closing then en' else st') {
      if t[k].id in (if t[k].closing then ends else starts) {
        assert ms[k + 1] == t[k];
      } else {
        assert ms[0].closing == ms[k + 1].closing && ms[0].id == ms[k + 1].id;
      }
    } else {
      var j :| 0 <= j < k && t[j].closing == t[k].closing && t[j].id == t[k].id;
      assert ms[j + 1] == t[j] && ms[k + 1] == t[k];
    }
  }

  /** A repeat of the whole, when the first mark's id is still free, is a repeat in the rest. */
  lemma RepeatsToTail(ms: seq<Mark>, starts: map<nat, nat>, ends: map<nat, nat>)
    requires ms != [] && ms[0].id !in (if ms[0].closing then ends else starts)
    requires Repeats(ms, starts, ends)
    ensures var m := ms[0];
      Repeats(ms[1..], if m.closing then starts else starts[m.id := m.at],
                       if m.closing then ends[m.id := m.at] else ends)
  {
    var m := ms[0];
    var t := ms[1..];
    var st' := if m.closing then starts else starts[m.id := m.at];
    var en' := if m.closing then ends[m.id := m.at] else ends;
    var k :| 0 <= k < |ms| &&
      (|| ms[k].id in (if ms[k].closing then ends else starts)
       || exists j :: 0 <= j < k && ms[j].closing == ms[k].closing && ms[j].id == ms[k].id);
    assert k > 0;
    if ms[k].id in (if ms[k].closing then ends else starts) {
      assert t[k - 1].id in (if t[k - 1].closing then en' else st');
    } else {
      var j :| 0 <= j < k && ms[j].closing == ms[k].closing && ms[j].id == ms[k].id;
      if j == 0 {
        assert t[k - 1].id in (if t[k - 1].closing then en' else st');
      } else {
        assert t[j - 1].closing == t[k - 1].closing && t[j - 1].id == t[k - 1].id;
      }
    }
  }

  /** Entering marks fails exactly when an id repeats within its kind. */
  lemma {:induction false} CollectFails(ms: seq<Mark>, starts: map<nat, nat>, ends: map<nat, nat>)
    ensures Collect(ms, starts, ends).None? <==> Repeats(ms, starts, ends)
    decreases |ms|
  {
    if ms != [] {
      var m := ms[0];
      var t := ms[1..];
      var st' := if m.closing then starts else starts[m.id := m.at];
      var en' := if m.closing then ends[m.id := m.at] else ends;
      if m.id in (if m.closing then ends else starts) {
        assert Repeats(ms, starts, ends) by {
          assert ms[0].id in (if ms[0].closing then ends else starts);
        }
      } else {
        assert Collect(ms, starts, ends) == Collect(t, st', en');
        hide Repeats, Collect;
        CollectFails(t, st', en');
        if Repeats(t, st', en') {
          RepeatsFromTail(ms, starts, ends);
        }
        if Repeats(ms, starts, ends) {
          RepeatsToTail(ms, starts, ends);
        }
      }
    }
  }

  /** A marked text has a meaning exactly when no id repeats among its opening or among its closing markers. */
  lemma MeaningDefined(s: string)
    ensures Meaning(s).Some? <==> !Repeats(Marks(s, 0), map[], map[])
  {
    CollectFails(Marks(s, 0), map[], map[]);
  }

  // ---------------------------------------------------------------------
  // fmt

  /** The opening markers `fmt` writes: `<$i>` at the start of region `i`. */
  function StartMarks(sel: seq<Region>): (r: seq<Mark>)
    ensures |r| == |sel|
    ensures forall i :: 0 <= i < |sel| ==> r[i] == Mark(false, i, sel[i].start)
  {
    seq(|sel|, i requires 0 <= i < |sel| => Mark(false, i, sel[i].start))
  }

  /**
   * The closing markers `fmt` writes: `</$i>` at the end of region `i`, for
   * every region that is not a caret; `from` is the index of `sel[0]`.
   */
  function EndMarks(sel: seq<Region>, from: nat): seq<Mark>
    decreases |sel|
  {
    if sel == [] then []
    else if IsCaret(sel[0]) then EndMarks(sel[1..], from + 1)
    else [Mark(true, from, sel[0].end)] + EndMarks(sel[1..], from + 1)
  }

  /** Each closing marker belongs to a region that is not a caret, and sits at its end. */
  predicate EndsOf(r: seq<Mark>, sel: seq<Region>, from: nat)
  {
    forall k :: 0 <= k < |r| ==>
      && r[k].closing && from <= r[k].id < from + |sel|
      && !IsCaret(sel[r[k].id - from]) && r[k].at == sel[r[k].id - from].end
  }

  /** Ids strictly increase. */
  predicate IdsIncrease(r: seq<Mark>)
  {
    forall j, k :: 0 <= j < k < |r| ==> r[j].id < r[k].id
  }

  /** Every region that is not a caret has its closing marker. */
  predicate EndsCover(r: seq<Mark>, sel: seq<Region>, from: nat)
  {
    forall i :: 0 <= i < |sel| && !IsCaret(sel[i]) ==> exists k :: 0 <= k < |r| && r[k].id == from + i
  }

  lemma {:induction false} EndMarksEnds(sel: seq<Region>, from: nat)
    ensures EndsOf(EndMarks(sel, from), sel, from)
    decreases |sel|
  {
    if sel != [] {
      var rest := EndMarks(sel[1..], from + 1);
      EndMarksEnds(sel[1..], from + 1);
      EndsOfShift(rest, sel, from);
      if !IsCaret(sel[0]) {
        EndsOfCons(rest, sel, from);
      }
    }
  }

  lemma EndsOfCons(rest: seq<Mark>, sel: seq<Region>, from: nat)
    requires sel != [] && !IsCaret(sel[0]) && EndsOf(rest, sel, from)
    ensures EndsOf([Mark(true, from, sel[0].end)] + rest, sel, from)
  {
    var r := [Mark(true, from, sel[0].end)] + rest;
    forall k | 0 <= k < |r|
      ensures r[k].closing && from <= r[k].id < from + |sel|
      ensures !IsCaret(sel[r[k].id - from]) && r[k].at == sel[r[k].id - from].end
    {
      if k > 0 {
        assert r[k] == rest[k - 1];
      }
    }
  }

  lemma {:induction false} EndMarksIncrease(sel: seq<Region>, from: nat)
    ensures IdsIncrease(EndMarks(sel, from))
    decreases |sel|
  {
    if sel != [] {
      var rest := EndMarks(sel[1..], from + 1);
      EndMarksIncrease(sel[1..], from + 1);
      if !IsCaret(sel[0]) {
        EndMarksEnds(sel[1..], from + 1);
        var r := [Mark(true, from, sel[0].end)] + rest;
        assert forall k :: 0 < k < |r| ==> r[k] == rest[k - 1];
        assert IdsIncrease(r);
      }
    }
  }

  lemma {:induction false} EndMarksCover(sel: seq<Region>, from: nat)
    ensures EndsCover(EndMarks(sel, from), sel, from)
    decreases |sel|
  {
    if sel != [] {
      var rest := EndMarks(sel[1..], from + 1);
      EndMarksCover(sel[1..], from + 1);
      var r := EndMarks(sel, from);
      if IsCaret(sel[0]) {
        EndsCoverShift(rest, rest, sel, from, 0);
      } else {
        EndsCoverShift(rest, r, sel, from, 1);
        assert r[0].id == from;
      }
    }
  }

  lemma EndsOfShift(rest: seq<Mark>, sel: seq<Region>, from: nat)
    requires sel != [] && EndsOf(rest, sel[1..], from + 1)
    ensures EndsOf(rest, sel, from)
  {
    forall k | 0 <= k < |rest|
      ensures sel[rest[k].id - from] == sel[1..][rest[k].id - (from + 1)]
    {
    }
  }

  lemma EndsCoverShift(rest: seq<Mark>, r: seq<Mark>, sel: seq<Region>, from: nat, off: nat)
    requires sel != [] && EndsCover(rest, sel[1..], from + 1)
    requires |r| == |rest| + off && forall k :: 0 <= k < |rest| ==> r[k + off] == rest[k]
    ensures forall i :: 1 <= i < |sel| && !IsCaret(sel[i]) ==> exists k :: 0 <= k < |r| && r[k].id == from + i
  {
    forall i | 1 <= i < |sel| && !IsCaret(sel[i])
      ensures exists k :: 0 <= k < |r| && r[k].id == from + i
    {
      assert !IsCaret(sel[1..][i - 1]);
      var k :| 0 <= k < |rest| && rest[k].id == from + 1 + (i - 1);
      assert r[k + off] == rest[k];
    }
  }

  /**
   * `insert_str` mark by mark: each marker goes in at its offset in the
   * contents plus the length of the markers already inserted; an index
   * beyond the end panics.
   */
  function InsertAll(c: string, ms: seq<Mark>, inserted: nat): Option<string>
    decreases |ms|
  {
    if ms == [] then Some(c)
    else
      var i := ms[0].at + inserted;
      var t := MarkerText(ms[0].closing, ms[0].id);
      if i > |c| then None
      else InsertAll(c[..i] + t + c[i..], ms[1..], inserted + |t|)
  }

  /** `fmt` as written: every opening marker, then every closing marker, with one running `inserted` count. */
  function FormatAsWritten(st: TestState): Option<string>
  {
    InsertAll(st.contents, StartMarks(st.selection) + EndMarks(st.selection, 0), 0)
  }

  /** Two runs of marks merged by offset; at equal offsets the first run's mark comes first. */
  function Merge(a: seq<Mark>, b: seq<Mark>): seq<Mark>
    decreases |a| + |b|
  {
    if a == [] then b
    else if b == [] then a
    else if a[0].at <= b[0].at then [a[0]] + Merge(a[1..], b)
    else [b[0]] + Merge(a, b[1..])
  }

  /** The same insertions visited in offset order. */
  function FormatInOrder(st: TestState): Option<string>
  {
    InsertAll(st.contents, Merge(StartMarks(st.selection), EndMarks(st.selection, 0)), 0)
  }

  /** One step of `InsertAll`: the first marker goes in at its shifted offset. */
  lemma InsertAllStep(c: string, ms: seq<Mark>, inserted: nat)
    requires ms != []
    ensures ms[0].at + inserted > |c| ==> InsertAll(c, ms, inserted) == None
    ensures ms[0].at + inserted <= |c| ==>
      InsertAll(c, ms, inserted)
        == InsertAll(c[..ms[0].at + inserted] + MarkerText(ms[0].closing, ms[0].id) + c[ms[0].at + inserted..],
                     ms[1..], inserted + |MarkerText(ms[0].closing, ms[0].id)|)
  {
  }

  /** The first of the opening marks left from `i` on, and what follows it. */
  lemma StartMarksStep(sel: seq<Region>, i: nat, ends: seq<Mark>)
    requires i < |sel|
    ensures (StartMarks(sel)[i..] + ends)[0] == Mark(false, i, sel[i].start)
    ensures (StartMarks(sel)[i..] + ends)[1..] == StartMarks(sel)[i + 1..] + ends
  {
  }

  /** The closing marks from region `i` on: region `i`'s own, unless it is a caret, then the rest. */
  lemma EndMarksStep(sel: seq<Region>, i: nat)
    requires i < |sel|
    ensures IsCaret(sel[i]) ==> EndMarks(sel[i..], i) == EndMarks(sel[i + 1..], i + 1)
    ensures !IsCaret(sel[i]) ==>
      && EndMarks(sel[i..], i) != []
      && EndMarks(sel[i..], i)[0] == Mark(true, i, sel[i].end)
      && EndMarks(sel[i..], i)[1..] == EndMarks(sel[i + 1..], i + 1)
  {
    assert sel[i..][0] == sel[i] && sel[i..][1..] == sel[i + 1..];
  }

  /**
   * Cutting a concatenation inside its second part.  This and `Regroup`
   * state sequence facts on their own, so that the proof of
   * `InsertAllRender` need not rediscover them beside its other facts.
   */
  lemma SplitAfter(p: string, c: string, k: nat)
    requires k <= |c|
    ensures (p + c)[..|p| + k] == p + c[..k] && (p + c)[|p| + k..] == c[k..]
  {
  }

  /** Concatenation regrouped to the right. */
  lemma Regroup(a: string, b: string, c: string, d: string)
    ensures a + b + c + d == a + (b + (c + d))
  {
  }

  /** Inserting ordered marks writes exactly the rendered contents. */
  lemma {:induction false} InsertAllRender(p: string, c: string, ms: seq<Mark>, base: nat, n: nat)
    requires |p| == base + n && Ordered(ms, base, base + |c|)
    ensures InsertAll(p + c, ms, n) == Some(p + Render(c, ms, base))
    decreases |ms|
  {
    if ms == [] {
    } else {
      hide *;
      var m := ms[0];
      RenderStep(c, ms, base);
      var k := m.at - base;
      var t := MarkerText(m.closing, m.id);
      var r := Render(c[k..], ms[1..], m.at);
      InsertAllStep(p + c, ms, n);
      SplitAfter(p, c, k);
      var p' := p + c[..k] + t;
      InsertAllRender(p', c[k..], ms[1..], m.at, n + |t|);
      Regroup(p, c[..k], t, r);
    }
  }

  /** The marks of one kind, in order. */
  function MarksOfKind(ms: seq<Mark>, closing: bool): seq<Mark>
  {
    if ms == [] then []
    else if ms[0].closing == closing then [ms[0]] + MarksOfKind(ms[1..], closing)
    else MarksOfKind(ms[1..], closing)
  }

  predicate AllOfKindM(ms: seq<Mark>, closing: bool)
  {
    forall k :: 0 <= k < |ms| ==> ms[k].closing == closing
  }

  lemma {:induction false} MarksOfOneKind(ms: seq<Mark>, closing: bool)
    requires AllOfKindM(ms, closing)
    ensures MarksOfKind(ms, closing) == ms && MarksOfKind(ms, !closing) == []
    decreases |ms|
  {
    if ms != [] {
      MarksOfOneKind(ms[1..], closing);
      assert [ms[0]] + ms[1..] == ms;
    }
  }

  /** Merging keeps each run, in its order, as the marks of its kind. */
  lemma {:induction false} MergeKinds(a: seq<Mark>, b: seq<Mark>)
    requires AllOfKindM(a, false) && AllOfKindM(b, true)
    ensures MarksOfKind(Merge(a, b), false) == a && MarksOfKind(Merge(a, b), true) == b
    decreases |a| + |b|
  {
    if a == [] {
      MarksOfOneKind(b, true);
    } else if b == [] {
      MarksOfOneKind(a, false);
    } else if a[0].at <= b[0].at {
      MergeKinds(a[1..], b);
      assert [a[0]] + a[1..] == a;
    } else {
      MergeKinds(a, b[1..]);
      assert [b[0]] + b[1..] == b;
    }
  }

  /** The rest of an ordered run is ordered from its first offset. */
  lemma OrderedTail(ms: seq<Mark>, base: nat, limit: nat)
    requires Ordered(ms, base, limit) && ms != []
    ensures base <= ms[0].at <= limit && Ordered(ms[1..], ms[0].at, limit)
  {
  }

  /** An ordered run is ordered from any offset up to its first one. */
  lemma OrderedFrom(ms: seq<Mark>, base: nat, low: nat, limit: nat)
    requires Ordered(ms, base, limit) && ms != [] && low <= ms[0].at
    ensures Ordered(ms, low, limit)
  {
  }

  /** A mark before an ordered run that starts no earlier than it. */
  lemma OrderedCons(x: Mark, r: seq<Mark>, base: nat, limit: nat)
    requires base <= x.at <= limit && Ordered(r, x.at, limit)
    ensures Ordered([x] + r, base, limit)
  {
  }

  /** Merging two ordered runs gives an ordered run. */
  lemma {:induction false} MergeOrdered(a: seq<Mark>, b: seq<Mark>, base: nat, limit: nat)
    requires Ordered(a, base, limit) && Ordered(b, base, limit)
    ensures Ordered(Merge(a, b), base, limit)
    decreases |a| + |b|
  {
    if a != [] && b != [] {
      hide Ordered;
      if a[0].at <= b[0].at {
        OrderedTail(a, base, limit);
        OrderedFrom(b, base, a[0].at, limit);
        MergeOrdered(a[1..], b, a[0].at, limit);
        OrderedCons(a[0], Merge(a[1..], b), base, limit);
      } else {
        OrderedTail(b, base, limit);
        OrderedFrom(a, base, b[0].at, limit);
        MergeOrdered(a, b[1..], b[0].at, limit);
        OrderedCons(b[0], Merge(a, b[1..]), base, limit);
      }
    }
  }

  /** When no mark of `b` comes before a mark of `a`, merging is appending. */
  lemma {:induction false} MergeAppends(a: seq<Mark>, b: seq<Mark>)
    requires forall j, k :: 0 <= j < |a| && 0 <= k < |b| ==> a[j].at <= b[k].at
    ensures Merge(a, b) == a + b
    decreases |a| + |b|
  {
    if a == [] {
    } else if b == [] {
      assert a + b == a;
    } else {
      MergeAppends(a[1..], b);
      assert [a[0]] + (a[1..] + b) == a + b;
    }
  }

  // ---------------------------------------------------------------------
  // Round trip

  /** Entering marks of one kind into one id table; a repeated id fails. */
  function TableOf(ms: seq<Mark>, t: map<nat, nat>): Option<map<nat, nat>>
    decreases |ms|
  {
    if ms == [] then Some(t)
    else if ms[0].id in t then None
    else TableOf(ms[1..], t[ms[0].id := ms[0].at])
  }

  function Both(a: Option<map<nat, nat>>, b: Option<map<nat, nat>>): Option<(map<nat, nat>, map<nat, nat>)>
  {
    if a.Some? && b.Some? then Some((a.value, b.value)) else None
  }

  /** The two kinds of marks fill their tables independently. */
  lemma {:induction false} CollectByKind(ms: seq<Mark>, starts: map<nat, nat>, ends: map<nat, nat>)
    ensures Collect(ms, starts, ends) == Both(TableOf(MarksOfKind(ms, false), starts), TableOf(MarksOfKind(ms, true), ends))
    decreases |ms|
  {
    if ms != [] {
      var m := ms[0];
      if m.closing {
        assert MarksOfKind(ms, true) == [m] + MarksOfKind(ms[1..], true);
        if m.id !in ends {
          CollectByKind(ms[1..], starts, ends[m.id := m.at]);
        }
      } else {
        assert MarksOfKind(ms, false) == [m] + MarksOfKind(ms[1..], false);
        if m.id !in starts {
          CollectByKind(ms[1..], starts[m.id := m.at], ends);
        }
      }
    }
  }

  /** `r` is `t` with every mark of `ms` entered. */
  ghost predicate TableHolds(r: map<nat, nat>, ms: seq<Mark>, t: map<nat, nat>)
  {
    && (forall id :: id in r <==> id in t || exists k :: 0 <= k < |ms| && ms[k].id == id)
    && (forall id :: id in t ==> r[id] == t[id])
    && (forall k :: 0 <= k < |ms| ==> ms[k].id in r && r[ms[k].id] == ms[k].at)
  }

  lemma TableHoldsStep(r: map<nat, nat>, ms: seq<Mark>, t: map<nat, nat>)
    requires ms != [] && ms[0].id !in t && TableHolds(r, ms[1..], t[ms[0].id := ms[0].at])
    ensures TableHolds(r, ms, t)
  {
    var t' := t[ms[0].id := ms[0].at];
    forall id | id in r
      ensures id in t || exists k :: 0 <= k < |ms| && ms[k].id == id
    {
      if id !in t' {
        var k :| 0 <= k < |ms[1..]| && ms[1..][k].id == id;
        assert ms[k + 1].id == id;
      }
    }
    forall k | 0 <= k < |ms|
      ensures ms[k].id in r && r[ms[k].id] == ms[k].at
    {
      if k > 0 {
        assert ms[k] == ms[1..][k - 1];
      }
    }
    forall id | id in t || exists k :: 0 <= k < |ms| && ms[k].id == id
      ensures id in r
    {
      if id !in t {
        var k :| 0 <= k < |ms| && ms[k].id == id;
      }
    }
  }

  /** Marks with strictly increasing ids, none already in the table, all go in. */
  lemma {:induction false} TableOfIncreasing(ms: seq<Mark>, t: map<nat, nat>)
    requires IdsIncrease(ms) && forall k :: 0 <= k < |ms| ==> ms[k].id !in t
    ensures TableOf(ms, t).Some? && TableHolds(TableOf(ms, t).value, ms, t)
    decreases |ms|
  {
    if ms != [] {
      var t' := t[ms[0].id := ms[0].at];
      assert forall k :: 0 <= k < |ms[1..]| ==> ms[1..][k] == ms[k + 1];
      TableOfIncreasing(ms[1..], t');
      TableHoldsStep(TableOf(ms, t).value, ms, t);
    }
  }

  /** Every region lies within the contents, from its start to its end. */
  predicate WithinContents(st: TestState)
  {
    forall i :: 0 <= i < |st.selection| ==> st.selection[i].start <= st.selection[i].end <= |st.contents|
  }

  /** The regions that are not carets end in order too. */
  predicate EndsSorted(sel: seq<Region>)
  {
    forall j, k :: 0 <= j < k < |sel| && !IsCaret(sel[j]) && !IsCaret(sel[k]) ==> sel[j].end <= sel[k].end
  }

  /** The states `fmt` can write so that the markers read back: no `<` in the contents, ordered regions within them. */
  predicate Formattable(st: TestState)
  {
    && NoOpen(st.contents)
    && WithinContents(st)
    && SortedByStart(st.selection)
    && EndsSorted(st.selection)
  }

  /** The selection under the ids `fmt` gives it: region `i` under id `i`. */
  function Indexed(sel: seq<Region>): (r: map<nat, Region>)
    ensures forall i: nat :: i in r <==> i < |sel|
    ensures forall i :: 0 <= i < |sel| ==> r[i] == sel[i]
  {
    map i | 0 <= i < |sel| :: sel[i]
  }

  lemma StartMarksOrdered(st: TestState)
    requires WithinContents(st) && SortedByStart(st.selection)
    ensures Ordered(StartMarks(st.selection), 0, |st.contents|)
  {
  }

  lemma EndMarksOrdered(st: TestState)
    requires WithinContents(st) && EndsSorted(st.selection)
    ensures Ordered(EndMarks(st.selection, 0), 0, |st.contents|)
  {
    var sel := st.selection;
    var e := EndMarks(sel, 0);
    EndMarksEnds(sel, 0);
    EndMarksIncrease(sel, 0);
    assert forall j, k :: 0 <= j < k < |e| ==> e[j].id < e[k].id;
  }

  lemma StartTable(sel: seq<Region>, s: seq<Mark>, a: map<nat, nat>)
    requires s == StartMarks(sel) && TableHolds(a, s, map[])
    ensures forall id :: id in a <==> 0 <= id < |sel|
    ensures forall i :: 0 <= i < |sel| ==> a[i] == sel[i].start
  {
    forall id: nat
      ensures id in a <==> id < |sel|
    {
      if id in a {
        var k :| 0 <= k < |s| && s[k].id == id;
      }
      if id < |sel| {
        assert s[id].id == id;
      }
    }
    forall i | 0 <= i < |sel|
      ensures a[i] == sel[i].start
    {
      assert s[i].id == i;
    }
  }

  lemma EndEntry(sel: seq<Region>, e: seq<Mark>, b: map<nat, nat>, i: nat)
    requires e == EndMarks(sel, 0) && TableHolds(b, e, map[])
    requires EndsOf(e, sel, 0) && EndsCover(e, sel, 0)
    requires i < |sel|
    ensures i in b <==> !IsCaret(sel[i])
    ensures i in b ==> b[i] == sel[i].end
  {
    if i in b {
      var k :| 0 <= k < |e| && e[k].id == i;
      assert !IsCaret(sel[i]) && b[i] == sel[i].end;
    }
    if !IsCaret(sel[i]) {
      var k :| 0 <= k < |e| && e[k].id == 0 + i;
      assert i in b;
    }
  }

  lemma EndTable(sel: seq<Region>, e: seq<Mark>, b: map<nat, nat>)
    requires e == EndMarks(sel, 0) && TableHolds(b, e, map[])
    ensures forall i :: 0 <= i < |sel| ==> (i in b <==> !IsCaret(sel[i]))
    ensures forall i :: 0 <= i < |sel| && i in b ==> b[i] == sel[i].end
  {
    EndMarksEnds(sel, 0);
    EndMarksCover(sel, 0);
    forall i | 0 <= i < |sel|
      ensures (i in b <==> !IsCaret(sel[i])) && (i in b ==> b[i] == sel[i].end)
    {
      EndEntry(sel, e, b, i);
    }
  }

  /** The tables the written markers fill give back the selection. */
  lemma RegionsIndexed(sel: seq<Region>, a: map<nat, nat>, b: map<nat, nat>)
    requires forall id :: id in a <==> 0 <= id < |sel|
    requires forall i :: 0 <= i < |sel| ==> a[i] == sel[i].start
    requires forall i :: 0 <= i < |sel| ==> (i in b <==> !IsCaret(sel[i]))
    requires forall i :: 0 <= i < |sel| && i in b ==> b[i] == sel[i].end
    ensures Regions(a, b) == Indexed(sel)
  {
    var r := Regions(a, b);
    var x := Indexed(sel);
    assert r.Keys == x.Keys;
    forall i | i in r
      ensures r[i] == x[i]
    {
    }
  }

  /** The meaning of ordered marks written into contents without a `<`. */
  lemma RenderMeaning(st: TestState, ms: seq<Mark>)
    requires Formattable(st)
    requires Ordered(ms, 0, |st.contents|)
    requires MarksOfKind(ms, false) == StartMarks(st.selection)
    requires MarksOfKind(ms, true) == EndMarks(st.selection, 0)
    ensures Meaning(Render(st.contents, ms, 0)) == Some(Parsed(st.contents, Indexed(st.selection)))
  {
    var c := st.contents;
    var sel := st.selection;
    var s := StartMarks(sel);
    var e := EndMarks(sel, 0);
    var text := Render(c, ms, 0);
    RenderStrip(c, ms, 0);
    RenderMarks(c, ms, 0);
    CollectByKind(ms, map[], map[]);
    EndMarksIncrease(sel, 0);
    TableOfIncreasing(s, map[]);
    TableOfIncreasing(e, map[]);
    StartTable(sel, s, TableOf(s, map[]).value);
    EndTable(sel, e, TableOf(e, map[]).value);
    RegionsIndexed(sel, TableOf(s, map[]).value, TableOf(e, map[]).value);
  }

  /**
   * Writing the markers in offset order, then reading the text, gives back
   * the contents and every region under its index.
   */
  lemma FormatInOrderParses(st: TestState)
    requires Formattable(st)
    ensures FormatInOrder(st).Some?
    ensures Meaning(FormatInOrder(st).value) == Some(Parsed(st.contents, Indexed(st.selection)))
    ensures ParseInOrder(FormatInOrder(st).value) == Some(Parsed(st.contents, Indexed(st.selection)))
  {
    hide Render, Scan, Strip, Marks, MarkerAt, MarkerText, Decimal, DigitRun, DigitsValue, InsertAll, Merge, Collect, RecordAll, RecordMarker, Meaning, ParseInOrder;
    var c := st.contents;
    var s := StartMarks(st.selection);
    var e := EndMarks(st.selection, 0);
    StartMarksOrdered(st);
    EndMarksOrdered(st);
    MergeOrdered(s, e, 0, |c|);
    EndMarksEnds(st.selection, 0);
    MergeKinds(s, e);
    var ms := Merge(s, e);
    var empty: string := [];
    InsertAllRender(empty, c, ms, 0, 0);
    assert empty + c == c;
    assert empty + Render(c, ms, 0) == Render(c, ms, 0);
    assert FormatInOrder(st) == Some(Render(c, ms, 0));
    RenderMeaning(st, ms);
    InOrderMeaning(Render(c, ms, 0));
  }

  /** Every region starts no later than any region that is not a caret ends. */
  predicate StartsBeforeEnds(sel: seq<Region>)
  {
    forall i, j :: 0 <= i < |sel| && 0 <= j < |sel| && !IsCaret(sel[j]) ==> sel[i].start <= sel[j].end
  }

  /** Opening marks all before closing marks, written out, make a text whose matches come in that order. */
  lemma RenderStartsFirst(c: string, s: seq<Mark>, e: seq<Mark>)
    requires NoOpen(c) && Ordered(s + e, 0, |c|)
    requires AllOfKindM(s, false) && AllOfKindM(e, true)
    ensures StartsFirst(Scan(Render(c, s + e, 0), 0))
  {
    var text := Render(c, s + e, 0);
    RenderMarks(c, s + e, 0);
    ScanKinds(text, 0, 0);
    var fs := Scan(text, 0);
    forall k | 0 <= k < |fs|
      ensures fs[k].closing <==> k >= |s|
    {
      assert fs[k].closing == (s + e)[k].closing;
    }
  }

  /** With every start before every end, the two passes of `fmt` insert in offset order. */
  lemma AsWrittenInOrder(st: TestState)
    requires StartsBeforeEnds(st.selection)
    ensures StartMarks(st.selection) + EndMarks(st.selection, 0) == Merge(StartMarks(st.selection), EndMarks(st.selection, 0))
    ensures FormatAsWritten(st) == FormatInOrder(st)
  {
    EndMarksEnds(st.selection, 0);
    MergeAppends(StartMarks(st.selection), EndMarks(st.selection, 0));
  }

  /** What `fmt` as written writes when every start comes before every end. */
  lemma AsWrittenText(st: TestState)
    requires Formattable(st) && StartsBeforeEnds(st.selection)
    ensures Ordered(StartMarks(st.selection) + EndMarks(st.selection, 0), 0, |st.contents|)
    ensures FormatAsWritten(st) == Some(Render(st.contents, StartMarks(st.selection) + EndMarks(st.selection, 0), 0))
  {
    hide Render, Scan, Strip, Marks, MarkerAt, MarkerText, Decimal, DigitRun, DigitsValue, InsertAll, Merge, Collect, RecordAll, RecordMarker;
    var c := st.contents;
    var s := StartMarks(st.selection);
    var e := EndMarks(st.selection, 0);
    AsWrittenInOrder(st);
    StartMarksOrdered(st);
    EndMarksOrdered(st);
    MergeOrdered(s, e, 0, |c|);
    var empty: string := [];
    InsertAllRender(empty, c, s + e, 0, 0);
    assert empty + c == c;
    assert empty + Render(c, s + e, 0) == Render(c, s + e, 0);
  }

  /**
   * `fmt` and `parse` as written are each other's inverse when every region
   * starts before any region ends, as in the harness's own tests.
   */
  lemma AsWrittenRoundTrip(st: TestState)
    requires Formattable(st) && StartsBeforeEnds(st.selection)
    ensures FormatAsWritten(st) == FormatInOrder(st)
    ensures FormatAsWritten(st).Some?
    ensures ParseAsWritten(FormatAsWritten(st).value) == Some(Parsed(st.contents, Indexed(st.selection)))
  {
    hide Render, Scan, Strip, Marks, MarkerAt, MarkerText, Decimal, DigitRun, DigitsValue, InsertAll, Merge, Collect, RecordAll, RecordMarker, Meaning, ParseInOrder, ParseAsWritten, FormatInOrder, FormatAsWritten;
    var s := StartMarks(st.selection);
    var e := EndMarks(st.selection, 0);
    AsWrittenInOrder(st);
    AsWrittenText(st);
    FormatInOrderParses(st);
    EndMarksEnds(st.selection, 0);
    RenderStartsFirst(st.contents, s, e);
    AsWrittenWhenStartsFirst(Render(st.contents, s + e, 0));
  }

  // ---------------------------------------------------------------------
  // The harness's own examples, and the orderings that go wrong

  lemma FormatSingleSelection()
    ensures FormatAsWritten(TestState("foobar", [Region(3, 6)])) == Some("foo<$0>bar</$0>")
  {
    var st := TestState("foobar", [Region(3, 6)]);
    MarkerTexts();
    var s0, e0 := Mark(false, 0, 3), Mark(true, 0, 6);
    assert EndMarks(st.selection, 0) == [e0];
    assert StartMarks(st.selection) + EndMarks(st.selection, 0) == [s0, e0];
    assert InsertAll("foo<$0>bar</$0>", [], 9) == Some("foo<$0>bar</$0>");
    assert "foo<$0>bar"[..10] + "</$0>" + "foo<$0>bar"[10..] == "foo<$0>bar</$0>";
    assert InsertAll("foo<$0>bar", [e0], 4) == Some("foo<$0>bar</$0>");
    assert "foobar"[..3] + "<$0>" + "foobar"[3..] == "foo<$0>bar";
    assert InsertAll("foobar", [s0, e0], 0) == Some("foo<$0>bar</$0>");
  }

  lemma FormatSingleCursor()
    ensures FormatAsWritten(TestState("foobar", [Region(3, 3)])) == Some("foo<$0>bar")
  {
    var st := TestState("foobar", [Region(3, 3)]);
    MarkerTexts();
    var s0 := Mark(false, 0, 3);
    assert EndMarks(st.selection, 0) == [];
    assert StartMarks(st.selection) + EndMarks(st.selection, 0) == [s0];
    assert InsertAll("foo<$0>bar", [], 4) == Some("foo<$0>bar");
    assert "foobar"[..3] + "<$0>" + "foobar"[3..] == "foo<$0>bar";
    assert InsertAll("foobar", [s0], 0) == Some("foo<$0>bar");
  }

  /** `can_parse_single_cursor`: the marker goes, and a caret stays where it was. */
  lemma ParseSingleCursor()
    ensures ParseAsWritten("foo<$0>bar") == Some(Parsed("foobar", map[0 := Region(3, 3)]))
  {
    hide ParseAsWritten, FormatAsWritten, FormatInOrder, InsertAll, Render, Scan, Strip, Marks, MarkerAt, MarkerText, Decimal, DigitRun, DigitsValue, Meaning, ParseInOrder, Merge;
    var st := TestState("foobar", [Region(3, 3)]);
    FormatSingleCursor();
    AsWrittenRoundTrip(st);
    assert Indexed(st.selection) == map[0 := Region(3, 3)];
  }

  lemma FormatMultipleCursors()
    ensures FormatAsWritten(TestState("foobar", [Region(3, 3), Region(4, 4)])) == Some("foo<$0>b<$1>ar")
  {
    var st := TestState("foobar", [Region(3, 3), Region(4, 4)]);
    MarkerTexts();
    var s0, s1 := Mark(false, 0, 3), Mark(false, 1, 4);
    assert EndMarks(st.selection, 0) == [];
    assert StartMarks(st.selection) + EndMarks(st.selection, 0) == [s0, s1];
    assert InsertAll("foo<$0>b<$1>ar", [], 8) == Some("foo<$0>b<$1>ar");
    assert "foo<$0>bar"[..8] + "<$1>" + "foo<$0>bar"[8..] == "foo<$0>b<$1>ar";
    assert InsertAll("foo<$0>bar", [s1], 4) == Some("foo<$0>b<$1>ar");
    assert "foobar"[..3] + "<$0>" + "foobar"[3..] == "foo<$0>bar";
    assert InsertAll("foobar", [s0, s1], 0) == Some("foo<$0>b<$1>ar");
  }

  /** `can_parse_multiple_cursors`: two carets, under ids 0 and 1. */
  lemma ParseMultipleCursors()
    ensures ParseAsWritten("foo<$0>b<$1>ar") == Some(Parsed("foobar", map[0 := Region(3, 3), 1 := Region(4, 4)]))
  {
    hide ParseAsWritten, FormatAsWritten, FormatInOrder, InsertAll, Render, Scan, Strip, Marks, MarkerAt, MarkerText, Decimal, DigitRun, DigitsValue, Meaning, ParseInOrder, Merge;
    var st := TestState("foobar", [Region(3, 3), Region(4, 4)]);
    FormatMultipleCursors();
    IndexedPair(Region(3, 3), Region(4, 4));
    AsWrittenRoundTrip(st);
  }

  /** `can_parse_single_selection`: one region, from the opening to the closing marker. */
  lemma ParseSingleSelection()
    ensures ParseAsWritten("foo<$0>bar</$0>") == Some(Parsed("foobar", map[0 := Region(3, 6)]))
  {
    hide ParseAsWritten, FormatAsWritten, FormatInOrder, InsertAll, Render, Scan, Strip, Marks, MarkerAt, MarkerText, Decimal, DigitRun, DigitsValue, Meaning, ParseInOrder, Merge;
    var st := TestState("foobar", [Region(3, 6)]);
    FormatSingleSelection();
    AsWrittenRoundTrip(st);
    assert Indexed(st.selection) == map[0 := Region(3, 6)];
  }

  lemma IndexedPair(x: Region, y: Region)
    ensures Indexed([x, y]) == map[0 := x, 1 := y]
  {
    var r := Indexed([x, y]);
    assert r.Keys == {0, 1} by {
      forall i: nat
        ensures i in r <==> i in {0, 1}
      {
      }
    }
  }

  /** `can_format_into_string`, the writing half. */
  lemma FormatIntoString()
    ensures FormatAsWritten(TestState("foobar", [Region(2, 2), Region(3, 6)])) == Some("fo<$0>o<$1>bar</$1>")
  {
    var st := TestState("foobar", [Region(2, 2), Region(3, 6)]);
    MarkerTexts();
    var s0, s1, e1 := Mark(false, 0, 2), Mark(false, 1, 3), Mark(true, 1, 6);
    assert EndMarks(st.selection, 0) == [e1];
    assert StartMarks(st.selection) + EndMarks(st.selection, 0) == [s0, s1, e1];
    assert InsertAll("fo<$0>o<$1>bar</$1>", [], 13) == Some("fo<$0>o<$1>bar</$1>");
    assert "fo<$0>o<$1>bar"[..14] + "</$1>" + "fo<$0>o<$1>bar"[14..] == "fo<$0>o<$1>bar</$1>";
    assert InsertAll("fo<$0>o<$1>bar", [e1], 8) == Some("fo<$0>o<$1>bar</$1>");
    assert "fo<$0>obar"[..7] + "<$1>" + "fo<$0>obar"[7..] == "fo<$0>o<$1>bar";
    assert InsertAll("fo<$0>obar", [s1, e1], 4) == Some("fo<$0>o<$1>bar</$1>");
    assert "foobar"[..2] + "<$0>" + "foobar"[2..] == "fo<$0>obar";
    assert InsertAll("foobar", [s0, s1, e1], 0) == Some("fo<$0>o<$1>bar</$1>");
  }

  /** `can_format_into_string`: the text parses to the state, which formats back to the text. */
  lemma ParseFormatIntoString()
    ensures ParseAsWritten("fo<$0>o<$1>bar</$1>") == Some(Parsed("foobar", map[0 := Region(2, 2), 1 := Region(3, 6)]))
  {
    hide ParseAsWritten, FormatAsWritten, FormatInOrder, InsertAll, Render, Scan, Strip, Marks, MarkerAt, MarkerText, Decimal, DigitRun, DigitsValue, Meaning, ParseInOrder, Merge;
    var st := TestState("foobar", [Region(2, 2), Region(3, 6)]);
    FormatIntoString();
    IndexedPair(Region(2, 2), Region(3, 6));
    AsWrittenRoundTrip(st);
  }

  /** The state of the two orderings that go wrong: three characters, the first and the last selected. */
  function ClosedEarly(x: char, y: char, z: char): TestState
  {
    TestState([x, y, z], [Region(0, 1), Region(2, 3)])
  }

  /** Written in offset order, the state reads as the text it stands for. */
  lemma ClosedEarlyInOrder(x: char, y: char, z: char)
    ensures FormatInOrder(ClosedEarly(x, y, z)) == Some(ClosedEarlyText(x, y, z))
  {
    var st := ClosedEarly(x, y, z);
    var o0, c0, o1, c1 := MarkerText(false, 0), MarkerText(true, 0), MarkerText(false, 1), MarkerText(true, 1);
    MarkerTextLength(false, 0);
    MarkerTextLength(true, 0);
    MarkerTextLength(false, 1);
    MarkerTextLength(true, 1);
    var s0, s1, e0, e1 := Mark(false, 0, 0), Mark(false, 1, 2), Mark(true, 0, 1), Mark(true, 1, 3);
    assert StartMarks(st.selection) == [s0, s1];
    assert EndMarks(st.selection, 0) == [e0, e1];
    assert Merge([s1], [e1]) == [s1, e1];
    assert Merge([s1], [e0, e1]) == [e0, s1, e1];
    assert Merge([s0, s1], [e0, e1]) == [s0, e0, s1, e1];
    var t3 := o0 + [x] + c0 + [y] + o1 + [z] + c1;
    var t2 := o0 + [x] + c0 + [y] + o1 + [z];
    var t1 := o0 + [x] + c0 + [y, z];
    var t0 := o0 + [x, y, z];
    assert t2[..16] + c1 + t2[16..] == t3;
    assert t1[..11] + o1 + t1[11..] == t2;
    assert t0[..5] + c0 + t0[5..] == t1;
    assert [x, y, z][..0] + o0 + [x, y, z][0..] == t0;
    assert InsertAll(t3, [], 18) == Some(t3);
    assert InsertAll(t2, [e1], 13) == Some(t3);
    assert InsertAll(t1, [s1, e1], 9) == Some(t3);
    assert InsertAll(t0, [e0, s1, e1], 4) == Some(t3);
    assert InsertAll([x, y, z], [s0, e0, s1, e1], 0) == Some(t3);
    assert t3 == ClosedEarlyText(x, y, z);
  }

  /**
   * The two passes of `parse` as written over the markers of the text: both
   * opening markers give up their characters before `</$0>` at position 5
   * is reached, and `5 - 8` underflows.
   */
  lemma ClosedEarlyPassesFail(text: string)
    requires |text| == 21
    ensures RecordAll([Found(0, 4, false, 0), Found(11, 4, false, 1), Found(5, 5, true, 0), Found(16, 5, true, 1)],
                      Progress(text, 0, map[], map[])) == None
  {
    var f0, f2, f1, f3 := Found(0, 4, false, 0), Found(11, 4, false, 1), Found(5, 5, true, 0), Found(16, 5, true, 1);
    var p0 := Progress(text, 0, map[], map[]);
    var p1 := RecordMarker(f0, p0).value;
    assert p1.removed == 4 && |p1.contents| == 17;
    var p2 := RecordMarker(f2, p1).value;
    assert p2.removed == 8;
    assert RecordMarker(f1, p2) == None;
    assert RecordAll([f1, f3], p2) == None;
    assert [f2, f1, f3][1..] == [f1, f3];
    assert RecordAll([f2, f1, f3], p1) == None;
    assert [f0, f2, f1, f3][1..] == [f2, f1, f3];
  }

  /**
   * `parse` as written fails on the text: the closing pass starts with
   * every opening marker's length in `removed`, so `</$0>` at position 5
   * underflows.
   */
  lemma ClosedEarlyParseFails(x: char, y: char, z: char)
    requires x != '<' && y != '<' && z != '<'
    ensures ParseAsWritten(ClosedEarlyText(x, y, z)) == None
  {
    var fs := [Found(0, 4, false, 0), Found(5, 5, true, 0), Found(11, 4, false, 1), Found(16, 5, true, 1)];
    var text := ClosedEarlyText(x, y, z);
    ClosedEarlyScan(x, y, z);
    assert OfKind(fs, false) + OfKind(fs, true) == [fs[0], fs[2], fs[1], fs[3]] by {
      assert fs[1..][1..][1..] == [fs[3]];
      assert OfKind(fs, false) == [fs[0], fs[2]];
      assert OfKind(fs, true) == [fs[1], fs[3]];
    }
    MarkerTextLength(false, 0);
    MarkerTextLength(true, 0);
    MarkerTextLength(false, 1);
    MarkerTextLength(true, 1);
    assert |text| == 21;
    ClosedEarlyPassesFail(text);
  }

  /** Read in text order, the same text gives back the state. */
  lemma ClosedEarlyParseInOrder(x: char, y: char, z: char)
    requires x != '<' && y != '<' && z != '<'
    ensures ParseInOrder(ClosedEarlyText(x, y, z)) == Some(Parsed([x, y, z], map[0 := Region(0, 1), 1 := Region(2, 3)]))
  {
    ClosedEarlyInOrder(x, y, z);
    FormatInOrderParses(ClosedEarly(x, y, z));
    IndexedPair(Region(0, 1), Region(2, 3));
  }

  /**
   * The two passes of `parse` as written over the markers of
   * `wwwwww<$0>x</$0>y<$1>z`: `</$0>` at 11 meets `removed == 8`, so it is
   * recorded at 3, and the five characters drained from there are the last
   * three of `w`, then `x` and the marker's `<`.  Nothing panics.
   */
  lemma MisplacedPasses(text: string)
    requires |text| == 22
    ensures RecordAll([Found(6, 4, false, 0), Found(17, 4, false, 1), Found(11, 5, true, 0)], Progress(text, 0, map[], map[]))
         == Some(Progress(text[..3] + text[12..17] + text[21..], 13, map[0 := 6, 1 := 13], map[0 := 3]))
  {
    var f0, f1, f2 := Found(6, 4, false, 0), Found(17, 4, false, 1), Found(11, 5, true, 0);
    var p0 := Progress(text, 0, map[], map[]);
    var c1 := text[..6] + text[10..];
    var p1 := Progress(c1, 4, map[0 := 6], map[]);
    assert RecordMarker(f0, p0) == Some(p1);
    var c2 := c1[..13] + c1[17..];
    assert c2 == text[..6] + text[10..17] + text[21..];
    var p2 := Progress(c2, 8, map[0 := 6, 1 := 13], map[]);
    assert RecordMarker(f1, p1) == Some(p2);
    var c3 := c2[..3] + c2[8..];
    assert c3 == text[..3] + text[12..17] + text[21..];
    var p3 := Progress(c3, 13, map[0 := 6, 1 := 13], map[0 := 3]);
    assert RecordMarker(f2, p2) == Some(p3);
    assert RecordAll([f2], p2) == Some(p3) by {
      assert [f2][1..] == [];
    }
    assert [f1, f2][1..] == [f2];
    assert [f0, f1, f2][1..] == [f1, f2];
  }

  /** The same markers in text order: each is recorded at its own offset. */
  lemma MisplacedPassesInOrder(text: string)
    requires |text| == 22
    ensures RecordAll([Found(6, 4, false, 0), Found(11, 5, true, 0), Found(17, 4, false, 1)], Progress(text, 0, map[], map[]))
         == Some(Progress(text[..6] + text[10..11] + text[16..17] + text[21..], 13, map[0 := 6, 1 := 8], map[0 := 7]))
  {
    var f0, f1, f2 := Found(6, 4, false, 0), Found(11, 5, true, 0), Found(17, 4, false, 1);
    var p0 := Progress(text, 0, map[], map[]);
    var c1 := text[..6] + text[10..];
    var p1 := Progress(c1, 4, map[0 := 6], map[]);
    assert RecordMarker(f0, p0) == Some(p1);
    var c2 := c1[..7] + c1[12..];
    assert c2 == text[..6] + text[10..11] + text[16..];
    var p2 := Progress(c2, 9, map[0 := 6], map[0 := 7]);
    assert RecordMarker(f1, p1) == Some(p2);
    var c3 := c2[..8] + c2[12..];
    assert c3 == text[..6] + text[10..11] + text[16..17] + text[21..];
    var p3 := Progress(c3, 13, map[0 := 6, 1 := 8], map[0 := 7]);
    assert RecordMarker(f2, p2) == Some(p3);
    assert RecordAll([f2], p2) == Some(p3) by {
      assert [f2][1..] == [];
    }
    assert [f1, f2][1..] == [f2];
    assert [f0, f1, f2][1..] == [f1, f2];
  }

  /** Taken one kind at a time, the closing marker comes last. */
  lemma MisplacedKinds(fs: seq<Found>)
    requires fs == [Found(6, 4, false, 0), Found(11, 5, true, 0), Found(17, 4, false, 1)]
    ensures OfKind(fs, false) + OfKind(fs, true) == [fs[0], fs[2], fs[1]]
  {
    assert fs[2..][1..] == [] && fs[1..][1..] == fs[2..];
    assert OfKind(fs[2..], false) == [fs[2]] && OfKind(fs[2..], true) == [];
    assert OfKind(fs[1..], false) == [fs[2]] && OfKind(fs[1..], true) == [fs[1]];
  }

  lemma MisplacedRegions()
    ensures Regions(map[0 := 6, 1 := 13], map[0 := 3]) == map[0 := Region(6, 3), 1 := Region(13, 13)]
    ensures Regions(map[0 := 6, 1 := 8], map[0 := 7]) == map[0 := Region(6, 7), 1 := Region(8, 8)]
  {
  }

  /**
   * With enough text before the closing marker, `parse` as written does not
   * fail on such a text: it drains the wrong characters and records the
   * region's end before its start, where reading in text order gives back
   * the plain text and both regions.
   */
  lemma MisplacedParse(w: string, x: char, y: char, z: char)
    requires |w| == 6 && NoOpen(w) && x != '<' && y != '<' && z != '<'
    ensures ParseAsWritten(MisplacedText(w, x, y, z))
         == Some(Parsed(w[..3] + ['/', '$', '0', '>', y, z], map[0 := Region(6, 3), 1 := Region(13, 13)]))
    ensures ParseInOrder(MisplacedText(w, x, y, z))
         == Some(Parsed(w + [x, y, z], map[0 := Region(6, 7), 1 := Region(8, 8)]))
  {
    hide Scan, RecordAll, RecordMarker, Regions, OfKind, MisplacedText;
    var text := MisplacedText(w, x, y, z);
    var fs := [Found(6, 4, false, 0), Found(11, 5, true, 0), Found(17, 4, false, 1)];
    MisplacedScan(w, x, y, z);
    MisplacedLayout(w, x, y, z);
    MisplacedKinds(fs);
    MisplacedPasses(text);
    MisplacedPassesInOrder(text);
    MisplacedRegions();
  }

  /** On the text `abcdef<$0>g</$0>h<$1>i`: `parse` as written reads `abc/$0>hi`, with region 0 ending at 3. */
  lemma MisplacedExample()
    ensures ParseAsWritten("abcdef<$0>g</$0>h<$1>i") == Some(Parsed("abc/$0>hi", map[0 := Region(6, 3), 1 := Region(13, 13)]))
  {
    hide ParseAsWritten, MisplacedText, Scan, RecordAll, MarkerAt, Strip;
    MisplacedTextIs();
    MisplacedParse("abcdef", 'g', 'h', 'i');
    assert "abcdef"[..3] + ['/', '$', '0', '>', 'h', 'i'] == "abc/$0>hi";
  }

  /** `fmt` as written puts `</$0>` inside `<$1>`: its pass over the closing markers counts the later opening marker as well. */
  lemma ClosedEarlyAsWritten(x: char, y: char, z: char)
    ensures FormatAsWritten(ClosedEarly(x, y, z)) == Some(TangledText(x, y, z))
  {
    var st := ClosedEarly(x, y, z);
    var o0, c0, o1, c1 := MarkerText(false, 0), MarkerText(true, 0), MarkerText(false, 1), MarkerText(true, 1);
    MarkerTextLength(false, 0);
    MarkerTextLength(true, 0);
    MarkerTextLength(false, 1);
    MarkerTextLength(true, 1);
    MarkerTexts();
    var s0, s1, e0, e1 := Mark(false, 0, 0), Mark(false, 1, 2), Mark(true, 0, 1), Mark(true, 1, 3);
    assert StartMarks(st.selection) + EndMarks(st.selection, 0) == [s0, s1, e0, e1];
    var t3 := o0 + [x, y] + "<$1" + c0 + ">" + [z] + c1;
    var t2 := o0 + [x, y] + "<$1" + c0 + ">" + [z];
    var t1 := o0 + [x, y] + o1 + [z];
    var t0 := o0 + [x, y, z];
    assert t2[..16] + c1 + t2[16..] == t3;
    assert t1[..9] + c0 + t1[9..] == t2;
    assert t0[..6] + o1 + t0[6..] == t1;
    assert [x, y, z][..0] + o0 + [x, y, z][0..] == t0;
    assert InsertAll(t3, [], 18) == Some(t3);
    assert InsertAll(t2, [e1], 13) == Some(t3);
    assert InsertAll(t1, [e0, e1], 8) == Some(t3);
    assert InsertAll(t0, [s1, e0, e1], 4) == Some(t3);
    assert InsertAll([x, y, z], [s0, s1, e0, e1], 0) == Some(t3);
    assert t3 == TangledText(x, y, z);
  }

  /**
   * What `fmt` as written writes for the state does not stand for the
   * state: its contents come out as `xy<$1>z`.
   */
  lemma ClosedEarlyFormatWrong(x: char, y: char, z: char)
    requires x != '<' && y != '<' && z != '<'
    ensures FormatAsWritten(ClosedEarly(x, y, z)) == Some(TangledText(x, y, z))
    ensures Meaning(TangledText(x, y, z)) != Some(Parsed([x, y, z], Indexed(ClosedEarly(x, y, z).selection)))
    ensures FormatInOrder(ClosedEarly(x, y, z)) == Some(ClosedEarlyText(x, y, z))
    ensures Meaning(ClosedEarlyText(x, y, z)) == Some(Parsed([x, y, z], Indexed(ClosedEarly(x, y, z).selection)))
  {
    hide FormatAsWritten, FormatInOrder, InsertAll, Render, Scan, Strip, Marks, MarkerAt, MarkerText, Decimal,
      DigitRun, DigitsValue, Merge, Collect, RecordAll, RecordMarker, ParseInOrder;
    ClosedEarlyAsWritten(x, y, z);
    TangledStrip(x, y, z);
    ClosedEarlyInOrder(x, y, z);
    FormatInOrderParses(ClosedEarly(x, y, z));
  }
}
