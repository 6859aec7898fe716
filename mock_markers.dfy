/**
 * The cursor markers of the editor test harness: `<$n>` opens cursor `n`
 * and `</$n>` closes it.  Recognition is written out over the characters
 * (the harness uses the regular expressions `<\$(\d+)>` and `</\$(\d+)>`),
 * together with what a text means once its markers are taken out: the
 * remaining contents, and each marker's kind, id and offset in them.
 */
module MockMarkers {
  import opened Wrappers

  predicate IsDigit(c: char)
  {
    '0' <= c <= '9'
  }

  predicate AllDigits(s: string)
  {
    forall k :: 0 <= k < |s| ==> IsDigit(s[k])
  }

  function DigitValue(c: char): nat
    requires IsDigit(c)
  {
    (c as int - '0' as int) as nat
  }

  function Digit(d: nat): (c: char)
    requires d < 10
    ensures IsDigit(c) && DigitValue(c) == d
  {
    ('0' as int + d) as char
  }

  /** `format!("{id}")`: the decimal digits of `n`, without leading zeros. */
  function Decimal(n: nat): (s: string)
    ensures |s| > 0 && AllDigits(s)
    decreases n
  {
    if n < 10 then [Digit(n)] else Decimal(n / 10) + [Digit(n % 10)]
  }

  /** `parse::<usize>()` on a run of digits (here without an upper bound). */
  function DigitsValue(ds: string): nat
    requires AllDigits(ds)
  {
    if ds == [] then 0 else DigitsValue(ds[..|ds| - 1]) * 10 + DigitValue(ds[|ds| - 1])
  }

  /** Reading back the digits of a number gives the number. */
  lemma {:induction false} DecimalValue(n: nat)
    ensures DigitsValue(Decimal(n)) == n
    decreases n
  {
    if n >= 10 {
      var s := Decimal(n / 10) + [Digit(n % 10)];
      assert s[..|s| - 1] == Decimal(n / 10);
      DecimalValue(n / 10);
    }
  }

  /** How many digits `s` starts with (what the greedy `\d+` takes). */
  function DigitRun(s: string): (n: nat)
    ensures n <= |s|
    ensures n < |s| ==> !IsDigit(s[n])
  {
    if s != [] && IsDigit(s[0]) then 1 + DigitRun(s[1..]) else 0
  }

  /** The run is made of digits. */
  lemma {:induction false} DigitRunDigits(s: string)
    ensures AllDigits(s[..DigitRun(s)])
    decreases |s|
  {
    if s != [] && IsDigit(s[0]) {
      var n := DigitRun(s);
      DigitRunDigits(s[1..]);
      assert forall k :: 1 <= k < n ==> s[..n][k] == s[1..][..n - 1][k - 1];
    }
  }

  lemma {:induction false} DigitRunOf(ds: string, rest: string)
    requires AllDigits(ds) && rest != [] && !IsDigit(rest[0])
    ensures DigitRun(ds + rest) == |ds|
    decreases |ds|
  {
    var s := ds + rest;
    if ds == [] {
      assert s == rest;
    } else {
      var tail := ds[1..];
      assert s[0] == ds[0] && IsDigit(ds[0]);
      assert s[1..] == tail + rest;
      assert AllDigits(tail) by {
        forall k | 0 <= k < |tail| ensures IsDigit(tail[k]) {
          assert tail[k] == ds[k + 1];
        }
      }
      DigitRunOf(tail, rest);
    }
  }

  /** A marker: whether it closes (`</$n>`) or opens (`<$n>`) its cursor, its id and its length. */
  datatype Marker = Marker(closing: bool, id: nat, len: nat)

  /** The marker at the very front of `s`, if there is one. */
  function MarkerAt(s: string): (r: Option<Marker>)
    ensures r.Some? ==> 4 <= r.value.len <= |s| && s[0] == '<'
  {
    if |s| < 2 || s[0] != '<' then None
    else
      var open := if s[1] == '/' then 3 else 2;  // just past the `$`
      if open > |s| || s[open - 1] != '$' then None
      else
        var n := DigitRun(s[open..]);
        if n == 0 || open + n >= |s| || s[open + n] != '>' then None
        else
          var ds := s[open..open + n];
          DigitRunDigits(s[open..]);
          assert ds == s[open..][..n];
          Some(Marker(s[1] == '/', DigitsValue(ds), open + n + 1))
  }

  /** The text of a marker, as the formatter writes it (`<${id}>`, `</${id}>`). */
  function MarkerText(closing: bool, id: nat): (t: string)
    ensures |t| >= 4 && t[0] == '<'
  {
    (if closing then "</$" else "<$") + Decimal(id) + ">"
  }

  /** A written marker is recognised as exactly that marker, whatever follows it. */
  lemma MarkerAtText(closing: bool, id: nat, rest: string)
    ensures MarkerAt(MarkerText(closing, id) + rest) == Some(Marker(closing, id, |MarkerText(closing, id)|))
  {
    hide DigitRun, DigitsValue, Decimal;
    var ds := Decimal(id);
    var head := if closing then "</$" else "<$";
    var s := MarkerText(closing, id) + rest;
    var open := |head|;
    assert s == head + ds + (">" + rest) && |MarkerText(closing, id)| == open + |ds| + 1;
    hide MarkerText;
    assert s[0] == '<' && s[1] == (if closing then '/' else '$') && s[open - 1] == '$';
    assert s[open..] == ds + (">" + rest);
    DigitRunOf(ds, ">" + rest);
    assert s[open..open + |ds|] == ds;
    assert s[open + |ds|] == '>';
    DecimalValue(id);
  }

  /** A marker as the meaning of a text: its kind, its id and its offset in the contents. */
  datatype Mark = Mark(closing: bool, id: nat, at: nat)

  /** The contents of a text: every marker taken out. */
  function Strip(s: string): (r: string)
    ensures |r| <= |s|
    decreases |s|
  {
    if s == [] then []
    else
      match MarkerAt(s)
      case Some(m) => Strip(s[m.len..])
      case None => [s[0]] + Strip(s[1..])
  }

  /**
   * The markers of a text in order, each at its offset in `Strip(s)`; the
   * text is taken to begin at offset `d` of the contents.
   */
  function Marks(s: string, d: nat): seq<Mark>
    decreases |s|
  {
    if s == [] then []
    else
      match MarkerAt(s)
      case Some(m) => [Mark(m.closing, m.id, d)] + Marks(s[m.len..], d)
      case None => Marks(s[1..], d + 1)
  }

  /** A marker found in a text: where it starts and how long it is, its kind and id. */
  datatype Found = Found(start: nat, len: nat, closing: bool, id: nat)

  /**
   * The matches of both patterns, left to right; the text is taken to begin
   * at position `d`.  An opening and a closing marker never overlap, so the
   * matches of either pattern alone are the matches of that kind here, in
   * the same order.
   */
  function Scan(s: string, d: nat): seq<Found>
    decreases |s|
  {
    if s == [] then []
    else
      match MarkerAt(s)
      case Some(m) => [Found(d, m.len, m.closing, m.id)] + Scan(s[m.len..], d + m.len)
      case None => Scan(s[1..], d + 1)
  }

  /** The matches of one pattern only (`START.captures_iter` or `END.captures_iter`). */
  function OfKind(fs: seq<Found>, closing: bool): (r: seq<Found>)
    ensures |r| <= |fs|
    ensures forall k :: 0 <= k < |r| ==> r[k] in fs && r[k].closing == closing
  {
    if fs == [] then []
    else if fs[0].closing == closing then [fs[0]] + OfKind(fs[1..], closing)
    else OfKind(fs[1..], closing)
  }

  /**
   * The matches of one pattern alone, left to right, as `captures_iter`
   * yields them: a marker of the other kind is no match, and the search
   * goes on from its next character.
   */
  function ScanKind(s: string, d: nat, closing: bool): seq<Found>
    decreases |s|
  {
    if s == [] then []
    else
      match MarkerAt(s)
      case Some(m) =>
        if m.closing == closing then [Found(d, m.len, m.closing, m.id)] + ScanKind(s[m.len..], d + m.len, closing)
        else ScanKind(s[1..], d + 1, closing)
      case None => ScanKind(s[1..], d + 1, closing)
  }

  /** Past its first character a marker holds no `<`. */
  lemma MarkerAtInside(s: string)
    requires MarkerAt(s).Some?
    ensures forall j :: 1 <= j < MarkerAt(s).value.len ==> s[j] != '<'
  {
    hide DigitsValue, Decimal;
    var open := if s[1] == '/' then 3 else 2;
    var n := DigitRun(s[open..]);
    DigitRunDigits(s[open..]);
    forall j | open <= j < open + n ensures s[j] != '<' {
      assert s[j] == s[open..][..n][j - open];
    }
  }

  /** A scan for one kind goes through the inside of a marker, where no match starts. */
  lemma {:induction false} ScanKindSkips(s: string, d: nat, closing: bool, j: nat, len: nat)
    requires 1 <= j <= len <= |s|
    requires forall i :: 1 <= i < len ==> s[i] != '<'
    ensures ScanKind(s[j..], d + j, closing) == ScanKind(s[len..], d + len, closing)
    decreases len - j
  {
    hide MarkerAt;
    if j < len {
      var t := s[j..];
      assert t[0] == s[j];
      assert MarkerAt(t).None?;
      assert t[1..] == s[j + 1..];
      ScanKindSkips(s, d, closing, j + 1, len);
    }
  }

  /**
   * Scanning for one pattern alone (`START.captures_iter`, or
   * `END.captures_iter`) finds exactly the matches of that kind in the
   * scan for both, in the same order: the two kinds never overlap.
   */
  lemma {:induction false} ScanSplits(s: string, d: nat, closing: bool)
    ensures ScanKind(s, d, closing) == OfKind(Scan(s, d), closing)
    decreases |s|
  {
    hide MarkerAt, DigitRun, DigitsValue, Decimal, MarkerText;
    if s != [] {
      match MarkerAt(s)
      case Some(m) =>
        ScanSplits(s[m.len..], d + m.len, closing);
        var f := Found(d, m.len, m.closing, m.id);
        var rest := Scan(s[m.len..], d + m.len);
        assert Scan(s, d) == [f] + rest;
        assert ([f] + rest)[0] == f && ([f] + rest)[1..] == rest;
        if m.closing != closing {
          MarkerAtInside(s);
          ScanKindSkips(s, d, closing, 1, m.len);
        }
      case None =>
        ScanSplits(s[1..], d + 1, closing);
    }
  }

  /** Text without a `<`, so without any marker. */
  predicate NoOpen(x: string)
  {
    forall k :: 0 <= k < |x| ==> x[k] != '<'
  }

  /** Text without a `<` is kept in the contents. */
  lemma {:induction false} StripPlain(x: string, y: string)
    requires NoOpen(x)
    ensures Strip(x + y) == x + Strip(y)
    decreases |x|
  {
    hide MarkerAt, DigitRun, DigitsValue, MarkerText;
    if x == [] {
      assert x + y == y;
    } else {
      var s := x + y;
      assert s[1..] == x[1..] + y;
      assert s[0] == x[0];
      assert MarkerAt(s).None?;
      StripPlain(x[1..], y);
      assert x == [x[0]] + x[1..];
    }
  }

  /** Text without a `<` holds no mark and moves the marks after it. */
  lemma {:induction false} MarksPlain(x: string, y: string, d: nat)
    requires NoOpen(x)
    ensures Marks(x + y, d) == Marks(y, d + |x|)
    decreases |x|
  {
    hide MarkerAt, DigitRun, DigitsValue, MarkerText;
    if x == [] {
      assert x + y == y;
    } else {
      var s := x + y;
      assert s[1..] == x[1..] + y;
      assert s[0] == x[0];
      assert MarkerAt(s).None?;
      MarksPlain(x[1..], y, d + 1);
    }
  }

  /** Text without a `<` holds no match and moves the matches after it. */
  lemma {:induction false} ScanPlain(x: string, y: string, e: nat)
    requires NoOpen(x)
    ensures Scan(x + y, e) == Scan(y, e + |x|)
    decreases |x|
  {
    hide MarkerAt, DigitRun, DigitsValue, MarkerText;
    if x == [] {
      assert x + y == y;
    } else {
      var s := x + y;
      assert s[1..] == x[1..] + y;
      assert s[0] == x[0];
      assert MarkerAt(s).None?;
      ScanPlain(x[1..], y, e + 1);
    }
  }

  /** Text without a `<` contributes no marker: it is kept and moves what follows. */
  lemma PlainPrefix(x: string, y: string, d: nat, e: nat)
    requires NoOpen(x)
    ensures Strip(x + y) == x + Strip(y)
    ensures Marks(x + y, d) == Marks(y, d + |x|)
    ensures Scan(x + y, e) == Scan(y, e + |x|)
  {
    hide *;
    StripPlain(x, y);
    MarksPlain(x, y, d);
    ScanPlain(x, y, e);
  }

  /** A text that does not begin with a marker keeps its first character. */
  lemma StripKeeps(s: string)
    requires s != [] && MarkerAt(s).None?
    ensures Strip(s) == [s[0]] + Strip(s[1..])
  {
  }

  /** A written marker leaves nothing in the contents. */
  lemma StripMarker(closing: bool, id: nat, y: string)
    ensures Strip(MarkerText(closing, id) + y) == Strip(y)
  {
    var t := MarkerText(closing, id);
    MarkerAtText(closing, id, y);
    assert (t + y)[|t|..] == y;
  }

  /** A written marker is one mark, at the offset where it stands. */
  lemma MarksMarker(closing: bool, id: nat, y: string, d: nat)
    ensures Marks(MarkerText(closing, id) + y, d) == [Mark(closing, id, d)] + Marks(y, d)
  {
    var t := MarkerText(closing, id);
    MarkerAtText(closing, id, y);
    assert (t + y)[|t|..] == y;
  }

  /** A written marker is one match, as long as its text. */
  lemma ScanMarker(closing: bool, id: nat, y: string, e: nat)
    ensures Scan(MarkerText(closing, id) + y, e)
         == [Found(e, |MarkerText(closing, id)|, closing, id)] + Scan(y, e + |MarkerText(closing, id)|)
  {
    var t := MarkerText(closing, id);
    MarkerAtText(closing, id, y);
    assert (t + y)[|t|..] == y;
  }

  /** A written marker contributes exactly itself. */
  lemma MarkerPrefix(closing: bool, id: nat, y: string, d: nat, e: nat)
    ensures Strip(MarkerText(closing, id) + y) == Strip(y)
    ensures Marks(MarkerText(closing, id) + y, d) == [Mark(closing, id, d)] + Marks(y, d)
    ensures Scan(MarkerText(closing, id) + y, e)
         == [Found(e, |MarkerText(closing, id)|, closing, id)] + Scan(y, e + |MarkerText(closing, id)|)
  {
    hide *;
    StripMarker(closing, id, y);
    MarksMarker(closing, id, y, d);
    ScanMarker(closing, id, y, e);
  }

  /** Marks in offset order, none before `base` and none beyond `limit`. */
  predicate Ordered(ms: seq<Mark>, base: nat, limit: nat)
  {
    && (forall k :: 0 <= k < |ms| ==> base <= ms[k].at <= limit)
    && (forall j, k :: 0 <= j < k < |ms| ==> ms[j].at <= ms[k].at)
  }

  /**
   * Contents with marks written into it; `c` is the part of the contents
   * from offset `base` on.  At equal offsets the marks keep their order.
   */
  function Render(c: string, ms: seq<Mark>, base: nat): string
    requires Ordered(ms, base, base + |c|)
    decreases |ms|
  {
    if ms == [] then c
    else
      var k := ms[0].at - base;
      c[..k] + MarkerText(ms[0].closing, ms[0].id) + Render(c[k..], ms[1..], ms[0].at)
  }

  /** One step of `Render`: a plain stretch, one marker, then the rest. */
  lemma RenderStep(c: string, ms: seq<Mark>, base: nat)
    requires Ordered(ms, base, base + |c|) && ms != []
    ensures base <= ms[0].at && ms[0].at - base <= |c|
    ensures Ordered(ms[1..], ms[0].at, ms[0].at + |c[ms[0].at - base..]|)
    ensures Render(c, ms, base)
         == c[..ms[0].at - base] + (MarkerText(ms[0].closing, ms[0].id) + Render(c[ms[0].at - base..], ms[1..], ms[0].at))
  {
  }

  lemma NoOpenIn(c: string, k: nat)
    requires NoOpen(c) && k <= |c|
    ensures NoOpen(c[..k]) && NoOpen(c[k..])
  {
    assert forall i :: 0 <= i < k ==> c[..k][i] == c[i];
    assert forall i :: 0 <= i < |c| - k ==> c[k..][i] == c[k + i];
  }

  /** The step of `RenderStrip` for a first mark. */
  lemma RenderFirstStrip(c: string, ms: seq<Mark>, base: nat, k: nat)
    requires NoOpen(c) && Ordered(ms, base, base + |c|) && ms != [] && k == ms[0].at - base
    ensures k <= |c| && Strip(Render(c, ms, base)) == c[..k] + Strip(Render(c[k..], ms[1..], ms[0].at))
  {
    hide *;
    var m := ms[0];
    RenderStep(c, ms, base);
    var rest := Render(c[k..], ms[1..], m.at);
    var t := MarkerText(m.closing, m.id);
    NoOpenIn(c, k);
    var x := c[..k];
    assert Render(c, ms, base) == x + (t + rest);
    StripPlain(x, t + rest);
    StripMarker(m.closing, m.id, rest);
  }

  /** The step of `RenderMarks` for a first mark. */
  lemma RenderFirstMarks(c: string, ms: seq<Mark>, base: nat, k: nat)
    requires NoOpen(c) && Ordered(ms, base, base + |c|) && ms != [] && k == ms[0].at - base
    ensures k <= |c| && Marks(Render(c, ms, base), base) == [ms[0]] + Marks(Render(c[k..], ms[1..], ms[0].at), ms[0].at)
  {
    hide *;
    var m := ms[0];
    RenderStep(c, ms, base);
    var rest := Render(c[k..], ms[1..], m.at);
    var t := MarkerText(m.closing, m.id);
    NoOpenIn(c, k);
    var x := c[..k];
    assert Render(c, ms, base) == x + (t + rest);
    MarksPlain(x, t + rest, base);
    MarksMarker(m.closing, m.id, rest, m.at);
  }

  /** What both steps need of the rest: no `<`, and the marks still in order. */
  lemma RenderRest(c: string, ms: seq<Mark>, base: nat, k: nat)
    requires NoOpen(c) && Ordered(ms, base, base + |c|) && ms != [] && k == ms[0].at - base
    ensures k <= |c| && NoOpen(c[k..]) && Ordered(ms[1..], ms[0].at, ms[0].at + |c[k..]|)
  {
    RenderStep(c, ms, base);
    NoOpenIn(c, k);
  }

  /** Taking the markers out of rendered contents gives back the contents, if they have no `<`. */
  lemma {:induction false} RenderStrip(c: string, ms: seq<Mark>, base: nat)
    requires NoOpen(c) && Ordered(ms, base, base + |c|)
    ensures Strip(Render(c, ms, base)) == c
    decreases |ms|
  {
    if ms == [] {
      StripPlain(c, []);
      assert c + [] == c;
    } else {
      var k := ms[0].at - base;
      RenderRest(c, ms, base, k);
      RenderFirstStrip(c, ms, base, k);
      RenderStrip(c[k..], ms[1..], ms[0].at);
      assert c[..k] + c[k..] == c;
    }
  }

  /** ... and the marks, at their offsets. */
  lemma {:induction false} RenderMarks(c: string, ms: seq<Mark>, base: nat)
    requires NoOpen(c) && Ordered(ms, base, base + |c|)
    ensures Marks(Render(c, ms, base), base) == ms
    decreases |ms|
  {
    if ms == [] {
      MarksPlain(c, [], base);
      assert c + [] == c;
    } else {
      var k := ms[0].at - base;
      RenderRest(c, ms, base, k);
      RenderFirstMarks(c, ms, base, k);
      RenderMarks(c[k..], ms[1..], ms[0].at);
      assert [ms[0]] + ms[1..] == ms;
    }
  }

  /** Both patterns find the markers `Marks` finds, one for one and of the same kinds. */
  predicate SameKinds(fs: seq<Found>, ms: seq<Mark>)
  {
    |fs| == |ms| && forall k :: 0 <= k < |fs| ==> fs[k].closing == ms[k].closing && fs[k].id == ms[k].id
  }

  lemma {:induction false} ScanKinds(s: string, d: nat, e: nat)
    ensures SameKinds(Scan(s, e), Marks(s, d))
    decreases |s|
  {
    if s != [] {
      match MarkerAt(s)
      case Some(m) =>
        ScanKinds(s[m.len..], d, e + m.len);
      case None =>
        ScanKinds(s[1..], d + 1, e + 1);
    }
  }

  lemma MarkerTexts()
    ensures MarkerText(false, 0) == "<$0>" && MarkerText(true, 0) == "</$0>"
    ensures MarkerText(false, 1) == "<$1>" && MarkerText(true, 1) == "</$1>"
  {
  }

  lemma MarkerTextLength(closing: bool, id: nat)
    requires id < 10
    ensures |MarkerText(closing, id)| == if closing then 5 else 4
  {
  }

  /** A marker followed by plain text. */
  datatype Piece = Piece(closing: bool, id: nat, plain: string)

  /** The pieces written one after the other. */
  function Joined(ps: seq<Piece>): string
  {
    if ps == [] then [] else MarkerText(ps[0].closing, ps[0].id) + (ps[0].plain + Joined(ps[1..]))
  }

  /** No piece's plain text holds a `<`. */
  predicate PlainPieces(ps: seq<Piece>)
  {
    forall k :: 0 <= k < |ps| ==> NoOpen(ps[k].plain)
  }

  /** The markers of the pieces, where they stand in the joined text (counted from `e`). */
  function Founds(ps: seq<Piece>, e: nat): seq<Found>
  {
    if ps == [] then []
    else
      var n := |MarkerText(ps[0].closing, ps[0].id)|;
      [Found(e, n, ps[0].closing, ps[0].id)] + Founds(ps[1..], e + n + |ps[0].plain|)
  }

  /** The plain texts of the pieces, one after the other. */
  function Plains(ps: seq<Piece>): string
  {
    if ps == [] then [] else ps[0].plain + Plains(ps[1..])
  }

  /** No pieces: no text, no match. */
  lemma NoPieces(e: nat)
    ensures Joined([]) == [] && Scan([], e) == [] && Founds([], e) == []
    ensures Strip([]) == [] && Plains([]) == []
  {
  }

  /** The first piece, then the others. */
  lemma PiecesStep(ps: seq<Piece>)
    requires PlainPieces(ps) && ps != []
    ensures Joined(ps) == MarkerText(ps[0].closing, ps[0].id) + (ps[0].plain + Joined(ps[1..]))
    ensures Plains(ps) == ps[0].plain + Plains(ps[1..])
    ensures NoOpen(ps[0].plain) && PlainPieces(ps[1..])
  {
    var tail := ps[1..];
    forall k | 0 <= k < |tail| ensures NoOpen(tail[k].plain) {
      assert tail[k] == ps[k + 1];
    }
  }

  lemma FoundsStep(ps: seq<Piece>, e: nat)
    requires ps != []
    ensures var t := MarkerText(ps[0].closing, ps[0].id);
      Founds(ps, e) == [Found(e, |t|, ps[0].closing, ps[0].id)] + Founds(ps[1..], e + |t| + |ps[0].plain|)
  {
  }

  /** A marker, then plain text: one match, and the rest of the text further on. */
  lemma ScanStep(closing: bool, id: nat, x: string, rest: string, e: nat)
    requires NoOpen(x)
    ensures Scan(MarkerText(closing, id) + (x + rest), e)
         == [Found(e, |MarkerText(closing, id)|, closing, id)] + Scan(rest, e + |MarkerText(closing, id)| + |x|)
  {
    hide *;
    ScanMarker(closing, id, x + rest, e);
    ScanPlain(x, rest, e + |MarkerText(closing, id)|);
  }

  /** A marker, then plain text: the marker goes, the text stays. */
  lemma StripStep(closing: bool, id: nat, x: string, rest: string)
    requires NoOpen(x)
    ensures Strip(MarkerText(closing, id) + (x + rest)) == x + Strip(rest)
  {
    hide *;
    StripMarker(closing, id, x + rest);
    StripPlain(x, rest);
  }

  /** Both patterns find exactly the pieces' markers in the joined text. */
  lemma {:induction false} JoinedScan(ps: seq<Piece>, e: nat)
    requires PlainPieces(ps)
    ensures Scan(Joined(ps), e) == Founds(ps, e)
  {
    hide *;
    if ps == [] {
      NoPieces(e);
    } else {
      var p, tail := ps[0], ps[1..];
      var t, rest := MarkerText(p.closing, p.id), Joined(tail);
      var e' := e + |t| + |p.plain|;
      PiecesStep(ps);
      JoinedScan(tail, e');
      ScanStep(p.closing, p.id, p.plain, rest, e);
      FoundsStep(ps, e);
    }
  }

  /** Taking the markers out of the joined text leaves the plain texts. */
  lemma {:induction false} JoinedStrip(ps: seq<Piece>)
    requires PlainPieces(ps)
    ensures Strip(Joined(ps)) == Plains(ps)
  {
    hide *;
    if ps == [] {
      NoPieces(0);
    } else {
      var p, tail := ps[0], ps[1..];
      PiecesStep(ps);
      StripStep(p.closing, p.id, p.plain, Joined(tail));
      JoinedStrip(tail);
    }
  }
}
