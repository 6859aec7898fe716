/**
 * Two small texts of the editor test harness, three characters with the
 * first and the last selected, and what the marker patterns find in them:
 * the text the state stands for, and the one `fmt` as written makes of it.
 */
module MockSamples {
  import opened MockMarkers

  /** `<$0>x</$0>y<$1>z</$1>`, marker by marker: the text the state stands for. */
  function ClosedEarlyText(x: char, y: char, z: char): string
  {
    MarkerText(false, 0) + ([x] + (MarkerText(true, 0) + ([y] + (MarkerText(false, 1) + ([z] + MarkerText(true, 1))))))
  }

  lemma ClosedEarlyTextIs()
    ensures ClosedEarlyText('a', 'b', 'c') == "<$0>a</$0>b<$1>c</$1>"
  {
    MarkerTexts();
  }

  /** The text as pieces: each marker with the plain text after it. */
  function ClosedEarlyPieces(x: char, y: char, z: char): seq<Piece>
  {
    [Piece(false, 0, [x]), Piece(true, 0, [y]), Piece(false, 1, [z]), Piece(true, 1, [])]
  }

  lemma ClosedEarlyJoined(x: char, y: char, z: char)
    ensures Joined(ClosedEarlyPieces(x, y, z)) == ClosedEarlyText(x, y, z)
  {
    var ps := ClosedEarlyPieces(x, y, z);
    var c0, o1, c1 := MarkerText(true, 0), MarkerText(false, 1), MarkerText(true, 1);
    var e: string := [];
    assert ps[3..][1..] == [] && ps[2..][1..] == ps[3..] && ps[1..][1..] == ps[2..];
    assert Joined(ps[3..]) == c1 + (e + e) == c1;
    assert Joined(ps[2..]) == o1 + ([z] + c1);
    assert Joined(ps[1..]) == c0 + ([y] + (o1 + ([z] + c1)));
  }

  lemma ClosedEarlyFounds(x: char, y: char, z: char)
    ensures Founds(ClosedEarlyPieces(x, y, z), 0)
         == [Found(0, 4, false, 0), Found(5, 5, true, 0), Found(11, 4, false, 1), Found(16, 5, true, 1)]
  {
    var ps := ClosedEarlyPieces(x, y, z);
    MarkerTextLength(false, 0);
    MarkerTextLength(true, 0);
    MarkerTextLength(false, 1);
    MarkerTextLength(true, 1);
    assert ps[3..][1..] == [] && ps[2..][1..] == ps[3..] && ps[1..][1..] == ps[2..];
    FoundsStep(ps[3..], 16);
    FoundsStep(ps[2..], 11);
    FoundsStep(ps[1..], 5);
    FoundsStep(ps, 0);
  }

  /** The markers `parse` finds in the text, at their positions in it. */
  lemma ClosedEarlyScan(x: char, y: char, z: char)
    requires x != '<' && y != '<' && z != '<'
    ensures Scan(ClosedEarlyText(x, y, z), 0)
         == [Found(0, 4, false, 0), Found(5, 5, true, 0), Found(11, 4, false, 1), Found(16, 5, true, 1)]
  {
    var ps := ClosedEarlyPieces(x, y, z);
    assert PlainPieces(ps);
    ClosedEarlyJoined(x, y, z);
    JoinedScan(ps, 0);
    ClosedEarlyFounds(x, y, z);
  }

  /** `<$0>xy<$1</$0>>z</$1>`: what `fmt` as written makes of the state. */
  function TangledText(x: char, y: char, z: char): string
  {
    MarkerText(false, 0) + ([x, y] + ("<$1" + (MarkerText(true, 0) + (">" + ([z] + MarkerText(true, 1))))))
  }

  lemma TangledTextIs()
    ensures TangledText('a', 'b', 'c') == "<$0>ab<$1</$0>>c</$1>"
  {
    MarkerTexts();
  }

  /** `<$1` followed by a marker is no marker: the `<` stays in the contents. */
  lemma BrokenMarker(rest: string)
    ensures MarkerAt("<$1" + (MarkerText(true, 0) + rest)).None?
  {
    var s := "<$1" + (MarkerText(true, 0) + rest);
    var after := MarkerText(true, 0) + rest;
    assert s[2..] == "1" + after;
    DigitRunOf("1", after);
    assert s[3] == '<';
  }

  /** `</$0>>z</$1>` stands for `>z`. */
  lemma TangledTail(z: char)
    requires z != '<'
    ensures Strip(MarkerText(true, 0) + (">" + ([z] + MarkerText(true, 1)))) == ">" + [z]
  {
    hide Strip, MarkerAt, MarkerText, Decimal, DigitRun, DigitsValue;
    var c1 := MarkerText(true, 1);
    var e: string := [];
    StripStep(true, 1, e, e);
    NoPieces(0);
    assert c1 + (e + e) == c1;
    StripStep(true, 0, ">" + [z], c1);
    assert (">" + [z]) + c1 == ">" + ([z] + c1);
  }

  /** `<$1` before a closing marker is kept as it is. */
  lemma BrokenStrip(rest: string)
    ensures Strip("<$1" + (MarkerText(true, 0) + rest)) == "<$1" + Strip(MarkerText(true, 0) + rest)
  {
    hide Strip, MarkerAt, MarkerText, Decimal, DigitRun, DigitsValue;
    var r := MarkerText(true, 0) + rest;
    var broken := "<$1" + r;
    var tail := "$1" + r;
    BrokenMarker(rest);
    StripKeeps(broken);
    assert broken[1..] == tail;
    StripPlain("$1", r);
    assert Strip(broken) == ['<'] + ("$1" + Strip(r));
    assert ['<'] + ("$1" + Strip(r)) == "<$1" + Strip(r);
  }

  /**
   * Regrouping the pieces of `xy<$1>z`: a concatenation fact on its own, so
   * that the proofs about `Strip` need not open every literal.
   */
  lemma TangledContents(x: char, y: char, z: char)
    ensures [x, y] + ("<$1" + (">" + [z])) == [x, y, '<', '$', '1', '>', z]
  {
  }

  /** The contents the tangled text stands for: `xy<$1>z`, not `xyz`. */
  lemma TangledStrip(x: char, y: char, z: char)
    requires x != '<' && y != '<' && z != '<'
    ensures Strip(TangledText(x, y, z)) == [x, y, '<', '$', '1', '>', z]
  {
    hide Strip, MarkerAt, MarkerText, Decimal, DigitRun, DigitsValue;
    var r := MarkerText(true, 0) + (">" + ([z] + MarkerText(true, 1)));
    var broken := "<$1" + r;
    TangledTail(z);
    BrokenStrip(">" + ([z] + MarkerText(true, 1)));
    var b := Strip(broken);
    assert b == "<$1" + (">" + [z]);
    StripStep(false, 0, [x, y], broken);
    assert TangledText(x, y, z) == MarkerText(false, 0) + ([x, y] + broken);
    TangledContents(x, y, z);
  }

  /**
   * `wwwwww<$0>x</$0>y<$1>z`, six characters of plain text `w` first: a
   * region that ends before a later caret starts, as in the text above, but
   * with more text before the closing marker.
   */
  function MisplacedPieces(x: char, y: char, z: char): seq<Piece>
  {
    [Piece(false, 0, [x]), Piece(true, 0, [y]), Piece(false, 1, [z])]
  }

  function MisplacedText(w: string, x: char, y: char, z: char): string
  {
    w + Joined(MisplacedPieces(x, y, z))
  }

  lemma MisplacedTextIs()
    ensures MisplacedText("abcdef", 'g', 'h', 'i') == "abcdef<$0>g</$0>h<$1>i"
  {
    var ps := MisplacedPieces('g', 'h', 'i');
    MarkerTexts();
    assert ps[1..][1..][1..] == [];
  }

  lemma MisplacedFounds(x: char, y: char, z: char)
    ensures Founds(MisplacedPieces(x, y, z), 6) == [Found(6, 4, false, 0), Found(11, 5, true, 0), Found(17, 4, false, 1)]
  {
    var ps := MisplacedPieces(x, y, z);
    MarkerTextLength(false, 0);
    MarkerTextLength(true, 0);
    MarkerTextLength(false, 1);
    assert ps[2..][1..] == [] && ps[1..][1..] == ps[2..];
    FoundsStep(ps[2..], 17);
    FoundsStep(ps[1..], 11);
    FoundsStep(ps, 6);
  }

  /** The text is `w` and then its pieces, whose plain texts hold no `<`. */
  lemma MisplacedParts(w: string, x: char, y: char, z: char)
    requires x != '<' && y != '<' && z != '<'
    ensures PlainPieces(MisplacedPieces(x, y, z))
    ensures MisplacedText(w, x, y, z) == w + Joined(MisplacedPieces(x, y, z))
  {
  }

  /** The markers `parse` finds in that text, at their positions in it. */
  lemma MisplacedScan(w: string, x: char, y: char, z: char)
    requires |w| == 6 && NoOpen(w) && x != '<' && y != '<' && z != '<'
    ensures Scan(MisplacedText(w, x, y, z), 0) == [Found(6, 4, false, 0), Found(11, 5, true, 0), Found(17, 4, false, 1)]
  {
    hide *;
    var ps := MisplacedPieces(x, y, z);
    MisplacedParts(w, x, y, z);
    PlainPrefix(w, Joined(ps), 0, 0);
    JoinedScan(ps, 6);
    MisplacedFounds(x, y, z);
  }

  /** The text character by character. */
  lemma MisplacedSpelled(w: string, x: char, y: char, z: char)
    ensures MisplacedText(w, x, y, z) == w + "<$0>" + [x] + "</$0>" + [y] + "<$1>" + [z]
  {
    var ps := MisplacedPieces(x, y, z);
    var e: string := [];
    MarkerTexts();
    assert ps[2..][1..] == [] && ps[1..][1..] == ps[2..];
    assert Joined(ps[2..]) == "<$1>" + ([z] + e);
    assert Joined(ps[1..]) == "</$0>" + ([y] + ("<$1>" + [z]));
    assert Joined(ps) == "<$0>" + ([x] + ("</$0>" + ([y] + ("<$1>" + [z]))));
  }

  /** What `parse` as written and in text order leave of that text. */
  lemma MisplacedLayout(w: string, x: char, y: char, z: char)
    requires |w| == 6
    ensures var t := MisplacedText(w, x, y, z);
      && |t| == 22
      && t[..3] + t[12..17] + t[21..] == w[..3] + ['/', '$', '0', '>', y, z]
      && t[..6] + t[10..11] + t[16..17] + t[21..] == w + [x, y, z]
  {
    var t := MisplacedText(w, x, y, z);
    MisplacedSpelled(w, x, y, z);
    hide MisplacedText;
    assert t[..6] == w;
    assert t[10] == x && t[16] == y && t[21] == z;
    assert t[12..16] == "/$0>";
    assert t[12..17] == "/$0>" + [y];
    assert t[10..11] == [x] && t[16..17] == [y] && t[21..] == [z];
  }
}
