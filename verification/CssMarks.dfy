/** Which separators the stripper writes, and where. */
module CssMarks {
  import opened Results
  import opened CssStripper
  import opened CssProperties
  import opened CssLosses

  // ---- read off the text ----

  /** Between statements: whether one has begun, the separator that ended the one before and is still to be written, and
      whether a brace was opened since. */
  datatype Waiting = Waiting(begun: bool, separator: Option<nat>, overtaken: bool)

  const IDLE := Waiting(false, None, false)

  function Wait(css: Css, i: nat, lexeme: Lexeme, depth: nat, w: Waiting): Waiting
    requires i < |css|
  {
    match lexeme
    case Comment => w
    case Blank => w
    case Separator => if w.begun then Waiting(false, Some(i), false) else w
    case Text =>
      if !IsBrace(css, i, depth) then w.(begun := true)
      else if css[i] == OPEN_BRACE && !w.begun then w.(overtaken := w.separator.Some?)
      else IDLE
  }

  predicate EndsStatement(css: Css, i: nat, lexeme: Lexeme, depth: nat)
    requires i < |css|
  {
    lexeme == Separator || (lexeme == Text && IsBrace(css, i, depth))
  }

  /** What is written when the lexeme at `i` ends a statement. */
  function MarkedAt(css: Css, i: nat, lexeme: Lexeme, depth: nat, w: Waiting): seq<nat>
    requires i < |css|
  {
    if w.begun && EndsStatement(css, i, lexeme, depth) then Pick(w.separator) else []
  }

  /** The separators that are written: those that ended a statement, unless a closing brace comes before more text. */
  function Marked(css: Css, i: nat, word: bool, depth: nat, w: Waiting): seq<nat>
    decreases |css| - i
  {
    if i >= |css| then Pick(w.separator)
    else
      var (lexeme, end) := LexemeAt(css, i, word, depth);
      MarkedAt(css, i, lexeme, depth, w)
      + Marked(css, end, WordAfter(css, lexeme, end), DepthAfter(css, i, depth, lexeme, end), Wait(css, i, lexeme, depth, w))
  }

  predicate MovesAt(css: Css, i: nat, lexeme: Lexeme, depth: nat, w: Waiting)
    requires i < |css|
  {
    w.begun && EndsStatement(css, i, lexeme, depth) && w.separator.Some? && w.overtaken
  }

  /** Some separator that is written has an opening brace between it and the next text. */
  predicate Moves(css: Css, i: nat, word: bool, depth: nat, w: Waiting)
    decreases |css| - i
  {
    if i >= |css| then w.separator.Some? && w.overtaken
    else
      var (lexeme, end) := LexemeAt(css, i, word, depth);
      || MovesAt(css, i, lexeme, depth, w)
      || Moves(css, end, WordAfter(css, lexeme, end), DepthAfter(css, i, depth, lexeme, end), Wait(css, i, lexeme, depth, w))
  }

  // ---- the marks of some pieces ----

  function MarksOf(pieces: seq<Piece>): seq<nat> {
    if pieces == [] then [] else MarksOf(pieces[..|pieces| - 1]) + MarkOf(pieces[|pieces| - 1])
  }

  function MarkOf(p: Piece): seq<nat> { if p.Mark? then [p.at] else [] }

  lemma {:induction false} MarksConcat(a: seq<Piece>, b: seq<Piece>)
    ensures MarksOf(a + b) == MarksOf(a) + MarksOf(b)
  {
    hide MarkOf;
    if b == [] {
      assert a + b == a;
    } else {
      var n := |b| - 1;
      MarksConcat(a, b[..n]);
      assert (a + b)[..|a| + n] == a + b[..n];
      Regroup(MarksOf(a), MarksOf(b[..n]), MarkOf(b[n]));
    }
  }

  predicate Unmarked(pieces: seq<Piece>) { forall k :: 0 <= k < |pieces| ==> !pieces[k].Mark? }

  lemma {:induction false} UnmarkedHasNone(pieces: seq<Piece>)
    requires Unmarked(pieces)
    ensures MarksOf(pieces) == []
  {
    if pieces != [] { UnmarkedHasNone(pieces[..|pieces| - 1]); }
  }

  lemma MarksOfMarks(pending: Option<nat>)
    ensures MarksOf(Marks(pending)) == Pick(pending)
  {
    if pending.Some? { assert Marks(pending)[..0] == []; }
  }

  // ---- where they stand ----

  predicate Positioned(p: Piece) { p.Copied? || p.Mark? }

  predicate Opens(css: Css, p: Piece) { p.Copied? && p.at < |css| && css[p.at] == OPEN_BRACE }

  /** `a` comes before `b` in the source; or `a` is an opening brace and `b` a separator it has overtaken. */
  predicate Before(css: Css, a: Piece, b: Piece) {
    Positioned(a) && Positioned(b) ==> a.at < b.at || (Opens(css, a) && b.Mark?)
  }

  predicate InPlace(css: Css, pieces: seq<Piece>) {
    forall j, k :: 0 <= j < k < |pieces| ==> Before(css, pieces[j], pieces[k])
  }

  predicate BelowAll(pieces: seq<Piece>, i: nat) {
    forall k :: 0 <= k < |pieces| && Positioned(pieces[k]) ==> pieces[k].at < i
  }

  predicate AboveAll(pieces: seq<Piece>, i: nat) {
    forall k :: 0 <= k < |pieces| && Positioned(pieces[k]) ==> pieces[k].at >= i
  }

  /** Source order, for all pieces. */
  predicate InOrder(pieces: seq<Piece>) {
    forall j, k :: 0 <= j < k < |pieces| && Positioned(pieces[j]) && Positioned(pieces[k]) ==> pieces[j].at < pieces[k].at
  }

  lemma InPlaceConcat(css: Css, a: seq<Piece>, b: seq<Piece>)
    requires InPlace(css, a) && InPlace(css, b)
    requires forall j, k :: 0 <= j < |a| && 0 <= k < |b| ==> Before(css, a[j], b[k])
    ensures InPlace(css, a + b)
  {
    hide Before;
    forall j, k | 0 <= j < k < |a + b| ensures Before(css, (a + b)[j], (a + b)[k]) {
      if j >= |a| { assert Before(css, b[j - |a|], b[k - |a|]); }
    }
  }

  /** What lies below and what lies above. */
  lemma Stacked(css: Css, a: seq<Piece>, b: seq<Piece>, i: nat)
    requires InPlace(css, a) && InPlace(css, b) && BelowAll(a, i) && AboveAll(b, i)
    ensures InPlace(css, a + b)
  {
    forall j, k | 0 <= j < |a| && 0 <= k < |b| ensures Before(css, a[j], b[k]) {}
    hide Before;
    InPlaceConcat(css, a, b);
  }

  /** Dropping pieces from the middle. */
  lemma DropMiddle(css: Css, a: seq<Piece>, b: seq<Piece>, c: seq<Piece>, i: nat)
    requires InPlace(css, a + b + c) && BelowAll(a + b + c, i)
    ensures InPlace(css, a + c) && BelowAll(a + c, i)
  {
    hide Before;
    var s := a + b + c;
    forall k | 0 <= k < |a + c| ensures (a + c)[k] == s[if k < |a| then k else k + |b|] {}
    hide Positioned;
    forall j, k | 0 <= j < k < |a + c| ensures Before(css, (a + c)[j], (a + c)[k]) {
      var j', k' := if j < |a| then j else j + |b|, if k < |a| then k else k + |b|;
      assert Before(css, s[j'], s[k']);
    }
  }

  // ---- trimming only drops ----

  lemma {:induction false} TrimmedEndIsPrefix(css: Css, pieces: seq<Piece>)
    ensures TrimmedEnd(css, pieces) <= pieces
  {
    if pieces != [] && IsBlank(css, pieces[|pieces| - 1]) { TrimmedEndIsPrefix(css, pieces[..|pieces| - 1]); }
  }

  lemma {:induction false} TrimmedStartIsSuffix(css: Css, pieces: seq<Piece>)
    ensures var t := TrimmedStart(css, pieces); |t| <= |pieces| && t == pieces[|pieces| - |t|..]
  {
    if pieces != [] && IsBlank(css, pieces[0]) { TrimmedStartIsSuffix(css, pieces[1..]); }
  }

  lemma TrimmedUnmarked(css: Css, m: Machine)
    requires Unmarked(m.segment)
    ensures Unmarked(Trimmed(css, m))
  {
    if m.valueStart.Some? && m.valueStart.value < |m.segment| {
      var v := m.valueStart.value;
      TrimmedEndIsPrefix(css, m.segment[..v]);
      TrimmedStartIsSuffix(css, m.segment[v + 1..]);
    }
  }

  lemma TrimmedInPlace(css: Css, line: seq<Piece>, m: Machine, i: nat)
    requires InPlace(css, line + m.segment) && BelowAll(line + m.segment, i)
    ensures InPlace(css, line + Trimmed(css, m)) && BelowAll(line + Trimmed(css, m), i)
  {
    if m.valueStart.Some? && m.valueStart.value < |m.segment| {
      var v := m.valueStart.value;
      var name, colon, value := m.segment[..v], [m.segment[v]], m.segment[v + 1..];
      TrimmedEndIsPrefix(css, name);
      TrimmedStartIsSuffix(css, value);
      var name', value' := TrimmedEnd(css, name), TrimmedStart(css, value);
      hide InPlace, BelowAll, TrimmedEnd, TrimmedStart;
      var gone, gone' := name[|name'|..], value[..|value| - |value'|];
      assert name == name' + gone && value == gone' + value' && m.segment == name + colon + value;
      DropTwo(css, line, name', gone, colon, gone', value', i);
    }
  }

  lemma DropTwo(css: Css, line: seq<Piece>, a: seq<Piece>, b: seq<Piece>, c: seq<Piece>, d: seq<Piece>, e: seq<Piece>, i: nat)
    requires var all := line + ((a + b) + c + (d + e)); InPlace(css, all) && BelowAll(all, i)
    ensures var rest := line + (a + c + e); InPlace(css, rest) && BelowAll(rest, i)
  {
    hide InPlace, BelowAll;
    assert line + ((a + b) + c + (d + e)) == (line + a) + b + (c + (d + e));
    DropMiddle(css, line + a, b, c + (d + e), i);
    assert (line + a) + (c + (d + e)) == (line + a + c) + d + e;
    DropMiddle(css, line + a + c, d, e, i);
    assert (line + a + c) + e == line + (a + c + e);
  }

  // ---- the machine ----

  /** What is written, what waits to be written, and the segment. */
  function Line(m: Machine): seq<Piece> { m.out + Marks(m.pendingSemicolon) + m.segment }

  predicate LineInPlace(css: Css, m: Machine, i: nat) { InPlace(css, Line(m)) && BelowAll(Line(m), i) }

  /** Everything is in source order, but for what has moved; and the waiting separator lies behind everything, unless
      it has been overtaken. */
  predicate Orders(m: Machine, overtaken: bool, moved: bool) {
    && (InOrder(m.out) <==> !moved)
    && (m.pendingSemicolon.Some? ==> (overtaken <==> !BelowAll(m.out, m.pendingSemicolon.value)))
  }

  predicate Waits(css: Css, m: Machine, w: Waiting, i: nat, marks: seq<nat>, moved: bool) {
    && w.begun == (m.segment != []) && w.separator == m.pendingSemicolon && Unmarked(m.segment)
    && MarksOf(m.out) == marks && LineInPlace(css, m, i) && Orders(m, w.overtaken, moved)
  }

  lemma RangeInPlace(css: Css, i: nat, end: nat)
    requires i <= end
    ensures var text := CopiedRange(i, end);
            InPlace(css, text) && AboveAll(text, i) && BelowAll(text, end) && Unmarked(text)
  {
  }

  lemma LinkInPlace(css: Css, m: Machine, i: nat)
    ensures InPlace(css, LinkOf(m)) && AboveAll(LinkOf(m), i) && BelowAll(LinkOf(m), i) && Unmarked(LinkOf(m))
  {
  }

  lemma BelowConcat(a: seq<Piece>, b: seq<Piece>, i: nat, end: nat)
    requires BelowAll(a, i) && BelowAll(b, end) && i <= end
    ensures BelowAll(a + b, end)
  {
  }

  /** More of the segment. */
  lemma LineGrows(css: Css, m: Machine, m': Machine, text: seq<Piece>, i: nat, end: nat)
    requires LineInPlace(css, m, i) && i <= end && Unmarked(m.segment)
    requires m'.out == m.out && m'.pendingSemicolon == m.pendingSemicolon && m'.segment == m.segment + LinkOf(m) + text
    requires InPlace(css, text) && AboveAll(text, i) && BelowAll(text, end) && Unmarked(text)
    ensures LineInPlace(css, m', end) && Unmarked(m'.segment)
  {
    LinkInPlace(css, m, i);
    hide InPlace, BelowAll, AboveAll, LinkOf;
    Stacked(css, Line(m), LinkOf(m), i);
    BelowConcat(Line(m), LinkOf(m), i, i);
    Stacked(css, Line(m) + LinkOf(m), text, i);
    BelowConcat(Line(m) + LinkOf(m), text, i, end);
    assert Line(m') == Line(m) + LinkOf(m) + text;
  }

  lemma TextWaits(css: Css, m: Machine, w: Waiting, i: nat, end: nat, marks: seq<nat>, moved: bool)
    requires i < end <= |css| && Waits(css, m, w, i, marks, moved)
    ensures Waits(css, TextRead(css, m, i, end), w.(begun := true), end, marks, moved)
  {
    var m' := TextRead(css, m, i, end);
    RangeInPlace(css, i, end);
    hide InPlace, BelowAll, AboveAll, LineInPlace, Unmarked, InOrder, MarksOf, StartsValue;
    LineGrows(css, m, m', CopiedRange(i, end), i, end);
  }

  lemma CommentWaits(css: Css, m: Machine, w: Waiting, i: nat, end: nat, marks: seq<nat>, moved: bool)
    requires i <= end && Waits(css, m, w, i, marks, moved)
    ensures Waits(css, Commented(css, m, end), w, end, marks, moved)
  {
    LaterInPlace(css, m, i, end);
    if Commented(css, m, end) != m {
      var text := [EmptyComment];
      assert InPlace(css, text) && AboveAll(text, i) && BelowAll(text, end) && Unmarked(text);
      hide InPlace, BelowAll, AboveAll, LineInPlace, Unmarked, InOrder, MarksOf, Breaks;
      LineGrows(css, m, Commented(css, m, end), text, i, end);
    }
  }

  lemma LaterInPlace(css: Css, m: Machine, i: nat, end: nat)
    requires LineInPlace(css, m, i) && i <= end
    ensures LineInPlace(css, m, end)
  {
    hide InPlace;
  }

  lemma BlankWaits(css: Css, m: Machine, w: Waiting, i: nat, end: nat, marks: seq<nat>, moved: bool)
    requires i <= end && Waits(css, m, w, i, marks, moved)
    ensures Waits(css, m.(pendingSpace := true), w, end, marks, moved)
  {
    hide InPlace;
  }

  /** Writing a waiting separator and text behind what is written keeps the order, unless it was overtaken. */
  lemma OrderOf(css: Css, out: seq<Piece>, pending: Option<nat>, text: seq<Piece>)
    requires InPlace(css, out + Marks(pending) + text) && Unmarked(text)
    ensures InOrder(out + Marks(pending) + text)
       <==> InOrder(out) && (pending.Some? ==> BelowAll(out, pending.value))
  {
    var all := out + Marks(pending) + text;
    if InOrder(all) {
      assert out <= all;
      if pending.Some? { assert all[|out|] == Mark(pending.value); }
    }
    if InOrder(out) && (pending.Some? ==> BelowAll(out, pending.value)) {
      forall j, k | 0 <= j < k < |all| && Positioned(all[j]) && Positioned(all[k]) ensures all[j].at < all[k].at {
        assert Before(css, all[j], all[k]);
        if k >= |out| + |Marks(pending)| { assert all[k] == text[k - |out| - |Marks(pending)|]; }
      }
    }
  }

  /** Ending a segment writes the waiting separator, if there is text to write behind it. */
  lemma EndingWrites(css: Css, m: Machine, w: Waiting, i: nat, marks: seq<nat>, moved: bool)
    requires Shape(css, m, i) && Waits(css, m, w, i, marks, moved)
    ensures var m' := Ended(css, m);
            && m'.segment == [] && LineInPlace(css, m', i)
            && MarksOf(m'.out) == marks + (if w.begun then Pick(w.separator) else [])
            && m'.pendingSemicolon == (if w.begun then None else w.separator)
            && Orders(m', w.overtaken, moved || (w.begun && w.separator.Some? && w.overtaken))
  {
    TrimmedKeeps(css, m);
    hide Shape, Neighbours, Trimmed;
    if m.segment == [] {
      hide InPlace, InOrder, BelowAll, MarksOf;
      assert Ended(css, m).out == m.out;
      assert marks + [] == marks;
    } else {
      SegmentWrites(css, m, w, i, marks, moved);
    }
  }

  lemma SegmentWrites(css: Css, m: Machine, w: Waiting, i: nat, marks: seq<nat>, moved: bool)
    requires m.segment != [] && Trimmed(css, m) != [] && Waits(css, m, w, i, marks, moved)
    ensures var m' := Ended(css, m);
            && m'.segment == [] && LineInPlace(css, m', i)
            && MarksOf(m'.out) == marks + Pick(w.separator) && m'.pendingSemicolon == None
            && Orders(m', w.overtaken, moved || (w.separator.Some? && w.overtaken))
  {
    var m', text, link := Ended(css, m), Trimmed(css, m), Marks(m.pendingSemicolon);
    TrimmedInPlace(css, m.out + link, m, i);
    TrimmedUnmarked(css, m);
    hide Trimmed, InPlace, BelowAll, InOrder, Unmarked, MarksOf;
    OrderOf(css, m.out, m.pendingSemicolon, text);
    MarksConcat(m.out + link, text);
    MarksConcat(m.out, link);
    MarksOfMarks(m.pendingSemicolon);
    UnmarkedHasNone(text);
    assert Line(m') == m'.out;
  }

  lemma EmptyWaits(css: Css, m: Machine, w: Waiting, i: nat, marks: seq<nat>, moved: bool)
    requires m.segment == [] && !w.begun && w.separator == m.pendingSemicolon && MarksOf(m.out) == marks
    requires LineInPlace(css, m, i) && Orders(m, w.overtaken, moved)
    ensures Waits(css, m, w, i, marks, moved)
  {
  }

  /** A separator starts to wait. */
  lemma NewSeparator(css: Css, m: Machine, i: nat, moved: bool, overtaken: bool)
    requires LineInPlace(css, m, i) && m.segment == [] && m.pendingSemicolon == None && Orders(m, overtaken, moved)
    ensures var m' := m.(pendingSemicolon := Some(i));
            LineInPlace(css, m', i + 1) && Orders(m', false, moved)
  {
    var m' := m.(pendingSemicolon := Some(i));
    assert Line(m) == m.out && Line(m') == m.out + [Mark(i)];
    var mark := [Mark(i)];
    assert InPlace(css, mark) && AboveAll(mark, i) && BelowAll(mark, i + 1);
    hide InPlace, InOrder;
    Stacked(css, m.out, mark, i);
    BelowConcat(m.out, mark, i, i + 1);
  }

  /** A brace is written, and what waits is dropped. */
  lemma BraceAlone(css: Css, m: Machine, i: nat, overtaken: bool, moved: bool)
    requires LineInPlace(css, m, i) && m.segment == [] && Orders(m, overtaken, moved)
    ensures var m' := m.(out := m.out + [Copied(i)], pendingSemicolon := None);
            LineInPlace(css, m', i + 1) && Orders(m', false, moved)
  {
    var m' := m.(out := m.out + [Copied(i)], pendingSemicolon := None);
    var brace := [Copied(i)];
    assert InPlace(css, brace) && AboveAll(brace, i) && BelowAll(brace, i + 1);
    OutInPlace(css, m, i);
    assert Line(m') == m.out + brace;
    OneMoreInOrder(m.out, Copied(i), i);
    hide InPlace, BelowAll, AboveAll, InOrder;
    Stacked(css, m.out, brace, i);
    BelowConcat(m.out, brace, i, i + 1);
  }

  lemma OneMoreInOrder(out: seq<Piece>, p: Piece, i: nat)
    requires BelowAll(out, i) && p == Copied(i)
    ensures InOrder(out + [p]) <==> InOrder(out)
  {
    var all := out + [p];
    if InOrder(all) { assert forall k :: 0 <= k < |out| ==> all[k] == out[k]; }
  }

  lemma OutInPlace(css: Css, m: Machine, i: nat)
    requires LineInPlace(css, m, i)
    ensures InPlace(css, m.out) && BelowAll(m.out, i)
  {
    hide Before;
    assert m.out <= Line(m);
    forall j, k | 0 <= j < k < |m.out| ensures Before(css, m.out[j], m.out[k]) {
      assert Before(css, Line(m)[j], Line(m)[k]);
    }
    forall k | 0 <= k < |m.out| && Positioned(m.out[k]) ensures m.out[k].at < i {
      assert Positioned(Line(m)[k]);
    }
  }

  /** An opening brace overtakes what waits. */
  lemma BraceOvertakes(css: Css, m: Machine, i: nat, overtaken: bool, moved: bool)
    requires i < |css| && css[i] == OPEN_BRACE
    requires LineInPlace(css, m, i) && m.segment == [] && m.pendingSemicolon.Some? && Orders(m, overtaken, moved)
    ensures var m' := m.(out := m.out + [Copied(i)]);
            LineInPlace(css, m', i + 1) && Orders(m', true, moved)
  {
    var s := m.pendingSemicolon.value;
    var m', mark := m.(out := m.out + [Copied(i)]), [Mark(s)];
    assert Line(m) == m.out + mark && Line(m)[|m.out|] == Mark(s);
    BraceAlone(css, m, i, overtaken, moved);
    assert Line(m.(out := m'.out, pendingSemicolon := None)) == m'.out;
    assert Line(m') == m'.out + mark;
    forall j, k | 0 <= j < |m'.out| && 0 <= k < |mark| ensures Before(css, m'.out[j], mark[k]) {
      if j < |m.out| { assert Before(css, Line(m)[j], Line(m)[|m.out|]); }
    }
    assert InPlace(css, mark) && BelowAll(mark, i + 1);
    assert !BelowAll(m'.out, s) by { assert m'.out[|m.out|] == Copied(i); }
    hide Before, InPlace, BelowAll, InOrder;
    InPlaceConcat(css, m'.out, mark);
    BelowConcat(m'.out, mark, i + 1, i + 1);
  }

  lemma SeparatorWaits(css: Css, m: Machine, w: Waiting, i: nat, depth: nat, marks: seq<nat>, moved: bool)
    requires i < |css| && Shape(css, m, i) && Waits(css, m, w, i, marks, moved)
    ensures Waits(css, SeparatorRead(css, m, i), Wait(css, i, Separator, depth, w), i + 1,
                  marks + MarkedAt(css, i, Separator, depth, w), moved || MovesAt(css, i, Separator, depth, w))
  {
    EndingWrites(css, m, w, i, marks, moved);
    hide Shape, LineInPlace, Orders, Ended, MarksOf, Unmarked;
    var m', moved' := Ended(css, m), moved || MovesAt(css, i, Separator, depth, w);
    if w.begun { NewSeparator(css, m', i, moved', w.overtaken); } else { LaterInPlace(css, m', i, i + 1); }
    EmptyWaits(css, SeparatorRead(css, m, i), Wait(css, i, Separator, depth, w), i + 1,
               marks + MarkedAt(css, i, Separator, depth, w), moved');
  }

  lemma BraceWaits(css: Css, m: Machine, w: Waiting, i: nat, depth: nat, marks: seq<nat>, moved: bool)
    requires i < |css| && IsBrace(css, i, depth) && Shape(css, m, i) && Waits(css, m, w, i, marks, moved)
    ensures Waits(css, BraceRead(css, m, i), Wait(css, i, Text, depth, w), i + 1,
                  marks + MarkedAt(css, i, Text, depth, w), moved || MovesAt(css, i, Text, depth, w))
  {
    hide Shape, Waits, MarksOf, LineInPlace, Orders, Ended;
    var n := if css[i] == OPEN_BRACE then m.(valueStart := None) else m;
    AnyValueWaits(css, m, w, i, marks, moved);
    EndingWrites(css, n, w, i, marks, moved);
    var m', moved' := Ended(css, n), moved || MovesAt(css, i, Text, depth, w);
    if css[i] == OPEN_BRACE && m'.pendingSemicolon.Some? {
      BraceOvertakes(css, m', i, w.overtaken, moved');
    } else {
      BraceAlone(css, m', i, w.overtaken, moved');
      OrdersAnyway(m'.(out := m'.out + [Copied(i)], pendingSemicolon := None), moved');
    }
    BraceIsNoMark(m'.out, i);
    EmptyWaits(css, BraceRead(css, m, i), Wait(css, i, Text, depth, w), i + 1,
               marks + MarkedAt(css, i, Text, depth, w), moved');
  }

  lemma AnyValueWaits(css: Css, m: Machine, w: Waiting, i: nat, marks: seq<nat>, moved: bool)
    requires Shape(css, m, i) && Waits(css, m, w, i, marks, moved)
    ensures var n := m.(valueStart := None); Shape(css, n, i) && Waits(css, n, w, i, marks, moved)
  {
    hide Neighbours, MarksOf, Unmarked, InPlace, InOrder, BelowAll;
  }

  lemma OrdersAnyway(m: Machine, moved: bool)
    requires m.pendingSemicolon.None? && Orders(m, false, moved)
    ensures Orders(m, true, moved)
  {
    hide InOrder;
  }

  lemma BraceIsNoMark(out: seq<Piece>, i: nat)
    ensures MarksOf(out + [Copied(i)]) == MarksOf(out)
  {
    assert (out + [Copied(i)])[..|out|] == out;
  }

  /** A lexeme later, the machine and the reading still agree. */
  lemma StepWaits(css: Css, m: Machine, i: nat, word: bool, depth: nat, w: Waiting, marks: seq<nat>, moved: bool)
    requires i < |css| && Shape(css, m, i) && m.depth == depth && Waits(css, m, w, i, marks, moved)
    ensures var (lexeme, end) := LexemeAt(css, i, word, depth);
            Waits(css, LexemeRead(css, m, i, lexeme, end), Wait(css, i, lexeme, depth, w), end,
                  marks + MarkedAt(css, i, lexeme, depth, w), moved || MovesAt(css, i, lexeme, depth, w))
  {
    var (lexeme, end) := LexemeAt(css, i, word, depth);
    BraceIsShort(css, i, word, depth);
    assert lexeme == Separator ==> end == i + 1 by { hide UrlAt, IsSpace; }
    hide Shape, TextRead, BraceRead, SeparatorRead, Commented, LexemeAt, Waits;
    assert marks + [] == marks;
    match lexeme
    case Comment => CommentWaits(css, m, w, i, end, marks, moved);
    case Blank => BlankWaits(css, m, w, i, end, marks, moved);
    case Separator => SeparatorWaits(css, m, w, i, depth, marks, moved);
    case Text =>
      if IsBrace(css, i, depth) {
        BraceWaits(css, m, w, i, depth, marks, moved);
      } else {
        TextWaits(css, m, w, i, end, marks, moved);
      }
  }

  // ---- every input ----

  lemma {:induction false} RunWrites(css: Css, m: Machine, i: nat, word: bool, depth: nat, w: Waiting,
                                     marks: seq<nat>, moved: bool)
    requires i <= |css| && Invariant(css, m, i, word, depth) && Waits(css, m, w, i, marks, moved)
    ensures MarksOf(Run(css, m, i)) == marks + Marked(css, i, word, depth, w) && InPlace(css, Run(css, m, i))
    ensures InOrder(Run(css, m, i)) <==> !(moved || Moves(css, i, word, depth, w))
    decreases |css| - i
  {
    hide Step, LexemeAt, MarksOf, InPlace, InOrder, Ended, Waits, LexemeRead, Wait, Shape, AgreesOnWord,
         MarkedAt, MovesAt;
    if i == |css| {
      FinishWrites(css, m, w, marks, moved);
    } else {
      StepKeepsInvariant(css, m, i, word, depth);
      StepReadsALexeme(css, m, i, word, depth);
      StepWaits(css, m, i, word, depth, w, marks, moved);
      hide Invariant;
      var (lexeme, end) := LexemeAt(css, i, word, depth);
      var word', depth' := NextWord(css, i, word, depth), NextDepth(css, i, word, depth);
      var w', more := Wait(css, i, lexeme, depth, w), MarkedAt(css, i, lexeme, depth, w);
      RunWrites(css, LexemeRead(css, m, i, lexeme, end), end, word', depth', w',
                marks + more, moved || MovesAt(css, i, lexeme, depth, w));
      Regroup(marks, more, Marked(css, end, word', depth', w'));
    }
  }

  lemma FinishWrites(css: Css, m: Machine, w: Waiting, marks: seq<nat>, moved: bool)
    requires Shape(css, m, |css|) && Waits(css, m, w, |css|, marks, moved)
    ensures var pieces := Run(css, m, |css|);
            && MarksOf(pieces) == marks + Pick(w.separator) && InPlace(css, pieces)
            && (InOrder(pieces) <==> !(moved || (w.separator.Some? && w.overtaken)))
  {
    EndingWrites(css, m, w, |css|, marks, moved);
    hide Shape, Waits, Ended, MarksOf, InPlace, InOrder, BelowAll;
    var m' := Ended(css, m);
    var pieces := m'.out + Marks(m'.pendingSemicolon);
    assert pieces + [] == pieces && Line(m') == pieces;
    OrderOf(css, m'.out, m'.pendingSemicolon, []);
    MarksConcat(m'.out, Marks(m'.pendingSemicolon));
    MarksOfMarks(m'.pendingSemicolon);
  }

  /** The semicolons written are, in order, the separators that end a statement with no closing brace before the next
      text; each stands in source order with everything else, but for opening braces that follow its separator. */
  lemma MarksStandForSeparators(css: Css)
    ensures MarksOf(Stripped(css)) == Marked(css, 0, false, 0, IDLE) && InPlace(css, Stripped(css))
  {
    StrippingWrites(css);
  }

  /** Everything is written in source order exactly when no such separator is followed by an opening brace. */
  lemma OrderIsKept(css: Css)
    ensures InOrder(Stripped(css)) <==> !Moves(css, 0, false, 0, IDLE)
  {
    StrippingWrites(css);
  }

  lemma StrippingWrites(css: Css)
    ensures MarksOf(Stripped(css)) == Marked(css, 0, false, 0, IDLE) && InPlace(css, Stripped(css))
    ensures InOrder(Stripped(css)) <==> !Moves(css, 0, false, 0, IDLE)
  {
    StartsInShape(css);
    RunWrites(css, START, 0, false, 0, IDLE, [], false);
  }

  /** Text before a separator and text behind it are written with the separator's semicolon between them. */
  lemma AMarkStandsBetween(css: Css, j: nat, k: nat, l: nat)
    requires j < |Stripped(css)| && k < |Stripped(css)| && l < |Stripped(css)|
    requires var a, mark, b := Stripped(css)[j], Stripped(css)[k], Stripped(css)[l];
             a.Copied? && mark.Mark? && b.Copied? && a.at < mark.at < b.at && !Opens(css, b)
    ensures j < k < l
  {
    MarksStandForSeparators(css);
    hide Stripped;
  }

  /** A semicolon before a block is written inside the block: a;{b} becomes a{;b}. */
  lemma ASemicolonMoves() returns (css: Css)
    ensures css == [0x61, SEMICOLON, OPEN_BRACE, 0x62, CLOSE_BRACE]
    ensures MarksOf(Stripped(css)) == [1] && !InOrder(Stripped(css))
  {
    hide Stripped, LexemeAt, InPlace, InOrder, MarksOf;
    css := [0x61, SEMICOLON, OPEN_BRACE, 0x62, CLOSE_BRACE];
    ItsLexemes(css);
    MarksStandForSeparators(css);
    OrderIsKept(css);
    var w := Waiting(true, Some(1), true);
    assert Marked(css, 5, false, 0, IDLE) == [];
    assert Moves(css, 4, true, 0, w) && Marked(css, 4, true, 0, w) == [1];
    assert Moves(css, 3, false, 0, w.(begun := false)) && Marked(css, 3, false, 0, w.(begun := false)) == [1];
    var w' := Waiting(false, Some(1), false);
    assert Moves(css, 2, false, 0, w') && Marked(css, 2, false, 0, w') == [1];
    assert Moves(css, 1, true, 0, Waiting(true, None, false)) && Marked(css, 1, true, 0, Waiting(true, None, false)) == [1];
  }

  lemma ItsLexemes(css: Css)
    requires css == [0x61, SEMICOLON, OPEN_BRACE, 0x62, CLOSE_BRACE]
    ensures LexemeAt(css, 0, false, 0) == (Text, 1) && LexemeAt(css, 1, true, 0) == (Separator, 2)
    ensures LexemeAt(css, 2, false, 0) == (Text, 3) && LexemeAt(css, 3, false, 0) == (Text, 4)
    ensures LexemeAt(css, 4, true, 0) == (Text, 5)
  {
  }
}
