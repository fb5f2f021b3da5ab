/** The stripper as it runs: strings that grow, and flags, proved to write the pieces of the pass. */
module CssText {
  import opened Results
  import opened CssStripper
  import opened CssProperties
  import CssLosses
  import CssMarks

  // ---- pieces and their text ----

  predicate InSource(css: Css, pieces: seq<Piece>) {
    forall k :: 0 <= k < |pieces| && pieces[k].Copied? ==> pieces[k].at < |css|
  }

  lemma {:induction false} EraseConcat(css: Css, a: seq<Piece>, b: seq<Piece>)
    ensures Erase(css, a + b) == Erase(css, a) + Erase(css, b)
  {
    hide Units;
    if b == [] {
      assert a + b == a;
    } else {
      var n := |b| - 1;
      EraseConcat(css, a, b[..n]);
      assert (a + b)[..|a| + n] == a + b[..n];
      Regroup(Erase(css, a), Erase(css, b[..n]), Units(css, b[n]));
    }
  }

  lemma EraseOne(css: Css, p: Piece)
    ensures Erase(css, [p]) == Units(css, p) && Erase(css, []) == []
  {
    assert [p][..0] == [];
  }

  lemma EraseMarks(css: Css, pending: Option<nat>)
    ensures Erase(css, Marks(pending)) == if pending.Some? then [SEMICOLON] else []
  {
    if pending.Some? { EraseOne(css, Mark(pending.value)); }
  }

  /** Text is empty exactly when there are no pieces. */
  lemma EraseEmpty(css: Css, pieces: seq<Piece>)
    requires InSource(css, pieces)
    ensures Erase(css, pieces) == [] <==> pieces == []
  {
    if pieces != [] { assert |Units(css, pieces[|pieces| - 1])| > 0; }
  }

  lemma {:induction false} EraseRange(css: Css, from: nat, to: nat)
    requires from <= to <= |css|
    ensures Erase(css, CopiedRange(from, to)) == css[from..to]
  {
    if from < to {
      EraseRange(css, from, to - 1);
      assert CopiedRange(from, to)[..to - from - 1] == CopiedRange(from, to - 1);
      assert css[from..to] == css[from..to - 1] + [css[to - 1]];
    }
  }

  /** The last character of the text is a word character exactly when the last piece copies one. */
  lemma EraseEndsInWord(css: Css, pieces: seq<Piece>)
    requires InSource(css, pieces)
    ensures var text := Erase(css, pieces);
            EndsInWord(css, pieces) <==> text != [] && IsWord(text[|text| - 1])
  {
    if pieces != [] {
      var last := Units(css, pieces[|pieces| - 1]);
      assert last != [] && Erase(css, pieces)[|Erase(css, pieces)| - 1] == last[|last| - 1];
    }
  }

  lemma LastPiece(css: Css, m: Machine, i: nat)
    requires i < |css|
    ensures InSource(css, [Copied(i)])
    ensures var pieces := Appended(m, [Copied(i)]).segment;
            pieces != [] && Erase(css, pieces) == Erase(css, pieces[..|pieces| - 1]) + [css[i]]
  {
    hide Erase;
    var pieces := Appended(m, [Copied(i)]).segment;
    assert pieces == pieces[..|pieces| - 1] + [Copied(i)];
    EraseConcat(css, pieces[..|pieces| - 1], [Copied(i)]);
    EraseOne(css, Copied(i));
  }

  /** The text of a segment after appending. */
  lemma AppendedText(css: Css, m: Machine, pieces: seq<Piece>)
    requires InSource(css, m.segment) && InSource(css, pieces)
    ensures var segment, text := Erase(css, m.segment), Erase(css, pieces);
            && InSource(css, Appended(m, pieces).segment)
            && Erase(css, Appended(m, pieces).segment)
               == (if m.pendingSpace && segment != [] then segment + [SPACE] else segment) + text
  {
    hide Erase;
    EraseEmpty(css, m.segment);
    var gap := if m.pendingSpace && m.segment != [] then [Gap] else [];
    EraseOne(css, Gap);
    assert Appended(m, pieces).segment == m.segment + gap + pieces;
    assert InSource(css, m.segment + gap + pieces);
    hide InSource, Appended;
    EraseConcat(css, m.segment, gap);
    EraseConcat(css, m.segment + gap, pieces);
  }

  // ---- trimming text ----

  function TrimEnd(s: Css): Css {
    if s != [] && IsSpace(s[|s| - 1]) then TrimEnd(s[..|s| - 1]) else s
  }

  function TrimStart(s: Css): Css {
    if s != [] && IsSpace(s[0]) then TrimStart(s[1..]) else s
  }

  lemma {:induction false} EraseTrimmedEnd(css: Css, pieces: seq<Piece>)
    requires InSource(css, pieces)
    ensures Erase(css, TrimmedEnd(css, pieces)) == TrimEnd(Erase(css, pieces))
  {
    if pieces != [] {
      var n := |pieces| - 1;
      var last := Units(css, pieces[n]);
      var text := Erase(css, pieces);
      assert last != [] && text[|text| - 1] == last[|last| - 1];
      if IsBlank(css, pieces[n]) {
        assert |last| == 1 && text[..|text| - 1] == Erase(css, pieces[..n]);
        EraseTrimmedEnd(css, pieces[..n]);
      }
    }
  }

  /** The first piece is blank exactly when the text starts with whitespace. */
  lemma FirstUnit(css: Css, pieces: seq<Piece>)
    requires InSource(css, pieces) && pieces != []
    ensures var text := Erase(css, pieces);
            && text != [] && (IsBlank(css, pieces[0]) <==> IsSpace(text[0]))
            && (IsBlank(css, pieces[0]) ==> text[1..] == Erase(css, pieces[1..]))
  {
    hide Erase, Units, IsBlank, IsSpace;
    EraseOne(css, pieces[0]);
    EraseConcat(css, [pieces[0]], pieces[1..]);
    assert pieces == [pieces[0]] + pieces[1..];
    UnitsOfBlank(css, pieces[0]);
  }

  lemma UnitsOfBlank(css: Css, p: Piece)
    requires p.Copied? ==> p.at < |css|
    ensures Units(css, p) != [] && (IsBlank(css, p) <==> IsSpace(Units(css, p)[0])) && (IsBlank(css, p) ==> |Units(css, p)| == 1)
  {
  }

  lemma {:induction false} EraseTrimmedStart(css: Css, pieces: seq<Piece>)
    requires InSource(css, pieces)
    ensures Erase(css, TrimmedStart(css, pieces)) == TrimStart(Erase(css, pieces))
  {
    hide Erase, IsBlank, IsSpace;
    if pieces != [] {
      FirstUnit(css, pieces);
      if IsBlank(css, pieces[0]) { EraseTrimmedStart(css, pieces[1..]); }
    } else {
      EraseOne(css, Gap);
    }
  }

  /** The closing quote from `start` on; an escape skips a character. */
  method FindQuote(css: Css, quote: Unit, start: nat) returns (end: nat)
    ensures end == StringEnd(css, quote, start)
  {
    end := start;
    while end < |css| && css[end] != quote
      invariant StringEnd(css, quote, end) == StringEnd(css, quote, start)
    {
      end := end + if css[end] == BACKSLASH then 2 else 1;
    }
  }

  // ---- the object ----

  class Stripper {
    const css: Css
    var out: Css
    var segment: Css
    var pendingSpace: bool
    var pendingSemicolon: bool
    var parenDepth: nat
    var valueStart: int
    ghost var m: Machine

    /** The strings are the text of the pieces, the flags are the pass's flags, and valueStart is the index of a
        colon in the segment. */
    ghost predicate Valid()
      reads this
    {
      && out == Erase(css, m.out) && segment == Erase(css, m.segment) && InSource(css, m.segment)
      && pendingSpace == m.pendingSpace && pendingSemicolon == m.pendingSemicolon.Some? && parenDepth == m.depth
      && ValueAtColon(css, m)
      && match m.valueStart
         case None => valueStart == -1
         case Some(v) => valueStart == |Erase(css, m.segment[..v])| && valueStart < |segment| && segment[valueStart] == COLON
    }

    constructor (css: Css)
      ensures Valid() && this.css == css && m == START
    {
      this.css := css;
      out, segment := [], [];
      pendingSpace, pendingSemicolon, parenDepth, valueStart := false, false, 0, -1;
      m := START;
    }

    /** append. */
    method Append(text: Css, ghost pieces: seq<Piece>)
      requires Valid() && text == Erase(css, pieces) && InSource(css, pieces)
      modifies this
      ensures Valid() && m == Appended(old(m), pieces)
    {
      hide Erase, InSource;
      AppendedText(css, m, pieces);
      ghost var before := m.segment;
      if pendingSpace && segment != [] { segment := segment + [SPACE]; }
      pendingSpace := false;
      segment := segment + text;
      m := Appended(m, pieces);
      assert before <= m.segment && (m.valueStart.Some? ==> m.segment[..m.valueStart.value] == before[..m.valueStart.value]);
    }

    /** endSegment. */
    method EndSegment()
      requires Valid()
      modifies this
      ensures Valid() && m == Ended(css, old(m))
    {
      hide Erase, Trimmed, TrimEnd, TrimStart, IsSpace;
      TrimmedText();
      ghost var pieces := Trimmed(css, m);
      if valueStart >= 0 {
        var name := TrimEnd(segment[..valueStart]);
        segment := name + [COLON] + TrimStart(segment[valueStart + 1..]);
      }
      ghost var mark := if pieces != [] then Marks(m.pendingSemicolon) else [];
      EraseConcat(css, m.out, mark);
      EraseConcat(css, m.out + mark, pieces);
      EraseMarks(css, m.pendingSemicolon);
      EraseOne(css, Gap);
      if segment != [] && pendingSemicolon { out := out + [SEMICOLON]; }
      if segment != [] { pendingSemicolon := false; }
      out := out + segment;
      segment := [];
      pendingSpace, parenDepth, valueStart := false, 0, -1;
      m := Ended(css, m);
    }

    /** The text of the trimmed pieces is the trimmed text. */
    lemma TrimmedText()
      requires Valid()
      ensures var text := Erase(css, Trimmed(css, m));
              && text == (if valueStart < 0 then segment
                          else TrimEnd(segment[..valueStart]) + [COLON] + TrimStart(segment[valueStart + 1..]))
              && (text == [] <==> Trimmed(css, m) == [])
    {
      hide Erase;
      match m.valueStart
      case None => EraseEmpty(css, m.segment);
      case Some(v) =>
        var name, colon, value := m.segment[..v], [m.segment[v]], m.segment[v + 1..];
        assert m.segment == name + colon + value;
        EraseConcat(css, name + colon, value);
        EraseConcat(css, name, colon);
        EraseOne(css, m.segment[v]);
        EraseTrimmedEnd(css, name);
        EraseTrimmedStart(css, value);
        var name', value' := TrimmedEnd(css, name), TrimmedStart(css, value);
        EraseConcat(css, name' + colon, value');
        EraseConcat(css, name', colon);
        hide TrimmedEnd, TrimmedStart, TrimEnd, TrimStart;
        assert segment[..valueStart] == Erase(css, name) && segment[valueStart + 1..] == Erase(css, value);
    }

    /** A run of source characters, copied as written. */
    method AppendSlice(from: nat, to: nat)
      requires Valid() && from <= to <= |css|
      modifies this
      ensures Valid() && m == Appended(old(m), CopiedRange(from, to))
    {
      EraseRange(css, from, to);
      Append(css[from..to], CopiedRange(from, to));
    }

    method CountParen(i: nat)
      requires Valid() && i < |css|
      modifies this
      ensures Valid() && m == old(m).(depth := DepthAfter(css, i, old(m).depth, Text, i + 1))
    {
      hide Erase, InSource;
      if css[i] == OPEN_PAREN { parenDepth := parenDepth + 1; }
      if css[i] == CLOSE_PAREN && parenDepth > 0 { parenDepth := parenDepth - 1; }
      m := m.(depth := parenDepth);
    }

    /** The last branch: parentheses, other characters, and the first colon of a declaration. */
    method AppendOrdinary(i: nat)
      requires Valid() && i < |css|
      modifies this
      ensures Valid() && m == Ordinary(css, old(m), i)
    {
      hide Erase, InSource;
      EraseOne(css, Copied(i));
      LastPiece(css, m, i);
      ColonRecorded(css, m, i);
      CountParen(i);
      Append([css[i]], [Copied(i)]);
      hide Appended, ValueAtColon;
      if css[i] == COLON && parenDepth == 0 && valueStart < 0 && !(segment != [] && segment[0] == AT) {
        valueStart := |segment| - 1;
        m := m.(valueStart := Some(|m.segment| - 1));
      }
    }

    method OpenBlock(i: nat)
      requires Valid() && i < |css| && css[i] == OPEN_BRACE
      modifies this
      ensures var m' := Ended(css, old(m).(valueStart := None));
              Valid() && m == m'.(out := m'.out + [Copied(i)])
    {
      hide Erase, Ended;
      valueStart := -1;
      m := m.(valueStart := None);
      EndSegment();
      WriteOut(i);
    }

    method EndStatement(i: nat)
      requires Valid() && i < |css| && css[i] == SEMICOLON
      modifies this
      ensures var m' := Ended(css, old(m));
              Valid() && m == if old(m).segment != [] then m'.(pendingSemicolon := Some(i)) else m'
    {
      hide Erase, Ended;
      EraseEmpty(css, m.segment);
      var hadStatement := segment != [];
      EndSegment();
      if hadStatement {
        pendingSemicolon := true;
        m := m.(pendingSemicolon := Some(i));
      }
    }

    method CloseBlock(i: nat)
      requires Valid() && i < |css| && css[i] == CLOSE_BRACE
      modifies this
      ensures var m' := Ended(css, old(m));
              Valid() && m == m'.(out := m'.out + [Copied(i)], pendingSemicolon := None)
    {
      hide Erase, Ended;
      EndSegment();
      pendingSemicolon := false;
      m := m.(pendingSemicolon := None);
      WriteOut(i);
    }

    /** One turn of the loop; the answer may lie past the end. */
    method Advance(i: nat) returns (next: nat)
      requires Valid() && i < |css|
      modifies this
      ensures Valid() && m == Step(css, old(m), i).0 && Clip(css, next) == Step(css, old(m), i).1
    {
      hide Erase, UrlAt, IsSpace, IsWord, Ended, Ordinary, Appended, AfterComment, AfterParen;
      var unit := css[i];
      EraseEndsInWord(css, m.segment);
      EraseEmpty(css, m.segment);
      var atTokenStart := pendingSpace || !(segment != [] && IsWord(segment[|segment| - 1]));
      if CommentAt(css, i) {
        next := AfterComment(css, i + 2);
        if !pendingSpace && segment != [] && next < |css| && !Breaks(css[next]) {
          EraseOne(css, EmptyComment);
          Append([SLASH, STAR, STAR, SLASH], [EmptyComment]);
        }
      } else if IsSpace(unit) {
        pendingSpace := true;
        m := m.(pendingSpace := true);
        next := i + 1;
      } else if unit == DOUBLE_QUOTE || unit == SINGLE_QUOTE {
        var end := FindQuote(css, unit, i + 1);
        AppendSlice(i, Clip(css, end + 1));
        next := end + 1;
      } else if unit == BACKSLASH {
        AppendSlice(i, Clip(css, i + 2));
        next := i + 2;
      } else if atTokenStart && UrlAt(css, i) {
        next := AfterParen(css, i);
        AppendSlice(i, next);
      } else if parenDepth == 0 && unit == OPEN_BRACE {
        OpenBlock(i);
        next := i + 1;
      } else if parenDepth == 0 && unit == SEMICOLON {
        EndStatement(i);
        next := i + 1;
      } else if parenDepth == 0 && unit == CLOSE_BRACE {
        CloseBlock(i);
        next := i + 1;
      } else {
        AppendOrdinary(i);
        next := i + 1;
      }
    }

    method WriteOut(i: nat)
      requires Valid() && i < |css|
      modifies this
      ensures Valid() && m == old(m).(out := old(m).out + [Copied(i)])
    {
      hide Erase;
      EraseConcat(css, m.out, [Copied(i)]);
      EraseOne(css, Copied(i));
      out := out + [css[i]];
      m := m.(out := m.out + [Copied(i)]);
    }
  }

  /** stripCssCommentsAndWhitespace: the text of pieces that copy the text but for what is dropped, bring nothing
      together, and have a semicolon for each separator that is written. */
  method StripCssCommentsAndWhitespace(css: Css) returns (r: Css)
    ensures r == Erase(css, Stripped(css))
    ensures Neighbours(css, Stripped(css))
    ensures CssLosses.CopiesOf(Stripped(css)) == CssLosses.Without(Kept(css, 0, false, 0), CssLosses.Dropped(css))
    ensures CssMarks.MarksOf(Stripped(css)) == CssMarks.Marked(css, 0, false, 0, CssMarks.IDLE)
    ensures CssMarks.InPlace(css, Stripped(css))
  {
    hide Erase, Step, Ended, Kept, Neighbours;
    hide CssLosses.CopiesOf, CssLosses.Without, CssLosses.Dropped, CssMarks.MarksOf, CssMarks.Marked, CssMarks.InPlace;
    NothingIsBroughtTogether(css);
    CssLosses.OnlyTheDroppedIsLost(css);
    CssMarks.MarksStandForSeparators(css);
    var s := new Stripper(css);
    var i := 0;
    while i < |css|
      invariant s.Valid() && s.css == css && Run(css, s.m, i) == Stripped(css)
      decreases |css| - i
    {
      var next := s.Advance(i);
      i := next;
    }
    s.EndSegment();
    EraseConcat(css, s.m.out, Marks(s.m.pendingSemicolon));
    EraseMarks(css, s.m.pendingSemicolon);
    return if s.pendingSemicolon then s.out + [SEMICOLON] else s.out;
  }
}
