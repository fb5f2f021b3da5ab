/** What the CSS stripper preserves, for every input. */
module CssProperties {
  import opened Results
  import opened CssStripper

  // ---- what may touch ----

  /** Copied text that touches was adjacent in the source, or touches at punctuation. */
  predicate Apart(css: Css, a: Piece, b: Piece) {
    a.Copied? && b.Copied? ==>
      || a.at + 1 == b.at
      || (a.at < |css| && Punctuates(css[a.at]))
      || (b.at < |css| && Punctuates(css[b.at]))
  }

  predicate Neighbours(css: Css, pieces: seq<Piece>) {
    forall k :: 0 < k < |pieces| ==> Apart(css, pieces[k - 1], pieces[k])
  }

  lemma NeighboursConcat(css: Css, a: seq<Piece>, b: seq<Piece>)
    requires Neighbours(css, a) && Neighbours(css, b)
    requires a == [] || b == [] || Apart(css, a[|a| - 1], b[0])
    ensures Neighbours(css, a + b)
  {
    hide Apart;
    forall k | 0 < k < |a + b| ensures Apart(css, (a + b)[k - 1], (a + b)[k]) {
      if k > |a| { assert Apart(css, b[k - |a| - 1], b[k - |a|]); }
    }
  }

  lemma RangeNeighbours(css: Css, from: nat, to: nat)
    requires from <= to
    ensures Neighbours(css, CopiedRange(from, to))
  {
  }

  // ---- trimming ----

  lemma {:induction false} TrimmedEndKeeps(css: Css, pieces: seq<Piece>)
    requires Neighbours(css, pieces)
    ensures Neighbours(css, TrimmedEnd(css, pieces))
  {
    hide IsBlank, Apart;
    if pieces != [] && IsBlank(css, pieces[|pieces| - 1]) { TrimmedEndKeeps(css, pieces[..|pieces| - 1]); }
  }

  lemma {:induction false} TrimmedStartKeeps(css: Css, pieces: seq<Piece>)
    requires Neighbours(css, pieces)
    ensures Neighbours(css, TrimmedStart(css, pieces))
  {
    hide IsBlank, Apart;
    if pieces != [] && IsBlank(css, pieces[0]) {
      SlicesKeepNeighbours(css, pieces, 0);
      TrimmedStartKeeps(css, pieces[1..]);
    }
  }

  /** The value's colon, if it is known. */
  predicate ValueAtColon(css: Css, m: Machine) {
    m.valueStart.Some? ==>
      && m.valueStart.value < |m.segment|
      && var p := m.segment[m.valueStart.value];
         p.Copied? && p.at < |css| && css[p.at] == COLON
  }

  lemma TrimmedKeeps(css: Css, m: Machine)
    requires Neighbours(css, m.segment) && ValueAtColon(css, m)
    ensures Neighbours(css, Trimmed(css, m))
    ensures Trimmed(css, m) == [] <==> m.segment == []
  {
    if m.valueStart.Some? {
      hide Neighbours;
      var v := m.valueStart.value;
      var name, colon, value := m.segment[..v], [m.segment[v]], m.segment[v + 1..];
      SlicesKeepNeighbours(css, m.segment, v);
      TrimmedEndKeeps(css, name);
      TrimmedStartKeeps(css, value);
      var name', value' := TrimmedEnd(css, name), TrimmedStart(css, value);
      hide TrimmedEnd, TrimmedStart;
      OneNeighbour(css, m.segment[v]);
      NeighboursConcat(css, name', colon);
      NeighboursConcat(css, name' + colon, value');
    }
  }

  lemma OneNeighbour(css: Css, p: Piece)
    ensures Neighbours(css, [p])
  {
  }

  lemma SlicesKeepNeighbours(css: Css, pieces: seq<Piece>, v: nat)
    requires v < |pieces| && Neighbours(css, pieces)
    ensures Neighbours(css, pieces[..v]) && Neighbours(css, pieces[v + 1..])
  {
    hide Apart;
    var value := pieces[v + 1..];
    forall k | 0 < k < |value| ensures Apart(css, value[k - 1], value[k]) {
      assert Apart(css, pieces[v + k], pieces[v + k + 1]);
    }
  }

  // ---- the invariant ----

  /** What follows may touch what has been written out. */
  predicate Closed(css: Css, m: Machine) {
    m.out == [] || m.pendingSemicolon.Some? || PunctuationPiece(css, m.out[|m.out| - 1])
  }

  predicate PunctuationPiece(css: Css, p: Piece) { p.Copied? && p.at < |css| && Punctuates(css[p.at]) }

  /** The segment ends right before `i`, or with something that separates, or `i` separates. */
  predicate Tight(css: Css, m: Machine, i: nat) {
    m.segment != [] && !m.pendingSpace && m.segment[|m.segment| - 1].Copied? ==>
      m.segment[|m.segment| - 1].at + 1 == i || i >= |css| || Breaks(css[i])
  }

  /** The machine's idea of a token start is the lexer's, wherever it matters. */
  predicate AgreesOnWord(css: Css, m: Machine, i: nat, word: bool) {
    i >= |css| || Breaks(css[i]) || ((m.pendingSpace || !EndsInWord(css, m.segment)) <==> !word)
  }

  predicate Shape(css: Css, m: Machine, i: nat) {
    && Neighbours(css, m.out) && Neighbours(css, m.segment) && ValueAtColon(css, m)
    && Closed(css, m) && Tight(css, m, i)
  }

  /** Something that separates, between two runs of pieces. */
  predicate Separates(link: seq<Piece>) { link == [] || (|link| == 1 && !link[0].Copied?) }

  lemma LinkNeighbours(css: Css, a: seq<Piece>, link: seq<Piece>, b: seq<Piece>)
    requires Neighbours(css, a) && Neighbours(css, b) && Separates(link)
    requires link != [] || a == [] || b == [] || Apart(css, a[|a| - 1], b[0])
    ensures Neighbours(css, a + link + b)
  {
    NeighboursConcat(css, a, link);
    NeighboursConcat(css, a + link, b);
  }

  /** Text that starts at `i`, or an empty comment. */
  predicate Appendable(text: seq<Piece>, i: nat, next: nat) {
    text == [EmptyComment] || (i < next && text == CopiedRange(i, next))
  }

  lemma TextIsApart(css: Css, m: Machine, i: nat, text: seq<Piece>, next: nat)
    requires Tight(css, m, i) && i < |css| && !IsSpace(css[i]) && Appendable(text, i, next)
    requires m.segment != [] && !m.pendingSpace
    ensures Apart(css, m.segment[|m.segment| - 1], text[0])
  {
    BreaksPunctuate(css[i]);
  }

  lemma TextNeighbours(css: Css, i: nat, text: seq<Piece>, next: nat)
    requires Appendable(text, i, next)
    ensures Neighbours(css, text) && text != []
  {
    if text != [EmptyComment] { RangeNeighbours(css, i, next); }
  }

  lemma AppendKeepsShape(css: Css, m: Machine, i: nat, text: seq<Piece>, next: nat)
    requires Shape(css, m, i) && i < |css| && !IsSpace(css[i]) && Appendable(text, i, next)
    ensures Shape(css, Appended(m, text), next)
  {
    hide Neighbours, Apart, IsSpace, Breaks, PunctuationPiece;
    var link := if m.pendingSpace && m.segment != [] then [Gap] else [];
    if m.segment != [] && !m.pendingSpace { TextIsApart(css, m, i, text, next); }
    TextNeighbours(css, i, text, next);
    LinkNeighbours(css, m.segment, link, text);
    var whole := Appended(m, text).segment;
    assert whole == m.segment + link + text;
    assert whole[|whole| - 1] == text[|text| - 1] && m.segment <= whole;
  }

  lemma BreaksPunctuate(u: Unit)
    ensures Breaks(u) && !IsSpace(u) ==> Punctuates(u)
  {
  }

  /** Ending a segment. */
  lemma EndKeepsShape(css: Css, m: Machine, i: nat)
    requires Shape(css, m, i)
    ensures var m' := Ended(css, m);
            && Neighbours(css, m'.out) && m'.segment == [] && m'.valueStart.None? && !m'.pendingSpace && m'.depth == 0
            && (m.segment == [] ==> m'.out == m.out && m'.pendingSemicolon == m.pendingSemicolon)
  {
    TrimmedKeeps(css, m);
    hide Trimmed, Neighbours, IsBlank, ValueAtColon;
    var segment := Trimmed(css, m);
    var link := if segment != [] then Marks(m.pendingSemicolon) else [];
    if link == [] && m.out != [] && segment != [] { PunctuationIsApart(css, m.out[|m.out| - 1], segment[0]); }
    LinkNeighbours(css, m.out, link, segment);
    if m.segment == [] { assert m.out + link + segment == m.out; }
  }

  lemma PunctuationIsApart(css: Css, p: Piece, q: Piece)
    requires PunctuationPiece(css, p) || PunctuationPiece(css, q)
    ensures Apart(css, p, q)
  {
  }

  // ---- the step ----

  /** The shape and the lexer's state, at the start of the lexeme at `i`. */
  predicate Invariant(css: Css, m: Machine, i: nat, word: bool, depth: nat) {
    Shape(css, m, i) && m.depth == depth && AgreesOnWord(css, m, i, word)
  }

  function NextWord(css: Css, i: nat, word: bool, depth: nat): bool
    requires i < |css|
  {
    var (lexeme, end) := LexemeAt(css, i, word, depth);
    WordAfter(css, lexeme, end)
  }

  function NextDepth(css: Css, i: nat, word: bool, depth: nat): nat
    requires i < |css|
  {
    var (lexeme, end) := LexemeAt(css, i, word, depth);
    DepthAfter(css, i, depth, lexeme, end)
  }

  function NextKept(css: Css, i: nat, word: bool, depth: nat): seq<nat>
    requires i < |css|
  {
    var (lexeme, end) := LexemeAt(css, i, word, depth);
    if lexeme == Text then Positions(i, end) else []
  }

  lemma TextStep(css: Css, m: Machine, i: nat, next: nat)
    requires Shape(css, m, i) && i < next <= |css| && !IsSpace(css[i])
    ensures var m' := Appended(m, CopiedRange(i, next));
            Shape(css, m', next) && AgreesOnWord(css, m', next, IsWord(css[next - 1])) && m'.depth == m.depth
  {
    hide Shape, IsWord, Breaks, IsSpace;
    var text := CopiedRange(i, next);
    AppendKeepsShape(css, m, i, text, next);
    var whole := Appended(m, text).segment;
    assert whole[|whole| - 1] == text[|text| - 1] == Copied(next - 1);
  }

  lemma CommentStep(css: Css, m: Machine, i: nat, next: nat)
    requires Shape(css, m, i) && i < |css| && CommentAt(css, i)
    ensures var m' := Commented(css, m, next);
            Shape(css, m', next) && AgreesOnWord(css, m', next, false) && m'.depth == m.depth
  {
    if !m.pendingSpace && m.segment != [] && next < |css| && !Breaks(css[next]) {
      AppendKeepsShape(css, m, i, [EmptyComment], next);
      var whole := Appended(m, [EmptyComment]).segment;
      assert whole[|whole| - 1] == EmptyComment;
    }
    hide Neighbours;
  }

  /** Shape does not depend on the depth, nor on where the value starts if that is a colon. */
  lemma OtherFields(css: Css, m: Machine, i: nat, depth: nat, valueStart: Option<nat>, word: bool)
    requires Shape(css, m, i) && AgreesOnWord(css, m, i, word)
    requires ValueAtColon(css, m.(valueStart := valueStart))
    ensures var m' := m.(depth := depth, valueStart := valueStart);
            Shape(css, m', i) && AgreesOnWord(css, m', i, word)
  {
    hide Neighbours, EndsInWord, Breaks;
  }

  /** Where the value starts is only ever set to a colon just appended. */
  lemma ColonRecorded(css: Css, m: Machine, i: nat)
    requires ValueAtColon(css, m) && i < |css|
    ensures var m', m'' := Appended(m, [Copied(i)]), Ordinary(css, m, i);
            && ValueAtColon(css, m'.(valueStart := m''.valueStart))
            && m'' == m'.(depth := DepthAfter(css, i, m.depth, Text, i + 1), valueStart := m''.valueStart)
  {
    hide StartsWithAt;
    var segment := Appended(m, [Copied(i)]).segment;
    assert segment[|segment| - 1] == Copied(i);
    assert m.segment <= segment;
  }

  lemma OrdinaryStep(css: Css, m: Machine, i: nat)
    requires Shape(css, m, i) && i < |css| && !IsSpace(css[i])
    ensures var m' := Ordinary(css, m, i);
            && Shape(css, m', i + 1) && AgreesOnWord(css, m', i + 1, IsWord(css[i]))
            && m'.depth == DepthAfter(css, i, m.depth, Text, i + 1)
  {
    assert ValueAtColon(css, m);
    hide Shape, AgreesOnWord, ValueAtColon, Ordinary, Appended, IsWord, IsSpace;
    TextStep(css, m, i, i + 1);
    assert CopiedRange(i, i + 1) == [Copied(i)];
    ColonRecorded(css, m, i);
    var m', m'' := Appended(m, [Copied(i)]), Ordinary(css, m, i);
    OtherFields(css, m', i + 1, m''.depth, m''.valueStart, IsWord(css[i]));
  }

  /** A brace at depth zero goes out by itself. */
  lemma BraceStep(css: Css, m: Machine, i: nat)
    requires Shape(css, m, i) && i < |css| && (css[i] == OPEN_BRACE || css[i] == CLOSE_BRACE)
    ensures var out := Ended(css, m).out + [Copied(i)];
            Neighbours(css, out) && PunctuationPiece(css, out[|out| - 1])
  {
    EndKeepsShape(css, m, i);
    hide Ended, Shape, Neighbours;
    var out, brace := Ended(css, m).out, [Copied(i)];
    if out != [] { PunctuationIsApart(css, out[|out| - 1], brace[0]); }
    OneNeighbour(css, Copied(i));
    NeighboursConcat(css, out, brace);
  }

  /** A lexeme later, the invariant holds at the next one. */
  lemma StepKeepsInvariant(css: Css, m: Machine, i: nat, word: bool, depth: nat)
    requires i < |css| && Invariant(css, m, i, word, depth)
    ensures var (m', next) := Step(css, m, i);
            && next == LexemeAt(css, i, word, depth).1
            && Invariant(css, m', next, NextWord(css, i, word, depth), NextDepth(css, i, word, depth))
  {
    hide Shape, UrlAt, Appended, Commented, Ordinary, AgreesOnWord, IsWord;
    if CommentAt(css, i) {
      CommentStep(css, m, i, AfterComment(css, i + 2));
    } else if IsSpace(css[i]) {
      BlankStep(css, m, i);
    } else if css[i] == DOUBLE_QUOTE || css[i] == SINGLE_QUOTE {
      TextStep(css, m, i, Clip(css, StringEnd(css, css[i], i + 1) + 1));
    } else if css[i] == BACKSLASH {
      TextStep(css, m, i, Clip(css, i + 2));
    } else {
      UrlIsNotABreak(css, m, i, word);
      hide EndsInWord;
      if !word && UrlAt(css, i) {
        TextStep(css, m, i, AfterParen(css, i));
        UrlIsLong(css, i);
      } else if depth == 0 && css[i] == SEMICOLON {
        SeparatorStep(css, m, i);
      } else if depth == 0 && (css[i] == OPEN_BRACE || css[i] == CLOSE_BRACE) {
        BracesStep(css, m, i);
      } else {
        OrdinaryStep(css, m, i);
      }
    }
  }

  lemma UrlIsNotABreak(css: Css, m: Machine, i: nat, word: bool)
    requires i < |css| && AgreesOnWord(css, m, i, word)
    ensures UrlAt(css, i) ==> ((m.pendingSpace || !EndsInWord(css, m.segment)) <==> !word)
  {
  }

  lemma UrlIsLong(css: Css, i: nat)
    requires i < |css| && UrlAt(css, i)
    ensures AfterParen(css, i) > i + 1
  {
    assert css[i] != CLOSE_PAREN;
  }

  lemma BlankStep(css: Css, m: Machine, i: nat)
    requires Shape(css, m, i) && i < |css| && IsSpace(css[i])
    ensures var m' := m.(pendingSpace := true);
            Shape(css, m', i + 1) && AgreesOnWord(css, m', i + 1, false)
  {
    hide Neighbours;
  }

  lemma SeparatorStep(css: Css, m: Machine, i: nat)
    requires Shape(css, m, i) && i < |css| && m.depth == 0
    ensures var m' := Ended(css, m);
            var m'' := if m.segment != [] then m'.(pendingSemicolon := Some(i)) else m';
            Shape(css, m'', i + 1) && AgreesOnWord(css, m'', i + 1, false) && m''.depth == 0
  {
    EndKeepsShape(css, m, i);
    hide Ended;
  }

  lemma BracesStep(css: Css, m: Machine, i: nat)
    requires Shape(css, m, i) && i < |css| && m.depth == 0 && (css[i] == OPEN_BRACE || css[i] == CLOSE_BRACE)
    ensures var m' := Ended(css, if css[i] == OPEN_BRACE then m.(valueStart := None) else m);
            var m'' := m'.(out := m'.out + [Copied(i)],
                           pendingSemicolon := if css[i] == OPEN_BRACE then m'.pendingSemicolon else None);
            Shape(css, m'', i + 1) && AgreesOnWord(css, m'', i + 1, IsWord(css[i])) && m''.depth == 0
  {
    assert !IsWord(css[i]);
    var n := if css[i] == OPEN_BRACE then m.(valueStart := None) else m;
    assert Shape(css, n, i) by { hide Neighbours; }
    BraceStep(css, n, i);
    EndKeepsShape(css, n, i);
    hide Ended, Neighbours, Shape;
    var m' := Ended(css, n);
    ShapeOfEmpty(css, m'.(out := m'.out + [Copied(i)],
                          pendingSemicolon := if css[i] == OPEN_BRACE then m'.pendingSemicolon else None), i + 1);
  }

  lemma ShapeOfEmpty(css: Css, m: Machine, i: nat)
    requires m.segment == [] && m.valueStart.None? && Neighbours(css, m.out) && Closed(css, m)
    ensures Shape(css, m, i) && AgreesOnWord(css, m, i, false)
  {
  }

  // ---- every input ----

  lemma {:induction false} RunKeepsNeighbours(css: Css, m: Machine, i: nat, word: bool, depth: nat)
    requires i <= |css| && Invariant(css, m, i, word, depth)
    ensures Neighbours(css, Run(css, m, i))
    decreases |css| - i
  {
    hide Invariant, Step, LexemeAt, Neighbours, Ended;
    if i == |css| {
      FinishKeepsNeighbours(css, m, word, depth);
    } else {
      StepKeepsInvariant(css, m, i, word, depth);
      var (m', next) := Step(css, m, i);
      RunKeepsNeighbours(css, m', next, NextWord(css, i, word, depth), NextDepth(css, i, word, depth));
    }
  }

  lemma Regroup<T>(a: seq<T>, b: seq<T>, c: seq<T>)
    ensures a + b + c == a + (b + c)
  {
  }

  lemma FinishKeepsNeighbours(css: Css, m: Machine, word: bool, depth: nat)
    requires Invariant(css, m, |css|, word, depth)
    ensures var m' := Ended(css, m); Neighbours(css, m'.out + Marks(m'.pendingSemicolon))
  {
    EndKeepsShape(css, m, |css|);
    var m' := Ended(css, m);
    hide Ended, Shape;
    NeighboursConcat(css, m'.out, Marks(m'.pendingSemicolon));
  }

  lemma StartsInShape(css: Css)
    ensures Invariant(css, START, 0, false, 0)
  {
  }

  /** No two characters are brought together, except at punctuation. */
  lemma NothingIsBroughtTogether(css: Css)
    ensures Neighbours(css, Stripped(css))
  {
    StartsInShape(css);
    RunKeepsNeighbours(css, START, 0, false, 0);
  }

  /** Strictly increasing, within `lo..hi`. */
  predicate Increasing(s: seq<nat>, lo: nat, hi: nat) {
    && (forall k :: 0 <= k < |s| ==> lo <= s[k] < hi)
    && (forall k, l :: 0 <= k < l < |s| ==> s[k] < s[l])
  }

  lemma IncreasingConcat(s: seq<nat>, t: seq<nat>, lo: nat, mid: nat, hi: nat)
    requires lo <= mid <= hi && Increasing(s, lo, mid) && Increasing(t, mid, hi)
    ensures Increasing(s + t, lo, hi)
  {
  }

  /** The positions kept are strictly increasing. */
  lemma {:induction false} KeptIsIncreasing(css: Css, i: nat, word: bool, depth: nat)
    requires i <= |css|
    ensures Increasing(Kept(css, i, word, depth), i, |css|)
    decreases |css| - i
  {
    if i < |css| {
      var (lexeme, end) := LexemeAt(css, i, word, depth);
      var word', depth' := WordAfter(css, lexeme, end), DepthAfter(css, i, depth, lexeme, end);
      KeptIsIncreasing(css, end, word', depth');
      var here := if lexeme == Text then Positions(i, end) else [];
      IncreasingConcat(here, Kept(css, end, word', depth'), i, end, |css|);
    }
  }
}
