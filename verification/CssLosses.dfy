/** Exactly which characters of the text the stripper does not write. */
module CssLosses {
  import opened Results
  import opened CssStripper
  import opened CssProperties

  // ---- the loop body, lexeme by lexeme ----

  /** A brace outside parentheses. */
  predicate IsBrace(css: Css, i: nat, depth: nat)
    requires i < |css|
  {
    depth == 0 && (css[i] == OPEN_BRACE || css[i] == CLOSE_BRACE)
  }

  predicate StartsValue(css: Css, m: Machine, i: nat, segment: seq<Piece>)
    requires i < |css|
  {
    css[i] == COLON && m.depth == 0 && m.valueStart.None? && !StartsWithAt(css, segment)
  }

  function TextRead(css: Css, m: Machine, i: nat, end: nat): Machine
    requires i < end <= |css|
  {
    var m' := Appended(m, CopiedRange(i, end));
    m'.(depth := DepthAfter(css, i, m.depth, Text, end),
        valueStart := if StartsValue(css, m, i, m'.segment) then Some(|m'.segment| - 1) else m.valueStart)
  }

  function SeparatorRead(css: Css, m: Machine, i: nat): Machine {
    var m' := Ended(css, m);
    if m.segment != [] then m'.(pendingSemicolon := Some(i)) else m'
  }

  function BraceRead(css: Css, m: Machine, i: nat): Machine
    requires i < |css|
  {
    var open := css[i] == OPEN_BRACE;
    var m' := Ended(css, if open then m.(valueStart := None) else m);
    m'.(out := m'.out + [Copied(i)], pendingSemicolon := if open then m'.pendingSemicolon else None)
  }

  /** What the machine does with a lexeme. */
  function LexemeRead(css: Css, m: Machine, i: nat, lexeme: Lexeme, end: nat): Machine
    requires i < end <= |css|
  {
    match lexeme
    case Comment => Commented(css, m, end)
    case Blank => m.(pendingSpace := true)
    case Separator => SeparatorRead(css, m, i)
    case Text => if IsBrace(css, i, m.depth) then BraceRead(css, m, i) else TextRead(css, m, i, end)
  }

  /** The loop body depends on the text only through the lexeme that starts at `i`. */
  lemma StepReadsALexeme(css: Css, m: Machine, i: nat, word: bool, depth: nat)
    requires i < |css| && Invariant(css, m, i, word, depth)
    ensures var (lexeme, end) := LexemeAt(css, i, word, depth);
            Step(css, m, i) == (LexemeRead(css, m, i, lexeme, end), end)
  {
    UrlIsNotABreak(css, m, i, word);
    hide Shape, AgreesOnWord, Ended, Commented, Ordinary, StartsWithAt, EndsInWord, IsWord, IsSpace, UrlAt;
    if CommentAt(css, i) || IsSpace(css[i]) {
    } else if css[i] == DOUBLE_QUOTE || css[i] == SINGLE_QUOTE || css[i] == BACKSLASH {
      PlainText(css, m, i, LexemeAt(css, i, word, depth).1);
    } else if !word && UrlAt(css, i) {
      UrlIsLong(css, i);
      UrlIsNotAColon(css, i);
      PlainText(css, m, i, AfterParen(css, i));
    } else {
      OrdinaryIsText(css, m, i);
    }
  }

  /** Text that is neither a colon nor a parenthesis. */
  lemma PlainText(css: Css, m: Machine, i: nat, end: nat)
    requires i < end <= |css| && css[i] != COLON
    requires css[i] == OPEN_PAREN || css[i] == CLOSE_PAREN ==> end > i + 1
    ensures TextRead(css, m, i, end) == Appended(m, CopiedRange(i, end))
  {
    hide StartsWithAt;
  }

  lemma UrlIsNotAColon(css: Css, i: nat)
    requires i < |css| && UrlAt(css, i)
    ensures css[i] != COLON && css[i] != OPEN_BRACE && css[i] != CLOSE_BRACE
  {
  }

  lemma OrdinaryIsText(css: Css, m: Machine, i: nat)
    requires i < |css|
    ensures TextRead(css, m, i, i + 1) == Ordinary(css, m, i)
  {
    hide StartsWithAt;
    assert CopiedRange(i, i + 1) == [Copied(i)];
  }

  /** Text that ends in whitespace, with more to come, is an escape. */
  lemma SpaceEndsAnEscape(css: Css, i: nat, word: bool, depth: nat)
    requires i < |css|
    ensures var (lexeme, end) := LexemeAt(css, i, word, depth);
            lexeme == Text && end < |css| && IsSpace(css[end - 1]) ==> end == i + 2 && css[i] == BACKSLASH
  {
    if css[i] == DOUBLE_QUOTE || css[i] == SINGLE_QUOTE { StringEndsInQuote(css, css[i], i + 1); }
    ParenEndsUrl(css, i);
  }

  lemma {:induction false} StringEndsInQuote(css: Css, quote: Unit, i: nat)
    ensures StringEnd(css, quote, i) < |css| ==> css[StringEnd(css, quote, i)] == quote
    decreases |css| - i
  {
    if i < |css| && css[i] != quote { StringEndsInQuote(css, quote, i + if css[i] == BACKSLASH then 2 else 1); }
  }

  lemma {:induction false} ParenEndsUrl(css: Css, i: nat)
    requires i < |css|
    ensures AfterParen(css, i) < |css| ==> css[AfterParen(css, i) - 1] == CLOSE_PAREN
    decreases |css| - i
  {
    if css[i] != CLOSE_PAREN && i + 1 < |css| { ParenEndsUrl(css, i + 1); }
  }

  // ---- what is lost, read off the text ----

  /** Inside a statement: whether it has begun, whitespace was read since, it is an at-rule, its value has started;
      the whitespace that ends its text so far, and the one that ended it when the value's colon came. */
  datatype Reading = Reading(begun: bool, gap: bool, rule: bool, colon: bool, tail: Option<nat>, doomed: Option<nat>)

  const UNREAD := Reading(false, false, false, false, None, None)

  function Read(css: Css, i: nat, lexeme: Lexeme, end: nat, depth: nat, r: Reading): Reading
    requires i < end <= |css|
  {
    match lexeme
    case Comment => if r.begun && !r.gap && end < |css| && !Breaks(css[end]) then r.(tail := None) else r
    case Blank => r.(gap := true)
    case Separator => UNREAD
    case Text =>
      if IsBrace(css, i, depth) then UNREAD
      else
        var rule := if r.begun then r.rule else css[i] == AT;
        var starts := css[i] == COLON && depth == 0 && !r.colon && !rule;
        Reading(true, false, rule, r.colon || starts, if IsSpace(css[end - 1]) then Some(end - 1) else None,
                if starts then r.tail else r.doomed)
  }

  /** What ends a declaration. */
  predicate EndsDeclaration(css: Css, i: nat, lexeme: Lexeme, depth: nat)
    requires i < |css|
  {
    lexeme == Separator || (lexeme == Text && depth == 0 && css[i] == CLOSE_BRACE)
  }

  /** The whitespace that stood right before a declaration's colon as the end of an escape. */
  function Lost(css: Css, i: nat, word: bool, depth: nat, r: Reading): set<nat>
    decreases |css| - i
  {
    if i >= |css| then Doomed(r.doomed)
    else
      var (lexeme, end) := LexemeAt(css, i, word, depth);
      (if EndsDeclaration(css, i, lexeme, depth) then Doomed(r.doomed) else {})
      + Lost(css, end, WordAfter(css, lexeme, end), DepthAfter(css, i, depth, lexeme, end),
             Read(css, i, lexeme, end, depth, r))
  }

  function Doomed(p: Option<nat>): set<nat> { if p.Some? then {p.value} else {} }

  predicate Escaped(css: Css, p: nat) { 0 < p < |css| && IsSpace(css[p]) && css[p - 1] == BACKSLASH }

  predicate EscapesOnly(css: Css, i: nat, r: Reading) {
    && (r.tail.Some? && i < |css| ==> Escaped(css, r.tail.value))
    && (r.doomed.Some? ==> Escaped(css, r.doomed.value))
  }

  /** What is lost is whitespace behind a backslash. */
  lemma {:induction false} LostIsEscaped(css: Css, i: nat, word: bool, depth: nat, r: Reading)
    requires i <= |css| && EscapesOnly(css, i, r)
    ensures forall p :: p in Lost(css, i, word, depth, r) ==> Escaped(css, p)
    decreases |css| - i
  {
    if i < |css| {
      var (lexeme, end) := LexemeAt(css, i, word, depth);
      SpaceEndsAnEscape(css, i, word, depth);
      hide LexemeAt;
      var r' := Read(css, i, lexeme, end, depth, r);
      assert EscapesOnly(css, end, r') by { hide Lost; }
      hide Read, EscapesOnly, Escaped;
      LostIsEscaped(css, end, WordAfter(css, lexeme, end), DepthAfter(css, i, depth, lexeme, end), r');
    }
  }

  // ---- positions ----

  /** The copied positions, in output order. */
  function CopiesOf(pieces: seq<Piece>): seq<nat> {
    if pieces == [] then [] else CopiesOf(pieces[..|pieces| - 1]) + CopyOf(pieces[|pieces| - 1])
  }

  function CopyOf(p: Piece): seq<nat> { if p.Copied? then [p.at] else [] }

  lemma {:induction false} CopiesConcat(a: seq<Piece>, b: seq<Piece>)
    ensures CopiesOf(a + b) == CopiesOf(a) + CopiesOf(b)
  {
    hide CopyOf;
    if b == [] {
      assert a + b == a;
    } else {
      var n := |b| - 1;
      CopiesConcat(a, b[..n]);
      assert (a + b)[..|a| + n] == a + b[..n];
      Regroup(CopiesOf(a), CopiesOf(b[..n]), CopyOf(b[n]));
    }
  }

  lemma CopyOfOne(p: Piece)
    ensures CopiesOf([p]) == CopyOf(p)
  {
    assert [p][..0] == [];
  }

  lemma {:induction false} RangeCopies(from: nat, to: nat)
    requires from <= to
    ensures CopiesOf(CopiedRange(from, to)) == Positions(from, to)
  {
    if from < to {
      RangeCopies(from, to - 1);
      assert CopiedRange(from, to)[..to - from - 1] == CopiedRange(from, to - 1);
      assert Positions(from, to) == Positions(from, to - 1) + [to - 1];
    }
  }

  lemma LinkCopiesNothing(link: seq<Piece>)
    requires Separates(link)
    ensures CopiesOf(link) == []
  {
    if link != [] { assert link[..0] == []; }
  }

  /** What stands between two runs of pieces copies nothing. */
  lemma LinkCopies(a: seq<Piece>, link: seq<Piece>, b: seq<Piece>)
    requires Separates(link)
    ensures CopiesOf(a + link + b) == CopiesOf(a) + CopiesOf(b)
  {
    hide CopiesOf;
    LinkCopiesNothing(link);
    CopiesConcat(a, link);
    CopiesConcat(a + link, b);
  }

  function Without(s: seq<nat>, gone: set<nat>): seq<nat> {
    if s == [] then []
    else
      var last := s[|s| - 1];
      Without(s[..|s| - 1], gone) + if last in gone then [] else [last]
  }

  lemma {:induction false} WithoutConcat(s: seq<nat>, t: seq<nat>, gone: set<nat>)
    ensures Without(s + t, gone) == Without(s, gone) + Without(t, gone)
  {
    if t == [] {
      assert s + t == s;
    } else {
      var n := |t| - 1;
      WithoutConcat(s, t[..n], gone);
      assert (s + t)[..|s| + n] == s + t[..n];
      Regroup(Without(s, gone), Without(t[..n], gone), if t[n] in gone then [] else [t[n]]);
    }
  }

  lemma {:induction false} WithoutNone(s: seq<nat>, gone: set<nat>)
    requires forall p :: p in s ==> p !in gone
    ensures Without(s, gone) == s
  {
    if s != [] {
      WithoutNone(s[..|s| - 1], gone);
      assert s[|s| - 1] in s;
    }
  }

  lemma {:induction false} WithoutTwice(s: seq<nat>, gone: set<nat>, more: set<nat>)
    ensures Without(s, gone + more) == Without(Without(s, gone), more)
  {
    if s != [] {
      var last := s[|s| - 1];
      WithoutTwice(s[..|s| - 1], gone, more);
      WithoutConcat(Without(s[..|s| - 1], gone), if last in gone then [] else [last], more);
      WithoutOne(last, more);
    }
  }

  lemma WithoutOne(p: nat, gone: set<nat>)
    ensures Without([p], gone) == if p in gone then [] else [p]
  {
    assert [p][..0] == [];
  }

  lemma {:induction false} WithoutLeaves(s: seq<nat>, gone: set<nat>, p: nat)
    ensures p in Without(s, gone) <==> p in s && p !in gone
  {
    if s != [] {
      WithoutLeaves(s[..|s| - 1], gone, p);
      assert s == s[..|s| - 1] + [s[|s| - 1]];
    }
  }

  lemma {:induction false} WithoutIsIncreasing(s: seq<nat>, gone: set<nat>, lo: nat, hi: nat)
    requires Increasing(s, lo, hi)
    ensures Increasing(Without(s, gone), lo, hi)
  {
    if s != [] {
      var n := |s| - 1;
      WithoutIsIncreasing(s[..n], gone, lo, s[n]);
    }
  }

  lemma NoOther(a: seq<nat>, p: nat, b: seq<nat>, hi: nat)
    requires Increasing(a + [p] + b, 0, hi)
    ensures p !in a && p !in b
  {
    var s := a + [p] + b;
    assert s[|a|] == p;
    forall k | 0 <= k < |a| ensures a[k] != p { assert s[k] == a[k]; }
    forall k | 0 <= k < |b| ensures b[k] != p { assert s[|a| + 1 + k] == b[k]; }
  }

  /** One of the increasing positions goes. */
  lemma WithoutTheOne(a: seq<nat>, p: nat, b: seq<nat>, hi: nat)
    requires Increasing(a + [p] + b, 0, hi)
    ensures Without(a + [p] + b, {p}) == a + b
  {
    hide Increasing, Without;
    NoOther(a, p, b, hi);
    WithoutNone(a, {p});
    WithoutNone(b, {p});
    WithoutOne(p, {p});
    WithoutConcat(a + [p], b, {p});
    WithoutConcat(a, [p], {p});
  }

  // ---- the machine against the reading ----

  function Pick(p: Option<nat>): seq<nat> { if p.Some? then [p.value] else [] }

  /** The segment's end: never a gap; whitespace exactly if the reading has it, and then what precedes it is not. */
  predicate Tail(css: Css, segment: seq<Piece>, tail: Option<nat>, i: nat) {
    if segment == [] then tail.None?
    else
      var last := segment[|segment| - 1];
      && !last.Gap? && tail == (if IsBlank(css, last) then Some(last.at) else None)
      && (tail.Some? && i < |css| ==>
            |segment| > 1 && var p := segment[|segment| - 2]; p.Copied? && !IsBlank(css, p))
  }

  /** The segment's first character decides whether it is an at-rule. */
  predicate Head(css: Css, segment: seq<Piece>, rule: bool) {
    segment != [] ==> segment[0].Copied? && segment[0].at < |css| && (rule <==> css[segment[0].at] == AT)
  }

  /** At most one gap before the value's first character. */
  predicate OneGap(css: Css, value: seq<Piece>) {
    || value == [] || !IsBlank(css, value[0])
    || (value[0].Gap? && |value| > 1 && !IsBlank(css, value[1]))
  }

  /** Trimming the name drops what the reading has doomed; trimming the value drops nothing. */
  predicate Sides(css: Css, m: Machine, doomed: Option<nat>) {
    if m.valueStart.None? then doomed.None?
    else
      && m.valueStart.value < |m.segment|
      && CopiesOf(m.segment[..m.valueStart.value])
         == CopiesOf(TrimmedEnd(css, m.segment[..m.valueStart.value])) + Pick(doomed)
      && OneGap(css, m.segment[m.valueStart.value + 1..])
  }

  predicate Matches(css: Css, m: Machine, r: Reading, i: nat) {
    && r.begun == (m.segment != []) && r.gap == m.pendingSpace && r.colon == m.valueStart.Some?
    && Head(css, m.segment, r.rule) && Tail(css, m.segment, r.tail, i) && Sides(css, m, r.doomed)
  }

  lemma {:induction false} EraseStarts(css: Css, pieces: seq<Piece>)
    requires pieces != [] && pieces[0].Copied? && pieces[0].at < |css|
    ensures Erase(css, pieces) != [] && Erase(css, pieces)[0] == css[pieces[0].at]
  {
    if |pieces| > 1 { EraseStarts(css, pieces[..|pieces| - 1]); } else { assert pieces[..0] == []; }
  }

  /** The name's end, and a gap after it. */
  lemma NameLosesItsTail(css: Css, segment: seq<Piece>, gap: seq<Piece>, tail: Option<nat>, i: nat)
    requires Tail(css, segment, tail, i) && i < |css| && (gap == [] || gap == [Gap])
    ensures CopiesOf(segment + gap) == CopiesOf(TrimmedEnd(css, segment + gap)) + Pick(tail)
  {
    var trimmed := TrimmedEnd(css, segment);
    assert TrimmedEnd(css, segment + gap) == trimmed by {
      if gap != [] { assert (segment + gap)[..|segment|] == segment; } else { assert segment + gap == segment; }
    }
    assert segment + gap + [] == segment + gap;
    LinkCopies(segment, gap, []);
    if tail.Some? {
      var n := |segment| - 1;
      assert segment[..n][n - 1] == segment[n - 1];
      assert TrimmedEnd(css, segment[..n]) == segment[..n];
    }
  }

  lemma ValueLosesNothing(css: Css, value: seq<Piece>)
    requires OneGap(css, value)
    ensures CopiesOf(TrimmedStart(css, value)) == CopiesOf(value)
  {
    if value != [] && IsBlank(css, value[0]) {
      assert TrimmedStart(css, value[1..]) == value[1..];
      CopiesConcat([Gap], value[1..]);
      CopyOfOne(Gap);
      assert value == [Gap] + value[1..];
    }
  }

  /** More of the segment leaves its sides alone. */
  lemma SidesGrow(css: Css, m: Machine, m': Machine, link: seq<Piece>, text: seq<Piece>, doomed: Option<nat>)
    requires Sides(css, m, doomed) && m'.valueStart == m.valueStart && m'.segment == m.segment + link + text
    requires text != [] && !IsBlank(css, text[0]) && (link == [] || link == [Gap])
    ensures Sides(css, m', doomed)
  {
    hide CopiesOf, TrimmedEnd, IsBlank;
    if m.valueStart.Some? {
      SliceOfGrown(m.segment, link, text, m.valueStart.value);
      OneGapGrows(css, m.segment[m.valueStart.value + 1..], link, text);
    }
  }

  lemma SliceOfGrown(a: seq<Piece>, b: seq<Piece>, c: seq<Piece>, v: nat)
    requires v < |a|
    ensures (a + b + c)[..v] == a[..v] && (a + b + c)[v + 1..] == a[v + 1..] + b + c
  {
    assert (a + b + c)[v + 1..] == a[v + 1..] + (b + c);
    Regroup(a[v + 1..], b, c);
  }

  lemma OneGapGrows(css: Css, value: seq<Piece>, link: seq<Piece>, text: seq<Piece>)
    requires OneGap(css, value) && text != [] && !IsBlank(css, text[0]) && (link == [] || link == [Gap])
    ensures OneGap(css, value + link + text)
  {
    hide IsBlank;
    var whole := value + link + text;
    if value == [] {
      assert whole == link + text;
    } else {
      assert whole[0] == value[0];
      if |value| > 1 { assert whole[1] == value[1]; }
    }
  }

  /** Text that the lexer may find at `i`. */
  predicate TextAt(css: Css, i: nat, end: nat) {
    && i < end <= |css| && !IsSpace(css[i]) && (css[i] == COLON ==> end == i + 1)
    && (end < |css| && IsSpace(css[end - 1]) ==> end == i + 2)
  }

  lemma LexerFindsText(css: Css, i: nat, word: bool, depth: nat)
    requires i < |css|
    ensures var (lexeme, end) := LexemeAt(css, i, word, depth);
            lexeme == Text ==> TextAt(css, i, end)
  {
    SpaceEndsAnEscape(css, i, word, depth);
    if UrlAt(css, i) { UrlIsNotAColon(css, i); }
    hide IsSpace, UrlAt;
  }

  function LinkOf(m: Machine): seq<Piece> { if m.pendingSpace && m.segment != [] then [Gap] else [] }

  function Grown(m: Machine, i: nat, end: nat): seq<Piece>
    requires i <= end
  {
    m.segment + LinkOf(m) + CopiedRange(i, end)
  }

  lemma GrownHead(css: Css, m: Machine, rule: bool, i: nat, end: nat)
    requires TextAt(css, i, end) && Head(css, m.segment, rule)
    ensures Head(css, Grown(m, i, end), if m.segment != [] then rule else css[i] == AT)
  {
    hide IsSpace;
    if m.segment == [] {
      assert Grown(m, i, end)[0] == CopiedRange(i, end)[0];
    } else {
      assert Grown(m, i, end)[0] == m.segment[0];
    }
  }

  lemma GrownTail(css: Css, m: Machine, i: nat, end: nat)
    requires TextAt(css, i, end)
    ensures Tail(css, Grown(m, i, end), if IsSpace(css[end - 1]) then Some(end - 1) else None, end)
  {
    hide IsSpace;
    var text, segment := CopiedRange(i, end), Grown(m, i, end);
    assert segment[|segment| - 1] == text[|text| - 1] == Copied(end - 1);
    if end == i + 2 { assert segment[|segment| - 2] == text[0] == Copied(i); }
  }

  lemma ColonOpensTheValue(css: Css, m: Machine, tail: Option<nat>, i: nat)
    requires i < |css| && Tail(css, m.segment, tail, i)
    ensures var segment := Grown(m, i, i + 1);
            Sides(css, m.(segment := segment, valueStart := Some(|segment| - 1)), tail)
  {
    var segment := Grown(m, i, i + 1);
    NameLosesItsTail(css, m.segment, LinkOf(m), tail, i);
    hide Tail, TrimmedEnd, CopiesOf;
    assert segment[..|segment| - 1] == m.segment + LinkOf(m);
    assert segment[|segment|..] == [];
  }

  /** Sides do not depend on the other fields. */
  lemma SidesOf(css: Css, m: Machine, m': Machine, doomed: Option<nat>)
    requires Sides(css, m, doomed) && m'.segment == m.segment && m'.valueStart == m.valueStart
    ensures Sides(css, m', doomed)
  {
  }

  lemma TextMatches(css: Css, m: Machine, r: Reading, i: nat, end: nat)
    requires TextAt(css, i, end) && Matches(css, m, r, i) && !IsBrace(css, i, m.depth)
    ensures Matches(css, TextRead(css, m, i, end), Read(css, i, Text, end, m.depth, r), end)
  {
    hide Head, Tail, IsSpace, Sides, StartsWithAt, IsBlank;
    var m', r' := TextRead(css, m, i, end), Read(css, i, Text, end, m.depth, r);
    var segment := Grown(m, i, end);
    GrownHead(css, m, r.rule, i, end);
    GrownTail(css, m, i, end);
    assert m'.segment == segment != [];
    RuleIsRead(css, segment, r'.rule);
    if css[i] == COLON && m.depth == 0 && !r.colon && !r'.rule {
      ColonOpensTheValue(css, m, r.tail, i);
      SidesOf(css, m.(segment := segment, valueStart := Some(|segment| - 1)), m', r.tail);
    } else {
      CopyIsNotBlank(css, i);
      SidesGrow(css, m, m', LinkOf(m), CopiedRange(i, end), r.doomed);
    }
  }

  lemma CopyIsNotBlank(css: Css, i: nat)
    requires i < |css| && !IsSpace(css[i])
    ensures !IsBlank(css, Copied(i))
  {
  }

  lemma RuleIsRead(css: Css, segment: seq<Piece>, rule: bool)
    requires segment != [] && Head(css, segment, rule)
    ensures StartsWithAt(css, segment) <==> rule
  {
    EraseStarts(css, segment);
  }

  lemma CommentMatches(css: Css, m: Machine, r: Reading, i: nat, end: nat)
    requires i < end <= |css| && Matches(css, m, r, i)
    ensures Matches(css, Commented(css, m, end), Read(css, i, Comment, end, m.depth, r), end)
  {
    var m' := Commented(css, m, end);
    if m' != m {
      hide Breaks;
      assert m'.segment == m.segment + [] + [EmptyComment];
      SidesGrow(css, m, m', [], [EmptyComment], r.doomed);
      assert m'.segment[|m'.segment| - 1] == EmptyComment && m'.segment[0] == m.segment[0];
    }
  }

  // ---- ending a segment ----

  lemma TrimmingLosesTheDoomed(css: Css, m: Machine, doomed: Option<nat>) returns (a: seq<nat>, b: seq<nat>)
    requires Sides(css, m, doomed)
    ensures CopiesOf(m.segment) == a + Pick(doomed) + b && CopiesOf(Trimmed(css, m)) == a + b
  {
    hide CopiesOf, TrimmedEnd, TrimmedStart, OneGap;
    if m.valueStart.None? {
      a, b := CopiesOf(m.segment), [];
    } else {
      var v := m.valueStart.value;
      var name, colon, value := m.segment[..v], [m.segment[v]], m.segment[v + 1..];
      var name', value' := TrimmedEnd(css, name), TrimmedStart(css, value);
      ValueLosesNothing(css, value);
      a, b := CopiesOf(name'), CopiesOf(colon) + CopiesOf(value);
      assert m.segment == name + colon + value;
      CopiesConcat(name + colon, value);
      CopiesConcat(name, colon);
      CopiesConcat(name' + colon, value');
      CopiesConcat(name', colon);
      Regroup(a + Pick(doomed), CopiesOf(colon), CopiesOf(value));
      Regroup(a, CopiesOf(colon), CopiesOf(value));
    }
  }

  function Placed(m: Machine): seq<nat> { CopiesOf(m.out) + CopiesOf(m.segment) }

  predicate Places(m: Machine, i: nat, done: seq<nat>, lost: set<nat>) {
    && Placed(m) == Without(done, lost) && Increasing(done, 0, i)
    && (forall p :: p in lost ==> p in done)
  }

  lemma EndingLosesTheDoomed(css: Css, m: Machine, i: nat, doomed: Option<nat>, done: seq<nat>, lost: set<nat>)
    requires Shape(css, m, i) && Sides(css, m, doomed) && Places(m, i, done, lost)
    ensures Places(Ended(css, m), i, done, lost + Doomed(doomed)) && Ended(css, m).segment == []
  {
    var m' := Ended(css, m);
    var a, b := TrimmingLosesTheDoomed(css, m, doomed);
    TrimmedKeeps(css, m);
    var before := CopiesOf(m.out);
    assert Placed(m') == before + (a + b) by {
      hide Trimmed;
      LinkCopies(m.out, Marks(m.pendingSemicolon), Trimmed(css, m));
      assert CopiesOf([]) == [];
    }
    hide Shape, Sides, CopiesOf, Ended, Trimmed, Neighbours, Without, Increasing;
    DropTheDoomed(before, a, doomed, b, i, done, lost);
  }

  lemma DropTheDoomed(before: seq<nat>, a: seq<nat>, doomed: Option<nat>, b: seq<nat>, i: nat,
                      done: seq<nat>, lost: set<nat>)
    requires before + (a + Pick(doomed) + b) == Without(done, lost) && Increasing(done, 0, i)
    ensures before + (a + b) == Without(done, lost + Doomed(doomed))
    ensures doomed.Some? ==> doomed.value in done
  {
    if doomed.None? {
      assert lost + {} == lost && a + [] + b == a + b;
    } else {
      var p := doomed.value;
      WithoutIsIncreasing(done, lost, 0, i);
      hide Increasing, Without;
      assert Without(done, lost) == (before + a) + [p] + b;
      WithoutTheOne(before + a, p, b, i);
      WithoutTwice(done, lost, {p});
      WithoutLeaves(done, lost, p);
      assert ((before + a) + [p] + b)[|before + a|] == p;
      Regroup(before, a, b);
    }
  }

  // ---- the step ----

  lemma EmptyMatches(css: Css, m: Machine, i: nat)
    requires m.segment == [] && !m.pendingSpace && m.valueStart.None?
    ensures Matches(css, m, UNREAD, i)
  {
  }

  /** More positions, past all others. */
  lemma PlacesGrow(m: Machine, m': Machine, i: nat, end: nat, more: seq<nat>, done: seq<nat>, lost: set<nat>)
    requires Places(m, i, done, lost) && i <= end && Increasing(more, i, end) && Placed(m') == Placed(m) + more
    ensures Places(m', end, done + more, lost)
  {
    hide Placed;
    IncreasingConcat(done, more, 0, i, end);
    NewStay(done, more, lost, i, end);
    hide Increasing;
    WithoutConcat(done, more, lost);
    hide Without;
  }

  lemma NewStay(done: seq<nat>, more: seq<nat>, lost: set<nat>, i: nat, end: nat)
    requires Increasing(done, 0, i) && (forall p :: p in lost ==> p in done) && Increasing(more, i, end)
    ensures Without(more, lost) == more
  {
    forall p | p in more ensures p !in lost {}
    hide Increasing;
    WithoutNone(more, lost);
  }

  lemma PositionsIncrease(i: nat, end: nat)
    requires i <= end
    ensures Increasing(Positions(i, end), i, end)
  {
  }

  /** More text. */
  lemma TextPlaces(css: Css, m: Machine, i: nat, end: nat, done: seq<nat>, lost: set<nat>)
    requires i < end <= |css| && Places(m, i, done, lost)
    ensures Places(TextRead(css, m, i, end), end, done + Positions(i, end), lost)
  {
    hide Places, CopiesOf, StartsValue, Positions, CopiedRange;
    LinkCopies(m.segment, LinkOf(m), CopiedRange(i, end));
    RangeCopies(i, end);
    Regroup(CopiesOf(m.out), CopiesOf(m.segment), Positions(i, end));
    PositionsIncrease(i, end);
    PlacesGrow(m, TextRead(css, m, i, end), i, end, Positions(i, end), done, lost);
  }

  lemma CommentPlaces(css: Css, m: Machine, i: nat, end: nat, done: seq<nat>, lost: set<nat>)
    requires Places(m, i, done, lost) && i <= end
    ensures Places(Commented(css, m, end), end, done, lost)
  {
    if Commented(css, m, end) != m {
      CopiesConcat(m.segment, [EmptyComment]);
      CopyOfOne(EmptyComment);
      hide CopiesOf, Without, Breaks;
      assert m.segment + [] + [EmptyComment] == m.segment + [EmptyComment];
    }
  }

  lemma BracePlaces(css: Css, m: Machine, r: Reading, i: nat, done: seq<nat>, lost: set<nat>)
    requires i < |css| && Shape(css, m, i) && Matches(css, m, r, i) && Places(m, i, done, lost) && IsBrace(css, i, m.depth)
    ensures var gone := if css[i] == CLOSE_BRACE then Doomed(r.doomed) else {};
            Places(BraceRead(css, m, i), i + 1, done + Positions(i, i + 1), lost + gone)
    ensures Matches(css, BraceRead(css, m, i), Read(css, i, Text, i + 1, m.depth, r), i + 1)
  {
    var open := css[i] == OPEN_BRACE;
    var n, doomed := if open then m.(valueStart := None) else m, if open then None else r.doomed;
    hide Shape, Head, Tail, Sides, Ended, Neighbours, Places, Positions;
    NoValueAtABrace(css, m, i, r.doomed);
    assert Sides(css, n, doomed);
    hide Matches;
    SamePlaces(m, n, i, done, lost);
    EndingLosesTheDoomed(css, n, i, doomed, done, lost);
    EndKeepsShape(css, n, i);
    var m' := Ended(css, n);
    EmptyMatches(css, BraceRead(css, m, i), i + 1);
    PlaceOneMore(m', i, done, lost + Doomed(doomed));
    SamePlaces(m'.(out := m'.out + [Copied(i)]), BraceRead(css, m, i), i + 1, done + Positions(i, i + 1), lost + Doomed(doomed));
  }

  lemma NoValueAtABrace(css: Css, m: Machine, i: nat, doomed: Option<nat>)
    requires Shape(css, m, i) && Sides(css, m, doomed)
    ensures Shape(css, m.(valueStart := None), i) && Sides(css, m.(valueStart := None), None)
  {
    hide Neighbours, CopiesOf, TrimmedEnd;
  }

  lemma SamePlaces(m: Machine, m': Machine, i: nat, done: seq<nat>, lost: set<nat>)
    requires Places(m, i, done, lost) && m'.out == m.out && m'.segment == m.segment
    ensures Places(m', i, done, lost)
  {
  }

  lemma PlaceOneMore(m: Machine, i: nat, done: seq<nat>, lost: set<nat>)
    requires Places(m, i, done, lost) && m.segment == []
    ensures Places(m.(out := m.out + [Copied(i)]), i + 1, done + Positions(i, i + 1), lost)
  {
    hide Places;
    CopiesConcat(m.out, [Copied(i)]);
    CopyOfOne(Copied(i));
    PositionsIncrease(i, i + 1);
    assert Positions(i, i + 1) == [i];
    hide Increasing, Positions;
    var m' := m.(out := m.out + [Copied(i)]);
    assert Placed(m') == Placed(m) + [i] by {
      assert CopiesOf([]) == [];
      hide CopiesOf;
      assert CopiesOf(m.out) + [i] + [] == CopiesOf(m.out) + [] + [i];
    }
    PlacesGrow(m, m', i, i + 1, [i], done, lost);
  }

  /** A lexeme later, the machine and the reading still match. */
  lemma StepMatches(css: Css, m: Machine, i: nat, word: bool, depth: nat, r: Reading, done: seq<nat>, lost: set<nat>)
    requires i < |css| && Shape(css, m, i) && m.depth == depth && Matches(css, m, r, i) && Places(m, i, done, lost)
    ensures var (lexeme, end) := LexemeAt(css, i, word, depth);
            var m' := LexemeRead(css, m, i, lexeme, end);
            var gone := if EndsDeclaration(css, i, lexeme, depth) then Doomed(r.doomed) else {};
            && Matches(css, m', Read(css, i, lexeme, end, depth, r), end)
            && Places(m', end, done + NextKept(css, i, word, depth), lost + gone)
  {
    var (lexeme, end) := LexemeAt(css, i, word, depth);
    LexerFindsText(css, i, word, depth);
    BraceIsShort(css, i, word, depth);
    hide Shape, Places, TextRead, BraceRead, SeparatorRead, Commented, LexemeAt, TextAt, Matches, Read;
    assert done + [] == done && lost + {} == lost;
    match lexeme
    case Comment =>
      CommentMatches(css, m, r, i, end);
      CommentPlaces(css, m, i, end, done, lost);
    case Blank =>
      PlacesLater(m, m.(pendingSpace := true), i, end, done, lost);
      BlankMatches(css, m, r, i, end);
    case Separator =>
      SeparatorMatches(css, m, r, i, end, done, lost);
    case Text =>
      if IsBrace(css, i, depth) {
        BracePlaces(css, m, r, i, done, lost);
      } else {
        TextMatches(css, m, r, i, end);
        TextPlaces(css, m, i, end, done, lost);
      }
  }

  lemma BlankMatches(css: Css, m: Machine, r: Reading, i: nat, end: nat)
    requires i < end <= |css| && Matches(css, m, r, i)
    ensures Matches(css, m.(pendingSpace := true), Read(css, i, Blank, end, m.depth, r), end)
  {
    hide CopiesOf, TrimmedEnd, OneGap;
  }

  lemma SeparatorMatches(css: Css, m: Machine, r: Reading, i: nat, end: nat, done: seq<nat>, lost: set<nat>)
    requires i < end <= |css| && Shape(css, m, i) && Matches(css, m, r, i) && Places(m, i, done, lost)
    ensures Matches(css, SeparatorRead(css, m, i), Read(css, i, Separator, end, m.depth, r), end)
    ensures Places(SeparatorRead(css, m, i), end, done, lost + Doomed(r.doomed))
  {
    hide Sides, Head, Tail, Shape, Places, Ended, Neighbours;
    EndingLosesTheDoomed(css, m, i, r.doomed, done, lost);
    EndKeepsShape(css, m, i);
    EmptyMatches(css, SeparatorRead(css, m, i), end);
    PlacesLater(Ended(css, m), SeparatorRead(css, m, i), i, end, done, lost + Doomed(r.doomed));
  }

  lemma BraceIsShort(css: Css, i: nat, word: bool, depth: nat)
    requires i < |css|
    ensures IsBrace(css, i, depth) && LexemeAt(css, i, word, depth).0 == Text ==> LexemeAt(css, i, word, depth).1 == i + 1
  {
    if UrlAt(css, i) { UrlIsNotAColon(css, i); }
  }

  lemma PlacesLater(m: Machine, m': Machine, i: nat, i': nat, done: seq<nat>, lost: set<nat>)
    requires Places(m, i, done, lost) && m'.out == m.out && m'.segment == m.segment && i <= i'
    ensures Places(m', i', done, lost)
  {
  }

  // ---- every input ----

  lemma {:induction false} RunLosesTheDoomed(css: Css, m: Machine, i: nat, word: bool, depth: nat, r: Reading,
                                             done: seq<nat>, lost: set<nat>)
    requires i <= |css| && Invariant(css, m, i, word, depth) && Matches(css, m, r, i) && Places(m, i, done, lost)
    ensures CopiesOf(Run(css, m, i)) == Without(done + Kept(css, i, word, depth), lost + Lost(css, i, word, depth, r))
    ensures forall p :: p in Lost(css, i, word, depth, r) ==> p in done + Kept(css, i, word, depth)
    decreases |css| - i
  {
    hide Step, LexemeAt, CopiesOf, Without, Ended, Matches, LexemeRead, Read, Shape, AgreesOnWord;
    if i == |css| {
      FinishLosesTheDoomed(css, m, r, done, lost);
      assert done + [] == done;
    } else {
      StepKeepsInvariant(css, m, i, word, depth);
      StepReadsALexeme(css, m, i, word, depth);
      StepMatches(css, m, i, word, depth, r, done, lost);
      hide Invariant, Places;
      var (lexeme, end) := LexemeAt(css, i, word, depth);
      var more, m' := NextKept(css, i, word, depth), LexemeRead(css, m, i, lexeme, end);
      var word', depth', r' := NextWord(css, i, word, depth), NextDepth(css, i, word, depth),
                               Read(css, i, lexeme, end, depth, r);
      var gone := if EndsDeclaration(css, i, lexeme, depth) then Doomed(r.doomed) else {};
      RunLosesTheDoomed(css, m', end, word', depth', r', done + more, lost + gone);
      Regroup(done, more, Kept(css, end, word', depth'));
      assert lost + gone + Lost(css, end, word', depth', r') == lost + Lost(css, i, word, depth, r);
      assert forall p :: p in gone ==> p in done + more;
    }
  }

  lemma FinishLosesTheDoomed(css: Css, m: Machine, r: Reading, done: seq<nat>, lost: set<nat>)
    requires Shape(css, m, |css|) && Matches(css, m, r, |css|) && Places(m, |css|, done, lost)
    ensures CopiesOf(Run(css, m, |css|)) == Without(done, lost + Doomed(r.doomed))
    ensures forall p :: p in Doomed(r.doomed) ==> p in done
  {
    EndingLosesTheDoomed(css, m, |css|, r.doomed, done, lost);
    hide Ended, Matches, Shape, Without;
    var m' := Ended(css, m);
    LinkCopies(m'.out, Marks(m'.pendingSemicolon), []);
    assert m'.out + Marks(m'.pendingSemicolon) + [] == m'.out + Marks(m'.pendingSemicolon);
  }

  /** The positions of the text that the pass drops. */
  function Dropped(css: Css): set<nat> { Lost(css, 0, false, 0, UNREAD) }

  /** Of the text, whitespace included, everything but what is dropped is written exactly once and in order; and what
      is dropped is text: the whitespace of an escape right before the colon that starts a value. */
  lemma OnlyTheDroppedIsLost(css: Css)
    ensures CopiesOf(Stripped(css)) == Without(Kept(css, 0, false, 0), Dropped(css))
    ensures forall p :: p in Dropped(css) ==> p in Kept(css, 0, false, 0) && Escaped(css, p)
  {
    StartsInShape(css);
    RunLosesTheDoomed(css, START, 0, false, 0, UNREAD, [], {});
    LostIsEscaped(css, 0, false, 0, UNREAD);
    assert [] + Kept(css, 0, false, 0) == Kept(css, 0, false, 0);
    assert {} + Dropped(css) == Dropped(css);
  }

  lemma {:induction false} BlanksAreNotSolid(css: Css, s: seq<nat>, gone: set<nat>)
    requires forall p :: p in gone ==> p < |css| && IsSpace(css[p])
    ensures Solid(css, Without(s, gone)) == Solid(css, s)
  {
    hide IsSpace;
    if s != [] {
      var n := |s| - 1;
      BlanksAreNotSolid(css, s[..n], gone);
      var rest := Without(s[..n], gone);
      if s[n] in gone {
        assert Without(s, gone) == rest;
        assert Solid(css, s) == Solid(css, s[..n]);
      } else {
        assert Without(s, gone) == rest + [s[n]];
        assert (rest + [s[n]])[..|rest|] == rest;
      }
    }
  }

  /** Every character of the text outside comments, between-token whitespace and separators is written exactly
      once and in order, whitespace apart; all else in the output is a space, a semicolon or an empty comment;
      and no two characters are brought together, except at punctuation. */
  lemma StrippingKeepsText(css: Css)
    ensures Solid(css, CopiesOf(Stripped(css))) == Solid(css, Kept(css, 0, false, 0))
    ensures Neighbours(css, Stripped(css))
  {
    NothingIsBroughtTogether(css);
    OnlyTheDroppedIsLost(css);
    hide Stripped, Kept, Dropped, Neighbours, CopiesOf;
    BlanksAreNotSolid(css, Kept(css, 0, false, 0), Dropped(css));
  }

  /** All of the text is written as it was, exactly when no declaration's colon follows such an escape. */
  lemma AllTextIsWritten(css: Css)
    ensures CopiesOf(Stripped(css)) == Kept(css, 0, false, 0) <==> Dropped(css) == {}
  {
    hide Stripped, Kept, Dropped;
    OnlyTheDroppedIsLost(css);
    var kept := Kept(css, 0, false, 0);
    if Dropped(css) == {} {
      WithoutNone(kept, {});
    } else {
      var p :| p in Dropped(css);
      WithoutLeaves(kept, Dropped(css), p);
    }
  }

  /** A name that ends in an escaped space loses the space, and its backslash then stands before the colon. */
  lemma AnEscapedSpaceIsDropped() returns (css: Css)
    ensures css == [0x61, BACKSLASH, SPACE, COLON, 0x62]
    ensures Kept(css, 0, false, 0) == [0, 1, 2, 3, 4] && Dropped(css) == {2}
    ensures CopiesOf(Stripped(css)) == [0, 1, 3, 4]
  {
    hide Stripped, Kept, Dropped, CopiesOf, Escaped, Without;
    css := [0x61, BACKSLASH, SPACE, COLON, 0x62];
    TheColonFollowsTheEscape(css);
    OnlyTheDroppedIsLost(css);
    WithoutTwo();
  }

  lemma WithoutTwo()
    ensures Without([0, 1, 2, 3, 4], {2}) == [0, 1, 3, 4]
  {
    var kept: seq<nat> := [0, 1] + [2] + [3, 4];
    assert Increasing(kept, 0, 5);
    hide Increasing, Without;
    WithoutTheOne([0, 1], 2, [3, 4], 5);
    assert kept == [0, 1, 2, 3, 4];
  }

  lemma TheColonFollowsTheEscape(css: Css)
    requires css == [0x61, BACKSLASH, SPACE, COLON, 0x62]
    ensures Kept(css, 0, false, 0) == [0, 1, 2, 3, 4] && Dropped(css) == {2}
  {
    assert LexemeAt(css, 0, false, 0) == (Text, 1);
    assert LexemeAt(css, 1, true, 0) == (Text, 3);
    assert LexemeAt(css, 3, false, 0) == (Text, 4);
    assert LexemeAt(css, 4, false, 0) == (Text, 5);
    hide LexemeAt;
    var r1 := Read(css, 0, Text, 1, 0, UNREAD);
    var r2 := Read(css, 1, Text, 3, 0, r1);
    var r3 := Read(css, 3, Text, 4, 0, r2);
    var r4 := Read(css, 4, Text, 5, 0, r3);
    assert r4.doomed == Some(2);
    hide Read;
    assert Kept(css, 4, false, 0) == [4] && Lost(css, 4, false, 0, r3) == {2};
    assert Kept(css, 3, false, 0) == [3, 4] && Lost(css, 3, false, 0, r2) == {2};
    assert Kept(css, 1, true, 0) == [1, 2, 3, 4] && Lost(css, 1, true, 0, r1) == {2};
  }
}
