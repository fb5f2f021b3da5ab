/** The wallet build's style sheet stripper: a single scan over the characters, here on pieces that remember where in
    the source they come from. */
module CssStripper {
  import opened Results

  /** A UTF-16 code unit. */
  type Unit = u: int | 0 <= u < 0x1_0000

  type Css = seq<Unit>

  const SPACE: Unit := 0x20
  const DOUBLE_QUOTE: Unit := 0x22
  const SINGLE_QUOTE: Unit := 0x27
  const OPEN_PAREN: Unit := 0x28
  const CLOSE_PAREN: Unit := 0x29
  const STAR: Unit := 0x2A
  const DASH: Unit := 0x2D
  const SLASH: Unit := 0x2F
  const COLON: Unit := 0x3A
  const SEMICOLON: Unit := 0x3B
  const AT: Unit := 0x40
  const BACKSLASH: Unit := 0x5C
  const UNDERSCORE: Unit := 0x5F
  const OPEN_BRACE: Unit := 0x7B
  const CLOSE_BRACE: Unit := 0x7D

  /** The class \s. */
  predicate IsSpace(u: Unit) {
    || 0x09 <= u <= 0x0D || u == 0x20 || u == 0xA0 || u == 0x1680 || 0x2000 <= u <= 0x200A
    || u == 0x2028 || u == 0x2029 || u == 0x202F || u == 0x205F || u == 0x3000 || u == 0xFEFF
  }

  /** The class [\w-]. */
  predicate IsWord(u: Unit) {
    0x30 <= u <= 0x39 || 0x41 <= u <= 0x5A || 0x61 <= u <= 0x7A || u == UNDERSCORE || u == DASH
  }

  /** The class [\s{};]. */
  predicate Breaks(u: Unit) { IsSpace(u) || u == OPEN_BRACE || u == CLOSE_BRACE || u == SEMICOLON }

  /** At these, text on both sides may touch. */
  predicate Punctuates(u: Unit) { u == COLON || u == OPEN_BRACE || u == CLOSE_BRACE || u == SEMICOLON }

  // ---- scanning ----

  predicate CommentAt(css: Css, i: nat)
    requires i < |css|
  {
    css[i] == SLASH && i + 1 < |css| && css[i + 1] == STAR
  }

  /** Past the first comment end at or after `i`, or past everything. */
  function AfterComment(css: Css, i: nat): (next: nat)
    ensures next >= |css| || next >= i
    ensures next <= |css|
    decreases |css| - i
  {
    if i + 1 >= |css| then |css|
    else if css[i] == STAR && css[i + 1] == SLASH then i + 2
    else AfterComment(css, i + 1)
  }

  /** Past the closing parenthesis at or after `i`, or past everything. */
  function AfterParen(css: Css, i: nat): (next: nat)
    requires i <= |css|
    ensures i <= next <= |css| && (i < |css| ==> i < next)
    decreases |css| - i
  {
    if i >= |css| then |css| else if css[i] == CLOSE_PAREN then i + 1 else AfterParen(css, i + 1)
  }

  /** The closing quote of a string whose inside starts at `i`, escapes skipped; it may lie past the end. */
  function StringEnd(css: Css, quote: Unit, i: nat): (end: nat)
    ensures end >= i
    decreases |css| - i
  {
    if i >= |css| || css[i] == quote then i else StringEnd(css, quote, i + if css[i] == BACKSLASH then 2 else 1)
  }

  function Clip(css: Css, i: nat): nat { if i <= |css| then i else |css| }

  predicate Letter(u: Unit, lower: Unit) { u == lower || u == lower - 0x20 }

  /** The first position from `i` on, before `limit`, that is not whitespace. */
  function SkipSpace(css: Css, i: nat, limit: nat): (j: nat)
    requires i <= limit <= |css|
    ensures i <= j <= limit
    decreases limit - i
  {
    if i < limit && IsSpace(css[i]) then SkipSpace(css, i + 1, limit) else i
  }

  /** An unquoted url( within sixteen units. */
  predicate UrlAt(css: Css, i: nat)
    requires i < |css|
  {
    var limit := Clip(css, i + 16);
    && i + 4 <= limit && Letter(css[i], 0x75) && Letter(css[i + 1], 0x72) && Letter(css[i + 2], 0x6C) && css[i + 3] == OPEN_PAREN
    && var j := SkipSpace(css, i + 4, limit);
       j < limit && css[j] != DOUBLE_QUOTE && css[j] != SINGLE_QUOTE && css[j] != CLOSE_PAREN
  }

  // ---- what the text consists of, independently of what is written ----

  datatype Lexeme = Comment | Blank | Separator | Text

  /** The lexeme at `i`, and where it ends. `word` says that the text right before `i` ends in a word character;
      `depth` counts open parentheses. */
  function LexemeAt(css: Css, i: nat, word: bool, depth: nat): (r: (Lexeme, nat))
    requires i < |css|
    ensures i < r.1 <= |css|
  {
    if CommentAt(css, i) then (Comment, AfterComment(css, i + 2))
    else if IsSpace(css[i]) then (Blank, i + 1)
    else if css[i] == DOUBLE_QUOTE || css[i] == SINGLE_QUOTE then (Text, Clip(css, StringEnd(css, css[i], i + 1) + 1))
    else if css[i] == BACKSLASH then (Text, Clip(css, i + 2))
    else if !word && UrlAt(css, i) then (Text, AfterParen(css, i))
    else if depth == 0 && css[i] == SEMICOLON then (Separator, i + 1)
    else (Text, i + 1)
  }

  function DepthAfter(css: Css, i: nat, depth: nat, lexeme: Lexeme, end: nat): nat
    requires i < |css|
  {
    if lexeme != Text || end != i + 1 then depth
    else if css[i] == OPEN_PAREN then depth + 1
    else if css[i] == CLOSE_PAREN && depth > 0 then depth - 1
    else depth
  }

  predicate WordAfter(css: Css, lexeme: Lexeme, end: nat)
    requires 0 < end <= |css|
  {
    lexeme == Text && IsWord(css[end - 1])
  }

  function Positions(from: nat, to: nat): (r: seq<nat>)
    requires from <= to
    ensures |r| == to - from && forall k :: 0 <= k < |r| ==> r[k] == from + k
  {
    seq(to - from, k => from + k)
  }

  /** The positions from `i` on that belong to text: outside comments, between-token whitespace and separators. */
  function Kept(css: Css, i: nat, word: bool, depth: nat): seq<nat>
    decreases |css| - i
  {
    if i >= |css| then []
    else
      var (lexeme, end) := LexemeAt(css, i, word, depth);
      (if lexeme == Text then Positions(i, end) else [])
      + Kept(css, end, WordAfter(css, lexeme, end), DepthAfter(css, i, depth, lexeme, end))
  }

  /** Of some positions, those that do not hold whitespace. */
  function Solid(css: Css, positions: seq<nat>): seq<nat> {
    if positions == [] then []
    else
      var last := positions[|positions| - 1];
      Solid(css, positions[..|positions| - 1]) + if last < |css| && IsSpace(css[last]) then [] else [last]
  }

  // ---- the pass, on pieces that remember where they come from ----

  /** A piece of output: a copied source position, or one of the three things the pass may add. A mark is a semicolon
      that stands for the separator at a source position. */
  datatype Piece = Copied(at: nat) | Gap | Mark(at: nat) | EmptyComment

  function Units(css: Css, p: Piece): seq<Unit> {
    match p
    case Copied(i) => if i < |css| then [css[i]] else []
    case Gap => [SPACE]
    case Mark(_) => [SEMICOLON]
    case EmptyComment => [SLASH, STAR, STAR, SLASH]
  }

  function Erase(css: Css, pieces: seq<Piece>): Css {
    if pieces == [] then [] else Erase(css, pieces[..|pieces| - 1]) + Units(css, pieces[|pieces| - 1])
  }

  datatype Machine = Machine(out: seq<Piece>, segment: seq<Piece>, pendingSpace: bool, pendingSemicolon: Option<nat>,
                             depth: nat, valueStart: Option<nat>)

  const START := Machine([], [], false, None, 0, None)

  predicate IsBlank(css: Css, p: Piece) { p.Gap? || (p.Copied? && p.at < |css| && IsSpace(css[p.at])) }

  predicate EndsInWord(css: Css, pieces: seq<Piece>) {
    && pieces != [] && pieces[|pieces| - 1].Copied?
    && pieces[|pieces| - 1].at < |css| && IsWord(css[pieces[|pieces| - 1].at])
  }

  function CopiedRange(from: nat, to: nat): (r: seq<Piece>)
    requires from <= to
    ensures |r| == to - from && forall k :: 0 <= k < |r| ==> r[k] == Copied(from + k)
  {
    seq(to - from, k requires 0 <= k => Copied(from + k))
  }

  function Appended(m: Machine, text: seq<Piece>): Machine {
    m.(segment := m.segment + (if m.pendingSpace && m.segment != [] then [Gap] else []) + text, pendingSpace := false)
  }

  function TrimmedEnd(css: Css, pieces: seq<Piece>): seq<Piece> {
    if pieces != [] && IsBlank(css, pieces[|pieces| - 1]) then TrimmedEnd(css, pieces[..|pieces| - 1]) else pieces
  }

  function TrimmedStart(css: Css, pieces: seq<Piece>): seq<Piece> {
    if pieces != [] && IsBlank(css, pieces[0]) then TrimmedStart(css, pieces[1..]) else pieces
  }

  /** The segment with the whitespace around its value's colon gone. */
  function Trimmed(css: Css, m: Machine): seq<Piece> {
    if m.valueStart.None? || m.valueStart.value >= |m.segment| then m.segment
    else
      var v := m.valueStart.value;
      TrimmedEnd(css, m.segment[..v]) + [m.segment[v]] + TrimmedStart(css, m.segment[v + 1..])
  }

  /** The mark of a separator that is still to be written. */
  function Marks(pending: Option<nat>): seq<Piece> { if pending.Some? then [Mark(pending.value)] else [] }

  /** endSegment. */
  function Ended(css: Css, m: Machine): Machine {
    var segment := Trimmed(css, m);
    if segment == [] then m.(segment := [], pendingSpace := false, depth := 0, valueStart := None)
    else Machine(m.out + Marks(m.pendingSemicolon) + segment, [], false, None, 0, None)
  }

  predicate StartsWithAt(css: Css, pieces: seq<Piece>) {
    var text := Erase(css, pieces);
    text != [] && text[0] == AT
  }

  /** One ordinary character inside a segment. */
  function Ordinary(css: Css, m: Machine, i: nat): Machine
    requires i < |css|
  {
    var depth := if css[i] == OPEN_PAREN then m.depth + 1
                 else if css[i] == CLOSE_PAREN && m.depth > 0 then m.depth - 1
                 else m.depth;
    var m' := Appended(m, [Copied(i)]).(depth := depth);
    if css[i] == COLON && depth == 0 && m.valueStart.None? && !StartsWithAt(css, m'.segment)
    then m'.(valueStart := Some(|m'.segment| - 1)) else m'
  }

  /** A comment leaves an empty one behind when nothing else would separate its neighbours. */
  function Commented(css: Css, m: Machine, next: nat): Machine {
    if !m.pendingSpace && m.segment != [] && next < |css| && !Breaks(css[next]) then Appended(m, [EmptyComment]) else m
  }

  /** The loop body: the machine after the lexeme at `i`, and where the next one starts. */
  function Step(css: Css, m: Machine, i: nat): (r: (Machine, nat))
    requires i < |css|
    ensures i < r.1 <= |css|
  {
    if CommentAt(css, i) then
      var next := AfterComment(css, i + 2);
      (Commented(css, m, next), next)
    else if IsSpace(css[i]) then (m.(pendingSpace := true), i + 1)
    else if css[i] == DOUBLE_QUOTE || css[i] == SINGLE_QUOTE then
      var next := Clip(css, StringEnd(css, css[i], i + 1) + 1);
      (Appended(m, CopiedRange(i, next)), next)
    else if css[i] == BACKSLASH then (Appended(m, CopiedRange(i, Clip(css, i + 2))), Clip(css, i + 2))
    else if (m.pendingSpace || !EndsInWord(css, m.segment)) && UrlAt(css, i) then
      (Appended(m, CopiedRange(i, AfterParen(css, i))), AfterParen(css, i))
    else if m.depth == 0 && css[i] == OPEN_BRACE then
      var m' := Ended(css, m.(valueStart := None));
      (m'.(out := m'.out + [Copied(i)]), i + 1)
    else if m.depth == 0 && css[i] == SEMICOLON then
      var m' := Ended(css, m);
      (if m.segment != [] then m'.(pendingSemicolon := Some(i)) else m', i + 1)
    else if m.depth == 0 && css[i] == CLOSE_BRACE then
      var m' := Ended(css, m);
      (m'.(out := m'.out + [Copied(i)], pendingSemicolon := None), i + 1)
    else (Ordinary(css, m, i), i + 1)
  }

  function Run(css: Css, m: Machine, i: nat): seq<Piece>
    decreases |css| - i
  {
    if i >= |css| then
      var m' := Ended(css, m);
      m'.out + Marks(m'.pendingSemicolon)
    else
      var (m', next) := Step(css, m, i);
      Run(css, m', next)
  }

  /** The pieces of the stripped text. */
  function Stripped(css: Css): seq<Piece> { Run(css, START, 0) }
}
