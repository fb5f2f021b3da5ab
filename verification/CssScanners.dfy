/** What the stripper's scanners find, without following them: the ends of comments, strings and urls, and where an
    unquoted url begins. */
module CssScanners {
  import opened CssStripper

  // ---- comments ----

  /** A comment end starts at `j`. */
  predicate Closes(css: Css, j: nat) { j + 1 < |css| && css[j] == STAR && css[j + 1] == SLASH }

  /** A comment ends right behind the first comment end at or after `i`, and with the text if there is none. */
  lemma {:induction false} CommentEnds(css: Css, i: nat)
    ensures var end := AfterComment(css, i);
            || (i + 2 <= end && Closes(css, end - 2) && forall j :: i <= j < end - 2 ==> !Closes(css, j))
            || (end == |css| && forall j :: i <= j ==> !Closes(css, j))
    decreases |css| - i
  {
    if i + 1 < |css| && !Closes(css, i) { CommentEnds(css, i + 1); }
  }

  // ---- strings ----

  /** The number of backslashes right before `p`, counted back to `start` at most. */
  function Backslashes(css: Css, start: nat, p: nat): nat
    requires start <= p <= |css|
  {
    if start < p && css[p - 1] == BACKSLASH then 1 + Backslashes(css, start, p - 1) else 0
  }

  /** The quote at `p` is not escaped within the string whose inside starts at `start`. */
  predicate Quotes(css: Css, quote: Unit, start: nat, p: nat) {
    start <= p < |css| && css[p] == quote && Backslashes(css, start, p) % 2 == 0
  }

  /** A string ends at the first quote of its kind with an even number of backslashes right before it. */
  lemma StringEnds(css: Css, quote: Unit, start: nat)
    requires quote != BACKSLASH
    ensures var end := StringEnd(css, quote, start);
            && (end < |css| <==> exists p :: Quotes(css, quote, start, p))
            && (end < |css| ==> Quotes(css, quote, start, end) && forall p :: start <= p < end ==> !Quotes(css, quote, start, p))
  {
    if start < |css| {
      StringEndsFrom(css, quote, start, start);
    }
  }

  lemma {:induction false} StringEndsFrom(css: Css, quote: Unit, start: nat, i: nat)
    requires quote != BACKSLASH && start <= i && (i <= |css| ==> Backslashes(css, start, i) % 2 == 0)
    ensures var end := StringEnd(css, quote, i);
            && (forall p :: i <= p < end ==> !Quotes(css, quote, start, p))
            && (end < |css| ==> Quotes(css, quote, start, end))
    decreases |css| - i
  {
    if i < |css| && css[i] != quote {
      if css[i] == BACKSLASH {
        StringEndsFrom(css, quote, start, i + 2);
      } else {
        StringEndsFrom(css, quote, start, i + 1);
      }
    }
  }

  // ---- urls ----

  /** A url ends right behind the first closing parenthesis, and with the text if there is none. */
  lemma {:induction false} UrlEnds(css: Css, i: nat)
    requires i <= |css|
    ensures var end := AfterParen(css, i);
            || (i < end && css[end - 1] == CLOSE_PAREN && forall j :: i <= j < end - 1 ==> css[j] != CLOSE_PAREN)
            || (end == |css| && forall j :: i <= j < |css| ==> css[j] != CLOSE_PAREN)
    decreases |css| - i
  {
    if i < |css| && css[i] != CLOSE_PAREN { UrlEnds(css, i + 1); }
  }

  lemma {:induction false} SpaceIsSkipped(css: Css, i: nat, limit: nat)
    requires i <= limit <= |css|
    ensures var j := SkipSpace(css, i, limit);
            (forall k :: i <= k < j ==> IsSpace(css[k])) && (j < limit ==> !IsSpace(css[j]))
    decreases limit - i
  {
    hide IsSpace;
    if i < limit && IsSpace(css[i]) { SpaceIsSkipped(css, i + 1, limit); }
  }

  /** The letters u, r, l in either case and an opening parenthesis. */
  predicate UrlOpens(css: Css, i: nat) {
    && i + 3 < |css| && css[i] in {0x55, 0x75} && css[i + 1] in {0x52, 0x72} && css[i + 2] in {0x4C, 0x6C}
    && css[i + 3] == OPEN_PAREN
  }

  /** At `k`, within sixteen units of `i`, an unquoted address begins behind nothing but whitespace. */
  predicate AddressBegins(css: Css, i: nat, k: nat) {
    && i + 4 <= k < i + 16 && k < |css| && (forall j :: i + 4 <= j < k ==> IsSpace(css[j]))
    && !IsSpace(css[k]) && css[k] !in {DOUBLE_QUOTE, SINGLE_QUOTE, CLOSE_PAREN}
  }

  /** An unquoted url is one whose address begins within sixteen units. */
  lemma UrlBegins(css: Css, i: nat)
    requires i < |css|
    ensures UrlAt(css, i) <==> UrlOpens(css, i) && exists k :: AddressBegins(css, i, k)
  {
    hide IsSpace;
    var limit := Clip(css, i + 16);
    if i + 4 <= limit {
      SpaceIsSkipped(css, i + 4, limit);
      var j := SkipSpace(css, i + 4, limit);
      if k :| AddressBegins(css, i, k) { assert j == k; }
      if UrlAt(css, i) { assert AddressBegins(css, i, j); }
    }
  }

  // ---- character classes ----

  /** The white space and line terminators of ECMAScript. */
  lemma SpacesAreTheseUnits(u: Unit)
    ensures IsSpace(u) <==>
              u in {0x09, 0x0A, 0x0B, 0x0C, 0x0D, 0x20, 0xA0, 0x1680, 0x2000, 0x2001, 0x2002, 0x2003, 0x2004, 0x2005, 0x2006,
                    0x2007, 0x2008, 0x2009, 0x200A, 0x2028, 0x2029, 0x202F, 0x205F, 0x3000, 0xFEFF}
  {
  }

  /** Letters, digits, the underscore and the hyphen. */
  lemma WordsAreTheseUnits(u: Unit)
    ensures IsWord(u) <==> || 'a' as int <= u <= 'z' as int || 'A' as int <= u <= 'Z' as int
                           || '0' as int <= u <= '9' as int || u == '_' as int || u == '-' as int
  {
  }

  // ---- lexemes ----

  /** A slash and a star open a comment, which ends behind the first star and slash that come after both. */
  lemma CommentLexeme(css: Css, i: nat, word: bool, depth: nat)
    requires i + 1 < |css| && css[i] == '/' as int && css[i + 1] == '*' as int
    ensures var (kind, end) := LexemeAt(css, i, word, depth);
            && kind == Comment
            && (if exists j :: i + 2 <= j && Closes(css, j)
                then i + 4 <= end && Closes(css, end - 2) && forall j :: i + 2 <= j < end - 2 ==> !Closes(css, j)
                else end == |css|)
  {
    CommentEnds(css, i + 2);
  }

  /** A quote opens a string, which is text and includes its closing quote. */
  lemma StringLexeme(css: Css, i: nat, word: bool, depth: nat)
    requires i < |css| && css[i] in {'\"' as int, '\'' as int}
    ensures var (kind, end) := LexemeAt(css, i, word, depth);
            var quote, start := css[i], i + 1;
            && kind == Text
            && (if exists p :: Quotes(css, quote, start, p)
                then start < end && Quotes(css, quote, start, end - 1)
                     && forall p :: start <= p < end - 1 ==> !Quotes(css, quote, start, p)
                else end == |css|)
  {
    StringEnds(css, css[i], i + 1);
  }

  /** An unquoted url not glued to a word is text up to and with its closing parenthesis. */
  lemma UrlLexeme(css: Css, i: nat, depth: nat)
    requires i < |css| && UrlOpens(css, i) && exists k :: AddressBegins(css, i, k)
    ensures var (kind, end) := LexemeAt(css, i, false, depth);
            && kind == Text
            && (if exists j :: i <= j < |css| && css[j] == ')' as int
                then i < end && css[end - 1] == ')' as int && forall j :: i <= j < end - 1 ==> css[j] != ')' as int
                else end == |css|)
  {
    UrlBegins(css, i);
    UrlEnds(css, i);
    hide UrlAt, AfterParen;
  }

  /** Anything else is one unit, or two behind a backslash: whitespace is blank, a semicolon outside parentheses separates,
      the rest is text. */
  lemma OtherLexemes(css: Css, i: nat, word: bool, depth: nat)
    requires i < |css| && !(i + 1 < |css| && css[i] == '/' as int && css[i + 1] == '*' as int)
    requires css[i] !in {'\"' as int, '\'' as int}
    requires word || !UrlOpens(css, i) || !exists k :: AddressBegins(css, i, k)
    ensures LexemeAt(css, i, word, depth)
         == if IsSpace(css[i]) then (Blank, i + 1)
            else if css[i] == '\\' as int then (Text, if i + 1 < |css| then i + 2 else i + 1)
            else if css[i] == ';' as int && depth == 0 then (Separator, i + 1)
            else (Text, i + 1)
  {
    UrlBegins(css, i);
    hide UrlAt, UrlOpens, AddressBegins, IsSpace;
  }
}
