/**
 * The string helpers of `cn.yxffcode.datasource.StringUtils`: case-insensitive
 * comparison, the leading-whitespace prefix test, and the comment stripper that
 * the statement classifier runs before it looks at the leading keyword.
 *
 * Java strings are modelled as `string` (a sequence of Dafny characters); a
 * Java `null` is `None`. Case folding is ASCII only.
 */
module StringUtils {
  import opened Wrappers
  import opened Faults

  // ---------------------------------------------------------------------------
  // Characters
  // ---------------------------------------------------------------------------

  /** `Character.toUpperCase`, restricted to ASCII letters. */
  function Upper(c: char): char {
    if 'a' <= c <= 'z' then (c as int - 32) as char else c
  }

  /** `Character.toLowerCase`, restricted to ASCII letters. */
  function Lower(c: char): char {
    if 'A' <= c <= 'Z' then (c as int + 32) as char else c
  }

  /**
   * `Character.isWhitespace`: the Unicode space, line and paragraph separators
   * except the three non-breaking spaces, plus the ASCII controls U+0009 to
   * U+000D and U+001C to U+001F.
   */
  predicate IsWhitespace(c: char) {
    ('\t' <= c <= '\U{000D}') || ('\U{001C}' <= c <= '\U{001F}') || c == ' '
    || c == '\U{1680}' || ('\U{2000}' <= c <= '\U{2006}') || ('\U{2008}' <= c <= '\U{200A}')
    || c == '\U{2028}' || c == '\U{2029}' || c == '\U{205F}' || c == '\U{3000}'
  }

  /** The comparison `String.regionMatches` applies to one pair of characters. */
  predicate CharsMatch(ignoreCase: bool, c1: char, c2: char) {
    c1 == c2 || (ignoreCase && (Upper(c1) == Upper(c2) || Lower(c1) == Lower(c2)))
  }

  // ---------------------------------------------------------------------------
  // regionMatches, equalsIgnoreCase
  // ---------------------------------------------------------------------------

  /**
   * What `String.regionMatches(ignoreCase, toffset, other, ooffset, len)` answers:
   * false when either region leaves its string, otherwise whether the `len`
   * characters match pairwise (true when `len <= 0`).
   */
  predicate RegionMatchesSpec(cs: string, ignoreCase: bool, thisStart: int,
                              substring: string, start: int, length: int)
  {
    0 <= thisStart && 0 <= start && thisStart <= |cs| - length && start <= |substring| - length
    && forall k :: 0 <= k < length ==> PairMatches(cs, ignoreCase, thisStart, substring, start, k)
  }

  /** The `k`-th characters of the two regions match. */
  predicate PairMatches(cs: string, ignoreCase: bool, thisStart: int, substring: string, start: int, k: int)
    requires 0 <= thisStart + k < |cs| && 0 <= start + k < |substring|
  {
    CharsMatch(ignoreCase, cs[thisStart + k], substring[start + k])
  }

  /**
   * `StringUtils.regionMatches`: the region bounds are checked as
   * `String.regionMatches` checks them, then the character loop compares the
   * regions one pair at a time and stops at the first mismatch.
   */
  method RegionMatches(cs: string, ignoreCase: bool, thisStart: int,
                       substring: string, start: int, length: int) returns (r: bool)
    ensures r <==> RegionMatchesSpec(cs, ignoreCase, thisStart, substring, start, length)
  {
    if !(0 <= thisStart && 0 <= start && thisStart <= |cs| - length && start <= |substring| - length) {
      return false;
    }
    var index1, index2, tmpLen := thisStart, start, length;
    while tmpLen > 0
      invariant tmpLen <= length && (length > 0 ==> 0 <= tmpLen) && (length <= 0 ==> tmpLen == length)
      invariant index1 == thisStart + (length - tmpLen) && index2 == start + (length - tmpLen)
      invariant forall k :: 0 <= k < length - tmpLen ==> PairMatches(cs, ignoreCase, thisStart, substring, start, k)
      decreases tmpLen
    {
      var c1 := cs[index1];
      var c2 := substring[index2];
      index1, index2, tmpLen := index1 + 1, index2 + 1, tmpLen - 1;
      if c1 == c2 {
        continue;
      }
      assert c1 == cs[thisStart + (length - tmpLen - 1)] && c2 == substring[start + (length - tmpLen - 1)];
      if !ignoreCase {
        assert !PairMatches(cs, ignoreCase, thisStart, substring, start, length - tmpLen - 1);
        return false;
      }
      if Upper(c1) != Upper(c2) && Lower(c1) != Lower(c2) {
        assert !PairMatches(cs, ignoreCase, thisStart, substring, start, length - tmpLen - 1);
        return false;
      }
    }
    return true;
  }

  /**
   * `StringUtils.equalsIgnoreCase`: two nulls are equal, a null never equals a
   * string, strings of different lengths differ, and otherwise the whole
   * strings are compared ignoring case.
   */
  function EqualsIgnoreCase(str1: Option<string>, str2: Option<string>): (r: bool)
    ensures str1.None? || str2.None? ==> (r <==> str1 == str2)
    ensures str1.Some? && str2.Some? && |str1.value| != |str2.value| ==> !r
    ensures str1 == str2 ==> r
    ensures str1.Some? && str2.Some? ==>
              (r <==> |str1.value| == |str2.value|
                      && forall k :: 0 <= k < |str1.value| ==> PairMatches(str1.value, true, 0, str2.value, 0, k))
  {
    if str1.None? || str2.None? then str1 == str2
    else if str1 == str2 then true
    else if |str1.value| != |str2.value| then false
    else RegionMatchesSpec(str1.value, true, 0, str2.value, 0, |str1.value|)
  }

  // ---------------------------------------------------------------------------
  // startsWithIgnoreCaseAndWs
  // ---------------------------------------------------------------------------

  /** The length of the run of `Character.isWhitespace` characters that starts `s`. */
  function WhitespacePrefix(s: string): (n: nat)
    ensures n <= |s|
    ensures forall i :: 0 <= i < n ==> IsWhitespace(s[i])
    ensures n < |s| ==> !IsWhitespace(s[n])
  {
    if s == [] || !IsWhitespace(s[0]) then 0 else 1 + WhitespacePrefix(s[1..])
  }

  /**
   * The answer of `startsWithIgnoreCaseAndWs` for a non-null `searchIn`: after
   * the leading whitespace, the rest of `searchIn` begins with `searchFor`,
   * ignoring case.
   */
  predicate StartsAfterWhitespace(searchIn: string, searchFor: string) {
    var b := WhitespacePrefix(searchIn);
    b + |searchFor| <= |searchIn|
    && forall k :: 0 <= k < |searchFor| ==> PairMatches(searchIn, true, b, searchFor, 0, k)
  }

  /**
   * `StringUtils.startsWithIgnoreCaseAndWs(searchIn, searchFor)`. A null
   * `searchIn` answers whether `searchFor` is null too; a null `searchFor` with a
   * non-null `searchIn` raises when its length is taken.
   */
  method StartsWithIgnoreCaseAndWs(searchIn: Option<string>, searchFor: Option<string>) returns (r: Result<bool, Fault>)
    ensures searchIn.None? ==> r == Ok(searchFor.None?)
    ensures searchIn.Some? && searchFor.None? ==> r == Err(NullPointer)
    ensures searchIn.Some? && searchFor.Some? ==>
              r.Ok? && (r.value <==> StartsAfterWhitespace(searchIn.value, searchFor.value))
  {
    if searchIn.None? {
      return Ok(searchFor.None?);
    }
    var s := searchIn.value;
    var beginPos := 0;
    while beginPos < |s|
      invariant beginPos <= |s|
      invariant forall i :: 0 <= i < beginPos ==> IsWhitespace(s[i])
    {
      if !IsWhitespace(s[beginPos]) {
        break;
      }
      beginPos := beginPos + 1;
    }
    assert beginPos == WhitespacePrefix(s);
    if searchFor.None? {
      return Err(NullPointer);
    }
    var b := RegionMatches(s, true, beginPos, searchFor.value, 0, |searchFor.value|);
    r := Ok(b);
  }

  // ---------------------------------------------------------------------------
  // String.trim and Integer.toString
  // ---------------------------------------------------------------------------

  /** The number of leading characters `String.trim` removes (codes up to U+0020). */
  function TrimmedHead(s: string): (n: nat)
    ensures n <= |s|
    ensures forall i :: 0 <= i < n ==> s[i] <= ' '
    ensures n < |s| ==> s[n] > ' '
  {
    if s == [] || s[0] > ' ' then 0 else 1 + TrimmedHead(s[1..])
  }

  /** The number of trailing characters `String.trim` removes. */
  function TrimmedTail(s: string): (n: nat)
    ensures n <= |s|
    ensures forall i :: |s| - n <= i < |s| ==> s[i] <= ' '
    ensures n < |s| ==> s[|s| - 1 - n] > ' '
  {
    if s == [] || s[|s| - 1] > ' ' then 0 else 1 + TrimmedTail(s[..|s| - 1])
  }

  /** `String.trim`: drops every leading and trailing character up to U+0020. */
  function Trim(s: string): (r: string)
    ensures r == [] || (r[0] > ' ' && r[|r| - 1] > ' ')
    ensures r == [] <==> forall i :: 0 <= i < |s| ==> s[i] <= ' '
    ensures TrimmedHead(s) + |r| <= |s| && r == s[TrimmedHead(s)..TrimmedHead(s) + |r|]
  {
    var a := TrimmedHead(s);
    if a == |s| then [] else s[a..|s| - TrimmedTail(s)]
  }

  /** Whether `c` is one of the ten decimal digits. */
  predicate IsDigit(c: char) {
    '0' <= c <= '9'
  }

  /** The digit character for `d`. */
  function DigitChar(d: nat): (c: char)
    requires d < 10
    ensures IsDigit(c) && c as int - '0' as int == d
  {
    ('0' as int + d) as char
  }

  /**
   * `StringBuilder.append(int)` for a non-negative value: its decimal digits,
   * most significant first.
   */
  function Decimal(n: nat): (r: string)
    ensures |r| >= 1
    ensures forall i :: 0 <= i < |r| ==> IsDigit(r[i])
    ensures r[0] == '0' ==> r == "0"
  {
    if n < 10 then [DigitChar(n)] else Decimal(n / 10) + [DigitChar(n % 10)]
  }

  /** The number a string of decimal digits denotes. */
  function DecimalValue(s: string): nat
    requires forall i :: 0 <= i < |s| ==> IsDigit(s[i])
  {
    if s == [] then 0
    else
      var d := s[|s| - 1];
      assert IsDigit(d);
      10 * DecimalValue(s[..|s| - 1]) + (d as int - '0' as int)
  }

  // ---------------------------------------------------------------------------
  // stripComments
  // ---------------------------------------------------------------------------

  /** The options `stripComments` takes besides the text. */
  datatype Syntax = Syntax(stringOpens: string, stringCloses: string,
                           slashStarComments: bool, slashSlashComments: bool,
                           hashComments: bool, dashDashComments: bool)

  /** Each quote opener has its closer at the same position. */
  predicate ValidSyntax(cfg: Syntax) {
    |cfg.stringOpens| <= |cfg.stringCloses|
  }

  /**
   * The quote state: `contextMarker` is the opening quote character, or U+0000
   * outside quotes; `markerTypeFound` is its index in `stringOpens`, or -1.
   */
  datatype QuoteState = QuoteState(contextMarker: char, markerTypeFound: int)

  /** The state before the first character. */
  const Unquoted := QuoteState('\0', -1)

  /** The quote state names a real opener, or none. */
  predicate WellFormed(cfg: Syntax, st: QuoteState) {
    -1 <= st.markerTypeFound < |cfg.stringOpens|
  }

  /** `String.indexOf(ch)`: the first index of `c` in `s`, or -1. */
  function IndexOf(s: string, c: char): (r: int)
    ensures -1 <= r < |s|
    ensures r >= 0 ==> s[r] == c && forall k :: 0 <= k < r ==> s[k] != c
    ensures r == -1 ==> c !in s
  {
    if s == [] then -1
    else if s[0] == c then 0
    else var i := IndexOf(s[1..], c); if i == -1 then -1 else i + 1
  }

  /**
   * The quote tracking applied to every character the main loop reads: the
   * closer of the open quote closes it; otherwise an opener seen outside quotes
   * opens one. There is no escape character.
   */
  function QuoteStep(cfg: Syntax, st: QuoteState, c: char): (q: QuoteState)
    requires ValidSyntax(cfg) && WellFormed(cfg, st)
    ensures WellFormed(cfg, q)
  {
    if st.markerTypeFound != -1 && c == cfg.stringCloses[st.markerTypeFound] then Unquoted
    else if IndexOf(cfg.stringOpens, c) != -1 && st.contextMarker == '\0' then
      QuoteState(c, IndexOf(cfg.stringOpens, c))
    else st
  }

  /** Whether `c` ends a line comment. */
  predicate IsLineBreak(c: char) {
    c == '\n' || c == '\r'
  }

  /** The index of the first line break in `t`, or `|t|` when there is none. */
  function LineEnd(t: string): (e: nat)
    ensures e <= |t|
    ensures forall k :: 0 <= k < e ==> !IsLineBreak(t[k])
    ensures e < |t| ==> IsLineBreak(t[e])
  {
    if t == [] || IsLineBreak(t[0]) then 0 else 1 + LineEnd(t[1..])
  }

  /**
   * The number of characters the block-comment loop reads from `t`, the text
   * after the opening slash-star, with `prev` the previously read character (0 at the start). A
   * carriage return or line feed makes it read the next character (after a
   * carriage return, the next two when the first is a line feed) without
   * testing it as a closing slash.
   */
  function SkipBlock(t: string, prev: int): (n: nat)
    ensures n <= |t|
    decreases |t|
  {
    if t == [] then 0
    else if t[0] == '/' && prev == '*' as int then 1
    else if t[0] == '\r' then
      if |t| == 1 then 1
      else if t[1] == '\n' then (if |t| == 2 then 2 else 3 + SkipBlock(t[3..], t[2] as int))
      else 2 + SkipBlock(t[2..], t[1] as int)
    else if t[0] == '\n' then
      if |t| == 1 then 1 else 2 + SkipBlock(t[2..], t[1] as int)
    else 1 + SkipBlock(t[1..], t[0] as int)
  }

  /** One turn of the main loop: what it appends, how much it reads, the new quote state. */
  datatype Move = Move(out: string, consumed: nat, next: QuoteState)

  /** A line comment whose text starts at `u`, after `skipped` characters of the turn. */
  function LineMove(u: string, skipped: nat, q: QuoteState): (m: Move)
  {
    var e := LineEnd(u);
    if e < |u| then Move([u[e]], skipped + e + 1, q) else Move([], skipped + |u|, q)
  }

  /**
   * One turn of the main loop of `stripComments` on the unread text `s`. The
   * character read after a `/` or a `-` is not quote-tracked.
   */
  function Step(cfg: Syntax, s: string, st: QuoteState): (m: Move)
    requires ValidSyntax(cfg) && WellFormed(cfg, st) && s != []
    ensures 1 <= m.consumed <= |s|
    ensures WellFormed(cfg, m.next)
  {
    var c := s[0];
    var q := QuoteStep(cfg, st, c);
    var t := s[1..];
    if q.contextMarker == '\0' && c == '/' && (cfg.slashSlashComments || cfg.slashStarComments) then
      if t != [] && t[0] == '*' && cfg.slashStarComments then Move([], 2 + SkipBlock(t[1..], 0), q)
      else if t != [] && t[0] == '/' && cfg.slashSlashComments then LineMove(t[1..], 2, q)
      else if t != [] then Move([t[0]], 2, q)
      else Move([], 1, q)
    else if q.contextMarker == '\0' && c == '#' && cfg.hashComments then LineMove(t, 1, q)
    else if q.contextMarker == '\0' && c == '-' && cfg.dashDashComments then
      if t == [] then Move("-", 1, q)
      else if t[0] != '-' then Move("-" + Decimal(t[0] as nat), 2, q)
      else LineMove(t[1..], 2, q)
    else Move([c], 1, q)
  }

  /** What `stripComments` appends while reading `s` from quote state `st`. */
  function Strip(cfg: Syntax, s: string, st: QuoteState): string
    requires ValidSyntax(cfg) && WellFormed(cfg, st)
    decreases |s|
  {
    if s == [] then []
    else
      var m := Step(cfg, s, st);
      m.out + Strip(cfg, s[m.consumed..], m.next)
  }

  /** `StringReader.read()` on `s` at `pos`: the next character's code, or -1 at the end. */
  method Read(s: string, pos: nat) returns (c: int, next: nat)
    requires pos <= |s|
    ensures pos < |s| ==> c == s[pos] as int && next == pos + 1
    ensures pos == |s| ==> c == -1 && next == pos
  {
    if pos < |s| {
      c, next := s[pos] as int, pos + 1;
    } else {
      c, next := -1, pos;
    }
  }

  /**
   * "Slurp up everything until the newline": reads up to and including the
   * next line break, leaving it (or -1 at the end) in `c`.
   */
  method SlurpLine(s: string, pos: nat) returns (c: int, next: nat)
    requires pos <= |s|
    ensures var e := LineEnd(s[pos..]);
            if pos + e < |s| then c == s[pos + e] as int && next == pos + e + 1
            else c == -1 && next == |s|
  {
    c, next := Read(s, pos);
    while c != '\n' as int && c != '\r' as int && c >= 0
      invariant pos <= next <= |s|
      invariant c >= 0 ==> pos < next && c == s[next - 1] as int
      invariant c < 0 ==> c == -1 && next == |s|
      invariant forall k :: pos <= k < next - 1 ==> !IsLineBreak(s[k])
      invariant c < 0 ==> forall k :: pos <= k < |s| ==> !IsLineBreak(s[k])
      decreases |s| - next, c + 1
    {
      c, next := Read(s, next);
    }
    ghost var t := s[pos..];
    assert forall k :: 0 <= k < |t| ==> t[k] == s[pos + k];
  }

  /**
   * The block-comment loop: reads until a `*` is directly followed by a `/`, or
   * to the end of the text, and returns the position after what it read.
   */
  method SkipBlockComment(s: string, blockStart: nat) returns (pos: nat)
    requires blockStart <= |s|
    ensures pos == blockStart + SkipBlock(s[blockStart..], 0)
  {
    pos := blockStart;
    var currentChar: int;
    var prevChar := 0;
    var done := false;
    while !done
      invariant blockStart <= pos <= |s|
      invariant done ==> pos == blockStart + SkipBlock(s[blockStart..], 0)
      invariant !done ==> pos + SkipBlock(s[pos..], prevChar) == blockStart + SkipBlock(s[blockStart..], 0)
      decreases |s| - pos, if done then 0 else 1
    {
      currentChar, pos, done := BlockCommentTurn(s, pos, prevChar);
      prevChar := currentChar;
    }
  }

  /**
   * One turn of the block-comment loop from `p0`, `prevChar` being the
   * character read before: it reads one character, and after a line break the
   * next one or two, and stops at a closing slash or at the end of the text.
   */
  method BlockCommentTurn(s: string, p0: nat, prevChar: int) returns (currentChar: int, pos: nat, done: bool)
    requires p0 <= |s|
    ensures p0 <= pos <= |s|
    ensures done ==> pos == p0 + SkipBlock(s[p0..], prevChar)
    ensures !done ==> p0 < pos && pos + SkipBlock(s[pos..], currentChar) == p0 + SkipBlock(s[p0..], prevChar)
  {
    ghost var v := s[p0..];
    currentChar, pos := Read(s, p0);
    if currentChar == '/' as int && prevChar == '*' as int {
      return currentChar, pos, true;
    }
    if currentChar == '\r' as int {
      currentChar, pos := Read(s, pos);
      if currentChar == '\n' as int {
        currentChar, pos := Read(s, pos);
      }
    } else if currentChar == '\n' as int {
      currentChar, pos := Read(s, pos);
    }
    if currentChar < 0 {
      return currentChar, pos, true;
    }
    assert v[pos - p0..] == s[pos..];
    done := false;
  }

  /** The quote tracking at the head of the main loop of `stripComments`. */
  method TrackQuotes(cfg: Syntax, st: QuoteState, c0: char) returns (next: QuoteState)
    requires ValidSyntax(cfg) && WellFormed(cfg, st)
    ensures next == QuoteStep(cfg, st, c0)
  {
    var contextMarker, markerTypeFound := st.contextMarker, st.markerTypeFound;
    if markerTypeFound != -1 && c0 == cfg.stringCloses[markerTypeFound] {
      contextMarker, markerTypeFound := '\0', -1;
    } else {
      var ind := IndexOf(cfg.stringOpens, c0);
      if ind != -1 && contextMarker == '\0' {
        markerTypeFound := ind;
        contextMarker := c0;
      }
    }
    next := QuoteState(contextMarker, markerTypeFound);
  }

  /**
   * One turn of the main loop of `stripComments`, from the read at `start` up
   * to the `continue` or the append that ends it; `st` is the quote state
   * (`contextMarker`, `markerTypeFound`) before the turn.
   */
  method Turn(cfg: Syntax, s: string, start: nat, st: QuoteState) returns (out: string, pos: nat, next: QuoteState)
    requires ValidSyntax(cfg) && WellFormed(cfg, st) && start < |s|
    ensures var m := Step(cfg, s[start..], st);
            out == m.out && pos == start + m.consumed && next == m.next
  {
    ghost var u := s[start..];
    ghost var m := Step(cfg, u, st);
    var c0 := s[start];
    var currentChar: int;
    currentChar, pos := c0 as int, start + 1;
    next := TrackQuotes(cfg, st, c0);
    var contextMarker := next.contextMarker;
    assert u[0] == c0 && u[1..] == s[pos..];
    out := [];

    if contextMarker == '\0' && c0 == '/' && (cfg.slashSlashComments || cfg.slashStarComments) {
      out, pos := AfterSlash(cfg, s, pos);
    } else if contextMarker == '\0' && c0 == '#' && cfg.hashComments {
      currentChar, pos := SlurpLine(s, pos);
      if currentChar != -1 {
        out := out + [currentChar as char];
      }
    } else if contextMarker == '\0' && c0 == '-' && cfg.dashDashComments {
      out, pos := AfterDash(cfg, s, pos);
    } else {
      out := out + [c0];
    }
  }

  /**
   * The rest of a turn that read a `/` outside quotes, from `p`, the position
   * after it: a block comment is skipped, a line comment is slurped up to and
   * including its line break, and any other character is copied without the
   * slash.
   */
  method AfterSlash(cfg: Syntax, s: string, p: nat) returns (out: string, pos: nat)
    requires 0 < p <= |s|
    requires cfg.slashSlashComments || cfg.slashStarComments
    ensures var t := s[p..];
            if t != [] && t[0] == '*' && cfg.slashStarComments then out == [] && pos == p + 1 + SkipBlock(t[1..], 0)
            else if t != [] && t[0] == '/' && cfg.slashSlashComments then
              var lm := LineMove(t[1..], 1, Unquoted); out == lm.out && pos == p + lm.consumed
            else if t != [] then out == [t[0]] && pos == p + 1
            else out == [] && pos == p
  {
    ghost var t := s[p..];
    var currentChar: int;
    currentChar, pos := Read(s, p);
    out := [];
    if currentChar == '*' as int && cfg.slashStarComments {
      assert t[1..] == s[pos..];
      pos := SkipBlockComment(s, pos);
      return;
    } else if currentChar == '/' as int && cfg.slashSlashComments {
      assert t[1..] == s[pos..];
      currentChar, pos := SlurpLine(s, pos);
    }
    if currentChar != -1 {
      out := out + [currentChar as char];
    }
  }

  /**
   * The rest of a turn that read a `-` outside quotes, from `p`, the position
   * after it: a second `-` starts a line comment, slurped up to and including
   * its line break; otherwise the `-` is copied, followed by the decimal code
   * of the next character if there is one.
   */
  method AfterDash(cfg: Syntax, s: string, p: nat) returns (out: string, pos: nat)
    requires 0 < p <= |s|
    ensures var t := s[p..];
            if t == [] then out == "-" && pos == p
            else if t[0] != '-' then out == "-" + Decimal(t[0] as nat) && pos == p + 1
            else var lm := LineMove(t[1..], 1, Unquoted); out == lm.out && pos == p + lm.consumed
  {
    ghost var t := s[p..];
    var currentChar: int;
    currentChar, pos := Read(s, p);
    out := [];
    if currentChar == -1 || currentChar != '-' as int {
      out := out + "-";
      if currentChar != -1 {
        out := out + Decimal(currentChar);
      }
      return;
    }
    assert t[1..] == s[pos..];
    currentChar, pos := SlurpLine(s, pos);
    if currentChar != -1 {
      out := out + [currentChar as char];
    }
  }

  /** Stripping from `pos` on is one turn of the main loop followed by stripping what it left unread. */
  lemma StripAt(cfg: Syntax, s: string, pos: nat, st: QuoteState)
    requires ValidSyntax(cfg) && WellFormed(cfg, st) && pos < |s|
    ensures var m := Step(cfg, s[pos..], st);
            pos + m.consumed <= |s|
            && Strip(cfg, s[pos..], st) == m.out + Strip(cfg, s[pos + m.consumed..], m.next)
  {
    var m := Step(cfg, s[pos..], st);
    assert s[pos..][m.consumed..] == s[pos + m.consumed..];
  }

  /** One turn of the main loop with its output appended to `builder`. */
  method Append(cfg: Syntax, s: string, pos: nat, st: QuoteState, builder: string)
    returns (builder': string, pos': nat, next: QuoteState)
    requires ValidSyntax(cfg) && WellFormed(cfg, st) && pos < |s|
    ensures pos < pos' <= |s| && WellFormed(cfg, next)
    ensures builder' + Strip(cfg, s[pos'..], next) == builder + Strip(cfg, s[pos..], st)
  {
    StripAt(cfg, s, pos, st);
    var out;
    out, pos', next := Turn(cfg, s, pos, st);
    ghost var rest := Strip(cfg, s[pos'..], next);
    assert (builder + out) + rest == builder + (out + rest);
    builder' := builder + out;
  }

  /**
   * `StringUtils.stripComments`. Quoted text is copied; outside quotes the
   * enabled comment kinds are dropped; a lone `/` is dropped and the next
   * character copied; a lone `-` is copied followed by the decimal code of the
   * next character.
   */
  method StripComments(src: Option<string>, cfg: Syntax) returns (r: Option<string>)
    requires ValidSyntax(cfg)
    ensures src.None? <==> r.None?
    ensures src.Some? ==> r == Some(Strip(cfg, src.value, Unquoted))
  {
    if src.None? {
      return None;
    }
    var s := src.value;
    var builder := "";
    var contextMarker := '\0';
    var markerTypeFound := -1;
    var pos := 0;
    while pos < |s|
      invariant pos <= |s|
      invariant WellFormed(cfg, QuoteState(contextMarker, markerTypeFound))
      invariant builder + Strip(cfg, s[pos..], QuoteState(contextMarker, markerTypeFound))
                == Strip(cfg, s, Unquoted)
      decreases |s| - pos
    {
      var next;
      builder, pos, next := Append(cfg, s, pos, QuoteState(contextMarker, markerTypeFound), builder);
      contextMarker, markerTypeFound := next.contextMarker, next.markerTypeFound;
    }
    assert s[pos..] == [];
    assert Strip(cfg, s[pos..], QuoteState(contextMarker, markerTypeFound)) == [];
    assert builder + [] == builder;
    return Some(builder);
  }
}
