/**
 * Properties of `stripComments` (the function `StringUtils.Strip`, which the
 * method `StringUtils.StripComments` is proved to compute): what it keeps,
 * what it drops, and its quirks around lone `/` and `-`.
 */
module StripLemmas {
  import opened StringUtils

  /** The decimal text appended for a lone `-` denotes the code it was made from. */
  lemma {:induction false} DecimalRoundTrip(n: nat)
    ensures DecimalValue(Decimal(n)) == n
  {
    if n >= 10 {
      DecimalRoundTrip(n / 10);
      var x := Decimal(n / 10);
      var s := x + [DigitChar(n % 10)];
      assert s[..|s| - 1] == x;
    }
  }

  // ---------------------------------------------------------------------------
  // Block comments
  // ---------------------------------------------------------------------------

  /**
   * A `/` at index `j` of `t` closes a block comment: the character before it
   * (or `prev`, the last character read before `t`, at index 0) is `*`.
   */
  predicate CloserAt(t: string, prev: int, j: int)
    requires 0 <= j < |t|
  {
    t[j] == '/' && (if j == 0 then prev == '*' as int else t[j - 1] == '*')
  }

  /**
   * Reading `n` characters of `t` stops right after the first closing `*` `/`
   * pair, or at the end of `t` when it holds none.
   */
  predicate StopsAtFirstCloser(t: string, prev: int, n: nat) {
    && n <= |t|
    && (t == [] <==> n == 0)
    && (forall j :: 0 <= j < n - 1 ==> !CloserAt(t, prev, j))
    && (t != [] ==> CloserAt(t, prev, n - 1)
                    || (n == |t| && forall j :: 0 <= j < |t| ==> !CloserAt(t, prev, j)))
  }

  /**
   * The block-comment loop stops right after the first closing `*` `/` pair,
   * and reads to the end of the text when there is none; the line breaks it
   * reads ahead never hide a closer.
   */
  lemma {:induction false} SkipBlockStopsAtFirstCloser(t: string, prev: int)
    ensures StopsAtFirstCloser(t, prev, SkipBlock(t, prev))
    decreases |t|
  {
    if t == [] || (t[0] == '/' && prev == '*' as int) {
    } else if t[0] == '\r' && |t| >= 3 && t[1] == '\n' {
      SkipBlockStopsAtFirstCloser(t[3..], t[2] as int);
      SkipAhead(t, prev, 3);
    } else if t[0] == '\r' && |t| >= 2 && t[1] != '\n' {
      SkipBlockStopsAtFirstCloser(t[2..], t[1] as int);
      SkipAhead(t, prev, 2);
    } else if t[0] == '\n' && |t| >= 2 {
      SkipBlockStopsAtFirstCloser(t[2..], t[1] as int);
      SkipAhead(t, prev, 2);
    } else if t[0] != '\r' && t[0] != '\n' && |t| >= 2 {
      SkipBlockStopsAtFirstCloser(t[1..], t[0] as int);
      SkipAhead(t, prev, 1);
    }
  }

  /**
   * Skipping `k` characters that hold no closer and then stopping at the first
   * closer of the rest stops at the first closer of the whole text.
   */
  lemma SkipAhead(t: string, prev: int, k: nat)
    requires 1 <= k <= |t|
    requires !CloserAt(t, prev, 0) && forall j :: 0 <= j < k - 1 ==> t[j] != '*'
    requires StopsAtFirstCloser(t[k..], t[k - 1] as int, SkipBlock(t[k..], t[k - 1] as int))
    ensures StopsAtFirstCloser(t, prev, k + SkipBlock(t[k..], t[k - 1] as int))
  {
    var t' := t[k..];
    assert forall j :: k <= j < |t| ==> (CloserAt(t, prev, j) <==> CloserAt(t', t[k - 1] as int, j - k));
  }

  /** `body` holds no `*` directly followed by `/`. */
  predicate NoCloserIn(body: string) {
    forall j :: 1 <= j < |body| ==> !(body[j - 1] == '*' && body[j] == '/')
  }

  /** `c` does not open a quote under `cfg`. */
  predicate Inert(cfg: Syntax, c: char) {
    c !in cfg.stringOpens
  }

  /**
   * Outside quotes, a block comment is removed together with its delimiters,
   * and stripping goes on after it as if it had not been there.
   */
  lemma BlockCommentRemoved(cfg: Syntax, body: string, rest: string)
    requires ValidSyntax(cfg) && cfg.slashStarComments && Inert(cfg, '/')
    requires NoCloserIn(body)
    ensures Strip(cfg, "/*" + body + "*/" + rest, Unquoted) == Strip(cfg, rest, Unquoted)
  {
    var s := "/*" + body + "*/" + rest;
    var t := s[2..];
    assert t == body + "*/" + rest;
    SkipBlockStopsAtFirstCloser(t, 0);
    assert CloserAt(t, 0, |body| + 1);
    assert forall j :: 0 <= j < |body| + 1 ==> !CloserAt(t, 0, j);
    assert SkipBlock(t, 0) == |body| + 2;
    assert s[|body| + 4..] == rest;
  }

  /** Outside quotes, an unterminated block comment drops the rest of the text. */
  lemma UnterminatedBlockCommentDropsRest(cfg: Syntax, body: string)
    requires ValidSyntax(cfg) && cfg.slashStarComments && Inert(cfg, '/')
    requires NoCloserIn(body)
    ensures Strip(cfg, "/*" + body, Unquoted) == []
  {
    var s := "/*" + body;
    var t := s[2..];
    assert t == body;
    SkipBlockStopsAtFirstCloser(t, 0);
    assert forall j :: 0 <= j < |t| ==> !CloserAt(t, 0, j);
    assert s[2 + SkipBlock(t, 0)..] == [];
  }

  // ---------------------------------------------------------------------------
  // Quotes
  // ---------------------------------------------------------------------------

  /**
   * Inside the quote opened by `stringOpens[i]`, every character other than
   * `stringCloses[i]` is copied unchanged (comment markers, other quotes and
   * backslashes included), and `stringCloses[i]` is copied and ends the quote.
   */
  lemma {:induction false} QuotedTextCopied(cfg: Syntax, i: nat, text: string, rest: string)
    requires ValidSyntax(cfg) && i < |cfg.stringOpens|
    requires cfg.stringOpens[i] != '\0'
    requires cfg.stringCloses[i] !in text
    requires cfg.stringCloses[i] !in "/#-"
    ensures Strip(cfg, text + [cfg.stringCloses[i]] + rest, QuoteState(cfg.stringOpens[i], i))
            == text + [cfg.stringCloses[i]] + Strip(cfg, rest, Unquoted)
    decreases |text|
  {
    var close := cfg.stringCloses[i];
    var s := text + [close] + rest;
    QuotedStrip(cfg, i, s);
    if text == [] {
      assert s[1..] == rest;
    } else {
      assert s[1..] == text[1..] + [close] + rest;
      QuotedTextCopied(cfg, i, text[1..], rest);
      assert text == [text[0]] + text[1..];
    }
  }

  /** Inside a quote, one character is read and copied; the closer ends the quote. */
  lemma QuotedStrip(cfg: Syntax, i: nat, s: string)
    requires ValidSyntax(cfg) && i < |cfg.stringOpens|
    requires cfg.stringOpens[i] != '\0' && s != []
    requires cfg.stringCloses[i] !in "/#-"
    ensures var st := QuoteState(cfg.stringOpens[i], i);
            Strip(cfg, s, st)
            == [s[0]] + Strip(cfg, s[1..], if s[0] == cfg.stringCloses[i] then Unquoted else st)
  {
    var st := QuoteState(cfg.stringOpens[i], i);
    assert Step(cfg, s, st) == Move([s[0]], 1, if s[0] == cfg.stringCloses[i] then Unquoted else st);
  }

  /**
   * Outside quotes, a quoted literal is copied whole, delimiters included,
   * whatever it contains besides its own closer.
   */
  lemma QuotedLiteralKept(cfg: Syntax, i: nat, text: string, rest: string)
    requires ValidSyntax(cfg) && i < |cfg.stringOpens|
    requires cfg.stringOpens[i] != '\0' && IndexOf(cfg.stringOpens, cfg.stringOpens[i]) == i
    requires cfg.stringOpens[i] !in "/#-" && cfg.stringCloses[i] !in "/#-"
    requires cfg.stringCloses[i] !in text
    ensures Strip(cfg, [cfg.stringOpens[i]] + text + [cfg.stringCloses[i]] + rest, Unquoted)
            == [cfg.stringOpens[i]] + text + [cfg.stringCloses[i]] + Strip(cfg, rest, Unquoted)
  {
    var s := [cfg.stringOpens[i]] + text + [cfg.stringCloses[i]] + rest;
    assert s[1..] == text + [cfg.stringCloses[i]] + rest;
    QuotedTextCopied(cfg, i, text, rest);
  }

  /**
   * A backslash does not escape a closing quote: a literal whose text ends in a
   * backslash still ends at the next closer.
   */
  lemma BackslashDoesNotEscape(cfg: Syntax, i: nat, text: string, rest: string)
    requires ValidSyntax(cfg) && i < |cfg.stringOpens|
    requires cfg.stringOpens[i] != '\0' && IndexOf(cfg.stringOpens, cfg.stringOpens[i]) == i
    requires cfg.stringOpens[i] !in "/#-" && cfg.stringCloses[i] !in "/#-\\"
    requires cfg.stringCloses[i] !in text
    ensures Strip(cfg, [cfg.stringOpens[i]] + text + "\\" + [cfg.stringCloses[i]] + rest, Unquoted)
            == [cfg.stringOpens[i]] + text + "\\" + [cfg.stringCloses[i]] + Strip(cfg, rest, Unquoted)
  {
    QuotedLiteralKept(cfg, i, text + "\\", rest);
    assert [cfg.stringOpens[i]] + (text + "\\") + [cfg.stringCloses[i]] + rest
        == [cfg.stringOpens[i]] + text + "\\" + [cfg.stringCloses[i]] + rest;
  }

  // ---------------------------------------------------------------------------
  // Line comments
  // ---------------------------------------------------------------------------

  /** The text holds no line break. */
  predicate SingleLine(text: string) {
    forall k :: 0 <= k < |text| ==> !IsLineBreak(text[k])
  }

  /** The first line break after a single-line text is the one that follows it. */
  lemma LineEndAfter(comment: string, eol: char, rest: string)
    requires SingleLine(comment) && IsLineBreak(eol)
    ensures LineEnd(comment + [eol] + rest) == |comment|
  {
    var t := comment + [eol] + rest;
    assert t[|comment|] == eol;
    assert forall k :: 0 <= k < |comment| ==> t[k] == comment[k];
  }

  /**
   * Outside quotes, a `#` comment is dropped up to the line break, which is
   * still copied.
   */
  lemma HashCommentDropped(cfg: Syntax, comment: string, eol: char, rest: string)
    requires ValidSyntax(cfg) && cfg.hashComments && Inert(cfg, '#')
    requires SingleLine(comment) && IsLineBreak(eol)
    ensures Strip(cfg, "#" + comment + [eol] + rest, Unquoted) == [eol] + Strip(cfg, rest, Unquoted)
  {
    var s := "#" + comment + [eol] + rest;
    assert s[1..] == comment + [eol] + rest;
    LineEndAfter(comment, eol, rest);
    assert s[1..][|comment|] == eol;
    assert s[|comment| + 2..] == rest;
  }

  /**
   * Outside quotes, `--` starts a comment whatever follows it, dropped up to
   * the line break, which is still copied.
   */
  lemma DashDashCommentDropped(cfg: Syntax, comment: string, eol: char, rest: string)
    requires ValidSyntax(cfg) && cfg.dashDashComments && Inert(cfg, '-')
    requires SingleLine(comment) && IsLineBreak(eol)
    ensures Strip(cfg, "--" + comment + [eol] + rest, Unquoted) == [eol] + Strip(cfg, rest, Unquoted)
  {
    var s := "--" + comment + [eol] + rest;
    assert s[2..] == comment + [eol] + rest;
    LineEndAfter(comment, eol, rest);
    assert s[2..][|comment|] == eol;
    assert s[|comment| + 3..] == rest;
  }

  /** A line comment on the last line drops everything to the end. */
  lemma TrailingLineCommentDropped(cfg: Syntax, comment: string)
    requires ValidSyntax(cfg) && cfg.hashComments && cfg.dashDashComments
    requires Inert(cfg, '#') && Inert(cfg, '-')
    requires SingleLine(comment)
    ensures Strip(cfg, "#" + comment, Unquoted) == []
    ensures Strip(cfg, "--" + comment, Unquoted) == []
  {
    assert ("#" + comment)[1..] == comment;
    assert ("--" + comment)[2..] == comment;
    assert ("#" + comment)[1 + |comment|..] == [];
    assert ("--" + comment)[2 + |comment|..] == [];
  }

  // ---------------------------------------------------------------------------
  // Lone `-` and `/`
  // ---------------------------------------------------------------------------

  /**
   * Outside quotes, a `-` followed by any other character `c` is copied and
   * followed by the decimal code of `c` rather than `c` itself; at the end of
   * the text it is copied alone.
   */
  lemma LoneDashAppendsCode(cfg: Syntax, c: char, rest: string)
    requires ValidSyntax(cfg) && cfg.dashDashComments && Inert(cfg, '-')
    requires c != '-'
    ensures Strip(cfg, ['-', c] + rest, Unquoted) == "-" + Decimal(c as nat) + Strip(cfg, rest, Unquoted)
    ensures Strip(cfg, "-", Unquoted) == "-"
  {
    assert (['-', c] + rest)[1..][0] == c;
    assert (['-', c] + rest)[2..] == rest;
    assert "-"[1..] == [];
  }

  /**
   * With only block comments enabled, a `/` outside quotes that does not start
   * one is dropped and the next character is copied as it is, without quote
   * tracking; a `/` at the end of the text is dropped.
   */
  lemma LoneSlashDropped(cfg: Syntax, c: char, rest: string)
    requires ValidSyntax(cfg) && cfg.slashStarComments && !cfg.slashSlashComments && Inert(cfg, '/')
    requires c != '*'
    ensures Strip(cfg, ['/', c] + rest, Unquoted) == [c] + Strip(cfg, rest, Unquoted)
    ensures Strip(cfg, "/", Unquoted) == []
  {
    assert (['/', c] + rest)[1..][0] == c;
    assert (['/', c] + rest)[2..] == rest;
    assert "/"[1..] == [];
  }

  // ---------------------------------------------------------------------------
  // Plain text
  // ---------------------------------------------------------------------------

  /** `c` plays no part in quoting or comments under `cfg`. */
  predicate Plain(cfg: Syntax, c: char) {
    c !in cfg.stringOpens && c !in cfg.stringCloses && c != '/' && c != '#' && c != '-'
  }

  /** A prefix without quote or comment characters is copied, and stripping goes on after it. */
  lemma {:induction false} PlainPrefixCopied(cfg: Syntax, p: string, rest: string)
    requires ValidSyntax(cfg)
    requires forall k :: 0 <= k < |p| ==> Plain(cfg, p[k])
    ensures Strip(cfg, p + rest, Unquoted) == p + Strip(cfg, rest, Unquoted)
    decreases |p|
  {
    var s := p + rest;
    if p == [] {
      assert s == rest;
    } else {
      assert s[0] == p[0] && Plain(cfg, s[0]);
      assert s[1..] == p[1..] + rest;
      PlainPrefixCopied(cfg, p[1..], rest);
      assert p == [p[0]] + p[1..];
    }
  }

  /** Text without quote or comment characters comes through unchanged. */
  lemma {:induction false} PlainTextUnchanged(cfg: Syntax, s: string)
    requires ValidSyntax(cfg)
    requires forall k :: 0 <= k < |s| ==> Plain(cfg, s[k])
    ensures Strip(cfg, s, Unquoted) == s
    decreases |s|
  {
    if s != [] {
      assert Plain(cfg, s[0]);
      PlainTextUnchanged(cfg, s[1..]);
      assert s == [s[0]] + s[1..];
    }
  }
}
