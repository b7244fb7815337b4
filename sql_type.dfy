/**
 * `SqlType`: the kinds of statement the router tells apart, their numeric
 * codes, which of them may go to the slave, and `atomOf`, which classifies a
 * statement by the keyword it starts with once comments are stripped.
 */
module SqlTypes {
  import opened Wrappers
  import opened Faults
  import opened StringUtils
  import StripLemmas

  datatype SqlType =
    | Select | Insert | Update | Delete | SelectForUpdate | Replace | Truncate
    | Create | Drop | Load | Show | Alter | DefaultSqlType
  {
    /** `value()`: the code each constant is declared with. */
    function Value(): (v: int)
      ensures v == -100 <==> this == DefaultSqlType
      ensures this == Alter ==> v == 111
      ensures this != Alter && this != DefaultSqlType ==> 0 <= v <= 10
    {
      match this
      case Select => 0
      case Insert => 1
      case Update => 2
      case Delete => 3
      case SelectForUpdate => 4
      case Replace => 5
      case Truncate => 6
      case Create => 7
      case Drop => 8
      case Load => 9
      case Show => 10
      case Alter => 111
      case DefaultSqlType => -100
    }

    /** `isRead()`: whether a statement of this kind may run on a read connection. */
    predicate IsRead() {
      match this
      case Select => true
      case Show => true
      case Load => true
      case _ => false
    }
  }

  /** No two kinds share a code, so `value()` identifies the kind. */
  lemma ValueIdentifiesKind(t: SqlType, u: SqlType)
    ensures t.Value() == u.Value() <==> t == u
  {
  }

  /**
   * Exactly `SELECT`, `SHOW` and `LOAD` are reads; a locking select is a
   * write.
   */
  lemma ReadKinds(t: SqlType)
    ensures t.IsRead() <==> t == Select || t == Show || t == Load
    ensures !SelectForUpdate.IsRead()
  {
  }

  // ---------------------------------------------------------------------------
  // The select-for-update pattern
  // ---------------------------------------------------------------------------

  /** `\s` of `java.util.regex`: space, tab, line feed, U+000B, form feed, carriage return. */
  predicate RegexSpace(c: char) {
    c == ' ' || c == '\t' || c == '\n' || c == '\U{000B}' || c == '\U{000C}' || c == '\r'
  }

  /** The line terminators that `.` of `java.util.regex` does not match. */
  predicate LineTerminator(c: char) {
    c == '\n' || c == '\r' || c == '\U{0085}' || c == '\U{2028}' || c == '\U{2029}'
  }

  /** `s` with every ASCII capital letter made small. */
  function LowerAll(s: string): (r: string)
    ensures |r| == |s| && forall k :: 0 <= k < |s| ==> r[k] == Lower(s[k])
  {
    if s == [] then [] else [Lower(s[0])] + LowerAll(s[1..])
  }

  /** The lower-case word `w` appears at `i` in `s`, ASCII case ignored. */
  predicate WordAt(s: string, i: int, w: string) {
    0 <= i && i + |w| <= |s| && LowerAll(s[i..i + |w|]) == w
  }

  /** `s[i..j]` is a non-empty run of `\s`. */
  predicate Spaces(s: string, i: int, j: int) {
    0 <= i < j <= |s| && forall k :: i <= k < j ==> RegexSpace(s[k])
  }

  /** `s[i..j]` is matched by `.*`: it holds no line terminator. */
  predicate AnyInLine(s: string, i: int, j: int) {
    0 <= i <= j <= |s| && forall k :: i <= k < j ==> !LineTerminator(s[k])
  }

  /**
   * One way `s` splits along `select\s+.*\s+for\s+update.*`: the first `.*`
   * takes `s[a..b]`, `for` sits at `c` and `update` at `d`.
   */
  predicate SelectForUpdateSplit(s: string, a: int, b: int, c: int, d: int) {
    WordAt(s, 0, "select") && Spaces(s, 6, a) && AnyInLine(s, a, b) && Spaces(s, b, c)
    && WordAt(s, c, "for") && Spaces(s, c + 3, d) && WordAt(s, d, "update")
    && AnyInLine(s, d + 6, |s|)
  }

  /**
   * `SELECT_FOR_UPDATE_PATTERN.matcher(s).matches()`: the whole of `s` matches
   * `^select\s+.*\s+for\s+update.*$` with ASCII case ignored.
   */
  predicate SelectForUpdatePattern(s: string) {
    exists a, b, c, d | 0 <= a <= |s| && 0 <= b <= |s| && 0 <= c <= |s| && 0 <= d <= |s|
      :: SelectForUpdateSplit(s, a, b, c, d)
  }

  // ---------------------------------------------------------------------------
  // atomOf
  // ---------------------------------------------------------------------------

  /** The options `atomOf` strips comments with: both quotes, block, `#` and `--` comments. */
  const SqlSyntax := Syntax("'\"", "'\"", true, false, true, true)

  /** The message of the exception `atomOf` raises for an unknown statement. */
  const UnsupportedSqlMessage := "only select, insert, update, delete,replace,truncate sql is supported"

  /** The text `atomOf` classifies: comments stripped, then trimmed. */
  function Stripped(sql: string): string {
    Trim(Strip(SqlSyntax, sql, Unquoted))
  }

  /**
   * `SqlType.atomOf(sql)`: a null statement fails on `trim`; any other is
   * classified once comments are stripped and the result trimmed.
   */
  function AtomOf(sql: Option<string>): (r: Result<SqlType, Fault>)
    ensures sql.None? <==> r == Err(NullPointer)
    ensures sql.Some? ==> r == Classify(Stripped(sql.value))
  {
    if sql.None? then Err(NullPointer) else Classify(Stripped(sql.value))
  }

  /**
   * The keyword chain of `atomOf` on the stripped text `t`: the first keyword
   * that `t` starts with, ignoring case and leading whitespace, decides the
   * kind; a select is a locking select when the whole of `t` matches the
   * pattern; a text with none of the keywords is refused.
   */
  function Classify(t: string): (r: Result<SqlType, Fault>)
    ensures r.Ok? ==> r.value != DefaultSqlType
    ensures r.Err? ==> r.error == SqlError(UnsupportedSqlMessage)
    ensures r.Ok? && (r.value == Select || r.value == SelectForUpdate) ==>
              StartsAfterWhitespace(t, "select")
              && (r.value == SelectForUpdate <==> SelectForUpdatePattern(t))
  {
    if StartsAfterWhitespace(t, "select") then
      if SelectForUpdatePattern(t) then Ok(SelectForUpdate) else Ok(Select)
    else if StartsAfterWhitespace(t, "show") then Ok(Show)
    else if StartsAfterWhitespace(t, "insert") then Ok(Insert)
    else if StartsAfterWhitespace(t, "update") then Ok(Update)
    else if StartsAfterWhitespace(t, "delete") then Ok(Delete)
    else if StartsAfterWhitespace(t, "replace") then Ok(Replace)
    else if StartsAfterWhitespace(t, "truncate") then Ok(Truncate)
    else if StartsAfterWhitespace(t, "create") then Ok(Create)
    else if StartsAfterWhitespace(t, "drop") then Ok(Drop)
    else if StartsAfterWhitespace(t, "load") then Ok(Load)
    else if StartsAfterWhitespace(t, "alter") then Ok(Alter)
    else Err(SqlError(UnsupportedSqlMessage))
  }

  /** The keywords `atomOf` tries, in the order it tries them, with their kinds. */
  const Keywords: seq<(string, SqlType)> :=
    [("select", Select), ("show", Show), ("insert", Insert), ("update", Update),
     ("delete", Delete), ("replace", Replace), ("truncate", Truncate), ("create", Create),
     ("drop", Drop), ("load", Load), ("alter", Alter)]

  /** The index of the first keyword from `i` on that `t` starts with, if any. */
  function FirstKeyword(t: string, i: nat): (r: Option<nat>)
    requires i <= |Keywords|
    ensures r.Some? ==> i <= r.value < |Keywords| && StartsAfterWhitespace(t, Keywords[r.value].0)
    ensures forall j :: i <= j < |Keywords| && (r.None? || j < r.value) ==>
              !StartsAfterWhitespace(t, Keywords[j].0)
    decreases |Keywords| - i
  {
    if i == |Keywords| then None
    else if StartsAfterWhitespace(t, Keywords[i].0) then Some(i)
    else FirstKeyword(t, i + 1)
  }

  /**
   * The chain answers by the first keyword of the table that the text starts
   * with, and refuses the text exactly when there is none.
   */
  lemma ClassifyTakesFirstKeyword(t: string)
    ensures match FirstKeyword(t, 0)
            case None => Classify(t).Err?
            case Some(i) =>
              Classify(t) == Ok(if i == 0 && SelectForUpdatePattern(t) then SelectForUpdate else Keywords[i].1)
  {
    var f := FirstKeyword(t, 0);
    assert Keywords[0].0 == "select" && Keywords[1].0 == "show" && Keywords[2].0 == "insert";
    assert Keywords[3].0 == "update" && Keywords[4].0 == "delete" && Keywords[5].0 == "replace";
    assert Keywords[6].0 == "truncate" && Keywords[7].0 == "create" && Keywords[8].0 == "drop";
    assert Keywords[9].0 == "load" && Keywords[10].0 == "alter";
  }

  /**
   * A statement counts as a read exactly when its first keyword is `select`
   * (and it is not a locking select), `show` or `load`.
   */
  lemma ClassifyRead(t: string)
    ensures var r := Classify(t);
            var f := FirstKeyword(t, 0);
            r.Ok? && r.value.IsRead()
            <==> (f == Some(0) && !SelectForUpdatePattern(t)) || f == Some(1) || f == Some(9)
  {
    ClassifyTakesFirstKeyword(t);
  }

  /**
   * A block comment in front of a statement does not change its kind, even
   * when it holds a keyword.
   */
  lemma LeadingCommentIgnored(body: string, sql: string)
    requires StripLemmas.NoCloserIn(body)
    ensures AtomOf(Some("/*" + body + "*/" + sql)) == AtomOf(Some(sql))
  {
    StripLemmas.BlockCommentRemoved(SqlSyntax, body, sql);
  }

  // ---------------------------------------------------------------------------
  // Worked statements
  // ---------------------------------------------------------------------------

  /** A text starts with a word it holds verbatim at its head. */
  lemma StartsWithVerbatim(t: string, w: string)
    requires |w| <= |t| && t[..|w|] == w && (t != [] ==> !IsWhitespace(t[0]))
    ensures StartsAfterWhitespace(t, w)
  {
    assert forall k :: 0 <= k < |w| ==> t[k] == w[k];
  }

  /** A text does not start with a word that differs from it at `k`. */
  lemma DiffersAt(t: string, w: string, k: nat)
    requires k < |w| && k < |t| && !CharsMatch(true, t[k], w[k]) && !IsWhitespace(t[0])
    ensures !StartsAfterWhitespace(t, w)
  {
    assert !PairMatches(t, true, 0, w, 0, k);
  }

  /** A lower-case text is its own ASCII lower-casing. */
  lemma LowerAllOfLower(s: string)
    requires forall k :: 0 <= k < |s| ==> !('A' <= s[k] <= 'Z')
    ensures LowerAll(s) == s
  {
  }

  /** No text shorter than `select for update` with its three gaps is a locking select. */
  lemma ShortTextIsNoLockingSelect(s: string)
    requires |s| < 18
    ensures !SelectForUpdatePattern(s)
  {
  }

  /** Text without quotes, comment markers or surrounding blanks is classified as it is. */
  lemma StrippedPlain(s: string)
    requires forall k :: 0 <= k < |s| ==> StripLemmas.Plain(SqlSyntax, s[k])
    requires s != [] && s[0] > ' ' && s[|s| - 1] > ' '
    ensures Stripped(s) == s
  {
    StripLemmas.PlainTextUnchanged(SqlSyntax, s);
    assert TrimmedHead(s) == 0 && TrimmedTail(s) == 0;
  }

  /** A keyword inside a leading comment is ignored: the statement is an update. */
  lemma CommentedUpdateIsUpdate(sql: string)
    requires sql == "/* select */ update t set x=1"
    ensures AtomOf(Some(sql)) == Ok(Update)
  {
    var rest := " update t set x=1";
    assert sql == "/*" + " select " + "*/" + rest;
    LeadingCommentIgnored(" select ", rest);
    UpdateAfterBlank();
  }

  /** ` update t set x=1` is an update. */
  lemma UpdateAfterBlank()
    ensures AtomOf(Some(" update t set x=1")) == Ok(Update)
  {
    UpdateStripped(" update t set x=1");
    UpdateClassified();
  }

  /** Stripping and trimming ` update t set x=1` drops only the leading blank. */
  lemma UpdateStripped(rest: string)
    requires rest == " update t set x=1"
    ensures Stripped(rest) == "update t set x=1"
  {
    UpdatePlain(rest);
    StripLemmas.PlainTextUnchanged(SqlSyntax, rest);
    UpdateTrimmed(rest);
  }

  /** ` update t set x=1` holds no quote or comment character. */
  lemma UpdatePlain(rest: string)
    requires rest == " update t set x=1"
    ensures forall k :: 0 <= k < |rest| ==> StripLemmas.Plain(SqlSyntax, rest[k])
  {
  }

  /** Trimming ` update t set x=1` drops its leading blank. */
  lemma UpdateTrimmed(rest: string)
    requires rest == " update t set x=1"
    ensures Trim(rest) == "update t set x=1"
  {
    assert TrimmedHead(rest[1..]) == 0;
    assert TrimmedHead(rest) == 1 && TrimmedTail(rest) == 0;
  }

  /** The chain reads `update t set x=1` as an update. */
  lemma UpdateClassified()
    ensures Classify("update t set x=1") == Ok(Update)
  {
    var t := "update t set x=1";
    DiffersAt(t, "select", 0);
    DiffersAt(t, "show", 0);
    DiffersAt(t, "insert", 0);
    StartsWithVerbatim(t, "update");
  }

  /** A select that ends in `for update` locks the rows it reads. */
  lemma LockingSelect()
    ensures AtomOf(Some("select * from t for update")) == Ok(SelectForUpdate)
  {
    var s := "select * from t for update";
    assert forall k :: 0 <= k < |s| ==> StripLemmas.Plain(SqlSyntax, s[k]);
    StrippedPlain(s);
    LockingSelectClassified();
  }

  /** The chain reads `select * from t for update` as a locking select. */
  lemma LockingSelectClassified()
    ensures Classify("select * from t for update") == Ok(SelectForUpdate)
  {
    var s := "select * from t for update";
    StartsWithVerbatim(s, "select");
    LockingSelectSplit(s);
  }

  /** A lower-case word that `s` holds verbatim at `i` is found there. */
  lemma WordVerbatim(s: string, i: int, w: string)
    requires 0 <= i && i + |w| <= |s| && s[i..i + |w|] == w
    requires forall k :: 0 <= k < |w| ==> !('A' <= w[k] <= 'Z')
    ensures WordAt(s, i, w)
  {
    LowerAllOfLower(w);
  }

  /** `select * from t for update` matches the pattern, `* from t` taking the first `.*`. */
  lemma LockingSelectSplit(s: string)
    requires s == "select * from t for update"
    ensures SelectForUpdateSplit(s, 7, 15, 16, 20)
  {
    LockingSelectWords(s);
    LockingSelectGaps(s);
  }

  /** The three words of `select * from t for update` sit at 0, 16 and 20. */
  lemma LockingSelectWords(s: string)
    requires s == "select * from t for update"
    ensures WordAt(s, 0, "select") && WordAt(s, 16, "for") && WordAt(s, 20, "update")
  {
    assert s[0..6] == "select";
    WordVerbatim(s, 0, "select");
    assert s[16..19] == "for";
    WordVerbatim(s, 16, "for");
    assert s[20..26] == "update";
    WordVerbatim(s, 20, "update");
  }

  /** The gaps of `select * from t for update` are blanks, and `* from t` holds no line break. */
  lemma LockingSelectGaps(s: string)
    requires s == "select * from t for update"
    ensures Spaces(s, 6, 7) && Spaces(s, 15, 16) && Spaces(s, 19, 20)
    ensures AnyInLine(s, 7, 15) && AnyInLine(s, 26, 26)
  {
  }

  /** A line break may separate the select list from `for update`. */
  lemma LineBrokenLockingSelect()
    ensures AtomOf(Some("select x\nfor update")) == Ok(SelectForUpdate)
  {
    var s := "select x\nfor update";
    assert forall k :: 0 <= k < |s| ==> StripLemmas.Plain(SqlSyntax, s[k]);
    StrippedPlain(s);
    LineBrokenClassified(s);
  }

  /** The chain reads `select x` + line feed + `for update` as a locking select. */
  lemma LineBrokenClassified(s: string)
    requires s == "select x\nfor update"
    ensures Classify(s) == Ok(SelectForUpdate)
  {
    StartsWithVerbatim(s, "select");
    LineBrokenWords(s);
    assert SelectForUpdateSplit(s, 7, 8, 9, 13);
  }

  /** The three words of `select x` + line feed + `for update` sit at 0, 9 and 13. */
  lemma LineBrokenWords(s: string)
    requires s == "select x\nfor update"
    ensures WordAt(s, 0, "select") && WordAt(s, 9, "for") && WordAt(s, 13, "update")
  {
    assert s[0..6] == "select";
    WordVerbatim(s, 0, "select");
    assert s[9..12] == "for";
    WordVerbatim(s, 9, "for");
    assert s[13..19] == "update";
    WordVerbatim(s, 13, "update");
  }

  /**
   * A lone `-` replaces the character after it by its decimal code, so a line
   * break right after a `-` becomes `10`: `select x-` followed by a line break
   * and `for update` is classified as a plain `SELECT`, which counts as a read,
   * although the same statement without the `-` is a locking select.
   */
  lemma DashHidesLineBreak()
    ensures AtomOf(Some("select x-\nfor update")) == Ok(Select)
    ensures AtomOf(Some("select x\nfor update")) == Ok(SelectForUpdate)
  {
    DashedAtom("select x-\nfor update");
    LineBrokenLockingSelect();
  }

  /** `select x-` + line feed + `for update` is stripped to `select x-10for update`, a plain select. */
  lemma DashedAtom(sql: string)
    requires sql == "select x-\nfor update"
    ensures AtomOf(Some(sql)) == Ok(Select)
  {
    var t := "select x-10for update";
    DashedStrip(sql, t);
    TrimKeepsTrimmed(t);
    assert Stripped(sql) == t;
    DashedClassified(t);
  }

  /** The chain reads `select x-10for update` as a plain select. */
  lemma DashedClassified(t: string)
    requires t == "select x-10for update"
    ensures Classify(t) == Ok(Select)
  {
    StartsWithVerbatim(t, "select");
    NoBlankBeforeFor(t);
  }

  /** Text that neither starts nor ends with a character up to U+0020 is its own trim. */
  lemma TrimKeepsTrimmed(t: string)
    requires t != [] && t[0] > ' ' && t[|t| - 1] > ' '
    ensures Trim(t) == t
  {
    assert TrimmedHead(t) == 0 && TrimmedTail(t) == 0;
  }

  /** Stripping `select x-` + line feed + `for update` turns the line feed into `10`. */
  lemma DashedStrip(sql: string, t: string)
    requires sql == "select x-\nfor update" && t == "select x-10for update"
    ensures Strip(SqlSyntax, sql, Unquoted) == t
  {
    var head, tail := "select x", "for update";
    assert sql == head + (['-', '\n'] + tail);
    assert t == head + ("-" + "10" + tail);
    PlainParts(head, tail);
    DashBetweenPlainParts(head, tail);
  }

  /** Between two runs of plain text, a `-` and a line feed come out as `-10`. */
  lemma DashBetweenPlainParts(head: string, tail: string)
    requires forall k :: 0 <= k < |head| ==> StripLemmas.Plain(SqlSyntax, head[k])
    requires forall k :: 0 <= k < |tail| ==> StripLemmas.Plain(SqlSyntax, tail[k])
    ensures Strip(SqlSyntax, head + (['-', '\n'] + tail), Unquoted) == head + ("-" + "10" + tail)
  {
    StripLemmas.PlainPrefixCopied(SqlSyntax, head, ['-', '\n'] + tail);
    StripLemmas.LoneDashAppendsCode(SqlSyntax, '\n', tail);
    StripLemmas.PlainTextUnchanged(SqlSyntax, tail);
    DecimalOfLineFeed();
  }

  /** `select x` and `for update` hold no quote or comment character. */
  lemma PlainParts(head: string, tail: string)
    requires head == "select x" && tail == "for update"
    ensures forall k :: 0 <= k < |head| ==> StripLemmas.Plain(SqlSyntax, head[k])
    ensures forall k :: 0 <= k < |tail| ==> StripLemmas.Plain(SqlSyntax, tail[k])
  {
  }

  /** The code of a line feed is written `10`. */
  lemma DecimalOfLineFeed()
    ensures Decimal('\n' as nat) == "10"
  {
    assert Decimal(1) == "1";
  }

  /** `select x-10for update` does not match the pattern: no blank precedes `for`. */
  lemma NoBlankBeforeFor(t: string)
    requires t == "select x-10for update"
    ensures !SelectForUpdatePattern(t)
  {
    assert forall k :: 0 <= k < |t| && RegexSpace(t[k]) ==> k == 6 || k == 14;
    forall a, b, c, d | 0 <= a <= |t| && 0 <= b <= |t| && 0 <= c <= |t| && 0 <= d <= |t|
      ensures !SelectForUpdateSplit(t, a, b, c, d)
    {
      if Spaces(t, b, c) && WordAt(t, c, "for") {
        assert RegexSpace(t[c - 1]) && Lower(t[c]) == 'f';
      }
    }
  }

  /** A select without `for update` is a read. */
  lemma PlainSelect()
    ensures AtomOf(Some("select * from t")) == Ok(Select)
  {
    var s := "select * from t";
    assert forall k :: 0 <= k < |s| ==> StripLemmas.Plain(SqlSyntax, s[k]);
    StrippedPlain(s);
    PlainSelectClassified();
  }

  /** The chain reads `select * from t` as a plain select. */
  lemma PlainSelectClassified()
    ensures Classify("select * from t") == Ok(Select)
  {
    var s := "select * from t";
    StartsWithVerbatim(s, "select");
    ShortTextIsNoLockingSelect(s);
  }

  /** Keywords match as prefixes, not as whole words. */
  lemma PrefixNotWord()
    ensures AtomOf(Some("showcase")) == Ok(Show)
  {
    var s := "showcase";
    assert forall k :: 0 <= k < |s| ==> StripLemmas.Plain(SqlSyntax, s[k]);
    StrippedPlain(s);
    ShowcaseClassified();
  }

  /** The chain reads `showcase` as a show: `select` fails at its second letter. */
  lemma ShowcaseClassified()
    ensures Classify("showcase") == Ok(Show)
  {
    DiffersAt("showcase", "select", 1);
    StartsWithVerbatim("showcase", "show");
  }

  /** A statement with none of the keywords is refused. */
  lemma GrantRefused()
    ensures AtomOf(Some("grant all")) == Err(SqlError(UnsupportedSqlMessage))
  {
    var s := "grant all";
    assert forall k :: 0 <= k < |s| ==> StripLemmas.Plain(SqlSyntax, s[k]);
    StrippedPlain(s);
    GrantClassified();
  }

  /** The chain refuses `grant all`: no keyword starts with `g`. */
  lemma GrantClassified()
    ensures Classify("grant all") == Err(SqlError(UnsupportedSqlMessage))
  {
    var s := "grant all";
    DiffersAt(s, "select", 0);
    DiffersAt(s, "show", 0);
    DiffersAt(s, "insert", 0);
    DiffersAt(s, "update", 0);
    DiffersAt(s, "delete", 0);
    DiffersAt(s, "replace", 0);
    DiffersAt(s, "truncate", 0);
    DiffersAt(s, "create", 0);
    DiffersAt(s, "drop", 0);
    DiffersAt(s, "load", 0);
    DiffersAt(s, "alter", 0);
  }
}
