/** The read-only gate in front of the guest graph channel: a one-pass scanner, and
    what it accepts stated on the tokens of the statement. */
module ReadOnlyQueries {
  import opened Text

  // ---- Tokens ---------------------------------------------------------------------------

  predicate IsQuote(c: char) {
    c == '\'' || c == '"' || c == '`'
  }

  /** A statement is a sequence of quoted regions and single other characters. */
  datatype Token = Plain(c: char) | Quoted(quote: char, content: string)

  predicate WellFormed(t: Token) {
    match t
    case Plain(c) => !IsQuote(c)
    case Quoted(q, content) => IsQuote(q) && q !in content
  }

  predicate AllWellFormed(ts: seq<Token>) {
    forall t <- ts :: WellFormed(t)
  }

  function TextOf(t: Token): string {
    match t case Plain(c) => [c] case Quoted(q, content) => [q] + content + [q]
  }

  function Render(ts: seq<Token>): string {
    if ts == [] then "" else TextOf(ts[0]) + Render(ts[1..])
  }

  /** Outside quoted regions, with each region blanked to one space. */
  function Blanked(ts: seq<Token>): string {
    seq(|ts|, i requires 0 <= i < |ts| => if ts[i].Plain? then ts[i].c else ' ')
  }

  predicate CommentStart(a: Token, b: Token) {
    a == Plain('/') && (b == Plain('/') || b == Plain('*'))
  }

  predicate HasComment(ts: seq<Token>) {
    exists i {:trigger ts[i]} :: 0 < i < |ts| && CommentStart(ts[i - 1], ts[i])
  }

  // ---- Words -----------------------------------------------------------------------------

  predicate WordChar(c: char) {
    'a' <= c <= 'z' || 'A' <= c <= 'Z' || '0' <= c <= '9' || c == '_'
  }

  const WRITE_KEYWORDS: set<string> :=
    {"CREATE", "MERGE", "SET", "DELETE", "DETACH", "REMOVE", "DROP", "FOREACH", "LOAD", "CALL"}

  const READ_OPENERS: set<string> := {"MATCH", "OPTIONAL", "WITH", "UNWIND", "RETURN"}

  /** `t[i..j]` is a whole word. */
  ghost predicate IsWord(t: string, i: nat, j: nat) {
    && i < j <= |t|
    && (forall k :: i <= k < j ==> WordChar(t[k]))
    && (i > 0 ==> !WordChar(t[i - 1])) && (j < |t| ==> !WordChar(t[j]))
  }

  ghost predicate FirstWord(t: string, i: nat, j: nat) {
    IsWord(t, i, j) && forall k :: 0 <= k < i ==> !WordChar(t[k])
  }

  /** The first word opens a read, and no word is a write keyword, in any case. */
  ghost predicate OpensWithRead(t: string) {
    exists i: nat, j: nat :: FirstWord(t, i, j) && UpperText(t[i..j]) in READ_OPENERS
  }

  ghost predicate NoWriteWord(t: string) {
    forall i: nat, j: nat :: IsWord(t, i, j) ==> UpperText(t[i..j]) !in WRITE_KEYWORDS
  }

  // ---- What is accepted ------------------------------------------------------------------

  ghost predicate TokensOf(text: string, ts: seq<Token>) {
    AllWellFormed(ts) && Render(ts) == text
  }

  /** No backslash; all quoted regions closed; no comment marker outside them; the
      first word a read opener; no word a write keyword. */
  ghost predicate ReadOnly(text: string) {
    && '\\' !in text
    && exists ts :: TokensOf(text, ts) && !HasComment(ts) && OpensWithRead(Blanked(ts)) && NoWriteWord(Blanked(ts))
  }

  // ---- Tokenizing is unambiguous -----------------------------------------------------------

  lemma {:induction false} RenderJoin(a: seq<Token>, b: seq<Token>)
    ensures Render(a + b) == Render(a) + Render(b)
  {
    if a == [] {
      assert a + b == b;
    } else {
      assert (a + b)[1..] == a[1..] + b;
      RenderJoin(a[1..], b);
      Associate(TextOf(a[0]), Render(a[1..]), Render(b));
    }
  }

  lemma Associate(x: string, y: string, z: string)
    ensures x + (y + z) == x + y + z
  {
  }

  lemma RenderOneMore(ts: seq<Token>, t: Token)
    ensures Render(ts + [t]) == Render(ts) + TextOf(t)
  {
    RenderJoin(ts, [t]);
    assert TextOf(t) + "" == TextOf(t);
  }

  /** A quoted region and the text after it, character by character. */
  lemma QuotedParts(q: char, content: string, rest: string)
    ensures var t := TextOf(Quoted(q, content)) + rest;
      && |t| == |content| + 2 + |rest| && t[0] == q && t[|content| + 1] == q && t[|content| + 2..] == rest
      && forall i :: 0 <= i < |content| ==> t[i + 1] == content[i]
  {
  }

  lemma ClosesNoEarlier(q: char, a: string, r: string, b: string, s: string)
    requires q !in b && TextOf(Quoted(q, a)) + r == TextOf(Quoted(q, b)) + s
    ensures |a| >= |b|
  {
    hide TextOf;
    QuotedParts(q, a, r);
    QuotedParts(q, b, s);
    var t := TextOf(Quoted(q, b)) + s;
    forall j | 1 <= j <= |b| ensures t[j] != q {
      assert t[j - 1 + 1] == b[j - 1];
    }
  }

  lemma SameContent(q: char, a: string, r: string, b: string, s: string)
    requires q !in a && q !in b && TextOf(Quoted(q, a)) + r == TextOf(Quoted(q, b)) + s
    ensures a == b && r == s
  {
    hide TextOf;
    ClosesNoEarlier(q, a, r, b, s);
    ClosesNoEarlier(q, b, s, a, r);
    QuotedParts(q, a, r);
    QuotedParts(q, b, s);
    assert forall i :: 0 <= i < |a| ==> a[i] == b[i];
  }

  lemma PlainParts(c: char, rest: string)
    ensures var t := TextOf(Plain(c)) + rest; t[0] == c && t[1..] == rest
  {
  }

  /** Two tokens that start the same text are the same. */
  lemma SameFirstToken(x: Token, y: Token, r: string, s: string)
    requires WellFormed(x) && WellFormed(y) && TextOf(x) + r == TextOf(y) + s
    ensures x == y && r == s
  {
    hide TextOf;
    match (x, y)
    case (Plain(c), Plain(d)) =>
      PlainParts(c, r);
      PlainParts(d, s);
    case (Quoted(q, a), Quoted(p, b)) =>
      QuotedParts(q, a, r);
      QuotedParts(p, b, s);
      SameContent(q, a, r, b, s);
    case (Plain(c), Quoted(p, b)) =>
      PlainParts(c, r);
      QuotedParts(p, b, s);
    case (Quoted(q, a), Plain(d)) =>
      QuotedParts(q, a, r);
      PlainParts(d, s);
  }

  /** Whatever a scanner has read of a text starts every tokenization of it. */
  lemma {:induction false} ReadTokensArePrefix(a: seq<Token>, rest: string, ts: seq<Token>)
    requires AllWellFormed(a) && AllWellFormed(ts) && Render(a) + rest == Render(ts)
    ensures |a| <= |ts| && ts[..|a|] == a && Render(ts[|a|..]) == rest
    decreases |a|
  {
    if a != [] {
      hide Render, AllWellFormed;
      FirstTokenAgrees(a, rest, ts);
      ReadTokensArePrefix(a[1..], rest, ts[1..]);
      PrefixOfTail(a, ts);
    } else {
      assert ts[0..] == ts;
    }
  }

  lemma PrefixOfTail(a: seq<Token>, ts: seq<Token>)
    requires a != [] && ts != [] && ts[0] == a[0] && |a| <= |ts| && ts[1..][..|a[1..]|] == a[1..]
    ensures ts[..|a|] == a && ts[1..][|a[1..]|..] == ts[|a|..]
  {
    assert ts[..|a|] == [ts[0]] + ts[1..][..|a| - 1];
  }

  lemma FirstTokenAgrees(a: seq<Token>, rest: string, ts: seq<Token>)
    requires AllWellFormed(a) && AllWellFormed(ts) && Render(a) + rest == Render(ts) && a != []
    ensures ts != [] && ts[0] == a[0] && Render(a[1..]) + rest == Render(ts[1..])
    ensures AllWellFormed(a[1..]) && AllWellFormed(ts[1..])
  {
    TailWellFormed(a);
    assert ts != [];
    TailWellFormed(ts);
    hide AllWellFormed, WellFormed, TextOf;
    Associate(TextOf(a[0]), Render(a[1..]), rest);
    SameFirstToken(a[0], ts[0], Render(a[1..]) + rest, Render(ts[1..]));
  }

  lemma TailWellFormed(ts: seq<Token>)
    requires AllWellFormed(ts) && ts != []
    ensures WellFormed(ts[0]) && AllWellFormed(ts[1..])
  {
    assert ts[0] in ts;
  }

  lemma TokensAreUnique(text: string, a: seq<Token>, b: seq<Token>)
    requires TokensOf(text, a) && TokensOf(text, b)
    ensures a == b
  {
    assert Render(a) + "" == Render(b);
    ReadTokensArePrefix(a, "", b);
    assert b[|a|..] == [];
  }

  // ---- Blanking quoted regions ---------------------------------------------------------------

  datatype Refusal =
    | Backslash
    | Unterminated
    | Comment
    | BadOpener(word: string)
    | WriteClause(word: string)
    | NoReadClause
  datatype Stripped = Clear(text: string) | Refused(why: Refusal)

  /** The scanner stands behind `ts` in `text`. */
  ghost predicate ScannedTo(text: string, ts: seq<Token>, i: nat) {
    i <= |text| && AllWellFormed(ts) && Render(ts) == text[..i]
  }

  /** What each refusal tells the caller about the statement. */
  ghost predicate Explains(text: string, why: Refusal) {
    match why
    case Backslash => '\\' in text
    case Unterminated =>
      exists ts, i: nat :: ScannedTo(text, ts, i) && i < |text| && IsQuote(text[i]) && text[i] !in text[i + 1..]
    case Comment =>
      exists ts, i: nat ::
        ScannedTo(text, ts, i) && i + 1 < |text| && text[i] == '/' && (text[i + 1] == '/' || text[i + 1] == '*')
    case _ => exists ts :: TokensOf(text, ts) && WordsExplain(Blanked(ts), why)
  }

  ghost predicate WordsExplain(t: string, why: Refusal) {
    match why
    case BadOpener(word) =>
      word !in READ_OPENERS
      && exists i: nat, j: nat :: FirstWord(t, i, j) && UpperText(t[i..j]) == word
    case WriteClause(word) =>
      word in WRITE_KEYWORDS && exists i: nat, j: nat :: IsWord(t, i, j) && UpperText(t[i..j]) == word
    case NoReadClause => forall c <- t :: !WordChar(c)
    case _ => false
  }

  lemma ScanOne(text: string, ts: seq<Token>, i: nat, t: Token)
    requires ScannedTo(text, ts, i) && WellFormed(t)
    requires i + |TextOf(t)| <= |text| && TextOf(t) == text[i..i + |TextOf(t)|]
    ensures ScannedTo(text, ts + [t], i + |TextOf(t)|)
    ensures Blanked(ts + [t]) == Blanked(ts) + (if t.Plain? then [t.c] else " ")
  {
    RenderOneMore(ts, t);
    assert text[..i + |TextOf(t)|] == text[..i] + text[i..i + |TextOf(t)|];
  }

  /** Every tokenization of the text continues what has been scanned. */
  lemma Continues(text: string, ts: seq<Token>, i: nat, all: seq<Token>)
    requires ScannedTo(text, ts, i) && TokensOf(text, all)
    ensures |ts| <= |all| && all[..|ts|] == ts && Render(all[|ts|..]) == text[i..]
  {
    assert text == text[..i] + text[i..];
    ReadTokensArePrefix(ts, text[i..], all);
  }

  lemma UnclosedHasNoTokens(text: string, ts: seq<Token>, i: nat, all: seq<Token>)
    requires ScannedTo(text, ts, i) && i < |text| && IsQuote(text[i]) && text[i] !in text[i + 1..]
    ensures !TokensOf(text, all)
  {
    if TokensOf(text, all) {
      Continues(text, ts, i, all);
      OpenQuoteCloses(all, |ts|, text[i..]);
    }
  }

  lemma OpenQuoteCloses(all: seq<Token>, n: nat, rest: string)
    requires AllWellFormed(all) && n <= |all| && Render(all[n..]) == rest && rest != "" && IsQuote(rest[0])
    ensures rest[0] in rest[1..]
  {
    var tail := all[n..];
    assert tail != [];
    var t := tail[0];
    assert t in all;
    assert rest == TextOf(t) + Render(tail[1..]);
    assert rest[0] == TextOf(t)[0];
    assert rest[|TextOf(t)| - 1] == rest[0];
    assert rest[1..][|TextOf(t)| - 2] == rest[0];
  }

  lemma CommentIsInTokens(text: string, ts: seq<Token>, i: nat, all: seq<Token>)
    requires ScannedTo(text, ts, i) && i + 1 < |text| && text[i] == '/' && (text[i + 1] == '/' || text[i + 1] == '*')
    requires TokensOf(text, all)
    ensures HasComment(all)
  {
    Continues(text, ts, i, all);
    PlainNext(all, |ts|, text[i..]);
    PlainNext(all, |ts| + 1, text[i..][1..]);
    assert CommentStart(all[|ts| + 1 - 1], all[|ts| + 1]);
  }

  lemma PlainNext(all: seq<Token>, n: nat, rest: string)
    requires AllWellFormed(all) && n <= |all| && Render(all[n..]) == rest && rest != "" && !IsQuote(rest[0])
    ensures n < |all| && all[n] == Plain(rest[0]) && Render(all[n + 1..]) == rest[1..]
  {
    var tail := all[n..];
    assert tail != [];
    assert tail[0] in all && tail[1..] == all[n + 1..];
    assert rest == TextOf(tail[0]) + Render(tail[1..]);
    assert rest[0] == TextOf(tail[0])[0];
  }

  lemma NoNewComment(ts: seq<Token>, t: Token)
    requires !HasComment(ts) && (ts != [] ==> !CommentStart(ts[|ts| - 1], t))
    ensures !HasComment(ts + [t])
  {
  }

  /** What the scanner knows at `i`: the tokens read, no comment among them nor starting
      at the last of them, and the blanked text so far. */
  ghost predicate Scanning(text: string, ts: seq<Token>, out: string, i: nat) {
    && ScannedTo(text, ts, i) && !HasComment(ts) && out == Blanked(ts)
    && (ts != [] && ts[|ts| - 1] == Plain('/') && i < |text| ==> text[i] != '/' && text[i] != '*')
  }

  lemma ScanQuoted(text: string, ts: seq<Token>, out: string, i: nat, j: nat)
    requires Scanning(text, ts, out, i) && i < j < |text|
    requires IsQuote(text[i]) && text[j] == text[i] && text[i] !in text[i + 1..j]
    ensures Scanning(text, ts + [Quoted(text[i], text[i + 1..j])], out + " ", j + 1)
  {
    hide ScannedTo, HasComment, Blanked;
    var t := Quoted(text[i], text[i + 1..j]);
    assert TextOf(t) == text[i..j + 1];
    ScanOne(text, ts, i, t);
    NoNewComment(ts, t);
  }

  lemma ScanPlain(text: string, ts: seq<Token>, out: string, i: nat)
    requires Scanning(text, ts, out, i) && i < |text| && !IsQuote(text[i])
    requires text[i] == '/' && i + 1 < |text| ==> text[i + 1] != '/' && text[i + 1] != '*'
    ensures Scanning(text, ts + [Plain(text[i])], out + [text[i]], i + 1)
  {
    hide ScannedTo, HasComment, Blanked;
    var t := Plain(text[i]);
    assert TextOf(t) == text[i..i + 1];
    ScanOne(text, ts, i, t);
    NoNewComment(ts, t);
  }

  /** How far the next `quote` is, the end of the text if there is none. */
  method Closing(text: string, start: nat, quote: char) returns (j: nat)
    requires start <= |text|
    ensures start <= j <= |text| && quote !in text[start..j] && (j < |text| ==> text[j] == quote)
  {
    j := start;
    while j < |text| && text[j] != quote
      invariant start <= j <= |text| && quote !in text[start..j]
    {
      j := j + 1;
    }
  }

  method StripOpaqueRegions(cypher: string) returns (r: Stripped, ghost ts: seq<Token>)
    ensures r.Clear? ==> TokensOf(cypher, ts) && !HasComment(ts) && r.text == Blanked(ts)
    ensures r.Refused? ==> Explains(cypher, r.why) && forall all :: TokensOf(cypher, all) ==> HasComment(all)
  {
    hide Scanning, HasComment, TokensOf, Blanked, Explains;
    var out := "";
    var i := 0;
    ts := [];
    NothingScanned(cypher);
    while i < |cypher|
      invariant 0 <= i <= |cypher| && Scanning(cypher, ts, out, i)
    {
      var ch := cypher[i];
      if IsQuote(ch) {
        var j := Closing(cypher, i + 1, ch);
        if j == |cypher| {
          NeverClosed(cypher, ts, out, i);
          return Refused(Unterminated), ts;
        }
        ScanQuoted(cypher, ts, out, i, j);
        ts := ts + [Quoted(ch, cypher[i + 1..j])];
        out := out + " ";
        i := j + 1;
      } else if ch == '/' && i + 1 < |cypher| && (cypher[i + 1] == '/' || cypher[i + 1] == '*') {
        CommentAhead(cypher, ts, out, i);
        return Refused(Comment), ts;
      } else {
        ScanPlain(cypher, ts, out, i);
        ts := ts + [Plain(ch)];
        out := out + [ch];
        i := i + 1;
      }
    }
    AllScanned(cypher, ts, out);
    return Clear(out), ts;
  }

  lemma NothingScanned(text: string)
    ensures Scanning(text, [], "", 0)
  {
  }

  lemma AllScanned(text: string, ts: seq<Token>, out: string)
    requires Scanning(text, ts, out, |text|)
    ensures TokensOf(text, ts) && !HasComment(ts) && out == Blanked(ts)
  {
    assert text[..|text|] == text;
  }

  lemma NeverClosed(text: string, ts: seq<Token>, out: string, i: nat)
    requires Scanning(text, ts, out, i) && i < |text| && IsQuote(text[i]) && text[i] !in text[i + 1..|text|]
    ensures Explains(text, Unterminated) && forall all :: !TokensOf(text, all)
  {
    hide TokensOf;
    assert text[i + 1..|text|] == text[i + 1..];
    forall all ensures !TokensOf(text, all) {
      UnclosedHasNoTokens(text, ts, i, all);
    }
  }

  lemma CommentAhead(text: string, ts: seq<Token>, out: string, i: nat)
    requires Scanning(text, ts, out, i)
    requires i + 1 < |text| && text[i] == '/' && (text[i + 1] == '/' || text[i + 1] == '*')
    ensures Explains(text, Comment) && forall all :: TokensOf(text, all) ==> HasComment(all)
  {
    hide TokensOf, HasComment;
    forall all | TokensOf(text, all) ensures HasComment(all) {
      CommentIsInTokens(text, ts, i, all);
    }
  }

  // ---- Scanning words ---------------------------------------------------------------------------

  /** The scanner stands at `i`, `start` being where the word it is in began. */
  ghost predicate InWord(t: string, start: nat, i: nat) {
    start <= i <= |t| && (start > 0 ==> !WordChar(t[start - 1])) && forall k :: start <= k < i ==> WordChar(t[k])
  }

  ghost predicate WordsBeforeFine(t: string, start: nat) {
    forall i: nat, j: nat :: IsWord(t, i, j) && j < start ==> UpperText(t[i..j]) !in WRITE_KEYWORDS
  }

  method EnsureReadOnly(cypher: string) returns (r: Stripped)
    ensures r.Clear? <==> ReadOnly(cypher)
    ensures r.Refused? ==> Explains(cypher, r.why)
  {
    hide WordsExplain;
    if '\\' in cypher {
      return Refused(Backslash);
    }
    var scannable, ts := StripOpaqueRegions(cypher);
    if scannable.Refused? {
      return scannable;
    }
    r := ScanWords(scannable.text);
    ReadOnlyByTokens(cypher, ts);
  }

  lemma ReadOnlyByTokens(cypher: string, ts: seq<Token>)
    requires '\\' !in cypher && TokensOf(cypher, ts) && !HasComment(ts)
    ensures ReadOnly(cypher) <==> OpensWithRead(Blanked(ts)) && NoWriteWord(Blanked(ts))
  {
    hide OpensWithRead, NoWriteWord, HasComment;
    forall other | TokensOf(cypher, other) ensures other == ts {
      TokensAreUnique(cypher, other, ts);
    }
  }

  /** What the second scan knows at `i`, one past the text being behind its final space. */
  ghost predicate WordScan(t: string, start: nat, i: nat, word: string, checked: bool) {
    && (if i <= |t| then InWord(t, start, i) && word == UpperText(t[start..i]) else start == i && word == "")
    && WordsBeforeFine(t, start)
    && (if checked then OpensWithRead(t) else forall k :: 0 <= k < start && k < |t| ==> !WordChar(t[k]))
  }

  /** Collect words, upper-cased, and judge each as it ends. A final space ends the last. */
  method ScanWords(t: string) returns (r: Stripped)
    ensures r.Clear? <==> OpensWithRead(t) && NoWriteWord(t)
    ensures r.Refused? ==> WordsExplain(t, r.why)
    ensures r.Refused? ==> r.why.BadOpener? || r.why.WriteClause? || r.why.NoReadClause?
  {
    hide WordScan, OpensWithRead, NoWriteWord, WordsExplain;
    var openerChecked := false;
    var word := "";
    ghost var start := 0;
    var i := 0;
    NoWordYet(t);
    while i <= |t|
      invariant 0 <= i <= |t| + 1 && WordScan(t, start, i, word, openerChecked)
    {
      var ch := if i < |t| then t[i] else ' ';
      if WordChar(ch) {
        WordGrows(t, start, i, word, openerChecked);
        word := word + [Upper(ch)];
      } else {
        if word != "" {
          if !openerChecked {
            if word !in READ_OPENERS {
              NotOpener(t, start, i, word);
              return Refused(BadOpener(word));
            }
          }
          if word in WRITE_KEYWORDS {
            WriteFound(t, start, i, word, openerChecked);
            return Refused(WriteClause(word));
          }
        }
        WordOver(t, start, i, word, openerChecked);
        start := i + 1;
        openerChecked := openerChecked || word != "";
        word := "";
      }
      i := i + 1;
    }
    Scanned(t, start, i, word, openerChecked);
    if !openerChecked {
      return Refused(NoReadClause);
    }
    return Clear(t);
  }

  lemma NoWordYet(t: string)
    ensures WordScan(t, 0, 0, "", false)
  {
  }

  lemma WordGrows(t: string, start: nat, i: nat, word: string, checked: bool)
    requires WordScan(t, start, i, word, checked) && i < |t| && WordChar(t[i])
    ensures WordScan(t, start, i + 1, word + [Upper(t[i])], checked)
  {
    hide WordsBeforeFine, OpensWithRead;
    assert t[start..i + 1] == t[start..i] + [t[i]];
  }

  lemma ThisWord(t: string, start: nat, i: nat, word: string, checked: bool)
    requires WordScan(t, start, i, word, checked) && i <= |t| && (i < |t| ==> !WordChar(t[i])) && word != ""
    ensures IsWord(t, start, i) && word == UpperText(t[start..i])
  {
    hide WordsBeforeFine, OpensWithRead;
  }

  lemma WriteFound(t: string, start: nat, i: nat, word: string, checked: bool)
    requires WordScan(t, start, i, word, checked) && i <= |t| && (i < |t| ==> !WordChar(t[i]))
    requires word != "" && word in WRITE_KEYWORDS
    ensures !NoWriteWord(t) && WordsExplain(t, WriteClause(word))
  {
    hide WordScan;
    ThisWord(t, start, i, word, checked);
  }

  lemma NotOpener(t: string, start: nat, i: nat, word: string)
    requires WordScan(t, start, i, word, false) && i <= |t| && (i < |t| ==> !WordChar(t[i]))
    requires word != "" && word !in READ_OPENERS
    ensures !OpensWithRead(t) && WordsExplain(t, BadOpener(word))
  {
    ThisWord(t, start, i, word, false);
    assert forall k :: 0 <= k < start ==> !WordChar(t[k]);
    FirstWordDecides(t, start, i);
  }

  lemma FirstWordDecides(t: string, start: nat, end: nat)
    requires IsWord(t, start, end) && forall k :: 0 <= k < start ==> !WordChar(t[k])
    ensures OpensWithRead(t) <==> UpperText(t[start..end]) in READ_OPENERS
  {
    if i: nat, j: nat :| FirstWord(t, i, j) && UpperText(t[i..j]) in READ_OPENERS {
      SameFirstWord(t, start, end, i, j);
    }
  }

  lemma WordOver(t: string, start: nat, i: nat, word: string, checked: bool)
    requires WordScan(t, start, i, word, checked) && i <= |t| && (i < |t| ==> !WordChar(t[i]))
    requires word != "" ==> (checked || word in READ_OPENERS) && word !in WRITE_KEYWORDS
    ensures WordScan(t, i + 1, i + 1, "", checked || word != "")
  {
  }

  lemma Scanned(t: string, start: nat, i: nat, word: string, checked: bool)
    requires WordScan(t, start, i, word, checked) && i == |t| + 1
    ensures NoWriteWord(t) && (checked <==> OpensWithRead(t)) && (!checked ==> WordsExplain(t, NoReadClause))
  {
    if !checked {
      NoWordNoOpener(t);
    }
  }

  lemma SameFirstWord(t: string, i: nat, j: nat, i': nat, j': nat)
    requires IsWord(t, i, j) && IsWord(t, i', j')
    requires forall k :: 0 <= k < i ==> !WordChar(t[k])
    requires forall k :: 0 <= k < i' ==> !WordChar(t[k])
    ensures i == i' && j == j'
  {
    assert WordChar(t[i]) && WordChar(t[i']);
    assert i == i';
  }

  lemma NoWordNoOpener(t: string)
    requires forall k :: 0 <= k < |t| ==> !WordChar(t[k])
    ensures !OpensWithRead(t)
  {
    forall i: nat, j: nat ensures IsWord(t, i, j) ==> i < |t| && WordChar(t[i]) {
    }
  }

  // ---- Quoted content is data -------------------------------------------------------------------

  /** Replacing the content of a quoted region by any other text free of that quote and
      of backslashes never changes the verdict. */
  lemma QuotedContentIsData(before: seq<Token>, q: char, content: string, other: string, after: string)
    requires AllWellFormed(before) && (q == '\'' || q == '"' || q == '`') && q !in content && q !in other
    requires '\\' !in content && '\\' !in other
    ensures ReadOnly(Render(before) + ([q] + content + [q]) + after)
            <==> ReadOnly(Render(before) + ([q] + other + [q]) + after)
  {
    if ReadOnly(Render(before) + ([q] + content + [q]) + after) {
      StaysReadOnly(before, q, content, other, after);
    } else if ReadOnly(Render(before) + ([q] + other + [q]) + after) {
      StaysReadOnly(before, q, other, content, after);
    }
  }

  lemma StaysReadOnly(before: seq<Token>, q: char, content: string, other: string, after: string)
    requires AllWellFormed(before) && WellFormed(Quoted(q, content)) && WellFormed(Quoted(q, other))
    requires '\\' !in content && '\\' !in other
    requires ReadOnly(Render(before) + ([q] + content + [q]) + after)
    ensures ReadOnly(Render(before) + ([q] + other + [q]) + after)
  {
    hide Render, TextOf, TokensOf, Blanked, HasComment, OpensWithRead, NoWriteWord;
    var was, now := Quoted(q, content), Quoted(q, other);
    QuotedText(q, content);
    QuotedText(q, other);
    var text := Render(before) + TextOf(was) + after;
    var ts :| TokensOf(text, ts) && !HasComment(ts) && OpensWithRead(Blanked(ts)) && NoWriteWord(Blanked(ts));
    var ts' := Requoted(before, was, now, after, ts);
    NoBackslash(Render(before), q, content, other, after);
    assert TokensOf(Render(before) + TextOf(now) + after, ts');
  }

  lemma QuotedText(q: char, content: string)
    ensures TextOf(Quoted(q, content)) == [q] + content + [q]
  {
  }

  lemma NoBackslash(before: string, q: char, content: string, other: string, after: string)
    requires '\\' !in before + ([q] + content + [q]) + after && '\\' !in other
    ensures '\\' !in before + ([q] + other + [q]) + after
  {
    var text, text' := before + ([q] + content + [q]) + after, before + ([q] + other + [q]) + after;
    assert text[|before|] == q;
    forall c <- text' ensures c in text || c in other {
      if c in before || c in after {
        assert c in text;
      }
    }
  }

  /** The tokens of a text with one quoted region replaced. */
  lemma Requoted(before: seq<Token>, was: Token, now: Token, after: string, ts: seq<Token>) returns (ts': seq<Token>)
    requires AllWellFormed(before) && WellFormed(was) && WellFormed(now) && was.Quoted? && now.Quoted?
    requires TokensOf(Render(before) + TextOf(was) + after, ts) && !HasComment(ts)
    ensures TokensOf(Render(before) + TextOf(now) + after, ts') && !HasComment(ts') && Blanked(ts') == Blanked(ts)
  {
    hide Render, TextOf, HasComment;
    var n := |before|;
    RenderOneMore(before, was);
    RenderOneMore(before, now);
    ReadTokensArePrefix(before + [was], after, ts);
    var rest := ts[n + 1..];
    assert ts == ts[..n + 1] + rest;
    ts' := before + [now] + rest;
    RenderJoin(before + [now], rest);
    SameComments(ts, ts', n);
  }

  lemma SameComments(ts: seq<Token>, ts': seq<Token>, n: nat)
    requires |ts| == |ts'| && n < |ts| && ts[n].Quoted? && ts'[n].Quoted?
    requires forall i :: 0 <= i < |ts| && i != n ==> ts[i] == ts'[i]
    requires !HasComment(ts)
    ensures !HasComment(ts')
  {
  }
}
