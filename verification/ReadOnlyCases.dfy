/** The read-only gate does not depend on the case of letters, and what that means for
    the keywords. */
module ReadOnlyCases {
  import opened Text
  import opened ReadOnlyQueries

  // ---- The same text in another case ---------------------------------------------------------

  lemma WordsFold(a: char, b: char)
    requires SameLetter(a, b)
    ensures Upper(a) == Upper(b) && (WordChar(a) <==> WordChar(b)) && (a != b ==> WordChar(a))
  {
    hide SameLetter;
    LetterFolds(a, b);
  }

  /** Characters that are not part of words are the same in both. */
  lemma PlainPlaces(a: string, b: string, c: char)
    requires Recased(a, b) && !WordChar(c)
    ensures c in a <==> c in b
  {
    forall i | 0 <= i < |a| ensures a[i] == c <==> b[i] == c {
      WordsFold(a[i], b[i]);
    }
    if c in a {
      var i :| 0 <= i < |a| && a[i] == c;
      assert b[i] == c;
    }
    if c in b {
      var i :| 0 <= i < |b| && b[i] == c;
      assert a[i] == c;
    }
  }

  /** Capitals, digits and underscores stand for themselves, and nothing else is a word's. */
  lemma CapitalsStand(word: string)
    requires forall c <- word :: c in CAPITALS || c in "0123456789_"
    ensures UpperText(word) == word && forall c <- word :: WordChar(c)
  {
    forall i | 0 <= i < |word| ensures Upper(word[i]) == word[i] && WordChar(word[i]) {
      assert word[i] in word;
      CapitalsAre(word[i]);
      DigitsAre(word[i]);
    }
  }

  lemma DigitsAre(c: char)
    ensures c in "0123456789_" <==> '0' <= c <= '9' || c == '_'
  {
    var digits := "0123456789_";
    assert digits[0] == '0' && digits[1] == '1' && digits[2] == '2' && digits[3] == '3' && digits[4] == '4';
    assert digits[5] == '5' && digits[6] == '6' && digits[7] == '7' && digits[8] == '8' && digits[9] == '9';
    assert digits[10] == '_';
  }

  lemma WordsAre(c: char)
    ensures WordChar(c) <==> c in CAPITALS || c in SMALLS || c in "0123456789_"
  {
    CapitalsAre(c);
    SmallsAre(c);
    DigitsAre(c);
  }

  // ---- Words ------------------------------------------------------------------------------------

  lemma SameWords(a: string, b: string, i: nat, j: nat)
    requires Recased(a, b)
    ensures IsWord(a, i, j) <==> IsWord(b, i, j)
    ensures IsWord(a, i, j) ==> UpperText(a[i..j]) == UpperText(b[i..j])
    ensures forall k :: 0 <= k < |a| ==> (WordChar(a[k]) <==> WordChar(b[k]))
  {
    forall k | 0 <= k < |a| ensures (WordChar(a[k]) <==> WordChar(b[k])) && Upper(a[k]) == Upper(b[k]) {
      WordsFold(a[k], b[k]);
    }
    hide WordChar;
  }

  lemma SameJudgement(a: string, b: string)
    requires Recased(a, b) && OpensWithRead(a) && NoWriteWord(a)
    ensures OpensWithRead(b) && NoWriteWord(b)
  {
    hide Recased;
    var i: nat, j: nat :| FirstWord(a, i, j) && UpperText(a[i..j]) in READ_OPENERS;
    SameFirst(a, b, i, j);
    forall k: nat, l: nat | IsWord(b, k, l) ensures UpperText(b[k..l]) !in WRITE_KEYWORDS {
      SameWords(a, b, k, l);
    }
  }

  lemma SameFirst(a: string, b: string, i: nat, j: nat)
    requires Recased(a, b) && FirstWord(a, i, j)
    ensures FirstWord(b, i, j) && UpperText(a[i..j]) == UpperText(b[i..j])
  {
    SameWords(a, b, i, j);
  }

  // ---- Tokens ------------------------------------------------------------------------------------

  ghost predicate RecasedToken(x: Token, y: Token) {
    match (x, y)
    case (Plain(c), Plain(d)) => SameLetter(c, d)
    case (Quoted(q, content), Quoted(p, other)) => q == p && Recased(content, other)
    case _ => false
  }

  ghost predicate RecasedTokens(a: seq<Token>, b: seq<Token>) {
    |a| == |b| && forall i :: 0 <= i < |a| ==> RecasedToken(a[i], b[i])
  }

  lemma QuotesAreNoWords(q: char)
    requires IsQuote(q)
    ensures !WordChar(q)
  {
  }

  lemma FrontPlain(c: char, text: string)
    requires WellFormed(Plain(c)) && Recased([c], text)
    ensures text == [text[0]] && WellFormed(Plain(text[0])) && SameLetter(c, text[0])
  {
    assert [c][0] == c;
    WordsFold(c, text[0]);
    hide SameLetter;
  }

  /** A recased quoted region is one, with the same quotes. */
  lemma FrontQuoted(q: char, content: string, text: string) returns (other: string)
    requires IsQuote(q) && q !in content && Recased([q] + content + [q], text)
    ensures text == [q] + other + [q] && Recased(content, other) && q !in other
  {
    hide SameLetter, WordChar;
    var was, n := [q] + content + [q], |content| + 1;
    other := text[1..n];
    QuotesAreNoWords(q);
    assert was[0] == q && was[n] == q && was[1..n] == content;
    WordsFold(was[0], text[0]);
    WordsFold(was[n], text[n]);
    SliceRecased(was, text, 1, n);
    PlainPlaces(content, other, q);
    assert text == [text[0]] + text[1..n] + [text[n]];
  }

  /** The token at the front of the recased text. */
  lemma FrontToken(t: Token, text: string) returns (t': Token)
    requires WellFormed(t) && Recased(TextOf(t), text)
    ensures WellFormed(t') && TextOf(t') == text && RecasedToken(t, t')
  {
    hide Recased, SameLetter;
    match t
    case Plain(c) =>
      FrontPlain(c, text);
      t' := Plain(text[0]);
    case Quoted(q, content) =>
      var other := FrontQuoted(q, content, text);
      t' := Quoted(q, other);
  }

  lemma {:induction false} Retokenize(ts: seq<Token>, text: string) returns (ts': seq<Token>)
    requires AllWellFormed(ts) && Recased(Render(ts), text)
    ensures TokensOf(text, ts') && RecasedTokens(ts, ts')
    decreases |ts|
  {
    if ts == [] {
      ts' := [];
    } else {
      hide Recased, AllWellFormed, Render, TokensOf, RecasedTokens;
      var n := SplitFront(ts, text);
      var t := FrontToken(ts[0], text[..n]);
      var rest := Retokenize(ts[1..], text[n..]);
      ts' := [t] + rest;
      JoinTokens(t, rest, text[..n], text[n..]);
      assert text == text[..n] + text[n..];
      MoreTokens(ts, t, rest);
    }
  }

  lemma SplitFront(ts: seq<Token>, text: string) returns (n: nat)
    requires AllWellFormed(ts) && ts != [] && Recased(Render(ts), text)
    ensures n <= |text| && WellFormed(ts[0]) && AllWellFormed(ts[1..])
    ensures Recased(TextOf(ts[0]), text[..n]) && Recased(Render(ts[1..]), text[n..])
  {
    hide Recased, TextOf;
    TailWellFormed(ts);
    n := |TextOf(ts[0])|;
    var whole := Render(ts);
    RecasedLength(whole, text);
    SliceRecased(whole, text, 0, n);
    assert whole == TextOf(ts[0]) + Render(ts[1..]);
    assert whole[0..n] == TextOf(ts[0]) && whole[n..] == Render(ts[1..]) && text[0..n] == text[..n];
  }

  lemma MoreTokens(ts: seq<Token>, t: Token, rest: seq<Token>)
    requires ts != [] && RecasedToken(ts[0], t) && RecasedTokens(ts[1..], rest)
    ensures RecasedTokens(ts, [t] + rest)
  {
    hide RecasedToken;
    var ts' := [t] + rest;
    forall i | 0 <= i < |ts| ensures RecasedToken(ts[i], ts'[i]) {
      if i > 0 {
        assert ts[i] == ts[1..][i - 1] && ts'[i] == rest[i - 1];
      }
    }
  }

  lemma JoinTokens(t: Token, rest: seq<Token>, front: string, back: string)
    requires WellFormed(t) && TextOf(t) == front && TokensOf(back, rest)
    ensures TokensOf(front + back, [t] + rest)
  {
    assert ([t] + rest)[1..] == rest;
  }

  lemma SameBlanks(a: seq<Token>, b: seq<Token>)
    requires RecasedTokens(a, b)
    ensures Recased(Blanked(a), Blanked(b))
  {
    assert forall i :: 0 <= i < |a| ==> RecasedToken(a[i], b[i]);
  }

  lemma SlashesStay(x: Token, y: Token, c: char)
    requires RecasedToken(x, y) && !WordChar(c)
    ensures x == Plain(c) <==> y == Plain(c)
  {
    if x.Plain? && y.Plain? {
      WordsFold(x.c, y.c);
    }
  }

  lemma NoNewComments(a: seq<Token>, b: seq<Token>)
    requires RecasedTokens(a, b) && !HasComment(a)
    ensures !HasComment(b)
  {
    forall i | 0 < i < |b| ensures !CommentStart(b[i - 1], b[i]) {
      SlashesStay(a[i - 1], b[i - 1], '/');
      SlashesStay(a[i], b[i], '/');
      SlashesStay(a[i], b[i], '*');
      assert !CommentStart(a[i - 1], a[i]);
    }
  }

  // ---- The verdict ---------------------------------------------------------------------------------

  lemma StaysAccepted(a: string, b: string)
    requires Recased(a, b) && ReadOnly(a)
    ensures ReadOnly(b)
  {
    hide TokensOf, HasComment, OpensWithRead, NoWriteWord, Blanked, Recased, RecasedTokens, WordChar;
    var ts :| TokensOf(a, ts) && !HasComment(ts) && OpensWithRead(Blanked(ts)) && NoWriteWord(Blanked(ts));
    TokensRender(a, ts);
    var ts' := Retokenize(ts, b);
    NoNewComments(ts, ts');
    SameBlanks(ts, ts');
    SameJudgement(Blanked(ts), Blanked(ts'));
    BackslashIsNoWord();
    PlainPlaces(a, b, '\\');
  }

  lemma BackslashIsNoWord()
    ensures !WordChar('\\')
  {
  }

  lemma TokensRender(text: string, ts: seq<Token>)
    requires TokensOf(text, ts)
    ensures AllWellFormed(ts) && Render(ts) == text
  {
  }

  /** Two statements that differ only in the case of ASCII letters get the same verdict. */
  lemma CaseDoesNotMatter(a: string, b: string)
    requires Recased(a, b)
    ensures ReadOnly(a) <==> ReadOnly(b)
  {
    hide ReadOnly, Recased;
    RecasedSymmetric(a, b);
    if ReadOnly(a) {
      StaysAccepted(a, b);
    }
    if ReadOnly(b) {
      StaysAccepted(b, a);
    }
  }

  lemma KeywordsAreCapitals()
    ensures forall w <- WRITE_KEYWORDS + READ_OPENERS :: forall c <- w :: c in CAPITALS
  {
    forall w <- WRITE_KEYWORDS + READ_OPENERS, c <- w ensures c in CAPITALS {
      CapitalsAre(c);
    }
  }

  /** Upper case is a capital word exactly for the texts that are that word in some case. */
  lemma UpperOfRecased(a: string, w: string)
    requires forall c <- w :: c in CAPITALS
    ensures UpperText(a) == w <==> Recased(a, w)
  {
    CapitalsStand(w);
    if Recased(a, w) {
      forall i | 0 <= i < |a| ensures UpperText(a)[i] == w[i] {
        WordsFold(a[i], w[i]);
        assert UpperText(w)[i] == w[i];
      }
    }
    if UpperText(a) == w {
      forall i | 0 <= i < |a| ensures SameLetter(a[i], w[i]) {
        assert UpperText(a)[i] == w[i] && w[i] in w;
        UpperIsLetter(a[i]);
      }
    }
  }

  /** A statement with one of these words outside quotes, in any case, is refused. */
  lemma WriteIsRefused(text: string, ts: seq<Token>, i: nat, j: nat, w: string)
    requires TokensOf(text, ts) && IsWord(Blanked(ts), i, j) && Recased(Blanked(ts)[i..j], w)
    requires w in ["CREATE", "MERGE", "SET", "DELETE", "DETACH", "REMOVE", "DROP", "FOREACH", "LOAD", "CALL"]
    ensures !ReadOnly(text)
  {
    hide Recased, TokensOf, HasComment, OpensWithRead, Blanked;
    assert w in WRITE_KEYWORDS + READ_OPENERS;
    KeywordsAreCapitals();
    UpperOfRecased(Blanked(ts)[i..j], w);
    forall other | TokensOf(text, other) ensures !NoWriteWord(Blanked(other)) {
      TokensAreUnique(text, ts, other);
    }
  }

  /** A statement whose first word is another than these, in any case, is refused, and with
      one of them it is accepted if nothing else is wrong with it. */
  lemma OpenerDecides(text: string, ts: seq<Token>, i: nat, j: nat)
    requires '\\' !in text && TokensOf(text, ts) && !HasComment(ts) && FirstWord(Blanked(ts), i, j)
    requires NoWriteWord(Blanked(ts))
    ensures ReadOnly(text) <==>
      exists w :: w in ["MATCH", "OPTIONAL", "WITH", "UNWIND", "RETURN"] && Recased(Blanked(ts)[i..j], w)
  {
    hide TokensOf, HasComment, NoWriteWord, Blanked, OpensWithRead, Recased;
    ReadOnlyByTokens(text, ts);
    FirstWordDecides(Blanked(ts), i, j);
    var word := Blanked(ts)[i..j];
    KeywordsAreCapitals();
    forall w <- READ_OPENERS ensures UpperText(word) == w <==> Recased(word, w) {
      assert w in WRITE_KEYWORDS + READ_OPENERS;
      UpperOfRecased(word, w);
    }
    hide UpperText;
    assert UpperText(word) in READ_OPENERS <==> exists w <- READ_OPENERS :: Recased(word, w);
  }

  // ---- Comments and quotes ---------------------------------------------------------------------------

  /** A statement with a slash followed by a slash or a star outside quotes is refused. */
  lemma CommentIsRefused(text: string, ts: seq<Token>, i: nat)
    requires TokensOf(text, ts) && i + 1 < |ts| && ts[i] == Plain('/') && ts[i + 1] in {Plain('/'), Plain('*')}
    ensures !ReadOnly(text)
  {
    hide TokensOf, OpensWithRead, NoWriteWord, Blanked;
    assert CommentStart(ts[i + 1 - 1], ts[i + 1]);
    forall other | TokensOf(text, other) ensures HasComment(other) {
      TokensAreUnique(text, ts, other);
    }
  }

  /** So is one in which a quote that opens a region is never repeated. */
  lemma OpenQuoteIsRefused(before: seq<Token>, q: char, rest: string)
    requires AllWellFormed(before) && (q == '\'' || q == '"' || q == '`') && q !in rest
    ensures !ReadOnly(Render(before) + ([q] + rest))
  {
    hide OpensWithRead, NoWriteWord, Blanked, HasComment, Render;
    var text, i := Render(before) + ([q] + rest), |Render(before)|;
    assert text[..i] == Render(before) && text[i] == q && text[i + 1..] == rest;
    forall all ensures !TokensOf(text, all) {
      UnclosedHasNoTokens(text, before, i, all);
    }
  }
}
