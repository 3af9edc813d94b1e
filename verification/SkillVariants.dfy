/** Differences between `SKILL.md` documents that do not matter to the parser. */
module SkillVariants {
  import opened Wrappers
  import opened Text
  import opened SkillMd
  import Delimited

  // ---- Lines ----------------------------------------------------------------------------------

  ghost predicate EndsInLf(s: string) {
    s != "" && s[|s| - 1] == '\n'
  }

  /** Up to the first line feed, and after it. */
  lemma Parts(s: string)
    requires '\n' in s
    ensures var i := FirstIndex(s, '\n'); i < |s| && '\n' !in s[..i] && s == s[..i] + "\n" + s[i + 1..]
  {
    hide FirstIndex;
    var i := FirstIndex(s, '\n');
    assert s[..|s|] == s;
    SplitAround(s, i);
  }

  /** Whole lines in front stay what they are. */
  lemma {:induction false} LinesJoin(u: string, v: string)
    requires EndsInLf(u)
    ensures Lines(u + v) == Lines(u) + Lines(v)
    decreases |u|
  {
    hide Lines, FirstIndex;
    assert u[|u| - 1] in u;
    Parts(u);
    var i := FirstIndex(u, '\n');
    var x, rest := u[..i], u[i + 1..];
    LinesOf(x, rest);
    LinesOf(x, rest + v);
    assert u + v == x + "\n" + (rest + v);
    if rest == "" {
      NoLinesOfNothing();
      assert rest + v == v;
    } else {
      assert rest[|rest| - 1] == u[|u| - 1];
      LinesJoin(rest, v);
    }
  }

  lemma OneLine(x: string)
    requires '\n' !in x && x != ""
    ensures Lines(x) == [x] && Lines(x + "\n") == [StripCr(x)]
  {
    assert forall i :: 0 <= i < |x| ==> x[i] in x;
    LinesOf(x, "");
    assert x + "\n" + "" == x + "\n";
  }

  /** A final line feed adds no line. */
  lemma {:induction false} FinalLfLines(s: string)
    requires s != "" && s[|s| - 1] != '\n' && s[|s| - 1] != '\r'
    ensures Lines(s + "\n") == Lines(s)
    decreases |s|
  {
    hide Lines, FirstIndex;
    if '\n' in s {
      Parts(s);
      var i := FirstIndex(s, '\n');
      var x, rest := s[..i], s[i + 1..];
      assert rest != "" && rest[|rest| - 1] == s[|s| - 1];
      LinesOf(x, rest);
      LinesOf(x, rest + "\n");
      assert s + "\n" == x + "\n" + (rest + "\n");
      FinalLfLines(rest);
    } else {
      OneLine(s);
    }
  }

  const BOM := '\U{FEFF}'

  lemma StripBomIs(s: string, t: string)
    requires s != ""
    ensures StripBom(s + t) == StripBom(s) + t
    ensures StripBom(s) == if s[0] == BOM then s[1..] else s
  {
    assert (s + t)[1..] == s[1..] + t;
  }

  /** A document whose last line is ended by a line feed, or not, parses the same. */
  lemma FinalLfDoesNotMatter(s: string)
    requires s != "" && s[|s| - 1] != '\n' && s[|s| - 1] != '\r'
    ensures Parse(s + "\n") == Parse(s)
  {
    hide Lines, ParseLines;
    StripBomIs(s, "\n");
    var t := StripBom(s);
    if t == "" {
      BlankDocuments();
    } else {
      assert t[|t| - 1] == s[|s| - 1];
      FinalLfLines(t);
    }
  }

  lemma BlankDocuments()
    ensures Lines("") == [] && Lines("\n") == [""]
    ensures ParseLines([]) == ParseLines([""])
  {
    LinesOf("", "");
    assert "" + "\n" + "" == "\n";
    NoLinesOfNothing();
    TrimIsExact("");
    assert FirstNonBlank([""], 0) == FirstNonBlank([""], 1);
  }

  /** One leading byte order mark does not matter. */
  lemma BomDoesNotMatter(s: string)
    requires s == "" || s[0] != BOM
    ensures Parse([BOM] + s) == Parse(s)
  {
    assert ([BOM] + s)[1..] == s;
  }

  // ---- One line of the frontmatter -------------------------------------------------------------

  /** Line `n` is inside the frontmatter: after its opening fence, up to its closing one. */
  ghost predicate Inside(lines: seq<string>, n: nat) {
    var open := FirstNonBlank(lines, 0);
    && open < n && open < |lines| && Trim(lines[open]) == FENCE
    && n <= FirstFence(lines, open + 1) < |lines|
  }

  ghost function Inserted(lines: seq<string>, n: nat, x: string): seq<string>
    requires n <= |lines|
  {
    lines[..n] + [x] + lines[n..]
  }

  lemma {:induction false} SameBlanks(a: seq<string>, b: seq<string>, i: nat)
    requires i <= FirstNonBlank(a, 0) < |a| && FirstNonBlank(a, 0) < |b|
    requires forall k :: 0 <= k <= FirstNonBlank(a, 0) ==> a[k] == b[k]
    requires FirstNonBlank(a, i) == FirstNonBlank(a, 0)
    ensures FirstNonBlank(b, i) == FirstNonBlank(a, 0)
    decreases |a| - i
  {
    hide Trim;
    if Trim(a[i]) == "" {
      SameBlanks(a, b, i + 1);
    }
  }

  lemma {:induction false} FenceMoves(lines: seq<string>, n: nat, x: string, i: nat)
    requires n <= |lines| && i <= |lines| && Trim(x) != FENCE
    requires i <= n <= FirstFence(lines, i)
    ensures FirstFence(Inserted(lines, n, x), i) == FirstFence(lines, i) + 1
    decreases |lines| - i
  {
    hide Trim;
    var more := Inserted(lines, n, x);
    if i < n {
      assert more[i] == lines[i];
      FenceMoves(lines, n, x, i + 1);
    } else {
      assert more[n] == x;
      FenceShifts(lines, n, x, n);
    }
  }

  lemma {:induction false} FenceShifts(lines: seq<string>, n: nat, x: string, i: nat)
    requires n <= i <= |lines|
    ensures FirstFence(Inserted(lines, n, x), i + 1) == FirstFence(lines, i) + 1
    decreases |lines| - i
  {
    hide Trim;
    var more := Inserted(lines, n, x);
    if i < |lines| {
      assert more[i + 1] == lines[i];
      FenceShifts(lines, n, x, i + 1);
    }
  }

  lemma {:induction false} FieldsShift(lines: seq<string>, n: nat, x: string, i: nat, end: nat)
    requires n <= i <= end <= |lines| && Fields(lines, i, end).Ok?
    ensures Fields(Inserted(lines, n, x), i + 1, end + 1) == Fields(lines, i, end)
    decreases end - i
  {
    hide FieldOf;
    var more := Inserted(lines, n, x);
    if i < end {
      assert more[i + 1] == lines[i];
      FieldsShift(lines, n, x, i + 1, end);
    }
  }

  lemma {:induction false} FieldsSkip(lines: seq<string>, n: nat, x: string, i: nat, end: nat)
    requires i <= n <= end <= |lines| && FieldOf(x).Skip? && Fields(lines, i, end).Ok?
    ensures Fields(Inserted(lines, n, x), i, end + 1) == Fields(lines, i, end)
    decreases end - i
  {
    hide FieldOf;
    var more := Inserted(lines, n, x);
    if i < n {
      assert more[i] == lines[i];
      FieldsSkip(lines, n, x, i + 1, end);
    } else {
      assert more[n] == x;
      FieldsShift(lines, n, x, n, end);
    }
  }

  lemma SilentIsNoFence(x: string)
    requires Trim(x) == "" || Trim(x)[0] == '#'
    ensures FieldOf(x).Skip? && Trim(x) != FENCE
  {
    hide Trim;
  }

  /** Parsing once the frontmatter is known. */
  lemma ParseInside(lines: seq<string>, open: nat, close: nat)
    requires open == FirstNonBlank(lines, 0) < |lines| && Trim(lines[open]) == FENCE
    requires close == FirstFence(lines, open + 1) < |lines|
    ensures ParseLines(lines) ==
      var fields := Fields(lines, open + 1, close);
      if fields.Err? then Err(fields.error) else Assemble(fields.value, Trim(Delimited.Join(lines[close + 1..], '\n')))
    ensures Fields(lines, open + 1, close).Err? ==> Fields(lines, open + 1, close).error.BadLine?
  {
    hide Trim, FirstNonBlank, FirstFence, Fields, Assemble, Delimited.Join;
    OnlyBadLines(lines, open + 1, close);
  }

  lemma {:induction false} OnlyBadLines(lines: seq<string>, i: nat, end: nat)
    requires i <= end <= |lines|
    ensures Fields(lines, i, end).Err? ==> Fields(lines, i, end).error.BadLine?
    decreases end - i
  {
    hide FieldOf;
    if i < end {
      OnlyBadLines(lines, i + 1, end);
    }
  }

  ghost predicate HasBadLine(r: Result<SkillManifest>) {
    r.Err? && r.error.BadLine?
  }

  lemma InsertedLines(lines: seq<string>, n: nat, x: string)
    requires Inside(lines, n) && (Trim(x) == "" || Trim(x)[0] == '#') && !HasBadLine(ParseLines(lines))
    ensures ParseLines(Inserted(lines, n, x)) == ParseLines(lines)
  {
    hide Trim, FirstNonBlank, FirstFence, Fields, Assemble, Delimited.Join, FieldOf, ParseLines;
    SilentIsNoFence(x);
    var more := Inserted(lines, n, x);
    var open := FirstNonBlank(lines, 0);
    var close := FirstFence(lines, open + 1);
    ParseInside(lines, open, close);
    assert forall k :: 0 <= k < n ==> more[k] == lines[k];
    SameBlanks(lines, more, 0);
    FenceMoves(lines, n, x, open + 1);
    FieldsSkip(lines, n, x, open + 1, close);
    ParseInside(more, open, close + 1);
    assert more[close + 2..] == lines[close + 1..];
  }

  ghost function LinesIn(s: string): seq<string> {
    Lines(StripBom(s))
  }

  lemma LinesAfter(a: string, b: string)
    requires EndsInLf(a)
    ensures LinesIn(a + b) == LinesIn(a) + Lines(b)
  {
    hide Lines;
    StripBomIs(a, b);
    var t := StripBom(a);
    assert t != "" && t[|t| - 1] == a[|a| - 1];
    LinesJoin(t, b);
  }

  /** A blank line or a comment put anywhere into the frontmatter, in front of `b`, does not
      matter, unless some other line is bad and is now found one further down. */
  lemma SilentLineDoesNotMatter(a: string, x: string, b: string)
    requires EndsInLf(a) && '\n' !in x && (Trim(x) == "" || Trim(x)[0] == '#')
    requires Inside(LinesIn(a + b), |LinesIn(a)|) && !HasBadLine(Parse(a + b))
    ensures Parse(a + (x + "\n" + b)) == Parse(a + b)
  {
    hide Lines, Trim, StripBom, Inside, ParseLines, StripCr;
    LinesAfter(a, b);
    LinesAfter(a, x + "\n" + b);
    LinesOf(x, b);
    TrimOfStripCr(x);
    var before, after := LinesIn(a), Lines(b);
    assert Inserted(before + after, |before|, StripCr(x)) == before + ([StripCr(x)] + after);
    InsertedLines(before + after, |before|, StripCr(x));
  }

  // ---- The case of a key --------------------------------------------------------------------------

  lemma LettersAreNoSpace(c: char)
    requires Letter(c)
    ensures !IsSpace(c)
  {
  }

  lemma LetterIsSame(a: char, b: char)
    requires SameLetter(a, b)
    ensures Lower(a) == Lower(b) && (IsSpace(a) <==> IsSpace(b)) && (a != b ==> Letter(a) && Letter(b))
  {
    hide SameLetter, IsSpace;
    LetterFolds(a, b);
    if a != b {
      LettersAreNoSpace(a);
      LettersAreNoSpace(b);
    }
  }

  lemma {:induction false} TrimStartRecased(a: string, b: string)
    requires Recased(a, b)
    ensures Recased(TrimStart(a), TrimStart(b))
    decreases |a|
  {
    if a != "" {
      LetterIsSame(a[0], b[0]);
      hide IsSpace, SameLetter;
      if IsSpace(a[0]) {
        SliceRecased(a, b, 0, 1);
        TrimStartRecased(a[1..], b[1..]);
      }
    }
  }

  lemma {:induction false} TrimEndRecased(a: string, b: string)
    requires Recased(a, b)
    ensures Recased(TrimEnd(a), TrimEnd(b))
    decreases |a|
  {
    if a != "" {
      var n := |a| - 1;
      LetterIsSame(a[n], b[n]);
      hide IsSpace, SameLetter;
      if IsSpace(a[n]) {
        SliceRecased(a, b, 0, n);
        assert a[0..n] == a[..n] && b[0..n] == b[..n];
        TrimEndRecased(a[..n], b[..n]);
      }
    }
  }

  lemma TrimRecased(a: string, b: string)
    requires Recased(a, b)
    ensures Recased(Trim(a), Trim(b))
  {
    hide Recased, TrimStart, TrimEnd;
    TrimStartRecased(a, b);
    TrimEndRecased(TrimStart(a), TrimStart(b));
  }

  lemma LowerRecased(a: string, b: string)
    requires Recased(a, b)
    ensures LowerText(a) == LowerText(b)
  {
    forall i | 0 <= i < |a| ensures Lower(a[i]) == Lower(b[i]) {
      LetterIsSame(a[i], b[i]);
    }
  }

  lemma {:induction false} StartKeeps(s: string, c: char)
    requires c in s && !IsSpace(c)
    ensures c in TrimStart(s)
  {
    if IsSpace(s[0]) {
      StartKeeps(s[1..], c);
    }
  }

  lemma {:induction false} EndKeeps(s: string, c: char)
    requires c in s && !IsSpace(c)
    ensures c in TrimEnd(s)
  {
    if IsSpace(s[|s| - 1]) {
      EndKeeps(s[..|s| - 1], c);
    }
  }

  lemma ColonStays(s: string)
    requires ':' in s
    ensures ':' in Trim(s)
  {
    hide TrimStart, TrimEnd;
    StartKeeps(s, ':');
    EndKeeps(TrimStart(s), ':');
  }

  /** The same line with its key in another case is the same field. */
  lemma SameField(key: string, key': string, w: string)
    requires Recased(key, key') && ':' !in key
    ensures var line, line' := key + ":" + w, key' + ":" + w;
      FieldOf(line) == FieldOf(line') && !FieldOf(line).NotAPair? && Trim(line) != FENCE && Trim(line') != FENCE
  {
    hide Trim, LowerText, Unquote, Recased, IsSpace;
    var line, line' := key + ":" + w, key' + ":" + w;
    NoColon(key, key');
    SplitKey(key, w);
    SplitKey(key', w);
    NotFence(line);
    NotFence(line');
    RecasedLine(key, key', w);
    TrimRecased(line, line');
    SameHash(Trim(line), Trim(line'));
    TrimRecased(key, key');
    LowerRecased(Trim(key), Trim(key'));
  }

  lemma NoColon(a: string, b: string)
    requires Recased(a, b) && ':' !in a
    ensures ':' !in b
  {
    forall i | 0 <= i < |b| ensures b[i] != ':' {
      LetterIsSame(a[i], b[i]);
      assert a[i] in a;
    }
  }

  lemma SplitKey(key: string, w: string)
    requires ':' !in key
    ensures var line := key + ":" + w;
      FirstIndex(line, ':') == |key| < |line| && line[..|key|] == key && line[|key| + 1..] == w
  {
    var line := key + ":" + w;
    assert line[..|key|] == key && line[|key|] == ':';
    FirstIndexIs(line, ':', |key|);
  }

  lemma NotFence(line: string)
    requires ':' in line
    ensures Trim(line) != FENCE && Trim(line) != ""
  {
    ColonStays(line);
    assert ':' !in FENCE;
  }

  lemma RecasedLine(key: string, key': string, w: string)
    requires Recased(key, key')
    ensures Recased(key + ":" + w, key' + ":" + w)
  {
    hide SameLetter;
    SelfLetter();
  }

  lemma SelfLetter()
    ensures forall c :: SameLetter(c, c)
  {
  }

  lemma SameHash(a: string, b: string)
    requires Recased(a, b) && a != ""
    ensures b != "" && (a[0] == '#' <==> b[0] == '#')
  {
    LetterIsSame(a[0], b[0]);
  }

  lemma {:induction false} SameFences(a: seq<string>, b: seq<string>, i: nat)
    requires |a| == |b| && i <= |a| && forall k :: i <= k < |a| ==> (Trim(a[k]) == FENCE <==> Trim(b[k]) == FENCE)
    ensures FirstFence(a, i) == FirstFence(b, i)
    decreases |a| - i
  {
    hide Trim;
    if i < |a| && Trim(a[i]) != FENCE {
      SameFences(a, b, i + 1);
    }
  }

  lemma {:induction false} SameFields(a: seq<string>, b: seq<string>, i: nat, end: nat)
    requires |a| == |b| && i <= end <= |a|
    requires forall k :: i <= k < end ==> a[k] == b[k] || (FieldOf(a[k]) == FieldOf(b[k]) && !FieldOf(a[k]).NotAPair?)
    ensures Fields(a, i, end) == Fields(b, i, end)
    decreases end - i
  {
    hide FieldOf;
    if i < end {
      SameFields(a, b, i + 1, end);
    }
  }

  lemma RekeyedLines(lines: seq<string>, n: nat, key: string, key': string, w: string)
    requires Inside(lines, n) && lines[n] == key + ":" + w && ':' !in key && Recased(key, key')
    ensures ParseLines(lines[n := key' + ":" + w]) == ParseLines(lines)
  {
    hide Trim, FirstNonBlank, FirstFence, Fields, Assemble, Delimited.Join, FieldOf, ParseLines, Recased;
    SameField(key, key', w);
    var other := lines[n := key' + ":" + w];
    var open := FirstNonBlank(lines, 0);
    var close := FirstFence(lines, open + 1);
    FenceIsFence(lines, open + 1);
    ParseInside(lines, open, close);
    SameBlanks(lines, other, 0);
    SameFences(lines, other, open + 1);
    SameFields(lines, other, open + 1, close);
    ParseInside(other, open, close);
    assert other[close + 1..] == lines[close + 1..];
  }

  lemma {:induction false} FenceIsFence(lines: seq<string>, i: nat)
    requires i <= |lines| && FirstFence(lines, i) < |lines|
    ensures Trim(lines[FirstFence(lines, i)]) == FENCE
    decreases |lines| - i
  {
    hide Trim;
    if Trim(lines[i]) != FENCE {
      FenceIsFence(lines, i + 1);
    }
  }

  /** The first line of a text that starts with a key and a colon. */
  lemma KeyLineFirst(key: string, rest: string) returns (w: string, more: seq<string>)
    ensures forall k :: '\n' !in k ==> Lines(k + ":" + rest) == [k + ":" + w] + more
  {
    hide Lines, FirstIndex;
    if '\n' in rest {
      Parts(rest);
      var i := FirstIndex(rest, '\n');
      var x, after := rest[..i], rest[i + 1..];
      w, more := StripCr(x), Lines(after);
      forall k | '\n' !in k ensures Lines(k + ":" + rest) == [k + ":" + w] + more {
        assert k + ":" + rest == (k + ":" + x) + "\n" + after;
        LinesOf(k + ":" + x, after);
        StripAfterColon(k, x);
      }
    } else {
      w, more := rest, [];
      forall k | '\n' !in k ensures Lines(k + ":" + rest) == [k + ":" + w] + more {
        OneLine(k + ":" + rest);
      }
    }
  }

  lemma StripAfterColon(k: string, x: string)
    ensures StripCr(k + ":" + x) == k + ":" + StripCr(x)
  {
  }

  /** The case of the letters of a key in the frontmatter does not matter. */
  lemma KeyCaseDoesNotMatter(a: string, key: string, key': string, rest: string)
    requires EndsInLf(a) && '\n' !in key && ':' !in key && Recased(key, key')
    requires Inside(LinesIn(a + (key + ":" + rest)), |LinesIn(a)|)
    ensures Parse(a + (key' + ":" + rest)) == Parse(a + (key + ":" + rest))
  {
    hide Lines, LinesIn, EndsInLf, StripBom, Inside, ParseLines, Recased;
    NoNewLf(key, key');
    ParsesLines(a + (key + ":" + rest));
    ParsesLines(a + (key' + ":" + rest));
    LinesAfter(a, key + ":" + rest);
    LinesAfter(a, key' + ":" + rest);
    var w, more := KeyLineFirst(key, rest);
    var before := LinesIn(a);
    var lines := before + ([key + ":" + w] + more);
    assert lines[|before| := key' + ":" + w] == before + ([key' + ":" + w] + more);
    RekeyedLines(lines, |before|, key, key', w);
  }

  lemma ParsesLines(s: string)
    ensures Parse(s) == ParseLines(LinesIn(s))
  {
  }

  lemma NoNewLf(a: string, b: string)
    requires Recased(a, b) && '\n' !in a
    ensures '\n' !in b
  {
    forall i | 0 <= i < |b| ensures b[i] != '\n' {
      LetterIsSame(a[i], b[i]);
      assert a[i] in a;
    }
  }

  // ---- Quotes ---------------------------------------------------------------------------------------

  /** One pair of quotes around a value, and white space around those, does not matter. */
  lemma QuotesDoNotMatter(q: char, x: string, left: string, right: string)
    requires q == '"' || q == '\''
    requires (forall c <- left :: IsSpace(c)) && forall c <- right :: IsSpace(c)
    ensures Value(left + ([q] + x + [q]) + right) == x
  {
    hide Trim;
    var quoted := [q] + x + [q];
    TrimAround(left, quoted, right);
    TrimIsExact(quoted);
    assert quoted[1..|quoted| - 1] == x;
  }

  lemma TrimAround(left: string, x: string, right: string)
    requires (forall c <- left :: IsSpace(c)) && forall c <- right :: IsSpace(c)
    ensures Trim(left + x + right) == Trim(x)
  {
    hide Trim, IsSpace;
    TrimLeft(left, x + right);
    TrimRight(x, right);
    assert left + x + right == left + (x + right);
  }

  lemma {:induction false} TrimLeft(left: string, x: string)
    requires forall c <- left :: IsSpace(c)
    ensures Trim(left + x) == Trim(x)
  {
    hide Trim;
    if left == "" {
      assert left + x == x;
    } else {
      TrimLeft(left[1..], x);
      assert left + x == [left[0]] + (left[1..] + x);
      TrimLeadingSpace(left[0], left[1..] + x);
    }
  }

  lemma {:induction false} TrimRight(x: string, right: string)
    requires forall c <- right :: IsSpace(c)
    ensures Trim(x + right) == Trim(x)
  {
    hide Trim;
    if right == "" {
      assert x + right == x;
    } else {
      var n := |right| - 1;
      TrimRight(x, right[..n]);
      assert x + right == (x + right[..n]) + [right[n]];
      TrimTrailingSpace(x + right[..n], right[n]);
    }
  }
}
