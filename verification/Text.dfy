/** The string operations the manifest parser uses: Unicode trimming, splitting into
    lines, and surrounding quotes. */
module Text {
  import Delimited

  /** The characters with the Unicode `White_Space` property. */
  predicate IsSpace(c: char) {
    || '\t' <= c <= '\r' || c == ' ' || c == '\U{0085}' || c == '\U{00A0}' || c == '\U{1680}'
    || '\U{2000}' <= c <= '\U{200A}' || c == '\U{2028}' || c == '\U{2029}' || c == '\U{202F}'
    || c == '\U{205F}' || c == '\U{3000}'
  }

  function TrimStart(s: string): (r: string)
    ensures |r| <= |s| && r == s[|s| - |r|..]
    ensures r == "" || !IsSpace(r[0])
  {
    if s != "" && IsSpace(s[0]) then TrimStart(s[1..]) else s
  }

  function TrimEnd(s: string): (r: string)
    ensures |r| <= |s| && r == s[..|r|]
    ensures r == "" || !IsSpace(r[|r| - 1])
  {
    if s != "" && IsSpace(s[|s| - 1]) then TrimEnd(s[..|s| - 1]) else s
  }

  function Trim(s: string): string {
    TrimEnd(TrimStart(s))
  }

  /** Already trimmed: nothing, or no white space at either end. */
  predicate Trimmed(s: string) {
    s == "" || (!IsSpace(s[0]) && !IsSpace(s[|s| - 1]))
  }

  lemma TrimIsExact(s: string)
    ensures Trimmed(Trim(s)) && |Trim(s)| <= |s|
    ensures Trim(s) == s <==> Trimmed(s)
    ensures forall c <- Trim(s) :: c in s
  {
  }

  lemma TrimLeadingSpace(c: char, s: string)
    requires IsSpace(c)
    ensures Trim([c] + s) == Trim(s)
  {
    assert ([c] + s)[1..] == s;
  }

  lemma TrimEndSpace(s: string, c: char)
    requires IsSpace(c)
    ensures TrimEnd(s + [c]) == TrimEnd(s)
  {
    assert (s + [c])[..|s|] == s;
  }

  lemma {:induction false} TrimStartSpace(s: string, c: char)
    requires IsSpace(c)
    ensures TrimStart(s + [c]) == if TrimStart(s) == "" then "" else TrimStart(s) + [c]
  {
    if s == "" {
      assert (s + [c])[1..] == "";
    } else {
      hide IsSpace;
      assert (s + [c])[1..] == s[1..] + [c];
      TrimStartSpace(s[1..], c);
    }
  }

  lemma TrimTrailingSpace(s: string, c: char)
    requires IsSpace(c)
    ensures Trim(s + [c]) == Trim(s)
  {
    hide TrimStart, TrimEnd, IsSpace;
    TrimStartSpace(s, c);
    TrimEndSpace(TrimStart(s), c);
  }

  // ---- Lines -------------------------------------------------------------------------

  function FirstIndex(s: string, c: char): (i: nat)
    ensures i <= |s| && c !in s[..i] && (i < |s| ==> s[i] == c)
  {
    if s == "" || s[0] == c then 0 else 1 + FirstIndex(s[1..], c)
  }

  lemma {:induction false} FirstIndexIs(s: string, c: char, i: nat)
    requires i < |s| && s[i] == c && c !in s[..i]
    ensures FirstIndex(s, c) == i
  {
  }

  lemma SplitAround(s: string, i: nat)
    requires i < |s|
    ensures s == s[..i] + [s[i]] + s[i + 1..]
  {
  }

  function StripCr(line: string): string {
    if line != "" && line[|line| - 1] == '\r' then line[..|line| - 1] else line
  }

  /** `str::lines`: split at line feeds, dropping one carriage return before each, and
      no empty line after a final line feed. */
  function Lines(s: string): seq<string>
    decreases |s|
  {
    if s == "" then [] else
    var i := FirstIndex(s, '\n');
    if i == |s| then [s] else [StripCr(s[..i])] + Lines(s[i + 1..])
  }

  lemma LinesOf(x: string, rest: string)
    requires '\n' !in x
    ensures Lines(x + "\n" + rest) == [StripCr(x)] + Lines(rest)
  {
    var s := x + "\n" + rest;
    assert s[..|x|] == x && s[|x| + 1..] == rest;
    FirstIndexIs(s, '\n', |x|);
  }

  lemma {:induction false} LinesHaveNoLf(s: string)
    ensures forall line <- Lines(s) :: '\n' !in line
    decreases |s|
  {
    if s != "" {
      var i := FirstIndex(s, '\n');
      if i == |s| {
        assert s[..i] == s;
      } else {
        LinesHaveNoLf(s[i + 1..]);
      }
    }
  }

  lemma TrimOfStripCr(x: string)
    ensures Trim(StripCr(x)) == Trim(x)
  {
    hide Trim;
    if StripCr(x) != x {
      TrimTrailingSpace(StripCr(x), '\r');
      assert StripCr(x) + "\r" == x;
    }
  }

  /** No carriage return directly before a line feed. */
  predicate CrLfFree(s: string) {
    forall i :: 0 <= i < |s| - 1 ==> !(s[i] == '\r' && s[i + 1] == '\n')
  }

  lemma CrLfFreeParts(x: string, rest: string)
    ensures CrLfFree(x + "\n" + rest) <==> StripCr(x) == x && CrLfFree(x) && CrLfFree(rest)
  {
    var s := x + "\n" + rest;
    if CrLfFree(s) {
      if x != "" {
        assert s[|x| - 1] == x[|x| - 1] && s[|x|] == '\n';
      }
      forall i | 0 <= i < |x| - 1 ensures !(x[i] == '\r' && x[i + 1] == '\n') {
        assert s[i] == x[i] && s[i + 1] == x[i + 1];
      }
      forall i | 0 <= i < |rest| - 1 ensures !(rest[i] == '\r' && rest[i + 1] == '\n') {
        assert s[|x| + 1 + i] == rest[i] && s[|x| + 1 + i + 1] == rest[i + 1];
      }
    }
    if StripCr(x) == x && CrLfFree(x) && CrLfFree(rest) {
      forall i | 0 <= i < |s| - 1 ensures !(s[i] == '\r' && s[i + 1] == '\n') {
        if i > |x| {
          assert s[i] == rest[i - |x| - 1] && s[i + 1] == rest[i - |x|];
        }
      }
    }
  }

  lemma NoLfIsCrLfFree(x: string)
    requires '\n' !in x
    ensures CrLfFree(x)
  {
  }

  lemma NoLinesOfNothing()
    ensures Lines("") == [] && CrLfFree("")
  {
  }

  /** Splitting a text ended by a line feed into lines and joining them again gives the
      text back exactly when it has no carriage return before a line feed, and
      otherwise something shorter. */
  lemma {:induction false} RejoinLines(b: string)
    ensures var j := Delimited.Join(Lines(b + "\n"), '\n');
      if CrLfFree(b + "\n") then j == b else |j| < |b|
    ensures Lines(b + "\n") != []
    decreases |b|
  {
    hide Lines, CrLfFree;
    var i := FirstIndex(b, '\n');
    if i == |b| {
      assert b[..i] == b;
      assert b + "\n" == b + "\n" + "";
      LinesOf(b, "");
      CrLfFreeParts(b, "");
      NoLfIsCrLfFree(b);
      NoLinesOfNothing();
    } else {
      var x, rest := b[..i], b[i + 1..];
      assert b + "\n" == x + "\n" + (rest + "\n");
      LinesOf(x, rest + "\n");
      CrLfFreeParts(x, rest + "\n");
      NoLfIsCrLfFree(x);
      RejoinLines(rest);
      var tail := Lines(rest + "\n");
      assert ([StripCr(x)] + tail)[1..] == tail;
      assert b == x + "\n" + rest;
    }
  }

  // ---- Quotes --------------------------------------------------------------------------

  /** Wrapped in one matching pair of quotes. */
  predicate Wrapped(s: string) {
    |s| >= 2 && (s[0] == '"' || s[0] == '\'') && s[|s| - 1] == s[0]
  }

  function Unquote(s: string): string {
    if Wrapped(s) then s[1..|s| - 1] else s
  }

  // ---- ASCII case -----------------------------------------------------------------------

  function Upper(c: char): char {
    if 'a' <= c <= 'z' then c - 'a' + 'A' else c
  }

  function Lower(c: char): char {
    if 'A' <= c <= 'Z' then c - 'A' + 'a' else c
  }

  function UpperText(s: string): string {
    seq(|s|, i requires 0 <= i < |s| => Upper(s[i]))
  }

  function LowerText(s: string): string {
    seq(|s|, i requires 0 <= i < |s| => Lower(s[i]))
  }

  // ---- The same text in another case ------------------------------------------------------

  const CAPITALS := "ABCDEFGHIJKLMNOPQRSTUVWXYZ"
  const SMALLS := "abcdefghijklmnopqrstuvwxyz"

  /** `c` is letter number `i`, in either case. */
  ghost predicate IsLetter(c: char, i: nat) {
    i < 26 && (c == CAPITALS[i] || c == SMALLS[i])
  }

  /** The same character, or the same ASCII letter in the other case. */
  ghost predicate SameLetter(a: char, b: char) {
    a == b || exists i: nat :: IsLetter(a, i) && IsLetter(b, i)
  }

  ghost predicate Recased(a: string, b: string) {
    |a| == |b| && forall i :: 0 <= i < |a| ==> SameLetter(a[i], b[i])
  }

  lemma Capital(i: nat)
    requires i < 26
    ensures CAPITALS[i] == 'A' + i as char
  {
  }

  lemma Small(i: nat)
    requires i < 26
    ensures SMALLS[i] == 'a' + i as char
  {
  }

  lemma LetterNumber(c: char, i: nat)
    ensures IsLetter(c, i) <==> i < 26 && (c == 'A' + i as char || c == 'a' + i as char)
  {
    if i < 26 {
      Capital(i);
      Small(i);
    }
  }

  lemma CapitalsAre(c: char)
    ensures c in CAPITALS <==> 'A' <= c <= 'Z'
  {
    if c in CAPITALS {
      var i: nat :| i < 26 && CAPITALS[i] == c;
      Capital(i);
    }
    if 'A' <= c <= 'Z' {
      Capital((c - 'A') as nat);
    }
  }

  lemma SmallsAre(c: char)
    ensures c in SMALLS <==> 'a' <= c <= 'z'
  {
    if c in SMALLS {
      var i: nat :| i < 26 && SMALLS[i] == c;
      Small(i);
    }
    if 'a' <= c <= 'z' {
      Small((c - 'a') as nat);
    }
  }

  lemma RecasedSymmetric(a: string, b: string)
    requires Recased(a, b)
    ensures Recased(b, a)
  {
    forall i | 0 <= i < |a| ensures SameLetter(b[i], a[i]) {
      assert SameLetter(a[i], b[i]);
    }
  }

  lemma RecasedLength(a: string, b: string)
    requires Recased(a, b)
    ensures |a| == |b|
  {
  }

  lemma SliceRecased(a: string, b: string, i: nat, j: nat)
    requires Recased(a, b) && i <= j <= |a|
    ensures Recased(a[i..j], b[i..j]) && Recased(a[j..], b[j..])
  {
    assert forall k :: 0 <= k < j - i ==> a[i..j][k] == a[i + k] && b[i..j][k] == b[i + k];
    assert forall k :: 0 <= k < |a| - j ==> a[j..][k] == a[j + k] && b[j..][k] == b[j + k];
  }

  lemma UpperIsLetter(c: char)
    ensures SameLetter(c, Upper(c))
  {
    hide IsLetter;
    if 'a' <= c <= 'z' {
      var i := (c - 'a') as nat;
      LetterNumber(c, i);
      LetterNumber(Upper(c), i);
    }
  }

  predicate Letter(c: char) {
    'A' <= c <= 'Z' || 'a' <= c <= 'z'
  }

  /** Where the two differ they are letters, and folding their case makes them one. */
  lemma LetterFolds(a: char, b: char)
    requires SameLetter(a, b)
    ensures Upper(a) == Upper(b) && Lower(a) == Lower(b) && (a != b ==> Letter(a) && Letter(b))
  {
    hide IsLetter;
    if a != b {
      var i: nat :| IsLetter(a, i) && IsLetter(b, i);
      LetterNumber(a, i);
      LetterNumber(b, i);
    }
  }
}
