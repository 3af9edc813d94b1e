/** What the parser makes of any `SKILL.md` document, not only a printed one: when it
    succeeds and with what, which error it gives otherwise, and what does not matter. */
module SkillDocuments {
  import opened Wrappers
  import opened Firm
  import opened Text
  import opened SkillMd
  import Delimited

  // ---- The frontmatter -----------------------------------------------------------------------

  /** The first line that is not blank is a fence, and `close` is the next one. */
  ghost predicate Frontmatter(lines: seq<string>, open: nat, close: nat) {
    && open < close < |lines| && Trim(lines[open]) == "---" && Trim(lines[close]) == "---"
    && (forall i :: 0 <= i < open ==> Trim(lines[i]) == "")
    && (forall i :: open < i < close ==> Trim(lines[i]) != "---")
  }

  lemma {:induction false} FirstNonBlankIs(lines: seq<string>, i: nat)
    requires i <= |lines|
    ensures var r := FirstNonBlank(lines, i);
      (r < |lines| ==> Trim(lines[r]) != "") && forall j :: i <= j < r ==> Trim(lines[j]) == ""
    decreases |lines| - i
  {
    hide Trim;
    if i < |lines| && Trim(lines[i]) == "" {
      FirstNonBlankIs(lines, i + 1);
    }
  }

  lemma {:induction false} FirstFenceIs(lines: seq<string>, i: nat)
    requires i <= |lines|
    ensures var r := FirstFence(lines, i);
      (r < |lines| ==> Trim(lines[r]) == "---") && forall j :: i <= j < r ==> Trim(lines[j]) != "---"
    decreases |lines| - i
  {
    hide Trim;
    if i < |lines| && Trim(lines[i]) != FENCE {
      FirstFenceIs(lines, i + 1);
    }
  }

  lemma FrontmatterIsFound(lines: seq<string>, open: nat, close: nat)
    ensures Frontmatter(lines, open, close) <==>
      && open == FirstNonBlank(lines, 0) && open < |lines| && Trim(lines[open]) == FENCE
      && close == FirstFence(lines, open + 1) && close < |lines|
  {
    hide Trim, FirstNonBlank, FirstFence;
    FirstNonBlankIs(lines, 0);
    if open < |lines| {
      FirstFenceIs(lines, open + 1);
    }
  }

  // ---- Its fields -----------------------------------------------------------------------------

  /** Blank lines and comments say nothing. */
  ghost predicate Silent(line: string) {
    Trim(line) == "" || Trim(line)[0] == '#'
  }

  /** Any other line is split at its first colon into a key, in small letters, and a value. */
  ghost predicate Says(line: string, key: string, value: string) {
    !Silent(line) && exists before, after ::
      SplitAs(line, before, after) && key == LowerText(Trim(before)) && value == Value(after)
  }

  ghost predicate SplitAs(line: string, before: string, after: string) {
    line == before + [':'] + after && ':' !in before
  }

  /** The parser's split at the first colon is the only one there is. */
  lemma SplitIsFirst(line: string, before: string, after: string)
    ensures var i := FirstIndex(line, ':');
      SplitAs(line, before, after) <==> i < |line| && before == line[..i] && after == line[i + 1..]
  {
    hide FirstIndex;
    if SplitAs(line, before, after) {
      SplitOnce(line, before, after);
    } else {
      SplitThere(line);
    }
  }

  lemma SplitOnce(line: string, before: string, after: string)
    requires SplitAs(line, before, after)
    ensures FirstIndex(line, ':') == |before| < |line| && before == line[..|before|] && after == line[|before| + 1..]
    ensures ':' in line
  {
    hide FirstIndex;
    assert line[..|before|] == before && line[|before|] == ':';
    FirstIndexIs(line, ':', |before|);
  }

  lemma SplitThere(line: string)
    ensures var i := FirstIndex(line, ':'); i < |line| ==> SplitAs(line, line[..i], line[i + 1..])
  {
    hide FirstIndex;
    var i := FirstIndex(line, ':');
    if i < |line| {
      SplitAround(line, i);
    }
  }

  lemma FieldMeans(line: string)
    ensures FieldOf(line).Skip? <==> Silent(line)
    ensures FieldOf(line).NotAPair? <==> !Silent(line) && ':' !in line
    ensures forall k, v :: FieldOf(line) == Pair(k, v) <==> Says(line, k, v)
  {
    hide Trim, LowerText, Unquote, SplitAs, FirstIndex;
    ColonOrNot(line);
    var i := FirstIndex(line, ':');
    if i < |line| {
      SplitIsFirst(line, line[..i], line[i + 1..]);
    }
    forall k, v ensures FieldOf(line) == Pair(k, v) <==> Says(line, k, v) {
      if Says(line, k, v) {
        var before, after :| SplitAs(line, before, after) && k == LowerText(Trim(before)) && v == Value(after);
        SplitIsFirst(line, before, after);
      }
    }
  }

  lemma ColonOrNot(line: string)
    ensures var i := FirstIndex(line, ':'); i <= |line| && (i == |line| <==> ':' !in line)
  {
    var i := FirstIndex(line, ':');
    if i == |line| {
      assert line[..i] == line;
    }
  }

  /** The last line between the two that says something of `key` says `value`. */
  ghost predicate Gives(lines: seq<string>, lo: nat, hi: nat, key: string, value: string) {
    exists i :: lo <= i < hi <= |lines| && GivenAt(lines, i, hi, key, value)
  }

  ghost predicate GivenAt(lines: seq<string>, i: nat, hi: nat, key: string, value: string)
    requires i < hi <= |lines|
  {
    Says(lines[i], key, value) && forall j, v :: i < j < hi ==> !Says(lines[j], key, v)
  }

  ghost predicate Lacks(lines: seq<string>, lo: nat, hi: nat, key: string)
    requires hi <= |lines|
  {
    forall i, v :: lo <= i < hi ==> !Says(lines[i], key, v)
  }

  /** Every line between the two is silent or says something. */
  ghost predicate AllRead(lines: seq<string>, lo: nat, hi: nat)
    requires hi <= |lines|
  {
    forall i :: lo <= i < hi ==> Silent(lines[i]) || ':' in lines[i]
  }

  lemma {:induction false} FieldOfMore(f: (string, string), rest: seq<(string, string)>, key: string)
    ensures Field([f] + rest, key) ==
            if Field(rest, key).Some? then Field(rest, key) else if f.0 == key then Some(f.1) else None
  {
    var all := [f] + rest;
    if rest == [] {
      assert all == [f] && all[..0] == [];
    } else {
      assert all[..|all| - 1] == [f] + rest[..|rest| - 1];
      FieldOfMore(f, rest[..|rest| - 1], key);
    }
  }

  /** What `key` has, by the collected fields and by the lines. */
  ghost predicate Agrees(found: Option<string>, lines: seq<string>, lo: nat, hi: nat, key: string)
    requires lo <= hi <= |lines|
  {
    && (found.None? ==> Lacks(lines, lo, hi, key))
    && (found.Some? ==> Gives(lines, lo, hi, key, found.value))
  }

  lemma AgreesSkip(found: Option<string>, lines: seq<string>, lo: nat, hi: nat, key: string)
    requires lo < hi <= |lines| && Agrees(found, lines, lo + 1, hi, key) && Silent(lines[lo])
    ensures Agrees(found, lines, lo, hi, key)
  {
    hide Trim, Silent;
    if found.Some? {
      var i :| lo + 1 <= i < hi && GivenAt(lines, i, hi, key, found.value);
    } else {
      forall i, v | lo <= i < hi ensures !Says(lines[i], key, v) {
      }
    }
  }

  lemma AgreesPair(found: Option<string>, lines: seq<string>, lo: nat, hi: nat, key: string, k: string, v: string)
    requires lo < hi <= |lines| && Agrees(found, lines, lo + 1, hi, key) && Says(lines[lo], k, v)
    requires forall k', v' :: Says(lines[lo], k', v') ==> k' == k && v' == v
    ensures Agrees(if found.Some? then found else if k == key then Some(v) else None, lines, lo, hi, key)
  {
    hide Says;
    if found.Some? {
      var i :| lo + 1 <= i < hi && GivenAt(lines, i, hi, key, found.value);
    } else if k == key {
      assert GivenAt(lines, lo, hi, key, v);
    } else {
      forall i, v' | lo <= i < hi ensures !Says(lines[i], key, v') {
      }
    }
  }

  lemma {:induction false} FieldsMean(lines: seq<string>, lo: nat, hi: nat, key: string)
    requires lo <= hi <= |lines|
    ensures Fields(lines, lo, hi).Ok? <==> AllRead(lines, lo, hi)
    ensures Fields(lines, lo, hi).Ok? ==> Agrees(Field(Fields(lines, lo, hi).value, key), lines, lo, hi, key)
    decreases hi - lo
  {
    hide FieldOf, Silent, Says, Agrees, Field;
    if lo == hi {
      NothingGiven(lines, lo, key);
    } else {
      FieldMeans(lines[lo]);
      FieldsMean(lines, lo + 1, hi, key);
      var rest := Fields(lines, lo + 1, hi);
      match FieldOf(lines[lo])
      case Skip =>
        if rest.Ok? {
          AgreesSkip(Field(rest.value, key), lines, lo, hi, key);
        }
      case NotAPair =>
      case Pair(k, v) =>
        HasColon(lines[lo], k, v);
        if rest.Ok? {
          FieldOfMore((k, v), rest.value, key);
          AgreesPair(Field(rest.value, key), lines, lo, hi, key, k, v);
        }
    }
  }

  lemma NothingGiven(lines: seq<string>, at: nat, key: string)
    requires at <= |lines|
    ensures Agrees(Field([], key), lines, at, at, key)
  {
  }

  lemma HasColon(line: string, k: string, v: string)
    requires Says(line, k, v)
    ensures ':' in line
  {
    hide Silent, SplitAs, Trim, LowerText, Value;
    var before, after :| SplitAs(line, before, after) && k == LowerText(Trim(before)) && v == Value(after);
    SplitOnce(line, before, after);
  }

  /** A key is given at most one value. */
  lemma GivenOnce(lines: seq<string>, lo: nat, hi: nat, key: string, v: string, w: string)
    requires hi <= |lines| && Gives(lines, lo, hi, key, v) && Gives(lines, lo, hi, key, w)
    ensures v == w
  {
    hide Says;
    var i :| lo <= i < hi && GivenAt(lines, i, hi, key, v);
    var j :| lo <= j < hi && GivenAt(lines, j, hi, key, w);
    assert i == j;
    FieldMeans(lines[i]);
  }

  // ---- A successful parse ---------------------------------------------------------------------

  /** The document's lines say exactly this manifest. */
  ghost predicate Describes(lines: seq<string>, m: SkillManifest) {
    exists open: nat, close: nat :: Frontmatter(lines, open, close) && Within(lines, open + 1, close, m)
      && m.body == Trim(Delimited.Join(lines[close + 1..], '\n'))
  }

  ghost predicate Within(lines: seq<string>, lo: nat, hi: nat, m: SkillManifest)
    requires hi <= |lines|
  {
    && AllRead(lines, lo, hi)
    && m.name != "" && Gives(lines, lo, hi, "name", m.name)
    && m.version != "" && Gives(lines, lo, hi, "version", m.version)
    && m.guest != "" && Gives(lines, lo, hi, "guest", m.guest)
    && (exists raw :: Gives(lines, lo, hi, "clearance", raw) && Reads(raw, m.clearance))
    && (Gives(lines, lo, hi, "description", m.description)
        || (m.description == "" && Lacks(lines, lo, hi, "description")))
  }

  /** A level is an L in either case and its digit, with any white space around. */
  ghost predicate Reads(raw: string, level: Clearance) {
    var t := Trim(raw);
    && |t| == 2 && t[0] in "Ll"
    && t[1] == match level case L1 => '1' case L2 => '2' case L3 => '3' case L4 => '4' case L5 => '5'
  }

  lemma ClearanceMeans(raw: string, level: Clearance)
    ensures ParseClearance(raw) == Some(level) <==> Reads(raw, level)
  {
    hide Trim;
    var t := Trim(raw);
    var u := UpperText(t);
    if |t| == 2 {
      assert u == [Upper(t[0]), Upper(t[1])];
    }
  }

  lemma LooksUp(found: Option<string>, lines: seq<string>, lo: nat, hi: nat, key: string, value: string)
    requires lo <= hi <= |lines| && Agrees(found, lines, lo, hi, key)
    ensures found == Some(value) <==> Gives(lines, lo, hi, key, value)
    ensures found.None? <==> Lacks(lines, lo, hi, key)
  {
    hide Says;
    if found.Some? {
      var i :| lo <= i < hi && GivenAt(lines, i, hi, key, found.value);
      if Gives(lines, lo, hi, key, value) {
        GivenOnce(lines, lo, hi, key, value, found.value);
      }
    }
  }

  /** What assembling makes of the looked-up values. */
  ghost predicate Assembles(name: Option<string>, version: Option<string>, guest: Option<string>,
                            raw: Option<string>, description: Option<string>, m: SkillManifest) {
    && name == Some(m.name) && m.name != "" && version == Some(m.version) && m.version != ""
    && guest == Some(m.guest) && m.guest != ""
    && raw.Some? && raw.value != "" && ParseClearance(raw.value) == Some(m.clearance)
    && (description == Some(m.description) || (description.None? && m.description == ""))
  }

  lemma AssembleIs(fields: seq<(string, string)>, body: string, m: SkillManifest)
    ensures Assemble(fields, body) == Ok(m) <==>
      Assembles(Field(fields, "name"), Field(fields, "version"), Field(fields, "guest"), Field(fields, "clearance"),
                Field(fields, "description"), m) && m.body == body
  {
    hide Field, ParseClearance;
  }

  lemma AssembledMeans(lines: seq<string>, lo: nat, hi: nat, body: string, m: SkillManifest)
    requires lo <= hi <= |lines| && Fields(lines, lo, hi).Ok?
    ensures Assemble(Fields(lines, lo, hi).value, body) == Ok(m) <==> Within(lines, lo, hi, m) && m.body == body
  {
    hide Assemble, Field, ParseClearance, Fields, Gives, Lacks, AllRead, Reads;
    AssembleIs(Fields(lines, lo, hi).value, body, m);
    Looked(lines, lo, hi, "name", m.name);
    Looked(lines, lo, hi, "version", m.version);
    Looked(lines, lo, hi, "guest", m.guest);
    Looked(lines, lo, hi, "description", m.description);
    ClearanceLooked(lines, lo, hi, m.clearance);
  }

  lemma Looked(lines: seq<string>, lo: nat, hi: nat, key: string, value: string)
    requires lo <= hi <= |lines| && Fields(lines, lo, hi).Ok?
    ensures AllRead(lines, lo, hi)
    ensures Field(Fields(lines, lo, hi).value, key) == Some(value) <==> Gives(lines, lo, hi, key, value)
    ensures Field(Fields(lines, lo, hi).value, key).None? <==> Lacks(lines, lo, hi, key)
  {
    hide Field, Gives, Lacks, Agrees;
    FieldsMean(lines, lo, hi, key);
    LooksUp(Field(Fields(lines, lo, hi).value, key), lines, lo, hi, key, value);
  }

  lemma ClearanceLooked(lines: seq<string>, lo: nat, hi: nat, level: Clearance)
    requires lo <= hi <= |lines| && Fields(lines, lo, hi).Ok?
    ensures var found := Field(Fields(lines, lo, hi).value, "clearance");
      (found.Some? && found.value != "" && ParseClearance(found.value) == Some(level))
      <==> exists raw :: Gives(lines, lo, hi, "clearance", raw) && Reads(raw, level)
  {
    hide Field, Fields, Gives, Lacks, ParseClearance, Reads;
    var found := Field(Fields(lines, lo, hi).value, "clearance");
    forall raw ensures found == Some(raw) <==> Gives(lines, lo, hi, "clearance", raw) {
      Looked(lines, lo, hi, "clearance", raw);
    }
    forall raw ensures ParseClearance(raw) == Some(level) <==> Reads(raw, level) {
      ClearanceMeans(raw, level);
    }
    NoLevelOfNothing(level);
  }

  lemma NoLevelOfNothing(level: Clearance)
    ensures !Reads("", level)
  {
  }

  /** Parsing gives a manifest if and only if the document says exactly that: whatever the
      document. */
  lemma ParseMeans(input: string, m: SkillManifest)
    ensures Parse(input) == Ok(m) <==> Describes(Lines(StripBom(input)), m)
  {
    hide Trim, Lines, StripBom, FirstNonBlank, FirstFence, Assemble, Delimited.Join, Fields;
    hide Within, AllRead, Frontmatter;
    var lines := Lines(StripBom(input));
    var open := FirstNonBlank(lines, 0);
    forall o: nat, c: nat | Frontmatter(lines, o, c)
      ensures o < |lines| && o == open && c == FirstFence(lines, o + 1) && c < |lines| && Trim(lines[o]) == FENCE
    {
      FrontmatterIsFound(lines, o, c);
    }
    if open < |lines| && Trim(lines[open]) == FENCE {
      var close := FirstFence(lines, open + 1);
      FrontmatterIsFound(lines, open, close);
      if close < |lines| {
        FieldsMean(lines, open + 1, close, "name");
        WithinIsRead(lines, open + 1, close, m);
        if Fields(lines, open + 1, close).Ok? {
          AssembledMeans(lines, open + 1, close, Trim(Delimited.Join(lines[close + 1..], '\n')), m);
        }
      }
    }
  }

  lemma WithinIsRead(lines: seq<string>, lo: nat, hi: nat, m: SkillManifest)
    requires hi <= |lines|
    ensures Within(lines, lo, hi, m) ==> AllRead(lines, lo, hi)
  {
  }

  // ---- A failed parse ---------------------------------------------------------------------------

  ghost predicate Opens(lines: seq<string>, open: nat) {
    open < |lines| && Trim(lines[open]) == "---" && forall i :: 0 <= i < open ==> Trim(lines[i]) == ""
  }

  /** Line number `n`, counted from one, is the first between the two that cannot be read. */
  ghost predicate FirstBad(lines: seq<string>, lo: nat, hi: nat, n: nat, content: string)
    requires hi <= |lines|
  {
    && lo < n <= hi && content == lines[n - 1] && !Silent(lines[n - 1]) && ':' !in lines[n - 1]
    && AllRead(lines, lo, n - 1)
  }

  const REQUIRED := ["name", "version", "guest", "clearance"]

  ghost predicate Given(lines: seq<string>, lo: nat, hi: nat, key: string) {
    exists v :: v != "" && Gives(lines, lo, hi, key, v)
  }

  /** The required keys before number `i` are given. */
  ghost predicate GivenBefore(lines: seq<string>, lo: nat, hi: nat, i: nat) {
    i <= 4 && forall j :: 0 <= j < i ==> Given(lines, lo, hi, REQUIRED[j])
  }

  /** Why the document has no manifest. */
  ghost predicate Explains(lines: seq<string>, e: SkillParseError) {
    match e
    case MissingFrontmatter => forall open: nat :: !Opens(lines, open)
    case UnterminatedFrontmatter =>
      exists open: nat :: Opens(lines, open) && forall i :: open < i < |lines| ==> Trim(lines[i]) != "---"
    case BadLine(n, content) =>
      exists open: nat, close: nat :: Frontmatter(lines, open, close) && FirstBad(lines, open + 1, close, n, content)
    case _ => exists open: nat, close: nat ::
      Frontmatter(lines, open, close) && AllRead(lines, open + 1, close) && FieldsExplain(lines, open + 1, close, e)
  }

  ghost predicate FieldsExplain(lines: seq<string>, lo: nat, hi: nat, e: SkillParseError)
    requires hi <= |lines|
  {
    match e
    case MissingKey(key) =>
      exists i: nat :: i < 4 && key == REQUIRED[i] && GivenBefore(lines, lo, hi, i) && Lacks(lines, lo, hi, key)
    case EmptyValue(key) =>
      exists i: nat :: i < 4 && key == REQUIRED[i] && GivenBefore(lines, lo, hi, i) && Gives(lines, lo, hi, key, "")
    case BadClearance(raw) =>
      GivenBefore(lines, lo, hi, 4) && Gives(lines, lo, hi, "clearance", raw) && forall level :: !Reads(raw, level)
    case _ => false
  }

  lemma {:induction false} BadLineMeans(lines: seq<string>, lo: nat, hi: nat)
    requires lo <= hi <= |lines| && Fields(lines, lo, hi).Err?
    ensures var e := Fields(lines, lo, hi).error; e.BadLine? && FirstBad(lines, lo, hi, e.line, e.content)
    decreases hi - lo
  {
    hide FieldOf, Silent, Says;
    FieldMeans(lines[lo]);
    if !FieldOf(lines[lo]).NotAPair? {
      BadLineMeans(lines, lo + 1, hi);
      if FieldOf(lines[lo]).Pair? {
        HasColon(lines[lo], FieldOf(lines[lo]).key, FieldOf(lines[lo]).value);
      }
    }
  }

  /** What a required key comes to, by its lines. */
  lemma RequiredMeans(lines: seq<string>, lo: nat, hi: nat, key: string)
    requires lo <= hi <= |lines| && Fields(lines, lo, hi).Ok?
    ensures var r := Required(Fields(lines, lo, hi).value, key);
      && (r.Ok? ==> r.value != "" && Gives(lines, lo, hi, key, r.value) && Given(lines, lo, hi, key))
      && (r.Err? ==> (r.error == MissingKey(key) && Lacks(lines, lo, hi, key))
                     || (r.error == EmptyValue(key) && Gives(lines, lo, hi, key, "")))
  {
    hide Fields, Field, Gives, Lacks, AllRead;
    var found := Field(Fields(lines, lo, hi).value, key);
    Looked(lines, lo, hi, key, if found.Some? then found.value else "");
  }

  lemma KeyFails(lines: seq<string>, lo: nat, hi: nat, i: nat, e: SkillParseError)
    requires lo <= hi <= |lines| && i < 4 && GivenBefore(lines, lo, hi, i)
    requires (e == MissingKey(REQUIRED[i]) && Lacks(lines, lo, hi, REQUIRED[i]))
          || (e == EmptyValue(REQUIRED[i]) && Gives(lines, lo, hi, REQUIRED[i], ""))
    ensures FieldsExplain(lines, lo, hi, e)
  {
    hide GivenBefore, Gives, Lacks;
  }

  lemma OneMoreGiven(lines: seq<string>, lo: nat, hi: nat, i: nat)
    requires i < 4 && GivenBefore(lines, lo, hi, i) && Given(lines, lo, hi, REQUIRED[i])
    ensures GivenBefore(lines, lo, hi, i + 1)
  {
    hide Given;
  }

  lemma NoneGiven(lines: seq<string>, lo: nat, hi: nat)
    ensures GivenBefore(lines, lo, hi, 0)
  {
  }

  lemma AssembleFails(lines: seq<string>, lo: nat, hi: nat, body: string)
    requires lo <= hi <= |lines| && Fields(lines, lo, hi).Ok? && Assemble(Fields(lines, lo, hi).value, body).Err?
    ensures FieldsExplain(lines, lo, hi, Assemble(Fields(lines, lo, hi).value, body).error)
  {
    hide Fields, Required, ParseClearance, GivenBefore, Given, FieldsExplain, Gives, Lacks;
    var fields := Fields(lines, lo, hi).value;
    var e := Assemble(fields, body).error;
    NoneGiven(lines, lo, hi);
    var i := 0;
    while i < 4 && Required(fields, REQUIRED[i]).Ok?
      invariant 0 <= i <= 4 && GivenBefore(lines, lo, hi, i)
      invariant forall j :: 0 <= j < i ==> Required(fields, REQUIRED[j]).Ok?
    {
      RequiredMeans(lines, lo, hi, REQUIRED[i]);
      OneMoreGiven(lines, lo, hi, i);
      i := i + 1;
    }
    if i < 4 {
      RequiredMeans(lines, lo, hi, REQUIRED[i]);
      assert 0 < i ==> Required(fields, REQUIRED[0]).Ok?;
      assert 1 < i ==> Required(fields, REQUIRED[1]).Ok?;
      assert 2 < i ==> Required(fields, REQUIRED[2]).Ok?;
      assert e == Required(fields, REQUIRED[i]).error;
      KeyFails(lines, lo, hi, i, e);
    } else {
      assert Required(fields, REQUIRED[0]).Ok? && Required(fields, REQUIRED[1]).Ok?;
      assert Required(fields, REQUIRED[2]).Ok? && Required(fields, REQUIRED[3]).Ok?;
      RequiredMeans(lines, lo, hi, "clearance");
      LevelFails(lines, lo, hi, Required(fields, "clearance").value);
    }
  }

  lemma LevelFails(lines: seq<string>, lo: nat, hi: nat, raw: string)
    requires hi <= |lines| && GivenBefore(lines, lo, hi, 4) && Gives(lines, lo, hi, "clearance", raw)
    ensures ParseClearance(raw).None? ==> FieldsExplain(lines, lo, hi, BadClearance(raw))
  {
    hide GivenBefore, Gives, ParseClearance, Reads;
    forall level ensures ParseClearance(raw) == Some(level) <==> Reads(raw, level) {
      ClearanceMeans(raw, level);
    }
  }

  lemma NoOpening(lines: seq<string>)
    ensures var open := FirstNonBlank(lines, 0);
      if open < |lines| && Trim(lines[open]) == FENCE then Opens(lines, open) else forall o: nat :: !Opens(lines, o)
  {
    hide Trim, FirstNonBlank;
    FirstNonBlankIs(lines, 0);
  }

  /** Every error the parser gives says something true of the document. */
  lemma ErrorsMean(input: string)
    requires Parse(input).Err?
    ensures Explains(Lines(StripBom(input)), Parse(input).error)
  {
    hide Trim, Lines, StripBom, FirstNonBlank, FirstFence, Assemble, Delimited.Join, Fields, AllRead, Frontmatter;
    hide FieldsExplain, FirstBad, Opens;
    var lines := Lines(StripBom(input));
    var open := FirstNonBlank(lines, 0);
    NoOpening(lines);
    if open < |lines| && Trim(lines[open]) == FENCE {
      var close := FirstFence(lines, open + 1);
      FrontmatterIsFound(lines, open, close);
      FirstFenceIs(lines, open + 1);
      if close < |lines| {
        FieldsMean(lines, open + 1, close, "name");
        if Fields(lines, open + 1, close).Err? {
          BadLineMeans(lines, open + 1, close);
        } else {
          AssembleFails(lines, open + 1, close, Trim(Delimited.Join(lines[close + 1..], '\n')));
          KindOfError(Fields(lines, open + 1, close).value, Trim(Delimited.Join(lines[close + 1..], '\n')));
        }
      }
    }
  }

  lemma KindOfError(fields: seq<(string, string)>, body: string)
    requires Assemble(fields, body).Err?
    ensures var e := Assemble(fields, body).error; e.MissingKey? || e.EmptyValue? || e.BadClearance?
  {
    hide Field, ParseClearance;
  }
}
