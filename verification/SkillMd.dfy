/** The `SKILL.md` format: printing a skill manifest, parsing one, and exactly which
    manifests survive the round trip. */
module SkillMd {
  import opened Wrappers
  import opened Firm
  import opened Text
  import Delimited

  datatype SkillManifest = SkillManifest(
    name: string, version: string, guest: string, clearance: Clearance, description: string, body: string)

  datatype SkillParseError =
    | MissingFrontmatter
    | UnterminatedFrontmatter
    | BadLine(line: nat, content: string)
    | MissingKey(key: string)
    | EmptyValue(key: string)
    | BadClearance(raw: string)

  datatype Result<+T> = Ok(value: T) | Err(error: SkillParseError)

  const FENCE := "---"

  // ---- Clearance as text ---------------------------------------------------------------

  function ParseClearance(s: string): Option<Clearance> {
    var t := UpperText(Trim(s));
    if t == "L1" then Some(L1) else if t == "L2" then Some(L2) else if t == "L3" then Some(L3)
    else if t == "L4" then Some(L4) else if t == "L5" then Some(L5) else None
  }

  lemma ClearanceRoundTrip(c: Clearance)
    ensures ParseClearance(ShowClearance(c)) == Some(c)
  {
    hide Trim;
    var t := ShowClearance(c);
    TrimIsExact(t);
    assert UpperText(t) == t;
  }

  // ---- Printing ------------------------------------------------------------------------

  function KeyLine(key: string, value: string): string {
    key + ": " + value
  }

  function ToSkillMd(m: SkillManifest): string {
    FENCE + "\n" + (KeyLine("name", m.name) + "\n" + (KeyLine("version", m.version) + "\n"
    + (KeyLine("guest", m.guest) + "\n" + (KeyLine("clearance", ShowClearance(m.clearance)) + "\n"
    + (KeyLine("description", m.description) + "\n" + (FENCE + "\n" + ("" + "\n" + (m.body + "\n"))))))))
  }

  // ---- Parsing ---------------------------------------------------------------------------

  datatype LineField = Skip | Pair(key: string, value: string) | NotAPair

  /** One frontmatter line: blank lines and comments are skipped, the rest must be
      `key: value`. */
  function FieldOf(line: string): LineField {
    var trimmed := Trim(line);
    if trimmed == "" || trimmed[0] == '#' then Skip else
    var i := FirstIndex(line, ':');
    if i == |line| then NotAPair else Pair(LowerText(Trim(line[..i])), Unquote(Trim(line[i + 1..])))
  }

  function FirstNonBlank(lines: seq<string>, i: nat): (r: nat)
    requires i <= |lines|
    ensures i <= r <= |lines|
    decreases |lines| - i
  {
    if i < |lines| && Trim(lines[i]) == "" then FirstNonBlank(lines, i + 1) else i
  }

  function FirstFence(lines: seq<string>, i: nat): (r: nat)
    requires i <= |lines|
    ensures i <= r <= |lines|
    decreases |lines| - i
  {
    if i < |lines| && Trim(lines[i]) != FENCE then FirstFence(lines, i + 1) else i
  }

  function Fields(lines: seq<string>, i: nat, end: nat): Result<seq<(string, string)>>
    requires i <= end <= |lines|
    decreases end - i
  {
    if i == end then Ok([]) else
    match FieldOf(lines[i])
    case Skip => Fields(lines, i + 1, end)
    case NotAPair => Err(BadLine(i + 1, lines[i]))
    case Pair(k, v) => Prepend([(k, v)], Fields(lines, i + 1, end))
  }

  function Prepend(fs: seq<(string, string)>, rest: Result<seq<(string, string)>>): Result<seq<(string, string)>> {
    match rest case Ok(more) => Ok(fs + more) case Err(e) => Err(e)
  }

  /** The last value given for a key. */
  function Field(fields: seq<(string, string)>, key: string): Option<string> {
    if fields == [] then None
    else if fields[|fields| - 1].0 == key then Some(fields[|fields| - 1].1)
    else Field(fields[..|fields| - 1], key)
  }

  function Required(fields: seq<(string, string)>, key: string): Result<string> {
    match Field(fields, key)
    case None => Err(MissingKey(key))
    case Some(v) => if v == "" then Err(EmptyValue(key)) else Ok(v)
  }

  function Assemble(fields: seq<(string, string)>, body: string): Result<SkillManifest> {
    match Required(fields, "name")
    case Err(e) => Err(e)
    case Ok(name) =>
      match Required(fields, "version")
      case Err(e) => Err(e)
      case Ok(version) =>
        match Required(fields, "guest")
        case Err(e) => Err(e)
        case Ok(guest) =>
          match Required(fields, "clearance")
          case Err(e) => Err(e)
          case Ok(raw) =>
            match ParseClearance(raw)
            case None => Err(BadClearance(raw))
            case Some(clearance) =>
              Ok(SkillManifest(name, version, guest, clearance,
                               match Field(fields, "description") case Some(d) => d case None => "", body))
  }

  function StripBom(s: string): string {
    if s != "" && s[0] == '\U{FEFF}' then s[1..] else s
  }

  function Parse(input: string): Result<SkillManifest> {
    ParseLines(Lines(StripBom(input)))
  }

  function ParseLines(lines: seq<string>): Result<SkillManifest> {
    var open := FirstNonBlank(lines, 0);
    if open >= |lines| || Trim(lines[open]) != FENCE then Err(MissingFrontmatter) else
    var close := FirstFence(lines, open + 1);
    if close == |lines| then Err(UnterminatedFrontmatter) else
    match Fields(lines, open + 1, close)
    case Err(e) => Err(e)
    case Ok(fields) => Assemble(fields, Trim(Delimited.Join(lines[close + 1..], '\n')))
  }

  lemma PrependNothing(r: Result<seq<(string, string)>>)
    ensures Prepend([], r) == r
  {
    if r.Ok? {
      assert [] + r.value == r.value;
    }
  }

  lemma PrependTwice(a: seq<(string, string)>, b: seq<(string, string)>, r: Result<seq<(string, string)>>)
    ensures Prepend(a, Prepend(b, r)) == Prepend(a + b, r)
  {
    if r.Ok? {
      assert a + (b + r.value) == a + b + r.value;
    }
  }

  /** The parser as written: scan for the fences, then collect the fields. */
  method ParseSkillMd(input: string) returns (r: Result<SkillManifest>)
    ensures r == Parse(input)
  {
    hide Trim, FieldOf, Assemble, Lines, Delimited.Join;
    var lines := Lines(StripBom(input));
    var open := 0;
    while open < |lines| && Trim(lines[open]) == ""
      invariant 0 <= open <= |lines|
      invariant FirstNonBlank(lines, 0) == FirstNonBlank(lines, open)
    {
      open := open + 1;
    }
    if open >= |lines| || Trim(lines[open]) != FENCE {
      return Err(MissingFrontmatter);
    }
    var bodyStart := open + 1;
    while bodyStart < |lines| && Trim(lines[bodyStart]) != FENCE
      invariant open + 1 <= bodyStart <= |lines|
      invariant FirstFence(lines, open + 1) == FirstFence(lines, bodyStart)
    {
      bodyStart := bodyStart + 1;
    }
    if bodyStart == |lines| {
      return Err(UnterminatedFrontmatter);
    }
    var fields: seq<(string, string)> := [];
    PrependNothing(Fields(lines, open + 1, bodyStart));
    var i := open + 1;
    while i < bodyStart
      invariant open + 1 <= i <= bodyStart
      invariant Fields(lines, open + 1, bodyStart) == Prepend(fields, Fields(lines, i, bodyStart))
    {
      match FieldOf(lines[i]) {
        case Skip =>
        case NotAPair =>
          return Err(BadLine(i + 1, lines[i]));
        case Pair(k, v) =>
          PrependTwice(fields, [(k, v)], Fields(lines, i + 1, bodyStart));
          fields := fields + [(k, v)];
      }
      i := i + 1;
    }
    assert fields + [] == fields;
    return Assemble(fields, Trim(Delimited.Join(lines[bodyStart + 1..], '\n')));
  }

  // ---- One printed line ------------------------------------------------------------------

  /** A key as the printer writes it. */
  predicate PlainKey(key: string) {
    key != "" && forall c <- key :: 'a' <= c <= 'z'
  }

  lemma PlainKeyReadsBack(key: string)
    requires PlainKey(key)
    ensures LowerText(Trim(key)) == key && ':' !in key
  {
    hide Trim;
    assert key[0] in key && key[|key| - 1] in key;
    TrimIsExact(key);
    assert forall i :: 0 <= i < |key| ==> key[i] in key;
    assert LowerText(key) == key;
  }

  lemma TrimKeepsFirst(s: string)
    requires s != "" && !IsSpace(s[0])
    ensures Trim(s) != "" && Trim(s)[0] == s[0]
  {
    EndKeepsFirst(s);
  }

  lemma {:induction false} EndKeepsFirst(s: string)
    requires s != "" && !IsSpace(s[0])
    ensures TrimEnd(s) != ""
  {
    if IsSpace(s[|s| - 1]) {
      EndKeepsFirst(s[..|s| - 1]);
    }
  }

  lemma StripKeyLine(key: string, value: string)
    ensures StripCr(KeyLine(key, value)) == KeyLine(key, StripCr(value))
  {
  }

  lemma KeyLineParts(key: string, w: string)
    requires key != "" && ':' !in key
    ensures var line := KeyLine(key, w);
      && line != "" && line[0] == key[0] && FirstIndex(line, ':') == |key| < |line|
      && line[..|key|] == key && line[|key| + 1..] == " " + w
  {
    var line := KeyLine(key, w);
    assert line[..|key|] == key && line[|key|] == ':';
    FirstIndexIs(line, ':', |key|);
  }

  ghost function Value(x: string): string {
    Unquote(Trim(x))
  }

  /** The line is a field with that key and value, and no fence. */
  ghost predicate ReadsAs(line: string, key: string, value: string) {
    FieldOf(line) == Pair(key, value) && Trim(line) != FENCE
  }

  /** A printed `key: value` line reads back as that key with the trimmed, unquoted
      value, and is no fence. */
  lemma KeyLineReadsBack(key: string, value: string)
    requires PlainKey(key)
    ensures ReadsAs(StripCr(KeyLine(key, value)), key, Value(value))
  {
    hide Trim, StripCr, LowerText, Unquote, FirstIndex, KeyLine;
    var w := StripCr(value);
    var line := KeyLine(key, w);
    StripKeyLine(key, value);
    PlainKeyReadsBack(key);
    KeyLineParts(key, w);
    assert key[0] in key;
    TrimKeepsFirst(line);
    TrimLeadingSpace(' ', w);
    TrimOfStripCr(value);
  }

  // ---- The printed document -----------------------------------------------------------------

  ghost function KeyLines(m: SkillManifest): seq<string> {
    [StripCr(KeyLine("name", m.name)), StripCr(KeyLine("version", m.version)), StripCr(KeyLine("guest", m.guest)),
     StripCr(KeyLine("clearance", ShowClearance(m.clearance))), StripCr(KeyLine("description", m.description))]
  }

  /** The four texts that are printed on one line each. */
  ghost predicate OneLineEach(m: SkillManifest) {
    '\n' !in m.name && '\n' !in m.version && '\n' !in m.guest && '\n' !in m.description
  }

  lemma PrintedLines(m: SkillManifest)
    requires OneLineEach(m)
    ensures Lines(StripBom(ToSkillMd(m))) == [FENCE] + KeyLines(m) + [FENCE] + [""] + Lines(m.body + "\n")
  {
    hide Lines, StripCr;
    var t8 := m.body + "\n";
    var t7 := "" + "\n" + t8;
    var t6 := FENCE + "\n" + t7;
    var t5 := KeyLine("description", m.description) + "\n" + t6;
    var t4 := KeyLine("clearance", ShowClearance(m.clearance)) + "\n" + t5;
    var t3 := KeyLine("guest", m.guest) + "\n" + t4;
    var t2 := KeyLine("version", m.version) + "\n" + t3;
    var t1 := KeyLine("name", m.name) + "\n" + t2;
    assert ToSkillMd(m) == FENCE + "\n" + t1 && ToSkillMd(m)[0] == '-';
    LinesOf(FENCE, t1);
    LinesOf(KeyLine("name", m.name), t2);
    LinesOf(KeyLine("version", m.version), t3);
    LinesOf(KeyLine("guest", m.guest), t4);
    LinesOf(KeyLine("clearance", ShowClearance(m.clearance)), t5);
    LinesOf(KeyLine("description", m.description), t6);
    LinesOf(FENCE, t7);
    LinesOf("", t8);
    StripPlain();
    assert [FENCE] + KeyLines(m) + [FENCE] + [""] + Lines(t8)
        == [FENCE] + ([KeyLines(m)[0]] + ([KeyLines(m)[1]] + ([KeyLines(m)[2]] + ([KeyLines(m)[3]] + ([KeyLines(m)[4]]
           + ([FENCE] + ([""] + Lines(t8))))))));
  }

  lemma StripPlain()
    ensures StripCr(FENCE) == FENCE && StripCr("") == ""
  {
  }

  ghost function KeyFields(m: SkillManifest): seq<(string, string)> {
    [("name", Value(m.name)), ("version", Value(m.version)), ("guest", Value(m.guest)),
     ("clearance", ShowClearance(m.clearance)), ("description", Value(m.description))]
  }

  lemma {:induction false} AllPairs(lines: seq<string>, i: nat, end: nat, pairs: seq<(string, string)>)
    requires i <= end < |lines| && |pairs| == end - i && Trim(lines[end]) == FENCE
    requires forall j :: i <= j < end ==> ReadsAs(lines[j], pairs[j - i].0, pairs[j - i].1)
    ensures Fields(lines, i, end) == Ok(pairs) && FirstFence(lines, i) == end
    decreases end - i
  {
    hide FieldOf, Trim;
    if i < end {
      AllPairs(lines, i + 1, end, pairs[1..]);
      assert [(pairs[0].0, pairs[0].1)] + pairs[1..] == pairs;
    }
  }

  lemma PlainKeys()
    ensures PlainKey("name") && PlainKey("version") && PlainKey("guest") && PlainKey("clearance")
    ensures PlainKey("description")
  {
  }

  /** The five fields, and nothing else, are what the parser collects. */
  lemma PrintedFields(m: SkillManifest, lines: seq<string>)
    requires |lines| >= 7 && lines[1..6] == KeyLines(m) && Trim(lines[6]) == FENCE
    ensures FirstFence(lines, 1) == 6
    ensures Fields(lines, 1, 6) == Ok(KeyFields(m))
  {
    hide Trim, ReadsAs, StripCr, KeyLine, Value, ShowClearance, Fields, FirstFence, PlainKey;
    PlainKeys();
    var read, pairs := lines[1..6], KeyFields(m);
    KeyLineReadsBack("name", m.name);
    KeyLineReadsBack("version", m.version);
    KeyLineReadsBack("guest", m.guest);
    KeyLineReadsBack("clearance", ShowClearance(m.clearance));
    PlainClearance(m.clearance);
    KeyLineReadsBack("description", m.description);
    assert ReadsAs(read[0], pairs[0].0, pairs[0].1) && ReadsAs(read[1], pairs[1].0, pairs[1].1);
    assert ReadsAs(read[2], pairs[2].0, pairs[2].1) && ReadsAs(read[3], pairs[3].0, pairs[3].1);
    assert ReadsAs(read[4], pairs[4].0, pairs[4].1);
    FiveEach(m);
    hide KeyFields, KeyLines;
    forall j | 1 <= j < 6 ensures ReadsAs(lines[j], pairs[j - 1].0, pairs[j - 1].1) {
      assert lines[j] == read[j - 1];
    }
    AllPairs(lines, 1, 6, pairs);
  }

  lemma FiveEach(m: SkillManifest)
    ensures |KeyLines(m)| == |KeyFields(m)| == 5
  {
  }

  lemma PlainClearance(c: Clearance)
    ensures Value(ShowClearance(c)) == ShowClearance(c) != ""
  {
    hide Trim;
    TrimIsExact(ShowClearance(c));
  }

  lemma KeysDiffer()
    ensures "name" != "version" && "name" != "guest" && "name" != "clearance" && "name" != "description"
    ensures "version" != "guest" && "version" != "clearance" && "version" != "description"
    ensures "guest" != "clearance" && "guest" != "description" && "clearance" != "description"
  {
  }

  lemma LookUps(m: SkillManifest)
    ensures Field(KeyFields(m), "name") == Some(Value(m.name))
    ensures Field(KeyFields(m), "version") == Some(Value(m.version))
    ensures Field(KeyFields(m), "guest") == Some(Value(m.guest))
    ensures Field(KeyFields(m), "clearance") == Some(ShowClearance(m.clearance))
    ensures Field(KeyFields(m), "description") == Some(Value(m.description))
  {
    hide Value, ShowClearance, Field;
    KeysDiffer();
    var f := KeyFields(m);
    FieldAt(f, "name", 0);
    FieldAt(f, "version", 1);
    FieldAt(f, "guest", 2);
    FieldAt(f, "clearance", 3);
    FieldAt(f, "description", 4);
  }

  lemma {:induction false} FieldAt(fields: seq<(string, string)>, key: string, i: nat)
    requires i < |fields| && fields[i].0 == key && forall j :: i < j < |fields| ==> fields[j].0 != key
    ensures Field(fields, key) == Some(fields[i].1)
  {
    if i < |fields| - 1 {
      FieldAt(fields[..|fields| - 1], key, i);
    }
  }

  /** What printing and parsing makes of a manifest whose texts fit on their lines. */
  lemma PrintedParse(m: SkillManifest)
    requires OneLineEach(m)
    ensures Parse(ToSkillMd(m)) ==
      if Value(m.name) == "" then Err(EmptyValue("name"))
      else if Value(m.version) == "" then Err(EmptyValue("version"))
      else if Value(m.guest) == "" then Err(EmptyValue("guest"))
      else Ok(SkillManifest(Value(m.name), Value(m.version), Value(m.guest), m.clearance, Value(m.description),
                            Trim(Delimited.Join([""] + Lines(m.body + "\n"), '\n'))))
  {
    hide Lines, ToSkillMd, StripBom, KeyLines, KeyFields, Delimited.Join, FieldOf, Trim;
    hide Value, ParseClearance, Field, ShowClearance;
    ClearanceRoundTrip(m.clearance);
    PlainClearance(m.clearance);
    LookUps(m);
    PrintedLines(m);
    FenceIsTrimmed();
    var tail := [""] + Lines(m.body + "\n");
    var lines := [FENCE] + KeyLines(m) + [FENCE] + [""] + Lines(m.body + "\n");
    FiveEach(m);
    assert lines == [FENCE] + KeyLines(m) + [FENCE] + tail;
    assert lines[1..6] == KeyLines(m) && lines[6] == FENCE && lines[7..] == tail;
    PrintedFields(m, lines);
  }

  lemma FenceIsTrimmed()
    ensures Trim(FENCE) == FENCE
  {
    hide Trim;
    TrimIsExact(FENCE);
  }

  // ---- The round trip -----------------------------------------------------------------------

  /** The body comes back exactly when it is trimmed and has no carriage return before
      a line feed. */
  lemma BodyReadsBack(body: string)
    ensures Trim(Delimited.Join([""] + Lines(body + "\n"), '\n')) == body <==> Trimmed(body) && CrLfFree(body)
  {
    hide Trim, Lines;
    var ls := Lines(body + "\n");
    RejoinLines(body);
    var j := Delimited.Join(ls, '\n');
    assert ([""] + ls)[1..] == ls;
    assert Delimited.Join([""] + ls, '\n') == "\n" + j;
    TrimLeadingSpace('\n', j);
    TrimIsExact(j);
    TrimIsExact(body);
    CrLfFreeParts(body, "");
    assert body + "\n" + "" == body + "\n";
  }

  /** A one-line text comes back exactly when it is trimmed and not wrapped in quotes. */
  lemma ValueReadsBack(x: string)
    ensures Value(x) == x <==> Trimmed(x) && !Wrapped(x)
  {
    hide Trim;
    TrimIsExact(x);
  }

  /** A value holds no character that its text does not. */
  lemma ValueIsPart(text: string)
    ensures forall c <- Value(text) :: c in text
  {
    hide Trim;
    TrimIsExact(text);
    assert forall c <- Unquote(Trim(text)) :: c in Trim(text);
  }

  lemma PairValue(line: string)
    ensures FieldOf(line).Pair? ==>
      FirstIndex(line, ':') < |line| && FieldOf(line).value == Value(line[FirstIndex(line, ':') + 1..])
  {
    hide Trim;
  }

  lemma {:induction false} FieldsHaveNoLf(lines: seq<string>, i: nat, end: nat)
    requires i <= end <= |lines| && Fields(lines, i, end).Ok?
    requires forall line <- lines :: '\n' !in line
    ensures forall f <- Fields(lines, i, end).value :: '\n' !in f.1
    decreases end - i
  {
    hide FieldOf, Value, FirstIndex;
    if i < end {
      FieldsHaveNoLf(lines, i + 1, end);
      PairValue(lines[i]);
      if FieldOf(lines[i]).Pair? {
        var text := lines[i][FirstIndex(lines[i], ':') + 1..];
        ValueIsPart(text);
        assert forall c <- text :: c in lines[i];
      }
    }
  }

  lemma {:induction false} FieldIsOneOf(fields: seq<(string, string)>, key: string)
    requires Field(fields, key).Some?
    ensures (key, Field(fields, key).value) in fields
  {
    if fields[|fields| - 1].0 != key {
      FieldIsOneOf(fields[..|fields| - 1], key);
    }
  }

  lemma AssembledFrom(fields: seq<(string, string)>, body: string)
    requires Assemble(fields, body).Ok? && forall f <- fields :: '\n' !in f.1
    ensures OneLineEach(Assemble(fields, body).value)
  {
    hide ParseClearance;
    FieldIsOneOf(fields, "name");
    FieldIsOneOf(fields, "version");
    FieldIsOneOf(fields, "guest");
    if Field(fields, "description").Some? {
      FieldIsOneOf(fields, "description");
    }
  }

  /** Whatever the document, the parsed one-line texts have no line feed. */
  lemma ParsedIsOneLineEach(input: string)
    requires Parse(input).Ok?
    ensures OneLineEach(Parse(input).value)
  {
    hide Trim, Fields, Assemble, FieldOf, Delimited.Join;
    var lines := Lines(StripBom(input));
    LinesHaveNoLf(StripBom(input));
    var open := FirstNonBlank(lines, 0);
    var close := FirstFence(lines, open + 1);
    FieldsHaveNoLf(lines, open + 1, close);
    AssembledFrom(Fields(lines, open + 1, close).value, Trim(Delimited.Join(lines[close + 1..], '\n')));
  }

  ghost predicate OneLine(x: string) {
    '\n' !in x && Trimmed(x) && !Wrapped(x)
  }

  /** The manifests that survive. */
  ghost predicate Printable(m: SkillManifest) {
    && m.name != "" && m.version != "" && m.guest != ""
    && OneLine(m.name) && OneLine(m.version) && OneLine(m.guest) && OneLine(m.description)
    && Trimmed(m.body) && CrLfFree(m.body)
  }

  /** Parsing what was printed gives the manifest back exactly when its required texts
      are non-empty, its one-line texts are trimmed, without line feed and not wrapped
      in quotes, and its body is trimmed without a carriage return before a line feed. */
  lemma RoundTrip(m: SkillManifest)
    ensures Parse(ToSkillMd(m)) == Ok(m) <==> Printable(m)
  {
    hide Parse, ToSkillMd, Assemble, KeyFields, Trimmed, Wrapped, CrLfFree, Lines, Delimited.Join, Trim, Value;
    if Parse(ToSkillMd(m)) == Ok(m) {
      ParsedIsOneLineEach(ToSkillMd(m));
    }
    if OneLineEach(m) {
      PrintedParse(m);
      BodyReadsBack(m.body);
      ValueReadsBack(m.name);
      ValueReadsBack(m.version);
      ValueReadsBack(m.guest);
      ValueReadsBack(m.description);
    }
  }

  /** The documented promise does not hold for every manifest: a quoted name comes back
      without its quotes. */
  lemma QuotedNameIsLost()
    ensures exists m :: Parse(ToSkillMd(m)) != Ok(m) && m.name != "" && m.version != "" && m.guest != ""
  {
    hide Parse, ToSkillMd, Trimmed, CrLfFree;
    var m := SkillManifest("\"x\"", "1", "g", L1, "", "");
    RoundTrip(m);
    assert Wrapped(m.name);
    assert Parse(ToSkillMd(m)) != Ok(m);
  }
}
