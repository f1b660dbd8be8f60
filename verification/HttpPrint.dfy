/** Printing a message head as sections 3, 4 and 5 of RFC 9112 lay it out, and reading it back. */
module HttpPrint {
  import opened Options
  import opened HttpSyntax
  import opened HttpHead
  import opened HttpChunks

  // ----- Layouts -----

  /** Spaces and tabs only. */
  predicate Gap(s: Bytes) {
    forall i | 0 <= i < |s| :: !NonSpace.At(s[i])
  }

  predicate Newline(s: Bytes) {
    s == CRLF || s == [LF]
  }

  /** The newline before a field line, and the spaces before its name, before and after its colon, and at its end. */
  datatype Gaps = Gaps(newline: Bytes, lead: Bytes, before: Bytes, after: Bytes, trail: Bytes)

  /** The spaces before the three items of the start line, the gaps of each field, and the two newlines at the end. */
  datatype Layout = Layout(first: Bytes, second: Bytes, third: Bytes, fields: seq<Gaps>, end: Bytes, blank: Bytes)

  predicate GapsOk(g: Gaps) {
    Newline(g.newline) && Gap(g.lead) && Gap(g.before) && Gap(g.after) && Gap(g.trail)
  }

  predicate LayoutOk(kind: Kind, head: Head, l: Layout) {
    && Gap(l.first) && Gap(l.second) && Gap(l.third) && Newline(l.end) && Newline(l.blank)
    && |l.fields| == |head.headers| && (forall g <- l.fields :: GapsOk(g))
    && (kind == Request ==> l.second != [] && l.third != [])
  }

  function StartLine(kind: Kind, head: Head, l: Layout): Bytes
    requires head.version.Some?
  {
    var version := VersionText(head.version.value);
    if kind == Request then l.first + (head.verb + (l.second + (head.uri + (l.third + version))))
    else l.first + (version + (l.second + (head.status + (l.third + head.reason))))
  }

  function FieldText(field: (Bytes, Bytes), g: Gaps): Bytes {
    g.lead + (field.0 + (g.before + ([COLON] + (g.after + (field.1 + g.trail)))))
  }

  /** The header section as the parser meets it: every line comes after a newline. */
  function Section(fields: seq<(Bytes, Bytes)>, gaps: seq<Gaps>, end: Bytes): Bytes
    requires |gaps| == |fields|
  {
    if fields == [] then end
    else gaps[0].newline + (FieldText(fields[0], gaps[0]) + Section(fields[1..], gaps[1..], end))
  }

  /** A head in layout `l`. */
  function Write(kind: Kind, head: Head, l: Layout): Bytes
    requires head.version.Some? && |l.fields| == |head.headers|
  {
    StartLine(kind, head, l) + Section(head.headers, l.fields, l.end + l.blank)
  }

  const PLAIN_GAPS := Gaps(CRLF, [], [], [SP], [])

  /** One space between items and after each colon, CRLF at the end of each line. */
  function Plain(head: Head): Layout {
    Layout([], [SP], [SP], seq(|head.headers|, _ => PLAIN_GAPS), CRLF, CRLF)
  }

  /** A head as RFC 9112 writes it. */
  function Print(kind: Kind, head: Head): Bytes
    requires head.version.Some?
  {
    var version := VersionText(head.version.value);
    var start := if kind == Request then head.verb + [SP] + head.uri + [SP] + version
                 else version + [SP] + head.status + [SP] + head.reason;
    start + CRLF + FieldLines(head.headers) + CRLF
  }

  function FieldLines(fields: seq<(Bytes, Bytes)>): Bytes {
    if fields == [] then [] else fields[0].0 + [COLON, SP] + fields[0].1 + CRLF + FieldLines(fields[1..])
  }

  // ----- What can be printed -----

  predicate Free(stop: Stop, s: Bytes) {
    forall i | 0 <= i < |s| :: !stop.At(s[i])
  }

  predicate Token(s: Bytes) {
    s != [] && Free(TokenEnd, s)
  }

  predicate Trimmed(s: Bytes) {
    s != [] ==> NonSpace.At(s[0]) && NonSpace.At(s[|s| - 1])
  }

  /** Name and value end where they should, have no spaces around them, and pass the checks. */
  predicate FieldFine(rules: Rules, field: (Bytes, Bytes)) {
    && Free(NameEnd, field.0) && Trimmed(field.0) && rules.nameOk(field.0)
    && Free(LineEnd, field.1) && Trimmed(field.1) && rules.valueOk(field.1)
  }

  predicate FieldOk(rules: Rules, field: (Bytes, Bytes)) {
    FieldFine(rules, field) && NewlineAt(field.0) == 0
  }

  predicate StatusFine(rules: Rules, status: Bytes) {
    |status| == 3 && NonSpace.At(status[0]) && rules.statusOk(status)
  }

  predicate ReasonFine(reason: Bytes) {
    Free(LineEnd, reason) && (reason != [] ==> NonSpace.At(reason[0]))
  }

  /** Token method and URI, known version, three-byte status, newline-free reason, colon-free names and
      newline-free values, names and values trimmed. */
  predicate Fine(rules: Rules, kind: Kind, head: Head) {
    && head.version.Some?
    && (forall i | 0 <= i < |head.headers| :: FieldFine(rules, head.headers[i]))
    && if kind == Request then
         && Token(head.verb) && rules.methodOk(head.verb)
         && Token(head.uri) && rules.uriOk(head.uri)
         && head.status == [] && head.reason == []
       else
         && head.verb == [] && head.uri == []
         && StatusFine(rules, head.status) && ReasonFine(head.reason)
  }

  /** And no name starts with a newline. */
  predicate WellFormed(rules: Rules, kind: Kind, head: Head) {
    Fine(rules, kind, head) && forall i | 0 <= i < |head.headers| :: FieldOk(rules, head.headers[i])
  }

  // ----- Scanning printed text -----

  /** Text without a stop byte, followed by one. */
  lemma FindAt(stop: Stop, s: Bytes, more: Bytes)
    requires Free(stop, s) && more != [] && stop.At(more[0])
    ensures Find(stop, s + more) == Some(|s|)
    ensures (s + more)[..|s|] == s && (s + more)[|s|..] == more
  {
    FindConcat(stop, s, more);
  }

  lemma NoSpaces(s: Bytes)
    requires s != [] && NonSpace.At(s[0])
    ensures AfterSpaces(s) == s
  {
    AfterSpacesStops(s, []);
    assert s + [] == s;
  }

  lemma GapSkipped(g: Bytes, s: Bytes)
    requires Gap(g) && s != [] && NonSpace.At(s[0])
    ensures AfterSpaces(g + s) == s
  {
    AfterSpacesConcat(g, s);
    assert Find(NonSpace, g) == None by { FindIsNone(NonSpace, g); }
    assert AfterSpaces(g) == [];
    assert [] + s == s;
    NoSpaces(s);
  }

  /** What a field is trimmed to: spaces at its end go. */
  lemma TrimGap(s: Bytes, g: Bytes)
    requires Trimmed(s) && Gap(g) && (s == [] ==> g == [])
    ensures TrimEnd(s + g) == s
  {
    if s == [] {
      assert s + g == [];
    } else {
      assert (s + g)[..|s|] == s;
      assert forall i | |s| <= i < |s + g| :: (s + g)[i] == g[i - |s|];
      TrimEndUnique(s + g, s);
    }
  }

  lemma FreeConcat(stop: Stop, s: Bytes, g: Bytes)
    requires Free(stop, s) && Free(stop, g)
    ensures Free(stop, s + g)
  {
  }

  /** Spaces end neither a name nor a value. */
  lemma GapFree(g: Bytes)
    requires Gap(g)
    ensures Free(NameEnd, g) && Free(LineEnd, g)
  {
    forall i | 0 <= i < |g|
      ensures !NameEnd.At(g[i]) && !LineEnd.At(g[i])
    {
      assert !NonSpace.At(g[i]);
    }
  }

  // ----- The header section -----

  /** The value ends at the newline, less the spaces before it. */
  lemma ValueParses(rules: Rules, name: Bytes, value: Bytes, trail: Bytes, more: Bytes)
    requires rules.nameOk(name) && Free(LineEnd, value) && Trimmed(value) && rules.valueOk(value)
    requires Gap(trail) && (value == [] ==> trail == []) && more != [] && LineEnd.At(more[0])
    ensures FieldValue(rules, name, (value + trail) + more) == Header(name, value, more)
  {
    GapFree(trail);
    FreeConcat(LineEnd, value, trail);
    TrimGap(value, trail);
    hide Find, TrimEnd, Gap, Free;
    FindAt(LineEnd, value + trail, more);
  }

  /** Spaces around the value do not matter. */
  lemma SpacedValueParses(rules: Rules, name: Bytes, after: Bytes, value: Bytes, trail: Bytes, more: Bytes)
    requires rules.nameOk(name) && Free(LineEnd, value) && Trimmed(value) && rules.valueOk(value)
    requires Gap(after) && Gap(trail) && more != [] && LineEnd.At(more[0])
    ensures FieldValue(rules, name, AfterSpaces(after + (value + (trail + more)))) == Header(name, value, more)
  {
    hide AfterSpaces, FieldValue;
    if value == [] {
      JoinGaps(after, trail, more);
      GapSkipped(after + trail, more);
      NoBytes(more);
      ValueParses(rules, name, [], [], more);
    } else {
      var field := (value + trail) + more;
      Associate(value, trail, more);
      assert field[0] == value[0];
      GapSkipped(after, field);
      ValueParses(rules, name, value, trail, more);
    }
  }

  lemma Associate(a: Bytes, b: Bytes, c: Bytes)
    ensures (a + b) + c == a + (b + c)
  {
  }

  lemma NoBytes(s: Bytes)
    ensures ([] + []) + s == s
  {
  }

  lemma JoinGaps(a: Bytes, b: Bytes, more: Bytes)
    requires Gap(a) && Gap(b)
    ensures Gap(a + b) && a + ([] + (b + more)) == (a + b) + more
  {
  }

  /** The name ends at the colon, less the spaces before it. */
  lemma LineParses(rules: Rules, name: Bytes, before: Bytes, tail: Bytes)
    requires Free(NameEnd, name) && Trimmed(name) && Gap(before) && (name == [] ==> before == [])
    ensures FieldLine(rules, (name + before) + ([COLON] + tail)) == FieldValue(rules, name, AfterSpaces(tail))
  {
    GapFree(before);
    FreeConcat(NameEnd, name, before);
    TrimGap(name, before);
    hide Find, TrimEnd, AfterSpaces, FieldValue, FieldLine, Gap, Free;
    var front := name + before;
    FindAt(NameEnd, front, [COLON] + tail);
    AfterColon(front, tail);
    FieldLineIs(rules, front + ([COLON] + tail), front, tail);
  }

  lemma AfterColon(front: Bytes, tail: Bytes)
    ensures (front + ([COLON] + tail))[..|front|] == front && (front + ([COLON] + tail))[|front| + 1..] == tail
  {
  }

  lemma FieldLineIs(rules: Rules, line: Bytes, front: Bytes, tail: Bytes)
    requires Find(NameEnd, line) == Some(|front|) && |front| < |line|
    requires line[..|front|] == front && line[|front| + 1..] == tail
    ensures FieldLine(rules, line) == FieldValue(rules, TrimEnd(front), AfterSpaces(tail))
  {
    hide Find, TrimEnd, AfterSpaces, FieldValue;
  }

  /** A field line in any layout. */
  lemma FieldTextParses(rules: Rules, field: (Bytes, Bytes), g: Gaps, more: Bytes)
    requires FieldOk(rules, field) && GapsOk(g) && more != [] && LineEnd.At(more[0])
    ensures ParseHeader(rules, FieldText(field, g) + more) == Header(field.0, field.1, more)
  {
    var (name, value) := field;
    var tail := g.after + (value + (g.trail + more));
    Flatten(field, g, more);
    SpacedValueParses(rules, name, g.after, value, g.trail, more);
    hide FieldLine, FieldValue, AfterSpaces, FieldText;
    if name == [] {
      JoinGaps(g.lead, g.before, [COLON] + tail);
      GapSkipped(g.lead + g.before, [COLON] + tail);
      NoBytes([COLON] + tail);
      LineParses(rules, [], [], tail);
    } else {
      var line := (name + g.before) + ([COLON] + tail);
      Associate(name, g.before, [COLON] + tail);
      assert line[0] == name[0];
      GapSkipped(g.lead, line);
      LineParses(rules, name, g.before, tail);
    }
  }

  lemma Flatten(field: (Bytes, Bytes), g: Gaps, more: Bytes)
    ensures FieldText(field, g) + more
         == g.lead + (field.0 + (g.before + ([COLON] + (g.after + (field.1 + (g.trail + more))))))
  {
    var t1 := field.1 + g.trail;
    var t2 := g.after + t1;
    var t3 := [COLON] + t2;
    var t4 := g.before + t3;
    Associate(field.1, g.trail, more);
    Associate(g.after, t1, more);
    Associate([COLON], t2, more);
    Associate(g.before, t3, more);
    Associate(field.0, t4, more);
    Associate(g.lead, field.0 + t4, more);
  }

  /** A newline is followed by nothing that could be part of one. */
  lemma OneNewline(newline: Bytes, line: Bytes)
    requires Newline(newline) && NewlineAt(line) == 0
    ensures RunCount(newline + line) == 1 && RunLength(newline + line) == |newline|
    ensures (newline + line)[|newline|..] == line
  {
    var all, n := newline + line, |newline|;
    assert all[n..] == line;
    assert NewlineAt(all) == n by {
      assert all[0] == newline[0] && (n == 2 ==> all[1] == newline[1]);
    }
    NewlineCounts(all);
    NewlineCounts(line);
  }

  lemma FieldIsNoNewline(rules: Rules, field: (Bytes, Bytes), g: Gaps, more: Bytes)
    requires FieldOk(rules, field) && GapsOk(g)
    ensures NewlineAt(FieldText(field, g) + more) == 0
  {
    Flatten(field, g, more);
    var (name, value) := field;
    var rest := g.before + ([COLON] + (g.after + (value + (g.trail + more))));
    var line := g.lead + (name + rest);
    assert rest[0] == if g.before == [] then COLON else g.before[0];
    assert g.before != [] ==> !NonSpace.At(g.before[0]);
    if g.lead != [] {
      assert line[0] == g.lead[0] && !NonSpace.At(g.lead[0]);
    } else {
      assert line == name + rest;
      NameIsNoNewline(name, rest);
    }
  }

  lemma NameIsNoNewline(name: Bytes, rest: Bytes)
    requires NewlineAt(name) == 0 && rest != [] && (rest[0] == COLON || !NonSpace.At(rest[0]))
    ensures NewlineAt(name + rest) == 0
  {
    assert (name + rest)[0] == if name == [] then rest[0] else name[0];
    if |name| == 1 {
      assert (name + rest)[1] == rest[0];
    } else if |name| > 1 {
      assert (name + rest)[1] == name[1];
    }
  }

  lemma LastNewlines(end: Bytes, blank: Bytes, body: Bytes)
    requires Newline(end) && Newline(blank) && NewlineAt(body) == 0
    ensures RunCount((end + blank) + body) == 2 && RunLength((end + blank) + body) == |end + blank|
  {
    var rest, all := blank + body, end + (blank + body);
    Associate(end, blank, body);
    OneNewline(blank, body);
    assert all[|end|..] == rest;
    assert NewlineAt(all) == |end| by {
      assert all[0] == end[0] && (|end| == 2 ==> all[1] == end[1]);
    }
    NewlineCounts(all);
  }

  lemma {:induction false} SectionStarts(fields: seq<(Bytes, Bytes)>, gaps: seq<Gaps>, end: Bytes, blank: Bytes)
    requires |gaps| == |fields| && (forall g <- gaps :: GapsOk(g)) && Newline(end)
    ensures
      var s := Section(fields, gaps, end + blank);
      s != [] && LineEnd.At(s[0]) && |s| >= |end + blank|
  {
    if fields != [] {
      SectionStarts(fields[1..], gaps[1..], end, blank);
      assert GapsOk(gaps[0]);
    }
  }

  /** The header section reads back in any layout, and its blank line is its end. */
  lemma {:induction false} SectionRoundTrip(
    rules: Rules, p: Parser, fields: seq<(Bytes, Bytes)>, gaps: seq<Gaps>, end: Bytes, blank: Bytes, body: Bytes)
    requires p.phase.AtHeaders? && NewlineAt(body) == 0 && |gaps| == |fields| && Newline(end) && Newline(blank)
    requires forall i | 0 <= i < |fields| :: FieldOk(rules, fields[i]) && GapsOk(gaps[i])
    ensures Finishes(rules, p, Section(fields, gaps, end + blank) + body)
    ensures
      var d := Drain(rules, p, Section(fields, gaps, end + blank) + body);
      && d.rest == body
      && d.parser == Parser(p.kind, Finished, p.head.(headers := p.head.headers + fields))
    ensures TermStart(rules, p, Section(fields, gaps, end + blank) + body)
         == |Section(fields, gaps, end + blank)| - |end + blank|
    decreases |fields|
  {
    if fields == [] {
      LastNewlines(end, blank, body);
      hide Drain, RunCount, RunLength, NewlineAt, Finishes, TermStart;
      FinishesHere(rules, p, (end + blank) + body);
      DropAll(end + blank, body);
      assert p.head.headers + fields == p.head.headers;
    } else {
      var field, rest, g, others := fields[0], fields[1..], gaps[0], gaps[1..];
      var tail := Section(rest, others, end + blank);
      assert Section(fields, gaps, end + blank) == g.newline + (FieldText(field, g) + tail);
      assert FieldOk(rules, field) && GapsOk(g);
      assert forall i | 0 <= i < |rest| :: rest[i] == fields[i + 1] && others[i] == gaps[i + 1];
      forall x | x in others
        ensures GapsOk(x)
      {
        var i :| 0 <= i < |others| && others[i] == x;
        assert GapsOk(gaps[i + 1]);
      }
      SectionStarts(rest, others, end, blank);
      Shift(p.head.headers, fields);
      hide Drain, NewlineAt, Finishes, TermStart, FieldOk, GapsOk, Section, FieldText;
      var q := p.(head := p.head.(headers := p.head.headers + [field]));
      SectionRoundTrip(rules, q, rest, others, end, blank, body);
      FirstField(rules, p, field, g, tail, body);
    }
  }

  lemma DropAll(s: Bytes, t: Bytes)
    ensures (s + t)[|s|..] == t
  {
  }

  lemma Shift(before: seq<(Bytes, Bytes)>, fields: seq<(Bytes, Bytes)>)
    requires fields != []
    ensures before + fields == before + [fields[0]] + fields[1..]
  {
  }

  /** One field line before a section that reads back. */
  lemma FirstField(rules: Rules, p: Parser, field: (Bytes, Bytes), g: Gaps, tail: Bytes, body: Bytes)
    requires p.phase.AtHeaders? && FieldOk(rules, field) && GapsOk(g) && tail != [] && LineEnd.At(tail[0])
    requires Finishes(rules, p.(head := p.head.(headers := p.head.headers + [field])), tail + body)
    ensures
      var q := p.(head := p.head.(headers := p.head.headers + [field]));
      var buf := g.newline + (FieldText(field, g) + tail) + body;
      && Finishes(rules, p, buf) && Drain(rules, p, buf) == Drain(rules, q, tail + body)
      && TermStart(rules, p, buf) == |buf| - |tail + body| + TermStart(rules, q, tail + body)
  {
    hide Drain, NewlineAt, Finishes, TermStart, FieldOk, Step, FieldText, GapsOk;
    var q := p.(head := p.head.(headers := p.head.headers + [field]));
    Regroup(g.newline, FieldText(field, g), tail, body);
    assert (tail + body)[0] == tail[0];
    FieldStep(rules, p, field, g, tail + body);
    assert g.newline + (FieldText(field, g) + (tail + body)) != [] by { SomeBytes(rules, field, g, tail + body); }
    FinishesAfter(rules, p, g.newline + (FieldText(field, g) + tail) + body, q, tail + body);
  }

  lemma SomeBytes(rules: Rules, field: (Bytes, Bytes), g: Gaps, more: Bytes)
    requires GapsOk(g)
    ensures g.newline + (FieldText(field, g) + more) != []
  {
  }

  lemma Regroup(a: Bytes, b: Bytes, c: Bytes, d: Bytes)
    ensures (a + (b + c)) + d == a + (b + (c + d))
  {
  }

  /** A newline and a field line are one step, in any layout. */
  lemma FieldStep(rules: Rules, p: Parser, field: (Bytes, Bytes), g: Gaps, rest: Bytes)
    requires p.phase.AtHeaders? && FieldOk(rules, field) && GapsOk(g) && rest != [] && LineEnd.At(rest[0])
    ensures Step(rules, p, g.newline + (FieldText(field, g) + rest))
         == Go(p.(head := p.head.(headers := p.head.headers + [field])), rest)
  {
    var line := FieldText(field, g) + rest;
    FieldIsNoNewline(rules, field, g, rest);
    OneNewline(g.newline, line);
    FieldTextParses(rules, field, g, rest);
    hide RunCount, RunLength, ParseHeader, NewlineAt, FieldText;
    HeaderStepIs(rules, p, g.newline + line, line);
  }

  /** After one newline, a header. */
  lemma HeaderStepIs(rules: Rules, p: Parser, buf: Bytes, line: Bytes)
    requires p.phase.AtHeaders? && RunCount(buf) == 1 && buf[RunLength(buf)..] == line
    ensures Step(rules, p, buf) == AddHeader(p, ParseHeader(rules, line), line)
  {
    hide RunCount, RunLength, ParseHeader;
  }

  /** A field line adds exactly its name and its value to the head, whatever spaces and tabs stand around them. */
  lemma FieldLineReads(rules: Rules, p: Parser, field: (Bytes, Bytes), g: Gaps, rest: Bytes)
    requires p.phase.AtHeaders? && FieldOk(rules, field) && GapsOk(g) && rest != [] && LineEnd.At(rest[0])
    ensures Drain(rules, p, g.newline + (FieldText(field, g) + rest))
         == Drain(rules, p.(head := p.head.(headers := p.head.headers + [field])), rest)
  {
    FieldStep(rules, p, field, g, rest);
    SomeBytes(rules, field, g, rest);
    hide Step, FieldText, FieldOk, GapsOk;
    DrainGo(rules, p, g.newline + (FieldText(field, g) + rest),
            p.(head := p.head.(headers := p.head.headers + [field])), rest);
  }

  // ----- The start line -----

  lemma TokenParses(rules: Rules, p: Parser, token: Bytes, more: Bytes)
    requires (p.phase.AtMethod? && rules.methodOk(token)) || (p.phase.AtUri? && rules.uriOk(token))
    requires Token(token) && more != [] && TokenEnd.At(more[0])
    ensures ItemStep(rules, p, token + more) ==
            Go(p.Next(if p.phase.AtMethod? then p.head.(verb := token) else p.head.(uri := token)), more)
    ensures NonSpace.At((token + more)[0])
  {
    hide Find;
    FindAt(TokenEnd, token, more);
    assert (token + more)[0] == token[0];
  }

  lemma VersionParses(p: Parser, v: Version, more: Bytes)
    ensures VersionStep(p, VersionText(v) + more) == Go(p.Next(p.head.(version := Some(v))), more)
    ensures NonSpace.At((VersionText(v) + more)[0])
  {
    var text := VersionText(v) + more;
    assert text[..8] == VersionText(v) && text[8..] == more;
    var r := VersionOf(VersionText(v));
    if r.Some? { VersionTextInjective(v, r.value); }
  }

  /** `GET /index HTTP/1.1`, with any spaces between, takes the parser to the headers. */
  lemma RequestLine(rules: Rules, head: Head, l: Layout, more: Bytes)
    requires WellFormed(rules, Request, head) && LayoutOk(Request, head, l)
    requires Finishes(rules, Parser(Request, AtHeaders, head.(headers := [])), more)
    ensures
      var q, buf := Parser(Request, AtHeaders, head.(headers := [])), StartLine(Request, head, l) + more;
      && Finishes(rules, Start(Request), buf)
      && Drain(rules, Start(Request), buf) == Drain(rules, q, more)
      && TermStart(rules, Start(Request), buf) == |StartLine(Request, head, l)| + TermStart(rules, q, more)
  {
    hide Drain, AfterSpaces, ItemStep, VersionStep;
    var v := head.version.value;
    var b2 := VersionText(v) + more;
    var b1 := head.uri + (l.third + b2);
    var b0 := head.verb + (l.second + b1);
    FiveParts(l.first, head.verb, l.second, head.uri, l.third, VersionText(v), more);
    var p0 := Start(Request);
    var p1 := p0.Next(p0.head.(verb := head.verb));
    var p2 := p1.Next(p1.head.(uri := head.uri));
    var p3 := p2.Next(p2.head.(version := Some(v)));
    assert p3 == Parser(Request, AtHeaders, head.(headers := []));
    VersionParses(p2, v, more);
    GapSkipped(l.third, b2);
    assert ItemStep(rules, p2, b2) == VersionStep(p2, b2) by { AtVersionStep(rules, p2, b2); }
    FinishesAfter(rules, p2, l.third + b2, p3, more);
    GapEndsToken(l.third, b2);
    TokenParses(rules, p1, head.uri, l.third + b2);
    GapSkipped(l.second, b1);
    FinishesAfter(rules, p1, l.second + b1, p2, l.third + b2);
    GapEndsToken(l.second, b1);
    TokenParses(rules, p0, head.verb, l.second + b1);
    GapSkipped(l.first, b0);
    FinishesAfter(rules, p0, l.first + b0, p1, l.second + b1);
  }

  lemma GapEndsToken(g: Bytes, s: Bytes)
    requires Gap(g) && g != []
    ensures TokenEnd.At((g + s)[0])
  {
    assert !NonSpace.At(g[0]) && (g + s)[0] == g[0];
  }

  lemma FiveParts(a: Bytes, b: Bytes, c: Bytes, d: Bytes, e: Bytes, f: Bytes, more: Bytes)
    ensures (a + (b + (c + (d + (e + f))))) + more == a + (b + (c + (d + (e + (f + more)))))
  {
    Associate(e, f, more);
    Associate(d, e + f, more);
    Associate(c, d + (e + f), more);
    Associate(b, c + (d + (e + f)), more);
    Associate(a, b + (c + (d + (e + f))), more);
  }

  lemma AtVersionStep(rules: Rules, p: Parser, b: Bytes)
    requires p.phase.AtVersion?
    ensures ItemStep(rules, p, b) == VersionStep(p, b)
  {
  }

  lemma StatusParses(rules: Rules, p: Parser, status: Bytes, more: Bytes)
    requires p.phase.AtStatus? && |status| == 3 && rules.statusOk(status)
    ensures ItemStep(rules, p, status + more) == Go(p.Next(p.head.(status := status)), more)
  {
    assert (status + more)[..3] == status && (status + more)[3..] == more;
  }

  lemma ReasonParses(rules: Rules, p: Parser, reason: Bytes, more: Bytes)
    requires p.phase.AtReason? && Free(LineEnd, reason) && more != [] && LineEnd.At(more[0])
    ensures ItemStep(rules, p, reason + more) == Go(p.Next(p.head.(reason := reason)), more)
  {
    hide Find;
    FindAt(LineEnd, reason, more);
  }

  /** `HTTP/1.1 200 OK`, with any spaces between, takes the parser to the headers. */
  lemma StatusLine(rules: Rules, head: Head, l: Layout, more: Bytes)
    requires WellFormed(rules, Response, head) && LayoutOk(Response, head, l) && more != [] && LineEnd.At(more[0])
    requires Finishes(rules, Parser(Response, AtHeaders, head.(headers := [])), more)
    ensures
      var q, buf := Parser(Response, AtHeaders, head.(headers := [])), StartLine(Response, head, l) + more;
      && Finishes(rules, Start(Response), buf)
      && Drain(rules, Start(Response), buf) == Drain(rules, q, more)
      && TermStart(rules, Start(Response), buf) == |StartLine(Response, head, l)| + TermStart(rules, q, more)
  {
    hide Drain, AfterSpaces, ItemStep, VersionStep;
    var v := head.version.value;
    var b2 := head.reason + more;
    var b1 := head.status + (l.third + b2);
    var b0 := VersionText(v) + (l.second + b1);
    FiveParts(l.first, VersionText(v), l.second, head.status, l.third, head.reason, more);
    var p0 := Start(Response);
    var p1 := p0.Next(p0.head.(version := Some(v)));
    var p2 := p1.Next(p1.head.(status := head.status));
    var p3 := p2.Next(p2.head.(reason := head.reason));
    assert p3 == Parser(Response, AtHeaders, head.(headers := []));
    assert b2[0] == if head.reason == [] then more[0] else head.reason[0];
    ReasonParses(rules, p2, head.reason, more);
    GapSkipped(l.third, b2);
    FinishesAfter(rules, p2, l.third + b2, p3, more);
    StatusParses(rules, p1, head.status, l.third + b2);
    assert b1[0] == head.status[0];
    GapSkipped(l.second, b1);
    FinishesAfter(rules, p1, l.second + b1, p2, l.third + b2);
    VersionParses(p0, v, l.second + b1);
    AtVersionStep(rules, p0, b0);
    GapSkipped(l.first, b0);
    FinishesAfter(rules, p0, l.first + b0, p1, l.second + b1);
  }

  // ----- Round trips -----

  /** Head round trip: a well-formed head, written in any layout and followed by a body that does not start with a
      newline, parses back to exactly that head and leaves exactly that body. */
  lemma LayoutRoundTrip(rules: Rules, kind: Kind, head: Head, l: Layout, body: Bytes, stop: Error)
    requires WellFormed(rules, kind, head) && LayoutOk(kind, head, l) && NewlineAt(body) == 0
    ensures Finishes(rules, Start(kind), Write(kind, head, l) + body)
    ensures Drain(rules, Start(kind), Write(kind, head, l) + body) == Drained(Parser(kind, Finished, head), body)
    ensures TermStart(rules, Start(kind), Write(kind, head, l) + body) == |Write(kind, head, l)| - |l.end + l.blank|
    ensures Feed(rules, Start(kind), [], [Write(kind, head, l) + body], stop) == Parsed(head, body, [])
  {
    var fields, ends := head.headers, l.end + l.blank;
    var section := Section(fields, l.fields, ends);
    SectionStarts(fields, l.fields, l.end, l.blank);
    forall i | 0 <= i < |fields|
      ensures GapsOk(l.fields[i])
    {
      assert l.fields[i] in l.fields;
    }
    hide Drain, NewlineAt, Finishes, TermStart, Section, StartLine, GapsOk, FieldOk;
    var q := Parser(kind, AtHeaders, head.(headers := []));
    var more := section + body;
    SectionRoundTrip(rules, q, fields, l.fields, l.end, l.blank, body);
    assert [] + fields == fields;
    assert more != [] && more[0] == section[0];
    Associate(StartLine(kind, head, l), section, body);
    if kind == Request { RequestLine(rules, head, l, more); } else { StatusLine(rules, head, l, more); }
    WholeFeed(rules, kind, Write(kind, head, l) + body, head, body, stop);
  }

  lemma WholeFeed(rules: Rules, kind: Kind, all: Bytes, head: Head, body: Bytes, stop: Error)
    requires all != [] && Drain(rules, Start(kind), all) == Drained(Parser(kind, Finished, head), body)
    ensures Feed(rules, Start(kind), [], [all], stop) == Parsed(head, body, [])
  {
    hide Drain;
    assert [] + all == all && [all][1..] == [];
    FeedStep(rules, Start(kind), [], [all], Drain(rules, Start(kind), all), stop);
  }

  lemma {:induction false} SectionIsLines(fields: seq<(Bytes, Bytes)>, gaps: seq<Gaps>)
    requires |gaps| == |fields| && forall i | 0 <= i < |gaps| :: gaps[i] == PLAIN_GAPS
    ensures CRLF + FieldLines(fields) + CRLF == Section(fields, gaps, CRLF + CRLF)
  {
    if fields != [] {
      SectionIsLines(fields[1..], gaps[1..]);
      assert gaps[0] == PLAIN_GAPS;
      var (name, value) := fields[0];
      var ls, text := FieldLines(fields[1..]), FieldText(fields[0], gaps[0]);
      assert text == name + [COLON, SP] + value;
      calc {
        CRLF + FieldLines(fields) + CRLF;
        CRLF + (text + CRLF + ls) + CRLF;
        CRLF + (text + (CRLF + ls + CRLF));
      }
    }
  }

  /** What RFC 9112 writes is one of the layouts. */
  lemma PrintIsPlain(kind: Kind, head: Head)
    requires head.version.Some?
    ensures LayoutOk(kind, head, Plain(head)) && Print(kind, head) == Write(kind, head, Plain(head))
  {
    var l := Plain(head);
    SectionIsLines(head.headers, l.fields);
    var version := VersionText(head.version.value);
    if kind == Request {
      assert StartLine(kind, head, l) == head.verb + [SP] + head.uri + [SP] + version;
    } else {
      assert StartLine(kind, head, l) == version + [SP] + head.status + [SP] + head.reason;
    }
    SplitEnd(StartLine(kind, head, l), FieldLines(head.headers));
  }

  lemma SplitEnd(start: Bytes, lines: Bytes)
    ensures start + CRLF + lines + CRLF == start + (CRLF + lines + CRLF)
  {
  }

  /** The round trip of what RFC 9112 writes. */
  lemma RoundTrip(rules: Rules, kind: Kind, head: Head, body: Bytes, stop: Error)
    requires WellFormed(rules, kind, head) && NewlineAt(body) == 0
    ensures Finishes(rules, Start(kind), Print(kind, head) + body)
    ensures Drain(rules, Start(kind), Print(kind, head) + body) == Drained(Parser(kind, Finished, head), body)
    ensures TermStart(rules, Start(kind), Print(kind, head) + body) == |Print(kind, head)| - 4
    ensures Feed(rules, Start(kind), [], [Print(kind, head) + body], stop) == Parsed(head, body, [])
  {
    WellFormedVersion(rules, kind, head);
    PrintIsPlain(kind, head);
    hide Drain, NewlineAt, Finishes, TermStart, Feed, Print, Write, WellFormed, LayoutOk;
    LayoutRoundTrip(rules, kind, head, Plain(head), body, stop);
  }

  /** No read ends exactly `q` bytes from here. */
  predicate NoCut(chunks: seq<Bytes>, q: nat) {
    chunks != [] ==> |chunks[0]| > q || (|chunks[0]| < q && NoCut(chunks[1..], q - |chunks[0]|))
  }

  /** The four bytes before offset `n` are CRLFCRLF, as far as they are in `s`. */
  predicate BlankEnd(s: Bytes, n: nat) {
    && 3 <= n <= |s|
    && s[n - 1] == LF && s[n - 2] == CR && s[n - 3] == LF && (n >= 4 ==> s[n - 4] == CR)
  }

  /** For CRLFCRLF the condition on the reads is simple: no read may end one or two bytes before its end. */
  lemma {:induction false} CrlfCut(chunks: seq<Bytes>, n: nat)
    requires BlankEnd(Concat(chunks), n)
    ensures WellCut(chunks, Monus(n, 4), n) <==> NoCut(chunks, n - 2) && NoCut(chunks, n - 1)
    decreases |chunks|
  {
    hide Lf, Zone;
    var c, rest := chunks[0], Concat(chunks[1..]);
    assert c + rest == Concat(chunks);
    if |c| >= n {
      CutAfter(c, rest, n);
    } else if n - |c| >= 3 {
      CutBefore(c, rest, n);
      CrlfCut(chunks[1..], n - |c|);
    } else if WellCut(chunks, Monus(n, 4), n) {
      WellCutNeedsTwo(chunks[1..], Monus(Monus(n, 4), |c|), n - |c|);
      CutInside(c, rest, n);
      assert false;
    }
  }

  /** The line feeds of one to four bytes. */
  lemma LfFew(s: Bytes)
    ensures |s| == 0 ==> Lf(s) == 0
    ensures |s| == 1 ==> Lf(s) == if s[0] == LF then 1 else 0
    ensures |s| == 2 ==> Lf(s) == (if s[0] == LF then 1 else 0) + (if s[1] == LF then 1 else 0)
  {
    if |s| == 2 {
      assert s == [s[0]] + [s[1]];
      LfConcat([s[0]], [s[1]]);
    }
  }

  /** A read that reaches the end of CRLFCRLF from before its first line feed brings both. */
  lemma CutAfter(c: Bytes, rest: Bytes, n: nat)
    requires n <= |c| && BlankEnd(c + rest, n)
    ensures Lf(Zone(c, Monus(n, 4), n)) == 2
  {
    var z := Zone(c, Monus(n, 4), n);
    ZoneAt(c, Monus(n, 4), n);
    assert (c + rest)[..|c|] == c;
    hide Lf, Zone;
    assert z == z[..|z| - 2] + z[|z| - 2..];
    LfFew(z[..|z| - 2]);
    LfFew(z[|z| - 2..]);
    LfConcat(z[..|z| - 2], z[|z| - 2..]);
  }

  /** A read that ends before the first line feed of CRLFCRLF brings none of its line feeds. */
  lemma CutBefore(c: Bytes, rest: Bytes, n: nat)
    requires 3 <= n - |c| && BlankEnd(c + rest, n)
    ensures Lf(Zone(c, Monus(n, 4), n)) == 0 && Monus(Monus(n, 4), |c|) == Monus(n - |c|, 4)
    ensures BlankEnd(rest, n - |c|)
  {
    var z := Zone(c, Monus(n, 4), n);
    ZoneAt(c, Monus(n, 4), n);
    LfFew(z);
    hide Lf, Zone;
    assert forall i | |c| <= i < n :: (c + rest)[i] == rest[i - |c|];
    assert forall i | 0 <= i < |c| :: (c + rest)[i] == c[i];
  }

  /** A read that ends within the last two bytes leaves one line feed at most. */
  lemma CutInside(c: Bytes, rest: Bytes, n: nat)
    requires 0 < n - |c| < 3 && BlankEnd(c + rest, n)
    ensures Lf(Zone(rest, Monus(Monus(n, 4), |c|), n - |c|)) <= 1
  {
    var z := Zone(rest, Monus(Monus(n, 4), |c|), n - |c|);
    ZoneAt(rest, Monus(Monus(n, 4), |c|), n - |c|);
    LfFew(z);
    hide Lf, Zone;
    assert forall i | |c| <= i < n :: (c + rest)[i] == rest[i - |c|];
  }

  /** Round trip over any reads: a printed head comes back with its body if and only if no read ends one
      or two bytes before the end of the head. */
  lemma RoundTripInReads(rules: Rules, kind: Kind, head: Head, body: Bytes, chunks: seq<Bytes>, stop: Error)
    requires WellFormed(rules, kind, head) && NewlineAt(body) == 0
    requires NonEmpty(chunks) && Concat(chunks) == Print(kind, head) + body
    ensures
      var n, r := |Print(kind, head)|, Feed(rules, Start(kind), [], chunks, stop);
      && 2 <= n
      && (r.Parsed? && r.head == head && Left(r) == body <==> NoCut(chunks, n - 2) && NoCut(chunks, n - 1))
  {
    hide Feed, Drain, NewlineAt, WellCut, NoCut, WellFormed, Print, Finishes, TermStart, TermEnd, BlankLine, BlankEnd;
    WellFormedVersion(rules, kind, head);
    var all, n := Print(kind, head) + body, |Print(kind, head)|;
    RoundTrip(rules, kind, head, body, stop);
    LastFour(kind, head, body);
    LeftAll(head, body);
    ChunkingExact(rules, kind, all, chunks, stop);
    EndsAt(rules, kind, all, body, n);
    CrlfCut(chunks, n);
  }

  /** Two reads that meet inside the blank line: the printed head does not come back. */
  lemma CutInTerminatorFails(rules: Rules, kind: Kind, head: Head, body: Bytes, stop: Error)
    requires WellFormed(rules, kind, head) && NewlineAt(body) == 0
    ensures
      var all, n := Print(kind, head) + body, |Print(kind, head)|;
      && 1 <= n
      && var r := Feed(rules, Start(kind), [], [all[..n - 1], all[n - 1..]], stop);
         !(r.Parsed? && r.head == head && Left(r) == body)
  {
    hide Feed, NewlineAt, WellFormed, Print;
    WellFormedVersion(rules, kind, head);
    LastFour(kind, head, body);
    var all, n := Print(kind, head) + body, |Print(kind, head)|;
    var chunks := [all[..n - 1], all[n - 1..]];
    TwoReads(all, n - 1);
    RoundTripInReads(rules, kind, head, body, chunks, stop);
    assert !NoCut(chunks, n - 1);
  }

  lemma TwoReads(all: Bytes, n: nat)
    requires 0 < n < |all|
    ensures Concat([all[..n], all[n..]]) == all && NonEmpty([all[..n], all[n..]])
  {
    var chunks := [all[..n], all[n..]];
    assert chunks[1..] == [all[n..]] && chunks[1..][1..] == [];
    assert Concat(chunks[1..]) == all[n..];
  }

  lemma WellFormedVersion(rules: Rules, kind: Kind, head: Head)
    requires WellFormed(rules, kind, head)
    ensures head.version.Some?
  {
  }

  lemma LeftAll(head: Head, body: Bytes)
    ensures Left(Parsed(head, body, [])) == body
  {
    assert body + Concat([]) == body;
  }

  /** The head ends where the body starts. */
  lemma EndsAt(rules: Rules, kind: Kind, all: Bytes, body: Bytes, n: nat)
    requires Finishes(rules, Start(kind), all) && |all| == n + |body| && n >= 4
    requires Drain(rules, Start(kind), all).rest == body
    ensures TermEnd(rules, Start(kind), all) == n && n - 4 == Monus(n, 4)
  {
    hide Drain;
  }

  lemma LastFour(kind: Kind, head: Head, body: Bytes)
    requires head.version.Some?
    ensures 4 <= |Print(kind, head)| && BlankEnd(Print(kind, head) + body, |Print(kind, head)|)
  {
    PrintIsPlain(kind, head);
    var l := Plain(head);
    var section := Section(head.headers, l.fields, CRLF + CRLF);
    SectionEnds(head.headers, l.fields);
    hide Print, Section, StartLine;
    EndOfConcat(StartLine(kind, head, l), section, body);
  }

  lemma EndOfConcat(front: Bytes, tail: Bytes, body: Bytes)
    requires |tail| >= 4 && tail[|tail| - 4..] == CRLF + CRLF
    ensures BlankEnd(front + tail + body, |front + tail|)
  {
    var all, n, last := front + tail + body, |front + tail|, tail[|tail| - 4..];
    assert forall i | 0 <= i < 4 :: all[n - 4 + i] == last[i];
  }

  lemma {:induction false} SectionEnds(fields: seq<(Bytes, Bytes)>, gaps: seq<Gaps>)
    requires |gaps| == |fields|
    ensures
      var s := Section(fields, gaps, CRLF + CRLF);
      |s| >= 4 && s[|s| - 4..] == CRLF + CRLF
  {
    if fields != [] {
      SectionEnds(fields[1..], gaps[1..]);
      var front, rest := gaps[0].newline + FieldText(fields[0], gaps[0]), Section(fields[1..], gaps[1..], CRLF + CRLF);
      assert Section(fields, gaps, CRLF + CRLF) == front + rest;
    }
  }
}
