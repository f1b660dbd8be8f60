/** What the head parser can return: every head it accepts is fine, and each fault has its own error. */
module HttpResults {
  import opened Options
  import opened HttpSyntax
  import opened HttpHead
  import opened HttpChunks
  import opened HttpPrint

  // ----- Accepted heads -----

  /** The parser is in one of the states of its kind. */
  predicate PhaseOf(kind: Kind, phase: Phase) {
    match phase
    case AtMethod => kind == Request
    case AtUri => kind == Request
    case AtStatus => kind == Response
    case AtReason => kind == Response
    case _ => true
  }

  /** The items parsed so far are fine, and those to come are empty. */
  predicate FineSoFar(rules: Rules, p: Parser) {
    var h, phase := p.head, p.phase;
    && PhaseOf(p.kind, phase)
    && (forall i | 0 <= i < |h.headers| :: FieldFine(rules, h.headers[i]))
    && (phase.AtHeaders? || phase.Finished? ==> h.version.Some?)
    && if p.kind == Request then
         && (if phase.AtMethod? then h.verb == [] else Token(h.verb) && rules.methodOk(h.verb))
         && (if phase.AtMethod? || phase.AtUri? then h.uri == [] else Token(h.uri) && rules.uriOk(h.uri))
         && h.status == [] && h.reason == []
       else
         && h.verb == [] && h.uri == []
         && (if phase.AtVersion? then true else h.version.Some?)
         && (if phase.AtVersion? || phase.AtStatus? then h.status == [] else StatusFine(rules, h.status))
         && (if phase.AtHeaders? || phase.Finished? then ReasonFine(h.reason) else h.reason == [])
  }

  lemma AfterSpacesStart(buf: Bytes)
    ensures AfterSpaces(buf) != [] ==> NonSpace.At(AfterSpaces(buf)[0])
  {
  }

  lemma PrefixFree(stop: Stop, b: Bytes, n: nat)
    requires Find(stop, b) == Some(n)
    ensures n <= |b| && Free(stop, b[..n])
  {
  }

  /** What is trimmed at its end and starts with no space has no spaces around it. */
  lemma TrimEndTrims(s: Bytes)
    requires s != [] ==> NonSpace.At(s[0])
    ensures Trimmed(TrimEnd(s))
  {
    if s != [] {
      assert Find(NonSpace, s) == Some(0);
    }
  }

  lemma TrimEndFree(stop: Stop, s: Bytes)
    requires Free(stop, s)
    ensures Free(stop, TrimEnd(s))
  {
  }

  lemma ItemFine(rules: Rules, p: Parser, b: Bytes)
    requires FineSoFar(rules, p) && !p.phase.Finished? && !p.phase.AtHeaders? && (b != [] ==> NonSpace.At(b[0]))
    ensures var o := ItemStep(rules, p, b); o.Go? ==> FineSoFar(rules, o.parser)
  {
    if p.phase.AtReason? && Find(LineEnd, b).Some? {
      PrefixFree(LineEnd, b, Find(LineEnd, b).value);
    }
    if (p.phase.AtMethod? || p.phase.AtUri?) && Find(TokenEnd, b).Some? {
      PrefixFree(TokenEnd, b, Find(TokenEnd, b).value);
    }
  }

  lemma NameFine(line: Bytes, n: nat)
    requires (line != [] ==> NonSpace.At(line[0])) && Find(NameEnd, line) == Some(n)
    ensures n <= |line| && Free(NameEnd, TrimEnd(line[..n])) && Trimmed(TrimEnd(line[..n]))
  {
    PrefixFree(NameEnd, line, n);
    TrimEndFree(NameEnd, line[..n]);
    TrimEndTrims(line[..n]);
  }

  lemma ValueFine(field: Bytes, m: nat)
    requires (field != [] ==> NonSpace.At(field[0])) && Find(LineEnd, field) == Some(m)
    ensures m <= |field| && Free(LineEnd, TrimEnd(field[..m])) && Trimmed(TrimEnd(field[..m]))
  {
    PrefixFree(LineEnd, field, m);
    TrimEndFree(LineEnd, field[..m]);
    TrimEndTrims(field[..m]);
  }

  /** A header that is accepted is fine. */
  lemma HeaderFine(rules: Rules, buf: Bytes)
    ensures var o := ParseHeader(rules, buf); o.Header? ==> FieldFine(rules, (o.name, o.value))
  {
    var line := AfterSpaces(buf);
    AfterSpacesStart(buf);
    hide AfterSpaces, TrimEnd, Find, Free, Trimmed;
    match Find(NameEnd, line) {
      case None =>
      case Some(n) =>
        NameFine(line, n);
        var field := AfterSpaces(line[n + 1..]);
        AfterSpacesStart(line[n + 1..]);
        match Find(LineEnd, field) {
          case None =>
          case Some(m) => ValueFine(field, m);
        }
    }
  }

  lemma FinishFine(rules: Rules, p: Parser)
    requires FineSoFar(rules, p) && p.phase.AtHeaders?
    ensures FineSoFar(rules, p.Next(p.head))
  {
  }

  lemma OneMoreFine(rules: Rules, p: Parser, field: (Bytes, Bytes))
    requires FineSoFar(rules, p) && p.phase.AtHeaders? && FieldFine(rules, field)
    ensures FineSoFar(rules, p.(head := p.head.(headers := p.head.headers + [field])))
  {
    hide FieldFine, Token, StatusFine, ReasonFine;
  }

  lemma HeaderStepFine(rules: Rules, p: Parser, buf: Bytes)
    requires FineSoFar(rules, p) && p.phase.AtHeaders?
    ensures var o := HeaderStep(rules, p, buf); !o.Fail? ==> FineSoFar(rules, o.parser)
  {
    var rest := buf[RunLength(buf)..];
    hide FineSoFar, ParseHeader, RunCount, RunLength, FieldFine;
    HeaderFine(rules, rest);
    FinishFine(rules, p);
    var o := ParseHeader(rules, rest);
    if o.Header? {
      OneMoreFine(rules, p, (o.name, o.value));
    }
  }

  lemma StepFine(rules: Rules, p: Parser, buf: Bytes)
    requires FineSoFar(rules, p) && !p.phase.Finished?
    ensures var o := Step(rules, p, buf); !o.Fail? ==> FineSoFar(rules, o.parser)
  {
    hide FineSoFar, AfterSpaces, ItemStep, HeaderStep;
    if p.phase.AtHeaders? {
      HeaderStepFine(rules, p, buf);
    } else {
      AfterSpacesStart(buf);
      ItemFine(rules, p, AfterSpaces(buf));
      ItemWaitsFor(rules, p, AfterSpaces(buf));
    }
  }

  lemma ItemWaitsFor(rules: Rules, p: Parser, b: Bytes)
    requires !p.phase.Finished? && !p.phase.AtHeaders?
    ensures ItemStep(rules, p, b).Wait? ==> ItemStep(rules, p, b).parser == p
  {
    hide ItemStep;
  }

  lemma {:induction false} DrainFine(rules: Rules, p: Parser, buf: Bytes)
    requires FineSoFar(rules, p)
    ensures var d := Drain(rules, p, buf); d.Drained? ==> FineSoFar(rules, d.parser)
    decreases PhasesLeft(p.phase), |buf|
  {
    hide FineSoFar, Step;
    if !p.phase.Finished? && buf != [] {
      StepFine(rules, p, buf);
      var o := Step(rules, p, buf);
      if o.Go? {
        DrainFine(rules, o.parser, o.rest);
      }
    }
  }

  lemma {:induction false} DrainKeepsKind(rules: Rules, p: Parser, buf: Bytes)
    ensures var d := Drain(rules, p, buf); d.Drained? ==> d.parser.kind == p.kind
    decreases PhasesLeft(p.phase), |buf|
  {
    if !p.phase.Finished? && buf != [] {
      StepKeepsKind(rules, p, buf);
      hide Step;
      var o := Step(rules, p, buf);
      if o.Go? {
        DrainKeepsKind(rules, o.parser, o.rest);
      }
    }
  }

  lemma StepKeepsKind(rules: Rules, p: Parser, buf: Bytes)
    requires !p.phase.Finished?
    ensures var o := Step(rules, p, buf); !o.Fail? ==> o.parser.kind == p.kind
  {
    hide RunCount, RunLength, ParseHeader, AfterSpaces, Find;
  }

  lemma {:induction false} FeedFine(rules: Rules, p: Parser, buf: Bytes, chunks: seq<Bytes>, stop: Error)
    requires FineSoFar(rules, p)
    ensures var r := Feed(rules, p, buf, chunks, stop); r.Parsed? ==> Fine(rules, p.kind, r.head)
    decreases |chunks|
  {
    if p.phase.Finished? {
      hide FieldFine, Token, StatusFine, ReasonFine;
    } else {
      FeedTurn(rules, p, buf, chunks, stop);
      hide FineSoFar, Fine, Drain, Feed;
      if chunks != [] && chunks[0] != [] {
        DrainFine(rules, p, buf + chunks[0]);
        DrainKeepsKind(rules, p, buf + chunks[0]);
        var d := Drain(rules, p, buf + chunks[0]);
        if d.Drained? {
          FeedFine(rules, d.parser, d.rest, chunks[1..], stop);
        }
      }
    }
  }

  /** Every head that any reads give is fine: its items pass the checks and have the form of their kind, no header
      name or value has spaces or tabs around it, no name holds a colon and no value a line end. */
  lemma ParsedIsFine(rules: Rules, kind: Kind, chunks: seq<Bytes>, stop: Error)
    ensures var r := Feed(rules, Start(kind), [], chunks, stop); r.Parsed? ==> Fine(rules, kind, r.head)
  {
    FeedFine(rules, Start(kind), [], chunks, stop);
  }

  /** A head that was read, printed and read again is the same, unless one of its names starts with a newline. */
  lemma ReadPrintRead(rules: Rules, kind: Kind, chunks: seq<Bytes>, body: Bytes, stop: Error)
    requires Feed(rules, Start(kind), [], chunks, stop).Parsed? && NewlineAt(body) == 0
    requires forall f <- Feed(rules, Start(kind), [], chunks, stop).head.headers :: NewlineAt(f.0) == 0
    ensures
      var head := Feed(rules, Start(kind), [], chunks, stop).head;
      && head.version.Some?
      && Feed(rules, Start(kind), [], [Print(kind, head) + body], stop) == Parsed(head, body, [])
  {
    ParsedIsFine(rules, kind, chunks, stop);
    var head := Feed(rules, Start(kind), [], chunks, stop).head;
    hide Feed, FieldFine, NewlineAt, Token, StatusFine, ReasonFine, Print;
    forall i | 0 <= i < |head.headers|
      ensures FieldOk(rules, head.headers[i])
    {
      assert head.headers[i] in head.headers;
    }
    RoundTrip(rules, kind, head, body, stop);
  }

  // ----- Faults -----

  /** A method or URI that is missing or fails its check. */
  lemma TokenFault(rules: Rules, p: Parser, gap: Bytes, token: Bytes, more: Bytes)
    requires (p.phase.AtMethod? && !rules.methodOk(token)) || (p.phase.AtUri? && !rules.uriOk(token)) ||
             ((p.phase.AtMethod? || p.phase.AtUri?) && token == [])
    requires Gap(gap) && Free(TokenEnd, token) && more != [] && TokenEnd.At(more[0])
    requires token == [] ==> LineEnd.At(more[0])
    ensures Drain(rules, p, gap + (token + more))
         == Failed(if p.phase.AtMethod? then if token == [] then NoMethod else InvalidMethod
                   else if token == [] then NoUri else InvalidUri)
  {
    var b := token + more;
    assert b[0] == if token == [] then more[0] else token[0];
    GapSkipped(gap, b);
    FindAt(TokenEnd, token, more);
    hide AfterSpaces, Find, Free, Gap;
  }

  /** Eight bytes that are no version. */
  lemma VersionFault(rules: Rules, p: Parser, gap: Bytes, text: Bytes, more: Bytes)
    requires p.phase.AtVersion? && Gap(gap) && |text| == 8 && NonSpace.At(text[0])
    requires forall v :: text != VersionText(v)
    ensures Drain(rules, p, gap + (text + more)) == Failed(BadVersion)
  {
    var b := text + more;
    assert b[0] == text[0] && b[..8] == text;
    GapSkipped(gap, b);
    hide AfterSpaces, Gap;
    assert VersionOf(text) == None;
    AtVersionStep(rules, p, b);
  }

  lemma StatusFault(rules: Rules, p: Parser, gap: Bytes, status: Bytes, more: Bytes)
    requires p.phase.AtStatus? && Gap(gap) && |status| == 3 && NonSpace.At(status[0]) && !rules.statusOk(status)
    ensures Drain(rules, p, gap + (status + more)) == Failed(InvalidStatus)
  {
    var b := status + more;
    assert b[0] == status[0] && b[..3] == status;
    GapSkipped(gap, b);
    hide AfterSpaces, Gap;
  }

  /** A field line, in any layout, with a name or a value that fails its check. */
  lemma FieldFault(rules: Rules, p: Parser, field: (Bytes, Bytes), g: Gaps, rest: Bytes)
    requires p.phase.AtHeaders? && GapsOk(g) && rest != [] && LineEnd.At(rest[0])
    requires Free(NameEnd, field.0) && Trimmed(field.0) && NewlineAt(field.0) == 0
    requires Free(LineEnd, field.1) && Trimmed(field.1) && !(rules.nameOk(field.0) && rules.valueOk(field.1))
    ensures Drain(rules, p, g.newline + (FieldText(field, g) + rest))
         == Failed(if !rules.nameOk(field.0) then InvalidName else InvalidValue)
  {
    hide Step, FieldText, Free, Trimmed, GapsOk, NewlineAt;
    SomeBytes(rules, field, g, rest);
    FieldStepFault(rules, p, field, g, rest);
    FailDrain(rules, p, g.newline + (FieldText(field, g) + rest));
  }

  /** The same rules with no checks on headers. */
  function Lax(rules: Rules): Rules {
    rules.(nameOk := _ => true, valueOk := _ => true)
  }

  lemma LaxField(rules: Rules, field: (Bytes, Bytes))
    requires Free(NameEnd, field.0) && Trimmed(field.0) && NewlineAt(field.0) == 0
    requires Free(LineEnd, field.1) && Trimmed(field.1)
    ensures FieldOk(Lax(rules), field)
    ensures (forall s :: Lax(rules).nameOk(s)) && forall s :: Lax(rules).valueOk(s)
  {
  }

  lemma FieldTextFaults(rules: Rules, lax: Rules, field: (Bytes, Bytes), g: Gaps, rest: Bytes)
    requires FieldOk(lax, field) && (forall s :: lax.nameOk(s)) && (forall s :: lax.valueOk(s))
    requires GapsOk(g) && rest != [] && LineEnd.At(rest[0]) && !(rules.nameOk(field.0) && rules.valueOk(field.1))
    ensures ParseHeader(rules, FieldText(field, g) + rest)
         == BadHeader(if !rules.nameOk(field.0) then InvalidName else InvalidValue)
  {
    hide ParseHeader, FieldText, GapsOk, FieldOk;
    FieldTextParses(lax, field, g, rest);
    SameParts(rules, lax, FieldText(field, g) + rest);
  }

  lemma FieldStepFault(rules: Rules, p: Parser, field: (Bytes, Bytes), g: Gaps, rest: Bytes)
    requires p.phase.AtHeaders? && GapsOk(g) && rest != [] && LineEnd.At(rest[0])
    requires Free(NameEnd, field.0) && Trimmed(field.0) && NewlineAt(field.0) == 0
    requires Free(LineEnd, field.1) && Trimmed(field.1) && !(rules.nameOk(field.0) && rules.valueOk(field.1))
    ensures Step(rules, p, g.newline + (FieldText(field, g) + rest))
         == Fail(if !rules.nameOk(field.0) then InvalidName else InvalidValue)
  {
    hide RunCount, RunLength, ParseHeader, NewlineAt, FieldText, Free, Trimmed, GapsOk, FieldOk, Step, Lax;
    LaxField(rules, field);
    GapsNewline(g);
    FieldIsNoNewline(Lax(rules), field, g, rest);
    OneNewline(g.newline, FieldText(field, g) + rest);
    FieldTextFaults(rules, Lax(rules), field, g, rest);
    HeaderStepIs(rules, p, g.newline + (FieldText(field, g) + rest), FieldText(field, g) + rest);
  }

  lemma GapsNewline(g: Gaps)
    requires GapsOk(g)
    ensures Newline(g.newline)
  {
  }

  /** The checks decide whether a header is accepted, not what it is. */
  lemma SameParts(rules: Rules, lax: Rules, buf: Bytes)
    requires (forall s :: lax.nameOk(s)) && forall s :: lax.valueOk(s)
    ensures
      var o := ParseHeader(lax, buf);
      o.Header? ==>
        ParseHeader(rules, buf)
        == if !rules.nameOk(o.name) then BadHeader(InvalidName)
           else if !rules.valueOk(o.value) then BadHeader(InvalidValue)
           else o
  {
    hide Find, TrimEnd, AfterSpaces;
  }

  // ----- Versions -----

  function Major(v: Version): Byte {
    match v
    case Http09 => 0
    case Http10 => 1
    case Http11 => 1
    case Http2 => 2
    case Http3 => 3
  }

  function Minor(v: Version): Byte {
    match v
    case Http09 => 9
    case Http11 => 1
    case _ => 0
  }

  /** A version is written as section 2.3 of RFC 9112 says: "HTTP/", a digit, a dot and a digit. */
  lemma VersionDigits(v: Version)
    ensures VersionText(v) == Ascii("HTTP/") + [48 + Major(v)] + Ascii(".") + [48 + Minor(v)]
  {
  }

  function Ascii(s: string): Bytes {
    seq(|s|, i requires 0 <= i < |s| => if s[i] < 128 as char then s[i] as int as Byte else 0)
  }
}
