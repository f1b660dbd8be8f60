/** The resumable head parsers of crates/net/http/src/parse.rs: `Requester` and `Responser` are one
    machine that differs in its phases.  Checks made by the http crate are parameters. */
module HttpHead {
  import opened Options
  import opened HttpSyntax

  datatype Kind = Request | Response

  datatype Phase = AtMethod | AtUri | AtVersion | AtStatus | AtReason | AtHeaders | Finished

  function NextPhase(kind: Kind, phase: Phase): Phase {
    match phase
    case AtMethod => AtUri
    case AtUri => AtVersion
    case AtVersion => if kind == Request then AtHeaders else AtStatus
    case AtStatus => AtReason
    case AtReason => AtHeaders
    case AtHeaders => Finished
    case Finished => Finished
  }

  function PhasesLeft(phase: Phase): nat {
    match phase
    case AtMethod => 6
    case AtUri => 5
    case AtVersion => 4
    case AtStatus => 3
    case AtReason => 2
    case AtHeaders => 1
    case Finished => 0
  }

  /** The builder: what has been parsed so far. */
  datatype Head = Head(
    verb: Bytes, uri: Bytes, version: Option<Version>, status: Bytes, reason: Bytes,
    headers: seq<(Bytes, Bytes)>)

  const EMPTY_HEAD := Head([], [], None, [], [], [])

  datatype Error =
    | Eof | ParseBufOverflow | Io | NoMethod | InvalidMethod | NoUri
    | InvalidUri | BadVersion | InvalidStatus | InvalidName | InvalidValue

  /** The checks of the http crate on methods, URIs, status codes, header names and values. */
  datatype Rules = Rules(
    methodOk: Bytes -> bool, uriOk: Bytes -> bool, statusOk: Bytes -> bool,
    nameOk: Bytes -> bool, valueOk: Bytes -> bool)

  datatype Parser = Parser(kind: Kind, phase: Phase, head: Head) {
    function Next(head: Head): Parser {
      Parser(kind, NextPhase(kind, phase), head)
    }
  }

  function Start(kind: Kind): Parser {
    Parser(kind, if kind == Request then AtMethod else AtVersion, EMPTY_HEAD)
  }

  // ----- One step of the inner loop -----

  /** A step fails, returns false and so waits for more bytes, or returns true and goes on. */
  datatype Outcome = Fail(error: Error) | Wait(parser: Parser, rest: Bytes) | Go(parser: Parser, rest: Bytes)

  datatype HeaderOutcome = NoHeader | BadHeader(error: Error) | Header(name: Bytes, value: Bytes, rest: Bytes)

  /** The value, up to the end of line, and the checks. */
  function FieldValue(rules: Rules, name: Bytes, field: Bytes): (r: HeaderOutcome)
    ensures r.Header? ==> |r.rest| <= |field|
  {
    match Find(LineEnd, field)
    case None => NoHeader
    case Some(m) =>
      var value := TrimEnd(field[..m]);
      if !rules.nameOk(name) then BadHeader(InvalidName)
      else if !rules.valueOk(value) then BadHeader(InvalidValue)
      else Header(name, value, field[m..])
  }

  /** The name, up to the colon. */
  function FieldLine(rules: Rules, line: Bytes): (r: HeaderOutcome)
    ensures r.Header? ==> |r.rest| < |line|
  {
    match Find(NameEnd, line)
    case None => NoHeader
    case Some(n) => FieldValue(rules, TrimEnd(line[..n]), AfterSpaces(line[n + 1..]))
  }

  /** `parse_header` on a slice. */
  function ParseHeader(rules: Rules, buf: Bytes): (r: HeaderOutcome)
    ensures r.Header? ==> |r.rest| < |buf|
  {
    FieldLine(rules, AfterSpaces(buf))
  }

  function AddHeader(p: Parser, o: HeaderOutcome, rest: Bytes): Outcome {
    match o
    case NoHeader => Wait(p, rest)
    case BadHeader(e) => Fail(e)
    case Header(name, value, after) => Go(p.(head := p.head.(headers := p.head.headers + [(name, value)])), after)
  }

  /** The parsers' `parse_header`: a blank line ends the head, a single newline is skipped. */
  function HeaderStep(rules: Rules, p: Parser, buf: Bytes): (r: Outcome)
    ensures !r.Fail? ==> |r.rest| <= |buf|
    ensures r.Go? ==> |r.rest| < |buf|
  {
    var rest := buf[RunLength(buf)..];
    if RunCount(buf) >= 2 then Wait(p.Next(p.head), rest) else AddHeader(p, ParseHeader(rules, rest), rest)
  }

  /** `parse_method` and `parse_uri`, after the spaces. */
  function TokenStep(rules: Rules, p: Parser, buf: Bytes): Outcome
    requires p.phase.AtMethod? || p.phase.AtUri?
  {
    match Find(TokenEnd, buf)
    case None => Wait(p, buf)
    case Some(n) =>
      var token := buf[..n];
      if p.phase.AtMethod? then
        if n == 0 then Fail(NoMethod)
        else if !rules.methodOk(token) then Fail(InvalidMethod)
        else Go(p.Next(p.head.(verb := token)), buf[n..])
      else
        if n == 0 then Fail(NoUri)
        else if !rules.uriOk(token) then Fail(InvalidUri)
        else Go(p.Next(p.head.(uri := token)), buf[n..])
  }

  function VersionStep(p: Parser, b: Bytes): Outcome {
    if |b| < 8 then Wait(p, b)
    else if VersionOf(b[..8]).None? then Fail(BadVersion)
    else Go(p.Next(p.head.(version := VersionOf(b[..8]))), b[8..])
  }

  function StatusStep(rules: Rules, p: Parser, b: Bytes): Outcome {
    if |b| < 3 then Wait(p, b)
    else if !rules.statusOk(b[..3]) then Fail(InvalidStatus)
    else Go(p.Next(p.head.(status := b[..3])), b[3..])
  }

  function ReasonStep(p: Parser, b: Bytes): Outcome {
    match Find(LineEnd, b)
    case None => Wait(p, b)
    case Some(n) => Go(p.Next(p.head.(reason := b[..n])), b[n..])
  }

  function ItemStep(rules: Rules, p: Parser, b: Bytes): (r: Outcome)
    requires !p.phase.Finished? && !p.phase.AtHeaders?
    ensures r.Wait? ==> r == Wait(p, b)
    ensures r.Go? ==> |r.rest| <= |b| && PhasesLeft(r.parser.phase) < PhasesLeft(p.phase)
    ensures r.Go? ==> !r.parser.phase.Finished?
  {
    match p.phase
    case AtMethod => TokenStep(rules, p, b)
    case AtUri => TokenStep(rules, p, b)
    case AtVersion => VersionStep(p, b)
    case AtStatus => StatusStep(rules, p, b)
    case AtReason => ReasonStep(p, b)
  }

  function Step(rules: Rules, p: Parser, buf: Bytes): (r: Outcome)
    requires !p.phase.Finished?
    ensures r.Go? ==>
              PhasesLeft(r.parser.phase) < PhasesLeft(p.phase) ||
              (r.parser.phase == p.phase && |r.rest| < |buf|)
    ensures r.Wait? ==> r.parser == p || (p.phase.AtHeaders? && r.parser == p.Next(p.head))
    ensures !r.Fail? ==> |r.rest| <= |buf|
    ensures r.Go? ==> !r.parser.phase.Finished?
  {
    if p.phase.AtHeaders? then HeaderStep(rules, p, buf) else ItemStep(rules, p, AfterSpaces(buf))
  }

  // ----- The loops -----

  datatype Drained = Failed(error: Error) | Drained(parser: Parser, rest: Bytes)

  /** The inner loop: step until the buffer is empty or a step waits for more. */
  function Drain(rules: Rules, p: Parser, buf: Bytes): (r: Drained)
    ensures r.Drained? ==> |r.rest| <= |buf|
    decreases PhasesLeft(p.phase), |buf|
  {
    if p.phase.Finished? || buf == [] then Drained(p, buf)
    else
      match Step(rules, p, buf)
      case Fail(e) => Failed(e)
      case Wait(p', rest) => Drained(p', rest)
      case Go(p', rest) => Drain(rules, p', rest)
  }

  /** The head, the bytes read but not parsed, and the reads not made. */
  datatype Result = Rejected(error: Error) | Parsed(head: Head, cached: Bytes, unread: seq<Bytes>)

  /** The outer loop over the reads the stream delivers; an empty read is the end of the stream.  `stop` is what comes
      after the reads listed: the end of the stream, a read error, or a full buffer. */
  function Feed(rules: Rules, p: Parser, buf: Bytes, chunks: seq<Bytes>, stop: Error): Result
    decreases |chunks|
  {
    if p.phase.Finished? then Parsed(p.head, buf, chunks)
    else if chunks == [] then Rejected(stop)
    else if chunks[0] == [] then Rejected(Eof)
    else
      match Drain(rules, p, buf + chunks[0])
      case Failed(e) => Rejected(e)
      case Drained(p', rest) => Feed(rules, p', rest, chunks[1..], stop)
  }

  function Concat(chunks: seq<Bytes>): Bytes {
    if chunks == [] then [] else chunks[0] + Concat(chunks[1..])
  }

  predicate NonEmpty(chunks: seq<Bytes>) {
    forall i | 0 <= i < |chunks| :: chunks[i] != []
  }
}
