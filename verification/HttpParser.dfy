/** The parser objects of crates/net/http/src/parse.rs and the body reader of
    crates/net/http/src/body.rs, in the form the source has: state that advances in loops. */
module HttpParser {
  import opened Options
  import opened HttpSyntax
  import opened HttpHead
  import opened HttpChunks

  /** What the parsing methods return: an error, or whether to go on with the buffered bytes. */
  datatype Progress = Error(error: HttpHead.Error) | Ok(more: bool)

  /** Byte conservation over the reads: what is left at the end is the end of what came in. */
  lemma {:induction false} FeedSuffix(rules: Rules, p: Parser, buf: Bytes, chunks: seq<Bytes>, stop: HttpHead.Error)
    ensures var r := Feed(rules, p, buf, chunks, stop); r.Parsed? ==> Ends(Left(r), buf + Concat(chunks))
    decreases |chunks|
  {
    if p.phase.Finished? {
      assert Ends(buf + Concat(chunks), buf + Concat(chunks));
    } else {
      hide Feed, Drain, Ends, Left;
      if Feed(rules, p, buf, chunks, stop).Parsed? {
        FeedTakes(rules, p, buf, chunks, stop);
        ConcatFirst(buf, chunks);
        var y, rem := buf + chunks[0], Concat(chunks[1..]);
        hide Concat;
        var d := Drain(rules, p, y);
        DrainSuffix(rules, p, y);
        FeedSuffix(rules, d.parser, d.rest, chunks[1..], stop);
        EndsChain(Left(Feed(rules, p, buf, chunks, stop)), d.rest, y, rem);
      }
    }
  }

  lemma EndsChain(left: Bytes, r: Bytes, s: Bytes, t: Bytes)
    requires Ends(left, r + t) && Ends(r, s)
    ensures Ends(left, s + t)
  {
    assert (s + t)[|s| - |r|..] == s[|s| - |r|..] + t;
    EndsTrans(left, r + t, s + t);
  }

  lemma FeedDone(rules: Rules, p: Parser, buf: Bytes, chunks: seq<Bytes>, stop: HttpHead.Error)
    requires p.phase.Finished?
    ensures Feed(rules, p, buf, chunks, stop) == Parsed(p.head, buf, chunks)
  {
  }

  /** `parse_header` item by item. */
  lemma ParseHeaderIs(rules: Rules, buf: Bytes)
    ensures var line := AfterSpaces(buf);
            var n := Find(NameEnd, line);
            ParseHeader(rules, buf)
            == if n.None? then NoHeader
               else FieldValue(rules, TrimEnd(line[..n.value]), AfterSpaces(line[n.value + 1..]))
  {
  }

  class HeadParser {
    const rules: Rules
    const kind: Kind
    var phase: Phase
    var head: Head
    var buf: Bytes

    ghost function State(): Parser
      reads this
    {
      Parser(kind, phase, head)
    }

    constructor (rules: Rules, kind: Kind)
      ensures this.rules == rules && this.kind == kind && State() == Start(kind) && buf == []
    {
      this.rules, this.kind := rules, kind;
      phase := if kind == Request then AtMethod else AtVersion;
      head, buf := EMPTY_HEAD, [];
    }

    /** The method did what the step `o` says. */
    ghost predicate Follows(o: Outcome, r: Progress)
      reads this
    {
      match o
      case Fail(e) => r == Error(e)
      case Wait(p, rest) => r == Ok(false) && State() == p && buf == rest
      case Go(p, rest) => r == Ok(true) && State() == p && buf == rest
    }

    /** `ReadBuf::split_to`. */
    method SplitTo(n: nat) returns (front: Bytes)
      requires n <= |buf|
      modifies this`buf
      ensures front == old(buf)[..n] && buf == old(buf)[n..]
    {
      front, buf := buf[..n], buf[n..];
    }

    /** `parse_method` and `parse_uri`. */
    method ParseToken() returns (r: Progress)
      requires phase.AtMethod? || phase.AtUri?
      modifies this
      ensures Follows(Step(rules, old(State()), old(buf)), r)
    {
      var _ := SplitTo(SkipSpaces(buf));
      var len := Find(TokenEnd, buf);
      if len.None? {
        return Ok(false);
      }
      if len.value == 0 {
        return Error(if phase.AtMethod? then NoMethod else NoUri);
      }
      var token := SplitTo(len.value);
      if phase.AtMethod? {
        if !rules.methodOk(token) {
          return Error(InvalidMethod);
        }
        head := head.(verb := token);
      } else {
        if !rules.uriOk(token) {
          return Error(InvalidUri);
        }
        head := head.(uri := token);
      }
      phase := NextPhase(kind, phase);
      return Ok(true);
    }

    method ParseVersion() returns (r: Progress)
      requires phase.AtVersion?
      modifies this
      ensures Follows(Step(rules, old(State()), old(buf)), r)
    {
      var _ := SplitTo(SkipSpaces(buf));
      if |buf| < 8 {
        return Ok(false);
      }
      var version := VersionOf(buf[..8]);
      if version.None? {
        return Error(BadVersion);
      }
      var _ := SplitTo(8);
      head := head.(version := version);
      phase := NextPhase(kind, phase);
      return Ok(true);
    }

    method ParseStatusCode() returns (r: Progress)
      requires phase.AtStatus?
      modifies this
      ensures Follows(Step(rules, old(State()), old(buf)), r)
    {
      var _ := SplitTo(SkipSpaces(buf));
      if |buf| < 3 {
        return Ok(false);
      }
      if !rules.statusOk(buf[..3]) {
        return Error(InvalidStatus);
      }
      var status := SplitTo(3);
      head := head.(status := status);
      phase := NextPhase(kind, phase);
      return Ok(true);
    }

    method ParseReason() returns (r: Progress)
      requires phase.AtReason?
      modifies this
      ensures Follows(Step(rules, old(State()), old(buf)), r)
    {
      var _ := SplitTo(SkipSpaces(buf));
      var len := Find(LineEnd, buf);
      if len.None? {
        return Ok(false);
      }
      var reason := SplitTo(len.value);
      head := head.(reason := reason);
      phase := NextPhase(kind, phase);
      return Ok(true);
    }

    /** The free function `parse_header`. */
    method ParseHeaderLine() returns (r: HeaderOutcome)
      modifies this`buf
      ensures r.NoHeader? == ParseHeader(rules, old(buf)).NoHeader?
      ensures r.BadHeader? ==> r == ParseHeader(rules, old(buf))
      ensures r.NoHeader? ==> buf == old(buf)
      ensures r.Header? ==> r == ParseHeader(rules, old(buf)) && buf == r.rest
    {
      ParseHeaderIs(rules, buf);
      hide Find, ParseHeader, FieldLine, TrimEnd;
      var nameOffset := SkipSpaces(buf);
      var line := buf[nameOffset..];
      var nameLen := Find(NameEnd, line);
      if nameLen.None? {
        return NoHeader;
      }
      var tail := line[nameLen.value + 1..];
      var valueOffset := SkipSpaces(tail);
      var valueLen := Find(LineEnd, tail[valueOffset..]);
      if valueLen.None? {
        return NoHeader;
      }
      var _ := SplitTo(nameOffset);
      var name := SplitTo(nameLen.value);
      name := TrimSuffixSpaces(name);
      if !rules.nameOk(name) {
        return BadHeader(InvalidName);
      }
      assert buf[1..] == tail;
      var _ := SplitTo(valueOffset + 1);
      assert buf == tail[valueOffset..];
      var value := SplitTo(valueLen.value);
      value := TrimSuffixSpaces(value);
      if !rules.valueOk(value) {
        return BadHeader(InvalidValue);
      }
      return Header(name, value, buf);
    }

    /** The parsers' `parse_header`. */
    method ParseHeaders() returns (r: Progress)
      requires phase.AtHeaders?
      modifies this
      ensures Follows(Step(rules, old(State()), old(buf)), r)
    {
      hide RunCount, RunLength, ParseHeader, NewlineAt;
      var skip := SkipNewlines(buf);
      if skip.One? || skip.Break? {
        var _ := SplitTo(skip.len);
      }
      if skip.Break? {
        phase := NextPhase(kind, phase);
        return Ok(false);
      }
      assert buf == old(buf)[RunLength(old(buf))..] by {
        if RunCount(old(buf)) == 0 { NoRun(old(buf)); assert old(buf)[0..] == old(buf); }
      }
      var field := ParseHeaderLine();
      match field {
        case NoHeader => return Ok(false);
        case BadHeader(e) => return Error(e);
        case Header(name, value, _) =>
          head := head.(headers := head.headers + [(name, value)]);
          return Ok(true);
      }
    }

    method Advance() returns (r: Progress)
      requires !phase.Finished?
      modifies this
      ensures Follows(Step(rules, old(State()), old(buf)), r)
    {
      match phase {
        case AtMethod => r := ParseToken();
        case AtUri => r := ParseToken();
        case AtVersion => r := ParseVersion();
        case AtStatus => r := ParseStatusCode();
        case AtReason => r := ParseReason();
        case AtHeaders => r := ParseHeaders();
      }
    }

    /** The inner loop. */
    method DrainBuffer() returns (r: Progress)
      requires !phase.Finished?
      modifies this
      ensures Drain(rules, old(State()), old(buf)) ==
              if r.Error? then Failed(r.error) else Drained(State(), buf)
    {
      ghost var d := Drain(rules, State(), buf);
      r := Ok(true);
      while r.more && buf != []
        invariant r.Ok? && (r.more ==> !phase.Finished?)
        invariant d == if r.more then Drain(rules, State(), buf) else Drained(State(), buf)
        decreases r.more, PhasesLeft(phase), |buf|
      {
        r := Advance();
        if r.Error? {
          return;
        }
      }
    }

    /** `parse`: refines `Feed`, and no byte is lost or invented on the way. */
    method Parse(chunks: seq<Bytes>, stop: HttpHead.Error) returns (r: Result)
      requires State() == Start(kind) && buf == []
      modifies this
      ensures r == Feed(rules, Start(kind), [], chunks, stop)
      ensures r.Parsed? ==> Ends(Left(r), Concat(chunks))
    {
      FeedSuffix(rules, Start(kind), [], chunks, stop);
      assert [] + Concat(chunks) == Concat(chunks);
      hide Feed, Drain, Ends, Left, Concat;
      var next := 0;
      assert chunks[0..] == chunks;
      while !phase.Finished?
        invariant next <= |chunks|
        invariant Feed(rules, State(), buf, chunks[next..], stop) == Feed(rules, Start(kind), [], chunks, stop)
        decreases |chunks| - next, phase != Finished
      {
        FeedTurn(rules, State(), buf, chunks[next..], stop);
        if next == |chunks| {
          return Rejected(stop);
        }
        if chunks[next] == [] {
          return Rejected(Eof);
        }
        buf := buf + chunks[next];
        var progress := DrainBuffer();
        if progress.Error? {
          return Rejected(progress.error);
        }
        assert chunks[next..][1..] == chunks[next + 1..];
        next := next + 1;
      }
      FeedDone(rules, State(), buf, chunks[next..], stop);
      return Parsed(head, buf, chunks[next..]);
    }
  }

  // ----- The body -----

  /** The reads before the end of the stream. */
  function UpToEof(chunks: seq<Bytes>): seq<Bytes> {
    if chunks == [] || chunks[0] == [] then [] else [chunks[0]] + UpToEof(chunks[1..])
  }

  lemma {:induction false} AllBeforeEof(chunks: seq<Bytes>)
    requires NonEmpty(chunks)
    ensures UpToEof(chunks) == chunks
  {
    if chunks != [] { AllBeforeEof(chunks[1..]); }
  }

  lemma {:induction false} ConcatAppend(a: seq<Bytes>, b: Bytes)
    ensures Concat(a + [b]) == Concat(a) + b
  {
    if a == [] {
      assert [] + [b] == [b] && Concat([b]) == b + Concat([]);
    } else {
      assert (a + [b])[1..] == a[1..] + [b];
      ConcatAppend(a[1..], b);
    }
  }

  datatype Body = Body(bytes: Bytes) | Broken(error: HttpHead.Error)

  /** `into_bytes` over `into_read`: the cached bytes, then the rest of the stream up to its end, unless a read error
      or a full buffer comes first. */
  method IntoBytes(cached: Bytes, unread: seq<Bytes>, stop: HttpHead.Error) returns (body: Body)
    ensures body == if stop == Eof || [] in unread then Body(cached + Concat(UpToEof(unread))) else Broken(stop)
    ensures NonEmpty(unread) && stop == Eof ==> body == Body(cached + Concat(unread))
  {
    var bytes := cached;
    var next := 0;
    assert unread[0..] == unread;
    while next < |unread| && unread[next] != []
      invariant next <= |unread| && [] !in unread[..next]
      invariant bytes + Concat(UpToEof(unread[next..])) == cached + Concat(UpToEof(unread))
    {
      var rest := unread[next..];
      assert rest[1..] == unread[next + 1..] && ([rest[0]] + UpToEof(rest[1..]))[1..] == UpToEof(rest[1..]);
      assert unread[..next + 1] == unread[..next] + [unread[next]];
      bytes := bytes + unread[next];
      next := next + 1;
    }
    assert UpToEof(unread[next..]) == [];
    if NonEmpty(unread) { AllBeforeEof(unread); }
    if next == |unread| && stop != Eof {
      assert unread[..next] == unread;
      return Broken(stop);
    }
    if next < |unread| { assert unread[next] in unread; }
    return Body(bytes);
  }

  /** Head and body of a message: the body reader yields what follows the terminator, byte for byte. */
  method ReadMessage(rules: Rules, kind: Kind, chunks: seq<Bytes>, stop: HttpHead.Error)
    returns (r: Result, body: Option<Body>)
    ensures r == Feed(rules, Start(kind), [], chunks, stop)
    ensures r.Parsed? <==> body.Some?
    ensures r.Parsed? && NonEmpty(r.unread) && stop == Eof ==>
              body == Some(Body(Left(r))) && Ends(Left(r), Concat(chunks))
    ensures r.Parsed? && NonEmpty(r.unread) && stop != Eof ==> body == Some(Broken(stop))
  {
    var parser := new HeadParser(rules, kind);
    r := parser.Parse(chunks, stop);
    body := None;
    if r.Parsed? {
      var b := IntoBytes(r.cached, r.unread, stop);
      body := Some(b);
    }
  }
}
