/** How the head parser depends on where the reads of a stream are cut (section 2.2 of RFC 9112 speaks
    of a message as one sequence of octets).  The answer is exact: see `ChunkingExact`. */
module HttpChunks {
  import opened Options
  import opened HttpSyntax
  import opened HttpHead

  // ----- More bytes do not change a decision -----

  function HeaderMore(o: HeaderOutcome, more: Bytes): HeaderOutcome {
    if o.Header? then o.(rest := o.rest + more) else o
  }

  /** A header, or a bad one, stays what it is when more bytes follow; a header that needed more bytes
      ends among them. */
  ghost predicate HeaderFollows(before: HeaderOutcome, after: HeaderOutcome, more: Bytes) {
    && (!before.NoHeader? ==> after == HeaderMore(before, more))
    && (before.NoHeader? && after.Header? ==> |after.rest| <= |more|)
  }

  lemma FieldValueConcat(rules: Rules, name: Bytes, field: Bytes, more: Bytes)
    ensures HeaderFollows(FieldValue(rules, name, field), FieldValue(rules, name, field + more), more)
  {
    FindConcat(LineEnd, field, more);
    if Find(LineEnd, field).Some? {
      var m := Find(LineEnd, field).value;
      assert (field + more)[..m] == field[..m] && (field + more)[m..] == field[m..] + more;
    }
  }

  /** The value after the spaces, before and after more bytes arrive. */
  lemma SpacedValueConcat(rules: Rules, name: Bytes, tail: Bytes, more: Bytes)
    ensures HeaderFollows(FieldValue(rules, name, AfterSpaces(tail)),
                          FieldValue(rules, name, AfterSpaces(tail + more)), more)
  {
    AfterSpacesConcat(tail, more);
    var field := AfterSpaces(tail);
    hide AfterSpaces;
    if field == [] {
      assert field + more == more;
      assert FieldValue(rules, name, []).NoHeader?;
    } else {
      FieldValueConcat(rules, name, field, more);
    }
  }

  lemma SplitSlices(line: Bytes, more: Bytes, n: nat)
    requires n < |line|
    ensures (line + more)[..n] == line[..n] && (line + more)[n + 1..] == line[n + 1..] + more
  {
  }

  /** The name ends in `line` already. */
  lemma FieldLineSame(rules: Rules, line: Bytes, all: Bytes, more: Bytes, name: Bytes, tail: Bytes, n: nat)
    requires n < |line| && n < |all| && name == line[..n] && tail == line[n + 1..]
    requires all[..n] == name && all[n + 1..] == tail + more
    requires Find(NameEnd, line) == Some(n) && Find(NameEnd, all) == Some(n)
    ensures HeaderFollows(FieldLine(rules, line), FieldLine(rules, all), more)
  {
    hide Find, AfterSpaces, TrimEnd, FieldValue;
    SpacedValueConcat(rules, TrimEnd(name), tail, more);
  }

  /** The name ends in what follows, and so does the header. */
  lemma FieldLineLater(rules: Rules, line: Bytes, all: Bytes, more: Bytes)
    requires all == line + more && Find(NameEnd, line).None?
    requires Find(NameEnd, all).Some? ==> Find(NameEnd, all).value >= |line|
    ensures HeaderFollows(FieldLine(rules, line), FieldLine(rules, all), more)
  {
    hide Find, AfterSpaces, TrimEnd, FieldValue;
  }

  lemma FieldLineConcat(rules: Rules, line: Bytes, more: Bytes)
    ensures HeaderFollows(FieldLine(rules, line), FieldLine(rules, line + more), more)
  {
    FindConcat(NameEnd, line, more);
    hide FieldLine, HeaderFollows;
    match Find(NameEnd, line)
    case Some(n) =>
      SplitSlices(line, more, n);
      FieldLineSame(rules, line, line + more, more, line[..n], line[n + 1..], n);
    case None => FieldLineLater(rules, line, line + more, more);
  }

  lemma ParseHeaderConcat(rules: Rules, buf: Bytes, more: Bytes)
    ensures HeaderFollows(ParseHeader(rules, buf), ParseHeader(rules, buf + more), more)
  {
    AfterSpacesConcat(buf, more);
    if AfterSpaces(buf) == [] {
      assert AfterSpaces(buf) + more == more;
      assert FieldLine(rules, []).NoHeader?;
    } else {
      FieldLineConcat(rules, AfterSpaces(buf), more);
    }
  }

  function More(o: Outcome, more: Bytes): Outcome {
    match o
    case Fail(e) => o
    case Wait(p, rest) => Wait(p, rest + more)
    case Go(p, rest) => Go(p, rest + more)
  }

  /** Outside the headers: a step that goes on or fails does the same when more bytes follow, and the
      item a waiting step waits for ends among the bytes to come. */
  ghost predicate StepFollows(before: Outcome, after: Outcome, more: Bytes) {
    && (!before.Wait? ==> after == More(before, more))
    && (before.Wait? && after.Go? ==> |after.rest| <= |more|)
  }

  lemma TokenConcat(rules: Rules, p: Parser, buf: Bytes, more: Bytes)
    requires p.phase.AtMethod? || p.phase.AtUri?
    ensures StepFollows(TokenStep(rules, p, buf), TokenStep(rules, p, buf + more), more)
  {
    FindConcat(TokenEnd, buf, more);
    if Find(TokenEnd, buf).Some? {
      var n := Find(TokenEnd, buf).value;
      assert (buf + more)[..n] == buf[..n] && (buf + more)[n..] == buf[n..] + more;
    }
  }

  lemma VersionConcat(p: Parser, b: Bytes, more: Bytes)
    ensures StepFollows(VersionStep(p, b), VersionStep(p, b + more), more)
  {
    if |b| >= 8 { assert (b + more)[..8] == b[..8] && (b + more)[8..] == b[8..] + more; }
  }

  lemma StatusConcat(rules: Rules, p: Parser, b: Bytes, more: Bytes)
    ensures StepFollows(StatusStep(rules, p, b), StatusStep(rules, p, b + more), more)
  {
    if |b| >= 3 { assert (b + more)[..3] == b[..3] && (b + more)[3..] == b[3..] + more; }
  }

  lemma ReasonConcat(p: Parser, b: Bytes, more: Bytes)
    ensures StepFollows(ReasonStep(p, b), ReasonStep(p, b + more), more)
  {
    FindConcat(LineEnd, b, more);
    if Find(LineEnd, b).Some? {
      var n := Find(LineEnd, b).value;
      assert (b + more)[..n] == b[..n] && (b + more)[n..] == b[n..] + more;
    }
  }

  lemma ItemConcat(rules: Rules, p: Parser, b: Bytes, more: Bytes)
    requires !p.phase.Finished? && !p.phase.AtHeaders?
    ensures StepFollows(ItemStep(rules, p, b), ItemStep(rules, p, b + more), more)
  {
    match p.phase
    case AtMethod => TokenConcat(rules, p, b, more);
    case AtUri => TokenConcat(rules, p, b, more);
    case AtVersion => VersionConcat(p, b, more);
    case AtStatus => StatusConcat(rules, p, b, more);
    case AtReason => ReasonConcat(p, b, more);
  }

  /** Outside the headers, spaces may be dropped before or after more bytes arrive. */
  lemma SpacedItemConcat(rules: Rules, p: Parser, buf: Bytes, more: Bytes)
    requires !p.phase.Finished? && !p.phase.AtHeaders?
    ensures StepFollows(Step(rules, p, buf), Step(rules, p, buf + more), more)
    ensures Step(rules, p, buf).Wait? ==>
              Step(rules, p, buf).parser == p
              && Step(rules, p, Step(rules, p, buf).rest + more) == Step(rules, p, buf + more)
  {
    var b := AfterSpaces(buf);
    AfterSpacesConcat(buf, more);
    if b == [] {
      assert b + more == more;
      assert ItemStep(rules, p, []).Wait?;
    } else {
      ItemConcat(rules, p, b, more);
    }
  }

  lemma LoneCr(rules: Rules)
    ensures ParseHeader(rules, [CR]).NoHeader? && ParseHeader(rules, []).NoHeader?
    ensures NewlineAt([CR]) == 0 && RunCount([CR]) == 0 && RunLength([CR]) == 0
  {
    assert AfterSpaces([CR]) == [CR] && Find(NameEnd, [CR]).None?;
  }

  /** A newline run that something else follows is complete. */
  lemma RunSettled(buf: Bytes, more: Bytes)
    requires buf[RunLength(buf)..] != [] && buf[RunLength(buf)..] != [CR]
    ensures RunCount(buf + more) == RunCount(buf) && RunLength(buf + more) == RunLength(buf)
    ensures (buf + more)[RunLength(buf)..] == buf[RunLength(buf)..] + more
  {
    RunConcat(buf, more);
    NoNewlineConcat(buf[RunLength(buf)..], more);
  }

  lemma HeaderConcat(rules: Rules, p: Parser, buf: Bytes, more: Bytes)
    requires p.phase.AtHeaders? && !HeaderStep(rules, p, buf).Wait?
    ensures HeaderStep(rules, p, buf + more) == More(HeaderStep(rules, p, buf), more)
  {
    var rest := buf[RunLength(buf)..];
    LoneCr(rules);
    RunSettled(buf, more);
    ParseHeaderConcat(rules, rest, more);
    AddHeaderMore(p, ParseHeader(rules, rest), rest, more);
  }

  lemma AddHeaderMore(p: Parser, o: HeaderOutcome, rest: Bytes, more: Bytes)
    ensures AddHeader(p, HeaderMore(o, more), rest + more) == More(AddHeader(p, o, rest), more)
  {
  }

  /** A step that goes on or fails does the same when more bytes follow. */
  lemma DecisionConcat(rules: Rules, p: Parser, buf: Bytes, more: Bytes)
    requires !p.phase.Finished? && !Step(rules, p, buf).Wait?
    ensures Step(rules, p, buf + more) == More(Step(rules, p, buf), more)
  {
    if p.phase.AtHeaders? {
      HeaderConcat(rules, p, buf, more);
    } else {
      SpacedItemConcat(rules, p, buf, more);
    }
  }

  // ----- The blank-line terminator -----

  /** The inner loop, given all of `buf` at once, reaches the end of the head. */
  predicate Finishes(rules: Rules, p: Parser, buf: Bytes) {
    var d := Drain(rules, p, buf);
    !p.phase.Finished? && d.Drained? && d.parser.phase.Finished?
  }

  /** Where the newline run that ends the head starts. */
  function TermStart(rules: Rules, p: Parser, buf: Bytes): (t: nat)
    requires Finishes(rules, p, buf)
    ensures t <= |buf|
    decreases PhasesLeft(p.phase), |buf|
  {
    if p.phase.AtHeaders? && RunCount(buf) >= 2 then 0
    else
      var o := Step(rules, p, buf);
      |buf| - |o.rest| + TermStart(rules, o.parser, o.rest)
  }

  /** Where it ends: everything after is the body. */
  function TermEnd(rules: Rules, p: Parser, buf: Bytes): (e: nat)
    requires Finishes(rules, p, buf)
    ensures e <= |buf|
  {
    |buf| - |Drain(rules, p, buf).rest|
  }

  function Min(a: nat, b: nat): nat {
    if a < b then a else b
  }

  function Monus(a: nat, b: nat): nat {
    if a < b then 0 else a - b
  }

  /** The part of `s` between offsets `a` and `b`, as far as `s` goes. */
  function Zone(s: Bytes, a: nat, b: nat): Bytes {
    s[Min(a, |s|)..][..Monus(Min(b, |s|), Min(a, |s|))]
  }

  lemma ZoneAt(s: Bytes, a: nat, b: nat)
    ensures |Zone(s, a, b)| == Monus(Min(b, |s|), Min(a, |s|))
    ensures forall i | 0 <= i < |Zone(s, a, b)| :: Zone(s, a, b)[i] == s[Min(a, |s|) + i]
  {
  }

  lemma ZoneConcat(s: Bytes, t: Bytes, a: nat, b: nat)
    ensures Zone(s + t, a, b) == Zone(s, a, b) + Zone(t, Monus(a, |s|), Monus(b, |s|))
    ensures Lf(Zone(s + t, a, b)) == Lf(Zone(s, a, b)) + Lf(Zone(t, Monus(a, |s|), Monus(b, |s|)))
  {
    var l, r, all := Zone(s, a, b), Zone(t, Monus(a, |s|), Monus(b, |s|)), Zone(s + t, a, b);
    ZoneAt(s, a, b);
    ZoneAt(t, Monus(a, |s|), Monus(b, |s|));
    ZoneAt(s + t, a, b);
    hide Zone, Lf;
    assert |all| == |l| + |r|;
    forall i | 0 <= i < |all| ensures all[i] == (l + r)[i] {
      assert all[i] == (s + t)[Min(a, |s + t|) + i];
    }
    assert all == l + r;
    LfConcat(l, r);
  }

  predicate Ends(r: Bytes, s: Bytes) {
    |r| <= |s| && s[|s| - |r|..] == r
  }

  lemma EndsTrans(r: Bytes, s: Bytes, t: Bytes)
    requires Ends(r, s) && Ends(s, t)
    ensures Ends(r, t)
  {
    assert t[|t| - |r|..] == t[|t| - |s|..][|s| - |r|..];
  }

  lemma DropEnds(s: Bytes, n: nat)
    requires n <= |s|
    ensures Ends(s[n..], s)
  {
  }

  lemma AfterSpacesEnds(s: Bytes)
    ensures Ends(AfterSpaces(s), s)
  {
    DropEnds(s, SkipSpaces(s));
  }

  lemma FieldValueSuffix(rules: Rules, name: Bytes, field: Bytes)
    ensures FieldValue(rules, name, field).Header? ==> Ends(FieldValue(rules, name, field).rest, field)
  {
    if Find(LineEnd, field).Some? {
      DropEnds(field, Find(LineEnd, field).value);
    }
    hide Ends, Find, TrimEnd;
  }

  lemma FieldLineSuffix(rules: Rules, line: Bytes)
    ensures FieldLine(rules, line).Header? ==> Ends(FieldLine(rules, line).rest, line)
  {
    hide Ends, Find, TrimEnd, FieldValue, AfterSpaces;
    match Find(NameEnd, line) {
      case None =>
      case Some(n) =>
        var name, tail := TrimEnd(line[..n]), line[n + 1..];
        DropEnds(line, n + 1);
        AfterSpacesEnds(tail);
        FieldValueSuffix(rules, name, AfterSpaces(tail));
        EndsTrans(AfterSpaces(tail), tail, line);
        if FieldLine(rules, line).Header? {
          EndsTrans(FieldLine(rules, line).rest, AfterSpaces(tail), line);
        }
    }
  }

  lemma HeaderSuffix(rules: Rules, buf: Bytes)
    ensures ParseHeader(rules, buf).Header? ==> Ends(ParseHeader(rules, buf).rest, buf)
  {
    var line := AfterSpaces(buf);
    assert Ends(line, buf);
    FieldLineSuffix(rules, line);
    if ParseHeader(rules, buf).Header? { EndsTrans(ParseHeader(rules, buf).rest, line, buf); }
  }

  lemma ItemSuffix(rules: Rules, p: Parser, b: Bytes)
    requires !p.phase.Finished? && !p.phase.AtHeaders?
    ensures var o := ItemStep(rules, p, b); !o.Fail? ==> Ends(o.rest, b)
  {
  }

  /** What a step leaves is the end of what it was given. */
  lemma StepSuffix(rules: Rules, p: Parser, buf: Bytes)
    requires !p.phase.Finished?
    ensures var o := Step(rules, p, buf); !o.Fail? ==> Ends(o.rest, buf)
  {
    var o := Step(rules, p, buf);
    if p.phase.AtHeaders? {
      var rest := buf[RunLength(buf)..];
      assert Ends(rest, buf);
      HeaderSuffix(rules, rest);
      if o.Go? { EndsTrans(o.rest, rest, buf); }
    } else {
      var b := AfterSpaces(buf);
      assert Ends(b, buf);
      ItemSuffix(rules, p, b);
      if !o.Fail? { EndsTrans(o.rest, b, buf); }
    }
  }

  /** Byte conservation in the inner loop. */
  lemma {:induction false} DrainSuffix(rules: Rules, p: Parser, buf: Bytes)
    ensures var d := Drain(rules, p, buf); d.Drained? ==> Ends(d.rest, buf)
    decreases PhasesLeft(p.phase), |buf|
  {
    if !p.phase.Finished? && buf != [] {
      var o := Step(rules, p, buf);
      StepSuffix(rules, p, buf);
      if o.Go? {
        DrainSuffix(rules, o.parser, o.rest);
        var d := Drain(rules, o.parser, o.rest);
        if d.Drained? { EndsTrans(d.rest, o.rest, buf); }
      }
    }
  }

  /** The whole newline run at `t` ends at `e`, and it is a blank line. */
  ghost predicate BlankLine(buf: Bytes, t: nat, e: nat) {
    t < e <= |buf| && RunCount(buf[t..]) >= 2 && e == t + RunLength(buf[t..])
  }

  lemma BlankLineShift(buf: Bytes, rest: Bytes, t: nat, e: nat, t': nat, e': nat)
    requires Ends(rest, buf) && BlankLine(rest, t, e)
    requires t' == |buf| - |rest| + t && e' == |buf| - |rest| + e
    ensures BlankLine(buf, t', e')
  {
    assert buf[t'..] == rest[t..];
  }

  lemma BlankLineHere(buf: Bytes)
    requires RunCount(buf) >= 2
    ensures BlankLine(buf, 0, RunLength(buf))
  {
    assert buf[0..] == buf;
  }

  /** A blank line holds at least two line feeds and only line-ending bytes, the last one a line feed. */
  lemma BlankLineBytes(buf: Bytes, t: nat, e: nat)
    requires BlankLine(buf, t, e)
    ensures Lf(Zone(buf, t, e)) == RunCount(buf[t..]) >= 2
    ensures forall i | t <= i < e :: LineEnd.At(buf[i])
    ensures buf[e - 1] == LF
  {
    var s := buf[t..];
    RunBytes(s);
    assert Zone(buf, t, e) == s[..RunLength(s)];
    assert forall i | t <= i < e :: buf[i] == s[i - t];
  }

  /** The head ends here. */
  predicate AtBreak(p: Parser, buf: Bytes) {
    p.phase.AtHeaders? && RunCount(buf) >= 2
  }

  /** Until the head ends, a parse that finishes goes on step by step. */
  lemma FinishesStep(rules: Rules, p: Parser, buf: Bytes)
    requires Finishes(rules, p, buf) && !AtBreak(p, buf)
    ensures
      var o := Step(rules, p, buf);
      && o.Go? && Ends(o.rest, buf) && Finishes(rules, o.parser, o.rest)
      && Drain(rules, p, buf) == Drain(rules, o.parser, o.rest)
      && TermStart(rules, p, buf) == |buf| - |o.rest| + TermStart(rules, o.parser, o.rest)
      && TermEnd(rules, p, buf) == |buf| - |o.rest| + TermEnd(rules, o.parser, o.rest)
  {
    StepSuffix(rules, p, buf);
  }

  lemma GoIsNotBreak(rules: Rules, p: Parser, buf: Bytes)
    requires !p.phase.Finished? && Step(rules, p, buf).Go?
    ensures !AtBreak(p, buf)
  {
  }

  lemma DrainGo(rules: Rules, p: Parser, buf: Bytes, q: Parser, rest: Bytes)
    requires !p.phase.Finished? && buf != [] && Step(rules, p, buf) == Go(q, rest)
    ensures Drain(rules, p, buf) == Drain(rules, q, rest)
  {
    hide Step;
  }

  lemma TermGo(rules: Rules, p: Parser, buf: Bytes, q: Parser, rest: Bytes)
    requires Finishes(rules, p, buf) && Finishes(rules, q, rest)
    requires !AtBreak(p, buf) && Step(rules, p, buf) == Go(q, rest)
    ensures TermStart(rules, p, buf) == |buf| - |rest| + TermStart(rules, q, rest)
  {
    hide Step, Drain, RunCount;
  }

  /** A step that goes on to a parse that finishes. */
  lemma FinishesAfter(rules: Rules, p: Parser, buf: Bytes, q: Parser, rest: Bytes)
    requires !p.phase.Finished? && buf != [] && Step(rules, p, buf) == Go(q, rest) && Finishes(rules, q, rest)
    ensures Finishes(rules, p, buf) && Drain(rules, p, buf) == Drain(rules, q, rest)
    ensures TermStart(rules, p, buf) == |buf| - |rest| + TermStart(rules, q, rest)
  {
    hide Step, Drain, TermStart, AtBreak;
    GoIsNotBreak(rules, p, buf);
    DrainGo(rules, p, buf, q, rest);
    TermGo(rules, p, buf, q, rest);
  }

  lemma FinishesHere(rules: Rules, p: Parser, buf: Bytes)
    requires AtBreak(p, buf)
    ensures Finishes(rules, p, buf)
    ensures Drain(rules, p, buf) == Drained(p.Next(p.head), buf[RunLength(buf)..])
    ensures TermStart(rules, p, buf) == 0 && TermEnd(rules, p, buf) == RunLength(buf)
  {
  }

  /** The terminator is a run of two or more newlines. */
  lemma {:induction false} TerminatorShape(rules: Rules, p: Parser, buf: Bytes)
    requires Finishes(rules, p, buf)
    ensures BlankLine(buf, TermStart(rules, p, buf), TermEnd(rules, p, buf))
    decreases PhasesLeft(p.phase), |buf|
  {
    if AtBreak(p, buf) {
      FinishesHere(rules, p, buf);
      BlankLineHere(buf);
    } else {
      var o := Step(rules, p, buf);
      FinishesStep(rules, p, buf);
      TerminatorShape(rules, o.parser, o.rest);
      BlankLineShift(buf, o.rest, TermStart(rules, o.parser, o.rest), TermEnd(rules, o.parser, o.rest),
                     TermStart(rules, p, buf), TermEnd(rules, p, buf));
    }
  }

  // ----- One read -----

  /** The parser, stopped with `b` in its buffer, will still reach the outcome `w`; none of the
      terminator's line feeds is in `b`, and the terminator starts `ahead` bytes into what is unread. */
  ghost predicate Recovers(rules: Rules, q: Parser, b: Bytes, rem: Bytes, w: Drained, ahead: nat) {
    && Finishes(rules, q, b + rem) && Drain(rules, q, b + rem) == w
    && Lf(Zone(b, TermStart(rules, q, b + rem), TermEnd(rules, q, b + rem))) == 0
    && Monus(TermStart(rules, q, b + rem), |b|) == ahead
  }

  /** The parser has eaten all but one newline of the terminator and no longer sees a blank line. */
  ghost predicate Stranded(q: Parser, b: Bytes, rem: Bytes, w: Drained, ahead: nat, until: nat) {
    && q.phase.AtHeaders? && (b == [] || b == [CR]) && RunCount(b + rem) == 1
    && w.Drained? && RunLength(b + rem) + |w.rest| == |b + rem|
    && Lf(Zone(rem, ahead, until)) == 1
  }

  /** What draining a buffer does, when draining it with the unread bytes `rem` would finish with `w`.
      Of the terminator, `z` line feeds are in the buffer; it starts `ahead` and ends `until` bytes into
      `rem`, if it does not end in the buffer already. */
  ghost predicate ReadOutcome(rules: Rules, d: Drained, w: Drained, rem: Bytes, z: nat, ahead: nat, until: int) {
    && d.Drained? && w.Drained?
    && if until <= 0 then z >= 2 && d.parser == w.parser && d.rest + rem == w.rest
       else if z >= 2 then d.parser.phase.Finished? && |d.rest| + |rem| > |w.rest|
       else
         !d.parser.phase.Finished? &&
         (Recovers(rules, d.parser, d.rest, rem, w, ahead)
          || (z == 1 && Stranded(d.parser, d.rest, rem, w, ahead, until)))
  }

  function InBuffer(rules: Rules, p: Parser, y: Bytes, rem: Bytes): nat
    requires Finishes(rules, p, y + rem)
  {
    Lf(Zone(y, TermStart(rules, p, y + rem), TermEnd(rules, p, y + rem)))
  }

  function Ahead(rules: Rules, p: Parser, y: Bytes, rem: Bytes): nat
    requires Finishes(rules, p, y + rem)
  {
    Monus(TermStart(rules, p, y + rem), |y|)
  }

  function Until(rules: Rules, p: Parser, y: Bytes, rem: Bytes): int
    requires Finishes(rules, p, y + rem)
  {
    TermEnd(rules, p, y + rem) - |y|
  }

  /** Taking a step moves none of these. */
  lemma ZoneShift(x: Bytes, y: Bytes, t: nat, e: nat, t': nat, e': nat)
    requires Ends(y, x) && t' == |x| - |y| + t && e' == |x| - |y| + e
    ensures Zone(x, t', e') == Zone(y, t, e)
    ensures Monus(t', |x|) == Monus(t, |y|) && e' - |x| == e - |y|
  {
  }

  /** A step that waited inside an item which ends among the unread bytes. */
  lemma LateItem(rules: Rules, p: Parser, y: Bytes, rem: Bytes, b: Bytes)
    requires Finishes(rules, p, y + rem) && !AtBreak(p, y + rem)
    requires Step(rules, p, b + rem) == Step(rules, p, y + rem) && b + rem != [] && !AtBreak(p, b + rem)
    requires Step(rules, p, y + rem).Go? ==> |Step(rules, p, y + rem).rest| <= |rem|
    ensures InBuffer(rules, p, y, rem) == 0 && Until(rules, p, y, rem) > 0
    ensures Recovers(rules, p, b, rem, Drain(rules, p, y + rem), Ahead(rules, p, y, rem))
  {
    FinishesStep(rules, p, y + rem);
    TerminatorShape(rules, p, y + rem);
    assert Drain(rules, p, b + rem) == Drain(rules, p, y + rem);
    FinishesStep(rules, p, b + rem);
    assert Zone(y, TermStart(rules, p, y + rem), TermEnd(rules, p, y + rem)) == [];
    assert Zone(b, TermStart(rules, p, b + rem), TermEnd(rules, p, b + rem)) == [];
  }

  lemma WholeZone(y: Bytes, e: nat)
    requires e > |y|
    ensures Zone(y, 0, e) == y
  {
  }

  /** The blank line is complete in the buffer, or goes on in the unread bytes. */
  lemma BreakOutcome(rules: Rules, q: Parser, y: Bytes, rem: Bytes)
    requires RunCount(y) >= 2 && q.phase.Finished?
    ensures RunCount(y + rem) >= 2
    ensures ReadOutcome(rules, Drained(q, y[RunLength(y)..]), Drained(q, (y + rem)[RunLength(y + rem)..]), rem,
                        Lf(Zone(y, 0, RunLength(y + rem))), 0, RunLength(y + rem) - |y|)
  {
    var len := RunLength(y);
    var b := y[len..];
    hide RunCount, RunLength, Lf, Zone, ReadOutcome, Recovers, Stranded;
    RunConcat(y, rem);
    if RunCount(b + rem) == 0 {
      DropFront(y, rem, len);
      NoRun(b + rem);
      RunBytes(y);
      FrontZone(y, len);
      EndedInBuffer(q, b, rem, RunCount(y), len - |y|, rules);
    } else {
      RunTail(y, rem, b);
      WholeZone(y, RunLength(y + rem));
      EndedEarly(rules, q, b, rem, (y + rem)[RunLength(y + rem)..], RunCount(y), RunLength(y + rem) - |y|);
    }
  }

  lemma DropFront(y: Bytes, rem: Bytes, len: nat)
    requires len <= |y|
    ensures (y + rem)[len..] == y[len..] + rem
  {
  }

  lemma EndedInBuffer(q: Parser, b: Bytes, rem: Bytes, z: nat, until: int, rules: Rules)
    requires z >= 2 && until <= 0
    ensures ReadOutcome(rules, Drained(q, b), Drained(q, b + rem), rem, z, 0, until)
  {
  }

  lemma EndedEarly(rules: Rules, q: Parser, b: Bytes, rem: Bytes, rest: Bytes, z: nat, until: int)
    requires z >= 2 && until > 0 && q.phase.Finished? && |b| + |rem| > |rest|
    ensures ReadOutcome(rules, Drained(q, b), Drained(q, rest), rem, z, 0, until)
  {
  }

  lemma FrontZone(y: Bytes, len: nat)
    requires len <= |y|
    ensures Zone(y, 0, len) == y[..len]
  {
  }

  lemma BreakCase(rules: Rules, p: Parser, y: Bytes, rem: Bytes)
    requires AtBreak(p, y) && Finishes(rules, p, y + rem)
    ensures ReadOutcome(rules, Drain(rules, p, y), Drain(rules, p, y + rem), rem,
                        InBuffer(rules, p, y, rem), Ahead(rules, p, y, rem), Until(rules, p, y, rem))
  {
    hide Drain, Step, HeaderStep, RunCount, RunLength, Lf, Zone, ReadOutcome;
    BreakOutcome(rules, p.Next(p.head), y, rem);
    FinishesHere(rules, p, y);
    FinishesHere(rules, p, y + rem);
  }

  /** A blank line of which the buffer holds at most one newline. */
  lemma SplitBreak(y: Bytes, rem: Bytes, b: Bytes)
    requires RunCount(y) < 2 && b == y[RunLength(y)..] && RunCount(y + rem) >= 2
    ensures RunCount(b + rem) > 0 && RunLength(y + rem) > |y| && Lf(Zone(y, 0, RunLength(y + rem))) == RunCount(y)
    ensures RunLength(y + rem) == RunLength(y) + RunLength(b + rem) && y + rem == y[..RunLength(y)] + (b + rem)
    ensures (b == [] || b == [CR]) && Lf(Zone(b, 0, RunLength(b + rem))) == 0
    ensures RunCount(y + rem) == RunCount(y) + RunCount(b + rem)
  {
    hide RunCount, RunLength, Lf, Zone, NewlineAt;
    RunConcat(y, rem);
    RunTail(y, rem, b);
    WholeZone(y, RunLength(y + rem));
    SplitNewline(b, rem);
    WholeZone(b, RunLength(b + rem));
    assert y == y[..RunLength(y)] + b;
  }

  /** The line feeds of a blank line are shared between the buffer and the unread bytes. */
  lemma SharedLineFeeds(y: Bytes, rem: Bytes)
    requires RunCount(y + rem) >= 2 && RunLength(y + rem) > |y|
    ensures Lf(Zone(y, 0, RunLength(y + rem))) + Lf(Zone(rem, 0, RunLength(y + rem) - |y|)) == RunCount(y + rem)
  {
    hide RunCount, RunLength, Lf, Zone, NewlineAt;
    BlankLineHere(y + rem);
    BlankLineBytes(y + rem, 0, RunLength(y + rem));
    assert (y + rem)[0..] == y + rem;
    ZoneConcat(y, rem, 0, RunLength(y + rem));
  }

  lemma SplitBreakCase(rules: Rules, p: Parser, y: Bytes, rem: Bytes, b: Bytes)
    requires p.phase.AtHeaders? && RunCount(y) < 2 && b == y[RunLength(y)..] && AtBreak(p, y + rem)
    requires Finishes(rules, p, y + rem)
    ensures InBuffer(rules, p, y, rem) == RunCount(y) && Until(rules, p, y, rem) > 0
    ensures
      var w, ahead := Drain(rules, p, y + rem), Ahead(rules, p, y, rem);
      || Recovers(rules, p, b, rem, w, ahead)
      || (RunCount(y) == 1 && Stranded(p, b, rem, w, ahead, Until(rules, p, y, rem)))
  {
    hide Drain, Step, RunCount, RunLength, Lf, Zone;
    SplitBreak(y, rem, b);
    SharedLineFeeds(y, rem);
    FinishesHere(rules, p, y + rem);
    assert (y + rem)[RunLength(y + rem)..] == (b + rem)[RunLength(b + rem)..];
    if RunCount(b + rem) >= 2 {
      FinishesHere(rules, p, b + rem);
    }
  }

  /** One newline before a header line may be skipped before or after the line arrives. */
  lemma SkippedNewline(rules: Rules, p: Parser, y: Bytes, rem: Bytes, b: Bytes)
    requires p.phase.AtHeaders? && b == y[RunLength(y)..] && RunCount(b + rem) == 0 && RunCount(y) < 2
    ensures HeaderStep(rules, p, b + rem) == HeaderStep(rules, p, y + rem)
    ensures HeaderStep(rules, p, b + rem) == AddHeader(p, ParseHeader(rules, b + rem), b + rem)
  {
    hide RunCount, RunLength, ParseHeader;
    RunConcat(y, rem);
    NoRun(b + rem);
    assert (y + rem)[RunLength(y)..] == b + rem && (b + rem)[0..] == b + rem;
  }

  /** A header line that waits for more bytes, with no further newline before it. */
  lemma LateLine(rules: Rules, p: Parser, y: Bytes, rem: Bytes, b: Bytes)
    requires p.phase.AtHeaders? && b == y[RunLength(y)..] && RunCount(y) < 2
    requires ParseHeader(rules, b).NoHeader? && RunCount(b + rem) == 0
    requires Finishes(rules, p, y + rem) && !AtBreak(p, y + rem)
    ensures InBuffer(rules, p, y, rem) == 0 && Until(rules, p, y, rem) > 0
    ensures Recovers(rules, p, b, rem, Drain(rules, p, y + rem), Ahead(rules, p, y, rem))
  {
    SkippedNewline(rules, p, y, rem, b);
    ParseHeaderConcat(rules, b, rem);
    assert b + rem != [] by {
      FinishesStep(rules, p, y + rem);
      LoneCr(rules);
    }
    LateItem(rules, p, y, rem, b);
  }

  /** A header line that waits for the rest of the newline before it. */
  lemma LateNewline(rules: Rules, p: Parser, y: Bytes, rem: Bytes)
    requires p.phase.AtHeaders? && RunCount(y) == 0 && RunCount(y + rem) == 1
    requires Finishes(rules, p, y + rem)
    ensures InBuffer(rules, p, y, rem) == 0 && Until(rules, p, y, rem) > 0
    ensures Recovers(rules, p, y, rem, Drain(rules, p, y + rem), Ahead(rules, p, y, rem))
  {
    NoRun(y);
    assert y == y[0..];
    RunTail(y, rem, y);
    FinishesStep(rules, p, y + rem);
    LateItem(rules, p, y, rem, y);
  }

  /** Every header step that waits. */
  lemma HeaderWaitCase(rules: Rules, p: Parser, y: Bytes, rem: Bytes)
    requires p.phase.AtHeaders? && y != [] && !AtBreak(p, y) && HeaderStep(rules, p, y).Wait?
    requires Finishes(rules, p, y + rem)
    ensures ReadOutcome(rules, Drain(rules, p, y), Drain(rules, p, y + rem), rem,
                        InBuffer(rules, p, y, rem), Ahead(rules, p, y, rem), Until(rules, p, y, rem))
  {
    var b := y[RunLength(y)..];
    assert Drain(rules, p, y) == Drained(p, b);
    RunConcat(y, rem);
    if AtBreak(p, y + rem) {
      SplitBreakCase(rules, p, y, rem, b);
    } else if RunCount(b + rem) == 0 {
      LateLine(rules, p, y, rem, b);
    } else {
      NoRun(y);
      assert b == y;
      LateNewline(rules, p, y, rem);
    }
  }

  lemma ItemWaitCase(rules: Rules, p: Parser, y: Bytes, rem: Bytes)
    requires !p.phase.Finished? && !p.phase.AtHeaders? && y != [] && Step(rules, p, y).Wait?
    requires Finishes(rules, p, y + rem)
    ensures ReadOutcome(rules, Drain(rules, p, y), Drain(rules, p, y + rem), rem,
                        InBuffer(rules, p, y, rem), Ahead(rules, p, y, rem), Until(rules, p, y, rem))
  {
    var b := Step(rules, p, y).rest;
    SpacedItemConcat(rules, p, y, rem);
    FinishesStep(rules, p, y + rem);
    assert b + rem != [];
    LateItem(rules, p, y, rem, b);
  }

  /** A step that goes on leaves the question to the next. */
  lemma GoCase(rules: Rules, p: Parser, y: Bytes, rem: Bytes)
    requires !p.phase.Finished? && y != [] && Step(rules, p, y).Go? && Finishes(rules, p, y + rem)
    ensures
      var o := Step(rules, p, y);
      && Finishes(rules, o.parser, o.rest + rem)
      && Drain(rules, p, y) == Drain(rules, o.parser, o.rest)
      && Drain(rules, p, y + rem) == Drain(rules, o.parser, o.rest + rem)
      && InBuffer(rules, p, y, rem) == InBuffer(rules, o.parser, o.rest, rem)
      && Ahead(rules, p, y, rem) == Ahead(rules, o.parser, o.rest, rem)
      && Until(rules, p, y, rem) == Until(rules, o.parser, o.rest, rem)
  {
    var o := Step(rules, p, y);
    DecisionConcat(rules, p, y, rem);
    assert !AtBreak(p, y + rem);
    FinishesStep(rules, p, y + rem);
    StepSuffix(rules, p, y);
    ZoneShift(y, o.rest, TermStart(rules, o.parser, o.rest + rem), TermEnd(rules, o.parser, o.rest + rem),
              TermStart(rules, p, y + rem), TermEnd(rules, p, y + rem));
  }

  lemma NothingCase(rules: Rules, p: Parser, rem: Bytes)
    requires Finishes(rules, p, [] + rem)
    ensures ReadOutcome(rules, Drain(rules, p, []), Drain(rules, p, [] + rem), rem,
                        InBuffer(rules, p, [], rem), Ahead(rules, p, [], rem), Until(rules, p, [], rem))
  {
    TerminatorShape(rules, p, [] + rem);
    assert Zone([], TermStart(rules, p, [] + rem), TermEnd(rules, p, [] + rem)) == [];
  }

  /** What one read does to a parse that would finish on the whole input. */
  lemma {:induction false} OneRead(rules: Rules, p: Parser, y: Bytes, rem: Bytes)
    requires Finishes(rules, p, y + rem)
    ensures ReadOutcome(rules, Drain(rules, p, y), Drain(rules, p, y + rem), rem,
                        InBuffer(rules, p, y, rem), Ahead(rules, p, y, rem), Until(rules, p, y, rem))
    decreases PhasesLeft(p.phase), |y|
  {
    if y == [] {
      NothingCase(rules, p, rem);
    } else if Step(rules, p, y).Go? {
      GoCase(rules, p, y, rem);
      OneRead(rules, Step(rules, p, y).parser, Step(rules, p, y).rest, rem);
    } else if Step(rules, p, y).Fail? {
      DecisionConcat(rules, p, y, rem);
      assert false;
    } else if AtBreak(p, y) {
      BreakCase(rules, p, y, rem);
    } else if p.phase.AtHeaders? {
      HeaderWaitCase(rules, p, y, rem);
    } else {
      ItemWaitCase(rules, p, y, rem);
    }
  }

  // ----- All reads -----

  /** The cut of the stream into reads respects the terminator, which starts `a` and ends `b` bytes from
      here: the read that brings its last byte brings at least two of its line feeds, and every read
      before that brings at most one. */
  predicate WellCut(chunks: seq<Bytes>, a: nat, b: nat) {
    && chunks != []
    && var z := Lf(Zone(chunks[0], a, b));
       if |chunks[0]| < b then z <= 1 && WellCut(chunks[1..], Monus(a, |chunks[0]|), b - |chunks[0]|)
       else z >= 2
  }

  lemma {:induction false} WellCutNeedsTwo(chunks: seq<Bytes>, a: nat, b: nat)
    requires WellCut(chunks, a, b)
    ensures Lf(Zone(Concat(chunks), a, b)) >= 2
  {
    var c, rest := chunks[0], Concat(chunks[1..]);
    ZoneConcat(c, rest, a, b);
    if |c| < b {
      WellCutNeedsTwo(chunks[1..], Monus(a, |c|), b - |c|);
    }
  }

  function Left(r: Result): Bytes
    requires r.Parsed?
  {
    r.cached + Concat(r.unread)
  }

  /** Ending the head takes at least a blank line. */
  lemma {:induction false} DrainEats(rules: Rules, p: Parser, buf: Bytes)
    requires Finishes(rules, p, buf)
    ensures |Drain(rules, p, buf).rest| + 2 <= |buf|
  {
    TerminatorShape(rules, p, buf);
    BlankLineBytes(buf, TermStart(rules, p, buf), TermEnd(rules, p, buf));
  }

  lemma {:induction false} FeedEats(rules: Rules, p: Parser, buf: Bytes, chunks: seq<Bytes>, stop: Error)
    requires !p.phase.Finished? && Feed(rules, p, buf, chunks, stop).Parsed?
    ensures |Left(Feed(rules, p, buf, chunks, stop))| + 2 <= |buf| + |Concat(chunks)|
    decreases |chunks|
  {
    var y := buf + chunks[0];
    var d := Drain(rules, p, y);
    if d.parser.phase.Finished? {
      DrainEats(rules, p, y);
    } else {
      FeedEats(rules, d.parser, d.rest, chunks[1..], stop);
    }
  }

  /** One turn of the outer loop. */
  lemma FeedTurn(rules: Rules, p: Parser, buf: Bytes, chunks: seq<Bytes>, stop: Error)
    requires !p.phase.Finished?
    ensures chunks == [] ==> Feed(rules, p, buf, chunks, stop) == Rejected(stop)
    ensures chunks != [] && chunks[0] == [] ==> Feed(rules, p, buf, chunks, stop) == Rejected(Eof)
    ensures chunks != [] && chunks[0] != [] ==>
              var d := Drain(rules, p, buf + chunks[0]);
              Feed(rules, p, buf, chunks, stop)
              == if d.Failed? then Rejected(d.error) else Feed(rules, d.parser, d.rest, chunks[1..], stop)
  {
  }

  /** A parse of reads that succeeds took its first read. */
  lemma FeedTakes(rules: Rules, p: Parser, buf: Bytes, chunks: seq<Bytes>, stop: Error)
    requires !p.phase.Finished? && Feed(rules, p, buf, chunks, stop).Parsed?
    ensures chunks != [] && chunks[0] != [] && Drain(rules, p, buf + chunks[0]).Drained?
    ensures var d := Drain(rules, p, buf + chunks[0]);
            Feed(rules, p, buf, chunks, stop) == Feed(rules, d.parser, d.rest, chunks[1..], stop)
  {
  }

  lemma ConcatFirst(buf: Bytes, chunks: seq<Bytes>)
    requires chunks != []
    ensures (buf + chunks[0]) + Concat(chunks[1..]) == buf + Concat(chunks)
    ensures |buf + chunks[0]| + |Concat(chunks[1..])| == |buf| + |Concat(chunks)|
  {
    var c, rem := chunks[0], Concat(chunks[1..]);
    assert Concat(chunks) == c + rem;
    hide Concat;
    assert (buf + c) + rem == buf + (c + rem);
  }

  /** A read that completes no newline of the run leaves the parser where it was. */
  lemma StillStranded(rules: Rules, p: Parser, y: Bytes, rem: Bytes)
    requires p.phase.AtHeaders? && RunCount(y + rem) == 1 && RunCount(y) == 0
    ensures (y == [] || y == [CR]) && Drain(rules, p, y) == Drained(p, y)
  {
    NoRun(y);
    SplitNewline(y, rem);
    LoneCr(rules);
    assert [CR][0..] == [CR];
  }

  /** A stranded parser, if it ever ends, ends later than the whole-input parse. */
  lemma {:induction false} StrandedOverreads(rules: Rules, p: Parser, buf: Bytes, chunks: seq<Bytes>, stop: Error)
    requires p.phase.AtHeaders? && RunCount(buf + Concat(chunks)) == 1
    requires buf == [] || buf == [CR]
    requires Feed(rules, p, buf, chunks, stop).Parsed?
    ensures |Left(Feed(rules, p, buf, chunks, stop))| + RunLength(buf + Concat(chunks)) < |buf| + |Concat(chunks)|
    decreases |chunks|
  {
    hide Feed, Drain, RunCount, RunLength, Left;
    FeedTakes(rules, p, buf, chunks, stop);
    ConcatFirst(buf, chunks);
    var y, rem := buf + chunks[0], Concat(chunks[1..]);
    hide Concat;
    RunConcat(y, rem);
    if RunCount(y) == 1 {
      SkippedOne(rules, p, y, rem, chunks, stop);
    } else {
      StillStranded(rules, p, y, rem);
      StrandedOverreads(rules, p, y, chunks[1..], stop);
    }
  }

  lemma SkippedOne(rules: Rules, p: Parser, y: Bytes, rem: Bytes, chunks: seq<Bytes>, stop: Error)
    requires p.phase.AtHeaders? && RunCount(y) == 1 && RunCount(y + rem) == 1
    requires chunks != [] && rem == Concat(chunks[1..])
    requires Drain(rules, p, y).Drained?
    requires
      var d := Drain(rules, p, y);
      Feed(rules, d.parser, d.rest, chunks[1..], stop).Parsed?
    ensures
      var d := Drain(rules, p, y);
      |Left(Feed(rules, d.parser, d.rest, chunks[1..], stop))| + RunLength(y + rem) < |y + rem|
  {
    var d, o := Drain(rules, p, y), Step(rules, p, y);
    var b := y[RunLength(y)..];
    RunConcat(y, rem);
    NoRun(b + rem);
    ParseHeaderShorter(rules, b);
    if d.parser.phase.Finished? {
      DrainEats(rules, o.parser, o.rest);
    } else {
      FeedEats(rules, d.parser, d.rest, chunks[1..], stop);
    }
  }

  lemma ParseHeaderShorter(rules: Rules, b: Bytes)
    ensures ParseHeader(rules, b).Header? ==> |ParseHeader(rules, b).rest| < |b|
  {
  }

  /** The parse of the reads gives the head and the remaining bytes of the whole-input parse `w`. */
  predicate SameResult(r: Result, w: Drained)
    requires w.Drained?
  {
    r.Parsed? && r.head == w.parser.head && Left(r) == w.rest
  }

  /** How the terminator lies, seen from the end of a read instead of its start. */
  lemma ReadShift(rules: Rules, p: Parser, buf: Bytes, c: Bytes, rem: Bytes)
    requires Finishes(rules, p, buf + (c + rem)) && InBuffer(rules, p, buf, c + rem) == 0
    requires Until(rules, p, buf, c + rem) > 0
    ensures Finishes(rules, p, (buf + c) + rem)
    ensures Drain(rules, p, (buf + c) + rem) == Drain(rules, p, buf + (c + rem))
    ensures
      var a, u := Ahead(rules, p, buf, c + rem), Until(rules, p, buf, c + rem);
      && InBuffer(rules, p, buf + c, rem) == Lf(Zone(c, a, u))
      && Ahead(rules, p, buf + c, rem) == Monus(a, |c|)
      && Until(rules, p, buf + c, rem) == u - |c|
  {
    hide Drain, TermStart, TermEnd, Lf, Zone, Finishes, Monus;
    var all := buf + (c + rem);
    Regroup(buf, c, rem);
    ZoneConcat(buf, c, TermStart(rules, p, all), TermEnd(rules, p, all));
    MonusTwice(TermStart(rules, p, all), |buf|, |c|);
    Offset(TermEnd(rules, p, all), |buf|);
  }

  lemma Regroup(a: Bytes, b: Bytes, c: Bytes)
    ensures (a + b) + c == a + (b + c) && |a + b| == |a| + |b|
  {
  }

  lemma MonusTwice(t: nat, x: nat, y: nat)
    ensures Monus(Monus(t, x), y) == Monus(t, x + y)
  {
  }

  lemma Offset(e: nat, x: nat)
    ensures e > x ==> Monus(e, x) == e - x
  {
  }

  lemma StrandedCase(rules: Rules, q: Parser, b: Bytes, chunks: seq<Bytes>, w: Drained, a: nat, u: nat, stop: Error)
    requires Stranded(q, b, Concat(chunks), w, a, u)
    ensures !SameResult(Feed(rules, q, b, chunks, stop), w) && !WellCut(chunks, a, u)
  {
    if WellCut(chunks, a, u) { WellCutNeedsTwo(chunks, a, u); }
    if Feed(rules, q, b, chunks, stop).Parsed? {
      StrandedOverreads(rules, q, b, chunks, stop);
    }
  }

  /** After a read that did not end the head, the outcome is that of the remaining reads. */
  lemma FeedStep(rules: Rules, p: Parser, buf: Bytes, chunks: seq<Bytes>, d: Drained, stop: Error)
    requires !p.phase.Finished? && chunks != [] && chunks[0] != []
    requires d == Drain(rules, p, buf + chunks[0]) && d.Drained?
    ensures Feed(rules, p, buf, chunks, stop) == Feed(rules, d.parser, d.rest, chunks[1..], stop)
    ensures d.parser.phase.Finished? ==>
              Feed(rules, p, buf, chunks, stop) == Parsed(d.parser.head, d.rest, chunks[1..])
  {
  }

  lemma {:induction false} FeedExact(rules: Rules, p: Parser, buf: Bytes, chunks: seq<Bytes>, stop: Error)
    requires NonEmpty(chunks) && Finishes(rules, p, buf + Concat(chunks))
    requires InBuffer(rules, p, buf, Concat(chunks)) == 0 && Until(rules, p, buf, Concat(chunks)) > 0
    ensures SameResult(Feed(rules, p, buf, chunks, stop), Drain(rules, p, buf + Concat(chunks)))
            <==> WellCut(chunks, Ahead(rules, p, buf, Concat(chunks)), Until(rules, p, buf, Concat(chunks)))
    decreases |chunks|, 1
  {
    hide Drain, Feed, WellCut, SameResult, InBuffer, Ahead, Lf, Zone;
    var w := Drain(rules, p, buf + Concat(chunks));
    var a, u := Ahead(rules, p, buf, Concat(chunks)), Until(rules, p, buf, Concat(chunks));
    var c, rem := chunks[0], Concat(chunks[1..]);
    assert Concat(chunks) == c + rem;
    ReadShift(rules, p, buf, c, rem);
    var d := Drain(rules, p, buf + c);
    assert ReadOutcome(rules, d, w, rem, Lf(Zone(c, a, u)), Monus(a, |c|), u - |c|) by {
      OneRead(rules, p, buf + c, rem);
    }
    FeedStep(rules, p, buf, chunks, d, stop);
    FeedDecide(rules, d, w, chunks, a, u, stop);
  }

  /** The first read decides: the head ends as it should, ends too early, or is left to the rest. */
  lemma FeedDecide(rules: Rules, d: Drained, w: Drained, chunks: seq<Bytes>, a: nat, u: nat, stop: Error)
    requires NonEmpty(chunks) && chunks != [] && u > 0
    requires ReadOutcome(rules, d, w, Concat(chunks[1..]),
                         Lf(Zone(chunks[0], a, u)), Monus(a, |chunks[0]|), u - |chunks[0]|)
    requires w.Drained? && w.parser.phase.Finished? && u - |chunks[0]| == |Concat(chunks[1..])| - |w.rest|
    ensures SameResult(Feed(rules, d.parser, d.rest, chunks[1..], stop), w) <==> WellCut(chunks, a, u)
    decreases |chunks|, 0
  {
    hide Drain, Lf, Zone, TermStart;
    var c, rest := chunks[0], chunks[1..];
    var rem := Concat(rest);
    if |c| < u && Lf(Zone(c, a, u)) < 2 {
      if Recovers(rules, d.parser, d.rest, rem, w, Monus(a, |c|)) {
        assert Until(rules, d.parser, d.rest, rem) == u - |c|;
        FeedExact(rules, d.parser, d.rest, rest, stop);
      } else {
        StrandedCase(rules, d.parser, d.rest, rest, w, Monus(a, |c|), u - |c|, stop);
      }
    }
  }

  /** Chunking independence, exactly: if the head parses when the input arrives in one read, then reads
      cut anywhere else give the same head and leave the same bytes if and only if the read that brings
      the last byte of the blank-line terminator brings at least two of its line feeds, and no earlier
      read brings more than one.  Requests and responses alike, for any checks of the http crate. */
  lemma ChunkingExact(rules: Rules, kind: Kind, input: Bytes, chunks: seq<Bytes>, stop: Error)
    requires input != [] && Feed(rules, Start(kind), [], [input], stop).Parsed?
    requires NonEmpty(chunks) && Concat(chunks) == input
    ensures Finishes(rules, Start(kind), input)
    ensures
      var whole, cut := Feed(rules, Start(kind), [], [input], stop), Feed(rules, Start(kind), [], chunks, stop);
      var t, e := TermStart(rules, Start(kind), input), TermEnd(rules, Start(kind), input);
      && BlankLine(input, t, e) && Left(whole) == input[e..]
      && (cut.Parsed? && cut.head == whole.head && Left(cut) == Left(whole) <==> WellCut(chunks, t, e))
  {
    var p := Start(kind);
    WholeInOneRead(rules, p, input, stop);
    TerminatorShape(rules, p, input);
    AtTheStart(rules, p, input);
    assert [] + Concat(chunks) == input;
    hide Feed, Drain, WellCut, TermStart, TermEnd, InBuffer, Ahead, Until, Finishes, BlankLine, Left;
    FeedExact(rules, p, [], chunks, stop);
  }

  /** Before the first read. */
  lemma AtTheStart(rules: Rules, p: Parser, input: Bytes)
    requires Finishes(rules, p, input)
    ensures Finishes(rules, p, [] + input) && InBuffer(rules, p, [], input) == 0
    ensures Ahead(rules, p, [], input) == TermStart(rules, p, input)
    ensures Until(rules, p, [], input) == TermEnd(rules, p, input)
    ensures Drain(rules, p, input).rest == input[TermEnd(rules, p, input)..]
  {
    DrainSuffix(rules, p, input);
    assert [] + input == input;
    hide Drain, TermStart;
    assert Zone([], TermStart(rules, p, input), TermEnd(rules, p, input)) == [];
  }

  lemma WholeInOneRead(rules: Rules, p: Parser, input: Bytes, stop: Error)
    requires !p.phase.Finished? && input != [] && Feed(rules, p, [], [input], stop).Parsed?
    ensures Finishes(rules, p, input)
    ensures
      var w := Feed(rules, p, [], [input], stop);
      Left(w) == Drain(rules, p, input).rest && w.head == Drain(rules, p, input).parser.head
  {
    assert [] + input == input && [input][1..] == [];
    var d := Drain(rules, p, input);
    FeedStep(rules, p, [], [input], d, stop);
    assert d.rest + Concat([]) == d.rest;
  }

  // ----- Inputs that are rejected -----

  /** What a buffer that does not end the head comes to when nothing follows. */
  function Verdict(d: Drained, stop: Error): Result {
    if d.Failed? then Rejected(d.error) else Rejected(stop)
  }

  /** The parser, stopped at `q` with `b` buffered, is still on the way to the rejection that `w` stands for. */
  ghost predicate Continues(rules: Rules, q: Parser, b: Bytes, rem: Bytes, w: Drained, stop: Error) {
    && !q.phase.Finished? && !Finishes(rules, q, b + rem)
    && Verdict(Drain(rules, q, b + rem), stop) == Verdict(w, stop)
    && (rem == [] ==> Drain(rules, q, b + rem).Drained?)
  }

  /** One read of an input that does not end the head: it fails as the whole does, or goes on towards that. */
  ghost predicate ReadRejected(rules: Rules, d: Drained, w: Drained, rem: Bytes, stop: Error) {
    match d
    case Failed(e) => w == Failed(e)
    case Drained(q, b) => Continues(rules, q, b, rem, w, stop)
  }

  /** Steps that agree come to the same. */
  lemma SameStep(rules: Rules, p: Parser, b: Bytes, y: Bytes)
    requires !p.phase.Finished? && b != [] && y != []
    requires Step(rules, p, b) == Step(rules, p, y)
    ensures Drain(rules, p, b) == Drain(rules, p, y)
  {
    hide Step;
  }

  lemma EmptyDrain(rules: Rules, p: Parser)
    requires !p.phase.Finished?
    ensures Drain(rules, p, []) == Drained(p, []) && !Finishes(rules, p, [])
  {
  }

  lemma WaitDrain(rules: Rules, p: Parser, y: Bytes)
    requires !p.phase.Finished? && y != [] && Step(rules, p, y).Wait?
    ensures Drain(rules, p, y) == Drained(Step(rules, p, y).parser, Step(rules, p, y).rest)
  {
    hide Step;
  }

  /** A parser that waits with `b` where the whole would go on from `y`. */
  lemma WaitContinues(rules: Rules, p: Parser, y: Bytes, b: Bytes, rem: Bytes, stop: Error)
    requires !p.phase.Finished? && y != [] && !Finishes(rules, p, y + rem)
    requires b + rem != [] ==> Step(rules, p, b + rem) == Step(rules, p, y + rem)
    requires b + rem == [] || rem == [] ==> Drain(rules, p, y + rem).Drained?
    ensures Continues(rules, p, b, rem, Drain(rules, p, y + rem), stop)
  {
    hide Step, Drain;
    assert y + rem != [];
    if b + rem == [] {
      EmptyDrain(rules, p);
    } else {
      SameStep(rules, p, b + rem, y + rem);
    }
  }

  lemma ItemWaitsSame(rules: Rules, p: Parser, y: Bytes, rem: Bytes)
    requires !p.phase.Finished? && !p.phase.AtHeaders?
    ensures Step(rules, p, AfterSpaces(y) + rem) == Step(rules, p, y + rem)
    ensures Step(rules, p, y).Wait? ==> Step(rules, p, y) == Wait(p, AfterSpaces(y))
  {
    AfterSpacesConcat(y, rem);
    hide AfterSpaces;
  }

  lemma ItemWaits(rules: Rules, p: Parser, y: Bytes, rem: Bytes, stop: Error)
    requires !p.phase.Finished? && !p.phase.AtHeaders? && y != [] && Step(rules, p, y).Wait?
    requires !Finishes(rules, p, y + rem)
    ensures ReadRejected(rules, Drain(rules, p, y), Drain(rules, p, y + rem), rem, stop)
  {
    hide Step, Drain, AfterSpaces, Finishes;
    WaitDrain(rules, p, y);
    ItemWaitsSame(rules, p, y, rem);
    if rem == [] {
      assert y + rem == y;
    }
    WaitContinues(rules, p, y, AfterSpaces(y), rem, stop);
  }

  lemma HeaderWaits(rules: Rules, p: Parser, y: Bytes, rem: Bytes, stop: Error)
    requires p.phase.AtHeaders? && y != [] && Step(rules, p, y).Wait? && !Finishes(rules, p, y + rem)
    ensures ReadRejected(rules, Drain(rules, p, y), Drain(rules, p, y + rem), rem, stop)
  {
    var b := y[RunLength(y)..];
    NotAtBreak(rules, p, y, rem);
    assert Step(rules, p, y) == Wait(p, b);
    WaitDrain(rules, p, y);
    hide Drain, RunLength;
    if rem == [] {
      assert y + rem == y;
    }
    if RunCount(b + rem) == 0 {
      SkippedNewline(rules, p, y, rem, b);
      NoHeaderInNothing(rules, p, y, rem, b);
    } else {
      RunTail(y, rem, b);
      NothingSkipped(y, b);
    }
    hide Step;
    WaitContinues(rules, p, y, b, rem, stop);
  }

  lemma NothingSkipped(y: Bytes, b: Bytes)
    requires b == y[RunLength(y)..] && RunCount(y) == 0
    ensures b == y
  {
    NoRun(y);
  }

  lemma NoHeaderInNothing(rules: Rules, p: Parser, y: Bytes, rem: Bytes, b: Bytes)
    requires p.phase.AtHeaders? && y != [] && HeaderStep(rules, p, b + rem) == HeaderStep(rules, p, y + rem)
    requires RunCount(b + rem) == 0
    ensures b + rem == [] ==> Drain(rules, p, y + rem).Drained?
  {
    if b + rem == [] {
      LoneCr(rules);
      assert HeaderStep(rules, p, []).Wait?;
      hide HeaderStep;
      assert Step(rules, p, y + rem).Wait?;
    }
  }

  /** An input that does not end the head has at most one newline in front, and so has its first read. */
  lemma NotAtBreak(rules: Rules, p: Parser, y: Bytes, rem: Bytes)
    requires p.phase.AtHeaders? && !Finishes(rules, p, y + rem)
    ensures RunCount(y + rem) < 2 && RunCount(y) < 2
    ensures RunCount(y + rem) == RunCount(y) + RunCount(y[RunLength(y)..] + rem)
  {
    hide RunCount, RunLength;
    if RunCount(y + rem) >= 2 {
      FinishesHere(rules, p, y + rem);
    }
    RunConcat(y, rem);
  }

  lemma {:induction false} OneReadRejected(rules: Rules, p: Parser, y: Bytes, rem: Bytes, stop: Error)
    requires !p.phase.Finished? && !Finishes(rules, p, y + rem)
    ensures ReadRejected(rules, Drain(rules, p, y), Drain(rules, p, y + rem), rem, stop)
    decreases PhasesLeft(p.phase), |y|
  {
    hide Drain, Step, Finishes;
    if y == [] {
      EmptyDrain(rules, p);
      assert y + rem == rem;
    } else {
      var o := Step(rules, p, y);
      if o.Wait? {
        if p.phase.AtHeaders? {
          HeaderWaits(rules, p, y, rem, stop);
        } else {
          ItemWaits(rules, p, y, rem, stop);
        }
      } else {
        DecisionConcat(rules, p, y, rem);
        if o.Go? {
          DrainGo(rules, p, y, o.parser, o.rest);
          DrainGo(rules, p, y + rem, o.parser, o.rest + rem);
          FinishesGo(rules, p, y + rem, o.parser, o.rest + rem);
          OneReadRejected(rules, o.parser, o.rest, rem, stop);
        } else {
          FailDrain(rules, p, y);
          FailDrain(rules, p, y + rem);
        }
      }
    }
  }

  lemma FailDrain(rules: Rules, p: Parser, y: Bytes)
    requires !p.phase.Finished? && y != [] && Step(rules, p, y).Fail?
    ensures Drain(rules, p, y) == Failed(Step(rules, p, y).error)
  {
    hide Step;
  }

  lemma FinishesGo(rules: Rules, p: Parser, y: Bytes, q: Parser, rest: Bytes)
    requires !p.phase.Finished? && Drain(rules, p, y) == Drain(rules, q, rest) && !Finishes(rules, p, y)
    ensures !Finishes(rules, q, rest)
  {
    hide Drain;
  }

  /** Whatever the reads, an input that does not end the head is rejected as its bytes alone decide: with the error
      that the inner loop finds in them, or with what stops the stream. */
  lemma {:induction false} FeedRejects(rules: Rules, p: Parser, buf: Bytes, chunks: seq<Bytes>, stop: Error)
    requires NonEmpty(chunks) && !p.phase.Finished? && !Finishes(rules, p, buf + Concat(chunks))
    requires chunks == [] ==> !Drain(rules, p, buf).Failed?
    ensures Feed(rules, p, buf, chunks, stop) == Verdict(Drain(rules, p, buf + Concat(chunks)), stop)
    decreases |chunks|
  {
    hide Drain, Finishes, Feed;
    FeedTurn(rules, p, buf, chunks, stop);
    if chunks == [] {
      assert buf + Concat(chunks) == buf;
    } else {
      ConcatFirst(buf, chunks);
      var y, rem := buf + chunks[0], Concat(chunks[1..]);
      OneReadRejected(rules, p, y, rem, stop);
      var d := Drain(rules, p, y);
      if d.Drained? {
        if chunks[1..] == [] {
          assert rem == [] && d.rest + rem == d.rest && y + rem == y;
        }
        FeedRejects(rules, d.parser, d.rest, chunks[1..], stop);
      }
    }
  }

  /** The other half of `ChunkingExact`: an input that is rejected when it arrives in one read is rejected with the
      same error in any reads. */
  lemma RejectionExact(rules: Rules, kind: Kind, input: Bytes, chunks: seq<Bytes>, stop: Error)
    requires input != [] && Feed(rules, Start(kind), [], [input], stop).Rejected?
    requires NonEmpty(chunks) && Concat(chunks) == input
    ensures Feed(rules, Start(kind), [], chunks, stop) == Feed(rules, Start(kind), [], [input], stop)
  {
    var p := Start(kind);
    NotFinished(rules, p, input, stop);
    hide Drain, Finishes, Feed;
    assert [] + Concat(chunks) == input && [] + Concat([input]) == input by { OneChunk(input); }
    FeedRejects(rules, p, [], chunks, stop);
    FeedRejects(rules, p, [], [input], stop);
  }

  lemma OneChunk(input: Bytes)
    ensures Concat([input]) == input
  {
    assert [input][1..] == [];
  }

  lemma NotFinished(rules: Rules, p: Parser, input: Bytes, stop: Error)
    requires !p.phase.Finished? && input != [] && Feed(rules, p, [], [input], stop).Rejected?
    ensures !Finishes(rules, p, input)
  {
    assert [] + input == input && [input][1..] == [];
    hide Drain;
  }

  // ----- The end of the stream -----

  /** An empty read ends the stream: reads after it are not made, and without a head the parse fails with `Eof`. */
  lemma {:induction false} EmptyReadEnds(
    rules: Rules, p: Parser, buf: Bytes, chunks: seq<Bytes>, more: seq<Bytes>, stop: Error)
    requires NonEmpty(chunks)
    ensures
      var r, short := Feed(rules, p, buf, chunks + ([[]] + more), stop), Feed(rules, p, buf, chunks, Eof);
      if short.Rejected? then r == short
      else r == Parsed(short.head, short.cached, short.unread + ([[]] + more))
    decreases |chunks|
  {
    hide Drain;
    var all := chunks + ([[]] + more);
    if !p.phase.Finished? {
      FeedTurn(rules, p, buf, all, stop);
      FeedTurn(rules, p, buf, chunks, Eof);
      if chunks != [] {
        assert all[0] == chunks[0] && all[1..] == chunks[1..] + ([[]] + more);
        var d := Drain(rules, p, buf + chunks[0]);
        if d.Drained? {
          hide Feed;
          EmptyReadEnds(rules, d.parser, d.rest, chunks[1..], more, stop);
        }
      } else {
        assert all[0] == [];
      }
    }
  }
}
