/** Bytes, and the slice scanners of crates/net/http/src/parse.rs (section 2.1 and 5 of RFC 9112). */
module HttpSyntax {
  import opened Options

  newtype Byte = x: int | 0 <= x < 256

  type Bytes = seq<Byte>

  const SP: Byte := 32
  const TAB: Byte := 9
  const CR: Byte := 13
  const LF: Byte := 10
  const COLON: Byte := 58
  const CRLF: Bytes := [CR, LF]

  // ----- Searching for the end of an item -----

  /** What ends a run of spaces, a token, a header name, and a header value or reason. */
  datatype Stop = NonSpace | TokenEnd | NameEnd | LineEnd {
    predicate At(b: Byte) {
      match this
      case NonSpace => b != SP && b != TAB
      case TokenEnd => b == SP || b == TAB || b == CR || b == LF
      case NameEnd => b == COLON
      case LineEnd => b == CR || b == LF
    }
  }

  /** The offset of the first byte that stops the scan; `parse_token`, `parse_header_name`,
      `parse_header_value` and `parse_reason` differ only in that byte. */
  function Find(stop: Stop, buf: Bytes): (r: Option<nat>)
    ensures r.Some? ==> r.value < |buf| && stop.At(buf[r.value]) && forall i | 0 <= i < r.value :: !stop.At(buf[i])
    ensures r.None? ==> forall i | 0 <= i < |buf| :: !stop.At(buf[i])
  {
    if buf == [] then None
    else if stop.At(buf[0]) then Some(0)
    else
      var rest := Find(stop, buf[1..]);
      if rest.None? then None else Some(rest.value + 1)
  }

  lemma FindIs(stop: Stop, buf: Bytes, n: nat)
    requires n < |buf| && stop.At(buf[n]) && forall i | 0 <= i < n :: !stop.At(buf[i])
    ensures Find(stop, buf) == Some(n)
  {
    var r := Find(stop, buf);
    assert r.Some? && !(r.value < n) && !(n < r.value);
  }

  lemma FindIsNone(stop: Stop, buf: Bytes)
    requires forall i | 0 <= i < |buf| :: !stop.At(buf[i])
    ensures Find(stop, buf) == None
  {
  }

  /** A scan is decided by the first stop byte: what follows does not matter, and bytes without a stop
      only shift the result. */
  lemma FindConcat(stop: Stop, buf: Bytes, more: Bytes)
    ensures Find(stop, buf).Some? ==> Find(stop, buf + more) == Find(stop, buf)
    ensures Find(stop, buf).None? ==>
              match Find(stop, more)
              case None => Find(stop, buf + more) == None
              case Some(n) => Find(stop, buf + more) == Some(|buf| + n)
  {
    var l, m := Find(stop, buf), Find(stop, more);
    if l.Some? {
      FindIs(stop, buf + more, l.value);
    } else if m.Some? {
      FindIs(stop, buf + more, |buf| + m.value);
    } else {
      FindIsNone(stop, buf + more);
    }
  }

  /** The number of leading spaces and tabs. */
  function SkipSpaces(buf: Bytes): (n: nat)
    ensures n <= |buf|
  {
    match Find(NonSpace, buf)
    case None => |buf|
    case Some(n) => n
  }

  function AfterSpaces(buf: Bytes): (r: Bytes)
    ensures |r| <= |buf|
  {
    buf[SkipSpaces(buf)..]
  }

  lemma AfterSpacesStops(buf: Bytes, more: Bytes)
    requires buf != [] && NonSpace.At(buf[0])
    ensures AfterSpaces(buf + more) == buf + more && AfterSpaces(buf) == buf
  {
    assert (buf + more)[0] == buf[0];
    assert Find(NonSpace, buf + more) == Some(0);
  }

  /** Spaces can be skipped before or after more bytes arrive. */
  lemma AfterSpacesConcat(buf: Bytes, more: Bytes)
    ensures AfterSpaces(buf + more) == AfterSpaces(AfterSpaces(buf) + more)
    ensures AfterSpaces(buf) != [] ==> AfterSpaces(buf + more) == AfterSpaces(buf) + more
  {
    FindConcat(NonSpace, buf, more);
    var n, b := SkipSpaces(buf), AfterSpaces(buf);
    if b != [] {
      assert (buf + more)[n..] == b + more;
      AfterSpacesStops(b, more);
    } else {
      assert b + more == more;
      assert SkipSpaces(buf + more) == |buf| + SkipSpaces(more);
      assert (buf + more)[|buf| + SkipSpaces(more)..] == more[SkipSpaces(more)..];
    }
  }

  /** `trim_suffix_spaces`: trailing spaces and tabs go, unless there is nothing else. */
  function TrimEnd(buf: Bytes): (r: Bytes)
    ensures r <= buf
    ensures Find(NonSpace, buf).None? ==> r == buf
    ensures Find(NonSpace, buf).Some? ==>
              r != [] && NonSpace.At(r[|r| - 1]) && forall i | |r| <= i < |buf| :: !NonSpace.At(buf[i])
  {
    if Find(NonSpace, buf).None? || NonSpace.At(buf[|buf| - 1]) then buf
    else
      FindConcat(NonSpace, buf[..|buf| - 1], buf[|buf| - 1..]);
      assert buf[..|buf| - 1] + buf[|buf| - 1..] == buf;
      TrimEnd(buf[..|buf| - 1])
  }

  method TrimSuffixSpaces(buf: Bytes) returns (r: Bytes)
    ensures r == TrimEnd(buf)
  {
    r := buf;
    for offset := 0 to |buf|
      invariant r == buf
      invariant forall i | |buf| - offset <= i < |buf| :: !NonSpace.At(buf[i])
    {
      var c := buf[|buf| - 1 - offset];
      if c != SP && c != TAB {
        if offset > 0 {
          r := buf[..|buf| - offset];
        }
        TrimEndUnique(buf, r);
        return;
      }
    }
  }

  lemma TrimEndUnique(buf: Bytes, r: Bytes)
    requires r <= buf && r != [] && NonSpace.At(r[|r| - 1])
    requires forall i | |r| <= i < |buf| :: !NonSpace.At(buf[i])
    ensures TrimEnd(buf) == r
  {
    var t := TrimEnd(buf);
    assert NonSpace.At(buf[|r| - 1]);
    assert t == buf[..|t|] && r == buf[..|r|];
    assert NonSpace.At(buf[|t| - 1]);
  }

  // ----- Versions -----

  datatype Version = Http09 | Http10 | Http11 | Http2 | Http3

  function VersionText(v: Version): (r: Bytes)
    ensures |r| == 8
  {
    match v
    case Http09 => [72, 84, 84, 80, 47, 48, 46, 57]
    case Http10 => [72, 84, 84, 80, 47, 49, 46, 48]
    case Http11 => [72, 84, 84, 80, 47, 49, 46, 49]
    case Http2 => [72, 84, 84, 80, 47, 50, 46, 48]
    case Http3 => [72, 84, 84, 80, 47, 51, 46, 48]
  }

  lemma VersionTextInjective(v: Version, w: Version)
    requires VersionText(v) == VersionText(w)
    ensures v == w
  {
    assert VersionText(v)[5] == VersionText(w)[5] && VersionText(v)[7] == VersionText(w)[7];
  }

  /** The version whose text this is, as the source's match on eight bytes. */
  function VersionOf(text: Bytes): (r: Option<Version>)
    ensures r.Some? ==> text == VersionText(r.value)
    ensures r.None? ==> forall v :: text != VersionText(v)
  {
    if text == VersionText(Http09) then Some(Http09)
    else if text == VersionText(Http10) then Some(Http10)
    else if text == VersionText(Http11) then Some(Http11)
    else if text == VersionText(Http2) then Some(Http2)
    else if text == VersionText(Http3) then Some(Http3)
    else None
  }

  // ----- Newlines -----

  /** The length of the newline at the start of the buffer: CRLF or a bare LF, or 0. */
  function NewlineAt(buf: Bytes): (n: nat)
    ensures n <= |buf| && n <= 2
  {
    if |buf| > 0 && buf[0] == LF then 1
    else if |buf| > 1 && buf[0] == CR && buf[1] == LF then 2
    else 0
  }

  /** How many newlines start the buffer. */
  function RunCount(buf: Bytes): nat
    decreases |buf|
  {
    var n := NewlineAt(buf);
    if n == 0 then 0 else 1 + RunCount(buf[n..])
  }

  /** How many bytes they take. */
  function RunLength(buf: Bytes): (len: nat)
    ensures len <= |buf|
    decreases |buf|
  {
    var n := NewlineAt(buf);
    if n == 0 then 0 else n + RunLength(buf[n..])
  }

  datatype SkipNewLine = NoNewline | One(len: nat) | Break(len: nat) | Incomplete

  function SkipNewline(buf: Bytes): SkipNewLine {
    if |buf| > 1 && buf[..2] == [CR, LF] then One(2)
    else if |buf| > 1 && buf[..2] == [LF, LF] then Break(2)
    else if |buf| > 0 && buf[0] == LF then One(1)
    else if |buf| > 0 && buf[0] == CR then Incomplete
    else NoNewline
  }

  /** One look at the start of a run. */
  lemma SkipNewlineMeaning(rest: Bytes)
    ensures var k := SkipNewline(rest);
            if k.One? then
              k.len <= |rest| && RunCount(rest) == 1 + RunCount(rest[k.len..]) &&
              RunLength(rest) == k.len + RunLength(rest[k.len..])
            else if k.Break? then
              k.len <= |rest| && RunCount(rest) == 2 + RunCount(rest[k.len..]) &&
              RunLength(rest) == k.len + RunLength(rest[k.len..])
            else RunCount(rest) == 0 && RunLength(rest) == 0
  {
    NewlineCounts(rest);
    if |rest| > 1 {
      FirstTwo(rest, CR, LF);
      FirstTwo(rest, LF, LF);
    }
    hide RunCount, RunLength;
    if SkipNewline(rest).Break? {
      NewlineCounts(rest[1..]);
      assert rest[1..][1..] == rest[2..];
    }
  }

  lemma NewlineCounts(buf: Bytes)
    ensures var n := NewlineAt(buf);
            if n == 0 then RunCount(buf) == 0 && RunLength(buf) == 0
            else RunCount(buf) == 1 + RunCount(buf[n..]) && RunLength(buf) == n + RunLength(buf[n..])
  {
  }

  lemma FirstTwo(buf: Bytes, a: Byte, b: Byte)
    requires |buf| > 1
    ensures buf[..2] == [a, b] <==> buf[0] == a && buf[1] == b
  {
    assert buf[..2] == [buf[0], buf[1]];
    assert [buf[0], buf[1]] == [a, b] ==> [buf[0], buf[1]][0] == a && [buf[0], buf[1]][1] == b;
  }

  /** `_skip_newlines` measures the whole run: two or more newlines are a break, one is skipped, and an
      incomplete newline is never reported. */
  method SkipNewlines(buf: Bytes) returns (r: SkipNewLine)
    ensures r == if RunCount(buf) >= 2 then Break(RunLength(buf))
                 else if RunCount(buf) == 1 then One(RunLength(buf))
                 else NoNewline
  {
    hide RunCount, RunLength;
    var offset := 0;
    var isBreak := false;
    ghost var count := 0;
    assert buf[0..] == buf;
    while true
      invariant 0 <= offset <= |buf|
      invariant RunCount(buf) == count + RunCount(buf[offset..])
      invariant RunLength(buf) == offset + RunLength(buf[offset..])
      invariant isBreak <==> count >= 2
      invariant offset > 0 <==> count >= 1
      decreases |buf| - offset
    {
      var rest := buf[offset..];
      SkipNewlineMeaning(rest);
      match SkipNewline(rest) {
        case Incomplete =>
          return if isBreak then Break(offset) else if offset > 0 then One(offset) else NoNewline;
        case NoNewline =>
          return if isBreak then Break(offset) else if offset > 0 then One(offset) else NoNewline;
        case One(len) =>
          assert buf[offset + len..] == rest[len..];
          if offset > 0 {
            isBreak := true;
          }
          offset := offset + len;
          count := count + 1;
        case Break(len) =>
          assert buf[offset + len..] == rest[len..];
          isBreak := true;
          offset := offset + len;
          count := count + 2;
      }
    }
  }

  /** The run at the start of `buf + more`: the run of `buf`, then whatever run the rest starts with. */
  lemma {:induction false} RunConcat(buf: Bytes, more: Bytes)
    ensures
      var rest := buf[RunLength(buf)..] + more;
      && RunCount(buf + more) == RunCount(buf) + RunCount(rest)
      && RunLength(buf + more) == RunLength(buf) + RunLength(rest)
      && NewlineAt(buf[RunLength(buf)..]) == 0
    decreases |buf|
  {
    var n := NewlineAt(buf);
    if n == 0 {
      assert buf[0..] == buf;
    } else {
      RunConcat(buf[n..], more);
      assert NewlineAt(buf + more) == n && (buf + more)[n..] == buf[n..] + more;
      assert buf[n..][RunLength(buf[n..])..] == buf[RunLength(buf)..];
    }
  }

  /** More bytes can turn a buffer that starts with no newline into one that does only if it is empty
      or a lone CR. */
  lemma NoNewlineConcat(buf: Bytes, more: Bytes)
    requires NewlineAt(buf) == 0 && buf != [] && buf != [CR]
    ensures NewlineAt(buf + more) == 0 && RunCount(buf + more) == 0 && RunLength(buf + more) == 0
  {
    assert (buf + more)[0] == buf[0];
    if |buf| > 1 { assert (buf + more)[1] == buf[1]; }
  }

  // ----- Line feeds -----

  /** The number of line feeds. */
  function Lf(s: Bytes): nat {
    if s == [] then 0 else (if s[0] == LF then 1 else 0) + Lf(s[1..])
  }

  lemma {:induction false} LfConcat(s: Bytes, t: Bytes)
    ensures Lf(s + t) == Lf(s) + Lf(t)
  {
    if s == [] {
      assert s + t == t;
    } else {
      assert (s + t)[1..] == s[1..] + t;
      LfConcat(s[1..], t);
    }
  }

  lemma NewlineBytes(buf: Bytes)
    ensures var n := NewlineAt(buf);
            n > 0 ==> Lf(buf[..n]) == 1 && buf[n - 1] == LF && forall i | 0 <= i < n :: LineEnd.At(buf[i])
  {
    if NewlineAt(buf) == 2 {
      assert buf[..2] == [CR] + [LF];
      LfConcat([CR], [LF]);
    } else if NewlineAt(buf) == 1 {
      assert buf[..1] == [LF];
    }
  }

  /** A run of newlines holds one line feed each, and nothing but line-ending bytes. */
  lemma {:induction false} RunBytes(buf: Bytes)
    ensures Lf(buf[..RunLength(buf)]) == RunCount(buf)
    ensures forall i | 0 <= i < RunLength(buf) :: LineEnd.At(buf[i])
    ensures RunLength(buf) > 0 ==> buf[RunLength(buf) - 1] == LF
    decreases |buf|
  {
    var n := NewlineAt(buf);
    NewlineCounts(buf);
    if n > 0 {
      NewlineBytes(buf);
      var rest := buf[n..];
      RunBytes(rest);
      hide RunCount, RunLength, NewlineAt, Lf;
      FrontOf(buf, n, RunLength(rest));
      LfConcat(buf[..n], rest[..RunLength(rest)]);
      forall i | 0 <= i < RunLength(buf) ensures LineEnd.At(buf[i]) {
        assert i >= n ==> buf[i] == rest[i - n];
      }
    }
  }

  lemma FrontOf(buf: Bytes, n: nat, m: nat)
    requires n + m <= |buf|
    ensures buf[..n + m] == buf[..n] + buf[n..][..m] && (m > 0 ==> buf[n + m - 1] == buf[n..][m - 1])
  {
  }

  lemma NoRun(buf: Bytes)
    requires RunCount(buf) == 0
    ensures RunLength(buf) == 0 && NewlineAt(buf) == 0
  {
  }

  /** A newline that only more bytes complete. */
  lemma SplitNewline(b: Bytes, more: Bytes)
    requires NewlineAt(b) == 0 && RunCount(b + more) > 0
    ensures (b == [] || b == [CR]) && Lf(b) == 0
    ensures RunLength(b + more) > |b|
  {
    if b != [] && b != [CR] { NoNewlineConcat(b, more); }
    assert NewlineAt(b + more) > |b|;
  }

  /** The newline run at the front of a buffer and more bytes, when the buffer ends inside it. */
  lemma RunTail(buf: Bytes, more: Bytes, b: Bytes)
    requires b == buf[RunLength(buf)..] && RunCount(b + more) > 0
    ensures (b == [] || b == [CR]) && Lf(b) == 0 && Lf(buf) == RunCount(buf)
    ensures RunLength(buf + more) == RunLength(buf) + RunLength(b + more) > |buf|
    ensures RunCount(buf + more) == RunCount(buf) + RunCount(b + more)
  {
    hide RunCount, RunLength, NewlineAt, Lf;
    RunConcat(buf, more);
    SplitNewline(b, more);
    RunBytes(buf);
    LfConcat(buf[..RunLength(buf)], b);
    assert buf == buf[..RunLength(buf)] + b;
  }
}
