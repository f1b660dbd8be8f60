/** The profile builders of crates/pprof/src/profiler/report.rs: interning tables for strings and functions, one
    location per function, samples that refer to them by number. */
module Profile {
  import opened Options

  datatype Symbol = Symbol(name: string, address: nat, file: string, line: nat)
  datatype Function = Function(id: nat, systemName: nat, fileName: nat, startLine: nat)
  datatype Location = Location(id: nat, functionId: nat, line: nat, address: nat)
  datatype Sample = Sample(locations: seq<nat>, key: nat, text: nat, value: int)
  datatype ValueType = ValueType(kind: nat, unit: nat)
  datatype ProfileData = ProfileData(
    sampleType: ValueType, samples: seq<Sample>, strings: seq<string>,
    functions: seq<Function>, locations: seq<Location>)

  /** The two reports, which differ in their words only. */
  datatype Kind = Heap | Cpu {
    function LabelKey(): string {
      if Heap? then "block" else "cpu_times"
    }

    function SampleType(): string {
      if Heap? then "space" else "cpu"
    }

    function Unit(): string {
      if Heap? then "bytes" else "nanoseconds"
    }
  }

  /** One call: a size and a block address, or the same time twice. */
  datatype Report = Report(amount: nat, tag: nat, frames: seq<Symbol>)

  // ----- What the calls compute -----

  datatype Strings = Strings(index: map<string, nat>, table: seq<string>)
  datatype Fns = Fns(index: map<nat, nat>, funcs: seq<Function>)
  datatype Book = Book(strings: Strings, fns: Fns, locs: seq<Location>, samples: seq<Sample>)

  function Empty(): Book {
    Book(Strings(map[], [""]), Fns(map[], []), [], [])
  }

  /** A Rust cast to `i64`. */
  function ToI64(n: nat): int {
    (n + 0x8000_0000_0000_0000) % 0x1_0000_0000_0000_0000 - 0x8000_0000_0000_0000
  }

  function Digit(d: nat): char
    requires d < 16
  {
    "0123456789abcdef"[d]
  }

  function Digits(n: nat): string {
    if n < 16 then [Digit(n)] else Digits(n / 16) + [Digit(n % 16)]
  }

  /** `format!("0x{:02x}", n)`. */
  function Hex(n: nat): string {
    "0x" + (if n < 16 then "0" else "") + Digits(n)
  }

  function Intern(t: Strings, s: string): (Strings, nat) {
    if s in t.index then (t, t.index[s])
    else (Strings(t.index[s := |t.table|], t.table + [s]), |t.table|)
  }

  function PushFn(t: Strings, f: Fns, y: Symbol): (Strings, Fns, nat) {
    var id := |f.funcs| + 1;
    var (t1, name) := Intern(t, y.name);
    var (t2, file) := Intern(t1, y.file);
    (t2, Fns(f.index[y.address := id], f.funcs + [Function(id, name, file, y.line)]), id)
  }

  function AddFrame(b: Book, ids: seq<nat>, y: Symbol): (Book, seq<nat>) {
    if y.address in b.fns.index then
      var id := b.fns.index[y.address];
      (b, if id == 0 then ids else ids + [id])
    else
      var (strings, fns, id) := PushFn(b.strings, b.fns, y);
      (Book(strings, fns, b.locs + [Location(id, id, y.line, y.address)], b.samples), ids + [id])
  }

  function AddFrames(b: Book, frames: seq<Symbol>): (Book, seq<nat>) {
    if frames == [] then (b, [])
    else
      var (b', ids) := AddFrames(b, frames[..|frames| - 1]);
      AddFrame(b', ids, frames[|frames| - 1])
  }

  function AddSample(k: Kind, b: Book, ids: seq<nat>, r: Report): Book {
    var (t1, key) := Intern(b.strings, k.LabelKey());
    var (t2, text) := Intern(t1, Hex(r.tag));
    b.(strings := t2, samples := b.samples + [Sample(ids, key, text, ToI64(r.amount))])
  }

  function AddReport(k: Kind, b: Book, r: Report): Book {
    var (b', ids) := AddFrames(b, r.frames);
    AddSample(k, b', ids, r)
  }

  /** `build` hands out the vectors and leaves the indices. */
  function Build(k: Kind, b: Book): (Book, ProfileData) {
    var (t1, kind) := Intern(b.strings, k.SampleType());
    var (t2, unit) := Intern(t1, k.Unit());
    (Book(Strings(t2.index, []), Fns(b.fns.index, []), [], []),
     ProfileData(ValueType(kind, unit), b.samples, t2.table, b.fns.funcs, b.locs))
  }

  function AddAllTo(k: Kind, b: Book, reports: seq<Report>): Book {
    if reports == [] then b
    else AddReport(k, AddAllTo(k, b, reports[..|reports| - 1]), reports[|reports| - 1])
  }

  function AddAll(k: Kind, reports: seq<Report>): Book {
    AddAllTo(k, Empty(), reports)
  }

  // ----- The objects -----

  class StringTable {
    var index: map<string, nat>
    var table: seq<string>

    ghost function Value(): Strings
      reads this
    {
      Strings(index, table)
    }

    constructor ()
      ensures Value() == Empty().strings
    {
      index, table := map[], [""];
    }

    method Insert(value: string) returns (offset: nat)
      modifies this
      ensures (Value(), offset) == Intern(old(Value()), value)
    {
      if value in index {
        return index[value];
      }
      offset := |table|;
      table := table + [value];
      index := index[value := offset];
    }
  }

  class FnTable {
    var index: map<nat, nat>
    var funcs: seq<Function>

    ghost function Value(): Fns
      reads this
    {
      Fns(index, funcs)
    }

    constructor ()
      ensures Value() == Empty().fns
    {
      index, funcs := map[], [];
    }

    method Get(symbol: Symbol) returns (r: Option<nat>)
      ensures r == if symbol.address in index then Some(index[symbol.address]) else None
    {
      return if symbol.address in index then Some(index[symbol.address]) else None;
    }

    /** The assert is the panic "push function twice." of the source. */
    method Push(strings: StringTable, symbol: Symbol) returns (id: nat)
      requires symbol.address !in index
      modifies this, strings
      ensures (strings.Value(), Value(), id) == PushFn(old(strings.Value()), old(Value()), symbol)
    {
      id := |funcs| + 1;
      var name := strings.Insert(symbol.name);
      var file := strings.Insert(symbol.file);
      funcs := funcs + [Function(id, name, file, symbol.line)];
      assert symbol.address !in index;
      index := index[symbol.address := id];
    }
  }

  /** Both Gperf reports. */
  class GperfReport {
    const kind: Kind
    const strings: StringTable
    const fns: FnTable
    var locs: seq<Location>
    var samples: seq<Sample>

    ghost function Value(): Book
      reads this, strings, fns
    {
      Book(strings.Value(), fns.Value(), locs, samples)
    }

    ghost predicate Valid()
      reads this, strings, fns
    {
      |locs| == |fns.funcs|
    }

    constructor (k: Kind)
      ensures Valid() && Value() == Empty() && kind == k
      ensures fresh(strings) && fresh(fns)
    {
      kind := k;
      strings := new StringTable();
      fns := new FnTable();
      locs, samples := [], [];
    }

    /** The body of the loop over the frames; the assert is the `assert_eq!` of the source. */
    method Frame(ids: seq<nat>, symbol: Symbol) returns (ids': seq<nat>)
      requires Valid()
      modifies this, strings, fns
      ensures Valid() && (Value(), ids') == AddFrame(old(Value()), ids, symbol)
    {
      var known := fns.Get(symbol);
      if known.Some? {
        return if known.value == 0 then ids else ids + [known.value];
      }
      var id := fns.Push(strings, symbol);
      assert |locs| + 1 == id;
      locs := locs + [Location(id, id, symbol.line, symbol.address)];
      return ids + [id];
    }

    /** `report_block_info` and `report_cpu_sample`. */
    method AddOne(r: Report) returns (more: bool)
      requires Valid()
      modifies this, strings, fns
      ensures more && Valid() && Value() == AddReport(kind, old(Value()), r)
    {
      var ids: seq<nat> := [];
      for i := 0 to |r.frames|
        invariant Valid() && (Value(), ids) == AddFrames(old(Value()), r.frames[..i])
      {
        assert r.frames[..i + 1][..i] == r.frames[..i];
        ids := Frame(ids, r.frames[i]);
      }
      assert r.frames[..|r.frames|] == r.frames;
      var key := strings.Insert(kind.LabelKey());
      var text := strings.Insert(Hex(r.tag));
      samples := samples + [Sample(ids, key, text, ToI64(r.amount))];
      return true;
    }

    method Finish() returns (p: ProfileData)
      requires Valid()
      modifies this, strings, fns
      ensures Valid() && (Value(), p) == Build(kind, old(Value()))
    {
      var sampleType := strings.Insert(kind.SampleType());
      var unit := strings.Insert(kind.Unit());
      p := ProfileData(ValueType(sampleType, unit), samples, strings.table, fns.funcs, locs);
      samples, locs := [], [];
      strings.table := [];
      fns.funcs := [];
    }
  }

  // ----- Reading a profile back -----

  function FrameSeq(reports: seq<Report>): seq<Symbol> {
    if reports == [] then [] else FrameSeq(reports[..|reports| - 1]) + reports[|reports| - 1].frames
  }

  /** The first symbol that was reported for an address. */
  function First(all: seq<Symbol>, address: nat): Option<Symbol> {
    if all == [] then None
    else if all[0].address == address then Some(all[0])
    else First(all[1..], address)
  }

  lemma {:induction false} FirstAppend(all: seq<Symbol>, y: Symbol, address: nat)
    ensures First(all + [y], address)
         == if First(all, address).Some? then First(all, address) else if y.address == address then Some(y) else None
  {
    if all == [] {
      assert all + [y] == [y];
    } else {
      assert (all + [y])[1..] == all[1..] + [y];
      FirstAppend(all[1..], y, address);
    }
  }

  lemma {:induction false} FirstFound(all: seq<Symbol>, i: nat)
    requires i < |all|
    ensures First(all, all[i].address).Some? && First(all, all[i].address).value.address == all[i].address
  {
    if all[0].address != all[i].address {
      FirstFound(all[1..], i - 1);
    }
  }

  function Text(table: seq<string>, i: nat): Option<string> {
    if i < |table| then Some(table[i]) else None
  }

  /** What location number `i` says, when all its references resolve. */
  function Decode(table: seq<string>, funcs: seq<Function>, locs: seq<Location>, i: nat): Option<Symbol>
    requires i < |locs|
  {
    var l := locs[i];
    if !(1 <= l.functionId <= |funcs|) then None
    else
      var f := funcs[l.functionId - 1];
      match (Text(table, f.systemName), Text(table, f.fileName))
      case (Some(name), Some(file)) =>
        if f.startLine == l.line then Some(Symbol(name, l.address, file, l.line)) else None
      case _ => None
  }

  // ----- The tables stay consistent -----

  ghost predicate StringsOk(t: Strings) {
    && |t.table| >= 1 && t.table[0] == ""
    && forall s <- t.index :: 0 < t.index[s] < |t.table| && t.table[t.index[s]] == s
  }

  lemma InternOk(t: Strings, s: string)
    requires StringsOk(t)
    ensures var (t', i) := Intern(t, s);
            StringsOk(t') && t.table <= t'.table && Text(t'.table, i) == Some(s)
  {
  }

  /** Numbers are positions, addresses are unique, and each entry decodes to the first symbol of its address. */
  ghost predicate EntryOk(b: Book, all: seq<Symbol>, i: nat)
    requires i < |b.locs| && |b.locs| == |b.fns.funcs|
  {
    && b.fns.funcs[i].id == i + 1 && b.locs[i].id == i + 1 && b.locs[i].functionId == i + 1
    && b.locs[i].address in b.fns.index && b.fns.index[b.locs[i].address] == i + 1
    && Decode(b.strings.table, b.fns.funcs, b.locs, i) == First(all, b.locs[i].address)
    && First(all, b.locs[i].address).Some?
  }

  ghost predicate AddressOk(b: Book, a: nat) {
    a in b.fns.index ==> 1 <= b.fns.index[a] <= |b.locs| && b.locs[b.fns.index[a] - 1].address == a
  }

  ghost predicate TablesOk(b: Book, all: seq<Symbol>) {
    && StringsOk(b.strings)
    && |b.locs| == |b.fns.funcs|
    && (forall i: nat :: i < |b.locs| ==> EntryOk(b, all, i))
    && (forall a: nat :: AddressOk(b, a))
    && (forall a: nat :: a in b.fns.index <==> First(all, a).Some?)
  }

  ghost predicate Grows(b: Book, b': Book) {
    b.strings.table <= b'.strings.table && b.locs <= b'.locs && b.fns.funcs <= b'.fns.funcs
  }

  lemma DecodeGrows(b: Book, b': Book, i: nat)
    requires Grows(b, b') && i < |b.locs| && Decode(b.strings.table, b.fns.funcs, b.locs, i).Some?
    ensures Decode(b'.strings.table, b'.fns.funcs, b'.locs, i) == Decode(b.strings.table, b.fns.funcs, b.locs, i)
  {
    assert b'.locs[i] == b.locs[i];
    var f := b.locs[i].functionId - 1;
    assert b'.fns.funcs[f] == b.fns.funcs[f];
  }

  lemma PushFnOk(t: Strings, f: Fns, y: Symbol)
    requires StringsOk(t)
    ensures var (t', f', id) := PushFn(t, f, y);
            && StringsOk(t') && t.table <= t'.table && f.funcs <= f'.funcs && id == |f.funcs| + 1 == |f'.funcs|
            && f'.index == f.index[y.address := id]
            && f'.funcs[id - 1].id == id && f'.funcs[id - 1].startLine == y.line
            && Text(t'.table, f'.funcs[id - 1].systemName) == Some(y.name)
            && Text(t'.table, f'.funcs[id - 1].fileName) == Some(y.file)
  {
    InternOk(t, y.name);
    InternOk(Intern(t, y.name).0, y.file);
  }

  /** A frame whose address is known changes no table. */
  lemma KnownFrame(b: Book, all: seq<Symbol>, y: Symbol)
    requires TablesOk(b, all) && y.address in b.fns.index
    ensures TablesOk(b, all + [y])
  {
    assert First(all, y.address).Some?;
    forall a: nat
      ensures First(all + [y], a) == First(all, a)
    {
      FirstAppend(all, y, a);
    }
    forall i: nat | i < |b.locs|
      ensures EntryOk(b, all + [y], i)
    {
      assert EntryOk(b, all, i);
    }
  }

  /** A frame with a new address gets the next number. */
  lemma NewFrame(b: Book, all: seq<Symbol>, ids: seq<nat>, y: Symbol)
    requires TablesOk(b, all) && y.address !in b.fns.index
    ensures var (b', ids') := AddFrame(b, ids, y); TablesOk(b', all + [y]) && Grows(b, b')
  {
    hide First, Intern;
    var b' := AddFrame(b, ids, y).0;
    var n := |b.locs|;
    PushFnOk(b.strings, b.fns, y);
    forall i: nat | i < |b'.locs|
      ensures EntryOk(b', all + [y], i)
    {
      FirstAppend(all, y, b'.locs[i].address);
      if i < n {
        assert EntryOk(b, all, i);
        assert b'.locs[i] == b.locs[i];
        DecodeGrows(b, b', i);
      } else {
        assert First(all, y.address).None?;
      }
    }
    forall a: nat
      ensures AddressOk(b', a)
    {
      assert AddressOk(b, a);
    }
    forall a: nat
      ensures a in b'.fns.index <==> First(all + [y], a).Some?
    {
      FirstAppend(all, y, a);
    }
  }

  /** `ids` names, frame by frame, the location of the frame's address. */
  ghost predicate IdsOk(locs: seq<Location>, ids: seq<nat>, frames: seq<Symbol>) {
    && |ids| == |frames|
    && forall j :: 0 <= j < |ids| ==> 1 <= ids[j] <= |locs| && locs[ids[j] - 1].address == frames[j].address
  }

  lemma FrameOk(b: Book, all: seq<Symbol>, ids: seq<nat>, frames: seq<Symbol>, y: Symbol)
    requires TablesOk(b, all) && IdsOk(b.locs, ids, frames)
    ensures var (b', ids') := AddFrame(b, ids, y);
            TablesOk(b', all + [y]) && Grows(b, b') && IdsOk(b'.locs, ids', frames + [y]) && b'.samples == b.samples
  {
    var (b', ids') := AddFrame(b, ids, y);
    if y.address in b.fns.index {
      KnownFrame(b, all, y);
      assert AddressOk(b, y.address);
    } else {
      NewFrame(b, all, ids, y);
      PushFnOk(b.strings, b.fns, y);
      assert ids' == ids + [|b.locs| + 1];
    }
    hide TablesOk, First, PushFn;
    assert b.locs <= b'.locs;
  }

  lemma {:induction false} FramesOk(b: Book, all: seq<Symbol>, frames: seq<Symbol>)
    requires TablesOk(b, all)
    ensures var (b', ids) := AddFrames(b, frames);
            TablesOk(b', all + frames) && Grows(b, b') && IdsOk(b'.locs, ids, frames) && b'.samples == b.samples
  {
    hide TablesOk, AddFrame;
    if frames == [] {
      assert all + frames == all;
    } else {
      var front, y := frames[..|frames| - 1], frames[|frames| - 1];
      FramesOk(b, all, front);
      var (b1, ids) := AddFrames(b, front);
      FrameOk(b1, all + front, ids, front, y);
      assert front + [y] == frames;
      assert all + front + [y] == all + frames;
    }
  }

  // ----- The samples -----

  ghost predicate SampleOk(k: Kind, table: seq<string>, locs: seq<Location>, s: Sample, r: Report) {
    && IdsOk(locs, s.locations, r.frames)
    && Text(table, s.key) == Some(k.LabelKey()) && Text(table, s.text) == Some(Hex(r.tag)) && s.value == ToI64(r.amount)
  }

  lemma SampleGrows(k: Kind, b: Book, b': Book, s: Sample, r: Report)
    requires SampleOk(k, b.strings.table, b.locs, s, r) && Grows(b, b')
    ensures SampleOk(k, b'.strings.table, b'.locs, s, r)
  {
    assert forall i :: 0 <= i < |b.locs| ==> b'.locs[i] == b.locs[i];
  }

  ghost predicate BookOk(k: Kind, b: Book, reports: seq<Report>) {
    && TablesOk(b, FrameSeq(reports))
    && |b.samples| == |reports|
    && forall i :: 0 <= i < |reports| ==> SampleOk(k, b.strings.table, b.locs, b.samples[i], reports[i])
  }

  /** Interning more strings disturbs nothing. */
  lemma MoreStrings(b: Book, all: seq<Symbol>, t: Strings, samples: seq<Sample>)
    requires TablesOk(b, all) && StringsOk(t) && b.strings.table <= t.table
    ensures TablesOk(b.(strings := t, samples := samples), all)
  {
    var b' := b.(strings := t, samples := samples);
    forall i: nat | i < |b.locs|
      ensures EntryOk(b', all, i)
    {
      assert EntryOk(b, all, i);
      DecodeGrows(b, b', i);
    }
    forall a: nat
      ensures AddressOk(b', a)
    {
      assert AddressOk(b, a);
    }
  }

  lemma AddSampleOk(k: Kind, b: Book, all: seq<Symbol>, ids: seq<nat>, r: Report)
    requires TablesOk(b, all) && IdsOk(b.locs, ids, r.frames)
    ensures var b' := AddSample(k, b, ids, r);
            && TablesOk(b', all) && Grows(b, b') && |b'.samples| == |b.samples| + 1 && b.samples <= b'.samples
            && SampleOk(k, b'.strings.table, b'.locs, b'.samples[|b.samples|], r)
  {
    InternOk(b.strings, k.LabelKey());
    InternOk(Intern(b.strings, k.LabelKey()).0, Hex(r.tag));
    var b' := AddSample(k, b, ids, r);
    MoreStrings(b, all, b'.strings, b'.samples);
  }

  lemma ReportOk(k: Kind, b: Book, reports: seq<Report>, r: Report)
    requires BookOk(k, b, reports)
    ensures BookOk(k, AddReport(k, b, r), reports + [r])
  {
    hide TablesOk, AddSample, SampleOk, AddFrames, IdsOk;
    var all, more := FrameSeq(reports), reports + [r];
    FramesOk(b, all, r.frames);
    var (b1, ids) := AddFrames(b, r.frames);
    AddSampleOk(k, b1, all + r.frames, ids, r);
    var b' := AddSample(k, b1, ids, r);
    assert more[..|more| - 1] == reports;
    forall i | 0 <= i < |more|
      ensures SampleOk(k, b'.strings.table, b'.locs, b'.samples[i], more[i])
    {
      if i < |reports| {
        SampleGrows(k, b, b', b.samples[i], reports[i]);
      }
    }
  }

  lemma {:induction false} AllOk(k: Kind, reports: seq<Report>)
    ensures BookOk(k, AddAll(k, reports), reports)
  {
    hide AddReport;
    if reports != [] {
      var front, r := reports[..|reports| - 1], reports[|reports| - 1];
      AllOk(k, front);
      ReportOk(k, AddAll(k, front), front, r);
      assert front + [r] == reports;
    }
  }

  // ----- The profile -----

  /** The profile that is built after a sequence of reports. */
  function Built(k: Kind, reports: seq<Report>): ProfileData {
    Build(k, AddAll(k, reports)).1
  }

  ghost predicate NumbersOk(p: ProfileData) {
    && |p.functions| == |p.locations|
    && forall i :: 0 <= i < |p.locations| ==>
         p.functions[i].id == i + 1 && p.locations[i].id == i + 1 && p.locations[i].functionId == i + 1
  }

  lemma {:induction false} BuiltOk(k: Kind, reports: seq<Report>) returns (b: Book)
    ensures BookOk(k, b, reports)
    ensures var p := Built(k, reports);
            && b.strings.table == p.strings && b.locs == p.locations
            && b.fns.funcs == p.functions && b.samples == p.samples
            && Text(p.strings, p.sampleType.kind) == Some(k.SampleType())
            && Text(p.strings, p.sampleType.unit) == Some(k.Unit())
  {
    AllOk(k, reports);
    var a := AddAll(k, reports);
    hide AddAll;
    InternOk(a.strings, k.SampleType());
    InternOk(Intern(a.strings, k.SampleType()).0, k.Unit());
    var t := Intern(Intern(a.strings, k.SampleType()).0, k.Unit()).0;
    b := a.(strings := t);
    MoreStrings(a, FrameSeq(reports), t, a.samples);
    forall i | 0 <= i < |reports|
      ensures SampleOk(k, b.strings.table, b.locs, b.samples[i], reports[i])
    {
      SampleGrows(k, a, b, a.samples[i], reports[i]);
    }
  }

  /** String 0 is empty, functions and locations are numbered by position, and no address has two locations. */
  lemma WellNumbered(k: Kind, reports: seq<Report>)
    ensures var p := Built(k, reports);
            && |p.strings| >= 1 && p.strings[0] == "" && NumbersOk(p)
            && Text(p.strings, p.sampleType.kind) == Some(k.SampleType())
            && Text(p.strings, p.sampleType.unit) == Some(k.Unit())
            && forall i, j :: 0 <= i < j < |p.locations| ==> p.locations[i].address != p.locations[j].address
  {
    var b := BuiltOk(k, reports);
    var p := Built(k, reports);
    hide Built;
    forall i | 0 <= i < |p.locations|
      ensures p.functions[i].id == i + 1 && p.locations[i].id == i + 1 && p.locations[i].functionId == i + 1
    {
      assert EntryOk(b, FrameSeq(reports), i);
    }
    forall i, j | 0 <= i < j < |p.locations|
      ensures p.locations[i].address != p.locations[j].address
    {
      assert EntryOk(b, FrameSeq(reports), i) && EntryOk(b, FrameSeq(reports), j);
    }
  }

  /** The value of a sample is the reported amount in 64 bits, signed: the only such number that differs from it by
      a multiple of 2^64, and the amount itself when that fits. */
  predicate Fits64(value: int, amount: nat) {
    && -0x8000_0000_0000_0000 <= value < 0x8000_0000_0000_0000
    && (value - amount) % 0x1_0000_0000_0000_0000 == 0
    && (amount < 0x8000_0000_0000_0000 ==> value == amount)
  }

  lemma CastFits(n: nat)
    ensures Fits64(ToI64(n), n)
  {
    var m := n + 0x8000_0000_0000_0000;
    var q, r := m / 0x1_0000_0000_0000_0000, m % 0x1_0000_0000_0000_0000;
    assert m == 0x1_0000_0000_0000_0000 * q + r;
    assert ToI64(n) - n == 0x1_0000_0000_0000_0000 * (-q);
  }

  /** Reading the profile gives back the reports: one sample per report, one id per frame, each id the number of
      exactly one location, which decodes to the first symbol ever reported for the address of that frame; the label
      and the value are those of the report. */
  lemma ReadsBack(k: Kind, reports: seq<Report>, n: nat)
    requires n < |reports|
    ensures var p, r := Built(k, reports), reports[n];
            && |p.samples| == |reports|
            && SampleOk(k, p.strings, p.locations, p.samples[n], r)
            && Fits64(p.samples[n].value, r.amount)
            && forall j :: 0 <= j < |r.frames| ==>
                 var id := p.samples[n].locations[j];
                 && p.locations[id - 1].id == id
                 && Decode(p.strings, p.functions, p.locations, id - 1) == First(FrameSeq(reports), r.frames[j].address)
                 && First(FrameSeq(reports), r.frames[j].address).Some?
  {
    var b := BuiltOk(k, reports);
    var p, r := Built(k, reports), reports[n];
    hide Built, First, Decode;
    assert SampleOk(k, p.strings, p.locations, p.samples[n], r);
    CastFits(r.amount);
    hide Fits64, ToI64;
    forall j | 0 <= j < |r.frames|
      ensures var id := p.samples[n].locations[j];
              && p.locations[id - 1].id == id
              && Decode(p.strings, p.functions, p.locations, id - 1) == First(FrameSeq(reports), r.frames[j].address)
              && First(FrameSeq(reports), r.frames[j].address).Some?
    {
      assert EntryOk(b, FrameSeq(reports), p.samples[n].locations[j] - 1);
    }
  }

  /** Across all samples two ids are equal exactly when the addresses are. */
  lemma EqualIdsEqualAddresses(k: Kind, reports: seq<Report>, n: nat, j: nat, m: nat, l: nat)
    requires n < |reports| && j < |reports[n].frames| && m < |reports| && l < |reports[m].frames|
    ensures var p := Built(k, reports);
            && |p.samples| == |reports| && |p.samples[n].locations| == |reports[n].frames|
            && |p.samples[m].locations| == |reports[m].frames|
            && (p.samples[n].locations[j] == p.samples[m].locations[l]
                <==> reports[n].frames[j].address == reports[m].frames[l].address)
  {
    var p := Built(k, reports);
    SampleIds(k, reports, n);
    SampleIds(k, reports, m);
    WellNumbered(k, reports);
    hide Built, First, Decode, FrameSeq, SampleOk;
    SameAddress(p.locations, p.samples[n].locations[j], p.samples[m].locations[l]);
  }

  lemma SampleIds(k: Kind, reports: seq<Report>, n: nat)
    requires n < |reports|
    ensures
      var p := Built(k, reports);
      |p.samples| == |reports| && IdsOk(p.locations, p.samples[n].locations, reports[n].frames)
  {
    ReadsBack(k, reports, n);
  }

  lemma SameAddress(locs: seq<Location>, a: nat, b: nat)
    requires 1 <= a <= |locs| && 1 <= b <= |locs|
    requires forall i, j :: 0 <= i < j < |locs| ==> locs[i].address != locs[j].address
    ensures a == b <==> locs[a - 1].address == locs[b - 1].address
  {
  }

  // ----- Repeated strings -----

  predicate Repeats(table: seq<string>) {
    exists i, j :: 0 <= i < j < |table| && table[i] == table[j]
  }

  /** Some address was first reported with an empty name or file. */
  ghost predicate EmptyWord(all: seq<Symbol>) {
    exists a :: HasEmpty(First(all, a))
  }

  predicate HasEmpty(y: Option<Symbol>) {
    y.Some? && (y.value.name == "" || y.value.file == "")
  }

  /** Past position 0 each string is where the index says. */
  ghost predicate Indexed(t: Strings) {
    StringsOk(t) && forall i | 0 < i < |t.table| :: t.table[i] in t.index && t.index[t.table[i]] == i
  }

  lemma RepeatsIfEmpty(t: Strings)
    requires Indexed(t)
    ensures Repeats(t.table) <==> "" in t.index
  {
    if "" in t.index {
      assert t.table[0] == t.table[t.index[""]];
    }
  }

  lemma InternIndexed(t: Strings, s: string)
    requires Indexed(t)
    ensures Indexed(Intern(t, s).0)
    ensures "" in Intern(t, s).0.index <==> "" in t.index || s == ""
  {
  }

  lemma PushFnIndexed(t: Strings, f: Fns, y: Symbol)
    requires Indexed(t)
    ensures Indexed(PushFn(t, f, y).0)
    ensures "" in PushFn(t, f, y).0.index <==> "" in t.index || y.name == "" || y.file == ""
  {
    InternIndexed(t, y.name);
    InternIndexed(Intern(t, y.name).0, y.file);
  }

  ghost predicate WordsOk(b: Book, all: seq<Symbol>) {
    Indexed(b.strings) && ("" in b.strings.index <==> EmptyWord(all))
  }

  /** One more symbol matters to the first ones only if its address is new. */
  lemma EmptyWordAppend(all: seq<Symbol>, y: Symbol)
    ensures EmptyWord(all + [y]) <==> EmptyWord(all) || (First(all, y.address) == None && HasEmpty(Some(y)))
  {
    hide First, HasEmpty;
    forall a: nat
      ensures First(all + [y], a)
           == if First(all, a).Some? then First(all, a) else if y.address == a then Some(y) else None
    {
      FirstAppend(all, y, a);
    }
    assert !HasEmpty(None) by { NothingEmpty(); }
    if EmptyWord(all) {
      var a :| HasEmpty(First(all, a));
      assert HasEmpty(First(all + [y], a));
    }
    if First(all, y.address) == None && HasEmpty(Some(y)) {
      assert HasEmpty(First(all + [y], y.address));
    }
  }

  lemma NothingEmpty()
    ensures !HasEmpty(None)
  {
  }

  lemma FrameWords(b: Book, all: seq<Symbol>, ids: seq<nat>, y: Symbol)
    requires TablesOk(b, all) && WordsOk(b, all)
    ensures WordsOk(AddFrame(b, ids, y).0, all + [y])
  {
    EmptyWordAppend(all, y);
    assert y.address in b.fns.index <==> First(all, y.address).Some?;
    PushFnIndexed(b.strings, b.fns, y);
    hide First, EmptyWord, Indexed, PushFn, TablesOk;
  }

  lemma {:induction false} FramesWords(b: Book, all: seq<Symbol>, frames: seq<Symbol>)
    requires TablesOk(b, all) && WordsOk(b, all)
    ensures WordsOk(AddFrames(b, frames).0, all + frames)
  {
    hide TablesOk, WordsOk, AddFrame;
    if frames == [] {
      assert all + frames == all;
    } else {
      var front, y := frames[..|frames| - 1], frames[|frames| - 1];
      FramesWords(b, all, front);
      FramesOk(b, all, front);
      var (b1, ids) := AddFrames(b, front);
      FrameWords(b1, all + front, ids, y);
      assert all + front + [y] == all + frames;
    }
  }

  lemma LabelsWords(k: Kind, b: Book, all: seq<Symbol>, ids: seq<nat>, r: Report)
    requires WordsOk(b, all)
    ensures WordsOk(AddSample(k, b, ids, r), all)
  {
    InternIndexed(b.strings, k.LabelKey());
    InternIndexed(Intern(b.strings, k.LabelKey()).0, Hex(r.tag));
    HexRoundTrip(r.tag);
    hide Hex, Indexed, EmptyWord;
  }

  lemma {:induction false} AllWords(k: Kind, reports: seq<Report>)
    ensures WordsOk(AddAll(k, reports), FrameSeq(reports))
  {
    if reports != [] {
      var front, r := reports[..|reports| - 1], reports[|reports| - 1];
      AllWords(k, front);
      AllOk(k, front);
      var b := AddAll(k, front);
      assert AddAll(k, reports) == AddReport(k, b, r);
      hide AddAll, AddAllTo, WordsOk, TablesOk, AddFrames, AddSample, SampleOk;
      FramesWords(b, FrameSeq(front), r.frames);
      var (b1, ids) := AddFrames(b, r.frames);
      LabelsWords(k, b1, FrameSeq(front) + r.frames, ids, r);
    }
  }

  /** The string table of the first profile holds some string twice if and only if some address was first reported
      with an empty name or file: then it holds "" twice, and nothing else is ever repeated. */
  lemma RepeatsExactly(k: Kind, reports: seq<Report>)
    ensures Repeats(Built(k, reports).strings) <==> EmptyWord(FrameSeq(reports))
    ensures
      var t := Built(k, reports).strings;
      forall i, j | 0 <= i < j < |t| && t[i] == t[j] :: i == 0
  {
    AllWords(k, reports);
    var t := AddAll(k, reports).strings;
    hide AddAll, FrameSeq, EmptyWord;
    InternIndexed(t, k.SampleType());
    var t1 := Intern(t, k.SampleType()).0;
    InternIndexed(t1, k.Unit());
    RepeatsIfEmpty(Intern(t1, k.Unit()).0);
  }

  /** One frame with an empty name is enough. */
  lemma EmptyNameRepeats(k: Kind)
    ensures Repeats(Built(k, [Report(1, 1, [Symbol("", 7, "f", 1)])]).strings)
  {
    var y, r := Symbol("", 7, "f", 1), Report(1, 1, [Symbol("", 7, "f", 1)]);
    RepeatsExactly(k, [r]);
    hide Built;
    assert [r][..0] == [] && FrameSeq([r]) == FrameSeq([]) + r.frames == [y];
    assert HasEmpty(First([y], 7));
  }

  // ----- Building again -----

  /** The word has an index entry but is not in the table, so it will never be put there again. */
  predicate Gone(t: Strings, word: string) {
    word in t.index && word !in t.table
  }

  lemma InternKeepsGone(t: Strings, s: string, word: string)
    requires Gone(t, word)
    ensures Gone(Intern(t, s).0, word)
  {
  }

  lemma PushFnKeepsGone(t: Strings, f: Fns, y: Symbol, word: string)
    requires Gone(t, word)
    ensures Gone(PushFn(t, f, y).0, word)
  {
    InternKeepsGone(t, y.name, word);
    InternKeepsGone(Intern(t, y.name).0, y.file, word);
  }

  lemma {:induction false} FramesKeepGone(b: Book, frames: seq<Symbol>, word: string)
    requires Gone(b.strings, word)
    ensures Gone(AddFrames(b, frames).0.strings, word)
  {
    if frames != [] {
      var front, y := frames[..|frames| - 1], frames[|frames| - 1];
      FramesKeepGone(b, front, word);
      var b' := AddFrames(b, front).0;
      PushFnKeepsGone(b'.strings, b'.fns, y, word);
      hide PushFn, Gone;
    }
  }

  lemma ReportKeepsGone(k: Kind, b: Book, r: Report, word: string)
    requires Gone(b.strings, word)
    ensures Gone(AddReport(k, b, r).strings, word)
  {
    FramesKeepGone(b, r.frames, word);
    var b' := AddFrames(b, r.frames).0;
    InternKeepsGone(b'.strings, k.LabelKey(), word);
    InternKeepsGone(Intern(b'.strings, k.LabelKey()).0, Hex(r.tag), word);
  }

  lemma {:induction false} AllKeepGone(k: Kind, b: Book, reports: seq<Report>, word: string)
    requires Gone(b.strings, word)
    ensures Gone(AddAllTo(k, b, reports).strings, word)
  {
    if reports != [] {
      AllKeepGone(k, b, reports[..|reports| - 1], word);
      ReportKeepsGone(k, AddAllTo(k, b, reports[..|reports| - 1]), reports[|reports| - 1], word);
    }
  }

  /** A build of a book whose words are gone, or that leaves them gone for the next. */
  lemma BuildGone(k: Kind, b: Book)
    ensures Gone(Build(k, b).0.strings, k.SampleType()) && Gone(Build(k, b).0.strings, k.Unit())
    ensures Gone(b.strings, k.SampleType()) && Gone(b.strings, k.Unit()) ==>
              var p := Build(k, b).1;
              Text(p.strings, p.sampleType.kind) != Some(k.SampleType()) &&
              Text(p.strings, p.sampleType.unit) != Some(k.Unit())
  {
    var t1 := Intern(b.strings, k.SampleType()).0;
    if Gone(b.strings, k.SampleType()) && Gone(b.strings, k.Unit()) {
      InternKeepsGone(b.strings, k.SampleType(), k.Unit());
      InternKeepsGone(t1, k.Unit(), k.SampleType());
    }
  }

  /** Rounds of reports, each but the last followed by a build. */
  function Rounds(k: Kind, rounds: seq<seq<Report>>): Book
    requires rounds != []
  {
    var n := |rounds| - 1;
    if n == 0 then AddAll(k, rounds[0])
    else AddAllTo(k, Build(k, Rounds(k, rounds[..n])).0, rounds[n])
  }

  /** A profile names its sample type and unit if and only if it is the first one built: whatever is reported between
      and after, the words never resolve again. */
  lemma SoundExactlyOnce(k: Kind, rounds: seq<seq<Report>>)
    requires rounds != []
    ensures
      var p := Build(k, Rounds(k, rounds)).1;
      && (Text(p.strings, p.sampleType.kind) == Some(k.SampleType()) <==> |rounds| == 1)
      && (Text(p.strings, p.sampleType.unit) == Some(k.Unit()) <==> |rounds| == 1)
  {
    hide Build, AddAll, AddAllTo, Text, Rounds;
    LastRound(k, rounds);
    if |rounds| == 1 {
      FirstBuild(k, rounds[0]);
    } else {
      var n := |rounds| - 1;
      LaterBuild(k, Rounds(k, rounds[..n]), rounds[n]);
    }
  }

  lemma LastRound(k: Kind, rounds: seq<seq<Report>>)
    requires rounds != []
    ensures
      var n := |rounds| - 1;
      Rounds(k, rounds)
      == if n == 0 then AddAll(k, rounds[0]) else AddAllTo(k, Build(k, Rounds(k, rounds[..n])).0, rounds[n])
  {
    hide AddAll, AddAllTo, Build;
  }

  lemma FirstBuild(k: Kind, reports: seq<Report>)
    ensures
      var p := Build(k, AddAll(k, reports)).1;
      Text(p.strings, p.sampleType.kind) == Some(k.SampleType()) && Text(p.strings, p.sampleType.unit) == Some(k.Unit())
  {
    WellNumbered(k, reports);
    hide Build, AddAll, Text;
  }

  lemma LaterBuild(k: Kind, b: Book, reports: seq<Report>)
    ensures
      var p := Build(k, AddAllTo(k, Build(k, b).0, reports)).1;
      Text(p.strings, p.sampleType.kind) != Some(k.SampleType()) && Text(p.strings, p.sampleType.unit) != Some(k.Unit())
  {
    hide Build, AddAllTo, Gone, Text;
    BuildGone(k, b);
    var b' := Build(k, b).0;
    AllKeepGone(k, b', reports, k.SampleType());
    AllKeepGone(k, b', reports, k.Unit());
    BuildGone(k, AddAllTo(k, b', reports));
  }

  /** A second build with nothing reported in between has no string 0 either. */
  lemma SecondBuildDangles(k: Kind, reports: seq<Report>)
    ensures var p := Build(k, Build(k, AddAll(k, reports)).0).1;
            p.strings == [] && Text(p.strings, p.sampleType.kind) == None && Text(p.strings, p.sampleType.unit) == None
  {
    hide AddAll;
  }

  // ----- Labels -----

  function DigitValue(c: char): int {
    if '0' <= c <= '9' then c as int - '0' as int else c as int - 'a' as int + 10
  }

  function Unhex(s: string): int {
    if s == [] then 0 else 16 * Unhex(s[..|s| - 1]) + DigitValue(s[|s| - 1])
  }

  lemma {:induction false} UnhexDigits(n: nat)
    ensures Unhex(Digits(n)) == n
  {
    var s := Digits(n);
    if n >= 16 {
      UnhexDigits(n / 16);
      assert s[..|s| - 1] == Digits(n / 16);
    } else {
      assert s[..|s| - 1] == [];
    }
  }

  /** The label text gives back the block address or the time, so different ones get different texts. */
  lemma HexRoundTrip(n: nat)
    ensures |Hex(n)| >= 4 && Hex(n)[..2] == "0x" && Unhex(Hex(n)[2..]) == n
  {
    UnhexDigits(n);
    if n < 16 {
      var s := Hex(n)[2..];
      assert s == ['0', Digit(n)];
      assert s[..1] == ['0'] && s[..1][..0] == [];
    } else {
      assert Hex(n)[2..] == Digits(n);
    }
  }
}
