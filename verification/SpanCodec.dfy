/** The packed source-span prototype: an inline non-zero word, or an index into an append-only table. */
module SpanCodec {

  datatype Span = Span(start: bv32, length: bv32)

  datatype Encoded = Inline(word: bv32) | Extended(index: nat)

  datatype Failure = UnsupportedWidth | TableFull | BadIndex | RoundTripMismatch

  datatype Result<+T> = Ok(value: T) | Err(error: Failure)

  /** The architecture's candidate length widths. */
  predicate Candidate(bits: nat) {
    8 <= bits <= 12
  }

  /** Widths at which every shift below is defined. */
  predicate Width(bits: nat) {
    1 <= bits <= 31
  }

  /** `x << bits`. */
  function ShiftLeft(x: bv32, bits: nat): bv32
    requires Width(bits)
  {
    if bits == 8 then x << 8 else if bits == 9 then x << 9 else if bits == 10 then x << 10
    else if bits == 11 then x << 11 else if bits == 12 then x << 12 else x << bits
  }

  /** `x >> bits` at a candidate width. */
  function ShiftRight(x: bv32, bits: nat): bv32
    requires Candidate(bits)
  {
    if bits == 8 then x >> 8 else if bits == 9 then x >> 9 else if bits == 10 then x >> 10
    else if bits == 11 then x >> 11 else x >> 12
  }

  /** First start byte that cannot be stored inline: `1 << (32 - bits)`. */
  function InlineStartLimit(bits: nat): bv32
    requires Width(bits)
  {
    if bits == 8 then 1 << 24 else if bits == 9 then 1 << 23 else if bits == 10 then 1 << 22
    else if bits == 11 then 1 << 21 else if bits == 12 then 1 << 20 else 1 << (32 - bits)
  }

  function InlineMaxLength(bits: nat): bv32
    requires Width(bits)
  {
    ShiftLeft(1, bits) - 2
  }

  predicate IsInline(bits: nat, s: Span)
    requires Width(bits)
  {
    s.start < InlineStartLimit(bits) && s.length <= InlineMaxLength(bits)
  }

  function Pack(bits: nat, s: Span): bv32
    requires Candidate(bits)
  {
    (ShiftLeft(s.start, bits) | s.length) + 1
  }

  function Unpack(bits: nat, word: bv32): Span
    requires Candidate(bits)
  {
    var packed := word - 1;
    Span(ShiftRight(packed, bits), packed & (ShiftLeft(1, bits) - 1))
  }

  /** An inline word is never zero and always unpacks to its span. */
  lemma InlineRoundTrip(bits: nat, s: Span)
    requires Candidate(bits) && IsInline(bits, s)
    ensures Pack(bits, s) != 0 && Unpack(bits, Pack(bits, s)) == s
  {
    match bits
    case 8 =>
      Limits8();
      Inline8(s);
    case 9 =>
      Limits9();
      Inline9(s);
    case 10 =>
      Limits10();
      Inline10(s);
    case 11 =>
      Limits11();
      Inline11(s);
    case 12 =>
      Limits12();
      Inline12(s);
  }

  // Each width in turn: the raw words, what packing and unpacking compute, and the round trip.

  lemma Raw8(start: bv32, length: bv32)
    ensures start < 0x1000000 && length <= 0xFE ==>
              && ((start << 8) | length) + 1 != 0
              && (((start << 8) | length) + 1 - 1) >> 8 == start
              && (((start << 8) | length) + 1 - 1) & 0xFF == length
  {
  }

  lemma Limits8()
    ensures InlineStartLimit(8) == 0x1000000 && InlineMaxLength(8) == 0xFE
  {
  }

  lemma Pack8(s: Span)
    ensures Pack(8, s) == ((s.start << 8) | s.length) + 1
  {
  }

  lemma Unpack8(word: bv32)
    ensures Unpack(8, word) == Span((word - 1) >> 8, (word - 1) & 0xFF)
  {
  }

  lemma Inline8(s: Span)
    ensures s.start < 0x1000000 && s.length <= 0xFE ==> Pack(8, s) != 0 && Unpack(8, Pack(8, s)) == s
  {
    Pack8(s);
    Unpack8(Pack(8, s));
    Raw8(s.start, s.length);
  }

  lemma Raw9(start: bv32, length: bv32)
    ensures start < 0x800000 && length <= 0x1FE ==>
              && ((start << 9) | length) + 1 != 0
              && (((start << 9) | length) + 1 - 1) >> 9 == start
              && (((start << 9) | length) + 1 - 1) & 0x1FF == length
  {
  }

  lemma Limits9()
    ensures InlineStartLimit(9) == 0x800000 && InlineMaxLength(9) == 0x1FE
  {
  }

  lemma Pack9(s: Span)
    ensures Pack(9, s) == ((s.start << 9) | s.length) + 1
  {
  }

  lemma Unpack9(word: bv32)
    ensures Unpack(9, word) == Span((word - 1) >> 9, (word - 1) & 0x1FF)
  {
  }

  lemma Inline9(s: Span)
    ensures s.start < 0x800000 && s.length <= 0x1FE ==> Pack(9, s) != 0 && Unpack(9, Pack(9, s)) == s
  {
    Pack9(s);
    Unpack9(Pack(9, s));
    Raw9(s.start, s.length);
  }

  lemma Raw10(start: bv32, length: bv32)
    ensures start < 0x400000 && length <= 0x3FE ==>
              && ((start << 10) | length) + 1 != 0
              && (((start << 10) | length) + 1 - 1) >> 10 == start
              && (((start << 10) | length) + 1 - 1) & 0x3FF == length
  {
  }

  lemma Limits10()
    ensures InlineStartLimit(10) == 0x400000 && InlineMaxLength(10) == 0x3FE
  {
  }

  lemma Pack10(s: Span)
    ensures Pack(10, s) == ((s.start << 10) | s.length) + 1
  {
  }

  lemma Unpack10(word: bv32)
    ensures Unpack(10, word) == Span((word - 1) >> 10, (word - 1) & 0x3FF)
  {
  }

  lemma Inline10(s: Span)
    ensures s.start < 0x400000 && s.length <= 0x3FE ==> Pack(10, s) != 0 && Unpack(10, Pack(10, s)) == s
  {
    Pack10(s);
    Unpack10(Pack(10, s));
    Raw10(s.start, s.length);
  }

  lemma Raw11(start: bv32, length: bv32)
    ensures start < 0x200000 && length <= 0x7FE ==>
              && ((start << 11) | length) + 1 != 0
              && (((start << 11) | length) + 1 - 1) >> 11 == start
              && (((start << 11) | length) + 1 - 1) & 0x7FF == length
  {
  }

  lemma Limits11()
    ensures InlineStartLimit(11) == 0x200000 && InlineMaxLength(11) == 0x7FE
  {
  }

  lemma Pack11(s: Span)
    ensures Pack(11, s) == ((s.start << 11) | s.length) + 1
  {
  }

  lemma Unpack11(word: bv32)
    ensures Unpack(11, word) == Span((word - 1) >> 11, (word - 1) & 0x7FF)
  {
  }

  lemma Inline11(s: Span)
    ensures s.start < 0x200000 && s.length <= 0x7FE ==> Pack(11, s) != 0 && Unpack(11, Pack(11, s)) == s
  {
    Pack11(s);
    Unpack11(Pack(11, s));
    Raw11(s.start, s.length);
  }

  lemma Raw12(start: bv32, length: bv32)
    ensures start < 0x100000 && length <= 0xFFE ==>
              && ((start << 12) | length) + 1 != 0
              && (((start << 12) | length) + 1 - 1) >> 12 == start
              && (((start << 12) | length) + 1 - 1) & 0xFFF == length
  {
  }

  lemma Limits12()
    ensures InlineStartLimit(12) == 0x100000 && InlineMaxLength(12) == 0xFFE
  {
  }

  lemma Pack12(s: Span)
    ensures Pack(12, s) == ((s.start << 12) | s.length) + 1
  {
  }

  lemma Unpack12(word: bv32)
    ensures Unpack(12, word) == Span((word - 1) >> 12, (word - 1) & 0xFFF)
  {
  }

  lemma Inline12(s: Span)
    ensures s.start < 0x100000 && s.length <= 0xFFE ==> Pack(12, s) != 0 && Unpack(12, Pack(12, s)) == s
  {
    Pack12(s);
    Unpack12(Pack(12, s));
    Raw12(s.start, s.length);
  }

  /** Inline spans start below 2^(32 - bits) and are at most 2^bits - 2 long, width by width. */
  lemma InlineIffFits(bits: nat, s: Span)
    requires Candidate(bits)
    ensures IsInline(bits, s) <==>
            || (bits == 8 && s.start < 0x1000000 && s.length <= 0xFE)
            || (bits == 9 && s.start < 0x800000 && s.length <= 0x1FE)
            || (bits == 10 && s.start < 0x400000 && s.length <= 0x3FE)
            || (bits == 11 && s.start < 0x200000 && s.length <= 0x7FE)
            || (bits == 12 && s.start < 0x100000 && s.length <= 0xFFE)
  {
    Limits8();
    Limits9();
    Limits10();
    Limits11();
    Limits12();
  }

  // ----- encoding against a growing table

  function CapacityOf(bits: nat): nat
    requires Candidate(bits)
  {
    if bits == 8 then 0xFF_FFFF else if bits == 9 then 0x7F_FFFF else if bits == 10 then 0x3F_FFFF
    else if bits == 11 then 0x1F_FFFF else 0xF_FFFF
  }

  class ExtendedTable {
    var entries: seq<Span>

    constructor ()
      ensures entries == []
    {
      entries := [];
    }
  }

  function Decode(bits: nat, e: Encoded, table: seq<Span>): Result<Span> {
    if !Candidate(bits) then Err(UnsupportedWidth)
    else match e
      case Inline(word) => Ok(Unpack(bits, word))
      case Extended(index) => if index < |table| then Ok(table[index]) else Err(BadIndex)
  }

  /** What encoding appends and returns, as a function of the table. */
  function EncodedAs(bits: nat, s: Span, size: nat): Encoded
    requires Candidate(bits)
  {
    if IsInline(bits, s) then Inline(Pack(bits, s)) else Extended(size)
  }

  method Encode(bits: nat, s: Span, table: ExtendedTable) returns (r: Result<Encoded>)
    modifies table
    ensures r.Ok? <==> Candidate(bits) && (IsInline(bits, s) || |old(table.entries)| < CapacityOf(bits))
    ensures r.Ok? ==> r.value == EncodedAs(bits, s, |old(table.entries)|)
    ensures table.entries == if r.Ok? && r.value.Extended? then old(table.entries) + [s] else old(table.entries)
    ensures r.Ok? && r.value.Inline? ==> r.value.word != 0
    ensures r.Err? ==> r.error == if Candidate(bits) then TableFull else UnsupportedWidth
  {
    if !Candidate(bits) {
      return Err(UnsupportedWidth);
    }
    if IsInline(bits, s) {
      InlineRoundTrip(bits, s);
      return Ok(Inline(Pack(bits, s)));
    }
    var index := |table.entries|;
    var maxIndex := (InlineStartLimit(bits) as int) - 2;
    if index > maxIndex {
      return Err(TableFull);
    }
    table.entries := table.entries + [s];
    r := Ok(Extended(index));
  }

  /** An encoding decodes to its span now and after every later append. */
  lemma DecodesForever(bits: nat, s: Span, before: seq<Span>, later: seq<Span>)
    requires Candidate(bits)
    requires if IsInline(bits, s) then before <= later else before + [s] <= later
    ensures Decode(bits, EncodedAs(bits, s, |before|), later) == Ok(s)
  {
    if IsInline(bits, s) {
      InlineRoundTrip(bits, s);
    } else {
      assert later[|before|] == (before + [s])[|before|];
    }
  }

  // ----- measuring a corpus

  function ExtendedOf(bits: nat, spans: seq<Span>): seq<Span>
    requires Candidate(bits)
  {
    if spans == [] then []
    else
      var n := |spans| - 1;
      ExtendedOf(bits, spans[..n]) + if IsInline(bits, spans[n]) then [] else [spans[n]]
  }

  function EncodingsOf(bits: nat, spans: seq<Span>): (r: seq<Encoded>)
    requires Candidate(bits)
    ensures |r| == |spans|
  {
    if spans == [] then []
    else
      var n := |spans| - 1;
      EncodingsOf(bits, spans[..n]) + [EncodedAs(bits, spans[n], |ExtendedOf(bits, spans[..n])|)]
  }

  lemma {:induction false} ExtendedPrefix(bits: nat, spans: seq<Span>, k: nat)
    requires Candidate(bits) && k <= |spans|
    ensures ExtendedOf(bits, spans[..k]) <= ExtendedOf(bits, spans)
  {
    if k < |spans| {
      var n := |spans| - 1;
      assert spans[..n][..k] == spans[..k];
      ExtendedPrefix(bits, spans[..n], k);
    } else {
      assert spans[..k] == spans;
    }
  }

  /** Every encoding of a source decodes against that source's finished table. */
  lemma {:induction false} AllDecode(bits: nat, spans: seq<Span>, k: nat)
    requires Candidate(bits) && k < |spans|
    ensures Decode(bits, EncodingsOf(bits, spans)[k], ExtendedOf(bits, spans)) == Ok(spans[k])
  {
    EncodingAt(bits, spans, k);
    assert spans[..k + 1][..k] == spans[..k];
    ExtendedPrefix(bits, spans, k + 1);
    ExtendedPrefix(bits, spans, k);
    DecodesForever(bits, spans[k], ExtendedOf(bits, spans[..k]), ExtendedOf(bits, spans));
  }

  lemma {:induction false} EncodingAt(bits: nat, spans: seq<Span>, k: nat)
    requires Candidate(bits) && k < |spans|
    ensures EncodingsOf(bits, spans)[k] == EncodedAs(bits, spans[k], |ExtendedOf(bits, spans[..k])|)
  {
    var n := |spans| - 1;
    if k < n {
      assert spans[..n][..k] == spans[..k];
      EncodingAt(bits, spans[..n], k);
    }
  }

  datatype Counts = Counts(inline_: nat, extended: nat, startOverflow: nat, lengthOverflow: nat)

  predicate LateStart(bits: nat, s: Span)
    requires Width(bits)
  {
    s.start >= InlineStartLimit(bits)
  }

  predicate LongLength(bits: nat, s: Span)
    requires Width(bits)
  {
    s.length > InlineMaxLength(bits)
  }

  function Tally(bits: nat, c: Counts, s: Span): Counts
    requires Width(bits)
  {
    if IsInline(bits, s) then c.(inline_ := c.inline_ + 1)
    else c.(extended := c.extended + 1,
            startOverflow := c.startOverflow + (if LateStart(bits, s) then 1 else 0),
            lengthOverflow := c.lengthOverflow + (if LongLength(bits, s) then 1 else 0))
  }

  ghost function CountLate(bits: nat, spans: seq<Span>): nat
    requires Candidate(bits)
  {
    if spans == [] then 0
    else CountLate(bits, spans[..|spans| - 1]) + if LateStart(bits, spans[|spans| - 1]) then 1 else 0
  }

  ghost function CountLong(bits: nat, spans: seq<Span>): nat
    requires Candidate(bits)
  {
    if spans == [] then 0
    else CountLong(bits, spans[..|spans| - 1]) + if LongLength(bits, spans[|spans| - 1]) then 1 else 0
  }

  /** Each overflow count is over all spans, inline or not; every span is inline or in some source's table. */
  ghost predicate Exact(bits: nat, c: Counts, spans: seq<Span>)
    requires Candidate(bits)
  {
    c == Counts(CountInline(bits, spans), |ExtendedOf(bits, spans)|, CountLate(bits, spans), CountLong(bits, spans))
  }

  ghost function CountInline(bits: nat, spans: seq<Span>): nat
    requires Candidate(bits)
  {
    if spans == [] then 0
    else CountInline(bits, spans[..|spans| - 1]) + if IsInline(bits, spans[|spans| - 1]) then 1 else 0
  }

  /** Each extended span overflows in start, in length, or both. */
  lemma {:induction false} OverflowsCoverExtended(bits: nat, spans: seq<Span>)
    requires Candidate(bits)
    ensures CountLate(bits, spans) <= |ExtendedOf(bits, spans)| && CountLong(bits, spans) <= |ExtendedOf(bits, spans)|
    ensures |ExtendedOf(bits, spans)| <= CountLate(bits, spans) + CountLong(bits, spans)
    ensures CountInline(bits, spans) + |ExtendedOf(bits, spans)| == |spans|
  {
    if spans != [] {
      OverflowsCoverExtended(bits, spans[..|spans| - 1]);
    }
  }

  ghost function Flat(sources: seq<seq<Span>>): seq<Span> {
    if sources == [] then [] else Flat(sources[..|sources| - 1]) + sources[|sources| - 1]
  }

  /** The fullest extended table any source needed. */
  ghost function LargestTable(bits: nat, sources: seq<seq<Span>>): nat
    requires Candidate(bits)
  {
    if sources == [] then 0
    else
      var rest, last := LargestTable(bits, sources[..|sources| - 1]), |ExtendedOf(bits, sources[|sources| - 1])|;
      if rest < last then last else rest
  }

  ghost predicate WithinCapacity(bits: nat, spans: seq<Span>)
    requires Candidate(bits)
  {
    |ExtendedOf(bits, spans)| <= CapacityOf(bits)
  }

  datatype Measured = Measured(encodings: seq<Encoded>, table: seq<Span>)

  ghost predicate Encodes(bits: nat, spans: seq<Span>, m: Measured)
    requires Candidate(bits)
  {
    m == Measured(EncodingsOf(bits, spans), ExtendedOf(bits, spans))
  }

  lemma {:induction false} EncodeNext(bits: nat, spans: seq<Span>, i: nat)
    requires Candidate(bits) && i < |spans|
    ensures var e := EncodedAs(bits, spans[i], |ExtendedOf(bits, spans[..i])|);
            && EncodingsOf(bits, spans[..i + 1]) == EncodingsOf(bits, spans[..i]) + [e]
            && ExtendedOf(bits, spans[..i + 1]) == ExtendedOf(bits, spans[..i]) + if e.Extended? then [spans[i]] else []
  {
    var after := spans[..i + 1];
    assert after[..i] == spans[..i] && after[i] == spans[i];
  }

  /** The first `i` spans of a source are encoded and counted. */
  ghost predicate EncodedUpTo(bits: nat, spans: seq<Span>, i: nat, encodings: seq<Encoded>, entries: seq<Span>,
                              counts: Counts, done: seq<Span>)
    requires Candidate(bits) && i <= |spans|
  {
    && Encodes(bits, spans[..i], Measured(encodings, entries))
    && |entries| <= CapacityOf(bits) && Exact(bits, counts, done + spans[..i])
  }

  lemma TallyNext(bits: nat, counts: Counts, done: seq<Span>, spans: seq<Span>, i: nat)
    requires Candidate(bits) && i < |spans| && Exact(bits, counts, done + spans[..i])
    ensures Exact(bits, Tally(bits, counts, spans[i]), done + spans[..i + 1])
  {
    var before, after := done + spans[..i], done + spans[..i + 1];
    assert after[..|after| - 1] == before && after[|after| - 1] == spans[i];
  }

  lemma UpToNext(bits: nat, spans: seq<Span>, i: nat, encodings: seq<Encoded>, entries: seq<Span>, counts: Counts,
                 done: seq<Span>, e: Encoded)
    requires Candidate(bits) && i < |spans| && EncodedUpTo(bits, spans, i, encodings, entries, counts, done)
    requires e == EncodedAs(bits, spans[i], |entries|) && (e.Inline? || |entries| < CapacityOf(bits))
    ensures EncodedUpTo(bits, spans, i + 1, encodings + [e], entries + (if e.Extended? then [spans[i]] else []),
                        Tally(bits, counts, spans[i]), done)
  {
    EncodeNext(bits, spans, i);
    TallyNext(bits, counts, done, spans, i);
  }

  /** A span that finds the table full leaves the source beyond capacity. */
  lemma OverCapacity(bits: nat, spans: seq<Span>, i: nat)
    requires Candidate(bits) && i < |spans| && !IsInline(bits, spans[i])
    requires |ExtendedOf(bits, spans[..i])| >= CapacityOf(bits)
    ensures !WithinCapacity(bits, spans)
  {
    EncodeNext(bits, spans, i);
    ExtendedPrefix(bits, spans, i + 1);
  }

  /** Encode one source against a fresh table; a width that is no candidate is refused at the first span. */
  method EncodeSource(bits: nat, spans: seq<Span>, start: Counts, ghost done: seq<Span>)
    returns (r: Result<Measured>, counts: Counts)
    requires Width(bits) && (Candidate(bits) ==> Exact(bits, start, done))
    ensures Candidate(bits) ==> (r.Ok? <==> WithinCapacity(bits, spans)) && (r.Err? ==> r.error == TableFull)
    ensures Candidate(bits) && r.Ok? ==> Encodes(bits, spans, r.value) && Exact(bits, counts, done + spans)
    ensures !Candidate(bits) ==> (r.Ok? <==> spans == []) && (r.Err? ==> r.error == UnsupportedWidth)
    ensures !Candidate(bits) && r.Ok? ==> r.value == Measured([], []) && counts == start
  {
    var table := new ExtendedTable();
    var encodings: seq<Encoded> := [];
    counts := start;
    assert done + spans[..0] == done;
    for i := 0 to |spans|
      invariant Candidate(bits) ==> EncodedUpTo(bits, spans, i, encodings, table.entries, counts, done)
      invariant !Candidate(bits) ==> i == 0 && encodings == [] && table.entries == [] && counts == start
    {
      ghost var entries, counted := table.entries, counts;
      counts := Tally(bits, counts, spans[i]);
      var e := Encode(bits, spans[i], table);
      if e.Err? {
        if Candidate(bits) {
          OverCapacity(bits, spans, i);
        }
        return Err(e.error), counts;
      }
      UpToNext(bits, spans, i, encodings, entries, counted, done, e.value);
      encodings := encodings + [e.value];
      assert table.entries == entries + (if e.value.Extended? then [spans[i]] else []);
    }
    assert spans[..|spans|] == spans;
    r := Ok(Measured(encodings, table.entries));
  }

  /** Decode one source's encodings again; a mismatch would be reported. */
  method ResolveSource(bits: nat, spans: seq<Span>, m: Measured) returns (matched: bool)
    requires if Candidate(bits) then Encodes(bits, spans, m) else spans == []
    ensures matched
  {
    for i := 0 to |spans| {
      AllDecode(bits, spans, i);
      var decoded := Decode(bits, m.encodings[i], m.table);
      if decoded != Ok(spans[i]) {
        return false;
      }
    }
    matched := true;
  }

  datatype Stats = Stats(counts: Counts, total: nat, largestTable: nat)

  /** The statistics account for every span of every source. */
  ghost predicate Accounts(bits: nat, stats: Stats, sources: seq<seq<Span>>)
    requires Candidate(bits)
  {
    Exact(bits, stats.counts, Flat(sources)) &&
    stats == Stats(stats.counts, |Flat(sources)|, LargestTable(bits, sources))
  }

  lemma {:induction false} AccountsNext(bits: nat, stats: Stats, sources: seq<seq<Span>>, i: nat, counts: Counts,
                                        m: Measured)
    requires Candidate(bits) && i < |sources| && Accounts(bits, stats, sources[..i]) && Encodes(bits, sources[i], m)
    requires Exact(bits, counts, Flat(sources[..i]) + sources[i])
    ensures var largest := if stats.largestTable < |m.table| then |m.table| else stats.largestTable;
            Accounts(bits, Stats(counts, stats.total + |sources[i]|, largest), sources[..i + 1])
  {
    var after := sources[..i + 1];
    assert after[..i] == sources[..i] && after[i] == sources[i];
  }

  /** Every source was encoded: within capacity at a candidate width, or empty at any other. */
  ghost predicate Fitted(bits: nat, spans: seq<Span>) {
    if Candidate(bits) then WithinCapacity(bits, spans) else spans == []
  }

  ghost predicate FittedAs(bits: nat, spans: seq<Span>, m: Measured) {
    if Candidate(bits) then Encodes(bits, spans, m) else spans == []
  }

  const NOTHING := Stats(Counts(0, 0, 0, 0), 0, 0)

  ghost predicate AccountsFor(bits: nat, stats: Stats, sources: seq<seq<Span>>) {
    if Candidate(bits) then Accounts(bits, stats, sources) else stats == NOTHING
  }

  /** Encode every source, each against its own table. */
  method EncodeSources(bits: nat, sources: seq<seq<Span>>) returns (r: Result<(seq<Measured>, Stats)>)
    requires Width(bits)
    ensures r.Ok? <==> forall i | 0 <= i < |sources| :: Fitted(bits, sources[i])
    ensures r.Ok? ==> |r.value.0| == |sources|
    ensures r.Ok? ==> forall i | 0 <= i < |sources| :: FittedAs(bits, sources[i], r.value.0[i])
    ensures r.Ok? ==> AccountsFor(bits, r.value.1, sources)
    ensures r.Err? ==> r.error == if Candidate(bits) then TableFull else UnsupportedWidth
  {
    var stats := NOTHING;
    var measured: seq<Measured> := [];
    for i := 0 to |sources|
      invariant |measured| == i
      invariant forall k | 0 <= k < i :: Fitted(bits, sources[k]) && FittedAs(bits, sources[k], measured[k])
      invariant AccountsFor(bits, stats, sources[..i])
    {
      var one, counts := EncodeSource(bits, sources[i], stats.counts, Flat(sources[..i]));
      if one.Err? {
        return Err(one.error);
      }
      if Candidate(bits) {
        AccountsNext(bits, stats, sources, i, counts, one.value);
      }
      var largest := if stats.largestTable < |one.value.table| then |one.value.table| else stats.largestTable;
      measured := measured + [one.value];
      stats := Stats(counts, stats.total + |sources[i]|, largest);
    }
    assert sources[..|sources|] == sources;
    r := Ok((measured, stats));
  }

  /**
   At a candidate width the measurement succeeds exactly within capacity, never reports a mismatch and accounts
   for every span; at any other width it is refused as soon as there is a span to encode.
   */
  method MeasureOneCandidate(bits: nat, sources: seq<seq<Span>>) returns (r: Result<Stats>)
    requires Width(bits)
    ensures r.Ok? <==> forall i | 0 <= i < |sources| :: Fitted(bits, sources[i])
    ensures r.Ok? ==> AccountsFor(bits, r.value, sources)
    ensures r.Err? ==> r.error == if Candidate(bits) then TableFull else UnsupportedWidth
  {
    var encoded := EncodeSources(bits, sources);
    if encoded.Err? {
      return Err(encoded.error);
    }
    for i := 0 to |sources| {
      var matched := ResolveSource(bits, sources[i], encoded.value.0[i]);
      if !matched {
        return Err(RoundTripMismatch);
      }
    }
    r := Ok(encoded.value.1);
  }
}
