/**
 * The append-only state file: one JSON record per line, read back from a byte offset.
 * JSON itself is a pair of functions with the laws stated in Lawful.
 */
module StateLog {
  import opened Prelude

  type Bytes = seq<bv8>

  const NEWLINE: bv8 := 10

  /** What a line of text can print: a fraction. */
  ghost predicate IsNumber(x: real) {
    exists k: int, n: nat :: IsFraction(x, k, n)
  }

  predicate IsFraction(x: real, k: int, n: nat) {
    n > 0 && x * n as real == k as real
  }

  type Number = x: real | IsNumber(x) ghost witness (FractionIsNumber(0.0, 0, 1); 0.0)

  lemma FractionIsNumber(x: real, k: int, n: nat)
    requires IsFraction(x, k, n)
    ensures IsNumber(x)
  {
  }

  lemma ProductOfCasts(a: int, b: int)
    ensures (a * b) as real == a as real * b as real
  {
  }

  function Plus(x: Number, y: Number): (z: Number)
    ensures z == x + y
  {
    SumIsNumber(x, y);
    x + y
  }

  lemma SumIsNumber(x: real, y: real)
    requires IsNumber(x) && IsNumber(y)
    ensures IsNumber(x + y)
  {
    var k: int, n: nat :| IsFraction(x, k, n);
    var l: int, m: nat :| IsFraction(y, l, m);
    ProductOfCasts(n, m);
    ProductOfCasts(k, m);
    ProductOfCasts(l, n);
    CommonDenominator(x, y, n as real, m as real);
    FractionIsNumber(x + y, k * m + l * n, n * m);
  }

  lemma CommonDenominator(x: real, y: real, n: real, m: real)
    ensures (x + y) * (n * m) == (x * n) * m + (y * m) * n
  {
  }

  function Minus(x: Number): (z: Number)
    ensures z == 0.0 - x
  {
    NegationIsNumber(x);
    0.0 - x
  }

  lemma NegationIsNumber(x: real)
    requires IsNumber(x)
    ensures IsNumber(0.0 - x)
  {
    var k: int, n: nat :| IsFraction(x, k, n);
    FractionIsNumber(0.0 - x, -k, n);
  }

  /** `value` is a number, or null. */
  datatype StateRecord = StateRecord(
    layer: string,
    variable: string,
    value: Option<Number>,
    time: int,
    confidence: Number,
    directionality: string,
    source: string)

  datatype Codec = Codec(encode: StateRecord -> Bytes, decode: Bytes -> Option<StateRecord>) {
    /** json.dumps writes one brace-delimited line, and json.loads reads it back. */
    ghost predicate Lawful() {
      forall r :: OneLine(encode(r)) && decode(encode(r)) == Some(r)
    }
  }

  predicate OneLine(text: Bytes) {
    |text| >= 2 && text[0] == 0x7b && text[|text| - 1] == 0x7d && NEWLINE !in text
  }

  /** The whitespace that str.strip removes, within ASCII. */
  predicate Blank(b: bv8) {
    9 <= b <= 13 || 28 <= b <= 32
  }

  function Strip(text: Bytes): Bytes {
    if text == [] then []
    else if Blank(text[0]) then Strip(text[1..])
    else if Blank(text[|text| - 1]) then Strip(text[..|text| - 1])
    else text
  }

  /** What appending each record and a newline to an empty file leaves in it. */
  function Encode(c: Codec, log: seq<StateRecord>): Bytes {
    if log == [] then [] else Encode(c, log[..|log| - 1]) + c.encode(log[|log| - 1]) + [NEWLINE]
  }

  /** Length of the first line, without its newline. */
  function LineEnd(b: Bytes): (n: nat)
    ensures n <= |b|
    ensures NEWLINE !in b[..n] && (n < |b| ==> b[n] == NEWLINE)
  {
    if b == [] || b[0] == NEWLINE then 0
    else
      var n := LineEnd(b[1..]);
      assert b[..n + 1] == [b[0]] + b[1..][..n];
      n + 1
  }

  function AfterLine(b: Bytes): (rest: Bytes)
    ensures b != [] ==> |rest| < |b|
  {
    if LineEnd(b) < |b| then b[LineEnd(b) + 1..] else []
  }

  /** Records up to the first malformed line, which ends the reading silently. */
  function ReadRecords(c: Codec, b: Bytes): seq<StateRecord>
    decreases |b|
  {
    if b == [] then []
    else
      var text := Strip(b[..LineEnd(b)]);
      if text == [] then ReadRecords(c, AfterLine(b))
      else match c.decode(text)
        case None => []
        case Some(r) => [r] + ReadRecords(c, AfterLine(b))
  }

  /** Seeking past the end of a file reads nothing. */
  function Suffix(b: Bytes, offset: nat): Bytes {
    if offset <= |b| then b[offset..] else []
  }

  /** One line: blank, a record, or malformed; and what follows it. */
  method ReadLine(c: Codec, b: Bytes) returns (blank: bool, parsed: Option<StateRecord>, behind: Bytes)
    requires b != []
    ensures |behind| < |b|
    ensures ReadRecords(c, b) == if blank then ReadRecords(c, behind)
                                 else if parsed.None? then []
                                 else [parsed.value] + ReadRecords(c, behind)
  {
    var line := Strip(b[..LineEnd(b)]);
    blank := line == [];
    parsed := if blank then None else c.decode(line);
    behind := AfterLine(b);
  }

  method ReadFromOffset(c: Codec, file: Bytes, offset: nat) returns (records: seq<StateRecord>)
    ensures records == ReadRecords(c, Suffix(file, offset))
  {
    records := [];
    var rest := Suffix(file, offset);
    ghost var all := ReadRecords(c, rest);
    while rest != []
      invariant records + ReadRecords(c, rest) == all
      decreases |rest|
    {
      var blank, parsed, behind := ReadLine(c, rest);
      if !blank {
        if parsed.None? {
          return;
        }
        assert records + ([parsed.value] + ReadRecords(c, behind)) == records + [parsed.value] + ReadRecords(c, behind);
        records := records + [parsed.value];
      }
      rest := behind;
    }
  }

  // ---- offsets at record boundaries ---------------------------------------------------

  lemma {:induction false} FirstLine(line: Bytes, rest: Bytes)
    requires NEWLINE !in line
    ensures LineEnd(line + [NEWLINE] + rest) == |line|
    ensures (line + [NEWLINE] + rest)[..|line|] == line
    ensures AfterLine(line + [NEWLINE] + rest) == rest
  {
    var b := line + [NEWLINE] + rest;
    if line != [] {
      assert b[0] == line[0] && b[1..] == line[1..] + [NEWLINE] + rest;
      FirstLine(line[1..], rest);
    }
  }

  lemma {:induction false} EncodeSplit(c: Codec, a: seq<StateRecord>, b: seq<StateRecord>)
    ensures Encode(c, a + b) == Encode(c, a) + Encode(c, b)
  {
    if b == [] {
      assert a + b == a;
    } else {
      assert (a + b)[..|a + b| - 1] == a + b[..|b| - 1];
      EncodeSplit(c, a, b[..|b| - 1]);
    }
  }

  /** A well-formed line at the front is read as its record, and reading goes on behind it. */
  lemma ReadFirst(c: Codec, r: StateRecord, rest: Bytes, file: Bytes)
    requires c.Lawful() && file == c.encode(r) + [NEWLINE] + rest
    ensures ReadRecords(c, file) == [r] + ReadRecords(c, rest)
  {
    assert OneLine(c.encode(r)) && c.decode(c.encode(r)) == Some(r);
    FirstLine(c.encode(r), rest);
    assert Strip(c.encode(r)) == c.encode(r);
  }

  lemma EncodeFront(c: Codec, log: seq<StateRecord>, rest: Bytes)
    requires log != []
    ensures Encode(c, log) + rest == c.encode(log[0]) + [NEWLINE] + (Encode(c, log[1..]) + rest)
  {
    EncodeSplit(c, [log[0]], log[1..]);
    assert log == [log[0]] + log[1..];
    assert [log[0]][..0] == [];
    assert Encode(c, [log[0]]) == c.encode(log[0]) + [NEWLINE];
  }

  lemma {:induction false} ReadBehind(c: Codec, log: seq<StateRecord>, rest: Bytes)
    requires c.Lawful()
    ensures ReadRecords(c, Encode(c, log) + rest) == log + ReadRecords(c, rest)
    decreases |log|
  {
    if log == [] {
      assert Encode(c, log) + rest == rest;
    } else {
      ReadBehind(c, log[1..], rest);
      PrependRecord(c, log, rest);
    }
  }

  lemma PrependRecord(c: Codec, log: seq<StateRecord>, rest: Bytes)
    requires c.Lawful() && log != []
    requires ReadRecords(c, Encode(c, log[1..]) + rest) == log[1..] + ReadRecords(c, rest)
    ensures ReadRecords(c, Encode(c, log) + rest) == log + ReadRecords(c, rest)
  {
    var behind, file := Encode(c, log[1..]) + rest, Encode(c, log) + rest;
    assert file == c.encode(log[0]) + [NEWLINE] + behind by { EncodeFront(c, log, rest); }
    assert ReadRecords(c, file) == [log[0]] + ReadRecords(c, behind) by { ReadFirst(c, log[0], behind, file); }
    Reattach(log, ReadRecords(c, rest));
  }

  lemma Reattach<T>(xs: seq<T>, ys: seq<T>)
    requires xs != []
    ensures [xs[0]] + (xs[1..] + ys) == xs + ys
  {
  }

  /** A line as the readers see it: no newline, nothing to strip, not empty. */
  predicate Bare(line: Bytes) {
    NEWLINE !in line && line != [] && Strip(line) == line
  }

  lemma ReadAll(c: Codec, records: seq<StateRecord>)
    requires c.Lawful()
    ensures ReadRecords(c, Encode(c, records)) == records
  {
    ReadBehind(c, records, []);
    assert Encode(c, records) + [] == Encode(c, records) && records + [] == records;
  }

  lemma ReadBare(c: Codec, line: Bytes, rest: Bytes)
    requires Bare(line)
    ensures ReadRecords(c, line + [NEWLINE] + rest)
         == match c.decode(line)
            case None => []
            case Some(r) => [r] + ReadRecords(c, rest)
  {
    FirstLine(line, rest);
  }

  /** Reading from the file length at some moment yields exactly the records appended since. */
  lemma ReadFromBoundary(c: Codec, before: seq<StateRecord>, since: seq<StateRecord>)
    requires c.Lawful()
    ensures ReadRecords(c, Suffix(Encode(c, before + since), |Encode(c, before)|)) == since
  {
    EncodeSplit(c, before, since);
    ReadAll(c, since);
    assert Suffix(Encode(c, before + since), |Encode(c, before)|) == Encode(c, since);
  }

  /** The line that a write torn before its newline makes together with the next one. */
  lemma TornLine(c: Codec, before: seq<StateRecord>, torn: Bytes, next: StateRecord, later: seq<StateRecord>)
    requires c.Lawful() && NEWLINE !in torn && torn != [] && torn[0] == 0x7b
    ensures var line := torn + c.encode(next);
            && Bare(line)
            && Encode(c, before) + torn + Encode(c, [next] + later)
               == Encode(c, before) + (line + [NEWLINE] + Encode(c, later))
  {
    var line, tail := torn + c.encode(next), Encode(c, later);
    assert OneLine(c.encode(next));
    EncodeFront(c, [next] + later, []);
    assert ([next] + later)[1..] == later;
    assert Encode(c, [next] + later) == Encode(c, [next] + later) + [];
    assert Encode(c, later) == Encode(c, later) + [];
    assert torn + Encode(c, [next] + later) == line + [NEWLINE] + tail;
    assert Encode(c, before) + torn + Encode(c, [next] + later) == Encode(c, before) + (line + [NEWLINE] + tail);
  }

  lemma ReadLineAlone(c: Codec, line: Bytes, later: seq<StateRecord>)
    requires c.Lawful() && Bare(line)
    ensures ReadRecords(c, line + [NEWLINE] + Encode(c, later))
         == match c.decode(line)
            case None => []
            case Some(r) => [r] + later
  {
    ReadBare(c, line, Encode(c, later));
    ReadAll(c, later);
  }

  lemma ReadLineBehind(c: Codec, before: seq<StateRecord>, line: Bytes, later: seq<StateRecord>)
    requires c.Lawful() && Bare(line)
    ensures ReadRecords(c, Encode(c, before) + (line + [NEWLINE] + Encode(c, later)))
         == match c.decode(line)
            case None => before
            case Some(r) => before + [r] + later
  {
    ReadLineAlone(c, line, later);
    ReadBehind(c, before, line + [NEWLINE] + Encode(c, later));
    match c.decode(line)
    case None => assert before + [] == before;
    case Some(r) => assert before + ([r] + later) == before + [r] + later;
  }

  /**
   * A write torn before its newline swallows the next record. The reader gets what the merged line
   * parses to in its place; if it does not parse, all later records are hidden as well.
   */
  lemma TornWriteHidesLaterRecords(c: Codec, before: seq<StateRecord>, torn: Bytes, next: StateRecord,
                                   later: seq<StateRecord>)
    requires c.Lawful() && NEWLINE !in torn && torn != [] && torn[0] == 0x7b
    ensures ReadRecords(c, Encode(c, before) + torn + Encode(c, [next] + later))
         == match c.decode(torn + c.encode(next))
            case None => before
            case Some(r) => before + [r] + later
  {
    TornLine(c, before, torn, next, later);
    ReadLineBehind(c, before, torn + c.encode(next), later);
  }

  // ---- blank lines and padding ---------------------------------------------------------------------

  /** Only spaces, tabs, line breaks and the other separators that str.strip removes. */
  predicate Padding(text: Bytes) {
    forall b <- text :: 9 <= b <= 13 || 28 <= b <= 32
  }

  lemma {:induction false} PaddingStripsAway(text: Bytes)
    requires Padding(text)
    ensures Strip(text) == []
    decreases |text|
  {
    if text != [] {
      assert text[0] in text && forall b <- text[1..] :: b in text;
      PaddingStripsAway(text[1..]);
    }
  }

  /** Stripping takes the padding off both ends and no more. */
  lemma {:induction false} StripExactly(before: Bytes, text: Bytes, behind: Bytes)
    requires Padding(before) && Padding(behind)
    requires text != [] && !Padding([text[0]]) && !Padding([text[|text| - 1]])
    ensures Strip(before + text + behind) == text
    decreases |before| + |behind|
  {
    var all := before + text + behind;
    if before != [] {
      assert before[0] in before && forall b <- before[1..] :: b in before;
      assert all[1..] == before[1..] + text + behind;
      StripExactly(before[1..], text, behind);
    } else {
      assert all == text + behind;
      assert all[0] == text[0] && text[0] in [text[0]];
      if behind != [] {
        var front, last := behind[..|behind| - 1], behind[|behind| - 1];
        assert last in behind && forall b <- front :: b in behind;
        assert all[..|all| - 1] == text + front && before + text + front == text + front;
        StripExactly(before, text, front);
      } else {
        assert all == text && text[|text| - 1] in [text[|text| - 1]];
      }
    }
  }

  /** A blank line anywhere between records is skipped. */
  lemma BlankLinesAreSkipped(c: Codec, before: seq<StateRecord>, blank: Bytes, rest: Bytes)
    requires c.Lawful() && Padding(blank) && NEWLINE !in blank
    ensures ReadRecords(c, Encode(c, before) + (blank + [NEWLINE] + rest)) == ReadRecords(c, Encode(c, before) + rest)
  {
    ReadBehind(c, before, blank + [NEWLINE] + rest);
    ReadBehind(c, before, rest);
    PaddingStripsAway(blank);
    FirstLine(blank, rest);
  }
}
