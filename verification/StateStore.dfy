/** control_plane/state_store.py: the append-only store with its last-writer-wins index. */
module StateStore {
  import opened Prelude
  import opened StateLog

  type Index = map<string, StateRecord>

  /** The schema's constraints beyond the types. */
  predicate SchemaOk(r: StateRecord) {
    && 0.0 <= r.confidence <= 1.0
    && r.directionality in {"up", "down", "stable", "unknown"}
  }

  function ReplayOnto(index: Index, log: seq<StateRecord>): Index {
    if log == [] then index
    else ReplayOnto(index, log[..|log| - 1])[log[|log| - 1].variable := log[|log| - 1]]
  }

  function Replay(log: seq<StateRecord>): Index {
    ReplayOnto(map[], log)
  }

  /** The records of a file, or the error of its first malformed line. */
  function LoadRecords(c: Codec, b: Bytes): Result<seq<StateRecord>>
    decreases |b|
  {
    if b == [] then Ok([])
    else
      var text := Strip(b[..LineEnd(b)]);
      if text == [] then LoadRecords(c, AfterLine(b))
      else match c.decode(text)
        case None => Error("JSONDecodeError")
        case Some(r) =>
          match LoadRecords(c, AfterLine(b))
          case Ok(rs) => Ok([r] + rs)
          case Error(e) => Error(e)
  }

  /** `all` is what loading gives once `read` is done and `rest` remains. */
  ghost predicate LoadsAs(c: Codec, rest: Bytes, read: seq<StateRecord>, all: Result<seq<StateRecord>>) {
    match LoadRecords(c, rest)
    case Ok(rs) => all == Ok(read + rs)
    case Error(_) => all.Error?
  }

  /** One line of loading. */
  lemma LoadLine(c: Codec, rest: Bytes, read: seq<StateRecord>, all: Result<seq<StateRecord>>)
    requires rest != [] && LoadsAs(c, rest, read, all)
    ensures var text := Strip(rest[..LineEnd(rest)]);
            if text == [] then LoadsAs(c, AfterLine(rest), read, all)
            else match c.decode(text)
              case None => all.Error?
              case Some(r) => LoadsAs(c, AfterLine(rest), read + [r], all)
  {
    var text := Strip(rest[..LineEnd(rest)]);
    if text != [] && c.decode(text).Some? && LoadRecords(c, AfterLine(rest)).Ok? {
      var r, rs := c.decode(text).value, LoadRecords(c, AfterLine(rest)).value;
      assert read + ([r] + rs) == (read + [r]) + rs;
    }
  }

  lemma ReplayPush(index: Index, log: seq<StateRecord>, r: StateRecord)
    ensures ReplayOnto(index, log + [r]) == ReplayOnto(index, log)[r.variable := r]
  {
    assert (log + [r])[..|log|] == log;
  }

  class Store {
    const codec: Codec
    var file: Bytes
    var index: Index
    ghost var log: seq<StateRecord>

    /** The index is what replaying the file would give, and the file holds exactly the log. */
    ghost predicate Valid()
      reads this
    {
      codec.Lawful() && file == Encode(codec, log) && index == Replay(log)
    }

    constructor (codec: Codec, file: Bytes)
      ensures this.codec == codec && this.file == file && this.index == map[] && this.log == []
    {
      this.codec, this.file, this.index, this.log := codec, file, map[], [];
    }

    /** Rebuilds the index from the file; false stands for the JSON error it raises. */
    method Load() returns (ok: bool)
      modifies this
      ensures file == old(file)
      ensures ok <==> LoadRecords(codec, file).Ok?
      ensures ok ==> log == LoadRecords(codec, file).value && index == ReplayOnto(old(index), log)
    {
      var rest := file;
      ghost var start, all, read := index, LoadRecords(codec, file), [];
      assert all.Ok? ==> all.value == read + all.value;
      while rest != []
        invariant file == old(file)
        invariant index == ReplayOnto(start, read)
        invariant LoadsAs(codec, rest, read, all)
        decreases |rest|
      {
        var line := Strip(rest[..LineEnd(rest)]);
        LoadLine(codec, rest, read, all);
        if line != [] {
          var parsed := codec.decode(line);
          if parsed.None? {
            return false;
          }
          index := index[parsed.value.variable := parsed.value];
          ReplayPush(start, read, parsed.value);
          read := read + [parsed.value];
        }
        rest := AfterLine(rest);
      }
      log := read;
      ok := true;
    }

    /** Validates, appends and indexes; false stands for the validation error, which changes nothing. */
    method Put(record: StateRecord) returns (ok: bool)
      requires Valid()
      modifies this
      ensures Valid()
      ensures ok == SchemaOk(record)
      ensures ok <==> 0.0 <= record.confidence <= 1.0 && record.directionality in {"up", "down", "stable", "unknown"}
      ensures log == if ok then old(log) + [record] else old(log)
    {
      ok := SchemaOk(record);
      if ok {
        file := file + (codec.encode(record) + [NEWLINE]);
        index := index[record.variable := record];
        log := log + [record];
        assert log[..|log| - 1] == old(log);
      }
    }

    function Get(variable: string): Option<StateRecord>
      reads this
    {
      if variable in index then Some(index[variable]) else None
    }

    /** get_value: the latest value, which may itself be null, or the default when there is no record. */
    function GetValue(variable: string, default: Option<Number>): Option<Number>
      reads this
    {
      ValueIn(index, variable, default)
    }

    /** The current byte length, which becomes a job's baseline offset. */
    function Offset(): nat
      reads this
    {
      |file|
    }
  }

  function ValueIn(index: Index, variable: string, default: Option<Number>): Option<Number> {
    if variable in index then index[variable].value else default
  }

  // ---- the index is the last writer, and reopening restores it ----------------------------

  /** The index holds a variable's latest record, and no variable that was never written. */
  lemma {:induction false} IndexIsLastWriter(log: seq<StateRecord>, i: nat)
    requires i < |log| && forall k :: i < k < |log| ==> log[k].variable != log[i].variable
    ensures log[i].variable in Replay(log) && Replay(log)[log[i].variable] == log[i]
  {
    var front := log[..|log| - 1];
    if i < |front| { IndexIsLastWriter(front, i); }
  }

  lemma {:induction false} IndexHasOnlyWritten(log: seq<StateRecord>, v: string)
    ensures v in Replay(log) <==> exists i :: 0 <= i < |log| && log[i].variable == v
  {
    if log != [] {
      var front := log[..|log| - 1];
      IndexHasOnlyWritten(front, v);
      assert log == front + [log[|log| - 1]];
      if i :| 0 <= i < |front| && front[i].variable == v { assert log[i].variable == v; }
    }
  }

  /** The last record of the variable in the log. */
  predicate LatestAt(log: seq<StateRecord>, v: string, i: int) {
    && 0 <= i < |log| && log[i].variable == v
    && forall k :: i < k < |log| ==> log[k].variable != v
  }

  /** Reading a variable gives its latest value, or the default exactly if it was never written. */
  lemma ValueExactly(log: seq<StateRecord>, v: string, default: Option<Number>)
    ensures (forall r <- log :: r.variable != v) ==> ValueIn(Replay(log), v, default) == default
    ensures forall i :: LatestAt(log, v, i) ==> ValueIn(Replay(log), v, default) == log[i].value
  {
    IndexHasOnlyWritten(log, v);
    if i :| 0 <= i < |log| && log[i].variable == v { assert log[i] in log; }
    forall i | LatestAt(log, v, i) ensures ValueIn(Replay(log), v, default) == log[i].value {
      IndexIsLastWriter(log, i);
    }
  }

  lemma LoadFirst(c: Codec, r: StateRecord, rest: Bytes, file: Bytes)
    requires c.Lawful() && file == c.encode(r) + [NEWLINE] + rest && LoadRecords(c, rest).Ok?
    ensures LoadRecords(c, file) == Ok([r] + LoadRecords(c, rest).value)
  {
    assert OneLine(c.encode(r)) && c.decode(c.encode(r)) == Some(r);
    FirstLine(c.encode(r), rest);
    assert Strip(c.encode(r)) == c.encode(r);
  }

  /** Loading any file the store itself wrote gives back exactly the records put into it. */
  lemma {:induction false} LoadInvertsPuts(c: Codec, log: seq<StateRecord>)
    requires c.Lawful()
    ensures LoadRecords(c, Encode(c, log)) == Ok(log)
    decreases |log|
  {
    if log != [] {
      var behind, file := Encode(c, log[1..]), Encode(c, log);
      assert file == c.encode(log[0]) + [NEWLINE] + behind by {
        EncodeFront(c, log, []);
        assert file + [] == file && behind + [] == behind;
      }
      LoadInvertsPuts(c, log[1..]);
      LoadFirst(c, log[0], behind, file);
      assert [log[0]] + log[1..] == log;
    }
  }

  // ---- damaged files ---------------------------------------------------------------------------

  /** The lines of a file, without their newlines. */
  function Lines(b: Bytes): seq<Bytes>
    decreases |b|
  {
    if b == [] then [] else [b[..LineEnd(b)]] + Lines(AfterLine(b))
  }

  /** Every line is blank or a record. */
  predicate AllParse(c: Codec, b: Bytes) {
    forall line <- Lines(b) :: Strip(line) == [] || c.decode(Strip(line)).Some?
  }

  /** The store loads what the evaluator reads if and only if every line parses; else it raises. */
  lemma {:induction false} ReadersAgree(c: Codec, b: Bytes)
    ensures if AllParse(c, b) then LoadRecords(c, b) == Ok(ReadRecords(c, b))
            else LoadRecords(c, b) == Error("JSONDecodeError")
    decreases |b|
  {
    if b != [] {
      ReadersAgree(c, AfterLine(b));
      FirstParses(c, b);
    }
  }

  lemma FirstParses(c: Codec, b: Bytes)
    requires b != []
    ensures AllParse(c, b)
       <==> (Strip(b[..LineEnd(b)]) == [] || c.decode(Strip(b[..LineEnd(b)])).Some?) && AllParse(c, AfterLine(b))
  {
    var first, rest := b[..LineEnd(b)], Lines(AfterLine(b));
    assert Lines(b) == [first] + rest;
    assert first in Lines(b) && forall line <- rest :: line in Lines(b);
  }

  function Prepended(log: seq<StateRecord>, loaded: Result<seq<StateRecord>>): Result<seq<StateRecord>> {
    match loaded
    case Ok(rs) => Ok(log + rs)
    case Error(e) => Error(e)
  }

  lemma LoadBare(c: Codec, line: Bytes, rest: Bytes)
    requires Bare(line)
    ensures LoadRecords(c, line + [NEWLINE] + rest)
         == match c.decode(line)
            case None => Error("JSONDecodeError")
            case Some(r) => Prepended([r], LoadRecords(c, rest))
  {
    FirstLine(line, rest);
  }

  lemma {:induction false} LoadBehind(c: Codec, log: seq<StateRecord>, rest: Bytes)
    requires c.Lawful()
    ensures LoadRecords(c, Encode(c, log) + rest) == Prepended(log, LoadRecords(c, rest))
    decreases |log|
  {
    if log == [] {
      assert Encode(c, log) + rest == rest;
      PrependNothing(LoadRecords(c, rest));
    } else {
      LoadBehind(c, log[1..], rest);
      PrependLoaded(c, log, rest);
    }
  }

  lemma PrependLoaded(c: Codec, log: seq<StateRecord>, rest: Bytes)
    requires c.Lawful() && log != []
    requires LoadRecords(c, Encode(c, log[1..]) + rest) == Prepended(log[1..], LoadRecords(c, rest))
    ensures LoadRecords(c, Encode(c, log) + rest) == Prepended(log, LoadRecords(c, rest))
  {
    LoadFront(c, log, rest);
    PrependTwice(log, LoadRecords(c, rest));
  }

  lemma PrependNothing(loaded: Result<seq<StateRecord>>)
    ensures Prepended([], loaded) == loaded
  {
    if loaded.Ok? { assert [] + loaded.value == loaded.value; }
  }

  lemma LoadFront(c: Codec, log: seq<StateRecord>, rest: Bytes)
    requires c.Lawful() && log != []
    ensures LoadRecords(c, Encode(c, log) + rest)
         == Prepended([log[0]], LoadRecords(c, Encode(c, log[1..]) + rest))
  {
    var line, behind := c.encode(log[0]), Encode(c, log[1..]) + rest;
    assert OneLine(line) && c.decode(line) == Some(log[0]);
    assert Encode(c, log) + rest == line + [NEWLINE] + behind by { EncodeFront(c, log, rest); }
    assert Bare(line);
    LoadBare(c, line, behind);
  }

  lemma PrependTwice(log: seq<StateRecord>, loaded: Result<seq<StateRecord>>)
    requires log != []
    ensures Prepended([log[0]], Prepended(log[1..], loaded)) == Prepended(log, loaded)
  {
    if loaded.Ok? { assert [log[0]] + (log[1..] + loaded.value) == log + loaded.value; }
  }

  /** After a torn write the store loads what the evaluator reads, or raises where it stops. */
  lemma TornWriteStopsTheStore(c: Codec, before: seq<StateRecord>, torn: Bytes, next: StateRecord,
                               later: seq<StateRecord>)
    requires c.Lawful() && NEWLINE !in torn && torn != [] && torn[0] == 0x7b
    ensures LoadRecords(c, Encode(c, before) + torn + Encode(c, [next] + later))
         == match c.decode(torn + c.encode(next))
            case None => Error("JSONDecodeError")
            case Some(r) => Ok(before + [r] + later)
  {
    var line, tail := torn + c.encode(next), Encode(c, later);
    TornLine(c, before, torn, next, later);
    LoadBehind(c, before, line + [NEWLINE] + tail);
    LoadBare(c, line, tail);
    LoadInvertsPuts(c, later);
    if c.decode(line).Some? {
      var r := c.decode(line).value;
      assert before + ([r] + later) == before + [r] + later;
    }
  }

  /** A second store opened on the file of the first agrees with it on every variable. */
  method Reopen(s: Store) returns (t: Store)
    requires s.Valid()
    ensures fresh(t) && t.Valid() && t.file == s.file && t.index == s.index && t.log == s.log
  {
    t := new Store(s.codec, s.file);
    LoadInvertsPuts(s.codec, s.log);
    var ok := t.Load();
  }
}
