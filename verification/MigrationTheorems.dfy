/** What the migrations guarantee when runs are stopped at any step, any number of times. */
module MigrationTheorems {
  import opened Prelude
  import opened Migrations

  // ---- the directory up to timestamps ----------------------------------------------------------

  function Erase(c: Content): Content {
    if c.Written? then Written(c.template, 0) else c
  }

  function Shape(files: map<string, Content>): map<string, Content> {
    map f | f in files :: Erase(files[f])
  }

  function Fill(shape: map<string, Content>, templates: seq<Template>): map<string, Content>
    decreases |templates|
  {
    if templates == [] then shape
    else
      var t := templates[0];
      Fill(if t.file in shape then shape else shape[t.file := Written(t.text, 0)], templates[1..])
  }

  /** What an uninterrupted run makes of a version, the files and the state document. */
  function Target(registry: Registry, current: int): int {
    if registry == [] then Max(current, CURRENT_SCHEMA_VERSION)
    else Target(registry[1..], Max(current, registry[0].version))
  }

  function FinalFiles(registry: Registry, current: int, shape: map<string, Content>): map<string, Content> {
    if registry == [] then shape
    else if registry[0].version > current then
      FinalFiles(registry[1..], registry[0].version, Fill(shape, registry[0].templates))
    else
      FinalFiles(registry[1..], current, shape)
  }

  function FinalDoc(registry: Registry, current: int, doc: StateFile): StateFile {
    var v := Target(registry, current);
    if v == current then doc else WithVersion(doc, v)
  }

  /** What the directory is going to be once a run completes. */
  datatype Settled = Settled(doc: StateFile, files: map<string, Content>)

  function Outlook(registry: Registry, d: Disk): Settled {
    var v := VersionOf(d.doc);
    Settled(FinalDoc(registry, v, d.doc), FinalFiles(registry, v, Shape(d.files)))
  }

  // ---- stopped runs -------------------------------------------------------------------------------

  /** A run that gets at most `steps` steps far. */
  datatype Attempt = Attempt(steps: nat, clock: Clock)

  function Cut(ops: seq<Op>, k: nat): seq<Op> {
    if k <= |ops| then ops[..k] else ops
  }

  function Stopped(registry: Registry, d: Disk, a: Attempt): Disk {
    Exec(Cut(Program(registry, VersionOf(d.doc)), a.steps), d, a.clock, 0).disk
  }

  function AfterAttempts(registry: Registry, d: Disk, attempts: seq<Attempt>): Disk
    decreases |attempts|
  {
    if attempts == [] then d
    else AfterAttempts(registry, Stopped(registry, d, attempts[0]), attempts[1..])
  }

  // ---- filling in files ------------------------------------------------------------------------------

  lemma {:induction false} FillAgain(shape: map<string, Content>, templates: seq<Template>, j: nat)
    requires j <= |templates|
    ensures Fill(Fill(shape, templates[..j]), templates) == Fill(shape, templates)
    decreases |templates|
  {
    if templates != [] {
      var t := templates[0];
      var one := if t.file in shape then shape else shape[t.file := Written(t.text, 0)];
      if j == 0 {
        FillAgain(one, templates[1..], 0);
        assert templates[..0] == [];
      } else {
        assert templates[..j][1..] == templates[1..][..j - 1];
        FillAgain(one, templates[1..], j - 1);
        FillKeeps(one, templates[1..][..j - 1]);
      }
    }
  }

  lemma {:induction false} FillKeeps(shape: map<string, Content>, templates: seq<Template>)
    ensures forall f <- shape :: f in Fill(shape, templates) && Fill(shape, templates)[f] == shape[f]
    decreases |templates|
  {
    if templates != [] {
      var t := templates[0];
      FillKeeps(if t.file in shape then shape else shape[t.file := Written(t.text, 0)], templates[1..]);
    }
  }

  lemma {:induction false} CreatesFill(templates: seq<Template>, d: Disk, clock: Clock, t: nat)
    ensures var r := Exec(Creates(templates), d, clock, t);
            && r.ok && r.disk == d.(files := r.disk.files)
            && Shape(r.disk.files) == Fill(Shape(d.files), templates)
    decreases |templates|
  {
    if templates != [] {
      var x := templates[0];
      var d1 := Apply(Create(x), d, clock(t));
      assert Creates(templates)[1..] == Creates(templates[1..]);
      CreatesFill(templates[1..], d1, clock, t + 1);
      assert Shape(d1.files) == if x.file in Shape(d.files) then Shape(d.files)
        else Shape(d.files)[x.file := Written(x.text, 0)];
    }
  }

  lemma {:induction false} CreatesPrefix(templates: seq<Template>, j: nat)
    requires j <= |templates|
    ensures |Creates(templates)| == |templates| && Creates(templates)[..j] == Creates(templates[..j])
  {
    CreatesLength(templates);
    if j > 0 {
      CreatesPrefix(templates[1..], j - 1);
      assert templates[..j][1..] == templates[1..][..j - 1];
    }
  }

  // ---- one migration, stopped anywhere ---------------------------------------------------------------

  /** Before the version is written: only files and backups may have changed. */
  predicate Early(m: Migration, d: Disk, e: Disk, j: nat) {
    && j <= |m.templates| && e.doc == d.doc && e.audit == d.audit
    && Shape(e.files) == Fill(Shape(d.files), m.templates[..j])
  }

  /** From then on: all files are there, and the audit entry may be. */
  predicate Late(current: int, m: Migration, d: Disk, e: Disk, audited: bool, stamp: int) {
    && e.doc == WithVersion(d.doc, m.version)
    && Shape(e.files) == Fill(Shape(d.files), m.templates)
    && e.audit == d.audit + if audited then [AuditEntry(Label(current, m.version), stamp)] else []
  }

  lemma MigrationCut(current: int, m: Migration, d: Disk, k: nat, clock: Clock, t: nat) returns (j: nat, stamp: int)
    requires k <= |MigrationOps(current, m)|
    ensures var r := Exec(MigrationOps(current, m)[..k], d, clock, t);
            if !r.ok then r.disk == d
            else if k <= 1 + |m.templates| then Early(m, d, r.disk, j)
            else Late(current, m, d, r.disk, k == |MigrationOps(current, m)|, stamp)
  {
    var ops, n := MigrationOps(current, m), |m.templates|;
    var name := Label(current, m.version);
    j, stamp := 0, 0;
    CreatesLength(m.templates);
    assert m.templates[..0] == [];
    if 0 < k && !Raises(Backup(name), d, clock(t)) {
      var d1 := Apply(Backup(name), d, clock(t));
      if k <= 1 + n {
        j := k - 1;
        CreatesPrefix(m.templates, j);
        assert ops[..k] == [Backup(name)] + Creates(m.templates[..j]);
        assert ops[..k][1..] == Creates(m.templates[..j]);
        CreatesFill(m.templates[..j], d1, clock, t + 1);
      } else {
        CreatesFill(m.templates, d1, clock, t + 1);
        stamp := clock(t + 2 + n);
        if k == 2 + n {
          assert ops[..k][1..] == Creates(m.templates) + [SetVersion(m.version)];
          ExecSplit(Creates(m.templates), [SetVersion(m.version)], d1, clock, t + 1);
          OneOp(SetVersion(m.version), Exec(Creates(m.templates), d1, clock, t + 1).disk, clock, t + 1 + n);
          assert d.audit + [] == d.audit;
        } else {
          assert ops[..k] == ops;
          MigrationUnrolled(current, m, d, clock, t);
        }
      }
    }
  }

  // ---- what every stopped run keeps -------------------------------------------------------------------

  lemma AscendingRest(registry: Registry)
    requires registry != [] && Ascending(registry)
    ensures Ascending(registry[1..])
    ensures forall m <- registry[1..] :: m.version > registry[0].version
  {
  }

  lemma {:induction false} TargetGrows(registry: Registry, current: int)
    ensures Target(registry, current) >= current && Target(registry, current) >= CURRENT_SCHEMA_VERSION
  {
    if registry != [] { TargetGrows(registry[1..], Max(current, registry[0].version)); }
  }

  lemma CutSplit(a: seq<Op>, b: seq<Op>, k: nat, d: Disk, clock: Clock, t: nat)
    requires k <= |a| + |b|
    ensures k <= |a| ==> (a + b)[..k] == a[..k]
    ensures k > |a| ==> (a + b)[..k] == a + b[..k - |a|]
    ensures k > |a| ==> var first := Exec(a, d, clock, t);
              Exec((a + b)[..k], d, clock, t) == if first.ok then Exec(b[..k - |a|], first.disk, clock, t + |a|)
                else first
  {
    if k > |a| {
      assert (a + b)[..k] == a + b[..k - |a|];
      ExecSplit(a, b[..k - |a|], d, clock, t);
    }
  }

  /** What a run that starts at version `current` leaves after k steps. */
  function Left(registry: Registry, current: int, d: Disk, k: nat, clock: Clock, t: nat): Disk
    requires k <= |Program(registry, current)|
  {
    Exec(Program(registry, current)[..k], d, clock, t).disk
  }

  /** Stopped within the first pending migration, or past it. */
  lemma Progress(registry: Registry, current: int, d: Disk, k: nat, clock: Clock, t: nat)
    returns (m: Migration, mid: Disk, past: bool, k': nat, j: nat, audited: bool, stamp: int)
    requires registry != [] && registry[0].version > current && k <= |Program(registry, current)|
    ensures m == registry[0]
    ensures past ==> && Late(current, m, d, mid, audited, stamp)
                     && k' <= |Program(registry[1..], m.version)|
                     && Left(registry, current, d, k, clock, t)
                        == Left(registry[1..], m.version, mid, k', clock, t + |MigrationOps(current, m)|)
    ensures !past ==> Early(m, d, Left(registry, current, d, k, clock, t), j)
  {
    m := registry[0];
    var ops, rest := MigrationOps(current, m), Program(registry[1..], m.version);
    CutSplit(ops, rest, k, d, clock, t);
    CreatesLength(m.templates);
    var cut := if k <= |ops| then k else |ops|;
    assert ops[..|ops|] == ops;
    j, stamp := MigrationCut(current, m, d, cut, clock, t);
    var r := Exec(ops[..cut], d, clock, t);
    mid := r.disk;
    audited := cut == |ops|;
    past := r.ok && cut > 1 + |m.templates|;
    k' := if k <= |ops| then 0 else k - |ops|;
    if past {
      assert rest[..0] == [];
    } else {
      if !r.ok { j := 0; assert m.templates[..0] == []; }
      assert Left(registry, current, d, k, clock, t) == mid;
    }
  }

  /** No stop changes what the directory is going to be, nor lowers the version. */
  lemma {:induction false} StopKeepsOutlook(registry: Registry, d: Disk, k: nat, clock: Clock, t: nat)
    requires Ascending(registry) && k <= |Program(registry, VersionOf(d.doc))|
    ensures var e := Left(registry, VersionOf(d.doc), d, k, clock, t);
            Outlook(registry, e) == Outlook(registry, d) && VersionOf(e.doc) >= VersionOf(d.doc)
    decreases |registry|
  {
    var current := VersionOf(d.doc);
    var e := Left(registry, current, d, k, clock, t);
    if registry == [] {
      if k == 1 {
        assert Program(registry, current)[..k] == [SetVersion(CURRENT_SCHEMA_VERSION)];
        OneOp(SetVersion(CURRENT_SCHEMA_VERSION), d, clock, t);
      }
    } else if registry[0].version <= current {
      AscendingRest(registry);
      StopKeepsOutlook(registry[1..], d, k, clock, t);
    } else {
      AscendingRest(registry);
      var m, mid, past, k', j, audited, stamp := Progress(registry, current, d, k, clock, t);
      if past {
        StopKeepsOutlook(registry[1..], mid, k', clock, t + |MigrationOps(current, m)|);
        TargetGrows(registry[1..], m.version);
      } else {
        FillAgain(Shape(d.files), m.templates, j);
      }
    }
  }

  // ---- completed runs -----------------------------------------------------------------------------------

  lemma {:induction false} NothingPending(registry: Registry, current: int, shape: map<string, Content>)
    requires current >= CURRENT_SCHEMA_VERSION && forall m <- registry :: m.version <= current
    ensures Program(registry, current) == [] && Labels(registry, current) == []
    ensures Target(registry, current) == current && FinalFiles(registry, current, shape) == shape
  {
    if registry != [] { NothingPending(registry[1..], current, shape); }
  }

  lemma {:induction false} TargetCovers(registry: Registry, current: int)
    ensures forall m <- registry :: m.version <= Target(registry, current)
  {
    if registry != [] {
      var next := Max(current, registry[0].version);
      TargetCovers(registry[1..], next);
      TargetGrows(registry[1..], next);
    }
  }

  function Entered(audit: seq<AuditEntry>): seq<Label> {
    seq(|audit|, i requires 0 <= i < |audit| => audit[i].name)
  }

  lemma MigrationAudits(current: int, m: Migration, d: Disk, clock: Clock, t: nat)
    requires Exec(MigrationOps(current, m), d, clock, t).ok
    ensures var mid := Exec(MigrationOps(current, m), d, clock, t).disk;
            VersionOf(mid.doc) == m.version && Entered(mid.audit) == Entered(d.audit) + [Label(current, m.version)]
  {
    var ops := MigrationOps(current, m);
    assert ops[..|ops|] == ops;
    CreatesLength(m.templates);
    var j, stamp := MigrationCut(current, m, d, |ops|, clock, t);
  }

  /** A run that is not stopped reaches the target version and records each label it applied. */
  lemma {:induction false} CompleteRunReaches(registry: Registry, d: Disk, clock: Clock, t: nat)
    requires Ascending(registry) && Exec(Program(registry, VersionOf(d.doc)), d, clock, t).ok
    ensures var v := VersionOf(d.doc);
            var e := Exec(Program(registry, v), d, clock, t).disk;
            && VersionOf(e.doc) == Target(registry, v)
            && Entered(e.audit) == Entered(d.audit) + Labels(registry, v)
    decreases |registry|
  {
    var current := VersionOf(d.doc);
    if registry == [] {
      if current < CURRENT_SCHEMA_VERSION { OneOp(SetVersion(CURRENT_SCHEMA_VERSION), d, clock, t); }
    } else if registry[0].version <= current {
      AscendingRest(registry);
      CompleteRunReaches(registry[1..], d, clock, t);
    } else {
      AscendingRest(registry);
      var mid := CompleteOne(registry, d, clock, t);
      CompleteRunReaches(registry[1..], mid, clock, t + 3 + |registry[0].templates|);
    }
  }

  /** The first pending migration of a run that is not stopped. */
  lemma CompleteOne(registry: Registry, d: Disk, clock: Clock, t: nat) returns (mid: Disk)
    requires registry != [] && registry[0].version > VersionOf(d.doc)
    requires Exec(Program(registry, VersionOf(d.doc)), d, clock, t).ok
    ensures var m := registry[0];
            && VersionOf(mid.doc) == m.version
            && Entered(mid.audit) == Entered(d.audit) + [Label(VersionOf(d.doc), m.version)]
            && Exec(Program(registry, VersionOf(d.doc)), d, clock, t)
               == Exec(Program(registry[1..], m.version), mid, clock, t + 3 + |m.templates|)
  {
    var m, current := registry[0], VersionOf(d.doc);
    var ops := MigrationOps(current, m);
    CreatesLength(m.templates);
    ExecSplit(ops, Program(registry[1..], m.version), d, clock, t);
    MigrationAudits(current, m, d, clock, t);
    mid := Exec(ops, d, clock, t).disk;
  }

  /** A run that completes does what was in prospect: the same files, up to timestamps, and the same state document. */
  lemma CompleteRunFulfils(registry: Registry, d: Disk, clock: Clock)
    requires Ascending(registry) && Run(registry, d, clock).ok
    ensures var e := Run(registry, d, clock).disk;
            Settled(e.doc, Shape(e.files)) == Outlook(registry, d)
  {
    var v := VersionOf(d.doc);
    var ops := Program(registry, v);
    assert ops[..|ops|] == ops;
    StopKeepsOutlook(registry, d, |ops|, clock, 0);
    CompleteRunReaches(registry, d, clock, 0);
    var e := Run(registry, d, clock).disk;
    TargetGrows(registry, v);
    TargetCovers(registry, v);
    NothingPending(registry, Target(registry, v), Shape(e.files));
  }

  /** A second complete run applies nothing and changes nothing. */
  lemma SecondRunAppliesNothing(registry: Registry, d: Disk, clock: Clock, again: Clock)
    requires Ascending(registry) && Run(registry, d, clock).ok
    ensures var e := Run(registry, d, clock).disk;
            Run(registry, e, again) == Outcome(e, true) && Labels(registry, VersionOf(e.doc)) == []
  {
    var v := VersionOf(d.doc);
    CompleteRunReaches(registry, d, clock, 0);
    TargetGrows(registry, v);
    TargetCovers(registry, v);
    NothingPending(registry, Target(registry, v), map[]);
  }

  lemma {:induction false} AttemptsKeepOutlook(registry: Registry, d: Disk, attempts: seq<Attempt>)
    requires Ascending(registry)
    ensures var e := AfterAttempts(registry, d, attempts);
            Outlook(registry, e) == Outlook(registry, d) && VersionOf(e.doc) >= VersionOf(d.doc)
    decreases |attempts|
  {
    if attempts != [] {
      var a := attempts[0];
      var ops := Program(registry, VersionOf(d.doc));
      var k := if a.steps <= |ops| then a.steps else |ops|;
      assert Cut(ops, a.steps) == ops[..k];
      StopKeepsOutlook(registry, d, k, a.clock, 0);
      AttemptsKeepOutlook(registry, Stopped(registry, d, a), attempts[1..]);
    }
  }

  /**
   * However often runs were stopped before, and wherever, a run that completes leaves the same
   * state document and the same files, up to timestamps, as one uninterrupted run.
   */
  lemma InterruptionsDoNotShow(registry: Registry, d: Disk, attempts: seq<Attempt>, clock: Clock, other: Clock)
    requires Ascending(registry)
    requires Run(registry, AfterAttempts(registry, d, attempts), clock).ok && Run(registry, d, other).ok
    ensures var resumed := Run(registry, AfterAttempts(registry, d, attempts), clock).disk;
            var straight := Run(registry, d, other).disk;
            resumed.doc == straight.doc && Shape(resumed.files) == Shape(straight.files)
  {
    AttemptsKeepOutlook(registry, d, attempts);
    CompleteRunFulfils(registry, AfterAttempts(registry, d, attempts), clock);
    CompleteRunFulfils(registry, d, other);
  }

  // ---- labels, files, audit and backups ------------------------------------------------------------------

  /** The labels of a run lead from version to version without a gap, up to the last registered one. */
  lemma {:induction false} LabelsChain(registry: Registry, current: int)
    requires Ascending(registry)
    ensures var ls := Labels(registry, current);
            && (forall i :: 0 <= i < |ls| ==> ls[i].from < ls[i].upTo)
            && (forall i :: 0 <= i < |ls| - 1 ==> ls[i].upTo == ls[i + 1].from)
            && (ls != [] ==> ls[0].from == current && ls[|ls| - 1].upTo == registry[|registry| - 1].version)
            && (ls == [] ==> registry == [] || registry[|registry| - 1].version <= current)
  {
    if registry != [] {
      AscendingRest(registry);
      LabelsChain(registry[1..], Max(current, registry[0].version));
    }
  }

  /** No step overwrites or removes a file that exists. */
  lemma {:induction false} FilesAreKept(ops: seq<Op>, d: Disk, clock: Clock, t: nat, f: string)
    requires f in d.files
    ensures var e := Exec(ops, d, clock, t).disk;
            f in e.files && e.files[f] == d.files[f]
    decreases |ops|
  {
    if ops != [] && !Raises(ops[0], d, clock(t)) {
      FilesAreKept(ops[1..], Apply(ops[0], d, clock(t)), clock, t + 1, f);
    }
  }

  /** The audit names each version at most once, in ascending order, and none beyond the recorded one. */
  predicate AuditOk(d: Disk) {
    && (forall i, j :: 0 <= i < j < |d.audit| ==> d.audit[i].name.upTo < d.audit[j].name.upTo)
    && (forall e <- d.audit :: e.name.upTo <= VersionOf(d.doc))
  }

  /** Entries are only appended, and only for versions that were not reached before. */
  predicate AddsNewer(d: Disk, e: Disk) {
    && |d.audit| <= |e.audit| && e.audit[..|d.audit|] == d.audit
    && forall i :: |d.audit| <= i < |e.audit| ==> e.audit[i].name.upTo > VersionOf(d.doc)
  }

  lemma {:induction false} StopKeepsAudit(registry: Registry, d: Disk, k: nat, clock: Clock, t: nat)
    requires Ascending(registry) && k <= |Program(registry, VersionOf(d.doc))|
    ensures var e := Left(registry, VersionOf(d.doc), d, k, clock, t);
            AddsNewer(d, e) && (AuditOk(d) ==> AuditOk(e))
    decreases |registry|
  {
    var current := VersionOf(d.doc);
    if registry == [] {
      if k == 1 {
        assert Program(registry, current)[..k] == [SetVersion(CURRENT_SCHEMA_VERSION)];
        OneOp(SetVersion(CURRENT_SCHEMA_VERSION), d, clock, t);
      }
    } else if registry[0].version <= current {
      AscendingRest(registry);
      StopKeepsAudit(registry[1..], d, k, clock, t);
    } else {
      AscendingRest(registry);
      var m, mid, past, k', j, audited, stamp := Progress(registry, current, d, k, clock, t);
      if past {
        StopKeepsAudit(registry[1..], mid, k', clock, t + |MigrationOps(current, m)|);
        LateAudit(current, m, d, mid, audited, stamp);
        AddsNewerChains(d, mid, Left(registry, current, d, k, clock, t));
      }
    }
  }

  lemma LateAudit(current: int, m: Migration, d: Disk, mid: Disk, audited: bool, stamp: int)
    requires Late(current, m, d, mid, audited, stamp) && m.version > VersionOf(d.doc)
    ensures AddsNewer(d, mid) && (AuditOk(d) ==> AuditOk(mid))
  {
  }

  lemma AddsNewerChains(d: Disk, mid: Disk, e: Disk)
    requires AddsNewer(d, mid) && AddsNewer(mid, e) && VersionOf(mid.doc) >= VersionOf(d.doc)
    ensures AddsNewer(d, e)
  {
    assert e.audit[..|d.audit|] == e.audit[..|mid.audit|][..|d.audit|];
    forall i | |d.audit| <= i < |e.audit| ensures e.audit[i].name.upTo > VersionOf(d.doc) {
      if i < |mid.audit| { assert e.audit[i] == e.audit[..|mid.audit|][i]; }
    }
  }

  /** Over any number of stopped runs each version is audited at most once. */
  lemma {:induction false} AuditedAtMostOnce(registry: Registry, d: Disk, attempts: seq<Attempt>)
    requires Ascending(registry) && AuditOk(d)
    ensures var e := AfterAttempts(registry, d, attempts);
            AuditOk(e) && AddsNewer(d, e)
    decreases |attempts|
  {
    if attempts != [] {
      var a := attempts[0];
      var ops := Program(registry, VersionOf(d.doc));
      var k := if a.steps <= |ops| then a.steps else |ops|;
      assert Cut(ops, a.steps) == ops[..k];
      StopKeepsAudit(registry, d, k, a.clock, 0);
      StopKeepsOutlook(registry, d, k, a.clock, 0);
      var mid := Stopped(registry, d, a);
      AuditedAtMostOnce(registry, mid, attempts[1..]);
      AddsNewerChains(d, mid, AfterAttempts(registry, d, attempts));
    }
  }

  /** A version whose entry was lost to a stop between writing it and auditing it is never audited. */
  lemma LostEntryStaysLost(registry: Registry, d: Disk, attempts: seq<Attempt>, version: int)
    requires Ascending(registry) && AuditOk(d) && version <= VersionOf(d.doc)
    requires forall e <- d.audit :: e.name.upTo != version
    ensures forall e <- AfterAttempts(registry, d, attempts).audit :: e.name.upTo != version
  {
    AuditedAtMostOnce(registry, d, attempts);
    var a := AfterAttempts(registry, d, attempts).audit;
    forall i | 0 <= i < |a| ensures a[i].name.upTo != version {
      if i < |d.audit| { assert a[i] == a[..|d.audit|][i]; }
    }
  }

  /** A backup, once taken, is never replaced or removed. */
  lemma {:induction false} BackupsAreKept(ops: seq<Op>, d: Disk, clock: Clock, t: nat, b: BackupName)
    requires b in d.backups
    ensures var e := Exec(ops, d, clock, t).disk;
            b in e.backups && e.backups[b] == d.backups[b]
    decreases |ops|
  {
    if ops != [] && !Raises(ops[0], d, clock(t)) {
      BackupsAreKept(ops[1..], Apply(ops[0], d, clock(t)), clock, t + 1, b);
    }
  }

  /** Each backup holds the directory at the version it is named after. */
  predicate BackupsOk(d: Disk) {
    forall b <- d.backups :: VersionOf(d.backups[b].doc) == b.name.from
  }

  /** Steps whose backups are named after the version reached before them. */
  predicate Chained(ops: seq<Op>, version: int) {
    ops == []
    || match ops[0]
       case Backup(l) => l.from == version && Chained(ops[1..], version)
       case SetVersion(v) => Chained(ops[1..], v)
       case _ => Chained(ops[1..], version)
  }

  lemma {:induction false} ChainedCreates(templates: seq<Template>, tail: seq<Op>, version: int)
    requires Chained(tail, version)
    ensures Chained(Creates(templates) + tail, version)
    decreases |templates|
  {
    var ops := Creates(templates) + tail;
    if templates == [] {
      assert ops == tail;
    } else {
      ChainedCreates(templates[1..], tail, version);
      assert ops[1..] == Creates(templates[1..]) + tail;
    }
  }

  lemma ChainedMigration(current: int, m: Migration, rest: seq<Op>)
    requires Chained(rest, m.version)
    ensures Chained(MigrationOps(current, m) + rest, current)
  {
    var entry := [Audit(Label(current, m.version))] + rest;
    var tail := [SetVersion(m.version)] + entry;
    assert entry[1..] == rest && tail[1..] == entry;
    ChainedCreates(m.templates, tail, current);
    assert MigrationOps(current, m) + rest == [Backup(Label(current, m.version))] + (Creates(m.templates) + tail);
    assert (MigrationOps(current, m) + rest)[1..] == Creates(m.templates) + tail;
  }

  lemma {:induction false} ProgramIsChained(registry: Registry, current: int)
    ensures Chained(Program(registry, current), current)
  {
    if registry != [] {
      if registry[0].version <= current {
        ProgramIsChained(registry[1..], current);
      } else {
        var m := registry[0];
        var rest := Program(registry[1..], m.version);
        ProgramIsChained(registry[1..], m.version);
        ChainedMigration(current, m, rest);
      }
    }
  }

  lemma {:induction false} ChainedPrefix(ops: seq<Op>, k: nat, version: int)
    requires Chained(ops, version) && k <= |ops|
    ensures Chained(ops[..k], version)
    decreases |ops|
  {
    if k > 0 {
      assert ops[..k][1..] == ops[1..][..k - 1];
      ChainedPrefix(ops[1..], k - 1, if ops[0].SetVersion? then ops[0].version else version);
    }
  }

  lemma {:induction false} TrackedStepsKeepBackups(ops: seq<Op>, d: Disk, clock: Clock, t: nat)
    requires Chained(ops, VersionOf(d.doc)) && BackupsOk(d)
    ensures BackupsOk(Exec(ops, d, clock, t).disk)
    decreases |ops|
  {
    if ops != [] && !Raises(ops[0], d, clock(t)) {
      TrackedStepsKeepBackups(ops[1..], Apply(ops[0], d, clock(t)), clock, t + 1);
    }
  }

  lemma {:induction false} BackupsNameTheirVersion(registry: Registry, d: Disk, attempts: seq<Attempt>)
    requires BackupsOk(d)
    ensures BackupsOk(AfterAttempts(registry, d, attempts))
    decreases |attempts|
  {
    if attempts != [] {
      var ops := Program(registry, VersionOf(d.doc));
      var k := if attempts[0].steps <= |ops| then attempts[0].steps else |ops|;
      assert Cut(ops, attempts[0].steps) == ops[..k];
      ProgramIsChained(registry, VersionOf(d.doc));
      ChainedPrefix(ops, k, VersionOf(d.doc));
      TrackedStepsKeepBackups(ops[..k], d, attempts[0].clock, 0);
      BackupsNameTheirVersion(registry, Stopped(registry, d, attempts[0]), attempts[1..]);
    }
  }

  // ---- when a run completes ----------------------------------------------------------------------------------

  predicate BackupNamesDiffer(ops: seq<Op>) {
    forall i, j {:trigger ops[i], ops[j]} :: 0 <= i < j < |ops| && ops[i].Backup? && ops[j].Backup? ==>
        ops[i].name != ops[j].name
  }

  /** The i-th step would copy onto a backup that is already on the disk. */
  predicate Collides(ops: seq<Op>, d: Disk, clock: Clock, t: nat, i: nat)
    requires i < |ops|
  {
    ops[i].Backup? && BackupName(ops[i].name, clock(t + i)) in d.backups
  }

  lemma {:induction false} CompletesWithoutCollision(ops: seq<Op>, d: Disk, clock: Clock, t: nat)
    requires BackupNamesDiffer(ops)
    ensures Exec(ops, d, clock, t).ok <==> forall i :: 0 <= i < |ops| ==> !Collides(ops, d, clock, t, i)
    decreases |ops|
  {
    if ops != [] {
      if Raises(ops[0], d, clock(t)) {
        assert Collides(ops, d, clock, t, 0);
      } else {
        var d1 := Apply(ops[0], d, clock(t));
        CompletesWithoutCollision(ops[1..], d1, clock, t + 1);
        forall i | 0 < i < |ops|
          ensures Collides(ops, d, clock, t, i) <==> Collides(ops[1..], d1, clock, t + 1, i - 1)
        {
          assert ops[1..][i - 1] == ops[i] && t + 1 + (i - 1) == t + i;
        }
        if !Exec(ops, d, clock, t).ok {
          var i :| 0 <= i < |ops| - 1 && Collides(ops[1..], d1, clock, t + 1, i);
          assert Collides(ops, d, clock, t, i + 1);
        } else {
          forall i | 0 <= i < |ops| ensures !Collides(ops, d, clock, t, i) {
            if i > 0 { assert !Collides(ops[1..], d1, clock, t + 1, i - 1); }
          }
        }
      }
    }
  }

  lemma {:induction false} CreatesAreCreates(templates: seq<Template>)
    ensures forall op <- Creates(templates) :: op.Create?
    decreases |templates|
  {
    if templates != [] { CreatesAreCreates(templates[1..]); }
  }

  lemma {:induction false} ProgramNames(registry: Registry, current: int)
    requires Ascending(registry)
    ensures forall op <- Program(registry, current) :: op.Backup? ==> op.name.upTo > current
    ensures BackupNamesDiffer(Program(registry, current))
  {
    if registry != [] {
      AscendingRest(registry);
      if registry[0].version <= current {
        ProgramNames(registry[1..], current);
      } else {
        var m := registry[0];
        var ops, rest := MigrationOps(current, m), Program(registry[1..], m.version);
        ProgramNames(registry[1..], m.version);
        CreatesAreCreates(m.templates);
        CreatesLength(m.templates);
        forall i | 0 < i < |ops| ensures !ops[i].Backup? {
          if i <= |m.templates| {
            assert ops[i] == Creates(m.templates)[i - 1] && Creates(m.templates)[i - 1] in Creates(m.templates);
          }
        }
        forall j | 0 <= j < |rest| && rest[j].Backup? ensures rest[j].name.upTo > m.version { assert rest[j] in rest; }
        forall i, j | 0 <= i < j < |ops + rest| && (ops + rest)[i].Backup? && (ops + rest)[j].Backup?
          ensures (ops + rest)[i].name != (ops + rest)[j].name
        {
          if i >= |ops| { assert rest[i - |ops|].name != rest[j - |ops|].name; }
        }
      }
    }
  }

  /** A run raises exactly when a pending migration was already backed up in the same second. */
  lemma CompletesExactly(registry: Registry, d: Disk, clock: Clock)
    requires Ascending(registry)
    ensures var ops := Program(registry, VersionOf(d.doc));
            Run(registry, d, clock).ok <==> forall i :: 0 <= i < |ops| ==> !Collides(ops, d, clock, 0, i)
  {
    var ops := Program(registry, VersionOf(d.doc));
    ProgramNames(registry, VersionOf(d.doc));
    CompletesWithoutCollision(ops, d, clock, 0);
    assert Run(registry, d, clock) == Exec(ops, d, clock, 0);
  }

  // ---- the migrations that ship -----------------------------------------------------------------------------------

  const FRESH := Disk(Absent, map[], [], map[])

  lemma FreshRun(registry: Registry, clock: Clock)
    requires Ascending(registry)
    ensures var r := Run(registry, FRESH, clock);
            && r.ok
            && r.disk.doc == FinalDoc(registry, 0, Absent)
            && r.disk.files.Keys == FinalFiles(registry, 0, map[]).Keys
            && Entered(r.disk.audit) == Labels(registry, 0)
  {
    CompletesExactly(registry, FRESH, clock);
    CompleteRunFulfils(registry, FRESH, clock);
    CompleteRunReaches(registry, FRESH, clock, 0);
    var e := Run(registry, FRESH, clock).disk;
    assert e.files.Keys == Shape(e.files).Keys;
    assert Shape(FRESH.files) == map[];
    assert Entered(FRESH.audit) == [];
  }

  /** The migrations to versions 1, 2, 3 and so on, as they ship. */
  predicate Consecutive(registry: Registry) {
    forall i :: 0 <= i < |registry| ==> registry[i].version == i + 1
  }

  /** With such migrations a fresh directory ends at the last version, with all their files, each version audited. */
  lemma FreshDirectory(registry: Registry, clock: Clock)
    requires Consecutive(registry) && |registry| == CURRENT_SCHEMA_VERSION
    ensures var r := Run(registry, FRESH, clock);
            && r.ok && r.disk.doc == Doc(Number(CURRENT_SCHEMA_VERSION), map[])
            && r.disk.files.Keys == PendingFiles(registry, 0)
            && Entered(r.disk.audit) == seq(CURRENT_SCHEMA_VERSION, i => Label(i, i + 1))
  {
    FreshRun(registry, clock);
    ConsecutiveLabels(registry, 0);
    assert registry[0..] == registry;
    FinalKeys(registry, 0, map[]);
  }

  lemma {:induction false} ConsecutiveLabels(registry: Registry, k: nat)
    requires Consecutive(registry) && k <= |registry| && |registry| == CURRENT_SCHEMA_VERSION
    ensures Target(registry[k..], k) == |registry|
    ensures Labels(registry[k..], k) == seq(|registry| - k, i => Label(k + i, k + i + 1))
    decreases |registry| - k
  {
    if k < |registry| {
      ConsecutiveLabels(registry, k + 1);
      assert registry[k..][1..] == registry[k + 1..];
    }
  }

  function FilesOf(templates: seq<Template>): set<string> {
    set t | t in templates :: t.file
  }

  function PendingFiles(registry: Registry, current: int): set<string> {
    if registry == [] then {}
    else
      (if registry[0].version > current then FilesOf(registry[0].templates) else {}) +
      PendingFiles(registry[1..], current)
  }

  const SHIPPED_FILES: set<string> := {
    "bootstrap_state.json", "api_foundation_state.json", "database_layer_state.json", "operator_auth_state.json",
    "companion_core_state.json", "build_milestones_state.json"
  }

  lemma PendingFrom(registry: Registry, k: nat)
    requires Consecutive(registry) && k < |registry|
    ensures PendingFiles(registry[k..], 0) == FilesOf(registry[k].templates) + PendingFiles(registry[k + 1..], 0)
  {
    assert registry[k..][0] == registry[k] && registry[k..][1..] == registry[k + 1..];
  }

  lemma BuiltInIsConsecutive()
    ensures Consecutive(BUILT_IN) && |BUILT_IN| == CURRENT_SCHEMA_VERSION == 6
  {
  }

  lemma OneFile(t: Template)
    ensures FilesOf([t]) == {t.file}
  {
  }

  lemma TwoFiles(t: Template, u: Template)
    ensures FilesOf([t, u]) == {t.file, u.file}
  {
    assert t in [t, u] && u in [t, u];
  }

  lemma ShippedTemplates()
    ensures |BUILT_IN| == 6
    ensures FilesOf(BUILT_IN[0].templates) == {}
    ensures FilesOf(BUILT_IN[1].templates) == {"bootstrap_state.json"}
    ensures FilesOf(BUILT_IN[2].templates) == {"api_foundation_state.json"}
    ensures FilesOf(BUILT_IN[3].templates) == {"database_layer_state.json"}
    ensures FilesOf(BUILT_IN[4].templates) == {"operator_auth_state.json"}
    ensures FilesOf(BUILT_IN[5].templates) == {"companion_core_state.json", "build_milestones_state.json"}
  {
    OneFile(Template("bootstrap_state.json", "bootstrap"));
    OneFile(Template("api_foundation_state.json", "foundation"));
    OneFile(Template("database_layer_state.json", "database layer"));
    OneFile(Template("operator_auth_state.json", "operator auth"));
    TwoFiles(Template("companion_core_state.json", "companion"), Template("build_milestones_state.json", "milestones"));
  }

  lemma SixMigrations(registry: Registry)
    requires Consecutive(registry) && |registry| == 6
    ensures PendingFiles(registry, 0)
         == FilesOf(registry[0].templates) + (FilesOf(registry[1].templates) + (FilesOf(registry[2].templates)
            + (FilesOf(registry[3].templates) + (FilesOf(registry[4].templates) + FilesOf(registry[5].templates)))))
  {
    assert registry[0..] == registry && registry[6..] == [];
    PendingFrom(registry, 0);
    PendingFrom(registry, 1);
    PendingFrom(registry, 2);
    PendingFrom(registry, 3);
    PendingFrom(registry, 4);
    PendingFrom(registry, 5);
  }

  lemma ShippedFiles()
    ensures PendingFiles(BUILT_IN, 0) == SHIPPED_FILES
  {
    BuiltInIsConsecutive();
    SixMigrations(BUILT_IN);
    ShippedTemplates();
  }

  /** The migrations that ship lead an empty directory to version 6 with these six files, each version audited. */
  lemma ShippedMigrations(clock: Clock)
    ensures var r := Run(BUILT_IN, FRESH, clock);
            && r.ok && r.disk.doc == Doc(Number(6), map[]) && r.disk.files.Keys == SHIPPED_FILES
            && Entered(r.disk.audit) == seq(6, i => Label(i, i + 1))
  {
    BuiltInIsConsecutive();
    ShippedFiles();
    FreshDirectory(BUILT_IN, clock);
  }

  lemma {:induction false} AllPending(registry: Registry, a: int, b: int)
    requires forall m <- registry :: m.version > a && m.version > b
    ensures PendingFiles(registry, a) == PendingFiles(registry, b)
  {
    if registry != [] { AllPending(registry[1..], a, b); }
  }

  lemma {:induction false} FillKeys(shape: map<string, Content>, templates: seq<Template>)
    ensures Fill(shape, templates).Keys == shape.Keys + FilesOf(templates)
    decreases |templates|
  {
    if templates != [] {
      var t := templates[0];
      FillKeys(if t.file in shape then shape else shape[t.file := Written(t.text, 0)], templates[1..]);
      assert FilesOf(templates) == {t.file} + FilesOf(templates[1..]);
    }
  }

  /** In the end there are the files there were and those of the pending migrations. */
  lemma {:induction false} FinalKeys(registry: Registry, current: int, shape: map<string, Content>)
    requires Ascending(registry)
    ensures FinalFiles(registry, current, shape).Keys == shape.Keys + PendingFiles(registry, current)
  {
    if registry != [] {
      AscendingRest(registry);
      var m := registry[0];
      if m.version > current {
        FillKeys(shape, m.templates);
        FinalKeys(registry[1..], m.version, Fill(shape, m.templates));
        AllPending(registry[1..], current, m.version);
      } else {
        FinalKeys(registry[1..], current, shape);
      }
    }
  }

  // ---- what the steps write ---------------------------------------------------------------------------

  /** The fields of the state document beside its version are never lost, and none are made up. */
  predicate KeepsOthers(was: StateFile, now: StateFile) {
    if was.Doc? then now.Doc? && now.others == was.others
    else now == was || (now.Doc? && now.others == map[])
  }

  /** Wherever the steps stop, a readable document keeps its other fields; a new one has none. */
  lemma {:induction false} OtherFieldsSurvive(ops: seq<Op>, d: Disk, clock: Clock, t: nat)
    ensures KeepsOthers(d.doc, Exec(ops, d, clock, t).disk.doc)
    decreases |ops|
  {
    if ops != [] && !Raises(ops[0], d, clock(t)) {
      OtherFieldsSurvive(ops[1..], Apply(ops[0], d, clock(t)), clock, t + 1);
    }
  }

  lemma {:induction false} OtherFieldsSurviveAttempts(registry: Registry, d: Disk, attempts: seq<Attempt>)
    ensures KeepsOthers(d.doc, AfterAttempts(registry, d, attempts).doc)
    decreases |attempts|
  {
    if attempts != [] {
      var a := attempts[0];
      OtherFieldsSurvive(Cut(Program(registry, VersionOf(d.doc)), a.steps), d, a.clock, 0);
      OtherFieldsSurviveAttempts(registry, Stopped(registry, d, a), attempts[1..]);
    }
  }

  /** The k-th step on the directory that the steps before it leave. */
  lemma StepAt(ops: seq<Op>, d: Disk, clock: Clock, t: nat, k: nat)
    requires k < |ops| && Exec(ops[..k], d, clock, t).ok
    ensures var mid := Exec(ops[..k], d, clock, t).disk;
            Exec(ops[..k + 1], d, clock, t)
            == if Raises(ops[k], mid, clock(t + k)) then Outcome(mid, false)
               else Outcome(Apply(ops[k], mid, clock(t + k)), true)
  {
    assert ops[..k + 1] == ops[..k] + [ops[k]];
    ExecSplit(ops[..k], [ops[k]], d, clock, t);
    assert [ops[k]][1..] == [];
  }

  /** A backup that is taken holds the whole directory as it stands then, so it can be restored from it. */
  lemma BackupHoldsTheDirectory(ops: seq<Op>, d: Disk, clock: Clock, t: nat, k: nat)
    requires k < |ops| && ops[k].Backup? && Exec(ops[..k], d, clock, t).ok
    ensures var mid, e := Exec(ops[..k], d, clock, t).disk, Exec(ops[..k + 1], d, clock, t);
            var name := BackupName(ops[k].name, clock(t + k));
            && (e.ok <==> name !in mid.backups)
            && (e.ok ==> e.disk == mid.(backups := mid.backups[name := Snapshot(mid.doc, mid.files, mid.audit)]))
  {
    StepAt(ops, d, clock, t, k);
  }

  /** An audit step adds the one entry for its label, stamped with the time of the step. */
  lemma AuditSaysWhen(ops: seq<Op>, d: Disk, clock: Clock, t: nat, k: nat)
    requires k < |ops| && ops[k].Audit? && Exec(ops[..k], d, clock, t).ok
    ensures var mid, e := Exec(ops[..k], d, clock, t).disk, Exec(ops[..k + 1], d, clock, t);
            e == Outcome(mid.(audit := mid.audit + [AuditEntry(ops[k].name, clock(t + k))]), true)
  {
    StepAt(ops, d, clock, t, k);
  }
}
