/** addons/schema_version.py: forward migrations that can be stopped anywhere and resumed. */
module Migrations {
  import opened Prelude

  const CURRENT_SCHEMA_VERSION := 6

  // ---- the data directory ---------------------------------------------------------------------

  /** What the state document holds under schema_version. */
  datatype VersionField = Missing | Number(n: int) | Garbled

  /** system_state.json; `others` are its other fields. */
  datatype StateFile = Absent | Unreadable | Doc(version: VersionField, others: map<string, string>)

  /** A data file: written by a migration at some time, or put there by anyone else. */
  datatype Content = Written(template: string, stamp: int) | Foreign(text: string)

  datatype Label = Label(from: int, upTo: int)

  datatype AuditEntry = AuditEntry(name: Label, stamp: int)

  /** A backup is a copy of the directory, named after a migration and the second it was taken in. */
  datatype BackupName = BackupName(name: Label, second: int)
  datatype Snapshot = Snapshot(doc: StateFile, files: map<string, Content>, audit: seq<AuditEntry>)

  datatype Disk = Disk(
    doc: StateFile,
    files: map<string, Content>,
    audit: seq<AuditEntry>,
    backups: map<BackupName, Snapshot>)

  function VersionOf(doc: StateFile): int {
    if doc.Doc? && doc.version.Number? then doc.version.n else 0
  }

  function WithVersion(doc: StateFile, version: int): StateFile {
    Doc(Number(version), if doc.Doc? then doc.others else map[])
  }

  // ---- migrations -------------------------------------------------------------------------------

  /** A file that a migration creates unless it exists. */
  datatype Template = Template(file: string, text: string)

  datatype Migration = Migration(version: int, templates: seq<Template>)

  /** The registered migrations, sorted by version. */
  type Registry = seq<Migration>

  predicate Ascending(registry: Registry) {
    forall i, j :: 0 <= i < j < |registry| ==> registry[i].version < registry[j].version
  }

  const BUILT_IN: Registry := [
    Migration(1, []),
    Migration(2, [Template("bootstrap_state.json", "bootstrap")]),
    Migration(3, [Template("api_foundation_state.json", "foundation")]),
    Migration(4, [Template("database_layer_state.json", "database layer")]),
    Migration(5, [Template("operator_auth_state.json", "operator auth")]),
    Migration(6,
              [Template("companion_core_state.json", "companion"),
               Template("build_milestones_state.json", "milestones")])
  ]

  // ---- a run as a list of atomic steps ------------------------------------------------------------

  datatype Op =
    | Backup(name: Label)
    | Create(template: Template)
    | SetVersion(version: int)
    | Audit(name: Label)

  function Creates(templates: seq<Template>): seq<Op> {
    if templates == [] then [] else [Create(templates[0])] + Creates(templates[1..])
  }

  function MigrationOps(current: int, m: Migration): seq<Op> {
    [Backup(Label(current, m.version))] + Creates(m.templates)
      + [SetVersion(m.version), Audit(Label(current, m.version))]
  }

  /** Everything a run does that finds version `current`. */
  function Program(registry: Registry, current: int): seq<Op> {
    if registry == [] then
      if current < CURRENT_SCHEMA_VERSION then [SetVersion(CURRENT_SCHEMA_VERSION)] else []
    else if registry[0].version > current then
      MigrationOps(current, registry[0]) + Program(registry[1..], registry[0].version)
    else
      Program(registry[1..], current)
  }

  function Labels(registry: Registry, current: int): seq<Label> {
    if registry == [] then []
    else if registry[0].version > current then
      [Label(current, registry[0].version)] + Labels(registry[1..], registry[0].version)
    else
      Labels(registry[1..], current)
  }

  /** Copying onto an existing backup raises. */
  predicate Raises(op: Op, d: Disk, now: int) {
    op.Backup? && BackupName(op.name, now) in d.backups
  }

  function Apply(op: Op, d: Disk, now: int): Disk {
    match op
    case Backup(l) => d.(backups := d.backups[BackupName(l, now) := Snapshot(d.doc, d.files, d.audit)])
    case Create(t) => if t.file in d.files then d else d.(files := d.files[t.file := Written(t.text, now)])
    case SetVersion(v) => d.(doc := WithVersion(d.doc, v))
    case Audit(l) => d.(audit := d.audit + [AuditEntry(l, now)])
  }

  /** The disk after the steps, and whether none of them raised. */
  datatype Outcome = Outcome(disk: Disk, ok: bool)

  /** The i-th step of a run happens at clock(i). */
  type Clock = nat -> int

  function Exec(ops: seq<Op>, d: Disk, clock: Clock, t: nat): Outcome
    decreases |ops|
  {
    if ops == [] then Outcome(d, true)
    else if Raises(ops[0], d, clock(t)) then Outcome(d, false)
    else Exec(ops[1..], Apply(ops[0], d, clock(t)), clock, t + 1)
  }

  function Run(registry: Registry, d: Disk, clock: Clock): Outcome {
    Exec(Program(registry, VersionOf(d.doc)), d, clock, 0)
  }

  lemma {:induction false} ExecSplit(a: seq<Op>, b: seq<Op>, d: Disk, clock: Clock, t: nat)
    ensures var first := Exec(a, d, clock, t);
            Exec(a + b, d, clock, t) == if first.ok then Exec(b, first.disk, clock, t + |a|) else first
    decreases |a|
  {
    if a == [] {
      assert a + b == b;
    } else {
      assert (a + b)[1..] == a[1..] + b;
      if !Raises(a[0], d, clock(t)) { ExecSplit(a[1..], b, Apply(a[0], d, clock(t)), clock, t + 1); }
    }
  }

  lemma CreatesFirst(templates: seq<Template>, d: Disk, clock: Clock, t: nat)
    requires templates != []
    ensures Exec(Creates(templates), d, clock, t)
         == Exec(Creates(templates[1..]), Apply(Create(templates[0]), d, clock(t)), clock, t + 1)
  {
    assert Creates(templates)[1..] == Creates(templates[1..]);
  }

  /** The i-th round of the loop, and what is left for the following ones. */
  lemma PendingFrom(registry: Registry, i: nat, current: int, d: Disk, clock: Clock, t: nat)
    requires i < |registry|
    ensures var m := registry[i];
            if m.version > current then
              var one := Exec(MigrationOps(current, m), d, clock, t);
              && Exec(Program(registry[i..], current), d, clock, t)
                 == (if one.ok
                     then Exec(Program(registry[i + 1..], m.version), one.disk, clock, t + 3 + |m.templates|)
                     else one)
              && Labels(registry[i..], current) == [Label(current, m.version)] + Labels(registry[i + 1..], m.version)
            else
              && Program(registry[i..], current) == Program(registry[i + 1..], current)
              && Labels(registry[i..], current) == Labels(registry[i + 1..], current)
  {
    var m := registry[i];
    assert registry[i..][1..] == registry[i + 1..];
    CreatesLength(m.templates);
    ExecSplit(MigrationOps(current, m), Program(registry[i + 1..], m.version), d, clock, t);
  }

  /** The directory, changed step by step. */
  class DataDirectory {
    var doc: StateFile
    var files: map<string, Content>
    var audit: seq<AuditEntry>
    var backups: map<BackupName, Snapshot>

    function Contents(): Disk
      reads this
    {
      Disk(doc, files, audit, backups)
    }

    method ReadVersion() returns (version: int)
      ensures version == VersionOf(doc)
      ensures if doc.Doc? && doc.version.Number? then version == doc.version.n else version == 0
    {
      match doc
      case Doc(Number(n), _) => version := n;
      case _ => version := 0;
    }

    method WriteVersion(version: int)
      modifies this
      ensures Contents() == Apply(SetVersion(version), old(Contents()), 0)
      ensures doc == Doc(Number(version), if old(doc).Doc? then old(doc).others else map[])
    {
      var others := match doc
        case Doc(_, others) => others
        case _ => map[];
      doc := Doc(Number(version), others);
    }

    method BackupData(name: Label, now: int) returns (ok: bool)
      modifies this
      ensures ok == !Raises(Backup(name), old(Contents()), now)
      ensures Contents() == if ok then Apply(Backup(name), old(Contents()), now) else old(Contents())
      ensures ok <==> BackupName(name, now) !in old(backups)
      ensures ok ==> backups == old(backups)[BackupName(name, now) := Snapshot(doc, files, audit)]
    {
      var dest := BackupName(name, now);
      if dest in backups {
        return false;
      }
      backups := backups[dest := Snapshot(doc, files, audit)];
      ok := true;
    }

    /** Writes the file unless it exists. */
    method CreateFile(template: Template, now: int)
      modifies this
      ensures Contents() == Apply(Create(template), old(Contents()), now)
    {
      if template.file !in files {
        files := files[template.file := Written(template.text, now)];
      }
    }

    method Migrate(templates: seq<Template>, clock: Clock, t: nat)
      modifies this
      ensures Outcome(Contents(), true) == Exec(Creates(templates), old(Contents()), clock, t)
    {
      ghost var d, rest := Contents(), templates;
      ghost var all := Exec(Creates(templates), d, clock, t);
      var i := 0;
      while i < |templates|
        invariant 0 <= i <= |templates| && rest == templates[i..] && Contents() == d
        invariant all == Exec(Creates(rest), d, clock, t + i)
      {
        CreatesFirst(rest, d, clock, t + i);
        CreateFile(templates[i], clock(t + i));
        d := Apply(Create(templates[i]), d, clock(t + i));
        rest := rest[1..];
        i := i + 1;
      }
    }

    method AppendAudit(name: Label, now: int)
      modifies this
      ensures Contents() == Apply(Audit(name), old(Contents()), now)
      ensures audit == old(audit) + [AuditEntry(name, now)]
    {
      audit := audit + [AuditEntry(name, now)];
    }

    /** One round of the loop. */
    method ApplyOne(current: int, m: Migration, clock: Clock, t: nat) returns (ok: bool)
      modifies this
      ensures Outcome(Contents(), ok) == Exec(MigrationOps(current, m), old(Contents()), clock, t)
    {
      var name := Label(current, m.version);
      MigrationUnrolled(current, m, Contents(), clock, t);
      ok := BackupData(name, clock(t));
      if ok {
        Migrate(m.templates, clock, t + 1);
        WriteVersion(m.version);
        AppendAudit(name, clock(t + 2 + |m.templates|));
      }
    }

    /** What a run does once no migration is left. */
    method EnsureCurrent(current: int, ghost clock: Clock, ghost t: nat)
      modifies this
      ensures Outcome(Contents(), true) == Exec(Program([], current), old(Contents()), clock, t)
    {
      if current < CURRENT_SCHEMA_VERSION {
        OneOp(SetVersion(CURRENT_SCHEMA_VERSION), Contents(), clock, t);
        WriteVersion(CURRENT_SCHEMA_VERSION);
      }
    }

    /** Runs what is pending and returns the labels of what it applied; an existing backup makes it raise. */
    method RunMigrations(registry: Registry, clock: Clock) returns (result: Result<seq<Label>>)
      modifies this
      ensures Outcome(Contents(), result.Ok?) == Run(registry, old(Contents()), clock)
      ensures result.Ok? ==> result.value == Labels(registry, VersionOf(old(doc)))
    {
      var current := ReadVersion();
      var applied: seq<Label> := [];
      var t: nat := 0;
      ghost var d := Contents();
      ghost var whole, all := Run(registry, d, clock), Labels(registry, current);
      var i := 0;
      assert registry[0..] == registry;
      while i < |registry|
        invariant 0 <= i <= |registry| && Contents() == d
        invariant whole == Exec(Program(registry[i..], current), d, clock, t)
        invariant all == applied + Labels(registry[i..], current)
      {
        var m := registry[i];
        PendingFrom(registry, i, current, d, clock, t);
        if m.version > current {
          var ok := ApplyOne(current, m, clock, t);
          if !ok {
            return Error("backup exists");
          }
          d := Contents();
          t := t + 3 + |m.templates|;
          applied := applied + [Label(current, m.version)];
          current := m.version;
        }
        i := i + 1;
      }
      assert registry[i..] == [];
      EnsureCurrent(current, clock, t);
      result := Ok(applied);
    }
  }

  lemma {:induction false} CreatesLength(templates: seq<Template>)
    ensures |Creates(templates)| == |templates|
  {
    if templates != [] { CreatesLength(templates[1..]); }
  }

  lemma OneOp(a: Op, d: Disk, clock: Clock, t: nat)
    requires !a.Backup?
    ensures Exec([a], d, clock, t) == Outcome(Apply(a, d, clock(t)), true)
  {
    assert [a][1..] == [];
  }

  lemma TwoOps(a: Op, b: Op, d: Disk, clock: Clock, t: nat)
    requires !a.Backup? && !b.Backup?
    ensures Exec([a, b], d, clock, t) == Outcome(Apply(b, Apply(a, d, clock(t)), clock(t + 1)), true)
  {
    assert [a, b][1..] == [b];
    OneOp(b, Apply(a, d, clock(t)), clock, t + 1);
  }

  lemma MigrationUnrolled(current: int, m: Migration, d: Disk, clock: Clock, t: nat)
    ensures var name := Label(current, m.version);
            var all := Exec(MigrationOps(current, m), d, clock, t);
            if Raises(Backup(name), d, clock(t)) then all == Outcome(d, false)
            else
              var created := Exec(Creates(m.templates), Apply(Backup(name), d, clock(t)), clock, t + 1);
              if !created.ok then all == created
              else
                var versioned := Apply(SetVersion(m.version), created.disk, 0);
                all == Outcome(Apply(Audit(name), versioned, clock(t + 2 + |m.templates|)), true)
  {
    var name := Label(current, m.version);
    var tail := [SetVersion(m.version), Audit(name)];
    CreatesLength(m.templates);
    assert MigrationOps(current, m) == [Backup(name)] + (Creates(m.templates) + tail);
    if !Raises(Backup(name), d, clock(t)) {
      var d1 := Apply(Backup(name), d, clock(t));
      assert MigrationOps(current, m)[1..] == Creates(m.templates) + tail;
      ExecSplit(Creates(m.templates), tail, d1, clock, t + 1);
      TwoOps(SetVersion(m.version), Audit(name), Exec(Creates(m.templates), d1, clock, t + 1).disk, clock,
             t + 1 + |m.templates|);
    }
  }
}
