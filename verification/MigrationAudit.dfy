/** Which audit entries stopped migration runs lose: exactly those they stop right before. */
module MigrationAudit {
  import opened Prelude
  import opened Migrations
  import opened MigrationTheorems

  /** The labels of the pending migrations up to version v. */
  function LabelsUpTo(registry: Registry, current: int, v: int): seq<Label> {
    if registry == [] then []
    else if registry[0].version > current then
      var m := registry[0];
      (if m.version <= v then [Label(current, m.version)] else []) + LabelsUpTo(registry[1..], m.version, v)
    else
      LabelsUpTo(registry[1..], current, v)
  }

  /** The first k steps raise nothing, and the next one would be an audit entry. */
  predicate StopsAtAudit(ops: seq<Op>, d: Disk, k: nat, clock: Clock, t: nat)
    requires k <= |ops|
  {
    k < |ops| && ops[k].Audit? && Exec(ops[..k], d, clock, t).ok
  }

  lemma {:induction false} NoneUpTo(registry: Registry, current: int, v: int)
    requires forall m <- registry :: m.version > current ==> m.version > v
    ensures LabelsUpTo(registry, current, v) == []
    decreases |registry|
  {
    if registry != [] {
      if registry[0].version <= current {
        NoneUpTo(registry[1..], current, v);
      } else if forall m <- registry[1..] :: m.version > registry[0].version ==> m.version > v {
        NoneUpTo(registry[1..], registry[0].version, v);
      }
    }
  }

  lemma FirstStep(registry: Registry, current: int)
    ensures Program(registry, current) != [] ==> !Program(registry, current)[0].Audit?
    decreases |registry|
  {
    if registry != [] && registry[0].version <= current { FirstStep(registry[1..], current); }
  }

  function Versions(registry: Registry): set<int> {
    set m | m in registry :: m.version
  }

  /** Entries after a stop: those up to the version reached, or all but the last of them. */
  predicate AuditsTo(registry: Registry, d: Disk, e: Disk, lost: bool) {
    var v := VersionOf(e.doc);
    && Entered(e.audit) == Entered(d.audit) + LabelsUpTo(registry, VersionOf(d.doc), if lost then v - 1 else v)
    && (lost ==> v > VersionOf(d.doc) && v in Versions(registry))
  }

  /** One migration, stopped anywhere: the version it reaches and the entry it makes. */
  lemma MigrationEntries(m: Migration, d: Disk, k: nat, clock: Clock, t: nat)
    requires k <= |MigrationOps(VersionOf(d.doc), m)|
    ensures var ops := MigrationOps(VersionOf(d.doc), m);
            var r := Exec(ops[..k], d, clock, t);
            && VersionOf(r.disk.doc) == (if r.ok && k >= |m.templates| + 2 then m.version else VersionOf(d.doc))
            && Entered(r.disk.audit)
               == Entered(d.audit) + if r.ok && k == |m.templates| + 3 then [Label(VersionOf(d.doc), m.version)] else []
  {
    CreatesLength(m.templates);
    var j, stamp := MigrationCut(VersionOf(d.doc), m, d, k, clock, t);
    EnteredPush(d.audit, AuditEntry(Label(VersionOf(d.doc), m.version), stamp));
    assert d.audit + [] == d.audit && Entered(d.audit) + [] == Entered(d.audit);
  }

  lemma EnteredPush(audit: seq<AuditEntry>, x: AuditEntry)
    ensures Entered(audit + [x]) == Entered(audit) + [x.name]
  {
  }

  lemma AuditIsLast(current: int, m: Migration, k: nat)
    requires k < |MigrationOps(current, m)|
    ensures |MigrationOps(current, m)| == |m.templates| + 3
    ensures MigrationOps(current, m)[k].Audit? <==> k == |m.templates| + 2
    ensures k == |m.templates| + 2 ==> MigrationOps(current, m)[k] == Audit(Label(current, m.version))
  {
    CreatesLength(m.templates);
    CreatesAreCreates(m.templates);
    var creates := Creates(m.templates);
    if 0 < k <= |creates| { assert MigrationOps(current, m)[k] == creates[k - 1] && creates[k - 1] in creates; }
  }

  /** The labels at and before the first pending version. */
  lemma FirstLabels(registry: Registry, current: int)
    requires Ascending(registry) && registry != [] && registry[0].version > current
    ensures var m := registry[0];
            && LabelsUpTo(registry, current, current) == []
            && LabelsUpTo(registry, current, m.version - 1) == []
            && LabelsUpTo(registry, current, m.version) == [Label(current, m.version)]
  {
    AscendingRest(registry);
    NoneUpTo(registry, current, current);
    NoneUpTo(registry, current, registry[0].version - 1);
    NoneUpTo(registry[1..], registry[0].version, registry[0].version);
  }

  lemma FirstMigration(registry: Registry, d: Disk, k: nat, clock: Clock, t: nat)
    requires Ascending(registry) && registry != [] && registry[0].version > VersionOf(d.doc)
    requires k <= |MigrationOps(VersionOf(d.doc), registry[0])|
    ensures var ops := Program(registry, VersionOf(d.doc));
            && k <= |ops| && AuditsTo(registry, d, Exec(ops[..k], d, clock, t).disk, StopsAtAudit(ops, d, k, clock, t))
            && (StopsAtAudit(ops, d, k, clock, t) ==>
                  ops[k].name.upTo == VersionOf(Exec(ops[..k], d, clock, t).disk.doc))
  {
    var m, current := registry[0], VersionOf(d.doc);
    var mops, rest := MigrationOps(current, m), Program(registry[1..], m.version);
    CutSplit(mops, rest, k, d, clock, t);
    MigrationEntries(m, d, k, clock, t);
    FirstLabels(registry, current);
    FirstStep(registry[1..], m.version);
    CreatesLength(m.templates);
    if k < |mops| {
      AuditIsLast(current, m, k);
      assert (mops + rest)[k] == mops[k];
    } else if rest != [] {
      assert (mops + rest)[k] == rest[0];
    }
  }

  /** Wherever a run stops, an entry is missing if and only if it stopped right before that entry. */
  lemma {:induction false} StopAudits(registry: Registry, d: Disk, k: nat, clock: Clock, t: nat)
    requires Ascending(registry) && k <= |Program(registry, VersionOf(d.doc))|
    ensures var ops := Program(registry, VersionOf(d.doc));
            && AuditsTo(registry, d, Exec(ops[..k], d, clock, t).disk, StopsAtAudit(ops, d, k, clock, t))
            && (StopsAtAudit(ops, d, k, clock, t) ==>
                  ops[k].name.upTo == VersionOf(Exec(ops[..k], d, clock, t).disk.doc))
    decreases |registry|
  {
    var current := VersionOf(d.doc);
    var ops := Program(registry, current);
    if registry == [] {
      if k == 1 { OneOp(SetVersion(CURRENT_SCHEMA_VERSION), d, clock, t); }
    } else if registry[0].version <= current {
      AscendingRest(registry);
      StopAudits(registry[1..], d, k, clock, t);
    } else if k <= |MigrationOps(current, registry[0])| {
      FirstMigration(registry, d, k, clock, t);
    } else {
      PastFirst(registry, d, k, clock, t);
    }
  }

  lemma {:induction false} PastFirst(registry: Registry, d: Disk, k: nat, clock: Clock, t: nat)
    requires Ascending(registry) && registry != [] && registry[0].version > VersionOf(d.doc)
    requires |MigrationOps(VersionOf(d.doc), registry[0])| < k <= |Program(registry, VersionOf(d.doc))|
    ensures var ops := Program(registry, VersionOf(d.doc));
            && AuditsTo(registry, d, Exec(ops[..k], d, clock, t).disk, StopsAtAudit(ops, d, k, clock, t))
            && (StopsAtAudit(ops, d, k, clock, t) ==>
                  ops[k].name.upTo == VersionOf(Exec(ops[..k], d, clock, t).disk.doc))
    decreases |registry|, 0
  {
    var m, current := registry[0], VersionOf(d.doc);
    var mops, rest := MigrationOps(current, m), Program(registry[1..], m.version);
    AscendingRest(registry);
    CutSplit(mops, rest, k, d, clock, t);
    assert mops[..|mops|] == mops;
    CreatesLength(m.templates);
    MigrationEntries(m, d, |mops|, clock, t);
    var first := Exec(mops, d, clock, t);
    if first.ok {
      var k', t' := k - |mops|, t + |mops|;
      StopAudits(registry[1..], first.disk, k', clock, t');
      var e := Exec(rest[..k'], first.disk, clock, t').disk;
      var lost := StopsAtAudit(rest, first.disk, k', clock, t');
      VersionGrows(registry[1..], first.disk, k', clock, t');
      EntriesAddUp(registry, d, first.disk, e, lost);
      assert k < |mops + rest| ==> (mops + rest)[k] == rest[k'];
    } else {
      FirstLabels(registry, current);
    }
  }

  lemma VersionGrows(registry: Registry, d: Disk, k: nat, clock: Clock, t: nat)
    requires Ascending(registry) && k <= |Program(registry, VersionOf(d.doc))|
    ensures VersionOf(Exec(Program(registry, VersionOf(d.doc))[..k], d, clock, t).disk.doc) >= VersionOf(d.doc)
  {
    StopKeepsOutlook(registry, d, k, clock, t);
  }

  lemma EntriesAddUp(registry: Registry, d: Disk, mid: Disk, e: Disk, lost: bool)
    requires registry != [] && registry[0].version > VersionOf(d.doc) && VersionOf(mid.doc) == registry[0].version
    requires Entered(mid.audit) == Entered(d.audit) + [Label(VersionOf(d.doc), registry[0].version)]
    requires AuditsTo(registry[1..], mid, e, lost) && VersionOf(e.doc) >= VersionOf(mid.doc)
    ensures AuditsTo(registry, d, e, lost)
  {
    var v, m := if lost then VersionOf(e.doc) - 1 else VersionOf(e.doc), registry[0];
    Regroup(Entered(d.audit), Label(VersionOf(d.doc), m.version), LabelsUpTo(registry[1..], m.version, v));
  }

  lemma Regroup<T>(xs: seq<T>, x: T, ys: seq<T>)
    ensures xs + [x] + ys == xs + ([x] + ys)
  {
  }

  // ---- one stopped run -------------------------------------------------------------------------

  /** The run stopped between writing a version and auditing it. */
  predicate StopsBeforeAudit(registry: Registry, d: Disk, a: Attempt) {
    var ops := Program(registry, VersionOf(d.doc));
    a.steps <= |ops| && StopsAtAudit(ops, d, a.steps, a.clock, 0)
  }

  lemma StoppedAudits(registry: Registry, d: Disk, a: Attempt)
    requires Ascending(registry)
    ensures AuditsTo(registry, d, Stopped(registry, d, a), StopsBeforeAudit(registry, d, a))
  {
    var ops := Program(registry, VersionOf(d.doc));
    var k := if a.steps <= |ops| then a.steps else |ops|;
    assert Cut(ops, a.steps) == ops[..k];
    StopAudits(registry, d, k, a.clock, 0);
  }

  lemma LastBehind<T>(x: T, xs: seq<T>)
    requires xs != []
    ensures ([x] + xs)[|xs|] == xs[|xs| - 1] && ([x] + xs)[..|xs|] == [x] + xs[..|xs| - 1]
  {
  }

  /** The label of a pending version is the last one up to that version. */
  lemma {:induction false} LastLabel(registry: Registry, current: int, v: int)
    requires Ascending(registry) && v in Versions(registry) && v > current
    ensures var ls := LabelsUpTo(registry, current, v);
            ls != [] && ls[|ls| - 1].upTo == v && LabelsUpTo(registry, current, v - 1) == ls[..|ls| - 1]
    decreases |registry|
  {
    AscendingRest(registry);
    var m, rest := registry[0], registry[1..];
    if m.version == v {
      FirstLabels(registry, current);
    } else {
      assert v in Versions(rest) by {
        var x :| x in registry && x.version == v;
        assert x in rest;
      }
      if m.version <= current {
        LastLabel(rest, current, v);
      } else {
        assert m.version < v by { var x :| x in rest && x.version == v; }
        LastLabel(rest, m.version, v);
        LastBehind(Label(current, m.version), LabelsUpTo(rest, m.version, v));
      }
    }
  }

  /**
   * A stopped run has audited every version it reached, if and only if it did not stop between
   * writing a version and auditing it; then exactly that last entry is missing.
   */
  lemma StopLosesExactly(registry: Registry, d: Disk, a: Attempt)
    requires Ascending(registry)
    ensures var e := Stopped(registry, d, a);
            var full := Entered(d.audit) + LabelsUpTo(registry, VersionOf(d.doc), VersionOf(e.doc));
            && (Entered(e.audit) == full <==> !StopsBeforeAudit(registry, d, a))
            && (StopsBeforeAudit(registry, d, a) ==>
                  full != [] && full[|full| - 1].upTo == VersionOf(e.doc) && Entered(e.audit) == full[..|full| - 1])
  {
    StoppedAudits(registry, d, a);
    if StopsBeforeAudit(registry, d, a) {
      LastLabel(registry, VersionOf(d.doc), VersionOf(Stopped(registry, d, a).doc));
    }
  }

  // ---- every migration can lose its entry ---------------------------------------------------------

  /** Where the audit step of a pending migration stands in the program. */
  lemma {:induction false} AuditStep(registry: Registry, current: int, v: int) returns (k: nat)
    requires Ascending(registry) && v in Versions(registry) && v > current
    ensures var ops := Program(registry, current);
            k < |ops| && ops[k].Audit? && ops[k].name.upTo == v
    decreases |registry|
  {
    AscendingRest(registry);
    var m, rest := registry[0], registry[1..];
    CreatesLength(m.templates);
    if m.version == v {
      k := |m.templates| + 2;
    } else {
      var x :| x in registry && x.version == v;
      assert x in rest;
      if m.version <= current {
        k := AuditStep(rest, current, v);
      } else {
        var k' := AuditStep(rest, m.version, v);
        k := |m.templates| + 3 + k';
        assert Program(registry, current)[k] == Program(rest, m.version)[k'];
      }
    }
  }

  /** Whichever pending migration a run gets to audit, stopping right before that leaves it unaudited. */
  lemma StopBeforeAuditLosesTheEntry(registry: Registry, d: Disk, clock: Clock, v: int) returns (k: nat)
    requires Ascending(registry) && AuditOk(d) && v in Versions(registry) && v > VersionOf(d.doc)
    requires Run(registry, d, clock).ok
    ensures StopsBeforeAudit(registry, d, Attempt(k, clock))
    ensures var e := Stopped(registry, d, Attempt(k, clock));
            VersionOf(e.doc) == v && !Audited(e, v)
  {
    var ops := Program(registry, VersionOf(d.doc));
    k := AuditStep(registry, VersionOf(d.doc), v);
    assert ops == ops[..k] + ops[k..];
    ExecSplit(ops[..k], ops[k..], d, clock, 0);
    StopAudits(registry, d, k, clock, 0);
    StopAuditsExactly(registry, d, Attempt(k, clock), v);
  }

  // ---- many stopped runs -----------------------------------------------------------------------------

  predicate Audited(d: Disk, v: int) {
    exists e <- d.audit :: e.name.upTo == v
  }

  predicate Names(labels: seq<Label>, v: int) {
    exists l <- labels :: l.upTo == v
  }

  lemma {:induction false} LabelsName(registry: Registry, current: int, last: int, v: int)
    requires Ascending(registry)
    ensures Names(LabelsUpTo(registry, current, last), v) <==> v in Versions(registry) && current < v <= last
    decreases |registry|
  {
    if registry != [] {
      AscendingRest(registry);
      var m, rest := registry[0], registry[1..];
      assert v in Versions(registry) <==> v == m.version || v in Versions(rest) by {
        if v in Versions(registry) {
          var x :| x in registry && x.version == v;
          assert x == m || x in rest;
        }
      }
      if m.version <= current {
        LabelsName(rest, current, last, v);
      } else {
        LabelsName(rest, m.version, last, v);
        var l, ls := Label(current, m.version), LabelsUpTo(rest, m.version, last);
        if m.version <= last { assert l in [l] + ls; }
        assert forall x <- ls :: x in LabelsUpTo(registry, current, last);
      }
    }
  }

  lemma EnteredNames(d: Disk, e: Disk, labels: seq<Label>, v: int)
    requires Entered(e.audit) == Entered(d.audit) + labels
    ensures Audited(e, v) <==> Audited(d, v) || Names(labels, v)
  {
    AuditedIsNamed(d, v);
    AuditedIsNamed(e, v);
    assert forall l <- Entered(d.audit) + labels :: l in Entered(d.audit) || l in labels;
  }

  lemma AuditedIsNamed(d: Disk, v: int)
    ensures Audited(d, v) <==> Names(Entered(d.audit), v)
  {
    forall i | 0 <= i < |d.audit| ensures Entered(d.audit)[i] in Entered(d.audit) && d.audit[i] in d.audit {}
  }

  /** One stopped run audits the registered versions it reached, but for one it stopped right before. */
  lemma StopAuditsExactly(registry: Registry, d: Disk, a: Attempt, v: int)
    requires Ascending(registry) && AuditOk(d) && v > VersionOf(d.doc)
    ensures var e := Stopped(registry, d, a);
            Audited(e, v) <==> && v in Versions(registry) && v <= VersionOf(e.doc)
                               && !(StopsBeforeAudit(registry, d, a) && v == VersionOf(e.doc))
  {
    var e, lost := Stopped(registry, d, a), StopsBeforeAudit(registry, d, a);
    StoppedAudits(registry, d, a);
    var last := if lost then VersionOf(e.doc) - 1 else VersionOf(e.doc);
    EnteredNames(d, e, LabelsUpTo(registry, VersionOf(d.doc), last), v);
    LabelsName(registry, VersionOf(d.doc), last, v);
  }

  /** The versions whose entries the attempts lost: each stopped right before auditing one. */
  function LostBy(registry: Registry, d: Disk, attempts: seq<Attempt>): set<int>
    decreases |attempts|
  {
    if attempts == [] then {}
    else
      var e := Stopped(registry, d, attempts[0]);
      (if StopsBeforeAudit(registry, d, attempts[0]) then {VersionOf(e.doc)} else {})
        + LostBy(registry, e, attempts[1..])
  }

  lemma {:induction false} LostAreNewer(registry: Registry, d: Disk, attempts: seq<Attempt>)
    requires Ascending(registry)
    ensures forall v <- LostBy(registry, d, attempts) :: v > VersionOf(d.doc)
    decreases |attempts|
  {
    if attempts != [] {
      StoppedAudits(registry, d, attempts[0]);
      AttemptsKeepOutlook(registry, d, attempts[..1]);
      assert attempts[..1][1..] == [];
      LostAreNewer(registry, Stopped(registry, d, attempts[0]), attempts[1..]);
    }
  }

  /**
   * After any number of stopped runs, a registered version reached meanwhile is missing from the
   * audit if and only if one of the runs stopped right before auditing it.
   */
  lemma {:induction false} MissingExactly(registry: Registry, d: Disk, attempts: seq<Attempt>, v: int)
    requires Ascending(registry) && AuditOk(d) && v in Versions(registry)
    requires VersionOf(d.doc) < v <= VersionOf(AfterAttempts(registry, d, attempts).doc)
    ensures Audited(AfterAttempts(registry, d, attempts), v) <==> v !in LostBy(registry, d, attempts)
    decreases |attempts|
  {
    var a, mid, e := attempts[0], Stopped(registry, d, attempts[0]), AfterAttempts(registry, d, attempts);
    StopAuditsExactly(registry, d, a, v);
    AuditedAtMostOnce(registry, d, attempts[..1]);
    assert attempts[..1][1..] == [];
    AuditedAtMostOnce(registry, mid, attempts[1..]);
    LostAreNewer(registry, mid, attempts[1..]);
    if v <= VersionOf(mid.doc) {
      OldEntriesStay(mid, e, v);
    } else {
      MissingExactly(registry, mid, attempts[1..], v);
    }
  }

  lemma OldEntriesStay(mid: Disk, e: Disk, v: int)
    requires AddsNewer(mid, e) && v <= VersionOf(mid.doc)
    ensures Audited(e, v) <==> Audited(mid, v)
  {
    forall x <- mid.audit ensures x in e.audit { assert x in e.audit[..|mid.audit|]; }
    forall i | 0 <= i < |e.audit| ensures e.audit[i].name.upTo == v ==> e.audit[i] in mid.audit {
      if i < |mid.audit| { assert e.audit[i] == e.audit[..|mid.audit|][i]; }
    }
  }
}
