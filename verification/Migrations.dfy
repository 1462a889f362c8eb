/** Postgres schema migrations by concurrent replicas (backend/db/postgres.go, `runMigrations` and
    `applyMigration`): one transaction per migration, under a transaction-scoped advisory lock. */
module Migrations {
  import opened Text

  datatype Migration = Migration(version: int, sql: string)

  /** Where a replica is in the transaction for its `k`-th migration. */
  datatype Phase =
    | Idle(k: nat)
    | Begun(k: nat)
    | Locked(k: nat)
    | LedgerExists(k: nat)
    | Checked(k: nat, applied: bool)
    | Ran(k: nat)
    | Inserted(k: nat)
    | Failed

  /** The committed database, the holder of the advisory lock, and the replicas. `executed` lists the
      migration scripts whose effects are committed, in order. Replica `r` knows the first `known[r]` migrations: during a
      rolling deployment older replicas know fewer. */
  datatype State = State(
    ledger: seq<int>, executed: seq<string>, holder: Option<nat>, known: seq<nat>, replicas: seq<Phase>)

  datatype Action =
    | Begin | Lock | CreateLedger | Check | Skip | Exec | Insert | Commit
    | CommitUnheard  // the commit succeeds but its answer is lost
    | Abort          // an error, a cancelled context or a crash: the transaction is rolled back
    | Restart

  predicate Holding(p: Phase) { p.Locked? || p.LedgerExists? || p.Checked? || p.Ran? || p.Inserted? }

  predicate ActionEnabled(plan: seq<Migration>, s: State, r: nat, a: Action)
    requires r < |s.replicas| == |s.known|
  {
    var p := s.replicas[r];
    match a
    case Begin => p.Idle? && p.k < s.known[r]
    case Lock => p.Begun? && s.holder.None?
    case CreateLedger => p.Locked?
    case Check => p.LedgerExists? && p.k < |plan|
    case Skip => p.Checked? && p.applied
    case Exec => p.Checked? && !p.applied
    case Insert => p.Ran? && p.k < |plan| && plan[p.k].version !in s.ledger
    case Commit => p.Inserted? && p.k < |plan|
    case CommitUnheard => p.Inserted? && p.k < |plan|
    case Abort => !p.Failed?
    case Restart => p.Failed?
  }

  /** Rolling back releases the lock and leaves the committed database as it was. */
  function Release(s: State, r: nat): Option<nat> { if s.holder == Some(r) then None else s.holder }

  function Apply(plan: seq<Migration>, s: State, r: nat, a: Action): State
    requires r < |s.replicas| == |s.known| && ActionEnabled(plan, s, r, a)
  {
    var p := s.replicas[r];
    match a
    case Begin => s.(replicas := s.replicas[r := Begun(p.k)])
    case Lock => s.(holder := Some(r), replicas := s.replicas[r := Locked(p.k)])
    case CreateLedger => s.(replicas := s.replicas[r := LedgerExists(p.k)])
    case Check => s.(replicas := s.replicas[r := Checked(p.k, plan[p.k].version in s.ledger)])
    case Skip => s.(holder := Release(s, r), replicas := s.replicas[r := Idle(p.k + 1)])
    case Exec => s.(replicas := s.replicas[r := Ran(p.k)])
    case Insert => s.(replicas := s.replicas[r := Inserted(p.k)])
    case Commit => Committed(plan, s, r, p.k).(replicas := s.replicas[r := Idle(p.k + 1)])
    case CommitUnheard => Committed(plan, s, r, p.k).(replicas := s.replicas[r := Failed])
    case Abort => s.(holder := Release(s, r), replicas := s.replicas[r := Failed])
    case Restart => s.(replicas := s.replicas[r := Idle(0)])
  }

  function Committed(plan: seq<Migration>, s: State, r: nat, k: nat): State
    requires k < |plan|
  {
    s.(ledger := s.ledger + [plan[k].version], executed := s.executed + [plan[k].sql], holder := Release(s, r))
  }

  /** The state after a run of replica actions, if every one of them was possible. */
  function After(plan: seq<Migration>, s: State, run: seq<(nat, Action)>): Option<State>
  {
    if run == [] then Some(s)
    else
      var before :- After(plan, s, run[..|run| - 1]);
      var (r, a) := run[|run| - 1];
      if r < |before.replicas| == |before.known| && ActionEnabled(plan, before, r, a)
      then Some(Apply(plan, before, r, a)) else None
  }

  ghost predicate DistinctVersions(plan: seq<Migration>)
  {
    forall i, j :: 0 <= i < j < |plan| ==> plan[i].version != plan[j].version
  }

  // ---------------------------------------------------------------- the invariant

  /** The ledger and the committed scripts are the first migrations of the plan, in order, each once. */
  ghost predicate IsPrefix(plan: seq<Migration>, ledger: seq<int>, executed: seq<string>)
  {
    && |executed| == |ledger| <= |plan|
    && forall i :: 0 <= i < |ledger| ==> ledger[i] == plan[i].version && executed[i] == plan[i].sql
  }

  /** What a replica in phase `p` knows when `m` migrations are committed. */
  predicate Knows(p: Phase, known: nat, m: nat)
  {
    match p
    case Failed => true
    case Idle(k) => k <= known && k <= m
    case Checked(k, applied) => k < known && k <= m && applied == (k < m)
    case Ran(k) => k < known && k == m
    case Inserted(k) => k < known && k == m
    case _ => p.k < known && p.k <= m
  }

  ghost predicate Inv(plan: seq<Migration>, s: State)
  {
    && IsPrefix(plan, s.ledger, s.executed)
    && |s.known| == |s.replicas| && (s.holder.Some? ==> s.holder.value < |s.replicas|)
    && forall r :: 0 <= r < |s.replicas| ==>
         && s.known[r] <= |plan| && Knows(s.replicas[r], s.known[r], |s.ledger|)
         && (Holding(s.replicas[r]) <==> s.holder == Some(r))
  }

  /** Where a deployment may start: some first migrations applied, nobody in a transaction. */
  predicate Initial(plan: seq<Migration>, s: State)
  {
    && |s.executed| == |s.ledger| <= |plan|
    && (forall i :: 0 <= i < |s.ledger| ==> s.ledger[i] == plan[i].version && s.executed[i] == plan[i].sql)
    && s.holder.None? && |s.known| == |s.replicas|
    && (forall r :: 0 <= r < |s.replicas| ==> s.known[r] <= |plan| && s.replicas[r] == Idle(0))
  }

  /** A version is in the ledger exactly when its migration is among the first ones. */
  lemma InLedgerExactlyWhen(plan: seq<Migration>, ledger: seq<int>, executed: seq<string>, k: nat)
    requires DistinctVersions(plan) && IsPrefix(plan, ledger, executed) && k < |plan|
    ensures plan[k].version in ledger <==> k < |ledger|
  {
    if k < |ledger| {
      assert ledger[k] in ledger;
    }
  }

  lemma StepKeepsInv(plan: seq<Migration>, s: State, r: nat, a: Action)
    requires DistinctVersions(plan) && Inv(plan, s) && r < |s.replicas| && ActionEnabled(plan, s, r, a)
    ensures Inv(plan, Apply(plan, s, r, a))
    ensures s.ledger <= Apply(plan, s, r, a).ledger && Apply(plan, s, r, a).known == s.known
  {
    var p := s.replicas[r];
    if a.Check? {
      InLedgerExactlyWhen(plan, s.ledger, s.executed, p.k);
    }
  }

  lemma {:induction false} RunKeepsInv(plan: seq<Migration>, s: State, run: seq<(nat, Action)>)
    requires DistinctVersions(plan) && Inv(plan, s) && After(plan, s, run).Some?
    ensures Inv(plan, After(plan, s, run).value)
    ensures s.ledger <= After(plan, s, run).value.ledger && After(plan, s, run).value.known == s.known
    decreases |run|
  {
    if run != [] {
      RunKeepsInv(plan, s, run[..|run| - 1]);
      var (r, a) := run[|run| - 1];
      StepKeepsInv(plan, After(plan, s, run[..|run| - 1]).value, r, a);
    }
  }

  // ---------------------------------------------------------------- results over every run

  /** Whatever crashes, rollbacks and interleavings happen, the committed ledger is a prefix of the migration
      list that never shrinks, the scripts were committed once each and in that order, and no two replicas are
      ever in the protected part of the transaction together. */
  lemma LedgerIsAlwaysAPrefix(plan: seq<Migration>, s: State, run: seq<(nat, Action)>)
    requires DistinctVersions(plan) && Initial(plan, s) && After(plan, s, run).Some?
    ensures var t := After(plan, s, run).value;
            && IsPrefix(plan, t.ledger, t.executed) && s.ledger <= t.ledger
            && forall q, r :: 0 <= q < |t.replicas| && 0 <= r < |t.replicas| ==>
                 Holding(t.replicas[q]) && Holding(t.replicas[r]) ==> q == r
  {
    RunKeepsInv(plan, s, run);
  }

  /** A replica that has been through all the migrations it knows finds every one of them committed. */
  lemma FinishedSeesAll(plan: seq<Migration>, s: State, run: seq<(nat, Action)>, r: nat)
    requires DistinctVersions(plan) && Initial(plan, s) && After(plan, s, run).Some? && r < |s.known|
    requires r < |After(plan, s, run).value.replicas| && After(plan, s, run).value.replicas[r] == Idle(s.known[r])
    ensures s.known[r] <= |plan|
    ensures forall k :: 0 <= k < s.known[r] ==>
              plan[k].version in After(plan, s, run).value.ledger && plan[k].sql in After(plan, s, run).value.executed
  {
    RunKeepsInv(plan, s, run);
    var t := After(plan, s, run).value;
    forall k | 0 <= k < s.known[r] ensures plan[k].version in t.ledger && plan[k].sql in t.executed {
      assert t.ledger[k] == plan[k].version && t.executed[k] == plan[k].sql;
    }
  }

  /** The primary key of the ledger is never violated. */
  lemma InsertNeverConflicts(plan: seq<Migration>, s: State, run: seq<(nat, Action)>, r: nat)
    requires DistinctVersions(plan) && Initial(plan, s) && After(plan, s, run).Some?
    requires r < |After(plan, s, run).value.replicas| && After(plan, s, run).value.replicas[r].Ran?
    ensures |After(plan, s, run).value.known| == |After(plan, s, run).value.replicas|
    ensures ActionEnabled(plan, After(plan, s, run).value, r, Insert)
  {
    RunKeepsInv(plan, s, run);
    var t := After(plan, s, run).value;
    InLedgerExactlyWhen(plan, t.ledger, t.executed, t.replicas[r].k);
  }

  /** The committed database changes by exactly the commits, heard or not, each by its one migration; everything else,
      crashes included, leaves it as it was. */
  lemma CommittedExactlyWhen(plan: seq<Migration>, s: State, r: nat, a: Action)
    requires r < |s.replicas| == |s.known| && ActionEnabled(plan, s, r, a)
    ensures var t := Apply(plan, s, r, a);
            if a.Commit? || a.CommitUnheard? then
              && s.replicas[r].Inserted? && s.replicas[r].k < |plan|
              && t.ledger == s.ledger + [plan[s.replicas[r].k].version] && t.executed == s.executed + [plan[s.replicas[r].k].sql]
            else t.ledger == s.ledger && t.executed == s.executed
  {
  }

  // ---------------------------------------------------------------- progress

  function NextAction(p: Phase): Action
    requires !p.Failed?
  {
    match p
    case Idle(_) => Begin
    case Begun(_) => Lock
    case Locked(_) => CreateLedger
    case LedgerExists(_) => Check
    case Checked(_, applied) => if applied then Skip else Exec
    case Ran(_) => Insert
    case Inserted(_) => Commit
  }

  function Stage(p: Phase): nat
  {
    match p
    case Idle(_) => 0
    case Begun(_) => 1
    case Locked(_) => 2
    case LedgerExists(_) => 3
    case Checked(_, _) => 4
    case Ran(_) => 5
    case Inserted(_) => 6
    case Failed => 7
  }

  /** Actions a replica has left until it is through the migrations it knows, at most. */
  function Left(p: Phase, known: nat): int
  {
    if p.Failed? then 0 else 7 * (known - p.k) - Stage(p)
  }

  /** A live replica that is not through and is not shut out by another can always take its next action. */
  lemma CanStep(plan: seq<Migration>, s: State, r: nat)
    requires DistinctVersions(plan) && Inv(plan, s) && r < |s.replicas| && (s.holder.None? || s.holder == Some(r))
    requires !s.replicas[r].Failed? && s.replicas[r] != Idle(s.known[r])
    ensures ActionEnabled(plan, s, r, NextAction(s.replicas[r]))
    ensures var t := Apply(plan, s, r, NextAction(s.replicas[r]));
            && !t.replicas[r].Failed? && (t.holder.None? || t.holder == Some(r))
            && 0 <= Left(t.replicas[r], s.known[r]) < Left(s.replicas[r], s.known[r])
            && forall q :: 0 <= q < |s.replicas| && q != r ==> t.replicas[q] == s.replicas[q]
  {
    var p := s.replicas[r];
    if p.Ran? {
      InLedgerExactlyWhen(plan, s.ledger, s.executed, p.k);
    }
  }

  lemma {:induction false} AfterCons(plan: seq<Migration>, s: State, r: nat, a: Action, rest: seq<(nat, Action)>)
    requires r < |s.replicas| == |s.known| && ActionEnabled(plan, s, r, a)
    ensures After(plan, s, [(r, a)] + rest) == After(plan, Apply(plan, s, r, a), rest)
    decreases |rest|
  {
    if rest == [] {
      assert [(r, a)] + rest == [(r, a)];
      assert [(r, a)][..0] == [];
    } else {
      AfterCons(plan, s, r, a, rest[..|rest| - 1]);
      assert ([(r, a)] + rest)[..|rest|] == [(r, a)] + rest[..|rest| - 1];
    }
  }

  lemma {:induction false} CanFinishAlone(plan: seq<Migration>, s: State, r: nat) returns (run: seq<(nat, Action)>)
    requires DistinctVersions(plan) && Inv(plan, s) && r < |s.replicas| && !s.replicas[r].Failed?
    requires s.holder.None? || s.holder == Some(r)
    ensures After(plan, s, run).Some? && r < |After(plan, s, run).value.replicas|
    ensures After(plan, s, run).value.replicas[r] == Idle(s.known[r])
    decreases Left(s.replicas[r], s.known[r])
  {
    if s.replicas[r] == Idle(s.known[r]) {
      run := [];
    } else {
      var a := NextAction(s.replicas[r]);
      CanStep(plan, s, r);
      StepKeepsInv(plan, s, r, a);
      var rest := CanFinishAlone(plan, Apply(plan, s, r, a), r);
      AfterCons(plan, s, r, a, rest);
      run := [(r, a)] + rest;
    }
  }

  /** No reachable state is stuck: without any failure, the holder of the lock can let go of it and any
      live replica can then come to its end. */
  lemma {:induction false} CanFinish(plan: seq<Migration>, s: State, r: nat) returns (run: seq<(nat, Action)>)
    requires DistinctVersions(plan) && Inv(plan, s) && r < |s.replicas| && !s.replicas[r].Failed?
    ensures After(plan, s, run).Some? && r < |After(plan, s, run).value.replicas|
    ensures After(plan, s, run).value.replicas[r] == Idle(s.known[r])
    decreases if s.holder.Some?
              then Left(s.replicas[s.holder.value], s.known[s.holder.value]) + 1 else 0
  {
    if s.holder.None? || s.holder == Some(r) {
      run := CanFinishAlone(plan, s, r);
    } else {
      var q := s.holder.value;
      var a := NextAction(s.replicas[q]);
      CanStep(plan, s, q);
      StepKeepsInv(plan, s, q, a);
      var rest := CanFinish(plan, Apply(plan, s, q, a), r);
      AfterCons(plan, s, q, a, rest);
      run := [(q, a)] + rest;
    }
  }

  // ---------------------------------------------------------------- one replica's loop

  class Database {
    var ledger: seq<int>
    var executed: seq<string>

    constructor ()
      ensures ledger == [] && executed == []
    {
      ledger, executed := [], [];
    }

    /** One transaction; `ok` is false when some statement of it fails. */
    method ApplyMigration(m: Migration, ok: bool) returns (applied: bool)
      modifies this
      ensures applied == ok
      ensures ledger == if ok && m.version !in old(ledger) then old(ledger) + [m.version] else old(ledger)
      ensures executed == if ok && m.version !in old(ledger) then old(executed) + [m.sql] else old(executed)
    {
      if !ok {
        return false;
      }
      if m.version in ledger {
        return true;
      }
      executed := executed + [m.sql];
      ledger := ledger + [m.version];
      return true;
    }

    /** The loop over the migrations stops at the first failure; `answers` says which transactions succeed.
        What is committed is the longer of what was there and what the loop got through. */
    method RunMigrations(plan: seq<Migration>, answers: seq<bool>) returns (done: bool, through: nat)
      requires DistinctVersions(plan) && IsPrefix(plan, ledger, executed) && |answers| == |plan|
      modifies this
      ensures IsPrefix(plan, ledger, executed) && old(ledger) <= ledger && old(executed) <= executed
      ensures through <= |plan| && |ledger| == if through < |old(ledger)| then |old(ledger)| else through
      ensures (forall i :: 0 <= i < through ==> answers[i]) && (through < |plan| ==> !answers[through])
      ensures done == (through == |plan|)
    {
      through := 0;
      while through < |plan|
        invariant 0 <= through <= |plan| && IsPrefix(plan, ledger, executed)
        invariant old(ledger) <= ledger && old(executed) <= executed
        invariant |ledger| == if through < |old(ledger)| then |old(ledger)| else through
        invariant forall i :: 0 <= i < through ==> answers[i]
      {
        InLedgerExactlyWhen(plan, ledger, executed, through);
        var applied := ApplyMigration(plan[through], answers[through]);
        if !applied {
          return false, through;
        }
        through := through + 1;
      }
      return true, through;
    }
  }
}
