// Transactions, savepoints and retries.
//
// A caller's function is a finite tree of writes and nested transactions that
// may branch on how each nested call ended. `Run` and `Nest` execute such a tree
// against an engine that keeps a stack of named savepoints, any of whose
// commands may fail.

module Transactions {
  import opened Wrappers
  import opened Numerals
  import opened Quoting

  datatype Code =
    | Unknown
    | UniqueViolation
    | ForeignKeyViolation
    | NotNullViolation
    | CheckViolation
    | Deadlock
    | SerializationFailure
    | Busy
    | Timeout

  predicate Retryable(c: Code) {
    c.Deadlock? || c.SerializationFailure? || c.Busy?
  }

  datatype Cause =
    | FromFn(id: int)
    | SavepointFailed
    | ReleaseFailed
    | BeginFailed
    | CommitFailed
    | NestedOptions
    | NoSavepoints
    | RollbackAlsoFailed(original: Error)

  datatype Error = Error(cause: Cause, code: Code)

  datatype Outcome = Success | Failed(error: Error) | Panicked(value: int)

  // What a caller's function does. After a nested call it goes on with onOk,
  // onErr or onPanic; the last stands for code that recovers the panic, or for
  // Propagate, which ends with the outcome of the most recent nested call.
  datatype Prog =
    | Return(outcome: Outcome)
    | Propagate
    | Write(value: int, rest: Prog)
    | Nest(withOptions: bool, body: Prog, onOk: Prog, onErr: Prog, onPanic: Prog)

  // The engine: whether it has savepoints, and which of its commands fail.
  datatype Config = Config(savepoints: bool, quote: char, fails: nat -> Option<Code>)

  // ----- the meaning of a function, without any stack of savepoints

  datatype Effect = Effect(log: seq<int>, commands: nat, outcome: Outcome)

  function Meaning(cfg: Config, p: Prog, log: seq<int>, commands: nat, last: Outcome): Effect
    decreases p, 0
  {
    match p
    case Return(o) => Effect(log, commands, o)
    case Propagate => Effect(log, commands, last)
    case Write(w, rest) => Meaning(cfg, rest, log + [w], commands, last)
    case Nest(withOptions, body, onOk, onErr, onPanic) =>
      var r := NestMeaning(cfg, withOptions, body, log, commands);
      match r.outcome
      case Success => Meaning(cfg, onOk, r.log, r.commands, r.outcome)
      case Failed(_) => Meaning(cfg, onErr, r.log, r.commands, r.outcome)
      case Panicked(_) => Meaning(cfg, onPanic, r.log, r.commands, r.outcome)
  }

  // A nested call: its writes stay or go as a whole, depending on how the body
  // ended and on the one command that follows it.
  function NestMeaning(cfg: Config, withOptions: bool, body: Prog, log: seq<int>, commands: nat): Effect
    decreases body, 1
  {
    if withOptions then Effect(log, commands, Failed(Error(NestedOptions, Unknown)))
    else if !cfg.savepoints then Effect(log, commands, Failed(Error(NoSavepoints, Unknown)))
    else if cfg.fails(commands).Some? then
      Effect(log, commands + 1, Failed(Error(SavepointFailed, cfg.fails(commands).value)))
    else
      NestEnd(cfg, log, Meaning(cfg, body, log, commands + 1, Success))
  }

  function NestEnd(cfg: Config, log: seq<int>, inner: Effect): Effect {
    var c := inner.commands;
    match inner.outcome
    case Success =>
      if cfg.fails(c).Some? then Effect(inner.log, c + 1, Failed(Error(ReleaseFailed, cfg.fails(c).value)))
      else Effect(inner.log, c + 1, Success)
    case Failed(err) =>
      if cfg.fails(c).Some? then Effect(inner.log, c + 1, Failed(Error(RollbackAlsoFailed(err), err.code)))
      else Effect(log, c + 2, inner.outcome)
    case Panicked(_) =>
      Effect(if cfg.fails(c).Some? then inner.log else log, c + 1, inner.outcome)
  }

  // ----- the engine

  datatype Savepoint = Savepoint(name: string, snapshot: seq<int>)

  // The index just past the most recent savepoint called name, or 0.
  function Find(stack: seq<Savepoint>, name: string): (n: nat)
    ensures n <= |stack|
    ensures n > 0 ==> stack[n - 1].name == name
    ensures forall k :: n <= k < |stack| ==> stack[k].name != name
  {
    if stack == [] then 0
    else if stack[|stack| - 1].name == name then |stack|
    else Find(stack[..|stack| - 1], name)
  }

  class Engine {
    const cfg: Config
    var log: seq<int>              // the writes of the open transaction, in order
    var stack: seq<Savepoint>      // oldest first
    var commands: nat

    constructor (cfg: Config, start: seq<int>)
      ensures this.cfg == cfg && log == start && stack == [] && commands == 0
    {
      this.cfg := cfg;
      log, stack, commands := start, [], 0;
    }

    method Insert(w: int)
      modifies this`log
      ensures log == old(log) + [w]
    {
      log := log + [w];
    }

    method Save(name: string) returns (failure: Option<Code>)
      modifies this
      ensures failure == cfg.fails(old(commands)) && commands == old(commands) + 1
      ensures log == old(log)
      ensures stack == if failure.None? then old(stack) + [Savepoint(name, log)] else old(stack)
    {
      failure := cfg.fails(commands);
      commands := commands + 1;
      if failure.None? {
        stack := stack + [Savepoint(name, log)];
      }
    }

    // ROLLBACK TO SAVEPOINT restores the snapshot and forgets every later
    // savepoint, but keeps the one it names. An unknown name is an error.
    method RollbackTo(name: string) returns (failure: Option<Code>)
      modifies this
      ensures commands == old(commands) + 1
      ensures failure == if Find(old(stack), name) == 0 then Some(Unknown) else cfg.fails(old(commands))
      ensures failure.Some? ==> log == old(log) && stack == old(stack)
      ensures failure.None? ==>
                var n := Find(old(stack), name);
                n > 0 && log == old(stack)[n - 1].snapshot && stack == old(stack)[..n]
    {
      var n := Find(stack, name);
      failure := if n == 0 then Some(Unknown) else cfg.fails(commands);
      commands := commands + 1;
      if failure.None? {
        log, stack := stack[n - 1].snapshot, stack[..n];
      }
    }

    // RELEASE SAVEPOINT forgets the savepoint it names and every later one.
    method Release(name: string) returns (failure: Option<Code>)
      modifies this
      ensures commands == old(commands) + 1 && log == old(log)
      ensures failure == if Find(old(stack), name) == 0 then Some(Unknown) else cfg.fails(old(commands))
      ensures stack == if failure.Some? then old(stack) else old(stack)[..Find(old(stack), name) - 1]
    {
      var n := Find(stack, name);
      failure := if n == 0 then Some(Unknown) else cfg.fails(commands);
      commands := commands + 1;
      if failure.None? {
        stack := stack[..n - 1];
      }
    }
  }

  // The process-wide counter behind savepoint names. Other goroutines may
  // advance it at any time.
  class SavepointSeq {
    var n: nat

    method Add(others: nat) returns (k: nat)
      modifies this
      ensures old(n) < k == n
    {
      n := n + others + 1;
      k := n;
    }
  }

  function SavepointName(cfg: Config, k: nat): string {
    Quoted("row_sp_" + Decimal(k), cfg.quote)
  }

  lemma SavepointNamesDiffer(cfg: Config, j: nat, k: nat)
    requires SavepointName(cfg, j) == SavepointName(cfg, k)
    ensures j == k
  {
    var a, b := "row_sp_" + Decimal(j), "row_sp_" + Decimal(k);
    QuotedInjective(a, b, cfg.quote);
    assert a[7..] == Decimal(j) && b[7..] == Decimal(k);
    DecimalInjective(j, k);
  }

  predicate NamedBetween(cfg: Config, name: string, lo: nat, hi: nat) {
    exists k: nat :: lo < k <= hi && name == SavepointName(cfg, k)
  }

  // The stack kept everything it had; what is new on it was named from lo+1..hi.
  predicate Grown(cfg: Config, before: seq<Savepoint>, after: seq<Savepoint>, lo: nat, hi: nat) {
    && before <= after && lo <= hi
    && forall i :: |before| <= i < |after| ==> NamedBetween(cfg, after[i].name, lo, hi)
  }

  lemma GrownTransitive(cfg: Config, a: seq<Savepoint>, b: seq<Savepoint>, c: seq<Savepoint>, lo: nat, mid: nat,
                        hi: nat)
    requires Grown(cfg, a, b, lo, mid) && Grown(cfg, b, c, mid, hi)
    ensures Grown(cfg, a, c, lo, hi)
  {
    forall i | |a| <= i < |c|
      ensures NamedBetween(cfg, c[i].name, lo, hi)
    {
      if i < |b| {
        assert c[i] == b[i];
        assert NamedBetween(cfg, b[i].name, lo, mid);
      } else {
        assert NamedBetween(cfg, c[i].name, mid, hi);
      }
    }
  }

  // A nested call finds its own savepoint, whatever its body left above it.
  lemma FindOwn(cfg: Config, below: seq<Savepoint>, own: Savepoint, stack: seq<Savepoint>, k: nat, hi: nat)
    requires own.name == SavepointName(cfg, k)
    requires Grown(cfg, below + [own], stack, k, hi)
    ensures Find(stack, own.name) == |below| + 1
    ensures stack[|below|] == own && stack[..|below| + 1] == below + [own] && stack[..|below|] == below
  {
    assert stack[|below|] == (below + [own])[|below|];
    forall i | |below| < i < |stack|
      ensures stack[i].name != own.name
    {
      assert NamedBetween(cfg, stack[i].name, k, hi);
      var j: nat :| k < j <= hi && stack[i].name == SavepointName(cfg, j);
      if stack[i].name == own.name {
        SavepointNamesDiffer(cfg, j, k);
      }
    }
  }

  // ----- running a function against the engine

  method Run(p: Prog, e: Engine, counter: SavepointSeq, last: Outcome) returns (o: Outcome)
    modifies e, counter
    ensures Effect(e.log, e.commands, o) == Meaning(e.cfg, p, old(e.log), old(e.commands), last)
    ensures Grown(e.cfg, old(e.stack), e.stack, old(counter.n), counter.n)
    decreases p, 0
  {
    match p {
      case Return(outcome) =>
        o := outcome;
      case Propagate =>
        o := last;
      case Write(w, rest) =>
        e.Insert(w);
        o := Run(rest, e, counter, last);
      case Nest(withOptions, body, onOk, onErr, onPanic) =>
        ghost var stack0, n0 := e.stack, counter.n;
        var inner := InTxNested(withOptions, body, e, counter);
        ghost var stack1, n1 := e.stack, counter.n;
        match inner {
          case Success => o := Run(onOk, e, counter, inner);
          case Failed(_) => o := Run(onErr, e, counter, inner);
          case Panicked(_) => o := Run(onPanic, e, counter, inner);
        }
        GrownTransitive(e.cfg, stack0, stack1, e.stack, n0, n1, counter.n);
    }
  }

  // InTx called with a transaction.
  method InTxNested(withOptions: bool, body: Prog, e: Engine, counter: SavepointSeq) returns (o: Outcome)
    modifies e, counter
    ensures Effect(e.log, e.commands, o) == NestMeaning(e.cfg, withOptions, body, old(e.log), old(e.commands))
    ensures Grown(e.cfg, old(e.stack), e.stack, old(counter.n), counter.n)
    ensures !o.Panicked? && Reliable(e.cfg) ==> e.stack == old(e.stack)
    decreases body, 2
  {
    if withOptions {
      return Failed(Error(NestedOptions, Unknown));
    }
    if !e.cfg.savepoints {
      return Failed(Error(NoSavepoints, Unknown));
    }
    o := RunNest(body, e, counter);
  }

  // No command fails.
  ghost predicate Reliable(cfg: Config) {
    forall k :: cfg.fails(k).None?
  }

  // After an error: back to the savepoint, and then rid of it.
  method FinishFailed(err: Error, name: string, e: Engine, ghost below: seq<Savepoint>, ghost own: Savepoint)
    returns (o: Outcome)
    requires own.name == name && below + [own] <= e.stack
    requires Find(e.stack, name) == |below| + 1
    modifies e
    ensures Effect(e.log, e.commands, o)
         == NestEnd(e.cfg, own.snapshot, Effect(old(e.log), old(e.commands), Failed(err)))
    ensures below <= e.stack <= old(e.stack)
    ensures Reliable(e.cfg) ==> e.stack == below
  {
    hide Find;
    assert e.stack[|below|] == own && e.stack[..|below|] == below;
    var rb := e.RollbackTo(name);
    if rb.Some? {
      return Failed(Error(RollbackAlsoFailed(err), err.code));
    }
    FindLast(below, own);
    assert e.stack == below + [own];
    var _ := e.Release(name);
    o := Failed(err);
  }

  // A panic leaves the savepoint behind: it is rolled back to but not released.
  method RunNest(body: Prog, e: Engine, counter: SavepointSeq) returns (o: Outcome)
    requires e.cfg.savepoints
    modifies e, counter
    ensures Effect(e.log, e.commands, o) == NestMeaning(e.cfg, false, body, old(e.log), old(e.commands))
    ensures Grown(e.cfg, old(e.stack), e.stack, old(counter.n), counter.n)
    ensures !o.Panicked? && Reliable(e.cfg) ==> e.stack == old(e.stack)
    decreases body, 1
  {
    var others: nat :| true;
    ghost var below, n0 := e.stack, counter.n;
    var k := counter.Add(others);
    var name := SavepointName(e.cfg, k);
    var failure := e.Save(name);
    if failure.Some? {
      return Failed(Error(SavepointFailed, failure.value));
    }
    ghost var own := Savepoint(name, e.log);
    assert NamedBetween(e.cfg, name, n0, k);
    assert Grown(e.cfg, below, below + [own], n0, k);
    o := Run(body, e, counter, Success);
    FindOwn(e.cfg, below, own, e.stack, k, counter.n);
    ghost var full := e.stack;
    o := FinishNest(o, name, e, below, own);
    assert Grown(e.cfg, below + [own], full, k, counter.n);
    GrownTransitive(e.cfg, below, below + [own], full, n0, k, counter.n);
    GrownPrefix(e.cfg, below, full, e.stack, n0, counter.n);
  }

  lemma GrownPrefix(cfg: Config, below: seq<Savepoint>, full: seq<Savepoint>, stack: seq<Savepoint>, lo: nat, hi: nat)
    requires Grown(cfg, below, full, lo, hi) && below <= stack <= full
    ensures Grown(cfg, below, stack, lo, hi)
  {
    forall i | |below| <= i < |stack|
      ensures NamedBetween(cfg, stack[i].name, lo, hi)
    {
      assert stack[i] == full[i];
    }
  }

  // How a nested call ends once its body has ended with `inner`.
  method FinishNest(inner: Outcome, name: string, e: Engine, ghost below: seq<Savepoint>, ghost own: Savepoint)
    returns (o: Outcome)
    requires own.name == name && below + [own] <= e.stack
    requires Find(e.stack, name) == |below| + 1
    modifies e
    ensures Effect(e.log, e.commands, o) == NestEnd(e.cfg, own.snapshot, Effect(old(e.log), old(e.commands), inner))
    ensures below <= e.stack <= old(e.stack)
    ensures !o.Panicked? && Reliable(e.cfg) ==> e.stack == below
  {
    hide Find;
    assert e.stack[|below|] == own && e.stack[..|below|] == below;
    o := inner;
    match inner {
      case Panicked(_) =>
        var _ := e.RollbackTo(name);
      case Failed(err) =>
        o := FinishFailed(err, name, e, below, own);
      case Success =>
        var rel := e.Release(name);
        if rel.Some? {
          return Failed(Error(ReleaseFailed, rel.value));
        }
    }
  }

  lemma FindLast(below: seq<Savepoint>, own: Savepoint)
    ensures Find(below + [own], own.name) == |below| + 1
  {
  }

  // ----- what a function's tree means when the engine does as it is told

  datatype Kept = Kept(writes: seq<int>, outcome: Outcome)

  // The writes that count: a nested call that fails or panics contributes none
  // of its own, everything else applies in order.
  function KeptBy(savepoints: bool, p: Prog, last: Outcome): Kept {
    match p
    case Return(o) => Kept([], o)
    case Propagate => Kept([], last)
    case Write(w, rest) =>
      var k := KeptBy(savepoints, rest, last);
      Kept([w] + k.writes, k.outcome)
    case Nest(withOptions, body, onOk, onErr, onPanic) =>
      var inner :=
        if withOptions then Kept([], Failed(Error(NestedOptions, Unknown)))
        else if !savepoints then Kept([], Failed(Error(NoSavepoints, Unknown)))
        else KeptBy(savepoints, body, Success);
      match inner.outcome
      case Success =>
        var k := KeptBy(savepoints, onOk, inner.outcome);
        Kept(inner.writes + k.writes, k.outcome)
      case Failed(_) => KeptBy(savepoints, onErr, inner.outcome)
      case Panicked(_) => KeptBy(savepoints, onPanic, inner.outcome)
  }

  // Nested atomicity, for every tree of writes, nested calls, errors, panics and
  // recovered panics, whatever savepoints the panics leave behind.
  lemma {:induction false} NestedAtomicity(cfg: Config, p: Prog, log: seq<int>, commands: nat, last: Outcome)
    requires Reliable(cfg)
    ensures var m := Meaning(cfg, p, log, commands, last);
            var k := KeptBy(cfg.savepoints, p, last);
            m.log == log + k.writes && m.outcome == k.outcome
    decreases p
  {
    match p {
      case Return(_) =>
      case Propagate =>
      case Write(w, rest) =>
        NestedAtomicity(cfg, rest, log + [w], commands, last);
        assert log + [w] + KeptBy(cfg.savepoints, rest, last).writes
            == log + ([w] + KeptBy(cfg.savepoints, rest, last).writes);
      case Nest(withOptions, body, onOk, onErr, onPanic) =>
        NestedAtomicity(cfg, body, log, commands + 1, Success);
        var r := NestMeaning(cfg, withOptions, body, log, commands);
        match r.outcome {
          case Success => NestedAtomicity(cfg, onOk, r.log, r.commands, r.outcome);
          case Failed(_) => NestedAtomicity(cfg, onErr, r.log, r.commands, r.outcome);
          case Panicked(_) => NestedAtomicity(cfg, onPanic, r.log, r.commands, r.outcome);
        }
    }
  }

  // ----- when commands may fail

  // What a tree's calls contribute if each that does not succeed contributes
  // nothing, the calls themselves going as they go under failing commands.
  function Ideal(cfg: Config, p: Prog, log: seq<int>, commands: nat, last: Outcome): seq<int>
    decreases p
  {
    match p
    case Return(_) => []
    case Propagate => []
    case Write(w, rest) => [w] + Ideal(cfg, rest, log + [w], commands, last)
    case Nest(withOptions, body, onOk, onErr, onPanic) =>
      var r := NestMeaning(cfg, withOptions, body, log, commands);
      var next := match r.outcome case Success => onOk case Failed(_) => onErr case Panicked(_) => onPanic;
      (if r.outcome.Success? then Ideal(cfg, body, log, commands + 1, Success) else [])
      + Ideal(cfg, next, r.log, r.commands, r.outcome)
  }

  // The call gets past its own SAVEPOINT.
  predicate Entered(cfg: Config, withOptions: bool, commands: nat) {
    !withOptions && cfg.savepoints && cfg.fails(commands).None?
  }

  // Some call in the tree leaves writes it should not, and nothing enclosing it
  // takes them back: it does not succeed, its body wrote, and the one command
  // after its body failed. After a success that command is RELEASE.
  predicate Leaks(cfg: Config, p: Prog, log: seq<int>, commands: nat, last: Outcome)
    decreases p, 0
  {
    match p
    case Return(_) => false
    case Propagate => false
    case Write(w, rest) => Leaks(cfg, rest, log + [w], commands, last)
    case Nest(withOptions, body, onOk, onErr, onPanic) =>
      var r := NestMeaning(cfg, withOptions, body, log, commands);
      var next := match r.outcome case Success => onOk case Failed(_) => onErr case Panicked(_) => onPanic;
      || LeaksOwn(cfg, withOptions, body, log, commands)
      || Leaks(cfg, next, r.log, r.commands, r.outcome)
  }

  // The call itself leaks, or succeeds with a leak inside.
  predicate LeaksOwn(cfg: Config, withOptions: bool, body: Prog, log: seq<int>, commands: nat)
    decreases body, 1
  {
    var r := NestMeaning(cfg, withOptions, body, log, commands);
    && Entered(cfg, withOptions, commands)
    && (if r.outcome.Success? then Leaks(cfg, body, log, commands + 1, Success)
        else
          var inner := Meaning(cfg, body, log, commands + 1, Success);
          cfg.fails(inner.commands).Some? && inner.log != log)
  }

  // From log to m the ideal writes were added, and nothing else unless leaked.
  predicate Added(log: seq<int>, ideal: seq<int>, m: seq<int>, leaked: bool) {
    && log <= m && |m| >= |log| + |ideal|
    && (m == log + ideal <==> !leaked)
    && (|m| == |log| + |ideal| <==> !leaked)
  }

  lemma AddedTwice(log: seq<int>, a: seq<int>, mid: seq<int>, b: seq<int>, m: seq<int>, leakedA: bool, leakedB: bool)
    requires Added(log, a, mid, leakedA) && Added(mid, b, m, leakedB)
    ensures Added(log, a + b, m, leakedA || leakedB)
  {
    assert log + (a + b) == log + a + b;
  }

  // The writes a tree adds are never fewer than the ideal ones, and just those
  // when no call leaks.
  lemma {:induction false} TreeAdds(cfg: Config, p: Prog, log: seq<int>, commands: nat, last: Outcome)
    ensures Added(log, Ideal(cfg, p, log, commands, last), Meaning(cfg, p, log, commands, last).log,
                  Leaks(cfg, p, log, commands, last))
    decreases p
  {
    match p {
      case Return(_) =>
      case Propagate =>
      case Write(w, rest) =>
        TreeAdds(cfg, rest, log + [w], commands, last);
        assert Added(log, [w], log + [w], false);
        AddedTwice(log, [w], log + [w], Ideal(cfg, rest, log + [w], commands, last),
                   Meaning(cfg, rest, log + [w], commands, last).log, false,
                       Leaks(cfg, rest, log + [w], commands, last));
      case Nest(withOptions, body, onOk, onErr, onPanic) =>
        hide NestMeaning, Added;
        var r := NestMeaning(cfg, withOptions, body, log, commands);
        var next := match r.outcome case Success => onOk case Failed(_) => onErr case Panicked(_) => onPanic;
        TreeAdds(cfg, body, log, commands + 1, Success);
        TreeAdds(cfg, next, r.log, r.commands, r.outcome);
        NestAdds(cfg, withOptions, body, log, commands);
        var own := if r.outcome.Success? then Ideal(cfg, body, log, commands + 1, Success) else [];
        AddedTwice(log, own, r.log, Ideal(cfg, next, r.log, r.commands, r.outcome),
                   Meaning(cfg, next, r.log, r.commands, r.outcome).log,
                   LeaksOwn(cfg, withOptions, body, log, commands), Leaks(cfg, next, r.log, r.commands, r.outcome));
    }
  }

  lemma NestAdds(cfg: Config, withOptions: bool, body: Prog, log: seq<int>, commands: nat)
    requires Added(log, Ideal(cfg, body, log, commands + 1, Success),
                   Meaning(cfg, body, log, commands + 1, Success).log,
                   Leaks(cfg, body, log, commands + 1, Success))
    ensures var r := NestMeaning(cfg, withOptions, body, log, commands);
            var own := if r.outcome.Success? then Ideal(cfg, body, log, commands + 1, Success) else [];
            Added(log, own, r.log, LeaksOwn(cfg, withOptions, body, log, commands))
  {
    hide Meaning, Ideal, Leaks;
  }

  // With commands that may fail at any point, a tree's effect is the ideal one
  // if and only if no call leaks.
  lemma AtomicityUnderFailure(cfg: Config, p: Prog, log: seq<int>, commands: nat, last: Outcome)
    ensures Meaning(cfg, p, log, commands, last).log == log + Ideal(cfg, p, log, commands, last)
            <==> !Leaks(cfg, p, log, commands, last)
  {
    TreeAdds(cfg, p, log, commands, last);
  }

  // A RELEASE that fails: the call reports an error and its write is kept.
  lemma ReleaseFailureKeepsWrites(cfg: Config, w: int, log: seq<int>)
    requires cfg.savepoints && cfg.fails(0).None? && cfg.fails(1).Some?
    ensures var r := NestMeaning(cfg, false, Write(w, Return(Success)), log, 0);
            r.outcome.Failed? && r.log == log + [w] != log
  {
    assert Meaning(cfg, Write(w, Return(Success)), log, 1, Success) == Effect(log + [w], 1, Success);
  }

  // ----- the outermost transaction

  class Database {
    var committed: seq<int>

    constructor ()
      ensures committed == []
    {
      committed := [];
    }
  }

  // What may go wrong outside the function itself.
  datatype Faults = Faults(begin: Option<Code>, rollback: bool, commit: Option<Code>)

  // What InTx returns, and what is committed when it is done.
  function TxEffect(cfg: Config, faults: Faults, body: Prog, start: seq<int>): (e: (Outcome, seq<int>)) {
    if faults.begin.Some? then (Failed(Error(BeginFailed, faults.begin.value)), start)
    else
      var m := Meaning(cfg, body, start, 0, Success);
      match m.outcome
      case Panicked(_) => (m.outcome, start)
      case Failed(err) =>
        (if faults.rollback then Failed(Error(RollbackAlsoFailed(err), err.code)) else m.outcome, start)
      case Success =>
        if faults.commit.Some? then (Failed(Error(CommitFailed, faults.commit.value)), start)
        else (Success, m.log)
  }

  // How a transaction whose function came to m must be reported. A begin or a
  // commit that fails is reported with its own code. A panic goes on as it is. An
  // error of the function is returned unchanged when the rollback succeeds, and
  // with its code when it does not. Only success commits anything.
  predicate Reported(o: Outcome, committed: seq<int>, faults: Faults, m: Effect, start: seq<int>) {
    && (faults.begin.Some? ==> o == Failed(Error(BeginFailed, faults.begin.value)))
    && (faults.begin.None? && m.outcome.Panicked? ==> o == m.outcome)
    && (faults.begin.None? && m.outcome.Failed? && !faults.rollback ==> o == m.outcome)
    && (faults.begin.None? && m.outcome.Failed? && faults.rollback ==>
          o.Failed? && o.error.code == m.outcome.error.code && o.error.cause == RollbackAlsoFailed(m.outcome.error))
    && (faults.begin.None? && m.outcome.Success? && faults.commit.Some? ==>
          o == Failed(Error(CommitFailed, faults.commit.value)))
    && (faults.begin.None? && m.outcome.Success? && faults.commit.None? ==> o.Success? && committed == m.log)
    && (!o.Success? ==> committed == start)
  }

  // The same of any transaction's effect.
  lemma TxReports(cfg: Config, faults: Faults, body: Prog, start: seq<int>)
    ensures var (o, committed) := TxEffect(cfg, faults, body, start);
            Reported(o, committed, faults, Meaning(cfg, body, start, 0, Success), start)
  {
    hide Meaning;
  }

  // How a nested call must be reported, given what its body came to: refusals
  // first; a SAVEPOINT or RELEASE that fails with its own code; the body's error
  // unchanged, or with its code when the rollback fails; a panic as it is.
  lemma NestReports(cfg: Config, withOptions: bool, body: Prog, log: seq<int>, commands: nat)
    ensures var o := NestMeaning(cfg, withOptions, body, log, commands).outcome;
            var inner := Meaning(cfg, body, log, commands + 1, Success);
            var entered := !withOptions && cfg.savepoints && cfg.fails(commands).None?;
            && (withOptions ==> o == Failed(Error(NestedOptions, Unknown)))
            && (!withOptions && !cfg.savepoints ==> o == Failed(Error(NoSavepoints, Unknown)))
            && (!withOptions && cfg.savepoints && cfg.fails(commands).Some? ==>
                  o == Failed(Error(SavepointFailed, cfg.fails(commands).value)))
            && (entered && inner.outcome.Panicked? ==> o == inner.outcome)
            && (entered && inner.outcome.Failed? && cfg.fails(inner.commands).None? ==> o == inner.outcome)
            && (entered && inner.outcome.Failed? && cfg.fails(inner.commands).Some? ==>
                  o == Failed(Error(RollbackAlsoFailed(inner.outcome.error), inner.outcome.error.code)))
            && (entered && inner.outcome.Success? && cfg.fails(inner.commands).None? ==> o.Success?)
            && (entered && inner.outcome.Success? && cfg.fails(inner.commands).Some? ==>
                  o == Failed(Error(ReleaseFailed, cfg.fails(inner.commands).value)))
  {
    hide Meaning;
  }

  method InTx(db: Database, cfg: Config, faults: Faults, body: Prog, counter: SavepointSeq) returns (o: Outcome)
    modifies db, counter
    ensures (o, db.committed) == TxEffect(cfg, faults, body, old(db.committed))
    ensures var m := Meaning(cfg, body, old(db.committed), 0, Success);
            Reported(o, db.committed, faults, m, old(db.committed))
  {
    TxReports(cfg, faults, body, db.committed);
    if faults.begin.Some? {
      return Failed(Error(BeginFailed, faults.begin.value));
    }
    var e := new Engine(cfg, db.committed);
    o := Run(body, e, counter, Success);
    match o {
      case Panicked(_) =>
      case Failed(err) =>
        if faults.rollback {
          o := Failed(Error(RollbackAlsoFailed(err), err.code));
        }
      case Success =>
        if faults.commit.Some? {
          return Failed(Error(CommitFailed, faults.commit.value));
        }
        db.committed := e.log;
    }
  }

  // A transaction is all or nothing: it commits the kept writes exactly when it
  // reports success, which takes a function that succeeds and a begin and commit
  // that do; otherwise nothing is committed.
  lemma AllOrNothing(cfg: Config, faults: Faults, body: Prog, start: seq<int>)
    requires Reliable(cfg)
    ensures var (o, committed) := TxEffect(cfg, faults, body, start);
            var kept := KeptBy(cfg.savepoints, body, Success);
            && (o.Success? <==> faults.begin.None? && faults.commit.None? && kept.outcome.Success?)
            && committed == (if o.Success? then start + kept.writes else start)
  {
    NestedAtomicity(cfg, body, start, 0, Success);
  }
}
