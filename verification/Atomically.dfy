/** raw-writer's saga: actions in sequence, and compensation of the completed ones when one fails. */
module Atomically {
  import opened Wrappers

  datatype ActionError = ActionError

  /** An action maps the world to the world it leaves and a result or an error; a rollback gets that result. */
  datatype Quark<!S, !R> = Quark(action: S -> (S, Result<R, ActionError>), rollback: (S, R) -> S)

  /** Without a rollback, undoing does nothing. */
  function NewQuark<S, R>(action: S -> (S, Result<R, ActionError>), rollback: Option<(S, R) -> S>): Quark<S, R> {
    Quark(action, match rollback case Some(f) => f case None => (s: S, r: R) => s)
  }

  datatype Call<R> = Acted(quark: nat) | RolledBack(quark: nat, result: R)

  /* ---------------------------------------------------------------- specification */

  datatype Progress<S, R> = Progress(state: S, results: seq<R>, failed: bool)

  /** The actions up to and including the first that fails. */
  function Act<S, R>(quarks: seq<Quark<S, R>>, s: S): (p: Progress<S, R>)
    ensures |p.results| <= |quarks| && (p.failed <==> |p.results| < |quarks|)
  {
    if quarks == [] then Progress(s, [], false)
    else
      match quarks[0].action(s)
      case (s1, Failure(_)) => Progress(s1, [], true)
      case (s1, Success(r)) =>
        var p := Act(quarks[1..], s1);
        Progress(p.state, [r] + p.results, p.failed)
  }

  /** The rollbacks of the completed actions, first action first. */
  function Compensate<S, R>(quarks: seq<Quark<S, R>>, results: seq<R>, s: S): S
    requires |results| <= |quarks|
    decreases |results|
  {
    if results == [] then s
    else Compensate(quarks[1..], results[1..], quarks[0].rollback(s, results[0]))
  }

  /** The same rollbacks, last action first. */
  function CompensateBackwards<S, R>(quarks: seq<Quark<S, R>>, results: seq<R>, s: S): S
    requires |results| <= |quarks|
    decreases |results|
  {
    if results == [] then s
    else quarks[0].rollback(CompensateBackwards(quarks[1..], results[1..], s), results[0])
  }

  function Outcome<S, R>(quarks: seq<Quark<S, R>>, s: S): S {
    var p := Act(quarks, s);
    if p.failed then Compensate(quarks, p.results, p.state) else p.state
  }

  /* ---------------------------------------------------------------- the loop */

  class Atom<S, R> {
    const quarks: seq<Quark<S, R>>
    var intermediate: seq<R>

    constructor (quarks: seq<Quark<S, R>>)
      ensures this.quarks == quarks && intermediate == []
    {
      this.quarks := quarks;
      intermediate := [];
    }

    /** Runs a fresh atom: one intermediate per completed action; on a failure each completed action is rolled
        back once, with its own result, in ascending order. */
    method Run(before: S) returns (s: S, err: Option<ActionError>, calls: seq<Call<R>>)
      requires intermediate == []
      modifies this
      ensures s == Outcome(quarks, before)
      ensures intermediate == Act(quarks, before).results
      ensures err.Some? <==> |intermediate| < |quarks|
      ensures calls == ActedUpTo(if err.Some? then |intermediate| + 1 else |intermediate|)
                       + (if err.Some? then RolledBackAll(intermediate) else [])
    {
      s, err, calls := before, None, [];
      ghost var whole := Act(quarks, before);
      for i := 0 to |quarks|
        invariant |intermediate| == i && err == None
        invariant whole == Prefixed(intermediate, Act(quarks[i..], s))
        invariant calls == ActedUpTo(i)
      {
        ActStep(quarks, i, s, intermediate);
        ActedOneMore<R>(i);
        var (s1, res) := quarks[i].action(s);
        calls := calls + [Acted(i)];
        s := s1;
        if res.Failure? {
          var undone;
          s, undone := RollBack(s);
          return s, Some(res.error), calls + undone;
        }
        intermediate := intermediate + [res.value];
      }
    }

    /** Rolls back every completed action. */
    method RollBack(before: S) returns (s: S, calls: seq<Call<R>>)
      requires |intermediate| <= |quarks|
      ensures s == Compensate(quarks, intermediate, before)
      ensures calls == RolledBackAll(intermediate)
    {
      s, calls := before, [];
      assert quarks[0..] == quarks && intermediate[0..] == intermediate;
      for j := 0 to |intermediate|
        invariant Compensate(quarks[j..], intermediate[j..], s) == Compensate(quarks, intermediate, before)
        invariant calls == RolledBackAll(intermediate[..j])
      {
        assert quarks[j..][1..] == quarks[j + 1..] && intermediate[j..][1..] == intermediate[j + 1..];
        s := quarks[j].rollback(s, intermediate[j]);
        calls := calls + [RolledBack(j, intermediate[j])];
      }
      assert intermediate[..|intermediate|] == intermediate;
    }
  }

  function ActedUpTo<R>(n: nat): seq<Call<R>> {
    seq(n, i requires 0 <= i < n => Acted(i))
  }

  lemma ActedOneMore<R>(n: nat)
    ensures ActedUpTo<R>(n + 1) == ActedUpTo<R>(n) + [Acted(n)]
  {
  }

  function RolledBackAll<R>(results: seq<R>): seq<Call<R>> {
    seq(|results|, j requires 0 <= j < |results| => RolledBack(j, results[j]))
  }

  function Prefixed<S, R>(results: seq<R>, p: Progress<S, R>): Progress<S, R> {
    Progress(p.state, results + p.results, p.failed)
  }

  /** One more action of a run that has come to quark i. */
  lemma ActStep<S, R>(quarks: seq<Quark<S, R>>, i: nat, s: S, results: seq<R>)
    requires i < |quarks|
    ensures var (s1, res) := quarks[i].action(s);
            Prefixed(results, Act(quarks[i..], s)) ==
            if res.Failure? then Progress(s1, results, true)
            else Prefixed(results + [res.value], Act(quarks[i + 1..], s1))
  {
    assert quarks[i..][0] == quarks[i] && quarks[i..][1..] == quarks[i + 1..];
    var (s1, res) := quarks[i].action(s);
    if res.Success? {
      var p := Act(quarks[i + 1..], s1);
      assert results + ([res.value] + p.results) == results + [res.value] + p.results;
    }
  }

  /* ---------------------------------------------------------------- restoration */

  /** Rolling back right after the action undoes it. */
  ghost predicate Undoes<S(!new), R(!new)>(q: Quark<S, R>) {
    forall s :: q.action(s).1.Success? ==> q.rollback(q.action(s).0, q.action(s).1.value) == s
  }

  /** A failing action changes nothing. */
  ghost predicate FailsCleanly<S(!new), R(!new)>(q: Quark<S, R>) {
    forall s :: q.action(s).1.Failure? ==> q.action(s).0 == s
  }

  /** Undoing p before or after q's action makes no difference to either. */
  ghost predicate Independent<S(!new), R(!new)>(p: Quark<S, R>, q: Quark<S, R>) {
    forall s, r :: q.action(p.rollback(s, r)) == (p.rollback(q.action(s).0, r), q.action(s).1)
  }

  /** Every quark but the last, which nothing can follow, can be undone. */
  ghost predicate Reversible<S(!new), R(!new)>(quarks: seq<Quark<S, R>>) {
    && (forall q | q in quarks :: FailsCleanly(q))
    && forall i | 0 <= i < |quarks| - 1 :: Undoes(quarks[i])
  }

  ghost predicate Compensable<S(!new), R(!new)>(quarks: seq<Quark<S, R>>) {
    && Reversible(quarks)
    && forall i, j | 0 <= i < j < |quarks| :: Independent(quarks[i], quarks[j])
  }

  lemma {:induction false} RollbackCommutes<S(!new), R(!new)>(p: Quark<S, R>, quarks: seq<Quark<S, R>>, s: S, r: R)
    requires forall q | q in quarks :: Independent(p, q)
    ensures var a := Act(quarks, s);
            Act(quarks, p.rollback(s, r)) == Progress(p.rollback(a.state, r), a.results, a.failed)
  {
    if quarks != [] {
      var q := quarks[0];
      assert q in quarks && Independent(p, q);
      assert q.action(p.rollback(s, r)) == (p.rollback(q.action(s).0, r), q.action(s).1);
      if q.action(s).1.Success? {
        RollbackCommutes(p, quarks[1..], q.action(s).0, r);
      }
    }
  }

  lemma OutcomeAfterFirst<S(!new), R(!new)>(q: Quark<S, R>, rest: seq<Quark<S, R>>, s: S, s1: S, r: R)
    requires q.action(s) == (s1, Success(r)) && q.rollback(s1, r) == s
    requires forall x | x in rest :: Independent(q, x)
    requires Act([q] + rest, s).failed
    ensures Act(rest, s).failed && Outcome([q] + rest, s) == Outcome(rest, s)
  {
    var a := Act(rest, s1);
    RollbackCommutes(q, rest, s1, r);
    assert ([q] + rest)[1..] == rest && ([r] + a.results)[1..] == a.results;
  }

  lemma CompensableTail<S(!new), R(!new)>(quarks: seq<Quark<S, R>>)
    requires quarks != [] && Compensable(quarks)
    ensures Compensable(quarks[1..]) && forall x | x in quarks[1..] :: Independent(quarks[0], x)
  {
    var rest := quarks[1..];
    assert forall i | 0 <= i < |rest| :: rest[i] == quarks[i + 1];
    assert forall x | x in rest :: x in quarks;
  }

  /** When each rollback undoes its action independently of the later ones, a failed run leaves the world as
      it was, for any number of quarks. */
  lemma {:induction false} FailedRunRestores<S(!new), R(!new)>(quarks: seq<Quark<S, R>>, s: S)
    requires Compensable(quarks) && Act(quarks, s).failed
    ensures Outcome(quarks, s) == s
  {
    var q, rest := quarks[0], quarks[1..];
    assert q in quarks && FailsCleanly(q) && quarks == [q] + rest;
    var (s1, res) := q.action(s);
    if res.Success? {
      assert Undoes(q);
      CompensableTail(quarks);
      OutcomeAfterFirst(q, rest, s, s1, res.value);
      FailedRunRestores(rest, s);
    }
  }

  /** Rolling back in the opposite order would need no independence. */
  lemma {:induction false} BackwardsRestores<S(!new), R(!new)>(quarks: seq<Quark<S, R>>, s: S)
    requires Reversible(quarks) && Act(quarks, s).failed
    ensures var a := Act(quarks, s); CompensateBackwards(quarks, a.results, a.state) == s
  {
    var q, rest := quarks[0], quarks[1..];
    assert q in quarks && FailsCleanly(q);
    var (s1, res) := q.action(s);
    if res.Success? {
      assert Undoes(q) && forall x | x in rest :: x in quarks;
      BackwardsRestores(rest, s1);
      assert Act(quarks, s).results[1..] == Act(rest, s1).results;
    }
  }

  /** Exactly when a failed run restores: the ascending rollbacks come to what the descending ones would. */
  lemma RestoredIff<S(!new), R(!new)>(quarks: seq<Quark<S, R>>, s: S)
    requires Reversible(quarks) && Act(quarks, s).failed
    ensures var a := Act(quarks, s);
            Outcome(quarks, s) == s <==>
              Compensate(quarks, a.results, a.state) == CompensateBackwards(quarks, a.results, a.state)
  {
    BackwardsRestores(quarks, s);
  }

  /** With two completed actions: exactly when their rollbacks commute on the state and results the run reached. */
  lemma TwoRollbacksRestoreIff<S(!new), R(!new)>(quarks: seq<Quark<S, R>>, s: S)
    requires Reversible(quarks) && Act(quarks, s).failed && |Act(quarks, s).results| == 2
    ensures var a := Act(quarks, s);
            var (p, q, x, y) := (quarks[0], quarks[1], a.results[0], a.results[1]);
            Outcome(quarks, s) == s <==>
              q.rollback(p.rollback(a.state, x), y) == p.rollback(q.rollback(a.state, y), x)
  {
    var a := Act(quarks, s);
    var (p, q, x, y) := (quarks[0], quarks[1], a.results[0], a.results[1]);
    RestoredIff(quarks, s);
    assert a.results[1..] == [y] && [y][1..] == [];
    assert quarks[1..][0] == q;
    assert Compensate(quarks[1..], [y], p.rollback(a.state, x)) == q.rollback(p.rollback(a.state, x), y);
    assert CompensateBackwards(quarks[1..], [y], a.state) == q.rollback(a.state, y);
  }

  /** With at most one completed action, as in raw-writer, always. */
  lemma OneRollbackRestores<S(!new), R(!new)>(quarks: seq<Quark<S, R>>, s: S)
    requires Reversible(quarks) && Act(quarks, s).failed && |Act(quarks, s).results| <= 1
    ensures Outcome(quarks, s) == s
  {
    var a := Act(quarks, s);
    RestoredIff(quarks, s);
    if |a.results| == 1 { assert a.results[1..] == []; }
  }

  /** A write that remembers what it overwrote, with a rollback that puts it back. */
  function Overwrite(v: int): Quark<int, int> {
    Quark((s: int) => (v, Success(s)), (s: int, old_: int) => old_)
  }

  function AlwaysFails(): Quark<int, int> {
    Quark((s: int) => (s, Failure(ActionError)), (s: int, r: int) => s)
  }

  /** Dependent quarks are not restored: after two overwrites the ascending order ends with the first one's
      value, although every rollback undoes its own action. */
  lemma DependentQuarksAreNotRestored()
    ensures var quarks := [Overwrite(1), Overwrite(2), AlwaysFails()];
            && Reversible(quarks) && Act(quarks, 0).failed && Outcome(quarks, 0) == 1
  {
    var quarks := [Overwrite(1), Overwrite(2), AlwaysFails()];
    var rest, last := quarks[1..], quarks[1..][1..];
    assert rest == [Overwrite(2), AlwaysFails()] && last == [AlwaysFails()];
    assert Act(last, 2) == Progress(2, [], true);
    assert Act(rest, 1) == Progress(2, [1], true);
    var a := Act(quarks, 0);
    assert a == Progress(2, [0, 1], true);
    assert a.results[1..] == [1] && a.results[1..][1..] == [];
    assert Compensate(quarks, a.results, 2) == Compensate(rest, [1], 0) == Compensate(last, [], 1);
  }
}
