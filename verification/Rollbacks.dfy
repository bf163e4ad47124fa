/** Signed permissions to go back to an older release (`Rollback` in
    `common/src/release.rs`). */
module Rollbacks {
  import opened Wrappers
  import opened Orders
  import V = Version
  import VersionOrder

  const MANIFEST_FORMAT: nat := 1

  datatype Rollback = Rollback(format: nat, version: string, from: seq<string>)

  datatype RollbackError =
    | UnknownFormat(format: nat)
    | NotAVersion(text: string)
    | NoFrom
    | NotNewer(from: string)

  /** `allows`. */
  predicate Allows(r: Rollback, own: string) {
    own in r.from
  }

  /** `to` is an older version than `from`. */
  predicate Older(to: string, from: string) {
    && V.Parse(to).Some? && V.Parse(from).Some?
    && V.Precedence(V.Parse(to).value, V.Parse(from).value) == Less
  }

  /** What `validate` accepts. */
  predicate Valid(r: Rollback) {
    && r.format == MANIFEST_FORMAT && V.Parse(r.version).Some? && r.from != []
    && forall from :: from in r.from ==> Older(r.version, from)
  }

  /** What each refusal says of the rollback. */
  predicate Wrong(r: Rollback, error: RollbackError) {
    match error
    case UnknownFormat(format) => format == r.format && format != MANIFEST_FORMAT
    case NotAVersion(text) => (text == r.version || text in r.from) && V.Parse(text).None?
    case NoFrom => r.from == []
    case NotNewer(from) => from in r.from && V.Parse(from).Some? && !Older(r.version, from)
  }

  /** `validate`. */
  method Validate(r: Rollback) returns (result: Result<(), RollbackError>)
    ensures result.Ok? <==> Valid(r)
    ensures result.Err? ==> Wrong(r, result.error)
  {
    hide V.Parse, V.Precedence, V.Valid;
    if r.format != MANIFEST_FORMAT {
      return Err(UnknownFormat(r.format));
    }
    var to := V.Parse(r.version);
    if to.None? {
      return Err(NotAVersion(r.version));
    }
    if r.from == [] {
      return Err(NoFrom);
    }
    for i := 0 to |r.from|
      invariant forall k :: 0 <= k < i ==> Older(r.version, r.from[k])
    {
      var from := V.Parse(r.from[i]);
      assert r.from[i] in r.from;
      if from.None? {
        return Err(NotAVersion(r.from[i]));
      }
      var order := V.Compare(from.value, to.value);
      V.VersionsAreOrdered(from.value, to.value);
      if order != Greater {
        return Err(NotNewer(r.from[i]));
      }
    }
    result := Ok(());
  }

  /** A rollback is valid exactly when it has format 1, a version to go back to, and
      versions to go back from, each later by section 11 of Semantic Versioning
      2.0.0. */
  lemma ValidExactly(r: Rollback)
    ensures Valid(r) <==>
              && r.format == 1 && r.from != [] && V.Parse(r.version).Some?
              && forall from :: from in r.from ==>
                   V.Parse(from).Some? && VersionOrder.Earlier(V.Parse(r.version).value, V.Parse(from).value)
  {
    hide V.Parse, V.Precedence, V.Valid, VersionOrder.Earlier;
    if V.Parse(r.version).Some? {
      forall from | from in r.from && V.Parse(from).Some?
        ensures Older(r.version, from)
           <==> VersionOrder.Earlier(V.Parse(r.version).value, V.Parse(from).value)
      {
        VersionOrder.PrecedenceIsEarlier(V.Parse(r.version).value, V.Parse(from).value);
      }
    }
  }

  /** A refusal is never of a valid rollback, and one that isn't valid can be
      refused. */
  lemma RefusedExactly(r: Rollback)
    ensures (exists error :: Wrong(r, error)) <==> !Valid(r)
  {
    hide V.Parse, V.Precedence;
    if !Valid(r) {
      if r.format != MANIFEST_FORMAT {
        assert Wrong(r, UnknownFormat(r.format));
      } else if V.Parse(r.version).None? {
        assert Wrong(r, NotAVersion(r.version));
      } else if r.from == [] {
        assert Wrong(r, NoFrom);
      } else {
        var from :| from in r.from && !Older(r.version, from);
        assert Wrong(r, if V.Parse(from).None? then NotAVersion(from) else NotNewer(from));
      }
    }
  }

  /** Rollbacks taken one after another by a machine that runs `own`: each is
      valid and allows the version that runs when it comes. */
  predicate IsRun(own: string, run: seq<Rollback>)
    decreases |run|
  {
    run == [] || (Valid(run[0]) && Allows(run[0], own) && IsRun(run[0].version, run[1..]))
  }

  /** The version that runs after them. */
  function After(own: string, run: seq<Rollback>): string {
    if run == [] then own else run[|run| - 1].version
  }

  lemma OlderOlder(a: string, b: string, c: string)
    requires Older(a, b) && Older(b, c)
    ensures Older(a, c)
  {
    hide V.Parse, V.Precedence;
    V.VersionsAreTransitive(V.Parse(a).value, V.Parse(b).value, V.Parse(c).value);
  }

  lemma NotOlderThanItself(a: string)
    ensures !Older(a, a)
  {
    if V.Parse(a).Some? {
      V.VersionsAreOrdered(V.Parse(a).value, V.Parse(a).value);
    }
  }

  /** Every run of rollbacks descends: what runs after it is older than what ran
      before, whoever signed the rollbacks and in whatever order they come. */
  lemma {:induction false} RunDescends(own: string, run: seq<Rollback>)
    requires IsRun(own, run) && run != []
    ensures Older(After(own, run), own)
    decreases |run|
  {
    hide Older, V.Parse, V.Precedence;
    var first, rest := run[0], run[1..];
    assert Older(first.version, own);
    if rest != [] {
      RunDescends(first.version, rest);
      assert After(first.version, rest) == After(own, run);
      OlderOlder(After(own, run), first.version, own);
    }
  }

  lemma {:induction false} RunFrom(own: string, run: seq<Rollback>, i: nat)
    requires IsRun(own, run) && i <= |run|
    ensures IsRun(After(own, run[..i]), run[i..])
    decreases |run|
  {
    hide Valid, Allows;
    if i == 0 {
      assert run[0..] == run;
    } else {
      RunFrom(run[0].version, run[1..], i - 1);
      assert run[1..][i - 1..] == run[i..] && run[1..][..i - 1] == run[..i][1..];
    }
  }

  /** So no version comes back, at any two points of the run. */
  lemma NoVersionComesBack(own: string, run: seq<Rollback>, i: nat, j: nat)
    requires IsRun(own, run) && i < j <= |run|
    ensures Older(After(own, run[..j]), After(own, run[..i]))
    ensures After(own, run[..j]) != After(own, run[..i])
  {
    hide Older, IsRun, After;
    var at := After(own, run[..i]);
    RunFrom(own, run, i);
    RunTo(at, run[i..], j - i);
    assert run[i..][..j - i] == run[i..j];
    RunDescends(at, run[i..j]);
    AfterPart(own, run, i, j);
    NotOlderThanItself(at);
  }

  lemma AfterPart(own: string, run: seq<Rollback>, i: nat, j: nat)
    requires i < j <= |run|
    ensures After(After(own, run[..i]), run[i..j]) == After(own, run[..j])
  {
    assert run[..j][j - 1] == run[i..j][j - i - 1];
  }

  lemma {:induction false} RunTo(own: string, run: seq<Rollback>, n: nat)
    requires IsRun(own, run) && n <= |run|
    ensures IsRun(own, run[..n])
    decreases |run|
  {
    hide Valid, Allows;
    if n > 0 {
      RunTo(run[0].version, run[1..], n - 1);
      assert run[..n][1..] == run[1..][..n - 1];
    }
  }
}
