/** Go's error values as the core builds them: plain errors, errors wrapped
    with `fmt.Errorf("...: %w", err)`, and `FatalMigrationError`. */
module Errors {
  import opened Wrappers

  datatype Error =
    | Failure(msg: string)                 // an error that wraps nothing (driver errors, errors.New)
    | Wrapped(context: string, inner: Error) // fmt.Errorf("<context>: %w", inner)
    | FatalMigration(err: Error)           // FatalMigrationError{Err: err}

  /** `err.Error()`: a wrapper prefixes its context; `FatalMigrationError`
      delegates to the error it carries. */
  function Message(e: Error): string
  {
    match e
    case Failure(m) => m
    case Wrapped(c, inner) => c + ": " + Message(inner)
    case FatalMigration(inner) => Message(inner)
  }

  /** `errors.Unwrap(err)`. */
  function Unwrap(e: Error): Option<Error>
  {
    match e
    case Failure(_) => None
    case Wrapped(_, inner) => Some(inner)
    case FatalMigration(inner) => Some(inner)
  }

  /** `FatalMigrationError.Error` and `.Unwrap` both delegate to the inner error. */
  lemma FatalDelegates(e: Error)
    ensures Message(FatalMigration(e)) == Message(e)
    ensures Unwrap(FatalMigration(e)) == Some(e)
  {
  }

  /** The errors `errors.As` visits: `e`, then each successive `Unwrap`. */
  function Chain(e: Error): (r: seq<Error>)
    ensures |r| >= 1 && r[0] == e
  {
    match e
    case Failure(_) => [e]
    case Wrapped(_, inner) => [e] + Chain(inner)
    case FatalMigration(inner) => [e] + Chain(inner)
  }

  /** Each link of the chain is the `Unwrap` of the one before, and the last
      link unwraps to nothing. */
  lemma {:induction false} ChainFollowsUnwrap(e: Error)
    ensures forall i :: 0 <= i < |Chain(e)| - 1 ==> Unwrap(Chain(e)[i]) == Some(Chain(e)[i + 1])
    ensures Unwrap(Chain(e)[|Chain(e)| - 1]) == None
  {
    match e
    case Failure(_) =>
    case Wrapped(_, inner) => ChainFollowsUnwrap(inner);
    case FatalMigration(inner) => ChainFollowsUnwrap(inner);
  }

  /** `errors.As(err, &fmErr)` with `fmErr` a `FatalMigrationError`: the first
      fatal error on the chain, if any. */
  function AsFatal(e: Error): (r: Option<Error>)
    ensures r.Some? ==> r.value.FatalMigration?
  {
    match e
    case FatalMigration(_) => Some(e)
    case Wrapped(_, inner) => AsFatal(inner)
    case Failure(_) => None
  }

  predicate IsFatal(e: Error)
  {
    AsFatal(e).Some?
  }

  /** `errors.As` finds a fatal error exactly when one is on the chain, and it
      finds the first one. */
  lemma {:induction false} AsFatalIsFirstOnChain(e: Error)
    ensures AsFatal(e).Some? <==> exists i :: 0 <= i < |Chain(e)| && Chain(e)[i].FatalMigration?
    ensures AsFatal(e).Some? ==> exists i :: 0 <= i < |Chain(e)| && Chain(e)[i] == AsFatal(e).value
                                   && forall j :: 0 <= j < i ==> !Chain(e)[j].FatalMigration?
  {
    match e
    case Failure(_) =>
    case FatalMigration(_) =>
      assert Chain(e)[0] == e;
    case Wrapped(_, inner) =>
      AsFatalIsFirstOnChain(inner);
      var c := Chain(inner);
      assert Chain(e) == [e] + c;
      if AsFatal(e).Some? {
        var i :| 0 <= i < |c| && c[i] == AsFatal(inner).value && forall j :: 0 <= j < i ==> !c[j].FatalMigration?;
        assert Chain(e)[i + 1] == c[i];
        assert forall j :: 0 <= j < i + 1 ==> !Chain(e)[j].FatalMigration? by {
          forall j | 0 <= j < i + 1 ensures !Chain(e)[j].FatalMigration? {
            if j > 0 { assert Chain(e)[j] == c[j - 1]; }
          }
        }
      } else {
        assert AsFatal(inner).None?;
        forall i | 0 <= i < |Chain(e)| ensures !Chain(e)[i].FatalMigration? {
          if i > 0 {
            assert Chain(e)[i] == Chain(inner)[i - 1];
            assert !(0 <= i - 1 < |Chain(inner)| && Chain(inner)[i - 1].FatalMigration?);
          }
        }
      }
  }

  /** Wraps `e` in the given contexts, innermost last. */
  function WrapAll(contexts: seq<string>, e: Error): Error
  {
    if contexts == [] then e else Wrapped(contexts[0], WrapAll(contexts[1..], e))
  }

  /** However many `%w` layers are added on top of a `FatalMigrationError`,
      `errors.As` still finds it, and its message is still the inner one's. */
  lemma {:induction false} FatalFoundThroughWrapping(contexts: seq<string>, e: Error)
    ensures AsFatal(WrapAll(contexts, FatalMigration(e))) == Some(FatalMigration(e))
    ensures Message(AsFatal(WrapAll(contexts, FatalMigration(e))).value) == Message(e)
    decreases |contexts|
  {
    if contexts != [] {
      FatalFoundThroughWrapping(contexts[1..], e);
    }
  }
}
