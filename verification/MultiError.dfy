/** Errors collected from several nodes (pkg/common/errors/multi). A nil error
    is NoError; an Errors list holds errors that may be lists themselves. */
module MultiError {
  datatype Error<E> = NoError | Single(cause: E) | Several(list: seq<Error<E>>)

  /** Nil exactly when there is nothing to report. */
  ghost predicate Proper<E>(e: Error<E>) {
    Causes(e) == [] <==> e.NoError?
  }

  /** The causes an error reports, in order. */
  ghost function Causes<E>(e: Error<E>): seq<E>
    decreases e
  {
    match e
    case NoError => []
    case Single(c) => [c]
    case Several(l) => CausesOf(l)
  }

  ghost function CausesOf<E>(l: seq<Error<E>>): seq<E>
    decreases l
  {
    if l == [] then [] else Causes(l[0]) + CausesOf(l[1..])
  }

  function NonNil<E>(l: seq<Error<E>>): seq<Error<E>> {
    if l == [] then [] else (if l[0].NoError? then [] else [l[0]]) + NonNil(l[1..])
  }

  /** Errors.ToError. */
  function ToError<E>(l: seq<Error<E>>): Error<E> {
    if |l| == 0 then NoError else if |l| == 1 then l[0] else Several(l)
  }

  function New<E>(l: seq<Error<E>>): Error<E> {
    ToError(NonNil(l))
  }

  function Append<E>(errs: Error<E>, err: Error<E>): Error<E> {
    if !errs.Several? then New([errs, err])
    else if err.NoError? then errs
    else Several(errs.list + [err])
  }

  lemma {:induction false} CausesOfConcat<E>(a: seq<Error<E>>, b: seq<Error<E>>)
    ensures CausesOf(a + b) == CausesOf(a) + CausesOf(b)
  {
    if a == [] {
      assert a + b == b;
    } else {
      CausesOfConcat(a[1..], b);
      assert (a + b)[1..] == a[1..] + b;
    }
  }

  lemma {:induction false} CausesOfNonNil<E>(l: seq<Error<E>>)
    ensures CausesOf(NonNil(l)) == CausesOf(l)
  {
    if l != [] {
      CausesOfNonNil(l[1..]);
      CausesOfConcat(if l[0].NoError? then [] else [l[0]], NonNil(l[1..]));
      assert CausesOf([l[0]]) == Causes(l[0]) + CausesOf([]);
    }
  }

  lemma ToErrorKeeps<E>(l: seq<Error<E>>)
    ensures Causes(ToError(l)) == CausesOf(l)
  {
    if |l| == 1 {
      assert l[1..] == [];
    }
  }

  /** However errors are nested, Append loses, repeats and reorders no cause. */
  lemma AppendKeeps<E>(errs: Error<E>, err: Error<E>)
    ensures Causes(Append(errs, err)) == Causes(errs) + Causes(err)
    ensures Proper(errs) && Proper(err) ==> Proper(Append(errs, err))
  {
    if errs.Several? {
      CausesOfConcat(errs.list, [err]);
      assert CausesOf([err]) == Causes(err) + CausesOf([]);
    } else {
      var l := [errs, err];
      CausesOfNonNil(l);
      ToErrorKeeps(NonNil(l));
      assert l[1..] == [err] && CausesOf([err]) == Causes(err) + CausesOf([]);
    }
  }

  lemma AppendCause<E>(errs: Error<E>, cause: E)
    requires Proper(errs)
    ensures Causes(Append(errs, Single(cause))) == Causes(errs) + [cause]
    ensures Proper(Append(errs, Single(cause)))
  {
    AppendKeeps(errs, Single(cause));
  }
}
